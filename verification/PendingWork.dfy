/** What a flush still owes, read off the history of calls alone: the two dirty flags of the storage
    object (nvme_storage/src/host_fs_backed_nvme_storage.cpp) say exactly that. */
module PendingWork {
  import opened LogTypes
  import opened FileLog
  import opened Directory
  import opened DirectoryRuns

  /** Memory starts afresh. */
  predicate Restarts(ev: Event) {
    ev.InitLog? || ev.Load? || ev.Crash? || ev.Shutdown?
  }

  /** A create that asked for no sync got past its allocation here. */
  predicate DefersSync(events: seq<Event>, k: nat)
    requires k < |events|
  {
    && k > 0 && events[k - 1].CreateOpen? && !events[k - 1].syncNow
    && (events[k].CreateHeader? || (events[k].CreateFail? && !events[k].stage.AllocFailed?))
  }

  /** A create or delete that asked for no persist changed the log here. */
  predicate DefersPersist(events: seq<Event>, k: nat)
    requires k < |events|
  {
    || (events[k].Delete? && !events[k].persistNow && events[k].unlinked)
    || (&& k > 0 && events[k - 1].CreateOpen? && !events[k - 1].persistNow && |events[k - 1].name| < 128
        && events[k].CreateHeader?)
  }

  predicate Syncs(ev: Event) {
    Restarts(ev) || (ev.Flush? && ev.syncOk)
  }

  predicate Persists(ev: Event) {
    Restarts(ev) || (ev.Flush? && ev.persistOk)
  }

  /** Some file was created without a sync, and none has come since. */
  ghost predicate Unsynced(events: seq<Event>) {
    exists k :: 0 <= k < |events| && DefersSync(events, k) && forall m :: k < m < |events| ==> !Syncs(events[m])
  }

  /** Some change was made without a persist, and no flush has written it since. */
  ghost predicate Unpersisted(events: seq<Event>) {
    exists k :: 0 <= k < |events| && DefersPersist(events, k) && forall m :: k < m < |events| ==> !Persists(events[m])
  }

  lemma UnsyncedGrows(events: seq<Event>, n: nat)
    requires n < |events|
    ensures Unsynced(events[..n + 1]) <==> DefersSync(events, n) || (Unsynced(events[..n]) && !Syncs(events[n]))
  {
    var was, now := events[..n], events[..n + 1];
    if Unsynced(now) && !DefersSync(events, n) {
      var k :| 0 <= k < |now| && DefersSync(now, k) && forall m :: k < m < |now| ==> !Syncs(now[m]);
      assert DefersSync(was, k);
      assert !Syncs(now[n]);
      assert forall m :: k < m < |was| ==> was[m] == now[m];
    }
    if DefersSync(events, n) {
      assert DefersSync(now, n);
    } else if Unsynced(was) && !Syncs(events[n]) {
      var k :| 0 <= k < |was| && DefersSync(was, k) && forall m :: k < m < |was| ==> !Syncs(was[m]);
      assert DefersSync(now, k);
      assert forall m :: k < m < |was| ==> now[m] == was[m];
    }
  }

  lemma UnpersistedGrows(events: seq<Event>, n: nat)
    requires n < |events|
    ensures Unpersisted(events[..n + 1]) <==> DefersPersist(events, n) || (Unpersisted(events[..n]) && !Persists(events[n]))
  {
    var was, now := events[..n], events[..n + 1];
    if Unpersisted(now) && !DefersPersist(events, n) {
      var k :| 0 <= k < |now| && DefersPersist(now, k) && forall m :: k < m < |now| ==> !Persists(now[m]);
      assert DefersPersist(was, k);
      assert !Persists(now[n]);
      assert forall m :: k < m < |was| ==> was[m] == now[m];
    }
    if DefersPersist(events, n) {
      assert DefersPersist(now, n);
    } else if Unpersisted(was) && !Persists(events[n]) {
      var k :| 0 <= k < |was| && DefersPersist(was, k) && forall m :: k < m < |was| ==> !Persists(was[m]);
      assert DefersPersist(now, k);
      assert forall m :: k < m < |was| ==> now[m] == was[m];
    }
  }

  /** A create in progress was opened by the event just before. */
  lemma OpenedJustBefore(r: Run, i: nat)
    requires IsRun(r) && i < |r.states|
    ensures var p := r.states[i].phase;
            p.Creating? ==> i > 0 && r.events[i - 1] == CreateOpen(p.name, p.size, p.persistNow, p.syncNow)
  {
    if i > 0 {
      assert Linked(r.states[i - 1], r.events[i - 1], r.states[i]);
      CreatingAfter(r.states[i - 1], r.events[i - 1]);
    }
  }

  lemma CreatingAfter(s: State, ev: Event)
    requires Enabled(s, ev)
    ensures var p := Apply(s, ev).phase; p.Creating? ==> ev == CreateOpen(p.name, p.size, p.persistNow, p.syncNow)
  {
    hide Scan, RemoveIds;
  }

  /** What one event does to the flags. */
  lemma FlagsStep(s: State, ev: Event)
    requires Enabled(s, ev)
    ensures var t := Apply(s, ev);
            var late := ev.CreateHeader? || (ev.CreateFail? && !ev.stage.AllocFailed?);
            t.mem.dirtyFiles <==> (s.phase.Creating? && late && !s.phase.syncNow) || (s.mem.dirtyFiles && !Syncs(ev))
    ensures var t := Apply(s, ev);
            t.mem.dirtyLog <==> || (ev.Delete? && !ev.persistNow && ev.unlinked)
                                || (s.phase.Creating? && ev.CreateHeader? && !s.phase.persistNow && |s.phase.name| < 128)
                                || (s.mem.dirtyLog && !Persists(ev))
  {
    hide Scan, RemoveIds, RemoveId;
  }

  /** In every reachable state the flags say what is still owed, no more and no less. */
  lemma {:induction false} FlagsSayWhatIsOwed(r: Run, i: nat)
    requires IsRun(r) && i < |r.states|
    ensures r.states[i].mem.dirtyFiles <==> Unsynced(r.events[..i])
    ensures r.states[i].mem.dirtyLog <==> Unpersisted(r.events[..i])
  {
    hide Enabled, Apply, Unsynced, Unpersisted;
    if i == 0 {
      NothingOwed(r);
    } else {
      FlagsSayWhatIsOwed(r, i - 1);
      OpenedJustBefore(r, i - 1);
      assert Linked(r.states[i - 1], r.events[i - 1], r.states[i]);
      FlagsStep(r.states[i - 1], r.events[i - 1]);
      InCreation(r, i - 1);
      UnsyncedGrows(r.events, i - 1);
      UnpersistedGrows(r.events, i - 1);
    }
  }

  lemma NothingOwed(r: Run)
    requires IsRun(r)
    ensures !r.states[0].mem.dirtyFiles && !r.states[0].mem.dirtyLog
    ensures !Unsynced(r.events[..0]) && !Unpersisted(r.events[..0])
  {
  }

  /** Header and failure events happen only to a create in progress, and only one opened just before. */
  lemma InCreation(r: Run, i: nat)
    requires IsRun(r) && i < |r.events|
    ensures r.events[i].CreateHeader? || r.events[i].CreateFail? ==> r.states[i].phase.Creating?
  {
    assert Linked(r.states[i], r.events[i], r.states[i + 1]);
  }

  /** A flush returns true exactly when it could do everything the calls before it had put off. */
  lemma FlushReturnsIff(r: Run, i: nat, syncOk: bool, persistOk: bool)
    requires IsRun(r) && i < |r.states|
    ensures FlushReturns(r.states[i], syncOk, persistOk) <==>
            (Unsynced(r.events[..i]) ==> syncOk) && (Unpersisted(r.events[..i]) ==> persistOk)
  {
    FlagsSayWhatIsOwed(r, i);
  }
}
