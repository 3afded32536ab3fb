/** Properties of every run of the directory, with crashes allowed at every step. */
module DirectoryRuns {
  import opened Wrappers
  import opened LogTypes
  import opened FileLog
  import opened LogCodec
  import opened Directory

  datatype Run = Run(states: seq<State>, events: seq<Event>)

  ghost predicate Init(s: State) {
    s.phase.Down? && s.mem == LOST && s.disk.image.None?
  }

  ghost predicate Linked(s: State, ev: Event, t: State) {
    Enabled(s, ev) && t == Apply(s, ev)
  }

  ghost predicate IsRun(r: Run) {
    && |r.states| == |r.events| + 1 && Init(r.states[0])
    && forall i :: 0 <= i < |r.events| ==> Linked(r.states[i], r.events[i], r.states[i + 1])
  }

  lemma {:induction false} RunGood(r: Run, i: nat)
    requires IsRun(r) && i < |r.states|
    ensures Good(r.states[i])
  {
    hide Good, Enabled, Apply;
    if i == 0 {
      InitGood(r.states[0]);
    } else {
      RunGood(r, i - 1);
      assert Linked(r.states[i - 1], r.events[i - 1], r.states[i]);
      GoodStep(r.states[i - 1], r.events[i - 1]);
    }
  }

  lemma InitGood(s: State)
    requires Init(s)
    ensures Good(s)
  {
  }

  // ----- A file created durably and not deleted is never lost

  /** The entry is in the image, its bin carries its metadata, and memory knows it. */
  ghost predicate Secured(s: State, e: Entry) {
    && s.disk.image.Some? && e in s.disk.image.value.entries
    && e.name in s.disk.bins && s.disk.bins[e.name] == BinOf(e)
    && (!s.phase.Down? ==> e in s.mem.entries)
  }

  lemma SecuredStep(s: State, ev: Event, e: Entry)
    requires Good(s) && Enabled(s, ev) && Secured(s, e)
    requires !(ev.Delete? && ev.id == e.fileId && ev.unlinked)
    ensures Secured(Apply(s, ev), e)
  {
    hide Scan, RemoveId, RemoveIds, StorableEntries;
    match ev
    case Load(listed, tombstones) =>
      var log := s.disk.image.value;
      RemoveAllGood(log.entries, tombstones, log.nextId);
    case SweepUnlink(name, _) => NamesOf(s.mem.entries, e);
    case CreateHeader(_) => NamesOf(s.mem.entries, e);
    case Undo(_) => NamesOf(s.mem.entries, e);
    case CreatePersist(ok) =>
      RemoveGood(s.mem.entries, s.phase.e.fileId, s.mem.nextId);
    case Delete(id, _, unlinked) =>
      RemoveGood(s.mem.entries, id, s.mem.nextId);
    case _ =>
  }

  /** A file whose create_file(persist_now) succeeded and that was never unlinked is in the image,
      with its bin intact, in every later state of the run, whatever crashed in between. */
  lemma {:induction false} CreatedSurvives(r: Run, i: nat, j: nat)
    requires IsRun(r) && i < j < |r.states|
    requires r.events[i] == CreatePersist(true) && r.states[i].phase.Persisting?
    requires forall k :: i < k < j && r.events[k].Delete? && r.events[k].unlinked ==>
               r.events[k].id != r.states[i].phase.e.fileId
    ensures Secured(r.states[j], r.states[i].phase.e)
  {
    hide Good, Secured, Apply;
    assert Linked(r.states[j - 1], r.events[j - 1], r.states[j]);
    RunGood(r, j - 1);
    if j == i + 1 {
      PersistSecures(r.states[i]);
    } else {
      CreatedSurvives(r, i, j - 1);
      SecuredStep(r.states[j - 1], r.events[j - 1], r.states[i].phase.e);
    }
  }

  lemma PersistSecures(s: State)
    requires Good(s) && s.phase.Persisting?
    ensures Secured(Apply(s, CreatePersist(true)), s.phase.e)
  {
  }

  // ----- Recovery: what a completed reconcile leaves

  /** Log entries whose bin is present: what recovery keeps. */
  ghost function Survivors(d: Disk): set<Entry>
    requires d.image.Some?
  {
    set e | e in d.image.value.entries && e.name in d.bins
  }

  ghost function KeptBins(d: Disk): map<Name, Bin>
    requires d.image.Some?
  {
    map n | n in d.bins && n in Names(d.image.value.entries) :: d.bins[n]
  }

  predicate IsSweep(ev: Event) {
    (ev.Load? && ev.listed) || ev.SweepUnlink? || ev.SweepDone? || ev.Crash?
  }

  /** While reconcile runs, memory holds the survivors and every other bin is on its list or
      refused to go. */
  ghost predicate SweepInv(s: State) {
    s.phase.Sweeping? ==>
      && s.disk.image.Some?
      && (set e | e in s.mem.entries) == Survivors(s.disk)
      && s.phase.ghosts !! Names(s.disk.image.value.entries)
      && (!s.phase.dropped ==> s.mem.entries == s.disk.image.value.entries)
  }

  lemma SweepStep(s: State, ev: Event)
    requires Good(s) && Enabled(s, ev) && IsSweep(ev) && SweepInv(s) && s.disk.image.Some?
    requires s.phase.Down? || s.phase.Sweeping? || s.phase.Idle?
    ensures var t := Apply(s, ev);
            && SweepInv(t) && t.disk.image.Some? && (t.phase.Down? || t.phase.Sweeping? || t.phase.Idle?)
            && Survivors(t.disk) == Survivors(s.disk) && KeptBins(t.disk) == KeptBins(s.disk)
  {
    hide Scan, RemoveIds, StorableEntries, WfLog;
    match ev
    case Load(_, tombstones) =>
      var log := s.disk.image.value;
      RemoveAllGood(log.entries, tombstones, log.nextId);
      var t := AfterLoad(s, true, tombstones);
      forall n | n in t.phase.ghosts ensures n !in Names(log.entries) {
        if n in Names(log.entries) {
          var e :| e in log.entries && e.name == n;
          ScanHit(log.entries, e);
        }
      }
      if tombstones == [] {
        RemoveNone(log.entries);
      }
    case SweepUnlink(name, _) =>
    case SweepDone(ok) => PersistSurvivors(s, ok);
    case Crash =>
  }

  lemma PersistSurvivors(s: State, ok: bool)
    requires SweepInv(s) && s.phase.Sweeping?
    ensures var d := Persisted(s.disk, s.mem, ok);
            Survivors(d) == Survivors(s.disk) && KeptBins(d) == KeptBins(s.disk)
  {
    var d := Persisted(s.disk, s.mem, ok);
    forall e | e in s.mem.entries ensures e in Survivors(s.disk) {
      assert e in (set x | x in s.mem.entries);
    }
    forall n | n in s.disk.bins ensures n in Names(d.image.value.entries) <==> n in Names(s.disk.image.value.entries) {
      if n in Names(s.disk.image.value.entries) {
        var e :| e in s.disk.image.value.entries && e.name == n;
        assert e in Survivors(s.disk);
      }
    }
  }

  lemma RemoveNone(es: seq<Entry>)
    ensures RemoveIds(es, []) == es
  {
  }

  /** States i..j are a reconcile, possibly interrupted, failing and restarted. */
  ghost predicate Sweeps(r: Run, i: nat, j: nat) {
    && i <= j < |r.states| && |r.states| == |r.events| + 1
    && r.states[i].phase.Down? && r.states[i].disk.image.Some?
    && forall m :: i <= m < j ==> IsSweep(r.events[m])
  }

  lemma {:induction false} SweepsKeep(r: Run, i: nat, j: nat)
    requires IsRun(r) && Sweeps(r, i, j)
    ensures var s, t := r.states[i], r.states[j];
            && SweepInv(t) && t.disk.image.Some? && (t.phase.Down? || t.phase.Sweeping? || t.phase.Idle?)
            && Survivors(t.disk) == Survivors(s.disk) && KeptBins(t.disk) == KeptBins(s.disk)
  {
    hide Good, Enabled, Apply;
    if i < j {
      SweepsKeep(r, i, j - 1);
      RunGood(r, j - 1);
      assert Linked(r.states[j - 1], r.events[j - 1], r.states[j]);
      SweepStep(r.states[j - 1], r.events[j - 1]);
    }
  }

  /** States k..j are one uninterrupted reconcile in which every unlink and the persist succeed. */
  ghost predicate CleanSweep(r: Run, k: nat, j: nat) {
    && k + 1 < j < |r.states| && |r.states| == |r.events| + 1
    && r.events[k].Load? && r.events[k].listed && r.events[j - 1] == SweepDone(true)
    && forall m :: k < m < j - 1 ==> r.events[m].SweepUnlink? && r.events[m].ok
  }

  lemma {:induction false} GhostsListed(r: Run, k: nat, j: nat, m: nat)
    requires IsRun(r) && CleanSweep(r, k, j) && k < m < j
    ensures var s := r.states[m];
            && s.phase.Sweeping? && s.disk.image.Some?
            && s.disk.bins.Keys <= s.phase.ghosts + Names(s.disk.image.value.entries)
  {
    hide RemoveIds, Scan;
    assert Linked(r.states[m - 1], r.events[m - 1], r.states[m]);
    if m == k + 1 {
      var d := r.states[k].disk;
      forall n | n in d.bins && Scan(d.image.value.entries, n).Some? ensures n in Names(d.image.value.entries) {
        ScanSound(d.image.value.entries, n);
      }
    } else {
      GhostsListed(r, k, j, m - 1);
    }
  }

  lemma CleanSweepSettles(r: Run, k: nat, j: nat)
    requires IsRun(r) && CleanSweep(r, k, j) && r.states[k].phase.Down? && r.states[k].disk.image.Some?
    ensures var s, t := r.states[k], r.states[j];
            && t.phase.Idle? && t.disk.image.Some? && t.disk.image.value.entries == t.mem.entries
            && (set e | e in t.mem.entries) == Survivors(s.disk) && t.disk.bins == KeptBins(s.disk)
  {
    hide RemoveIds, RemoveId, Scan, Survivors;
    GhostsListed(r, k, j, j - 1);
    SweepsKeep(r, k, j - 1);
    SweepsKeep(r, k, j);
    assert Linked(r.states[j - 1], r.events[j - 1], r.states[j]);
    var u, t := r.states[j - 1], r.states[j];
    assert t.disk.bins.Keys <= Names(u.disk.image.value.entries);
    assert KeptBins(u.disk) == u.disk.bins;
  }

  /** Reconcile recovers exactly the names in both the last renamed image and the directory.
      Any number of interrupted, failing attempts first, in any iteration order, changes nothing:
      the completed one reaches the same bins and the same entries as if it had run at once. */
  lemma ReconcileRestartable(r: Run, i: nat, k: nat, j: nat)
    requires IsRun(r) && Sweeps(r, i, k) && r.states[k].phase.Down? && CleanSweep(r, k, j)
    ensures var s, t := r.states[i], r.states[j];
            && t.phase.Idle? && t.disk.image.Some? && t.disk.image.value.entries == t.mem.entries
            && (set e | e in t.mem.entries) == Survivors(s.disk)
            && Names(t.mem.entries) == Names(s.disk.image.value.entries) * s.disk.bins.Keys
            && t.disk.bins == KeptBins(s.disk)
  {
    SweepsKeep(r, i, k);
    CleanSweepSettles(r, k, j);
    var s, t := r.states[i], r.states[j];
    forall e ensures e in t.mem.entries <==> e in s.disk.image.value.entries && e.name in s.disk.bins {
      assert e in (set x | x in t.mem.entries) <==> e in Survivors(s.disk);
    }
  }

  /** On a recovered disk reconcile finds nothing to do. */
  lemma ReconcileIdempotent(r: Run, k: nat, j: nat, tombstones: seq<nat>)
    requires IsRun(r) && CleanSweep(r, k, j) && r.states[k].phase.Down? && r.states[k].disk.image.Some?
    requires Enabled(Apply(r.states[j], Crash), Load(true, tombstones))
    ensures var t := r.states[j];
            var u := Apply(Apply(t, Crash), Load(true, tombstones));
            u.disk == t.disk && u.mem.entries == t.mem.entries && u.phase == Sweeping({}, false)
  {
    CleanSweepSettles(r, k, j);
    var t := r.states[j];
    var d := t.disk;
    RunGood(r, j);
    forall e | e in d.image.value.entries ensures e.name in d.bins {
      assert e in (set x | x in t.mem.entries);
      assert e in Survivors(r.states[k].disk);
      NamesOf(r.states[k].disk.image.value.entries, e);
    }
    assert forall i :: 0 <= i < |tombstones| ==> tombstones[i] !in tombstones;
    RemoveNone(d.image.value.entries);
    forall n | n in d.bins ensures Scan(d.image.value.entries, n).Some? {
      var e :| e in r.states[k].disk.image.value.entries && e.name == n;
      assert e in Survivors(r.states[k].disk);
      assert e in (set x | x in t.mem.entries);
      ScanHit(d.image.value.entries, e);
    }
  }

  // ----- Recovered entries describe the bins now under their names

  /** No log entry on disk shares a name with a bin that is not its own. */
  ghost predicate Faithful(d: Disk) {
    d.image.Some? ==>
      forall e :: e in d.image.value.entries && e.name in d.bins ==> d.bins[e.name] == BinOf(e)
  }

  /** create_file opens a bin while the image still holds an older entry of that name. */
  ghost predicate Recreates(s: State, ev: Event) {
    ev.CreateOpen? && s.disk.image.Some? && ev.name in Names(s.disk.image.value.entries)
  }

  ghost predicate MemFaithful(s: State) {
    !s.phase.Down? ==>
      forall e :: e in s.mem.entries && e.name in s.disk.bins ==> s.disk.bins[e.name] == BinOf(e)
  }

  /** A name the image has and memory has dropped has no bin. */
  ghost predicate StaleGone(s: State) {
    !s.phase.Down? && s.disk.image.Some? ==>
      var stored := Names(s.disk.image.value.entries);
      && (forall n :: n in stored && n !in Names(s.mem.entries) ==> n !in s.disk.bins)
      && (s.phase.Creating? || s.phase.Undoing? ==> s.phase.name !in stored)
      && (s.phase.Persisting? ==> s.phase.e.name !in stored)
  }

  ghost predicate Matched(s: State) {
    Faithful(s.disk) && MemFaithful(s) && StaleGone(s)
  }

  lemma NamesFilter(es: seq<Entry>, fs: seq<Entry>, gone: Name)
    requires forall e :: e in es && e.name != gone ==> e in fs
    ensures Names(es) - {gone} <= Names(fs)
  {
  }

  lemma MatchedLoad(s: State, listed: bool, tombstones: seq<nat>)
    requires Good(s) && Enabled(s, Load(listed, tombstones)) && Matched(s)
    ensures Matched(AfterLoad(s, listed, tombstones))
  {
    hide RemoveIds, StorableEntries, Scan, WfLog;
    var log, t := s.disk.image.value, AfterLoad(s, listed, tombstones);
    RemoveAllGood(log.entries, tombstones, log.nextId);
    forall n | n in Names(log.entries) && n !in Names(t.mem.entries) ensures n !in s.disk.bins {
      var e :| e in log.entries && e.name == n;
      if e in t.mem.entries { NamesOf(t.mem.entries, e); }
    }
  }

  lemma MatchedOpen(s: State, ev: Event)
    requires Good(s) && Enabled(s, ev) && ev.CreateOpen? && Matched(s) && !Recreates(s, ev)
    ensures Matched(Apply(s, ev))
  {
    hide StorableEntries, WfLog, FilesAgree;
    assert forall e :: e in s.mem.entries ==> e.name in Names(s.mem.entries);
  }

  lemma MatchedHeader(s: State, extents: seq<Extent>)
    requires Good(s) && Enabled(s, CreateHeader(extents)) && Matched(s)
    ensures Matched(AfterHeader(s, extents))
  {
    hide StorableEntries, FilesAgree, DistinctIds, IdsBelow;
    var e := Entry(s.mem.nextId, s.phase.name, s.phase.size, extents);
    AppendNames(s.mem.entries, e);
    assert forall x :: x in s.mem.entries ==> x.name in Names(s.mem.entries);
  }

  lemma MatchedPersist(s: State, ok: bool)
    requires Good(s) && s.phase.Persisting? && Matched(s)
    ensures Matched(AfterCreatePersist(s, ok))
  {
    hide StorableEntries, FilesAgree, RemoveId;
    RemoveLast(s.mem.entries);
    var rest := s.mem.entries[..|s.mem.entries| - 1];
    assert s.mem.entries == rest + [s.phase.e];
    NamesFilter(s.mem.entries, rest, s.phase.e.name);
  }

  lemma MatchedDelete(s: State, id: nat, persistNow: bool, unlinked: bool)
    requires Good(s) && Enabled(s, Delete(id, persistNow, unlinked)) && Matched(s)
    ensures Matched(AfterDelete(s, id, persistNow, unlinked))
  {
    hide StorableEntries, RemoveId, WfLog;
    var es, f := s.mem.entries, s.mem.files[id];
    RemoveGood(es, id, s.mem.nextId);
    OneIdOneEntry(es, Entry(id, f.name, f.size, f.extents), s.mem.nextId);
    NamesFilter(es, RemoveId(es, id), f.name);
  }

  lemma MatchedStep(s: State, ev: Event)
    requires Good(s) && Enabled(s, ev) && Matched(s) && !Recreates(s, ev)
    ensures Matched(Apply(s, ev))
  {
    hide AfterLoad, AfterHeader, AfterCreatePersist, AfterDelete, Scan, WfLog, StorableEntries;
    match ev
    case Load(listed, tombstones) => MatchedLoad(s, listed, tombstones);
    case Delete(id, persistNow, unlinked) => MatchedDelete(s, id, persistNow, unlinked);
    case CreateOpen(_, _, _, _) => MatchedOpen(s, ev);
    case CreateHeader(extents) => MatchedHeader(s, extents);
    case CreatePersist(ok) => MatchedPersist(s, ok);
    case _ =>
  }

  lemma RecreateBreaks(s: State, ev: Event)
    requires Good(s) && Enabled(s, ev) && Matched(s) && Recreates(s, ev)
    ensures !Faithful(Apply(s, ev).disk)
  {
    var e :| e in s.disk.image.value.entries && e.name == ev.name;
    assert Apply(s, ev).disk.bins[e.name] == Raw;
  }

  ghost predicate NoRecreate(r: Run) {
    forall i :: 0 <= i < |r.events| && i < |r.states| ==> !Recreates(r.states[i], r.events[i])
  }

  lemma {:induction false} MatchedUpTo(r: Run, i: nat)
    requires IsRun(r) && i < |r.states|
    requires forall k :: 0 <= k < i ==> !Recreates(r.states[k], r.events[k])
    ensures Matched(r.states[i])
  {
    hide Good, Enabled, Apply, Recreates;
    if i > 0 {
      MatchedUpTo(r, i - 1);
      RunGood(r, i - 1);
      assert Linked(r.states[i - 1], r.events[i - 1], r.states[i]);
      MatchedStep(r.states[i - 1], r.events[i - 1]);
    }
  }

  lemma {:induction false} FirstRecreate(r: Run, i: nat) returns (k: nat)
    requires IsRun(r) && i < |r.events| && Recreates(r.states[i], r.events[i])
    ensures k <= i && Recreates(r.states[k], r.events[k])
    ensures forall m :: 0 <= m < k ==> !Recreates(r.states[m], r.events[m])
  {
    hide Recreates;
    if j: nat :| j < i && Recreates(r.states[j], r.events[j]) {
      k := FirstRecreate(r, j);
    } else {
      k := i;
    }
  }

  /** At every point where a crash can fall, the entries recovery would keep describe the bins under
      their names, if and only if no file was re-created while the image held an older entry. */
  lemma FaithfulIffNoRecreate(r: Run)
    requires IsRun(r)
    ensures (forall i :: 0 <= i < |r.states| ==> Faithful(r.states[i].disk)) <==> NoRecreate(r)
  {
    hide Good, Enabled, Apply, Recreates, Faithful;
    if NoRecreate(r) {
      forall i | 0 <= i < |r.states| ensures Faithful(r.states[i].disk) {
        MatchedUpTo(r, i);
      }
    } else {
      var i :| 0 <= i < |r.events| && Recreates(r.states[i], r.events[i]);
      var k := FirstRecreate(r, i);
      MatchedUpTo(r, k);
      RunGood(r, k);
      assert Linked(r.states[k], r.events[k], r.states[k + 1]);
      RecreateBreaks(r.states[k], r.events[k]);
    }
  }

  /** After any crash and a completed reconcile, every entry's metadata is its bin's. */
  lemma RecoveredEntriesMatchBins(r: Run, i: nat, k: nat, j: nat)
    requires IsRun(r) && NoRecreate(r)
    requires Sweeps(r, i, k) && r.states[k].phase.Down? && CleanSweep(r, k, j)
    ensures var t := r.states[j];
            forall e :: e in t.mem.entries ==> e.name in t.disk.bins && t.disk.bins[e.name] == BinOf(e)
  {
    ReconcileRestartable(r, i, k, j);
    FaithfulIffNoRecreate(r);
    var s, t := r.states[i], r.states[j];
    assert Faithful(s.disk);
    forall e | e in t.mem.entries ensures e.name in t.disk.bins && t.disk.bins[e.name] == BinOf(e) {
      assert e in (set x | x in t.mem.entries);
      assert e in Survivors(s.disk);
      NamesOf(s.disk.image.value.entries, e);
    }
  }

  // ----- File ids

  lemma {:induction false} ImageIdsGrow(r: Run, i: nat, j: nat)
    requires IsRun(r) && i <= j < |r.states| && r.states[i].disk.image.Some?
    ensures r.states[j].disk.image.Some?
    ensures r.states[i].disk.image.value.nextId <= r.states[j].disk.image.value.nextId
  {
    hide WfLog, StorableEntries, FilesAgree, GoodPhase;
    if i < j {
      ImageIdsGrow(r, i, j - 1);
      RunGood(r, j - 1);
      assert Linked(r.states[j - 1], r.events[j - 1], r.states[j]);
    }
  }

  /** An id that ever reached a renamed image is never issued again, across any number of crashes. */
  lemma IdNeverReissued(r: Run, i: nat, j: nat, e: Entry)
    requires IsRun(r) && i <= j < |r.events|
    requires r.states[i].disk.image.Some? && e in r.states[i].disk.image.value.entries
    requires r.events[j].CreateHeader?
    ensures r.states[j].phase.Creating?
    ensures var name := r.states[j].phase.name;
            name in r.states[j + 1].disk.bins && r.states[j + 1].disk.bins[name].Bin? &&
            r.states[j + 1].disk.bins[name].fileId > e.fileId
  {
    RunGood(r, i);
    RunGood(r, j);
    ImageIdsGrow(r, i, j);
    assert Linked(r.states[j], r.events[j], r.states[j + 1]);
  }

  // ----- The dirty flag

  /** A delete or reconcile persist failed and no persist has succeeded since. */
  ghost predicate StaleAfter(stale: bool, s: State, ev: Event) {
    match ev
    case DeletePersist(ok) => !ok
    case SweepDone(ok) => !ok
    case CreatePersist(ok) => stale && !ok
    case Close(_, ok) => stale && !ok
    case Flush(_, persistOk) => stale && !(s.mem.dirtyLog && persistOk)
    case Crash => false
    case Shutdown(_) => false
    case _ => stale
  }

  ghost predicate Stale(r: Run, i: nat)
    requires i < |r.states| && |r.states| == |r.events| + 1
  {
    i > 0 && StaleAfter(Stale(r, i - 1), r.states[i - 1], r.events[i - 1])
  }

  ghost predicate Tracks(entries: seq<Entry>, stored: seq<Entry>, stale: bool) {
    if stale then |entries| < |stored| else entries == stored
  }

  ghost predicate TrackInv(s: State, stale: bool) {
    if s.phase.Down? then !stale
    else s.disk.image.Some? && (!s.mem.dirtyLog ==>
      var es, stored := s.mem.entries, s.disk.image.value.entries;
      match s.phase
      case Sweeping(_, dropped) => !stale && Tracks(es, stored, dropped)
      case Persisting(_) => es != [] && Tracks(es[..|es| - 1], stored, stale)
      case DeletePersisting => |es| < |stored|
      case _ => Tracks(es, stored, stale))
  }

  lemma TrackLoad(s: State, listed: bool, tombstones: seq<nat>)
    requires Good(s) && Enabled(s, Load(listed, tombstones))
    ensures TrackInv(AfterLoad(s, listed, tombstones), false)
  {
    hide RemoveIds, StorableEntries, WfLog, Scan;
    var log := s.disk.image.value;
    RemoveNone(log.entries);
    if tombstones != [] {
      RemoveAllGood(log.entries, tombstones, log.nextId);
      assert tombstones[0] in tombstones;
    }
  }

  lemma TrackDelete(s: State, id: nat, persistNow: bool, unlinked: bool, stale: bool)
    requires Good(s) && Enabled(s, Delete(id, persistNow, unlinked)) && TrackInv(s, stale)
    ensures TrackInv(AfterDelete(s, id, persistNow, unlinked), stale)
  {
    hide RemoveId, StorableEntries, WfLog;
    var f := s.mem.files[id];
    assert Entry(id, f.name, f.size, f.extents) in s.mem.entries;
    RemoveShrinks(s.mem.entries, id);
  }

  lemma TrackCreate(s: State, ev: Event, stale: bool)
    requires Good(s) && Enabled(s, ev) && TrackInv(s, stale) && (ev.CreateHeader? || ev.CreatePersist?)
    ensures TrackInv(Apply(s, ev), StaleAfter(stale, s, ev))
  {
    hide RemoveId, StorableEntries, FilesAgree, DistinctNames, IdsBelow;
    match ev
    case CreateHeader(extents) =>
      var e := Entry(s.mem.nextId, s.phase.name, s.phase.size, extents);
      assert (s.mem.entries + [e])[..|s.mem.entries|] == s.mem.entries;
    case CreatePersist(ok) => RemoveLast(s.mem.entries);
  }

  lemma TrackStep(s: State, ev: Event, stale: bool)
    requires Good(s) && Enabled(s, ev) && TrackInv(s, stale)
    ensures TrackInv(Apply(s, ev), StaleAfter(stale, s, ev))
  {
    hide AfterLoad, AfterDelete, AfterHeader, AfterCreatePersist, Scan, StorableEntries, WfLog, FilesAgree;
    match ev
    case Load(listed, tombstones) => TrackLoad(s, listed, tombstones);
    case Delete(id, persistNow, unlinked) => TrackDelete(s, id, persistNow, unlinked, stale);
    case CreateHeader(_) => TrackCreate(s, ev, stale);
    case CreatePersist(_) => TrackCreate(s, ev, stale);
    case _ =>
  }

  lemma {:induction false} RunTracks(r: Run, i: nat)
    requires IsRun(r) && i < |r.states|
    ensures TrackInv(r.states[i], Stale(r, i))
  {
    hide Good, Enabled, Apply, TrackInv, StaleAfter;
    if i == 0 {
      InitTracks(r.states[0]);
    } else {
      RunTracks(r, i - 1);
      RunGood(r, i - 1);
      assert Linked(r.states[i - 1], r.events[i - 1], r.states[i]);
      TrackStep(r.states[i - 1], r.events[i - 1], Stale(r, i - 1));
    }
  }

  lemma InitTracks(s: State)
    requires Init(s)
    ensures TrackInv(s, false)
  {
  }

  /** With the flag clear the image holds exactly the entries in memory, if and only if no delete or
      reconcile persist has failed since the last one that succeeded. */
  lemma CleanFlagIffSame(r: Run, i: nat)
    requires IsRun(r) && i < |r.states| && r.states[i].phase.Idle? && !r.states[i].mem.dirtyLog
    ensures r.states[i].disk.image.Some?
    ensures r.states[i].disk.image.value.entries == r.states[i].mem.entries <==> !Stale(r, i)
  {
    RunTracks(r, i);
  }

  predicate FlushReturns(s: State, syncOk: bool, persistOk: bool) {
    (s.mem.dirtyFiles ==> syncOk) && (s.mem.dirtyLog ==> persistOk)
  }

  /** A crash right after flush_metadata returned true loses no directory change: the next boot
      reads back the same entries. */
  lemma FlushLosesNothing(r: Run, i: nat)
    requires IsRun(r) && i < |r.events| && r.events[i].Flush? && !Stale(r, i)
    requires FlushReturns(r.states[i], r.events[i].syncOk, r.events[i].persistOk)
    ensures var t := r.states[i + 1];
            t.disk.image.Some? && t.disk.image.value.entries == t.mem.entries == r.states[i].mem.entries
  {
    RunTracks(r, i);
    assert Linked(r.states[i], r.events[i], r.states[i + 1]);
  }

  // ----- The two hazards, on concrete runs

  ghost predicate EndsIn(r: Run, s: State) {
    IsRun(r) && r.states[|r.states| - 1] == s
  }

  lemma Extend(r: Run, s: State, ev: Event, t: State) returns (q: Run)
    requires EndsIn(r, s) && Linked(s, ev, t)
    ensures EndsIn(q, t) && q == Run(r.states + [t], r.events + [ev])
  {
    hide Linked;
    q := Run(r.states + [t], r.events + [ev]);
    forall i | 0 <= i < |q.events| ensures Linked(q.states[i], q.events[i], q.states[i + 1]) {
      if i < |r.events| {
        assert Linked(r.states[i], r.events[i], r.states[i + 1]);
      }
    }
  }

  const NAME_A: Name := [97]
  const OLD_A: Entry := Entry(1, NAME_A, 1, [Extent(0, 2)])
  const NEW_A: Entry := Entry(2, NAME_A, 9, [Extent(5, 4)])

  const EMPTY_DISK: Disk := Disk(map[], Some(Loaded([], 1)))
  const ONE_FILE: State := State(Disk(map[NAME_A := BinOf(OLD_A)], Some(Loaded([OLD_A], 2))),
                                 Mem([OLD_A], 2, map[1 := FileOf(OLD_A)], false, false), Idle)

  lemma BootSteps()
    ensures Linked(State(Disk(map[], None), LOST, Down), InitLog(true), State(EMPTY_DISK, LOST, Down))
    ensures Linked(State(EMPTY_DISK, LOST, Down), Load(true, []), State(EMPTY_DISK, LOST, Sweeping({}, false)))
    ensures Linked(State(EMPTY_DISK, LOST, Sweeping({}, false)), SweepDone(true), State(EMPTY_DISK, LOST, Idle))
  {
    var s := State(EMPTY_DISK, LOST, Down);
    RemoveNone([]);
    assert (set n | n in s.disk.bins && Scan([], n).None?) == {};
    assert AfterLoad(s, true, []) == State(EMPTY_DISK, LOST, Sweeping({}, false));
  }

  lemma CreateSteps(s: State, e: Entry)
    requires s.phase.Idle? && e.name == NAME_A && NAME_A !in s.disk.bins && s.mem.entries == []
    requires e.fileId == s.mem.nextId && 0 < e.size < 10 && |e.extents| == 1 && StorableExtents(e.extents)
    ensures var raw := State(s.disk.(bins := s.disk.bins[NAME_A := Raw]), s.mem, Creating(NAME_A, e.size, true, true));
            && Linked(s, CreateOpen(NAME_A, e.size, true, true), raw)
            && Linked(raw, CreateHeader(e.extents),
                      State(s.disk.(bins := s.disk.bins[NAME_A := BinOf(e)]),
                            s.mem.(nextId := e.fileId + 1, entries := [e]), Persisting(e)))
  {
    var raw := State(s.disk.(bins := s.disk.bins[NAME_A := Raw]), s.mem, Creating(NAME_A, e.size, true, true));
    assert raw.disk.bins[NAME_A := BinOf(e)] == s.disk.bins[NAME_A := BinOf(e)];
    assert AfterHeader(raw, e.extents).mem.entries == [e];
  }

  /** Boot a fresh device and create one file durably. */
  lemma OneFileRun() returns (r: Run)
    ensures EndsIn(r, ONE_FILE)
  {
    BootSteps();
    var idle := State(EMPTY_DISK, LOST, Idle);
    CreateSteps(idle, OLD_A);
    var raw := State(EMPTY_DISK.(bins := map[][NAME_A := Raw]), LOST, Creating(NAME_A, 1, true, true));
    var written := State(EMPTY_DISK.(bins := map[][NAME_A := BinOf(OLD_A)]),
                         LOST.(nextId := 2, entries := [OLD_A]), Persisting(OLD_A));
    assert Linked(written, CreatePersist(true), ONE_FILE);
    hide Linked;
    r := Run([State(Disk(map[], None), LOST, Down)], []);
    r := Extend(r, State(Disk(map[], None), LOST, Down), InitLog(true), State(EMPTY_DISK, LOST, Down));
    r := Extend(r, State(EMPTY_DISK, LOST, Down), Load(true, []), State(EMPTY_DISK, LOST, Sweeping({}, false)));
    r := Extend(r, State(EMPTY_DISK, LOST, Sweeping({}, false)), SweepDone(true), idle);
    r := Extend(r, idle, CreateOpen(NAME_A, 1, true, true), raw);
    r := Extend(r, raw, CreateHeader(OLD_A.extents), written);
    r := Extend(r, written, CreatePersist(true), ONE_FILE);
  }

  const MIXED_DISK: Disk := Disk(map[NAME_A := BinOf(NEW_A)], Some(Loaded([OLD_A], 2)))
  const MIXED: State := State(MIXED_DISK, Mem([OLD_A], 2, map[], false, false), Idle)

  lemma MixedRecovery()
    ensures Linked(State(MIXED_DISK, LOST, Down), Load(true, []), MIXED.(phase := Sweeping({}, false)))
    ensures Linked(MIXED.(phase := Sweeping({}, false)), SweepDone(true), MIXED)
  {
    var s := State(MIXED_DISK, LOST, Down);
    RemoveNone([OLD_A]);
    assert Scan([OLD_A], NAME_A).Some?;
    assert (set n | n in s.disk.bins && Scan([OLD_A], n).None?) == {};
    assert AfterLoad(s, true, []) == MIXED.(phase := Sweeping({}, false));
  }

  lemma DeferredDelete()
    ensures Linked(ONE_FILE, Delete(1, false, true),
                   State(Disk(map[], Some(Loaded([OLD_A], 2))), Mem([], 2, map[], true, false), Idle))
  {
    RemoveLast([OLD_A]);
    assert [OLD_A][..0] == [];
    assert ONE_FILE.disk.bins - {NAME_A} == map[];
    assert ONE_FILE.mem.files - {1} == map[];
  }

  /** A deferred delete, then a creation of the same name, then a crash before its persist: a fully
      successful reconcile recovers the old entry for the new bin, with the wrong id, size and
      extents. */
  lemma RecreationMismatch() returns (r: Run)
    ensures EndsIn(r, MIXED)
    ensures MIXED.mem.entries == [OLD_A] && MIXED.disk.bins[NAME_A] == BinOf(NEW_A) != BinOf(OLD_A)
  {
    var deleted := State(Disk(map[], Some(Loaded([OLD_A], 2))), Mem([], 2, map[], true, false), Idle);
    CreateSteps(deleted, NEW_A);
    var raw := State(deleted.disk.(bins := map[][NAME_A := Raw]), deleted.mem, Creating(NAME_A, 9, true, true));
    var written := State(deleted.disk.(bins := map[][NAME_A := BinOf(NEW_A)]),
                         deleted.mem.(nextId := 3, entries := [NEW_A]), Persisting(NEW_A));
    assert Linked(written, Crash, State(MIXED_DISK, LOST, Down));
    DeferredDelete();
    MixedRecovery();
    hide Linked;
    r := OneFileRun();
    r := Extend(r, ONE_FILE, Delete(1, false, true), deleted);
    r := Extend(r, deleted, CreateOpen(NAME_A, 9, true, true), raw);
    r := Extend(r, raw, CreateHeader(NEW_A.extents), written);
    r := Extend(r, written, Crash, State(MIXED_DISK, LOST, Down));
    r := Extend(r, State(MIXED_DISK, LOST, Down), Load(true, []), MIXED.(phase := Sweeping({}, false)));
    r := Extend(r, MIXED.(phase := Sweeping({}, false)), SweepDone(true), MIXED);
  }

  /** A delete whose persist fails leaves the flag clear, so flush_metadata writes nothing, returns
      true, and the image keeps the deleted entry. */
  lemma FailedDeleteUnnoticed() returns (r: Run, s: State)
    ensures EndsIn(r, s) && s.phase.Idle? && s.disk.image.Some? && FlushReturns(s, false, false)
    ensures Apply(s, Flush(false, false)).disk.image.value.entries == [OLD_A] && s.mem.entries == []
  {
    RemoveLast([OLD_A]);
    assert [OLD_A][..0] == [];
    var gone := Disk(ONE_FILE.disk.bins - {NAME_A}, Some(Loaded([OLD_A], 2)));
    var deleting := State(gone, Mem([], 2, ONE_FILE.mem.files - {1}, false, false), DeletePersisting);
    s := deleting.(phase := Idle);
    r := OneFileRun();
    r := Extend(r, ONE_FILE, Delete(1, true, true), deleting);
    r := Extend(r, deleting, DeletePersist(false), s);
  }

  // ----- The bytes on disk

  /** In every state, with fewer than 2^32 entries and 2^64 ids, loading the log file's bytes gives
      back the image the state machine speaks of. */
  lemma ImageReadsBack(r: Run, i: nat)
    requires IsRun(r) && i < |r.states| && r.states[i].disk.image.Some?
    requires |r.states[i].disk.image.value.entries| < U32_LIMIT && r.states[i].disk.image.value.nextId < U64_LIMIT
    ensures Decode(Encode(r.states[i].disk.image.value)) == Ok(r.states[i].disk.image.value)
  {
    hide Decode, Encode;
    RunGood(r, i);
    RoundTrip(r.states[i].disk.image.value);
  }
}
