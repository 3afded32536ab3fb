/** One device's file directory as a state machine.  The disk holds the `<name>.bin` files and the
    log image; everything else is memory and is lost in a crash.  Every event performs at most one
    disk effect, so a crash may fall between any two effects. */
module Directory {
  import opened Wrappers
  import opened LogTypes
  import opened FileLog
  import opened LogCodec

  const MAX_EXTENTS: nat := 124

  /** "file_log": its bin would be the log file itself. */
  const RESERVED_NAME: Name := [102, 105, 108, 101, 95, 108, 111, 103]

  /** Raw: created by open(O_CREAT), header not written yet. */
  datatype Bin = Raw | Bin(fileId: nat, size: nat, extents: seq<Extent>)

  datatype Disk = Disk(bins: map<Name, Bin>, image: Option<Loaded>)

  datatype NvmeFile = NvmeFile(id: nat, name: Name, size: nat, extents: seq<Extent>, fdOpen: bool)

  datatype Mem = Mem(entries: seq<Entry>, nextId: nat, files: map<nat, NvmeFile>,
                     dirtyLog: bool, dirtyFiles: bool)

  /** What the operation holding the lock still has to do. */
  datatype Phase =
    | Down
    | Sweeping(ghosts: set<Name>, dropped: bool)
    | Idle
    | Creating(name: Name, size: nat, persistNow: bool, syncNow: bool)
    | Persisting(e: Entry)
    | Undoing(name: Name)
    | DeletePersisting

  datatype State = State(disk: Disk, mem: Mem, phase: Phase)

  /** Where create_file gave up: in fallocate or fsync, while reading the extents, while writing
      the header. */
  datatype Stage = AllocFailed | ExtentsFailed | HeaderFailed

  datatype Event =
    | InitLog(ok: bool)
    | Load(listed: bool, tombstones: seq<nat>)
    | SweepUnlink(name: Name, ok: bool)
    | SweepDone(ok: bool)
    | CreateOpen(name: Name, size: nat, persistNow: bool, syncNow: bool)
    | CreateFail(stage: Stage)
    | CreateHeader(extents: seq<Extent>)
    | CreatePersist(ok: bool)
    | Undo(unlinked: bool)
    | Delete(id: nat, persistNow: bool, unlinked: bool)
    | DeletePersist(ok: bool)
    | Flush(syncOk: bool, persistOk: bool)
    | OpenFile(name: Name)
    | Close(id: nat, ok: bool)
    | Shutdown(ok: bool)
    | Crash

  const LOST: Mem := Mem([], 1, map[], false, false)

  function BinOf(e: Entry): Bin {
    Bin(e.fileId, e.size, e.extents)
  }

  function FileOf(e: Entry): NvmeFile {
    NvmeFile(e.fileId, e.name, e.size, e.extents, true)
  }

  function LogOf(m: Mem): Loaded {
    Loaded(m.entries, m.nextId)
  }

  predicate ValidName(name: Name) {
    name != [] && 0 !in name && 47 !in name && name != RESERVED_NAME
  }

  function RemoveIds(es: seq<Entry>, ids: seq<nat>): seq<Entry> {
    if ids == [] then es else RemoveId(RemoveIds(es, ids[..|ids| - 1]), ids[|ids| - 1])
  }

  /** The order in which the reconcile pass meets the log entries without a bin: any order. */
  ghost predicate EnumeratesTombstones(ids: seq<nat>, d: Disk)
    requires d.image.Some?
  {
    && (forall e :: e in d.image.value.entries ==> (e.fileId in ids <==> e.name !in d.bins))
    && (forall id :: id in ids ==> exists e :: e in d.image.value.entries && e.fileId == id)
  }

  ghost predicate Enabled(s: State, ev: Event) {
    match ev
    case InitLog(_) => s.phase.Down? && s.disk.image.None?
    case Load(listed, tombstones) =>
      s.phase.Down? && s.disk.image.Some? &&
      if listed then EnumeratesTombstones(tombstones, s.disk) else tombstones == []
    case SweepUnlink(name, _) => s.phase.Sweeping? && name in s.phase.ghosts
    case SweepDone(ok) => s.phase.Sweeping? && s.phase.ghosts == {} && (s.phase.dropped || ok)
    case CreateOpen(name, size, _, _) =>
      s.phase.Idle? && ValidName(name) && 0 < size < U64_LIMIT && name !in Names(s.mem.entries)
    case CreateFail(_) => s.phase.Creating?
    case CreateHeader(extents) =>
      s.phase.Creating? && 0 < |extents| <= MAX_EXTENTS && StorableExtents(extents)
    case CreatePersist(_) => s.phase.Persisting?
    case Undo(_) => s.phase.Undoing?
    case Delete(id, _, _) => s.phase.Idle? && id in s.mem.files
    case DeletePersist(_) => s.phase.DeletePersisting?
    case Flush(_, _) => s.phase.Idle?
    case OpenFile(name) => s.phase.Idle? && Scan(s.mem.entries, name).Some? && name in s.disk.bins
    case Close(id, _) => s.phase.Idle? && id in s.mem.files
    case Shutdown(_) => s.phase.Idle?
    case Crash => true
  }

  /** Persist replaces the image atomically or leaves it alone. */
  function Persisted(d: Disk, m: Mem, ok: bool): Disk {
    if ok then d.(image := Some(LogOf(m))) else d
  }

  function Unlinked(d: Disk, name: Name, ok: bool): Disk {
    if ok then d.(bins := d.bins - {name}) else d
  }

  function AfterLoad(s: State, listed: bool, tombstones: seq<nat>): State
    requires s.disk.image.Some?
  {
    var log := s.disk.image.value;
    var next := if log.nextId == 0 then 1 else log.nextId;
    var mem := Mem(RemoveIds(log.entries, tombstones), next, map[], false, false);
    var ghosts := set n | n in s.disk.bins && Scan(log.entries, n).None?;
    State(s.disk, mem, if listed then Sweeping(ghosts, tombstones != []) else Idle)
  }

  function AfterHeader(s: State, extents: seq<Extent>): State
    requires s.phase.Creating?
  {
    var e := Entry(s.mem.nextId, s.phase.name, s.phase.size, extents);
    var disk := s.disk.(bins := s.disk.bins[e.name := BinOf(e)]);
    var mem := s.mem.(nextId := e.fileId + 1, dirtyFiles := s.mem.dirtyFiles || !s.phase.syncNow);
    if |e.name| >= NAME_MAX then State(disk, mem, Undoing(e.name))
    else
      var added := mem.(entries := mem.entries + [e]);
      if s.phase.persistNow then State(disk, added, Persisting(e))
      else State(disk, added.(dirtyLog := true, files := mem.files[e.fileId := FileOf(e)]), Idle)
  }

  function AfterCreatePersist(s: State, ok: bool): State
    requires s.phase.Persisting?
  {
    var e := s.phase.e;
    if ok then State(Persisted(s.disk, s.mem, true), s.mem.(files := s.mem.files[e.fileId := FileOf(e)]), Idle)
    else State(s.disk, s.mem.(entries := RemoveId(s.mem.entries, e.fileId)), Undoing(e.name))
  }

  function AfterDelete(s: State, id: nat, persistNow: bool, unlinked: bool): State
    requires id in s.mem.files
  {
    var f := s.mem.files[id];
    if !unlinked then s.(mem := s.mem.(files := s.mem.files[id := f.(fdOpen := false)]))
    else
      var mem := s.mem.(entries := RemoveId(s.mem.entries, id), files := s.mem.files - {id});
      State(Unlinked(s.disk, f.name, true), if persistNow then mem else mem.(dirtyLog := true),
            if persistNow then DeletePersisting else Idle)
  }

  function AfterOpen(m: Mem, e: Entry): Mem {
    var f := if e.fileId in m.files then m.files[e.fileId].(fdOpen := true) else FileOf(e);
    m.(files := m.files[e.fileId := f])
  }

  ghost function Apply(s: State, ev: Event): State
    requires Enabled(s, ev)
  {
    match ev
    case InitLog(ok) => State(Persisted(s.disk, LOST, ok), LOST, Down)
    case Load(listed, tombstones) => AfterLoad(s, listed, tombstones)
    case SweepUnlink(name, ok) =>
      State(Unlinked(s.disk, name, ok), s.mem, s.phase.(ghosts := s.phase.ghosts - {name}))
    case SweepDone(ok) => State(Persisted(s.disk, s.mem, ok && s.phase.dropped), s.mem, Idle)
    case CreateOpen(name, size, persistNow, syncNow) =>
      var bins := if name in s.disk.bins then s.disk.bins else s.disk.bins[name := Raw];
      State(s.disk.(bins := bins), s.mem, Creating(name, size, persistNow, syncNow))
    case CreateFail(stage) =>
      var mem := s.mem.(dirtyFiles := s.mem.dirtyFiles || (!stage.AllocFailed? && !s.phase.syncNow));
      State(s.disk, if stage.HeaderFailed? then mem.(nextId := mem.nextId + 1) else mem, Undoing(s.phase.name))
    case CreateHeader(extents) => AfterHeader(s, extents)
    case CreatePersist(ok) => AfterCreatePersist(s, ok)
    case Undo(unlinked) => State(Unlinked(s.disk, s.phase.name, unlinked), s.mem, Idle)
    case Delete(id, persistNow, unlinked) => AfterDelete(s, id, persistNow, unlinked)
    case DeletePersist(ok) => State(Persisted(s.disk, s.mem, ok), s.mem, Idle)
    case Flush(syncOk, persistOk) =>
      State(Persisted(s.disk, s.mem, s.mem.dirtyLog && persistOk),
            s.mem.(dirtyFiles := s.mem.dirtyFiles && !syncOk, dirtyLog := s.mem.dirtyLog && !persistOk), Idle)
    case OpenFile(name) => s.(mem := AfterOpen(s.mem, Scan(s.mem.entries, name).value))
    case Close(id, ok) =>
      State(Persisted(s.disk, s.mem, ok),
            s.mem.(files := s.mem.files[id := s.mem.files[id].(fdOpen := false)]), Idle)
    case Shutdown(ok) => State(Persisted(s.disk, s.mem, ok), LOST, Down)
    case Crash => State(s.disk, LOST, Down)
  }

  // ----- What every state of every run satisfies

  ghost predicate StorableEntries(es: seq<Entry>) {
    forall e :: e in es ==> |e.name| < NAME_MAX && ValidName(e.name) && e.size < U64_LIMIT &&
                            |e.extents| <= MAX_EXTENTS && StorableExtents(e.extents)
  }

  ghost predicate GoodDisk(d: Disk) {
    d.image.Some? ==>
      var log := d.image.value;
      WfLog(log.entries, log.nextId) && log.nextId > 0 && StorableEntries(log.entries)
  }

  /** Every open NvmeFile agrees with the log entry of its id. */
  ghost predicate FilesAgree(m: Mem) {
    forall id :: id in m.files ==>
      var f := m.files[id];
      f.id == id && Entry(id, f.name, f.size, f.extents) in m.entries
  }

  ghost predicate GoodMem(s: State) {
    !s.phase.Down? ==>
      && s.disk.image.Some? && s.disk.image.value.nextId <= s.mem.nextId
      && WfLog(s.mem.entries, s.mem.nextId) && StorableEntries(s.mem.entries) && FilesAgree(s.mem)
  }

  ghost predicate GoodPhase(s: State) {
    match s.phase
    case Sweeping(ghosts, _) => ghosts !! Names(s.mem.entries) && s.mem.files == map[] && !s.mem.dirtyLog
    case Creating(name, size, _, _) =>
      name !in Names(s.mem.entries) && ValidName(name) && 0 < size < U64_LIMIT && name in s.disk.bins
    case Persisting(e) =>
      && s.mem.entries != [] && s.mem.entries[|s.mem.entries| - 1] == e && e.fileId !in s.mem.files
      && e.name in s.disk.bins && s.disk.bins[e.name] == BinOf(e)
      && (s.disk.image.Some? ==> s.disk.image.value.nextId <= e.fileId)
    case Undoing(name) => name !in Names(s.mem.entries)
    case _ => true
  }

  ghost predicate Good(s: State) {
    GoodDisk(s.disk) && GoodMem(s) && GoodPhase(s)
  }

  // ----- Removal and the log invariants

  lemma RemoveGood(es: seq<Entry>, id: nat, next: nat)
    requires WfLog(es, next)
    ensures WfLog(RemoveId(es, id), next)
    ensures forall e :: e in RemoveId(es, id) <==> e in es && e.fileId != id
    ensures StorableEntries(es) ==> StorableEntries(RemoveId(es, id))
  {
    RemoveIdIsFilter(es, id);
    RemoveKeepsIds(es, id, next);
  }

  lemma RemoveShrinks(es: seq<Entry>, id: nat)
    ensures |RemoveId(es, id)| <= |es|
    ensures (exists e :: e in es && e.fileId == id) ==> |RemoveId(es, id)| < |es|
  {
  }

  lemma RemoveLast(es: seq<Entry>)
    requires es != [] && DistinctIds(es)
    ensures RemoveId(es, es[|es| - 1].fileId) == es[..|es| - 1]
  {
  }

  lemma {:induction false} RemoveAllGood(es: seq<Entry>, ids: seq<nat>, next: nat)
    requires WfLog(es, next)
    ensures WfLog(RemoveIds(es, ids), next)
    ensures forall e :: e in RemoveIds(es, ids) <==> e in es && e.fileId !in ids
    ensures StorableEntries(es) ==> StorableEntries(RemoveIds(es, ids))
    ensures |RemoveIds(es, ids)| <= |es|
    ensures (exists e :: e in es && e.fileId in ids) ==> |RemoveIds(es, ids)| < |es|
  {
    hide RemoveId, WfLog, StorableEntries;
    if ids != [] {
      var init, id := ids[..|ids| - 1], ids[|ids| - 1];
      RemoveAllGood(es, init, next);
      RemoveGood(RemoveIds(es, init), id, next);
      RemoveShrinks(RemoveIds(es, init), id);
      assert forall x :: x in ids <==> x in init || x == id;
    }
  }

  lemma AppendGood(es: seq<Entry>, e: Entry, next: nat)
    requires WfLog(es, next) && e.fileId == next && e.name !in Names(es)
    ensures WfLog(es + [e], next + 1)
  {
    AppendIds(es, e, next);
    AppendNames(es, e);
  }

  lemma NamesOf(es: seq<Entry>, e: Entry)
    requires e in es
    ensures e.name in Names(es)
  {
  }

  lemma OneIdOneEntry(es: seq<Entry>, e: Entry, next: nat)
    requires WfLog(es, next) && e in es
    ensures forall x :: x in es && x.fileId == e.fileId ==> x == e
  {
    var i :| 0 <= i < |es| && es[i] == e;
    forall x | x in es && x.fileId == e.fileId ensures x == e {
      var j :| 0 <= j < |es| && es[j] == x;
    }
  }

  // ----- Good is kept by every event

  lemma GoodLoad(s: State, listed: bool, tombstones: seq<nat>)
    requires Good(s) && Enabled(s, Load(listed, tombstones))
    ensures Good(AfterLoad(s, listed, tombstones))
  {
    hide RemoveIds, WfLog, StorableEntries, Scan;
    var log := s.disk.image.value;
    RemoveAllGood(log.entries, tombstones, log.nextId);
    var t := AfterLoad(s, listed, tombstones);
    if listed {
      forall n | n in t.phase.ghosts && n in Names(t.mem.entries) ensures false {
        var e :| e in t.mem.entries && e.name == n;
        ScanHit(log.entries, e);
      }
    }
  }

  lemma {:induction false} ScanHit(es: seq<Entry>, e: Entry)
    requires e in es
    ensures Scan(es, e.name).Some?
  {
    if es[0].name != e.name { ScanHit(es[1..], e); }
  }

  lemma {:induction false} ScanSound(es: seq<Entry>, name: Name)
    requires Scan(es, name).Some?
    ensures Scan(es, name).value in es && Scan(es, name).value.name == name
  {
    if es[0].name != name { ScanSound(es[1..], name); }
  }

  lemma GoodHeader(s: State, extents: seq<Extent>)
    requires Good(s) && Enabled(s, CreateHeader(extents))
    ensures Good(AfterHeader(s, extents))
  {
    hide WfLog, StorableExtents;
    var e := Entry(s.mem.nextId, s.phase.name, s.phase.size, extents);
    AppendGood(s.mem.entries, e, s.mem.nextId);
    WfGrows(s.mem.entries, s.mem.nextId);
    FreshId(s.mem);
  }

  lemma WfGrows(es: seq<Entry>, next: nat)
    requires WfLog(es, next)
    ensures WfLog(es, next + 1)
  {
  }

  lemma FreshId(m: Mem)
    requires WfLog(m.entries, m.nextId) && FilesAgree(m)
    ensures m.nextId !in m.files
  {
  }

  lemma GoodCreatePersist(s: State, ok: bool)
    requires Good(s) && s.phase.Persisting?
    ensures Good(AfterCreatePersist(s, ok))
  {
    hide StorableEntries;
    var es, e := s.mem.entries, s.phase.e;
    assert e in es;
    if !ok {
      RemoveGood(es, e.fileId, s.mem.nextId);
      RemoveLast(es);
      LastNameGone(es);
    }
  }

  lemma LastNameGone(es: seq<Entry>)
    requires es != [] && DistinctNames(es)
    ensures es[|es| - 1].name !in Names(es[..|es| - 1])
  {
  }

  lemma GoodDelete(s: State, id: nat, persistNow: bool, unlinked: bool)
    requires Good(s) && Enabled(s, Delete(id, persistNow, unlinked))
    ensures Good(AfterDelete(s, id, persistNow, unlinked))
  {
    hide WfLog, StorableEntries, RemoveId;
    RemoveGood(s.mem.entries, id, s.mem.nextId);
  }

  lemma GoodOpen(s: State, name: Name)
    requires Good(s) && Enabled(s, OpenFile(name))
    ensures Good(Apply(s, OpenFile(name)))
  {
    hide WfLog, StorableEntries;
    ScanSound(s.mem.entries, name);
  }

  lemma GoodStep(s: State, ev: Event)
    requires Good(s) && Enabled(s, ev)
    ensures Good(Apply(s, ev))
  {
    hide WfLog, StorableEntries, AfterLoad, AfterHeader, AfterCreatePersist, AfterDelete, RemoveIds, RemoveId, Scan;
    match ev
    case Load(listed, tombstones) => GoodLoad(s, listed, tombstones);
    case CreateHeader(extents) => GoodHeader(s, extents);
    case CreatePersist(ok) => GoodCreatePersist(s, ok);
    case Delete(id, persistNow, unlinked) => GoodDelete(s, id, persistNow, unlinked);
    case OpenFile(name) => GoodOpen(s, name);
    case InitLog(_) => EmptyGood();
    case CreateFail(_) => WfGrows(s.mem.entries, s.mem.nextId);
    case _ =>
  }

  lemma EmptyGood()
    ensures WfLog([], 1) && StorableEntries([])
  {
  }
}
