/** The storage object itself (nvme_storage/src/host_fs_backed_nvme_storage.cpp): its fields, the
    host files it creates and unlinks, and its methods.  The ghost field `run` records the disk
    effect of every statement, and each method is proved to follow the state machine of
    `Directory` step by step.  Every theorem of `DirectoryRuns` therefore speaks of these methods,
    with a crash allowed between any two of their disk effects.

    Answers of the operating system (did open, unlink, write succeed, which extents were
    allocated) are method parameters. */
module Storage {
  import opened Wrappers
  import opened LogTypes
  import opened FileLog
  import opened LogCodec
  import opened Directory
  import opened DirectoryRuns
  import opened PendingWork

  /** What the host answers while create_file runs. */
  datatype CreateIo = CreateIo(openOk: bool, failure: Option<Stage>, extents: seq<Extent>,
                               persisted: bool, undone: bool)

  predicate HostName(name: Name) {
    0 !in name && 47 !in name && name != RESERVED_NAME
  }

  predicate HostExtents(xs: seq<Extent>) {
    0 < |xs| <= MAX_EXTENTS && StorableExtents(xs)
  }

  /** The run grew by exactly these events. */
  ghost predicate Grew(before: Run, after: Run, events: seq<Event>) {
    after.events == before.events + events && before.states <= after.states
  }

  /** A run may be cut after any of its steps by a crash, and is a run again. */
  lemma CrashAnywhere(r: Run, i: nat)
    requires IsRun(r) && i < |r.states|
    ensures IsRun(Run(r.states[..i + 1] + [State(r.states[i].disk, LOST, Down)], r.events[..i] + [Crash]))
  {
    var q := Run(r.states[..i + 1], r.events[..i]);
    assert IsRun(q) by {
      forall k | 0 <= k < |q.events| ensures Linked(q.states[k], q.events[k], q.states[k + 1]) {
        assert Linked(r.states[k], r.events[k], r.states[k + 1]);
      }
    }
    var c := Extend(q, r.states[i], Crash, State(r.states[i].disk, LOST, Down));
  }

  class HostFsStorage {
    // Host file system
    var bins: map<Name, Bin>
    var logFile: Option<seq<byte>>
    // Memory
    var log: PersistentFileLog
    var files: map<nat, NvmeFile>
    var dirtyLog: bool
    var dirtyFiles: bool
    // Proof
    ghost var image: Option<Loaded>
    ghost var run: Run

    ghost function Disk(): Disk
      reads this
    {
      Directory.Disk(bins, image)
    }

    ghost function Memory(): Mem
      reads this, log
    {
      Mem(log.entries, log.nextId, files, dirtyLog, dirtyFiles)
    }

    ghost function Abs(phase: Phase): State
      reads this, log
    {
      State(Disk(), if phase.Down? then LOST else Memory(), phase)
    }

    ghost predicate At(phase: Phase)
      reads this, log
    {
      && EndsIn(run, Abs(phase))
      && logFile == (if image.Some? then Some(Encode(image.value)) else None)
      && (!phase.Down? ==> log.Valid())
    }

    constructor (bins: map<Name, Bin>)
      ensures At(Down) && fresh(log) && this.bins == bins && image == None
    {
      this.bins, logFile, image := bins, None, None;
      log := new PersistentFileLog();
      files, dirtyLog, dirtyFiles := map[], false, false;
      run := Run([State(Directory.Disk(bins, None), LOST, Down)], []);
    }

    /** A new process over the disk that an earlier one left behind. */
    constructor Over(bins: map<Name, Bin>, logFile: Option<seq<byte>>, ghost image: Option<Loaded>, ghost run: Run)
      requires EndsIn(run, State(Directory.Disk(bins, image), LOST, Down))
      requires logFile == if image.Some? then Some(Encode(image.value)) else None
      ensures At(Down) && fresh(log) && this.bins == bins && this.logFile == logFile
      ensures this.image == image && this.run == run
    {
      this.bins, this.logFile, this.image, this.run := bins, logFile, image, run;
      log := new PersistentFileLog();
      files, dirtyLog, dirtyFiles := map[], false, false;
    }

    /** The process dies between any two disk effects.  The disk stays, memory is gone. */
    method Crash(ghost phase: Phase)
      requires At(phase)
      modifies this
      ensures At(Down) && fresh(log) && files == map[]
      ensures bins == old(bins) && logFile == old(logFile) && image == old(image)
      ensures Grew(old(run), run, [Event.Crash])
    {
      hide EndsIn, Encode, IndexedBy;
      ghost var s := Abs(phase);
      log := new PersistentFileLog();
      files, dirtyLog, dirtyFiles := map[], false, false;
      Record(s, Event.Crash, Down);
    }

    ghost method Record(s: State, ev: Event, phase: Phase)
      requires EndsIn(run, s) && Linked(s, ev, Abs(phase))
      modifies this`run
      ensures EndsIn(run, Abs(phase)) && Grew(old(run), run, [ev])
    {
      run := Extend(run, s, ev, Abs(phase));
    }

    /** Write the whole log to a temporary file and rename it over the old one. */
    method Persist(ok: bool)
      modifies this`logFile, this`image
      ensures image == if ok then Some(Loaded(log.entries, log.nextId)) else old(image)
      ensures logFile == if ok then Some(Encode(Loaded(log.entries, log.nextId))) else old(logFile)
    {
      var bytes := log.Image();
      if ok {
        logFile := Some(bytes);
        image := Some(Loaded(log.entries, log.nextId));
      }
    }

    method FlushMetadata(syncOk: bool, persistOk: bool) returns (ok: bool)
      requires At(Idle)
      modifies this`logFile, this`image, this`dirtyLog, this`dirtyFiles, this`run
      ensures At(Idle) && Grew(old(run), run, [Flush(syncOk, persistOk)])
      ensures ok <==> FlushReturns(old(Abs(Idle)), syncOk, persistOk)
      ensures ok <==> (Unsynced(old(run).events) ==> syncOk) && (Unpersisted(old(run).events) ==> persistOk)
      ensures dirtyFiles == (old(dirtyFiles) && !syncOk) && dirtyLog == (old(dirtyLog) && !persistOk)
      ensures image == if old(dirtyLog) && persistOk then Some(Loaded(log.entries, log.nextId)) else old(image)
    {
      OwedNow(run, Abs(Idle), syncOk, persistOk);
      hide Linked, EndsIn, Encode, IndexedBy, Unsynced, Unpersisted;
      ghost var s := Abs(Idle);
      ok := true;
      if dirtyFiles {
        if syncOk {
          dirtyFiles := false;
        } else {
          ok := false;
        }
      }
      if dirtyLog {
        Persist(persistOk);
        if persistOk {
          dirtyLog := false;
        } else {
          ok := false;
        }
      }
      LinkFlush(s, syncOk, persistOk);
      Record(s, Flush(syncOk, persistOk), Idle);
    }

    method CloseFile(id: nat, ok: bool) returns (r: bool)
      requires At(Idle) && id in files
      modifies this`logFile, this`image, this`files, this`run
      ensures At(Idle) && Grew(old(run), run, [Close(id, ok)])
      ensures files == old(files)[id := old(files)[id].(fdOpen := false)]
      ensures r <==> image == Some(Loaded(log.entries, log.nextId)) && ok
      ensures image == if ok then Some(Loaded(log.entries, log.nextId)) else old(image)
    {
      hide Linked, EndsIn, Encode, IndexedBy;
      ghost var s := Abs(Idle);
      files := files[id := files[id].(fdOpen := false)];
      Persist(ok);
      LinkClose(s, id, ok);
      Record(s, Close(id, ok), Idle);
      return ok;
    }

    /** Reports a failed persist or a failed unmount, and is down either way. */
    method Shutdown(ok: bool, unmounted: bool) returns (r: bool)
      requires At(Idle)
      modifies this`logFile, this`image, this`files, this`run
      ensures At(Down) && Grew(old(run), run, [Event.Shutdown(ok)])
      ensures r <==> ok && unmounted
      ensures image == if ok then Some(Loaded(log.entries, log.nextId)) else old(image)
    {
      hide Linked, EndsIn, Encode, IndexedBy;
      ghost var s := Abs(Idle);
      Persist(ok);
      files := map[];
      LinkShutdown(s, ok);
      Record(s, Event.Shutdown(ok), Down);
      return ok && unmounted;
    }

    /** The file of that name is open already; the host is not asked again. */
    ghost predicate HandedOut(name: Name)
      reads this, log
    {
      var e := Scan(log.entries, name);
      e.Some? && e.value.fileId in files && files[e.value.fileId].fdOpen
    }

    /** The open file of that name, whose metadata is the log entry's; none if the log has no such
        name or the host, asked to open it, has no such bin or refuses. */
    method OpenFile(name: Name, hostOpens: bool) returns (r: Option<NvmeFile>)
      requires At(Idle)
      modifies this`files, this`run
      ensures At(Idle)
      ensures r.Some? ==> r.value.fdOpen && Scan(log.entries, name).Some? &&
                          r.value == FileOf(Scan(log.entries, name).value)
      ensures r.Some? && !old(HandedOut(name)) ==> Grew(old(run), run, [Event.OpenFile(name)])
      ensures r.None? || old(HandedOut(name)) ==> run == old(run) && files == old(files)
      ensures r.Some? ==> files == old(files)[r.value.id := r.value]
      ensures r.None? <==> name !in Names(log.entries) || (!old(HandedOut(name)) && (name !in bins || !hostOpens))
    {
      hide Linked, EndsIn, Encode, IndexedBy, Scan, Contents;
      var e := log.FindByName(name);
      FoundIffNamed(log.entries, name);
      if e.None? {
        return None;
      }
      ghost var s := Abs(Idle);
      if e.value.fileId in files {
        AgreesAtEnd(run, s, e.value, name);
        if files[e.value.fileId].fdOpen {
          return Some(files[e.value.fileId]);
        }
      }
      if name !in bins || !hostOpens {
        return None;
      }
      var f := if e.value.fileId in files then files[e.value.fileId].(fdOpen := true) else FileOf(e.value);
      files := files[e.value.fileId := f];
      LinkOpen(s, name);
      Record(s, Event.OpenFile(name), Idle);
      return Some(f);
    }

    method DeleteFile(id: nat, persistNow: bool, unlinked: bool, persisted: bool) returns (ok: bool)
      requires At(Idle) && id in files
      modifies this, log
      ensures log == old(log) && At(Idle)
      ensures Grew(old(run), run, [Delete(id, persistNow, unlinked)] +
                                  if unlinked && persistNow then [DeletePersist(persisted)] else [])
      ensures ok <==> unlinked && (persistNow ==> persisted)
      ensures log.entries == if unlinked then RemoveId(old(log.entries), id) else old(log.entries)
      ensures bins == if unlinked then old(bins) - {old(files)[id].name} else old(bins)
      ensures files == if unlinked then old(files) - {id} else old(files)[id := old(files)[id].(fdOpen := false)]
      ensures image == if unlinked && persistNow && persisted then Some(Loaded(log.entries, log.nextId)) else old(image)
      ensures dirtyLog == (old(dirtyLog) || (unlinked && !persistNow)) && dirtyFiles == old(dirtyFiles)
      ensures log.nextId == old(log.nextId)
    {
      hide Linked, EndsIn, Encode, IndexedBy, RemoveId;
      ghost var s := Abs(Idle);
      var name := files[id].name;
      files := files[id := files[id].(fdOpen := false)];
      LinkDelete(s, id, persistNow, unlinked);
      if !unlinked {
        Record(s, Delete(id, persistNow, unlinked), Idle);
        return false;
      }
      bins := bins - {name};
      files := files - {id};
      var found := log.Remove(id);
      ghost var phase := if persistNow then DeletePersisting else Idle;
      if !persistNow {
        dirtyLog := true;
      }
      assert files == s.mem.files - {id};
      Record(s, Delete(id, persistNow, unlinked), phase);
      if persistNow {
        PersistDeleted(persisted);
        return persisted;
      }
      return true;
    }

    method PersistDeleted(ok: bool)
      requires At(DeletePersisting)
      modifies this`logFile, this`image, this`run
      ensures At(Idle) && Grew(old(run), run, [DeletePersist(ok)])
      ensures image == if ok then Some(Loaded(log.entries, log.nextId)) else old(image)
    {
      hide Linked, EndsIn, Encode, IndexedBy;
      ghost var s := Abs(DeletePersisting);
      Persist(ok);
      LinkDeletePersist(s, ok);
      Record(s, DeletePersist(ok), Idle);
    }

    // ----- create_file

    /** Reserve an id, write the header and add the log entry. */
    method WriteHeader(name: Name, size: nat, persistNow: bool, syncNow: bool, extents: seq<Extent>)
      returns (added: bool, id: nat)
      requires At(Creating(name, size, persistNow, syncNow)) && HostExtents(extents)
      modifies this`bins, this`dirtyFiles, this`dirtyLog, this`files, this`run, log
      ensures id == old(log.nextId) && log.nextId == id + 1
      ensures bins == old(bins)[name := Bin(id, size, extents)]
      ensures added <==> |name| < NAME_MAX
      ensures log.entries == old(log.entries) + if added then [Entry(id, name, size, extents)] else []
      ensures files == if added && !persistNow then old(files)[id := FileOf(Entry(id, name, size, extents))] else old(files)
      ensures At(if !added then Undoing(name) else if persistNow then Persisting(Entry(id, name, size, extents)) else Idle)
      ensures Grew(old(run), run, [CreateHeader(extents)])
      ensures dirtyFiles == (old(dirtyFiles) || !syncNow) && dirtyLog == (old(dirtyLog) || (added && !persistNow))
    {
      hide Linked, EndsIn, Encode, IndexedBy, Good;
      ghost var s := Abs(Creating(name, size, persistNow, syncNow));
      NewEntry(run, s);
      if !syncNow {
        dirtyFiles := true;
      }
      id := log.NextFileId();
      var e := Entry(id, name, size, extents);
      bins := bins[name := BinOf(e)];
      added := log.Add(e);
      if added && !persistNow {
        dirtyLog := true;
        files := files[id := FileOf(e)];
      }
      LinkHeader(s, extents);
      Record(s, CreateHeader(extents),
             if !added then Undoing(name) else if persistNow then Persisting(e) else Idle);
    }

    method UndoCreate(name: Name, undone: bool)
      requires At(Undoing(name))
      modifies this`bins, this`run
      ensures At(Idle) && Grew(old(run), run, [Undo(undone)])
      ensures bins == if undone then old(bins) - {name} else old(bins)
    {
      hide Linked, EndsIn, Encode, IndexedBy;
      ghost var s := Abs(Undoing(name));
      if undone {
        bins := bins - {name};
      }
      LinkUndo(s, undone);
      Record(s, Undo(undone), Idle);
    }

    /** Persist the new entry, or take it out again. */
    method PersistCreated(e: Entry, ok: bool)
      requires At(Persisting(e))
      modifies this`logFile, this`image, this`files, this`run, log
      ensures At(if ok then Idle else Undoing(e.name)) && Grew(old(run), run, [CreatePersist(ok)])
      ensures log.nextId == old(log.nextId)
      ensures if ok then log.entries == old(log.entries) else log.entries + [e] == old(log.entries)
      ensures files == if ok then old(files)[e.fileId := FileOf(e)] else old(files)
      ensures image == if ok then Some(Loaded(log.entries, log.nextId)) else old(image)
    {
      hide Linked, EndsIn, Encode, IndexedBy, RemoveId;
      ghost var s := Abs(Persisting(e));
      LastIsNew(run, s);
      Persist(ok);
      if ok {
        files := files[e.fileId := FileOf(e)];
      } else {
        var found := log.Remove(e.fileId);
      }
      LinkCreatePersist(s, ok);
      Record(s, CreatePersist(ok), if ok then Idle else Undoing(e.name));
    }

    /** Open the host file and allocate it, up to the first failure. */
    method OpenForCreate(name: Name, size: nat, persistNow: bool, syncNow: bool, failure: Option<Stage>)
      requires At(Idle) && ValidName(name) && 0 < size < U64_LIMIT && name !in Names(log.entries)
      modifies this`bins, this`dirtyFiles, this`run, log`nextId
      ensures bins == if name in old(bins) then old(bins) else old(bins)[name := Raw]
      ensures At(if failure.None? then Creating(name, size, persistNow, syncNow) else Undoing(name))
      ensures log.nextId == old(log.nextId) + if failure == Some(HeaderFailed) then 1 else 0
      ensures dirtyFiles == (old(dirtyFiles) || (failure.Some? && !failure.value.AllocFailed? && !syncNow))
      ensures Grew(old(run), run, [CreateOpen(name, size, persistNow, syncNow)] +
                                  if failure.None? then [] else [CreateFail(failure.value)])
    {
      hide Linked, EndsIn, Encode, IndexedBy;
      ghost var s := Abs(Idle);
      if name !in bins {
        bins := bins[name := Raw];
      }
      LinkCreateOpen(s, name, size, persistNow, syncNow);
      Record(s, CreateOpen(name, size, persistNow, syncNow), Creating(name, size, persistNow, syncNow));
      if failure.Some? {
        s := Abs(Creating(name, size, persistNow, syncNow));
        if !failure.value.AllocFailed? && !syncNow {
          dirtyFiles := true;
        }
        if failure.value.HeaderFailed? {
          var id := log.NextFileId();
        }
        LinkCreateFail(s, failure.value);
        Record(s, CreateFail(failure.value), Undoing(name));
      }
    }

    /** Succeeds exactly when the name is new and fits, and the host refused nothing.  A success adds
        one entry under a fresh id, describing the bin just written; a failure leaves directory,
        open files and image as they were. */
    method CreateFile(name: Name, size: nat, persistNow: bool, syncNow: bool, io: CreateIo) returns (r: Option<NvmeFile>)
      requires At(Idle) && HostName(name) && size < U64_LIMIT && HostExtents(io.extents)
      modifies this, log
      ensures log == old(log) && At(Idle)
      ensures r.Some? <==> && name != [] && size > 0 && name !in old(Names(log.entries)) && |name| < 128
                           && io.openOk && io.failure.None? && (persistNow ==> io.persisted)
      ensures r.Some? ==> var e := Entry(old(log.nextId), name, size, io.extents);
                          && r.value == FileOf(e) && log.entries == old(log.entries) + [e]
                          && bins == old(bins)[name := BinOf(e)] && files == old(files)[e.fileId := FileOf(e)]
                          && image == if persistNow then Some(Loaded(log.entries, log.nextId)) else old(image)
      ensures r.Some? ==> dirtyFiles == (old(dirtyFiles) || !syncNow) && dirtyLog == (old(dirtyLog) || !persistNow)
      ensures r.None? ==> log.entries == old(log.entries) && files == old(files) && image == old(image)
      ensures r.None? ==> dirtyLog == old(dirtyLog) && OnlyThis(old(bins), bins, name)
      ensures r.Some? ==> Grew(old(run), run, [CreateOpen(name, size, persistNow, syncNow), CreateHeader(io.extents)] +
                                              if persistNow then [CreatePersist(true)] else [])
      ensures old(run.events) <= run.events && old(run.states) <= run.states
    {
      hide At, Scan, OnlyThis;
      OnlyNone(bins, name);
      r := None;
      if name == [] || size == 0 {
        return;
      }
      var known := FindInLog(name);
      if known || !io.openOk {
        return;
      }
      OnlyPut(bins, bins, name, Raw);
      OpenForCreate(name, size, persistNow, syncNow, io.failure);
      OnlyDrop(old(bins), bins, name);
      if io.failure.Some? {
        UndoCreate(name, io.undone);
        return;
      }
      ghost var started := bins;
      r := CommitCreate(name, size, persistNow, syncNow, io);
      if r.None? {
        OnlyTwice(old(bins), started, bins, name);
      } else {
        assert bins == old(bins)[name := BinOf(Entry(old(log.nextId), name, size, io.extents))];
      }
    }

    /** From the header on: write it, add the entry, persist if asked to, or undo. */
    method CommitCreate(name: Name, size: nat, persistNow: bool, syncNow: bool, io: CreateIo) returns (r: Option<NvmeFile>)
      requires At(Creating(name, size, persistNow, syncNow)) && HostExtents(io.extents)
      modifies this, log
      ensures log == old(log) && At(Idle)
      ensures r.Some? <==> |name| < NAME_MAX && (persistNow ==> io.persisted)
      ensures r.Some? ==> var e := Entry(old(log.nextId), name, size, io.extents);
                          && r.value == FileOf(e) && log.entries == old(log.entries) + [e]
                          && bins == old(bins)[name := BinOf(e)] && files == old(files)[e.fileId := FileOf(e)]
                          && image == if persistNow then Some(Loaded(log.entries, log.nextId)) else old(image)
      ensures r.None? ==> log.entries == old(log.entries) && files == old(files) && image == old(image)
      ensures r.None? ==> OnlyThis(old(bins), bins, name)
      ensures dirtyFiles == (old(dirtyFiles) || !syncNow) && dirtyLog == (old(dirtyLog) || (r.Some? && !persistNow))
      ensures r.Some? ==> Grew(old(run), run, [CreateHeader(io.extents)] + if persistNow then [CreatePersist(true)] else [])
      ensures old(run.events) <= run.events && old(run.states) <= run.states
    {
      hide At, Scan, OnlyThis;
      OnlyNone(bins, name);
      r := None;
      OnlyPut(old(bins), bins, name, Bin(log.nextId, size, io.extents));
      var added, id := WriteHeader(name, size, persistNow, syncNow, io.extents);
      OnlyDrop(old(bins), bins, name);
      if !added {
        UndoCreate(name, io.undone);
        return;
      }
      var e := Entry(id, name, size, io.extents);
      if persistNow {
        PersistCreated(e, io.persisted);
        if !io.persisted {
          SameButLast(log.entries, old(log.entries), e);
          UndoCreate(name, io.undone);
          return;
        }
      }
      assert bins == old(bins)[name := BinOf(e)];
      return Some(FileOf(e));
    }

    method FindInLog(name: Name) returns (found: bool)
      requires At(Idle)
      ensures found <==> name in Names(log.entries)
    {
      hide EndsIn, Encode, Scan, IndexedBy;
      var e := log.FindByName(name);
      FoundIffNamed(log.entries, name);
      found := e.Some?;
    }

    // ----- bootstrap

    /** Take every log entry without a bin out of the log, in whatever order the name table yields
        them. */
    method DropTombstones() returns (dropped: nat, ghost ids: seq<nat>)
      requires log.Valid() && image == Some(Loaded(log.entries, log.nextId)) && WfLog(log.entries, log.nextId)
      modifies log
      ensures log.Valid() && log.nextId == old(log.nextId)
      ensures EnumeratesTombstones(ids, Disk()) && log.entries == RemoveIds(old(log.entries), ids)
      ensures dropped == |ids|
    {
      hide IndexedBy, RemoveId, WfLog, DistinctIds, IdsBelow;
      var byName := set e | e in log.entries;
      ghost var es, next := log.entries, log.nextId;
      dropped, ids := 0, [];
      while byName != {}
        invariant log.Valid() && log.nextId == next
        invariant log.entries == RemoveIds(es, ids) && dropped == |ids|
        invariant forall e :: e in byName ==> e in es
        invariant ListedSoFar(es, byName, ids, bins)
        decreases |byName|
      {
        var e :| e in byName;
        NextTombstone(es, byName, ids, bins, e, next);
        byName := byName - {e};
        if e.name !in bins {
          HasId(log.entries, e);
          var found := log.Remove(e.fileId);
          if found {
            dropped := dropped + 1;
          }
          assert (ids + [e.fileId])[..|ids|] == ids;
          ids := ids + [e.fileId];
        }
      }
    }

    method UnlinkGhost(n: Name, ghosts: set<Name>, dropped: bool, ok: bool)
      requires At(Sweeping(ghosts, dropped)) && n in ghosts
      modifies this`bins, this`run
      ensures At(Sweeping(ghosts - {n}, dropped)) && Grew(old(run), run, [SweepUnlink(n, ok)])
      ensures bins == if ok then old(bins) - {n} else old(bins)
    {
      hide Linked, EndsIn, Encode, IndexedBy;
      ghost var s := Abs(Sweeping(ghosts, dropped));
      if ok {
        bins := bins - {n};
      }
      LinkSweepUnlink(s, n, ok);
      Record(s, SweepUnlink(n, ok), Sweeping(ghosts - {n}, dropped));
    }

    /** Unlink every bin without a log entry that the host lets go, in whatever order the directory
        yields them. */
    method UnlinkGhosts(es: seq<Entry>, dropped: bool, unlinkable: set<Name>)
      requires At(Sweeping(Ghosts(bins.Keys, es), dropped))
      modifies this`bins, this`run
      ensures At(Sweeping({}, dropped))
      ensures bins == old(bins) - (Ghosts(old(bins).Keys, es) * unlinkable)
      ensures old(run.events) <= run.events && old(run.states) <= run.states
    {
      hide At, Ghosts, Scan;
      var snapshot := bins.Keys;
      var todo := snapshot;
      NoGhosts(es);
      while todo != {}
        invariant At(Sweeping(Ghosts(todo, es), dropped))
        invariant todo <= snapshot
        invariant bins == old(bins) - (Ghosts(snapshot - todo, es) * unlinkable)
        invariant old(run.events) <= run.events && old(run.states) <= run.states
        decreases |todo|
      {
        var n :| n in todo;
        GhostsStep(snapshot, todo, es, n);
        if Scan(es, n).None? {
          UnlinkGhost(n, Ghosts(todo, es), dropped, n in unlinkable);
          MinusOneMore(old(bins), Ghosts(snapshot - todo, es), unlinkable, n);
        }
        todo := todo - {n};
      }
      assert snapshot - {} == snapshot;
    }

    method Reconcile(unlinkable: set<Name>, persistOk: bool) returns (ok: bool)
      requires At(Down) && log.Valid() && image == Some(Loaded(log.entries, log.nextId))
      requires files == map[] && !dirtyLog && !dirtyFiles
      modifies this`bins, this`logFile, this`image, this`run, log
      ensures At(Idle)
      ensures (set e | e in log.entries) == Survivors(old(Disk()))
      ensures bins == old(bins) - (Ghosts(old(bins).Keys, old(log.entries)) * unlinkable)
      ensures ok ==> image.Some? && image.value.entries == log.entries
      ensures !ok ==> image == old(image)
      ensures persistOk ==> ok
      ensures !persistOk ==> image == old(image)
      ensures old(run.events) <= run.events && old(run.states) <= run.states
    {
      hide Linked, EndsIn, Encode, IndexedBy, Scan, RemoveIds, EnumeratesTombstones;
      ghost var s := Abs(Down);
      WfAtEnd(run, s);
      var snapshot := log.entries;
      var dropped, ids := DropTombstones();
      LinkLoad(s, true, ids);
      Record(s, Load(true, ids), Sweeping(Ghosts(bins.Keys, snapshot), dropped != 0));
      LoadedAre(s, ids);
      UnlinkGhosts(snapshot, dropped != 0, unlinkable);
      s := Abs(Sweeping({}, dropped != 0));
      RemoveNone(snapshot);
      ok := true;
      if dropped != 0 {
        Persist(persistOk);
        ok := persistOk;
      }
      LinkSweepDone(s, ok);
      Record(s, SweepDone(ok), Idle);
    }

    /** Start of one device: read the log back, or write an empty one on a fresh device, then
        reconcile.  A log that cannot be opened or read fails the boot and changes nothing; a
        reconcile that cannot list the directory or persist does not fail it. */
    method Bootstrap(readOk: bool, initOk: bool, listed: bool, unlinkable: set<Name>, persistOk: bool) returns (ok: bool)
      requires At(Down)
      requires image.Some? ==> |image.value.entries| < U32_LIMIT && image.value.nextId < U64_LIMIT
      modifies this
      ensures ok <==> if old(image).Some? then readOk else initOk
      ensures !ok ==> bins == old(bins) && image == old(image) && logFile == old(logFile)
      ensures ok ==> files == map[] && !dirtyLog && !dirtyFiles
      ensures At(if ok then Idle else Down) && fresh(log)
      ensures old(run.events) <= run.events && old(run.states) <= run.states
      ensures var log0 := if old(image).Some? then old(image).value else Loaded([], 1);
              var disk0 := Directory.Disk(old(bins), Some(log0));
              && (ok && listed ==>
                  && (set e | e in log.entries) == Survivors(disk0)
                  && bins == old(bins) - (Ghosts(old(bins).Keys, log0.entries) * unlinkable))
              && (ok && !listed ==> Loaded(log.entries, log.nextId) == log0 && bins == old(bins))
              && (ok && (!listed || !persistOk) ==> image == Some(log0))
              && (ok && listed && persistOk ==> image.Some? && image.value.entries == log.entries)
    {
      hide Linked, EndsIn, Encode, Decode, IndexedBy;
      ghost var s := Abs(Down);
      log := new PersistentFileLog();
      files, dirtyLog, dirtyFiles := map[], false, false;
      if logFile.None? {
        Persist(initOk);
        LinkInit(s, initOk);
        Record(s, InitLog(initOk), Down);
        if !initOk {
          return false;
        }
      } else {
        if !readOk {
          return false;
        }
        ReadsBack(run, s);
        var loaded := log.Load(logFile.value);
      }
      s := Abs(Down);
      WfAtEnd(run, s);
      if listed {
        var reconciled := Reconcile(unlinkable, persistOk);
      } else {
        RemoveNone(log.entries);
        LinkLoad(s, false, []);
        Record(s, Load(false, []), Idle);
      }
      return true;
    }
  }

  /** No other bin was touched. */
  ghost predicate OnlyThis(before: map<Name, Bin>, after: map<Name, Bin>, name: Name) {
    before - {name} == after - {name}
  }

  lemma OnlyNone(bins: map<Name, Bin>, name: Name)
    ensures OnlyThis(bins, bins, name)
  {
  }

  lemma OnlyTwice(before: map<Name, Bin>, middle: map<Name, Bin>, after: map<Name, Bin>, name: Name)
    requires OnlyThis(before, middle, name) && OnlyThis(middle, after, name)
    ensures OnlyThis(before, after, name)
  {
  }

  lemma OnlyPut(before: map<Name, Bin>, bins: map<Name, Bin>, name: Name, bin: Bin)
    requires OnlyThis(before, bins, name)
    ensures OnlyThis(before, bins[name := bin], name)
  {
    assert bins[name := bin] - {name} == bins - {name};
  }

  lemma OnlyDrop(before: map<Name, Bin>, bins: map<Name, Bin>, name: Name)
    requires OnlyThis(before, bins, name)
    ensures OnlyThis(before, bins - {name}, name)
  {
    assert bins - {name} - {name} == bins - {name};
  }

  /** Names of bins that have no entry in the log. */
  function Ghosts(names: set<Name>, es: seq<Entry>): set<Name> {
    set n | n in names && Scan(es, n).None?
  }

  /** Of the entries already met, exactly those without a bin are in the list. */
  ghost predicate ListedSoFar(es: seq<Entry>, left: set<Entry>, ids: seq<nat>, bins: map<Name, Bin>) {
    && (forall e :: e in es ==> (e.fileId in ids <==> e !in left && e.name !in bins))
    && (forall id :: id in ids ==> exists e :: e in es && e.fileId == id)
  }

  // ----- One statement, one step of the state machine

  lemma LinkFlush(s: State, syncOk: bool, persistOk: bool)
    requires s.phase.Idle?
    ensures Linked(s, Flush(syncOk, persistOk),
                   State(Persisted(s.disk, s.mem, s.mem.dirtyLog && persistOk),
                         s.mem.(dirtyFiles := s.mem.dirtyFiles && !syncOk, dirtyLog := s.mem.dirtyLog && !persistOk), Idle))
  {
  }

  lemma LinkClose(s: State, id: nat, ok: bool)
    requires s.phase.Idle? && id in s.mem.files
    ensures Linked(s, Close(id, ok),
                   State(Persisted(s.disk, s.mem, ok), s.mem.(files := s.mem.files[id := s.mem.files[id].(fdOpen := false)]), Idle))
  {
  }

  lemma LinkShutdown(s: State, ok: bool)
    requires s.phase.Idle?
    ensures Linked(s, Event.Shutdown(ok), State(Persisted(s.disk, s.mem, ok), LOST, Down))
  {
  }

  lemma LinkOpen(s: State, name: Name)
    requires s.phase.Idle? && Scan(s.mem.entries, name).Some? && name in s.disk.bins
    ensures Linked(s, Event.OpenFile(name), s.(mem := AfterOpen(s.mem, Scan(s.mem.entries, name).value)))
  {
  }

  lemma LinkDelete(s: State, id: nat, persistNow: bool, unlinked: bool)
    requires s.phase.Idle? && id in s.mem.files
    ensures Linked(s, Delete(id, persistNow, unlinked), AfterDelete(s, id, persistNow, unlinked))
  {
  }

  lemma LinkDeletePersist(s: State, ok: bool)
    requires s.phase.DeletePersisting?
    ensures Linked(s, DeletePersist(ok), State(Persisted(s.disk, s.mem, ok), s.mem, Idle))
  {
  }

  lemma LinkCreateOpen(s: State, name: Name, size: nat, persistNow: bool, syncNow: bool)
    requires s.phase.Idle? && ValidName(name) && 0 < size < U64_LIMIT && name !in Names(s.mem.entries)
    ensures Linked(s, CreateOpen(name, size, persistNow, syncNow),
                   State(s.disk.(bins := if name in s.disk.bins then s.disk.bins else s.disk.bins[name := Raw]),
                         s.mem, Creating(name, size, persistNow, syncNow)))
  {
  }

  lemma LinkCreateFail(s: State, stage: Stage)
    requires s.phase.Creating?
    ensures Linked(s, CreateFail(stage),
                   State(s.disk, s.mem.(dirtyFiles := s.mem.dirtyFiles || (!stage.AllocFailed? && !s.phase.syncNow),
                                        nextId := s.mem.nextId + if stage.HeaderFailed? then 1 else 0),
                         Undoing(s.phase.name)))
  {
  }

  lemma LinkHeader(s: State, extents: seq<Extent>)
    requires s.phase.Creating? && HostExtents(extents)
    ensures Linked(s, CreateHeader(extents), AfterHeader(s, extents))
  {
  }

  lemma LinkUndo(s: State, undone: bool)
    requires s.phase.Undoing?
    ensures Linked(s, Undo(undone), State(Unlinked(s.disk, s.phase.name, undone), s.mem, Idle))
  {
  }

  lemma LinkCreatePersist(s: State, ok: bool)
    requires s.phase.Persisting?
    ensures Linked(s, CreatePersist(ok), AfterCreatePersist(s, ok))
  {
  }

  lemma LinkInit(s: State, ok: bool)
    requires s.phase.Down? && s.disk.image.None?
    ensures Linked(s, InitLog(ok), State(Persisted(s.disk, LOST, ok), LOST, Down))
  {
  }

  lemma LinkLoad(s: State, listed: bool, ids: seq<nat>)
    requires s.phase.Down? && s.disk.image.Some?
    requires if listed then EnumeratesTombstones(ids, s.disk) else ids == []
    ensures Linked(s, Load(listed, ids), AfterLoad(s, listed, ids))
    ensures AfterLoad(s, listed, ids).phase ==
            if listed then Sweeping(Ghosts(s.disk.bins.Keys, s.disk.image.value.entries), |ids| != 0) else Idle
  {
    assert Ghosts(s.disk.bins.Keys, s.disk.image.value.entries) ==
           set n | n in s.disk.bins && Scan(s.disk.image.value.entries, n).None?;
  }

  lemma LinkSweepUnlink(s: State, name: Name, ok: bool)
    requires s.phase.Sweeping? && name in s.phase.ghosts
    ensures Linked(s, SweepUnlink(name, ok),
                   State(Unlinked(s.disk, name, ok), s.mem, Sweeping(s.phase.ghosts - {name}, s.phase.dropped)))
  {
  }

  lemma LinkSweepDone(s: State, ok: bool)
    requires s.phase.Sweeping? && s.phase.ghosts == {} && (s.phase.dropped || ok)
    ensures Linked(s, SweepDone(ok), State(Persisted(s.disk, s.mem, ok && s.phase.dropped), s.mem, Idle))
  {
  }

  // ----- Facts about reachable states that the methods use

  lemma NewEntry(r: Run, s: State)
    requires EndsIn(r, s) && s.phase.Creating?
    ensures s.phase.name !in Names(s.mem.entries)
  {
    hide GoodDisk, GoodMem;
    RunGood(r, |r.states| - 1);
  }

  lemma LastIsNew(r: Run, s: State)
    requires EndsIn(r, s) && s.phase.Persisting?
    ensures RemoveId(s.mem.entries, s.phase.e.fileId) + [s.phase.e] == s.mem.entries
  {
    hide RemoveId, StorableEntries;
    RunGood(r, |r.states| - 1);
    RemoveLast(s.mem.entries);
  }

  lemma WfAtEnd(r: Run, s: State)
    requires EndsIn(r, s) && s.disk.image.Some?
    ensures WfLog(s.disk.image.value.entries, s.disk.image.value.nextId) && s.disk.image.value.nextId > 0
    ensures GoodDisk(s.disk)
  {
    RunGood(r, |r.states| - 1);
  }

  lemma SameButLast<T>(a: seq<T>, b: seq<T>, x: T)
    requires a + [x] == b + [x]
    ensures a == b
  {
    assert a == (a + [x])[..|a|] && b == (b + [x])[..|b|];
  }

  lemma ReadsBack(r: Run, s: State)
    requires EndsIn(r, s) && s.disk.image.Some?
    requires |s.disk.image.value.entries| < U32_LIMIT && s.disk.image.value.nextId < U64_LIMIT
    ensures Decode(Encode(s.disk.image.value)) == Ok(s.disk.image.value)
    ensures WfLog(s.disk.image.value.entries, s.disk.image.value.nextId)
  {
    ImageReadsBack(r, |r.states| - 1);
    WfAtEnd(r, s);
  }

  lemma OwedNow(r: Run, s: State, syncOk: bool, persistOk: bool)
    requires EndsIn(r, s)
    ensures FlushReturns(s, syncOk, persistOk) <==>
            (Unsynced(r.events) ==> syncOk) && (Unpersisted(r.events) ==> persistOk)
  {
    FlushReturnsIff(r, |r.events|, syncOk, persistOk);
    assert r.events[..|r.events|] == r.events;
  }

  lemma LoadedAre(s: State, ids: seq<nat>)
    requires GoodDisk(s.disk) && s.disk.image.Some? && EnumeratesTombstones(ids, s.disk)
    ensures (set e | e in RemoveIds(s.disk.image.value.entries, ids)) == Survivors(s.disk)
  {
    hide RemoveIds, WfLog, StorableEntries;
    RemoveAllGood(s.disk.image.value.entries, ids, s.disk.image.value.nextId);
  }

  lemma HasId(es: seq<Entry>, e: Entry)
    requires e in es
    ensures IndexOfId(es, e.fileId) < |es|
  {
  }

  lemma NextTombstone(es: seq<Entry>, left: set<Entry>, ids: seq<nat>, bins: map<Name, Bin>, e: Entry, next: nat)
    requires WfLog(es, next) && e in left && e in es && ListedSoFar(es, left, ids, bins)
    ensures e in RemoveIds(es, ids)
    ensures ListedSoFar(es, left - {e}, if e.name in bins then ids else ids + [e.fileId], bins)
  {
    hide RemoveIds, WfLog;
    RemoveAllGood(es, ids, next);
    OneIdOneEntry(es, e, next);
    assert e.fileId in ids + [e.fileId];
  }

  lemma NoGhosts(es: seq<Entry>)
    ensures Ghosts({}, es) == {}
    ensures forall names: set<Name> :: Ghosts(names - names, es) == {}
  {
  }

  lemma MinusOneMore(bins: map<Name, Bin>, gone: set<Name>, unlinkable: set<Name>, n: Name)
    ensures bins - ((gone + {n}) * unlinkable) ==
            if n in unlinkable then (bins - (gone * unlinkable)) - {n} else bins - (gone * unlinkable)
  {
    if n !in unlinkable {
      assert (gone + {n}) * unlinkable == gone * unlinkable;
    }
  }

  lemma GhostsStep(all: set<Name>, todo: set<Name>, es: seq<Entry>, n: Name)
    requires todo <= all && n in todo
    ensures Ghosts(todo - {n}, es) == Ghosts(todo, es) - {n}
    ensures Scan(es, n).Some? ==> Ghosts(todo - {n}, es) == Ghosts(todo, es)
    ensures Ghosts(all - (todo - {n}), es) == Ghosts(all - todo, es) + if Scan(es, n).None? then {n} else {}
    ensures n in Ghosts(todo, es) <==> Scan(es, n).None?
  {
  }

  lemma FoundIffNamed(es: seq<Entry>, name: Name)
    ensures Scan(es, name).Some? <==> name in Names(es)
  {
    if Scan(es, name).Some? {
      ScanSound(es, name);
    } else {
      if name in Names(es) {
        var e :| e in es && e.name == name;
        ScanHit(es, e);
      }
    }
  }

  /** In every reachable state an open file is a copy of the log entry found under its name. */
  lemma AgreesAtEnd(r: Run, s: State, e: Entry, name: Name)
    requires EndsIn(r, s) && s.phase.Idle? && Scan(s.mem.entries, name) == Some(e)
    requires e.fileId in s.mem.files
    ensures s.mem.files[e.fileId].(fdOpen := true) == FileOf(e)
  {
    RunGood(r, |r.states| - 1);
    ScanSound(s.mem.entries, name);
    SameEntry(s.mem, e);
  }

  lemma SameEntry(m: Mem, e: Entry)
    requires FilesAgree(m) && e in m.entries && WfLog(m.entries, m.nextId) && e.fileId in m.files
    ensures var f := m.files[e.fileId]; Entry(f.id, f.name, f.size, f.extents) == e
  {
    OneIdOneEntry(m.entries, e, m.nextId);
  }
}
