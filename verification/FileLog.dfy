/** The in-memory file directory of one device: a vector of entries, an index from name to
    position, and a counter of file ids (nvme_storage/src/persistent_file_log.cpp). */
module LogTypes {
  type byte = x: int | 0 <= x < 256

  type Name = seq<byte>

  datatype Extent = Extent(startLba: nat, lengthBlocks: nat)

  datatype Entry = Entry(fileId: nat, name: Name, size: nat, extents: seq<Extent>)

  /** Size of the on-disk name field; a stored name is strictly shorter. */
  const NAME_MAX: nat := 128
}

module FileLog {
  import opened Wrappers
  import opened LogTypes
  import LogCodec

  ghost predicate DistinctNames(es: seq<Entry>) {
    forall i, j :: 0 <= i < j < |es| ==> es[i].name != es[j].name
  }

  ghost predicate DistinctIds(es: seq<Entry>) {
    forall i, j :: 0 <= i < j < |es| ==> es[i].fileId != es[j].fileId
  }

  ghost predicate IdsBelow(es: seq<Entry>, next: nat) {
    forall e :: e in es ==> e.fileId < next
  }

  ghost function Names(es: seq<Entry>): set<Name> {
    set e | e in es :: e.name
  }

  /** The finite map a log stands for: later entries override earlier ones. */
  ghost function Contents(es: seq<Entry>): map<Name, Entry> {
    if es == [] then map[]
    else
      var last := es[|es| - 1];
      Contents(es[..|es| - 1])[last.name := last]
  }

  lemma {:induction false} ContentsAre(es: seq<Entry>)
    ensures Contents(es).Keys == Names(es)
    ensures DistinctNames(es) ==> forall e :: e in es ==> Contents(es)[e.name] == e
  {
    if es != [] {
      var init := es[..|es| - 1];
      ContentsAre(init);
      assert es == init + [es[|es| - 1]];
      assert Names(es) == Names(init) + {es[|es| - 1].name};
    }
  }

  /** The simple form of lookup: scan the vector. */
  function Scan(es: seq<Entry>, name: Name): Option<Entry> {
    if es == [] then None
    else if es[0].name == name then Some(es[0])
    else Scan(es[1..], name)
  }

  lemma {:induction false} ScanFinds(es: seq<Entry>, i: nat)
    requires DistinctNames(es) && i < |es|
    ensures Scan(es, es[i].name) == Some(es[i])
  {
    if i > 0 { ScanFinds(es[1..], i - 1); }
  }

  lemma {:induction false} ScanMisses(es: seq<Entry>, name: Name)
    requires name !in Names(es)
    ensures Scan(es, name) == None
  {
    if es != [] {
      assert es[0] in es;
      assert forall e :: e in es[1..] ==> e in es;
      ScanMisses(es[1..], name);
    }
  }

  /** Position of the first entry with this id, or the length when there is none. */
  function IndexOfId(es: seq<Entry>, id: nat): (k: nat)
    ensures k <= |es|
    ensures k < |es| ==> es[k].fileId == id
    ensures forall j :: 0 <= j < k ==> es[j].fileId != id
  {
    if es == [] || es[0].fileId == id then 0 else 1 + IndexOfId(es[1..], id)
  }

  /** Overwrite position k with the last element, then drop the last element. */
  function SwapPop<T>(s: seq<T>, k: nat): seq<T>
    requires k < |s|
  {
    if k == |s| - 1 then s[..|s| - 1] else s[k := s[|s| - 1]][..|s| - 1]
  }

  function RemoveId(es: seq<Entry>, id: nat): seq<Entry> {
    var k := IndexOfId(es, id);
    if k == |es| then es else SwapPop(es, k)
  }

  lemma SwapPopMembers<T>(s: seq<T>, k: nat)
    requires k < |s|
    requires forall i, j :: 0 <= i < j < |s| ==> s[i] != s[j]
    ensures forall x :: x in SwapPop(s, k) <==> x in s && x != s[k]
  {
    forall x | x in s && x != s[k] ensures x in SwapPop(s, k) {
      var i :| 0 <= i < |s| && s[i] == x;
      assert SwapPop(s, k)[if i == |s| - 1 then k else i] == x;
    }
  }

  /** Swap-and-pop removes exactly the entry of that id, whatever its position. */
  lemma RemoveIdIsFilter(es: seq<Entry>, id: nat)
    requires DistinctIds(es)
    ensures forall e :: e in RemoveId(es, id) <==> e in es && e.fileId != id
    ensures DistinctNames(es) ==> DistinctNames(RemoveId(es, id))
  {
    var k := IndexOfId(es, id);
    if k < |es| {
      SwapPopMembers(es, k);
    }
  }

  /** Index and vector are in bijection. */
  ghost predicate IndexedBy(es: seq<Entry>, index: map<Name, nat>) {
    && (forall n :: n in index ==> index[n] < |es| && es[index[n]].name == n)
    && (forall i :: 0 <= i < |es| ==> es[i].name in index && index[es[i].name] == i)
  }

  lemma IndexedNames(es: seq<Entry>, index: map<Name, nat>)
    requires IndexedBy(es, index)
    ensures DistinctNames(es) && index.Keys == Names(es)
  {
    forall n | n in index ensures n in Names(es) { assert es[index[n]] in es; }
  }

  lemma AppendIndexed(es: seq<Entry>, index: map<Name, nat>, e: Entry)
    requires IndexedBy(es, index) && e.name !in index
    ensures IndexedBy(es + [e], index[e.name := |es|])
  {
  }

  lemma IndexPrefix(es: seq<Entry>, index: map<Name, nat>, i: nat)
    requires DistinctNames(es) && i < |es| && IndexedBy(es[..i], index)
    ensures IndexedBy(es[..i + 1], index[es[i].name := i])
  {
    assert es[..i + 1] == es[..i] + [es[i]];
    AppendIndexed(es[..i], index, es[i]);
  }

  lemma AppendIds(es: seq<Entry>, e: Entry, next: nat)
    requires DistinctIds(es) && IdsBelow(es, next)
    requires forall x :: x in es ==> x.fileId != e.fileId
    ensures DistinctIds(es + [e])
    ensures IdsBelow(es + [e], if e.fileId >= next then e.fileId + 1 else next)
  {
    forall i | 0 <= i < |es| ensures es[i].fileId != e.fileId { assert es[i] in es; }
  }

  /** Overwriting a removed slot with the last element keeps the bijection. */
  lemma SwapPopIndexed(es: seq<Entry>, index: map<Name, nat>, k: nat)
    requires IndexedBy(es, index) && k < |es|
    ensures var rest := index - {es[k].name};
            IndexedBy(SwapPop(es, k), if k == |es| - 1 then rest else rest[es[|es| - 1].name := k])
  {
  }

  class PersistentFileLog {
    var entries: seq<Entry>
    var index: map<Name, nat>
    var nextId: nat

    ghost predicate Valid()
      reads this
    {
      IndexedBy(entries, index) && DistinctIds(entries) && IdsBelow(entries, nextId)
    }

    constructor ()
      ensures Valid() && entries == [] && nextId == 1
    {
      entries, index, nextId := [], map[], 1;
    }

    /** Rebuild vector, index and counter from a log file. */
    method Load(file: seq<byte>) returns (r: LogCodec.Result<()>)
      modifies this
      ensures r.Ok? <==> LogCodec.Decode(file).Ok?
      ensures r.Err? ==> LogCodec.Decode(file) == LogCodec.Err(r.error)
      ensures r.Ok? ==> LogCodec.Loaded(entries, nextId) == LogCodec.Decode(file).value
      ensures r.Ok? && DistinctNames(entries) ==> IndexedBy(entries, index)
    {
      var read := LogCodec.Read(file);
      if read.Err? {
        return LogCodec.Err(read.error);
      }
      entries, index, nextId := read.value.entries, map[], read.value.nextId;
      for i := 0 to |entries|
        invariant entries == read.value.entries && nextId == read.value.nextId
        invariant DistinctNames(entries) ==> IndexedBy(entries[..i], index)
      {
        if DistinctNames(entries) {
          IndexPrefix(entries, index, i);
        }
        index := index[entries[i].name := i];
      }
      assert entries[..|entries|] == entries;
      return LogCodec.Ok(());
    }

    method Image() returns (file: seq<byte>)
      ensures file == LogCodec.Encode(LogCodec.Loaded(entries, nextId))
    {
      file := LogCodec.Write(entries, nextId);
    }

    /** Indexed lookup equals the scan, and both equal the finite map. */
    method FindByName(name: Name) returns (r: Option<Entry>)
      requires IndexedBy(entries, index)
      ensures DistinctNames(entries)
      ensures r == Scan(entries, name)
      ensures r == if name in Contents(entries) then Some(Contents(entries)[name]) else None
    {
      IndexedNames(entries, index);
      ContentsAre(entries);
      if name in index {
        r := Some(entries[index[name]]);
        ScanFinds(entries, index[name]);
        assert entries[index[name]] in entries;
      } else {
        r := None;
        ScanMisses(entries, name);
      }
    }

    method NextFileId() returns (id: nat)
      requires Valid()
      modifies this`nextId
      ensures Valid() && id == old(nextId) && nextId == old(nextId) + 1
      ensures forall e :: e in entries ==> e.fileId != id
    {
      id := nextId;
      nextId := nextId + 1;
    }

    method Add(e: Entry) returns (ok: bool)
      requires IndexedBy(entries, index)
      modifies this
      ensures IndexedBy(entries, index)
      ensures ok <==> |e.name| < NAME_MAX && e.name !in old(Names(entries))
      ensures entries == if ok then old(entries) + [e] else old(entries)
      ensures nextId == if ok && e.fileId >= old(nextId) then e.fileId + 1 else old(nextId)
      ensures old(Valid()) && (forall x :: x in old(entries) ==> x.fileId != e.fileId) ==> Valid()
    {
      IndexedNames(entries, index);
      if |e.name| >= NAME_MAX || e.name in index {
        return false;
      }
      AppendIndexed(entries, index, e);
      if DistinctIds(entries) && IdsBelow(entries, nextId) && forall x :: x in entries ==> x.fileId != e.fileId {
        AppendIds(entries, e, nextId);
      }
      index := index[e.name := |entries|];
      if e.fileId >= nextId {
        nextId := e.fileId + 1;
      }
      entries := entries + [e];
      return true;
    }

    method Remove(id: nat) returns (found: bool)
      requires IndexedBy(entries, index)
      modifies this`entries, this`index
      ensures IndexedBy(entries, index)
      ensures found <==> IndexOfId(old(entries), id) < |old(entries)|
      ensures entries == RemoveId(old(entries), id)
      ensures old(Valid()) ==> Valid()
    {
      var i := 0;
      while i < |entries| && entries[i].fileId != id
        invariant i <= |entries|
        invariant forall j :: 0 <= j < i ==> entries[j].fileId != id
      {
        i := i + 1;
      }
      found := i < |entries|;
      assert i == IndexOfId(entries, id);
      if found {
        RemoveKeepsIds(entries, id, nextId);
        PopAt(i);
      }
    }

    method PopAt(i: nat)
      requires IndexedBy(entries, index) && i < |entries|
      modifies this`entries, this`index
      ensures IndexedBy(entries, index)
      ensures entries == SwapPop(old(entries), i)
    {
      SwapPopIndexed(entries, index, i);
      var last := |entries| - 1;
      index := index - {entries[i].name};
      if i != last {
        entries := entries[i := entries[last]];
        index := index[entries[i].name := i];
      }
      entries := entries[..last];
    }
  }

  lemma RemoveKeepsIds(es: seq<Entry>, id: nat, next: nat)
    ensures DistinctIds(es) ==> DistinctIds(RemoveId(es, id))
    ensures IdsBelow(es, next) ==> IdsBelow(RemoveId(es, id), next)
  {
    var k := IndexOfId(es, id);
    forall e | e in RemoveId(es, id) ensures e in es {}
  }

  // ----- Refinement: any sequence of creations and removals acts on the finite map

  datatype Log = Log(entries: seq<Entry>, next: nat)

  datatype Op = Create(name: Name, size: nat, extents: seq<Extent>) | Drop(id: nat)

  ghost predicate WfLog(es: seq<Entry>, next: nat) {
    DistinctNames(es) && DistinctIds(es) && IdsBelow(es, next)
  }

  /** What NextFileId followed by Add, or Remove, does to the vector. */
  function Do(log: Log, op: Op): Log {
    match op
    case Create(name, size, extents) =>
      if |name| < NAME_MAX && Scan(log.entries, name).None? then
        Log(log.entries + [Entry(log.next, name, size, extents)], log.next + 1)
      else
        Log(log.entries, log.next + 1)
    case Drop(id) => Log(RemoveId(log.entries, id), log.next)
  }

  function DoAll(log: Log, ops: seq<Op>): Log {
    if ops == [] then log else Do(DoAll(log, ops[..|ops| - 1]), ops[|ops| - 1])
  }

  /** The same operations on a finite map, with no vector and no order. */
  ghost function MapDo(m: map<Name, Entry>, next: nat, op: Op): map<Name, Entry> {
    match op
    case Create(name, size, extents) =>
      if |name| < NAME_MAX && name !in m then m[name := Entry(next, name, size, extents)] else m
    case Drop(id) => map n | n in m && m[n].fileId != id :: m[n]
  }

  ghost function MapDoAll(ops: seq<Op>): (map<Name, Entry>, nat) {
    if ops == [] then (map[], 1)
    else
      var (m, next) := MapDoAll(ops[..|ops| - 1]);
      (MapDo(m, next, ops[|ops| - 1]), next + if ops[|ops| - 1].Create? then 1 else 0)
  }

  lemma ScanIsContents(es: seq<Entry>, name: Name)
    requires DistinctNames(es)
    ensures Scan(es, name) == if name in Contents(es) then Some(Contents(es)[name]) else None
  {
    ContentsAre(es);
    if name in Names(es) {
      var e :| e in es && e.name == name;
      var i :| 0 <= i < |es| && es[i] == e;
      ScanFinds(es, i);
    } else {
      ScanMisses(es, name);
    }
  }

  lemma DropRefines(log: Log, id: nat)
    requires WfLog(log.entries, log.next)
    ensures WfLog(RemoveId(log.entries, id), log.next)
    ensures Contents(RemoveId(log.entries, id)) == MapDo(Contents(log.entries), log.next, Drop(id))
  {
    RemoveIdIsFilter(log.entries, id);
    RemoveKeepsIds(log.entries, id, log.next);
    ContentsAre(log.entries);
    ContentsAre(RemoveId(log.entries, id));
  }

  lemma AppendRefines(log: Log, e: Entry)
    requires WfLog(log.entries, log.next) && e.fileId == log.next && e.name !in Names(log.entries)
    ensures WfLog(log.entries + [e], log.next + 1)
    ensures Contents(log.entries + [e]) == Contents(log.entries)[e.name := e]
  {
    AppendIds(log.entries, e, log.next);
    AppendNames(log.entries, e);
    assert (log.entries + [e])[..|log.entries|] == log.entries;
  }

  lemma DoRefines(log: Log, op: Op)
    requires WfLog(log.entries, log.next)
    ensures WfLog(Do(log, op).entries, Do(log, op).next)
    ensures Do(log, op).next == log.next + if op.Create? then 1 else 0
    ensures Contents(Do(log, op).entries) == MapDo(Contents(log.entries), log.next, op)
  {
    hide RemoveId, Contents, Scan;
    match op
    case Create(name, size, extents) =>
      ScanIsContents(log.entries, name);
      ContentsAre(log.entries);
      if name !in Contents(log.entries) {
        AppendRefines(log, Entry(log.next, name, size, extents));
      }
    case Drop(id) =>
      DropRefines(log, id);
  }

  lemma AppendNames(es: seq<Entry>, e: Entry)
    requires DistinctNames(es) && e.name !in Names(es)
    ensures DistinctNames(es + [e]) && Names(es + [e]) == Names(es) + {e.name}
  {
    forall i | 0 <= i < |es| ensures es[i].name != e.name { assert es[i] in es; }
    assert e in es + [e];
    assert forall x :: x in es ==> x in es + [e];
  }

  lemma EmptyLog()
    ensures WfLog([], 1) && Contents([]) == map[]
  {
  }

  /** Swap-and-pop with an index refines a finite map from name to entry, whatever the history;
      names and ids stay distinct and below the counter. */
  lemma {:induction false} LogRefinesMap(ops: seq<Op>)
    ensures var log := DoAll(Log([], 1), ops);
            WfLog(log.entries, log.next) && (Contents(log.entries), log.next) == MapDoAll(ops)
  {
    hide Do, MapDo, Contents, WfLog;
    if ops == [] {
      EmptyLog();
    } else {
      LogRefinesMap(ops[..|ops| - 1]);
      DoRefines(DoAll(Log([], 1), ops[..|ops| - 1]), ops[|ops| - 1]);
    }
  }
}
