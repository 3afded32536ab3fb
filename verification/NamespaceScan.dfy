/** The namespace scan (core.c): bring the controller's sorted list of attached namespaces into
    agreement with the active namespace ids the controller reports in pages of 1024 (section 5.15
    of NVM Express 1.4). */
module NamespaceScan {
  import opened Wrappers

  /** An attached namespace; dead once its device is known to be gone. */
  datatype Ns = Ns(id: nat, dead: bool)

  /** What the device answers about one id: are its descriptors readable, does validating an
      attached namespace end in a fatal error, does allocating a new one succeed. */
  datatype Answer = Answer(descriptors: bool, fatal: bool, allocates: bool)

  const PAGE_ENTRIES: nat := 1024
  const ID_LIMIT: nat := 0x1_0000_0000

  ghost predicate Sorted(list: seq<Ns>) {
    forall i, j :: 0 <= i < j < |list| ==> list[i].id < list[j].id
  }

  ghost predicate Ascending(ids: seq<nat>) {
    forall i, j :: 0 <= i < j < |ids| ==> ids[i] < ids[j]
  }

  ghost predicate ValidActive(active: seq<nat>) {
    Ascending(active) && forall i :: 0 <= i < |active| ==> 0 < active[i] < ID_LIMIT
  }

  ghost predicate Attached(list: seq<Ns>, id: nat) {
    exists ns :: ns in list && ns.id == id
  }

  // ----- The controller's pages

  /** How many active ids are at most prev. */
  function Served(active: seq<nat>, prev: nat): (k: nat)
    ensures k <= |active|
    ensures forall i :: 0 <= i < k ==> active[i] <= prev
    ensures k < |active| ==> active[k] > prev
  {
    if active == [] || active[0] > prev then 0 else 1 + Served(active[1..], prev)
  }

  /** The ids above prev, as many as fit, then zeros. */
  function Page(active: seq<nat>, prev: nat): (page: seq<nat>)
    ensures |page| == 1024
  {
    var k := Served(active, prev);
    seq(PAGE_ENTRIES, i requires 0 <= i < PAGE_ENTRIES => if k + i < |active| then active[k + i] else 0)
  }

  lemma ServedIs(active: seq<nat>, k: nat)
    requires Ascending(active) && 0 < k <= |active|
    ensures Served(active, active[k - 1]) == k
  {
    var m := Served(active, active[k - 1]);
    assert m < |active| ==> active[m] > active[k - 1];
    assert forall i :: 0 <= i < k ==> active[i] <= active[k - 1];
  }

  // ----- List operations

  /** The first namespace with this id, looking at all of them. */
  function FullScan(list: seq<Ns>, id: nat): Option<Ns> {
    if list == [] then None else if list[0].id == id then Some(list[0]) else FullScan(list[1..], id)
  }

  lemma {:induction false} FullScanIs(list: seq<Ns>, id: nat)
    ensures FullScan(list, id).Some? <==> Attached(list, id)
    ensures FullScan(list, id).Some? ==> FullScan(list, id).value in list && FullScan(list, id).value.id == id
  {
    if list != [] {
      FullScanIs(list[1..], id);
      assert list == [list[0]] + list[1..];
      if FullScan(list, id).Some? { assert FullScan(list, id).value in list; }
    }
  }

  lemma UniqueId(list: seq<Ns>, a: Ns, b: Ns)
    requires Sorted(list) && a in list && b in list && a.id == b.id
    ensures a == b
  {
    var i :| 0 <= i < |list| && list[i] == a;
    var j :| 0 <= j < |list| && list[j] == b;
  }

  function Without(list: seq<Ns>, id: nat): seq<Ns> {
    if list == [] then []
    else if list[0].id == id then Without(list[1..], id)
    else [list[0]] + Without(list[1..], id)
  }

  lemma {:induction false} WithoutMembers(list: seq<Ns>, id: nat)
    ensures forall ns :: ns in Without(list, id) <==> ns in list && ns.id != id
  {
    if list != [] {
      WithoutMembers(list[1..], id);
      assert list == [list[0]] + list[1..];
    }
  }

  lemma {:induction false} WithoutSorted(list: seq<Ns>, id: nat)
    requires Sorted(list)
    ensures Sorted(Without(list, id))
  {
    if list != [] {
      var rest := Without(list[1..], id);
      WithoutSorted(list[1..], id);
      WithoutMembers(list[1..], id);
      forall k | 0 <= k < |rest| ensures list[0].id < rest[k].id {
        assert rest[k] in list[1..];
      }
    }
  }

  lemma InsertSorted(list: seq<Ns>, k: nat, ns: Ns)
    requires Sorted(list) && k <= |list|
    requires k > 0 ==> list[k - 1].id < ns.id
    requires k < |list| ==> ns.id < list[k].id
    ensures Sorted(list[..k] + [ns] + list[k..])
  {
    assert forall i :: 0 <= i < k ==> list[i].id <= list[k - 1].id;
    assert forall i :: k <= i < |list| ==> list[k].id <= list[i].id;
  }

  lemma InsertMembers(list: seq<Ns>, k: nat, ns: Ns)
    requires k <= |list|
    ensures forall x :: x in list[..k] + [ns] + list[k..] <==> x in list || x == ns
  {
    assert list == list[..k] + list[k..];
  }

  // ----- What one id becomes

  /** Is this namespace attached once its id has been looked at? */
  ghost predicate Kept(before: seq<Ns>, ns: Ns, answer: Answer) {
    if Attached(before, ns.id) then ns in before && (answer.descriptors ==> !ns.dead && !answer.fatal)
    else !ns.dead && answer.descriptors && answer.allocates
  }

  /** Ids up to prev, and one more, have been looked at; the others are as before. */
  ghost predicate Agrees(list: seq<Ns>, before: seq<Ns>, active: seq<nat>, answer: nat -> Answer, prev: nat, also: nat) {
    forall ns :: ns in list <==>
      if ns.id <= prev || ns.id == also then ns.id in active && Kept(before, ns, answer(ns.id)) else ns in before
  }

  class NamespaceList {
    var list: seq<Ns>

    /** Stops at the first larger id, and finds what a full scan finds. */
    method FindGetNs(id: nat) returns (r: Option<Ns>)
      requires Sorted(list)
      ensures r == FullScan(list, id)
    {
      FullScanIs(list, id);
      r := None;
      var i := 0;
      while i < |list|
        invariant i <= |list|
        invariant forall j :: 0 <= j < i ==> list[j].id < id
      {
        if list[i].id == id {
          r := Some(list[i]);
          UniqueId(list, list[i], FullScan(list, id).value);
          return;
        }
        if list[i].id > id {
          break;
        }
        i := i + 1;
      }
    }

    /** Insert from the back, after the last smaller id. */
    method AddToCtrlList(ns: Ns)
      requires Sorted(list) && !Attached(list, ns.id)
      modifies this
      ensures Sorted(list) && forall x :: x in list <==> x in old(list) || x == ns
    {
      var k := |list|;
      while k > 0 && list[k - 1].id >= ns.id
        invariant 0 <= k <= |list|
        invariant forall j :: k <= j < |list| ==> list[j].id > ns.id
      {
        assert list[k - 1] in list;
        k := k - 1;
      }
      InsertSorted(list, k, ns);
      InsertMembers(list, k, ns);
      list := list[..k] + [ns] + list[k..];
    }

    method Remove(ns: Ns)
      requires Sorted(list)
      modifies this
      ensures Sorted(list) && forall x :: x in list <==> x in old(list) && x.id != ns.id
    {
      WithoutMembers(list, ns.id);
      WithoutSorted(list, ns.id);
      list := Without(list, ns.id);
    }

    method RemoveByNsid(id: nat)
      requires Sorted(list)
      modifies this
      ensures Sorted(list) && forall x :: x in list <==> x in old(list) && x.id != id
    {
      var ns := FindGetNs(id);
      FullScanIs(list, id);
      if ns.Some? {
        Remove(ns.value);
      }
    }

    method ValidateOrAlloc(id: nat, answer: Answer)
      requires Sorted(list)
      modifies this
      ensures Sorted(list)
      ensures forall x :: x in list <==> if x.id == id then Kept(old(list), x, answer) else x in old(list)
    {
      FullScanIs(list, id);
      if !answer.descriptors {
        return;
      }
      var ns := FindGetNs(id);
      if ns.Some? {
        OnlyOne(list, ns.value);
        if ns.value.dead || answer.fatal {
          Remove(ns.value);
        }
        return;
      }
      if answer.allocates {
        AddToCtrlList(Ns(id, false));
      }
    }

    /** Drop ids above the last active one, and the dead. */
    method RemoveInvalid(prev: nat)
      requires Sorted(list)
      modifies this
      ensures Sorted(list) && forall x :: x in list <==> x in old(list) && x.id <= prev && !x.dead
    {
      var kept: seq<Ns> := [];
      var i := 0;
      while i < |list|
        invariant i <= |list| && list == old(list)
        invariant Sorted(kept) && forall x :: x in kept <==> x in list[..i] && x.id <= prev && !x.dead
      {
        assert list[..i + 1] == list[..i] + [list[i]];
        if !(list[i].id > prev || list[i].dead) {
          BelowNext(list, i, kept);
          kept := kept + [list[i]];
        }
        i := i + 1;
      }
      assert list[..i] == list;
      list := kept;
    }

    /** One entry of a page: settle this id, then remove every id skipped since the last one. */
    method ScanEntry(id: nat, prev: nat, ghost before: seq<Ns>, ghost active: seq<nat>, answer: nat -> Answer)
      requires Sorted(list) && Sorted(before) && prev < id && id in active
      requires forall n :: n in active ==> n <= prev || n >= id
      requires Agrees(list, before, active, answer, prev, prev)
      modifies this
      ensures Sorted(list) && Agrees(list, before, active, answer, id, id)
    {
      EntryKept(list, before, id, answer(id));
      ValidateOrAlloc(id, answer(id));
      var p := prev + 1;
      while p < id
        invariant prev < p <= id
        invariant Sorted(list) && Agrees(list, before, active, answer, p - 1, id)
      {
        RemoveByNsid(p);
        p := p + 1;
      }
    }

    /** All the ids of one page; done when the zero that ends the list is met. */
    method ScanPage(prev: nat, ghost before: seq<Ns>, active: seq<nat>, answer: nat -> Answer)
      returns (done: bool, last: nat)
      requires ValidActive(active) && Sorted(list) && Sorted(before)
      requires prev == 0 || prev in active
      requires Agrees(list, before, active, answer, prev, prev)
      modifies this
      ensures Sorted(list) && Agrees(list, before, active, answer, last, last)
      ensures last == 0 || last in active
      ensures done ==> Served(active, last) == |active|
      ensures !done ==> Served(active, last) > Served(active, prev)
    {
      hide Agrees, Sorted, Ascending;
      var page := Page(active, prev);
      var k := Served(active, prev);
      StartOfPage(active, prev);
      last := prev;
      var i := 0;
      while i < PAGE_ENTRIES
        invariant i <= PAGE_ENTRIES && k + i <= |active|
        invariant last == (if k + i == 0 then 0 else active[k + i - 1])
        invariant Sorted(list) && Agrees(list, before, active, answer, last, last)
      {
        var id := page[i];
        if id == 0 {
          EndOfList(active, k, i);
          return true, last;
        }
        NextEntry(active, k, i, last);
        ScanEntry(id, last, before, active, answer);
        last := id;
        i := i + 1;
      }
      ServedIs(active, k + i);
      return false, last;
    }

    /** After a successful scan the list holds exactly the active namespaces that validated or were
        allocated, none of them dead, in order. */
    method ScanNsList(active: seq<nat>, answer: nat -> Answer, fails: nat -> bool) returns (ok: bool)
      requires ValidActive(active) && Sorted(list) && !Attached(list, 0)
      modifies this
      ensures Sorted(list) && !Attached(list, 0)
      ensures ok ==> forall ns :: ns in list <==>
                ns.id in active && !ns.dead && Kept(old(list), ns, answer(ns.id))
      ensures ok ==> forall ns :: ns in list <==>
                && ns.id in active && !ns.dead
                && if exists x :: x in old(list) && x.id == ns.id
                   then ns in old(list) && (answer(ns.id).descriptors ==> !answer(ns.id).fatal)
                   else answer(ns.id).descriptors && answer(ns.id).allocates
      ensures !ok ==> exists prev :: Agrees(list, old(list), active, answer, prev, prev)
    {
      var prev, done := 0, false;
      StartEmpty(list, active, answer);
      while !done
        invariant Sorted(list) && Agrees(list, old(list), active, answer, prev, prev)
        invariant prev == 0 || prev in active
        invariant done ==> Served(active, prev) == |active|
        decreases |active| - Served(active, prev), !done
      {
        if fails(prev) {
          return false;
        }
        done, prev := ScanPage(prev, old(list), active, answer);
      }
      AllServed(active, prev);
      RemoveInvalid(prev);
      return true;
    }
  }

  lemma OnlyOne(list: seq<Ns>, ns: Ns)
    requires Sorted(list) && ns in list
    ensures forall x :: x in list && x.id == ns.id ==> x == ns
  {
    forall x | x in list && x.id == ns.id ensures x == ns { UniqueId(list, x, ns); }
  }

  lemma BelowNext(list: seq<Ns>, i: nat, kept: seq<Ns>)
    requires Sorted(list) && i < |list| && Sorted(kept) && forall x :: x in kept ==> x in list[..i]
    ensures Sorted(kept + [list[i]])
  {
    forall k | 0 <= k < |kept| ensures kept[k].id < list[i].id {
      assert kept[k] in list[..i];
    }
  }

  /** An id not looked at yet is attached as it was before the scan. */
  lemma EntryKept(list: seq<Ns>, before: seq<Ns>, id: nat, answer: Answer)
    requires forall ns: Ns :: ns.id == id ==> (ns in list <==> ns in before)
    ensures forall ns: Ns :: ns.id == id ==> (Kept(list, ns, answer) <==> Kept(before, ns, answer))
  {
    assert Attached(list, id) <==> Attached(before, id) by {
      if Attached(list, id) { var ns :| ns in list && ns.id == id; assert ns in before; }
      if Attached(before, id) { var ns :| ns in before && ns.id == id; assert ns in list; }
    }
  }

  lemma StartOfPage(active: seq<nat>, prev: nat)
    requires ValidActive(active) && (prev == 0 || prev in active)
    ensures var k := Served(active, prev); prev == if k == 0 then 0 else active[k - 1]
  {
    if prev != 0 {
      var i :| 0 <= i < |active| && active[i] == prev;
      ServedIs(active, i + 1);
    }
  }

  lemma EndOfList(active: seq<nat>, k: nat, i: nat)
    requires ValidActive(active) && k + i <= |active|
    requires k + i < |active| ==> active[k + i] == 0
    ensures k + i == |active|
    ensures Served(active, if k + i == 0 then 0 else active[k + i - 1]) == |active|
  {
    if k + i > 0 { ServedIs(active, k + i); }
  }

  lemma NextEntry(active: seq<nat>, k: nat, i: nat, last: nat)
    requires ValidActive(active) && k + i < |active| && last == if k + i == 0 then 0 else active[k + i - 1]
    ensures last < active[k + i] && active[k + i] in active
    ensures forall n :: n in active ==> n <= last || n >= active[k + i]
  {
    assert active[k + i] in active;
    forall n | n in active ensures n <= last || n >= active[k + i] {
      var j :| 0 <= j < |active| && active[j] == n;
    }
  }

  lemma StartEmpty(list: seq<Ns>, active: seq<nat>, answer: nat -> Answer)
    requires Sorted(list) && ValidActive(active) && !Attached(list, 0)
    ensures Agrees(list, list, active, answer, 0, 0)
  {
  }

  lemma AllServed(active: seq<nat>, prev: nat)
    requires Served(active, prev) == |active|
    ensures forall n :: n in active ==> n <= prev
  {
  }
}
