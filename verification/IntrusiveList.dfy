/** The driver's circular doubly linked list (list.c, list.h) and the purge of a dead task's memory
    maps (map.c).  A map descriptor is a node that also carries its owner and its queue group. */
module IntrusiveList {
  class Node {
    var list: List?
    var next: Node?
    var prev: Node?
    const owner: nat
    const groupId: nat
    /** The map's pages have been unpinned and the descriptor freed. */
    var released: bool

    constructor (owner: nat, groupId: nat)
      ensures list == null && next == null && prev == null && !released
      ensures this.owner == owner && this.groupId == groupId
    {
      list, next, prev, released := null, null, null, false;
      this.owner, this.groupId := owner, groupId;
    }
  }

  ghost function Dropped<T>(s: seq<T>, k: nat): seq<T>
    requires k < |s|
  {
    s[..k] + s[k + 1..]
  }

  lemma DroppedAt<T>(s: seq<T>, k: nat)
    requires k < |s|
    ensures |Dropped(s, k)| == |s| - 1
    ensures forall i {:trigger Dropped(s, k)[i]} :: 0 <= i < |s| - 1 ==> Dropped(s, k)[i] == if i < k then s[i] else s[i + 1]
  {
  }

  lemma DroppedInner<T>(s: seq<T>, k: nat)
    requires 0 < k < |s| - 1
    ensures Dropped(s, k)[1..|s| - 2] == Dropped(s[1..|s| - 1], k - 1)
  {
  }

  class List {
    const head: Node
    /** Once round the circle, the head at both ends. */
    ghost var ring: seq<Node>

    ghost predicate Circular()
      reads this
    {
      && |ring| >= 2 && ring[0] == head && ring[|ring| - 1] == head
      && forall i, j :: 0 <= i < j < |ring| - 1 ==> ring[i] != ring[j]
    }

    ghost predicate Valid()
      reads this, ring
    {
      && Circular()
      && (forall i {:trigger ring[i].list} :: 0 <= i < |ring| ==> ring[i].list == this)
      && (forall i {:trigger ring[i].next} :: 0 <= i < |ring| - 1 ==> ring[i].next == ring[i + 1])
      && (forall i {:trigger ring[i].prev} :: 0 < i < |ring| ==> ring[i].prev == ring[i - 1])
    }

    /** The elements in order. */
    ghost function Nodes(): seq<Node>
      requires Circular()
      reads this
    {
      ring[1..|ring| - 1]
    }

    constructor ()
      ensures Valid() && Nodes() == [] && fresh(head)
    {
      head := new Node(0, 0);
      new;
      ring := [head, head];
      head.list, head.prev, head.next := this, head, head;
    }

    /** Append at the tail. */
    method Insert(e: Node)
      requires Valid() && e !in ring
      modifies this, ring, e`list, e`next, e`prev
      ensures Valid() && Nodes() == old(Nodes()) + [e]
      ensures forall n :: n in old(ring) ==> n.released == old(n.released)
    {
      ghost var was := ring;
      ghost var z := |ring| - 1;
      var last := head.prev;
      assert ring[z].prev == ring[z - 1];
      last.next := e;
      e.list, e.prev, e.next := this, last, head;
      head.prev := e;
      ring := ring[..z] + [e, head];
      assert forall i :: 0 <= i < z ==> ring[i] == was[i];
      assert Nodes() == was[1..z] + [e];
    }

    /** Unlink an element; the head and detached elements are left alone. */
    method Remove(e: Node)
      requires Valid() && (e in ring || e.list == null)
      modifies this, ring
      ensures Valid()
      ensures e == head || e !in old(ring) ==> ring == old(ring)
      ensures e != head && e in old(ring) ==>
                && e.list == null && e.next == null && e.prev == null
                && exists k :: 0 <= k < |old(Nodes())| && old(Nodes())[k] == e && Nodes() == Dropped(old(Nodes()), k)
      ensures e != head && e in old(ring) ==> TakenOut(old(ring), ring, e)
      ensures forall n :: n in old(ring) ==> n.released == old(n.released)
    {
      if e.list != null && e != head {
        ghost var k :| 0 <= k < |ring| && ring[k] == e;
        assert Nodes()[k - 1] == e;
        DroppedInner(ring, k);
        Unlink(e, k, ring[k - 1], ring[k + 1]);
      }
    }

    method Unlink(e: Node, ghost k: nat, ghost before: Node, ghost after: Node)
      requires Valid() && 0 < k < |ring| - 1 && ring[k] == e && before == ring[k - 1] && after == ring[k + 1]
      modifies this`ring, e`list, e`next, e`prev, before`next, after`prev
      ensures Valid() && ring == Dropped(old(ring), k)
      ensures e.list == null && e.next == null && e.prev == null
    {
      ghost var was := ring;
      assert was[k].prev == was[k - 1] && was[k].next == was[k + 1];
      e.prev.next := e.next;
      e.next.prev := e.prev;
      e.list, e.next, e.prev := null, null, null;
      assert was[k - 1].next == was[k + 1] && was[k + 1].prev == was[k - 1];
      assert forall i {:trigger was[i].next} :: 0 <= i < |was| - 1 && i != k && i != k - 1 ==> was[i].next == was[i + 1];
      assert forall i {:trigger was[i].prev} :: 0 < i < |was| && i != k && i != k + 1 ==> was[i].prev == was[i - 1];
      ring := Dropped(ring, k);
      DroppedAt(was, k);
    }

    /** The element after this one, or null at the end. */
    method Next(cur: Node, ghost i: nat) returns (r: Node?)
      requires Valid() && i < |ring| - 1 && cur == ring[i]
      ensures r == if i + 1 < |ring| - 1 then ring[i + 1] else null
    {
      assert ring[i].next == ring[i + 1] && ring[i].list == this;
      r := if cur.next != cur.list.head then cur.next else null;
    }

    /** How far a purge has come: `was` is the circle it started with, `marked` the nodes already
        released then. */
    ghost predicate Purging(was: seq<Node>, marked: set<Node>, owner: nat, freed: nat)
      reads this, was
    {
      && Circular() && |was| >= 2 && freed + |ring| == |was|
      && Freed(was, ring, owner)
      && Kept(Nodes(), owner) == Kept(was[1..|was| - 1], owner)
      && forall n :: n in was ==> n.released == (n in marked || n !in ring)
    }

    /** Unmap: unlink the descriptor if it is on the list, unpin its pages and free it. */
    method Release(e: Node)
      requires Valid() && e != head && (e in ring || e.list == null)
      modifies this, ring, e`released
      ensures Valid() && e.released && e.list == null && e !in ring
      ensures if e in old(ring) then TakenOut(old(ring), ring, e) else ring == old(ring)
      ensures forall n :: n in old(ring) && n != e ==> n.released == old(n.released) && n in ring
    {
      hide Dropped;
      RingMembers(this);
      Remove(e);
      if e in old(ring) { TakenOutMembers(old(ring), ring, e); }
      e.released := true;
      assert Valid();
    }

    /** One map of the purge: Release keeps the account of what has gone. */
    method PurgeOne(e: Node, ghost was: seq<Node>, ghost marked: set<Node>, owner: nat, ghost freed: nat)
      requires Valid() && e in ring && e != head && Purged(e, owner)
      requires forall n :: n in ring ==> n in was
      requires Purging(was, marked, owner, freed)
      modifies this, was
      ensures Valid() && |ring| == |old(ring)| - 1 && forall n :: n in ring ==> n in old(ring)
      ensures Purging(was, marked, owner, freed + 1)
    {
      hide Valid, Kept, Dropped, TakenOut;
      ValidCircle(this);
      assert forall i :: 0 <= i < |ring| ==> ring[i] in ring;
      Release(e);
      ValidCircle(this);
      TakenOutMembers(old(ring), ring, e);
      TakenOutKept(old(ring), ring, e, owner);
    }

    /** Free every map of this task that belongs to no queue group; restart from the head after
        each, as the freed node must not be followed. */
    method PurgeByOwner(owner: nat) returns (freed: nat)
      requires Valid()
      modifies this, ring
      ensures Valid() && Nodes() == Kept(old(Nodes()), owner)
      ensures freed + |Nodes()| == |old(Nodes())|
      ensures forall n :: n in old(Nodes()) ==>
                n.released == (old(n.released) || (owner != 0 && n.owner == owner && n.groupId == 0))
      ensures forall n :: n in old(Nodes()) && owner != 0 && n.owner == owner && n.groupId == 0 ==> n.list == null
    {
      hide Valid, Purging, Kept;
      freed := 0;
      ValidCircle(this);
      if owner == 0 {
        KeptAll(Nodes(), owner);
        return;
      }
      ghost var was, marked := ring, set n | n in ring && n.released;
      PurgeBegins(this, marked, owner);
      ghost var i := 1;
      var e := Next(head, 0);
      while e != null
        invariant Valid() && 0 < i < |ring| && e == if i < |ring| - 1 then ring[i] else null
        invariant forall j :: 0 < j < i ==> !Purged(ring[j], owner)
        invariant forall n :: n in ring ==> n in was
        invariant Purging(was, marked, owner, freed)
        decreases |ring|, |ring| - i
      {
        if e.owner == owner && e.groupId == 0 {
          assert e in was;
          NotHead(this, i);
          PurgeOne(e, was, marked, owner, freed);
          freed := freed + 1;
          i := 1;
          ValidCircle(this);
          e := Next(head, 0);
        } else {
          e := Next(e, i);
          i := i + 1;
        }
      }
      PurgeEnds(this, was, marked, owner, freed);
    }
  }

  lemma ValidCircle(l: List)
    requires l.Valid()
    ensures l.Circular()
  {
  }

  lemma NotHead(l: List, i: nat)
    requires l.Valid() && 0 < i < |l.ring| - 1
    ensures l.ring[i] != l.head
  {
    assert l.ring[0] != l.ring[i];
  }

  lemma PurgeBegins(l: List, marked: set<Node>, owner: nat)
    requires l.Valid() && marked == set n | n in l.ring && n.released
    ensures l.Purging(l.ring, marked, owner, 0)
  {
  }

  lemma PurgeEnds(l: List, was: seq<Node>, marked: set<Node>, owner: nat, freed: nat)
    requires l.Purging(was, marked, owner, freed) && l.Valid()
    requires forall j :: 0 < j < |l.ring| - 1 ==> !Purged(l.ring[j], owner)
    requires was[0] == was[|was| - 1] == l.head
    requires forall i, j :: 0 <= i < j < |was| - 1 ==> was[i] != was[j]
    ensures l.Nodes() == Kept(was[1..|was| - 1], owner) && freed + |l.ring| == |was|
    ensures forall n :: n in was[1..|was| - 1] ==> n.released == (n in marked || Purged(n, owner))
    ensures forall n :: n in was[1..|was| - 1] && Purged(n, owner) ==> n.list == null
  {
    KeptAll(l.Nodes(), owner);
    forall n | n in was[1..|was| - 1] ensures n in l.ring <==> !Purged(n, owner) {
      assert n in was;
      if n in l.ring {
        var j :| 0 <= j < |l.ring| && l.ring[j] == n;
      }
    }
  }

  /** The circle without this element. */
  ghost predicate TakenOut(before: seq<Node>, after: seq<Node>, e: Node) {
    exists k :: 0 < k < |before| - 1 && before[k] == e && after == Dropped(before, k)
  }

  ghost predicate Round(ring: seq<Node>) {
    |ring| >= 2 && ring[0] == ring[|ring| - 1] && forall i, j :: 0 <= i < j < |ring| - 1 ==> ring[i] != ring[j]
  }

  lemma RingMembers(l: List)
    requires l.Valid()
    ensures Round(l.ring)
  {
  }

  lemma TakenOutMembers(before: seq<Node>, after: seq<Node>, e: Node)
    requires Round(before) && TakenOut(before, after, e)
    ensures |after| == |before| - 1 && forall n :: n in after <==> n in before && n != e
  {
    var k :| 0 < k < |before| - 1 && before[k] == e && after == Dropped(before, k);
    DropMembers(before, k);
  }

  lemma TakenOutKept(before: seq<Node>, after: seq<Node>, e: Node, owner: nat)
    requires Round(before) && TakenOut(before, after, e) && Purged(e, owner)
    ensures Kept(after[1..|after| - 1], owner) == Kept(before[1..|before| - 1], owner)
  {
    var k :| 0 < k < |before| - 1 && before[k] == e && after == Dropped(before, k);
    hide Dropped, Kept, TakenOut, Round;
    DroppedAt(before, k);
    DroppedInner(before, k);
    DropPurged(before[1..|before| - 1], k - 1, owner);
  }

  predicate Purged(n: Node, owner: nat) {
    owner != 0 && n.owner == owner && n.groupId == 0
  }

  /** What a purge leaves, in order. */
  ghost function Kept(nodes: seq<Node>, owner: nat): seq<Node> {
    if nodes == [] then []
    else Kept(nodes[..|nodes| - 1], owner) +
         if Purged(nodes[|nodes| - 1], owner) then [] else [nodes[|nodes| - 1]]
  }

  /** Nodes that left the list were to be purged, and are detached. */
  ghost predicate Freed(was: seq<Node>, nodes: seq<Node>, owner: nat)
    reads was
  {
    forall n :: n in was && n !in nodes ==> Purged(n, owner) && n.list == null
  }

  lemma {:induction false} KeptAll(nodes: seq<Node>, owner: nat)
    requires forall j :: 0 <= j < |nodes| ==> !Purged(nodes[j], owner)
    ensures Kept(nodes, owner) == nodes
  {
    if nodes != [] { KeptAll(nodes[..|nodes| - 1], owner); }
  }

  lemma {:induction false} DropPurged(nodes: seq<Node>, k: nat, owner: nat)
    requires k < |nodes| && Purged(nodes[k], owner)
    ensures Kept(Dropped(nodes, k), owner) == Kept(nodes, owner)
  {
    var last := |nodes| - 1;
    if k == last {
      assert Dropped(nodes, k) == nodes[..last];
    } else {
      var init := nodes[..last];
      DropPurged(init, k, owner);
      assert Dropped(nodes, k)[..last - 1] == Dropped(init, k);
    }
  }

  lemma DropMembers(nodes: seq<Node>, k: nat)
    requires 0 < k < |nodes| - 1 && forall i, j :: 0 <= i < j < |nodes| - 1 ==> nodes[i] != nodes[j]
    requires nodes[0] == nodes[|nodes| - 1]
    ensures forall n :: n in Dropped(nodes, k) <==> n in nodes && n != nodes[k]
  {
    var out := Dropped(nodes, k);
    assert nodes == nodes[..k] + [nodes[k]] + nodes[k + 1..];
    assert forall i :: 0 <= i < |out| ==> out[i] == if i < k then nodes[i] else nodes[i + 1];
    assert forall i :: 0 <= i < |nodes| && i != k ==> nodes[i] != nodes[k];
  }

  /** A purge keeps exactly the maps of other tasks and of queue groups, in their order. */
  lemma {:induction false} KeptIs(nodes: seq<Node>, owner: nat)
    ensures forall n :: n in Kept(nodes, owner) <==> n in nodes && !(owner != 0 && n.owner == owner && n.groupId == 0)
    ensures multiset(Kept(nodes, owner)) <= multiset(nodes)
  {
    if nodes != [] {
      var init := nodes[..|nodes| - 1];
      KeptIs(init, owner);
      assert nodes == init + [nodes[|nodes| - 1]];
    }
  }

  /** Order is kept: what follows in the list still follows. */
  lemma {:induction false} KeptInOrder(a: seq<Node>, b: seq<Node>, owner: nat)
    ensures Kept(a + b, owner) == Kept(a, owner) + Kept(b, owner)
  {
    if b == [] {
      assert a + b == a;
    } else {
      var init := b[..|b| - 1];
      KeptInOrder(a, init, owner);
      assert (a + b)[..|a + b| - 1] == a + init;
    }
  }
}
