/** Asymmetric namespace access (multipath.c): merging a group descriptor into the attached
    namespaces in one pass, and choosing a path. */
module Multipath {
  import opened Wrappers
  import opened Controller

  /** An access state as the log carries it, in one byte.  The values between PERSISTENT_LOSS and
      CHANGE are reserved. */
  type AnaState = s: nat | s < 256

  const OPTIMIZED: AnaState := 1
  const NON_OPTIMIZED: AnaState := 2
  const INACCESSIBLE: AnaState := 3
  const PERSISTENT_LOSS: AnaState := 4
  const CHANGE: AnaState := 15

  // ----- The ANA log

  datatype Namespace = Namespace(id: nat, group: nat, state: AnaState, pending: bool)

  /** A group descriptor. */
  datatype Group = Group(id: nat, state: AnaState, nsids: seq<nat>)

  ghost predicate AscendingIds(ids: seq<nat>) {
    forall i, j :: 0 <= i < j < |ids| ==> ids[i] < ids[j]
  }

  ghost predicate AscendingNs(list: seq<Namespace>) {
    forall i, j :: 0 <= i < j < |list| ==> list[i].id < list[j].id
  }

  function Told(ns: Namespace, group: nat, state: AnaState): Namespace {
    Namespace(ns.id, group, state, false)
  }

  /** The simple form: every namespace looks itself up in the descriptor. */
  function Merged(list: seq<Namespace>, group: nat, state: AnaState, nsids: seq<nat>): (out: seq<Namespace>)
    ensures |out| == |list|
    ensures forall i :: 0 <= i < |list| ==>
              out[i] == if list[i].id in nsids then Told(list[i], group, state) else list[i]
  {
    seq(|list|, i requires 0 <= i < |list| => if list[i].id in nsids then Told(list[i], group, state) else list[i])
  }

  lemma MergedOrder(list: seq<Namespace>, group: nat, state: AnaState, nsids: seq<nat>)
    requires AscendingNs(list)
    ensures AscendingNs(Merged(list, group, state, nsids))
  {
  }

  class AnaController {
    var namespaces: seq<Namespace>
    var changeGroups: nat

    /** One pass over both ascending lists updates exactly the namespaces the descriptor names, and
        never reads past its ids. */
    method UpdateAnaState(group: nat, state: AnaState, nsids: seq<nat>)
      requires AscendingNs(namespaces) && AscendingIds(nsids)
      modifies this
      ensures namespaces == Merged(old(namespaces), group, state, nsids)
      ensures changeGroups == old(changeGroups) + if state == 15 then 1 else 0
    {
      if state == CHANGE {
        changeGroups := changeGroups + 1;
      }
      if |nsids| == 0 {
        return;
      }
      var i, n := 0, 0;
      while i < |namespaces|
        invariant 0 <= i <= |namespaces| == |old(namespaces)| && 0 <= n < |nsids|
        invariant forall j :: 0 <= j < i ==> namespaces[j] == Merged(old(namespaces), group, state, nsids)[j]
        invariant forall j :: i <= j < |namespaces| ==> namespaces[j] == old(namespaces)[j]
        invariant forall m, j :: 0 <= m < n && i <= j < |namespaces| ==> nsids[m] < namespaces[j].id
        invariant changeGroups == old(changeGroups) + if state == CHANGE then 1 else 0
        decreases |namespaces| - i + |nsids| - n
      {
        var nsid := nsids[n];
        var ns := namespaces[i];
        if ns.id < nsid {
          Missed(nsids, n, ns.id);
          i := i + 1;
          continue;
        }
        if ns.id == nsid {
          namespaces := namespaces[i := Told(ns, group, state)];
        }
        n := n + 1;
        if n == |nsids| {
          PastLast(old(namespaces), i, nsids);
          break;
        }
        if ns.id == nsid {
          i := i + 1;
        }
      }
    }

    /** The groups in order, up to the first malformed one. */
    method ParseAnaLog(groups: seq<Group>, maxGroup: nat) returns (ok: bool)
      requires AscendingNs(namespaces) && forall g :: g in groups ==> AscendingIds(g.nsids)
      modifies this
      ensures ok <==> forall g :: g in groups ==> 1 <= g.id <= maxGroup && 1 <= g.state <= 15
      ensures ok ==> namespaces == AllMerged(old(namespaces), groups)
      ensures ok ==> changeGroups == old(changeGroups) + Changes(groups)
      ensures !ok ==> exists k: nat :: && FirstMalformed(groups, maxGroup, k)
                                       && namespaces == AllMerged(old(namespaces), groups[..k])
                                       && changeGroups == old(changeGroups) + Changes(groups[..k])
    {
      for i := 0 to |groups|
        invariant AscendingNs(namespaces)
        invariant forall g :: g in groups[..i] ==> WellFormed(g, maxGroup)
        invariant namespaces == AllMerged(old(namespaces), groups[..i])
        invariant changeGroups == old(changeGroups) + Changes(groups[..i])
      {
        var g := groups[i];
        assert g in groups;
        assert groups[..i + 1][..i] == groups[..i];
        if g.id == 0 || g.id > maxGroup || g.state == 0 || g.state > CHANGE {
          assert FirstMalformed(groups, maxGroup, i);
          return false;
        }
        MergedOrder(namespaces, g.id, g.state, g.nsids);
        UpdateAnaState(g.id, g.state, g.nsids);
      }
      assert groups[..|groups|] == groups;
      return true;
    }
  }

  lemma Missed(nsids: seq<nat>, n: nat, id: nat)
    requires AscendingIds(nsids) && n < |nsids| && id < nsids[n]
    requires forall m :: 0 <= m < n ==> nsids[m] < id
    ensures id !in nsids
  {
  }

  lemma PastLast(list: seq<Namespace>, i: nat, nsids: seq<nat>)
    requires AscendingNs(list) && AscendingIds(nsids) && nsids != [] && i < |list|
    requires nsids[|nsids| - 1] <= list[i].id
    ensures forall j :: i < j < |list| ==> list[j].id !in nsids
    ensures list[i].id in nsids <==> list[i].id == nsids[|nsids| - 1]
  {
  }

  predicate WellFormed(g: Group, maxGroup: nat) {
    0 < g.id <= maxGroup && 0 < g.state <= CHANGE
  }

  ghost predicate FirstMalformed(groups: seq<Group>, maxGroup: nat, k: nat) {
    k < |groups| && !WellFormed(groups[k], maxGroup) && forall g :: g in groups[..k] ==> WellFormed(g, maxGroup)
  }

  function AllMerged(list: seq<Namespace>, groups: seq<Group>): seq<Namespace> {
    if groups == [] then list
    else
      var g := groups[|groups| - 1];
      Merged(AllMerged(list, groups[..|groups| - 1]), g.id, g.state, g.nsids)
  }

  function Changes(groups: seq<Group>): nat {
    if groups == [] then 0
    else Changes(groups[..|groups| - 1]) + if groups[|groups| - 1].state == CHANGE then 1 else 0
  }

  /** The last group that lists this id. */
  function LastListing(groups: seq<Group>, id: nat): Option<Group> {
    if groups == [] then None
    else if id in groups[|groups| - 1].nsids then Some(groups[|groups| - 1])
    else LastListing(groups[..|groups| - 1], id)
  }

  /** After the whole log, a namespace carries the group and state of the last group that lists it,
      and is untouched if none does. */
  lemma {:induction false} LogDecidesState(list: seq<Namespace>, groups: seq<Group>, i: nat)
    requires i < |list|
    ensures |AllMerged(list, groups)| == |list|
    ensures AllMerged(list, groups)[i] ==
            match LastListing(groups, list[i].id)
            case None => list[i]
            case Some(g) => Namespace(list[i].id, g.id, g.state, false)
    ensures AllMerged(list, groups)[i].id == list[i].id
  {
    if groups != [] {
      var init, g := groups[..|groups| - 1], groups[|groups| - 1];
      LogDecidesState(list, init, i);
    }
  }

  // ----- Path selection

  datatype Path = Path(state: CtrlState, anaPending: bool, ready: bool, ana: AnaState, distance: nat)

  const INT_MAX: nat := 0x7fff_ffff
  const LOCAL_DISTANCE: nat := 10

  predicate Disabled(p: Path) {
    (!p.state.Live? && !p.state.Deleting?) || p.anaPending || !p.ready
  }

  predicate Carries(p: Path, ana: AnaState) {
    !Disabled(p) && p.ana == ana
  }

  function DistanceOf(p: Path, numa: bool): nat {
    if numa then p.distance else LOCAL_DISTANCE
  }

  /** The first of the nearest enabled paths in this access state. */
  ghost predicate Nearest(paths: seq<Path>, ana: AnaState, numa: bool, k: nat) {
    && k < |paths| && Carries(paths[k], ana)
    && forall j :: 0 <= j < |paths| && Carries(paths[j], ana) ==>
         DistanceOf(paths[k], numa) <= DistanceOf(paths[j], numa) &&
         (j < k ==> DistanceOf(paths[k], numa) < DistanceOf(paths[j], numa))
  }

  ghost predicate Absent(paths: seq<Path>, ana: AnaState) {
    forall j :: 0 <= j < |paths| ==> !Carries(paths[j], ana)
  }

  /** The best candidate of one access state among the paths seen so far. */
  ghost predicate Best(paths: seq<Path>, ana: AnaState, numa: bool, best: Option<nat>, distance: nat) {
    match best
    case None => Absent(paths, ana) && distance == INT_MAX
    case Some(k) => Nearest(paths, ana, numa, k) && distance == DistanceOf(paths[k], numa)
  }

  lemma BestNext(paths: seq<Path>, i: nat, ana: AnaState, numa: bool, best: Option<nat>, distance: nat)
    requires i < |paths| && Best(paths[..i], ana, numa, best, distance) && DistanceOf(paths[i], numa) < INT_MAX
    ensures var take := Carries(paths[i], ana) && DistanceOf(paths[i], numa) < distance;
            Best(paths[..i + 1], ana, numa, if take then Some(i) else best,
                 if take then DistanceOf(paths[i], numa) else distance)
  {
    var next := paths[..i + 1];
    assert next[i] == paths[i] && forall j :: 0 <= j < i ==> next[j] == paths[..i][j];
  }

  /** The path can carry a request: its controller is live or being deleted, its access state is
      settled, it is ready, and it is optimized (1) or non-optimized (2). */
  ghost predicate Fit(p: Path) {
    (p.state.Live? || p.state.Deleting?) && !p.anaPending && p.ready && (p.ana == 1 || p.ana == 2)
  }

  /** What the caller gets: nothing exactly when no path is fit; else a fit path, optimized if any
      fit path is, and among those the nearest under the NUMA policy, the first in the list without
      it or at equal distance. */
  ghost predicate Chosen(paths: seq<Path>, numa: bool, found: Option<nat>) {
    match found
    case None => forall j :: 0 <= j < |paths| ==> !Fit(paths[j])
    case Some(k) =>
      && k < |paths| && Fit(paths[k])
      && forall j :: 0 <= j < |paths| && Fit(paths[j]) ==> Better(paths[k], paths[j], numa, k <= j)
  }

  ghost predicate Better(p: Path, q: Path, numa: bool, earlier: bool) {
    p.ana < q.ana || (p.ana == q.ana && if numa && p.distance != q.distance then p.distance < q.distance else earlier)
  }

  /** The nearest enabled optimized path, else the nearest enabled non-optimized one, else none. */
  method FindPath(paths: seq<Path>, numa: bool) returns (found: Option<nat>)
    requires forall p :: p in paths ==> DistanceOf(p, numa) < INT_MAX
    ensures match found
            case Some(k) => Nearest(paths, OPTIMIZED, numa, k) ||
                            (Absent(paths, OPTIMIZED) && Nearest(paths, NON_OPTIMIZED, numa, k))
            case None => Absent(paths, OPTIMIZED) && Absent(paths, NON_OPTIMIZED)
    ensures Chosen(paths, numa, found)
  {
    hide Best;
    var fallback: Option<nat>;
    found, fallback := None, None;
    var foundDistance, fallbackDistance := INT_MAX, INT_MAX;
    BestNone(paths, numa);
    for i := 0 to |paths|
      invariant Best(paths[..i], OPTIMIZED, numa, found, foundDistance)
      invariant Best(paths[..i], NON_OPTIMIZED, numa, fallback, fallbackDistance)
    {
      assert paths[i] in paths;
      BestNext(paths, i, OPTIMIZED, numa, found, foundDistance);
      BestNext(paths, i, NON_OPTIMIZED, numa, fallback, fallbackDistance);
      if Disabled(paths[i]) {
        continue;
      }
      var distance := DistanceOf(paths[i], numa);
      if paths[i].ana == OPTIMIZED && distance < foundDistance {
        foundDistance, found := distance, Some(i);
      } else if paths[i].ana == NON_OPTIMIZED && distance < fallbackDistance {
        fallbackDistance, fallback := distance, Some(i);
      }
    }
    assert paths[..|paths|] == paths;
    BestMeans(paths, OPTIMIZED, numa, found, foundDistance);
    BestMeans(paths, NON_OPTIMIZED, numa, fallback, fallbackDistance);
    if found.None? {
      found := fallback;
    }
    ChoiceMeans(paths, numa, found);
  }

  lemma FitMeans(p: Path)
    ensures Fit(p) <==> Carries(p, OPTIMIZED) || Carries(p, NON_OPTIMIZED)
    ensures Fit(p) && p.ana == 1 <==> Carries(p, OPTIMIZED)
  {
  }

  lemma ChoiceMeans(paths: seq<Path>, numa: bool, found: Option<nat>)
    requires match found
             case Some(k) => Nearest(paths, OPTIMIZED, numa, k) ||
                             (Absent(paths, OPTIMIZED) && Nearest(paths, NON_OPTIMIZED, numa, k))
             case None => Absent(paths, OPTIMIZED) && Absent(paths, NON_OPTIMIZED)
    ensures Chosen(paths, numa, found)
  {
    forall j | 0 <= j < |paths|
      ensures Fit(paths[j]) <==> Carries(paths[j], OPTIMIZED) || Carries(paths[j], NON_OPTIMIZED)
    {
      FitMeans(paths[j]);
    }
  }

  lemma BestNone(paths: seq<Path>, numa: bool)
    ensures Best(paths[..0], OPTIMIZED, numa, None, INT_MAX) && Best(paths[..0], NON_OPTIMIZED, numa, None, INT_MAX)
  {
  }

  lemma BestMeans(paths: seq<Path>, ana: AnaState, numa: bool, best: Option<nat>, distance: nat)
    requires Best(paths, ana, numa, best, distance)
    ensures match best case None => Absent(paths, ana) case Some(k) => Nearest(paths, ana, numa, k)
  {
  }

  /** The k-th path after this one in circular order. */
  function Ring(cur: nat, k: nat, n: nat): (i: nat)
    requires cur < n && k < n
    ensures i < n && (k > 0 ==> i != cur)
  {
    if cur + k < n then cur + k else cur + k - n
  }

  /** Every path is met once on the way round. */
  lemma RingCovers(cur: nat, n: nat, i: nat)
    requires cur < n && i < n
    ensures exists k :: 0 <= k < n && Ring(cur, k, n) == i
  {
    var k := if i >= cur then i - cur else i + n - cur;
    assert Ring(cur, k, n) == i;
  }

  ghost predicate NoneBefore(paths: seq<Path>, cur: nat, k: nat, ana: AnaState)
    requires cur < |paths| && k <= |paths|
  {
    forall j :: 1 <= j < k ==> !Carries(paths[Ring(cur, j, |paths|)], ana)
  }

  /** The last non-optimized path met in the first k steps. */
  ghost predicate LastFallback(paths: seq<Path>, cur: nat, k: nat, found: Option<nat>)
    requires cur < |paths| && k <= |paths|
  {
    match found
    case None => NoneBefore(paths, cur, k, NON_OPTIMIZED)
    case Some(i) =>
      exists j :: 1 <= j < k && Ring(cur, j, |paths|) == i && Carries(paths[i], NON_OPTIMIZED) &&
                  forall m :: j < m < k ==> !Carries(paths[Ring(cur, m, |paths|)], NON_OPTIMIZED)
  }

  /** What round robin owes its caller when there are several paths. */
  ghost predicate Fair(paths: seq<Path>, cur: nat, r: Option<nat>)
    requires cur < |paths|
  {
    var n := |paths|;
    if !NoneBefore(paths, cur, n, OPTIMIZED) then
      exists k :: 1 <= k < n && r == Some(Ring(cur, k, n)) && Carries(paths[Ring(cur, k, n)], OPTIMIZED) &&
                  NoneBefore(paths, cur, k, OPTIMIZED)
    else if Carries(paths[cur], OPTIMIZED) then r == Some(cur)
    else if !NoneBefore(paths, cur, n, NON_OPTIMIZED) then r.Some? && LastFallback(paths, cur, n, r)
    else r == if Carries(paths[cur], NON_OPTIMIZED) then Some(cur) else None
  }

  /** With one path, that path unless it is disabled.  With more: the first other optimized path in
      circular order, else the current one if optimized, else the last other non-optimized one,
      else the current one if usable.  The walk takes at most n - 1 steps. */
  method RoundRobinPath(paths: seq<Path>, cur: nat) returns (r: Option<nat>, steps: nat)
    requires cur < |paths|
    ensures |paths| == 1 ==>
              r == if (paths[cur].state.Live? || paths[cur].state.Deleting?) && !paths[cur].anaPending && paths[cur].ready
                   then Some(cur) else None
    ensures |paths| > 1 ==> Fair(paths, cur, r)
    ensures steps < |paths|
  {
    steps := 0;
    if |paths| == 1 {
      r := if Disabled(paths[cur]) then None else Some(cur);
      return;
    }
    var found: Option<nat> := None;
    var n := |paths|;
    var i := if cur + 1 < n then cur + 1 else 0;
    ghost var k := 1;
    while i != cur
      invariant 1 <= k <= n && steps == k - 1 && i == if k == n then cur else Ring(cur, k, n)
      invariant NoneBefore(paths, cur, k, OPTIMIZED)
      invariant LastFallback(paths, cur, k, found)
      decreases n - k
    {
      steps := steps + 1;
      if !Disabled(paths[i]) {
        if paths[i].ana == OPTIMIZED {
          return Some(i), steps;
        }
        if paths[i].ana == NON_OPTIMIZED {
          found := Some(i);
        }
      }
      FallbackNext(paths, cur, k, i, found);
      i := if i + 1 < n then i + 1 else 0;
      k := k + 1;
    }
    if !Disabled(paths[cur]) &&
       (paths[cur].ana == OPTIMIZED || (found.None? && paths[cur].ana == NON_OPTIMIZED)) {
      return Some(cur), steps;
    }
    return found, steps;
  }

  lemma FallbackNext(paths: seq<Path>, cur: nat, k: nat, i: nat, found: Option<nat>)
    requires cur < |paths| && 1 <= k < |paths| && i == Ring(cur, k, |paths|)
    requires if Carries(paths[i], NON_OPTIMIZED) then found == Some(i) else LastFallback(paths, cur, k, found)
    ensures LastFallback(paths, cur, k + 1, found)
  {
    if !Carries(paths[i], NON_OPTIMIZED) && found.Some? {
      var j :| 1 <= j < k && Ring(cur, j, |paths|) == found.value && Carries(paths[found.value], NON_OPTIMIZED) &&
               forall m :: j < m < k ==> !Carries(paths[Ring(cur, m, |paths|)], NON_OPTIMIZED);
      assert forall m :: j < m < k + 1 ==> !Carries(paths[Ring(cur, m, |paths|)], NON_OPTIMIZED);
    }
  }

  /** A fair answer is none exactly when no path at all is fit. */
  lemma FairNoneIff(paths: seq<Path>, cur: nat, r: Option<nat>)
    requires |paths| > 1 && cur < |paths| && Fair(paths, cur, r)
    ensures r.None? <==> forall p :: p in paths ==> !Fit(p)
  {
    var n := |paths|;
    if r.None? {
      forall p | p in paths ensures !Fit(p) {
        var i :| 0 <= i < n && paths[i] == p;
        RingCovers(cur, n, i);
        var k :| 0 <= k < n && Ring(cur, k, n) == i;
        FitMeans(p);
      }
    } else {
      FairUsable(paths, cur, r);
      assert paths[r.value] in paths;
    }
  }

  /** How many steps round the list lead from one path to another. */
  function Steps(cur: nat, i: nat, n: nat): nat
    requires cur < n && i < n
  {
    if i >= cur then i - cur else i + n - cur
  }

  lemma StepsRound(cur: nat, i: nat, n: nat)
    requires cur < n && i < n
    ensures Steps(cur, i, n) < n && Ring(cur, Steps(cur, i, n), n) == i
    ensures forall k :: 0 <= k < n && Ring(cur, k, n) == i ==> k == Steps(cur, i, n)
  {
  }

  /** A fair answer names a fit path, an optimized one if there is any, and the current one only if
      no other is optimized. */
  lemma FairUsable(paths: seq<Path>, cur: nat, r: Option<nat>)
    requires |paths| > 1 && cur < |paths| && Fair(paths, cur, r) && r.Some?
    ensures r.value < |paths|
    ensures Fit(paths[r.value]) && forall p :: p in paths && Fit(p) ==> paths[r.value].ana <= p.ana
    ensures r.value == cur ==> forall j :: 0 <= j < |paths| && j != cur && Fit(paths[j]) ==> paths[j].ana == 2
  {
    var n := |paths|;
    forall i | 0 <= i < n && Fit(paths[i]) && paths[i].ana == 1
      ensures paths[r.value].ana == 1 && (i == cur || r.value != cur)
    {
      StepsRound(cur, i, n);
      assert Carries(paths[i], OPTIMIZED);
    }
    FitMeans(paths[r.value]);
  }

  /** Whose turn it is: of the other optimized paths the next in circular order; failing those and
      the current one, of the other non-optimized paths the one furthest round; the current path
      only when nothing else may carry the request, or when it alone is optimized. */
  lemma FairTurn(paths: seq<Path>, cur: nat, r: Option<nat>, j: nat)
    requires |paths| > 1 && cur < |paths| && Fair(paths, cur, r) && r.Some? && r.value < |paths|
    requires j < |paths| && j != cur && Fit(paths[j])
    ensures var n, p := |paths|, paths[r.value];
            if r.value == cur then p.ana == 1 && paths[j].ana == 2
            else if p.ana == 1 then paths[j].ana == 1 ==> Steps(cur, r.value, n) <= Steps(cur, j, n)
            else Steps(cur, j, n) <= Steps(cur, r.value, n)
  {
    var n := |paths|;
    StepsRound(cur, j, n);
    StepsRound(cur, r.value, n);
    FitMeans(paths[j]);
    FairUsable(paths, cur, r);
    assert Carries(paths[j], OPTIMIZED) || Carries(paths[j], NON_OPTIMIZED);
  }
}
