/** Completion of one RDMA request: two references, dropped by the send completion and by the
    response side, which is either the response itself or the completion of a local invalidation
    it posts first (rdma.c). */
module RdmaRequest {
  /** How the target treated the request's memory region in its response. */
  datatype Invalidation = NoneDone | Matching | Bogus

  datatype Event =
    | SendDone(ok: bool)
    | Response(remote: Invalidation, posted: bool)
    | InvalidateDone(ok: bool)

  /** What the hardware may still deliver, and the request itself.  `valid` says the region's key
      still gives the target access; `leaked` that it went back to the pool in that condition. */
  datatype Req = Req(sendPending: bool, responsePending: bool, invalidatePending: bool,
                     refs: nat, hasMr: bool, valid: bool, completions: nat, pooled: bool, leaked: bool, recovery: bool)

  function Posted(hasMr: bool): Req {
    Req(true, true, false, 2, hasMr, hasMr, 0, false, false, false)
  }

  predicate Enabled(q: Req, ev: Event) {
    match ev
    case SendDone(_) => q.sendPending
    case Response(remote, _) => q.responsePending && (remote.Matching? ==> q.hasMr)
    case InvalidateDone(_) => q.invalidatePending
  }

  /** Give the region back and complete the block request. */
  function Completed(q: Req): Req {
    q.(completions := q.completions + 1, hasMr := false, pooled := q.hasMr, leaked := q.hasMr && q.valid)
  }

  function EndRequest(q: Req): Req {
    if q.refs == 0 then q
    else if q.refs == 1 then Completed(q.(refs := 0))
    else q.(refs := q.refs - 1)
  }

  function AfterResponse(q: Req, remote: Invalidation, posted: bool): Req {
    var d := q.(responsePending := false);
    match remote
    case Matching => EndRequest(d.(valid := false))
    case Bogus => EndRequest(d.(recovery := true))
    case NoneDone =>
      if !q.hasMr then EndRequest(d)
      else if posted then d.(invalidatePending := true)
      else d.(recovery := true)
  }

  function Step(q: Req, ev: Event): Req {
    match ev
    case SendDone(ok) =>
      var d := q.(sendPending := false);
      if ok then EndRequest(d) else d.(recovery := true)
    case Response(remote, posted) => AfterResponse(q, remote, posted)
    case InvalidateDone(ok) =>
      var d := q.(invalidatePending := false);
      if ok then EndRequest(d.(valid := false)) else d.(recovery := true)
  }

  /** The callbacks, as they run on the request structure. */
  class Request {
    var refs: nat
    var hasMr: bool
    var completions: nat
    var pooled: bool
    var recovery: bool
    // Hardware
    var sendPending: bool
    var responsePending: bool
    var invalidatePending: bool
    ghost var valid: bool
    ghost var leaked: bool

    ghost function View(): Req
      reads this
    {
      Req(sendPending, responsePending, invalidatePending, refs, hasMr, valid, completions, pooled, leaked, recovery)
    }

    constructor (mapped: bool)
      ensures View() == Posted(mapped)
    {
      refs, hasMr, completions, pooled, recovery := 2, mapped, 0, false, false;
      sendPending, responsePending, invalidatePending := true, true, false;
      valid, leaked := mapped, false;
    }

    method End()
      modifies this
      ensures View() == EndRequest(old(View()))
    {
      if refs == 0 {
        return;
      }
      refs := refs - 1;
      if refs != 0 {
        return;
      }
      pooled, leaked := hasMr, hasMr && valid;
      hasMr := false;
      completions := completions + 1;
    }

    method OnSendDone(ok: bool)
      requires sendPending
      modifies this
      ensures View() == Step(old(View()), SendDone(ok))
    {
      sendPending := false;
      if ok {
        End();
      } else {
        recovery := true;
      }
    }

    method OnResponse(remote: Invalidation, posted: bool)
      requires Enabled(View(), Response(remote, posted))
      modifies this
      ensures View() == Step(old(View()), Response(remote, posted))
    {
      responsePending := false;
      if remote != NoneDone {
        if remote == Bogus {
          recovery := true;
        } else {
          valid := false;
        }
      } else if hasMr {
        if posted {
          invalidatePending := true;
        } else {
          recovery := true;
        }
        return;
      }
      End();
    }

    method OnInvalidateDone(ok: bool)
      requires invalidatePending
      modifies this
      ensures View() == Step(old(View()), InvalidateDone(ok))
    {
      invalidatePending := false;
      if ok {
        valid := false;
        End();
      } else {
        recovery := true;
      }
    }
  }

  // ----- Every interleaving

  datatype Run = Run(states: seq<Req>, events: seq<Event>)

  ghost predicate Linked(q: Req, ev: Event, d: Req) {
    Enabled(q, ev) && d == Step(q, ev)
  }

  ghost predicate IsRun(r: Run, mapped: bool) {
    && |r.states| == |r.events| + 1 && r.states[0] == Posted(mapped)
    && forall i :: 0 <= i < |r.events| ==> Linked(r.states[i], r.events[i], r.states[i + 1])
  }

  predicate IsError(ev: Event, mapped: bool) {
    match ev
    case SendDone(ok) => !ok
    case Response(remote, posted) => remote.Bogus? || (remote.NoneDone? && mapped && !posted)
    case InvalidateDone(ok) => !ok
  }

  predicate IsBogus(ev: Event) {
    ev.Response? && ev.remote.Bogus?
  }

  /** What the events so far have earned: one reference from the send, one from the response side. */
  datatype Tally = Tally(sent: bool, answered: bool, ended: bool, bogus: bool)

  function Count(t: Tally, ev: Event, mapped: bool): Tally {
    match ev
    case SendDone(ok) => t.(sent := t.sent || ok)
    case Response(remote, _) =>
      t.(answered := true, ended := t.ended || !remote.NoneDone? || !mapped, bogus := t.bogus || remote.Bogus?)
    case InvalidateDone(ok) => t.(ended := t.ended || ok)
  }

  function Tallied(events: seq<Event>, mapped: bool): Tally {
    if events == [] then Tally(false, false, false, false)
    else Count(Tallied(events[..|events| - 1], mapped), events[|events| - 1], mapped)
  }

  ghost predicate Accounts(q: Req, t: Tally, mapped: bool) {
    && q.refs == (if t.sent then 0 else 1) + (if t.ended then 0 else 1)
    && q.completions == (if q.refs == 0 then 1 else 0)
    && (q.sendPending ==> !t.sent) && (q.responsePending <==> !t.answered)
    && (q.invalidatePending ==> t.answered && !t.ended && mapped)
    && (t.ended ==> t.answered) && (t.bogus ==> t.ended)
    && q.hasMr == (mapped && q.refs != 0) && q.pooled == (mapped && q.refs == 0)
    && q.valid == (mapped && (!t.ended || t.bogus))
    && q.leaked == (q.pooled && t.bogus)
  }

  lemma AccountsStep(q: Req, ev: Event, t: Tally, mapped: bool)
    requires Accounts(q, t, mapped) && Enabled(q, ev)
    ensures Accounts(Step(q, ev), Count(t, ev, mapped), mapped)
  {
    match ev
    case SendDone(ok) =>
    case Response(remote, posted) =>
    case InvalidateDone(ok) =>
  }

  lemma {:induction false} RunAccounts(r: Run, mapped: bool, i: nat)
    requires IsRun(r, mapped) && i < |r.states|
    ensures Accounts(r.states[i], Tallied(r.events[..i], mapped), mapped)
  {
    hide Accounts, Step, Enabled;
    if i == 0 {
      PostedAccounts(mapped);
    } else {
      RunAccounts(r, mapped, i - 1);
      assert r.events[..i][..i - 1] == r.events[..i - 1];
      assert Linked(r.states[i - 1], r.events[i - 1], r.states[i]);
      AccountsStep(r.states[i - 1], r.events[i - 1], Tallied(r.events[..i - 1], mapped), mapped);
    }
  }

  lemma PostedAccounts(mapped: bool)
    ensures Accounts(Posted(mapped), Tallied([], mapped), mapped)
  {
  }

  lemma {:induction false} TallyMeans(events: seq<Event>, mapped: bool)
    ensures var t := Tallied(events, mapped);
            && (t.sent <==> SendDone(true) in events)
            && (t.answered <==> exists ev :: ev in events && ev.Response?)
            && (t.bogus <==> exists ev :: ev in events && IsBogus(ev))
            && (t.ended <==> exists ev :: ev in events && EndsResponseSide(ev, mapped))
  {
    if events != [] {
      var init, ev := events[..|events| - 1], events[|events| - 1];
      TallyMeans(init, mapped);
      assert ev in events;
      assert forall x :: x in init ==> x in events;
      assert forall x :: x in events ==> x in init || x == ev;
    }
  }

  /** The events that drop the response side's reference. */
  predicate EndsResponseSide(ev: Event, mapped: bool) {
    (ev.Response? && (!ev.remote.NoneDone? || !mapped)) || ev == InvalidateDone(true)
  }

  /** The request completes at most once, and is complete exactly when the send has completed and
      the response side has ended: with the response, or, for a mapped request the target did not
      invalidate, with the local invalidation. */
  lemma CompletesOnceAfterAll(r: Run, mapped: bool, i: nat)
    requires IsRun(r, mapped) && i < |r.states|
    ensures r.states[i].completions <= 1
    ensures r.states[i].completions == 1 <==>
            SendDone(true) in r.events[..i] && exists ev :: ev in r.events[..i] && EndsResponseSide(ev, mapped)
  {
    RunAccounts(r, mapped, i);
    TallyMeans(r.events[..i], mapped);
  }

  lemma RecoveryStep(q: Req, ev: Event, t: Tally, mapped: bool)
    requires Accounts(q, t, mapped) && Enabled(q, ev)
    ensures Step(q, ev).recovery <==> q.recovery || IsError(ev, mapped)
  {
  }

  /** Error recovery has been started if and only if some completion so far reported an error. */
  lemma {:induction false} RecoveryIffError(r: Run, mapped: bool, i: nat)
    requires IsRun(r, mapped) && i < |r.states|
    ensures r.states[i].recovery <==> exists ev :: ev in r.events[..i] && IsError(ev, mapped)
  {
    hide Accounts, Step, Enabled, IsError;
    if i > 0 {
      RecoveryIffError(r, mapped, i - 1);
      RunAccounts(r, mapped, i - 1);
      assert Linked(r.states[i - 1], r.events[i - 1], r.states[i]);
      RecoveryStep(r.states[i - 1], r.events[i - 1], Tallied(r.events[..i - 1], mapped), mapped);
      assert r.events[..i] == r.events[..i - 1] + [r.events[i - 1]];
      assert r.events[i - 1] in r.events[..i];
    }
  }

  /** Nothing is left to deliver. */
  predicate Drained(q: Req) {
    !q.sendPending && !q.responsePending && !q.invalidatePending
  }

  ghost predicate Clean(q: Req, t: Tally, mapped: bool) {
    && (!q.sendPending ==> t.sent)
    && (!q.responsePending ==> t.ended || q.invalidatePending)
  }

  lemma {:induction false} RunClean(r: Run, mapped: bool, i: nat)
    requires IsRun(r, mapped) && i < |r.states|
    requires forall ev :: ev in r.events ==> !IsError(ev, mapped)
    ensures Clean(r.states[i], Tallied(r.events[..i], mapped), mapped)
  {
    if i > 0 {
      RunClean(r, mapped, i - 1);
      RunAccounts(r, mapped, i - 1);
      assert r.events[..i][..i - 1] == r.events[..i - 1];
      assert Linked(r.states[i - 1], r.events[i - 1], r.states[i]);
      CleanStep(r.states[i - 1], r.events[i - 1], Tallied(r.events[..i - 1], mapped), mapped);
    }
  }

  lemma CleanStep(q: Req, ev: Event, t: Tally, mapped: bool)
    requires Accounts(q, t, mapped) && Enabled(q, ev) && Clean(q, t, mapped) && !IsError(ev, mapped)
    ensures Clean(Step(q, ev), Count(t, ev, mapped), mapped)
  {
    match ev
    case SendDone(ok) =>
    case Response(remote, posted) =>
    case InvalidateDone(ok) =>
  }

  /** Without errors, every order of the completions ends with the request completed exactly once
      and its region back in the pool, no longer accessible to the target. */
  lemma CleanRunCompletes(r: Run, mapped: bool)
    requires IsRun(r, mapped) && Drained(r.states[|r.events|])
    requires forall ev :: ev in r.events ==> !IsError(ev, mapped)
    ensures var q := r.states[|r.events|];
            q.completions == 1 && q.pooled == mapped && !q.hasMr && !q.leaked && !q.valid
  {
    var n := |r.events|;
    assert r.events[..n] == r.events;
    RunAccounts(r, mapped, n);
    RunClean(r, mapped, n);
    TallyMeans(r.events, mapped);
  }

  /** A region goes back to the pool while the target can still use its key if and only if the
      target announced an invalidation of some other key: the error starts recovery, yet the
      request is ended all the same. */
  lemma LeakedIffBogus(r: Run, mapped: bool, i: nat)
    requires IsRun(r, mapped) && i < |r.states| && r.states[i].pooled
    ensures r.states[i].leaked <==> exists ev :: ev in r.events[..i] && IsBogus(ev)
  {
    RunAccounts(r, mapped, i);
    TallyMeans(r.events[..i], mapped);
  }

  lemma BogusLeaks() returns (r: Run)
    ensures IsRun(r, true) && r.states[|r.events|].pooled && r.states[|r.events|].leaked
  {
    var q0 := Posted(true);
    var q1 := Step(q0, Response(Bogus, true));
    var q2 := Step(q1, SendDone(true));
    r := Run([q0, q1, q2], [Response(Bogus, true), SendDone(true)]);
  }
}
