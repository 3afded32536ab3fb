/** The controller life cycle: the state word changed under a lock (core.c) and the work items of
    the RDMA transport that move it (rdma.c).  Setting a controller up is split into its start and
    its end, so a deletion may arrive in between. */
module Controller {
  datatype CtrlState = New | Live | Resetting | Connecting | Deleting | DeletingNoIo | Dead

  /** How an attempt to set the queues up ends.  Unsupported: the in-capsule data offset or keyed
      SGL check fails, which leaves the return value at 0. */
  datatype Outcome = Connected | Failed | Unsupported

  datatype Reconnect = NotRunning | Attempting | Settling

  datatype Ctrl = Ctrl(state: CtrlState, nrReconnects: nat, errQueued: bool, resetQueued: bool, resetSetup: bool,
                       fwQueued: bool, reconnectQueued: bool, reconnect: Reconnect, deleteQueued: bool)

  datatype Event =
    | ErrorDetected
    | ResetRequested
    | FirmwareNotice
    | DeleteRequested
    | ErrorWork
    | ResetStart
    | ResetEnd(outcome: Outcome)
    | FirmwareWork(timedOut: bool)
    | ReconnectStart
    | ReconnectEnd(outcome: Outcome)
    | ReconnectSettle
    | DeleteWork
    | MarkDead

  predicate Terminal(state: CtrlState) {
    state.Deleting? || state.DeletingNoIo? || state.Dead?
  }

  /** The transitions the lock-protected switch lets through. */
  predicate Allowed(from: CtrlState, to: CtrlState) {
    match from
    case New => to.Live? || to.Resetting? || to.Connecting?
    case Live => to.Resetting? || to.Deleting?
    case Resetting => to.Live? || to.Connecting? || to.Deleting?
    case Connecting => to.Live? || to.Deleting?
    case Deleting => to.DeletingNoIo? || to.Dead?
    case Dead => to.DeletingNoIo?
    case DeletingNoIo => false
  }

  function Moved(c: Ctrl, to: CtrlState): Ctrl {
    c.(state := if Allowed(c.state, to) then to else c.state)
  }

  /** maxReconnects == -1: never give up. */
  predicate ShouldReconnect(nr: nat, maxReconnects: int) {
    maxReconnects == -1 || nr < maxReconnects
  }

  function ReconnectOrRemove(c: Ctrl, maxReconnects: int): Ctrl {
    if !c.state.Connecting? then c
    else if ShouldReconnect(c.nrReconnects, maxReconnects) then c.(reconnectQueued := true)
    else c.(state := Deleting, deleteQueued := true)
  }

  predicate Enabled(c: Ctrl, ev: Event) {
    match ev
    case ErrorWork => c.errQueued
    case ResetStart => c.resetQueued && c.reconnect.NotRunning?
    case ResetEnd(_) => c.resetSetup
    case FirmwareWork(_) => c.fwQueued
    case ReconnectStart => c.reconnectQueued && c.reconnect.NotRunning?
    case ReconnectEnd(_) => c.reconnect.Attempting?
    case ReconnectSettle => c.reconnect.Settling?
    case DeleteWork => c.deleteQueued && !c.resetQueued && !c.resetSetup && c.reconnect.NotRunning?
    case _ => true
  }

  /** The end of a set-up: true when it reports success. */
  predicate SetupSucceeds(c: Ctrl, outcome: Outcome) {
    outcome.Unsupported? || (outcome.Connected? && Allowed(c.state, Live))
  }

  function AfterSetup(c: Ctrl, outcome: Outcome): Ctrl {
    if outcome.Connected? then Moved(c, Live) else c
  }

  function AfterErrorWork(c: Ctrl, max: int): Ctrl {
    var d := Moved(c.(errQueued := false), Connecting);
    if Allowed(c.state, Connecting) then ReconnectOrRemove(d, max) else d
  }

  function AfterResetStart(c: Ctrl): Ctrl {
    var d := c.(resetQueued := false, fwQueued := false, errQueued := false, reconnectQueued := false);
    Moved(d, Connecting).(resetSetup := Allowed(c.state, Connecting))
  }

  function AfterResetEnd(c: Ctrl, outcome: Outcome, max: int): Ctrl {
    var d := AfterSetup(c.(resetSetup := false), outcome);
    if SetupSucceeds(c, outcome) then d
    else ReconnectOrRemove(d.(nrReconnects := d.nrReconnects + 1), max)
  }

  function AfterReconnectEnd(c: Ctrl, outcome: Outcome, max: int): Ctrl {
    var d := AfterSetup(c, outcome);
    if SetupSucceeds(c, outcome) then d.(reconnect := Settling)
    else ReconnectOrRemove(d.(reconnect := NotRunning), max)
  }

  function AfterFirmware(c: Ctrl, timedOut: bool): Ctrl {
    var d := c.(fwQueued := false);
    if timedOut then d.(resetQueued := d.resetQueued || d.state.Resetting?) else Moved(d, Live)
  }

  function AfterDelete(c: Ctrl): Ctrl {
    Moved(c.(deleteQueued := false, fwQueued := false, errQueued := false, reconnectQueued := false), DeletingNoIo)
  }

  function Step(c: Ctrl, ev: Event, max: int): Ctrl {
    match ev
    case ErrorDetected => Moved(c, Resetting).(errQueued := c.errQueued || Allowed(c.state, Resetting))
    case ResetRequested => Moved(c, Resetting).(resetQueued := c.resetQueued || Allowed(c.state, Resetting))
    case FirmwareNotice => Moved(c, Resetting).(fwQueued := c.fwQueued || Allowed(c.state, Resetting))
    case DeleteRequested => Moved(c, Deleting).(deleteQueued := c.deleteQueued || Allowed(c.state, Deleting))
    case ErrorWork => AfterErrorWork(c, max)
    case ResetStart => AfterResetStart(c)
    case ResetEnd(outcome) => AfterResetEnd(c, outcome, max)
    case FirmwareWork(timedOut) => AfterFirmware(c, timedOut)
    case ReconnectStart => c.(reconnectQueued := false, reconnect := Attempting, nrReconnects := c.nrReconnects + 1)
    case ReconnectEnd(outcome) => AfterReconnectEnd(c, outcome, max)
    case ReconnectSettle => c.(reconnect := NotRunning, nrReconnects := 0)
    case DeleteWork => AfterDelete(c)
    case MarkDead => Moved(c, Dead)
  }

  class RdmaController {
    const maxReconnects: int
    var state: CtrlState
    var nrReconnects: nat
    var errQueued: bool
    var resetQueued: bool
    var resetSetup: bool
    var fwQueued: bool
    var reconnectQueued: bool
    var reconnect: Reconnect
    var deleteQueued: bool

    ghost function View(): Ctrl
      reads this
    {
      Ctrl(state, nrReconnects, errQueued, resetQueued, resetSetup, fwQueued, reconnectQueued, reconnect, deleteQueued)
    }

    /** A controller just brought up. */
    constructor (maxReconnects: int)
      ensures View() == Initial() && this.maxReconnects == maxReconnects
    {
      this.maxReconnects := maxReconnects;
      state, nrReconnects := Live, 0;
      errQueued, resetQueued, resetSetup, fwQueued := false, false, false, false;
      reconnectQueued, reconnect, deleteQueued := false, NotRunning, false;
    }

    method ChangeState(to: CtrlState) returns (changed: bool)
      modifies this`state
      ensures changed <==> Allowed(old(state), to)
      ensures changed <==> (old(state), to) in {(New, Live), (New, Resetting), (New, Connecting),
                                                (Live, Resetting), (Live, Deleting),
                                                (Resetting, Live), (Resetting, Connecting), (Resetting, Deleting),
                                                (Connecting, Live), (Connecting, Deleting),
                                                (Deleting, DeletingNoIo), (Deleting, Dead), (Dead, DeletingNoIo)}
      ensures state == if changed then to else old(state)
    {
      changed := match to
                 case Live => state.New? || state.Resetting? || state.Connecting?
                 case Resetting => state.New? || state.Live?
                 case Connecting => state.New? || state.Resetting?
                 case Deleting => state.Live? || state.Resetting? || state.Connecting?
                 case DeletingNoIo => state.Deleting? || state.Dead?
                 case Dead => state.Deleting?
                 case New => false;
      if changed {
        state := to;
      }
    }

    method ErrorRecovery()
      modifies this
      ensures View() == Step(old(View()), ErrorDetected, maxReconnects)
    {
      var changed := ChangeState(Resetting);
      if changed {
        errQueued := true;
      }
    }

    method ResetCtrl()
      modifies this
      ensures View() == Step(old(View()), ResetRequested, maxReconnects)
    {
      var changed := ChangeState(Resetting);
      if changed {
        resetQueued := true;
      }
    }

    method FirmwareActivationNotice()
      modifies this
      ensures View() == Step(old(View()), FirmwareNotice, maxReconnects)
    {
      var changed := ChangeState(Resetting);
      if changed {
        fwQueued := true;
      }
    }

    method DeleteCtrl()
      modifies this
      ensures View() == Step(old(View()), DeleteRequested, maxReconnects)
    {
      var changed := ChangeState(Deleting);
      if changed {
        deleteQueued := true;
      }
    }

    method RunReconnectOrRemove()
      modifies this
      ensures View() == ReconnectOrRemove(old(View()), maxReconnects)
    {
      if state != Connecting {
        return;
      }
      if maxReconnects == -1 || nrReconnects < maxReconnects {
        reconnectQueued := true;
      } else {
        DeleteCtrl();
      }
    }

    method RunErrorWork()
      requires errQueued
      modifies this
      ensures View() == Step(old(View()), ErrorWork, maxReconnects)
    {
      errQueued := false;
      var changed := ChangeState(Connecting);
      if changed {
        RunReconnectOrRemove();
      }
    }

    /** The last step of a set-up.  0 means success. */
    method FinishSetup(outcome: Outcome) returns (ok: bool)
      modifies this`state
      ensures ok <==> SetupSucceeds(old(View()), outcome)
      ensures View() == AfterSetup(old(View()), outcome)
    {
      if outcome == Failed {
        return false;
      }
      if outcome == Unsupported {
        return true;
      }
      ok := ChangeState(Live);
    }

    method BeginReset()
      requires Enabled(View(), ResetStart)
      modifies this
      ensures View() == Step(old(View()), ResetStart, maxReconnects)
    {
      resetQueued := false;
      fwQueued, errQueued, reconnectQueued := false, false, false;
      resetSetup := ChangeState(Connecting);
    }

    method EndReset(outcome: Outcome)
      requires resetSetup
      modifies this
      ensures View() == Step(old(View()), ResetEnd(outcome), maxReconnects)
    {
      resetSetup := false;
      var ok := FinishSetup(outcome);
      if !ok {
        nrReconnects := nrReconnects + 1;
        RunReconnectOrRemove();
      }
    }

    method RunFirmwareWork(timedOut: bool)
      requires fwQueued
      modifies this
      ensures View() == Step(old(View()), FirmwareWork(timedOut), maxReconnects)
    {
      fwQueued := false;
      if timedOut {
        if state == Resetting {
          resetQueued := true;
        }
        return;
      }
      var changed := ChangeState(Live);
    }

    method BeginReconnect()
      requires Enabled(View(), ReconnectStart)
      modifies this
      ensures View() == Step(old(View()), ReconnectStart, maxReconnects)
    {
      reconnectQueued, reconnect := false, Attempting;
      nrReconnects := nrReconnects + 1;
    }

    method EndReconnect(outcome: Outcome)
      requires reconnect == Attempting
      modifies this
      ensures View() == Step(old(View()), ReconnectEnd(outcome), maxReconnects)
    {
      var ok := FinishSetup(outcome);
      if ok {
        reconnect := Settling;
      } else {
        reconnect := NotRunning;
        RunReconnectOrRemove();
      }
    }

    method SettleReconnect()
      requires reconnect == Settling
      modifies this
      ensures View() == Step(old(View()), ReconnectSettle, maxReconnects)
    {
      nrReconnects := 0;
      reconnect := NotRunning;
    }

    method RunDeleteWork()
      requires Enabled(View(), DeleteWork)
      modifies this
      ensures View() == Step(old(View()), DeleteWork, maxReconnects)
    {
      deleteQueued, fwQueued, errQueued, reconnectQueued := false, false, false, false;
      var changed := ChangeState(DeletingNoIo);
    }
  }

  // ----- Runs

  function Initial(): Ctrl {
    Ctrl(Live, 0, false, false, false, false, false, NotRunning, false)
  }

  datatype Run = Run(states: seq<Ctrl>, events: seq<Event>)

  ghost predicate Linked(c: Ctrl, ev: Event, d: Ctrl, maxReconnects: int) {
    Enabled(c, ev) && d == Step(c, ev, maxReconnects)
  }

  ghost predicate IsRun(r: Run, maxReconnects: int) {
    && |r.states| == |r.events| + 1 && r.states[0] == Initial()
    && forall i :: 0 <= i < |r.events| ==> Linked(r.states[i], r.events[i], r.states[i + 1], maxReconnects)
  }

  /** A set-up that finds the controller unsupported while it should be connecting. */
  predicate Strands(c: Ctrl, ev: Event) {
    c.state.Connecting? && (ev.ResetEnd? || ev.ReconnectEnd?) && ev.outcome.Unsupported?
  }

  predicate Attempts(c: Ctrl, ev: Event) {
    c.state.Connecting? && (ev.ResetEnd? || ev.ReconnectEnd?)
  }

  /** Failed attempts since the controller was last live. */
  ghost function Failures(r: Run, i: nat): nat
    requires i < |r.states| && |r.states| == |r.events| + 1
  {
    if i == 0 || r.states[i].state.Live? then 0
    else Failures(r, i - 1) + if Attempts(r.states[i - 1], r.events[i - 1]) then 1 else 0
  }

  /** Nothing queued or running will ever move the controller on. */
  predicate Stranded(c: Ctrl) {
    c.state.Connecting? && !c.reconnectQueued && !c.reconnect.Attempting? && !c.resetSetup
  }

  /** Who may act in which state. */
  predicate Owned(c: Ctrl) {
    (c.deleteQueued ==> Terminal(c.state)) &&
    match c.state
    case Live => !c.errQueued && !c.resetQueued && !c.fwQueued && !c.resetSetup && !c.reconnectQueued &&
                 !c.reconnect.Attempting?
    case Resetting => && (c.errQueued || c.resetQueued || c.fwQueued)
                      && !(c.errQueued && c.resetQueued) && !(c.errQueued && c.fwQueued) && !(c.resetQueued && c.fwQueued)
                      && !c.resetSetup && !c.reconnectQueued && !c.reconnect.Attempting?
    case Connecting => && !c.errQueued && !c.resetQueued && !c.fwQueued
                       && (c.resetSetup ==> !c.reconnectQueued && c.reconnect.NotRunning?)
                       && (c.reconnect.Attempting? ==> !c.reconnectQueued)
    case New => false
    case _ => true
  }

  /** The reconnect counter against the real number of failures, and the budget that is left. */
  predicate Budgeted(c: Ctrl, failures: nat, max: int) {
    Budget(c.state, c.resetSetup, c.reconnect, c.nrReconnects, failures, max)
  }

  predicate Budget(state: CtrlState, setup: bool, reconnect: Reconnect, nr: nat, failures: nat, max: int) {
    && (!Terminal(state) ==>
          if reconnect.Settling? then failures == 0
          else nr == failures + if reconnect.Attempting? then 1 else 0)
    && (state.Live? || state.Resetting? || setup ==> failures == 0 || Terminal(state))
    && (state.Connecting? && !setup && max != -1 ==> failures < max)
    && (max >= 0 ==> failures <= if max > 1 then max else 1)
  }

  predicate IsRequest(ev: Event) {
    ev.ErrorDetected? || ev.ResetRequested? || ev.FirmwareNotice? || ev.DeleteRequested? || ev.MarkDead?
  }

  predicate IsReset(ev: Event) {
    ev.ResetStart? || ev.ResetEnd?
  }

  predicate IsReconnect(ev: Event) {
    ev.ReconnectStart? || ev.ReconnectEnd? || ev.ReconnectSettle?
  }

  lemma OwnedRequest(c: Ctrl, ev: Event, max: int)
    requires Owned(c) && IsRequest(ev)
    ensures Owned(Step(c, ev, max))
  {
    hide AfterErrorWork, AfterResetStart, AfterResetEnd, AfterReconnectEnd, AfterFirmware, AfterDelete;
  }

  lemma OwnedReset(c: Ctrl, ev: Event, max: int)
    requires Owned(c) && Enabled(c, ev) && IsReset(ev)
    ensures Owned(Step(c, ev, max))
  {
    hide AfterErrorWork, AfterReconnectEnd, AfterFirmware, AfterDelete;
  }

  lemma OwnedReconnect(c: Ctrl, ev: Event, max: int)
    requires Owned(c) && Enabled(c, ev) && IsReconnect(ev)
    ensures Owned(Step(c, ev, max))
  {
    hide AfterErrorWork, AfterResetStart, AfterResetEnd, AfterFirmware, AfterDelete;
  }

  lemma OwnedWork(c: Ctrl, ev: Event, max: int)
    requires Owned(c) && Enabled(c, ev) && (ev.ErrorWork? || ev.FirmwareWork? || ev.DeleteWork?)
    ensures Owned(Step(c, ev, max))
  {
    hide AfterResetStart, AfterResetEnd, AfterReconnectEnd;
  }

  lemma OwnedStep(c: Ctrl, ev: Event, max: int)
    requires Owned(c) && Enabled(c, ev)
    ensures Owned(Step(c, ev, max))
  {
    hide Step, Owned, Enabled;
    if IsRequest(ev) { OwnedRequest(c, ev, max); }
    else if IsReset(ev) { OwnedReset(c, ev, max); }
    else if IsReconnect(ev) { OwnedReconnect(c, ev, max); }
    else { OwnedWork(c, ev, max); }
  }

  lemma NotStrandedStep(c: Ctrl, ev: Event, max: int)
    requires Owned(c) && Enabled(c, ev) && !Stranded(c)
    ensures Stranded(Step(c, ev, max)) <==> Strands(c, ev)
  {
  }

  ghost predicate BudgetAfter(c: Ctrl, ev: Event, max: int, failures: nat) {
    var d := Step(c, ev, max);
    Budgeted(d, if d.state.Live? then 0 else failures + if Attempts(c, ev) then 1 else 0, max)
  }

  lemma BudgetRequest(c: Ctrl, ev: Event, max: int, failures: nat)
    requires Owned(c) && IsRequest(ev) && Budgeted(c, failures, max)
    ensures BudgetAfter(c, ev, max, failures)
  {
    hide Budget, Step, Attempts;
    RequestMoves(c, ev, max);
    BudgetMoves(c.state, Step(c, ev, max).state, c.resetSetup, c.reconnect, c.nrReconnects, failures, max);
  }

  lemma RequestMoves(c: Ctrl, ev: Event, max: int)
    requires IsRequest(ev)
    ensures var d := Step(c, ev, max);
            && d.resetSetup == c.resetSetup && d.reconnect == c.reconnect && d.nrReconnects == c.nrReconnects
            && (d.state == c.state || ((c.state.Live? || c.state.New?) && d.state.Resetting?) || Terminal(d.state))
    ensures !Attempts(c, ev)
  {
    match ev
    case ErrorDetected => StateOnly(c, Resetting);
    case ResetRequested => StateOnly(c, Resetting);
    case FirmwareNotice => StateOnly(c, Resetting);
    case DeleteRequested => StateOnly(c, Deleting);
    case MarkDead => StateOnly(c, Dead);
  }

  lemma StateOnly(c: Ctrl, to: CtrlState)
    requires to.Resetting? || to.Deleting? || to.Dead?
    ensures var s := Moved(c, to).state;
            s == c.state || ((c.state.Live? || c.state.New?) && s.Resetting?) || Terminal(s)
  {
  }

  /** A request moves only the state word, and only away from set-up. */
  lemma BudgetMoves(from: CtrlState, to: CtrlState, setup: bool, reconnect: Reconnect, nr: nat, failures: nat, max: int)
    requires Budget(from, setup, reconnect, nr, failures, max)
    requires to == from || (from.Live? && to.Resetting?) || Terminal(to)
    ensures Budget(to, setup, reconnect, nr, failures, max)
    ensures to.Live? ==> failures == 0
  {
  }

  lemma BudgetReset(c: Ctrl, ev: Event, max: int, failures: nat)
    requires Owned(c) && Enabled(c, ev) && !Strands(c, ev) && Budgeted(c, failures, max) && max >= -1 && IsReset(ev)
    ensures BudgetAfter(c, ev, max, failures)
  {
    hide AfterErrorWork, AfterReconnectEnd, AfterFirmware, AfterDelete;
  }

  lemma BudgetReconnect(c: Ctrl, ev: Event, max: int, failures: nat)
    requires Owned(c) && Enabled(c, ev) && !Stranded(c) && !Strands(c, ev) && Budgeted(c, failures, max) && max >= -1
    requires IsReconnect(ev)
    ensures BudgetAfter(c, ev, max, failures)
  {
    hide AfterErrorWork, AfterResetStart, AfterResetEnd, AfterReconnectEnd, AfterFirmware, AfterDelete, BudgetAfter;
    match ev
    case ReconnectStart => BudgetReconnectEdge(c, ev, max, failures);
    case ReconnectEnd(outcome) => BudgetReconnectEnd(c, outcome, max, failures);
    case ReconnectSettle => BudgetReconnectEdge(c, ev, max, failures);
  }

  lemma BudgetReconnectEdge(c: Ctrl, ev: Event, max: int, failures: nat)
    requires Owned(c) && Enabled(c, ev) && !Stranded(c) && Budgeted(c, failures, max) && max >= -1
    requires ev.ReconnectStart? || ev.ReconnectSettle?
    ensures BudgetAfter(c, ev, max, failures)
  {
    hide AfterErrorWork, AfterResetStart, AfterResetEnd, AfterReconnectEnd, AfterFirmware, AfterDelete;
  }

  lemma BudgetReconnectEnd(c: Ctrl, outcome: Outcome, max: int, failures: nat)
    requires Owned(c) && c.reconnect.Attempting? && Budgeted(c, failures, max) && max >= -1
    requires !Strands(c, ReconnectEnd(outcome))
    ensures BudgetAfter(c, ReconnectEnd(outcome), max, failures)
  {
    hide AfterErrorWork, AfterResetStart, AfterResetEnd, AfterFirmware, AfterDelete;
  }

  lemma BudgetWork(c: Ctrl, ev: Event, max: int, failures: nat)
    requires Owned(c) && Enabled(c, ev) && Budgeted(c, failures, max) && max >= -1
    requires ev.ErrorWork? || ev.FirmwareWork? || ev.DeleteWork?
    ensures BudgetAfter(c, ev, max, failures)
  {
    hide Step, Owned, Enabled, Budgeted, BudgetAfter;
    match ev
    case ErrorWork => BudgetError(c, max, failures);
    case FirmwareWork(timedOut) => BudgetFirmware(c, timedOut, max, failures);
    case DeleteWork => BudgetDelete(c, max, failures);
  }

  lemma BudgetError(c: Ctrl, max: int, failures: nat)
    requires Owned(c) && Enabled(c, ErrorWork) && Budgeted(c, failures, max) && max >= -1
    ensures BudgetAfter(c, ErrorWork, max, failures)
  {
    hide AfterResetStart, AfterResetEnd, AfterReconnectEnd, AfterFirmware, AfterDelete;
  }

  lemma BudgetFirmware(c: Ctrl, timedOut: bool, max: int, failures: nat)
    requires Owned(c) && Enabled(c, FirmwareWork(timedOut)) && Budgeted(c, failures, max)
    ensures BudgetAfter(c, FirmwareWork(timedOut), max, failures)
  {
    hide AfterErrorWork, AfterResetStart, AfterResetEnd, AfterReconnectEnd, AfterDelete;
  }

  lemma BudgetDelete(c: Ctrl, max: int, failures: nat)
    requires Owned(c) && Enabled(c, DeleteWork) && Budgeted(c, failures, max)
    ensures BudgetAfter(c, DeleteWork, max, failures)
  {
    hide AfterErrorWork, AfterResetStart, AfterResetEnd, AfterReconnectEnd, AfterFirmware;
  }

  lemma BudgetStep(c: Ctrl, ev: Event, max: int, failures: nat)
    requires Owned(c) && Enabled(c, ev) && !Stranded(c) && !Strands(c, ev) && Budgeted(c, failures, max) && max >= -1
    ensures BudgetAfter(c, ev, max, failures)
  {
    hide Step, Owned, Enabled, Budgeted, BudgetAfter, Stranded, Strands;
    if IsRequest(ev) { BudgetRequest(c, ev, max, failures); }
    else if IsReset(ev) { BudgetReset(c, ev, max, failures); }
    else if IsReconnect(ev) { BudgetReconnect(c, ev, max, failures); }
    else { BudgetWork(c, ev, max, failures); }
  }

  lemma {:induction false} RunOwned(r: Run, max: int, i: nat)
    requires IsRun(r, max) && i < |r.states|
    ensures Owned(r.states[i])
  {
    hide Step, Owned, Enabled;
    if i == 0 {
      InitialOwned();
    } else {
      RunOwned(r, max, i - 1);
      assert Linked(r.states[i - 1], r.events[i - 1], r.states[i], max);
      OwnedStep(r.states[i - 1], r.events[i - 1], max);
    }
  }

  lemma InitialOwned()
    ensures Owned(Initial()) && !Stranded(Initial())
  {
  }

  lemma TerminalStep(c: Ctrl, ev: Event, max: int)
    requires Terminal(c.state)
    ensures Terminal(Step(c, ev, max).state) && (Step(c, ev, max).reconnectQueued ==> c.reconnectQueued)
  {
    hide AfterResetEnd, AfterReconnectEnd;
    match ev
    case ResetEnd(outcome) => TerminalReset(c, outcome, max);
    case ReconnectEnd(outcome) => TerminalReconnect(c, outcome, max);
    case _ =>
  }

  lemma TerminalReset(c: Ctrl, outcome: Outcome, max: int)
    requires Terminal(c.state)
    ensures var d := AfterResetEnd(c, outcome, max); Terminal(d.state) && d.reconnectQueued == c.reconnectQueued
  {
  }

  lemma TerminalReconnect(c: Ctrl, outcome: Outcome, max: int)
    requires Terminal(c.state)
    ensures var d := AfterReconnectEnd(c, outcome, max); Terminal(d.state) && d.reconnectQueued == c.reconnectQueued
  {
  }

  /** A controller that began deletion or died is never live, resetting or connecting again, and
      nothing queues another reconnect. */
  lemma {:induction false} TerminalForever(r: Run, max: int, i: nat, j: nat)
    requires IsRun(r, max) && i <= j < |r.states| && Terminal(r.states[i].state)
    ensures Terminal(r.states[j].state)
    ensures r.states[j].reconnectQueued ==> r.states[i].reconnectQueued
  {
    hide Step, Enabled;
    if i < j {
      TerminalForever(r, max, i, j - 1);
      assert Linked(r.states[j - 1], r.events[j - 1], r.states[j], max);
      TerminalStep(r.states[j - 1], r.events[j - 1], max);
    }
  }

  ghost predicate EverStrands(r: Run) {
    exists i :: 0 <= i < |r.events| && i < |r.states| && Strands(r.states[i], r.events[i])
  }

  lemma {:induction false} UnstrandedUpTo(r: Run, max: int, i: nat)
    requires IsRun(r, max) && i < |r.states|
    requires forall k :: 0 <= k < i ==> !Strands(r.states[k], r.events[k])
    ensures !Stranded(r.states[i])
  {
    hide Step, Owned, Enabled;
    if i == 0 {
      InitialOwned();
    } else {
      UnstrandedUpTo(r, max, i - 1);
      RunOwned(r, max, i - 1);
      assert Linked(r.states[i - 1], r.events[i - 1], r.states[i], max);
      NotStrandedStep(r.states[i - 1], r.events[i - 1], max);
    }
  }

  lemma {:induction false} FirstStrands(r: Run, i: nat) returns (k: nat)
    requires |r.states| == |r.events| + 1 && i < |r.events| && Strands(r.states[i], r.events[i])
    ensures k <= i && Strands(r.states[k], r.events[k])
    ensures forall m :: 0 <= m < k ==> !Strands(r.states[m], r.events[m])
  {
    if j: nat :| j < i && Strands(r.states[j], r.events[j]) {
      k := FirstStrands(r, j);
    } else {
      k := i;
    }
  }

  /** Some state of the run is stuck connecting with nothing left to act, if and only if a set-up
      ended in one of the two checks that report success. */
  lemma StrandedIffUnsupported(r: Run, max: int)
    requires IsRun(r, max)
    ensures (exists i :: 0 <= i < |r.states| && Stranded(r.states[i])) <==> EverStrands(r)
  {
    hide Step, Owned, Enabled, Stranded, Strands;
    if EverStrands(r) {
      var i :| 0 <= i < |r.events| && Strands(r.states[i], r.events[i]);
      var k := FirstStrands(r, i);
      UnstrandedUpTo(r, max, k);
      RunOwned(r, max, k);
      assert Linked(r.states[k], r.events[k], r.states[k + 1], max);
      NotStrandedStep(r.states[k], r.events[k], max);
    } else {
      forall i | 0 <= i < |r.states| ensures !Stranded(r.states[i]) {
        UnstrandedUpTo(r, max, i);
      }
    }
  }

  lemma StrandedStep(c: Ctrl, ev: Event, max: int)
    requires Owned(c) && Stranded(c) && Enabled(c, ev)
    ensures if ev == DeleteRequested then Terminal(Step(c, ev, max).state) else Stranded(Step(c, ev, max))
  {
  }

  /** Once stuck, the controller is stuck for good: at any later moment it still is, if and only if
      nobody has asked for its deletion in the meantime. */
  lemma {:induction false} StrandedForever(r: Run, max: int, i: nat, j: nat)
    requires IsRun(r, max) && i <= j < |r.states| && Stranded(r.states[i])
    ensures Stranded(r.states[j]) <==> forall k :: i <= k < j ==> r.events[k] != DeleteRequested
  {
    hide Step, Owned, Enabled;
    if i < j {
      StrandedForever(r, max, i, j - 1);
      RunOwned(r, max, j - 1);
      assert Linked(r.states[j - 1], r.events[j - 1], r.states[j], max);
      if Stranded(r.states[j - 1]) {
        StrandedStep(r.states[j - 1], r.events[j - 1], max);
      } else {
        DeletedMeanwhile(r, max, i, j - 1);
        TerminalForever(r, max, j - 1, j);
      }
    }
  }

  /** What a deletion request starts is never undone. */
  lemma {:induction false} DeletedMeanwhile(r: Run, max: int, i: nat, j: nat)
    requires IsRun(r, max) && i <= j < |r.states| && Stranded(r.states[i]) && !Stranded(r.states[j])
    ensures Terminal(r.states[j].state)
  {
    hide Step, Owned, Enabled;
    RunOwned(r, max, j - 1);
    assert Linked(r.states[j - 1], r.events[j - 1], r.states[j], max);
    if Stranded(r.states[j - 1]) {
      StrandedStep(r.states[j - 1], r.events[j - 1], max);
    } else {
      DeletedMeanwhile(r, max, i, j - 1);
      TerminalForever(r, max, j - 1, j);
    }
  }

  /** An error, and a target that no longer offers keyed SGLs when the controller reconnects. */
  lemma StrandedRun(max: nat) returns (r: Run)
    requires max > 0
    ensures IsRun(r, max) && |r.events| == 4 && Stranded(r.states[4])
    ensures r.events == [ErrorDetected, ErrorWork, ReconnectStart, ReconnectEnd(Unsupported)]
  {
    var reset := Initial().(state := Resetting, errQueued := true);
    var queued := Initial().(state := Connecting, reconnectQueued := true);
    var trying := Initial().(state := Connecting, nrReconnects := 1, reconnect := Attempting);
    r := Run([Initial(), reset, queued, trying, trying.(reconnect := Settling)],
             [ErrorDetected, ErrorWork, ReconnectStart, ReconnectEnd(Unsupported)]);
  }

  lemma {:induction false} RunBudgeted(r: Run, max: int, i: nat)
    requires IsRun(r, max) && i < |r.states| && max >= -1 && !EverStrands(r)
    ensures Budgeted(r.states[i], Failures(r, i), max)
  {
    hide Step, Owned, Enabled, Budgeted, Stranded, Strands;
    if i == 0 {
      InitialBudget(max);
    } else {
      RunBudgeted(r, max, i - 1);
      RunOwned(r, max, i - 1);
      UnstrandedUpTo(r, max, i - 1);
      assert Linked(r.states[i - 1], r.events[i - 1], r.states[i], max);
      BudgetStep(r.states[i - 1], r.events[i - 1], max, Failures(r, i - 1));
    }
  }

  lemma InitialBudget(max: int)
    requires max >= -1
    ensures Budgeted(Initial(), 0, max)
  {
  }

  /** At most max(1, max_reconnects) attempts in a row fail; after the last one the controller is
      being deleted. */
  lemma AttemptsBounded(r: Run, max: nat, i: nat)
    requires IsRun(r, max) && i < |r.states| && !EverStrands(r)
    ensures var limit := if max > 1 then max else 1;
            && Failures(r, i) <= limit
            && (Failures(r, i) == limit ==> Terminal(r.states[i].state))
  {
    hide Step, Enabled;
    RunBudgeted(r, max, i);
    RunOwned(r, max, i);
  }

  /** The error work may find the counter at its limit although no attempt has failed. */
  predicate SpentAlready(c: Ctrl, max: nat) {
    max == 0 || (c.reconnect.Settling? && c.nrReconnects >= max)
  }

  /** Without a request the controller gives up before the limit of failures if and only if error
      work runs while no attempt is allowed at all, or while a reconnect that has just succeeded has
      not yet cleared the counter it left at the limit. */
  lemma GivesUpEarlyIff(r: Run, max: nat, i: nat)
    requires IsRun(r, max) && !EverStrands(r) && i < |r.events|
    requires !Terminal(r.states[i].state) && r.events[i] != DeleteRequested
    ensures Terminal(r.states[i + 1].state) && Failures(r, i + 1) < (if max > 1 then max else 1) <==>
            r.events[i] == ErrorWork && SpentAlready(r.states[i], max)
  {
    hide Step, Owned, Enabled, Budgeted, Stranded, Strands, SpentAlready;
    RunOwned(r, max, i);
    RunBudgeted(r, max, i);
    UnstrandedUpTo(r, max, i);
    assert Linked(r.states[i], r.events[i], r.states[i + 1], max);
    EarlyStep(r.states[i], r.events[i], max, Failures(r, i));
  }

  ghost predicate Early(c: Ctrl, ev: Event, max: nat, failures: nat) {
    Terminal(Step(c, ev, max).state) && failures + (if Attempts(c, ev) then 1 else 0) < if max > 1 then max else 1
  }

  lemma EarlyStep(c: Ctrl, ev: Event, max: nat, failures: nat)
    requires Owned(c) && Enabled(c, ev) && !Stranded(c) && !Strands(c, ev) && Budgeted(c, failures, max)
    requires !Terminal(c.state) && ev != DeleteRequested
    ensures Early(c, ev, max, failures) <==> ev == ErrorWork && SpentAlready(c, max)
  {
    hide AfterErrorWork, AfterResetStart, AfterResetEnd, AfterReconnectEnd, AfterFirmware, AfterDelete;
    match ev
    case ErrorWork => EarlyError(c, max, failures);
    case ResetEnd(outcome) => EarlyReset(c, outcome, max, failures);
    case ReconnectEnd(outcome) => EarlyReconnect(c, outcome, max, failures);
    case ResetStart => WorkStays(c, ev, max);
    case FirmwareWork(_) => WorkStays(c, ev, max);
    case _ =>
  }

  lemma EarlyError(c: Ctrl, max: nat, failures: nat)
    requires Owned(c) && c.errQueued && Budgeted(c, failures, max) && !Terminal(c.state)
    ensures Early(c, ErrorWork, max, failures) <==> SpentAlready(c, max)
  {
    hide AfterResetStart, AfterResetEnd, AfterReconnectEnd, AfterFirmware, AfterDelete;
  }

  lemma EarlyReset(c: Ctrl, outcome: Outcome, max: nat, failures: nat)
    requires Owned(c) && c.resetSetup && Budgeted(c, failures, max) && !Terminal(c.state)
    ensures !Early(c, ResetEnd(outcome), max, failures)
  {
    hide AfterErrorWork, AfterResetStart, AfterReconnectEnd, AfterFirmware, AfterDelete;
  }

  lemma EarlyReconnect(c: Ctrl, outcome: Outcome, max: nat, failures: nat)
    requires Owned(c) && c.reconnect.Attempting? && Budgeted(c, failures, max) && !Terminal(c.state)
    ensures !Early(c, ReconnectEnd(outcome), max, failures)
  {
    hide AfterErrorWork, AfterResetStart, AfterResetEnd, AfterFirmware, AfterDelete;
  }

  lemma WorkStays(c: Ctrl, ev: Event, max: nat)
    requires !Terminal(c.state) && (ev.ResetStart? || ev.FirmwareWork?)
    ensures !Terminal(Step(c, ev, max).state)
  {
  }

  /** One attempt is allowed and it succeeds; an error right behind it deletes the controller. */
  lemma DeletedAfterSuccess() returns (r: Run)
    ensures IsRun(r, 1) && |r.events| == 6 && !EverStrands(r) && Terminal(r.states[6].state) && Failures(r, 6) == 0
    ensures r.events == [ErrorDetected, ErrorWork, ReconnectStart, ReconnectEnd(Connected), ErrorDetected, ErrorWork]
  {
    var reset := Initial().(state := Resetting, errQueued := true);
    var queued := Initial().(state := Connecting, reconnectQueued := true);
    var trying := Initial().(state := Connecting, nrReconnects := 1, reconnect := Attempting);
    var settling := Initial().(nrReconnects := 1, reconnect := Settling);
    r := Run([Initial(), reset, queued, trying, settling, settling.(state := Resetting, errQueued := true),
              settling.(state := Deleting, deleteQueued := true)],
             [ErrorDetected, ErrorWork, ReconnectStart, ReconnectEnd(Connected), ErrorDetected, ErrorWork]);
    assert Failures(r, 4) == 0;
    assert Failures(r, 5) == 0;
  }

  /** With no limit the controller never gives up by itself: only a request deletes it. */
  lemma {:induction false} NeverGivesUp(r: Run, i: nat)
    requires IsRun(r, -1) && i < |r.states| && Terminal(r.states[i].state)
    ensures exists k :: 0 <= k < i && r.events[k] == DeleteRequested
  {
    hide Step, Enabled;
    assert Linked(r.states[i - 1], r.events[i - 1], r.states[i], -1);
    if Terminal(r.states[i - 1].state) {
      NeverGivesUp(r, i - 1);
    } else {
      RunOwned(r, -1, i - 1);
      OnlyRequested(r.states[i - 1], r.events[i - 1]);
    }
  }

  lemma OnlyRequested(c: Ctrl, ev: Event)
    requires Owned(c) && Enabled(c, ev) && !Terminal(c.state) && Terminal(Step(c, ev, -1).state)
    ensures ev == DeleteRequested
  {
    hide Step, Enabled;
    if IsRequest(ev) {
      if ev != DeleteRequested { RequestDeletes(c, ev); }
    } else {
      WorkKeepsAlive(c, ev);
    }
  }

  lemma RequestDeletes(c: Ctrl, ev: Event)
    requires IsRequest(ev) && !Terminal(c.state) && ev != DeleteRequested
    ensures !Terminal(Step(c, ev, -1).state)
  {
    match ev
    case ErrorDetected =>
    case ResetRequested =>
    case FirmwareNotice =>
    case MarkDead =>
  }

  lemma WorkKeepsAlive(c: Ctrl, ev: Event)
    requires !IsRequest(ev) && Enabled(c, ev) && !Terminal(c.state) && (c.deleteQueued ==> Terminal(c.state))
    ensures !Terminal(Step(c, ev, -1).state)
  {
    match ev
    case ErrorWork =>
    case ResetStart =>
    case ResetEnd(_) =>
    case FirmwareWork(_) =>
    case ReconnectStart =>
    case ReconnectEnd(_) =>
    case ReconnectSettle =>
  }

  // ----- What requests and work items achieve

  /** Error, reset and firmware requests take a live controller to resetting and queue exactly the
      work asked for; in any other state they change nothing. */
  lemma RequestServed(r: Run, max: int, i: nat)
    requires IsRun(r, max) && i < |r.events|
    requires r.events[i].ErrorDetected? || r.events[i].ResetRequested? || r.events[i].FirmwareNotice?
    ensures var c, d := r.states[i], r.states[i + 1];
            if c.state != Live then d == c
            else d == c.(state := Resetting, errQueued := r.events[i] == ErrorDetected,
                         resetQueued := r.events[i] == ResetRequested, fwQueued := r.events[i] == FirmwareNotice)
  {
    hide Step, Enabled, Owned;
    RunOwned(r, max, i);
    assert Linked(r.states[i], r.events[i], r.states[i + 1], max);
    ServedStep(r.states[i], r.events[i], max);
  }

  lemma ServedStep(c: Ctrl, ev: Event, max: int)
    requires Owned(c) && (ev.ErrorDetected? || ev.ResetRequested? || ev.FirmwareNotice?)
    ensures Step(c, ev, max) == if c.state != Live then c
                                else c.(state := Resetting, errQueued := ev == ErrorDetected,
                                        resetQueued := ev == ResetRequested, fwQueued := ev == FirmwareNotice)
  {
    hide AfterErrorWork, AfterResetStart, AfterResetEnd, AfterReconnectEnd, AfterFirmware, AfterDelete;
  }

  /** The recovery work items, from resetting: error work starts the first attempt or gives up,
      a reset starts its set-up alone, activated firmware makes the controller live, and firmware
      that timed out asks for a reset. */
  lemma ResettingServed(r: Run, max: int, i: nat)
    requires IsRun(r, max) && i < |r.events| && r.states[i].state == Resetting
    ensures var c, d := r.states[i], r.states[i + 1];
            match r.events[i]
            case ErrorWork => !d.errQueued && if max == -1 || c.nrReconnects < max
                                              then d.state == Connecting && d.reconnectQueued
                                              else d.state == Deleting && d.deleteQueued
            case ResetStart => d.state == Connecting && d.resetSetup && !d.resetQueued && !d.reconnectQueued
            case FirmwareWork(timedOut) => !d.fwQueued && if timedOut then d.state == Resetting && d.resetQueued
                                                          else d.state == Live && !d.resetQueued
            case _ => true
  {
    hide Step, Enabled, Owned;
    RunOwned(r, max, i);
    assert Linked(r.states[i], r.events[i], r.states[i + 1], max);
    match r.events[i]
    case ErrorWork => ErrorServed(r.states[i], max);
    case ResetStart => ResetServed(r.states[i], max);
    case FirmwareWork(timedOut) => FirmwareServed(r.states[i], timedOut, max);
    case _ =>
  }

  lemma ErrorServed(c: Ctrl, max: int)
    requires c.state == Resetting
    ensures var d := Step(c, ErrorWork, max);
            !d.errQueued && if max == -1 || c.nrReconnects < max then d.state == Connecting && d.reconnectQueued
                            else d.state == Deleting && d.deleteQueued
  {
    hide AfterResetStart, AfterResetEnd, AfterReconnectEnd, AfterFirmware, AfterDelete;
  }

  lemma ResetServed(c: Ctrl, max: int)
    requires c.state == Resetting
    ensures var d := Step(c, ResetStart, max);
            d.state == Connecting && d.resetSetup && !d.resetQueued && !d.reconnectQueued
  {
    hide AfterErrorWork, AfterResetEnd, AfterReconnectEnd, AfterFirmware, AfterDelete;
  }

  lemma FirmwareServed(c: Ctrl, timedOut: bool, max: int)
    requires Owned(c) && c.state == Resetting && Enabled(c, FirmwareWork(timedOut))
    ensures var d := Step(c, FirmwareWork(timedOut), max);
            !d.fwQueued && if timedOut then d.state == Resetting && d.resetQueued else d.state == Live && !d.resetQueued
  {
    hide AfterErrorWork, AfterResetStart, AfterResetEnd, AfterReconnectEnd, AfterDelete;
  }

  /** The end of a set-up, from connecting: connected makes the controller live; a failed reconnect
      or reset tries again while the budget lasts and else gives up. */
  lemma ConnectingServed(r: Run, max: int, i: nat)
    requires IsRun(r, max) && i < |r.events| && r.states[i].state == Connecting
    requires r.events[i].ReconnectEnd? || r.events[i].ResetEnd?
    ensures var c, d, nr := r.states[i], r.states[i + 1], r.states[i].nrReconnects + if r.events[i].ResetEnd? then 1 else 0;
            match r.events[i].outcome
            case Connected => d.state == Live && d.nrReconnects == c.nrReconnects
            case Unsupported => d.state == Connecting && !d.reconnectQueued
            case Failed => d.nrReconnects == nr && if max == -1 || nr < max then d.state == Connecting && d.reconnectQueued
                                                   else d.state == Deleting && d.deleteQueued
  {
    hide Step, Enabled, Owned;
    RunOwned(r, max, i);
    assert Linked(r.states[i], r.events[i], r.states[i + 1], max);
    match r.events[i]
    case ReconnectEnd(outcome) => ReconnectServed(r.states[i], outcome, max);
    case ResetEnd(outcome) => SetupServed(r.states[i], outcome, max);
  }

  lemma ReconnectServed(c: Ctrl, outcome: Outcome, max: int)
    requires Owned(c) && c.state == Connecting && Enabled(c, ReconnectEnd(outcome))
    ensures var d := Step(c, ReconnectEnd(outcome), max);
            && d.nrReconnects == c.nrReconnects
            && match outcome
               case Connected => d.state == Live
               case Unsupported => d.state == Connecting && !d.reconnectQueued
               case Failed => if max == -1 || c.nrReconnects < max then d.state == Connecting && d.reconnectQueued
                              else d.state == Deleting && d.deleteQueued
  {
    hide AfterErrorWork, AfterResetStart, AfterResetEnd, AfterFirmware, AfterDelete;
  }

  lemma SetupServed(c: Ctrl, outcome: Outcome, max: int)
    requires Owned(c) && c.state == Connecting && Enabled(c, ResetEnd(outcome))
    ensures var d := Step(c, ResetEnd(outcome), max);
            match outcome
            case Connected => d.state == Live && d.nrReconnects == c.nrReconnects
            case Unsupported => d.state == Connecting && !d.reconnectQueued
            case Failed => d.nrReconnects == c.nrReconnects + 1 &&
                           if max == -1 || c.nrReconnects + 1 < max then d.state == Connecting && d.reconnectQueued
                           else d.state == Deleting && d.deleteQueued
  {
    hide AfterErrorWork, AfterResetStart, AfterReconnectEnd, AfterFirmware, AfterDelete;
  }

  /** What a work item leaves behind in whatever state it runs, deletion included: it is no longer
      queued or running, a reset cancels all other recovery, and an attempt is counted as it starts
      and forgotten once it has succeeded. */
  predicate Finished(c: Ctrl, ev: Event, d: Ctrl) {
    match ev
    case ErrorWork => !d.errQueued
    case FirmwareWork(_) => !d.fwQueued
    case ResetStart => !d.resetQueued && !d.errQueued && !d.fwQueued && !d.reconnectQueued
    case ResetEnd(_) => !d.resetSetup
    case ReconnectStart => !d.reconnectQueued && d.reconnect == Attempting && d.nrReconnects == c.nrReconnects + 1
    case ReconnectEnd(_) => d.reconnect != Attempting
    case ReconnectSettle => d.reconnect == NotRunning && d.nrReconnects == 0
    case DeleteWork => !d.deleteQueued && !d.errQueued && !d.fwQueued && !d.reconnectQueued
    case MarkDead => d == if c.state == Deleting then c.(state := Dead) else c
    case _ => true
  }

  lemma WorkFinished(r: Run, max: int, i: nat)
    requires IsRun(r, max) && i < |r.events|
    ensures Finished(r.states[i], r.events[i], r.states[i + 1])
  {
    hide Step, Enabled, Finished;
    assert Linked(r.states[i], r.events[i], r.states[i + 1], max);
    FinishedStep(r.states[i], r.events[i], max);
  }

  lemma FinishedStep(c: Ctrl, ev: Event, max: int)
    ensures Finished(c, ev, Step(c, ev, max))
  {
    hide AfterErrorWork, AfterResetEnd, AfterReconnectEnd, AfterFirmware;
    match ev
    case ErrorWork => ErrorGone(c, max);
    case ResetEnd(outcome) => SetupGone(c, outcome, max);
    case ReconnectEnd(outcome) => AttemptGone(c, outcome, max);
    case FirmwareWork(timedOut) => FirmwareGone(c, timedOut);
    case _ =>
  }

  lemma ErrorGone(c: Ctrl, max: int)
    ensures !AfterErrorWork(c, max).errQueued
  {
  }

  lemma SetupGone(c: Ctrl, outcome: Outcome, max: int)
    ensures !AfterResetEnd(c, outcome, max).resetSetup
  {
  }

  lemma AttemptGone(c: Ctrl, outcome: Outcome, max: int)
    ensures AfterReconnectEnd(c, outcome, max).reconnect != Attempting
  {
  }

  lemma FirmwareGone(c: Ctrl, timedOut: bool)
    ensures !AfterFirmware(c, timedOut).fwQueued
  {
  }

  /** A deletion request on any controller that is not yet on its way out takes effect at once. */
  lemma DeleteStarts(r: Run, max: int, i: nat)
    requires IsRun(r, max) && i < |r.events| && r.events[i] == DeleteRequested
    ensures var c, d := r.states[i], r.states[i + 1];
            if Terminal(c.state) then d == c else d == c.(state := Deleting, deleteQueued := true)
  {
    hide Step, Enabled, Owned;
    RunOwned(r, max, i);
    assert Linked(r.states[i], r.events[i], r.states[i + 1], max);
    DeleteStep(r.states[i], max);
  }

  lemma DeleteStep(c: Ctrl, max: int)
    requires Owned(c)
    ensures Step(c, DeleteRequested, max) ==
            if Terminal(c.state) then c else c.(state := Deleting, deleteQueued := true)
  {
    hide AfterErrorWork, AfterResetStart, AfterResetEnd, AfterReconnectEnd, AfterFirmware, AfterDelete;
  }

  /** Deletion under way: the work is still queued, or it has run, after the last set-up ended, and
      cancelled everything else. */
  predicate GoingOut(c: Ctrl, done: bool) {
    if done then && c.state == DeletingNoIo && !c.deleteQueued && !c.errQueued && !c.fwQueued && !c.reconnectQueued
                 && !c.resetQueued && !c.resetSetup && c.reconnect == NotRunning
    else (c.state == Deleting || c.state == Dead) && c.deleteQueued
  }

  lemma GoingOutStep(c: Ctrl, ev: Event, max: int, done: bool)
    requires GoingOut(c, done) && Enabled(c, ev)
    ensures GoingOut(Step(c, ev, max), done || ev == DeleteWork)
  {
    match ev
    case ResetEnd(outcome) =>
    case ReconnectEnd(outcome) =>
    case _ =>
  }

  /** From a deletion request on, over every continuation: the controller never does anything but go
      out, and it has stopped I/O with no other work queued if and only if the deletion work has run. */
  lemma {:induction false} DeletionCompletes(r: Run, max: int, i: nat, j: nat)
    requires IsRun(r, max) && i < j < |r.states| && r.events[i] == DeleteRequested && !Terminal(r.states[i].state)
    ensures GoingOut(r.states[j], DeleteWork in r.events[i + 1..j])
  {
    hide Step, Enabled, Owned, GoingOut;
    if j == i + 1 {
      DeleteStarts(r, max, i);
      JustStarted(r.states[i], r.states[j]);
      assert r.events[i + 1..j] == [];
    } else {
      DeletionCompletes(r, max, i, j - 1);
      assert Linked(r.states[j - 1], r.events[j - 1], r.states[j], max);
      assert r.events[i + 1..j] == r.events[i + 1..j - 1] + [r.events[j - 1]];
      GoingOutStep(r.states[j - 1], r.events[j - 1], max, DeleteWork in r.events[i + 1..j - 1]);
    }
  }

  lemma JustStarted(c: Ctrl, d: Ctrl)
    requires d == c.(state := Deleting, deleteQueued := true)
    ensures GoingOut(d, false)
  {
  }

  // ----- The attempt limit from the loss timeout

  /** Rounding up in unsigned 32-bit arithmetic, as DIV_ROUND_UP does. */
  function MaxReconnects(ctrlLossTmo: int, reconnectDelay: nat): (max: int)
    requires 0 < reconnectDelay < 0x8000_0000 && ctrlLossTmo < 0x8000_0000
    ensures ctrlLossTmo < 0 ==> max == -1
    ensures ctrlLossTmo >= 0 ==> ctrlLossTmo <= max * reconnectDelay < ctrlLossTmo + reconnectDelay
  {
    if ctrlLossTmo < 0 then -1
    else
      var q := ((ctrlLossTmo + reconnectDelay - 1) % 0x1_0000_0000) / reconnectDelay;
      assert q * reconnectDelay == (ctrlLossTmo + reconnectDelay - 1) - (ctrlLossTmo + reconnectDelay - 1) % reconnectDelay;
      q
  }
}
