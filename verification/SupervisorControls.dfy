/** What becomes of one control operation, over all runs of the host session supervisor. */
module SupervisorControls {
  import opened Prelude
  import opened Supervisor
  import opened SupervisorSafety

  /** Nothing an observer or a later step sees has changed but the control's own record. */
  predicate SameCourse(s: State, t: State) {
    t == s.(controls := t.controls, control := t.control)
  }

  // ----- Continuations of a run -----

  function RunFrom(o: Options, s: State, events: seq<Event>): (t: State)
    requires s.Shaped()
    ensures t.Shaped()
    decreases |events|
  {
    if events == [] then s else RunFrom(o, Step(o, s, events[0]), events[1..])
  }

  lemma {:induction false} RunContinues(o: Options, events: seq<Event>, more: seq<Event>)
    ensures Run(o, events + more) == RunFrom(o, Run(o, events), more)
    decreases |more|
  {
    hide Step;
    if more == [] {
      assert events + more == events;
    } else {
      var longer := events + [more[0]];
      assert longer[..|events|] == events;
      assert events + more == longer + more[1..];
      RunContinues(o, longer, more[1..]);
    }
  }

  // ----- One step -----

  /**
   * How one control moves on in a step taken at `epoch`: what settled it stays, its phases only go forward, and a
   * control of an earlier epoch returns no result.
   */
  predicate Moves(c: Control, d: Control, epoch: nat) {
    && d.epoch == c.epoch && d.generation == c.generation && d.operation == c.operation
    && (c.settled.Some? ==> d.settled == c.settled && d.cancelled == c.cancelled)
    && (match c.phase
        case Waiting => d.phase.Returned? && c.epoch < epoch ==> d.phase.result.None?
        case Returned(_) => d.phase == c.phase || d.phase.Finished?
        case Finished => d.phase.Finished?)
    && (c.phase.Waiting? ==> !d.phase.Finished?)
  }

  predicate AllMove(before: seq<Control>, after: seq<Control>, epoch: nat) {
    |before| <= |after| && forall i | 0 <= i < |before| :: Moves(before[i], after[i], epoch)
  }

  lemma CancelMoves(controls: seq<Control>, control: Option<nat>, epoch: nat)
    requires control.Some? ==> control.value < |controls|
    ensures AllMove(controls, CancelControl(controls, control), epoch)
  {
  }

  lemma MovesOn(a: seq<Control>, b: seq<Control>, c: seq<Control>, epoch: nat)
    requires AllMove(a, b, epoch) && |b| <= |c| && forall i | 0 <= i < |b| :: c[i] == b[i]
    ensures AllMove(a, c, epoch)
  {
    hide Moves;
  }

  predicate GoesOn(s: State, t: State) {
    s.epoch <= t.epoch && AllMove(s.controls, t.controls, s.epoch)
  }

  lemma RunControlMoves(s: State, operation: Operation, g: nat, activates: bool)
    requires s.Shaped()
    ensures GoesOn(s, RunControl(s, operation, g, activates)) && GoesOn(s, InvalidateWork(s))
  {
    CancelMoves(s.controls, s.control, s.epoch);
    hide AllMove, CancelControl;
    var cancelled := CancelControl(s.controls, s.control);
    MovesOn(s.controls, cancelled, RunControl(s, operation, g, activates).controls, s.epoch);
  }

  /** Invalidating all work and starting a control cancels one control, the current one. */
  lemma RestartMoves(s: State, operation: Operation, g: nat, activates: bool)
    requires s.Shaped()
    ensures GoesOn(s, RunControl(InvalidateWork(s), operation, g, activates))
  {
    CancelMoves(s.controls, s.control, s.epoch);
    var idle := InvalidateWork(s);
    assert CancelControl(idle.controls, idle.control) == idle.controls;
    hide AllMove, CancelControl;
    MovesOn(s.controls, idle.controls, RunControl(idle, operation, g, activates).controls, s.epoch);
  }

  lemma ActivateMoves(s: State, g: nat)
    requires s.Shaped()
    ensures GoesOn(s, ActivateGeneration(s, g))
  {
    RestartMoves(s, Establish, g, true);
    NothingMoves(s);
    hide CancelControl, AllMove;
  }

  lemma NothingMoves(s: State)
    ensures GoesOn(s, s)
  {
  }

  lemma FireMoves(o: Options, s: State)
    requires s.Shaped()
    ensures GoesOn(s, FireTask(o, s))
  {
    NothingMoves(s);
    if s.scheduled.Some? {
      RunControlMoves(s, Heartbeat, s.scheduled.value.generation, false);
      RunControlMoves(s, Establish, s.scheduled.value.generation, false);
    }
    hide CancelControl, AllMove;
  }

  lemma DisposeMoves(o: Options, s: State)
    requires s.Shaped()
    ensures GoesOn(s, BeginDispose(o, s)) && GoesOn(s, ProceedDispose(s)) && GoesOn(s, HandleDisconnect(s))
  {
    NothingMoves(s);
    RunControlMoves(s, Shutdown, s.generation, false);
    RestartMoves(s, Shutdown, s.generation, false);
    hide CancelControl, AllMove;
  }

  lemma OneMoves(controls: seq<Control>, i: nat, d: Control, epoch: nat)
    requires i < |controls| && Moves(controls[i], d, epoch)
    ensures AllMove(controls, controls[i := d], epoch)
  {
  }

  lemma SettleMoves(s: State, i: nat, r: ControlResult)
    requires s.Shaped() && i < |s.controls| && s.controls[i].phase.Waiting?
    ensures GoesOn(s, Settle(s, i, r))
  {
    NothingMoves(s);
    hide AllMove;
    if s.controls[i].settled.None? {
      OneMoves(s.controls, i, s.controls[i].(settled := Some(r)), s.epoch);
    }
  }

  lemma ReturnMoves(s: State, i: nat)
    requires s.Shaped() && i < |s.controls| && s.controls[i].phase.Waiting? && s.controls[i].settled.Some?
    ensures GoesOn(s, ReturnControl(s, i))
  {
    hide AllMove;
    OneMoves(s.controls, i, ReturnControl(s, i).controls[i], s.epoch);
  }

  lemma OutcomeKeepsControls(o: Options, s: State, g: nat, r: ControlResult)
    requires o.heartbeatThreshold.Some?
    ensures AfterHeartbeat(o, s, g, r).controls == s.controls && AfterHeartbeat(o, s, g, r).epoch == s.epoch
  {
  }

  lemma CallerMoves(o: Options, s: State, i: nat)
    requires s.Shaped() && i < |s.controls| && s.controls[i].phase.Returned?
    ensures GoesOn(s, Continue(o, s, i))
  {
    var finished := s.controls[i].(phase := Finished);
    OneMoves(s.controls, i, finished, s.epoch);
    if o.heartbeatThreshold.Some? && s.controls[i].phase.result.Some? {
      OutcomeKeepsControls(o, s.(controls := s.controls[i := finished]), finished.generation,
          s.controls[i].phase.result.value);
    }
    hide AllMove, Moves, AfterHeartbeat;
  }

  lemma StepMoves(o: Options, s: State, e: Event)
    requires s.Shaped()
    ensures GoesOn(s, Step(o, s, e))
  {
    NothingMoves(s);
    hide AllMove, ActivateGeneration, Continue, FireTask, BeginDispose, ProceedDispose, HandleDisconnect, Settle,
      ReturnControl;
    match e
    case StartResumes(_) => ActivateMoves(s.(starting := false), s.transportGeneration);
    case DisposeCalled => DisposeMoves(o, s);
    case DisposeProceeds => DisposeMoves(o, s);
    case TransportConnected =>
      var g := s.transportGeneration + 1;
      ActivateMoves(s.(transportGeneration := g, transportConnected := true), g);
    case TransportDisconnected =>
      DisposeMoves(o, s.(transportConnected := false, log := s.log + [DisconnectDelivered]));
    case ControlSettles(i, r) => if InPhase(s, i, true) { SettleMoves(s, i, r); }
    case ControlTimesOut(i) => if InPhase(s, i, true) { SettleMoves(s, i, Rejected); }
    case ControlReturns(i) => if InPhase(s, i, true) && s.controls[i].settled.Some? { ReturnMoves(s, i); }
    case CallerContinues(i) => if InPhase(s, i, false) { CallerMoves(o, s, i); }
    case TaskFires => FireMoves(o, s);
    case _ =>
  }

  // ----- Main results -----

  lemma {:induction false} SettledFrom(o: Options, s: State, more: seq<Event>, i: nat)
    requires s.Shaped() && i < |s.controls| && s.controls[i].settled.Some?
    ensures
      var t := RunFrom(o, s, more);
      i < |t.controls| && t.controls[i].settled == s.controls[i].settled
          && t.controls[i].cancelled == s.controls[i].cancelled
    decreases |more|
  {
    hide Step;
    if more != [] {
      StepMoves(o, s, more[0]);
      var t := Step(o, s, more[0]);
      assert Moves(s.controls[i], t.controls[i], s.epoch);
      SettledFrom(o, t, more[1..], i);
    }
  }

  /**
   * A control settles once: in every run the first outcome stays, whatever the hook still answers, times out or
   * is cancelled.
   */
  lemma FirstOutcomeCounts(o: Options, events: seq<Event>, more: seq<Event>, i: nat)
    requires i < |Run(o, events).controls| && Run(o, events).controls[i].settled.Some?
    ensures
      var s, t := Run(o, events), Run(o, events + more);
      i < |t.controls| && t.controls[i].settled == s.controls[i].settled
          && t.controls[i].cancelled == s.controls[i].cancelled
  {
    hide Run, RunFrom;
    RunContinues(o, events, more);
    SettledFrom(o, Run(o, events), more, i);
  }

  /** The control has no result for its caller, and will have none. */
  predicate Mute(s: State, i: nat) {
    i < |s.controls| &&
    match s.controls[i].phase
    case Waiting => s.controls[i].epoch < s.epoch
    case Returned(result) => result.None?
    case Finished => true
  }

  lemma {:induction false} MuteFrom(o: Options, s: State, more: seq<Event>, i: nat)
    requires s.Shaped() && Mute(s, i)
    ensures Mute(RunFrom(o, s, more), i)
    decreases |more|
  {
    hide Step;
    if more != [] {
      StepMoves(o, s, more[0]);
      var t := Step(o, s, more[0]);
      assert Moves(s.controls[i], t.controls[i], s.epoch);
      MuteFrom(o, t, more[1..], i);
    }
  }

  lemma MuteChangesNothing(o: Options, s: State, i: nat)
    requires s.Shaped() && Mute(s, i)
    ensures SameCourse(s, Step(o, s, ControlReturns(i))) && SameCourse(s, Step(o, s, CallerContinues(i)))
  {
  }

  lemma SettlingChangesNothing(o: Options, s: State, i: nat, r: ControlResult)
    requires s.Shaped() && i < |s.controls|
    ensures SameCourse(s, Step(o, s, ControlSettles(i, r))) && SameCourse(s, Step(o, s, ControlTimesOut(i)))
  {
  }

  /**
   * A control that a later one superseded before it returned never returns a result: in every continuation, whatever
   * it still does changes no state, task, activation or count.
   */
  lemma SupersededControlReturnsNothing(o: Options, events: seq<Event>, more: seq<Event>, i: nat, r: ControlResult)
    requires i < |Run(o, events).controls| && Run(o, events).controls[i].phase.Waiting?
    requires Run(o, events).controls[i].epoch < Run(o, events).epoch
    ensures
      var t := Run(o, events + more);
      && i < |t.controls| && (t.controls[i].phase.Returned? ==> t.controls[i].phase.result.None?)
      && SameCourse(t, Step(o, t, ControlSettles(i, r))) && SameCourse(t, Step(o, t, ControlTimesOut(i)))
      && SameCourse(t, Step(o, t, ControlReturns(i))) && SameCourse(t, Step(o, t, CallerContinues(i)))
  {
    hide Run, RunFrom, Step;
    RunContinues(o, events, more);
    MuteFrom(o, Run(o, events), more, i);
    MuteChangesNothing(o, Run(o, events + more), i);
    SettlingChangesNothing(o, Run(o, events + more), i, r);
  }

  /**
   * A cancelled control changes nothing any more: not when it settles, not when it returns, not when its caller
   * goes on.
   */
  lemma CancelledControlIsHarmless(o: Options, events: seq<Event>, i: nat, r: ControlResult)
    requires o.Valid()
    requires i < |Run(o, events).controls| && Run(o, events).controls[i].cancelled
    ensures
      var s := Run(o, events);
      && SameCourse(s, Step(o, s, ControlSettles(i, r))) && SameCourse(s, Step(o, s, ControlTimesOut(i)))
      && SameCourse(s, Step(o, s, ControlReturns(i))) && SameCourse(s, Step(o, s, CallerContinues(i)))
  {
    hide Run;
    RunKeeps(o, events);
    var s := Run(o, events);
    At(s.controls, i, s.epoch, s.log);
    hide Inv, Step;
    MuteChangesNothing(o, s, i);
    SettlingChangesNothing(o, s, i, r);
  }
}
