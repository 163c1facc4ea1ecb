/** What `ready` means, over all runs of the host session supervisor. */
module SupervisorSafety {
  import opened Prelude
  import opened Supervisor

  /** An establish was accepted for this generation, and no disconnect was delivered since. */
  predicate Earned(log: seq<Entry>, g: nat) {
    log != [] &&
    var last := log[|log| - 1];
    last == EstablishAccepted(g) || (!last.DisconnectDelivered? && Earned(log[..|log| - 1], g))
  }

  lemma {:induction false} EarnedMeans(log: seq<Entry>, g: nat) returns (p: nat)
    requires Earned(log, g)
    ensures p < |log| && log[p] == EstablishAccepted(g) && forall q | p < q < |log| :: !log[q].DisconnectDelivered?
    decreases |log|
  {
    var n := |log| - 1;
    if log[n] == EstablishAccepted(g) {
      p := n;
    } else {
      p := EarnedMeans(log[..n], g);
    }
  }

  /** The heartbeats that failed in a row, up to now; an activation, an accepted establish or heartbeat ends a row. */
  function FailedInARow(log: seq<Entry>): nat {
    if log == [] then 0
    else
      var before := FailedInARow(log[..|log| - 1]);
      match log[|log| - 1]
      case HeartbeatAnswered(accepted) => if accepted then 0 else before + 1
      case DisconnectDelivered => before
      case _ => 0
  }

  /** Few enough heartbeats in a row have failed. */
  predicate FewFailures(o: Options, failures: nat) {
    if o.heartbeatThreshold.Some? then failures < o.heartbeatThreshold.value else failures == 0
  }

  ghost predicate LogOk(s: State) {
    && s.generation <= s.transportGeneration
    && (s.transportConnected ==> s.transportGeneration > 0)
    && (forall g: nat :: EstablishAccepted(g) in s.log ==> g <= s.transportGeneration)
    && (s.transportConnected && EstablishAccepted(s.transportGeneration) in s.log
        ==> Earned(s.log, s.transportGeneration))
  }

  /**
   * A cancelled control belongs to an earlier epoch and never returns a result; heartbeats only run for a generation
   * whose establish was accepted.
   */
  predicate ControlOk(c: Control, epoch: nat, log: seq<Entry>) {
    && c.epoch <= epoch
    && (!c.phase.Waiting? ==> c.settled.Some?)
    && (c.cancelled ==> c.epoch < epoch && (c.phase.Returned? ==> c.phase.result.None?))
    && (c.operation.Heartbeat? ==> EstablishAccepted(c.generation) in log)
  }

  ghost predicate ControlsOk(controls: seq<Control>, epoch: nat, log: seq<Entry>) {
    forall i | 0 <= i < |controls| :: ControlOk(controls[i], epoch, log)
  }

  predicate TaskOk(s: State) {
    s.scheduled.Some? && s.scheduled.value.HeartbeatTask? ==> EstablishAccepted(s.scheduled.value.generation) in s.log
  }

  predicate ReadyOk(o: Options, s: State) {
    && (s.disposed ==> s.stopping && !s.running)
    && (s.shutdown.Some? ==> s.stopping)
    && (s.state.Ready? && !s.stopping ==>
          s.Current(s.generation) && EstablishAccepted(s.generation) in s.log && FewFailures(o, s.failures))
  }

  ghost predicate Inv(o: Options, s: State) {
    LogOk(s) && TaskOk(s) && ControlsOk(s.controls, s.epoch, s.log) && ReadyOk(o, s)
  }

  // ----- Controls -----

  /** Epochs go up and the log grows. */
  lemma Later(controls: seq<Control>, epoch: nat, log: seq<Entry>, epochLater: nat, logLater: seq<Entry>)
    requires ControlsOk(controls, epoch, log) && epoch <= epochLater && log <= logLater
    ensures ControlsOk(controls, epochLater, logLater)
  {
    forall i | 0 <= i < |controls| ensures ControlOk(controls[i], epochLater, logLater) {
      assert ControlOk(controls[i], epoch, log);
    }
  }

  lemma Replaced(controls: seq<Control>, i: nat, c: Control, epoch: nat, log: seq<Entry>)
    requires ControlsOk(controls, epoch, log) && i < |controls| && ControlOk(c, epoch, log)
    ensures ControlsOk(controls[i := c], epoch, log)
  {
  }

  lemma At(controls: seq<Control>, i: nat, epoch: nat, log: seq<Entry>)
    requires ControlsOk(controls, epoch, log) && i < |controls|
    ensures ControlOk(controls[i], epoch, log)
  {
  }

  lemma CancelKeeps(s: State)
    requires s.Shaped() && ControlsOk(s.controls, s.epoch, s.log)
    ensures ControlsOk(CancelControl(s.controls, s.control), s.epoch + 1, s.log)
  {
    Later(s.controls, s.epoch, s.log, s.epoch + 1, s.log);
    if s.control.Some? {
      var c := s.controls[s.control.value];
      At(s.controls, s.control.value, s.epoch, s.log);
      hide ControlsOk;
      if c.settled.None? {
        Replaced(s.controls, s.control.value, c.(settled := Some(Rejected), cancelled := true), s.epoch + 1, s.log);
      }
    }
  }

  lemma InvalidateKeeps(s: State)
    requires s.Shaped() && ControlsOk(s.controls, s.epoch, s.log)
    ensures ControlsOk(InvalidateWork(s).controls, s.epoch + 1, s.log)
  {
    CancelKeeps(s);
  }

  lemma RunControlKeeps(s: State, operation: Operation, g: nat, activates: bool)
    requires s.Shaped() && ControlsOk(s.controls, s.epoch, s.log)
    requires operation.Heartbeat? ==> EstablishAccepted(g) in s.log
    ensures ControlsOk(RunControl(s, operation, g, activates).controls, s.epoch + 1, s.log)
  {
    CancelKeeps(s);
    hide ControlsOk;
    Appended(CancelControl(s.controls, s.control),
             Control(operation, g, s.epoch + 1, None, false, Waiting, activates), s.epoch + 1, s.log);
  }

  lemma Appended(controls: seq<Control>, c: Control, epoch: nat, log: seq<Entry>)
    requires ControlsOk(controls, epoch, log) && ControlOk(c, epoch, log)
    ensures ControlsOk(controls + [c], epoch, log)
  {
  }

  // ----- Each event -----

  lemma ActivateKeeps(o: Options, s: State, g: nat)
    requires s.Shaped() && ControlsOk(s.controls, s.epoch, s.log)
    ensures
      var t := ActivateGeneration(s, g);
      && ControlsOk(t.controls, t.epoch, t.log)
      && (t == s || t == s.(state := Establishing, generation := g, failures := 0, controls := t.controls,
                            epoch := t.epoch, control := t.control, scheduled := None, activation := t.activation,
                            log := s.log + [Activated(g)]))
      && (s.running && g > 0 && s.generation != g ==> t.state.Establishing?)
  {
    Later(s.controls, s.epoch, s.log, s.epoch, s.log + [Activated(g)]);
    hide ControlsOk, CancelControl;
    InvalidateKeeps(s.(log := s.log + [Activated(g)]));
    var idle := InvalidateWork(s).(
      state := Establishing, generation := g, failures := 0, log := s.log + [Activated(g)]);
    RunControlKeeps(idle, Establish, g, true);
  }

  lemma DisconnectKeeps(o: Options, s: State)
    requires s.Shaped() && Inv(o, s)
    ensures Inv(o, HandleDisconnect(s.(transportConnected := false, log := s.log + [DisconnectDelivered])))
  {
    var t := s.(transportConnected := false, log := s.log + [DisconnectDelivered]);
    Later(s.controls, s.epoch, s.log, s.epoch, t.log);
    InvalidateKeeps(t);
    hide ControlsOk, CancelControl;
  }

  lemma ConnectedKeeps(o: Options, s: State)
    requires s.Shaped() && Inv(o, s)
    ensures
      var g := s.transportGeneration + 1;
      Inv(o, HandleConnected(s.(transportGeneration := g, transportConnected := true), g))
  {
    hide ControlsOk, ActivateGeneration, Earned;
    var g := s.transportGeneration + 1;
    var t := s.(transportGeneration := g, transportConnected := true);
    ActivateKeeps(o, t, g);
    assert EstablishAccepted(g) !in s.log;
    LogGrows(t, Activated(g));
  }

  lemma ResumeKeeps(o: Options, s: State, failed: bool)
    requires s.Shaped() && Inv(o, s)
    ensures Inv(o, ResumeStart(s, failed))
  {
    hide ControlsOk, ActivateGeneration, Earned;
    var t := s.(starting := false);
    ActivateKeeps(o, t, t.transportGeneration);
    LogGrows(t, Activated(t.transportGeneration));
  }

  lemma ReturnKeeps(o: Options, s: State, i: nat)
    requires s.Shaped() && Inv(o, s) && i < |s.controls| && s.controls[i].settled.Some?
    ensures Inv(o, ReturnControl(s, i))
  {
    At(s.controls, i, s.epoch, s.log);
    hide ControlsOk;
    var t := ReturnControl(s, i);
    Replaced(s.controls, i, t.controls[i], s.epoch, s.log);
  }

  lemma SettleKeeps(o: Options, s: State, i: nat, r: ControlResult)
    requires s.Shaped() && Inv(o, s) && i < |s.controls|
    ensures Inv(o, Settle(s, i, r))
  {
    At(s.controls, i, s.epoch, s.log);
    hide ControlsOk;
    Replaced(s.controls, i, s.controls[i].(settled := Some(r)), s.epoch, s.log);
  }

  lemma EarnedAppend(log: seq<Entry>, e: Entry, g: nat)
    requires !e.DisconnectDelivered?
    ensures Earned(log + [e], g) <==> e == EstablishAccepted(g) || Earned(log, g)
  {
    assert (log + [e])[..|log|] == log;
  }

  lemma LogGrows(s: State, e: Entry)
    requires LogOk(s) && (e.Activated? || e.HeartbeatAnswered?)
    ensures LogOk(s.(log := s.log + [e]))
  {
    EarnedAppend(s.log, e, s.transportGeneration);
    hide Earned;
  }

  lemma EstablishKeeps(o: Options, s: State, g: nat, r: ControlResult)
    requires o.Valid() && s.Shaped() && Inv(o, s) && s.Current(g)
    ensures Inv(o, AfterEstablish(o, s, g, r))
  {
    EarnedAppend(s.log, EstablishAccepted(g), g);
    Later(s.controls, s.epoch, s.log, s.epoch, s.log + [EstablishAccepted(g)]);
    hide ControlsOk, Earned;
  }

  lemma HeartbeatKeeps(o: Options, s: State, g: nat, r: ControlResult)
    requires o.Valid() && o.heartbeatThreshold.Some? && s.Shaped() && Inv(o, s) && s.Current(g)
    requires EstablishAccepted(g) in s.log
    ensures Inv(o, AfterHeartbeat(o, s, g, r))
  {
    var e := HeartbeatAnswered(r.Accepted?);
    LogGrows(s, e);
    Later(s.controls, s.epoch, s.log, s.epoch, s.log + [e]);
    hide ControlsOk, Earned;
  }

  lemma ContinueKeeps(o: Options, s: State, i: nat)
    requires o.Valid() && s.Shaped() && Inv(o, s) && i < |s.controls| && s.controls[i].phase.Returned?
    ensures Inv(o, Continue(o, s, i))
  {
    var c := s.controls[i];
    var t := s.(controls := s.controls[i := c.(phase := Finished)]);
    At(s.controls, i, s.epoch, s.log);
    Replaced(s.controls, i, c.(phase := Finished), s.epoch, s.log);
    hide LogOk, ControlsOk, AfterEstablish, AfterHeartbeat;
    assert LogOk(t) by { SameLog(s, t); }
    if c.phase.result.Some? && s.Current(c.generation) {
      match c.operation
      case Establish => EstablishKeeps(o, t, c.generation, c.phase.result.value);
      case Heartbeat =>
        if o.heartbeatThreshold.Some? { HeartbeatKeeps(o, t, c.generation, c.phase.result.value); }
      case Shutdown =>
    }
  }

  lemma SameLog(s: State, t: State)
    requires LogOk(s) && t.log == s.log && t.generation == s.generation
    requires t.transportGeneration == s.transportGeneration && (t.transportConnected ==> s.transportConnected)
    ensures LogOk(t)
  {
  }

  lemma FireKeeps(o: Options, s: State)
    requires o.Valid() && s.Shaped() && Inv(o, s)
    ensures Inv(o, FireTask(o, s))
  {
    hide ControlsOk, CancelControl, Earned;
    if s.scheduled.Some? {
      var t := s.(scheduled := None);
      var g := s.scheduled.value.generation;
      RunControlKeeps(Transition(t, Establishing, t.failures), Establish, g, false);
      if s.scheduled.value.HeartbeatTask? {
        RunControlKeeps(t, Heartbeat, g, false);
      }
    }
  }

  lemma DisposeKeeps(o: Options, s: State)
    requires s.Shaped() && Inv(o, s)
    ensures Inv(o, BeginDispose(o, s)) && Inv(o, ProceedDispose(s))
  {
    hide ControlsOk, CancelControl, Earned;
    var first := Transition(s, Stopping, s.failures).(stopping := true);
    InvalidateKeeps(first);
    RunControlKeeps(InvalidateWork(first), Shutdown, InvalidateWork(first).generation, false);
    InvalidateKeeps(s.(running := false, disposed := true));
  }

  lemma StepKeeps(o: Options, s: State, e: Event)
    requires o.Valid() && s.Shaped() && Inv(o, s)
    ensures Inv(o, Step(o, s, e))
  {
    hide Earned, ControlsOk, HandleDisconnect, HandleConnected, ReturnControl, Continue, FireTask, BeginDispose,
      ProceedDispose, ResumeStart, Settle;
    match e
    case StartResumes(failed) => ResumeKeeps(o, s, failed);
    case DisposeCalled => DisposeKeeps(o, s);
    case DisposeProceeds => DisposeKeeps(o, s);
    case TransportConnected => ConnectedKeeps(o, s);
    case TransportDisconnected => DisconnectKeeps(o, s);
    case ControlSettles(i, r) => if InPhase(s, i, true) { SettleKeeps(o, s, i, r); }
    case ControlTimesOut(i) => if InPhase(s, i, true) { SettleKeeps(o, s, i, Rejected); }
    case ControlReturns(i) => if InPhase(s, i, true) && s.controls[i].settled.Some? { ReturnKeeps(o, s, i); }
    case CallerContinues(i) => if InPhase(s, i, false) { ContinueKeeps(o, s, i); }
    case TaskFires => FireKeeps(o, s);
    case _ =>
  }

  lemma {:induction false} RunKeeps(o: Options, events: seq<Event>)
    requires o.Valid()
    ensures Inv(o, Run(o, events))
    decreases |events|
  {
    hide Step;
    if events != [] {
      RunKeeps(o, events[..|events| - 1]);
      StepKeeps(o, Run(o, events[..|events| - 1]), events[|events| - 1]);
    }
  }

  // ----- The failure count -----

  lemma RowAppend(log: seq<Entry>, e: Entry)
    ensures FailedInARow(log + [e]) ==
            match e
            case HeartbeatAnswered(accepted) => if accepted then 0 else FailedInARow(log) + 1
            case DisconnectDelivered => FailedInARow(log)
            case _ => 0
  {
    assert (log + [e])[..|log|] == log;
  }

  predicate CountsTheRow(s: State) {
    s.failures == FailedInARow(s.log)
  }

  lemma ActivateCounts(s: State, g: nat)
    requires s.Shaped() && CountsTheRow(s)
    ensures CountsTheRow(ActivateGeneration(s, g))
  {
    RowAppend(s.log, Activated(g));
    hide CancelControl, FailedInARow;
  }

  lemma EstablishCounts(o: Options, s: State, g: nat, r: ControlResult)
    requires CountsTheRow(s)
    ensures CountsTheRow(AfterEstablish(o, s, g, r))
  {
    RowAppend(s.log, EstablishAccepted(g));
    hide FailedInARow;
  }

  lemma HeartbeatCounts(o: Options, s: State, g: nat, r: ControlResult)
    requires o.heartbeatThreshold.Some? && CountsTheRow(s)
    ensures CountsTheRow(AfterHeartbeat(o, s, g, r))
  {
    RowAppend(s.log, HeartbeatAnswered(r.Accepted?));
    hide FailedInARow;
  }

  lemma ContinueCounts(o: Options, s: State, i: nat)
    requires s.Shaped() && CountsTheRow(s) && i < |s.controls| && s.controls[i].phase.Returned?
    ensures CountsTheRow(Continue(o, s, i))
  {
    hide FailedInARow, AfterEstablish, AfterHeartbeat;
    var c, result := s.controls[i], s.controls[i].phase.result;
    var t := s.(controls := s.controls[i := c.(phase := Finished)]);
    if result.Some? {
      EstablishCounts(o, t, c.generation, result.value);
      if o.heartbeatThreshold.Some? {
        HeartbeatCounts(o, t, c.generation, result.value);
      }
    }
  }

  predicate SameCount(s: State, t: State) {
    t.failures == s.failures && t.log == s.log
  }

  lemma TasksCountNothing(o: Options, s: State)
    requires s.Shaped()
    ensures SameCount(s, FireTask(o, s)) && SameCount(s, BeginDispose(o, s)) && SameCount(s, ProceedDispose(s))
  {
    hide CancelControl;
  }

  lemma TransportCountsNothing(s: State)
    requires s.Shaped()
    ensures SameCount(s, HandleDisconnect(s)) && SameCount(s, HandleConnecting(s))
  {
    hide CancelControl;
  }

  lemma ControlCountsNothing(s: State, i: nat, r: ControlResult)
    requires s.Shaped() && i < |s.controls|
    ensures SameCount(s, Settle(s, i, r)) && (s.controls[i].settled.Some? ==> SameCount(s, ReturnControl(s, i)))
  {
  }

  lemma StepCounts(o: Options, s: State, e: Event)
    requires s.Shaped() && CountsTheRow(s)
    ensures CountsTheRow(Step(o, s, e))
  {
    hide CancelControl, FailedInARow, ActivateGeneration, Continue, FireTask, BeginDispose, ProceedDispose,
      HandleDisconnect, HandleConnecting, Settle, ReturnControl;
    match e
    case StartResumes(_) => ActivateCounts(s.(starting := false), s.transportGeneration);
    case DisposeCalled => TasksCountNothing(o, s);
    case DisposeProceeds => TasksCountNothing(o, s);
    case TransportConnecting => TransportCountsNothing(s.(transportConnected := false));
    case TransportConnected =>
      var g := s.transportGeneration + 1;
      ActivateCounts(s.(transportGeneration := g, transportConnected := true), g);
    case TransportDisconnected =>
      RowAppend(s.log, DisconnectDelivered);
      TransportCountsNothing(s.(transportConnected := false, log := s.log + [DisconnectDelivered]));
    case ControlSettles(i, r) => if InPhase(s, i, true) { ControlCountsNothing(s, i, r); }
    case ControlTimesOut(i) => if InPhase(s, i, true) { ControlCountsNothing(s, i, Rejected); }
    case ControlReturns(i) => if InPhase(s, i, true) { ControlCountsNothing(s, i, Rejected); }
    case CallerContinues(i) => if InPhase(s, i, false) { ContinueCounts(o, s, i); }
    case TaskFires => TasksCountNothing(o, s);
    case _ =>
  }

  /** The supervisor's failure count is the number of heartbeats that failed in a row, at any time. */
  lemma {:induction false} FailuresAreCounted(o: Options, events: seq<Event>)
    ensures CountsTheRow(Run(o, events))
    decreases |events|
  {
    hide Step;
    if events != [] {
      FailuresAreCounted(o, events[..|events| - 1]);
      StepCounts(o, Run(o, events[..|events| - 1]), events[|events| - 1]);
    }
  }

  // ----- Main results -----

  /**
   * While the supervisor is not stopping, `ready` means that the transport is connected on the current generation,
   * that an establish was accepted for it with no disconnect delivered since, and that fewer heartbeats in a row
   * failed than the threshold.
   */
  lemma ReadyIsEarned(o: Options, events: seq<Event>)
    requires o.Valid() && Run(o, events).state.Ready? && !Run(o, events).stopping
    ensures
      var s := Run(o, events);
      && s.running && s.transportConnected && s.generation == s.transportGeneration
      && FewFailures(o, FailedInARow(s.log))
      && exists p :: 0 <= p < |s.log| && s.log[p] == EstablishAccepted(s.generation)
                     && forall q | p < q < |s.log| :: !s.log[q].DisconnectDelivered?
  {
    hide Run;
    RunKeeps(o, events);
    FailuresAreCounted(o, events);
    var p := EarnedMeans(Run(o, events).log, Run(o, events).generation);
  }
}
