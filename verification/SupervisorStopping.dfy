/**
 * Whether the supervisor can still become ready while dispose() is under way: that depends on results which were
 * returned before dispose() was called and which their callers have yet to see.
 */
module SupervisorStopping {
  import opened Prelude
  import opened Supervisor
  import opened SupervisorSafety
  import opened SupervisorControls

  /** The control returned a result for the live generation, and its caller has not gone on yet. */
  predicate LateResult(o: Options, s: State, c: Control) {
    && c.phase.Returned? && c.phase.result.Some? && s.Current(c.generation)
    && (c.operation.Establish? || (c.operation.Heartbeat? && o.heartbeatThreshold.Some?))
  }

  /**
   * A late result that makes its caller set `ready`: an acceptance, or a failed heartbeat below the threshold. A
   * pending start() can clear the failure count before the caller goes on.
   */
  predicate LateReady(o: Options, s: State, c: Control) {
    && LateResult(o, s, c)
    && (|| c.phase.result.value.Accepted?
        || (&& c.operation.Heartbeat?
            && (s.failures + 1 < o.heartbeatThreshold.value || (s.starting && 1 < o.heartbeatThreshold.value))))
  }

  predicate Quiet(o: Options, s: State) {
    forall i | 0 <= i < |s.controls| :: !LateReady(o, s, s.controls[i])
  }

  predicate NothingLate(o: Options, s: State) {
    forall i | 0 <= i < |s.controls| :: !LateResult(o, s, s.controls[i])
  }

  /** In some continuation of a dispose() the supervisor is ready on a lost connection. */
  ghost predicate CanBeReady(o: Options, events: seq<Event>) {
    exists more :: ReadyAfter(o, events, more)
  }

  ghost predicate ReadyAfter(o: Options, events: seq<Event>, more: seq<Event>) {
    var s := Run(o, events + [DisposeCalled] + more);
    s.stopping && s.state.Ready? && !s.transportConnected
  }

  // ----- What stays so after a quiet dispose -----

  /** dispose() goes on before any control that is still to be started returns to its caller. */
  predicate Passed(s: State)
    requires s.Shaped()
  {
    DisposeDue(s) || s.disposed
  }

  /** A control that can no longer make the supervisor ready; with `idle`, nor schedule a task. */
  predicate Harmless(o: Options, s: State, c: Control, idle: bool)
    requires s.Shaped()
  {
    && c.epoch <= s.epoch && c.generation <= s.generation
    && (c.phase.Waiting? && !c.operation.Shutdown? && c.epoch == s.epoch ==> Passed(s))
    && !LateReady(o, s, c) && (idle ==> !LateResult(o, s, c))
  }

  ghost predicate AllHarmless(o: Options, s: State, idle: bool)
    requires s.Shaped()
  {
    forall i | 0 <= i < |s.controls| :: Harmless(o, s, s.controls[i], idle)
  }

  predicate Still(s: State, idle: bool)
    requires s.Shaped()
  {
    && s.stopping && !s.state.Ready? && s.generation <= s.transportGeneration
    && (s.transportConnected ==> s.transportGeneration > 0) && (idle ==> s.scheduled.None?)
    && (s.shutdown.Some? ==>
          && s.controls[s.shutdown.value].operation.Shutdown?
          && (s.controls[s.shutdown.value].settled.None? ==> s.control == s.shutdown))
  }

  /** Nothing that makes a result late or dangerous comes back. */
  ghost predicate GoesBy(s: State, t: State)
    requires s.Shaped() && t.Shaped()
  {
    && s.epoch <= t.epoch && s.generation <= t.generation
    && (forall g: nat | g <= s.generation :: t.Current(g) ==> s.Current(g))
    && (t.starting ==> s.starting) && (s.failures <= t.failures || s.starting)
    && (Passed(s) ==> Passed(t))
  }

  /** A control keeps its identity, and does not return a result. */
  predicate Fades(c: Control, d: Control) {
    && d.epoch == c.epoch && d.generation == c.generation && d.operation == c.operation
    && (|| d.phase == c.phase || d.phase.Finished? || d.phase == Returned(None)
        || (d.operation.Shutdown? && d.phase.Returned?))
  }

  predicate AllFade(before: seq<Control>, after: seq<Control>) {
    |before| <= |after| && forall i | 0 <= i < |before| :: Fades(before[i], after[i])
  }

  /** Whatever was started meanwhile is overtaken. */
  predicate NewOvertaken(s: State, from: nat)
    requires s.Shaped()
  {
    forall i | from <= i < |s.controls| ::
      && s.controls[i].phase.Waiting? && s.controls[i].epoch <= s.epoch && s.controls[i].generation <= s.generation
      && Passed(s)
  }

  lemma HarmlessLater(o: Options, s: State, t: State, c: Control, d: Control, idle: bool)
    requires s.Shaped() && t.Shaped() && Harmless(o, s, c, idle) && GoesBy(s, t) && Fades(c, d)
    ensures Harmless(o, t, d, idle)
  {
    hide Passed;
  }

  lemma AllLater(o: Options, s: State, t: State, idle: bool)
    requires s.Shaped() && t.Shaped() && AllHarmless(o, s, idle) && GoesBy(s, t)
    requires AllFade(s.controls, t.controls) && NewOvertaken(t, |s.controls|)
    ensures AllHarmless(o, t, idle)
  {
    hide GoesBy, Fades, Harmless, Passed;
    forall i | 0 <= i < |t.controls| ensures Harmless(o, t, t.controls[i], idle) {
      if i < |s.controls| {
        assert Harmless(o, s, s.controls[i], idle) && Fades(s.controls[i], t.controls[i]);
        HarmlessLater(o, s, t, s.controls[i], t.controls[i], idle);
      } else {
        NewIsHarmless(o, t, i, idle);
      }
    }
  }

  lemma NewIsHarmless(o: Options, t: State, i: nat, idle: bool)
    requires t.Shaped() && i < |t.controls|
    requires t.controls[i].phase.Waiting? && t.controls[i].epoch <= t.epoch && t.controls[i].generation <= t.generation
    requires Passed(t)
    ensures Harmless(o, t, t.controls[i], idle)
  {
  }

  lemma SameFade(controls: seq<Control>)
    ensures AllFade(controls, controls)
  {
  }

  lemma OneFades(controls: seq<Control>, i: nat, d: Control)
    requires i < |controls| && Fades(controls[i], d)
    ensures AllFade(controls, controls[i := d])
  {
  }

  lemma CancelFades(controls: seq<Control>, control: Option<nat>)
    requires control.Some? ==> control.value < |controls|
    ensures AllFade(controls, CancelControl(controls, control))
  {
  }

  lemma FadeAndAppend(a: seq<Control>, b: seq<Control>, c: Control)
    requires AllFade(a, b)
    ensures AllFade(a, b + [c])
  {
    hide Fades;
  }

  /** Starting a control cancels a shutdown that is still awaited, so that dispose() is due. */
  lemma StartedIsOvertaken(s: State, operation: Operation, g: nat, activates: bool)
    requires s.Shaped() && s.stopping && g <= s.generation
    requires s.shutdown.Some? && s.controls[s.shutdown.value].settled.None? ==> s.control == s.shutdown
    ensures
      var t := RunControl(s, operation, g, activates);
      && Passed(t) && AllFade(s.controls, t.controls) && NewOvertaken(t, |s.controls|)
      && (t.shutdown.Some? ==> t.controls[t.shutdown.value].settled.Some?)
  {
    CancelFades(s.controls, s.control);
    var cancelled := CancelControl(s.controls, s.control);
    FadeAndAppend(s.controls, cancelled, Control(operation, g, s.epoch + 1, None, false, Waiting, activates));
    hide AllFade;
  }

  lemma IdleFades(s: State)
    requires s.Shaped() && s.stopping
    requires s.shutdown.Some? && s.controls[s.shutdown.value].settled.None? ==> s.control == s.shutdown
    ensures
      var t := InvalidateWork(s);
      && AllFade(s.controls, t.controls) && Passed(t)
      && (t.shutdown.Some? ==> t.controls[t.shutdown.value].settled.Some?)
  {
    CancelFades(s.controls, s.control);
    hide AllFade;
  }

  lemma FadesOn(a: seq<Control>, b: seq<Control>, c: seq<Control>)
    requires AllFade(a, b) && AllFade(b, c) && |b| == |a|
    ensures AllFade(a, c)
  {
    forall i | 0 <= i < |a| ensures Fades(a[i], c[i]) {
      assert Fades(a[i], b[i]) && Fades(b[i], c[i]);
    }
  }

  /** A start() that resumes while dispose() is under way. */
  lemma ResumeStill(o: Options, s: State, failed: bool, idle: bool)
    requires s.Shaped() && Still(s, idle) && AllHarmless(o, s, idle)
    ensures Still(ResumeStart(s, failed), idle) && AllHarmless(o, ResumeStart(s, failed), idle)
  {
    var t := ResumeStart(s, failed);
    SameFade(s.controls);
    var u := s.(starting := false);
    var g := s.transportGeneration;
    if !s.starting || failed || !s.transportConnected || t == u {
      hide AllHarmless, AllFade, ActivateGeneration;
      AllLater(o, s, t, idle);
    } else {
      IdleFades(u);
      var quiet := InvalidateWork(u).(
        state := Establishing, generation := g, failures := 0, log := s.log + [Activated(g)]);
      StartedIsOvertaken(quiet, Establish, g, true);
      FadesOn(s.controls, quiet.controls, t.controls);
      hide AllHarmless, AllFade, CancelControl, NewOvertaken;
      assert t == RunControl(quiet, Establish, g, true).(activation := Some(|quiet.controls|));
      assert NewOvertaken(t, |s.controls|) by {
        NewByActivation(RunControl(quiet, Establish, g, true), |s.controls|, t);
      }
      AllLater(o, s, t, idle);
    }
  }

  lemma NewByActivation(r: State, from: nat, t: State)
    requires r.Shaped() && t.Shaped() && NewOvertaken(r, from) && t == r.(activation := t.activation)
    ensures NewOvertaken(t, from)
  {
  }

  lemma FireStill(o: Options, s: State, idle: bool)
    requires s.Shaped() && Still(s, idle) && AllHarmless(o, s, idle)
    ensures Still(FireTask(o, s), idle) && AllHarmless(o, FireTask(o, s), idle)
  {
    var r := FireTask(o, s);
    SameFade(s.controls);
    if s.scheduled.None? || r == s.(scheduled := None) {
      hide AllHarmless, AllFade;
      AllLater(o, s, r, idle);
    } else {
      var task, t := s.scheduled.value, s.(scheduled := None);
      var g := task.generation;
      if task.RetryTask? {
        var u := Transition(t, Establishing, t.failures);
        StartedIsOvertaken(u, Establish, g, false);
        NewByActivation(RunControl(u, Establish, g, false), |s.controls|, r);
      } else {
        StartedIsOvertaken(t, Heartbeat, g, false);
      }
      hide AllHarmless, AllFade, CancelControl, NewOvertaken;
      AllLater(o, s, r, idle);
    }
  }

  lemma ProceedStill(o: Options, s: State, idle: bool)
    requires s.Shaped() && Still(s, idle) && AllHarmless(o, s, idle)
    ensures Still(ProceedDispose(s), idle) && AllHarmless(o, ProceedDispose(s), idle)
  {
    var t := ProceedDispose(s);
    SameFade(s.controls);
    if t != s {
      IdleFades(s.(running := false, disposed := true));
    }
    hide AllHarmless, AllFade, CancelControl;
    AllLater(o, s, t, idle);
  }

  lemma SettleStill(o: Options, s: State, i: nat, r: ControlResult, idle: bool)
    requires s.Shaped() && Still(s, idle) && AllHarmless(o, s, idle) && i < |s.controls|
    ensures Still(Settle(s, i, r), idle) && AllHarmless(o, Settle(s, i, r), idle)
  {
    var t := Settle(s, i, r);
    SameFade(s.controls);
    if s.controls[i].settled.None? {
      OneFades(s.controls, i, s.controls[i].(settled := Some(r)));
    }
    hide AllHarmless, AllFade;
    AllLater(o, s, t, idle);
  }

  /** Only a shutdown can still return a result. */
  lemma ReturnStill(o: Options, s: State, i: nat, idle: bool)
    requires s.Shaped() && Still(s, idle) && AllHarmless(o, s, idle)
    requires i < |s.controls| && s.controls[i].phase.Waiting? && s.controls[i].settled.Some? && !Overtaken(s, i)
    ensures Still(ReturnControl(s, i), idle) && AllHarmless(o, ReturnControl(s, i), idle)
  {
    var t := ReturnControl(s, i);
    assert Harmless(o, s, s.controls[i], idle);
    OneFades(s.controls, i, t.controls[i]);
    hide AllHarmless, AllFade;
    AllLater(o, s, t, idle);
  }

  lemma CallerStill(o: Options, s: State, i: nat, idle: bool)
    requires s.Shaped() && Still(s, idle) && AllHarmless(o, s, idle)
    requires i < |s.controls| && s.controls[i].phase.Returned?
    ensures Still(Continue(o, s, i), idle) && AllHarmless(o, Continue(o, s, i), idle)
  {
    var t := Continue(o, s, i);
    assert Harmless(o, s, s.controls[i], idle);
    OneFades(s.controls, i, s.controls[i].(phase := Finished));
    hide AllHarmless, AllFade;
    AllLater(o, s, t, idle);
  }

  /** Events that the supervisor ignores while it is stopping, or that touch no control. */
  lemma OthersStill(o: Options, s: State, e: Event, idle: bool)
    requires s.Shaped() && Still(s, idle) && AllHarmless(o, s, idle)
    requires e.TransportConnecting? || e.TransportConnected? || e.TransportDisconnected? || e.DisposeFinishes?
             || e.ActivationSettles?
    ensures Still(Step(o, s, e), idle) && AllHarmless(o, Step(o, s, e), idle)
  {
    SameFade(s.controls);
    hide AllHarmless, AllFade, ActivateGeneration, InvalidateWork;
    AllLater(o, s, Step(o, s, e), idle);
  }

  lemma StillStep(o: Options, s: State, e: Event, idle: bool)
    requires s.Shaped() && Still(s, idle) && AllHarmless(o, s, idle)
    ensures Still(Step(o, s, e), idle) && AllHarmless(o, Step(o, s, e), idle)
  {
    hide Still, AllHarmless, Continue, ProceedDispose, Settle, ReturnControl, FireTask, ResumeStart, Overtaken;
    assert s.stopping by { StillStops(s, idle); }
    match e
    case StartResumes(failed) => ResumeStill(o, s, failed, idle);
    case DisposeProceeds => ProceedStill(o, s, idle);
    case ControlSettles(i, r) => if InPhase(s, i, true) { SettleStill(o, s, i, r, idle); }
    case ControlTimesOut(i) => if InPhase(s, i, true) { SettleStill(o, s, i, Rejected, idle); }
    case ControlReturns(i) =>
      if InPhase(s, i, true) && s.controls[i].settled.Some? && !Overtaken(s, i) { ReturnStill(o, s, i, idle); }
    case CallerContinues(i) => if InPhase(s, i, false) { CallerStill(o, s, i, idle); }
    case TaskFires => FireStill(o, s, idle);
    case StartCalled =>
    case DisposeCalled =>
    case _ => OthersStill(o, s, e, idle);
  }

  lemma StillStops(s: State, idle: bool)
    requires s.Shaped() && Still(s, idle)
    ensures s.stopping && !s.state.Ready? && (idle ==> s.scheduled.None?)
  {
  }

  lemma {:induction false} StillFrom(o: Options, s: State, more: seq<Event>, idle: bool)
    requires s.Shaped() && Still(s, idle) && AllHarmless(o, s, idle)
    ensures Still(RunFrom(o, s, more), idle)
    decreases |more|
  {
    hide Step, AllHarmless, Still;
    if more != [] {
      StillStep(o, s, more[0], idle);
      StillFrom(o, Step(o, s, more[0]), more[1..], idle);
    }
  }

  // ----- The generations of controls -----

  predicate AtMost(controls: seq<Control>, g: nat) {
    forall i | 0 <= i < |controls| :: controls[i].generation <= g
  }

  predicate NoFuture(s: State) {
    AtMost(s.controls, s.generation)
  }

  lemma CancelAtMost(controls: seq<Control>, control: Option<nat>, g: nat, h: nat)
    requires (control.Some? ==> control.value < |controls|) && AtMost(controls, g) && g <= h
    ensures AtMost(CancelControl(controls, control), h)
  {
  }

  lemma AppendAtMost(controls: seq<Control>, c: Control, g: nat)
    requires AtMost(controls, g) && c.generation <= g
    ensures AtMost(controls + [c], g)
  {
  }

  lemma InvalidateAtMost(s: State, h: nat)
    requires s.Shaped() && NoFuture(s) && s.generation <= h
    ensures AtMost(InvalidateWork(s).controls, h)
  {
    CancelAtMost(s.controls, s.control, s.generation, h);
  }

  lemma RunControlAtMost(s: State, operation: Operation, g: nat, activates: bool)
    requires s.Shaped() && NoFuture(s) && g <= s.generation
    ensures NoFuture(RunControl(s, operation, g, activates))
  {
    CancelAtMost(s.controls, s.control, s.generation, s.generation);
    AppendAtMost(CancelControl(s.controls, s.control),
                 Control(operation, g, s.epoch + 1, None, false, Waiting, activates), s.generation);
    hide AtMost, CancelControl;
  }

  lemma FireNoFuture(o: Options, s: State)
    requires s.Shaped() && NoFuture(s)
    ensures NoFuture(FireTask(o, s))
  {
    hide AtMost;
    if s.scheduled.Some? && s.scheduled.value.generation <= s.generation {
      var t := s.(scheduled := None);
      RunControlAtMost(t, Heartbeat, s.scheduled.value.generation, false);
      RunControlAtMost(Transition(t, Establishing, t.failures), Establish, s.scheduled.value.generation, false);
    }
    hide RunControl;
  }

  lemma DisposeNoFuture(o: Options, s: State)
    requires s.Shaped() && NoFuture(s)
    ensures NoFuture(BeginDispose(o, s)) && NoFuture(ProceedDispose(s)) && NoFuture(HandleDisconnect(s))
  {
    InvalidateAtMost(s, s.generation);
    hide AtMost, CancelControl;
    var idle := InvalidateWork(Transition(s, Stopping, s.failures).(stopping := true));
    RunControlAtMost(idle, Shutdown, idle.generation, false);
  }

  lemma ActivateNoFuture(s: State, g: nat)
    requires s.Shaped() && NoFuture(s) && s.generation <= g
    ensures NoFuture(ActivateGeneration(s, g))
  {
    InvalidateAtMost(s, g);
    hide AtMost, CancelControl;
    var quiet := InvalidateWork(s);
    var idle := quiet.(state := Establishing, generation := g, failures := 0, log := s.log + [Activated(g)]);
    RunControlAtMost(idle, Establish, g, true);
  }

  lemma ContinueNoFuture(o: Options, s: State, i: nat)
    requires s.Shaped() && NoFuture(s) && i < |s.controls| && s.controls[i].phase.Returned?
    ensures NoFuture(Continue(o, s, i))
  {
    assert AtMost(s.controls[i := s.controls[i].(phase := Finished)], s.generation);
    hide AtMost;
  }

  lemma ControlNoFuture(s: State, i: nat, r: ControlResult)
    requires s.Shaped() && NoFuture(s) && i < |s.controls|
    ensures NoFuture(Settle(s, i, r)) && (s.controls[i].settled.Some? ==> NoFuture(ReturnControl(s, i)))
  {
  }

  lemma StepNoFuture(o: Options, s: State, e: Event)
    requires s.Shaped() && Inv(o, s) && NoFuture(s)
    ensures NoFuture(Step(o, s, e))
  {
    assert s.generation <= s.transportGeneration;
    hide Inv, NoFuture, ActivateGeneration, Continue, FireTask, BeginDispose, ProceedDispose, HandleDisconnect, Settle,
      ReturnControl, Overtaken;
    SameNoFuture(s, Step(o, s, e));
    match e
    case StartResumes(_) =>
      SameNoFuture(s, s.(starting := false));
      ActivateNoFuture(s.(starting := false), s.transportGeneration);
    case DisposeCalled => DisposeNoFuture(o, s);
    case DisposeProceeds => DisposeNoFuture(o, s);
    case TransportConnected =>
      var g := s.transportGeneration + 1;
      SameNoFuture(s, s.(transportGeneration := g, transportConnected := true));
      ActivateNoFuture(s.(transportGeneration := g, transportConnected := true), g);
    case TransportDisconnected =>
      var t := s.(transportConnected := false, log := s.log + [DisconnectDelivered]);
      SameNoFuture(s, t);
      DisposeNoFuture(o, t);
    case ControlSettles(i, r) => if InPhase(s, i, true) { ControlNoFuture(s, i, r); }
    case ControlTimesOut(i) => if InPhase(s, i, true) { ControlNoFuture(s, i, Rejected); }
    case ControlReturns(i) => if InPhase(s, i, true) { ControlNoFuture(s, i, Rejected); }
    case CallerContinues(i) => if InPhase(s, i, false) { ContinueNoFuture(o, s, i); }
    case TaskFires => FireNoFuture(o, s);
    case _ =>
  }

  lemma SameNoFuture(s: State, t: State)
    requires NoFuture(s)
    ensures t.controls == s.controls && t.generation == s.generation ==> NoFuture(t)
  {
  }

  lemma {:induction false} RunNoFuture(o: Options, events: seq<Event>)
    requires o.Valid()
    ensures NoFuture(Run(o, events))
    decreases |events|
  {
    hide Step, Inv, NoFuture;
    if events == [] {
      assert NoFuture(INITIAL) by { EmptyNoFuture(); }
    } else {
      RunNoFuture(o, events[..|events| - 1]);
      RunKeeps(o, events[..|events| - 1]);
      StepNoFuture(o, Run(o, events[..|events| - 1]), events[|events| - 1]);
    }
  }

  lemma EmptyNoFuture()
    ensures NoFuture(INITIAL)
  {
  }

  // ----- Main results -----

  /** A quiet dispose leaves only controls of earlier epochs behind, and its own shutdown. */
  lemma DisposeIsStill(o: Options, s: State, idle: bool)
    requires s.Shaped() && Inv(o, s) && NoFuture(s) && !s.stopping && Quiet(o, s) && (idle ==> NothingLate(o, s))
    ensures Still(BeginDispose(o, s), idle) && AllHarmless(o, BeginDispose(o, s), idle)
  {
    var t := BeginDispose(o, s);
    forall i | 0 <= i < |t.controls| ensures Harmless(o, t, t.controls[i], idle) {
      if i < |s.controls| {
        At(s.controls, i, s.epoch, s.log);
        assert !LateReady(o, s, s.controls[i]);
        assert idle ==> !LateResult(o, s, s.controls[i]);
      }
    }
  }

  /**
   * When dispose() is called and no late result makes the supervisor ready, it is never ready again; with no late
   * result at all, no task is scheduled any more either. A pending start() makes no difference.
   */
  lemma NeverReadyWhileStopping(o: Options, events: seq<Event>, more: seq<Event>)
    requires o.Valid() && !Run(o, events).stopping && Quiet(o, Run(o, events))
    ensures
      var t := Run(o, events + [DisposeCalled] + more);
      t.stopping && !t.state.Ready? && (NothingLate(o, Run(o, events)) ==> t.scheduled.None?)
  {
    var s := Run(o, events);
    var idle := NothingLate(o, s);
    RunKeeps(o, events);
    RunNoFuture(o, events);
    assert Run(o, events + [DisposeCalled]) == BeginDispose(o, s) by { RunAppend(o, events, DisposeCalled); }
    hide Run, BeginDispose, RunFrom;
    DisposeIsStill(o, s, idle);
    RunContinues(o, events + [DisposeCalled], more);
    StillFrom(o, BeginDispose(o, s), more, idle);
  }

  lemma RunAppend(o: Options, events: seq<Event>, e: Event)
    ensures Run(o, events + [e]) == Step(o, Run(o, events), e)
  {
    assert (events + [e])[..|events|] == events;
  }

  ghost predicate GetsReady(o: Options, s: State)
    requires s.Shaped()
  {
    exists more {:trigger RunFrom(o, s, more)} ::
      var t := RunFrom(o, s, more);
      t.stopping && t.state.Ready? && !t.transportConnected
  }

  /** One event nearer. */
  lemma GetsReadyBefore(o: Options, s: State, e: Event)
    requires s.Shaped() && GetsReady(o, Step(o, s, e))
    ensures GetsReady(o, s)
  {
    hide Step;
    var more :| var t := RunFrom(o, Step(o, s, e), more); t.stopping && t.state.Ready? && !t.transportConnected;
    assert ([e] + more)[1..] == more;
    assert RunFrom(o, s, [e] + more) == RunFrom(o, Step(o, s, e), more);
  }

  /** Ready while stopping survives the loss of the connection, because the supervisor no longer listens. */
  lemma ReadyThenLost(o: Options, s: State)
    requires s.Shaped() && s.stopping && s.state.Ready?
    ensures GetsReady(o, s)
  {
    var t := Step(o, s, TransportDisconnected);
    assert t.stopping && t.state.Ready? && !t.transportConnected;
    hide Step;
    assert RunFrom(o, t, []) == t;
    GetsReadyBefore(o, s, TransportDisconnected);
  }

  /** The caller goes on with a result that makes the supervisor ready at once. */
  lemma CallerGetsReady(o: Options, s: State, i: nat)
    requires s.Shaped() && s.stopping && i < |s.controls| && LateResult(o, s, s.controls[i])
    requires s.controls[i].phase.result.value.Accepted?
             || (s.controls[i].operation.Heartbeat? && s.failures + 1 < o.heartbeatThreshold.value)
    ensures GetsReady(o, s)
  {
    hide GetsReady;
    var t := Step(o, s, CallerContinues(i));
    assert t == Continue(o, s, i) && t.stopping && t.state.Ready?;
    hide Step;
    ReadyThenLost(o, t);
    GetsReadyBefore(o, s, CallerContinues(i));
  }

  /** A start() that resumes first activates the generation anew and clears the failure count. */
  lemma StartClearsFailures(o: Options, s: State, i: nat)
    requires s.Shaped() && s.stopping && s.starting && s.activation.None? && s.transportGeneration > 0
    requires i < |s.controls| && LateResult(o, s, s.controls[i])
    ensures
      var t := Step(o, s, StartResumes(false));
      && t.stopping && t.failures == 0 && i < |t.controls| && LateResult(o, t, t.controls[i])
      && t.controls[i].phase == s.controls[i].phase && t.controls[i].operation == s.controls[i].operation
  {
  }

  lemma LateReadyGetsReady(o: Options, s: State, i: nat)
    requires s.Shaped() && s.stopping && s.activation.None? && i < |s.controls| && LateReady(o, s, s.controls[i])
    requires s.transportConnected ==> s.transportGeneration > 0
    ensures GetsReady(o, s)
  {
    hide GetsReady, Step;
    if s.controls[i].phase.result.value.Accepted? || s.failures + 1 < o.heartbeatThreshold.value {
      CallerGetsReady(o, s, i);
    } else {
      StartClearsFailures(o, s, i);
      CallerGetsReady(o, Step(o, s, StartResumes(false)), i);
      GetsReadyBefore(o, s, StartResumes(false));
    }
  }

  /** dispose() does not touch what can make the supervisor ready later. */
  lemma DisposeKeepsWhatIsLate(o: Options, s: State)
    requires s.Shaped() && !s.stopping && !s.disposed
    ensures
      var t := BeginDispose(o, s);
      && t.stopping && t.activation.None? && |s.controls| <= |t.controls|
      && t.transportGeneration == s.transportGeneration && t.transportConnected == s.transportConnected
      && forall i | 0 <= i < |s.controls| :: LateReady(o, s, s.controls[i]) ==> LateReady(o, t, t.controls[i])
  {
  }

  /**
   * From every state that is not quiet, a dispose() can be followed by a run in which the supervisor becomes ready
   * while stopping and stays so after the transport has disconnected.
   */
  lemma ReadyAfterDisconnectWhileStopping(o: Options, events: seq<Event>)
    requires o.Valid() && !Run(o, events).stopping && !Quiet(o, Run(o, events))
    ensures CanBeReady(o, events)
  {
    var s := Run(o, events);
    RunKeeps(o, events);
    assert Run(o, events + [DisposeCalled]) == BeginDispose(o, s) by { RunAppend(o, events, DisposeCalled); }
    DisposeKeepsWhatIsLate(o, s);
    var t := BeginDispose(o, s);
    hide Run, BeginDispose, RunFrom, LateReady, GetsReady;
    var i :| 0 <= i < |s.controls| && LateReady(o, s, s.controls[i]);
    LateReadyGetsReady(o, t, i);
    GetsReadyIsReached(o, events, t);
  }

  lemma GetsReadyIsReached(o: Options, events: seq<Event>, t: State)
    requires t.Shaped() && t == Run(o, events + [DisposeCalled]) && GetsReady(o, t)
    ensures CanBeReady(o, events)
  {
    hide Run, RunFrom;
    var more :| var u := RunFrom(o, t, more); u.stopping && u.state.Ready? && !u.transportConnected;
    RunContinues(o, events + [DisposeCalled], more);
    assert ReadyAfter(o, events, more);
  }

  /**
   * Both directions: dispose() can be followed by a ready supervisor if and only if it is not called in a quiet
   * state.
   */
  lemma ReadyWhileStoppingIff(o: Options, events: seq<Event>)
    requires o.Valid() && !Run(o, events).stopping
    ensures CanBeReady(o, events) <==> !Quiet(o, Run(o, events))
  {
    hide Run, Quiet;
    if Quiet(o, Run(o, events)) {
      forall more ensures !ReadyAfter(o, events, more) {
        NeverReadyWhileStopping(o, events, more);
      }
    } else {
      ReadyAfterDisconnectWhileStopping(o, events);
    }
  }
}
