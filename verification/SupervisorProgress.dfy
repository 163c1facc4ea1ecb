/**
 * What the supervisor does about its session: a connection is established, a result makes ready or is retried, a
 * heartbeat is followed by the next one, and dispose() comes to its end. The results hold from every state.
 */
module SupervisorProgress {
  import opened Prelude
  import opened Supervisor

  /** The events of a run, one after another. */
  function After(o: Options, s: State, events: seq<Event>): (t: State)
    requires s.Shaped()
    ensures t.Shaped()
    decreases |events|
  {
    if events == [] then s else After(o, Step(o, s, events[0]), events[1..])
  }

  lemma AfterOne(o: Options, s: State, e: Event)
    requires s.Shaped()
    ensures After(o, s, [e]) == Step(o, s, e)
  {
    hide Step;
    assert [e][1..] == [];
  }

  lemma {:induction false} AfterMore(o: Options, s: State, events: seq<Event>, more: seq<Event>)
    requires s.Shaped()
    ensures After(o, s, events + more) == After(o, After(o, s, events), more)
    decreases |events|
  {
    hide Step;
    if events == [] {
      assert [] + more == more;
    } else {
      assert (events + more)[1..] == events[1..] + more;
      AfterMore(o, Step(o, s, events[0]), events[1..], more);
    }
  }

  lemma AfterThree(o: Options, s: State, a: Event, b: Event, c: Event)
    requires s.Shaped()
    ensures After(o, s, [a, b, c]) == Step(o, Step(o, Step(o, s, a), b), c)
  {
    hide *;
    AfterMore(o, s, [a] + [b], [c]);
    AfterMore(o, s, [a], [b]);
    AfterOne(o, s, a);
    AfterOne(o, Step(o, s, a), b);
    AfterOne(o, Step(o, Step(o, s, a), b), c);
    assert [a, b, c] == ([a] + [b]) + [c];
  }

  // ----- One control, from its outcome to its caller -----

  /** The control waits for its outcome, and nothing has superseded it. */
  predicate Awaited(s: State, i: nat, operation: Operation, g: nat)
    requires s.Shaped()
  {
    && i < |s.controls| && s.controls[i].phase.Waiting? && s.controls[i].settled.None?
    && s.controls[i].operation == operation && s.controls[i].generation == g && s.controls[i].epoch == s.epoch
    && s.Current(g) && !s.stopping
  }

  /** The hook answers; a timeout counts as a rejection. */
  predicate Outcome(e: Event, i: nat, r: ControlResult) {
    e == ControlSettles(i, r) || (e == ControlTimesOut(i) && r.Rejected?)
  }

  function Events(e: Event, i: nat): seq<Event> {
    [e, ControlReturns(i), CallerContinues(i)]
  }

  /** The control is over; apart from it, only what its caller did has changed. */
  predicate OnlyCaller(s: State, t: State, i: nat) {
    && |t.controls| == |s.controls| && i < |s.controls| && t.controls[i].phase.Finished?
    && (forall j | 0 <= j < |s.controls| && j != i :: t.controls[j] == s.controls[j])
    && t.generation == s.generation && t.epoch == s.epoch && t.activation == s.activation
    && t.control == (if s.control == Some(i) then None else s.control)
    && t.running == s.running && t.starting == s.starting && t.stopping == s.stopping && t.disposed == s.disposed
    && t.transportGeneration == s.transportGeneration && t.transportConnected == s.transportConnected
  }

  /** The result reaches the caller. */
  lemma ResultReaches(o: Options, s: State, i: nat, operation: Operation, g: nat, e: Event, r: ControlResult)
    returns (u: State)
    requires s.Shaped() && Awaited(s, i, operation, g) && Outcome(e, i, r)
    ensures u.Shaped() && After(o, s, Events(e, i)) == Step(o, u, CallerContinues(i))
    ensures i < |u.controls| && u.controls[i].phase == Returned(Some(r)) && u.controls[i].generation == g
    ensures u.controls[i].operation == operation && u.Current(g)
    ensures u == s.(controls := u.controls, control := if s.control == Some(i) then None else s.control)
    ensures u.controls == s.controls[i := u.controls[i]]
  {
    hide After, Step, ReturnControl;
    AfterThree(o, s, e, ControlReturns(i), CallerContinues(i));
    var settled := ResultSettles(o, s, i, e, r);
    u := ResultReturns(o, settled, i, r);
  }

  lemma ResultSettles(o: Options, s: State, i: nat, e: Event, r: ControlResult) returns (t: State)
    requires s.Shaped() && i < |s.controls| && s.controls[i].phase.Waiting? && s.controls[i].settled.None?
    requires Outcome(e, i, r)
    ensures t == Step(o, s, e) == s.(controls := s.controls[i := s.controls[i].(settled := Some(r))])
  {
    t := Step(o, s, e);
  }

  lemma ResultReturns(o: Options, s: State, i: nat, r: ControlResult) returns (t: State)
    requires s.Shaped() && i < |s.controls| && s.controls[i].phase.Waiting? && s.controls[i].settled == Some(r)
    requires s.controls[i].epoch == s.epoch && s.Current(s.controls[i].generation) && !s.stopping
    ensures t == Step(o, s, ControlReturns(i)) && t.Shaped()
    ensures
      t == s.(controls := s.controls[i := s.controls[i].(phase := Returned(Some(r)))],
              control := if s.control == Some(i) then None else s.control)
  {
    t := Step(o, s, ControlReturns(i));
  }

  /**
   * An accepted establish of the live generation makes the session ready, clears the failure count and, where there is
   * a heartbeat, schedules the next one.
   */
  lemma AcceptedEstablishIsReady(o: Options, s: State, i: nat, g: nat)
    requires s.Shaped() && Awaited(s, i, Establish, g)
    ensures
      var t := After(o, s, Events(ControlSettles(i, Accepted), i));
      && OnlyCaller(s, t, i) && t.state.Ready? && t.failures == 0
      && t.scheduled == (if o.heartbeatThreshold.Some? then Some(HeartbeatTask(g)) else s.scheduled)
  {
    var u := ResultReaches(o, s, i, Establish, g, ControlSettles(i, Accepted), Accepted);
    hide After;
  }

  /** A rejected establish, or one that times out, degrades the session and schedules a retry. */
  lemma RejectedEstablishIsRetried(o: Options, s: State, i: nat, g: nat, e: Event)
    requires s.Shaped() && Awaited(s, i, Establish, g) && Outcome(e, i, Rejected)
    ensures
      var t := After(o, s, Events(e, i));
      && OnlyCaller(s, t, i) && t.state.Degraded? && t.failures == s.failures && t.scheduled == Some(RetryTask(g))
  {
    var u := ResultReaches(o, s, i, Establish, g, e, Rejected);
    hide After;
  }

  /** An accepted heartbeat keeps the session ready and is followed by the next one. */
  lemma AcceptedHeartbeatGoesOn(o: Options, s: State, i: nat, g: nat)
    requires s.Shaped() && Awaited(s, i, Heartbeat, g) && o.heartbeatThreshold.Some?
    ensures
      var t := After(o, s, Events(ControlSettles(i, Accepted), i));
      && OnlyCaller(s, t, i) && t.state.Ready? && t.failures == 0 && t.scheduled == Some(HeartbeatTask(g))
  {
    var u := ResultReaches(o, s, i, Heartbeat, g, ControlSettles(i, Accepted), Accepted);
    hide After;
  }

  /**
   * A failed heartbeat is counted: below the threshold the session stays ready and beats again, and the one that
   * reaches the threshold degrades it and schedules a retry.
   */
  lemma FailedHeartbeatIsCounted(o: Options, s: State, i: nat, g: nat, e: Event)
    requires s.Shaped() && Awaited(s, i, Heartbeat, g) && Outcome(e, i, Rejected) && o.heartbeatThreshold.Some?
    ensures
      var t := After(o, s, Events(e, i));
      var below := s.failures + 1 < o.heartbeatThreshold.value;
      && OnlyCaller(s, t, i) && t.failures == s.failures + 1
      && t.state == (if below then Ready else Degraded)
      && t.scheduled == Some(if below then HeartbeatTask(g) else RetryTask(g))
  {
    var u := ResultReaches(o, s, i, Heartbeat, g, e, Rejected);
    hide After;
  }

  // ----- Scheduled tasks -----

  /** A new control waits for its outcome, and the one before it is cancelled. */
  predicate Begun(s: State, t: State, operation: Operation, g: nat)
    requires t.Shaped()
  {
    && |t.controls| == |s.controls| + 1 && t.epoch > s.epoch && t.control == Some(|s.controls|)
    && t.controls[|s.controls|].operation == operation && t.controls[|s.controls|].generation == g
    && t.controls[|s.controls|].epoch == t.epoch && t.controls[|s.controls|].phase.Waiting?
    && t.controls[|s.controls|].settled.None?
    && (forall j | 0 <= j < |s.controls| ::
          t.controls[j] == if s.control == Some(j) && s.controls[j].settled.None?
                           then s.controls[j].(settled := Some(Rejected), cancelled := true) else s.controls[j])
  }

  /** When a retry fires for the live generation, the session is established anew. */
  lemma RetryEstablishesAgain(o: Options, s: State, g: nat)
    requires s.Shaped() && s.scheduled == Some(RetryTask(g)) && s.Current(g) && !s.stopping
    ensures
      var t := Step(o, s, TaskFires);
      && Begun(s, t, Establish, g) && Awaited(t, |s.controls|, Establish, g)
      && t.state.Establishing? && t.scheduled.None? && t.failures == s.failures && t.generation == s.generation
  {
  }

  /** When a heartbeat is due for the live generation, it is sent. */
  lemma HeartbeatIsSent(o: Options, s: State, g: nat)
    requires s.Shaped() && s.scheduled == Some(HeartbeatTask(g)) && s.Current(g) && !s.stopping
    requires o.heartbeatThreshold.Some?
    ensures
      var t := Step(o, s, TaskFires);
      && Begun(s, t, Heartbeat, g) && Awaited(t, |s.controls|, Heartbeat, g)
      && t.state == s.state && t.scheduled.None? && t.failures == s.failures && t.generation == s.generation
  {
  }

  /** A task of a generation that is gone does nothing. */
  lemma StaleTaskDoesNothing(o: Options, s: State)
    requires s.Shaped() && s.scheduled.Some? && !s.Current(s.scheduled.value.generation)
    ensures Step(o, s, TaskFires) == s.(scheduled := None)
  {
  }

  // ----- The transport -----

  predicate Listening(s: State) {
    s.running && !s.disposed && !s.stopping
  }

  /** A new connection is established under its own generation, whatever was under way before. */
  lemma ConnectionIsEstablished(o: Options, s: State)
    requires s.Shaped() && Listening(s) && s.generation <= s.transportGeneration
    ensures
      var g, t := s.transportGeneration + 1, Step(o, s, TransportConnected);
      && Begun(s, t, Establish, g) && Awaited(t, |s.controls|, Establish, g) && t.activation == Some(|s.controls|)
      && t.state.Establishing? && t.generation == g && t.failures == 0 && t.scheduled.None?
  {
  }

  /** A lost connection ends all work: no control, no task, and no activation is left. */
  lemma DisconnectEndsWork(o: Options, s: State)
    requires s.Shaped() && Listening(s)
    ensures
      var t := Step(o, s, TransportDisconnected);
      && t.state.Disconnected? && t.control.None? && t.scheduled.None? && t.activation.None? && t.epoch > s.epoch
      && !t.transportConnected && t.running && |t.controls| == |s.controls|
      && (s.control.Some? ==> t.controls[s.control.value].settled.Some?)
  {
  }

  lemma ReconnectingIsShown(o: Options, s: State)
    requires s.Shaped() && Listening(s)
    ensures Step(o, s, TransportConnecting) == s.(state := Connecting, transportConnected := false)
  {
  }

  /** start() shows the connection attempt, and its failure. */
  lemma StartConnects(o: Options, s: State)
    requires s.Shaped() && !s.running && !s.disposed && !s.stopping
    ensures
      var t := Step(o, s, StartCalled);
      && t == s.(running := true, starting := true, state := Connecting)
      && Step(o, t, StartResumes(true)) == t.(starting := false, state := Disconnected)
  {
  }

  /** A repeated start() or dispose() does nothing, nor does a start() after dispose() was called. */
  lemma RepeatedCallsDoNothing(o: Options, s: State)
    requires s.Shaped()
    ensures s.running || s.stopping || s.disposed ==> Step(o, s, StartCalled) == s
    ensures s.stopping || s.disposed ==> Step(o, s, DisposeCalled) == s
  {
  }

  /**
   * An activation that is over is forgotten: a start() that resumes on a live connection establishes it anew, and does
   * not while an activation of the same generation is still under way.
   */
  lemma SettledActivationAllowsAnother(o: Options, s: State, i: nat)
    requires s.Shaped() && i < |s.controls| && s.controls[i].phase.Finished? && s.controls[i].activates
    requires s.activation == Some(i) && s.running && s.starting && s.transportConnected
    requires s.generation == s.transportGeneration > 0
    ensures
      var t := Step(o, Step(o, s, ActivationSettles(i)), StartResumes(false));
      && Begun(s, t, Establish, s.transportGeneration) && t.state.Establishing? && t.activation == Some(|s.controls|)
    ensures Step(o, s, StartResumes(false)) == s.(starting := false)
  {
  }

  // ----- Whole runs -----

  /** From the start to a ready session. */
  lemma StartedSessionGetsReady(o: Options)
    ensures
      var t := After(o, INITIAL, [StartCalled, TransportConnected] + Events(ControlSettles(0, Accepted), 0));
      && t.state.Ready? && t.generation == 1 && t.failures == 0
      && t.scheduled == (if o.heartbeatThreshold.Some? then Some(HeartbeatTask(1)) else None)
  {
    var started := Step(o, INITIAL, StartCalled);
    StartConnects(o, INITIAL);
    ConnectionIsEstablished(o, started);
    var connected := Step(o, started, TransportConnected);
    AcceptedEstablishIsReady(o, connected, 0, 1);
    hide Step;
    AfterMore(o, INITIAL, [StartCalled, TransportConnected], Events(ControlSettles(0, Accepted), 0));
    assert [StartCalled, TransportConnected][1..] == [TransportConnected] && [TransportConnected][1..] == [];
  }

  /** A session that was degraded gets ready again when its retry is accepted. */
  lemma DegradedSessionRecovers(o: Options, s: State, g: nat)
    requires s.Shaped() && s.scheduled == Some(RetryTask(g)) && s.Current(g) && !s.stopping
    ensures
      var i := |s.controls|;
      var t := After(o, s, [TaskFires] + Events(ControlSettles(i, Accepted), i));
      t.state.Ready? && t.failures == 0 && t.generation == s.generation
  {
    var i := |s.controls|;
    RetryEstablishesAgain(o, s, g);
    var fired := Step(o, s, TaskFires);
    AcceptedEstablishIsReady(o, fired, i, g);
    hide Step;
    AfterOne(o, s, TaskFires);
    AfterMore(o, s, [TaskFires], Events(ControlSettles(i, Accepted), i));
  }

  // ----- dispose() -----

  /** dispose() runs the shutdown hook on a live session. */
  lemma DisposeRunsShutdown(o: Options, s: State)
    requires s.Shaped() && !s.disposed && !s.stopping
    ensures
      var t := Step(o, s, DisposeCalled);
      && t.stopping && t.state.Stopping? && t.scheduled.None? && t.activation.None?
      && if o.hasShutdown && s.generation > 0 && s.transportConnected
         then Begun(s, t, Shutdown, s.generation) && t.shutdown == Some(|s.controls|)
         else t.control.None? && t.shutdown == s.shutdown && |t.controls| == |s.controls|
  {
  }

  /** Once there is nothing to wait for, dispose() ends the session for good. */
  lemma DisposeComesToItsEnd(o: Options, s: State)
    requires s.Shaped() && s.stopping && !s.disposed
    requires s.shutdown.Some? ==> !s.controls[s.shutdown.value].phase.Waiting?
    ensures
      var t := Step(o, s, DisposeProceeds);
      && t.disposed && !t.running && t.control.None? && t.scheduled.None? && t.activation.None?
      && Step(o, t, DisposeFinishes).state.Stopped? && Step(o, t, DisposeFinishes).disposed
  {
  }

  /** Before that it waits: nothing changes while the shutdown is under way. */
  lemma DisposeWaitsForShutdown(o: Options, s: State)
    requires s.Shaped() && s.shutdown.Some? && s.controls[s.shutdown.value].phase.Waiting?
    ensures Step(o, s, DisposeProceeds) == s
  {
  }
}
