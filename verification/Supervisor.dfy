/**
 * The host session supervisor of packages/kiosk-host-session/src/supervisor.ts and control-operation.ts.
 *
 * An event is the code between two awaits; an event that cannot occur leaves the state unchanged. The transport is
 * the persistent session: a new connection raises its generation, and its lifecycle events arrive as it changes.
 */
module Supervisor {
  import opened Prelude

  datatype SessionState = Stopped | Connecting | Establishing | Ready | Degraded | Disconnected | Stopping

  datatype Operation = Establish | Heartbeat | Shutdown

  datatype ControlResult = Accepted | Rejected

  /** Waiting for the result, returned from runControl (None when superseded), and its caller has gone on. */
  datatype Phase = Waiting | Returned(result: Option<ControlResult>) | Finished

  /** One call of startControlOperation. */
  datatype Control = Control(
    operation: Operation, generation: nat, epoch: nat, settled: Option<ControlResult>, cancelled: bool, phase: Phase,
    activates: bool)   // started by activateGeneration, which clears `activation` when it is over

  datatype Task = RetryTask(generation: nat) | HeartbeatTask(generation: nat)

  /** What the run did that the results speak about; no decision reads it. */
  datatype Entry =
    | Activated(generation: nat)
    | EstablishAccepted(generation: nat)
    | HeartbeatAnswered(accepted: bool)
    | DisconnectDelivered

  /** Options that matter: heartbeat and shutdown hooks, and the failure threshold, which is at least one. */
  datatype Options = Options(heartbeatThreshold: Option<nat>, hasShutdown: bool) {
    predicate Valid() {
      heartbeatThreshold.Some? ==> heartbeatThreshold.value > 0
    }
  }

  datatype State = State(
    state: SessionState,
    generation: nat,
    failures: nat,
    epoch: nat,
    controls: seq<Control>,
    control: Option<nat>,
    activation: Option<nat>,
    scheduled: Option<Task>,
    running: bool,
    starting: bool,             // start() is awaiting the transport
    stopping: bool,
    disposed: bool,
    shutdown: Option<nat>,      // the control dispose() is awaiting
    transportGeneration: nat,
    transportConnected: bool,
    log: seq<Entry>)
  {
    predicate Shaped() {
      && (control.Some? ==> control.value < |controls|)
      && (shutdown.Some? ==> shutdown.value < |controls|)
    }

    /** isCurrentGeneration. */
    predicate Current(g: nat) {
      running && !disposed && g == generation && g == transportGeneration && transportConnected
    }
  }

  const INITIAL := State(Stopped, 0, 0, 0, [], None, None, None, false, false, false, false, None, 0, false, [])

  datatype Event =
    | StartCalled
    | StartResumes(failed: bool)
    | DisposeCalled
    | DisposeProceeds
    | DisposeFinishes
    | TransportConnecting
    | TransportConnected
    | TransportDisconnected
    | ControlSettles(i: nat, result: ControlResult)
    | ControlTimesOut(i: nat)
    | ControlReturns(i: nat)
    | CallerContinues(i: nat)
    | TaskFires
    | ActivationSettles(i: nat)

  // ----- Controls -----

  /** settle: only the first outcome counts. */
  function Settle(s: State, i: nat, r: ControlResult): (t: State)
    requires s.Shaped() && i < |s.controls|
    ensures t.Shaped() && |t.controls| == |s.controls|
  {
    if s.controls[i].settled.Some? then s
    else s.(controls := s.controls[i := s.controls[i].(settled := Some(r))])
  }

  /** The controls after cancel of the current one: an unsettled control settles as failed. */
  function CancelControl(controls: seq<Control>, control: Option<nat>): (cancelled: seq<Control>)
    requires control.Some? ==> control.value < |controls|
    ensures |cancelled| == |controls|
  {
    if control.None? || controls[control.value].settled.Some? then controls
    else controls[control.value := controls[control.value].(settled := Some(Rejected), cancelled := true)]
  }

  function InvalidateWork(s: State): (t: State)
    requires s.Shaped()
    ensures t.Shaped()
  {
    s.(epoch := s.epoch + 1, controls := CancelControl(s.controls, s.control), control := None, scheduled := None,
       activation := None)
  }

  /** runControl up to its await; the new control is the last one. */
  function RunControl(s: State, operation: Operation, generation: nat, activates: bool): (t: State)
    requires s.Shaped()
    ensures t.Shaped() && |t.controls| == |s.controls| + 1
  {
    s.(epoch := s.epoch + 1,
       controls := CancelControl(s.controls, s.control) +
         [Control(operation, generation, s.epoch + 1, None, false, Waiting, activates)],
       control := Some(|s.controls|))
  }

  function Transition(s: State, state: SessionState, failures: nat): State {
    s.(state := state, failures := failures)
  }

  // ----- The pieces of code the events run -----

  function ActivateGeneration(s: State, g: nat): (t: State)
    requires s.Shaped()
    ensures t.Shaped()
  {
    if !s.running || g == 0 || (s.generation == g && s.activation.Some?) then s
    else
      var idle := InvalidateWork(s).(
        state := Establishing, generation := g, failures := 0, log := s.log + [Activated(g)]);
      RunControl(idle, Establish, g, true).(activation := Some(|s.controls|))
  }

  /** handleTransportEvent for a lost connection. */
  function HandleDisconnect(s: State): (t: State)
    requires s.Shaped()
    ensures t.Shaped()
  {
    if !s.running || s.disposed || s.stopping then s else Transition(InvalidateWork(s), Disconnected, s.failures)
  }

  function HandleConnecting(s: State): State {
    if !s.running || s.disposed || s.stopping then s else Transition(s, Connecting, s.failures)
  }

  function HandleConnected(s: State, g: nat): (t: State)
    requires s.Shaped()
    ensures t.Shaped()
  {
    if !s.running || s.disposed || s.stopping then s else ActivateGeneration(s, g)
  }

  function ScheduleHeartbeat(o: Options, s: State, g: nat): State {
    if o.heartbeatThreshold.None? then s else s.(scheduled := Some(HeartbeatTask(g)))
  }

  /** runControl after its await. */
  function ReturnControl(s: State, i: nat): (t: State)
    requires s.Shaped() && i < |s.controls| && s.controls[i].settled.Some?
    ensures t.Shaped()
  {
    var c := s.controls[i];
    var result := if c.epoch == s.epoch && s.Current(c.generation) then c.settled else None;
    s.(control := if s.control == Some(i) then None else s.control,
       controls := s.controls[i := c.(phase := Returned(result))])
  }

  function AfterEstablish(o: Options, s: State, g: nat, r: ControlResult): State {
    if r.Accepted? then
      ScheduleHeartbeat(o, Transition(s, Ready, 0), g).(log := s.log + [EstablishAccepted(g)])
    else Transition(s, Degraded, s.failures).(scheduled := Some(RetryTask(g)))
  }

  /** Below the threshold the session stays ready and beats again; at the threshold it is established anew. */
  function AfterHeartbeat(o: Options, s: State, g: nat, r: ControlResult): State
    requires o.heartbeatThreshold.Some?
  {
    var failures := if r.Accepted? then 0 else s.failures + 1;
    var alive := r.Accepted? || failures < o.heartbeatThreshold.value;
    s.(state := if alive then Ready else Degraded, failures := failures,
       scheduled := Some(if alive then HeartbeatTask(g) else RetryTask(g)),
       log := s.log + [HeartbeatAnswered(r.Accepted?)])
  }

  /** The caller of runControl goes on: it checks the generation once more. */
  function Continue(o: Options, s: State, i: nat): (t: State)
    requires s.Shaped() && i < |s.controls| && s.controls[i].phase.Returned?
    ensures t.Shaped()
  {
    var c, result := s.controls[i], s.controls[i].phase.result;
    var t := s.(controls := s.controls[i := c.(phase := Finished)]);
    if result.None? || !s.Current(c.generation) then t
    else match c.operation
      case Establish => AfterEstablish(o, t, c.generation, result.value)
      case Heartbeat => if o.heartbeatThreshold.Some? then AfterHeartbeat(o, t, c.generation, result.value) else t
      case Shutdown => t
  }

  function FireTask(o: Options, s: State): (t: State)
    requires s.Shaped()
    ensures t.Shaped()
  {
    if s.scheduled.None? then s
    else
      var task, t := s.scheduled.value, s.(scheduled := None);
      if !t.Current(task.generation) then t
      else match task
        case RetryTask(g) =>
          RunControl(Transition(t, Establishing, t.failures), Establish, g, false).(activation := Some(|t.controls|))
        case HeartbeatTask(g) => if o.heartbeatThreshold.Some? then RunControl(t, Heartbeat, g, false) else t
  }

  function BeginDispose(o: Options, s: State): (t: State)
    requires s.Shaped()
    ensures t.Shaped()
  {
    if s.disposed || s.stopping then s
    else
      var t := InvalidateWork(Transition(s, Stopping, s.failures).(stopping := true));
      if o.hasShutdown && t.generation > 0 && t.transportConnected
      then RunControl(t, Shutdown, t.generation, false).(shutdown := Some(|t.controls|)) else t
  }

  function ProceedDispose(s: State): (t: State)
    requires s.Shaped()
    ensures t.Shaped()
  {
    if !s.stopping || s.disposed || (s.shutdown.Some? && s.controls[s.shutdown.value].phase.Waiting?) then s
    else InvalidateWork(s.(running := false, disposed := true))
  }

  function ResumeStart(s: State, failed: bool): (t: State)
    requires s.Shaped()
    ensures t.Shaped()
  {
    if !s.starting then s
    else
      var t := s.(starting := false);
      if failed then Transition(t, Disconnected, t.failures)
      else if t.transportConnected then ActivateGeneration(t, t.transportGeneration)
      else t
  }

  predicate InPhase(s: State, i: nat, waiting: bool) {
    i < |s.controls| && if waiting then s.controls[i].phase.Waiting? else s.controls[i].phase.Returned?
  }

  /** dispose() is about to go on: it awaits no shutdown, or one that has settled. */
  predicate DisposeDue(s: State)
    requires s.Shaped()
  {
    s.stopping && !s.disposed && (s.shutdown.None? || s.controls[s.shutdown.value].settled.Some?)
  }

  /**
   * A control that was started after dispose() is too late to return to its caller before dispose() goes on. Starting
   * it cancels the shutdown, which settles at once and leaves dispose() three promise jobs to go; the new control needs
   * one job for its hook, one for the outcome, one for runControl and one for the caller.
   */
  predicate Overtaken(s: State, i: nat)
    requires s.Shaped() && i < |s.controls|
  {
    DisposeDue(s) && s.controls[i].epoch == s.epoch && s.shutdown != Some(i)
  }

  function Step(o: Options, s: State, e: Event): (t: State)
    requires s.Shaped()
    ensures t.Shaped()
  {
    hide ActivateGeneration, HandleDisconnect, HandleConnected, ReturnControl, Continue, FireTask, BeginDispose,
      ProceedDispose;
    match e
    case StartCalled =>
      if s.disposed || s.stopping || s.running then s
      else Transition(s.(running := true, starting := true), Connecting, s.failures)
    case StartResumes(failed) => ResumeStart(s, failed)
    case DisposeCalled => BeginDispose(o, s)
    case DisposeProceeds => ProceedDispose(s)
    case DisposeFinishes => if s.disposed then Transition(s, Stopped, s.failures) else s
    case TransportConnecting => HandleConnecting(s.(transportConnected := false))
    case TransportConnected =>
      var g := s.transportGeneration + 1;
      HandleConnected(s.(transportGeneration := g, transportConnected := true), g)
    case TransportDisconnected =>
      HandleDisconnect(s.(transportConnected := false, log := s.log + [DisconnectDelivered]))
    case ControlSettles(i, r) => if InPhase(s, i, true) then Settle(s, i, r) else s
    case ControlTimesOut(i) => if InPhase(s, i, true) then Settle(s, i, Rejected) else s
    case ControlReturns(i) =>
      if InPhase(s, i, true) && s.controls[i].settled.Some? && !Overtaken(s, i) then ReturnControl(s, i) else s
    case CallerContinues(i) => if InPhase(s, i, false) then Continue(o, s, i) else s
    case TaskFires => FireTask(o, s)
    case ActivationSettles(i) =>
      if i < |s.controls| && s.controls[i].phase.Finished? && s.controls[i].activates && s.activation == Some(i)
      then s.(activation := None) else s
  }

  function Run(o: Options, events: seq<Event>): (s: State)
    ensures s.Shaped()
  {
    if events == [] then INITIAL else Step(o, Run(o, events[..|events| - 1]), events[|events| - 1])
  }
}
