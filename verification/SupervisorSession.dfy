/**
 * The supervisor object: the fields that packages/kiosk-host-session/src/supervisor.ts updates in place. Each method
 * does to the fields what the function of the same name in module Supervisor does to the state.
 */
module SupervisorSession {
  import opened Prelude
  import M = Supervisor

  class HostSessionSupervisor {
    const options: M.Options
    var state: M.SessionState
    var generation: nat
    var consecutiveHeartbeatFailures: nat
    var operationEpoch: nat
    var controls: seq<M.Control>
    var control: Option<nat>
    var activation: Option<nat>
    var scheduledTask: Option<M.Task>
    var running: bool
    var starting: bool
    var stopping: bool
    var disposed: bool
    var shutdown: Option<nat>
    var transportGeneration: nat
    var transportConnected: bool
    /** A record of activations, accepted establishes, answered heartbeats and disconnects; no decision reads it. */
    var log: seq<M.Entry>

    function View(): M.State
      reads this
    {
      M.State(state, generation, consecutiveHeartbeatFailures, operationEpoch, controls, control, activation,
              scheduledTask, running, starting, stopping, disposed, shutdown, transportGeneration, transportConnected,
              log)
    }

    ghost predicate Valid()
      reads this
    {
      View().Shaped()
    }

    constructor (options: M.Options)
      ensures Valid() && View() == M.INITIAL && this.options == options
    {
      this.options := options;
      state, generation, consecutiveHeartbeatFailures, operationEpoch := M.Stopped, 0, 0, 0;
      controls, control, activation, scheduledTask, shutdown := [], None, None, None, None;
      running, starting, stopping, disposed := false, false, false, false;
      transportGeneration, transportConnected, log := 0, false, [];
    }

    predicate IsCurrentGeneration(g: nat)
      reads this
    {
      running && !disposed && g == generation && g == transportGeneration && transportConnected
    }

    method Transition(next: M.SessionState, failures: nat)
      modifies this`state, this`consecutiveHeartbeatFailures
      ensures View() == M.Transition(old(View()), next, failures)
    {
      state := next;
      consecutiveHeartbeatFailures := failures;
    }

    method CancelControl()
      requires Valid()
      modifies this`controls
      ensures controls == M.CancelControl(old(controls), control)
    {
      if control.Some? && controls[control.value].settled.None? {
        var i := control.value;
        controls := controls[i := controls[i].(settled := Some(M.Rejected), cancelled := true)];
      }
    }

    method InvalidateWork()
      requires Valid()
      modifies this
      ensures Valid() && View() == M.InvalidateWork(old(View()))
    {
      operationEpoch := operationEpoch + 1;
      CancelControl();
      control := None;
      scheduledTask := None;
      activation := None;
    }

    method RunControl(operation: M.Operation, g: nat, activates: bool)
      requires Valid()
      modifies this
      ensures Valid() && View() == M.RunControl(old(View()), operation, g, activates)
    {
      operationEpoch := operationEpoch + 1;
      CancelControl();
      controls := controls + [M.Control(operation, g, operationEpoch, None, false, M.Waiting, activates)];
      control := Some(|controls| - 1);
    }

    method Enter(g: nat)
      modifies this`state, this`generation, this`consecutiveHeartbeatFailures, this`log
      ensures View() == old(View()).(
                state := M.Establishing, generation := g, failures := 0, log := old(log) + [M.Activated(g)])
    {
      state, generation, consecutiveHeartbeatFailures := M.Establishing, g, 0;
      log := log + [M.Activated(g)];
    }

    method ActivateGeneration(g: nat)
      requires Valid()
      modifies this
      ensures Valid() && View() == M.ActivateGeneration(old(View()), g)
    {
      hide M.CancelControl;
      if !running || g == 0 {
        return;
      }
      if generation == g && activation.Some? {
        return;
      }
      InvalidateWork();
      Enter(g);
      RunControl(M.Establish, g, true);
      activation := control;
    }

    method HandleDisconnect()
      requires Valid()
      modifies this
      ensures Valid() && View() == M.HandleDisconnect(old(View()))
    {
      hide M.CancelControl;
      if !running || disposed || stopping {
        return;
      }
      InvalidateWork();
      Transition(M.Disconnected, consecutiveHeartbeatFailures);
    }

    method ScheduleHeartbeat(g: nat)
      modifies this`scheduledTask
      ensures View() == M.ScheduleHeartbeat(options, old(View()), g)
    {
      if options.heartbeatThreshold.Some? {
        scheduledTask := Some(M.HeartbeatTask(g));
      }
    }

    /** runControl after its await. */
    method ReturnControl(i: nat) returns (result: Option<M.ControlResult>)
      requires Valid() && i < |controls| && controls[i].settled.Some?
      modifies this`control, this`controls
      ensures Valid() && View() == M.ReturnControl(old(View()), i)
      ensures result.Some? ==>
                old(controls[i].epoch) == operationEpoch && IsCurrentGeneration(old(controls[i].generation))
    {
      var c := controls[i];
      if control == Some(i) {
        control := None;
      }
      result := if c.epoch != operationEpoch || !IsCurrentGeneration(c.generation) then None else c.settled;
      controls := controls[i := c.(phase := M.Returned(result))];
    }

    /** establish() after runControl. */
    method AfterEstablish(g: nat, r: M.ControlResult)
      requires Valid()
      modifies this
      ensures Valid() && View() == M.AfterEstablish(options, old(View()), g, r)
    {
      if r.Accepted? {
        Transition(M.Ready, 0);
        log := log + [M.EstablishAccepted(g)];
        ScheduleHeartbeat(g);
        return;
      }
      Transition(M.Degraded, consecutiveHeartbeatFailures);
      scheduledTask := Some(M.RetryTask(g));
    }

    /** heartbeat() after runControl. */
    method AfterHeartbeat(g: nat, r: M.ControlResult)
      requires Valid() && options.heartbeatThreshold.Some?
      modifies this
      ensures Valid() && View() == M.AfterHeartbeat(options, old(View()), g, r)
    {
      log := log + [M.HeartbeatAnswered(r.Accepted?)];
      if r.Accepted? {
        Transition(M.Ready, 0);
        ScheduleHeartbeat(g);
        return;
      }
      var failures := consecutiveHeartbeatFailures + 1;
      if failures < options.heartbeatThreshold.value {
        Transition(M.Ready, failures);
        ScheduleHeartbeat(g);
        return;
      }
      Transition(M.Degraded, failures);
      scheduledTask := Some(M.RetryTask(g));
    }
  }
}
