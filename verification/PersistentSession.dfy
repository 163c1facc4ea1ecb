/**
 * The session object itself: the fields that
 * packages/kiosk-host-native-channel/src/persistent-session.ts updates in place, and its methods.
 * Each method does to the fields what the function of the same name in module Session does to the state.
 */
module PersistentSession {
  import opened Prelude
  import opened Framing
  import opened FrameStream
  import opened Session

  class HostSession {
    const config: Config
    var exchanges: seq<Exchange>
    var socketId: Option<SocketId>
    var retiredSocketIds: set<SocketId>
    var generation: nat
    var received: Bytes
    var pending: Option<nat>
    var attempts: seq<Attempt>
    var connectionPromise: Option<nat>
    var reconnectTimer: bool
    var started: bool
    var disposed: bool
    /** A record of what each connection was and carried; no decision reads it. */
    var adopted: seq<SocketId>
    var streams: seq<Stream>

    ghost function View(): State
      reads this
    {
      State(exchanges, socketId, retiredSocketIds, generation, received, pending, attempts, connectionPromise,
            reconnectTimer, started, disposed, adopted, streams)
    }

    ghost predicate Valid()
      reads this
    {
      View().Shaped()
    }

    constructor (config: Config)
      ensures Valid() && View() == INITIAL && this.config == config
    {
      this.config := config;
      exchanges, attempts := [], [];
      socketId, pending, connectionPromise := None, None, None;
      retiredSocketIds, generation, received := {}, 0, [];
      reconnectTimer, started, disposed := false, false, false;
      adopted, streams := [], [];
    }

    method ScheduleReconnect()
      requires Valid()
      modifies this
      ensures Valid() && View() == Session.ScheduleReconnect(old(View()))
    {
      if !started || disposed || socketId.Some? || reconnectTimer {
        return;
      }
      reconnectTimer := true;
    }

    /** deferred.resolve on the pending exchange, which is then no longer pending. */
    method ResolvePending(v: Verdict)
      requires Valid()
      modifies this
      ensures Valid() && View() == Session.ResolvePending(old(View()), v)
    {
      if pending.Some? && exchanges[pending.value].settled.None? {
        exchanges := exchanges[pending.value := exchanges[pending.value].(settled := Some(v))];
      }
      pending := None;
    }

    method DropConnection()
      requires Valid()
      modifies this
      ensures Valid() && View() == Session.DropConnection(old(View()))
    {
      if socketId.None? {
        return;
      }
      retiredSocketIds := retiredSocketIds + {socketId.value};
      socketId := None;
      received := [];
      ResolvePending(Unknown);
      ScheduleReconnect();
    }

    method RoutePayload(payload: Bytes)
      requires Valid() && socketId.Some?
      modifies this
      ensures Valid() && View() == Session.RoutePayload(config, old(View()), payload)
    {
      var here := streams[generation - 1];
      streams := streams[generation - 1 := here.(frames := here.frames + [payload])];
      var route := config.route(payload, pending);
      if route.RouterThrows? {
        DropConnection();
      } else if route.ResponseRoute? {
        if pending.None? || !BoundTo(exchanges[pending.value], generation) {
          return;
        }
        ResolvePending(Response(payload, generation, |here.frames|));
      }
    }

    method DrainFrames()
      requires Valid() && socketId.Some?
      modifies this
      ensures Valid() && View() == Session.DrainFrames(config, old(View()))
    {
      while received != []
        invariant Valid() && socketId.Some?
        invariant Session.DrainFrames(config, View()) == Session.DrainFrames(config, old(View()))
        decreases |received|
      {
        var decoded := config.decode(received);
        if decoded.Incomplete? {
          return;
        }
        if !Consumes(decoded, received) {
          DropConnection();
          return;
        }
        received := received[decoded.consumed..];
        RoutePayload(decoded.payload);
        if socketId.None? {
          return;
        }
      }
    }

    method HandleEvent(id: SocketId, what: SocketEvent)
      requires Valid()
      modifies this
      ensures Valid() && View() == Session.HandleEvent(config, old(View()), id, what)
    {
      hide Session.DrainFrames, Session.DropConnection;
      if socketId.None? || id != socketId.value {
        return;
      }
      match what
      case Data(chunk) =>
        received := received + chunk;
        var here := streams[generation - 1];
        streams := streams[generation - 1 := here.(input := here.input + chunk)];
        DrainFrames();
      case _ => DropConnection();
    }

    method EstablishConnection()
      requires Valid()
      modifies this
      ensures Valid() && View() == Session.EstablishConnection(old(View()))
    {
      if socketId.Some? || connectionPromise.Some? {
        return;
      }
      connectionPromise := Some(|attempts|);
      attempts := attempts + [Opening];
    }

    /** start(): false when it throws because the session is disposed. */
    method Start() returns (accepted: bool)
      requires Valid()
      modifies this
      ensures Valid() && accepted == !old(disposed)
      ensures View() == Session.Step(config, old(View()), StartCalled)
    {
      if disposed {
        return false;
      }
      started := true;
      EstablishConnection();
      return true;
    }

    /** The socket of an attempt is open: adopt it, or refuse it when disposed or when its id was used before. */
    method FinishConnection(a: nat, id: SocketId)
      requires Valid() && a < |attempts|
      modifies this
      ensures Valid() && View() == Session.FinishConnection(old(View()), a, id)
    {
      if disposed || id in retiredSocketIds {
        attempts := attempts[a := Rejected];
        return;
      }
      attempts := attempts[a := Adopted];
      socketId := Some(id);
      generation := generation + 1;
      received := [];
      adopted := adopted + [id];
      streams := streams + [Stream([], [])];
    }

    method Dispose()
      requires Valid()
      modifies this
      ensures Valid() && View() == Session.Dispose(old(View()))
    {
      if disposed {
        return;
      }
      hide Session.Resolve;
      disposed := true;
      started := false;
      reconnectTimer := false;
      ResolvePending(Unknown);
      var socket := socketId;
      socketId := None;
      if socket.Some? {
        retiredSocketIds := retiredSocketIds + {socket.value};
      }
    }

    // ----- performExchange, cut at its awaits -----

    method Enter(i: nat, phase: Phase)
      requires Valid() && i < |exchanges|
      modifies this
      ensures Valid() && View() == Session.Enter(old(View()), i, phase)
    {
      exchanges := exchanges[i := exchanges[i].(phase := phase)];
    }

    method Bind(i: nat)
      requires Valid() && i < |exchanges|
      modifies this
      ensures Valid() && View() == Session.Bind(old(View()), i)
    {
      if socketId.None? {
        Enter(i, Done(NotSent));
        return;
      }
      var binding := Binding(generation, socketId.value, |streams[generation - 1].frames|);
      exchanges := exchanges[i := exchanges[i].(phase := AwaitingTurn, binding := Some(binding))];
      pending := Some(i);
    }

    method BeginExchange(i: nat, encodable: bool)
      requires Valid() && i < |exchanges|
      modifies this
      ensures Valid() && View() == Session.BeginExchange(old(View()), i, encodable)
    {
      if disposed {
        Enter(i, Done(NotSent));
        return;
      }
      if !encodable {
        Enter(i, Done(NotSent));
        return;
      }
      if socketId.None? {
        started := true;
        EstablishConnection();
        Enter(i, Starting(connectionPromise.value));
        return;
      }
      Bind(i);
    }

    /** The catch block and the finally block. */
    method FailExchange(i: nat)
      requires Valid() && i < |exchanges|
      modifies this
      ensures Valid() && View() == Session.FailExchange(old(View()), i)
    {
      if BoundTo(exchanges[i], generation) {
        DropConnection();
      }
      Enter(i, Done(Unknown));
      if pending == Some(i) {
        pending := None;
      }
    }
  }
}
