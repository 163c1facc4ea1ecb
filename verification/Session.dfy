/**
 * The persistent TCP session of packages/kiosk-host-native-channel/src/persistent-session.ts.
 *
 * The code runs on one event loop, so a run is a sequence of events: each event is the code between two
 * awaits. An event that cannot occur in a state leaves the state unchanged. Timeouts and socket failures may
 * occur whenever the code has the timer or the promise armed.
 */
module Session {
  import opened Prelude
  import opened Framing
  import opened FrameStream

  type SocketId = nat

  datatype Route = ResponseRoute | InboundRoute | IgnoreRoute | RouterThrows

  /** The frame decoder and the frame router (which sees the pending exchange, if any). */
  datatype Config = Config(decode: Bytes -> Decoded, route: (Bytes, Option<nat>) -> Route)

  /** How an exchange ends. A response records which frame of which connection generation answered. */
  datatype Verdict =
    | NotSent
    | Unknown
    | Response(payload: Bytes, generation: nat, frame: nat)

  datatype Phase =
    | Queued
    | Starting(attempt: nat)   // awaiting start()
    | AwaitingTurn             // bound, its write is in the write queue
    | Writing
    | AwaitingResponse
    | Done(verdict: Verdict)

  /** The connection an exchange was bound to, and how many of its frames had been routed by then. */
  datatype Binding = Binding(generation: nat, socket: SocketId, heard: nat)

  /** One call of exchange(): `settled` is its deferred result, `written` the socket its frame was handed to. */
  datatype Exchange = Exchange(phase: Phase, binding: Option<Binding>, settled: Option<Verdict>,
      written: Option<SocketId>)

  /** The bytes received on one connection generation, and the payloads routed from them. */
  datatype Stream = Stream(input: Bytes, frames: seq<Bytes>)

  datatype Attempt = Opening | Adopted | Rejected

  datatype State = State(
    exchanges: seq<Exchange>,
    socket: Option<SocketId>,
    retired: set<SocketId>,
    generation: nat,
    received: Bytes,
    pending: Option<nat>,
    attempts: seq<Attempt>,
    connection: Option<nat>,
    timer: bool,
    started: bool,
    disposed: bool,
    adopted: seq<SocketId>,
    streams: seq<Stream>)
  {
    /** The sizes that make the indices below meaningful. */
    predicate Shaped() {
      && generation == |adopted| == |streams|
      && (socket.Some? ==> generation > 0)
      && (pending.Some? ==> pending.value < |exchanges|)
      && (connection.Some? ==> connection.value < |attempts|)
    }

    function Current(): Stream
      requires Shaped() && socket.Some?
    {
      streams[generation - 1]
    }
  }

  const INITIAL := State([], None, {}, 0, [], None, [], None, false, false, false, [], [])

  datatype SocketEvent = Data(chunk: Bytes) | Close | Error

  datatype Event =
    | ExchangeCalled
    | ExchangeBegins(i: nat, encodable: bool)
    | StartReturns(i: nat)
    | WriteIssued(i: nat)
    | WriteCompletes(i: nat)
    | WriteFails(i: nat)            // rejected, or its timeout fired
    | ResponseReturns(i: nat)
    | ResponseTimesOut(i: nat)
    | StartCalled
    | Connected(a: nat, id: SocketId)
    | ConnectFails(a: nat)
    | ConnectionSettles(a: nat)     // the tail of establishConnection
    | LateSocket(id: SocketId)
    | ReconnectTimerFires
    | FromSocket(id: SocketId, what: SocketEvent)
    | DisposeCalled

  /** Nothing is heard or routed, and the live connection, if there still is one, is the same. */
  predicate SameStreams(s: State, t: State) {
    && t.streams == s.streams && t.generation == s.generation
    && (t.socket.Some? ==> t.socket == s.socket && t.received == s.received)
  }

  // ----- The pieces of code the events run -----

  /** deferred.resolve: only the first value counts. */
  function Resolve(s: State, i: nat, v: Verdict): State
    requires i < |s.exchanges|
  {
    if s.exchanges[i].settled.Some? then s
    else s.(exchanges := s.exchanges[i := s.exchanges[i].(settled := Some(v))])
  }

  function ResolvePending(s: State, v: Verdict): (t: State)
    requires s.pending.Some? ==> s.pending.value < |s.exchanges|
    ensures t.pending.None? && t.streams == s.streams && t.generation == s.generation && t.socket == s.socket
        && t.received == s.received
  {
    (if s.pending.Some? then Resolve(s, s.pending.value, v) else s).(pending := None)
  }

  function ScheduleReconnect(s: State): State {
    if !s.started || s.disposed || s.socket.Some? then s else s.(timer := true)
  }

  function DropConnection(s: State): (t: State)
    requires s.Shaped()
    ensures t.Shaped() && SameStreams(s, t) && t.socket.None?
  {
    if s.socket.None? then s
    else ScheduleReconnect(
        ResolvePending(s.(retired := s.retired + {s.socket.value}, socket := None, received := []), Unknown))
  }

  /** routePayload: a routed payload is also recorded in its connection's stream. */
  function RoutePayload(c: Config, s: State, payload: Bytes): (t: State)
    requires s.Shaped() && s.socket.Some?
    ensures t.Shaped() && |t.received| <= |s.received|
  {
    var here := s.Current();
    var n := s.generation;
    var heard := s.(streams := s.streams[n - 1 := here.(frames := here.frames + [payload])]);
    match c.route(payload, s.pending)
    case RouterThrows => DropConnection(heard)
    case ResponseRoute =>
      if heard.pending.None? || !BoundTo(heard.exchanges[heard.pending.value], n) then heard
      else ResolvePending(heard, Response(payload, n, |here.frames|))
    case _ => heard
  }

  predicate BoundTo(e: Exchange, generation: nat) {
    e.binding.Some? && e.binding.value.generation == generation
  }

  function DrainFrames(c: Config, s: State): (t: State)
    requires s.Shaped()
    ensures t.Shaped()
    decreases |s.received|
  {
    if s.received == [] || s.socket.None? then s
    else
      var d := c.decode(s.received);
      if d.Incomplete? then s
      else if !Consumes(d, s.received) then DropConnection(s)
      else DrainFrames(c, RoutePayload(c, s.(received := s.received[d.consumed..]), d.payload))
  }

  function HandleEvent(c: Config, s: State, id: SocketId, what: SocketEvent): (t: State)
    requires s.Shaped()
    ensures t.Shaped()
  {
    if s.socket != Some(id) then s
    else match what
      case Data(chunk) => DrainFrames(c, Hear(s, chunk))
      case _ => DropConnection(s)
  }

  /** The chunk is appended to the buffer. */
  function Hear(s: State, chunk: Bytes): (t: State)
    requires s.Shaped() && s.socket.Some?
    ensures t.Shaped()
  {
    var here := s.Current();
    s.(received := s.received + chunk, streams := s.streams[s.generation - 1 := here.(input := here.input + chunk)])
  }

  /** start() up to its await, for a session that is not disposed: the attempt it will wait for, if any. */
  function EstablishConnection(s: State): (t: State)
    requires s.Shaped()
    ensures t.Shaped() && SameStreams(s, t)
    ensures t == s || (t.connection == Some(|s.attempts|) && t.attempts == s.attempts + [Opening])
  {
    if s.socket.Some? || s.connection.Some? then s
    else s.(attempts := s.attempts + [Opening], connection := Some(|s.attempts|))
  }

  /** finishConnection once the socket is open. */
  function FinishConnection(s: State, a: nat, id: SocketId): (t: State)
    requires s.Shaped() && a < |s.attempts|
    ensures t.Shaped()
  {
    if s.disposed || id in s.retired then s.(attempts := s.attempts[a := Rejected])
    else
      s.(attempts := s.attempts[a := Adopted], socket := Some(id), generation := s.generation + 1, received := [],
         adopted := s.adopted + [id], streams := s.streams + [Stream([], [])])
  }

  function Enter(s: State, i: nat, phase: Phase): State
    requires i < |s.exchanges|
  {
    s.(exchanges := s.exchanges[i := s.exchanges[i].(phase := phase)])
  }

  /** performExchange after its start(): bind to the live connection, or give up. */
  function Bind(s: State, i: nat): (t: State)
    requires s.Shaped() && i < |s.exchanges|
    ensures t.Shaped() && SameStreams(s, t)
  {
    if s.socket.None? then Enter(s, i, Done(NotSent))
    else
      var b := Binding(s.generation, s.socket.value, |s.Current().frames|);
      s.(exchanges := s.exchanges[i := s.exchanges[i].(phase := AwaitingTurn, binding := Some(b))], pending := Some(i))
  }

  function BeginExchange(s: State, i: nat, encodable: bool): (t: State)
    requires s.Shaped() && i < |s.exchanges|
    ensures t.Shaped() && SameStreams(s, t)
  {
    if s.disposed || !encodable then Enter(s, i, Done(NotSent))
    else if s.socket.Some? then Bind(s, i)
    else
      var t := EstablishConnection(s.(started := true));
      Enter(t, i, Starting(t.connection.value))
  }

  /** The finally block and the return of performExchange. */
  function Finish(s: State, i: nat, v: Verdict): (t: State)
    requires s.Shaped() && i < |s.exchanges|
    ensures t.Shaped() && SameStreams(s, t)
  {
    var t := Enter(s, i, Done(v));
    if s.pending == Some(i) then t.(pending := None) else t
  }

  /** The catch block: an exchange of the current generation takes the connection down with it. */
  function FailExchange(s: State, i: nat): (t: State)
    requires s.Shaped() && i < |s.exchanges|
    ensures t.Shaped() && SameStreams(s, t)
  {
    Finish(if BoundTo(s.exchanges[i], s.generation) then DropConnection(s) else s, i, Unknown)
  }

  function Dispose(s: State): (t: State)
    requires s.Shaped()
    ensures t.Shaped() && SameStreams(s, t)
  {
    if s.disposed then s
    else
      var t := ResolvePending(s.(disposed := true, started := false, timer := false), Unknown);
      if s.socket.None? then t else t.(socket := None, retired := s.retired + {s.socket.value})
  }

  /** SerialTaskQueue: a task starts once the task before it has settled. */
  predicate MayBegin(s: State, i: nat) {
    i < |s.exchanges| && s.exchanges[i].phase.Queued? && (i > 0 ==> s.exchanges[i - 1].phase.Done?)
  }

  predicate InPhase(s: State, i: nat, phase: Phase) {
    i < |s.exchanges| && s.exchanges[i].phase == phase
  }

  /** start() has settled for an exchange that awaited it: fail, or go on to bind. */
  function AfterStart(s: State, i: nat): (t: State)
    requires s.Shaped()
    ensures t.Shaped() && SameStreams(s, t)
  {
    if i >= |s.exchanges| || !s.exchanges[i].phase.Starting? then s
    else
      var a := s.exchanges[i].phase.attempt;
      if a >= |s.attempts| || s.attempts[a].Opening? then s
      else if s.attempts[a].Rejected? then Enter(s, i, Done(NotSent))
      else Bind(s, i)
  }

  /** The write queue reaches this exchange and hands its frame to the socket it was bound to. */
  function IssueWrite(s: State, i: nat): (t: State)
    requires s.Shaped()
    ensures t.Shaped() && SameStreams(s, t)
  {
    if !InPhase(s, i, AwaitingTurn) || s.exchanges[i].binding.None? then s
    else
      var e := s.exchanges[i];
      s.(exchanges := s.exchanges[i := e.(phase := Writing, written := Some(e.binding.value.socket))])
  }

  /** The promise of the response settles: with the deferred value, or by the timeout when there is none yet. */
  function AfterResponse(s: State, i: nat, timedOut: bool): (t: State)
    requires s.Shaped()
    ensures t.Shaped() && SameStreams(s, t)
  {
    if !InPhase(s, i, AwaitingResponse) || s.exchanges[i].settled.None? != timedOut then s
    else if timedOut then FailExchange(s, i)
    else Finish(s, i, s.exchanges[i].settled.value)
  }

  function SettleAttempt(s: State, a: nat): (t: State)
    requires s.Shaped()
    ensures t.Shaped() && SameStreams(s, t)
  {
    if s.connection != Some(a) || s.attempts[a].Opening? then s
    else (if s.attempts[a].Rejected? then ScheduleReconnect(s) else s).(connection := None)
  }

  function FinishAttempt(s: State, a: nat, id: Option<SocketId>): (t: State)
    requires s.Shaped()
    ensures t.Shaped()
  {
    if a >= |s.attempts| || !s.attempts[a].Opening? then s
    else if id.None? then s.(attempts := s.attempts[a := Rejected])
    else FinishConnection(s, a, id.value)
  }

  function Step(c: Config, s: State, e: Event): (t: State)
    requires s.Shaped()
    ensures t.Shaped()
  {
    hide BeginExchange, AfterStart, IssueWrite, FailExchange, AfterResponse, EstablishConnection, FinishAttempt,
      SettleAttempt, HandleEvent, Dispose;
    match e
    case ExchangeCalled => s.(exchanges := s.exchanges + [Exchange(Queued, None, None, None)])
    case ExchangeBegins(i, encodable) => if MayBegin(s, i) then BeginExchange(s, i, encodable) else s
    case StartReturns(i) => AfterStart(s, i)
    case WriteIssued(i) => IssueWrite(s, i)
    case WriteCompletes(i) => if InPhase(s, i, Writing) then Enter(s, i, AwaitingResponse) else s
    case WriteFails(i) => if InPhase(s, i, Writing) then FailExchange(s, i) else s
    case ResponseReturns(i) => AfterResponse(s, i, false)
    case ResponseTimesOut(i) => AfterResponse(s, i, true)
    case StartCalled => if s.disposed then s else EstablishConnection(s.(started := true))
    case Connected(a, id) => FinishAttempt(s, a, Some(id))
    case ConnectFails(a) => FinishAttempt(s, a, None)
    case ConnectionSettles(a) => SettleAttempt(s, a)
    case LateSocket(id) => s.(retired := s.retired + {id})
    case ReconnectTimerFires => if s.timer then EstablishConnection(s.(timer := false)) else s
    case FromSocket(id, what) => HandleEvent(c, s, id, what)
    case DisposeCalled => Dispose(s)
  }

  function Run(c: Config, events: seq<Event>): (s: State)
    ensures s.Shaped()
  {
    if events == [] then INITIAL else Step(c, Run(c, events[..|events| - 1]), events[|events| - 1])
  }
}
