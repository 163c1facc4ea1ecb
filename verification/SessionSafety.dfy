/** What every run of the persistent session keeps. */
module SessionSafety {
  import opened Prelude
  import opened Framing
  import opened FrameStream
  import opened Session

  // ----- The invariant -----

  /** The exchange ended, or is bound to end, not knowing whether its request was processed. */
  predicate EndsUnknown(e: Exchange) {
    e.settled == Some(Unknown) || e.phase == Done(Unknown)
  }

  /** No live connection has this generation any more. */
  predicate Over(s: State, generation: nat) {
    generation < s.generation || s.socket.None?
  }

  predicate Running(e: Exchange) {
    e.phase.AwaitingTurn? || e.phase.Writing? || e.phase.AwaitingResponse?
  }

  /** Frame `frame` of generation `g` exists and carries this payload. */
  predicate IsFrame(s: State, g: nat, frame: nat, payload: Bytes) {
    0 < g <= |s.streams| && frame < |s.streams[g - 1].frames| && s.streams[g - 1].frames[frame] == payload
  }

  predicate BindingOk(s: State, b: Binding) {
    && 0 < b.generation <= s.generation && b.generation <= |s.adopted| && b.generation <= |s.streams|
    && s.adopted[b.generation - 1] == b.socket
    && b.heard <= |s.streams[b.generation - 1].frames|
  }

  /** What has been handed to the deferred result is the outcome of the bound connection. */
  predicate SettledOk(s: State, e: Exchange) {
    match e.settled
    case None => true
    case Some(NotSent) => false
    case Some(Unknown) => e.binding.Some?
    case Some(Response(payload, g, frame)) =>
      BoundTo(e, g) && e.binding.value.heard <= frame && IsFrame(s, g, frame, payload)
  }

  predicate PhaseOk(e: Exchange) {
    match e.phase
    case Queued => e.binding.None? && e.settled.None? && e.written.None?
    case Starting(_) => e.binding.None? && e.settled.None? && e.written.None?
    case AwaitingTurn => e.binding.Some? && e.written.None?
    case Done(NotSent) => e.binding.None? && e.written.None?
    case Done(Response(_, _, _)) =>
      e.binding.Some? && e.written == Some(e.binding.value.socket) && e.settled == Some(e.phase.verdict)
    case _ => e.binding.Some? && e.written == Some(e.binding.value.socket)
  }

  predicate ExchangeOk(s: State, e: Exchange) {
    && PhaseOk(e)
    && (e.binding.Some? ==> BindingOk(s, e.binding.value))
    && SettledOk(s, e)
    && (EndsUnknown(e) && e.binding.Some? ==> Over(s, e.binding.value.generation))
  }

  /** A running exchange without a result is the pending one: nothing waits for an answer nobody can give. */
  predicate Waiting(s: State, i: nat)
    requires i < |s.exchanges|
  {
    Running(s.exchanges[i]) && s.exchanges[i].settled.None? ==> s.pending == Some(i)
  }

  ghost predicate Exchanges(s: State) {
    forall i | 0 <= i < |s.exchanges| :: ExchangeOk(s, s.exchanges[i]) && Waiting(s, i)
  }

  /** Exchanges run one after another. */
  ghost predicate Serial(s: State) {
    forall i, j | 0 <= i < j < |s.exchanges| :: !s.exchanges[j].phase.Queued? ==> s.exchanges[i].phase.Done?
  }

  /** What holds between an exchange and a later one, once both are bound. */
  predicate Ordered(e: Exchange, f: Exchange) {
    e.binding.Some? && f.binding.Some? ==>
      && e.binding.value.generation <= f.binding.value.generation
      && (EndsUnknown(e) ==> e.binding.value.generation < f.binding.value.generation)
      && (e.settled.Some? && e.settled.value.Response? && e.binding.value.generation == f.binding.value.generation ==>
            e.settled.value.frame < f.binding.value.heard)
  }

  ghost predicate Pairs(s: State) {
    forall i, j | 0 <= i < j < |s.exchanges| :: Ordered(s.exchanges[i], s.exchanges[j])
  }

  predicate PendingOk(s: State) {
    s.pending.Some? ==>
      && s.pending.value < |s.exchanges|
      && var e := s.exchanges[s.pending.value];
      && Running(e) && e.settled.None? && BoundTo(e, s.generation) && s.socket.Some?
  }

  ghost predicate Connections(s: State) {
    && (s.socket.Some? ==> 0 < s.generation <= |s.adopted| && s.socket.value == s.adopted[s.generation - 1])
    && (forall k | 0 <= k < |s.adopted| ::
          s.adopted[k] in s.retired || (k == s.generation - 1 && s.socket == Some(s.adopted[k])))
    && (forall j, k | 0 <= j < k < |s.adopted| :: s.adopted[j] != s.adopted[k])
    && (forall a | 0 <= a < |s.attempts| :: s.attempts[a].Opening? ==> s.connection == Some(a) && s.socket.None?)
    && (s.disposed ==> s.socket.None? && !s.timer && !s.started)
  }

  ghost predicate Inv(s: State)
    requires s.Shaped()
  {
    Exchanges(s) && Serial(s) && Pairs(s) && PendingOk(s) && Connections(s)
  }

  // ----- Changes to one exchange -----

  /** Every stream of `s` is still there in `t`, with the same frames and maybe more. */
  ghost predicate StreamsGrow(s: State, t: State) {
    && |s.streams| <= |t.streams| && |s.adopted| <= |t.adopted| && s.generation <= t.generation
    && (forall k | 0 <= k < |s.adopted| :: s.adopted[k] == t.adopted[k])
    && (forall k | 0 <= k < |s.streams| :: s.streams[k].frames <= t.streams[k].frames)
  }

  /** A connection that was over stays over. */
  predicate StaysOver(s: State, t: State) {
    t.socket.None? || (t.generation == s.generation && t.socket == s.socket) || s.generation < t.generation
  }

  lemma UntouchedExchange(s: State, t: State, e: Exchange)
    requires ExchangeOk(s, e) && StreamsGrow(s, t) && StaysOver(s, t)
    requires e.binding.Some? ==> e.binding.value.generation <= s.generation
    ensures ExchangeOk(t, e)
  {
    if e.settled.Some? && e.settled.value.Response? {
      var g := e.settled.value.generation;
      assert s.streams[g - 1].frames <= t.streams[g - 1].frames;
    }
    if e.binding.Some? {
      var g := e.binding.value.generation;
      assert s.adopted[g - 1] == t.adopted[g - 1];
      assert s.streams[g - 1].frames <= t.streams[g - 1].frames;
    }
  }

  /** No exchange changes. */
  lemma QuietKeeps(s: State, t: State)
    requires s.Shaped() && t.Shaped() && Inv(s)
    requires t.exchanges == s.exchanges && t.pending == s.pending
    requires StreamsGrow(s, t) && StaysOver(s, t) && PendingOk(t) && Connections(t)
    ensures Inv(t)
  {
    forall i | 0 <= i < |t.exchanges| ensures ExchangeOk(t, t.exchanges[i]) && Waiting(t, i) {
      assert ExchangeOk(s, s.exchanges[i]) && Waiting(s, i);
      UntouchedExchange(s, t, s.exchanges[i]);
    }
    forall i, j | 0 <= i < j < |t.exchanges| ensures Ordered(t.exchanges[i], t.exchanges[j]) {
      assert Ordered(s.exchanges[i], s.exchanges[j]);
    }
  }

  /** An exchange that is not done changes; the others do not, and nothing else was waiting. */
  predicate Changes(s: State, t: State, i: nat) {
    && i < |s.exchanges| && |t.exchanges| == |s.exchanges| && t.exchanges == s.exchanges[i := t.exchanges[i]]
    && !s.exchanges[i].phase.Done?
    && (s.exchanges[i].phase.Queued? ==> MayBegin(s, i) || t.exchanges[i].phase.Queued?)
    && (!s.exchanges[i].phase.Queued? ==> !t.exchanges[i].phase.Queued?)
    && (t.pending == s.pending || s.pending.None? || s.pending == Some(i))
  }

  lemma ChangeKeeps(s: State, t: State, i: nat)
    requires s.Shaped() && t.Shaped() && Inv(s) && Changes(s, t, i)
    requires StreamsGrow(s, t) && StaysOver(s, t) && PendingOk(t) && Connections(t)
    requires ExchangeOk(t, t.exchanges[i]) && Waiting(t, i)
    requires t.exchanges[i].binding == s.exchanges[i].binding
        || forall j | 0 <= j < i :: Ordered(s.exchanges[j], t.exchanges[i])
    ensures Inv(t)
  {
    hide ExchangeOk, Ordered, PendingOk, Connections, StreamsGrow, StaysOver;
    forall j | 0 <= j < |t.exchanges| ensures ExchangeOk(t, t.exchanges[j]) && Waiting(t, j) {
      assert ExchangeOk(s, s.exchanges[j]) && Waiting(s, j);
      if j != i {
        BoundWithin(s, s.exchanges[j]);
        UntouchedExchange(s, t, s.exchanges[j]);
      }
    }
    assert Serial(t) by {
      if s.exchanges[i].phase.Queued? && !t.exchanges[i].phase.Queued? && i > 0 {
        assert s.exchanges[i - 1].phase.Done?;
      }
    }
    forall j, k | 0 <= j < k < |t.exchanges| ensures Ordered(t.exchanges[j], t.exchanges[k]) {
      assert Ordered(s.exchanges[j], s.exchanges[k]);
      if j == i {
        LaterIsUnbound(s, t, i, k);
      } else if k == i {
        SameBindingOrdered(s.exchanges[j], s.exchanges[i], t.exchanges[i]);
      }
    }
  }

  /** The same when only that exchange and the pending mark change. */
  lemma LocalChangeKeeps(s: State, t: State, i: nat)
    requires s.Shaped() && t.Shaped() && Inv(s) && Changes(s, t, i) && PendingOk(t)
    requires t == s.(exchanges := t.exchanges, pending := t.pending)
    requires ExchangeOk(t, t.exchanges[i]) && Waiting(t, i)
    requires t.exchanges[i].binding == s.exchanges[i].binding
        || forall j | 0 <= j < i :: Ordered(s.exchanges[j], t.exchanges[i])
    ensures Inv(t)
  {
    hide Exchanges, Pairs, Serial, ExchangeOk, Ordered, PendingOk, Changes;
    ChangeKeeps(s, t, i);
  }

  lemma BoundWithin(s: State, e: Exchange)
    requires ExchangeOk(s, e)
    ensures e.binding.Some? ==> e.binding.value.generation <= s.generation
  {
  }

  lemma SameBindingOrdered(e: Exchange, f: Exchange, g: Exchange)
    requires Ordered(e, f)
    ensures f.binding == g.binding ==> Ordered(e, g)
  {
  }

  /** Exchanges after one that is not done have not begun. */
  lemma LaterIsUnbound(s: State, t: State, i: nat, k: nat)
    requires s.Shaped() && Inv(s) && Changes(s, t, i) && i < k < |s.exchanges|
    ensures Ordered(t.exchanges[i], s.exchanges[k])
  {
    assert ExchangeOk(s, s.exchanges[k]);
    assert s.exchanges[k].phase.Queued?;
  }

  // ----- Each piece of code keeps the invariant -----

  /** The pending exchange gets this result, and nothing is pending any more. */
  lemma ResolveKeeps(s: State, t: State, v: Verdict)
    requires s.Shaped() && t.Shaped() && Inv(s) && s.pending.Some?
    requires t.exchanges == s.exchanges[s.pending.value := s.exchanges[s.pending.value].(settled := Some(v))]
        && t.pending.None?
    requires StreamsGrow(s, t) && StaysOver(s, t) && Connections(t)
    requires SettledOk(t, t.exchanges[s.pending.value]) && (v == Unknown ==> t.socket.None?)
    ensures Inv(t)
  {
    var i := s.pending.value;
    assert ExchangeOk(s, s.exchanges[i]);
    UntouchedExchange(s, t, s.exchanges[i]);
    ChangeKeeps(s, t, i);
  }

  lemma DropKeeps(s: State)
    requires s.Shaped() && Inv(s)
    ensures Inv(DropConnection(s)) && StreamsGrow(s, DropConnection(s))
  {
    hide Exchanges, Pairs, Serial;
    var t := DropConnection(s);
    if s.pending.Some? {
      ResolveKeeps(s, t, Unknown);
    } else {
      QuietKeeps(s, t);
    }
  }

  lemma DisposeKeeps(s: State)
    requires s.Shaped() && Inv(s)
    ensures Inv(Dispose(s))
  {
    hide Exchanges, Pairs, Serial;
    var t := Dispose(s);
    if s.pending.Some? {
      ResolveKeeps(s, t, Unknown);
    } else {
      QuietKeeps(s, t);
    }
  }

  predicate Begins(s: State, i: nat) {
    MayBegin(s, i) || (i < |s.exchanges| && s.exchanges[i].phase.Starting?)
  }

  /** While an exchange is being prepared nothing is pending. */
  lemma NothingPending(s: State, i: nat)
    requires s.Shaped() && Inv(s) && Begins(s, i)
    ensures s.pending.None?
    ensures forall j | 0 <= j < i :: s.exchanges[j].phase.Done?
  {
    if s.exchanges[i].phase.Queued? && i > 0 {
      assert s.exchanges[i - 1].phase.Done?;
    }
  }

  lemma At(s: State, i: nat)
    requires s.Shaped() && Inv(s) && i < |s.exchanges|
    ensures ExchangeOk(s, s.exchanges[i]) && Waiting(s, i)
  {
  }

  lemma EnterKeeps(s: State, i: nat, phase: Phase)
    requires s.Shaped() && Inv(s) && Begins(s, i)
    requires phase.Starting? || phase == Done(NotSent)
    ensures Inv(Enter(s, i, phase))
  {
    hide Exchanges, Pairs, Serial, Connections;
    NothingPending(s, i);
    At(s, i);
    LocalChangeKeeps(s, Enter(s, i, phase), i);
  }

  lemma BindKeeps(s: State, i: nat)
    requires s.Shaped() && Inv(s) && Begins(s, i)
    ensures Inv(Bind(s, i))
  {
    hide Exchanges, Pairs, Serial;
    var t := Bind(s, i);
    NothingPending(s, i);
    if s.socket.None? {
      EnterKeeps(s, i, Done(NotSent));
    } else {
      At(s, i);
      forall j | 0 <= j < i ensures Ordered(s.exchanges[j], t.exchanges[i]) {
        At(s, j);
      }
      LocalChangeKeeps(s, t, i);
    }
  }

  lemma BeginKeeps(s: State, i: nat, encodable: bool)
    requires s.Shaped() && Inv(s) && MayBegin(s, i)
    ensures Inv(BeginExchange(s, i, encodable))
  {
    hide Exchanges, Pairs, Serial;
    if s.disposed || !encodable {
      EnterKeeps(s, i, Done(NotSent));
    } else if s.socket.Some? {
      BindKeeps(s, i);
    } else {
      var t := EstablishConnection(s.(started := true));
      QuietKeeps(s, t);
      EnterKeeps(t, i, Starting(t.connection.value));
    }
  }

  lemma AfterStartKeeps(s: State, i: nat)
    requires s.Shaped() && Inv(s)
    ensures Inv(AfterStart(s, i))
  {
    hide Exchanges, Pairs, Serial, Bind;
    if i < |s.exchanges| && s.exchanges[i].phase.Starting? {
      EnterKeeps(s, i, Done(NotSent));
      BindKeeps(s, i);
    }
  }

  lemma IssueKeeps(s: State, i: nat)
    requires s.Shaped() && Inv(s) && InPhase(s, i, AwaitingTurn)
    ensures Inv(IssueWrite(s, i))
  {
    hide Exchanges, Pairs, Serial, Connections;
    At(s, i);
    var t := IssueWrite(s, i);
    assert t == s.(exchanges := t.exchanges);
    LocalChangeKeeps(s, t, i);
  }

  lemma CompleteKeeps(s: State, i: nat)
    requires s.Shaped() && Inv(s) && InPhase(s, i, Writing)
    ensures Inv(Enter(s, i, AwaitingResponse))
  {
    hide Exchanges, Pairs, Serial, Connections;
    At(s, i);
    var t := Enter(s, i, AwaitingResponse);
    assert t == s.(exchanges := t.exchanges);
    LocalChangeKeeps(s, t, i);
  }

  lemma FailKeeps(s: State, i: nat)
    requires s.Shaped() && Inv(s)
    requires InPhase(s, i, Writing) || InPhase(s, i, AwaitingResponse)
    ensures Inv(FailExchange(s, i))
  {
    hide Exchanges, Pairs, Serial;
    At(s, i);
    var d := if BoundTo(s.exchanges[i], s.generation) then DropConnection(s) else s;
    DropKeeps(s);
    assert InPhase(d, i, s.exchanges[i].phase) && d.exchanges[i].binding == s.exchanges[i].binding;
    FinishUnknownKeeps(d, i);
  }

  lemma FinishUnknownKeeps(s: State, i: nat)
    requires s.Shaped() && Inv(s)
    requires InPhase(s, i, Writing) || InPhase(s, i, AwaitingResponse)
    requires s.exchanges[i].binding.Some? && Over(s, s.exchanges[i].binding.value.generation)
    ensures Inv(Finish(s, i, Unknown))
  {
    hide Exchanges, Pairs, Serial, Connections;
    At(s, i);
    LocalChangeKeeps(s, Finish(s, i, Unknown), i);
  }

  lemma AfterResponseKeeps(s: State, i: nat, timedOut: bool)
    requires s.Shaped() && Inv(s)
    ensures Inv(AfterResponse(s, i, timedOut))
  {
    hide Exchanges, Pairs, Serial, Connections;
    if InPhase(s, i, AwaitingResponse) {
      if timedOut {
        FailKeeps(s, i);
      } else if s.exchanges[i].settled.Some? {
        At(s, i);
        LocalChangeKeeps(s, Finish(s, i, s.exchanges[i].settled.value), i);
      }
    }
  }

  lemma EstablishKeeps(s: State, t: State)
    requires s.Shaped() && t.Shaped() && Inv(s) && !s.disposed
    requires t == s.(started := true) || t == s.(timer := false)
    ensures Inv(EstablishConnection(t))
  {
    hide Exchanges, Pairs, Serial;
    QuietKeeps(s, EstablishConnection(t));
  }

  lemma FinishAttemptKeeps(s: State, a: nat, id: Option<SocketId>)
    requires s.Shaped() && Inv(s)
    ensures Inv(FinishAttempt(s, a, id))
  {
    hide Exchanges, Pairs, Serial;
    if a < |s.attempts| && s.attempts[a].Opening? {
      assert s.connection == Some(a) && s.socket.None? && s.pending.None?;
      QuietKeeps(s, FinishAttempt(s, a, id));
    }
  }

  lemma SettleAttemptKeeps(s: State, a: nat)
    requires s.Shaped() && Inv(s)
    ensures Inv(SettleAttempt(s, a))
  {
    hide Exchanges, Pairs, Serial;
    QuietKeeps(s, SettleAttempt(s, a));
  }

  lemma HearKeeps(s: State, chunk: Bytes)
    requires s.Shaped() && Inv(s) && s.socket.Some?
    ensures Inv(Hear(s, chunk))
  {
    hide Exchanges, Pairs, Serial;
    QuietKeeps(s, Hear(s, chunk));
  }

  /** The routed payload recorded, before the router's answer is acted on. */
  function Record(s: State, payload: Bytes): (t: State)
    requires s.Shaped() && s.socket.Some?
    ensures t.Shaped()
  {
    var here := s.Current();
    s.(streams := s.streams[s.generation - 1 := here.(frames := here.frames + [payload])])
  }

  lemma RouteKeeps(c: Config, s: State, payload: Bytes)
    requires s.Shaped() && Inv(s) && s.socket.Some?
    ensures Inv(RoutePayload(c, s, payload))
  {
    hide Exchanges, Pairs, Serial;
    var heard := Record(s, payload);
    assert StreamsGrow(s, heard);
    QuietKeeps(s, heard);
    var t := RoutePayload(c, s, payload);
    match c.route(payload, s.pending) {
      case RouterThrows => DropKeeps(heard);
      case ResponseRoute =>
        if s.pending.Some? {
          ResponseKeeps(s, heard, payload);
        }
      case _ =>
    }
  }

  lemma ResponseKeeps(s: State, heard: State, payload: Bytes)
    requires s.Shaped() && Inv(s) && s.socket.Some? && s.pending.Some?
    requires heard == Record(s, payload) && Inv(heard)
    ensures Inv(ResolvePending(heard, Response(payload, s.generation, |s.Current().frames|)))
  {
    var v := Response(payload, s.generation, |s.Current().frames|);
    var t := ResolvePending(heard, v);
    At(s, s.pending.value);
    assert IsFrame(t, s.generation, |s.Current().frames|, payload);
    hide Exchanges, Pairs, Serial;
    ResolveKeeps(heard, t, v);
  }

  lemma {:induction false} DrainKeeps(c: Config, s: State)
    requires s.Shaped() && Inv(s)
    ensures Inv(DrainFrames(c, s))
    decreases |s.received|
  {
    hide Inv, RoutePayload, DropConnection;
    if s.received != [] && s.socket.Some? {
      var d := c.decode(s.received);
      if !d.Incomplete? {
        if Consumes(d, s.received) {
          var u := s.(received := s.received[d.consumed..]);
          ReceivedIsFree(s, u.received);
          RouteKeeps(c, u, d.payload);
          DrainKeeps(c, RoutePayload(c, u, d.payload));
        } else {
          DropKeeps(s);
        }
      }
    }
  }

  lemma ReceivedIsFree(s: State, received: Bytes)
    requires s.Shaped() && Inv(s)
    ensures Inv(s.(received := received))
  {
    hide Exchanges, Pairs, Serial;
    QuietKeeps(s, s.(received := received));
  }

  lemma HandleEventKeeps(c: Config, s: State, id: SocketId, what: SocketEvent)
    requires s.Shaped() && Inv(s)
    ensures Inv(HandleEvent(c, s, id, what))
  {
    hide Inv, DrainFrames, DropConnection, Hear;
    DropKeeps(s);
    if s.socket.Some? && what.Data? {
      HearKeeps(s, what.chunk);
      DrainKeeps(c, Hear(s, what.chunk));
    }
  }

  lemma CallKeeps(s: State)
    requires s.Shaped() && Inv(s)
    ensures Inv(s.(exchanges := s.exchanges + [Exchange(Queued, None, None, None)]))
  {
    var t := s.(exchanges := s.exchanges + [Exchange(Queued, None, None, None)]);
    forall i | 0 <= i < |t.exchanges| ensures ExchangeOk(t, t.exchanges[i]) && Waiting(t, i) {
      if i < |s.exchanges| {
        assert ExchangeOk(s, s.exchanges[i]) && Waiting(s, i);
        UntouchedExchange(s, t, s.exchanges[i]);
      }
    }
    forall i, j | 0 <= i < j < |t.exchanges| ensures Ordered(t.exchanges[i], t.exchanges[j]) {
      if j < |s.exchanges| {
        assert Ordered(s.exchanges[i], s.exchanges[j]);
      }
    }
  }

  lemma StepKeeps(c: Config, s: State, e: Event)
    requires s.Shaped() && Inv(s)
    ensures Inv(Step(c, s, e))
  {
    hide Inv, BeginExchange, AfterStart, FailExchange, AfterResponse, FinishAttempt, SettleAttempt, HandleEvent,
      Dispose, EstablishConnection, MayBegin, Enter;
    match e
    case ExchangeCalled => CallKeeps(s);
    case ExchangeBegins(i, encodable) => if MayBegin(s, i) { BeginKeeps(s, i, encodable); }
    case StartReturns(i) => AfterStartKeeps(s, i);
    case WriteIssued(i) => if InPhase(s, i, AwaitingTurn) { IssueKeeps(s, i); }
    case WriteCompletes(i) => if InPhase(s, i, Writing) { CompleteKeeps(s, i); }
    case WriteFails(i) => if InPhase(s, i, Writing) { FailKeeps(s, i); }
    case ResponseReturns(i) => AfterResponseKeeps(s, i, false);
    case ResponseTimesOut(i) => AfterResponseKeeps(s, i, true);
    case StartCalled => if !s.disposed { EstablishKeeps(s, s.(started := true)); }
    case Connected(a, id) => FinishAttemptKeeps(s, a, Some(id));
    case ConnectFails(a) => FinishAttemptKeeps(s, a, None);
    case ConnectionSettles(a) => SettleAttemptKeeps(s, a);
    case LateSocket(id) => LateSocketKeeps(s, id);
    case ReconnectTimerFires => if s.timer { TimerKeeps(s); }
    case FromSocket(id, what) => HandleEventKeeps(c, s, id, what);
    case DisposeCalled => DisposeKeeps(s);
  }

  lemma LateSocketKeeps(s: State, id: SocketId)
    requires s.Shaped() && Inv(s)
    ensures Inv(s.(retired := s.retired + {id}))
  {
    hide Exchanges, Pairs, Serial;
    QuietKeeps(s, s.(retired := s.retired + {id}));
  }

  lemma TimerKeeps(s: State)
    requires s.Shaped() && Inv(s) && s.timer
    ensures Inv(EstablishConnection(s.(timer := false)))
  {
    assert !s.disposed;
    EstablishKeeps(s, s.(timer := false));
  }

  lemma {:induction false} RunKeeps(c: Config, events: seq<Event>)
    ensures Inv(Run(c, events))
    decreases |events|
  {
    hide Step;
    if events != [] {
      RunKeeps(c, events[..|events| - 1]);
      StepKeeps(c, Run(c, events[..|events| - 1]), events[|events| - 1]);
    }
  }

  // ----- The byte streams -----

  ghost predicate RouterNeverThrows(c: Config) {
    forall payload: Bytes, pending: Option<nat> :: c.route(payload, pending) != RouterThrows
  }

  /** What has been routed of one stream is a prefix of the frames it parses to; all of them if no router throws. */
  ghost predicate StreamOk(c: Config, stream: Stream) {
    && stream.frames <= Parse(c.decode, stream.input).frames
    && (RouterNeverThrows(c) ==> stream.frames == Parse(c.decode, stream.input).frames)
  }

  ghost predicate Streams(c: Config, s: State)
    requires s.Shaped()
  {
    && (forall k | 0 <= k < |s.streams| :: StreamOk(c, s.streams[k]))
    && (s.socket.Some? ==> Parse(c.decode, s.Current().input) == Parsed(s.Current().frames, s.received, false))
  }

  /** The effect of draining the buffer: the frames in it are routed in order, all of them while the socket lives. */
  ghost predicate DrainedTo(c: Config, s: State, t: State)
    requires s.Shaped() && t.Shaped() && s.socket.Some?
  {
    var here, there, p := s.Current(), t.streams, Parse(c.decode, s.received);
    && t.generation == s.generation
    && there == s.streams[s.generation - 1 := there[s.generation - 1]]
    && there[s.generation - 1].input == here.input
    && var now := there[s.generation - 1].frames;
    && here.frames <= now <= here.frames + p.frames
    && (RouterNeverThrows(c) ==> now == here.frames + p.frames)
    && (t.socket.Some? ==> t.socket == s.socket && now == here.frames + p.frames && t.received == p.rest && !p.broken)
  }

  lemma RouteStreams(c: Config, s: State, payload: Bytes)
    requires s.Shaped() && s.socket.Some?
    ensures
      var t := RoutePayload(c, s, payload);
      && t.streams == Record(s, payload).streams && t.generation == s.generation
      && (t.socket.Some? ==> t.socket == s.socket && t.received == s.received)
      && (t.socket.None? ==> t.received == [] && c.route(payload, s.pending) == RouterThrows)
  {
    hide Resolve;
  }

  lemma {:induction false} DrainEffect(c: Config, s: State)
    requires s.Shaped() && s.socket.Some?
    ensures DrainedTo(c, s, DrainFrames(c, s))
    decreases |s.received|
  {
    hide RoutePayload, RouterNeverThrows, DropConnection;
    var d := c.decode(s.received);
    var here := s.Current().frames;
    if s.received == [] || d.Incomplete? {
      assert here + [] == here;
    } else if Consumes(d, s.received) {
      var u := s.(received := s.received[d.consumed..]);
      var t := RoutePayload(c, u, d.payload);
      RouteStreams(c, u, d.payload);
      var p := Parse(c.decode, u.received);
      assert Parse(c.decode, s.received) == p.After([d.payload]);
      assert here + [d.payload] + p.frames == here + ([d.payload] + p.frames);
      if t.socket.Some? {
        DrainEffect(c, t);
        DrainStep(c, s, t, DrainFrames(c, s), d.payload);
      } else {
        assert DrainFrames(c, s) == t;
        assert !RouterNeverThrows(c) by { NotAlways(c, d.payload, s.pending); }
      }
    } else {
      assert here + [] == here;
    }
  }

  lemma NotAlways(c: Config, payload: Bytes, pending: Option<nat>)
    requires c.route(payload, pending) == RouterThrows
    ensures !RouterNeverThrows(c)
  {
  }

  /** One routed frame, then the rest of the drain. */
  lemma DrainStep(c: Config, s: State, t: State, last: State, payload: Bytes)
    requires s.Shaped() && t.Shaped() && last.Shaped() && s.socket.Some? && t.socket == s.socket
    requires t.generation == s.generation && t.streams == Record(s, payload).streams
    requires Parse(c.decode, s.received) == Parse(c.decode, t.received).After([payload])
    requires DrainedTo(c, t, last)
    ensures DrainedTo(c, s, last)
  {
    hide Parse, RouterNeverThrows;
    var p := Parse(c.decode, t.received);
    assert s.Current().frames + [payload] + p.frames == s.Current().frames + ([payload] + p.frames);
  }

  lemma HandleEventStreams(c: Config, s: State, id: SocketId, what: SocketEvent)
    requires s.Shaped() && Stable(c.decode) && Streams(c, s)
    ensures Streams(c, HandleEvent(c, s, id, what))
  {
    hide Stable, DrainFrames, Parse, RouterNeverThrows;
    if s.socket == Some(id) && what.Data? {
      var here, heard := s.Current(), Hear(s, what.chunk);
      var input := here.input + what.chunk;
      ParseContinues(c.decode, here.input, what.chunk);
      assert Parse(c.decode, input) == Parse(c.decode, heard.received).After(here.frames);
      DrainEffect(c, heard);
      RestIsDrained(c.decode, heard.received);
      var t := DrainFrames(c, heard);
      forall k | 0 <= k < |t.streams| ensures StreamOk(c, t.streams[k]) {
        if k != s.generation - 1 {
          assert t.streams[k] == s.streams[k];
        }
      }
    }
  }

  lemma SameStreamsKeep(c: Config, s: State, t: State)
    requires s.Shaped() && t.Shaped() && Streams(c, s) && SameStreams(s, t)
    ensures Streams(c, t)
  {
  }

  lemma FinishAttemptStreams(c: Config, s: State, a: nat, id: Option<SocketId>)
    requires s.Shaped() && Streams(c, s)
    ensures Streams(c, FinishAttempt(s, a, id))
  {
    hide Parse;
    EmptyParse(c.decode);
    var t := FinishAttempt(s, a, id);
    if !SameStreams(s, t) {
      assert t.streams == s.streams + [Stream([], [])];
      assert StreamOk(c, Stream([], []));
    }
  }

  lemma StepStreams(c: Config, s: State, e: Event)
    requires s.Shaped() && Stable(c.decode) && Streams(c, s)
    ensures Streams(c, Step(c, s, e))
  {
    hide Streams, Stable, Parse, HandleEvent, FinishAttempt, RouterNeverThrows, BeginExchange, AfterStart, IssueWrite,
      FailExchange, AfterResponse, SettleAttempt, Dispose, EstablishConnection, MayBegin;
    match e
    case FromSocket(id, what) => HandleEventStreams(c, s, id, what);
    case Connected(a, id) => FinishAttemptStreams(c, s, a, Some(id));
    case ConnectFails(a) => FinishAttemptStreams(c, s, a, None);
    case _ => SameStreamsKeep(c, s, Step(c, s, e));
  }

  lemma EmptyParse(decode: Bytes -> Decoded)
    ensures Parse(decode, []) == Parsed([], [], false)
  {
  }

  lemma {:induction false} RunStreams(c: Config, events: seq<Event>)
    requires Stable(c.decode)
    ensures Streams(c, Run(c, events))
    decreases |events|
  {
    hide Step, Stable, Parse;
    if events != [] {
      RunStreams(c, events[..|events| - 1]);
      StepStreams(c, Run(c, events[..|events| - 1]), events[|events| - 1]);
    }
  }

  // ----- Over all runs -----

  /** An exchange that ends `unknown` is the last exchange of its connection generation. */
  lemma UnknownEndsItsGeneration(c: Config, events: seq<Event>, i: nat, j: nat)
    requires
      var s := Run(c, events);
      i < j && InPhase(s, i, Done(Unknown)) && j < |s.exchanges| && s.exchanges[j].binding.Some?
    ensures
      var s := Run(c, events);
      && s.exchanges[i].binding.Some?
      && s.exchanges[i].binding.value.generation < s.exchanges[j].binding.value.generation
  {
    hide Run;
    RunKeeps(c, events);
    var s := Run(c, events);
    At(s, i);
    assert Ordered(s.exchanges[i], s.exchanges[j]);
  }

  /**
   * A delivered response is a frame of the byte stream of the connection generation its request was bound to,
   * and that frame came after the binding.
   */
  lemma ResponseAnswersItsRequest(c: Config, events: seq<Event>, i: nat, payload: Bytes, g: nat, frame: nat)
    requires Stable(c.decode) && InPhase(Run(c, events), i, Done(Response(payload, g, frame)))
    ensures
      var s := Run(c, events);
      && BoundTo(s.exchanges[i], g) && s.exchanges[i].binding.value.heard <= frame
      && 0 < g <= |s.streams|
      && var parsed := Parse(c.decode, s.streams[g - 1].input).frames;
      && frame < |parsed| && parsed[frame] == payload
  {
    hide Run, Stable, Parse;
    RunKeeps(c, events);
    RunStreams(c, events);
    var s := Run(c, events);
    At(s, i);
    assert StreamOk(c, s.streams[g - 1]);
  }

  /** No frame answers two exchanges. */
  lemma FramesAnswerOnce(c: Config, events: seq<Event>, i: nat, j: nat, p: Bytes, q: Bytes, g: nat, h: nat, m: nat,
      n: nat)
    requires
      var s := Run(c, events);
      i < j && InPhase(s, i, Done(Response(p, g, m))) && InPhase(s, j, Done(Response(q, h, n)))
    ensures g < h || (g == h && m < n)
  {
    hide Run;
    RunKeeps(c, events);
    var s := Run(c, events);
    At(s, i);
    At(s, j);
    assert Ordered(s.exchanges[i], s.exchanges[j]);
  }

  /**
   * `notSent` means no write was issued for the request; every other verdict means one was,
   * on the socket that was adopted for the bound generation.
   */
  lemma NotSentIffNeverWritten(c: Config, events: seq<Event>, i: nat)
    requires var s := Run(c, events); i < |s.exchanges| && s.exchanges[i].phase.Done?
    ensures
      var s := Run(c, events);
      var e := s.exchanges[i];
      && (e.phase.verdict.NotSent? <==> e.written.None?)
      && (e.written.Some? ==>
            && e.binding.Some? && 0 < e.binding.value.generation <= |s.adopted|
            && e.written.value == s.adopted[e.binding.value.generation - 1])
  {
    hide Run;
    RunKeeps(c, events);
    At(Run(c, events), i);
  }

  /** At most one exchange is under way, and the pending one is bound to the live connection. */
  lemma OneAtATime(c: Config, events: seq<Event>, i: nat, j: nat)
    requires var s := Run(c, events); i < j < |s.exchanges|
    ensures
      var s := Run(c, events);
      && (s.exchanges[i].phase.Done? || s.exchanges[j].phase.Queued?)
      && (s.pending == Some(i) ==> s.socket.Some? && BoundTo(s.exchanges[i], s.generation) && Running(s.exchanges[i]))
  {
    hide Run;
    RunKeeps(c, events);
    var s := Run(c, events);
    assert !s.exchanges[j].phase.Queued? ==> s.exchanges[i].phase.Done?;
  }

  /** No socket id is adopted twice, even when the network layer hands out an id again. */
  lemma SocketsAreAdoptedOnce(c: Config, events: seq<Event>, j: nat, k: nat)
    requires j < k < |Run(c, events).adopted|
    ensures Run(c, events).adopted[j] != Run(c, events).adopted[k]
    ensures Run(c, events).adopted[j] in Run(c, events).retired
  {
    hide Run;
    RunKeeps(c, events);
  }

  /** With a router that never throws, the routed payloads depend on the bytes alone, not on how they were cut. */
  lemma RoutedFramesOfGeneration(c: Config, events: seq<Event>, g: nat)
    requires Stable(c.decode) && RouterNeverThrows(c) && 0 < g <= |Run(c, events).streams|
    ensures
      var stream := Run(c, events).streams[g - 1];
      stream.frames == Parse(c.decode, stream.input).frames
  {
    hide Run, Stable, Parse, RouterNeverThrows;
    RunStreams(c, events);
    assert StreamOk(c, Run(c, events).streams[g - 1]);
  }

  /** A peer that sends encode(p1)..encode(pn) has exactly p1..pn routed, however the bytes arrive. */
  lemma EncodedPayloadsAreRouted(o: FrameOptions, c: Config, events: seq<Event>, g: nat, payloads: seq<Bytes>)
    requires o.Accepted() && c.decode == Decoder(o) && RouterNeverThrows(c)
    requires 0 < g <= |Run(c, events).streams|
    requires (forall p <- payloads :: EncodeFrame(o, p).Ok?)
    requires Run(c, events).streams[g - 1].input == EncodeAll(o, payloads)
    ensures Run(c, events).streams[g - 1].frames == payloads
    ensures g == Run(c, events).generation && Run(c, events).socket.Some? ==> Run(c, events).received == []
  {
    hide Run, Parse, RouterNeverThrows, Decoder, Stable;
    DecoderIsStable(o);
    RoutedFramesOfGeneration(c, events, g);
    RunStreams(c, events);
    EncodedStream(o, payloads);
  }

  // ----- After dispose() -----

  lemma DisposedStep(c: Config, s: State, e: Event)
    requires s.Shaped() && Inv(s) && s.disposed
    ensures Step(c, s, e).disposed && Step(c, s, e).adopted == s.adopted
  {
    hide Exchanges, Pairs, Serial, PendingOk;
    match e
    case ExchangeBegins(i, encodable) =>
    case StartReturns(i) =>
    case WriteIssued(i) =>
    case WriteFails(i) =>
    case ResponseReturns(i) =>
    case ResponseTimesOut(i) =>
    case _ =>
  }

  lemma {:induction false} NothingIsAdoptedAfterDispose(c: Config, events: seq<Event>, more: seq<Event>)
    requires Run(c, events).disposed
    ensures Run(c, events + more).disposed && Run(c, events + more).adopted == Run(c, events).adopted
    decreases |more|
  {
    hide Step, Inv;
    if more == [] {
      assert events + more == events;
    } else {
      var all := events + more;
      assert all[..|all| - 1] == events + more[..|more| - 1];
      NothingIsAdoptedAfterDispose(c, events, more[..|more| - 1]);
      RunKeeps(c, all[..|all| - 1]);
      DisposedStep(c, Run(c, all[..|all| - 1]), all[|all| - 1]);
    }
  }
}
