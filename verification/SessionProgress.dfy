/**
 * What the persistent session gives its callers: a response that arrives is delivered, a lost connection ends the
 * pending exchange as unknown and is replaced, and an undisturbed exchange succeeds.
 */
module SessionProgress {
  import opened Prelude
  import opened Framing
  import opened FrameStream
  import opened Session
  import opened SessionSafety

  lemma RunAppend(c: Config, events: seq<Event>, e: Event)
    ensures Run(c, events + [e]) == Step(c, Run(c, events), e)
  {
    assert (events + [e])[..|events|] == events;
  }

  // ----- Frames of one chunk -----

  /** The first `k` frames are for somebody else: inbound, or to be ignored. */
  predicate PassBy(c: Config, frames: seq<Bytes>, k: nat, pending: Option<nat>)
    requires k <= |frames|
  {
    forall j | 0 <= j < k :: c.route(frames[j], pending).InboundRoute? || c.route(frames[j], pending).IgnoreRoute?
  }

  /** Frame `k` is the first one that the router takes for the response. */
  predicate FirstResponse(c: Config, frames: seq<Bytes>, k: nat, pending: Option<nat>) {
    k < |frames| && PassBy(c, frames, k, pending) && c.route(frames[k], pending).ResponseRoute?
  }

  /** The router throws on no frame from `k` on, when nothing is pending any more. */
  predicate RestRouted(c: Config, frames: seq<Bytes>, k: nat) {
    forall j | k <= j < |frames| :: !c.route(frames[j], None).RouterThrows?
  }

  /** The exchange has this result, which nothing changes any more. */
  predicate Settled(s: State, i: nat, v: Verdict, phase: Phase) {
    i < |s.exchanges| && s.exchanges[i].settled == Some(v) && s.exchanges[i].phase == phase
  }

  /** The first frame in the buffer is routed, and then the rest of the buffer is drained. */
  lemma DrainFirst(c: Config, s: State) returns (u: State, payload: Bytes)
    requires s.Shaped() && s.socket.Some? && Parse(c.decode, s.received).frames != []
    ensures u == s.(received := u.received) && u.Shaped() && |u.received| < |s.received|
    ensures DrainFrames(c, s) == DrainFrames(c, RoutePayload(c, u, payload))
    ensures
      var p, q := Parse(c.decode, s.received), Parse(c.decode, u.received);
      payload == p.frames[0] && q.frames == p.frames[1..] && q.rest == p.rest && q.broken == p.broken
  {
    hide RoutePayload;
    var d := c.decode(s.received);
    u, payload := s.(received := s.received[d.consumed..]), d.payload;
    assert Parse(c.decode, s.received).frames == [payload] + Parse(c.decode, u.received).frames;
  }

  lemma DrainStops(c: Config, s: State)
    requires s.Shaped() && s.socket.Some? && Parse(c.decode, s.received).frames == []
    ensures
      var p := Parse(c.decode, s.received);
      DrainFrames(c, s) == if p.broken then DropConnection(s) else s
    ensures !Parse(c.decode, s.received).broken ==> Parse(c.decode, s.received).rest == s.received
  {
  }

  lemma PassByTail(c: Config, frames: seq<Bytes>, k: nat, pending: Option<nat>)
    requires 0 < k <= |frames| && PassBy(c, frames, k, pending)
    ensures c.route(frames[0], pending).InboundRoute? || c.route(frames[0], pending).IgnoreRoute?
    ensures PassBy(c, frames[1..], k - 1, pending)
  {
  }

  /** A frame that is for somebody else is recorded, and that is all. */
  lemma FramePasses(c: Config, s: State, payload: Bytes)
    requires s.Shaped() && s.socket.Some?
    requires c.route(payload, s.pending).InboundRoute? || c.route(payload, s.pending).IgnoreRoute?
    ensures RoutePayload(c, s, payload) == Record(s, payload)
  {
  }

  /** With nothing pending no exchange changes. */
  lemma NothingToResolve(c: Config, s: State, payload: Bytes)
    requires s.Shaped() && s.socket.Some? && s.pending.None?
    ensures
      var t := RoutePayload(c, s, payload);
      && t.exchanges == s.exchanges && t.pending.None?
      && (!c.route(payload, None).RouterThrows? ==> t.socket == s.socket && t.received == s.received)
      && (c.route(payload, None).RouterThrows? ==> t.socket.None?)
  {
  }

  lemma DropWithNothingPending(s: State)
    requires s.Shaped() && s.pending.None?
    ensures DropConnection(s).exchanges == s.exchanges && DropConnection(s).pending.None?
  {
  }

  lemma NoSocketNoDrain(c: Config, s: State)
    requires s.Shaped() && s.socket.None?
    ensures DrainFrames(c, s) == s
  {
  }

  lemma {:induction false} DrainNothingPending(c: Config, s: State)
    requires s.Shaped() && s.pending.None? && s.socket.Some?
    ensures DrainFrames(c, s).exchanges == s.exchanges && DrainFrames(c, s).pending.None?
    ensures
      var p := Parse(c.decode, s.received);
      RestRouted(c, p.frames, 0) && !p.broken ==>
        DrainFrames(c, s).socket == s.socket && DrainFrames(c, s).received == p.rest
    decreases |s.received|
  {
    hide Parse, DrainFrames, DropConnection, RoutePayload;
    if Parse(c.decode, s.received).frames == [] {
      DrainStops(c, s);
      DropWithNothingPending(s);
    } else {
      var u, payload := DrainFirst(c, s);
      NothingToResolve(c, u, payload);
      var t := RoutePayload(c, u, payload);
      if t.socket.Some? {
        DrainNothingPending(c, t);
      } else {
        NoSocketNoDrain(c, t);
      }
    }
  }

  lemma {:induction false} DrainDelivers(c: Config, s: State, i: nat, k: nat)
    requires s.Shaped() && s.socket.Some? && s.pending == Some(i)
    requires s.exchanges[i].settled.None? && BoundTo(s.exchanges[i], s.generation)
    requires FirstResponse(c, Parse(c.decode, s.received).frames, k, Some(i))
    ensures
      var p, t := Parse(c.decode, s.received), DrainFrames(c, s);
      && Settled(t, i, Response(p.frames[k], s.generation, |s.Current().frames| + k), s.exchanges[i].phase)
      && t.pending.None?
      && (RestRouted(c, p.frames, k + 1) && !p.broken ==> t.socket == s.socket && t.received == p.rest)
    decreases |s.received|
  {
    hide Parse, DrainFrames, RoutePayload, PassBy;
    var u, payload := DrainFirst(c, s);
    if k == 0 {
      DeliverNow(c, u, i, payload);
      DrainNothingPending(c, RoutePayload(c, u, payload));
    } else {
      PassByTail(c, Parse(c.decode, s.received).frames, k, Some(i));
      FramePasses(c, u, payload);
      DrainDelivers(c, Record(u, payload), i, k - 1);
    }
  }

  /** routePayload on the pending exchange's response. */
  lemma DeliverNow(c: Config, s: State, i: nat, payload: Bytes)
    requires s.Shaped() && s.socket.Some? && s.pending == Some(i)
    requires s.exchanges[i].settled.None? && BoundTo(s.exchanges[i], s.generation)
    requires c.route(payload, Some(i)).ResponseRoute?
    ensures
      var t := RoutePayload(c, s, payload);
      && Settled(t, i, Response(payload, s.generation, |s.Current().frames|), s.exchanges[i].phase)
      && t.pending.None? && t.socket == s.socket && t.received == s.received && t.generation == s.generation
  {
  }

  /** Frames for somebody else change no exchange and leave the connection alone. */
  lemma {:induction false} DrainPasses(c: Config, s: State)
    requires s.Shaped() && s.socket.Some?
    requires
      var p := Parse(c.decode, s.received);
      !p.broken && PassBy(c, p.frames, |p.frames|, s.pending)
    ensures
      var p, t := Parse(c.decode, s.received), DrainFrames(c, s);
      && t.exchanges == s.exchanges && t.pending == s.pending && t.socket == s.socket && t.timer == s.timer
      && t.received == p.rest && t.generation == s.generation && t.Current().frames == s.Current().frames + p.frames
    decreases |s.received|
  {
    hide Parse, DrainFrames, RoutePayload, PassBy;
    var p, here := Parse(c.decode, s.received).frames, s.Current().frames;
    if p == [] {
      DrainStops(c, s);
      assert here + p == here;
    } else {
      var u, payload := DrainFirst(c, s);
      PassByTail(c, p, |p|, s.pending);
      FramePasses(c, u, payload);
      DrainPasses(c, Record(u, payload));
      assert here + [payload] + p[1..] == here + p;
    }
  }

  // ----- The response is delivered -----

  /** The pending exchange has no result yet and is bound to the live connection. */
  lemma PendingIsLive(c: Config, events: seq<Event>, i: nat)
    requires Run(c, events).pending == Some(i)
    ensures
      var s := Run(c, events);
      && i < |s.exchanges| && s.exchanges[i].settled.None? && BoundTo(s.exchanges[i], s.generation) && s.socket.Some?
  {
    hide Run;
    RunKeeps(c, events);
  }

  lemma HeardChunk(c: Config, s: State, id: SocketId, chunk: Bytes)
    requires s.Shaped() && s.socket == Some(id)
    ensures
      var h := Hear(s, chunk);
      && Step(c, s, FromSocket(id, Data(chunk))) == DrainFrames(c, h)
      && h.received == s.received + chunk && h.exchanges == s.exchanges && h.pending == s.pending
      && h.socket == s.socket && h.generation == s.generation && h.Current().frames == s.Current().frames
      && h.started == s.started && h.disposed == s.disposed && h.retired == s.retired && h.timer == s.timer
  {
  }

  /**
   * In every run: the first frame of a chunk that the router takes for the response of the pending exchange is its
   * result, whatever came before and after it in the chunk and in the buffer. The connection stays up unless a later
   * frame is bad or makes the router throw.
   */
  lemma ResponseIsTaken(c: Config, events: seq<Event>, i: nat, id: SocketId, chunk: Bytes, k: nat)
    requires
      var s := Run(c, events);
      && s.pending == Some(i) && s.socket == Some(id)
      && FirstResponse(c, Parse(c.decode, s.received + chunk).frames, k, Some(i))
    ensures
      var s, t := Run(c, events), Run(c, events + [FromSocket(id, Data(chunk))]);
      var p := Parse(c.decode, s.received + chunk);
      && Settled(t, i, Response(p.frames[k], s.generation, |s.Current().frames| + k), s.exchanges[i].phase)
      && (RestRouted(c, p.frames, k + 1) && !p.broken ==> t.socket == Some(id) && t.received == p.rest)
  {
    hide Run, Parse, Step, DrainFrames, FirstResponse, RestRouted, Settled, Hear, BoundTo;
    PendingIsLive(c, events, i);
    var s := Run(c, events);
    RunAppend(c, events, FromSocket(id, Data(chunk)));
    HeardChunk(c, s, id, chunk);
    DrainDelivers(c, Hear(s, chunk), i, k);
  }

  lemma SettledReturns(c: Config, s: State, i: nat, v: Verdict)
    requires s.Shaped() && Settled(s, i, v, AwaitingResponse)
    ensures
      var t := Step(c, s, ResponseReturns(i));
      InPhase(t, i, Done(v)) && t.socket == s.socket && t.generation == s.generation && t.received == s.received
  {
  }

  /** And an exchange that waits for it returns it to its caller, with the connection left alone. */
  lemma ResponseIsDelivered(c: Config, events: seq<Event>, i: nat, id: SocketId, chunk: Bytes, k: nat)
    requires
      var s := Run(c, events);
      && s.pending == Some(i) && s.socket == Some(id) && InPhase(s, i, AwaitingResponse)
      && FirstResponse(c, Parse(c.decode, s.received + chunk).frames, k, Some(i))
    ensures
      var s, t := Run(c, events), Run(c, events + [FromSocket(id, Data(chunk)), ResponseReturns(i)]);
      var p := Parse(c.decode, s.received + chunk);
      && InPhase(t, i, Done(Response(p.frames[k], s.generation, |s.Current().frames| + k)))
      && (RestRouted(c, p.frames, k + 1) && !p.broken ==> t.socket == Some(id) && t.received == p.rest)
  {
    hide Run, Parse, Step;
    ResponseIsTaken(c, events, i, id, chunk, k);
    var heard := events + [FromSocket(id, Data(chunk))];
    RunAppend(c, heard, ResponseReturns(i));
    assert heard + [ResponseReturns(i)] == events + [FromSocket(id, Data(chunk)), ResponseReturns(i)];
    var s := Run(c, events);
    SettledReturns(c, Run(c, heard), i,
      Response(Parse(c.decode, s.received + chunk).frames[k], s.generation, |s.Current().frames| + k));
  }

  /** Frames that are not for it leave the pending exchange waiting, and the connection up. */
  lemma OtherFramesChangeNothing(c: Config, events: seq<Event>, id: SocketId, chunk: Bytes)
    requires
      var s := Run(c, events);
      var p := Parse(c.decode, s.received + chunk);
      s.socket == Some(id) && !p.broken && PassBy(c, p.frames, |p.frames|, s.pending)
    ensures
      var s, t := Run(c, events), Run(c, events + [FromSocket(id, Data(chunk))]);
      && t.exchanges == s.exchanges && t.pending == s.pending && t.socket == s.socket && t.generation == s.generation
      && t.received == Parse(c.decode, s.received + chunk).rest
      && t.Current().frames == s.Current().frames + Parse(c.decode, s.received + chunk).frames
  {
    hide Run, Parse;
    RunAppend(c, events, FromSocket(id, Data(chunk)));
    HeardChunk(c, Run(c, events), id, chunk);
    DrainPasses(c, Hear(Run(c, events), chunk));
  }

  // ----- A connection is lost -----

  /** The connection is gone for good, its pending exchange is unknown, and a reconnect is due if the session runs. */
  predicate Lost(s: State, t: State)
    requires s.socket.Some?
  {
    && t.socket.None? && s.socket.value in t.retired && t.received == [] && t.pending.None?
    && |t.exchanges| == |s.exchanges|
    && (forall i | 0 <= i < |s.exchanges| ::
          t.exchanges[i] == if s.pending == Some(i) && s.exchanges[i].settled.None?
                            then s.exchanges[i].(settled := Some(Unknown)) else s.exchanges[i])
    && (s.started && !s.disposed ==> t.timer)
  }

  lemma DropLoses(s: State)
    requires s.Shaped() && s.socket.Some?
    ensures Lost(s, DropConnection(s))
  {
  }

  /** The frame that ends the connection: bytes that are no frame, or one that makes the router throw. */
  predicate Breaks(c: Config, p: Parsed, k: nat, pending: Option<nat>) {
    && k <= |p.frames| && PassBy(c, p.frames, k, pending)
    && if k == |p.frames| then p.broken else c.route(p.frames[k], pending).RouterThrows?
  }

  lemma ThrowingRouter(c: Config, s: State, payload: Bytes)
    requires s.Shaped() && s.socket.Some? && c.route(payload, s.pending).RouterThrows?
    ensures RoutePayload(c, s, payload) == DropConnection(Record(s, payload))
  {
    hide Resolve;
  }

  lemma LostOnTheWay(s: State, u: State, t: State)
    requires s.socket.Some? && u.socket == s.socket && u.exchanges == s.exchanges && u.pending == s.pending
    requires u.started == s.started && u.disposed == s.disposed && Lost(u, t)
    ensures Lost(s, t)
  {
  }

  lemma {:induction false} DrainBreaks(c: Config, s: State, k: nat)
    requires s.Shaped() && s.socket.Some? && Breaks(c, Parse(c.decode, s.received), k, s.pending)
    ensures Lost(s, DrainFrames(c, s))
    decreases |s.received|
  {
    hide Parse, DrainFrames, RoutePayload, PassBy, DropConnection, Lost;
    var p := Parse(c.decode, s.received).frames;
    if p == [] {
      DrainStops(c, s);
      DropLoses(s);
    } else {
      var u, payload := DrainFirst(c, s);
      var heard := Record(u, payload);
      if k == 0 {
        ThrowingRouter(c, u, payload);
        DropLoses(heard);
        NoSocketNoDrain(c, DropConnection(heard));
        LostOnTheWay(s, heard, DropConnection(heard));
      } else {
        PassByTail(c, p, k, s.pending);
        FramePasses(c, u, payload);
        DrainBreaks(c, heard, k - 1);
        LostOnTheWay(s, heard, DrainFrames(c, heard));
      }
    }
  }

  /** The remote side closes, or the socket fails. */
  lemma CloseLoses(c: Config, events: seq<Event>, id: SocketId, what: SocketEvent)
    requires Run(c, events).socket == Some(id) && !what.Data?
    ensures Lost(Run(c, events), Run(c, events + [FromSocket(id, what)]))
  {
    hide Run;
    RunAppend(c, events, FromSocket(id, what));
    DropLoses(Run(c, events));
  }

  /** Bytes that are no frame, or a frame on which the router throws, after any number of frames for somebody else. */
  lemma BadFrameLoses(c: Config, events: seq<Event>, id: SocketId, chunk: Bytes, k: nat)
    requires Run(c, events).socket == Some(id)
    requires Breaks(c, Parse(c.decode, Run(c, events).received + chunk), k, Run(c, events).pending)
    ensures Lost(Run(c, events), Run(c, events + [FromSocket(id, Data(chunk))]))
  {
    hide Run, Parse;
    RunAppend(c, events, FromSocket(id, Data(chunk)));
    HeardChunk(c, Run(c, events), id, chunk);
    DrainBreaks(c, Hear(Run(c, events), chunk), k);
  }

  /** An exchange that fails takes its own connection with it, and no other. */
  predicate FailsAlone(s: State, t: State, i: nat)
    requires i < |s.exchanges|
  {
    && InPhase(t, i, Done(Unknown))
    && (if BoundTo(s.exchanges[i], s.generation) && s.socket.Some?
        then t.socket.None? && s.socket.value in t.retired && t.received == [] && (s.started && !s.disposed ==> t.timer)
        else t.socket == s.socket && t.received == s.received && t.timer == s.timer)
  }

  lemma FailingIsAlone(s: State, i: nat)
    requires s.Shaped() && i < |s.exchanges|
    ensures FailsAlone(s, FailExchange(s, i), i)
  {
    if s.socket.Some? {
      DropLoses(s);
      hide DropConnection;
    }
  }

  /** No answer in time, or a write that fails. */
  lemma TimeoutEndsUnknown(c: Config, events: seq<Event>, i: nat, e: Event)
    requires
      var s := Run(c, events);
      || (e == ResponseTimesOut(i) && InPhase(s, i, AwaitingResponse) && s.exchanges[i].settled.None?)
      || (e == WriteFails(i) && InPhase(s, i, Writing))
    ensures FailsAlone(Run(c, events), Run(c, events + [e]), i)
  {
    hide Run;
    RunAppend(c, events, e);
    FailingIsAlone(Run(c, events), i);
    hide FailExchange;
  }

  /** A lost connection settles an exchange that waits: it returns unknown, and takes nothing else down. */
  lemma LostReturnsUnknown(c: Config, events: seq<Event>, i: nat)
    requires Settled(Run(c, events), i, Unknown, AwaitingResponse)
    ensures InPhase(Run(c, events + [ResponseReturns(i)]), i, Done(Unknown))
    ensures Run(c, events + [ResponseReturns(i)]).socket == Run(c, events).socket
  {
    hide Run, Step;
    RunAppend(c, events, ResponseReturns(i));
    SettledReturns(c, Run(c, events), i, Unknown);
  }

  // ----- A new connection -----

  /** The attempt that a start or the reconnect timer opens. */
  lemma AttemptOpens(c: Config, events: seq<Event>, e: Event)
    requires var s := Run(c, events); s.socket.None? && s.connection.None? && !s.disposed
    requires e == StartCalled || (e == ReconnectTimerFires && Run(c, events).timer)
    ensures
      var s, t := Run(c, events), Run(c, events + [e]);
      && t.attempts == s.attempts + [Opening] && t.connection == Some(|s.attempts|)
      && t.socket.None? && t.retired == s.retired && t.generation == s.generation && t.exchanges == s.exchanges
      && !t.disposed && t.started == (s.started || e.StartCalled?)
  {
    hide Run;
    RunAppend(c, events, e);
  }

  /** A socket that was never used before is adopted with a new generation and an empty buffer. */
  lemma NewSocketIsAdopted(c: Config, events: seq<Event>, a: nat, id: SocketId)
    requires
      var s := Run(c, events);
      a < |s.attempts| && s.attempts[a].Opening? && !s.disposed && id !in s.retired
    ensures
      var s, t := Run(c, events), Run(c, events + [Connected(a, id)]);
      && t.socket == Some(id) && t.generation == s.generation + 1 && t.received == []
      && |t.attempts| == |s.attempts| && t.attempts[a].Adopted?
      && t.exchanges == s.exchanges && t.Current() == Stream([], [])
  {
    hide Run;
    RunAppend(c, events, Connected(a, id));
  }

  /** A failed attempt, or one that brings a socket used before, is retried later while the session runs. */
  lemma FailedAttemptIsRetried(c: Config, events: seq<Event>, a: nat, e: Event)
    requires
      var s := Run(c, events);
      && a < |s.attempts| && s.attempts[a].Opening? && s.started
      && (e == ConnectFails(a) || (e.Connected? && e.a == a && e.id in s.retired))
    ensures
      var t := Run(c, events + [e, ConnectionSettles(a)]);
      t.socket.None? && t.connection.None? && t.timer
  {
    RunKeeps(c, events);
    hide Run;
    RunAppend(c, events, e);
    RunAppend(c, events + [e], ConnectionSettles(a));
    assert events + [e] + [ConnectionSettles(a)] == events + [e, ConnectionSettles(a)];
  }

  // ----- An undisturbed exchange -----

  predicate QueueIdle(s: State) {
    forall i | 0 <= i < |s.exchanges| :: s.exchanges[i].phase.Done?
  }

  /** An exchange on a live connection is bound to it, written to its socket, and then waits for the response. */
  lemma ExchangeIsWritten(c: Config, events: seq<Event>, id: SocketId)
    requires var s := Run(c, events); QueueIdle(s) && !s.disposed && s.socket == Some(id)
    ensures
      var s := Run(c, events);
      var i := |s.exchanges|;
      var t := Run(c, events + [ExchangeCalled, ExchangeBegins(i, true), WriteIssued(i), WriteCompletes(i)]);
      && t.pending == Some(i) && InPhase(t, i, AwaitingResponse) && t.exchanges[i].written == Some(id)
      && t.socket == Some(id) && t.generation == s.generation && t.received == s.received && t.streams == s.streams
  {
    hide Run, Step;
    var s := Run(c, events);
    var i := |s.exchanges|;
    var called := events + [ExchangeCalled];
    CallQueues(c, events);
    BeginBinds(c, called, i, id);
    var bound := called + [ExchangeBegins(i, true)];
    assert bound + [WriteIssued(i), WriteCompletes(i)]
        == events + [ExchangeCalled, ExchangeBegins(i, true), WriteIssued(i), WriteCompletes(i)];
    BoundIsWritten(c, bound, i, id);
  }

  lemma CallQueues(c: Config, events: seq<Event>)
    requires QueueIdle(Run(c, events))
    ensures
      var s, t := Run(c, events), Run(c, events + [ExchangeCalled]);
      t == s.(exchanges := s.exchanges + [Exchange(Queued, None, None, None)]) && MayBegin(t, |s.exchanges|)
  {
    hide Run;
    RunAppend(c, events, ExchangeCalled);
  }

  predicate Bound(s: State, i: nat, id: SocketId) {
    && InPhase(s, i, AwaitingTurn) && s.pending == Some(i) && s.socket == Some(id)
    && s.exchanges[i].binding.Some? && s.exchanges[i].binding.value.socket == id
  }

  lemma BeginBinds(c: Config, events: seq<Event>, i: nat, id: SocketId)
    requires var s := Run(c, events); MayBegin(s, i) && !s.disposed && s.socket == Some(id)
    ensures
      var s, t := Run(c, events), Run(c, events + [ExchangeBegins(i, true)]);
      && Bound(t, i, id) && t.generation == s.generation && t.received == s.received && t.streams == s.streams
      && |t.exchanges| == |s.exchanges|
  {
    hide Run;
    RunAppend(c, events, ExchangeBegins(i, true));
  }

  lemma BoundIsWritten(c: Config, events: seq<Event>, i: nat, id: SocketId)
    requires Bound(Run(c, events), i, id)
    ensures
      var s, t := Run(c, events), Run(c, events + [WriteIssued(i), WriteCompletes(i)]);
      && t.pending == Some(i) && InPhase(t, i, AwaitingResponse) && t.exchanges[i].written == Some(id)
      && t.socket == Some(id) && t.generation == s.generation && t.received == s.received && t.streams == s.streams
  {
    hide Run;
    RunAppend(c, events, WriteIssued(i));
    RunAppend(c, events + [WriteIssued(i)], WriteCompletes(i));
    assert events + [WriteIssued(i)] + [WriteCompletes(i)] == events + [WriteIssued(i), WriteCompletes(i)];
  }

  /** Nothing is under way, and a socket never used before is at hand. */
  predicate CanConnect(s: State, id: SocketId) {
    QueueIdle(s) && !s.disposed && s.socket.None? && s.connection.None? && id !in s.retired
  }

  /** An exchange from its call to its write, on a connection that is opened for it. */
  function ConnectAndWrite(i: nat, a: nat, id: SocketId): seq<Event> {
    [ExchangeCalled, ExchangeBegins(i, true), Connected(a, id), StartReturns(i), WriteIssued(i), WriteCompletes(i)]
  }

  /**
   * Without a connection the exchange opens one first: it is bound to the socket that is adopted, and written there.
   */
  lemma ExchangeConnects(c: Config, events: seq<Event>, id: SocketId)
    requires CanConnect(Run(c, events), id)
    ensures
      var s := Run(c, events);
      var i, a := |s.exchanges|, |s.attempts|;
      var t := Run(c, events + ConnectAndWrite(i, a, id));
      && t.pending == Some(i) && InPhase(t, i, AwaitingResponse) && t.exchanges[i].written == Some(id)
      && t.socket == Some(id) && t.generation == s.generation + 1 && t.received == []
      && t.Current() == Stream([], [])
  {
    hide Run, Step;
    var s := Run(c, events);
    var i, a := |s.exchanges|, |s.attempts|;
    var called := events + [ExchangeCalled];
    CallQueues(c, events);
    var starting := called + [ExchangeBegins(i, true)];
    BeginStarts(c, called, i);
    var connected := starting + [Connected(a, id)];
    NewSocketIsAdopted(c, starting, a, id);
    var bound := connected + [StartReturns(i)];
    StartedBinds(c, connected, i, id);
    assert bound + [WriteIssued(i), WriteCompletes(i)]
        == events + ConnectAndWrite(i, a, id);
    BoundIsWritten(c, bound, i, id);
  }

  lemma BeginStarts(c: Config, events: seq<Event>, i: nat)
    requires var s := Run(c, events); MayBegin(s, i) && !s.disposed && s.socket.None? && s.connection.None?
    ensures
      var s, t := Run(c, events), Run(c, events + [ExchangeBegins(i, true)]);
      && InPhase(t, i, Starting(|s.attempts|)) && t.attempts == s.attempts + [Opening] && t.started
      && !t.disposed && t.retired == s.retired && t.generation == s.generation
  {
    hide Run;
    RunAppend(c, events, ExchangeBegins(i, true));
  }

  lemma StartedBinds(c: Config, events: seq<Event>, i: nat, id: SocketId)
    requires
      var s := Run(c, events);
      && i < |s.exchanges| && s.exchanges[i].phase.Starting? && s.socket == Some(id)
      && s.exchanges[i].phase.attempt < |s.attempts| && s.attempts[s.exchanges[i].phase.attempt].Adopted?
    ensures
      var s, t := Run(c, events), Run(c, events + [StartReturns(i)]);
      && Bound(t, i, id) && t.generation == s.generation && t.received == s.received && t.streams == s.streams
  {
    hide Run;
    RunAppend(c, events, StartReturns(i));
  }

  /** Refusals: a disposed session, a request that cannot be framed, and a connection that cannot be opened. */
  lemma RefusedIsNotSent(c: Config, events: seq<Event>, i: nat, encodable: bool)
    requires MayBegin(Run(c, events), i) && (Run(c, events).disposed || !encodable)
    ensures InPhase(Run(c, events + [ExchangeBegins(i, encodable)]), i, Done(NotSent))
  {
    hide Run;
    RunAppend(c, events, ExchangeBegins(i, encodable));
  }

  lemma FailedStartIsNotSent(c: Config, events: seq<Event>, i: nat)
    requires
      var s := Run(c, events);
      && i < |s.exchanges| && s.exchanges[i].phase.Starting?
      && s.exchanges[i].phase.attempt < |s.attempts| && s.attempts[s.exchanges[i].phase.attempt].Rejected?
    ensures InPhase(Run(c, events + [StartReturns(i)]), i, Done(NotSent))
  {
    hide Run;
    RunAppend(c, events, StartReturns(i));
  }

  /** dispose() ends the pending exchange as unknown and gives the connection up; no reconnect is due. */
  lemma DisposeEndsWork(c: Config, events: seq<Event>)
    requires !Run(c, events).disposed
    ensures
      var s, t := Run(c, events), Run(c, events + [DisposeCalled]);
      && t.disposed && t.socket.None? && t.pending.None? && !t.timer && !t.started
      && (s.socket.Some? ==> s.socket.value in t.retired)
      && (s.pending.Some? ==> t.exchanges[s.pending.value].settled == Some(Unknown))
  {
    RunKeeps(c, events);
    hide Run;
    RunAppend(c, events, DisposeCalled);
  }

  // ----- A session with a peer -----

  /** The exchange waits for the first frame of its connection, of which these bytes have arrived. */
  predicate Awaits(s: State, i: nat, id: SocketId, soFar: Bytes)
    requires s.Shaped()
  {
    && s.pending == Some(i) && s.socket == Some(id) && InPhase(s, i, AwaitingResponse)
    && s.received == soFar && s.Current().frames == []
  }

  lemma ConnectedAwaits(c: Config, events: seq<Event>, id: SocketId)
    requires CanConnect(Run(c, events), id)
    ensures
      var s := Run(c, events);
      var t := Run(c, events + ConnectAndWrite(|s.exchanges|, |s.attempts|, id));
      Awaits(t, |s.exchanges|, id, []) && t.generation == s.generation + 1
  {
    hide Run, CanConnect, ConnectAndWrite;
    ExchangeConnects(c, events, id);
  }

  /** The chunks are the encoded answer, cut anyhow. */
  predicate ArrivesAs(o: FrameOptions, answer: Bytes, chunks: seq<Bytes>)
    requires o.Accepted()
  {
    EncodeFrame(o, answer).Ok? && Flatten(chunks) == EncodeFrame(o, answer).value
  }

  lemma EncodedIsThere(o: FrameOptions, answer: Bytes, chunks: seq<Bytes>)
    requires o.Accepted() && ArrivesAs(o, answer, chunks)
    ensures EncodeFrame(o, answer).Ok? && [] + Flatten(chunks) == EncodeFrame(o, answer).value
    ensures |EncodeFrame(o, answer).value| > 0
  {
    assert [] + Flatten(chunks) == Flatten(chunks);
  }

  /**
   * The whole of it: on a session that is not disposed, whose queue is idle and which has no connection, an exchange
   * connects, is written and returns the peer's encoded answer, however the peer's bytes are cut into chunks.
   */
  lemma ExchangeSucceeds(o: FrameOptions, c: Config, events: seq<Event>, id: SocketId, answer: Bytes,
      chunks: seq<Bytes>) returns (more: seq<Event>)
    requires o.Accepted() && c.decode == Decoder(o) && ArrivesAs(o, answer, chunks)
    requires CanConnect(Run(c, events), id) && c.route(answer, Some(|Run(c, events).exchanges|)).ResponseRoute?
    ensures
      var s, t := Run(c, events), Run(c, events + more);
      InPhase(t, |s.exchanges|, Done(Response(answer, s.generation + 1, 0))) && t.socket == Some(id)
  {
    hide *;
    var s := Run(c, events);
    var start := ConnectAndWrite(|s.exchanges|, |s.attempts|, id);
    ConnectedAwaits(c, events, id);
    EncodedIsThere(o, answer, chunks);
    var heard := ChunksDeliver(o, c, events + start, |s.exchanges|, id, answer, [], chunks);
    more := start + heard;
    Associates(events, start, heard);
  }

  lemma Associates(a: seq<Event>, b: seq<Event>, d: seq<Event>)
    ensures a + b + d == a + (b + d)
  {
  }

  /** The frame arrives in pieces; the last piece delivers it. */
  lemma {:induction false} ChunksDeliver(o: FrameOptions, c: Config, events: seq<Event>, i: nat, id: SocketId,
      answer: Bytes, soFar: Bytes, chunks: seq<Bytes>) returns (more: seq<Event>)
    requires o.Accepted() && c.decode == Decoder(o) && EncodeFrame(o, answer).Ok?
    requires soFar + Flatten(chunks) == EncodeFrame(o, answer).value && |soFar| < |EncodeFrame(o, answer).value|
    requires c.route(answer, Some(i)).ResponseRoute?
    requires Awaits(Run(c, events), i, id, soFar)
    ensures InPhase(Run(c, events + more), i, Done(Response(answer, Run(c, events).generation, 0)))
    ensures Run(c, events + more).socket == Some(id)
    decreases |chunks|
  {
    hide Run, Parse, EncodeFrame, FirstResponse;
    var frame := EncodeFrame(o, answer).value;
    assert chunks != [] by { assert soFar + [] == soFar; }
    var next, later := soFar + chunks[0], chunks[1..];
    assert next + Flatten(later) == frame;
    var piece := FromSocket(id, Data(chunks[0]));
    if |next| < |frame| {
      assert frame[..|next|] == next;
      PieceIsIncomplete(o, answer, |next|);
      OtherFramesChangeNothing(c, events, id, chunks[0]);
      var rest := ChunksDeliver(o, c, events + [piece], i, id, answer, next, later);
      more := [piece] + rest;
      assert events + [piece] + rest == events + more;
    } else {
      assert next == frame;
      OneFrame(o, answer);
      assert FirstResponse(c, [answer], 0, Some(i)) by { OnlyResponse(c, answer, i); }
      ResponseIsDelivered(c, events, i, id, chunks[0], 0);
      more := [piece, ResponseReturns(i)];
    }
  }

  lemma OnlyResponse(c: Config, answer: Bytes, i: nat)
    requires c.route(answer, Some(i)).ResponseRoute?
    ensures FirstResponse(c, [answer], 0, Some(i))
  {
  }

  lemma PieceIsIncomplete(o: FrameOptions, answer: Bytes, n: nat)
    requires o.Accepted() && EncodeFrame(o, answer).Ok? && n < |EncodeFrame(o, answer).value|
    ensures
      var piece := EncodeFrame(o, answer).value[..n];
      Parse(Decoder(o), piece) == Parsed([], piece, false)
  {
    CutFrameIsIncomplete(o, answer, n);
    hide DecodeFrame, EncodeFrame;
  }

  lemma OneFrame(o: FrameOptions, answer: Bytes)
    requires o.Accepted() && EncodeFrame(o, answer).Ok?
    ensures Parse(Decoder(o), EncodeFrame(o, answer).value) == Parsed([answer], [], false)
  {
    EncodedStream(o, [answer]);
    var frame := EncodeFrame(o, answer).value;
    assert EncodeAll(o, [answer]) == frame + EncodeAll(o, []);
    assert frame + [] == frame;
  }

  // ----- What the router sees, and sockets that are given up -----

  /** In every run the router is shown only an exchange that is under way, unanswered, on the live connection. */
  lemma RouterSeesOpenExchange(c: Config, events: seq<Event>)
    ensures
      var s := Run(c, events);
      s.pending.Some? ==>
        && s.pending.value < |s.exchanges| && s.socket.Some?
        && var e := s.exchanges[s.pending.value];
        && e.settled.None? && BoundTo(e, s.generation)
        && (e.phase.AwaitingTurn? || e.phase.Writing? || e.phase.AwaitingResponse?)
  {
    hide Run, Exchanges, Serial, Pairs, Connections;
    RunKeeps(c, events);
  }

  /** No connection is made, and no socket is taken back. */
  predicate NoneAdopted(s: State, t: State) {
    t.adopted == s.adopted && s.retired <= t.retired
  }

  lemma DropAdoptsNone(s: State)
    requires s.Shaped()
    ensures NoneAdopted(s, DropConnection(s))
  {
  }

  lemma RouteAdoptsNone(c: Config, s: State, payload: Bytes)
    requires s.Shaped() && s.socket.Some?
    ensures NoneAdopted(s, RoutePayload(c, s, payload))
  {
    hide DropConnection;
    var here := s.Current();
    DropAdoptsNone(s.(streams := s.streams[s.generation - 1 := here.(frames := here.frames + [payload])]));
  }

  lemma {:induction false} DrainAdoptsNone(c: Config, s: State)
    requires s.Shaped()
    ensures NoneAdopted(s, DrainFrames(c, s))
    decreases |s.received|
  {
    hide DropConnection, RoutePayload;
    DropAdoptsNone(s);
    if s.received != [] && s.socket.Some? {
      var d := c.decode(s.received);
      if Consumes(d, s.received) {
        var u := s.(received := s.received[d.consumed..]);
        RouteAdoptsNone(c, u, d.payload);
        DrainAdoptsNone(c, RoutePayload(c, u, d.payload));
      }
    }
  }

  lemma HandleAdoptsNone(c: Config, s: State, from: SocketId, what: SocketEvent)
    requires s.Shaped()
    ensures NoneAdopted(s, HandleEvent(c, s, from, what))
  {
    hide DrainFrames, DropConnection;
    DropAdoptsNone(s);
    if what.Data? && s.socket.Some? {
      DrainAdoptsNone(c, Hear(s, what.chunk));
    }
  }

  lemma FailAdoptsNone(s: State, i: nat)
    requires s.Shaped() && i < |s.exchanges|
    ensures NoneAdopted(s, FailExchange(s, i))
  {
    hide DropConnection;
    DropAdoptsNone(s);
  }

  lemma BeginAdoptsNone(s: State, i: nat, encodable: bool)
    requires s.Shaped() && i < |s.exchanges|
    ensures NoneAdopted(s, BeginExchange(s, i, encodable))
  {
  }

  lemma AnswerAdoptsNone(s: State, i: nat, timedOut: bool)
    requires s.Shaped()
    ensures NoneAdopted(s, AfterResponse(s, i, timedOut))
  {
    hide FailExchange;
    if i < |s.exchanges| {
      FailAdoptsNone(s, i);
    }
  }

  lemma AttemptRefusesRetired(s: State, a: nat, from: Option<SocketId>, id: SocketId)
    requires s.Shaped() && id in s.retired && id !in s.adopted
    ensures
      var t := FinishAttempt(s, a, from);
      id in t.retired && id !in t.adopted
  {
  }

  lemma StepKeepsGivenUp(c: Config, s: State, e: Event, id: SocketId)
    requires s.Shaped() && id in s.retired && id !in s.adopted
    ensures id in Step(c, s, e).retired && id !in Step(c, s, e).adopted
  {
    hide HandleEvent, FailExchange, BeginExchange, AfterResponse, FinishAttempt;
    match e
    case FromSocket(from, what) => HandleAdoptsNone(c, s, from, what);
    case ExchangeBegins(i, encodable) =>
      if MayBegin(s, i) {
        BeginAdoptsNone(s, i, encodable);
      }
    case WriteFails(i) =>
      if InPhase(s, i, Writing) {
        FailAdoptsNone(s, i);
      }
    case ResponseReturns(i) => AnswerAdoptsNone(s, i, false);
    case ResponseTimesOut(i) => AnswerAdoptsNone(s, i, true);
    case Connected(a, from) => AttemptRefusesRetired(s, a, Some(from), id);
    case ConnectFails(a) => AttemptRefusesRetired(s, a, None, id);
    case _ =>
  }

  /** A socket that connects after its attempt was given up is closed, and no connection is ever made with it. */
  lemma {:induction false} LateSocketIsNeverAdopted(c: Config, events: seq<Event>, id: SocketId, more: seq<Event>)
    requires id !in Run(c, events).adopted
    ensures
      var s := Run(c, events + [LateSocket(id)] + more);
      id in s.retired && id !in s.adopted
    decreases |more|
  {
    hide Step;
    var first := events + [LateSocket(id)];
    if more == [] {
      assert first + more == first;
      RunAppend(c, events, LateSocket(id));
      LateSocketIsRetired(c, Run(c, events), id);
    } else {
      var before := more[..|more| - 1];
      LateSocketIsNeverAdopted(c, events, id, before);
      assert first + more == (first + before) + [more[|more| - 1]];
      RunAppend(c, first + before, more[|more| - 1]);
      StepKeepsGivenUp(c, Run(c, first + before), more[|more| - 1], id);
    }
  }

  lemma LateSocketIsRetired(c: Config, s: State, id: SocketId)
    requires s.Shaped() && id !in s.adopted
    ensures id in Step(c, s, LateSocket(id)).retired && id !in Step(c, s, LateSocket(id)).adopted
  {
  }
}
