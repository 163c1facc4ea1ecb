/**
 * Cutting a byte stream into frames: drainFrames of
 * packages/kiosk-host-native-channel/src/persistent-session.ts, on the bytes of one connection.
 */
module FrameStream {
  import opened Prelude
  import opened Framing

  /** What cutting a byte string into frames gives: the payloads, the bytes left, and whether a bad frame stopped it. */
  datatype Parsed = Parsed(frames: seq<Bytes>, rest: Bytes, broken: bool) {
    function After(earlier: seq<Bytes>): Parsed {
      Parsed(earlier + frames, rest, broken)
    }
  }

  /** A complete result the session accepts: it consumes some bytes, and no more than there are. */
  predicate Consumes(d: Decoded, bytes: Bytes) {
    d.Complete? && 0 < d.consumed <= |bytes|
  }

  function Parse(decode: Bytes -> Decoded, bytes: Bytes): Parsed
    decreases |bytes|
  {
    if bytes == [] then Parsed([], [], false)
    else
      var d := decode(bytes);
      if d.Incomplete? then Parsed([], bytes, false)
      else if !Consumes(d, bytes) then Parsed([], [], true)
      else Parse(decode, bytes[d.consumed..]).After([d.payload])
  }

  /** Bytes still to come never change a decision. */
  ghost predicate Stable(decode: Bytes -> Decoded) {
    && (forall bytes, more: Bytes {:trigger decode(bytes + more)} ::
          !decode(bytes).Incomplete? ==> decode(bytes + more) == decode(bytes))
    && (forall bytes :: decode(bytes).Complete? ==> decode(bytes).consumed <= |bytes|)
  }

  lemma DecisionStands(decode: Bytes -> Decoded, bytes: Bytes, more: Bytes)
    requires Stable(decode) && !decode(bytes).Incomplete?
    ensures decode(bytes + more) == decode(bytes)
    ensures Consumes(decode(bytes), bytes) <==> Consumes(decode(bytes + more), bytes + more)
  {
  }

  lemma AfterTwice(p: Parsed, inner: seq<Bytes>, outer: seq<Bytes>)
    ensures p.After(inner).After(outer) == p.After(outer + inner)
    ensures p.After([]) == p
  {
    assert outer + (inner + p.frames) == outer + inner + p.frames;
  }

  /** Parsing in two goes: the second go continues with the bytes the first one left. */
  lemma {:induction false} ParseContinues(decode: Bytes -> Decoded, bytes: Bytes, more: Bytes)
    requires Stable(decode)
    ensures
      var first := Parse(decode, bytes);
      Parse(decode, bytes + more) ==
        if first.broken then first
        else Parse(decode, first.rest + more).After(first.frames)
    decreases |bytes|
  {
    hide Stable;
    var d := decode(bytes);
    var first := Parse(decode, bytes);
    if bytes == [] || d.Incomplete? {
      AfterTwice(Parse(decode, bytes + more), [], []);
    } else {
      DecisionStands(decode, bytes, more);
      if Consumes(d, bytes) {
        var tail := bytes[d.consumed..];
        assert (bytes + more)[d.consumed..] == tail + more;
        ParseContinues(decode, tail, more);
        var inner := Parse(decode, tail);
        assert first == inner.After([d.payload]);
        assert Parse(decode, bytes + more) == Parse(decode, tail + more).After([d.payload]);
        AfterTwice(Parse(decode, inner.rest + more), inner.frames, [d.payload]);
      }
    }
  }

  /** What is left after parsing needs more bytes, or is empty. */
  lemma {:induction false} RestIsDrained(decode: Bytes -> Decoded, bytes: Bytes)
    ensures
      var p := Parse(decode, bytes);
      Parse(decode, p.rest) == Parsed([], p.rest, false)
    decreases |bytes|
  {
    var d := decode(bytes);
    if bytes != [] && !d.Incomplete? && Consumes(d, bytes) {
      RestIsDrained(decode, bytes[d.consumed..]);
    }
  }

  // ----- Chunks -----

  function Flatten(chunks: seq<Bytes>): Bytes {
    if chunks == [] then [] else chunks[0] + Flatten(chunks[1..])
  }

  /** Data events arriving one after another; after a bad frame the socket is gone and they are ignored. */
  function Feed(decode: Bytes -> Decoded, soFar: Parsed, chunks: seq<Bytes>): Parsed
    decreases |chunks|
  {
    if chunks == [] || soFar.broken then soFar
    else Feed(decode, Parse(decode, soFar.rest + chunks[0]).After(soFar.frames), chunks[1..])
  }

  lemma {:induction false} FeedIsParse(decode: Bytes -> Decoded, before: Bytes, chunks: seq<Bytes>)
    requires Stable(decode)
    ensures Feed(decode, Parse(decode, before), chunks) == Parse(decode, before + Flatten(chunks))
    decreases |chunks|
  {
    hide Stable, Parse;
    var soFar := Parse(decode, before);
    if chunks == [] {
      assert before + [] == before;
    } else {
      assert before + Flatten(chunks) == before + chunks[0] + Flatten(chunks[1..]);
      ParseContinues(decode, before, chunks[0]);
      ParseContinues(decode, before, Flatten(chunks));
      FeedIsParse(decode, before + chunks[0], chunks[1..]);
    }
  }

  /** Any way of cutting a byte stream into data events routes the same payloads and leaves the same buffer. */
  lemma ChunkIndependence(decode: Bytes -> Decoded, chunks: seq<Bytes>, others: seq<Bytes>)
    requires Stable(decode) && Flatten(chunks) == Flatten(others)
    ensures Feed(decode, Parsed([], [], false), chunks) == Feed(decode, Parsed([], [], false), others)
  {
    FeedIsParse(decode, [], chunks);
    FeedIsParse(decode, [], others);
    assert Parse(decode, []) == Parsed([], [], false);
  }

  // ----- Streams of length-prefixed frames -----

  function Decoder(o: FrameOptions): Bytes -> Decoded
    requires o.Accepted()
  {
    bytes => DecodeFrame(o, bytes)
  }

  lemma DecoderIsStable(o: FrameOptions)
    requires o.Accepted()
    ensures Stable(Decoder(o))
  {
    forall bytes, more: Bytes | !DecodeFrame(o, bytes).Incomplete?
      ensures DecodeFrame(o, bytes + more) == DecodeFrame(o, bytes)
    {
      MoreBytesKeepTheFrame(o, bytes, more);
    }
  }

  /** A frame that is complete or invalid stays so, with the same payload, whatever follows. */
  lemma MoreBytesKeepTheFrame(o: FrameOptions, bytes: Bytes, more: Bytes)
    requires o.Accepted() && !DecodeFrame(o, bytes).Incomplete?
    ensures DecodeFrame(o, bytes + more) == DecodeFrame(o, bytes)
  {
    hide DecodeLength;
    var h, p := |o.fixedHeader|, o.PrefixLength();
    assert (bytes + more)[h..p] == bytes[h..p];
    assert (bytes + more)[..h] == bytes[..h];
    var d := DecodeFrame(o, bytes);
    if d.Complete? {
      assert (bytes + more)[p..d.consumed] == bytes[p..d.consumed];
    }
  }

  function EncodeAll(o: FrameOptions, payloads: seq<Bytes>): (stream: Bytes)
    requires o.Accepted() && forall p <- payloads :: EncodeFrame(o, p).Ok?
  {
    if payloads == [] then [] else EncodeFrame(o, payloads[0]).value + EncodeAll(o, payloads[1..])
  }

  /** The stream encode(p1)..encode(pn) parses to exactly p1..pn and leaves nothing. */
  lemma {:induction false} EncodedStream(o: FrameOptions, payloads: seq<Bytes>)
    requires o.Accepted() && forall p <- payloads :: EncodeFrame(o, p).Ok?
    ensures Parse(Decoder(o), EncodeAll(o, payloads)) == Parsed(payloads, [], false)
    decreases |payloads|
  {
    hide DecodeFrame;
    if payloads != [] {
      var frame, tail := EncodeFrame(o, payloads[0]).value, EncodeAll(o, payloads[1..]);
      FrameRoundTrip(o, payloads[0], tail);
      assert (frame + tail)[|frame|..] == tail;
      EncodedStream(o, payloads[1..]);
      assert [payloads[0]] + payloads[1..] == payloads;
    }
  }

  /** However the network cuts a stream of encoded frames, every payload comes out once and in order. */
  lemma EncodedStreamInChunks(o: FrameOptions, payloads: seq<Bytes>, chunks: seq<Bytes>)
    requires o.Accepted() && (forall p <- payloads :: EncodeFrame(o, p).Ok?)
    requires Flatten(chunks) == EncodeAll(o, payloads)
    ensures Feed(Decoder(o), Parsed([], [], false), chunks) == Parsed(payloads, [], false)
  {
    DecoderIsStable(o);
    FeedIsParse(Decoder(o), [], chunks);
    assert [] + Flatten(chunks) == Flatten(chunks);
    assert Parse(Decoder(o), []) == Parsed([], [], false);
    EncodedStream(o, payloads);
  }
}
