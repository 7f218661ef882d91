/**
 Receiving messages from a byte stream that arrives in pieces.

 `Accepted` says which messages a byte string holds: the frames up to the first one that is
 truncated, over the cap or undecodable. `Receiver` is the suspended receive call that reads a
 header, then a payload, as bytes become available.
 */
module Receiving {
  import opened Bytes
  import opened Framing

  predicate Admissible<T>(ch: Channel<T>, payload: seq<Byte>) {
    |payload| <= ch.cap && ch.decode(payload).Ok?
  }

  predicate AllAdmissible<T>(ch: Channel<T>, payloads: seq<seq<Byte>>) {
    forall i | 0 <= i < |payloads| :: Admissible(ch, payloads[i])
  }

  /** Payloads of the messages in `input`, up to the first read that fails. */
  function Accepted<T>(ch: Channel<T>, input: seq<Byte>): seq<seq<Byte>>
    decreases |input|
  {
    match NextPayload(input, ch.cap)
    case Payload(p, rest) => if ch.decode(p).Ok? then [p] + Accepted(ch, rest) else []
    case _ => []
  }

  /** What is behind those messages. */
  function Leftover<T>(ch: Channel<T>, input: seq<Byte>): seq<Byte>
    decreases |input|
  {
    match NextPayload(input, ch.cap)
    case Payload(p, rest) => if ch.decode(p).Ok? then Leftover(ch, rest) else input
    case _ => input
  }

  // ---------- Accepted is the longest list of good frames at the front ----------

  lemma AcceptedStep<T>(ch: Channel<T>, p: seq<Byte>, rest: seq<Byte>)
    requires Admissible(ch, p)
    ensures Accepted(ch, Frame(p) + rest) == [p] + Accepted(ch, rest)
  {
    NextOfFrame(p, rest, ch.cap);
  }

  lemma {:induction false} AcceptedOfFrames<T>(ch: Channel<T>, payloads: seq<seq<Byte>>, tail: seq<Byte>)
    requires AllAdmissible(ch, payloads)
    ensures Accepted(ch, Frames(payloads) + tail) == payloads + Accepted(ch, tail)
  {
    if payloads == [] {
      assert Frames(payloads) + tail == tail;
    } else {
      var p, ps := payloads[0], payloads[1..];
      assert Admissible(ch, p);
      calc {
        Accepted(ch, Frames(payloads) + tail);
        { assert Frames(payloads) + tail == Frame(p) + (Frames(ps) + tail); }
        Accepted(ch, Frame(p) + (Frames(ps) + tail));
        { AcceptedStep(ch, p, Frames(ps) + tail); }
        [p] + Accepted(ch, Frames(ps) + tail);
        { AcceptedOfFrames(ch, ps, tail); }
        [p] + (ps + Accepted(ch, tail));
        { assert payloads == [p] + ps; }
        payloads + Accepted(ch, tail);
      }
    }
  }

  lemma AdmissibleCons<T>(ch: Channel<T>, p: seq<Byte>, ps: seq<seq<Byte>>)
    requires Admissible(ch, p) && AllAdmissible(ch, ps)
    ensures AllAdmissible(ch, [p] + ps) && Frames([p] + ps) == Frame(p) + Frames(ps)
  {
    assert ([p] + ps)[1..] == ps;
  }

  lemma {:induction false} AcceptedSplits<T>(ch: Channel<T>, input: seq<Byte>)
    ensures input == Frames(Accepted(ch, input)) + Leftover(ch, input)
    ensures AllAdmissible(ch, Accepted(ch, input))
    decreases |input|
  {
    match NextPayload(input, ch.cap) {
      case Payload(p, rest) =>
        if ch.decode(p).Ok? {
          NextIsFrame(input, ch.cap);
          AcceptedSplits(ch, rest);
          AdmissibleCons(ch, p, Accepted(ch, rest));
          Assoc(Frame(p), Frames(Accepted(ch, rest)), Leftover(ch, rest));
        }
      case _ =>
    }
  }

  /** What is left starts with a truncated, an oversized or an undecodable frame. */
  lemma {:induction false} LeftoverStops<T>(ch: Channel<T>, input: seq<Byte>)
    ensures match NextPayload(Leftover(ch, input), ch.cap)
            case Incomplete => true
            case Oversized(len, _) => len > ch.cap
            case Payload(p, _) => ch.decode(p).Err?
    decreases |input|
  {
    match NextPayload(input, ch.cap) {
      case Payload(p, rest) =>
        if ch.decode(p).Ok? {
          LeftoverStops(ch, rest);
        }
      case _ =>
    }
  }

  lemma GoodFramesAccepted<T>(ch: Channel<T>, input: seq<Byte>, payloads: seq<seq<Byte>>)
    requires AllAdmissible(ch, payloads) && Frames(payloads) <= input
    ensures payloads <= Accepted(ch, input)
  {
    var tail := input[|Frames(payloads)|..];
    assert input == Frames(payloads) + tail;
    AcceptedOfFrames(ch, payloads, tail);
  }

  lemma AcceptedAreGoodFrames<T>(ch: Channel<T>, input: seq<Byte>, payloads: seq<seq<Byte>>)
    requires payloads <= Accepted(ch, input)
    ensures AllAdmissible(ch, payloads) && Frames(payloads) <= input
  {
    var all := Accepted(ch, input);
    AcceptedSplits(ch, input);
    assert all == payloads + all[|payloads|..];
    FramesAppend(payloads, all[|payloads|..]);
    forall i | 0 <= i < |payloads| ensures Admissible(ch, payloads[i]) {
      assert payloads[i] == all[i];
    }
  }

  /** A list of good frames is at the front of the bytes exactly when it is at the front of the
      accepted list: accepting stops no sooner and no later than it must. */
  lemma AcceptedIsLongest<T>(ch: Channel<T>, input: seq<Byte>, payloads: seq<seq<Byte>>)
    ensures AllAdmissible(ch, payloads) && Frames(payloads) <= input <==> payloads <= Accepted(ch, input)
  {
    if AllAdmissible(ch, payloads) && Frames(payloads) <= input {
      GoodFramesAccepted(ch, input, payloads);
    }
    if payloads <= Accepted(ch, input) {
      AcceptedAreGoodFrames(ch, input, payloads);
    }
  }

  /** More bytes only ever add messages. */
  lemma AcceptedMonotone<T>(ch: Channel<T>, input: seq<Byte>, more: seq<Byte>)
    ensures Accepted(ch, input) <= Accepted(ch, input + more)
  {
    AcceptedSplits(ch, input);
    var front := Accepted(ch, input);
    Assoc(Frames(front), Leftover(ch, input), more);
    AcceptedOfFrames(ch, front, Leftover(ch, input) + more);
  }

  // ---------- the suspended receive call ----------

  /** Where a receive call stands; the last two are its final failures. */
  datatype Phase =
    | AwaitHeader
    | AwaitPayload(len: U32)
    | TooLong(len: U32)
    | Undecodable(payload: seq<Byte>)

  datatype Receiver = Receiver(phase: Phase, buffer: seq<Byte>, accepted: seq<seq<Byte>>)

  const FRESH: Receiver := Receiver(AwaitHeader, [], [])

  predicate CanRead(r: Receiver) {
    match r.phase
    case AwaitHeader => |r.buffer| >= 4
    case AwaitPayload(len) => |r.buffer| >= len
    case _ => false
  }

  /** One exact read: a header, or a payload. */
  function Read<T>(ch: Channel<T>, r: Receiver): Receiver
    requires CanRead(r)
  {
    match r.phase
    case AwaitHeader =>
      var len := FromLE32(r.buffer[..4]);
      r.(phase := if len > ch.cap then TooLong(len) else AwaitPayload(len), buffer := r.buffer[4..])
    case AwaitPayload(len) =>
      var p := r.buffer[..len];
      if ch.decode(p).Ok?
      then Receiver(AwaitHeader, r.buffer[len..], r.accepted + [p])
      else r.(phase := Undecodable(p), buffer := r.buffer[len..])
  }

  /** Bytes read off the stream that belong to no accepted message. */
  function Held(phase: Phase): seq<Byte> {
    match phase
    case AwaitHeader => []
    case AwaitPayload(len) => LE32(len)
    case TooLong(len) => LE32(len)
    case Undecodable(p) => Frame(p)
  }

  predicate PhaseOk<T>(ch: Channel<T>, phase: Phase) {
    match phase
    case AwaitHeader => true
    case AwaitPayload(len) => len <= ch.cap
    case TooLong(len) => len > ch.cap
    case Undecodable(p) => |p| <= ch.cap && !ch.decode(p).Ok?
  }

  /** Nothing is lost, duplicated or reordered between the bytes seen and the messages accepted. */
  ghost predicate Faithful<T>(ch: Channel<T>, r: Receiver, seen: seq<Byte>) {
    && seen == Frames(r.accepted) + Held(r.phase) + r.buffer
    && AllAdmissible(ch, r.accepted)
    && PhaseOk(ch, r.phase)
  }

  lemma ReadHeaderFaithful<T>(ch: Channel<T>, r: Receiver, seen: seq<Byte>)
    requires Faithful(ch, r, seen) && CanRead(r) && r.phase.AwaitHeader?
    ensures Faithful(ch, Read(ch, r), seen)
  {
    FromLE32RoundTrip(r.buffer[..4]);
    Cut(r.buffer, 4);
    EmptyRight(Frames(r.accepted));
    Assoc(Frames(r.accepted), r.buffer[..4], r.buffer[4..]);
  }

  /** A whole payload at the front of the buffer completes the frame whose header is held. */
  lemma PayloadCompletesFrame(front: seq<Byte>, len: U32, buffer: seq<Byte>)
    requires len <= |buffer|
    ensures front + LE32(len) + buffer == front + Frame(buffer[..len]) + buffer[len..]
  {
    var p, rest := buffer[..len], buffer[len..];
    Cut(buffer, len);
    Assoc(front + LE32(len), p, rest);
    Assoc(front, LE32(len), p);
  }

  lemma ReadPayloadFaithful<T>(ch: Channel<T>, r: Receiver, seen: seq<Byte>)
    requires Faithful(ch, r, seen) && CanRead(r) && r.phase.AwaitPayload?
    ensures Faithful(ch, Read(ch, r), seen)
  {
    var p := r.buffer[..r.phase.len];
    PayloadCompletesFrame(Frames(r.accepted), r.phase.len, r.buffer);
    if ch.decode(p).Ok? {
      FramesSnoc(r.accepted, p);
      EmptyRight(Frames(r.accepted + [p]));
    }
  }

  lemma ReadFaithful<T>(ch: Channel<T>, r: Receiver, seen: seq<Byte>)
    requires Faithful(ch, r, seen) && CanRead(r)
    ensures Faithful(ch, Read(ch, r), seen)
  {
    if r.phase.AwaitHeader? {
      ReadHeaderFaithful(ch, r, seen);
    } else {
      ReadPayloadFaithful(ch, r, seen);
    }
  }

  lemma ArriveFaithful<T>(ch: Channel<T>, r: Receiver, seen: seq<Byte>, chunk: seq<Byte>)
    requires Faithful(ch, r, seen)
    ensures Faithful(ch, r.(buffer := r.buffer + chunk), seen + chunk)
  {
    Assoc(Frames(r.accepted) + Held(r.phase), r.buffer, chunk);
  }

  lemma FaithfulAccepts<T>(ch: Channel<T>, r: Receiver, seen: seq<Byte>)
    requires Faithful(ch, r, seen)
    ensures Accepted(ch, seen) == r.accepted + Accepted(ch, Held(r.phase) + r.buffer)
  {
    Assoc(Frames(r.accepted), Held(r.phase), r.buffer);
    AcceptedOfFrames(ch, r.accepted, Held(r.phase) + r.buffer);
  }

  /** A receiver with nothing left to read has accepted exactly what its bytes hold. */
  lemma SettledAccepts<T>(ch: Channel<T>, r: Receiver, seen: seq<Byte>)
    requires Faithful(ch, r, seen) && !CanRead(r)
    ensures r.accepted == Accepted(ch, seen)
  {
    FaithfulAccepts(ch, r, seen);
    var front := Held(r.phase) + r.buffer;
    match r.phase {
      case AwaitHeader =>
        assert front == r.buffer;
      case AwaitPayload(len) =>
        LE32Prefix(len, r.buffer);
      case TooLong(len) =>
        LE32Prefix(len, r.buffer);
      case Undecodable(p) =>
        NextOfFrame(p, r.buffer, ch.cap);
    }
    assert Accepted(ch, front) == [];
  }

  function PhaseRank(phase: Phase): nat {
    match phase
    case AwaitPayload(_) => 1
    case _ => 0
  }

  function Drain<T>(ch: Channel<T>, r: Receiver): Receiver
    decreases |r.buffer|, PhaseRank(r.phase)
  {
    if CanRead(r) then Drain(ch, Read(ch, r)) else r
  }

  lemma {:induction false} DrainFaithful<T>(ch: Channel<T>, r: Receiver, seen: seq<Byte>)
    requires Faithful(ch, r, seen)
    ensures Faithful(ch, Drain(ch, r), seen) && !CanRead(Drain(ch, r))
    decreases |r.buffer|, PhaseRank(r.phase)
  {
    if CanRead(r) {
      ReadFaithful(ch, r, seen);
      DrainFaithful(ch, Read(ch, r), seen);
    }
  }

  function FeedAll<T>(ch: Channel<T>, r: Receiver, chunks: seq<seq<Byte>>): Receiver
    decreases |chunks|
  {
    if chunks == [] then r
    else FeedAll(ch, Drain(ch, r.(buffer := r.buffer + chunks[0])), chunks[1..])
  }

  lemma {:induction false} FeedAllFaithful<T>(ch: Channel<T>, r: Receiver, seen: seq<Byte>, chunks: seq<seq<Byte>>)
    requires Faithful(ch, r, seen) && !CanRead(r)
    ensures Faithful(ch, FeedAll(ch, r, chunks), seen + Flatten(chunks)) && !CanRead(FeedAll(ch, r, chunks))
    decreases |chunks|
  {
    if chunks == [] {
      assert seen + Flatten(chunks) == seen;
    } else {
      var fed := r.(buffer := r.buffer + chunks[0]);
      ArriveFaithful(ch, r, seen, chunks[0]);
      DrainFaithful(ch, fed, seen + chunks[0]);
      Assoc(seen, chunks[0], Flatten(chunks[1..]));
      FeedAllFaithful(ch, Drain(ch, fed), seen + chunks[0], chunks[1..]);
    }
  }

  /** However the bytes are cut into chunks, the same messages come out: those of the whole. */
  lemma ChunkIndependence<T>(ch: Channel<T>, chunks: seq<seq<Byte>>)
    ensures FeedAll(ch, FRESH, chunks).accepted == Accepted(ch, Flatten(chunks))
  {
    FeedAllFaithful(ch, FRESH, [], chunks);
    assert [] + Flatten(chunks) == Flatten(chunks);
    SettledAccepts(ch, FeedAll(ch, FRESH, chunks), Flatten(chunks));
  }
}
