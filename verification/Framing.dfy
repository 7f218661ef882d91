/**
 Length-prefixed frames on an ordered byte stream without message boundaries.

 Everything here is about payloads as bytes; the message in a payload is a parameter.
 */
module Framing {
  import opened Results
  import opened Bytes
  import opened Protocol
  import opened Capnp

  /** The server's cap on one control message. */
  const MAX_CONTROL_MSG: nat := 1024 * 1024

  /** The client checks no cap: every 32-bit length passes. */
  const NO_CAP: nat := U32_SIZE - 1

  /** The truncating conversion of a buffer length to 32 bits. */
  function AsU32(n: nat): U32 {
    n % U32_SIZE
  }

  function Frame(payload: seq<Byte>): seq<Byte> {
    LE32(AsU32(|payload|)) + payload
  }

  function Frames(payloads: seq<seq<Byte>>): seq<Byte> {
    if payloads == [] then [] else Frame(payloads[0]) + Frames(payloads[1..])
  }

  predicate Fits(payloads: seq<seq<Byte>>, cap: nat) {
    forall i | 0 <= i < |payloads| :: |payloads[i]| <= cap
  }

  /** What one header-then-payload read finds at the front of a byte string. */
  datatype Next =
    | Incomplete
    | Oversized(len: U32, rest: seq<Byte>)
    | Payload(payload: seq<Byte>, rest: seq<Byte>)

  function NextPayload(input: seq<Byte>, cap: nat): Next {
    if |input| < 4 then Incomplete
    else
      var len := FromLE32(input[..4]);
      if len > cap then Oversized(len, input[4..])
      else if |input| < 4 + len then Incomplete
      else Payload(input[4..4 + len], input[4 + len..])
  }

  /** Payloads found in `input` until the first read that does not give one. */
  function Payloads(input: seq<Byte>, cap: nat): seq<seq<Byte>>
    decreases |input|
  {
    match NextPayload(input, cap)
    case Payload(p, rest) => [p] + Payloads(rest, cap)
    case _ => []
  }

  // ---------- one frame ----------

  /** The header tells the truth exactly for payloads below 4 GiB. */
  lemma HeaderFaithful(payload: seq<Byte>)
    ensures FromLE32(Frame(payload)[..4]) == |payload| <==> |payload| < U32_SIZE
    ensures Frame(payload) == Octets(|payload| % 0x1_0000_0000) + payload
  {
    LE32Octets(AsU32(|payload|));
    LE32Prefix(AsU32(|payload|), payload);
  }

  /** The header byte by byte, least significant first; the payload follows as it is. */
  lemma FrameBytes(payload: seq<Byte>)
    requires |payload| < U32_SIZE
    ensures Frame(payload)[..4] == Octets(|payload|) && Frame(payload)[4..] == payload
    ensures Frame(payload)[0] as int + 0x100 * Frame(payload)[1] as int
            + 0x1_0000 * Frame(payload)[2] as int + 0x100_0000 * Frame(payload)[3] as int == |payload|
  {
    LE32Value(|payload|);
    LE32Octets(|payload|);
    var header := LE32(|payload|);
    assert Frame(payload) == header + payload;
    assert forall i | 0 <= i < 4 :: Frame(payload)[i] == header[i];
  }

  /** Reading a frame off the front of any bytes gives back its payload and the bytes behind it. */
  lemma NextOfFrame(payload: seq<Byte>, tail: seq<Byte>, cap: nat)
    requires |payload| < U32_SIZE
    ensures |payload| <= cap ==> NextPayload(Frame(payload) + tail, cap) == Payload(payload, tail)
    ensures |payload| > cap ==> NextPayload(Frame(payload) + tail, cap) == Oversized(|payload|, payload + tail)
  {
    var input := Frame(payload) + tail;
    assert input == LE32(|payload|) + (payload + tail);
    LE32Prefix(|payload|, payload + tail);
    assert input[4..4 + |payload|] == payload;
    assert input[4 + |payload|..] == tail;
  }

  /** Conversely, whatever a read takes off the front was a frame. */
  lemma NextIsFrame(input: seq<Byte>, cap: nat)
    requires cap < U32_SIZE && NextPayload(input, cap).Payload?
    ensures var n := NextPayload(input, cap);
            input == Frame(n.payload) + n.rest && |n.payload| <= cap
  {
    FromLE32RoundTrip(input[..4]);
    var len := FromLE32(input[..4]);
    assert input == input[..4] + input[4..4 + len] + input[4 + len..];
  }

  /** Reserve four bytes, append the message, overwrite the four bytes with the length. */
  method FrameInPlace(segments: seq<seq<Byte>>) returns (outBuf: seq<Byte>)
    requires Segments(segments)
    ensures outBuf == Frame(WriteMessage(segments))
    ensures outBuf == Octets(|WriteMessage(segments)| % 0x1_0000_0000) + WriteMessage(segments)
  {
    outBuf := Zeros(4);
    outBuf := outBuf + WriteMessage(segments);
    var payloadLen := AsU32(|outBuf| - 4);
    LE32Octets(payloadLen);
    outBuf := LE32(payloadLen) + outBuf[4..];
  }

  // ---------- lists of frames ----------

  lemma {:induction false} FramesAppend(a: seq<seq<Byte>>, b: seq<seq<Byte>>)
    ensures Frames(a + b) == Frames(a) + Frames(b)
  {
    if a == [] {
      assert a + b == b;
    } else {
      assert (a + b)[1..] == a[1..] + b;
      FramesAppend(a[1..], b);
    }
  }

  lemma FramesSnoc(a: seq<seq<Byte>>, p: seq<Byte>)
    ensures Frames(a + [p]) == Frames(a) + Frame(p)
  {
    FramesAppend(a, [p]);
    assert Frames([p]) == Frame(p) + Frames([]);
  }

  lemma PayloadsStep(p: seq<Byte>, rest: seq<Byte>, cap: nat)
    requires cap < U32_SIZE && |p| <= cap
    ensures Payloads(Frame(p) + rest, cap) == [p] + Payloads(rest, cap)
  {
    NextOfFrame(p, rest, cap);
  }

  /** Frames decode to their payloads, followed by whatever the remaining bytes decode to. */
  lemma {:induction false} PayloadsOfFrames(payloads: seq<seq<Byte>>, tail: seq<Byte>, cap: nat)
    requires cap < U32_SIZE && Fits(payloads, cap)
    ensures Payloads(Frames(payloads) + tail, cap) == payloads + Payloads(tail, cap)
  {
    if payloads == [] {
      assert Frames(payloads) + tail == tail;
    } else {
      var p, ps := payloads[0], payloads[1..];
      assert Frames(payloads) + tail == Frame(p) + (Frames(ps) + tail);
      calc {
        Payloads(Frames(payloads) + tail, cap);
        { PayloadsStep(p, Frames(ps) + tail, cap); }
        [p] + Payloads(Frames(ps) + tail, cap);
        { PayloadsOfFrames(ps, tail, cap); }
        [p] + (ps + Payloads(tail, cap));
        { assert payloads == [p] + ps; }
        payloads + Payloads(tail, cap);
      }
    }
  }

  /** Different payload lists give different byte strings. */
  lemma FramesInjective(a: seq<seq<Byte>>, b: seq<seq<Byte>>)
    requires Fits(a, NO_CAP) && Fits(b, NO_CAP)
    requires Frames(a) == Frames(b)
    ensures a == b
  {
    PayloadsOfFrames(a, [], NO_CAP);
    PayloadsOfFrames(b, [], NO_CAP);
    assert Frames(a) + [] == Frames(a) && Frames(b) + [] == Frames(b);
    assert a + Payloads([], NO_CAP) == a && b + Payloads([], NO_CAP) == b;
  }

  /** No frame is a proper prefix of another. */
  lemma FramesPrefixFree(a: seq<Byte>, b: seq<Byte>)
    requires |a| < U32_SIZE && |b| < U32_SIZE && Frame(a) <= Frame(b)
    ensures a == b
  {
    var tail := Frame(b)[|Frame(a)|..];
    assert Frame(b) == Frame(a) + tail && Frame(b) == Frame(b) + [];
    NextOfFrame(a, tail, NO_CAP);
    NextOfFrame(b, [], NO_CAP);
  }

  /** Whole frames at the front of a frame list are its first frames. */
  lemma {:induction false} FramesPrefix(a: seq<seq<Byte>>, tail: seq<Byte>, b: seq<seq<Byte>>)
    requires Fits(a, NO_CAP) && Fits(b, NO_CAP)
    requires Frames(a) + tail == Frames(b)
    ensures a <= b && tail == Frames(b[|a|..])
  {
    PayloadsOfFrames(a, tail, NO_CAP);
    PayloadsOfFrames(b, [], NO_CAP);
    assert Frames(b) + [] == Frames(b);
    assert b + Payloads([], NO_CAP) == b;
    Cut(b, |a|);
    assert b[..|a|] == a;
    FramesAppend(a, b[|a|..]);
    assert Frames(a) + tail == Frames(a) + Frames(b[|a|..]);
    assert tail == (Frames(a) + tail)[|Frames(a)|..];
    assert Frames(b[|a|..]) == (Frames(a) + Frames(b[|a|..]))[|Frames(a)|..];
  }

  // ---------- receiving one message ----------

  /** The result of a receive call on a finished stream, and the bytes it leaves unread. */
  datatype Received<+T> = Received(result: Result<T, ReceiveError>, rest: seq<Byte>)

  function Malformation<T>(r: Result<T, DecodeError>): Result<T, ReceiveError> {
    match r
    case Ok(v) => Ok(v)
    case Err(e) => Err(Malformed(e))
  }

  /** One direction of the control stream: the reader's cap and the message it decodes. */
  datatype Channel<!T> = Channel(cap: U32, decode: seq<Byte> -> Result<T, DecodeError>)

  const SERVER: Channel<Request> := Channel(MAX_CONTROL_MSG, DecodeRequest)

  const CLIENT: Channel<Response> := Channel(NO_CAP, DecodeResponse)

  /** A receive call on a finished stream. */
  function Receive<T>(ch: Channel<T>, input: seq<Byte>): Received<T> {
    match NextPayload(input, ch.cap)
    case Incomplete => Received(Err(EndOfStream), [])
    case Oversized(len, rest) => Received(Err(TooLarge(len)), rest)
    case Payload(p, rest) => Received(Malformation(ch.decode(p)), rest)
  }

  /** Once the payload is there a receive call takes exactly one frame, decodable or not; past the
      cap it takes the header and leaves the payload in the stream. */
  lemma ReceiveResynchronises<T>(ch: Channel<T>, payload: seq<Byte>, tail: seq<Byte>)
    requires |payload| < U32_SIZE
    ensures Receive(ch, Frame(payload) + tail) ==
            if |payload| <= ch.cap
            then Received(Malformation(ch.decode(payload)), tail)
            else Received(Err(TooLarge(AsU32(|payload|))), payload + tail)
  {
    NextOfFrame(payload, tail, ch.cap);
  }

  /** The server's cut-off over arbitrary payloads, in bytes. */
  lemma ServerCutoff(payload: seq<Byte>, tail: seq<Byte>)
    requires |payload| < 0x1_0000_0000
    ensures Receive(SERVER, Frame(payload) + tail) ==
            if |payload| <= 1_048_576
            then Received(Malformation(DecodeRequest(payload)), tail)
            else Received(Err(TooLarge(|payload|)), payload + tail)
  {
    ReceiveResynchronises(SERVER, payload, tail);
  }

  /** The client takes response payloads of every length a header can state. */
  lemma ClientTakesAnyLength(payload: seq<Byte>, tail: seq<Byte>)
    requires |payload| < 0x1_0000_0000
    ensures Receive(CLIENT, Frame(payload) + tail) == Received(Malformation(DecodeResponse(payload)), tail)
  {
    ReceiveResynchronises(CLIENT, payload, tail);
  }

  lemma NextOfTruncated(len: U32, part: seq<Byte>, cap: nat)
    requires |part| < len <= cap
    ensures NextPayload(LE32(len) + part, cap) == Incomplete
  {
    LE32Prefix(len, part);
  }

  /** A stream that ends inside a frame is used up and reported as ended. */
  lemma TruncatedFrame<T>(ch: Channel<T>, payload: seq<Byte>, k: nat)
    requires |payload| <= ch.cap && k < |Frame(payload)|
    ensures Receive(ch, Frame(payload)[..k]) == Received(Err(EndOfStream), [])
  {
    if k >= 4 {
      assert Frame(payload)[..k] == LE32(|payload|) + payload[..k - 4];
      NextOfTruncated(|payload|, payload[..k - 4], ch.cap);
    }
  }
}
