/** Requests and responses on the wire: where the codec and the framing meet. */
module Messages {
  import opened Results
  import opened Bytes
  import opened Protocol
  import opened Capnp
  import opened CapnpProofs
  import opened Framing
  import opened Receiving

  /** A request as written: the allocator's choice of layout is part of the bytes. */
  datatype Write = Write(request: Request, layout: Layout)

  type Writes = ws: seq<Write> | forall i | 0 <= i < |ws| :: Encodable(ws[i].request)

  function RequestPayload(w: Write): seq<Byte>
    requires Encodable(w.request)
  {
    EncodeRequest(w.request, w.layout)
  }

  function RequestPayloads(ws: Writes): (ps: seq<seq<Byte>>)
    ensures |ps| == |ws|
  {
    if ws == [] then [] else [RequestPayload(ws[0])] + RequestPayloads(ws[1..])
  }

  function ResponsePayloads(rs: seq<Response>): (ps: seq<seq<Byte>>)
    ensures |ps| == |rs|
  {
    if rs == [] then [] else [EncodeResponse(rs[0])] + ResponsePayloads(rs[1..])
  }

  /** The requests before the first one over the server's cap. */
  function Admitted(ws: Writes): (a: Writes) {
    if ws == [] || |RequestPayload(ws[0])| > MAX_CONTROL_MSG then [] else [ws[0]] + Admitted(ws[1..])
  }

  /** The messages in some accepted payloads. */
  function MessagesOf<T>(ch: Channel<T>, payloads: seq<seq<Byte>>): (ms: seq<T>)
    requires AllAdmissible(ch, payloads)
    ensures |ms| == |payloads|
    ensures forall i | 0 <= i < |ms| :: Ok(ms[i]) == ch.decode(payloads[i])
  {
    seq(|payloads|, i requires 0 <= i < |payloads| && Admissible(ch, payloads[i]) => ch.decode(payloads[i]).value)
  }

  /** The messages a finished stream delivers: the requests a server handles, say. */
  function MessagesIn<T>(ch: Channel<T>, input: seq<Byte>): seq<T> {
    AcceptedSplits(ch, input);
    MessagesOf(ch, Accepted(ch, input))
  }

  /** The messages still to come after a receive call, its own included. */
  function Onward<T>(ch: Channel<T>, r: Received<T>): seq<T> {
    match r.result
    case Ok(m) => [m] + MessagesIn(ch, r.rest)
    case Err(_) => []
  }

  /** One receive call takes the first message of the stream and leaves the others. */
  lemma ReceiveStep<T>(ch: Channel<T>, input: seq<Byte>)
    ensures MessagesIn(ch, input) == Onward(ch, Receive(ch, input))
    ensures Receive(ch, input).result.Ok? ==> |Receive(ch, input).rest| < |input|
  {
    match NextPayload(input, ch.cap) {
      case Payload(p, rest) =>
        if ch.decode(p).Ok? {
          assert Accepted(ch, input) == [p] + Accepted(ch, rest);
        }
      case _ =>
    }
  }

  /** What a caller gets who keeps calling receive until it fails. */
  function ReceiveAll<T>(ch: Channel<T>, input: seq<Byte>): seq<T>
    decreases |input|
  {
    var r := Receive(ch, input);
    ReceiveStep(ch, input);
    if r.result.Ok? then [r.result.value] + ReceiveAll(ch, r.rest) else []
  }

  /** Calling receive until it fails delivers exactly the messages of the stream. */
  lemma {:induction false} ReceiveAllDelivers<T>(ch: Channel<T>, input: seq<Byte>)
    ensures ReceiveAll(ch, input) == MessagesIn(ch, input)
    decreases |input|
  {
    ReceiveStep(ch, input);
    if Receive(ch, input).result.Ok? {
      ReceiveAllDelivers(ch, Receive(ch, input).rest);
    }
  }

  function Requests(ws: Writes): seq<Request> {
    seq(|ws|, i requires 0 <= i < |ws| => ws[i].request)
  }

  // ---------- one message ----------

  /** Longest URI the server takes in each layout. */
  function UriCutoff(layout: Layout): nat {
    if layout.OneSegment? then 1_048_543 else 1_048_527
  }

  /** Within the cutoff of the layout that needs fewer bytes. */
  predicate Receivable(req: Request) {
    |req.uri| <= UriCutoff(OneSegment)
  }

  lemma PayloadLength(w: Write)
    requires Encodable(w.request)
    ensures |RequestPayload(w)| == PayloadSize(w.layout, |w.request.uri|)
  {
    RequestSize(w.request, w.layout);
  }

  lemma SizeCutoff(layout: Layout, n: nat)
    ensures PayloadSize(layout, n) <= MAX_CONTROL_MSG <==> n <= UriCutoff(layout)
  {
  }

  lemma CutoffIsCap(w: Write)
    requires Encodable(w.request)
    ensures |RequestPayload(w)| <= MAX_CONTROL_MSG <==> |w.request.uri| <= UriCutoff(w.layout)
    ensures |RequestPayload(w)| < U32_SIZE
  {
    PayloadLength(w);
    SizeCutoff(w.layout, |w.request.uri|);
    PayloadSizeFits(w.layout, |w.request.uri|, MAX_URI);
  }

  lemma EncodedRequest(w: Write)
    requires Encodable(w.request)
    ensures DecodeRequest(RequestPayload(w)) == Ok(w.request)
    ensures |RequestPayload(w)| <= NO_CAP
  {
    CutoffIsCap(w);
    RequestRoundTrip(w.request, w.layout, []);
    assert RequestPayload(w) + [] == RequestPayload(w);
  }

  lemma ReceiveDecoded<T>(ch: Channel<T>, p: seq<Byte>, m: T, tail: seq<Byte>)
    requires ch.decode(p) == Ok(m) && |p| < U32_SIZE
    ensures Receive(ch, Frame(p) + tail) ==
            if |p| <= ch.cap then Received(Ok(m), tail) else Received(Err(TooLarge(AsU32(|p|))), p + tail)
  {
    ReceiveResynchronises(ch, p, tail);
  }

  /** A written request reaches the server exactly when its URI is within the cutoff. */
  lemma RequestCutoff(w: Write, tail: seq<Byte>)
    requires Encodable(w.request)
    ensures var p := RequestPayload(w);
            Receive(SERVER, Frame(p) + tail) ==
            if |w.request.uri| <= UriCutoff(w.layout)
            then Received(Ok(w.request), tail)
            else Received(Err(TooLarge(AsU32(|p|))), p + tail)
  {
    CutoffIsCap(w);
    EncodedRequest(w);
    ReceiveDecoded(SERVER, RequestPayload(w), w.request, tail);
  }

  lemma ReceiveTooLong<T>(ch: Channel<T>, p: seq<Byte>, len: U32, tail: seq<Byte>)
    requires |p| == len > ch.cap
    ensures Receive(ch, Frame(p) + tail).result == Err(TooLarge(len))
  {
    NextOfFrame(p, tail, ch.cap);
  }

  lemma RefusedLength(w: Write, tail: seq<Byte>)
    requires Encodable(w.request) && |w.request.uri| > UriCutoff(w.layout)
    ensures PayloadSize(w.layout, |w.request.uri|) < U32_SIZE
    ensures Receive(SERVER, Frame(RequestPayload(w)) + tail).result
         == Err(TooLarge(PayloadSize(w.layout, |w.request.uri|)))
  {
    CutoffIsCap(w);
    PayloadLength(w);
    ReceiveTooLong(SERVER, RequestPayload(w), |RequestPayload(w)|, tail);
  }

  /** The shortest URIs the server never takes, whatever the layout. */
  lemma ShortestRefused(w: Write, tail: seq<Byte>)
    requires |w.request.uri| == 1_048_544
    ensures Receive(SERVER, Frame(RequestPayload(w)) + tail).result
         == Err(TooLarge(if w.layout.OneSegment? then 1_048_584 else 1_048_600))
  {
    RefusedLength(w, tail);
  }

  /** One byte less, and the allocator's choice of layout decides. */
  lemma LayoutDecides(w: Write, tail: seq<Byte>)
    requires |w.request.uri| == 1_048_543
    ensures Receive(SERVER, Frame(RequestPayload(w)) + tail).result
         == if w.layout.OneSegment? then Ok(w.request) else Err(TooLarge(1_048_592))
  {
    match w.layout
    case OneSegment => RequestCutoff(w, tail);
    case TwoSegments => RefusedLength(w, tail);
  }

  /** A URI of any length: one ASCII letter, repeated. */
  lemma {:induction false} UriOfLength(n: nat) returns (uri: Uri)
    ensures |uri| == n
  {
    if n == 0 {
      uri := [];
    } else {
      var shorter := UriOfLength(n - 1);
      assert ([97] + shorter)[1..] == shorter;
      uri := [97] + shorter;
    }
  }

  /** A request that is sent and never received. */
  lemma RefusedRequest(id: U32, action: Action, tail: seq<Byte>) returns (req: Request)
    ensures req.id == id && req.action == action && |req.uri| == 1_048_544
    ensures Receive(SERVER, Frame(RequestPayload(Write(req, OneSegment))) + tail).result == Err(TooLarge(1_048_584))
  {
    var uri := UriOfLength(1_048_544);
    req := Request(id, action, uri);
    ShortestRefused(Write(req, OneSegment), tail);
  }

  lemma ResponseReceived(res: Response, tail: seq<Byte>)
    ensures Receive(CLIENT, Frame(EncodeResponse(res)) + tail) == Received(Ok(res), tail)
  {
    EncodedResponse(res);
    ReceiveDecoded(CLIENT, EncodeResponse(res), res, tail);
  }

  lemma NullRootReads(segs: seq<seq<Byte>>)
    requires segs != [] && ReadWord(segs[0], 0) == Ok(Word(0, 0))
    ensures RequestFrom(segs) == Ok(Request(0, Fetch, []))
  {
  }

  /** Decoding forgets: any message with a null root is a Fetch of the empty URI with id 0. */
  lemma NullRootIsDefaultRequest(segs: seq<seq<Byte>>)
    requires Segments(segs) && ReadWord(segs[0], 0) == Ok(Word(0, 0))
    ensures DecodeRequest(WriteMessage(segs)) == Ok(Request(0, Fetch, []))
  {
    MessageRoundTrip(segs, []);
    assert WriteMessage(segs) + [] == WriteMessage(segs);
    NullRootReads(segs);
  }

  // ---------- lists of messages ----------

  lemma EncodedResponse(res: Response)
    ensures Admissible(CLIENT, EncodeResponse(res)) && DecodeResponse(EncodeResponse(res)) == Ok(res)
  {
    ResponseSize(res);
    ResponseRoundTrip(res, []);
    assert EncodeResponse(res) + [] == EncodeResponse(res);
  }

  lemma {:induction false} RequestPayloadsAt(ws: Writes)
    ensures forall i | 0 <= i < |ws| :: RequestPayloads(ws)[i] == RequestPayload(ws[i])
  {
    if ws != [] {
      RequestPayloadsAt(ws[1..]);
    }
  }

  lemma RequestPayloadsFit(ws: Writes)
    ensures Fits(RequestPayloads(ws), NO_CAP)
  {
    RequestPayloadsAt(ws);
    forall i | 0 <= i < |ws| ensures |RequestPayloads(ws)[i]| <= NO_CAP {
      EncodedRequest(ws[i]);
    }
  }

  lemma {:induction false} ResponsePayloadsAt(rs: seq<Response>)
    ensures forall i | 0 <= i < |rs| :: ResponsePayloads(rs)[i] == EncodeResponse(rs[i])
    ensures AllAdmissible(CLIENT, ResponsePayloads(rs))
  {
    if rs != [] {
      ResponsePayloadsAt(rs[1..]);
      EncodedResponse(rs[0]);
    }
  }

  lemma {:induction false} RequestPayloadsAppend(a: Writes, b: Writes)
    ensures RequestPayloads(a + b) == RequestPayloads(a) + RequestPayloads(b)
  {
    if a == [] {
      assert a + b == b;
    } else {
      TakeDropAppend(a, 1, b);
      RequestPayloadsAppend(a[1..], b);
      Assoc([RequestPayload(a[0])], RequestPayloads(a[1..]), RequestPayloads(b));
    }
  }

  lemma RequestFramesSnoc(ws: Writes, w: Write)
    requires Encodable(w.request)
    ensures Frames(RequestPayloads(ws + [w])) == Frames(RequestPayloads(ws)) + Frame(RequestPayload(w))
  {
    RequestPayloadsAppend(ws, [w]);
    assert RequestPayloads([w]) == [RequestPayload(w)];
    FramesSnoc(RequestPayloads(ws), RequestPayload(w));
  }

  lemma {:induction false} ResponsePayloadsAppend(a: seq<Response>, b: seq<Response>)
    ensures ResponsePayloads(a + b) == ResponsePayloads(a) + ResponsePayloads(b)
  {
    if a == [] {
      assert a + b == b;
    } else {
      TakeDropAppend(a, 1, b);
      ResponsePayloadsAppend(a[1..], b);
      Assoc([EncodeResponse(a[0])], ResponsePayloads(a[1..]), ResponsePayloads(b));
    }
  }

  /** Different request lists never give the same bytes, whatever the layouts. */
  lemma WritesInjective(a: Writes, b: Writes)
    requires Frames(RequestPayloads(a)) == Frames(RequestPayloads(b))
    ensures Requests(a) == Requests(b)
  {
    RequestPayloadsAt(a);
    RequestPayloadsAt(b);
    RequestPayloadsFit(a);
    RequestPayloadsFit(b);
    FramesInjective(RequestPayloads(a), RequestPayloads(b));
    forall i | 0 <= i < |a| ensures a[i].request == b[i].request {
      EncodedRequest(a[i]);
      EncodedRequest(b[i]);
    }
  }

  lemma {:induction false} AdmittedPrefix(ws: Writes)
    ensures Admitted(ws) <= ws
    ensures Admitted(ws) == ws || |RequestPayload(ws[|Admitted(ws)|])| > MAX_CONTROL_MSG
  {
    if ws != [] && |RequestPayload(ws[0])| <= MAX_CONTROL_MSG {
      AdmittedPrefix(ws[1..]);
      assert Admitted(ws)[1..] == Admitted(ws[1..]);
    }
  }

  lemma AdmittedSingle(w: Write)
    requires Encodable(w.request) && |w.request.uri| <= UriCutoff(w.layout)
    ensures Admitted([w]) == [w] && Requests([w]) == [w.request]
  {
    CutoffIsCap(w);
    EmptyRight([w]);
  }

  lemma {:induction false} AdmittedAdmissible(ws: Writes)
    ensures AllAdmissible(SERVER, RequestPayloads(Admitted(ws)))
  {
    if ws != [] && |RequestPayload(ws[0])| <= MAX_CONTROL_MSG {
      AdmittedAdmissible(ws[1..]);
      EncodedRequest(ws[0]);
      assert Admitted(ws)[1..] == Admitted(ws[1..]);
    }
  }

  lemma {:induction false} AcceptedWrites(ws: Writes)
    ensures Accepted(SERVER, Frames(RequestPayloads(ws))) == RequestPayloads(Admitted(ws))
  {
    if ws != [] {
      var p, rest := RequestPayload(ws[0]), Frames(RequestPayloads(ws[1..]));
      EncodedRequest(ws[0]);
      if |p| <= MAX_CONTROL_MSG {
        AcceptedStep(SERVER, p, rest);
        AcceptedWrites(ws[1..]);
        assert Admitted(ws)[1..] == Admitted(ws[1..]);
      } else {
        NextOfFrame(p, rest, MAX_CONTROL_MSG);
      }
    }
  }

  lemma MessagesOfWrites(ws: Writes)
    requires AllAdmissible(SERVER, RequestPayloads(ws))
    ensures MessagesOf(SERVER, RequestPayloads(ws)) == Requests(ws)
  {
    RequestPayloadsAt(ws);
    forall i | 0 <= i < |ws| ensures SERVER.decode(RequestPayloads(ws)[i]) == Ok(ws[i].request) {
      EncodedRequest(ws[i]);
    }
  }

  /** A client's writes are handled request for request, up to the first one over the cap. */
  lemma MessagesInWrites(ws: Writes)
    ensures MessagesIn(SERVER, Frames(RequestPayloads(ws))) == Requests(Admitted(ws))
  {
    AcceptedWrites(ws);
    AdmittedAdmissible(ws);
    MessagesOfWrites(Admitted(ws));
  }
}
