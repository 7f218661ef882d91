/** What users of the protocol rely on, for every run of a connection. */
module Guarantees {
  import opened Results
  import opened Bytes
  import opened Protocol
  import opened Capnp
  import opened Framing
  import opened Receiving
  import opened Messages
  import opened Server
  import opened Router
  import opened ServeLoop
  import opened System
  import opened SystemInvariant
  import opened Refinement
  import opened Progress
  import opened FileTransfer
  import opened Transport
  import DataPlane

  // ---------- a client that sends requests ----------

  /** The control-stream writes of a client that only sends requests. */
  function RequestWrites(ws: Writes): (frames: seq<seq<Byte>>)
    ensures |frames| == |ws|
  {
    seq(|ws|, i requires 0 <= i < |ws| => Frame(RequestPayload(ws[i])))
  }

  lemma RequestWritesTail(ws: Writes)
    requires ws != []
    ensures RequestWrites(ws)[0] == Frame(RequestPayload(ws[0])) && RequestWrites(ws)[1..] == RequestWrites(ws[1..])
  {
  }

  lemma {:induction false} RequestWritesFlatten(ws: Writes)
    ensures Flatten(RequestWrites(ws)) == Frames(RequestPayloads(ws))
  {
    if ws != [] {
      RequestWritesTail(ws);
      RequestWritesFlatten(ws[1..]);
    }
  }

  lemma RequestWritesPrefix(ws: Writes, k: nat)
    requires k <= |ws|
    ensures RequestWrites(ws)[..k] == RequestWrites(ws[..k])
  {
  }

  /** The requests the client has sent by state `s`. */
  function Sent(ws: Writes, s: State): Writes
    requires |s.script| <= |ws|
  {
    ws[..|ws| - |s.script|]
  }

  lemma WritesAreRequests(ws: Writes)
    ensures MessagesIn(SERVER, Flatten(RequestWrites(ws))) == Requests(Admitted(ws))
  {
    RequestWritesFlatten(ws);
    MessagesInWrites(ws);
  }

  lemma WrittenSoFar(ws: Writes, s: State)
    requires ScriptOk(RequestWrites(ws), s)
    ensures s.written == Flatten(RequestWrites(Sent(ws, s)))
  {
    RequestWritesPrefix(ws, |ws| - |s.script|);
  }

  lemma WrittenAreRequests(ws: Writes, s: State)
    requires ScriptOk(RequestWrites(ws), s)
    ensures MessagesIn(SERVER, s.written) == Requests(Admitted(Sent(ws, s)))
  {
    WrittenSoFar(ws, s);
    WritesAreRequests(Sent(ws, s));
  }

  /** The decoded responses are a prefix of what dispatch answers to the requests sent so far, up to
      the first request over the cap, in the order they were sent. */
  lemma AnswersInOrder(routes: Routes, ws: Writes, steps: seq<Step>)
    requires Exec(routes, Init(RequestWrites(ws)), steps).Some?
    ensures var s := Exec(routes, Init(RequestWrites(ws)), steps).value;
            && |s.script| <= |ws|
            && AllAdmissible(CLIENT, s.client.accepted)
            && Responses(s) <= ResponsesOf(LogFor(routes, Requests(Admitted(Sent(ws, s)))))
  {
    ReachableInv(routes, RequestWrites(ws), steps);
    WrittenAreRequests(ws, Exec(routes, Init(RequestWrites(ws)), steps).value);
    ResponsesRefineDispatch(routes, RequestWrites(ws), steps);
  }

  /** The two ends composed without a network: what a client decodes from everything a server sends
      for everything the client sent. */
  lemma SessionRoundTrip(routes: Routes, ws: Writes)
    ensures MessagesIn(CLIENT, ControlWire(LogFor(routes, MessagesIn(SERVER, Frames(RequestPayloads(ws))))))
         == ResponsesOf(LogFor(routes, Requests(Admitted(ws))))
  {
    MessagesInWrites(ws);
    WireDecodes(LogFor(routes, Requests(Admitted(ws))));
  }

  lemma WireDecodes(log: seq<Emission>)
    ensures MessagesIn(CLIENT, ControlWire(log)) == ResponsesOf(log)
  {
    var payloads := ResponsePayloads(ResponsesOf(log));
    ResponsePayloadsAt(ResponsesOf(log));
    AcceptedOfFrames(CLIENT, payloads, []);
    assert Frames(payloads) + [] == Frames(payloads);
    assert payloads + Accepted(CLIENT, []) == payloads;
    MessagesOfResponses(ResponsesOf(log), payloads);
    assert ResponsesOf(log)[..|payloads|] == ResponsesOf(log);
  }

  // ---------- positional correlation ----------

  predicate EchoesOnce(emissions: seq<Emission>, id: U32) {
    |ResponsesOf(emissions)| == 1 && ResponsesOf(emissions)[0].id == id
  }

  /** Dispatching any request that can reach a server answers it once, under its own id. */
  ghost predicate EchoingRoutes(routes: Routes) {
    forall req: Request | Receivable(req) :: EchoesOnce(Dispatch(routes, req).emissions, req.id)
  }

  predicate AllEcho(routes: Routes, requests: seq<Request>) {
    forall i | 0 <= i < |requests| :: EchoesOnce(Dispatch(routes, requests[i]).emissions, requests[i].id)
  }

  predicate IdsInPlace(requests: seq<Request>, responses: seq<Response>) {
    && |responses| <= |requests|
    && forall i | 0 <= i < |responses| :: responses[i].id == requests[i].id
  }

  /** The i-th response carries the id of the i-th request and is its dispatch's only answer. */
  ghost predicate Correlated(routes: Routes, requests: seq<Request>, responses: seq<Response>) {
    && IdsInPlace(requests, responses)
    && forall i | 0 <= i < |responses| :: ResponsesOf(Dispatch(routes, requests[i]).emissions) == [responses[i]]
  }

  /** Counting responses works for a request list exactly when each of its dispatches echoes once. */
  lemma {:induction false} LogCorrelated(routes: Routes, requests: seq<Request>)
    ensures var all := ResponsesOf(LogFor(routes, requests));
            AllEcho(routes, requests) <==> |all| == |requests| && Correlated(routes, requests, all)
  {
    if AllEcho(routes, requests) && requests != [] {
      var first := Dispatch(routes, requests[0]).emissions;
      assert EchoesOnce(first, requests[0].id);
      LogCorrelated(routes, requests[1..]);
      ResponsesOfAppend(first, LogFor(routes, requests[1..]));
    }
  }

  lemma {:induction false} AdmittedReceivable(ws: Writes)
    ensures forall i | 0 <= i < |Admitted(ws)| :: Receivable(Admitted(ws)[i].request)
  {
    if ws != [] && |RequestPayload(ws[0])| <= MAX_CONTROL_MSG {
      CutoffIsCap(ws[0]);
      AdmittedReceivable(ws[1..]);
    }
  }

  lemma AdmittedEcho(routes: Routes, ws: Writes)
    requires EchoingRoutes(routes)
    ensures AllEcho(routes, Requests(Admitted(ws)))
  {
    AdmittedReceivable(ws);
  }

  /** A client that counts responses is never misled in state `s`: each response carries the id of the
      request at its position, and in the end every admitted request has one. */
  ghost predicate CountingWorks(ws: Writes, s: State) {
    && |s.script| <= |ws|
    && AllAdmissible(CLIENT, s.client.accepted)
    && IdsInPlace(Requests(Sent(ws, s)), Responses(s))
    && (Quiescent(s) ==> |Responses(s)| == |Admitted(ws)|)
  }

  /** Counting responses works in every run of every client exactly when dispatching any request that
      can reach a server answers it once, under its own id. */
  lemma CorrelationCondition(routes: Routes)
    ensures (forall ws: Writes, steps: seq<Step> | Exec(routes, Init(RequestWrites(ws)), steps).Some? ::
               CountingWorks(ws, Exec(routes, Init(RequestWrites(ws)), steps).value))
            <==> EchoingRoutes(routes)
  {
    if EchoingRoutes(routes) {
      forall ws: Writes, steps: seq<Step> | Exec(routes, Init(RequestWrites(ws)), steps).Some?
        ensures CountingWorks(ws, Exec(routes, Init(RequestWrites(ws)), steps).value)
      {
        PositionalCorrelation(routes, ws, steps);
      }
    } else {
      var req: Request :| Receivable(req) && !EchoesOnce(Dispatch(routes, req).emissions, req.id);
      var steps := MisledRun(routes, req);
    }
  }

  /** A client that sends one request whose dispatch does not echo once is misled. */
  lemma MisledRun(routes: Routes, req: Request) returns (steps: seq<Step>)
    requires Receivable(req) && !EchoesOnce(Dispatch(routes, req).emissions, req.id)
    ensures var ws := [Write(req, OneSegment)];
            && Exec(routes, Init(RequestWrites(ws)), steps).Some?
            && !CountingWorks(ws, Exec(routes, Init(RequestWrites(ws)), steps).value)
  {
    var w := Write(req, OneSegment);
    var s := Init(RequestWrites([w]));
    steps := CanSettle(routes, s, Measure(s));
    QuiescentIsComplete(routes, RequestWrites([w]), steps);
    SinglePromise(routes, w);
    MisledAtTheEnd(routes, w, Exec(routes, s, steps).value);
  }

  lemma MisledAtTheEnd(routes: Routes, w: Write, s: State)
    requires Encodable(w.request) && |w.request.uri| <= UriCutoff(w.layout)
    requires !EchoesOnce(Dispatch(routes, w.request).emissions, w.request.id)
    requires Quiescent(s) && AllAdmissible(CLIENT, s.client.accepted)
    requires Responses(s) == ResponsesOf(Dispatch(routes, w.request).emissions)
    ensures !CountingWorks([w], s)
  {
    AdmittedSingle(w);
  }

  /** What dispatch promises for a script of one request the server takes. */
  lemma SinglePromise(routes: Routes, w: Write)
    requires Encodable(w.request) && |w.request.uri| <= UriCutoff(w.layout)
    ensures Promised(routes, Flatten(RequestWrites([w]))) == Dispatch(routes, w.request).emissions
  {
    WritesAreRequests([w]);
    AdmittedSingle(w);
    SingleLog(routes, w.request);
  }

  // ---------- a handler that breaks the correlation ----------

  /** Does its work without ever answering. */
  function Silent(): Handler {
    (req: Request) => Outcome([], true)
  }

  /** A request for the silent handler, and one without a route. */
  function SilentThenMissing(): Writes {
    [Write(Request(7, Fetch, []), OneSegment), Write(Request(9, Ping, []), OneSegment)]
  }

  lemma SilentPromise(routes: Routes)
    requires Lookup(routes, Fetch, []) == Some(Silent()) && Lookup(routes, Ping, []).None?
    ensures ResponsesOf(Promised(routes, Flatten(RequestWrites(SilentThenMissing())))) == [Response(9, NotFound)]
  {
    var ws := SilentThenMissing();
    CutoffIsCap(ws[0]);
    CutoffIsCap(ws[1]);
    assert Admitted(ws[1..]) == ws[1..];
    assert Admitted(ws) == ws;
    WritesAreRequests(ws);
    assert Requests(ws) == [ws[0].request] + [ws[1].request];
    LogForAppend(routes, [ws[0].request], [ws[1].request]);
    SingleLog(routes, ws[0].request);
    SingleLog(routes, ws[1].request);
    MissingRoute(routes, ws[1].request);
    EmptyLeft(Dispatch(routes, ws[1].request).emissions);
  }

  /** With one silent handler, whenever nothing more can happen the first response the client has
      belongs to its second request. */
  lemma SilentMisleads(steps: seq<Step>)
    requires var routes := RegisterAll([Registration(Fetch, [], Silent())]);
             var run := Exec(routes, Init(RequestWrites(SilentThenMissing())), steps);
             run.Some? && Quiescent(run.value)
    ensures var routes := RegisterAll([Registration(Fetch, [], Silent())]);
            var s := Exec(routes, Init(RequestWrites(SilentThenMissing())), steps).value;
            && AllAdmissible(CLIENT, s.client.accepted)
            && Responses(s) == [Response(9, NotFound)]
            && SilentThenMissing()[0].request.id == 7
  {
    var routes := RegisterAll([Registration(Fetch, [], Silent())]);
    QuiescentIsComplete(routes, RequestWrites(SilentThenMissing()), steps);
    SilentPromise(routes);
  }

  lemma SingleLog(routes: Routes, req: Request)
    ensures LogFor(routes, [req]) == Dispatch(routes, req).emissions
  {
    assert LogFor(routes, [req]) == Dispatch(routes, req).emissions + LogFor(routes, []);
  }

  lemma PrefixCorrelated(routes: Routes, sent: Writes, responses: seq<Response>)
    requires EchoingRoutes(routes)
    requires responses <= ResponsesOf(LogFor(routes, Requests(Admitted(sent))))
    ensures Correlated(routes, Requests(sent), responses)
  {
    var admitted := Admitted(sent);
    AdmittedEcho(routes, sent);
    LogCorrelated(routes, Requests(admitted));
    AdmittedPrefix(sent);
    CorrelatedPrefix(routes, Requests(admitted), ResponsesOf(LogFor(routes, Requests(admitted))),
                     Requests(sent), responses);
  }

  /** A missing route shows at its own position. */
  ghost predicate NotFoundInPlace(routes: Routes, ws: Writes, responses: seq<Response>) {
    && |responses| <= |ws|
    && forall i | 0 <= i < |responses| ::
         var req := ws[i].request;
         Lookup(routes, req.action, req.uri).None? ==> responses[i] == Response(req.id, NotFound)
  }

  lemma CorrelatedNotFound(routes: Routes, sent: Writes, responses: seq<Response>)
    requires Correlated(routes, Requests(sent), responses)
    ensures NotFoundInPlace(routes, sent, responses)
  {
    forall i | 0 <= i < |responses| && Lookup(routes, sent[i].request.action, sent[i].request.uri).None?
      ensures responses[i] == Response(sent[i].request.id, NotFound)
    {
      MissingRoute(routes, sent[i].request);
      assert Requests(sent)[i] == sent[i].request;
      assert ResponsesOf(Dispatch(routes, sent[i].request).emissions) == [responses[i]];
    }
  }

  lemma CompleteCount(routes: Routes, ws: Writes, s: State)
    requires EchoingRoutes(routes) && Complete(routes, RequestWrites(ws), s)
    ensures |Responses(s)| == |Admitted(ws)|
  {
    WritesAreRequests(ws);
    AdmittedEcho(routes, ws);
    LogCorrelated(routes, Requests(Admitted(ws)));
  }

  /** With echoing handlers, in every run: responses never outnumber the requests sent, the i-th one
      has the id of the i-th request even when ids repeat, a missing route shows as NotFound at its
      own position, and in the end every admitted request is answered. */
  lemma PositionalCorrelation(routes: Routes, ws: Writes, steps: seq<Step>)
    requires EchoingRoutes(routes)
    requires Exec(routes, Init(RequestWrites(ws)), steps).Some?
    ensures var s := Exec(routes, Init(RequestWrites(ws)), steps).value;
            && CountingWorks(ws, s)
            && Correlated(routes, Requests(Sent(ws, s)), Responses(s))
            && NotFoundInPlace(routes, Sent(ws, s), Responses(s))
  {
    var s := Exec(routes, Init(RequestWrites(ws)), steps).value;
    AnswersInOrder(routes, ws, steps);
    PrefixCorrelated(routes, Sent(ws, s), Responses(s));
    CorrelatedNotFound(routes, Sent(ws, s), Responses(s));
    if Quiescent(s) {
      QuiescentIsComplete(routes, RequestWrites(ws), steps);
      CompleteCount(routes, ws, s);
    }
  }

  lemma CorrelatedPrefix(routes: Routes, requests: seq<Request>, responses: seq<Response>,
                         more: seq<Request>, fewer: seq<Response>)
    requires Correlated(routes, requests, responses)
    requires requests <= more && fewer <= responses
    ensures Correlated(routes, more, fewer)
  {
  }

  /** A missing route emits one NotFound, opens no data stream, and is no error. */
  lemma MissingRoute(routes: Routes, req: Request)
    requires Lookup(routes, req.action, req.uri).None?
    ensures ResponsesOf(Dispatch(routes, req).emissions) == [Response(req.id, NotFound)]
    ensures StreamsOf(Dispatch(routes, req).emissions) == []
    ensures Dispatch(routes, req).ok
  {
    var e := Respond(Response(req.id, NotFound));
    assert [e][1..] == [];
    assert ResponsesOf([]) == [] && StreamsOf([]) == [];
  }

  // ---------- data streams ----------

  /** Every data stream comes after a Success response with its id. */
  predicate SuccessFirst(log: seq<Emission>) {
    forall j | 0 <= j < |log| && log[j].Stream? :: Respond(Response(log[j].id, Success)) in log[..j]
  }

  ghost predicate SuccessFirstRoutes(routes: Routes) {
    forall req: Request :: SuccessFirst(Dispatch(routes, req).emissions)
  }

  lemma SuccessFirstAppend(a: seq<Emission>, b: seq<Emission>)
    requires SuccessFirst(a) && SuccessFirst(b)
    ensures SuccessFirst(a + b)
  {
    var log := a + b;
    forall j | 0 <= j < |log| && log[j].Stream?
      ensures Respond(Response(log[j].id, Success)) in log[..j]
    {
      if j < |a| {
        assert log[..j] == a[..j];
      } else {
        assert log[..j] == a + b[..j - |a|];
      }
    }
  }

  lemma SuccessFirstPrefix(a: seq<Emission>, b: seq<Emission>)
    requires a <= b && SuccessFirst(b)
    ensures SuccessFirst(a)
  {
    forall j | 0 <= j < |a| && a[j].Stream? ensures Respond(Response(a[j].id, Success)) in a[..j] {
      assert a[j] == b[j] && a[..j] == b[..j];
    }
  }

  lemma {:induction false} LogSuccessFirst(routes: Routes, requests: seq<Request>)
    requires SuccessFirstRoutes(routes)
    ensures SuccessFirst(LogFor(routes, requests))
  {
    if requests != [] {
      LogSuccessFirst(routes, requests[1..]);
      SuccessFirstAppend(Dispatch(routes, requests[0]).emissions, LogFor(routes, requests[1..]));
    }
  }

  lemma {:induction false} StreamsAreLogged(log: seq<Emission>, d: (U32, seq<Byte>))
    requires d in StreamsOf(log)
    ensures exists j :: 0 <= j < |log| && log[j] == Stream(d.0, d.1)
  {
    if !log[0].Stream? || d != (log[0].id, log[0].source) {
      assert d in StreamsOf(log[1..]);
      StreamsAreLogged(log[1..], d);
      var j :| 0 <= j < |log[1..]| && log[1..][j] == Stream(d.0, d.1);
      assert log[j + 1] == Stream(d.0, d.1);
    } else {
      assert log[0] == Stream(d.0, d.1);
    }
  }

  /** A download belongs to a data stream sent after a Success response with the same id. */
  ghost predicate Announced(log: seq<Emission>, d: (U32, seq<Byte>)) {
    exists j :: 0 <= j < |log| && log[j] == Stream(d.0, d.1) && Respond(Response(d.0, Success)) in log[..j]
  }

  /** In every run with handlers that respond before they stream: every data stream in the server's
      event log follows its Success response, and so does every download at the client. */
  lemma DataFollowsSuccess(routes: Routes, script: seq<seq<Byte>>, steps: seq<Step>)
    requires SuccessFirstRoutes(routes)
    requires Exec(routes, Init(script), steps).Some?
    ensures var s := Exec(routes, Init(script), steps).value;
            SuccessFirst(s.log) && forall d | d in s.data.delivered :: Announced(s.log, d)
  {
    var s := Exec(routes, Init(script), steps).value;
    ReachableInv(routes, script, steps);
    LogIsPromised(routes, s);
    LogSuccessFirst(routes, MessagesIn(SERVER, s.reachedServer));
    SuccessFirstPrefix(s.log, Promised(routes, s.reachedServer));
    DataPlane.Conservation(s.data);
    forall d | d in s.data.delivered ensures Announced(s.log, d) {
      assert d in multiset(s.data.delivered);
      assert d in multiset(StreamsOf(s.log));
      StreamsAreLogged(s.log, d);
    }
  }

  lemma {:induction false} StreamsAreRouted(routes: Routes, requests: seq<Request>, d: (U32, seq<Byte>))
    requires d in StreamsOf(LogFor(routes, requests))
    ensures exists req ::
              req in requests && Lookup(routes, req.action, req.uri).Some?
              && d in StreamsOf(Dispatch(routes, req).emissions)
  {
    var req := requests[0];
    var first, rest := Dispatch(routes, req).emissions, LogFor(routes, requests[1..]);
    StreamsOfAppend(first, rest);
    if d in StreamsOf(first) {
      if Lookup(routes, req.action, req.uri).None? {
        MissingRoute(routes, req);
      }
    } else {
      StreamsAreRouted(routes, requests[1..], d);
    }
  }

  /** Every download answers a request the client sent to a route that exists. */
  lemma DownloadsAreRequested(routes: Routes, script: seq<seq<Byte>>, steps: seq<Step>, d: (U32, seq<Byte>))
    requires Exec(routes, Init(script), steps).Some?
    requires d in Exec(routes, Init(script), steps).value.data.delivered
    ensures var s := Exec(routes, Init(script), steps).value;
            exists req ::
              && req in MessagesIn(SERVER, s.written)
              && Lookup(routes, req.action, req.uri).Some?
              && d in StreamsOf(Dispatch(routes, req).emissions)
  {
    var s := Exec(routes, Init(script), steps).value;
    DownloadsRefineDispatch(routes, script, steps);
    assert d in multiset(s.data.delivered);
    assert d in multiset(StreamsOf(Promised(routes, s.written)));
    StreamsAreRouted(routes, MessagesIn(SERVER, s.written), d);
  }

  /** Handlers stream under the id of the request they serve. */
  ghost predicate OwnIdRoutes(routes: Routes) {
    forall req: Request, d | d in StreamsOf(Dispatch(routes, req).emissions) :: d.0 == req.id
  }

  predicate DistinctIds(requests: seq<Request>) {
    forall i, j | 0 <= i < j < |requests| :: requests[i].id != requests[j].id
  }

  /** `requests[i]` is the only request with the id of the download, and its dispatch sent it. */
  ghost predicate BelongsTo(routes: Routes, requests: seq<Request>, d: (U32, seq<Byte>), i: nat) {
    && i < |requests| && requests[i].id == d.0
    && Lookup(routes, requests[i].action, requests[i].uri).Some?
    && d in StreamsOf(Dispatch(routes, requests[i]).emissions)
    && forall j | 0 <= j < |requests| && requests[j].id == d.0 :: j == i
  }

  /** A client that never reuses an id can tell its downloads apart: in every run each one belongs to
      exactly one of its requests, the one with its id. */
  lemma DownloadsAttributed(routes: Routes, script: seq<seq<Byte>>, steps: seq<Step>, d: (U32, seq<Byte>))
    requires OwnIdRoutes(routes) && DistinctIds(MessagesIn(SERVER, Flatten(script)))
    requires Exec(routes, Init(script), steps).Some?
    requires d in Exec(routes, Init(script), steps).value.data.delivered
    ensures exists i: nat :: BelongsTo(routes, MessagesIn(SERVER, Flatten(script)), d, i)
  {
    var s := Exec(routes, Init(script), steps).value;
    DownloadsAreRequested(routes, script, steps, d);
    WrittenArePrefix(routes, script, steps);
    var req :| && req in MessagesIn(SERVER, s.written) && Lookup(routes, req.action, req.uri).Some?
               && d in StreamsOf(Dispatch(routes, req).emissions);
    OnlyRequest(routes, MessagesIn(SERVER, s.written), MessagesIn(SERVER, Flatten(script)), req, d);
  }

  lemma OnlyRequest(routes: Routes, sent: seq<Request>, all: seq<Request>, req: Request, d: (U32, seq<Byte>))
    requires OwnIdRoutes(routes) && DistinctIds(all) && sent <= all && req in sent
    requires Lookup(routes, req.action, req.uri).Some? && d in StreamsOf(Dispatch(routes, req).emissions)
    ensures exists i: nat :: BelongsTo(routes, all, d, i)
  {
    var i :| 0 <= i < |sent| && sent[i] == req;
    assert BelongsTo(routes, all, d, i);
  }

  lemma WrittenArePrefix(routes: Routes, script: seq<seq<Byte>>, steps: seq<Step>)
    requires Exec(routes, Init(script), steps).Some?
    ensures MessagesIn(SERVER, Exec(routes, Init(script), steps).value.written)
         <= MessagesIn(SERVER, Flatten(script))
  {
    var s := Exec(routes, Init(script), steps).value;
    var k := |script| - |s.script|;
    ReachableInv(routes, script, steps);
    Cut(script, k);
    FlattenAppend(script[..k], script[k..]);
    MessagesInMonotone(SERVER, s.written, Flatten(script[k..]));
  }

  // ---------- handler errors ----------

  /** Only what handlers emit matters: route tables that differ in nothing but which handlers fail
      have the same runs, through the same states. */
  lemma {:induction false} HandlerErrorsIgnored(a: Routes, b: Routes, s: State, steps: seq<Step>)
    requires forall req: Request :: Dispatch(a, req).emissions == Dispatch(b, req).emissions
    ensures Exec(a, s, steps) == Exec(b, s, steps)
    decreases |steps|
  {
    if steps != [] && Enabled(s, steps[0]) {
      HandlerErrorsIgnored(a, b, Apply(a, s, steps[0]), steps[1..]);
    }
  }

  // ---------- one data stream at a time ----------

  /** While a handler runs only the newest data stream may be open; between handlers none is. */
  predicate Sequential(s: State) {
    && (forall i | 0 <= i < |s.data.streams| - 1 :: s.data.streams[i].finished)
    && (s.handler.None? ==> AllFinished(s.data))
  }

  lemma StepSequential(routes: Routes, s: State, step: Step)
    requires Sequential(s) && Enabled(s, step)
    ensures Sequential(Apply(routes, s, step))
  {
  }

  lemma {:induction false} ExecSequential(routes: Routes, s: State, steps: seq<Step>)
    requires Sequential(s) && Exec(routes, s, steps).Some?
    ensures Sequential(Exec(routes, s, steps).value)
    decreases |steps|
  {
    if steps != [] {
      StepSequential(routes, s, steps[0]);
      ExecSequential(routes, Apply(routes, s, steps[0]), steps[1..]);
    }
  }

  /** A handler awaits each data stream it sends: in every run, every stream but the newest has been
      written out in full, and all its bytes are with the reader or on their way. */
  lemma SendsAreSequential(routes: Routes, script: seq<seq<Byte>>, steps: seq<Step>)
    requires Exec(routes, Init(script), steps).Some?
    ensures var s := Exec(routes, Init(script), steps).value;
            && Sequential(s)
            && forall i | 0 <= i < |s.data.streams| :: WrittenOut(s, i)
  {
    var s := Exec(routes, Init(script), steps).value;
    ExecSequential(routes, Init(script), steps);
    ReachableInv(routes, script, steps);
    forall i | 0 <= i < |s.data.streams| ensures WrittenOut(s, i) {
      var t := s.data.streams[i];
      assert DataPlane.StreamOk(t);
      EmptyRight(DataPlane.Taken(t.intake) + t.arrived + t.inFlight);
    }
  }

  predicate WrittenOut(s: State, i: nat)
    requires i < |s.data.streams|
  {
    var t := s.data.streams[i];
    i < |s.data.streams| - 1 || s.handler.None? ==>
      DataPlane.Taken(t.intake) + t.arrived + t.inFlight == DataWire(t.id, t.source)
  }

  // ---------- the file-transfer example ----------

  /** Every registered handler is a fetch handler of some file. */
  ghost predicate FetchRoutes(routes: Routes) {
    forall action, uri | Lookup(routes, action, uri).Some? ::
      exists file :: Lookup(routes, action, uri).value == HandleFetch(file)
  }

  lemma FetchEmissions(id: U32, file: seq<Byte>)
    ensures var log := [Respond(Response(id, Success)), Stream(id, file)];
            && ResponsesOf(log) == [Response(id, Success)]
            && StreamsOf(log) == [(id, file)]
            && SuccessFirst(log)
  {
    var r, d := Respond(Response(id, Success)), Stream(id, file);
    assert [r, d] == [r] + [d];
    ResponsesOfAppend([r], [d]);
    StreamsOfAppend([r], [d]);
    assert [r][1..] == [] && [d][1..] == [];
    assert [r, d][..1] == [r];
  }

  /** Fetch handlers meet all conditions the run theorems ask for. */
  lemma FetchRoutesQualify(routes: Routes)
    requires FetchRoutes(routes)
    ensures forall req: Request :: EchoesOnce(Dispatch(routes, req).emissions, req.id)
    ensures EchoingRoutes(routes) && SuccessFirstRoutes(routes) && OwnIdRoutes(routes)
    ensures forall req: Request :: Dispatch(routes, req).ok
  {
    forall req: Request
      ensures EchoesOnce(Dispatch(routes, req).emissions, req.id)
      ensures SuccessFirst(Dispatch(routes, req).emissions)
      ensures forall d | d in StreamsOf(Dispatch(routes, req).emissions) :: d.0 == req.id
      ensures Dispatch(routes, req).ok
    {
      if Lookup(routes, req.action, req.uri).Some? {
        var file :| Lookup(routes, req.action, req.uri).value == HandleFetch(file);
        FetchEmissions(req.id, file);
      } else {
        MissingRoute(routes, req);
      }
    }
  }

  /** The example's exchange, under every schedule: when nothing more can happen, the client has read
      one Success response and downloaded exactly the file, both under the id it chose. */
  lemma TransferCompletes(file: seq<Byte>, w: Write, steps: seq<Step>)
    requires Encodable(w.request) && |w.request.uri| <= UriCutoff(w.layout)
    requires var routes := RegisterAll([Registration(w.request.action, w.request.uri, HandleFetch(file))]);
             && Exec(routes, Init(RequestWrites([w])), steps).Some?
             && Quiescent(Exec(routes, Init(RequestWrites([w])), steps).value)
    ensures var routes := RegisterAll([Registration(w.request.action, w.request.uri, HandleFetch(file))]);
            var s := Exec(routes, Init(RequestWrites([w])), steps).value;
            && AllAdmissible(CLIENT, s.client.accepted)
            && Responses(s) == [Response(w.request.id, Success)]
            && s.data.delivered == [(w.request.id, file)]
  {
    var routes := RegisterAll([Registration(w.request.action, w.request.uri, HandleFetch(file))]);
    QuiescentIsComplete(routes, RequestWrites([w]), steps);
    FetchCompletes(routes, file, w, Exec(routes, Init(RequestWrites([w])), steps).value);
  }

  lemma FetchCompletes(routes: Routes, file: seq<Byte>, w: Write, s: State)
    requires Encodable(w.request) && |w.request.uri| <= UriCutoff(w.layout)
    requires Lookup(routes, w.request.action, w.request.uri) == Some(HandleFetch(file))
    requires Complete(routes, RequestWrites([w]), s)
    ensures Responses(s) == [Response(w.request.id, Success)]
    ensures s.data.delivered == [(w.request.id, file)]
  {
    SinglePromise(routes, w);
    FetchEmissions(w.request.id, file);
    SingletonBag(s.data.delivered, (w.request.id, file));
  }

  lemma SingletonBag<T>(s: seq<T>, x: T)
    requires multiset(s) == multiset([x])
    ensures s == [x]
  {
    assert |multiset(s)| == |s| == 1;
    assert s[0] in multiset(s);
  }
}
