/** What a client can observe: dispatch applied to its requests, one after the other. */
module Refinement {
  import opened Results
  import opened Bytes
  import opened Protocol
  import opened Framing
  import opened Receiving
  import opened Messages
  import opened Server
  import opened Router
  import opened ServeLoop
  import opened System
  import opened SystemInvariant
  import DataPlane

  /** The responses the client has decoded. */
  function Responses(s: State): seq<Response>
    requires AllAdmissible(CLIENT, s.client.accepted)
  {
    MessagesOf(CLIENT, s.client.accepted)
  }

  /** Everything handling the requests in some control bytes emits: the sequential specification. */
  function Promised(routes: Routes, written: seq<Byte>): seq<Emission> {
    LogFor(routes, MessagesIn(SERVER, written))
  }

  // ---------- prefixes ----------

  lemma MessagesOfPrefix<T>(ch: Channel<T>, a: seq<seq<Byte>>, b: seq<seq<Byte>>)
    requires AllAdmissible(ch, a) && AllAdmissible(ch, b) && a <= b
    ensures MessagesOf(ch, a) <= MessagesOf(ch, b)
  {
    forall i | 0 <= i < |a| ensures MessagesOf(ch, a)[i] == MessagesOf(ch, b)[i] {
      assert a[i] == b[i];
    }
  }

  lemma MessagesInMonotone<T>(ch: Channel<T>, input: seq<Byte>, more: seq<Byte>)
    ensures MessagesIn(ch, input) <= MessagesIn(ch, input + more)
  {
    AcceptedMonotone(ch, input, more);
    AcceptedSplits(ch, input);
    AcceptedSplits(ch, input + more);
    MessagesOfPrefix(ch, Accepted(ch, input), Accepted(ch, input + more));
  }

  lemma LogForPrefix(routes: Routes, a: seq<Request>, b: seq<Request>)
    requires a <= b
    ensures LogFor(routes, a) <= LogFor(routes, b)
  {
    assert b == a + b[|a|..];
    LogForAppend(routes, a, b[|a|..]);
  }

  lemma ResponsesOfPrefix(a: seq<Emission>, b: seq<Emission>)
    requires a <= b
    ensures ResponsesOf(a) <= ResponsesOf(b)
  {
    assert b == a + b[|a|..];
    ResponsesOfAppend(a, b[|a|..]);
  }

  lemma PrefixTransitive<T>(a: seq<T>, b: seq<T>, c: seq<T>)
    requires a <= b && b <= c
    ensures a <= c
  {
  }

  // ---------- safety ----------

  /** The server has emitted a prefix of what the bytes that reached it promise. */
  lemma LogIsPromised(routes: Routes, s: State)
    requires RequestBytesOk(s) && LogOk(routes, s)
    ensures s.log <= Promised(routes, s.reachedServer) <= Promised(routes, s.written)
  {
    var requests := MessagesOf(SERVER, s.server.accepted);
    FaithfulAccepts(SERVER, s.server, s.reachedServer);
    AcceptedSplits(SERVER, s.reachedServer);
    MessagesOfPrefix(SERVER, s.server.accepted, Accepted(SERVER, s.reachedServer));
    LogForPrefix(routes, requests, MessagesIn(SERVER, s.reachedServer));
    PrefixTransitive(s.log, LogFor(routes, requests), Promised(routes, s.reachedServer));
    MessagesInMonotone(SERVER, s.reachedServer, s.toServer);
    LogForPrefix(routes, MessagesIn(SERVER, s.reachedServer), MessagesIn(SERVER, s.written));
  }

  lemma MessagesOfResponses(rs: seq<Response>, payloads: seq<seq<Byte>>)
    requires payloads <= ResponsePayloads(rs)
    ensures AllAdmissible(CLIENT, payloads)
    ensures MessagesOf(CLIENT, payloads) == rs[..|payloads|]
  {
    ResponsePayloadsAt(rs);
    forall i | 0 <= i < |payloads| ensures Admissible(CLIENT, payloads[i]) && CLIENT.decode(payloads[i]) == Ok(rs[i]) {
      EncodedResponse(rs[i]);
      assert payloads[i] == ResponsePayloads(rs)[i];
    }
  }

  /** The client has decoded a prefix of the responses the server has emitted. */
  lemma ResponsesAreLogged(s: State)
    requires ResponseBytesOk(s)
    ensures AllAdmissible(CLIENT, s.client.accepted)
    ensures Responses(s) <= ResponsesOf(s.log)
  {
    var payloads := ResponsePayloads(ResponsesOf(s.log));
    var rest := Held(s.client.phase) + s.client.buffer + s.toClient;
    ResponsePayloadsAt(ResponsesOf(s.log));
    assert Frames(s.client.accepted) + rest == Frames(payloads) by {
      var front := Frames(s.client.accepted);
      Assoc(front, Held(s.client.phase), s.client.buffer);
      Assoc(front, Held(s.client.phase) + s.client.buffer, s.toClient);
    }
    AdmissibleFits(s.client.accepted);
    AdmissibleFits(payloads);
    FramesPrefix(s.client.accepted, rest, payloads);
    MessagesOfResponses(ResponsesOf(s.log), s.client.accepted);
  }

  lemma AdmissibleFits(payloads: seq<seq<Byte>>)
    requires AllAdmissible(CLIENT, payloads)
    ensures Fits(payloads, NO_CAP)
  {
    forall i | 0 <= i < |payloads| ensures |payloads[i]| <= NO_CAP {
      assert Admissible(CLIENT, payloads[i]);
    }
  }

  /** Main safety theorem. Whatever bytes the client writes, and under any chunking and interleaving,
      the responses decoded so far are a prefix of what dispatch answers to the requests in the bytes
      written so far, in request order. */
  lemma ResponsesRefineDispatch(routes: Routes, script: seq<seq<Byte>>, steps: seq<Step>)
    requires Exec(routes, Init(script), steps).Some?
    ensures var s := Exec(routes, Init(script), steps).value;
            && AllAdmissible(CLIENT, s.client.accepted)
            && Responses(s) <= ResponsesOf(Promised(routes, s.written))
  {
    var s := Exec(routes, Init(script), steps).value;
    ReachableInv(routes, script, steps);
    ResponsesAreLogged(s);
    LogIsPromised(routes, s);
    ResponsesOfPrefix(s.log, Promised(routes, s.written));
    PrefixTransitive(Responses(s), ResponsesOf(s.log), ResponsesOf(Promised(routes, s.written)));
  }

  // ---------- completeness ----------

  lemma QuiescentData(s: State)
    requires Quiescent(s) && DataPlane.Inv(s.data)
    ensures AllFinished(s.data)
    ensures forall i | 0 <= i < |s.data.streams| :: s.data.streams[i].intake.Ended?
  {
    forall i | 0 <= i < |s.data.streams|
      ensures s.data.streams[i].intake.Ended? && s.data.streams[i].finished
    {
      assert !Enabled(s, Data(DataPlane.Pending(s.data.streams[i], i)));
      if !s.data.streams[i].intake.Ended? {
        DataPlane.StreamProgress(s.data, i);
      }
      assert DataPlane.StreamOk(s.data.streams[i]);
    }
  }

  /** A connection that cannot move has written, delivered and read everything. */
  lemma QuiescentFacts(routes: Routes, s: State)
    requires Quiescent(s) && DataPlane.Inv(s.data)
    ensures s.script == [] && s.toServer == [] && s.toClient == []
    ensures s.handler.None? && !CanRead(s.server) && !CanRead(s.client)
  {
    QuiescentData(s);
    assert !Enabled(s, ClientWrite) && !Enabled(s, ServerRead) && !Enabled(s, ClientRead);
    assert !Enabled(s, ReachServer(|s.toServer|)) && !Enabled(s, ReachClient(|s.toClient|));
    assert !Enabled(s, Emit) && !Enabled(s, HandlerReturn);
  }

  /** A server with nothing left to do has emitted all that the bytes it was given promise. */
  lemma SettledLog(routes: Routes, s: State)
    requires RequestBytesOk(s) && LogOk(routes, s) && s.handler.None? && !CanRead(s.server)
    ensures s.log == Promised(routes, s.reachedServer)
  {
    EmptyRight(s.log);
    SettledAccepts(SERVER, s.server, s.reachedServer);
  }

  lemma QuiescentLog(routes: Routes, s: State)
    requires Quiescent(s) && DataPlane.Inv(s.data) && RequestBytesOk(s) && LogOk(routes, s)
    ensures s.log == Promised(routes, s.written)
  {
    QuiescentFacts(routes, s);
    EmptyRight(s.reachedServer);
    SettledLog(routes, s);
  }

  lemma QuiescentResponses(routes: Routes, s: State)
    requires Quiescent(s) && DataPlane.Inv(s.data) && ResponseBytesOk(s)
    ensures AllAdmissible(CLIENT, s.client.accepted)
    ensures Responses(s) == ResponsesOf(s.log)
  {
    QuiescentFacts(routes, s);
    var rs := ResponsesOf(s.log);
    ResponsePayloadsAt(rs);
    SettledAccepts(CLIENT, s.client, s.reachedClient);
    AcceptedOfFrames(CLIENT, ResponsePayloads(rs), []);
    assert s.reachedClient + [] == s.reachedClient;
    assert Frames(ResponsePayloads(rs)) + [] == Frames(ResponsePayloads(rs));
    assert ResponsePayloads(rs) + Accepted(CLIENT, []) == ResponsePayloads(rs);
    MessagesOfResponses(rs, s.client.accepted);
    assert rs[..|rs|] == rs;
  }

  lemma QuiescentComplete(routes: Routes, script: seq<seq<Byte>>, s: State)
    requires Inv(routes, script, s) && Quiescent(s)
    ensures s.written == Flatten(script) && s.log == Promised(routes, s.written)
    ensures AllAdmissible(CLIENT, s.client.accepted) && Responses(s) == ResponsesOf(s.log)
    ensures multiset(s.data.delivered) == multiset(StreamsOf(s.log))
  {
    QuiescentFacts(routes, s);
    assert script[..|script|] == script;
    QuiescentLog(routes, s);
    QuiescentResponses(routes, s);
    QuiescentData(s);
    DataPlane.Conservation(s.data);
  }

  /** Every request in the client's script has been answered, and every data stream delivered,
      exactly as dispatch says, and nothing else can happen. */
  ghost predicate Complete(routes: Routes, script: seq<seq<Byte>>, s: State) {
    && Quiescent(s)
    && s.log == Promised(routes, Flatten(script))
    && AllAdmissible(CLIENT, s.client.accepted)
    && Responses(s) == ResponsesOf(s.log)
    && multiset(s.data.delivered) == multiset(StreamsOf(s.log))
  }

  /** Main completeness theorem: a connection only stops when it is complete. */
  lemma QuiescentIsComplete(routes: Routes, script: seq<seq<Byte>>, steps: seq<Step>)
    requires Exec(routes, Init(script), steps).Some?
    requires Quiescent(Exec(routes, Init(script), steps).value)
    ensures Complete(routes, script, Exec(routes, Init(script), steps).value)
  {
    ReachableInv(routes, script, steps);
    QuiescentComplete(routes, script, Exec(routes, Init(script), steps).value);
  }

  lemma StreamsOfPrefix(a: seq<Emission>, b: seq<Emission>)
    requires a <= b
    ensures StreamsOf(a) <= StreamsOf(b)
  {
    assert b == a + b[|a|..];
    StreamsOfAppend(a, b[|a|..]);
  }

  /** A reader is attributed to the stream it reads: right id, prefix of the right source. */
  ghost predicate Attributed(streams: seq<DataPlane.Stream>, sent: seq<(U32, seq<Byte>)>) {
    && |streams| <= |sent|
    && forall i | 0 <= i < |streams| ::
         var intake := streams[i].intake;
         intake.Reading? || intake.Ended? ==> intake.id == sent[i].0 && intake.got <= sent[i].1
  }

  lemma PrefixBag<T>(a: seq<T>, b: seq<T>)
    requires a <= b
    ensures multiset(a) <= multiset(b)
  {
    assert b == a + b[|a|..];
  }

  lemma DataAttributed(s: State, sent: seq<(U32, seq<Byte>)>)
    requires DataOk(s) && StreamsOf(s.log) <= sent
    ensures Attributed(s.data.streams, sent)
    ensures multiset(s.data.delivered) <= multiset(sent)
  {
    var opened' := DataPlane.Opened(s.data.streams);
    DataPlane.Conservation(s.data);
    PrefixBag(opened', sent);
    forall i | 0 <= i < |s.data.streams|
      ensures var intake := s.data.streams[i].intake;
              intake.Reading? || intake.Ended? ==> intake.id == sent[i].0 && intake.got <= sent[i].1
    {
      DataPlane.StreamAttribution(s.data.streams[i]);
      assert opened'[i] == sent[i];
    }
  }

  /** The data plane carries what the server wrote: in every run the bytes of the i-th stream, read,
      arrived, in flight and still to be copied, are the i-th data stream of the server's log. */
  lemma StreamsCarryWires(routes: Routes, script: seq<seq<Byte>>, steps: seq<Step>)
    requires Exec(routes, Init(script), steps).Some?
    ensures var s := Exec(routes, Init(script), steps).value;
            && |s.data.streams| == |DataWires(StreamsOf(s.log))|
            && forall i | 0 <= i < |s.data.streams| ::
                 var t := s.data.streams[i];
                 DataPlane.Taken(t.intake) + t.arrived + t.inFlight + t.uncopied == DataWires(StreamsOf(s.log))[i]
  {
    var s := Exec(routes, Init(script), steps).value;
    ReachableInv(routes, script, steps);
    forall i | 0 <= i < |s.data.streams|
      ensures var t := s.data.streams[i];
              DataPlane.Taken(t.intake) + t.arrived + t.inFlight + t.uncopied == DataWires(StreamsOf(s.log))[i]
    {
      assert DataPlane.Opened(s.data.streams)[i] == StreamsOf(s.log)[i];
      assert DataPlane.StreamOk(s.data.streams[i]);
    }
  }

  /** At every earlier moment the downloads are among the data streams dispatch sends, and each
      reader holds its own stream's id and a prefix of its own stream's source. */
  lemma DownloadsRefineDispatch(routes: Routes, script: seq<seq<Byte>>, steps: seq<Step>)
    requires Exec(routes, Init(script), steps).Some?
    ensures var s := Exec(routes, Init(script), steps).value;
            var sent := StreamsOf(Promised(routes, s.written));
            multiset(s.data.delivered) <= multiset(sent) && Attributed(s.data.streams, sent)
  {
    var s := Exec(routes, Init(script), steps).value;
    ReachableInv(routes, script, steps);
    LogIsPromised(routes, s);
    PrefixTransitive(s.log, Promised(routes, s.reachedServer), Promised(routes, s.written));
    StreamsOfPrefix(s.log, Promised(routes, s.written));
    DataAttributed(s, StreamsOf(Promised(routes, s.written)));
  }
}
