/**
 Which runs exist. No party waits for another: each moves as soon as its own input is there, by any
 amount. Together with the safety theorems this gives exactly the views of a connection that occur.
 */
module Freedom {
  import opened Results
  import opened Bytes
  import opened Protocol
  import opened Capnp
  import opened Framing
  import opened Receiving
  import opened Server
  import opened Router
  import opened System
  import opened SystemInvariant
  import opened Refinement
  import opened Progress
  import DataPlane

  lemma OneStep(routes: Routes, s: State, step: Step)
    requires Enabled(s, step)
    ensures Exec(routes, s, [step]) == Some(Apply(routes, s, step))
  {
    var after := Apply(routes, s, step);
    assert [step][1..] == [];
    assert Exec(routes, after, []) == Some(after);
  }

  lemma StepThen(routes: Routes, s: State, step: Step, steps: seq<Step>)
    requires Enabled(s, step)
    ensures Exec(routes, s, [step] + steps) == Exec(routes, Apply(routes, s, step), steps)
  {
    OneStep(routes, s, step);
    ExecAppend(routes, s, [step], steps);
  }

  // ---------- the client writes whenever it likes ----------

  function Wrote(s: State, k: nat): State
    requires k <= |s.script|
  {
    s.(script := s.script[k..],
       written := s.written + Flatten(s.script[..k]),
       toServer := s.toServer + Flatten(s.script[..k]))
  }

  lemma WroteFirst(routes: Routes, s: State, k: nat)
    requires 0 < k <= |s.script|
    ensures Enabled(s, ClientWrite)
    ensures Wrote(s, k) == Wrote(Apply(routes, s, ClientWrite), k - 1)
  {
    assert s.script[..k][1..] == s.script[1..][..k - 1];
    Assoc(s.written, s.script[0], Flatten(s.script[1..][..k - 1]));
    Assoc(s.toServer, s.script[0], Flatten(s.script[1..][..k - 1]));
  }

  /** In every state, whatever is outstanding, the next k writes can follow one another directly. */
  lemma {:induction false} WritesAnytime(routes: Routes, s: State, k: nat) returns (steps: seq<Step>)
    requires k <= |s.script|
    ensures Exec(routes, s, steps) == Some(Wrote(s, k))
    decreases k
  {
    if k == 0 {
      steps := [];
      EmptyRight(s.written);
      EmptyRight(s.toServer);
    } else {
      WroteFirst(routes, s, k);
      var rest := WritesAnytime(routes, Apply(routes, s, ClientWrite), k - 1);
      StepThen(routes, s, ClientWrite, rest);
      steps := [ClientWrite] + rest;
    }
  }

  /** A client can make any number of its writes before anything of them arrives anywhere. */
  lemma ClientNeverWaits(routes: Routes, script: seq<seq<Byte>>, k: nat) returns (steps: seq<Step>)
    requires k <= |script|
    ensures Exec(routes, Init(script), steps).Some?
    ensures var s := Exec(routes, Init(script), steps).value;
            && s.written == Flatten(script[..k]) && s.script == script[k..]
            && s.reachedServer == [] && s.log == [] && s.reachedClient == []
  {
    steps := WritesAnytime(routes, Init(script), k);
  }

  // ---------- the network delivers any pieces ----------

  /** The growth of an observed byte string along a run, step by step. */
  function Growth(observe: State -> seq<Byte>, routes: Routes, s: State, steps: seq<Step>): seq<seq<Byte>>
    requires Exec(routes, s, steps).Some?
    decreases |steps|
  {
    if steps == [] then []
    else
      var next := Apply(routes, s, steps[0]);
      (if |observe(s)| < |observe(next)| then [observe(next)[|observe(s)|..]] else [])
      + Growth(observe, routes, next, steps[1..])
  }

  const AtServer: State -> seq<Byte> := (s: State) => s.reachedServer

  const AtClient: State -> seq<Byte> := (s: State) => s.reachedClient

  function ReachedServer(s: State, bytes: seq<Byte>): State
    requires bytes <= s.toServer
  {
    s.(toServer := s.toServer[|bytes|..],
       reachedServer := s.reachedServer + bytes,
       server := s.server.(buffer := s.server.buffer + bytes))
  }

  function ReachedClient(s: State, bytes: seq<Byte>): State
    requires bytes <= s.toClient
  {
    s.(toClient := s.toClient[|bytes|..],
       reachedClient := s.reachedClient + bytes,
       client := s.client.(buffer := s.client.buffer + bytes))
  }

  predicate NoneEmpty(chunks: seq<seq<Byte>>) {
    forall i | 0 <= i < |chunks| :: chunks[i] != []
  }

  lemma DropTwice(all: seq<Byte>, a: seq<Byte>, b: seq<Byte>)
    requires a + b <= all
    ensures a <= all && b <= all[|a|..] && all[|a|..][|b|..] == all[|a + b|..]
    ensures all[..|a|] == a
  {
    var rest := all[|a + b|..];
    assert all == a + b + rest;
    Assoc(a, b, rest);
    assert all[|a|..] == b + rest;
  }

  lemma ServerTwice(s: State, a: seq<Byte>, b: seq<Byte>)
    requires a + b <= s.toServer
    ensures a <= s.toServer && b <= ReachedServer(s, a).toServer
    ensures ReachedServer(s, a + b) == ReachedServer(ReachedServer(s, a), b)
  {
    DropTwice(s.toServer, a, b);
    Assoc(s.reachedServer, a, b);
    Assoc(s.server.buffer, a, b);
  }

  lemma ClientTwice(s: State, a: seq<Byte>, b: seq<Byte>)
    requires a + b <= s.toClient
    ensures a <= s.toClient && b <= ReachedClient(s, a).toClient
    ensures ReachedClient(s, a + b) == ReachedClient(ReachedClient(s, a), b)
  {
    DropTwice(s.toClient, a, b);
    Assoc(s.reachedClient, a, b);
    Assoc(s.client.buffer, a, b);
  }

  lemma ServerPiece(routes: Routes, s: State, bytes: seq<Byte>)
    requires bytes != [] && bytes <= s.toServer
    ensures Enabled(s, ReachServer(|bytes|))
    ensures Apply(routes, s, ReachServer(|bytes|)) == ReachedServer(s, bytes)
  {
    assert s.toServer[..|bytes|] == bytes;
  }

  lemma ClientPiece(routes: Routes, s: State, bytes: seq<Byte>)
    requires bytes != [] && bytes <= s.toClient
    ensures Enabled(s, ReachClient(|bytes|))
    ensures Apply(routes, s, ReachClient(|bytes|)) == ReachedClient(s, bytes)
  {
    assert s.toClient[..|bytes|] == bytes;
  }

  lemma GrowthFirst(observe: State -> seq<Byte>, routes: Routes, s: State, step: Step, steps: seq<Step>)
    requires Enabled(s, step) && Exec(routes, Apply(routes, s, step), steps).Some?
    ensures Exec(routes, s, [step] + steps).Some?
    ensures var next := Apply(routes, s, step);
            Growth(observe, routes, s, [step] + steps) ==
            (if |observe(s)| < |observe(next)| then [observe(next)[|observe(s)|..]] else [])
            + Growth(observe, routes, next, steps)
  {
    StepThen(routes, s, step, steps);
    assert ([step] + steps)[1..] == steps;
  }

  /** In every state the bytes in flight to the server can arrive in any pieces. */
  lemma {:induction false} PiecesReachServer(routes: Routes, s: State, chunks: seq<seq<Byte>>)
    returns (steps: seq<Step>)
    requires NoneEmpty(chunks) && Flatten(chunks) <= s.toServer
    ensures Exec(routes, s, steps) == Some(ReachedServer(s, Flatten(chunks)))
    ensures Growth(AtServer, routes, s, steps) == chunks
    decreases |chunks|
  {
    if chunks == [] {
      steps := [];
      EmptyRight(s.reachedServer);
      EmptyRight(s.server.buffer);
    } else {
      var step := ReachServer(|chunks[0]|);
      ServerTwice(s, chunks[0], Flatten(chunks[1..]));
      ServerPiece(routes, s, chunks[0]);
      var next := ReachedServer(s, chunks[0]);
      var rest := PiecesReachServer(routes, next, chunks[1..]);
      GrowthFirst(AtServer, routes, s, step, rest);
      StepThen(routes, s, step, rest);
      assert next.reachedServer[|s.reachedServer|..] == chunks[0];
      steps := [step] + rest;
    }
  }

  /** And the bytes in flight to the client. */
  lemma {:induction false} PiecesReachClient(routes: Routes, s: State, chunks: seq<seq<Byte>>)
    returns (steps: seq<Step>)
    requires NoneEmpty(chunks) && Flatten(chunks) <= s.toClient
    ensures Exec(routes, s, steps) == Some(ReachedClient(s, Flatten(chunks)))
    ensures Growth(AtClient, routes, s, steps) == chunks
    decreases |chunks|
  {
    if chunks == [] {
      steps := [];
      EmptyRight(s.reachedClient);
      EmptyRight(s.client.buffer);
    } else {
      var step := ReachClient(|chunks[0]|);
      ClientTwice(s, chunks[0], Flatten(chunks[1..]));
      ClientPiece(routes, s, chunks[0]);
      var next := ReachedClient(s, chunks[0]);
      var rest := PiecesReachClient(routes, next, chunks[1..]);
      GrowthFirst(AtClient, routes, s, step, rest);
      StepThen(routes, s, step, rest);
      assert next.reachedClient[|s.reachedClient|..] == chunks[0];
      steps := [step] + rest;
    }
  }

  // ---------- the ends read, and the handler emits, as soon as they can ----------

  /** A server between two handlers takes a header that is there, whatever else is outstanding. */
  lemma ServerReadsHeader(routes: Routes, s: State, len: U32, rest: seq<Byte>) returns (steps: seq<Step>)
    requires s.handler.None? && s.server.phase.AwaitHeader? && s.server.buffer == Octets(len) + rest
    ensures var phase := if len > 1_048_576 then TooLong(len) else AwaitPayload(len);
            Exec(routes, s, steps) == Some(s.(server := Receiver(phase, rest, s.server.accepted)))
  {
    LE32Octets(len);
    LE32Prefix(len, rest);
    OneStep(routes, s, ServerRead);
    steps := [ServerRead];
  }

  /** And a payload that is there, which starts the handler of its request. */
  lemma ServerReadsPayload(routes: Routes, s: State, p: seq<Byte>, rest: seq<Byte>) returns (steps: seq<Step>)
    requires s.handler.None? && |p| < U32_SIZE
    requires s.server.phase == AwaitPayload(|p|) && s.server.buffer == p + rest
    ensures Exec(routes, s, steps) == Some(
              match DecodeRequest(p)
              case Ok(request) =>
                s.(server := Receiver(AwaitHeader, rest, s.server.accepted + [p]),
                   handler := Some(Dispatch(routes, request).emissions))
              case Err(_) => s.(server := Receiver(Undecodable(p), rest, s.server.accepted)))
  {
    assert s.server.buffer[..|p|] == p && s.server.buffer[|p|..] == rest;
    assert SERVER.decode(p) == DecodeRequest(p);
    OneStep(routes, s, ServerRead);
    steps := [ServerRead];
  }

  lemma ClientReadsHeader(routes: Routes, s: State, len: U32, rest: seq<Byte>) returns (steps: seq<Step>)
    requires s.client.phase.AwaitHeader? && s.client.buffer == Octets(len) + rest
    ensures Exec(routes, s, steps) == Some(s.(client := Receiver(AwaitPayload(len), rest, s.client.accepted)))
  {
    LE32Octets(len);
    LE32Prefix(len, rest);
    OneStep(routes, s, ClientRead);
    steps := [ClientRead];
  }

  lemma ClientReadsPayload(routes: Routes, s: State, p: seq<Byte>, rest: seq<Byte>) returns (steps: seq<Step>)
    requires |p| < U32_SIZE && s.client.phase == AwaitPayload(|p|) && s.client.buffer == p + rest
    ensures Exec(routes, s, steps) == Some(s.(client :=
              match DecodeResponse(p)
              case Ok(_) => Receiver(AwaitHeader, rest, s.client.accepted + [p])
              case Err(_) => Receiver(Undecodable(p), rest, s.client.accepted)))
  {
    assert s.client.buffer[..|p|] == p && s.client.buffer[|p|..] == rest;
    assert CLIENT.decode(p) == DecodeResponse(p);
    OneStep(routes, s, ClientRead);
    steps := [ClientRead];
  }

  /** A server between two handlers takes a frame that is there, whatever else is outstanding, and
      starts the handler of its request. */
  lemma ServerTakesFrame(routes: Routes, s: State, p: seq<Byte>, rest: seq<Byte>) returns (steps: seq<Step>)
    requires s.handler.None? && s.server.phase.AwaitHeader? && |p| < U32_SIZE
    requires s.server.buffer == Octets(|p|) + (p + rest)
    ensures Exec(routes, s, steps) == Some(
              if |p| > 1_048_576 then s.(server := Receiver(TooLong(|p|), p + rest, s.server.accepted))
              else
                match DecodeRequest(p)
                case Ok(request) =>
                  s.(server := Receiver(AwaitHeader, rest, s.server.accepted + [p]),
                     handler := Some(Dispatch(routes, request).emissions))
                case Err(_) => s.(server := Receiver(Undecodable(p), rest, s.server.accepted)))
  {
    steps := ServerReadsHeader(routes, s, |p|, p + rest);
    if |p| <= 1_048_576 {
      var header := Exec(routes, s, steps).value;
      var payload := ServerReadsPayload(routes, header, p, rest);
      ExecAppend(routes, s, steps, payload);
      steps := steps + payload;
    }
  }

  /** A client takes a frame that is there, of any length. */
  lemma ClientTakesFrame(routes: Routes, s: State, p: seq<Byte>, rest: seq<Byte>) returns (steps: seq<Step>)
    requires s.client.phase.AwaitHeader? && |p| < U32_SIZE && s.client.buffer == Octets(|p|) + (p + rest)
    ensures Exec(routes, s, steps) == Some(s.(client :=
              match DecodeResponse(p)
              case Ok(_) => Receiver(AwaitHeader, rest, s.client.accepted + [p])
              case Err(_) => Receiver(Undecodable(p), rest, s.client.accepted)))
  {
    var header := ClientReadsHeader(routes, s, |p|, p + rest);
    var payload := ClientReadsPayload(routes, Exec(routes, s, header).value, p, rest);
    ExecAppend(routes, s, header, payload);
    steps := header + payload;
  }

  /** A handler waits for the data stream it is sending and for nothing else. */
  lemma HandlerResponds(routes: Routes, s: State, response: Response, rest: seq<Emission>) returns (steps: seq<Step>)
    requires s.handler == Some([Respond(response)] + rest)
    requires forall i | 0 <= i < |s.data.streams| :: s.data.streams[i].finished
    ensures Exec(routes, s, steps) == Some(s.(
              handler := Some(rest),
              log := s.log + [Respond(response)],
              toClient := s.toClient + Frame(EncodeResponse(response))))
  {
    OneStep(routes, s, Emit);
    steps := [Emit];
  }

  lemma HandlerStreams(routes: Routes, s: State, id: U32, source: seq<Byte>, rest: seq<Emission>)
    returns (steps: seq<Step>)
    requires s.handler == Some([Stream(id, source)] + rest)
    requires forall i | 0 <= i < |s.data.streams| :: s.data.streams[i].finished
    ensures Exec(routes, s, steps) == Some(s.(
              handler := Some(rest),
              log := s.log + [Stream(id, source)],
              data := s.data.(streams := s.data.streams
                + [DataPlane.Stream(id, source, source, false, Octets(id), [], DataPlane.Unaccepted)])))
  {
    LE32Octets(id);
    EmptyRight(s.toClient);
    OneStep(routes, s, Emit);
    steps := [Emit];
  }

  lemma HandlerReturns(routes: Routes, s: State) returns (steps: seq<Step>)
    requires s.handler == Some([]) && forall i | 0 <= i < |s.data.streams| :: s.data.streams[i].finished
    ensures Exec(routes, s, steps) == Some(s.(handler := None))
  {
    OneStep(routes, s, HandlerReturn);
    steps := [HandlerReturn];
  }

  predicate Unread(data: DataPlane.State) {
    forall i | 0 <= i < |data.streams| :: data.streams[i].intake.Unaccepted?
  }

  /** Nothing but the server and the sending of data streams has moved. */
  predicate SameElsewhere(s: State, t: State) {
    && t.script == s.script && t.written == s.written && t.toServer == s.toServer
    && t.reachedServer == s.reachedServer && t.reachedClient == s.reachedClient && t.client == s.client
    && t.data.delivered == s.data.delivered && (Unread(s.data) ==> Unread(t.data))
  }

  /** The next step of sending a stream that is not finished. */
  function SendingStep(t: DataPlane.Stream, i: nat): DataPlane.Step {
    if t.uncopied != [] then DataPlane.Copy(i, |t.uncopied|) else DataPlane.Finish(i)
  }

  lemma Sending(routes: Routes, s: State) returns (step: Step)
    requires !AllFinished(s.data)
    ensures Enabled(s, step) && SameElsewhere(s, Apply(routes, s, step))
    ensures var after := Apply(routes, s, step);
            && after.log == s.log && after.toClient == s.toClient
            && after.handler == s.handler && after.server == s.server
  {
    var i :| 0 <= i < |s.data.streams| && !s.data.streams[i].finished;
    step := Data(SendingStep(s.data.streams[i], i));
  }

  lemma ControlWireCons(e: Emission, rest: seq<Emission>)
    ensures ControlWire([e] + rest)
         == (if e.Respond? then Frame(EncodeResponse(e.response)) else []) + ControlWire(rest)
  {
    assert ([e] + rest)[1..] == rest;
    if e.Respond? {
      assert ResponsesOf([e] + rest)[1..] == ResponsesOf(rest);
    } else {
      EmptyLeft(ControlWire(rest));
      EmptyLeft(ResponsesOf(rest));
    }
  }

  lemma EmitsOne(routes: Routes, s: State)
    requires s.handler.Some? && s.handler.value != [] && AllFinished(s.data)
    ensures Enabled(s, Emit) && SameElsewhere(s, Apply(routes, s, Emit))
    ensures var next := Apply(routes, s, Emit);
            && next.handler.Some? && next.server == s.server
            && next.log + next.handler.value == s.log + s.handler.value
            && next.toClient + ControlWire(next.handler.value) == s.toClient + ControlWire(s.handler.value)
  {
    var e, rest := s.handler.value[0], s.handler.value[1..];
    assert s.handler.value == [e] + rest;
    Assoc(s.log, [e], rest);
    ControlWireCons(e, rest);
    Assoc(s.toClient, if e.Respond? then Frame(EncodeResponse(e.response)) else [], ControlWire(rest));
  }

  /** In every state a running handler can go through all its emissions and return while nothing of
      them is read: no answer waits for the client, and no data stream for its reader. */
  lemma {:induction false} HandlerRuns(routes: Routes, s: State, rank: Rank) returns (steps: seq<Step>)
    requires s.handler.Some? && rank == Measure(s)
    ensures Exec(routes, s, steps).Some?
    ensures var t := Exec(routes, s, steps).value;
            && SameElsewhere(s, t) && t.server == s.server && t.handler.None? && AllFinished(t.data)
            && t.log == s.log + s.handler.value
            && t.toClient == s.toClient + ControlWire(s.handler.value)
    decreases rank.script, rank.toServer, rank.serverBuffer, rank.serverPhase, rank.handler,
              rank.data, rank.toClient, rank.clientBuffer, rank.clientPhase
  {
    if s.handler == Some([]) && AllFinished(s.data) {
      EmptyRight(s.log);
      EmptyRight(s.toClient);
      OneStep(routes, s, HandlerReturn);
      steps := [HandlerReturn];
    } else {
      var step := Emit;
      if AllFinished(s.data) {
        EmitsOne(routes, s);
      } else {
        step := Sending(routes, s);
      }
      var next := Apply(routes, s, step);
      StepDecreases(routes, s, step);
      var rest := HandlerRuns(routes, next, Measure(next));
      StepThen(routes, s, step, rest);
      steps := [step] + rest;
    }
  }

  // ---------- every data stream moves on its own ----------

  /** The state after one stream has moved. */
  function WithStream(s: State, i: nat, t: DataPlane.Stream): State
    requires i < |s.data.streams|
  {
    s.(data := s.data.(streams := s.data.streams[i := t]))
  }

  lemma CopiesAnytime(routes: Routes, s: State, i: nat, bytes: seq<Byte>) returns (steps: seq<Step>)
    requires i < |s.data.streams| && bytes != [] && bytes <= s.data.streams[i].uncopied
    ensures var t := s.data.streams[i];
            Exec(routes, s, steps) ==
            Some(WithStream(s, i, t.(uncopied := t.uncopied[|bytes|..], inFlight := t.inFlight + bytes)))
  {
    assert s.data.streams[i].uncopied[..|bytes|] == bytes;
    steps := [Data(DataPlane.Copy(i, |bytes|))];
    OneStep(routes, s, steps[0]);
  }

  lemma FinishesAnytime(routes: Routes, s: State, i: nat) returns (steps: seq<Step>)
    requires i < |s.data.streams| && s.data.streams[i].uncopied == [] && !s.data.streams[i].finished
    ensures Exec(routes, s, steps) == Some(WithStream(s, i, s.data.streams[i].(finished := true)))
  {
    steps := [Data(DataPlane.Finish(i))];
    OneStep(routes, s, steps[0]);
  }

  lemma DeliversAnytime(routes: Routes, s: State, i: nat, bytes: seq<Byte>) returns (steps: seq<Step>)
    requires i < |s.data.streams| && bytes != [] && bytes <= s.data.streams[i].inFlight
    ensures var t := s.data.streams[i];
            Exec(routes, s, steps) ==
            Some(WithStream(s, i, t.(inFlight := t.inFlight[|bytes|..], arrived := t.arrived + bytes)))
  {
    assert s.data.streams[i].inFlight[..|bytes|] == bytes;
    steps := [Data(DataPlane.Deliver(i, |bytes|))];
    OneStep(routes, s, steps[0]);
  }

  lemma AcceptsAnytime(routes: Routes, s: State, i: nat) returns (steps: seq<Step>)
    requires i < |s.data.streams| && s.data.streams[i].intake.Unaccepted?
    ensures Exec(routes, s, steps) == Some(WithStream(s, i, s.data.streams[i].(intake := DataPlane.Preamble)))
  {
    steps := [Data(DataPlane.Accept(i))];
    OneStep(routes, s, steps[0]);
  }

  lemma ReadsPreambleAnytime(routes: Routes, s: State, i: nat, id: U32, rest: seq<Byte>) returns (steps: seq<Step>)
    requires i < |s.data.streams| && s.data.streams[i].intake.Preamble?
    requires s.data.streams[i].arrived == Octets(id) + rest
    ensures Exec(routes, s, steps) ==
            Some(WithStream(s, i, s.data.streams[i].(arrived := rest, intake := DataPlane.Reading(id, []))))
  {
    LE32Octets(id);
    LE32Prefix(id, rest);
    steps := [Data(DataPlane.ReadPreamble(i))];
    OneStep(routes, s, steps[0]);
  }

  lemma ReadsAnytime(routes: Routes, s: State, i: nat, bytes: seq<Byte>) returns (steps: seq<Step>)
    requires i < |s.data.streams| && s.data.streams[i].intake.Reading?
    requires bytes != [] && bytes <= s.data.streams[i].arrived
    ensures var t := s.data.streams[i];
            Exec(routes, s, steps) ==
            Some(WithStream(s, i, t.(arrived := t.arrived[|bytes|..],
                                     intake := DataPlane.Reading(t.intake.id, t.intake.got + bytes))))
  {
    assert s.data.streams[i].arrived[..|bytes|] == bytes;
    steps := [Data(DataPlane.ReadChunk(i, |bytes|))];
    OneStep(routes, s, steps[0]);
  }

  lemma EndsAnytime(routes: Routes, s: State, i: nat) returns (steps: seq<Step>)
    requires i < |s.data.streams| && s.data.streams[i].intake.Reading? && s.data.streams[i].finished
    requires s.data.streams[i].inFlight == [] && s.data.streams[i].arrived == []
    ensures var t := s.data.streams[i];
            var after := WithStream(s, i, t.(intake := DataPlane.Ended(t.intake.id, t.intake.got)));
            Exec(routes, s, steps) ==
            Some(after.(data := after.data.(delivered := s.data.delivered + [(t.intake.id, t.intake.got)])))
  {
    steps := [Data(DataPlane.ReadEnd(i))];
    OneStep(routes, s, steps[0]);
  }
}
