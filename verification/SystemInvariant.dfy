/** Every step of a connection keeps its invariant. */
module SystemInvariant {
  import opened Results
  import opened Bytes
  import opened Protocol
  import opened Capnp
  import opened Framing
  import opened Receiving
  import opened Messages
  import opened Server
  import opened Router
  import opened ServeLoop
  import opened System
  import DataPlane

  lemma FreshFaithful<T>(ch: Channel<T>)
    ensures Faithful(ch, FRESH, [])
  {
    EmptyRight<Byte>([]);
  }

  lemma InitLog(routes: Routes, script: seq<seq<Byte>>)
    ensures LogOk(routes, Init(script))
  {
    FreshFaithful(SERVER);
    var none := MessagesOf(SERVER, []);
    assert none == [] && LogFor(routes, none) == [];
  }

  lemma InitData(script: seq<seq<Byte>>)
    ensures DataOk(Init(script))
  {
    assert DataPlane.Opened([]) == StreamsOf([]);
  }

  lemma InitBytes(script: seq<seq<Byte>>)
    ensures ScriptOk(script, Init(script)) && RequestBytesOk(Init(script)) && ResponseBytesOk(Init(script))
  {
    FreshFaithful(SERVER);
    FreshFaithful(CLIENT);
    EmptyRight<Byte>([]);
    assert script[..0] == [];
    assert ControlWire([]) == [];
  }

  lemma InitInv(routes: Routes, script: seq<seq<Byte>>)
    ensures Inv(routes, script, Init(script))
  {
    InitBytes(script);
    InitLog(routes, script);
    InitData(script);
  }

  lemma KeepsScript(routes: Routes, script: seq<seq<Byte>>, s: State, step: Step)
    requires ScriptOk(script, s) && Enabled(s, step)
    ensures ScriptOk(script, Apply(routes, s, step))
  {
    if step.ClientWrite? {
      var k := |script| - |s.script|;
      assert script[..k + 1] == script[..k] + [script[k]];
      FlattenSnoc(script[..k], script[k]);
    }
  }

  lemma KeepsRequestBytes(routes: Routes, s: State, step: Step)
    requires RequestBytesOk(s) && Enabled(s, step)
    ensures RequestBytesOk(Apply(routes, s, step))
  {
    match step {
      case ClientWrite =>
        Assoc(s.reachedServer, s.toServer, s.script[0]);
      case ReachServer(n) =>
        var moved, rest := s.toServer[..n], s.toServer[n..];
        Cut(s.toServer, n);
        Assoc(s.reachedServer, moved, rest);
        ArriveFaithful(SERVER, s.server, s.reachedServer, moved);
      case ServerRead =>
        ReadFaithful(SERVER, s.server, s.reachedServer);
      case _ =>
    }
  }

  /** A read either leaves the accepted messages alone or adds one. */
  lemma ReadAccepts<T>(ch: Channel<T>, r: Receiver)
    requires CanRead(r) && AllAdmissible(ch, r.accepted) && PhaseOk(ch, r.phase)
    ensures var after := Read(ch, r);
            || after.accepted == r.accepted
            || (exists p :: after.accepted == r.accepted + [p] && Admissible(ch, p) && after.phase.AwaitHeader?)
  {
    if r.phase.AwaitPayload? {
      var p := r.buffer[..r.phase.len];
      if ch.decode(p).Ok? {
        assert Read(ch, r).accepted == r.accepted + [p] && Admissible(ch, p);
      }
    }
  }

  lemma MessagesOfSnoc<T>(ch: Channel<T>, ps: seq<seq<Byte>>, p: seq<Byte>)
    requires AllAdmissible(ch, ps) && Admissible(ch, p)
    ensures AllAdmissible(ch, ps + [p])
    ensures MessagesOf(ch, ps + [p]) == MessagesOf(ch, ps) + [ch.decode(p).value]
  {
  }

  lemma KeepsLogOnRead(routes: Routes, s: State)
    requires RequestBytesOk(s) && LogOk(routes, s) && Enabled(s, ServerRead)
    ensures LogOk(routes, Apply(routes, s, ServerRead))
  {
    var after := Read(SERVER, s.server);
    ReadAccepts(SERVER, s.server);
    if after.accepted != s.server.accepted {
      var p :| after.accepted == s.server.accepted + [p] && Admissible(SERVER, p) && after.phase.AwaitHeader?;
      var requests := MessagesOf(SERVER, s.server.accepted);
      var request := SERVER.decode(p).value;
      MessagesOfSnoc(SERVER, s.server.accepted, p);
      LogForSnoc(routes, requests, request);
      assert Started(routes, s.server, after) == Some(Dispatch(routes, request).emissions);
      assert s.log + [] == s.log;
    }
  }

  lemma KeepsLogOnEmit(routes: Routes, s: State)
    requires LogOk(routes, s) && Enabled(s, Emit)
    ensures LogOk(routes, Apply(routes, s, Emit))
  {
    var e, rest := s.handler.value[0], s.handler.value[1..];
    assert s.handler.value == [e] + rest;
    Assoc(s.log, [e], rest);
  }

  lemma KeepsLog(routes: Routes, s: State, step: Step)
    requires RequestBytesOk(s) && LogOk(routes, s) && Enabled(s, step)
    ensures LogOk(routes, Apply(routes, s, step))
  {
    match step {
      case ServerRead => KeepsLogOnRead(routes, s);
      case Emit => KeepsLogOnEmit(routes, s);
      case _ =>
    }
  }

  lemma KeepsResponseBytes(routes: Routes, s: State, step: Step)
    requires ResponseBytesOk(s) && Enabled(s, step)
    ensures ResponseBytesOk(Apply(routes, s, step))
  {
    match step {
      case Emit =>
        var e := s.handler.value[0];
        ControlWireSnoc(s.log, e);
        Assoc(s.reachedClient, s.toClient, if e.Respond? then Frame(EncodeResponse(e.response)) else []);
      case ReachClient(n) =>
        var moved, rest := s.toClient[..n], s.toClient[n..];
        Cut(s.toClient, n);
        Assoc(s.reachedClient, moved, rest);
        ArriveFaithful(CLIENT, s.client, s.reachedClient, moved);
      case ClientRead =>
        ReadFaithful(CLIENT, s.client, s.reachedClient);
      case _ =>
    }
  }

  lemma KeepsData(routes: Routes, s: State, step: Step)
    requires DataOk(s) && Enabled(s, step)
    ensures DataOk(Apply(routes, s, step))
  {
    match step {
      case Emit =>
        var e := s.handler.value[0];
        StreamsOfSnoc(s.log, e);
        if e.Stream? {
          DataPlane.OpenInv(s.data, e.id, e.source);
        }
      case Data(d) =>
        DataPlane.StepInv(s.data, d);
      case _ =>
    }
  }

  lemma StepInv(routes: Routes, script: seq<seq<Byte>>, s: State, step: Step)
    requires Inv(routes, script, s) && Enabled(s, step)
    ensures Inv(routes, script, Apply(routes, s, step))
  {
    KeepsScript(routes, script, s, step);
    KeepsRequestBytes(routes, s, step);
    KeepsLog(routes, s, step);
    KeepsResponseBytes(routes, s, step);
    KeepsData(routes, s, step);
  }

  lemma {:induction false} ExecInv(routes: Routes, script: seq<seq<Byte>>, s: State, steps: seq<Step>)
    requires Inv(routes, script, s) && Exec(routes, s, steps).Some?
    ensures Inv(routes, script, Exec(routes, s, steps).value)
    decreases |steps|
  {
    if steps != [] {
      StepInv(routes, script, s, steps[0]);
      ExecInv(routes, script, Apply(routes, s, steps[0]), steps[1..]);
    }
  }

  /** The invariant holds in every state a connection can reach. */
  lemma ReachableInv(routes: Routes, script: seq<seq<Byte>>, steps: seq<Step>)
    requires Exec(routes, Init(script), steps).Some?
    ensures Inv(routes, script, Exec(routes, Init(script), steps).value)
  {
    InitInv(routes, script);
    ExecInv(routes, script, Init(script), steps);
  }
}
