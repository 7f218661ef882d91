/**
 One connection as a distributed step system: a client that writes any byte strings to its control
 stream, a network that delivers any number of bytes at a time, a server that receives, dispatches
 and emits, the way back to the client, and the data streams. Any enabled step may come next.
 */
module System {
  import opened Results
  import opened Bytes
  import opened Protocol
  import opened Capnp
  import opened Framing
  import opened Receiving
  import opened Messages
  import opened Server
  import opened Router
  import opened ServeLoop
  import DataPlane

  datatype State = State(
    script: seq<seq<Byte>>,          // writes the client has still to make
    written: seq<Byte>,              // all bytes the client has written
    toServer: seq<Byte>,             // of those, in flight
    reachedServer: seq<Byte>,        // of those, delivered
    server: Receiver,
    handler: Option<seq<Emission>>,  // what the running handler has still to emit
    log: seq<Emission>,              // what handlers have emitted
    toClient: seq<Byte>,
    reachedClient: seq<Byte>,
    client: Receiver,
    data: DataPlane.State)

  datatype Step =
    | ClientWrite
    | ReachServer(n: nat)
    | ServerRead
    | Emit
    | HandlerReturn
    | ReachClient(n: nat)
    | ClientRead
    | Data(step: DataPlane.Step)

  function Init(script: seq<seq<Byte>>): State {
    State(script, [], [], [], FRESH, None, [], [], [], FRESH, DataPlane.EMPTY)
  }

  /** A handler awaits each data stream it sends, so nothing else is emitted while one is open. */
  predicate AllFinished(d: DataPlane.State) {
    forall i | 0 <= i < |d.streams| :: d.streams[i].finished
  }

  predicate Enabled(s: State, step: Step) {
    match step
    case ClientWrite => s.script != []
    case ReachServer(n) => 0 < n <= |s.toServer|
    case ServerRead => s.handler.None? && CanRead(s.server)
    case Emit => s.handler.Some? && s.handler.value != [] && AllFinished(s.data)
    case HandlerReturn => s.handler == Some([]) && AllFinished(s.data)
    case ReachClient(n) => 0 < n <= |s.toClient|
    case ClientRead => CanRead(s.client)
    case Data(d) => DataPlane.Enabled(s.data, d)
  }

  /** The handler started by a server read: none unless the read completed a request. */
  function Started(routes: Routes, before: Receiver, after: Receiver): Option<seq<Emission>> {
    if |after.accepted| <= |before.accepted| then None
    else
      match SERVER.decode(after.accepted[|after.accepted| - 1])
      case Ok(request) => Some(Dispatch(routes, request).emissions)
      case Err(_) => None
  }

  function EmitOne(s: State): State
    requires Enabled(s, Emit)
  {
    var e := s.handler.value[0];
    s.(handler := Some(s.handler.value[1..]),
       log := s.log + [e],
       toClient := s.toClient + (if e.Respond? then Frame(EncodeResponse(e.response)) else []),
       data := if e.Stream? then DataPlane.Open(s.data, e.id, e.source) else s.data)
  }

  function Apply(routes: Routes, s: State, step: Step): State
    requires Enabled(s, step)
  {
    match step
    case ClientWrite =>
      s.(script := s.script[1..], written := s.written + s.script[0], toServer := s.toServer + s.script[0])
    case ReachServer(n) =>
      s.(toServer := s.toServer[n..],
         reachedServer := s.reachedServer + s.toServer[..n],
         server := s.server.(buffer := s.server.buffer + s.toServer[..n]))
    case ServerRead =>
      var after := Read(SERVER, s.server);
      s.(server := after, handler := Started(routes, s.server, after))
    case Emit => EmitOne(s)
    case HandlerReturn => s.(handler := None)
    case ReachClient(n) =>
      s.(toClient := s.toClient[n..],
         reachedClient := s.reachedClient + s.toClient[..n],
         client := s.client.(buffer := s.client.buffer + s.toClient[..n]))
    case ClientRead => s.(client := Read(CLIENT, s.client))
    case Data(d) => s.(data := DataPlane.Apply(s.data, d))
  }

  /** Runs some steps; None when one of them is not enabled. */
  function Exec(routes: Routes, s: State, steps: seq<Step>): Option<State>
    decreases |steps|
  {
    if steps == [] then Some(s)
    else if Enabled(s, steps[0]) then Exec(routes, Apply(routes, s, steps[0]), steps[1..])
    else None
  }

  ghost predicate Quiescent(s: State) {
    forall step :: !Enabled(s, step)
  }

  // ---------- the invariant ----------

  ghost predicate ScriptOk(script: seq<seq<Byte>>, s: State) {
    && |s.script| <= |script|
    && s.script == script[|script| - |s.script|..]
    && s.written == Flatten(script[..|script| - |s.script|])
  }

  ghost predicate RequestBytesOk(s: State) {
    s.written == s.reachedServer + s.toServer && Faithful(SERVER, s.server, s.reachedServer)
  }

  function Unemitted(s: State): seq<Emission> {
    if s.handler.Some? then s.handler.value else []
  }

  ghost predicate LogOk(routes: Routes, s: State) {
    && AllAdmissible(SERVER, s.server.accepted)
    && s.log + Unemitted(s) == LogFor(routes, MessagesOf(SERVER, s.server.accepted))
    && (s.handler.Some? ==> s.server.phase.AwaitHeader?)
  }

  ghost predicate ResponseBytesOk(s: State) {
    ControlWire(s.log) == s.reachedClient + s.toClient && Faithful(CLIENT, s.client, s.reachedClient)
  }

  ghost predicate DataOk(s: State) {
    DataPlane.Inv(s.data) && DataPlane.Opened(s.data.streams) == StreamsOf(s.log)
  }

  ghost predicate Inv(routes: Routes, script: seq<seq<Byte>>, s: State) {
    && ScriptOk(script, s)
    && RequestBytesOk(s)
    && LogOk(routes, s)
    && ResponseBytesOk(s)
    && DataOk(s)
  }
}
