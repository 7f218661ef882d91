/** The file-transfer example: a handler that responds and then streams, and the client driving it. */
module FileTransfer {
  import opened Results
  import opened Bytes
  import opened Protocol
  import opened Capnp
  import opened Framing
  import opened Messages
  import opened Transport
  import opened Server
  import opened Client

  /** Responds Success, then streams the file under the same id. */
  function HandleFetch(file: seq<Byte>): Handler {
    (req: Request) => Outcome([Respond(Response(req.id, Success)), Stream(req.id, file)], true)
  }

  method RunFetch(req: Request, conn: ServerConnection, file: seq<Byte>) returns (ok: bool)
    requires conn.Valid()
    modifies conn.controlSend, conn`dataSent, conn`log
    ensures conn.Valid() && ok
    ensures conn.log == old(conn.log) + [Respond(Response(req.id, Success)), Stream(req.id, file)]
    ensures HandleFetch(file)(req) == Outcome([Respond(Response(req.id, Success)), Stream(req.id, file)], ok)
  {
    conn.SendResponse(req.id, Success);
    var dummyFile := new Source(file);
    conn.SendData(req.id, dummyFile);
    ok := true;
  }

  /** Requests a file; on Success reads the data stream, insists on its id, and downloads the rest. */
  method Fetch(client: ClientConnection, id: U32, uri: Uri, layout: Layout, incoming: RecvStream)
    returns (downloaded: Option<seq<Byte>>)
    requires client.Valid() && |uri| <= MAX_URI
    requires client.controlRecv != incoming
    modifies client.controlSend, client`writes, client.controlRecv, incoming
    ensures client.Valid() && client.writes == old(client.writes) + [Write(Request(id, Action.Fetch, uri), layout)]
    ensures var answer := Receive(CLIENT, old(client.controlRecv.Pending()));
            && client.controlRecv.Pending() == answer.rest
            && forall file: seq<Byte> ::
                 downloaded == Some(file) <==>
                 && answer.result.Ok? && answer.result.value.status == Success
                 && old(incoming.Pending()) == DataWire(id, file)
  {
    ghost var wire := incoming.Pending();
    client.SendRequest(id, Action.Fetch, uri, layout);
    var response := client.ReceiveResponse();
    downloaded := None;
    if response.Ok? && response.value.status == Success {
      var ok, streamId := ReadDataStream(incoming);
      if ok {
        var data := CopyToEnd(incoming);
        forall file: seq<Byte> ensures wire == DataWire(id, file) <==> streamId == id && file == data {
          if wire == DataWire(id, file) {
            DataStreamRoundTrip(streamId, data, id, file);
          }
        }
        if streamId == id {
          downloaded := Some(data);
        }
      } else {
        assert forall file: seq<Byte> :: |DataWire(id, file)| >= 4;
      }
    }
  }
}
