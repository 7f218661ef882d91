/** The server's end of a connection. */
module Server {
  import opened Results
  import opened Bytes
  import opened Protocol
  import opened Capnp
  import opened MessageBuilder
  import opened Framing
  import opened Messages
  import opened Transport

  /** Bytes on the control stream after some emissions. */
  function ControlWire(log: seq<Emission>): seq<Byte> {
    Frames(ResponsePayloads(ResponsesOf(log)))
  }

  function DataWires(streams: seq<(U32, seq<Byte>)>): seq<seq<Byte>> {
    seq(|streams|, i requires 0 <= i < |streams| => DataWire(streams[i].0, streams[i].1))
  }

  lemma ControlWireSnoc(log: seq<Emission>, e: Emission)
    ensures ControlWire(log + [e]) == ControlWire(log) + if e.Respond? then Frame(EncodeResponse(e.response)) else []
  {
    ResponsesOfAppend(log, [e]);
    assert ResponsesOf([e]) == if e.Respond? then [e.response] else [];
    if e.Respond? {
      var rs := ResponsesOf(log);
      ResponsePayloadsAppend(rs, [e.response]);
      assert ResponsePayloads([e.response]) == [EncodeResponse(e.response)];
      FramesSnoc(ResponsePayloads(rs), EncodeResponse(e.response));
    } else {
      assert ResponsesOf(log) + [] == ResponsesOf(log);
    }
  }

  lemma StreamsOfSnoc(log: seq<Emission>, e: Emission)
    ensures StreamsOf(log + [e]) == StreamsOf(log) + if e.Stream? then [(e.id, e.source)] else []
  {
    StreamsOfAppend(log, [e]);
    assert StreamsOf([e]) == if e.Stream? then [(e.id, e.source)] else [];
  }

  /** The j-th emission, a stream, is the data stream at its place among the streams, and whoever reads an
      id and a payload off those bytes has that stream's id and that stream's source. */
  lemma SentStream(log: seq<Emission>, j: nat, gotId: U32, got: seq<Byte>)
    requires j < |log| && log[j].Stream?
    ensures var i := |StreamsOf(log[..j])|;
            && i < |DataWires(StreamsOf(log))|
            && DataWires(StreamsOf(log))[i] == Octets(log[j].id) + log[j].source
            && (DataWires(StreamsOf(log))[i] == DataWire(gotId, got) ==> gotId == log[j].id && got == log[j].source)
  {
    EmissionPlace(log, j);
    LE32Octets(log[j].id);
    if DataWire(log[j].id, log[j].source) == DataWire(gotId, got) {
      DataStreamRoundTrip(log[j].id, log[j].source, gotId, got);
    }
  }

  class ServerConnection {
    const controlSend: SendStream
    const controlRecv: RecvStream
    /** Contents of the data streams opened and finished so far. */
    var dataSent: seq<seq<Byte>>
    /** Everything emitted on this connection, in order. */
    ghost var log: seq<Emission>

    ghost predicate Valid()
      reads this, controlSend
    {
      && !controlSend.finished
      && controlSend.sent == ControlWire(log)
      && dataSent == DataWires(StreamsOf(log))
    }

    constructor (controlRecv: RecvStream)
      ensures Valid() && this.controlRecv == controlRecv && log == []
      ensures fresh(controlSend)
    {
      this.controlRecv := controlRecv;
      controlSend := new SendStream();
      dataSent, log := [], [];
    }

    method ReceiveRequest() returns (result: Result<Request, ReceiveError>)
      modifies controlRecv
      ensures Received(result, controlRecv.Pending()) == Receive(SERVER, old(controlRecv.Pending()))
    {
      ghost var input := controlRecv.Pending();
      var lenBuf := new Byte[4];
      var ok := controlRecv.ReadExact(lenBuf);
      if !ok {
        return Err(EndOfStream);
      }
      var len: nat := FromLE32(lenBuf[..]);
      if len > MAX_CONTROL_MSG {
        return Err(TooLarge(len));
      }
      var msgBuf := new Byte[len];
      ok := controlRecv.ReadExact(msgBuf);
      if !ok {
        return Err(EndOfStream);
      }
      assert msgBuf[..] == input[4..4 + len];
      return Malformation(DecodeRequest(msgBuf[..]));
    }

    method SendResponse(id: U32, status: Status)
      requires Valid()
      modifies controlSend, this`log
      ensures Valid() && log == old(log) + [Respond(Response(id, status))]
      ensures controlSend.sent == old(controlSend.sent) + Frame(EncodeResponse(Response(id, status)))
      ensures dataSent == old(dataSent)
    {
      var message := BuildResponse(Response(id, status));
      var outBuf := FrameInPlace(message);
      controlSend.WriteAll(outBuf);
      ControlWireSnoc(log, Respond(Response(id, status)));
      StreamsOfSnoc(log, Respond(Response(id, status)));
      log := log + [Respond(Response(id, status))];
    }

    method SendData(id: U32, reader: Source)
      requires Valid()
      modifies reader, this`dataSent, this`log
      ensures Valid() && log == old(log) + [Stream(id, old(reader.data))]
      ensures dataSent == old(dataSent) + [DataWire(id, old(reader.data))]
    {
      ghost var source := reader.data;
      var stream := SendDataStream(id, reader);
      dataSent := dataSent + [stream.sent];
      ControlWireSnoc(log, Stream(id, source));
      StreamsOfSnoc(log, Stream(id, source));
      log := log + [Stream(id, source)];
    }

    /** One effect of a handler. */
    method Emit(e: Emission)
      requires Valid()
      modifies controlSend, this`dataSent, this`log
      ensures Valid() && log == old(log) + [e]
    {
      match e {
        case Respond(response) =>
          SendResponse(response.id, response.status);
        case Stream(id, source) =>
          var reader := new Source(source);
          SendData(id, reader);
      }
    }
  }
}
