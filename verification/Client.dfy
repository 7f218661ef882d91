/** The client's end of a connection. */
module Client {
  import opened Results
  import opened Bytes
  import opened Protocol
  import opened Capnp
  import opened MessageBuilder
  import opened Framing
  import opened Messages
  import opened Transport

  class ClientConnection {
    const controlSend: SendStream
    const controlRecv: RecvStream
    ghost var writes: Writes

    ghost predicate Valid()
      reads this, controlSend
    {
      !controlSend.finished && controlSend.sent == Frames(RequestPayloads(writes))
    }

    constructor (controlRecv: RecvStream)
      ensures Valid() && this.controlRecv == controlRecv && writes == []
      ensures fresh(controlSend)
    {
      this.controlRecv := controlRecv;
      controlSend := new SendStream();
      writes := [];
    }

    method SendRequest(id: U32, action: Action, uri: Uri, layout: Layout)
      requires Valid() && |uri| <= MAX_URI
      modifies controlSend, this`writes
      ensures Valid() && writes == old(writes) + [Write(Request(id, action, uri), layout)]
      ensures controlSend.sent == old(controlSend.sent) + Frame(EncodeRequest(Request(id, action, uri), layout))
    {
      var w := Write(Request(id, action, uri), layout);
      var message := BuildRequest(w.request, layout);
      var outBuf := FrameInPlace(message);
      controlSend.WriteAll(outBuf);
      RequestFramesSnoc(writes, w);
      writes := writes + [w];
    }

    method ReceiveResponse() returns (result: Result<Response, ReceiveError>)
      modifies controlRecv
      ensures Received(result, controlRecv.Pending()) == Receive(CLIENT, old(controlRecv.Pending()))
    {
      ghost var input := controlRecv.Pending();
      var lenBuf := new Byte[4];
      var ok := controlRecv.ReadExact(lenBuf);
      if !ok {
        return Err(EndOfStream);
      }
      var len: nat := FromLE32(lenBuf[..]);
      var msgBuf := new Byte[len];
      ok := controlRecv.ReadExact(msgBuf);
      if !ok {
        return Err(EndOfStream);
      }
      assert msgBuf[..] == input[4..4 + len];
      return Malformation(DecodeResponse(msgBuf[..]));
    }
  }
}
