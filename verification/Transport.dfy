/** The reliable ordered byte streams a connection is made of, and byte sources to copy from. */
module Transport {
  import opened Bytes

  /** The receiving end of a finished stream: its unread bytes, in the pieces they arrived in. */
  class RecvStream {
    var chunks: seq<seq<Byte>>

    ghost function Pending(): seq<Byte>
      reads this
    {
      Flatten(chunks)
    }

    constructor (chunks: seq<seq<Byte>>)
      ensures this.chunks == chunks
    {
      this.chunks := chunks;
    }

    /** Fills `buf` from as many pieces as it takes, or drains the stream and fails. */
    method ReadExact(buf: array<Byte>) returns (ok: bool)
      modifies this, buf
      ensures ok <==> buf.Length <= |old(Pending())|
      ensures ok ==> buf[..] == old(Pending())[..buf.Length] && Pending() == old(Pending())[buf.Length..]
      ensures !ok ==> Pending() == []
    {
      ghost var all := Pending();
      var filled := 0;
      while filled < buf.Length && chunks != []
        invariant 0 <= filled <= buf.Length
        invariant buf[..filled] + Pending() == all
        decreases |chunks|, buf.Length - filled
      {
        var room := buf.Length - filled;
        var n := if |chunks[0]| <= room then |chunks[0]| else room;
        TakeFront(chunks, n);
        Assoc(buf[..filled], chunks[0][..n], Flatten(DropFront(chunks, n)));
        Fill(buf, filled, chunks[0][..n]);
        chunks := DropFront(chunks, n);
        filled := filled + n;
      }
      ok := filled == buf.Length;
      assert chunks == [] || ok;
      assert buf[..filled] == all[..filled] && Pending() == all[filled..];
    }
  }

  /** The pieces left when `n` bytes of the first one are gone. */
  function DropFront(chunks: seq<seq<Byte>>, n: nat): seq<seq<Byte>>
    requires chunks != [] && n <= |chunks[0]|
  {
    if n == |chunks[0]| then chunks[1..] else [chunks[0][n..]] + chunks[1..]
  }

  lemma TakeFront(chunks: seq<seq<Byte>>, n: nat)
    requires chunks != [] && n <= |chunks[0]|
    ensures Flatten(chunks) == chunks[0][..n] + Flatten(DropFront(chunks, n))
  {
    Cut(chunks[0], n);
    Assoc(chunks[0][..n], chunks[0][n..], Flatten(chunks[1..]));
  }

  method Fill(buf: array<Byte>, at: nat, piece: seq<Byte>)
    requires at + |piece| <= buf.Length
    modifies buf
    ensures buf[..at + |piece|] == old(buf[..at]) + piece
  {
    forall i | 0 <= i < |piece| {
      buf[at + i] := piece[i];
    }
  }

  /** Reads a stream to its end into a growing buffer. */
  method CopyToEnd(stream: RecvStream) returns (data: seq<Byte>)
    modifies stream
    ensures data == old(stream.Pending()) && stream.Pending() == []
  {
    data := [];
    while stream.chunks != []
      invariant data + stream.Pending() == old(stream.Pending())
      decreases |stream.chunks|
    {
      Assoc(data, stream.chunks[0], Flatten(stream.chunks[1..]));
      data := data + stream.chunks[0];
      stream.chunks := stream.chunks[1..];
    }
  }

  /** The sending end of a stream. */
  class SendStream {
    var sent: seq<Byte>
    var finished: bool

    constructor ()
      ensures sent == [] && !finished
    {
      sent, finished := [], false;
    }

    method WriteAll(bytes: seq<Byte>)
      requires !finished
      modifies this
      ensures sent == old(sent) + bytes && !finished
    {
      sent := sent + bytes;
    }

    method Finish()
      requires !finished
      modifies this
      ensures sent == old(sent) && finished
    {
      finished := true;
    }
  }

  /** A byte source that hands out as much as it likes on each read, and nothing at its end. */
  class Source {
    var data: seq<Byte>

    constructor (data: seq<Byte>)
      ensures this.data == data
    {
      this.data := data;
    }

    method Read(max: nat) returns (chunk: seq<Byte>)
      requires max > 0
      modifies this
      ensures old(data) == chunk + data && |chunk| <= max
      ensures chunk == [] ==> data == []
    {
      if data == [] {
        return [];
      }
      var n :| 1 <= n <= max && n <= |data|;
      chunk, data := data[..n], data[n..];
    }
  }

  /** Size of the buffer a copy goes through. */
  const COPY_BUFFER: nat := 8192

  method Copy(reader: Source, writer: SendStream)
    requires !writer.finished
    modifies reader, writer
    ensures writer.sent == old(writer.sent) + old(reader.data)
    ensures reader.data == [] && !writer.finished
  {
    var chunk := reader.Read(COPY_BUFFER);
    while chunk != []
      invariant !writer.finished
      invariant writer.sent + chunk + reader.data == old(writer.sent) + old(reader.data)
      invariant chunk == [] ==> reader.data == []
      decreases |chunk| + |reader.data|
    {
      ghost var before := writer.sent + chunk;
      writer.WriteAll(chunk);
      ghost var rest := reader.data;
      chunk := reader.Read(COPY_BUFFER);
      Assoc(before, chunk, reader.data);
    }
    assert writer.sent + [] + [] == writer.sent;
  }

  /** The bytes of one data stream: the request id, then the source. */
  function DataWire(id: U32, source: seq<Byte>): seq<Byte> {
    LE32(id) + source
  }

  method SendDataStream(id: U32, reader: Source) returns (stream: SendStream)
    modifies reader
    ensures fresh(stream) && stream.finished && reader.data == []
    ensures stream.sent == DataWire(id, old(reader.data)) == Octets(id) + old(reader.data)
  {
    LE32Octets(id);
    stream := new SendStream();
    stream.WriteAll(LE32(id));
    Copy(reader, stream);
    stream.Finish();
  }

  /** Reads the preamble of an accepted stream and leaves the cursor on the payload. */
  method ReadDataStream(stream: RecvStream) returns (ok: bool, id: U32)
    modifies stream
    ensures ok <==> |old(stream.Pending())| >= 4
    ensures ok ==> old(stream.Pending()) == DataWire(id, stream.Pending()) == Octets(id) + stream.Pending()
  {
    var idBuf := new Byte[4];
    ok := stream.ReadExact(idBuf);
    id := 0;
    if ok {
      id := FromLE32(idBuf[..]);
      FromLE32RoundTrip(idBuf[..]);
      LE32Octets(id);
    }
  }

  /** Whatever read sizes the sender and arrival pieces the receiver sees, the receiver of a data
      stream gets the sender's id and, behind it, exactly the sender's source. */
  lemma DataStreamRoundTrip(id: U32, source: seq<Byte>, gotId: U32, got: seq<Byte>)
    requires DataWire(id, source) == DataWire(gotId, got)
    ensures gotId == id && got == source
  {
    LE32Prefix(id, source);
    LE32Prefix(gotId, got);
  }
}
