/**
 The Cap'n Proto stream encoding, for the two structs of schema/bxp.capnp.

 The reader takes arbitrary bytes and follows the Encoding Spec: any number of segments, struct
 and list pointers with signed offsets, single and double far pointers, short struct sections read
 as defaults. The writer produces the two shapes an allocator can give a Request: everything in one
 segment, or the text in a second segment behind a far pointer.
 */
module Capnp {
  import opened Results
  import opened Bytes
  import opened Protocol
  import Utf8

  /** A 64-bit word as its two little-endian halves. */
  datatype Word = Word(low: U32, high: U32)

  datatype Pointer =
    | StructPointer(offset: int, dataWords: U16, pointerWords: U16)
    | ListPointer(offset: int, elementSize: nat, count: nat)
    | FarPointer(double: bool, pad: nat, segment: U32)
    | OtherPointer

  /** The object a pointer refers to: a word index into a segment, and the pointer describing it. */
  datatype Object = Object(segment: nat, start: int, pointer: Pointer)

  datatype StructReader = StructReader(segment: nat, start: int, dataWords: nat, pointerWords: nat)

  /** Where the allocator put the text of a Request. */
  datatype Layout = OneSegment | TwoSegments

  /** The list count of a pointer has 29 bits and includes the NUL. */
  const MAX_URI: nat := 0x2000_0000 - 2

  const BYTE_ELEMENTS: nat := 2

  // ---------- words and pointers ----------

  function WordBytes(w: Word): (b: seq<Byte>)
    ensures |b| == 8
  {
    LE32(w.low) + LE32(w.high)
  }

  predicate InBounds(seg: seq<Byte>, start: int, words: nat) {
    0 <= start && 8 * (start + words) <= |seg|
  }

  function ReadWord(seg: seq<Byte>, at: int): Result<Word, DecodeError> {
    if InBounds(seg, at, 1)
    then Ok(Word(FromLE32(seg[8 * at..8 * at + 4]), FromLE32(seg[8 * at + 4..8 * at + 8])))
    else Err(OutOfBounds)
  }

  /** A 30-bit two's complement offset. */
  function SignedOffset(bits: nat): int {
    if bits < 0x2000_0000 then bits else bits - 0x4000_0000
  }

  function ParsePointer(w: Word): Pointer {
    match w.low % 4
    case 0 => StructPointer(SignedOffset(w.low / 4), w.high % 0x1_0000, w.high / 0x1_0000)
    case 1 => ListPointer(SignedOffset(w.low / 4), w.high % 8, w.high / 8)
    case 2 => FarPointer(w.low / 4 % 2 == 1, w.low / 8, w.high)
    case _ => OtherPointer
  }

  function Target(pos: int, p: Pointer): int {
    pos + 1 + if p.StructPointer? || p.ListPointer? then p.offset else 0
  }

  /** Pointers whose parts fit their bit fields. */
  predicate Representable(p: Pointer) {
    match p
    case StructPointer(offset, _, _) => -0x2000_0000 <= offset < 0x2000_0000
    case ListPointer(offset, size, count) =>
      -0x2000_0000 <= offset < 0x2000_0000 && size < 8 && count < 0x2000_0000
    case FarPointer(_, pad, _) => pad < 0x2000_0000
    case OtherPointer => false
  }

  function OffsetBits(offset: int): (bits: nat)
    requires -0x2000_0000 <= offset < 0x2000_0000
    ensures bits < 0x4000_0000
  {
    if offset < 0 then offset + 0x4000_0000 else offset
  }

  function PointerWord(p: Pointer): Word
    requires Representable(p)
  {
    match p
    case StructPointer(offset, dataWords, pointerWords) =>
      Word(4 * OffsetBits(offset), dataWords + 0x1_0000 * pointerWords)
    case ListPointer(offset, size, count) => Word(4 * OffsetBits(offset) + 1, size + 8 * count)
    case FarPointer(double, pad, segment) => Word(8 * pad + (if double then 4 else 0) + 2, segment)
  }

  function RootPointer(dataWords: U16, pointerWords: U16): Word {
    PointerWord(StructPointer(0, dataWords, pointerWords))
  }

  /** A byte-list pointer whose list follows `offset` words after it. */
  function TextPointer(offset: nat, count: nat): Word
    requires offset < 0x2000_0000 && count < 0x2000_0000
  {
    PointerWord(ListPointer(offset, BYTE_ELEMENTS, count))
  }

  /** A pointer to the landing pad at the start of another segment. */
  function FarPointerTo(segment: U32): Word {
    PointerWord(FarPointer(false, 0, segment))
  }

  // ---------- segments on a stream ----------

  predicate Segment(seg: seq<Byte>) {
    |seg| % 8 == 0 && |seg| / 8 < U32_SIZE
  }

  predicate Segments(segs: seq<seq<Byte>>) {
    && 0 < |segs| <= U32_SIZE
    && forall i | 0 <= i < |segs| :: Segment(segs[i])
  }

  function SizesOf(segs: seq<seq<Byte>>): (b: seq<Byte>)
    requires forall i | 0 <= i < |segs| :: Segment(segs[i])
    ensures |b| == 4 * |segs|
  {
    if segs == [] then [] else assert Segment(segs[0]); LE32(|segs[0]| / 8) + SizesOf(segs[1..])
  }

  /** Bytes of the segment table, padding included. */
  function TableSize(count: nat): nat {
    8 + 8 * (count / 2)
  }

  function WriteMessage(segs: seq<seq<Byte>>): (b: seq<Byte>)
    requires Segments(segs)
    ensures |b| == TableSize(|segs|) + |Flatten(segs)|
  {
    LE32(|segs| - 1) + SizesOf(segs) + Zeros(TableSize(|segs|) - 4 - 4 * |segs|) + Flatten(segs)
  }

  function ReadSizes(table: seq<Byte>, count: nat): (sizes: seq<nat>)
    requires 4 * count <= |table|
    ensures |sizes| == count
  {
    if count == 0 then [] else [FromLE32(table[..4])] + ReadSizes(table[4..], count - 1)
  }

  function Split(body: seq<Byte>, sizes: seq<nat>): (r: Result<seq<seq<Byte>>, DecodeError>)
    ensures r.Ok? ==> |r.value| == |sizes|
  {
    if sizes == [] then Ok([])
    else if |body| < 8 * sizes[0] then Err(PrematureEnd)
    else
      var rest :- Split(body[8 * sizes[0]..], sizes[1..]);
      Ok([body[..8 * sizes[0]]] + rest)
  }

  function ReadMessage(b: seq<Byte>): (r: Result<seq<seq<Byte>>, DecodeError>)
    ensures r.Ok? ==> r.value != []
  {
    if |b| < 8 then Err(PrematureEnd)
    else
      var count := FromLE32(b[..4]) + 1;
      if |b| < TableSize(count) then Err(PrematureEnd)
      else Split(b[TableSize(count)..], ReadSizes(b[4..TableSize(count)], count))
  }

  // ---------- following pointers ----------

  function Follow(segs: seq<seq<Byte>>, segment: nat, pos: int, w: Word): (r: Result<Object, DecodeError>)
    requires segment < |segs|
    ensures r.Ok? ==> r.value.segment < |segs|
  {
    var p := ParsePointer(w);
    if !p.FarPointer? then Ok(Object(segment, Target(pos, p), p))
    else if p.segment >= |segs| then Err(OutOfBounds)
    else
      var landing :- ReadWord(segs[p.segment], p.pad);
      if !p.double then
        Ok(Object(p.segment, Target(p.pad, ParsePointer(landing)), ParsePointer(landing)))
      else
        var tag :- ReadWord(segs[p.segment], p.pad + 1);
        var far := ParsePointer(landing);
        if !far.FarPointer? || far.double then Err(WrongPointerKind)
        else if far.segment >= |segs| then Err(OutOfBounds)
        else Ok(Object(far.segment, far.pad, ParsePointer(tag)))
  }

  predicate ReaderFits(segs: seq<seq<Byte>>, r: StructReader) {
    r.segment < |segs| && InBounds(segs[r.segment], r.start, r.dataWords + r.pointerWords)
  }

  function RootStruct(segs: seq<seq<Byte>>): (r: Result<StructReader, DecodeError>)
    requires segs != []
    ensures r.Ok? ==> ReaderFits(segs, r.value)
  {
    var w :- ReadWord(segs[0], 0);
    if w == Word(0, 0) then Ok(StructReader(0, 0, 0, 0))
    else
      var o :- Follow(segs, 0, 0, w);
      if !o.pointer.StructPointer? then Err(WrongPointerKind)
      else if !InBounds(segs[o.segment], o.start, o.pointer.dataWords + o.pointer.pointerWords) then Err(OutOfBounds)
      else Ok(StructReader(o.segment, o.start, o.pointer.dataWords, o.pointer.pointerWords))
  }

  function U32Field(segs: seq<seq<Byte>>, r: StructReader, slot: nat): U32
    requires ReaderFits(segs, r)
  {
    var at := 8 * r.start + 4 * slot;
    if 4 * slot + 4 <= 8 * r.dataWords then FromLE32(segs[r.segment][at..at + 4]) else 0
  }

  function U16Field(segs: seq<seq<Byte>>, r: StructReader, slot: nat): U16
    requires ReaderFits(segs, r)
  {
    var at := 8 * r.start + 2 * slot;
    if 2 * slot + 2 <= 8 * r.dataWords then FromLE16(segs[r.segment][at..at + 2]) else 0
  }

  /** The text an object holds: a byte list ending in a NUL, which is dropped. */
  function ReadText(segs: seq<seq<Byte>>, o: Object): Result<seq<Byte>, DecodeError>
    requires o.segment < |segs|
  {
    if !o.pointer.ListPointer? then Err(WrongPointerKind)
    else if o.pointer.elementSize != BYTE_ELEMENTS then Err(WrongElementSize)
    else if !InBounds(segs[o.segment], o.start, (o.pointer.count + 7) / 8) then Err(OutOfBounds)
    else if o.pointer.count == 0 then Err(MissingNul)
    else
      var text := segs[o.segment][8 * o.start..8 * o.start + o.pointer.count];
      if text[|text| - 1] != 0 then Err(MissingNul) else Ok(text[..|text| - 1])
  }

  /** The text behind the pointer at a word; a null pointer is the empty default. */
  function TextBehind(segs: seq<seq<Byte>>, segment: nat, pos: int): Result<seq<Byte>, DecodeError>
    requires segment < |segs|
  {
    var w :- ReadWord(segs[segment], pos);
    if w == Word(0, 0) then Ok([])
    else
      var o :- Follow(segs, segment, pos, w);
      ReadText(segs, o)
  }

  function TextField(segs: seq<seq<Byte>>, r: StructReader, index: nat): Result<seq<Byte>, DecodeError>
    requires ReaderFits(segs, r)
  {
    if index >= r.pointerWords then Ok([]) else TextBehind(segs, r.segment, r.start + r.dataWords + index)
  }

  // ---------- the two message types ----------

  function RequestFrom(segs: seq<seq<Byte>>): Result<Request, DecodeError>
    requires segs != []
  {
    var root :- RootStruct(segs);
    RequestFields(segs, root)
  }

  function RequestFields(segs: seq<seq<Byte>>, root: StructReader): Result<Request, DecodeError>
    requires ReaderFits(segs, root)
  {
    var action :- ActionOf(U16Field(segs, root, 2));
    var uri :- TextField(segs, root, 0);
    if Utf8.Valid(uri) then Ok(Request(U32Field(segs, root, 0), action, uri)) else Err(NotUtf8)
  }

  function ResponseFrom(segs: seq<seq<Byte>>): Result<Response, DecodeError>
    requires segs != []
  {
    var root :- RootStruct(segs);
    var status :- StatusOf(U16Field(segs, root, 2));
    Ok(Response(U32Field(segs, root, 0), status))
  }

  function DecodeRequest(payload: seq<Byte>): Result<Request, DecodeError> {
    var segs :- ReadMessage(payload);
    RequestFrom(segs)
  }

  function DecodeResponse(payload: seq<Byte>): Result<Response, DecodeError> {
    var segs :- ReadMessage(payload);
    ResponseFrom(segs)
  }

  /** Words of a text with its NUL: the ceiling of (n + 1) / 8. */
  function TextWords(n: nat): nat {
    n / 8 + 1
  }

  /** Payload length of a request with a URI of `n` bytes. */
  function PayloadSize(layout: Layout, n: nat): nat {
    (if layout.OneSegment? then 32 else 48) + 8 * ((n + 1 + 7) / 8)
  }

  function TextBytes(text: seq<Byte>): (b: seq<Byte>)
    ensures |b| == 8 * TextWords(|text|)
  {
    text + Zeros(8 * TextWords(|text|) - |text|)
  }

  function DataWord(id: U32, code: U16): (b: seq<Byte>)
    ensures |b| == 8
  {
    LE32(id) + LE16(code) + Zeros(2)
  }

  predicate Encodable(req: Request) {
    |req.uri| <= MAX_URI
  }

  /** Root pointer and data section. */
  function FixedPart(id: U32, code: U16): (b: seq<Byte>)
    ensures |b| == 16
  {
    WordBytes(RootPointer(1, 1)) + DataWord(id, code)
  }

  /** List pointer with its text right behind it. */
  function TextPart(uri: seq<Byte>): (b: seq<Byte>)
    requires |uri| <= MAX_URI
    ensures |b| == 8 * (1 + TextWords(|uri|))
  {
    WordBytes(TextPointer(0, |uri| + 1)) + TextBytes(uri)
  }

  lemma WholeWords(seg: seq<Byte>, words: nat)
    requires |seg| == 8 * words && words < U32_SIZE
    ensures Segment(seg)
  {
  }

  /** A message of the Request struct, with any enum code and any text. */
  function RawSegments(id: U32, code: U16, text: seq<Byte>, layout: Layout): (segs: seq<seq<Byte>>)
    requires |text| <= MAX_URI
    ensures Segments(segs)
    ensures layout.OneSegment? ==> |segs| == 1 && |segs[0]| == 8 * (3 + TextWords(|text|))
    ensures layout.TwoSegments? ==> |segs| == 2 && |segs[0]| == 24 && |segs[1]| == 8 * (1 + TextWords(|text|))
  {
    match layout
    case OneSegment =>
      WholeWords(FixedPart(id, code) + TextPart(text), 3 + TextWords(|text|));
      [FixedPart(id, code) + TextPart(text)]
    case TwoSegments =>
      WholeWords(FixedPart(id, code) + WordBytes(FarPointerTo(1)), 3);
      WholeWords(TextPart(text), 1 + TextWords(|text|));
      [FixedPart(id, code) + WordBytes(FarPointerTo(1)), TextPart(text)]
  }

  function RequestSegments(req: Request, layout: Layout): (segs: seq<seq<Byte>>)
    requires Encodable(req)
    ensures Segments(segs)
  {
    RawSegments(req.id, ActionCode(req.action), req.uri, layout)
  }

  function RawResponseSegments(id: U32, code: U16): (segs: seq<seq<Byte>>)
    ensures Segments(segs)
  {
    [WordBytes(RootPointer(1, 0)) + DataWord(id, code)]
  }

  function ResponseSegments(res: Response): (segs: seq<seq<Byte>>)
    ensures Segments(segs)
  {
    RawResponseSegments(res.id, StatusCode(res.status))
  }

  function EncodeRequest(req: Request, layout: Layout): seq<Byte>
    requires Encodable(req)
  {
    WriteMessage(RequestSegments(req, layout))
  }

  function EncodeResponse(res: Response): seq<Byte> {
    WriteMessage(ResponseSegments(res))
  }
}
