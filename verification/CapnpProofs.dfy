/** Round trips, sizes and robustness of the Cap'n Proto codec. */
module CapnpProofs {
  import opened Results
  import opened Bytes
  import opened Protocol
  import opened Capnp
  import Utf8

  // ---------- segment table ----------

  /** The segment table is one count and one size of four bytes each, padded to a word boundary. */
  lemma TableIsPadded(count: nat)
    ensures TableSize(count) % 8 == 0 && 4 + 4 * count <= TableSize(count) < 4 + 4 * count + 8
  {
  }

  function WordSizes(segs: seq<seq<Byte>>): seq<nat> {
    if segs == [] then [] else [|segs[0]| / 8] + WordSizes(segs[1..])
  }

  lemma {:induction false} ReadSizesOf(segs: seq<seq<Byte>>, tail: seq<Byte>)
    requires forall i | 0 <= i < |segs| :: Segment(segs[i])
    ensures ReadSizes(SizesOf(segs) + tail, |segs|) == WordSizes(segs)
  {
    if segs != [] {
      assert Segment(segs[0]);
      var first := LE32(|segs[0]| / 8);
      Assoc(first, SizesOf(segs[1..]), tail);
      LE32Prefix(|segs[0]| / 8, SizesOf(segs[1..]) + tail);
      ReadSizesOf(segs[1..], tail);
    }
  }

  lemma {:induction false} SplitFlatten(segs: seq<seq<Byte>>, tail: seq<Byte>)
    requires forall i | 0 <= i < |segs| :: Segment(segs[i])
    ensures Split(Flatten(segs) + tail, WordSizes(segs)) == Ok(segs)
  {
    if segs != [] {
      assert Segment(segs[0]);
      var rest := Flatten(segs[1..]) + tail;
      assert Flatten(segs) + tail == segs[0] + rest;
      assert (segs[0] + rest)[..|segs[0]|] == segs[0];
      assert (segs[0] + rest)[|segs[0]|..] == rest;
      SplitFlatten(segs[1..], tail);
      assert [segs[0]] + segs[1..] == segs;
    }
  }

  lemma MessageParts(count: seq<Byte>, sizes: seq<Byte>, pad: seq<Byte>, body: seq<Byte>, tail: seq<Byte>)
    ensures var b, n := count + sizes + pad + body + tail, |count| + |sizes| + |pad|;
            && b[..|count|] == count && b[|count|..n] == sizes + pad && b[n..] == body + tail
  {
    var b, table := count + sizes + pad + body + tail, count + (sizes + pad);
    Assoc(count, sizes, pad);
    Assoc(table, body, tail);
    assert b == table + (body + tail);
  }

  /** Any message reads back as the segments it was written from, whatever follows it. */
  lemma MessageRoundTrip(segs: seq<seq<Byte>>, tail: seq<Byte>)
    requires Segments(segs)
    ensures ReadMessage(WriteMessage(segs) + tail) == Ok(segs)
  {
    var pad := Zeros(TableSize(|segs|) - 4 - 4 * |segs|);
    MessageParts(LE32(|segs| - 1), SizesOf(segs), pad, Flatten(segs), tail);
    LE32RoundTrip(|segs| - 1);
    ReadSizesOf(segs, pad);
    SplitFlatten(segs, tail);
  }

  lemma {:induction false} SplitIgnoresTail(body: seq<Byte>, tail: seq<Byte>, sizes: seq<nat>)
    requires Split(body, sizes).Ok?
    ensures Split(body + tail, sizes) == Split(body, sizes)
  {
    if sizes != [] {
      var n := 8 * sizes[0];
      assert (body + tail)[..n] == body[..n];
      assert (body + tail)[n..] == body[n..] + tail;
      SplitIgnoresTail(body[n..], tail, sizes[1..]);
    }
  }

  /** Bytes left over inside a payload never change what is read from it. */
  lemma MessageIgnoresTail(b: seq<Byte>, tail: seq<Byte>)
    requires ReadMessage(b).Ok?
    ensures ReadMessage(b + tail) == ReadMessage(b)
  {
    var count := FromLE32(b[..4]) + 1;
    var size := TableSize(count);
    assert (b + tail)[..4] == b[..4];
    assert (b + tail)[4..size] == b[4..size];
    assert (b + tail)[size..] == b[size..] + tail;
    SplitIgnoresTail(b[size..], tail, ReadSizes(b[4..size], count));
  }

  // ---------- words ----------

  lemma ReadWordAt(before: seq<Byte>, w: Word, after: seq<Byte>)
    requires |before| % 8 == 0
    ensures ReadWord(before + WordBytes(w) + after, |before| / 8) == Ok(w)
  {
    var seg := before + WordBytes(w) + after;
    var at := |before|;
    assert seg[at..at + 4] == LE32(w.low);
    assert seg[at + 4..at + 8] == LE32(w.high);
    LE32RoundTrip(w.low);
    LE32RoundTrip(w.high);
  }

  lemma DivMod(q: nat, r: nat, d: nat)
    requires d == 4 || d == 8 || d == 0x1_0000
    requires r < d
    ensures (r + d * q) % d == r && (r + d * q) / d == q
  {
  }

  lemma OffsetRoundTrip(offset: int)
    requires -0x2000_0000 <= offset < 0x2000_0000
    ensures SignedOffset(OffsetBits(offset)) == offset
  {
  }

  lemma StructPointerRoundTrip(offset: int, dataWords: U16, pointerWords: U16)
    requires -0x2000_0000 <= offset < 0x2000_0000
    ensures ParsePointer(PointerWord(StructPointer(offset, dataWords, pointerWords)))
         == StructPointer(offset, dataWords, pointerWords)
  {
    OffsetRoundTrip(offset);
    DivMod(OffsetBits(offset), 0, 4);
    DivMod(pointerWords, dataWords, 0x1_0000);
  }

  lemma ListPointerRoundTrip(offset: int, size: nat, count: nat)
    requires Representable(ListPointer(offset, size, count))
    ensures ParsePointer(PointerWord(ListPointer(offset, size, count))) == ListPointer(offset, size, count)
  {
    var w, bits := PointerWord(ListPointer(offset, size, count)), OffsetBits(offset);
    OffsetRoundTrip(offset);
    DivMod(bits, 1, 4);
    DivMod(count, size, 8);
    assert w.low == 1 + 4 * bits && w.high == size + 8 * count;
    assert w.low % 4 == 1 && w.low / 4 == bits;
    assert w.high % 8 == size && w.high / 8 == count;
  }

  lemma FarPointerRoundTrip(double: bool, pad: nat, segment: U32)
    requires pad < 0x2000_0000
    ensures ParsePointer(PointerWord(FarPointer(double, pad, segment))) == FarPointer(double, pad, segment)
  {
    var flag := if double then 1 else 0;
    DivMod(2 * pad + flag, 2, 4);
    DivMod(pad, 4 * flag + 2, 8);
  }

  /** Every pointer, with any signed offset, is read back from its word. */
  lemma PointerRoundTrip(p: Pointer)
    requires Representable(p)
    ensures ParsePointer(PointerWord(p)) == p
  {
    match p
    case StructPointer(offset, dataWords, pointerWords) => StructPointerRoundTrip(offset, dataWords, pointerWords);
    case ListPointer(offset, size, count) => ListPointerRoundTrip(offset, size, count);
    case FarPointer(double, pad, segment) => FarPointerRoundTrip(double, pad, segment);
  }

  /** And every word that is a struct, list or far pointer is the word of what it parses to. */
  lemma WordRoundTrip(w: Word)
    requires !ParsePointer(w).OtherPointer?
    ensures Representable(ParsePointer(w)) && PointerWord(ParsePointer(w)) == w
  {
    if w.low % 4 == 2 {
      assert w.low == 8 * (w.low / 8) + 4 * (w.low / 4 % 2) + 2;
    }
  }

  /** The bit fields of the Encoding Spec: the kind in the low two bits, a signed 30-bit offset or a 29-bit
      landing pad behind them, the sizes or the segment in the high half. */
  lemma PointerBits(w: Word)
    ensures match ParsePointer(w)
            case StructPointer(offset, dataWords, pointerWords) =>
              && w.low == 4 * offset + (if offset < 0 then 0x1_0000_0000 else 0)
              && w.high == dataWords + 0x1_0000 * pointerWords
            case ListPointer(offset, elementSize, count) =>
              && w.low == 4 * offset + (if offset < 0 then 0x1_0000_0000 else 0) + 1
              && w.high == elementSize + 8 * count && elementSize < 8
            case FarPointer(double, pad, segment) =>
              w.low == 2 + (if double then 4 else 0) + 8 * pad && w.high == segment
            case OtherPointer => w.low % 4 == 3
  {
    if w.low % 4 == 2 {
      assert w.low == 8 * (w.low / 8) + 4 * (w.low / 4 % 2) + 2;
    }
  }

  lemma RootPointerParses(dataWords: U16, pointerWords: U16)
    ensures ParsePointer(RootPointer(dataWords, pointerWords)) == StructPointer(0, dataWords, pointerWords)
  {
    PointerRoundTrip(StructPointer(0, dataWords, pointerWords));
  }

  /** The data section that both messages share, found where the getters look. */
  lemma DataWordFields(before: seq<Byte>, id: U32, code: U16, after: seq<Byte>)
    ensures var seg := before + DataWord(id, code) + after;
            && FromLE32(seg[|before|..|before| + 4]) == id
            && FromLE16(seg[|before| + 4..|before| + 6]) == code
  {
    var seg := before + DataWord(id, code) + after;
    assert seg[|before|..|before| + 4] == LE32(id);
    assert seg[|before| + 4..|before| + 6] == LE16(code);
    LE32RoundTrip(id);
    LE16RoundTrip(code);
  }

  /** A root struct of one data word is found with its id and its enum code. */
  lemma RootFields(segs: seq<seq<Byte>>, pointers: U16, id: U32, code: U16, after: seq<Byte>)
    requires segs != []
    requires segs[0] == WordBytes(RootPointer(1, pointers)) + DataWord(id, code) + after
    requires |after| >= 8 * pointers
    ensures RootStruct(segs) == Ok(StructReader(0, 1, 1, pointers))
    ensures U32Field(segs, StructReader(0, 1, 1, pointers), 0) == id
    ensures U16Field(segs, StructReader(0, 1, 1, pointers), 2) == code
  {
    var root := WordBytes(RootPointer(1, pointers));
    assert segs[0] == [] + root + (DataWord(id, code) + after);
    ReadWordAt([], RootPointer(1, pointers), DataWord(id, code) + after);
    RootPointerParses(1, pointers);
    DataWordFields(root, id, code, after);
  }

  /** Text that sits right behind its list pointer, at any word of any segment. */
  lemma TextBehindPointer(seg: seq<Byte>, before: seq<Byte>, text: seq<Byte>)
    requires |before| % 8 == 0 && |text| <= MAX_URI
    requires seg == before + WordBytes(TextPointer(0, |text| + 1)) + TextBytes(text)
    ensures ReadWord(seg, |before| / 8) == Ok(TextPointer(0, |text| + 1))
    ensures InBounds(seg, |before| / 8 + 1, TextWords(|text|))
    ensures seg[|before| + 8..|before| + 8 + |text| + 1] == text + [0]
  {
    ReadWordAt(before, TextPointer(0, |text| + 1), TextBytes(text));
    assert seg[|before| + 8..] == TextBytes(text);
    assert TextBytes(text)[..|text| + 1] == text + [0];
  }

  /** The ways a pointer can lead to its object. */
  datatype Path =
    | Near(offset: int)
    | ViaPad(segment: U32, pad: nat, offset: int)
    | ViaDoublePad(segment: U32, pad: nat, target: U32, start: nat, offset: int)

  /** The pointer that describes the object, with the offset its path gives it; behind a double pad the
      offset is read and ignored. */
  function Placed(p: Pointer, path: Path): Pointer
    requires p.StructPointer? || p.ListPointer?
  {
    p.(offset := path.offset)
  }

  predicate WordIs(segs: seq<seq<Byte>>, segment: nat, at: int, p: Pointer)
    requires segment < |segs|
  {
    Representable(p) && ReadWord(segs[segment], at) == Ok(PointerWord(p))
  }

  /** The pointer words of a path are in place. */
  predicate PathLaid(segs: seq<seq<Byte>>, segment: nat, pos: int, p: Pointer, path: Path)
    requires segment < |segs| && (p.StructPointer? || p.ListPointer?)
  {
    match path
    case Near(_) => WordIs(segs, segment, pos, Placed(p, path))
    case ViaPad(s, pad, _) =>
      && WordIs(segs, segment, pos, FarPointer(false, pad, s)) && s < |segs|
      && WordIs(segs, s, pad, Placed(p, path))
    case ViaDoublePad(s, pad, target, start, _) =>
      && WordIs(segs, segment, pos, FarPointer(true, pad, s)) && s < |segs|
      && WordIs(segs, s, pad, FarPointer(false, start, target)) && target < |segs|
      && WordIs(segs, s, pad + 1, Placed(p, path))
  }

  /** Segment and word where a path ends. */
  function PathEnd(segment: nat, pos: int, path: Path): (nat, int) {
    match path
    case Near(offset) => (segment, pos + 1 + offset)
    case ViaPad(s, pad, offset) => (s, pad + 1 + offset)
    case ViaDoublePad(_, _, target, start, _) => (target, start)
  }

  predicate TextAt(segs: seq<seq<Byte>>, at: (nat, int), text: seq<Byte>) {
    && at.0 < |segs|
    && InBounds(segs[at.0], at.1, TextWords(|text|))
    && segs[at.0][8 * at.1..8 * at.1 + |text| + 1] == text + [0]
  }

  lemma FollowDoublePad(segs: seq<seq<Byte>>, segment: nat, pos: int, p: Pointer, path: Path)
    requires segment < |segs| && (p.StructPointer? || p.ListPointer?) && path.ViaDoublePad?
    requires PathLaid(segs, segment, pos, p, path)
    ensures Follow(segs, segment, pos, PointerWord(FarPointer(true, path.pad, path.segment)))
         == Ok(Object(path.target, path.start, Placed(p, path)))
  {
    PointerRoundTrip(Placed(p, path));
    PointerRoundTrip(FarPointer(true, path.pad, path.segment));
    PointerRoundTrip(FarPointer(false, path.start, path.target));
  }

  /** Following a pointer ends where its path says, at the pointer its path places. */
  lemma FollowPath(segs: seq<seq<Byte>>, segment: nat, pos: int, p: Pointer, path: Path)
    returns (w: Word, o: Object)
    requires segment < |segs| && (p.StructPointer? || p.ListPointer?)
    requires PathLaid(segs, segment, pos, p, path)
    ensures ReadWord(segs[segment], pos) == Ok(w)
    ensures Follow(segs, segment, pos, w) == Ok(o)
    ensures o.segment < |segs| && (o.segment, o.start) == PathEnd(segment, pos, path)
    ensures o.pointer == Placed(p, path)
    ensures p.ListPointer? ==> w != Word(0, 0)
  {
    w := ReadWord(segs[segment], pos).value;
    match path {
      case Near(_) =>
        PointerRoundTrip(Placed(p, path));
      case ViaPad(s, pad, _) =>
        PointerRoundTrip(Placed(p, path));
        PointerRoundTrip(FarPointer(false, pad, s));
      case ViaDoublePad(_, _, _, _, _) =>
        FollowDoublePad(segs, segment, pos, p, path);
    }
    o := Follow(segs, segment, pos, w).value;
  }

  /** Conversely, whatever following a pointer reaches lies at the end of a path. */
  lemma PathFollowed(segs: seq<seq<Byte>>, segment: nat, pos: int, w: Word, o: Object) returns (path: Path)
    requires segment < |segs| && ReadWord(segs[segment], pos) == Ok(w)
    requires Follow(segs, segment, pos, w) == Ok(o) && (o.pointer.StructPointer? || o.pointer.ListPointer?)
    ensures PathLaid(segs, segment, pos, o.pointer.(offset := 0), path)
    ensures PathEnd(segment, pos, path) == (o.segment, o.start)
  {
    WordRoundTrip(w);
    var p := ParsePointer(w);
    if !p.FarPointer? {
      path := Near(p.offset);
    } else {
      var landing := ReadWord(segs[p.segment], p.pad).value;
      WordRoundTrip(landing);
      if p.double {
        var far := ParsePointer(landing);
        WordRoundTrip(ReadWord(segs[p.segment], p.pad + 1).value);
        path := ViaDoublePad(p.segment, p.pad, far.segment, far.pad, o.pointer.offset);
      } else {
        path := ViaPad(p.segment, p.pad, o.pointer.offset);
      }
    }
  }

  /** Wherever a peer's allocator put the root struct, it is found with the sizes its pointer gives;
      only the all-zero pointer reads as the default struct. */
  lemma RootAnywhere(segs: seq<seq<Byte>>, dataWords: U16, pointerWords: U16, path: Path)
    requires segs != [] && PathLaid(segs, 0, 0, StructPointer(0, dataWords, pointerWords), path)
    requires ReadWord(segs[0], 0) != Ok(Word(0, 0))
    requires var (s, start) := PathEnd(0, 0, path);
             s < |segs| && InBounds(segs[s], start, dataWords + pointerWords)
    ensures var (s, start) := PathEnd(0, 0, path);
            RootStruct(segs) == Ok(StructReader(s, start, dataWords, pointerWords))
  {
    var w, o := FollowPath(segs, 0, 0, StructPointer(0, dataWords, pointerWords), path);
  }

  /** The root struct is exactly what lies in bounds at the end of a path that starts at the first word;
      the all-zero word is the default struct. */
  lemma RootExact(segs: seq<seq<Byte>>, segment: nat, start: int, dataWords: U16, pointerWords: U16)
    requires segs != []
    ensures RootStruct(segs) == Ok(StructReader(segment, start, dataWords, pointerWords)) <==>
            if ReadWord(segs[0], 0) == Ok(Word(0, 0))
            then (segment, start, dataWords, pointerWords) == (0, 0, 0, 0)
            else
              && segment < |segs| && InBounds(segs[segment], start, dataWords + pointerWords)
              && exists path :: PathLaid(segs, 0, 0, StructPointer(0, dataWords, pointerWords), path)
                                && PathEnd(0, 0, path) == (segment, start)
  {
    var reader, p := StructReader(segment, start, dataWords, pointerWords), StructPointer(0, dataWords, pointerWords);
    if ReadWord(segs[0], 0) != Ok(Word(0, 0)) {
      if RootStruct(segs) == Ok(reader) {
        RootPath(segs, reader, p);
      }
      if path :| && PathLaid(segs, 0, 0, p, path) && PathEnd(0, 0, path) == (segment, start)
                 && segment < |segs| && InBounds(segs[segment], start, dataWords + pointerWords) {
        RootAnywhere(segs, dataWords, pointerWords, path);
      }
    }
  }

  lemma RootPath(segs: seq<seq<Byte>>, reader: StructReader, p: Pointer)
    requires segs != [] && RootStruct(segs) == Ok(reader) && ReadWord(segs[0], 0) != Ok(Word(0, 0))
    requires p.StructPointer? && p.offset == 0
    requires reader.dataWords == p.dataWords && reader.pointerWords == p.pointerWords
    ensures exists path :: PathLaid(segs, 0, 0, p, path) && PathEnd(0, 0, path) == (reader.segment, reader.start)
  {
    var w := ReadWord(segs[0], 0).value;
    var path := PathFollowed(segs, 0, 0, w, Follow(segs, 0, 0, w).value);
  }

  /** An object reads as a text exactly when it is a list of single bytes, in bounds, holding that
      text and a NUL behind it. */
  lemma ReadTextExact(segs: seq<seq<Byte>>, o: Object, text: seq<Byte>)
    requires o.segment < |segs|
    ensures ReadText(segs, o) == Ok(text) <==>
            && o.pointer.ListPointer? && o.pointer.elementSize == BYTE_ELEMENTS && o.pointer.count == |text| + 1
            && TextAt(segs, (o.segment, o.start), text)
  {
    assert (|text| + 1 + 7) / 8 == TextWords(|text|);
    assert (text + [0])[..|text|] == text && (text + [0])[|text|] == 0;
    if ReadText(segs, o).Ok? {
      var bytes := segs[o.segment][8 * o.start..8 * o.start + o.pointer.count];
      assert bytes == bytes[..|bytes| - 1] + [0];
    }
  }

  /** Fields a struct is too short for read as their defaults, whatever lies behind it. */
  lemma ShortStructDefaults(segs: seq<seq<Byte>>, r: StructReader)
    requires ReaderFits(segs, r)
    ensures r.dataWords == 0 ==>
              (forall slot: nat :: U32Field(segs, r, slot) == 0) && (forall slot: nat :: U16Field(segs, r, slot) == 0)
    ensures r.pointerWords == 0 ==> TextField(segs, r, 0) == Ok([])
    ensures r.dataWords == 0 && r.pointerWords == 0 ==> RequestFields(segs, r) == Ok(Request(0, Fetch, []))
  {
  }

  lemma TextBehindVia(segs: seq<seq<Byte>>, segment: nat, pos: int, w: Word, o: Object)
    requires segment < |segs| && w != Word(0, 0)
    requires ReadWord(segs[segment], pos) == Ok(w) && Follow(segs, segment, pos, w) == Ok(o)
    ensures TextBehind(segs, segment, pos) == ReadText(segs, o)
  {
  }

  /** Wherever a peer's allocator put a text, before or behind its pointer, behind one landing pad or
      two, reading through the pointer returns it. */
  lemma TextAnywhere(segs: seq<seq<Byte>>, segment: nat, pos: int, text: seq<Byte>, path: Path)
    requires segment < |segs|
    requires PathLaid(segs, segment, pos, ListPointer(0, BYTE_ELEMENTS, |text| + 1), path)
    requires TextAt(segs, PathEnd(segment, pos, path), text)
    ensures TextBehind(segs, segment, pos) == Ok(text)
  {
    var w, o := FollowPath(segs, segment, pos, ListPointer(0, BYTE_ELEMENTS, |text| + 1), path);
    ReadTextExact(segs, o, text);
    TextBehindVia(segs, segment, pos, w, o);
  }

  /** The text behind a pointer word is exactly the one some path leads to; the all-zero word is the
      empty text. */
  lemma TextBehindExact(segs: seq<seq<Byte>>, segment: nat, pos: int, text: seq<Byte>)
    requires segment < |segs|
    ensures TextBehind(segs, segment, pos) == Ok(text) <==>
            || (ReadWord(segs[segment], pos) == Ok(Word(0, 0)) && text == [])
            || exists path :: PathLaid(segs, segment, pos, ListPointer(0, BYTE_ELEMENTS, |text| + 1), path)
                              && TextAt(segs, PathEnd(segment, pos, path), text)
  {
    if path :| PathLaid(segs, segment, pos, ListPointer(0, BYTE_ELEMENTS, |text| + 1), path)
               && TextAt(segs, PathEnd(segment, pos, path), text) {
      TextAnywhere(segs, segment, pos, text, path);
    }
    if TextBehind(segs, segment, pos) == Ok(text) && ReadWord(segs[segment], pos) != Ok(Word(0, 0)) {
      TextPath(segs, segment, pos, text);
    }
  }

  lemma TextPath(segs: seq<seq<Byte>>, segment: nat, pos: int, text: seq<Byte>)
    requires segment < |segs| && ReadWord(segs[segment], pos) != Ok(Word(0, 0))
    requires TextBehind(segs, segment, pos) == Ok(text)
    ensures exists path :: PathLaid(segs, segment, pos, ListPointer(0, BYTE_ELEMENTS, |text| + 1), path)
                           && TextAt(segs, PathEnd(segment, pos, path), text)
  {
    var w := ReadWord(segs[segment], pos).value;
    var o := Follow(segs, segment, pos, w).value;
    ReadTextExact(segs, o, text);
    var path := PathFollowed(segs, segment, pos, w, o);
  }

  lemma TextInPlace(segs: seq<seq<Byte>>, fixed: seq<Byte>, text: seq<Byte>)
    requires |fixed| == 16 && |text| <= MAX_URI
    requires segs == [fixed + TextPart(text)]
    ensures ReaderFits(segs, StructReader(0, 1, 1, 1))
    ensures TextField(segs, StructReader(0, 1, 1, 1), 0) == Ok(text)
  {
    Assoc(fixed, WordBytes(TextPointer(0, |text| + 1)), TextBytes(text));
    TextBehindPointer(segs[0], fixed, text);
    TextAnywhere(segs, 0, 2, text, Near(0));
  }

  lemma TextBehindPad(segs: seq<seq<Byte>>, fixed: seq<Byte>, text: seq<Byte>)
    requires |fixed| == 16 && |text| <= MAX_URI
    requires segs == [fixed + WordBytes(FarPointerTo(1)), TextPart(text)]
    ensures ReaderFits(segs, StructReader(0, 1, 1, 1))
    ensures TextField(segs, StructReader(0, 1, 1, 1), 0) == Ok(text)
  {
    assert WordIs(segs, 0, 2, FarPointer(false, 0, 1)) by {
      EmptyRight(segs[0]);
      ReadWordAt(fixed, FarPointerTo(1), []);
    }
    EmptyLeft(WordBytes(TextPointer(0, |text| + 1)));
    TextBehindPointer(segs[1], [], text);
    TextAnywhere(segs, 0, 2, text, ViaPad(1, 0, 0));
  }

  lemma RawRoot(id: U32, code: U16, text: seq<Byte>, layout: Layout)
    requires |text| <= MAX_URI
    ensures var segs := RawSegments(id, code, text, layout);
            var root := StructReader(0, 1, 1, 1);
            && RootStruct(segs) == Ok(root)
            && U32Field(segs, root, 0) == id
            && U16Field(segs, root, 2) == code
  {
    var segs := RawSegments(id, code, text, layout);
    var after := if layout.OneSegment? then TextPart(text) else WordBytes(FarPointerTo(1));
    assert segs[0] == WordBytes(RootPointer(1, 1)) + DataWord(id, code) + after;
    RootFields(segs, 1, id, code, after);
  }

  lemma RawText(id: U32, code: U16, text: seq<Byte>, layout: Layout)
    requires |text| <= MAX_URI
    ensures ReaderFits(RawSegments(id, code, text, layout), StructReader(0, 1, 1, 1))
    ensures TextField(RawSegments(id, code, text, layout), StructReader(0, 1, 1, 1), 0) == Ok(text)
  {
    match layout
    case OneSegment => TextInPlace(RawSegments(id, code, text, layout), FixedPart(id, code), text);
    case TwoSegments => TextBehindPad(RawSegments(id, code, text, layout), FixedPart(id, code), text);
  }

  /** The verdict on a request's fields: unknown actions first, then text that is not UTF-8. */
  function Verdict(id: U32, code: U16, text: seq<Byte>): Result<Request, DecodeError> {
    if code == 0 && Utf8.Valid(text) then Ok(Request(id, Fetch, text))
    else if code == 1 && Utf8.Valid(text) then Ok(Request(id, Push, text))
    else if code == 2 && Utf8.Valid(text) then Ok(Request(id, Ping, text))
    else if code > 2 then Err(NotInSchema)
    else Err(NotUtf8)
  }

  lemma VerdictOnFields(segs: seq<seq<Byte>>, root: StructReader, id: U32, code: U16, text: seq<Byte>)
    requires ReaderFits(segs, root)
    requires U32Field(segs, root, 0) == id && U16Field(segs, root, 2) == code
    requires TextField(segs, root, 0) == Ok(text)
    ensures RequestFields(segs, root) == Verdict(id, code, text)
  {
  }

  lemma RawSegmentsDecode(id: U32, code: U16, text: seq<Byte>, layout: Layout)
    requires |text| <= MAX_URI
    ensures RequestFrom(RawSegments(id, code, text, layout)) == Verdict(id, code, text)
  {
    RawRoot(id, code, text, layout);
    RawText(id, code, text, layout);
    VerdictOnFields(RawSegments(id, code, text, layout), StructReader(0, 1, 1, 1), id, code, text);
  }

  lemma RootThenFields(segs: seq<seq<Byte>>, root: StructReader)
    requires segs != [] && RootStruct(segs) == Ok(root)
    ensures RequestFrom(segs) == RequestFields(segs, root)
  {
  }

  lemma VerdictOnRequest(req: Request)
    ensures Verdict(req.id, ActionCode(req.action), req.uri) == Ok(req)
  {
  }

  lemma RequestSegmentsDecode(req: Request, layout: Layout)
    requires Encodable(req)
    ensures RequestFrom(RequestSegments(req, layout)) == Ok(req)
  {
    var segs, root := RequestSegments(req, layout), StructReader(0, 1, 1, 1);
    RawRoot(req.id, ActionCode(req.action), req.uri, layout);
    RawText(req.id, ActionCode(req.action), req.uri, layout);
    VerdictOnFields(segs, root, req.id, ActionCode(req.action), req.uri);
    RootThenFields(segs, root);
    VerdictOnRequest(req);
  }

  /** Any id, any 16-bit action code and any text bytes, in either shape and with anything behind the
      message: the decoder accepts exactly the known actions with UTF-8 text. */
  lemma RawRequestDecodes(id: U32, code: U16, text: seq<Byte>, layout: Layout, tail: seq<Byte>)
    requires |text| <= MAX_URI
    ensures DecodeRequest(WriteMessage(RawSegments(id, code, text, layout)) + tail) == Verdict(id, code, text)
  {
    RawSegmentsDecode(id, code, text, layout);
    MessageRoundTrip(RawSegments(id, code, text, layout), tail);
  }

  /** Every request decodes to itself. */
  lemma RequestRoundTrip(req: Request, layout: Layout, tail: seq<Byte>)
    requires Encodable(req)
    ensures DecodeRequest(EncodeRequest(req, layout) + tail) == Ok(req)
  {
    RequestSegmentsDecode(req, layout);
    MessageRoundTrip(RequestSegments(req, layout), tail);
  }

  /** Five codes are statuses, all others are refused. */
  function StatusVerdict(id: U32, code: U16): Result<Response, DecodeError> {
    if code == 0 then Ok(Response(id, Success))
    else if code == 1 then Ok(Response(id, BadRequest))
    else if code == 2 then Ok(Response(id, Unauthorized))
    else if code == 3 then Ok(Response(id, NotFound))
    else if code == 4 then Ok(Response(id, InternalError))
    else Err(NotInSchema)
  }

  lemma RawResponseSegmentsDecode(id: U32, code: U16)
    ensures ResponseFrom(RawResponseSegments(id, code)) == StatusVerdict(id, code)
  {
    var segs := RawResponseSegments(id, code);
    assert segs[0] == WordBytes(RootPointer(1, 0)) + DataWord(id, code) + [];
    RootFields(segs, 0, id, code, []);
  }

  lemma RawResponseDecodes(id: U32, code: U16, tail: seq<Byte>)
    ensures DecodeResponse(WriteMessage(RawResponseSegments(id, code)) + tail) == StatusVerdict(id, code)
  {
    RawResponseSegmentsDecode(id, code);
    MessageRoundTrip(RawResponseSegments(id, code), tail);
  }

  lemma ResponseRoundTrip(res: Response, tail: seq<Byte>)
    ensures DecodeResponse(EncodeResponse(res) + tail) == Ok(res)
  {
    var segs := ResponseSegments(res);
    MessageRoundTrip(segs, tail);
    assert segs[0] == WordBytes(RootPointer(1, 0)) + DataWord(res.id, StatusCode(res.status)) + [];
    RootFields(segs, 0, res.id, StatusCode(res.status), []);
  }

  // ---------- sizes ----------

  lemma FlattenSizes(a: seq<Byte>, b: seq<Byte>, c: seq<Byte>)
    ensures |Flatten([a])| == |a| && |Flatten([b, c])| == |b| + |c|
  {
    assert Flatten([a]) == a + Flatten([]);
    assert [b, c] == [b] + [c];
    FlattenSnoc([b], c);
    assert Flatten([b]) == b + Flatten([]);
  }

  lemma RequestSize(req: Request, layout: Layout)
    requires Encodable(req)
    ensures |EncodeRequest(req, layout)| == PayloadSize(layout, |req.uri|)
  {
    var segs := RequestSegments(req, layout);
    match layout
    case OneSegment =>
      FlattenSizes(segs[0], [], []);
      assert segs == [segs[0]];
    case TwoSegments =>
      FlattenSizes([], segs[0], segs[1]);
      assert segs == [segs[0], segs[1]];
  }

  /** Payloads are whole words, grow with the URI, and never need more than 32 bits of length. */
  lemma PayloadSizeFits(layout: Layout, n: nat, m: nat)
    requires n <= m <= MAX_URI
    ensures PayloadSize(layout, n) % 8 == 0
    ensures PayloadSize(layout, n) <= PayloadSize(layout, m) < U32_SIZE
  {
  }

  lemma ResponseSize(res: Response)
    ensures |EncodeResponse(res)| == 24
  {
    var segs := ResponseSegments(res);
    assert Flatten(segs) == segs[0] + Flatten(segs[1..]);
  }

  // ---------- exact bytes ----------

  function ActionByte(a: Action): Byte {
    if a.Fetch? then 0 else if a.Push? then 1 else 2
  }

  lemma TextImage(uri: seq<Byte>)
    ensures TextBytes(uri) == uri + Zeros(8 - |uri| % 8)
  {
    assert 8 * TextWords(|uri|) - |uri| == 8 - |uri| % 8;
  }

  lemma FixedImage(req: Request)
    ensures WordBytes(RootPointer(1, 1)) + DataWord(req.id, ActionCode(req.action))
         == [0, 0, 0, 0, 1, 0, 1, 0] + Octets(req.id) + [ActionByte(req.action), 0, 0, 0]
  {
    LE32Octets(req.id);
    assert LE32(0) == [0, 0, 0, 0] && LE32(0x1_0001) == [1, 0, 1, 0];
    assert LE16(ActionCode(req.action)) == [ActionByte(req.action), 0];
    assert Zeros(2) == [0, 0];
  }

  function FixedBytes(req: Request): seq<Byte> {
    [0, 0, 0, 0, 1, 0, 1, 0] + Octets(req.id) + [ActionByte(req.action), 0, 0, 0]
  }

  function UriBytes(uri: seq<Byte>): seq<Byte>
    requires |uri| <= MAX_URI
  {
    [1, 0, 0, 0] + Octets(8 * (|uri| + 1) + 2) + (uri + Zeros(8 - |uri| % 8))
  }

  lemma PartsImage(req: Request)
    requires Encodable(req)
    ensures FixedPart(req.id, ActionCode(req.action)) == FixedBytes(req) && TextPart(req.uri) == UriBytes(req.uri)
  {
    FixedImage(req);
    TextImage(req.uri);
    LE32Octets(8 * (|req.uri| + 1) + 2);
    assert LE32(1) == [1, 0, 0, 0];
  }

  /** The bytes of a one-segment request, constant for constant: a segment table, the root pointer,
      id, action and padding, the list pointer, the URI and its NUL padding. */
  lemma RequestImage(req: Request)
    requires Encodable(req)
    ensures EncodeRequest(req, OneSegment) ==
            [0, 0, 0, 0] + Octets(3 + (|req.uri| / 8 + 1)) + (FixedBytes(req) + UriBytes(req.uri))
  {
    var segs := RequestSegments(req, OneSegment);
    LE32Octets(3 + (|req.uri| / 8 + 1));
    PartsImage(req);
    OneImage(segs[0]);
    assert segs == [segs[0]];
    assert LE32(0) == [0, 0, 0, 0];
  }

  lemma SplitConstants()
    ensures LE32(1) == [1, 0, 0, 0] && LE32(3) == [3, 0, 0, 0] && Zeros(4) == [0, 0, 0, 0]
    ensures WordBytes(FarPointerTo(1)) == [2, 0, 0, 0, 1, 0, 0, 0]
  {
  }

  /** The same for the two-segment shape, with a far pointer in the first segment. */
  lemma SplitRequestImage(req: Request)
    requires Encodable(req)
    ensures EncodeRequest(req, TwoSegments) ==
            [1, 0, 0, 0] + [3, 0, 0, 0] + Octets(1 + (|req.uri| / 8 + 1)) + [0, 0, 0, 0]
            + (FixedBytes(req) + [2, 0, 0, 0, 1, 0, 0, 0]) + UriBytes(req.uri)
  {
    var segs := RequestSegments(req, TwoSegments);
    LE32Octets(1 + (|req.uri| / 8 + 1));
    PartsImage(req);
    TwoImage(segs[0], segs[1]);
    assert segs == [segs[0], segs[1]];
    SplitConstants();
  }

  lemma OneImage(a: seq<Byte>)
    requires Segment(a)
    ensures WriteMessage([a]) == LE32(0) + LE32(|a| / 8) + a
  {
    assert SizesOf([a]) == LE32(|a| / 8) + SizesOf([]);
    assert Flatten([a]) == a + Flatten([]);
  }

  lemma TwoImage(a: seq<Byte>, b: seq<Byte>)
    requires Segment(a) && Segment(b)
    ensures WriteMessage([a, b]) == LE32(1) + LE32(|a| / 8) + LE32(|b| / 8) + Zeros(4) + a + b
  {
    TwoSizes(a, b);
    assert [a, b] == [a] + [b];
    FlattenSnoc([a], b);
    assert Flatten([a]) == a + Flatten([]);
    Assoc(LE32(1), LE32(|a| / 8), LE32(|b| / 8));
    Assoc(LE32(1) + LE32(|a| / 8) + LE32(|b| / 8) + Zeros(4), a, b);
  }

  lemma TwoSizes(a: seq<Byte>, b: seq<Byte>)
    requires Segment(a) && Segment(b)
    ensures SizesOf([a, b]) == LE32(|a| / 8) + LE32(|b| / 8)
  {
    assert [a, b][1..] == [b];
    assert SizesOf([b]) == LE32(|b| / 8) + SizesOf([]);
  }

  function StatusByte(s: Status): Byte {
    if s.Success? then 0 else if s.BadRequest? then 1 else if s.Unauthorized? then 2
    else if s.NotFound? then 3 else 4
  }

  lemma ResponseImage(res: Response)
    ensures EncodeResponse(res) ==
            [0, 0, 0, 0] + [2, 0, 0, 0]
            + ([0, 0, 0, 0, 1, 0, 0, 0] + Octets(res.id) + [StatusByte(res.status), 0, 0, 0])
  {
    var seg := ResponseSegments(res)[0];
    LE32Octets(res.id);
    assert LE32(0) == [0, 0, 0, 0] && LE32(1) == [1, 0, 0, 0] && LE32(2) == [2, 0, 0, 0];
    assert LE16(StatusCode(res.status)) == [StatusByte(res.status), 0] && Zeros(2) == [0, 0];
    assert seg == [0, 0, 0, 0, 1, 0, 0, 0] + Octets(res.id) + [StatusByte(res.status), 0, 0, 0];
    OneImage(seg);
    assert ResponseSegments(res) == [seg];
  }
}
