/** The message builder whose setters write into the segment in place. */
module MessageBuilder {
  import opened Results
  import opened Bytes
  import opened Protocol
  import opened Capnp
  import opened CapnpProofs

  /** `seg` with the bytes from `at` on overwritten. */
  function Patch(seg: seq<Byte>, at: nat, bytes: seq<Byte>): (r: seq<Byte>)
    requires at + |bytes| <= |seg|
    ensures |r| == |seg|
  {
    seg[..at] + bytes + seg[at + |bytes|..]
  }

  /** `b` continues `a`, and between `lo` and `hi` it may differ. */
  predicate AgreeOutside(a: seq<Byte>, b: seq<Byte>, lo: nat, hi: nat) {
    lo <= hi <= |a| <= |b| && a[..lo] == b[..lo] && a[hi..] == b[hi..|a|]
  }

  lemma PatchReads(seg: seq<Byte>, at: nat, bytes: seq<Byte>, more: seq<Byte>)
    requires at + |bytes| <= |seg|
    ensures (Patch(seg, at, bytes) + more)[at..at + |bytes|] == bytes
    ensures AgreeOutside(seg, Patch(seg, at, bytes) + more, at, at + |bytes|)
  {
  }

  lemma SliceOfSlice(s: seq<Byte>, lo: nat, hi: nat, x: nat, y: nat)
    requires lo <= x <= y <= hi <= |s|
    ensures s[lo..hi][x - lo..y - lo] == s[x..y]
  {
    var part := s[lo..hi];
    assert forall k | 0 <= k < y - x :: part[x - lo..y - lo][k] == s[x..y][k];
  }

  lemma SliceAgrees(a: seq<Byte>, b: seq<Byte>, lo: nat, hi: nat, x: nat, y: nat)
    requires AgreeOutside(a, b, lo, hi) && x <= y <= |a| && (y <= lo || hi <= x)
    ensures a[x..y] == b[x..y]
  {
    if y <= lo {
      SliceOfSlice(a, 0, lo, x, y);
      SliceOfSlice(b, 0, lo, x, y);
    } else {
      assert a[hi..] == a[hi..|a|];
      SliceOfSlice(a, hi, |a|, x, y);
      SliceOfSlice(b, hi, |a|, x, y);
    }
  }

  /** The pointer field at an index. */
  function PointerAt(segs: seq<seq<Byte>>, r: StructReader, index: nat): Result<Word, DecodeError>
    requires ReaderFits(segs, r)
  {
    ReadWord(segs[r.segment], r.start + r.dataWords + index)
  }

  // ---------- fields outside an overwritten range read as before ----------

  ghost predicate Overwritten(segs: seq<seq<Byte>>, after: seq<seq<Byte>>, r: StructReader, lo: nat, hi: nat) {
    && ReaderFits(segs, r) && ReaderFits(after, r)
    && AgreeOutside(segs[r.segment], after[r.segment], 8 * r.start + lo, 8 * r.start + hi)
  }

  lemma SameU32(segs: seq<seq<Byte>>, after: seq<seq<Byte>>, r: StructReader, lo: nat, hi: nat, slot: nat)
    requires Overwritten(segs, after, r, lo, hi) && (4 * slot + 4 <= lo || hi <= 4 * slot)
    ensures U32Field(after, r, slot) == U32Field(segs, r, slot)
  {
    if 4 * slot + 4 <= 8 * r.dataWords {
      var at := 8 * r.start + 4 * slot;
      SliceAgrees(segs[r.segment], after[r.segment], 8 * r.start + lo, 8 * r.start + hi, at, at + 4);
    }
  }

  lemma SameU16(segs: seq<seq<Byte>>, after: seq<seq<Byte>>, r: StructReader, lo: nat, hi: nat, slot: nat)
    requires Overwritten(segs, after, r, lo, hi) && (2 * slot + 2 <= lo || hi <= 2 * slot)
    ensures U16Field(after, r, slot) == U16Field(segs, r, slot)
  {
    if 2 * slot + 2 <= 8 * r.dataWords {
      var at := 8 * r.start + 2 * slot;
      SliceAgrees(segs[r.segment], after[r.segment], 8 * r.start + lo, 8 * r.start + hi, at, at + 2);
    }
  }

  lemma SamePointer(segs: seq<seq<Byte>>, after: seq<seq<Byte>>, r: StructReader, lo: nat, hi: nat, index: nat)
    requires Overwritten(segs, after, r, lo, hi) && index < r.pointerWords
    requires 8 * (r.dataWords + index + 1) <= lo || hi <= 8 * (r.dataWords + index)
    ensures PointerAt(after, r, index) == PointerAt(segs, r, index)
  {
    var at := 8 * (r.start + r.dataWords + index);
    SliceAgrees(segs[r.segment], after[r.segment], 8 * r.start + lo, 8 * r.start + hi, at, at + 4);
    SliceAgrees(segs[r.segment], after[r.segment], 8 * r.start + lo, 8 * r.start + hi, at + 4, at + 8);
  }

  // ---------- setters against getters ----------

  /** What the getters of everything but some bytes of the data section see is the same. */
  ghost predicate KeepsOtherFields(segs: seq<seq<Byte>>, after: seq<seq<Byte>>, r: StructReader, lo: nat, hi: nat)
    requires ReaderFits(segs, r) && ReaderFits(after, r)
  {
    && (forall slot: nat | 4 * slot + 4 <= lo || hi <= 4 * slot :: U32Field(after, r, slot) == U32Field(segs, r, slot))
    && (forall slot: nat | 2 * slot + 2 <= lo || hi <= 2 * slot :: U16Field(after, r, slot) == U16Field(segs, r, slot))
    && (forall i: nat | i < r.pointerWords && (8 * (r.dataWords + i + 1) <= lo || hi <= 8 * (r.dataWords + i)) ::
          PointerAt(after, r, i) == PointerAt(segs, r, i))
  }

  lemma OtherFieldsKept(segs: seq<seq<Byte>>, after: seq<seq<Byte>>, r: StructReader, lo: nat, hi: nat)
    requires Overwritten(segs, after, r, lo, hi)
    ensures KeepsOtherFields(segs, after, r, lo, hi)
  {
    forall slot: nat | 4 * slot + 4 <= lo || hi <= 4 * slot
      ensures U32Field(after, r, slot) == U32Field(segs, r, slot)
    {
      SameU32(segs, after, r, lo, hi, slot);
    }
    forall slot: nat | 2 * slot + 2 <= lo || hi <= 2 * slot
      ensures U16Field(after, r, slot) == U16Field(segs, r, slot)
    {
      SameU16(segs, after, r, lo, hi, slot);
    }
    forall i: nat | i < r.pointerWords && (8 * (r.dataWords + i + 1) <= lo || hi <= 8 * (r.dataWords + i))
      ensures PointerAt(after, r, i) == PointerAt(segs, r, i)
    {
      SamePointer(segs, after, r, lo, hi, i);
    }
  }

  /** After a 32-bit setter its own getter sees the value, and every getter of other bytes, of either
      width, and every pointer reads as before. */
  lemma GettersAfterU32(segs: seq<seq<Byte>>, r: StructReader, slot: nat, value: U32)
    requires ReaderFits(segs, r) && 4 * slot + 4 <= 8 * r.dataWords
    ensures var after := segs[r.segment := Patch(segs[r.segment], 8 * r.start + 4 * slot, LE32(value))];
            U32Field(after, r, slot) == value && KeepsOtherFields(segs, after, r, 4 * slot, 4 * slot + 4)
  {
    var at := 8 * r.start + 4 * slot;
    var after := segs[r.segment := Patch(segs[r.segment], at, LE32(value))];
    PatchReads(segs[r.segment], at, LE32(value), []);
    EmptyRight(after[r.segment]);
    LE32RoundTrip(value);
    OtherFieldsKept(segs, after, r, 4 * slot, 4 * slot + 4);
  }

  /** The same after a 16-bit setter. */
  lemma GettersAfterU16(segs: seq<seq<Byte>>, r: StructReader, slot: nat, value: U16)
    requires ReaderFits(segs, r) && 2 * slot + 2 <= 8 * r.dataWords
    ensures var after := segs[r.segment := Patch(segs[r.segment], 8 * r.start + 2 * slot, LE16(value))];
            U16Field(after, r, slot) == value && KeepsOtherFields(segs, after, r, 2 * slot, 2 * slot + 2)
  {
    var at := 8 * r.start + 2 * slot;
    var after := segs[r.segment := Patch(segs[r.segment], at, LE16(value))];
    PatchReads(segs[r.segment], at, LE16(value), []);
    EmptyRight(after[r.segment]);
    LE16RoundTrip(value);
    OtherFieldsKept(segs, after, r, 2 * slot, 2 * slot + 2);
  }

  // ---------- text ----------

  /** Word `pos` is a pointer field, and the first segment ends at word `end`. */
  predicate RoomForText(segs: seq<seq<Byte>>, pos: nat, end: nat, text: seq<Byte>) {
    && 0 < |segs| < U32_SIZE && |text| <= MAX_URI
    && |segs[0]| == 8 * end && pos < end < 0x2000_0000
  }

  /** The word that links position `pos` to a text allocated next. */
  function TextLink(segs: seq<seq<Byte>>, pos: nat, end: nat, text: seq<Byte>, layout: Layout): Word
    requires RoomForText(segs, pos, end, text)
  {
    match layout
    case OneSegment => TextPointer(end - (pos + 1), |text| + 1)
    case TwoSegments => FarPointerTo(|segs|)
  }

  function Linked(segs: seq<seq<Byte>>, pos: nat, end: nat, text: seq<Byte>, layout: Layout): (seg: seq<Byte>)
    requires RoomForText(segs, pos, end, text)
    ensures |seg| == 8 * end
  {
    Patch(segs[0], 8 * pos, WordBytes(TextLink(segs, pos, end, text, layout)))
  }

  /** The link in place, and the text behind the first segment or in a new one behind a landing pad. */
  function WithText(segs: seq<seq<Byte>>, pos: nat, end: nat, text: seq<Byte>, layout: Layout): seq<seq<Byte>>
    requires RoomForText(segs, pos, end, text)
  {
    match layout
    case OneSegment => segs[0 := Linked(segs, pos, end, text, layout) + TextBytes(text)]
    case TwoSegments => segs[0 := Linked(segs, pos, end, text, layout)] + [TextPart(text)]
  }

  lemma TextShape(segs: seq<seq<Byte>>, pos: nat, end: nat, text: seq<Byte>, layout: Layout)
    requires RoomForText(segs, pos, end, text)
    ensures var after := WithText(segs, pos, end, text, layout);
            var more := if layout.OneSegment? then TextBytes(text) else [];
            && after != [] && after[0] == Linked(segs, pos, end, text, layout) + more
            && |after[0]| == 8 * (end + if layout.OneSegment? then TextWords(|text|) else 0)
            && (layout.TwoSegments? ==> |after| == |segs| + 1 && after[|segs|] == TextPart(text))
  {
    EmptyRight(Linked(segs, pos, end, text, layout));
  }

  lemma PatchedWord(seg: seq<Byte>, pos: nat, w: Word, more: seq<Byte>)
    requires 8 * (pos + 1) <= |seg|
    ensures ReadWord(Patch(seg, 8 * pos, WordBytes(w)) + more, pos) == Ok(w)
  {
    var before, after := seg[..8 * pos], seg[8 * pos + 8..];
    Assoc(before + WordBytes(w), after, more);
    ReadWordAt(before, w, after + more);
  }

  lemma TextBytesHold(front: seq<Byte>, text: seq<Byte>)
    ensures (front + TextBytes(text))[|front|..|front| + |text| + 1] == text + [0]
  {
    assert TextBytes(text)[..|text| + 1] == text + [0];
  }

  lemma NearTextReads(segs: seq<seq<Byte>>, after: seq<seq<Byte>>, pos: nat, end: nat, text: seq<Byte>)
    requires RoomForText(segs, pos, end, text) && after != []
    requires after[0] == Linked(segs, pos, end, text, OneSegment) + TextBytes(text)
    ensures TextBehind(after, 0, pos) == Ok(text)
  {
    PatchedWord(segs[0], pos, TextLink(segs, pos, end, text, OneSegment), TextBytes(text));
    TextBytesHold(Linked(segs, pos, end, text, OneSegment), text);
    TextAnywhere(after, 0, pos, text, Near(end - (pos + 1)));
  }

  lemma FarTextReads(segs: seq<seq<Byte>>, after: seq<seq<Byte>>, pos: nat, end: nat, text: seq<Byte>)
    requires RoomForText(segs, pos, end, text) && |after| == |segs| + 1
    requires after[0] == Linked(segs, pos, end, text, TwoSegments) + [] && after[|segs|] == TextPart(text)
    ensures TextBehind(after, 0, pos) == Ok(text)
  {
    PatchedWord(segs[0], pos, FarPointerTo(|segs|), []);
    EmptyLeft(WordBytes(TextPointer(0, |text| + 1)));
    TextBehindPointer(after[|segs|], [], text);
    assert WordIs(after, 0, pos, FarPointer(false, 0, |segs|));
    TextAnywhere(after, 0, pos, text, ViaPad(|segs|, 0, 0));
  }

  lemma TextReads(segs: seq<seq<Byte>>, pos: nat, end: nat, text: seq<Byte>, layout: Layout)
    requires RoomForText(segs, pos, end, text)
    ensures WithText(segs, pos, end, text, layout) != []
    ensures TextBehind(WithText(segs, pos, end, text, layout), 0, pos) == Ok(text)
  {
    TextShape(segs, pos, end, text, layout);
    match layout
    case OneSegment => NearTextReads(segs, WithText(segs, pos, end, text, layout), pos, end, text);
    case TwoSegments => FarTextReads(segs, WithText(segs, pos, end, text, layout), pos, end, text);
  }

  lemma TextOverwrites(segs: seq<seq<Byte>>, pos: nat, end: nat, text: seq<Byte>, layout: Layout)
    requires RoomForText(segs, pos, end, text)
    ensures WithText(segs, pos, end, text, layout) != []
    ensures AgreeOutside(segs[0], WithText(segs, pos, end, text, layout)[0], 8 * pos, 8 * pos + 8)
  {
    TextShape(segs, pos, end, text, layout);
    var more := if layout.OneSegment? then TextBytes(text) else [];
    PatchReads(segs[0], 8 * pos, WordBytes(TextLink(segs, pos, end, text, layout)), more);
  }

  lemma TextFieldIs(segs: seq<seq<Byte>>, r: StructReader, index: nat)
    requires ReaderFits(segs, r) && index < r.pointerWords
    ensures TextField(segs, r, index) == TextBehind(segs, r.segment, r.start + r.dataWords + index)
  {
  }

  /** The part of a struct from its pointer field `index` on, and what is overwritten when it is linked. */
  lemma PointerOverwritten(segs: seq<seq<Byte>>, after: seq<seq<Byte>>, r: StructReader, index: nat, pos: nat)
    requires ReaderFits(segs, r) && r.segment == 0 && index < r.pointerWords && after != []
    requires pos == r.start + r.dataWords + index && AgreeOutside(segs[0], after[0], 8 * pos, 8 * pos + 8)
    ensures ReaderFits(after, r)
    ensures KeepsOtherFields(segs, after, r, 8 * (r.dataWords + index), 8 * (r.dataWords + index) + 8)
  {
    OtherFieldsKept(segs, after, r, 8 * (r.dataWords + index), 8 * (r.dataWords + index) + 8);
  }

  /** After a text setter the text getter reads what was set, wherever it was allocated, and the data
      section and every other pointer read as before. */
  lemma GettersAfterText(segs: seq<seq<Byte>>, r: StructReader, index: nat, pos: nat, end: nat, text: seq<Byte>, layout: Layout)
    requires ReaderFits(segs, r) && r.segment == 0 && index < r.pointerWords
    requires pos == r.start + r.dataWords + index && RoomForText(segs, pos, end, text)
    ensures var after := WithText(segs, pos, end, text, layout);
            && ReaderFits(after, r)
            && TextField(after, r, index) == Ok(text)
            && KeepsOtherFields(segs, after, r, 8 * (r.dataWords + index), 8 * (r.dataWords + index) + 8)
  {
    var after := WithText(segs, pos, end, text, layout);
    TextOverwrites(segs, pos, end, text, layout);
    PointerOverwritten(segs, after, r, index, pos);
    TextReads(segs, pos, end, text, layout);
    TextFieldIs(after, r, index);
  }

  /** Allocates the text in the segment in use, or in a new one behind a far pointer. */
  method LinkText(segs: seq<seq<Byte>>, pos: nat, end: nat, text: seq<Byte>, layout: Layout)
    returns (after: seq<seq<Byte>>)
    requires RoomForText(segs, pos, end, text)
    ensures after == WithText(segs, pos, end, text, layout)
  {
    var linked := Patch(segs[0], 8 * pos, WordBytes(TextLink(segs, pos, end, text, layout)));
    match layout {
      case OneSegment =>
        after := segs[0 := linked + TextBytes(text)];
      case TwoSegments =>
        after := segs[0 := linked] + [TextPart(text)];
    }
  }

  class Builder {
    var segments: seq<seq<Byte>>
    /** Words in use in the first segment. */
    var words: nat
    const dataWords: U16
    const pointerWords: U16

    ghost predicate Valid()
      reads this
    {
      segments != [] && |segments[0]| == 8 * words && ReaderFits(segments, Root())
    }

    /** The struct behind the root pointer. */
    function Root(): StructReader {
      StructReader(0, 1, dataWords, pointerWords)
    }

    constructor InitRoot(dataWords: U16, pointerWords: U16)
      ensures Valid() && this.dataWords == dataWords && this.pointerWords == pointerWords
      ensures words == 1 + dataWords + pointerWords
      ensures segments == [WordBytes(RootPointer(dataWords, pointerWords)) + Zeros(8 * (dataWords + pointerWords))]
    {
      this.dataWords, this.pointerWords := dataWords, pointerWords;
      words := 1 + dataWords + pointerWords;
      segments := [WordBytes(RootPointer(dataWords, pointerWords)) + Zeros(8 * (dataWords + pointerWords))];
    }

    method SetU32(slot: nat, value: U32)
      requires Valid() && 4 * slot + 4 <= 8 * dataWords
      modifies this`segments
      ensures Valid()
      ensures segments == old(segments)[0 := Patch(old(segments[0]), 8 + 4 * slot, LE32(value))]
      ensures U32Field(segments, Root(), slot) == value
      ensures KeepsOtherFields(old(segments), segments, Root(), 4 * slot, 4 * slot + 4)
    {
      GettersAfterU32(segments, Root(), slot, value);
      segments := segments[0 := Patch(segments[0], 8 + 4 * slot, LE32(value))];
    }

    method SetU16(slot: nat, value: U16)
      requires Valid() && 2 * slot + 2 <= 8 * dataWords
      modifies this`segments
      ensures Valid()
      ensures segments == old(segments)[0 := Patch(old(segments[0]), 8 + 2 * slot, LE16(value))]
      ensures U16Field(segments, Root(), slot) == value
      ensures KeepsOtherFields(old(segments), segments, Root(), 2 * slot, 2 * slot + 2)
    {
      GettersAfterU16(segments, Root(), slot, value);
      segments := segments[0 := Patch(segments[0], 8 + 2 * slot, LE16(value))];
    }

    method SetText(index: nat, text: seq<Byte>, layout: Layout)
      requires Valid() && index < pointerWords
      requires |text| <= MAX_URI && words < 0x2000_0000 && |segments| < U32_SIZE
      modifies this
      ensures Valid()
      ensures segments == WithText(old(segments), 1 + dataWords + index, old(words), text, layout)
      ensures TextField(segments, Root(), index) == Ok(text)
      ensures KeepsOtherFields(old(segments), segments, Root(), 8 * (dataWords + index), 8 * (dataWords + index) + 8)
    {
      var pos := 1 + dataWords + index;
      GettersAfterText(segments, Root(), index, pos, words, text, layout);
      TextShape(segments, pos, words, text, layout);
      segments := LinkText(segments, pos, words, text, layout);
      words := words + if layout.OneSegment? then TextWords(|text|) else 0;
    }
  }

  lemma PatchMiddle(a: seq<Byte>, b: seq<Byte>, c: seq<Byte>, d: seq<Byte>)
    requires |b| == |c|
    ensures Patch(a + b + d, |a|, c) == a + c + d
  {
  }

  /** Filling the two data fields of a fresh one-word struct yields its data word. */
  lemma DataWordInPlace(head: seq<Byte>, id: U32, code: U16, after: seq<Byte>)
    requires |head| == 8
    ensures Patch(Patch(head + Zeros(8) + after, 8, LE32(id)), 12, LE16(code)) == head + DataWord(id, code) + after
  {
    var seg := head + Zeros(8) + after;
    assert Patch(seg, 8, LE32(id)) == head + (LE32(id) + Zeros(4)) + after;
  }

  lemma FreshSections(head: seq<Byte>)
    ensures head + Zeros(16) == head + Zeros(8) + Zeros(8) && head + Zeros(8) == head + Zeros(8) + []
  {
    assert Zeros(16) == Zeros(8) + Zeros(8);
  }

  /** Linking the text of a struct with one data word and one pointer completes a request message. */
  lemma LinkedRequest(id: U32, code: U16, text: seq<Byte>, layout: Layout)
    requires |text| <= MAX_URI
    requires RoomForText([FixedPart(id, code) + Zeros(8)], 2, 3, text)
    ensures WithText([FixedPart(id, code) + Zeros(8)], 2, 3, text, layout) == RawSegments(id, code, text, layout)
  {
    var fixed := FixedPart(id, code);
    var link := WordBytes(TextLink([fixed + Zeros(8)], 2, 3, text, layout));
    EmptyRight(fixed + Zeros(8));
    EmptyRight(fixed + link);
    PatchMiddle(fixed, Zeros(8), link, []);
    Assoc(fixed, link, TextBytes(text));
  }

  /** The setter calls of send_request leave exactly the segments of the encoding. */
  method BuildRequest(req: Request, layout: Layout) returns (segments: seq<seq<Byte>>)
    requires Encodable(req)
    ensures segments == RequestSegments(req, layout)
  {
    var request := new Builder.InitRoot(1, 1);
    ghost var head := WordBytes(RootPointer(1, 1));
    FreshSections(head);
    request.SetU32(0, req.id);
    request.SetU16(2, ActionCode(req.action));
    DataWordInPlace(head, req.id, ActionCode(req.action), Zeros(8));
    LinkedRequest(req.id, ActionCode(req.action), req.uri, layout);
    request.SetText(0, req.uri, layout);
    segments := request.segments;
  }

  method BuildResponse(res: Response) returns (segments: seq<seq<Byte>>)
    ensures segments == ResponseSegments(res)
  {
    var response := new Builder.InitRoot(1, 0);
    ghost var head := WordBytes(RootPointer(1, 0));
    FreshSections(head);
    response.SetU32(0, res.id);
    response.SetU16(2, StatusCode(res.status));
    DataWordInPlace(head, res.id, StatusCode(res.status), []);
    EmptyRight(head + DataWord(res.id, StatusCode(res.status)));
    segments := response.segments;
  }
}
