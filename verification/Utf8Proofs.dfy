/** Well-formed byte strings are exactly the encodings of Unicode scalar values. */
module Utf8Proofs {
  import opened Bytes
  import opened Utf8

  /** A Unicode scalar value: a code point that is not a surrogate. */
  type Scalar = c: int | 0 <= c < 0xD800 || 0xE000 <= c < 0x11_0000

  function Tail(bits: int): Byte
    requires 0 <= bits < 0x40
  {
    (0x80 + bits) as Byte
  }

  function EncodeScalar(c: Scalar): (b: seq<Byte>)
    ensures 1 <= |b| <= 4
  {
    if c < 0x80 then [c as Byte]
    else if c < 0x800 then [(0xC0 + c / 0x40) as Byte, Tail(c % 0x40)]
    else if c < 0x1_0000 then [(0xE0 + c / 0x1000) as Byte, Tail(c / 0x40 % 0x40), Tail(c % 0x40)]
    else [(0xF0 + c / 0x4_0000) as Byte, Tail(c / 0x1000 % 0x40), Tail(c / 0x40 % 0x40), Tail(c % 0x40)]
  }

  function Encode(cs: seq<Scalar>): seq<Byte> {
    if cs == [] then [] else EncodeScalar(cs[0]) + Encode(cs[1..])
  }

  lemma ScalarRecognised(c: Scalar, rest: seq<Byte>)
    ensures ScalarLength(EncodeScalar(c) + rest) == |EncodeScalar(c)|
  {
    if c < 0x800 {
      ShortRecognised(c, rest);
    } else if c < 0x1_0000 {
      ThreeRecognised(c, rest);
    } else {
      FourRecognised(c, rest);
    }
  }

  lemma ShortRecognised(c: Scalar, rest: seq<Byte>)
    requires c < 0x800
    ensures ScalarLength(EncodeScalar(c) + rest) == |EncodeScalar(c)|
  {
    var e := EncodeScalar(c);
    assert (e + rest)[0] == e[0] && (|e| > 1 ==> (e + rest)[1] == e[1]);
  }

  lemma ThreeRecognised(c: Scalar, rest: seq<Byte>)
    requires 0x800 <= c < 0x1_0000
    ensures ScalarLength(EncodeScalar(c) + rest) == |EncodeScalar(c)|
  {
    var e := EncodeScalar(c);
    assert (e + rest)[0] == e[0] && (e + rest)[1] == e[1] && (e + rest)[2] == e[2];
  }

  lemma FourRecognised(c: Scalar, rest: seq<Byte>)
    requires c >= 0x1_0000
    ensures ScalarLength(EncodeScalar(c) + rest) == |EncodeScalar(c)|
  {
    var e := EncodeScalar(c);
    assert (e + rest)[0] == e[0] && (e + rest)[1] == e[1] && (e + rest)[2] == e[2] && (e + rest)[3] == e[3];
  }

  /** The code point a recognised front stands for. */
  function ScalarAt(s: seq<Byte>): int
    requires s != [] && ScalarLength(s) > 0
  {
    var n := ScalarLength(s);
    if n == 1 then s[0] as int
    else if n == 2 then 0x40 * (s[0] as int - 0xC0) + (s[1] as int - 0x80)
    else if n == 3 then 0x1000 * (s[0] as int - 0xE0) + 0x40 * (s[1] as int - 0x80) + (s[2] as int - 0x80)
    else 0x4_0000 * (s[0] as int - 0xF0) + 0x1000 * (s[1] as int - 0x80) + 0x40 * (s[2] as int - 0x80)
         + (s[3] as int - 0x80)
  }

  lemma ScalarInRange(s: seq<Byte>)
    requires s != [] && ScalarLength(s) > 0
    ensures var c := ScalarAt(s);
            && (0 <= c < 0xD800 || 0xE000 <= c < 0x11_0000)
            && (ScalarLength(s) == 1 <==> c < 0x80)
            && (ScalarLength(s) == 2 <==> 0x80 <= c < 0x800)
            && (ScalarLength(s) == 3 <==> 0x800 <= c < 0x1_0000)
  {
  }

  lemma Digits2(a: int, b: int)
    requires 0 <= b < 0x40
    ensures (0x40 * a + b) / 0x40 == a && (0x40 * a + b) % 0x40 == b
  {
  }

  lemma Digits3(a: int, b: int, c: int)
    requires 0 <= b < 0x40 && 0 <= c < 0x40
    ensures var x := 0x1000 * a + 0x40 * b + c;
            x / 0x1000 == a && x / 0x40 % 0x40 == b && x % 0x40 == c
  {
    Digits2(0x40 * a + b, c);
    Digits2(a, b);
  }

  lemma Digits4(a: int, b: int, c: int, d: int)
    requires 0 <= b < 0x40 && 0 <= c < 0x40 && 0 <= d < 0x40
    ensures var x := 0x4_0000 * a + 0x1000 * b + 0x40 * c + d;
            x / 0x4_0000 == a && x / 0x1000 % 0x40 == b && x / 0x40 % 0x40 == c && x % 0x40 == d
  {
    Digits3(0x40 * a + b, c, d);
    Digits2(a, b);
  }

  lemma ScalarDecodes(s: seq<Byte>)
    requires s != [] && ScalarLength(s) > 0
    ensures var c := ScalarAt(s);
            (0 <= c < 0xD800 || 0xE000 <= c < 0x11_0000) && EncodeScalar(c) == s[..ScalarLength(s)]
  {
    ScalarInRange(s);
    match ScalarLength(s)
    case 1 =>
    case 2 => Digits2(s[0] as int - 0xC0, s[1] as int - 0x80);
    case 3 => ThreeDecodes(s);
    case _ => FourDecodes(s);
  }

  lemma ThreeDecodes(s: seq<Byte>)
    requires s != [] && ScalarLength(s) == 3
    ensures ScalarAt(s) < 0xD800 || ScalarAt(s) >= 0xE000
    ensures 0x800 <= ScalarAt(s) < 0x1_0000 && EncodeScalar(ScalarAt(s)) == s[..3]
  {
    ScalarInRange(s);
    Digits3(s[0] as int - 0xE0, s[1] as int - 0x80, s[2] as int - 0x80);
  }

  lemma FourDecodes(s: seq<Byte>)
    requires s != [] && ScalarLength(s) == 4
    ensures 0x1_0000 <= ScalarAt(s) < 0x11_0000 && EncodeScalar(ScalarAt(s)) == s[..4]
  {
    ScalarInRange(s);
    Digits4(s[0] as int - 0xF0, s[1] as int - 0x80, s[2] as int - 0x80, s[3] as int - 0x80);
  }

  lemma {:induction false} EncodingsAreValid(cs: seq<Scalar>)
    ensures Valid(Encode(cs))
  {
    if cs != [] {
      var first, rest := EncodeScalar(cs[0]), Encode(cs[1..]);
      ScalarRecognised(cs[0], rest);
      assert (first + rest)[|first|..] == rest;
      EncodingsAreValid(cs[1..]);
    }
  }

  lemma {:induction false} ValidDecodes(s: seq<Byte>) returns (cs: seq<Scalar>)
    requires Valid(s)
    ensures Encode(cs) == s
    decreases |s|
  {
    if s == [] {
      cs := [];
    } else {
      var n := ScalarLength(s);
      ScalarDecodes(s);
      var rest := ValidDecodes(s[n..]);
      cs := [ScalarAt(s)] + rest;
      assert cs[1..] == rest;
      Cut(s, n);
    }
  }

  /** A byte string passes the UTF-8 check if and only if it encodes some sequence of scalar values. */
  lemma ValidIsEncoding(s: seq<Byte>)
    ensures Valid(s) <==> exists cs: seq<Scalar> :: Encode(cs) == s
  {
    if Valid(s) {
      var cs := ValidDecodes(s);
    }
    forall cs: seq<Scalar> | Encode(cs) == s ensures Valid(s) {
      EncodingsAreValid(cs);
    }
  }
}
