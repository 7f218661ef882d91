/** Bytes, fixed-width little-endian integers, and byte-string plumbing. */
module Bytes {

  newtype Byte = x: int | 0 <= x < 0x100

  type U16 = x: int | 0 <= x < 0x1_0000

  type U32 = x: int | 0 <= x < U32_SIZE

  const U32_SIZE: nat := 0x1_0000_0000

  function LE16(x: U16): (b: seq<Byte>)
    ensures |b| == 2
  {
    [(x % 0x100) as Byte, (x / 0x100) as Byte]
  }

  function FromLE16(b: seq<Byte>): U16
    requires |b| == 2
  {
    b[0] as int + 0x100 * b[1] as int
  }

  function LE32(x: U32): (b: seq<Byte>)
    ensures |b| == 4
  {
    LE16(x % 0x1_0000) + LE16(x / 0x1_0000)
  }

  function FromLE32(b: seq<Byte>): U32
    requires |b| == 4
  {
    FromLE16(b[..2]) + 0x1_0000 * FromLE16(b[2..])
  }

  // ---------- byte order ----------

  /** The k-th byte has weight 0x100 to the k, in both directions and both widths. */
  lemma LE16Value(x: U16)
    ensures LE16(x)[0] as int + 0x100 * LE16(x)[1] as int == x
  {
  }

  lemma FromLE16Value(b: seq<Byte>)
    requires |b| == 2
    ensures FromLE16(b) == b[0] as int + 0x100 * b[1] as int
  {
  }

  lemma LE32Value(x: U32)
    ensures LE32(x)[0] as int + 0x100 * LE32(x)[1] as int
            + 0x1_0000 * LE32(x)[2] as int + 0x100_0000 * LE32(x)[3] as int == x
  {
    LE16Value(x % 0x1_0000);
    LE16Value(x / 0x1_0000);
    assert LE32(x)[..2] == LE16(x % 0x1_0000) && LE32(x)[2..] == LE16(x / 0x1_0000);
  }

  lemma FromLE32Value(b: seq<Byte>)
    requires |b| == 4
    ensures FromLE32(b) == b[0] as int + 0x100 * b[1] as int + 0x1_0000 * b[2] as int + 0x100_0000 * b[3] as int
  {
    FromLE16Value(b[..2]);
    FromLE16Value(b[2..]);
  }

  /** The four bytes of a number, least significant first. */
  function Octets(x: U32): seq<Byte> {
    [(x % 0x100) as Byte, (x / 0x100 % 0x100) as Byte, (x / 0x1_0000 % 0x100) as Byte, (x / 0x100_0000) as Byte]
  }

  lemma LowDigit(rest: nat, digit: nat)
    requires digit < 0x100
    ensures (digit + 0x100 * rest) % 0x100 == digit && (digit + 0x100 * rest) / 0x100 == rest
  {
  }

  lemma DivTwice(x: nat)
    ensures x / 0x100 / 0x100 == x / 0x1_0000 && x / 0x1_0000 / 0x100 == x / 0x100_0000
  {
  }

  /** A value has only one base-0x100 expansion. */
  lemma LE32Octets(x: U32)
    ensures LE32(x) == Octets(x)
  {
    LE32Value(x);
    var b := LE32(x);
    var d0: nat, d1: nat, d2: nat, d3: nat := b[0] as int, b[1] as int, b[2] as int, b[3] as int;
    LowDigit(d1 + 0x100 * (d2 + 0x100 * d3), d0);
    LowDigit(d2 + 0x100 * d3, d1);
    LowDigit(d3, d2);
    DivTwice(x);
  }

  lemma LE16RoundTrip(x: U16)
    ensures FromLE16(LE16(x)) == x
  {
  }

  lemma LE32RoundTrip(x: U32)
    ensures FromLE32(LE32(x)) == x
  {
    LE16RoundTrip(x % 0x1_0000);
    LE16RoundTrip(x / 0x1_0000);
    assert LE32(x)[..2] == LE16(x % 0x1_0000);
    assert LE32(x)[2..] == LE16(x / 0x1_0000);
  }

  /** Every 4-byte string is the little-endian form of the number it reads as. */
  lemma FromLE32RoundTrip(b: seq<Byte>)
    requires |b| == 4
    ensures LE32(FromLE32(b)) == b
  {
    var low, high := FromLE16(b[..2]), FromLE16(b[2..]);
    assert FromLE32(b) % 0x1_0000 == low && FromLE32(b) / 0x1_0000 == high;
    assert LE16(low) == b[..2];
    assert LE16(high) == b[2..];
    assert b == b[..2] + b[2..];
  }

  /** What a 4-byte read finds in front of arbitrary further bytes. */
  lemma LE32Prefix(x: U32, rest: seq<Byte>)
    ensures (LE32(x) + rest)[..4] == LE32(x)
    ensures FromLE32((LE32(x) + rest)[..4]) == x
    ensures (LE32(x) + rest)[4..] == rest
  {
    assert (LE32(x) + rest)[..4] == LE32(x);
    LE32RoundTrip(x);
  }

  function Zeros(n: nat): (z: seq<Byte>)
    ensures |z| == n
  {
    seq(n, _ => 0)
  }

  // ---------- sequence plumbing ----------

  lemma Assoc<T>(a: seq<T>, b: seq<T>, c: seq<T>)
    ensures a + b + c == a + (b + c)
  {
  }

  lemma Cut<T>(s: seq<T>, n: nat)
    requires n <= |s|
    ensures s == s[..n] + s[n..]
  {
  }

  lemma EmptyRight<T>(s: seq<T>)
    ensures s + [] == s
  {
  }

  lemma EmptyLeft<T>(s: seq<T>)
    ensures [] + s == s
  {
  }

  lemma TakeDropAppend<T>(a: seq<T>, n: nat, b: seq<T>)
    requires n <= |a|
    ensures (a + b)[..n] == a[..n]
    ensures (a + b)[n..] == a[n..] + b
  {
  }

  function Flatten(chunks: seq<seq<Byte>>): seq<Byte>
  {
    if chunks == [] then [] else chunks[0] + Flatten(chunks[1..])
  }

  lemma {:induction false} FlattenAppend(a: seq<seq<Byte>>, b: seq<seq<Byte>>)
    ensures Flatten(a + b) == Flatten(a) + Flatten(b)
  {
    if a == [] {
      assert a + b == b;
    } else {
      assert (a + b)[1..] == a[1..] + b;
      FlattenAppend(a[1..], b);
    }
  }

  lemma FlattenSnoc(a: seq<seq<Byte>>, c: seq<Byte>)
    ensures Flatten(a + [c]) == Flatten(a) + c
  {
    FlattenAppend(a, [c]);
    assert Flatten([c]) == c;
  }
}
