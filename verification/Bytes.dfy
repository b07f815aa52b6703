/**
 Bytes, fixed-width unsigned integers and the big/little-endian codecs of
 `BytesReader` and `BytesWriter`.

 Shifts and masks of the source are written as division, remainder and
 multiplication by powers of two.
 */
module Bytes {

  type Byte = x: int | 0 <= x < 256

  type U32 = x: int | 0 <= x < 0x1_0000_0000

  type Octets = seq<Byte>

  function Min(a: int, b: int): int {
    if a <= b then a else b
  }

  // ----- BytesReader: read at offset `at` -----

  function ReadU24BE(p: Octets, at: nat): (r: U32)
    requires at + 3 <= |p|
    ensures r <= 0xFFFFFF
  {
    p[at] as int * 0x1_0000 + p[at + 1] as int * 0x100 + p[at + 2] as int
  }

  function ReadU32BE(p: Octets, at: nat): U32
    requires at + 4 <= |p|
  {
    p[at] as int * 0x100_0000 + p[at + 1] as int * 0x1_0000 + p[at + 2] as int * 0x100 + p[at + 3] as int
  }

  function ReadU32LE(p: Octets, at: nat): U32
    requires at + 4 <= |p|
  {
    p[at] as int + p[at + 1] as int * 0x100 + p[at + 2] as int * 0x1_0000 + p[at + 3] as int * 0x100_0000
  }

  // ----- The bytes BytesWriter stores -----

  /** The low 24 bits of `v`, most significant byte first. */
  function U24BE(v: U32): (r: Octets)
    ensures |r| == 3
  {
    [v / 0x1_0000 % 0x100, v / 0x100 % 0x100, v % 0x100]
  }

  function U32BE(v: U32): (r: Octets)
    ensures |r| == 4
  {
    [v / 0x100_0000 % 0x100, v / 0x1_0000 % 0x100, v / 0x100 % 0x100, v % 0x100]
  }

  function U32LE(v: U32): (r: Octets)
    ensures |r| == 4
  {
    [v % 0x100, v / 0x100 % 0x100, v / 0x1_0000 % 0x100, v / 0x100_0000 % 0x100]
  }

  /** A 24-bit field read back from wherever it stands in a packet: the low 24 bits survive. */
  lemma ReadWrittenU24(p: Octets, at: nat, v: U32)
    requires at + 3 <= |p| && p[at..at + 3] == U24BE(v)
    ensures ReadU24BE(p, at) == v % 0x100_0000
  {
    var w := p[at..at + 3];
    assert p[at] == w[0] && p[at + 1] == w[1] && p[at + 2] == w[2];
    LowDigits(v);
  }

  lemma TopDigit(v: U32)
    ensures v / 0x100_0000 % 0x100 == v / 0x100_0000
    ensures v == (v / 0x100_0000) * 0x100_0000 + v % 0x100_0000
  {
  }

  /** The three low base-256 digits of `v` make up its remainder modulo 2^24. */
  lemma LowDigits(v: U32)
    ensures (v / 0x1_0000 % 0x100) * 0x1_0000 + (v / 0x100 % 0x100) * 0x100 + v % 0x100 == v % 0x100_0000
  {
    var q1, a := v / 0x100, v % 0x100;
    var q2, b := q1 / 0x100, q1 % 0x100;
    var q3, c := q2 / 0x100, q2 % 0x100;
    assert v == q2 * 0x1_0000 + (b * 0x100 + a) && 0 <= b * 0x100 + a < 0x1_0000;
    assert v / 0x1_0000 == q2;
    assert v == q3 * 0x100_0000 + (c * 0x1_0000 + b * 0x100 + a);
    assert v % 0x100_0000 == c * 0x1_0000 + b * 0x100 + a;
  }

  lemma ReadWrittenU32(p: Octets, at: nat, v: U32)
    requires at + 4 <= |p| && p[at..at + 4] == U32BE(v)
    ensures ReadU32BE(p, at) == v
  {
    var w := p[at..at + 4];
    assert p[at] == w[0] && p[at + 1] == w[1] && p[at + 2] == w[2] && p[at + 3] == w[3];
    LowDigits(v);
    TopDigit(v);
  }

  lemma ReadWrittenU32LE(p: Octets, at: nat, v: U32)
    requires at + 4 <= |p| && p[at..at + 4] == U32LE(v)
    ensures ReadU32LE(p, at) == v
  {
    var w := p[at..at + 4];
    assert p[at] == w[0] && p[at + 1] == w[1] && p[at + 2] == w[2] && p[at + 3] == w[3];
    LowDigits(v);
    TopDigit(v);
  }

  /** The 32 bits of `v` most significant byte first, least significant byte first, and the low 24 of them. */
  lemma ByteOrder(v: U32)
    ensures var b := U32BE(v); U32LE(v) == [b[3], b[2], b[1], b[0]] && U24BE(v) == [b[1], b[2], b[3]]
    ensures U32BE(0x01020304) == [1, 2, 3, 4]
  {
  }

  // ----- BytesWriter: stores in place -----

  method WriteUint16BE(p: array<Byte>, at: nat, v: U32)
    requires at + 2 <= p.Length
    modifies p
    ensures p[..] == old(p[..at]) + U32BE(v)[2..] + old(p[at + 2..])
  {
    p[at], p[at + 1] := v / 0x100 % 0x100, v % 0x100;
  }

  method WriteUint24BE(p: array<Byte>, at: nat, v: U32)
    requires at + 3 <= p.Length
    modifies p
    ensures p[..] == old(p[..at]) + U24BE(v) + old(p[at + 3..])
  {
    p[at], p[at + 1], p[at + 2] := v / 0x1_0000 % 0x100, v / 0x100 % 0x100, v % 0x100;
  }

  method WriteUint32BE(p: array<Byte>, at: nat, v: U32)
    requires at + 4 <= p.Length
    modifies p
    ensures p[..] == old(p[..at]) + U32BE(v) + old(p[at + 4..])
  {
    p[at], p[at + 1] := v / 0x100_0000 % 0x100, v / 0x1_0000 % 0x100;
    p[at + 2], p[at + 3] := v / 0x100 % 0x100, v % 0x100;
  }

  method WriteUint32LE(p: array<Byte>, at: nat, v: U32)
    requires at + 4 <= p.Length
    modifies p
    ensures p[..] == old(p[..at]) + U32LE(v) + old(p[at + 4..])
  {
    p[at], p[at + 1] := v % 0x100, v / 0x100 % 0x100;
    p[at + 2], p[at + 3] := v / 0x1_0000 % 0x100, v / 0x100_0000 % 0x100;
  }

  // ----- Slices and concatenation -----

  lemma SliceOfSlice(s: Octets, a: nat, b: nat, c: nat, d: nat)
    requires a <= b <= |s| && c <= d <= b - a
    ensures s[a..b][c..d] == s[a + c..a + d]
  {
    forall i | 0 <= i < d - c
      ensures s[a..b][c..d][i] == s[a + c..a + d][i]
    {
      assert s[a..b][c..d][i] == s[a..b][c + i] == s[a + c + i];
    }
  }

  function Concat(pieces: seq<Octets>): Octets {
    if pieces == [] then [] else pieces[0] + Concat(pieces[1..])
  }

  lemma ConcatOne(a: Octets)
    ensures Concat([a]) == a
  {
    assert Concat([a][1..]) == [];
  }
}
