/** Variable-length integers (section 16 of RFC 9000). */
module Varints {
  import opened Basics

  const MAX_VALUE: nat := 0x3FFF_FFFF_FFFF_FFFF

  /** The number of values that `n` bytes can hold beside the two bits of the length. */
  function Capacity(n: nat): (c: nat)
  {
    if n == 1 then 64 else if n == 2 then 16384 else if n == 4 then 1073741824 else 4611686018427387904
  }

  /** The length of the encoding of `v`, and the two bits that announce it. */
  function Length(v: nat): (n: nat)
    ensures n == 1 || n == 2 || n == 4 || n == 8
    ensures v <= MAX_VALUE ==> v < Capacity(n)
  {
    if v < 64 then 1 else if v < 16384 then 2 else if v < 1073741824 then 4 else 8
  }

  function Prefix(n: nat): (p: nat)
    ensures p < 4
  {
    if n == 1 then 0 else if n == 2 then 1 else if n == 4 then 2 else 3
  }

  function BigEndian(v: nat, n: nat): (s: seq<Byte>)
    ensures |s| == n
  {
    if n == 0 then [] else BigEndian(v / 256, n - 1) + [v % 256]
  }

  function FromBigEndian(s: seq<Byte>): (v: nat)
  {
    if s == [] then 0 else FromBigEndian(s[..|s| - 1]) * 256 + s[|s| - 1]
  }

  function Pow256(n: nat): (p: nat)
    ensures p > 0
  {
    if n == 0 then 1 else 256 * Pow256(n - 1)
  }

  lemma {:induction false} BigEndianBack(v: nat, n: nat)
    requires v < Pow256(n)
    ensures FromBigEndian(BigEndian(v, n)) == v
  {
    if n > 0 {
      BigEndianBack(v / 256, n - 1);
      var s := BigEndian(v, n);
      assert s[..|s| - 1] == BigEndian(v / 256, n - 1);
    }
  }

  /** The first byte has the most significant digit. */
  lemma {:induction false} FirstByte(v: nat, n: nat, lo: nat, hi: nat)
    requires n > 0 && lo * Pow256(n - 1) <= v < hi * Pow256(n - 1) && hi <= 256
    ensures lo <= BigEndian(v, n)[0] < hi
  {
    if n == 1 {
      assert BigEndian(v / 256, 0) == [];
    } else {
      var q := Pow256(n - 2);
      assert lo * (256 * q) == 256 * (lo * q) && hi * (256 * q) == 256 * (hi * q);
      FirstByte(v / 256, n - 1, lo, hi);
    }
  }

  function EncodeV(v: nat): (s: seq<Byte>)
  {
    var n := Length(v);
    BigEndian(v + Prefix(n) * Capacity(n), n)
  }

  /** The value at the front of `src` and what follows it; none if `src` is cut short. */
  function DecodeV(src: seq<Byte>): (r: Option<(nat, seq<Byte>)>)
    ensures r.Some? ==> |r.value.1| < |src|
  {
    if src == [] then None
    else
      var p := src[0] / 64;
      var n := if p == 0 then 1 else if p == 1 then 2 else if p == 2 then 4 else 8;
      if |src| < n then None
      else
        var x := FromBigEndian(src[..n]);
        Some((if x >= p * Capacity(n) then x - p * Capacity(n) else 0, src[n..]))
  }

  lemma CapacityIs(n: nat)
    requires n == 1 || n == 2 || n == 4 || n == 8
    ensures Capacity(n) == 64 * Pow256(n - 1) && 4 * Capacity(n) == Pow256(n)
  {
    assert Pow256(1) == 256 && Pow256(2) == 65536 && Pow256(3) == 16777216 && Pow256(4) == 4294967296;
    assert Pow256(5) == 256 * Pow256(4) && Pow256(6) == 256 * Pow256(5);
    assert Pow256(7) == 256 * Pow256(6) && Pow256(8) == 256 * Pow256(7);
  }

  lemma FirstByteOf(v: nat, n: nat)
    requires (n == 1 || n == 2 || n == 4 || n == 8) && v < Capacity(n)
    ensures var x := v + Prefix(n) * Capacity(n); x < Pow256(n) && BigEndian(x, n)[0] / 64 == Prefix(n)
  {
    CapacityIs(n);
    var p := Prefix(n);
    FirstByte(v + p * Capacity(n), n, p * 64, p * 64 + 64);
  }

  lemma VarintRoundTrip(v: nat, rest: seq<Byte>)
    requires v <= MAX_VALUE
    ensures DecodeV(EncodeV(v) + rest) == Some((v, rest))
  {
    var n := Length(v);
    var x := v + Prefix(n) * Capacity(n);
    FirstByteOf(v, n);
    BigEndianBack(x, n);
    var src := EncodeV(v) + rest;
    assert src[..n] == EncodeV(v) && src[n..] == rest && src[0] == EncodeV(v)[0];
  }

  /** The shortest encoding is used, and the two topmost bits of the first byte tell its length. */
  lemma VarintFormat(v: nat)
    requires v <= MAX_VALUE
    ensures |EncodeV(v)| == if v < 64 then 1 else if v < 16384 then 2 else if v < 1073741824 then 4 else 8
    ensures EncodeV(v)[0] / 64 == if v < 64 then 0 else if v < 16384 then 1 else if v < 1073741824 then 2 else 3
  {
    hide BigEndian;
    FirstByteOf(v, Length(v));
  }

  /** The examples of appendix A.1 of RFC 9000. */
  lemma VarintExamples()
    ensures EncodeV(37) == [0x25] && EncodeV(15293) == [0x7b, 0xbd] && EncodeV(494878333) == [0x9d, 0x7f, 0x3e, 0x7d]
    ensures EncodeV(151288809941952652) == [0xc2, 0x19, 0x7c, 0x5e, 0xff, 0x14, 0xe8, 0x8c]
  {
    FourBytes(494878333 + 2 * 1073741824, 0x9d, 0x7f, 0x3e, 0x7d);
    EightBytes(151288809941952652 + 3 * 4611686018427387904, 0xc2197c5e, 0xff, 0x14, 0xe8, 0x8c);
    FourBytes(0xc2197c5e, 0xc2, 0x19, 0x7c, 0x5e);
    assert BigEndian(15293 + 16384, 2) == BigEndian(0x7b, 1) + [0xbd];
    assert BigEndian(0x7b, 1) == BigEndian(0, 0) + [0x7b];
    assert BigEndian(37, 1) == BigEndian(0, 0) + [37];
  }

  lemma FourBytes(v: nat, a: Byte, b: Byte, c: Byte, d: Byte)
    requires v == ((a * 256 + b) * 256 + c) * 256 + d
    ensures BigEndian(v, 4) == [a, b, c, d]
  {
    assert BigEndian(a, 1) == BigEndian(a / 256, 0) + [a];
    assert BigEndian(a * 256 + b, 2) == BigEndian(a, 1) + [b];
    assert BigEndian((a * 256 + b) * 256 + c, 3) == BigEndian(a * 256 + b, 2) + [c];
  }

  lemma EightBytes(v: nat, top: nat, a: Byte, b: Byte, c: Byte, d: Byte)
    requires v == (((top * 256 + a) * 256 + b) * 256 + c) * 256 + d
    ensures BigEndian(v, 8) == BigEndian(top, 4) + [a, b, c, d]
  {
    assert BigEndian(top * 256 + a, 5) == BigEndian(top, 4) + [a];
    assert BigEndian((top * 256 + a) * 256 + b, 6) == BigEndian(top * 256 + a, 5) + [b];
    assert BigEndian(((top * 256 + a) * 256 + b) * 256 + c, 7) == BigEndian((top * 256 + a) * 256 + b, 6) + [c];
  }
}
