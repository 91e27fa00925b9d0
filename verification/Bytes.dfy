/** Bytes, optional values and the position facts every codec in this project rests on. */
module Bytes {
  type byte = b: int | 0 <= b < 256
  type bytes = seq<byte>
  type u32 = n: nat | n < 0x1_0000_0000

  datatype Option<+T> = None | Some(value: T)

  function Min(a: nat, b: nat): (m: nat)
    ensures m <= a && m <= b
  {
    if a < b then a else b
  }

  /** The bytes of an ASCII text. */
  function Chars(s: string): (r: bytes)
    ensures |r| == |s|
  {
    seq(|s|, i requires 0 <= i < |s| => s[i] as int % 128)
  }

  /** `s` occurs in `c` at offset `off`. */
  predicate At(c: bytes, off: nat, s: bytes) {
    off + |s| <= |c| && c[off..off + |s|] == s
  }

  lemma AtIndex(c: bytes, off: nat, s: bytes, k: nat)
    requires At(c, off, s) && k < |s|
    ensures off + k < |c| && c[off + k] == s[k]
  {
    assert c[off..off + |s|][k] == c[off + k];
  }

  lemma AtAll(c: bytes, off: nat, s: bytes)
    requires At(c, off, s)
    ensures off + |s| <= |c|
    ensures forall j {:trigger c[j]} :: off <= j < off + |s| ==> c[j] == s[j - off]
  {
    forall j | off <= j < off + |s| ensures c[j] == s[j - off] {
      AtIndex(c, off, s, j - off);
    }
  }

  lemma AtConcat(c: bytes, off: nat, a: bytes, b: bytes)
    ensures At(c, off, a + b) <==> At(c, off, a) && At(c, off + |a|, b)
  {
    if At(c, off, a + b) {
      assert a == (a + b)[..|a|] == c[off..off + |a|];
      assert b == (a + b)[|a|..] == c[off + |a|..off + |a| + |b|];
    }
    if At(c, off, a) && At(c, off + |a|, b) {
      assert c[off..off + |a| + |b|] == c[off..off + |a|] + c[off + |a|..off + |a| + |b|];
    }
  }

  lemma Associate(a: bytes, b: bytes, c: bytes)
    ensures a + (b + c) == a + b + c
  {}

  /** A C string ends before the first zero byte. */
  function CStr(s: bytes): (r: bytes)
    ensures r <= s && 0 !in r
    ensures |r| < |s| ==> s[|r|] == 0
  {
    if s == [] || s[0] == 0 then [] else [s[0]] + CStr(s[1..])
  }

  lemma {:induction false} CStrOfClean(s: bytes)
    requires 0 !in s
    ensures CStr(s) == s
  {
    if s != [] {
      assert s[0] in s && forall b :: b in s[1..] ==> b in s;
      CStrOfClean(s[1..]);
    }
  }

  /** The little-endian fields of the worker protocol, cut to their width as C's casts do. */
  function U16Bytes(v: nat): (s: bytes)
    ensures |s| == 2
  {
    [v % 256, v / 256 % 256]
  }

  function U32Bytes(v: nat): (s: bytes)
    ensures |s| == 4
  {
    [v % 256, v / 256 % 256, v / 65536 % 256, v / 16777216 % 256]
  }

  function U16At(s: bytes, i: nat): (r: nat)
    requires i + 2 <= |s|
  {
    (s[i] as int) + 256 * (s[i + 1] as int)
  }

  function U32At(s: bytes, i: nat): (r: nat)
    requires i + 4 <= |s|
  {
    (s[i] as int) + 256 * (s[i + 1] as int) + 65536 * (s[i + 2] as int) + 16777216 * (s[i + 3] as int)
  }

  /** Reading a field back gives the value modulo the width of the field. */
  lemma U16RoundTrip(v: nat)
    ensures U16At(U16Bytes(v), 0) == v % 0x1_0000
  {
    var a := v / 256;
    assert v == 256 * a + v % 256;
    assert a == 256 * (a / 256) + a % 256;
  }

  lemma U32RoundTrip(v: nat)
    ensures U32At(U32Bytes(v), 0) == v % 0x1_0000_0000
  {
    var a := v / 256;
    var b := a / 256;
    var d := b / 256;
    Quotients(v);
    U32Digits(v, a, b, d, d / 256);
  }

  lemma Quotients(v: nat)
    ensures v / 65536 == v / 256 / 256
    ensures v / 16777216 == v / 256 / 256 / 256
  {}

  lemma U32Digits(v: nat, a: nat, b: nat, d: nat, e: nat)
    requires v / 256 == a && a / 256 == b && b / 256 == d && d / 256 == e
    ensures v % 256 + 256 * (a % 256) + 65536 * (b % 256) + 16777216 * (d % 256) == v % 0x1_0000_0000
  {
    var r := v % 256 + 256 * (a % 256) + 65536 * (b % 256) + 16777216 * (d % 256);
    assert v == 256 * a + v % 256;
    assert a == 256 * b + a % 256;
    assert b == 256 * d + b % 256;
    assert d == 256 * e + d % 256;
    Remainder(v, e, r);
  }

  lemma Remainder(v: nat, e: nat, r: nat)
    requires v == 0x1_0000_0000 * e + r && r < 0x1_0000_0000
    ensures v % 0x1_0000_0000 == r
  {}
}
