/** UTF-8 as RFC 3629 defines it (section 3 for the encoder, section 4 for the decoder). */
module Utf8 {
  import opened Bytes

  type Scalar = cp: nat | cp < 0xD800 || 0xE000 <= cp <= 0x10FFFF

  function Encode(cp: Scalar): (s: bytes)
    ensures 1 <= |s| <= 4
  {
    if cp < 0x80 then [cp]
    else if cp < 0x800 then [0xC0 + cp / 64, 0x80 + cp % 64]
    else if cp < 0x10000 then [0xE0 + cp / 4096, 0x80 + cp / 64 % 64, 0x80 + cp % 64]
    else [0xF0 + cp / 262144, 0x80 + cp / 4096 % 64, 0x80 + cp / 64 % 64, 0x80 + cp % 64]
  }

  predicate IsTail(b: byte) { 0x80 <= b <= 0xBF }

  /** The scalar value at the front of `s` and its length: overlong forms and surrogates are refused. */
  function Decode(s: bytes): (r: Option<(nat, nat)>) {
    if |s| >= 1 && s[0] < 0x80 then Some((s[0], 1))
    else if |s| >= 2 && 0xC2 <= s[0] <= 0xDF && IsTail(s[1]) then
      Some(((s[0] as int - 0xC0) * 64 + (s[1] as int - 0x80), 2))
    else if |s| >= 3 && 0xE0 <= s[0] <= 0xEF && IsTail(s[1]) && IsTail(s[2])
            && (s[0] == 0xE0 ==> s[1] >= 0xA0) && (s[0] == 0xED ==> s[1] <= 0x9F) then
      Some(((s[0] as int - 0xE0) * 4096 + (s[1] as int - 0x80) * 64 + (s[2] as int - 0x80), 3))
    else if |s| >= 4 && 0xF0 <= s[0] <= 0xF4 && IsTail(s[1]) && IsTail(s[2]) && IsTail(s[3])
            && (s[0] == 0xF0 ==> s[1] >= 0x90) && (s[0] == 0xF4 ==> s[1] <= 0x8F) then
      Some(((s[0] as int - 0xF0) * 262144 + (s[1] as int - 0x80) * 4096
            + (s[2] as int - 0x80) * 64 + (s[3] as int - 0x80), 4))
    else None
  }

  /** What the encoder writes, the RFC's decoder reads back, whatever follows it. */
  lemma DecodeOfEncode(cp: Scalar, rest: bytes)
    ensures Decode(Encode(cp) + rest) == Some((cp, |Encode(cp)|))
  {
    var s := Encode(cp) + rest;
    assert s[..|Encode(cp)|] == Encode(cp);
    assert forall i :: 0 <= i < |Encode(cp)| ==> s[i] == Encode(cp)[i];
    SixBitDigits(cp);
  }

  lemma SixBitDigits(cp: nat)
    ensures cp == cp / 64 * 64 + cp % 64
    ensures cp / 64 == cp / 4096 * 64 + cp / 64 % 64
    ensures cp / 4096 == cp / 262144 * 64 + cp / 4096 % 64
  {
    var a := cp / 64;
    var b := a / 64;
    assert b == cp / 4096;
    assert b / 64 == cp / 262144;
  }

  /** A sequence of scalar values, one after the other. */
  function EncodeAll(cps: seq<Scalar>): (r: bytes) {
    if cps == [] then [] else Encode(cps[0]) + EncodeAll(cps[1..])
  }

  /** Known forms, one of each length and the largest: U+0041, U+00E9, U+20AC, U+1F600 and U+10FFFF. */
  lemma KnownForms()
    ensures Encode(0x41) == [0x41]
    ensures Encode(0xE9) == [0xC3, 0xA9]
    ensures Encode(0x20AC) == [0xE2, 0x82, 0xAC]
    ensures Encode(0x1F600) == [0xF0, 0x9F, 0x98, 0x80]
    ensures Encode(0x10FFFF) == [0xF4, 0x8F, 0xBF, 0xBF]
  {}
}
