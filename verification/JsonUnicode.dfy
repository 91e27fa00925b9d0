/** What parse_string makes of string bodies written as `\uXXXX` literals. */
module JsonUnicode {
  import opened Bytes
  import opened JsonText
  import opened JsonScan
  import Utf8

  type CodeUnit = u: nat | u < 0x1_0000

  /** `n` literals with four hexadecimal digits each stand at `i`. */
  predicate UnitsAt(c: bytes, i: nat, n: nat)
    decreases n
  {
    n == 0
    || (i + 6 <= |c| && c[i] == BACKSLASH && c[i + 1] == LETTER_U && AllHex(c, i + 2)
        && UnitsAt(c, i + 6, n - 1))
  }

  /** The UTF-16 code units they denote. */
  function Units(c: bytes, i: nat, n: nat): (us: seq<CodeUnit>)
    requires UnitsAt(c, i, n)
    ensures |us| == n
    decreases n
  {
    if n == 0 then [] else [Hex4(c, i + 2)] + Units(c, i + 6, n - 1)
  }

  /** The scalar values of a UTF-16 string; None when a surrogate stands alone. */
  function FromUtf16(us: seq<CodeUnit>): (r: Option<seq<Utf8.Scalar>>)
  {
    if us == [] then Some([])
    else if IsHighSurrogate(us[0]) then
      if |us| == 1 || !IsLowSurrogate(us[1]) then None
      else
        match FromUtf16(us[2..])
        case None => None
        case Some(cps) => Some([FromSurrogates(us[0], us[1])] + cps)
    else if IsLowSurrogate(us[0]) then None
    else
      match FromUtf16(us[1..])
      case None => None
      case Some(cps) => Some([us[0]] + cps)
  }

  lemma HexIsPlain(c: bytes, i: nat)
    requires i + 4 <= |c| && AllHex(c, i)
    ensures forall k :: i <= k < i + 4 ==> c[k] != QUOTE && c[k] != BACKSLASH
  {
    forall k | i <= k < i + 4 ensures c[k] != QUOTE && c[k] != BACKSLASH {
      assert HexValue(c[k]).Some?;
    }
  }

  lemma {:induction false} ScanUnits(c: bytes, i: nat, n: nat)
    requires UnitsAt(c, i, n) && i + 6 * n < |c| && c[i + 6 * n] == QUOTE
    ensures ScanEnd(c, i) == Some(i + 6 * n)
    decreases n
  {
    if n > 0 {
      HexIsPlain(c, i + 2);
      assert ScanEnd(c, i) == ScanEnd(c, i + 2);
      assert ScanEnd(c, i + 2) == ScanEnd(c, i + 3);
      assert ScanEnd(c, i + 3) == ScanEnd(c, i + 4);
      assert ScanEnd(c, i + 4) == ScanEnd(c, i + 5);
      assert ScanEnd(c, i + 5) == ScanEnd(c, i + 6);
      ScanUnits(c, i + 6, n - 1);
    }
  }

  function EncodeUnits(us: seq<CodeUnit>): (r: Option<bytes>) {
    match FromUtf16(us)
    case None => None
    case Some(cps) => Some(Utf8.EncodeAll(cps))
  }

  lemma EncodeNoUnits(us: seq<CodeUnit>)
    requires us == []
    ensures EncodeUnits(us) == Some([])
  {}

  lemma EncodeUnpaired(us: seq<CodeUnit>)
    requires us != []
    requires IsLowSurrogate(us[0]) || (IsHighSurrogate(us[0]) && (|us| == 1 || !IsLowSurrogate(us[1])))
    ensures EncodeUnits(us) == None
  {}

  lemma EncodeUnitsSingle(us: seq<CodeUnit>)
    requires us != []
    requires !IsHighSurrogate(us[0]) && !IsLowSurrogate(us[0])
    ensures EncodeUnits(us) == Prepend(Utf8.Encode(us[0]), EncodeUnits(us[1..]))
  {
    var r := FromUtf16(us[1..]);
    if r.Some? { assert ([us[0]] + r.value)[1..] == r.value; }
  }

  lemma EncodeUnitsPair(us: seq<CodeUnit>)
    requires |us| >= 2
    requires IsHighSurrogate(us[0]) && IsLowSurrogate(us[1])
    ensures EncodeUnits(us) == Prepend(Utf8.Encode(FromSurrogates(us[0], us[1])), EncodeUnits(us[2..]))
  {
    var r := FromUtf16(us[2..]);
    var cp := FromSurrogates(us[0], us[1]);
    if r.Some? { assert ([cp] + r.value)[1..] == r.value; }
  }

  lemma {:induction false} DecodeUnits(c: bytes, i: nat, n: nat)
    requires UnitsAt(c, i, n) && i + 6 * n < |c|
    ensures DecodeBody(c, i, i + 6 * n) == EncodeUnits(Units(c, i, n))
    decreases n
  {
    hide AllHex, Hex4, Utf8.Encode, FromUtf16;
    var us := Units(c, i, n);
    if n == 0 {
      EncodeNoUnits(us);
    } else {
      assert us[1..] == Units(c, i + 6, n - 1);
      if IsLowSurrogate(us[0]) || (IsHighSurrogate(us[0]) && (n == 1 || !IsLowSurrogate(us[1]))) {
        EncodeUnpaired(us);
        assert n > 1 ==> us[1] == Hex4(c, i + 8);
      } else if IsHighSurrogate(us[0]) {
        assert us[1] == Hex4(c, i + 8);
        assert us[2..] == Units(c, i + 12, n - 2);
        DecodeUnits(c, i + 12, n - 2);
        EncodeUnitsPair(us);
      } else {
        DecodeUnits(c, i + 6, n - 1);
        EncodeUnitsSingle(us);
      }
    }
  }

  /**
   * A body of `\uXXXX` literals is accepted exactly when its surrogates are paired, and
   * then stored as the UTF-8 text of the scalar values it denotes, up to the first NUL.
   */
  lemma UnicodeEscapes(c: bytes, off: nat, n: nat)
    requires off < |c| && c[off] == QUOTE && UnitsAt(c, off + 1, n)
    requires off + 1 + 6 * n < |c| && c[off + 1 + 6 * n] == QUOTE
    ensures StringLiteral(c, off)
         == match FromUtf16(Units(c, off + 1, n))
            case None => None
            case Some(cps) => Some((CStr(Utf8.EncodeAll(cps)), off + 6 * n + 2))
  {
    hide DecodeBody, ScanEnd, Units, UnitsAt, FromUtf16, CStr;
    ScanUnits(c, off + 1, n);
    DecodeUnits(c, off + 1, n);
  }

  function ToUtf16(cps: seq<Utf8.Scalar>): (us: seq<CodeUnit>)
  {
    if cps == [] then []
    else if cps[0] < 0x10000 then
      var unit: CodeUnit := cps[0];
      [unit] + ToUtf16(cps[1..])
    else
      var high: CodeUnit := 0xD800 + (cps[0] as int - 0x10000) / 1024;
      var low: CodeUnit := 0xDC00 + (cps[0] as int - 0x10000) % 1024;
      [high, low] + ToUtf16(cps[1..])
  }

  /** Every sequence of scalar values has such a body: its UTF-16 form is read back as itself. */
  lemma {:induction false} Utf16RoundTrip(cps: seq<Utf8.Scalar>)
    ensures FromUtf16(ToUtf16(cps)) == Some(cps)
  {
    if cps != [] {
      Utf16RoundTrip(cps[1..]);
      var us := ToUtf16(cps);
      if cps[0] < 0x10000 {
        assert us[1..] == ToUtf16(cps[1..]);
      } else {
        assert us[2..] == ToUtf16(cps[1..]);
        assert FromSurrogates(us[0], us[1]) == cps[0];
      }
      assert cps == [cps[0]] + cps[1..];
    }
  }

  /** The literals of code units, four digits each. */
  function WriteUnits(us: seq<CodeUnit>): (s: bytes)
    ensures |s| == 6 * |us|
  {
    if us == [] then [] else WriteUnit(us[0]) + WriteUnits(us[1..])
  }

  function WriteUnit(u: CodeUnit): (s: bytes)
    ensures |s| == 6
  {
    [BACKSLASH, LETTER_U, HexChar(u / 4096), HexChar(u / 256 % 16), HexChar(u / 16 % 16), HexChar(u % 16)]
  }

  lemma UnitRoundTrip(c: bytes, i: nat, u: CodeUnit)
    requires At(c, i, WriteUnit(u))
    ensures i + 6 <= |c| && c[i] == BACKSLASH && c[i + 1] == LETTER_U && AllHex(c, i + 2) && Hex4(c, i + 2) == u
  {
    AtAll(c, i, WriteUnit(u));
    HexOfChar(u / 4096);
    HexOfChar(u / 256 % 16);
    HexOfChar(u / 16 % 16);
    HexOfChar(u % 16);
    FourDigits(u);
  }

  lemma FourDigits(u: CodeUnit)
    ensures u / 4096 * 4096 + u / 256 % 16 * 256 + u / 16 % 16 * 16 + u % 16 == u
  {
    var a, b, d: nat := u / 16, u / 16 / 16, u / 16 / 16 / 16;
    Sixteenths(u);
    Split(u);
    Split(a);
    Split(b);
    Digits(u, a, b, d, u % 16, a % 16, b % 16);
  }

  lemma Sixteenths(u: nat)
    ensures u / 256 == u / 16 / 16 && u / 4096 == u / 16 / 16 / 16
  {}

  lemma Split(u: nat)
    ensures u == 16 * (u / 16) + u % 16
  {}

  lemma Digits(u: nat, a: nat, b: nat, d: nat, x: nat, y: nat, z: nat)
    requires u == 16 * a + x && a == 16 * b + y && b == 16 * d + z
    ensures d * 4096 + z * 256 + y * 16 + x == u
  {}

  lemma {:induction false} UnitsRoundTrip(c: bytes, i: nat, us: seq<CodeUnit>)
    requires At(c, i, WriteUnits(us))
    ensures UnitsAt(c, i, |us|) && Units(c, i, |us|) == us
    decreases |us|
  {
    hide At, WriteUnit, AllHex, Hex4;
    if us != [] {
      AtConcat(c, i, WriteUnit(us[0]), WriteUnits(us[1..]));
      UnitRoundTrip(c, i, us[0]);
      UnitsRoundTrip(c, i + 6, us[1..]);
      assert us == [us[0]] + us[1..];
    }
  }

  /**
   * Every sequence of scalar values, written as a string of \u literals with surrogate pairs
   * above U+FFFF, is read as its UTF-8 form, up to the first zero byte as C strings are.
   */
  lemma EscapedTextIsRead(cps: seq<Utf8.Scalar>)
    ensures var body := WriteUnits(ToUtf16(cps));
            StringLiteral([QUOTE] + body + [QUOTE], 0) == Some((CStr(Utf8.EncodeAll(cps)), |body| + 2))
  {
    hide StringLiteral, WriteUnits, Units, UnitsAt, FromUtf16, ToUtf16, CStr;
    var us := ToUtf16(cps);
    var body := WriteUnits(us);
    var c := [QUOTE] + body + [QUOTE];
    assert c[1..1 + |body|] == body;
    UnitsRoundTrip(c, 1, us);
    Utf16RoundTrip(cps);
    UnicodeEscapes(c, 0, |us|);
  }
}
