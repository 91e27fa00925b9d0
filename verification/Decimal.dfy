/** Decimal numerals: `sprintf("%d")`, and `strtod` on the characters a JSON number may use. */
module Decimal {
  import opened Bytes

  const INT_MAX := 0x7FFF_FFFF
  const INT_MIN := -0x8000_0000

  predicate IsDigit(b: byte) { 48 <= b <= 57 }

  function Digits(n: nat): (s: bytes)
    ensures s != []
  {
    if n < 10 then [48 + n] else Digits(n / 10) + [48 + n % 10]
  }

  /** `%d` */
  function DecimalInt(n: int): (s: bytes)
    ensures s != []
  {
    if n < 0 then [45] + Digits(-n) else Digits(n)
  }

  predicate AllDigits(s: bytes) {
    forall i :: 0 <= i < |s| ==> IsDigit(s[i])
  }

  function DigitsValue(s: bytes): (n: int) {
    if s == [] then 0 else 10 * DigitsValue(s[..|s| - 1]) + ((s[|s| - 1] as int) - 48)
  }

  lemma {:induction false} DigitsRoundTrip(n: nat)
    ensures AllDigits(Digits(n)) && DigitsValue(Digits(n)) == n
  {
    var s := Digits(n);
    if n >= 10 {
      DigitsRoundTrip(n / 10);
      assert s[..|s| - 1] == Digits(n / 10);
    } else {
      assert s[..0] == [];
      assert DigitsValue(s[..0]) == 0;
    }
  }

  function Pow10(k: nat): (r: nat) {
    if k == 0 then 1 else 10 * Pow10(k - 1)
  }

  lemma {:induction false} DigitsLength(n: nat, k: nat)
    requires k >= 1 && n < Pow10(k)
    ensures |Digits(n)| <= k
  {
    if n >= 10 {
      DigitsLength(n / 10, k - 1);
    }
  }

  /** No 32-bit integer needs more than 11 characters. */
  lemma Int32Length(n: int)
    requires INT_MIN <= n <= INT_MAX
    ensures |DecimalInt(n)| <= 11
  {
    assert Pow10(10) == 10000000000;
    DigitsLength(if n < 0 then -n else n, 10);
  }

  /** First index at or after `i` that is not a digit. */
  function DigitRun(s: bytes, i: nat): (j: nat)
    requires i <= |s|
    ensures i <= j <= |s|
    ensures AllDigits(s[i..j])
    ensures j < |s| ==> !IsDigit(s[j])
    decreases |s| - i
  {
    if i < |s| && IsDigit(s[i]) then
      var j := DigitRun(s, i + 1);
      assert s[i..j] == [s[i]] + s[i + 1..j];
      j
    else i
  }

  function Pow10Real(k: int): (r: real)
    decreases if k < 0 then -k else k
  {
    if k == 0 then 1.0 else if k > 0 then 10.0 * Pow10Real(k - 1) else Pow10Real(k + 1) / 10.0
  }

  function Magnitude(digits: bytes, e: int): (r: real) {
    DigitsValue(digits) as real * Pow10Real(e)
  }

  predicate IsSign(b: byte) { b == 43 || b == 45 }
  predicate IsExponentMark(b: byte) { b == 101 || b == 69 }

  function SkipSign(s: bytes, i: nat): (j: nat)
    requires i <= |s|
    ensures i <= j <= i + 1 && j <= |s|
  {
    if i < |s| && IsSign(s[i]) then i + 1 else i
  }

  /** Where the fraction that starts at `i` ends, its point included; `i` when there is none. */
  function FractionEnd(s: bytes, i: nat): (j: nat)
    requires i <= |s|
    ensures i <= j <= |s|
  {
    if i < |s| && s[i] == 46 then DigitRun(s, i + 1) else i
  }

  /** The exponent that starts at `i`: its value and where it ends (0 and `i` when there is none). */
  function Exponent(s: bytes, i: nat): (r: (int, nat))
    requires i <= |s|
    ensures i <= r.1 <= |s|
  {
    if i < |s| && IsExponentMark(s[i]) then
      var j := SkipSign(s, i + 1);
      var k := DigitRun(s, j);
      if k == j then (0, i)
      else ((if s[i + 1] == 45 then -DigitsValue(s[j..k]) else DigitsValue(s[j..k])), k)
    else (0, i)
  }

  /**
   * `strtod` in the C locale on text made of digits, signs, points and exponent marks:
   * the value denoted by the longest numeral at the front, and that numeral's length
   * (0 when there is none). The value is exact.
   */
  function Strtod(s: bytes): (r: (real, nat))
    ensures r.1 <= |s|
  {
    var i0 := SkipSign(s, 0);
    var i1 := DigitRun(s, i0);
    var i2 := FractionEnd(s, i1);
    var fraction := if i2 > i1 then s[i1 + 1..i2] else [];
    if i1 == i0 && fraction == [] then (0.0, 0)
    else
      var (e, i3) := Exponent(s, i2);
      var magnitude := Magnitude(s[i0..i1] + fraction, e - |fraction|);
      (if i0 == 1 && s[0] == 45 then -magnitude else magnitude, i3)
  }

  /** The whole printed integer is read back as that integer. */
  lemma StrtodOfInt(n: int)
    ensures Strtod(DecimalInt(n)) == (n as real, |DecimalInt(n)|)
  {
    var s := DecimalInt(n);
    var m := if n < 0 then -n else n;
    DigitsRoundTrip(m);
    var i0 := if n < 0 then 1 else 0;
    assert s[i0..] == Digits(m);
    assert Digits(m)[0] == s[i0];
    assert SkipSign(s, 0) == i0;
    DigitRunAll(s, i0);
    assert s[i0..|s|] + [] == Digits(m);
  }

  lemma {:induction false} DigitRunAll(s: bytes, i: nat)
    requires i <= |s| && AllDigits(s[i..])
    ensures DigitRun(s, i) == |s|
    decreases |s| - i
  {
    if i < |s| {
      assert s[i] == s[i..][0];
      assert s[i + 1..] == s[i..][1..];
      DigitRunAll(s, i + 1);
    }
  }

  /** `valueint` for `valuedouble`: truncation with saturation. */
  function ValueInt(d: real): (n: int)
    ensures INT_MIN <= n <= INT_MAX
  {
    if d >= INT_MAX as real then INT_MAX
    else if d <= INT_MIN as real then INT_MIN
    else if d >= 0.0 then d.Floor
    else -((-d).Floor)
  }

  lemma ValueIntOfInt(n: int)
    requires INT_MIN <= n <= INT_MAX
    ensures ValueInt(n as real) == n
  {}
}
