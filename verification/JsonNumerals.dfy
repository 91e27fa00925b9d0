/** What `strtod` reads is what the numeral denotes. */
module JsonNumerals {
  import opened Bytes
  import opened Decimal
  import JsonText
  import opened JsonGrammar

  lemma {:induction false} DigitsDenote(ds: seq<Digit>)
    ensures DigitsValue(DigitChars(ds)) == Natural(ds)
    decreases |ds|
  {
    if ds != [] {
      var s, last := DigitChars(ds), |ds| - 1;
      assert s[..last] == DigitChars(ds[..last]);
      DigitsDenote(ds[..last]);
    }
  }

  function Times(x: real, y: real): (r: real) { x * y }

  lemma {:induction false} NaturalConcat(a: seq<Digit>, b: seq<Digit>)
    ensures Natural(a + b) as real == Times(Natural(a) as real, Ten(|b|)) + Natural(b) as real
    decreases |b|
  {
    if b == [] {
      assert a + b == a;
    } else {
      hide *;
      var last := |b| - 1;
      NaturalStep(a + b);
      ConcatInit(a, b);
      NaturalConcat(a, b[..last]);
      NaturalStep(b);
      TenStep(last);
      TimesTen(Natural(a) as real, Ten(last));
    }
  }

  lemma TimesTen(x: real, p: real)
    ensures Times(x, 10.0 * p) == 10.0 * Times(x, p)
  {}

  lemma ConcatInit(a: seq<Digit>, b: seq<Digit>)
    requires b != []
    ensures var n := |a + b| - 1;
            (a + b)[..n] == a + b[..|b| - 1] && (a + b)[n] == b[|b| - 1]
  {}

  lemma NaturalStep(ds: seq<Digit>)
    requires ds != []
    ensures Natural(ds) as real == 10.0 * Natural(ds[..|ds| - 1]) as real + ds[|ds| - 1] as real
  {}

  lemma TenStep(k: nat)
    ensures Ten(k + 1) == 10.0 * Ten(k)
  {}

  lemma {:induction false} PowerIsTen(k: nat)
    ensures Pow10Real(k) == Ten(k)
    ensures Pow10Real(0 - k) == 1.0 / Ten(k)
  {
    if k > 0 {
      PowerIsTen(k - 1);
      Inverse(Ten(k - 1));
    }
  }

  lemma Inverse(p: real)
    requires p > 0.0
    ensures 1.0 / p / 10.0 == 1.0 / (10.0 * p)
  {
    var q := 1.0 / p / 10.0;
    assert q * (10.0 * p) == 1.0;
  }

  lemma {:induction false} PowerLess(e: int, n: nat)
    ensures Pow10Real(e - n) == Pow10Real(e) / Ten(n)
    decreases n
  {
    if n > 0 {
      PowerLess(e, n - 1);
      var p := Pow10Real(e - n + 1);
      assert Pow10Real(e - n) == p / 10.0;
      DividedTwice(Pow10Real(e), Ten(n - 1));
    }
  }

  lemma DividedTwice(x: real, p: real)
    requires p > 0.0
    ensures x / p / 10.0 == x / (10.0 * p)
  {
    var q := x / p / 10.0;
    assert q * (10.0 * p) == x;
  }

  function Power(x: Option<Exponent>): (e: int) {
    match x
    case None => 0
    case Some(e) => if e.sign == Minus then 0 - Natural(e.digits) else Natural(e.digits)
  }

  function FractionDigits(n: Numeral): (ds: seq<Digit>) {
    if n.fraction.Some? then n.fraction.value else []
  }

  lemma ScaledIsProduct(m: real, x: Option<Exponent>)
    ensures Scaled(m, x) == m * Pow10Real(Power(x))
  {
    if x.Some? {
      var k := Natural(x.value.digits);
      PowerIsTen(k);
      Divided(m, Ten(k));
    }
  }

  lemma Divided(m: real, p: real)
    requires p > 0.0
    ensures m / p == m * (1.0 / p)
  {}

  lemma FractionIsQuotient(n: Numeral)
    ensures FractionValue(n.fraction) == Natural(FractionDigits(n)) as real / Ten(|FractionDigits(n)|)
  {}

  lemma Rescaled(x: real, y: real, t: real, p: real)
    requires t > 0.0
    ensures (x * t + y) * (p / t) == (x + y / t) * p
  {
    assert x * t * (p / t) == x * p;
    assert y * (p / t) == y / t * p;
  }

  lemma Product(d: real, q: real, x: real, y: real, t: real, p: real, z: real)
    requires t > 0.0 && d == Times(x, t) + y && q == p / t && z == x + y / t
    ensures d * q == z * p
  {
    Rescaled(x, y, t, p);
  }

  /** All digits taken for one integer, scaled by the exponent less the length of the fraction. */
  lemma MagnitudeIs(n: Numeral)
    ensures var f := FractionDigits(n);
            Magnitude(DigitChars(n.integer) + DigitChars(f), Power(n.exponent) - |f|)
            == Scaled(Natural(n.integer) as real + FractionValue(n.fraction), n.exponent)
  {
    hide *;
    var f := FractionDigits(n);
    var e := Power(n.exponent);
    DigitCharsConcat(n.integer, f);
    DigitsDenote(n.integer + f);
    NaturalConcat(n.integer, f);
    PowerLess(e, |f|);
    FractionIsQuotient(n);
    var z := Natural(n.integer) as real + FractionValue(n.fraction);
    ScaledIsProduct(z, n.exponent);
    MagnitudeOf(DigitChars(n.integer) + DigitChars(f), e - |f|);
    Product(Natural(n.integer + f) as real, Pow10Real(e - |f|), Natural(n.integer) as real, Natural(f) as real,
      Ten(|f|), Pow10Real(e), z);
  }

  lemma MagnitudeOf(digits: bytes, e: int)
    ensures Magnitude(digits, e) == DigitsValue(digits) as real * Pow10Real(e)
  {}

  lemma DigitCharsConcat(a: seq<Digit>, b: seq<Digit>)
    ensures DigitChars(a) + DigitChars(b) == DigitChars(a + b)
  {}

  // ----- scanning

  lemma {:induction false} DigitRunIs(s: bytes, i: nat, j: nat)
    requires i <= j <= |s| && (forall k :: i <= k < j ==> IsDigit(s[k]))
    requires j < |s| ==> !IsDigit(s[j])
    ensures DigitRun(s, i) == j
    decreases j - i
  {
    if i < j { DigitRunIs(s, i + 1, j); }
  }

  /** The four parts of a numeral, where they stand. */
  lemma NumeralParts(s: bytes, n: Numeral)
    requires s == WrittenNumeral(n)
    ensures var sign := WrittenSign(if n.negative then Minus else NoSign);
            var fraction, exponent := WrittenFraction(n.fraction), WrittenExponent(n.exponent);
            var i0 := |sign|;
            var i1 := i0 + |n.integer|;
            var i2 := i1 + |fraction|;
            && |s| == i2 + |exponent|
            && s[..i0] == sign && s[i0..i1] == DigitChars(n.integer) && s[i1..i2] == fraction && s[i2..] == exponent
  {
    hide WrittenSign, WrittenFraction, WrittenExponent, DigitChars;
    FourParts(WrittenSign(if n.negative then Minus else NoSign), DigitChars(n.integer), WrittenFraction(n.fraction),
      WrittenExponent(n.exponent));
  }

  lemma FourParts(a: bytes, b: bytes, c: bytes, d: bytes)
    ensures var s, i1 := a + (b + (c + d)), |a| + |b|;
            var i2 := i1 + |c|;
            |s| == i2 + |d| && s[..|a|] == a && s[|a|..i1] == b && s[i1..i2] == c && s[i2..] == d
  {
    var s := a + (b + (c + d));
    assert s[|a|..] == b + (c + d);
    assert s[|a|..][|b|..] == c + d;
    assert s[|a| + |b|..] == c + d;
  }

  /** A written exponent, where its parts stand. */
  lemma ExponentParts(s: bytes, i: nat, e: Exponent)
    requires i <= |s| && s[i..] == WrittenExponent(Some(e))
    ensures i < |s| && IsExponentMark(s[i])
    ensures var j := i + 1 + |WrittenSign(e.sign)|;
            && j <= |s| && s[i + 1..j] == WrittenSign(e.sign) && s[j..] == DigitChars(e.digits)
  {
    hide DigitChars;
    var t := WrittenSign(e.sign);
    assert s[i] == s[i..][0];
    assert s[i + 1..] == s[i..][1..] == t + DigitChars(e.digits);
    assert s[i + 1..][|t|..] == s[i + 1 + |t|..];
    assert s[i + 1..][..|t|] == s[i + 1..i + 1 + |t|];
  }

  lemma SignReads(s: bytes, i: nat, sign: Sign)
    requires i + |WrittenSign(sign)| < |s| && s[i..i + |WrittenSign(sign)|] == WrittenSign(sign)
    requires IsDigit(s[i + |WrittenSign(sign)|])
    ensures SkipSign(s, i) == i + |WrittenSign(sign)|
    ensures s[i] == 45 <==> sign == Minus
  {
    if sign != NoSign { assert s[i] == s[i..i + 1][0]; }
  }

  lemma DigitsRead(s: bytes, i: nat, j: nat, ds: seq<Digit>)
    requires i <= j <= |s| && s[i..j] == DigitChars(ds)
    requires j < |s| ==> !IsDigit(s[j])
    ensures DigitRun(s, i) == j
    ensures ds != [] ==> IsDigit(s[i])
  {
    hide DigitRun;
    forall k | i <= k < j ensures IsDigit(s[k]) {
      assert s[k] == s[i..j][k - i];
    }
    DigitRunIs(s, i, j);
  }

  lemma ExponentReads(s: bytes, i: nat, x: Option<Exponent>)
    requires i <= |s| && s[i..] == WrittenExponent(x)
    requires x.Some? ==> x.value.digits != []
    ensures Decimal.Exponent(s, i) == (Power(x), |s|)
  {
    hide DigitRun, DigitsValue, Natural, DigitChars, SkipSign, WrittenSign;
    if x.Some? {
      var e := x.value;
      ExponentParts(s, i, e);
      var j := i + 1 + |WrittenSign(e.sign)|;
      assert s[j..|s|] == s[j..];
      DigitsRead(s, j, |s|, e.digits);
      SignReads(s, i + 1, e.sign);
      DigitsDenote(e.digits);
    }
  }

  lemma FractionReads(s: bytes, i: nat, j: nat, n: Numeral)
    requires i <= j <= |s| && s[i..j] == WrittenFraction(n.fraction)
    requires j < |s| ==> !IsDigit(s[j]) && s[j] != 46
    ensures FractionEnd(s, i) == j
    ensures (if j > i then s[i + 1..j] else []) == DigitChars(FractionDigits(n))
  {
    hide DigitRun;
    if n.fraction.Some? {
      assert s[i] == s[i..j][0];
      assert s[i + 1..j] == s[i..j][1..] == DigitChars(n.fraction.value);
      DigitsRead(s, i + 1, j, n.fraction.value);
    }
  }

  lemma IntegerReads(s: bytes, n: Numeral)
    requires s == WrittenNumeral(n)
    requires n.integer != [] || (n.negative && n.fraction.Some?)
    ensures var i0 := if n.negative then 1 else 0;
            SkipSign(s, 0) == i0 && DigitRun(s, i0) == i0 + |n.integer| <= |s|
    ensures |s| > 0 && (n.negative <==> s[0] == 45)
  {
    hide DigitRun, WrittenNumeral, DigitChars, WrittenFraction, WrittenExponent;
    NumeralParts(s, n);
    var i0 := if n.negative then 1 else 0;
    AfterInteger(s, n, i0 + |n.integer|);
    DigitsRead(s, i0, i0 + |n.integer|, n.integer);
    if n.negative { assert s[0] == s[..1][0]; }
  }

  /** Behind the integer digits stands a point, an exponent mark or nothing. */
  lemma AfterInteger(s: bytes, n: Numeral, i1: nat)
    requires s == WrittenNumeral(n) && i1 == (if n.negative then 1 else 0) + |n.integer|
    ensures i1 <= |s| && (i1 < |s| ==> s[i1] in {46, 69, 101})
  {
    hide WrittenNumeral, DigitChars;
    NumeralParts(s, n);
    var i2 := i1 + |WrittenFraction(n.fraction)|;
    if n.fraction.Some? {
      assert s[i1] == s[i1..i2][0];
    } else if n.exponent.Some? {
      assert s[i2] == s[i2..][0];
    }
  }

  lemma NoDigits(n: Numeral)
    ensures |DigitChars(FractionDigits(n))| == |FractionDigits(n)|
    ensures FractionDigits(n) == [] ==> !(n.fraction.Some? && n.fraction.value != [])
  {}

  /** What Strtod computes from the places where its scanners stop. */
  lemma StrtodIs(s: bytes, i0: nat, i1: nat, i2: nat, e: int, m: real)
    requires i0 <= i1 <= i2 <= |s|
    requires SkipSign(s, 0) == i0 && DigitRun(s, i0) == i1 && FractionEnd(s, i1) == i2
    requires Decimal.Exponent(s, i2) == (e, |s|)
    requires var fraction := if i2 > i1 then s[i1 + 1..i2] else [];
             && (i1 > i0 || fraction != [])
             && Magnitude(s[i0..i1] + fraction, e - |fraction|) == m
    ensures Strtod(s) == (if i0 == 1 && s[0] == 45 then -m else m, |s|)
  {
    hide DigitRun, SkipSign, FractionEnd, Decimal.Exponent, Magnitude;
  }

  lemma StrtodOfNumeral(n: Numeral)
    requires n.integer != [] || (n.negative && n.fraction.Some? && n.fraction.value != [])
    requires n.exponent.Some? ==> n.exponent.value.digits != []
    ensures Strtod(WrittenNumeral(n)) == (NumeralValue(n), |WrittenNumeral(n)|)
  {
    hide Strtod, DigitRun, SkipSign, FractionEnd, Decimal.Exponent, WrittenNumeral, WrittenExponent,
      Magnitude, Scaled, Power, FractionValue, Natural, DigitChars, FractionDigits;
    var s := WrittenNumeral(n);
    NumeralParts(s, n);
    var i0 := if n.negative then 1 else 0;
    var i1 := i0 + |n.integer|;
    var i2 := i1 + |WrittenFraction(n.fraction)|;
    IntegerReads(s, n);
    AfterFraction(s, n, i2);
    FractionReads(s, i1, i2, n);
    NoDigits(n);
    ExponentReads(s, i2, n.exponent);
    var m := Scaled(Natural(n.integer) as real + FractionValue(n.fraction), n.exponent);
    MagnitudeIs(n);
    StrtodIs(s, i0, i1, i2, Power(n.exponent), m);
  }

  lemma AfterFraction(s: bytes, n: Numeral, i2: nat)
    requires s == WrittenNumeral(n)
    requires i2 == (if n.negative then 1 else 0) + |n.integer| + |WrittenFraction(n.fraction)|
    ensures i2 <= |s| && (i2 < |s| ==> s[i2] in {69, 101})
  {
    hide WrittenNumeral, DigitChars, WrittenFraction;
    NumeralParts(s, n);
    if n.exponent.Some? { assert s[i2] == s[i2..][0]; }
  }
}
