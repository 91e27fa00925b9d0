/**
 * Whatever the parser accepts is a text of the wider grammar, read as what that text denotes:
 * brackets, commas, colons and literals as in RFC 8259, and leniency only inside blanks,
 * numerals and strings.
 */
module JsonAccepts {
  import opened Bytes
  import opened Decimal
  import opened JsonText
  import opened JsonScan
  import opened JsonNumerals
  import opened JsonReads
  import G = JsonGrammar

  // ----- blanks

  lemma SkippedAreBlank(c: bytes, p: nat)
    requires p <= |c|
    ensures G.Blanks(c[p..Skip(c, p)], false)
    ensures At(c, p, c[p..Skip(c, p)])
  {}

  lemma BlanksConcat(a: bytes, b: bytes)
    requires G.Blanks(a, false) && G.Blanks(b, false)
    ensures G.Blanks(a + b, false)
  {}

  // ----- numbers

  function ToDigits(s: bytes): (ds: seq<G.Digit>)
    requires AllDigits(s)
    ensures |ds| == |s|
    ensures forall i :: 0 <= i < |s| ==> ds[i] == s[i] - 48
  {
    if s == [] then [] else [s[0] - 48] + ToDigits(s[1..])
  }

  lemma {:induction false} ToDigitsIs(s: bytes)
    requires AllDigits(s)
    ensures G.DigitChars(ToDigits(s)) == s
  {}

  /** The exponent `strtod` finds, taken apart. */
  lemma ExponentParts(s: bytes, i: nat) returns (j: nat)
    requires i <= |s| && Decimal.Exponent(s, i).1 > i
    ensures var (e, k) := Decimal.Exponent(s, i);
            && i + 1 <= j < k <= |s| && IsExponentMark(s[i]) && AllDigits(s[j..k])
            && (j == i + 1 || (j == i + 2 && IsSign(s[i + 1])))
            && e == if s[i + 1] == 45 then -DigitsValue(s[j..k]) else DigitsValue(s[j..k])
  {
    hide DigitsValue;
    j := SkipSign(s, i + 1);
  }

  lemma DigitIsNoSign(s: bytes, j: nat, k: nat)
    requires j < k <= |s| && AllDigits(s[j..k])
    ensures s[j] != 45
  {
    assert s[j] == s[j..k][0];
  }

  /** The exponent as a syntax tree. */
  lemma ExponentForm(s: bytes, i: nat) returns (x: Option<G.Exponent>)
    requires i <= |s|
    ensures var (e, k) := Decimal.Exponent(s, i);
            && s[i..k] == G.WrittenExponent(x) && Power(x) == e
            && (x.Some? ==> x.value.digits != [])
  {
    var (e, k) := Decimal.Exponent(s, i);
    if k == i {
      return None;
    }
    hide Decimal.Exponent, AllDigits, DigitsValue, G.DigitChars, G.Natural, G.WrittenExponent, G.WrittenSign, Power;
    var j := ExponentParts(s, i);
    DigitIsNoSign(s, j, k);
    var sign := if j == i + 1 then G.NoSign else if s[i + 1] == 45 then G.Minus else G.Plus;
    var ds := ToDigits(s[j..k]);
    ToDigitsIs(s[j..k]);
    DigitsDenote(ds);
    var tree := G.Exponent(s[i] == 69, sign, ds);
    x := Some(tree);
    ThreeSlices(s, i, i + 1, j, k);
    SignSlice(s, i + 1, j, sign);
    ExponentIs(tree);
  }

  lemma ExponentIs(e: G.Exponent)
    ensures G.WrittenExponent(Some(e))
         == [if e.capital then 69 else 101] + (G.WrittenSign(e.sign) + G.DigitChars(e.digits))
    ensures Power(Some(e)) == if e.sign == G.Minus then 0 - G.Natural(e.digits) else G.Natural(e.digits)
  {}

  lemma SignSlice(s: bytes, i: nat, j: nat, sign: G.Sign)
    requires i <= j <= |s| && i < |s|
    requires (j == i && sign == G.NoSign)
          || (j == i + 1 && IsSign(s[i]) && sign == if s[i] == 45 then G.Minus else G.Plus)
    ensures s[i..j] == G.WrittenSign(sign)
  {}

  lemma ThreeSlices(s: bytes, i: nat, a: nat, b: nat, k: nat)
    requires i + 1 == a <= b <= k <= |s|
    ensures s[i..k] == [s[i]] + (s[a..b] + s[b..k])
  {}

  lemma FourSlices(s: bytes, a: nat, b: nat, d: nat, k: nat)
    requires a <= b <= d <= k <= |s|
    ensures s[..k] == s[..a] + (s[a..b] + (s[b..d] + s[d..k]))
  {}

  /** What Strtod found, taken apart. */
  lemma StrtodParts(s: bytes) returns (i0: nat, i1: nat, i2: nat, e: int)
    requires Strtod(s).1 > 0
    ensures i0 <= i1 <= i2 <= Strtod(s).1 <= |s|
    ensures i0 == SkipSign(s, 0) && i1 == DigitRun(s, i0) && AllDigits(s[i0..i1])
    ensures i2 > i1 ==> s[i1] == 46 && AllDigits(s[i1 + 1..i2])
    ensures i1 > i0 || i2 > i1 + 1
    ensures Decimal.Exponent(s, i2) == (e, Strtod(s).1)
    ensures var fraction := if i2 > i1 then s[i1 + 1..i2] else [];
            var magnitude := Magnitude(s[i0..i1] + fraction, e - |fraction|);
            Strtod(s).0 == if i0 == 1 && s[0] == 45 then -magnitude else magnitude
  {
    hide Decimal.Exponent, Magnitude;
    i0 := SkipSign(s, 0);
    i1 := DigitRun(s, i0);
    i2 := FractionEnd(s, i1);
    e := Decimal.Exponent(s, i2).0;
  }

  /** The fraction as a syntax tree. */
  lemma FractionForm(s: bytes, i1: nat, i2: nat) returns (f: Option<seq<G.Digit>>)
    requires i1 <= i2 <= |s|
    requires i2 > i1 ==> s[i1] == 46 && AllDigits(s[i1 + 1..i2])
    ensures s[i1..i2] == G.WrittenFraction(f)
    ensures (if i2 > i1 then s[i1 + 1..i2] else []) == (if f.Some? then G.DigitChars(f.value) else [])
    ensures f.Some? <==> i2 > i1
    ensures f.Some? ==> |f.value| == i2 - i1 - 1
  {
    if i2 == i1 {
      return None;
    }
    f := Some(ToDigits(s[i1 + 1..i2]));
    ToDigitsIs(s[i1 + 1..i2]);
    assert s[i1..i2] == [s[i1]] + s[i1 + 1..i2];
  }

  lemma NumeralForm(s: bytes) returns (n: G.Numeral)
    requires Strtod(s).1 > 0 && s != [] && (s[0] == 45 || IsDigit(s[0])) && |s| <= 63
    ensures G.FormedNumeral(n, false)
    ensures s[..Strtod(s).1] == G.WrittenNumeral(n) && G.NumeralValue(n) == Strtod(s).0
  {
    hide Strtod, DigitRun, AllDigits, Decimal.Exponent, Magnitude, Power, G.DigitChars, G.Scaled, G.Natural,
      G.FractionValue, G.WrittenExponent, G.WrittenFraction, FractionDigits;
    var i0, i1, i2, e := StrtodParts(s);
    var k := Strtod(s).1;
    var x := ExponentForm(s, i2);
    var f := FractionForm(s, i1, i2);
    n := G.Numeral(s[0] == 45, ToDigits(s[i0..i1]), f, x);
    ToDigitsIs(s[i0..i1]);
    FourSlices(s, i0, i1, i2, k);
    SignAt(s, i0);
    FractionIs(n);
    MagnitudeIs(n);
    if i1 == i0 { NoInteger(s, i0); }
  }

  lemma SignAt(s: bytes, i0: nat)
    requires s != [] && (s[0] == 45 || IsDigit(s[0])) && i0 == SkipSign(s, 0)
    ensures i0 == if s[0] == 45 then 1 else 0
    ensures s[..i0] == G.WrittenSign(if s[0] == 45 then G.Minus else G.NoSign)
  {}

  lemma NoInteger(s: bytes, i0: nat)
    requires s != [] && (s[0] == 45 || IsDigit(s[0])) && i0 == SkipSign(s, 0) && DigitRun(s, i0) == i0
    ensures s[0] == 45
  {}

  lemma FractionIs(n: G.Numeral)
    ensures G.DigitChars(FractionDigits(n)) == if n.fraction.Some? then G.DigitChars(n.fraction.value) else []
    ensures |FractionDigits(n)| == if n.fraction.Some? then |n.fraction.value| else 0
  {}

  lemma NumberForm(c: bytes, off: nat) returns (n: G.Numeral)
    requires off < |c| && (c[off] == 45 || IsDigit(c[off])) && NumberLiteral(c, off).Some?
    ensures G.FormedNumeral(n, false) && At(c, off, G.WrittenNumeral(n))
    ensures NumberLiteral(c, off) == Some((G.NumeralValue(n), off + |G.WrittenNumeral(n)|))
  {
    hide Strtod, G.WrittenNumeral, G.NumeralValue, G.FormedNumeral;
    var s := NumberText(c, off, 63);
    assert s[0] == c[off];
    n := NumeralForm(s);
    var k := Strtod(s).1;
    assert c[off..off + k] == s[..k];
  }

  // ----- strings

  /** The character the second pass finds at `p`. */
  lemma CharForm(c: bytes, p: nat, end: nat) returns (ch: G.Char)
    requires p < end < |c| && DecodeBody(c, p, end).Some?
    ensures G.FormedChar(ch, false) && At(c, p, G.WrittenChar(ch))
    ensures p + |G.WrittenChar(ch)| <= if ch.Escaped? then end + 1 else end
    ensures ch.Plain? ==> ch.code == c[p]
    ensures ScanEnd(c, p) == Some(end) && (ch.Unit? ==> G.FourHex(ch.digits)) ==>
              ScanEnd(c, p + |G.WrittenChar(ch)|) == Some(end) && ch != G.Plain('"' as int)
  {
    hide AllHex, Hex4, G.CodeUnit, G.FourHex, Utf8.Encode;
    if c[p] != BACKSLASH {
      ch := G.Plain(c[p]);
    } else if c[p + 1] != LETTER_U {
      ch := G.Escaped(c[p + 1]);
    } else {
      ch := UnitForm(c, p, end);
    }
  }

  lemma UnitForm(c: bytes, p: nat, end: nat) returns (ch: G.Char)
    requires p < end < |c| && c[p] == BACKSLASH && c[p + 1] == LETTER_U && Utf16Literal(c, p, end).0 > 0
    ensures ch.Unit? || ch.Pair?
    ensures G.FormedChar(ch, false) && At(c, p, G.WrittenChar(ch)) && p + |G.WrittenChar(ch)| <= end
    ensures (ch.Unit? ==> G.FourHex(ch.digits)) ==> ScanEnd(c, p) == ScanEnd(c, p + |G.WrittenChar(ch)|)
  {
    hide AllHex, Hex4, At, G.CodeUnit, G.FourHex, ScanEnd, Utf8.Encode;
    var first := c[p + 2..p + 6];
    UnitAgrees(c, p + 2);
    EscapeAt(c, p);
    if IsHighSurrogate(Hex4(c, p + 2)) {
      var second := c[p + 8..p + 12];
      UnitAgrees(c, p + 8);
      EscapeAt(c, p + 6);
      AtConcat(c, p, ['\\' as int, 'u' as int] + first, ['\\' as int, 'u' as int] + second);
      ch := G.Pair(first, second);
      SurrogateIsHex(first);
      SurrogateIsHex(second);
      ScanUnit(c, p);
      ScanUnit(c, p + 6);
    } else {
      ch := G.Unit(first);
      if G.FourHex(first) { ScanUnit(c, p); }
    }
  }

  lemma EscapeAt(c: bytes, p: nat)
    requires p + 6 <= |c| && c[p] == BACKSLASH && c[p + 1] == LETTER_U
    ensures At(c, p, ['\\' as int, 'u' as int] + c[p + 2..p + 6])
  {
    assert c[p..p + 6] == ['\\' as int, 'u' as int] + c[p + 2..p + 6];
  }

  lemma {:induction false} CharsForm(c: bytes, p: nat, end: nat) returns (chars: seq<G.Char>, closed: bool)
    requires p <= end + 1 <= |c| && DecodeBody(c, p, end).Some?
    ensures G.FormedChars(chars, false) && At(c, p, G.WrittenChars(chars))
    ensures DecodeBody(c, p, end) == Some(G.CharsMeaning(chars))
    ensures p + |G.WrittenChars(chars)| == if closed then end else end + 1
    ensures ScanEnd(c, p) == Some(end) && !G.Garbled(chars) ==> closed && G.Plain('"' as int) !in chars
    decreases end + 1 - p
  {
    hide DecodeBody, ScanEnd, G.FormedChar, G.WrittenChar, G.CharMeaning, G.FourHex, At;
    if p >= end {
      chars, closed := [], p == end;
      Finished(c, p, end);
    } else {
      var ch := CharForm(c, p, end);
      DecodeChar(c, p, ch, end);
      var rest, ok := CharsForm(c, p + |G.WrittenChar(ch)|, end);
      chars, closed := [ch] + rest, ok;
      assert chars[1..] == rest;
      AtConcat(c, p, G.WrittenChar(ch), G.WrittenChars(rest));
      GarbledLater(ch, rest);
    }
  }

  lemma GarbledLater(ch: G.Char, rest: seq<G.Char>)
    ensures G.Garbled([ch] + rest) <==> (ch.Unit? && !G.FourHex(ch.digits)) || G.Garbled(rest)
  {
    hide G.FourHex;
    var all := [ch] + rest;
    assert all[0] == ch && forall i :: 0 <= i < |rest| ==> all[i + 1] == rest[i];
  }

  lemma Finished(c: bytes, p: nat, end: nat)
    requires end <= p <= end + 1 <= |c|
    ensures DecodeBody(c, p, end) == Some([]) && At(c, p, [])
    ensures ScanEnd(c, p) == Some(end) ==> p == end
  {}

  lemma StringForm(c: bytes, off: nat) returns (d: G.Doc)
    requires off < |c| && StringLiteral(c, off).Some?
    ensures G.FormedString(d, false) && At(c, off, G.Written(d))
    ensures StringLiteral(c, off) == Some((CStr(G.CharsMeaning(d.chars)), off + |G.Written(d)|))
  {
    hide At, DecodeBody, ScanEnd, CStr, G.FormedChars, G.WrittenChars, G.CharsMeaning, G.Garbled;
    var end := ScanEnd(c, off + 1).value;
    var chars, closed := CharsForm(c, off + 1, end);
    d := G.StringText(chars, closed);
    QuoteAt(c, off);
    QuoteAt(c, end);
    NothingAt(c, end);
    var w, tail := G.WrittenChars(chars), if closed then [QUOTE] else [];
    if !closed { NothingAt(c, end + 1); }
    AtConcat(c, off + 1, w, tail);
    AtConcat(c, off, [QUOTE], w + tail);
  }

  lemma QuoteAt(c: bytes, i: nat)
    requires i < |c|
    ensures At(c, i, [c[i]])
  {}

  lemma NothingAt(c: bytes, i: nat)
    requires i <= |c|
    ensures At(c, i, [])
  {}

  // ----- values

  lemma WordForm(c: bytes, off: nat, depth: nat) returns (d: G.Doc)
    requires off <= |c| && Value(c, off, depth).Some? && Value(c, off, depth).value.0 in {Null, False, True}
    ensures G.Formed(d, false) && At(c, off, G.Written(d)) && G.Depth(d) == 0
    ensures Value(c, off, depth) == Some((G.CutTexts(G.Meaning(d)), off + |G.Written(d)|))
  {
    hide At, Value;
    var t := Value(c, off, depth).value.0;
    WordRead(c, off, depth);
    d := if t == Null then G.NullText else if t == False then G.FalseText else G.TrueText;
  }

  lemma WordRead(c: bytes, off: nat, depth: nat)
    requires off <= |c| && Value(c, off, depth).Some?
    ensures var (t, e) := Value(c, off, depth).value;
            && (t == Null ==> At(c, off, NULL_TEXT) && e == off + 4)
            && (t == False ==> At(c, off, FALSE_TEXT) && e == off + 5)
            && (t == True ==> At(c, off, TRUE_TEXT) && e == off + 4)
  {
    hide At, Skip, StringLiteral, NumberLiteral, Items, Members, IsDigit;
  }

  /** Which function read a value, by its kind. */
  lemma Reader(c: bytes, off: nat, depth: nat)
    requires off <= |c| && Value(c, off, depth).Some?
    ensures var (t, e) := Value(c, off, depth).value;
            && (t.String? ==> off < |c| && StringLiteral(c, off) == Some((t.text, e)))
            && (t.Number? ==> off < |c| && (c[off] == 45 || IsDigit(c[off])) && NumberLiteral(c, off) == Some((t.double, e)))
            && (t.Array? ==> off < |c| && ArrayLiteral(c, off, depth) == Some((t, e)))
            && (t.Object? ==> off < |c| && ObjectLiteral(c, off, depth) == Some((t, e)))
  {
    hide At, Skip, NumberLiteral, Items, Members, IsDigit;
  }

  lemma {:induction false} ValueForm(c: bytes, off: nat, depth: nat) returns (d: G.Doc)
    requires off <= |c| && depth <= 1000 && Value(c, off, depth).Some?
    ensures G.Formed(d, false) && At(c, off, G.Written(d)) && depth + G.Depth(d) <= 1000
    ensures Value(c, off, depth) == Some((G.CutTexts(G.Meaning(d)), off + |G.Written(d)|))
    decreases |c| - off, 1
  {
    hide At, Value, StringLiteral, NumberLiteral, ArrayLiteral, ObjectLiteral, IsDigit, G.WrittenNumeral,
      G.FormedNumeral, G.NumeralValue, G.FormedString, G.CharsMeaning, CStr, G.WrittenChars, G.WrittenItems,
      G.WrittenMembers, G.FormedItems, G.FormedMembers, G.DepthOfItems, G.DepthOfMembers;
    var t := Value(c, off, depth).value.0;
    Reader(c, off, depth);
    match t
    case String(_) =>
      d := StringForm(c, off);
      StringIs(d);
    case Number(_) =>
      var n := NumberForm(c, off);
      d := G.NumberText(n);
    case Array(_) => d := ArrayForm(c, off, depth);
    case Object(_) => d := ObjectForm(c, off, depth);
    case _ => d := WordForm(c, off, depth);
  }

  lemma StringIs(d: G.Doc)
    requires G.FormedString(d, false)
    ensures d.StringText? && G.Formed(d, false) && G.Depth(d) == 0
  {}

  lemma {:induction false} ArrayForm(c: bytes, off: nat, depth: nat) returns (d: G.Doc)
    requires off < |c| && depth <= 1000 && ArrayLiteral(c, off, depth).Some?
    ensures G.Formed(d, false) && At(c, off, G.Written(d)) && depth + G.Depth(d) <= 1000
    ensures ArrayLiteral(c, off, depth) == Some((G.CutTexts(G.Meaning(d)), off + |G.Written(d)|))
    decreases |c| - off, 0
  {
    hide At, Skip, Items, G.Blanks, G.FormedItems, G.WrittenItems, G.DepthOfItems, G.CutItems, G.ItemsMeaning;
    var p := Skip(c, off + 1);
    var blanks := c[off + 1..p];
    SkippedAreBlank(c, off + 1);
    NoBlanks();
    var body;
    if c[p] == CLOSE_ARRAY {
      d, body := G.ArrayText(blanks, []), blanks;
      EmptyParts();
    } else {
      var items := ItemsForm(c, off + 1, p, depth + 1);
      d, body := G.ArrayText([], items), G.WrittenItems(items);
    }
    QuoteAt(c, off);
    QuoteAt(c, off + 1 + |body|);
    AtConcat(c, off + 1, body, [CLOSE_ARRAY]);
    AtConcat(c, off, [OPEN_ARRAY], body + [CLOSE_ARRAY]);
  }

  lemma NoBlanks()
    ensures G.Blanks([], false)
  {}

  lemma EmptyParts()
    ensures G.FormedItems([], false) && G.FormedMembers([], false)
    ensures G.DepthOfItems([]) == 0 && G.DepthOfMembers([]) == 0
    ensures G.CutItems(G.ItemsMeaning([])) == [] && G.CutMembers(G.MembersMeaning([])) == []
  {}

  lemma BlankSlice(c: bytes, s: nat, p: nat)
    requires s <= p <= |c| && G.Blanks(c[s..p], false)
    ensures var q := Skip(c, p); G.Blanks(c[s..q], false) && At(c, s, c[s..q])
  {
    hide Skip, G.Blanks;
    var q := Skip(c, p);
    SkippedAreBlank(c, p);
    BlanksConcat(c[s..p], c[p..q]);
    assert c[s..q] == c[s..p] + c[p..q];
  }

  lemma ItemJoin(c: bytes, s: nat, items: seq<G.Item>)
    requires items != []
    requires At(c, s, items[0].before)
    requires At(c, s + |items[0].before|, G.Written(items[0].value))
    requires At(c, s + |items[0].before| + |G.Written(items[0].value)|, items[0].after)
    requires var f := s + |items[0].before| + |G.Written(items[0].value)| + |items[0].after|;
             |items| > 1 ==> f < |c| && c[f] == COMMA && At(c, f + 1, G.WrittenItems(items[1..]))
    ensures At(c, s, G.WrittenItems(items))
  {
    hide At, G.Written;
    var a, b, x := items[0].before, G.Written(items[0].value), items[0].after;
    var rest := if |items| == 1 then [] else [COMMA] + G.WrittenItems(items[1..]);
    var f := s + |a| + |b| + |x|;
    if |items| > 1 {
      QuoteAt(c, f);
      AtConcat(c, f, [COMMA], G.WrittenItems(items[1..]));
    } else {
      AtEnd(c, f - |x|, x);
      NothingAt(c, f);
    }
    AtConcat(c, s + |a| + |b|, x, rest);
    AtConcat(c, s + |a|, b, x + rest);
    AtConcat(c, s, a, b + (x + rest));
  }

  lemma AtEnd(c: bytes, i: nat, s: bytes)
    requires At(c, i, s)
    ensures i + |s| <= |c|
  {}

  /** The elements read from `p`, as syntax trees; the blanks before the first one start at `s`. */
  lemma {:induction false} ItemsForm(c: bytes, s: nat, p: nat, depth: nat) returns (items: seq<G.Item>)
    requires s <= p <= |c| && G.Blanks(c[s..p], false) && depth <= 1000 && Items(c, p, depth).Some?
    ensures items != [] && G.FormedItems(items, false) && At(c, s, G.WrittenItems(items))
    ensures depth + G.DepthOfItems(items) <= 1000
    ensures Items(c, p, depth) == Some((G.CutItems(G.ItemsMeaning(items)), s + |G.WrittenItems(items)|))
    decreases |c| - p, 2
  {
    hide At, Skip, Value, G.Blanks, G.Formed, G.Written, G.Depth, G.WrittenItems, G.CutTexts, G.Meaning,
      G.CutItems, G.ItemsMeaning, G.DepthOfItems;
    var v := Skip(c, p);
    var e := Value(c, v, depth).value.1;
    var q := Skip(c, e);
    BlankSlice(c, s, p);
    SkippedAreBlank(c, e);
    var d := ValueForm(c, v, depth);
    var first := G.Item(c[s..v], d, c[e..q]);
    if q < |c| && c[q] == COMMA {
      EmptySlice(c, q + 1);
      var rest := ItemsForm(c, q + 1, q + 1, depth);
      items := [first] + rest;
      assert items[1..] == rest;
    } else {
      items := [first];
    }
    ItemJoin(c, s, items);
    WrittenItemsLength(items);
    CutParts(items);
    DepthParts(items, depth);
  }

  lemma EmptySlice(c: bytes, i: nat)
    requires i <= |c|
    ensures G.Blanks(c[i..i], false)
  {}

  lemma WrittenItemsLength(items: seq<G.Item>)
    requires items != []
    ensures |G.WrittenItems(items)| == |items[0].before| + |G.Written(items[0].value)| + |items[0].after|
                                        + if |items| == 1 then 0 else 1 + |G.WrittenItems(items[1..])|
  {
    hide G.Written;
  }

  lemma DepthParts(items: seq<G.Item>, depth: nat)
    requires items != [] && depth + G.Depth(items[0].value) <= 1000
    requires |items| > 1 ==> depth + G.DepthOfItems(items[1..]) <= 1000
    ensures depth + G.DepthOfItems(items) <= 1000
  {
    hide G.Depth;
    if |items| == 1 { assert items[1..] == [] && G.DepthOfItems([]) == 0; }
  }

  // ----- objects

  lemma {:induction false} ObjectForm(c: bytes, off: nat, depth: nat) returns (d: G.Doc)
    requires off < |c| && depth <= 1000 && ObjectLiteral(c, off, depth).Some?
    ensures G.Formed(d, false) && At(c, off, G.Written(d)) && depth + G.Depth(d) <= 1000
    ensures ObjectLiteral(c, off, depth) == Some((G.CutTexts(G.Meaning(d)), off + |G.Written(d)|))
    decreases |c| - off, 0
  {
    hide At, Skip, Members, G.Blanks, G.FormedMembers, G.WrittenMembers, G.DepthOfMembers, G.CutMembers, G.MembersMeaning;
    var p := Skip(c, off + 1);
    var blanks := c[off + 1..p];
    SkippedAreBlank(c, off + 1);
    NoBlanks();
    var body;
    if c[p] == CLOSE_OBJECT {
      d, body := G.ObjectText(blanks, []), blanks;
      EmptyParts();
    } else {
      var members := MembersForm(c, off + 1, p, depth + 1);
      d, body := G.ObjectText([], members), G.WrittenMembers(members);
    }
    QuoteAt(c, off);
    QuoteAt(c, off + 1 + |body|);
    AtConcat(c, off + 1, body, [CLOSE_OBJECT]);
    AtConcat(c, off, [OPEN_OBJECT], body + [CLOSE_OBJECT]);
  }

  /** All parts of a member stand where they belong. */
  predicate PairingAt(c: bytes, s: nat, m: G.Pairing) {
    && At(c, s, m.before) && At(c, KeyAt(s, m), G.Written(m.key)) && At(c, KeyEnd(s, m), m.between)
    && At(c, ColonAt(s, m), [COLON]) && At(c, ColonAt(s, m) + 1, m.gap)
    && At(c, ValueAt(s, m), G.Written(m.value)) && At(c, ValueEnd(s, m), m.after)
  }

  lemma MemberJoin(c: bytes, s: nat, members: seq<G.Pairing>)
    requires members != [] && PairingAt(c, s, members[0])
    requires var f := MemberStop(s, members[0]);
             |members| > 1 ==> f < |c| && c[f] == COMMA && At(c, f + 1, G.WrittenMembers(members[1..]))
    ensures At(c, s, G.WrittenMembers(members))
    ensures s + |G.WrittenMembers(members)|
         == if |members| == 1 then MemberStop(s, members[0])
            else MemberStop(s, members[0]) + 1 + |G.WrittenMembers(members[1..])|
  {
    hide At, G.Written;
    var m := members[0];
    var rest := if |members| == 1 then [] else [COMMA] + G.WrittenMembers(members[1..]);
    var tail := m.gap + (G.Written(m.value) + (m.after + rest));
    if |members| > 1 {
      QuoteAt(c, MemberStop(s, m));
      AtConcat(c, MemberStop(s, m), [COMMA], G.WrittenMembers(members[1..]));
    } else {
      AtEnd(c, ValueEnd(s, m), m.after);
      NothingAt(c, MemberStop(s, m));
    }
    AtConcat(c, ValueEnd(s, m), m.after, rest);
    AtConcat(c, ValueAt(s, m), G.Written(m.value), m.after + rest);
    AtConcat(c, ColonAt(s, m) + 1, m.gap, G.Written(m.value) + (m.after + rest));
    AtConcat(c, ColonAt(s, m), [COLON], tail);
    AtConcat(c, KeyEnd(s, m), m.between, [COLON] + tail);
    AtConcat(c, KeyAt(s, m), G.Written(m.key), m.between + ([COLON] + tail));
    AtConcat(c, s, m.before, G.Written(m.key) + (m.between + ([COLON] + tail)));
  }

  lemma KeyForm(c: bytes, s: nat, p: nat) returns (before: bytes, key: G.Doc, between: bytes)
    requires s <= p <= |c| && G.Blanks(c[s..p], false) && KeyLiteral(c, p).Some?
    ensures G.Blanks(before, false) && G.FormedString(key, false) && G.Blanks(between, false)
    ensures At(c, s, before) && At(c, s + |before|, G.Written(key))
    ensures At(c, s + |before| + |G.Written(key)|, between)
    ensures var k := s + |before| + |G.Written(key)| + |between|;
            KeyLiteral(c, p) == Some((CStr(G.KeyMeaning(key)), k)) && At(c, k, [COLON])
  {
    hide At, Skip, StringLiteral, CStr, G.Written, G.Blanks, G.FormedString, G.CharsMeaning;
    var i := Skip(c, p);
    BlankSlice(c, s, p);
    key := StringForm(c, i);
    StringIs(key);
    var e := i + |G.Written(key)|;
    var k := Skip(c, e);
    SkippedAreBlank(c, e);
    before, between := c[s..i], c[e..k];
    QuoteAt(c, k);
  }

  lemma {:induction false} MemberForm(c: bytes, s: nat, p: nat, depth: nat) returns (m: G.Pairing)
    requires s <= p <= |c| && G.Blanks(c[s..p], false) && depth <= 1000 && OneMember(c, p, depth).Some?
    ensures G.Blanks(m.before, false) && G.FormedString(m.key, false) && G.Blanks(m.between, false)
    ensures G.Blanks(m.gap, false) && G.Formed(m.value, false) && G.Blanks(m.after, false)
    ensures PairingAt(c, s, m) && depth + G.Depth(m.value) <= 1000
    ensures OneMember(c, p, depth)
         == Some((Member(CStr(G.KeyMeaning(m.key)), G.CutTexts(G.Meaning(m.value))), MemberStop(s, m)))
    decreases |c| - p, 2
  {
    hide At, Skip, KeyLiteral, Value, CStr, G.Written, G.Blanks, G.Formed, G.FormedString, G.KeyMeaning,
      G.Depth, G.CutTexts, G.Meaning;
    var before, key, between := KeyForm(c, s, p);
    var k := KeyLiteral(c, p).value.1;
    var v := Skip(c, k + 1);
    SkippedAreBlank(c, k + 1);
    var d := ValueForm(c, v, depth);
    var f := Value(c, v, depth).value.1;
    SkippedAreBlank(c, f);
    m := G.Pairing(before, key, between, c[k + 1..v], d, c[f..Skip(c, f)]);
  }

  lemma {:induction false} MembersForm(c: bytes, s: nat, p: nat, depth: nat) returns (members: seq<G.Pairing>)
    requires s <= p <= |c| && G.Blanks(c[s..p], false) && depth <= 1000 && Members(c, p, depth).Some?
    ensures members != [] && G.FormedMembers(members, false) && At(c, s, G.WrittenMembers(members))
    ensures depth + G.DepthOfMembers(members) <= 1000
    ensures Members(c, p, depth) == Some((G.CutMembers(G.MembersMeaning(members)), s + |G.WrittenMembers(members)|))
    decreases |c| - p, 3
  {
    hide At, OneMember, CStr, G.Blanks, G.Formed, G.FormedString, G.Written, G.Depth, G.WrittenMembers, G.KeyMeaning,
      G.CutTexts, G.Meaning, G.CutMembers, G.MembersMeaning, G.DepthOfMembers, PairingAt, MemberStop;
    var q := OneMember(c, p, depth).value.1;
    var m := MemberForm(c, s, p, depth);
    if q < |c| && c[q] == COMMA {
      EmptySlice(c, q + 1);
      var rest := MembersForm(c, q + 1, q + 1, depth);
      members := [m] + rest;
      assert members[1..] == rest;
    } else {
      members := [m];
    }
    MemberJoin(c, s, members);
    CutMemberParts(members);
    MemberDepthParts(members, depth);
  }

  lemma MemberDepthParts(members: seq<G.Pairing>, depth: nat)
    requires members != [] && depth + G.Depth(members[0].value) <= 1000
    requires |members| > 1 ==> depth + G.DepthOfMembers(members[1..]) <= 1000
    ensures depth + G.DepthOfMembers(members) <= 1000
  {
    hide G.Depth;
    if |members| == 1 { assert members[1..] == [] && G.DepthOfMembers([]) == 0; }
  }

  // ----- documents

  /** What a document in the wider grammar looks like in the buffer. */
  predicate Derives(c: bytes, bom: bytes, before: bytes, d: G.Doc, rest: bytes, requireNul: bool) {
    && c == bom + (before + (G.Written(d) + rest))
    && (bom == [] || bom == [0xEF, 0xBB, 0xBF])
    && G.Blanks(before, false) && G.Formed(d, false) && G.Depth(d) <= 1000
    && (requireNul ==> rest != [] && rest[|rest| - 1] == 0 && G.Blanks(rest, false))
  }

  ghost predicate Accepted(c: bytes, t: Json, requireNul: bool) {
    exists bom: bytes, before: bytes, d: G.Doc, rest: bytes ::
      Derives(c, bom, before, d, rest, requireNul) && t == G.CutTexts(G.Meaning(d))
  }

  /**
   * An accepted buffer holds a document of the wider grammar nested at most 1000 deep, and the
   * result is what that document denotes; where the terminator is checked, only blanks follow.
   */
  lemma DocumentForm(c: bytes, requireNul: bool)
    requires Document(c, requireNul).Some?
    ensures Accepted(c, Document(c, requireNul).value, requireNul)
  {
    hide At, Skip, SkipBom, Value, Derives, G.Written, G.Blanks, G.Formed, G.Depth, G.CutTexts, G.Meaning;
    var i := SkipBom(c);
    var off := Skip(c, i);
    var d := ValueForm(c, off, 0);
    var e := off + |G.Written(d)|;
    if requireNul { Terminated(c, e); }
    Derivation(c, d, e, requireNul);
  }

  lemma Derivation(c: bytes, d: G.Doc, e: nat, requireNul: bool)
    requires var off := Skip(c, SkipBom(c));
             e == off + |G.Written(d)| <= |c| && At(c, off, G.Written(d))
    requires G.Formed(d, false) && G.Depth(d) <= 1000
    requires requireNul ==> c[e..] != [] && c[|c| - 1] == 0 && G.Blanks(c[e..], false)
    ensures Derives(c, c[..SkipBom(c)], c[SkipBom(c)..Skip(c, SkipBom(c))], d, c[e..], requireNul)
  {
    hide At, Skip, SkipBom, G.Written, G.Blanks, G.Formed, G.Depth;
    var i := SkipBom(c);
    var off := Skip(c, i);
    BomIs(c);
    SkippedAreBlank(c, i);
    AtSlice(c, off, G.Written(d));
    FourPieces(c, i, off, e);
    if requireNul { assert c[e..][|c[e..]| - 1] == c[|c| - 1]; }
  }

  lemma BomIs(c: bytes)
    ensures c[..SkipBom(c)] == [] || c[..SkipBom(c)] == [0xEF, 0xBB, 0xBF]
  {}

  lemma FourPieces(c: bytes, i: nat, j: nat, k: nat)
    requires i <= j <= k <= |c|
    ensures c == c[..i] + (c[i..j] + (c[j..k] + c[k..]))
  {}

  lemma Terminated(c: bytes, e: nat)
    requires e <= |c| && Skip(c, e) < |c| && c[Skip(c, e)] == 0
    ensures c[e..] != [] && c[|c| - 1] == 0 && G.Blanks(c[e..], false)
  {}
}
