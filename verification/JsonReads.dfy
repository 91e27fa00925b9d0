/**
 * Every JSON text of RFC 8259 is read as the value it denotes, if it is not nested more than
 * 1000 deep, no numeral in it is longer than 63 characters and no surrogate stands alone.
 */
module JsonReads {
  import opened Bytes
  import opened Decimal
  import opened JsonText
  import opened JsonScan
  import opened JsonNumerals
  import G = JsonGrammar

  // ----- blanks

  lemma BlanksThen(c: bytes, p: nat, blanks: bytes)
    requires At(c, p, blanks) && G.Blanks(blanks, true)
    requires p + |blanks| < |c| && c[p + |blanks|] > 32
    ensures Skip(c, p) == p + |blanks|
  {
    hide At, Skip;
    AtAll(c, p, blanks);
    SkipTo(c, p, p + |blanks|);
  }

  /** Behind blanks and a byte that is none, no numeral goes on. */
  lemma BlanksEnd(c: bytes, e: nat, blanks: bytes)
    requires At(c, e, blanks) && G.Blanks(blanks, true)
    requires e + |blanks| < |c| ==> !IsNumberChar(c[e + |blanks|])
    ensures NumberEnds(c, e)
  {
    hide At;
    if blanks != [] { AtIndex(c, e, blanks, 0); }
  }

  // ----- numbers

  lemma {:induction false} LongNumberText(c: bytes, off: nat, s: bytes, room: nat)
    requires At(c, off, s) && room <= |s| && NumberChars(s)
    ensures NumberText(c, off, room) == s[..room]
    decreases room
  {
    if room > 0 {
      assert s == [s[0]] + s[1..];
      AtConcat(c, off, [s[0]], s[1..]);
      AtIndex(c, off, s, 0);
      LongNumberText(c, off + 1, s[1..], room - 1);
    }
  }

  predicate NumberChars(s: bytes) {
    forall i :: 0 <= i < |s| ==> IsNumberChar(s[i])
  }

  lemma NumberCharsConcat(a: bytes, b: bytes)
    requires NumberChars(a) && NumberChars(b)
    ensures NumberChars(a + b)
  {}

  lemma NumeralChars(n: G.Numeral)
    ensures NumberChars(G.WrittenNumeral(n))
  {
    hide NumberChars;
    var sign := G.WrittenSign(if n.negative then G.Minus else G.NoSign);
    var whole, fraction, exponent := G.DigitChars(n.integer), G.WrittenFraction(n.fraction), G.WrittenExponent(n.exponent);
    PartsAreNumberChars(n);
    NumberCharsConcat(fraction, exponent);
    NumberCharsConcat(whole, fraction + exponent);
    NumberCharsConcat(sign, whole + (fraction + exponent));
  }

  lemma PartsAreNumberChars(n: G.Numeral)
    ensures NumberChars(G.WrittenSign(if n.negative then G.Minus else G.NoSign))
    ensures NumberChars(G.DigitChars(n.integer))
    ensures NumberChars(G.WrittenFraction(n.fraction)) && NumberChars(G.WrittenExponent(n.exponent))
  {
    hide NumberChars, G.DigitChars;
    DigitsAreNumberChars(n.integer);
    SignsAreNumberChars();
    if n.fraction.Some? {
      DigitsAreNumberChars(n.fraction.value);
      NumberCharsConcat([46], G.DigitChars(n.fraction.value));
    }
    if n.exponent.Some? {
      var e := n.exponent.value;
      DigitsAreNumberChars(e.digits);
      NumberCharsConcat(G.WrittenSign(e.sign), G.DigitChars(e.digits));
      NumberCharsConcat([if e.capital then 69 else 101], G.WrittenSign(e.sign) + G.DigitChars(e.digits));
    }
  }

  lemma DigitsAreNumberChars(ds: seq<G.Digit>)
    ensures NumberChars(G.DigitChars(ds))
  {}

  lemma SignsAreNumberChars()
    ensures NumberChars([]) && NumberChars([43]) && NumberChars([45]) && NumberChars([46])
    ensures NumberChars([69]) && NumberChars([101])
  {}

  lemma NumeralStart(n: G.Numeral)
    requires G.FormedNumeral(n, true)
    ensures var s := G.WrittenNumeral(n);
            |s| > 0 && (IsDigit(s[0]) || (s[0] == 45 && |s| > 1 && IsDigit(s[1])))
  {
    hide G.WrittenFraction, G.WrittenExponent;
  }

  /** A numeral of up to 63 characters is read whole, a longer one by its first 63. */
  lemma NumberReads(c: bytes, off: nat, n: G.Numeral)
    requires G.FormedNumeral(n, true)
    requires At(c, off, G.WrittenNumeral(n)) && NumberEnds(c, off + |G.WrittenNumeral(n)|)
    ensures var s := G.WrittenNumeral(n);
            if |s| <= 63 then NumberLiteral(c, off) == Some((G.NumeralValue(n), off + |s|))
            else
              && NumberLiteral(c, off).Some?
              && NumberLiteral(c, off).value.0 == Strtod(s[..63]).0
              && NumberLiteral(c, off).value.1 < off + |s| <= |c|
              && IsNumberChar(c[NumberLiteral(c, off).value.1])
  {
    hide At, Strtod, NumberEnds, NumberText, IsNumberChar, G.WrittenNumeral, G.NumeralValue;
    var s := G.WrittenNumeral(n);
    NumeralChars(n);
    NumeralStart(n);
    AtAll(c, off, s);
    if |s| <= 63 {
      NumberTextIs(c, off, s, 63);
      StrtodOfNumeral(n);
    } else {
      LongNumberText(c, off, s, 63);
      StartsWithNumber(s[..63]);
    }
  }

  lemma StartsWithNumber(s: bytes)
    requires |s| > 1 && (IsDigit(s[0]) || (s[0] == 45 && IsDigit(s[1])))
    ensures Strtod(s).1 > 0
  {
    hide FractionEnd, Decimal.Exponent, Magnitude;
  }

  // ----- strings

  lemma HexAgrees(b: byte)
    ensures HexValue(b) == if G.IsHex(b) then Some(G.HexDigit(b)) else None
    ensures G.IsHex(b) ==> b != QUOTE && b != BACKSLASH
  {}

  lemma UnitAgrees(c: bytes, i: nat)
    requires i + 4 <= |c|
    ensures AllHex(c, i) <==> G.FourHex(c[i..i + 4])
    ensures Hex4(c, i) == G.CodeUnit(c[i..i + 4])
  {
    hide HexValue, G.IsHex, G.HexDigit;
    HexAgrees(c[i]);
    HexAgrees(c[i + 1]);
    HexAgrees(c[i + 2]);
    HexAgrees(c[i + 3]);
    var ds := c[i..i + 4];
    assert ds[0] == c[i] && ds[1] == c[i + 1] && ds[2] == c[i + 2] && ds[3] == c[i + 3];
    if G.FourHex(ds) {
      assert forall k :: i <= k < i + 4 ==> HexValue(c[k]).Some?;
    }
  }

  lemma UnitFollows(c: bytes, i: nat, digits: bytes)
    requires |digits| == 4 && At(c, i, ['\\' as int, 'u' as int] + digits)
    ensures i + 6 <= |c| && c[i] == BACKSLASH && c[i + 1] == LETTER_U && c[i + 2..i + 6] == digits
    ensures AllHex(c, i + 2) <==> G.FourHex(digits)
    ensures Hex4(c, i + 2) == G.CodeUnit(digits)
  {
    hide At, AllHex, Hex4, G.FourHex, G.CodeUnit;
    var head: bytes := ['\\' as int, 'u' as int];
    AtConcat(c, i, head, digits);
    AtIndex(c, i, head, 0);
    AtIndex(c, i, head, 1);
    assert c[i + 2..i + 6] == digits by { AtSlice(c, i + 2, digits); }
    UnitAgrees(c, i + 2);
  }

  lemma AtSlice(c: bytes, i: nat, s: bytes)
    requires At(c, i, s)
    ensures i + |s| <= |c| && c[i..i + |s|] == s
  {}

  lemma ScanUnit(c: bytes, i: nat)
    requires i + 6 <= |c| && c[i] == BACKSLASH && c[i + 1] == LETTER_U && AllHex(c, i + 2)
    ensures ScanEnd(c, i) == ScanEnd(c, i + 6)
  {
    forall k | i + 2 <= k < i + 6 ensures c[k] != QUOTE && c[k] != BACKSLASH {
      assert HexValue(c[k]).Some?;
    }
    assert ScanEnd(c, i) == ScanEnd(c, i + 2);
    assert ScanEnd(c, i + 2) == ScanEnd(c, i + 3);
    assert ScanEnd(c, i + 3) == ScanEnd(c, i + 4);
    assert ScanEnd(c, i + 4) == ScanEnd(c, i + 5);
    assert ScanEnd(c, i + 5) == ScanEnd(c, i + 6);
  }

  lemma SurrogateIsHex(ds: bytes)
    requires G.IsHigh(G.CodeUnit(ds)) || G.IsLow(G.CodeUnit(ds))
    ensures G.FourHex(ds)
  {}

  lemma PairFollows(c: bytes, i: nat, high: bytes, low: bytes)
    requires |high| == |low| == 4 && At(c, i, G.WrittenChar(G.Pair(high, low)))
    ensures At(c, i, ['\\' as int, 'u' as int] + high)
    ensures At(c, i + 6, ['\\' as int, 'u' as int] + low)
  {
    hide At;
    AtConcat(c, i, ['\\' as int, 'u' as int] + high, ['\\' as int, 'u' as int] + low);
  }

  /** The first pass steps over one character of a string. */
  lemma ScanChar(c: bytes, i: nat, ch: G.Char)
    requires G.FormedChar(ch, true) && At(c, i, G.WrittenChar(ch))
    ensures i + |G.WrittenChar(ch)| <= |c| && ScanEnd(c, i) == ScanEnd(c, i + |G.WrittenChar(ch)|)
  {
    hide At, AllHex, Hex4, G.CodeUnit;
    match ch
    case Plain(_) => AtIndex(c, i, G.WrittenChar(ch), 0);
    case Escaped(_) => AtAll(c, i, G.WrittenChar(ch));
    case Unit(digits) =>
      UnitFollows(c, i, digits);
      ScanUnit(c, i);
    case Pair(high, low) =>
      PairFollows(c, i, high, low);
      SurrogateIsHex(high);
      SurrogateIsHex(low);
      UnitFollows(c, i, high);
      ScanUnit(c, i);
      UnitFollows(c, i + 6, low);
      ScanUnit(c, i + 6);
  }

  lemma {:induction false} ScanChars(c: bytes, i: nat, chars: seq<G.Char>)
    requires G.FormedChars(chars, true)
    requires At(c, i, G.WrittenChars(chars)) && At(c, i + |G.WrittenChars(chars)|, [QUOTE])
    ensures ScanEnd(c, i) == Some(i + |G.WrittenChars(chars)|)
    decreases |chars|
  {
    hide At, G.WrittenChar, G.FormedChar;
    if chars == [] {
      AtIndex(c, i, [QUOTE], 0);
    } else {
      AtConcat(c, i, G.WrittenChar(chars[0]), G.WrittenChars(chars[1..]));
      ScanChar(c, i, chars[0]);
      ScanChars(c, i + |G.WrittenChar(chars[0])|, chars[1..]);
    }
  }

  /** The second pass stores what one character denotes. */
  lemma DecodeChar(c: bytes, i: nat, ch: G.Char, end: nat)
    requires G.FormedChar(ch, false) && At(c, i, G.WrittenChar(ch)) && i < end < |c|
    requires i + |G.WrittenChar(ch)| <= if ch.Escaped? then end + 1 else end
    ensures DecodeBody(c, i, end) == Prepend(G.CharMeaning(ch), DecodeBody(c, i + |G.WrittenChar(ch)|, end))
  {
    hide At, AllHex, Hex4, G.CodeUnit, G.FourHex, Utf8.Encode;
    match ch
    case Plain(_) => AtIndex(c, i, G.WrittenChar(ch), 0);
    case Escaped(_) => AtAll(c, i, G.WrittenChar(ch));
    case Unit(digits) =>
      UnitFollows(c, i, digits);
      UnitLiteral(c, i, end);
    case Pair(high, low) =>
      PairFollows(c, i, high, low);
      UnitFollows(c, i, high);
      UnitFollows(c, i + 6, low);
      PairLiteral(c, i, end);
  }

  lemma UnitLiteral(c: bytes, i: nat, end: nat)
    requires i + 6 <= end < |c| && !IsHighSurrogate(Hex4(c, i + 2)) && !IsLowSurrogate(Hex4(c, i + 2))
    ensures Utf16Literal(c, i, end) == (6, G.Utf8Of(Hex4(c, i + 2)))
  {
    hide AllHex, Utf8.Encode;
  }

  lemma PairLiteral(c: bytes, i: nat, end: nat)
    requires i + 12 <= end < |c| && c[i + 6] == BACKSLASH && c[i + 7] == LETTER_U
    requires IsHighSurrogate(Hex4(c, i + 2)) && IsLowSurrogate(Hex4(c, i + 8))
    ensures Utf16Literal(c, i, end)
         == (12, G.Utf8Of(0x10000 + 0x400 * (Hex4(c, i + 2) as int - 0xD800) + (Hex4(c, i + 8) as int - 0xDC00)))
  {
    hide AllHex, Hex4, Utf8.Encode;
  }

  /** A surrogate that stands alone is refused. */
  lemma LoneIsRefused(c: bytes, i: nat, chars: seq<G.Char>)
    requires chars != [] && G.FormedChars(chars, true) && G.Unsplit(chars) && G.Lone(chars[0])
    requires At(c, i, G.WrittenChars(chars)) && i + |G.WrittenChars(chars)| < |c|
    ensures DecodeBody(c, i, i + |G.WrittenChars(chars)|) == None
  {
    hide At, AllHex, Hex4, G.CodeUnit, G.FourHex, Utf8.Encode;
    var digits := chars[0].digits;
    var end := i + |G.WrittenChars(chars)|;
    AtConcat(c, i, G.WrittenChar(chars[0]), G.WrittenChars(chars[1..]));
    UnitFollows(c, i, digits);
    if |chars| > 1 && G.IsHigh(G.CodeUnit(digits)) {
      NoLowFollows(c, i + 6, chars[1..], end);
    } else {
      assert |chars| == 1 ==> chars[1..] == [];
    }
  }

  /** What follows is no escape of a low surrogate. */
  lemma NoLowFollows(c: bytes, p: nat, chars: seq<G.Char>, end: nat)
    requires chars != [] && G.FormedChar(chars[0], true) && !(chars[0].Unit? && G.IsLow(G.CodeUnit(chars[0].digits)))
    requires At(c, p, G.WrittenChars(chars)) && end == p + |G.WrittenChars(chars)| < |c|
    ensures end - p < 6 || c[p] != BACKSLASH || c[p + 1] != LETTER_U || !IsLowSurrogate(Hex4(c, p + 2))
  {
    hide At, AllHex, Hex4, G.CodeUnit, G.FourHex;
    var ch := chars[0];
    AtConcat(c, p, G.WrittenChar(ch), G.WrittenChars(chars[1..]));
    match ch
    case Plain(_) => AtIndex(c, p, G.WrittenChar(ch), 0);
    case Escaped(_) => AtAll(c, p, G.WrittenChar(ch));
    case Unit(digits) => UnitFollows(c, p, digits);
    case Pair(high, low) =>
      PairFollows(c, p, high, low);
      UnitFollows(c, p, high);
  }

  lemma StrictIsTolerated(ch: G.Char)
    requires G.FormedChar(ch, true) && !G.Lone(ch)
    ensures G.FormedChar(ch, false)
  {}

  lemma {:induction false} DecodeChars(c: bytes, i: nat, chars: seq<G.Char>)
    requires G.FormedChars(chars, true) && G.Unsplit(chars)
    requires At(c, i, G.WrittenChars(chars)) && i + |G.WrittenChars(chars)| < |c|
    ensures DecodeBody(c, i, i + |G.WrittenChars(chars)|)
         == if G.PairedChars(chars) then Some(G.CharsMeaning(chars)) else None
    decreases |chars|
  {
    hide At, G.CharMeaning, DecodeBody, G.Lone, G.FormedChar, G.IsHigh, G.IsLow;
    if chars == [] {
      DecodeNothing(c, i);
    } else if G.Lone(chars[0]) {
      LoneIsRefused(c, i, chars);
    } else {
      var w := G.WrittenChar(chars[0]);
      AtConcat(c, i, w, G.WrittenChars(chars[1..]));
      StrictIsTolerated(chars[0]);
      DecodeChar(c, i, chars[0], i + |G.WrittenChars(chars)|);
      UnsplitRest(chars);
      DecodeChars(c, i + |w|, chars[1..]);
    }
  }

  lemma UnsplitRest(chars: seq<G.Char>)
    requires chars != [] && G.Unsplit(chars)
    ensures G.Unsplit(chars[1..])
  {}

  lemma DecodeNothing(c: bytes, i: nat)
    requires i < |c|
    ensures DecodeBody(c, i, i) == Some([])
  {}

  lemma StringReads(c: bytes, off: nat, d: G.Doc)
    requires G.FormedString(d, true) && At(c, off, G.Written(d))
    ensures off < |c|
    ensures StringLiteral(c, off)
         == if G.PairedChars(d.chars) then Some((CStr(G.CharsMeaning(d.chars)), off + |G.Written(d)|)) else None
  {
    hide At, G.WrittenChars, ScanEnd, DecodeBody, CStr, G.CharsMeaning, G.FormedChars, G.Unsplit, G.PairedChars;
    var w := G.WrittenChars(d.chars);
    AtConcat(c, off, [QUOTE], w + [QUOTE]);
    AtConcat(c, off + 1, w, [QUOTE]);
    AtIndex(c, off, [QUOTE], 0);
    AtIndex(c, off + 1 + |w|, [QUOTE], 0);
    ScanChars(c, off + 1, d.chars);
    DecodeChars(c, off + 1, d.chars);
  }

  // ----- values

  /** Nothing was read, or reading stopped within a numeral. */
  ghost predicate Refused<T>(c: bytes, r: Option<(T, nat)>) {
    r.Some? ==> r.value.1 < |c| && IsNumberChar(c[r.value.1])
  }

  predicate Readable(d: G.Doc, depth: nat) {
    G.ShortNumerals(d) && G.Paired(d) && depth + G.Depth(d) <= 1000
  }

  predicate ReadableItems(items: seq<G.Item>, depth: nat) {
    G.ShortInItems(items) && G.PairedItems(items) && depth + G.DepthOfItems(items) <= 1000
  }

  predicate ReadableMembers(members: seq<G.Pairing>, depth: nat) {
    G.ShortInMembers(members) && G.PairedMembers(members) && depth + G.DepthOfMembers(members) <= 1000
  }

  /** The first character tells the kind of a value. */
  predicate Starts(d: G.Doc, b: byte) {
    match d
    case NullText => b == 'n' as int
    case FalseText => b == 'f' as int
    case TrueText => b == 't' as int
    case NumberText(_) => b == '-' as int || '0' as int <= b <= '9' as int
    case StringText(_, _) => b == '"' as int
    case ArrayText(_, _) => b == '[' as int
    case ObjectText(_, _) => b == '{' as int
  }

  lemma Start(d: G.Doc)
    requires G.Formed(d, true)
    ensures G.Written(d) != [] && Starts(d, G.Written(d)[0])
  {
    hide G.WrittenNumeral, G.WrittenChars, G.WrittenItems, G.WrittenMembers;
    if d.NumberText? { NumeralStart(d.numeral); }
  }

  lemma StartAt(c: bytes, off: nat, d: G.Doc)
    requires G.Formed(d, true) && At(c, off, G.Written(d))
    ensures off < |c| && Starts(d, c[off])
  {
    hide At, G.Written, Starts;
    Start(d);
    AtIndex(c, off, G.Written(d), 0);
  }

  lemma {:induction false} ValueReads(c: bytes, off: nat, d: G.Doc, depth: nat)
    requires G.Formed(d, true) && depth <= 1000
    requires At(c, off, G.Written(d)) && NumberEnds(c, off + |G.Written(d)|)
    ensures off <= |c|
    ensures var r := Value(c, off, depth);
            if Readable(d, depth) then r == Some((G.CutTexts(G.Meaning(d)), off + |G.Written(d)|))
            else Refused(c, r) && (d.NumberText? || r == None)
    decreases d, 1
  {
    hide At, NumberEnds, StringLiteral, NumberLiteral, ArrayLiteral, ObjectLiteral, G.WrittenNumeral, G.WrittenChars,
      G.WrittenItems, G.WrittenMembers, G.FormedNumeral, G.FormedString, G.NumeralValue, G.PairedChars;
    StartAt(c, off, d);
    match d
    case NullText =>
    case FalseText => OtherWord(c, off, NULL_TEXT);
    case TrueText =>
      OtherWord(c, off, NULL_TEXT);
      OtherWord(c, off, FALSE_TEXT);
    case NumberText(n) =>
      NotAWord(c, off);
      NumberReads(c, off, n);
    case StringText(_, _) =>
      NotAWord(c, off);
      StringReads(c, off, d);
    case ArrayText(_, _) =>
      NotAWord(c, off);
      ArrayReads(c, off, d, depth);
    case ObjectText(_, _) =>
      NotAWord(c, off);
      ObjectReads(c, off, d, depth);
  }

  lemma {:induction false} ArrayReads(c: bytes, off: nat, d: G.Doc, depth: nat)
    requires d.ArrayText? && G.Formed(d, true) && depth <= 1000
    requires At(c, off, G.Written(d))
    ensures off < |c|
    ensures ArrayLiteral(c, off, depth)
         == if Readable(d, depth) then Some((G.CutTexts(G.Meaning(d)), off + |G.Written(d)|)) else None
    decreases d, 0
  {
    hide At, Items, Value, Skip, Readable, G.WrittenItems, G.Blanks, G.FormedItems, ReadableItems, G.CutItems,
      G.ItemsMeaning;
    var body := if d.items == [] then d.blanks else G.WrittenItems(d.items);
    AtConcat(c, off, [OPEN_ARRAY], body + [CLOSE_ARRAY]);
    AtConcat(c, off + 1, body, [CLOSE_ARRAY]);
    AtIndex(c, off, [OPEN_ARRAY], 0);
    AtIndex(c, off + 1 + |body|, [CLOSE_ARRAY], 0);
    if d.items == [] {
      BlanksThen(c, off + 1, d.blanks);
      Empty(d, depth);
    } else if depth < 1000 {
      ItemsStart(c, off + 1, d.items);
      ItemsRead(c, Skip(c, off + 1), off + 1, d.items, depth + 1);
      ReadableArray(d, depth);
    } else {
      TooDeep(d);
    }
  }

  lemma Empty(d: G.Doc, depth: nat)
    ensures d.ArrayText? && d.items == [] ==>
              G.CutTexts(G.Meaning(d)) == Array([]) && (Readable(d, depth) <==> depth < 1000)
    ensures d.ObjectText? && d.members == [] ==>
              G.CutTexts(G.Meaning(d)) == Object([]) && (Readable(d, depth) <==> depth < 1000)
  {
    assert G.DepthOfItems([]) == 0 && G.DepthOfMembers([]) == 0 && G.ShortInItems([]) && G.ShortInMembers([]);
    assert G.PairedItems([]) && G.PairedMembers([]);
    assert G.CutItems(G.ItemsMeaning([])) == [] && G.CutMembers(G.MembersMeaning([])) == [];
  }

  lemma TooDeep(d: G.Doc)
    requires d.ArrayText? || d.ObjectText?
    ensures !Readable(d, 1000)
  {}

  lemma ReadableArray(d: G.Doc, depth: nat)
    requires d.ArrayText?
    ensures Readable(d, depth) <==> ReadableItems(d.items, depth + 1)
  {}

  lemma ItemsStart(c: bytes, s: nat, items: seq<G.Item>)
    requires items != [] && G.FormedItems(items, true) && At(c, s, G.WrittenItems(items))
    ensures var p := s + |items[0].before|;
            s < |c| && p < |c| && Skip(c, s) == p && Skip(c, p) == p && c[p] > 32 && c[p] != CLOSE_ARRAY
  {
    hide At, G.Written, Skip, G.Blanks;
    ItemParts(c, s, items);
    var p := s + |items[0].before|;
    StartAt(c, p, items[0].value);
    BlanksThen(c, s, items[0].before);
    SkipTo(c, p, p);
  }

  /** The pieces of the first item, and what follows it. */
  lemma ItemParts(c: bytes, s: nat, items: seq<G.Item>)
    requires items != [] && At(c, s, G.WrittenItems(items))
    ensures var p := s + |items[0].before|;
            var e := p + |G.Written(items[0].value)|;
            var f := e + |items[0].after|;
            && At(c, s, items[0].before) && At(c, p, G.Written(items[0].value)) && At(c, e, items[0].after)
            && (|items| == 1 ==> f == s + |G.WrittenItems(items)|)
            && (|items| > 1 ==>
                  f < |c| && c[f] == COMMA && At(c, f + 1, G.WrittenItems(items[1..]))
                  && f + 1 + |G.WrittenItems(items[1..])| == s + |G.WrittenItems(items)|)
  {
    hide At, G.Written;
    var a, b, x := items[0].before, G.Written(items[0].value), items[0].after;
    var rest := if |items| == 1 then [] else [COMMA] + G.WrittenItems(items[1..]);
    AtConcat(c, s, a, b + (x + rest));
    AtConcat(c, s + |a|, b, x + rest);
    AtConcat(c, s + |a| + |b|, x, rest);
    if |items| > 1 {
      var f := s + |a| + |b| + |x|;
      AtConcat(c, f, [COMMA], G.WrittenItems(items[1..]));
      AtIndex(c, f, [COMMA], 0);
    }
  }

  /** Reading stops within a numeral and goes no further. */
  lemma StuckHere(c: bytes, e: nat)
    requires e < |c| && IsNumberChar(c[e])
    ensures Skip(c, e) == e && c[e] != COMMA && c[e] != COLON && c[e] != CLOSE_ARRAY && c[e] != CLOSE_OBJECT
  {
    SkipTo(c, e, e);
  }

  lemma {:induction false} ItemsRead(c: bytes, p: nat, s: nat, items: seq<G.Item>, depth: nat)
    requires items != [] && G.FormedItems(items, true) && depth <= 1000
    requires At(c, s, G.WrittenItems(items)) && At(c, s + |G.WrittenItems(items)|, [CLOSE_ARRAY])
    requires p <= |c| && Skip(c, p) == s + |items[0].before|
    ensures var r := Items(c, p, depth);
            if ReadableItems(items, depth) then
              r == Some((G.CutItems(G.ItemsMeaning(items)), s + |G.WrittenItems(items)|))
            else Refused(c, r)
    decreases items, 0
  {
    hide At, Value, Items, Skip, NumberEnds, IsNumberChar, G.Written, G.WrittenItems, G.Blanks, G.Formed, G.FormedItems,
      Readable, ReadableItems, G.CutTexts, G.Meaning, G.CutItems, G.ItemsMeaning;
    ItemParts(c, s, items);
    FormedParts(items);
    OneItem(c, p, depth);
    AtIndex(c, s + |G.WrittenItems(items)|, [CLOSE_ARRAY], 0);
    var v := s + |items[0].before|;
    var e := v + |G.Written(items[0].value)|;
    NotANumberChar();
    BlanksEnd(c, e, items[0].after);
    BlanksThen(c, e, items[0].after);
    ValueReads(c, v, items[0].value, depth);
    ReadableParts(items, depth);
    CutParts(items);
    if !Readable(items[0].value, depth) {
      if Value(c, v, depth).Some? { StuckHere(c, Value(c, v, depth).value.1); }
    } else if |items| > 1 {
      var f := e + |items[0].after|;
      ItemsStart(c, f + 1, items[1..]);
      ItemsRead(c, f + 1, f + 1, items[1..], depth);
    }
  }

  lemma FormedParts(items: seq<G.Item>)
    requires items != [] && G.FormedItems(items, true)
    ensures G.Blanks(items[0].before, true) && G.Formed(items[0].value, true) && G.Blanks(items[0].after, true)
    ensures G.FormedItems(items[1..], true)
  {}

  /** How Items goes on behind the first element. */
  lemma OneItem(c: bytes, p: nat, depth: nat)
    requires p <= |c|
    ensures var r := Value(c, Skip(c, p), depth);
            match r
            case None => Items(c, p, depth) == None
            case Some((v, e)) =>
              var q := Skip(c, e);
              if q < |c| && c[q] == COMMA then
                Items(c, p, depth)
                == match Items(c, q + 1, depth)
                   case None => None
                   case Some((rest, f)) => Some(([v] + rest, f))
              else Items(c, p, depth) == Some(([v], q))
  {
    hide Value, Skip;
  }

  lemma NotANumberChar()
    ensures !IsNumberChar(COMMA) && !IsNumberChar(COLON) && !IsNumberChar(CLOSE_ARRAY) && !IsNumberChar(CLOSE_OBJECT)
  {}

  lemma ReadableParts(items: seq<G.Item>, depth: nat)
    requires items != [] && depth <= 1000
    ensures ReadableItems(items, depth)
       <==> Readable(items[0].value, depth) && (|items| == 1 || ReadableItems(items[1..], depth))
  {
    hide G.ShortNumerals, G.Depth, G.Paired, G.PairedKey;
    if |items| == 1 { assert G.DepthOfItems([]) == 0 && G.ShortInItems([]) && G.PairedItems([]) && items[1..] == []; }
  }

  lemma CutParts(items: seq<G.Item>)
    requires items != []
    ensures G.CutItems(G.ItemsMeaning(items))
         == if |items| == 1 then [G.CutTexts(G.Meaning(items[0].value))]
            else [G.CutTexts(G.Meaning(items[0].value))] + G.CutItems(G.ItemsMeaning(items[1..]))
  {
    hide G.CutTexts, G.Meaning;
    var ts := G.ItemsMeaning(items);
    assert ts[1..] == G.ItemsMeaning(items[1..]);
    if |items| == 1 { assert items[1..] == []; }
  }

  // ----- objects

  /** Where the parts of a member stand, from where its blanks start. */
  function KeyAt(s: nat, m: G.Pairing): (r: nat) { s + |m.before| }
  function KeyEnd(s: nat, m: G.Pairing): (r: nat) { KeyAt(s, m) + |G.Written(m.key)| }
  function ColonAt(s: nat, m: G.Pairing): (r: nat) { KeyEnd(s, m) + |m.between| }
  function ValueAt(s: nat, m: G.Pairing): (r: nat) { ColonAt(s, m) + 1 + |m.gap| }
  function ValueEnd(s: nat, m: G.Pairing): (r: nat) { ValueAt(s, m) + |G.Written(m.value)| }
  function MemberStop(s: nat, m: G.Pairing): (r: nat) { ValueEnd(s, m) + |m.after| }

  lemma {:induction false} ObjectReads(c: bytes, off: nat, d: G.Doc, depth: nat)
    requires d.ObjectText? && G.Formed(d, true) && depth <= 1000
    requires At(c, off, G.Written(d))
    ensures off < |c|
    ensures ObjectLiteral(c, off, depth)
         == if Readable(d, depth) then Some((G.CutTexts(G.Meaning(d)), off + |G.Written(d)|)) else None
    decreases d, 0
  {
    hide At, Members, Value, Skip, Readable, G.WrittenMembers, G.Blanks, G.FormedMembers, ReadableMembers,
      G.CutMembers, G.MembersMeaning;
    var body := if d.members == [] then d.blanks else G.WrittenMembers(d.members);
    AtConcat(c, off, [OPEN_OBJECT], body + [CLOSE_OBJECT]);
    AtConcat(c, off + 1, body, [CLOSE_OBJECT]);
    AtIndex(c, off, [OPEN_OBJECT], 0);
    AtIndex(c, off + 1 + |body|, [CLOSE_OBJECT], 0);
    if d.members == [] {
      BlanksThen(c, off + 1, d.blanks);
      Empty(d, depth);
    } else if depth < 1000 {
      FirstKey(c, off + 1, d.members);
      MembersRead(c, Skip(c, off + 1), off + 1, d.members, depth + 1);
      ReadableObject(d, depth);
    } else {
      TooDeep(d);
    }
  }

  lemma ReadableObject(d: G.Doc, depth: nat)
    requires d.ObjectText?
    ensures Readable(d, depth) <==> ReadableMembers(d.members, depth + 1)
  {}

  lemma FirstKey(c: bytes, s: nat, members: seq<G.Pairing>)
    requires members != [] && G.FormedMembers(members, true) && At(c, s, G.WrittenMembers(members))
    ensures var p := KeyAt(s, members[0]);
            s < |c| && p < |c| && Skip(c, s) == p && Skip(c, p) == p && c[p] == QUOTE
  {
    hide At, G.Written, Skip, G.Blanks, G.FormedString;
    MemberParts(c, s, members);
    var p := KeyAt(s, members[0]);
    KeyStart(c, p, members[0].key);
    BlanksThen(c, s, members[0].before);
    SkipTo(c, p, p);
  }

  lemma KeyStart(c: bytes, p: nat, key: G.Doc)
    requires G.FormedString(key, true) && At(c, p, G.Written(key))
    ensures p < |c| && c[p] == QUOTE
  {
    hide At, G.FormedChars, G.WrittenChars;
    AtIndex(c, p, G.Written(key), 0);
  }

  lemma MemberParts(c: bytes, s: nat, members: seq<G.Pairing>)
    requires members != [] && At(c, s, G.WrittenMembers(members))
    ensures var m, f := members[0], MemberStop(s, members[0]);
            && At(c, s, m.before) && At(c, KeyAt(s, m), G.Written(m.key)) && At(c, KeyEnd(s, m), m.between)
            && At(c, ColonAt(s, m), [COLON]) && At(c, ColonAt(s, m) + 1, m.gap)
            && At(c, ValueAt(s, m), G.Written(m.value)) && At(c, ValueEnd(s, m), m.after)
            && (|members| == 1 ==> f == s + |G.WrittenMembers(members)|)
            && (|members| > 1 ==>
                  f < |c| && c[f] == COMMA && At(c, f + 1, G.WrittenMembers(members[1..]))
                  && f + 1 + |G.WrittenMembers(members[1..])| == s + |G.WrittenMembers(members)|)
  {
    hide At, G.Written;
    var m := members[0];
    var rest := if |members| == 1 then [] else [COMMA] + G.WrittenMembers(members[1..]);
    var tail := m.gap + (G.Written(m.value) + (m.after + rest));
    AtConcat(c, s, m.before, G.Written(m.key) + (m.between + ([COLON] + tail)));
    AtConcat(c, KeyAt(s, m), G.Written(m.key), m.between + ([COLON] + tail));
    AtConcat(c, KeyEnd(s, m), m.between, [COLON] + tail);
    AtConcat(c, ColonAt(s, m), [COLON], tail);
    AtConcat(c, ColonAt(s, m) + 1, m.gap, G.Written(m.value) + (m.after + rest));
    AtConcat(c, ValueAt(s, m), G.Written(m.value), m.after + rest);
    AtConcat(c, ValueEnd(s, m), m.after, rest);
    if |members| > 1 {
      AtConcat(c, MemberStop(s, m), [COMMA], G.WrittenMembers(members[1..]));
      AtIndex(c, MemberStop(s, m), [COMMA], 0);
    }
  }

  /** What stands behind the first member: the comma or the closing brace. */
  lemma MemberStops(c: bytes, s: nat, members: seq<G.Pairing>)
    requires members != [] && At(c, s, G.WrittenMembers(members))
    requires At(c, s + |G.WrittenMembers(members)|, [CLOSE_OBJECT])
    ensures var f := MemberStop(s, members[0]);
            f < |c| && c[f] == if |members| == 1 then CLOSE_OBJECT else COMMA
  {
    hide At, G.WrittenMembers;
    MemberParts(c, s, members);
    AtIndex(c, s + |G.WrittenMembers(members)|, [CLOSE_OBJECT], 0);
  }

  lemma KeyReads(c: bytes, p: nat, s: nat, members: seq<G.Pairing>)
    requires members != [] && G.FormedMembers(members, true) && At(c, s, G.WrittenMembers(members))
    requires p < |c| && Skip(c, p) == KeyAt(s, members[0])
    ensures KeyLiteral(c, p)
         == if G.PairedKey(members[0].key) then Some((CStr(G.KeyMeaning(members[0].key)), ColonAt(s, members[0]))) else None
  {
    hide At, Skip, StringLiteral, CStr, G.Written, G.Blanks, G.FormedString, G.CharsMeaning, G.PairedChars;
    var m := members[0];
    MemberParts(c, s, members);
    KeyIsString(m.key);
    StringReads(c, KeyAt(s, m), m.key);
    AtIndex(c, ColonAt(s, m), [COLON], 0);
    BlanksThen(c, KeyEnd(s, m), m.between);
  }

  lemma KeyIsString(key: G.Doc)
    requires G.FormedString(key, true)
    ensures key.StringText?
  {}

  lemma {:induction false} OneMemberReads(c: bytes, p: nat, s: nat, members: seq<G.Pairing>, depth: nat)
    requires members != [] && G.FormedMembers(members, true) && depth <= 1000
    requires At(c, s, G.WrittenMembers(members)) && At(c, s + |G.WrittenMembers(members)|, [CLOSE_OBJECT])
    requires p < |c| && Skip(c, p) == KeyAt(s, members[0])
    ensures var m, r := members[0], OneMember(c, p, depth);
            if G.PairedKey(m.key) && Readable(m.value, depth) then
              r == Some((Member(CStr(G.KeyMeaning(m.key)), G.CutTexts(G.Meaning(m.value))), MemberStop(s, m)))
            else Refused(c, r)
    decreases members, 0
  {
    hide At, Skip, KeyLiteral, Value, NumberEnds, IsNumberChar, CStr, G.Written, G.WrittenMembers, G.Blanks, G.Formed,
      G.FormedString, G.KeyMeaning, G.PairedKey, G.CutTexts, G.Meaning, Readable;
    var m := members[0];
    var v := ValueAt(s, m);
    MemberParts(c, s, members);
    KeyReads(c, p, s, members);
    MemberStops(c, s, members);
    NotANumberChar();
    ValueStart(c, v, m.value);
    BlanksThen(c, ColonAt(s, m) + 1, m.gap);
    BlanksEnd(c, ValueEnd(s, m), m.after);
    BlanksThen(c, ValueEnd(s, m), m.after);
    ValueReads(c, v, m.value, depth);
    if !Readable(m.value, depth) && Value(c, v, depth).Some? { StuckHere(c, Value(c, v, depth).value.1); }
  }

  lemma ValueStart(c: bytes, v: nat, d: G.Doc)
    requires G.Formed(d, true) && At(c, v, G.Written(d))
    ensures v < |c| && c[v] > 32
  {
    hide At, G.Written;
    StartAt(c, v, d);
  }

  lemma {:induction false} MembersRead(c: bytes, p: nat, s: nat, members: seq<G.Pairing>, depth: nat)
    requires members != [] && G.FormedMembers(members, true) && depth <= 1000
    requires At(c, s, G.WrittenMembers(members)) && At(c, s + |G.WrittenMembers(members)|, [CLOSE_OBJECT])
    requires p < |c| && Skip(c, p) == KeyAt(s, members[0])
    ensures var r := Members(c, p, depth);
            if ReadableMembers(members, depth) then
              r == Some((G.CutMembers(G.MembersMeaning(members)), s + |G.WrittenMembers(members)|))
            else Refused(c, r)
    decreases members, 1
  {
    hide At, Skip, OneMember, IsNumberChar, CStr, G.Written, G.WrittenMembers, G.Blanks, G.Formed, G.FormedString,
      G.KeyMeaning, G.PairedKey, G.CutTexts, G.Meaning, G.CutMembers, G.MembersMeaning, Readable, ReadableMembers,
      MemberStop;
    var m := members[0];
    MemberParts(c, s, members);
    MemberStops(c, s, members);
    OneMemberReads(c, p, s, members, depth);
    ReadableMemberParts(members, depth);
    CutMemberParts(members);
    if !(G.PairedKey(m.key) && Readable(m.value, depth)) {
      if OneMember(c, p, depth).Some? { StuckHere(c, OneMember(c, p, depth).value.1); }
    } else if |members| > 1 {
      var f := MemberStop(s, m);
      FirstKey(c, f + 1, members[1..]);
      MembersRead(c, f + 1, f + 1, members[1..], depth);
    }
  }

  lemma ReadableMemberParts(members: seq<G.Pairing>, depth: nat)
    requires members != [] && depth <= 1000
    ensures ReadableMembers(members, depth)
       <==> G.PairedKey(members[0].key) && Readable(members[0].value, depth)
            && (|members| == 1 || ReadableMembers(members[1..], depth))
  {
    hide G.ShortNumerals, G.Depth, G.Paired, G.PairedKey;
    if |members| == 1 { assert G.DepthOfMembers([]) == 0 && G.ShortInMembers([]) && G.PairedMembers([]) && members[1..] == []; }
  }

  lemma CutMemberParts(members: seq<G.Pairing>)
    requires members != []
    ensures G.CutMembers(G.MembersMeaning(members))
         == if |members| == 1 then [Member(CStr(G.KeyMeaning(members[0].key)), G.CutTexts(G.Meaning(members[0].value)))]
            else [Member(CStr(G.KeyMeaning(members[0].key)), G.CutTexts(G.Meaning(members[0].value)))]
                 + G.CutMembers(G.MembersMeaning(members[1..]))
  {
    hide G.CutTexts, G.Meaning, CStr, G.KeyMeaning;
    var ms := G.MembersMeaning(members);
    assert ms[1..] == G.MembersMeaning(members[1..]);
    if |members| == 1 { assert members[1..] == []; }
  }

  // ----- documents

  const MARK: bytes := [0xEF, 0xBB, 0xBF]

  lemma MarkIsSkipped(c: bytes, bom: bool)
    requires |c| > 0
    requires if bom then |c| > 4 && At(c, 0, MARK) else c[0] != 0xEF
    ensures SkipBom(c) == if bom then 3 else 0
  {
    if bom { assert c[..3] == c[0..0 + |MARK|]; }
    else if |c| > 4 { assert c[..3][0] == c[0]; }
  }

  lemma TextStart(before: bytes, d: G.Doc, rest: bytes)
    requires G.Blanks(before, true) && G.Formed(d, true)
    ensures var c := before + (G.Written(d) + rest); |c| > 0 && c[0] < 0xEF
  {
    hide G.Written, G.Formed;
    Start(d);
  }

  /** Up to the end of a zero-terminated text: blanks and the terminator. */
  lemma {:induction false} SkipToTerminator(c: bytes, i: nat)
    requires i < |c| && c[|c| - 1] == 0
    requires forall k :: i <= k < |c| ==> c[k] <= 32
    ensures SkipBlanks(c, i) == |c| && Skip(c, i) == |c| - 1
    decreases |c| - i
  {
    if i + 1 < |c| { SkipToTerminator(c, i + 1); }
  }

  /** How the pieces of a document lie in the buffer, and that its value is looked for behind the blanks. */
  lemma DocumentParts(c: bytes, bom: bool, before: bytes, d: G.Doc, rest: bytes)
    requires G.Blanks(before, true) && G.Formed(d, true)
    requires c == (if bom then MARK else []) + (before + (G.Written(d) + rest))
    requires bom ==> rest != []
    ensures var off := (if bom then 3 else 0) + |before|;
            && |c| > 0 && Skip(c, SkipBom(c)) == off
            && At(c, off, G.Written(d)) && At(c, off + |G.Written(d)|, rest)
  {
    hide At, Skip, SkipBom, G.Written, G.Formed, G.Blanks;
    var mark := if bom then MARK else [];
    var text := G.Written(d) + rest;
    TextStart(before, d, rest);
    Start(d);
    AtSelf(c);
    AtConcat(c, 0, mark, before + text);
    AtConcat(c, |mark|, before, text);
    AtConcat(c, |mark| + |before|, G.Written(d), rest);
    Unmarked(before + text);
    MarkIsSkipped(c, bom);
    ValueStart(c, |mark| + |before|, d);
    BlanksThen(c, |mark|, before);
  }

  lemma Unmarked(s: bytes)
    ensures [] + s == s
  {}

  lemma AtSelf(c: bytes)
    ensures At(c, 0, c)
  {}

  /**
   * The zero-terminated text of any JSON document, with or without a byte order mark, read with the
   * check for the terminator: the value it denotes, its strings cut at zero bytes as C strings are,
   * exactly if it is nested at most 1000 deep, has no numeral of more than 63 characters and no escape
   * of a surrogate that is not one of a pair.
   */
  lemma DocumentIsRead(bom: bool, before: bytes, d: G.Doc, after: bytes)
    requires G.Blanks(before, true) && G.Formed(d, true) && G.Blanks(after, true)
    ensures Document((if bom then [0xEF, 0xBB, 0xBF] else []) + (before + (G.Written(d) + (after + [0]))), true)
         == if G.ShortNumerals(d) && G.Paired(d) && G.Depth(d) <= 1000 then Some(G.CutTexts(G.Meaning(d))) else None
  {
    hide At, Skip, SkipBom, Value, G.Written, G.Formed, G.CutTexts, G.Meaning, G.ShortNumerals, G.Depth, G.Paired;
    var rest := after + [0];
    var c := (if bom then MARK else []) + (before + (G.Written(d) + rest));
    DocumentParts(c, bom, before, d, rest);
    var off := (if bom then 3 else 0) + |before|;
    var e := off + |G.Written(d)|;
    assert |c| == e + |rest|;
    AtAll(c, e, rest);
    ValueReads(c, off, d, 0);
    SkipToTerminator(c, e);
    if !Readable(d, 0) && Value(c, off, 0).Some? { StuckHere(c, Value(c, off, 0).value.1); }
  }

  /**
   * Without that check, as in cJSON_Parse, the text may be followed by anything that does not
   * continue a number, and a document that is one long numeral is read by its first 63 characters.
   */
  lemma UncheckedDocumentIsRead(bom: bool, before: bytes, d: G.Doc, rest: bytes)
    requires G.Blanks(before, true) && G.Formed(d, true) && (if rest == [] then !bom else !IsNumberChar(rest[0]))
    ensures Document((if bom then [0xEF, 0xBB, 0xBF] else []) + (before + (G.Written(d) + rest)), false)
         == if G.ShortNumerals(d) && G.Paired(d) && G.Depth(d) <= 1000 then Some(G.CutTexts(G.Meaning(d)))
            else if d.NumberText? && |G.Written(d)| > 63 then Some(Number(Strtod(G.Written(d)[..63]).0))
            else None
  {
    hide At, Skip, SkipBom, Value, IsNumberChar, Strtod, G.Written, G.Formed, G.CutTexts, G.Meaning, G.ShortNumerals,
      G.Depth, G.Paired;
    var c := (if bom then MARK else []) + (before + (G.Written(d) + rest));
    DocumentParts(c, bom, before, d, rest);
    var off := (if bom then 3 else 0) + |before|;
    var e := off + |G.Written(d)|;
    if rest != [] { AtIndex(c, e, rest, 0); }
    ValueReads(c, off, d, 0);
    if d.NumberText? { LongValue(c, off, d); }
  }

  lemma LongValue(c: bytes, off: nat, d: G.Doc)
    requires d.NumberText? && G.Formed(d, true)
    requires At(c, off, G.Written(d)) && NumberEnds(c, off + |G.Written(d)|)
    ensures G.ShortNumerals(d) <==> |G.Written(d)| <= 63
    ensures G.Depth(d) == 0 && G.Paired(d)
    ensures |G.Written(d)| > 63 ==>
              Value(c, off, 0).Some? && Value(c, off, 0).value.0 == Number(Strtod(G.Written(d)[..63]).0)
  {
    hide At, NumberEnds, NumberLiteral, Strtod, G.WrittenNumeral, G.FormedNumeral;
    StartAt(c, off, d);
    NotAWord(c, off);
    NumberReads(c, off, d.numeral);
  }

  /** A document whose only number has 64 characters is refused. */
  lemma ALongNumeralIsRefused()
    ensures var d := G.NumberText(G.Numeral(false, seq(64, _ => 1), None, None));
            G.Formed(d, true) && Document(G.Written(d) + [0], true) == None
  {
    hide Document;
    var d := G.NumberText(G.Numeral(false, seq(64, _ => 1), None, None));
    DocumentIsRead(false, [], d, []);
    assert [] + ([] + (G.Written(d) + ([] + [0]))) == G.Written(d) + [0];
  }
}
