/**
 * JSON texts as RFC 8259 defines them: syntax trees, the text each one is written as and the
 * value it denotes. Characters are spelled out here, and nothing is taken from the parser or
 * the printer. With `strict` the trees are those of the RFC; without it they are the wider
 * family cJSON puts up with.
 */
module JsonGrammar {
  import opened Bytes
  import JsonText
  import Utf8

  type Json = JsonText.Json
  type Digit = d: nat | d < 10

  datatype Sign = NoSign | Plus | Minus
  datatype Exponent = Exponent(capital: bool, sign: Sign, digits: seq<Digit>)
  datatype Numeral = Numeral(negative: bool, integer: seq<Digit>, fraction: Option<seq<Digit>>, exponent: Option<Exponent>)

  /** One character of a string: a byte as it is, a two-character escape, or one or two `\u` escapes. */
  datatype Char =
    | Plain(code: byte)
    | Escaped(mark: byte)
    | Unit(digits: bytes)
    | Pair(high: bytes, low: bytes)

  /**
   * `blanks` is what stands between the brackets of an empty array or object. `closed` says that a
   * string ends with a quote of its own, which every string of the RFC does.
   */
  datatype Doc =
    | NullText
    | FalseText
    | TrueText
    | NumberText(numeral: Numeral)
    | StringText(chars: seq<Char>, closed: bool)
    | ArrayText(blanks: bytes, items: seq<Item>)
    | ObjectText(blanks: bytes, members: seq<Pairing>)

  datatype Item = Item(before: bytes, value: Doc, after: bytes)

  /** A member: blanks, key, blanks, colon, blanks, value, blanks. */
  datatype Pairing = Pairing(before: bytes, key: Doc, between: bytes, gap: bytes, value: Doc, after: bytes)

  // ----- the text

  function DigitChars(ds: seq<Digit>): (s: bytes)
    ensures |s| == |ds|
    ensures forall i :: 0 <= i < |s| ==> s[i] == '0' as int + ds[i]
  {
    if ds == [] then [] else ['0' as int + ds[0]] + DigitChars(ds[1..])
  }

  function WrittenFraction(f: Option<seq<Digit>>): (s: bytes) {
    match f
    case None => []
    case Some(ds) => ['.' as int] + DigitChars(ds)
  }

  function WrittenSign(sign: Sign): (s: bytes) {
    match sign
    case NoSign => []
    case Plus => ['+' as int]
    case Minus => ['-' as int]
  }

  function WrittenExponent(x: Option<Exponent>): (s: bytes) {
    match x
    case None => []
    case Some(e) =>
      [if e.capital then 'E' as int else 'e' as int] + (WrittenSign(e.sign) + DigitChars(e.digits))
  }

  function WrittenNumeral(n: Numeral): (s: bytes) {
    WrittenSign(if n.negative then Minus else NoSign)
    + (DigitChars(n.integer) + (WrittenFraction(n.fraction) + WrittenExponent(n.exponent)))
  }

  function WrittenChar(ch: Char): (s: bytes)
    ensures s != []
  {
    match ch
    case Plain(b) => [b]
    case Escaped(mark) => ['\\' as int, mark]
    case Unit(digits) => ['\\' as int, 'u' as int] + digits
    case Pair(high, low) => ['\\' as int, 'u' as int] + high + (['\\' as int, 'u' as int] + low)
  }

  function WrittenChars(chars: seq<Char>): (s: bytes) {
    if chars == [] then [] else WrittenChar(chars[0]) + WrittenChars(chars[1..])
  }

  function Written(d: Doc): (s: bytes)
    decreases d, 1
  {
    match d
    case NullText => ['n' as int, 'u' as int, 'l' as int, 'l' as int]
    case FalseText => ['f' as int, 'a' as int, 'l' as int, 's' as int, 'e' as int]
    case TrueText => ['t' as int, 'r' as int, 'u' as int, 'e' as int]
    case NumberText(n) => WrittenNumeral(n)
    case StringText(chars, closed) => ['"' as int] + (WrittenChars(chars) + (if closed then ['"' as int] else []))
    case ArrayText(blanks, items) =>
      ['[' as int] + ((if items == [] then blanks else WrittenItems(items)) + [']' as int])
    case ObjectText(blanks, members) =>
      ['{' as int] + ((if members == [] then blanks else WrittenMembers(members)) + ['}' as int])
  }

  function WrittenItems(items: seq<Item>): (s: bytes)
    decreases items, 0
  {
    if items == [] then []
    else
      items[0].before
      + (Written(items[0].value)
         + (items[0].after
            + (if |items| == 1 then [] else [',' as int] + WrittenItems(items[1..]))))
  }

  function WrittenMembers(members: seq<Pairing>): (s: bytes)
    decreases members, 0
  {
    if members == [] then []
    else
      var m := members[0];
      m.before
      + (Written(m.key)
         + (m.between
            + ([':' as int]
               + (m.gap
                  + (Written(m.value)
                     + (m.after
                        + (if |members| == 1 then [] else [',' as int] + WrittenMembers(members[1..]))))))))
  }

  // ----- the value

  function Natural(ds: seq<Digit>): (n: nat) {
    if ds == [] then 0 else 10 * Natural(ds[..|ds| - 1]) + ds[|ds| - 1]
  }

  /** 10 to the power `k`. */
  function Ten(k: nat): (r: real)
    ensures r > 0.0
  {
    if k == 0 then 1.0 else 10.0 * Ten(k - 1)
  }

  function FractionValue(f: Option<seq<Digit>>): (r: real) {
    match f
    case None => 0.0
    case Some(ds) => Natural(ds) as real / Ten(|ds|)
  }

  function Scaled(m: real, x: Option<Exponent>): (r: real) {
    match x
    case None => m
    case Some(e) => if e.sign == Minus then m / Ten(Natural(e.digits)) else m * Ten(Natural(e.digits))
  }

  function NumeralValue(n: Numeral): (r: real) {
    var magnitude := Scaled(Natural(n.integer) as real + FractionValue(n.fraction), n.exponent);
    if n.negative then -magnitude else magnitude
  }

  predicate IsHex(b: byte) {
    '0' as int <= b <= '9' as int || 'A' as int <= b <= 'F' as int || 'a' as int <= b <= 'f' as int
  }

  predicate FourHex(ds: bytes) {
    |ds| == 4 && IsHex(ds[0]) && IsHex(ds[1]) && IsHex(ds[2]) && IsHex(ds[3])
  }

  function HexDigit(b: byte): (n: nat)
    ensures n < 16
  {
    if '0' as int <= b <= '9' as int then b as int - '0' as int
    else if 'A' as int <= b <= 'F' as int then 10 + (b as int - 'A' as int)
    else if 'a' as int <= b <= 'f' as int then 10 + (b as int - 'a' as int)
    else 0
  }

  /** The code unit four digits stand for; cJSON takes anything else for 0. */
  function CodeUnit(ds: bytes): (n: nat) {
    if FourHex(ds) then
      4096 * HexDigit(ds[0]) + 256 * HexDigit(ds[1]) + 16 * HexDigit(ds[2]) + HexDigit(ds[3])
    else 0
  }

  predicate IsHigh(u: nat) { 0xD800 <= u <= 0xDBFF }
  predicate IsLow(u: nat) { 0xDC00 <= u <= 0xDFFF }

  function Utf8Of(cp: int): (s: bytes) {
    if 0 <= cp < 0xD800 || 0xE000 <= cp <= 0x10FFFF then Utf8.Encode(cp) else []
  }

  function CharMeaning(ch: Char): (s: bytes) {
    match ch
    case Plain(b) => [b]
    case Escaped(mark) =>
      if mark == 'b' as int then [8]
      else if mark == 'f' as int then [12]
      else if mark == 'n' as int then [10]
      else if mark == 'r' as int then [13]
      else if mark == 't' as int then [9]
      else [mark]
    case Unit(digits) => Utf8Of(CodeUnit(digits))
    case Pair(high, low) =>
      Utf8Of(0x10000 + 0x400 * (CodeUnit(high) as int - 0xD800) + (CodeUnit(low) as int - 0xDC00))
  }

  function CharsMeaning(chars: seq<Char>): (s: bytes) {
    if chars == [] then [] else CharMeaning(chars[0]) + CharsMeaning(chars[1..])
  }

  function KeyMeaning(key: Doc): (s: bytes) {
    if key.StringText? then CharsMeaning(key.chars) else []
  }

  function Meaning(d: Doc): (t: Json)
    decreases d, 1
  {
    match d
    case NullText => JsonText.Null
    case FalseText => JsonText.False
    case TrueText => JsonText.True
    case NumberText(n) => JsonText.Number(NumeralValue(n))
    case StringText(chars, _) => JsonText.String(CharsMeaning(chars))
    case ArrayText(_, items) => JsonText.Array(ItemsMeaning(items))
    case ObjectText(_, members) => JsonText.Object(MembersMeaning(members))
  }

  function ItemsMeaning(items: seq<Item>): (ts: seq<Json>)
    decreases items, 0
  {
    if items == [] then [] else [Meaning(items[0].value)] + ItemsMeaning(items[1..])
  }

  function MembersMeaning(members: seq<Pairing>): (ms: seq<JsonText.Member>)
    decreases members, 0
  {
    if members == [] then []
    else [JsonText.Member(KeyMeaning(members[0].key), Meaning(members[0].value))] + MembersMeaning(members[1..])
  }

  // ----- which trees are JSON

  /** Space, tab, line feed and carriage return; cJSON skips everything up to the space. */
  predicate Blank(b: byte, strict: bool) {
    if strict then b == ' ' as int || b == 9 || b == 10 || b == 13 else b <= ' ' as int
  }

  predicate Blanks(s: bytes, strict: bool) {
    forall i :: 0 <= i < |s| ==> Blank(s[i], strict)
  }

  /** cJSON also takes leading zeros, and either side of the point without digits, up to 63 characters. */
  predicate FormedNumeral(n: Numeral, strict: bool) {
    && (strict ==> n.integer != [] && (|n.integer| > 1 ==> n.integer[0] != 0))
    && (strict ==> n.fraction.Some? ==> n.fraction.value != [])
    && (n.integer != [] || (n.negative && n.fraction.Some? && n.fraction.value != []))
    && (n.exponent.Some? ==> n.exponent.value.digits != [])
    && (strict || |WrittenNumeral(n)| <= 63)
  }

  predicate IsMark(b: byte) {
    b == '"' as int || b == '\\' as int || b == '/' as int || b == 'b' as int || b == 'f' as int
    || b == 'n' as int || b == 'r' as int || b == 't' as int
  }

  /** A surrogate that is no half of a pair: RFC 8259 allows it, but it denotes nothing. */
  predicate Lone(ch: Char) {
    ch.Unit? && (IsHigh(CodeUnit(ch.digits)) || IsLow(CodeUnit(ch.digits)))
  }

  /** Two halves of a pair that follow each other are read as the pair. */
  predicate Unsplit(chars: seq<Char>) {
    |chars| < 2
    || (!(chars[0].Unit? && IsHigh(CodeUnit(chars[0].digits)) && chars[1].Unit? && IsLow(CodeUnit(chars[1].digits)))
        && Unsplit(chars[1..]))
  }

  predicate FormedChar(ch: Char, strict: bool) {
    match ch
    case Plain(b) => b != '\\' as int && (strict ==> b >= ' ' as int && b != '"' as int)
    case Escaped(mark) => IsMark(mark)
    case Unit(digits) => |digits| == 4 && if strict then FourHex(digits) else !Lone(ch)
    case Pair(high, low) => |high| == |low| == 4 && IsHigh(CodeUnit(high)) && IsLow(CodeUnit(low))
  }

  predicate FormedChars(chars: seq<Char>, strict: bool) {
    forall i :: 0 <= i < |chars| ==> FormedChar(chars[i], strict)
  }

  /** A `\u` whose four characters are no digits; behind one, cJSON loses track of quotes. */
  predicate Garbled(chars: seq<Char>) {
    exists i :: 0 <= i < |chars| && chars[i].Unit? && !FourHex(chars[i].digits)
  }

  predicate FormedString(d: Doc, strict: bool) {
    && d.StringText?
    && FormedChars(d.chars, strict)
    && (strict ==> d.closed && Unsplit(d.chars))
    && (Garbled(d.chars) || (d.closed && Plain('"' as int) !in d.chars))
  }

  predicate Formed(d: Doc, strict: bool)
    decreases d, 1
  {
    match d
    case NumberText(n) => FormedNumeral(n, strict)
    case StringText(chars, _) => FormedString(d, strict)
    case ArrayText(blanks, items) => Blanks(blanks, strict) && FormedItems(items, strict)
    case ObjectText(blanks, members) => Blanks(blanks, strict) && FormedMembers(members, strict)
    case _ => true
  }

  predicate FormedItems(items: seq<Item>, strict: bool)
    decreases items, 0
  {
    items == []
    || (Blanks(items[0].before, strict) && Formed(items[0].value, strict) && Blanks(items[0].after, strict)
        && FormedItems(items[1..], strict))
  }

  predicate FormedMembers(members: seq<Pairing>, strict: bool)
    decreases members, 0
  {
    members == []
    || (var m := members[0];
        Blanks(m.before, strict) && FormedString(m.key, strict) && Blanks(m.between, strict)
        && Blanks(m.gap, strict) && Formed(m.value, strict) && Blanks(m.after, strict)
        && FormedMembers(members[1..], strict))
  }

  /** No surrogate stands alone. */
  predicate PairedChars(chars: seq<Char>) {
    chars == [] || (!Lone(chars[0]) && PairedChars(chars[1..]))
  }

  predicate PairedKey(key: Doc) {
    key.StringText? ==> PairedChars(key.chars)
  }

  predicate Paired(d: Doc)
    decreases d, 1
  {
    match d
    case StringText(chars, _) => PairedChars(chars)
    case ArrayText(_, items) => PairedItems(items)
    case ObjectText(_, members) => PairedMembers(members)
    case _ => true
  }

  predicate PairedItems(items: seq<Item>)
    decreases items, 0
  {
    items == [] || (Paired(items[0].value) && PairedItems(items[1..]))
  }

  predicate PairedMembers(members: seq<Pairing>)
    decreases members, 0
  {
    members == [] || (PairedKey(members[0].key) && Paired(members[0].value) && PairedMembers(members[1..]))
  }

  /** The text `s` denotes `t` (RFC 8259, section 2: blanks, a value, blanks). */
  ghost predicate IsJsonText(s: bytes, t: Json) {
    exists before: bytes, d: Doc, after: bytes ::
      s == before + Written(d) + after
      && Blanks(before, true) && Formed(d, true) && Paired(d) && Blanks(after, true) && Meaning(d) == t
  }

  // ----- what cJSON makes of a JSON text

  /** How many arrays and objects lie on the deepest path. */
  function Depth(d: Doc): (n: nat)
    decreases d, 1
  {
    match d
    case ArrayText(_, items) => 1 + DepthOfItems(items)
    case ObjectText(_, members) => 1 + DepthOfMembers(members)
    case _ => 0
  }

  function DepthOfItems(items: seq<Item>): (n: nat)
    decreases items, 0
  {
    if items == [] then 0
    else
      var rest := DepthOfItems(items[1..]);
      if Depth(items[0].value) < rest then rest else Depth(items[0].value)
  }

  function DepthOfMembers(members: seq<Pairing>): (n: nat)
    decreases members, 0
  {
    if members == [] then 0
    else
      var rest := DepthOfMembers(members[1..]);
      if Depth(members[0].value) < rest then rest else Depth(members[0].value)
  }

  /** Every numeral has at most 63 characters, the room parse_number has for one. */
  predicate ShortNumerals(d: Doc)
    decreases d, 1
  {
    match d
    case NumberText(n) => |WrittenNumeral(n)| <= 63
    case ArrayText(_, items) => ShortInItems(items)
    case ObjectText(_, members) => ShortInMembers(members)
    case _ => true
  }

  predicate ShortInItems(items: seq<Item>)
    decreases items, 0
  {
    items == [] || (ShortNumerals(items[0].value) && ShortInItems(items[1..]))
  }

  predicate ShortInMembers(members: seq<Pairing>)
    decreases members, 0
  {
    members == [] || (ShortNumerals(members[0].value) && ShortInMembers(members[1..]))
  }

  /** The value as C strings hold it: every text and key up to its first zero byte. */
  function CutTexts(t: Json): (r: Json)
    decreases t, 1
  {
    match t
    case String(s) => JsonText.String(CStr(s))
    case Array(items) => JsonText.Array(CutItems(items))
    case Object(members) => JsonText.Object(CutMembers(members))
    case _ => t
  }

  function CutItems(items: seq<Json>): (r: seq<Json>)
    decreases items, 0
  {
    if items == [] then [] else [CutTexts(items[0])] + CutItems(items[1..])
  }

  function CutMembers(members: seq<JsonText.Member>): (r: seq<JsonText.Member>)
    decreases members, 0
  {
    if members == [] then []
    else [JsonText.Member(CStr(members[0].key), CutTexts(members[0].value))] + CutMembers(members[1..])
  }

  predicate ZeroFree(t: Json)
    decreases t, 1
  {
    match t
    case String(s) => 0 !in s
    case Array(items) => ZeroFreeItems(items)
    case Object(members) => ZeroFreeMembers(members)
    case _ => true
  }

  predicate ZeroFreeItems(items: seq<Json>)
    decreases items, 0
  {
    items == [] || (ZeroFree(items[0]) && ZeroFreeItems(items[1..]))
  }

  predicate ZeroFreeMembers(members: seq<JsonText.Member>)
    decreases members, 0
  {
    members == []
    || (0 !in members[0].key && ZeroFree(members[0].value) && ZeroFreeMembers(members[1..]))
  }

  /** Nothing is cut exactly when no text and no key has a zero byte. */
  lemma {:induction false} NothingCut(t: Json)
    ensures CutTexts(t) == t <==> ZeroFree(t)
    decreases t, 1
  {
    match t
    case String(s) => if 0 !in s { CStrOfClean(s); }
    case Array(items) => NothingCutInItems(items);
    case Object(members) => NothingCutInMembers(members);
    case _ =>
  }

  lemma {:induction false} NothingCutInItems(items: seq<Json>)
    ensures CutItems(items) == items <==> ZeroFreeItems(items)
    decreases items, 0
  {
    if items != [] {
      NothingCut(items[0]);
      NothingCutInItems(items[1..]);
      assert items == [items[0]] + items[1..];
      assert CutItems(items)[1..] == CutItems(items[1..]);
    }
  }

  lemma {:induction false} NothingCutInMembers(members: seq<JsonText.Member>)
    ensures CutMembers(members) == members <==> ZeroFreeMembers(members)
    decreases members, 0
  {
    if members != [] {
      if 0 !in members[0].key { CStrOfClean(members[0].key); }
      NothingCut(members[0].value);
      NothingCutInMembers(members[1..]);
      assert members == [members[0]] + members[1..];
      assert CutMembers(members)[1..] == CutMembers(members[1..]);
    }
  }
}
