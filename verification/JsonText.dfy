/**
 * JSON values, and the text cJSON gives and reads for them, as functions.
 * `Render*` says what print_value appends; `Value` and its helpers say what parse_value
 * accepts at an offset of the input. The methods that do this work in place are proved
 * equal to these functions in JsonPrinter and JsonParser.
 */
module JsonText {
  import opened Bytes
  import opened Decimal
  import Utf8

  const NESTING_LIMIT := 1000

  const QUOTE: byte := 34
  const BACKSLASH: byte := 92
  const COMMA: byte := 44
  const COLON: byte := 58
  const OPEN_ARRAY: byte := 91
  const CLOSE_ARRAY: byte := 93
  const OPEN_OBJECT: byte := 123
  const CLOSE_OBJECT: byte := 125
  const LETTER_U: byte := 117
  const TAB: byte := 9
  const NEWLINE: byte := 10
  const SPACE: byte := 32

  const NULL_TEXT: bytes := [110, 117, 108, 108]
  const FALSE_TEXT: bytes := [102, 97, 108, 115, 101]
  const TRUE_TEXT: bytes := [116, 114, 117, 101]

  datatype Json =
    | Null
    | False
    | True
    | Number(double: real)
    | String(text: bytes)
    | Array(items: seq<Json>)
    | Object(members: seq<Member>)

  datatype Member = Member(key: bytes, value: Json)

  /** How many arrays and objects lie on the deepest path. */
  function Nesting(t: Json): (r: nat) {
    match t
    case Array(items) => 1 + NestingOfItems(items)
    case Object(members) => 1 + NestingOfMembers(members)
    case _ => 0
  }

  function Max(a: nat, b: nat): (r: nat) { if a < b then b else a }

  function NestingOfItems(items: seq<Json>): (r: nat) {
    if items == [] then 0 else Max(Nesting(items[0]), NestingOfItems(items[1..]))
  }

  function NestingOfMembers(members: seq<Member>): (r: nat) {
    if members == [] then 0 else Max(Nesting(members[0].value), NestingOfMembers(members[1..]))
  }

  /**
   * Every number is one that print_number writes with `%d`, and every text and key is a
   * C string.
   */
  predicate Printable(t: Json) {
    match t
    case Number(d) => d == ValueInt(d) as real
    case String(s) => 0 !in s
    case Array(items) => PrintableItems(items)
    case Object(members) => PrintableMembers(members)
    case _ => true
  }

  predicate PrintableItems(items: seq<Json>) {
    items == [] || (Printable(items[0]) && PrintableItems(items[1..]))
  }

  predicate PrintableMembers(members: seq<Member>) {
    members == []
    || (0 !in members[0].key && Printable(members[0].value) && PrintableMembers(members[1..]))
  }

  lemma {:induction false} PrintableItem(items: seq<Json>, i: nat)
    requires PrintableItems(items) && i < |items|
    ensures Printable(items[i])
  {
    if i > 0 { PrintableItem(items[1..], i - 1); }
  }

  lemma {:induction false} PrintableMember(members: seq<Member>, i: nat)
    requires PrintableMembers(members) && i < |members|
    ensures 0 !in members[i].key && Printable(members[i].value)
  {
    if i > 0 { PrintableMember(members[1..], i - 1); }
  }

  // ----- printing

  function HexChar(n: nat): (r: byte)
    requires n < 16
  {
    if n < 10 then 48 + n else 87 + n
  }

  /** What print_string_ptr copies for one byte. */
  function EscapeByte(b: byte): (s: bytes)
    ensures 1 <= |s| <= 6
  {
    if b == QUOTE || b == BACKSLASH then [BACKSLASH, b]
    else if b == 8 then [BACKSLASH, 98]
    else if b == 12 then [BACKSLASH, 102]
    else if b == 10 then [BACKSLASH, 110]
    else if b == 13 then [BACKSLASH, 114]
    else if b == 9 then [BACKSLASH, 116]
    else if b < 32 then [BACKSLASH, LETTER_U, 48, 48, HexChar(b / 16), HexChar(b % 16)]
    else [b]
  }

  function Escape(s: bytes): (r: bytes) {
    if s == [] then [] else EscapeByte(s[0]) + Escape(s[1..])
  }

  function RenderString(s: bytes): (r: bytes) {
    [QUOTE] + (Escape(s) + [QUOTE])
  }

  function Tabs(n: nat): (s: bytes)
    ensures |s| == n
  {
    if n == 0 then [] else [TAB] + Tabs(n - 1)
  }

  /** `depth` is the nesting depth at which `t` is printed. */
  function Render(t: Json, format: bool, depth: nat): (r: bytes)
    decreases t, 1
  {
    match t
    case Null => NULL_TEXT
    case False => FALSE_TEXT
    case True => TRUE_TEXT
    case Number(d) => DecimalInt(ValueInt(d))
    case String(s) => RenderString(s)
    case Array(items) => [OPEN_ARRAY] + (RenderItems(items, format, depth + 1) + [CLOSE_ARRAY])
    case Object(members) => ObjectOpening(format) + (RenderMembers(members, format, depth + 1) + ObjectClosing(format, depth))
  }

  function ObjectOpening(format: bool): (r: bytes) {
    if format then [OPEN_OBJECT, NEWLINE] else [OPEN_OBJECT]
  }

  function ObjectClosing(format: bool, depth: nat): (s: bytes)
    ensures |s| >= 1
  {
    if format then Tabs(depth) + [CLOSE_OBJECT] else [CLOSE_OBJECT]
  }

  function ItemSeparator(format: bool): (r: bytes) {
    if format then [COMMA, SPACE] else [COMMA]
  }

  function RenderItems(items: seq<Json>, format: bool, depth: nat): (s: bytes)
    ensures items == [] ==> s == []
    decreases items, 0
  {
    if items == [] then []
    else if |items| == 1 then Render(items[0], format, depth)
    else
      Render(items[0], format, depth)
      + (ItemSeparator(format) + RenderItems(items[1..], format, depth))
  }

  function KeySeparator(format: bool): (r: bytes) {
    if format then [COLON, TAB] else [COLON]
  }

  function MemberEnd(last: bool, format: bool): (r: bytes) {
    (if last then [] else [COMMA]) + (if format then [NEWLINE] else [])
  }

  function Indent(format: bool, depth: nat): (r: bytes) {
    if format then Tabs(depth) else []
  }

  function RenderMembers(members: seq<Member>, format: bool, depth: nat): (s: bytes)
    ensures members == [] ==> s == []
    decreases members, 0
  {
    if members == [] then []
    else
      Indent(format, depth)
      + (RenderString(members[0].key)
         + (KeySeparator(format)
            + (Render(members[0].value, format, depth)
               + (MemberEnd(|members| == 1, format) + RenderMembers(members[1..], format, depth)))))
  }

  // ----- reading: white space, strings, numbers

  /** The loop of buffer_skip_whitespace. */
  function SkipBlanks(c: bytes, i: nat): (j: nat)
    requires i <= |c|
    ensures i <= j <= |c|
    ensures j < |c| ==> c[j] > 32
    ensures forall k :: i <= k < j ==> c[k] <= 32
    decreases |c| - i
  {
    if i < |c| && c[i] <= 32 then SkipBlanks(c, i + 1) else i
  }

  /** buffer_skip_whitespace steps back onto the last byte when it ran off the end. */
  function Skip(c: bytes, i: nat): (j: nat)
    requires i <= |c|
    ensures i <= j <= |c|
    ensures i < |c| ==> j < |c|
  {
    if i == |c| then i
    else
      var j := SkipBlanks(c, i);
      if j == |c| then j - 1 else j
  }

  /** The first unescaped quote at or after `i`: parse_string's first pass. */
  function ScanEnd(c: bytes, i: nat): (r: Option<nat>)
    requires i <= |c|
    ensures r.Some? ==> i <= r.value < |c| && c[r.value] == QUOTE
    decreases |c| - i
  {
    if i == |c| then None
    else if c[i] == QUOTE then Some(i)
    else if c[i] == BACKSLASH then
      if i + 1 >= |c| then None else ScanEnd(c, i + 2)
    else ScanEnd(c, i + 1)
  }

  function HexValue(b: byte): (r: Option<nat>) {
    if 48 <= b <= 57 then Some(b - 48)
    else if 65 <= b <= 70 then Some(b - 55)
    else if 97 <= b <= 102 then Some(b - 87)
    else None
  }

  predicate AllHex(c: bytes, i: nat)
    requires i + 4 <= |c|
  {
    forall k :: i <= k < i + 4 ==> HexValue(c[k]).Some?
  }

  /** parse_hex4: four digits, or 0 when one of them is none. */
  function Hex4(c: bytes, i: nat): (h: nat)
    requires i + 4 <= |c|
    ensures h < 0x1_0000
  {
    if AllHex(c, i) then
      HexValue(c[i]).value * 4096 + HexValue(c[i + 1]).value * 256
      + HexValue(c[i + 2]).value * 16 + HexValue(c[i + 3]).value
    else 0
  }

  predicate IsHighSurrogate(u: nat) { 0xD800 <= u <= 0xDBFF }
  predicate IsLowSurrogate(u: nat) { 0xDC00 <= u <= 0xDFFF }

  function FromSurrogates(high: nat, low: nat): (cp: nat)
    requires IsHighSurrogate(high) && IsLowSurrogate(low)
    ensures 0x10000 <= cp <= 0x10FFFF
  {
    0x10000 + (high - 0xD800) * 1024 + (low - 0xDC00)
  }

  /**
   * utf16_literal_to_utf8 on the literal at `p` in a string body that ends at `end`:
   * how many bytes it takes (0: refused) and what it writes.
   */
  function Utf16Literal(c: bytes, p: nat, end: nat): (r: (nat, bytes))
    requires p <= end <= |c|
    ensures r.0 == 0 || (r.0 == 6 && 1 <= |r.1| <= 3) || (r.0 == 12 && |r.1| == 4)
    ensures p + r.0 <= end
    ensures r.0 > 0 && |r.1| > 1 ==> AllHex(c, p + 2)
    ensures r.0 == 12 ==> AllHex(c, p + 8) && c[p + 7] == LETTER_U
  {
    if end - p < 6 then (0, [])
    else
      var first := Hex4(c, p + 2);
      if IsLowSurrogate(first) then (0, [])
      else if IsHighSurrogate(first) then
        if end - (p + 6) < 6 || c[p + 6] != BACKSLASH || c[p + 7] != LETTER_U then (0, [])
        else
          var second := Hex4(c, p + 8);
          if !IsLowSurrogate(second) then (0, [])
          else (12, Utf8.Encode(FromSurrogates(first, second)))
      else (6, Utf8.Encode(first))
  }

  function SimpleEscape(b: byte): (r: Option<byte>) {
    if b == 98 then Some(8)
    else if b == 102 then Some(12)
    else if b == 110 then Some(10)
    else if b == 114 then Some(13)
    else if b == 116 then Some(9)
    else if b == QUOTE || b == BACKSLASH || b == 47 then Some(b)
    else None
  }

  function Prepend(s: bytes, o: Option<bytes>): (r: Option<bytes>) {
    if o.Some? then Some(s + o.value) else None
  }

  /** parse_string's second pass over the body that the first pass says ends at `end`. */
  function DecodeBody(c: bytes, p: nat, end: nat): (r: Option<bytes>)
    requires p <= end + 1 <= |c|
    decreases end + 1 - p
  {
    if p >= end then Some([])
    else if c[p] != BACKSLASH then Prepend([c[p]], DecodeBody(c, p + 1, end))
    else if c[p + 1] == LETTER_U then
      var (n, s) := Utf16Literal(c, p, end);
      if n == 0 then None else Prepend(s, DecodeBody(c, p + n, end))
    else
      match SimpleEscape(c[p + 1])
      case None => None
      case Some(b) => Prepend([b], DecodeBody(c, p + 2, end))
  }

  /** parse_string: the C string it stores and the offset after the closing quote. */
  function StringLiteral(c: bytes, off: nat): (r: Option<(bytes, nat)>)
    requires off < |c|
    ensures r.Some? ==> off + 1 < r.value.1 <= |c|
    ensures r.Some? ==> 0 !in r.value.0
  {
    if c[off] != QUOTE then None
    else
      match ScanEnd(c, off + 1)
      case None => None
      case Some(end) =>
        match DecodeBody(c, off + 1, end)
        case None => None
        case Some(s) => Some((CStr(s), end + 1))
  }

  predicate IsNumberChar(b: byte) {
    IsDigit(b) || IsSign(b) || IsExponentMark(b) || b == 46
  }

  /** What parse_number copies: at most `room` number characters. */
  function NumberText(c: bytes, off: nat, room: nat): (s: bytes)
    requires off <= |c|
    ensures |s| <= room && off + |s| <= |c| && s == c[off..off + |s|]
    decreases |c| - off
  {
    if room > 0 && off < |c| && IsNumberChar(c[off]) then [c[off]] + NumberText(c, off + 1, room - 1)
    else []
  }

  function NumberLiteral(c: bytes, off: nat): (r: Option<(real, nat)>)
    requires off <= |c|
    ensures r.Some? ==> off < r.value.1 <= |c|
  {
    var (d, n) := Strtod(NumberText(c, off, 63));
    if n == 0 then None else Some((d, off + n))
  }

  // ----- reading: values

  function Value(c: bytes, off: nat, depth: nat): (r: Option<(Json, nat)>)
    requires off <= |c|
    ensures r.Some? ==> off < r.value.1 <= |c|
    decreases |c| - off, 1
  {
    if At(c, off, NULL_TEXT) then Some((Null, off + 4))
    else if At(c, off, FALSE_TEXT) then Some((False, off + 5))
    else if At(c, off, TRUE_TEXT) then Some((True, off + 4))
    else if off == |c| then None
    else if c[off] == QUOTE then
      match StringLiteral(c, off)
      case None => None
      case Some((s, e)) => Some((String(s), e))
    else if c[off] == 45 || IsDigit(c[off]) then
      match NumberLiteral(c, off)
      case None => None
      case Some((d, e)) => Some((Number(d), e))
    else if c[off] == OPEN_ARRAY then ArrayLiteral(c, off, depth)
    else if c[off] == OPEN_OBJECT then ObjectLiteral(c, off, depth)
    else None
  }

  function ArrayLiteral(c: bytes, off: nat, depth: nat): (r: Option<(Json, nat)>)
    requires off < |c|
    ensures r.Some? ==> off < r.value.1 <= |c|
    decreases |c| - off, 0
  {
    if depth >= NESTING_LIMIT || c[off] != OPEN_ARRAY then None
    else
      var p := Skip(c, off + 1);
      if p == |c| then None
      else if c[p] == CLOSE_ARRAY then Some((Array([]), p + 1))
      else
        match Items(c, p, depth + 1)
        case None => None
        case Some((items, q)) =>
          if q < |c| && c[q] == CLOSE_ARRAY then Some((Array(items), q + 1)) else None
  }

  /** The elements from `p`, and the offset of what follows the last one. */
  function Items(c: bytes, p: nat, depth: nat): (r: Option<(seq<Json>, nat)>)
    requires p <= |c|
    ensures r.Some? ==> p < r.value.1 <= |c| && r.value.0 != []
    decreases |c| - p, 2
  {
    match Value(c, Skip(c, p), depth)
    case None => None
    case Some((v, e)) =>
      var q := Skip(c, e);
      if q < |c| && c[q] == COMMA then
        match Items(c, q + 1, depth)
        case None => None
        case Some((rest, r)) => Some(([v] + rest, r))
      else Some(([v], q))
  }

  function ObjectLiteral(c: bytes, off: nat, depth: nat): (r: Option<(Json, nat)>)
    requires off < |c|
    ensures r.Some? ==> off < r.value.1 <= |c|
    decreases |c| - off, 0
  {
    if depth >= NESTING_LIMIT || c[off] != OPEN_OBJECT then None
    else
      var p := Skip(c, off + 1);
      if p == |c| then None
      else if c[p] == CLOSE_OBJECT then Some((Object([]), p + 1))
      else
        match Members(c, p, depth + 1)
        case None => None
        case Some((members, q)) =>
          if q < |c| && c[q] == CLOSE_OBJECT then Some((Object(members), q + 1)) else None
  }

  /** A key and the offset of the colon behind it. */
  function KeyLiteral(c: bytes, p: nat): (r: Option<(bytes, nat)>)
    requires p <= |c|
    ensures r.Some? ==> p < r.value.1 < |c| && 0 !in r.value.0
  {
    if p == |c| then None
    else
      match StringLiteral(c, Skip(c, p))
      case None => None
      case Some((key, e)) =>
        var k := Skip(c, e);
        if k == |c| || c[k] != COLON then None else Some((key, k))
  }

  /** One key and its value: the member and the offset of what follows it. */
  function OneMember(c: bytes, p: nat, depth: nat): (r: Option<(Member, nat)>)
    requires p <= |c|
    ensures r.Some? ==> p < r.value.1 <= |c|
    decreases |c| - p, 2
  {
    match KeyLiteral(c, p)
    case None => None
    case Some((key, k)) =>
      match Value(c, Skip(c, k + 1), depth)
      case None => None
      case Some((v, f)) => Some((Member(key, v), Skip(c, f)))
  }

  function Members(c: bytes, p: nat, depth: nat): (r: Option<(seq<Member>, nat)>)
    requires p <= |c|
    ensures r.Some? ==> p < r.value.1 <= |c| && r.value.0 != []
    decreases |c| - p, 3
  {
    match OneMember(c, p, depth)
    case None => None
    case Some((m, q)) =>
      if q < |c| && c[q] == COMMA then
        match Members(c, q + 1, depth)
        case None => None
        case Some((rest, r)) => Some(([m] + rest, r))
      else Some(([m], q))
  }

  // ----- whole documents

  const BOM: bytes := [0xEF, 0xBB, 0xBF]

  function SkipBom(c: bytes): (i: nat)
    ensures i <= |c|
  {
    if |c| > 4 && c[..3] == BOM then 3 else 0
  }

  /** cJSON_ParseWithLengthOpts on a buffer whose length counts the terminator, if there is one. */
  function Document(c: bytes, requireNul: bool): (r: Option<Json>) {
    if c == [] then None
    else
      match Value(c, Skip(c, SkipBom(c)), 0)
      case None => None
      case Some((t, e)) =>
        if requireNul && !(Skip(c, e) < |c| && c[Skip(c, e)] == 0) then None else Some(t)
  }
}
