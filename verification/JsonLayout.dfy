/** What the printer writes is a JSON text for the tree it was given, in either layout. */
module JsonLayout {
  import opened Bytes
  import opened Decimal
  import opened JsonText
  import opened JsonNumerals
  import G = JsonGrammar

  // ----- numbers

  function DigitsOf(n: nat): (ds: seq<G.Digit>)
    ensures ds != [] && (|ds| > 1 ==> ds[0] != 0)
  {
    if n < 10 then [n] else DigitsOf(n / 10) + [n % 10]
  }

  lemma {:induction false} DigitsOfDenote(n: nat)
    ensures G.DigitChars(DigitsOf(n)) == Digits(n)
    ensures G.Natural(DigitsOf(n)) == n
  {
    hide G.DigitChars, G.Natural;
    OneDigit(n % 10);
    if n >= 10 {
      DigitsOfDenote(n / 10);
      DigitCharsConcat(DigitsOf(n / 10), [n % 10]);
      OneMoreDigit(DigitsOf(n / 10), n % 10);
      TensAndOnes(n);
    }
  }

  lemma OneDigit(d: G.Digit)
    ensures G.DigitChars([d]) == [48 + d] && G.Natural([d]) == d
  {
    assert [d][..0] == [];
  }

  lemma OneMoreDigit(ds: seq<G.Digit>, d: G.Digit)
    ensures G.Natural(ds + [d]) == 10 * G.Natural(ds) + d
  {
    assert (ds + [d])[..|ds|] == ds;
  }

  lemma TensAndOnes(n: nat)
    ensures n == 10 * (n / 10) + n % 10
  {}

  function IntegerText(n: int): (d: G.Numeral) {
    G.Numeral(n < 0, DigitsOf(if n < 0 then -n else n), None, None)
  }

  lemma IntegerTextIs(n: int)
    ensures G.FormedNumeral(IntegerText(n), true)
    ensures G.WrittenNumeral(IntegerText(n)) == DecimalInt(n)
    ensures G.NumeralValue(IntegerText(n)) == n as real
  {
    hide Digits, DigitsOf, G.DigitChars, G.Natural;
    var m := if n < 0 then -n else n;
    DigitsOfDenote(m);
  }

  // ----- strings

  function CharOf(b: byte): (ch: G.Char) {
    if b == '"' as int || b == '\\' as int then G.Escaped(b)
    else if b == 8 then G.Escaped('b' as int)
    else if b == 12 then G.Escaped('f' as int)
    else if b == 10 then G.Escaped('n' as int)
    else if b == 13 then G.Escaped('r' as int)
    else if b == 9 then G.Escaped('t' as int)
    else if b < 32 then G.Unit(['0' as int, '0' as int, HexChar(b / 16), HexChar(b % 16)])
    else G.Plain(b)
  }

  lemma CharOfIs(b: byte)
    ensures G.FormedChar(CharOf(b), true) && G.WrittenChar(CharOf(b)) == EscapeByte(b)
    ensures G.CharMeaning(CharOf(b)) == [b]
    ensures CharOf(b) != G.Plain('"' as int) && !Loose(CharOf(b)) && !G.Lone(CharOf(b))
  {
    if b < 32 { assert 16 * (b as int / 16) + b as int % 16 == b as int; }
  }

  predicate Loose(ch: G.Char) {
    ch.Unit? && !G.FourHex(ch.digits)
  }

  function CharsOf(s: bytes): (chars: seq<G.Char>)
    ensures |chars| == |s| && forall i :: 0 <= i < |s| ==> chars[i] == CharOf(s[i])
  {
    if s == [] then [] else [CharOf(s[0])] + CharsOf(s[1..])
  }

  lemma {:induction false} CharsOfIs(s: bytes)
    ensures G.WrittenChars(CharsOf(s)) == Escape(s) && G.CharsMeaning(CharsOf(s)) == s
    ensures G.PairedChars(CharsOf(s)) && G.Unsplit(CharsOf(s))
  {
    hide CharOf, EscapeByte, G.WrittenChar, G.CharMeaning;
    if s != [] {
      CharOfIs(s[0]);
      if |s| > 1 { CharOfIs(s[1]); }
      CharsOfIs(s[1..]);
      assert CharsOf(s)[1..] == CharsOf(s[1..]);
      assert s == [s[0]] + s[1..];
    }
  }

  function TextOf(s: bytes): (d: G.Doc) {
    G.StringText(CharsOf(s), true)
  }

  lemma TextOfIs(s: bytes)
    ensures G.FormedString(TextOf(s), true)
    ensures G.Written(TextOf(s)) == RenderString(s)
    ensures G.Meaning(TextOf(s)) == String(s) && G.KeyMeaning(TextOf(s)) == s
    ensures G.Paired(TextOf(s)) && G.PairedKey(TextOf(s))
  {
    hide CharOf, Escape, G.WrittenChars, G.CharsMeaning, G.FormedChar, G.PairedChars, G.Unsplit;
    CharsOfIs(s);
    forall i | 0 <= i < |s| ensures G.FormedChar(CharsOf(s)[i], true)
      && CharsOf(s)[i] != G.Plain('"' as int) && !Loose(CharsOf(s)[i]) {
      CharOfIs(s[i]);
    }
  }

  // ----- values

  /** A line break and the indentation behind it. */
  function NewLine(format: bool, depth: nat): (s: bytes) {
    if format then [NEWLINE] + Tabs(depth) else []
  }

  lemma NewLineIsBlank(format: bool, depth: nat)
    ensures G.Blanks(NewLine(format, depth), true)
  {
    TabsAreTabs(depth);
  }

  lemma TabsAreTabs(n: nat)
    ensures forall i :: 0 <= i < n ==> Tabs(n)[i] == 9
  {}

  /** The syntax tree of the text that is printed at nesting depth `depth`. */
  function Layout(t: Json, format: bool, depth: nat): (d: G.Doc)
    decreases t, 1
  {
    match t
    case Null => G.NullText
    case False => G.FalseText
    case True => G.TrueText
    case Number(x) => G.NumberText(IntegerText(ValueInt(x)))
    case String(s) => TextOf(s)
    case Array(items) => G.ArrayText([], LayoutItems(items, format, depth + 1, []))
    case Object(members) =>
      G.ObjectText(NewLine(format, depth), LayoutMembers(members, format, depth + 1))
  }

  /** A formatted array has a space before every element but the first. */
  function LayoutItems(items: seq<Json>, format: bool, depth: nat, before: bytes): (ds: seq<G.Item>)
    ensures |ds| == |items|
    decreases items, 0
  {
    if items == [] then []
    else
      [G.Item(before, Layout(items[0], format, depth), [])]
      + LayoutItems(items[1..], format, depth, if format then [' ' as int] else [])
  }

  /** A formatted object has its members and its closing brace on lines of their own. */
  function LayoutMembers(members: seq<Member>, format: bool, depth: nat): (ds: seq<G.Pairing>)
    requires depth > 0
    ensures |ds| == |members|
    decreases members, 0
  {
    if members == [] then []
    else
      [G.Pairing(NewLine(format, depth), TextOf(members[0].key), [], if format then [9] else [],
         Layout(members[0].value, format, depth), if |members| == 1 then NewLine(format, depth - 1) else [])]
      + LayoutMembers(members[1..], format, depth)
  }

  lemma {:induction false} LayoutIs(t: Json, format: bool, depth: nat)
    requires Printable(t)
    ensures G.Formed(Layout(t, format, depth), true) && G.Paired(Layout(t, format, depth))
    ensures G.Written(Layout(t, format, depth)) == Render(t, format, depth)
    ensures G.Meaning(Layout(t, format, depth)) == t
    decreases t, 1
  {
    match t
    case Number(x) =>
      IntegerTextIs(ValueInt(x));
      hide *;
    case String(s) =>
      TextOfIs(s);
      hide *;
    case Array(items) => LayoutArray(t, format, depth);
    case Object(members) => LayoutObject(t, format, depth);
    case _ =>
  }

  lemma {:induction false} LayoutArray(t: Json, format: bool, depth: nat)
    requires t.Array? && Printable(t)
    ensures G.Formed(Layout(t, format, depth), true) && G.Paired(Layout(t, format, depth))
    ensures G.Written(Layout(t, format, depth)) == Render(t, format, depth)
    ensures G.Meaning(Layout(t, format, depth)) == t
    decreases t, 0
  {
    hide G.WrittenItems, G.FormedItems, G.PairedItems, G.ItemsMeaning, LayoutItems, RenderItems, PrintableItems;
    LayoutItemsIs(t.items, format, depth + 1, []);
    Nothing(RenderItems(t.items, format, depth + 1));
  }

  lemma Nothing(s: bytes)
    ensures [] + s == s && s + [] == s
  {}

  lemma {:induction false} LayoutItemsIs(items: seq<Json>, format: bool, depth: nat, before: bytes)
    requires PrintableItems(items) && G.Blanks(before, true)
    ensures var ds := LayoutItems(items, format, depth, before);
            && G.FormedItems(ds, true) && G.PairedItems(ds) && G.ItemsMeaning(ds) == items
            && G.WrittenItems(ds) == (if items == [] then [] else before + RenderItems(items, format, depth))
    decreases items, 0
  {
    hide Layout, LayoutItems, Render, RenderItems, Printable, G.Blanks, G.Formed, G.FormedItems, G.Paired, G.PairedItems,
      G.Written, G.WrittenItems, G.Meaning, G.ItemsMeaning;
    if items == [] {
      NoItems(format, depth, before);
    } else {
      var ds := LayoutItems(items, format, depth, before);
      var space: bytes := if format then [' ' as int] else [];
      SmallBlanks();
      LayoutIs(items[0], format, depth);
      LayoutItemsIs(items[1..], format, depth, space);
      ItemsSplit(items, format, depth, before, space);
      FirstItem(ds);
      RenderFirst(items, format, depth, space);
      SeparatedItems(space, RenderItems(items[1..], format, depth));
      assert items == [items[0]] + items[1..];
    }
  }

  lemma NoItems(format: bool, depth: nat, before: bytes)
    ensures LayoutItems([], format, depth, before) == []
    ensures G.FormedItems([], true) && G.PairedItems([]) && G.ItemsMeaning([]) == [] && G.WrittenItems([]) == []
  {}

  /** What is said of items, one item at a time. */
  lemma FirstItem(ds: seq<G.Item>)
    requires ds != [] && ds[0].after == []
    ensures G.FormedItems(ds, true) <==>
              G.Blanks(ds[0].before, true) && G.Formed(ds[0].value, true) && G.Blanks([], true) && G.FormedItems(ds[1..], true)
    ensures G.PairedItems(ds) <==> G.Paired(ds[0].value) && G.PairedItems(ds[1..])
    ensures G.ItemsMeaning(ds) == [G.Meaning(ds[0].value)] + G.ItemsMeaning(ds[1..])
    ensures G.WrittenItems(ds)
         == ds[0].before
            + (G.Written(ds[0].value) + ([] + (if |ds| == 1 then [] else [COMMA] + G.WrittenItems(ds[1..]))))
  {
    hide G.Blanks, G.Formed, G.Paired, G.Meaning, G.Written;
  }

  lemma RenderFirst(items: seq<Json>, format: bool, depth: nat, space: bytes)
    requires items != [] && space == if format then [' ' as int] else []
    ensures RenderItems(items, format, depth)
         == Render(items[0], format, depth)
            + (if |items| == 1 then [] else [COMMA] + space + RenderItems(items[1..], format, depth))
  {
    hide Render;
    if |items| > 1 { assert ItemSeparator(format) == [COMMA] + space; }
  }

  lemma {:induction false} ItemsSplit(items: seq<Json>, format: bool, depth: nat, before: bytes, space: bytes)
    requires items != [] && space == if format then [' ' as int] else []
    ensures var ds := LayoutItems(items, format, depth, before);
            && ds[0] == G.Item(before, Layout(items[0], format, depth), [])
            && ds[1..] == LayoutItems(items[1..], format, depth, space)
  {
    hide Layout;
  }

  lemma SeparatedItems(space: bytes, rest: bytes)
    ensures [] + ([COMMA] + (space + rest)) == [COMMA] + space + rest
  {}

  lemma {:induction false} LayoutObject(t: Json, format: bool, depth: nat)
    requires t.Object? && Printable(t)
    ensures G.Formed(Layout(t, format, depth), true) && G.Paired(Layout(t, format, depth))
    ensures G.Written(Layout(t, format, depth)) == Render(t, format, depth)
    ensures G.Meaning(Layout(t, format, depth)) == t
    decreases t, 0
  {
    hide G.WrittenMembers, G.FormedMembers, G.PairedMembers, G.MembersMeaning, G.Blanks, LayoutMembers, RenderMembers,
      PrintableMembers, Tabs;
    NewLineIsBlank(format, depth);
    LayoutMembersIs(t.members, format, depth + 1);
    var nl: bytes := if format then [NEWLINE] else [];
    Braces(nl, RenderMembers(t.members, format, depth + 1), if format then Tabs(depth) else []);
  }

  lemma Braces(nl: bytes, members: bytes, tabs: bytes)
    ensures [OPEN_OBJECT] + ((nl + (members + tabs)) + [CLOSE_OBJECT])
         == ([OPEN_OBJECT] + nl) + (members + (tabs + [CLOSE_OBJECT]))
    ensures [OPEN_OBJECT] + ((nl + tabs) + [CLOSE_OBJECT])
         == ([OPEN_OBJECT] + nl) + ([] + (tabs + [CLOSE_OBJECT]))
    ensures [] + [CLOSE_OBJECT] == [CLOSE_OBJECT]
    ensures [OPEN_OBJECT] + [] == [OPEN_OBJECT] && [OPEN_OBJECT] + [NEWLINE] == [OPEN_OBJECT, NEWLINE]
  {}

  lemma {:induction false} LayoutMembersIs(members: seq<Member>, format: bool, depth: nat)
    requires PrintableMembers(members) && depth > 0
    ensures var ds := LayoutMembers(members, format, depth);
            && G.FormedMembers(ds, true) && G.PairedMembers(ds) && G.MembersMeaning(ds) == members
            && G.WrittenMembers(ds)
               == (if members == [] then []
                   else (if format then [NEWLINE] else [])
                        + (RenderMembers(members, format, depth) + (if format then Tabs(depth - 1) else [])))
    decreases members, 0
  {
    hide Layout, Render, Printable, Tabs, RenderMembers, RenderString, TextOf, MemberEnd, KeySeparator, NewLine, Indent,
      G.WrittenMembers, G.Formed, G.FormedString, G.Paired, G.PairedKey, G.Written, G.Meaning, G.KeyMeaning,
      G.Blanks;
    if members == [] {
      NoMembers();
    } else {
      TextOfIs(members[0].key);
      LayoutIs(members[0].value, format, depth);
      LayoutMembersIs(members[1..], format, depth);
      MembersSplit(members, format, depth);
      BlanksAround(format, depth);
      MembersWritten(members, format, depth);
      assert members == [members[0]] + members[1..];
    }
  }

  lemma NoMembers()
    ensures G.WrittenMembers([]) == []
  {}

  lemma BlanksAround(format: bool, depth: nat)
    requires depth > 0
    ensures G.Blanks(NewLine(format, depth), true) && G.Blanks(NewLine(format, depth - 1), true)
    ensures G.Blanks([], true) && G.Blanks([9], true)
  {
    hide *;
    NewLineIsBlank(format, depth);
    NewLineIsBlank(format, depth - 1);
    SmallBlanks();
  }

  lemma SmallBlanks()
    ensures G.Blanks([], true) && G.Blanks([9], true) && G.Blanks([32], true)
  {}

  lemma {:induction false} MembersSplit(members: seq<Member>, format: bool, depth: nat)
    requires members != [] && depth > 0
    ensures var ds := LayoutMembers(members, format, depth);
            && ds[0] == G.Pairing(NewLine(format, depth), TextOf(members[0].key), [], if format then [9] else [],
                          Layout(members[0].value, format, depth),
                          if |members| == 1 then NewLine(format, depth - 1) else [])
            && ds[1..] == LayoutMembers(members[1..], format, depth)
  {
    hide Layout, NewLine, TextOf;
  }

  lemma {:induction false} WrittenOne(ds: seq<G.Pairing>, tail: bytes)
    requires ds != [] && tail == ds[0].after + (if |ds| == 1 then [] else [COMMA] + G.WrittenMembers(ds[1..]))
    ensures G.WrittenMembers(ds)
         == ds[0].before + (G.Written(ds[0].key) + (ds[0].between + ([COLON] + (ds[0].gap + (G.Written(ds[0].value) + tail)))))
  {
    hide G.Written;
  }

  lemma {:induction false} RenderOne(members: seq<Member>, format: bool, depth: nat, rest: bytes)
    requires members != [] && rest == MemberEnd(|members| == 1, format) + RenderMembers(members[1..], format, depth)
    ensures RenderMembers(members, format, depth)
         == Indent(format, depth)
            + (RenderString(members[0].key)
               + (([COLON] + (if format then [9] else [])) + (Render(members[0].value, format, depth) + rest)))
  {
    hide Indent, RenderString, Render;
    assert KeySeparator(format) == [COLON] + (if format then [9] else []);
  }

  lemma {:induction false} MembersWritten(members: seq<Member>, format: bool, depth: nat)
    requires members != [] && depth > 0
    requires G.Written(TextOf(members[0].key)) == RenderString(members[0].key)
    requires G.Written(Layout(members[0].value, format, depth)) == Render(members[0].value, format, depth)
    requires |members| > 1 ==>
               G.WrittenMembers(LayoutMembers(members[1..], format, depth))
               == (if format then [NEWLINE] else [])
                  + (RenderMembers(members[1..], format, depth) + (if format then Tabs(depth - 1) else []))
    ensures G.WrittenMembers(LayoutMembers(members, format, depth))
         == (if format then [NEWLINE] else [])
            + (RenderMembers(members, format, depth) + (if format then Tabs(depth - 1) else []))
  {
    hide Layout, LayoutMembers, Render, RenderMembers, Tabs, RenderString, TextOf, G.Written, G.WrittenMembers, MemberEnd,
      NewLine;
    MembersSplit(members, format, depth);
    var ds := LayoutMembers(members, format, depth);
    var nl: bytes := if format then [NEWLINE] else [];
    var tabs: bytes := if format then Tabs(depth - 1) else [];
    var rest := MemberEnd(|members| == 1, format) + RenderMembers(members[1..], format, depth);
    var tail := ds[0].after + (if |ds| == 1 then [] else [COMMA] + G.WrittenMembers(ds[1..]));
    NewLineIs(format, depth);
    NewLineIs(format, depth - 1);
    MemberEndIs(members, format, depth);
    Ends(nl, tabs, RenderMembers(members[1..], format, depth));
    assert tail == rest + tabs;
    WrittenOne(ds, tail);
    RenderOne(members, format, depth, rest);
    Pieces(nl, Indent(format, depth), RenderString(members[0].key), if format then [9] else [],
      Render(members[0].value, format, depth), rest, tabs, tail);
  }

  lemma NewLineIs(format: bool, depth: nat)
    ensures NewLine(format, depth) == (if format then [NEWLINE] else []) + Indent(format, depth)
  {}

  lemma {:induction false} MemberEndIs(members: seq<Member>, format: bool, depth: nat)
    requires members != []
    ensures MemberEnd(|members| == 1, format) + RenderMembers(members[1..], format, depth)
         == if |members| == 1 then [] + (if format then [NEWLINE] else []) + []
            else [COMMA] + (if format then [NEWLINE] else []) + RenderMembers(members[1..], format, depth)
  {
    hide RenderMembers;
  }

  lemma Ends(nl: bytes, tabs: bytes, rest: bytes)
    ensures (nl + tabs) + [] == [] + nl + [] + tabs
    ensures [] + ([COMMA] + (nl + (rest + tabs))) == [COMMA] + nl + rest + tabs
  {}

  lemma Pieces(nl: bytes, indent: bytes, key: bytes, gap: bytes, value: bytes, rest: bytes, tabs: bytes, tail: bytes)
    requires tail == rest + tabs
    ensures (nl + indent) + (key + ([] + ([COLON] + (gap + (value + tail)))))
         == nl + ((indent + (key + (([COLON] + gap) + (value + rest)))) + tabs)
  {
    var v := value + rest;
    assert value + tail == v + tabs;
    assert [] + ([COLON] + (gap + (v + tabs))) == ([COLON] + gap + v) + tabs;
    var k := [COLON] + gap + v;
    assert key + (k + tabs) == (key + k) + tabs;
    assert (nl + indent) + ((key + k) + tabs) == nl + ((indent + (key + k)) + tabs);
  }

  /** The printed text denotes the tree, with no blanks around it. */
  lemma PrintedIsJson(t: Json, format: bool)
    requires Printable(t)
    ensures G.IsJsonText(Render(t, format, 0), t)
  {
    hide G.Written, G.Formed, G.Paired, G.Meaning, Render, Layout;
    LayoutIs(t, format, 0);
    var d, none: bytes := Layout(t, format, 0), [];
    assert G.Blanks(none, true) && G.Formed(d, true) && G.Paired(d);
    assert Render(t, format, 0) == none + G.Written(d) + none;
  }
}
