/** parse(print(t)) gives t back exactly when t is nested at most NESTING_LIMIT deep. */
module JsonRoundTrip {
  import opened Bytes
  import opened Decimal
  import opened JsonText
  import opened JsonScan
  import opened JsonLayout
  import opened JsonReads
  import G = JsonGrammar

  lemma DecimalChars(n: int)
    ensures forall i :: 0 <= i < |DecimalInt(n)| ==> IsNumberChar(DecimalInt(n)[i])
    ensures DecimalInt(n)[0] == 45 || IsDigit(DecimalInt(n)[0])
  {
    DigitsRoundTrip(if n < 0 then -n else n);
  }

  /** A printed value starts with a byte that tells its kind and is not white space. */
  lemma RenderStart(t: Json, format: bool, depth: nat)
    ensures Render(t, format, depth) != []
    ensures var b := Render(t, format, depth)[0];
            b > 32 && b != CLOSE_ARRAY && b != CLOSE_OBJECT && b != COMMA
    ensures t.Number? ==> Render(t, format, depth)[0] == 45 || IsDigit(Render(t, format, depth)[0])
    ensures t.String? ==> Render(t, format, depth)[0] == QUOTE
    ensures t.Array? ==> Render(t, format, depth)[0] == OPEN_ARRAY
    ensures t.Object? ==> Render(t, format, depth)[0] == OPEN_OBJECT
  {
    if t.Number? { DecimalChars(ValueInt(t.double)); }
  }

  predicate Fits(depth: nat, nesting: nat) {
    depth + nesting <= NESTING_LIMIT
  }

  /** The layout of a printable tree is as deep as the tree, its numerals are short and no text in it is cut. */
  lemma {:induction false} LayoutFacts(t: Json, format: bool, d: nat)
    requires Printable(t)
    ensures G.Depth(Layout(t, format, d)) == Nesting(t)
    ensures G.ShortNumerals(Layout(t, format, d))
    ensures G.CutTexts(t) == t
    decreases t, 1
  {
    hide LayoutItems, LayoutMembers, G.DepthOfItems, G.DepthOfMembers, G.ShortInItems, G.ShortInMembers,
      G.CutItems, G.CutMembers, NestingOfItems, NestingOfMembers, PrintableItems, PrintableMembers, G.WrittenNumeral,
      IntegerText, DecimalInt;
    match t
    case Number(x) =>
      IntegerTextIs(ValueInt(x));
      Int32Length(ValueInt(x));
    case String(s) => CStrOfClean(s);
    case Array(items) => ItemsFacts(items, format, d + 1, []);
    case Object(members) => MembersFacts(members, format, d + 1);
    case _ =>
  }

  lemma {:induction false} ItemsFacts(items: seq<Json>, format: bool, d: nat, before: bytes)
    requires PrintableItems(items)
    ensures G.DepthOfItems(LayoutItems(items, format, d, before)) == NestingOfItems(items)
    ensures G.ShortInItems(LayoutItems(items, format, d, before))
    ensures G.CutItems(items) == items
    decreases items, 0
  {
    hide Layout, Nesting, Printable, G.Depth, G.ShortNumerals, G.CutTexts;
    if items != [] {
      var space: bytes := if format then [32] else [];
      LayoutFacts(items[0], format, d);
      ItemsFacts(items[1..], format, d, space);
      ItemsSplit(items, format, d, before, space);
      assert items == [items[0]] + items[1..];
    }
  }

  lemma {:induction false} MembersFacts(members: seq<Member>, format: bool, d: nat)
    requires PrintableMembers(members) && d > 0
    ensures G.DepthOfMembers(LayoutMembers(members, format, d)) == NestingOfMembers(members)
    ensures G.ShortInMembers(LayoutMembers(members, format, d))
    ensures G.CutMembers(members) == members
    decreases members, 0
  {
    hide Layout, Nesting, Printable, TextOf, NewLine, G.Depth, G.ShortNumerals, G.CutTexts, CStr;
    if members != [] {
      LayoutFacts(members[0].value, format, d);
      MembersFacts(members[1..], format, d);
      MembersSplit(members, format, d);
      CStrOfClean(members[0].key);
      assert members == [members[0]] + members[1..];
    }
  }

  /** A printed C string is read back as itself, quotes included. */
  lemma StringRoundTrip(c: bytes, off: nat, s: bytes)
    requires 0 !in s && At(c, off, RenderString(s))
    ensures off < |c|
    ensures StringLiteral(c, off) == Some((s, off + |RenderString(s)|))
  {
    hide At, RenderString, StringLiteral, G.Written, G.FormedString, G.FormedChars;
    TextOfIs(s);
    StringReads(c, off, TextOf(s));
    CStrOfClean(s);
  }

  lemma ValueRoundTrip(c: bytes, off: nat, t: Json, format: bool, d: nat, depth: nat)
    requires Printable(t) && depth <= NESTING_LIMIT
    requires At(c, off, Render(t, format, d))
    requires NumberEnds(c, off + |Render(t, format, d)|)
    ensures off <= |c|
    ensures Value(c, off, depth)
         == if Fits(depth, Nesting(t)) then Some((t, off + |Render(t, format, d)|)) else None
  {
    hide At, NumberEnds, Render, Value, Layout, Nesting, Printable, G.Formed, G.Paired, G.Written, G.Meaning,
      G.Depth, G.ShortNumerals, G.CutTexts;
    LayoutIs(t, format, d);
    LayoutFacts(t, format, d);
    NumbersAreShort(t, format, d);
    ValueReads(c, off, Layout(t, format, d), depth);
  }

  lemma NumbersAreShort(t: Json, format: bool, d: nat)
    ensures Layout(t, format, d).NumberText? ==> G.Depth(Layout(t, format, d)) == 0
  {
    hide LayoutItems, LayoutMembers;
  }
}
