/** Round trips of whole documents. */
module JsonDocument {
  import opened Bytes
  import opened Decimal
  import opened JsonText
  import opened JsonScan
  import opened JsonRoundTrip

  lemma SkipFirst(c: bytes)
    requires |c| > 0 && c[0] > 32 && c[0] != 0xEF
    ensures Skip(c, SkipBom(c)) == 0
  {
    if |c| > 4 { assert c[..3][0] == c[0]; }
    SkipTo(c, 0, 0);
  }

  /** A printed text starts with none of the bytes that are skipped before a value. */
  lemma FirstByte(t: Json, format: bool, d: nat)
    ensures Render(t, format, d) != [] && 32 < Render(t, format, d)[0] < 0xEF
  {
    RenderStart(t, format, d);
  }

  /**
   * Parsing what cJSON printed gives the same tree, formatted or not, whatever follows the
   * text as long as it does not continue a number; a tree nested too deep is refused.
   */
  lemma ParseOfPrint(t: Json, format: bool, rest: bytes)
    requires Printable(t) && (rest == [] || !IsNumberChar(rest[0]))
    ensures Document(Render(t, format, 0) + rest, false)
         == if Nesting(t) <= NESTING_LIMIT then Some(t) else None
  {
    hide Render, Value, Skip, SkipBom, Nesting, Printable;
    var r := Render(t, format, 0);
    var c := r + rest;
    FirstByte(t, format, 0);
    SkipFirst(c);
    assert c[0..|r|] == r;
    assert |r| < |c| ==> c[|r|] == rest[0];
    ValueRoundTrip(c, 0, t, format, 0, 0);
  }

  /** The same for cJSON_Parse's zero-terminated text, with or without the check for the terminator. */
  lemma ParseOfPrintedCString(t: Json, format: bool, requireNul: bool)
    requires Printable(t)
    ensures Document(Render(t, format, 0) + [0], requireNul)
         == if Nesting(t) <= NESTING_LIMIT then Some(t) else None
  {
    hide Render, Value, SkipBom, Nesting, Printable;
    var r := Render(t, format, 0);
    var c := r + [0];
    FirstByte(t, format, 0);
    SkipFirst(c);
    assert c[0..|r|] == r;
    ValueRoundTrip(c, 0, t, format, 0, 0);
    assert SkipBlanks(c, |r| + 1) == |r| + 1;
    assert Skip(c, |r|) == |r|;
  }

  /** The printer loses nothing: no two trees within the nesting limit have one text. */
  lemma PrintIsInjective(s: Json, t: Json, format: bool)
    requires Printable(s) && Printable(t)
    requires Nesting(s) <= NESTING_LIMIT && Nesting(t) <= NESTING_LIMIT
    requires Render(s, format, 0) == Render(t, format, 0)
    ensures s == t
  {
    ParseOfPrint(s, format, []);
    ParseOfPrint(t, format, []);
  }

  /** The two layouts carry the same tree. */
  lemma LayoutsAgree(t: Json)
    requires Printable(t)
    ensures Document(Render(t, true, 0), false) == Document(Render(t, false, 0), false)
  {
    ParseOfPrint(t, true, []);
    ParseOfPrint(t, false, []);
    assert Render(t, true, 0) + [] == Render(t, true, 0);
    assert Render(t, false, 0) + [] == Render(t, false, 0);
  }

  // ----- what the parser accepts can be printed

  predicate WholeNumbers(t: Json) {
    match t
    case Number(d) => d == ValueInt(d) as real
    case Array(items) => WholeItems(items)
    case Object(members) => WholeMembers(members)
    case _ => true
  }

  predicate WholeItems(items: seq<Json>) {
    items == [] || (WholeNumbers(items[0]) && WholeItems(items[1..]))
  }

  predicate WholeMembers(members: seq<Member>) {
    members == [] || (WholeNumbers(members[0].value) && WholeMembers(members[1..]))
  }

  /** A parsed value is within the nesting limit, and only its numbers may keep it from being printed with `%d`. */
  lemma {:induction false} ParsedValue(c: bytes, off: nat, depth: nat)
    requires off <= |c| && depth <= NESTING_LIMIT
    requires Value(c, off, depth).Some?
    ensures var t := Value(c, off, depth).value.0;
            Fits(depth, Nesting(t)) && (WholeNumbers(t) ==> Printable(t))
    decreases |c| - off, 1
  {
    hide Value, ArrayLiteral, ObjectLiteral, ValueInt;
    var t := Value(c, off, depth).value.0;
    WhichLiteral(c, off, depth);
    if t.Array? {
      ParsedArray(c, off, depth);
    } else if t.Object? {
      ParsedObject(c, off, depth);
    }
  }

  /** Arrays and objects are read by their own functions, and every other value is a leaf. */
  lemma WhichLiteral(c: bytes, off: nat, depth: nat)
    requires off <= |c| && Value(c, off, depth).Some?
    ensures var t := Value(c, off, depth).value.0;
            && (t.Array? ==> off < |c| && Value(c, off, depth) == ArrayLiteral(c, off, depth))
            && (t.Object? ==> off < |c| && Value(c, off, depth) == ObjectLiteral(c, off, depth))
            && (t.String? ==> 0 !in t.text)
  {
    hide At, Skip, IsDigit, NumberLiteral, Items, Members;
  }

  lemma {:induction false} ParsedArray(c: bytes, off: nat, depth: nat)
    requires off < |c| && depth <= NESTING_LIMIT && ArrayLiteral(c, off, depth).Some?
    ensures var t := ArrayLiteral(c, off, depth).value.0;
            Fits(depth, Nesting(t)) && (WholeNumbers(t) ==> Printable(t))
    decreases |c| - off, 0
  {
    hide Skip, Items;
    var t := ArrayLiteral(c, off, depth).value.0;
    if t.items != [] { ParsedItems(c, Skip(c, off + 1), depth + 1); }
  }

  lemma {:induction false} ParsedObject(c: bytes, off: nat, depth: nat)
    requires off < |c| && depth <= NESTING_LIMIT && ObjectLiteral(c, off, depth).Some?
    ensures var t := ObjectLiteral(c, off, depth).value.0;
            Fits(depth, Nesting(t)) && (WholeNumbers(t) ==> Printable(t))
    decreases |c| - off, 0
  {
    hide Skip, Members;
    var t := ObjectLiteral(c, off, depth).value.0;
    if t.members != [] { ParsedMembers(c, Skip(c, off + 1), depth + 1); }
  }

  lemma {:induction false} ParsedItems(c: bytes, p: nat, depth: nat)
    requires p <= |c| && depth <= NESTING_LIMIT && Items(c, p, depth).Some?
    ensures var items := Items(c, p, depth).value.0;
            Fits(depth, NestingOfItems(items)) && (WholeItems(items) ==> PrintableItems(items))
    decreases |c| - p, 2
  {
    hide Value, Skip, Nesting, WholeNumbers, Printable;
    var (v, e) := Value(c, Skip(c, p), depth).value;
    ParsedValue(c, Skip(c, p), depth);
    var q := Skip(c, e);
    var items := Items(c, p, depth).value.0;
    if q < |c| && c[q] == COMMA {
      ParsedItems(c, q + 1, depth);
      assert items[1..] == Items(c, q + 1, depth).value.0;
    } else {
      assert items[1..] == [];
    }
  }

  lemma {:induction false} ParsedMembers(c: bytes, p: nat, depth: nat)
    requires p <= |c| && depth <= NESTING_LIMIT && Members(c, p, depth).Some?
    ensures var members := Members(c, p, depth).value.0;
            Fits(depth, NestingOfMembers(members)) && (WholeMembers(members) ==> PrintableMembers(members))
    decreases |c| - p, 3
  {
    hide Value, Skip, Nesting, WholeNumbers, Printable, OneMember;
    var (m, q) := OneMember(c, p, depth).value;
    ParsedMember(c, p, depth);
    var members := Members(c, p, depth).value.0;
    if q < |c| && c[q] == COMMA {
      ParsedMembers(c, q + 1, depth);
      assert members[1..] == Members(c, q + 1, depth).value.0;
    } else {
      assert members[1..] == [];
    }
  }

  lemma {:induction false} ParsedMember(c: bytes, p: nat, depth: nat)
    requires p <= |c| && depth <= NESTING_LIMIT && OneMember(c, p, depth).Some?
    ensures var m := OneMember(c, p, depth).value.0;
            0 !in m.key && Fits(depth, Nesting(m.value)) && (WholeNumbers(m.value) ==> Printable(m.value))
    decreases |c| - p, 2
  {
    hide Value, Skip, Nesting, WholeNumbers, Printable, KeyLiteral;
    var (key, k) := KeyLiteral(c, p).value;
    ParsedValue(c, Skip(c, k + 1), depth);
  }

  /**
   * Whatever text was accepted, printing the tree and parsing it again changes nothing
   * (its numbers being 32-bit integers), so every document has a canonical text.
   */
  lemma Reparse(c: bytes, requireNul: bool, format: bool)
    requires Document(c, requireNul).Some? && WholeNumbers(Document(c, requireNul).value)
    ensures Printable(Document(c, requireNul).value)
    ensures Document(Render(Document(c, requireNul).value, format, 0) + [0], true) == Document(c, requireNul)
  {
    hide Render, Value, Skip, SkipBom, Nesting, Printable;
    ParsedValue(c, Skip(c, SkipBom(c)), 0);
    ParseOfPrintedCString(Document(c, requireNul).value, format, true);
  }
}
