/** What the parent reads from the JSON payloads of a worker. */
module SerdeJson {
  import opened Bytes
  import opened Decimal
  import opened JsonText
  import opened JsonRoundTrip

  /** serde_json::from_slice: one value with nothing but white space around it. */
  function FromSlice(v: bytes): (r: Option<Json>) {
    match Value(v, SkipBlanks(v, 0), 0)
    case None => None
    case Some((t, e)) => if SkipBlanks(v, e) == |v| then Some(t) else None
  }

  predicate IsLast(members: seq<Member>, i: nat, key: bytes)
    requires i < |members|
  {
    members[i].key == key && forall j :: i < j < |members| ==> members[j].key != key
  }

  /** Of repeated keys the last one counts. */
  function LookUp(members: seq<Member>, key: bytes): (r: Option<Json>) {
    if members == [] then None
    else
      var last := members[|members| - 1];
      if last.key == key then Some(last.value) else LookUp(members[..|members| - 1], key)
  }

  lemma {:induction false} LookUpIs(members: seq<Member>, key: bytes, i: nat)
    ensures LookUp(members, key).None? <==> forall k :: 0 <= k < |members| ==> members[k].key != key
    ensures i < |members| && IsLast(members, i, key) ==> LookUp(members, key) == Some(members[i].value)
  {
    if members != [] {
      var n := |members| - 1;
      LookUpIs(members[..n], key, i);
      assert forall k :: 0 <= k < n ==> members[..n][k] == members[k];
    }
  }

  /** value["key"] */
  function Field(t: Json, key: bytes): (r: Option<Json>) {
    if t.Object? then LookUp(t.members, key) else None
  }

  function AsStr(t: Option<Json>): (r: Option<bytes>) {
    if t.Some? && t.value.String? then Some(t.value.text) else None
  }

  /** as_u64().unwrap_or(0) as u32 */
  function AsU32(t: Option<Json>): (n: nat)
    ensures n < 0x1_0000_0000
  {
    if t.Some? && t.value.Number? && t.value.double >= 0.0 && t.value.double.Floor as real == t.value.double
       && t.value.double.Floor < 0x1_0000_0000_0000_0000
    then t.value.double.Floor % 0x1_0000_0000
    else 0
  }

  const WIDTH: bytes := [119, 105, 100, 116, 104]
  const HEIGHT: bytes := [104, 101, 105, 103, 104, 116]
  const ERROR: bytes := [101, 114, 114, 111, 114]
  const MESSAGE: bytes := [109, 101, 115, 115, 97, 103, 101]

  /** The width and height a CONNECTED or RESIZED payload carries. */
  function Dimensions(payload: bytes): (r: Option<(nat, nat)>) {
    match FromSlice(payload)
    case None => None
    case Some(t) => Some((AsU32(Field(t, WIDTH)), AsU32(Field(t, HEIGHT))))
  }

  function DimensionsTree(width: int, height: int): (r: Json) {
    Object([Member(WIDTH, Number(width as real)), Member(HEIGHT, Number(height as real))])
  }

  /** The text of output_send_connected and output_send_resized. */
  function DimensionsText(width: int, height: int): (r: bytes) {
    [OPEN_OBJECT] + (([QUOTE] + WIDTH + [QUOTE, COLON] + DecimalInt(width) + [COMMA, QUOTE] + HEIGHT + [QUOTE, COLON]
                      + DecimalInt(height)) + [CLOSE_OBJECT])
  }

  lemma DimensionsTextSpelled(width: int, height: int)
    ensures DimensionsText(width, height)
         == ['{' as int, '"' as int, 'w' as int, 'i' as int, 'd' as int, 't' as int, 'h' as int, '"' as int, ':' as int]
            + DecimalInt(width)
            + [',' as int, '"' as int, 'h' as int, 'e' as int, 'i' as int, 'g' as int, 'h' as int, 't' as int, '"' as int,
               ':' as int]
            + DecimalInt(height) + ['}' as int]
  {
    hide DecimalInt;
  }

  predicate IsInt32(n: int) { INT_MIN <= n <= INT_MAX }

  lemma PlainKeys()
    ensures Escape(WIDTH) == WIDTH && Escape(HEIGHT) == HEIGHT
  {
    PlainText(WIDTH);
    PlainText(HEIGHT);
  }

  lemma {:induction false} PlainText(s: bytes)
    requires forall i :: 0 <= i < |s| ==> s[i] >= 32 && s[i] != QUOTE && s[i] != BACKSLASH
    ensures Escape(s) == s
  {
    if s != [] { PlainText(s[1..]); }
  }

  /** It is what the JSON printer writes for that object. */
  lemma DimensionsTextIsRendered(width: int, height: int)
    requires IsInt32(width) && IsInt32(height)
    ensures DimensionsText(width, height) == Render(DimensionsTree(width, height), false, 0)
  {
    hide DecimalInt, Escape, ValueInt;
    PlainKeys();
    ValueIntOfInt(width);
    ValueIntOfInt(height);
    var second := [Member(HEIGHT, Number(height as real))];
    var members := [Member(WIDTH, Number(width as real))] + second;
    assert DimensionsTree(width, height) == Object(members);
    assert members[1..] == second;
    var tail := [QUOTE] + HEIGHT + [QUOTE, COLON] + DecimalInt(height);
    assert RenderMembers(second, false, 1) == tail by { LastMember(second[0]); }
    assert RenderMembers(members, false, 1) == [QUOTE] + WIDTH + [QUOTE, COLON] + DecimalInt(width) + [COMMA] + tail by {
      FirstOfTwo(members);
    }
    assert [COMMA] + tail == [COMMA, QUOTE] + HEIGHT + [QUOTE, COLON] + DecimalInt(height);
    var head := [QUOTE] + WIDTH + [QUOTE, COLON] + DecimalInt(width);
    assert head + [COMMA] + tail == head + [COMMA, QUOTE] + HEIGHT + [QUOTE, COLON] + DecimalInt(height);
  }

  lemma LastMember(m: Member)
    requires m.value.Number?
    ensures RenderMembers([m], false, 1) == [QUOTE] + Escape(m.key) + [QUOTE, COLON] + DecimalInt(ValueInt(m.value.double))
  {
    hide DecimalInt, Escape, ValueInt;
    assert [m][1..] == [];
    assert [QUOTE] + Escape(m.key) + [QUOTE, COLON] + DecimalInt(ValueInt(m.value.double))
        == [] + ([QUOTE] + (Escape(m.key) + [QUOTE]) + ([COLON] + (DecimalInt(ValueInt(m.value.double)) + ([] + [] + []))));
  }

  lemma FirstOfTwo(members: seq<Member>)
    requires |members| == 2 && members[0].value.Number?
    ensures RenderMembers(members, false, 1)
         == [QUOTE] + Escape(members[0].key) + [QUOTE, COLON] + DecimalInt(ValueInt(members[0].value.double)) + [COMMA]
            + RenderMembers(members[1..], false, 1)
  {
    hide DecimalInt, Escape, ValueInt;
    var k, n, rest := Escape(members[0].key), DecimalInt(ValueInt(members[0].value.double)),
      RenderMembers(members[1..], false, 1);
    assert [QUOTE] + k + [QUOTE, COLON] + n + [COMMA] + rest
        == [] + ([QUOTE] + (k + [QUOTE]) + ([COLON] + (n + ([COMMA] + [] + rest))));
  }

  lemma DimensionsTextIsShort(w: int, h: int)
    requires IsInt32(w) && IsInt32(h)
    ensures |DimensionsText(w, h)| <= 64
  {
    hide DecimalInt;
    Int32Length(w);
    Int32Length(h);
  }

  lemma LookUpDimensions(width: int, height: int)
    ensures Field(DimensionsTree(width, height), WIDTH) == Some(Number(width as real))
    ensures Field(DimensionsTree(width, height), HEIGHT) == Some(Number(height as real))
  {
    var members := DimensionsTree(width, height).members;
    assert members[..1] == [members[0]];
    assert WIDTH[0] != HEIGHT[0];
    assert LookUp(members, WIDTH) == LookUp(members[..1], WIDTH);
  }

  /** So the parent reads the dimensions that were sent; what is negative reads as 0. */
  lemma DimensionsArrive(width: int, height: int)
    requires IsInt32(width) && IsInt32(height)
    ensures Dimensions(DimensionsText(width, height))
         == Some((if width < 0 then 0 else width, if height < 0 then 0 else height))
  {
    hide Render, FromSlice, DecimalInt, Nesting, Printable, Field, DimensionsText;
    DimensionsTextIsRendered(width, height);
    DimensionsPrintable(width, height);
    ObjectArrives(DimensionsTree(width, height));
    LookUpDimensions(width, height);
    AsU32OfInt(width);
    AsU32OfInt(height);
  }

  /** An object as the printers write it is read as it was. */
  lemma ObjectArrives(t: Json)
    requires t.Object? && Printable(t) && Nesting(t) <= NESTING_LIMIT
    ensures FromSlice(Render(t, false, 0)) == Some(t)
  {
    hide Render, Value, Printable, Nesting;
    var v := Render(t, false, 0);
    RenderStart(t, false, 0);
    assert v[0..0 + |v|] == v;
    ValueRoundTrip(v, 0, t, false, 0, 0);
    StartsAtOnce(v);
  }

  lemma StartsAtOnce(v: bytes)
    requires v != [] && v[0] > 32
    ensures SkipBlanks(v, 0) == 0 && SkipBlanks(v, |v|) == |v|
  {}

  lemma AsU32OfInt(n: int)
    requires IsInt32(n)
    ensures AsU32(Some(Number(n as real))) == if n < 0 then 0 else n
  {}

  lemma DimensionsPrintable(width: int, height: int)
    requires IsInt32(width) && IsInt32(height)
    ensures Printable(DimensionsTree(width, height)) && Nesting(DimensionsTree(width, height)) == 1
  {
    ValueIntOfInt(width);
    ValueIntOfInt(height);
    var t := DimensionsTree(width, height);
    FlatMembers(t.members[1..]);
    FlatMembers(t.members);
    assert Nesting(t) == 1 + NestingOfMembers(t.members);
  }

  lemma {:induction false} FlatMembers(members: seq<Member>)
    requires forall m :: m in members ==> m.value.Number? && Printable(m.value) && 0 !in m.key
    ensures PrintableMembers(members) && NestingOfMembers(members) == 0
  {
    if members != [] {
      assert members[0] in members && Nesting(members[0].value) == 0;
      FlatMembers(members[1..]);
    }
  }
}
