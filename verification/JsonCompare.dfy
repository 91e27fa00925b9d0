/**
 * cJSON_Compare (case sensitive) and cJSON_Duplicate. Comparison is proved to be equality of
 * canonical forms, in which an object is a map, on the trees in which no repeated key
 * contradicts its first occurrence.
 */
module JsonCompare {
  import opened Bytes
  import opened Decimal
  import opened JsonText

  // ----- what cJSON_Compare computes for two nodes

  const DBL_EPSILON := 1.0 / 4503599627370496.0

  function Abs(x: real): (r: real) { if x < 0.0 then -x else x }

  /** compare_double */
  predicate CompareDouble(a: real, b: real) {
    var maxVal := if Abs(a) > Abs(b) then Abs(a) else Abs(b);
    Abs(a - b) <= maxVal * DBL_EPSILON
  }

  /** On 32-bit integers the tolerance is no tolerance. */
  lemma CompareInts(a: real, b: real)
    requires a == ValueInt(a) as real && b == ValueInt(b) as real
    ensures CompareDouble(a, b) <==> a == b
  {
    var m, n := ValueInt(a), ValueInt(b);
    if m != n {
      assert Abs(a - b) >= 1.0;
      var maxVal := if Abs(a) > Abs(b) then Abs(a) else Abs(b);
      assert maxVal <= 2147483648.0;
      assert maxVal * DBL_EPSILON < 1.0;
    }
  }

  /** How many nodes a tree has. */
  function Weight(t: Json): (w: nat)
    ensures w >= 1
  {
    match t
    case Array(items) => 1 + WeightOfItems(items)
    case Object(members) => 1 + WeightOfMembers(members)
    case _ => 1
  }

  function WeightOfItems(items: seq<Json>): (r: nat) {
    if items == [] then 0 else Weight(items[0]) + WeightOfItems(items[1..])
  }

  function WeightOfMembers(members: seq<Member>): (r: nat) {
    if members == [] then 0 else Weight(members[0].value) + WeightOfMembers(members[1..])
  }

  function ItemAt(items: seq<Json>, i: nat): (t: Json)
    requires i < |items|
    ensures t == items[i] && Weight(t) <= WeightOfItems(items)
  {
    if i == 0 then items[0] else ItemAt(items[1..], i - 1)
  }

  function ValueAt(members: seq<Member>, i: nat): (t: Json)
    requires i < |members|
    ensures t == members[i].value && Weight(t) <= WeightOfMembers(members)
  {
    if i == 0 then members[0].value else ValueAt(members[1..], i - 1)
  }

  /** get_object_item, case sensitive: the index of the first member with that key. */
  function Find(members: seq<Member>, key: bytes): (r: Option<nat>)
    ensures r.Some? ==> r.value < |members| && members[r.value].key == key
    ensures r.Some? ==> forall i :: 0 <= i < r.value ==> members[i].key != key
    ensures r.None? ==> forall i :: 0 <= i < |members| ==> members[i].key != key
  {
    if members == [] then None
    else if members[0].key == key then Some(0)
    else
      match Find(members[1..], key)
      case None => None
      case Some(i) => Some(i + 1)
  }

  predicate Compare(a: Json, b: Json)
    decreases Weight(a) + Weight(b), 1
  {
    match a
    case Null => b.Null?
    case False => b.False?
    case True => b.True?
    case Number(x) => b.Number? && CompareDouble(x, b.double)
    case String(s) => b.String? && s == b.text
    case Array(items) =>
      b.Array? && |items| == |b.items|
      && forall i :: 0 <= i < |items| ==> Compare(ItemAt(items, i), ItemAt(b.items, i))
    case Object(members) => b.Object? && Covers(members, b.members) && Covers(b.members, members)
  }

  /** One of the two loops over objects: every member of `ms` has its like in `ns`. */
  predicate Covers(ms: seq<Member>, ns: seq<Member>)
    decreases WeightOfMembers(ms) + WeightOfMembers(ns), 2
  {
    forall i :: 0 <= i < |ms| ==>
      var r := Find(ns, ms[i].key);
      r.Some? && Compare(ValueAt(ms, i), ValueAt(ns, r.value))
  }

  // ----- what that means

  datatype Canon =
    | CNull
    | CFalse
    | CTrue
    | CNumber(double: real)
    | CString(text: bytes)
    | CArray(items: seq<Canon>)
    | CObject(members: map<bytes, Canon>)

  /** The value without the order of members; of members with one key the first counts. */
  function Canonical(t: Json): (r: Canon)
    decreases t, 1
  {
    match t
    case Null => CNull
    case False => CFalse
    case True => CTrue
    case Number(d) => CNumber(d)
    case String(s) => CString(s)
    case Array(items) => CArray(CanonicalItems(items))
    case Object(members) => CObject(CanonicalMembers(members))
  }

  function CanonicalItems(items: seq<Json>): (s: seq<Canon>)
    ensures |s| == |items|
    ensures forall i :: 0 <= i < |s| ==> s[i] == Canonical(items[i])
    decreases items, 0
  {
    if items == [] then [] else [Canonical(items[0])] + CanonicalItems(items[1..])
  }

  function CanonicalMembers(members: seq<Member>): (m: map<bytes, Canon>)
    decreases members, 0
  {
    if members == [] then map[]
    else CanonicalMembers(members[1..])[members[0].key := Canonical(members[0].value)]
  }

  /** No member contradicts the first one with its key. */
  predicate Coherent(t: Json) {
    match t
    case Array(items) => forall i :: 0 <= i < |items| ==> Coherent(items[i])
    case Object(members) =>
      forall i :: 0 <= i < |members| ==>
        && Coherent(members[i].value)
        && members[i].key in CanonicalMembers(members)
        && CanonicalMembers(members)[members[i].key] == Canonical(members[i].value)
    case _ => true
  }

  /** The canonical map holds what lookup finds. */
  lemma {:induction false} FindInCanonical(members: seq<Member>, key: bytes)
    ensures key in CanonicalMembers(members) <==> Find(members, key).Some?
    ensures Find(members, key).Some? ==>
              CanonicalMembers(members)[key] == Canonical(members[Find(members, key).value].value)
    decreases |members|
  {
    if members != [] && members[0].key != key {
      FindInCanonical(members[1..], key);
    }
  }

  predicate Alike(a: Json, b: Json) {
    Coherent(a) && Coherent(b) && Canonical(a) == Canonical(b)
  }

  /**
   * Comparison in full: two trees compare equal exactly when both are coherent and they are
   * the same up to the order of members.
   */
  lemma {:induction false} CompareIsEquality(a: Json, b: Json)
    requires Printable(a) && Printable(b)
    ensures Compare(a, b) <==> Alike(a, b)
    decreases Weight(a) + Weight(b), 1
  {
    if a.Number? && b.Number? {
      CompareInts(a.double, b.double);
    } else if a.Array? && b.Array? {
      CompareArrays(a, b);
    } else if a.Object? && b.Object? {
      CoversMeans(a.members, b.members);
      CoversMeans(b.members, a.members);
      SameMembers(a.members, b.members);
    }
  }

  lemma {:induction false} CompareArrays(a: Json, b: Json)
    requires a.Array? && b.Array? && Printable(a) && Printable(b)
    ensures Compare(a, b) <==> Alike(a, b)
    decreases Weight(a) + Weight(b), 0
  {
    if |a.items| == |b.items| {
      forall i | 0 <= i < |a.items|
        ensures Compare(ItemAt(a.items, i), ItemAt(b.items, i)) <==> Alike(a.items[i], b.items[i])
      {
        PrintableItem(a.items, i);
        PrintableItem(b.items, i);
        CompareIsEquality(ItemAt(a.items, i), ItemAt(b.items, i));
      }
    }
  }

  /** One loop over objects, in terms of canonical forms. */
  predicate CanonicallyCovers(ms: seq<Member>, ns: seq<Member>) {
    forall i :: 0 <= i < |ms| ==>
      && Coherent(ms[i].value)
      && ms[i].key in CanonicalMembers(ns)
      && CanonicalMembers(ns)[ms[i].key] == Canonical(ms[i].value)
      && Coherent(ns[FoundAt(ns, ms[i].key)].value)
  }

  function FoundAt(ms: seq<Member>, key: bytes): (i: nat)
    requires key in CanonicalMembers(ms)
    ensures i < |ms| && ms[i].key == key
  {
    FindInCanonical(ms, key);
    Find(ms, key).value
  }

  lemma {:induction false} CoversMeans(ms: seq<Member>, ns: seq<Member>)
    requires PrintableMembers(ms) && PrintableMembers(ns)
    ensures Covers(ms, ns) <==> CanonicallyCovers(ms, ns)
    decreases WeightOfMembers(ms) + WeightOfMembers(ns), 2
  {
    hide Printable, Weight, WeightOfMembers, Find, Compare, Canonical, Coherent, CanonicalMembers;
    forall i | 0 <= i < |ms|
      ensures var r := Find(ns, ms[i].key);
              && (r.Some? <==> ms[i].key in CanonicalMembers(ns))
              && (r.Some? ==>
                    && r.value == FoundAt(ns, ms[i].key)
                    && CanonicalMembers(ns)[ms[i].key] == Canonical(ns[r.value].value)
                    && (Compare(ValueAt(ms, i), ValueAt(ns, r.value)) <==> Alike(ms[i].value, ns[r.value].value)))
    {
      var r := Find(ns, ms[i].key);
      FindInCanonical(ns, ms[i].key);
      if r.Some? {
        PrintableMember(ms, i);
        PrintableMember(ns, r.value);
        CompareIsEquality(ValueAt(ms, i), ValueAt(ns, r.value));
      }
    }
  }

  /** The keys of the canonical map are the keys of the members. */
  lemma {:induction false} CanonicalKeys(ms: seq<Member>)
    ensures forall i :: 0 <= i < |ms| ==> ms[i].key in CanonicalMembers(ms)
    ensures forall k :: k in CanonicalMembers(ms) ==>
              CanonicalMembers(ms)[k] == Canonical(ms[FoundAt(ms, k)].value)
  {
    forall i | 0 <= i < |ms| ensures ms[i].key in CanonicalMembers(ms) {
      FindInCanonical(ms, ms[i].key);
    }
    forall k | k in CanonicalMembers(ms)
      ensures CanonicalMembers(ms)[k] == Canonical(ms[FoundAt(ms, k)].value)
    {
      FindInCanonical(ms, k);
    }
  }

  lemma MapsCover(ms: seq<Member>, ns: seq<Member>)
    requires CanonicallyCovers(ms, ns)
    ensures forall k :: k in CanonicalMembers(ms) ==>
              k in CanonicalMembers(ns) && CanonicalMembers(ns)[k] == CanonicalMembers(ms)[k]
  {
    hide Canonical, CanonicalMembers, Find, Coherent;
    CanonicalKeys(ms);
    forall k | k in CanonicalMembers(ms)
      ensures k in CanonicalMembers(ns) && CanonicalMembers(ns)[k] == CanonicalMembers(ms)[k]
    {
      var i := FoundAt(ms, k);
      assert ms[i].key == k;
    }
  }

  lemma SameMembers(ms: seq<Member>, ns: seq<Member>)
    ensures CanonicallyCovers(ms, ns) && CanonicallyCovers(ns, ms) <==> Alike(Object(ms), Object(ns))
  {
    hide CanonicalMembers, Find;
    var cm, cn := CanonicalMembers(ms), CanonicalMembers(ns);
    CanonicalKeys(ms);
    CanonicalKeys(ns);
    if CanonicallyCovers(ms, ns) && CanonicallyCovers(ns, ms) {
      MapsCover(ms, ns);
      MapsCover(ns, ms);
      assert cm == cn;
    }
  }

  // ----- consequences

  /** Comparison is symmetric and transitive, and reflexive exactly on coherent trees. */
  lemma CompareIsPartialEquivalence(a: Json, b: Json, c: Json)
    requires Printable(a) && Printable(b) && Printable(c)
    ensures Compare(a, a) <==> Coherent(a)
    ensures Compare(a, b) <==> Compare(b, a)
    ensures Compare(a, b) && Compare(b, c) ==> Compare(a, c)
  {
    hide Compare, Printable, Coherent, Canonical;
    CompareIsEquality(a, a);
    CompareIsEquality(a, b);
    CompareIsEquality(b, a);
    CompareIsEquality(b, c);
    CompareIsEquality(a, c);
  }

  /** No object of the tree has a key twice. */
  predicate DistinctKeys(t: Json) {
    match t
    case Array(items) => forall i :: 0 <= i < |items| ==> DistinctKeys(items[i])
    case Object(members) =>
      && (forall i, j :: 0 <= i < j < |members| ==> members[i].key != members[j].key)
      && forall i :: 0 <= i < |members| ==> DistinctKeys(members[i].value)
    case _ => true
  }

  lemma {:induction false} DistinctIsCoherent(t: Json)
    requires DistinctKeys(t)
    ensures Coherent(t)
  {
    match t
    case Array(items) =>
      forall i | 0 <= i < |items| ensures Coherent(items[i]) { DistinctIsCoherent(items[i]); }
    case Object(members) =>
      CanonicalKeys(members);
      forall i | 0 <= i < |members|
        ensures && Coherent(members[i].value)
                && members[i].key in CanonicalMembers(members)
                && CanonicalMembers(members)[members[i].key] == Canonical(members[i].value)
      {
        DistinctIsCoherent(members[i].value);
        var j := FoundAt(members, members[i].key);
        assert members[j].key == members[i].key;
      }
    case _ =>
  }

  /**
   * The same in all but the order of members: leaves are equal, arrays are the same item by item, and
   * objects have the same keys with the same values.
   */
  ghost predicate Same(a: Json, b: Json)
    decreases a, 1
  {
    match a
    case Array(items) =>
      b.Array? && |items| == |b.items| && forall i :: 0 <= i < |items| ==> Same(items[i], b.items[i])
    case Object(ms) => b.Object? && HasLikes(ms, b.members) && AreLikes(ms, b.members)
    case _ => a == b
  }

  /** Every member of `ms` has its like among `ns`. */
  ghost predicate HasLikes(ms: seq<Member>, ns: seq<Member>)
    decreases ms, 0
  {
    forall i :: 0 <= i < |ms| ==>
      exists j :: 0 <= j < |ns| && ns[j].key == ms[i].key && Same(ms[i].value, ns[j].value)
  }

  /** Every member of `ns` is the like of one of `ms`. */
  ghost predicate AreLikes(ms: seq<Member>, ns: seq<Member>)
    decreases ms, 0
  {
    forall j :: 0 <= j < |ns| ==>
      exists i :: 0 <= i < |ms| && ms[i].key == ns[j].key && Same(ms[i].value, ns[j].value)
  }

  /** Where no key is repeated, two trees compare equal exactly when they are the same. */
  lemma {:induction false} CompareIsSame(a: Json, b: Json)
    requires Printable(a) && Printable(b) && DistinctKeys(a) && DistinctKeys(b)
    ensures Compare(a, b) <==> Same(a, b)
    decreases a, 1
  {
    if a.Number? && b.Number? {
      CompareInts(a.double, b.double);
    } else if a.Array? && b.Array? && |a.items| == |b.items| {
      forall i | 0 <= i < |a.items|
        ensures Compare(ItemAt(a.items, i), ItemAt(b.items, i)) <==> Same(a.items[i], b.items[i])
      {
        PrintableItem(a.items, i);
        PrintableItem(b.items, i);
        CompareIsSame(a.items[i], b.items[i]);
      }
    } else if a.Object? && b.Object? {
      SameObjects(a, b);
    }
  }

  lemma {:induction false} SameObjects(a: Json, b: Json)
    requires a.Object? && b.Object? && Printable(a) && Printable(b) && DistinctKeys(a) && DistinctKeys(b)
    ensures Compare(a, b) <==> Same(a, b)
    decreases a, 0
  {
    hide Printable, DistinctKeys, Find, Compare, Same;
    var ms, ns := a.members, b.members;
    forall i, j | 0 <= i < |ms| && 0 <= j < |ns|
      ensures Compare(ms[i].value, ns[j].value) <==> Same(ms[i].value, ns[j].value)
      ensures Compare(ns[j].value, ms[i].value) <==> Same(ms[i].value, ns[j].value)
    {
      MembersSound(a, i);
      MembersSound(b, j);
      CompareIsSame(ms[i].value, ns[j].value);
      CompareIsPartialEquivalence(ms[i].value, ns[j].value, ms[i].value);
    }
    KeysAreDistinct(a);
    KeysAreDistinct(b);
    CompareObjects(ms, ns);
    CoversIsSame(ms, ns);
    CoversIsSameBack(ms, ns);
    SameObjectsIs(a, b);
  }

  lemma MembersSound(t: Json, i: nat)
    requires t.Object? && i < |t.members| && Printable(t) && DistinctKeys(t)
    ensures Printable(t.members[i].value) && DistinctKeys(t.members[i].value)
  {
    PrintableMember(t.members, i);
  }

  ghost predicate Distinct(ms: seq<Member>) {
    forall i, j :: 0 <= i < j < |ms| ==> ms[i].key != ms[j].key
  }

  lemma KeysAreDistinct(t: Json)
    requires t.Object? && DistinctKeys(t)
    ensures Distinct(t.members)
  {}

  lemma SameObjectsIs(a: Json, b: Json)
    requires a.Object? && b.Object?
    ensures Same(a, b) <==> HasLikes(a.members, b.members) && AreLikes(a.members, b.members)
  {}

  lemma CoversIsSame(ms: seq<Member>, ns: seq<Member>)
    requires Distinct(ns)
    requires forall i, j :: 0 <= i < |ms| && 0 <= j < |ns| ==>
               (Compare(ms[i].value, ns[j].value) <==> Same(ms[i].value, ns[j].value))
    ensures Covers(ms, ns) <==> HasLikes(ms, ns)
  {
    hide Compare, Same, Find;
    forall i | 0 <= i < |ms|
      ensures (var r := Find(ns, ms[i].key); r.Some? && Compare(ValueAt(ms, i), ValueAt(ns, r.value)))
         <==> exists j :: 0 <= j < |ns| && ns[j].key == ms[i].key && Same(ms[i].value, ns[j].value)
    {
      var r := Find(ns, ms[i].key);
      if r.Some? { assert ns[r.value].key == ms[i].key; }
    }
  }

  lemma CoversIsSameBack(ms: seq<Member>, ns: seq<Member>)
    requires Distinct(ms)
    requires forall i, j :: 0 <= i < |ms| && 0 <= j < |ns| ==>
               (Compare(ns[j].value, ms[i].value) <==> Same(ms[i].value, ns[j].value))
    ensures Covers(ns, ms) <==> AreLikes(ms, ns)
  {
    hide Compare, Same, Find;
    forall j | 0 <= j < |ns|
      ensures (var r := Find(ms, ns[j].key); r.Some? && Compare(ValueAt(ns, j), ValueAt(ms, r.value)))
         <==> exists i :: 0 <= i < |ms| && ms[i].key == ns[j].key && Same(ms[i].value, ns[j].value)
    {
      var r := Find(ms, ns[j].key);
      if r.Some? { assert ms[r.value].key == ns[j].key; }
    }
  }

  /** Reordering the members of an object with distinct keys is invisible to comparison. */
  lemma ReorderedIsEqual(ms: seq<Member>, ns: seq<Member>)
    requires DistinctKeys(Object(ms)) && PrintableMembers(ms) && PrintableMembers(ns)
    requires multiset(ms) == multiset(ns)
    ensures Compare(Object(ms), Object(ns))
  {
    hide CanonicallyCovers, Covers, Compare, Coherent, DistinctKeys, PrintableMembers;
    DistinctIsCoherent(Object(ms));
    ReorderedCovers(ms, ns);
    ReorderedIsCovered(ms, ns);
    CoversMeans(ms, ns);
    CoversMeans(ns, ms);
    CompareObjects(ms, ns);
  }

  lemma ReorderedIsCovered(ms: seq<Member>, ns: seq<Member>)
    requires DistinctKeys(Object(ms)) && Coherent(Object(ms)) && multiset(ms) == multiset(ns)
    ensures CanonicallyCovers(ns, ms)
  {
    hide Canonical, CanonicalMembers, Find;
    CanonicalKeys(ms);
    forall i | 0 <= i < |ns|
      ensures && Coherent(ns[i].value)
              && ns[i].key in CanonicalMembers(ms)
              && CanonicalMembers(ms)[ns[i].key] == Canonical(ns[i].value)
              && Coherent(ms[FoundAt(ms, ns[i].key)].value)
    {
      assert ns[i] in multiset(ns);
      assert ns[i] in ms;
      var j :| 0 <= j < |ms| && ms[j] == ns[i];
      assert Coherent(ms[j].value);
    }
  }

  lemma CompareObjects(ms: seq<Member>, ns: seq<Member>)
    ensures Compare(Object(ms), Object(ns)) <==> Covers(ms, ns) && Covers(ns, ms)
  {}

  lemma ReorderedCovers(ms: seq<Member>, ns: seq<Member>)
    requires DistinctKeys(Object(ms)) && Coherent(Object(ms)) && multiset(ms) == multiset(ns)
    ensures CanonicallyCovers(ms, ns)
  {
    hide Canonical, CanonicalMembers, Find;
    CanonicalKeys(ms);
    CanonicalKeys(ns);
    forall i | 0 <= i < |ms|
      ensures && Coherent(ms[i].value)
              && ms[i].key in CanonicalMembers(ns)
              && CanonicalMembers(ns)[ms[i].key] == Canonical(ms[i].value)
              && Coherent(ns[FoundAt(ns, ms[i].key)].value)
    {
      assert ms[i] in multiset(ms);
      assert ms[i] in ns;
      var j :| 0 <= j < |ns| && ns[j] == ms[i];
      var f := FoundAt(ns, ms[i].key);
      assert ns[f] in multiset(ns);
      assert ns[f] in ms;
      var g :| 0 <= g < |ms| && ms[g] == ns[f];
      assert ms[g].key == ms[i].key;
      assert g == i;
    }
  }

  /** An object with a repeated key need not equal its own copy. */
  lemma RepeatedKeyIsNotReflexive()
    ensures var t := Object([Member([97], Null), Member([97], True)]);
            Printable(t) && !Compare(t, t)
  {
    var ms := [Member([97], Null), Member([97], True)];
    assert ms[1..] == [ms[1]];
    assert ms[1..][1..] == [];
    assert Find(ms, [97]) == Some(0);
    assert ms[1].key == [97];
    assert ValueAt(ms, 1) == True && ValueAt(ms, 0) == Null;
    assert !Covers(ms, ms);
  }
}
