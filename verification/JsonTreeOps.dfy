/** cJSON_Compare and cJSON_Duplicate on nodes. */
module JsonTreeOps {
  import opened Bytes
  import opened JsonText
  import opened JsonNode
  import opened JsonCompare

  /** get_object_item, case sensitive */
  method GetObjectItem(parent: Node, name: Option<bytes>, ghost t: Json) returns (item: Node?)
    requires t.Object? && IsTree(parent, t)
    ensures |parent.kids| == |t.members|
    ensures item == (if name.Some? && Find(t.members, name.value).Some?
                     then parent.kids[Find(t.members, name.value).value] else null)
  {
    hide IsTree;
    FirstChild(parent, t);
    if name.None? {
      return null;
    }
    item := parent.child;
    ghost var i := 0;
    if |t.members| > 0 { ChildOfTree(parent, t, 0); }
    while item != null && item.key.Some? && name.value != item.key.value
      invariant 0 <= i <= |t.members|
      invariant item == if i < |t.members| then parent.kids[i] else null
      invariant item != null ==> item.key == Some(t.members[i].key)
      invariant forall j :: 0 <= j < i ==> t.members[j].key != name.value
      decreases |t.members| - i
    {
      ChildOfTree(parent, t, i);
      item := item.next;
      i := i + 1;
      if i < |t.members| { ChildOfTree(parent, t, i); }
    }
    if item == null || item.key.None? {
      return null;
    }
  }

  /**
   * Two nodes that cJSON_Compare tells apart as their values do: they share nothing, or they
   * are sound trees, which equal themselves.
   */
  ghost predicate Comparable(a: Node, s: Json, b: Node, t: Json)
    reads a`repr, b`repr
  {
    a.repr !! b.repr || (Sound(s) && Sound(t))
  }

  predicate Sound(t: Json) {
    Printable(t) && Coherent(t)
  }

  lemma SoundChild(t: Json, i: nat)
    requires Sound(t) && i < Size(t)
    ensures Sound(ChildAt(t, i))
  {
    hide Canonical, CanonicalMembers;
    match t
    case Array(items) => PrintableItem(items, i);
    case Object(members) => PrintableMember(members, i);
  }

  lemma ChildrenComparable(a: Node, s: Json, b: Node, t: Json, i: nat, j: nat)
    requires IsTree(a, s) && IsTree(b, t) && Comparable(a, s, b, t) && i < Size(s) && j < Size(t)
    ensures |a.kids| == Size(s) && |b.kids| == Size(t)
    ensures Comparable(a.kids[i], ChildAt(s, i), b.kids[j], ChildAt(t, j))
  {
    hide Sound;
    if Sound(s) && Sound(t) {
      SoundChild(s, i);
      SoundChild(t, j);
    }
  }

  /** A node is one tree only. */
  lemma {:induction false} TreeIsUnique(n: Node, s: Json, t: Json)
    requires IsTree(n, s) && IsTree(n, t)
    ensures s == t
    decreases s
  {
    hide Disjoint, IsList;
    OwnKind(n, s);
    OwnKind(n, t);
    forall i | 0 <= i < Size(s) ensures ChildAt(s, i) == ChildAt(t, i) {
      TreeIsUnique(n.kids[i], ChildAt(s, i), ChildAt(t, i));
    }
    match s
    case Array(items) =>
      forall i | 0 <= i < |items| ensures items[i] == t.items[i] {
        assert ChildAt(s, i) == ChildAt(t, i);
      }
    case Object(members) =>
      forall i | 0 <= i < |members| ensures members[i] == t.members[i] {
        assert ChildAt(s, i) == ChildAt(t, i);
        assert n.kids[i].key == Some(members[i].key) == Some(t.members[i].key);
      }
    case _ =>
  }

  /** So a node that is compared with itself deserves to be found equal. */
  lemma SameNodeIsEqual(n: Node, s: Json, t: Json)
    requires IsTree(n, s) && IsTree(n, t) && Comparable(n, s, n, t)
    ensures Compare(s, t)
  {
    hide Compare, Coherent, Printable;
    TreeIsUnique(n, s, t);
    OwnNode(n, s);
    CompareIsPartialEquivalence(s, s, s);
  }

  /** cJSON_Compare */
  method CompareNodes(a: Node?, b: Node?, ghost s: Json, ghost t: Json) returns (r: bool)
    requires a != null ==> IsTree(a, s)
    requires b != null ==> IsTree(b, t)
    requires a != null && b != null ==> Comparable(a, s, b, t)
    ensures r <==> a != null && b != null && Compare(s, t)
    decreases Weight(s) + Weight(t), 2
  {
    hide IsTree, Covers, Sound;
    if a == null || b == null {
      return false;
    }
    OwnKind(a, s);
    OwnKind(b, t);
    if a.kind != b.kind {
      return false;
    }
    if a == b {
      SameNodeIsEqual(a, s, t);
      return true;
    }
    match a.kind
    case NumberKind =>
      r := CompareDouble(a.valuedouble, b.valuedouble);
    case StringKind =>
      r := a.valuestring.Some? && b.valuestring.Some? && a.valuestring.value == b.valuestring.value;
    case ArrayKind =>
      r := CompareElements(a, b, s, t);
    case ObjectKind =>
      r := CompareMembers(a, b, s, t);
      if r {
        r := CompareMembers(b, a, t, s);
      }
    case _ =>
      r := true;
  }

  /** The loop over two arrays. */
  method CompareElements(a: Node, b: Node, ghost s: Json, ghost t: Json) returns (r: bool)
    requires s.Array? && t.Array? && IsTree(a, s) && IsTree(b, t) && Comparable(a, s, b, t)
    ensures r <==> Compare(s, t)
    decreases Weight(s) + Weight(t), 1
  {
    hide IsTree, Comparable;
    FirstChild(a, s);
    FirstChild(b, t);
    var x, y := a.child, b.child;
    ghost var i := 0;
    while x != null && y != null
      invariant 0 <= i <= |s.items| && i <= |t.items|
      invariant x == if i < |s.items| then a.kids[i] else null
      invariant y == if i < |t.items| then b.kids[i] else null
      invariant forall j :: 0 <= j < i ==> Compare(ItemAt(s.items, j), ItemAt(t.items, j))
      decreases |s.items| - i
    {
      ChildOfTree(a, s, i);
      ChildOfTree(b, t, i);
      ChildrenComparable(a, s, b, t, i, i);
      ghost var u, v := ItemAt(s.items, i), ItemAt(t.items, i);
      var same := CompareNodes(x, y, u, v);
      if !same {
        return false;
      }
      x, y := x.next, y.next;
      i := i + 1;
    }
    r := x == y;
    if |s.items| != |t.items| {
      assert x == null || y == null;
      assert x != y;
    }
  }

  /** One turn of the loop over objects: whether the member `x` of `a` has its like in `b`. */
  method CompareMember(a: Node, x: Node, b: Node, ghost s: Json, ghost t: Json, ghost i: nat) returns (r: bool)
    requires s.Object? && t.Object? && IsTree(a, s) && IsTree(b, t) && Comparable(a, s, b, t)
    requires i < |s.members| && |a.kids| == |s.members| && x == a.kids[i]
    ensures r <==> var f := Find(t.members, s.members[i].key);
                   f.Some? && Compare(ValueAt(s.members, i), ValueAt(t.members, f.value))
    decreases Weight(s) + Weight(t), 0
  {
    hide IsTree, Linked, AreTrees, Compare, Find, Comparable;
    ChildOfTree(a, s, i);
    var y := GetObjectItem(b, x.key, t);
    if y == null {
      return false;
    }
    ghost var f := Find(t.members, s.members[i].key).value;
    ChildOfTree(b, t, f);
    ChildrenComparable(a, s, b, t, i, f);
    r := CompareNodes(x, y, ValueAt(s.members, i), ValueAt(t.members, f));
  }

  /** One of the two loops over objects. */
  method CompareMembers(a: Node, b: Node, ghost s: Json, ghost t: Json) returns (r: bool)
    requires s.Object? && t.Object? && IsTree(a, s) && IsTree(b, t) && Comparable(a, s, b, t)
    ensures r <==> Covers(s.members, t.members)
    decreases Weight(s) + Weight(t), 1
  {
    hide IsTree, Linked, AreTrees, Compare, Find, Comparable;
    FirstChild(a, s);
    FirstChild(b, t);
    var x := a.child;
    ghost var i := 0;
    while x != null
      invariant 0 <= i <= |s.members|
      invariant x == if i < |s.members| then a.kids[i] else null
      invariant forall j :: 0 <= j < i ==>
                  var f := Find(t.members, s.members[j].key);
                  f.Some? && Compare(ValueAt(s.members, j), ValueAt(t.members, f.value))
      decreases |s.members| - i
    {
      ChildOfTree(a, s, i);
      var same := CompareMember(a, x, b, s, t, i);
      if !same {
        return false;
      }
      x := x.next;
      i := i + 1;
    }
    r := true;
  }

  function Children(t: Json): (items: seq<Json>)
    ensures |items| == Size(t) && forall i :: 0 <= i < |items| ==> items[i] == ChildAt(t, i)
  {
    match t
    case Array(items) => items
    case Object(members) => Values(members)
    case _ => []
  }

  /** What a copy without recursion holds. */
  function Shallow(t: Json): (r: Json)
    ensures !t.Array? && !t.Object? ==> r == t
    ensures t.Array? ==> r == Array([])
    ensures t.Object? ==> r == Object([])
  {
    match t
    case Array(items) => Array([])
    case Object(members) => Object([])
    case _ => t
  }

  /** cJSON_Duplicate: a new tree that is the same value and shares no node. */
  method Duplicate(item: Node?, recurse: bool, ghost t: Json) returns (copy: Node?)
    requires item != null ==> IsTree(item, t)
    ensures copy == null <==> item == null
    ensures copy != null ==> IsTree(copy, if recurse then t else Shallow(t)) && fresh(copy.repr)
    ensures copy != null ==> copy.key == item.key && copy.next == null
    decreases t, 1
  {
    if item == null {
      return null;
    }
    hide IsTree, AreTrees, Linked, Disjoint, KindFits;
    copy := CopyFields(item);
    if !recurse {
      ShallowTree(item, copy, t);
      return;
    }
    DuplicateChildren(item, copy, t);
    assert fresh(copy.repr);
  }

  /** A new node with what a node holds besides its children. */
  method CopyFields(item: Node) returns (copy: Node)
    ensures fresh(copy) && copy.IsNew() && copy.repr == {copy} && copy.next == null
    ensures copy.kind == item.kind && copy.valuedouble == item.valuedouble
    ensures copy.valuestring == item.valuestring && copy.key == item.key
  {
    copy := new Node();
    copy.kind := item.kind;
    copy.valuedouble := item.valuedouble;
    copy.valuestring := item.valuestring;
    copy.key := item.key;
  }

  lemma ShallowTree(item: Node, copy: Node, t: Json)
    requires IsTree(item, t) && copy.IsNew()
    requires copy.kind == item.kind && copy.valuedouble == item.valuedouble && copy.valuestring == item.valuestring
    ensures IsTree(copy, Shallow(t))
  {
    hide IsTree;
    OwnKind(item, t);
    NewTree(copy, Shallow(t));
  }

  /** The loop of cJSON_Duplicate over the children. */
  method DuplicateChildren(item: Node, copy: Node, ghost t: Json)
    requires IsTree(item, t) && copy !in item.repr && copy.IsNew()
    requires copy.kind == item.kind && copy.valuedouble == item.valuedouble && copy.valuestring == item.valuestring
    modifies copy`child, copy`kids, copy`repr
    ensures IsTree(copy, t) && fresh(copy.repr - {copy})
    decreases t, 0
  {
    hide IsTree, AreTrees, Linked, IsChain, Children;
    var head: Node?, current: Node? := null, null;
    ghost var kids: seq<Node>, below: set<Node>, nodes: set<Node> := [], {}, {};
    ghost var i := 0;
    NoTrees();
    FirstChild(item, t);
    var child := item.child;
    while child != null
      invariant 0 <= i <= Size(t)
      invariant child == if i < Size(t) then item.kids[i] else null
      invariant AreTrees(kids, Children(t)[..i], below) && fresh(below)
      invariant fresh(nodes) && nodes == Elements(kids)
      invariant IsChain(head, current, kids)
      invariant |kids| == i && forall j :: 0 <= j < i ==> kids[j].key == item.kids[j].key
      decreases Size(t) - i
    {
      ChildOfTree(item, t, i);
      ghost var before := kids;
      head, current, kids, below := DuplicateChild(child, ChildAt(t, i), head, current, kids, Children(t)[..i], below, nodes);
      nodes := nodes + {current};
      assert Children(t)[..i + 1] == Children(t)[..i] + [ChildAt(t, i)];
      child := child.next;
      i := i + 1;
    }
    assert Children(t)[..i] == Children(t);
    OwnKind(item, t);
    assert copy !in nodes && copy !in below;
    AdoptChain(copy, head, current, kids, Children(t), below, t);
  }

  /** One turn of that loop: copies a child and attaches the copy. */
  method DuplicateChild(child: Node, ghost u: Json, head: Node?, current: Node?,
      ghost kids: seq<Node>, ghost items: seq<Json>, ghost below: set<Node>, ghost nodes: set<Node>)
    returns (first: Node?, newchild: Node?, ghost kids': seq<Node>, ghost below': set<Node>)
    requires IsTree(child, u) && IsChain(head, current, kids)
    requires AreTrees(kids, items, below) && nodes == Elements(kids)
    modifies nodes`next
    ensures newchild != null && newchild.key == child.key && fresh(newchild)
    ensures kids' == kids + [newchild] && IsChain(first, newchild, kids')
    ensures AreTrees(kids', items + [u], below') && fresh(below' - below)
    decreases u, 2
  {
    hide IsTree, Linked;
    newchild := Duplicate(child, true, u);
    OwnNode(newchild, u);
    first := AddToChain(head, current, newchild, kids, nodes);
    AppendTree(kids, items, below, newchild, u);
    kids', below' := kids + [newchild], below + (newchild.repr - {newchild});
  }
}
