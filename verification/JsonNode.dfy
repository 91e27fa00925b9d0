/**
 * cJSON nodes and their child lists. A list is doubly linked: `next` ends in null, and
 * `prev` of the first node is the last one.
 */
module JsonNode {
  import opened Bytes
  import opened JsonText

  datatype Kind = InvalidKind | NullKind | FalseKind | TrueKind | NumberKind | StringKind | ArrayKind | ObjectKind

  class Node {
    var kind: Kind
    var valuestring: Option<bytes>
    var valuedouble: real
    var key: Option<bytes>
    var next: Node?
    var prev: Node?
    var child: Node?
    ghost var kids: seq<Node>
    ghost var repr: set<Node>

    /** cJSON_New_Item: all fields zero. */
    constructor ()
      ensures IsNew() && next == null && prev == null && key == None
    {
      kind, valuestring, valuedouble, key := InvalidKind, None, 0.0, None;
      next, prev, child := null, null, null;
      kids, repr := [], {this};
    }

    ghost predicate IsNew()
      reads this`child, this`kids, this`repr
    {
      child == null && kids == [] && repr == {this}
    }
  }

  ghost predicate Distinct(kids: seq<Node>) {
    forall i, j :: 0 <= i < j < |kids| ==> kids[i] != kids[j]
  }

  /** The links of the nodes of a list, the `prev` of the first one aside. */
  ghost predicate Linked(kids: seq<Node>)
    reads kids`next, kids`prev
  {
    && Distinct(kids)
    && (forall i {:trigger kids[i].next} :: 0 <= i < |kids| - 1 ==> kids[i].next == kids[i + 1])
    && (forall i {:trigger kids[i].prev} :: 0 < i < |kids| ==> kids[i].prev == kids[i - 1])
    && (kids != [] ==> kids[|kids| - 1].next == null)
  }

  /** A list under construction: its first and its last node. */
  ghost predicate IsChain(head: Node?, current: Node?, kids: seq<Node>)
    reads kids`next, kids`prev
  {
    && Linked(kids)
    && (if kids == [] then head == null && current == null
        else head == kids[0] && current == kids[|kids| - 1])
  }

  /** Attaches a new node behind the last one, as the loops of parse_array and parse_object do. */
  method AddToChain(head: Node?, current: Node?, item: Node,
      ghost kids: seq<Node>, ghost nodes: set<Node>) returns (first: Node)
    requires IsChain(head, current, kids) && item !in kids && item.next == null
    requires current == null || current in nodes
    modifies item`prev, nodes`next
    ensures IsChain(first, item, kids + [item])
  {
    if head == null {
      first := item;
    } else {
      first := head;
      current.next := item;
      item.prev := current;
    }
  }

  /** `head` is the first node of the list `kids`. */
  ghost predicate IsList(head: Node?, kids: seq<Node>)
    reads kids`next, kids`prev
  {
    && Linked(kids)
    && (if kids == [] then head == null else head == kids[0] && kids[0].prev == kids[|kids| - 1])
  }

  /** The nodes `kids` own disjoint parts of `space`. */
  ghost predicate Disjoint(kids: seq<Node>, space: set<Node>)
    reads kids`repr
  {
    && (forall i :: 0 <= i < |kids| ==> kids[i] in kids[i].repr && kids[i].repr <= space)
    && (forall i, j :: 0 <= i < j < |kids| ==> kids[i].repr !! kids[j].repr)
  }

  function Size(t: Json): (r: nat) {
    match t
    case Array(items) => |items|
    case Object(members) => |members|
    case _ => 0
  }

  function ChildAt(t: Json, i: nat): (c: Json)
    requires i < Size(t)
    ensures c < t
  {
    if t.Array? then t.items[i] else t.members[i].value
  }

  /** What a node stores in its own fields for the value `t`. */
  ghost predicate KindFits(n: Node, t: Json)
    reads n`kind, n`valuestring, n`valuedouble
  {
    match t
    case Null => n.kind == NullKind
    case False => n.kind == FalseKind
    case True => n.kind == TrueKind
    case Number(d) => n.kind == NumberKind && n.valuedouble == d
    case String(s) => n.kind == StringKind && n.valuestring == Some(s)
    case Array(items) => n.kind == ArrayKind
    case Object(members) => n.kind == ObjectKind
  }

  ghost predicate HaveKeys(kids: seq<Node>, members: seq<Member>)
    reads kids`key
  {
    |kids| == |members| && forall i :: 0 <= i < |kids| ==> kids[i].key == Some(members[i].key)
  }

  /** The node `n`, with everything below it, is the tree `t`. */
  ghost predicate IsTree(n: Node, t: Json)
    reads n`kind, n`valuestring, n`valuedouble, n`child, n`kids, n`repr, n.repr - {n}
    decreases t
  {
    && n in n.repr
    && |n.kids| == Size(t)
    && (forall i :: 0 <= i < |n.kids| ==> n.kids[i] in n.repr - {n})
    && Disjoint(n.kids, n.repr - {n})
    && IsList(n.child, n.kids)
    && KindFits(n, t)
    && (t.Object? ==> HaveKeys(n.kids, t.members))
    && forall i :: 0 <= i < Size(t) ==> IsTree(n.kids[i], ChildAt(t, i))
  }

  /** The nodes `kids` are the trees `items`; what is under them lies in `below`, unshared. */
  ghost predicate AreTrees(kids: seq<Node>, items: seq<Json>, below: set<Node>)
    reads kids`kind, kids`valuestring, kids`valuedouble, kids`child, kids`kids, kids`repr, below
  {
    && |kids| == |items|
    && (forall i :: 0 <= i < |kids| ==> kids[i] !in below && kids[i].repr <= below + {kids[i]})
    && (forall i, j :: 0 <= i < j < |kids| ==> kids[i].repr !! kids[j].repr)
    && forall i :: 0 <= i < |kids| ==> IsTree(kids[i], items[i])
  }

  lemma NoTrees()
    ensures AreTrees([], [], {}) && IsChain(null, null, []) && Elements([]) == {} && HaveKeys([], [])
  {}

  /** One more tree that shares nothing with the others. */
  lemma AppendTree(kids: seq<Node>, items: seq<Json>, below: set<Node>, n: Node, t: Json)
    requires AreTrees(kids, items, below) && IsTree(n, t)
    requires n.repr !! below && forall k <- kids :: k !in n.repr
    ensures AreTrees(kids + [n], items + [t], below + (n.repr - {n}))
  {
    hide IsTree;
    OwnNode(n, t);
    var all, under := kids + [n], below + (n.repr - {n});
    forall i | 0 <= i < |all| ensures all[i] !in under && all[i].repr <= under + {all[i]} {
      if i < |kids| { assert kids[i] in kids; }
    }
    forall i, j | 0 <= i < j < |all| ensures all[i].repr !! all[j].repr {
      if j == |kids| {
        assert kids[i] in kids && kids[i].repr <= below + {kids[i]};
      }
    }
  }

  function Values(members: seq<Member>): (s: seq<Json>)
    ensures |s| == |members| && forall i :: 0 <= i < |s| ==> s[i] == members[i].value
  {
    if members == [] then [] else [members[0].value] + Values(members[1..])
  }

  ghost function Elements(kids: seq<Node>): (r: set<Node>) {
    set k | k in kids
  }

  lemma AppendMember(kids: seq<Node>, members: seq<Member>, below: set<Node>, n: Node, m: Member)
    requires AreTrees(kids, Values(members), below) && HaveKeys(kids, members)
    requires IsTree(n, m.value) && n.key == Some(m.key)
    requires n.repr !! below && forall k <- kids :: k !in n.repr
    ensures AreTrees(kids + [n], Values(members + [m]), below + (n.repr - {n}))
    ensures HaveKeys(kids + [n], members + [m])
  {
    hide IsTree, AreTrees;
    AppendTree(kids, Values(members), below, n, m.value);
    assert Values(members + [m]) == Values(members) + [m.value];
  }

  /** A node over a list of trees is a tree. */
  lemma ParentTree(n: Node, kids: seq<Node>, items: seq<Json>, below: set<Node>, t: Json)
    requires AreTrees(kids, items, below) && n !in below && n !in kids
    requires n.kids == kids && n.repr == {n} + below + Elements(kids) && IsList(n.child, kids)
    requires KindFits(n, t) && (t.Object? ==> HaveKeys(kids, t.members)) && Size(t) == |items|
    requires forall i :: 0 <= i < |items| ==> ChildAt(t, i) == items[i]
    ensures IsTree(n, t)
  {
    hide IsTree;
    forall i | 0 <= i < |kids| ensures kids[i] in n.repr - {n} { assert kids[i] in kids; }
    forall i | 0 <= i < |kids| ensures kids[i] in kids[i].repr && kids[i].repr <= n.repr - {n} {
      assert IsTree(kids[i], items[i]);
      OwnNode(kids[i], items[i]);
    }
    forall i | 0 <= i < Size(t) ensures IsTree(n.kids[i], ChildAt(t, i)) {
      assert IsTree(kids[i], items[i]);
    }
    ParentUnfold(n, t);
  }

  lemma OwnNode(n: Node, t: Json)
    requires IsTree(n, t)
    ensures n in n.repr
  {}

  lemma ParentUnfold(n: Node, t: Json)
    requires n in n.repr && |n.kids| == Size(t)
    requires forall i :: 0 <= i < |n.kids| ==> n.kids[i] in n.repr - {n}
    requires Disjoint(n.kids, n.repr - {n})
    requires IsList(n.child, n.kids) && KindFits(n, t) && (t.Object? ==> HaveKeys(n.kids, t.members))
    requires forall i :: 0 <= i < Size(t) ==> IsTree(n.kids[i], ChildAt(t, i))
    ensures IsTree(n, t)
  {}

  /** Allocates the node of the next child and attaches it; the trees already read stay as they are. */
  method AddNewNode(head: Node?, current: Node?,
      ghost kids: seq<Node>, ghost items: seq<Json>, ghost below: set<Node>, ghost nodes: set<Node>)
    returns (first: Node, node: Node)
    requires IsChain(head, current, kids) && AreTrees(kids, items, below) && nodes == Elements(kids)
    modifies nodes`next
    ensures fresh(node) && node.IsNew() && node !in kids && node !in below
    ensures IsChain(first, node, kids + [node]) && AreTrees(kids, items, below)
  {
    hide IsTree, Linked;
    node := new Node();
    first := AddToChain(head, current, node, kids, nodes);
  }

  /** The first node points back to the last one. */
  method CloseRing(head: Node?, current: Node?, ghost kids: seq<Node>, ghost items: seq<Json>, ghost below: set<Node>)
    requires IsChain(head, current, kids) && AreTrees(kids, items, below)
    modifies Elements(kids)`prev
    ensures IsList(head, kids) && AreTrees(kids, items, below)
  {
    hide IsTree;
    if head != null {
      assert head in Elements(kids);
      head.prev := current;
    }
  }

  /** The end of parse_array and parse_object: `item` takes over the chain. */
  method AdoptChain(item: Node, head: Node?, current: Node?,
      ghost kids: seq<Node>, ghost items: seq<Json>, ghost below: set<Node>, ghost t: Json)
    requires IsChain(head, current, kids) && AreTrees(kids, items, below)
    requires item !in Elements(kids) && item !in below
    requires Size(t) == |items| && forall i :: 0 <= i < |items| ==> ChildAt(t, i) == items[i]
    requires KindFits(item, t) && (t.Object? ==> HaveKeys(kids, t.members))
    modifies Elements(kids)`prev, item`child, item`kids, item`repr
    ensures IsTree(item, t) && item.repr == {item} + below + Elements(kids)
  {
    hide IsTree, AreTrees, Linked, IsChain, IsList;
    CloseRing(head, current, kids, items, below);
    item.child := head;
    item.kids, item.repr := kids, {item} + below + Elements(kids);
    ParentTree(item, kids, items, below, t);
  }

  /** What a walk along the child list of a tree meets. */
  lemma ChildOfTree(n: Node, t: Json, i: nat)
    requires IsTree(n, t) && i < Size(t)
    ensures |n.kids| == Size(t)
    ensures IsTree(n.kids[i], ChildAt(t, i))
    ensures n.kids[i].next == if i + 1 < Size(t) then n.kids[i + 1] else null
    ensures t.Object? ==> n.kids[i].key == Some(t.members[i].key)
  {}

  /** A new node of the right kind is a tree without children. */
  lemma NewTree(n: Node, t: Json)
    requires n.IsNew() && KindFits(n, t) && Size(t) == 0
    ensures IsTree(n, t)
  {}

  lemma OwnKind(n: Node, t: Json)
    requires IsTree(n, t)
    ensures KindFits(n, t) && (t.Object? ==> HaveKeys(n.kids, t.members))
  {}

  lemma FirstChild(n: Node, t: Json)
    requires IsTree(n, t)
    ensures |n.kids| == Size(t)
    ensures n.child == if Size(t) == 0 then null else n.kids[0]
  {}
}
