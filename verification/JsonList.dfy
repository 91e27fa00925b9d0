/** The operations that change a child list in place, as operations on the sequence it stands for. */
module JsonList {
  import opened JsonNode

  function RemoveAt<T>(s: seq<T>, k: nat): (r: seq<T>)
    requires k < |s|
  {
    s[..k] + s[k + 1..]
  }

  function InsertAt<T>(s: seq<T>, k: nat, x: T): (r: seq<T>) {
    if k < |s| then s[..k] + [x] + s[k..] else s + [x]
  }

  /** Detaching an item and inserting it where it was gives the list back. */
  lemma InsertUndoesRemove<T>(s: seq<T>, k: nat)
    requires k < |s|
    ensures InsertAt(RemoveAt(s, k), k, s[k]) == s
  {}

  ghost function Opt(n: Node?): (r: set<Node>) {
    if n == null then {} else {n}
  }

  /** get_array_item */
  method GetArrayItem(parent: Node?, index: nat, ghost kids: seq<Node>) returns (item: Node?)
    requires parent != null ==> IsList(parent.child, kids)
    ensures item == if parent != null && index < |kids| then kids[index] else null
  {
    if parent == null {
      return null;
    }
    item := parent.child;
    var i := index;
    ghost var at := 0;
    while item != null && i > 0
      invariant 0 <= i && 0 <= at <= |kids| && at + i == index
      invariant item == if at < |kids| then kids[at] else null
      decreases i
    {
      i := i - 1;
      item := item.next;
      at := at + 1;
    }
  }

  /**
   * add_item_to_array: the item becomes the last one. The list stays null-ended exactly when
   * the item came without a successor or the list was empty, for only then is its `next` set.
   */
  method AddItemToArray(parent: Node?, item: Node?, ghost kids: seq<Node>) returns (ok: bool)
    requires parent != null ==> IsList(parent.child, kids)
    requires item == null || item !in kids
    modifies Opt(parent)`child, Opt(item)`next, Opt(item)`prev, Elements(kids)`next, Elements(kids)`prev
    ensures ok <==> parent != null && item != null && parent != item
    ensures ok ==> (IsList(parent.child, kids + [item]) <==> kids == [] || old(item.next) == null)
  {
    if item == null || parent == null || parent == item {
      return false;
    }
    var child := parent.child;
    if child == null {
      parent.child := item;
      item.prev := item;
      item.next := null;
    } else if child.prev != null {
      ghost var tail := |kids| - 1;
      assert child in Elements(kids) && child.prev == kids[tail] && kids[tail] in Elements(kids);
      child.prev.next := item;
      item.prev := child.prev;
      parent.child.prev := item;
      assert (kids + [item])[tail + 1] == item;
    }
    ok := true;
  }

  /** The links around a gap left at `k`. */
  lemma ListWithout(head: Node?, kids: seq<Node>, k: nat)
    requires k < |kids| && Distinct(kids)
    requires forall i {:trigger kids[i].next} :: 0 <= i < |kids| && i != k ==>
               kids[i].next == var j := if i + 1 == k then k + 1 else i + 1; if j < |kids| then kids[j] else null
    requires forall i {:trigger kids[i].prev} :: 0 < i < |kids| && i != k && (i > 1 || k > 0) ==>
               kids[i].prev == kids[if i - 1 == k then k - 1 else i - 1]
    requires head == if k > 0 then kids[0] else if |kids| > 1 then kids[1] else null
    requires head != null ==> head.prev == kids[if k == |kids| - 1 then k - 1 else |kids| - 1]
    ensures IsList(head, RemoveAt(kids, k))
  {
    var rest := RemoveAt(kids, k);
    assert forall i :: 0 <= i < |rest| ==> rest[i] == kids[if i < k then i else i + 1];
  }

  /** The links around an item put in at `k`. */
  lemma ListWith(head: Node?, kids: seq<Node>, k: nat, x: Node)
    requires k < |kids| && Distinct(kids) && x !in kids
    requires forall i {:trigger kids[i].next} :: 0 <= i < |kids| ==>
               kids[i].next == if i + 1 == k then x else if i + 1 < |kids| then kids[i + 1] else null
    requires forall i {:trigger kids[i].prev} :: 0 < i < |kids| ==>
               kids[i].prev == if i == k then x else kids[i - 1]
    requires x.next == kids[k] && x.prev == kids[if k > 0 then k - 1 else |kids| - 1]
    requires head == if k > 0 then kids[0] else x
    requires head.prev == kids[|kids| - 1]
    requires k == 0 ==> kids[0].prev == x
    ensures IsList(head, InsertAt(kids, k, x))
  {
    var all := InsertAt(kids, k, x);
    assert forall i :: 0 <= i < |all| ==> all[i] == if i < k then kids[i] else if i == k then x else kids[i - 1];
  }

  /** cJSON_DetachItemViaPointer */
  method DetachItemViaPointer(parent: Node?, item: Node?, ghost kids: seq<Node>, ghost k: nat) returns (detached: Node?)
    requires parent != null ==> IsList(parent.child, kids)
    requires parent != null && item != null ==> k < |kids| && kids[k] == item
    modifies Opt(parent)`child, Opt(item)`next, Opt(item)`prev, Elements(kids)`next, Elements(kids)`prev
    ensures detached == if parent == null then null else item
    ensures detached != null ==> IsList(parent.child, RemoveAt(kids, k)) && item.next == null && item.prev == null
  {
    if parent == null || item == null {
      return null;
    }
    assert forall i :: 0 <= i < |kids| ==> kids[i] in Elements(kids);
    if item != parent.child {
      assert k > 0;
      item.prev.next := item.next;
    }
    if item.next != null {
      item.next.prev := item.prev;
    }
    if item == parent.child {
      parent.child := item.next;
    } else if item.next == null {
      parent.child.prev := item.prev;
    }
    item.prev := null;
    item.next := null;
    ListWithout(parent.child, kids, k);
    return item;
  }

  /** cJSON_InsertItemInArray: in front of the item at `which`, or behind the last one. */
  method InsertItemInArray(parent: Node?, which: int, newitem: Node?, ghost kids: seq<Node>) returns (ok: bool)
    requires parent != null ==> IsList(parent.child, kids)
    requires newitem == null || newitem !in kids
    modifies Opt(parent)`child, Opt(newitem)`next, Opt(newitem)`prev, Elements(kids)`next, Elements(kids)`prev
    ensures ok <==> which >= 0 && newitem != null && parent != null && (which >= |kids| ==> parent != newitem)
    ensures ok && (which < |kids| || kids == [] || old(newitem.next) == null) ==>
              IsList(parent.child, InsertAt(kids, which, newitem))
  {
    if which < 0 || newitem == null {
      return false;
    }
    var after := GetArrayItem(parent, which, kids);
    if after == null {
      ok := AddItemToArray(parent, newitem, kids);
      return;
    }
    assert forall i :: 0 <= i < |kids| ==> kids[i] in Elements(kids);
    if after != parent.child && after.prev == null {
      return false;
    }
    newitem.next := after;
    newitem.prev := after.prev;
    after.prev := newitem;
    if after == parent.child {
      parent.child := newitem;
    } else {
      newitem.prev.next := newitem;
    }
    ListWith(parent.child, kids, which, newitem);
    ok := true;
  }

  /** The links when `x` takes the place at `k`. */
  lemma ListReplaced(head: Node?, kids: seq<Node>, k: nat, x: Node)
    requires k < |kids| && Distinct(kids) && x !in kids
    requires forall i {:trigger kids[i].next} :: 0 <= i < |kids| && i != k ==>
               kids[i].next == if i + 1 == k then x else if i + 1 < |kids| then kids[i + 1] else null
    requires forall i {:trigger kids[i].prev} :: 0 < i < |kids| && i != k ==>
               kids[i].prev == if i - 1 == k then x else kids[i - 1]
    requires x.next == if k + 1 < |kids| then kids[k + 1] else null
    requires x.prev == if k > 0 then kids[k - 1] else if |kids| == 1 then x else kids[|kids| - 1]
    requires head == if k > 0 then kids[0] else x
    requires k > 0 ==> kids[0].prev == if k == |kids| - 1 then x else kids[|kids| - 1]
    ensures IsList(head, kids[k := x])
  {}

  /** cJSON_ReplaceItemViaPointer */
  method ReplaceItemViaPointer(parent: Node?, item: Node?, replacement: Node?,
      ghost kids: seq<Node>, ghost k: nat) returns (ok: bool)
    requires parent != null ==> IsList(parent.child, kids)
    requires parent != null && item != null ==> k < |kids| && kids[k] == item
    requires replacement == null || replacement == item || replacement !in kids
    modifies Opt(parent)`child, Opt(item)`next, Opt(item)`prev, Opt(replacement)`next, Opt(replacement)`prev
    modifies Elements(kids)`next, Elements(kids)`prev
    ensures ok <==> parent != null && item != null && replacement != null
    ensures ok ==> IsList(parent.child, kids[k := replacement])
    ensures ok && replacement != item ==> item.next == null && item.prev == null
  {
    if parent == null || parent.child == null || replacement == null || item == null {
      return false;
    }
    if replacement == item {
      return true;
    }
    ghost var n := |kids|;
    assert forall i :: 0 <= i < n ==> kids[i] in Elements(kids);
    replacement.next := item.next;
    replacement.prev := item.prev;
    if replacement.next != null {
      replacement.next.prev := replacement;
    }
    if parent.child == item {
      if parent.child.prev == parent.child {
        replacement.prev := replacement;
      }
      parent.child := replacement;
    } else {
      if replacement.prev != null {
        replacement.prev.next := replacement;
      }
      if replacement.next == null {
        parent.child.prev := replacement;
      }
    }
    item.next := null;
    item.prev := null;
    ListReplaced(parent.child, kids, k, replacement);
    ok := true;
  }
}
