/** The list operations, by relinking nodes. */
module ItemList {
  import opened Items
  import opened Members
  import opened Shapes
  import opened Sorting

  /** The children of a node are these, and their list is circular. */
  ghost predicate Kids(parent: Item, ns: seq<Item>)
    reads parent, ns
  {
    parent !in ns && parent.child == First(ns) && Circular(ns)
  }

  /** Every list of a built tree, a parsed or a duplicated one, is one the operations below
      may be used on. */
  lemma {:induction false} BuiltKids(s: Shape)
    requires Built(s)
    ensures Kids(s.node, Roots(s.kids))
    ensures forall i :: 0 <= i < |s.kids| ==> Built(s.kids[i])
  {
    RootsAreNodes(s.kids);
    forall i | 0 <= i < |s.kids|
      ensures Built(s.kids[i])
    {
      BuiltKid(s.kids, i);
    }
  }

  ghost predicate Detached(item: Item, parent: Item, ns: seq<Item>)
    reads item
  {
    item != parent && item !in ns && item.next == null
  }

  /** What appending makes of a list whose head's `prev` is node k, or NULL: the item goes
      behind node k, whatever came after it is lost, and with no `prev` nothing happens. */
  function Appended(ns: seq<Item>, k: int, item: Item): seq<Item> {
    if ns == [] then [item]
    else if 0 <= k < |ns| then ns[..k + 1] + [item]
    else ns
  }

  /** add_item_to_array. On a circular list k is the last position and the item is
      appended; after sort_list it may be any position, or none (-1). */
  method AddItemToArray(parent: Item?, item: Item?, ghost ns: seq<Item>, ghost k: int) returns (ok: bool)
    requires parent != null && item != null && parent != item ==>
               parent !in ns && Detached(item, parent, ns) && parent.child == First(ns) && Chain(ns) &&
               (ns != [] ==> if 0 <= k < |ns| then ns[0].prev == ns[k] else k == -1 && ns[0].prev == null)
    modifies if parent == null || item == null || parent == item then {}
             else if ns == [] then {parent, item}
             else if 0 <= k < |ns| then {ns[0], ns[k], item} else {}
    ensures ok <==> parent != null && item != null && parent != item
    ensures ok ==> parent.child == First(Appended(ns, k, item)) && Chain(Appended(ns, k, item))
    ensures ok && (ns == [] || k >= 0) ==> Kids(parent, Appended(ns, k, item))
  {
    if item == null || parent == null || parent == item {
      return false;
    }
    var child := parent.child;
    if child == null {
      parent.child := item;
      item.prev := item;
      item.next := null;
    } else if child.prev != null {
      ghost var r := Appended(ns, k, item);
      child.prev.next := item;
      item.prev := child.prev;
      parent.child.prev := item;
      assert forall i :: 0 <= i <= k ==> r[i] == ns[i];
      assert Forward(r) && Backward(r);
    }
    return true;
  }

  /** get_array_item. */
  method GetArrayItem(parent: Item, index: nat, ghost ns: seq<Item>) returns (item: Item?)
    requires parent.child == First(ns) && Forward(ns)
    ensures item == if index < |ns| then ns[index] else null
  {
    item := parent.child;
    var left: nat := index;
    ghost var i := 0;
    while item != null && left > 0
      invariant 0 <= i <= |ns| && item == if i < |ns| then ns[i] else null
      invariant left + i == index
      decreases left
    {
      assert ns[i].next == item.next;
      item := item.next;
      left := left - 1;
      i := i + 1;
    }
  }

  /** cJSON_DetachItemViaPointer. */
  method DetachItemViaPointer(parent: Item, item: Item, ghost ns: seq<Item>, ghost k: nat)
    requires Kids(parent, ns) && k < |ns| && item == ns[k]
    modifies parent, ns
    ensures Kids(parent, RemoveAt(ns, k)) && item.next == null && item.prev == null
  {
    ghost var r := RemoveAt(ns, k);
    if item != parent.child {
      item.prev.next := item.next;
    }
    if item.next != null {
      item.next.prev := item.prev;
    }
    if item == parent.child {
      parent.child := item.next;
    } else if item.next == null {
      parent.child.prev := item.prev;
    }
    item.prev := null;
    item.next := null;
    RemovedPlaces(ns, k);
    assert Forward(r);
    assert Backward(r);
  }

  lemma {:induction false} RemovedPlaces(ns: seq<Item>, k: nat)
    requires k < |ns| && NoRepeats(ns)
    ensures var r := RemoveAt(ns, k);
            |r| == |ns| - 1 && NoRepeats(r) && ns[k] !in r &&
            forall i :: 0 <= i < |r| ==> r[i] == if i < k then ns[i] else ns[i + 1]
  {
  }

  /** The linking that puts a new item before an existing one. */
  method InsertBefore(parent: Item, after: Item, item: Item, ghost ns: seq<Item>, ghost k: nat)
    requires Kids(parent, ns) && k < |ns| && after == ns[k] && Detached(item, parent, ns)
    modifies parent, ns, item
    ensures Kids(parent, InsertAt(ns, k, item))
  {
    ghost var r := InsertAt(ns, k, item);
    item.next := after;
    item.prev := after.prev;
    after.prev := item;
    if after == parent.child {
      parent.child := item;
    } else {
      item.prev.next := item;
    }
    InsertedPlaces(ns, k, item);
    assert Forward(r);
    assert Backward(r);
  }

  lemma {:induction false} InsertedPlaces(ns: seq<Item>, k: nat, item: Item)
    requires k < |ns| && NoRepeats(ns) && item !in ns
    ensures var r := InsertAt(ns, k, item);
            |r| == |ns| + 1 && NoRepeats(r) && item in r &&
            forall i :: 0 <= i < |r| ==> r[i] == if i < k then ns[i] else if i == k then item else ns[i - 1]
  {
    var r := InsertAt(ns, k, item);
    assert r[k] == item;
  }

  /** add_item_to_array behind the last child. */
  method Append(parent: Item, item: Item, ghost ns: seq<Item>)
    requires Kids(parent, ns) && Detached(item, parent, ns)
    modifies parent, ns, item
    ensures Kids(parent, InsertAt(ns, |ns|, item))
  {
    ghost var k := |ns| - 1;
    AppendedIs(ns, k, item);
    var ok := AddItemToArray(parent, item, ns, k);
  }

  lemma {:induction false} AppendedIs(ns: seq<Item>, k: int, item: Item)
    requires k == |ns| - 1
    ensures Appended(ns, k, item) == InsertAt(ns, |ns|, item)
  {
  }

  /** cJSON_InsertItemInArray appends when the position is past the end. */
  method InsertItemInArray(parent: Item, which: int, item: Item?, ghost ns: seq<Item>) returns (ok: bool)
    requires Kids(parent, ns) && (item != null ==> Detached(item, parent, ns))
    modifies parent, ns, if item == null then {} else {item}
    ensures ok <==> which >= 0 && item != null
    ensures ok ==> Kids(parent, InsertAt(ns, if which < |ns| then which else |ns|, item))
    ensures !ok ==> Kids(parent, ns)
  {
    if which < 0 || item == null {
      return false;
    }
    var after := GetArrayItem(parent, which, ns);
    if after == null {
      Append(parent, item, ns);
      return true;
    }
    InsertBefore(parent, after, item, ns, which);
    return true;
  }

  /** Its walk, which counts down to the position. */
  method GoTo(parent: Item, which: nat, ghost ns: seq<Item>) returns (child: Item?, left: nat)
    requires parent.child == First(ns) && Forward(ns)
    ensures child == if which < |ns| then ns[which] else null
    ensures left == if which < |ns| then 0 else which - |ns|
  {
    child, left := parent.child, which;
    ghost var i := 0;
    while child != null && left > 0
      invariant 0 <= i <= |ns| && child == if i < |ns| then ns[i] else null
      invariant left + i == which
      decreases left
    {
      assert ns[i].next == child.next;
      child, left, i := child.next, left - 1, i + 1;
    }
  }

  /** insert_item_in_array of the patch code refuses a position past the end. */
  method InsertItemOrFail(parent: Item, which: nat, item: Item, ghost ns: seq<Item>) returns (ok: bool)
    requires Kids(parent, ns) && Detached(item, parent, ns)
    modifies parent, ns, item
    ensures ok <==> which <= |ns|
    ensures if ok then Kids(parent, InsertAt(ns, which, item)) else Kids(parent, ns)
  {
    var child, left := GoTo(parent, which, ns);
    if left > 0 {
      return false;
    }
    if child == null {
      Append(parent, item, ns);
      return true;
    }
    InsertBefore(parent, child, item, ns, which);
    return true;
  }

  /** cJSON_ReplaceItemViaPointer, up to the deletion of the old item. */
  method ReplaceItemViaPointer(parent: Item, item: Item, replacement: Item, ghost ns: seq<Item>, ghost k: nat)
    requires Kids(parent, ns) && k < |ns| && item == ns[k]
    requires replacement == item || Detached(replacement, parent, ns)
    modifies parent, ns, replacement
    ensures Kids(parent, ns[k := replacement])
    ensures replacement != item ==> item.next == null && item.prev == null
  {
    ghost var r := ns[k := replacement];
    if replacement == item {
      assert r == ns;
      return;
    }
    replacement.next := item.next;
    replacement.prev := item.prev;
    if replacement.next != null {
      replacement.next.prev := replacement;
    }
    if parent.child == item {
      if parent.child.prev == parent.child {
        replacement.prev := replacement;
      }
      parent.child := replacement;
    } else {
      if replacement.prev != null {
        replacement.prev.next := replacement;
      }
      if replacement.next == null {
        parent.child.prev := replacement;
      }
    }
    item.next := null;
    item.prev := null;
    ReplacedPlaces(ns, k, replacement);
    assert Forward(r);
    assert Backward(r);
  }

  lemma {:induction false} ReplacedPlaces(ns: seq<Item>, k: nat, item: Item)
    requires k < |ns| && NoRepeats(ns) && item !in ns
    ensures var r := ns[k := item];
            NoRepeats(r) && ns[k] !in r && forall i :: 0 <= i < |r| ==> r[i] == if i == k then item else ns[i]
  {
  }

  // ----- sorting, then adding

  /** sort_object. */
  method SortObject(parent: Item?, ghost ns: seq<Item>, cs: bool)
    requires parent != null ==> Kids(parent, ns)
    modifies if parent == null then {} else {parent}, ns
    ensures parent != null ==>
              parent !in ns && parent.child == First(MergeSort(ns, cs)) && Chain(MergeSort(ns, cs))
    ensures parent != null && ns != [] ==>
              parent.child != null && parent.child.prev == if parent.child == ns[0] then ns[|ns| - 1] else null
  {
    if parent == null {
      return;
    }
    var sorted := SortList(parent.child, ns, cs);
    parent.child := sorted;
    SortedHead(ns, cs);
  }

  lemma {:induction false} SortedHead(ns: seq<Item>, cs: bool)
    requires NoRepeats(ns)
    ensures var rs := MergeSort(ns, cs);
            NoRepeats(rs) && |rs| == |ns| && Inside(rs, ns) && Inside(ns, rs)
  {
    MergeSortSorts(ns, cs);
    PermutationInside(ns, MergeSort(ns, cs));
    PermutationInside(MergeSort(ns, cs), ns);
  }

  /** The first and the last node kept their places. */
  ghost predicate SameEnds(ns: seq<Item>, rs: seq<Item>) {
    |ns| == |rs| && (ns != [] ==> rs[0] == ns[0] && rs[|rs| - 1] == ns[|ns| - 1])
  }

  lemma {:induction false} LinksOn(ns: seq<Item>, k: nat)
    requires k + 1 < |ns|
    ensures Forward(ns) ==> ns[k].next == ns[k + 1]
  {
  }

  /** Adding to a list whose head may have lost its way to the tail. */
  method AddAfterSort(parent: Item, item: Item, ghost ns: seq<Item>, ghost rs: seq<Item>)
    requires parent !in rs && parent.child == First(rs) && Chain(rs) && Detached(item, parent, rs)
    requires |rs| == |ns| && Inside(ns, rs)
    requires ns != [] ==> rs[0].prev == if rs[0] == ns[0] then ns[|ns| - 1] else null
    modifies parent, rs, item
    ensures parent.child == First(rs + [item]) && Chain(rs + [item]) <==> SameEnds(ns, rs)
  {
    ghost var k := -1;
    if ns != [] && rs[0] == ns[0] {
      k :| 0 <= k < |rs| && rs[k] == ns[|ns| - 1];
    }
    var ok := AddItemToArray(parent, item, rs, k);
    ghost var all := rs + [item];
    if ns != [] {
      if k == |rs| - 1 {
        assert Appended(rs, k, item) == all;
      } else if k >= 0 {
        assert Appended(rs, k, item)[k] == rs[k] && Appended(rs, k, item)[k + 1] == item;
        LinksOn(all, k);
      } else {
        LinksOn(all, |rs| - 1);
      }
    }
  }

  /** Adding to an object that has been sorted puts the item behind the sorted members
      exactly when sorting moved neither the first nor the last node. */
  method SortThenAdd(parent: Item, item: Item, ghost ns: seq<Item>, cs: bool)
    requires Kids(parent, ns) && Detached(item, parent, ns)
    modifies parent, ns, item
    ensures var rs := MergeSort(ns, cs);
            parent.child == First(rs + [item]) && Chain(rs + [item]) <==> SameEnds(ns, rs)
  {
    SortedHead(ns, cs);
    SortObject(parent, ns, cs);
    ghost var rs := MergeSort(ns, cs);
    AddAfterSort(parent, item, ns, rs);
  }
}
