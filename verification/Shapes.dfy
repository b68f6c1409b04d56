/** Trees of nodes.

    A `Shape` says which nodes make up a tree; `Built` says that the heap holds it, and
    `TreeOf` which document it stands for. */
module Shapes {
  import opened Items
  import opened Json

  datatype Shape = Shape(node: Item, kids: seq<Shape>)

  ghost function Nodes(s: Shape): set<Item>
    decreases s, 1
  {
    {s.node} + NodesOf(s.kids)
  }

  ghost function NodesOf(kids: seq<Shape>): set<Item>
    decreases kids, 0
  {
    if kids == [] then {} else NodesOf(kids[..|kids| - 1]) + Nodes(kids[|kids| - 1])
  }

  ghost function Roots(kids: seq<Shape>): (r: seq<Item>)
    ensures |r| == |kids| && forall i :: 0 <= i < |r| ==> r[i] == kids[i].node
  {
    seq(|kids|, i requires 0 <= i < |kids| => kids[i].node)
  }

  lemma {:induction false} NodesOfKid(kids: seq<Shape>, i: nat)
    requires i < |kids|
    ensures Nodes(kids[i]) <= NodesOf(kids) && kids[i].node in NodesOf(kids)
  {
    if i < |kids| - 1 { NodesOfKid(kids[..|kids| - 1], i); }
  }

  lemma {:induction false} RootsAreNodes(kids: seq<Shape>)
    ensures forall n :: n in Roots(kids) ==> n in NodesOf(kids)
  {
    forall i | 0 <= i < |kids|
      ensures Roots(kids)[i] in NodesOf(kids)
    {
      NodesOfKid(kids, i);
    }
  }

  /** The heap holds the tree: sibling lists are circular and no node occurs twice. */
  ghost predicate Built(s: Shape)
    reads Nodes(s)
    decreases s, 1
  {
    RootsAreNodes(s.kids);
    s.node.child == First(Roots(s.kids)) && Circular(Roots(s.kids)) &&
    s.node !in NodesOf(s.kids) && AllBuilt(s.kids)
  }

  ghost predicate AllBuilt(kids: seq<Shape>)
    reads NodesOf(kids)
    decreases kids, 0
  {
    kids == [] ||
    (var front, last := kids[..|kids| - 1], kids[|kids| - 1];
     AllBuilt(front) && Built(last) && NodesOf(front) !! Nodes(last))
  }

  /** Edges on the longest way down. */
  ghost function Depth(s: Shape): nat
    decreases s, 1
  {
    DepthOf(s.kids)
  }

  ghost function DepthOf(kids: seq<Shape>): nat
    decreases kids, 0
  {
    if kids == [] then 0
    else
      var a, b := DepthOf(kids[..|kids| - 1]), 1 + Depth(kids[|kids| - 1]);
      if a < b then b else a
  }

  /** The same keys, contents and structure. */
  ghost predicate Same(s: Shape, t: Shape)
    decreases s, 1
  {
    s.node.key == t.node.key && s.node.content == t.node.content && AllSame(s.kids, t.kids)
  }

  ghost predicate AllSame(a: seq<Shape>, b: seq<Shape>)
    decreases a, 0
  {
    |a| == |b| &&
    (a == [] || (AllSame(a[..|a| - 1], b[..|b| - 1]) && Same(a[|a| - 1], b[|b| - 1])))
  }

  lemma {:induction false} BuiltKid(kids: seq<Shape>, i: nat)
    requires AllBuilt(kids) && i < |kids|
    ensures Built(kids[i])
  {
    if i < |kids| - 1 { BuiltKid(kids[..|kids| - 1], i); }
  }

  /** What a tree says about the nodes below its root. */
  ghost predicate BuiltBelow(child: Item?, kids: seq<Shape>)
    reads NodesOf(kids)
  {
    RootsAreNodes(kids);
    child == First(Roots(kids)) && Circular(Roots(kids)) && AllBuilt(kids)
  }

  lemma {:induction false} BuiltParts(s: Shape)
    ensures Built(s) <==> s.node !in NodesOf(s.kids) && BuiltBelow(s.node.child, s.kids)
  {
  }

  /** What a reader that goes down by `child` and along by `next` relies on. Nothing is said
      about `prev`, so a tree whose lists have been sorted is still linked. */
  ghost predicate Linked(s: Shape)
    reads Nodes(s)
    decreases s, 1
  {
    RootsAreNodes(s.kids);
    s.node.child == First(Roots(s.kids)) && s.node !in NodesOf(s.kids) && Forward(Roots(s.kids)) && AllLinked(s.kids)
  }

  ghost predicate AllLinked(kids: seq<Shape>)
    reads NodesOf(kids)
    decreases kids, 0
  {
    kids == [] ||
    (var front, last := kids[..|kids| - 1], kids[|kids| - 1];
     AllLinked(front) && Linked(last))
  }

  lemma {:induction false} LinkedKid(kids: seq<Shape>, i: nat)
    requires AllLinked(kids) && i < |kids|
    ensures Linked(kids[i])
  {
    if i < |kids| - 1 { LinkedKid(kids[..|kids| - 1], i); }
  }

  lemma {:induction false} BuiltIsLinked(s: Shape)
    requires Built(s)
    ensures Linked(s)
    decreases s, 1
  {
    AllBuiltIsLinked(s.kids);
  }

  lemma {:induction false} AllBuiltIsLinked(kids: seq<Shape>)
    requires AllBuilt(kids)
    ensures AllLinked(kids)
    decreases kids, 0
  {
    if kids != [] {
      AllBuiltIsLinked(kids[..|kids| - 1]);
      BuiltIsLinked(kids[|kids| - 1]);
    }
  }

  /** Puts a new root behind the last one; the trees below stay as they are. */
  method LinkSibling(tail: Item?, item: Item, ghost ts: seq<Shape>, ghost t: Shape)
    requires AllBuilt(ts) && Built(t) && NodesOf(ts) !! Nodes(t) && item == t.node
    requires tail == if ts == [] then null else ts[|ts| - 1].node
    modifies if ts == [] then {} else {ts[|ts| - 1].node, item}
    ensures AllBuilt(ts + [t])
    ensures ts != [] ==>
              tail.next == item && item.prev == tail && item.next == old(item.next) && tail.prev == old(tail.prev)
    ensures ts == [] ==> item.next == old(item.next)
  {
    assert (ts + [t])[..|ts|] == ts;
    if tail != null {
      ghost var front, last := ts[..|ts| - 1], ts[|ts| - 1];
      NodesOfKid(ts, |ts| - 1);
      BuiltParts(last);
      BuiltParts(t);
      assert AllBuilt(front) && BuiltBelow(last.node.child, last.kids) && BuiltBelow(t.node.child, t.kids);
      tail.next := item;
      item.prev := tail;
      assert AllBuilt(front);
      assert BuiltBelow(last.node.child, last.kids);
      assert BuiltBelow(t.node.child, t.kids);
      BuiltParts(last);
      BuiltParts(t);
    }
  }

  lemma {:induction false} RootsMore(ts: seq<Shape>, c: Shape)
    requires NodesOf(ts) !! Nodes(c)
    ensures Roots(ts + [c]) == Roots(ts) + [c.node] && NodesOf(ts + [c]) == NodesOf(ts) + Nodes(c)
    ensures NoRepeats(Roots(ts)) ==> NoRepeats(Roots(ts + [c]))
  {
    assert (ts + [c])[..|ts|] == ts;
    RootsAreNodes(ts);
    assert forall i :: 0 <= i < |ts| ==> Roots(ts)[i] in Roots(ts);
  }

  // ----- sibling lists under construction

  /** The trees are strung together in order; the head's `prev` is not set yet. */
  ghost predicate Strung(ts: seq<Shape>)
    reads NodesOf(ts)
  {
    RootsAreNodes(ts);
    AllBuilt(ts) && Chain(Roots(ts))
  }

  ghost function FirstRoot(ts: seq<Shape>): Item? { if ts == [] then null else ts[0].node }

  ghost function LastRoot(ts: seq<Shape>): Item? { if ts == [] then null else ts[|ts| - 1].node }

  /** Puts one more finished tree behind the last one. */
  method Hang(tail: Item?, item: Item, ghost ts: seq<Shape>, ghost t: Shape)
    requires Strung(ts) && Built(t) && item == t.node && item.next == null
    requires NodesOf(ts) !! Nodes(t) && tail == LastRoot(ts)
    modifies if ts == [] then {} else {ts[|ts| - 1].node, item}
    ensures Strung(ts + [t]) && NodesOf(ts + [t]) == NodesOf(ts) + Nodes(t)
  {
    RootsMore(ts, t);
    if tail != null { NodesOfKid(ts, |ts| - 1); }
    ghost var rs, ns := Roots(ts), Roots(ts + [t]);
    LinkSibling(tail, item, ts, t);
    assert forall i :: 0 <= i < |rs| ==> ns[i] == rs[i];
    assert Forward(ns);
    assert Backward(ns);
  }

  /** Sets the head's `prev` to the tail, which completes the circular list. */
  method Close(head: Item, tail: Item, ghost ts: seq<Shape>)
    requires ts != [] && Strung(ts) && head == ts[0].node && tail == ts[|ts| - 1].node
    requires allocated(NodesOf(ts))
    modifies head
    ensures AllBuilt(ts) && Circular(Roots(ts))
    ensures head.child == old(head.child) && head.next == old(head.next)
  {
    NodesOfKid(ts, 0);
    RootsAreNodes(ts);
    head.prev := tail;
    HeadRelinked(ts);
  }

  twostate lemma {:induction false} HeadRelinked(ts: seq<Shape>)
    requires old(allocated(NodesOf(ts))) && ts != [] && old(AllBuilt(ts))
    requires ts[0].node.child == old(ts[0].node.child)
    requires forall n :: n in NodesOf(ts) && n != ts[0].node ==> unchanged(n)
    ensures AllBuilt(ts)
  {
    var front, last := ts[..|ts| - 1], ts[|ts| - 1];
    if |ts| > 1 {
      NodesOfKid(front, 0);
      HeadRelinked(front);
      assert Built(last);
    } else {
      BuiltParts(last);
      RootsAreNodes(last.kids);
    }
  }

  // ----- the document a tree stands for

  ghost function TreeOf(s: Shape): JSON
    decreases s, 1
  {
    match s.node.content
    case IsNull => Null
    case IsFalse => False
    case IsTrue => True
    case IsNumber(n) => Number(n)
    case IsString(x) => Str(x)
    case IsArray => Array(TreesOf(s.kids))
    case IsObject => Object(MembersOf(s.kids))
  }

  ghost function TreesOf(ts: seq<Shape>): seq<JSON>
    decreases ts, 0
  {
    if ts == [] then [] else TreesOf(ts[..|ts| - 1]) + [TreeOf(ts[|ts| - 1])]
  }

  ghost function MembersOf(ts: seq<Shape>): seq<Member>
    decreases ts, 0
  {
    if ts == [] then []
    else MembersOf(ts[..|ts| - 1]) + [Member(ts[|ts| - 1].node.key, TreeOf(ts[|ts| - 1]))]
  }

  /** Only arrays and objects have children. */
  ghost predicate Typed(s: Shape)
    decreases s, 1
  {
    (s.kids == [] || s.node.content == IsArray || s.node.content == IsObject) && AllTyped(s.kids)
  }

  ghost predicate AllTyped(ts: seq<Shape>)
    decreases ts, 0
  {
    ts == [] || (AllTyped(ts[..|ts| - 1]) && Typed(ts[|ts| - 1]))
  }

  lemma {:induction false} TypedMore(ts: seq<Shape>, t: Shape)
    ensures AllTyped(ts + [t]) <==> AllTyped(ts) && Typed(t)
  {
    assert (ts + [t])[..|ts|] == ts;
  }

  /** A copy is typed when the original is. */
  lemma {:induction false} SameTyped(s: Shape, t: Shape)
    requires Same(s, t) && Typed(s)
    ensures Typed(t)
    decreases s, 1
  {
    AllSameTyped(s.kids, t.kids);
  }

  lemma {:induction false} AllSameTyped(a: seq<Shape>, b: seq<Shape>)
    requires AllSame(a, b) && AllTyped(a)
    ensures AllTyped(b)
    decreases a, 0
  {
    if a != [] {
      AllSameTyped(a[..|a| - 1], b[..|b| - 1]);
      SameTyped(a[|a| - 1], b[|b| - 1]);
    }
  }

  lemma {:induction false} TreesMore(ts: seq<Shape>, t: Shape)
    ensures TreesOf(ts + [t]) == TreesOf(ts) + [TreeOf(t)]
    ensures MembersOf(ts + [t]) == MembersOf(ts) + [Member(t.node.key, TreeOf(t))]
  {
    assert (ts + [t])[..|ts|] == ts;
  }

  /** A copy stands for the same document. */
  lemma {:induction false} SameTree(s: Shape, t: Shape)
    requires Same(s, t)
    ensures TreeOf(s) == TreeOf(t)
    decreases s, 1
  {
    AllSameTrees(s.kids, t.kids);
  }

  lemma {:induction false} AllSameTrees(a: seq<Shape>, b: seq<Shape>)
    requires AllSame(a, b)
    ensures TreesOf(a) == TreesOf(b) && MembersOf(a) == MembersOf(b)
    decreases a, 0
  {
    if a != [] {
      AllSameTrees(a[..|a| - 1], b[..|b| - 1]);
      SameTree(a[|a| - 1], b[|b| - 1]);
    }
  }
}
