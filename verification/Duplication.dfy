/** cJSON_Duplicate: a deep copy built node by node, whatever the `prev` links of the
    original are; the copy's sibling lists are circular. */
module Duplication {
  import opened Items
  import opened Json
  import opened Parsing
  import opened Patch
  import opened Printing
  import opened Shapes
  import Parser

  /** The limit as the recursion meets it: a node with children must be shallow enough. */
  ghost predicate Fits(depth: nat, kids: seq<Shape>) {
    DepthOf(kids) == 0 || depth + DepthOf(kids) <= CIRCULAR_LIMIT
  }

  lemma {:induction false} FitsPrefix(depth: nat, kids: seq<Shape>, i: nat)
    requires i < |kids|
    ensures Fits(depth, kids[..i + 1]) <==>
              Fits(depth, kids[..i]) && depth < CIRCULAR_LIMIT && Fits(depth + 1, kids[i].kids)
  {
    var p := kids[..i + 1];
    assert p[..|p| - 1] == kids[..i] && p[|p| - 1] == kids[i];
    assert DepthOf(p) == if DepthOf(kids[..i]) < 1 + Depth(kids[i]) then 1 + Depth(kids[i]) else DepthOf(kids[..i]);
  }

  lemma {:induction false} FitsFails(depth: nat, kids: seq<Shape>, i: nat)
    requires i <= |kids| && !Fits(depth, kids[..i])
    ensures !Fits(depth, kids)
    decreases |kids| - i
  {
    if i == |kids| {
      assert kids[..i] == kids;
    } else {
      FitsPrefix(depth, kids, i);
      FitsFails(depth, kids, i + 1);
    }
  }

  lemma {:induction false} FitsStep(depth: nat, kids: seq<Shape>, i: nat)
    requires i < |kids| && Fits(depth, kids[..i])
    ensures if depth < CIRCULAR_LIMIT && Fits(depth + 1, kids[i].kids) then Fits(depth, kids[..i + 1])
            else !Fits(depth, kids)
  {
    FitsPrefix(depth, kids, i);
    if !Fits(depth, kids[..i + 1]) { FitsFails(depth, kids, i + 1); }
  }

  /** The copy under construction: its root, and the finished children so far. */
  ghost predicate Growing(made: Item, ts: seq<Shape>)
    reads made, NodesOf(ts)
  {
    made.next == null && made.prev == null && made.child == FirstRoot(ts) && made !in NodesOf(ts) && Strung(ts)
  }

  /** Hangs one more finished copy into the tree under construction. */
  method AddCopy(made: Item, tail: Item?, copy: Item, ghost ts: seq<Shape>, ghost c: Shape)
    requires Growing(made, ts) && Built(c) && copy == c.node && copy.next == null
    requires NodesOf(ts) !! Nodes(c) && made !in Nodes(c) && tail == LastRoot(ts)
    modifies made, NodesOf(ts), copy
    ensures Growing(made, ts + [c]) && NodesOf(ts + [c]) == NodesOf(ts) + Nodes(c)
  {
    RootsMore(ts, c);
    if tail == null {
      made.child := copy;
      assert Strung(ts) && Built(c);
    } else {
      NodesOfKid(ts, |ts| - 1);
    }
    Hang(tail, copy, ts, c);
  }

  /** The walk over the children of s has copied the first |ts| of them. */
  ghost predicate Copying(made: Item, tail: Item?, child: Item?, depth: nat, s: Shape, ts: seq<Shape>)
    reads made, NodesOf(ts), Nodes(s)
  {
    Walked(child, depth, s, |ts|) && AllSame(s.kids[..|ts|], ts) &&
    made !in Nodes(s) && NodesOf(ts) !! Nodes(s) &&
    Growing(made, ts) && tail == LastRoot(ts)
  }

  /** The walk over the children of s has come to child number n. */
  ghost predicate Walked(child: Item?, depth: nat, s: Shape, n: nat)
    reads Nodes(s)
  {
    n <= |s.kids| && Linked(s) && child == (if n < |s.kids| then s.kids[n].node else null) && Fits(depth, s.kids[..n])
  }

  /** Copies one child, hangs the copy into the tree and steps on; NULL when the limit is
      met. */
  method CopyKid(made: Item, tail: Item?, child: Item, depth: nat, ghost s: Shape, ghost ts: seq<Shape>)
    returns (copy: Item?, next: Item?, ghost c: Shape)
    requires Copying(made, tail, child, depth, s, ts) && allocated(Nodes(s)) && allocated(NodesOf(ts))
    modifies made, NodesOf(ts)
    ensures copy == null ==> !Fits(depth, s.kids)
    ensures copy != null ==> Copying(made, copy, next, depth, s, ts + [c])
    ensures copy != null ==> NodesOf(ts + [c]) == NodesOf(ts) + Nodes(c) && fresh(Nodes(c)) && allocated(Nodes(c))
    decreases s, 0
  {
    ghost var i := |ts|;
    ghost var k := s.kids[i];
    FitsStep(depth, s.kids, i);
    next, c := null, k;
    if depth >= CIRCULAR_LIMIT {
      return null, null, c;
    }
    LinkedKid(s.kids, i);
    NodesOfKid(s.kids, i);
    copy, c := DuplicateRec(child, depth + 1, k);
    if copy == null {
      return;
    }
    next := Attach(made, tail, child, copy, depth, s, ts, c);
  }

  /** Hangs a finished copy of the child into the tree and steps on to the next child. */
  method Attach(made: Item, tail: Item?, child: Item, copy: Item, depth: nat, ghost s: Shape, ghost ts: seq<Shape>,
      ghost c: Shape)
    returns (next: Item?)
    requires Copying(made, tail, child, depth, s, ts) && Fits(depth, s.kids[..|ts| + 1])
    requires Built(c) && copy == c.node && copy.next == null && Same(s.kids[|ts|], c)
    requires Nodes(c) !! NodesOf(ts) && Nodes(c) !! Nodes(s) && made !in Nodes(c)
    requires allocated(Nodes(s)) && allocated(NodesOf(ts)) && allocated(Nodes(c))
    modifies made, NodesOf(ts), copy
    ensures Copying(made, copy, next, depth, s, ts + [c]) && NodesOf(ts + [c]) == NodesOf(ts) + Nodes(c)
  {
    ghost var more, i := ts + [c], |ts| + 1;
    SameMore(s.kids, |ts|, ts, c);
    next := NextKid(child, depth, s, |ts|, i);
    assert copy in Nodes(c);
    AddCopy(made, tail, copy, ts, c);
    assert Walked(next, depth, s, i);
    assert NodesOf(more) !! Nodes(s);
    assert |more| == i;
  }

  method NextKid(child: Item, depth: nat, ghost s: Shape, ghost i: nat, ghost k: nat) returns (next: Item?)
    requires Walked(child, depth, s, i) && i < |s.kids| && k == i + 1 && Fits(depth, s.kids[..k])
    ensures Walked(next, depth, s, k)
  {
    assert Roots(s.kids)[i].next == child.next;
    next := child.next;
  }

  /** The walk over the children. */
  method CopyKids(made: Item, first: Item?, depth: nat, ghost s: Shape)
    returns (ok: bool, tail: Item?, ghost ts: seq<Shape>)
    requires Linked(s) && first == s.node.child && allocated(Nodes(s))
    requires Growing(made, []) && made !in Nodes(s)
    modifies made
    ensures ok <==> Fits(depth, s.kids)
    ensures ok ==> Growing(made, ts) && AllSame(s.kids, ts) && fresh(NodesOf(ts)) && allocated(NodesOf(ts))
    ensures ok ==> tail == LastRoot(ts)
    decreases s, 1
  {
    RootsAreNodes(s.kids);
    var child := first;
    tail, ts := null, [];
    while child != null
      invariant Copying(made, tail, child, depth, s, ts)
      invariant fresh(NodesOf(ts)) && allocated(NodesOf(ts))
      decreases |s.kids| - |ts|
    {
      var copy, next, c := CopyKid(made, tail, child, depth, s, ts);
      if copy == null {
        return false, tail, ts;
      }
      tail, child := copy, next;
      ts := ts + [c];
    }
    assert s.kids[..|ts|] == s.kids;
    ok := true;
  }

  /** cJSON_Duplicate_rec with recursion: a fresh, disjoint, equal tree, or NULL exactly
      when the limit is met on the way down. */
  method DuplicateRec(item: Item, depth: nat, ghost s: Shape) returns (r: Item?, ghost t: Shape)
    requires Linked(s) && s.node == item && allocated(Nodes(s))
    ensures r != null <==> Fits(depth, s.kids)
    ensures r != null ==>
              t.node == r && Built(t) && Same(s, t) && fresh(Nodes(t)) && allocated(Nodes(t)) && r.next == null &&
              r.prev == null
    decreases s, 2
  {
    var made := new Item(item.key, item.content);
    t := Shape(made, []);
    var ok, tail;
    ghost var ts;
    ok, tail, ts := CopyKids(made, item.child, depth, s);
    if !ok {
      return null, t;
    }
    CloseList(made, tail, ts);
    t := Shape(made, ts);
    r := made;
  }

  lemma {:induction false} SameMore(kids: seq<Shape>, i: nat, ts: seq<Shape>, c: Shape)
    requires i < |kids| && AllSame(kids[..i], ts) && Same(kids[i], c)
    ensures AllSame(kids[..i + 1], ts + [c])
  {
    assert kids[..i + 1][..i] == kids[..i] && (ts + [c])[..i] == ts;
  }

  /** Sets the head's `prev` to the tail. */
  method CloseList(made: Item, tail: Item?, ghost ts: seq<Shape>)
    requires Growing(made, ts) && tail == LastRoot(ts) && allocated(NodesOf(ts))
    modifies NodesOf(ts)
    ensures Built(Shape(made, ts)) && made.next == null && made.prev == null
  {
    if made.child != null {
      NodesOfKid(ts, 0);
      Close(made.child, tail, ts);
    }
  }

  /** cJSON_Duplicate: succeeds exactly on trees of height at most 10000. Only `child` and
      `next` of the source are read; every list of the copy is circular again. */
  method Duplicate(item: Item, ghost s: Shape) returns (r: Item?, ghost t: Shape)
    requires Linked(s) && s.node == item && allocated(Nodes(s))
    ensures r != null <==> Depth(s) <= CIRCULAR_LIMIT
    ensures r != null ==> t.node == r && Built(t) && Same(s, t) && TreeOf(t) == TreeOf(s) && fresh(Nodes(t))
    ensures r != null ==> r.next == null && r.prev == null
  {
    r, t := DuplicateRec(item, 0, s);
    if r != null { SameTree(s, t); }
  }

  // ----- parsed documents

  lemma {:induction false} ItemsNestingMore(js: seq<JSON>, j: JSON)
    ensures ItemsNesting(js + [j]) >= ItemsNesting(js) && ItemsNesting(js + [j]) >= Nesting(j)
    decreases |js|
  {
    if js == [] {
      assert [] + [j] == [j];
    } else {
      assert (js + [j])[1..] == js[1..] + [j];
      ItemsNestingMore(js[1..], j);
    }
  }

  lemma {:induction false} MembersNestingMore(ms: seq<Member>, m: Member)
    ensures MembersNesting(ms + [m]) >= MembersNesting(ms) && MembersNesting(ms + [m]) >= Nesting(m.value)
    decreases |ms|
  {
    if ms == [] {
      assert [] + [m] == [m];
    } else {
      assert (ms + [m])[1..] == ms[1..] + [m];
      MembersNestingMore(ms[1..], m);
    }
  }

  /** A tree is no higher than its document is nested. */
  lemma {:induction false} DepthBound(s: Shape)
    requires Typed(s)
    ensures Depth(s) <= Nesting(TreeOf(s))
    decreases s, 1
  {
    DepthOfBound(s.kids);
  }

  lemma {:induction false} DepthOfBound(ts: seq<Shape>)
    requires AllTyped(ts)
    ensures ts == [] ==> DepthOf(ts) == 0
    ensures DepthOf(ts) <= 1 + ItemsNesting(TreesOf(ts)) && DepthOf(ts) <= 1 + MembersNesting(MembersOf(ts))
    decreases ts, 0
  {
    if ts != [] {
      var front, last := ts[..|ts| - 1], ts[|ts| - 1];
      DepthOfBound(front);
      DepthBound(last);
      ItemsNestingMore(TreesOf(front), TreeOf(last));
      MembersNestingMore(MembersOf(front), Member(last.node.key, TreeOf(last)));
    }
  }

  /** cJSON_ParseWithLengthOpts and then cJSON_Duplicate: what the parser returns is never
      too high to be copied, and the copy, too, is a finished tree for the parsed document. */
  method ParseAndDuplicate(b: ParseBuffer, requireNul: bool)
    returns (item: Item?, copy: Item?, ghost t: Option<Shape>, ghost c: Option<Shape>)
    requires b.offset == 0 && b.depth == 0
    modifies b
    ensures match Parser.Parse(b.content, requireNul, b.strtod)
            case Done(v, _) => Stands(item, t, "", v) && Stands(copy, c, "", v) && NodesIn(t) !! NodesIn(c)
            case Failed(_) => item == null && copy == null
  {
    copy, c := null, None;
    var position;
    item, position, t := b.Parse(requireNul);
    if item == null { return; }
    ghost var s := t.value;
    DepthBound(s);
    BuiltIsLinked(s);
    ghost var d;
    copy, d := Duplicate(item, s);
    SameTyped(s, d);
    c := Some(d);
  }
}
