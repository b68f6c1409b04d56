/** sort_list: mergesort on a sibling list, by relinking its nodes. Of two keys that compare
    equal the one from the second half comes first. */
module Sorting {
  import opened Json
  import opened KeyOrder
  import opened Members
  import opened Items

  function CompareItems(a: Item, b: Item, cs: bool): int {
    CompareStrings(a.key, b.key, cs)
  }

  // ----- the sort as a function of the list of nodes

  /** Merge: the second list goes first on ties. */
  function MergeLists(a: seq<Item>, b: seq<Item>, cs: bool): seq<Item> {
    if a == [] then b
    else if b == [] then a
    else if CompareItems(a[0], b[0], cs) < 0 then [a[0]] + MergeLists(a[1..], b, cs)
    else [b[0]] + MergeLists(a, b[1..], cs)
  }

  /** Neighbours strictly increase: such a list is left alone. */
  predicate InOrder(ns: seq<Item>, cs: bool) {
    forall i :: 0 <= i < |ns| - 1 ==> CompareItems(ns[i], ns[i + 1], cs) < 0
  }

  /** Where the two walking pointers stop. */
  function Middle(n: nat): nat { (n + 1) / 2 }

  function MergeSort(ns: seq<Item>, cs: bool): seq<Item>
    decreases |ns|
  {
    if |ns| < 2 || InOrder(ns, cs) then ns
    else MergeLists(MergeSort(ns[..Middle(|ns|)], cs), MergeSort(ns[Middle(|ns|)..], cs), cs)
  }

  ghost predicate SortedItems(ns: seq<Item>, cs: bool) {
    forall i, j :: 0 <= i < j < |ns| ==> CompareItems(ns[i], ns[j], cs) <= 0
  }

  ghost predicate AtMost(a: Item, ns: seq<Item>, cs: bool) {
    forall n :: n in ns ==> CompareItems(a, n, cs) <= 0
  }

  lemma {:induction false} Cons(a: Item, ns: seq<Item>, cs: bool)
    requires SortedItems(ns, cs) && AtMost(a, ns, cs)
    ensures SortedItems([a] + ns, cs)
  {
    forall i, j | 0 <= i < j < |[a] + ns|
      ensures CompareItems(([a] + ns)[i], ([a] + ns)[j], cs) <= 0
    {
      assert ([a] + ns)[j] in ns;
    }
  }

  lemma {:induction false} HeadAtMost(ns: seq<Item>, cs: bool)
    requires SortedItems(ns, cs) && ns != []
    ensures AtMost(ns[0], ns, cs)
  {
    CmpZero(Folded(ns[0].key, cs), Folded(ns[0].key, cs));
  }

  lemma {:induction false} AtMostFollows(a: Item, b: Item, ns: seq<Item>, cs: bool)
    requires CompareItems(a, b, cs) <= 0 && AtMost(b, ns, cs)
    ensures AtMost(a, ns, cs)
  {
    forall n | n in ns
      ensures CompareItems(a, n, cs) <= 0
    {
      CmpTransitive(Folded(a.key, cs), Folded(b.key, cs), Folded(n.key, cs));
    }
  }

  lemma {:induction false} MultisetCons(ns: seq<Item>)
    requires ns != []
    ensures multiset(ns) == multiset{ns[0]} + multiset(ns[1..])
  {
    assert ns == [ns[0]] + ns[1..];
  }

  lemma {:induction false} MultisetHalves(ns: seq<Item>, m: nat)
    requires m <= |ns|
    ensures multiset(ns) == multiset(ns[..m]) + multiset(ns[m..])
  {
    assert ns == ns[..m] + ns[m..];
  }

  lemma {:induction false} MergePermutes(a: seq<Item>, b: seq<Item>, cs: bool)
    ensures multiset(MergeLists(a, b, cs)) == multiset(a) + multiset(b)
  {
    var r := MergeLists(a, b, cs);
    if a != [] && b != [] {
      if CompareItems(a[0], b[0], cs) < 0 {
        MergePermutes(a[1..], b, cs);
        assert r[1..] == MergeLists(a[1..], b, cs);
        MultisetCons(a);
      } else {
        MergePermutes(a, b[1..], cs);
        assert r[1..] == MergeLists(a, b[1..], cs);
        MultisetCons(b);
      }
      MultisetCons(r);
    }
  }

  lemma {:induction false} MergeSorts(a: seq<Item>, b: seq<Item>, cs: bool)
    requires SortedItems(a, cs) && SortedItems(b, cs)
    ensures SortedItems(MergeLists(a, b, cs), cs)
  {
    if a != [] && b != [] {
      HeadAtMost(a, cs);
      HeadAtMost(b, cs);
      if CompareItems(a[0], b[0], cs) < 0 {
        AtMostFollows(a[0], b[0], b, cs);
        MergeSorts(a[1..], b, cs);
        MergedAtMost(a[0], a[1..], b, cs);
        Cons(a[0], MergeLists(a[1..], b, cs), cs);
      } else {
        CmpFlip(Folded(a[0].key, cs), Folded(b[0].key, cs));
        AtMostFollows(b[0], a[0], a, cs);
        MergeSorts(a, b[1..], cs);
        MergedAtMost(b[0], a, b[1..], cs);
        Cons(b[0], MergeLists(a, b[1..], cs), cs);
      }
    }
  }

  lemma {:induction false} MergedAtMost(x: Item, a: seq<Item>, b: seq<Item>, cs: bool)
    requires AtMost(x, a, cs) && AtMost(x, b, cs)
    ensures AtMost(x, MergeLists(a, b, cs), cs)
  {
    MergePermutes(a, b, cs);
    forall n | n in MergeLists(a, b, cs)
      ensures n in a || n in b
    {
      assert n in multiset(MergeLists(a, b, cs));
    }
  }

  lemma {:induction false} InOrderIsSorted(ns: seq<Item>, cs: bool)
    requires InOrder(ns, cs)
    ensures SortedItems(ns, cs)
  {
    if |ns| > 1 {
      InOrderIsSorted(ns[1..], cs);
      HeadAtMost(ns[1..], cs);
      assert CompareItems(ns[0], ns[1], cs) < 0;
      AtMostFollows(ns[0], ns[1], ns[1..], cs);
      Cons(ns[0], ns[1..], cs);
      assert [ns[0]] + ns[1..] == ns;
    }
  }

  /** The result holds the very same nodes, in non-decreasing key order. */
  lemma {:induction false} MergeSortSorts(ns: seq<Item>, cs: bool)
    ensures multiset(MergeSort(ns, cs)) == multiset(ns) && SortedItems(MergeSort(ns, cs), cs)
    decreases |ns|
  {
    if |ns| < 2 || InOrder(ns, cs) {
      InOrderIsSorted(ns, cs);
    } else {
      var m := Middle(|ns|);
      var a, b := MergeSort(ns[..m], cs), MergeSort(ns[m..], cs);
      MergeSortSorts(ns[..m], cs);
      MergeSortSorts(ns[m..], cs);
      MergePermutes(a, b, cs);
      MergeSorts(a, b, cs);
      MultisetHalves(ns, m);
    }
  }

  lemma {:induction false} OnceEach(a: seq<Item>, n: Item)
    requires NoRepeats(a)
    ensures multiset(a)[n] <= 1
  {
    if n in a {
      var k :| 0 <= k < |a| && a[k] == n;
      assert a == a[..k] + [a[k]] + a[k + 1..];
      assert a[k] !in a[..k] && a[k] !in a[k + 1..];
    } else {
      assert n !in multiset(a);
    }
  }

  lemma {:induction false} SamePermutation(a: seq<Item>, b: seq<Item>)
    requires NoRepeats(a) && multiset(a) == multiset(b)
    ensures NoRepeats(b) && |a| == |b| && forall n :: n in a <==> n in b
  {
    assert |a| == |multiset(a)| == |multiset(b)| == |b|;
    assert forall n :: n in a <==> n in multiset(a);
    assert forall n :: n in b <==> n in multiset(b);
    forall i, j | 0 <= i < j < |b|
      ensures b[i] != b[j]
    {
      OnceEach(a, b[j]);
      assert b == b[..j] + [b[j]] + b[j + 1..];
      assert b[i] in b[..j];
    }
  }

  // ----- the sort on linked nodes

  /** Is the list in order already? */
  method TestInOrder(list: Item, ghost ns: seq<Item>, cs: bool) returns (sorted: bool)
    requires ns != [] && list == ns[0] && Forward(ns)
    ensures sorted == InOrder(ns, cs)
  {
    var current := list;
    ghost var i := 0;
    while current.next != null && CompareItems(current, current.next, cs) < 0
      invariant 0 <= i < |ns| && current == ns[i]
      invariant forall k :: 0 <= k < i ==> CompareItems(ns[k], ns[k + 1], cs) < 0
      decreases |ns| - i
    {
      current := current.next;
      i := i + 1;
    }
    if current.next != null {
      assert !(CompareItems(ns[i], ns[i + 1], cs) < 0);
      return false;
    }
    return true;
  }

  /** Cuts the list at the node the slow pointer reaches. */
  method Split(list: Item, ghost ns: seq<Item>) returns (second: Item)
    requires |ns| >= 2 && list == ns[0] && Chain(ns)
    modifies ns
    ensures second == ns[Middle(|ns|)]
    ensures Chain(ns[..Middle(|ns|)]) && Chain(ns[Middle(|ns|)..])
    ensures second.prev == null && list.prev == old(list.prev)
  {
    var slow: Item? := list;
    var current: Item? := list;
    ghost var i, k := 0, 0;
    while current != null
      invariant 0 <= i <= |ns| && k == Middle(i) && k < |ns|
      invariant current == if i < |ns| then ns[i] else null
      invariant slow == ns[k]
      invariant i < |ns| ==> i % 2 == 0
      decreases |ns| - i
    {
      assert ns[i].next == current.next && ns[k].next == slow.next;
      slow := slow.next;
      current := current.next;
      i, k := i + 1, k + 1;
      if current != null {
        assert i < |ns| && ns[i].next == current.next;
        current := current.next;
        i := i + 1;
      }
    }
    second := slow;
    ghost var m := Middle(|ns|);
    ghost var a, b := ns[..m], ns[m..];
    assert second.prev == ns[m - 1];
    second.prev.next := null;
    second.prev := null;
    assert forall i :: 0 <= i < |b| ==> b[i] == ns[m + i];
    assert Forward(b) && Backward(b);
  }

  /** The part of a list from position i on is still linked as it was. */
  ghost predicate LinkedFrom(ns: seq<Item>, i: nat)
    reads ns
  {
    (forall k {:trigger ns[k].next} :: i <= k < |ns| ==> ns[k].next == if k + 1 < |ns| then ns[k + 1] else null) &&
    forall k {:trigger ns[k].prev} :: i < k < |ns| ==> ns[k].prev == ns[k - 1]
  }

  /** The merged part: linked both ways, its last `next` not yet settled. */
  ghost predicate LinkedOpen(out: seq<Item>)
    reads out
  {
    (forall k {:trigger out[k].next} :: 0 <= k < |out| - 1 ==> out[k].next == out[k + 1]) &&
    forall k {:trigger out[k].prev} :: 1 <= k < |out| ==> out[k].prev == out[k - 1]
  }

  ghost predicate Apart(a: seq<Item>, b: seq<Item>, from: nat) {
    forall i, j :: 0 <= i < |a| && from <= j < |b| ==> a[i] != b[j]
  }

  /** Two lists being merged: the merged part, and what is left of each. */
  ghost predicate Merging(out: seq<Item>, ns: seq<Item>, i: nat, os: seq<Item>, j: nat)
    reads out, ns, os
  {
    i <= |ns| && j <= |os| &&
    NoRepeats(ns) && NoRepeats(os) && Apart(ns, os, 0) &&
    LinkedFrom(ns, i) && LinkedFrom(os, j) &&
    NoRepeats(out) && LinkedOpen(out) && Apart(out, ns, i) && Apart(out, os, j)
  }

  /** Append the next node of one list to the merged part. */
  method Take(tail: Item?, smaller: Item, ghost out: seq<Item>, ghost ns: seq<Item>, ghost i: nat, ghost os: seq<Item>,
      ghost j: nat)
    requires Merging(out, ns, i, os, j) && i < |ns| && smaller == ns[i]
    requires tail == if out == [] then null else out[|out| - 1]
    modifies if out == [] then {} else {out[|out| - 1], smaller}
    ensures Merging(out + [smaller], ns, i + 1, os, j)
    ensures smaller.next == old(smaller.next)
    ensures out != [] ==> out[0].prev == old(out[0].prev)
  {
    if tail != null {
      tail.next := smaller;
      smaller.prev := tail;
    }
    ghost var all := out + [smaller];
    assert forall k :: 0 <= k < |out| ==> all[k] == out[k];
    assert LinkedOpen(all);
    assert LinkedFrom(ns, i + 1);
    assert LinkedFrom(os, j);
  }

  /** Hang the rest of a list behind the merged part. */
  method Attach(tail: Item, rest: Item, ghost out: seq<Item>, ghost ns: seq<Item>, ghost i: nat)
    requires out != [] && NoRepeats(out) && LinkedOpen(out) && tail == out[|out| - 1]
    requires i < |ns| && rest == ns[i] && NoRepeats(ns) && LinkedFrom(ns, i) && Apart(out, ns, i)
    modifies tail, rest
    ensures Chain(out + ns[i..])
    ensures out[0].prev == old(out[0].prev)
  {
    tail.next := rest;
    rest.prev := tail;
    ghost var all := out + ns[i..];
    assert forall k :: 0 <= k < |out| ==> all[k] == out[k];
    assert forall k :: |out| <= k < |all| ==> all[k] == ns[i + k - |out|];
    assert NoRepeats(all);
    assert Forward(all) && Backward(all);
  }

  lemma {:induction false} MergingFlips(out: seq<Item>, ns: seq<Item>, i: nat, os: seq<Item>, j: nat)
    requires Merging(out, ns, i, os, j)
    ensures Merging(out, os, j, ns, i)
  {
  }

  /** What merging ends in: the merged part so far and the merge of what is left. */
  ghost function Outcome(out: seq<Item>, fs: seq<Item>, i: nat, ss: seq<Item>, j: nat, cs: bool): seq<Item>
    requires i <= |fs| && j <= |ss|
  {
    out + MergeLists(fs[i..], ss[j..], cs)
  }

  /** One round moves one node to the merged part and leaves the outcome as it is. */
  lemma {:induction false} OutcomeKept(out: seq<Item>, fs: seq<Item>, i: nat, ss: seq<Item>, j: nat, cs: bool)
    requires i < |fs| && j < |ss|
    ensures Outcome(out, fs, i, ss, j, cs) ==
            if CompareItems(fs[i], ss[j], cs) < 0 then Outcome(out + [fs[i]], fs, i + 1, ss, j, cs)
            else Outcome(out + [ss[j]], fs, i, ss, j + 1, cs)
  {
    assert fs[i..][1..] == fs[i + 1..] && ss[j..][1..] == ss[j + 1..];
    if CompareItems(fs[i], ss[j], cs) < 0 {
      Regroup(out, [fs[i]], MergeLists(fs[i + 1..], ss[j..], cs));
    } else {
      Regroup(out, [ss[j]], MergeLists(fs[i..], ss[j + 1..], cs));
    }
  }

  ghost function At(ns: seq<Item>, i: nat): Item? { if i < |ns| then ns[i] else null }

  /** One round of the merging loop. */
  method MergeStep(first: Item, second: Item, tail: Item?, ghost out: seq<Item>, ghost fs: seq<Item>, ghost i: nat,
      ghost ss: seq<Item>, ghost j: nat, cs: bool)
    returns (first': Item?, second': Item?, smaller: Item, ghost i': nat, ghost j': nat)
    requires Merging(out, fs, i, ss, j) && i < |fs| && j < |ss| && first == fs[i] && second == ss[j]
    requires tail == if out == [] then null else out[|out| - 1]
    modifies if out == [] then {} else {out[|out| - 1], first, second}
    ensures Merging(out + [smaller], fs, i', ss, j') && first' == At(fs, i') && second' == At(ss, j')
    ensures i' + j' == i + j + 1 && smaller in {first, second}
    ensures Outcome(out + [smaller], fs, i', ss, j', cs) == Outcome(out, fs, i, ss, j, cs)
    ensures out != [] ==> out[0].prev == old(out[0].prev)
  {
    first', second', i', j' := first, second, i, j;
    OutcomeKept(out, fs, i, ss, j, cs);
    if CompareItems(first, second, cs) < 0 {
      smaller := first;
      Take(tail, smaller, out, fs, i, ss, j);
      first' := first.next;
      i' := i + 1;
    } else {
      smaller := second;
      MergingFlips(out, fs, i, ss, j);
      Take(tail, smaller, out, ss, j, fs, i);
      MergingFlips(out + [smaller], ss, j + 1, fs, i);
      second' := second.next;
      j' := j + 1;
    }
  }

  /** The state between two rounds of the merging loop. */
  ghost predicate Midway(result: Item?, tail: Item?, first: Item?, second: Item?, out: seq<Item>, fs: seq<Item>, i: nat,
      ss: seq<Item>, j: nat, cs: bool)
    reads out, fs, ss
  {
    Merging(out, fs, i, ss, j) && first == At(fs, i) && second == At(ss, j) && (first != null || second != null) &&
    result == First(out) && tail == (if out == [] then null else out[|out| - 1]) &&
    (out != [] ==> tail in fs || tail in ss) && Outcome(out, fs, i, ss, j, cs) == MergeLists(fs, ss, cs)
  }

  /** One round of the loop, with the head and the tail of the merged part. */
  method MergeRound(result: Item?, tail: Item?, first: Item, second: Item, ghost out: seq<Item>, ghost fs: seq<Item>,
      ghost i: nat, ghost ss: seq<Item>, ghost j: nat, cs: bool)
    returns (result': Item?, smaller: Item, first': Item?, second': Item?, ghost out': seq<Item>, ghost i': nat,
      ghost j': nat)
    requires Midway(result, tail, first, second, out, fs, i, ss, j, cs)
    modifies if out == [] then {} else {out[|out| - 1], first, second}
    ensures Midway(result', smaller, first', second', out', fs, i', ss, j', cs) && i' + j' == i + j + 1 && out' != []
    ensures result' == if result == null then smaller else result
    ensures smaller in {first, second} && (result != null ==> result.prev == old(result.prev))
  {
    first', second', smaller, i', j' := MergeStep(first, second, tail, out, fs, i, ss, j, cs);
    result' := if result == null then smaller else result;
    out' := out + [smaller];
  }

  /** The merging loop: ends when one of the lists is used up. */
  method MergeLoop(a: Item, ghost fs: seq<Item>, b: Item, ghost ss: seq<Item>, cs: bool)
    returns (result: Item?, tail: Item?, first: Item?, second: Item?, ghost out: seq<Item>, ghost i: nat, ghost j: nat)
    requires fs != [] && a == fs[0] && Chain(fs)
    requires ss != [] && b == ss[0] && Chain(ss) && Apart(fs, ss, 0)
    modifies fs, ss
    ensures Midway(result, tail, first, second, out, fs, i, ss, j, cs) && (first == null || second == null)
    ensures out != [] && result in {a, b} && result.prev == old(result.prev)
  {
    result, tail, first, second := null, null, a, b;
    i, j, out := 0, 0, [];
    assert fs[0..] == fs && ss[0..] == ss;
    while first != null && second != null
      invariant Midway(result, tail, first, second, out, fs, i, ss, j, cs)
      invariant out == [] ==> i == 0 && j == 0 && a.prev == old(a.prev) && b.prev == old(b.prev)
      invariant out != [] ==> result in {a, b} && result.prev == old(result.prev)
      decreases |fs| - i + |ss| - j
    {
      result, tail, first, second, out, i, j := MergeRound(result, tail, first, second, out, fs, i, ss, j, cs);
    }
  }

  /** Merges two lists: the loop, then the rest of the longer list behind it. */
  method MergeChains(a: Item, ghost fs: seq<Item>, b: Item, ghost ss: seq<Item>, cs: bool) returns (result: Item)
    requires fs != [] && a == fs[0] && Chain(fs)
    requires ss != [] && b == ss[0] && Chain(ss) && Apart(fs, ss, 0)
    modifies fs, ss
    ensures var r := MergeLists(fs, ss, cs); r != [] && result == r[0] && Chain(r)
    ensures result.prev == old(result.prev) && result in {a, b}
  {
    var merged, tail, first, second;
    ghost var out, i, j;
    merged, tail, first, second, out, i, j := MergeLoop(a, fs, b, ss, cs);
    result := merged;
    if first != null {
      assert MergeLists(fs[i..], ss[j..], cs) == fs[i..];
      Attach(tail, first, out, fs, i);
    } else {
      assert MergeLists(fs[i..], ss[j..], cs) == ss[j..];
      Attach(tail, second, out, ss, j);
    }
  }

  /** sort_list. The nodes come back in the order of MergeSort, linked both ways. The head
      keeps its `prev` if it stays the head, and otherwise has none: it is never reset to
      the new tail. */
  method SortList(list: Item?, ghost ns: seq<Item>, cs: bool) returns (result: Item?)
    requires list == First(ns) && Chain(ns)
    modifies ns
    ensures result == First(MergeSort(ns, cs)) && Chain(MergeSort(ns, cs))
    ensures result != null ==> result.prev == if result == list then old(list.prev) else null
    decreases |ns|
  {
    if list == null || list.next == null {
      return list;
    }
    assert ns[0].next == list.next;
    var sorted := TestInOrder(list, ns, cs);
    if sorted {
      return list;
    }
    ghost var m := Middle(|ns|);
    ghost var front, back := ns[..m], ns[m..];
    HalvesApart(ns, m);
    var second := Split(list, ns);
    result := SortAndMerge(list, front, second, back, cs);
  }

  /** Sorts the two halves and merges them. */
  method SortAndMerge(first: Item, ghost front: seq<Item>, second: Item, ghost back: seq<Item>, cs: bool)
    returns (result: Item)
    requires front != [] && first == front[0] && Chain(front)
    requires back != [] && second == back[0] && Chain(back) && second.prev == null
    requires Outside(front, back) && Outside(back, front)
    modifies front, back
    ensures var r := MergeLists(MergeSort(front, cs), MergeSort(back, cs), cs); r != [] && result == r[0] && Chain(r)
    ensures result.prev == if result == first then old(first.prev) else null
    decreases |front| + |back|, 0
  {
    ghost var fs, ss := MergeSort(front, cs), MergeSort(back, cs);
    SortedParts(front, back, fs, ss, cs);
    var a := SortList(first, front, cs);
    assert Chain(fs);
    var b := SortList(second, back, cs);
    assert Chain(fs);
    result := MergeChains(a, fs, b, ss, cs);
  }

  ghost predicate Outside(a: seq<Item>, b: seq<Item>) {
    forall i :: 0 <= i < |a| ==> a[i] !in b
  }

  ghost predicate Inside(a: seq<Item>, b: seq<Item>) {
    forall i :: 0 <= i < |a| ==> a[i] in b
  }

  lemma {:induction false} HalvesApart(ns: seq<Item>, m: nat)
    requires NoRepeats(ns) && m <= |ns|
    ensures Outside(ns[..m], ns[m..]) && Outside(ns[m..], ns[..m])
  {
    assert forall j :: 0 <= j < |ns| - m ==> ns[m..][j] == ns[m + j];
  }

  /** The sorted halves hold the nodes of the halves and share none. */
  lemma {:induction false} SortedParts(a: seq<Item>, b: seq<Item>, fs: seq<Item>, ss: seq<Item>, cs: bool)
    requires NoRepeats(a) && NoRepeats(b) && a != [] && b != [] && Outside(a, b) && Outside(b, a)
    requires fs == MergeSort(a, cs) && ss == MergeSort(b, cs)
    ensures fs != [] && ss != [] && Apart(fs, ss, 0)
    ensures Inside(fs, a) && Inside(ss, b) && Outside(fs, b) && Outside(ss, a)
  {
    MergeSortSorts(a, cs);
    MergeSortSorts(b, cs);
    PermutationInside(a, fs);
    PermutationInside(b, ss);
    assert forall i :: 0 <= i < |ss| ==> ss[i] in ss;
  }

  lemma {:induction false} PermutationInside(a: seq<Item>, b: seq<Item>)
    requires NoRepeats(a) && multiset(a) == multiset(b)
    ensures NoRepeats(b) && |a| == |b| && Inside(b, a)
    ensures forall c :: Outside(a, c) ==> Outside(b, c)
  {
    SamePermutation(a, b);
    assert forall i :: 0 <= i < |b| ==> b[i] in b;
  }

  // ----- the members nodes stand for

  function MapMembers(ns: seq<Item>, v: Item -> JSON): (r: seq<Member>)
    ensures |r| == |ns| && forall i :: 0 <= i < |r| ==> r[i] == Member(ns[i].key, v(ns[i]))
  {
    seq(|ns|, i requires 0 <= i < |ns| => Member(ns[i].key, v(ns[i])))
  }
}
