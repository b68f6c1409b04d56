/** What decides the order after a sort.

    The texts of the keys decide, and among keys that compare equal the order is reversed. That
    fixes the result, so sorting nodes and sorting the members they stand for is the same. */
module SortOrder {
  import opened Items
  import opened Json
  import opened KeyOrder
  import opened Members
  import opened Sorting

  /** The members with one key, in their order. */
  function OfKey(ms: seq<Member>, k: string, cs: bool): seq<Member> {
    if ms == [] then [] else Own(ms[0], k, cs) + OfKey(ms[1..], k, cs)
  }

  function Own(m: Member, k: string, cs: bool): seq<Member> { if Folded(m.key, cs) == k then [m] else [] }

  lemma {:induction false} OfKeyCons(m: Member, ms: seq<Member>, all: seq<Member>, k: string, cs: bool)
    requires all == [m] + ms
    ensures OfKey(all, k, cs) == Own(m, k, cs) + OfKey(ms, k, cs)
  {
    assert all[1..] == ms;
  }

  function Reversed(ms: seq<Member>): seq<Member> { if ms == [] then [] else Reversed(ms[1..]) + [ms[0]] }

  /** rs are the members ms, in the order of the texts of their keys, and members whose keys
      compare equal in the reverse of their order in ms. */
  ghost predicate SortOf(ms: seq<Member>, rs: seq<Member>, cs: bool) {
    ByText(rs, cs) && forall k :: OfKey(rs, k, cs) == Reversed(OfKey(ms, k, cs))
  }

  /** No key stands behind one that it precedes. */
  ghost predicate ByText(rs: seq<Member>, cs: bool) {
    forall i, j :: 0 <= i < j < |rs| ==> !Precedes(Folded(rs[j].key, cs), Folded(rs[i].key, cs))
  }

  lemma {:induction false} NondecreasingByText(rs: seq<Member>, cs: bool)
    ensures Nondecreasing(rs, cs) <==> ByText(rs, cs)
  {
    forall i, j | 0 <= i < j < |rs|
      ensures CompareStrings(rs[i].key, rs[j].key, cs) <= 0 <==>
              !Precedes(Folded(rs[j].key, cs), Folded(rs[i].key, cs))
    {
      CompareStringsExact(rs[i].key, rs[j].key, cs);
    }
  }

  lemma {:induction false} ReversedConcat(a: seq<Member>, b: seq<Member>)
    ensures Reversed(a + b) == Reversed(b) + Reversed(a)
    decreases |a|
  {
    if a == [] {
      assert a + b == b;
    } else {
      assert (a + b)[1..] == a[1..] + b;
      ReversedConcat(a[1..], b);
    }
  }

  lemma {:induction false} OfKeyConcat(a: seq<Member>, b: seq<Member>, k: string, cs: bool)
    ensures OfKey(a + b, k, cs) == OfKey(a, k, cs) + OfKey(b, k, cs)
    decreases |a|
  {
    if a == [] {
      assert a + b == b;
    } else {
      var m, rest := a[0], a[1..];
      OfKeyConcat(rest, b, k, cs);
      assert a == [m] + rest && a + b == [m] + (rest + b);
      OfKeyCons(m, rest, a, k, cs);
      OfKeyCons(m, rest + b, a + b, k, cs);
      Regroup(Own(m, k, cs), OfKey(rest, k, cs), OfKey(b, k, cs));
    }
  }

  lemma {:induction false} OfKeyNone(ms: seq<Member>, k: string, cs: bool)
    requires forall m :: m in ms ==> Folded(m.key, cs) != k
    ensures OfKey(ms, k, cs) == []
  {
    if ms != [] {
      assert ms[0] in ms;
      OfKeyNone(ms[1..], k, cs);
    }
  }

  /** A key below the head of a sorted list is not in the list. */
  lemma {:induction false} BelowNone(k: string, ms: seq<Member>, cs: bool)
    requires Nondecreasing(ms, cs) && (ms == [] || Cmp(k, Folded(ms[0].key, cs)) < 0)
    ensures OfKey(ms, k, cs) == []
  {
    forall m | m in ms
      ensures Folded(m.key, cs) != k
    {
      var i :| 0 <= i < |ms| && ms[i] == m;
      if i > 0 { CmpTransitive(k, Folded(ms[0].key, cs), Folded(m.key, cs)); }
      CmpZero(k, Folded(m.key, cs));
    }
    OfKeyNone(ms, k, cs);
  }

  // ----- only one list is sorted like that

  lemma {:induction false} OfKeyHolds(ms: seq<Member>, i: nat, cs: bool)
    requires i < |ms|
    ensures ms[i] in OfKey(ms, Folded(ms[i].key, cs), cs)
  {
    if i > 0 { OfKeyHolds(ms[1..], i - 1, cs); }
  }

  lemma {:induction false} OfKeyInside(ms: seq<Member>, k: string, cs: bool, m: Member)
    requires m in OfKey(ms, k, cs)
    ensures m in ms && Folded(m.key, cs) == k
  {
    if ms != [] && m in OfKey(ms[1..], k, cs) { OfKeyInside(ms[1..], k, cs, m); }
  }

  lemma {:induction false} SameHeads(a: seq<Member>, b: seq<Member>, cs: bool)
    requires Nondecreasing(a, cs) && Nondecreasing(b, cs) && a != []
    requires forall k :: OfKey(a, k, cs) == OfKey(b, k, cs)
    ensures b != [] && a[0] == b[0]
  {
    var k := Folded(a[0].key, cs);
    OfKeyHolds(a, 0, cs);
    OfKeyInside(b, k, cs, a[0]);
    var l := Folded(b[0].key, cs);
    OfKeyHolds(b, 0, cs);
    OfKeyInside(a, l, cs, b[0]);
    HeadIsLowest(a, b[0], cs);
    HeadIsLowest(b, a[0], cs);
    CmpFlip(k, l);
    CmpZero(k, l);
    assert OfKey(a, k, cs)[0] == a[0] && OfKey(b, k, cs)[0] == b[0];
  }

  lemma {:induction false} HeadIsLowest(ms: seq<Member>, m: Member, cs: bool)
    requires Nondecreasing(ms, cs) && m in ms
    ensures CompareStrings(ms[0].key, m.key, cs) <= 0
  {
    var i :| 0 <= i < |ms| && ms[i] == m;
    CmpZero(Folded(ms[0].key, cs), Folded(ms[0].key, cs));
  }

  lemma {:induction false} SameSorted(a: seq<Member>, b: seq<Member>, cs: bool)
    requires Nondecreasing(a, cs) && Nondecreasing(b, cs)
    requires forall k :: OfKey(a, k, cs) == OfKey(b, k, cs)
    ensures a == b
    decreases |a|
  {
    if a == [] {
      if b != [] { SameHeads(b, a, cs); }
    } else {
      SameHeads(a, b, cs);
      forall k
        ensures OfKey(a[1..], k, cs) == OfKey(b[1..], k, cs)
      {
        TailOfKey(a, b, k, cs);
      }
      SameSorted(a[1..], b[1..], cs);
      assert a == [a[0]] + a[1..] && b == [b[0]] + b[1..];
    }
  }

  lemma {:induction false} TailOfKey(a: seq<Member>, b: seq<Member>, k: string, cs: bool)
    requires a != [] && b != [] && a[0] == b[0] && OfKey(a, k, cs) == OfKey(b, k, cs)
    ensures OfKey(a[1..], k, cs) == OfKey(b[1..], k, cs)
  {
    var own := Own(a[0], k, cs);
    assert OfKey(a, k, cs) == own + OfKey(a[1..], k, cs) && OfKey(b, k, cs) == own + OfKey(b[1..], k, cs);
    assert OfKey(a[1..], k, cs) == OfKey(a, k, cs)[|own|..];
    assert OfKey(b[1..], k, cs) == OfKey(b, k, cs)[|own|..];
  }

  /** There is only one sorted list. */
  lemma {:induction false} SortUnique(ms: seq<Member>, rs: seq<Member>, ss: seq<Member>, cs: bool)
    requires SortOf(ms, rs, cs) && SortOf(ms, ss, cs)
    ensures rs == ss
  {
    NondecreasingByText(rs, cs);
    NondecreasingByText(ss, cs);
    SameSorted(rs, ss, cs);
  }

  // ----- the sort on member lists

  lemma {:induction false} InsertedOfKey(m: Member, ms: seq<Member>, k: string, cs: bool)
    requires Nondecreasing(ms, cs)
    ensures OfKey(InsertSorted(m, ms, cs), k, cs) == OfKey(ms, k, cs) + Own(m, k, cs)
  {
    if ms == [] || CompareStrings(m.key, ms[0].key, cs) < 0 {
      OfKeyCons(m, ms, [m] + ms, k, cs);
      if Folded(m.key, cs) == k { BelowNone(k, ms, cs); }
    } else {
      var rest := InsertSorted(m, ms[1..], cs);
      OfKeyCons(ms[0], rest, [ms[0]] + rest, k, cs);
      InsertedOfKey(m, ms[1..], k, cs);
      Regroup(Own(ms[0], k, cs), OfKey(ms[1..], k, cs), Own(m, k, cs));
    }
  }

  lemma {:induction false} SortMembersIs(ms: seq<Member>, cs: bool)
    ensures SortOf(ms, SortMembers(ms, cs), cs)
  {
    SortMembersKeeps(ms, cs);
    NondecreasingByText(SortMembers(ms, cs), cs);
    forall k
      ensures OfKey(SortMembers(ms, cs), k, cs) == Reversed(OfKey(ms, k, cs))
    {
      SortedOfKey(ms, k, cs);
    }
  }

  lemma {:induction false} SortedOfKey(ms: seq<Member>, k: string, cs: bool)
    ensures OfKey(SortMembers(ms, cs), k, cs) == Reversed(OfKey(ms, k, cs))
  {
    if ms != [] {
      SortedOfKey(ms[1..], k, cs);
      SortMembersKeeps(ms[1..], cs);
      InsertedOfKey(ms[0], SortMembers(ms[1..], cs), k, cs);
      ReversedOwn(ms[0], OfKey(ms[1..], k, cs), k, cs);
    }
  }

  lemma {:induction false} ReversedOwn(m: Member, rest: seq<Member>, k: string, cs: bool)
    ensures Reversed(Own(m, k, cs) + rest) == Reversed(rest) + Own(m, k, cs)
  {
    if Folded(m.key, cs) == k { assert ([m] + rest)[1..] == rest; } else { assert [] + rest == rest; }
  }

  // ----- the sort on nodes

  lemma {:induction false} MapConcat(a: seq<Item>, b: seq<Item>, v: Item -> JSON)
    ensures MapMembers(a + b, v) == MapMembers(a, v) + MapMembers(b, v)
  {
  }

  lemma {:induction false} MapSorted(ns: seq<Item>, v: Item -> JSON, cs: bool)
    requires SortedItems(ns, cs)
    ensures Nondecreasing(MapMembers(ns, v), cs)
  {
    var ms := MapMembers(ns, v);
    forall i, j | 0 <= i < j < |ms|
      ensures CompareStrings(ms[i].key, ms[j].key, cs) <= 0
    {
      assert CompareItems(ns[i], ns[j], cs) <= 0;
    }
  }

  lemma {:induction false} MergedOfKey(a: seq<Item>, b: seq<Item>, v: Item -> JSON, k: string, cs: bool)
    requires SortedItems(a, cs) && SortedItems(b, cs)
    ensures OfKey(MapMembers(MergeLists(a, b, cs), v), k, cs) ==
            OfKey(MapMembers(b, v), k, cs) + OfKey(MapMembers(a, v), k, cs)
  {
    if a == [] || b == [] {
      assert MapMembers([], v) == [];
    } else if CompareItems(a[0], b[0], cs) < 0 {
      MergedOfKey(a[1..], b, v, k, cs);
      MapSorted(b, v, cs);
      FirstGoes(a[0], a[1..], b, MergeLists(a[1..], b, cs), v, k, cs);
      assert [a[0]] + a[1..] == a;
    } else {
      MergedOfKey(a, b[1..], v, k, cs);
      SecondGoes(b[0], a, b[1..], MergeLists(a, b[1..], cs), v, k, cs);
      assert [b[0]] + b[1..] == b;
    }
  }

  lemma {:induction false} FirstGoes(n: Item, a: seq<Item>, b: seq<Item>, merged: seq<Item>, v: Item -> JSON,
      k: string, cs: bool)
    requires Nondecreasing(MapMembers(b, v), cs) && (b == [] || CompareItems(n, b[0], cs) < 0)
    requires OfKey(MapMembers(merged, v), k, cs) == OfKey(MapMembers(b, v), k, cs) + OfKey(MapMembers(a, v), k, cs)
    ensures OfKey(MapMembers([n] + merged, v), k, cs) ==
            OfKey(MapMembers(b, v), k, cs) + OfKey(MapMembers([n] + a, v), k, cs)
  {
    HeadOfKey(n, merged, v, k, cs);
    HeadOfKey(n, a, v, k, cs);
    if Folded(n.key, cs) == k { BelowNone(k, MapMembers(b, v), cs); }
  }

  lemma {:induction false} SecondGoes(n: Item, a: seq<Item>, b: seq<Item>, merged: seq<Item>, v: Item -> JSON,
      k: string, cs: bool)
    requires OfKey(MapMembers(merged, v), k, cs) == OfKey(MapMembers(b, v), k, cs) + OfKey(MapMembers(a, v), k, cs)
    ensures OfKey(MapMembers([n] + merged, v), k, cs) ==
            OfKey(MapMembers([n] + b, v), k, cs) + OfKey(MapMembers(a, v), k, cs)
  {
    HeadOfKey(n, merged, v, k, cs);
    HeadOfKey(n, b, v, k, cs);
    Regroup(Own(Member(n.key, v(n)), k, cs), OfKey(MapMembers(b, v), k, cs), OfKey(MapMembers(a, v), k, cs));
  }

  lemma {:induction false} HeadOfKey(n: Item, ns: seq<Item>, v: Item -> JSON, k: string, cs: bool)
    ensures OfKey(MapMembers([n] + ns, v), k, cs) ==
            Own(Member(n.key, v(n)), k, cs) + OfKey(MapMembers(ns, v), k, cs)
  {
    assert MapMembers([n] + ns, v)[1..] == MapMembers(ns, v);
  }

  /** A key occurs at most once where neighbours increase. */
  lemma {:induction false} InOrderOfKey(ns: seq<Item>, v: Item -> JSON, k: string, cs: bool)
    requires InOrder(ns, cs)
    ensures |OfKey(MapMembers(ns, v), k, cs)| <= 1
  {
    if ns != [] {
      HeadOfKey(ns[0], ns[1..], v, k, cs);
      assert [ns[0]] + ns[1..] == ns;
      InOrderOfKey(ns[1..], v, k, cs);
      InOrderIsSorted(ns[1..], cs);
      MapSorted(ns[1..], v, cs);
      if Folded(ns[0].key, cs) == k {
        assert |ns| > 1 ==> CompareItems(ns[0], ns[1], cs) < 0;
        BelowNone(k, MapMembers(ns[1..], v), cs);
      }
    }
  }

  lemma {:induction false} MergeSortOfKey(ns: seq<Item>, v: Item -> JSON, k: string, cs: bool)
    ensures OfKey(MapMembers(MergeSort(ns, cs), v), k, cs) == Reversed(OfKey(MapMembers(ns, v), k, cs))
    decreases |ns|
  {
    if |ns| < 2 || InOrder(ns, cs) {
      InOrderOfKey(ns, v, k, cs);
      ShortReversed(OfKey(MapMembers(ns, v), k, cs));
    } else {
      var m := Middle(|ns|);
      var a, b := ns[..m], ns[m..];
      assert ns == a + b;
      MergeSortOfKey(a, v, k, cs);
      MergeSortOfKey(b, v, k, cs);
      SortedHalves(a, b, MergeSort(a, cs), MergeSort(b, cs), v, k, cs);
    }
  }

  lemma {:induction false} ShortReversed(ms: seq<Member>)
    requires |ms| <= 1
    ensures Reversed(ms) == ms
  {
    if ms != [] { assert ms[1..] == [] && [ms[0]] == ms; }
  }

  lemma {:induction false} SortedHalves(a: seq<Item>, b: seq<Item>, x: seq<Item>, y: seq<Item>, v: Item -> JSON,
      k: string, cs: bool)
    requires x == MergeSort(a, cs) && y == MergeSort(b, cs)
    requires OfKey(MapMembers(x, v), k, cs) == Reversed(OfKey(MapMembers(a, v), k, cs))
    requires OfKey(MapMembers(y, v), k, cs) == Reversed(OfKey(MapMembers(b, v), k, cs))
    ensures OfKey(MapMembers(MergeLists(x, y, cs), v), k, cs) == Reversed(OfKey(MapMembers(a + b, v), k, cs))
  {
    MergeSortSorts(a, cs);
    MergeSortSorts(b, cs);
    MergedOfKey(x, y, v, k, cs);
    HalvesOfKey(a, b, v, k, cs);
  }

  lemma {:induction false} HalvesOfKey(a: seq<Item>, b: seq<Item>, v: Item -> JSON, k: string, cs: bool)
    ensures Reversed(OfKey(MapMembers(a + b, v), k, cs)) ==
            Reversed(OfKey(MapMembers(b, v), k, cs)) + Reversed(OfKey(MapMembers(a, v), k, cs))
  {
    MapConcat(a, b, v);
    OfKeyConcat(MapMembers(a, v), MapMembers(b, v), k, cs);
    ReversedConcat(OfKey(MapMembers(a, v), k, cs), OfKey(MapMembers(b, v), k, cs));
  }

  /** sort_list puts the nodes in the order of the texts of their keys; keys that compare
      equal come out in reverse. */
  lemma {:induction false} MergeSortIs(ns: seq<Item>, v: Item -> JSON, cs: bool)
    ensures SortOf(MapMembers(ns, v), MapMembers(MergeSort(ns, cs), v), cs)
  {
    MergeSortSorts(ns, cs);
    MapSorted(MergeSort(ns, cs), v, cs);
    NondecreasingByText(MapMembers(MergeSort(ns, cs), v), cs);
    forall k
      ensures OfKey(MapMembers(MergeSort(ns, cs), v), k, cs) == Reversed(OfKey(MapMembers(ns, v), k, cs))
    {
      MergeSortOfKey(ns, v, k, cs);
    }
  }

  /** Sorting nodes and sorting the members they stand for give the same list, whatever the
      keys are. */
  lemma {:induction false} SortsAlike(ns: seq<Item>, v: Item -> JSON, cs: bool)
    ensures MapMembers(MergeSort(ns, cs), v) == SortMembers(MapMembers(ns, v), cs)
  {
    MergeSortIs(ns, v, cs);
    SortMembersIs(MapMembers(ns, v), cs);
    SortUnique(MapMembers(ns, v), MapMembers(MergeSort(ns, cs), v), SortMembers(MapMembers(ns, v), cs), cs);
  }
}
