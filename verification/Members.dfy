/** Member lists of objects: lookup by key and sorting by key.

    A look-up takes the first member whose key matches; sorting keeps every member and
    puts the keys in the order of KeyOrder. */
module Members {
  import opened Json
  import opened KeyOrder

  /** get_object_item: the index of the first member with the key, or |ms|. */
  function FindKey(ms: seq<Member>, name: string, cs: bool): (i: nat)
    ensures i <= |ms|
    ensures i < |ms| ==> SameKey(ms[i].key, name, cs)
    ensures forall k :: 0 <= k < i ==> !SameKey(ms[k].key, name, cs)
  {
    if ms == [] || SameKey(ms[0].key, name, cs) then 0 else 1 + FindKey(ms[1..], name, cs)
  }

  function Lookup(j: JSON, name: string, cs: bool): Option<JSON> {
    if j.Object? then
      var i := FindKey(j.members, name, cs);
      if i < |j.members| then Some(j.members[i].value) else None
    else None
  }

  function RemoveAt<T>(s: seq<T>, i: nat): (r: seq<T>)
    requires i < |s|
    ensures |r| == |s| - 1
  {
    s[..i] + s[i + 1..]
  }

  function InsertAt<T>(s: seq<T>, i: nat, x: T): (r: seq<T>)
    requires i <= |s|
    ensures |r| == |s| + 1
  {
    s[..i] + [x] + s[i..]
  }

  /** cJSON_DeleteItemFromObject: drop the first member with the key, if there is one. */
  function DeleteKey(ms: seq<Member>, name: string, cs: bool): seq<Member> {
    var i := FindKey(ms, name, cs);
    if i < |ms| then RemoveAt(ms, i) else ms
  }

  ghost predicate KeysIn(ms: seq<Member>, keys: iset<string>) {
    forall i :: 0 <= i < |ms| ==> ms[i].key in keys
  }

  /** Among coherent keys a lookup finds the member that carries the very key. */
  lemma {:induction false} FindKeyExact(ms: seq<Member>, i: nat, cs: bool, keys: iset<string>)
    requires Unambiguous(keys, cs) && KeysIn(ms, keys) && Distinct(ms) && i < |ms|
    ensures FindKey(ms, ms[i].key, cs) == i
  {
    var f := FindKey(ms, ms[i].key, cs);
    assert SameKey(ms[i].key, ms[i].key, cs);
    assert f <= i;
    SameKeyIsEqual(keys, ms[f].key, ms[i].key, cs);
  }

  lemma {:induction false} FindKeyNone(ms: seq<Member>, name: string, cs: bool, keys: iset<string>)
    requires Unambiguous(keys, cs) && KeysIn(ms, keys) && name in keys && name !in Keys(ms)
    ensures FindKey(ms, name, cs) == |ms|
  {
    var f := FindKey(ms, name, cs);
    assert forall m :: m in ms ==> m.key in Keys(ms);
    if f < |ms| { SameKeyIsEqual(keys, ms[f].key, name, cs); }
  }

  lemma {:induction false} RemoveAtKeys(ms: seq<Member>, i: nat)
    requires Distinct(ms) && i < |ms|
    ensures Distinct(RemoveAt(ms, i)) && Keys(RemoveAt(ms, i)) == Keys(ms) - {ms[i].key}
    ensures forall m :: m in RemoveAt(ms, i) <==> m in ms && m != ms[i]
  {
    var r := RemoveAt(ms, i);
    RemoveAtPlaces(ms, i);
    assert forall m :: m in r ==> m.key != ms[i].key;
  }

  lemma {:induction false} RemoveAtPlaces(ms: seq<Member>, i: nat)
    requires Distinct(ms) && i < |ms|
    ensures var r := RemoveAt(ms, i);
            (forall k :: 0 <= k < |r| ==> r[k] == if k < i then ms[k] else ms[k + 1]) &&
            ms[i] !in r && forall m :: m in ms <==> m in r || m == ms[i]
  {
    var r := RemoveAt(ms, i);
    assert forall k :: 0 <= k < |r| ==> r[k] == if k < i then ms[k] else ms[k + 1];
    assert ms == ms[..i] + [ms[i]] + ms[i + 1..];
  }

  lemma {:induction false} AppendedKeys(ms: seq<Member>, m: Member)
    requires Distinct(ms) && m.key !in Keys(ms)
    ensures Distinct(ms + [m]) && Keys(ms + [m]) == Keys(ms) + {m.key}
    ensures forall x :: x in ms + [m] <==> x in ms || x == m
  {
    assert forall i :: 0 <= i < |ms| ==> ms[i] in ms && ms[i].key in Keys(ms);
  }

  lemma {:induction false} AppendedMeaning(ms: seq<Member>, m: Member)
    requires m.key !in Keys(ms)
    ensures SemMembers(ms + [m]) == SemMembers(ms)[m.key := Sem(m.value)]
  {
    if ms == [] {
      assert ms + [m] == [m] && SemMembers([m][1..]) == map[];
    } else {
      assert (ms + [m])[1..] == ms[1..] + [m];
      assert ms[0].key in Keys(ms);
      AppendedMeaning(ms[1..], m);
    }
  }

  lemma {:induction false} RemovedMeaning(ms: seq<Member>, i: nat)
    requires Distinct(ms) && i < |ms|
    ensures SemMembers(RemoveAt(ms, i)) == SemMembers(ms) - {ms[i].key}
  {
    RemoveAtKeys(ms, i);
    SemMembersKeys(ms);
    var r, rest := RemoveAt(ms, i), SemMembers(ms) - {ms[i].key};
    forall j | 0 <= j < |r|
      ensures r[j].key in rest && rest[r[j].key] == Sem(r[j].value)
    {
      StaysAt(ms, i, j);
    }
    SemMembersIs(r, rest);
  }

  lemma {:induction false} StaysAt(ms: seq<Member>, i: nat, j: nat)
    requires Distinct(ms) && i < |ms| && j < |RemoveAt(ms, i)|
    ensures var m := RemoveAt(ms, i)[j];
            m.key != ms[i].key && m.key in SemMembers(ms) && SemMembers(ms)[m.key] == Sem(m.value)
  {
    RemoveAtPlaces(ms, i);
    SemMembersAt(ms, if j < i then j else j + 1);
  }

  /** Deleting a key takes it out of the meaning and leaves the rest. */
  lemma {:induction false} DeletedMeaning(ms: seq<Member>, name: string, cs: bool, keys: iset<string>)
    requires Unambiguous(keys, cs) && KeysIn(ms, keys) && name in keys && Distinct(ms)
    ensures var r := DeleteKey(ms, name, cs);
            Distinct(r) && KeysIn(r, keys) && name !in Keys(r) && SemMembers(r) == SemMembers(ms) - {name} &&
            forall m :: m in r ==> m in ms
  {
    SemMembersKeys(ms);
    var i := FindKey(ms, name, cs);
    if i < |ms| {
      SameKeyIsEqual(keys, ms[i].key, name, cs);
      RemoveAtKeys(ms, i);
      RemovedMeaning(ms, i);
    } else {
      forall m | m in ms
        ensures m.key != name
      {
        var k :| 0 <= k < |ms| && ms[k] == m;
        SameKeyIsEqual(keys, ms[k].key, name, cs);
      }
    }
  }

  // ----- sorting

  ghost predicate Increasing(ms: seq<Member>, cs: bool) {
    forall i, j :: 0 <= i < j < |ms| ==> CompareStrings(ms[i].key, ms[j].key, cs) < 0
  }

  ghost predicate Nondecreasing(ms: seq<Member>, cs: bool) {
    forall i, j :: 0 <= i < j < |ms| ==> CompareStrings(ms[i].key, ms[j].key, cs) <= 0
  }

  /** Behind members with keys that compare equal. */
  function InsertSorted(m: Member, ms: seq<Member>, cs: bool): seq<Member> {
    if ms == [] || CompareStrings(m.key, ms[0].key, cs) < 0 then [m] + ms
    else [ms[0]] + InsertSorted(m, ms[1..], cs)
  }

  /** The members in key order: what sort_object leaves behind. */
  function SortMembers(ms: seq<Member>, cs: bool): seq<Member> {
    if ms == [] then [] else InsertSorted(ms[0], SortMembers(ms[1..], cs), cs)
  }

  lemma {:induction false} InsertSortedPermutes(m: Member, ms: seq<Member>, cs: bool)
    ensures multiset(InsertSorted(m, ms, cs)) == multiset(ms) + multiset{m}
  {
    if ms != [] && CompareStrings(m.key, ms[0].key, cs) >= 0 {
      InsertSortedPermutes(m, ms[1..], cs);
      assert ms == [ms[0]] + ms[1..];
    }
  }

  ghost predicate LowerBound(key: string, ms: seq<Member>, cs: bool) {
    forall m :: m in ms ==> CompareStrings(key, m.key, cs) <= 0
  }

  lemma {:induction false} ConsSorted(m: Member, ms: seq<Member>, cs: bool)
    requires Nondecreasing(ms, cs) && LowerBound(m.key, ms, cs)
    ensures Nondecreasing([m] + ms, cs)
  {
    var r := [m] + ms;
    forall i, j | 0 <= i < j < |r|
      ensures CompareStrings(r[i].key, r[j].key, cs) <= 0
    {
      assert r[j] in ms;
    }
  }

  lemma {:induction false} HeadIsLowerBound(key: string, ms: seq<Member>, cs: bool)
    requires Nondecreasing(ms, cs) && ms != [] && CompareStrings(key, ms[0].key, cs) <= 0
    ensures LowerBound(key, ms, cs)
  {
    forall m | m in ms
      ensures CompareStrings(key, m.key, cs) <= 0
    {
      var i :| 0 <= i < |ms| && ms[i] == m;
      if i > 0 { CmpTransitive(Folded(key, cs), Folded(ms[0].key, cs), Folded(m.key, cs)); }
    }
  }

  lemma {:induction false} InsertSortedSorts(m: Member, ms: seq<Member>, cs: bool)
    requires Nondecreasing(ms, cs)
    ensures Nondecreasing(InsertSorted(m, ms, cs), cs)
  {
    if ms == [] {
    } else if CompareStrings(m.key, ms[0].key, cs) < 0 {
      HeadIsLowerBound(m.key, ms, cs);
      ConsSorted(m, ms, cs);
    } else {
      var rest := InsertSorted(m, ms[1..], cs);
      InsertSortedSorts(m, ms[1..], cs);
      InsertSortedPermutes(m, ms[1..], cs);
      CmpFlip(Folded(ms[0].key, cs), Folded(m.key, cs));
      CmpZero(Folded(m.key, cs), Folded(ms[0].key, cs));
      CmpZero(Folded(ms[0].key, cs), Folded(m.key, cs));
      forall x | x in rest
        ensures CompareStrings(ms[0].key, x.key, cs) <= 0
      {
        assert x in multiset(rest);
        assert x == m || x in ms[1..];
      }
      ConsSorted(ms[0], rest, cs);
    }
  }

  lemma {:induction false} SortMembersKeeps(ms: seq<Member>, cs: bool)
    ensures multiset(SortMembers(ms, cs)) == multiset(ms)
    ensures Nondecreasing(SortMembers(ms, cs), cs)
  {
    if ms != [] {
      assert ms == [ms[0]] + ms[1..];
      SortMembersKeeps(ms[1..], cs);
      InsertSortedPermutes(ms[0], SortMembers(ms[1..], cs), cs);
      InsertSortedSorts(ms[0], SortMembers(ms[1..], cs), cs);
    }
  }

  /** Distinct keys stay distinct under permutation. */
  lemma {:induction false} DistinctPermutation(ms: seq<Member>, ns: seq<Member>)
    requires Distinct(ms) && multiset(ms) == multiset(ns)
    ensures Distinct(ns) && |ms| == |ns| && Keys(ms) == Keys(ns)
    ensures forall m :: m in ms <==> m in ns
  {
    assert |ms| == |multiset(ms)| == |multiset(ns)| == |ns|;
    assert forall m :: m in ms <==> m in multiset(ms);
    assert forall m :: m in ns <==> m in multiset(ns);
    forall i, j | 0 <= i < j < |ns|
      ensures ns[i].key != ns[j].key
    {
      assert ns[i] in ms && ns[j] in ms;
      var a :| 0 <= a < |ms| && ms[a] == ns[i];
      if ns[i] == ns[j] {
        assert ns == ns[..j] + [ns[j]] + ns[j + 1..];
        assert ns[i] in ns[..j];
        DistinctOnce(ms, a);
      }
    }
  }

  lemma {:induction false} DistinctOnce(ms: seq<Member>, a: nat)
    requires Distinct(ms) && a < |ms|
    ensures multiset(ms)[ms[a]] == 1
  {
    assert ms == ms[..a] + [ms[a]] + ms[a + 1..];
    assert ms[a] !in ms[..a] && ms[a] !in ms[a + 1..];
  }

  /** Sorting an object with coherent, distinct keys gives strictly increasing keys, and
      the same members. */
  lemma {:induction false} SortedObject(ms: seq<Member>, cs: bool, keys: iset<string>)
    requires Unambiguous(keys, cs) && KeysIn(ms, keys) && Distinct(ms)
    ensures var r := SortMembers(ms, cs);
            Increasing(r, cs) && Distinct(r) && KeysIn(r, keys) && Keys(r) == Keys(ms) && |r| == |ms| &&
            (forall m :: m in r <==> m in ms) && SemMembers(r) == SemMembers(ms)
  {
    var r := SortMembers(ms, cs);
    SortMembersKeeps(ms, cs);
    DistinctPermutation(ms, r);
    assert KeysIn(r, keys) by { forall i | 0 <= i < |r| ensures r[i].key in keys { assert r[i] in ms; } }
    forall i, j | 0 <= i < j < |r|
      ensures CompareStrings(r[i].key, r[j].key, cs) < 0
    {
      CmpZero(Folded(r[i].key, cs), Folded(r[j].key, cs));
      SameKeyIsEqual(keys, r[i].key, r[j].key, cs);
    }
    SamePairsSameMeaning(r, ms);
  }

  lemma {:induction false} SameFirst(a: seq<Member>, b: seq<Member>, cs: bool)
    requires Increasing(a, cs) && Increasing(b, cs) && a != [] && b != []
    requires a[0] in b && b[0] in a
    ensures a[0] == b[0]
  {
    var i :| 0 <= i < |b| && b[i] == a[0];
    var j :| 0 <= j < |a| && a[j] == b[0];
    CmpFlip(Folded(a[0].key, cs), Folded(b[0].key, cs));
    assert i > 0 ==> CompareStrings(b[0].key, b[i].key, cs) < 0;
    assert j > 0 ==> CompareStrings(a[0].key, a[j].key, cs) < 0;
  }

  lemma {:induction false} HeadOnce(a: seq<Member>, cs: bool)
    requires Increasing(a, cs) && a != []
    ensures forall m :: m in a[1..] <==> m in a && m != a[0]
  {
    CmpZero(Folded(a[0].key, cs), Folded(a[0].key, cs));
    assert a == [a[0]] + a[1..];
  }

  /** Only one arrangement of a set of members increases strictly. */
  lemma {:induction false} IncreasingUnique(a: seq<Member>, b: seq<Member>, cs: bool)
    requires Increasing(a, cs) && Increasing(b, cs)
    requires forall m :: m in a <==> m in b
    ensures a == b
  {
    assert a != [] ==> a[0] in a;
    assert b != [] ==> b[0] in b;
    if a != [] && b != [] {
      SameFirst(a, b, cs);
      HeadOnce(a, cs);
      HeadOnce(b, cs);
      IncreasingUnique(a[1..], b[1..], cs);
      assert a == [a[0]] + a[1..] && b == [b[0]] + b[1..];
    }
  }

  lemma {:induction false} SamePairsSameMeaning(ms: seq<Member>, ns: seq<Member>)
    requires Distinct(ms) && Distinct(ns) && forall m :: m in ms <==> m in ns
    ensures SemMembers(ms) == SemMembers(ns)
  {
    SemMembersKeys(ns);
    assert Keys(ms) == Keys(ns);
    forall i | 0 <= i < |ms|
      ensures SemMembers(ns)[ms[i].key] == Sem(ms[i].value)
    {
      assert ms[i] in ns;
      var k :| 0 <= k < |ns| && ns[k] == ms[i];
      SemMembersAt(ns, k);
    }
    SemMembersIs(ms, SemMembers(ns));
  }

  lemma {:induction false} DropIncreases(s: seq<Member>, q: nat, cs: bool)
    requires Increasing(s, cs) && q < |s|
    ensures Increasing(RemoveAt(s, q), cs)
  {
    var r := RemoveAt(s, q);
    forall i, j | 0 <= i < j < |r|
      ensures CompareStrings(r[i].key, r[j].key, cs) < 0
    {
      assert r[i] == s[if i < q then i else i + 1] && r[j] == s[if j < q then j else j + 1];
    }
  }

  /** Where a member stands in the sorted list. */
  lemma {:induction false} SortedAt(ms: seq<Member>, i: nat, cs: bool, keys: iset<string>) returns (q: nat)
    requires Distinct(ms) && KeysIn(ms, keys) && Unambiguous(keys, cs) && i < |ms|
    ensures var s := SortMembers(ms, cs); q < |s| && s[q] == ms[i] && Distinct(s) && forall m :: m in s ==> m in ms
  {
    SortedObject(ms, cs, keys);
    assert ms[i] in SortMembers(ms, cs);
    q :| 0 <= q < |SortMembers(ms, cs)| && SortMembers(ms, cs)[q] == ms[i];
  }

  /** Sorting commutes with dropping a member. */
  lemma {:induction false} DroppedFromSorted(ms: seq<Member>, i: nat, q: nat, s: seq<Member>, cs: bool,
      keys: iset<string>)
    requires Distinct(ms) && KeysIn(ms, keys) && Unambiguous(keys, cs) && i < |ms|
    requires s == SortMembers(ms, cs) && q < |s| && s[q] == ms[i]
    ensures SortMembers(RemoveAt(ms, i), cs) == RemoveAt(s, q)
  {
    var ns := RemoveAt(ms, i);
    SortedObject(ms, cs, keys);
    RemoveAtKeys(ms, i);
    RemoveAtKeys(s, q);
    forall k | 0 <= k < |ns|
      ensures ns[k].key in keys
    {
      assert ns[k] in ms;
    }
    SortedObject(ns, cs, keys);
    DropIncreases(s, q, cs);
    IncreasingUnique(SortMembers(ns, cs), RemoveAt(s, q), cs);
  }

  lemma {:induction false} Cut(s: seq<Member>, q: nat) returns (front: seq<Member>, rest: seq<Member>)
    requires Distinct(s) && q < |s|
    ensures front == s[..q] && rest == s[q + 1..] && s == front + ([s[q]] + rest) && RemoveAt(s, q) == front + rest
    ensures Distinct([s[q]] + rest) && forall x :: x in rest ==> x in s
  {
    front, rest := s[..q], s[q + 1..];
    assert [s[q]] + rest == s[q..];
  }

  lemma {:induction false} InsertSortedHeight(m: Member, ms: seq<Member>, cs: bool)
    ensures MembersHeight(InsertSorted(m, ms, cs)) == Max(1 + Height(m.value), MembersHeight(ms))
  {
    var r := InsertSorted(m, ms, cs);
    if ms == [] || CompareStrings(m.key, ms[0].key, cs) < 0 {
      assert r[1..] == ms;
    } else {
      InsertSortedHeight(m, ms[1..], cs);
      assert r[1..] == InsertSorted(m, ms[1..], cs);
    }
  }

  lemma {:induction false} SortMembersHeight(ms: seq<Member>, cs: bool)
    ensures MembersHeight(SortMembers(ms, cs)) == MembersHeight(ms)
  {
    if ms != [] {
      SortMembersHeight(ms[1..], cs);
      InsertSortedHeight(ms[0], SortMembers(ms[1..], cs), cs);
    }
  }
}
