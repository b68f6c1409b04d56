/** The two equalities of the library. */
module Compare {
  // compare_json sorts both objects and walks them in step, cJSON_Compare looks every key up on
  // both sides. Numbers are ints, for which compare_double is plain equality.

  import opened Json
  import opened KeyOrder
  import opened Members
  import opened Patch

  /** compare_json, as a function of the two trees. */
  function CompareJson(a: JSON, b: JSON, cs: bool): bool
    decreases Height(a), 1, 0
  {
    SameType(a, b) &&
    match a
    case Number(n) => n == b.n
    case Str(s) => s == b.s
    case Array(items) => CompareItems(items, b.items, cs)
    case Object(ms) =>
      SortMembersHeight(ms, cs);
      CompareMembers(SortMembers(ms, cs), SortMembers(b.members, cs), cs)
    case _ => true
  }

  function CompareItems(a: seq<JSON>, b: seq<JSON>, cs: bool): bool
    decreases ItemsHeight(a), 0, |a|
  {
    if a == [] || b == [] then a == [] && b == []
    else CompareJson(a[0], b[0], cs) && CompareItems(a[1..], b[1..], cs)
  }

  function CompareMembers(a: seq<Member>, b: seq<Member>, cs: bool): bool
    decreases MembersHeight(a), 0, |a|
  {
    if a == [] || b == [] then a == [] && b == []
    else
      CompareStrings(a[0].key, b[0].key, cs) == 0 &&
      CompareJson(a[0].value, b[0].value, cs) &&
      CompareMembers(a[1..], b[1..], cs)
  }

  /** cJSON_Compare. */
  function CompareByLookup(a: JSON, b: JSON, cs: bool): bool
    decreases Height(a) + Height(b), 2, 0
  {
    SameType(a, b) &&
    match a
    case Number(n) => n == b.n
    case Str(s) => s == b.s
    case Array(items) => ItemsByLookup(items, b.items, cs)
    case Object(ms) => Covers(ms, b.members, cs) && Covers(b.members, ms, cs)
    case _ => true
  }

  function ItemsByLookup(a: seq<JSON>, b: seq<JSON>, cs: bool): bool
    decreases ItemsHeight(a) + ItemsHeight(b), 1, |a|
  {
    if a == [] || b == [] then a == [] && b == []
    else CompareByLookup(a[0], b[0], cs) && ItemsByLookup(a[1..], b[1..], cs)
  }

  /** Every member of a has an equal counterpart under its key in b. */
  function Covers(a: seq<Member>, b: seq<Member>, cs: bool): bool
    decreases MembersHeight(a) + MembersHeight(b), 1, |a|
  {
    if a == [] then true
    else
      var i := FindKey(b, a[0].key, cs);
      if i == |b| then false
      else
        MemberHeight(b, i);
        CompareByLookup(a[0].value, b[i].value, cs) && Covers(a[1..], b, cs)
  }

  // ----- both are unordered equality

  lemma {:induction false} CompareJsonExact(a: JSON, b: JSON, cs: bool, keys: iset<string>)
    requires Good(a, keys) && Good(b, keys) && Unambiguous(keys, cs)
    ensures CompareJson(a, b, cs) <==> Sem(a) == Sem(b)
    decreases Height(a), 1, 0
  {
    if SameType(a, b) {
      match a
      case Array(items) => CompareItemsExact(items, b.items, cs, keys);
      case Object(ms) =>
        SortMembersHeight(ms, cs);
        SortedObject(ms, cs, keys);
        SortedObject(b.members, cs, keys);
        var fs, ts := SortMembers(ms, cs), SortMembers(b.members, cs);
        assert forall i :: 0 <= i < |fs| ==> fs[i] in ms;
        assert forall i :: 0 <= i < |ts| ==> ts[i] in b.members;
        CompareMembersExact(fs, ts, cs, keys);
      case _ =>
    }
  }

  lemma {:induction false} CompareItemsExact(a: seq<JSON>, b: seq<JSON>, cs: bool, keys: iset<string>)
    requires forall i :: 0 <= i < |a| ==> Good(a[i], keys)
    requires forall i :: 0 <= i < |b| ==> Good(b[i], keys)
    requires Unambiguous(keys, cs)
    ensures CompareItems(a, b, cs) <==> SemItems(a) == SemItems(b)
    decreases ItemsHeight(a), 0, |a|
  {
    if a != [] && b != [] {
      CompareJsonExact(a[0], b[0], cs, keys);
      CompareItemsExact(a[1..], b[1..], cs, keys);
      assert SemItems(a)[0] == Sem(a[0]) && SemItems(b)[0] == Sem(b[0]);
      assert SemItems(a)[1..] == SemItems(a[1..]) && SemItems(b)[1..] == SemItems(b[1..]);
    }
  }

  /** Increasing lists of the same meaning start with the same key. */
  lemma {:induction false} SameHead(a: seq<Member>, b: seq<Member>, cs: bool)
    requires Increasing(a, cs) && Increasing(b, cs) && a != [] && b != []
    requires Keys(a) == Keys(b)
    ensures a[0].key == b[0].key
  {
    assert a[0].key in Keys(a) && b[0].key in Keys(b);
    var i :| 0 <= i < |a| && a[i].key == b[0].key;
    var j :| 0 <= j < |b| && b[j].key == a[0].key;
    if i > 0 && j > 0 {
      CmpFlip(Folded(a[0].key, cs), Folded(b[0].key, cs));
      assert CompareStrings(a[0].key, a[i].key, cs) < 0 && CompareStrings(b[0].key, b[j].key, cs) < 0;
      CmpFlip(Folded(a[0].key, cs), Folded(b[0].key, cs));
      assert false;
    }
  }

  lemma {:induction false} SemSplit(a: seq<Member>, b: seq<Member>)
    requires Distinct(a) && Distinct(b) && a != [] && b != [] && a[0].key == b[0].key
    ensures SemMembers(a) == SemMembers(b) <==>
            Sem(a[0].value) == Sem(b[0].value) && SemMembers(a[1..]) == SemMembers(b[1..])
  {
    var k := a[0].key;
    SemMembersKeys(a[1..]);
    SemMembersKeys(b[1..]);
    assert k !in SemMembers(a[1..]) && k !in SemMembers(b[1..]);
    assert SemMembers(a) - {k} == SemMembers(a[1..]) && SemMembers(b) - {k} == SemMembers(b[1..]);
    assert SemMembers(a)[k] == Sem(a[0].value) && SemMembers(b)[k] == Sem(b[0].value);
  }

  lemma {:induction false} CompareMembersExact(a: seq<Member>, b: seq<Member>, cs: bool, keys: iset<string>)
    requires forall i :: 0 <= i < |a| ==> Good(a[i].value, keys)
    requires forall i :: 0 <= i < |b| ==> Good(b[i].value, keys)
    requires KeysIn(a, keys) && KeysIn(b, keys) && Distinct(a) && Distinct(b)
    requires Increasing(a, cs) && Increasing(b, cs) && Unambiguous(keys, cs)
    ensures CompareMembers(a, b, cs) <==> SemMembers(a) == SemMembers(b)
    decreases MembersHeight(a), 0, |a|
  {
    SemMembersKeys(a);
    SemMembersKeys(b);
    if a == [] || b == [] {
      if a != [] { assert a[0].key in Keys(a); }
      if b != [] { assert b[0].key in Keys(b); }
    } else {
      CmpZero(Folded(a[0].key, cs), Folded(b[0].key, cs));
      SameKeyIsEqual(keys, a[0].key, b[0].key, cs);
      CompareJsonExact(a[0].value, b[0].value, cs, keys);
      CompareMembersExact(a[1..], b[1..], cs, keys);
      if Keys(a) == Keys(b) { SameHead(a, b, cs); }
      if a[0].key == b[0].key { SemSplit(a, b); }
    }
  }

  lemma {:induction false} CompareByLookupExact(a: JSON, b: JSON, cs: bool, keys: iset<string>)
    requires Good(a, keys) && Good(b, keys) && Unambiguous(keys, cs)
    ensures CompareByLookup(a, b, cs) <==> Sem(a) == Sem(b)
    decreases Height(a) + Height(b), 2, 0
  {
    if SameType(a, b) {
      match a
      case Array(items) => ItemsByLookupExact(items, b.items, cs, keys);
      case Object(ms) =>
        CoversExact(ms, b.members, cs, keys);
        CoversExact(b.members, ms, cs, keys);
        if Included(ms, b.members) && Included(b.members, ms) { IncludedBothWays(ms, b.members); }
        if SemMembers(ms) == SemMembers(b.members) {
          SameIncluded(ms, b.members);
          SameIncluded(b.members, ms);
        }
      case _ =>
    }
  }

  lemma {:induction false} ItemsByLookupExact(a: seq<JSON>, b: seq<JSON>, cs: bool, keys: iset<string>)
    requires forall i :: 0 <= i < |a| ==> Good(a[i], keys)
    requires forall i :: 0 <= i < |b| ==> Good(b[i], keys)
    requires Unambiguous(keys, cs)
    ensures ItemsByLookup(a, b, cs) <==> SemItems(a) == SemItems(b)
    decreases ItemsHeight(a) + ItemsHeight(b), 1, |a|
  {
    if a != [] && b != [] {
      CompareByLookupExact(a[0], b[0], cs, keys);
      ItemsByLookupExact(a[1..], b[1..], cs, keys);
      assert SemItems(a)[0] == Sem(a[0]) && SemItems(b)[0] == Sem(b[0]);
      assert SemItems(a)[1..] == SemItems(a[1..]) && SemItems(b)[1..] == SemItems(b[1..]);
    }
  }

  /** Each member of a pairs its key with what b means by it. */
  ghost predicate Included(a: seq<Member>, b: seq<Member>) {
    forall i :: 0 <= i < |a| ==>
      a[i].key in SemMembers(b) && SemMembers(b)[a[i].key] == Sem(a[i].value)
  }

  lemma {:induction false} CoversExact(a: seq<Member>, b: seq<Member>, cs: bool, keys: iset<string>)
    requires forall i :: 0 <= i < |a| ==> Good(a[i].value, keys)
    requires forall i :: 0 <= i < |b| ==> Good(b[i].value, keys)
    requires KeysIn(a, keys) && KeysIn(b, keys) && Distinct(b) && Unambiguous(keys, cs)
    ensures Covers(a, b, cs) <==> Included(a, b)
    decreases MembersHeight(a) + MembersHeight(b), 1, |a|
  {
    if a != [] {
      CoversExact(a[1..], b, cs, keys);
      IncludedSplit(a, b);
      var i := FindKey(b, a[0].key, cs);
      if i < |b| {
        MemberHeight(b, i);
        CompareByLookupExact(a[0].value, b[i].value, cs, keys);
      }
      HeadIncluded(a, b, i, cs, keys);
    }
  }

  ghost predicate HasMeaning(m: Member, b: seq<Member>) {
    m.key in SemMembers(b) && SemMembers(b)[m.key] == Sem(m.value)
  }

  lemma {:induction false} IncludedSplit(a: seq<Member>, b: seq<Member>)
    requires a != []
    ensures Included(a, b) <==> HasMeaning(a[0], b) && Included(a[1..], b)
  {
    assert a == [a[0]] + a[1..];
    assert forall i :: 0 < i < |a| ==> a[i] == a[1..][i - 1];
  }

  lemma {:induction false} HeadIncluded(a: seq<Member>, b: seq<Member>, i: nat, cs: bool, keys: iset<string>)
    requires a != [] && KeysIn(a, keys) && KeysIn(b, keys) && Distinct(b) && Unambiguous(keys, cs)
    requires i == FindKey(b, a[0].key, cs)
    ensures HasMeaning(a[0], b) <==> i < |b| && Sem(a[0].value) == Sem(b[i].value)
  {
    SemMembersKeys(b);
    if i == |b| {
      FindKeyMissing(b, a[0].key, cs, keys);
    } else {
      SameKeyIsEqual(keys, b[i].key, a[0].key, cs);
      SemMembersAt(b, i);
    }
  }

  lemma {:induction false} FindKeyMissing(b: seq<Member>, k: string, cs: bool, keys: iset<string>)
    requires KeysIn(b, keys) && k in keys && Unambiguous(keys, cs) && FindKey(b, k, cs) == |b|
    ensures k !in Keys(b)
  {
    forall m | m in b
      ensures m.key != k
    {
      var j :| 0 <= j < |b| && b[j] == m;
      SameKeyIsEqual(keys, b[j].key, k, cs);
    }
  }

  lemma {:induction false} IncludedBothWays(a: seq<Member>, b: seq<Member>)
    requires Distinct(a) && Distinct(b) && Included(a, b) && Included(b, a)
    ensures SemMembers(a) == SemMembers(b)
  {
    SemMembersKeys(a);
    SemMembersKeys(b);
    forall k
      ensures k in Keys(a) <==> k in Keys(b)
    {
      if k in Keys(a) { var i :| 0 <= i < |a| && a[i].key == k; }
      if k in Keys(b) { var i :| 0 <= i < |b| && b[i].key == k; }
    }
    SemMembersIs(a, SemMembers(b));
  }

  lemma {:induction false} SameIncluded(a: seq<Member>, b: seq<Member>)
    requires Distinct(a) && SemMembers(a) == SemMembers(b)
    ensures Included(a, b)
  {
    forall i | 0 <= i < |a|
      ensures a[i].key in SemMembers(b) && SemMembers(b)[a[i].key] == Sem(a[i].value)
    {
      SemMembersAt(a, i);
    }
  }

  /** The two equalities agree wherever keys are told apart. */
  lemma {:induction false} ComparisonsAgree(a: JSON, b: JSON, cs: bool, keys: iset<string>)
    requires Good(a, keys) && Good(b, keys) && Unambiguous(keys, cs)
    ensures CompareJson(a, b, cs) == CompareByLookup(a, b, cs) == (Sem(a) == Sem(b))
  {
    CompareJsonExact(a, b, cs, keys);
    CompareByLookupExact(a, b, cs, keys);
  }
}
