/** merge_patch and generate_merge_patch. */
module MergePatch {
  import opened Json
  import opened KeyOrder
  import opened Members
  import opened Compare
  import opened Merge
  import opened Patch

  /** merge_patch. None stands for NULL, both as a target and as a failed result:
      duplication gives up on trees that are too deep. */
  function MergeInto(target: Option<JSON>, patch: JSON, cs: bool): Option<JSON>
    decreases patch, 1
  {
    match patch
    case Object(ps) =>
      (match MergeMembers(MembersOf(target), ps, cs)
       case None => None
       case Some(ms) => Some(Object(ms)))
    case _ => if Height(patch) <= CIRCULAR_LIMIT then Some(patch) else None
  }

  function MembersOf(target: Option<JSON>): seq<Member> {
    match target
    case Some(Object(ms)) => ms
    case _ => []
  }

  function Found(ms: seq<Member>, name: string, cs: bool): Option<JSON> {
    var i := FindKey(ms, name, cs);
    if i < |ms| then Some(ms[i].value) else None
  }

  /** The loop over the children of the patch: a null deletes, anything else detaches the
      old member and appends the merged one. */
  function MergeMembers(ms: seq<Member>, ps: seq<Member>, cs: bool): Option<seq<Member>>
    decreases ps, 0
  {
    if ps == [] then Some(ms)
    else if ps[0].value.Null? then MergeMembers(DeleteKey(ms, ps[0].key, cs), ps[1..], cs)
    else
      match MergeInto(Found(ms, ps[0].key, cs), ps[0].value, cs)
      case None => None
      case Some(v) => MergeMembers(DeleteKey(ms, ps[0].key, cs) + [Member(ps[0].key, v)], ps[1..], cs)
  }

  /** Every part of the patch that is duplicated is shallow enough. */
  predicate Copyable(patch: JSON)
    decreases patch, 1
  {
    match patch
    case Object(ps) => MembersCopyable(ps)
    case _ => Height(patch) <= CIRCULAR_LIMIT
  }

  predicate MembersCopyable(ps: seq<Member>)
    decreases ps, 0
  {
    ps == [] || (Copyable(ps[0].value) && MembersCopyable(ps[1..]))
  }

  function Meaning(target: Option<JSON>): Val {
    match target
    case None => VNull
    case Some(j) => Sem(j)
  }

  /** A document whose outermost object has its keys in `top`; keys further down are in
      `keys`. */
  ghost predicate Outer(j: JSON, top: iset<string>, keys: iset<string>) {
    match j
    case Object(ms) => GoodMembers(ms, top, keys)
    case _ => Good(j, keys)
  }

  ghost predicate GoodTarget(target: Option<JSON>, top: iset<string>, keys: iset<string>) {
    target.Some? ==> Outer(target.value, top, keys)
  }

  /** merge_patch computes MergePatch of RFC 7396, and fails exactly on patches that
      cannot be duplicated. */
  lemma {:induction false} MergeIntoExact(target: Option<JSON>, patch: JSON, cs: bool, top: iset<string>,
      keys: iset<string>)
    requires GoodTarget(target, top, keys) && Outer(patch, top, keys) && Unambiguous(top, cs) && Unambiguous(keys, cs)
    ensures MergeInto(target, patch, cs).Some? <==> Copyable(patch)
    ensures var r := MergeInto(target, patch, cs);
            r.Some? ==> Outer(r.value, top, keys) && Sem(r.value) == MergeVal(Meaning(target), Sem(patch))
    decreases patch, 1
  {
    if patch.Object? {
      var ms := MembersOf(target);
      MergeNothing(SemMembers(ms));
      assert SemMembers(ms) == ObjectOf(Meaning(target));
      MergeMembersExact(ms, patch.members, SemMembers(ms), map[], cs, top, keys);
      EmptyPlus(SemMembers(patch.members));
    }
  }

  lemma {:induction false} EmptyPlus(m: map<string, Val>)
    ensures map[] + m == m
  {
  }

  lemma {:induction false} MergeNothing(t: map<string, Val>)
    ensures MergeMap(t, map[]) == t
  {
  }

  /** One more member of the patch: what the merge of maps does to one key. */
  lemma {:induction false} MergeOne(t: map<string, Val>, p: map<string, Val>, k: string, v: Val)
    requires k !in p
    ensures MergeMap(t, p[k := v]) ==
            if v == VNull then MergeMap(t, p) - {k} else MergeMap(t, p)[k := MergeVal(Get(t, k), v)]
    ensures Get(MergeMap(t, p), k) == Get(t, k)
  {
  }

  ghost predicate GoodMembers(ms: seq<Member>, top: iset<string>, keys: iset<string>) {
    Distinct(ms) && KeysIn(ms, top) && forall i :: 0 <= i < |ms| ==> Good(ms[i].value, keys)
  }

  /** The loop, with t the meaning of the original target and p that of the members of
      the patch treated so far. */
  lemma {:induction false} MergeMembersExact(ms: seq<Member>, ps: seq<Member>, t: map<string, Val>, p: map<string, Val>,
      cs: bool, top: iset<string>, keys: iset<string>)
    requires GoodMembers(ms, top, keys) && GoodMembers(ps, top, keys) && Unambiguous(top, cs) && Unambiguous(keys, cs)
    requires SemMembers(ms) == MergeMap(t, p) && p.Keys !! Keys(ps)
    ensures MergeMembers(ms, ps, cs).Some? <==> MembersCopyable(ps)
    ensures var r := MergeMembers(ms, ps, cs);
            r.Some? ==> GoodMembers(r.value, top, keys) && SemMembers(r.value) == MergeMap(t, p + SemMembers(ps))
    decreases ps, 0
  {
    if ps == [] {
      assert p + SemMembers(ps) == p;
    } else {
      var k, v, w := ps[0].key, ps[0].value, Sem(ps[0].value);
      HeadKey(ps, p, top, keys);
      var rest := DeleteKey(ms, k, cs);
      DeletedMeaning(ms, k, cs, top);
      DeletedGood(ms, k, cs, top, keys);
      MergeOne(t, p, k, w);
      if v.Null? {
        MergeMembersExact(rest, ps[1..], t, p[k := w], cs, top, keys);
      } else {
        FoundMeaning(ms, k, cs, top, keys);
        MergeIntoExact(Found(ms, k, cs), v, cs, keys, keys);
        var x := MergeInto(Found(ms, k, cs), v, cs);
        if x.Some? {
          assert w != VNull;
          AppendedGood(rest, Member(k, x.value), top, keys);
          PutBack(SemMembers(ms), k, Sem(x.value));
          MergeMembersExact(rest + [Member(k, x.value)], ps[1..], t, p[k := w], cs, top, keys);
        }
      }
    }
  }

  lemma {:induction false} AppendedGood(ms: seq<Member>, m: Member, top: iset<string>, keys: iset<string>)
    requires GoodMembers(ms, top, keys) && m.key !in Keys(ms) && m.key in top && Good(m.value, keys)
    ensures GoodMembers(ms + [m], top, keys) && SemMembers(ms + [m]) == SemMembers(ms)[m.key := Sem(m.value)]
  {
    AppendedKeys(ms, m);
    AppendedMeaning(ms, m);
  }

  lemma {:induction false} PutBack(m: map<string, Val>, k: string, v: Val)
    ensures (m - {k})[k := v] == m[k := v]
  {
  }

  lemma {:induction false} HeadKey(ps: seq<Member>, p: map<string, Val>, top: iset<string>, keys: iset<string>)
    requires GoodMembers(ps, top, keys) && ps != [] && p.Keys !! Keys(ps)
    ensures ps[0].key in top && ps[0].key !in p && GoodMembers(ps[1..], top, keys)
    ensures p[ps[0].key := Sem(ps[0].value)].Keys !! Keys(ps[1..])
    ensures p[ps[0].key := Sem(ps[0].value)] + SemMembers(ps[1..]) == p + SemMembers(ps)
  {
    assert ps[0].key in Keys(ps) by { assert ps[0] in ps; }
    assert forall m :: m in ps[1..] ==> m in ps && m.key != ps[0].key;
    SemMembersKeys(ps[1..]);
    PutLater(p, SemMembers(ps[1..]), ps[0].key, Sem(ps[0].value));
  }

  lemma {:induction false} PutLater(a: map<string, Val>, b: map<string, Val>, k: string, v: Val)
    requires k !in b
    ensures a[k := v] + b == a + b[k := v]
  {
  }

  lemma {:induction false} DeletedGood(ms: seq<Member>, name: string, cs: bool, top: iset<string>, keys: iset<string>)
    requires GoodMembers(ms, top, keys) && Unambiguous(top, cs) && Unambiguous(keys, cs) && name in top
    ensures GoodMembers(DeleteKey(ms, name, cs), top, keys)
  {
    DeletedMeaning(ms, name, cs, top);
    var r := DeleteKey(ms, name, cs);
    forall i | 0 <= i < |r|
      ensures Good(r[i].value, keys)
    {
      assert r[i] in ms;
    }
  }

  lemma {:induction false} FoundMeaning(ms: seq<Member>, name: string, cs: bool, top: iset<string>, keys: iset<string>)
    requires GoodMembers(ms, top, keys) && Unambiguous(top, cs) && Unambiguous(keys, cs) && name in top
    ensures Meaning(Found(ms, name, cs)) == Get(SemMembers(ms), name) && GoodTarget(Found(ms, name, cs), keys, keys)
  {
    var i := FindKey(ms, name, cs);
    SemMembersKeys(ms);
    if i < |ms| {
      SameKeyIsEqual(top, ms[i].key, name, cs);
      SemMembersAt(ms, i);
    } else {
      DeletedMeaning(ms, name, cs, top);
    }
  }

  lemma {:induction false} ShallowIsCopyable(j: JSON)
    requires Height(j) <= CIRCULAR_LIMIT
    ensures Copyable(j)
    decreases j, 1
  {
    if j.Object? { ShallowMembersCopyable(j.members); }
  }

  lemma {:induction false} ShallowMembersCopyable(ms: seq<Member>)
    requires MembersHeight(ms) <= CIRCULAR_LIMIT
    ensures MembersCopyable(ms)
    decreases ms, 0
  {
    if ms != [] {
      ShallowIsCopyable(ms[0].value);
      ShallowMembersCopyable(ms[1..]);
    }
  }

  // ----- generation

  /** generate_merge_patch on two trees; None is the NULL it returns when two objects need
      no patch. Objects are sorted in the given mode, walked by strcmp in both, and
      recursion always continues without regard to case. */
  function Generate(src: JSON, dst: JSON, cs: bool): Option<JSON>
    decreases Height(src), 1, 0
  {
    if !dst.Object? || !src.Object? then Duplicate(dst)
    else
      SortMembersHeight(src.members, cs);
      var r := GenerateMembers(SortMembers(src.members, cs), SortMembers(dst.members, cs), cs);
      if r == [] then None else Some(Object(r))
  }

  function Duplicate(j: JSON): Option<JSON> {
    if Height(j) <= CIRCULAR_LIMIT then Some(j) else None
  }

  /** Adding a NULL item to an object adds nothing. */
  function Added(key: string, v: Option<JSON>): seq<Member> {
    match v
    case None => []
    case Some(j) => [Member(key, j)]
  }

  function GenerateMembers(fs: seq<Member>, ts: seq<Member>, cs: bool): seq<Member>
    decreases MembersHeight(fs), 0, |fs| + |ts|
  {
    if fs == [] && ts == [] then []
    else
      var diff := if fs == [] then 1 else if ts == [] then -1 else Cmp(fs[0].key, ts[0].key);
      if diff < 0 then [Member(fs[0].key, Null)] + GenerateMembers(fs[1..], ts, cs)
      else if diff > 0 then Added(ts[0].key, Duplicate(ts[0].value)) + GenerateMembers(fs, ts[1..], cs)
      else if CompareJson(fs[0].value, ts[0].value, cs) then GenerateMembers(fs[1..], ts[1..], cs)
      else Added(ts[0].key, Generate(fs[0].value, ts[0].value, false)) + GenerateMembers(fs[1..], ts[1..], cs)
  }

  /** Where two objects are walked, strcmp agrees with the order they are sorted in. In
      case-sensitive mode that is so for the outermost objects whatever their keys are;
      further down the code always sorts without regard to case. */
  ghost predicate WalkAgrees(top: iset<string>, keys: iset<string>, cs: bool) {
    (cs || OrderAgrees(top)) && OrderAgrees(keys)
  }

  /** A member list sorted by strcmp, with good values. */
  ghost predicate Ready(ms: seq<Member>, top: iset<string>, keys: iset<string>) {
    GoodMembers(ms, top, keys) && Increasing(ms, true)
  }

  /** The generated patch is the difference of the two meanings; NULL comes back exactly
      for two equal objects. */
  lemma {:induction false} GenerateExact(src: JSON, dst: JSON, cs: bool, top: iset<string>, keys: iset<string>)
    requires Outer(src, top, keys) && Outer(dst, top, keys) && WalkAgrees(top, keys, cs)
    requires Height(dst) <= CIRCULAR_LIMIT
    ensures var r := Generate(src, dst, cs);
            (r.None? <==> src.Object? && dst.Object? && Sem(src) == Sem(dst)) &&
            (r.Some? ==> Outer(r.value, top, keys) && Sem(r.value) == DiffVal(Sem(src), Sem(dst)) && Copyable(r.value))
    decreases Height(src), 1, 0
  {
    if dst.Object? && src.Object? {
      SortMembersHeight(src.members, cs);
      SortMembersHeight(dst.members, cs);
      SortedIsReady(src.members, cs, top, keys);
      SortedIsReady(dst.members, cs, top, keys);
      var fs, ts := SortMembers(src.members, cs), SortMembers(dst.members, cs);
      GenerateMembersExact(fs, ts, cs, top, keys);
      var r := GenerateMembers(fs, ts, cs);
      DiffEmpty(SemMembers(fs), SemMembers(ts));
      SemMembersKeys(r);
      if r != [] { assert r[0] in r && r[0].key in Keys(r); }
    } else {
      ShallowIsCopyable(dst);
    }
  }

  lemma {:induction false} SortedIsReady(ms: seq<Member>, cs: bool, top: iset<string>, keys: iset<string>)
    requires WalkAgrees(top, keys, cs) && GoodMembers(ms, top, keys)
    ensures Ready(SortMembers(ms, cs), top, keys) && SemMembers(SortMembers(ms, cs)) == SemMembers(ms)
  {
    if !cs { OrderAgreesCoherent(top); }
    SortedObject(ms, cs, top);
    var r := SortMembers(ms, cs);
    forall i | 0 <= i < |r|
      ensures Good(r[i].value, keys)
    {
      assert r[i] in ms;
    }
    assert Increasing(r, true);
  }

  lemma {:induction false} ReadyTail(ms: seq<Member>, top: iset<string>, keys: iset<string>)
    requires Ready(ms, top, keys) && ms != []
    ensures Ready(ms[1..], top, keys) && ms[0].key in top && Good(ms[0].value, keys)
    ensures ms[0].key !in SemMembers(ms[1..])
    ensures SemMembers(ms) == SemMembers(ms[1..])[ms[0].key := Sem(ms[0].value)]
    ensures Height(ms[0].value) < MembersHeight(ms)
  {
    SemMembersKeys(ms[1..]);
    MemberHeight(ms, 0);
  }

  lemma {:induction false} BelowAll(key: string, ms: seq<Member>)
    requires Increasing(ms, true)
    requires ms == [] || Cmp(key, ms[0].key) < 0
    ensures key !in SemMembers(ms)
  {
    SemMembersKeys(ms);
    forall m | m in ms
      ensures m.key != key
    {
      var i :| 0 <= i < |ms| && ms[i] == m;
      if i > 0 { CmpTransitive(key, ms[0].key, m.key); }
      CmpZero(key, m.key);
    }
  }

  lemma {:induction false} DiffDropped(f: map<string, Val>, t: map<string, Val>, k: string, v: Val)
    requires k !in f && k !in t
    ensures DiffMap(f[k := v], t) == DiffMap(f, t)[k := VNull]
    ensures DiffMap(f, t[k := v]) == DiffMap(f, t)[k := v]
  {
  }

  lemma {:induction false} DiffBoth(f: map<string, Val>, t: map<string, Val>, k: string, a: Val, b: Val)
    requires k !in f && k !in t
    ensures DiffMap(f[k := a], t[k := b]) == if a == b then DiffMap(f, t) else DiffMap(f, t)[k := DiffVal(a, b)]
  {
  }

  /** A list with the properties a generated patch has. */
  ghost predicate Made(r: seq<Member>, m: map<string, Val>, top: iset<string>, keys: iset<string>) {
    GoodMembers(r, top, keys) && SemMembers(r) == m && MembersCopyable(r)
  }

  lemma {:induction false} MadeMore(r: seq<Member>, m: map<string, Val>, k: string, v: JSON, top: iset<string>,
      keys: iset<string>)
    requires Made(r, m, top, keys) && k in top && k !in m && Good(v, keys) && Copyable(v)
    ensures Made([Member(k, v)] + r, m[k := Sem(v)], top, keys)
  {
    SemMembersKeys(r);
    ConsGood(Member(k, v), r, top, keys);
    assert ([Member(k, v)] + r)[1..] == r;
  }

  lemma {:induction false} ConsGood(m: Member, ms: seq<Member>, top: iset<string>, keys: iset<string>)
    requires GoodMembers(ms, top, keys) && m.key !in Keys(ms) && m.key in top && Good(m.value, keys)
    ensures GoodMembers([m] + ms, top, keys)
  {
    assert forall i :: 0 <= i < |ms| ==> ms[i] in ms && ms[i].key in Keys(ms);
  }

  lemma {:induction false} GenerateMembersExact(fs: seq<Member>, ts: seq<Member>, cs: bool, top: iset<string>,
      keys: iset<string>)
    requires Ready(fs, top, keys) && Ready(ts, top, keys) && OrderAgrees(keys)
    requires MembersHeight(ts) <= CIRCULAR_LIMIT
    ensures Made(GenerateMembers(fs, ts, cs), DiffMap(SemMembers(fs), SemMembers(ts)), top, keys)
    decreases MembersHeight(fs), 0, |fs| + |ts|
  {
    if fs == [] && ts == [] {
    } else {
      var diff := if fs == [] then 1 else if ts == [] then -1 else Cmp(fs[0].key, ts[0].key);
      if fs != [] { ReadyTail(fs, top, keys); }
      if ts != [] { ReadyTail(ts, top, keys); }
      if diff < 0 {
        var k := fs[0].key;
        GenerateMembersExact(fs[1..], ts, cs, top, keys);
        BelowAll(k, ts);
        DiffDropped(SemMembers(fs[1..]), SemMembers(ts), k, Sem(fs[0].value));
        MadeMore(GenerateMembers(fs[1..], ts, cs), DiffMap(SemMembers(fs[1..]), SemMembers(ts)), k, Null, top, keys);
      } else if diff > 0 {
        var k, v := ts[0].key, ts[0].value;
        GenerateMembersExact(fs, ts[1..], cs, top, keys);
        if fs != [] { CmpFlip(k, fs[0].key); }
        BelowAll(k, fs);
        DiffDropped(SemMembers(fs), SemMembers(ts[1..]), k, Sem(v));
        ShallowIsCopyable(v);
        MadeMore(GenerateMembers(fs, ts[1..], cs), DiffMap(SemMembers(fs), SemMembers(ts[1..])), k, v, top, keys);
      } else {
        CmpZero(fs[0].key, ts[0].key);
        GenerateMembersExact(fs[1..], ts[1..], cs, top, keys);
        GenerateBoth(fs, ts, cs, top, keys);
        var v := Generate(fs[0].value, ts[0].value, false);
        if Sem(fs[0].value) != Sem(ts[0].value) {
          GenerateExact(fs[0].value, ts[0].value, false, keys, keys);
          MadeMore(GenerateMembers(fs[1..], ts[1..], cs), DiffMap(SemMembers(fs[1..]), SemMembers(ts[1..])), ts[0].key,
            v.value, top, keys);
        }
      }
    }
  }

  lemma {:induction false} GenerateBoth(fs: seq<Member>, ts: seq<Member>, cs: bool, top: iset<string>,
      keys: iset<string>)
    requires Ready(fs, top, keys) && Ready(ts, top, keys) && OrderAgrees(keys)
    requires fs != [] && ts != [] && fs[0].key == ts[0].key
    ensures var a, b := Sem(fs[0].value), Sem(ts[0].value);
            (CompareJson(fs[0].value, ts[0].value, cs) <==> a == b) &&
            fs[0].key !in DiffMap(SemMembers(fs[1..]), SemMembers(ts[1..])) &&
            DiffMap(SemMembers(fs), SemMembers(ts)) ==
              if a == b then DiffMap(SemMembers(fs[1..]), SemMembers(ts[1..]))
              else DiffMap(SemMembers(fs[1..]), SemMembers(ts[1..]))[fs[0].key := DiffVal(a, b)]
  {
    OrderAgreesCoherent(keys);
    ReadyTail(fs, top, keys);
    ReadyTail(ts, top, keys);
    CompareJsonExact(fs[0].value, ts[0].value, cs, keys);
    DiffBoth(SemMembers(fs[1..]), SemMembers(ts[1..]), fs[0].key, Sem(fs[0].value), Sem(ts[0].value));
  }

  /** Merge patch round trip. Two equal objects give no patch. Otherwise the patch merged
      into a copy of the source reproduces the target exactly when the target asks for
      no null the source does not already hold. */
  lemma {:induction false} MergeRoundTrip(src: JSON, dst: JSON, cs: bool, top: iset<string>, keys: iset<string>)
    requires Outer(src, top, keys) && Outer(dst, top, keys) && WalkAgrees(top, keys, cs) &&
             Height(dst) <= CIRCULAR_LIMIT
    ensures Generate(src, dst, cs).None? <==> src.Object? && dst.Object? && Sem(src) == Sem(dst)
    ensures Generate(src, dst, cs).Some? ==>
              var r := MergeInto(Some(src), Generate(src, dst, cs).value, cs);
              r.Some? && (Sem(r.value) == Sem(dst) <==> Reproducible(Sem(src), Sem(dst)))
  {
    GenerateExact(src, dst, cs, top, keys);
    OrderAgreesCoherent(keys);
    if !cs { OrderAgreesCoherent(top); }
    var p := Generate(src, dst, cs);
    if p.Some? {
      MergeIntoExact(Some(src), p.value, cs, top, keys);
      MergeDiff(Sem(src), Sem(dst));
    }
  }

  /** In particular for every target without nulls among its members. */
  lemma {:induction false} MergeRoundTripNullFree(src: JSON, dst: JSON, cs: bool, top: iset<string>, keys: iset<string>)
    requires Outer(src, top, keys) && Outer(dst, top, keys) && WalkAgrees(top, keys, cs) &&
             Height(dst) <= CIRCULAR_LIMIT
    requires NullFree(Sem(dst)) && Generate(src, dst, cs).Some?
    ensures var r := MergeInto(Some(src), Generate(src, dst, cs).value, cs);
            r.Some? && Sem(r.value) == Sem(dst)
  {
    MergeRoundTrip(src, dst, cs, top, keys);
    NullFreeIsReproducible(Sem(src), Sem(dst));
  }
}
