/** Where JSON Merge Patch round trips stop. */
module MergeLimits {
  // The generator sorts both objects in the given mode and walks the sorted lists by strcmp.
  // Where the two orders differ, a key may be passed over and be deleted later on.

  import opened Compare
  import opened Json
  import opened KeyOrder
  import opened Members
  import opened Merge
  import opened MergePatch
  import opened Patch

  // ----- objects of scalars

  ghost predicate Flat(ms: seq<Member>) {
    Distinct(ms) && forall i :: 0 <= i < |ms| ==> !ms[i].value.Array? && !ms[i].value.Object?
  }

  /** In case-sensitive mode objects of scalars round trip under any keys. */
  lemma {:induction false} FlatRoundTrip(ms: seq<Member>, ns: seq<Member>)
    requires Flat(ms) && Flat(ns)
    ensures var src, dst := Object(ms), Object(ns);
            match Generate(src, dst, true)
            case None => Sem(src) == Sem(dst)
            case Some(p) =>
              var r := MergeInto(Some(src), p, true);
              r.Some? && (Sem(r.value) == Sem(dst) <==> Reproducible(Sem(src), Sem(dst)))
  {
    FlatHeight(ns);
    var top := iset k | k in Keys(ms) + Keys(ns);
    assert KeysIn(ms, top) by { assert forall i :: 0 <= i < |ms| ==> ms[i] in ms; }
    assert KeysIn(ns, top) by { assert forall i :: 0 <= i < |ns| ==> ns[i] in ns; }
    MergeRoundTrip(Object(ms), Object(ns), true, top, iset{});
  }

  lemma {:induction false} FlatHeight(ms: seq<Member>)
    requires Flat(ms)
    ensures MembersHeight(ms) <= 1
  {
    if ms != [] { FlatHeight(ms[1..]); }
  }

  // ----- dropping one member

  /** In the order the members are sorted in, strcmp puts the next key behind this one. */
  ghost predicate NextIsBehind(sorted: seq<Member>, key: string) {
    forall p :: 0 <= p < |sorted| - 1 && sorted[p].key == key ==> Cmp(sorted[p].key, sorted[p + 1].key) < 0
  }

  /** Dropping one member round trips exactly when strcmp puts the key that follows it in
      the sorted list behind it: the lists are sorted in the given mode but walked by
      strcmp. */
  lemma {:induction false} DropExactly(ms: seq<Member>, i: nat, cs: bool, keys: iset<string>)
    requires Good(Object(ms), keys) && Unambiguous(keys, cs) && i < |ms|
    ensures var src, dst := Object(ms), Object(RemoveAt(ms, i));
            var p := Generate(src, dst, cs);
            p.Some? &&
              (Meaning(MergeInto(Some(src), p.value, cs)) == Sem(dst) <==> NextIsBehind(SortMembers(ms, cs), ms[i].key))
  {
    var _ := DropBetween(ms, i, cs, cs, keys);
  }

  /** So it is when the patch is generated in one mode and merged in another. */
  lemma {:induction false} DropBetween(ms: seq<Member>, i: nat, gen: bool, cs: bool, keys: iset<string>)
    returns (p: seq<Member>)
    requires Good(Object(ms), keys) && Unambiguous(keys, gen) && Unambiguous(keys, cs) && i < |ms|
    ensures Generate(Object(ms), Object(RemoveAt(ms, i)), gen) == Some(Object(p))
    ensures Meaning(MergeInto(Some(Object(ms)), Object(p), cs)) == Sem(Object(RemoveAt(ms, i))) <==>
            NextIsBehind(SortMembers(ms, gen), ms[i].key)
  {
    var m, ns := ms[i], RemoveAt(ms, i);
    var rest := BehindDropped(ms, i, gen, keys);
    p := GenerateMembers([m] + rest, rest, gen);
    if rest == [] || Cmp(m.key, rest[0].key) < 0 {
      OnlyDrops(m, rest, gen);
      MergeDrop(ms, i, cs, keys);
    } else {
      Overtaken(ms, i, m, rest, gen, cs, keys);
    }
    Patched(ms, ns, p, gen, cs);
  }

  /** One level further down case is never regarded in sorting: dropping a member of an inner
      object round trips exactly when strcmp agrees with the order without regard to case, also
      in case-sensitive mode. */
  lemma {:induction false} DropBelowExactly(k: string, ms: seq<Member>, i: nat, cs: bool, keys: iset<string>)
    requires Good(Object(ms), keys) && Unambiguous(keys, false) && i < |ms|
    ensures var src, dst := Object([Member(k, Object(ms))]), Object([Member(k, Object(RemoveAt(ms, i)))]);
            var p := Generate(src, dst, cs);
            p.Some? &&
              (Meaning(MergeInto(Some(src), p.value, cs)) == Sem(dst) <==>
               NextIsBehind(SortMembers(ms, false), ms[i].key))
  {
    var q := DropBetween(ms, i, false, cs, keys);
    var inner, less := Object(ms), Object(RemoveAt(ms, i));
    DroppedDiffers(ms, i, cs, keys);
    OneMember(k, inner, less, Object(q), cs);
    MergeOneMember(k, inner, Object(q), cs);
    MeansAlike(k, MergeInto(Some(inner), Object(q), cs), less);
  }

  function Around(k: string, r: Option<JSON>): Option<JSON> {
    match r
    case None => None
    case Some(v) => Some(Object([Member(k, v)]))
  }

  lemma {:induction false} MeansAlike(k: string, r: Option<JSON>, a: JSON)
    requires a.Object?
    ensures Meaning(Around(k, r)) == Sem(Object([Member(k, a)])) <==> Meaning(r) == Sem(a)
  {
    OneMeaning(k, a);
    if r.Some? {
      OneMeaning(k, r.value);
      assert map[k := Sem(r.value)][k] == Sem(r.value) && map[k := Sem(a)][k] == Sem(a);
    }
  }

  lemma {:induction false} OneMeaning(k: string, a: JSON)
    ensures Sem(Object([Member(k, a)])) == VObject(map[k := Sem(a)])
  {
    var ms := [Member(k, a)];
    assert ms[1..] == [];
    assert SemMembers(ms[1..]) == map[];
  }

  lemma {:induction false} DroppedDiffers(ms: seq<Member>, i: nat, cs: bool, keys: iset<string>)
    requires Good(Object(ms), keys) && Unambiguous(keys, cs) && i < |ms|
    ensures !CompareJson(Object(ms), Object(RemoveAt(ms, i)), cs)
  {
    var ns := RemoveAt(ms, i);
    RemoveAtKeys(ms, i);
    assert forall x :: x in ns ==> x in ms;
    CompareJsonExact(Object(ms), Object(ns), cs, keys);
    SemMembersKeys(ms);
    SemMembersKeys(ns);
    assert ms[i] in ms && ms[i].key in Keys(ms);
  }

  lemma {:induction false} SortOne(m: Member, cs: bool)
    ensures SortMembers([m], cs) == [m]
  {
    assert [m][1..] == [];
  }

  /** What is generated for an only member that differs. */
  lemma {:induction false} OneMember(k: string, a: JSON, b: JSON, p: JSON, cs: bool)
    requires a.Object? && b.Object? && !CompareJson(a, b, cs) && Generate(a, b, false) == Some(p)
    ensures Generate(Object([Member(k, a)]), Object([Member(k, b)]), cs) == Some(Object([Member(k, p)]))
  {
    var fs, ts := [Member(k, a)], [Member(k, b)];
    assert fs[1..] == [] && ts[1..] == [];
    CmpZero(k, k);
    SortOne(Member(k, a), cs);
    SortOne(Member(k, b), cs);
    var r := GenerateMembers(fs, ts, cs);
    assert r == Added(k, Some(p)) + GenerateMembers(fs[1..], ts[1..], cs);
    assert GenerateMembers(fs[1..], ts[1..], cs) == [];
    assert r == [Member(k, p)];
  }

  /** And what merging it does. */
  lemma {:induction false} MergeOneMember(k: string, a: JSON, p: JSON, cs: bool)
    requires p.Object?
    ensures MergeInto(Some(Object([Member(k, a)])), Object([Member(k, p)]), cs) == Around(k, MergeInto(Some(a), p, cs))
  {
    var ms, ps := [Member(k, a)], [Member(k, p)];
    assert ps[1..] == [] && ms[1..] == [];
    assert SameKey(k, k, cs);
    assert FindKey(ms, k, cs) == 0 && DeleteKey(ms, k, cs) == [] && Found(ms, k, cs) == Some(a);
    match MergeInto(Some(a), p, cs)
    case None =>
    case Some(v) =>
      assert [] + [Member(k, v)] == [Member(k, v)];
      assert MergeMembers([Member(k, v)], ps[1..], cs) == Some([Member(k, v)]);
  }

  /** What is sorted behind the dropped member decides. */
  lemma {:induction false} BehindDropped(ms: seq<Member>, i: nat, cs: bool, keys: iset<string>)
    returns (rest: seq<Member>)
    requires Good(Object(ms), keys) && Unambiguous(keys, cs) && i < |ms|
    ensures var s := SortMembers(ms, cs);
            GenerateMembers(s, SortMembers(RemoveAt(ms, i), cs), cs) == GenerateMembers([ms[i]] + rest, rest, cs) &&
            (NextIsBehind(s, ms[i].key) <==> rest == [] || Cmp(ms[i].key, rest[0].key) < 0)
    ensures Distinct([ms[i]] + rest) && (forall x :: x in rest ==> x in ms) && Reflexive(rest, cs)
  {
    var m, s := ms[i], SortMembers(ms, cs);
    var q := SortedAt(ms, i, cs, keys);
    DroppedFromSorted(ms, i, q, s, cs, keys);
    var front;
    front, rest := Cut(s, q);
    SortedReflexive(ms, cs, keys);
    SkipCommon(front, [m] + rest, rest, cs);
    NextIs(s, q);
  }

  lemma {:induction false} NextIs(s: seq<Member>, q: nat)
    requires Distinct(s) && q < |s|
    ensures NextIsBehind(s, s[q].key) <==> s[q + 1..] == [] || Cmp(s[q].key, s[q + 1..][0].key) < 0
  {
  }

  lemma {:induction false} Patched(ms: seq<Member>, ns: seq<Member>, p: seq<Member>, gen: bool, cs: bool)
    requires GenerateMembers(SortMembers(ms, gen), SortMembers(ns, gen), gen) == p && p != []
    ensures Generate(Object(ms), Object(ns), gen) == Some(Object(p))
    ensures Meaning(MergeInto(Some(Object(ms)), Object(p), cs)) ==
            match MergeMembers(ms, p, cs) case None => VNull case Some(r) => VObject(SemMembers(r))
  {
  }

  /** Every value is equal to itself for the generator's comparison. */
  ghost predicate Reflexive(ms: seq<Member>, cs: bool) {
    forall k :: 0 <= k < |ms| ==> CompareJson(ms[k].value, ms[k].value, cs)
  }

  lemma {:induction false} SortedReflexive(ms: seq<Member>, cs: bool, keys: iset<string>)
    requires Good(Object(ms), keys) && Unambiguous(keys, cs)
    ensures Reflexive(SortMembers(ms, cs), cs)
  {
    var s := SortMembers(ms, cs);
    SortedObject(ms, cs, keys);
    forall k | 0 <= k < |s|
      ensures CompareJson(s[k].value, s[k].value, cs)
    {
      assert s[k] in ms;
      CompareJsonExact(s[k].value, s[k].value, cs, keys);
    }
  }

  lemma {:induction false} SkipCommon(front: seq<Member>, fs: seq<Member>, ts: seq<Member>, cs: bool)
    requires Reflexive(front, cs)
    ensures GenerateMembers(front + fs, front + ts, cs) == GenerateMembers(fs, ts, cs)
  {
    if front == [] {
      assert front + fs == fs && front + ts == ts;
    } else {
      CmpZero(front[0].key, front[0].key);
      assert (front + fs)[1..] == front[1..] + fs && (front + ts)[1..] == front[1..] + ts;
      SkipCommon(front[1..], fs, ts, cs);
    }
  }

  lemma {:induction false} OnlyDrops(m: Member, rest: seq<Member>, cs: bool)
    requires Reflexive(rest, cs) && (rest == [] || Cmp(m.key, rest[0].key) < 0)
    ensures GenerateMembers([m] + rest, rest, cs) == [Member(m.key, Null)]
  {
    assert ([m] + rest)[1..] == rest;
    SkipCommon(rest, [], [], cs);
    assert rest + [] == rest;
  }

  lemma {:induction false} MergeDrop(ms: seq<Member>, i: nat, cs: bool, keys: iset<string>)
    requires Distinct(ms) && KeysIn(ms, keys) && Unambiguous(keys, cs) && i < |ms|
    ensures MergeMembers(ms, [Member(ms[i].key, Null)], cs) == Some(RemoveAt(ms, i))
  {
    FindKeyExact(ms, i, cs, keys);
    assert [Member(ms[i].key, Null)][1..] == [];
  }

  // ----- a member that is overtaken is deleted again

  /** The last entry for the key is a null. */
  ghost predicate Nulled(ps: seq<Member>, key: string) {
    ps != [] && (Nulled(ps[1..], key) || (ps[0] == Member(key, Null) && key !in Keys(ps[1..])))
  }

  lemma {:induction false} NulledBehind(first: seq<Member>, ps: seq<Member>, key: string)
    requires |first| <= 1 && Nulled(ps, key)
    ensures Nulled(first + ps, key)
  {
    if first == [] { assert first + ps == ps; } else { assert (first + ps)[1..] == ps; }
  }

  lemma {:induction false} KeysOfConcat(a: seq<Member>, b: seq<Member>)
    ensures Keys(a + b) == Keys(a) + Keys(b)
  {
    assert forall m :: m in a + b <==> m in a || m in b;
  }

  lemma {:induction false} GeneratedKeys(fs: seq<Member>, ts: seq<Member>, cs: bool)
    ensures Keys(GenerateMembers(fs, ts, cs)) <= Keys(fs) + Keys(ts)
    decreases |fs| + |ts|
  {
    if fs != [] || ts != [] {
      var diff := if fs == [] then 1 else if ts == [] then -1 else Cmp(fs[0].key, ts[0].key);
      if fs != [] { HeadKey(fs); }
      if ts != [] { HeadKey(ts); }
      if diff < 0 {
        GeneratedKeys(fs[1..], ts, cs);
        AddedKeys(fs[0].key, Some(Null), GenerateMembers(fs[1..], ts, cs));
      } else if diff > 0 {
        GeneratedKeys(fs, ts[1..], cs);
        AddedKeys(ts[0].key, Duplicate(ts[0].value), GenerateMembers(fs, ts[1..], cs));
      } else {
        GeneratedKeys(fs[1..], ts[1..], cs);
        AddedKeys(ts[0].key, Generate(fs[0].value, ts[0].value, false), GenerateMembers(fs[1..], ts[1..], cs));
      }
    }
  }

  lemma {:induction false} HeadKey(ms: seq<Member>)
    requires ms != []
    ensures Keys(ms) == {ms[0].key} + Keys(ms[1..])
  {
    KeysOfConcat([ms[0]], ms[1..]);
    assert ms == [ms[0]] + ms[1..];
  }

  lemma {:induction false} AddedKeys(key: string, v: Option<JSON>, rest: seq<Member>)
    ensures Keys(Added(key, v) + rest) <= {key} + Keys(rest)
  {
    KeysOfConcat(Added(key, v), rest);
  }

  /** A source key that the target no longer has, or no longer from here on, ends in a null. */
  lemma {:induction false} EndsNulled(fs: seq<Member>, ts: seq<Member>, key: string, cs: bool)
    requires Distinct(fs) && key in Keys(fs) && key !in Keys(ts)
    ensures Nulled(GenerateMembers(fs, ts, cs), key)
    decreases |fs| + |ts|
  {
    assert fs != [];
    HeadKey(fs);
    var diff := if ts == [] then -1 else Cmp(fs[0].key, ts[0].key);
    if ts != [] { HeadKey(ts); }
    if diff < 0 {
      if fs[0].key == key {
        assert forall m :: m in fs[1..] ==> m.key != key;
        GeneratedKeys(fs[1..], ts, cs);
        assert ([Member(key, Null)] + GenerateMembers(fs[1..], ts, cs))[1..] == GenerateMembers(fs[1..], ts, cs);
      } else {
        EndsNulled(fs[1..], ts, key, cs);
        NulledBehind([Member(fs[0].key, Null)], GenerateMembers(fs[1..], ts, cs), key);
      }
    } else if diff > 0 {
      EndsNulled(fs, ts[1..], key, cs);
      NulledBehind(Added(ts[0].key, Duplicate(ts[0].value)), GenerateMembers(fs, ts[1..], cs), key);
    } else {
      CmpZero(fs[0].key, ts[0].key);
      EndsNulled(fs[1..], ts[1..], key, cs);
      NulledBehind(Added(ts[0].key, Generate(fs[0].value, ts[0].value, false)), GenerateMembers(fs[1..], ts[1..], cs),
        key);
    }
  }

  /** One turn of the loop of merge_patch on members told apart by their keys. */
  lemma {:induction false} MergeTurn(ms: seq<Member>, p: Member, v: JSON, cs: bool, keys: iset<string>)
    requires Distinct(ms) && KeysIn(ms, keys) && Unambiguous(keys, cs) && p.key in keys
    ensures var r := DeleteKey(ms, p.key, cs);
            Distinct(r) && KeysIn(r, keys) && Keys(r) == Keys(ms) - {p.key} &&
            Distinct(r + [Member(p.key, v)]) && KeysIn(r + [Member(p.key, v)], keys) &&
            Keys(r + [Member(p.key, v)]) == Keys(ms) + {p.key}
  {
    DeletedMeaning(ms, p.key, cs, keys);
    var r := DeleteKey(ms, p.key, cs);
    SemMembersKeys(r);
    SemMembersKeys(ms);
    AppendedKeys(r, Member(p.key, v));
  }

  lemma {:induction false} StaysOut(ms: seq<Member>, ps: seq<Member>, key: string, cs: bool, keys: iset<string>)
    requires Distinct(ms) && KeysIn(ms, keys) && KeysIn(ps, keys) && Unambiguous(keys, cs)
    requires key !in Keys(ms) && key !in Keys(ps)
    ensures MergeMembers(ms, ps, cs).Some? ==> key !in Keys(MergeMembers(ms, ps, cs).value)
    decreases |ps|
  {
    if ps != [] {
      assert ps[0].key in Keys(ps) by { assert ps[0] in ps; }
      assert key !in Keys(ps[1..]) by { assert ps == [ps[0]] + ps[1..]; }
      var v := MergeInto(Found(ms, ps[0].key, cs), ps[0].value, cs);
      MergeTurn(ms, ps[0], if v.Some? then v.value else Null, cs, keys);
      if ps[0].value.Null? {
        StaysOut(DeleteKey(ms, ps[0].key, cs), ps[1..], key, cs, keys);
      } else if v.Some? {
        StaysOut(DeleteKey(ms, ps[0].key, cs) + [Member(ps[0].key, v.value)], ps[1..], key, cs, keys);
      }
    }
  }

  lemma {:induction false} NulledIsGone(ms: seq<Member>, ps: seq<Member>, key: string, cs: bool, keys: iset<string>)
    requires Distinct(ms) && KeysIn(ms, keys) && KeysIn(ps, keys) && Unambiguous(keys, cs) && Nulled(ps, key)
    ensures MergeMembers(ms, ps, cs).Some? ==> key !in Keys(MergeMembers(ms, ps, cs).value)
    decreases |ps|
  {
    var v := MergeInto(Found(ms, ps[0].key, cs), ps[0].value, cs);
    MergeTurn(ms, ps[0], if v.Some? then v.value else Null, cs, keys);
    var rest := DeleteKey(ms, ps[0].key, cs);
    if Nulled(ps[1..], key) {
      if ps[0].value.Null? {
        NulledIsGone(rest, ps[1..], key, cs, keys);
      } else if v.Some? {
        NulledIsGone(rest + [Member(ps[0].key, v.value)], ps[1..], key, cs, keys);
      }
    } else {
      StaysOut(rest, ps[1..], key, cs, keys);
    }
  }

  /** The key behind the dropped one is added and, further on, deleted. */
  lemma {:induction false} Overtaken(ms: seq<Member>, i: nat, m: Member, rest: seq<Member>, gen: bool,
      cs: bool, keys: iset<string>)
    requires Distinct(ms) && KeysIn(ms, keys) && Unambiguous(keys, cs) && i < |ms| && m == ms[i]
    requires rest != [] && Distinct([m] + rest) && Cmp(m.key, rest[0].key) >= 0
    requires forall x :: x in rest ==> x in ms
    ensures var p := GenerateMembers([m] + rest, rest, gen);
            var r := MergeMembers(ms, p, cs);
            p != [] && (r.Some? ==> SemMembers(r.value) != SemMembers(RemoveAt(ms, i)))
  {
    var fs, k := [m] + rest, rest[0].key;
    CmpZero(fs[0].key, fs[1].key);
    var p := GenerateMembers(fs, rest, gen);
    KeysOfConcat([m], rest);
    assert k in Keys(rest) by { assert rest[0] in rest; }
    assert k !in Keys(rest[1..]) by { assert forall x :: x in rest[1..] ==> x.key != k; }
    EndsNulled(fs, rest[1..], k, gen);
    NulledBehind(Added(k, Duplicate(rest[0].value)), GenerateMembers(fs, rest[1..], gen), k);
    GeneratedKeys(fs, rest, gen);
    forall j | 0 <= j < |p|
      ensures p[j].key in keys
    {
      assert p[j] in p && p[j].key in Keys(p);
      var x :| x in fs && x.key == p[j].key;
      assert x in ms;
    }
    NulledIsGone(ms, p, k, cs, keys);
    RemoveAtKeys(ms, i);
    SemMembersKeys(RemoveAt(ms, i));
    assert rest[0] in ms && rest[0].key in Keys(ms) && fs[0].key != fs[1].key;
    var r := MergeMembers(ms, p, cs);
    if r.Some? { SemMembersKeys(r.value); }
  }
}
