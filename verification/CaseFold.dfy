/** The mode without regard to case. */
module CaseFold {
  // Comparing, patching and merging without regard to case is comparing, patching and merging
  // with regard to case once all keys are in small letters. That needs no condition on keys, so
  // what is proved of the one mode carries over to the other for documents each of which is
  // coherent on its own, however the case of its keys differs from the other's.

  import opened Compare
  import opened Json
  import opened KeyOrder
  import opened Members
  import opened Merge
  import opened MergePatch
  import opened Numbers
  import opened Patch
  import opened Pointer

  /** A document with all its keys in small letters. */
  function Lower(j: JSON): JSON
    decreases j, 1
  {
    match j
    case Array(items) => Array(LowerItems(items))
    case Object(ms) => Object(LowerMembers(ms))
    case _ => j
  }

  function LowerItems(items: seq<JSON>): (r: seq<JSON>)
    ensures |r| == |items|
    decreases items, 0
  {
    if items == [] then [] else [Lower(items[0])] + LowerItems(items[1..])
  }

  function LowerMembers(ms: seq<Member>): (r: seq<Member>)
    ensures |r| == |ms|
    decreases ms, 0
  {
    if ms == [] then [] else [LowerMember(ms[0])] + LowerMembers(ms[1..])
  }

  function LowerMember(m: Member): Member
    decreases m, 0
  {
    Member(Fold(m.key), Lower(m.value))
  }

  function LowerAll(j: Option<JSON>): Option<JSON> { if j.Some? then Some(Lower(j.value)) else None }

  /** The meaning of a document whose keys are read without regard to case. */
  function SemFold(j: JSON): Val { Sem(Lower(j)) }

  // ----- keys

  lemma {:induction false} FoldConcat(a: string, b: string)
    ensures Fold(a + b) == Fold(a) + Fold(b)
  {
  }

  /** Keys compare without regard to case as they do with regard to case in small letters. */
  lemma {:induction false} KeysLower(a: string, b: string)
    ensures CompareStrings(a, b, false) == CompareStrings(Fold(a), Fold(b), true)
    ensures SameKey(a, b, false) <==> SameKey(Fold(a), Fold(b), true)
  {
  }

  lemma {:induction false} MembersAt(ms: seq<Member>, i: nat)
    requires i < |ms|
    ensures LowerMembers(ms)[i] == LowerMember(ms[i])
  {
    if i > 0 { MembersAt(ms[1..], i - 1); }
  }

  lemma {:induction false} MembersConcat(a: seq<Member>, b: seq<Member>)
    ensures LowerMembers(a + b) == LowerMembers(a) + LowerMembers(b)
  {
    var r := LowerMembers(a + b);
    forall i | 0 <= i < |r|
      ensures r[i] == (LowerMembers(a) + LowerMembers(b))[i]
    {
      MembersAt(a + b, i);
      if i < |a| { MembersAt(a, i); } else { MembersAt(b, i - |a|); }
    }
  }

  lemma {:induction false} AppendLower(ms: seq<Member>, m: Member)
    ensures LowerMembers(ms + [m]) == LowerMembers(ms) + [LowerMember(m)]
  {
    MembersConcat(ms, [m]);
    MembersAt([m], 0);
  }

  lemma {:induction false} FindLower(ms: seq<Member>, name: string)
    ensures FindKey(LowerMembers(ms), Fold(name), true) == FindKey(ms, name, false)
  {
    if ms != [] {
      KeysLower(ms[0].key, name);
      assert LowerMembers(ms)[1..] == LowerMembers(ms[1..]);
      FindLower(ms[1..], name);
    }
  }

  lemma {:induction false} DeleteLower(ms: seq<Member>, name: string)
    ensures LowerMembers(DeleteKey(ms, name, false)) == DeleteKey(LowerMembers(ms), Fold(name), true)
  {
    FindLower(ms, name);
    var i := FindKey(ms, name, false);
    if i < |ms| { RemoveLower(ms, i); }
  }

  lemma {:induction false} RemoveLower(ms: seq<Member>, i: nat)
    requires i < |ms|
    ensures LowerMembers(RemoveAt(ms, i)) == RemoveAt(LowerMembers(ms), i)
  {
    var r := RemoveAt(ms, i);
    forall k | 0 <= k < |r|
      ensures LowerMembers(r)[k] == RemoveAt(LowerMembers(ms), i)[k]
    {
      MembersAt(r, k);
      MembersAt(ms, if k < i then k else k + 1);
    }
  }

  lemma {:induction false} FoundLower(ms: seq<Member>, name: string)
    ensures LowerAll(Found(ms, name, false)) == Found(LowerMembers(ms), Fold(name), true)
  {
    FindLower(ms, name);
    var i := FindKey(ms, name, false);
    if i < |ms| { MembersAt(ms, i); }
  }

  // ----- heights, types and sorting

  lemma {:induction false} HeightLower(j: JSON)
    ensures Height(Lower(j)) == Height(j)
    decreases j, 1
  {
    match j
    case Array(items) => ItemsHeightLower(items);
    case Object(ms) => MembersHeightLower(ms);
    case _ =>
  }

  lemma {:induction false} ItemsHeightLower(items: seq<JSON>)
    ensures ItemsHeight(LowerItems(items)) == ItemsHeight(items)
    decreases items, 0
  {
    if items != [] {
      HeightLower(items[0]);
      ItemsHeightLower(items[1..]);
      assert LowerItems(items)[1..] == LowerItems(items[1..]);
    }
  }

  lemma {:induction false} MembersHeightLower(ms: seq<Member>)
    ensures MembersHeight(LowerMembers(ms)) == MembersHeight(ms)
    decreases ms, 0
  {
    if ms != [] {
      HeightLower(ms[0].value);
      MembersHeightLower(ms[1..]);
      assert LowerMembers(ms)[1..] == LowerMembers(ms[1..]);
    }
  }

  lemma {:induction false} InsertLower(m: Member, ms: seq<Member>)
    ensures LowerMembers(InsertSorted(m, ms, false)) == InsertSorted(LowerMember(m), LowerMembers(ms), true)
  {
    if ms == [] || CompareStrings(m.key, ms[0].key, false) < 0 {
      assert ([m] + ms)[1..] == ms;
    } else {
      InsertLower(m, ms[1..]);
      assert LowerMembers(ms)[1..] == LowerMembers(ms[1..]);
      assert ([ms[0]] + InsertSorted(m, ms[1..], false))[1..] == InsertSorted(m, ms[1..], false);
    }
  }

  lemma {:induction false} SortLower(ms: seq<Member>)
    ensures LowerMembers(SortMembers(ms, false)) == SortMembers(LowerMembers(ms), true)
  {
    if ms != [] {
      SortLower(ms[1..]);
      InsertLower(ms[0], SortMembers(ms[1..], false));
      assert LowerMembers(ms)[1..] == LowerMembers(ms[1..]);
    }
  }

  // ----- comparing

  /** Both comparisons without regard to case are the comparisons with regard to case of the
      documents in small letters. */
  lemma {:induction false} CompareLower(a: JSON, b: JSON)
    ensures CompareJson(a, b, false) == CompareJson(Lower(a), Lower(b), true)
    decreases Height(a), 1, 0
  {
    if SameType(a, b) {
      match a
      case Array(items) => CompareItemsLower(items, b.items);
      case Object(ms) =>
        SortMembersHeight(ms, false);
        SortLower(ms);
        SortLower(b.members);
        CompareMembersLower(SortMembers(ms, false), SortMembers(b.members, false));
      case _ =>
    }
  }

  lemma {:induction false} CompareItemsLower(a: seq<JSON>, b: seq<JSON>)
    ensures CompareItems(a, b, false) == CompareItems(LowerItems(a), LowerItems(b), true)
    decreases ItemsHeight(a), 0, |a|
  {
    if a != [] && b != [] {
      CompareLower(a[0], b[0]);
      CompareItemsLower(a[1..], b[1..]);
      assert LowerItems(a)[1..] == LowerItems(a[1..]) && LowerItems(b)[1..] == LowerItems(b[1..]);
    }
  }

  lemma {:induction false} CompareMembersLower(a: seq<Member>, b: seq<Member>)
    ensures CompareMembers(a, b, false) == CompareMembers(LowerMembers(a), LowerMembers(b), true)
    decreases MembersHeight(a), 0, |a|
  {
    if a != [] && b != [] {
      CompareLower(a[0].value, b[0].value);
      CompareMembersLower(a[1..], b[1..]);
      assert LowerMembers(a)[1..] == LowerMembers(a[1..]) && LowerMembers(b)[1..] == LowerMembers(b[1..]);
    }
  }

  lemma {:induction false} LookupLower(a: JSON, b: JSON)
    ensures CompareByLookup(a, b, false) == CompareByLookup(Lower(a), Lower(b), true)
    decreases Height(a) + Height(b), 2, 0
  {
    if SameType(a, b) {
      match a
      case Array(items) => ItemsLookupLower(items, b.items);
      case Object(ms) =>
        CoversLower(ms, b.members);
        CoversLower(b.members, ms);
      case _ =>
    }
  }

  lemma {:induction false} ItemsLookupLower(a: seq<JSON>, b: seq<JSON>)
    ensures ItemsByLookup(a, b, false) == ItemsByLookup(LowerItems(a), LowerItems(b), true)
    decreases ItemsHeight(a) + ItemsHeight(b), 1, |a|
  {
    if a != [] && b != [] {
      LookupLower(a[0], b[0]);
      ItemsLookupLower(a[1..], b[1..]);
      assert LowerItems(a)[1..] == LowerItems(a[1..]) && LowerItems(b)[1..] == LowerItems(b[1..]);
    }
  }

  lemma {:induction false} CoversLower(a: seq<Member>, b: seq<Member>)
    ensures Covers(a, b, false) == Covers(LowerMembers(a), LowerMembers(b), true)
    decreases MembersHeight(a) + MembersHeight(b), 1, |a|
  {
    if a != [] {
      assert LowerMembers(a)[1..] == LowerMembers(a[1..]);
      FindLower(b, a[0].key);
      var i := FindKey(b, a[0].key, false);
      if i < |b| {
        MembersAt(b, i);
        MemberHeight(b, i);
        LookupLower(a[0].value, b[i].value);
        CoversLower(a[1..], b);
      }
    }
  }

  // ----- merging

  /** merge_patch without regard to case. */
  lemma {:induction false} MergeLower(target: Option<JSON>, patch: JSON)
    ensures LowerAll(MergeInto(target, patch, false)) == MergeInto(LowerAll(target), Lower(patch), true)
    decreases patch, 1
  {
    HeightLower(patch);
    if patch.Object? { MergeMembersLower(MergePatch.MembersOf(target), patch.members); }
  }

  lemma {:induction false} MergeMembersLower(ms: seq<Member>, ps: seq<Member>)
    ensures var r := MergeMembers(ms, ps, false);
            MergeMembers(LowerMembers(ms), LowerMembers(ps), true) ==
            if r.Some? then Some(LowerMembers(r.value)) else None
    decreases ps, 0
  {
    if ps != [] {
      var p, rest := ps[0], DeleteKey(ms, ps[0].key, false);
      assert LowerMembers(ps)[0] == LowerMember(p) && LowerMembers(ps)[1..] == LowerMembers(ps[1..]);
      assert LowerMember(p).key == Fold(p.key) && (LowerMember(p).value.Null? <==> p.value.Null?);
      DeleteLower(ms, p.key);
      FoundLower(ms, p.key);
      MergeStep(ms, p, ps, ps[1..], false);
      MergeStep(LowerMembers(ms), LowerMember(p), LowerMembers(ps), LowerMembers(ps[1..]), true);
      if p.value.Null? {
        MergeMembersLower(rest, ps[1..]);
      } else {
        MergeLower(Found(ms, p.key, false), p.value);
        var v := MergeInto(Found(ms, p.key, false), p.value, false);
        if v.Some? {
          AppendLower(rest, Member(p.key, v.value));
          MergeMembersLower(rest + [Member(p.key, v.value)], ps[1..]);
        }
      }
    }
  }

  /** One turn of the loop of merge_patch. */
  lemma {:induction false} MergeStep(ms: seq<Member>, p: Member, ps: seq<Member>, later: seq<Member>, cs: bool)
    requires ps != [] && p == ps[0] && later == ps[1..]
    ensures MergeMembers(ms, ps, cs) ==
            if p.value.Null? then MergeMembers(DeleteKey(ms, p.key, cs), later, cs)
            else
              match MergeInto(Found(ms, p.key, cs), p.value, cs)
              case None => None
              case Some(v) => MergeMembers(DeleteKey(ms, p.key, cs) + [Member(p.key, v)], later, cs)
  {
  }

  // ----- generating patches

  function LowerOp(op: Op): Op { Op(op.kind, Fold(op.path), LowerAll(op.value)) }

  function LowerOps(ops: seq<Op>): seq<Op> { if ops == [] then [] else [LowerOp(ops[0])] + LowerOps(ops[1..]) }

  lemma {:induction false} OpsConcat(a: seq<Op>, b: seq<Op>)
    ensures LowerOps(a + b) == LowerOps(a) + LowerOps(b)
    decreases |a|
  {
    if a == [] {
      assert a + b == b;
    } else {
      assert (a + b)[1..] == a[1..] + b;
      OpsConcat(a[1..], b);
    }
  }

  lemma {:induction false} EncodeLower(s: string)
    ensures Encode(Fold(s)) == Fold(Encode(s))
  {
    if s != [] {
      EncodeLower(s[1..]);
      assert Fold(s)[1..] == Fold(s[1..]);
      var head := if s[0] == '/' then "~1" else if s[0] == '~' then "~0" else [s[0]];
      FoldConcat(head, Encode(s[1..]));
      assert Fold(head) == if s[0] == '/' then "~1" else if s[0] == '~' then "~0" else [ToLower(s[0])];
    } else {
      assert Fold([]) == [];
    }
  }

  lemma {:induction false} TokenLower(path: string, token: string)
    ensures Fold(path + "/" + Encode(token)) == Fold(path) + "/" + Encode(Fold(token))
  {
    EncodeLower(token);
    FoldConcat(path + "/", Encode(token));
    FoldConcat(path, "/");
  }

  lemma {:induction false} DecimalLower(n: nat)
    ensures Fold(Decimal(n)) == Decimal(n)
  {
    DecimalDigits(n);
  }

  lemma {:induction false} ComposeLower(kind: Kind, path: string, v: JSON)
    ensures LowerOp(Compose(kind, path, v)) == Compose(kind, Fold(path), Lower(v))
  {
    HeightLower(v);
  }

  /** The patches generated without regard to case are those generated with regard to case for
      the documents in small letters, but for the case of the keys in them. */
  lemma {:induction false} CreateLower(path: string, from: JSON, to: JSON)
    ensures LowerOps(CreateOps(path, from, to, false)) == CreateOps(Fold(path), Lower(from), Lower(to), true)
    decreases Height(from), 1, 0
  {
    ComposeLower(REPLACE, path, to);
    assert [Compose(REPLACE, path, to)][1..] == [];
    if SameType(from, to) {
      match from
      case Array(items) => ItemOpsLower(path, items, to.items, 0);
      case Object(ms) =>
        SortMembersHeight(ms, false);
        SortLower(ms);
        SortLower(to.members);
        MemberOpsLower(path, SortMembers(ms, false), SortMembers(to.members, false));
      case _ =>
    }
  }

  lemma {:induction false} ItemsAt(items: seq<JSON>, i: nat)
    requires i < |items|
    ensures LowerItems(items)[i] == Lower(items[i])
  {
    if i > 0 { ItemsAt(items[1..], i - 1); }
  }

  lemma {:induction false} ItemsTail(items: seq<JSON>, i: nat)
    requires i <= |items|
    ensures LowerItems(items)[i..] == LowerItems(items[i..])
  {
    if i > 0 {
      ItemsTail(items[1..], i - 1);
      assert items[1..][i - 1..] == items[i..];
      assert LowerItems(items)[i..] == LowerItems(items)[1..][i - 1..];
    } else {
      assert items[0..] == items && LowerItems(items)[0..] == LowerItems(items);
    }
  }

  lemma {:induction false} ItemOpsLower(path: string, from: seq<JSON>, to: seq<JSON>, k: nat)
    requires k <= |from| && k <= |to|
    ensures LowerOps(ItemOps(path, from, to, k, false)) ==
            ItemOps(Fold(path), LowerItems(from), LowerItems(to), k, true)
    decreases ItemsHeight(from), 0, |from| - k
  {
    if k < |from| && k < |to| {
      ItemHeight(from, k);
      ItemsAt(from, k);
      ItemsAt(to, k);
      var at := path + "/" + Decimal(k);
      DecimalLower(k);
      FoldConcat(path + "/", Decimal(k));
      FoldConcat(path, "/");
      CreateLower(at, from[k], to[k]);
      ItemOpsLower(path, from, to, k + 1);
      OpsConcat(CreateOps(at, from[k], to[k], false), ItemOps(path, from, to, k + 1, false));
      assert Fold(at) == Fold(path) + "/" + Decimal(k);
    } else {
      RemoveTailLower(path, k, |from| - k);
      AddTailLower(path, to[k..]);
      ItemsTail(to, k);
      OpsConcat(RemoveTail(path, k, |from| - k), AddTail(path, to[k..]));
    }
  }

  lemma {:induction false} RemoveTailLower(path: string, index: nat, count: nat)
    ensures LowerOps(RemoveTail(path, index, count)) == RemoveTail(Fold(path), index, count)
  {
    if count > 0 {
      RemoveTailLower(path, index, count - 1);
      TokenLower(path, Decimal(index));
      DecimalLower(index);
      OpsCons(Op(REMOVE, path + "/" + Encode(Decimal(index)), None), RemoveTail(path, index, count - 1));
    }
  }

  lemma {:induction false} OpsCons(op: Op, rest: seq<Op>)
    ensures LowerOps([op] + rest) == [LowerOp(op)] + LowerOps(rest)
  {
    assert ([op] + rest)[1..] == rest;
  }

  lemma {:induction false} AddTailLower(path: string, to: seq<JSON>)
    ensures LowerOps(AddTail(path, to)) == AddTail(Fold(path), LowerItems(to))
  {
    if to != [] {
      AddTailLower(path, to[1..]);
      TokenLower(path, "-");
      ComposeLower(ADD, path + "/" + Encode("-"), to[0]);
      OpsCons(Compose(ADD, path + "/" + Encode("-"), to[0]), AddTail(path, to[1..]));
      assert Fold("-") == "-";
      assert LowerItems(to)[1..] == LowerItems(to[1..]);
    }
  }

  lemma {:induction false} MemberOpsLower(path: string, fs: seq<Member>, ts: seq<Member>)
    ensures LowerOps(MemberOps(path, fs, ts, false)) == MemberOps(Fold(path), LowerMembers(fs), LowerMembers(ts), true)
    decreases MembersHeight(fs), 0, |fs| + |ts|
  {
    if fs != [] { HeadLower(fs, path); }
    if ts != [] { HeadLower(ts, path); }
    if fs != [] || ts != [] {
      var diff := if fs == [] then 1 else if ts == [] then -1 else CompareStrings(fs[0].key, ts[0].key, false);
      if diff == 0 {
        BothLower(path, fs, ts);
        CreateLower(path + "/" + Encode(fs[0].key), fs[0].value, ts[0].value);
        MemberOpsLower(path, fs[1..], ts[1..]);
      } else if diff < 0 {
        MemberOpsLower(path, fs[1..], ts);
        OpsCons(Op(REMOVE, path + "/" + Encode(fs[0].key), None), MemberOps(path, fs[1..], ts, false));
      } else {
        MemberOpsLower(path, fs, ts[1..]);
        ComposeLower(ADD, path + "/" + Encode(ts[0].key), ts[0].value);
        OpsCons(Compose(ADD, path + "/" + Encode(ts[0].key), ts[0].value), MemberOps(path, fs, ts[1..], false));
      }
    }
  }

  lemma {:induction false} HeadLower(ms: seq<Member>, path: string)
    requires ms != []
    ensures LowerMembers(ms)[0] == LowerMember(ms[0]) && LowerMembers(ms)[1..] == LowerMembers(ms[1..])
    ensures Fold(path + "/" + Encode(ms[0].key)) == Fold(path) + "/" + Encode(Fold(ms[0].key))
    ensures Height(ms[0].value) < MembersHeight(ms)
  {
    TokenLower(path, ms[0].key);
  }

  lemma {:induction false} BothLower(path: string, fs: seq<Member>, ts: seq<Member>)
    requires fs != [] && ts != []
    ensures var here := path + "/" + Encode(fs[0].key);
            LowerOps(CreateOps(here, fs[0].value, ts[0].value, false) + MemberOps(path, fs[1..], ts[1..], false)) ==
            LowerOps(CreateOps(here, fs[0].value, ts[0].value, false)) +
              LowerOps(MemberOps(path, fs[1..], ts[1..], false))
  {
    var here := path + "/" + Encode(fs[0].key);
    OpsConcat(CreateOps(here, fs[0].value, ts[0].value, false), MemberOps(path, fs[1..], ts[1..], false));
  }

  // ----- what follows for documents that are coherent each on its own

  ghost const EVERY: iset<string> := iset k: string | true

  /** Within each object of the document keys differ in more than case. */
  ghost predicate Sound(j: JSON) { Good(Lower(j), EVERY) }

  /** Both comparisons without regard to case are equality of the meanings without regard to
      case. */
  lemma {:induction false} CompareFold(a: JSON, b: JSON)
    requires Sound(a) && Sound(b)
    ensures CompareJson(a, b, false) == CompareByLookup(a, b, false) == (SemFold(a) == SemFold(b))
  {
    CompareLower(a, b);
    LookupLower(a, b);
    ComparisonsAgree(Lower(a), Lower(b), true, EVERY);
  }

  /** merge_patch without regard to case is MergePatch of RFC 7396 on the meanings without
      regard to case, and fails exactly on patches that cannot be copied. */
  lemma {:induction false} MergeFold(target: Option<JSON>, patch: JSON)
    requires (target.Some? ==> Sound(target.value)) && Sound(patch)
    ensures var r := MergeInto(target, patch, false);
            (r.Some? <==> Copyable(patch)) &&
            (r.Some? ==> Sound(r.value) && SemFold(r.value) == MergeVal(Meaning(LowerAll(target)), SemFold(patch)))
  {
    MergeLower(target, patch);
    GoodIsOuter(Lower(patch));
    if target.Some? { GoodIsOuter(Lower(target.value)); }
    MergeIntoExact(LowerAll(target), Lower(patch), true, EVERY, EVERY);
    CopyableLower(patch);
    var r := MergeInto(target, patch, false);
    if r.Some? { GoodIsOuter(Lower(r.value)); }
  }

  lemma {:induction false} GoodIsOuter(j: JSON)
    ensures Good(j, EVERY) <==> Outer(j, EVERY, EVERY)
  {
  }

  lemma {:induction false} CopyableLower(j: JSON)
    ensures Copyable(Lower(j)) <==> Copyable(j)
    decreases j, 1
  {
    HeightLower(j);
    if j.Object? { MembersCopyableLower(j.members); }
  }

  lemma {:induction false} MembersCopyableLower(ms: seq<Member>)
    ensures MembersCopyable(LowerMembers(ms)) <==> MembersCopyable(ms)
    decreases ms, 0
  {
    if ms != [] {
      CopyableLower(ms[0].value);
      MembersCopyableLower(ms[1..]);
      assert LowerMembers(ms)[1..] == LowerMembers(ms[1..]);
    }
  }
}
