/** The steps of the walk that generates patches, and what applying their operations does to
    the document under change.

    An array is walked index by index; of two objects the sorted member lists are walked side
    by side, while the object under change keeps its own order. */
module PatchWalk {
  import opened Json
  import opened KeyOrder
  import opened Members
  import opened Numbers
  import opened Pointer
  import opened PointerDecode
  import opened Patch
  import opened PatchContext

  // ----- shape of the generated operations

  /** Acts below the root, or replaces the root by a value that can be duplicated. */
  predicate Fits(op: Op) {
    if op.path == "" then op.kind == REPLACE && op.value.Some? && Height(op.value.value) <= CIRCULAR_LIMIT
    else op.path[0] == '/'
  }

  predicate AllFit(ops: seq<Op>) {
    forall i :: 0 <= i < |ops| ==> Fits(ops[i])
  }

  /** All act below the root. */
  predicate Inner(ops: seq<Op>) {
    forall i :: 0 <= i < |ops| ==> Fits(ops[i]) && ops[i].path != ""
  }

  /** The generator replaces this node as a whole. */
  predicate Whole(from: JSON, to: JSON) {
    !SameType(from, to) || (from.Number? && from.n != to.n) || (from.Str? && from.s != to.s)
  }

  lemma {:induction false} UnderFits(token: string, ops: seq<Op>)
    ensures Inner(UnderAll("/" + token, ops))
  {
    if ops != [] { UnderFits(token, ops[1..]); }
  }

  lemma {:induction false} CreateFits(from: JSON, to: JSON, cs: bool)
    requires Height(to) <= CIRCULAR_LIMIT
    ensures AllFit(CreateOps("", from, to, cs)) && (!Whole(from, to) ==> Inner(CreateOps("", from, to, cs)))
  {
    if SameType(from, to) {
      match from
      case Array(items) => ItemsFit(items, to.items, 0, cs);
      case Object(ms) => MembersFit(SortMembers(ms, cs), SortMembers(to.members, cs), cs);
      case _ =>
    }
  }

  lemma {:induction false} ItemsFit(from: seq<JSON>, to: seq<JSON>, k: nat, cs: bool)
    requires k <= |from| && k <= |to|
    ensures Inner(ItemOps("", from, to, k, cs))
    decreases |from| - k
  {
    if k < |from| && k < |to| {
      ItemsFit(from, to, k + 1, cs);
      ChildOps(Decimal(k), from[k], to[k], cs);
      UnderFits(Decimal(k), CreateOps("", from[k], to[k], cs));
    } else {
      TailFits(k, |from| - k, to[k..]);
    }
  }

  /** The operations for a child, seen from the child. */
  lemma {:induction false} ChildOps(token: string, from: JSON, to: JSON, cs: bool)
    ensures CreateOps("" + "/" + token, from, to, cs) == UnderAll("/" + token, CreateOps("", from, to, cs))
  {
    CreateUnder("/" + token, "", from, to, cs);
    assert "/" + token + "" == "" + "/" + token;
  }

  lemma {:induction false} TailFits(index: nat, count: nat, to: seq<JSON>)
    ensures Inner(RemoveTail("", index, count) + AddTail("", to))
  {
    RemovesFit(index, count);
    AddsFit(to);
  }

  lemma {:induction false} RemovesFit(index: nat, count: nat)
    ensures Inner(RemoveTail("", index, count))
  {
    if count > 0 { RemovesFit(index, count - 1); }
  }

  lemma {:induction false} AddsFit(to: seq<JSON>)
    ensures Inner(AddTail("", to))
    decreases |to|
  {
    if to != [] { AddsFit(to[1..]); }
  }

  lemma {:induction false} MembersFit(fs: seq<Member>, ts: seq<Member>, cs: bool)
    ensures Inner(MemberOps("", fs, ts, cs))
    decreases |fs| + |ts|
  {
    if fs != [] || ts != [] {
      var diff := if fs == [] then 1 else if ts == [] then -1 else CompareStrings(fs[0].key, ts[0].key, cs);
      if diff == 0 {
        MembersFit(fs[1..], ts[1..], cs);
        ChildOps(Encode(fs[0].key), fs[0].value, ts[0].value, cs);
        UnderFits(Encode(fs[0].key), CreateOps("", fs[0].value, ts[0].value, cs));
      } else if diff < 0 {
        MembersFit(fs[1..], ts, cs);
      } else {
        MembersFit(fs, ts[1..], cs);
      }
    }
  }

  // ----- operations below one child leave the siblings alone

  lemma {:induction false} ApplyUnderItem(items: seq<JSON>, i: nat, ops: seq<Op>, cs: bool)
    requires i < |items| && i < INDEX_LIMIT && AllFit(ops)
    requires ApplyOps(items[i], ops, cs).outcome == OK
    ensures ApplyOps(Array(items), UnderAll("/" + Decimal(i), ops), cs) ==
            Applied(OK, Array(items[i := ApplyOps(items[i], ops, cs).doc]))
    decreases ops
  {
    if ops == [] {
      assert items[i := items[i]] == items;
    } else {
      var c := ApplyOp(items[i], ops[0], cs);
      var rest := items[i := c.doc];
      if ops[0].path == "" {
        assert "/" + Decimal(i) + "" == "/" + Decimal(i);
        ReplaceItem(items, i, ops[0].value.value, cs);
      } else {
        ApplyBelow(Array(items), Decimal(i), i, ops[0], cs);
      }
      assert ApplyOp(Array(items), Under("/" + Decimal(i), ops[0]), cs) == Applied(OK, Array(rest));
      ApplyUnderItem(rest, i, ops[1..], cs);
      assert rest[i := ApplyOps(items[i], ops, cs).doc] == items[i := ApplyOps(items[i], ops, cs).doc];
    }
  }

  /** ns is ms with the value of one key changed, in some order. */
  ghost predicate Updated(ms: seq<Member>, ns: seq<Member>, key: string, v: JSON) {
    Distinct(ns) && Keys(ns) == Keys(ms) && Member(key, v) in ns &&
    forall m: Member :: m.key != key ==> (m in ms <==> m in ns)
  }

  /** One operation that acts on a member, or replaces it. */
  lemma {:induction false} ApplyUnderMemberOnce(ms: seq<Member>, i: nat, op: Op, cs: bool, top: iset<string>)
    returns (ns: seq<Member>)
    requires Unambiguous(top, cs) && KeysIn(ms, top) && Distinct(ms) && i < |ms|
    requires Fits(op) && (op.path == "" ==> Touchable(ms[i].key, top)) && ApplyOp(ms[i].value, op, cs).outcome == OK
    ensures ApplyOp(Object(ms), Under("/" + Encode(ms[i].key), op), cs) == Applied(OK, Object(ns))
    ensures Updated(ms, ns, ms[i].key, ApplyOp(ms[i].value, op, cs).doc) && KeysIn(ns, top)
  {
    var key := ms[i].key;
    if op.path == "" {
      assert "/" + Encode(key) + "" == "/" + Encode(key);
      ReplaceMember(ms, i, op.value.value, cs, top);
      RemoveAtKeys(ms, i);
      ns := RemoveAt(ms, i) + [Member(key, op.value.value)];
      AppendedKeys(RemoveAt(ms, i), Member(key, op.value.value));
      assert forall m: Member :: m.key != key ==> m != ms[i];
      assert forall m: Member :: m.key != key ==> (m in ms <==> m in ns);
      assert forall k :: 0 <= k < |ns| ==> ns[k].key in top;
    } else {
      forall k | 0 <= k < i
        ensures !SameKey(ms[k].key, key, cs)
      {
        assert ms[k].key in top && key in top;
        SameKeyIsEqual(top, ms[k].key, key, cs);
      }
      ApplyBelow(Object(ms), Encode(key), i, op, cs);
      var v := ApplyOp(ms[i].value, op, cs).doc;
      ns := ms[i := Member(key, v)];
      SetMember(ms, i, v);
    }
  }

  lemma {:induction false} SetMember(ms: seq<Member>, i: nat, v: JSON)
    requires Distinct(ms) && i < |ms|
    ensures Updated(ms, ms[i := Member(ms[i].key, v)], ms[i].key, v)
  {
    var ns := ms[i := Member(ms[i].key, v)];
    assert ns[i] == Member(ms[i].key, v);
    assert forall k :: 0 <= k < |ms| ==> ns[k].key == ms[k].key;
    forall m: Member | m.key != ms[i].key
      ensures m in ms <==> m in ns
    {
      if m in ms { var k :| 0 <= k < |ms| && ms[k] == m; assert ns[k] == m; }
      if m in ns { var k :| 0 <= k < |ns| && ns[k] == m; assert ms[k] == m; }
    }
    assert Keys(ns) == Keys(ms) by {
      forall k | 0 <= k < |ms|
        ensures ms[k].key in Keys(ns) && ns[k].key in Keys(ms)
      {
        assert ns[k] in ns && ms[k] in ms;
      }
    }
  }

  lemma {:induction false} ApplyUnderMember(ms: seq<Member>, i: nat, ops: seq<Op>, cs: bool, top: iset<string>)
    returns (ns: seq<Member>)
    requires Unambiguous(top, cs) && KeysIn(ms, top) && Distinct(ms) && i < |ms| &&
             (!Inner(ops) ==> Touchable(ms[i].key, top))
    requires AllFit(ops) && ApplyOps(ms[i].value, ops, cs).outcome == OK
    ensures ApplyOps(Object(ms), UnderAll("/" + Encode(ms[i].key), ops), cs) == Applied(OK, Object(ns))
    ensures Updated(ms, ns, ms[i].key, ApplyOps(ms[i].value, ops, cs).doc) && KeysIn(ns, top)
    decreases ops
  {
    if ops == [] {
      ns := ms;
      assert ms[i] in ms;
    } else {
      var key := ms[i].key;
      var mid := ApplyUnderMemberOnce(ms, i, ops[0], cs, top);
      var v := ApplyOp(ms[i].value, ops[0], cs).doc;
      assert Member(key, v) in mid;
      var j :| 0 <= j < |mid| && mid[j] == Member(key, v);
      ns := ApplyUnderMember(mid, j, ops[1..], cs, top);
    }
  }

  // ----- what the patches ask of the keys

  /** The keys of two objects that are walked side by side. */
  ghost function LevelKeys(ms: seq<Member>, ts: seq<Member>): iset<string> { iset k | k in Keys(ms) + Keys(ts) }

  /** What the patches for (from, to) ask of the keys. Keys that are merely walked through
      may be any that the mode tells apart. A key that is added must survive the in-place
      decoder; one that is removed or replaced as a whole must moreover not be confused with
      a sibling when case is ignored, which detach_path does in both modes. */
  ghost predicate Handled(from: JSON, to: JSON, cs: bool)
    decreases from, 1
  {
    match from
    case Array(items) =>
      to.Array? ==> forall i :: 0 <= i < |items| && i < |to.items| ==> Handled(items[i], to.items[i], cs)
    case Object(ms) =>
        to.Object? ==>
          Unambiguous(LevelKeys(ms, to.members), cs) && HandledMembers(ms, to.members, LevelKeys(ms, to.members), cs)
    case _ => true
  }

  ghost predicate HandledMembers(fs: seq<Member>, ts: seq<Member>, top: iset<string>, cs: bool)
    decreases fs, 0
  {
    (forall f :: f in fs && f.key !in Keys(ts) ==> Touchable(f.key, top)) &&
    (forall t :: t in ts && t.key !in Keys(fs) ==> Decodable(t.key)) &&
    forall f, t :: f in fs && t in ts && f.key == t.key ==>
      (Whole(f.value, t.value) ==> Touchable(f.key, top)) && Handled(f.value, t.value, cs)
  }

  lemma {:induction false} InLevel(ms: seq<Member>, ts: seq<Member>)
    ensures KeysIn(ms, LevelKeys(ms, ts)) && KeysIn(ts, LevelKeys(ms, ts))
  {
    assert forall i :: 0 <= i < |ms| ==> ms[i] in ms;
    assert forall i :: 0 <= i < |ts| ==> ts[i] in ts;
  }

  lemma {:induction false} ReplaceRoot(from: JSON, to: JSON, cs: bool)
    requires Height(to) <= CIRCULAR_LIMIT
    ensures ApplyOps(from, [Compose(REPLACE, "", to)], cs) == Applied(OK, to)
  {
    var ops := [Compose(REPLACE, "", to)];
    assert ApplyOps(to, ops[1..], cs) == Applied(OK, to);
  }

  lemma {:induction false} GoodMembers(ms: seq<Member>, ns: seq<Member>, keys: iset<string>)
    requires Good(Object(ms), keys) && forall m :: m in ns ==> m in ms
    ensures forall i :: 0 <= i < |ns| ==> Good(ns[i].value, keys)
  {
    forall i | 0 <= i < |ns|
      ensures Good(ns[i].value, keys)
    {
      assert ns[i] in ms;
    }
  }

  lemma {:induction false} ItemDone(doc: seq<JSON>, from: seq<JSON>, to: seq<JSON>, k: nat, cs: bool)
    requires k < |from| && k < |to| && k < |doc| && k < INDEX_LIMIT && Height(to[k]) <= CIRCULAR_LIMIT
    requires ApplyOps(doc[k], CreateOps("", from[k], to[k], cs), cs).outcome == OK
    ensures ApplyOps(Array(doc), ItemOps("", from, to, k, cs), cs) ==
            ApplyOps(Array(doc[k := ApplyOps(doc[k], CreateOps("", from[k], to[k], cs), cs).doc]),
              ItemOps("", from, to, k + 1, cs), cs)
  {
    var ops := CreateOps("", from[k], to[k], cs);
    CreateFits(from[k], to[k], cs);
    ChildOps(Decimal(k), from[k], to[k], cs);
    ApplyUnderItem(doc, k, ops, cs);
    ApplyOpsConcat(Array(doc), UnderAll("/" + Decimal(k), ops), ItemOps("", from, to, k + 1, cs), cs);
  }

  lemma {:induction false} TailDone(doc: seq<JSON>, from: seq<JSON>, to: seq<JSON>, k: nat, cs: bool)
    requires k <= |from| && k <= |to| && |doc| == |from| <= INDEX_LIMIT && (k == |from| || k == |to|)
    requires ItemsHeight(to) <= CIRCULAR_LIMIT
    ensures ApplyOps(Array(doc), ItemOps("", from, to, k, cs), cs) == Applied(OK, Array(doc[..k] + to[k..]))
  {
    RemoveTailApplies(doc, k, |from| - k, cs);
    ApplyOpsConcat(Array(doc), RemoveTail("", k, |from| - k), AddTail("", to[k..]), cs);
    TailHeight(to, k);
    AddTailApplies(doc[..k], to[k..], cs);
  }

  lemma {:induction false} TailHeight(items: seq<JSON>, k: nat)
    requires k <= |items|
    ensures ItemsHeight(items[k..]) <= ItemsHeight(items)
  {
    if k > 0 {
      TailHeight(items[1..], k - 1);
      assert items[1..][k - 1..] == items[k..];
    } else {
      assert items[k..] == items;
    }
  }

  lemma {:induction false} SameItems(a: seq<JSON>, b: seq<JSON>)
    requires |a| == |b| && forall i :: 0 <= i < |a| ==> Sem(a[i]) == Sem(b[i])
    ensures Sem(Array(a)) == Sem(Array(b))
  {
    forall i | 0 <= i < |a|
      ensures SemItems(a)[i] == SemItems(b)[i]
    {
      SemItemsAt(a, i);
      SemItemsAt(b, i);
    }
  }

  lemma {:induction false} RemoveTailHead(k: nat, count: nat)
    requires count > 0
    ensures RemoveTail("", k, count) == [Op(REMOVE, "/" + Encode(Decimal(k)), None)] + RemoveTail("", k, count - 1)
  {
    assert "" + "/" + Encode(Decimal(k)) == "/" + Encode(Decimal(k));
  }

  lemma {:induction false} RemoveTailStep(doc: seq<JSON>, k: nat, count: nat, cs: bool)
    requires k + count == |doc| && |doc| <= INDEX_LIMIT && count > 0
    ensures ApplyOps(Array(doc), RemoveTail("", k, count), cs) ==
            ApplyOps(Array(RemoveAt(doc, k)), RemoveTail("", k, count - 1), cs)
  {
    RemoveItem(doc, k, cs);
    RemoveTailHead(k, count);
    ApplyFirst(Array(doc), Op(REMOVE, "/" + Encode(Decimal(k)), None), RemoveTail("", k, count - 1), cs);
  }

  lemma {:induction false} RemoveTailApplies(doc: seq<JSON>, k: nat, count: nat, cs: bool)
    requires k + count == |doc| && |doc| <= INDEX_LIMIT
    ensures ApplyOps(Array(doc), RemoveTail("", k, count), cs) == Applied(OK, Array(doc[..k]))
    decreases count
  {
    if count > 0 {
      RemoveTailStep(doc, k, count, cs);
      RemoveTailApplies(RemoveAt(doc, k), k, count - 1, cs);
      assert RemoveAt(doc, k)[..k] == doc[..k];
    } else {
      assert doc[..k] == doc;
    }
  }

  lemma {:induction false} AddTailStep(doc: seq<JSON>, to: seq<JSON>, cs: bool)
    requires to != [] && ItemsHeight(to) <= CIRCULAR_LIMIT
    ensures ApplyOps(Array(doc), AddTail("", to), cs) == ApplyOps(Array(doc + [to[0]]), AddTail("", to[1..]), cs)
    ensures ItemsHeight(to[1..]) <= CIRCULAR_LIMIT
  {
    AppendItem(doc, to[0], cs);
    assert "" + "/" + Encode("-") == "/" + Encode("-");
    ApplyFirst(Array(doc), Compose(ADD, "/" + Encode("-"), to[0]), AddTail("", to[1..]), cs);
  }

  lemma {:induction false} AddTailApplies(doc: seq<JSON>, to: seq<JSON>, cs: bool)
    requires ItemsHeight(to) <= CIRCULAR_LIMIT
    ensures ApplyOps(Array(doc), AddTail("", to), cs) == Applied(OK, Array(doc + to))
    decreases |to|
  {
    if to == [] {
      assert doc + to == doc;
    } else {
      AddTailStep(doc, to, cs);
      AddTailApplies(doc + [to[0]], to[1..], cs);
      assert doc + [to[0]] + to[1..] == doc + to;
    }
  }

  /** A sorted list of members still to be walked. */
  ghost predicate Pending(ms: seq<Member>, cs: bool, top: iset<string>, keys: iset<string>) {
    Increasing(ms, cs) && Distinct(ms) && KeysIn(ms, top) &&
    forall i :: 0 <= i < |ms| ==> Good(ms[i].value, keys)
  }

  /** What holds of the object under change: the source members still to come are there
      unchanged, and the keys already treated, `done`, mean what the target says. */
  ghost predicate Between(ms: seq<Member>, fs: seq<Member>, done: map<string, Val>, top: iset<string>) {
    Distinct(ms) && KeysIn(ms, top) &&
    (forall m :: m in fs ==> m in ms) &&
    done.Keys !! Keys(fs) && Keys(ms) == Keys(fs) + done.Keys &&
    forall m :: m in ms && m.key in done ==> Sem(m.value) == done[m.key]
  }

  lemma {:induction false} SortedIsPending(ms: seq<Member>, cs: bool, top: iset<string>, keys: iset<string>)
    requires Unambiguous(top, cs) && KeysIn(ms, top) && Good(Object(ms), keys)
    ensures Pending(SortMembers(ms, cs), cs, top, keys) && Keys(SortMembers(ms, cs)) == Keys(ms)
    ensures SemMembers(SortMembers(ms, cs)) == SemMembers(ms)
    ensures forall m :: m in SortMembers(ms, cs) ==> m in ms
  {
    SortedObject(ms, cs, top);
    GoodMembers(ms, SortMembers(ms, cs), keys);
  }

  lemma {:induction false} EmptyPlus(m: map<string, Val>)
    ensures map[] + m == m
  {
  }

  lemma {:induction false} Start(ms: seq<Member>, ns: seq<Member>, cs: bool, top: iset<string>, keys: iset<string>)
    requires Unambiguous(top, cs) && KeysIn(ms, top) && KeysIn(ns, top) && Good(Object(ms), keys) &&
             Good(Object(ns), keys)
    ensures Pending(SortMembers(ms, cs), cs, top, keys) && Pending(SortMembers(ns, cs), cs, top, keys)
    ensures Between(ms, SortMembers(ms, cs), map[], top)
    ensures map[] + SemMembers(SortMembers(ns, cs)) == SemMembers(ns)
    ensures Keys(SortMembers(ms, cs)) == Keys(ms) && Keys(SortMembers(ns, cs)) == Keys(ns)
    ensures (forall m :: m in SortMembers(ms, cs) ==> m in ms) && forall m :: m in SortMembers(ns, cs) ==> m in ns
  {
    SortedIsPending(ms, cs, top, keys);
    SortedIsPending(ns, cs, top, keys);
    EmptyPlus(SemMembers(ns));
  }

  lemma {:induction false} HeadLeaves(ms: seq<Member>, cs: bool, top: iset<string>, keys: iset<string>)
    requires Pending(ms, cs, top, keys) && ms != []
    ensures Pending(ms[1..], cs, top, keys) && Keys(ms[1..]) == Keys(ms) - {ms[0].key} && ms[0].key in Keys(ms)
    ensures forall m :: m in ms[1..] ==> m in ms && m.key != ms[0].key
    ensures SemMembers(ms) == SemMembers(ms[1..])[ms[0].key := Sem(ms[0].value)]
    ensures ms[0].key in top
  {
    TailKeys(ms);
    TailPending(ms, cs, top, keys);
    assert ms[0] in ms;
  }

  lemma {:induction false} TailPending(ms: seq<Member>, cs: bool, top: iset<string>, keys: iset<string>)
    requires Pending(ms, cs, top, keys) && ms != []
    ensures Pending(ms[1..], cs, top, keys)
  {
    assert forall m :: m in ms[1..] ==> m in ms;
  }

  /** A key below the head of an increasing list is not in the list. */
  lemma {:induction false} BelowHead(key: string, ms: seq<Member>, cs: bool)
    requires Increasing(ms, cs)
    requires ms == [] || CompareStrings(key, ms[0].key, cs) < 0
    ensures key !in Keys(ms)
  {
    forall m | m in ms
      ensures m.key != key
    {
      var i :| 0 <= i < |ms| && ms[i] == m;
      if i > 0 { CmpTransitive(Folded(key, cs), Folded(ms[0].key, cs), Folded(m.key, cs)); }
      CmpZero(Folded(key, cs), Folded(m.key, cs));
    }
  }

  lemma {:induction false} MeansDone(ms: seq<Member>, done: map<string, Val>)
    requires Distinct(ms) && Keys(ms) == done.Keys
    requires forall m :: m in ms && m.key in done ==> Sem(m.value) == done[m.key]
    ensures SemMembers(ms) == done
  {
    forall i | 0 <= i < |ms|
      ensures done[ms[i].key] == Sem(ms[i].value)
    {
      assert ms[i] in ms && ms[i].key in Keys(ms);
    }
    SemMembersIs(ms, done);
  }

  lemma {:induction false} DropMember(ms: seq<Member>, fs: seq<Member>, done: map<string, Val>, cs: bool,
      top: iset<string>,
      keys: iset<string>) returns (ns: seq<Member>)
    requires Between(ms, fs, done, top) && Pending(fs, cs, top, keys) && fs != [] && Touchable(fs[0].key, top)
    ensures ApplyOp(Object(ms), Op(REMOVE, "/" + Encode(fs[0].key), None), cs) == Applied(OK, Object(ns))
    ensures Between(ns, fs[1..], done, top)
  {
    assert fs[0] in ms;
    var i :| 0 <= i < |ms| && ms[i] == fs[0];
    assert ms[i].key in top;
    RemoveMember(ms, i, cs, top);
    ns := RemoveAt(ms, i);
    DroppedBetween(ms, i, fs, done, cs, top, keys);
  }

  lemma {:induction false} DroppedBetween(ms: seq<Member>, i: nat, fs: seq<Member>, done: map<string, Val>, cs: bool,
      top: iset<string>,
      keys: iset<string>)
    requires Between(ms, fs, done, top) && Pending(fs, cs, top, keys) && fs != [] && i < |ms| && ms[i] == fs[0]
    ensures Between(RemoveAt(ms, i), fs[1..], done, top)
  {
    HeadLeaves(fs, cs, top, keys);
    RemoveAtKeys(ms, i);
    assert Keys(RemoveAt(ms, i)) == Keys(fs[1..]) + done.Keys;
  }

  lemma {:induction false} NewMember(ms: seq<Member>, fs: seq<Member>, t: Member, done: map<string, Val>, cs: bool,
      top: iset<string>,
      keys: iset<string>)
    requires Unambiguous(top, cs) && Between(ms, fs, done, top)
    requires t.key in top && Decodable(t.key) && t.key !in Keys(fs) && t.key !in done &&
             Height(t.value) <= CIRCULAR_LIMIT
    ensures ApplyOp(Object(ms), Compose(ADD, "/" + Encode(t.key), t.value), cs) == Applied(OK, Object(ms + [t]))
    ensures Between(ms + [t], fs, done[t.key := Sem(t.value)], top)
  {
    assert t == Member(t.key, t.value);
    AppendMember(ms, t.key, t.value, cs, top);
    AppendedKeys(ms, t);
    assert Keys(ms + [t]) == Keys(fs) + done[t.key := Sem(t.value)].Keys;
    assert KeysIn(ms + [t], top);
  }

  lemma {:induction false} KeepMember(ms: seq<Member>, fs: seq<Member>, ops: seq<Op>, done: map<string, Val>, cs: bool,
      top: iset<string>,
      keys: iset<string>) returns (ns: seq<Member>)
    requires Unambiguous(top, cs) && Between(ms, fs, done, top) && Pending(fs, cs, top, keys) && fs != []
    requires AllFit(ops) && (!Inner(ops) ==> Touchable(fs[0].key, top)) && ApplyOps(fs[0].value, ops, cs).outcome == OK
    ensures ApplyOps(Object(ms), UnderAll("/" + Encode(fs[0].key), ops), cs) == Applied(OK, Object(ns))
    ensures Between(ns, fs[1..], done[fs[0].key := Sem(ApplyOps(fs[0].value, ops, cs).doc)], top)
  {
    var f := fs[0];
    assert f in ms;
    var i :| 0 <= i < |ms| && ms[i] == f;
    HeadLeaves(fs, cs, top, keys);
    ns := ApplyUnderMember(ms, i, ops, cs, top);
    var v := ApplyOps(f.value, ops, cs).doc;
    KeptBetween(ms, ns, fs, v, done, cs, top, keys);
  }

  lemma {:induction false} KeptBetween(ms: seq<Member>, ns: seq<Member>, fs: seq<Member>, v: JSON, done: map<string,
      Val>, cs: bool,
      top: iset<string>, keys: iset<string>)
    requires Between(ms, fs, done, top) && Pending(fs, cs, top, keys) && fs != []
    requires Updated(ms, ns, fs[0].key, v) && KeysIn(ns, top)
    ensures Between(ns, fs[1..], done[fs[0].key := Sem(v)], top)
  {
    HeadLeaves(fs, cs, top, keys);
    var done' := done[fs[0].key := Sem(v)];
    assert Keys(ns) == Keys(fs[1..]) + done'.Keys;
    assert done'.Keys !! Keys(fs[1..]);
    forall m | m in ns && m.key in done'
      ensures Sem(m.value) == done'[m.key]
    {
      if m.key == fs[0].key { assert Member(fs[0].key, v) in ns; } else { assert m in ms; }
    }
  }

  lemma {:induction false} SourceHead(fs: seq<Member>, ts: seq<Member>, cs: bool)
    requires fs != [] && Increasing(ts, cs) && (ts == [] || CompareStrings(fs[0].key, ts[0].key, cs) < 0)
    ensures fs[0].key !in Keys(ts)
  {
    BelowHead(fs[0].key, ts, cs);
  }

  lemma {:induction false} HandledBoth(fs: seq<Member>, ts: seq<Member>, top: iset<string>, cs: bool)
    requires Distinct(fs) && Distinct(ts) && HandledMembers(fs, ts, top, cs)
    requires fs != [] && ts != [] && fs[0].key == ts[0].key
    ensures HandledMembers(fs[1..], ts[1..], top, cs)
    ensures (Whole(fs[0].value, ts[0].value) ==> Touchable(fs[0].key, top)) && Handled(fs[0].value, ts[0].value, cs)
  {
    TailKeys(fs);
    TailKeys(ts);
    assert fs[0] in fs && ts[0] in ts;
  }

  lemma {:induction false} HandledFrom(fs: seq<Member>, ts: seq<Member>, top: iset<string>, cs: bool)
    requires Distinct(fs) && HandledMembers(fs, ts, top, cs) && fs != [] && fs[0].key !in Keys(ts)
    ensures HandledMembers(fs[1..], ts, top, cs) && Touchable(fs[0].key, top)
  {
    TailKeys(fs);
    assert fs[0] in fs;
    assert forall t :: t in ts ==> t.key in Keys(ts);
  }

  lemma {:induction false} HandledTo(fs: seq<Member>, ts: seq<Member>, top: iset<string>, cs: bool)
    requires Distinct(ts) && HandledMembers(fs, ts, top, cs) && ts != [] && ts[0].key !in Keys(fs)
    ensures HandledMembers(fs, ts[1..], top, cs) && Decodable(ts[0].key)
  {
    TailKeys(ts);
    assert ts[0] in ts;
    assert forall f :: f in fs ==> f.key in Keys(fs);
  }

  lemma {:induction false} TailKeys(ms: seq<Member>)
    requires Distinct(ms) && ms != []
    ensures forall m :: m in ms[1..] <==> m in ms && m != ms[0]
    ensures forall m :: m in ms[1..] ==> m.key != ms[0].key
    ensures Keys(ms[1..]) == Keys(ms) - {ms[0].key}
  {
    assert ms == [ms[0]] + ms[1..];
    assert ms[0] !in ms[1..];
  }

  lemma {:induction false} HandledSorted(ms: seq<Member>, ts: seq<Member>, fs: seq<Member>, ns: seq<Member>,
      top: iset<string>, cs: bool)
    requires HandledMembers(ms, ts, top, cs) && Keys(fs) == Keys(ms) && Keys(ns) == Keys(ts)
    requires (forall m :: m in fs ==> m in ms) && forall m :: m in ns ==> m in ts
    ensures HandledMembers(fs, ns, top, cs)
  {
  }

  lemma {:induction false} WalkBoth(ms: seq<Member>, ns: seq<Member>, fs: seq<Member>, ts: seq<Member>, cs: bool)
    requires fs != [] && ts != [] && CompareStrings(fs[0].key, ts[0].key, cs) == 0
    requires ApplyOps(Object(ms), UnderAll("/" + Encode(fs[0].key), CreateOps("", fs[0].value, ts[0].value, cs)), cs) ==
             Applied(OK, Object(ns))
    ensures ApplyOps(Object(ms), MemberOps("", fs, ts, cs), cs) ==
            ApplyOps(Object(ns), MemberOps("", fs[1..], ts[1..], cs), cs)
  {
    var below := UnderAll("/" + Encode(fs[0].key), CreateOps("", fs[0].value, ts[0].value, cs));
    ChildOps(Encode(fs[0].key), fs[0].value, ts[0].value, cs);
    ApplyOpsConcat(Object(ms), below, MemberOps("", fs[1..], ts[1..], cs), cs);
  }

  lemma {:induction false} ApplyFirst(doc: JSON, op: Op, rest: seq<Op>, cs: bool)
    requires ApplyOp(doc, op, cs).outcome == OK
    ensures ApplyOps(doc, [op] + rest, cs) == ApplyOps(ApplyOp(doc, op, cs).doc, rest, cs)
  {
    assert ([op] + rest)[1..] == rest;
  }

  lemma {:induction false} WalkFrom(ms: seq<Member>, ns: seq<Member>, fs: seq<Member>, ts: seq<Member>, cs: bool)
    requires fs != [] && (ts == [] || CompareStrings(fs[0].key, ts[0].key, cs) < 0)
    requires ApplyOp(Object(ms), Op(REMOVE, "/" + Encode(fs[0].key), None), cs) == Applied(OK, Object(ns))
    ensures ApplyOps(Object(ms), MemberOps("", fs, ts, cs), cs) ==
            ApplyOps(Object(ns), MemberOps("", fs[1..], ts, cs), cs)
  {
    assert "" + "/" + Encode(fs[0].key) == "/" + Encode(fs[0].key);
    ApplyFirst(Object(ms), Op(REMOVE, "/" + Encode(fs[0].key), None), MemberOps("", fs[1..], ts, cs), cs);
  }

  lemma {:induction false} WalkTo(ms: seq<Member>, fs: seq<Member>, ts: seq<Member>, cs: bool)
    requires ts != [] && (fs == [] || CompareStrings(fs[0].key, ts[0].key, cs) > 0)
    requires ApplyOp(Object(ms), Compose(ADD, "/" + Encode(ts[0].key), ts[0].value), cs) ==
             Applied(OK, Object(ms + [ts[0]]))
    ensures ApplyOps(Object(ms), MemberOps("", fs, ts, cs), cs) ==
            ApplyOps(Object(ms + [ts[0]]), MemberOps("", fs, ts[1..], cs), cs)
  {
    assert "" + "/" + Encode(ts[0].key) == "/" + Encode(ts[0].key);
    ApplyFirst(Object(ms), Compose(ADD, "/" + Encode(ts[0].key), ts[0].value), MemberOps("", fs, ts[1..], cs), cs);
  }

  lemma {:induction false} PutCommutes(a: map<string, Val>, b: map<string, Val>, k: string, v: Val)
    requires k !in b
    ensures a[k := v] + b == a + b[k := v]
  {
  }

  lemma {:induction false} TreatHead(ts: seq<Member>, done: map<string, Val>)
    requires Distinct(ts) && ts != [] && done.Keys !! Keys(ts)
    ensures done[ts[0].key := Sem(ts[0].value)].Keys !! Keys(ts[1..])
    ensures done[ts[0].key := Sem(ts[0].value)] + SemMembers(ts[1..]) == done + SemMembers(ts)
  {
    SemMembersKeys(ts[1..]);
    assert forall m :: m in ts[1..] ==> m in ts && m.key != ts[0].key;
    PutCommutes(done, SemMembers(ts[1..]), ts[0].key, Sem(ts[0].value));
  }

  lemma {:induction false} BothHeads(fs: seq<Member>, ts: seq<Member>, done: map<string, Val>, cs: bool,
      top: iset<string>,
      keys: iset<string>)
    requires Unambiguous(top, cs) && Pending(fs, cs, top, keys) && Pending(ts, cs, top, keys) && done.Keys !! Keys(ts)
    requires fs != [] && ts != [] && CompareStrings(fs[0].key, ts[0].key, cs) == 0
    ensures fs[0].key == ts[0].key && Pending(fs[1..], cs, top, keys) && Pending(ts[1..], cs, top, keys)
    ensures Height(fs[0].value) < MembersHeight(fs) && Height(ts[0].value) < MembersHeight(ts)
    ensures done[fs[0].key := Sem(ts[0].value)].Keys !! Keys(ts[1..])
    ensures done[fs[0].key := Sem(ts[0].value)] + SemMembers(ts[1..]) == done + SemMembers(ts)
  {
    HeadLeaves(fs, cs, top, keys);
    HeadLeaves(ts, cs, top, keys);
    CmpZero(Folded(fs[0].key, cs), Folded(ts[0].key, cs));
    SameKeyIsEqual(top, fs[0].key, ts[0].key, cs);
    MemberHeight(fs, 0);
    MemberHeight(ts, 0);
    TreatHead(ts, done);
  }

  lemma {:induction false} TargetHead(fs: seq<Member>, ts: seq<Member>, done: map<string, Val>, cs: bool,
      top: iset<string>,
      keys: iset<string>)
    requires Pending(fs, cs, top, keys) && Pending(ts, cs, top, keys) && done.Keys !! Keys(ts)
    requires ts != [] && (fs == [] || CompareStrings(fs[0].key, ts[0].key, cs) > 0)
    ensures Pending(ts[1..], cs, top, keys) && Height(ts[0].value) < MembersHeight(ts)
    ensures ts[0].key in top && ts[0].key !in Keys(fs) && ts[0].key !in done
    ensures done[ts[0].key := Sem(ts[0].value)].Keys !! Keys(ts[1..])
    ensures done[ts[0].key := Sem(ts[0].value)] + SemMembers(ts[1..]) == done + SemMembers(ts)
  {
    HeadLeaves(ts, cs, top, keys);
    if fs != [] { CmpFlip(Folded(ts[0].key, cs), Folded(fs[0].key, cs)); }
    BelowHead(ts[0].key, fs, cs);
    MemberHeight(ts, 0);
    TreatHead(ts, done);
  }

  // ----- one turn of the walk

  /** The state of the walk: the object under change, the members still to come on both
      sides, and what is done. */
  ghost predicate Walking(ms: seq<Member>, fs: seq<Member>, ts: seq<Member>, done: map<string, Val>, cs: bool,
      top: iset<string>, keys: iset<string>)
  {
    Unambiguous(top, cs) && Between(ms, fs, done, top) && Pending(fs, cs, top, keys) && Pending(ts, cs, top, keys) &&
    done.Keys !! Keys(ts) && HandledMembers(fs, ts, top, cs) && MembersHeight(ts) <= CIRCULAR_LIMIT
  }

  lemma {:induction false} CommonHead(ms: seq<Member>, fs: seq<Member>, ts: seq<Member>, done: map<string, Val>,
      cs: bool, top: iset<string>, keys: iset<string>)
    requires Walking(ms, fs, ts, done, cs, top, keys) && fs != [] && ts != []
    requires CompareStrings(fs[0].key, ts[0].key, cs) == 0
    ensures Good(fs[0].value, keys) && Good(ts[0].value, keys) && Handled(fs[0].value, ts[0].value, cs)
    ensures Height(fs[0].value) < MembersHeight(fs) && Height(ts[0].value) <= CIRCULAR_LIMIT
  {
    BothHeads(fs, ts, done, cs, top, keys);
    HandledBoth(fs, ts, top, cs);
  }

  /** A key of both documents, when the patches below it do what they should. */
  lemma {:induction false} StepBoth(ms: seq<Member>, fs: seq<Member>, ts: seq<Member>, done: map<string, Val>, cs: bool,
      top: iset<string>, keys: iset<string>) returns (ns: seq<Member>, next: map<string, Val>)
    requires Walking(ms, fs, ts, done, cs, top, keys) && fs != [] && ts != []
    requires CompareStrings(fs[0].key, ts[0].key, cs) == 0
    requires var r := ApplyOps(fs[0].value, CreateOps("", fs[0].value, ts[0].value, cs), cs);
             r.outcome == OK && Sem(r.doc) == Sem(ts[0].value)
    ensures Walking(ns, fs[1..], ts[1..], next, cs, top, keys) && next + SemMembers(ts[1..]) == done + SemMembers(ts)
    ensures ApplyOps(Object(ms), MemberOps("", fs, ts, cs), cs) ==
            ApplyOps(Object(ns), MemberOps("", fs[1..], ts[1..], cs), cs)
  {
    BothHeads(fs, ts, done, cs, top, keys);
    HandledBoth(fs, ts, top, cs);
    CreateFits(fs[0].value, ts[0].value, cs);
    ns := KeepMember(ms, fs, CreateOps("", fs[0].value, ts[0].value, cs), done, cs, top, keys);
    next := done[fs[0].key := Sem(ts[0].value)];
    WalkBoth(ms, ns, fs, ts, cs);
  }

  /** A key of the source alone. */
  lemma {:induction false} StepFrom(ms: seq<Member>, fs: seq<Member>, ts: seq<Member>, done: map<string, Val>, cs: bool,
      top: iset<string>, keys: iset<string>) returns (ns: seq<Member>)
    requires Walking(ms, fs, ts, done, cs, top, keys) && fs != []
    requires ts == [] || CompareStrings(fs[0].key, ts[0].key, cs) < 0
    ensures Walking(ns, fs[1..], ts, done, cs, top, keys)
    ensures ApplyOps(Object(ms), MemberOps("", fs, ts, cs), cs) ==
            ApplyOps(Object(ns), MemberOps("", fs[1..], ts, cs), cs)
  {
    HeadLeaves(fs, cs, top, keys);
    SourceHead(fs, ts, cs);
    HandledFrom(fs, ts, top, cs);
    ns := DropMember(ms, fs, done, cs, top, keys);
    WalkFrom(ms, ns, fs, ts, cs);
  }

  /** A key of the target alone. */
  lemma {:induction false} StepTo(ms: seq<Member>, fs: seq<Member>, ts: seq<Member>, done: map<string, Val>, cs: bool,
      top: iset<string>, keys: iset<string>) returns (ns: seq<Member>, next: map<string, Val>)
    requires Walking(ms, fs, ts, done, cs, top, keys) && ts != []
    requires fs == [] || CompareStrings(fs[0].key, ts[0].key, cs) > 0
    ensures Walking(ns, fs, ts[1..], next, cs, top, keys) && next + SemMembers(ts[1..]) == done + SemMembers(ts)
    ensures ApplyOps(Object(ms), MemberOps("", fs, ts, cs), cs) ==
            ApplyOps(Object(ns), MemberOps("", fs, ts[1..], cs), cs)
  {
    TargetHead(fs, ts, done, cs, top, keys);
    HandledTo(fs, ts, top, cs);
    NewMember(ms, fs, ts[0], done, cs, top, keys);
    WalkTo(ms, fs, ts, cs);
    ns, next := ms + [ts[0]], done[ts[0].key := Sem(ts[0].value)];
  }
}
