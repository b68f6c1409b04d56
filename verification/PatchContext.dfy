/** How patch operations act below a child: a path that begins with the token of a child
    acts on that child as the rest of the path acts on it alone. */
module PatchContext {
  import opened Json
  import opened KeyOrder
  import opened Members
  import opened Numbers
  import opened Pointer
  import opened PointerDecode
  import opened Patch

  predicate HasKid(d: JSON, i: nat) {
    (d.Array? && i < |d.items|) || (d.Object? && i < |d.members|)
  }

  function Kid(d: JSON, i: nat): JSON
    requires HasKid(d, i)
  {
    if d.Array? then d.items[i] else d.members[i].value
  }

  function SetKid(d: JSON, i: nat, x: JSON): (r: JSON)
    requires HasKid(d, i)
    ensures HasKid(r, i) && Kid(r, i) == x
  {
    if d.Array? then Array(d.items[i := x]) else Object(d.members[i := Member(d.members[i].key, x)])
  }

  /** The token names child i: its decimal index, or its key when no earlier member
      shares it. */
  ghost predicate Names(d: JSON, token: string, i: nat, cs: bool) {
    HasKid(d, i) &&
    if d.Array? then i < INDEX_LIMIT && token == Decimal(i)
    else
      token == Encode(d.members[i].key) &&
      forall k :: 0 <= k < i ==> !SameKey(d.members[k].key, d.members[i].key, cs)
  }

  lemma {:induction false} NamesStays(d: JSON, token: string, i: nat, cs: bool, x: JSON)
    requires Names(d, token, i, cs)
    ensures Names(SetKid(d, i, x), token, i, cs)
  {
  }

  lemma {:induction false} ResolveKid(d: JSON, token: string, i: nat, rest: string, cs: bool)
    requires Names(d, token, i, cs) && EndsToken(rest)
    ensures Resolve(d, "/" + token + rest, cs) == Below(i, Resolve(Kid(d, i), rest, cs))
  {
    if d.Array? {
      ResolveItem(d.items, i, rest, cs);
    } else {
      ResolveMember(d.members, i, rest, cs);
    }
  }

  lemma {:induction false} PutAtKid(d: JSON, i: nat, a: Address, x: JSON)
    requires HasKid(d, i) && Valid(Kid(d, i), a)
    ensures Valid(d, [i] + a) && At(d, [i] + a) == At(Kid(d, i), a)
    ensures PutAt(d, [i] + a, x) == SetKid(d, i, PutAt(Kid(d, i), a, x))
  {
    assert ([i] + a)[1..] == a;
  }

  lemma {:induction false} LastSlashIn(prefix: string, rest: string)
    ensures LastSlash(rest).Some? ==> LastSlash(prefix + rest) == Some(|prefix| + LastSlash(rest).value)
    ensures LastSlash(rest).None? ==> LastSlash(prefix + rest) == LastSlash(prefix)
  {
    if rest == [] {
      assert prefix + rest == prefix;
    } else if rest[|rest| - 1] != '/' {
      LastSlashIn(prefix, rest[..|rest| - 1]);
      assert (prefix + rest)[..|prefix + rest| - 1] == prefix + rest[..|rest| - 1];
    }
  }

  lemma {:induction false} NoSlash(token: string)
    requires forall k :: 0 <= k < |token| ==> token[k] != '/'
    ensures LastSlash(token) == None
  {
    if token != [] { NoSlash(token[..|token| - 1]); }
  }

  lemma {:induction false} SlashFirst(p: string)
    requires p != [] && p[0] == '/'
    ensures LastSlash(p).Some?
  {
    if |p| > 1 { SlashFirst(p[..|p| - 1]); }
  }

  /** Where the path "/token" + rest splits: at the last '/' of rest. */
  lemma {:induction false} SplitBelow(token: string, rest: string) returns (k: nat, n: nat, head: string, child: string)
    requires rest != [] && rest[0] == '/'
    ensures LastSlash(rest) == Some(k) && head == rest[..k] && child == rest[k + 1..] && EndsToken(head)
    ensures var p := "/" + token + rest;
            LastSlash(p) == Some(n) && p[..n] == "/" + token + head && p[n + 1..] == child
  {
    SlashFirst(rest);
    LastSlashIn("/" + token, rest);
    k := LastSlash(rest).value;
    n, head, child := 1 + |token| + k, rest[..k], rest[k + 1..];
  }

  lemma {:induction false} BeneathKid(d: JSON, token: string, i: nat, head: string, child: string, v: JSON, cs: bool)
    requires Names(d, token, i, cs) && EndsToken(head)
    ensures DetachBeneath(d, "/" + token + head, child, cs) ==
            match DetachBeneath(Kid(d, i), head, child, cs) case None => None case Some(c) => Some(SetKid(d, i, c))
    ensures var c := InsertBeneath(Kid(d, i), head, child, v, cs);
            InsertBeneath(d, "/" + token + head, child, v, cs) == Applied(c.outcome, SetKid(d, i, c.doc))
  {
    ResolveKid(d, token, i, head, cs);
    var r := Resolve(Kid(d, i), head, cs);
    SetSame(d, i);
    if r.Some? {
      ResolveIsValid(Kid(d, i), head, cs);
      UnderKid(d, i, r.value, DecodeInPlace(child), v, cs);
    }
  }

  lemma {:induction false} DetachBelow(d: JSON, token: string, i: nat, rest: string, cs: bool)
    requires Names(d, token, i, cs) && rest != [] && rest[0] == '/'
    ensures DetachPath(d, "/" + token + rest, cs) ==
            match DetachPath(Kid(d, i), rest, cs)
            case None => None
            case Some(c) => Some(SetKid(d, i, c))
  {
    var k, n, head, child := SplitBelow(token, rest);
    BeneathKid(d, token, i, head, child, Null, cs);
    SplitPath(d, "/" + token + rest, n, Null, cs);
    SplitPath(Kid(d, i), rest, k, Null, cs);
  }

  lemma {:induction false} SplitPath(d: JSON, p: string, k: nat, v: JSON, cs: bool)
    requires LastSlash(p) == Some(k)
    ensures DetachPath(d, p, cs) == DetachBeneath(d, p[..k], p[k + 1..], cs)
    ensures InsertPath(d, p, v, cs) == InsertBeneath(d, p[..k], p[k + 1..], v, cs)
  {
  }

  lemma {:induction false} UnderKid(d: JSON, i: nat, a: Address, child: string, v: JSON, cs: bool)
    requires HasKid(d, i) && Valid(Kid(d, i), a)
    ensures Valid(d, [i] + a)
    ensures DetachUnder(d, [i] + a, child) ==
            match DetachUnder(Kid(d, i), a, child) case None => None case Some(c) => Some(SetKid(d, i, c))
    ensures var c := InsertUnder(Kid(d, i), a, child, v, cs);
            InsertUnder(d, [i] + a, child, v, cs) == Applied(c.outcome, SetKid(d, i, c.doc))
  {
    var x := DetachChild(At(Kid(d, i), a), child);
    PutAtKid(d, i, a, if x.Some? then x.value else Null);
    PutAtKid(d, i, a, InsertChild(At(Kid(d, i), a), child, v, cs).doc);
  }

  lemma {:induction false} InsertBelow(d: JSON, token: string, i: nat, rest: string, v: JSON, cs: bool)
    requires Names(d, token, i, cs) && rest != [] && rest[0] == '/'
    ensures var c := InsertPath(Kid(d, i), rest, v, cs);
            InsertPath(d, "/" + token + rest, v, cs) == Applied(c.outcome, SetKid(d, i, c.doc))
  {
    var k, n, head, child := SplitBelow(token, rest);
    BeneathKid(d, token, i, head, child, v, cs);
    SplitPath(d, "/" + token + rest, n, v, cs);
    SplitPath(Kid(d, i), rest, k, v, cs);
  }

  lemma {:induction false} SetSame(d: JSON, i: nat)
    requires HasKid(d, i)
    ensures SetKid(d, i, Kid(d, i)) == d
  {
    if d.Array? { assert d.items[i := d.items[i]] == d.items; }
    else { assert d.members[i := Member(d.members[i].key, d.members[i].value)] == d.members; }
  }

  lemma {:induction false} SetTwice(d: JSON, i: nat, x: JSON, y: JSON)
    requires HasKid(d, i)
    ensures SetKid(SetKid(d, i, x), i, y) == SetKid(d, i, y)
  {
    if d.Array? { assert d.items[i := x][i := y] == d.items[i := y]; }
    else {
      var k := d.members[i].key;
      assert d.members[i := Member(k, x)][i := Member(k, y)] == d.members[i := Member(k, y)];
    }
  }

  function Under(prefix: string, op: Op): Op { op.(path := prefix + op.path) }

  /** An operation moved below a child does to the child what it does alone, and nothing
      to the rest of the document. */
  lemma {:induction false} ApplyBelow(d: JSON, token: string, i: nat, op: Op, cs: bool)
    requires Names(d, token, i, cs) && op.path != "" && op.path[0] == '/'
    ensures var c := ApplyOp(Kid(d, i), op, cs);
            ApplyOp(d, Under("/" + token, op), cs) == Applied(c.outcome, SetKid(d, i, c.doc))
  {
    var up := Under("/" + token, op);
    SetSame(d, i);
    if op.kind == REMOVE || op.kind == REPLACE {
      DetachBelow(d, token, i, op.path, cs);
      var x := DetachPath(Kid(d, i), op.path, cs);
      if x.Some? && op.kind == REPLACE {
        NamesStays(d, token, i, cs, x.value);
        AddBelow(SetKid(d, i, x.value), token, i, op, cs);
        SetTwice(d, i, x.value, AddValue(x.value, op, cs).doc);
      }
    } else if op.kind == ADD {
      AddBelow(d, token, i, op, cs);
    }
  }

  lemma {:induction false} AddBelow(d: JSON, token: string, i: nat, op: Op, cs: bool)
    requires Names(d, token, i, cs) && op.path != "" && op.path[0] == '/'
    ensures var c := AddValue(Kid(d, i), op, cs);
            AddValue(d, Under("/" + token, op), cs) == Applied(c.outcome, SetKid(d, i, c.doc))
  {
    SetSame(d, i);
    if op.value.Some? { InsertBelow(d, token, i, op.path, op.value.value, cs); }
  }

  // ----- operations on a child of an object or array

  /** The parent and child parts of the path "/token". */
  lemma {:induction false} SplitToken(token: string)
    requires forall k :: 0 <= k < |token| ==> token[k] != '/'
    ensures var p := "/" + token; LastSlash(p) == Some(0) && p[..0] == "" && p[1..] == token
  {
    NoSlash(token);
    LastSlashIn("/", token);
    assert LastSlash("/") == Some(0);
  }

  lemma {:induction false} IndexToken(i: nat)
    requires i < INDEX_LIMIT
    ensures Encode(Decimal(i)) == Decimal(i) && DecodeInPlace(Decimal(i)) == Decimal(i)
    ensures DecodeIndex(Decimal(i)) == Some(i) && Decimal(i) != "-"
    ensures forall k :: 0 <= k < |Decimal(i)| ==> Decimal(i)[k] != '/'
  {
    DecimalDigits(i);
    PlainIsDecodable(Decimal(i));
    DecodeDecimal(i, "");
    assert Decimal(i) + "" == Decimal(i);
  }

  lemma {:induction false} RemoveItem(items: seq<JSON>, i: nat, cs: bool)
    requires i < |items| && i < INDEX_LIMIT
    ensures ApplyOp(Array(items), Op(REMOVE, "/" + Encode(Decimal(i)), None), cs) ==
            Applied(OK, Array(RemoveAt(items, i)))
  {
    IndexToken(i);
    SplitToken(Decimal(i));
  }

  lemma {:induction false} AppendItem(items: seq<JSON>, v: JSON, cs: bool)
    requires Height(v) <= CIRCULAR_LIMIT
    ensures ApplyOp(Array(items), Compose(ADD, "/" + Encode("-"), v), cs) == Applied(OK, Array(items + [v]))
  {
    assert forall k :: 0 <= k < |"-"| ==> "-"[k] == '-';
    PlainIsDecodable("-");
    SplitToken("-");
  }

  lemma {:induction false} ReplaceItem(items: seq<JSON>, i: nat, v: JSON, cs: bool)
    requires i < |items| && i < INDEX_LIMIT && Height(v) <= CIRCULAR_LIMIT
    ensures ApplyOp(Array(items), Op(REPLACE, "/" + Decimal(i), Some(v)), cs) == Applied(OK, Array(items[i := v]))
  {
    IndexToken(i);
    SplitToken(Decimal(i));
    var rest := RemoveAt(items, i);
    assert DetachPath(Array(items), "/" + Decimal(i), cs) == Some(Array(rest));
    assert InsertAt(rest, i, v) == items[i := v];
    assert InsertPath(Array(rest), "/" + Decimal(i), v, cs) == Applied(OK, Array(items[i := v]));
  }

  /** A key the operations can address: the in-place decoder gets it right. */
  lemma {:induction false} KeyToken(key: string)
    requires Decodable(key)
    ensures DecodeInPlace(Encode(key)) == key
    ensures forall k :: 0 <= k < |Encode(key)| ==> Encode(key)[k] != '/'
  {
    DecodeUndoesEncode(key);
    EncodedHasNoSlash(key);
  }

  /** A key that removals and replacements can address: the in-place decoder gets it right
      and no other key around is told apart from it by case alone. */
  ghost predicate Touchable(key: string, top: iset<string>) {
    Decodable(key) && forall k :: k in top && Fold(k) == Fold(key) ==> k == key
  }

  lemma {:induction false} DetachMember(ms: seq<Member>, i: nat, cs: bool, top: iset<string>)
    requires KeysIn(ms, top) && Distinct(ms) && i < |ms| && Touchable(ms[i].key, top)
    ensures DetachPath(Object(ms), "/" + Encode(ms[i].key), cs) == Some(Object(RemoveAt(ms, i)))
  {
    KeyToken(ms[i].key);
    SplitToken(Encode(ms[i].key));
    FoundByFold(ms, i, top);
  }

  lemma {:induction false} InsertMember(ms: seq<Member>, key: string, v: JSON, cs: bool, top: iset<string>)
    requires Unambiguous(top, cs) && KeysIn(ms, top) && key in top && key !in Keys(ms) && Decodable(key)
    ensures InsertPath(Object(ms), "/" + Encode(key), v, cs) == Applied(OK, Object(ms + [Member(key, v)]))
  {
    KeyToken(key);
    SplitToken(Encode(key));
    FindKeyNone(ms, key, cs, top);
  }

  lemma {:induction false} RemoveMember(ms: seq<Member>, i: nat, cs: bool, top: iset<string>)
    requires KeysIn(ms, top) && Distinct(ms) && i < |ms| && Touchable(ms[i].key, top)
    ensures ApplyOp(Object(ms), Op(REMOVE, "/" + Encode(ms[i].key), None), cs) ==
            Applied(OK, Object(RemoveAt(ms, i)))
  {
    DetachMember(ms, i, cs, top);
  }

  lemma {:induction false} FoundByFold(ms: seq<Member>, i: nat, top: iset<string>)
    requires KeysIn(ms, top) && Distinct(ms) && i < |ms| && Touchable(ms[i].key, top)
    ensures FindKey(ms, ms[i].key, false) == i
  {
    var f := FindKey(ms, ms[i].key, false);
    assert SameKey(ms[i].key, ms[i].key, false);
    assert f <= i && ms[f].key in top;
  }

  lemma {:induction false} AppendMember(ms: seq<Member>, key: string, v: JSON, cs: bool, top: iset<string>)
    requires Unambiguous(top, cs) && KeysIn(ms, top) && key in top && key !in Keys(ms)
    requires Decodable(key) && Height(v) <= CIRCULAR_LIMIT
    ensures ApplyOp(Object(ms), Compose(ADD, "/" + Encode(key), v), cs) ==
            Applied(OK, Object(ms + [Member(key, v)]))
  {
    InsertMember(ms, key, v, cs, top);
  }

  lemma {:induction false} ReplaceMember(ms: seq<Member>, i: nat, v: JSON, cs: bool, top: iset<string>)
    requires Unambiguous(top, cs) && KeysIn(ms, top) && Distinct(ms) && i < |ms|
    requires Touchable(ms[i].key, top) && Height(v) <= CIRCULAR_LIMIT
    ensures ApplyOp(Object(ms), Op(REPLACE, "/" + Encode(ms[i].key), Some(v)), cs) ==
            Applied(OK, Object(RemoveAt(ms, i) + [Member(ms[i].key, v)]))
  {
    DetachMember(ms, i, cs, top);
    RemoveAtKeys(ms, i);
    InsertMember(RemoveAt(ms, i), ms[i].key, v, cs, top);
  }

  // ----- sequences of operations below a child

  function UnderAll(prefix: string, ops: seq<Op>): seq<Op> {
    if ops == [] then [] else [Under(prefix, ops[0])] + UnderAll(prefix, ops[1..])
  }

  lemma {:induction false} UnderAllConcat(prefix: string, a: seq<Op>, b: seq<Op>)
    ensures UnderAll(prefix, a + b) == UnderAll(prefix, a) + UnderAll(prefix, b)
  {
    if a == [] {
      assert a + b == b;
    } else {
      assert (a + b)[1..] == a[1..] + b;
      UnderAllConcat(prefix, a[1..], b);
    }
  }

  lemma {:induction false} ApplyOpsConcat(doc: JSON, a: seq<Op>, b: seq<Op>, cs: bool)
    requires ApplyOps(doc, a, cs).outcome == OK
    ensures ApplyOps(doc, a + b, cs) == ApplyOps(ApplyOps(doc, a, cs).doc, b, cs)
    decreases a
  {
    if a == [] {
      assert a + b == b;
    } else {
      assert (a + b)[1..] == a[1..] + b;
      ApplyOpsConcat(ApplyOp(doc, a[0], cs).doc, a[1..], b, cs);
    }
  }

  // ----- generation is uniform in the path

  /** The patches generated below a path are those generated at the root, moved there. */
  lemma {:induction false} CreateUnder(prefix: string, path: string, from: JSON, to: JSON, cs: bool)
    ensures CreateOps(prefix + path, from, to, cs) == UnderAll(prefix, CreateOps(path, from, to, cs))
    decreases Height(from), 1, 0
  {
    if SameType(from, to) {
      match from
      case Array(items) => ItemsUnder(prefix, path, items, to.items, 0, cs);
      case Object(ms) =>
        SortMembersHeight(ms, cs);
        MembersUnder(prefix, path, SortMembers(ms, cs), SortMembers(to.members, cs), cs);
      case _ =>
    }
  }

  lemma {:induction false} ItemsUnder(prefix: string, path: string, from: seq<JSON>, to: seq<JSON>, k: nat, cs: bool)
    requires k <= |from| && k <= |to|
    ensures ItemOps(prefix + path, from, to, k, cs) == UnderAll(prefix, ItemOps(path, from, to, k, cs))
    decreases ItemsHeight(from), 0, |from| - k
  {
    if k < |from| && k < |to| {
      ItemHeight(from, k);
      var token := "/" + Decimal(k);
      assert prefix + path + "/" + Decimal(k) == prefix + (path + "/" + Decimal(k));
      CreateUnder(prefix, path + "/" + Decimal(k), from[k], to[k], cs);
      ItemsUnder(prefix, path, from, to, k + 1, cs);
      UnderAllConcat(prefix, CreateOps(path + "/" + Decimal(k), from[k], to[k], cs),
        ItemOps(path, from, to, k + 1, cs));
    } else {
      RemoveTailUnder(prefix, path, k, |from| - k);
      AddTailUnder(prefix, path, to[k..]);
      UnderAllConcat(prefix, RemoveTail(path, k, |from| - k), AddTail(path, to[k..]));
    }
  }

  lemma {:induction false} RemoveTailUnder(prefix: string, path: string, index: nat, count: nat)
    ensures RemoveTail(prefix + path, index, count) == UnderAll(prefix, RemoveTail(path, index, count))
  {
    if count > 0 {
      var t := Encode(Decimal(index));
      assert prefix + path + "/" + t == prefix + (path + "/" + t);
      RemoveTailUnder(prefix, path, index, count - 1);
    }
  }

  lemma {:induction false} AddTailUnder(prefix: string, path: string, to: seq<JSON>)
    ensures AddTail(prefix + path, to) == UnderAll(prefix, AddTail(path, to))
  {
    if to != [] {
      assert prefix + path + "/" + Encode("-") == prefix + (path + "/" + Encode("-"));
      AddTailUnder(prefix, path, to[1..]);
    }
  }

  lemma {:induction false} MembersUnder(prefix: string, path: string, fs: seq<Member>, ts: seq<Member>, cs: bool)
    ensures MemberOps(prefix + path, fs, ts, cs) == UnderAll(prefix, MemberOps(path, fs, ts, cs))
    decreases MembersHeight(fs), 0, |fs| + |ts|
  {
    if fs != [] || ts != [] {
      var diff := if fs == [] then 1 else if ts == [] then -1 else CompareStrings(fs[0].key, ts[0].key, cs);
      var t := Encode(if diff <= 0 then fs[0].key else ts[0].key);
      assert prefix + path + "/" + t == prefix + (path + "/" + t);
      if diff == 0 {
        MemberHeight(fs, 0);
        CreateUnder(prefix, path + "/" + t, fs[0].value, ts[0].value, cs);
        MembersUnder(prefix, path, fs[1..], ts[1..], cs);
        UnderAllConcat(prefix, CreateOps(path + "/" + t, fs[0].value, ts[0].value, cs),
          MemberOps(path, fs[1..], ts[1..], cs));
      } else if diff < 0 {
        MembersUnder(prefix, path, fs[1..], ts, cs);
      } else {
        MembersUnder(prefix, path, fs, ts[1..], cs);
      }
    }
  }
}
