/** Where patch round trips stop. */
module PatchLimits {
  // Exact conditions on the keys.

  import opened Json
  import opened KeyOrder
  import opened Members
  import opened Numbers
  import opened Pointer
  import opened PointerDecode
  import opened Patch
  import opened PatchContext
  import opened PatchWalk

  // ----- adding a member

  /** Adding one member round trips exactly for the decodable keys, whatever else the
      object holds. */
  lemma {:induction false} AddRoundTripsExactly(ms: seq<Member>, key: string, v: JSON, cs: bool, top: iset<string>)
    requires Distinct(ms) && KeysIn(ms, top) && key in top && key !in Keys(ms) && Unambiguous(top, cs)
    requires Height(v) <= CIRCULAR_LIMIT
    ensures var from, to := Object(ms), Object(ms + [Member(key, v)]);
            var r := ApplyOps(from, CreateOps("", from, to, cs), cs);
            r.outcome == OK && (Sem(r.doc) == Sem(to) <==> Decodable(key))
  {
    var op := Compose(ADD, "/" + Encode(key), v);
    AddedOnly(ms, Member(key, v), cs, top);
    var stored := AddStores(ms, key, v, cs);
    ApplyFirst(Object(ms), op, [], cs);
    assert [op] + [] == [op];
    AppendedMeaning(ms, Member(key, v));
    if stored == key {
      FindKeyNone(ms, key, cs, top);
    } else {
      NotStored(ms, key, stored, v, cs);
      assert key in SemMembers(ms + [Member(key, v)]);
    }
  }

  /** What an addition under a key of the root object does: it replaces the member with
      the key the in-place decoder leaves. */
  lemma {:induction false} AddStores(ms: seq<Member>, key: string, v: JSON, cs: bool) returns (stored: string)
    requires Height(v) <= CIRCULAR_LIMIT
    ensures stored == key <==> Decodable(key)
    ensures ApplyOp(Object(ms), Compose(ADD, "/" + Encode(key), v), cs) ==
            Applied(OK, Object(DeleteKey(ms, stored, cs) + [Member(stored, v)]))
  {
    EncodedHasNoSlash(key);
    SplitToken(Encode(key));
    stored := DecodeInPlace(Encode(key));
    DecodeUndoesEncode(key);
  }

  lemma {:induction false} NotStored(ms: seq<Member>, key: string, stored: string, v: JSON, cs: bool)
    requires key !in Keys(ms) && stored != key
    ensures key !in SemMembers(DeleteKey(ms, stored, cs) + [Member(stored, v)])
  {
    var r := DeleteKey(ms, stored, cs) + [Member(stored, v)];
    SemMembersKeys(r);
    assert forall m :: m in DeleteKey(ms, stored, cs) ==> m in ms;
    assert forall m :: m in ms ==> m.key in Keys(ms);
  }

  /** The generator emits the one addition and nothing else. */
  lemma {:induction false} AddedOnly(ms: seq<Member>, m: Member, cs: bool, top: iset<string>)
    requires Distinct(ms) && KeysIn(ms, top) && m.key in top && m.key !in Keys(ms) && Unambiguous(top, cs)
    ensures CreateOps("", Object(ms), Object(ms + [m]), cs) == [Compose(ADD, "/" + Encode(m.key), m.value)]
  {
    var front, rest := SortedAround(ms, m, cs, top);
    SkipSame(front, rest, [m] + rest, cs);
    InsertedOnly(m, rest, cs);
  }

  /** Sorting puts the new member somewhere between the others. */
  lemma {:induction false} SortedAround(ms: seq<Member>, m: Member, cs: bool, top: iset<string>)
    returns (front: seq<Member>, rest: seq<Member>)
    requires Distinct(ms) && KeysIn(ms, top) && m.key in top && m.key !in Keys(ms) && Unambiguous(top, cs)
    ensures SortMembers(ms, cs) == front + rest && SortMembers(ms + [m], cs) == front + ([m] + rest)
    ensures rest == [] || CompareStrings(rest[0].key, m.key, cs) > 0
  {
    var ns, s := ms + [m], SortMembers(ms + [m], cs);
    AppendedKeys(ms, m);
    var q := SortedAt(ns, |ms|, cs, top);
    DroppedFromSorted(ns, |ms|, q, s, cs, top);
    assert RemoveAt(ns, |ms|) == ms;
    front, rest := Cut(s, q);
    SortedObject(ns, cs, top);
    if rest != [] {
      assert rest[0] == s[q + 1];
      CmpFlip(Folded(m.key, cs), Folded(rest[0].key, cs));
    }
  }

  lemma {:induction false} InsertedOnly(m: Member, rest: seq<Member>, cs: bool)
    requires rest == [] || CompareStrings(rest[0].key, m.key, cs) > 0
    ensures MemberOps("", rest, [m] + rest, cs) == [Compose(ADD, "/" + Encode(m.key), m.value)]
  {
    assert ([m] + rest)[1..] == rest && rest + [] == rest;
    SkipSame(rest, [], [], cs);
    assert "" + "/" + Encode(m.key) == "/" + Encode(m.key);
  }

  lemma {:induction false} SkipSame(front: seq<Member>, fs: seq<Member>, ts: seq<Member>, cs: bool)
    ensures MemberOps("", front + fs, front + ts, cs) == MemberOps("", fs, ts, cs)
    decreases |front|
  {
    if front == [] {
      assert front + fs == fs && front + ts == ts;
    } else {
      CmpZero(Folded(front[0].key, cs), Folded(front[0].key, cs));
      assert (front + fs)[1..] == front[1..] + fs && (front + ts)[1..] == front[1..] + ts;
      CreateSame("" + "/" + Encode(front[0].key), front[0].value, cs);
      SkipSame(front[1..], fs, ts, cs);
    }
  }

  /** Equal documents need no patch. */
  lemma {:induction false} CreateSame(path: string, j: JSON, cs: bool)
    ensures CreateOps(path, j, j, cs) == []
    decreases Height(j), 1, 0
  {
    match j
    case Array(items) => ItemsSame(path, items, 0, cs);
    case Object(ms) =>
      SortMembersHeight(ms, cs);
      MembersSame(path, SortMembers(ms, cs), cs);
    case _ =>
  }

  lemma {:induction false} ItemsSame(path: string, items: seq<JSON>, k: nat, cs: bool)
    requires k <= |items|
    ensures ItemOps(path, items, items, k, cs) == []
    decreases ItemsHeight(items), 0, |items| - k
  {
    if k < |items| {
      ItemHeight(items, k);
      CreateSame(path + "/" + Decimal(k), items[k], cs);
      ItemsSame(path, items, k + 1, cs);
    }
  }

  lemma {:induction false} MembersSame(path: string, ms: seq<Member>, cs: bool)
    ensures MemberOps(path, ms, ms, cs) == []
    decreases MembersHeight(ms), 0, |ms|
  {
    if ms != [] {
      CmpZero(Folded(ms[0].key, cs), Folded(ms[0].key, cs));
      MemberHeight(ms, 0);
      CreateSame(path + "/" + Encode(ms[0].key), ms[0].value, cs);
      MembersSame(path, ms[1..], cs);
    }
  }

  // ----- removing a member

  /** A removal takes the right member exactly when the in-place decoder gets its key right
      and no earlier key differs from it in case alone, in both modes: detach_path ignores
      case. */
  lemma {:induction false} RemoveExactly(ms: seq<Member>, i: nat, cs: bool)
    requires Distinct(ms) && i < |ms|
    ensures ApplyOp(Object(ms), Op(REMOVE, "/" + Encode(ms[i].key), None), cs) ==
            Applied(OK, Object(RemoveAt(ms, i))) <==>
            Decodable(ms[i].key) && forall k :: 0 <= k < i ==> !SameKey(ms[k].key, ms[i].key, false)
  {
    var key := ms[i].key;
    EncodedHasNoSlash(key);
    SplitToken(Encode(key));
    var stored := DecodeInPlace(Encode(key));
    DecodeUndoesEncode(key);
    StoredIsNoCaseVariant(key);
    var f := FindKey(ms, stored, false);
    if f < |ms| && f != i { RemovesOther(ms, i, f); }
  }

  lemma {:induction false} RemovesOther(ms: seq<Member>, i: nat, f: nat)
    requires Distinct(ms) && i < |ms| && f < |ms| && f != i
    ensures RemoveAt(ms, f) != RemoveAt(ms, i)
  {
    RemoveAtKeys(ms, i);
    RemoveAtKeys(ms, f);
    assert ms[i] in ms && ms[f] in ms;
  }

  /** What the in-place decoder makes of a key never differs from the key in case alone. */
  lemma {:induction false} StoredIsNoCaseVariant(key: string)
    ensures SameKey(DecodeInPlace(Encode(key)), key, false) ==> DecodeInPlace(Encode(key)) == key
  {
    var e := Encode(key);
    var r := DecodeInPlace(e);
    EncodedHasNoSlash(key);
    EncodeLength(key);
    DecodeKeepsPrefix(e, 0, 0, key);
    if SameKey(r, key, false) {
      assert Fold(r) == Fold(key);
      assert forall q :: 0 <= q < |key| ==> ToLower(r[q]) == Fold(r)[q] == Fold(key)[q] == ToLower(key[q]);
      if q :| 0 <= q < |key| && key[q] == '/' && forall i :: 0 <= i < q ==> key[i] != '/' {
        DecodeAt(e, 0, 0, key, q);
        assert false;
      } else {
        NoFirstSlash(key);
        if t :| 0 <= t < |key| && key[t] == '~' && forall i :: 0 <= i < t ==> key[i] != '~' {
          FoldedPrefix(key, t, |key|);
          assert r[..|key|] == r && key[..|key|] == key;
        } else {
          NoFirstTilde(key);
          PlainIsDecodable(key);
        }
      }
    }
  }

  lemma {:induction false} NoFirstTilde(key: string)
    requires !exists t :: 0 <= t < |key| && key[t] == '~' && forall i :: 0 <= i < t ==> key[i] != '~'
    ensures forall i :: 0 <= i < |key| ==> key[i] != '~'
  {
    for n := 0 to |key|
      invariant forall i :: 0 <= i < n ==> key[i] != '~'
    {
    }
  }

  lemma {:induction false} EncodeConcat(a: string, b: string)
    ensures Encode(a + b) == Encode(a) + Encode(b)
  {
    if a == [] {
      assert a + b == b;
    } else {
      assert (a + b)[1..] == a[1..] + b;
      EncodeConcat(a[1..], b);
    }
  }

  /** The escaped text of a prefix is a prefix of the escaped text. */
  lemma {:induction false} EncodePrefix(key: string, q: nat)
    requires q <= |key|
    ensures Encode(key[..q]) <= Encode(key)
    ensures q < |key| && key[q] != '/' ==>
              Encode(key[..q + 1]) == Encode(key[..q]) + (if key[q] == '~' then "~0" else [key[q]])
  {
    EncodeConcat(key[..q], key[q..]);
    assert key == key[..q] + key[q..];
    if q < |key| {
      EncodeConcat(key[..q], [key[q]]);
      assert key[..q + 1] == key[..q] + [key[q]];
      assert [key[q]][1..] == [];
    }
  }

  ghost predicate OnlyTildesAndZeros(s: string, t: nat) {
    forall j :: t <= j < |s| ==> s[j] == '~' || s[j] == '0'
  }

  /** The text left by the decoder folds like the key. Behind the first '~' it is made of
      what the encoder put there, '~' and '0', which folding leaves alone. */
  lemma {:induction false} FoldedPrefix(key: string, t: nat, q: nat)
    requires t < q <= |key| && key[t] == '~' && (forall i :: 0 <= i < t ==> key[i] != '~') &&
             forall i :: 0 <= i < |key| ==> key[i] != '/'
    requires var r := DecodeInPlace(Encode(key));
             |r| == |key| && forall i :: 0 <= i < |key| ==> ToLower(r[i]) == ToLower(key[i])
    ensures DecodeInPlace(Encode(key))[..q] == key[..q]
    ensures |Encode(key[..q])| > q && OnlyTildesAndZeros(Encode(key[..q]), t)
    decreases q
  {
    var e, r, k := Encode(key), DecodeInPlace(Encode(key)), q - 1;
    EncodePrefix(key, k);
    EncodeLength(key);
    DecodeAt(e, 0, 0, key, k);
    if k > t {
      FoldedPrefix(key, t, k);
      assert key[k] != '~' ==> r[k] == e[k] == Encode(key[..k])[k];
    } else {
      PlainPrefix(key, t);
    }
    assert r[..q] == r[..k] + [r[k]] && key[..q] == key[..k] + [key[k]];
  }

  lemma {:induction false} PlainPrefix(key: string, t: nat)
    requires t <= |key| && forall i :: 0 <= i < t ==> key[i] != '~' && key[i] != '/'
    ensures |DecodeInPlace(Encode(key))| == |key| && DecodeInPlace(Encode(key))[..t] == key[..t] &&
            Encode(key[..t]) == key[..t]
  {
    PlainIsDecodable(key[..t]);
    EncodePrefix(key, t);
    EncodeLength(key);
    DecodeKeepsPrefix(Encode(key), 0, 0, key);
    forall i | 0 <= i < t
      ensures DecodeInPlace(Encode(key))[i] == key[i]
    {
      DecodeAt(Encode(key), 0, 0, key, i);
      assert Encode(key)[i] == Encode(key[..t])[i];
    }
  }

  // ----- conditions on all keys at once

  ghost predicate AllDecodable(keys: iset<string>) {
    forall k :: k in keys ==> Decodable(k)
  }

  /** It is enough that all keys are decodable and no two differ in case alone. */
  lemma {:induction false} CoherentIsHandled(from: JSON, to: JSON, cs: bool, keys: iset<string>)
    requires Good(from, keys) && Good(to, keys) && Coherent(keys) && AllDecodable(keys)
    ensures Handled(from, to, cs)
    decreases from
  {
    if from.Array? && to.Array? {
      forall i | 0 <= i < |from.items| && i < |to.items|
        ensures Handled(from.items[i], to.items[i], cs)
      {
        CoherentIsHandled(from.items[i], to.items[i], cs, keys);
      }
    } else if from.Object? && to.Object? {
      var ms, ts := from.members, to.members;
      forall m | m in ms || m in ts
        ensures m.key in keys && Good(m.value, keys)
      {
      }
      assert forall k :: k in LevelKeys(ms, ts) ==> k in keys;
      forall f, t | f in ms && t in ts && f.key == t.key
        ensures Handled(f.value, t.value, cs)
      {
        CoherentIsHandled(f.value, t.value, cs, keys);
      }
    }
  }

  /** Keys without capitals, '~' and '/' meet every condition of the round trip. */
  lemma {:induction false} PlainKeys(keys: iset<string>)
    requires forall k, i :: k in keys && 0 <= i < |k| ==> !('A' <= k[i] <= 'Z') && k[i] != '~' && k[i] != '/'
    ensures Coherent(keys) && AllDecodable(keys)
  {
    forall k | k in keys
      ensures Fold(k) == k && Decodable(k)
    {
      PlainIsDecodable(k);
    }
  }
}
