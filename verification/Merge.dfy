/** JSON Merge Patch (RFC 7396) on meanings. */
module Merge {
  // And exactly when a generated merge patch reproduces its target.

  import opened Json

  function ObjectOf(v: Val): map<string, Val> { if v.VObject? then v.members else map[] }

  function Get(m: map<string, Val>, k: string): Val { if k in m then m[k] else VNull }

  /** MergePatch of section 2 of RFC 7396. A target that is absent or no object counts as
      an empty object, so VNull stands for an absent one. */
  function MergeVal(target: Val, patch: Val): Val
    decreases patch, 1
  {
    if patch.VObject? then VObject(MergeMap(ObjectOf(target), patch.members)) else patch
  }

  function MergeMap(t: map<string, Val>, p: map<string, Val>): map<string, Val>
    decreases VObject(p), 0
  {
    map k | k in t.Keys + p.Keys && (k in p ==> p[k] != VNull) ::
      if k in p then MergeVal(Get(t, k), p[k]) else t[k]
  }

  /** The patch that records how one value differs from another. */
  function DiffVal(src: Val, dst: Val): Val
    decreases dst, 1
  {
    if src.VObject? && dst.VObject? then VObject(DiffMap(src.members, dst.members)) else dst
  }

  function DiffMap(f: map<string, Val>, t: map<string, Val>): map<string, Val>
    decreases VObject(t), 0
  {
    map k | k in f.Keys + t.Keys && !(k in f && k in t && f[k] == t[k]) ::
      if k !in t then VNull else if k !in f then t[k] else DiffVal(f[k], t[k])
  }

  /** No null is reachable through object members alone. */
  ghost predicate NullFree(v: Val) {
    v.VObject? ==> forall k :: k in v.members ==> v.members[k] != VNull && NullFree(v.members[k])
  }

  /** Every null that object members of `dst` lead to is already in place in `src`. */
  ghost predicate Reproducible(src: Val, dst: Val)
    decreases dst
  {
    dst.VObject? ==>
      if src.VObject? then
        forall k :: k in dst.members ==>
          if k in src.members then
            src.members[k] == dst.members[k] ||
            (dst.members[k] != VNull && Reproducible(src.members[k], dst.members[k]))
          else dst.members[k] != VNull && NullFree(dst.members[k])
      else NullFree(dst)
  }

  lemma {:induction false} MergeIntoNothing(target: Val, v: Val)
    requires !target.VObject?
    ensures MergeVal(target, v) == v <==> NullFree(v)
    decreases v
  {
    if v.VObject? {
      var r := MergeMap(map[], v.members);
      forall k | k in v.members
        ensures (k in r && r[k] == v.members[k]) <==> (v.members[k] != VNull && NullFree(v.members[k]))
      {
        MergeIntoNothing(VNull, v.members[k]);
        assert Get(map[], k) == VNull;
        assert k in r ==> r[k] == MergeVal(VNull, v.members[k]);
      }
      if NullFree(v) { assert r == v.members; }
    }
  }

  /** Merging the difference of two values into the first gives the second exactly when
      the second asks for no null the first does not already hold. */
  lemma {:induction false} MergeDiff(src: Val, dst: Val)
    ensures MergeVal(src, DiffVal(src, dst)) == dst <==> Reproducible(src, dst)
    decreases dst, 1
  {
    if dst.VObject? {
      if src.VObject? {
        MergeDiffObjects(src.members, dst.members);
      } else {
        MergeIntoNothing(src, dst);
      }
    }
  }

  lemma {:induction false} MergeDiffObjects(f: map<string, Val>, t: map<string, Val>)
    ensures MergeVal(VObject(f), VObject(DiffMap(f, t))) == VObject(t) <==> Reproducible(VObject(f), VObject(t))
    decreases VObject(t), 0
  {
    var d := DiffMap(f, t);
    var r := MergeMap(f, d);
    forall k
      ensures (k in r <==> k in t) && (k in t ==> r[k] == t[k]) <==> KeyReproducible(f, t, k)
    {
      if k in t {
        assert k in r && k in d ==> r[k] == MergeVal(Get(f, k), d[k]);
        if k !in f { MergeIntoNothing(VNull, t[k]); } else { MergeDiff(f[k], t[k]); }
      }
    }
    if forall k :: KeyReproducible(f, t, k) {
      assert r == t;
    }
    assert Reproducible(VObject(f), VObject(t)) <==> forall k :: KeyReproducible(f, t, k);
  }

  ghost predicate KeyReproducible(f: map<string, Val>, t: map<string, Val>, k: string) {
    k in t ==>
      if k in f then f[k] == t[k] || (t[k] != VNull && Reproducible(f[k], t[k]))
      else t[k] != VNull && NullFree(t[k])
  }

  /** A target without nulls among its members is reproduced from any source. */
  lemma {:induction false} NullFreeIsReproducible(src: Val, dst: Val)
    requires NullFree(dst)
    ensures Reproducible(src, dst)
    decreases dst
  {
    if dst.VObject? && src.VObject? {
      forall k | k in dst.members && k in src.members
        ensures Reproducible(src.members[k], dst.members[k])
      {
        NullFreeIsReproducible(src.members[k], dst.members[k]);
      }
    }
  }

  /** Two objects differ by nothing exactly when they are equal. */
  lemma {:induction false} DiffEmpty(f: map<string, Val>, t: map<string, Val>)
    ensures DiffMap(f, t) == map[] <==> f == t
  {
    if DiffMap(f, t) == map[] {
      forall k
        ensures (k in f <==> k in t) && (k in f ==> f[k] == t[k])
      {
        assert k !in DiffMap(f, t);
      }
    }
  }
}
