/** Patches that are generated apply. */
module PatchRoundTrip {
  // Applying the generated patches gives the target.

  import opened Json
  import opened KeyOrder
  import opened Members
  import opened Patch
  import opened PatchWalk

  /** Applying the patches generated for (from, to) to from succeeds and yields to, up
      to the order of members, in both case modes. */
  lemma {:induction false} RoundTrip(from: JSON, to: JSON, cs: bool, keys: iset<string>)
    requires Good(from, keys) && Good(to, keys) && Handled(from, to, cs)
    requires Height(to) <= CIRCULAR_LIMIT
    ensures var r := ApplyOps(from, CreateOps("", from, to, cs), cs);
            r.outcome == OK && Sem(r.doc) == Sem(to)
    decreases Height(from), 1, 0
  {
    if !SameType(from, to) {
      ReplaceRoot(from, to, cs);
    } else {
      match from
      case Number(n) => if n != to.n { ReplaceRoot(from, to, cs); }
      case Str(s) => if s != to.s { ReplaceRoot(from, to, cs); }
      case Array(items) => ItemsRoundTrip(items, items, to.items, 0, cs, keys);
      case Object(ms) =>
        SortMembersHeight(ms, cs);
        SortMembersHeight(to.members, cs);
        var top := LevelKeys(ms, to.members);
        InLevel(ms, to.members);
        Start(ms, to.members, cs, top, keys);
        HandledSorted(ms, to.members, SortMembers(ms, cs), SortMembers(to.members, cs), top, cs);
        MembersRoundTrip(ms, SortMembers(ms, cs), SortMembers(to.members, cs), map[], cs, top, keys);
      case _ =>
    }
  }

  /** The walk over two arrays, seen from the array under change: the first k items are
      done and the others are still those of the source. */
  lemma {:induction false} ItemsRoundTrip(doc: seq<JSON>, from: seq<JSON>, to: seq<JSON>, k: nat, cs: bool,
      keys: iset<string>)
    requires Good(Array(from), keys) && Good(Array(to), keys) && Handled(Array(from), Array(to), cs)
    requires ItemsHeight(to) <= CIRCULAR_LIMIT
    requires k <= |from| && k <= |to| && |doc| == |from| && doc[k..] == from[k..]
    requires forall i :: 0 <= i < k ==> Sem(doc[i]) == Sem(to[i])
    ensures var r := ApplyOps(Array(doc), ItemOps("", from, to, k, cs), cs);
            r.outcome == OK && Sem(r.doc) == Sem(Array(to))
    decreases ItemsHeight(from), 0, |from| - k
  {
    if k < |from| && k < |to| {
      ItemHeight(from, k);
      ItemHeight(to, k);
      assert doc[k] == doc[k..][0] == from[k];
      RoundTrip(from[k], to[k], cs, keys);
      ItemDone(doc, from, to, k, cs);
      var doc' := doc[k := ApplyOps(doc[k], CreateOps("", from[k], to[k], cs), cs).doc];
      assert doc'[k + 1..] == doc[k..][1..] == from[k + 1..];
      ItemsRoundTrip(doc', from, to, k + 1, cs, keys);
    } else {
      TailDone(doc, from, to, k, cs);
      SameItems(doc[..k] + to[k..], to);
    }
  }

  lemma {:induction false} MembersRoundTrip(ms: seq<Member>, fs: seq<Member>, ts: seq<Member>, done: map<string, Val>,
      cs: bool, top: iset<string>, keys: iset<string>)
    requires Walking(ms, fs, ts, done, cs, top, keys)
    ensures var r := ApplyOps(Object(ms), MemberOps("", fs, ts, cs), cs);
            r.outcome == OK && Sem(r.doc) == VObject(done + SemMembers(ts))
    decreases MembersHeight(fs), 0, |fs| + |ts|
  {
    if fs == [] && ts == [] {
      MeansDone(ms, done);
      assert done + map[] == done;
    } else {
      var diff := if fs == [] then 1 else if ts == [] then -1 else CompareStrings(fs[0].key, ts[0].key, cs);
      if diff == 0 {
        CommonHead(ms, fs, ts, done, cs, top, keys);
        RoundTrip(fs[0].value, ts[0].value, cs, keys);
        var ns, next := StepBoth(ms, fs, ts, done, cs, top, keys);
        MembersRoundTrip(ns, fs[1..], ts[1..], next, cs, top, keys);
      } else if diff < 0 {
        var ns := StepFrom(ms, fs, ts, done, cs, top, keys);
        MembersRoundTrip(ns, fs[1..], ts, done, cs, top, keys);
      } else {
        var ns, next := StepTo(ms, fs, ts, done, cs, top, keys);
        MembersRoundTrip(ns, fs, ts[1..], next, cs, top, keys);
      }
    }
  }
}
