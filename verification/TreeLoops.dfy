/** The loops of comparing and merging. */
module TreeLoops {
  import opened Json
  import opened KeyOrder
  import opened Members
  import opened Patch
  import opened Compare
  import opened MergePatch

  method CompareJsonLoop(a: JSON, b: JSON, cs: bool) returns (same: bool)
    ensures same == CompareJson(a, b, cs)
    decreases Height(a), 1
  {
    if !SameType(a, b) { return false; }
    match a
    case Number(n) => same := n == b.n;
    case Str(s) => same := s == b.s;
    case Array(items) =>
      var x, y := items, b.items;
      while x != [] && y != []
        invariant CompareItems(x, y, cs) == CompareItems(items, b.items, cs)
        invariant ItemsHeight(x) <= Height(a)
      {
        ItemHeight(x, 0);
        var identical := CompareJsonLoop(x[0], y[0], cs);
        if !identical { return false; }
        x, y := x[1..], y[1..];
      }
      same := x == [] && y == [];
    case Object(ms) =>
      SortMembersHeight(ms, cs);
      var x, y := SortMembers(ms, cs), SortMembers(b.members, cs);
      ghost var goal := CompareMembers(x, y, cs);
      while x != [] && y != []
        invariant CompareMembers(x, y, cs) == goal
        invariant MembersHeight(x) <= Height(a)
      {
        var diff := CompareStringsLoop(x[0].key, y[0].key, cs);
        if diff != 0 { return false; }
        MemberHeight(x, 0);
        var identical := CompareJsonLoop(x[0].value, y[0].value, cs);
        if !identical { return false; }
        x, y := x[1..], y[1..];
      }
      same := x == [] && y == [];
    case _ => same := true;
  }

  method CompareLoop(a: JSON, b: JSON, cs: bool) returns (same: bool)
    ensures same == CompareByLookup(a, b, cs)
    decreases Height(a) + Height(b), 2
  {
    if !SameType(a, b) { return false; }
    match a
    case Number(n) => same := n == b.n;
    case Str(s) => same := s == b.s;
    case Array(items) =>
      var x, y := items, b.items;
      while x != [] && y != []
        invariant ItemsByLookup(x, y, cs) == ItemsByLookup(items, b.items, cs)
        invariant ItemsHeight(x) <= Height(a) && ItemsHeight(y) <= Height(b)
      {
        ItemHeight(x, 0);
        ItemHeight(y, 0);
        var identical := CompareLoop(x[0], y[0], cs);
        if !identical { return false; }
        x, y := x[1..], y[1..];
      }
      same := x == [] && y == [];
    case Object(ms) =>
      same := CoversLoop(ms, b.members, cs);
      if same { same := CoversLoop(b.members, ms, cs); }
    case _ => same := true;
  }

  /** One of the two passes over object members. */
  method CoversLoop(a: seq<Member>, b: seq<Member>, cs: bool) returns (all: bool)
    ensures all == Covers(a, b, cs)
    decreases MembersHeight(a) + MembersHeight(b), 1
  {
    var x := a;
    while x != []
      invariant Covers(x, b, cs) == Covers(a, b, cs)
      invariant MembersHeight(x) <= MembersHeight(a)
    {
      var i := FindKey(b, x[0].key, cs);
      if i == |b| { return false; }
      MemberHeight(x, 0);
      MemberHeight(b, i);
      var identical := CompareLoop(x[0].value, b[i].value, cs);
      if !identical { return false; }
      x := x[1..];
    }
    return true;
  }

  method MergePatchLoop(target: Option<JSON>, patch: JSON, cs: bool) returns (r: Option<JSON>)
    ensures r == MergeInto(target, patch, cs)
    decreases patch
  {
    if !patch.Object? {
      return Duplicate(patch);
    }
    var ms := MembersOf(target);
    ghost var goal := MergeMembers(ms, patch.members, cs);
    var i := 0;
    while i < |patch.members|
      invariant i <= |patch.members|
      invariant MergeMembers(ms, patch.members[i..], cs) == goal
    {
      var child := patch.members[i];
      if child.value.Null? {
        ms := DeleteKey(ms, child.key, cs);
      } else {
        var replaceMe := Found(ms, child.key, cs);
        ms := DeleteKey(ms, child.key, cs);
        var replacement := MergePatchLoop(replaceMe, child.value, cs);
        if replacement.None? { return None; }
        ms := ms + [Member(child.key, replacement.value)];
      }
      assert patch.members[i..][1..] == patch.members[i + 1..];
      i := i + 1;
    }
    return Some(Object(ms));
  }

  method GenerateLoop(src: JSON, dst: JSON, cs: bool) returns (r: Option<JSON>)
    ensures r == Generate(src, dst, cs)
    decreases Height(src), 2
  {
    if !dst.Object? || !src.Object? {
      return Duplicate(dst);
    }
    SortMembersHeight(src.members, cs);
    var made := GenerateMembersLoop(SortMembers(src.members, cs), SortMembers(dst.members, cs), cs);
    return if made == [] then None else Some(Object(made));
  }

  method GenerateMembersLoop(from: seq<Member>, to: seq<Member>, cs: bool) returns (made: seq<Member>)
    ensures made == GenerateMembers(from, to, cs)
    decreases MembersHeight(from), 1
  {
    var fs, ts := from, to;
    made := [];
    while fs != [] || ts != []
      invariant made + GenerateMembers(fs, ts, cs) == GenerateMembers(from, to, cs)
      invariant MembersHeight(fs) <= MembersHeight(from)
      decreases |fs| + |ts|
    {
      ghost var before, all := made, GenerateMembers(fs, ts, cs);
      var diff := if fs == [] then 1 else if ts == [] then -1 else Cmp(fs[0].key, ts[0].key);
      var more: seq<Member>;
      if diff < 0 {
        more := [Member(fs[0].key, Null)];
        fs := fs[1..];
      } else if diff > 0 {
        more := Added(ts[0].key, Duplicate(ts[0].value));
        ts := ts[1..];
      } else {
        more := GenerateMemberLoop(fs, ts, cs);
        fs, ts := fs[1..], ts[1..];
      }
      assert all == more + GenerateMembers(fs, ts, cs);
      Regroup(made, more, GenerateMembers(fs, ts, cs));
      made := made + more;
    }
    assert made + [] == made;
  }

  /** What a key of both objects adds to the patch. */
  method GenerateMemberLoop(fs: seq<Member>, ts: seq<Member>, cs: bool) returns (more: seq<Member>)
    requires fs != [] && ts != []
    ensures more == if CompareJson(fs[0].value, ts[0].value, cs) then []
                    else Added(ts[0].key, Generate(fs[0].value, ts[0].value, false))
    decreases MembersHeight(fs), 0
  {
    MemberHeight(fs, 0);
    var same := CompareJsonLoop(fs[0].value, ts[0].value, cs);
    if same { return []; }
    var v := GenerateLoop(fs[0].value, ts[0].value, false);
    return Added(ts[0].key, v);
  }
}
