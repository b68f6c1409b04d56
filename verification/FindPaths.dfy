/** Which paths of keys match at all. */
module FindPaths {
  import opened FeedSyntax
  import opened FindSyntax
  import opened Finder
  import opened Json
  import opened Scanner
  import opened Syntax

  /** A key as it is spelled and the number of containers around it. */
  type Placed = (string, nat)

  /** The keys of a value in the order of the text, inside d containers. */
  function Outline(s: Syntax, d: nat): seq<Placed>
    decreases s, 1
  {
    match s
    case Arr(items, _) => ItemsOutline(items, d + 1)
    case Obj(members, _) => MembersOutline(members, d + 1)
    case _ => []
  }

  function ItemsOutline(es: seq<Element>, d: nat): seq<Placed>
    decreases es, 0
  {
    if es == [] then [] else Outline(es[0].value, d) + ItemsOutline(es[1..], d)
  }

  function MembersOutline(es: seq<Entry>, d: nat): seq<Placed>
    decreases es, 0
  {
    if es == [] then [] else [(es[0].body, d)] + (Outline(es[0].value, d) + MembersOutline(es[1..], d))
  }

  /** The keys of a path from number c on, each at its own depth. */
  function Wanted(keys: seq<string>, c: nat): seq<Placed>
    requires c <= |keys|
    decreases |keys| - c
  {
    if c == |keys| then [] else [(keys[c], c + 1)] + Wanted(keys, c + 1)
  }

  /** w can be had from s by leaving elements out. */
  predicate Subsequence<T(==)>(w: seq<T>, s: seq<T>)
    decreases |s|
  {
    w == [] || (s != [] && ((w[0] == s[0] && Subsequence(w[1..], s[1..])) || Subsequence(w, s[1..])))
  }

  // ----- leaving out as little as possible

  /** What is left of w when its elements are crossed off where they come first in s. */
  function CrossOff<T(==)>(w: seq<T>, s: seq<T>): seq<T>
    decreases |s|
  {
    if w == [] || s == [] then w else CrossOff(if w[0] == s[0] then w[1..] else w, s[1..])
  }

  lemma {:induction false} CrossOffConcat<T>(w: seq<T>, a: seq<T>, b: seq<T>)
    ensures CrossOff(w, a + b) == CrossOff(CrossOff(w, a), b)
    decreases |a|
  {
    if a == [] {
      assert a + b == b;
    } else if w != [] {
      assert (a + b)[1..] == a[1..] + b;
      CrossOffConcat(if w[0] == a[0] then w[1..] else w, a[1..], b);
    }
  }

  lemma {:induction false} WithoutFirst<T>(w: seq<T>, s: seq<T>)
    requires w != [] && Subsequence(w, s)
    ensures Subsequence(w[1..], s)
    decreases |s|
  {
    if !(w[0] == s[0] && Subsequence(w[1..], s[1..])) { WithoutFirst(w, s[1..]); }
  }

  /** Crossing off early never does harm. */
  lemma {:induction false} CrossOffExactly<T>(w: seq<T>, s: seq<T>)
    ensures CrossOff(w, s) == [] <==> Subsequence(w, s)
    decreases |s|
  {
    if w != [] && s != [] {
      if w[0] == s[0] {
        if Subsequence(w, s[1..]) { WithoutFirst(w, s[1..]); }
        CrossOffExactly(w[1..], s[1..]);
      } else {
        CrossOffExactly(w, s[1..]);
      }
    }
  }

  // ----- the hunt crosses off

  /** How far the hunt came is how much is crossed off. */
  ghost predicate Agrees(r: Hunt, keys: seq<string>, left: seq<Placed>)
    requires r.Left? ==> r.used < |keys|
  {
    match r
    case Hit(_, _) => left == []
    case Left(u) => left == Wanted(keys, u)
  }

  lemma {:induction false} HuntCrossesOff(s: Syntax, at: nat, d: nat, p: nat, e: nat, keys: seq<string>, c: nat)
    requires c <= |keys| && p == at + 1 && e == d + 1
    ensures Agrees(HuntValue(s, at, d, keys, c), keys, CrossOff(Wanted(keys, c), Outline(s, d)))
    decreases s, 1
  {
    if c < |keys| {
      HuntInside(s, at, d, p, e, keys, c);
      match s
      case Arr(items, _) => ItemsCrossOff(items, p, e, keys, c);
      case Obj(members, _) => MembersCrossOff(members, p, e, keys, c);
      case _ =>
    }
  }

  lemma {:induction false} ItemsCrossOff(es: seq<Element>, at: nat, d: nat, keys: seq<string>, c: nat)
    requires c < |keys|
    ensures Agrees(HuntItems(es, at, d, keys, c), keys, CrossOff(Wanted(keys, c), ItemsOutline(es, d)))
    decreases es, 0
  {
    if es != [] {
      var q := at + |es[0].before|;
      var next := q + |Spelled(es[0].value)| + |es[0].after| + 1;
      HuntFirstItem(es, at, q, next, d, keys, c);
      HuntCrossesOff(es[0].value, q, d, q + 1, d + 1, keys, c);
      CrossOffConcat(Wanted(keys, c), Outline(es[0].value, d), ItemsOutline(es[1..], d));
      match HuntValue(es[0].value, q, d, keys, c)
      case Hit(_, _) =>
      case Left(u) => ItemsCrossOff(es[1..], next, d, keys, u);
    }
  }

  lemma {:induction false} KeyCrossOff(key: string, d: nat, keys: seq<string>, c: nat, rest: seq<Placed>)
    requires c < |keys|
    ensures CrossOff(Wanted(keys, c), [(key, d)] + rest) == CrossOff(Wanted(keys, Used(key, d, keys, c)), rest)
  {
    assert ([(key, d)] + rest)[1..] == rest;
    assert Wanted(keys, c)[1..] == Wanted(keys, c + 1);
  }

  lemma {:induction false} MembersCrossOff(es: seq<Entry>, at: nat, d: nat, keys: seq<string>, c: nat)
    requires c < |keys|
    ensures Agrees(HuntMembers(es, at, d, keys, c), keys, CrossOff(Wanted(keys, c), MembersOutline(es, d)))
    decreases es, 0
  {
    if es != [] {
      var m, u := es[0], Used(es[0].body, d, keys, c);
      var value, next := MemberEnds(es, at);
      HuntFirstMember(es, at, value, next, d, keys, c);
      KeyCrossOff(m.body, d, keys, c, Outline(m.value, d) + MembersOutline(es[1..], d));
      HuntCrossesOff(m.value, value, d, value + 1, d + 1, keys, u);
      CrossOffConcat(Wanted(keys, u), Outline(m.value, d), MembersOutline(es[1..], d));
      match HuntValue(m.value, value, d, keys, u)
      case Hit(_, _) =>
      case Left(v) => MembersCrossOff(es[1..], next, d, keys, v);
    }
  }

  // ----- the paths that match

  /** A path of keys matches something in a spelled document exactly when its keys occur in the
      text in this order, each at the depth of its place in the path, whether or not one lies
      inside the value of the one before. */
  lemma {:induction false} MatchesExactly(before: string, s: Syntax, rest: string, keys: seq<string>,
      strtod: string -> int)
    requires Readable(before, s, rest) && AllPlain(keys)
    ensures Find(before + Spelled(s) + rest, "$" + Dotted(keys), strtod) != NO_MATCH <==>
            Subsequence(Wanted(keys, 0), Outline(s, 0))
  {
    var at := |before|;
    FindIsHunt(before, s, rest, keys, strtod);
    HuntCrossesOff(s, at, 0, at + 1, 1, keys, 0);
    CrossOffExactly(Wanted(keys, 0), Outline(s, 0));
  }
}
