/** What mjson_find finds. */
module FindSyntax {
  // In every text that spells a document.

  import opened FeedSyntax
  import opened Finder
  import opened Json
  import opened Scanner
  import opened ScanSyntax
  import opened Syntax
  import opened Text
  import Parser

  /** The match is this node, with its exact span. */
  ghost predicate Spans(r: Match, text: string, node: Syntax, off: nat) {
    r == Match(TokenOf(node), off, |Spelled(node)|) && At(text, off, Spelled(node))
  }

  /** A document that the scanner reads to its end, with white space in front of it and anything
      behind it. */
  ghost predicate Readable(before: string, s: Syntax, rest: string) {
    Blank(before) && Scans(s) && Levels(s) <= MAX_DEPTH && (s.Num? && rest != [] ==> !Parser.IsNumberChar(rest[0]))
  }

  /** A path of keys finds exactly what the hunt for the keys comes to: that node with its span,
      or nothing. */
  lemma {:induction false} FindIsHunt(before: string, s: Syntax, rest: string, keys: seq<string>, strtod: string -> int)
    requires Readable(before, s, rest) && AllPlain(keys)
    ensures var text := before + Spelled(s) + rest;
            var r := Find(text, "$" + Dotted(keys), strtod);
            match HuntValue(s, |before|, 0, keys, 0)
            case Hit(node, off) => Spans(r, text, node, off)
            case Left(_) => r == NO_MATCH
  {
    var text, path, at := before + Spelled(s) + rest, "$" + Dotted(keys), |before|;
    assert path[1..] == Dotted(keys) && keys[0..] == keys;
    AtMiddle(before, Spelled(s), rest);
    ScanText(before, s, rest);
    AtPathEnd(path, 1, keys);
    HuntIn(Query(path, text, strtod), INITIAL, s, at, 0, at + 1, 1, keys, 0);
  }

  // ----- what the hunt leaves alone

  /** Below the level of the next key nothing is used up. */
  lemma {:induction false} TooDeep(s: Syntax, at: nat, d: nat, p: nat, e: nat, keys: seq<string>, c: nat)
    requires c < |keys| && c < d && p == at + 1 && e == d + 1
    ensures HuntValue(s, at, d, keys, c) == Left(c)
    decreases s, 1
  {
    HuntInside(s, at, d, p, e, keys, c);
    match s
    case Arr(items, _) => ItemsTooDeep(items, p, e, keys, c);
    case Obj(members, _) => MembersTooDeep(members, p, e, keys, c);
    case _ =>
  }

  lemma {:induction false} ItemsTooDeep(es: seq<Element>, at: nat, d: nat, keys: seq<string>, c: nat)
    requires c < |keys| && c < d
    ensures HuntItems(es, at, d, keys, c) == Left(c)
    decreases es, 0
  {
    if es != [] {
      var q := at + |es[0].before|;
      var next := q + |Spelled(es[0].value)| + |es[0].after| + 1;
      HuntFirstItem(es, at, q, next, d, keys, c);
      TooDeep(es[0].value, q, d, q + 1, d + 1, keys, c);
      ItemsTooDeep(es[1..], next, d, keys, c);
    }
  }

  lemma {:induction false} MembersTooDeep(es: seq<Entry>, at: nat, d: nat, keys: seq<string>, c: nat)
    requires c < |keys| && c + 1 < d
    ensures HuntMembers(es, at, d, keys, c) == Left(c)
    decreases es, 0
  {
    if es != [] {
      var value, next := MemberEnds(es, at);
      HuntFirstMember(es, at, value, next, d, keys, c);
      TooDeep(es[0].value, value, d, value + 1, d + 1, keys, c);
      MembersTooDeep(es[1..], next, d, keys, c);
    }
  }

  /** Where the first member's value and the next member stand. */
  lemma {:induction false} MemberEnds(es: seq<Entry>, at: nat) returns (value: nat, next: nat)
    requires es != []
    ensures value == at + |es[0].before| + |InQuotes(es[0].body)| + |es[0].gap| + 1 + |es[0].lead|
    ensures next == value + |Spelled(es[0].value)| + |es[0].after| + 1
  {
    value := at + |es[0].before| + |InQuotes(es[0].body)| + |es[0].gap| + 1 + |es[0].lead|;
    next := value + |Spelled(es[0].value)| + |es[0].after| + 1;
  }

  // ----- fields

  /** The first member whose name is spelled like the key. */
  function FieldIndex(es: seq<Entry>, k: string): (i: nat)
    ensures i <= |es| && (i < |es| ==> es[i].body == k)
  {
    if es == [] || es[0].body == k then 0 else 1 + FieldIndex(es[1..], k)
  }

  function Field(s: Syntax, k: string): Option<Syntax> {
    match s
    case Obj(members, _) =>
      var i := FieldIndex(members, k);
      if i < |members| then Some(members[i].value) else None
    case _ => None
  }

  /** The inside of an object at the level of the next key: the first member with that key
      uses it up, and the members before it leave no trace. */
  lemma {:induction false} FirstUse(es: seq<Entry>, at: nat, d: nat, keys: seq<string>, c: nat)
    returns (off: nat, next: nat)
    requires c < |keys| && d == c + 1
    ensures var i := FieldIndex(es, keys[c]);
            if i == |es| then HuntMembers(es, at, d, keys, c) == Left(c)
            else HuntMembers(es, at, d, keys, c) ==
                 match HuntValue(es[i].value, off, d, keys, d)
                 case Hit(node, o) => Hit(node, o)
                 case Left(c') => HuntMembers(es[i + 1..], next, d, keys, c')
    decreases es
  {
    off, next := 0, 0;
    if es != [] {
      off, next := MemberEnds(es, at);
      HuntFirstMember(es, at, off, next, d, keys, c);
      if es[0].body == keys[c] {
        if |es| == 1 { assert es[1..] == []; }
      } else {
        TooDeep(es[0].value, off, d, off + 1, d + 1, keys, c);
        off, next := FirstUse(es[1..], next, d, keys, c);
        FieldBehind(es, keys[c]);
      }
    }
  }

  lemma {:induction false} FieldBehind(es: seq<Entry>, k: string)
    requires es != [] && es[0].body != k
    ensures var i := FieldIndex(es[1..], k);
            FieldIndex(es, k) == i + 1 && (i < |es[1..]| ==> es[1..][i + 1..] == es[i + 2..])
    ensures |es| == 1 ==> es[1..] == []
  {
  }

  /** One key, exactly. */
  lemma {:induction false} FindField(before: string, s: Syntax, rest: string, k: string, strtod: string -> int)
    returns (off: nat)
    requires Readable(before, s, rest) && Plain(k)
    ensures var text := before + Spelled(s) + rest;
            var r := Find(text, "$." + k, strtod);
            match Field(s, k)
            case Some(v) => Spans(r, text, v, off)
            case None => r == NO_MATCH
  {
    var at := |before|;
    off := 0;
    assert Dotted([k]) == "." + k by { assert [k][1..] == []; }
    assert "$" + ("." + k) == "$." + k;
    FindIsHunt(before, s, rest, [k], strtod);
    HuntInside(s, at, 0, at + 1, 1, [k], 0);
    match s
    case Obj(members, _) =>
      var next;
      off, next := FirstUse(members, at + 1, 1, [k], 0);
    case Arr(items, _) => ItemsTooDeep(items, at + 1, 1, [k], 0);
    case _ =>
  }

  // ----- a path that does not resolve may match elsewhere

  /** From the i-th member on, the first one whose value is an object that holds the key. */
  function FirstHolding(es: seq<Entry>, i: nat, k: string): (h: nat)
    requires i <= |es|
    ensures i <= h <= |es|
    ensures h < |es| ==> Field(es[h].value, k).Some?
    ensures forall g :: i <= g < h ==> Field(es[g].value, k) == None
    decreases |es| - i
  {
    if i == |es| || Field(es[i].value, k).Some? then i else FirstHolding(es, i + 1, k)
  }

  /** The second of two keys, once the first is used up. */
  lemma {:induction false} SecondKey(s: Syntax, at: nat, p: nat, keys: seq<string>)
    requires |keys| == 2 && p == at + 1
    ensures match Field(s, keys[1])
            case None => HuntValue(s, at, 1, keys, 1) == Left(1)
            case Some(v) => HuntValue(s, at, 1, keys, 1).Hit? && HuntValue(s, at, 1, keys, 1).node == v
  {
    HuntInside(s, at, 1, p, 2, keys, 1);
    match s
    case Obj(members, _) => var off, next := FirstUse(members, p, 2, keys, 1);
    case Arr(items, _) => ItemsTooDeep(items, p, 2, keys, 1);
    case _ =>
  }

  lemma {:induction false} SecondKeyAmong(es: seq<Entry>, i: nat, at: nat, keys: seq<string>)
    requires |keys| == 2 && i <= |es|
    ensures var h := FirstHolding(es, i, keys[1]);
            var r := HuntMembers(es[i..], at, 1, keys, 1);
            if h == |es| then r == Left(1) else r.Hit? && Field(es[h].value, keys[1]) == Some(r.node)
    decreases |es| - i
  {
    if i < |es| {
      var rest := es[i..];
      assert rest[0] == es[i] && rest[1..] == es[i + 1..];
      var value, next := MemberEnds(rest, at);
      HuntFirstMember(rest, at, value, next, 1, keys, 1);
      SecondKey(es[i].value, value, value + 1, keys);
      SecondKeyAmong(es, i + 1, next, keys);
    } else {
      assert es[i..] == [];
    }
  }

  lemma {:induction false} HoldingBehind(es: seq<Entry>, i: nat, k: string)
    requires i < |es|
    ensures FirstHolding(es, i, k) == if Field(es[i].value, k).Some? then i else FirstHolding(es, i + 1, k)
  {
  }

  lemma {:induction false} HuntTwo(es: seq<Entry>, at: nat, keys: seq<string>, r: Hunt)
    requires |keys| == 2 && r == HuntMembers(es, at, 1, keys, 0)
    ensures var h := FirstHolding(es, FieldIndex(es, keys[0]), keys[1]);
            if h == |es| then r.Left? else r.Hit? && Field(es[h].value, keys[1]) == Some(r.node)
  {
    var i := FieldIndex(es, keys[0]);
    var off, next := FirstUse(es, at, 1, keys, 0);
    if i < |es| { HuntSecond(es, keys, i, off, next, r); }
  }

  /** From the member with the first key on. */
  lemma {:induction false} HuntSecond(es: seq<Entry>, keys: seq<string>, i: nat, off: nat, next: nat, r: Hunt)
    requires |keys| == 2 && i < |es|
    requires r == match HuntValue(es[i].value, off, 1, keys, 1)
                  case Hit(node, o) => Hit(node, o)
                  case Left(c) => HuntMembers(es[i + 1..], next, 1, keys, c)
    ensures var h := FirstHolding(es, i, keys[1]);
            if h == |es| then r.Left? else r.Hit? && Field(es[h].value, keys[1]) == Some(r.node)
  {
    HoldingBehind(es, i, keys[1]);
    SecondKey(es[i].value, off, off + 1, keys);
    SecondKeyAmong(es, i + 1, next, keys);
  }

  /** Two keys, exactly: from the first member with the first key on, the first member whose
      value is an object with the second key. If there is none, nothing is found. */
  lemma {:induction false} FindTwoKeys(before: string, s: Syntax, rest: string, a: string, k: string,
      strtod: string -> int) returns (off: nat)
    requires Readable(before, s, rest) && s.Obj? && AllPlain([a, k])
    ensures var text := before + Spelled(s) + rest;
            var r := Find(text, "$" + Dotted([a, k]), strtod);
            var h := FirstHolding(s.members, FieldIndex(s.members, a), k);
            if h == |s.members| then r == NO_MATCH else Spans(r, text, Field(s.members[h].value, k).value, off)
  {
    var at := |before|;
    FindIsHunt(before, s, rest, [a, k], strtod);
    HuntInside(s, at, 0, at + 1, 1, [a, k], 0);
    var r := HuntValue(s, at, 0, [a, k], 0);
    HuntTwo(s.members, at + 1, [a, k], r);
    off := if r.Hit? then r.at else 0;
  }

  /** So a path of two keys that does not resolve is lost exactly when no member behind the first
      key's holds the second key. */
  lemma {:induction false} UnresolvedIsLost(before: string, s: Syntax, rest: string, a: string, k: string,
      strtod: string -> int)
    requires Readable(before, s, rest) && s.Obj? && AllPlain([a, k])
    requires Field(s, a).Some? ==> Field(Field(s, a).value, k) == None
    ensures Find(before + Spelled(s) + rest, "$" + Dotted([a, k]), strtod) == NO_MATCH <==>
            forall h :: FieldIndex(s.members, a) < h < |s.members| ==> Field(s.members[h].value, k) == None
  {
    var _ := FindTwoKeys(before, s, rest, a, k, strtod);
  }

  /** The search does not back out of a matched key: where its value is a scalar, the next
      member is searched for the rest of the path. */
  lemma {:induction false} NoBackOut(s: Syntax, a: string, k: string, strtod: string -> int)
    requires Readable("", s, "") && AllPlain([a, k]) && s.Obj? && |s.members| == 2
    requires s.members[0].body == a && !s.members[0].value.Obj? && Field(s.members[1].value, k).Some?
    ensures Field(Field(s, a).value, k) == None
    ensures Find(Spelled(s), "$" + Dotted([a, k]), strtod).tok == TokenOf(Field(s.members[1].value, k).value)
  {
    assert "" + Spelled(s) + "" == Spelled(s);
    assert FieldIndex(s.members, a) == 0 && FirstHolding(s.members, 0, k) == 1;
    var _ := FindTwoKeys("", s, "", a, k, strtod);
  }
}
