/** The look-up machine on the events of a spelled document.

    `HuntValue` says on the document what the machine finds: which keys of the path are used up
    where, and the value behind the last of them. */
module FeedSyntax {
  import opened Finder
  import opened Json
  import opened ParseSyntax
  import opened Scanner
  import opened ScanSyntax
  import opened Syntax
  import opened Text

  // ----- paths

  /** A key as a path can spell it. */
  ghost predicate Plain(k: string) { NulFree(k) && '.' !in k && '[' !in k }

  ghost predicate AllPlain(keys: seq<string>) { forall i :: 0 <= i < |keys| ==> Plain(keys[i]) }

  function Dotted(keys: seq<string>): string { if keys == [] then [] else "." + keys[0] + Dotted(keys[1..]) }

  function TokenOf(s: Syntax): (t: int)
    ensures t != TOK_INVALID
  {
    match s
    case Word(j) => WordTok(j)
    case Num(_) => TOK_NUMBER
    case Lit(_, _) => TOK_STRING
    case Arr(_, _) => TOK_ARRAY
    case Obj(_, _) => TOK_OBJECT
  }

  // ----- spans

  function ItemsText(es: seq<Element>, blank: string): string { if es == [] then blank else SpelledItems(es) }

  function MembersText(es: seq<Entry>, blank: string): string { if es == [] then blank else SpelledMembers(es) }

  /** The events and the length of a container, by those of its inside. */
  lemma {:induction false} ArrayIs(items: seq<Element>, blank: string, at: nat, p: nat)
    requires p == at + 1
    ensures Events(Arr(items, blank), at) == [Event(Tok('['), at, 1)] + ItemEvents(items, blank, p)
    ensures at + |Spelled(Arr(items, blank))| == p + |ItemsText(items, blank)| + 1
  {
    ArraySize(items, blank);
  }

  lemma {:induction false} ArraySize(items: seq<Element>, blank: string)
    ensures |Spelled(Arr(items, blank))| == |ItemsText(items, blank)| + 2
  {
    assert |"[" + ItemsText(items, blank) + "]"| == |ItemsText(items, blank)| + 2;
  }

  lemma {:induction false} ObjectSize(members: seq<Entry>, blank: string)
    ensures |Spelled(Obj(members, blank))| == |MembersText(members, blank)| + 2
  {
    assert |"{" + MembersText(members, blank) + "}"| == |MembersText(members, blank)| + 2;
  }

  lemma {:induction false} ObjectIs(members: seq<Entry>, blank: string, at: nat, p: nat)
    requires p == at + 1
    ensures Events(Obj(members, blank), at) == [Event(Tok('{'), at, 1)] + MemberEvents(members, blank, p)
    ensures at + |Spelled(Obj(members, blank))| == p + |MembersText(members, blank)| + 1
  {
    ObjectSize(members, blank);
  }

  lemma {:induction false} ItemsSize(es: seq<Element>, blank: string)
    requires es != []
    ensures |ItemsText(es, blank)| ==
            |es[0].before| + |Spelled(es[0].value)| + |es[0].after| +
            if |es| == 1 then 0 else 1 + |ItemsText(es[1..], blank)|
  {
    assert |ItemsRest(es)| == if |es| == 1 then 0 else 1 + |SpelledItems(es[1..])|;
  }

  lemma {:induction false} MembersSize(es: seq<Entry>, blank: string)
    requires es != []
    ensures |MembersText(es, blank)| ==
            |es[0].before| + |InQuotes(es[0].body)| + |es[0].gap| + 1 + |es[0].lead| + |Spelled(es[0].value)| +
            |es[0].after| + if |es| == 1 then 0 else 1 + |MembersText(es[1..], blank)|
  {
    assert |MembersRest(es)| == if |es| == 1 then 0 else 1 + |SpelledMembers(es[1..])|;
  }

  /** Where the first item is, its separator and the others. */
  lemma {:induction false} ItemsSplit(es: seq<Element>, blank: string, at: nat)
    returns (q: nat, e: nat, sep: nat, next: nat)
    requires es != []
    ensures q == at + |es[0].before| && e == q + |Spelled(es[0].value)| && sep == e + |es[0].after| && next == sep + 1
    ensures at + |ItemsText(es, blank)| == if |es| == 1 then sep else next + |ItemsText(es[1..], blank)|
    ensures ItemEvents(es, blank, at) ==
            if |es| == 1 then Events(es[0].value, q) + [Event(Tok(']'), sep, 1)]
            else (Events(es[0].value, q) + [Event(Tok(','), sep, 1)]) + ItemEvents(es[1..], blank, next)
  {
    q := at + |es[0].before|;
    e := q + |Spelled(es[0].value)|;
    sep := e + |es[0].after|;
    next := sep + 1;
    ItemsSize(es, blank);
    ItemEventsIs(es, blank, at, q, e, sep, next);
  }

  /** Where the parts of the first member are and the others begin. */
  lemma {:induction false} MembersSplit(es: seq<Entry>, blank: string, at: nat)
    returns (key: nat, gap: nat, colon: nat, value: nat, e: nat, sep: nat, next: nat, first: seq<Event>)
    requires es != []
    ensures key == at + |es[0].before| && gap == key + |InQuotes(es[0].body)| && colon == gap + |es[0].gap|
    ensures value == colon + 1 + |es[0].lead| && e == value + |Spelled(es[0].value)| && sep == e + |es[0].after|
    ensures next == sep + 1 && first == MemberEvent(key, gap, colon, Events(es[0].value, value))
    ensures at + |MembersText(es, blank)| == if |es| == 1 then sep else next + |MembersText(es[1..], blank)|
    ensures MemberEvents(es, blank, at) ==
            if |es| == 1 then first + [Event(Tok('}'), sep, 1)]
            else (first + [Event(Tok(','), sep, 1)]) + MemberEvents(es[1..], blank, next)
  {
    key := at + |es[0].before|;
    gap := key + |InQuotes(es[0].body)|;
    colon := gap + |es[0].gap|;
    value := colon + 1 + |es[0].lead|;
    e := value + |Spelled(es[0].value)|;
    sep := e + |es[0].after|;
    next := sep + 1;
    MembersSize(es, blank);
    first := MemberEventsIs(es, blank, at, key, gap, colon, value, e, sep, next);
  }

  lemma {:induction false} EventsInside(s: string, x: Syntax, at: nat, p: nat)
    requires at + |Spelled(x)| <= |s| && p == at + 1
    ensures AllInside(s, Events(x, at))
    decreases x, 1
  {
    match x
    case Arr(items, blank) =>
      ArrayIs(items, blank, at, p);
      ItemsInside(s, items, blank, p);
    case Obj(members, blank) =>
      ObjectIs(members, blank, at, p);
      MembersInside(s, members, blank, p);
    case _ =>
  }

  lemma {:induction false} ItemsInside(s: string, es: seq<Element>, blank: string, at: nat)
    requires at + |ItemsText(es, blank)| + 1 <= |s|
    ensures AllInside(s, ItemEvents(es, blank, at))
    decreases es, 0
  {
    if es != [] {
      var q, e, sep, next := ItemsSplit(es, blank, at);
      EventsInside(s, es[0].value, q, q + 1);
      if |es| > 1 { ItemsInside(s, es[1..], blank, next); }
    }
  }

  lemma {:induction false} MembersInside(s: string, es: seq<Entry>, blank: string, at: nat)
    requires at + |MembersText(es, blank)| + 1 <= |s|
    ensures AllInside(s, MemberEvents(es, blank, at))
    decreases es, 0
  {
    if es != [] {
      var key, gap, colon, value, e, sep, next, _ := MembersSplit(es, blank, at);
      EventsInside(s, es[0].value, value, value + 1);
      if |es| > 1 { MembersInside(s, es[1..], blank, next); }
    }
  }

  lemma {:induction false} FeedOne(q: Query, x: Data, e: Event)
    requires Inside(q.text, e)
    ensures AllInside(q.text, [e]) && Feed(q, x, [e]) == Callback(q, x, e)
  {
    assert [e][1..] == [];
  }

  lemma {:induction false} FeedFirst(q: Query, x: Data, e: Event, rest: seq<Event>)
    requires Inside(q.text, e) && AllInside(q.text, rest)
    ensures AllInside(q.text, [e] + rest) && Feed(q, x, [e] + rest) == Feed(q, Callback(q, x, e), rest)
  {
    assert ([e] + rest)[1..] == rest;
  }

  /** Events of one element and the closing bracket, or a comma and the other elements. */
  lemma {:induction false} FeedLast(q: Query, x: Data, first: seq<Event>, y: Data, e: Event)
    requires AllInside(q.text, first) && Feed(q, x, first) == y && Inside(q.text, e)
    ensures AllInside(q.text, first + [e]) && Feed(q, x, first + [e]) == Callback(q, y, e)
  {
    FeedOne(q, y, e);
    FeedConcat(q, x, first, [e]);
  }

  lemma {:induction false} FeedMore(q: Query, x: Data, first: seq<Event>, y: Data, comma: Event, rest: seq<Event>)
    requires AllInside(q.text, first) && Feed(q, x, first) == y && Inside(q.text, comma) && AllInside(q.text, rest)
    ensures AllInside(q.text, (first + [comma]) + rest)
    ensures Feed(q, x, (first + [comma]) + rest) == Feed(q, Callback(q, y, comma), rest)
  {
    FeedLast(q, x, first, y, comma);
    FeedConcat(q, x, first + [comma], rest);
  }

  /** What is found in the first events is not given up for the others. */
  lemma {:induction false} FoundStays(q: Query, x: Data, first: seq<Event>, all: seq<Event>)
    requires AllInside(q.text, all) && first <= all && AllInside(q.text, first) && Feed(q, x, first).tok != TOK_INVALID
    ensures Feed(q, x, all) == Feed(q, x, first)
  {
    var tail := all[|first|..];
    assert all == first + tail;
    FeedConcat(q, x, first, tail);
    FeedFound(q, Feed(q, x, first), tail);
  }

  // ----- values the path does not lead to

  /** Nothing found yet, and no array index is waited for. */
  ghost predicate Searching(x: Data) { x.tok == TOK_INVALID && x.i1 >= x.i2 }

  /** Nothing found yet, and no comma of this container reaches an index that is waited for. */
  ghost predicate Passing(x: Data) { x.tok == TOK_INVALID && (x.i1 >= x.i2 || x.d1 > x.d2 + 1) }

  /** The commas of a container at the level that is searched are counted. */
  function Counted(x: Data, elements: nat): Data {
    if x.d1 == x.d2 + 1 && elements > 0 then x.(i1 := x.i1 + elements - 1) else x
  }

  /** A comma at the level that is searched is counted, and matters no further. */
  lemma {:induction false} CountComma(q: Query, x: Data, y: Data, e: Event, elements: nat)
    requires Passing(x) && Inside(q.text, e) && e.tok == Tok(',') && y == Callback(q, x, e) && elements > 1
    ensures Passing(y) && y.d1 == x.d1 && y.d2 == x.d2 && y.pos == x.pos && y.obj == x.obj
    ensures Counted(y, elements - 1).(d1 := y.d1 - 1) == Counted(x, elements).(d1 := x.d1 - 1)
  {
  }

  /** The path goes on with a key spelled like this. */
  ghost predicate Hits(path: string, pos: nat, body: string) {
    PathAt(path, pos) == '.' && SegmentLength(path, pos + 1) == |body| && At(path, pos + 1, body)
  }

  lemma {:induction false} KeyHits(q: Query, pos: nat, p: nat, e: Event, body: string)
    requires At(q.text, p, InQuotes(body)) && e == Event(TOK_KEY, p, |InQuotes(body)|)
    ensures Inside(q.text, e) && (KeyMatches(q, pos, e) <==> Hits(q.path, pos, body))
  {
    var w := InQuotes(body);
    AtChar(q.text, p, w, 0);
    AtChar(q.text, p, w, |w| - 1);
    AtSplit3(q.text, p, "\"", body, "\"");
    AtSlice(q.text, p + 1, body);
  }

  /** A value below the level that is searched leaves no trace. */
  lemma {:induction false} Inert(q: Query, x: Data, s: Syntax, at: nat, p: nat)
    requires x.tok == TOK_INVALID && x.d1 > x.d2 && at + |Spelled(s)| <= |q.text| && p == at + 1
    ensures AllInside(q.text, Events(s, at)) && Feed(q, x, Events(s, at)) == x
    decreases s, 2
  {
    match s
    case Arr(items, blank) => InertArray(q, x, x.(d1 := x.d1 + 1), items, blank, at, p);
    case Obj(members, blank) => InertObject(q, x, x.(d1 := x.d1 + 1), members, blank, at, p);
    case _ => FeedOne(q, x, Events(s, at)[0]);
  }

  lemma {:induction false} InertArray(q: Query, x: Data, y: Data, items: seq<Element>, blank: string, at: nat, p: nat)
    requires x.tok == TOK_INVALID && x.d1 > x.d2 && y == x.(d1 := x.d1 + 1)
    requires at + |Spelled(Arr(items, blank))| <= |q.text| && p == at + 1
    ensures AllInside(q.text, Events(Arr(items, blank), at)) && Feed(q, x, Events(Arr(items, blank), at)) == x
    decreases items, 1
  {
    ArrayIs(items, blank, at, p);
    FeedItems(q, y, items, blank, p, p + |ItemsText(items, blank)|);
    FeedFirst(q, x, Event(Tok('['), at, 1), ItemEvents(items, blank, p));
  }

  lemma {:induction false} InertObject(q: Query, x: Data, y: Data, members: seq<Entry>, blank: string, at: nat, p: nat)
    requires x.tok == TOK_INVALID && x.d1 > x.d2 && y == x.(d1 := x.d1 + 1)
    requires at + |Spelled(Obj(members, blank))| <= |q.text| && p == at + 1
    ensures AllInside(q.text, Events(Obj(members, blank), at)) && Feed(q, x, Events(Obj(members, blank), at)) == x
    decreases members, 2
  {
    ObjectIs(members, blank, at, p);
    FeedMembers(q, y, members, blank, p, p + |MembersText(members, blank)|);
    FeedFirst(q, x, Event(Tok('{'), at, 1), MemberEvents(members, blank, p));
  }

  /** The inside of an array, at or below the level that is searched. */
  lemma {:induction false} FeedItems(q: Query, x: Data, es: seq<Element>, blank: string, at: nat, off: nat)
    requires Passing(x) && x.d1 > x.d2 && off == at + |ItemsText(es, blank)| < |q.text|
    ensures AllInside(q.text, ItemEvents(es, blank, at))
    ensures Feed(q, x, ItemEvents(es, blank, at)) ==
            Leave(q.path, Counted(x, |es|).(d1 := x.d1 - 1), Event(Tok(']'), off, 1))
    decreases es, 0
  {
    if es == [] {
      FeedOne(q, x, Event(Tok(']'), off, 1));
    } else {
      var p, e, sep, next := ItemsSplit(es, blank, at);
      Inert(q, x, es[0].value, p, p + 1);
      if |es| == 1 {
        FeedLast(q, x, Events(es[0].value, p), x, Event(Tok(']'), sep, 1));
      } else {
        var comma := Event(Tok(','), sep, 1);
        CountComma(q, x, Callback(q, x, comma), comma, |es|);
        FeedItems(q, Callback(q, x, comma), es[1..], blank, next, off);
        FeedMore(q, x, Events(es[0].value, p), x, comma, ItemEvents(es[1..], blank, next));
      }
    }
  }

  /** No key is compared with the path: the object is too deep, or the path is at its end. */
  ghost predicate Deaf(q: Query, x: Data) {
    Passing(x) && x.d1 > x.d2 && (x.d1 > x.d2 + 1 || PathAt(q.path, x.pos) == NUL)
  }

  lemma {:induction false} FeedMember(q: Query, x: Data, s: Syntax, key: nat, gap: nat, colon: nat, value: nat,
      events: seq<Event>)
    requires Deaf(q, x) && key + 2 <= gap <= colon < value && value + |Spelled(s)| <= |q.text|
    requires events == MemberEvent(key, gap, colon, Events(s, value))
    ensures AllInside(q.text, events) && Feed(q, x, events) == x
    decreases s, 3
  {
    var name, dots := Event(TOK_KEY, key, gap - key), Event(Tok(':'), colon, 1);
    Inert(q, x, s, value, value + 1);
    FeedFirst(q, x, dots, Events(s, value));
    FeedFirst(q, x, name, [dots] + Events(s, value));
  }

  /** The inside of such an object. */
  lemma {:induction false} FeedMembers(q: Query, x: Data, es: seq<Entry>, blank: string, at: nat, off: nat)
    requires Deaf(q, x) && off == at + |MembersText(es, blank)| < |q.text|
    ensures AllInside(q.text, MemberEvents(es, blank, at))
    ensures Feed(q, x, MemberEvents(es, blank, at)) ==
            Leave(q.path, Counted(x, |es|).(d1 := x.d1 - 1), Event(Tok('}'), off, 1))
    decreases es, 1
  {
    if es == [] {
      FeedOne(q, x, Event(Tok('}'), off, 1));
    } else {
      var key, gap, colon, value, e, sep, next, first := MembersSplit(es, blank, at);
      FeedMember(q, x, es[0].value, key, gap, colon, value, first);
      if |es| == 1 {
        FeedLast(q, x, first, x, Event(Tok('}'), sep, 1));
      } else {
        var comma := Event(Tok(','), sep, 1);
        CountComma(q, x, Callback(q, x, comma), comma, |es|);
        FeedMembers(q, Callback(q, x, comma), es[1..], blank, next, off);
        FeedMore(q, x, first, x, comma, MemberEvents(es[1..], blank, next));
      }
    }
  }

  // ----- the value the path leads to

  ghost predicate Located(x: Data, node: Syntax, at: nat) {
    x.tok == TokenOf(node) && x.start == at && x.size == |Spelled(node)|
  }

  lemma {:induction false} FoundHere(q: Query, x: Data, s: Syntax, at: nat, p: nat)
    requires Searching(x) && x.d1 == x.d2 && PathAt(q.path, x.pos) == NUL && p == at + 1 &&
             at + |Spelled(s)| <= |q.text|
    requires s.Word? ==> s.word.Null? || s.word.False? || s.word.True?
    ensures AllInside(q.text, Events(s, at)) && Located(Feed(q, x, Events(s, at)), s, at)
  {
    match s
    case Arr(items, blank) => FoundArray(q, x, x.(obj := at, d1 := x.d1 + 1), items, blank, at, p);
    case Obj(members, blank) => FoundObject(q, x, x.(obj := at, d1 := x.d1 + 1), members, blank, at, p);
    case _ => FeedOne(q, x, Events(s, at)[0]);
  }

  lemma {:induction false} FoundArray(q: Query, x: Data, y: Data, items: seq<Element>, blank: string, at: nat, p: nat)
    requires Searching(x) && x.d1 == x.d2 && PathAt(q.path, x.pos) == NUL && p == at + 1
    requires at + |Spelled(Arr(items, blank))| <= |q.text| && y == x.(obj := at, d1 := x.d1 + 1)
    ensures AllInside(q.text, Events(Arr(items, blank), at))
    ensures Located(Feed(q, x, Events(Arr(items, blank), at)), Arr(items, blank), at)
  {
    ArrayIs(items, blank, at, p);
    FeedItems(q, y, items, blank, p, p + |ItemsText(items, blank)|);
    FeedFirst(q, x, Event(Tok('['), at, 1), ItemEvents(items, blank, p));
  }

  lemma {:induction false} FoundObject(q: Query, x: Data, y: Data, members: seq<Entry>, blank: string, at: nat, p: nat)
    requires Searching(x) && x.d1 == x.d2 && PathAt(q.path, x.pos) == NUL && p == at + 1
    requires at + |Spelled(Obj(members, blank))| <= |q.text| && y == x.(obj := at, d1 := x.d1 + 1)
    ensures AllInside(q.text, Events(Obj(members, blank), at))
    ensures Located(Feed(q, x, Events(Obj(members, blank), at)), Obj(members, blank), at)
  {
    ObjectIs(members, blank, at, p);
    FeedMembers(q, y, members, blank, p, p + |MembersText(members, blank)|);
    FeedFirst(q, x, Event(Tok('{'), at, 1), MemberEvents(members, blank, p));
  }

  // ----- where the parts stand in the text

  lemma {:induction false} ArrayPlaced(c: string, items: seq<Element>, blank: string, at: nat, p: nat)
    requires At(c, at, Spelled(Arr(items, blank))) && p == at + 1
    ensures At(c, p, ItemsText(items, blank)) && p + |ItemsText(items, blank)| + 1 <= |c|
  {
    var _, last := InsideBrackets(c, at, "[", ItemsText(items, blank), "]");
  }

  lemma {:induction false} ObjectPlaced(c: string, members: seq<Entry>, blank: string, at: nat, p: nat)
    requires At(c, at, Spelled(Obj(members, blank))) && p == at + 1
    ensures At(c, p, MembersText(members, blank)) && p + |MembersText(members, blank)| + 1 <= |c|
  {
    var _, last := InsideBrackets(c, at, "{", MembersText(members, blank), "}");
  }

  lemma {:induction false} ItemPlaced(c: string, es: seq<Element>, at: nat, q: nat, e: nat, sep: nat, next: nat)
    requires es != [] && At(c, at, SpelledItems(es)) && q == at + |es[0].before|
    requires e == q + |Spelled(es[0].value)| && sep == e + |es[0].after| && next == sep + 1
    ensures At(c, q, Spelled(es[0].value)) && (|es| > 1 ==> At(c, next, SpelledItems(es[1..])))
  {
    var x := es[0];
    var a, _, d := AtSplitFour(c, at, x.before, Spelled(x.value), x.after, ItemsRest(es));
    assert a == q && d == sep;
    if |es| > 1 { AtSplit(c, sep, ",", SpelledItems(es[1..])); }
  }

  lemma {:induction false} MemberPlaced(c: string, es: seq<Entry>, at: nat, key: nat, value: nat, sep: nat, next: nat)
    requires es != [] && At(c, at, SpelledMembers(es)) && key == at + |es[0].before|
    requires value == key + |InQuotes(es[0].body)| + |es[0].gap| + 1 + |es[0].lead|
    requires sep == value + |Spelled(es[0].value)| + |es[0].after| && next == sep + 1
    ensures At(c, key, InQuotes(es[0].body)) && At(c, value, Spelled(es[0].value))
    ensures |es| > 1 ==> At(c, next, SpelledMembers(es[1..]))
  {
    var a, _, _, _, b, _, d := MemberCut(c, at, es);
    assert a == key && b == value && d == sep;
    MembersRestAt(c, sep, es);
  }

  // ----- the path behind a key

  /** Behind a key the path ends, or goes on with a key or an index. */
  ghost predicate PathEnds(rest: string) { rest == [] || rest[0] == '.' || rest[0] == '[' }

  /** The segment at pos ends where the key it spells ends. */
  lemma {:induction false} SegmentIs(path: string, pos: nat, k: string, rest: string)
    requires pos <= |path| && path[pos..] == k + rest && PathEnds(rest) && Plain(k)
    ensures SegmentLength(path, pos) == |k|
    decreases |k|
  {
    if k == [] {
      if rest != [] { assert path[pos] == path[pos..][0] == rest[0]; }
    } else {
      assert path[pos] == path[pos..][0] == k[0];
      assert path[pos + 1..] == path[pos..][1..] == k[1..] + rest;
      assert Plain(k[1..]);
      SegmentIs(path, pos + 1, k[1..], rest);
    }
  }

  /** The path goes on with its next key and no other, and behind that with the others. */
  lemma {:induction false} NextKey(path: string, pos: nat, k: string, rest: string, body: string, next: nat)
    requires pos <= |path| && path[pos..] == "." + k + rest && PathEnds(rest) && Plain(k) && next == pos + 1 + |k|
    ensures PathAt(path, pos) == '.' && (Hits(path, pos, body) <==> body == k)
    ensures next <= |path| && path[next..] == rest
  {
    Regroup(".", k, rest);
    AfterDot(path, pos, pos + 1, k + rest);
    SegmentIs(path, pos + 1, k, rest);
    Split(path, pos + 1, next, k, rest);
    AtSlice(path, pos + 1, body);
    AtSlice(path, pos + 1, k);
  }

  lemma {:induction false} AfterDot(path: string, pos: nat, next: nat, rest: string)
    requires pos <= |path| && path[pos..] == "." + rest && next == pos + 1
    ensures next <= |path| && path[pos] == '.' && path[next..] == rest
  {
    assert path[pos] == path[pos..][0];
    assert path[next..] == path[pos..][1..];
  }

  lemma {:induction false} Split(path: string, pos: nat, next: nat, k: string, rest: string)
    requires pos <= |path| && path[pos..] == k + rest && next == pos + |k|
    ensures next <= |path| && path[pos..next] == k && path[next..] == rest
  {
    assert path[pos..next] == path[pos..][..|k|];
    assert path[next..] == path[pos..][|k|..];
  }

  // ----- the hunt for the keys of a path

  /** Where mjson_find comes to rest: at a node and the place it is spelled at, or nowhere
      with this many keys of the path used up. */
  datatype Hunt = Hit(node: Syntax, at: nat) | Left(used: nat)

  /** What the search finds in a value spelled at `at`, inside d containers, when c keys are
      used up. A key of the path is used up by the first later member whose name is spelled like
      it and whose object is as deep as the key's place in the path; whether that member lies
      inside the one used before is not looked at. */
  function HuntValue(s: Syntax, at: nat, d: nat, keys: seq<string>, c: nat): (r: Hunt)
    requires c <= |keys|
    ensures r.Left? ==> c <= r.used < |keys|
    decreases s, 1
  {
    if c == |keys| then Hit(s, at)
    else
      match s
      case Arr(items, _) => HuntItems(items, at + 1, d + 1, keys, c)
      case Obj(members, _) => HuntMembers(members, at + 1, d + 1, keys, c)
      case _ => Left(c)
  }

  function HuntItems(es: seq<Element>, at: nat, d: nat, keys: seq<string>, c: nat): (r: Hunt)
    requires c < |keys|
    ensures r.Left? ==> c <= r.used < |keys|
    decreases es, 0
  {
    if es == [] then Left(c)
    else
      var q := at + |es[0].before|;
      match HuntValue(es[0].value, q, d, keys, c)
      case Hit(node, off) => Hit(node, off)
      case Left(c') => HuntItems(es[1..], q + |Spelled(es[0].value)| + |es[0].after| + 1, d, keys, c')
  }

  function HuntMembers(es: seq<Entry>, at: nat, d: nat, keys: seq<string>, c: nat): (r: Hunt)
    requires c < |keys|
    ensures r.Left? ==> c <= r.used < |keys|
    decreases es, 0
  {
    if es == [] then Left(c)
    else
      var value := at + |es[0].before| + |InQuotes(es[0].body)| + |es[0].gap| + 1 + |es[0].lead|;
      match HuntValue(es[0].value, value, d, keys, Used(es[0].body, d, keys, c))
      case Hit(node, off) => Hit(node, off)
      case Left(c') => HuntMembers(es[1..], value + |Spelled(es[0].value)| + |es[0].after| + 1, d, keys, c')
  }

  /** The keys used up once this one has been met, inside d containers. */
  function Used(key: string, d: nat, keys: seq<string>, c: nat): (r: nat)
    requires c < |keys|
    ensures c <= r <= |keys|
  {
    if d == c + 1 && key == keys[c] then c + 1 else c
  }

  lemma {:induction false} HuntInside(s: Syntax, at: nat, d: nat, p: nat, e: nat, keys: seq<string>, c: nat)
    requires c < |keys| && p == at + 1 && e == d + 1
    ensures s.Arr? ==> HuntValue(s, at, d, keys, c) == HuntItems(s.items, p, e, keys, c)
    ensures s.Obj? ==> HuntValue(s, at, d, keys, c) == HuntMembers(s.members, p, e, keys, c)
  {
  }

  lemma {:induction false} HuntFirstItem(es: seq<Element>, at: nat, q: nat, next: nat, d: nat, keys: seq<string>,
      c: nat)
    requires es != [] && c < |keys| && q == at + |es[0].before|
    requires next == q + |Spelled(es[0].value)| + |es[0].after| + 1
    ensures HuntItems(es, at, d, keys, c) ==
            match HuntValue(es[0].value, q, d, keys, c)
            case Hit(node, off) => Hit(node, off)
            case Left(c') => if |es| == 1 then Left(c') else HuntItems(es[1..], next, d, keys, c')
  {
    if |es| == 1 { assert es[1..] == []; }
  }

  lemma {:induction false} HuntFirstMember(es: seq<Entry>, at: nat, value: nat, next: nat, d: nat, keys: seq<string>,
      c: nat)
    requires es != [] && c < |keys|
    requires value == at + |es[0].before| + |InQuotes(es[0].body)| + |es[0].gap| + 1 + |es[0].lead|
    requires next == value + |Spelled(es[0].value)| + |es[0].after| + 1
    ensures HuntMembers(es, at, d, keys, c) ==
            match HuntValue(es[0].value, value, d, keys, Used(es[0].body, d, keys, c))
            case Hit(node, off) => Hit(node, off)
            case Left(c') => if |es| == 1 then Left(c') else HuntMembers(es[1..], next, d, keys, c')
  {
    if |es| == 1 { assert es[1..] == []; }
  }

  // ----- the machine hunts

  /** From pos on the path spells these keys. */
  ghost predicate Remaining(path: string, pos: nat, keys: seq<string>) {
    pos <= |path| && path[pos..] == Dotted(keys) && AllPlain(keys)
  }

  /** The machine inside d containers, with c keys used up and more to come. */
  ghost predicate Hunting(q: Query, x: Data, keys: seq<string>, c: nat, d: nat) {
    Searching(x) && x.d1 == d && x.d2 == c < |keys| && Remaining(q.path, x.pos, keys[c..]) &&
      PathAt(q.path, x.pos) == '.'
  }

  /** The machine at the end of the path, ready to take the next value. */
  ghost predicate Arrived(q: Query, x: Data, keys: seq<string>, c: nat, d: nat) {
    Searching(x) && x.d1 == d && x.d2 == c == d && c == |keys| && PathAt(q.path, x.pos) == NUL
  }

  /** The machine x has become y, as the hunt says. */
  ghost predicate Reached(q: Query, x: Data, y: Data, keys: seq<string>, d: nat, r: Hunt) {
    match r
    case Hit(node, off) => Located(y, node, off) && At(q.text, off, Spelled(node))
    case Left(c) => Hunting(q, y, keys, c, d) && y.start == x.start && y.size == x.size
  }

  lemma {:induction false} HuntIn(q: Query, x: Data, s: Syntax, at: nat, d: nat, p: nat, e: nat, keys: seq<string>,
      c: nat)
    requires Hunting(q, x, keys, c, d) || Arrived(q, x, keys, c, d)
    requires Scans(s) && At(q.text, at, Spelled(s)) && p == at + 1 && e == d + 1
    ensures AllInside(q.text, Events(s, at))
    ensures Reached(q, x, Feed(q, x, Events(s, at)), keys, d, HuntValue(s, at, d, keys, c))
    decreases s, 3
  {
    if c == |keys| {
      FoundHere(q, x, s, at, p);
    } else if s.Arr? {
      var y := x.(d1 := x.d1 + 1);
      ArrayPlaced(q.text, s.items, s.blank, at, p);
      HuntInItems(q, y, s.items, s.blank, p, e, d, keys, c);
      EnterArray(q, x, y, s.items, s.blank, at, d, p, keys, c);
      HuntInside(s, at, d, p, e, keys, c);
    } else if s.Obj? {
      var y := x.(d1 := x.d1 + 1);
      ObjectPlaced(q.text, s.members, s.blank, at, p);
      HuntInMembers(q, y, s.members, s.blank, p, e, d, keys, c);
      EnterObject(q, x, y, s.members, s.blank, at, d, p, keys, c);
      HuntInside(s, at, d, p, e, keys, c);
    } else {
      FeedOne(q, x, Events(s, at)[0]);
    }
  }

  /** An opening bracket on the way only counts. */
  lemma {:induction false} EnterArray(q: Query, x: Data, y: Data, items: seq<Element>, blank: string, at: nat, d: nat,
      p: nat, keys: seq<string>, c: nat)
    requires Hunting(q, x, keys, c, d) && y == x.(d1 := x.d1 + 1) && p == at + 1 <= |q.text| &&
             AllInside(q.text, ItemEvents(items, blank, p))
    ensures AllInside(q.text, Events(Arr(items, blank), at))
    ensures Feed(q, x, Events(Arr(items, blank), at)) == Feed(q, y, ItemEvents(items, blank, p))
  {
    ArrayIs(items, blank, at, p);
    FeedFirst(q, x, Event(Tok('['), at, 1), ItemEvents(items, blank, p));
  }

  lemma {:induction false} EnterObject(q: Query, x: Data, y: Data, members: seq<Entry>, blank: string, at: nat, d: nat,
      p: nat, keys: seq<string>, c: nat)
    requires Hunting(q, x, keys, c, d) && y == x.(d1 := x.d1 + 1) && p == at + 1 <= |q.text| &&
             AllInside(q.text, MemberEvents(members, blank, p))
    ensures AllInside(q.text, Events(Obj(members, blank), at))
    ensures Feed(q, x, Events(Obj(members, blank), at)) == Feed(q, y, MemberEvents(members, blank, p))
  {
    ObjectIs(members, blank, at, p);
    FeedFirst(q, x, Event(Tok('{'), at, 1), MemberEvents(members, blank, p));
  }

  /** A comma changes nothing that the hunt depends on; a closing bracket leads out. */
  lemma {:induction false} HuntOn(q: Query, x: Data, e: Event, keys: seq<string>, c: nat, d: nat, o: nat)
    requires Hunting(q, x, keys, c, d) && Inside(q.text, e) && d == o + 1
    requires e.tok == Tok(',') || e.tok == Tok(']') || e.tok == Tok('}')
    ensures var y := Callback(q, x, e);
            Hunting(q, y, keys, c, if e.tok == Tok(',') then d else o) && y.start == x.start && y.size == x.size
  {
  }

  lemma {:induction false} HuntInItems(q: Query, x: Data, es: seq<Element>, blank: string, at: nat, d: nat, o: nat,
      keys: seq<string>, c: nat)
    requires Hunting(q, x, keys, c, d) && d == o + 1 && ItemsScan(es)
    requires At(q.text, at, ItemsText(es, blank)) && at + |ItemsText(es, blank)| + 1 <= |q.text|
    ensures AllInside(q.text, ItemEvents(es, blank, at))
    ensures Reached(q, x, Feed(q, x, ItemEvents(es, blank, at)), keys, o, HuntItems(es, at, d, keys, c))
    decreases es, 1
  {
    ItemsInside(q.text, es, blank, at);
    if es == [] {
      HuntOn(q, x, Event(Tok(']'), at + |blank|, 1), keys, c, d, o);
      FeedOne(q, x, Event(Tok(']'), at + |blank|, 1));
    } else {
      var p, e, sep, next := ItemsSplit(es, blank, at);
      ItemPlaced(q.text, es, at, p, e, sep, next);
      var first := Events(es[0].value, p);
      HuntIn(q, x, es[0].value, p, d, p + 1, d + 1, keys, c);
      HuntFirstItem(es, at, p, next, d, keys, c);
      var r, y := HuntValue(es[0].value, p, d, keys, c), Feed(q, x, first);
      if r.Hit? {
        FoundStays(q, x, first, ItemEvents(es, blank, at));
      } else if |es| == 1 {
        HuntOn(q, y, Event(Tok(']'), sep, 1), keys, r.used, d, o);
        FeedLast(q, x, first, y, Event(Tok(']'), sep, 1));
      } else {
        var comma := Event(Tok(','), sep, 1);
        HuntOn(q, y, comma, keys, r.used, d, o);
        HuntInItems(q, Callback(q, y, comma), es[1..], blank, next, d, o, keys, r.used);
        FeedMore(q, x, first, y, comma, ItemEvents(es[1..], blank, next));
      }
    }
  }

  lemma {:induction false} HuntInMembers(q: Query, x: Data, es: seq<Entry>, blank: string, at: nat, d: nat, o: nat,
      keys: seq<string>, c: nat)
    requires Hunting(q, x, keys, c, d) && d == o + 1 && MembersScan(es)
    requires At(q.text, at, MembersText(es, blank)) && at + |MembersText(es, blank)| + 1 <= |q.text|
    ensures AllInside(q.text, MemberEvents(es, blank, at))
    ensures Reached(q, x, Feed(q, x, MemberEvents(es, blank, at)), keys, o, HuntMembers(es, at, d, keys, c))
    decreases es, 2
  {
    MembersInside(q.text, es, blank, at);
    if es == [] {
      HuntOn(q, x, Event(Tok('}'), at + |blank|, 1), keys, c, d, o);
      FeedOne(q, x, Event(Tok('}'), at + |blank|, 1));
    } else {
      var key, gap, colon, value, e, sep, next, first := MembersSplit(es, blank, at);
      MemberPlaced(q.text, es, at, key, value, sep, next);
      HuntInMember(q, x, es[0], key, gap, colon, value, d, keys, c, first);
      HuntFirstMember(es, at, value, next, d, keys, c);
      var r, y := HuntValue(es[0].value, value, d, keys, Used(es[0].body, d, keys, c)), Feed(q, x, first);
      if r.Hit? {
        FoundStays(q, x, first, MemberEvents(es, blank, at));
      } else if |es| == 1 {
        HuntOn(q, y, Event(Tok('}'), sep, 1), keys, r.used, d, o);
        FeedLast(q, x, first, y, Event(Tok('}'), sep, 1));
      } else {
        var comma := Event(Tok(','), sep, 1);
        HuntOn(q, y, comma, keys, r.used, d, o);
        HuntInMembers(q, Callback(q, y, comma), es[1..], blank, next, d, o, keys, r.used);
        FeedMore(q, x, first, y, comma, MemberEvents(es[1..], blank, next));
      }
    }
  }

  /** A key, a colon and a value. */
  lemma {:induction false} HuntInMember(q: Query, x: Data, m: Entry, key: nat, gap: nat, colon: nat, value: nat,
      d: nat, keys: seq<string>, c: nat, events: seq<Event>)
    requires Hunting(q, x, keys, c, d) && Scans(m.value) && gap == key + |InQuotes(m.body)|
    requires gap <= colon < value && At(q.text, key, InQuotes(m.body)) && At(q.text, value, Spelled(m.value))
    requires events == MemberEvent(key, gap, colon, Events(m.value, value))
    ensures AllInside(q.text, events)
    ensures Reached(q, x, Feed(q, x, events), keys, d, HuntValue(m.value, value, d, keys, Used(m.body, d, keys, c)))
    decreases m, 4
  {
    var name, dots := Event(TOK_KEY, key, gap - key), Event(Tok(':'), colon, 1);
    HuntKey(q, x, m.body, key, name, d, keys, c);
    var y := Callback(q, x, name);
    HuntIn(q, y, m.value, value, d, value + 1, d + 1, keys, Used(m.body, d, keys, c));
    FeedFirst(q, y, dots, Events(m.value, value));
    FeedFirst(q, x, name, [dots] + Events(m.value, value));
  }

  lemma {:induction false} HuntKey(q: Query, x: Data, body: string, at: nat, e: Event, d: nat, keys: seq<string>,
      c: nat)
    requires Hunting(q, x, keys, c, d) && At(q.text, at, InQuotes(body)) && e == Event(TOK_KEY, at, |InQuotes(body)|)
    ensures Inside(q.text, e)
    ensures var y, u := Callback(q, x, e), Used(body, d, keys, c);
            (Hunting(q, y, keys, u, d) || Arrived(q, y, keys, u, d)) && y.start == x.start && y.size == x.size
  {
    KeyHits(q, x.pos, at, e, body);
    var next := x.pos + 1 + |keys[c]|;
    PathGoesOn(q.path, x.pos, keys, c, body, next);
    if d == c + 1 && body == keys[c] { UseKey(q, x, body, e, d, next); }
  }

  /** The machine moves on behind the key in the path. */
  lemma {:induction false} UseKey(q: Query, x: Data, body: string, e: Event, d: int, next: nat)
    requires Searching(x) && x.d1 == d == x.d2 + 1 && next == x.pos + 1 + |body|
    requires Inside(q.text, e) && e.tok == TOK_KEY && e.len == |InQuotes(body)| && KeyMatches(q, x.pos, e)
    ensures Callback(q, x, e) == x.(d2 := d, pos := next)
  {
    assert |InQuotes(body)| == |body| + 2;
  }

  lemma {:induction false} PathGoesOn(path: string, pos: nat, keys: seq<string>, c: nat, body: string, next: nat)
    requires c < |keys| && Remaining(path, pos, keys[c..]) && next == pos + 1 + |keys[c]|
    ensures Hits(path, pos, body) <==> body == keys[c]
    ensures Remaining(path, next, keys[c + 1..]) && PathAt(path, next) == if c + 1 == |keys| then NUL else '.'
  {
    var rest := keys[c..];
    assert rest[0] == keys[c] && rest[1..] == keys[c + 1..];
    assert Plain(rest[0]);
    NextKey(path, pos, keys[c], Dotted(keys[c + 1..]), body, next);
    AtPathEnd(path, next, keys[c + 1..]);
  }

  /** Behind a key the path ends or goes on with a dot. */
  lemma {:induction false} AtPathEnd(path: string, pos: nat, keys: seq<string>)
    requires Remaining(path, pos, keys)
    ensures PathAt(path, pos) == if keys == [] then NUL else '.'
  {
    if keys != [] { assert path[pos] == path[pos..][0]; }
  }
}
