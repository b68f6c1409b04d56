/** mjson_find, a machine fed with callbacks. */
module Finder {
  import opened Json
  import opened Numbers
  import opened Scanner
  import opened Text

  const TOK_INVALID: int := 0
  const TOK_ARRAY: int := 91
  const TOK_OBJECT: int := 123

  /** struct msjon_get_data; start and size are what is stored through tokptr and toklen. */
  datatype Data = Data(pos: nat, d1: int, d2: int, i1: int, i2: int, obj: int, tok: int, start: int, size: int)

  const INITIAL: Data := Data(1, 0, 0, 0, 0, -1, TOK_INVALID, 0, 0)

  /** A path, the text it is looked up in, and how strtod reads a fraction in the path. */
  datatype Query = Query(path: string, text: string, strtod: string -> int)

  /** A char of the path, or its terminator. */
  function PathAt(path: string, pos: nat): char { if pos < |path| then path[pos] else NUL }

  /** mjson_plen: the length of the path segment at pos. */
  function SegmentLength(path: string, pos: nat): nat
    decreases |path| - pos
  {
    if PathAt(path, pos) == NUL || PathAt(path, pos) == '.' || PathAt(path, pos) == '[' then 0
    else 1 + SegmentLength(path, pos + 1)
  }

  /** Behind the next closing bracket of the path. */
  function AfterBracket(path: string, pos: nat): nat
    decreases |path| - pos
  {
    if pos >= |path| then |path| else if path[pos] == ']' then pos + 1 else AfterBracket(path, pos + 1)
  }

  /** The index strtod reads in the path. */
  function IndexAt(path: string, pos: nat, strtod: string -> int): int {
    if pos > |path| then 0
    else
      var numeral := path[pos..][..NumeralEnd(path[pos..])];
      if IsWhole(numeral) then WholeValue(numeral) else strtod(numeral)
  }

  /** The callback's spans lie inside the text, and a key has its quotes. */
  predicate Inside(s: string, e: Event) {
    e.off + e.len <= |s| && (e.tok == TOK_KEY ==> e.len >= 2)
  }

  /** A key is the path segment that is looked for. */
  predicate KeyMatches(q: Query, pos: nat, e: Event)
    requires Inside(q.text, e) && e.tok == TOK_KEY
  {
    PathAt(q.path, pos) == '.' && q.text[e.off] == '"' && q.text[e.off + e.len - 1] == '"' &&
    SegmentLength(q.path, pos + 1) == e.len - 2 && At(q.path, pos + 1, q.text[e.off + 1..e.off + e.len - 1])
  }

  /** mjson_get_cb. */
  function Callback(q: Query, d: Data, e: Event): Data
    requires Inside(q.text, e)
  {
    if d.tok != TOK_INVALID then d
    else if e.tok == Tok('{') then Enter(q.path, d, e)
    else if e.tok == Tok('[') then
      if d.d1 == d.d2 && PathAt(q.path, d.pos) == '[' then
        var i := IndexAt(q.path, d.pos + 1, q.strtod);
        var indexed := d.(i1 := 0, i2 := i);
        Enter(q.path, if i == 0 then indexed.(d2 := d.d2 + 1, pos := d.pos + 3) else indexed, e)
      else Enter(q.path, d, e)
    else if e.tok == Tok(',') then
      if d.d1 == d.d2 + 1 then
        var counted := d.(i1 := d.i1 + 1);
        if counted.i1 == d.i2 then counted.(pos := AfterBracket(q.path, d.pos), d2 := d.d2 + 1) else counted
      else d
    else if e.tok == TOK_KEY then
      if d.d1 == d.d2 + 1 && KeyMatches(q, d.pos, e) then d.(d2 := d.d2 + 1, pos := d.pos + e.len - 1) else d
    else if e.tok == Tok('}') || e.tok == Tok(']') then Leave(q.path, d.(d1 := d.d1 - 1), e)
    else if 10 < e.tok < 20 && d.d1 == d.d2 && PathAt(q.path, d.pos) == NUL then
      d.(tok := e.tok, start := e.off, size := e.len)
    else d
  }

  function Enter(path: string, d: Data, e: Event): Data {
    (if PathAt(path, d.pos) == NUL && d.d1 == d.d2 then d.(obj := e.off) else d).(d1 := d.d1 + 1)
  }

  function Leave(path: string, d: Data, e: Event): Data {
    if PathAt(path, d.pos) == NUL && d.d1 == d.d2 && d.obj != -1 then
      d.(tok := e.tok - 2, start := d.obj, size := e.off - d.obj + 1)
    else d
  }

  predicate AllInside(s: string, events: seq<Event>) { forall i :: 0 <= i < |events| ==> Inside(s, events[i]) }

  function Feed(q: Query, d: Data, events: seq<Event>): Data
    requires AllInside(q.text, events)
    decreases |events|
  {
    if events == [] then d else Feed(q, Callback(q, d, events[0]), events[1..])
  }

  // ----- every callback of the scanner is inside the text

  lemma {:induction false} RunInside(s: string, i: nat, expecting: Expecting, nesting: seq<char>)
    requires i <= |s| && IsStack(nesting)
    ensures AllInside(s, Run(s, i, expecting, nesting).events)
    decreases |s| - i, if expecting.Value? then 2 else 1
  {
    if i < |s| {
      if IsBlank(s[i]) {
        RunInside(s, i + 1, expecting, nesting);
      } else {
        match expecting
        case Value =>
          if s[i] == '{' || s[i] == '[' {
            if |nesting| < MAX_DEPTH { RunInside(s, i + 1, if s[i] == '{' then Key else Value, nesting + [s[i]]); }
          } else if s[i] == ']' && nesting != [] {
            CloseInside(s, i, nesting);
          } else if Scalar(s, i).Some? && nesting != [] {
            RunInside(s, Scalar(s, i).value.1, CommaOrEnd, nesting);
          }
        case Key =>
          if s[i] == '"' {
            if PassString(s, i + 1).Some? { RunInside(s, PassString(s, i + 1).value + 1, Colon, nesting); }
          } else if s[i] == '}' && nesting != [] {
            CloseInside(s, i, nesting);
          }
        case Colon => if s[i] == ':' { RunInside(s, i + 1, Value, nesting); }
        case CommaOrEnd =>
          if nesting != [] {
            if s[i] == ',' {
              RunInside(s, i + 1, if nesting[|nesting| - 1] == '{' then Key else Value, nesting);
            } else if s[i] == ']' || s[i] == '}' {
              CloseInside(s, i, nesting);
            }
          }
      }
    }
  }

  lemma {:induction false} CloseInside(s: string, i: nat, nesting: seq<char>)
    requires i < |s| && IsStack(nesting) && nesting != []
    ensures AllInside(s, RunClose(s, i, nesting).events)
    decreases |s| - i, 0
  {
    var rest := nesting[..|nesting| - 1];
    if rest != [] && s[i] == Closer(nesting[|nesting| - 1]) { RunInside(s, i + 1, CommaOrEnd, rest); }
  }

  /** What mjson_find returns: the token and, unless it is invalid, its span. */
  datatype Match = Match(tok: int, start: int, size: int)

  const NO_MATCH: Match := Match(TOK_INVALID, 0, 0)

  ghost function Find(s: string, path: string, strtod: string -> int): Match {
    var scan := Run(s, 0, Value, []);
    if PathAt(path, 0) != '$' || scan.code < 0 then NO_MATCH
    else
      RunInside(s, 0, Value, []);
      var d := Feed(Query(path, s, strtod), INITIAL, scan.events);
      Match(d.tok, d.start, d.size)
  }

  /** struct msjon_get_data as the callback updates it. */
  class Search {
    const q: Query
    var pos: nat
    var d1: int
    var d2: int
    var i1: int
    var i2: int
    var obj: int
    var tok: int
    var start: int
    var size: int

    constructor (q: Query)
      ensures this.q == q && Now() == INITIAL
    {
      this.q, pos, d1, d2, i1, i2, obj, tok, start, size := q, 1, 0, 0, 0, 0, -1, TOK_INVALID, 0, 0;
    }

    ghost function Now(): Data
      reads this
    {
      Data(pos, d1, d2, i1, i2, obj, tok, start, size)
    }

    /** mjson_get_cb. */
    method Handle(e: Event)
      requires Inside(q.text, e)
      modifies this
      ensures Now() == Callback(q, old(Now()), e)
    {
      if tok != TOK_INVALID { return; }
      if e.tok == Tok('{') {
        HandleBrace(e);
      } else if e.tok == Tok('[') {
        HandleBracket(e);
      } else if e.tok == Tok(',') {
        HandleComma(e);
      } else if e.tok == TOK_KEY {
        if d1 == d2 + 1 && KeyMatches(q, pos, e) { d2, pos := d2 + 1, pos + e.len - 1; }
      } else if e.tok == Tok('}') || e.tok == Tok(']') {
        HandleClose(e);
      } else if 10 < e.tok < 20 {
        if d1 == d2 && PathAt(q.path, pos) == NUL { tok, start, size := e.tok, e.off, e.len; }
      }
    }

    method HandleBrace(e: Event)
      modifies this`obj, this`d1
      ensures Now() == Enter(q.path, old(Now()), e)
    {
      if PathAt(q.path, pos) == NUL && d1 == d2 { obj := e.off; }
      d1 := d1 + 1;
    }

    method HandleBracket(e: Event)
      requires Inside(q.text, e) && tok == TOK_INVALID && e.tok == Tok('[')
      modifies this
      ensures Now() == Callback(q, old(Now()), e)
    {
      if d1 == d2 && PathAt(q.path, pos) == '[' {
        i1 := 0;
        i2 := IndexAt(q.path, pos + 1, q.strtod);
        if i1 == i2 { d2, pos := d2 + 1, pos + 3; }
      }
      HandleBrace(e);
    }

    method HandleComma(e: Event)
      requires Inside(q.text, e) && tok == TOK_INVALID && e.tok == Tok(',')
      modifies this
      ensures Now() == Callback(q, old(Now()), e)
    {
      if d1 == d2 + 1 {
        i1 := i1 + 1;
        if i1 == i2 {
          SkipBracket();
          d2 := d2 + 1;
        }
      }
    }

    method HandleClose(e: Event)
      modifies this
      ensures Now() == Leave(q.path, old(Now()).(d1 := old(d1) - 1), e)
    {
      d1 := d1 - 1;
      if PathAt(q.path, pos) == NUL && d1 == d2 && obj != -1 {
        tok, start, size := e.tok - 2, obj, e.off - obj + 1;
      }
    }

    /** The loop that moves the path position behind the next closing bracket. */
    method SkipBracket()
      modifies this`pos
      ensures pos == AfterBracket(q.path, old(pos))
    {
      while pos < |q.path| && q.path[pos] != ']'
        invariant AfterBracket(q.path, pos) == AfterBracket(q.path, old(pos))
        decreases |q.path| - pos
      {
        pos := pos + 1;
      }
      pos := if pos >= |q.path| then |q.path| else pos + 1;
    }
  }

  /** mjson_find: the callbacks of one scan, in order. */
  method FindLoop(s: string, path: string, strtod: string -> int) returns (r: Match)
    ensures r == Find(s, path, strtod)
  {
    if PathAt(path, 0) != '$' { return NO_MATCH; }
    RunInside(s, 0, Value, []);
    var code, events := Mjson(s);
    if code < 0 { return NO_MATCH; }
    var search := new Search(Query(path, s, strtod));
    assert events[0..] == events;
    for k := 0 to |events|
      invariant Feed(search.q, search.Now(), events[k..]) == Feed(search.q, INITIAL, events)
    {
      assert events[k..][1..] == events[k + 1..];
      search.Handle(events[k]);
    }
    r := Match(search.tok, search.start, search.size);
  }

  lemma {:induction false} FeedConcat(q: Query, d: Data, a: seq<Event>, b: seq<Event>)
    requires AllInside(q.text, a) && AllInside(q.text, b)
    ensures AllInside(q.text, a + b)
    ensures Feed(q, d, a + b) == Feed(q, Feed(q, d, a), b)
    decreases |a|
  {
    if a == [] {
      assert a + b == b;
    } else {
      assert (a + b)[1..] == a[1..] + b;
      FeedConcat(q, Callback(q, d, a[0]), a[1..], b);
    }
  }

  /** Once something is found nothing changes. */
  lemma {:induction false} FeedFound(q: Query, d: Data, events: seq<Event>)
    requires AllInside(q.text, events) && d.tok != TOK_INVALID
    ensures Feed(q, d, events) == d
    decreases |events|
  {
    if events != [] { FeedFound(q, d, events[1..]); }
  }
}
