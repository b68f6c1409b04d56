/** The scanner on spelled documents.

    It reads every spelled document to its end, with white space around any token, and reports
    its nodes with their spans, or finds it nested too deep. */
module ScanSyntax {
  import opened Json
  import opened LiteralPlaces
  import opened Numbers
  import opened ParseSyntax
  import opened Scanner
  import opened Syntax
  import opened Text
  import Parser

  /** The scanner finds the end of a literal with this body. */
  predicate Closes(body: string) { PassString(InQuotes(body), 1) == Some(|body| + 1) }

  predicate Scans(s: Syntax)
    decreases s, 1
  {
    match s
    case Word(j) => j.Null? || j.False? || j.True?
    case Num(n) => IsNumeral(n)
    case Lit(body, _) => Closes(body)
    case Arr(items, blank) => Blank(blank) && ItemsScan(items)
    case Obj(members, blank) => Blank(blank) && MembersScan(members)
  }

  predicate ItemsScan(es: seq<Element>)
    decreases es, 0
  {
    es == [] || (Blank(es[0].before) && Scans(es[0].value) && Blank(es[0].after) && ItemsScan(es[1..]))
  }

  predicate MembersScan(es: seq<Entry>)
    decreases es, 0
  {
    es == [] ||
    (Blank(es[0].before) && Closes(es[0].body) && Blank(es[0].gap) && Blank(es[0].lead) && Scans(es[0].value) &&
     Blank(es[0].after) && MembersScan(es[1..]))
  }

  /** How deep containers are nested. */
  function Levels(s: Syntax): nat
    decreases s, 1
  {
    match s
    case Arr(items, _) => 1 + ItemsLevels(items)
    case Obj(members, _) => 1 + MembersLevels(members)
    case _ => 0
  }

  function ItemsLevels(es: seq<Element>): nat
    decreases es, 0
  {
    if es == [] then 0 else Max(Levels(es[0].value), ItemsLevels(es[1..]))
  }

  function MembersLevels(es: seq<Entry>): nat
    decreases es, 0
  {
    if es == [] then 0 else Max(Levels(es[0].value), MembersLevels(es[1..]))
  }

  // ----- callbacks

  function WordTok(j: JSON): int { if j.True? then TOK_TRUE else if j.False? then TOK_FALSE else TOK_NULL }

  /** The callbacks for a document spelled at a position: its nodes in preorder, and the
      punctuation between them. */
  function Events(s: Syntax, at: nat): seq<Event>
    decreases s, 1
  {
    match s
    case Word(j) => [Event(WordTok(j), at, |Spelled(s)|)]
    case Num(_) => [Event(TOK_NUMBER, at, |Spelled(s)|)]
    case Lit(_, _) => [Event(TOK_STRING, at, |Spelled(s)|)]
    case Arr(items, blank) => [Event(Tok('['), at, 1)] + ItemEvents(items, blank, at + 1)
    case Obj(members, blank) => [Event(Tok('{'), at, 1)] + MemberEvents(members, blank, at + 1)
  }

  /** From behind an opening bracket or a comma to the closing bracket. */
  function ItemEvents(es: seq<Element>, blank: string, at: nat): seq<Event>
    decreases es, 0
  {
    if es == [] then [Event(Tok(']'), at + |blank|, 1)]
    else
      var q := at + |es[0].before|;
      var sep := q + |Spelled(es[0].value)| + |es[0].after|;
      Events(es[0].value, q) +
      if |es| == 1 then [Event(Tok(']'), sep, 1)] else [Event(Tok(','), sep, 1)] + ItemEvents(es[1..], blank, sep + 1)
  }

  function MemberEvents(es: seq<Entry>, blank: string, at: nat): seq<Event>
    decreases es, 0
  {
    if es == [] then [Event(Tok('}'), at + |blank|, 1)]
    else
      var key := at + |es[0].before|;
      var gap := key + |InQuotes(es[0].body)|;
      var colon := gap + |es[0].gap|;
      var value := colon + 1 + |es[0].lead|;
      var sep := value + |Spelled(es[0].value)| + |es[0].after|;
      MemberEvent(key, gap, colon, Events(es[0].value, value)) +
      if |es| == 1 then [Event(Tok('}'), sep, 1)] else [Event(Tok(','), sep, 1)] + MemberEvents(es[1..], blank, sep + 1)
  }

  /** The events of a member up to its value. */
  function MemberEvent(key: nat, gap: nat, colon: nat, events: seq<Event>): seq<Event>
    requires key <= gap
  {
    [Event(TOK_KEY, key, gap - key)] + ([Event(Tok(':'), colon, 1)] + events)
  }

  // ----- white space

  /** Every function of the grammar passes over white space. */
  lemma {:induction false} BlanksSkipped(c: string, p: nat, w: string, q: nat, depth: nat)
    requires At(c, p, w) && Blank(w) && q == p + |w|
    ensures p <= q <= |c| && ReadValue(c, p, depth) == ReadValue(c, q, depth)
    ensures ReadElements(c, p, depth) == ReadElements(c, q, depth)
    ensures ReadElementsEnd(c, p, depth) == ReadElementsEnd(c, q, depth)
    ensures ReadMembers(c, p, depth) == ReadMembers(c, q, depth) && ReadColon(c, p, depth) == ReadColon(c, q, depth)
    ensures ReadMembersEnd(c, p, depth) == ReadMembersEnd(c, q, depth)
    decreases |w|
  {
    if w != [] {
      AtChar(c, p, w, 0);
      AtSplit(c, p, w[..1], w[1..]);
      assert w == w[..1] + w[1..];
      BlanksSkipped(c, p + 1, w[1..], q, depth);
    }
  }

  /** Behind the white space after a value stands a comma or the closing bracket. */
  lemma {:induction false} ValueDelimited(c: string, e: nat, after: string, sep: nat, s: Syntax)
    requires At(c, e, after) && Blank(after) && sep == e + |after| && sep < |c|
    requires c[sep] == ',' || c[sep] == ']' || c[sep] == '}'
    ensures Delimited(c, e, s)
  {
    if after != [] { AtChar(c, e, after, 0); }
  }

  // ----- values without children

  /** The search for the closing quote runs the same wherever a literal stands. */
  lemma {:induction false} PassMoves(c: string, at: nat, w: string, i: nat, j: nat)
    requires Stands(c, at, w) && i <= |w| && j == at + i && PassString(w, i).Some?
    ensures PassString(c, j) == Some(at + PassString(w, i).value)
    decreases |w| - i
  {
    assert w[i] == c[j];
    if w[i] == '\\' && i + 1 < |w| {
      assert w[i + 1] == c[j + 1];
      if Escapes(w[i + 1]) { PassMoves(c, at, w, i + 2, j + 2); } else { PassMoves(c, at, w, i + 1, j + 1); }
    } else if w[i] != '"' {
      PassMoves(c, at, w, i + 1, j + 1);
    }
  }

  lemma {:induction false} ClosesThere(c: string, at: nat, body: string, end: nat)
    requires At(c, at, InQuotes(body)) && Closes(body) && end == at + |InQuotes(body)|
    ensures at < end <= |c| && c[at] == '"' && PassString(c, at + 1) == Some(end - 1)
  {
    var w := InQuotes(body);
    StandsAt(c, at, w);
    assert c[at] == w[0];
    PassMoves(c, at, w, 1, at + 1);
  }

  lemma {:induction false} ScalarRead(c: string, at: nat, end: nat, s: Syntax)
    requires Scans(s) && !s.Arr? && !s.Obj? && At(c, at, Spelled(s)) && end == at + |Spelled(s)| && Delimited(c, end, s)
    ensures at < |c| && !IsBlank(c[at]) && c[at] != ']' && c[at] != '{' && c[at] != '['
    ensures Scalar(c, at) == Some((Events(s, at)[0].tok, end))
  {
    match s
    case Word(j) =>
      AtChar(c, at, WordText(j), 0);
      if At(c, at, "true") { AtChar(c, at, "true", 0); }
      if At(c, at, "null") { AtChar(c, at, "null", 0); }
    case Num(n) => NumeralRead(c, at, end, n);
    case Lit(body, _) =>
      ClosesThere(c, at, body, end);
      NotWords(c, at);
  }

  lemma {:induction false} NumeralRead(c: string, at: nat, end: nat, n: Numeral)
    requires IsNumeral(n) && At(c, at, NumeralText(n)) && end == at + |NumeralText(n)| && Delimited(c, end, Num(n))
    ensures at < |c| && (c[at] == '-' || IsDigit(c[at])) && Scalar(c, at) == Some((TOK_NUMBER, end))
  {
    var t, rest := NumeralText(n), c[end..];
    assert t != [] && (t[0] == '-' || IsDigit(t[0])) by { if !n.minus { assert t[0] == n.whole[0]; } }
    AtChar(c, at, t, 0);
    NotWords(c, at);
    AtSlice(c, at, t);
    assert c[at..] == t + rest;
    if rest != [] { assert rest[0] == c[end]; }
    NumeralEnds(n, c[at..], rest);
  }

  // ----- containers

  /** The outcome for a value that does, or does not, fit under the depth limit. */
  ghost predicate Outcome(r: Read, fits: bool, end: nat, events: seq<Event>) {
    if fits then r == Good(end, events) else r.Bad? && r.code == TOO_DEEP
  }

  lemma {:induction false} ReadSyntax(c: string, at: nat, end: nat, s: Syntax, depth: nat)
    requires Scans(s) && depth <= MAX_DEPTH && At(c, at, Spelled(s)) && end == at + |Spelled(s)| && Delimited(c, end, s)
    ensures at < |c| && !IsBlank(c[at]) && c[at] != ']'
    ensures Outcome(ReadValue(c, at, depth), depth + Levels(s) <= MAX_DEPTH, end, Events(s, at))
    decreases s, 2
  {
    match s
    case Arr(items, blank) => ReadArray(c, at, at + 1, end, items, blank, depth, depth + 1);
    case Obj(members, blank) => ReadObject(c, at, at + 1, end, members, blank, depth, depth + 1);
    case _ => ReadScalar(c, at, end, s, depth);
  }

  lemma {:induction false} ReadScalar(c: string, at: nat, end: nat, s: Syntax, depth: nat)
    requires Scans(s) && !s.Arr? && !s.Obj? && At(c, at, Spelled(s)) && end == at + |Spelled(s)| && Delimited(c, end, s)
    ensures at < |c| && !IsBlank(c[at]) && c[at] != ']' && Levels(s) == 0
    ensures ReadValue(c, at, depth) == Good(end, Events(s, at))
  {
    ScalarRead(c, at, end, s);
  }

  /** The grammar at an opening bracket or brace. */
  lemma {:induction false} OpenIs(c: string, at: nat, p: nat, depth: nat, inner: nat)
    requires at < |c| && (c[at] == '[' || c[at] == '{') && p == at + 1 && inner == depth + 1
    ensures ReadValue(c, at, depth) ==
            if depth >= MAX_DEPTH then Bad(TOO_DEEP, [])
            else Precede([Event(Tok(c[at]), at, 1)],
                         if c[at] == '[' then ReadElements(c, p, inner) else ReadMembers(c, p, inner))
  {
  }

  /** The grammar at the closing one. */
  lemma {:induction false} CloseIs(c: string, at: nat, end: nat, depth: nat)
    requires at < |c| && end == at + 1
    ensures c[at] == ']' ==> ReadElements(c, at, depth) == Good(end, [Event(Tok(']'), at, 1)])
    ensures c[at] == '}' ==> ReadMembers(c, at, depth) == Good(end, [Event(Tok('}'), at, 1)])
  {
  }

  lemma {:induction false} ReadArray(c: string, at: nat, p: nat, end: nat, items: seq<Element>, blank: string,
      depth: nat, inner: nat)
    requires Blank(blank) && ItemsScan(items) && depth <= MAX_DEPTH && p == at + 1 && inner == depth + 1
    requires At(c, at, Spelled(Arr(items, blank))) && end == at + |Spelled(Arr(items, blank))|
    ensures at < |c| && c[at] == '['
    ensures Outcome(ReadValue(c, at, depth), inner + ItemsLevels(items) <= MAX_DEPTH, end,
                    [Event(Tok('['), at, 1)] + ItemEvents(items, blank, p))
    decreases items, 3
  {
    var text := if items == [] then blank else SpelledItems(items);
    var _, last := InsideBrackets(c, at, "[", text, "]");
    OpenIs(c, at, p, depth, inner);
    if depth < MAX_DEPTH {
      if items == [] {
        BlanksSkipped(c, p, blank, last, inner);
        CloseIs(c, last, end, inner);
      } else {
        ReadItems(c, p, last, end, items, blank, inner);
      }
    }
  }

  /** The grammar at an item that ends at e, in front of the separator at sep. */
  lemma {:induction false} ItemIs(c: string, q: nat, e: nat, sep: nat, next: nat, events: seq<Event>, depth: nat)
    requires q < |c| && !IsBlank(c[q]) && c[q] != ']' && ReadValue(c, q, depth) == Good(e, events)
    requires e <= sep < |c| && next == sep + 1 && ReadElementsEnd(c, e, depth) == ReadElementsEnd(c, sep, depth)
    ensures c[sep] == ']' ==> ReadElements(c, q, depth) == Good(next, events + [Event(Tok(']'), sep, 1)])
    ensures c[sep] == ',' ==>
              ReadElements(c, q, depth) == Precede(events + [Event(Tok(','), sep, 1)], ReadElements(c, next, depth))
  {
    if c[sep] == ',' {
      var r := ReadElements(c, next, depth);
      assert ReadElementsEnd(c, sep, depth) == Precede([Event(Tok(','), sep, 1)], r);
      Regroup(events, [Event(Tok(','), sep, 1)], r.events);
    }
  }

  lemma {:induction false} BadItemIs(c: string, q: nat, depth: nat)
    requires q < |c| && !IsBlank(c[q]) && c[q] != ']' && ReadValue(c, q, depth).Bad?
    ensures ReadElements(c, q, depth) == ReadValue(c, q, depth)
  {
  }

  /** Where the first item, its separator and the others stand. */
  lemma {:induction false} ItemPlaces(c: string, p: nat, last: nat, es: seq<Element>)
    returns (q: nat, e: nat, sep: nat, next: nat)
    requires es != [] && At(c, p, SpelledItems(es)) && last == p + |SpelledItems(es)| < |c| && c[last] == ']'
    ensures At(c, p, es[0].before) && q == p + |es[0].before|
    ensures At(c, q, Spelled(es[0].value)) && e == q + |Spelled(es[0].value)|
    ensures At(c, e, es[0].after) && sep == e + |es[0].after| && sep < |c| && next == sep + 1
    ensures c[sep] == if |es| == 1 then ']' else ','
    ensures |es| == 1 ==> sep == last
    ensures |es| > 1 ==> At(c, next, SpelledItems(es[1..])) && last == next + |SpelledItems(es[1..])|
  {
    var x := es[0];
    q, e, sep := AtSplitFour(c, p, x.before, Spelled(x.value), x.after, ItemsRest(es));
    next := sep + 1;
    if |es| > 1 {
      AtSplit(c, sep, ",", SpelledItems(es[1..]));
      AtChar(c, sep, ",", 0);
    }
  }

  lemma {:induction false} ReadItems(c: string, p: nat, last: nat, end: nat, es: seq<Element>, blank: string,
      depth: nat)
    requires es != [] && ItemsScan(es) && depth <= MAX_DEPTH && At(c, p, SpelledItems(es))
    requires last == p + |SpelledItems(es)| < |c| && c[last] == ']' && end == last + 1
    ensures Outcome(ReadElements(c, p, depth), depth + ItemsLevels(es) <= MAX_DEPTH, end, ItemEvents(es, blank, p))
    decreases es, 1
  {
    var x := es[0];
    var q, e, sep, next := ItemPlaces(c, p, last, es);
    ValueDelimited(c, e, x.after, sep, x.value);
    ReadSyntax(c, q, e, x.value, depth);
    BlanksSkipped(c, p, x.before, q, depth);
    BlanksSkipped(c, e, x.after, sep, depth);
    if |es| > 1 && depth + Levels(x.value) <= MAX_DEPTH { ReadItems(c, next, last, end, es[1..], blank, depth); }
    ItemsCompose(c, p, q, e, sep, next, end, es, blank, depth);
  }

  lemma {:induction false} ItemEventsIs(es: seq<Element>, blank: string, p: nat, q: nat, e: nat, sep: nat, next: nat)
    requires es != [] && q == p + |es[0].before| && e == q + |Spelled(es[0].value)| && sep == e + |es[0].after|
    requires next == sep + 1
    ensures ItemEvents(es, blank, p) ==
            if |es| == 1 then Events(es[0].value, q) + [Event(Tok(']'), sep, 1)]
            else (Events(es[0].value, q) + [Event(Tok(','), sep, 1)]) + ItemEvents(es[1..], blank, next)
  {
    Regroup(Events(es[0].value, q), [Event(Tok(','), sep, 1)], ItemEvents(es[1..], blank, next));
  }

  lemma {:induction false} ItemsCompose(c: string, p: nat, q: nat, e: nat, sep: nat, next: nat, end: nat,
      es: seq<Element>, blank: string, depth: nat)
    requires es != [] && q == p + |es[0].before| && e == q + |Spelled(es[0].value)| && sep == e + |es[0].after|
    requires next == sep + 1 && p <= |c| && q < |c| && !IsBlank(c[q]) && c[q] != ']' && sep < |c|
    requires ReadElements(c, p, depth) == ReadElements(c, q, depth)
    requires ReadElementsEnd(c, e, depth) == ReadElementsEnd(c, sep, depth)
    requires Outcome(ReadValue(c, q, depth), depth + Levels(es[0].value) <= MAX_DEPTH, e, Events(es[0].value, q))
    requires if |es| == 1 then c[sep] == ']' && end == next
             else c[sep] == ',' && (depth + Levels(es[0].value) <= MAX_DEPTH ==>
                                      Outcome(ReadElements(c, next, depth), depth +
                                        ItemsLevels(es[1..]) <= MAX_DEPTH, end,
                                              ItemEvents(es[1..], blank, next)))
    ensures Outcome(ReadElements(c, p, depth), depth + ItemsLevels(es) <= MAX_DEPTH, end, ItemEvents(es, blank, p))
  {
    assert ItemsLevels(es) == Max(Levels(es[0].value), ItemsLevels(es[1..]));
    assert |es| == 1 ==> ItemsLevels(es[1..]) == 0;
    ItemEventsIs(es, blank, p, q, e, sep, next);
    if depth + Levels(es[0].value) <= MAX_DEPTH {
      ItemIs(c, q, e, sep, next, Events(es[0].value, q), depth);
    } else {
      BadItemIs(c, q, depth);
    }
  }

  lemma {:induction false} ReadObject(c: string, at: nat, p: nat, end: nat, members: seq<Entry>, blank: string,
      depth: nat, inner: nat)
    requires Blank(blank) && MembersScan(members) && depth <= MAX_DEPTH && p == at + 1 && inner == depth + 1
    requires At(c, at, Spelled(Obj(members, blank))) && end == at + |Spelled(Obj(members, blank))|
    ensures at < |c| && c[at] == '{'
    ensures Outcome(ReadValue(c, at, depth), inner + MembersLevels(members) <= MAX_DEPTH, end,
                    [Event(Tok('{'), at, 1)] + MemberEvents(members, blank, p))
    decreases members, 3
  {
    var text := if members == [] then blank else SpelledMembers(members);
    var _, last := InsideBrackets(c, at, "{", text, "}");
    OpenIs(c, at, p, depth, inner);
    if depth < MAX_DEPTH {
      if members == [] {
        BlanksSkipped(c, p, blank, last, inner);
        CloseIs(c, last, end, inner);
      } else {
        ReadEntries(c, p, last, end, members, blank, inner);
      }
    }
  }

  /** The grammar at a member, given where its parts stand. */
  lemma {:induction false} MemberRead(c: string, key: nat, gap: nat, colon: nat, lead: nat, value: nat, e: nat,
      events: seq<Event>, depth: nat)
    requires key < gap <= colon < |c| && c[key] == '"' && PassString(c, key + 1) == Some(gap - 1)
    requires ReadColon(c, gap, depth) == ReadColon(c, colon, depth) && c[colon] == ':' && lead == colon + 1
    requires lead <= value <= |c| && ReadValue(c, lead, depth) == ReadValue(c, value, depth) == Good(e, events)
    ensures ReadMembers(c, key, depth) == Precede(MemberEvent(key, gap, colon, events), ReadMembersEnd(c, e, depth))
  {
    var tail := ReadMembersEnd(c, e, depth);
    var colons := [Event(Tok(':'), colon, 1)] + events;
    ColonIs(c, colon, lead, e, events, depth);
    KeyIs(c, key, gap, depth, ReadColon(c, gap, depth));
    Regroup([Event(TOK_KEY, key, gap - key)], colons, tail.events);
  }

  lemma {:induction false} KeyIs(c: string, key: nat, gap: nat, depth: nat, r: Read)
    requires key < gap <= |c| && c[key] == '"' && PassString(c, key + 1) == Some(gap - 1) &&
             r == ReadColon(c, gap, depth)
    ensures ReadMembers(c, key, depth) == Precede([Event(TOK_KEY, key, gap - key)], r)
  {
  }

  lemma {:induction false} ColonIs(c: string, colon: nat, lead: nat, e: nat, events: seq<Event>, depth: nat)
    requires colon < |c| && c[colon] == ':' && lead == colon + 1 && ReadValue(c, lead, depth) == Good(e, events)
    ensures e <= |c|
    ensures ReadColon(c, colon, depth) == Precede([Event(Tok(':'), colon, 1)] + events, ReadMembersEnd(c, e, depth))
  {
  }

  lemma {:induction false} MemberIs(c: string, key: nat, e: nat, sep: nat, next: nat, first: seq<Event>, depth: nat)
    requires key < e <= sep < |c| && next == sep + 1
    requires ReadMembers(c, key, depth) == Precede(first, ReadMembersEnd(c, e, depth))
    requires ReadMembersEnd(c, e, depth) == ReadMembersEnd(c, sep, depth)
    ensures c[sep] == '}' ==> ReadMembers(c, key, depth) == Good(next, first + [Event(Tok('}'), sep, 1)])
    ensures c[sep] == ',' ==>
              ReadMembers(c, key, depth) == Precede(first + [Event(Tok(','), sep, 1)], ReadMembers(c, next, depth))
  {
    if c[sep] == ',' {
      var r := ReadMembers(c, next, depth);
      assert ReadMembersEnd(c, sep, depth) == Precede([Event(Tok(','), sep, 1)], r);
      Regroup(first, [Event(Tok(','), sep, 1)], r.events);
    }
  }

  lemma {:induction false} BadMemberIs(c: string, key: nat, gap: nat, colon: nat, lead: nat, value: nat, depth: nat)
    requires key < gap <= colon < |c| && c[key] == '"' && PassString(c, key + 1) == Some(gap - 1)
    requires ReadColon(c, gap, depth) == ReadColon(c, colon, depth) && c[colon] == ':' && lead == colon + 1
    requires lead <= value <= |c| && ReadValue(c, lead, depth) == ReadValue(c, value, depth) &&
             ReadValue(c, value, depth).Bad?
    ensures ReadMembers(c, key, depth).Bad? && ReadMembers(c, key, depth).code == ReadValue(c, value, depth).code
  {
    KeyIs(c, key, gap, depth, ReadColon(c, gap, depth));
  }

  lemma {:induction false} MemberEventsIs(es: seq<Entry>, blank: string, p: nat, key: nat, gap: nat, colon: nat,
      value: nat, e: nat, sep: nat, next: nat) returns (first: seq<Event>)
    requires es != [] && key == p + |es[0].before| && gap == key + |InQuotes(es[0].body)| && colon == gap + |es[0].gap|
    requires value == colon + 1 + |es[0].lead| && e == value + |Spelled(es[0].value)| && sep == e + |es[0].after|
    requires next == sep + 1
    ensures first == MemberEvent(key, gap, colon, Events(es[0].value, value))
    ensures MemberEvents(es, blank, p) ==
            if |es| == 1 then first + [Event(Tok('}'), sep, 1)]
            else (first + [Event(Tok(','), sep, 1)]) + MemberEvents(es[1..], blank, next)
  {
    first := MemberEvent(key, gap, colon, Events(es[0].value, value));
    Regroup(first, [Event(Tok(','), sep, 1)], MemberEvents(es[1..], blank, next));
  }

  /** Behind the first member stands the closing brace, or a comma and the others. */
  lemma {:induction false} MoreMembersAt(c: string, sep: nat, last: nat, es: seq<Entry>) returns (next: nat)
    requires es != [] && At(c, sep, MembersRest(es)) && sep + |MembersRest(es)| == last < |c| && c[last] == '}'
    ensures next == sep + 1 && sep < |c| && c[sep] == (if |es| == 1 then '}' else ',') && (|es| == 1 ==> sep == last)
    ensures |es| > 1 ==> At(c, next, SpelledMembers(es[1..])) && last == next + |SpelledMembers(es[1..])|
  {
    MembersRestAt(c, sep, es);
    next := sep + 1;
  }

  lemma {:induction false} ReadEntries(c: string, p: nat, last: nat, end: nat, es: seq<Entry>, blank: string,
      depth: nat)
    requires es != [] && MembersScan(es) && depth <= MAX_DEPTH && At(c, p, SpelledMembers(es))
    requires last == p + |SpelledMembers(es)| < |c| && c[last] == '}' && end == last + 1
    ensures Outcome(ReadMembers(c, p, depth), depth + MembersLevels(es) <= MAX_DEPTH, end, MemberEvents(es, blank, p))
    decreases es, 1
  {
    var x := es[0];
    var key, gap, colon, lead, value, e, sep := MemberCut(c, p, es);
    var next := MoreMembersAt(c, sep, last, es);
    ValueDelimited(c, e, x.after, sep, x.value);
    ReadSyntax(c, value, e, x.value, depth);
    if |es| > 1 && depth + Levels(x.value) <= MAX_DEPTH { ReadEntries(c, next, last, end, es[1..], blank, depth); }
    BlanksSkipped(c, p, x.before, key, depth);
    MembersCompose(c, p, key, gap, colon, lead, value, e, sep, next, end, es, blank, depth);
  }

  lemma {:induction false} MembersCompose(c: string, p: nat, key: nat, gap: nat, colon: nat, lead: nat, value: nat,
      e: nat, sep: nat, next: nat, end: nat, es: seq<Entry>, blank: string, depth: nat)
    requires es != [] && p <= |c| && key == p + |es[0].before| && gap == key + |InQuotes(es[0].body)|
    requires colon == gap + |es[0].gap| && lead == colon + 1 && value == lead + |es[0].lead|
    requires e == value + |Spelled(es[0].value)| && sep == e + |es[0].after| && sep < |c| && next == sep + 1
    requires At(c, key, InQuotes(es[0].body)) && Closes(es[0].body) && At(c, gap, es[0].gap) && Blank(es[0].gap)
    requires At(c, colon, ":") && At(c, lead, es[0].lead) && Blank(es[0].lead) && At(c, e, es[0].after)
    requires Blank(es[0].after) && key <= |c| && ReadMembers(c, p, depth) == ReadMembers(c, key, depth)
    requires Outcome(ReadValue(c, value, depth), depth +
             Levels(es[0].value) <= MAX_DEPTH, e, Events(es[0].value, value))
    requires if |es| == 1 then c[sep] == '}' && end == next
             else c[sep] == ',' && (depth + Levels(es[0].value) <= MAX_DEPTH ==>
                                      Outcome(ReadMembers(c, next, depth), depth + MembersLevels(es[1..]) <= MAX_DEPTH,
                                              end, MemberEvents(es[1..], blank, next)))
    ensures Outcome(ReadMembers(c, p, depth), depth + MembersLevels(es) <= MAX_DEPTH, end, MemberEvents(es, blank, p))
  {
    assert MembersLevels(es) == Max(Levels(es[0].value), MembersLevels(es[1..]));
    assert |es| == 1 ==> MembersLevels(es[1..]) == 0;
    var first := MemberEventsIs(es, blank, p, key, gap, colon, value, e, sep, next);
    ClosesThere(c, key, es[0].body, gap);
    BlanksSkipped(c, gap, es[0].gap, colon, depth);
    AtChar(c, colon, ":", 0);
    BlanksSkipped(c, lead, es[0].lead, value, depth);
    if depth + Levels(es[0].value) <= MAX_DEPTH {
      MemberRead(c, key, gap, colon, lead, value, e, Events(es[0].value, value), depth);
      BlanksSkipped(c, e, es[0].after, sep, depth);
      MemberIs(c, key, e, sep, next, first, depth);
    } else {
      BadMemberIs(c, key, gap, colon, lead, value, depth);
    }
  }

  /** A text that spells a document is scanned up to its end, and its nodes are reported,
      exactly when containers are nested at most 20 deep; otherwise mjson says so. What follows
      the document is not looked at. */
  lemma {:induction false} ScanText(before: string, s: Syntax, rest: string)
    requires Scans(s) && Blank(before) && (s.Num? && rest != [] ==> !Parser.IsNumberChar(rest[0]))
    ensures var text := before + Spelled(s) + rest;
            if Levels(s) <= MAX_DEPTH
            then Run(text, 0, Value, []) == Scan(|before + Spelled(s)|, Events(s, |before|))
            else Run(text, 0, Value, []).code == TOO_DEEP
  {
    var text, at := before + Spelled(s) + rest, |before|;
    var end := TextPlaces(text, before, Spelled(s), rest);
    ReadSyntax(text, at, end, s, 0);
    BlanksSkipped(text, 0, before, at, 0);
    AutomatonIsGrammar(text);
  }

  lemma {:induction false} TextPlaces(text: string, before: string, t: string, rest: string) returns (end: nat)
    requires text == before + t + rest
    ensures At(text, 0, before) && At(text, |before|, t) && end == |before| + |t| == |before + t|
    ensures if rest == [] then end == |text| else end < |text| && text[end] == rest[0]
  {
    end := |before| + |t|;
    assert text == "" + before + (t + rest);
    AtMiddle("", before, t + rest);
    AtMiddle(before, t, rest);
  }
}
