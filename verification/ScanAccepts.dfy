/** Whatever the scanner accepts is a spelled document.

    The other direction of ScanSyntax. Two things are accepted besides: a comma in front of a
    closing bracket, and a minus sign that strtod makes nothing of. Both can be seen in the
    callbacks. */
module ScanAccepts {
  import opened Json
  import opened LiteralPlaces
  import opened Numbers
  import opened ParseAccepts
  import opened ParseSyntax
  import opened Scanner
  import opened ScanSyntax
  import opened Syntax
  import opened Text

  predicate Closing(tok: int) { tok == Tok(']') || tok == Tok('}') }

  /** The first callback reports a numeral of some length, and a comma is followed by no closing
      bracket. */
  predicate StrictHead(es: seq<Event>) {
    es != [] && (es[0].tok == TOK_NUMBER ==> es[0].len > 0) &&
    (es[0].tok == Tok(',') && |es| > 1 ==> !Closing(es[1].tok))
  }

  predicate Strict(es: seq<Event>) { es == [] || (StrictHead(es) && Strict(es[1..])) }

  lemma {:induction false} StrictParts(a: seq<Event>, b: seq<Event>)
    requires Strict(a + b)
    ensures Strict(a) && Strict(b)
    decreases |a|
  {
    if a == [] {
      assert a + b == b;
    } else {
      assert (a + b)[1..] == a[1..] + b;
      StrictParts(a[1..], b);
      assert StrictHead(a);
    }
  }

  lemma {:induction false} StrictComma(comma: Event, more: seq<Event>)
    requires Strict([comma] + more) && comma.tok == Tok(',') && more != []
    ensures Strict(more) && !Closing(more[0].tok)
  {
    StrictParts([comma], more);
    var all := [comma] + more;
    assert StrictHead(all) && all[1] == more[0];
  }

  // ----- white space

  lemma {:induction false} BlankFound(c: string, p: nat) returns (w: string, q: nat)
    requires p <= |c|
    ensures Blank(w) && At(c, p, w) && q == p + |w| && (q < |c| ==> !IsBlank(c[q]))
    decreases |c| - p
  {
    if p < |c| && IsBlank(c[p]) {
      var rest;
      rest, q := BlankFound(c, p + 1);
      OneChar(c, p, c[p]);
      AtSplit(c, p, [c[p]], rest);
      w := [c[p]] + rest;
    } else {
      w, q := "", p;
      AtSlice(c, p, "");
    }
  }

  // ----- values without children

  lemma {:induction false} PassBack(c: string, at: nat, w: string, i: nat, j: nat, stop: nat)
    requires Stands(c, at, w) && i <= |w| && j == at + i && stop + 1 == at + |w| && PassString(c, j) == Some(stop)
    ensures PassString(w, i) == Some(|w| - 1)
    decreases |w| - i
  {
    assert i < |w| && w[i] == c[j];
    if w[i] == '\\' && j + 1 < |c| && Escapes(c[j + 1]) {
      assert i + 1 < |w| && w[i + 1] == c[j + 1] by { assert PassString(c, j) == PassString(c, j + 2); }
      PassBack(c, at, w, i + 2, j + 2, stop);
    } else if w[i] != '"' {
      if i + 1 < |w| { assert w[i + 1] == c[j + 1]; }
      PassBack(c, at, w, i + 1, j + 1, stop);
    }
  }

  lemma {:induction false} LiteralScanned(c: string, q: nat, stop: nat) returns (body: string)
    requires q < |c| && c[q] == '"' && PassString(c, q + 1) == Some(stop)
    ensures Closes(body) && At(c, q, InQuotes(body)) && q + |InQuotes(body)| == stop + 1
  {
    body := c[q + 1..stop];
    QuotesThere(c, q, stop);
    StandsAt(c, q, InQuotes(body));
    PassBack(c, q, InQuotes(body), 1, q + 1, stop);
  }

  lemma {:induction false} NumeralScanned(c: string, q: nat, e: nat) returns (n: Numeral)
    requires q < |c| && (c[q] == '-' || IsDigit(c[q])) && e == q + NumeralEnd(c[q..]) > q
    ensures IsNumeral(n) && At(c, q, NumeralText(n)) && e == q + |NumeralText(n)|
  {
    n := NumeralFound(c[q..]);
    AtSlice(c, q, NumeralText(n));
    assert c[q..][..NumeralEnd(c[q..])] == c[q..e];
  }

  lemma {:induction false} ScalarScanned(c: string, q: nat, tok: int, e: nat) returns (s: Syntax)
    requires q < |c| && Scalar(c, q) == Some((tok, e)) && (tok == TOK_NUMBER ==> e > q)
    ensures Scans(s) && !s.Arr? && !s.Obj? && At(c, q, Spelled(s)) && e == q + |Spelled(s)|
    ensures Events(s, q) == [Event(tok, q, e - q)]
  {
    if At(c, q, "true") {
      s := Word(True);
    } else if At(c, q, "null") {
      s := Word(Null);
    } else if At(c, q, "false") {
      s := Word(False);
    } else if c[q] == '-' || IsDigit(c[q]) {
      var n := NumeralScanned(c, q, e);
      s := Num(n);
    } else {
      var body := LiteralScanned(c, q, e - 1);
      s := Lit(body, "");
    }
  }

  // ----- containers

  /** A value stands at q, and this is what the grammar makes of it. */
  ghost predicate ValueStands(c: string, q: nat, s: Syntax, e: nat, events: seq<Event>) {
    Scans(s) && At(c, q, Spelled(s)) && e == q + |Spelled(s)| && events == Events(s, q)
  }

  ghost predicate ItemsStand(c: string, p: nat, es: seq<Element>, blank: string, e: nat, events: seq<Event>) {
    ItemsScan(es) && Blank(blank) && At(c, p, (if es == [] then blank else SpelledItems(es)) + "]") &&
    e == p + |if es == [] then blank else SpelledItems(es)| + 1 && events == ItemEvents(es, blank, p)
  }

  ghost predicate MembersStand(c: string, p: nat, es: seq<Entry>, blank: string, e: nat, events: seq<Event>) {
    MembersScan(es) && Blank(blank) && At(c, p, (if es == [] then blank else SpelledMembers(es)) + "}") &&
    e == p + |if es == [] then blank else SpelledMembers(es)| + 1 && events == MemberEvents(es, blank, p)
  }

  lemma {:induction false} ValueScanned(c: string, q: nat, depth: nat, e: nat, events: seq<Event>) returns (s: Syntax)
    requires q < |c| && !IsBlank(c[q]) && ReadValue(c, q, depth) == Good(e, events) && Strict(events)
    ensures ValueStands(c, q, s, e, events)
    decreases |c| - q, 1
  {
    if c[q] == '[' {
      var more := OpenScanned(c, q, q + 1, depth, depth + 1, e, events);
      var es, blank := ItemsScanned(c, q + 1, depth + 1, e, more);
      s := ArrayStands(c, q, q + 1, es, blank, e, more);
    } else if c[q] == '{' {
      var more := OpenScanned(c, q, q + 1, depth, depth + 1, e, events);
      var es, blank := MembersScanned(c, q + 1, depth + 1, e, more);
      s := ObjectStands(c, q, q + 1, es, blank, e, more);
    } else {
      var tok := ScalarNeeds(c, q, depth, e, events);
      s := ScalarScanned(c, q, tok, e);
    }
  }

  lemma {:induction false} ScalarNeeds(c: string, q: nat, depth: nat, e: nat, events: seq<Event>) returns (tok: int)
    requires q < |c| && !IsBlank(c[q]) && c[q] != '[' && c[q] != '{' && ReadValue(c, q, depth) == Good(e, events)
    requires Strict(events)
    ensures Scalar(c, q) == Some((tok, e)) && events == [Event(tok, q, e - q)] && (tok == TOK_NUMBER ==> e > q)
  {
    tok := Scalar(c, q).value.0;
    assert StrictHead(events);
  }

  lemma {:induction false} ArrayStands(c: string, q: nat, p: nat, es: seq<Element>, blank: string, e: nat,
      more: seq<Event>) returns (s: Syntax)
    requires q < |c| && c[q] == '[' && p == q + 1 && ItemsStand(c, p, es, blank, e, more)
    ensures ValueStands(c, q, s, e, [Event(Tok('['), q, 1)] + more)
  {
    s := Arr(es, blank);
    Bracketed(c, q, p, "[", if es == [] then blank else SpelledItems(es), "]", '[');
  }

  lemma {:induction false} ObjectStands(c: string, q: nat, p: nat, es: seq<Entry>, blank: string, e: nat,
      more: seq<Event>) returns (s: Syntax)
    requires q < |c| && c[q] == '{' && p == q + 1 && MembersStand(c, p, es, blank, e, more)
    ensures ValueStands(c, q, s, e, [Event(Tok('{'), q, 1)] + more)
  {
    s := Obj(es, blank);
    Bracketed(c, q, p, "{", if es == [] then blank else SpelledMembers(es), "}", '{');
  }

  lemma {:induction false} OpenScanned(c: string, q: nat, p: nat, depth: nat, inner: nat, e: nat, events: seq<Event>)
    returns (more: seq<Event>)
    requires q < |c| && (c[q] == '[' || c[q] == '{') && p == q + 1 && inner == depth + 1
    requires ReadValue(c, q, depth) == Good(e, events) && Strict(events)
    ensures (if c[q] == '[' then ReadElements(c, p, inner) else ReadMembers(c, p, inner)) == Good(e, more)
    ensures events == [Event(Tok(c[q]), q, 1)] + more && Strict(more)
  {
    OpenIs(c, q, p, depth, inner);
    more := (if c[q] == '[' then ReadElements(c, p, inner) else ReadMembers(c, p, inner)).events;
    StrictParts([Event(Tok(c[q]), q, 1)], more);
  }

  lemma {:induction false} Bracketed(c: string, q: nat, p: nat, open: string, inner: string, close: string, x: char)
    requires q < |c| && c[q] == x && open == [x] && p == q + 1 && At(c, p, inner + close)
    ensures At(c, q, open + inner + close)
  {
    OneChar(c, q, x);
    Enclosed(c, q, p, open, inner, close);
  }

  /** The inside of an array, up to its closing bracket. */
  lemma {:induction false} ItemsScanned(c: string, p: nat, depth: nat, e: nat, events: seq<Event>)
    returns (es: seq<Element>, blank: string)
    requires p <= |c| && ReadElements(c, p, depth) == Good(e, events) && Strict(events)
    ensures ItemsStand(c, p, es, blank, e, events)
    ensures events != [] && (es == [] ==> Closing(events[0].tok))
    decreases |c| - p, 3
  {
    var before, q := BlankFound(c, p);
    BlanksSkipped(c, p, before, q, depth);
    if c[q] == ']' {
      es, blank := [], before;
      OneChar(c, q, ']');
      AtSplit(c, p, before, "]");
    } else {
      es, blank := FirstItem(c, p, q, before, depth, e, events);
    }
  }

  /** What the grammar goes through at an element. */
  lemma {:induction false} ItemNeeds(c: string, q: nat, depth: nat, e: nat, events: seq<Event>)
    returns (v: nat, first: seq<Event>, rest: seq<Event>)
    requires q < |c| && !IsBlank(c[q]) && c[q] != ']' && ReadElements(c, q, depth) == Good(e, events) && Strict(events)
    ensures ReadValue(c, q, depth) == Good(v, first) && q <= v <= |c| && ReadElementsEnd(c, v, depth) == Good(e, rest)
    ensures events == first + rest && Strict(first) && Strict(rest)
  {
    v, first := ReadValue(c, q, depth).end, ReadValue(c, q, depth).events;
    rest := ReadElementsEnd(c, v, depth).events;
    StrictParts(first, rest);
  }

  lemma {:induction false} FirstItem(c: string, p: nat, q: nat, before: string, depth: nat, e: nat,
      events: seq<Event>) returns (es: seq<Element>, blank: string)
    requires At(c, p, before) && Blank(before) && q == p + |before| < |c| && !IsBlank(c[q]) && c[q] != ']'
    requires ReadElements(c, q, depth) == Good(e, events) && Strict(events)
    ensures ItemsStand(c, p, es, blank, e, events) && es != [] && events != []
    decreases |c| - p, 2
  {
    var v, first, rest := ItemNeeds(c, q, depth, e, events);
    var s := ValueScanned(c, q, depth, v, first);
    var after, sep := BlankFound(c, v);
    BlanksSkipped(c, v, after, sep, depth);
    var x, next := Element(before, s, after), sep + 1;
    if c[sep] == ',' {
      var more := EndNeeds(c, sep, next, depth, e, rest);
      var others;
      others, blank := ItemsScanned(c, next, depth, e, more);
      StrictComma(Event(Tok(','), sep, 1), more);
      es := ItemsJoin(c, p, q, v, sep, next, x, others, blank, e, events, first, more);
    } else {
      blank := "";
      es := LastItem(c, p, q, v, sep, next, x, e, events, first);
    }
  }

  /** Behind a value: a comma and what follows it, or the end. */
  lemma {:induction false} EndNeeds(c: string, sep: nat, next: nat, depth: nat, e: nat, rest: seq<Event>)
    returns (more: seq<Event>)
    requires sep < |c| && c[sep] == ',' && next == sep + 1 && ReadElementsEnd(c, sep, depth) == Good(e, rest)
    requires Strict(rest)
    ensures ReadElements(c, next, depth) == Good(e, more) && rest == [Event(Tok(','), sep, 1)] + more && Strict(more)
  {
    more := ReadElements(c, next, depth).events;
    StrictParts([Event(Tok(','), sep, 1)], more);
  }

  lemma {:induction false} LastItem(c: string, p: nat, q: nat, v: nat, sep: nat, next: nat, x: Element, e: nat,
      events: seq<Event>, first: seq<Event>) returns (es: seq<Element>)
    requires Blank(x.before) && Blank(x.after) && At(c, p, x.before) && q == p + |x.before|
    requires ValueStands(c, q, x.value, v, first) && At(c, v, x.after) && sep == v + |x.after| < |c| && c[sep] == ']'
    requires next == sep + 1 == e && events == first + [Event(Tok(']'), sep, 1)]
    ensures ItemsStand(c, p, es, "", e, events) && es != []
  {
    es := [x];
    assert es[1..] == [];
    var t := x.before + Spelled(x.value) + x.after;
    Glue3(c, p, x.before, Spelled(x.value), x.after);
    OneChar(c, sep, ']');
    assert SpelledItems(es) == t by { assert t + [] == t; }
    AtSplit(c, p, t, "]");
    ItemEventsIs(es, "", p, q, v, sep, next);
  }

  lemma {:induction false} ItemsJoin(c: string, p: nat, q: nat, v: nat, sep: nat, next: nat, x: Element,
      others: seq<Element>, blank: string, e: nat, events: seq<Event>, first: seq<Event>, more: seq<Event>)
    returns (es: seq<Element>)
    requires Blank(x.before) && Blank(x.after) && At(c, p, x.before) && q == p + |x.before|
    requires ValueStands(c, q, x.value, v, first) && At(c, v, x.after) && sep == v + |x.after| < |c| && c[sep] == ','
    requires next == sep + 1 && others != [] && ItemsStand(c, next, others, blank, e, more)
    requires events == first + ([Event(Tok(','), sep, 1)] + more)
    ensures ItemsStand(c, p, es, blank, e, events) && es != []
  {
    es := [x] + others;
    assert es[1..] == others;
    var t, inner := x.before + Spelled(x.value) + x.after, SpelledItems(others);
    Glue3(c, p, x.before, Spelled(x.value), x.after);
    OneChar(c, sep, ',');
    JoinText(c, p, sep, t, inner, "]");
    ItemEventsIs(es, blank, p, q, v, sep, next);
    Regroup(first, [Event(Tok(','), sep, 1)], more);
  }

  /** The inside of an object, up to its closing brace. */
  lemma {:induction false} MembersScanned(c: string, p: nat, depth: nat, e: nat, events: seq<Event>)
    returns (es: seq<Entry>, blank: string)
    requires p <= |c| && ReadMembers(c, p, depth) == Good(e, events) && Strict(events)
    ensures MembersStand(c, p, es, blank, e, events)
    ensures events != [] && (es == [] ==> Closing(events[0].tok))
    decreases |c| - p, 3
  {
    var before, q := BlankFound(c, p);
    BlanksSkipped(c, p, before, q, depth);
    if c[q] == '}' {
      es, blank := [], before;
      OneChar(c, q, '}');
      AtSplit(c, p, before, "}");
    } else {
      es, blank := FirstMember(c, p, q, before, depth, e, events);
    }
  }

  /** What the grammar goes through at a member, up to its value and behind it. */
  lemma {:induction false} NameNeeds(c: string, key: nat, depth: nat, e: nat, events: seq<Event>)
    returns (gap: nat, rest: seq<Event>)
    requires key < |c| && !IsBlank(c[key]) && c[key] != '}' && ReadMembers(c, key, depth) == Good(e, events)
    requires Strict(events)
    ensures c[key] == '"' && key < gap <= |c| && PassString(c, key + 1) == Some(gap - 1)
    ensures ReadColon(c, gap, depth) == Good(e, rest) && Strict(rest)
    ensures events == [Event(TOK_KEY, key, gap - key)] + rest
  {
    gap := PassString(c, key + 1).value + 1;
    rest := ReadColon(c, gap, depth).events;
    StrictParts([Event(TOK_KEY, key, gap - key)], rest);
  }

  lemma {:induction false} ColonNeeds(c: string, colon: nat, lead: nat, depth: nat, e: nat, events: seq<Event>)
    returns (v: nat, first: seq<Event>, rest: seq<Event>)
    requires colon <= |c| && (colon < |c| ==> !IsBlank(c[colon])) && lead == colon + 1
    requires ReadColon(c, colon, depth) == Good(e, events) && Strict(events)
    ensures colon < |c| && c[colon] == ':' && ReadValue(c, lead, depth) == Good(v, first) && lead <= v <= |c|
    ensures ReadMembersEnd(c, v, depth) == Good(e, rest) && Strict(first) && Strict(rest)
    ensures events == ([Event(Tok(':'), colon, 1)] + first) + rest
  {
    v, first := ReadValue(c, lead, depth).end, ReadValue(c, lead, depth).events;
    rest := ReadMembersEnd(c, v, depth).events;
    StrictParts([Event(Tok(':'), colon, 1)] + first, rest);
    StrictParts([Event(Tok(':'), colon, 1)], first);
  }

  /** The first member as it stands in the text, its events, and what follows them. */
  ghost predicate EntryStands(c: string, p: nat, sep: nat, x: Entry, t: string, first: seq<Event>) {
    Blank(x.before) && Closes(x.body) && Blank(x.gap) && Blank(x.lead) && Scans(x.value) && Blank(x.after) &&
    At(c, p, t) && sep == p + |t| && t == EntryText(x) && first == EntryEvents(x, p)
  }

  function EntryText(x: Entry): string {
    x.before + InQuotes(x.body) + x.gap + ":" + x.lead + Spelled(x.value) + x.after
  }

  function EntryEvents(x: Entry, p: nat): seq<Event> {
    var key := p + |x.before|;
    var gap := key + |InQuotes(x.body)|;
    var colon := gap + |x.gap|;
    MemberEvent(key, gap, colon, Events(x.value, colon + 1 + |x.lead|))
  }

  lemma {:induction false} FirstMember(c: string, p: nat, key: nat, before: string, depth: nat, e: nat,
      events: seq<Event>) returns (es: seq<Entry>, blank: string)
    requires At(c, p, before) && Blank(before) && key == p + |before| < |c| && !IsBlank(c[key]) && c[key] != '}'
    requires ReadMembers(c, key, depth) == Good(e, events) && Strict(events)
    ensures MembersStand(c, p, es, blank, e, events) && es != [] && events != []
    decreases |c| - p, 2
  {
    var x, t, sep, first, rest := EntryScanned(c, p, key, before, depth, e, events);
    var next := sep + 1;
    if c[sep] == ',' {
      var more := MembersEndNeeds(c, sep, next, depth, e, rest);
      var others;
      others, blank := MembersScanned(c, next, depth, e, more);
      StrictComma(Event(Tok(','), sep, 1), more);
      es := MembersJoin(c, p, sep, next, x, t, others, blank, e, events, first, more);
    } else {
      blank := "";
      es := LastMember(c, p, sep, next, x, t, e, events, first);
    }
  }

  lemma {:induction false} MembersEndNeeds(c: string, sep: nat, next: nat, depth: nat, e: nat, rest: seq<Event>)
    returns (more: seq<Event>)
    requires sep < |c| && c[sep] == ',' && next == sep + 1 && ReadMembersEnd(c, sep, depth) == Good(e, rest)
    requires Strict(rest)
    ensures ReadMembers(c, next, depth) == Good(e, more) && rest == [Event(Tok(','), sep, 1)] + more && Strict(more)
  {
    more := ReadMembers(c, next, depth).events;
    StrictParts([Event(Tok(','), sep, 1)], more);
  }

  lemma {:induction false} EntryScanned(c: string, p: nat, key: nat, before: string, depth: nat, e: nat,
      events: seq<Event>)
    returns (x: Entry, t: string, sep: nat, first: seq<Event>, rest: seq<Event>)
    requires At(c, p, before) && Blank(before) && key == p + |before| < |c| && !IsBlank(c[key]) && c[key] != '}'
    requires ReadMembers(c, key, depth) == Good(e, events) && Strict(events)
    ensures EntryStands(c, p, sep, x, t, first) && events == first + rest && first != [] && Strict(rest)
    ensures p < sep < |c| && ReadMembersEnd(c, sep, depth) == Good(e, rest) && !IsBlank(c[sep])
    decreases |c| - p, 1
  {
    var body, gap, w, colon, tail := NameScanned(c, key, depth, e, events);
    var lead, value, s, v, inner;
    lead, value, s, v, inner, rest := ColonScanned(c, p, colon, colon + 1, depth, e, tail);
    var after;
    after, sep := BlankFound(c, v);
    BlanksSkipped(c, v, after, sep, depth);
    x := Entry(before, body, "", w, lead, s, after);
    t, first := EntryBuilt(c, p, key, gap, colon, colon + 1, value, v, sep, x, inner);
    EventsJoin([Event(TOK_KEY, key, gap - key)], [Event(Tok(':'), colon, 1)], inner, rest);
  }

  lemma {:induction false} EntryBuilt(c: string, p: nat, key: nat, gap: nat, colon: nat, lead: nat, value: nat,
      v: nat, sep: nat, x: Entry, inner: seq<Event>) returns (t: string, first: seq<Event>)
    requires Blank(x.before) && Closes(x.body) && Blank(x.gap) && Blank(x.lead) && Blank(x.after)
    requires At(c, p, x.before) && key == p + |x.before| && At(c, key, InQuotes(x.body))
    requires gap == key + |InQuotes(x.body)| && At(c, gap, x.gap) && colon == gap + |x.gap| < |c| && c[colon] == ':'
    requires lead == colon + 1 && At(c, lead, x.lead) && value == lead + |x.lead|
    requires ValueStands(c, value, x.value, v, inner) && At(c, v, x.after) && sep == v + |x.after|
    ensures EntryStands(c, p, sep, x, t, first)
    ensures first == [Event(TOK_KEY, key, gap - key)] + ([Event(Tok(':'), colon, 1)] + inner)
  {
    EntryPlaced(c, p, key, gap, colon, lead, value, v, sep, x);
    EventsBuilt(x, p, key, gap, colon, value, inner);
    t, first := EntryText(x), EntryEvents(x, p);
  }

  lemma {:induction false} EventsBuilt(x: Entry, p: nat, key: nat, gap: nat, colon: nat, value: nat,
      inner: seq<Event>)
    requires key == p + |x.before| && gap == key + |InQuotes(x.body)| && colon == gap + |x.gap|
    requires value == colon + 1 + |x.lead| && inner == Events(x.value, value)
    ensures EntryEvents(x, p) == [Event(TOK_KEY, key, gap - key)] + ([Event(Tok(':'), colon, 1)] + inner)
  {
  }

  lemma {:induction false} NameScanned(c: string, key: nat, depth: nat, e: nat, events: seq<Event>)
    returns (body: string, gap: nat, w: string, colon: nat, tail: seq<Event>)
    requires key < |c| && !IsBlank(c[key]) && c[key] != '}' && ReadMembers(c, key, depth) == Good(e, events)
    requires Strict(events)
    ensures Closes(body) && At(c, key, InQuotes(body)) && gap == key + |InQuotes(body)|
    ensures Blank(w) && At(c, gap, w) && colon == gap + |w| <= |c| && (colon < |c| ==> !IsBlank(c[colon]))
    ensures ReadColon(c, colon, depth) == Good(e, tail) && Strict(tail) && key < gap
    ensures events == [Event(TOK_KEY, key, gap - key)] + tail
  {
    gap, tail := NameNeeds(c, key, depth, e, events);
    body := LiteralScanned(c, key, gap - 1);
    w, colon := BlankFound(c, gap);
    BlanksSkipped(c, gap, w, colon, depth);
  }

  lemma {:induction false} ColonScanned(c: string, p: nat, colon: nat, lead: nat, depth: nat, e: nat,
      events: seq<Event>)
    returns (w: string, value: nat, s: Syntax, v: nat, inner: seq<Event>, rest: seq<Event>)
    requires p < colon <= |c| && (colon < |c| ==> !IsBlank(c[colon])) && lead == colon + 1
    requires ReadColon(c, colon, depth) == Good(e, events) && Strict(events)
    ensures colon < |c| && c[colon] == ':' && Blank(w) && At(c, lead, w) && value == lead + |w|
    ensures ValueStands(c, value, s, v, inner) && v <= |c| && ReadMembersEnd(c, v, depth) == Good(e, rest) &&
            Strict(rest)
    ensures events == ([Event(Tok(':'), colon, 1)] + inner) + rest
    decreases |c| - p, 0
  {
    v, inner, rest := ColonNeeds(c, colon, lead, depth, e, events);
    w, value := BlankFound(c, lead);
    BlanksSkipped(c, lead, w, value, depth);
    s := ValueScanned(c, value, depth, v, inner);
  }

  lemma {:induction false} EventsJoin(a: seq<Event>, b: seq<Event>, d: seq<Event>, rest: seq<Event>)
    ensures a + ((b + d) + rest) == (a + (b + d)) + rest
  {
  }

  lemma {:induction false} EntryPlaced(c: string, p: nat, key: nat, gap: nat, colon: nat, lead: nat, value: nat,
      v: nat, sep: nat, x: Entry)
    requires At(c, p, x.before) && key == p + |x.before| && At(c, key, InQuotes(x.body))
    requires gap == key + |InQuotes(x.body)| && At(c, gap, x.gap) && colon == gap + |x.gap| < |c| && c[colon] == ':'
    requires lead == colon + 1 && At(c, lead, x.lead) && value == lead + |x.lead| && At(c, value, Spelled(x.value))
    requires v == value + |Spelled(x.value)| && At(c, v, x.after) && sep == v + |x.after|
    ensures At(c, p, EntryText(x)) && sep == p + |EntryText(x)|
  {
    var name := x.before + InQuotes(x.body) + x.gap;
    Glue3(c, p, x.before, InQuotes(x.body), x.gap);
    OneChar(c, colon, ':');
    Glue3(c, p, name, ":", x.lead);
    Glue3(c, p, name + ":" + x.lead, Spelled(x.value), x.after);
  }

  lemma {:induction false} EntriesAre(x: Entry, others: seq<Entry>, es: seq<Entry>, blank: string, p: nat, sep: nat,
      next: nat)
    requires es == [x] + others && sep == p + |EntryText(x)| && next == sep + 1
    ensures SpelledMembers(es) == if others == [] then EntryText(x) else EntryText(x) + ("," + SpelledMembers(others))
    ensures MemberEvents(es, blank, p) ==
            if others == [] then EntryEvents(x, p) + [Event(Tok('}'), sep, 1)]
            else (EntryEvents(x, p) + [Event(Tok(','), sep, 1)]) + MemberEvents(others, blank, next)
  {
    EntriesText(x, others, es);
    var key := p + |x.before|;
    var gap := key + |InQuotes(x.body)|;
    var colon := gap + |x.gap|;
    var value := colon + 1 + |x.lead|;
    EntrySize(x, p, key, gap, colon, value, sep);
    EntriesEvents(x, others, es, blank, p, key, gap, colon, value, value + |Spelled(x.value)|, sep, next);
  }

  lemma {:induction false} EntriesEvents(x: Entry, others: seq<Entry>, es: seq<Entry>, blank: string, p: nat, key: nat,
      gap: nat, colon: nat, value: nat, v: nat, sep: nat, next: nat)
    requires es == [x] + others && key == p + |x.before| && gap == key + |InQuotes(x.body)| && colon == gap + |x.gap|
    requires value == colon + 1 + |x.lead| && v == value + |Spelled(x.value)| && sep == v + |x.after| && next == sep + 1
    ensures MemberEvents(es, blank, p) ==
            if others == [] then EntryEvents(x, p) + [Event(Tok('}'), sep, 1)]
            else (EntryEvents(x, p) + [Event(Tok(','), sep, 1)]) + MemberEvents(others, blank, next)
  {
    assert es[1..] == others;
    var first := MemberEventsIs(es, blank, p, key, gap, colon, value, v, sep, next);
  }

  lemma {:induction false} EntriesText(x: Entry, others: seq<Entry>, es: seq<Entry>)
    requires es == [x] + others
    ensures SpelledMembers(es) == if others == [] then EntryText(x) else EntryText(x) + ("," + SpelledMembers(others))
  {
    assert es[1..] == others;
    assert SpelledMembers(es) == EntryText(x) + MembersRest(es);
    if others == [] { assert EntryText(x) + [] == EntryText(x); }
  }

  lemma {:induction false} EntrySize(x: Entry, p: nat, key: nat, gap: nat, colon: nat, value: nat, sep: nat)
    requires key == p + |x.before| && gap == key + |InQuotes(x.body)| && colon == gap + |x.gap|
    requires value == colon + 1 + |x.lead| && sep == p + |EntryText(x)|
    ensures sep == value + |Spelled(x.value)| + |x.after|
  {
  }

  lemma {:induction false} LastMember(c: string, p: nat, sep: nat, next: nat, x: Entry, t: string, e: nat,
      events: seq<Event>, first: seq<Event>) returns (es: seq<Entry>)
    requires EntryStands(c, p, sep, x, t, first) && sep < |c| && c[sep] == '}' && next == sep + 1 == e
    requires events == first + [Event(Tok('}'), sep, 1)]
    ensures MembersStand(c, p, es, "", e, events) && es != []
  {
    es := [x];
    assert es == [x] + [] && es[1..] == [];
    OneChar(c, sep, '}');
    EntriesAre(x, [], es, "", p, sep, next);
    AtSplit(c, p, t, "}");
  }

  lemma {:induction false} MembersJoin(c: string, p: nat, sep: nat, next: nat, x: Entry, t: string,
      others: seq<Entry>, blank: string, e: nat, events: seq<Event>, first: seq<Event>, more: seq<Event>)
    returns (es: seq<Entry>)
    requires EntryStands(c, p, sep, x, t, first) && sep < |c| && c[sep] == ',' && next == sep + 1
    requires others != [] && MembersStand(c, next, others, blank, e, more)
    requires events == first + ([Event(Tok(','), sep, 1)] + more)
    ensures MembersStand(c, p, es, blank, e, events) && es != []
  {
    es := [x] + others;
    assert es[1..] == others;
    OneChar(c, sep, ',');
    EntriesAre(x, others, es, blank, p, sep, next);
    JoinText(c, p, sep, t, SpelledMembers(others), "}");
    Regroup(first, [Event(Tok(','), sep, 1)], more);
  }

  /** A text that mjson accepts without a comma in front of a closing bracket and without an
      empty numeral begins with a spelled document: white space, the document, which ends where
      mjson says, and its nodes are what was reported. */
  lemma {:induction false} ScanAccepted(c: string, n: nat, events: seq<Event>) returns (before: string, s: Syntax)
    requires Run(c, 0, Value, []) == Scan(n, events) && Strict(events)
    ensures Blank(before) && Scans(s) && At(c, 0, before + Spelled(s)) && n == |before + Spelled(s)|
    ensures events == Events(s, |before|)
  {
    AutomatonIsGrammar(c);
    var q;
    before, q := BlankFound(c, 0);
    BlanksSkipped(c, 0, before, q, 0);
    s := ValueScanned(c, q, 0, n, events);
    AtSplit(c, 0, before, Spelled(s));
  }

  /** Both exceptions occur. */
  lemma {:induction false} BesidesAccepted()
    ensures Run("[null,]", 0, Value, []).code == 7 && Run("-", 0, Value, []).code == 0
    ensures !Strict(Run("[null,]", 0, Value, []).events) && !Strict(Run("-", 0, Value, []).events)
  {
    var c := "[null,]";
    AtSlice(c, 1, "null");
    NotWords("-", 0);
    assert NumeralEnd("-"[0..]) == 0;
    assert ReadElements(c, 6, 1) == Good(7, [Event(Tok(']'), 6, 1)]);
    assert ReadElementsEnd(c, 5, 1) == Good(7, [Event(Tok(','), 5, 1), Event(Tok(']'), 6, 1)]);
    AutomatonIsGrammar(c);
    AutomatonIsGrammar("-");
  }
}
