/** Paths of keys and array indices.

    A path that leads to a node finds that node. */
module FindSteps {
  import opened FeedSyntax
  import opened Finder
  import opened FindSyntax
  import opened Json
  import opened Numbers
  import opened Scanner
  import opened ScanSyntax
  import opened Syntax
  import opened Text

  datatype Step = Named(key: string) | Indexed(index: nat)

  function StepText(s: Step): string {
    match s
    case Named(k) => "." + k
    case Indexed(n) => "[" + Decimal(n) + "]"
  }

  function PathText(steps: seq<Step>): string {
    if steps == [] then [] else StepText(steps[0]) + PathText(steps[1..])
  }

  ghost predicate PlainSteps(steps: seq<Step>) {
    forall i :: 0 <= i < |steps| ==> (steps[i].Named? ==> Plain(steps[i].key))
  }

  /** A node and where it is spelled. */
  type Place = (Syntax, nat)

  function NthItem(es: seq<Element>, at: nat, n: nat): Option<Place> {
    if es == [] then None
    else
      var q := at + |es[0].before|;
      if n == 0 then Some((es[0].value, q))
      else NthItem(es[1..], q + |Spelled(es[0].value)| + |es[0].after| + 1, n - 1)
  }

  function NamedMember(es: seq<Entry>, at: nat, k: string): Option<Place> {
    if es == [] then None
    else
      var value := at + |es[0].before| + |InQuotes(es[0].body)| + |es[0].gap| + 1 + |es[0].lead|;
      if es[0].body == k then Some((es[0].value, value))
      else NamedMember(es[1..], value + |Spelled(es[0].value)| + |es[0].after| + 1, k)
  }

  function Child(s: Syntax, at: nat, step: Step): Option<Place> {
    match s
    case Arr(items, _) => if step.Indexed? then NthItem(items, at + 1, step.index) else None
    case Obj(members, _) => if step.Named? then NamedMember(members, at + 1, step.key) else None
    case _ => None
  }

  /** Where a path leads: the first member with each key, the element with each index. */
  function Walk(s: Syntax, at: nat, steps: seq<Step>): Option<Place>
    decreases |steps|
  {
    if steps == [] then Some((s, at))
    else
      match Child(s, at, steps[0])
      case None => None
      case Some(c) => Walk(c.0, c.1, steps[1..])
  }

  // ----- the path

  lemma {:induction false} PathStarts(steps: seq<Step>)
    ensures PathEnds(PathText(steps))
    ensures steps == [] <==> PathText(steps) == []
  {
  }

  /** An index in a path is read, and passed over. */
  lemma {:induction false} IndexIs(path: string, pos: nat, n: nat, rest: string, strtod: string -> int, start: nat,
      next: nat)
    requires pos <= |path| && path[pos..] == "[" + Decimal(n) + "]" + rest && start == pos + 1
    requires next == start + |Decimal(n)| + 1
    ensures PathAt(path, pos) == '[' && IndexAt(path, start, strtod) == n && AfterBracket(path, pos) == next
    ensures next <= |path| && path[next..] == rest && (n == 0 ==> next == pos + 3)
  {
    var digits := Decimal(n);
    IndexParts(path, pos, digits, rest, start, next);
    assert Signed(n) == digits;
    SignedReadsBefore(n, "]" + rest);
    SignedReads(n);
    assert (digits + ("]" + rest))[..|digits|] == digits;
    DecimalDigits(n);
    BracketIs(path, pos, next - 1);
  }

  lemma {:induction false} IndexParts(path: string, pos: nat, digits: string, rest: string, start: nat, next: nat)
    requires pos <= |path| && path[pos..] == "[" + digits + "]" + rest && start == pos + 1
    requires next == start + |digits| + 1
    ensures next <= |path| && path[pos] == '[' && path[start..] == digits + ("]" + rest) && path[next - 1] == ']'
    ensures path[next..] == rest && forall k :: start <= k < next - 1 ==> path[k] == digits[k - start]
  {
    var text, tail := path[pos..], digits + ("]" + rest);
    assert text == "[" + tail;
    assert path[pos] == text[0] && path[start..] == text[1..] == tail;
    assert path[next - 1] == tail[|digits|];
    assert path[next..] == tail[|digits| + 1..];
    assert forall k :: start <= k < next - 1 ==> path[k] == tail[k - start];
  }

  lemma {:induction false} BracketIs(path: string, pos: nat, end: nat)
    requires pos <= end < |path| && path[end] == ']' && forall k :: pos <= k < end ==> path[k] != ']'
    ensures AfterBracket(path, pos) == end + 1
    decreases end - pos
  {
    if pos < end { BracketIs(path, pos + 1, end); }
  }

  // ----- the machine on its way

  /** The machine in front of a value, with this rest of the path. */
  ghost predicate Ready(q: Query, x: Data, rest: string) {
    Searching(x) && x.d1 == x.d2 && x.pos <= |q.path| && q.path[x.pos..] == rest
  }

  ghost predicate Finds(q: Query, y: Data, p: Place) { Located(y, p.0, p.1) && At(q.text, p.1, Spelled(p.0)) }

  /** From c this rest of the path leads to p, whatever happened before. */
  ghost predicate Leads(q: Query, c: Place, rest: string, p: Place) {
    At(q.text, c.1, Spelled(c.0)) && AllInside(q.text, Events(c.0, c.1)) &&
    forall y: Data :: Ready(q, y, rest) ==> Finds(q, Feed(q, y, Events(c.0, c.1)), p)
  }

  /** The elements that are still to come. */
  ghost predicate ItemsAhead(q: Query, es: seq<Element>, blank: string, at: nat) {
    At(q.text, at, ItemsText(es, blank)) && at + |ItemsText(es, blank)| + 1 <= |q.text|
  }

  ghost predicate MembersAhead(q: Query, es: seq<Entry>, blank: string, at: nat) {
    At(q.text, at, MembersText(es, blank)) && at + |MembersText(es, blank)| + 1 <= |q.text|
  }

  // ----- members

  /** A member that is not meant leaves no trace. */
  lemma {:induction false} MissMember(q: Query, x: Data, m: Entry, key: nat, gap: nat, colon: nat, value: nat,
      events: seq<Event>)
    requires x.tok == TOK_INVALID && x.d1 > x.d2 && gap == key + |InQuotes(m.body)| && gap <= colon < value
    requires At(q.text, key, InQuotes(m.body)) && !Hits(q.path, x.pos, m.body) && value + |Spelled(m.value)| <= |q.text|
    requires events == MemberEvent(key, gap, colon, Events(m.value, value))
    ensures AllInside(q.text, events) && Feed(q, x, events) == x
  {
    var name, dots := Event(TOK_KEY, key, gap - key), Event(Tok(':'), colon, 1);
    KeyHits(q, x.pos, key, name, m.body);
    Inert(q, x, m.value, value, value + 1);
    FeedFirst(q, x, dots, Events(m.value, value));
    FeedFirst(q, x, name, [dots] + Events(m.value, value));
  }

  /** The member that is meant. */
  lemma {:induction false} TakeMember(q: Query, x: Data, m: Entry, key: nat, gap: nat, colon: nat, value: nat,
      rest: string, events: seq<Event>, next: nat, p: Place)
    requires Searching(x) && x.d1 == x.d2 + 1 && gap == key + |InQuotes(m.body)| && gap <= colon < value
    requires At(q.text, key, InQuotes(m.body)) && Hits(q.path, x.pos, m.body) && next == x.pos + 1 + |m.body|
    requires next <= |q.path| && q.path[next..] == rest && value <= |q.text| && Leads(q, (m.value, value), rest, p)
    requires events == MemberEvent(key, gap, colon, Events(m.value, value))
    ensures AllInside(q.text, events) && Finds(q, Feed(q, x, events), p)
  {
    var name, dots := Event(TOK_KEY, key, gap - key), Event(Tok(':'), colon, 1);
    var y := x.(d2 := x.d1, pos := next);
    KeyHits(q, x.pos, key, name, m.body);
    UseKey(q, x, m.body, name, x.d1, next);
    assert Ready(q, y, rest);
    FeedFirst(q, y, dots, Events(m.value, value));
    FeedFirst(q, x, name, [dots] + Events(m.value, value));
  }

  lemma {:induction false} NamedFirst(es: seq<Entry>, at: nat, k: string, value: nat, next: nat, c: Place)
    requires NamedMember(es, at, k) == Some(c) && es != []
    requires value == at + |es[0].before| + |InQuotes(es[0].body)| + |es[0].gap| + 1 + |es[0].lead|
    requires next == value + |Spelled(es[0].value)| + |es[0].after| + 1
    ensures if es[0].body == k then c == (es[0].value, value)
            else |es| > 1 && NamedMember(es[1..], next, k) == Some(c)
  {
    if |es| == 1 { assert es[1..] == []; }
  }

  /** A comma while no index is waited for. */
  ghost function CommaPassed(q: Query, x: Data, comma: Event): (y: Data)
    requires Searching(x) && Inside(q.text, comma) && comma.tok == Tok(',') && x.d1 == x.d2 + 1
    ensures y == Callback(q, x, comma) && y == x.(i1 := x.i1 + 1) && Searching(y)
  {
    x.(i1 := x.i1 + 1)
  }

  lemma {:induction false} MembersLead(q: Query, x: Data, es: seq<Entry>, blank: string, at: nat, k: string,
      rest: string, c: Place, p: Place, behind: nat)
    requires Searching(x) && x.d1 == x.d2 + 1 && Plain(k) && PathEnds(rest) && behind == x.pos + 1 + |k|
    requires x.pos <= |q.path| && q.path[x.pos..] == "." + k + rest && MembersAhead(q, es, blank, at)
    requires NamedMember(es, at, k) == Some(c) && Leads(q, c, rest, p)
    ensures AllInside(q.text, MemberEvents(es, blank, at)) && Finds(q, Feed(q, x, MemberEvents(es, blank, at)), p)
    decreases |es|
  {
    MembersInside(q.text, es, blank, at);
    var key, gap, colon, value, e, sep, next, first := MembersSplit(es, blank, at);
    NamedFirst(es, at, k, value, next, c);
    MemberPlaced(q.text, es, at, key, value, sep, next);
    NextKey(q.path, x.pos, k, rest, es[0].body, behind);
    if es[0].body == k {
      TakeMember(q, x, es[0], key, gap, colon, value, rest, first, behind, p);
      FeedStarts(q, x, first, MemberEvents(es, blank, at), p);
    } else {
      var comma := Event(Tok(','), sep, 1);
      var y := CommaPassed(q, x, comma);
      MissMember(q, x, es[0], key, gap, colon, value, first);
      MembersLead(q, y, es[1..], blank, next, k, rest, c, p, behind);
      FeedPasses(q, x, first, comma, y, MemberEvents(es[1..], blank, next), p);
    }
  }

  /** What is found in the first events is found in all of them. */
  lemma {:induction false} FeedStarts(q: Query, x: Data, first: seq<Event>, all: seq<Event>, p: Place)
    requires AllInside(q.text, all) && first <= all && AllInside(q.text, first) && Finds(q, Feed(q, x, first), p)
    ensures Finds(q, Feed(q, x, all), p)
  {
    FoundStays(q, x, first, all);
  }

  /** What is found behind elements that leave no trace. */
  lemma {:induction false} FeedPasses(q: Query, x: Data, first: seq<Event>, comma: Event, y: Data, rest: seq<Event>,
      p: Place)
    requires AllInside(q.text, first) && Feed(q, x, first) == x && Inside(q.text, comma) && y == Callback(q, x, comma)
    requires AllInside(q.text, rest) && Finds(q, Feed(q, y, rest), p)
    ensures AllInside(q.text, (first + [comma]) + rest) && Finds(q, Feed(q, x, (first + [comma]) + rest), p)
  {
    FeedMore(q, x, first, x, comma, rest);
  }

  /** What is found behind an opening bracket. */
  lemma {:induction false} FeedOpens(q: Query, x: Data, e: Event, y: Data, rest: seq<Event>, p: Place)
    requires Inside(q.text, e) && Callback(q, x, e) == y && AllInside(q.text, rest) && Finds(q, Feed(q, y, rest), p)
    ensures AllInside(q.text, [e] + rest) && Finds(q, Feed(q, x, [e] + rest), p)
  {
    FeedFirst(q, x, e, rest);
  }

  lemma {:induction false} OpenBrace(q: Query, x: Data, y: Data, at: nat)
    requires Searching(x) && y == x.(d1 := x.d1 + 1) && PathAt(q.path, x.pos) != NUL && at < |q.text|
    ensures Inside(q.text, Event(Tok('{'), at, 1)) && Callback(q, x, Event(Tok('{'), at, 1)) == y
  {
  }

  lemma {:induction false} ObjectLeads(q: Query, x: Data, members: seq<Entry>, blank: string, at: nat, inside: nat,
      k: string, rest: string, c: Place, p: Place)
    requires Ready(q, x, "." + k + rest) && Plain(k) && PathEnds(rest) && inside == at + 1
    requires MembersAhead(q, members, blank, inside) && NamedMember(members, inside, k) == Some(c)
    requires Leads(q, c, rest, p)
    ensures AllInside(q.text, Events(Obj(members, blank), at))
    ensures Finds(q, Feed(q, x, Events(Obj(members, blank), at)), p)
  {
    var y, next := x.(d1 := x.d1 + 1), x.pos + 1 + |k|;
    NextKey(q.path, x.pos, k, rest, "", next);
    MembersLead(q, y, members, blank, inside, k, rest, c, p, next);
    ObjectIs(members, blank, at, inside);
    OpenBrace(q, x, y, at);
    FeedOpens(q, x, Event(Tok('{'), at, 1), y, MemberEvents(members, blank, inside), p);
  }

  // ----- elements

  /** Behind the next closing bracket of the path stands this rest. */
  ghost predicate IndexAhead(q: Query, pos: nat, behind: nat, rest: string) {
    AfterBracket(q.path, pos) == behind <= |q.path| && q.path[behind..] == rest
  }

  /** An opening bracket where the path goes on with an index: element 0 is next, or the commas
      are counted from now on. */
  lemma {:induction false} OpenIndex(q: Query, x: Data, n: nat, rest: string, open: Event)
    returns (y: Data, behind: nat)
    requires Ready(q, x, "[" + Decimal(n) + "]" + rest) && Inside(q.text, open) && open.tok == Tok('[')
    ensures y == Callback(q, x, open) && IndexAhead(q, x.pos, behind, rest)
    ensures y == if n == 0 then x.(i1 := 0, i2 := 0, d2 := x.d2 + 1, pos := behind, d1 := x.d1 + 1)
                 else x.(i1 := 0, i2 := n, d1 := x.d1 + 1)
  {
    behind := x.pos + 1 + |Decimal(n)| + 1;
    IndexIs(q.path, x.pos, n, rest, q.strtod, x.pos + 1, behind);
    y := Callback(q, x, open);
  }

  /** A comma while an index is waited for. */
  lemma {:induction false} CommaCounts(q: Query, x: Data, comma: Event, next: nat) returns (y: Data)
    requires x.tok == TOK_INVALID && x.d1 == x.d2 + 1 && Inside(q.text, comma) && comma.tok == Tok(',')
    requires AfterBracket(q.path, x.pos) == next
    ensures y == Callback(q, x, comma)
    ensures y == if x.i1 + 1 == x.i2 then x.(i1 := x.i1 + 1, pos := next, d2 := x.d2 + 1) else x.(i1 := x.i1 + 1)
  {
    y := Callback(q, x, comma);
  }

  lemma {:induction false} NthFirst(es: seq<Element>, at: nat, i: nat, less: nat, next: nat, c: Place)
    requires NthItem(es, at, i) == Some(c) && i == less + 1 && es != []
    requires next == at + |es[0].before| + |Spelled(es[0].value)| + |es[0].after| + 1
    ensures |es| > 1 && NthItem(es[1..], next, less) == Some(c)
  {
    assert NthItem(es, at, i) == NthItem(es[1..], next, less);
  }

  /** One element and its comma are passed. */
  lemma {:induction false} PassItem(q: Query, x: Data, es: seq<Element>, blank: string, at: nat, i: nat, less: nat,
      c: Place, behind: nat)
    returns (next: nat, y: Data, first: seq<Event>, comma: Event, others: seq<Element>)
    requires x.tok == TOK_INVALID && x.d1 == x.d2 + 1 && AfterBracket(q.path, x.pos) == behind
    requires es != [] && i == less + 1 && ItemsAhead(q, es, blank, at) && NthItem(es, at, i) == Some(c)
    ensures AllInside(q.text, first) && Feed(q, x, first) == x && Inside(q.text, comma) && y == Callback(q, x, comma)
    ensures y == if x.i1 + 1 == x.i2 then x.(i1 := x.i1 + 1, pos := behind, d2 := x.d2 + 1) else x.(i1 := x.i1 + 1)
    ensures |others| == |es| - 1 && ItemsAhead(q, others, blank, next) && NthItem(others, next, less) == Some(c)
    ensures ItemEvents(es, blank, at) == (first + [comma]) + ItemEvents(others, blank, next)
  {
    var r, e, sep;
    r, e, sep, next := ItemsSplit(es, blank, at);
    NthFirst(es, at, i, less, next, c);
    ItemPlaced(q.text, es, at, r, e, sep, next);
    Inert(q, x, es[0].value, r, r + 1);
    first, comma, others := Events(es[0].value, r), Event(Tok(','), sep, 1), es[1..];
    y := CommaCounts(q, x, comma, behind);
  }

  /** The machine with i elements still to be passed. */
  ghost predicate Waiting(q: Query, x: Data, i: nat, rest: string, behind: nat) {
    x.tok == TOK_INVALID && 0 <= x.i1 && x.i1 + i == x.i2 &&
    if i == 0 then Ready(q, x, rest) else x.d1 == x.d2 + 1 && IndexAhead(q, x.pos, behind, rest)
  }

  lemma {:induction false} StillWaiting(q: Query, x: Data, y: Data, i: nat, less: nat, rest: string, behind: nat)
    requires Waiting(q, x, i, rest, behind) && i == less + 1
    requires y == if x.i1 + 1 == x.i2 then x.(i1 := x.i1 + 1, pos := behind, d2 := x.d2 + 1) else x.(i1 := x.i1 + 1)
    ensures Waiting(q, y, less, rest, behind)
  {
  }

  lemma {:induction false} ItemsLead(q: Query, x: Data, es: seq<Element>, blank: string, at: nat, i: nat, rest: string,
      c: Place, p: Place, behind: nat)
    requires Waiting(q, x, i, rest, behind)
    requires ItemsAhead(q, es, blank, at) && NthItem(es, at, i) == Some(c) && Leads(q, c, rest, p)
    ensures AllInside(q.text, ItemEvents(es, blank, at)) && Finds(q, Feed(q, x, ItemEvents(es, blank, at)), p)
    decreases |es|
  {
    if i == 0 {
      HeadLeads(q, x, es, blank, at, rest, c, p);
    } else {
      var less := i - 1;
      var next, y, first, comma, others := PassItem(q, x, es, blank, at, i, less, c, behind);
      StillWaiting(q, x, y, i, less, rest, behind);
      ItemsLead(q, y, others, blank, next, less, rest, c, p, behind);
      FeedPasses(q, x, first, comma, y, ItemEvents(others, blank, next), p);
    }
  }

  /** The element that is meant is the next one. */
  lemma {:induction false} HeadLeads(q: Query, x: Data, es: seq<Element>, blank: string, at: nat, rest: string,
      c: Place, p: Place)
    requires Ready(q, x, rest) && ItemsAhead(q, es, blank, at) && NthItem(es, at, 0) == Some(c) && Leads(q, c, rest, p)
    ensures AllInside(q.text, ItemEvents(es, blank, at)) && Finds(q, Feed(q, x, ItemEvents(es, blank, at)), p)
  {
    ItemsInside(q.text, es, blank, at);
    var r, e, sep, next := ItemsSplit(es, blank, at);
    assert c == (es[0].value, r);
    FeedStarts(q, x, Events(c.0, c.1), ItemEvents(es, blank, at), p);
  }

  lemma {:induction false} ArrayLeads(q: Query, x: Data, items: seq<Element>, blank: string, at: nat, inside: nat,
      n: nat, rest: string, c: Place, p: Place)
    requires Ready(q, x, "[" + Decimal(n) + "]" + rest) && inside == at + 1
    requires ItemsAhead(q, items, blank, inside) && NthItem(items, inside, n) == Some(c) && Leads(q, c, rest, p)
    ensures AllInside(q.text, Events(Arr(items, blank), at))
    ensures Finds(q, Feed(q, x, Events(Arr(items, blank), at)), p)
  {
    var open := Event(Tok('['), at, 1);
    var y, behind := OpenIndex(q, x, n, rest, open);
    ItemsLead(q, y, items, blank, inside, n, rest, c, p, behind);
    ArrayIs(items, blank, at, inside);
    FeedOpens(q, x, open, y, ItemEvents(items, blank, inside), p);
  }

  // ----- whole paths

  /** Where a child stands. */
  lemma {:induction false} NthPlaced(text: string, es: seq<Element>, at: nat, n: nat, c: Place)
    requires ItemsScan(es) && NthItem(es, at, n) == Some(c) && At(text, at, SpelledItems(es))
    ensures Scans(c.0) && At(text, c.1, Spelled(c.0))
    decreases |es|
  {
    var q := at + |es[0].before|;
    var e := q + |Spelled(es[0].value)|;
    var sep := e + |es[0].after|;
    ItemPlaced(text, es, at, q, e, sep, sep + 1);
    if n > 0 {
      NthFirst(es, at, n, n - 1, sep + 1, c);
      NthPlaced(text, es[1..], sep + 1, n - 1, c);
    }
  }

  lemma {:induction false} NamedPlaced(text: string, es: seq<Entry>, at: nat, k: string, c: Place)
    requires MembersScan(es) && NamedMember(es, at, k) == Some(c) && At(text, at, SpelledMembers(es))
    ensures Scans(c.0) && At(text, c.1, Spelled(c.0))
    decreases |es|
  {
    var value, next := MemberEnds(es, at);
    NamedFirst(es, at, k, value, next, c);
    MemberPlaced(text, es, at, at + |es[0].before|, value, next - 1, next);
    if es[0].body != k { NamedPlaced(text, es[1..], next, k, c); }
  }

  lemma {:induction false} Arrives(q: Query, s: Syntax, at: nat, inside: nat, steps: seq<Step>, p: Place)
    requires PlainSteps(steps) && Scans(s) && At(q.text, at, Spelled(s)) && Walk(s, at, steps) == Some(p)
    requires inside == at + 1
    ensures Leads(q, (s, at), PathText(steps), p)
    decreases |steps|
  {
    EventsInside(q.text, s, at, inside);
    if steps == [] {
      forall y: Data | Ready(q, y, [])
        ensures Finds(q, Feed(q, y, Events(s, at)), p)
      {
        FoundHere(q, y, s, at, inside);
      }
    } else {
      var c, rest := Child(s, at, steps[0]).value, PathText(steps[1..]);
      PathStarts(steps[1..]);
      if s.Arr? { ArrayStep(q, s, at, inside, steps, c, rest, p); }
        else { ObjectStep(q, s, at, inside, steps, c, rest, p); }
    }
  }

  lemma {:induction false} ArrayStep(q: Query, s: Syntax, at: nat, inside: nat, steps: seq<Step>, c: Place,
      rest: string, p: Place)
    requires PlainSteps(steps) && Scans(s) && At(q.text, at, Spelled(s)) && inside == at + 1
    requires AllInside(q.text, Events(s, at))
    requires s.Arr? && steps != [] && Child(s, at, steps[0]) == Some(c) && Walk(c.0, c.1, steps[1..]) == Some(p)
    requires rest == PathText(steps[1..])
    ensures forall y: Data :: Ready(q, y, PathText(steps)) ==> Finds(q, Feed(q, y, Events(s, at)), p)
    decreases |steps|, 0
  {
    ArrayPlaced(q.text, s.items, s.blank, at, inside);
    NthPlaced(q.text, s.items, inside, steps[0].index, c);
    Arrives(q, c.0, c.1, c.1 + 1, steps[1..], p);
    forall y: Data | Ready(q, y, PathText(steps))
      ensures Finds(q, Feed(q, y, Events(s, at)), p)
    {
      ArrayLeads(q, y, s.items, s.blank, at, inside, steps[0].index, rest, c, p);
    }
  }

  lemma {:induction false} ObjectStep(q: Query, s: Syntax, at: nat, inside: nat, steps: seq<Step>, c: Place,
      rest: string, p: Place)
    requires PlainSteps(steps) && Scans(s) && At(q.text, at, Spelled(s)) && inside == at + 1
    requires AllInside(q.text, Events(s, at))
    requires s.Obj? && steps != [] && Child(s, at, steps[0]) == Some(c) && Walk(c.0, c.1, steps[1..]) == Some(p)
    requires rest == PathText(steps[1..]) && PathEnds(rest)
    ensures forall y: Data :: Ready(q, y, PathText(steps)) ==> Finds(q, Feed(q, y, Events(s, at)), p)
    decreases |steps|, 0
  {
    ObjectPlaced(q.text, s.members, s.blank, at, inside);
    NamedPlaced(q.text, s.members, inside, steps[0].key, c);
    Arrives(q, c.0, c.1, c.1 + 1, steps[1..], p);
    forall y: Data | Ready(q, y, PathText(steps))
      ensures Finds(q, Feed(q, y, Events(s, at)), p)
    {
      ObjectLeads(q, y, s.members, s.blank, at, inside, steps[0].key, rest, c, p);
    }
  }

  /** A path of keys and indices that leads to a node finds that very node. */
  lemma {:induction false} FindResolves(before: string, s: Syntax, rest: string, steps: seq<Step>,
      strtod: string -> int)
    requires Readable(before, s, rest) && PlainSteps(steps) && Walk(s, |before|, steps).Some?
    ensures var text := before + Spelled(s) + rest;
            var p := Walk(s, |before|, steps).value;
            Spans(Find(text, "$" + PathText(steps), strtod), text, p.0, p.1)
  {
    var text, path, at := before + Spelled(s) + rest, "$" + PathText(steps), |before|;
    var q := Query(path, text, strtod);
    assert path[1..] == PathText(steps);
    AtMiddle(before, Spelled(s), rest);
    ScanText(before, s, rest);
    Arrives(q, s, at, at + 1, steps, Walk(s, at, steps).value);
    assert Ready(q, INITIAL, PathText(steps));
  }
}
