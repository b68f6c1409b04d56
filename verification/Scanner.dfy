/** The streaming scanner mjson. */
module Scanner {
  // A four-state automaton with an explicit stack, and the recursive grammar it implements.

  import opened Json
  import opened Numbers
  import opened Text

  const INVALID_INPUT: int := -1
  const TOO_DEEP: int := -2
  const MAX_DEPTH: nat := 20

  const TOK_KEY: int := 1
  const TOK_STRING: int := 11
  const TOK_NUMBER: int := 12
  const TOK_TRUE: int := 13
  const TOK_FALSE: int := 14
  const TOK_NULL: int := 15

  /** One call of the callback. */
  datatype Event = Event(tok: int, off: nat, len: nat)

  /** What mjson returns, and the callbacks it makes on the way. */
  datatype Scan = Scan(code: int, events: seq<Event>)

  function After(events: seq<Event>, s: Scan): Scan { Scan(s.code, events + s.events) }

  // ----- strings

  /** mjson_esc(c, 1) is not 0: c is a char that has a short escape. */
  predicate Escapes(c: char) {
    c == '\U{0008}' || c == '\U{000C}' || c == '\n' || c == '\r' || c == '\t' || c == '\\' || c == '"' || c == '/'
  }

  /** mjson_pass_string from i: the position of the closing quote. */
  function PassString(s: string, i: nat): (r: Option<nat>)
    requires i <= |s|
    ensures r.Some? ==> i <= r.value < |s| && s[r.value] == '"'
    decreases |s| - i
  {
    if i == |s| then None
    else if s[i] == '\\' && i + 1 < |s| && Escapes(s[i + 1]) then PassString(s, i + 2)
    else if s[i] == NUL then None
    else if s[i] == '"' then Some(i)
    else PassString(s, i + 1)
  }

  method PassStringLoop(s: string, start: nat) returns (n: int)
    requires start <= |s|
    ensures match PassString(s, start)
            case None => n == INVALID_INPUT
            case Some(e) => n == e - start
  {
    var i := start;
    while i < |s|
      invariant start <= i <= |s| && PassString(s, i) == PassString(s, start)
      decreases |s| - i
    {
      if s[i] == '\\' && i + 1 < |s| && Escapes(s[i + 1]) {
        i := i + 1;
      } else if s[i] == NUL {
        return INVALID_INPUT;
      } else if s[i] == '"' {
        return i - start;
      }
      i := i + 1;
    }
    return INVALID_INPUT;
  }

  // ----- scalars

  /** A value without children that starts at i: its token and where the next char is, or
      nothing. strtod may read nothing of a lone sign. */
  function Scalar(s: string, i: nat): (r: Option<(int, nat)>)
    requires i < |s|
    ensures r.Some? ==> i <= r.value.1 <= |s| && r.value.0 > 10
    ensures r.Some? && !IsDigit(s[i]) && s[i] != '-' ==> i < r.value.1
  {
    if At(s, i, "true") then Some((TOK_TRUE, i + 4))
    else if At(s, i, "null") then Some((TOK_NULL, i + 4))
    else if At(s, i, "false") then Some((TOK_FALSE, i + 5))
    else if s[i] == '-' || IsDigit(s[i]) then Some((TOK_NUMBER, i + NumeralEnd(s[i..])))
    else if s[i] == '"' then
      match PassString(s, i + 1)
      case None => None
      case Some(e) => Some((TOK_STRING, e + 1))
    else None
  }

  // ----- the automaton

  datatype Expecting = Value | Key | Colon | CommaOrEnd

  function Tok(c: char): int { c as int }

  /** The closing bracket or brace that belongs to an opening one. */
  function Closer(c: char): char { if c == '[' then ']' else '}' }

  ghost predicate IsStack(nesting: seq<char>) {
    |nesting| <= MAX_DEPTH && forall k :: 0 <= k < |nesting| ==> nesting[k] == '[' || nesting[k] == '{'
  }

  /** The run of the automaton from position i on. */
  ghost function Run(s: string, i: nat, expecting: Expecting, nesting: seq<char>): Scan
    requires i <= |s| && IsStack(nesting)
    decreases |s| - i, if expecting.Value? then 2 else 1
  {
    if i == |s| then Scan(INVALID_INPUT, [])
    else if IsBlank(s[i]) then Run(s, i + 1, expecting, nesting)
    else
      match expecting
      case Value =>
        if s[i] == '{' || s[i] == '[' then
          if |nesting| >= MAX_DEPTH then Scan(TOO_DEEP, [])
          else After([Event(Tok(s[i]), i, 1)], Run(s, i + 1, if s[i] == '{' then Key else Value, nesting + [s[i]]))
        else if s[i] == ']' && nesting != [] then RunClose(s, i, nesting)
        else
          (match Scalar(s, i)
           case None => Scan(INVALID_INPUT, [])
           case Some((tok, e)) =>
             After([Event(tok, i, e - i)], if nesting == [] then Scan(e, []) else Run(s, e, CommaOrEnd, nesting)))
      case Key =>
        if s[i] == '"' then
          (match PassString(s, i + 1)
           case None => Scan(INVALID_INPUT, [])
           case Some(e) => After([Event(TOK_KEY, i, e + 1 - i)], Run(s, e + 1, Colon, nesting)))
        else if s[i] == '}' && nesting != [] then RunClose(s, i, nesting)
        else Scan(INVALID_INPUT, [])
      case Colon =>
        if s[i] == ':' then After([Event(Tok(':'), i, 1)], Run(s, i + 1, Value, nesting))
        else Scan(INVALID_INPUT, [])
      case CommaOrEnd =>
        if nesting == [] then Scan(INVALID_INPUT, [])
        else if s[i] == ',' then
          After([Event(Tok(','), i, 1)], Run(s, i + 1, if nesting[|nesting| - 1] == '{' then Key else Value, nesting))
        else if s[i] == ']' || s[i] == '}' then RunClose(s, i, nesting)
        else Scan(INVALID_INPUT, [])
  }

  /** The end of the innermost container. */
  ghost function RunClose(s: string, i: nat, nesting: seq<char>): Scan
    requires i < |s| && IsStack(nesting) && nesting != []
    decreases |s| - i, 0
  {
    var rest := nesting[..|nesting| - 1];
    if s[i] != Closer(nesting[|nesting| - 1]) then Scan(INVALID_INPUT, [])
    else After([Event(Tok(s[i]), i, 1)], if rest == [] then Scan(i + 1, []) else Run(s, i + 1, CommaOrEnd, rest))
  }

  // ----- the grammar

  /** A phrase of the grammar read from a position on: where it ends, or the error. */
  datatype Read = Bad(code: int, events: seq<Event>) | Good(end: nat, events: seq<Event>)

  function Precede(events: seq<Event>, r: Read): Read {
    match r
    case Bad(code, more) => Bad(code, events + more)
    case Good(end, more) => Good(end, events + more)
  }

  /** value = object | array | scalar */
  function ReadValue(s: string, i: nat, depth: nat): (r: Read)
    requires i <= |s|
    ensures if r.Good? then i <= r.end <= |s| else r.code < 0
    decreases |s| - i, 1
  {
    if i == |s| then Bad(INVALID_INPUT, [])
    else if IsBlank(s[i]) then ReadValue(s, i + 1, depth)
    else if s[i] == '{' then
      if depth >= MAX_DEPTH then Bad(TOO_DEEP, [])
      else Precede([Event(Tok('{'), i, 1)], ReadMembers(s, i + 1, depth + 1))
    else if s[i] == '[' then
      if depth >= MAX_DEPTH then Bad(TOO_DEEP, [])
      else Precede([Event(Tok('['), i, 1)], ReadElements(s, i + 1, depth + 1))
    else
      match Scalar(s, i)
      case None => Bad(INVALID_INPUT, [])
      case Some((tok, e)) => Good(e, [Event(tok, i, e - i)])
  }

  /** elements = "]" | value ( "]" | "," elements ) */
  function ReadElements(s: string, i: nat, depth: nat): (r: Read)
    requires i <= |s|
    ensures if r.Good? then i < r.end <= |s| else r.code < 0
    decreases |s| - i, 3
  {
    if i == |s| then Bad(INVALID_INPUT, [])
    else if IsBlank(s[i]) then ReadElements(s, i + 1, depth)
    else if s[i] == ']' then Good(i + 1, [Event(Tok(']'), i, 1)])
    else
      match ReadValue(s, i, depth)
      case Bad(code, events) => Bad(code, events)
      case Good(e, events) => Precede(events, ReadElementsEnd(s, e, depth))
  }

  function ReadElementsEnd(s: string, i: nat, depth: nat): (r: Read)
    requires i <= |s|
    ensures if r.Good? then i < r.end <= |s| else r.code < 0
    decreases |s| - i, 2
  {
    if i == |s| then Bad(INVALID_INPUT, [])
    else if IsBlank(s[i]) then ReadElementsEnd(s, i + 1, depth)
    else if s[i] == ']' then Good(i + 1, [Event(Tok(']'), i, 1)])
    else if s[i] == ',' then Precede([Event(Tok(','), i, 1)], ReadElements(s, i + 1, depth))
    else Bad(INVALID_INPUT, [])
  }

  /** members = "}" | key ":" value ( "}" | "," members ) */
  function ReadMembers(s: string, i: nat, depth: nat): (r: Read)
    requires i <= |s|
    ensures if r.Good? then i < r.end <= |s| else r.code < 0
    decreases |s| - i, 3
  {
    if i == |s| then Bad(INVALID_INPUT, [])
    else if IsBlank(s[i]) then ReadMembers(s, i + 1, depth)
    else if s[i] == '}' then Good(i + 1, [Event(Tok('}'), i, 1)])
    else if s[i] != '"' then Bad(INVALID_INPUT, [])
    else
      match PassString(s, i + 1)
      case None => Bad(INVALID_INPUT, [])
      case Some(e) => Precede([Event(TOK_KEY, i, e + 1 - i)], ReadColon(s, e + 1, depth))
  }

  function ReadColon(s: string, i: nat, depth: nat): (r: Read)
    requires i <= |s|
    ensures if r.Good? then i < r.end <= |s| else r.code < 0
    decreases |s| - i, 2
  {
    if i == |s| then Bad(INVALID_INPUT, [])
    else if IsBlank(s[i]) then ReadColon(s, i + 1, depth)
    else if s[i] != ':' then Bad(INVALID_INPUT, [])
    else
      match ReadValue(s, i + 1, depth)
      case Bad(code, events) => Bad(code, [Event(Tok(':'), i, 1)] + events)
      case Good(e, events) => Precede([Event(Tok(':'), i, 1)] + events, ReadMembersEnd(s, e, depth))
  }

  function ReadMembersEnd(s: string, i: nat, depth: nat): (r: Read)
    requires i <= |s|
    ensures if r.Good? then i < r.end <= |s| else r.code < 0
    decreases |s| - i, 2
  {
    if i == |s| then Bad(INVALID_INPUT, [])
    else if IsBlank(s[i]) then ReadMembersEnd(s, i + 1, depth)
    else if s[i] == '}' then Good(i + 1, [Event(Tok('}'), i, 1)])
    else if s[i] == ',' then Precede([Event(Tok(','), i, 1)], ReadMembers(s, i + 1, depth))
    else Bad(INVALID_INPUT, [])
  }

  // ----- the automaton recognises the grammar

  /** The run of the automaton once a phrase inside the containers on the stack is read. */
  ghost function Then(s: string, r: Read, nesting: seq<char>): Scan
    requires IsStack(nesting) && (r.Good? ==> r.end <= |s|)
  {
    match r
    case Bad(code, events) => Scan(code, events)
    case Good(e, events) => After(events, if nesting == [] then Scan(e, []) else Run(s, e, CommaOrEnd, nesting))
  }

  lemma {:induction false} ThenPrecede(s: string, events: seq<Event>, r: Read, nesting: seq<char>)
    requires IsStack(nesting) && (r.Good? ==> r.end <= |s|)
    ensures Then(s, Precede(events, r), nesting) == After(events, Then(s, r, nesting))
  {
    if r.Good? {
      Regroup(events, r.events, if nesting == [] then [] else Run(s, r.end, CommaOrEnd, nesting).events);
    }
  }

  /** The innermost container is popped where the grammar sees its end. */
  lemma {:induction false} PopEnds(s: string, i: nat, nesting: seq<char>, c: char)
    requires i < |s| && IsStack(nesting) && IsStack(nesting + [c]) && s[i] == Closer(c)
    ensures RunClose(s, i, nesting + [c]) == Then(s, Good(i + 1, [Event(Tok(s[i]), i, 1)]), nesting)
  {
    assert (nesting + [c])[..|nesting|] == nesting;
  }

  lemma {:induction false} RunValue(s: string, i: nat, nesting: seq<char>)
    requires i <= |s| && IsStack(nesting)
    requires nesting != [] && nesting[|nesting| - 1] == '[' ==> i < |s| && !IsBlank(s[i]) && s[i] != ']'
    ensures Run(s, i, Value, nesting) == Then(s, ReadValue(s, i, |nesting|), nesting)
    decreases |s| - i, 1
  {
    if i < |s| {
      if IsBlank(s[i]) {
        RunValue(s, i + 1, nesting);
      } else if s[i] == '{' && |nesting| < MAX_DEPTH {
        RunMembers(s, i + 1, nesting, nesting + ['{']);
        ThenPrecede(s, [Event(Tok('{'), i, 1)], ReadMembers(s, i + 1, |nesting| + 1), nesting);
      } else if s[i] == '[' && |nesting| < MAX_DEPTH {
        RunElements(s, i + 1, nesting, nesting + ['[']);
        ThenPrecede(s, [Event(Tok('['), i, 1)], ReadElements(s, i + 1, |nesting| + 1), nesting);
      }
    }
  }

  lemma {:induction false} RunElements(s: string, i: nat, nesting: seq<char>, inner: seq<char>)
    requires i <= |s| && inner == nesting + ['['] && IsStack(nesting) && IsStack(inner)
    ensures Run(s, i, Value, inner) == Then(s, ReadElements(s, i, |inner|), nesting)
    decreases |s| - i, 3
  {
    assert inner[|inner| - 1] == '[';
    if i < |s| {
      if IsBlank(s[i]) {
        RunElements(s, i + 1, nesting, inner);
      } else if s[i] == ']' {
        PopEnds(s, i, nesting, '[');
      } else {
        RunValue(s, i, inner);
        var r := ReadValue(s, i, |inner|);
        if r.Good? {
          RunElementsEnd(s, r.end, nesting, inner);
          ThenPrecede(s, r.events, ReadElementsEnd(s, r.end, |inner|), nesting);
        }
      }
    }
  }

  lemma {:induction false} RunElementsEnd(s: string, i: nat, nesting: seq<char>, inner: seq<char>)
    requires i <= |s| && inner == nesting + ['['] && IsStack(nesting) && IsStack(inner)
    ensures Run(s, i, CommaOrEnd, inner) == Then(s, ReadElementsEnd(s, i, |inner|), nesting)
    decreases |s| - i, 2
  {
    assert inner[|inner| - 1] == '[';
    if i < |s| {
      if IsBlank(s[i]) {
        RunElementsEnd(s, i + 1, nesting, inner);
      } else if s[i] == ']' {
        PopEnds(s, i, nesting, '[');
      } else if s[i] == ',' {
        RunElements(s, i + 1, nesting, inner);
        ThenPrecede(s, [Event(Tok(','), i, 1)], ReadElements(s, i + 1, |inner|), nesting);
      }
    }
  }

  lemma {:induction false} RunMembers(s: string, i: nat, nesting: seq<char>, inner: seq<char>)
    requires i <= |s| && inner == nesting + ['{'] && IsStack(nesting) && IsStack(inner)
    ensures Run(s, i, Key, inner) == Then(s, ReadMembers(s, i, |inner|), nesting)
    decreases |s| - i, 3
  {
    if i < |s| {
      if IsBlank(s[i]) {
        RunMembers(s, i + 1, nesting, inner);
      } else if s[i] == '}' {
        PopEnds(s, i, nesting, '{');
      } else if s[i] == '"' && PassString(s, i + 1).Some? {
        var e := PassString(s, i + 1).value;
        RunColon(s, e + 1, nesting, inner);
        ThenPrecede(s, [Event(TOK_KEY, i, e + 1 - i)], ReadColon(s, e + 1, |inner|), nesting);
      }
    }
  }

  lemma {:induction false} RunColon(s: string, i: nat, nesting: seq<char>, inner: seq<char>)
    requires i <= |s| && inner == nesting + ['{'] && IsStack(nesting) && IsStack(inner)
    ensures Run(s, i, Colon, inner) == Then(s, ReadColon(s, i, |inner|), nesting)
    decreases |s| - i, 2
  {
    if i < |s| {
      if IsBlank(s[i]) {
        RunColon(s, i + 1, nesting, inner);
      } else if s[i] == ':' {
        var colon := [Event(Tok(':'), i, 1)];
        var r := ReadValue(s, i + 1, |inner|);
        RunValue(s, i + 1, inner);
        if r.Good? {
          RunMembersEnd(s, r.end, nesting, inner);
          ThenPrecede(s, colon + r.events, ReadMembersEnd(s, r.end, |inner|), nesting);
          Regroup(colon, r.events, Run(s, r.end, CommaOrEnd, inner).events);
        }
      }
    }
  }

  lemma {:induction false} RunMembersEnd(s: string, i: nat, nesting: seq<char>, inner: seq<char>)
    requires i <= |s| && inner == nesting + ['{'] && IsStack(nesting) && IsStack(inner)
    ensures Run(s, i, CommaOrEnd, inner) == Then(s, ReadMembersEnd(s, i, |inner|), nesting)
    decreases |s| - i, 2
  {
    assert inner[|inner| - 1] == '{';
    if i < |s| {
      if IsBlank(s[i]) {
        RunMembersEnd(s, i + 1, nesting, inner);
      } else if s[i] == '}' {
        PopEnds(s, i, nesting, '{');
      } else if s[i] == ',' {
        RunMembers(s, i + 1, nesting, inner);
        ThenPrecede(s, [Event(Tok(','), i, 1)], ReadMembers(s, i + 1, |inner|), nesting);
      }
    }
  }

  /** The automaton accepts exactly the texts of the grammar, with the same events, and
      reports the same errors. */
  lemma {:induction false} AutomatonIsGrammar(s: string)
    ensures var r := ReadValue(s, 0, 0);
            Run(s, 0, Value, []) == if r.Good? then Scan(r.end, r.events) else Scan(r.code, r.events)
  {
    RunValue(s, 0, []);
    var r := ReadValue(s, 0, 0);
    if r.Good? { assert r.events + [] == r.events; }
  }


  // ----- the loop

  /** What is still to come, and what the loop has seen, make up the whole run. */
  ghost predicate OnTheWay(s: string, i: nat, expecting: Expecting, nesting: seq<char>, events: seq<Event>,
      whole: Scan) {
    i <= |s| && IsStack(nesting) && After(events, Run(s, i, expecting, nesting)) == whole
  }

  lemma {:induction false} Step(before: seq<Event>, e: Event, rest: Scan, whole: Scan)
    requires After(before, After([e], rest)) == whole
    ensures After(before + [e], rest) == whole
  {
    Regroup(before, [e], rest.events);
  }

  lemma {:induction false} LastStep(before: seq<Event>, e: Event, code: int, whole: Scan)
    requires After(before, After([e], Scan(code, []))) == whole
    ensures Scan(code, before + [e]) == whole
  {
    Step(before, e, Scan(code, []), whole);
    assert before + [e] + [] == before + [e];
  }

  lemma {:induction false} StepBlank(s: string, i: nat, expecting: Expecting, nesting: seq<char>, before: seq<Event>,
      whole: Scan)
    requires i < |s| && IsBlank(s[i]) && OnTheWay(s, i, expecting, nesting, before, whole)
    ensures OnTheWay(s, i + 1, expecting, nesting, before, whole)
  {
  }

  lemma {:induction false} StepOpen(s: string, i: nat, c: char, nesting: seq<char>, before: seq<Event>, whole: Scan)
    requires i < |s| && c == s[i] && (c == '{' || c == '[') && OnTheWay(s, i, Value, nesting, before, whole)
    ensures if |nesting| >= MAX_DEPTH then Scan(TOO_DEEP, before) == whole
            else OnTheWay(s, i + 1, if c == '{' then Key else Value, nesting + [c], before + [Event(Tok(c), i, 1)],
                          whole)
  {
    if |nesting| >= MAX_DEPTH {
      assert before + [] == before;
    } else {
      Step(before, Event(Tok(c), i, 1), Run(s, i + 1, if c == '{' then Key else Value, nesting + [c]), whole);
    }
  }

  lemma {:induction false} StepScalar(s: string, i: nat, tok: int, e: nat, nesting: seq<char>, before: seq<Event>,
      whole: Scan)
    requires i < |s| && !IsBlank(s[i]) && s[i] != '{' && s[i] != '[' && (s[i] == ']' ==> nesting == [])
    requires Scalar(s, i) == Some((tok, e)) && OnTheWay(s, i, Value, nesting, before, whole)
    ensures if nesting == [] then Scan(e, before + [Event(tok, i, e - i)]) == whole
            else OnTheWay(s, e, CommaOrEnd, nesting, before + [Event(tok, i, e - i)], whole)
  {
    if nesting == [] {
      LastStep(before, Event(tok, i, e - i), e, whole);
    } else {
      Step(before, Event(tok, i, e - i), Run(s, e, CommaOrEnd, nesting), whole);
    }
  }

  lemma {:induction false} StepKey(s: string, i: nat, e: nat, nesting: seq<char>, before: seq<Event>, whole: Scan)
    requires i < |s| && s[i] == '"' && PassString(s, i + 1) == Some(e) && OnTheWay(s, i, Key, nesting, before, whole)
    ensures OnTheWay(s, e + 1, Colon, nesting, before + [Event(TOK_KEY, i, e + 1 - i)], whole)
  {
    Step(before, Event(TOK_KEY, i, e + 1 - i), Run(s, e + 1, Colon, nesting), whole);
  }

  lemma {:induction false} StepColon(s: string, i: nat, nesting: seq<char>, before: seq<Event>, whole: Scan)
    requires i < |s| && s[i] == ':' && OnTheWay(s, i, Colon, nesting, before, whole)
    ensures OnTheWay(s, i + 1, Value, nesting, before + [Event(Tok(':'), i, 1)], whole)
  {
    Step(before, Event(Tok(':'), i, 1), Run(s, i + 1, Value, nesting), whole);
  }

  lemma {:induction false} StepComma(s: string, i: nat, next: Expecting, nesting: seq<char>, before: seq<Event>,
      whole: Scan)
    requires i < |s| && nesting != [] && s[i] == ',' && OnTheWay(s, i, CommaOrEnd, nesting, before, whole)
    requires next == if nesting[|nesting| - 1] == '{' then Key else Value
    ensures OnTheWay(s, i + 1, next, nesting, before + [Event(Tok(','), i, 1)], whole)
  {
    Step(before, Event(Tok(','), i, 1), Run(s, i + 1, next, nesting), whole);
  }

  /** The chars at which a container may be closed. */
  predicate MayClose(expecting: Expecting, c: char) {
    (expecting.Value? && c == ']') || (expecting.Key? && c == '}') || (expecting.CommaOrEnd? && (c == ']' || c == '}'))
  }

  lemma {:induction false} StepClose(s: string, i: nat, expecting: Expecting, nesting: seq<char>, before: seq<Event>,
      whole: Scan)
    requires i < |s| && nesting != [] && MayClose(expecting, s[i]) && OnTheWay(s, i, expecting, nesting, before, whole)
    ensures var rest := nesting[..|nesting| - 1]; var more := before + [Event(Tok(s[i]), i, 1)];
            if s[i] != Closer(nesting[|nesting| - 1]) then Scan(INVALID_INPUT, before) == whole
            else if rest == [] then Scan(i + 1, more) == whole
            else OnTheWay(s, i + 1, CommaOrEnd, rest, more, whole)
  {
    var rest, e := nesting[..|nesting| - 1], Event(Tok(s[i]), i, 1);
    assert Run(s, i, expecting, nesting) == RunClose(s, i, nesting);
    if s[i] != Closer(nesting[|nesting| - 1]) {
      assert before + [] == before;
    } else if rest == [] {
      LastStep(before, e, i + 1, whole);
    } else {
      Step(before, e, Run(s, i + 1, CommaOrEnd, rest), whole);
    }
  }

  /** No state goes on with this char. */
  predicate Stuck(s: string, i: nat, expecting: Expecting, nesting: seq<char>)
    requires i < |s|
  {
    !IsBlank(s[i]) && (nesting != [] ==> !MayClose(expecting, s[i])) &&
    match expecting
    case Value => s[i] != '{' && s[i] != '[' && Scalar(s, i).None?
    case Key => s[i] == '"' ==> PassString(s, i + 1).None?
    case Colon => s[i] != ':'
    case CommaOrEnd => nesting == [] || s[i] != ','
  }

  lemma {:induction false} StuckIsInvalid(s: string, i: nat, expecting: Expecting, nesting: seq<char>,
      before: seq<Event>, whole: Scan)
    requires i < |s| && Stuck(s, i, expecting, nesting) && OnTheWay(s, i, expecting, nesting, before, whole)
    ensures Scan(INVALID_INPUT, before) == whole
  {
    assert before + [] == before;
  }

  /** mjson with a callback that records its calls. */
  method Mjson(s: string) returns (code: int, events: seq<Event>)
    ensures Scan(code, events) == Run(s, 0, Value, [])
  {
    ghost var whole := Run(s, 0, Value, []);
    var expecting := Value;
    var nesting := new char[MAX_DEPTH];
    var i: nat, depth: nat := 0, 0;
    events := [];
    assert nesting[..depth] == [] && [] + whole.events == whole.events;
    while i < |s|
      invariant depth <= MAX_DEPTH && OnTheWay(s, i, expecting, nesting[..depth], events, whole)
      decreases |s| - i, if expecting.Value? then 1 else 0
    {
      var c := s[i];
      ghost var stack := nesting[..depth];
      assert depth > 0 ==> stack[depth - 1] == nesting[depth - 1] && nesting[..depth - 1] == stack[..depth - 1];
      if IsBlank(c) {
        StepBlank(s, i, expecting, stack, events, whole);
        i := i + 1;
        continue;
      }
      if MayClose(expecting, c) && depth > 0 { StepClose(s, i, expecting, stack, events, whole); }
      match expecting
      case Value =>
        if c == '{' || c == '[' {
          StepOpen(s, i, c, stack, events, whole);
          if depth >= MAX_DEPTH { return TOO_DEEP, events; }
          nesting[depth] := c;
          depth := depth + 1;
          assert nesting[..depth] == stack + [c];
          events, i, expecting := events + [Event(Tok(c), i, 1)], i + 1, if c == '{' then Key else Value;
        } else if c == ']' && depth > 0 {
          if c != Closer(nesting[depth - 1]) { return INVALID_INPUT, events; }
          depth, events, i, expecting := depth - 1, events + [Event(Tok(c), i, 1)], i + 1, CommaOrEnd;
          if depth == 0 { return i, events; }
        } else {
          var r := Scalar(s, i);
          if r.None? {
            StuckIsInvalid(s, i, expecting, stack, events, whole);
            return INVALID_INPUT, events;
          }
          var (tok, e) := r.value;
          StepScalar(s, i, tok, e, stack, events, whole);
          events, i, expecting := events + [Event(tok, i, e - i)], e, CommaOrEnd;
          if depth == 0 { return i, events; }
        }
      case Key =>
        if c == '"' {
          var n := PassStringLoop(s, i + 1);
          if n < 0 {
            StuckIsInvalid(s, i, expecting, stack, events, whole);
            return n, events;
          }
          var e: nat := i + 1 + n;
          StepKey(s, i, e, stack, events, whole);
          events, i, expecting := events + [Event(TOK_KEY, i, e + 1 - i)], e + 1, Colon;
        } else if c == '}' && depth > 0 {
          if c != Closer(nesting[depth - 1]) { return INVALID_INPUT, events; }
          depth, events, i, expecting := depth - 1, events + [Event(Tok(c), i, 1)], i + 1, CommaOrEnd;
          if depth == 0 { return i, events; }
        } else {
          StuckIsInvalid(s, i, expecting, stack, events, whole);
          return INVALID_INPUT, events;
        }
      case Colon =>
        if c != ':' {
          StuckIsInvalid(s, i, expecting, stack, events, whole);
          return INVALID_INPUT, events;
        }
        StepColon(s, i, stack, events, whole);
        events, i, expecting := events + [Event(Tok(c), i, 1)], i + 1, Value;
      case CommaOrEnd =>
        if depth > 0 && c == ',' {
          expecting := if nesting[depth - 1] == '{' then Key else Value;
          StepComma(s, i, expecting, stack, events, whole);
          events, i := events + [Event(Tok(c), i, 1)], i + 1;
        } else if depth > 0 && (c == ']' || c == '}') {
          if c != Closer(nesting[depth - 1]) { return INVALID_INPUT, events; }
          depth, events, i := depth - 1, events + [Event(Tok(c), i, 1)], i + 1;
          if depth == 0 { return i, events; }
        } else {
          StuckIsInvalid(s, i, expecting, stack, events, whole);
          return INVALID_INPUT, events;
        }
    }
    code := INVALID_INPUT;
    assert events + [] == events;
  }
}
