/** cJSON_Minify, out of place and in place. */
module Minifying {
  import opened Json
  import opened MinifyRendered
  import opened MinifyText
  import opened Printing
  import opened Text

  // ----- minifying twice

  lemma {:induction false} MinifyTwice(s: string)
    ensures Minify(Minify(s)) == Minify(s)
    decreases |s|
  {
    if s != [] {
      if IsBlank(s[0]) {
        MinifyTwice(s[1..]);
      } else if s[0] == '/' {
        if |s| > 1 && s[1] == '/' {
          MinifyTwice(AfterLine(s[2..]));
        } else if |s| > 1 && s[1] == '*' {
          MinifyTwice(AfterComment(s[2..]));
        } else {
          MinifyTwice(s[1..]);
        }
      } else if s[0] == '"' {
        MinifyStringTwice(s[1..]);
        assert ("\"" + MinifyString(s[1..]))[1..] == MinifyString(s[1..]);
      } else {
        MinifyTwice(s[1..]);
        assert ([s[0]] + Minify(s[1..]))[1..] == Minify(s[1..]);
      }
    }
  }

  lemma {:induction false} MinifyStringTwice(s: string)
    ensures MinifyString(MinifyString(s)) == MinifyString(s)
    decreases |s|
  {
    if s != [] {
      if s[0] == '"' {
        MinifyTwice(s[1..]);
        assert ("\"" + Minify(s[1..]))[1..] == Minify(s[1..]);
      } else if s[0] == '\\' && |s| > 1 && s[1] == '"' {
        MinifyStringTwice(s[2..]);
        assert ("\\\"" + MinifyString(s[2..]))[2..] == MinifyString(s[2..]);
      } else {
        MinifyStringTwice(s[1..]);
        assert ([s[0]] + MinifyString(s[1..]))[1..] == MinifyString(s[1..]);
        StringKeepsFirst(s[1..]);
      }
    }
  }

  // ----- minifying a formatted print

  /** Minifying cJSON_Print gives cJSON_PrintUnformatted exactly when no key, and no string
      value with white space behind it, ends in a backslash. */
  lemma {:induction false} MinifyPrint(j: JSON)
    ensures Minify(Render(j, true, 0)) == Render(j, false, 0) <==> Quiet(j, true)
  {
    assert Render(j, true, 0) + [] == Render(j, true, 0) && Render(j, false, 0) + [] == Render(j, false, 0);
    if Quiet(j, true) {
      MinifyRender(j, 0, 0, true, []);
    } else {
      NoisyRender(j, 0, 0, true, [], [], 0);
    }
  }

  // ----- in place

  /** While whole is minified in place: nothing from pos on has been overwritten, and the
      write cursor has not passed the read cursor. */
  ghost predicate Behind(json: array<char>, whole: string, into: nat, pos: nat)
    reads json
  {
    into <= pos <= Length(whole) < |whole| == json.Length && forall i :: pos <= i < |whole| ==> json[i] == whole[i]
  }

  /** What is still to be read. */
  ghost function Rest(whole: string, pos: nat): string
    requires pos <= Length(whole)
  {
    whole[pos..Length(whole)]
  }

  lemma {:induction false} RestStep(whole: string, pos: nat)
    requires pos <= Length(whole) < |whole|
    ensures Rest(whole, pos) == [] <==> whole[pos] == NUL
    ensures Rest(whole, pos) != [] ==>
              Rest(whole, pos)[0] == whole[pos] && Rest(whole, pos)[1..] == Rest(whole, pos + 1)
    ensures Rest(whole, pos) != [] ==> (|Rest(whole, pos)| > 1 <==> whole[pos + 1] != NUL)
    ensures |Rest(whole, pos)| > 1 ==>
              Rest(whole, pos)[1] == whole[pos + 1] && Rest(whole, pos)[2..] == Rest(whole, pos + 2)
  {
    var n := Length(whole);
    if pos < n { assert whole[..n][pos] == whole[pos]; }
    if pos + 1 < n { assert whole[..n][pos + 1] == whole[pos + 1]; }
  }

  /** What the next char or two make of the result. */
  lemma {:induction false} StringNext(whole: string, pos: nat)
    requires pos < Length(whole) < |whole| && whole[pos] != NUL
    ensures whole[pos] == '"' ==> MinifyString(Rest(whole, pos)) == ['"'] + Minify(Rest(whole, pos + 1))
    ensures whole[pos] == '\\' && whole[pos + 1] == '"' ==>
              pos + 2 <= Length(whole) &&
                MinifyString(Rest(whole, pos)) == ['\\', '"'] + MinifyString(Rest(whole, pos + 2))
    ensures whole[pos] != '"' && (whole[pos] != '\\' || whole[pos + 1] != '"') ==>
              MinifyString(Rest(whole, pos)) == [whole[pos]] + MinifyString(Rest(whole, pos + 1))
  {
    RestStep(whole, pos);
  }

  /** The same behind what is already written. */
  lemma {:induction false} StringStep(whole: string, pos: nat, done: string)
    requires pos < Length(whole) < |whole| && whole[pos] != NUL
    ensures var goal := done + MinifyString(Rest(whole, pos));
            if whole[pos] == '"' then goal == (done + ['"']) + Minify(Rest(whole, pos + 1))
            else if whole[pos] == '\\' && whole[pos + 1] == '"' then
              pos + 2 <= Length(whole) && goal == (done + ['\\', '"']) + MinifyString(Rest(whole, pos + 2))
            else goal == (done + [whole[pos]]) + MinifyString(Rest(whole, pos + 1))
  {
    StringNext(whole, pos);
    if whole[pos] == '"' {
      Regroup(done, ['"'], Minify(Rest(whole, pos + 1)));
    } else if whole[pos] == '\\' && whole[pos + 1] == '"' {
      Regroup(done, ['\\', '"'], MinifyString(Rest(whole, pos + 2)));
    } else {
      Regroup(done, [whole[pos]], MinifyString(Rest(whole, pos + 1)));
    }
  }

  lemma {:induction false} MinifyNext(whole: string, pos: nat)
    requires pos < Length(whole) < |whole| && whole[pos] != NUL
    ensures var c := whole[pos]; !IsBlank(c) && c != '/' && c != '"' ==>
              Minify(Rest(whole, pos)) == [c] + Minify(Rest(whole, pos + 1))
  {
    RestStep(whole, pos);
  }

  method SkipOneLineComment(json: array<char>, pos: nat, ghost whole: string) returns (p: nat)
    requires Behind(json, whole, 0, pos) && |Rest(whole, pos)| >= 2
    ensures pos + 2 <= p <= Length(whole) && Rest(whole, p) == AfterLine(Rest(whole, pos + 2))
  {
    p := pos + 2;
    RestStep(whole, p);
    while json[p] != NUL
      invariant pos + 2 <= p <= Length(whole)
      invariant AfterLine(Rest(whole, p)) == AfterLine(Rest(whole, pos + 2))
      decreases Length(whole) - p
    {
      RestStep(whole, p);
      if json[p] == '\n' { return p + 1; }
      p := p + 1;
    }
    RestStep(whole, p);
  }

  method SkipMultilineComment(json: array<char>, pos: nat, ghost whole: string) returns (p: nat)
    requires Behind(json, whole, 0, pos) && |Rest(whole, pos)| >= 2
    ensures pos + 2 <= p <= Length(whole) && Rest(whole, p) == AfterComment(Rest(whole, pos + 2))
  {
    p := pos + 2;
    RestStep(whole, p);
    while json[p] != NUL
      invariant pos + 2 <= p <= Length(whole)
      invariant AfterComment(Rest(whole, p)) == AfterComment(Rest(whole, pos + 2))
      decreases Length(whole) - p
    {
      RestStep(whole, p);
      if json[p] == '*' && json[p + 1] == '/' { return p + 2; }
      p := p + 1;
    }
    RestStep(whole, p);
  }

  /** One char copied down: the text written grows by it. */
  lemma {:induction false} Grow(done: string, c: char, s: string, t: string, rest: string)
    requires done + s == t && s == [c] + rest
    ensures (done + [c]) + rest == t
  {
  }

  method MinifyStringInPlace(json: array<char>, pos: nat, into: nat, ghost whole: string) returns (p: nat, o: nat)
    requires Behind(json, whole, into, pos) && Rest(whole, pos) != [] && whole[pos] == '"'
    modifies json
    ensures pos < p && Behind(json, whole, o, p)
    ensures json[..o] + Minify(Rest(whole, p)) == old(json[..into]) + Minify(Rest(whole, pos))
  {
    ghost var goal := json[..into] + Minify(Rest(whole, pos));
    RestStep(whole, pos);
    Grow(json[..into], '"', Minify(Rest(whole, pos)), goal, MinifyString(Rest(whole, pos + 1)));
    json[into] := json[pos];
    p, o := pos + 1, into + 1;
    while json[p] != NUL
      invariant pos < p && Behind(json, whole, o, p)
      invariant json[..o] + MinifyString(Rest(whole, p)) == goal
      decreases Length(whole) - p
    {
      var closed;
      p, o, closed := StringTurn(json, p, o, whole);
      if closed { return; }
    }
    RestStep(whole, p);
  }

  /** One turn of the loop of minify_string. */
  method StringTurn(json: array<char>, pos: nat, into: nat, ghost whole: string) returns (p: nat, o: nat, closed: bool)
    requires Behind(json, whole, into, pos) && Rest(whole, pos) != []
    modifies json
    ensures pos < p && Behind(json, whole, o, p)
    ensures json[..o] + (if closed then Minify(Rest(whole, p)) else MinifyString(Rest(whole, p))) ==
            old(json[..into]) + MinifyString(Rest(whole, pos))
  {
    ghost var done := json[..into];
    RestStep(whole, pos);
    StringStep(whole, pos, done);
    CopyOne(json, pos, into, whole, done);
    if json[pos] == '"' {
      StoreQuote(json, pos, into, whole, done);
      return pos + 1, into + 1, true;
    } else if json[pos] == '\\' && json[pos + 1] == '"' {
      CopyEscaped(json, pos, into, whole, done);
      return pos + 2, into + 2, false;
    } else {
      return pos + 1, into + 1, false;
    }
  }

  method CopyOne(json: array<char>, pos: nat, into: nat, ghost whole: string, ghost done: string)
    requires Behind(json, whole, into, pos) && pos < Length(whole) && json[..into] == done
    modifies json
    ensures Behind(json, whole, into + 1, pos + 1) && json[..into + 1] == done + [whole[pos]]
    ensures json[pos] == whole[pos]
  {
    json[into] := json[pos];
  }

  /** The closing quotation mark, written once more. */
  method StoreQuote(json: array<char>, pos: nat, into: nat, ghost whole: string, ghost done: string)
    requires Behind(json, whole, into + 1, pos + 1) && json[..into + 1] == done + ['"']
    modifies json
    ensures Behind(json, whole, into + 1, pos + 1) && json[..into + 1] == done + ['"']
  {
    assert |json[..into + 1]| == |done| + 1;
    json[into] := '"';
  }

  /** The second character of an escaped quotation mark. */
  method CopyEscaped(json: array<char>, pos: nat, into: nat, ghost whole: string, ghost done: string)
    requires Behind(json, whole, into + 1, pos + 1) && json[..into + 1] == done + ['\\']
    requires pos + 2 <= Length(whole) && whole[pos + 1] == '"'
    modifies json
    ensures Behind(json, whole, into + 2, pos + 2) && json[..into + 2] == done + ['\\', '"']
  {
    json[into + 1] := json[pos + 1];
  }

  /** The default case of the switch. */
  method CopyChar(json: array<char>, pos: nat, into: nat, ghost whole: string) returns (p: nat, o: nat)
    requires Behind(json, whole, into, pos) && Rest(whole, pos) != []
    requires !IsBlank(whole[pos]) && whole[pos] != '/' && whole[pos] != '"'
    modifies json
    ensures p == pos + 1 && Behind(json, whole, o, p)
    ensures json[..o] + Minify(Rest(whole, p)) == old(json[..into]) + Minify(Rest(whole, pos))
  {
    ghost var done := json[..into];
    RestStep(whole, pos);
    MinifyNext(whole, pos);
    json[into] := json[pos];
    assert json[..into + 1] == done + [whole[pos]];
    Regroup(done, [whole[pos]], Minify(Rest(whole, pos + 1)));
    return pos + 1, into + 1;
  }

  /** cJSON_Minify: the write cursor never passes the read cursor, so writing into the text
      that is being read does no harm. */
  method MinifyInPlace(json: array<char>)
    requires NUL in json[..]
    modifies json
    ensures CString(json[..]) == Minify(old(CString(json[..])))
    ensures forall i :: old(Length(json[..])) < i < json.Length ==> json[i] == old(json[i])
  {
    ghost var whole := json[..];
    LengthInside(whole);
    var pos: nat, into: nat := 0, 0;
    ghost var goal := Minify(CString(whole));
    assert Rest(whole, 0) == CString(whole);
    while json[pos] != NUL
      invariant Behind(json, whole, into, pos)
      invariant json[..into] + Minify(Rest(whole, pos)) == goal
      decreases Length(whole) - pos
    {
      RestStep(whole, pos);
      var c := json[pos];
      if c == ' ' || c == '\t' || c == '\r' || c == '\n' {
        pos := pos + 1;
      } else if c == '/' {
        if json[pos + 1] == '/' {
          pos := SkipOneLineComment(json, pos, whole);
        } else if json[pos + 1] == '*' {
          pos := SkipMultilineComment(json, pos, whole);
        } else {
          pos := pos + 1;
        }
      } else if c == '"' {
        pos, into := MinifyStringInPlace(json, pos, into, whole);
      } else {
        pos, into := CopyChar(json, pos, into, whole);
      }
    }
    RestStep(whole, pos);
    assert json[..into] == goal;
    json[into] := NUL;
    MinifyNulFree(CString(whole));
    assert json[..][..into] == goal;
    LengthIs(json[..], into);
  }

  lemma {:induction false} LengthInside(s: string)
    requires NUL in s
    ensures Length(s) < |s|
  {
    assert s[..|s|] == s;
  }

  lemma {:induction false} MinifyNulFree(s: string)
    requires NulFree(s)
    ensures NulFree(Minify(s)) && NulFree(MinifyString(s))
    decreases |s|
  {
    if s != [] {
      MinifyNulFree(s[1..]);
      if |s| > 1 {
        MinifyNulFree(s[2..]);
        AfterNulFree(s[2..]);
        MinifyNulFree(AfterLine(s[2..]));
        MinifyNulFree(AfterComment(s[2..]));
      }
    }
  }

  lemma {:induction false} AfterNulFree(s: string)
    requires NulFree(s)
    ensures NulFree(AfterLine(s)) && NulFree(AfterComment(s))
    decreases |s|
  {
    if s != [] { AfterNulFree(s[1..]); }
  }
}
