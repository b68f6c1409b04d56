/** cJSON_Minify on spelled documents with comments.

    White space and comments around any token make no difference to what is left, and what is
    left is parsed to the document. */
module MinifySyntax {
  import opened Json
  import opened MinifyRendered
  import opened MinifyText
  import opened ParseSyntax
  import opened Printing
  import opened StringLiteral
  import opened Syntax
  import opened Text
  import Parser

  // ----- comments

  /** From two slashes up to the end of the line. */
  ghost predicate LineComment(w: string) {
    |w| >= 3 && w[..2] == "//" && w[|w| - 1] == '\n' && '\n' !in w[2..|w| - 1]
  }

  predicate StarSlash(w: string, k: nat) { k + 1 < |w| && w[k] == '*' && w[k + 1] == '/' }

  /** From a slash and a star up to the next star and slash. */
  ghost predicate BlockComment(w: string) {
    |w| >= 4 && w[..2] == "/*" && StarSlash(w, |w| - 2) && forall k :: 2 <= k < |w| - 2 ==> !StarSlash(w, k)
  }

  /** White space and comments. */
  ghost predicate Filler(w: string)
    decreases |w|
  {
    w == [] || (Blank(w[..1]) && Filler(w[1..])) ||
    exists k :: 0 < k <= |w| && (LineComment(w[..k]) || BlockComment(w[..k])) && Filler(w[k..])
  }

  lemma {:induction false} LineEnds(w: string, rest: string)
    requires w != [] && w[|w| - 1] == '\n' && '\n' !in w[..|w| - 1]
    ensures AfterLine(w + rest) == rest
    decreases |w|
  {
    var s := w + rest;
    assert s[0] == w[0] && s[1..] == w[1..] + rest;
    if |w| > 1 {
      assert w[0] in w[..|w| - 1] && w[1..][..|w| - 2] == w[..|w| - 1][1..];
      LineEnds(w[1..], rest);
    }
  }

  lemma {:induction false} BlockEnds(w: string, rest: string)
    requires |w| >= 2 && StarSlash(w, |w| - 2) && forall k :: 0 <= k < |w| - 2 ==> !StarSlash(w, k)
    ensures AfterComment(w + rest) == rest
    decreases |w|
  {
    var s := w + rest;
    assert s[0] == w[0] && s[1] == w[1];
    if |w| > 2 {
      assert s[1..] == w[1..] + rest && !StarSlash(w, 0);
      forall k | 0 <= k < |w| - 3
        ensures !StarSlash(w[1..], k)
      {
        assert !StarSlash(w, k + 1);
      }
      BlockEnds(w[1..], rest);
    } else {
      assert s[2..] == rest;
    }
  }

  lemma {:induction false} CommentVanishes(w: string, rest: string)
    requires LineComment(w) || BlockComment(w)
    ensures Minify(w + rest) == Minify(rest)
  {
    var s, inner := w + rest, w[2..];
    assert s[0] == w[..2][0] && s[1] == w[..2][1] && s[2..] == inner + rest;
    if LineComment(w) {
      assert inner[..|inner| - 1] == w[2..|w| - 1];
      LineEnds(inner, rest);
    } else {
      forall k | 0 <= k < |inner| - 2
        ensures !StarSlash(inner, k)
      {
        assert !StarSlash(w, k + 2);
      }
      BlockEnds(inner, rest);
    }
  }

  /** White space and comments vanish. */
  lemma {:induction false} FillerVanishes(w: string, rest: string)
    requires Filler(w)
    ensures Minify(w + rest) == Minify(rest)
    decreases |w|
  {
    if w == [] {
      assert w + rest == rest;
    } else {
      var k, tail := FillerStarts(w);
      FirstVanishes(w, k, tail, rest);
      FillerVanishes(tail, rest);
    }
  }

  ghost predicate Vanishes(w: string) { (|w| == 1 && Blank(w)) || LineComment(w) || BlockComment(w) }

  lemma {:induction false} FillerStarts(w: string) returns (k: nat, tail: string)
    requires Filler(w) && w != []
    ensures 0 < k <= |w| && Vanishes(w[..k]) && tail == w[k..] && Filler(tail)
  {
    if Blank(w[..1]) && Filler(w[1..]) {
      k := 1;
    } else {
      k :| 0 < k <= |w| && (LineComment(w[..k]) || BlockComment(w[..k])) && Filler(w[k..]);
    }
    tail := w[k..];
  }

  lemma {:induction false} FirstVanishes(w: string, k: nat, tail: string, rest: string)
    requires 0 < k <= |w| && Vanishes(w[..k]) && tail == w[k..]
    ensures Minify(w + rest) == Minify(tail + rest)
  {
    var first := w[..k];
    assert w + rest == first + (tail + rest);
    if LineComment(first) || BlockComment(first) {
      CommentVanishes(first, tail + rest);
    } else {
      BlankVanishes(first, tail + rest);
    }
  }

  lemma {:induction false} BlankVanishes(w: string, rest: string)
    requires |w| == 1 && Blank(w)
    ensures Minify(w + rest) == Minify(rest)
  {
    assert (w + rest)[0] == w[0] && (w + rest)[1..] == rest;
  }

  // ----- what is kept

  /** Every quote inside the literal is escaped, and none of its backslashes stands in front of
      the closing one. */
  predicate Clean(body: string) {
    (forall i :: 0 <= i < |body| && body[i] == '"' ==> i > 0 && body[i - 1] == '\\') &&
    (body != [] ==> body[|body| - 1] != '\\')
  }

  lemma {:induction false} LiteralStays(body: string, rest: string)
    requires Clean(body)
    ensures MinifyString(body + ("\"" + rest)) == body + ("\"" + Minify(rest))
    decreases |body|
  {
    var tail := "\"" + rest;
    if body == [] {
      assert body + tail == tail && tail[1..] == rest && body + ("\"" + Minify(rest)) == "\"" + Minify(rest);
    } else {
      var n := if body[0] == '\\' && body[1] == '"' then 2 else 1;
      CleanTail(body, n);
      StringKeeps(body, n, tail);
      LiteralStays(body[n..], rest);
      assert body == body[..n] + body[n..];
      Regroup(body[..n], body[n..], "\"" + Minify(rest));
    }
  }

  lemma {:induction false} CleanTail(body: string, n: nat)
    requires Clean(body) && body != [] && n == (if body[0] == '\\' && body[1] == '"' then 2 else 1)
    ensures n <= |body| && Clean(body[n..])
  {
    assert forall i :: 0 <= i < |body| - n ==> body[n..][i] == body[i + n];
  }

  /** A char, or an escaped quote, is copied. */
  lemma {:induction false} StringKeeps(body: string, n: nat, tail: string)
    requires Clean(body) && body != [] && n == (if body[0] == '\\' && body[1] == '"' then 2 else 1) && n <= |body|
    ensures MinifyString(body + tail) == body[..n] + MinifyString(body[n..] + tail)
  {
    var s := body + tail;
    assert s[0] == body[0] && (|body| > 1 ==> s[1] == body[1]) && s[n..] == body[n..] + tail;
    assert body[..n] == if n == 2 then "\\\"" else [body[0]];
  }

  // ----- documents with comments

  /** A document whose gaps are filled with white space and comments. */
  ghost predicate Commented(s: Syntax)
    decreases s, 1
  {
    match s
    case Word(j) => j.Null? || j.False? || j.True?
    case Num(n) => ProperNumeral(n)
    case Lit(body, value) => Reads(body, value) && Clean(body)
    case Arr(items, blank) => Filler(blank) && ItemsCommented(items)
    case Obj(members, blank) => Filler(blank) && MembersCommented(members)
  }

  ghost predicate ItemsCommented(es: seq<Element>)
    decreases es, 0
  {
    es == [] || (Filler(es[0].before) && Commented(es[0].value) && Filler(es[0].after) && ItemsCommented(es[1..]))
  }

  ghost predicate MembersCommented(es: seq<Entry>)
    decreases es, 0
  {
    es == [] ||
    (Filler(es[0].before) && Reads(es[0].body, es[0].key) && Clean(es[0].body) && Filler(es[0].gap) &&
     Filler(es[0].lead) && Commented(es[0].value) && Filler(es[0].after) && MembersCommented(es[1..]))
  }

  /** The same document with nothing between its tokens. */
  function Bare(s: Syntax): Syntax
    decreases s, 1
  {
    match s
    case Arr(items, _) => Arr(BareItems(items), "")
    case Obj(members, _) => Obj(BareMembers(members), "")
    case _ => s
  }

  function BareItems(es: seq<Element>): seq<Element>
    decreases es, 0
  {
    if es == [] then [] else [Element("", Bare(es[0].value), "")] + BareItems(es[1..])
  }

  function BareMembers(es: seq<Entry>): seq<Entry>
    decreases es, 0
  {
    if es == [] then []
    else [Entry("", es[0].body, es[0].key, "", "", Bare(es[0].value), "")] + BareMembers(es[1..])
  }

  lemma {:induction false} BareSame(s: Syntax, strtod: string -> int)
    requires Commented(s)
    ensures Proper(Bare(s)) && Tree(Bare(s), strtod) == Tree(s, strtod)
    decreases s, 1
  {
    match s
    case Arr(items, _) => BareItemsSame(items, strtod);
    case Obj(members, _) => BareMembersSame(members, strtod);
    case _ =>
  }

  lemma {:induction false} BareItemsSame(es: seq<Element>, strtod: string -> int)
    requires ItemsCommented(es)
    ensures ProperItems(BareItems(es)) && TreeItems(BareItems(es), strtod) == TreeItems(es, strtod)
    decreases es, 0
  {
    if es != [] {
      BareSame(es[0].value, strtod);
      BareItemsSame(es[1..], strtod);
      assert BareItems(es)[1..] == BareItems(es[1..]);
    }
  }

  lemma {:induction false} BareMembersSame(es: seq<Entry>, strtod: string -> int)
    requires MembersCommented(es)
    ensures ProperMembers(BareMembers(es)) && TreeMembers(BareMembers(es), strtod) == TreeMembers(es, strtod)
    decreases es, 0
  {
    if es != [] {
      BareSame(es[0].value, strtod);
      BareMembersSame(es[1..], strtod);
      assert BareMembers(es)[1..] == BareMembers(es[1..]);
    }
  }

  // ----- minifying

  /** w is minified to v, whatever follows. */
  ghost predicate Becomes(w: string, v: string) { forall rest :: Minify(w + rest) == v + Minify(rest) }

  lemma {:induction false} BecomesBoth(a: string, x: string, b: string, y: string)
    requires Becomes(a, x) && Becomes(b, y)
    ensures Becomes(a + b, x + y)
  {
    forall rest
      ensures Minify((a + b) + rest) == (x + y) + Minify(rest)
    {
      Regroup(a, b, rest);
      Regroup(x, y, Minify(rest));
      assert Minify(a + (b + rest)) == x + Minify(b + rest);
    }
  }

  /** White space and comments in front of a text, and behind it. */
  lemma {:induction false} BecomesBehind(w: string, a: string, x: string)
    requires Filler(w) && Becomes(a, x)
    ensures Becomes(w + a, x)
  {
    forall rest
      ensures Minify((w + a) + rest) == x + Minify(rest)
    {
      Regroup(w, a, rest);
      FillerVanishes(w, a + rest);
    }
  }

  lemma {:induction false} BecomesBefore(a: string, x: string, w: string)
    requires Filler(w) && Becomes(a, x)
    ensures Becomes(a + w, x)
  {
    forall rest
      ensures Minify((a + w) + rest) == x + Minify(rest)
    {
      Regroup(a, w, rest);
      FillerVanishes(w, rest);
      assert Minify(a + (w + rest)) == x + Minify(w + rest);
    }
  }

  lemma {:induction false} TextBecomes(w: string)
    requires forall i :: 0 <= i < |w| ==> IsCopied(w[i])
    ensures Becomes(w, w)
  {
    forall rest
      ensures Minify(w + rest) == w + Minify(rest)
    {
      CopyText(w, rest);
    }
  }

  lemma {:induction false} QuoteOpens(s: string, inner: string)
    requires s == "\"" + inner
    ensures Minify(s) == "\"" + MinifyString(inner)
  {
    assert s[0] == '"';
    assert s[1..] == inner;
  }

  lemma {:induction false} QuotedStays(body: string, rest: string)
    requires Clean(body)
    ensures Minify(InQuotes(body) + rest) == InQuotes(body) + Minify(rest)
  {
    var inner := body + ("\"" + rest);
    LiteralStays(body, rest);
    assert InQuotes(body) + rest == "\"" + inner;
    QuoteOpens("\"" + inner, inner);
    assert InQuotes(body) + Minify(rest) == "\"" + (body + ("\"" + Minify(rest)));
  }

  lemma {:induction false} LiteralBecomes(body: string)
    requires Clean(body)
    ensures Becomes(InQuotes(body), InQuotes(body))
  {
    forall rest
      ensures Minify(InQuotes(body) + rest) == InQuotes(body) + Minify(rest)
    {
      QuotedStays(body, rest);
    }
  }

  lemma {:induction false} Minified(s: Syntax)
    requires Commented(s)
    ensures Becomes(Spelled(s), Spelled(Bare(s)))
    decreases s, 2
  {
    match s
    case Word(j) => TextBecomes(Spelled(s));
    case Num(n) =>
      NumeralSyntax(n, NumeralText(n));
      TextBecomes(Spelled(s));
    case Lit(body, _) => LiteralBecomes(body);
    case Arr(items, blank) => ArrayMinified(items, blank);
    case Obj(members, blank) => ObjectMinified(members, blank);
  }

  lemma {:induction false} ArrayMinified(items: seq<Element>, blank: string)
    requires Filler(blank) && ItemsCommented(items)
    ensures Becomes(Spelled(Arr(items, blank)), Spelled(Arr(BareItems(items), "")))
    decreases items, 2
  {
    BareCount(items);
    if items == [] {
      EmptyMinified(blank);
      Bracketed("[", blank, "", "]");
    } else {
      ItemsMinified(items);
      Bracketed("[", SpelledItems(items), SpelledItems(BareItems(items)), "]");
    }
  }

  lemma {:induction false} ObjectMinified(members: seq<Entry>, blank: string)
    requires Filler(blank) && MembersCommented(members)
    ensures Becomes(Spelled(Obj(members, blank)), Spelled(Obj(BareMembers(members), "")))
    decreases members, 2
  {
    BareMembersCount(members);
    if members == [] {
      EmptyMinified(blank);
      Bracketed("{", blank, "", "}");
    } else {
      MembersMinified(members);
      Bracketed("{", SpelledMembers(members), SpelledMembers(BareMembers(members)), "}");
    }
  }

  lemma {:induction false} EmptyMinified(blank: string)
    requires Filler(blank)
    ensures Becomes(blank, "")
  {
    forall rest
      ensures Minify(blank + rest) == "" + Minify(rest)
    {
      FillerVanishes(blank, rest);
    }
  }

  lemma {:induction false} Bracketed(open: string, inner: string, bare: string, close: string)
    requires |open| == |close| == 1 && IsCopied(open[0]) && IsCopied(close[0]) && Becomes(inner, bare)
    ensures Becomes(open + inner + close, open + bare + close)
  {
    TextBecomes(open);
    TextBecomes(close);
    BecomesBoth(open, open, inner, bare);
    BecomesBoth(open + inner, open + bare, close, close);
  }

  lemma {:induction false} ItemsMinified(es: seq<Element>)
    requires es != [] && ItemsCommented(es)
    ensures Becomes(SpelledItems(es), SpelledItems(BareItems(es)))
    decreases es, 1
  {
    var x, bare := es[0], Spelled(Bare(es[0].value));
    Minified(x.value);
    var first := ItemMinified(x, bare);
    if |es| > 1 {
      ItemsMinified(es[1..]);
      Continued(first, bare, SpelledItems(es[1..]), SpelledItems(BareItems(es[1..])));
    }
    ItemsAre(es, first, bare);
  }

  lemma {:induction false} ItemsAre(es: seq<Element>, first: string, kept: string)
    requires es != [] && first == es[0].before + Spelled(es[0].value) + es[0].after
    requires kept == Spelled(Bare(es[0].value))
    ensures SpelledItems(es) == if |es| == 1 then first else first + ("," + SpelledItems(es[1..]))
    ensures SpelledItems(BareItems(es)) == if |es| == 1 then kept else kept + ("," + SpelledItems(BareItems(es[1..])))
  {
    BareCount(es[1..]);
    assert BareItems(es)[1..] == BareItems(es[1..]);
    assert "" + kept + "" == kept;
    if |es| == 1 { assert first + [] == first && kept + [] == kept; }
  }

  lemma {:induction false} ItemMinified(x: Element, bare: string) returns (first: string)
    requires Filler(x.before) && Filler(x.after) && Becomes(Spelled(x.value), bare)
    ensures first == x.before + Spelled(x.value) + x.after && Becomes(first, bare)
  {
    BecomesBehind(x.before, Spelled(x.value), bare);
    BecomesBefore(x.before + Spelled(x.value), bare, x.after);
    first := x.before + Spelled(x.value) + x.after;
  }

  lemma {:induction false} BareCount(es: seq<Element>)
    ensures |BareItems(es)| == |es|
  {
    if es != [] { BareCount(es[1..]); }
  }

  /** A comma and what follows it. */
  lemma {:induction false} Continued(first: string, kept: string, rest: string, bare: string)
    requires Becomes(first, kept) && Becomes(rest, bare)
    ensures Becomes(first + ("," + rest), kept + ("," + bare))
  {
    TextBecomes(",");
    BecomesBoth(",", ",", rest, bare);
    BecomesBoth(first, kept, "," + rest, "," + bare);
  }

  lemma {:induction false} MembersMinified(es: seq<Entry>)
    requires es != [] && MembersCommented(es)
    ensures Becomes(SpelledMembers(es), SpelledMembers(BareMembers(es)))
    decreases es, 1
  {
    var x, bare := es[0], Spelled(Bare(es[0].value));
    Minified(x.value);
    var first, kept := EntryMinified(x, bare);
    if |es| > 1 {
      MembersMinified(es[1..]);
      Continued(first, kept, SpelledMembers(es[1..]), SpelledMembers(BareMembers(es[1..])));
    }
    MembersAre(es, first, kept);
  }

  lemma {:induction false} MembersAre(es: seq<Entry>, first: string, kept: string)
    requires es != []
    requires first == es[0].before + InQuotes(es[0].body) + es[0].gap + ":" + es[0].lead + Spelled(es[0].value) +
                      es[0].after
    requires kept == InQuotes(es[0].body) + ":" + Spelled(Bare(es[0].value))
    ensures SpelledMembers(es) == if |es| == 1 then first else first + ("," + SpelledMembers(es[1..]))
    ensures SpelledMembers(BareMembers(es)) ==
            if |es| == 1 then kept else kept + ("," + SpelledMembers(BareMembers(es[1..])))
  {
    BareMembersCount(es[1..]);
    assert BareMembers(es)[1..] == BareMembers(es[1..]);
    NothingBetween(InQuotes(es[0].body), Spelled(Bare(es[0].value)));
    if |es| == 1 {
      assert first + [] == first;
      assert kept + [] == kept;
    }
  }

  lemma {:induction false} NothingBetween(q: string, v: string)
    ensures "" + q + "" + ":" + "" + v + "" == q + ":" + v
  {
    assert "" + q + "" == q && q + ":" + "" == q + ":";
  }

  lemma {:induction false} BareMembersCount(es: seq<Entry>)
    ensures |BareMembers(es)| == |es|
  {
    if es != [] { BareMembersCount(es[1..]); }
  }

  lemma {:induction false} EntryMinified(x: Entry, bare: string) returns (first: string, kept: string)
    requires Filler(x.before) && Clean(x.body) && Filler(x.gap) && Filler(x.lead) && Filler(x.after)
    requires Becomes(Spelled(x.value), bare)
    ensures first == x.before + InQuotes(x.body) + x.gap + ":" + x.lead + Spelled(x.value) + x.after
    ensures kept == InQuotes(x.body) + ":" + bare && Becomes(first, kept)
  {
    var q, v := InQuotes(x.body), Spelled(x.value);
    LiteralBecomes(x.body);
    BecomesBehind(x.before, q, q);
    BecomesBefore(x.before + q, q, x.gap);
    TextBecomes(":");
    BecomesBoth(x.before + q + x.gap, q, ":", ":");
    BecomesBefore(x.before + q + x.gap + ":", q + ":", x.lead);
    BecomesBoth(x.before + q + x.gap + ":" + x.lead, q + ":", v, bare);
    BecomesBefore(x.before + q + x.gap + ":" + x.lead + v, q + ":" + bare, x.after);
    first := x.before + q + x.gap + ":" + x.lead + v + x.after;
    kept := q + ":" + bare;
  }

  /** A document with comments is minified to itself without white space and comments, and that
      is parsed to the document when it is nested at most 1000 deep. */
  lemma {:induction false} MinifyThenParse(before: string, s: Syntax, after: string, strtod: string -> int)
    requires Commented(s) && Filler(before) && Filler(after)
    ensures var text := Minify(before + Spelled(s) + after);
            text == Spelled(Bare(s)) &&
            (Nesting(Tree(s, strtod)) <= Parser.NESTING_LIMIT ==>
               Parser.ParseCString(text, true, strtod) == Done(Tree(s, strtod), |text|))
  {
    WholeMinified(before, s, after, Spelled(Bare(s)));
    BareSame(s, strtod);
    if Nesting(Tree(s, strtod)) <= Parser.NESTING_LIMIT { WholeParsed(Bare(s), Spelled(Bare(s)), strtod); }
  }

  lemma {:induction false} WholeMinified(before: string, s: Syntax, after: string, bare: string)
    requires Commented(s) && Filler(before) && Filler(after) && bare == Spelled(Bare(s))
    ensures Minify(before + Spelled(s) + after) == bare
  {
    Minified(s);
    FilledMinified(before, Spelled(s), after, bare);
  }

  lemma {:induction false} FilledMinified(before: string, w: string, after: string, bare: string)
    requires Filler(before) && Becomes(w, bare) && Filler(after)
    ensures Minify(before + w + after) == bare
  {
    BecomesBehind(before, w, bare);
    BecomesBefore(before + w, bare, after);
    BecomesWhole(before + w + after, bare);
  }

  lemma {:induction false} BecomesWhole(w: string, v: string)
    requires Becomes(w, v)
    ensures Minify(w) == v
  {
    assert w + [] == w && v + Minify([]) == v;
  }
}
