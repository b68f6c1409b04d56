/** Every spelled document is parsed.

    The parser reads a properly spelled text as the document it spells, wherever it stands in a
    buffer, when containers are nested at most 1000 deep, and refuses it otherwise. */
module ParseSyntax {
  import opened Json
  import opened LiteralPlaces
  import opened Numbers
  import opened Parser
  import opened Printing
  import opened StringLiteral
  import opened Syntax
  import opened Text

  /** The outcome for a text whose containers are, or are not, nested too deep. */
  ghost predicate Outcome<T>(r: Parsed<T>, fits: bool, value: T, end: nat) {
    if fits then r == Done(value, end) else r.Failed?
  }

  /** A numeral is not followed by another char of a number. */
  ghost predicate Delimited(c: string, e: nat, s: Syntax) {
    e <= |c| && (s.Num? && e < |c| ==> !IsNumberChar(c[e]))
  }

  /** Only white space stands between a and b. */
  predicate Spaces(c: string, a: nat, b: nat) {
    a <= b <= |c| && b <= SpaceEnd(c, a)
  }

  lemma {:induction false} SpacesAt(c: string, p: nat, w: string)
    requires At(c, p, w) && forall k :: 0 <= k < |w| ==> IsSpace(w[k])
    ensures Spaces(c, p, p + |w|)
    decreases |w|
  {
    if w != [] {
      AtChar(c, p, w, 0);
      AtSplit(c, p, w[..1], w[1..]);
      assert w == w[..1] + w[1..];
      SpacesAt(c, p + 1, w[1..]);
    }
  }

  lemma {:induction false} SkipTo(c: string, a: nat, b: nat)
    requires Spaces(c, a, b) && b < |c| && !IsSpace(c[b])
    ensures SkipSpace(c, a) == b
    decreases b - a
  {
    if a < b { SkipTo(c, a + 1, b); }
  }

  lemma {:induction false} WhiteSkipped(c: string, p: nat, w: string, q: nat)
    requires At(c, p, w) && White(w) && q == p + |w| && q < |c| && !IsSpace(c[q])
    ensures p <= |c| && SkipSpace(c, p) == q && SkipSpace(c, q) == q
  {
    SpacesAt(c, p, w);
    SkipTo(c, p, q);
    SkipTo(c, q, q);
  }

  // ----- words, literals and numerals

  lemma {:induction false} NotWords(c: string, at: nat)
    requires at < |c| && c[at] != 'n' && c[at] != 'f' && c[at] != 't'
    ensures !At(c, at, "null") && !At(c, at, "false") && !At(c, at, "true")
  {
    if At(c, at, "null") { AtChar(c, at, "null", 0); }
    if At(c, at, "false") { AtChar(c, at, "false", 0); }
    if At(c, at, "true") { AtChar(c, at, "true", 0); }
  }

  lemma {:induction false} WordParsed(c: string, at: nat, j: JSON, depth: nat, strtod: string -> int)
    requires (j.Null? || j.False? || j.True?) && At(c, at, WordText(j))
    ensures ParseValue(c, at, depth, strtod) == Done(j, at + |WordText(j)|)
  {
    AtChar(c, at, WordText(j), 0);
    if At(c, at, "null") { AtChar(c, at, "null", 0); }
    if At(c, at, "false") { AtChar(c, at, "false", 0); }
  }

  lemma {:induction false} LiteralParsed(c: string, at: nat, body: string, value: string, depth: nat,
      strtod: string -> int)
    requires At(c, at, InQuotes(body)) && Reads(body, value)
    ensures ParseValue(c, at, depth, strtod) == Done(Str(value), at + |InQuotes(body)|)
  {
    ReadsThere(c, at, body, value);
    NotWords(c, at);
  }

  /** strtod reads a numeral whole when no other char of a number follows. */
  lemma {:induction false} NumeralEnds(n: Numeral, t: string, rest: string)
    requires IsNumeral(n) && t == NumeralText(n) + rest && (rest != [] ==> !IsNumberChar(rest[0]))
    ensures NumeralEnd(t) == |NumeralText(n)|
  {
    var m, f, e := if n.minus then "-" else "", FractionText(n.fraction), ExponentText(n.exponent);
    var start := |m|;
    var whole := start + |n.whole|;
    var fraction := whole + |f|;
    assert t == m + n.whole + f + (e + rest);
    NumeralPlaces(n, t, m, f, e + rest, start, whole, fraction);
    DigitsEndIs(t, start, whole);
    if n.fraction.Some? { DigitsEndIs(t, whole + 1, fraction); }
    ExponentEnds(n.exponent, t, fraction, rest);
    NumeralEndIs(t, start, whole, fraction, fraction + |e|);
  }

  lemma {:induction false} NumeralWhole(n: Numeral, t: string)
    requires IsNumeral(n) && t == NumeralText(n)
    ensures NumeralEnd(t) == |t|
  {
    assert t == t + [];
    NumeralEnds(n, t, []);
  }

  lemma {:induction false} NumeralEndIs(t: string, start: nat, whole: nat, fraction: nat, end: nat)
    requires SignEnd(t, 0) == start <= |t| && DigitsEnd(t, start) == whole <= fraction <= |t|
    requires if whole < |t| && t[whole] == '.' then DigitsEnd(t, whole + 1) == fraction else whole == fraction
    requires ExponentEnd(t, fraction) == end && (whole > start || fraction > whole + 1)
    ensures NumeralEnd(t) == end
  {
  }

  /** It consists of chars of numbers, and its value is a whole number exactly without fraction
      and exponent. */
  lemma {:induction false} NumeralSyntax(n: Numeral, t: string)
    requires ProperNumeral(n) && t == NumeralText(n)
    ensures t != [] && (t[0] == '-' || IsDigit(t[0])) && NumberChars(t)
    ensures IsWhole(t) <==> n.fraction.None? && n.exponent.None?
    ensures IsWhole(t) ==> WholeValue(t) == if n.minus then 0 - Natural(n.whole) else Natural(n.whole)
  {
    var m, f, e := if n.minus then "-" else "", FractionText(n.fraction), ExponentText(n.exponent);
    assert t == m + n.whole + f + e;
    NumeralChars(n, t, m, f, e);
    WholeNumeral(n, t, m, f, e);
    assert !n.minus ==> t[0] == n.whole[0];
  }

  predicate NumberChars(t: string) { forall k :: 0 <= k < |t| ==> IsNumberChar(t[k]) }

  /** Which chars stand where. */
  lemma {:induction false} NumeralPlaces(n: Numeral, t: string, m: string, f: string, tail: string, start: nat,
      whole: nat, fraction: nat)
    requires IsNumeral(n) && t == m + n.whole + f + tail && m == (if n.minus then "-" else "")
    requires f == FractionText(n.fraction) && (tail != [] ==> !IsDigit(tail[0]) && tail[0] != '.')
    requires start == |m| && whole == start + |n.whole| && fraction == whole + |f|
    ensures fraction <= |t| && SignEnd(t, 0) == start && (forall k :: start <= k < whole ==> IsDigit(t[k]))
    ensures whole < |t| ==> !IsDigit(t[whole]) && (t[whole] == '.' <==> n.fraction.Some?)
    ensures n.fraction.Some? ==> whole < fraction && forall k :: whole < k < fraction ==> IsDigit(t[k])
    ensures (fraction < |t| ==> !IsDigit(t[fraction])) && t[fraction..] == tail
  {
    PartChars(t, m, n.whole, f, tail, start, whole, fraction);
    if fraction < |t| { assert t[fraction] == tail[0]; }
    if start > 0 { assert t[0] == m[0]; }
  }

  lemma {:induction false} PartChars(t: string, m: string, w: string, f: string, e: string, start: nat, whole: nat,
      fraction: nat)
    requires t == m + w + f + e && start == |m| && whole == start + |w| && fraction == whole + |f|
    ensures t[fraction..] == e
    ensures forall k :: start <= k < whole ==> t[k] == w[k - start]
    ensures forall k :: whole <= k < fraction ==> t[k] == f[k - whole]
  {
    assert t[fraction..] == e;
  }

  lemma {:induction false} NumeralChars(n: Numeral, t: string, m: string, f: string, e: string)
    requires ProperNumeral(n) && t == m + n.whole + f + e && m == (if n.minus then "-" else "")
    requires f == FractionText(n.fraction) && e == ExponentText(n.exponent)
    ensures NumberChars(t)
  {
    assert NumberChars(m) && NumberChars(n.whole) && NumberChars(f);
    if n.exponent.Some? {
      var x := n.exponent.value;
      assert NumberChars([x.mark]) && NumberChars(x.sign) && NumberChars(x.digits);
    }
  }

  lemma {:induction false} ExponentEnds(x: Option<Exponent>, t: string, i: nat, rest: string)
    requires (x.Some? ==> ProperExponent(x.value)) && i <= |t| && t[i..] == ExponentText(x) + rest
    requires rest != [] ==> !IsNumberChar(rest[0])
    ensures ExponentEnd(t, i) == |t| - |rest|
  {
    var e := ExponentText(x) + rest;
    assert forall k :: 0 <= k < |e| ==> t[i + k] == e[k];
    if x.Some? { DigitsFollow(x.value, t, i, rest, e); }
  }

  lemma {:induction false} DigitsFollow(x: Exponent, t: string, i: nat, rest: string, e: string)
    requires ProperExponent(x) && i + |e| == |t| && e == [x.mark] + x.sign + x.digits + rest
    requires (forall k :: 0 <= k < |e| ==> t[i + k] == e[k]) && (rest != [] ==> !IsNumberChar(rest[0]))
    ensures ExponentEnd(t, i) == |t| - |rest|
  {
    var start := i + 1 + |x.sign|;
    var end := start + |x.digits|;
    assert t[i] == e[0] == x.mark;
    assert t[start] == e[1 + |x.sign|] == x.digits[0] && IsDigit(x.digits[0]);
    assert x.sign != "" ==> t[i + 1] == e[1] == x.sign[0];
    assert SignEnd(t, i + 1) == start;
    forall k | start <= k < end
      ensures IsDigit(t[k])
    {
      assert t[k] == e[k - i] == x.digits[k - start];
    }
    if rest != [] { assert t[end] == e[end - i] == rest[0]; }
    DigitsEndIs(t, start, end);
  }

  lemma {:induction false} WholeNumeral(n: Numeral, t: string, m: string, f: string, e: string)
    requires ProperNumeral(n) && t == m + n.whole + f + e && m == (if n.minus then "-" else "")
    requires f == FractionText(n.fraction) && e == ExponentText(n.exponent)
    ensures IsWhole(t) <==> n.fraction.None? && n.exponent.None?
    ensures IsWhole(t) ==> WholeValue(t) == if n.minus then 0 - Natural(n.whole) else Natural(n.whole)
  {
    var whole := |m| + |n.whole|;
    assert !n.minus && n.whole != [] ==> t[0] == n.whole[0];
    assert n.minus ==> t[0] == '-';
    if n.fraction.Some? || n.exponent.Some? {
      assert t[whole] == (f + e)[0] && !IsDigit(t[whole]);
    } else {
      IntegerIs(n, t);
    }
  }

  lemma {:induction false} IntegerIs(n: Numeral, t: string)
    requires Digits(n.whole) && n.whole != [] && t == (if n.minus then "-" else "") + n.whole
    ensures IsWhole(t) && WholeValue(t) == if n.minus then 0 - Natural(n.whole) else Natural(n.whole)
  {
    if n.minus {
      assert t[1..] == n.whole && forall k :: 1 <= k < |t| ==> t[k] == n.whole[k - 1];
    } else {
      assert t == n.whole;
    }
  }

  lemma {:induction false} NumeralParsed(c: string, at: nat, n: Numeral, depth: nat, strtod: string -> int)
    requires ProperNumeral(n) && At(c, at, NumeralText(n)) && Delimited(c, at + |NumeralText(n)|, Num(n))
    ensures ParseValue(c, at, depth, strtod) == Done(Number(NumeralValue(n, strtod)), at + |NumeralText(n)|)
  {
    var t := NumeralText(n);
    NumeralWhole(n, t);
    NumeralSyntax(n, t);
    NumeralValueIs(n, t, strtod);
    TokenParsed(c, at, t, NumeralValue(n, strtod), depth, strtod);
  }

  lemma {:induction false} TokenParsed(c: string, at: nat, t: string, v: int, depth: nat, strtod: string -> int)
    requires At(c, at, t) && NumeralEnd(t) == |t| <= NUMBER_ROOM && NumberChars(t) && t != []
    requires t[0] == '-' || IsDigit(t[0])
    requires at + |t| < |c| ==> !IsNumberChar(c[at + |t|])
    requires v == if IsWhole(t) then Saturate(WholeValue(t)) else strtod(t)
    ensures ParseValue(c, at, depth, strtod) == Done(Number(v), at + |t|)
  {
    AtChar(c, at, t, 0);
    NumberDispatched(c, at, depth, strtod);
    TokenIs(c, at, t, NUMBER_ROOM);
    NumberIs(c, at, t, v, strtod);
  }

  lemma {:induction false} NumeralValueIs(n: Numeral, t: string, strtod: string -> int)
    requires ProperNumeral(n) && t == NumeralText(n) && (IsWhole(t) <==> n.fraction.None? && n.exponent.None?)
    requires IsWhole(t) ==> WholeValue(t) == if n.minus then 0 - Natural(n.whole) else Natural(n.whole)
    ensures NumeralValue(n, strtod) == if IsWhole(t) then Saturate(WholeValue(t)) else strtod(t)
  {
  }

  lemma {:induction false} NumberDispatched(c: string, at: nat, depth: nat, strtod: string -> int)
    requires at < |c| && (c[at] == '-' || IsDigit(c[at]))
    ensures ParseValue(c, at, depth, strtod) == ParseNumber(c, at, strtod)
  {
    NotWords(c, at);
  }

  lemma {:induction false} NumberIs(c: string, at: nat, t: string, v: int, strtod: string -> int)
    requires at <= |c| && NumberToken(c, at, NUMBER_ROOM) == t && NumeralEnd(t) == |t| > 0
    requires v == if IsWhole(t) then Saturate(WholeValue(t)) else strtod(t)
    ensures ParseNumber(c, at, strtod) == Done(Number(v), at + |t|)
  {
    assert t[..|t|] == t;
  }

  // ----- where the parts of a container stand

  lemma {:induction false} InsideBrackets(c: string, at: nat, open: string, inner: string, close: string)
    returns (p: nat, last: nat)
    requires At(c, at, open + inner + close) && |open| == |close| == 1
    ensures p == at + 1 && last == p + |inner| && last < |c| && At(c, p, inner)
    ensures c[at] == open[0] && c[last] == close[0] && last + 1 == at + |open + inner + close|
  {
    AtSplit3(c, at, open, inner, close);
    p, last := at + 1, at + 1 + |inner|;
    AtChar(c, at, open, 0);
    AtChar(c, last, close, 0);
  }

  lemma {:induction false} AtSplitFour(c: string, p: nat, a: string, b: string, d: string, e: string)
    returns (q: nat, r: nat, s: nat)
    requires At(c, p, a + b + d + e)
    ensures At(c, p, a) && q == p + |a| && At(c, q, b) && r == q + |b| && At(c, r, d) && s == r + |d| && At(c, s, e)
    ensures s + |e| == p + |a + b + d + e|
  {
    AtSplit(c, p, a + b + d, e);
    AtSplit3(c, p, a, b, d);
    q := p + |a|;
    r := q + |b|;
    s := r + |d|;
  }

  /** Behind the white space after a value stands a comma or the closing bracket. */
  lemma {:induction false} AfterValue(c: string, e: nat, after: string, sep: nat, s: Syntax)
    requires At(c, e, after) && White(after) && sep == e + |after| && sep < |c|
    requires c[sep] == ',' || c[sep] == ']' || c[sep] == '}'
    ensures SkipSpace(c, e) == sep && Delimited(c, e, s)
  {
    WhiteSkipped(c, e, after, sep);
    if after != [] { AtChar(c, e, after, 0); }
  }

  lemma {:induction false} ItemPlaces(c: string, p: nat, last: nat, es: seq<Element>)
    returns (q: nat, e: nat, sep: nat, next: nat)
    requires es != [] && ProperItems(es) && At(c, p, SpelledItems(es))
    requires last == p + |SpelledItems(es)| < |c| && c[last] == ']'
    ensures SkipSpace(c, p) == q < |c| && SkipSpace(c, q) == q && c[q] != ']' && At(c, q, Spelled(es[0].value))
    ensures e == q + |Spelled(es[0].value)| && Delimited(c, e, es[0].value) && SkipSpace(c, e) == sep < |c|
    ensures next == sep + 1 && c[sep] == if |es| == 1 then ']' else ','
    ensures |es| == 1 ==> sep == last
    ensures |es| > 1 ==> At(c, next, SpelledItems(es[1..])) && last == next + |SpelledItems(es[1..])|
  {
    var x := es[0];
    q, e, sep := AtSplitFour(c, p, x.before, Spelled(x.value), x.after, ItemsRest(es));
    next := sep + 1;
    if |es| > 1 {
      AtSplit(c, sep, ",", SpelledItems(es[1..]));
      AtChar(c, sep, ",", 0);
    }
    SpelledStarts(x.value);
    AtChar(c, q, Spelled(x.value), 0);
    WhiteSkipped(c, p, x.before, q);
    AfterValue(c, e, x.after, sep, x.value);
  }

  // ----- arrays

  lemma {:induction false} AtBracket(c: string, at: nat, depth: nat, strtod: string -> int)
    requires at < |c|
    ensures c[at] == '[' ==> ParseValue(c, at, depth, strtod) == ParseArray(c, at, depth, strtod)
    ensures c[at] == '{' ==> ParseValue(c, at, depth, strtod) == ParseObject(c, at, depth, strtod)
  {
    if c[at] == '[' || c[at] == '{' { NotWords(c, at); }
  }

  /** White space in front of the first element makes no difference. */
  lemma {:induction false} ItemsSkip(c: string, p: nat, q: nat, depth: nat, strtod: string -> int)
    requires p <= |c| && SkipSpace(c, p) == q && SkipSpace(c, q) == q
    ensures ParseItems(c, p, depth, strtod) == ParseItems(c, q, depth, strtod)
  {
  }

  lemma {:induction false} ArrayIs(c: string, at: nat, p: nat, q: nat, depth: nat, inner: nat, strtod: string -> int)
    requires at < |c| && p == at + 1 && SkipSpace(c, p) == q < |c| && inner == depth + 1
    ensures depth >= NESTING_LIMIT ==> ParseArray(c, at, depth, strtod).Failed?
    ensures depth < NESTING_LIMIT && c[q] == ']' ==> ParseArray(c, at, depth, strtod) == Done(Array([]), q + 1)
    ensures depth < NESTING_LIMIT && c[q] != ']' && SkipSpace(c, q) == q ==>
              ParseArray(c, at, depth, strtod) ==
                match ParseItems(c, p, inner, strtod)
                case Failed(e) => Failed(e)
                case Done(items, e) => Done(Array(items), e)
  {
    if SkipSpace(c, q) == q { ItemsSkip(c, p, q, inner, strtod); }
  }

  /** What the loop makes of the last element, and of one that is not the last. */
  lemma {:induction false} LastItemIs(c: string, p: nat, q: nat, e: nat, sep: nat, item: JSON, depth: nat,
      strtod: string -> int)
    requires p <= |c| && SkipSpace(c, p) == q && ParseValue(c, q, depth, strtod) == Done(item, e)
    requires SkipSpace(c, e) == sep < |c| && c[sep] == ']'
    ensures ParseItems(c, p, depth, strtod) == Done([item], sep + 1)
  {
  }

  lemma {:induction false} MoreItemIs(c: string, p: nat, q: nat, e: nat, sep: nat, next: nat, item: JSON, depth: nat,
      strtod: string -> int, rest: Parsed<seq<JSON>>)
    requires p <= |c| && SkipSpace(c, p) == q && ParseValue(c, q, depth, strtod) == Done(item, e)
    requires SkipSpace(c, e) == sep < |c| && next == sep + 1 && c[sep] == ',' &&
             rest == ParseItems(c, next, depth, strtod)
    ensures rest.Done? ==> ParseItems(c, p, depth, strtod) == Done([item] + rest.value, rest.offset)
    ensures rest.Failed? ==> ParseItems(c, p, depth, strtod).Failed?
  {
  }

  lemma {:induction false} ValueParsed(c: string, at: nat, end: nat, s: Syntax, depth: nat, strtod: string -> int)
    requires Proper(s) && depth <= NESTING_LIMIT && At(c, at, Spelled(s)) && end == at + |Spelled(s)| &&
             Delimited(c, end, s)
    ensures Outcome(ParseValue(c, at, depth, strtod), depth + Nesting(Tree(s, strtod)) <= NESTING_LIMIT,
                    Tree(s, strtod), end)
    decreases s, 2
  {
    match s
    case Word(j) => WordParsed(c, at, j, depth, strtod);
    case Num(n) => NumeralParsed(c, at, n, depth, strtod);
    case Lit(body, value) => LiteralParsed(c, at, body, value, depth, strtod);
    case Arr(items, blank) => ArrayParsed(c, at, end, items, blank, depth, depth + 1, strtod);
    case Obj(members, blank) => ObjectParsed(c, at, end, members, blank, depth, depth + 1, strtod);
  }

  lemma {:induction false} ArrayParsed(c: string, at: nat, end: nat, items: seq<Element>, blank: string, depth: nat,
      inner: nat, strtod: string -> int)
    requires White(blank) && ProperItems(items) && depth <= NESTING_LIMIT && inner == depth + 1
    requires At(c, at, Spelled(Arr(items, blank))) && end == at + |Spelled(Arr(items, blank))|
    ensures Outcome(ParseValue(c, at, depth, strtod), inner + ItemsNesting(TreeItems(items, strtod)) <= NESTING_LIMIT,
                    Array(TreeItems(items, strtod)), end)
    decreases items, 3
  {
    var text := if items == [] then blank else SpelledItems(items);
    var p, last := InsideBrackets(c, at, "[", text, "]");
    AtBracket(c, at, depth, strtod);
    if items == [] {
      WhiteSkipped(c, p, blank, last);
      ArrayIs(c, at, p, last, depth, inner, strtod);
    } else {
      var q := ItemsParsed(c, p, last, end, items, if depth < NESTING_LIMIT then inner else depth, strtod);
      ArrayIs(c, at, p, q, depth, inner, strtod);
    }
  }

  lemma {:induction false} ItemsParsed(c: string, p: nat, last: nat, end: nat, es: seq<Element>, depth: nat,
      strtod: string -> int) returns (q: nat)
    requires es != [] && ProperItems(es) && depth <= NESTING_LIMIT && At(c, p, SpelledItems(es))
    requires last == p + |SpelledItems(es)| < |c| && c[last] == ']' && end == last + 1
    ensures SkipSpace(c, p) == q < |c| && SkipSpace(c, q) == q && c[q] != ']'
    ensures Outcome(ParseItems(c, p, depth, strtod), depth + ItemsNesting(TreeItems(es, strtod)) <= NESTING_LIMIT,
                    TreeItems(es, strtod), end)
    decreases es, 2
  {
    var e, sep, next;
    q, e, sep, next := ItemPlaces(c, p, last, es);
    ValueParsed(c, q, e, es[0].value, depth, strtod);
    if |es| > 1 { var _ := ItemsParsed(c, next, last, end, es[1..], depth, strtod); }
    ItemsCompose(c, p, q, e, sep, next, end, es, depth, strtod);
  }

  /** Elements whose first one and whose others are read as they should be. */
  lemma {:induction false} ItemsCompose(c: string, p: nat, q: nat, e: nat, sep: nat, next: nat, end: nat,
      es: seq<Element>, depth: nat, strtod: string -> int)
    requires es != [] && p <= |c| && SkipSpace(c, p) == q && e <= |c| && SkipSpace(c, e) == sep < |c|
    requires next == sep + 1 && c[sep] == (if |es| == 1 then ']' else ',') && (|es| == 1 ==> end == next)
    requires Outcome(ParseValue(c, q, depth, strtod), depth + Nesting(Tree(es[0].value, strtod)) <= NESTING_LIMIT,
                     Tree(es[0].value, strtod), e)
    requires |es| > 1 ==>
               Outcome(ParseItems(c, next, depth, strtod),
                       depth + ItemsNesting(TreeItems(es[1..], strtod)) <= NESTING_LIMIT, TreeItems(es[1..],
                           strtod), end)
    requires depth <= NESTING_LIMIT
    ensures Outcome(ParseItems(c, p, depth, strtod), depth + ItemsNesting(TreeItems(es, strtod)) <= NESTING_LIMIT,
                    TreeItems(es, strtod), end)
  {
    var v, rest := Tree(es[0].value, strtod), TreeItems(es[1..], strtod);
    assert TreeItems(es, strtod) == [v] + rest;
    NestingCons(v, rest);
    if depth + Nesting(v) <= NESTING_LIMIT {
      if |es| == 1 {
        LastItemIs(c, p, q, e, sep, v, depth, strtod);
      } else {
        MoreItemIs(c, p, q, e, sep, next, v, depth, strtod, ParseItems(c, next, depth, strtod));
      }
    }
    if |es| == 1 { assert rest == [] && [v] + rest == [v]; }
  }

  lemma {:induction false} NestingCons(v: JSON, rest: seq<JSON>)
    ensures ItemsNesting([v] + rest) == Max(Nesting(v), ItemsNesting(rest))
    ensures ItemsNesting([]) == 0
  {
    assert ([v] + rest)[1..] == rest;
  }

  // ----- objects

  lemma {:induction false} AtSplitEight(c: string, p: nat, a: string, k: string, g: string, n: string, l: string,
      v: string, f: string, r: string)
    returns (key: nat, gap: nat, colon: nat, lead: nat, value: nat, after: nat, sep: nat)
    requires At(c, p, a + k + g + n + l + v + f + r)
    ensures At(c, p, a) && key == p + |a| && At(c, key, k) && gap == key + |k| && At(c, gap, g) && colon == gap + |g|
    ensures At(c, colon, n) && lead == colon + |n| && At(c, lead, l) && value == lead + |l| && At(c, value, v)
    ensures after == value + |v| && At(c, after, f) && sep == after + |f| && At(c, sep, r)
    ensures sep + |r| == p + |a + k + g + n + l + v + f + r|
  {
    AtSplit3(c, p, a + k + g + n + l + v, f, r);
    AtSplit3(c, p, a + k + g + n, l, v);
    key, gap, colon := AtSplitFour(c, p, a, k, g, n);
    lead := colon + |n|;
    value := lead + |l|;
    after := value + |v|;
    sep := after + |f|;
  }

  lemma {:induction false} MemberCut(c: string, p: nat, es: seq<Entry>)
    returns (key: nat, gap: nat, colon: nat, lead: nat, value: nat, after: nat, sep: nat)
    requires es != [] && At(c, p, SpelledMembers(es))
    ensures At(c, p, es[0].before) && key == p + |es[0].before|
    ensures At(c, key, InQuotes(es[0].body)) && gap == key + |InQuotes(es[0].body)|
    ensures At(c, gap, es[0].gap) && colon == gap + |es[0].gap|
    ensures At(c, colon, ":") && lead == colon + 1
    ensures At(c, lead, es[0].lead) && value == lead + |es[0].lead|
    ensures At(c, value, Spelled(es[0].value)) && after == value + |Spelled(es[0].value)|
    ensures At(c, after, es[0].after) && sep == after + |es[0].after|
    ensures At(c, sep, MembersRest(es)) && sep + |MembersRest(es)| == p + |SpelledMembers(es)|
  {
    var x := es[0];
    key, gap, colon, lead, value, after, sep :=
      AtSplitEight(c, p, x.before, InQuotes(x.body), x.gap, ":", x.lead, Spelled(x.value), x.after, MembersRest(es));
  }

  lemma {:induction false} KeyPlace(c: string, p: nat, before: string, key: nat, body: string)
    requires At(c, p, before) && White(before) && key == p + |before| && At(c, key, InQuotes(body))
    ensures p <= |c| && SkipSpace(c, p) == key < |c| && c[key] == '"' && SkipSpace(c, key) == key
  {
    AtChar(c, key, InQuotes(body), 0);
    WhiteSkipped(c, p, before, key);
  }

  lemma {:induction false} ColonPlace(c: string, gap: nat, w: string, colon: nat)
    requires At(c, gap, w) && White(w) && colon == gap + |w| && At(c, colon, ":")
    ensures gap <= |c| && SkipSpace(c, gap) == colon < |c| && c[colon] == ':'
  {
    AtChar(c, colon, ":", 0);
    WhiteSkipped(c, gap, w, colon);
  }

  lemma {:induction false} ValuePlace(c: string, lead: nat, w: string, value: nat, s: Syntax)
    requires At(c, lead, w) && White(w) && value == lead + |w| && At(c, value, Spelled(s)) && Proper(s)
    ensures lead <= |c| && SkipSpace(c, lead) == value
  {
    SpelledStarts(s);
    AtChar(c, value, Spelled(s), 0);
    WhiteSkipped(c, lead, w, value);
  }

  /** The first member: its name is read up to its value, and behind the value stands a comma or
      the closing brace. */
  lemma {:induction false} MemberPlaces(c: string, at: nat, p: nat, last: nat, es: seq<Entry>)
    returns (key: nat, value: nat, after: nat, sep: nat)
    requires es != [] && ProperMembers(es) && p == at + 1 && At(c, p, SpelledMembers(es))
    requires last == p + |SpelledMembers(es)| < |c| && c[last] == '}'
    ensures SkipSpace(c, p) == key < |c| && c[key] == '"' && SkipSpace(c, key) == key
    ensures ReadName(c, at) == Done(es[0].key, value) && At(c, value, Spelled(es[0].value))
    ensures after == value + |Spelled(es[0].value)| && Delimited(c, after, es[0].value)
    ensures SkipSpace(c, after) == sep < |c| && c[sep] == if |es| == 1 then '}' else ','
    ensures |es| > 1 ==> At(c, sep + 1, SpelledMembers(es[1..])) && last == sep + 1 + |SpelledMembers(es[1..])|
    ensures |es| == 1 ==> sep == last
  {
    var x := es[0];
    var gap, colon, lead;
    key, gap, colon, lead, value, after, sep := MemberCut(c, p, es);
    NamePlaces(c, at, p, key, gap, colon, lead, value, x);
    MembersRestAt(c, sep, es);
    AfterValue(c, after, x.after, sep, x.value);
  }

  lemma {:induction false} NamePlaces(c: string, at: nat, p: nat, key: nat, gap: nat, colon: nat, lead: nat,
      value: nat, x: Entry)
    requires White(x.before) && Reads(x.body, x.key) && White(x.gap) && White(x.lead) && Proper(x.value) && p == at + 1
    requires At(c, p, x.before) && key == p + |x.before| && At(c, key, InQuotes(x.body))
    requires gap == key + |InQuotes(x.body)| && At(c, gap, x.gap) && colon == gap + |x.gap| && At(c, colon, ":")
    requires lead == colon + 1 && At(c, lead, x.lead) && value == lead + |x.lead| && At(c, value, Spelled(x.value))
    ensures SkipSpace(c, p) == key < |c| && c[key] == '"' && SkipSpace(c, key) == key
    ensures ReadName(c, at) == Done(x.key, value)
  {
    KeyPlace(c, p, x.before, key, x.body);
    ColonPlace(c, gap, x.gap, colon);
    ValuePlace(c, lead, x.lead, value, x.value);
    NameIs(c, at, key, gap, colon, lead, value, x.body, x.key);
  }

  lemma {:induction false} MembersRestAt(c: string, sep: nat, es: seq<Entry>)
    requires es != [] && At(c, sep, MembersRest(es))
    ensures |es| > 1 ==> sep < |c| && c[sep] == ',' && At(c, sep + 1, SpelledMembers(es[1..]))
  {
    if |es| > 1 {
      AtSplit(c, sep, ",", SpelledMembers(es[1..]));
      AtChar(c, sep, ",", 0);
    }
  }

  lemma {:induction false} NameIs(c: string, at: nat, key: nat, gap: nat, colon: nat, lead: nat, value: nat,
      body: string, name: string)
    requires at + 1 < |c| && SkipSpace(c, at + 1) == key < |c| && At(c, key, InQuotes(body)) && Reads(body, name)
    requires gap == key + |InQuotes(body)| && gap <= |c| && SkipSpace(c, gap) == colon < |c| && c[colon] == ':'
    requires lead == colon + 1 && SkipSpace(c, lead) == value
    ensures ReadName(c, at) == Done(name, value)
  {
    ReadsThere(c, key, body, name);
  }

  lemma {:induction false} ObjectIs(c: string, at: nat, p: nat, q: nat, depth: nat, inner: nat, strtod: string -> int)
    requires at < |c| && p == at + 1 && SkipSpace(c, p) == q < |c| && inner == depth + 1
    ensures depth >= NESTING_LIMIT ==> ParseObject(c, at, depth, strtod).Failed?
    ensures depth < NESTING_LIMIT && c[q] == '}' ==> ParseObject(c, at, depth, strtod) == Done(Object([]), q + 1)
    ensures depth < NESTING_LIMIT && c[q] != '}' && SkipSpace(c, q) == q ==>
              ParseObject(c, at, depth, strtod) ==
                match ParseMembers(c, at, inner, strtod)
                case Failed(e) => Failed(e)
                case Done(members, e) => Done(Object(members), e)
  {
    if SkipSpace(c, q) == q { MembersSkip(c, at, q - 1, inner, strtod); }
  }

  /** White space in front of the first name makes no difference. */
  lemma {:induction false} MembersSkip(c: string, at: nat, before: nat, depth: nat, strtod: string -> int)
    requires at <= before && before + 1 < |c| && SkipSpace(c, at + 1) == before + 1 == SkipSpace(c, before + 1)
    ensures ParseMembers(c, at, depth, strtod) == ParseMembers(c, before, depth, strtod)
  {
    assert ReadName(c, at) == ReadName(c, before);
    assert ReadMember(c, at, depth, strtod) == ReadMember(c, before, depth, strtod);
  }

  /** What the loop makes of one member. */
  lemma {:induction false} MemberIs(c: string, at: nat, sep: nat, m: Member, depth: nat, strtod: string -> int)
    requires at < |c| && ReadMember(c, at, depth, strtod) == Done(m, sep) && sep < |c|
    ensures c[sep] == '}' ==> ParseMembers(c, at, depth, strtod) == Done([m], sep + 1)
    ensures c[sep] == ',' ==>
              ParseMembers(c, at, depth, strtod) ==
                match ParseMembers(c, sep, depth, strtod)
                case Failed(f) => Failed(f)
                case Done(members, f) => Done([m] + members, f)
  {
  }

  lemma {:induction false} ObjectParsed(c: string, at: nat, end: nat, members: seq<Entry>, blank: string, depth: nat,
      inner: nat, strtod: string -> int)
    requires White(blank) && ProperMembers(members) && depth <= NESTING_LIMIT && inner == depth + 1
    requires At(c, at, Spelled(Obj(members, blank))) && end == at + |Spelled(Obj(members, blank))|
    ensures Outcome(ParseValue(c, at, depth, strtod),
                    inner + MembersNesting(TreeMembers(members, strtod)) <= NESTING_LIMIT,
                    Object(TreeMembers(members, strtod)), end)
    decreases members, 3
  {
    var text := if members == [] then blank else SpelledMembers(members);
    var p, last := InsideBrackets(c, at, "{", text, "}");
    AtBracket(c, at, depth, strtod);
    if members == [] {
      WhiteSkipped(c, p, blank, last);
      ObjectIs(c, at, p, last, depth, inner, strtod);
    } else {
      var key := MembersParsed(c, at, p, last, end, members, if depth < NESTING_LIMIT then inner else depth, strtod);
      ObjectIs(c, at, p, key, depth, inner, strtod);
    }
  }

  lemma {:induction false} MembersParsed(c: string, at: nat, p: nat, last: nat, end: nat, es: seq<Entry>, depth: nat,
      strtod: string -> int) returns (key: nat)
    requires es != [] && ProperMembers(es) && depth <= NESTING_LIMIT && p == at + 1 && At(c, p, SpelledMembers(es))
    requires last == p + |SpelledMembers(es)| < |c| && c[last] == '}' && end == last + 1
    ensures SkipSpace(c, p) == key < |c| && c[key] == '"' && SkipSpace(c, key) == key
    ensures Outcome(ParseMembers(c, at, depth, strtod), depth +
            MembersNesting(TreeMembers(es, strtod)) <= NESTING_LIMIT,
                    TreeMembers(es, strtod), end)
    decreases es, 2
  {
    var value, after, sep;
    key, value, after, sep := MemberPlaces(c, at, p, last, es);
    ValueParsed(c, value, after, es[0].value, depth, strtod);
    if |es| > 1 { var _ := MembersParsed(c, sep, sep + 1, last, end, es[1..], depth, strtod); }
    MembersCompose(c, at, value, after, sep, end, es, depth, strtod);
  }

  lemma {:induction false} MembersCompose(c: string, at: nat, value: nat, after: nat, sep: nat, end: nat,
      es: seq<Entry>, depth: nat, strtod: string -> int)
    requires es != [] && at < |c| && ReadName(c, at) == Done(es[0].key, value) && after <= |c|
    requires SkipSpace(c, after) == sep < |c| && c[sep] == (if |es| == 1 then '}' else ',')
    requires |es| == 1 ==> end == sep + 1
    requires Outcome(ParseValue(c, value, depth, strtod), depth + Nesting(Tree(es[0].value, strtod)) <= NESTING_LIMIT,
                     Tree(es[0].value, strtod), after)
    requires |es| > 1 ==>
               Outcome(ParseMembers(c, sep, depth, strtod),
                       depth + MembersNesting(TreeMembers(es[1..], strtod)) <= NESTING_LIMIT,
                       TreeMembers(es[1..], strtod), end)
    requires depth <= NESTING_LIMIT
    ensures Outcome(ParseMembers(c, at, depth, strtod), depth +
            MembersNesting(TreeMembers(es, strtod)) <= NESTING_LIMIT,
                    TreeMembers(es, strtod), end)
  {
    var m, rest := Member(es[0].key, Tree(es[0].value, strtod)), TreeMembers(es[1..], strtod);
    assert TreeMembers(es, strtod) == [m] + rest;
    MembersNestingCons(m, rest);
    MemberRead(c, at, value, after, sep, m, depth, strtod);
    if depth + Nesting(m.value) <= NESTING_LIMIT {
      MemberIs(c, at, sep, m, depth, strtod);
    } else {
      assert ParseMembers(c, at, depth, strtod).Failed?;
    }
    if |es| == 1 { assert rest == [] && [m] + rest == [m]; }
  }

  lemma {:induction false} MemberRead(c: string, at: nat, value: nat, after: nat, sep: nat, m: Member, depth: nat,
      strtod: string -> int)
    requires at < |c| && ReadName(c, at) == Done(m.key, value) && after <= |c| && SkipSpace(c, after) == sep
    ensures ParseValue(c, value, depth, strtod) == Done(m.value, after) ==>
              ReadMember(c, at, depth, strtod) == Done(m, sep)
    ensures ParseValue(c, value, depth, strtod).Failed? ==> ReadMember(c, at, depth, strtod).Failed?
  {
  }

  lemma {:induction false} MembersNestingCons(m: Member, rest: seq<Member>)
    ensures MembersNesting([m] + rest) == Max(Nesting(m.value), MembersNesting(rest))
    ensures MembersNesting([]) == 0
  {
    assert ([m] + rest)[1..] == rest;
  }

  // ----- whole texts

  /** A text that spells a document, with white space around it, is parsed when a C string holds
      it, with or without a byte order mark in front, whether or not the terminator is asked
      for; one that is nested too deep is refused. */
  lemma {:induction false} TextParsed(bom: bool, before: string, s: Syntax, after: string, requireNul: bool,
      strtod: string -> int)
    requires Proper(s) && White(before) && White(after)
    ensures var text := (if bom then BOM else "") + before + Spelled(s) + after;
            var end := if requireNul then |text| else |text| - |after|;
            Outcome(ParseCString(text, requireNul, strtod), Nesting(Tree(s, strtod)) <= NESTING_LIMIT, Tree(s, strtod),
                    end)
  {
    var mark := if bom then BOM else "";
    var c := mark + before + Spelled(s) + after + [NUL];
    var at, end := TextPlaces(c, bom, mark, before, s, after);
    ValueParsed(c, at, end, s, 0, strtod);
  }

  /** A text that spells a document and nothing else. */
  lemma {:induction false} WholeParsed(s: Syntax, w: string, strtod: string -> int)
    requires Proper(s) && Nesting(Tree(s, strtod)) <= NESTING_LIMIT && w == Spelled(s)
    ensures ParseCString(w, true, strtod) == Done(Tree(s, strtod), |w|)
  {
    var text := "" + "" + w + "";
    assert text == w;
    TextParsed(false, "", s, "", true, strtod);
  }

  lemma {:induction false} TextPlaces(c: string, bom: bool, mark: string, before: string, s: Syntax, after: string)
    returns (at: nat, end: nat)
    requires Proper(s) && White(before) && White(after) && mark == (if bom then BOM else "")
    requires c == mark + before + Spelled(s) + after + [NUL]
    ensures |c| > 4 && At(c, 0, BOM) <==> bom
    ensures |mark| <= |c| && SkipSpace(c, |mark|) == at && At(c, at, Spelled(s)) && end == at + |Spelled(s)|
    ensures Delimited(c, end, s) && SkipSpace(c, end) == |c| - 1 == end + |after| && c[|c| - 1] == NUL
  {
    at := |mark| + |before|;
    end := at + |Spelled(s)|;
    SpelledStarts(s);
    WholePlaces(c, mark, before, Spelled(s), after);
    ValuePlace(c, |mark|, before, at, s);
    MarkIs(c, bom, before, Spelled(s), after);
    TailSkipped(c, end, after);
    TailDelimits(c, end, after, s);
  }

  lemma {:induction false} TailDelimits(c: string, end: nat, after: string, s: Syntax)
    requires At(c, end, after) && White(after) && end + |after| + 1 == |c| && c[|c| - 1] == NUL
    ensures Delimited(c, end, s)
  {
    if after != [] { AtChar(c, end, after, 0); }
  }

  lemma {:induction false} WholePlaces(c: string, mark: string, before: string, t: string, after: string)
    requires c == mark + before + t + after + [NUL]
    ensures At(c, |mark|, before) && At(c, |mark| + |before|, t) && At(c, |mark| + |before| + |t|, after)
    ensures c[|c| - 1] == NUL && |c| == |mark| + |before| + |t| + |after| + 1
  {
    AtMiddle(mark, before, t + after + [NUL]);
    assert mark + before + (t + after + [NUL]) == c;
    AtMiddle(mark + before, t, after + [NUL]);
    assert mark + before + t + (after + [NUL]) == c;
    AtMiddle(mark + before + t, after, [NUL]);
  }

  lemma {:induction false} MarkIs(c: string, bom: bool, before: string, t: string, after: string)
    requires c == (if bom then BOM else "") + before + t + after + [NUL] && White(before) && t != []
    requires (t[0] as int) < 128
    ensures |c| > 4 && At(c, 0, BOM) <==> bom
  {
    if bom {
      AtSlice(c, 0, BOM);
      assert c[0..3] == BOM;
    } else {
      assert c[0] == if before != [] then before[0] else t[0];
      if At(c, 0, BOM) { AtChar(c, 0, BOM, 0); }
    }
  }

  /** White space up to the terminator: the parser steps back onto it. */
  lemma {:induction false} TailSkipped(c: string, end: nat, after: string)
    requires At(c, end, after) && White(after) && end + |after| + 1 == |c| && c[|c| - 1] == NUL
    ensures SkipSpace(c, end) == |c| - 1
  {
    var tail := after + [NUL];
    AtSlice(c, end + |after|, [NUL]);
    assert c[end + |after|..end + |after| + 1] == [NUL];
    AtSplit(c, end, after, [NUL]);
    SpacesAt(c, end, tail);
  }
}
