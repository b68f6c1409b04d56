/** Whatever is parsed is a spelled document.

    The other direction of ParseSyntax: what the parser accepts is a properly spelled text, and
    what it returns is the document that text spells. */
module ParseAccepts {
  import opened Json
  import opened LiteralPlaces
  import opened Numbers
  import opened Parser
  import opened ParseSyntax
  import opened StringLiteral
  import opened Syntax
  import opened Text

  // ----- numerals

  lemma {:induction false} DigitsBetween(s: string, i: nat)
    requires i <= |s|
    ensures Digits(s[i..DigitsEnd(s, i)])
    decreases |s| - i
  {
    if i < |s| && IsDigit(s[i]) {
      DigitsBetween(s, i + 1);
      var e := DigitsEnd(s, i);
      assert forall k :: i < k < e ==> s[k] == s[i + 1..e][k - (i + 1)];
    }
  }

  /** The fraction and the exponent that strtod finds. */
  lemma {:induction false} FractionFound(s: string, whole: nat) returns (f: Option<string>, fraction: nat)
    requires whole <= |s|
    ensures fraction == if whole < |s| && s[whole] == '.' then DigitsEnd(s, whole + 1) else whole
    ensures whole <= fraction <= |s| && FractionText(f) == s[whole..fraction] && (f.Some? ==> Digits(f.value))
    ensures f.None? <==> fraction == whole
    ensures f.Some? ==> |f.value| == fraction - whole - 1
  {
    if whole < |s| && s[whole] == '.' {
      fraction := DigitsEnd(s, whole + 1);
      f := Some(s[whole + 1..fraction]);
      DigitsBetween(s, whole + 1);
      assert s[whole..fraction] == [s[whole]] + s[whole + 1..fraction];
    } else {
      f, fraction := None, whole;
    }
  }

  lemma {:induction false} ExponentFound(s: string, i: nat) returns (x: Option<Exponent>)
    requires i <= |s|
    ensures ExponentText(x) == s[i..ExponentEnd(s, i)] && (x.Some? ==> ProperExponent(x.value))
  {
    var end := ExponentEnd(s, i);
    if end == i {
      x := None;
    } else {
      var start := SignEnd(s, i + 1);
      DigitsBetween(s, start);
      x := Some(Exponent(s[i], s[i + 1..start], s[start..end]));
      assert s[i..end] == [s[i]] + s[i + 1..start] + s[start..end];
    }
  }

  lemma {:induction false} NumeralFound(s: string) returns (n: Numeral)
    requires s != [] && (s[0] == '-' || IsDigit(s[0])) && NumeralEnd(s) > 0
    ensures IsNumeral(n) && NumeralText(n) == s[..NumeralEnd(s)]
  {
    var start := SignEnd(s, 0);
    var whole := DigitsEnd(s, start);
    var f, fraction := FractionFound(s, whole);
    var x := ExponentFound(s, fraction);
    DigitsBetween(s, start);
    n := Numeral(s[0] == '-', s[start..whole], f, x);
    var end := ExponentEnd(s, fraction);
    Pieces(s, start, whole, fraction, end);
    NumeralJoins(s, start, whole, fraction, end, n);
    PartsProper(s, start, whole, fraction, n);
  }

  lemma {:induction false} Pieces(s: string, start: nat, whole: nat, fraction: nat, end: nat)
    requires start <= whole <= fraction <= end <= |s|
    ensures s[..end] == s[..start] + s[start..whole] + s[whole..fraction] + s[fraction..end]
  {
  }

  lemma {:induction false} NumeralJoins(s: string, start: nat, whole: nat, fraction: nat, end: nat, n: Numeral)
    requires s != [] && start <= whole <= fraction <= end <= |s| && start == (if n.minus then 1 else 0)
    requires n.minus <==> s[0] == '-'
    requires s[..end] == s[..start] + s[start..whole] + s[whole..fraction] + s[fraction..end]
    requires n.whole == s[start..whole] && FractionText(n.fraction) == s[whole..fraction]
    requires ExponentText(n.exponent) == s[fraction..end]
    ensures NumeralText(n) == s[..end]
  {
    assert s[..start] == if n.minus then "-" else "";
  }

  lemma {:induction false} PartsProper(s: string, start: nat, whole: nat, fraction: nat, n: Numeral)
    requires s != [] && (s[0] == '-' || IsDigit(s[0])) && start == SignEnd(s, 0) && whole == DigitsEnd(s, start)
    requires fraction == (if whole < |s| && s[whole] == '.' then DigitsEnd(s, whole + 1) else whole)
    requires NumeralEnd(s) > 0 && (n.minus <==> s[0] == '-') && n.whole == s[start..whole]
    requires (n.fraction.None? <==> fraction == whole) &&
             (n.fraction.Some? ==> |n.fraction.value| == fraction - whole - 1)
    ensures n.minus || n.whole != []
    ensures n.whole != [] || (n.fraction.Some? && n.fraction.value != [])
  {
  }

  lemma {:induction false} TokenStands(c: string, at: nat, room: nat)
    requires at <= |c|
    ensures At(c, at, NumberToken(c, at, room))
    decreases |c| - at
  {
    var t := NumberToken(c, at, room);
    if t != [] {
      TokenStands(c, at + 1, room - 1);
      assert c[at..at + 1] == [c[at]];
      AtSplit(c, at, [c[at]], t[1..]);
    }
  }

  lemma {:induction false} PrefixStands(c: string, at: nat, t: string, end: nat)
    requires At(c, at, t) && end <= |t|
    ensures At(c, at, t[..end])
  {
    assert t == t[..end] + t[end..];
    AtSplit(c, at, t[..end], t[end..]);
  }

  lemma {:induction false} NumberAccepted(c: string, at: nat, strtod: string -> int) returns (n: Numeral)
    requires at < |c| && (c[at] == '-' || IsDigit(c[at])) && ParseNumber(c, at, strtod).Done?
    ensures ProperNumeral(n) && At(c, at, NumeralText(n))
    ensures ParseNumber(c, at, strtod) == Done(Number(NumeralValue(n, strtod)), at + |NumeralText(n)|)
  {
    var token := NumberToken(c, at, NUMBER_ROOM);
    TokenStands(c, at, NUMBER_ROOM);
    assert token != [] && token[0] == c[at];
    n := NumeralFound(token);
    var t := NumeralText(n);
    PrefixStands(c, at, token, NumeralEnd(token));
    NumeralSyntax(n, t);
    NumeralValueIs(n, t, strtod);
  }

  // ----- white space

  lemma {:induction false} WhiteFound(c: string, p: nat) returns (w: string)
    requires p <= |c|
    ensures White(w) && At(c, p, w) && SkipSpace(c, p) == p + |w|
  {
    var q := SkipSpace(c, p);
    SpacesUpTo(c, p);
    w := c[p..q];
    AtSlice(c, p, w);
  }

  lemma {:induction false} SpacesUpTo(c: string, p: nat)
    requires p <= |c|
    ensures forall k :: p <= k < SpaceEnd(c, p) ==> c[k] as int <= 32
    decreases |c| - p
  {
    if p < |c| && IsSpace(c[p]) { SpacesUpTo(c, p + 1); }
  }

  // ----- values

  lemma {:induction false} ValueAccepted(c: string, at: nat, depth: nat, strtod: string -> int) returns (s: Syntax)
    requires at <= |c| && ParseValue(c, at, depth, strtod).Done?
    ensures Proper(s) && At(c, at, Spelled(s))
    ensures ParseValue(c, at, depth, strtod) == Done(Tree(s, strtod), at + |Spelled(s)|)
    decreases |c| - at, 4
  {
    if At(c, at, "null") {
      s := Word(Null);
    } else if At(c, at, "false") {
      s := Word(False);
    } else if At(c, at, "true") {
      s := Word(True);
    } else if c[at] == '"' {
      var body := ReadThere(c, at);
      s := Lit(body, ParseString(c, at).value);
    } else if c[at] == '-' || IsDigit(c[at]) {
      var n := NumberAccepted(c, at, strtod);
      s := Num(n);
    } else if c[at] == '[' {
      s := ArrayAccepted(c, at, at + 1, depth, depth + 1, strtod, ParseArray(c, at, depth, strtod));
    } else {
      s := ObjectAccepted(c, at, at + 1, depth, depth + 1, strtod, ParseObject(c, at, depth, strtod));
    }
  }

  lemma {:induction false} OneChar(c: string, p: nat, x: char)
    requires p < |c| && c[p] == x
    ensures At(c, p, [x])
  {
    AtSlice(c, p, [x]);
    assert c[p..p + 1] == [x];
  }

  lemma {:induction false} Glue3(c: string, p: nat, a: string, b: string, d: string)
    requires At(c, p, a) && At(c, p + |a|, b) && At(c, p + |a| + |b|, d)
    ensures At(c, p, a + b + d)
  {
    AtSplit(c, p, a, b);
    AtSplit(c, p, a + b, d);
  }

  // ----- arrays

  lemma {:induction false} ArrayAccepted(c: string, at: nat, p: nat, depth: nat, inner: nat, strtod: string -> int,
      r: Parsed<JSON>) returns (s: Syntax)
    requires at < |c| && c[at] == '[' && p == at + 1 && inner == depth + 1 && r == ParseArray(c, at, depth, strtod)
    requires r.Done?
    ensures Proper(s) && At(c, at, Spelled(s)) && r == Done(Tree(s, strtod), at + |Spelled(s)|)
    decreases |c| - at, 3
  {
    var w := WhiteFound(c, p);
    var q := p + |w|;
    OneChar(c, at, '[');
    ArrayNeeds(c, at, p, q, depth, inner, strtod, r);
    if c[q] == ']' {
      OneChar(c, q, ']');
      Glue3(c, at, "[", w, "]");
      s := Arr([], w);
    } else {
      var es := ItemsAccepted(c, p, inner, strtod);
      Enclosed(c, at, p, "[", SpelledItems(es), "]");
      s := Arr(es, []);
    }
  }

  /** What parse_array goes through when it succeeds. */
  lemma {:induction false} ArrayNeeds(c: string, at: nat, p: nat, q: nat, depth: nat, inner: nat,
      strtod: string -> int, r: Parsed<JSON>)
    requires at < |c| && p == at + 1 && SkipSpace(c, p) == q && inner == depth + 1
    requires r == ParseArray(c, at, depth, strtod) && r.Done?
    ensures q < |c| && (c[q] == ']' ==> r == Done(Array([]), q + 1))
    ensures c[q] != ']' ==>
              var items := ParseItems(c, p, inner, strtod);
              items.Done? && r == Done(Array(items.value), items.offset)
  {
    if c[q] != ']' {
      StartSkips(c, p, q, inner, strtod);
      ArrayIs(c, at, p, q, depth, inner, strtod);
    }
  }

  lemma {:induction false} Enclosed(c: string, at: nat, p: nat, open: string, inner: string, close: string)
    requires At(c, at, open) && |open| == 1 && p == at + 1 && At(c, p, inner + close)
    ensures At(c, at, open + inner + close)
  {
    AtSplit(c, at, open, inner + close);
    Regroup(open, inner, close);
  }

  /** Where a value starts there is no white space. */
  lemma {:induction false} StartSkips(c: string, p: nat, q: nat, depth: nat, strtod: string -> int)
    requires p <= |c| && SkipSpace(c, p) == q < |c| && ParseItems(c, q, depth, strtod).Done?
    ensures SkipSpace(c, q) == q
  {
    if IsSpace(c[q]) { SpaceStays(c, p, q); }
  }

  lemma {:induction false} SpaceStays(c: string, p: nat, q: nat)
    requires p <= |c| && SkipSpace(c, p) == q < |c| && IsSpace(c[q])
    ensures q == |c| - 1 && SkipSpace(c, q) == q
  {
    SpaceEndStops(c, p);
    assert SpaceEnd(c, q) == SpaceEnd(c, q + 1);
  }

  lemma {:induction false} SpaceEndStops(c: string, p: nat)
    requires p <= |c|
    ensures SpaceEnd(c, p) < |c| ==> !IsSpace(c[SpaceEnd(c, p)])
    decreases |c| - p
  {
    if p < |c| && IsSpace(c[p]) { SpaceEndStops(c, p + 1); }
  }

  /** Elements and the closing bracket stand at p, and this is what the loop returns for them. */
  ghost predicate ItemsStand(c: string, p: nat, es: seq<Element>, r: Parsed<seq<JSON>>, strtod: string -> int) {
    es != [] && ProperItems(es) && At(c, p, SpelledItems(es) + "]") &&
    r == Done(TreeItems(es, strtod), p + |SpelledItems(es)| + 1)
  }

  /** One element stands at p, and its value is read from q to e. */
  ghost predicate ItemStands(c: string, p: nat, q: nat, e: nat, sep: nat, x: Element, r: Parsed<JSON>,
      strtod: string -> int)
  {
    White(x.before) && Proper(x.value) && White(x.after) && At(c, p, x.before) && q == p + |x.before| &&
    SkipSpace(c, p) == q && At(c, q, Spelled(x.value)) && e == q + |Spelled(x.value)| <= |c| &&
    r == Done(Tree(x.value, strtod), e) && At(c, e, x.after) && sep == e + |x.after| && SkipSpace(c, e) == sep < |c|
  }

  lemma {:induction false} ItemsAccepted(c: string, p: nat, depth: nat, strtod: string -> int)
    returns (es: seq<Element>)
    requires p <= |c| && ParseItems(c, p, depth, strtod).Done?
    ensures ItemsStand(c, p, es, ParseItems(c, p, depth, strtod), strtod)
    decreases |c| - p, 6
  {
    var before := WhiteFound(c, p);
    var q := p + |before|;
    var e, sep, next := ItemNeeds(c, p, q, depth, strtod);
    var x := ItemAccepted(c, p, q, e, sep, before, depth, strtod, ParseValue(c, q, depth, strtod));
    if c[sep] == ',' {
      var rest := ItemsAccepted(c, next, depth, strtod);
      es := MoreItems(c, p, q, e, sep, next, x, rest, depth, strtod);
    } else {
      es := LastItem(c, p, q, e, sep, x, depth, strtod);
    }
  }

  lemma {:induction false} ItemAccepted(c: string, p: nat, q: nat, e: nat, sep: nat, before: string, depth: nat,
      strtod: string -> int, r: Parsed<JSON>) returns (x: Element)
    requires White(before) && At(c, p, before) && q == p + |before| && SkipSpace(c, p) == q <= |c|
    requires r == ParseValue(c, q, depth, strtod) && r.Done? && r.offset == e <= |c| && SkipSpace(c, e) == sep < |c|
    ensures ItemStands(c, p, q, e, sep, x, r, strtod)
    decreases |c| - p, 5
  {
    var s := ValueAccepted(c, q, depth, strtod);
    var after := WhiteFound(c, e);
    x := Element(before, s, after);
  }

  /** What the loop goes through when it succeeds. */
  lemma {:induction false} ItemNeeds(c: string, p: nat, q: nat, depth: nat, strtod: string -> int)
    returns (e: nat, sep: nat, next: nat)
    requires p <= |c| && ParseItems(c, p, depth, strtod).Done? && SkipSpace(c, p) == q
    ensures ParseValue(c, q, depth, strtod).Done? && ParseValue(c, q, depth, strtod).offset == e <= |c|
    ensures SkipSpace(c, e) == sep < |c| && p < sep && next == sep + 1
    ensures c[sep] == ']' || (c[sep] == ',' && ParseItems(c, next, depth, strtod).Done?)
  {
    e := ParseValue(c, q, depth, strtod).offset;
    sep := SkipSpace(c, e);
    next := sep + 1;
  }

  lemma {:induction false} LastItem(c: string, p: nat, q: nat, e: nat, sep: nat, x: Element, depth: nat,
      strtod: string -> int) returns (es: seq<Element>)
    requires p <= |c| && q <= |c| && ItemStands(c, p, q, e, sep, x, ParseValue(c, q, depth, strtod), strtod) &&
             c[sep] == ']'
    ensures ItemsStand(c, p, es, ParseItems(c, p, depth, strtod), strtod)
  {
    es := [x];
    assert es[1..] == [];
    var t := x.before + Spelled(x.value) + x.after;
    Glue3(c, p, x.before, Spelled(x.value), x.after);
    OneChar(c, sep, ']');
    assert SpelledItems(es) == t by { assert t + [] == t; }
    AtSplit(c, p, t, "]");
    assert TreeItems(es, strtod) == [Tree(x.value, strtod)];
    LastItemIs(c, p, q, e, sep, Tree(x.value, strtod), depth, strtod);
  }

  lemma {:induction false} MoreItems(c: string, p: nat, q: nat, e: nat, sep: nat, next: nat, x: Element,
      rest: seq<Element>, depth: nat, strtod: string -> int) returns (es: seq<Element>)
    requires p <= |c| && q <= |c| && ItemStands(c, p, q, e, sep, x, ParseValue(c, q, depth, strtod), strtod) &&
             c[sep] == ','
    requires next == sep + 1 && ItemsStand(c, next, rest, ParseItems(c, next, depth, strtod), strtod)
    ensures ItemsStand(c, p, es, ParseItems(c, p, depth, strtod), strtod)
  {
    var r := ParseItems(c, next, depth, strtod);
    MoreItemIs(c, p, q, e, sep, next, Tree(x.value, strtod), depth, strtod, r);
    es := MoreStand(c, p, q, e, sep, next, x, rest, strtod, ParseValue(c, q, depth, strtod), r);
  }

  lemma {:induction false} MoreStand(c: string, p: nat, q: nat, e: nat, sep: nat, next: nat, x: Element,
      rest: seq<Element>, strtod: string -> int, first: Parsed<JSON>, r: Parsed<seq<JSON>>)
    returns (es: seq<Element>)
    requires ItemStands(c, p, q, e, sep, x, first, strtod) && c[sep] == ',' && next == sep + 1
    requires ItemsStand(c, next, rest, r, strtod)
    ensures ItemsStand(c, p, es, Done([Tree(x.value, strtod)] + r.value, r.offset), strtod)
  {
    es := [x] + rest;
    var t, inner := x.before + Spelled(x.value) + x.after, SpelledItems(rest);
    Glue3(c, p, x.before, Spelled(x.value), x.after);
    OneChar(c, sep, ',');
    JoinText(c, p, sep, t, inner, "]");
    ItemsCons(x, rest, es, strtod);
  }

  lemma {:induction false} JoinText(c: string, p: nat, sep: nat, t: string, inner: string, close: string)
    requires At(c, p, t) && sep == p + |t| && At(c, sep, ",") && At(c, sep + 1, inner + close)
    ensures At(c, p, (t + ("," + inner)) + close)
  {
    AtSplit(c, sep, ",", inner + close);
    AtSplit(c, p, t, "," + (inner + close));
    assert t + ("," + (inner + close)) == (t + ("," + inner)) + close;
  }

  lemma {:induction false} ItemsCons(x: Element, rest: seq<Element>, es: seq<Element>, strtod: string -> int)
    requires es == [x] + rest && rest != [] && White(x.before) && Proper(x.value) && White(x.after) && ProperItems(rest)
    ensures ProperItems(es) && TreeItems(es, strtod) == [Tree(x.value, strtod)] + TreeItems(rest, strtod)
    ensures SpelledItems(es) == (x.before + Spelled(x.value) + x.after) + ("," + SpelledItems(rest))
  {
    assert es[1..] == rest;
  }

  // ----- objects

  lemma {:induction false} ObjectAccepted(c: string, at: nat, p: nat, depth: nat, inner: nat, strtod: string -> int,
      r: Parsed<JSON>) returns (s: Syntax)
    requires at < |c| && c[at] == '{' && p == at + 1 && inner == depth + 1 && r == ParseObject(c, at, depth, strtod)
    requires r.Done?
    ensures Proper(s) && At(c, at, Spelled(s)) && r == Done(Tree(s, strtod), at + |Spelled(s)|)
    decreases |c| - at, 3
  {
    var w := WhiteFound(c, p);
    var q := p + |w|;
    OneChar(c, at, '{');
    ObjectNeeds(c, at, p, q, depth, inner, strtod, r);
    if c[q] == '}' {
      OneChar(c, q, '}');
      Glue3(c, at, "{", w, "}");
      s := Obj([], w);
    } else {
      var es := MembersAccepted(c, at, p, inner, strtod);
      Enclosed(c, at, p, "{", SpelledMembers(es), "}");
      s := Obj(es, []);
    }
  }

  /** What parse_object goes through when it succeeds. */
  lemma {:induction false} ObjectNeeds(c: string, at: nat, p: nat, q: nat, depth: nat, inner: nat,
      strtod: string -> int, r: Parsed<JSON>)
    requires at < |c| && p == at + 1 && SkipSpace(c, p) == q && inner == depth + 1
    requires r == ParseObject(c, at, depth, strtod) && r.Done?
    ensures q < |c| && (c[q] == '}' ==> r == Done(Object([]), q + 1))
    ensures c[q] != '}' ==>
              var members := ParseMembers(c, at, inner, strtod);
              members.Done? && r == Done(Object(members.value), members.offset)
  {
    if c[q] != '}' {
      NameStarts(c, p, q, inner, strtod);
      ObjectIs(c, at, p, q, depth, inner, strtod);
    }
  }

  lemma {:induction false} NameStarts(c: string, p: nat, q: nat, depth: nat, strtod: string -> int)
    requires 0 < p <= |c| && SkipSpace(c, p) == q < |c| && ParseMembers(c, q - 1, depth, strtod).Done?
    ensures SkipSpace(c, q) == q
  {
    if IsSpace(c[q]) { SpaceStays(c, p, q); }
  }

  lemma {:induction false} NameAccepted(c: string, at: nat, p: nat)
    returns (before: string, body: string, gap: string, lead: string, colon: nat)
    requires at < |c| && p == at + 1 && ReadName(c, at).Done?
    ensures White(before) && White(gap) && White(lead) && Reads(body, ReadName(c, at).value)
    ensures At(c, p, before + InQuotes(body) + gap) && colon == p + |before + InQuotes(body) + gap|
    ensures colon < |c| && At(c, colon, ":" + lead) && ReadName(c, at).offset == colon + |":" + lead|
  {
    before := WhiteFound(c, p);
    var key := p + |before|;
    var e, value;
    e, colon, value := NameNeeds(c, at, p, key);
    body := ReadThere(c, key);
    gap := WhiteFound(c, e);
    Glue3(c, p, before, InQuotes(body), gap);
    lead := WhiteFound(c, colon + 1);
    ColonStands(c, colon, lead);
  }

  /** What the reading of a name goes through when it succeeds. */
  lemma {:induction false} NameNeeds(c: string, at: nat, p: nat, key: nat) returns (e: nat, colon: nat, value: nat)
    requires at < |c| && p == at + 1 && ReadName(c, at).Done? && SkipSpace(c, p) == key
    ensures key < |c| && ParseString(c, key) == Done(ReadName(c, at).value, e) && e <= |c|
    ensures SkipSpace(c, e) == colon < |c| && c[colon] == ':' && SkipSpace(c, colon + 1) == value
    ensures ReadName(c, at).offset == value
  {
    e := ParseString(c, key).offset;
    colon := SkipSpace(c, e);
    value := SkipSpace(c, colon + 1);
  }

  lemma {:induction false} ColonStands(c: string, colon: nat, lead: string)
    requires colon < |c| && c[colon] == ':' && At(c, colon + 1, lead)
    ensures At(c, colon, ":" + lead)
  {
    OneChar(c, colon, ':');
    AtSplit(c, colon, ":", lead);
  }

  /** Members and the closing brace stand at p, and this is what the loop returns for them. */
  ghost predicate MembersStand(c: string, p: nat, es: seq<Entry>, r: Parsed<seq<Member>>, strtod: string -> int) {
    es != [] && ProperMembers(es) && At(c, p, SpelledMembers(es) + "}") &&
    r == Done(TreeMembers(es, strtod), p + |SpelledMembers(es)| + 1)
  }

  ghost predicate MemberStands(c: string, p: nat, sep: nat, x: Entry, t: string, r: Parsed<Member>,
      strtod: string -> int)
  {
    ProperEntry(x) && At(c, p, t) && sep == p + |t| && sep < |c| &&
    t == x.before + InQuotes(x.body) + x.gap + ":" + x.lead + Spelled(x.value) + x.after &&
    r == Done(Member(x.key, Tree(x.value, strtod)), sep)
  }

  lemma {:induction false} MembersAccepted(c: string, at: nat, p: nat, depth: nat, strtod: string -> int)
    returns (es: seq<Entry>)
    requires at < |c| && p == at + 1 && ParseMembers(c, at, depth, strtod).Done?
    ensures MembersStand(c, p, es, ParseMembers(c, at, depth, strtod), strtod)
    decreases |c| - at, 2
  {
    var x, t, sep, next := MemberAccepted(c, at, p, depth, strtod);
    if c[sep] == ',' {
      var rest := MembersAccepted(c, sep, next, depth, strtod);
      es := MoreMembers(c, at, p, sep, next, t, x, rest, depth, strtod);
    } else {
      es := LastMember(c, at, p, sep, t, x, depth, strtod);
    }
  }

  lemma {:induction false} MemberAccepted(c: string, at: nat, p: nat, depth: nat, strtod: string -> int)
    returns (x: Entry, t: string, sep: nat, next: nat)
    requires at < |c| && p == at + 1 && ParseMembers(c, at, depth, strtod).Done?
    ensures MemberStands(c, p, sep, x, t, ReadMember(c, at, depth, strtod), strtod) && next == sep + 1
    ensures at < sep < |c| && (c[sep] == '}' || (c[sep] == ',' && ParseMembers(c, sep, depth, strtod).Done?))
    decreases |c| - at, 1
  {
    var value, e;
    value, e, sep := MemberNeeds(c, at, depth, strtod);
    next := sep + 1;
    var before, body, gap, lead, colon := NameAccepted(c, at, p);
    var s := ValueAccepted(c, value, depth, strtod);
    var after := WhiteFound(c, e);
    x := Entry(before, body, ReadName(c, at).value, gap, lead, s, after);
    t := EntryStands(c, p, colon, value, e, sep, x);
  }

  /** What the loop goes through when it succeeds. */
  lemma {:induction false} MemberNeeds(c: string, at: nat, depth: nat, strtod: string -> int)
    returns (value: nat, e: nat, sep: nat)
    requires at < |c| && ParseMembers(c, at, depth, strtod).Done?
    ensures ReadName(c, at).Done? && ReadName(c, at).offset == value <= |c| && at < value
    ensures ParseValue(c, value, depth, strtod).Done? && ParseValue(c, value, depth, strtod).offset == e <= |c|
    ensures SkipSpace(c, e) == sep < |c| && at < sep
    ensures ReadMember(c, at, depth, strtod) ==
            Done(Member(ReadName(c, at).value, ParseValue(c, value, depth, strtod).value), sep)
    ensures c[sep] == '}' || (c[sep] == ',' && ParseMembers(c, sep, depth, strtod).Done?)
  {
    value := ReadName(c, at).offset;
    e := ParseValue(c, value, depth, strtod).offset;
    sep := SkipSpace(c, e);
  }

  /** The text of one member. */
  lemma {:induction false} EntryStands(c: string, p: nat, colon: nat, value: nat, e: nat, sep: nat, x: Entry)
    returns (t: string)
    requires At(c, p, x.before + InQuotes(x.body) + x.gap) && colon == p + |x.before + InQuotes(x.body) + x.gap|
    requires At(c, colon, ":" + x.lead) && value == colon + |":" + x.lead|
    requires At(c, value, Spelled(x.value)) && e == value + |Spelled(x.value)| && At(c, e, x.after)
    requires sep == e + |x.after|
    ensures t == x.before + InQuotes(x.body) + x.gap + ":" + x.lead + Spelled(x.value) + x.after
    ensures At(c, p, t) && sep == p + |t|
  {
    var name, mid := x.before + InQuotes(x.body) + x.gap, ":" + x.lead;
    Glue3(c, p, name, mid, Spelled(x.value));
    AtSplit(c, p, name + mid + Spelled(x.value), x.after);
    t := name + mid + Spelled(x.value) + x.after;
    assert name + mid == name + ":" + x.lead;
  }

  predicate ProperEntry(x: Entry) {
    White(x.before) && Reads(x.body, x.key) && White(x.gap) && White(x.lead) && Proper(x.value) && White(x.after)
  }

  lemma {:induction false} LastMember(c: string, at: nat, p: nat, sep: nat, t: string, x: Entry, depth: nat,
      strtod: string -> int) returns (es: seq<Entry>)
    requires at < |c| && p == at + 1 && MemberStands(c, p, sep, x, t, ReadMember(c, at, depth, strtod), strtod)
    requires c[sep] == '}'
    ensures MembersStand(c, p, es, ParseMembers(c, at, depth, strtod), strtod)
  {
    es := [x];
    assert es[1..] == [];
    OneChar(c, sep, '}');
    assert SpelledMembers(es) == t by { assert t + [] == t; }
    AtSplit(c, p, t, "}");
    var m := Member(x.key, Tree(x.value, strtod));
    assert TreeMembers(es, strtod) == [m];
    MemberIs(c, at, sep, m, depth, strtod);
  }

  lemma {:induction false} MoreMembers(c: string, at: nat, p: nat, sep: nat, next: nat, t: string, x: Entry,
      rest: seq<Entry>, depth: nat, strtod: string -> int) returns (es: seq<Entry>)
    requires at < |c| && p == at + 1 && MemberStands(c, p, sep, x, t, ReadMember(c, at, depth, strtod), strtod)
    requires c[sep] == ',' && next == sep + 1 &&
             MembersStand(c, next, rest, ParseMembers(c, sep, depth, strtod), strtod)
    ensures MembersStand(c, p, es, ParseMembers(c, at, depth, strtod), strtod)
  {
    MemberIs(c, at, sep, Member(x.key, Tree(x.value, strtod)), depth, strtod);
    es := MoreMembersStand(c, p, sep, next, t, x, rest, strtod, ReadMember(c, at, depth, strtod),
      ParseMembers(c, sep, depth, strtod));
  }

  lemma {:induction false} MoreMembersStand(c: string, p: nat, sep: nat, next: nat, t: string, x: Entry,
      rest: seq<Entry>, strtod: string -> int, first: Parsed<Member>, r: Parsed<seq<Member>>)
    returns (es: seq<Entry>)
    requires MemberStands(c, p, sep, x, t, first, strtod) && c[sep] == ',' && next == sep + 1
    requires MembersStand(c, next, rest, r, strtod)
    ensures MembersStand(c, p, es, Done([first.value] + r.value, r.offset), strtod)
  {
    es := [x] + rest;
    OneChar(c, sep, ',');
    JoinText(c, p, sep, t, SpelledMembers(rest), "}");
    MembersCons(x, rest, es, t, strtod);
  }

  lemma {:induction false} MembersCons(x: Entry, rest: seq<Entry>, es: seq<Entry>, t: string, strtod: string -> int)
    requires es == [x] + rest && rest != [] && ProperEntry(x) && ProperMembers(rest)
    requires t == x.before + InQuotes(x.body) + x.gap + ":" + x.lead + Spelled(x.value) + x.after
    ensures ProperMembers(es) && SpelledMembers(es) == t + ("," + SpelledMembers(rest))
    ensures TreeMembers(es, strtod) == [Member(x.key, Tree(x.value, strtod))] + TreeMembers(rest, strtod)
  {
    assert es[1..] == rest;
  }

  // ----- whole buffers

  /** What is accepted of a buffer: a byte order mark perhaps, white space, the spelled document
      and, where the terminator is asked for, white space up to it. */
  lemma {:induction false} TextAccepted(c: string, requireNul: bool, strtod: string -> int)
    returns (bom: bool, before: string, s: Syntax, after: string)
    requires Parse(c, requireNul, strtod).Done?
    ensures Proper(s) && White(before) && White(after)
    ensures var text := (if bom then BOM else "") + before + Spelled(s) + after;
            At(c, 0, text) && Parse(c, requireNul, strtod) == Done(Tree(s, strtod), |text|) &&
            if requireNul then |text| < |c| && c[|text|] == NUL else after == ""
  {
    bom := |c| > 4 && At(c, 0, BOM);
    var mark, at, e := if bom then BOM else "", 0, 0;
    before, at := MarkedWhite(c, mark);
    ParseIs(c, requireNul, mark, at, strtod);
    s, e := RootAccepted(c, mark, before, at, strtod, ParseValue(c, at, 0, strtod));
    after := TailAccepted(c, requireNul, mark + before + Spelled(s), e);
  }

  lemma {:induction false} MarkedWhite(c: string, mark: string) returns (before: string, at: nat)
    requires mark == "" || At(c, 0, mark)
    ensures White(before) && At(c, 0, mark) && |mark| <= |c| && At(c, |mark|, before)
    ensures at == |mark| + |before| && SkipSpace(c, |mark|) == at <= |c|
  {
    if mark == "" { AtSlice(c, 0, ""); }
    before := WhiteFound(c, |mark|);
    at := |mark| + |before|;
  }

  lemma {:induction false} RootAccepted(c: string, mark: string, before: string, at: nat, strtod: string -> int,
      r: Parsed<JSON>) returns (s: Syntax, e: nat)
    requires At(c, 0, mark) && At(c, |mark|, before) && at == |mark| + |before| <= |c|
    requires r == ParseValue(c, at, 0, strtod) && r.Done?
    ensures Proper(s) && At(c, 0, mark + before + Spelled(s)) && e == |mark + before + Spelled(s)| <= |c|
    ensures r == Done(Tree(s, strtod), e)
  {
    s := ValueAccepted(c, at, 0, strtod);
    e := RootText(c, mark, before, at, Spelled(s));
  }

  lemma {:induction false} RootText(c: string, mark: string, before: string, at: nat, t: string) returns (e: nat)
    requires At(c, 0, mark) && At(c, |mark|, before) && at == |mark| + |before| && At(c, at, t)
    ensures At(c, 0, mark + before + t) && e == at + |t| == |mark + before + t| <= |c|
  {
    e := at + |t|;
    Glue3(c, 0, mark, before, t);
  }

  lemma {:induction false} TailAccepted(c: string, requireNul: bool, text: string, e: nat) returns (after: string)
    requires At(c, 0, text) && e == |text| <= |c|
    ensures White(after) && At(c, 0, text + after)
    ensures |text + after| == if requireNul then SkipSpace(c, e) else e
    ensures !requireNul ==> after == ""
  {
    if requireNul {
      after := WhiteFound(c, e);
      AtSplit(c, 0, text, after);
    } else {
      after := "";
      assert text + "" == text;
    }
  }

  /** What the entry point goes through when it succeeds. */
  lemma {:induction false} ParseIs(c: string, requireNul: bool, mark: string, at: nat, strtod: string -> int)
    requires Parse(c, requireNul, strtod).Done? && mark == (if |c| > 4 && At(c, 0, BOM) then BOM else "")
    requires |mark| <= |c| && SkipSpace(c, |mark|) == at
    ensures at <= |c| && ParseValue(c, at, 0, strtod).Done?
    ensures var r := ParseValue(c, at, 0, strtod);
            Parse(c, requireNul, strtod) == Done(r.value, if requireNul then SkipSpace(c, r.offset) else r.offset) &&
            (requireNul ==> SkipSpace(c, r.offset) < |c| && c[SkipSpace(c, r.offset)] == NUL)
  {
  }
}
