/** Printed documents are parsed back. */
module ParseRender {
  // A printed document is a properly spelled text, so that ParseSyntax says what is read from it.

  import opened Json
  import opened Numbers
  import opened Parser
  import opened ParseSyntax
  import opened Printing
  import opened StringLiteral
  import opened StringMeaning
  import opened Syntax
  import opened Text

  /** Only white space of RFC 8259, and literals as they are printed. */
  predicate AsPrinted(s: Syntax)
    decreases s, 1
  {
    match s
    case Word(j) => j.Null? || j.False? || j.True?
    case Num(n) => ProperNumeral(n)
    case Lit(body, value) => body == Escape(value) && NulFree(value)
    case Arr(items, blank) => Blank(blank) && ItemsAsPrinted(items)
    case Obj(members, blank) => Blank(blank) && MembersAsPrinted(members)
  }

  predicate ItemsAsPrinted(es: seq<Element>)
    decreases es, 0
  {
    es == [] || (Blank(es[0].before) && AsPrinted(es[0].value) && Blank(es[0].after) && ItemsAsPrinted(es[1..]))
  }

  predicate EntryAsPrinted(x: Entry)
    decreases x.value, 2
  {
    Blank(x.before) && x.body == Escape(x.key) && NulFree(x.key) && Blank(x.gap) && Blank(x.lead) &&
    AsPrinted(x.value) && Blank(x.after)
  }

  predicate MembersAsPrinted(es: seq<Entry>)
    decreases es, 0
  {
    es == [] || (EntryAsPrinted(es[0]) && MembersAsPrinted(es[1..]))
  }

  lemma {:induction false} NumeralSpelling(n: int, strtod: string -> int) returns (s: Syntax)
    requires IsInt(n)
    ensures s.Num? && AsPrinted(s) && Spelled(s) == Signed(n) && Tree(s, strtod) == Number(n)
  {
    var m := if n < 0 then -n else n;
    s := Num(Numeral(n < 0, Decimal(m), None, None));
    DecimalSpelling(n, m, s.numeral, strtod);
  }

  lemma {:induction false} DecimalSpelling(n: int, m: nat, numeral: Numeral, strtod: string -> int)
    requires IsInt(n) && m == (if n < 0 then -n else n) && numeral == Numeral(n < 0, Decimal(m), None, None)
    ensures ProperNumeral(numeral) && NumeralText(numeral) == Signed(n) && NumeralValue(numeral, strtod) == n
  {
    DecimalDigits(m);
    NaturalDecimal(m);
    SignedLength(n);
    assert NumeralText(numeral) == Signed(n) + "" + "";
  }

  lemma {:induction false} EscapeReads(t: string)
    requires NulFree(t)
    ensures Reads(Escape(t), t)
  {
    var q := Quoted(t);
    AtSlice(q, 0, q);
    assert q[0..|q|] == q;
    StringRoundTrip(q, 0, t);
  }

  lemma {:induction false} BlankIsWhite(w: string)
    requires Blank(w)
    ensures White(w)
  {
  }

  /** The parser of cJSON reads such a spelling. */
  lemma {:induction false} PrintedIsProper(s: Syntax)
    requires AsPrinted(s)
    ensures Proper(s)
    decreases s, 1
  {
    match s
    case Lit(_, value) => EscapeReads(value);
    case Arr(items, blank) =>
      BlankIsWhite(blank);
      ItemsProper(items);
    case Obj(members, blank) =>
      BlankIsWhite(blank);
      MembersProper(members);
    case _ =>
  }

  lemma {:induction false} ItemsProper(es: seq<Element>)
    requires ItemsAsPrinted(es)
    ensures ProperItems(es)
    decreases es, 0
  {
    if es != [] {
      BlankIsWhite(es[0].before);
      BlankIsWhite(es[0].after);
      PrintedIsProper(es[0].value);
      ItemsProper(es[1..]);
    }
  }

  lemma {:induction false} MembersProper(es: seq<Entry>)
    requires MembersAsPrinted(es)
    ensures ProperMembers(es)
    decreases es, 0
  {
    if es != [] {
      BlankIsWhite(es[0].before);
      EscapeReads(es[0].key);
      BlankIsWhite(es[0].gap);
      BlankIsWhite(es[0].lead);
      PrintedIsProper(es[0].value);
      BlankIsWhite(es[0].after);
      MembersProper(es[1..]);
    }
  }

  /** A printed document is a text that spells it. */
  lemma {:induction false} PrintedSpelling(j: JSON, fmt: bool, d: nat, strtod: string -> int) returns (s: Syntax)
    requires Printable(j)
    ensures AsPrinted(s) && Spelled(s) == Render(j, fmt, d) && Tree(s, strtod) == j
    ensures s.Num? <==> j.Number?
    decreases j, 1
  {
    match j
    case Number(n) => s := NumeralSpelling(n, strtod);
    case Str(t) => s := Lit(Escape(t), t);
    case Array(items) => s := ArraySpelling(items, fmt, d + 1, strtod, Render(j, fmt, d));
    case Object(members) => s := ObjectSpelling(members, fmt, d, d + 1, strtod, Render(j, fmt, d));
    case _ => s := Word(j);
  }

  lemma {:induction false} ArraySpelling(items: seq<JSON>, fmt: bool, d: nat, strtod: string -> int, text: string)
    returns (s: Syntax)
    requires Printable(Array(items)) && text == "[" + RenderItems(items, fmt, d) + "]"
    ensures s.Arr? && AsPrinted(s) && Spelled(s) == text && Tree(s, strtod) == Array(items)
    decreases items, 1
  {
    var es := ItemsSpelling(items, "", fmt, d, strtod);
    s := Arr(es, "");
    assert "" + RenderItems(items, fmt, d) == RenderItems(items, fmt, d);
  }

  /** Elements with white space in front of the first one; in front of the others is a blank in a
      formatted print. */
  lemma {:induction false} ItemsSpelling(items: seq<JSON>, before: string, fmt: bool, d: nat, strtod: string -> int)
    returns (es: seq<Element>)
    requires Printable(Array(items)) && Blank(before)
    ensures ItemsAsPrinted(es) && |es| == |items| && TreeItems(es, strtod) == items
    ensures items != [] ==> SpelledItems(es) == before + RenderItems(items, fmt, d)
    decreases items, 0
  {
    if items == [] {
      es := [];
    } else {
      var s := PrintedSpelling(items[0], fmt, d, strtod);
      var rest := ItemsSpelling(items[1..], Space(fmt), fmt, d, strtod);
      es := [Element(before, s, "")] + rest;
      ItemFirst(es[0], rest, es, strtod);
      assert items == [items[0]] + items[1..];
      ItemsJoin(before, Render(items[0], fmt, d), SpelledItems(rest), fmt, RenderItems(items[1..], fmt, d), |items| ==
        1);
    }
  }

  lemma {:induction false} ItemFirst(x: Element, rest: seq<Element>, es: seq<Element>, strtod: string -> int)
    requires es == [x] + rest && ItemsAsPrinted(rest) && Blank(x.before) && AsPrinted(x.value) && Blank(x.after)
    ensures ItemsAsPrinted(es) && TreeItems(es, strtod) == [Tree(x.value, strtod)] + TreeItems(rest, strtod)
    ensures SpelledItems(es) ==
            x.before + Spelled(x.value) + x.after + (if rest == [] then [] else "," + SpelledItems(rest))
  {
    assert es[1..] == rest;
  }

  function Space(fmt: bool): string { if fmt then " " else "" }

  lemma {:induction false} ItemsJoin(before: string, first: string, rest: string, fmt: bool, more: string, last: bool)
    requires !last ==> rest == Space(fmt) + more
    ensures before + first + "" + (if last then [] else "," + rest) ==
            before + (first + ItemEnd(fmt, last) + if last then [] else more)
  {
  }

  lemma {:induction false} ObjectSpelling(members: seq<Member>, fmt: bool, d: nat, e: nat, strtod: string -> int,
      text: string) returns (s: Syntax)
    requires Printable(Object(members)) && e == d + 1
    requires text == OpenBrace(fmt) + RenderMembers(members, fmt, e) + Indent(fmt, d) + "}"
    ensures s.Obj? && AsPrinted(s) && Spelled(s) == text && Tree(s, strtod) == Object(members)
    decreases members, 2
  {
    IndentBlank(fmt, d);
    var inner, blank := RenderMembers(members, fmt, e), Newline(fmt) + Indent(fmt, d);
    var es := MembersSpelling(members, fmt, e, Indent(fmt, d), strtod);
    s := Obj(es, blank);
    ObjectJoins(es, blank, inner, Newline(fmt), Indent(fmt, d), OpenBrace(fmt));
  }

  function Newline(fmt: bool): string { if fmt then "\n" else "" }

  lemma {:induction false} IndentBlank(fmt: bool, n: nat)
    ensures Blank(Indent(fmt, n)) && Blank(Newline(fmt) + Indent(fmt, n))
  {
    if fmt && n > 0 {
      IndentBlank(fmt, n - 1);
      assert Indent(fmt, n) == "\t" + Indent(fmt, n - 1);
    }
  }

  lemma {:induction false} ObjectJoins(es: seq<Entry>, blank: string, inner: string, newline: string, indent: string,
      open: string)
    requires blank == newline + indent && open == "{" + newline
    requires if es == [] then inner == [] else SpelledMembers(es) == newline + inner + indent
    ensures Spelled(Obj(es, blank)) == open + inner + indent + "}"
  {
    var text := if es == [] then blank else SpelledMembers(es);
    assert text == newline + inner + indent;
    assert "{" + (newline + inner + indent) + "}" == ("{" + newline) + inner + indent + "}";
  }

  lemma {:induction false} MembersSpelling(members: seq<Member>, fmt: bool, d: nat, tail: string,
      strtod: string -> int) returns (es: seq<Entry>)
    requires Printable(Object(members)) && Blank(tail)
    ensures MembersAsPrinted(es) && |es| == |members| && TreeMembers(es, strtod) == members
    ensures members != [] ==> SpelledMembers(es) == Newline(fmt) + RenderMembers(members, fmt, d) + tail
    decreases members, 0
  {
    if members == [] {
      es := [];
    } else {
      var s := PrintedSpelling(members[0].value, fmt, d, strtod);
      var rest := MembersSpelling(members[1..], fmt, d, tail, strtod);
      es := MemberSpelling(members, fmt, d, tail, s, rest, strtod);
    }
  }

  lemma {:induction false} MemberSpelling(members: seq<Member>, fmt: bool, d: nat, tail: string, s: Syntax,
      rest: seq<Entry>, strtod: string -> int) returns (es: seq<Entry>)
    requires members != [] && NulFree(members[0].key) && Blank(tail)
    requires AsPrinted(s) && Spelled(s) == Render(members[0].value, fmt, d) && Tree(s, strtod) == members[0].value
    requires MembersAsPrinted(rest) && |rest| == |members| - 1 && TreeMembers(rest, strtod) == members[1..]
    requires rest != [] ==> SpelledMembers(rest) == Newline(fmt) + RenderMembers(members[1..], fmt, d) + tail
    ensures MembersAsPrinted(es) && |es| == |members| && TreeMembers(es, strtod) == members
    ensures SpelledMembers(es) == Newline(fmt) + RenderMembers(members, fmt, d) + tail
  {
    var m, last := members[0], |members| == 1;
    var x := EntrySpelling(m, fmt, d, if last then Newline(fmt) + tail else "", s);
    es := [x] + rest;
    EntryFirst(x, rest, es, strtod);
    TreeFirst(m, members, es, rest, strtod);
    MembersJoin(fmt, Indent(fmt, d), Quoted(m.key), Render(m.value, fmt, d), last, tail,
                RenderMembers(members[1..], fmt, d), SpelledMembers(rest));
  }

  lemma {:induction false} TreeFirst(m: Member, members: seq<Member>, es: seq<Entry>, rest: seq<Entry>,
      strtod: string -> int)
    requires members != [] && m == members[0] && TreeMembers(es, strtod) == [m] + TreeMembers(rest, strtod)
    requires TreeMembers(rest, strtod) == members[1..]
    ensures TreeMembers(es, strtod) == members
  {
    assert members == [m] + members[1..];
  }

  lemma {:induction false} EntrySpelling(m: Member, fmt: bool, d: nat, after: string, s: Syntax) returns (x: Entry)
    requires NulFree(m.key) && Blank(after) && AsPrinted(s)
    ensures x == Entry(Newline(fmt) + Indent(fmt, d), Escape(m.key), m.key, "", if fmt then "\t" else "", s, after)
    ensures EntryAsPrinted(x) && InQuotes(x.body) == Quoted(m.key)
  {
    IndentBlank(fmt, d);
    x := Entry(Newline(fmt) + Indent(fmt, d), Escape(m.key), m.key, "", if fmt then "\t" else "", s, after);
  }

  lemma {:induction false} EntryFirst(x: Entry, rest: seq<Entry>, es: seq<Entry>, strtod: string -> int)
    requires es == [x] + rest && MembersAsPrinted(rest) && EntryAsPrinted(x)
    ensures MembersAsPrinted(es) &&
            TreeMembers(es, strtod) == [Member(x.key, Tree(x.value, strtod))] + TreeMembers(rest, strtod)
    ensures SpelledMembers(es) ==
            x.before + InQuotes(x.body) + x.gap + ":" + x.lead + Spelled(x.value) + x.after +
            (if rest == [] then [] else "," + SpelledMembers(rest))
  {
    assert es[1..] == rest;
  }

  lemma {:induction false} MembersJoin(fmt: bool, indent: string, key: string, value: string, last: bool, tail: string,
      more: string, rest: string)
    requires if last then more == [] else rest == Newline(fmt) + more + tail
    ensures (Newline(fmt) + indent) + key + "" + ":" + (if fmt then "\t" else "") + value +
            (if last then Newline(fmt) + tail else "") + (if last then [] else "," + rest) ==
            Newline(fmt) + (indent + key + Colon(fmt) + value + MemberEnd(fmt, last) + more) + tail
  {
  }

  /** The parser reads a printed value, whatever stands around it, as long as a number is not
      followed by another char of a number; one that is nested too deep is refused. */
  lemma {:induction false} ValueRound(c: string, at: nat, end: nat, j: JSON, fmt: bool, d: nat, depth: nat,
      strtod: string -> int)
    requires Printable(j) && depth <= NESTING_LIMIT && At(c, at, Render(j, fmt, d))
    requires end == at + |Render(j, fmt, d)| && (j.Number? && end < |c| ==> !IsNumberChar(c[end]))
    ensures Outcome(ParseValue(c, at, depth, strtod), depth + Nesting(j) <= NESTING_LIMIT, j, end)
  {
    var s := PrintedSpelling(j, fmt, d, strtod);
    PrintedIsProper(s);
    ValueParsed(c, at, end, s, depth, strtod);
  }

  /** Print then parse: for every tree of ints and C strings, in both formats, the parser
      returns an equal tree and stops at the terminating NUL exactly when containers are
      nested at most 1000 deep; a deeper document is refused. */
  lemma {:induction false} PrintThenParse(j: JSON, fmt: bool, requireNul: bool, strtod: string -> int)
    requires Printable(j)
    ensures if Nesting(j) <= NESTING_LIMIT
            then ParseCString(Render(j, fmt, 0), requireNul, strtod) == Done(j, |Render(j, fmt, 0)|)
            else ParseCString(Render(j, fmt, 0), requireNul, strtod).Failed?
  {
    var s := PrintedSpelling(j, fmt, 0, strtod);
    PrintedIsProper(s);
    TextParsed(false, "", s, "", requireNul, strtod);
    assert "" + "" + Spelled(s) + "" == Render(j, fmt, 0);
  }
}
