/** What mjson finds is what cJSON looks up. */
module FindTree {
  // The two libraries read the same texts: where both read a document, mjson_find of a key finds
  // the text of the value that get_object_item returns.

  import opened EscapeMeaning
  import opened FeedSyntax
  import opened Finder
  import opened FindSyntax
  import opened Json
  import opened KeyOrder
  import opened Members
  import opened Parser
  import opened ParseRender
  import opened ParseSyntax
  import opened Printing
  import opened Scanner
  import opened ScanSyntax
  import opened StringLiteral
  import opened StringMeaning
  import opened Syntax
  import opened Text

  // ----- printed documents are scanned

  lemma {:induction false} PrintedScans(s: Syntax)
    requires AsPrinted(s)
    ensures Scans(s)
    decreases s, 1
  {
    match s
    case Lit(body, value) => EscapeCloses(value);
    case Arr(items, _) => ItemsPrintedScan(items);
    case Obj(members, _) => MembersPrintedScan(members);
    case _ =>
  }

  lemma {:induction false} EscapeCloses(t: string)
    ensures Closes(Escape(t))
  {
    WellFormedCloses(PiecesOf(t));
  }

  lemma {:induction false} ItemsPrintedScan(es: seq<Element>)
    requires ItemsAsPrinted(es)
    ensures ItemsScan(es)
    decreases es, 0
  {
    if es != [] {
      PrintedScans(es[0].value);
      ItemsPrintedScan(es[1..]);
    }
  }

  lemma {:induction false} MembersPrintedScan(es: seq<Entry>)
    requires MembersAsPrinted(es)
    ensures MembersScan(es)
    decreases es, 0
  {
    if es != [] {
      EscapeCloses(es[0].key);
      PrintedScans(es[0].value);
      MembersPrintedScan(es[1..]);
    }
  }

  lemma {:induction false} LevelsAreNesting(s: Syntax, strtod: string -> int)
    requires Proper(s)
    ensures Levels(s) == Nesting(Tree(s, strtod))
    decreases s, 1
  {
    match s
    case Arr(items, _) => ItemsLevelsAre(items, strtod);
    case Obj(members, _) => MembersLevelsAre(members, strtod);
    case _ =>
  }

  lemma {:induction false} ItemsLevelsAre(es: seq<Element>, strtod: string -> int)
    requires ProperItems(es)
    ensures ItemsLevels(es) == ItemsNesting(TreeItems(es, strtod))
    decreases es, 0
  {
    if es != [] {
      LevelsAreNesting(es[0].value, strtod);
      ItemsLevelsAre(es[1..], strtod);
      assert TreeItems(es, strtod)[1..] == TreeItems(es[1..], strtod);
    }
  }

  lemma {:induction false} MembersLevelsAre(es: seq<Entry>, strtod: string -> int)
    requires ProperMembers(es)
    ensures MembersLevels(es) == MembersNesting(TreeMembers(es, strtod))
    decreases es, 0
  {
    if es != [] {
      LevelsAreNesting(es[0].value, strtod);
      MembersLevelsAre(es[1..], strtod);
      assert TreeMembers(es, strtod)[1..] == TreeMembers(es[1..], strtod);
    }
  }

  /** A text printed by cJSON, formatted or not, is scanned up to its end exactly when containers
      are nested at most 20 deep; otherwise mjson says so. */
  lemma {:induction false} ScanPrinted(j: JSON, fmt: bool, strtod: string -> int)
    requires Printable(j)
    ensures var text := Render(j, fmt, 0);
            Run(text, 0, Value, []).code == if Nesting(j) <= MAX_DEPTH then |text| else TOO_DEEP
  {
    var s := PrintedSpelling(j, fmt, 0, strtod);
    PrintedScans(s);
    PrintedIsProper(s);
    LevelsAreNesting(s, strtod);
    ScanText("", s, "");
    assert "" + Spelled(s) + "" == Spelled(s) && "" + Spelled(s) == Spelled(s);
  }

  // ----- the value of a key

  /** The members named k are the ones whose name is spelled like that. */
  ghost predicate SpelledOut(s: Syntax, k: string) {
    s.Obj? ==> forall i :: 0 <= i < |s.members| ==> (s.members[i].body == k <==> s.members[i].key == k)
  }

  lemma {:induction false} TreeMembersAre(es: seq<Entry>, strtod: string -> int)
    ensures |TreeMembers(es, strtod)| == |es|
    ensures forall i :: 0 <= i < |es| ==> TreeMembers(es, strtod)[i] == Member(es[i].key, Tree(es[i].value, strtod))
  {
    if es != [] {
      TreeMembersAre(es[1..], strtod);
      var ms, rest := TreeMembers(es, strtod), TreeMembers(es[1..], strtod);
      assert forall i :: 0 < i < |es| ==> ms[i] == rest[i - 1] && es[i] == es[1..][i - 1];
    }
  }

  lemma {:induction false} FieldIsLookup(s: Syntax, k: string, strtod: string -> int)
    requires Proper(s) && SpelledOut(s, k)
    ensures Lookup(Tree(s, strtod), k, true) == if Field(s, k).Some? then Some(Tree(Field(s, k).value, strtod))
            else None
  {
    if s.Obj? {
      IndexIsKey(s.members, k, strtod);
      TreeMembersAre(s.members, strtod);
    }
  }

  lemma {:induction false} IndexIsKey(es: seq<Entry>, k: string, strtod: string -> int)
    requires forall i :: 0 <= i < |es| ==> (es[i].body == k <==> es[i].key == k)
    ensures FindKey(TreeMembers(es, strtod), k, true) == FieldIndex(es, k)
  {
    if es != [] {
      assert forall i :: 0 <= i < |es[1..]| ==> es[1..][i] == es[i + 1];
      IndexIsKey(es[1..], k, strtod);
      assert TreeMembers(es, strtod)[1..] == TreeMembers(es[1..], strtod);
    }
  }

  lemma {:induction false} FieldProper(es: seq<Entry>, i: nat)
    requires ProperMembers(es) && i < |es|
    ensures Proper(es[i].value)
    decreases i
  {
    if i > 0 { FieldProper(es[1..], i - 1); }
  }

  lemma {:induction false} FieldLevels(es: seq<Entry>, i: nat)
    requires i < |es|
    ensures Levels(es[i].value) <= MembersLevels(es)
    decreases i
  {
    if i > 0 { FieldLevels(es[1..], i - 1); }
  }

  /** The text that was found. */
  function Found(text: string, r: Match): string
    requires 0 <= r.start <= r.start + r.size <= |text|
  {
    text[r.start..r.start + r.size]
  }

  /** Found is a text that is parsed to this value, or nothing. */
  ghost predicate IsFound(text: string, r: Match, v: Option<JSON>, strtod: string -> int) {
    match v
    case None => r == NO_MATCH
    case Some(j) =>
      r.tok != TOK_INVALID && 0 <= r.start <= r.start + r.size <= |text| &&
      ParseCString(Found(text, r), true, strtod) == Done(j, r.size)
  }

  /** In a document that both libraries read, the path of a key finds a text that cJSON parses to
      the value get_object_item finds case-sensitively, or nothing where it finds nothing. */
  lemma {:induction false} FindMatchesLookup(before: string, s: Syntax, rest: string, k: string, strtod: string -> int)
    requires Readable(before, s, rest) && Proper(s) && FeedSyntax.Plain(k) && SpelledOut(s, k)
    ensures var text := before + Spelled(s) + rest;
            IsFound(text, Find(text, "$." + k, strtod), Lookup(Tree(s, strtod), k, true), strtod)
  {
    var text := before + Spelled(s) + rest;
    var off := FindField(before, s, rest, k, strtod);
    FieldIsLookup(s, k, strtod);
    if Field(s, k).Some? {
      FieldFits(s, k);
      var v := Field(s, k).value;
      LevelsAreNesting(v, strtod);
      WholeParsed(v, Spelled(v), strtod);
      SpanParsed(text, Tree(v, strtod), Spelled(v), off, TokenOf(v), Find(text, "$." + k, strtod), strtod);
    }
  }

  lemma {:induction false} FieldFits(s: Syntax, k: string)
    requires Proper(s) && Field(s, k).Some? && Levels(s) <= MAX_DEPTH
    ensures Proper(Field(s, k).value) && Levels(Field(s, k).value) <= MAX_DEPTH
  {
    var i := FieldIndex(s.members, k);
    FieldProper(s.members, i);
    FieldLevels(s.members, i);
  }

  lemma {:induction false} SpanParsed(text: string, j: JSON, w: string, off: nat, tok: int, r: Match,
      strtod: string -> int)
    requires At(text, off, w) && r == Match(tok, off, |w|) && tok != TOK_INVALID
    requires ParseCString(w, true, strtod) == Done(j, |w|)
    ensures IsFound(text, r, Some(j), strtod)
  {
    AtSlice(text, off, w);
    assert Found(text, r) == w;
  }

  lemma {:induction false} EscapeInjective(a: string, b: string)
    requires NulFree(a) && NulFree(b) && Escape(a) == Escape(b)
    ensures a == b
  {
    var c := Quoted(a);
    AtSlice(c, 0, c);
    assert c[0..0 + |c|] == c;
    StringRoundTrip(c, 0, a);
    StringRoundTrip(c, 0, b);
  }

  lemma {:induction false} PrintedSpelledOut(es: seq<Entry>, k: string)
    requires MembersAsPrinted(es) && NulFree(k) && Escape(k) == k
    ensures forall i :: 0 <= i < |es| ==> (es[i].body == k <==> es[i].key == k)
  {
    if es != [] {
      PrintedSpelledOut(es[1..], k);
      assert forall i :: 0 < i < |es| ==> es[i] == es[1..][i - 1];
      if es[0].body == k { EscapeInjective(es[0].key, k); }
    }
  }

  /** In every printed document, formatted or not. */
  lemma {:induction false} FindInPrinted(j: JSON, fmt: bool, k: string, strtod: string -> int)
    requires Printable(j) && Nesting(j) <= MAX_DEPTH && FeedSyntax.Plain(k) && Escape(k) == k
    ensures var text := Render(j, fmt, 0);
            IsFound(text, Find(text, "$." + k, strtod), Lookup(j, k, true), strtod)
  {
    var s := PrintedSpelling(j, fmt, 0, strtod);
    PrintedScans(s);
    PrintedIsProper(s);
    LevelsAreNesting(s, strtod);
    if s.Obj? { PrintedSpelledOut(s.members, k); }
    FindMatchesLookup("", s, "", k, strtod);
    assert "" + Spelled(s) + "" == Spelled(s);
  }
}
