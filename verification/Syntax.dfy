/** The texts that spell JSON documents.

    A `Syntax` is a document together with the way it is spelled: the white space around every
    token, the chars of every literal and the digits of every numeral. `Spelled` is the text and
    `Tree` the document, whatever reads the text. */
module Syntax {
  import opened Json
  import opened Numbers
  import opened StringLiteral
  import opened Text

  /** A decimal floating-point constant with an optional minus sign. */
  datatype Numeral = Numeral(minus: bool, whole: string, fraction: Option<string>, exponent: Option<Exponent>)

  datatype Exponent = Exponent(mark: char, sign: string, digits: string)

  datatype Syntax =
    | Word(word: JSON)
    | Num(numeral: Numeral)
    | Lit(body: string, value: string)
    | Arr(items: seq<Element>, blank: string)
    | Obj(members: seq<Entry>, blank: string)

  /** An array element with the white space around it. */
  datatype Element = Element(before: string, value: Syntax, after: string)

  /** A member: its name as spelled and as read, its value, and the white space in front of the
      name, of the colon and of the value, and behind the value. */
  datatype Entry = Entry(before: string, body: string, key: string, gap: string, lead: string, value: Syntax,
    after: string)

  // ----- the text

  function NumeralText(n: Numeral): string {
    (if n.minus then "-" else "") + n.whole + FractionText(n.fraction) + ExponentText(n.exponent)
  }

  function FractionText(f: Option<string>): string {
    match f
    case None => ""
    case Some(digits) => "." + digits
  }

  function ExponentText(e: Option<Exponent>): string {
    match e
    case None => ""
    case Some(x) => [x.mark] + x.sign + x.digits
  }

  function WordText(j: JSON): string {
    match j
    case False => "false"
    case True => "true"
    case _ => "null"
  }

  function InQuotes(body: string): string { "\"" + body + "\"" }

  function Spelled(s: Syntax): string
    decreases s, 1
  {
    match s
    case Word(j) => WordText(j)
    case Num(n) => NumeralText(n)
    case Lit(body, _) => InQuotes(body)
    case Arr(items, blank) => "[" + (if items == [] then blank else SpelledItems(items)) + "]"
    case Obj(members, blank) => "{" + (if members == [] then blank else SpelledMembers(members)) + "}"
  }

  function SpelledItems(es: seq<Element>): string
    decreases es, 0
  {
    if es == [] then []
    else es[0].before + Spelled(es[0].value) + es[0].after + ItemsRest(es)
  }

  function ItemsRest(es: seq<Element>): string
    requires es != []
    decreases es, 0, 0
  {
    if |es| == 1 then [] else "," + SpelledItems(es[1..])
  }

  function SpelledMembers(es: seq<Entry>): string
    decreases es, 0
  {
    if es == [] then []
    else
      es[0].before + InQuotes(es[0].body) + es[0].gap + ":" + es[0].lead + Spelled(es[0].value) + es[0].after +
      MembersRest(es)
  }

  function MembersRest(es: seq<Entry>): string
    requires es != []
    decreases es, 0, 0
  {
    if |es| == 1 then [] else "," + SpelledMembers(es[1..])
  }

  // ----- the document

  /** A numeral without fraction and exponent is its value cut to type int; the value of the
      others is left to strtod. */
  function NumeralValue(n: Numeral, strtod: string -> int): int {
    if n.fraction.None? && n.exponent.None? && Digits(n.whole) then
      Saturate(if n.minus then 0 - Natural(n.whole) else Natural(n.whole))
    else strtod(NumeralText(n))
  }

  function Tree(s: Syntax, strtod: string -> int): JSON
    decreases s, 1
  {
    match s
    case Word(j) => j
    case Num(n) => Number(NumeralValue(n, strtod))
    case Lit(_, value) => Str(value)
    case Arr(items, _) => Array(TreeItems(items, strtod))
    case Obj(members, _) => Object(TreeMembers(members, strtod))
  }

  function TreeItems(es: seq<Element>, strtod: string -> int): seq<JSON>
    decreases es, 0
  {
    if es == [] then [] else [Tree(es[0].value, strtod)] + TreeItems(es[1..], strtod)
  }

  function TreeMembers(es: seq<Entry>, strtod: string -> int): seq<Member>
    decreases es, 0
  {
    if es == [] then [] else [Member(es[0].key, Tree(es[0].value, strtod))] + TreeMembers(es[1..], strtod)
  }

  // ----- what is properly spelled

  predicate Digits(s: string) { forall k :: 0 <= k < |s| ==> IsDigit(s[k]) }

  const NUMERAL_ROOM: nat := 63

  /** As long as parse_number copies. */
  predicate ProperNumeral(n: Numeral) { IsNumeral(n) && |NumeralText(n)| <= NUMERAL_ROOM }

  /** As strtod reads it, from a minus sign or a digit on. */
  predicate IsNumeral(n: Numeral) {
    Digits(n.whole) && (n.minus || n.whole != []) &&
    (n.whole != [] || (n.fraction.Some? && n.fraction.value != [])) &&
    (n.fraction.Some? ==> Digits(n.fraction.value)) &&
    (n.exponent.Some? ==> ProperExponent(n.exponent.value))
  }

  predicate ProperExponent(e: Exponent) {
    (e.mark == 'e' || e.mark == 'E') && (e.sign == "" || e.sign == "+" || e.sign == "-") && e.digits != [] &&
    Digits(e.digits)
  }

  /** A literal with this body reads as this C string. */
  predicate Reads(body: string, value: string) {
    ParseString(InQuotes(body), 0) == Done(value, |body| + 2)
  }

  /** White space of section 2 of RFC 8259. */
  predicate Blank(w: string) { forall k :: 0 <= k < |w| ==> w[k] in " \t\n\r" }

  /** White space as cJSON skips it. */
  predicate White(w: string) { forall k :: 0 <= k < |w| ==> w[k] as int <= 32 }

  predicate Proper(s: Syntax)
    decreases s, 1
  {
    match s
    case Word(j) => j.Null? || j.False? || j.True?
    case Num(n) => ProperNumeral(n)
    case Lit(body, value) => Reads(body, value)
    case Arr(items, blank) => White(blank) && ProperItems(items)
    case Obj(members, blank) => White(blank) && ProperMembers(members)
  }

  predicate ProperItems(es: seq<Element>)
    decreases es, 0
  {
    es == [] || (White(es[0].before) && Proper(es[0].value) && White(es[0].after) && ProperItems(es[1..]))
  }

  predicate ProperMembers(es: seq<Entry>)
    decreases es, 0
  {
    es == [] ||
    (White(es[0].before) && Reads(es[0].body, es[0].key) && White(es[0].gap) && White(es[0].lead) &&
     Proper(es[0].value) && White(es[0].after) && ProperMembers(es[1..]))
  }

  /** No text starts with white space or a closing bracket. */
  lemma {:induction false} SpelledStarts(s: Syntax)
    requires Proper(s)
    ensures Spelled(s) != [] && Spelled(s)[0] as int > 32 && Spelled(s)[0] != ']' && (Spelled(s)[0] as int) < 128
    ensures s.Num? ==> Spelled(s)[0] == '-' || IsDigit(Spelled(s)[0])
  {
    if s.Num? && !s.numeral.minus { assert NumeralText(s.numeral)[0] == s.numeral.whole[0]; }
  }
}
