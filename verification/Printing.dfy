/** What the printer writes for a document, formatted or not.

    The texts of items and members inside a container are functions of their own, so that
    the printer's loops can be followed element by element. */
module Printing {
  import opened Json
  import opened Numbers
  import opened StringMeaning
  import opened Text

  function Tabs(n: nat): string { if n == 0 then [] else "\t" + Tabs(n - 1) }

  /** The text of print_value at a nesting depth. */
  function Render(j: JSON, fmt: bool, depth: nat): string
    decreases j, 1
  {
    match j
    case Null => "null"
    case False => "false"
    case True => "true"
    case Number(n) => Signed(n)
    case Str(s) => Quoted(s)
    case Array(items) => "[" + RenderItems(items, fmt, depth + 1) + "]"
    case Object(members) => OpenBrace(fmt) + RenderMembers(members, fmt, depth + 1) + Indent(fmt, depth) + "}"
  }

  function OpenBrace(fmt: bool): string { if fmt then "{\n" else "{" }

  function Indent(fmt: bool, depth: nat): string { if fmt then Tabs(depth) else [] }

  function Colon(fmt: bool): string { if fmt then ":\t" else ":" }

  function ItemEnd(fmt: bool, last: bool): string { if last then [] else if fmt then ", " else "," }

  function MemberEnd(fmt: bool, last: bool): string {
    (if last then [] else ",") + (if fmt then "\n" else [])
  }

  function RenderItems(items: seq<JSON>, fmt: bool, depth: nat): string
    decreases items, 0
  {
    if items == [] then []
    else Render(items[0], fmt, depth) + ItemEnd(fmt, |items| == 1) + RenderItems(items[1..], fmt, depth)
  }

  function RenderMembers(members: seq<Member>, fmt: bool, depth: nat): string
    decreases members, 0
  {
    if members == [] then []
    else
      Indent(fmt, depth) + Quoted(members[0].key) + Colon(fmt) + Render(members[0].value, fmt, depth) +
      MemberEnd(fmt, |members| == 1) + RenderMembers(members[1..], fmt, depth)
  }

  /** What a cJSON tree holds: integers of type int and C strings. */
  ghost predicate Printable(j: JSON) {
    match j
    case Number(n) => IsInt(n)
    case Str(s) => NulFree(s)
    case Array(items) => forall i :: 0 <= i < |items| ==> Printable(items[i])
    case Object(members) =>
      forall i :: 0 <= i < |members| ==> NulFree(members[i].key) && Printable(members[i].value)
    case _ => true
  }

  /** How deep containers are nested. */
  function Nesting(j: JSON): nat
    decreases j, 1
  {
    match j
    case Array(items) => 1 + ItemsNesting(items)
    case Object(members) => 1 + MembersNesting(members)
    case _ => 0
  }

  function ItemsNesting(items: seq<JSON>): nat
    decreases items, 0
  {
    if items == [] then 0 else Max(Nesting(items[0]), ItemsNesting(items[1..]))
  }

  function MembersNesting(members: seq<Member>): nat
    decreases members, 0
  {
    if members == [] then 0 else Max(Nesting(members[0].value), MembersNesting(members[1..]))
  }
}
