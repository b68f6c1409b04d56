/** What cJSON_Minify makes of a text, out of place, as functions of what is still to be read. */
module MinifyText {
  import opened Text

  function AfterLine(s: string): (r: string)
    ensures |r| <= |s|
  {
    if s == [] then [] else if s[0] == '\n' then s[1..] else AfterLine(s[1..])
  }

  function AfterComment(s: string): (r: string)
    ensures |r| <= |s|
  {
    if s == [] then []
    else if s[0] == '*' && |s| > 1 && s[1] == '/' then s[2..]
    else AfterComment(s[1..])
  }

  /** Outside a string. A slash that opens no comment is dropped. */
  function Minify(s: string): string
    decreases |s|
  {
    if s == [] then []
    else if IsBlank(s[0]) then Minify(s[1..])
    else if s[0] == '/' then
      if |s| > 1 && s[1] == '/' then Minify(AfterLine(s[2..]))
      else if |s| > 1 && s[1] == '*' then Minify(AfterComment(s[2..]))
      else Minify(s[1..])
    else if s[0] == '"' then "\"" + MinifyString(s[1..])
    else [s[0]] + Minify(s[1..])
  }

  /** Inside a string. Every backslash in front of a quote takes the quote for escaped,
      also one that is escaped itself. */
  function MinifyString(s: string): string
    decreases |s|
  {
    if s == [] then []
    else if s[0] == '"' then "\"" + Minify(s[1..])
    else if s[0] == '\\' && |s| > 1 && s[1] == '"' then "\\\"" + MinifyString(s[2..])
    else [s[0]] + MinifyString(s[1..])
  }

  lemma {:induction false} StringKeepsFirst(s: string)
    ensures s == [] <==> MinifyString(s) == []
    ensures s != [] ==> MinifyString(s)[0] == s[0]
  {
  }
}
