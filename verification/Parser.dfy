/** The recursive-descent parser. */
module Parser {
  // What each parse function returns for a buffer, an offset and a nesting depth.

  import opened Json
  import opened Numbers
  import opened Printing
  import opened StringLiteral
  import opened Text

  const NESTING_LIMIT: nat := 1000

  predicate IsSpace(c: char) { c as int <= 32 }

  function SpaceEnd(c: string, at: nat): (e: nat)
    requires at <= |c|
    ensures at <= e <= |c|
    decreases |c| - at
  {
    if at < |c| && IsSpace(c[at]) then SpaceEnd(c, at + 1) else at
  }

  /** buffer_skip_whitespace: when only white space is left the offset comes to rest on
      the last char, never before the char it started at. */
  function SkipSpace(c: string, at: nat): (e: nat)
    requires at <= |c|
    ensures at <= e <= |c| && (at < |c| ==> e < |c|)
  {
    if at == |c| then at
    else
      var e := SpaceEnd(c, at);
      if e == |c| then e - 1 else e
  }

  predicate IsNumberChar(x: char) {
    IsDigit(x) || x == '+' || x == '-' || x == 'e' || x == 'E' || x == '.'
  }

  /** The chars parse_number copies: at most 63. */
  function NumberToken(c: string, at: nat, room: nat): (s: string)
    requires at <= |c|
    ensures at + |s| <= |c| && |s| <= room
    decreases |c| - at
  {
    if room > 0 && at < |c| && IsNumberChar(c[at]) then [c[at]] + NumberToken(c, at + 1, room - 1) else []
  }

  /** The token is all of a run of number chars, if it fits. */
  lemma {:induction false} TokenIs(c: string, at: nat, s: string, room: nat)
    requires At(c, at, s) && |s| <= room && forall k :: 0 <= k < |s| ==> IsNumberChar(s[k])
    requires |s| == room || at + |s| == |c| || !IsNumberChar(c[at + |s|])
    ensures NumberToken(c, at, room) == s
    decreases |s|
  {
    if s != [] {
      AtSplit(c, at, s[..1], s[1..]);
      assert s == s[..1] + s[1..];
      AtChar(c, at, s, 0);
      TokenIs(c, at + 1, s[1..], room - 1);
    }
  }

  const NUMBER_ROOM: nat := 63

  /** parse_number. The value of a numeral with a fraction or an exponent, cut to type int,
      is left to `strtod`. */
  function ParseNumber(c: string, at: nat, strtod: string -> int): (r: Parsed<JSON>)
    requires at <= |c|
    ensures r.Done? ==> at < r.offset <= |c| && r.value.Number?
    ensures r.Failed? ==> r.offset == at
  {
    var token := NumberToken(c, at, NUMBER_ROOM);
    var end := NumeralEnd(token);
    if end == 0 then Failed(at)
    else
      var numeral := token[..end];
      Done(Number(if IsWhole(numeral) then Saturate(WholeValue(numeral)) else strtod(numeral)), at + end)
  }

  function ParseValue(c: string, at: nat, depth: nat, strtod: string -> int): (r: Parsed<JSON>)
    requires at <= |c|
    ensures r.Done? ==> at < r.offset <= |c| && (depth <= NESTING_LIMIT ==> depth + Nesting(r.value) <= NESTING_LIMIT)
    ensures r.Failed? ==> at <= r.offset <= |c|
    decreases |c| - at, 4
  {
    if At(c, at, "null") then Done(Null, at + 4)
    else if At(c, at, "false") then Done(False, at + 5)
    else if At(c, at, "true") then Done(True, at + 4)
    else if at == |c| then Failed(at)
    else if c[at] == '"' then
      (match ParseString(c, at)
       case Failed(e) => Failed(e)
       case Done(s, e) => Done(Str(s), e))
    else if c[at] == '-' || IsDigit(c[at]) then ParseNumber(c, at, strtod)
    else if c[at] == '[' then ParseArray(c, at, depth, strtod)
    else if c[at] == '{' then ParseObject(c, at, depth, strtod)
    else Failed(at)
  }

  function ParseArray(c: string, at: nat, depth: nat, strtod: string -> int): (r: Parsed<JSON>)
    requires at < |c|
    ensures r.Done? ==> at < r.offset <= |c| && (depth <= NESTING_LIMIT ==> depth + Nesting(r.value) <= NESTING_LIMIT)
    ensures r.Failed? ==> at <= r.offset <= |c|
    decreases |c| - at, 3
  {
    if depth >= NESTING_LIMIT then Failed(at)
    else
      var p := SkipSpace(c, at + 1);
      if p == |c| then Failed(p - 1)
      else if c[p] == ']' then Done(Array([]), p + 1)
      else
        match ParseItems(c, p, depth + 1, strtod)
        case Failed(e) => Failed(e)
        case Done(items, e) => Done(Array(items), e)
  }

  /** The loop of parse_array, from behind an opening bracket or a comma. */
  function ParseItems(c: string, at: nat, depth: nat, strtod: string -> int): (r: Parsed<seq<JSON>>)
    requires at <= |c|
    ensures r.Done? ==> at < r.offset <= |c| && r.value != []
    ensures r.Done? && depth <= NESTING_LIMIT ==> depth + ItemsNesting(r.value) <= NESTING_LIMIT
    ensures r.Failed? ==> at <= r.offset <= |c|
    decreases |c| - at, 5
  {
    var p := SkipSpace(c, at);
    match ParseValue(c, p, depth, strtod)
    case Failed(e) => Failed(e)
    case Done(item, e) =>
      var q := SkipSpace(c, e);
      if q < |c| && c[q] == ',' then
        (match ParseItems(c, q + 1, depth, strtod)
         case Failed(f) => Failed(f)
         case Done(items, f) => Done([item] + items, f))
      else if q < |c| && c[q] == ']' then Done([item], q + 1)
      else Failed(q)
  }

  function ParseObject(c: string, at: nat, depth: nat, strtod: string -> int): (r: Parsed<JSON>)
    requires at < |c|
    ensures r.Done? ==> at < r.offset <= |c| && (depth <= NESTING_LIMIT ==> depth + Nesting(r.value) <= NESTING_LIMIT)
    ensures r.Failed? ==> at <= r.offset <= |c|
    decreases |c| - at, 3
  {
    if depth >= NESTING_LIMIT then Failed(at)
    else
      var p := SkipSpace(c, at + 1);
      if p == |c| then Failed(p - 1)
      else if c[p] == '}' then Done(Object([]), p + 1)
      else
        match ParseMembers(c, p - 1, depth + 1, strtod)
        case Failed(e) => Failed(e)
        case Done(members, e) => Done(Object(members), e)
  }

  /** The loop of parse_object, standing on the char before a member. */
  function ParseMembers(c: string, at: nat, depth: nat, strtod: string -> int): (r: Parsed<seq<Member>>)
    requires at < |c|
    ensures r.Done? ==> at < r.offset <= |c| && r.value != []
    ensures r.Done? && depth <= NESTING_LIMIT ==> depth + MembersNesting(r.value) <= NESTING_LIMIT
    ensures r.Failed? ==> at <= r.offset <= |c|
    decreases |c| - at, 2
  {
    match ReadMember(c, at, depth, strtod)
    case Failed(e) => Failed(e)
    case Done(m, s) =>
      if s < |c| && c[s] == ',' then
        (match ParseMembers(c, s, depth, strtod)
         case Failed(g) => Failed(g)
         case Done(members, g) => Done([m] + members, g))
      else if s < |c| && c[s] == '}' then Done([m], s + 1)
      else Failed(s)
  }

  /** One turn of that loop: a name, a colon and a value with white space around them. */
  function ReadMember(c: string, at: nat, depth: nat, strtod: string -> int): (r: Parsed<Member>)
    requires at < |c|
    ensures r.Done? ==> at < r.offset <= |c|
    ensures r.Done? && depth <= NESTING_LIMIT ==> depth + Nesting(r.value.value) <= NESTING_LIMIT
    ensures r.Failed? ==> at <= r.offset <= |c|
    decreases |c| - at, 1
  {
    match ReadName(c, at)
    case Failed(e) => Failed(e)
    case Done(key, p) =>
      match ParseValue(c, p, depth, strtod)
      case Failed(f) => Failed(f)
      case Done(value, f) => Done(Member(key, value), SkipSpace(c, f))
  }

  /** The name and the colon of that turn, and where the value begins. */
  function ReadName(c: string, at: nat): (r: Parsed<string>)
    requires at < |c|
    ensures r.Done? ==> at < r.offset <= |c|
    ensures r.Failed? ==> at <= r.offset <= |c|
  {
    if at + 1 == |c| then Failed(at)
    else
      match ParseString(c, SkipSpace(c, at + 1))
      case Failed(e) => Failed(e)
      case Done(key, e) =>
        var q := SkipSpace(c, e);
        if q == |c| || c[q] != ':' then Failed(q) else Done(key, SkipSpace(c, q + 1))
  }

  const BOM: string := ['\U{00EF}', '\U{00BB}', '\U{00BF}']

  /** cJSON_ParseWithLengthOpts: the document and the end of what was read, or the position
      of the error. */
  function Parse(c: string, requireNul: bool, strtod: string -> int): (r: Parsed<JSON>)
    ensures r.Done? ==> 0 < r.offset <= |c| && Nesting(r.value) <= NESTING_LIMIT
    ensures r.Done? && requireNul ==> r.offset < |c| && c[r.offset] == NUL
    ensures r.Failed? && c != [] ==> r.offset < |c|
  {
    if c == [] then Failed(0)
    else
      var start := SkipSpace(c, if |c| > 4 && At(c, 0, BOM) then 3 else 0);
      match ParseValue(c, start, 0, strtod)
      case Failed(e) => Failed(if e < |c| then e else |c| - 1)
      case Done(value, e) =>
        if !requireNul then Done(value, e)
        else
          var end := SkipSpace(c, e);
          if end < |c| && c[end] == NUL then Done(value, end)
          else Failed(if end < |c| then end else |c| - 1)
  }

  /** cJSON_ParseWithOpts on a C string. */
  function ParseCString(text: string, requireNul: bool, strtod: string -> int): Parsed<JSON> {
    Parse(text + [NUL], requireNul, strtod)
  }
}
