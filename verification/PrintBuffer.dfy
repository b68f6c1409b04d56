/** The printer as it runs: a buffer that `ensure` may replace by a larger one, an offset,
    and a text behind the offset that is only counted in later. */
module PrintBuffer {
  import opened Json
  import opened Numbers
  import opened Printing
  import opened StringMeaning
  import opened Text

  class Buffer {
    var buffer: array<char>
    var offset: nat
    var depth: nat
    const noalloc: bool
    const format: bool

    constructor (buffer: array<char>, noalloc: bool, format: bool)
      requires buffer.Length <= INT_MAX
      ensures this.buffer == buffer && offset == 0 && depth == 0
      ensures this.noalloc == noalloc && this.format == format && Valid()
    {
      this.buffer, offset, depth, this.noalloc, this.format := buffer, 0, 0, noalloc, format;
    }

    /** Only a buffer of size 0 has no byte at the offset. */
    ghost predicate Valid()
      reads this`buffer, this`offset
    {
      buffer.Length <= INT_MAX && (offset < buffer.Length || (offset == 0 && buffer.Length == 0))
    }

    /** The size no text may outgrow. */
    ghost function Limit(): int
      reads this`buffer
    {
      if noalloc then buffer.Length else INT_MAX
    }

    /** What is printed and counted. */
    ghost function Counted(): string
      reads this`buffer, this`offset, buffer
      requires Valid()
    {
      buffer[..offset]
    }

    /** A terminator stands at or behind the offset. */
    ghost predicate Terminated()
      reads this`buffer, this`offset, buffer
      requires Valid()
    {
      Length(buffer[offset..]) < buffer.Length - offset
    }

    /** What is printed: the counted text and the C string behind it. */
    ghost function Printed(): string
      reads this`buffer, this`offset, buffer
      requires Valid()
    {
      buffer[..offset] + CString(buffer[offset..])
    }

    lemma {:induction false} PrintedIs(e: nat)
      requires Valid() && offset <= e < buffer.Length && buffer[e] == NUL && NulFree(buffer[offset..e])
      ensures Terminated() && Printed() == buffer[..e]
    {
      var tail := buffer[offset..];
      assert tail[..e - offset] == buffer[offset..e];
      LengthIs(tail, e - offset);
    }

    /** ensure: room for needed bytes and one more, if need be in a new buffer. */
    method Ensure(needed: nat) returns (ok: bool)
      requires Valid()
      modifies this`buffer
      ensures Valid() && (buffer == old(buffer) || (!noalloc && fresh(buffer))) && Limit() == old(Limit())
      ensures Counted() == old(Counted())
      ensures ok <==> offset + needed + 1 <= Limit()
      ensures ok ==> offset + needed + 1 <= buffer.Length
      ensures old(buffer.Length) <= buffer.Length
      ensures buffer[..old(buffer.Length)] == old(buffer[..])
    {
      if buffer.Length > 0 && offset >= buffer.Length { return false; }
      if needed > INT_MAX { return false; }
      var total := needed + offset + 1;
      if total <= buffer.Length { return true; }
      if noalloc { return false; }
      var size := total * 2;
      if total > INT_MAX / 2 {
        if total > INT_MAX { return false; }
        size := INT_MAX;
      }
      var larger := new char[size];
      for i := 0 to buffer.Length
        invariant fresh(larger) && buffer == old(buffer) && buffer[..] == old(buffer[..])
        invariant larger[..i] == buffer[..i]
      {
        larger[i] := buffer[i];
      }
      buffer := larger;
      return true;
    }

    /** The writes through output_pointer, from a position on. */
    method Write(at: nat, s: string)
      requires at + |s| <= buffer.Length
      modifies buffer
      ensures buffer[..at + |s|] == old(buffer[..at]) + s
    {
      for i := 0 to |s|
        invariant buffer[..at + i] == old(buffer[..at]) + s[..i]
      {
        buffer[at + i] := s[i];
      }
    }

    /** The writes of a text and its terminator. */
    method WriteString(s: string)
      requires Valid() && offset + |s| < buffer.Length && NulFree(s)
      modifies buffer
      ensures Terminated() && Printed() == old(Counted()) + s
      ensures buffer[..offset + |s|] == old(Counted()) + s && buffer[offset + |s|] == NUL
    {
      ghost var before := Counted();
      Write(offset, s + [NUL]);
      Terminate(before, s);
    }

    /** A text and a terminator behind the offset are printed. */
    lemma {:induction false} Terminate(before: string, s: string)
      requires Valid() && offset + |s| < buffer.Length && NulFree(s) && |before| == offset
      requires buffer[..offset + |s| + 1] == before + (s + [NUL])
      ensures Terminated() && Printed() == before + s
      ensures buffer[..offset + |s|] == before + s && buffer[offset + |s|] == NUL
    {
      var w := before + (s + [NUL]);
      assert w[..offset + |s|] == before + s && w[offset + |s|] == NUL && w[offset..offset + |s|] == s;
      assert buffer[..offset + |s|] == buffer[..offset + |s| + 1][..offset + |s|];
      assert buffer[offset..offset + |s|] == buffer[..offset + |s| + 1][offset..offset + |s|];
      PrintedIs(offset + |s|);
    }

    /** update_offset: count the text in up to its terminator. */
    method UpdateOffset()
      requires Valid() && Terminated()
      modifies this`offset
      ensures Valid() && Counted() == old(Printed())
    {
      ghost var n := Length(buffer[offset..]);
      ghost var start := offset;
      assert buffer[offset..][n] == buffer[offset + n];
      while buffer[offset] != NUL
        invariant start <= offset <= start + n < buffer.Length && buffer[start + n] == NUL
        invariant buffer[start..][..n] == buffer[start..start + n] && NulFree(buffer[start..start + n])
        decreases start + n - offset
      {
        offset := offset + 1;
      }
      assert buffer[..offset] == buffer[..start] + buffer[start..offset];
    }

    /** The number of chars escaping adds. */
    method CountEscapes(s: string) returns (n: nat)
      ensures |s| + n == |Escape(s)|
    {
      n := 0;
      for i := 0 to |s|
        invariant i + n + |Escape(s[i..])| == |Escape(s)|
      {
        assert s[i..][1..] == s[i + 1..] && s[i..][0] == s[i];
        var x := s[i];
        if x == '"' || x == '\\' || x == '\U{0008}' || x == '\U{000C}' || x == '\n' || x == '\r' || x == '\t' {
          n := n + 1;
        } else if x as int < 32 {
          n := n + 5;
        }
      }
    }

    /** print_string_ptr. */
    method PrintString(s: string) returns (ok: bool)
      requires Valid() && NulFree(s)
      modifies this`buffer, buffer
      ensures Valid() && (buffer == old(buffer) || (!noalloc && fresh(buffer))) && Limit() == old(Limit())
      ensures ok <==> offset + |Quoted(s)| + 2 <= Limit()
      ensures ok ==> Terminated() && Printed() == old(Counted()) + Quoted(s)
    {
      var escapes := CountEscapes(s);
      ghost var before := Counted();
      ok := Ensure(|s| + escapes + 3);
      if !ok { return; }
      QuotedNulFree(s);
      if escapes == 0 {
        NothingEscaped(s);
        WriteString("\"" + s + "\"");
      } else {
        WriteEscaped(s);
      }
    }

    /** The loop that escapes a string char by char. */
    method WriteEscaped(s: string)
      requires Valid() && offset + |Quoted(s)| < buffer.Length && NulFree(s)
      modifies buffer
      ensures Terminated() && Printed() == old(Counted()) + Quoted(s)
    {
      ghost var before := Counted();
      Write(offset, "\"");
      var output: nat := offset + 1;
      assert s[..0] == [] && Escape(s[..0]) == [];
      for i := 0 to |s|
        invariant output == offset + 1 + |Escape(s[..i])| <= buffer.Length
        invariant buffer[..output] == before + "\"" + Escape(s[..i])
      {
        EscapeStep(s, i);
        Regroup(before + "\"", Escape(s[..i]), EscapeChar(s[i]));
        output := WriteChar(output, s[i]);
      }
      assert s[..|s|] == s;
      Write(output, ['"', NUL]);
      QuotedNulFree(s);
      CloseQuote(before, Escape(s));
      Terminate(before, Quoted(s));
    }

    /** One turn of that loop. */
    method WriteChar(output: nat, x: char) returns (next: nat)
      requires x != NUL && output + |EscapeChar(x)| <= buffer.Length
      modifies buffer
      ensures next == output + |EscapeChar(x)| && buffer[..next] == old(buffer[..output]) + EscapeChar(x)
    {
      var text: string;
      if x as int > 31 && x != '"' && x != '\\' {
        text := [x];
      } else {
        match x
        case '\\' => text := "\\\\";
        case '"' => text := "\\\"";
        case '\U{0008}' => text := "\\b";
        case '\U{000C}' => text := "\\f";
        case '\n' => text := "\\n";
        case '\r' => text := "\\r";
        case '\t' => text := "\\t";
        case _ => text := "\\u00" + [HexDigit(x as int / 16), HexDigit(x as int % 16)];
      }
      Write(output, text);
      next := output + |text|;
    }

    /** print_number for integers. */
    method PrintNumber(n: int) returns (ok: bool)
      requires Valid() && IsInt(n)
      modifies this`buffer, this`offset, buffer
      ensures Valid() && (buffer == old(buffer) || (!noalloc && fresh(buffer))) && Limit() == old(Limit())
      ensures ok <==> old(offset) + |Signed(n)| + 2 <= Limit()
      ensures ok ==> Terminated() && Printed() == old(Counted()) + Signed(n)
    {
      var text := Signed(n);
      SignedLength(n);
      ghost var before := Counted();
      ok := Ensure(|text| + 1);
      if !ok { return; }
      SignedNulFree(n);
      WriteString(text);
      offset := offset + |text|;
      assert buffer[offset..offset] == [];
      PrintedIs(offset);
    }

    /** Printed from the start, a buffer reads as what is printed. */
    lemma {:induction false} WholeBuffer(j: JSON)
      requires Valid() && Terminated() && Printable(j) && Printed() == Render(j, format, 0)
      ensures CString(buffer[..]) == Render(j, format, 0)
    {
      RenderNulFree(j, format, 0);
      var tail := buffer[offset..];
      var n := Length(tail);
      var e := offset + n;
      assert buffer[..][..e] == buffer[..offset] + tail[..n];
      assert tail[n] == buffer[..][e];
      LengthIs(buffer[..], e);
    }

    /** print_value for the three literals: strcpy into the ensured space. */
    method PrintWord(s: string) returns (ok: bool)
      requires Valid() && NulFree(s)
      modifies this`buffer, buffer
      ensures Valid() && (buffer == old(buffer) || (!noalloc && fresh(buffer))) && Limit() == old(Limit())
      ensures ok <==> offset + |s| + 2 <= Limit()
      ensures ok ==> Terminated() && Printed() == old(Counted()) + s
    {
      ok := Ensure(|s| + 1);
      if ok { WriteString(s); }
    }

    /** print_value. It fits exactly when two bytes more than its text fit. */
    method PrintValue(j: JSON) returns (ok: bool)
      requires Valid() && Printable(j)
      modifies this, buffer
      ensures Valid() && (buffer == old(buffer) || (!noalloc && fresh(buffer))) && Limit() == old(Limit())
      ensures ok <==> old(offset) + |Render(j, format, old(depth))| + 2 <= Limit()
      ensures ok ==> Terminated() && Printed() == old(Counted()) + Render(j, format, old(depth))
      ensures ok ==> depth == old(depth)
      decreases j, 1
    {
      match j
      case Null => ok := PrintWord("null");
      case False => ok := PrintWord("false");
      case True => ok := PrintWord("true");
      case Number(n) => ok := PrintNumber(n);
      case Str(s) => ok := PrintString(s);
      case Array(items) => ok := PrintArray(items);
      case Object(members) => ok := PrintObject(members);
    }

    /** Ensure some room, write a text without terminator and count it in. */
    method Put(needed: nat, s: string) returns (ok: bool)
      requires Valid() && |s| <= needed
      modifies this`buffer, this`offset, buffer
      ensures Valid() && (buffer == old(buffer) || (!noalloc && fresh(buffer))) && Limit() == old(Limit())
      ensures ok <==> old(offset) + needed + 1 <= Limit()
      ensures ok ==> Counted() == old(Counted()) + s
    {
      ok := Ensure(needed);
      if !ok { return; }
      Write(offset, s);
      offset := offset + |s|;
    }

    /** The same with a terminator behind the text. */
    method PutString(s: string) returns (ok: bool)
      requires Valid() && NulFree(s)
      modifies this`buffer, this`offset, buffer
      ensures Valid() && (buffer == old(buffer) || (!noalloc && fresh(buffer))) && Limit() == old(Limit())
      ensures ok <==> old(offset) + |s| + 2 <= Limit()
      ensures ok ==> Counted() == old(Counted()) + s
    {
      ok := Ensure(|s| + 1);
      if !ok { return; }
      WriteString(s);
      offset := offset + |s|;
    }

    method PrintArray(items: seq<JSON>) returns (ok: bool)
      requires Valid() && Printable(Array(items))
      modifies this, buffer
      ensures Valid() && (buffer == old(buffer) || (!noalloc && fresh(buffer))) && Limit() == old(Limit())
      ensures ok <==> old(offset) + |Render(Array(items), format, old(depth))| + 2 <= Limit()
      ensures ok ==> Terminated() && Printed() == old(Counted()) + Render(Array(items), format, old(depth))
      ensures ok ==> depth == old(depth)
      decreases items, 2
    {
      ghost var e := depth + 1;
      ArrayText(Counted(), items, format, depth, e);
      ok := PrintOpenArray(items, e);
      if !ok { return; }
      ok := PrintWord("]");
      depth := depth - 1;
    }

    /** The opening bracket and the items. */
    method PrintOpenArray(items: seq<JSON>, ghost e: nat) returns (ok: bool)
      requires Valid() && Printable(Array(items)) && e == depth + 1
      modifies this, buffer
      ensures Valid() && (buffer == old(buffer) || (!noalloc && fresh(buffer))) && Limit() == old(Limit())
      ensures !ok ==> old(offset) + 1 + |RenderItems(items, format, e)| + 2 > Limit()
      ensures ok ==> Counted() == old(Counted()) + "[" + RenderItems(items, format, e)
      ensures ok ==> depth == e
      decreases items, 1
    {
      ok := Put(1, "[");
      if !ok { return; }
      depth := depth + 1;
      ok := PrintItems(items);
    }

    /** The loop of print_array. */
    method PrintItems(items: seq<JSON>) returns (ok: bool)
      requires Valid() && Printable(Array(items))
      modifies this, buffer
      ensures Valid() && (buffer == old(buffer) || (!noalloc && fresh(buffer))) && Limit() == old(Limit())
      ensures !ok ==> old(offset) + |RenderItems(items, format, old(depth))| + 2 > Limit()
      ensures ok ==> Counted() == old(Counted()) + RenderItems(items, format, old(depth))
      ensures ok ==> depth == old(depth)
      decreases items, 0
    {
      ghost var whole, d := Counted() + RenderItems(items, format, depth), depth;
      assert items[0..] == items;
      for i := 0 to |items|
        invariant Valid() && (buffer == old(buffer) || (!noalloc && fresh(buffer))) && Limit() == old(Limit()) &&
                  depth == d
        invariant Counted() + RenderItems(items[i..], format, d) == whole
      {
        ghost var start, rest := Counted(), RenderItems(items[i + 1..], format, d);
        ItemsFrom(items, i, format, d);
        ok := PrintItem(items[i], i + 1 == |items|);
        if !ok { return; }
        Regroup(start, ItemText(items[i], format, d, i + 1 == |items|), rest);
      }
      assert RenderItems(items[|items|..], format, d) == [];
      ok := true;
    }

    /** One turn of that loop. */
    method PrintItem(j: JSON, last: bool) returns (ok: bool)
      requires Valid() && Printable(j)
      modifies this, buffer
      ensures Valid() && (buffer == old(buffer) || (!noalloc && fresh(buffer))) && Limit() == old(Limit())
      ensures !ok ==> old(offset) + |ItemText(j, format, old(depth), last)| + 2 > Limit()
      ensures ok ==> Counted() == old(Counted()) + ItemText(j, format, old(depth), last)
      ensures ok ==> depth == old(depth)
      decreases j, 2
    {
      ghost var before, text := Counted(), Render(j, format, depth);
      ok := PrintValue(j);
      if !ok { return; }
      UpdateOffset();
      if !last {
        ok := PutString(if format then ", " else ",");
      }
      Regroup(before, text, ItemEnd(format, last));
    }

    method PrintObject(members: seq<Member>) returns (ok: bool)
      requires Valid() && Printable(Object(members))
      modifies this, buffer
      ensures Valid() && (buffer == old(buffer) || (!noalloc && fresh(buffer))) && Limit() == old(Limit())
      ensures ok <==> old(offset) + |Render(Object(members), format, old(depth))| + 2 <= Limit()
      ensures ok ==> Terminated() && Printed() == old(Counted()) + Render(Object(members), format, old(depth))
      ensures ok ==> depth == old(depth)
      decreases members, 4
    {
      ok := PrintText(members, Render(Object(members), format, depth));
    }

    /** The same with a name for the text. */
    method PrintText(members: seq<Member>, ghost text: string) returns (ok: bool)
      requires Valid() && Printable(Object(members)) && text == Render(Object(members), format, depth)
      modifies this, buffer
      ensures Valid() && (buffer == old(buffer) || (!noalloc && fresh(buffer))) && Limit() == old(Limit())
      ensures ok <==> old(offset) + |text| + 2 <= Limit()
      ensures ok ==> Terminated() && Printed() == old(Counted()) + text
      ensures ok ==> depth == old(depth)
      decreases members, 3
    {
      ghost var inner, close := ObjectText(Counted(), members, format, depth, depth + 1);
      ok := PrintBraces(members, inner, close);
    }

    /** The body of print_object. */
    method PrintBraces(members: seq<Member>, ghost inner: string, ghost close: string) returns (ok: bool)
      requires Valid() && Printable(Object(members)) && inner == RenderMembers(members, format, depth + 1)
      requires close == Indent(format, depth) + "}"
      modifies this, buffer
      ensures Valid() && (buffer == old(buffer) || (!noalloc && fresh(buffer))) && Limit() == old(Limit())
      ensures ok <==> old(offset) + |OpenBrace(format)| + |inner| + |close| + 2 <= Limit()
      ensures ok ==> Terminated() && Printed() == old(Counted()) + OpenBrace(format) + inner + close
      ensures ok ==> depth == old(depth)
      decreases members, 2
    {
      ok := PrintOpenObject(members, inner);
      if !ok { return; }
      ok := CloseObject(close);
    }

    /** The opening brace and the members. */
    method PrintOpenObject(members: seq<Member>, ghost inner: string) returns (ok: bool)
      requires Valid() && Printable(Object(members)) && inner == RenderMembers(members, format, depth + 1)
      modifies this, buffer
      ensures Valid() && (buffer == old(buffer) || (!noalloc && fresh(buffer))) && Limit() == old(Limit())
      ensures !ok ==> old(offset) + |OpenBrace(format)| + |inner| + 2 > Limit()
      ensures ok ==> Counted() == old(Counted()) + OpenBrace(format) + inner
      ensures ok ==> offset == old(offset) + |OpenBrace(format)| + |inner| && depth == old(depth) + 1
      decreases members, 1
    {
      ok := OpenObject();
      if !ok { return; }
      ok := PrintMembers(members);
    }

    method OpenObject() returns (ok: bool)
      requires Valid()
      modifies this, buffer
      ensures Valid() && (buffer == old(buffer) || (!noalloc && fresh(buffer))) && Limit() == old(Limit())
      ensures ok <==> old(offset) + |OpenBrace(format)| + 2 <= Limit()
      ensures ok ==> Counted() == old(Counted()) + OpenBrace(format) && depth == old(depth) + 1
    {
      ok := Put(if format then 3 else 2, if format then "{\n" else "{");
      depth := depth + 1;
    }

    method CloseObject(ghost close: string) returns (ok: bool)
      requires Valid() && depth > 0 && close == Indent(format, depth - 1) + "}"
      modifies this`buffer, this`depth, buffer
      ensures Valid() && (buffer == old(buffer) || (!noalloc && fresh(buffer))) && Limit() == old(Limit())
      ensures ok <==> offset + |close| + 2 <= Limit()
      ensures ok ==> Terminated() && Printed() == old(Counted()) + close
      ensures depth == old(depth) - 1
    {
      depth := depth - 1;
      TabsText(depth);
      ok := PrintWord((if format then Tabs(depth) else "") + "}");
    }

    /** The loop of print_object. */
    method PrintMembers(members: seq<Member>) returns (ok: bool)
      requires Valid() && Printable(Object(members))
      modifies this, buffer
      ensures Valid() && (buffer == old(buffer) || (!noalloc && fresh(buffer))) && Limit() == old(Limit())
      ensures !ok ==> old(offset) + |RenderMembers(members, format, old(depth))| + 2 > Limit()
      ensures ok ==> Counted() == old(Counted()) + RenderMembers(members, format, old(depth))
      ensures ok ==> depth == old(depth)
      decreases members, 0
    {
      ghost var whole, d := Counted() + RenderMembers(members, format, depth), depth;
      assert members[0..] == members;
      for i := 0 to |members|
        invariant Valid() && (buffer == old(buffer) || (!noalloc && fresh(buffer))) && Limit() == old(Limit()) &&
                  depth == d
        invariant Counted() + RenderMembers(members[i..], format, d) == whole
      {
        ghost var start, rest := Counted(), RenderMembers(members[i + 1..], format, d);
        MembersFrom(members, i, format, d);
        ok := PrintMember(members[i], i + 1 == |members|);
        if !ok { return; }
        Regroup(start, MemberText(members[i], format, d, i + 1 == |members|), rest);
      }
      assert RenderMembers(members[|members|..], format, d) == [];
      ok := true;
    }

    /** One turn of that loop. */
    method PrintMember(m: Member, last: bool) returns (ok: bool)
      requires Valid() && NulFree(m.key) && Printable(m.value)
      modifies this, buffer
      ensures Valid() && (buffer == old(buffer) || (!noalloc && fresh(buffer))) && Limit() == old(Limit())
      ensures !ok ==> old(offset) + |MemberText(m, format, old(depth), last)| + 2 > Limit()
      ensures ok ==> Counted() == old(Counted()) + MemberText(m, format, old(depth), last)
      ensures ok ==> depth == old(depth)
      decreases m, 2
    {
      ghost var before, d := Counted(), depth;
      ok := PrintName(m.key);
      if !ok { return; }
      ok := PrintValue(m.value);
      if !ok { return; }
      UpdateOffset();
      ok := PutString((if last then "" else ",") + (if format then "\n" else ""));
      Regroup3(before, NameText(m.key, format, d), Render(m.value, format, d), MemberEnd(format, last));
    }

    /** The indentation, the key and the colon of a member. */
    method PrintName(key: string) returns (ok: bool)
      requires Valid() && NulFree(key)
      modifies this`buffer, this`offset, buffer
      ensures Valid() && (buffer == old(buffer) || (!noalloc && fresh(buffer))) && Limit() == old(Limit())
      ensures !ok ==> old(offset) + |NameText(key, format, depth)| + 1 > Limit()
      ensures ok ==> Counted() == old(Counted()) + NameText(key, format, depth)
    {
      ghost var before := Counted();
      if format {
        TabsText(depth);
        ok := Put(depth, Tabs(depth));
        if !ok { return; }
      }
      assert Counted() == before + Indent(format, depth);
      ok := PrintString(key);
      if !ok { return; }
      UpdateOffset();
      ok := Put(if format then 2 else 1, if format then ":\t" else ":");
      Regroup3(before, Indent(format, depth), Quoted(key), Colon(format));
    }
  }

  /** What one turn of the loop of print_array adds. */
  function ItemText(j: JSON, fmt: bool, d: nat, last: bool): string { Render(j, fmt, d) + ItemEnd(fmt, last) }

  function NameText(key: string, fmt: bool, d: nat): string { Indent(fmt, d) + Quoted(key) + Colon(fmt) }

  /** What one turn of the loop of print_object adds. */
  function MemberText(m: Member, fmt: bool, d: nat, last: bool): string {
    NameText(m.key, fmt, d) + Render(m.value, fmt, d) + MemberEnd(fmt, last)
  }

  lemma {:induction false} ItemsFrom(items: seq<JSON>, i: nat, fmt: bool, d: nat)
    requires i < |items|
    ensures RenderItems(items[i..], fmt, d) ==
            ItemText(items[i], fmt, d, i + 1 == |items|) + RenderItems(items[i + 1..], fmt, d)
  {
    assert items[i..][1..] == items[i + 1..] && items[i..][0] == items[i];
  }

  lemma {:induction false} MembersFrom(members: seq<Member>, i: nat, fmt: bool, d: nat)
    requires i < |members|
    ensures RenderMembers(members[i..], fmt, d) ==
            MemberText(members[i], fmt, d, i + 1 == |members|) + RenderMembers(members[i + 1..], fmt, d)
  {
    assert members[i..][1..] == members[i + 1..] && members[i..][0] == members[i];
  }

  lemma {:induction false} TabsText(d: nat)
    ensures |Tabs(d)| == d && NulFree(Tabs(d))
  {
    if d > 0 { TabsText(d - 1); }
  }

  lemma {:induction false} Regroup3(a: string, b: string, c: string, d: string)
    ensures a + b + c + d == a + (b + c + d)
  {
  }

  lemma {:induction false} CloseQuote(before: string, body: string)
    ensures before + "\"" + body + ['"', NUL] == before + ("\"" + body + "\"" + [NUL])
  {
  }

  lemma {:induction false} ArrayText(before: string, items: seq<JSON>, fmt: bool, d: nat, e: nat)
    requires e == d + 1
    ensures before + "[" + RenderItems(items, fmt, e) + "]" == before + Render(Array(items), fmt, d)
    ensures |Render(Array(items), fmt, d)| == |RenderItems(items, fmt, e)| + 2
  {
    Regroup3(before, "[", RenderItems(items, fmt, e), "]");
  }

  lemma {:induction false} ObjectText(before: string, members: seq<Member>, fmt: bool, d: nat, e: nat)
    returns (inner: string, close: string)
    requires e == d + 1
    ensures inner == RenderMembers(members, fmt, e) && close == Indent(fmt, d) + "}"
    ensures before + OpenBrace(fmt) + inner + close == before + Render(Object(members), fmt, d)
    ensures |Render(Object(members), fmt, d)| == |OpenBrace(fmt)| + |inner| + |close|
    ensures |close| > 0
  {
    inner, close := RenderMembers(members, fmt, e), Indent(fmt, d) + "}";
    Regroup4(before, OpenBrace(fmt), inner, Indent(fmt, d), "}");
  }

  lemma {:induction false} Regroup4(a: string, b: string, c: string, d: string, e: string)
    ensures a + b + c + (d + e) == a + (b + c + d + e)
  {
  }

  lemma {:induction false} EscapeStep(s: string, i: nat)
    requires i < |s|
    ensures Escape(s[..i + 1]) == Escape(s[..i]) + EscapeChar(s[i])
    ensures |Escape(s[..i + 1])| <= |Escape(s)|
    decreases |s|
  {
    if i == 0 {
      assert s[..1] == [s[0]] && s[..0] == [] && Escape([s[0]]) == EscapeChar(s[0]) + Escape([]);
    } else {
      EscapeStep(s[1..], i - 1);
      assert s[..i + 1][1..] == s[1..][..i] && s[..i][1..] == s[1..][..i - 1];
      Regroup(EscapeChar(s[0]), Escape(s[1..][..i - 1]), EscapeChar(s[i]));
    }
  }

  lemma {:induction false} NothingEscaped(s: string)
    requires |Escape(s)| == |s|
    ensures Escape(s) == s
  {
    if s != [] {
      EscapeLength(s[1..]);
      NothingEscaped(s[1..]);
      assert s == [s[0]] + s[1..];
    }
  }

  lemma {:induction false} EscapeLength(s: string)
    ensures |Escape(s)| >= |s|
  {
    if s != [] { EscapeLength(s[1..]); }
  }

  lemma {:induction false} QuotedNulFree(s: string)
    requires NulFree(s)
    ensures NulFree(Quoted(s)) && NulFree(Escape(s))
  {
    if s != [] {
      QuotedNulFree(s[1..]);
      assert NulFree(EscapeChar(s[0]));
    }
  }

  lemma {:induction false} SignedNulFree(n: int)
    ensures NulFree(Signed(n))
  {
    DecimalDigits(if n < 0 then -n else n);
  }

  // ----- the entry points

  const DEFAULT_BUFFER_SIZE: nat := 256

  /** cJSON_Print and cJSON_PrintUnformatted: a text of its own size. */
  method Print(j: JSON, format: bool) returns (printed: array?<char>)
    requires Printable(j)
    ensures printed == null <==> |Render(j, format, 0)| + 2 > INT_MAX
    ensures printed != null ==> fresh(printed) && printed[..] == Render(j, format, 0) + [NUL]
  {
    var start := new char[DEFAULT_BUFFER_SIZE];
    var p := new Buffer(start, false, format);
    assert p.Counted() == [];
    var ok := p.PrintValue(j);
    if !ok { return null; }
    p.UpdateOffset();
    var text := p.buffer[..p.offset];
    printed := new char[p.offset + 1](i => if 0 <= i < |text| then text[i] else NUL);
    assert printed[..] == text + [NUL];
  }

  /** cJSON_PrintBuffered: the buffer itself is handed out. */
  method PrintBuffered(j: JSON, prebuffer: int, format: bool) returns (printed: array?<char>)
    requires Printable(j) && IsInt(prebuffer)
    ensures printed == null <==> prebuffer < 0 || |Render(j, format, 0)| + 2 > INT_MAX
    ensures printed != null ==> fresh(printed) && CString(printed[..]) == Render(j, format, 0)
  {
    if prebuffer < 0 { return null; }
    var start := new char[prebuffer];
    var p := new Buffer(start, false, format);
    assert p.Counted() == [];
    var ok := p.PrintValue(j);
    if !ok { return null; }
    p.WholeBuffer(j);
    return p.buffer;
  }

  /** cJSON_PrintPreallocated: two bytes more than the text are needed, and enough. */
  method PrintPreallocated(j: JSON, buffer: array<char>, format: bool) returns (ok: bool)
    requires Printable(j) && buffer.Length <= INT_MAX
    modifies buffer
    ensures ok <==> |Render(j, format, 0)| + 2 <= buffer.Length
    ensures ok ==> CString(buffer[..]) == Render(j, format, 0)
  {
    var p := new Buffer(buffer, true, format);
    assert p.Counted() == [];
    ok := p.PrintValue(j);
    if ok { p.WholeBuffer(j); }
  }

  /** No printed document holds a NUL. */
  lemma {:induction false} RenderNulFree(j: JSON, fmt: bool, d: nat)
    requires Printable(j)
    ensures NulFree(Render(j, fmt, d))
    decreases j, 1
  {
    match j
    case Number(n) => SignedNulFree(n);
    case Str(s) => QuotedNulFree(s);
    case Array(items) => ItemsNulFree(items, fmt, d + 1);
    case Object(members) =>
      MembersNulFree(members, fmt, d + 1);
      TabsText(d);
    case _ =>
  }

  lemma {:induction false} ItemsNulFree(items: seq<JSON>, fmt: bool, d: nat)
    requires Printable(Array(items))
    ensures NulFree(RenderItems(items, fmt, d))
    decreases items, 0
  {
    if items != [] {
      RenderNulFree(items[0], fmt, d);
      ItemsNulFree(items[1..], fmt, d);
    }
  }

  lemma {:induction false} MembersNulFree(members: seq<Member>, fmt: bool, d: nat)
    requires Printable(Object(members))
    ensures NulFree(RenderMembers(members, fmt, d))
    decreases members, 0
  {
    if members != [] {
      TabsText(d);
      QuotedNulFree(members[0].key);
      RenderNulFree(members[0].value, fmt, d);
      MembersNulFree(members[1..], fmt, d);
    }
  }
}
