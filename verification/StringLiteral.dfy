/** parse_string with its two passes. */
module StringLiteral {
  // The first pass finds the end of a string literal and the size to allocate, the second one
  // decodes it.

  import opened Json
  import opened Text
  import opened Utf8

  // ----- first pass

  /** Where the first pass stops when it goes on from i: at the closing quote. */
  function FindEnd(c: string, i: nat): Option<nat>
    requires i <= |c|
    decreases |c| - i
  {
    if i == |c| then None
    else if c[i] == '"' then Some(i)
    else if c[i] == '\\' then if i + 1 == |c| then None else FindEnd(c, i + 2)
    else FindEnd(c, i + 1)
  }

  lemma {:induction false} FindEndIsQuote(c: string, i: nat)
    requires i <= |c|
    ensures FindEnd(c, i).Some? ==> i <= FindEnd(c, i).value < |c| && c[FindEnd(c, i).value] == '"'
    decreases |c| - i
  {
    if i < |c| && c[i] != '"' {
      if c[i] == '\\' {
        if i + 1 < |c| { FindEndIsQuote(c, i + 2); }
      } else {
        FindEndIsQuote(c, i + 1);
      }
    }
  }

  /** The first pass, going on from i, arrives exactly at end. */
  predicate Aligned(c: string, i: nat, end: nat)
    requires end <= |c|
    decreases end - i
  {
    if i >= end then i == end
    else if c[i] == '\\' then Aligned(c, i + 2, end)
    else c[i] != '"' && Aligned(c, i + 1, end)
  }

  /** The number of steps the first pass takes: the body's length less one for every
      escape. */
  function Steps(c: string, i: nat, end: nat): nat
    requires end <= |c|
    decreases end - i
  {
    if i >= end then 0
    else if c[i] == '\\' then 1 + Steps(c, i + 2, end)
    else 1 + Steps(c, i + 1, end)
  }

  lemma {:induction false} FindEndAligned(c: string, i: nat, end: nat)
    requires i <= |c| && end < |c| && FindEnd(c, i) == Some(end)
    ensures Aligned(c, i, end)
    decreases |c| - i
  {
    FindEndIsQuote(c, i);
    if c[i] == '\\' {
      FindEndAligned(c, i + 2, end);
      FindEndIsQuote(c, i + 2);
    } else if c[i] != '"' {
      FindEndAligned(c, i + 1, end);
      FindEndIsQuote(c, i + 1);
    }
  }

  // ----- second pass

  /** The text decoded so far, where the pass stopped, and whether the whole body was well
      formed. */
  datatype Decoded = Decoded(text: string, stop: nat, ok: bool)

  function Before(s: string, d: Decoded): Decoded { Decoded(s + d.text, d.stop, d.ok) }

  /** The char a one-letter escape stands for. */
  function Unescape(e: char): Option<char> {
    match e
    case 'b' => Some('\U{0008}')
    case 'f' => Some('\U{000C}')
    case 'n' => Some('\n')
    case 'r' => Some('\r')
    case 't' => Some('\t')
    case _ => if e == '"' || e == '\\' || e == '/' then Some(e) else None
  }

  /** The second pass from p. It may step past the end when the two passes have fallen
      out of step; the closing quote is still there to be read. */
  function Decode(c: string, p: nat, end: nat): Decoded
    requires end < |c|
    decreases end - p, 1
  {
    if p >= end then Decoded([], p, true)
    else if c[p] != '\\' then Before([c[p]], Decode(c, p + 1, end))
    else DecodeEscape(c, p, end)
  }

  function DecodeEscape(c: string, p: nat, end: nat): Decoded
    requires p < end < |c|
    decreases end - p, 0
  {
    if c[p + 1] == 'u' then
      (match ReadLiteral(c, p, end)
       case NoLiteral => Decoded([], p, false)
       case Literal(length, cp) => Before(Encoding(cp), Decode(c, p + length, end)))
    else
      match Unescape(c[p + 1])
      case None => Decoded([], p, false)
      case Some(x) => Before([x], Decode(c, p + 2, end))
  }

  // ----- the allocation suffices

  /** Four chars are at least two steps of the first pass, and four steps when they are
      hexadecimal digits. If the pass does not stop behind them it stops one further on,
      having taken at least three steps. */
  lemma {:induction false} FourChars(c: string, q: nat, end: nat) returns (next: nat)
    requires end <= |c| && q + 4 <= end && Aligned(c, q, end)
    ensures Aligned(c, next, end)
    ensures (next == q + 4 && Steps(c, q, end) >= 2 + Steps(c, next, end)) ||
            (next == q + 5 && Steps(c, q, end) >= 3 + Steps(c, next, end))
    ensures AllHex(c[q..q + 4]) ==> next == q + 4 && Steps(c, q, end) == 4 + Steps(c, next, end)
  {
    var h := c[q..q + 4];
    assert h[0] == c[q] && h[1] == c[q + 1] && h[2] == c[q + 2] && h[3] == c[q + 3];
    next := StepOn(c, q, end);
    if next < q + 4 { next := StepOn(c, next, end); }
    if next < q + 4 { next := StepOn(c, next, end); }
    if next < q + 4 { next := StepOn(c, next, end); }
  }

  lemma {:induction false} StepOn(c: string, q: nat, end: nat) returns (next: nat)
    requires end <= |c| && q < end && Aligned(c, q, end)
    ensures next == (if c[q] == '\\' then q + 2 else q + 1) && next <= end
    ensures Aligned(c, next, end) && Steps(c, q, end) == 1 + Steps(c, next, end)
  {
    next := if c[q] == '\\' then q + 2 else q + 1;
  }

  /** The bytes the second pass writes from p on. When p is a stop of the first pass they
      are no more than its remaining steps; when p is inside an escape of the first pass
      they can be one more. */
  lemma {:induction false} DecodeBound(c: string, p: nat, end: nat, inside: bool)
    requires end < |c| && c[end] == '"'
    requires if inside then p < end && Aligned(c, p + 1, end) else Aligned(c, p, end)
    ensures |Decode(c, p, end).text| <= if inside then Steps(c, p + 1, end) + 1 else Steps(c, p, end)
    decreases end - p
  {
    if p < end {
      if c[p] != '\\' {
        if !inside { var _ := StepOn(c, p, end); }
        DecodeBound(c, p + 1, end, false);
      } else if c[p + 1] == 'u' {
        LiteralBound(c, p, end, inside);
      } else if Unescape(c[p + 1]).Some? {
        if !inside {
          var next := StepOn(c, p, end);
          DecodeBound(c, next, end, false);
        } else if p + 1 < end {
          var next := StepOn(c, p + 1, end);
          DecodeBound(c, p + 2, end, next == p + 3);
        } else {
          assert Decode(c, p + 2, end).text == [];
        }
      }
    }
  }

  lemma {:induction false} LiteralBound(c: string, p: nat, end: nat, inside: bool)
    requires end < |c| && c[end] == '"' && p < end && c[p] == '\\' && c[p + 1] == 'u'
    requires if inside then Aligned(c, p + 1, end) else Aligned(c, p, end)
    ensures |Decode(c, p, end).text| <= if inside then Steps(c, p + 1, end) + 1 else Steps(c, p, end)
    decreases end - p, 0
  {
    var r := ReadLiteral(c, p, end);
    if r.Literal? {
      var _ := StepOn(c, if inside then p + 1 else p, end);
      assert Aligned(c, p + 2, end);
      var next := FourChars(c, p + 2, end);
      if r.length == 6 {
        DecodeBound(c, p + 6, end, next == p + 7);
      } else {
        var second := StepOn(c, p + 6, end);
        var last := FourChars(c, p + 8, end);
        DecodeBound(c, p + 12, end, false);
      }
    }
  }

  // ----- the whole of parse_string

  /** Either a result and where reading goes on, or the offset of an error. */
  datatype Parsed<+T> = Failed(offset: nat) | Done(value: T, offset: nat)

  /** parse_string with the buffer standing at offset at. The item's valuestring ends at
      the first NUL that was decoded. */
  function ParseString(c: string, at: nat): (r: Parsed<string>)
    requires at < |c|
    ensures r.Done? ==> at + 2 <= r.offset <= |c| && c[r.offset - 1] == '"' && NulFree(r.value)
    ensures at < r.offset <= |c|
  {
    if c[at] != '"' then Failed(at + 1)
    else
      match FindEnd(c, at + 1)
      case None => Failed(at + 1)
      case Some(end) =>
        FindEndIsQuote(c, at + 1);
        var d := Decode(c, at + 1, end);
        StopsInside(c, at + 1, end);
        if d.ok then Done(CString(d.text), end + 1) else Failed(d.stop)
  }

  lemma {:induction false} StopsInside(c: string, p: nat, end: nat)
    requires end < |c|
    ensures p <= Decode(c, p, end).stop && (!Decode(c, p, end).ok ==> Decode(c, p, end).stop < end)
    decreases end - p
  {
    if p < end {
      if c[p] != '\\' {
        StopsInside(c, p + 1, end);
      } else if c[p + 1] == 'u' {
        var r := ReadLiteral(c, p, end);
        if r.Literal? { StopsInside(c, p + r.length, end); }
      } else if Unescape(c[p + 1]).Some? {
        StopsInside(c, p + 2, end);
      }
    }
  }

  /** The first pass: the closing quote and the number of escapes. */
  method MeasureString(c: string, at: nat) returns (ok: bool, end: nat, skipped: nat)
    requires at < |c|
    ensures ok == FindEnd(c, at + 1).Some?
    ensures ok ==> end < |c| && FindEnd(c, at + 1) == Some(end)
    ensures ok ==> at < end && end - (at + 1) - skipped == Steps(c, at + 1, end)
  {
    end, skipped := at + 1, 0;
    ghost var stop := FindEnd(c, end);
    FindEndIsQuote(c, end);
    while end < |c| && c[end] != '"'
      invariant at + 1 <= end <= |c| && FindEnd(c, end) == stop
      invariant stop.Some? ==> end <= stop.value
      invariant stop.Some? ==> Steps(c, at + 1, stop.value) == end - (at + 1) - skipped + Steps(c, end, stop.value)
      decreases |c| - end
    {
      FindEndIsQuote(c, end);
      if c[end] == '\\' {
        if end + 1 >= |c| { return false, end, skipped; }
        FindEndIsQuote(c, end + 2);
        skipped, end := skipped + 1, end + 1;
      } else {
        FindEndIsQuote(c, end + 1);
      }
      end := end + 1;
    }
    ok := end < |c|;
  }

  /** The second pass fills the allocation: every write is inside it, and it ends up
      holding the decoded text and its terminator. */
  method DecodeString(c: string, at: nat, end: nat, skipped: nat) returns (out: array<char>, p: nat, ok: bool)
    requires at < end < |c| && FindEnd(c, at + 1) == Some(end)
    requires end - (at + 1) - skipped == Steps(c, at + 1, end)
    ensures fresh(out) && out.Length == end - at - skipped + 1
    ensures ok == Decode(c, at + 1, end).ok && (!ok ==> p == Decode(c, at + 1, end).stop)
    ensures ok ==> |Decode(c, at + 1, end).text| < out.Length
    ensures ok ==> out[..|Decode(c, at + 1, end).text|] == Decode(c, at + 1, end).text
    ensures ok ==> out[|Decode(c, at + 1, end).text|] == NUL
  {
    p := at + 1;
    ghost var all := Decode(c, p, end);
    FindEndAligned(c, p, end);
    FindEndIsQuote(c, p);
    DecodeBound(c, p, end, false);
    out := new char[end - at - skipped + 1];
    var length: nat := 0;
    while p < end
      invariant |all.text| + 1 < out.Length && length <= |all.text|
      invariant Before(out[..length], Decode(c, p, end)) == all
      decreases end - p
    {
      var used;
      used, length := DecodeTurn(c, p, end, out, length, all);
      if used == 0 { ok := false; return; }
      p := p + used;
    }
    out[length] := NUL;
    ok := true;
  }

  /** The body of that loop: how many chars of the literal it reads, 0 on an error. */
  method DecodeTurn(c: string, p: nat, end: nat, out: array<char>, length: nat, ghost all: Decoded)
    returns (used: nat, next: nat)
    requires p < end < |c| && length <= |all.text| && |all.text| + 1 < out.Length
    requires Before(out[..length], Decode(c, p, end)) == all
    modifies out
    ensures used == 0 ==> !all.ok && all.stop == p
    ensures used > 0 ==> next <= |all.text| && Before(out[..next], Decode(c, p + used, end)) == all
  {
    if c[p] != '\\' {
      Append(out[..length], [c[p]], Decode(c, p + 1, end), all);
      next := PutChar(out, length, c[p]);
      used := 1;
    } else if c[p + 1] == 'u' {
      ghost var r := ReadLiteral(c, p, end);
      if r.Literal? { Append(out[..length], Encoding(r.cp), Decode(c, p + r.length, end), all); }
      used, next := PutLiteral(c, p, end, out, length);
    } else {
      var x := Unescape(c[p + 1]);
      if x.None? { return 0, length; }
      Append(out[..length], [x.value], Decode(c, p + 2, end), all);
      next := PutChar(out, length, x.value);
      used := 2;
    }
  }

  method PutChar(out: array<char>, length: nat, x: char) returns (next: nat)
    requires length < out.Length
    modifies out
    ensures next == length + 1 && out[..next] == old(out[..length]) + [x]
  {
    out[length] := x;
    next := length + 1;
  }

  method PutLiteral(c: string, p: nat, end: nat, out: array<char>, length: nat) returns (used: nat, next: nat)
    requires p < end <= |c|
    requires match ReadLiteral(c, p, end)
             case NoLiteral => true
             case Literal(_, cp) => length + Utf8Length(cp) <= out.Length
    modifies out
    ensures match ReadLiteral(c, p, end)
            case NoLiteral => used == 0
            case Literal(n, cp) =>
              used == n && next == length + Utf8Length(cp) && out[..next] == old(out[..length]) + Encoding(cp)
  {
    var written;
    used, written := Utf16LiteralToUtf8(c, p, end, out, length);
    next := length + written;
    if used > 0 {
      assert out[..length] == old(out[..length]);
      assert out[..next] == out[..length] + out[length..next];
    }
  }

  lemma {:induction false} Append(done: string, s: string, rest: Decoded, all: Decoded)
    requires Before(done, Before(s, rest)) == all
    ensures Before(done + s, rest) == all && |done + s| <= |all.text|
  {
    Regroup(done, s, rest.text);
  }

  /** Both passes. No buffer comes back on an error. */
  method ParseStringLoop(c: string, at: nat) returns (out: array?<char>, offset: nat)
    requires at < |c|
    ensures out == null <==> ParseString(c, at).Failed?
    ensures offset == ParseString(c, at).offset
    ensures out != null ==> fresh(out) && CString(out[..]) == ParseString(c, at).value
  {
    if c[at] != '"' { return null, at + 1; }
    var found, end, skipped := MeasureString(c, at);
    if !found { return null, at + 1; }
    var buffer, p, ok := DecodeString(c, at, end, skipped);
    if !ok { return null, p; }
    TerminatedReads(buffer[..], Decode(c, at + 1, end).text);
    return buffer, end + 1;
  }

  /** A buffer that holds s and a NUL behind it reads like s. */
  lemma {:induction false} TerminatedReads(b: string, s: string)
    requires |s| < |b| && b[..|s|] == s && b[|s|] == NUL
    ensures CString(b) == CString(s)
  {
    var n := Length(s);
    assert b[..n] == s[..n] && (n < |s| ==> b[n] == s[n]);
    LengthIs(b, n);
  }
}
