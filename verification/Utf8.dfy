/** UTF-16 escapes and UTF-8. */
module Utf8 {
  // One char of a text is one byte, so the bytes of an encoded code point are chars below 256.

  import opened Bits
  import opened Json

  /** A byte as a char of the text. */
  function Byte(b: nat): char
    requires b < 256
  {
    b as char
  }

  predicate IsScalar(cp: nat) { cp < 0xD800 || 0xE000 <= cp <= 0x10FFFF }

  predicate Tail(c: char) { 0x80 <= c as int < 0xC0 }

  /** The table of section 3 of RFC 3629: these chars are the encoding of cp. Overlong
      forms and surrogates are excluded by the bounds on cp. */
  ghost predicate Encodes(s: string, cp: nat) {
    IsScalar(cp) &&
    match |s|
    case 1 => cp < 0x80 && s[0] as int == cp
    case 2 =>
      0x80 <= cp < 0x800 && 0xC0 <= s[0] as int < 0xE0 && Tail(s[1]) &&
      cp == (s[0] as int - 0xC0) * 0x40 + (s[1] as int - 0x80)
    case 3 =>
      0x800 <= cp < 0x10000 && 0xE0 <= s[0] as int < 0xF0 && Tail(s[1]) && Tail(s[2]) &&
      cp == (s[0] as int - 0xE0) * 0x1000 + (s[1] as int - 0x80) * 0x40 + (s[2] as int - 0x80)
    case 4 =>
      0x10000 <= cp && 0xF0 <= s[0] as int < 0xF8 && Tail(s[1]) && Tail(s[2]) && Tail(s[3]) &&
      cp == (s[0] as int - 0xF0) * 0x40000 + (s[1] as int - 0x80) * 0x1000 + (s[2] as int - 0x80) * 0x40 +
        (s[3] as int - 0x80)
    case _ => false
  }

  function Utf8Length(cp: nat): nat {
    if cp < 0x80 then 1 else if cp < 0x800 then 2 else if cp < 0x10000 then 3 else 4
  }

  /** The first byte carries the length in its mark. */
  function Mark(length: nat): nat {
    match length
    case 2 => 0xC0
    case 3 => 0xE0
    case 4 => 0xF0
    case _ => 0
  }

  /** The last n continuation bytes for cp. */
  function Continuation(cp: nat, n: nat): (s: string)
    ensures |s| == n
  {
    if n == 0 then [] else Continuation(cp / 64, n - 1) + [Byte(0x80 + cp % 64)]
  }

  /** cp without its last n six-bit groups. */
  function Shift(cp: nat, n: nat): nat {
    if n == 0 then cp else Shift(cp / 64, n - 1)
  }

  lemma {:induction false} DroppedGroups(cp: nat)
    ensures Shift(cp, 0) == cp && Shift(cp, 1) == cp / 64
    ensures Shift(cp, 2) == cp / 64 / 64 && Shift(cp, 3) == cp / 64 / 64 / 64
  {
    var a := cp / 64;
    var b := a / 64;
    assert Shift(b, 1) == Shift(b / 64, 0) == b / 64;
    assert Shift(a, 1) == b && Shift(a, 2) == Shift(b, 1);
    assert Shift(cp, 2) == Shift(a, 1) && Shift(cp, 3) == Shift(a, 2);
  }

  lemma {:induction false} ContinuationIs(cp: nat)
    ensures Continuation(cp, 0) == [] && Continuation(cp, 1) == [Byte(0x80 + cp % 64)]
    ensures Continuation(cp, 2) == [Byte(0x80 + cp / 64 % 64), Byte(0x80 + cp % 64)]
    ensures Continuation(cp, 3) == [Byte(0x80 + cp / 64 / 64 % 64), Byte(0x80 + cp / 64 % 64), Byte(0x80 + cp % 64)]
  {
    var a := cp / 64;
    var b := a / 64;
    assert Continuation(b, 1) == Continuation(b / 64, 0) + [Byte(0x80 + b % 64)];
    assert Continuation(a, 2) == Continuation(b, 1) + [Byte(0x80 + a % 64)];
    assert Continuation(a, 1) == Continuation(b, 0) + [Byte(0x80 + a % 64)];
    assert Continuation(cp, 3) == Continuation(a, 2) + [Byte(0x80 + cp % 64)];
    assert Continuation(cp, 2) == Continuation(a, 1) + [Byte(0x80 + cp % 64)];
    assert Continuation(cp, 1) == Continuation(a, 0) + [Byte(0x80 + cp % 64)];
  }

  lemma {:induction false} ShiftBound(cp: nat)
    requires cp <= 0x10FFFF
    ensures Mark(Utf8Length(cp)) + Shift(cp, Utf8Length(cp) - 1) < 256
  {
    DroppedGroups(cp);
  }

  /** The bytes the encoding loop writes: six bits a byte from the back, the rest with the
      mark in front. */
  function Encoding(cp: nat): (s: string)
    requires cp <= 0x10FFFF
    ensures |s| == Utf8Length(cp)
  {
    var n := Utf8Length(cp);
    ShiftBound(cp);
    [Byte(Mark(n) + Shift(cp, n - 1))] + Continuation(cp, n - 1)
  }

  /** The loop computes the encoding of RFC 3629. */
  lemma {:induction false} EncodingIsUtf8(cp: nat)
    requires IsScalar(cp)
    ensures Encodes(Encoding(cp), cp)
  {
    var s := Encoding(cp);
    ShiftBound(cp);
    ContinuationIs(cp);
    DroppedGroups(cp);
  }

  /** No other text encodes the code point. */
  lemma {:induction false} EncodingUnique(s: string, t: string, cp: nat)
    requires Encodes(s, cp) && Encodes(t, cp)
    ensures s == t
  {
    assert |s| == |t|;
    if |s| == 1 {
    } else if |s| == 2 {
      Digits64(s[0] as int - 0xC0, s[1] as int - 0x80, t[0] as int - 0xC0, t[1] as int - 0x80);
    } else if |s| == 3 {
      Digits64((s[0] as int - 0xE0) * 0x40 + (s[1] as int - 0x80), s[2] as int - 0x80,
               (t[0] as int - 0xE0) * 0x40 + (t[1] as int - 0x80), t[2] as int - 0x80);
      Digits64(s[0] as int - 0xE0, s[1] as int - 0x80, t[0] as int - 0xE0, t[1] as int - 0x80);
    } else {
      Digits64((s[0] as int - 0xF0) * 0x1000 + (s[1] as int - 0x80) * 0x40 + (s[2] as int - 0x80), s[3] as int - 0x80,
               (t[0] as int - 0xF0) * 0x1000 + (t[1] as int - 0x80) * 0x40 + (t[2] as int - 0x80), t[3] as int - 0x80);
      Digits64((s[0] as int - 0xF0) * 0x40 + (s[1] as int - 0x80), s[2] as int - 0x80,
               (t[0] as int - 0xF0) * 0x40 + (t[1] as int - 0x80), t[2] as int - 0x80);
      Digits64(s[0] as int - 0xF0, s[1] as int - 0x80, t[0] as int - 0xF0, t[1] as int - 0x80);
    }
  }

  lemma {:induction false} Digits64(a: int, b: int, c: int, d: int)
    requires a * 0x40 + b == c * 0x40 + d && 0 <= b < 0x40 && 0 <= d < 0x40
    ensures a == c && b == d
  {
  }

  // ----- the bit operations of the source, as arithmetic

  /** (codepoint | 0x80) & 0xBF is 0x80 plus the last six bits. */
  lemma {:induction false} ContinuationBits(x: nat)
    ensures And(Or(x, 0x80), 0xBF) == 0x80 + x % 64
  {
    var q, r := x / 64, x % 64;
    Powers();
    ShiftIs(q);
    ShiftIs(2);
    OrSplit(q, r, 2, 0, 6);
    OrZero(r);
    ShiftIs(Or(q, 2));
    AndSplit(Or(q, 2), r, 2, 63, 6);
    AllOnes(r, 6);
    KeepsSecondBit(q);
  }

  lemma {:induction false} KeepsSecondBit(q: nat)
    ensures And(Or(q, 2), 2) == 2
  {
    var a, b := q / 2, q % 2;
    OrStep(a, b, 1, 0, q, 2);
    AndStep(Or(a, 1), b, 1, 0, Or(q, 2), 2);
    OrStep(a / 2, a % 2, 0, 1, a, 1);
    AndStep(Or(a / 2, 0), 1, 0, 1, Or(a, 1), 1);
    AndZero(Or(a / 2, 0));
  }

  /** The first byte: (codepoint | first_byte_mark) & 0xFF, or codepoint & 0x7F. */
  lemma {:induction false} FirstByteBits(x: nat, length: nat)
    requires 1 <= length <= 4 && x < match length case 1 => 0x80 case 2 => 0x20 case 3 => 0x10 case _ => 0x08
    ensures (if length > 1 then And(Or(x, Mark(length)), 0xFF) else And(x, 0x7F)) == Mark(length) + x
  {
    Powers();
    match length
    case 1 =>
      ShiftIs(0);
      AndOnes(0, x, 7);
    case 2 => ShiftIs(6); MarkedByte(x, 6, 5, 0xC0);
    case 3 => ShiftIs(14); MarkedByte(x, 14, 4, 0xE0);
    case _ => ShiftIs(30); MarkedByte(x, 30, 3, 0xF0);
  }

  lemma {:induction false} MarkedByte(x: nat, high: nat, k: nat, mark: nat)
    requires x < Power2(k) && mark == ShiftLeft(high, k) && mark + x < 256
    ensures And(Or(x, mark), 0xFF) == mark + x
  {
    Powers();
    OrCommutes(x, mark);
    OrDisjoint(high, x, k);
    ShiftIs(0);
    AndOnes(0, mark + x, 8);
  }

  /** The code point of a surrogate pair (section 2.2 of RFC 2781). */
  lemma {:induction false} PairBits(a: nat, b: nat)
    requires 0xD800 <= a <= 0xDBFF && 0xDC00 <= b <= 0xDFFF
    ensures 0x10000 + Or(ShiftLeft(And(a, 0x3FF), 10), And(b, 0x3FF)) == 0x10000 + (a - 0xD800) * 0x400 + (b - 0xDC00)
  {
    Powers();
    ShiftIs(54);
    ShiftIs(55);
    AndOnes(54, a - 0xD800, 10);
    AndOnes(55, b - 0xDC00, 10);
    ShiftIs(a - 0xD800);
    OrDisjoint(a - 0xD800, b - 0xDC00, 10);
  }

  // ----- escapes

  predicate IsHex(c: char) { '0' <= c <= '9' || 'A' <= c <= 'F' || 'a' <= c <= 'f' }

  function HexValue(c: char): (v: nat)
    requires IsHex(c)
    ensures v < 16
  {
    if '0' <= c <= '9' then c as int - '0' as int
    else if 'A' <= c <= 'F' then 10 + c as int - 'A' as int
    else 10 + c as int - 'a' as int
  }

  predicate AllHex(s: string) { forall i :: 0 <= i < |s| ==> IsHex(s[i]) }

  /** parse_hex4: four hexadecimal digits, or 0 when one of them is none. */
  function Hex4(s: string): (v: nat)
    requires |s| == 4
    ensures v < 0x10000
  {
    if AllHex(s) then
      HexValue(s[0]) * 0x1000 + HexValue(s[1]) * 0x100 + HexValue(s[2]) * 0x10 + HexValue(s[3])
    else 0
  }

  method ParseHex4(s: string) returns (h: nat)
    requires |s| == 4
    ensures h == Hex4(s)
  {
    h := 0;
    for i := 0 to 4
      invariant AllHex(s[..i])
      invariant h == match i
                     case 0 => 0
                     case 1 => HexValue(s[0]) * 0x10
                     case 2 => (HexValue(s[0]) * 0x10 + HexValue(s[1])) * 0x10
                     case 3 => ((HexValue(s[0]) * 0x10 + HexValue(s[1])) * 0x10 + HexValue(s[2])) * 0x10
                     case _ =>
                         ((HexValue(s[0]) * 0x10 + HexValue(s[1])) * 0x10 + HexValue(s[2])) * 0x10 + HexValue(s[3])
    {
      assert s[..i + 1] == s[..i] + [s[i]];
      if !IsHex(s[i]) { return 0; }
      h := h + HexValue(s[i]);
      if i < 3 { h := h * 16; }
    }
    assert s[..4] == s;
  }

  /** What utf16_literal_to_utf8 reads at a `\u`: the chars used and the code point, or
      nothing. */
  datatype Literal = NoLiteral | Literal(length: nat, cp: nat)

  function ReadLiteral(c: string, p: nat, end: nat): (r: Literal)
    requires p < end <= |c|
    ensures r.Literal? ==> r.length in {6, 12} && p + r.length <= end && IsScalar(r.cp)
  {
    if end - p < 6 then NoLiteral
    else
      var first := Hex4(c[p + 2..p + 6]);
      if 0xDC00 <= first <= 0xDFFF then NoLiteral
      else if 0xD800 <= first <= 0xDBFF then
        if end - (p + 6) < 6 || c[p + 6] != '\\' || c[p + 7] != 'u' then NoLiteral
        else
          var second := Hex4(c[p + 8..p + 12]);
          if second < 0xDC00 || second > 0xDFFF then NoLiteral
          else Literal(12, 0x10000 + (first - 0xD800) * 0x400 + (second - 0xDC00))
      else Literal(6, first)
  }

  /** utf16_literal_to_utf8: the chars of the escape that are used, or 0, and the bytes
      written. */
  method Utf16LiteralToUtf8(c: string, p: nat, end: nat, out: array<char>, at: nat) returns (used: nat, written: nat)
    requires p < end <= |c|
    requires match ReadLiteral(c, p, end)
             case NoLiteral => true
             case Literal(_, cp) => at + Utf8Length(cp) <= out.Length
    modifies out
    ensures match ReadLiteral(c, p, end)
            case NoLiteral => used == 0 && written == 0 && out[..] == old(out[..])
            case Literal(length, cp) =>
                used == length && written == Utf8Length(cp) && out[at..at + written] == Encoding(cp)
    ensures forall i :: 0 <= i < out.Length && !(at <= i < at + written) ==> out[i] == old(out[i])
  {
    var codepoint;
    used, codepoint := ReadUtf16(c, p, end);
    if used == 0 { return 0, 0; }
    written := Utf8Length(codepoint);
    WriteUtf8(out, at, codepoint);
  }

  /** Its first half, up to the code point. */
  method ReadUtf16(c: string, p: nat, end: nat) returns (used: nat, codepoint: nat)
    requires p < end <= |c|
    ensures match ReadLiteral(c, p, end)
            case NoLiteral => used == 0
            case Literal(length, cp) => used == length && codepoint == cp
  {
    used, codepoint := 0, 0;
    if end - p < 6 { return; }
    var first := ParseHex4(c[p + 2..p + 6]);
    if 0xDC00 <= first <= 0xDFFF { return; }
    if 0xD800 <= first <= 0xDBFF {
      if end - (p + 6) < 6 { return; }
      if c[p + 6] != '\\' || c[p + 7] != 'u' { return; }
      var second := ParseHex4(c[p + 8..p + 12]);
      if second < 0xDC00 || second > 0xDFFF { return; }
      PairBits(first, second);
      codepoint := 0x10000 + Or(ShiftLeft(And(first, 0x3FF), 10), And(second, 0x3FF));
      used := 12;
    } else {
      codepoint := first;
      used := 6;
    }
  }

  /** One more continuation byte before those that are written. */
  lemma {:induction false} ContinuationStep(rest: nat, position: nat, left: nat, done: string) returns (more: string)
    requires position == left + 1
    ensures more == [Byte(0x80 + rest % 64)] + done && Shift(rest, position) == Shift(rest / 64, left)
    ensures Continuation(rest, position) + done == Continuation(rest / 64, left) + more
  {
    more := [Byte(0x80 + rest % 64)] + done;
  }

  method PutContinuation(out: array<char>, i: nat, end: nat, cp: nat, ghost done: string) returns (rest: nat)
    requires i < end <= out.Length && out[i + 1..end] == done
    modifies out
    ensures out[i..end] == [Byte(0x80 + cp % 64)] + done && rest == cp / 64
    ensures forall j :: 0 <= j < out.Length && j != i ==> out[j] == old(out[j])
  {
    ContinuationBits(cp);
    ShiftRightSix(cp);
    out[i] := Byte(And(Or(cp, 0x80), 0xBF));
    assert out[i..end] == [out[i]] + out[i + 1..end];
    rest := ShiftRight(cp, 6);
  }

  /** The loop that writes the bytes of a code point from the back. */
  method WriteUtf8(out: array<char>, at: nat, cp: nat)
    requires cp <= 0x10FFFF && at + Utf8Length(cp) <= out.Length
    modifies out
    ensures out[at..at + Utf8Length(cp)] == Encoding(cp)
    ensures forall i :: 0 <= i < out.Length && !(at <= i < at + Utf8Length(cp)) ==> out[i] == old(out[i])
  {
    var n := Utf8Length(cp);
    var rest := cp;
    var position := n - 1;
    ghost var done: string := [];
    while position > 0
      invariant 0 <= position < n && position + |done| + 1 == n
      invariant out[at + position + 1..at + n] == done
      invariant Continuation(rest, position) + done == Continuation(cp, n - 1)
      invariant Shift(rest, position) == Shift(cp, n - 1)
      invariant forall i :: 0 <= i < out.Length && !(at < i < at + n) ==> out[i] == old(out[i])
    {
      ghost var more := ContinuationStep(rest, position, position - 1, done);
      rest := PutContinuation(out, at + position, at + n, rest, done);
      done, position := more, position - 1;
    }
    ShiftBound(cp);
    DroppedGroups(cp);
    FirstByteBits(rest, n);
    out[at] := Byte(if n > 1 then And(Or(rest, Mark(n)), 0xFF) else And(rest, 0x7F));
    assert out[at..at + n] == [out[at]] + out[at + 1..at + n];
  }
}
