/** The codecs of mjson undo each other. */
module Codec {
  import opened Bits
  import opened Json
  import opened Scanner
  import opened Text

  // ----- escapes

  /** mjson_esc(c, 1): the letter of a short escape, or NUL. */
  function Escaped(c: char): char {
    match c
    case '\U{0008}' => 'b'
    case '\U{000C}' => 'f'
    case '\n' => 'n'
    case '\r' => 'r'
    case '\t' => 't'
    case _ => if c == '\\' || c == '"' || c == '/' then c else NUL
  }

  /** mjson_esc(c, 0): the char a letter stands for, or NUL. */
  function Unescaped(c: char): char {
    match c
    case 'b' => '\U{0008}'
    case 'f' => '\U{000C}'
    case 'n' => '\n'
    case 'r' => '\r'
    case 't' => '\t'
    case _ => if c == '\\' || c == '"' || c == '/' then c else NUL
  }

  const RAW: string := "\U{0008}\U{000C}\n\r\t\\\"/"
  const LETTERS: string := "bfnrt\\\"/"

  /** The search through the two tables. */
  method Esc(c: char, escape: bool) returns (r: char)
    ensures r == if escape then Escaped(c) else Unescaped(c)
  {
    var from := if escape then RAW else LETTERS;
    var onto := if escape then LETTERS else RAW;
    for i := 0 to 8
      invariant c !in from[..i]
    {
      assert from[..i + 1] == from[..i] + [from[i]];
      if from[i] == c { return onto[i]; }
    }
    assert from[..8] == from;
    NotInTables(c, escape);
    return NUL;
  }

  lemma {:induction false} NotInTables(c: char, escape: bool)
    requires c !in if escape then RAW else LETTERS
    ensures (if escape then Escaped(c) else Unescaped(c)) == NUL
  {
    assert RAW[0] == '\U{0008}' && RAW[1] == '\U{000C}' && RAW[2] == '\n' && RAW[3] == '\r' && RAW[4] == '\t' &&
           RAW[5] == '\\' && RAW[6] == '"' && RAW[7] == '/';
    assert LETTERS[0] == 'b' && LETTERS[1] == 'f' && LETTERS[2] == 'n' && LETTERS[3] == 'r' && LETTERS[4] == 't' &&
           LETTERS[5] == '\\' && LETTERS[6] == '"' && LETTERS[7] == '/';
  }

  /** What mjson_print_str writes for a char, and between the quotes. */
  function Spelled(c: char): string { if Escaped(c) != NUL then ['\\', Escaped(c)] else [c] }

  function Body(s: string): string { if s == [] then [] else Spelled(s[0]) + Body(s[1..]) }

  function PrintedString(s: string): string { "\"" + Body(s) + "\"" }

  lemma {:induction false} BodyStep(s: string, i: nat)
    requires i < |s|
    ensures Body(s[..i + 1]) == Body(s[..i]) + Spelled(s[i])
    decreases |s|
  {
    if i == 0 {
      assert s[..1] == [s[0]] && s[..0] == [] && Body([s[0]]) == Spelled(s[0]) + Body([]);
    } else {
      BodyStep(s[1..], i - 1);
      assert s[..i + 1][1..] == s[1..][..i] && s[..i][1..] == s[1..][..i - 1];
      Regroup(Spelled(s[0]), Body(s[1..][..i - 1]), Spelled(s[i]));
    }
  }

  /** mjson_print_str onto an output that takes everything: the text and its length. */
  method PrintStr(s: string) returns (out: string, n: nat)
    ensures out == PrintedString(s) && n == |out|
  {
    out, n := "\"", 1;
    assert s[..0] == [] && Body([]) == [];
    for i := 0 to |s|
      invariant out == "\"" + Body(s[..i]) && n == |out|
    {
      BodyStep(s, i);
      var c := Esc(s[i], true);
      Regroup("\"", Body(s[..i]), Spelled(s[i]));
      if c != NUL {
        out, n := out + "\\", n + 1;
        out, n := out + [c], n + 1;
      } else {
        out, n := out + [s[i]], n + 1;
      }
    }
    assert s[..|s|] == s;
    out, n := out + "\"", n + 1;
  }

  /** The string a body stands for; an unknown escape has none. */
  function Decoded(s: string): Option<string> {
    if s == [] then Some([])
    else if s[0] == '\\' && |s| > 1 then
      if Unescaped(s[1]) == NUL then None else Cons(Unescaped(s[1]), Decoded(s[2..]))
    else Cons(s[0], Decoded(s[1..]))
  }

  function Cons(c: char, r: Option<string>): Option<string> { if r.None? then None else Some([c] + r.value) }

  /** mjson_unescape into n bytes: the length, or -1 for an unknown escape and for a result
      that does not fit with its terminator. */
  method Unescape(s: string, to: array<char>, n: nat) returns (j: int)
    requires n <= to.Length
    modifies to
    ensures match Decoded(s)
            case None => j == -1
            case Some(t) => j == (if |t| < n then |t| else -1) && (|t| < n ==> to[..|t|] == t && to[|t|] == NUL)
  {
    var i: nat, k: nat := 0, 0;
    assert s[0..] == s && to[..0] == [];
    AheadNothing(Decoded(s));
    while i < |s| && k < n
      invariant i <= |s| && k <= n
      invariant Ahead(to[..k], Decoded(s[i..])) == Decoded(s)
    {
      ghost var done, rest := to[..k], s[i..];
      assert rest[0] == s[i] && rest[1..] == s[i + 1..];
      if s[i] == '\\' && i + 1 < |s| {
        assert rest[1] == s[i + 1] && rest[2..] == s[i + 2..];
        var c := Esc(s[i + 1], false);
        if c == NUL { return -1; }
        AheadCons(done, c, Decoded(s[i + 2..]));
        to[k] := c;
        i := i + 1;
      } else {
        AheadCons(done, s[i], Decoded(s[i + 1..]));
        to[k] := s[i];
      }
      i, k := i + 1, k + 1;
      assert to[..k] == done + [to[k - 1]];
    }
    if k >= n { return -1; }
    assert s[i..] == [] && to[..k] + [] == to[..k];
    to[k] := NUL;
    return k;
  }

  function Ahead(done: string, r: Option<string>): Option<string> { if r.None? then None else Some(done + r.value) }

  lemma {:induction false} AheadNothing(r: Option<string>)
    ensures Ahead([], r) == r
  {
    if r.Some? { assert [] + r.value == r.value; }
  }

  lemma {:induction false} AheadCons(done: string, c: char, r: Option<string>)
    ensures Ahead(done, Cons(c, r)) == Ahead(done + [c], r)
  {
    if r.Some? { Regroup(done, [c], r.value); }
  }

  lemma {:induction false} DecodeBody(s: string)
    ensures Decoded(Body(s)) == Some(s)
  {
    if s != [] {
      DecodeBody(s[1..]);
      var more := Body(s[1..]);
      assert s == [s[0]] + s[1..];
      if Escaped(s[0]) != NUL {
        assert (Spelled(s[0]) + more)[2..] == more;
        assert Unescaped(Escaped(s[0])) == s[0] != NUL;
      } else {
        assert ([s[0]] + more)[1..] == more;
      }
    }
  }

  lemma {:induction false} PassBody(text: string, p: nat, s: string)
    requires NulFree(s) && At(text, p, Body(s))
    ensures PassString(text, p) == PassString(text, p + |Body(s)|)
    decreases |s|
  {
    if s != [] {
      var w := Spelled(s[0]);
      AtSplit(text, p, w, Body(s[1..]));
      PassSpelled(text, p, s[0]);
      PassBody(text, p + |w|, s[1..]);
    }
  }

  lemma {:induction false} PassSpelled(text: string, p: nat, x: char)
    requires x != NUL && At(text, p, Spelled(x))
    ensures PassString(text, p) == PassString(text, p + |Spelled(x)|)
  {
    var w := Spelled(x);
    AtChar(text, p, w, 0);
    if |w| == 2 {
      AtChar(text, p, w, 1);
      if !Escapes(w[1]) { assert PassString(text, p) == PassString(text, p + 1) == PassString(text, p + 2); }
    }
  }

  /** For a NUL-free string the scanner finds the closing quote of what was printed, and
      unescaping what stands between the quotes gives the string back exactly when the
      destination has room for it and its terminator. */
  method StringThroughText(s: string, to: array<char>, n: nat) returns (close: int, j: int)
    requires NulFree(s) && n <= to.Length
    modifies to
    ensures close == |PrintedString(s)| - 2
    ensures j == if n > |s| then |s| else -1
    ensures n > |s| ==> to[..|s|] == s && to[|s|] == NUL
  {
    var text, size := PrintStr(s);
    PrintedCloses(s);
    close := PassStringLoop(text, 1);
    DecodeBody(s);
    assert text[1..1 + close] == Body(s);
    j := Unescape(text[1..1 + close], to, n);
  }

  lemma {:induction false} PrintedCloses(s: string)
    requires NulFree(s)
    ensures PassString(PrintedString(s), 1) == Some(|PrintedString(s)| - 1)
  {
    var text := PrintedString(s);
    AtMiddle("\"", Body(s), "\"");
    PassBody(text, 1, s);
  }

  // ----- base64

  /** mjson_base64rev. */
  function Reverse(c: char): (v: nat)
    ensures v <= 64
  {
    if 'A' <= c <= 'Z' then c as int - 'A' as int
    else if 'a' <= c <= 'z' then c as int + 26 - 'a' as int
    else if '0' <= c <= '9' then c as int + 52 - '0' as int
    else if c == '+' then 62
    else if c == '/' then 63
    else 64
  }

  /** The alphabet of section 4 of RFC 4648. */
  function Digit64(v: nat): char
    requires v < 64
  {
    if v < 26 then 'A' + v as char
    else if v < 52 then 'a' + (v - 26) as char
    else if v < 62 then '0' + (v - 52) as char
    else if v == 62 then '+' else '/'
  }

  lemma {:induction false} ReverseDigit(v: nat)
    requires v < 64
    ensures Reverse(Digit64(v)) == v && Digit64(v) != '='
  {
  }

  /** Every char is a byte. */
  predicate IsBytes(s: string) { s == [] || (s[0] as int < 256 && IsBytes(s[1..])) }

  lemma {:induction false} BytesHead(s: string)
    requires s != [] && IsBytes(s)
    ensures s[0] as int < 256 && (|s| > 1 ==> s[1] as int < 256) && (|s| > 2 ==> s[2] as int < 256)
    ensures |s| > 3 ==> IsBytes(s[3..])
  {
    if |s| > 1 {
      var t := s[1..];
      assert IsBytes(t) && t[0] == s[1];
      if |s| > 2 {
        var u := t[1..];
        assert IsBytes(u) && u[0] == s[2];
        assert u[1..] == s[3..];
      }
    }
  }

  function Byte(v: nat): char { (v % 256) as char }

  /** A char read as unsigned char, 0 behind the end. */
  function ByteAt(s: string, i: nat): (b: nat)
    ensures b < 256
  {
    if i < |s| then s[i] as nat % 256 else 0
  }

  /** Two neighbouring groups of bits in one number. */
  lemma {:induction false} OrBy2(x: nat, y: nat)
    requires y < 4
    ensures Or(ShiftLeft(x, 2), y) == 4 * x + y
  {
    ShiftIs(x);
    Powers();
    OrDisjoint(x, y, 2);
  }

  lemma {:induction false} OrBy4(x: nat, y: nat)
    requires y < 16
    ensures Or(ShiftLeft(x, 4), y) == 16 * x + y
  {
    ShiftIs(x);
    Powers();
    OrDisjoint(x, y, 4);
  }

  lemma {:induction false} OrBy6(x: nat, y: nat)
    requires y < 64
    ensures Or(ShiftLeft(x, 6), y) == 64 * x + y
  {
    ShiftIs(x);
    Powers();
    OrDisjoint(x, y, 6);
  }

  /** The four chars for the next one, two or three bytes. */
  function Quad(s: string): (q: string)
    requires s != []
    ensures |q| == 4
  {
    var a, b, c := ByteAt(s, 0), ByteAt(s, 1), ByteAt(s, 2);
    OrBy4(a % 4, b / 16);
    OrBy2(b % 16, c / 64);
    [Digit64(a / 4), Digit64(Or(ShiftLeft(a % 4, 4), b / 16)),
     if |s| > 1 then Digit64(Or(ShiftLeft(b % 16, 2), c / 64)) else '=', if |s| > 2 then Digit64(c % 64) else '=']
  }

  function Encode64(s: string): string
    decreases |s|, 1
  {
    if s == [] then [] else EncodeGroup(s)
  }

  function EncodeGroup(s: string): string
    requires s != []
    decreases |s|, 0
  {
    Quad(s) + if |s| > 3 then Encode64(s[3..]) else []
  }

  /** The bytes in four groups of six bits, of which the last two may be padding. */
  function GroupBytes(a: nat, b: nat, c: nat, d: nat, two: bool, three: bool): (r: string)
    ensures 0 < |r| <= 3
  {
    [Byte(Or(ShiftLeft(a, 2), b / 16))] +
    if !two then []
    else [Byte(Or(ShiftLeft(b, 4), c / 4))] + if three then [Byte(Or(ShiftLeft(c, 6), d))] else []
  }

  /** The bytes four chars stand for. */
  function QuadBytes(q: string): (r: string)
    requires |q| == 4
    ensures 0 < |r| <= 3
  {
    GroupBytes(Reverse(q[0]), Reverse(q[1]), Reverse(q[2]), Reverse(q[3]), q[2] != '=', q[3] != '=')
  }

  function Prefix(s: string, room: nat): string { if |s| <= room then s else s[..room] }

  /** mjson_base64_dec into room bytes. */
  function Decode64(src: string, room: nat): (r: string)
    ensures |r| <= room
    decreases |src|, 1
  {
    if |src| < 4 || room == 0 then [] else DecodeGroup(src, room)
  }

  function DecodeGroup(src: string, room: nat): (r: string)
    requires |src| >= 4 && room > 0
    ensures |r| <= room
    decreases |src|, 0
  {
    var bytes := Prefix(QuadBytes(src[..4]), room);
    bytes + Decode64(src[4..], room - |bytes|)
  }

  /** The six-bit groups in the four chars. */
  lemma {:induction false} QuadGroups(s: string, a: nat, b: nat, c: nat, q1: nat, q2: nat)
    requires s != [] && a == ByteAt(s, 0) && b == ByteAt(s, 1) && c == ByteAt(s, 2)
    requires q1 == 16 * (a % 4) + b / 16 && q2 == 4 * (b % 16) + c / 64
    ensures Reverse(Quad(s)[0]) == a / 4 && Reverse(Quad(s)[1]) == q1
    ensures if |s| > 1 then Quad(s)[2] != '=' && Reverse(Quad(s)[2]) == q2 else Quad(s)[2] == '='
    ensures |s| > 1 ==> if |s| > 2 then Quad(s)[3] != '=' && Reverse(Quad(s)[3]) == c % 64 else Quad(s)[3] == '='
  {
    OrBy4(a % 4, b / 16);
    OrBy2(b % 16, c / 64);
    ReverseDigit(a / 4);
    ReverseDigit(q1);
    ReverseDigit(q2);
    ReverseDigit(c % 64);
  }

  lemma {:induction false} QuadBack(s: string)
    requires s != [] && IsBytes(s)
    ensures QuadBytes(Quad(s)) == Prefix(s, 3)
  {
    var a, b, c := ByteAt(s, 0), ByteAt(s, 1), ByteAt(s, 2);
    var g0, g1, g2 := Groups(a, b, c);
    BytesHead(s);
    QuadGroups(s, a, b, c, g1, g2);
    BytesBack(s, a, b, c, g0, g1, Reverse(Quad(s)[2]), Reverse(Quad(s)[3]));
  }

  lemma {:induction false} BytesBack(s: string, a: nat, b: nat, c: nat, g0: nat, g1: nat, g2: nat, g3: nat)
    requires s != [] && a == ByteAt(s, 0) && b == ByteAt(s, 1) && c == ByteAt(s, 2)
    requires s[0] as int < 256 && (|s| > 1 ==> s[1] as int < 256) && (|s| > 2 ==> s[2] as int < 256)
    requires g1 / 16 < 4 && 4 * g0 + g1 / 16 == a
    requires |s| > 1 ==> g2 / 4 < 16 && (16 * g1 + g2 / 4) % 256 == b
    requires |s| > 2 ==> g3 < 64 && (64 * g2 + g3) % 256 == c
    ensures GroupBytes(g0, g1, g2, g3, |s| > 1, |s| > 2) == Prefix(s, 3)
  {
    var h1, h2 := g1 / 16, g2 / 4;
    FirstBack(g0, h1, a, s[0]);
    if |s| > 1 { SecondBack(g1, h2, b, s[1]); }
    if |s| > 2 { ThirdBack(g2, g3, c, s[2]); }
    Together(s, g0, g1, g2, g3, h1, h2);
  }

  lemma {:induction false} Together(s: string, g0: nat, g1: nat, g2: nat, g3: nat, h1: nat, h2: nat)
    requires s != [] && h1 == g1 / 16 && h2 == g2 / 4 && Byte(Or(ShiftLeft(g0, 2), h1)) == s[0]
    requires |s| > 1 ==> Byte(Or(ShiftLeft(g1, 4), h2)) == s[1]
    requires |s| > 2 ==> Byte(Or(ShiftLeft(g2, 6), g3)) == s[2]
    ensures GroupBytes(g0, g1, g2, g3, |s| > 1, |s| > 2) == Prefix(s, 3)
  {
    PrefixIs(s);
  }

  lemma {:induction false} FirstBack(x: nat, y: nat, b: nat, c: char)
    requires y < 4 && 4 * x + y == b < 256 && b == c as nat
    ensures Byte(Or(ShiftLeft(x, 2), y)) == c
  {
    OrBy2(x, y);
    ByteIs(Or(ShiftLeft(x, 2), y), c);
  }

  lemma {:induction false} SecondBack(x: nat, y: nat, b: nat, c: char)
    requires y < 16 && (16 * x + y) % 256 == b && b == c as nat
    ensures Byte(Or(ShiftLeft(x, 4), y)) == c
  {
    OrBy4(x, y);
    ByteIs(Or(ShiftLeft(x, 4), y), c);
  }

  lemma {:induction false} ThirdBack(x: nat, y: nat, b: nat, c: char)
    requires y < 64 && (64 * x + y) % 256 == b && b == c as nat
    ensures Byte(Or(ShiftLeft(x, 6), y)) == c
  {
    OrBy6(x, y);
    ByteIs(Or(ShiftLeft(x, 6), y), c);
  }

  lemma {:induction false} ByteIs(v: nat, c: char)
    requires v % 256 == c as nat
    ensures Byte(v) == c
  {
  }

  lemma {:induction false} PrefixIs(s: string)
    requires s != []
    ensures Prefix(s, 3) == [s[0]] + if |s| <= 1 then [] else [s[1]] + if |s| <= 2 then [] else [s[2]]
  {
  }

  /** Three of the four groups of six bits in three bytes. */
  lemma {:induction false} Groups(a: nat, b: nat, c: nat) returns (g0: nat, g1: nat, g2: nat)
    requires a < 256 && b < 256 && c < 256
    ensures g0 == a / 4 && g1 == 16 * (a % 4) + b / 16 && g2 == 4 * (b % 16) + c / 64
    ensures g1 < 64 && g2 < 64 && g1 / 16 == a % 4 && g2 / 4 == b % 16
    ensures 4 * g0 + g1 / 16 == a && (16 * g1 + g2 / 4) % 256 == b && (64 * g2 + c % 64) % 256 == c
  {
    g0, g1, g2 := a / 4, 16 * (a % 4) + b / 16, 4 * (b % 16) + c / 64;
  }

  /** Decoding what was encoded gives the bytes back, as many as there is room for. */
  lemma {:induction false} Base64Back(s: string, room: nat)
    requires IsBytes(s)
    ensures Decode64(Encode64(s), room) == Prefix(s, room)
    decreases |s|
  {
    if s != [] && room > 0 {
      var rest, bytes, left := EncodeStep(s, room);
      if |s| > 3 {
        BytesHead(s);
        Base64Back(s[3..], left);
        PrefixSplit(s, room, bytes, left);
      } else {
        ShortPrefix(s, room, bytes);
      }
    }
  }

  lemma {:induction false} ShortPrefix(s: string, room: nat, bytes: string)
    requires |s| <= 3 && bytes == Prefix(Prefix(s, 3), room)
    ensures bytes + [] == Prefix(s, room)
  {
  }

  /** One group is decoded to what it was made of. */
  lemma {:induction false} EncodeStep(s: string, room: nat) returns (rest: string, bytes: string, left: nat)
    requires s != [] && IsBytes(s) && room > 0
    ensures bytes == Prefix(Prefix(s, 3), room) && left == room - |bytes|
    ensures rest == (if |s| > 3 then Encode64(s[3..]) else []) && (|s| <= 3 ==> Decode64(rest, left) == [])
    ensures Decode64(Encode64(s), room) == bytes + Decode64(rest, left)
  {
    rest := if |s| > 3 then Encode64(s[3..]) else [];
    bytes := Prefix(Prefix(s, 3), room);
    left := room - |bytes|;
    QuadBack(s);
    assert Encode64(s) == EncodeGroup(s);
    DecodeStep(Quad(s), rest, room, bytes, left);
  }

  lemma {:induction false} DecodeStep(q: string, rest: string, room: nat, bytes: string, left: nat)
    requires |q| == 4 && room > 0 && bytes == Prefix(QuadBytes(q), room) && left == room - |bytes|
    ensures Decode64(q + rest, room) == bytes + Decode64(rest, left)
  {
    assert (q + rest)[..4] == q && (q + rest)[4..] == rest;
    assert Decode64(q + rest, room) == DecodeGroup(q + rest, room);
  }

  lemma {:induction false} PrefixSplit(s: string, room: nat, bytes: string, left: nat)
    requires |s| > 3 && room > 0 && bytes == Prefix(Prefix(s, 3), room) && left == room - |bytes|
    ensures bytes + Prefix(s[3..], left) == Prefix(s, room)
  {
    assert s == s[..3] + s[3..];
  }

  /** mjson_print_b64 onto an output that takes everything. */
  method PrintBase64(s: string) returns (out: string, n: nat)
    ensures out == "\"" + Encode64(s) + "\"" && n == |out|
  {
    out, n := "\"", 1;
    var i := 0;
    assert s[0..] == s;
    while i < |s|
      invariant 0 <= i && n == |out|
      invariant out + (if i < |s| then Encode64(s[i..]) else []) == "\"" + Encode64(s)
    {
      var quad := Quad(s[i..]);
      Regroup(out, quad, if |s[i..]| > 3 then Encode64(s[i..][3..]) else []);
      assert |s[i..]| > 3 ==> s[i..][3..] == s[i + 3..];
      out, n := out + quad, n + 4;
      i := i + 3;
    }
    out, n := out + "\"", n + 1;
  }

  lemma {:induction false} TurnIs(src: string, i: nat, q: string, before: string, left: nat)
    returns (next: nat, bytes: string, less: nat)
    requires i + 4 <= |src| && q == src[i..i + 4] && left > 0
    ensures next == i + 4 && bytes == Prefix(QuadBytes(q), left) && less == left - |bytes|
    ensures before + Decode64(src[i..], left) == (before + bytes) + Decode64(src[next..], less)
  {
    next, bytes := i + 4, Prefix(QuadBytes(q), left);
    less := left - |bytes|;
    assert src[i..] == q + src[next..];
    DecodeStep(q, src[next..], left, bytes, less);
    Regroup(before, bytes, Decode64(src[next..], less));
  }

  /** One turn of the decoding loop. */
  method DecodeTurn(src: string, i: nat, dst: array<char>, at: nat, room: nat) returns (len: nat)
    requires i + 4 <= |src| && at < room <= dst.Length
    modifies dst
    ensures at <= len <= room
    ensures dst[..len] + Decode64(src[i + 4..], room - len) == old(dst[..at]) + Decode64(src[i..], room - at)
  {
    ghost var before := dst[..at];
    var q := src[i..i + 4];
    ghost var next, bytes, less := TurnIs(src, i, q, before, room - at);
    len := PutQuad(q, dst, at, room);
    assert dst[..len] == before + bytes && less == room - len && i + 4 == next;
  }

  /** The body of the decoding loop. */
  method PutQuad(q: string, dst: array<char>, at: nat, room: nat) returns (len: nat)
    requires |q| == 4 && at < room <= dst.Length
    modifies dst
    ensures len == at + |Prefix(QuadBytes(q), room - at)| <= room
    ensures dst[..len] == old(dst[..at]) + Prefix(QuadBytes(q), room - at)
  {
    var a, b, c, d := Reverse(q[0]), Reverse(q[1]), Reverse(q[2]), Reverse(q[3]);
    len := at;
    dst[len] := Byte(Or(ShiftLeft(a, 2), b / 16));
    len := len + 1;
    if q[2] != '=' && len < room {
      dst[len] := Byte(Or(ShiftLeft(b, 4), c / 4));
      len := len + 1;
      if q[3] != '=' && len < room {
        dst[len] := Byte(Or(ShiftLeft(c, 6), d));
        len := len + 1;
      }
    }
  }

  method DecodeBase64(src: string, dst: array<char>, room: nat) returns (len: nat)
    requires room <= dst.Length
    modifies dst
    ensures len == |Decode64(src, room)| && dst[..len] == Decode64(src, room)
    ensures len < room ==> dst[len] == NUL
  {
    var i: nat := 0;
    len := 0;
    assert src[0..] == src && dst[..0] == [];
    while i + 3 < |src| && len < room
      invariant i <= |src| && len <= room
      invariant dst[..len] + Decode64(src[i..], room - len) == Decode64(src, room)
    {
      len := DecodeTurn(src, i, dst, len, room);
      i := i + 4;
    }
    assert dst[..len] + [] == dst[..len];
    if len < room { dst[len] := NUL; }
  }
}
