/** What string literals mean. */
module StringMeaning {
  // Section 7 of RFC 8259 says so. The parser decodes well-formed literals to their meaning, and
  // the printer writes such literals.

  import opened Json
  import opened Text
  import opened Utf8
  import opened StringLiteral

  /** The ways to spell a char or code point inside a literal. */
  datatype Piece =
    | Plain(x: char)
    | Short(e: char)
    | Unit(hex: string)
    | Pair(high: string, low: string)

  ghost predicate HexQuad(h: string) { |h| == 4 && AllHex(h) }

  /** Positional value of four hexadecimal digits. */
  ghost function Quad(h: string): nat
    requires HexQuad(h)
  {
    ((HexValue(h[0]) * 16 + HexValue(h[1])) * 16 + HexValue(h[2])) * 16 + HexValue(h[3])
  }

  ghost predicate WellFormed(p: Piece) {
    match p
    case Plain(x) => x as int >= 32 && x != '"' && x != '\\'
    case Short(e) => e == '"' || e == '\\' || e == '/' || e == 'b' || e == 'f' || e == 'n' || e == 'r' || e == 't'
    case Unit(h) => HexQuad(h) && IsScalar(Quad(h))
    case Pair(h, l) => HexQuad(h) && HexQuad(l) && 0xD800 <= Quad(h) < 0xDC00 && 0xDC00 <= Quad(l) < 0xE000
  }

  function Spelling(p: Piece): string {
    match p
    case Plain(x) => [x]
    case Short(e) => ['\\', e]
    case Unit(h) => "\\u" + h
    case Pair(h, l) => "\\u" + h + "\\u" + l
  }

  /** The one text that encodes a code point. */
  ghost function TheEncoding(cp: nat): (s: string)
    requires IsScalar(cp)
    ensures Encodes(s, cp)
  {
    EncodingIsUtf8(cp);
    var s :| Encodes(s, cp);
    s
  }

  ghost function Meaning(p: Piece): string
    requires WellFormed(p)
  {
    match p
    case Plain(x) => [x]
    case Short(e) =>
      (match e
       case 'b' => ['\U{0008}']
       case 'f' => ['\U{000C}']
       case 'n' => ['\n']
       case 'r' => ['\r']
       case 't' => ['\t']
       case _ => [e])
    case Unit(h) => TheEncoding(Quad(h))
    case Pair(h, l) => TheEncoding((Quad(h) - 0xD800) * 0x400 + (Quad(l) - 0xDC00) + 0x10000)
  }

  ghost predicate AllWellFormed(ps: seq<Piece>) { forall i :: 0 <= i < |ps| ==> WellFormed(ps[i]) }

  function Spell(ps: seq<Piece>): string { if ps == [] then [] else Spelling(ps[0]) + Spell(ps[1..]) }

  ghost function Mean(ps: seq<Piece>): string
    requires AllWellFormed(ps)
  {
    if ps == [] then [] else Meaning(ps[0]) + Mean(ps[1..])
  }

  // ----- both passes read a well-formed literal piece by piece

  /** `\u` and four digits stand in the text. */
  lemma {:induction false} UnitAt(c: string, p: nat, h: string)
    requires HexQuad(h) && At(c, p, "\\u" + h)
    ensures p + 6 <= |c| && c[p] == '\\' && c[p + 1] == 'u' && c[p + 2..p + 6] == h
    ensures FindEnd(c, p) == FindEnd(c, p + 6)
  {
    AtSplit(c, p, "\\u", h);
    AtSlice(c, p + 2, h);
    AtChar(c, p, "\\u", 0);
    AtChar(c, p, "\\u", 1);
    PassDigits(c, p + 2);
  }

  /** Four hexadecimal digits are passed one by one. */
  lemma {:induction false} PassDigits(c: string, p: nat)
    requires p + 4 <= |c| && AllHex(c[p..p + 4])
    ensures FindEnd(c, p) == FindEnd(c, p + 4)
  {
    var h := c[p..p + 4];
    assert h[0] == c[p] && h[1] == c[p + 1] && h[2] == c[p + 2] && h[3] == c[p + 3];
    assert FindEnd(c, p) == FindEnd(c, p + 1);
    assert FindEnd(c, p + 1) == FindEnd(c, p + 2);
    assert FindEnd(c, p + 2) == FindEnd(c, p + 3);
  }

  lemma {:induction false} PairAt(c: string, p: nat, h: string, l: string)
    requires HexQuad(h) && HexQuad(l) && At(c, p, "\\u" + h + "\\u" + l)
    ensures At(c, p, "\\u" + h) && At(c, p + 6, "\\u" + l)
  {
    Regroup("\\u" + h, "\\u", l);
    AtSplit(c, p, "\\u" + h, "\\u" + l);
  }

  lemma {:induction false} PassPiece(c: string, p: nat, piece: Piece)
    requires WellFormed(piece) && At(c, p, Spelling(piece))
    ensures FindEnd(c, p) == FindEnd(c, p + |Spelling(piece)|)
  {
    match piece
    case Plain(x) => AtChar(c, p, [x], 0);
    case Short(e) =>
      AtChar(c, p, ['\\', e], 0);
      AtChar(c, p, ['\\', e], 1);
    case Unit(h) => UnitAt(c, p, h);
    case Pair(h, l) =>
      PairAt(c, p, h, l);
      UnitAt(c, p, h);
      UnitAt(c, p + 6, l);
  }

  lemma {:induction false} LiteralAt(c: string, p: nat, end: nat, piece: Piece)
    requires WellFormed(piece) && (piece.Unit? || piece.Pair?)
    requires At(c, p, Spelling(piece)) && p + |Spelling(piece)| <= end < |c|
    ensures c[p] == '\\' && c[p + 1] == 'u'
    ensures ReadLiteral(c, p, end).Literal? && ReadLiteral(c, p, end).length == |Spelling(piece)|
    ensures Encoding(ReadLiteral(c, p, end).cp) == Meaning(piece)
  {
    if piece.Unit? {
      UnitAt(c, p, piece.hex);
    } else {
      PairAt(c, p, piece.high, piece.low);
      UnitAt(c, p, piece.high);
      UnitAt(c, p + 6, piece.low);
    }
    var cp := ReadLiteral(c, p, end).cp;
    EncodingIsUtf8(cp);
    EncodingUnique(Meaning(piece), Encoding(cp), cp);
  }

  lemma {:induction false} DecodePiece(c: string, p: nat, end: nat, piece: Piece)
    requires WellFormed(piece) && At(c, p, Spelling(piece)) && p + |Spelling(piece)| <= end < |c|
    ensures Decode(c, p, end) == Before(Meaning(piece), Decode(c, p + |Spelling(piece)|, end))
  {
    if piece.Plain? || piece.Short? { DecodeShort(c, p, end, piece); } else { LiteralAt(c, p, end, piece); }
  }

  lemma {:induction false} DecodeShort(c: string, p: nat, end: nat, piece: Piece)
    requires WellFormed(piece) && At(c, p, Spelling(piece)) && p + |Spelling(piece)| <= end < |c|
    requires piece.Plain? || piece.Short?
    ensures Decode(c, p, end) == Before(Meaning(piece), Decode(c, p + |Spelling(piece)|, end))
  {
    AtChar(c, p, Spelling(piece), 0);
    if piece.Short? { AtChar(c, p, Spelling(piece), 1); }
  }

  lemma {:induction false} PassPieces(c: string, p: nat, end: nat, ps: seq<Piece>)
    requires AllWellFormed(ps) && At(c, p, Spell(ps)) && p + |Spell(ps)| == end
    ensures FindEnd(c, p) == FindEnd(c, end)
    decreases |ps|
  {
    if ps != [] {
      var first, rest := Spelling(ps[0]), Spell(ps[1..]);
      assert At(c, p, first) && At(c, p + |first|, rest) by { AtSplit(c, p, first, rest); }
      PassPiece(c, p, ps[0]);
      PassPieces(c, p + |first|, end, ps[1..]);
    }
  }

  lemma {:induction false} DecodePieces(c: string, p: nat, end: nat, ps: seq<Piece>)
    requires AllWellFormed(ps) && At(c, p, Spell(ps)) && p + |Spell(ps)| == end < |c|
    ensures Decode(c, p, end) == Decoded(Mean(ps), end, true)
    decreases |ps|
  {
    if ps != [] {
      var next := p + |Spelling(ps[0])|;
      AtSplit(c, p, Spelling(ps[0]), Spell(ps[1..]));
      DecodePiece(c, p, end, ps[0]);
      DecodePieces(c, next, end, ps[1..]);
    }
  }

  lemma {:induction false} QuotedAt(c: string, at: nat, body: string)
    requires At(c, at, "\"" + body + "\"")
    ensures at + |body| + 1 < |c| && c[at] == '"' && c[at + |body| + 1] == '"' && At(c, at + 1, body)
  {
    AtSplit3(c, at, "\"", body, "\"");
    AtChar(c, at, "\"", 0);
    AtChar(c, at + 1 + |body|, "\"", 0);
  }

  /** A quoted literal anywhere in a buffer is read up to its closing quote and decoded to
      its meaning, as far as a C string can hold it. */
  lemma {:induction false} LiteralDecodes(c: string, at: nat, ps: seq<Piece>)
    requires AllWellFormed(ps) && At(c, at, "\"" + Spell(ps) + "\"")
    ensures ParseString(c, at) == Done(CString(Mean(ps)), at + |Spell(ps)| + 2)
  {
    var start := at + 1;
    var end := start + |Spell(ps)|;
    QuotedAt(c, at, Spell(ps));
    assert FindEnd(c, start) == Some(end) by { PassPieces(c, start, end, ps); }
    assert Decode(c, start, end) == Decoded(Mean(ps), end, true) by { DecodePieces(c, start, end, ps); }
    DecodedIsParsed(c, at, start, end, Mean(ps));
  }

  /** Both passes together. */
  lemma {:induction false} DecodedIsParsed(c: string, at: nat, start: nat, end: nat, text: string)
    requires at < |c| && c[at] == '"' && start == at + 1 && end < |c|
    requires FindEnd(c, start) == Some(end) && Decode(c, start, end) == Decoded(text, end, true)
    ensures ParseString(c, at) == Done(CString(text), end + 1)
  {
  }

  // ----- print_string_ptr

  function HexDigit(v: nat): char
    requires v < 16
  {
    "0123456789abcdef"[v]
  }

  /** The chars written for one char of a string. */
  function EscapeChar(x: char): string {
    match x
    case '"' => "\\\""
    case '\\' => "\\\\"
    case '\U{0008}' => "\\b"
    case '\U{000C}' => "\\f"
    case '\n' => "\\n"
    case '\r' => "\\r"
    case '\t' => "\\t"
    case _ => if x as int < 32 then "\\u00" + [HexDigit(x as int / 16), HexDigit(x as int % 16)] else [x]
  }

  function Escape(s: string): string {
    if s == [] then [] else EscapeChar(s[0]) + Escape(s[1..])
  }

  /** A printed string with its quotes. */
  function Quoted(s: string): string { "\"" + Escape(s) + "\"" }

  /** A printed char is one well-formed piece that means it. */
  ghost function PieceOf(x: char): (p: Piece)
    ensures WellFormed(p) && Spelling(p) == EscapeChar(x) && Meaning(p) == [x]
  {
    match x
    case '"' => Short('"')
    case '\\' => Short('\\')
    case '\U{0008}' => Short('b')
    case '\U{000C}' => Short('f')
    case '\n' => Short('n')
    case '\r' => Short('r')
    case '\t' => Short('t')
    case _ =>
      if x as int < 32 then
        var h := "00" + [HexDigit(x as int / 16), HexDigit(x as int % 16)];
        DigitValue(x as int / 16);
        DigitValue(x as int % 16);
        assert Quad(h) == x as int;
        assert Encodes([x], x as int);
        EncodingUnique(TheEncoding(x as int), [x], x as int);
        Unit(h)
      else Plain(x)
  }

  lemma {:induction false} DigitValue(v: nat)
    requires v < 16
    ensures IsHex(HexDigit(v)) && HexValue(HexDigit(v)) == v
  {
  }

  ghost function PiecesOf(s: string): (ps: seq<Piece>)
    ensures AllWellFormed(ps) && Spell(ps) == Escape(s) && Mean(ps) == s
  {
    if s == [] then [] else [PieceOf(s[0])] + PiecesOf(s[1..])
  }

  /** Parsing what was printed gives the string back. */
  lemma {:induction false} StringRoundTrip(c: string, at: nat, s: string)
    requires NulFree(s) && At(c, at, Quoted(s))
    ensures ParseString(c, at) == Done(s, at + |Quoted(s)|)
  {
    LiteralDecodes(c, at, PiecesOf(s));
    CStringWhole(s);
  }
}
