/** mjson and the literals of RFC 8259. */
module EscapeMeaning {
  // It finds the end of every well-formed literal, and decodes exactly the ones without \u.

  import opened Codec
  import opened Json
  import opened Scanner
  import opened StringMeaning
  import opened Text
  import opened Utf8
  import ScanSyntax
  import Syntax

  // ----- the end of a literal

  lemma {:induction false} PassPlain(c: string, p: nat, end: nat)
    requires p <= end <= |c| && forall k :: p <= k < end ==> c[k] as int >= 32 && c[k] != '"' && c[k] != '\\'
    ensures PassString(c, p) == PassString(c, end)
    decreases end - p
  {
    if p < end { PassPlain(c, p + 1, end); }
  }

  /** A backslash in front of a letter. */
  lemma {:induction false} PassLetter(c: string, p: nat, letter: nat, next: nat)
    requires letter == p + 1 < |c| && next == letter + 1 && c[p] == '\\' &&
             (!Escapes(c[letter]) ==> 'a' <= c[letter] <= 'z')
    ensures PassString(c, p) == PassString(c, next)
  {
    if !Escapes(c[letter]) { assert PassString(c, p) == PassString(c, letter) == PassString(c, next); }
  }

  lemma {:induction false} PassUnit(c: string, p: nat, h: string, next: nat)
    requires HexQuad(h) && At(c, p, "\\u" + h) && next == p + 6
    ensures next <= |c| && PassString(c, p) == PassString(c, next)
  {
    UnitAt(c, p, h);
    PassLetter(c, p, p + 1, p + 2);
    forall k | p + 2 <= k < next
      ensures IsHex(c[k])
    {
      assert c[k] == c[p + 2..next][k - (p + 2)] == h[k - (p + 2)];
    }
    PassPlain(c, p + 2, next);
  }

  lemma {:induction false} PassPiece(c: string, p: nat, piece: Piece, next: nat)
    requires WellFormed(piece) && At(c, p, Spelling(piece)) && next == p + |Spelling(piece)|
    ensures next <= |c| && PassString(c, p) == PassString(c, next)
  {
    match piece
    case Plain(x) =>
      AtChar(c, p, [x], 0);
      PassPlain(c, p, next);
    case Short(e) =>
      AtChar(c, p, ['\\', e], 0);
      AtChar(c, p, ['\\', e], 1);
      PassLetter(c, p, p + 1, next);
    case Unit(h) => PassUnit(c, p, h, next);
    case Pair(h, l) =>
      PairAt(c, p, h, l);
      PassUnit(c, p, h, p + 6);
      PassUnit(c, p + 6, l, next);
  }

  lemma {:induction false} PassPieces(c: string, p: nat, ps: seq<Piece>, next: nat)
    requires AllWellFormed(ps) && At(c, p, Spell(ps)) && next == p + |Spell(ps)|
    ensures next <= |c| && PassString(c, p) == PassString(c, next)
    decreases |ps|
  {
    if ps != [] {
      var mid := p + |Spelling(ps[0])|;
      AtSplit(c, p, Spelling(ps[0]), Spell(ps[1..]));
      PassPiece(c, p, ps[0], mid);
      PassPieces(c, mid, ps[1..], next);
    }
  }

  /** The end of every well-formed literal is found. */
  lemma {:induction false} WellFormedCloses(ps: seq<Piece>)
    requires AllWellFormed(ps)
    ensures ScanSyntax.Closes(Spell(ps))
  {
    var body := Spell(ps);
    var w := Syntax.InQuotes(body);
    AtMiddle("\"", body, "\"");
    PassPieces(w, 1, ps, |body| + 1);
    assert w[|body| + 1] == '"';
  }

  // ----- decoding

  /** A char as it is, or one of the short escapes. */
  predicate IsSimple(p: Piece) { p.Plain? || p.Short? }

  predicate AllSimple(ps: seq<Piece>) { forall i :: 0 <= i < |ps| ==> IsSimple(ps[i]) }

  lemma {:induction false} DecodedPiece(p: Piece, rest: string)
    requires WellFormed(p)
    ensures IsSimple(p) ==> |Meaning(p)| == 1 && Decoded(Spelling(p) + rest) == Cons(Meaning(p)[0], Decoded(rest))
    ensures !IsSimple(p) ==> Decoded(Spelling(p) + rest) == None
  {
    var s := Spelling(p) + rest;
    match p
    case Plain(x) => assert s[1..] == rest;
    case Short(e) => assert s[2..] == rest;
    case _ => assert s[0] == '\\' && s[1] == 'u';
  }

  /** mjson_unescape gives a well-formed literal the meaning of section 7 of RFC 8259 if and only
      if nothing in it is spelled by its number; such a literal it refuses. */
  lemma {:induction false} DecodedExactly(ps: seq<Piece>)
    requires AllWellFormed(ps)
    ensures Decoded(Spell(ps)) == if AllSimple(ps) then Some(Mean(ps)) else None
  {
    if ps != [] {
      var p, rest := ps[0], ps[1..];
      DecodedExactly(rest);
      DecodedPiece(p, Spell(rest));
      assert AllSimple(ps) <==> IsSimple(p) && AllSimple(rest) by {
        if IsSimple(p) && AllSimple(rest) {
          assert forall i :: 0 < i < |ps| ==> ps[i] == rest[i - 1];
        } else if !AllSimple(rest) {
          var i :| 0 <= i < |rest| && !IsSimple(rest[i]);
          assert !IsSimple(ps[i + 1]);
        }
      }
      if IsSimple(p) { assert Meaning(p) == [Meaning(p)[0]]; }
    }
  }

  /** A char that cJSON prints as it is or with a short escape. */
  predicate IsPlainChar(x: char) { x as int >= 32 || x in "\U{0008}\U{000C}\n\r\t" }

  lemma {:induction false} PiecesAre(s: string)
    ensures |PiecesOf(s)| == |s|
    ensures forall i :: 0 <= i < |s| ==> (IsSimple(PiecesOf(s)[i]) <==> IsPlainChar(s[i]))
  {
    if s != [] {
      PiecesAre(s[1..]);
      var rest := PiecesOf(s[1..]);
      assert PiecesOf(s) == [PieceOf(s[0])] + rest;
      assert IsSimple(PieceOf(s[0])) <==> IsPlainChar(s[0]);
      forall i | 0 < i < |s|
        ensures IsSimple(PiecesOf(s)[i]) <==> IsPlainChar(s[i])
      {
        assert PiecesOf(s)[i] == rest[i - 1] && s[i] == s[1..][i - 1];
      }
    }
  }

  /** It undoes the printing of cJSON exactly for strings whose control chars all have a short
      escape; for any other it fails. */
  lemma {:induction false} PrintedDecodes(s: string)
    ensures Decoded(Escape(s)) == if forall i :: 0 <= i < |s| ==> IsPlainChar(s[i]) then Some(s) else None
  {
    PiecesAre(s);
    DecodedExactly(PiecesOf(s));
  }

  // ----- what cJSON prints

  lemma {:induction false} EscapeJoins(a: string, b: string)
    ensures Escape(a + b) == Escape(a) + Escape(b)
    decreases |a|
  {
    if a == [] {
      assert a + b == b && Escape(a) + Escape(b) == Escape(b);
    } else {
      assert (a + b)[1..] == a[1..] + b;
      EscapeJoins(a[1..], b);
      Regroup(EscapeChar(a[0]), Escape(a[1..]), Escape(b));
    }
  }

  /** Chars from a blank on that are no quote or backslash are printed as they are. */
  lemma {:induction false} HighStays(s: string)
    requires forall i :: 0 <= i < |s| ==> s[i] as int >= 0x80
    ensures Escape(s) == s
  {
    if s != [] {
      HighStays(s[1..]);
      assert [s[0]] + s[1..] == s;
    }
  }

  lemma {:induction false} PieceNoShorter(p: Piece)
    requires WellFormed(p)
    ensures |Escape(Meaning(p))| <= |Spelling(p)|
  {
    var m := Meaning(p);
    if |m| == 1 {
      assert m[1..] == [] && Escape(m) == EscapeChar(m[0]) + [];
    } else {
      HighStays(m);
    }
  }

  /** No well-formed literal with the same meaning is shorter than the one cJSON prints. */
  lemma {:induction false} EscapeIsShortest(ps: seq<Piece>)
    requires AllWellFormed(ps)
    ensures |Escape(Mean(ps))| <= |Spell(ps)|
  {
    if ps != [] {
      PieceNoShorter(ps[0]);
      EscapeIsShortest(ps[1..]);
      EscapeJoins(Meaning(ps[0]), Mean(ps[1..]));
    }
  }
}
