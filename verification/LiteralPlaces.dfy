/** A string literal reads the same wherever it stands, and what is read as a literal somewhere
    is one on its own. */
module LiteralPlaces {
  import opened Json
  import opened StringLiteral
  import opened StringMeaning
  import opened Syntax
  import opened Text
  import opened Utf8

  /** The text w stands in c at a position. */
  ghost predicate Stands(c: string, at: nat, w: string) {
    at + |w| <= |c| && forall k :: 0 <= k < |w| ==> c[at + k] == w[k]
  }

  lemma {:induction false} StandsAt(c: string, at: nat, w: string)
    ensures Stands(c, at, w) <==> At(c, at, w)
  {
    AtSlice(c, at, w);
    if Stands(c, at, w) { assert c[at..at + |w|] == w; }
    if At(c, at, w) {
      forall k | 0 <= k < |w|
        ensures c[at + k] == w[k]
      {
        AtChar(c, at, w, k);
      }
    }
  }

  /** The first pass: the same steps, up to a closing quote inside w. */
  lemma {:induction false} EndMoves(c: string, at: nat, w: string, i: nat, j: nat)
    requires Stands(c, at, w) && i <= |w| && j == at + i
    ensures FindEnd(w, i).Some? ==> FindEnd(c, j) == Some(at + FindEnd(w, i).value)
    ensures FindEnd(c, j).Some? && FindEnd(c, j).value < at + |w| ==> FindEnd(w, i) == Some(FindEnd(c, j).value - at)
    decreases |w| - i
  {
    if i < |w| {
      assert w[i] == c[j];
      if w[i] == '\\' {
        if i + 1 < |w| { EndMoves(c, at, w, i + 2, j + 2); } else { EndBehind(c, j); }
      } else if w[i] != '"' {
        EndMoves(c, at, w, i + 1, j + 1);
      }
    } else {
      EndBehind(c, j);
    }
  }

  lemma {:induction false} EndBehind(c: string, i: nat)
    requires i <= |c|
    ensures FindEnd(c, i).Some? ==> FindEnd(c, i).value >= i
    ensures i < |c| && c[i] == '\\' && FindEnd(c, i).Some? ==> FindEnd(c, i).value >= i + 2
  {
    FindEndIsQuote(c, i);
    if i + 1 < |c| { FindEndIsQuote(c, i + 2); }
  }

  lemma {:induction false} LiteralMoves(c: string, at: nat, w: string, p: nat, q: nat, end: nat, stop: nat)
    requires Stands(c, at, w) && q == at + p && stop == at + end && p < end < |w|
    ensures ReadLiteral(c, q, stop) == ReadLiteral(w, p, end)
  {
    if end - p >= 6 {
      assert c[q + 2..q + 6] == w[p + 2..p + 6];
      if end - (p + 6) >= 6 {
        assert c[q + 6] == w[p + 6] && c[q + 7] == w[p + 7];
        assert c[q + 8..q + 12] == w[p + 8..p + 12];
      }
    }
  }

  /** The second pass writes the same text. */
  lemma {:induction false} DecodeMoves(c: string, at: nat, w: string, p: nat, q: nat, end: nat, stop: nat)
    requires Stands(c, at, w) && q == at + p && stop == at + end && end < |w|
    ensures var d, m := Decode(w, p, end), Decode(c, q, stop); m.text == d.text && m.ok == d.ok && m.stop == at + d.stop
    decreases end - p
  {
    if p < end {
      assert c[q] == w[p] && c[q + 1] == w[p + 1];
      if w[p] != '\\' { DecodeMoves(c, at, w, p + 1, q + 1, end, stop); }
        else { EscapeMoves(c, at, w, p, q, end, stop); }
    }
  }

  lemma {:induction false} EscapeMoves(c: string, at: nat, w: string, p: nat, q: nat, end: nat, stop: nat)
    requires Stands(c, at, w) && q == at + p && stop == at + end && p < end < |w|
    requires c[q] == w[p] && c[q + 1] == w[p + 1]
    ensures var d, m := DecodeEscape(w, p, end), DecodeEscape(c, q, stop);
            m.text == d.text && m.ok == d.ok && m.stop == at + d.stop
    decreases end - p, 0
  {
    if w[p + 1] == 'u' {
      LiteralMoves(c, at, w, p, q, end, stop);
      var r := ReadLiteral(w, p, end);
      if r.Literal? { DecodeMoves(c, at, w, p + r.length, q + r.length, end, stop); }
    } else {
      EscapeIs(c, q, stop);
      EscapeIs(w, p, end);
      if Unescape(w[p + 1]).Some? { DecodeMoves(c, at, w, p + 2, q + 2, end, stop); }
    }
  }

  lemma {:induction false} EscapeIs(c: string, p: nat, end: nat)
    requires p < end < |c| && c[p + 1] != 'u'
    ensures DecodeEscape(c, p, end) ==
            match Unescape(c[p + 1])
            case None => Decoded([], p, false)
            case Some(x) => Before([x], Decode(c, p + 2, end))
  {
  }

  /** A literal that reads as a value on its own reads as that value wherever it stands. */
  lemma {:induction false} ReadsThere(c: string, at: nat, body: string, value: string)
    requires At(c, at, InQuotes(body)) && Reads(body, value)
    ensures at < |c| && c[at] == '"' && ParseString(c, at) == Done(value, at + |body| + 2)
  {
    var w := InQuotes(body);
    StandsAt(c, at, w);
    assert c[at] == w[0];
    EndMoves(c, at, w, 1, at + 1);
    FindEndIsQuote(w, 1);
    var end := FindEnd(w, 1).value;
    DecodeMoves(c, at, w, 1, at + 1, end, at + end);
  }

  lemma {:induction false} QuotesThere(c: string, at: nat, stop: nat)
    requires at < stop < |c| && c[at] == '"' && c[stop] == '"'
    ensures At(c, at, InQuotes(c[at + 1..stop]))
  {
    var w := InQuotes(c[at + 1..stop]);
    assert forall k :: 0 <= k < |w| ==> c[at + k] == w[k];
    StandsAt(c, at, w);
  }

  /** And what is read somewhere is such a literal. */
  lemma {:induction false} ReadThere(c: string, at: nat) returns (body: string)
    requires at < |c| && ParseString(c, at).Done?
    ensures At(c, at, InQuotes(body)) && Reads(body, ParseString(c, at).value)
    ensures ParseString(c, at).offset == at + |InQuotes(body)|
  {
    FindEndIsQuote(c, at + 1);
    var stop := FindEnd(c, at + 1).value;
    body := c[at + 1..stop];
    var w, end := InQuotes(body), stop - at;
    QuotesThere(c, at, stop);
    StandsAt(c, at, w);
    EndMoves(c, at, w, 1, at + 1);
    DecodeMoves(c, at, w, 1, at + 1, end, stop);
  }

  /** A well-formed literal reads as its meaning, as far as a C string can hold it. */
  lemma {:induction false} WellFormedReads(ps: seq<Piece>)
    requires AllWellFormed(ps)
    ensures Reads(Spell(ps), CString(Mean(ps)))
  {
    var w := InQuotes(Spell(ps));
    AtSlice(w, 0, w);
    assert w[0..|w|] == w;
    LiteralDecodes(w, 0, ps);
  }
}
