/** Texts as C programs see them: where a text occurs inside another one, and where the
    terminating NUL cuts it off. A text and the parts of it are related by positions. */
module Text {
  const NUL: char := '\0'

  /** White space of JSON. */
  predicate IsBlank(c: char) { c == ' ' || c == '\t' || c == '\r' || c == '\n' }

  /** s occurs in c at p. */
  predicate At(c: string, p: nat, s: string) {
    p + |s| <= |c| && c[p..p + |s|] == s
  }

  lemma {:induction false} AtSlice(c: string, p: nat, s: string)
    ensures At(c, p, s) <==> p + |s| <= |c| && c[p..p + |s|] == s
  {
  }

  lemma {:induction false} AtSplit(c: string, p: nat, s: string, t: string)
    ensures At(c, p, s + t) <==> At(c, p, s) && At(c, p + |s|, t)
  {
    AtSlice(c, p, s + t);
    AtSlice(c, p, s);
    AtSlice(c, p + |s|, t);
    if p + |s| + |t| <= |c| {
      var w := c[p..p + |s + t|];
      assert c[p..p + |s|] == w[..|s|] && c[p + |s|..p + |s| + |t|] == w[|s|..];
      assert (s + t)[..|s|] == s && (s + t)[|s|..] == t;
      assert w == w[..|s|] + w[|s|..];
    }
  }

  lemma {:induction false} AtSplit3(c: string, p: nat, s: string, t: string, u: string)
    requires At(c, p, s + t + u)
    ensures At(c, p, s) && At(c, p + |s|, t) && At(c, p + |s| + |t|, u)
  {
    AtSplit(c, p, s + t, u);
    AtSplit(c, p, s, t);
  }

  lemma {:induction false} AtChar(c: string, p: nat, s: string, i: nat)
    requires At(c, p, s) && i < |s|
    ensures p + |s| <= |c| && c[p + i] == s[i]
  {
    AtSlice(c, p, s);
    assert c[p..p + |s|][i] == c[p + i];
  }

  /** s occurs in c at its own position. */
  lemma {:induction false} AtMiddle(pre: string, s: string, post: string)
    ensures At(pre + s + post, |pre|, s)
  {
    AtSlice(pre + s + post, |pre|, s);
    assert (pre + s + post)[|pre|..|pre| + |s|] == s;
  }

  predicate NulFree(s: string) { NUL !in s }

  /** strlen: the position of the first NUL, or the length when there is none. */
  function Length(s: string): (n: nat)
    ensures n <= |s| && NulFree(s[..n]) && (n < |s| ==> s[n] == NUL)
  {
    if s == [] || s[0] == NUL then 0
    else
      var n := Length(s[1..]);
      assert s[..n + 1] == [s[0]] + s[1..][..n];
      n + 1
  }

  lemma {:induction false} LengthIs(s: string, n: nat)
    requires n <= |s| && NulFree(s[..n]) && (n < |s| ==> s[n] == NUL)
    ensures Length(s) == n
  {
    var m := Length(s);
  }

  /** What a C string holding s reads as. */
  function CString(s: string): string { s[..Length(s)] }

  lemma {:induction false} CStringWhole(s: string)
    requires NulFree(s)
    ensures CString(s) == s
  {
    assert s[..|s|] == s;
    LengthIs(s, |s|);
  }
}
