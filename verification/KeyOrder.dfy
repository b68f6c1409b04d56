/** Comparison of keys. */
module KeyOrder {
  // strcmp, and its counterpart that folds case.

  import opened Json

  /** The sign of strcmp on NUL-free strings: the first difference decides, and the
      end of a string is below every character. */
  function Cmp(a: string, b: string): int {
    if a == [] && b == [] then 0
    else if a == [] then -1
    else if b == [] then 1
    else if a[0] == b[0] then Cmp(a[1..], b[1..])
    else a[0] as int - b[0] as int
  }

  function ToLower(c: char): char {
    if 'A' <= c <= 'Z' then c + 32 as char else c
  }

  function Fold(s: string): (r: string)
    ensures |r| == |s|
  {
    seq(|s|, i requires 0 <= i < |s| => ToLower(s[i]))
  }

  /** The text that decides a comparison in the given mode. */
  function Folded(s: string, cs: bool): string {
    if cs then s else Fold(s)
  }

  function CompareStrings(a: string, b: string, cs: bool): int {
    Cmp(Folded(a, cs), Folded(b, cs))
  }

  predicate SameKey(a: string, b: string, cs: bool) {
    Folded(a, cs) == Folded(b, cs)
  }

  lemma {:induction false} CmpZero(a: string, b: string)
    ensures Cmp(a, b) == 0 <==> a == b
  {
    if a != [] && b != [] && a[0] == b[0] {
      CmpZero(a[1..], b[1..]);
      assert a == [a[0]] + a[1..] && b == [b[0]] + b[1..];
    }
  }

  lemma {:induction false} CmpFlip(a: string, b: string)
    ensures Cmp(a, b) < 0 <==> Cmp(b, a) > 0
  {
    if a != [] && b != [] && a[0] == b[0] { CmpFlip(a[1..], b[1..]); }
  }

  lemma {:induction false} CmpTransitive(a: string, b: string, c: string)
    requires Cmp(a, b) <= 0 && Cmp(b, c) <= 0
    ensures Cmp(a, c) <= 0
    ensures Cmp(a, b) < 0 || Cmp(b, c) < 0 ==> Cmp(a, c) < 0
  {
    if a != [] && b != [] && c != [] && a[0] == b[0] == c[0] {
      CmpTransitive(a[1..], b[1..], c[1..]);
    }
  }

  /** No two keys of the set are told apart by case alone. */
  ghost predicate Coherent(keys: iset<string>) {
    forall a, b :: a in keys && b in keys && Fold(a) == Fold(b) ==> a == b
  }

  /** Comparing keys in the given mode tells these keys apart. */
  ghost predicate Unambiguous(keys: iset<string>, cs: bool) { cs || Coherent(keys) }

  lemma {:induction false} SameKeyIsEqual(keys: iset<string>, a: string, b: string, cs: bool)
    requires Unambiguous(keys, cs) && a in keys && b in keys
    ensures SameKey(a, b, cs) <==> a == b
  {
  }

  /** Folding case does not change the order of these keys. */
  ghost predicate OrderAgrees(keys: iset<string>) {
    forall a, b :: a in keys && b in keys ==> (Cmp(a, b) < 0 <==> Cmp(Fold(a), Fold(b)) < 0)
  }

  lemma {:induction false} OrderAgreesCoherent(keys: iset<string>)
    requires OrderAgrees(keys)
    ensures Coherent(keys)
  {
    forall a, b | a in keys && b in keys && Fold(a) == Fold(b)
      ensures a == b
    {
      CmpZero(Fold(a), Fold(b));
      CmpZero(a, b);
      CmpFlip(b, a);
    }
  }

  // ----- the order, said without a walk over the strings

  /** a comes before b: behind what they share, a ends or goes on with the smaller char. */
  ghost predicate Precedes(a: string, b: string) {
    exists i :: DiffersAt(a, b, i)
  }

  ghost predicate DiffersAt(a: string, b: string, i: nat) {
    i <= |a| && i < |b| && a[..i] == b[..i] && (i < |a| ==> a[i] < b[i])
  }

  lemma {:induction false} CmpPrecedes(a: string, b: string)
    ensures Cmp(a, b) < 0 ==> Precedes(a, b)
  {
    if Cmp(a, b) < 0 {
      if a == [] {
        assert DiffersAt(a, b, 0);
      } else if a[0] == b[0] {
        CmpPrecedes(a[1..], b[1..]);
        var i: nat :| DiffersAt(a[1..], b[1..], i);
        assert a[..i + 1] == [a[0]] + a[1..][..i] && b[..i + 1] == [b[0]] + b[1..][..i];
        assert DiffersAt(a, b, i + 1);
      } else {
        assert DiffersAt(a, b, 0);
      }
    }
  }

  lemma {:induction false} DifferenceDecides(a: string, b: string, i: nat)
    requires DiffersAt(a, b, i)
    ensures Cmp(a, b) < 0
  {
    if i > 0 {
      assert a[0] == a[..i][0] && b[0] == b[..i][0];
      assert a[1..][..i - 1] == a[..i][1..] && b[1..][..i - 1] == b[..i][1..];
      DifferenceDecides(a[1..], b[1..], i - 1);
    }
  }

  /** compare_strings is negative exactly when the first text, folded as the mode says, comes
      before the second, and 0 exactly for the same text. */
  lemma {:induction false} CompareStringsExact(a: string, b: string, cs: bool)
    ensures CompareStrings(a, b, cs) < 0 <==> Precedes(Folded(a, cs), Folded(b, cs))
    ensures CompareStrings(a, b, cs) > 0 <==> Precedes(Folded(b, cs), Folded(a, cs))
    ensures CompareStrings(a, b, cs) == 0 <==> Folded(a, cs) == Folded(b, cs)
  {
    var x, y := Folded(a, cs), Folded(b, cs);
    CmpZero(x, y);
    CmpFlip(y, x);
    CmpPrecedes(x, y);
    CmpPrecedes(y, x);
    if Precedes(x, y) { var i: nat :| DiffersAt(x, y, i); DifferenceDecides(x, y, i); }
    if Precedes(y, x) { var i: nat :| DiffersAt(y, x, i); DifferenceDecides(y, x, i); }
  }

  const CAPITALS: string := "ABCDEFGHIJKLMNOPQRSTUVWXYZ"
  const SMALLS: string := "abcdefghijklmnopqrstuvwxyz"

  /** tolower in the C locale: the 26 capitals become their small letters, everything else
      stays. */
  lemma {:induction false} ToLowerExact(c: char)
    ensures forall k :: 0 <= k < |CAPITALS| && CAPITALS[k] == c ==> ToLower(c) == SMALLS[k]
    ensures c !in CAPITALS ==> ToLower(c) == c
  {
    assert |CAPITALS| == 26 && |SMALLS| == 26;
    forall k | 0 <= k < 26
      ensures CAPITALS[k] == 'A' + k as char && SMALLS[k] == 'a' + k as char
    {
    }
    if 'A' <= c <= 'Z' { assert CAPITALS[c as int - 'A' as int] == c; }
  }

  function FoldChar(c: char, cs: bool): char { if cs then c else ToLower(c) }

  lemma {:induction false} SameFirstChar(a: string, b: string, i: nat, j: nat)
    requires i < |a| && i < |b| && a[i] == b[i] && j == i + 1
    ensures Cmp(a[i..], b[i..]) == Cmp(a[j..], b[j..])
  {
    assert a[i..][1..] == a[j..] && b[i..][1..] == b[j..];
  }

  /** compare_strings: the loop that walks both strings at once. */
  method CompareStringsLoop(a: string, b: string, cs: bool) returns (diff: int)
    ensures diff == CompareStrings(a, b, cs)
  {
    ghost var fa, fb := Folded(a, cs), Folded(b, cs);
    var i := 0;
    assert fa[0..] == fa && fb[0..] == fb;
    while i < |a| && i < |b| && FoldChar(a[i], cs) == FoldChar(b[i], cs)
      invariant i <= |a| && i <= |b|
      invariant Cmp(fa[i..], fb[i..]) == Cmp(fa, fb)
    {
      SameFirstChar(fa, fb, i, i + 1);
      i := i + 1;
    }
    if i == |a| && i == |b| {
      diff := 0;
    } else if i == |a| {
      diff := -1;
    } else if i == |b| {
      diff := 1;
    } else {
      diff := FoldChar(a[i], cs) as int - FoldChar(b[i], cs) as int;
    }
  }
}
