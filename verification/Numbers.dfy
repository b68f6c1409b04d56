/** How ints are printed and read. */
module Numbers {
  function Digit(d: nat): char
    requires d < 10
  {
    '0' + d as char
  }

  predicate IsDigit(c: char) { '0' <= c <= '9' }

  /** The decimal rendering of a natural number by sprintf. */
  function Decimal(n: nat): string {
    if n < 10 then [Digit(n)] else Decimal(n / 10) + [Digit(n % 10)]
  }

  lemma {:induction false} DecimalDigits(n: nat)
    ensures Decimal(n) != []
    ensures forall i :: 0 <= i < |Decimal(n)| ==> '0' <= Decimal(n)[i] <= '9'
    ensures n >= 10 ==> Decimal(n)[0] != '0'
    ensures n > 0 ==> Decimal(n)[0] != '0'
  {
    if n >= 10 { DecimalDigits(n / 10); }
  }

  /** The C type int. */
  const INT_MAX: int := 0x7FFF_FFFF
  const INT_MIN: int := -0x8000_0000

  predicate IsInt(n: int) { INT_MIN <= n <= INT_MAX }

  function Saturate(n: int): int { if n > INT_MAX then INT_MAX else if n < INT_MIN then INT_MIN else n }

  /** What "%d" prints. */
  function Signed(n: int): string { if n < 0 then "-" + Decimal(-n) else Decimal(n) }

  lemma {:induction false} DecimalLength(n: nat, k: nat, bound: nat)
    requires n < bound && k > 0 && bound == Power10(k)
    ensures |Decimal(n)| <= k
  {
    if n >= 10 { DecimalLength(n / 10, k - 1, Power10(k - 1)); }
  }

  function Power10(k: nat): (p: nat)
    ensures p > 0
  {
    if k == 0 then 1 else 10 * Power10(k - 1)
  }

  lemma {:induction false} SignedLength(n: int)
    requires IsInt(n)
    ensures |Signed(n)| <= 11
  {
    assert Power10(5) == 100000;
    assert Power10(10) == 10000000000;
    DecimalLength(if n < 0 then -n else n, 10, Power10(10));
  }

  // ----- strtod on texts of digits, signs, points and exponent marks

  /** The end of the run of digits that starts at i. */
  function DigitsEnd(s: string, i: nat): (e: nat)
    requires i <= |s|
    ensures i <= e <= |s|
    decreases |s| - i
  {
    if i < |s| && IsDigit(s[i]) then DigitsEnd(s, i + 1) else i
  }

  /** The number a run of digits stands for. */
  function Natural(s: string): nat
    requires forall k :: 0 <= k < |s| ==> IsDigit(s[k])
  {
    if s == [] then 0
    else
      assert IsDigit(s[|s| - 1]);
      Natural(s[..|s| - 1]) * 10 + (s[|s| - 1] as int - '0' as int)
  }

  /** The longest prefix that is a decimal floating-point constant, or 0. */
  function NumeralEnd(s: string): (e: nat)
    ensures e <= |s|
  {
    var start := SignEnd(s, 0);
    var whole := DigitsEnd(s, start);
    var fraction := if whole < |s| && s[whole] == '.' then DigitsEnd(s, whole + 1) else whole;
    if fraction == whole == start || (whole == start && fraction == start + 1) then 0
    else ExponentEnd(s, fraction)
  }

  function SignEnd(s: string, i: nat): (e: nat)
    requires i <= |s|
    ensures i <= e <= |s|
  {
    if i < |s| && (s[i] == '+' || s[i] == '-') then i + 1 else i
  }

  function ExponentEnd(s: string, i: nat): (e: nat)
    requires i <= |s|
    ensures i <= e <= |s|
  {
    if i < |s| && (s[i] == 'e' || s[i] == 'E') then
      var start := SignEnd(s, i + 1);
      var end := DigitsEnd(s, start);
      if end == start then i else end
    else i
  }

  /** An optional minus sign and digits only. */
  predicate IsWhole(s: string) {
    var start := if s != [] && s[0] == '-' then 1 else 0;
    forall k :: start <= k < |s| ==> IsDigit(s[k])
  }

  function WholeValue(s: string): int
    requires IsWhole(s)
  {
    if s != [] && s[0] == '-' then
      assert forall k :: 0 <= k < |s[1..]| ==> s[1..][k] == s[k + 1];
      0 - Natural(s[1..])
    else Natural(s)
  }

  lemma {:induction false} NaturalDecimal(n: nat)
    ensures IsWhole(Decimal(n)) && Decimal(n) != [] && IsDigit(Decimal(n)[0])
    ensures Natural(Decimal(n)) == n
  {
    DecimalDigits(n);
    if n >= 10 {
      NaturalDecimal(n / 10);
      assert Decimal(n)[..|Decimal(n)| - 1] == Decimal(n / 10);
    }
  }

  lemma {:induction false} DigitsEndIs(s: string, i: nat, e: nat)
    requires i <= e <= |s| && (forall k :: i <= k < e ==> IsDigit(s[k])) && (e < |s| ==> !IsDigit(s[e]))
    ensures DigitsEnd(s, i) == e
    decreases e - i
  {
    if i < e { DigitsEndIs(s, i + 1, e); }
  }

  /** A printed integer is read whole and means the same. */
  lemma {:induction false} SignedReads(n: int)
    ensures var s := Signed(n); IsWhole(s) && s != [] && (IsDigit(s[0]) || s[0] == '-')
    ensures NumeralEnd(Signed(n)) == |Signed(n)| && WholeValue(Signed(n)) == n
  {
    var m := if n < 0 then -n else n;
    var s := Signed(n);
    NaturalDecimal(m);
    DecimalDigits(m);
    if n < 0 {
      assert s[1..] == Decimal(m);
      assert forall k :: 1 <= k < |s| ==> s[k] == Decimal(m)[k - 1];
    }
    DigitsEndIs(s, SignEnd(s, 0), |s|);
  }

  /** So it is with other text behind it that does not go on with the number. */
  lemma {:induction false} SignedReadsBefore(n: int, rest: string)
    requires rest != [] ==> !IsDigit(rest[0]) && rest[0] != '.' && rest[0] != 'e' && rest[0] != 'E'
    ensures NumeralEnd(Signed(n) + rest) == |Signed(n)|
  {
    SignedDigits(n);
    var s, w := Signed(n) + rest, Signed(n);
    assert forall k :: 0 <= k < |w| ==> s[k] == w[k];
    DigitsEndIs(s, SignEnd(w, 0), |w|);
  }

  /** Behind the sign there are digits only. */
  lemma {:induction false} SignedDigits(n: int)
    ensures SignEnd(Signed(n), 0) < |Signed(n)| && (SignEnd(Signed(n), 0) == if n < 0 then 1 else 0)
    ensures forall k :: SignEnd(Signed(n), 0) <= k < |Signed(n)| ==> IsDigit(Signed(n)[k])
  {
    var m := if n < 0 then -n else n;
    NaturalDecimal(m);
    DecimalDigits(m);
    if n < 0 { assert forall k :: 1 <= k < |Signed(n)| ==> Signed(n)[k] == Decimal(m)[k - 1]; }
  }
}
