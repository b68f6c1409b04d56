/** The base64 encoder of mjson writes the encoding of RFC 4648, group by group. */
module Base64Meaning {
  import opened Bits
  import opened Codec
  import opened Text

  /** Table 1 of RFC 4648. */
  const ALPHABET: string := "ABCDEFGHIJKLMNOPQRSTUVWXYZabcdefghijklmnopqrstuvwxyz0123456789+/"

  /** The 24-bit group of up to three bytes, padded with zero bits. */
  function GroupOf(s: string): (n: nat)
    ensures n < 0x100_0000
  {
    ByteAt(s, 0) * 0x1_0000 + ByteAt(s, 1) * 0x100 + ByteAt(s, 2)
  }

  /** Four chars for one group, as section 4 of RFC 4648 has them. */
  predicate Encodes(q: string, s: string)
    requires s != []
  {
    var n := GroupOf(s);
    |q| == 4 && q[0] == ALPHABET[n / 0x4_0000] && q[1] == ALPHABET[n / 0x1000 % 64] &&
    q[2] == (if |s| > 1 then ALPHABET[n / 64 % 64] else '=') && q[3] == if |s| > 2 then ALPHABET[n % 64] else '='
  }

  lemma {:induction false} DigitIs(v: nat)
    requires v < 64
    ensures Digit64(v) == ALPHABET[v]
  {
    var upper, lower, digits := "ABCDEFGHIJKLMNOPQRSTUVWXYZ", "abcdefghijklmnopqrstuvwxyz", "0123456789+/";
    assert ALPHABET == upper + lower + digits;
    if v < 26 {
      UpperIs(v);
    } else if v < 52 {
      LowerIs(v - 26);
    } else {
      FigureIs(v - 52);
    }
  }

  lemma {:induction false} UpperIs(v: nat)
    requires v < 26
    ensures "ABCDEFGHIJKLMNOPQRSTUVWXYZ"[v] == 'A' + v as char
  {
  }

  lemma {:induction false} LowerIs(v: nat)
    requires v < 26
    ensures "abcdefghijklmnopqrstuvwxyz"[v] == 'a' + v as char
  {
  }

  lemma {:induction false} FigureIs(v: nat)
    requires v < 12
    ensures "0123456789+/"[v] == if v < 10 then '0' + v as char else if v == 10 then '+' else '/'
  {
  }

  lemma {:induction false} Low(x: nat, y: nat, g: nat)
    requires x == 64 * y + g && g < 64
    ensures x / 64 == y && x % 64 == g
  {
  }

  lemma {:induction false} Middle(x: nat, y: nat, r: nat)
    requires x == 0x1000 * y + r && r < 0x1000
    ensures x / 0x1000 == y
  {
  }

  lemma {:induction false} High(x: nat, y: nat, r: nat)
    requires x == 0x4_0000 * y + r && r < 0x4_0000
    ensures x / 0x4_0000 == y
  {
  }

  /** Four groups of six bits in 24. */
  lemma {:induction false} GroupSplits(g0: nat, g1: nat, g2: nat, g3: nat, n: nat)
    requires g1 < 64 && g2 < 64 && g3 < 64 && n == 0x4_0000 * g0 + 0x1000 * g1 + 64 * g2 + g3
    ensures n / 0x4_0000 == g0 && n / 0x1000 % 64 == g1 && n / 64 % 64 == g2 && n % 64 == g3
  {
    Low(n, 0x1000 * g0 + 64 * g1 + g2, g3);
    Low(0x1000 * g0 + 64 * g1 + g2, 64 * g0 + g1, g2);
    Middle(n, 64 * g0 + g1, 64 * g2 + g3);
    Low(64 * g0 + g1, g0, g1);
    High(n, g0, 0x1000 * g1 + 64 * g2 + g3);
  }

  lemma {:induction false} GroupsAre(a: nat, b: nat, c: nat, n: nat)
    requires a < 256 && b < 256 && c < 256 && n == a * 0x1_0000 + b * 0x100 + c
    ensures n / 0x4_0000 == a / 4 && n / 0x1000 % 64 == 16 * (a % 4) + b / 16
    ensures n / 64 % 64 == 4 * (b % 16) + c / 64 && n % 64 == c % 64
  {
    assert a == 4 * (a / 4) + a % 4 && b == 16 * (b / 16) + b % 16 && c == 64 * (c / 64) + c % 64;
    GroupSplits(a / 4, 16 * (a % 4) + b / 16, 4 * (b % 16) + c / 64, c % 64, n);
  }

  lemma {:induction false} QuadEncodes(s: string)
    requires s != []
    ensures Encodes(Quad(s), s)
  {
    var a, b, c := ByteAt(s, 0), ByteAt(s, 1), ByteAt(s, 2);
    GroupsAre(a, b, c, GroupOf(s));
    OrBy4(a % 4, b / 16);
    OrBy2(b % 16, c / 64);
    DigitIs(a / 4);
    DigitIs(16 * (a % 4) + b / 16);
    DigitIs(4 * (b % 16) + c / 64);
    DigitIs(c % 64);
  }

  /** The text is the encoding of the bytes: four chars for every group of up to three. */
  predicate IsBase64(e: string, s: string)
    decreases |s|
  {
    if s == [] then e == []
    else |e| >= 4 && Encodes(e[..4], First(s)) && IsBase64(e[4..], s[|First(s)|..])
  }

  function First(s: string): (g: string)
    requires s != []
    ensures 0 < |g| <= |s|
  {
    if |s| > 3 then s[..3] else s
  }

  /** Four chars for the first group, and the others. */
  lemma {:induction false} EncodeSplits(s: string) returns (q: string, rest: string)
    requires s != []
    ensures Encode64(s) == q + rest && |q| == 4 && Encodes(q, First(s))
    ensures rest == Encode64(s[|First(s)|..])
  {
    q, rest := Quad(s), if |s| > 3 then Encode64(s[3..]) else [];
    assert Encode64(s) == EncodeGroup(s);
    QuadEncodes(s);
    assert GroupOf(First(s)) == GroupOf(s);
    if |s| <= 3 { assert s[|First(s)|..] == []; }
  }

  /** What is written for a string is its base64 encoding. */
  lemma {:induction false} EncodedIsRfc(s: string)
    ensures IsBase64(Encode64(s), s)
    decreases |s|
  {
    if s != [] {
      var q, rest := EncodeSplits(s);
      assert (q + rest)[..4] == q && (q + rest)[4..] == rest;
      EncodedIsRfc(s[|First(s)|..]);
    }
  }
}
