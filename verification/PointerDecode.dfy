/** Unescaping a token in place. */
module PointerDecode {
  // The loop of decode_pointer_inplace copies no ordinary character and writes '/' one slot too
  // far, so it undoes `Encode` only for some keys; `DecodeUndoesEncode` says exactly for which.

  import opened Json
  import opened Pointer

  /** The text left in the buffer when the write cursor is at d and the read cursor at s.
      An invalid escape returns at once and leaves the buffer as it stands. */
  function DecodeFrom(buf: string, d: nat, s: nat): string
    requires d <= s <= |buf|
    decreases |buf| - s
  {
    if s == |buf| then buf[..d]
    else if buf[s] == '~' then
      if s + 1 < |buf| && buf[s + 1] == '0' then DecodeFrom(buf[d := '~'], d + 1, s + 2)
      else if s + 1 < |buf| && buf[s + 1] == '1' then DecodeFrom(buf[d + 1 := '/'], d + 1, s + 2)
      else buf
    else DecodeFrom(buf, d + 1, s + 1)
  }

  function DecodeInPlace(token: string): string { DecodeFrom(token, 0, 0) }

  /** The in-place loop, on a buffer that holds a NUL-terminated string. */
  method DecodePointerInPlace(a: array<char>, ghost len: nat)
    requires len < a.Length && a[len] == '\0'
    requires forall i :: 0 <= i < len ==> a[i] != '\0'
    modifies a
    ensures var r := DecodeInPlace(old(a[..len]));
            |r| <= len && a[..|r|] == r && a[|r|] == '\0' && forall i :: 0 <= i < |r| ==> a[i] != '\0'
  {
    var d, s := 0, 0;
    assert a[..len] == old(a[..len]);
    while a[s] != '\0'
      invariant d <= s <= len < a.Length && a[len] == '\0'
      invariant forall i :: 0 <= i < len ==> a[i] != '\0'
      invariant DecodeFrom(a[..len], d, s) == DecodeInPlace(old(a[..len]))
      decreases len - s
    {
      ghost var before := a[..len];
      if a[s] == '~' {
        if a[s + 1] == '0' {
          a[d] := '~';
          assert a[..len] == before[d := '~'];
        } else if a[s + 1] == '1' {
          a[d + 1] := '/';
          assert a[..len] == before[d + 1 := '/'];
        } else {
          return;
        }
        s := s + 1;
      }
      d, s := d + 1, s + 1;
    }
    ghost var r := a[..d];
    assert r == a[..len][..d];
    a[d] := '\0';
    assert a[..d] == r;
  }

  // ----- exactly which keys survive

  /** A key the caller may use: every character but '~' stands in the escaped token at
      the very place where it stands in the key. `Encode` leaves no '/', so a key with
      a '/' never qualifies; a key without '~' and '/' always does. */
  predicate Decodable(key: string) {
    forall i :: 0 <= i < |key| && key[i] != '~' ==> i < |Encode(key)| && key[i] == Encode(key)[i]
  }

  lemma {:induction false} EncodeLength(s: string)
    ensures |s| <= |Encode(s)|
  {
    if s != [] { EncodeLength(s[1..]); }
  }

  /** What lies before the write cursor is final. */
  lemma {:induction false} DecodeKeepsPrefix(buf: string, d: nat, s: nat, m: string)
    requires d <= s <= |buf| && buf[s..] == Encode(m)
    ensures |DecodeFrom(buf, d, s)| == d + |m| && DecodeFrom(buf, d, s)[..d] == buf[..d]
    decreases m
  {
    if m != [] {
      var buf', s' := Step(buf, d, s, m);
      DecodeKeepsPrefix(buf', d + 1, s', m[1..]);
      assert buf'[..d + 1][..d] == buf[..d];
      assert DecodeFrom(buf', d + 1, s')[..d] == DecodeFrom(buf', d + 1, s')[..d + 1][..d];
    }
  }

  lemma {:induction false} Step(buf: string, d: nat, s: nat, m: string) returns (buf': string, s': nat)
    requires d <= s <= |buf| && buf[s..] == Encode(m) && m != []
    ensures d + 1 <= s' <= |buf'| && buf'[s'..] == Encode(m[1..]) && |buf'| == |buf|
    ensures DecodeFrom(buf, d, s) == DecodeFrom(buf', d + 1, s')
    ensures buf'[d] == if m[0] == '~' then '~' else buf[d]
    ensures forall i :: 0 <= i < |buf| && i != d && (m[0] == '/' ==> i < d) ==> buf'[i] == buf[i]
  {
    var e := Encode(m);
    assert buf[s] == e[0];
    if m[0] == '/' || m[0] == '~' {
      assert buf[s + 1] == e[1];
      assert e[2..] == Encode(m[1..]);
      s' := s + 2;
      buf' := if m[0] == '~' then buf[d := '~'] else buf[d + 1 := '/'];
      assert buf'[s'..] == buf[s..][2..];
    } else {
      EncodedHasNoSlash(m);
      assert e[1..] == Encode(m[1..]);
      assert buf[s + 1..] == buf[s..][1..];
      s' := s + 1;
      buf' := buf;
    }
  }

  /** The text the loop leaves at each position up to the first '/' of the key. */
  lemma {:induction false} DecodeAt(buf: string, d: nat, s: nat, m: string, q: nat)
    requires d <= s <= |buf| && buf[s..] == Encode(m) && q < |m|
    requires forall i :: 0 <= i < q ==> m[i] != '/'
    ensures |DecodeFrom(buf, d, s)| == d + |m|
    ensures d + q < |buf| && DecodeFrom(buf, d, s)[d + q] == if m[q] == '~' then '~' else buf[d + q]
    decreases m
  {
    EncodeLength(m);
    DecodeKeepsPrefix(buf, d, s, m);
    var buf', s' := Step(buf, d, s, m);
    if q == 0 {
      DecodeKeepsPrefix(buf', d + 1, s', m[1..]);
      assert DecodeFrom(buf', d + 1, s')[d] == buf'[..d + 1][d];
    } else {
      DecodeAt(buf', d + 1, s', m[1..], q - 1);
    }
  }

  /** The in-place decoder undoes the encoder for exactly the decodable keys. */
  lemma {:induction false} DecodeUndoesEncode(key: string)
    ensures DecodeInPlace(Encode(key)) == key <==> Decodable(key)
  {
    var e := Encode(key);
    var r := DecodeInPlace(e);
    EncodedHasNoSlash(key);
    EncodeLength(key);
    DecodeKeepsPrefix(e, 0, 0, key);
    if q :| 0 <= q < |key| && key[q] == '/' && forall i :: 0 <= i < q ==> key[i] != '/' {
      DecodeAt(e, 0, 0, key, q);
      assert r[q] != key[q];
    } else {
      NoFirstSlash(key);
      forall q | 0 <= q < |key|
        ensures r[q] == if key[q] == '~' then '~' else e[q]
      {
        DecodeAt(e, 0, 0, key, q);
      }
    }
  }

  lemma {:induction false} NoFirstSlash(key: string)
    requires !exists q :: 0 <= q < |key| && key[q] == '/' && forall i :: 0 <= i < q ==> key[i] != '/'
    ensures forall i :: 0 <= i < |key| ==> key[i] != '/'
  {
    for n := 0 to |key|
      invariant forall i :: 0 <= i < n ==> key[i] != '/'
    {
    }
  }

  lemma {:induction false} PlainIsDecodable(key: string)
    requires forall i :: 0 <= i < |key| ==> key[i] != '~' && key[i] != '/'
    ensures Decodable(key) && Encode(key) == key && DecodeInPlace(key) == key
  {
    if key != [] { PlainIsDecodable(key[1..]); }
    DecodePlain(key, 0);
  }

  lemma {:induction false} DecodePlain(key: string, s: nat)
    requires s <= |key|
    requires forall i :: s <= i < |key| ==> key[i] != '~' && key[i] != '/'
    ensures DecodeFrom(key, s, s) == key
    decreases |key| - s
  {
    if s < |key| { DecodePlain(key, s + 1); }
  }
}
