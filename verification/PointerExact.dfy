/** What a JSON Pointer resolves to. */
module PointerExact {
  import opened Json
  import opened KeyOrder
  import opened Numbers
  import opened Pointer

  // ----- array indices

  predicate Digits(s: string) { forall k :: 0 <= k < |s| ==> IsDigit(s[k]) }

  lemma {:induction false} ScanDigits(p: string, i: nat, n: nat, parsed: nat, end: nat)
    requires i <= end <= |p| && Digits(p[..end]) && n == Natural(p[..i]) && parsed == n % INDEX_LIMIT
    ensures ScanIndex(p, i, parsed) == ScanIndex(p, end, Natural(p[..end]) % INDEX_LIMIT)
    decreases end - i
  {
    if i < end {
      assert IsDigit(p[..end][i]) && IsDigit(p[..end][0]);
      var d := p[i] as int - '0' as int;
      assert p[..i + 1][..i] == p[..i] && Digits(p[..i + 1]);
      ModStep(n, d);
      ScanDigits(p, i + 1, 10 * n + d, (10 * n + d) % INDEX_LIMIT, end);
    }
  }

  lemma {:induction false} ModStep(n: nat, d: nat)
    ensures (10 * (n % INDEX_LIMIT) + d) % INDEX_LIMIT == (10 * n + d) % INDEX_LIMIT
  {
    var q := n / INDEX_LIMIT;
    assert 10 * n + d == (10 * (n % INDEX_LIMIT) + d) + INDEX_LIMIT * (10 * q);
    ModPlus(10 * (n % INDEX_LIMIT) + d, 10 * q);
  }

  lemma {:induction false} ModPlus(x: nat, k: nat)
    ensures (x + INDEX_LIMIT * k) % INDEX_LIMIT == x % INDEX_LIMIT
  {
    if k > 0 { ModPlus(x, k - 1); }
  }

  /** A token of digits is the decimal number it spells, modulo 2^64, unless it starts with a
      zero it does not need; the empty token is 0. A token that starts with something else is
      no index. */
  lemma {:induction false} DecodeIndexExact(token: string, rest: string)
    requires '/' !in token && EndsToken(rest)
    ensures DecodeIndex(token + rest) == DecodeIndex(token)
    ensures token == "" ==> DecodeIndex(token) == Some(0)
    ensures Digits(token) && token != "" ==>
              DecodeIndex(token) ==
                if token[0] == '0' && |token| > 1 then None else Some(Natural(token) % INDEX_LIMIT)
    ensures token != "" && !IsDigit(token[0]) ==> DecodeIndex(token) == None
  {
    ScanBefore(token, rest, 0, 0);
    assert rest != [] ==> (token + rest)[|token|] == '/';
    if Digits(token) && token != "" {
      assert token[..|token|] == token && token[..0] == [];
      ScanDigits(token, 0, 0, 0, |token|);
    }
  }

  lemma {:induction false} ScanBefore(token: string, rest: string, i: nat, parsed: nat)
    requires '/' !in token && EndsToken(rest) && i <= |token|
    ensures ScanIndex(token + rest, i, parsed) == ScanIndex(token, i, parsed)
    decreases |token| - i
  {
    if i < |token| && token[i] >= '0' && token[0] <= '9' {
      ScanBefore(token, rest, i + 1, (10 * parsed + (token[i] as int - '0' as int)) % INDEX_LIMIT);
    } else if i == |token| {
      assert rest != [] ==> (token + rest)[i] == '/';
    }
  }

  // ----- walking

  /** The token names child i: an array index, or the escaped form of a key that is that of
      member i and of none before it. */
  ghost predicate NamesChild(j: JSON, token: string, i: nat, cs: bool) {
    match j
    case Array(items) => i < |items| && DecodeIndex(token) == Some(i)
    case Object(ms) =>
      i < |ms| &&
      exists m :: token == Encode(m) && SameKey(ms[i].key, m, cs) && forall k :: 0 <= k < i ==>
          !SameKey(ms[k].key, m, cs)
    case _ => false
  }

  function ChildAt(j: JSON, i: nat): JSON
    requires (j.Array? && i < |j.items|) || (j.Object? && i < |j.members|)
  {
    if j.Array? then j.items[i] else j.members[i].value
  }

  /** The pointer text leads to this address, token by token. */
  ghost predicate LeadsTo(j: JSON, p: string, a: Address, cs: bool)
    decreases |a|
  {
    if a == [] then p == ""
    else
      exists token, rest :: TokenThen(p, token, rest) && NamesChild(j, token, a[0], cs) &&
                            LeadsTo(ChildAt(j, a[0]), rest, a[1..], cs)
  }

  ghost predicate TokenThen(p: string, token: string, rest: string) {
    p == "/" + token + rest && '/' !in token && EndsToken(rest)
  }

  lemma {:induction false} SplitFirst(p: string) returns (token: string, rest: string)
    requires p != [] && p[0] == '/'
    ensures TokenThen(p, token, rest) && SkipToken(p[1..]) == rest
  {
    token, rest := TokenOf(p[1..]);
    assert p == "/" + p[1..];
  }

  lemma {:induction false} TokenOf(p: string) returns (token: string, rest: string)
    ensures p == token + rest && '/' !in token && EndsToken(rest) && SkipToken(p) == rest
  {
    if p == [] || p[0] == '/' {
      token, rest := [], p;
    } else {
      token, rest := TokenOf(p[1..]);
      token := [p[0]] + token;
    }
  }

  lemma {:induction false} SlashAt(p: string, token: string, rest: string)
    requires TokenThen(p, token, rest)
    ensures |token| < |p| && forall k :: 1 <= k <= |token| ==> p[k] != '/'
    ensures 1 + |token| == |p| || p[1 + |token|] == '/'
  {
    assert forall k :: 1 <= k <= |token| ==> p[k] == token[k - 1];
    assert rest != [] ==> p[1 + |token|] == rest[0];
  }

  lemma {:induction false} OneSplit(p: string, token: string, rest: string, other: string, tail: string)
    requires TokenThen(p, token, rest) && TokenThen(p, other, tail)
    ensures token == other && rest == tail
  {
    SlashAt(p, token, rest);
    SlashAt(p, other, tail);
    assert |token| == |other|;
    assert token == p[1..1 + |token|] && other == p[1..1 + |other|];
    assert rest == p[1 + |token|..] && tail == p[1 + |other|..];
  }

  /** What compare_pointers accepts is the escaped form of the same key. */
  lemma {:induction false} AcceptedIsEncoded(name: string, token: string, rest: string, cs: bool) returns (m: string)
    requires '/' !in token && EndsToken(rest) && ComparePointers(name, token + rest, cs)
    ensures token == Encode(m) && SameKey(name, m, cs)
  {
    if name == [] || token == [] {
      m := [];
      EndsBoth(name, token, rest, cs);
    } else {
      var p := token + rest;
      assert p[0] == token[0];
      if token[0] == '~' {
        assert |token| > 1 && p[1] == token[1] && (p[1] == '0' || p[1] == '1');
        assert p[2..] == token[2..] + rest;
        var tail := AcceptedIsEncoded(name[1..], token[2..], rest, cs);
        m := [name[0]] + tail;
        assert token == "~" + [token[1]] + token[2..];
      } else {
        assert p[1..] == token[1..] + rest;
        var tail := AcceptedIsEncoded(name[1..], token[1..], rest, cs);
        m := [token[0]] + tail;
        assert token == [token[0]] + token[1..];
      }
      SameKeyStep(name, m, cs);
    }
  }

  lemma {:induction false} EndsBoth(name: string, token: string, rest: string, cs: bool)
    requires '/' !in token && EndsToken(rest) && ComparePointers(name, token + rest, cs) && (name == [] || token == [])
    ensures name == token == []
  {
    if token == [] { assert token + rest == rest; }
  }

  lemma {:induction false} FirstMatchNames(ms: seq<Member>, token: string, rest: string, i: nat, cs: bool)
    requires '/' !in token && EndsToken(rest)
    ensures NamesChild(Object(ms), token, i, cs) <==> i < |ms| && FirstMatch(ms, token + rest, cs) == i
  {
    var f := FirstMatch(ms, token + rest, cs);
    if f == i < |ms| {
      var m := AcceptedIsEncoded(ms[i].key, token, rest, cs);
      forall k | 0 <= k < i
        ensures !SameKey(ms[k].key, m, cs)
      {
        ComparePointersExact(ms[k].key, m, rest, cs);
      }
    }
    if NamesChild(Object(ms), token, i, cs) {
      var m :| token == Encode(m) && SameKey(ms[i].key, m, cs) && forall k :: 0 <= k < i ==> !SameKey(ms[k].key, m, cs);
      forall k | 0 <= k <= i
        ensures ComparePointers(ms[k].key, token + rest, cs) <==> SameKey(ms[k].key, m, cs)
      {
        ComparePointersExact(ms[k].key, m, rest, cs);
      }
    }
  }

  /** One token: the walk goes to the child it names, or nowhere. */
  lemma {:induction false} ResolveToken(j: JSON, p: string, token: string, rest: string, i: nat, cs: bool)
    requires TokenThen(p, token, rest)
    ensures NamesChild(j, token, i, cs) ==> Resolve(j, p, cs) == Below(i, Resolve(ChildAt(j, i), rest, cs))
    ensures Resolve(j, p, cs).Some? ==>
              Resolve(j, p, cs).value != [] && NamesChild(j, token, Resolve(j, p, cs).value[0], cs)
  {
    assert p[1..] == token + rest;
    var other, tail := SplitFirst(p);
    OneSplit(p, token, rest, other, tail);
    match j
    case Array(items) => DecodeIndexExact(token, rest);
    case Object(ms) =>
      FirstMatchNames(ms, token, rest, i, cs);
      FirstMatchNames(ms, token, rest, FirstMatch(ms, token + rest, cs), cs);
    case _ =>
  }

  /** get_item_from_pointer finds exactly the node a well-formed pointer leads to, and nothing
      when it leads nowhere. */
  lemma {:induction false} ResolveExact(j: JSON, p: string, a: Address, cs: bool)
    requires EndsToken(p)
    ensures Resolve(j, p, cs) == Some(a) <==> LeadsTo(j, p, a, cs)
    decreases |a|
  {
    if p != [] {
      var token, rest := SplitFirst(p);
      if a != [] {
        ResolveToken(j, p, token, rest, a[0], cs);
        assert a == [a[0]] + a[1..];
        if NamesChild(j, token, a[0], cs) {
          ResolveExact(ChildAt(j, a[0]), rest, a[1..], cs);
          BelowIs(Resolve(ChildAt(j, a[0]), rest, cs), a);
        }
        OneWay(j, p, token, rest, a, cs);
      } else {
        ResolveToken(j, p, token, rest, 0, cs);
      }
    }
  }

  lemma {:induction false} BelowIs(r: Option<Address>, a: Address)
    requires a != []
    ensures Below(a[0], r) == Some(a) <==> r == Some(a[1..])
  {
    if r.Some? { assert ([a[0]] + r.value)[1..] == r.value; }
    assert a == [a[0]] + a[1..];
  }

  lemma {:induction false} OneWay(j: JSON, p: string, token: string, rest: string, a: Address, cs: bool)
    requires a != [] && TokenThen(p, token, rest)
    ensures LeadsTo(j, p, a, cs) <==> NamesChild(j, token, a[0], cs) && LeadsTo(ChildAt(j, a[0]), rest, a[1..], cs)
  {
    if LeadsTo(j, p, a, cs) {
      var other, tail :| TokenThen(p, other, tail) && NamesChild(j, other, a[0], cs) &&
                         LeadsTo(ChildAt(j, a[0]), tail, a[1..], cs);
      OneSplit(p, token, rest, other, tail);
    }
  }
}
