/** JSON Pointer (RFC 6901) over addresses. */
module Pointer {
  // A node of a tree is named by its address, the child index taken at each level; two nodes
  // are the same C node exactly when their addresses are equal.

  import opened Json
  import opened KeyOrder
  import opened Numbers

  type Address = seq<nat>

  // ----- tokens

  function Encode(s: string): string {
    if s == [] then []
    else if s[0] == '/' then "~1" + Encode(s[1..])
    else if s[0] == '~' then "~0" + Encode(s[1..])
    else [s[0]] + Encode(s[1..])
  }

  ghost predicate EndsToken(rest: string) { rest == [] || rest[0] == '/' }

  /** compare_pointers: does the first token of the pointer text name this key? */
  predicate ComparePointers(name: string, p: string, cs: bool) {
    if name != [] && p != [] && p[0] != '/' then
      if p[0] == '~' then
        var next := if |p| > 1 then p[1] else '\0';
        if (next != '0' || name[0] != '~') && (next != '1' || name[0] != '/') then false
        else ComparePointers(name[1..], p[2..], cs)
      else if FoldChar(name[0], cs) != FoldChar(p[0], cs) then false
      else ComparePointers(name[1..], p[1..], cs)
    else
      (p != [] && p[0] != '/') == (name != [])
  }

  lemma {:induction false} EncodeStep(s: string, rest: string)
    requires s != []
    ensures Encode(s) + rest ==
            (if s[0] == '/' then "~1" else if s[0] == '~' then "~0" else [s[0]]) + (Encode(s[1..]) + rest)
  {
  }

  lemma {:induction false} FoldedStep(s: string, cs: bool)
    requires s != []
    ensures Folded(s, cs) == [FoldChar(s[0], cs)] + Folded(s[1..], cs)
  {
  }

  lemma {:induction false} SameKeyStep(a: string, b: string, cs: bool)
    requires a != [] && b != []
    ensures SameKey(a, b, cs) <==> FoldChar(a[0], cs) == FoldChar(b[0], cs) && SameKey(a[1..], b[1..], cs)
  {
    FoldedStep(a, cs);
    FoldedStep(b, cs);
    var fa, fb := Folded(a, cs), Folded(b, cs);
    assert fa[1..] == Folded(a[1..], cs) && fb[1..] == Folded(b[1..], cs);
    assert fa == fb ==> fa[0] == fb[0] && fa[1..] == fb[1..];
  }

  lemma {:induction false} ComparePointersStep(name: string, m: string, rest: string, cs: bool)
    requires name != [] && m != []
    ensures ComparePointers(name, Encode(m) + rest, cs) <==>
            FoldChar(name[0], cs) == FoldChar(m[0], cs) && ComparePointers(name[1..], Encode(m[1..]) + rest, cs)
  {
    EncodeStep(m, rest);
    var p := Encode(m) + rest;
    if m[0] == '/' || m[0] == '~' {
      assert p[2..] == Encode(m[1..]) + rest;
    } else {
      assert p[1..] == Encode(m[1..]) + rest;
    }
  }

  /** compare_pointers accepts the escaped form of a key, followed by anything that ends
      a token, exactly for that key. */
  lemma {:induction false} ComparePointersExact(name: string, m: string, rest: string, cs: bool)
    requires EndsToken(rest)
    ensures ComparePointers(name, Encode(m) + rest, cs) <==> SameKey(name, m, cs)
  {
    assert |Folded(name, cs)| == |name| && |Folded(m, cs)| == |m|;
    if m == [] {
      assert Encode(m) + rest == rest;
    } else if name == [] {
      EncodeStep(m, rest);
    } else {
      ComparePointersStep(name, m, rest, cs);
      SameKeyStep(name, m, cs);
      ComparePointersExact(name[1..], m[1..], rest, cs);
    }
  }

  // ----- array indices

  /** The digit loop of decode_array_index_from_pointer. Its second test looks at the
      first character of the pointer, not at the current one, so anything above '9'
      passes once the token starts with a digit. */
  function ScanIndex(p: string, position: nat, parsed: nat): Option<nat>
    requires position <= |p|
    decreases |p| - position
  {
    if position < |p| && p[position] >= '0' && p[0] <= '9' then
      ScanIndex(p, position + 1, (10 * parsed + (p[position] as int - '0' as int)) % INDEX_LIMIT)
    else if position < |p| && p[position] != '/' then None
    else Some(parsed)
  }

  function DecodeIndex(p: string): Option<nat> {
    if p != [] && p[0] == '0' && |p| > 1 && p[1] != '/' then None
    else ScanIndex(p, 0, 0)
  }

  lemma {:induction false} ScanOne(p: string, position: nat, parsed: nat, d: nat)
    requires position < |p| && d < 10 && p[position] == Digit(d) && p[0] <= '9'
    requires 10 * parsed + d < INDEX_LIMIT
    ensures ScanIndex(p, position, parsed) == ScanIndex(p, position + 1, 10 * parsed + d)
  {
  }

  lemma {:induction false} ScanDecimal(n: nat, p: string)
    requires n < INDEX_LIMIT
    requires Decimal(n) <= p
    ensures ScanIndex(p, 0, 0) == ScanIndex(p, |Decimal(n)|, n)
  {
    DecimalDigits(n);
    var d := Decimal(n);
    assert p[0] == d[0];
    if n < 10 {
      ScanOne(p, 0, 0, n);
    } else {
      var q := Decimal(n / 10);
      assert q <= p by { assert q <= d; }
      ScanDecimal(n / 10, p);
      assert p[|q|] == d[|q|] == Digit(n % 10);
      ScanOne(p, |q|, n / 10, n % 10);
    }
  }

  /** A decimal index survives printing and decoding. */
  lemma {:induction false} DecodeDecimal(n: nat, rest: string)
    requires n < INDEX_LIMIT && EndsToken(rest)
    ensures DecodeIndex(Decimal(n) + rest) == Some(n)
  {
    DecimalDigits(n);
    ScanDecimal(n, Decimal(n) + rest);
  }

  // ----- walking

  /** The part of the pointer text after its first token. */
  function SkipToken(p: string): string {
    if p == [] || p[0] == '/' then p else SkipToken(p[1..])
  }

  function FirstMatch(ms: seq<Member>, p: string, cs: bool): (i: nat)
    ensures i <= |ms|
    ensures i < |ms| ==> ComparePointers(ms[i].key, p, cs)
    ensures forall k :: 0 <= k < i ==> !ComparePointers(ms[k].key, p, cs)
  {
    if ms == [] || ComparePointers(ms[0].key, p, cs) then 0 else 1 + FirstMatch(ms[1..], p, cs)
  }

  /** get_item_from_pointer: the address of the node the pointer text leads to. Text that
      does not start with '/' stays where it is. */
  function Resolve(j: JSON, p: string, cs: bool): Option<Address>
    decreases j
  {
    if p == [] || p[0] != '/' then Some([])
    else
      match j
      case Array(items) =>
        (match DecodeIndex(p[1..])
         case None => None
         case Some(i) =>
           if i < |items| then Below(i, Resolve(items[i], SkipToken(p[1..]), cs)) else None)
      case Object(ms) =>
        var i := FirstMatch(ms, p[1..], cs);
        if i < |ms| then Below(i, Resolve(ms[i].value, SkipToken(p[1..]), cs)) else None
      case _ => None
  }

  function Below(i: nat, a: Option<Address>): Option<Address> {
    match a
    case None => None
    case Some(rest) => Some([i] + rest)
  }

  predicate Valid(j: JSON, a: Address) {
    a == [] ||
    match j
    case Array(items) => a[0] < |items| && Valid(items[a[0]], a[1..])
    case Object(ms) => a[0] < |ms| && Valid(ms[a[0]].value, a[1..])
    case _ => false
  }

  function At(j: JSON, a: Address): JSON
    requires Valid(j, a)
  {
    if a == [] then j
    else
      match j
      case Array(items) => At(items[a[0]], a[1..])
      case Object(ms) => At(ms[a[0]].value, a[1..])
  }

  lemma {:induction false} ResolveIsValid(j: JSON, p: string, cs: bool)
    ensures Resolve(j, p, cs).Some? ==> Valid(j, Resolve(j, p, cs).value)
    decreases j
  {
    if p != [] && p[0] == '/' {
      match j
      case Array(items) =>
        var d := DecodeIndex(p[1..]);
        if d.Some? && d.value < |items| { ResolveIsValid(items[d.value], SkipToken(p[1..]), cs); }
      case Object(ms) =>
        var i := FirstMatch(ms, p[1..], cs);
        if i < |ms| { ResolveIsValid(ms[i].value, SkipToken(p[1..]), cs); }
      case _ =>
    }
  }

  // ----- building a pointer to a node

  /** cJSONUtils_FindPointerFromObjectTo: a depth-first search for the target node,
      which assembles the pointer text on the way back up. */
  function FindPointer(j: JSON, here: Address, target: Address): Option<string>
    decreases j, 1, 0
  {
    if here == target then Some("")
    else
      match j
      case Array(items) => FindInItems(j, 0, here, target)
      case Object(ms) => FindInMembers(j, 0, here, target)
      case _ => None
  }

  function FindInItems(j: JSON, k: nat, here: Address, target: Address): Option<string>
    requires j.Array? && k <= |j.items|
    decreases j, 0, |j.items| - k
  {
    if k == |j.items| then None
    else
      match FindPointer(j.items[k], here + [k], target)
      case Some(p) => Some("/" + Decimal(k) + p)
      case None => FindInItems(j, k + 1, here, target)
  }

  function FindInMembers(j: JSON, k: nat, here: Address, target: Address): Option<string>
    requires j.Object? && k <= |j.members|
    decreases j, 0, |j.members| - k
  {
    if k == |j.members| then None
    else
      match FindPointer(j.members[k].value, here + [k], target)
      case Some(p) => Some("/" + Encode(j.members[k].key) + p)
      case None => FindInMembers(j, k + 1, here, target)
  }

  /** The pointer of section 3 of RFC 6901 for the node at an address. */
  function PointerText(j: JSON, a: Address): string
    requires Valid(j, a)
  {
    if a == [] then ""
    else
      match j
      case Array(items) => "/" + Decimal(a[0]) + PointerText(items[a[0]], a[1..])
      case Object(ms) => "/" + Encode(ms[a[0]].key) + PointerText(ms[a[0]].value, a[1..])
  }

  ghost predicate IsBelow(j: JSON, here: Address, target: Address) {
    here <= target && Valid(j, target[|here|..])
  }

  /** The search finds every node of the tree and nothing else, and its text is the
      standard one. */
  lemma {:induction false} FindPointerExact(j: JSON, here: Address, target: Address)
    ensures FindPointer(j, here, target) ==
            if IsBelow(j, here, target) then Some(PointerText(j, target[|here|..])) else None
    decreases j, 1, 0
  {
    if here == target {
    } else {
      match j
      case Array(items) => FindInItemsExact(j, 0, here, target);
      case Object(ms) => FindInMembersExact(j, 0, here, target);
      case _ => assert here <= target ==> target[|here|..] != [];
    }
  }

  lemma {:induction false} StepDown(here: Address, target: Address, k: nat)
    ensures here + [k] <= target <==> here < target && target[|here|] == k
    ensures here + [k] <= target ==> target[|here + [k]|..] == target[|here|..][1..]
  {
    if here < target && target[|here|] == k {
      assert target[..|here| + 1] == here + [k];
    }
  }

  lemma {:induction false} FindInItemsExact(j: JSON, k: nat, here: Address, target: Address)
    requires j.Array? && k <= |j.items|
    requires here != target
    ensures FindInItems(j, k, here, target) ==
            if IsBelow(j, here, target) && target[|here|] >= k then Some(PointerText(j, target[|here|..])) else None
    decreases j, 0, |j.items| - k
  {
    if k < |j.items| {
      StepDown(here, target, k);
      FindPointerExact(j.items[k], here + [k], target);
      FindInItemsExact(j, k + 1, here, target);
    }
  }

  lemma {:induction false} FindInMembersExact(j: JSON, k: nat, here: Address, target: Address)
    requires j.Object? && k <= |j.members|
    requires here != target
    ensures FindInMembers(j, k, here, target) ==
            if IsBelow(j, here, target) && target[|here|] >= k then Some(PointerText(j, target[|here|..])) else None
    decreases j, 0, |j.members| - k
  {
    if k < |j.members| {
      StepDown(here, target, k);
      FindPointerExact(j.members[k].value, here + [k], target);
      FindInMembersExact(j, k + 1, here, target);
    }
  }

  /** No earlier sibling carries the same key, at any object on the way to the node. */
  ghost predicate Unshadowed(j: JSON, a: Address, cs: bool)
    requires Valid(j, a)
  {
    a == [] ||
    match j
    case Array(items) => Unshadowed(items[a[0]], a[1..], cs)
    case Object(ms) =>
      (forall k :: 0 <= k < a[0] ==> !SameKey(ms[k].key, ms[a[0]].key, cs)) &&
      Unshadowed(ms[a[0]].value, a[1..], cs)
  }

  lemma {:induction false} SkipPast(token: string, rest: string)
    requires EndsToken(rest)
    requires forall i :: 0 <= i < |token| ==> token[i] != '/'
    ensures SkipToken(token + rest) == rest
  {
    if token == [] {
      assert token + rest == rest;
    } else {
      assert (token + rest)[1..] == token[1..] + rest;
      SkipPast(token[1..], rest);
    }
  }

  lemma {:induction false} EncodedHasNoSlash(s: string)
    ensures forall i :: 0 <= i < |Encode(s)| ==> Encode(s)[i] != '/'
  {
    if s != [] { EncodedHasNoSlash(s[1..]); }
  }

  /** One step of a walk: the token of a member leads to the first member it names. */
  lemma {:induction false} ResolveMember(ms: seq<Member>, i: nat, rest: string, cs: bool)
    requires i < |ms| && EndsToken(rest)
    requires forall k :: 0 <= k < i ==> !SameKey(ms[k].key, ms[i].key, cs)
    ensures Resolve(Object(ms), "/" + Encode(ms[i].key) + rest, cs) == Below(i, Resolve(ms[i].value, rest, cs))
  {
    var token := Encode(ms[i].key);
    var p := "/" + token + rest;
    assert p[1..] == token + rest;
    EncodedHasNoSlash(ms[i].key);
    SkipPast(token, rest);
    forall k | 0 <= k < |ms|
      ensures ComparePointers(ms[k].key, token + rest, cs) <==> SameKey(ms[k].key, ms[i].key, cs)
    {
      ComparePointersExact(ms[k].key, ms[i].key, rest, cs);
    }
    assert FirstMatch(ms, p[1..], cs) == i;
  }

  lemma {:induction false} ResolveItem(items: seq<JSON>, i: nat, rest: string, cs: bool)
    requires i < |items| && i < INDEX_LIMIT && EndsToken(rest)
    ensures Resolve(Array(items), "/" + Decimal(i) + rest, cs) == Below(i, Resolve(items[i], rest, cs))
  {
    var p := "/" + Decimal(i) + rest;
    assert p[1..] == Decimal(i) + rest;
    DecimalDigits(i);
    SkipPast(Decimal(i), rest);
    DecodeDecimal(i, rest);
  }

  lemma {:induction false} PointerTextEnds(j: JSON, a: Address)
    requires Valid(j, a)
    ensures EndsToken(PointerText(j, a))
  {
  }

  /** Pointer round trip: looking up the pointer of a node returns that very node
      exactly when no earlier sibling shadows a key on the way. */
  lemma {:induction false} PointerRoundTrip(j: JSON, a: Address, cs: bool)
    requires Valid(j, a)
    requires forall i :: 0 <= i < |a| ==> a[i] < INDEX_LIMIT
    ensures FindPointer(j, [], a) == Some(PointerText(j, a))
    ensures Resolve(j, PointerText(j, a), cs) == Some(a) <==> Unshadowed(j, a, cs)
    decreases j
  {
    FindPointerExact(j, [], a);
    if a != [] {
      var i, rest := a[0], a[1..];
      assert a == [i] + rest;
      match j {
        case Array(items) =>
          PointerTextEnds(items[i], rest);
          ResolveItem(items, i, PointerText(items[i], rest), cs);
          PointerRoundTrip(items[i], rest, cs);
        case Object(ms) =>
          PointerTextEnds(ms[i].value, rest);
          PointerRoundTrip(ms[i].value, rest, cs);
          ResolveFirst(ms, i, PointerText(ms[i].value, rest), cs);
          if forall k :: 0 <= k < i ==> !SameKey(ms[k].key, ms[i].key, cs) {
            ResolveMember(ms, i, PointerText(ms[i].value, rest), cs);
          }
      }
    }
  }

  /** A shadowed member is not reached: the walk enters an earlier one. */
  lemma {:induction false} ResolveFirst(ms: seq<Member>, i: nat, rest: string, cs: bool)
    requires i < |ms| && EndsToken(rest)
    ensures var r := Resolve(Object(ms), "/" + Encode(ms[i].key) + rest, cs);
            r.Some? ==>
                r.value != [] && forall k :: 0 <= k < r.value[0] ==> k < |ms| && !SameKey(ms[k].key, ms[i].key, cs)
  {
    var p := "/" + Encode(ms[i].key) + rest;
    assert p[1..] == Encode(ms[i].key) + rest;
    forall k | 0 <= k < |ms|
      ensures ComparePointers(ms[k].key, p[1..], cs) <==> SameKey(ms[k].key, ms[i].key, cs)
    {
      ComparePointersExact(ms[k].key, ms[i].key, rest, cs);
    }
  }
}
