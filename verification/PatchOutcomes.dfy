/** What one patch operation does. */
module PatchOutcomes {
  // A path names a place when its parent part resolves to a container and its last token to a
  // child of that container. What a removal, a replacement and an addition do is said in those
  // terms, for paths that name a place and for paths that do not.

  import opened Json
  import opened KeyOrder
  import opened Members
  import opened Pointer
  import opened PointerDecode
  import opened Patch
  import opened PatchContext
  import opened PatchDocument

  // ----- places

  /** The decoded token names child i of the container for removals: keys are compared without
      regard to case in both modes, and the first match counts. */
  ghost predicate NamesOld(j: JSON, name: string, i: nat) {
    match j
    case Array(items) => i < |items| && DecodeIndex(name) == Some(i)
    case Object(ms) =>
      i < |ms| && Fold(ms[i].key) == Fold(name) && forall k :: 0 <= k < i ==> Fold(ms[k].key) != Fold(name)
    case _ => false
  }

  /** The path is this parent pointer, a slash and this token. */
  ghost predicate Splits(path: string, parent: string, token: string) {
    path == parent + "/" + token && '/' !in token
  }

  /** The path names child i of the container at address a. */
  ghost predicate Place(doc: JSON, path: string, cs: bool, a: Address, i: nat) {
    exists parent, token ::
      Splits(path, parent, token) && Resolve(doc, parent, cs) == Some(a) && Valid(doc, a) &&
      NamesOld(At(doc, a), DecodeInPlace(token), i)
  }

  ghost predicate Exists(doc: JSON, path: string, cs: bool) { exists a, i :: Place(doc, path, cs, a, i) }

  /** The container without its child i. */
  function Dropped(j: JSON, i: nat): JSON
    requires HasKid(j, i)
  {
    if j.Array? then Array(RemoveAt(j.items, i)) else Object(RemoveAt(j.members, i))
  }

  /** Every node of a document, itself included. */
  function Size(j: JSON): nat
    decreases j, 1
  {
    match j
    case Array(items) => 1 + ItemsSize(items)
    case Object(ms) => 1 + MembersSize(ms)
    case _ => 1
  }

  function ItemsSize(items: seq<JSON>): nat
    decreases items, 0
  {
    if items == [] then 0 else Size(items[0]) + ItemsSize(items[1..])
  }

  function MembersSize(ms: seq<Member>): nat
    decreases ms, 0
  {
    if ms == [] then 0 else Size(ms[0].value) + MembersSize(ms[1..])
  }

  // ----- splitting a path

  lemma {:induction false} SplitLast(path: string, parent: string, token: string)
    requires Splits(path, parent, token)
    ensures LastSlash(path) == Some(|parent|) && path[..|parent|] == parent && path[|parent| + 1..] == token
  {
    NoSlash(token);
    LastSlashIn(parent + "/", token);
    assert (parent + "/") + token == path;
    assert (parent + "/")[|parent|] == '/';
  }

  lemma {:induction false} LastIsSplit(path: string)
    ensures match LastSlash(path)
            case None => '/' !in path
            case Some(k) => Splits(path, path[..k], path[k + 1..])
  {
    if path != [] {
      var n := |path| - 1;
      var front := path[..n];
      assert path == front + [path[n]];
      if path[n] != '/' {
        LastIsSplit(front);
        match LastSlash(front)
        case None =>
        case Some(k) =>
          assert path[..k] == front[..k] && path[k + 1..] == front[k + 1..] + [path[n]];
      }
    }
  }

  /** The place a path names, if any, is found by splitting the path at its last slash. */
  lemma {:induction false} PlaceIs(doc: JSON, path: string, cs: bool, a: Address, i: nat)
    ensures Place(doc, path, cs, a, i) <==>
              LastSlash(path).Some? && Resolve(doc, path[..LastSlash(path).value], cs) == Some(a) && Valid(doc, a) &&
              NamesOld(At(doc, a), DecodeInPlace(path[LastSlash(path).value + 1..]), i)
  {
    LastIsSplit(path);
    if Place(doc, path, cs, a, i) {
      var parent, token :| Splits(path, parent, token) && Resolve(doc, parent, cs) == Some(a) && Valid(doc, a) &&
                           NamesOld(At(doc, a), DecodeInPlace(token), i);
      SplitLast(path, parent, token);
    }
  }

  lemma {:induction false} DetachIs(j: JSON, name: string)
    ensures match DetachChild(j, name)
            case Some(r) => exists i :: NamesOld(j, name, i) && r == Dropped(j, i)
            case None => forall i :: !NamesOld(j, name, i)
  {
    match j
    case Array(items) =>
      var d := DecodeIndex(name);
      if d.Some? && d.value < |items| { assert NamesOld(j, name, d.value); }
    case Object(ms) =>
      var f := FindKey(ms, name, false);
      if f < |ms| { assert NamesOld(j, name, f); }
    case _ =>
  }

  lemma {:induction false} OneName(j: JSON, name: string, i: nat, k: nat)
    requires NamesOld(j, name, i) && NamesOld(j, name, k)
    ensures i == k
  {
  }

  // ----- sizes

  lemma {:induction false} ItemsSizeConcat(a: seq<JSON>, b: seq<JSON>)
    ensures ItemsSize(a + b) == ItemsSize(a) + ItemsSize(b)
    decreases |a|
  {
    if a == [] {
      assert a + b == b;
    } else {
      assert (a + b)[1..] == a[1..] + b;
      ItemsSizeConcat(a[1..], b);
    }
  }

  lemma {:induction false} MembersSizeConcat(a: seq<Member>, b: seq<Member>)
    ensures MembersSize(a + b) == MembersSize(a) + MembersSize(b)
    decreases |a|
  {
    if a == [] {
      assert a + b == b;
    } else {
      assert (a + b)[1..] == a[1..] + b;
      MembersSizeConcat(a[1..], b);
    }
  }

  lemma {:induction false} DroppedSize(j: JSON, i: nat)
    requires HasKid(j, i)
    ensures Size(Dropped(j, i)) + Size(Kid(j, i)) == Size(j)
  {
    if j.Array? {
      var s := j.items;
      assert s == s[..i] + ([s[i]] + s[i + 1..]) && [s[i]][1..] == [];
      ItemsSizeConcat(s[..i], [s[i]] + s[i + 1..]);
      ItemsSizeConcat([s[i]], s[i + 1..]);
      ItemsSizeConcat(s[..i], s[i + 1..]);
    } else {
      var s := j.members;
      assert s == s[..i] + ([s[i]] + s[i + 1..]) && [s[i]][1..] == [];
      MembersSizeConcat(s[..i], [s[i]] + s[i + 1..]);
      MembersSizeConcat([s[i]], s[i + 1..]);
      MembersSizeConcat(s[..i], s[i + 1..]);
    }
  }

  lemma {:induction false} SetKidSize(j: JSON, i: nat, x: JSON)
    requires HasKid(j, i)
    ensures Size(SetKid(j, i, x)) + Size(Kid(j, i)) == Size(j) + Size(x)
  {
    var r := SetKid(j, i, x);
    DroppedSize(j, i);
    DroppedSize(r, i);
    if j.Array? { assert RemoveAt(r.items, i) == RemoveAt(j.items, i); }
    else { assert RemoveAt(r.members, i) == RemoveAt(j.members, i); }
  }

  lemma {:induction false} PutAtSize(j: JSON, a: Address, x: JSON)
    requires Valid(j, a)
    ensures Size(PutAt(j, a, x)) + Size(At(j, a)) == Size(j) + Size(x)
    decreases |a|
  {
    if a != [] {
      assert a == [a[0]] + a[1..];
      PutAtKid(j, a[0], a[1..], x);
      PutAtSize(Kid(j, a[0]), a[1..], x);
      SetKidSize(j, a[0], PutAt(Kid(j, a[0]), a[1..], x));
    }
  }

  lemma {:induction false} PutBack(j: JSON, a: Address)
    requires Valid(j, a)
    ensures PutAt(j, a, At(j, a)) == j
    decreases |a|
  {
    if a != [] {
      assert a == [a[0]] + a[1..];
      PutBack(Kid(j, a[0]), a[1..]);
      PutAtKid(j, a[0], a[1..], At(j, a));
      SetSame(j, a[0]);
    }
  }

  // ----- removing

  /** One child and its subtree are gone, and nothing else has changed. */
  ghost predicate Taken(doc: JSON, a: Address, i: nat, r: JSON) {
    Valid(doc, a) && HasKid(At(doc, a), i) && r == PutAt(doc, a, Dropped(At(doc, a), i)) &&
    Size(r) + Size(Kid(At(doc, a), i)) == Size(doc) && Size(r) < Size(doc)
  }

  lemma {:induction false} DroppedIsTaken(doc: JSON, a: Address, i: nat)
    requires Valid(doc, a) && HasKid(At(doc, a), i)
    ensures Taken(doc, a, i, PutAt(doc, a, Dropped(At(doc, a), i)))
  {
    DroppedSize(At(doc, a), i);
    PutAtSize(doc, a, Dropped(At(doc, a), i));
  }

  lemma {:induction false} DetachExact(doc: JSON, path: string, cs: bool)
    ensures match DetachPath(doc, path, cs)
            case Some(r) => exists a, i :: Place(doc, path, cs, a, i) && Taken(doc, a, i, r)
            case None => !Exists(doc, path, cs)
  {
    match LastSlash(path)
    case None =>
      forall a, i
        ensures !Place(doc, path, cs, a, i)
      {
        PlaceIs(doc, path, cs, a, i);
      }
    case Some(k) => DetachAt(doc, path, k, cs);
  }

  lemma {:induction false} DetachAt(doc: JSON, path: string, k: nat, cs: bool)
    requires LastSlash(path) == Some(k)
    ensures match DetachPath(doc, path, cs)
            case Some(r) => exists a, i :: Place(doc, path, cs, a, i) && Taken(doc, a, i, r)
            case None => !Exists(doc, path, cs)
  {
    match Resolve(doc, path[..k], cs)
    case None =>
      forall a, i
        ensures !Place(doc, path, cs, a, i)
      {
        PlaceIs(doc, path, cs, a, i);
      }
    case Some(a) =>
      ResolveIsValid(doc, path[..k], cs);
      DetachBelow(doc, path, k, a, DecodeInPlace(path[k + 1..]), cs);
  }

  lemma {:induction false} DetachBelow(doc: JSON, path: string, k: nat, a: Address, name: string, cs: bool)
    requires LastSlash(path) == Some(k) && Resolve(doc, path[..k], cs) == Some(a) && Valid(doc, a)
    requires name == DecodeInPlace(path[k + 1..])
    ensures match DetachPath(doc, path, cs)
            case Some(r) => exists a, i :: Place(doc, path, cs, a, i) && Taken(doc, a, i, r)
            case None => !Exists(doc, path, cs)
  {
    var parent := At(doc, a);
    DetachIs(parent, name);
    if DetachChild(parent, name).Some? {
      var i :| NamesOld(parent, name, i) && DetachChild(parent, name).value == Dropped(parent, i);
      DroppedIsTaken(doc, a, i);
      PlaceIs(doc, path, cs, a, i);
    } else {
      forall b, i
        ensures !Place(doc, path, cs, b, i)
      {
        PlaceIs(doc, path, cs, b, i);
      }
    }
  }

  /** A removal takes exactly the named node and its subtree out of the document; where the path
      names none the status is 13 and the document stays as it is. */
  lemma {:induction false} RemoveOutcome(doc: JSON, path: string, v: Option<JSON>, cs: bool)
    requires path != ""
    ensures var r := ApplyOp(doc, Op(REMOVE, path, v), cs);
            if Exists(doc, path, cs) then
              r.outcome == OK && exists a, i :: Place(doc, path, cs, a, i) && Taken(doc, a, i, r.doc)
            else r == Applied(Status(13), doc)
  {
    DetachExact(doc, path, cs);
  }

  lemma {:induction false} OnePlace(doc: JSON, path: string, cs: bool, a: Address, i: nat, b: Address, k: nat)
    requires Place(doc, path, cs, a, i) && Place(doc, path, cs, b, k)
    ensures a == b && i == k
  {
    PlaceIs(doc, path, cs, a, i);
    PlaceIs(doc, path, cs, b, k);
    OneName(At(doc, a), DecodeInPlace(path[LastSlash(path).value + 1..]), i, k);
  }

  // ----- adding

  /** The members without the first one that has this key in the given mode. */
  ghost predicate WithoutKey(ms: seq<Member>, name: string, cs: bool, r: seq<Member>) {
    if forall m :: m in ms ==> !SameKey(m.key, name, cs) then r == ms
    else
      exists i :: 0 <= i < |ms| && SameKey(ms[i].key, name, cs) && r == ms[..i] + ms[i + 1..] &&
                  forall k :: 0 <= k < i ==> !SameKey(ms[k].key, name, cs)
  }

  lemma {:induction false} DeleteKeyExact(ms: seq<Member>, name: string, cs: bool)
    ensures WithoutKey(ms, name, cs, DeleteKey(ms, name, cs))
  {
    var i := FindKey(ms, name, cs);
    if i < |ms| { assert ms[i] in ms; }
  }

  /** What becomes of the container, and the status. */
  ghost predicate Inserted(j: JSON, name: string, v: JSON, cs: bool, status: Outcome, r: JSON) {
    match j
    case Array(items) =>
      if name == "-" then status == OK && r == Array(items + [v])
      else
        (match DecodeIndex(name)
         case None => status == Status(11) && r == j
         case Some(i) =>
           if i > |items| then status == Status(10) && r == j
           else status == OK && r == Array(items[..i] + [v] + items[i..]))
    case Object(ms) =>
      status == OK && r.Object? && r.members != [] && r.members[|r.members| - 1] == Member(name, v) &&
      WithoutKey(ms, name, cs, r.members[..|r.members| - 1])
    case _ => status == Status(9) && r == j
  }

  lemma {:induction false} InsertIs(j: JSON, name: string, v: JSON, cs: bool)
    ensures Inserted(j, name, v, cs, InsertChild(j, name, v, cs).outcome, InsertChild(j, name, v, cs).doc)
  {
    if j.Object? {
      DeleteKeyExact(j.members, name, cs);
      var r := InsertChild(j, name, v, cs).doc.members;
      assert r[..|r| - 1] == DeleteKey(j.members, name, cs);
    }
  }

  /** An addition below the root. A value that is too high to be copied gives 8, a parent that
      does not resolve 9, and otherwise it is the container that decides; on an error the
      document stays as it is. */
  lemma {:induction false} AddOutcome(doc: JSON, parent: string, token: string, v: JSON, cs: bool)
    requires '/' !in token
    ensures var r := ApplyOp(doc, Op(ADD, parent + "/" + token, Some(v)), cs);
            if Height(v) > CIRCULAR_LIMIT then r == Applied(Status(8), doc)
            else
              match Resolve(doc, parent, cs)
              case None => r == Applied(Status(9), doc)
              case Some(a) =>
                Valid(doc, a) && (r.outcome != OK ==> r.doc == doc) &&
                exists x :: Inserted(At(doc, a), DecodeInPlace(token), v, cs, r.outcome, x) && r.doc == PutAt(doc, a, x)
  {
    var path := parent + "/" + token;
    SplitLast(path, parent, token);
    ResolveIsValid(doc, parent, cs);
    if Resolve(doc, parent, cs).Some? {
      var a := Resolve(doc, parent, cs).value;
      InsertIs(At(doc, a), DecodeInPlace(token), v, cs);
      PutBack(doc, a);
    }
  }

  /** Additions and replacements of the root, additions without a value, and paths without a
      slash. */
  lemma {:induction false} AddElsewhere(doc: JSON, path: string, v: JSON, cs: bool)
    ensures ApplyOp(doc, Op(ADD, path, None), cs) == Applied(Status(7), doc)
    ensures Height(v) <= CIRCULAR_LIMIT ==>
              ApplyOp(doc, Op(ADD, "", Some(v)), cs) == Applied(OK, v) == ApplyOp(doc, Op(REPLACE, "", Some(v)), cs)
    ensures Height(v) <= CIRCULAR_LIMIT && path != "" && '/' !in path ==>
              ApplyOp(doc, Op(ADD, path, Some(v)), cs) == Applied(Status(9), doc)
  {
    LastIsSplit(path);
    if LastSlash(path).Some? { assert path[LastSlash(path).value] in path; }
  }

  // ----- replacing

  /** A change of the container at an address does not change what leads to it. */
  lemma {:induction false} ResolvePut(doc: JSON, p: string, cs: bool, x: JSON)
    requires Resolve(doc, p, cs).Some? && Valid(doc, Resolve(doc, p, cs).value)
    ensures Resolve(PutAt(doc, Resolve(doc, p, cs).value, x), p, cs) == Resolve(doc, p, cs)
    ensures Valid(PutAt(doc, Resolve(doc, p, cs).value, x), Resolve(doc, p, cs).value)
    ensures At(PutAt(doc, Resolve(doc, p, cs).value, x), Resolve(doc, p, cs).value) == x
    decreases doc
  {
    var a := Resolve(doc, p, cs).value;
    if p != [] && p[0] == '/' {
      var i, rest := a[0], SkipToken(p[1..]);
      assert Resolve(Kid(doc, i), rest, cs) == Some(a[1..]);
      assert a == [i] + a[1..];
      ResolvePut(Kid(doc, i), rest, cs, x);
      PutAtKid(doc, i, a[1..], x);
      var y := PutAt(Kid(doc, i), a[1..], x);
      SetMatches(doc, i, y, p[1..], cs);
      var d := SetKid(doc, i, y);
      assert Resolve(d, p, cs) == Below(i, Resolve(y, rest, cs));
      PutAtKid(d, i, a[1..], x);
    }
  }

  lemma {:induction false} SetMatches(doc: JSON, i: nat, y: JSON, p: string, cs: bool)
    requires HasKid(doc, i)
    ensures doc.Object? ==> FirstMatch(SetKid(doc, i, y).members, p, cs) == FirstMatch(doc.members, p, cs)
  {
    if doc.Object? { SameMatches(doc.members, SetKid(doc, i, y).members, p, cs); }
  }

  lemma {:induction false} SameMatches(a: seq<Member>, b: seq<Member>, p: string, cs: bool)
    requires |a| == |b| && forall k :: 0 <= k < |a| ==> a[k].key == b[k].key
    ensures FirstMatch(a, p, cs) == FirstMatch(b, p, cs)
  {
    if a != [] { SameMatches(a[1..], b[1..], p, cs); }
  }

  /** The outcome of putting the new value where the old one was taken away. */
  ghost predicate Replaced(doc: JSON, name: string, v: JSON, cs: bool, a: Address, i: nat, r: JSON) {
    Valid(doc, a) && HasKid(At(doc, a), i) &&
    match At(doc, a)
    case Array(items) => r == PutAt(doc, a, Array(items[i := v]))
    case Object(ms) =>
      exists rest :: WithoutKey(RemoveAt(ms, i), name, cs, rest) &&
                     r == PutAt(doc, a, Object(rest + [Member(name, v)]))
  }

  /** What a replacement makes of the child i of the container at a. */
  ghost predicate ReplacedAs(doc: JSON, name: string, v: Option<JSON>, cs: bool, a: Address, i: nat, r: Applied) {
    if v.None? then r.outcome == Status(7) && Taken(doc, a, i, r.doc)
    else if Height(v.value) > CIRCULAR_LIMIT then r.outcome == Status(8) && Taken(doc, a, i, r.doc)
    else r.outcome == OK && Replaced(doc, name, v.value, cs, a, i, r.doc)
  }

  /** A replacement of an item puts the value in its place; one of a member takes the member
      away and adds the value at the end. Where the path names no node the status is 13 and the
      document stays as it is; where the value is missing (7) or too high to be copied (8) the
      old node is gone all the same. */
  lemma {:induction false} ReplaceOutcome(doc: JSON, parent: string, token: string, v: Option<JSON>, cs: bool)
    requires '/' !in token
    ensures var path, name := parent + "/" + token, DecodeInPlace(token);
            var r := ApplyOp(doc, Op(REPLACE, path, v), cs);
            if !Exists(doc, path, cs) then r == Applied(Status(13), doc)
            else exists a, i :: Place(doc, path, cs, a, i) && ReplacedAs(doc, name, v, cs, a, i, r)
  {
    var path := parent + "/" + token;
    DetachExact(doc, path, cs);
    if Exists(doc, path, cs) {
      var gone := DetachPath(doc, path, cs).value;
      var a, i :| Place(doc, path, cs, a, i) && Taken(doc, a, i, gone);
      ReplaceFound(doc, path, parent, token, v, cs, a, i, gone);
    }
  }

  lemma {:induction false} ReplaceFound(doc: JSON, path: string, parent: string, token: string, v: Option<JSON>,
      cs: bool, a: Address, i: nat, gone: JSON)
    requires Splits(path, parent, token) && Place(doc, path, cs, a, i) && Taken(doc, a, i, gone)
    requires DetachPath(doc, path, cs) == Some(gone) && path != []
    ensures ReplacedAs(doc, DecodeInPlace(token), v, cs, a, i, ApplyOp(doc, Op(REPLACE, path, v), cs))
  {
    if v.Some? && Height(v.value) <= CIRCULAR_LIMIT { InsertAgain(doc, path, parent, token, v.value, cs, a, i, gone); }
  }

  lemma {:induction false} InsertAgain(doc: JSON, path: string, parent: string, token: string, v: JSON, cs: bool,
      a: Address, i: nat, gone: JSON)
    requires Splits(path, parent, token) && Place(doc, path, cs, a, i) && Taken(doc, a, i, gone)
    ensures var r := InsertPath(gone, path, v, cs);
            r.outcome == OK && Replaced(doc, DecodeInPlace(token), v, cs, a, i, r.doc)
  {
    var name, rest := DecodeInPlace(token), Dropped(At(doc, a), i);
    SplitLast(path, parent, token);
    PlaceIs(doc, path, cs, a, i);
    ResolvePut(doc, parent, cs, rest);
    PutTwice(doc, a, rest, InsertChild(rest, name, v, cs).doc);
    if rest.Array? {
      MinusIsNoIndex(name);
      var items := At(doc, a).items;
      assert InsertAt(RemoveAt(items, i), i, v) == items[i := v];
    } else {
      DeleteKeyExact(rest.members, name, cs);
    }
  }

  lemma {:induction false} MinusIsNoIndex(name: string)
    requires DecodeIndex(name).Some?
    ensures name != "-"
  {
  }

  lemma {:induction false} PutTwice(doc: JSON, a: Address, x: JSON, y: JSON)
    requires Valid(doc, a) && Valid(PutAt(doc, a, x), a)
    ensures PutAt(PutAt(doc, a, x), a, y) == PutAt(doc, a, y)
    decreases |a|
  {
    if a != [] {
      var i, b := a[0], a[1..];
      assert a == [i] + b;
      PutAtKid(doc, i, b, x);
      PutAtKid(doc, i, b, y);
      var d := SetKid(doc, i, PutAt(Kid(doc, i), b, x));
      PutAtKid(d, i, b, y);
      PutTwice(Kid(doc, i), b, x, y);
      SetTwice(doc, i, PutAt(Kid(doc, i), b, x), PutAt(Kid(doc, i), b, y));
    }
  }

  // ----- patches and lists of patches

  /** A patch without a path that is a string is refused with 2, one without a known operation
      with 3; the document stays as it is. */
  lemma {:induction false} MalformedIsRefused(doc: JSON, patch: JSON, cs: bool)
    ensures (Lookup(patch, "path", cs).None? || !Lookup(patch, "path", cs).value.Str?) ==>
              ApplyPatch(doc, patch, cs) == Applied(Status(2), doc)
    ensures Lookup(patch, "path", cs).Some? && Lookup(patch, "path", cs).value.Str? &&
              (forall kind :: kind != INVALID ==> Lookup(patch, "op", cs) != Some(Str(KindName(kind)))) ==>
              ApplyPatch(doc, patch, cs) == Applied(Status(3), doc)
  {
    if Lookup(patch, "path", cs).Some? && Lookup(patch, "path", cs).value.Str? &&
       forall kind :: kind != INVALID ==> Lookup(patch, "op", cs) != Some(Str(KindName(kind)))
    {
      assert Lookup(patch, "op", cs) != Some(Str(KindName(ADD)));
      assert Lookup(patch, "op", cs) != Some(Str(KindName(REMOVE)));
      assert Lookup(patch, "op", cs) != Some(Str(KindName(REPLACE)));
      assert Lookup(patch, "op", cs) != Some(Str(KindName(MOVE)));
      assert Lookup(patch, "op", cs) != Some(Str(KindName(COPY)));
      assert Lookup(patch, "op", cs) != Some(Str(KindName(TEST)));
    }
  }

  /** What patch number k makes of the document, once the ones before it are applied. */
  function Step(doc: JSON, patches: seq<JSON>, k: nat, cs: bool): Applied
    requires k < |patches|
  {
    ApplyPatch(ApplyList(doc, patches[..k], cs).doc, patches[k], cs)
  }

  /** A list of patches either applies as a whole, or it stops at one patch whose status it
      returns, with the document as that patch left it and all earlier ones applied. */
  lemma {:induction false} StopsAtFirst(doc: JSON, patches: seq<JSON>, cs: bool)
    ensures var r := ApplyList(doc, patches, cs);
            r.outcome != OK ==>
              exists k :: 0 <= k < |patches| && ApplyList(doc, patches[..k], cs).outcome == OK &&
                          r == Step(doc, patches, k, cs)
    ensures ApplyList(doc, patches, cs).outcome == OK ==>
              forall k :: 0 <= k < |patches| ==> Step(doc, patches, k, cs).outcome == OK
  {
    if ApplyList(doc, patches, cs).outcome != OK {
      var k := FailsAt(doc, patches, cs);
    } else {
      forall k | 0 <= k < |patches|
        ensures Step(doc, patches, k, cs).outcome == OK
      {
        StepApplies(doc, patches, k, cs);
      }
    }
  }

  lemma {:induction false} FailsAt(doc: JSON, patches: seq<JSON>, cs: bool) returns (k: nat)
    requires ApplyList(doc, patches, cs).outcome != OK
    ensures k < |patches| && ApplyList(doc, patches[..k], cs).outcome == OK
    ensures ApplyList(doc, patches, cs) == Step(doc, patches, k, cs)
    decreases |patches|
  {
    var n := |patches| - 1;
    var front := patches[..n];
    assert front + [patches[n]] == patches;
    ListSplits(doc, front, patches[n], cs);
    if ApplyList(doc, front, cs).outcome == OK {
      k := n;
    } else {
      k := FailsAt(doc, front, cs);
      assert front[..k] == patches[..k];
    }
  }

  lemma {:induction false} StepApplies(doc: JSON, patches: seq<JSON>, k: nat, cs: bool)
    requires k < |patches| && ApplyList(doc, patches, cs).outcome == OK
    ensures Step(doc, patches, k, cs).outcome == OK
    decreases |patches|
  {
    var n := |patches| - 1;
    var front := patches[..n];
    assert front + [patches[n]] == patches;
    ListSplits(doc, front, patches[n], cs);
    if k < n {
      StepApplies(doc, front, k, cs);
      assert front[..k] == patches[..k];
    }
  }

  lemma {:induction false} ListSplits(doc: JSON, front: seq<JSON>, last: JSON, cs: bool)
    ensures var r := ApplyList(doc, front, cs);
            ApplyList(doc, front + [last], cs) == if r.outcome == OK then ApplyPatch(r.doc, last, cs) else r
    decreases |front|
  {
    var all := front + [last];
    if front == [] {
      assert all == [last] && all[1..] == [];
    } else {
      assert all[0] == front[0] && all[1..] == front[1..] + [last];
      var r := ApplyPatch(doc, front[0], cs);
      if r.outcome == OK { ListSplits(r.doc, front[1..], last, cs); }
    }
  }
}
