/** JSON Patch as it runs. */
module PatchDocument {
  // The list of patches is itself a JSON document, and the generator appends to such a list.

  import opened Json
  import opened KeyOrder
  import opened Members
  import opened Numbers
  import opened Pointer
  import opened PointerDecode
  import opened Patch
  import opened PatchRoundTrip
  import opened PatchWalk

  // ----- patches as documents

  function KindName(kind: Kind): string {
    match kind
    case ADD => "add"
    case REMOVE => "remove"
    case REPLACE => "replace"
    case MOVE => "move"
    case COPY => "copy"
    case TEST => "test"
    case INVALID => ""
  }

  function ReadKind(j: Option<JSON>): Kind {
    match j
    case Some(Str(s)) =>
      if s == "add" then ADD
      else if s == "remove" then REMOVE
      else if s == "replace" then REPLACE
      else if s == "move" then MOVE
      else if s == "copy" then COPY
      else if s == "test" then TEST
      else INVALID
    case _ => INVALID
  }

  /** The object compose_patch adds to the list. */
  function Written(op: Op): JSON {
    Object([Member("op", Str(KindName(op.kind))), Member("path", Str(op.path))] +
           match op.value case None => [] case Some(v) => [Member("value", v)])
  }

  function WrittenAll(ops: seq<Op>): (r: seq<JSON>)
    ensures |r| == |ops| && forall i :: 0 <= i < |r| ==> r[i] == Written(ops[i])
  {
    seq(|ops|, i requires 0 <= i < |ops| => Written(ops[i]))
  }

  /** What apply_patch reads from a patch; None when it has no path. */
  function Read(patch: JSON, cs: bool): Option<Op> {
    match Lookup(patch, "path", cs)
    case Some(Str(path)) => Some(Op(ReadKind(Lookup(patch, "op", cs)), path, Lookup(patch, "value", cs)))
    case _ => None
  }

  function ApplyPatch(doc: JSON, patch: JSON, cs: bool): Applied {
    match Read(patch, cs)
    case None => Applied(Status(2), doc)
    case Some(op) => ApplyOp(doc, op, cs)
  }

  function ApplyList(doc: JSON, patches: seq<JSON>, cs: bool): Applied
    decreases patches
  {
    if patches == [] then Applied(OK, doc)
    else
      var r := ApplyPatch(doc, patches[0], cs);
      if r.outcome == OK then ApplyList(r.doc, patches[1..], cs) else r
  }

  /** cJSONUtils_ApplyPatches. */
  function ApplyPatches(doc: JSON, patches: JSON, cs: bool): Applied {
    if !patches.Array? then Applied(Status(1), doc) else ApplyList(doc, patches.items, cs)
  }

  /** cJSONUtils_GeneratePatches. */
  function GeneratePatches(from: JSON, to: JSON, cs: bool): JSON {
    Array(WrittenAll(CreateOps("", from, to, cs)))
  }

  lemma {:induction false} ReadWritten(op: Op, cs: bool)
    requires op.kind != INVALID
    ensures Read(Written(op), cs) == Some(op)
  {
    WrittenKindAndPath(op, cs);
    WrittenValue(op, cs);
  }

  lemma {:induction false} WrittenKindAndPath(op: Op, cs: bool)
    ensures Lookup(Written(op), "op", cs) == Some(Str(KindName(op.kind)))
    ensures Lookup(Written(op), "path", cs) == Some(Str(op.path))
  {
    var w := Written(op);
    assert w.members[0] == Member("op", Str(KindName(op.kind)));
    assert w.members[1] == Member("path", Str(op.path));
    LookupAt(w, "op", 0, cs);
    LookupAt(w, "path", 1, cs);
  }

  lemma {:induction false} WrittenValue(op: Op, cs: bool)
    ensures Lookup(Written(op), "value", cs) == op.value
  {
    var w := Written(op);
    assert w.members[0].key == "op" && w.members[1].key == "path";
    if op.value.Some? {
      assert w.members[2] == Member("value", op.value.value);
      LookupAt(w, "value", 2, cs);
    } else {
      LookupNone(w, "value", cs);
    }
  }

  /** Keys of different lengths differ in both modes. */
  lemma {:induction false} LookupAt(j: JSON, key: string, i: nat, cs: bool)
    requires j.Object? && i < |j.members| && j.members[i].key == key
    requires forall k :: 0 <= k < i ==> |j.members[k].key| != |key|
    ensures Lookup(j, key, cs) == Some(j.members[i].value)
  {
    var f := FindKey(j.members, key, cs);
    assert SameKey(j.members[i].key, key, cs);
    assert f < i ==> |Folded(j.members[f].key, cs)| == |Folded(key, cs)|;
  }

  lemma {:induction false} LookupNone(j: JSON, key: string, cs: bool)
    requires j.Object? && forall k :: 0 <= k < |j.members| ==> |j.members[k].key| != |key|
    ensures Lookup(j, key, cs) == None
  {
    var f := FindKey(j.members, key, cs);
    assert f < |j.members| ==> |Folded(j.members[f].key, cs)| == |Folded(key, cs)|;
  }

  lemma {:induction false} ApplyWritten(doc: JSON, ops: seq<Op>, cs: bool)
    requires forall i :: 0 <= i < |ops| ==> ops[i].kind != INVALID
    ensures ApplyList(doc, WrittenAll(ops), cs) == ApplyOps(doc, ops, cs)
    decreases ops
  {
    if ops != [] {
      ReadWritten(ops[0], cs);
      assert WrittenAll(ops)[1..] == WrittenAll(ops[1..]);
      ApplyWritten(ApplyOp(doc, ops[0], cs).doc, ops[1..], cs);
    }
  }

  /** Patch round trip: the patches generated for two documents, applied in order to a
      copy of the first, all succeed and yield the second up to member order. */
  lemma {:induction false} PatchesRoundTrip(from: JSON, to: JSON, cs: bool, keys: iset<string>)
    requires Good(from, keys) && Good(to, keys) && Handled(from, to, cs)
    requires Height(to) <= CIRCULAR_LIMIT
    ensures var r := ApplyPatches(from, GeneratePatches(from, to, cs), cs);
            r.outcome == OK && Sem(r.doc) == Sem(to)
  {
    RoundTrip(from, to, cs, keys);
    GeneratedKinds("", from, to, cs);
    ApplyWritten(from, CreateOps("", from, to, cs), cs);
  }

  ghost predicate Kinds(ops: seq<Op>) {
    forall i :: 0 <= i < |ops| ==> ops[i].kind in {ADD, REMOVE, REPLACE}
  }

  lemma {:induction false} GeneratedKinds(path: string, from: JSON, to: JSON, cs: bool)
    ensures Kinds(CreateOps(path, from, to, cs))
    decreases Height(from), 1, 0
  {
    if SameType(from, to) {
      match from
      case Array(items) => ItemKinds(path, items, to.items, 0, cs);
      case Object(ms) =>
        SortMembersHeight(ms, cs);
        MemberKinds(path, SortMembers(ms, cs), SortMembers(to.members, cs), cs);
      case _ =>
    }
  }

  lemma {:induction false} ItemKinds(path: string, from: seq<JSON>, to: seq<JSON>, k: nat, cs: bool)
    requires k <= |from| && k <= |to|
    ensures Kinds(ItemOps(path, from, to, k, cs))
    decreases ItemsHeight(from), 0, |from| - k
  {
    if k < |from| && k < |to| {
      ItemHeight(from, k);
      GeneratedKinds(path + "/" + Decimal(k), from[k], to[k], cs);
      ItemKinds(path, from, to, k + 1, cs);
    } else {
      RemoveTailKinds(path, k, |from| - k);
      AddTailKinds(path, to[k..]);
    }
  }

  lemma {:induction false} RemoveTailKinds(path: string, index: nat, count: nat)
    ensures Kinds(RemoveTail(path, index, count))
  {
    if count > 0 { RemoveTailKinds(path, index, count - 1); }
  }

  lemma {:induction false} AddTailKinds(path: string, to: seq<JSON>)
    ensures Kinds(AddTail(path, to))
  {
    if to != [] { AddTailKinds(path, to[1..]); }
  }

  lemma {:induction false} MemberKinds(path: string, fs: seq<Member>, ts: seq<Member>, cs: bool)
    ensures Kinds(MemberOps(path, fs, ts, cs))
    decreases MembersHeight(fs), 0, |fs| + |ts|
  {
    if fs != [] || ts != [] {
      var diff := if fs == [] then 1 else if ts == [] then -1 else CompareStrings(fs[0].key, ts[0].key, cs);
      if diff == 0 {
        MemberHeight(fs, 0);
        GeneratedKinds(path + "/" + Encode(fs[0].key), fs[0].value, ts[0].value, cs);
        MemberKinds(path, fs[1..], ts[1..], cs);
      } else if diff < 0 {
        MemberKinds(path, fs[1..], ts, cs);
      } else {
        MemberKinds(path, fs, ts[1..], cs);
      }
    }
  }

  // ----- loops

  /** The digit loop of decode_array_index_from_pointer. */
  method DecodeIndexLoop(p: string) returns (r: Option<nat>)
    ensures r == DecodeIndex(p)
  {
    if |p| > 1 && p[0] == '0' && p[1] != '/' {
      return None;
    }
    var parsed: nat, position: nat := 0, 0;
    while position < |p| && p[position] >= '0' && p[0] <= '9'
      invariant position <= |p|
      invariant ScanIndex(p, position, parsed) == ScanIndex(p, 0, 0)
    {
      parsed := (10 * parsed + (p[position] as int - '0' as int)) % INDEX_LIMIT;
      position := position + 1;
    }
    if position < |p| && p[position] != '/' {
      return None;
    }
    return Some(parsed);
  }

  /** compare_pointers. */
  method ComparePointersLoop(name: string, p: string, cs: bool) returns (same: bool)
    ensures same == ComparePointers(name, p, cs)
  {
    var i, k := 0, 0;
    while i < |name| && k < |p| && p[k] != '/'
      invariant i <= |name| && k <= |p|
      invariant ComparePointers(name[i..], p[k..], cs) == ComparePointers(name, p, cs)
    {
      if p[k] == '~' {
        var next := if k + 1 < |p| then p[k + 1] else '\0';
        if (next != '0' || name[i] != '~') && (next != '1' || name[i] != '/') {
          return false;
        }
        k := k + 1;
      } else if FoldChar(name[i], cs) != FoldChar(p[k], cs) {
        return false;
      }
      i, k := i + 1, k + 1;
    }
    return (k < |p| && p[k] != '/') == (i < |name|);
  }

  /** pointer_encoded_length. */
  method EncodedLength(s: string) returns (length: nat)
    ensures length == |Encode(s)|
  {
    length := 0;
    var i := 0;
    while i < |s|
      invariant i <= |s| && length + |Encode(s[i..])| == |Encode(s)|
    {
      if s[i] == '~' || s[i] == '/' { length := length + 1; }
      length, i := length + 1, i + 1;
    }
  }

  /** encode_string_as_pointer: the escaped text and its terminator. */
  method EncodeStringAsPointer(destination: array<char>, at: nat, s: string)
    requires at + |Encode(s)| < destination.Length
    modifies destination
    ensures destination[..at + |Encode(s)|] == old(destination[..at]) + Encode(s)
    ensures destination[at + |Encode(s)|] == '\0'
  {
    var d, i := at, 0;
    ghost var before := destination[..at];
    assert s[0..] == s;
    while i < |s|
      invariant i <= |s| && at <= d && d + |Encode(s[i..])| == at + |Encode(s)|
      invariant destination[..d] + Encode(s[i..]) == before + Encode(s)
    {
      ghost var done, rest := destination[..d], Encode(s[i + 1..]);
      assert s[i..][0] == s[i] && s[i..][1..] == s[i + 1..];
      if s[i] == '/' {
        destination[d] := '~';
        destination[d + 1] := '1';
        d := d + 1;
        assert destination[..d + 1] == done + "~1";
        Regroup(done, "~1", rest);
      } else if s[i] == '~' {
        destination[d] := '~';
        destination[d + 1] := '0';
        d := d + 1;
        assert destination[..d + 1] == done + "~0";
        Regroup(done, "~0", rest);
      } else {
        destination[d] := s[i];
        assert destination[..d + 1] == done + [s[i]];
        Regroup(done, [s[i]], rest);
      }
      d, i := d + 1, i + 1;
    }
    assert s[i..] == [] && destination[..d] + [] == destination[..d];
    destination[d] := '\0';
  }

  /** The pointer of a child: a slash, its escaped key and the pointer below it. */
  method KeyPointer(key: string, below: string) returns (full: string)
    ensures full == "/" + Encode(key) + below
  {
    var length := EncodedLength(key);
    var buffer := new char[|below| + length + 2];
    buffer[0] := '/';
    EncodeStringAsPointer(buffer, 1, key);
    full := buffer[..1 + length] + below;
  }

  /** cJSONUtils_FindPointerFromObjectTo. */
  method FindPointerFromObjectTo(j: JSON, here: Address, target: Address) returns (r: Option<string>)
    ensures r == FindPointer(j, here, target)
    decreases j
  {
    if here == target { return Some(""); }
    if j.Array? {
      for k := 0 to |j.items|
        invariant FindPointer(j, here, target) == FindInItems(j, k, here, target)
      {
        var below := FindPointerFromObjectTo(j.items[k], here + [k], target);
        if below.Some? { return Some("/" + Decimal(k) + below.value); }
      }
    } else if j.Object? {
      for k := 0 to |j.members|
        invariant FindPointer(j, here, target) == FindInMembers(j, k, here, target)
      {
        var below := FindPointerFromObjectTo(j.members[k].value, here + [k], target);
        if below.Some? {
          var full := KeyPointer(j.members[k].key, below.value);
          return Some(full);
        }
      }
    }
    return None;
  }

  /** The inner loop of get_item_from_pointer: the first member whose key the token spells. */
  method FirstMatchLoop(members: seq<Member>, p: string, cs: bool) returns (i: nat)
    ensures i == FirstMatch(members, p, cs)
  {
    i := 0;
    while i < |members|
      invariant i <= |members|
      invariant forall k :: 0 <= k < i ==> !ComparePointers(members[k].key, p, cs)
    {
      var same := ComparePointersLoop(members[i].key, p, cs);
      if same { break; }
      i := i + 1;
    }
    FirstMatchIs(members, p, cs, i);
  }

  lemma {:induction false} FirstMatchIs(members: seq<Member>, p: string, cs: bool, i: nat)
    requires i <= |members| && forall k :: 0 <= k < i ==> !ComparePointers(members[k].key, p, cs)
    requires i == |members| || ComparePointers(members[i].key, p, cs)
    ensures FirstMatch(members, p, cs) == i
  {
  }

  /** get_item_from_pointer: follows the pointer with a cursor in the text and a cursor
      in the tree. */
  method GetItemFromPointer(root: JSON, pointer: string, cs: bool) returns (r: Option<Address>)
    ensures r == Resolve(root, pointer, cs)
  {
    var current := root;
    var here: Address := [];
    var p := pointer;
    OnwardNone(Resolve(root, pointer, cs));
    while p != [] && p[0] == '/'
      invariant Resolve(root, pointer, cs) == Onward(here, Resolve(current, p, cs))
      decreases |p|
    {
      p := p[1..];
      ghost var token := p;
      if current.Array? {
        var index := DecodeIndexLoop(p);
        if index.None? || index.value >= |current.items| {
          return None;
        }
        OnwardStep(here, index.value, Resolve(current.items[index.value], SkipToken(p), cs));
        here, current := here + [index.value], current.items[index.value];
      } else if current.Object? {
        var i := FirstMatchLoop(current.members, p, cs);
        if i == |current.members| {
          return None;
        }
        OnwardStep(here, i, Resolve(current.members[i].value, SkipToken(p), cs));
        here, current := here + [i], current.members[i].value;
      } else {
        return None;
      }
      while p != [] && p[0] != '/'
        invariant SkipToken(p) == SkipToken(token)
        invariant |p| <= |token|
        decreases |p|
      {
        p := p[1..];
      }
    }
    assert here + [] == here;
    return Some(here);
  }

  function Onward(here: Address, rest: Option<Address>): Option<Address> {
    match rest
    case None => None
    case Some(a) => Some(here + a)
  }

  lemma {:induction false} OnwardNone(rest: Option<Address>)
    ensures Onward([], rest) == rest
  {
    if rest.Some? { assert [] + rest.value == rest.value; }
  }

  lemma {:induction false} OnwardStep(here: Address, i: nat, rest: Option<Address>)
    ensures Onward(here, Below(i, rest)) == Onward(here + [i], rest)
  {
    if rest.Some? { assert here + ([i] + rest.value) == here + [i] + rest.value; }
  }

  // ----- the document

  class Document {
    var root: JSON

    constructor (j: JSON)
      ensures root == j
    {
      root := j;
    }

    /** detach_path: drops the node the path names; false when there is none. */
    method Detach(path: string, cs: bool) returns (found: bool)
      modifies this
      ensures found == DetachPath(old(root), path, cs).Some?
      ensures root == if found then DetachPath(old(root), path, cs).value else old(root)
    {
      var slash := LastSlash(path);
      if slash.None? { return false; }
      var a := GetItemFromPointer(root, path[..slash.value], cs);
      if a.None? { return false; }
      ResolveIsValid(root, path[..slash.value], cs);
      var parent := DetachChild(At(root, a.value), DecodeInPlace(path[slash.value + 1..]));
      if parent.None? { return false; }
      root := PutAt(root, a.value, parent.value);
      return true;
    }

    method Insert(path: string, v: JSON, cs: bool) returns (status: Outcome)
      modifies this
      ensures Applied(status, root) == InsertPath(old(root), path, v, cs)
    {
      var slash := LastSlash(path);
      if slash.None? { return Status(9); }
      var a := GetItemFromPointer(root, path[..slash.value], cs);
      if a.None? { return Status(9); }
      ResolveIsValid(root, path[..slash.value], cs);
      var r := InsertChild(At(root, a.value), DecodeInPlace(path[slash.value + 1..]), v, cs);
      root := PutAt(root, a.value, r.doc);
      return r.outcome;
    }

    /** apply_patch. */
    method Apply(patch: JSON, cs: bool) returns (status: Outcome)
      modifies this
      ensures Applied(status, root) == ApplyPatch(old(root), patch, cs)
    {
      var op := Read(patch, cs);
      if op.None? { return Status(2); }
      var Op(kind, path, value) := op.value;
      if kind == INVALID { return Status(3); }
      if kind !in {ADD, REMOVE, REPLACE} || (path == "" && kind == REMOVE) { return NotModelled; }
      if path != "" && (kind == REMOVE || kind == REPLACE) {
        var found := Detach(path, cs);
        if !found { return Status(13); }
        if kind == REMOVE { return OK; }
      }
      if value.None? { return Status(7); }
      if Height(value.value) > CIRCULAR_LIMIT { return Status(8); }
      if path == "" {
        root := value.value;
        return OK;
      }
      status := Insert(path, value.value, cs);
    }

    /** cJSONUtils_ApplyPatches: stops at the first patch that fails, leaving the
        document as the earlier ones made it. */
    method ApplyAll(patches: JSON, cs: bool) returns (status: Outcome)
      modifies this
      ensures Applied(status, root) == ApplyPatches(old(root), patches, cs)
    {
      if !patches.Array? { return Status(1); }
      var rest := patches.items;
      status := OK;
      while rest != []
        invariant ApplyList(root, rest, cs) == ApplyList(old(root), patches.items, cs)
        invariant status == OK
      {
        status := Apply(rest[0], cs);
        if status != OK { return; }
        rest := rest[1..];
      }
    }
  }

  // ----- generation, appending to the list

  /** The two loops over what is left of the longer array. */
  method CreateTail(patches: seq<Op>, path: string, index: nat, count: nat, added: seq<JSON>) returns (r: seq<Op>)
    ensures r == patches + (RemoveTail(path, index, count) + AddTail(path, added))
  {
    r := patches;
    var left := count;
    while left > 0
      invariant r + RemoveTail(path, index, left) == patches + RemoveTail(path, index, count)
    {
      r := r + [Op(REMOVE, path + "/" + Encode(Decimal(index)), None)];
      left := left - 1;
    }
    assert r == patches + RemoveTail(path, index, count);
    ghost var removed := r;
    var k := 0;
    while k < |added|
      invariant k <= |added|
      invariant r + AddTail(path, added[k..]) == removed + AddTail(path, added)
    {
      r := r + [Compose(ADD, path + "/" + Encode("-"), added[k])];
      k := k + 1;
    }
    assert r == removed + AddTail(path, added);
    assert patches + RemoveTail(path, index, count) + AddTail(path, added) ==
           patches + (RemoveTail(path, index, count) + AddTail(path, added));
  }

  /** create_patches: appends to the list what leads from one node to the other. */
  method CreatePatches(patches: seq<Op>, path: string, from: JSON, to: JSON, cs: bool) returns (r: seq<Op>)
    ensures r == patches + CreateOps(path, from, to, cs)
    decreases Height(from), 2
  {
    if !SameType(from, to) {
      return patches + [Compose(REPLACE, path, to)];
    }
    match from
    case Number(n) =>
      r := if n != to.n then patches + [Compose(REPLACE, path, to)] else patches;
    case Str(s) =>
      r := if s != to.s then patches + [Compose(REPLACE, path, to)] else patches;
    case Array(items) =>
      r := CreateForItems(patches, path, items, to.items, cs);
    case Object(ms) =>
      SortMembersHeight(ms, cs);
      r := CreateForMembers(patches, path, SortMembers(ms, cs), SortMembers(to.members, cs), cs);
    case _ =>
      r := patches;
  }

  method CreateForItems(patches: seq<Op>, path: string, from: seq<JSON>, to: seq<JSON>, cs: bool) returns (r: seq<Op>)
    ensures r == patches + ItemOps(path, from, to, 0, cs)
    decreases ItemsHeight(from), 1
  {
    r := patches;
    var index := 0;
    while index < |from| && index < |to|
      invariant index <= |from| && index <= |to|
      invariant r + ItemOps(path, from, to, index, cs) == patches + ItemOps(path, from, to, 0, cs)
    {
      ItemHeight(from, index);
      Regroup(r, CreateOps(path + "/" + Decimal(index), from[index], to[index], cs),
        ItemOps(path, from, to, index + 1, cs));
      r := CreatePatches(r, path + "/" + Decimal(index), from[index], to[index], cs);
      index := index + 1;
    }
    r := CreateTail(r, path, index, |from| - index, to[index..]);
  }

  /** The walk over both sorted lists. */
  method CreateForMembers(patches: seq<Op>, path: string, from: seq<Member>, to: seq<Member>, cs: bool)
    returns (r: seq<Op>)
    ensures r == patches + MemberOps(path, from, to, cs)
    decreases MembersHeight(from), 1
  {
    r := patches;
    var fs, ts := from, to;
    while fs != [] || ts != []
      invariant MembersHeight(fs) <= MembersHeight(from)
      invariant r + MemberOps(path, fs, ts, cs) == patches + MemberOps(path, from, to, cs)
      decreases |fs| + |ts|
    {
      var diff := if fs == [] then 1 else if ts == [] then -1 else CompareStrings(fs[0].key, ts[0].key, cs);
      ghost var before, all := r, MemberOps(path, fs, ts, cs);
      if diff == 0 {
        MemberHeight(fs, 0);
        ghost var ops := CreateOps(path + "/" + Encode(fs[0].key), fs[0].value, ts[0].value, cs);
        r := CreatePatches(r, path + "/" + Encode(fs[0].key), fs[0].value, ts[0].value, cs);
        Regroup(before, ops, MemberOps(path, fs[1..], ts[1..], cs));
        fs, ts := fs[1..], ts[1..];
      } else if diff < 0 {
        var op := Op(REMOVE, path + "/" + Encode(fs[0].key), None);
        r := r + [op];
        Regroup(before, [op], MemberOps(path, fs[1..], ts, cs));
        fs := fs[1..];
      } else {
        var op := Compose(ADD, path + "/" + Encode(ts[0].key), ts[0].value);
        r := r + [op];
        Regroup(before, [op], MemberOps(path, fs, ts[1..], cs));
        ts := ts[1..];
      }
      assert r + MemberOps(path, fs, ts, cs) == before + all;
    }
  }
}
