/** JSON Patch (RFC 6902): applying an operation to a document, and generating the
    operations that lead from one document to another. */
module Patch {
  import opened Json
  import opened KeyOrder
  import opened Members
  import opened Numbers
  import opened Pointer
  import opened PointerDecode

  /** decode_patch_operation. */
  datatype Kind = ADD | REMOVE | REPLACE | MOVE | COPY | TEST | INVALID

  /** One operation. A value that is missing from the patch is None. */
  datatype Op = Op(kind: Kind, path: string, value: Option<JSON>)

  /** The status an application returns; 0 is success. Moves, copies, tests and the
      removal of the root are outside this model. */
  datatype Outcome = Status(code: nat) | NotModelled

  datatype Applied = Applied(outcome: Outcome, doc: JSON)

  const OK := Status(0)

  /** CJSON_CIRCULAR_LIMIT: duplication gives up on deeper trees. */
  const CIRCULAR_LIMIT := 10000

  // ----- changing the node at an address

  function PutAt(j: JSON, a: Address, x: JSON): JSON
    requires Valid(j, a)
  {
    if a == [] then x
    else
      match j
      case Array(items) => Array(items[a[0] := PutAt(items[a[0]], a[1..], x)])
      case Object(ms) => Object(ms[a[0] := Member(ms[a[0]].key, PutAt(ms[a[0]].value, a[1..], x))])
  }

  /** strrchr(text, '/'). */
  function LastSlash(p: string): (r: Option<nat>)
    ensures r.Some? ==> r.value < |p| && p[r.value] == '/'
  {
    if p == [] then None
    else if p[|p| - 1] == '/' then Some(|p| - 1)
    else LastSlash(p[..|p| - 1])
  }

  // ----- applying

  /** The children of a container once the named child is gone. Objects are searched
      without regard to case in both modes. */
  function DetachChild(parent: JSON, child: string): Option<JSON> {
    match parent
    case Array(items) =>
      (match DecodeIndex(child)
       case None => None
       case Some(i) => if i < |items| then Some(Array(RemoveAt(items, i))) else None)
    case Object(ms) =>
      var i := FindKey(ms, child, false);
      if i < |ms| then Some(Object(RemoveAt(ms, i))) else None
    case _ => None
  }

  /** detach_path: the document without the node the path names, or None. */
  function DetachPath(doc: JSON, path: string, cs: bool): Option<JSON> {
    match LastSlash(path)
    case None => None
    case Some(k) => DetachBeneath(doc, path[..k], path[k + 1..], cs)
  }

  function DetachBeneath(doc: JSON, parent: string, token: string, cs: bool): Option<JSON> {
    match Resolve(doc, parent, cs)
    case None => None
    case Some(a) =>
      ResolveIsValid(doc, parent, cs);
      DetachUnder(doc, a, DecodeInPlace(token))
  }

  function DetachUnder(doc: JSON, a: Address, child: string): Option<JSON>
    requires Valid(doc, a)
  {
    match DetachChild(At(doc, a), child)
    case None => None
    case Some(parent) => Some(PutAt(doc, a, parent))
  }

  /** The end of apply_patch: put a value under a container. */
  function InsertChild(parent: JSON, child: string, v: JSON, cs: bool): Applied {
    match parent
    case Array(items) =>
      if child == "-" then Applied(OK, Array(items + [v]))
      else
        (match DecodeIndex(child)
         case None => Applied(Status(11), parent)
         case Some(i) =>
           if i <= |items| then Applied(OK, Array(InsertAt(items, i, v))) else Applied(Status(10), parent))
    case Object(ms) => Applied(OK, Object(DeleteKey(ms, child, cs) + [Member(child, v)]))
    case _ => Applied(Status(9), parent)
  }

  function InsertPath(doc: JSON, path: string, v: JSON, cs: bool): Applied {
    match LastSlash(path)
    case None => Applied(Status(9), doc)
    case Some(k) => InsertBeneath(doc, path[..k], path[k + 1..], v, cs)
  }

  function InsertBeneath(doc: JSON, parent: string, token: string, v: JSON, cs: bool): Applied {
    match Resolve(doc, parent, cs)
    case None => Applied(Status(9), doc)
    case Some(a) =>
      ResolveIsValid(doc, parent, cs);
      InsertUnder(doc, a, DecodeInPlace(token), v, cs)
  }

  function InsertUnder(doc: JSON, a: Address, child: string, v: JSON, cs: bool): Applied
    requires Valid(doc, a)
  {
    var r := InsertChild(At(doc, a), child, v, cs);
    Applied(r.outcome, PutAt(doc, a, r.doc))
  }

  function AddValue(doc: JSON, op: Op, cs: bool): Applied {
    match op.value
    case None => Applied(Status(7), doc)
    case Some(v) =>
      if Height(v) > CIRCULAR_LIMIT then Applied(Status(8), doc)
      else if op.path == "" then Applied(OK, v)
      else InsertPath(doc, op.path, v, cs)
  }

  /** apply_patch, once the operation has been read. A replacement detaches first and
      leaves the document changed even when the value turns out to be missing. */
  function ApplyOp(doc: JSON, op: Op, cs: bool): Applied {
    match op.kind
    case INVALID => Applied(Status(3), doc)
    case ADD => AddValue(doc, op, cs)
    case REMOVE =>
      if op.path == "" then Applied(NotModelled, doc)
      else
        (match DetachPath(doc, op.path, cs)
         case None => Applied(Status(13), doc)
         case Some(doc') => Applied(OK, doc'))
    case REPLACE =>
      if op.path == "" then AddValue(doc, op, cs)
      else
        (match DetachPath(doc, op.path, cs)
         case None => Applied(Status(13), doc)
         case Some(doc') => AddValue(doc', op, cs))
    case _ => Applied(NotModelled, doc)
  }

  /** Operations in order, stopping at the first that fails. */
  function ApplyOps(doc: JSON, ops: seq<Op>, cs: bool): Applied
    decreases ops
  {
    if ops == [] then Applied(OK, doc)
    else
      var r := ApplyOp(doc, ops[0], cs);
      if r.outcome == OK then ApplyOps(r.doc, ops[1..], cs) else r
  }

  // ----- generating

  /** compose_patch keeps a value only when it can be duplicated. */
  function Compose(kind: Kind, path: string, v: JSON): Op {
    Op(kind, path, if Height(v) <= CIRCULAR_LIMIT then Some(v) else None)
  }

  predicate SameType(a: JSON, b: JSON) {
    match a
    case Null => b.Null?
    case False => b.False?
    case True => b.True?
    case Number(_) => b.Number?
    case Str(_) => b.Str?
    case Array(_) => b.Array?
    case Object(_) => b.Object?
  }

  /** create_patches: what it appends to the list of patches. */
  function CreateOps(path: string, from: JSON, to: JSON, cs: bool): seq<Op>
    decreases Height(from), 1, 0
  {
    if !SameType(from, to) then [Compose(REPLACE, path, to)]
    else
      match from
      case Number(n) => if n != to.n then [Compose(REPLACE, path, to)] else []
      case Str(s) => if s != to.s then [Compose(REPLACE, path, to)] else []
      case Array(items) => ItemOps(path, items, to.items, 0, cs)
      case Object(ms) =>
        SortMembersHeight(ms, cs);
        MemberOps(path, SortMembers(ms, cs), SortMembers(to.members, cs), cs)
      case _ => []
  }

  function ItemOps(path: string, from: seq<JSON>, to: seq<JSON>, k: nat, cs: bool): seq<Op>
    requires k <= |from| && k <= |to|
    decreases ItemsHeight(from), 0, |from| - k
  {
    if k < |from| && k < |to| then
      ItemHeight(from, k);
      CreateOps(path + "/" + Decimal(k), from[k], to[k], cs) + ItemOps(path, from, to, k + 1, cs)
    else RemoveTail(path, k, |from| - k) + AddTail(path, to[k..])
  }

  /** The leftover items of the source all go at the same index. */
  function RemoveTail(path: string, index: nat, count: nat): seq<Op> {
    if count == 0 then []
    else [Op(REMOVE, path + "/" + Encode(Decimal(index)), None)] + RemoveTail(path, index, count - 1)
  }

  function AddTail(path: string, to: seq<JSON>): seq<Op> {
    if to == [] then []
    else [Compose(ADD, path + "/" + Encode("-"), to[0])] + AddTail(path, to[1..])
  }

  /** The walk over two sorted member lists. */
  function MemberOps(path: string, fs: seq<Member>, ts: seq<Member>, cs: bool): seq<Op>
    decreases MembersHeight(fs), 0, |fs| + |ts|
  {
    if fs == [] && ts == [] then []
    else
      var diff := if fs == [] then 1 else if ts == [] then -1 else CompareStrings(fs[0].key, ts[0].key, cs);
      if diff == 0 then
        CreateOps(path + "/" + Encode(fs[0].key), fs[0].value, ts[0].value, cs) + MemberOps(path, fs[1..], ts[1..], cs)
      else if diff < 0 then
        [Op(REMOVE, path + "/" + Encode(fs[0].key), None)] + MemberOps(path, fs[1..], ts, cs)
      else
        [Compose(ADD, path + "/" + Encode(ts[0].key), ts[0].value)] + MemberOps(path, fs, ts[1..], cs)
  }
}
