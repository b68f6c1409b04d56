/** The parser as it runs: one buffer whose offset and depth every parse function moves, and
    the nodes it links. Each method builds a fresh tree with circular sibling lists that stands
    for what the function of the same name in Parser says. */
module Parsing {
  import opened Items
  import opened Json
  import opened Numbers
  import opened Shapes
  import opened StringLiteral
  import opened Text
  import Parser

  /** What a loop returns that has already collected some elements. */
  function Prepend<T>(done: seq<T>, r: Parsed<seq<T>>): Parsed<seq<T>> {
    match r
    case Failed(e) => Failed(e)
    case Done(rest, e) => Done(done + rest, e)
  }

  /** The end of a loop over elements, which has to come to the closing bracket. */
  function Closed<T>(c: string, at: nat, closer: char, done: seq<T>): Parsed<seq<T>> {
    if at < |c| && c[at] == closer then Done(done, at + 1) else Failed(at)
  }

  /** What a node without children stands for. */
  function LeafTree(content: Content): JSON {
    match content
    case IsNull => Null
    case IsFalse => False
    case IsTrue => True
    case IsNumber(n) => Number(n)
    case IsString(s) => Str(s)
    case IsArray => Array([])
    case IsObject => Object([])
  }

  ghost function NodesIn(t: Option<Shape>): set<Item> { if t.Some? then Nodes(t.value) else {} }

  /** A finished tree with this key at its root, linked to nothing else, that stands for v. */
  ghost predicate Stands(item: Item?, t: Option<Shape>, key: string, v: JSON)
    reads NodesIn(t)
  {
    t.Some? && item == t.value.node && item.key == key && TreeOf(t.value) == v &&
    Built(t.value) && Typed(t.value) && item.next == null && item.prev == null
  }

  /** A list of finished trees from head to tail; only the head's `prev` is still to be set. */
  ghost predicate Listed(head: Item?, tail: Item?, ts: seq<Shape>)
    reads NodesOf(ts)
  {
    Strung(ts) && AllTyped(ts) && head == FirstRoot(ts) && tail == LastRoot(ts)
  }

  /** What the opening bracket of a container leads to. */
  datatype Opening = Refused | Empty | Filled

  class ParseBuffer {
    const content: string
    const strtod: string -> int
    var offset: nat
    var depth: nat

    constructor (content: string, strtod: string -> int)
      ensures this.content == content && this.strtod == strtod && offset == 0 && depth == 0
    {
      this.content, this.strtod, offset, depth := content, strtod, 0, 0;
    }

    predicate Accessible(index: nat)
      reads this
    {
      offset + index < |content|
    }

    method SkipWhitespace()
      requires offset <= |content|
      modifies this`offset
      ensures offset == Parser.SkipSpace(content, old(offset))
    {
      if !Accessible(0) { return; }
      while Accessible(0) && content[offset] as int <= 32
        invariant old(offset) <= offset <= |content|
        invariant Parser.SpaceEnd(content, offset) == Parser.SpaceEnd(content, old(offset))
        decreases |content| - offset
      {
        offset := offset + 1;
      }
      if offset == |content| { offset := offset - 1; }
    }

    method ParseNumber() returns (r: Option<int>)
      requires offset <= |content|
      modifies this`offset
      ensures match Parser.ParseNumber(content, old(offset), strtod)
              case Done(v, e) => r.Some? && v == Number(r.value) && offset == e
              case Failed(e) => r == None && offset == e
    {
      var token := "";
      while |token| < Parser.NUMBER_ROOM && Accessible(|token|) && Parser.IsNumberChar(content[offset + |token|])
        invariant offset == old(offset) && |token| <= Parser.NUMBER_ROOM && offset + |token| <= |content|
        invariant token + Parser.NumberToken(content, offset + |token|, Parser.NUMBER_ROOM - |token|) ==
                  Parser.NumberToken(content, offset, Parser.NUMBER_ROOM)
      {
        Regroup(token, [content[offset + |token|]],
          Parser.NumberToken(content, offset + |token| + 1, Parser.NUMBER_ROOM - |token| - 1));
        token := token + [content[offset + |token|]];
      }
      assert Parser.NumberToken(content, offset + |token|, Parser.NUMBER_ROOM - |token|) == [];
      assert token == Parser.NumberToken(content, offset, Parser.NUMBER_ROOM);
      var end := NumeralEnd(token);
      if end == 0 { return None; }
      var numeral := token[..end];
      r := Some(if IsWhole(numeral) then Saturate(WholeValue(numeral)) else strtod(numeral));
      offset := offset + end;
    }

    method ParseString() returns (r: Option<string>)
      requires offset < |content|
      modifies this`offset
      ensures match StringLiteral.ParseString(content, old(offset))
              case Done(s, e) => r == Some(s) && offset == e
              case Failed(e) => r == None && offset == e
    {
      var out, end := ParseStringLoop(content, offset);
      offset := end;
      r := if out == null then None else Some(CString(out[..]));
    }

    /** A node without children. */
    method Leaf(key: string, content: Content) returns (item: Item, ghost t: Option<Shape>)
      ensures Stands(item, t, key, LeafTree(content)) && fresh(NodesIn(t)) && allocated(NodesIn(t))
    {
      item := new Item(key, content);
      t := Some(Shape(item, []));
      assert Roots([]) == [] && NodesOf([]) == {} && TreesOf([]) == [] && MembersOf([]) == [];
    }

    /** parse_value, into a node with this key. */
    method ParseValue(key: string) returns (item: Item?, ghost t: Option<Shape>)
      requires offset <= |content|
      modifies this
      ensures match Parser.ParseValue(content, old(offset), old(depth), strtod)
              case Done(v, e) => Stands(item, t, key, v) && offset == e && depth == old(depth)
              case Failed(e) => item == null && offset == e
      ensures fresh(NodesIn(t)) && allocated(NodesIn(t))
      decreases |content| - offset, 5
    {
      item, t := null, None;
      if At(content, offset, "null") {
        offset := offset + 4;
        item, t := Leaf(key, IsNull);
      } else if At(content, offset, "false") {
        offset := offset + 5;
        item, t := Leaf(key, IsFalse);
      } else if At(content, offset, "true") {
        offset := offset + 4;
        item, t := Leaf(key, IsTrue);
      } else if Accessible(0) && content[offset] == '"' {
        var s := ParseString();
        if s.Some? { item, t := Leaf(key, IsString(s.value)); }
      } else if Accessible(0) && (content[offset] == '-' || IsDigit(content[offset])) {
        var n := ParseNumber();
        if n.Some? { item, t := Leaf(key, IsNumber(n.value)); }
      } else if Accessible(0) && content[offset] == '[' {
        item, t := ParseArray(key);
      } else if Accessible(0) && content[offset] == '{' {
        item, t := ParseObject(key);
      }
    }

    /** The beginning of parse_array and parse_object, up to the first element. */
    method Open(closer: char) returns (r: Opening)
      requires offset < |content|
      modifies this
      ensures var p := Parser.SkipSpace(content, old(offset) + 1);
              match r
              case Refused => if old(depth) >= Parser.NESTING_LIMIT then offset == old(offset)
                              else p == |content| && offset == p - 1
              case Empty =>
                  old(depth) < Parser.NESTING_LIMIT && p < |content| && content[p] == closer && offset == p + 1 &&
                            depth == old(depth)
              case Filled =>
                  old(depth) < Parser.NESTING_LIMIT && p < |content| && content[p] != closer && offset == p &&
                             depth == old(depth) + 1
    {
      if depth >= Parser.NESTING_LIMIT { return Refused; }
      depth := depth + 1;
      offset := offset + 1;
      SkipWhitespace();
      if Accessible(0) && content[offset] == closer {
        depth, offset := depth - 1, offset + 1;
        return Empty;
      }
      if !Accessible(0) {
        offset := offset - 1;
        return Refused;
      }
      return Filled;
    }

    method ParseArray(key: string) returns (item: Item?, ghost t: Option<Shape>)
      requires offset < |content|
      modifies this
      ensures match Parser.ParseArray(content, old(offset), old(depth), strtod)
              case Done(v, e) => Stands(item, t, key, v) && offset == e && depth == old(depth)
              case Failed(e) => item == null && offset == e
      ensures fresh(NodesIn(t)) && allocated(NodesIn(t))
      decreases |content| - offset, 4
    {
      var opening := Open(']');
      if opening == Refused { return null, None; }
      if opening == Empty {
        item, t := Leaf(key, IsArray);
        return;
      }
      item, t := FilledArray(key);
    }

    /** An array that is not empty, from its first element on. */
    method FilledArray(key: string) returns (item: Item?, ghost t: Option<Shape>)
      requires offset <= |content| && depth > 0
      modifies this
      ensures match Parser.ParseItems(content, old(offset), old(depth), strtod)
              case Done(v, e) => Stands(item, t, key, Array(v)) && offset == e && depth == old(depth) - 1
              case Failed(e) => item == null && offset == e
      ensures fresh(NodesIn(t)) && allocated(NodesIn(t))
      decreases |content| - offset, 10
    {
      var head, tail;
      ghost var ts;
      head, tail, ts := ItemsLoop();
      if head == null { return null, None; }
      depth := depth - 1;
      NodesOfKid(ts, 0);
      item, t := Adopt(key, IsArray, head, tail, ts);
    }

    /** The end of parse_array and parse_object: the list is closed and hung below its node. */
    method Adopt(key: string, content: Content, head: Item, tail: Item?, ghost ts: seq<Shape>)
      returns (item: Item, ghost t: Option<Shape>)
      requires ts != [] && Listed(head, tail, ts) && allocated(NodesOf(ts)) &&
               (content == IsArray || content == IsObject)
      modifies head
      ensures Stands(item, t, key, if content == IsArray then Array(TreesOf(ts)) else Object(MembersOf(ts)))
      ensures fresh(NodesIn(t) - NodesOf(ts)) && allocated(NodesIn(t))
    {
      Close(head, tail, ts);
      item := new Item(key, content);
      item.child := head;
      t := Some(Shape(item, ts));
    }

    /** The do loop of parse_array and its closing bracket. */
    method ItemsLoop() returns (head: Item?, tail: Item?, ghost ts: seq<Shape>)
      requires offset <= |content|
      modifies this
      ensures match Parser.ParseItems(content, old(offset), old(depth), strtod)
              case Done(v, e) =>
                  ts != [] && Listed(head, tail, ts) && TreesOf(ts) == v && offset == e && depth == old(depth)
              case Failed(e) => head == null && offset == e
      ensures fresh(NodesOf(ts)) && allocated(NodesOf(ts))
      decreases |content| - offset, 9
    {
      ghost var d, whole := depth, Parser.ParseItems(content, offset, depth, strtod);
      head, tail, ts := null, null, [];
      PrependNothing(whole);
      var more := true;
      while more
        invariant old(offset) <= offset <= |content| && depth == d
        invariant Listed(head, tail, ts) && (more || ts != [])
        invariant fresh(NodesOf(ts)) && allocated(NodesOf(ts))
        invariant whole == if more then Prepend(TreesOf(ts), Parser.ParseItems(content, offset, d, strtod))
                           else Closed(content, offset, ']', TreesOf(ts))
        decreases |content| - offset
      {
        var ok;
        ok, more, head, tail, ts := ItemsTurn(head, tail, ts, whole);
        if !ok { return null, null, []; }
      }
      if !Accessible(0) || content[offset] != ']' { return null, null, []; }
      offset := offset + 1;
    }

    /** One turn of that loop and its condition, a comma. */
    method ItemsTurn(first: Item?, last: Item?, ghost before: seq<Shape>, ghost whole: Parsed<seq<JSON>>)
      returns (ok: bool, more: bool, head: Item?, tail: Item?, ghost ts: seq<Shape>)
      requires offset <= |content| && Listed(first, last, before) && allocated(NodesOf(before))
      requires whole == Prepend(TreesOf(before), Parser.ParseItems(content, offset, depth, strtod))
      modifies this, NodesOf(before)
      ensures !ok ==> whole == Failed(offset)
      ensures ok ==> old(offset) < offset <= |content| && depth == old(depth)
      ensures ok ==> whole == if more then Prepend(TreesOf(ts), Parser.ParseItems(content, offset, depth, strtod))
                              else Closed(content, offset, ']', TreesOf(ts))
      ensures ok ==>
                ts != [] && Listed(head, tail, ts) && fresh(NodesOf(ts) - NodesOf(before)) && allocated(NodesOf(ts))
      decreases |content| - offset, 8
    {
      ghost var at, d, trees, v, e := offset, depth, TreesOf(before), Null, 0;
      ok, head, tail, ts, v, e := ReadItem(first, last, before);
      more := ok && Accessible(0) && content[offset] == ',';
      if !ok {
        ItemsFail(trees, content, at, e, d, strtod);
      } else if more {
        ghost var q := offset;
        offset := offset + 1;
        ItemsMore(trees, content, at, e, q, offset, v, d, strtod);
      } else {
        ItemsEnd(trees, content, at, e, offset, v, d, strtod);
      }
    }

    /** One element with white space around it. */
    method ReadItem(first: Item?, last: Item?, ghost before: seq<Shape>)
      returns (ok: bool, head: Item?, tail: Item?, ghost ts: seq<Shape>, ghost v: JSON, ghost e: nat)
      requires offset <= |content| && Listed(first, last, before) && allocated(NodesOf(before))
      modifies this, NodesOf(before)
      ensures Parser.ParseValue(content, Parser.SkipSpace(content, old(offset)), old(depth), strtod) ==
              if ok then Done(v, e) else Failed(e)
      ensures e <= |content| && offset == if ok then Parser.SkipSpace(content, e) else e
      ensures ok ==> TreesOf(ts) == TreesOf(before) + [v] && depth == old(depth)
      ensures ok ==>
                ts != [] && Listed(head, tail, ts) && fresh(NodesOf(ts) - NodesOf(before)) && allocated(NodesOf(ts))
      decreases |content| - offset, 7
    {
      SkipWhitespace();
      ok, head, tail, ts, v, e := HangValue("", first, last, before);
    }

    /** A value and the white space behind it, hung behind the elements before it. */
    method HangValue(key: string, first: Item?, last: Item?, ghost before: seq<Shape>)
      returns (ok: bool, head: Item?, tail: Item?, ghost ts: seq<Shape>, ghost v: JSON, ghost e: nat)
      requires offset <= |content| && Listed(first, last, before) && allocated(NodesOf(before))
      modifies this, NodesOf(before)
      ensures Parser.ParseValue(content, old(offset), old(depth), strtod) == if ok then Done(v, e) else Failed(e)
      ensures e <= |content| && offset == if ok then Parser.SkipSpace(content, e) else e
      ensures ok ==> TreesOf(ts) == TreesOf(before) + [v] && MembersOf(ts) == MembersOf(before) + [Member(key, v)]
      ensures ok ==> depth == old(depth)
      ensures ok ==>
                ts != [] && Listed(head, tail, ts) && fresh(NodesOf(ts) - NodesOf(before)) && allocated(NodesOf(ts))
      decreases |content| - offset, 6
    {
      ok, head, tail, ts, v := false, first, last, before, Null;
      var item;
      ghost var t;
      item, t := ParseValue(key);
      e := offset;
      if item == null { return; }
      SkipWhitespace();
      ok, v := true, TreeOf(t.value);
      head, tail, ts := HangNew(first, last, item, before, t.value);
    }

    /** Links a new node behind the list, as its head if there is none. */
    method HangNew(first: Item?, last: Item?, item: Item, ghost before: seq<Shape>, ghost t: Shape)
      returns (head: Item?, tail: Item, ghost ts: seq<Shape>)
      requires Listed(first, last, before) && item == t.node && Built(t) && Typed(t) && item.next == null &&
               NodesOf(before) !! Nodes(t)
      modifies NodesOf(before), item
      ensures ts == before + [t] && Listed(head, tail, ts) && NodesOf(ts) == NodesOf(before) + Nodes(t)
      ensures TreesOf(ts) == TreesOf(before) + [TreeOf(t)]
      ensures MembersOf(ts) == MembersOf(before) + [Member(item.key, TreeOf(t))]
    {
      if before != [] { NodesOfKid(before, |before| - 1); }
      Hang(last, item, before, t);
      TreesMore(before, t);
      TypedMore(before, t);
      head, tail, ts := if first == null then item else first, item, before + [t];
    }

    method ParseObject(key: string) returns (item: Item?, ghost t: Option<Shape>)
      requires offset < |content|
      modifies this
      ensures match Parser.ParseObject(content, old(offset), old(depth), strtod)
              case Done(v, e) => Stands(item, t, key, v) && offset == e && depth == old(depth)
              case Failed(e) => item == null && offset == e
      ensures fresh(NodesIn(t)) && allocated(NodesIn(t))
      decreases |content| - offset, 4
    {
      ghost var at, d := offset, depth;
      var opening := Open('}');
      if opening == Refused { return null, None; }
      if opening == Empty {
        item, t := Leaf(key, IsObject);
        return;
      }
      offset := offset - 1;
      ObjectInside(content, at, offset, d, depth, strtod);
      item, t := FilledObject(key);
    }

    /** An object that is not empty, from the char before its first name on. */
    method FilledObject(key: string) returns (item: Item?, ghost t: Option<Shape>)
      requires offset < |content| && depth > 0
      modifies this
      ensures match Parser.ParseMembers(content, old(offset), old(depth), strtod)
              case Done(v, e) => Stands(item, t, key, Object(v)) && offset == e && depth == old(depth) - 1
              case Failed(e) => item == null && offset == e
      ensures fresh(NodesIn(t)) && allocated(NodesIn(t))
      decreases |content| - offset, 3
    {
      var head, tail;
      ghost var ts;
      head, tail, ts := MembersLoop();
      if head == null { return null, None; }
      depth := depth - 1;
      NodesOfKid(ts, 0);
      item, t := Adopt(key, IsObject, head, tail, ts);
    }

    /** The do loop of parse_object and its closing brace. */
    method MembersLoop() returns (head: Item?, tail: Item?, ghost ts: seq<Shape>)
      requires offset < |content|
      modifies this
      ensures match Parser.ParseMembers(content, old(offset), old(depth), strtod)
              case Done(v, e) =>
                  ts != [] && Listed(head, tail, ts) && MembersOf(ts) == v && offset == e && depth == old(depth)
              case Failed(e) => head == null && offset == e
      ensures fresh(NodesOf(ts)) && allocated(NodesOf(ts))
      decreases |content| - offset, 2
    {
      ghost var d, whole := depth, Parser.ParseMembers(content, offset, depth, strtod);
      head, tail, ts := null, null, [];
      PrependNothing(whole);
      var more := true;
      while more
        invariant old(offset) <= offset <= |content| && (more ==> offset < |content|) && depth == d
        invariant Listed(head, tail, ts) && (more || ts != [])
        invariant fresh(NodesOf(ts)) && allocated(NodesOf(ts))
        invariant whole == if more then Prepend(MembersOf(ts), Parser.ParseMembers(content, offset, d, strtod))
                           else Closed(content, offset, '}', MembersOf(ts))
        decreases |content| - offset
      {
        var ok;
        ok, more, head, tail, ts := MembersTurn(head, tail, ts, whole);
        if !ok { return null, null, []; }
      }
      if !Accessible(0) || content[offset] != '}' { return null, null, []; }
      offset := offset + 1;
    }

    /** One turn of that loop and its condition, a comma. */
    method MembersTurn(first: Item?, last: Item?, ghost before: seq<Shape>, ghost whole: Parsed<seq<Member>>)
      returns (ok: bool, more: bool, head: Item?, tail: Item?, ghost ts: seq<Shape>)
      requires offset < |content| && Listed(first, last, before) && allocated(NodesOf(before))
      requires whole == Prepend(MembersOf(before), Parser.ParseMembers(content, offset, depth, strtod))
      modifies this, NodesOf(before)
      ensures !ok ==> whole == Failed(offset)
      ensures ok ==> old(offset) < offset <= |content| && depth == old(depth) && (more ==> offset < |content|)
      ensures ok ==> whole == if more then Prepend(MembersOf(ts), Parser.ParseMembers(content, offset, depth, strtod))
                              else Closed(content, offset, '}', MembersOf(ts))
      ensures ok ==>
                ts != [] && Listed(head, tail, ts) && fresh(NodesOf(ts) - NodesOf(before)) && allocated(NodesOf(ts))
      decreases |content| - offset, 1
    {
      ghost var at, d, members, m := offset, depth, MembersOf(before), Member("", Null);
      ok, head, tail, ts, m := ReadMember(first, last, before);
      more := ok && Accessible(0) && content[offset] == ',';
      if !ok {
        MembersFail(members, content, at, offset, d, strtod);
      } else if more {
        MembersMore(members, content, at, offset, m, d, strtod);
      } else {
        MembersEnd(members, content, at, offset, m, d, strtod);
      }
    }

    /** The body of that loop: a name, a colon, a value and the white space around them. */
    method ReadMember(first: Item?, last: Item?, ghost before: seq<Shape>)
      returns (ok: bool, head: Item?, tail: Item?, ghost ts: seq<Shape>, ghost m: Member)
      requires offset < |content| && Listed(first, last, before) && allocated(NodesOf(before))
      modifies this, NodesOf(before)
      ensures match Parser.ReadMember(content, old(offset), old(depth), strtod)
              case Done(x, e) =>
                  ok && x == m && MembersOf(ts) == MembersOf(before) + [m] && offset == e && depth == old(depth)
              case Failed(e) => !ok && offset == e
      ensures ok ==>
                ts != [] && Listed(head, tail, ts) && fresh(NodesOf(ts) - NodesOf(before)) && allocated(NodesOf(ts))
      decreases |content| - offset, 0
    {
      ok, head, tail, ts, m := false, first, last, before, Member("", Null);
      var key := ReadName();
      if key.None? { return; }
      ghost var v, e;
      ok, head, tail, ts, v, e := HangValue(key.value, first, last, before);
      m := Member(key.value, v);
    }

    /** The name and the colon, up to the value. */
    method ReadName() returns (key: Option<string>)
      requires offset < |content|
      modifies this`offset
      ensures match Parser.ReadName(content, old(offset))
              case Done(s, e) => key == Some(s) && offset == e
              case Failed(e) => key == None && offset == e
    {
      if !Accessible(1) { return None; }
      offset := offset + 1;
      SkipWhitespace();
      key := ParseString();
      if key.None? { return; }
      SkipWhitespace();
      if !Accessible(0) || content[offset] != ':' { return None; }
      offset := offset + 1;
      SkipWhitespace();
    }

    /** cJSON_ParseWithLengthOpts on a fresh buffer: the document and the position reported. */
    method Parse(requireNul: bool) returns (item: Item?, position: nat, ghost t: Option<Shape>)
      requires offset == 0 && depth == 0
      modifies this
      ensures match Parser.Parse(content, requireNul, strtod)
              case Done(v, e) => Stands(item, t, "", v) && position == e
              case Failed(e) => item == null && position == e
      ensures fresh(NodesIn(t)) && allocated(NodesIn(t))
    {
      if content == [] { return null, 0, None; }
      if Accessible(4) && At(content, offset, Parser.BOM) { offset := 3; }
      SkipWhitespace();
      item, t := ParseValue("");
      if item != null && requireNul {
        SkipWhitespace();
        if !Accessible(0) || content[offset] != NUL { item := null; }
      }
      if item == null {
        position := if offset < |content| then offset else |content| - 1;
      } else {
        position := offset;
      }
    }
  }

  lemma {:induction false} PrependNothing<T>(r: Parsed<seq<T>>)
    ensures Prepend([], r) == r
  {
    if r.Done? { assert [] + r.value == r.value; }
  }

  lemma {:induction false} PrependMore<T>(done: seq<T>, x: T, rest: Parsed<seq<T>>)
    ensures Prepend(done, Prepend([x], rest)) == Prepend(done + [x], rest)
  {
    if rest.Done? { Regroup(done, [x], rest.value); }
  }

  lemma {:induction false} ItemsMore(done: seq<JSON>, c: string, at: nat, e: nat, q: nat, next: nat, item: JSON, d: nat,
      strtod: string -> int)
    requires at <= |c| && Parser.ParseValue(c, Parser.SkipSpace(c, at), d, strtod) == Done(item, e) &&
             Parser.SkipSpace(c, e) == q
    requires q < |c| && c[q] == ',' && next == q + 1
    ensures Prepend(done + [item], Parser.ParseItems(c, next, d, strtod)) ==
            Prepend(done, Parser.ParseItems(c, at, d, strtod))
  {
    PrependMore(done, item, Parser.ParseItems(c, next, d, strtod));
  }

  lemma {:induction false} ItemsEnd(done: seq<JSON>, c: string, at: nat, e: nat, q: nat, item: JSON, d: nat,
      strtod: string -> int)
    requires at <= |c| && Parser.ParseValue(c, Parser.SkipSpace(c, at), d, strtod) == Done(item, e) &&
             Parser.SkipSpace(c, e) == q
    requires q == |c| || c[q] != ','
    ensures Prepend(done, Parser.ParseItems(c, at, d, strtod)) ==
            Closed(c, q, ']', done + [item])
  {
  }

  lemma {:induction false} ItemsFail(done: seq<JSON>, c: string, at: nat, e: nat, d: nat, strtod: string -> int)
    requires at <= |c| && Parser.ParseValue(c, Parser.SkipSpace(c, at), d, strtod) == Failed(e)
    ensures Prepend(done, Parser.ParseItems(c, at, d, strtod)) == Failed(e)
  {
  }

  lemma {:induction false} ObjectInside(c: string, at: nat, before: nat, d: nat, inner: nat, strtod: string -> int)
    requires at < |c| && d < Parser.NESTING_LIMIT && inner == d + 1
    requires before + 1 == Parser.SkipSpace(c, at + 1) < |c| && c[before + 1] != '}'
    ensures Parser.ParseObject(c, at, d, strtod) ==
            match Parser.ParseMembers(c, before, inner, strtod)
            case Failed(e) => Failed(e)
            case Done(members, e) => Done(Object(members), e)
  {
  }

  lemma {:induction false} MembersMore(done: seq<Member>, c: string, at: nat, q: nat, m: Member, d: nat,
      strtod: string -> int)
    requires at < |c| && Parser.ReadMember(c, at, d, strtod) == Done(m, q) && q < |c| && c[q] == ','
    ensures Prepend(done + [m], Parser.ParseMembers(c, q, d, strtod)) ==
            Prepend(done, Parser.ParseMembers(c, at, d, strtod))
  {
    PrependMore(done, m, Parser.ParseMembers(c, q, d, strtod));
  }

  lemma {:induction false} MembersEnd(done: seq<Member>, c: string, at: nat, q: nat, m: Member, d: nat,
      strtod: string -> int)
    requires at < |c| && Parser.ReadMember(c, at, d, strtod) == Done(m, q) && (q == |c| || c[q] != ',')
    ensures Prepend(done, Parser.ParseMembers(c, at, d, strtod)) ==
            Closed(c, q, '}', done + [m])
  {
  }

  lemma {:induction false} MembersFail(done: seq<Member>, c: string, at: nat, e: nat, d: nat, strtod: string -> int)
    requires at < |c| && Parser.ReadMember(c, at, d, strtod) == Failed(e)
    ensures Prepend(done, Parser.ParseMembers(c, at, d, strtod)) == Failed(e)
  {
  }
}
