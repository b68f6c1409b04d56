/** JSON documents as cJSON holds them, and what a document means. */
module Json {
  // Text is a `string`: one `char` stands for one byte of the C text. A `JSON` value lists the
  // children of a node in the order of their `next` links. `Sem` forgets the order of object
  // members and is the reference against which comparison, JSON Patch and JSON Merge Patch
  // are judged.

  datatype Option<+T> = None | Some(value: T)

  datatype JSON =
    | Null
    | False
    | True
    | Number(n: int)
    | Str(s: string)
    | Array(items: seq<JSON>)
    | Object(members: seq<Member>)

  datatype Member = Member(key: string, value: JSON)

  /** The meaning of a document: members of an object are unordered. */
  datatype Val =
    | VNull
    | VFalse
    | VTrue
    | VNumber(n: int)
    | VStr(s: string)
    | VArray(items: seq<Val>)
    | VObject(members: map<string, Val>)

  function Sem(j: JSON): Val
    decreases j, 1
  {
    match j
    case Null => VNull
    case False => VFalse
    case True => VTrue
    case Number(n) => VNumber(n)
    case Str(s) => VStr(s)
    case Array(items) => VArray(SemItems(items))
    case Object(members) => VObject(SemMembers(members))
  }

  function SemItems(items: seq<JSON>): (r: seq<Val>)
    ensures |r| == |items|
    decreases items, 0
  {
    if items == [] then [] else [Sem(items[0])] + SemItems(items[1..])
  }

  /** The first member with a key wins, as in a lookup. */
  function SemMembers(members: seq<Member>): map<string, Val>
    decreases members, 0
  {
    if members == [] then map[]
    else SemMembers(members[1..])[members[0].key := Sem(members[0].value)]
  }

  lemma {:induction false} SemItemsAt(items: seq<JSON>, i: nat)
    requires i < |items|
    ensures SemItems(items)[i] == Sem(items[i])
  {
    if i > 0 { SemItemsAt(items[1..], i - 1); }
  }

  function Keys(ms: seq<Member>): set<string> {
    set m <- ms :: m.key
  }

  ghost predicate Distinct(ms: seq<Member>) {
    forall i, j :: 0 <= i < j < |ms| ==> ms[i].key != ms[j].key
  }

  lemma {:induction false} SemMembersKeys(ms: seq<Member>)
    ensures SemMembers(ms).Keys == Keys(ms)
  {
    if ms != [] {
      SemMembersKeys(ms[1..]);
      assert Keys(ms) == Keys(ms[1..]) + {ms[0].key} by { assert ms == [ms[0]] + ms[1..]; }
    }
  }

  lemma {:induction false} SemMembersAt(ms: seq<Member>, i: nat)
    requires i < |ms| && Distinct(ms)
    ensures ms[i].key in SemMembers(ms) && SemMembers(ms)[ms[i].key] == Sem(ms[i].value)
  {
    if i > 0 { SemMembersAt(ms[1..], i - 1); }
  }

  /** Two member lists with distinct keys mean the same map when they pair the same
      keys with values of the same meaning. */
  lemma {:induction false} SemMembersIs(ms: seq<Member>, m: map<string, Val>)
    requires Distinct(ms)
    requires Keys(ms) == m.Keys
    requires forall i :: 0 <= i < |ms| ==> m[ms[i].key] == Sem(ms[i].value)
    ensures SemMembers(ms) == m
  {
    SemMembersKeys(ms);
    forall k | k in m.Keys
      ensures SemMembers(ms)[k] == m[k]
    {
      assert k in Keys(ms);
      var i :| 0 <= i < |ms| && ms[i].key == k;
      SemMembersAt(ms, i);
    }
  }

  /** Edges on the longest path from the node down to a leaf. */
  function Height(j: JSON): nat
    decreases j, 1
  {
    match j
    case Array(items) => ItemsHeight(items)
    case Object(members) => MembersHeight(members)
    case _ => 0
  }

  function Max(a: nat, b: nat): nat { if a < b then b else a }

  function ItemsHeight(items: seq<JSON>): nat
    decreases items, 0
  {
    if items == [] then 0 else Max(1 + Height(items[0]), ItemsHeight(items[1..]))
  }

  function MembersHeight(members: seq<Member>): nat
    decreases members, 0
  {
    if members == [] then 0 else Max(1 + Height(members[0].value), MembersHeight(members[1..]))
  }

  lemma {:induction false} ItemHeight(items: seq<JSON>, i: nat)
    requires i < |items|
    ensures Height(items[i]) < ItemsHeight(items)
  {
    if i > 0 { ItemHeight(items[1..], i - 1); }
  }

  lemma {:induction false} MemberHeight(members: seq<Member>, i: nat)
    requires i < |members|
    ensures Height(members[i].value) < MembersHeight(members)
  {
    if i > 0 { MemberHeight(members[1..], i - 1); }
  }

  /** Every key of j lies in keys, keys are distinct within an object, and arrays are
      short enough for a 64-bit index. */
  ghost predicate Good(j: JSON, keys: iset<string>) {
    match j
    case Array(items) =>
      |items| <= INDEX_LIMIT && forall i :: 0 <= i < |items| ==> Good(items[i], keys)
    case Object(members) =>
      Distinct(members) &&
      forall i :: 0 <= i < |members| ==> members[i].key in keys && Good(members[i].value, keys)
    case _ => true
  }

  /** size_t is 64 bits wide on the target. */
  const INDEX_LIMIT: nat := 0x1_0000_0000_0000_0000

  lemma {:induction false} Regroup<T>(a: seq<T>, b: seq<T>, c: seq<T>)
    ensures a + b + c == a + (b + c)
  {
  }
}
