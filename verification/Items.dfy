/** The nodes of a cJSON tree and their sibling lists. */
module Items {
  /** What a node holds besides its links. */
  datatype Content = IsNull | IsFalse | IsTrue | IsNumber(n: int) | IsString(s: string) | IsArray | IsObject

  /** struct cJSON. Keys and contents of a node do not change here; links do. */
  class Item {
    const key: string
    const content: Content
    var next: Item?
    var prev: Item?
    var child: Item?

    /** cJSON_New_Item, filled in. */
    constructor (key: string, content: Content)
      ensures this.key == key && this.content == content
      ensures next == null && prev == null && child == null
    {
      this.key, this.content := key, content;
      next, prev, child := null, null, null;
    }
  }

  function First(ns: seq<Item>): Item? { if ns == [] then null else ns[0] }

  ghost predicate NoRepeats(ns: seq<Item>) {
    forall i, j :: 0 <= i < j < |ns| ==> ns[i] != ns[j]
  }

  /** `next` runs through the nodes in order and ends in NULL. */
  ghost predicate Forward(ns: seq<Item>)
    reads ns
  {
    forall i {:trigger ns[i].next} :: 0 <= i < |ns| ==> ns[i].next == if i + 1 < |ns| then ns[i + 1] else null
  }

  /** `prev` leads back, for every node but the first. */
  ghost predicate Backward(ns: seq<Item>)
    reads ns
  {
    forall i {:trigger ns[i].prev} :: 1 <= i < |ns| ==> ns[i].prev == ns[i - 1]
  }

  /** A sibling list, with nothing said about the `prev` of its head. */
  ghost predicate Chain(ns: seq<Item>)
    reads ns
  {
    NoRepeats(ns) && Forward(ns) && Backward(ns)
  }

  /** The circular invariant: the head's `prev` is the tail. */
  ghost predicate Circular(ns: seq<Item>)
    reads ns
  {
    Chain(ns) && (ns != [] ==> ns[0].prev == ns[|ns| - 1])
  }
}
