/** The heap objects of the B+ tree and the value a node denotes. */
module BPTypes {

  /** A pointer argument that may be null. */
  datatype Option<T> = None | Some(value: T)

  /** A key object: one copy of the string, shared by the leaf slot and at most one internal slot. */
  class Key {
    const key: string
    var refCount: nat

    constructor (k: string)
      ensures key == k && refCount == 0
    {
      key := k;
      refCount := 0;
    }
  }

  /** A record object, shared by all its aliases. `data` stands for the caller's pointer. */
  class Record {
    var data: int
    var dataSize: nat
    var refCount: nat

    constructor (d: int, size: nat)
      ensures data == d && dataSize == size && refCount == 0
    {
      data := d;
      dataSize := size;
      refCount := 0;
    }
  }

  /** What an untyped slot of a node's `pointers` array may hold. */
  datatype Ptr = Null | ToNode(node: Node) | ToRecord(rec: Record)

  /** A node: `order - 1` key slots and `order` pointer slots, allocated once. A leaf keeps the pointer to
      the next leaf in its last pointer slot. `level` is the node's height (leaves are at level 1). */
  class Node {
    const bkeys: array<Key?>
    const pointers: array<Ptr>
    var parent: Node?
    var isLeaf: bool
    var numKeys: nat
    ghost var level: nat

    constructor (order: nat)
      requires order >= 4
      ensures fresh(bkeys) && fresh(pointers)
      ensures Shape(order) && !isLeaf && numKeys == 0 && parent == null && level == 0 && pointers[0] == Null
    {
      bkeys := new Key?[order - 1](_ => null);
      pointers := new Ptr[order](_ => Null);
      isLeaf := false;
      numKeys := 0;
      parent := null;
      level := 0;
    }

    /** The fixed sizes of the slot arrays. */
    ghost predicate Sized(order: nat) {
      bkeys.Length == order - 1 && pointers.Length == order
    }

    ghost predicate Shape(order: nat)
      reads this
    {
      Sized(order) && numKeys <= order - 1
    }

    /** The meaning of the node: its valid key and pointer slots, the chain pointer and the parent. A key count
        beyond the array would show as a null key. */
    ghost function Val(): NodeVal
      reads this, bkeys, pointers
    {
      NodeVal(isLeaf,
              if numKeys <= bkeys.Length then bkeys[..numKeys] else [null],
              if isLeaf && numKeys <= pointers.Length then pointers[..numKeys]
              else if !isLeaf && numKeys < pointers.Length then pointers[..numKeys + 1] else [],
              if isLeaf && pointers.Length > 0 then pointers[pointers.Length - 1] else Null,
              parent, level)
    }
  }

  /** Val, read off the fields of a node whose key count fits. */
  lemma ValOf(n: Node, order: nat)
    requires n.Sized(order) && order >= 4 && (n.numKeys <= order - 1 || null !in n.Val().ks)
    ensures n.Shape(order)
    ensures n.Val() == NodeVal(n.isLeaf, n.bkeys[..n.numKeys],
                               n.pointers[..if n.isLeaf then n.numKeys else n.numKeys + 1],
                               if n.isLeaf then n.pointers[order - 1] else Null, n.parent, n.level)
    ensures |n.Val().ks| == n.numKeys
  {
  }

  lemma SizesOf(n: Node, order: nat)
    requires n.Sized(order) || n.Shape(order)
    ensures n.Sized(order) && n.bkeys.Length == order - 1 && n.pointers.Length == order
    ensures n.Shape(order) <==> n.numKeys <= order - 1
  {
  }

  datatype NodeVal = NodeVal(leaf: bool, ks: seq<Key?>, ps: seq<Ptr>, next: Ptr, parent: Node?, level: nat)

  type Heap = map<Node, NodeVal>

  /** The arrays of a set of nodes. They are fixed at allocation, so this reads no state. */
  ghost function Arrays(ns: set<Node>): set<object> {
    (set n | n in ns :: n.bkeys) + (set n | n in ns :: n.pointers)
  }

  /** Distinct nodes own distinct arrays. */
  ghost predicate Separate(ns: set<Node>) {
    forall m, n :: m in ns && n in ns && m != n ==> m.bkeys != n.bkeys && m.pointers != n.pointers
  }

  /** Every node has its slots, and no two share an array. */
  ghost predicate Allocated(ns: set<Node>, order: nat) {
    order >= 4 && Separate(ns) && forall n :: n in ns ==> n.Sized(order)
  }

  ghost function Snap(ns: set<Node>): Heap
    reads ns, Arrays(ns)
  {
    map n | n in ns :: n.Val()
  }
}
