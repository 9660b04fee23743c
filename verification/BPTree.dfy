/** The tree object and its invariant. */
module BPTree {
  import opened BPTypes
  import opened BPLevels
  import opened BPNodeInsert

  /** `lv` is the tree seen level by level, `nodes` the allocated nodes (in the tree or in a node list), `keys` the
      key objects and `recs` the record objects in use. */
  class BPlusTree {
    const order: nat
    var root: Node?
    var metaSize: int
    var dataSize: int
    var numEntries: int
    ghost var lv: seq<Level>
    ghost var nodes: set<Node>
    ghost var keys: set<Key>
    ghost var recs: seq<Record>

    constructor (order: nat)
      requires order >= 4
      ensures this.order == order && root == null && metaSize == TREE_SIZE && dataSize == 0 && numEntries == 0
      ensures lv == [[]] && nodes == {} && keys == {} && recs == []
    {
      this.order := order;
      root := null;
      metaSize, dataSize, numEntries := TREE_SIZE, 0, 0;
      lv, nodes, keys, recs := [[]], {}, {}, [];
    }

    ghost function H(): (h: Heap)
      reads this`nodes, nodes, Arrays(nodes)
    {
      Snap(nodes)
    }
  }

  /** The nodes of the tree hold only keys in use. */
  ghost predicate KeysKnown(h: Heap, keys: set<Key>) {
    forall n, i :: n in h && h[n].level > 0 && 0 <= i < |h[n].ks| ==> h[n].ks[i] != null && h[n].ks[i] in keys
  }

  ghost function MinKeys(order: nat, leaf: bool): nat
    requires order >= 4
  {
    if leaf then Cut(order - 1) else Cut(order) - 1
  }

  /** Occupancy: every node but the root is at least half full; the root is not empty. */
  ghost predicate Occupied(h: Heap, order: nat, root: Node?) {
    order >= 4 && forall n :: n in h && h[n].level > 0 ==>
      |h[n].ks| >= if n == root then 1 else MinKeys(order, h[n].leaf)
  }

  ghost function PtrsOf(l: Level): set<Ptr> {
    set e | e in l :: e.p
  }

  /** Every node that claims a level is found in that level: nothing allocated for the tree is lost. */
  ghost predicate Covered(h: Heap, lv: seq<Level>) {
    forall n :: n in h && h[n].level > 0 ==> h[n].level < |lv| && ToNode(n) in PtrsOf(lv[h[n].level])
  }

  ghost function NextInList(fl: seq<Node>, i: nat): Ptr {
    if i + 1 < |fl| then ToNode(fl[i + 1]) else Null
  }

  /** A chain of fresh nodes linked through their first pointer slot. */
  ghost predicate NodeList(h: Heap, fl: seq<Node>) {
    && (forall i :: 0 <= i < |fl| ==> fl[i] in h && h[fl[i]] == NodeVal(false, [], [NextInList(fl, i)], Null, null, 0))
    && (forall i, j :: 0 <= i < j < |fl| ==> fl[i] != fl[j])
  }

  ghost function Head(fl: seq<Node>): Node? {
    if fl == [] then null else fl[0]
  }

  /** The number of nodes a split cascading upwards from n consumes: one for each full node on the path to the root,
      and a new root if the root is full too. Levels bound the path. */
  ghost function Needed(h: Heap, order: nat, n: Node?, k: nat, top: nat): nat
    decreases top - k
  {
    if n == null then 1
    else if n !in h || |h[n].ks| + 1 != order then 0
    else if k >= top then 2
    else 1 + Needed(h, order, h[n].parent, k + 1, top)
  }

  /** bptree.c _get_node_from_list */
  method GetNodeFromList(t: BPlusTree, head: Node, ghost fl: seq<Node>, ghost level: nat) returns (rest: Node?)
    requires Allocated(t.nodes, t.order) && NodeList(t.H(), fl) && fl != [] && head == fl[0]
    modifies head.pointers, head`level
    ensures rest == Head(fl[1..])
    ensures t.H() == old(t.H())[head := NodeVal(false, [], [Null], Null, null, level)]
    ensures head.Shape(t.order) && head.numKeys == 0 && head.parent == null && !head.isLeaf && head.level == level
  {
    ghost var h0 := t.H();
    ListHead(t, fl);
    Apart(t.nodes, head);
    hide Separate, NodeList, Allocated, Snap;
    rest := if head.pointers[0].ToNode? then head.pointers[0].node else null;
    head.pointers[0] := Null;
    head.level := level;
    ValOf(head, t.order);
    assert head.pointers[..1] == [Null];
    Changed(t, h0, head, NodeVal(false, [], [Null], Null, null, level));
  }

  lemma ListHead(t: BPlusTree, fl: seq<Node>)
    requires Allocated(t.nodes, t.order) && NodeList(t.H(), fl) && fl != []
    ensures t.H().Keys == t.nodes && forall m :: m in t.nodes ==> t.H()[m] == m.Val()
    ensures fl[0] in t.nodes && fl[0].Shape(t.order) && fl[0].numKeys == 0 && fl[0].parent == null && !fl[0].isLeaf
    ensures fl[0].pointers[0] == if 1 < |fl| then ToNode(fl[1]) else Null
  {
    hide Separate;
    var n := fl[0];
    assert n.Val() == t.H()[fl[0]];
    ValOf(n, t.order);
    assert n.pointers[0] == n.Val().ps[0];
  }

  lemma Apart(ns: set<Node>, n: Node)
    requires Separate(ns) && n in ns
    ensures forall m :: m in ns && m != n ==> m.bkeys != n.bkeys && m.pointers != n.pointers
  {
  }

  /** The tree object and the keys are not among the objects the snapshot reads. */
  lemma NotRead(t: BPlusTree)
    ensures t !in Arrays(t.nodes) && t !in (set n: object | n in t.nodes)
    ensures forall q: Key :: q !in Arrays(t.nodes)
    ensures forall r: Record :: r !in Arrays(t.nodes)
  {
  }

  /** What the snapshot says, node by node, and that writing to n leaves the other nodes' arrays alone. */
  lemma SnapFacts(t: BPlusTree, n: Node)
    requires Allocated(t.nodes, t.order) && n in t.nodes
    ensures t.H().Keys == t.nodes && forall m :: m in t.nodes ==> t.H()[m] == m.Val()
    ensures forall m :: m in t.nodes && m != n ==> m.bkeys != n.bkeys && m.pointers != n.pointers
  {
  }

  lemma SnapAll(t: BPlusTree)
    ensures t.H().Keys == t.nodes && forall m :: m in t.nodes ==> t.H()[m] == m.Val()
  {
  }

  lemma SnapSame(t: BPlusTree, h: Heap)
    requires h.Keys == t.nodes && forall m :: m in t.nodes ==> m.Val() == h[m]
    ensures t.H() == h
  {
  }

  /** The snapshot differs from an earlier one at node n only. */
  lemma Changed(t: BPlusTree, h0: Heap, n: Node, v: NodeVal)
    requires h0.Keys == t.nodes && n in t.nodes && n.Val() == v
    requires forall m :: m in t.nodes && m != n ==> m.Val() == h0[m]
    ensures t.H() == h0[n := v]
  {
  }

  lemma Changed2(t: BPlusTree, h: Heap, u: Node, w: Node, h': Heap)
    requires h.Keys == t.nodes && u in t.nodes && w in t.nodes && u != w
    requires forall m :: m in t.nodes && m != u && m != w ==> m.Val() == h[m]
    requires h' == h[u := u.Val()][w := w.Val()]
    ensures t.H() == h'
  {
  }

  // ----- Accounting units -----

  const TREE_SIZE: nat := 40
  const NODE_SIZE: nat := 32
  const KEY_SIZE: nat := 16
  const RECORD_SIZE: nat := 24
  const POINTER_SIZE: nat := 8

  /** sizeof(node) plus its two slot arrays. */
  ghost function NodeSize(order: nat): nat
    requires order >= 1
  {
    NODE_SIZE + (order - 1) * POINTER_SIZE + order * POINTER_SIZE
  }

  ghost function NodeBytes(order: nat, n: nat): nat
    requires order >= 1
  {
    n * NodeSize(order)
  }

  lemma NodeBytesAdd(order: nat, m: nat, n: nat)
    requires order >= 1
    ensures NodeBytes(order, m + n) == NodeBytes(order, m) + NodeBytes(order, n)
    ensures NodeBytes(order, 1) == NodeSize(order) && NodeBytes(order, 0) == 0
  {
  }

  /** sizeof(key object) plus its copy of the string and the NUL. */
  ghost function KeySize(q: Key): nat {
    KEY_SIZE + |q.key| + 1
  }

  lemma KeySizeIs(q: Key)
    ensures KeySize(q) == KEY_SIZE + |q.key| + 1
  {
  }

  lemma NodeSizeIs(order: nat)
    requires order >= 1
    ensures NodeSize(order) == NODE_SIZE + (order - 1) * POINTER_SIZE + order * POINTER_SIZE
  {
  }

  /** bptree.c _unref_bkey */
  method UnrefKey(t: BPlusTree, q: Key)
    requires q.refCount >= 1
    modifies q`refCount, t`metaSize
    ensures q.refCount == old(q.refCount) - 1
    ensures t.metaSize == old(t.metaSize) - if q.refCount == 0 then KeySize(q) else 0
    ensures t.H() == old(t.H())
  {
    q.refCount := q.refCount - 1;
    if q.refCount == 0 {
      t.metaSize := t.metaSize - (KEY_SIZE + |q.key| + 1);
    }
  }
}
