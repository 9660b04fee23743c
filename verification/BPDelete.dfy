/** Deletion from internal nodes: rebalancing that may travel up to the root. */
module BPDelete {
  import opened BPTypes
  import opened BPLevels
  import opened BPSlots
  import opened BPSteps
  import opened BPInsertSteps
  import opened BPNodeInsert
  import opened BPTree
  import opened BPInsert
  import opened BPFind
  import opened BPValid
  import opened BPAlloc
  import opened BPLeafSteps
  import opened BPAddSteps
  import opened BPAdd
  import opened BPSeps
  import opened BPDelLeaf
  import opened BPMerge
  import opened BPMergeSteps
  import opened BPBalance
  import opened BPNodeDelete
  import opened BPSettle

  /** Key counts while `extra` still counts the internal slot that is about to be cleared. */
  ghost predicate KeyCountsBut(lv: seq<Level>, keys: set<Key>, extra: Key?)
    reads keys`refCount
  {
    && |lv| >= 1 && keys == KeysOf(lv[0])
    && forall q :: q in keys ==> q.refCount == (if q in Seps(lv) then 2 else 1) + (if q == extra then 1 else 0)
  }

  lemma CountsBut(lv: seq<Level>, keys: set<Key>)
    ensures KeyCounts(lv, keys) <==> KeyCountsBut(lv, keys, null)
  {
  }

  /** Key counts depend on the content and the leaves' separators. */
  lemma CountsLow(lv: seq<Level>, lv': seq<Level>, keys: set<Key>, extra: Key?)
    requires KeyCountsBut(lv, keys, extra) && |lv| >= 2 && |lv'| >= 2 && lv'[0] == lv[0] && lv'[1] == lv[1]
    ensures KeyCountsBut(lv', keys, extra)
  {
  }

  /** A node of the tree as an object. */
  lemma NodeIn(t: BPlusTree, n: Node, k: nat)
    requires Allocated(t.nodes, t.order) && NodeOK(t.H(), ToNode(n), k)
    ensures n in t.nodes && t.H().Keys == t.nodes && t.H()[n] == n.Val() && t.order >= 4
    ensures n.Shape(t.order) && n.isLeaf == (k == 1) == n.Val().leaf && n.level == k && n.parent == t.H()[n].parent
    ensures null !in n.Val().ks && |n.Val().ks| == n.numKeys && |n.Val().ps| == n.numKeys + (if k == 1 then 0 else 1)
    ensures n.bkeys in Arrays(t.nodes) && n.pointers in Arrays(t.nodes)
  {
    hide Separate;
    assert t.H()[n] == n.Val();
    ValOf(n, t.order);
  }

  lemma LooseRoot(t: BPlusTree, n: Node?)
    requires Allocated(t.nodes, t.order) && Loose(t.H(), t.lv, t.root, t.order, t.keys, n)
    ensures t.root != null && t.root in t.nodes && NodeOK(t.H(), ToNode(t.root), |t.lv| - 1) && |t.lv| >= 2
  {
    hide LevelOK, Parents, Expand, Slack, KeysKnown, Covered, Leaves, ContentOK;
    RootLevel0(t.H(), t.lv, t.root);
    LinkedAt(t.H(), t.lv, t.root, 0, t.lv[0], |t.lv| - 1);
    NodeAt(t.H(), t.lv[|t.lv| - 1], 0, |t.lv| - 1);
  }

  lemma OneFewer(a: set<Node>, b: set<Node>, n: Node)
    requires n in a && b == a - {n}
    ensures |b| == |a| - 1 && b <= a
  {
  }

  /** bptree.c _adjust_root */
  method AdjustRoot(t: BPlusTree)
    requires Allocated(t.nodes, t.order) && Loose(t.H(), t.lv, t.root, t.order, t.keys, t.root) && KeyCounts(t.lv, t.keys)
    modifies t`root, t`lv, t`metaSize, t`nodes, t.nodes`parent
    ensures Allocated(t.nodes, t.order) && t.nodes <= old(t.nodes) && |t.nodes| <= |old(t.nodes)|
    ensures Settled(old(t.H()), t.H(), old(t.lv), t.lv, t.root, t.order, t.keys, {}) && KeyCounts(t.lv, t.keys)
    ensures t.order >= 4 && t.metaSize == old(t.metaSize) - NodeBytes(t.order, |old(t.nodes)| - |t.nodes|)
  {
    hide *;
    ghost var h, ns := t.H(), t.nodes;
    LooseRoot(t, t.root);
    NodeIn(t, t.root, |t.lv| - 1);
    NodeBytesAdd(t.order, 0, 0);
    NotRead(t);
    if t.root.numKeys > 0 {
      Enough(h, t.lv, t.root, t.order, t.keys, t.root);
      SettledSame(h, t.lv, t.root, t.order, t.keys);
      return;
    }
    CountsBut(t.lv, t.keys);
    EmptyKeys(h, t.root);
    var newRoot: Node? := null;
    var root := t.root;
    ghost var lv := t.lv;
    if !t.root.isLeaf {
      Collapse(h, lv, root, t.order, t.keys);
      FirstSlot(t.order, root);
      newRoot := root.pointers[0].node;
      SetParent(t, newRoot, null);
      NewTopIs(h, root, newRoot);
    } else {
      Vanish(h, lv, root, t.order, t.keys);
    }
    DestroyNode(t, root);
    OneFewer(ns, t.nodes, root);
    NotRead(t);
    ghost var h' := t.H();
    t.root := newRoot;
    t.lv := if newRoot == null then [[]] else lv[..|lv| - 1];
    assert t.H() == h';
    AdjustCounts(lv, t.lv, t.keys);
  }

  lemma NewTopIs(h: Heap, root: Node, c: Node)
    requires c in h
    ensures NewTop(h, root, c) == h[c := h[c].(parent := null)] - {root}
  {
  }

  lemma EmptyKeys(h: Heap, n: Node)
    requires n in h && |h[n].ks| == 0
    ensures h[n].ks == []
  {
  }

  lemma FirstSlot(order: nat, n: Node)
    requires n.Shape(order) && order >= 4 && !n.isLeaf
    ensures n.pointers.Length > 0 && |n.Val().ps| > 0 && n.pointers[0] == n.Val().ps[0]
  {
    ValOf(n, order);
  }

  lemma AdjustCounts(lv: seq<Level>, lv': seq<Level>, keys: set<Key>)
    requires KeyCountsBut(lv, keys, null) && |lv| >= 2
    requires (lv' == [[]] && lv[0] == []) || (|lv| >= 3 && lv' == lv[..|lv| - 1])
    ensures KeyCounts(lv', keys)
  {
    if |lv| >= 3 && lv' == lv[..|lv| - 1] {
      assert lv'[0] == lv[0] && lv'[1] == lv[1];
    }
  }

  // ----- Closing a gap -----

  /** What the parent of a merged pair looks like as an object. */
  lemma GapObjects(t: BPlusTree, k: nat, x: Level, q: nat, p: nat, j: nat, u: Node, a: Node, b: Node, bk: Key)
    requires Allocated(t.nodes, t.order)
    requires Gap(t.H(), t.lv, t.root, t.order, t.keys, k, x, q, p, j, u, a, b, bk)
    ensures |t.lv| >= 2 && 1 <= k < |t.lv| - 1 && NodeOK(t.H(), ToNode(u), k + 1) && b in t.nodes && t.H()[b].level == k && u != b
    ensures u in t.H() && p < |t.lv[k + 1]| && t.lv[k + 1][p].p == ToNode(u)
    ensures j < |t.H()[u].ks| && t.H()[u].ks[j] == bk && bk !in t.H()[u].ks[..j]
    ensures j + 1 < |t.H()[u].ps| && t.H()[u].ps[j + 1] == ToNode(b) && ToNode(b) !in t.H()[u].ps[..j + 1]
    ensures bk in t.keys
  {
    hide Linked, LevelOK, Parents, Expand, Slack, Covered, Leaves, ContentOK;
    var h, l := t.H(), t.lv[k + 1];
    LinkedAt(h, t.lv, t.root, k, x, k);
    LinkedAt(h, t.lv, t.root, k, x, k + 1);
    RowsAfter(h, l, p, 0, x, 0, []);
    SlotsBefore(h, l, x, p, q, j, u, b, bk);
    assert h[u].ks[j] in t.keys;
  }

  lemma SlotsBefore(h: Heap, l: Level, x: Level, p: nat, q: nat, j: nat, u: Node, b: Node, bk: Key)
    requires p < |l| && l[p].p == ToNode(u) && u in h && j < |h[u].ks| && |h[u].ps| == |h[u].ks| + 1
    requires q == |Expand(h, l[..p])| + j && q + 1 < |x| && DistinctPtrs(x) && DistinctSeps(x)
    requires h[u].ks[j] == bk && h[u].ps[j + 1] == ToNode(b)
    requires forall m :: 0 <= m < |V(h, l[p].p).ps| ==>
      |Expand(h, l[..p])| + m < |x| && x[|Expand(h, l[..p])| + m] == Row(V(h, l[p].p), l[p].s)[m]
    ensures bk !in h[u].ks[..j] && ToNode(b) !in h[u].ps[..j + 1]
  {
    var o, r := |Expand(h, l[..p])|, Row(V(h, l[p].p), l[p].s);
    assert x[o + j] == r[j] && x[o + (j + 1)] == r[j + 1];
    forall m | 0 <= m < j ensures h[u].ks[m] != bk {
      assert x[o + m] == r[m];
    }
    forall m | 0 <= m < j + 1 ensures h[u].ps[m] != ToNode(b) {
      assert x[o + m] == r[m];
    }
  }

  /** The slot work of closing a gap; from here on b is out of the tree. */
  method CloseGapSlots(t: BPlusTree, u: Node, bkey: Key, b: Node, ghost k: nat, ghost j: nat)
    requires Allocated(t.nodes, t.order) && NodeOK(t.H(), ToNode(u), k + 1) && k >= 1 && b in t.nodes && u != b
    requires u in t.H() && b in t.H() && j < |t.H()[u].ks| && t.H()[u].ks[j] == bkey && bkey !in t.H()[u].ks[..j]
    requires j + 1 < |t.H()[u].ps| && t.H()[u].ps[j + 1] == ToNode(b) && ToNode(b) !in t.H()[u].ps[..j + 1]
    modifies u`numKeys, u.bkeys, u.pointers, b`level
    ensures t.H() == CloseGap(old(t.H()), u, b, j)
  {
    hide *;
    ghost var h := t.H();
    NodeIn(t, u, k + 1);
    SnapFacts(t, u);
    RemoveInnerSlots(t.order, u, bkey, b, j);
    ghost var v := h[u].(ks := Remove(h[u].ks, j), ps := Remove(h[u].ps, j + 1));
    Changed(t, h, u, v);
    SetLevel(t, b, 0);
    CloseGapIs(h, u, b, j);
  }

  ghost method SetLevel(t: BPlusTree, n: Node, level: nat)
    requires n in t.nodes
    modifies n`level
    ensures n in old(t.H()) && t.H() == old(t.H())[n := old(t.H())[n].(level := level)]
  {
    var h := t.H();
    n.level := level;
    Changed(t, h, n, h[n].(level := level));
  }

  lemma CloseGapIs(h: Heap, u: Node, b: Node, j: nat)
    requires u in h && b in h && u != b && j < |h[u].ks| && j + 1 < |h[u].ps|
    ensures var h1 := h[u := h[u].(ks := Remove(h[u].ks, j), ps := Remove(h[u].ps, j + 1))];
      CloseGap(h, u, b, j) == h1[b := h1[b].(level := 0)]
  {
  }

  lemma ClosedLevels(h: Heap, u: Node, b: Node, j: nat)
    requires u in h && b in h && u != b && j < |h[u].ks| && j + 1 < |h[u].ps|
    ensures CloseGap(h, u, b, j).Keys == h.Keys
    ensures forall m :: m in h ==> (CloseGap(h, u, b, j)[m].level == 0 <==> m == b || h[m].level == 0)
  {
  }

  lemma CountedTwice(lv: seq<Level>, keys: set<Key>, extra: Key)
    requires KeyCountsBut(lv, keys, extra) && extra in keys
    ensures extra.refCount >= 2
    ensures forall q :: q in keys ==> q.refCount == (if q in Seps(lv) then 2 else 1) + (if q == extra then 1 else 0)
    ensures |lv| >= 1 && keys == KeysOf(lv[0])
  {
  }

  lemma CountsIntro(lv: seq<Level>, keys: set<Key>)
    requires |lv| >= 1 && keys == KeysOf(lv[0]) && forall q :: q in keys ==> q.refCount == if q in Seps(lv) then 2 else 1
    ensures KeyCounts(lv, keys)
  {
  }

  /** bptree.c _delete_entry, for the key and the child that the parent of a merged pair gives up */
  method DeleteInner(t: BPlusTree, u: Node, bkey: Key, b: Node, ghost k: nat, ghost x: Level, ghost q: nat, ghost p: nat, ghost j: nat,
                     ghost a: Node)
    requires Allocated(t.nodes, t.order)
    requires Gap(t.H(), t.lv, t.root, t.order, t.keys, k, x, q, p, j, u, a, b, bkey) && KeyCountsBut(t.lv, t.keys, bkey)
    modifies t`root, t`lv, t`metaSize, t`nodes, t.nodes, Arrays(t.nodes), t.keys`refCount
    ensures Allocated(t.nodes, t.order) && t.nodes <= old(t.nodes) && |t.nodes| <= |old(t.nodes)|
    ensures Settled(old(t.H()), t.H(), old(t.lv), t.lv, t.root, t.order, t.keys, {b}) && KeyCounts(t.lv, t.keys)
    ensures t.order >= 4 && t.metaSize == old(t.metaSize) - NodeBytes(t.order, |old(t.nodes)| - |t.nodes|)
    decreases |t.lv| - k, 0
  {
    hide *;
    ghost var h, lv := t.H(), t.lv;
    GapObjects(t, k, x, q, p, j, u, a, b, bkey);
    NodeIn(t, u, k + 1);
    NotRead(t);
    InSnap(t, b);
    CloseLoose(h, lv, t.root, t.order, t.keys, k, x, q, p, j, u, a, b, bkey);
    CountedTwice(lv, t.keys, bkey);
    UnrefKey(t, bkey);
    CloseGapSlots(t, u, bkey, b, k, j);
    CountsIntro(lv, t.keys);
    ghost var h1 := t.H();
    Rebalance(t, u, k + 1, p);
    ClosedLevels(h, u, b, j);
    SettledAfter(h, h1, t.H(), lv, lv, t.lv, t.root, t.order, t.keys, {b}, {});
  }

  /** bptree.c _delete_entry, after the removal: a node that has become too small is merged with a sibling or gets an
      entry from it. */
  method Rebalance(t: BPlusTree, n: Node, ghost k: nat, ghost i: nat)
    requires Allocated(t.nodes, t.order) && Loose(t.H(), t.lv, t.root, t.order, t.keys, n) && KeyCounts(t.lv, t.keys)
    requires 1 <= k < |t.lv| && i < |t.lv[k]| && t.lv[k][i].p == ToNode(n)
    modifies t`root, t`lv, t`metaSize, t`nodes, t.nodes, Arrays(t.nodes), t.keys`refCount
    ensures Allocated(t.nodes, t.order) && t.nodes <= old(t.nodes) && |t.nodes| <= |old(t.nodes)|
    ensures Settled(old(t.H()), t.H(), old(t.lv), t.lv, t.root, t.order, t.keys, {}) && KeyCounts(t.lv, t.keys)
    ensures t.order >= 4 && t.metaSize == old(t.metaSize) - NodeBytes(t.order, |old(t.nodes)| - |t.nodes|)
    decreases |t.lv| - k, 2
  {
    hide *;
    ghost var h := t.H();
    PlaceOf(t, k, i, n);
    NodeIn(t, n, k);
    NodeBytesAdd(t.order, 0, 0);
    NotRead(t);
    if n == t.root {
      AdjustRoot(t);
      return;
    }
    var minKeys := if n.isLeaf then Cut(t.order - 1) else Cut(t.order) - 1;
    MinKeysIs(t.order);
    if n.numKeys >= minKeys {
      Enough(h, t.lv, t.root, t.order, t.keys, n);
      SettledSame(h, t.lv, t.root, t.order, t.keys);
      return;
    }
    var neighborIndex, u, a, b, bkPrime;
    ghost var q, p, j;
    neighborIndex, u, a, b, bkPrime, q, p, j := ChooseSiblings(t, n, k, i);
    PairObjects(t, k, q, p, j, u, a, b, bkPrime, n);
    NodeIn(t, a, k);
    NodeIn(t, b, k);
    var capacity := if n.isLeaf then t.order else t.order - 1;
    if a.numKeys + b.numKeys < capacity {
      Coalesce(t, u, a, b, bkPrime, k, q, p, j, n);
    } else {
      Redistribute(t, neighborIndex, u, a, b, bkPrime, k, q, p, j, n);
    }
  }

  lemma MinKeysIs(order: nat)
    requires order >= 4
    ensures MinKeys(order, true) == Cut(order - 1) && MinKeys(order, false) == Cut(order) - 1
    ensures 2 <= Cut(order - 1) && 2 <= Cut(order) && 2 * Cut(order - 1) <= order && 2 * Cut(order) <= order + 1
  {
  }

  /** The node whose occupancy is in question. */
  lemma PlaceOf(t: BPlusTree, k: nat, i: nat, n: Node)
    requires Allocated(t.nodes, t.order) && Loose(t.H(), t.lv, t.root, t.order, t.keys, n)
    requires 1 <= k < |t.lv| && i < |t.lv[k]| && t.lv[k][i].p == ToNode(n)
    ensures NodeOK(t.H(), ToNode(n), k) && t.H().Keys == t.nodes && t.order >= 4 && |t.lv| >= 2
    ensures n != t.root ==> k < |t.lv| - 1
    ensures t.root != null && Tree(t.H(), t.lv, t.root)
  {
    hide Linked, LevelOK, Parents, Expand, Slack, KeysKnown, Covered, Leaves, ContentOK;
    LinkedAt(t.H(), t.lv, t.root, 0, t.lv[0], k);
    NodeAt(t.H(), t.lv[k], i, k);
    RootLevel0(t.H(), t.lv, t.root);
  }

  /** bptree.c _get_neighbor_index */
  method GetNeighborIndex(order: nat, n: Node, u: Node, ghost j: nat) returns (i: int)
    requires u.Shape(order) && !u.isLeaf && order >= 4 && j < |u.Val().ps| && u.Val().ps[j] == ToNode(n)
    requires forall m :: 0 <= m < |u.Val().ps| && m != j ==> u.Val().ps[m] != ToNode(n)
    ensures i == j - 1
  {
    hide *;
    SizesOf(u, order);
    ValOf(u, order);
    ghost var ps := u.Val().ps;
    i := 0;
    while i <= u.numKeys
      invariant 0 <= i <= j
      decreases u.numKeys + 1 - i
    {
      assert u.pointers[i] == ps[i];
      if u.pointers[i] == ToNode(n) { return i - 1; }
      i := i + 1;
    }
    assert false;
  }

  /** bptree.c _delete_entry, the choice of the sibling: the left one, or the right one of a leftmost child. */
  method ChooseSiblings(t: BPlusTree, n: Node, ghost k: nat, ghost i: nat)
    returns (neighborIndex: int, u: Node, a: Node, b: Node, bkPrime: Key, ghost q: nat, ghost p: nat, ghost j: nat)
    requires Allocated(t.nodes, t.order) && Loose(t.H(), t.lv, t.root, t.order, t.keys, n) && n != t.root
    requires 1 <= k < |t.lv| && i < |t.lv[k]| && t.lv[k][i].p == ToNode(n)
    ensures t.H() == old(t.H())
    ensures Pair(t.H(), t.lv, t.root, t.order, t.keys, k, q, p, j, u, a, b, bkPrime, n)
    ensures neighborIndex >= -1 && j == (if neighborIndex == -1 then 0 else neighborIndex)
    ensures if neighborIndex == -1 then n == a else n == b
  {
    hide *;
    ghost var h := t.H();
    SnapAll(t);
    PlaceOf(t, k, i, n);
    NodeIn(t, n, k);
    ghost var j0, parent;
    p, j0, parent := SlotOf(h, t.lv, t.root, k, i, n);
    u := n.parent;
    NodeIn(t, u, k + 1);
    neighborIndex := GetNeighborIndex(t.order, n, u, j0);
    j := if neighborIndex == -1 then 0 else neighborIndex;
    TwoChildren(h, t.lv, t.root, t.order, t.keys, k, u, n);
    SnapSame(t, h);
    ghost var a', b', bk;
    q, a', b', bk := SiblingSlots(h, t.lv, t.root, k, p, j, u);
    PairIntro(h, t.lv, t.root, t.order, t.keys, k, q, p, j, j0, u, a', b', bk, n);
    SlotObjects(t, u, k, j, a', b', bk);
    var kPrimeIndex := if neighborIndex == -1 then 0 else neighborIndex;
    bkPrime := u.bkeys[kPrimeIndex];
    var neighbor := if neighborIndex == -1 then u.pointers[1].node else u.pointers[neighborIndex].node;
    if neighborIndex == -1 { a, b := n, neighbor; } else { a, b := neighbor, n; }
  }

  lemma SlotObjects(t: BPlusTree, u: Node, k: nat, j: nat, a: Node, b: Node, bk: Key)
    requires Allocated(t.nodes, t.order) && k >= 1 && NodeOK(t.H(), ToNode(u), k + 1)
    requires j < |t.H()[u].ks| && j + 1 < |t.H()[u].ps|
    requires t.H()[u].ps[j] == ToNode(a) && t.H()[u].ps[j + 1] == ToNode(b) && t.H()[u].ks[j] == bk
    ensures j + 1 < u.pointers.Length && j < u.bkeys.Length
    ensures u.bkeys[j] == bk && u.pointers[j] == ToNode(a) && u.pointers[j + 1] == ToNode(b)
  {
    hide Separate;
    assert t.H()[u] == u.Val();
    ValOf(u, t.order);
  }

  /** The parent of a node that is short has two children at least. */
  lemma TwoChildren(h: Heap, lv: seq<Level>, root: Node?, order: nat, keys: set<Key>, k: nat, u: Node, n: Node)
    requires Loose(h, lv, root, order, keys, n) && NodeOK(h, ToNode(u), k + 1) && NodeOK(h, ToNode(n), k) && k >= 1
    ensures |h[u].ks| >= 1 && |h[u].ps| >= 2
  {
    hide Linked, LevelOK, Parents, Expand, KeysKnown, Covered, Leaves, ContentOK;
  }

  lemma PairIntro(h: Heap, lv: seq<Level>, root: Node?, order: nat, keys: set<Key>, k: nat, q: nat, p: nat, j: nat, j0: nat, u: Node,
                  a: Node, b: Node, bk: Key, n: Node)
    requires Loose(h, lv, root, order, keys, n) && 1 <= k < |lv| - 1 && Siblings(h, lv[k + 1], lv[k], k, q, p, j, u, a, b, bk)
    requires q + 1 < |lv[k]| && lv[k][q] == Entry(ToNode(a), bk) && lv[k][q + 1].p == ToNode(b)
    requires a != b && NodeOK(h, ToNode(a), k) && NodeOK(h, ToNode(b), k) && h[a].parent == u && h[b].parent == u
    requires u in h && j0 < |h[u].ps| && h[u].ps[j0] == ToNode(n) && j == (if j0 == 0 then 0 else j0 - 1)
    ensures Pair(h, lv, root, order, keys, k, q, p, j, u, a, b, bk, n)
    ensures if j0 == 0 then n == a else n == b
    ensures j < |h[u].ks| && j + 1 < |h[u].ps| && h[u].ps[j] == ToNode(a) && h[u].ps[j + 1] == ToNode(b) && h[u].ks[j] == bk
  {
    hide Loose, Expand;
  }

  // ----- Merging -----

  /** What a pair of siblings looks like as objects. */
  lemma PairObjects(t: BPlusTree, k: nat, q: nat, p: nat, j: nat, u: Node, a: Node, b: Node, bk: Key, n: Node)
    requires Allocated(t.nodes, t.order) && Pair(t.H(), t.lv, t.root, t.order, t.keys, k, q, p, j, u, a, b, bk, n)
    ensures 1 <= k < |t.lv| - 1 && q + 1 < |t.lv[k]| && a != b && (n == a || n == b) && t.root != null
    ensures NodeOK(t.H(), ToNode(a), k) && NodeOK(t.H(), ToNode(b), k) && NodeOK(t.H(), ToNode(u), k + 1)
    ensures a.bkeys != b.bkeys && a.pointers != b.pointers && bk in t.keys && u.bkeys != a.bkeys && u.bkeys != b.bkeys
    ensures Loose(t.H(), t.lv, t.root, t.order, t.keys, n)
    ensures j < |t.H()[u].ks| && j + 1 < |t.H()[u].ps|
    ensures t.H()[u].ps[j] == ToNode(a) && t.H()[u].ps[j + 1] == ToNode(b) && t.H()[u].ks[j] == bk
  {
    hide Linked, LevelOK, Parents, Expand, Slack, Covered, Leaves, ContentOK;
    assert t.H()[u].ks[j] in t.keys;
  }

  /** bptree.c _coalesce_nodes: the right sibling is emptied into the left one and leaves the tree. */
  method Coalesce(t: BPlusTree, u: Node, a: Node, b: Node, bkPrime: Key, ghost k: nat, ghost q: nat, ghost p: nat, ghost j: nat, ghost n: Node)
    requires Allocated(t.nodes, t.order) && KeyCounts(t.lv, t.keys)
    requires Pair(t.H(), t.lv, t.root, t.order, t.keys, k, q, p, j, u, a, b, bkPrime, n)
    requires a.numKeys + b.numKeys < if a.isLeaf then t.order else t.order - 1
    modifies t`root, t`lv, t`metaSize, t`nodes, t.nodes, Arrays(t.nodes), t.keys`refCount
    ensures Allocated(t.nodes, t.order) && t.nodes <= old(t.nodes) && |t.nodes| <= |old(t.nodes)|
    ensures Settled(old(t.H()), t.H(), old(t.lv), t.lv, t.root, t.order, t.keys, {}) && KeyCounts(t.lv, t.keys)
    ensures t.order >= 4 && t.metaSize == old(t.metaSize) - NodeBytes(t.order, |old(t.nodes)| - |t.nodes|)
    decreases |t.lv| - k, 1
  {
    hide *;
    ghost var h, lv, ns := t.H(), t.lv, t.nodes;
    PairObjects(t, k, q, p, j, u, a, b, bkPrime, n);
    LevelOf(h, b, k);
    NotRead(t);
    MergeNodes(t, u, a, b, bkPrime, k, q, p, j, n);
    ghost var h1, lv1 := t.H(), t.lv;
    MergedBase(lv, k, q, a);
    DeleteInner(t, u, bkPrime, b, k, lv[k], q, p, j, a);
    ghost var h2, ns2 := t.H(), t.nodes;
    SettledAfter(h, h1, h2, lv, lv1, t.lv, t.root, t.order, t.keys, {b}, {b});
    SettledDrop(h, h2, lv, t.lv, t.root, t.order, t.keys, b);
    SnapAll(t);
    DestroyNode(t, b);
    OneFewer(ns2, t.nodes, b);
    NodeBytesAdd(t.order, |ns| - |ns2|, 1);
  }

  lemma LevelOf(h: Heap, n: Node, k: nat)
    requires NodeOK(h, ToNode(n), k)
    ensures n in h && h[n].level == k
  {
  }

  lemma MergedBase(lv: seq<Level>, k: nat, q: nat, a: Node)
    requires 1 <= k < |lv| && q + 1 < |lv[k]|
    ensures MergedLevels(lv, k, q, a)[0] == lv[0] && |MergedLevels(lv, k, q, a)| == |lv|
  {
  }

  /** The slot work of a merge; the parent is not told yet. */
  method MergeNodes(t: BPlusTree, u: Node, a: Node, b: Node, bkPrime: Key, ghost k: nat, ghost q: nat, ghost p: nat, ghost j: nat, ghost n: Node)
    requires Allocated(t.nodes, t.order) && KeyCounts(t.lv, t.keys)
    requires Pair(t.H(), t.lv, t.root, t.order, t.keys, k, q, p, j, u, a, b, bkPrime, n)
    requires a.numKeys + b.numKeys < if a.isLeaf then t.order else t.order - 1
    modifies t`lv, t.nodes, Arrays(t.nodes), t.keys`refCount
    ensures k < |old(t.lv)| && q + 1 < |old(t.lv)[k]| && t.lv == MergedLevels(old(t.lv), k, q, a)
    ensures Gap(t.H(), t.lv, t.root, t.order, t.keys, k, old(t.lv)[k], q, p, j, u, a, b, bkPrime)
    ensures KeyCountsBut(t.lv, t.keys, bkPrime)
    ensures forall m: Node :: m in old(t.H()) ==> m in t.H() && (t.H()[m].level == 0 <==> old(t.H())[m].level == 0)
    ensures t.H().Keys == old(t.H()).Keys
  {
    hide *;
    ghost var h, lv := t.H(), t.lv;
    PairObjects(t, k, q, p, j, u, a, b, bkPrime, n);
    NodeIn(t, a, k);
    NodeIn(t, b, k);
    NotRead(t);
    CountsBut(lv, t.keys);
    KeysPositive(lv, t.keys);
    if a.isLeaf {
      MergeTwoLeaves(t, a, b);
      MergeLeaf(h, lv, t.root, t.order, t.keys, q, p, j, u, a, b, bkPrime, n);
      SepsMerged(h, lv, t.root, t.order, t.keys, q, p, j, u, a, b, bkPrime, n);
    } else {
      MergeInner(h, lv, t.root, t.order, t.keys, k, q, p, j, u, a, b, bkPrime, n);
      MergeTwoInner(t, a, b, bkPrime, k, q, p, j, u, n);
      LowSame(lv, k, q, a);
      CountsUp(lv, MergedLevels(lv, k, q, a), t.keys, bkPrime);
    }
    ghost var h1 := t.H();
    MergeGap(h, h1, lv, t.root, t.order, t.keys, k, q, p, j, u, a, b, bkPrime, n);
    MergedHeap(h, h1, lv, t.root, t.order, t.keys, k, q, a, b);
    t.lv := MergedLevels(lv, k, q, a);
    assert t.H() == h1;
  }

  lemma MergedHeap(h: Heap, h': Heap, lv: seq<Level>, root: Node?, order: nat, keys: set<Key>, k: nat, q: nat, a: Node, b: Node)
    requires Merged(h, h', lv, root, order, keys, k, q, a, b)
    ensures h'.Keys == h.Keys && forall m :: m in h ==> (h'[m].level == 0 <==> h[m].level == 0)
  {
    hide Linked, Leaves, KeysKnown;
  }

  lemma LowSame(lv: seq<Level>, k: nat, q: nat, a: Node)
    requires 2 <= k < |lv| && q + 1 < |lv[k]|
    ensures var lv' := MergedLevels(lv, k, q, a); |lv'| == |lv| && lv'[0] == lv[0] && lv'[1] == lv[1]
  {
  }

  lemma CountsUp(lv: seq<Level>, lv': seq<Level>, keys: set<Key>, extra: Key)
    requires |lv| >= 2 && |lv'| >= 2 && lv'[0] == lv[0] && lv'[1] == lv[1] && keys == KeysOf(lv[0])
    requires forall q :: q in keys ==> q.refCount == (if q in Seps(lv) then 2 else 1) + (if q == extra then 1 else 0)
    ensures KeyCountsBut(lv', keys, extra)
  {
  }

  /** The merged leaves no longer need the key between them as a separator. */
  lemma SepsMerged(h: Heap, lv: seq<Level>, root: Node?, order: nat, keys: set<Key>, q: nat, p: nat, j: nat, u: Node, a: Node, b: Node,
                   bk: Key, n: Node)
    requires Pair(h, lv, root, order, keys, 1, q, p, j, u, a, b, bk, n) && KeyCountsBut(lv, keys, null)
    ensures KeyCountsBut(MergedLevels(lv, 1, q, a), keys, bk)
  {
    hide Linked, LevelOK, Parents, Expand, Slack, KeysKnown, Covered, LeafSeps, Chain, ContentOK, Seps, Siblings;
    LeafLevelOK(h, lv, root);
    var lv' := MergedLevels(lv, 1, q, a);
    var m: Level := lv'[1];
    assert lv[1] == Splice(m, q, 1, [Entry(ToNode(a), bk), Entry(ToNode(b), m[q].s)]);
    SepsSplit(h, lv', lv, q, ToNode(a), bk, ToNode(b));
  }

  method MergeTwoLeaves(t: BPlusTree, a: Node, b: Node)
    requires Allocated(t.nodes, t.order) && NodeOK(t.H(), ToNode(a), 1) && NodeOK(t.H(), ToNode(b), 1) && a != b
    requires a.bkeys != b.bkeys && a.pointers != b.pointers && a.numKeys + b.numKeys < t.order
    modifies a`numKeys, a.bkeys, a.pointers
    ensures a in old(t.H()) && b in old(t.H()) && t.H() == LeafMerge(old(t.H()), a, b)
  {
    hide *;
    ghost var h := t.H();
    NodeIn(t, a, 1);
    NodeIn(t, b, 1);
    SnapFacts(t, a);
    AppendLeaf(t.order, a, b);
    Changed(t, h, a, h[a].(ks := h[a].ks + h[b].ks, ps := h[a].ps + h[b].ps, next := h[b].next));
    LeafMergeIs(h, a, b);
  }

  lemma LeafMergeIs(h: Heap, a: Node, b: Node)
    requires a in h && b in h
    ensures LeafMerge(h, a, b) == h[a := h[a].(ks := h[a].ks + h[b].ks, ps := h[a].ps + h[b].ps, next := h[b].next)]
  {
  }

  method MergeTwoInner(t: BPlusTree, a: Node, b: Node, bkPrime: Key, ghost k: nat, ghost q: nat, ghost p: nat, ghost j: nat, ghost u: Node,
                       ghost n: Node)
    requires Allocated(t.nodes, t.order) && k >= 2
    requires Pair(t.H(), t.lv, t.root, t.order, t.keys, k, q, p, j, u, a, b, bkPrime, n)
    requires a.numKeys + b.numKeys < t.order - 1
    modifies t.nodes, Arrays(t.nodes), bkPrime`refCount
    ensures a in old(t.H()) && b in old(t.H()) && |old(t.H())[b].ps| > 0
    ensures t.H() == InnerMerge(old(t.H()), a, b, bkPrime) && bkPrime.refCount == old(bkPrime.refCount) + 1
  {
    hide *;
    ghost var h := t.H();
    PairObjects(t, k, q, p, j, u, a, b, bkPrime, n);
    NodeIn(t, a, k);
    NodeIn(t, b, k);
    SnapFacts(t, a);
    SnapFacts(t, b);
    NotRead(t);
    JointKids(h, t.lv, t.root, t.order, t.keys, k, q, p, j, u, a, b, bkPrime, n);
    AppendInner(t.order, a, b, bkPrime);
    ghost var h2 := h[a := h[a].(ks := h[a].ks + [bkPrime] + h[b].ks, ps := h[a].ps + h[b].ps)][b := h[b].(ks := [], ps := h[b].ps[..1])];
    Changed2(t, h, a, b, h2);
    ReparentChildren(t, a, h[a].ps + h[b].ps);
    InnerMergeIs(h, a, b, bkPrime);
  }

  lemma InnerMergeIs(h: Heap, a: Node, b: Node, bk: Key)
    requires a in h && b in h && |h[b].ps| > 0
    ensures InnerMerge(h, a, b, bk)
         == Reparent(h[a := h[a].(ks := h[a].ks + [bk] + h[b].ks, ps := h[a].ps + h[b].ps)][b := h[b].(ks := [], ps := h[b].ps[..1])], a)
  {
  }

  /** The children of both siblings are nodes of the tree. */
  lemma JointKids(h: Heap, lv: seq<Level>, root: Node?, order: nat, keys: set<Key>, k: nat, q: nat, p: nat, j: nat, u: Node, a: Node, b: Node,
                  bk: Key, n: Node)
    requires Pair(h, lv, root, order, keys, k, q, p, j, u, a, b, bk, n) && k >= 2
    ensures a in h && b in h && |h[b].ps| > 0
    ensures Kids(h, h[a].ps, a, k - 1) && Kids(h, h[b].ps, b, k - 1)
    ensures var ps := h[a].ps + h[b].ps; forall m :: 0 <= m < |ps| ==> ps[m].ToNode? && ps[m].node in h
    ensures forall m :: 1 <= m < |h[b].ps| ==> h[b].ps[m] != h[b].ps[0]
    ensures forall m :: 0 <= m < |h[a].ks| ==> h[a].ps[m] != h[a].ps[|h[a].ks|]
  {
    hide Linked, LevelOK, Parents, Expand, Slack, KeysKnown, Covered, Leaves, ContentOK, Siblings;
    LinkedAt(h, lv, root, 0, lv[0], k);
    LinkedAt(h, lv, root, 0, lv[0], k - 1);
    BothKids(h, lv[k], lv[k - 1], k - 1, q, a, b);
    DistinctKids(h, lv[k], lv[k - 1], k, q, a);
    DistinctKids(h, lv[k], lv[k - 1], k, q + 1, b);
    var ps := h[a].ps + h[b].ps;
    forall m | 0 <= m < |ps| ensures ps[m].ToNode? && ps[m].node in h {
      assert ps[m] == if m < |h[a].ps| then h[a].ps[m] else h[b].ps[m - |h[a].ps|];
    }
  }

  lemma DistinctKids(h: Heap, l: Level, below: Level, k: nat, p: nat, u: Node)
    requires LevelOK(h, l, k) && k >= 2 && Expand(h, l) == below && LevelOK(h, below, k - 1) && p < |l| && l[p].p == ToNode(u) && u in h
    ensures forall m, n :: 0 <= m < n < |h[u].ps| ==> h[u].ps[m] != h[u].ps[n]
    ensures |h[u].ps| == |h[u].ks| + 1
  {
    assert NodeOK(h, l[p].p, k);
    forall m, n | 0 <= m < n < |h[u].ps| ensures h[u].ps[m] != h[u].ps[n] {
      SlotAt(h, l, p, m);
      SlotAt(h, l, p, n);
    }
  }

  // ----- Redistribution -----

  /** The occupancy of a pair one of which is short. */
  lemma PairMins(t: BPlusTree, k: nat, q: nat, p: nat, j: nat, u: Node, a: Node, b: Node, bk: Key, n: Node)
    requires Allocated(t.nodes, t.order) && Pair(t.H(), t.lv, t.root, t.order, t.keys, k, q, p, j, u, a, b, bk, n)
    ensures t.order >= 4 && k >= 1 && a in t.H() && b in t.H() && a.isLeaf == (k == 1) == b.isLeaf
    ensures |t.H()[a].ks| == a.numKeys && |t.H()[b].ks| == b.numKeys
    ensures |t.H()[a].ps| == a.numKeys + (if k == 1 then 0 else 1) && |t.H()[b].ps| == b.numKeys + (if k == 1 then 0 else 1)
    ensures a.numKeys + (if n == a then 1 else 0) >= MinKeys(t.order, k == 1)
    ensures b.numKeys + (if n == b then 1 else 0) >= MinKeys(t.order, k == 1)
  {
    hide Linked, LevelOK, Parents, Expand, Covered, Leaves, ContentOK, Allocated, KeysKnown, Siblings;
    PairObjects(t, k, q, p, j, u, a, b, bk, n);
    NodeIn(t, a, k);
    NodeIn(t, b, k);
    RootKind(t.H(), t.lv, t.root, t.order, t.keys, n);
  }

  /** bptree.c _redistribute_nodes */
  method Redistribute(t: BPlusTree, neighborIndex: int, u: Node, a: Node, b: Node, bkPrime: Key, ghost k: nat, ghost q: nat, ghost p: nat,
                      ghost j: nat, ghost n: Node)
    requires Allocated(t.nodes, t.order) && KeyCounts(t.lv, t.keys)
    requires Pair(t.H(), t.lv, t.root, t.order, t.keys, k, q, p, j, u, a, b, bkPrime, n)
    requires a.numKeys + b.numKeys >= if a.isLeaf then t.order else t.order - 1
    requires neighborIndex >= -1 && j == (if neighborIndex == -1 then 0 else neighborIndex)
    requires if neighborIndex == -1 then n == a else n == b
    requires t.order >= 4 && n.numKeys < if a.isLeaf then Cut(t.order - 1) else Cut(t.order) - 1
    modifies t`lv, t`metaSize, t.nodes, Arrays(t.nodes), t.keys`refCount
    ensures Settled(old(t.H()), t.H(), old(t.lv), t.lv, t.root, t.order, t.keys, {}) && KeyCounts(t.lv, t.keys)
    ensures t.metaSize == old(t.metaSize) - NodeBytes(t.order, 0)
  {
    hide *;
    var kPrimeIndex := if neighborIndex == -1 then 0 else neighborIndex;
    PairMins(t, k, q, p, j, u, a, b, bkPrime, n);
    MinKeysIs(t.order);
    NodeBytesAdd(t.order, 0, 0);
    if a.isLeaf {
      RedistributeLeaves(t, neighborIndex == -1, kPrimeIndex, u, a, b, bkPrime, q, p, n);
    } else {
      RedistributeInner(t, neighborIndex == -1, kPrimeIndex, u, a, b, bkPrime, k, q, p, n);
    }
  }

  /** One key slot of an internal node is written. */
  method SetKey(t: BPlusTree, u: Node, j: nat, sep: Key, ghost k: nat)
    requires Allocated(t.nodes, t.order) && k >= 1 && NodeOK(t.H(), ToNode(u), k + 1)
    requires u in t.H() && j < |t.H()[u].ks|
    modifies u.bkeys
    ensures t.H() == NewKey(old(t.H()), u, j, sep)
  {
    hide *;
    ghost var h := t.H();
    NodeIn(t, u, k + 1);
    SnapFacts(t, u);
    SizesOf(u, t.order);
    ValOf(u, t.order);
    ghost var v := u.Val();
    u.bkeys[j] := sep;
    ValOf(u, t.order);
    assert u.bkeys[..u.numKeys] == v.ks[j := sep];
    Changed(t, h, u, v.(ks := v.ks[j := sep]));
    NewKeyIs(h, u, j, sep);
  }

  lemma NewKeyIs(h: Heap, u: Node, j: nat, sep: Key)
    requires u in h && j < |h[u].ks|
    ensures NewKey(h, u, j, sep) == h[u := h[u].(ks := h[u].ks[j := sep])]
  {
  }

  /** The exchange of one entry between two leaves. */
  method ExchangeLeaves(t: BPlusTree, leftmost: bool, a: Node, b: Node) returns (ghost m: nat)
    requires Allocated(t.nodes, t.order) && NodeOK(t.H(), ToNode(a), 1) && NodeOK(t.H(), ToNode(b), 1) && a != b
    requires a.bkeys != b.bkeys && a.pointers != b.pointers
    requires if leftmost then a.numKeys < t.order - 1 && b.numKeys >= 1 else b.numKeys < t.order - 1 && a.numKeys >= 2
    modifies a`numKeys, b`numKeys, a.bkeys, a.pointers, b.bkeys, b.pointers
    ensures a in old(t.H()) && b in old(t.H())
    ensures m == (if leftmost then old(a.numKeys) + 1 else old(a.numKeys) - 1)
    ensures 0 < m <= |old(t.H())[a].ks| + |old(t.H())[b].ks| && m <= |old(t.H())[a].ps| + |old(t.H())[b].ps|
    ensures t.H() == LeafShare(old(t.H()), a, b, m)
    ensures a.numKeys == m <= a.bkeys.Length && a.bkeys[m - 1] == (old(t.H())[a].ks + old(t.H())[b].ks)[m - 1]
  {
    hide *;
    ghost var h := t.H();
    NodeIn(t, a, 1);
    NodeIn(t, b, 1);
    SnapFacts(t, a);
    SnapFacts(t, b);
    SizesOf(a, t.order);
    ghost var v, w := a.Val(), b.Val();
    if leftmost {
      m := a.numKeys + 1;
      ShareLeafFromRight(t.order, a, b);
      SizesOf(a, t.order);
      LeafShareRight(h, a, b);
    } else {
      m := a.numKeys - 1;
      ShareLeafFromLeft(t.order, a, b);
      SizesOf(a, t.order);
      LeafShareLeft(h, a, b);
    }
    Changed2(t, h, a, b, h[a := a.Val()][b := b.Val()]);
  }

  lemma LeafShareRight(h: Heap, a: Node, b: Node)
    requires a in h && b in h && |h[b].ks| > 0 && |h[b].ps| > 0 && |h[a].ks| == |h[a].ps|
    ensures LeafShare(h, a, b, |h[a].ks| + 1)
         == h[a := h[a].(ks := h[a].ks + [h[b].ks[0]], ps := h[a].ps + [h[b].ps[0]])][b := h[b].(ks := h[b].ks[1..], ps := h[b].ps[1..])]
    ensures (h[a].ks + h[b].ks)[|h[a].ks|] == h[b].ks[0]
  {
    ShareRight(h[a].ks, h[b].ks);
    ShareRight(h[a].ps, h[b].ps);
  }

  lemma LeafShareLeft(h: Heap, a: Node, b: Node)
    requires a in h && b in h && |h[a].ks| == |h[a].ps| >= 2
    ensures var m := |h[a].ks| - 1;
      && LeafShare(h, a, b, m)
         == h[a := h[a].(ks := h[a].ks[..m], ps := h[a].ps[..m])][b := h[b].(ks := [h[a].ks[m]] + h[b].ks, ps := [h[a].ps[m]] + h[b].ps)]
      && (h[a].ks + h[b].ks)[m - 1] == h[a].ks[m - 1]
  {
    ShareLeft(h[a].ks, h[b].ks);
    ShareLeft(h[a].ps, h[b].ps);
  }

  lemma ShareRight<T>(s: seq<T>, r: seq<T>)
    requires |r| > 0
    ensures (s + r)[..|s| + 1] == s + [r[0]] && (s + r)[|s| + 1..] == r[1..]
  {
  }

  lemma ShareLeft<T>(s: seq<T>, r: seq<T>)
    requires |s| > 0
    ensures (s + r)[..|s| - 1] == s[..|s| - 1] && (s + r)[|s| - 1..] == [s[|s| - 1]] + r
  {
  }

  method RedistributeLeaves(t: BPlusTree, leftmost: bool, kPrimeIndex: nat, u: Node, a: Node, b: Node, bkPrime: Key, ghost q: nat,
                            ghost p: nat, ghost n: Node)
    requires Allocated(t.nodes, t.order) && KeyCounts(t.lv, t.keys) && t.order >= 4
    requires Pair(t.H(), t.lv, t.root, t.order, t.keys, 1, q, p, kPrimeIndex, u, a, b, bkPrime, n)
    requires a.numKeys + b.numKeys >= t.order && 2 * MinKeys(t.order, true) <= t.order && MinKeys(t.order, true) >= 2
    requires if leftmost then n == a else n == b
    requires n.numKeys < MinKeys(t.order, true)
    modifies t`lv, t`metaSize, t.nodes, Arrays(t.nodes), t.keys`refCount
    ensures Settled(old(t.H()), t.H(), old(t.lv), t.lv, t.root, t.order, t.keys, {}) && KeyCounts(t.lv, t.keys)
    ensures t.metaSize == old(t.metaSize)
  {
    hide *;
    ghost var h, lv := t.H(), t.lv;
    PairObjects(t, 1, q, p, kPrimeIndex, u, a, b, bkPrime, n);
    PairMins(t, 1, q, p, kPrimeIndex, u, a, b, bkPrime, n);
    NodeIn(t, a, 1);
    NodeIn(t, b, 1);
    NodeIn(t, u, 2);
    NotRead(t);
    CountsBut(lv, t.keys);
    KeysPositive(lv, t.keys);
    ghost var m := if leftmost then a.numKeys + 1 else a.numKeys - 1;
    BalanceLeaf(h, lv, t.root, t.order, t.keys, q, p, kPrimeIndex, u, a, b, bkPrime, n, m);
    SepOfPair(h, lv, t.root, t.order, t.keys, q, p, kPrimeIndex, u, a, b, bkPrime, n);
    m := ExchangeLeaves(t, leftmost, a, b);
    var sep := a.bkeys[a.numKeys - 1];
    SwapParentKey(t, u, kPrimeIndex, sep, bkPrime, h);
    ghost var h' := t.H();
    t.lv := BalancedLevels(lv, 1, q, a, b, sep);
    assert t.H() == h';
    SepsBalanced(h, h', lv, t.lv, t.root, t.order, t.keys, q, p, kPrimeIndex, u, a, b, bkPrime, n, sep);
    BalancedBase(lv, 1, q, a, b, sep);
    BalancedLevelsOf(h, h', a, b, m, u, kPrimeIndex, sep);
    SettledOne(h, h', lv, t.lv, t.root, t.order, t.keys);
  }

  lemma SepOfPair(h: Heap, lv: seq<Level>, root: Node?, order: nat, keys: set<Key>, q: nat, p: nat, j: nat, u: Node, a: Node, b: Node,
                  bk: Key, n: Node)
    requires Pair(h, lv, root, order, keys, 1, q, p, j, u, a, b, bk, n)
    ensures bk in Seps(lv)
  {
    hide Loose, Siblings, Expand;
    assert lv[1][q] in lv[1];
  }

  lemma BalancedBase(lv: seq<Level>, k: nat, q: nat, a: Node, b: Node, sep: Key)
    requires 1 <= k < |lv| && q + 1 < |lv[k]|
    ensures var lv' := BalancedLevels(lv, k, q, a, b, sep); |lv'| == |lv| && lv'[0] == lv[0] && (k > 1 ==> lv'[1] == lv[1])
  {
  }

  lemma BalancedLevelsOf(h: Heap, h': Heap, a: Node, b: Node, m: nat, u: Node, j: nat, sep: Key)
    requires a in h && b in h && m <= |h[a].ks| + |h[b].ks| && m <= |h[a].ps| + |h[b].ps|
    requires var h1 := LeafShare(h, a, b, m); u in h1 && j < |h1[u].ks| && h' == NewKey(h1, u, j, sep)
    ensures h'.Keys == h.Keys && forall x :: x in h ==> (h'[x].level == 0 <==> h[x].level == 0)
  {
  }

  /** The parent's key changes hands: the new one gains a reference, the old one loses one. */
  method SwapParentKey(t: BPlusTree, u: Node, j: nat, sep: Key, bkPrime: Key, ghost h: Heap)
    requires Allocated(t.nodes, t.order) && NodeOK(h, ToNode(u), 2) && u in h && u in t.H() && t.H()[u] == h[u] && j < |h[u].ks|
    requires bkPrime.refCount >= 2
    modifies u.bkeys, sep`refCount, bkPrime`refCount, t`metaSize
    ensures t.H() == NewKey(old(t.H()), u, j, sep) && t.metaSize == old(t.metaSize)
    ensures sep != bkPrime ==> sep.refCount == old(sep.refCount) + 1 && bkPrime.refCount == old(bkPrime.refCount) - 1
    ensures sep == bkPrime ==> sep.refCount == old(sep.refCount)
  {
    hide *;
    NotRead(t);
    ghost var h0 := t.H();
    sep.refCount := sep.refCount + 1;
    assert t.H() == h0;
    SetKeyOf(t, h, u, j, sep, 1);
    UnrefKey(t, bkPrime);
  }

  lemma SepsBalanced(h: Heap, h': Heap, lv: seq<Level>, lv': seq<Level>, root: Node?, order: nat, keys: set<Key>, q: nat, p: nat, j: nat,
                     u: Node, a: Node, b: Node, bk: Key, n: Node, sep: Key)
    requires Pair(h, lv, root, order, keys, 1, q, p, j, u, a, b, bk, n) && Loose(h', lv', root, order, keys, null)
    requires 2 <= |lv| && q + 1 < |lv[1]| && lv' == BalancedLevels(lv, 1, q, a, b, sep)
    requires keys == KeysOf(lv[0])
    requires forall x :: x in keys ==> x.refCount == (if x in Seps(lv) then 2 else 1) + (if x == sep then 1 else 0) - (if x == bk then 1 else 0)
    ensures KeyCounts(lv', keys)
  {
    hide Linked, LevelOK, Parents, Expand, Slack, KeysKnown, Covered, LeafSeps, Chain, ContentOK, Seps, Siblings;
    LeafLevelOK(h, lv, root);
    LeafLevelOK(h', lv', root);
    var lvm := MergedLevels(lv, 1, q, a);
    var m: Level := lvm[1];
    assert lv[1] == Splice(m, q, 1, [Entry(ToNode(a), bk), Entry(ToNode(b), m[q].s)]);
    assert lv'[1] == Splice(m, q, 1, [Entry(ToNode(a), sep), Entry(ToNode(b), m[q].s)]);
    SepsSplit(h, lvm, lv, q, ToNode(a), bk, ToNode(b));
    SepsSplit(h', lvm, lv', q, ToNode(a), sep, ToNode(b));
  }

  method RedistributeInner(t: BPlusTree, leftmost: bool, kPrimeIndex: nat, u: Node, a: Node, b: Node, bkPrime: Key, ghost k: nat, ghost q: nat,
                           ghost p: nat, ghost n: Node)
    requires Allocated(t.nodes, t.order) && KeyCounts(t.lv, t.keys) && t.order >= 4 && k >= 2
    requires Pair(t.H(), t.lv, t.root, t.order, t.keys, k, q, p, kPrimeIndex, u, a, b, bkPrime, n)
    requires a.numKeys + b.numKeys >= t.order - 1 && 2 * MinKeys(t.order, false) <= t.order - 1 && MinKeys(t.order, false) >= 1
    requires if leftmost then n == a else n == b
    requires n.numKeys < MinKeys(t.order, false)
    modifies t`lv, t`metaSize, t.nodes, Arrays(t.nodes), t.keys`refCount
    ensures Settled(old(t.H()), t.H(), old(t.lv), t.lv, t.root, t.order, t.keys, {}) && KeyCounts(t.lv, t.keys)
    ensures t.metaSize == old(t.metaSize)
  {
    hide *;
    ghost var h, lv := t.H(), t.lv;
    PairObjects(t, k, q, p, kPrimeIndex, u, a, b, bkPrime, n);
    PairMins(t, k, q, p, kPrimeIndex, u, a, b, bkPrime, n);
    NodeIn(t, a, k);
    NodeIn(t, b, k);
    NodeIn(t, u, k + 1);
    NotRead(t);
    CountsBut(lv, t.keys);
    var up;
    ghost var c;
    up, c := ExchangeInner(t, leftmost, a, b, bkPrime, k, q, p, kPrimeIndex, u, n);
    ghost var h1 := t.H();
    BalanceInner(h, h1, lv, t.root, t.order, t.keys, k, q, p, kPrimeIndex, u, a, b, bkPrime, n, c);
    var sep: Key := up;
    SetKeyOf(t, h, u, kPrimeIndex, sep, k);
    ghost var h' := t.H();
    t.lv := BalancedLevels(lv, k, q, a, b, sep);
    assert t.H() == h';
    BalancedBase(lv, k, q, a, b, sep);
    InnerLevelsOf(h, h1, h', k, a, b, bkPrime, c, u, kPrimeIndex, sep);
    SettledOne(h, h', lv, t.lv, t.root, t.order, t.keys);
    CountsLow(lv, t.lv, t.keys, null);
    CountsBut(t.lv, t.keys);
  }

  method SetKeyOf(t: BPlusTree, ghost h: Heap, u: Node, j: nat, sep: Key, ghost k: nat)
    requires Allocated(t.nodes, t.order) && k >= 1 && NodeOK(h, ToNode(u), k + 1)
    requires u in h && u in t.H() && t.H()[u] == h[u] && j < |h[u].ks|
    modifies u.bkeys
    ensures t.H() == NewKey(old(t.H()), u, j, sep)
  {
    assert NodeOK(t.H(), ToNode(u), k + 1);
    SetKey(t, u, j, sep, k);
  }

  lemma InnerLevelsOf(h: Heap, h1: Heap, h': Heap, k: nat, a: Node, b: Node, bk: Key, c: nat, u: Node, j: nat, sep: Key)
    requires InnerShared(h, h1, k, a, b, bk, c) && u in h1 && j < |h1[u].ks| && h' == NewKey(h1, u, j, sep)
    ensures h'.Keys == h.Keys && forall x :: x in h ==> (h'[x].level == 0 <==> h[x].level == 0)
  {
  }

  /** The exchange of one child between two internal nodes. */
  method ExchangeInner(t: BPlusTree, leftmost: bool, a: Node, b: Node, bkPrime: Key, ghost k: nat, ghost q: nat, ghost p: nat, ghost j: nat,
                       ghost u: Node, ghost n: Node) returns (up: Key?, ghost c: nat)
    requires Allocated(t.nodes, t.order) && k >= 2
    requires Pair(t.H(), t.lv, t.root, t.order, t.keys, k, q, p, j, u, a, b, bkPrime, n)
    requires if leftmost then a.numKeys < t.order - 1 && b.numKeys >= 1 else b.numKeys < t.order - 1 && a.numKeys >= 1
    modifies t.nodes, Arrays(t.nodes)
    ensures c == (if leftmost then old(a.numKeys) + 1 else old(a.numKeys) - 1)
    ensures InnerShared(old(t.H()), t.H(), k, a, b, bkPrime, c)
    ensures a in old(t.H()) && b in old(t.H()) && c < |old(t.H())[a].ks + [bkPrime] + old(t.H())[b].ks|
    ensures up == (old(t.H())[a].ks + [bkPrime] + old(t.H())[b].ks)[c]
  {
    hide *;
    ghost var h := t.H();
    PairObjects(t, k, q, p, j, u, a, b, bkPrime, n);
    NodeIn(t, a, k);
    NodeIn(t, b, k);
    SnapFacts(t, a);
    SnapFacts(t, b);
    JointKids(h, t.lv, t.root, t.order, t.keys, k, q, p, j, u, a, b, bkPrime, n);
    ghost var v, w := a.Val(), b.Val();
    var moved;
    if leftmost {
      c := a.numKeys + 1;
      up, moved := ShareInnerFromRight(t.order, a, b, bkPrime);
      Changed2(t, h, a, b, h[a := a.Val()][b := b.Val()]);
      FirstKid(h, a, b, k);
      SetParent(t, moved.node, a);
      SharedRight(h, k, a, b, bkPrime);
    } else {
      c := a.numKeys - 1;
      up, moved := ShareInnerFromLeft(t.order, a, b, bkPrime);
      Changed2(t, h, a, b, h[a := a.Val()][b := b.Val()]);
      LastKid(h, a, b, k);
      SetParent(t, moved.node, b);
      SharedLeft(h, k, a, b, bkPrime);
    }
  }

  lemma FirstKid(h: Heap, a: Node, b: Node, k: nat)
    requires b in h && k >= 2 && Kids(h, h[b].ps, b, k - 1) && |h[b].ps| > 0
    ensures h[b].ps[0].ToNode? && h[b].ps[0].node in h
  {
  }

  lemma LastKid(h: Heap, a: Node, b: Node, k: nat)
    requires a in h && k >= 2 && Kids(h, h[a].ps, a, k - 1) && |h[a].ps| > 0
    ensures h[a].ps[|h[a].ps| - 1].ToNode? && h[a].ps[|h[a].ps| - 1].node in h
  {
  }

  lemma SharedRight(h: Heap, k: nat, a: Node, b: Node, bk: Key)
    requires a in h && b in h && a != b && NodeOK(h, ToNode(a), k) && NodeOK(h, ToNode(b), k) && k >= 2 && |h[b].ks| > 0
    requires Kids(h, h[a].ps, a, k - 1) && Kids(h, h[b].ps, b, k - 1) && h[b].ps[0].ToNode? && h[b].ps[0].node in h
    requires forall m :: 1 <= m < |h[b].ps| ==> h[b].ps[m] != h[b].ps[0]
    ensures var h0 := h[a := h[a].(ks := h[a].ks + [bk], ps := h[a].ps + [h[b].ps[0]])][b := h[b].(ks := h[b].ks[1..], ps := h[b].ps[1..])];
            var x := h[b].ps[0].node;
      && x in h0 && InnerShared(h, h0[x := h0[x].(parent := a)], k, a, b, bk, |h[a].ks| + 1)
    ensures (h[a].ks + [bk] + h[b].ks)[|h[a].ks| + 1] == h[b].ks[0]
  {
    var x := h[b].ps[0].node;
    var h0 := h[a := h[a].(ks := h[a].ks + [bk], ps := h[a].ps + [h[b].ps[0]])][b := h[b].(ks := h[b].ks[1..], ps := h[b].ps[1..])];
    var h1 := h0[x := h0[x].(parent := a)];
    ShareRight(h[a].ps, h[b].ps);
    CutDown(h[a].ks, bk, h[b].ks);
    assert h[x].level == k - 1 && h[x].parent == b;
    forall m | 0 <= m < |h1[a].ps| ensures V(h1, h1[a].ps[m]).parent == a {
      if m < |h[a].ps| { assert h1[a].ps[m] == h[a].ps[m]; }
    }
    forall m | 0 <= m < |h1[b].ps| ensures V(h1, h1[b].ps[m]).parent == b {
      assert h1[b].ps[m] == h[b].ps[m + 1];
    }
  }

  lemma CutDown(s: seq<Key?>, x: Key?, r: seq<Key?>)
    requires |r| > 0
    ensures (s + [x] + r)[..|s| + 1] == s + [x] && (s + [x] + r)[|s| + 1] == r[0] && (s + [x] + r)[|s| + 2..] == r[1..]
  {
  }

  lemma CutUp(s: seq<Key?>, x: Key?, r: seq<Key?>)
    requires |s| > 0
    ensures (s + [x] + r)[..|s| - 1] == s[..|s| - 1] && (s + [x] + r)[|s| - 1] == s[|s| - 1] && (s + [x] + r)[|s|..] == [x] + r
  {
  }

  lemma SharedLeft(h: Heap, k: nat, a: Node, b: Node, bk: Key)
    requires a in h && b in h && a != b && NodeOK(h, ToNode(a), k) && NodeOK(h, ToNode(b), k) && k >= 2 && |h[a].ks| > 0
    requires Kids(h, h[a].ps, a, k - 1) && Kids(h, h[b].ps, b, k - 1)
    requires h[a].ps[|h[a].ks|].ToNode? && h[a].ps[|h[a].ks|].node in h
    requires forall m :: 0 <= m < |h[a].ks| ==> h[a].ps[m] != h[a].ps[|h[a].ks|]
    ensures var c := |h[a].ks| - 1;
            var h0 := h[a := h[a].(ks := h[a].ks[..c], ps := h[a].ps[..c + 1])][b := h[b].(ks := [bk] + h[b].ks, ps := [h[a].ps[c + 1]] + h[b].ps)];
            var x := h[a].ps[c + 1].node;
      && x in h0 && InnerShared(h, h0[x := h0[x].(parent := b)], k, a, b, bk, c)
      && (h[a].ks + [bk] + h[b].ks)[c] == h[a].ks[c]
  {
    var c := |h[a].ks| - 1;
    var h0 := h[a := h[a].(ks := h[a].ks[..c], ps := h[a].ps[..c + 1])][b := h[b].(ks := [bk] + h[b].ks, ps := [h[a].ps[c + 1]] + h[b].ps)];
    var x := h[a].ps[c + 1].node;
    var h1 := h0[x := h0[x].(parent := b)];
    ShareLeft(h[a].ps, h[b].ps);
    CutUp(h[a].ks, bk, h[b].ks);
    assert h[x].level == k - 1 && h[x].parent == a;
    forall m | 0 <= m < |h1[a].ps| ensures V(h1, h1[a].ps[m]).parent == a {
      assert h1[a].ps[m] == h[a].ps[m];
    }
    forall m | 0 <= m < |h1[b].ps| ensures V(h1, h1[b].ps[m]).parent == b {
      if m > 0 { assert h1[b].ps[m] == h[b].ps[m - 1]; }
    }
  }
}
