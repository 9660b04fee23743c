/** Deletion of a key: the leaf slot, the separator in the internal nodes, the rebalancing and the release of the record. */
module BPErase {
  import opened BPTypes
  import opened BPLevels
  import opened BPSlots
  import opened BPSteps
  import opened BPTree
  import opened BPInsert
  import opened BPFind
  import opened BPValid
  import opened BPLookup
  import opened BPLeafSteps
  import opened BPAdd
  import opened BPMap
  import opened BPAlias
  import opened BPSeps
  import opened BPRename
  import opened BPDelLeaf
  import opened BPDelCounts
  import opened BPMerge
  import opened BPBalance
  import opened BPNodeDelete
  import opened BPSettle
  import opened BPDelete

  // ----- The separator -----

  /** The leaf whose last key goes, in the tree as it was before. */
  ghost predicate Ending(h: Heap, lv: seq<Level>, root: Node?, order: nat, keys: set<Key>, p: nat, leaf: Node, lo: nat, n: nat,
                         i: nat, bk: Key) {
    && Complete(h, lv, root, order, keys) && ContentOK(lv[0]) && Leaves(h, lv[1])
    && p < |lv[1]| && lv[1][p].p == ToNode(leaf) && leaf in h && LeafAt(h, lv[1], lv[0], p, lo, n)
    && i < n && h[leaf].ks[i] == bk
  }

  /** Only the victim's own leaf can be separated by the victim's key, and only if it is the leaf's last. */
  lemma SepIsOwn(h: Heap, lv: seq<Level>, root: Node?, order: nat, keys: set<Key>, p: nat, leaf: Node, lo: nat, n: nat, i: nat, bk: Key)
    requires Ending(h, lv, root, order, keys, p, leaf, lo, n, i, bk)
    ensures HasSep(lv[1], bk) ==> lv[1][p].s == bk && i == n - 1 && h[leaf].parent != null
    ensures HasSep(lv[1], bk) <==> bk in Seps(lv)
    ensures lv[1][p].s != bk ==> !HasSep(lv[1], bk)
    ensures |lv| == 2 ==> h[leaf].parent == null && !HasSep(lv[1], bk)
    ensures |lv| > 2 ==> h[leaf].parent != null
  {
    hide Linked, LevelOK, Parents, Expand, ContentOK, Chain, Occupied, KeysKnown, Covered, Seps;
    LeafLevelOK(h, lv, root);
    SepsHas(lv, bk);
    if |lv| > 2 {
      var x, y, u := SlotOf(h, lv, root, 1, p, leaf);
    } else {
      RootLevel0(h, lv, root);
    }
    if HasSep(lv[1], bk) {
      var q :| 0 <= q < |lv[1]| && lv[1][q].s == bk;
      LeafKeyOnce(h, lv, p, lo, n, i, q, |V(h, lv[1][q].p).ks| - 1);
    }
  }

  /** One step of the climb: if the node has no slot for the key, the key, if it separates the child, also separates the
      node itself. */
  lemma Climb(h: Heap, lv: seq<Level>, root: Node?, order: nat, keys: set<Key>, k: nat, y: nat, child: Node, bk: Key)
    returns (x: nat, u: Node)
    requires Complete(h, lv, root, order, keys) && 1 <= k < |lv| - 1 && y < |lv[k]| && lv[k][y].p == ToNode(child)
    ensures child in h && h[child].parent == u && x < |lv[k + 1]| && lv[k + 1][x].p == ToNode(u) && NodeOK(h, ToNode(u), k + 1)
    ensures lv[k][y].s == bk && bk !in h[u].ks ==> lv[k + 1][x].s == bk
  {
    hide Linked, LevelOK, Parents, Expand, Occupied, KeysKnown, Covered;
    var j;
    x, j, u := SlotOf(h, lv, root, k, y, child);
    LinkedAt(h, lv, root, 0, lv[0], k);
    LinkedAt(h, lv, root, 0, lv[0], k + 1);
    SlotAt(h, lv[k + 1], x, j);
    assert lv[k][y] == Row(h[u], lv[k + 1][x].s)[j];
    if j < |h[u].ks| { assert h[u].ks[j] in h[u].ks; }
  }

  lemma TopChild(h: Heap, lv: seq<Level>, root: Node?, order: nat, keys: set<Key>, y: nat, child: Node)
    requires Complete(h, lv, root, order, keys) && |lv| >= 2 && y < |lv[|lv| - 1]| && lv[|lv| - 1][y].p == ToNode(child)
    ensures child in h && h[child].parent == null && lv[|lv| - 1][y].s == null
  {
    hide LevelOK, Parents, Expand, Occupied, KeysKnown, Covered;
    RootLevel0(h, lv, root);
  }

  lemma NodeInLevel(h: Heap, lv: seq<Level>, root: Node?, order: nat, keys: set<Key>, k: nat, y: nat, n: Node)
    requires Complete(h, lv, root, order, keys) && 1 <= k < |lv| && y < |lv[k]| && lv[k][y].p == ToNode(n)
    ensures NodeOK(h, ToNode(n), k)
  {
    hide Linked, LevelOK, Parents, Expand, Occupied, KeysKnown, Covered;
    LinkedAt(h, lv, root, 0, lv[0], k);
    NodeAt(h, lv[k], y, k);
  }

  /** bptree.c _remove_entry_from_node, the climb from the leaf's parent towards the root: the internal slot that holds
      the removed key, if there is one. */
  method FindSeparator(t: BPlusTree, leaf: Node, bkey: Key, ghost h: Heap, ghost p: nat, ghost lo: nat, ghost n: nat, ghost i: nat)
    returns (node: Node?, found: int, ghost k: nat, ghost x: nat)
    requires Allocated(t.nodes, t.order) && Ending(h, t.lv, t.root, t.order, t.keys, p, leaf, lo, n, i, bkey)
    requires h.Keys == t.nodes && leaf in t.nodes && t.H() == h[leaf := t.H()[leaf]] && h[leaf].leaf
    requires leaf.parent == h[leaf].parent
    ensures t.H() == old(t.H())
    ensures node == null ==> bkey !in Seps(t.lv)
    ensures node != null ==> k >= 1 && found >= 0 && InSlot(h, t.lv, bkey, k + 1, x, found)
    ensures node != null ==> k + 1 < |t.lv| && x < |t.lv[k + 1]| && t.lv[k + 1][x].p == ToNode(node)
  {
    hide *;
    ghost var h1, lv := t.H(), t.lv;
    SnapAll(t);
    SepIsOwn(h, lv, t.root, t.order, t.keys, p, leaf, lo, n, i, bkey);
    EndingParts(h, lv, t.root, t.order, t.keys, p, leaf, lo, n, i, bkey);
    ghost var y: nat, child := p, leaf;
    k, x, found := 1, 0, -1;
    node := leaf.parent;
    while node != null
      invariant 1 <= k < |lv| && y < |lv[k]| && lv[k][y].p == ToNode(child) && child in h && node == h[child].parent
      invariant bkey in Seps(lv) ==> lv[k][y].s == bkey
      invariant forall m :: m in t.nodes ==> m.Val() == h1[m]
      decreases |lv| - k
    {
      if k == |lv| - 1 { TopChild(h, lv, t.root, t.order, t.keys, y, child); }
      ghost var u;
      x, u := Climb(h, lv, t.root, t.order, t.keys, k, y, child, bkey);
      SnapSame(t, h1);
      InnerSame(h, h1, u, k + 1, leaf);
      NodeIn(t, u, k + 1);
      found := FindKey(t.order, node, bkey);
      SnapSame(t, h1);
      if found >= 0 {
        MakeInSlot(h, lv, bkey, k + 1, x, found, u);
        return;
      }
      k, y, child := k + 1, x, u;
      node := node.parent;
    }
    SnapSame(t, h1);
    if k < |lv| - 1 { ghost var z, u := Climb(h, lv, t.root, t.order, t.keys, k, y, child, bkey); }
    TopChild(h, lv, t.root, t.order, t.keys, y, child);
  }

  /** bptree.c _remove_entry_from_node, the exchange of the separator: the internal slot that holds the removed key, if
      there is one, gets the key that is now the leaf's last. */
  method SwapSeparator(t: BPlusTree, leaf: Node, bkey: Key, swapped: Key, ghost h: Heap, ghost p: nat, ghost lo: nat, ghost n: nat, ghost i: nat)
    requires Allocated(t.nodes, t.order) && Ending(h, t.lv, t.root, t.order, t.keys, p, leaf, lo, n, i, bkey)
    requires h.Keys == t.nodes && leaf in t.nodes && t.H() == h[leaf := t.H()[leaf]] && h[leaf].leaf
    requires leaf.parent == h[leaf].parent
    requires bkey != swapped && (bkey in Seps(t.lv) ==> bkey.refCount >= 1)
    modifies t`metaSize, Arrays(t.nodes), bkey`refCount, swapped`refCount
    ensures t.H() == RenameHeap(h, bkey, swapped)[leaf := old(t.H())[leaf]]
    ensures bkey.refCount == old(bkey.refCount) - (if bkey in Seps(t.lv) then 1 else 0)
    ensures swapped.refCount == old(swapped.refCount) + (if bkey in Seps(t.lv) then 1 else 0)
    ensures t.metaSize == old(t.metaSize) - if bkey in Seps(t.lv) && bkey.refCount == 0 then KeySize(bkey) else 0
  {
    hide *;
    ghost var h1, lv := t.H(), t.lv;
    SepIsOwn(h, lv, t.root, t.order, t.keys, p, leaf, lo, n, i, bkey);
    EndingParts(h, lv, t.root, t.order, t.keys, p, leaf, lo, n, i, bkey);
    NotRead(t);
    var node, found;
    ghost var k, x;
    node, found, k, x := FindSeparator(t, leaf, bkey, h, p, lo, n, i);
    if node == null {
      RenameNone(h, lv, t.root, bkey, swapped);
    } else {
      RenameOne(h, lv, t.root, bkey, swapped, k + 1, x, found, node);
      SlotIsSep(h, lv, t.root, bkey, k + 1, x, found);
      NodeInLevel(h, lv, t.root, t.order, t.keys, k + 1, x, node);
      InnerSame(h, h1, node, k + 1, leaf);
      WriteSeparator(t, node, found, swapped, bkey, k);
      SwapHeap(h, h1, node, found, swapped, leaf);
    }
  }

  method WriteSeparator(t: BPlusTree, node: Node, i: nat, swapped: Key, bkey: Key, ghost k: nat)
    requires Allocated(t.nodes, t.order) && k >= 1 && NodeOK(t.H(), ToNode(node), k + 1)
    requires node in t.H() && i < |t.H()[node].ks| && bkey != swapped && bkey.refCount >= 1
    modifies t`metaSize, Arrays(t.nodes), bkey`refCount, swapped`refCount
    ensures t.H() == NewKey(old(t.H()), node, i, swapped)
    ensures bkey.refCount == old(bkey.refCount) - 1 && swapped.refCount == old(swapped.refCount) + 1
    ensures t.metaSize == old(t.metaSize) - if bkey.refCount == 0 then KeySize(bkey) else 0
  {
    hide *;
    NotRead(t);
    NodeIn(t, node, k + 1);
    UnrefKey(t, bkey);
    SetKey(t, node, i, swapped, k);
    ghost var h2 := t.H();
    swapped.refCount := swapped.refCount + 1;
    assert t.H() == h2;
  }

  lemma EndingParts(h: Heap, lv: seq<Level>, root: Node?, order: nat, keys: set<Key>, p: nat, leaf: Node, lo: nat, n: nat, i: nat, bk: Key)
    requires Ending(h, lv, root, order, keys, p, leaf, lo, n, i, bk)
    ensures Complete(h, lv, root, order, keys) && root != null && |lv| >= 2 && p < |lv[1]| && lv[1][p].p == ToNode(leaf) && leaf in h
    ensures Tree(h, lv, root) && ContentOK(lv[0]) && LeafSeps(h, lv[1]) && Leaves(h, lv[1]) && Covered(h, lv)
    ensures forall m :: m in h ==> h[m].level > 0
  {
    hide Linked, LevelOK, Parents, Expand, Occupied, KeysKnown, Covered, ContentOK, LeafSeps, Chain;
  }

  lemma InnerSame(h: Heap, h1: Heap, u: Node, k: nat, leaf: Node)
    requires NodeOK(h, ToNode(u), k) && k >= 2 && leaf in h && h[leaf].leaf && leaf in h1 && h1 == h[leaf := h1[leaf]]
    ensures u in h && u != leaf && h1[u] == h[u] && NodeOK(h1, ToNode(u), k) && null !in h[u].ks
  {
  }

  lemma MakeInSlot(h: Heap, lv: seq<Level>, q: Key, k: nat, i: nat, m: nat, u: Node)
    requires 2 <= k < |lv| && i < |lv[k]| && lv[k][i].p == ToNode(u) && u in h && m < |h[u].ks| && h[u].ks[m] == q
    ensures InSlot(h, lv, q, k, i, m)
  {
  }

  lemma SlotIsSep(h: Heap, lv: seq<Level>, root: Node, q: Key, k: nat, i: nat, m: nat)
    requires Tree(h, lv, root) && ContentOK(lv[0]) && LeafSeps(h, lv[1]) && InSlot(h, lv, q, k, i, m)
    ensures q in Seps(lv)
  {
    hide Linked, LevelOK, Parents, Expand, ContentOK, LeafSeps, HasSep, Seps;
    var x := SlotSep(h, lv, root, q, k, i, m);
    SlotLevels(h, lv, q, k, i, m);
    SepBelow(h, lv, root, 1, k - 1, q);
    SepsHas(lv, q);
  }

  lemma SwapHeap(h: Heap, h1: Heap, u: Node, m: nat, w: Key, leaf: Node)
    requires u in h && leaf in h && u != leaf && leaf in h1 && h1 == h[leaf := h1[leaf]] && m < |h[u].ks|
    ensures u in h1 && m < |h1[u].ks|
    ensures NewKey(h1, u, m, w) == h[u := h[u].(ks := h[u].ks[m := w])][leaf := h1[leaf]]
  {
  }

  /** The slot of a key among a node's keys, or -1. */
  method FindKey(order: nat, n: Node, bkey: Key) returns (i: int)
    requires n.Shape(order) && order >= 4 && !n.isLeaf
    ensures -1 <= i < |n.Val().ks|
    ensures if i == -1 then bkey !in n.Val().ks else n.Val().ks[i] == bkey
  {
    ValOf(n, order);
    ghost var ks := n.Val().ks;
    i := 0;
    while i < n.numKeys
      invariant 0 <= i <= n.numKeys
      invariant bkey !in ks[..i]
    {
      assert n.bkeys[i] == ks[i] && ks[..i + 1] == ks[..i] + [ks[i]];
      if n.bkeys[i] == bkey { return i; }
      i := i + 1;
    }
    assert ks[..i] == ks;
    i := -1;
  }

  // ----- The entry -----

  ghost function FirstOf(ps: seq<Ptr>, x: Ptr): (j: nat)
    requires x in ps
    ensures j < |ps| && ps[j] == x && x !in ps[..j]
  {
    if ps[0] == x then 0 else
      assert x in ps[1..];
      var j := FirstOf(ps[1..], x);
      assert ps[..j + 1] == [ps[0]] + ps[1..][..j];
      j + 1
  }

  lemma EndingKeys(h: Heap, lv: seq<Level>, root: Node?, order: nat, keys: set<Key>, p: nat, leaf: Node, lo: nat, n: nat, i: nat, bk: Key)
    requires Ending(h, lv, root, order, keys, p, leaf, lo, n, i, bk)
    ensures i < n == |h[leaf].ks| == |h[leaf].ps| && lo + n <= |lv[0]| && h[leaf].leaf && h[leaf].ks[i] == bk && bk in keys
    ensures forall m :: 0 <= m < n && m != i ==> h[leaf].ks[m] != bk
    ensures forall m :: 0 <= m < n ==> h[leaf].ks[m] in keys
    ensures h[leaf].parent != null ==> n >= 2
    ensures lv[0][lo + i] == Entry(h[leaf].ps[i], bk)
  {
    hide Linked, LevelOK, Parents, Expand, ContentOK, Leaves, Covered;
    LeafLevelOK(h, lv, root);
    NodeAt(h, lv[1], p, 1);
    assert h[leaf].ks[i] in keys;
    forall m | 0 <= m < n && m != i ensures h[leaf].ks[m] != bk {
      if h[leaf].ks[m] == bk { LeafKeyOnce(h, lv, p, lo, n, i, p, m); }
    }
    RootLevel0(h, lv, root);
  }

  /** The leaf gives up the slot of the key and the first slot of the record. */
  method TakeSlots(t: BPlusTree, leaf: Node, bkey: Key, rec: Record, ghost i: nat)
    returns (swapped: Key?, ghost j: nat)
    requires Allocated(t.nodes, t.order) && NodeOK(t.H(), ToNode(leaf), 1) && leaf in t.H()
    requires i < |t.H()[leaf].ks| == |t.H()[leaf].ps| && t.H()[leaf].ks[i] == bkey && t.H()[leaf].ps[i] == ToRecord(rec)
    requires forall m :: 0 <= m < |t.H()[leaf].ks| && m != i ==> t.H()[leaf].ks[m] != bkey
    requires leaf.parent != null ==> |t.H()[leaf].ks| >= 2
    modifies leaf`numKeys, leaf.bkeys, leaf.pointers
    ensures leaf in old(t.H()) && i < |old(t.H())[leaf].ks| && ToRecord(rec) in old(t.H())[leaf].ps
    ensures j == FirstOf(old(t.H())[leaf].ps, ToRecord(rec)) <= i
    ensures t.H() == old(t.H())[leaf := old(t.H())[leaf].(ks := Remove(old(t.H())[leaf].ks, i), ps := Remove(old(t.H())[leaf].ps, j))]
    ensures if leaf.parent != null && i == |old(t.H())[leaf].ks| - 1 then i > 0 && swapped == old(t.H())[leaf].ks[i - 1] && swapped != null
            else swapped == null
  {
    hide *;
    ghost var h := t.H();
    NodeIn(t, leaf, 1);
    SnapFacts(t, leaf);
    ghost var v := leaf.Val();
    assert v.ks[i] in v.ks && v.ps[i] in v.ps;
    ghost var i';
    swapped, i', j := RemoveLeafSlots(t.order, leaf, bkey, rec);
    FirstIs(v.ps, ToRecord(rec), j, i);
    Changed(t, h, leaf, v.(ks := Remove(v.ks, i), ps := Remove(v.ps, j)));
  }

  lemma FirstIs(ps: seq<Ptr>, x: Ptr, j: nat, i: nat)
    requires j < |ps| && ps[j] == x && x !in ps[..j] && i < |ps| && ps[i] == x
    ensures x in ps && j == FirstOf(ps, x) <= i
  {
    var f := FirstOf(ps, x);
    IndexIs(ps, j, f);
    forall m | 0 <= m < j ensures ps[m] != x { assert ps[..j][m] == ps[m]; }
  }

  lemma VictimIntro(h: Heap, lv: seq<Level>, root: Node?, order: nat, keys: set<Key>, p: nat, leaf: Node, lo: nat, n: nat, i: nat,
                    j: nat, bk: Key, w: Key)
    requires Ending(h, lv, root, order, keys, p, leaf, lo, n, i, bk) && j <= i && h[leaf].leaf
    requires if w == bk then h[leaf].parent == null || i != n - 1 else i == n - 1 && i > 0 && w == h[leaf].ks[i - 1]
    ensures Victim(h, lv, p, leaf, lo, n, i, j, bk, w)
  {
    hide Complete, ContentOK, Leaves, HasSep;
    SepIsOwn(h, lv, root, order, keys, p, leaf, lo, n, i, bk);
    EndingParts(h, lv, root, order, keys, p, leaf, lo, n, i, bk);
  }

  lemma DelHeapIs(h: Heap, u: Node, i: nat, j: nat, bk: Key, w: Key)
    requires u in h && i < |h[u].ks| && j < |h[u].ps|
    ensures DelHeap(h, u, i, j, bk, w) == RenameHeap(h, bk, w)[u := h[u].(ks := Remove(h[u].ks, i), ps := Remove(h[u].ps, j))]
  {
  }

  /** bptree.c _delete_entry, the part that concerns the leaf: the slots, the separator, and what has to be rebalanced. */
  method RemoveFromLeaf(t: BPlusTree, leaf: Node, bkey: Key, rec: Record, ghost p: nat, ghost lo: nat, ghost n: nat, ghost i: nat)
    returns (ghost j: nat, ghost w: Key)
    requires Allocated(t.nodes, t.order) && Ending(t.H(), t.lv, t.root, t.order, t.keys, p, leaf, lo, n, i, bkey)
    requires KeyCounts(t.lv, t.keys) && t.H()[leaf].ps[i] == ToRecord(rec)
    modifies t`lv, t`keys, t`metaSize, leaf`numKeys, Arrays(t.nodes), t.keys`refCount
    ensures leaf in old(t.H()) && |old(t.lv)| >= 1 && lo + i < |old(t.lv[0])| && lo + j < |old(t.lv[0])|
    ensures i < |old(t.H())[leaf].ps| && j == FirstOf(old(t.H())[leaf].ps, ToRecord(rec)) <= i
    ensures t.lv == DelLevels(old(t.lv), lo + i, lo + j, bkey, w) && t.keys == old(t.keys) - {bkey}
    ensures Loose(t.H(), t.lv, t.root, t.order, t.keys, leaf) && KeyCounts(t.lv, t.keys)
    ensures forall m: Node :: m in t.H() ==> t.H()[m].level > 0
    ensures t.metaSize == old(t.metaSize) - KeySize(bkey)
  {
    hide *;
    ghost var h, lv, keys := t.H(), t.lv, t.keys;
    EndingParts(h, lv, t.root, t.order, keys, p, leaf, lo, n, i, bkey);
    SepIsOwn(h, lv, t.root, t.order, keys, p, leaf, lo, n, i, bkey);
    NodeInLevel(h, lv, t.root, t.order, keys, 1, p, leaf);
    NodeIn(t, leaf, 1);
    NotRead(t);
    EndingKeys(h, lv, t.root, t.order, keys, p, leaf, lo, n, i, bkey);
    KeysPositive(lv, keys);
    ParentOf(t, leaf);
    var swapped;
    swapped, j := TakeSlots(t, leaf, bkey, rec, i);
    UnrefKey(t, bkey);
    if swapped != null {
      w := swapped;
      SwapSeparator(t, leaf, bkey, swapped, h, p, lo, n, i);
    } else {
      w := bkey;
      RenameSame(h, lv, bkey);
    }
    VictimIntro(h, lv, t.root, t.order, keys, p, leaf, lo, n, i, j, bkey, w);
    DelHeapIs(h, leaf, i, j, bkey, w);
    ghost var h2 := t.H();
    DelLoose(h, lv, t.root, t.order, keys, p, leaf, lo, n, i, j, bkey, w);
    DelKeyCounts(h, lv, t.root, keys, p, leaf, lo, n, i, j, bkey, w);
    t.keys := t.keys - {bkey};
    t.lv := DelLevels(lv, lo + i, lo + j, bkey, w);
    assert t.H() == h2;
  }

  lemma SettledStructure(h: Heap, h': Heap, lv: seq<Level>, lv': seq<Level>, root: Node?, order: nat, keys: set<Key>)
    requires Settled(h, h', lv, lv', root, order, keys, {}) && forall m :: m in h ==> h[m].level > 0
    ensures Structure(h', lv', root, order, keys) && |lv'| >= 1 && |lv| >= 1 && lv'[0] == lv[0]
  {
    hide Linked, LevelOK, Parents, Expand, KeysKnown, Covered, PtrsOf, LeafSeps, Chain;
    if root == null {
      assert h' == map[];
    } else {
      assert Occupied(h', order, root);
    }
  }

  lemma DelBase(lv: seq<Level>, d: nat, e: nat, bk: Key, w: Key)
    requires |lv| >= 2 && d < |lv[0]| && e < |lv[0]|
    ensures |DelLevels(lv, d, e, bk, w)| == |lv| && DelLevels(lv, d, e, bk, w)[0] == RemoveSlots(lv[0], d, e)
    ensures forall p :: 0 <= p < |lv[1]| ==> p < |DelLevels(lv, d, e, bk, w)[1]| && DelLevels(lv, d, e, bk, w)[1][p].p == lv[1][p].p
  {
  }

  /** bptree.c _delete_entry, called for a leaf */
  method DeleteEntry(t: BPlusTree, leaf: Node, bkey: Key, rec: Record, ghost p: nat, ghost lo: nat, ghost n: nat, ghost i: nat)
    returns (ghost j: nat)
    requires Allocated(t.nodes, t.order) && Ending(t.H(), t.lv, t.root, t.order, t.keys, p, leaf, lo, n, i, bkey)
    requires KeyCounts(t.lv, t.keys) && t.H()[leaf].ps[i] == ToRecord(rec)
    modifies t`root, t`lv, t`keys, t`metaSize, t`nodes, t.nodes, Arrays(t.nodes), t.keys`refCount
    ensures Allocated(t.nodes, t.order) && |t.lv| >= 1 && Structure(t.H(), t.lv, t.root, t.order, t.keys) && KeyCounts(t.lv, t.keys)
    ensures leaf in old(t.H()) && i < |old(t.H())[leaf].ps| && j == FirstOf(old(t.H())[leaf].ps, ToRecord(rec)) <= i
    ensures |old(t.lv)| >= 1 && lo + i < |old(t.lv[0])| && t.lv[0] == RemoveSlots(old(t.lv[0]), lo + i, lo + j)
    ensures t.order >= 4 && |t.nodes| <= |old(t.nodes)|
    ensures t.metaSize == old(t.metaSize) - KeySize(bkey) - NodeBytes(t.order, |old(t.nodes)| - |t.nodes|)
    ensures t.nodes <= old(t.nodes) && t.keys <= old(t.keys)
  {
    hide *;
    NotRead(t);
    EndingParts(t.H(), t.lv, t.root, t.order, t.keys, p, leaf, lo, n, i, bkey);
    NodeInLevel(t.H(), t.lv, t.root, t.order, t.keys, 1, p, leaf);
    NodeIn(t, leaf, 1);
    ghost var w;
    j, w := RemoveFromLeaf(t, leaf, bkey, rec, p, lo, n, i);
    DelBase(old(t.lv), lo + i, lo + j, bkey, w);
    ghost var h1, lv1 := t.H(), t.lv;
    NotRead(t);
    Rebalance(t, leaf, 1, p);
    SettledStructure(h1, t.H(), lv1, t.lv, t.root, t.order, t.keys);
  }

  /** What the position of an entry gives for its deletion. */
  lemma EndingOf(t: BPlusTree, key: string, leaf: Node, i: nat, rec: Record, bkey: Key, p: nat, lo: nat, n: nat)
    requires Valid(t) && t.root != null && EntryAt(t.H(), t.lv, key, leaf, i, rec, bkey, p, lo, n)
    ensures Ending(t.H(), t.lv, t.root, t.order, t.keys, p, leaf, lo, n, i, bkey)
    ensures leaf in t.H() && i < |t.H()[leaf].ps| && t.H()[leaf].ps[i] == ToRecord(rec)
  {
    hide Complete, ContentOK, LeafSeps, Chain, Allocated, KeyCounts, RecordCounts, Sizes;
  }

  /** Where the pointer is taken from, in terms of the content. */
  lemma TakenFrom(h: Heap, lv: seq<Level>, key: string, leaf: Node, i: nat, rec: Record, bkey: Key?, p: nat, lo: nat, n: nat, j: nat)
    requires EntryAt(h, lv, key, leaf, i, rec, bkey, p, lo, n) && ToRecord(rec) in h[leaf].ps && j == FirstOf(h[leaf].ps, ToRecord(rec)) <= i
    ensures lo + i < |lv[0]| && lv[0][lo + j].p == ToRecord(rec) && lv[0][lo + i] == Entry(ToRecord(rec), bkey)
    ensures forall m :: lo <= m < lo + j ==> lv[0][m].p != ToRecord(rec)
  {
    assert lv[0][lo + j] == Entry(h[leaf].ps[j], h[leaf].ks[j]);
    forall m | lo <= m < lo + j ensures lv[0][m].p != ToRecord(rec) {
      assert lv[0][lo + (m - lo)] == Entry(h[leaf].ps[m - lo], h[leaf].ks[m - lo]);
      assert h[leaf].ps[..j][m - lo] != ToRecord(rec);
    }
  }

  lemma ContentRecords(c: Level)
    requires ContentOK(c)
    ensures forall m :: 0 <= m < |c| ==> c[m].p.ToRecord? && c[m].s != null
  {
  }

  /** bptree.c bptree_del, for a key that is in the tree: the key at d leaves the content, the pointer at e, which is the
      leaf's first slot for the record. */
  method Erase(t: BPlusTree, key: string, leaf: Node, rec: Record, bkey: Key, ghost i: nat, ghost p: nat, ghost lo: nat, ghost n: nat)
    returns (ghost j: nat)
    requires Valid(t) && t.root != null && rec in t.recs && EntryAt(t.H(), t.lv, key, leaf, i, rec, bkey, p, lo, n)
    modifies t, t.nodes, Arrays(t.nodes), t.keys`refCount, rec`refCount
    ensures Valid(t) && |t.lv| >= 1 && |old(t.lv)| >= 1 && lo + i < |old(t.lv[0])| && j <= i
    ensures t.lv[0] == RemoveSlots(old(t.lv[0]), lo + i, lo + j)
    ensures leaf in old(t.H()) && ToRecord(rec) in old(t.H())[leaf].ps && j == FirstOf(old(t.H())[leaf].ps, ToRecord(rec))
    ensures t.nodes <= old(t.nodes) && t.keys <= old(t.keys) && forall r :: r in t.recs ==> r in old(t.recs)
  {
    hide *;
    ghost var h, lv, ns := t.H(), t.lv, t.nodes;
    ValidParts(t);
    ContentPart(t);
    SizesIs(t);
    EndingOf(t, key, leaf, i, rec, bkey, p, lo, n);
    assert h[leaf].ps[i] in h[leaf].ps;
    NotRead(t);
    j := DeleteEntry(t, leaf, bkey, rec, p, lo, n, i);
    TakenFrom(h, lv, key, leaf, i, rec, bkey, p, lo, n, j);
    ContentRecords(lv[0]);
    DelRecordCounts(lv[0], lo + i, lo + j, t.recs, rec);
    KeyBytesRemove(lv[0], lo + i, lo + j);
    NodeBytesAdd(t.order, |ns| - |t.nodes|, |t.nodes|);
    SizesIntro(t);
    UnrefRecord(t, rec);
  }

  // ----- The interface -----

  /** In a leaf: no different record lies between the first slot that holds the record of `key` and the slot of `key`. */
  ghost predicate Aligned(v: NodeVal, key: string) {
    forall i :: 0 <= i < |v.ks| && v.ks[i] != null && v.ks[i].key == key && i < |v.ps| ==>
      forall m :: 0 <= m < i && v.ps[i] in v.ps && FirstOf(v.ps, v.ps[i]) <= m ==> v.ps[m] == v.ps[i]
  }

  /** When deleting `key` does what it should: every leaf is aligned. Only the leaf of `key` matters. */
  ghost predicate DelExact(h: Heap, lv: seq<Level>, key: string) {
    |lv| >= 2 ==> forall p :: 0 <= p < |lv[1]| ==> Aligned(V(h, lv[1][p].p), key)
  }

  /** A key string occurs in one leaf slot only. */
  lemma KeyStringOnce(h: Heap, lv: seq<Level>, key: string, leaf: Node, i: nat, rec: Record, bkey: Key?, p: nat, lo: nat, n: nat, q: nat, x: nat)
    requires EntryAt(h, lv, key, leaf, i, rec, bkey, p, lo, n)
    requires LevelOK(h, lv[1], 1) && Expand(h, lv[1]) == lv[0] && ContentOK(lv[0])
    requires q < |lv[1]| && x < |V(h, lv[1][q].p).ks| && V(h, lv[1][q].p).ks[x] != null && V(h, lv[1][q].p).ks[x].key == key
    ensures q == p && x == i
  {
    hide Expand, LevelOK;
    var lo', n' := LeafSlice(h, lv[1], lv[0], q);
    assert lv[0][lo' + x].s.key == lv[0][lo + i].s.key;
    SamePlace(h, lv[1], 1, q, x, p, i);
  }

  lemma ExactHere(h: Heap, lv: seq<Level>, key: string, leaf: Node, i: nat, rec: Record, bkey: Key?, p: nat, lo: nat, n: nat, j: nat)
    requires EntryAt(h, lv, key, leaf, i, rec, bkey, p, lo, n) && ToRecord(rec) in h[leaf].ps && j == FirstOf(h[leaf].ps, ToRecord(rec))
    requires LevelOK(h, lv[1], 1) && Expand(h, lv[1]) == lv[0] && ContentOK(lv[0])
    ensures DelExact(h, lv, key) <==> forall m :: j <= m < i ==> h[leaf].ps[m] == ToRecord(rec)
  {
    hide Expand, LevelOK, ContentOK;
    var good := forall m :: j <= m < i ==> h[leaf].ps[m] == ToRecord(rec);
    var v := V(h, lv[1][p].p);
    if good {
      forall q | 0 <= q < |lv[1]| ensures Aligned(V(h, lv[1][q].p), key) {
        var w := V(h, lv[1][q].p);
        forall x, m | 0 <= x < |w.ks| && w.ks[x] != null && w.ks[x].key == key && x < |w.ps|
                   && 0 <= m < x && w.ps[x] in w.ps && FirstOf(w.ps, w.ps[x]) <= m
          ensures w.ps[m] == w.ps[x]
        {
          KeyStringOnce(h, lv, key, leaf, i, rec, bkey, p, lo, n, q, x);
        }
      }
    }
    if DelExact(h, lv, key) {
      assert Aligned(v, key) && v.ks[i].key == key;
      assert v.ps[i] in v.ps;
    }
  }

  lemma ExactContent(h: Heap, lv: seq<Level>, key: string, leaf: Node, i: nat, rec: Record, bkey: Key?, p: nat, lo: nat, n: nat, j: nat)
    requires EntryAt(h, lv, key, leaf, i, rec, bkey, p, lo, n) && j <= i
    ensures lo + i < |lv[0]| && |h[leaf].ps| > i
    ensures (forall m :: j <= m < i ==> h[leaf].ps[m] == ToRecord(rec)) <==> forall m :: lo + j <= m < lo + i ==> lv[0][m].p == lv[0][lo + i].p
  {
    if forall m :: j <= m < i ==> h[leaf].ps[m] == ToRecord(rec) {
      forall m | lo + j <= m < lo + i ensures lv[0][m].p == lv[0][lo + i].p {
        assert lv[0][lo + (m - lo)] == Entry(h[leaf].ps[m - lo], h[leaf].ks[m - lo]);
      }
    }
    if forall m :: lo + j <= m < lo + i ==> lv[0][m].p == lv[0][lo + i].p {
      forall m | j <= m < i ensures h[leaf].ps[m] == ToRecord(rec) {
        assert lv[0][lo + m] == Entry(h[leaf].ps[m], h[leaf].ks[m]);
      }
    }
  }

  lemma DeletionExact(h: Heap, lv: seq<Level>, root: Node?, order: nat, keys: set<Key>, key: string, leaf: Node, i: nat, rec: Record,
                      bkey: Key?, p: nat, lo: nat, n: nat, j: nat)
    requires root != null && Structure(h, lv, root, order, keys)
    requires EntryAt(h, lv, key, leaf, i, rec, bkey, p, lo, n) && ToRecord(rec) in h[leaf].ps && j == FirstOf(h[leaf].ps, ToRecord(rec)) <= i
    ensures lo + i < |lv[0]| && ContentOK(lv[0]) && ContentOK(RemoveSlots(lv[0], lo + i, lo + j)) && lv[0][lo + i].s.key == key
    ensures AsMap(RemoveSlots(lv[0], lo + i, lo + j)) == AsMap(lv[0]) - {key} <==> DelExact(h, lv, key)
  {
    hide Linked, LevelOK, Parents, Expand, KeysKnown, Covered, Occupied, LeafSeps, Chain, ContentOK, AsMap, DelExact, FirstOf;
    LeafLevelOK(h, lv, root);
    TakenFrom(h, lv, key, leaf, i, rec, bkey, p, lo, n, j);
    RemoveIsDelete(lv[0], lo + i, lo + j);
    ExactContent(h, lv, key, leaf, i, rec, bkey, p, lo, n, j);
    ExactHere(h, lv, key, leaf, i, rec, bkey, p, lo, n, j);
  }

  lemma AbsentKeys(m: map<string, Record>, key: string)
    requires key !in m
    ensures m.Keys == m.Keys - {key}
  {
  }

  /** bptree.c bptree_del. The tree stays valid whatever happens; exactly the key's entry goes if and only if the leaf is
      aligned. */
  method Del(t: BPlusTree, key: string) returns (r: int)
    requires Valid(t)
    modifies t, t.nodes, Arrays(t.nodes), t.keys`refCount, t.recs`refCount
    ensures Valid(t) && r == 0
    ensures key !in old(MapOf(t)) ==> StateOf(t) == old(StateOf(t))
    ensures MapOf(t).Keys == old(MapOf(t)).Keys - {key}
    ensures key in old(MapOf(t)) ==> (MapOf(t) == old(MapOf(t)) - {key} <==> DelExact(old(t.H()), old(t.lv), key))
    ensures t.nodes <= old(t.nodes) && t.keys <= old(t.keys) && forall r :: r in t.recs ==> r in old(t.recs)
  {
    hide *;
    r := 0;
    ghost var h, lv := t.H(), t.lv;
    StateParts(t);
    MapOfIs(t);
    NotRead(t);
    var rec, leaf, i, bkey;
    ghost var p, lo, n;
    rec, leaf, i, bkey, p, lo, n := FindEntry(t, key);
    StateParts(t);
    if rec != null {
      EntryParts(h, lv, key, leaf, i, rec, bkey, p, lo, n);
      ValidParts(t);
      ghost var j;
      ghost var root, order, keys := t.root, t.order, t.keys;
      j := Erase(t, key, leaf, rec, bkey, i, p, lo, n);
      DeletionExact(h, lv, root, order, keys, key, leaf, i, rec, bkey, p, lo, n, j);
      MapOfIs(t);
      KeysRemain(lv[0], lo + i, lo + j);
    } else {
      AbsentKeys(MapOf(t), key);
    }
  }

  /** Whatever happens to the records, exactly the key goes from the keys. */
  lemma KeysRemain(c: Level, d: nat, e: nat)
    requires ContentOK(c) && d < |c| && e < |c| && ContentOK(RemoveSlots(c, d, e))
    ensures AsMap(RemoveSlots(c, d, e)).Keys == AsMap(c).Keys - {c[d].s.key}
  {
    hide AsMap;
    var c' := RemoveSlots(c, d, e);
    forall k | k in AsMap(c') ensures k in AsMap(c).Keys - {c[d].s.key} {
      var x := KeyIndex(c', k);
      RemainingKey(c, d, e, x);
    }
    forall k | k in AsMap(c).Keys - {c[d].s.key} ensures k in AsMap(c') {
      var y := KeyIndex(c, k);
      var m := if y < d then y else y - 1;
      RemainingKey(c, d, e, m);
      InMap(c', m);
    }
  }
}
