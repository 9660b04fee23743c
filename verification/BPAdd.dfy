/** Inserting a key and a record: all or nothing under failing allocations. */
module BPAdd {
  import opened BPTypes
  import opened BPLevels
  import opened BPSlots
  import opened BPSteps
  import opened BPInsertSteps
  import opened BPNodeInsert
  import opened BPTree
  import opened BPInsert
  import opened BPFind
  import opened BPValid
  import opened BPLookup
  import opened BPAlloc
  import opened BPLeafSteps
  import opened BPAddSteps

  // ----- How many nodes a split will take -----

  /** One step from a node towards the root. */
  lemma UpStep(h: Heap, lv: seq<Level>, root: Node?, order: nat, keys: set<Key>, k: nat, i: nat) returns (p: nat)
    requires Whole(h, lv, root, order, keys) && 1 <= k < |lv| && i < |lv[k]|
    ensures NodeOK(h, lv[k][i].p, k)
    ensures k == |lv| - 1 ==> V(h, lv[k][i].p).parent == null
    ensures k < |lv| - 1 ==> p < |lv[k + 1]| && V(h, lv[k][i].p).parent == PNode(lv[k + 1][p].p) && NodeOK(h, lv[k + 1][p].p, k + 1)
  {
    hide LevelOK, Parents, Expand, PtrsOf;
    LinkedAt(h, lv, root, 0, lv[0], k);
    NodeAt(h, lv[k], i, k);
    p := 0;
    if k < |lv| - 1 {
      LinkedAt(h, lv, root, 0, lv[0], k + 1);
      LevelDistinct(h, lv[k], k);
      var j;
      p, j := ParentSlot(h, lv[k + 1], k, lv[k], i);
    } else {
      RootLevel(h, lv, root, 0, lv[0]);
    }
  }

  lemma NodeNumbers(t: BPlusTree, h: Heap, n: Node, k: nat)
    requires Allocated(t.nodes, t.order) && h == t.H() && NodeOK(h, ToNode(n), k)
    ensures n in h && |h[n].ks| == n.numKeys && h[n].parent == n.parent && n.numKeys <= t.order - 1
  {
    hide Separate;
    assert h[n] == n.Val();
    ValOf(n, t.order);
  }

  lemma NeededStep(h: Heap, order: nat, n: Node, k: nat, top: nat)
    requires n in h && |h[n].ks| + 1 == order && (k >= top ==> h[n].parent == null)
    ensures Needed(h, order, n, k, top) == 1 + Needed(h, order, h[n].parent, k + 1, top)
  {
  }

  lemma NeededStop(h: Heap, order: nat, n: Node, k: nat, top: nat)
    requires n in h && |h[n].ks| + 1 != order
    ensures Needed(h, order, n, k, top) == 0
  {
  }

  lemma NeededNull(h: Heap, order: nat, k: nat, top: nat)
    ensures Needed(h, order, null, k, top) == 1
  {
  }

  lemma LeafInNodes(t: BPlusTree, p: nat, leaf: Node)
    requires Whole(t.H(), t.lv, t.root, t.order, t.keys) && |t.lv| >= 2 && p < |t.lv[1]| && t.lv[1][p].p == ToNode(leaf)
    ensures leaf in t.nodes
  {
    hide LevelOK, Parents, Expand, PtrsOf;
    LeafLevelOK(t.H(), t.lv, t.root);
    NodeAt(t.H(), t.lv[1], p, 1);
  }

  lemma WholeOf(t: BPlusTree)
    requires Allocated(t.nodes, t.order) && Complete(t.H(), t.lv, t.root, t.order, t.keys)
    ensures Whole(t.H(), t.lv, t.root, t.order, t.keys) && |t.lv| >= 2 && t.order >= 4
  {
  }

  /** bptree.c _number_of_nodes_needed */
  method NumberOfNodesNeeded(t: BPlusTree, leaf: Node, ghost p: nat) returns (count: nat)
    requires Allocated(t.nodes, t.order) && Complete(t.H(), t.lv, t.root, t.order, t.keys)
    requires |t.lv| >= 2 && p < |t.lv[1]| && t.lv[1][p].p == ToNode(leaf)
    ensures count == Needed(t.H(), t.order, leaf, 1, |t.lv| - 1) && t.H() == old(t.H())
  {
    hide Complete, Whole, Allocated, Needed, Snap, NodeOK;
    WholeOf(t);
    ghost var h, top := t.H(), |t.lv| - 1;
    LeafInNodes(t, p, leaf);
    SnapFacts(t, leaf);
    count := 0;
    var node: Node? := leaf;
    ghost var k, i := 1, p;
    while node != null && node.numKeys == t.order - 1
      invariant forall m :: m in t.nodes ==> m.Val() == h[m]
      invariant 1 <= k <= top + 1 && count <= top + 1
      invariant node != null ==> k <= top && 0 <= i < |t.lv[k]| && t.lv[k][i].p == ToNode(node)
      invariant count + Needed(h, t.order, node, k, top) == Needed(h, t.order, leaf, 1, top)
      invariant count == k - 1
      decreases top + 1 - k
    {
      ghost var q := UpStep(h, t.lv, t.root, t.order, t.keys, k, i);
      SnapSame(t, h);
      NodeNumbers(t, h, node, k);
      NeededStep(h, t.order, node, k, top);
      count := count + 1;
      node := node.parent;
      k, i := k + 1, q;
    }
    if node != null {
      ghost var q := UpStep(h, t.lv, t.root, t.order, t.keys, k, i);
      SnapSame(t, h);
      NodeNumbers(t, h, node, k);
      NeededStop(h, t.order, node, k, top);
    } else {
      NeededNull(h, t.order, k, top);
      count := count + 1;
    }
    SnapSame(t, h);
  }

  // ----- Splitting a full leaf -----

  /** A place for a new key: the leaf that covers it, in a tree that does not hold it. */
  ghost predicate Place(h: Heap, lv: seq<Level>, root: Node?, order: nat, keys: set<Key>, p: nat, leaf: Node, bk: Key,
                        lo: nat, n: nat) {
    && root != null && Structure(h, lv, root, order, keys) && StandsAt(h, lv, 1, p, leaf, bk.key)
    && Locates(h, lv, p, bk.key, lo, n)
    && forall m :: 0 <= m < |lv[0]| ==> lv[0][m].s.key != bk.key
  }

  /** The slot work of a leaf split. */
  method CutLeafNode(t: BPlusTree, ghost h: Heap, leaf: Node, w: Node, bkey: Key, rec: Record)
    returns (sep: Key, ghost at: nat)
    requires Allocated(t.nodes, t.order) && t.order >= 4 && leaf in t.nodes && w in t.nodes && leaf != w
    requires h.Keys == t.nodes && h[leaf] == leaf.Val() && null !in h[leaf].ks && h[leaf].level == 1
    requires t.H() == h[w := NodeVal(false, [], [Null], Null, null, 1)]
    requires leaf.Shape(t.order) && leaf.isLeaf && leaf.numKeys == t.order - 1 && w.Shape(t.order) && w.level == 1
    modifies leaf, leaf.bkeys, leaf.pointers, w, w.bkeys, w.pointers, bkey`refCount, rec`refCount
    ensures IsInsertionPoint(h[leaf].ks, bkey.key, at)
    ensures var c := Cut(t.order - 1);
      && LeafCut(h, t.H(), leaf, w, at, bkey, rec, c) && sep == Insert(h[leaf].ks, at, bkey)[c - 1] && |h[leaf].ks| == t.order - 1
    ensures t.H()[leaf].parent == leaf.parent
    ensures bkey.refCount == old(bkey.refCount) + 1 && rec.refCount == old(rec.refCount) + 1
  {
    hide *;
    SnapFacts(t, leaf);
    SnapFacts(t, w);
    LeafCounts(t.order, leaf);
    ParentOf(t, leaf);
    ghost var c := Cut(t.order - 1);
    CutInRange(t.order - 1 + 1);
    at := SplitLeaf(t.order, leaf, w, bkey, rec);
    CutResult(t, h, leaf, w, at, bkey, rec, c);
    sep := leaf.bkeys[leaf.numKeys - 1];
    ParentOf(t, leaf);
  }

  lemma LeafCounts(order: nat, leaf: Node)
    requires leaf.Shape(order) && leaf.isLeaf && order >= 4
    ensures |leaf.Val().ks| == leaf.numKeys && |leaf.Val().ps| == leaf.numKeys
  {
    ValOf(leaf, order);
  }

  lemma CutResult(t: BPlusTree, h: Heap, leaf: Node, w: Node, at: nat, bkey: Key, rec: Record, c: nat)
    requires Allocated(t.nodes, t.order) && h.Keys == t.nodes && leaf in t.nodes && w in t.nodes && leaf != w
    requires leaf.Shape(t.order) && leaf.isLeaf && t.order >= 4 && c == Cut(t.order - 1)
    requires |h[leaf].ks| == |h[leaf].ps| == t.order - 1 && IsInsertionPoint(h[leaf].ks, bkey.key, at)
    requires forall m :: m in t.nodes && m != leaf && m != w ==> m.Val() == h[m]
    requires leaf.Val() == h[leaf].(ks := Insert(h[leaf].ks, at, bkey)[..c], ps := Insert(h[leaf].ps, at, ToRecord(rec))[..c],
                                    next := ToNode(w))
    requires w.Val() == NodeVal(true, Insert(h[leaf].ks, at, bkey)[c..], Insert(h[leaf].ps, at, ToRecord(rec))[c..],
                                h[leaf].next, h[leaf].parent, 1)
    ensures LeafCut(h, t.H(), leaf, w, at, bkey, rec, c)
    ensures leaf.numKeys == c && c > 0 && leaf.bkeys.Length >= c && leaf.bkeys[c - 1] == Insert(h[leaf].ks, at, bkey)[c - 1]
    ensures leaf.bkeys[c - 1] != null
  {
    hide Separate;
    Changed2(t, h, leaf, w, h[leaf := leaf.Val()][w := w.Val()]);
    ValOf(leaf, t.order);
    var ks := Insert(h[leaf].ks, at, bkey);
    assert leaf.bkeys[c - 1] == leaf.Val().ks[c - 1] == ks[c - 1];
    assert ks[c - 1] == if c - 1 < at then h[leaf].ks[c - 1] else if c - 1 == at then bkey else h[leaf].ks[c - 2];
  }

  /** After the cut: the parent level is pending, the supply is one short, and leaves and content are in order. */
  lemma AfterCut(h0: Heap, h: Heap, h1: Heap, lv: seq<Level>, lv': seq<Level>, root: Node?, order: nat, keys: set<Key>,
                 fl: seq<Node>, p: nat, leaf: Node, w: Node, lo: nat, n: nat, at: nat, bk: Key, rec: Record, c: nat, sep: Key)
    requires leaf in h0 && leaf in h && h[leaf] == h0[leaf] && |h0[leaf].ks| == order - 1 && at <= |h[leaf].ks| && 0 < c <= |h[leaf].ks|
    requires sep == Insert(h[leaf].ks, at, bk)[c - 1]
    requires |lv| >= 2 && p < |lv[1]| && lo + at <= |lv[0]|
    requires lv' == SplitLevels(h, lv, p, lo + at, leaf, w, at, bk, rec, c)
    requires |fl| == Needed(h0, order, leaf, 1, |lv| - 1) && fl != [] && w == fl[0] && c == Cut(order - 1)
    requires Place(h0, lv, root, order, keys, p, leaf, bk, lo, n) && ListMade(h0, h, fl)
    requires IsInsertionPoint(h0[leaf].ks, bk.key, at) && LeafCut(h, h1, leaf, w, at, bk, rec, c)
    ensures Pending(h1, lv', root, order, keys + {bk}, 1, lv[1], p, leaf, sep, w)
    ensures leaf in h1 && Supply(h1, order, fl[1..], h1[leaf].parent, 2, |lv'| - 1)
    ensures Leaves(h1, lv'[1]) && ContentOK(lv'[0])
  {
    hide Linked, LevelOK, Parents, Expand, PtrsOf, Covered, Occupied, KeysKnown, Leaves, ContentOK, LeafSeps, Chain, Locates,
         StandsAt, NodeList, IsInsertionPoint, Pending, LeafCut, SplitLevels, Needed;
    WholeExtends(h0, h, lv, root, order, keys, fl);
    PlaceExtends(h0, h, lv, root, order, keys, p, leaf, bk, lo, n, at);
    ListFirst(h0, h, fl);
    CutBounds(h, h1, leaf, w, at, bk, rec, c);
    CutPending(h, h1, lv, lv', root, order, keys, p, leaf, w, lo, n, at, bk, rec, c, fl);
    CutLeaves(h, h1, lv, lv', p, leaf, w, lo + at, at, bk, rec, c);
    InsertContent(h, lv, p, bk.key, lo, n, at, Entry(ToRecord(rec), bk));
    SplitContent(h, lv, lv', p, lo + at, leaf, w, at, bk, rec, c);
    CutSupply(h0, h, h1, lv, lv', root, order, keys, fl, p, leaf, w, at, bk, rec, c);
  }

  lemma CutBounds(h: Heap, h1: Heap, u: Node, w: Node, at: nat, bk: Key, rec: Record, c: nat)
    requires LeafCut(h, h1, u, w, at, bk, rec, c)
    ensures u in h && at <= |h[u].ks| && 0 < c <= |h[u].ks|
  {
  }

  lemma ListFirst(h0: Heap, h: Heap, fl: seq<Node>)
    requires ListMade(h0, h, fl) && fl != []
    ensures fl[0] in h && h[fl[0]].level == 0
  {
  }

  lemma SplitContent(h: Heap, lv: seq<Level>, lv': seq<Level>, p: nat, d: nat, u: Node, w: Node, at: nat, bk: Key, rec: Record, c: nat)
    requires |lv| >= 2 && p < |lv[1]| && d <= |lv[0]| && u in h && at <= |h[u].ks| && 0 < c <= |h[u].ks|
    requires lv' == SplitLevels(h, lv, p, d, u, w, at, bk, rec, c)
    ensures lv'[0] == Insert(lv[0], d, Entry(ToRecord(rec), bk)) && |lv'| == |lv|
    ensures lv'[1] == Splice(lv[1], p, 1, [Entry(ToNode(u), Insert(h[u].ks, at, bk)[c - 1]), Entry(ToNode(w), lv[1][p].s)])
  {
  }

  /** The facts about the place, in the heap that also holds the list. */
  lemma PlaceExtends(h0: Heap, h: Heap, lv: seq<Level>, root: Node?, order: nat, keys: set<Key>, p: nat,
                     leaf: Node, bk: Key, lo: nat, n: nat, at: nat)
    requires Place(h0, lv, root, order, keys, p, leaf, bk, lo, n) && Extends(h0, h) && Whole(h, lv, root, order, keys)
    requires leaf in h0 && IsInsertionPoint(h0[leaf].ks, bk.key, at)
    ensures |lv| >= 2 && p < |lv[1]| && lv[1][p].p == ToNode(leaf) && StandsAt(h, lv, 1, p, leaf, bk.key)
    ensures Locates(h, lv, p, bk.key, lo, n) && Leaves(h, lv[1])
    ensures LevelOK(h, lv[1], 1) && h[leaf].level == 1 && (at == |h[leaf].ks| ==> lv[1][p].s == null)
    ensures IsInsertionPoint(V(h, lv[1][p].p).ks, bk.key, at)
  {
    hide Linked, Parents, PtrsOf, Covered, Occupied, KeysKnown, LevelOK, Expand, Leaves, Locates, IsInsertionPoint, Covers,
         LeafSeps, Chain, ContentOK;
    LeafLevelOK(h0, lv, root);
    LeafLevelOK(h, lv, root);
    SameOn(h0, h, lv[1], 1);
    LeavesIs(h0, lv[1]);
    LeavesSame(h0, h, lv[1]);
    LocatesSame(h0, h, lv, p, bk.key, lo, n);
    AtEnd(h0, lv, p, bk.key, lo, n, at);
    LocatesAt(h0, lv, p, bk.key, lo, n);
  }

  lemma LocatesSame(h0: Heap, h: Heap, lv: seq<Level>, p: nat, key: string, lo: nat, n: nat)
    requires Locates(h0, lv, p, key, lo, n)
    requires forall i :: 0 <= i < |lv[1]| ==> V(h, lv[1][i].p) == V(h0, lv[1][i].p)
    ensures Locates(h, lv, p, key, lo, n)
  {
    hide Expand, ContentOK;
    ExpandSamePrefix(h0, h, lv[1], p);
  }

  lemma SameOn(h0: Heap, h: Heap, l: Level, k: nat)
    requires Extends(h0, h) && LevelOK(h0, l, k)
    ensures forall i :: 0 <= i < |l| ==> V(h, l[i].p) == V(h0, l[i].p)
  {
    forall i | 0 <= i < |l| ensures V(h, l[i].p) == V(h0, l[i].p) {
      assert NodeOK(h0, l[i].p, k);
    }
  }

  lemma ExpandSamePrefix(h0: Heap, h: Heap, l: Level, p: nat)
    requires p <= |l| && forall i :: 0 <= i < |l| ==> V(h, l[i].p) == V(h0, l[i].p)
    ensures Expand(h, l[..p]) == Expand(h0, l[..p])
  {
    forall i | 0 <= i < |l[..p]|
      ensures V(h0, l[..p][i].p).ks == V(h, l[..p][i].p).ks && V(h0, l[..p][i].p).ps == V(h, l[..p][i].p).ps
    {
      assert l[..p][i] == l[i];
    }
    ExpandFrame(h0, h, l[..p]);
  }

  lemma CutSupply(h0: Heap, h: Heap, h1: Heap, lv: seq<Level>, lv': seq<Level>, root: Node?, order: nat, keys: set<Key>,
                  fl: seq<Node>, p: nat, u: Node, w: Node, at: nat, bk: Key, rec: Record, c: nat)
    requires Complete(h0, lv, root, order, keys) && Whole(h, lv, root, order, keys) && ListMade(h0, h, fl) && Extends(h0, h)
    requires |fl| == Needed(h0, order, u, 1, |lv| - 1) && fl != [] && w == fl[0]
    requires u in h0 && h[u] == h0[u] && |h0[u].ks| == order - 1 && h[u].level == 1
    requires LeafCut(h, h1, u, w, at, bk, rec, c) && |lv'| == |lv| >= 2 && p < |lv[1]| && lv[1][p].p == ToNode(u)
    ensures u in h1 && Supply(h1, order, fl[1..], h1[u].parent, 2, |lv'| - 1)
  {
    hide Linked, LevelOK, Parents, Expand, PtrsOf, Covered, Occupied, KeysKnown;
    LeafListTail(h0, h, h1, fl, u, w, at, bk, rec, c);
    var q := UpStep(h, lv, root, order, keys, 1, p);
    if |lv| > 2 {
      assert lv[2][q] in lv[2];
      NeededFrame(h0, h1, lv, root, 0, lv[0], order, 2, h[u].parent);
    }
  }

  lemma LeafListTail(h0: Heap, h: Heap, h1: Heap, fl: seq<Node>, u: Node, w: Node, at: nat, bk: Key, rec: Record, c: nat)
    requires ListMade(h0, h, fl) && fl != [] && w == fl[0] && LeafCut(h, h1, u, w, at, bk, rec, c) && u in h0
    requires forall n :: n in h0 ==> h0[n].level > 0
    ensures NodeList(h1, fl[1..])
    ensures forall n :: n in h1 && h1[n].level == 0 ==> n in fl[1..]
  {
    forall m | 0 <= m < |fl[1..]|
      ensures fl[1..][m] in h1 && h1[fl[1..][m]] == NodeVal(false, [], [NextInList(fl[1..], m)], Null, null, 0)
    {
      assert fl[1..][m] == fl[m + 1] && NextInList(fl, m + 1) == NextInList(fl[1..], m);
      assert fl[0] != fl[m + 1] && fl[m + 1] in fl;
    }
    forall n | n in h1 && h1[n].level == 0 ensures n in fl[1..] {
      assert n in h && n != fl[0] && n in fl;
      var m :| 0 <= m < |fl| && fl[m] == n;
      assert fl[1..][m - 1] == n;
    }
  }

  /** The tree after a successful insertion at content position d. */
  ghost predicate Inserted(h: Heap, lv: seq<Level>, lv': seq<Level>, root: Node?, order: nat, keys: set<Key>, bk: Key,
                           rec: Record, d: nat) {
    && Structure(h, lv', root, order, keys + {bk})
    && |lv| >= 1 && d <= |lv[0]| && lv'[0] == Insert(lv[0], d, Entry(ToRecord(rec), bk))
  }

  /** The leaf has been split at content position d and its parent does not know yet. */
  ghost predicate LeafSplit(h: Heap, lv: seq<Level>, lv': seq<Level>, root: Node?, order: nat, keys: set<Key>, p: nat, leaf: Node,
                            sep: Key, w: Node, d: nat, bk: Key, rec: Record) {
    && |lv| >= 2 && p < |lv[1]| && d <= |lv[0]|
    && lv' == lv[0 := Insert(lv[0], d, Entry(ToRecord(rec), bk))]
                [1 := Splice(lv[1], p, 1, [Entry(ToNode(leaf), sep), Entry(ToNode(w), lv[1][p].s)])]
    && Leaves(h, lv'[1]) && ContentOK(lv'[0]) && LevelOK(h, lv'[1], 1)
    && Pending(h, lv', root, order, keys + {bk}, 1, lv[1], p, leaf, sep, w)
  }

  lemma LeafSplitIntro(h: Heap, h1: Heap, lv: seq<Level>, lv': seq<Level>, root: Node?, order: nat, keys: set<Key>, p: nat, leaf: Node,
                       sep: Key, w: Node, d: nat, at: nat, bk: Key, rec: Record, c: nat)
    requires |lv| >= 2 && p < |lv[1]| && d <= |lv[0]| && leaf in h && at <= |h[leaf].ks| && 0 < c <= |h[leaf].ks|
    requires lv' == SplitLevels(h, lv, p, d, leaf, w, at, bk, rec, c) && sep == Insert(h[leaf].ks, at, bk)[c - 1]
    requires Leaves(h1, lv'[1]) && ContentOK(lv'[0])
    requires Pending(h1, lv', root, order, keys + {bk}, 1, lv[1], p, leaf, sep, w)
    ensures LeafSplit(h1, lv, lv', root, order, keys, p, leaf, sep, w, d, bk, rec)
  {
    hide Leaves, ContentOK, Pending, LevelOK, Insert;
    PendingLevelOK(h1, lv', root, order, keys + {bk}, 1, lv[1], p, leaf, sep, w);
  }

  /** The leaf's part of a split: everything up to telling the parent. */
  method SplitFullLeaf(t: BPlusTree, w: Node, ghost fl: seq<Node>, leaf: Node, bkey: Key, rec: Record,
                       ghost h0: Heap, ghost p: nat, ghost lo: nat, ghost n: nat)
    returns (rest: Node?, sep: Key, ghost d: nat)
    requires Allocated(t.nodes, t.order) && ListMade(h0, t.H(), fl) && fl != [] && w == fl[0]
    requires Place(h0, t.lv, t.root, t.order, t.keys, p, leaf, bkey, lo, n)
    requires leaf in h0 && leaf.Shape(t.order) && leaf.isLeaf && leaf.numKeys == t.order - 1
    requires |t.lv| >= 1 && |fl| == Needed(h0, t.order, leaf, 1, |t.lv| - 1)
    modifies t`lv, t`keys, t.nodes, Arrays(t.nodes), bkey`refCount, rec`refCount
    ensures rest == Head(fl[1..])
    ensures LeafSplit(t.H(), old(t.lv), t.lv, t.root, t.order, old(t.keys), p, leaf, sep, w, d, bkey, rec)
    ensures Supply(t.H(), t.order, fl[1..], leaf.parent, 2, |t.lv| - 1)
    ensures t.keys == old(t.keys) + {bkey} && bkey.refCount == old(bkey.refCount) + 1 && rec.refCount == old(rec.refCount) + 1
  {
    hide *;
    ghost var h, lv := t.H(), t.lv;
    BeforeCut(t, h0, fl, leaf, bkey, p, lo, n);
    NotRead(t);
    rest := GetNodeFromList(t, w, fl, 1);
    ghost var at;
    SnapFacts(t, leaf);
    sep, at := CutLeafNode(t, h, leaf, w, bkey, rec);
    ghost var h1, c := t.H(), Cut(t.order - 1);
    CutBounds(h, h1, leaf, w, at, bkey, rec, c);
    LocatesBound(h0, h, lv, p, leaf, bkey.key, lo, n, at);
    d := lo + at;
    t.keys := t.keys + {bkey};
    t.lv := SplitLevels(h, lv, p, d, leaf, w, at, bkey, rec, c);
    assert t.H() == h1;
    AfterCut(h0, h, h1, lv, t.lv, t.root, t.order, old(t.keys), fl, p, leaf, w, lo, n, at, bkey, rec, c, sep);
    LeafSplitIntro(h, h1, lv, t.lv, t.root, t.order, old(t.keys), p, leaf, sep, w, d, at, bkey, rec, c);
  }

  /** bptree.c _insert_into_leaf_after_splitting */
  method InsertIntoLeafAfterSplitting(t: BPlusTree, nodeList: Node, ghost fl: seq<Node>, leaf: Node, bkey: Key, rec: Record,
                                      ghost h0: Heap, ghost p: nat, ghost lo: nat, ghost n: nat)
    returns (rest: Node?, ghost d: nat)
    requires Allocated(t.nodes, t.order) && ListMade(h0, t.H(), fl) && fl != [] && nodeList == fl[0]
    requires Place(h0, t.lv, t.root, t.order, t.keys, p, leaf, bkey, lo, n)
    requires leaf in h0 && leaf.Shape(t.order) && leaf.isLeaf && leaf.numKeys == t.order - 1
    requires |t.lv| >= 1 && |fl| == Needed(h0, t.order, leaf, 1, |t.lv| - 1)
    requires KeyCounts(t.lv, t.keys) && bkey !in t.keys && bkey.refCount == 0
    modifies t`root, t`lv, t`metaSize, t`keys, t.nodes, Arrays(t.nodes), t.keys`refCount, bkey`refCount, rec`refCount
    ensures rest == null
    ensures Inserted(t.H(), old(t.lv), t.lv, t.root, t.order, old(t.keys), bkey, rec, d) && t.keys == old(t.keys) + {bkey}
    ensures KeyCounts(t.lv, t.keys)
    ensures rec.refCount == old(rec.refCount) + 1 && t.metaSize == old(t.metaSize) && t.nodes == old(t.nodes)
  {
    hide *;
    ghost var lv := t.lv;
    KeysPositive(lv, t.keys);
    PlaceSeps(h0, lv, t.root, t.order, t.keys, p, leaf, bkey, lo, n);
    NotRead(t);
    var sep;
    rest, sep, d := SplitFullLeaf(t, nodeList, fl, leaf, bkey, rec, h0, p, lo, n);
    ghost var h1, lv1 := t.H(), t.lv;
    SplitPendingFacts(h1, lv, lv1, t.root, t.order, old(t.keys), p, leaf, sep, nodeList, d, bkey, rec);
    rest := InsertIntoParent(t, rest, fl[1..], leaf, sep, nodeList, 1, lv[1], p);
    AfterParent(h1, t.H(), lv, lv1, t.lv, t.root, old(t.root), t.order, old(t.keys), p, leaf, nodeList, d, bkey, sep, rec);
    CountsAfterSplit(lv, t.lv, old(t.keys), t.keys, bkey, sep, d, rec);
  }

  lemma SplitPendingFacts(h: Heap, lv: seq<Level>, lv': seq<Level>, root: Node?, order: nat, keys: set<Key>, p: nat, leaf: Node,
                          sep: Key, w: Node, d: nat, bk: Key, rec: Record)
    requires LeafSplit(h, lv, lv', root, order, keys, p, leaf, sep, w, d, bk, rec)
    ensures |lv| >= 2 && Pending(h, lv', root, order, keys + {bk}, 1, lv[1], p, leaf, sep, w) && sep in keys + {bk}
    ensures d <= |lv[0]| && |lv'| >= 1 && lv'[0] == Insert(lv[0], d, Entry(ToRecord(rec), bk))
  {
    hide Linked, LevelOK, IsSplit, Occupied, KeysKnown, Covered, Leaves, ContentOK;
  }

  lemma KeysPositive(lv: seq<Level>, keys: set<Key>)
    requires KeyCounts(lv, keys)
    ensures forall q :: q in keys ==> q.refCount >= 1
    ensures forall q :: q in keys ==> q.refCount == if q in Seps(lv) then 2 else 1
    ensures |lv| >= 1 && keys == KeysOf(lv[0])
  {
  }

  lemma PlaceSeps(h: Heap, lv: seq<Level>, root: Node?, order: nat, keys: set<Key>, p: nat, leaf: Node, bk: Key, lo: nat, n: nat)
    requires Place(h, lv, root, order, keys, p, leaf, bk, lo, n)
    ensures |lv| >= 2 && Seps(lv) <= KeysOf(lv[0])
  {
    hide Linked, Parents, Expand, PtrsOf, Covered, Occupied, KeysKnown, LeafSeps, Chain, ContentOK, LevelOK, Seps, KeysOf, Locates;
    LeafLevelOK(h, lv, root);
    SepsAreKeys(h, lv);
  }

  lemma PendingLevelOK(h: Heap, lv: seq<Level>, root: Node?, order: nat, keys: set<Key>, k: nat, x: Level, i: nat,
                       left: Node, bk: Key, right: Node)
    requires Pending(h, lv, root, order, keys, k, x, i, left, bk, right)
    ensures |lv| >= 2 && k < |lv| && LevelOK(h, lv[k], k)
  {
    hide LevelOK, Linked, IsSplit, Occupied, KeysKnown, Covered;
    LinkedAt(h, lv, root, k, x, k);
  }

  lemma BeforeCut(t: BPlusTree, h0: Heap, fl: seq<Node>, leaf: Node, bk: Key, p: nat, lo: nat, n: nat)
    requires Allocated(t.nodes, t.order) && ListMade(h0, t.H(), fl) && fl != []
    requires Place(h0, t.lv, t.root, t.order, t.keys, p, leaf, bk, lo, n)
    requires leaf in h0 && leaf.Shape(t.order) && leaf.isLeaf && leaf.numKeys == t.order - 1
    ensures t.H().Keys == t.nodes && fl[0] in t.nodes && Head(fl) == fl[0] && NodeList(t.H(), fl) && leaf in t.nodes
    ensures leaf != fl[0] && t.H()[leaf] == leaf.Val() && h0[leaf] == t.H()[leaf] && null !in leaf.Val().ks && leaf.Val().level == 1
    ensures t.order >= 4 && |t.lv| >= 2 && p < |t.lv[1]| && t.lv[1][p].p == ToNode(leaf) && |leaf.Val().ks| == t.order - 1
    ensures fl[0].bkeys in Arrays(t.nodes) && fl[0].pointers in Arrays(t.nodes)
    ensures leaf.bkeys in Arrays(t.nodes) && leaf.pointers in Arrays(t.nodes)
    ensures Locates(h0, t.lv, p, bk.key, lo, n)
  {
    hide Structure, Locates, NodeList, Separate;
    ListIsZero(h0, t.H(), fl);
    assert t.H()[leaf] == leaf.Val();
    ValOf(leaf, t.order);
    ListParts(h0, t.H(), fl);
  }

  lemma ListParts(h0: Heap, h: Heap, fl: seq<Node>)
    requires ListMade(h0, h, fl) && fl != []
    ensures NodeList(h, fl) && fl[0] in h && fl[0] !in h0
  {
    assert fl[0] in fl;
  }

  lemma LocatesBound(h0: Heap, h: Heap, lv: seq<Level>, p: nat, leaf: Node, key: string, lo: nat, n: nat, at: nat)
    requires Locates(h0, lv, p, key, lo, n) && leaf in h0 && leaf in h && h[leaf] == h0[leaf] && lv[1][p].p == ToNode(leaf)
    requires at <= |h[leaf].ks|
    ensures lo + at <= |lv[0]|
  {
  }

  /** The split has reached the top: the tree is whole, with the leaves and the content as the leaf split left them. */
  lemma AfterParent(h1: Heap, h2: Heap, lv: seq<Level>, lv1: seq<Level>, lv2: seq<Level>, root: Node?, root1: Node?, order: nat,
                    keys: set<Key>, p: nat, leaf: Node, w: Node, d: nat, bk: Key, sep: Key, rec: Record)
    requires Outcome(h1, h2, lv1, lv2, root, order, keys + {bk}, 1)
    requires LeafSplit(h1, lv, lv1, root1, order, keys, p, leaf, sep, w, d, bk, rec)
    ensures Inserted(h2, lv, lv2, root, order, keys, bk, rec, d)
    ensures |lv2| >= 2 && Seps(lv2) == Seps(lv) + {sep} && sep !in Seps(lv)
    ensures lv2[0] == Insert(lv[0], d, Entry(ToRecord(rec), bk))
  {
    hide Linked, Parents, Expand, PtrsOf, Covered, Occupied, KeysKnown, LeafSeps, Chain, ContentOK, LevelOK, Seps, Pending;
    assert lv2[0] == lv2[..2][0] == lv1[..2][0] == lv1[0];
    assert lv2[1] == lv2[..2][1] == lv1[..2][1] == lv1[1];
    BelowSame(h1, h2, lv1[1]);
    LeavesIs(h1, lv1[1]);
    LeavesSame(h1, h2, lv1[1]);
    LeavesIs(h2, lv2[1]);
    LeafLevelOK(h2, lv2, root);
    SepsSplit(h2, lv, lv2, p, ToNode(leaf), sep, ToNode(w));
  }

  lemma BelowSame(h1: Heap, h2: Heap, l: Level)
    requires Below(h1, h2, 1) && LevelOK(h1, l, 1)
    ensures forall i :: 0 <= i < |l| ==> V(h2, l[i].p).ks == V(h1, l[i].p).ks && V(h2, l[i].p).next == V(h1, l[i].p).next
  {
    forall i | 0 <= i < |l| ensures V(h2, l[i].p).ks == V(h1, l[i].p).ks && V(h2, l[i].p).next == V(h1, l[i].p).next {
      assert NodeOK(h1, l[i].p, 1);
    }
  }

  lemma CountsAfterSplit(lv: seq<Level>, lv': seq<Level>, keys: set<Key>, keys': set<Key>, bk: Key, sep: Key, d: nat, rec: Record)
    requires |lv| >= 1 && |lv'| >= 1 && keys == KeysOf(lv[0]) && keys' == keys + {bk} && bk !in keys
    requires d <= |lv[0]| && lv'[0] == Insert(lv[0], d, Entry(ToRecord(rec), bk))
    requires Seps(lv') == Seps(lv) + {sep} && sep !in Seps(lv) && Seps(lv) <= keys
    requires forall q :: q in keys' ==>
      q.refCount == (if q == bk then 1 else if q in Seps(lv) then 2 else 1) + (if q == sep then 1 else 0)
    ensures KeyCounts(lv', keys')
  {
    KeysOfInsert(lv[0], d, Entry(ToRecord(rec), bk));
  }

  // ----- The leaf has room -----

  /** bptree.c _insert, the case of a leaf with room */
  method InsertIntoRoomyLeaf(t: BPlusTree, leaf: Node, bkey: Key, rec: Record, ghost p: nat, ghost lo: nat, ghost n: nat)
    returns (ghost d: nat)
    requires Allocated(t.nodes, t.order) && Place(t.H(), t.lv, t.root, t.order, t.keys, p, leaf, bkey, lo, n)
    requires leaf in t.nodes && leaf.Shape(t.order) && leaf.isLeaf && leaf.numKeys < t.order - 1
    requires KeyCounts(t.lv, t.keys) && bkey !in t.keys && bkey.refCount == 0
    modifies t`lv, t`keys, leaf, leaf.bkeys, leaf.pointers, bkey`refCount, rec`refCount
    ensures Inserted(t.H(), old(t.lv), t.lv, t.root, t.order, old(t.keys), bkey, rec, d) && t.keys == old(t.keys) + {bkey}
    ensures KeyCounts(t.lv, t.keys)
    ensures rec.refCount == old(rec.refCount) + 1 && t.metaSize == old(t.metaSize) && t.nodes == old(t.nodes)
  {
    hide *;
    ghost var h, lv := t.H(), t.lv;
    SnapFacts(t, leaf);
    NotRead(t);
    LeafOfPlace(h, lv, t.root, t.order, t.keys, p, leaf, bkey, lo, n);
    KeysPositive(lv, t.keys);
    PlaceSeps(h, lv, t.root, t.order, t.keys, p, leaf, bkey, lo, n);
    var at := InsertIntoLeaf(t.order, leaf, bkey, rec);
    AtInRange(h[leaf].ks, bkey.key, at);
    ghost var h1 := h[leaf := h[leaf].(ks := Insert(h[leaf].ks, at, bkey), ps := Insert(h[leaf].ps, at, ToRecord(rec)))];
    Changed(t, h, leaf, h1[leaf]);
    LocatesBound(h, h, lv, p, leaf, bkey.key, lo, n, at);
    d := lo + at;
    t.keys := t.keys + {bkey};
    t.lv := lv[0 := Insert(lv[0], d, Entry(ToRecord(rec), bkey))];
    assert t.H() == h1;
    RoomInserted(h, h1, lv, t.lv, t.root, t.order, old(t.keys), p, leaf, lo, n, at, bkey, rec);
    CountsAfterRoom(lv, t.lv, old(t.keys), t.keys, bkey, d, rec);
  }

  lemma LeafOfPlace(h: Heap, lv: seq<Level>, root: Node?, order: nat, keys: set<Key>, p: nat, leaf: Node, bk: Key, lo: nat, n: nat)
    requires Place(h, lv, root, order, keys, p, leaf, bk, lo, n)
    ensures leaf in h && |lv| >= 2 && p < |lv[1]| && lv[1][p].p == ToNode(leaf) && null !in h[leaf].ks
    ensures |h[leaf].ps| == |h[leaf].ks|
    ensures Locates(h, lv, p, bk.key, lo, n)
  {
    hide Structure, Locates;
  }

  lemma RoomInserted(h: Heap, h': Heap, lv: seq<Level>, lv': seq<Level>, root: Node?, order: nat, keys: set<Key>, p: nat,
                     u: Node, lo: nat, n: nat, at: nat, bk: Key, rec: Record)
    requires Place(h, lv, root, order, keys, p, u, bk, lo, n) && u in h && IsInsertionPoint(h[u].ks, bk.key, at)
    requires |lv| >= 2 && lo + at <= |lv[0]|
    requires h' == h[u := h[u].(ks := Insert(h[u].ks, at, bk), ps := Insert(h[u].ps, at, ToRecord(rec)))]
    requires lv' == lv[0 := Insert(lv[0], lo + at, Entry(ToRecord(rec), bk))]
    ensures Inserted(h', lv, lv', root, order, keys, bk, rec, lo + at)
    ensures Seps(lv') == Seps(lv)
  {
    hide Structure, Locates, Covers, IsInsertionPoint;
    FitsStructure(h, h', lv, root, order, keys, p, u, lo, n, at, bk, rec);
  }

  lemma CountsAfterRoom(lv: seq<Level>, lv': seq<Level>, keys: set<Key>, keys': set<Key>, bk: Key, d: nat, rec: Record)
    requires |lv| >= 1 && |lv'| >= 1 && keys == KeysOf(lv[0]) && keys' == keys + {bk} && bk !in keys
    requires d <= |lv[0]| && lv'[0] == Insert(lv[0], d, Entry(ToRecord(rec), bk))
    requires Seps(lv') == Seps(lv) && Seps(lv) <= keys
    requires forall q :: q in keys' ==> q.refCount == if q == bk then 1 else if q in Seps(lv) then 2 else 1
    ensures KeyCounts(lv', keys')
  {
    KeysOfInsert(lv[0], d, Entry(ToRecord(rec), bk));
  }

  // ----- Insertion -----

  /** bptree.c _insert: either the key and the record are in, or nothing changed. */
  method DoInsert(t: BPlusTree, bkey: Key, rec: Record) returns (r: int, ghost d: nat)
    requires Allocated(t.nodes, t.order) && t.root != null && Structure(t.H(), t.lv, t.root, t.order, t.keys) && |t.lv| >= 1
    requires forall m :: 0 <= m < |t.lv[0]| ==> t.lv[0][m].s != null && t.lv[0][m].s.key != bkey.key
    requires KeyCounts(t.lv, t.keys) && bkey !in t.keys && bkey.refCount == 0
    modifies t`root, t`lv, t`metaSize, t`keys, t`nodes, t.nodes, Arrays(t.nodes), t.keys`refCount, bkey`refCount, rec`refCount
    ensures r == 0 || r == -1
    ensures Allocated(t.nodes, t.order)
    ensures r == -1 ==>
      && t.root == old(t.root) && t.lv == old(t.lv) && t.metaSize == old(t.metaSize) && t.keys == old(t.keys)
      && t.nodes == old(t.nodes) && t.H() == old(t.H())
      && bkey.refCount == 0 && rec.refCount == old(rec.refCount) && KeyCounts(t.lv, t.keys)
    ensures r == 0 ==>
      && Inserted(t.H(), old(t.lv), t.lv, t.root, t.order, old(t.keys), bkey, rec, d) && t.keys == old(t.keys) + {bkey}
      && KeyCounts(t.lv, t.keys) && rec.refCount == old(rec.refCount) + 1
      && |t.nodes| >= |old(t.nodes)| && t.order >= 4
      && t.metaSize == old(t.metaSize) + NodeBytes(t.order, |t.nodes| - |old(t.nodes)|)
    ensures forall n :: n in t.nodes ==> n in old(t.nodes) || (fresh(n) && fresh(n.bkeys) && fresh(n.pointers))
  {
    hide *;
    ghost var h0 := t.H();
    d := 0;
    StructureParts(t);
    var leaf, p := FindLeaf(t, bkey.key);
    ghost var lo, n := Located(h0, t.lv, t.root, t.order, t.keys, p, leaf, bkey.key);
    MakePlace(h0, t.lv, t.root, t.order, t.keys, p, leaf, bkey, lo, n);
    var count := NumberOfNodesNeeded(t, leaf, p);
    NeededLeaf(t, h0, leaf);
    NotRead(t);
    if count == 0 {
      d := InsertIntoRoomyLeaf(t, leaf, bkey, rec, p, lo, n);
      r := 0;
    } else {
      r, d := InsertSplitting(t, count, leaf, bkey, rec, p, lo, n);
    }
  }

  /** bptree.c _insert, the case of a full leaf: the nodes for the whole cascade are allocated first, and all are used. */
  method InsertSplitting(t: BPlusTree, count: nat, leaf: Node, bkey: Key, rec: Record, ghost p: nat, ghost lo: nat, ghost n: nat)
    returns (r: int, ghost d: nat)
    requires Allocated(t.nodes, t.order) && Place(t.H(), t.lv, t.root, t.order, t.keys, p, leaf, bkey, lo, n)
    requires leaf in t.nodes && leaf.Shape(t.order) && leaf.isLeaf && leaf.numKeys == t.order - 1
    requires |t.lv| >= 1 && count == Needed(t.H(), t.order, leaf, 1, |t.lv| - 1) && count > 0
    requires KeyCounts(t.lv, t.keys) && bkey !in t.keys && bkey.refCount == 0
    modifies t`root, t`lv, t`metaSize, t`keys, t`nodes, t.nodes, Arrays(t.nodes), t.keys`refCount, bkey`refCount, rec`refCount
    ensures r == 0 || r == -1
    ensures Allocated(t.nodes, t.order)
    ensures r == -1 ==>
      && t.root == old(t.root) && t.lv == old(t.lv) && t.metaSize == old(t.metaSize) && t.keys == old(t.keys)
      && t.nodes == old(t.nodes) && t.H() == old(t.H())
      && bkey.refCount == 0 && rec.refCount == old(rec.refCount) && KeyCounts(t.lv, t.keys)
    ensures r == 0 ==>
      && Inserted(t.H(), old(t.lv), t.lv, t.root, t.order, old(t.keys), bkey, rec, d) && t.keys == old(t.keys) + {bkey}
      && KeyCounts(t.lv, t.keys) && rec.refCount == old(rec.refCount) + 1
      && |t.nodes| >= |old(t.nodes)| && t.order >= 4
      && t.metaSize == old(t.metaSize) + NodeBytes(t.order, |t.nodes| - |old(t.nodes)|)
    ensures forall n :: n in t.nodes ==> n in old(t.nodes) || (fresh(n) && fresh(n.bkeys) && fresh(n.pointers))
  {
    hide *;
    d := 0;
    ghost var ns, h0 := t.nodes, t.H();
    InSnap(t, leaf);
    OrderOf(t);
    NotRead(t);
    var head;
    ghost var fl, made;
    head, fl, made := MakeNodeList(t, count);
    if head == null { return -1, 0; }
    assert |t.nodes| == |ns| + count;
    ArraysOfUnion(ns, made);
    NotRead(t);
    EmptyHead(fl);
    HeadFirst(fl);
    var rest;
    rest, d := InsertIntoLeafAfterSplitting(t, head, fl, leaf, bkey, rec, h0, p, lo, n);
    assert |t.nodes| - |ns| == count;
    EitherOf(ns, made, t.nodes);
    r := 0;
  }

  lemma EitherOf(a: set<Node>, b: set<Node>, c: set<Node>)
    requires c == a + b
    ensures forall n :: n in c ==> n in a || n in b
  {
  }

  lemma InSnap(t: BPlusTree, n: Node)
    requires n in t.nodes
    ensures n in t.H() && t.H()[n] == n.Val() && n.bkeys in Arrays(t.nodes) && n.pointers in Arrays(t.nodes)
  {
  }

  lemma HeadFirst(fl: seq<Node>)
    ensures fl != [] ==> Head(fl) == fl[0]
  {
  }

  lemma StructureParts(t: BPlusTree)
    requires Allocated(t.nodes, t.order) && t.root != null && Structure(t.H(), t.lv, t.root, t.order, t.keys)
    ensures Complete(t.H(), t.lv, t.root, t.order, t.keys) && |t.lv| >= 2 && t.order >= 4
    ensures t.H().Keys == t.nodes && NodeBytes(t.order, 0) == 0
  {
    hide Whole;
    WholeOf(t);
  }

  lemma MakePlace(h: Heap, lv: seq<Level>, root: Node?, order: nat, keys: set<Key>, p: nat, leaf: Node, bk: Key, lo: nat, n: nat)
    requires root != null && Structure(h, lv, root, order, keys) && StandsAt(h, lv, 1, p, leaf, bk.key)
    requires Locates(h, lv, p, bk.key, lo, n)
    requires |lv| >= 1 && forall m :: 0 <= m < |lv[0]| ==> lv[0][m].s != null && lv[0][m].s.key != bk.key
    ensures Place(h, lv, root, order, keys, p, leaf, bk, lo, n)
    ensures |lv| >= 2 && p < |lv[1]| && lv[1][p].p == ToNode(leaf) && leaf in h
  {
    hide Structure, Locates;
  }

  lemma NeededLeaf(t: BPlusTree, h: Heap, leaf: Node)
    requires Allocated(t.nodes, t.order) && leaf in t.nodes && leaf.Shape(t.order) && h == t.H()
    ensures leaf.numKeys <= t.order - 1 && leaf in h
    ensures leaf.bkeys in Arrays(t.nodes) && leaf.pointers in Arrays(t.nodes)
    ensures |t.lv| >= 1 ==> (Needed(h, t.order, leaf, 1, |t.lv| - 1) == 0 <==> leaf.numKeys < t.order - 1)
  {
    hide Separate;
    ValOf(leaf, t.order);
    assert h[leaf] == leaf.Val();
  }
}
