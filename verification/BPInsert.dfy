/** Insertion into the parent: the upward cascade of splits. */
module BPInsert {
  import opened BPTypes
  import opened BPLevels
  import opened BPSlots
  import opened BPSteps
  import opened BPInsertSteps
  import opened BPNodeInsert
  import opened BPTree

  /** The state in which _insert_into_parent is called: `left` at level k has been split into `left` and `right` with
      separator bk between them, and the levels above do not know it yet. */
  ghost predicate Pending(h: Heap, lv: seq<Level>, root: Node?, order: nat, keys: set<Key>, k: nat, x: Level, i: nat,
                          left: Node, bk: Key, right: Node) {
    && root != null && Linked(h, lv, root, k, x) && 1 <= k < |lv| && IsSplit(lv[k], x, i, left, bk, right)
    && AtLevel(h, x, k)
    && left in h && right in h && left != right && h[right].parent == h[left].parent
    && KeysKnown(h, keys) && bk in keys
    && order >= 4 && Occupied(h, order, if k == |lv| - 1 then null else root)
    && Covered(h, lv)
  }

  /** The list holds exactly the nodes that are not in the tree, as many as the cascade will take. */
  ghost predicate Supply(h: Heap, order: nat, fl: seq<Node>, parent: Node?, k: nat, top: nat) {
    && NodeList(h, fl)
    && (forall n :: n in h && h[n].level == 0 ==> n in fl)
    && |fl| == Needed(h, order, parent, k, top)
  }

  /** The levels below k are unchanged, and at level k only parent links are. */
  ghost predicate Below(h: Heap, h': Heap, k: nat) {
    h'.Keys == h.Keys && forall n :: n in h && 0 < h[n].level <= k ==>
      h'[n] == if h[n].level < k then h[n] else h[n].(parent := h'[n].parent)
  }

  /** The tree is whole. */
  ghost predicate Whole(h: Heap, lv: seq<Level>, root: Node?, order: nat, keys: set<Key>) {
    root != null && Tree(h, lv, root) && order >= 4 && Occupied(h, order, root) && KeysKnown(h, keys) && Covered(h, lv)
  }

  /** The tree is whole and there are no other nodes. */
  ghost predicate Complete(h: Heap, lv: seq<Level>, root: Node?, order: nat, keys: set<Key>) {
    Whole(h, lv, root, order, keys) && forall n :: n in h ==> h[n].level > 0
  }

  ghost predicate Outcome(h: Heap, h': Heap, lv: seq<Level>, lv': seq<Level>, root': Node?, order: nat, keys: set<Key>,
                          k: nat) {
    Complete(h', lv', root', order, keys) && k < |lv| <= |lv'| && lv'[..k + 1] == lv[..k + 1] && Below(h, h', k)
  }

  // ----- The parent's slot for the split child -----

  lemma FindSite(t: BPlusTree, k: nat, x: Level, i: nat, left: Node, bk: Key, right: Node, u: Node)
    returns (l: Level, p: nat, j: nat)
    requires Allocated(t.nodes, t.order) && Pending(t.H(), t.lv, t.root, t.order, t.keys, k, x, i, left, bk, right)
    requires left.parent == u
    ensures k < |t.lv| - 1 && l == t.lv[k + 1] && Site(t.H(), l, k + 1, x, i, p, j, u)
    ensures u in t.nodes && u.Shape(t.order) && !u.isLeaf && u.Val() == t.H()[u]
    ensures j <= u.numKeys && u.pointers[j] == ToNode(left)
    ensures forall m :: 0 <= m <= u.numKeys && m != j ==> u.pointers[m] != ToNode(left)
  {
    hide Occupied, KeysKnown, Expand, LevelOK, Parents, Linked, Separate;
    var h := t.H();
    assert h[left] == left.Val();
    if k == |t.lv| - 1 {
      RootEntry(h, t.lv, t.root, k, x);
      assert false;
    }
    LinkedAt(h, t.lv, t.root, k, x, k);
    LevelDistinct(h, t.lv[k], k);
    SplitDistinct(t.lv[k], x, i, left, bk, right);
    l := t.lv[k + 1];
    LinkedAt(h, t.lv, t.root, k, x, k + 1);
    p, j := ParentSlot(h, l, k, x, i);
    assert l[p].p == ToNode(u) && h[u] == u.Val();
    ValOf(u, t.order);
    assert forall m :: 0 <= m <= u.numKeys ==> u.pointers[m] == h[u].ps[m];
  }

  lemma LevelDistinct(h: Heap, l: Level, k: nat)
    requires LevelOK(h, l, k)
    ensures forall a, b :: 0 <= a < b < |l| ==> l[a].p != l[b].p
  {
  }

  /** bptree.c _get_left_index */
  method GetLeftIndex(order: nat, parent: Node, left: Node, ghost j: nat) returns (leftIndex: nat)
    requires parent.Shape(order) && j <= parent.numKeys && parent.pointers[j] == ToNode(left)
    requires forall m :: 0 <= m <= parent.numKeys && m != j ==> parent.pointers[m] != ToNode(left)
    ensures leftIndex == j
  {
    assert ToNode(left) == parent.pointers[..parent.numKeys + 1][j];
    leftIndex := IndexOf(parent.pointers, parent.numKeys + 1, ToNode(left));
  }

  // ----- The three cases -----

  /** The parent has room. */
  method InsertWithRoom(t: BPlusTree, ghost fl: seq<Node>, left: Node, bkey: Key, right: Node,
                        ghost k: nat, ghost x: Level, ghost i: nat, parent: Node, leftIndex: nat, ghost l: Level, ghost p: nat)
    requires Allocated(t.nodes, t.order)
    requires Pending(t.H(), t.lv, t.root, t.order, t.keys, k, x, i, left, bkey, right)
    requires Supply(t.H(), t.order, fl, parent, k + 1, |t.lv| - 1)
    requires k < |t.lv| - 1 && l == t.lv[k + 1] && Site(t.H(), l, k + 1, x, i, p, leftIndex, parent)
    requires parent in t.nodes && parent.Shape(t.order) && !parent.isLeaf
    requires left.parent == parent && parent.numKeys < t.order - 1 && leftIndex <= parent.numKeys
    modifies parent, parent.bkeys, parent.pointers, bkey`refCount
    ensures fl == []
    ensures Outcome(old(t.H()), t.H(), t.lv, t.lv, t.root, t.order, t.keys, k)
    ensures bkey.refCount == old(bkey.refCount) + 1
  {
    hide *;
    ghost var h := t.H();
    SnapFacts(t, parent);
    PendingLevels(h, t.lv, t.root, t.order, t.keys, k, x, i, left, bkey, right);
    SiteRow(t, parent, left);
    InsertIntoNode(t.order, parent, leftIndex, bkey, right);
    ghost var h' := h[parent := h[parent].(ks := Insert(h[parent].ks, leftIndex, bkey),
                                           ps := Insert(h[parent].ps, leftIndex + 1, ToNode(right)))];
    Changed(t, h, parent, h'[parent]);
    RoomOutcome(h, h', t.lv, t.root, t.order, t.keys, fl, left, bkey, right, k, x, i, l, p, leftIndex, parent);
  }

  lemma SiteRow(t: BPlusTree, u: Node, left: Node)
    requires Allocated(t.nodes, t.order) && u in t.nodes && u.Shape(t.order) && !u.isLeaf && left in t.nodes
    ensures u in t.H() && left in t.H() && t.H()[u] == u.Val() && t.H()[left].parent == left.parent
    ensures |t.H()[u].ks| == u.numKeys && |t.H()[u].ps| == u.numKeys + 1 && t.order >= 4
  {
    ValOf(u, t.order);
  }

  lemma RoomOutcome(h: Heap, h': Heap, lv: seq<Level>, root: Node?, order: nat, keys: set<Key>, fl: seq<Node>,
                    left: Node, bk: Key, right: Node, k: nat, x: Level, i: nat, l: Level, p: nat, j: nat, u: Node)
    requires Pending(h, lv, root, order, keys, k, x, i, left, bk, right)
    requires Supply(h, order, fl, u, k + 1, |lv| - 1)
    requires k < |lv| - 1 && l == lv[k + 1] && Site(h, l, k + 1, x, i, p, j, u)
    requires h[left].parent == u && |h[u].ks| < order - 1
    requires h' == h[u := h[u].(ks := Insert(h[u].ks, j, bk), ps := Insert(h[u].ps, j + 1, ToNode(right)))]
    ensures fl == [] && Outcome(h, h', lv, lv, root, order, keys, k)
  {
    hide Linked, Expand, LevelOK, Parents, IsSplit, PtrsOf;
    Fits(h, h', lv, root, k, x, i, left, bk, right, l, p, j, u);
    LinkedIsTree(h', lv, root, k + 1);
  }

  lemma LinkedIsTree(h: Heap, lv: seq<Level>, root: Node, k: nat)
    requires k < |lv| && Linked(h, lv, root, k, lv[k])
    ensures Tree(h, lv, root)
  {
    hide LevelOK, Parents, Expand;
    forall j | 0 <= j < |lv|
      ensures Above(h, lv, root, j) == lv[j]
    {
    }
  }

  /** bptree.c _insert_into_new_root */
  method InsertIntoNewRoot(t: BPlusTree, nodeList: Node?, ghost fl: seq<Node>, left: Node, bkey: Key, right: Node,
                           ghost k: nat, ghost x: Level, ghost i: nat)
    returns (rest: Node?)
    requires Allocated(t.nodes, t.order)
    requires Pending(t.H(), t.lv, t.root, t.order, t.keys, k, x, i, left, bkey, right)
    requires nodeList == Head(fl) && Supply(t.H(), t.order, fl, null, k + 1, |t.lv| - 1)
    requires left.parent == null
    modifies t`root, t`lv, t.nodes, Arrays(t.nodes), bkey`refCount
    ensures rest == null
    ensures Outcome(old(t.H()), t.H(), old(t.lv), t.lv, t.root, t.order, t.keys, k)
    ensures bkey.refCount == old(bkey.refCount) + 1
  {
    hide *;
    ghost var h := t.H();
    SingleSupply(t, fl, left, bkey, right, k, x, i);
    var w := nodeList;
    rest := GetNodeFromList(t, w, fl, k + 1);
    ghost var h1 := t.H();
    NotRead(t);
    bkey.refCount := bkey.refCount + 1;
    assert t.H() == h1;
    FillNewRoot(t, w, left, bkey, right);
    ghost var v := NodeVal(false, [bkey], [ToNode(left), ToNode(right)], Null, null, k + 1);
    assert h1[left] == h[left] && h1[right] == h[right] && h1[w := v] == h[w := v];
    assert t.H() == h[w := v][left := h[left].(parent := w)][right := h[right].(parent := w)];
    NotRead(t);
    t.root := w;
    t.lv := t.lv + [[Entry(ToNode(w), null)]];
    NewRootOutcome(h, t.H(), old(t.lv), old(t.root), t.order, t.keys, fl, left, bkey, right, k, x, i, w);
  }

  lemma SingleSupply(t: BPlusTree, fl: seq<Node>, left: Node, bk: Key, right: Node, k: nat, x: Level, i: nat)
    requires Allocated(t.nodes, t.order)
    requires Pending(t.H(), t.lv, t.root, t.order, t.keys, k, x, i, left, bk, right)
    requires Supply(t.H(), t.order, fl, null, k + 1, |t.lv| - 1)
    ensures |fl| == 1 && Head(fl) == fl[0] && Head(fl[1..]) == null && fl[0] in t.nodes && NodeList(t.H(), fl)
    ensures fl[0] != left && fl[0] != right && left != right && left in t.nodes && right in t.nodes
    ensures fl[0].bkeys in Arrays(t.nodes) && fl[0].pointers in Arrays(t.nodes)
    ensures t.H().Keys == t.nodes && t.H()[left].parent == left.parent
  {
    hide Linked, LevelOK, Parents, Expand, Occupied, KeysKnown, Allocated;
    PendingLevels(t.H(), t.lv, t.root, t.order, t.keys, k, x, i, left, bk, right);
    assert fl[0] in t.H() && t.H()[fl[0]].level == 0;
  }

  lemma PendingLevels(h: Heap, lv: seq<Level>, root: Node?, order: nat, keys: set<Key>, k: nat, x: Level, i: nat,
                      left: Node, bk: Key, right: Node)
    requires Pending(h, lv, root, order, keys, k, x, i, left, bk, right)
    ensures left in h && right in h && left != right && k >= 1
    ensures h[left].level == k && h[right].level == k
  {
    hide Linked, LevelOK, Parents, Expand, Occupied, KeysKnown, IsSplit;
    LinkedAt(h, lv, root, k, x, k);
    LeftLevel(h, lv[k], x, i, left, bk, right, k);
    RightLevel(h, lv[k], x, i, left, bk, right, k);
  }

  /** The slots of the new root and the parent links of its two children. */
  method FillNewRoot(t: BPlusTree, w: Node, left: Node, bkey: Key, right: Node)
    requires Allocated(t.nodes, t.order) && w in t.nodes && left in t.nodes && right in t.nodes
    requires w != left && w != right && left != right
    requires w.Shape(t.order) && w.numKeys == 0 && w.parent == null && !w.isLeaf
    modifies w, w.bkeys, w.pointers, left`parent, right`parent
    ensures left in old(t.H()) && right in old(t.H())
    ensures t.H() == old(t.H())[w := NodeVal(false, [bkey], [ToNode(left), ToNode(right)], Null, null, old(w.level))]
                               [left := old(t.H())[left].(parent := w)][right := old(t.H())[right].(parent := w)]
  {
    hide *;
    ghost var h := t.H();
    SnapFacts(t, w);
    OrderFacts(t);
    SizesOf(w, t.order);
    ghost var level := w.level;
    w.bkeys[0] := bkey;
    w.pointers[0] := ToNode(left);
    w.pointers[1] := ToNode(right);
    w.numKeys := 1;
    ValOf(w, t.order);
    assert w.bkeys[..1] == [bkey];
    assert w.pointers[..2] == [ToNode(left), ToNode(right)];
    Changed(t, h, w, NodeVal(false, [bkey], [ToNode(left), ToNode(right)], Null, null, level));
    SetParent(t, left, w);
    SetParent(t, right, w);
  }

  lemma OrderFacts(t: BPlusTree)
    requires Allocated(t.nodes, t.order)
    ensures t.order >= 4
  {
  }

  method SetParent(t: BPlusTree, n: Node, p: Node?)
    requires n in t.nodes
    modifies n`parent
    ensures n in old(t.H()) && t.H() == old(t.H())[n := old(t.H())[n].(parent := p)]
  {
    ghost var h := t.H();
    n.parent := p;
    Changed(t, h, n, h[n].(parent := p));
  }

  lemma NewRootOutcome(h: Heap, h': Heap, lv: seq<Level>, root: Node?, order: nat, keys: set<Key>, fl: seq<Node>,
                       left: Node, bk: Key, right: Node, k: nat, x: Level, i: nat, w: Node)
    requires Pending(h, lv, root, order, keys, k, x, i, left, bk, right)
    requires Supply(h, order, fl, null, k + 1, |lv| - 1) && |fl| == 1 && w == fl[0] && h[left].parent == null
    requires left != w && right != w
    requires h' == h[w := NodeVal(false, [bk], [ToNode(left), ToNode(right)], Null, null, k + 1)]
                    [left := h[left].(parent := w)][right := h[right].(parent := w)]
    ensures Outcome(h, h', lv, lv + [[Entry(ToNode(w), null)]], w, order, keys, k)
  {
    hide Linked, LevelOK, Parents, Expand, IsSplit, Occupied, KeysKnown, Covered, Below;
    TopLevel(h, lv, root, order, keys, k, x, i, left, bk, right);
    CoveredTop(h, h', lv, k, left, bk, right, w);
    PendingLevels(h, lv, root, order, keys, k, x, i, left, bk, right);
    assert w in h && h[fl[0]].level == 0;
    NewRoot(h, h', lv, root, k, x, i, left, bk, right, w);
    LinkedIsTree(h', lv + [[Entry(ToNode(w), null)]], w, k + 1);
    assert forall n :: n in h && h[n].level == 0 ==> n == w;
    NewRootCounts(h, h', order, keys, k, left, bk, right, w);
  }

  lemma NewRootCounts(h: Heap, h': Heap, order: nat, keys: set<Key>, k: nat, left: Node, bk: Key, right: Node, w: Node)
    requires Occupied(h, order, null) && KeysKnown(h, keys) && bk in keys && k >= 1
    requires left in h && right in h && w in h && h[w].level == 0 && left != right && left != w && right != w
    requires h[left].level == k && h[right].level == k && forall n :: n in h && h[n].level == 0 ==> n == w
    requires h' == h[w := NodeVal(false, [bk], [ToNode(left), ToNode(right)], Null, null, k + 1)]
                    [left := h[left].(parent := w)][right := h[right].(parent := w)]
    ensures Occupied(h', order, w) && KeysKnown(h', keys) && Below(h, h', k)
    ensures forall n :: n in h' ==> h'[n].level > 0
  {
    NewRootVals(h, h', k, left, bk, right, w);
    NewRootOccupied(h, h', order, k, bk, w);
    NewRootKnown(h, h', keys, bk, w);
  }

  lemma NewRootVals(h: Heap, h': Heap, k: nat, left: Node, bk: Key, right: Node, w: Node)
    requires left in h && right in h && w in h && h[w].level == 0 && left != right && left != w && right != w
    requires h[left].level == k && h[right].level == k && forall n :: n in h && h[n].level == 0 ==> n == w
    requires h' == h[w := NodeVal(false, [bk], [ToNode(left), ToNode(right)], Null, null, k + 1)]
                    [left := h[left].(parent := w)][right := h[right].(parent := w)]
    ensures h'.Keys == h.Keys && h'[w].ks == [bk] && h'[w].level == k + 1
    ensures forall n :: n in h && n != w ==> h'[n] == h[n].(parent := h'[n].parent)
    ensures forall n :: n in h && h[n].level < k && n != w ==> h'[n] == h[n]
    ensures forall n :: n in h' ==> h'[n].level > 0
    ensures Below(h, h', k)
  {
  }

  lemma NewRootOccupied(h: Heap, h': Heap, order: nat, k: nat, bk: Key, w: Node)
    requires Occupied(h, order, null) && h'.Keys == h.Keys && w in h && h'[w].ks == [bk]
    requires forall n :: n in h && n != w ==> h'[n] == h[n].(parent := h'[n].parent)
    ensures Occupied(h', order, w)
  {
  }

  lemma NewRootKnown(h: Heap, h': Heap, keys: set<Key>, bk: Key, w: Node)
    requires KeysKnown(h, keys) && bk in keys && h'.Keys == h.Keys && w in h && h'[w].ks == [bk]
    requires forall n :: n in h && n != w ==> h'[n] == h[n].(parent := h'[n].parent)
    ensures KeysKnown(h', keys)
  {
    forall n, m | n in h' && h'[n].level > 0 && 0 <= m < |h'[n].ks| ensures h'[n].ks[m] != null && h'[n].ks[m] in keys {
      if n != w { assert h'[n].ks[m] == h[n].ks[m]; }
    }
  }

  lemma CoveredTop(h: Heap, h': Heap, lv: seq<Level>, k: nat, left: Node, bk: Key, right: Node, w: Node)
    requires Covered(h, lv) && k == |lv| - 1 && left in h && right in h && w in h && left != right && left != w && right != w
    requires h' == h[w := NodeVal(false, [bk], [ToNode(left), ToNode(right)], Null, null, k + 1)]
                    [left := h[left].(parent := w)][right := h[right].(parent := w)]
    ensures Covered(h', lv + [[Entry(ToNode(w), null)]])
  {
    var top: Level := [Entry(ToNode(w), null)];
    assert Entry(ToNode(w), null) in top;
    hide PtrsOf;
    assert ToNode(w) in PtrsOf(top) by { InPtrs(top, 0); }
    forall n | n in h' && h'[n].level > 0
      ensures h'[n].level < |lv + [top]| && ToNode(n) in PtrsOf((lv + [top])[h'[n].level])
    {
      if n != w { assert h'[n].level == h[n].level; }
    }
  }

  lemma InPtrs(l: Level, i: nat)
    requires i < |l|
    ensures l[i].p in PtrsOf(l)
  {
    assert l[i] in l;
  }

  /** A pending split whose left half has no parent is at the top. */
  lemma TopLevel(h: Heap, lv: seq<Level>, root: Node?, order: nat, keys: set<Key>, k: nat, x: Level, i: nat,
                 left: Node, bk: Key, right: Node)
    requires Pending(h, lv, root, order, keys, k, x, i, left, bk, right)
    requires h[left].parent == null
    ensures k == |lv| - 1
  {
    hide Linked, LevelOK, Parents, Expand, Occupied, KeysKnown;
    if k < |lv| - 1 {
      LinkedAt(h, lv, root, k, x, k);
      LevelDistinct(h, lv[k], k);
      SplitDistinct(lv[k], x, i, left, bk, right);
      LinkedAt(h, lv, root, k, x, k + 1);
      var p, j := ParentSlot(h, lv[k + 1], k, x, i);
    }
  }

  /** bptree.c _insert_into_parent */
  method InsertIntoParent(t: BPlusTree, nodeList: Node?, ghost fl: seq<Node>, left: Node, bkey: Key, right: Node,
                          ghost k: nat, ghost x: Level, ghost i: nat)
    returns (rest: Node?)
    requires Allocated(t.nodes, t.order)
    requires Pending(t.H(), t.lv, t.root, t.order, t.keys, k, x, i, left, bkey, right)
    requires nodeList == Head(fl) && Supply(t.H(), t.order, fl, left.parent, k + 1, |t.lv| - 1)
    requires forall q :: q in t.keys ==> q.refCount >= 1
    modifies t`root, t`lv, t`metaSize, t.nodes, Arrays(t.nodes), t.keys`refCount
    ensures rest == null
    ensures Outcome(old(t.H()), t.H(), old(t.lv), t.lv, t.root, t.order, t.keys, k)
    ensures forall q :: q in old(t.keys) ==> q.refCount == old(q.refCount) + if q == bkey then 1 else 0
    ensures t.metaSize == old(t.metaSize)
    decreases |t.lv| - k, 1
  {
    hide Pending, Supply, Outcome, Site, Snap, Allocated;
    PendingFacts(t, k, x, i, left, bkey, right);
    NotRead(t);
    var parent := left.parent;
    if parent == null {
      rest := InsertIntoNewRoot(t, nodeList, fl, left, bkey, right, k, x, i);
    } else {
      ghost var l, p, j := FindSite(t, k, x, i, left, bkey, right, parent);
      var leftIndex := GetLeftIndex(t.order, parent, left, j);
      InnerArrays(t, parent);
      if parent.numKeys < t.order - 1 {
        InsertWithRoom(t, fl, left, bkey, right, k, x, i, parent, leftIndex, l, p);
        rest := nodeList;
      } else {
        rest := InsertIntoNodeAfterSplitting(t, nodeList, fl, left, bkey, right, k, x, i, parent, leftIndex, l, p);
      }
    }
  }

  // ----- Splitting the parent -----

  /** bptree.c _insert_into_node_after_splitting */
  method InsertIntoNodeAfterSplitting(t: BPlusTree, nodeList: Node?, ghost fl: seq<Node>, left: Node, bkey: Key,
                                      right: Node, ghost k: nat, ghost x: Level, ghost i: nat,
                                      oldNode: Node, leftIndex: nat, ghost l: Level, ghost p: nat)
    returns (rest: Node?)
    requires Allocated(t.nodes, t.order)
    requires Pending(t.H(), t.lv, t.root, t.order, t.keys, k, x, i, left, bkey, right)
    requires nodeList == Head(fl) && Supply(t.H(), t.order, fl, oldNode, k + 1, |t.lv| - 1)
    requires k < |t.lv| - 1 && l == t.lv[k + 1] && Site(t.H(), l, k + 1, x, i, p, leftIndex, oldNode)
    requires oldNode in t.nodes && oldNode.Shape(t.order) && !oldNode.isLeaf
    requires left.parent == oldNode && oldNode.numKeys == t.order - 1 && leftIndex <= oldNode.numKeys
    requires forall q :: q in t.keys ==> q.refCount >= 1
    modifies t`root, t`lv, t`metaSize, t.nodes, Arrays(t.nodes), t.keys`refCount
    ensures rest == null
    ensures Outcome(old(t.H()), t.H(), old(t.lv), t.lv, t.root, t.order, t.keys, k)
    ensures forall q :: q in old(t.keys) ==> q.refCount == old(q.refCount) + if q == bkey then 1 else 0
    ensures t.metaSize == old(t.metaSize)
    decreases |t.lv| - k, 0
  {
    hide *;
    ghost var h, lv0 := t.H(), t.lv;
    PendingFacts(t, k, x, i, left, bkey, right);
    NotRead(t);
    var bkPrime;
    rest, bkPrime := SplitParent(t, nodeList, fl, left, bkey, right, k, x, i, oldNode, leftIndex, l, p);
    ghost var h1, lv1 := t.H(), t.lv;
    PendingFacts(t, k + 1, l, p, oldNode, bkPrime, nodeList);
    rest := InsertIntoParent(t, rest, fl[1..], oldNode, bkPrime, nodeList, k + 1, l, p);
    ghost var h2 := t.H();
    UnrefKey(t, bkPrime);
    SplitOutcome(h, h1, h2, lv0, lv1, t.lv, t.root, t.order, t.keys, k);
  }

  /** The full parent gives its upper half to the next node of the list: the same situation one level up. */
  method SplitParent(t: BPlusTree, newNode: Node?, ghost fl: seq<Node>, left: Node, bkey: Key, right: Node, ghost k: nat, ghost x: Level,
                     ghost i: nat, oldNode: Node, leftIndex: nat, ghost l: Level, ghost p: nat)
    returns (rest: Node?, bkPrime: Key)
    requires Allocated(t.nodes, t.order)
    requires Pending(t.H(), t.lv, t.root, t.order, t.keys, k, x, i, left, bkey, right)
    requires newNode == Head(fl) && Supply(t.H(), t.order, fl, oldNode, k + 1, |t.lv| - 1)
    requires k < |t.lv| - 1 && l == t.lv[k + 1] && Site(t.H(), l, k + 1, x, i, p, leftIndex, oldNode)
    requires oldNode in t.nodes && oldNode.Shape(t.order) && !oldNode.isLeaf
    requires left.parent == oldNode && oldNode.numKeys == t.order - 1 && leftIndex <= oldNode.numKeys
    modifies t`lv, t.nodes, Arrays(t.nodes), bkey`refCount
    ensures newNode != null && fl != [] && rest == Head(fl[1..]) && |t.lv| == |old(t.lv)| && t.lv[..k + 1] == old(t.lv)[..k + 1]
    ensures Pending(t.H(), t.lv, t.root, t.order, t.keys, k + 1, l, p, oldNode, bkPrime, newNode)
    ensures Supply(t.H(), t.order, fl[1..], oldNode.parent, k + 2, |t.lv| - 1)
    ensures Below(old(t.H()), t.H(), k)
    ensures forall n: Node :: n in old(t.H()) ==> n in t.H() && (old(t.H())[n].level > 0 ==> t.H()[n].level == old(t.H())[n].level)
    ensures bkey.refCount == old(bkey.refCount) + 1
  {
    hide *;
    ghost var h, lv0 := t.H(), t.lv;
    ghost var w := FullSupply(t, fl, left, bkey, right, k, x, i, l, p, leftIndex, oldNode);
    NotRead(t);
    rest := GetNodeFromList(t, newNode, fl, k + 1);
    SnapFacts(t, oldNode);
    bkPrime := CutNode(t, h, oldNode, newNode, leftIndex, bkey, right, k);
    ghost var h1 := t.H();
    t.lv := lv0[k + 1 := Splice(l, p, 1, [Entry(ToNode(oldNode), bkPrime), Entry(ToNode(newNode), l[p].s)])];
    assert t.H() == h1;
    SplitPending(h, h1, lv0, t.lv, t.root, t.order, t.keys, fl, left, bkey, right, k, x, i, l, p, leftIndex, oldNode,
                 newNode, bkPrime);
  }

  /** What a full parent means for the supply and the slots. */
  lemma FullSupply(t: BPlusTree, fl: seq<Node>, left: Node, bk: Key, right: Node, k: nat, x: Level, i: nat,
                   l: Level, p: nat, j: nat, u: Node) returns (w: Node)
    requires Allocated(t.nodes, t.order)
    requires Pending(t.H(), t.lv, t.root, t.order, t.keys, k, x, i, left, bk, right)
    requires Supply(t.H(), t.order, fl, u, k + 1, |t.lv| - 1)
    requires k < |t.lv| - 1 && l == t.lv[k + 1] && Site(t.H(), l, k + 1, x, i, p, j, u)
    requires u in t.nodes && u.Shape(t.order) && !u.isLeaf && u.numKeys == t.order - 1
    ensures fl != [] && w == fl[0] && Head(fl) == w && w in t.nodes && NodeList(t.H(), fl) && w != u
    ensures t.H().Keys == t.nodes && t.H()[w].level == 0 && t.H()[u] == u.Val() && null !in u.Val().ks
    ensures |u.Val().ks| == t.order - 1 && |u.Val().ps| == t.order && t.H()[u].level == k + 1
    ensures p < |l| && t.order >= 4 && left in t.H() && t.H()[left].parent == left.parent
    ensures right in t.nodes && t.H()[right].level == k && k >= 1
    ensures w.bkeys in Arrays(t.nodes) && w.pointers in Arrays(t.nodes)
    ensures u.bkeys in Arrays(t.nodes) && u.pointers in Arrays(t.nodes)
    ensures Kids(t.H(), Insert(u.Val().ps, j + 1, ToNode(right)), u, k)
  {
    hide Linked, LevelOK, Parents, Expand, Occupied, KeysKnown, Separate;
    assert t.H()[u] == u.Val();
    ValOf(u, t.order);
    w := fl[0];
    assert w in t.H() && t.H()[fl[0]].level == 0;
    PendingLevels(t.H(), t.lv, t.root, t.order, t.keys, k, x, i, left, bk, right);
    KidsAfterInsert(t.H(), t.lv, t.root, k, x, l, p, j, u, i, left, right);
  }

  /** All child slots of u, with right inserted, hold children of u. */
  lemma KidsAfterInsert(h: Heap, lv: seq<Level>, root: Node, k: nat, x: Level, l: Level, p: nat, j: nat, u: Node, i: nat,
                        left: Node, right: Node)
    requires Linked(h, lv, root, k, x) && 1 <= k < |lv| - 1 && l == lv[k + 1] && AtLevel(h, x, k)
    requires Site(h, l, k + 1, x, i, p, j, u) && x[i].p == ToNode(left) && left in h
    requires right in h && h[right].level == k && h[right].parent == h[left].parent
    ensures Kids(h, Insert(h[u].ps, j + 1, ToNode(right)), u, k)
  {
    hide Linked, LevelOK, Parents, Expand;
    LinkedAt(h, lv, root, k, x, k);
    LinkedAt(h, lv, root, k, x, k + 1);
    ChildLevels(h, l, k);
    KidsOf(h, l, k, p, u);
    assert h[u].ps[j] == ToNode(left);
    var ps := Insert(h[u].ps, j + 1, ToNode(right));
    assert forall m :: 0 <= m < |ps| ==>
      ps[m] == if m <= j then h[u].ps[m] else if m == j + 1 then ToNode(right) else h[u].ps[m - 1];
  }

  /** The slot work of the split and the new parent links of the moved children. */
  method CutNode(t: BPlusTree, ghost h: Heap, oldNode: Node, newNode: Node, leftIndex: nat, bkey: Key, right: Node, ghost k: nat)
    returns (bkPrime: Key)
    requires Allocated(t.nodes, t.order) && oldNode in t.nodes && newNode in t.nodes && newNode != oldNode && t.order >= 4
    requires h.Keys == t.nodes && h[newNode].level == 0 && h[oldNode].level == k + 1 && k >= 1
    requires t.H() == h[newNode := NodeVal(false, [], [Null], Null, null, k + 1)]
    requires newNode.Shape(t.order) && !newNode.isLeaf && newNode.level == k + 1
    requires oldNode.Shape(t.order) && !oldNode.isLeaf && oldNode.numKeys == t.order - 1 && leftIndex <= oldNode.numKeys
    requires h[oldNode] == oldNode.Val() && |oldNode.Val().ks| == t.order - 1 && |oldNode.Val().ps| == t.order
    requires null !in oldNode.Val().ks
    requires Kids(h, Insert(oldNode.Val().ps, leftIndex + 1, ToNode(right)), oldNode, k)
    modifies t.nodes, Arrays(t.nodes), bkey`refCount
    ensures var c := Cut(t.order) - 1;
      && 0 < c < t.order - 1 && bkPrime == Insert(h[oldNode].ks, leftIndex, bkey)[c]
      && t.H() == CutHeap(h, oldNode, newNode, leftIndex, bkey, right, c)
    ensures t.H()[oldNode].parent == oldNode.parent
    ensures bkey.refCount == old(bkey.refCount) + 1
  {
    hide *;
    SnapFacts(t, oldNode);
    SnapFacts(t, newNode);
    ghost var c := Cut(t.order) - 1;
    CutInRange(t.order);
    ghost var ks := Insert(h[oldNode].ks, leftIndex, bkey);
    ghost var ps := Insert(h[oldNode].ps, leftIndex + 1, ToNode(right));
    InsertLength(h[oldNode].ks, leftIndex, bkey);
    InsertLength(h[oldNode].ps, leftIndex + 1, ToNode(right));
    KidsTail(h, ps, oldNode, k, c + 1);
    ParentOf(t, oldNode);
    InnerArrays(t, oldNode);
    InnerArrays(t, newNode);
    bkPrime := SplitNode(t.order, oldNode, newNode, leftIndex, bkey, right);
    ghost var h2 := h[oldNode := h[oldNode].(ks := ks[..c], ps := ps[..c + 1])]
                     [newNode := NodeVal(false, ks[c + 1..], ps[c + 1..], Null, h[oldNode].parent, h[oldNode].level)];
    Changed2(t, h, oldNode, newNode, h2);
    ReparentChildren(t, newNode, ps[c + 1..]);
    CutHeapIs(h, h2, oldNode, newNode, leftIndex, bkey, right, c);
    ParentOf(t, oldNode);
  }

  lemma ParentOf(t: BPlusTree, n: Node)
    requires n in t.nodes
    ensures n in t.H() && t.H()[n].parent == n.parent
  {
  }

  lemma KidsTail(h: Heap, ps: seq<Ptr>, u: Node, k: nat, c: nat)
    requires Kids(h, ps, u, k) && c <= |ps|
    ensures forall m :: 0 <= m < |ps[c..]| ==> ps[c..][m].ToNode? && ps[c..][m].node in h
  {
    forall m | 0 <= m < |ps[c..]| ensures ps[c..][m].ToNode? && ps[c..][m].node in h {
      assert ps[c..][m] == ps[c + m];
    }
  }

  lemma CutInRange(order: nat)
    requires order >= 4
    ensures 1 < Cut(order) < order
  {
  }

  lemma CutHeapIs(h: Heap, h2: Heap, u: Node, w: Node, j: nat, bk: Key, right: Node, c: nat)
    requires u in h && w in h && j < |h[u].ps| && |h[u].ps| == |h[u].ks| + 1 && c <= |h[u].ks|
    requires var ks, ps := Insert(h[u].ks, j, bk), Insert(h[u].ps, j + 1, ToNode(right));
      h2 == h[u := h[u].(ks := ks[..c], ps := ps[..c + 1])][w := NodeVal(false, ks[c + 1..], ps[c + 1..], Null, h[u].parent, h[u].level)]
    ensures Reparent(h2, w) == CutHeap(h, u, w, j, bk, right, c)
  {
  }

  /** The children moved to w learn their new parent. */
  method ReparentChildren(t: BPlusTree, w: Node, ghost ps: seq<Ptr>)
    requires w in t.nodes && w.Shape(t.order) && t.order >= 4 && !w.isLeaf && w.Val().ps == ps
    requires forall m :: 0 <= m < |ps| ==> ps[m].ToNode? && ps[m].node in t.nodes
    modifies t.nodes`parent
    ensures t.H() == Reparent(old(t.H()), w)
  {
    hide *;
    ghost var h0 := t.H();
    ChildSlots(t, w, ps);
    ReparentNone(h0, ps[..0], w);
    var i := 0;
    while i < w.numKeys + 1
      invariant 0 <= i <= |ps| && w.numKeys + 1 == |ps| <= w.pointers.Length && w.pointers[..|ps|] == ps
      invariant t.H() == ReparentSome(h0, ps[..i], w)
    {
      ReparentOne(h0, ps, i, w);
      assert w.pointers[i] == ps[i];
      SetParent(t, w.pointers[i].node, w);
      i := i + 1;
    }
    assert ps[..i] == ps;
    ReparentAll(h0, w);
  }

  lemma ChildSlots(t: BPlusTree, w: Node, ps: seq<Ptr>)
    requires w in t.nodes && w.Shape(t.order) && t.order >= 4 && !w.isLeaf && w.Val().ps == ps
    ensures w.numKeys + 1 == |ps| <= w.pointers.Length && w.pointers[..|ps|] == ps
    ensures t.H().Keys == t.nodes && t.H()[w].ps == ps
  {
  }

  ghost function ReparentSome(h: Heap, ps: seq<Ptr>, w: Node): Heap {
    map n | n in h :: if ToNode(n) in ps then h[n].(parent := w) else h[n]
  }

  lemma ReparentNone(h: Heap, ps: seq<Ptr>, w: Node)
    requires ps == []
    ensures ReparentSome(h, ps, w) == h
  {
  }

  lemma ReparentOne(h: Heap, ps: seq<Ptr>, i: nat, w: Node)
    requires i < |ps| && ps[i].ToNode? && ps[i].node in h
    ensures var h' := ReparentSome(h, ps[..i], w);
      ps[i].node in h' && ReparentSome(h, ps[..i + 1], w) == h'[ps[i].node := h'[ps[i].node].(parent := w)]
  {
    assert ps[..i + 1] == ps[..i] + [ps[i]];
  }

  lemma ReparentAll(h: Heap, w: Node)
    requires w in h
    ensures ReparentSome(h, h[w].ps, w) == Reparent(h, w)
  {
  }

  /** Levels above k know nothing of changes below them. */
  lemma {:induction false} NeededFrame(h: Heap, h': Heap, lv: seq<Level>, root: Node, k: nat, x: Level, order: nat, j: nat, n: Node?)
    requires Linked(h, lv, root, k, x) && k < j < |lv|
    requires n != null && ToNode(n) in (set e | e in lv[j] :: e.p)
    requires forall m :: m in h && h[m].level >= j ==> m in h' && h'[m] == h[m]
    ensures Needed(h, order, n, j, |lv| - 1) == Needed(h', order, n, j, |lv| - 1)
    decreases |lv| - j
  {
    hide Linked, LevelOK, Parents, Expand;
    var e :| e in lv[j] && e.p == ToNode(n);
    var i :| 0 <= i < |lv[j]| && lv[j][i] == e;
    LinkedAt(h, lv, root, k, x, j);
    NodeAt(h, lv[j], i, j);
    if j < |lv| - 1 {
      LinkedAt(h, lv, root, k, x, j + 1);
      LevelDistinct(h, lv[j], j);
      var p, q := ParentSlot(h, lv[j + 1], j, lv[j], i);
      assert lv[j + 1][p] in lv[j + 1];
      NeededFrame(h, h', lv, root, k, x, order, j + 1, h[n].parent);
    }
  }

  lemma NodeAt(h: Heap, l: Level, i: nat, k: nat)
    requires LevelOK(h, l, k) && i < |l|
    ensures NodeOK(h, l[i].p, k)
  {
  }

  lemma PendingFacts(t: BPlusTree, k: nat, x: Level, i: nat, left: Node, bk: Key, right: Node)
    requires Pending(t.H(), t.lv, t.root, t.order, t.keys, k, x, i, left, bk, right)
    ensures bk in t.keys && k < |t.lv|
    ensures Head([]) == null
  {
  }

  lemma InnerArrays(t: BPlusTree, n: Node)
    requires n in t.nodes && n.Shape(t.order)
    ensures n.bkeys in Arrays(t.nodes) && n.pointers in Arrays(t.nodes) && n.numKeys <= t.order - 1
  {
  }

  /** After the cut the same situation arises one level up, with one node fewer in the list. */
  lemma SplitPending(h: Heap, h': Heap, lv: seq<Level>, lv': seq<Level>, root: Node?, order: nat, keys: set<Key>, fl: seq<Node>,
                     left: Node, bk: Key, right: Node, k: nat, x: Level, i: nat, l: Level, p: nat, j: nat, u: Node, w: Node,
                     bkPrime: Key)
    requires Pending(h, lv, root, order, keys, k, x, i, left, bk, right)
    requires Supply(h, order, fl, u, k + 1, |lv| - 1) && fl != [] && w == fl[0]
    requires k < |lv| - 1 && l == lv[k + 1] && Site(h, l, k + 1, x, i, p, j, u) && |h[u].ks| == order - 1
    requires Kids(h, Insert(h[u].ps, j + 1, ToNode(right)), u, k)
    requires w in h && h[w].level == 0 && h[left].parent == u
    requires var c := Cut(order) - 1;
      0 < c < order - 1 && h' == CutHeap(h, u, w, j, bk, right, c) && bkPrime == Insert(h[u].ks, j, bk)[c]
    requires lv' == lv[k + 1 := Splice(l, p, 1, [Entry(ToNode(u), bkPrime), Entry(ToNode(w), l[p].s)])]
    ensures Pending(h', lv', root, order, keys, k + 1, l, p, u, bkPrime, w)
    ensures Supply(h', order, fl[1..], h'[u].parent, k + 2, |lv'| - 1)
    ensures Below(h, h', k)
    ensures forall n :: n in h ==> n in h' && (h[n].level > 0 ==> h'[n].level == h[n].level)
  {
    hide Linked, Expand, LevelOK, Parents, CutHeap, Supply, Kids, Occupied, KeysKnown, IsSplit, AtLevel, Below;
    var c := Cut(order) - 1;
    CutSummary(h, h', u, w, j, bk, right, c, k, order);
    SplitLinked(h, h', lv, lv', root, order, keys, left, bk, right, k, x, i, l, p, j, u, w, c, bkPrime);
    SplitCounts(h, h', lv, root, order, keys, k, x, i, left, bk, right, l, p, j, u, w, c);
    SplitSupply(h, h', lv, root, order, keys, fl, k, x, i, left, bk, right, l, p, j, u, w, c);
    CoveredSplit(h, h', lv, lv', k, l, p, u, bkPrime, w);
    PendingIntro(h', lv', root, order, keys, k, l, p, u, bkPrime, w);
  }

  /** The heap after the cut, node by node. */
  lemma CutSummary(h: Heap, h': Heap, u: Node, w: Node, j: nat, bk: Key, right: Node, c: nat, k: nat, order: nat)
    requires u in h && w in h && h[w].level == 0 && NodeOK(h, ToNode(u), k + 1) && k >= 1 && j < |h[u].ps| && c < |h[u].ks|
    requires Kids(h, Insert(h[u].ps, j + 1, ToNode(right)), u, k)
    requires h' == CutHeap(h, u, w, j, bk, right, c)
    ensures CutOutcome(h, h', u, w, j, bk, right, c, k)
  {
    hide CutHeap;
    CutVals(h, h', u, w, j, bk, right, c);
    var ps := Insert(h[u].ps, j + 1, ToNode(right));
    forall n | n in h && ToNode(n) in ps[c + 1..]
      ensures h[n].level == k
    {
      var m :| 0 <= m < |ps[c + 1..]| && ps[c + 1..][m] == ToNode(n);
      assert ps[c + 1 + m] == ToNode(n);
    }
  }

  ghost predicate CutOutcome(h: Heap, h': Heap, u: Node, w: Node, j: nat, bk: Key, right: Node, c: nat, k: nat) {
    && u in h && w in h && u != w && j < |h[u].ps| && |h[u].ps| == |h[u].ks| + 1 && c < |h[u].ks|
    && h'.Keys == h.Keys
    && h'[u] == h[u].(ks := Insert(h[u].ks, j, bk)[..c], ps := Insert(h[u].ps, j + 1, ToNode(right))[..c + 1])
    && h'[w] == NodeVal(false, Insert(h[u].ks, j, bk)[c + 1..], Insert(h[u].ps, j + 1, ToNode(right))[c + 1..],
                        Null, h[u].parent, k + 1)
    && h[u].level == k + 1 && h[w].level == 0
    && forall n :: n in h && n != u && n != w ==>
         h'[n] == if h[n].level == k then h[n].(parent := h'[n].parent) else h[n]
  }

  lemma SplitLinked(h: Heap, h': Heap, lv: seq<Level>, lv': seq<Level>, root: Node?, order: nat, keys: set<Key>, left: Node,
                    bk: Key, right: Node, k: nat, x: Level, i: nat, l: Level, p: nat, j: nat, u: Node, w: Node, c: nat, sep: Key)
    requires |lv| >= 2 && k < |lv| - 1 && l == lv[k + 1] && p < |l| && u in h && w in h && left in h && h[left].parent == u
    requires j < |h[u].ps| && |h[u].ps| == |h[u].ks| + 1 && 0 < c < |h[u].ks|
    requires sep == Insert(h[u].ks, j, bk)[c]
    requires lv' == lv[k + 1 := Splice(l, p, 1, [Entry(ToNode(u), sep), Entry(ToNode(w), l[p].s)])]
    requires h[w].level == 0 && h' == CutHeap(h, u, w, j, bk, right, c)
    requires Pending(h, lv, root, order, keys, k, x, i, left, bk, right) && Site(h, l, k + 1, x, i, p, j, u)
    ensures root != null && Linked(h', lv', root, k + 1, l) && |lv'| == |lv| && |lv| >= 2
    ensures AtLevel(h', l, k + 1)
    ensures k + 1 == |lv| - 1 ==> u == root
    ensures IsSplit(lv'[k + 1], l, p, u, sep, w)
  {
    hide Linked, LevelOK, Parents, Expand, CutHeap, IsSplit, Occupied, KeysKnown;
    Splits(h, h', lv, root, k, x, i, left, bk, right, l, p, j, u, w, c);
    LinkedAt(h, lv, root, k, x, k + 1);
    KeepsLevels(h, h', l, k, u, w, j, bk, right, c);
    if k + 1 == |lv| - 1 { TopIsRoot(h, lv, root, k, x); }
    SplitIs(lv'[k + 1], l, p, u, sep, w);
  }

  lemma SplitIs(y: Level, l: Level, p: nat, u: Node, bk: Key, w: Node)
    requires p < |l| && l[p].p == ToNode(u) && y == Splice(l, p, 1, [Entry(ToNode(u), bk), Entry(ToNode(w), l[p].s)])
    ensures IsSplit(y, l, p, u, bk, w)
  {
  }

  lemma TopIsRoot(h: Heap, lv: seq<Level>, root: Node, k: nat, x: Level)
    requires Linked(h, lv, root, k, x) && k + 1 == |lv| - 1
    ensures lv[k + 1] == [Entry(ToNode(root), null)]
  {
    RootLevel(h, lv, root, k, x);
  }

  lemma KeepsLevels(h: Heap, h': Heap, l: Level, k: nat, u: Node, w: Node, j: nat, bk: Key, right: Node, c: nat)
    requires LevelOK(h, l, k + 1) && u in h && w in h && h[u].level == k + 1 && h[w].level == 0
    requires j < |h[u].ps| && |h[u].ps| == |h[u].ks| + 1 && c < |h[u].ks|
    requires h' == CutHeap(h, u, w, j, bk, right, c)
    ensures AtLevel(h', l, k + 1)
  {
    hide CutHeap;
    CutVals(h, h', u, w, j, bk, right, c);
    forall m | 0 <= m < |l| ensures V(h', l[m].p).level == k + 1 {
      assert NodeOK(h, l[m].p, k + 1);
    }
  }

  /** Keys and occupancy after the cut. */
  lemma SplitCounts(h: Heap, h': Heap, lv: seq<Level>, root: Node?, order: nat, keys: set<Key>, k: nat, x: Level, i: nat,
                    left: Node, bk: Key, right: Node, l: Level, p: nat, j: nat, u: Node, w: Node, c: nat)
    requires Pending(h, lv, root, order, keys, k, x, i, left, bk, right) && k < |lv| - 1
    requires CutOutcome(h, h', u, w, j, bk, right, c, k) && |h[u].ks| == order - 1 && c == Cut(order) - 1 && !h[u].leaf
    requires k + 1 == |lv| - 1 ==> u == root
    ensures KeysKnown(h', keys) && Insert(h[u].ks, j, bk)[c] in keys
    ensures Occupied(h', order, if k + 1 == |lv| - 1 then null else root)
  {
    hide Linked, LevelOK, Parents, Expand, IsSplit, CutOutcome, KeysKnown, Occupied, Covered;
    SplitKnown(h, h', keys, u, w, j, bk, right, c, k);
    SplitOccupied(h, h', order, root, |lv|, u, w, j, bk, right, c, k);
  }

  lemma SplitKnown(h: Heap, h': Heap, keys: set<Key>, u: Node, w: Node, j: nat, bk: Key, right: Node, c: nat, k: nat)
    requires KeysKnown(h, keys) && bk in keys && CutOutcome(h, h', u, w, j, bk, right, c, k)
    ensures KeysKnown(h', keys) && Insert(h[u].ks, j, bk)[c] in keys
  {
    var ks := Insert(h[u].ks, j, bk);
    forall m | 0 <= m < |ks| ensures ks[m] != null && ks[m] in keys {
      assert ks[m] == if m < j then h[u].ks[m] else if m == j then bk else h[u].ks[m - 1];
    }
    hide Insert;
    forall n, m | n in h' && h'[n].level > 0 && 0 <= m < |h'[n].ks|
      ensures h'[n].ks[m] != null && h'[n].ks[m] in keys
    {
      if n == u { assert h'[n].ks[m] == ks[m]; }
      else if n == w { assert h'[n].ks[m] == ks[c + 1 + m]; }
      else { assert h'[n].ks[m] == h[n].ks[m]; }
    }
  }

  lemma SplitOccupied(h: Heap, h': Heap, order: nat, root: Node?, height: nat, u: Node, w: Node, j: nat, bk: Key, right: Node,
                      c: nat, k: nat)
    requires CutOutcome(h, h', u, w, j, bk, right, c, k) && order >= 4
    requires |h[u].ks| == order - 1 && c == Cut(order) - 1 && !h[u].leaf && k + 1 < height
    requires Occupied(h, order, if k == height - 1 then null else root) && (k + 1 == height - 1 ==> u == root)
    ensures Occupied(h', order, if k + 1 == height - 1 then null else root)
  {
    hide Insert;
    InsertLength(h[u].ks, j, bk);
  }

  lemma SplitSupply(h: Heap, h': Heap, lv: seq<Level>, root: Node?, order: nat, keys: set<Key>, fl: seq<Node>, k: nat, x: Level,
                    i: nat, left: Node, bk: Key, right: Node, l: Level, p: nat, j: nat, u: Node, w: Node, c: nat)
    requires Pending(h, lv, root, order, keys, k, x, i, left, bk, right) && k < |lv| - 1
    requires l == lv[k + 1] && Site(h, l, k + 1, x, i, p, j, u)
    requires Supply(h, order, fl, u, k + 1, |lv| - 1) && fl != [] && w == fl[0] && |h[u].ks| == order - 1
    requires CutOutcome(h, h', u, w, j, bk, right, c, k)
    ensures Supply(h', order, fl[1..], h'[u].parent, k + 2, |lv| - 1)
    ensures Below(h, h', k)
  {
    hide Linked, LevelOK, Parents, Expand, IsSplit, Occupied, KeysKnown, NodeList;
    ListTail(h, h', fl, u, w, j, bk, right, c, k);
    NeededAbove(h, h', lv, root, k, x, l, p, j, u, w, bk, right, c, order);
  }

  lemma ListTail(h: Heap, h': Heap, fl: seq<Node>, u: Node, w: Node, j: nat, bk: Key, right: Node, c: nat, k: nat)
    requires NodeList(h, fl) && fl != [] && w == fl[0] && CutOutcome(h, h', u, w, j, bk, right, c, k) && k >= 1
    requires forall n :: n in h && h[n].level == 0 ==> n in fl
    ensures NodeList(h', fl[1..])
    ensures forall n :: n in h' && h'[n].level == 0 ==> n in fl[1..]
  {
    forall m | 0 <= m < |fl[1..]|
      ensures fl[1..][m] in h' && h'[fl[1..][m]] == NodeVal(false, [], [NextInList(fl[1..], m)], Null, null, 0)
    {
      assert fl[1..][m] == fl[m + 1] && h[fl[m + 1]].level == 0 && NextInList(fl, m + 1) == NextInList(fl[1..], m);
      assert fl[0] != fl[m + 1];
    }
    forall n | n in h' && h'[n].level == 0 ensures n in fl[1..] {
      assert n in fl && n != fl[0];
      var m :| 0 <= m < |fl| && fl[m] == n;
      assert fl[1..][m - 1] == n;
    }
  }

  /** One full node fewer on the way up. */
  lemma NeededAbove(h: Heap, h': Heap, lv: seq<Level>, root: Node?, k: nat, x: Level, l: Level, p: nat, j: nat, u: Node, w: Node,
                    bk: Key, right: Node, c: nat, order: nat)
    requires root != null && Linked(h, lv, root, k, x) && 1 <= k < |lv| - 1 && l == lv[k + 1] && p < |l| && l[p].p == ToNode(u)
    requires CutOutcome(h, h', u, w, j, bk, right, c, k) && |h[u].ks| == order - 1
    ensures Needed(h, order, u, k + 1, |lv| - 1) == 1 + Needed(h', order, h'[u].parent, k + 2, |lv| - 1)
  {
    hide Linked, LevelOK, Parents, Expand;
    LinkedAt(h, lv, root, k, x, k + 1);
    if k + 1 < |lv| - 1 {
      LinkedAt(h, lv, root, k, x, k + 2);
      LevelDistinct(h, l, k + 1);
      var a, b := ParentSlot(h, lv[k + 2], k + 1, l, p);
      assert lv[k + 2][a] in lv[k + 2];
      NeededFrame(h, h', lv, root, k, x, order, k + 2, h[u].parent);
    } else {
      TopIsRoot(h, lv, root, k, x);
      RootHasNoParent(h, lv, root, k, x);
    }
  }

  lemma RootHasNoParent(h: Heap, lv: seq<Level>, root: Node, k: nat, x: Level)
    requires Linked(h, lv, root, k, x)
    ensures root in h && h[root].parent == null
  {
  }

  lemma CoveredSplit(h: Heap, h': Heap, lv: seq<Level>, lv': seq<Level>, k: nat, l: Level, p: nat, u: Node, bk: Key, w: Node)
    requires Covered(h, lv) && k + 1 < |lv| && l == lv[k + 1] && p < |l| && l[p].p == ToNode(u) && w in h'
    requires lv' == lv[k + 1 := Splice(l, p, 1, [Entry(ToNode(u), bk), Entry(ToNode(w), l[p].s)])]
    requires h'[w].level == k + 1
    requires h'.Keys == h.Keys && forall n :: n in h && n != w ==> h'[n].level == h[n].level
    ensures Covered(h', lv')
  {
    var l' := lv'[k + 1];
    assert l'[p + 1].p == ToNode(w);
    forall e | e in l ensures exists m :: 0 <= m < |l'| && l'[m].p == e.p {
      var m :| 0 <= m < |l| && l[m] == e;
      assert l'[if m <= p then m else m + 1].p == e.p;
    }
    forall n | n in h' && h'[n].level > 0
      ensures h'[n].level < |lv'| && ToNode(n) in PtrsOf(lv'[h'[n].level])
    {
      if n == w {
        InPtrs(l', p + 1);
      } else if h[n].level == k + 1 {
        var e :| e in l && e.p == ToNode(n);
        var m :| 0 <= m < |l'| && l'[m].p == e.p;
        InPtrs(l', m);
      }
    }
  }

  lemma PendingIntro(h: Heap, lv: seq<Level>, root: Node?, order: nat, keys: set<Key>, k: nat, l: Level, p: nat, u: Node,
                     bk: Key, w: Node)
    requires root != null && Linked(h, lv, root, k + 1, l) && k + 1 < |lv| && |lv| >= 2
    requires IsSplit(lv[k + 1], l, p, u, bk, w) && AtLevel(h, l, k + 1)
    requires u in h && w in h && u != w && h[w].parent == h[u].parent
    requires KeysKnown(h, keys) && bk in keys && order >= 4 && Occupied(h, order, if k + 1 == |lv| - 1 then null else root)
    requires Covered(h, lv)
    ensures Pending(h, lv, root, order, keys, k + 1, l, p, u, bk, w)
  {
    hide Linked, IsSplit, AtLevel, KeysKnown, Occupied;
  }

  lemma SplitOutcome(h: Heap, h1: Heap, h2: Heap, lv: seq<Level>, lv1: seq<Level>, lv2: seq<Level>, root: Node?, order: nat,
                     keys: set<Key>, k: nat)
    requires Below(h, h1, k) && k + 1 < |lv| && |lv1| == |lv| && lv1[..k + 1] == lv[..k + 1]
    requires Outcome(h1, h2, lv1, lv2, root, order, keys, k + 1)
    requires forall n :: n in h ==> n in h1 && (h[n].level > 0 ==> h1[n].level == h[n].level)
    ensures Outcome(h, h2, lv, lv2, root, order, keys, k)
  {
    hide Complete;
    assert lv2[..k + 1] == lv2[..k + 2][..k + 1] == lv1[..k + 2][..k + 1] == lv1[..k + 1];
  }
}
