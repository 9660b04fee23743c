/** What removing an entry from a leaf does to the tree, before nodes are rebalanced. */
module BPDelLeaf {
  import opened BPTypes
  import opened BPLevels
  import opened BPSlots
  import opened BPSteps
  import opened BPTree
  import opened BPInsert
  import opened BPFind
  import opened BPLookup
  import opened BPLeafSteps
  import opened BPFix
  import opened BPSeps
  import opened BPRename

  /** The content without the key at d and without the pointer at e. The two positions differ when an earlier slot of
      the leaf holds the same record, because the pointer is searched for by identity. */
  ghost function RemoveSlots(c: Level, d: nat, e: nat): Level
    requires d < |c| && e < |c|
  {
    seq(|c| - 1, m requires 0 <= m < |c| - 1 => Entry(c[if m < e then m else m + 1].p, c[if m < d then m else m + 1].s))
  }

  /** Every node has its minimum of keys, except that n may be one short. */
  ghost predicate Slack(h: Heap, order: nat, root: Node?, n: Node?) {
    order >= 4 && forall m :: m in h && h[m].level > 0 ==>
      |h[m].ks| + (if m == n then 1 else 0) >= if m == root then 1 else MinKeys(order, h[m].leaf)
  }

  /** A tree that is right in everything, except that node n may be one key short. */
  ghost predicate Loose(h: Heap, lv: seq<Level>, root: Node?, order: nat, keys: set<Key>, n: Node?) {
    && root != null && Tree(h, lv, root) && ContentOK(lv[0]) && Leaves(h, lv[1])
    && Slack(h, order, root, n) && KeysKnown(h, keys) && Covered(h, lv)
  }

  /** Key bk leaves slot i of leaf p, a pointer to rec leaves slot j; w takes bk's place as a separator. */
  ghost predicate Victim(h: Heap, lv: seq<Level>, p: nat, u: Node, lo: nat, n: nat, i: nat, j: nat, bk: Key, w: Key) {
    && |lv| >= 2 && p < |lv[1]| && lv[1][p].p == ToNode(u) && u in h && LeafAt(h, lv[1], lv[0], p, lo, n)
    && j <= i < n && h[u].ks[i] == bk && h[u].leaf
    && (if i == n - 1 && i > 0 && w != bk then w == h[u].ks[i - 1] else w == bk && !HasSep(lv[1], bk))
  }

  ghost function DelHeap(h: Heap, u: Node, i: nat, j: nat, bk: Key, w: Key): Heap
    requires u in h && i < |h[u].ks| && j < |h[u].ps|
  {
    RenameHeap(h, bk, w)[u := h[u].(ks := Remove(h[u].ks, i), ps := Remove(h[u].ps, j))]
  }

  ghost function DelLevels(lv: seq<Level>, d: nat, e: nat, bk: Key, w: Key): seq<Level>
    requires |lv| >= 1 && d < |lv[0]| && e < |lv[0]|
  {
    RenameLevels(lv, bk, w)[0 := RemoveSlots(lv[0], d, e)]
  }

  lemma DelTree(h: Heap, lv: seq<Level>, root: Node, p: nat, u: Node, lo: nat, n: nat, i: nat, j: nat, bk: Key, w: Key)
    requires Tree(h, lv, root) && Victim(h, lv, p, u, lo, n, i, j, bk, w)
    ensures Tree(DelHeap(h, u, i, j, bk, w), DelLevels(lv, lo + i, lo + j, bk, w), root)
  {
    hide Linked, LevelOK, Parents, Expand, RenameHeap, HasSep;
    LeafLevelOK(h, lv, root);
    NodeAt(h, lv[1], p, 1);
    RenameTree(h, lv, root, bk, w);
    var hr, lvr := RenameHeap(h, bk, w), RenameLevels(lv, bk, w);
    LeafLevelOK(hr, lvr, root);
    NodeAt(hr, lvr[1], p, 1);
    RenameV(h, ToNode(u), bk, w);
    RenameHas(h, u, bk, w);
    SamePrefix(h, lv[1], p, bk, w);
    var ks, ps := Remove(h[u].ks, i), Remove(h[u].ps, j);
    var h' := DelHeap(h, u, i, j, bk, w);
    FixLeaf(hr, h', lvr, root, p, u, ks, ps);
    DelContent(h, lv, p, u, lo, n, i, j, bk, w, h', lvr[1][p].s);
    assert lvr[0 := RemoveSlots(lv[0], lo + i, lo + j)] == DelLevels(lv, lo + i, lo + j, bk, w);
  }

  lemma RenameHas(h: Heap, u: Node, a: Key, b: Key)
    requires u in h && h[u].leaf
    ensures u in RenameHeap(h, a, b) && RenameHeap(h, a, b)[u] == h[u]
  {
  }

  lemma SamePrefix(h: Heap, l: Level, p: nat, a: Key, b: Key)
    requires LevelOK(h, l, 1) && p <= |l|
    ensures Expand(RenameHeap(h, a, b), RenameLevel(l, a, b)[..p]) == Expand(h, l[..p])
  {
    assert RenameLevel(l, a, b)[..p] == RenameLevel(l[..p], a, b);
    forall i | 0 <= i < |l[..p]| ensures V(h, l[..p][i].p).leaf && |V(h, l[..p][i].p).ks| == |V(h, l[..p][i].p).ps| {
      assert NodeOK(h, l[i].p, 1);
    }
    RenameLeaves(h, l[..p], a, b);
  }

  lemma DelContent(h: Heap, lv: seq<Level>, p: nat, u: Node, lo: nat, n: nat, i: nat, j: nat, bk: Key, w: Key, h': Heap, s: Key?)
    requires Victim(h, lv, p, u, lo, n, i, j, bk, w)
    requires u in h' && h'[u].ks == Remove(h[u].ks, i) && h'[u].ps == Remove(h[u].ps, j)
    ensures Splice(lv[0], lo, n, Row(h'[u], s)) == RemoveSlots(lv[0], lo + i, lo + j)
  {
    var c := lv[0];
    var r := Row(h'[u], s);
    forall m | 0 <= m < n - 1 ensures r[m] == RemoveSlots(c, lo + i, lo + j)[lo + m] {
      assert c[lo + m] == Entry(h[u].ps[m], h[u].ks[m]);
      assert c[lo + (m + 1)] == Entry(h[u].ps[m + 1], h[u].ks[m + 1]);
    }
    Pieces(c, lo, n, i, j, r);
  }

  lemma Pieces(c: Level, lo: nat, n: nat, i: nat, j: nat, r: Level)
    requires lo + n <= |c| && i < n && j < n && |r| == n - 1
    requires forall m :: 0 <= m < n - 1 ==> r[m] == RemoveSlots(c, lo + i, lo + j)[lo + m]
    ensures Splice(c, lo, n, r) == RemoveSlots(c, lo + i, lo + j)
  {
    var a, b := Splice(c, lo, n, r), RemoveSlots(c, lo + i, lo + j);
    forall m | 0 <= m < |b| ensures a[m] == b[m] {
      if lo <= m < lo + n - 1 { assert r[m - lo] == b[lo + (m - lo)]; }
    }
  }

  /** A key object occurs in one leaf slot only. */
  lemma LeafKeyOnce(h: Heap, lv: seq<Level>, p: nat, lo: nat, n: nat, i: nat, q: nat, m: nat)
    requires |lv| >= 2 && LevelOK(h, lv[1], 1) && Expand(h, lv[1]) == lv[0] && ContentOK(lv[0])
    requires LeafAt(h, lv[1], lv[0], p, lo, n) && i < n
    requires q < |lv[1]| && m < |V(h, lv[1][q].p).ks| && V(h, lv[1][q].p).ks[m] == V(h, lv[1][p].p).ks[i]
    ensures q == p && m == i
  {
    hide Expand, LevelOK;
    var lo', n' := LeafSlice(h, lv[1], lv[0], q);
    assert lv[0][lo + i].s == lv[0][lo' + m].s;
    SamePlace(h, lv[1], 1, p, i, q, m);
  }

  lemma DelContentOK(c: Level, d: nat, e: nat)
    requires ContentOK(c) && d < |c| && e < |c|
    ensures ContentOK(RemoveSlots(c, d, e))
  {
  }

  lemma DelLeaves(h: Heap, lv: seq<Level>, root: Node, p: nat, u: Node, lo: nat, n: nat, i: nat, j: nat, bk: Key, w: Key)
    requires Tree(h, lv, root) && ContentOK(lv[0]) && Leaves(h, lv[1]) && Victim(h, lv, p, u, lo, n, i, j, bk, w)
    ensures Leaves(DelHeap(h, u, i, j, bk, w), DelLevels(lv, lo + i, lo + j, bk, w)[1])
  {
    hide Linked, LevelOK, Parents, Expand, Leaves, ContentOK, HasSep, RenameHeap;
    LeafLevelOK(h, lv, root);
    var h', l' := DelHeap(h, u, i, j, bk, w), DelLevels(lv, lo + i, lo + j, bk, w)[1];
    assert l' == RenameLevel(lv[1], bk, w);
    forall q | 0 <= q < |l'| ensures LeafOK(h', l', q) {
      DelLeafOK(h, lv, p, u, lo, n, i, j, bk, w, q);
    }
    LeavesIntro(h', l');
  }

  lemma DelLeafOK(h: Heap, lv: seq<Level>, p: nat, u: Node, lo: nat, n: nat, i: nat, j: nat, bk: Key, w: Key, q: nat)
    requires |lv| >= 2 && LevelOK(h, lv[1], 1) && Expand(h, lv[1]) == lv[0] && ContentOK(lv[0]) && Leaves(h, lv[1])
    requires Victim(h, lv, p, u, lo, n, i, j, bk, w) && q < |lv[1]|
    ensures LeafOK(DelHeap(h, u, i, j, bk, w), RenameLevel(lv[1], bk, w), q)
  {
    hide Expand, ContentOK, LevelOK, DelHeap, RenameLevel;
    var l := lv[1];
    NodeAt(h, l, q, 1);
    NodeAt(h, l, p, 1);
    NextSame(l, bk, w, q);
    if l[q].s == bk {
      assert HasSep(lv[1], bk);
      LeafKeyOnce(h, lv, p, lo, n, i, q, |V(h, l[q].p).ks| - 1);
    }
    if q == p {
      DelThisLeaf(h, lv, p, u, lo, n, i, j, bk, w);
    } else {
      LevelDistinct(h, l, 1);
      DelOtherLeaf(h, l, u, i, j, bk, w, q);
    }
  }

  lemma DelThisLeaf(h: Heap, lv: seq<Level>, p: nat, u: Node, lo: nat, n: nat, i: nat, j: nat, bk: Key, w: Key)
    requires Victim(h, lv, p, u, lo, n, i, j, bk, w) && Leaves(h, lv[1])
    requires lv[1][p].s == bk ==> i == n - 1
    requires NextPtr(RenameLevel(lv[1], bk, w), p) == NextPtr(lv[1], p)
    ensures LeafOK(DelHeap(h, u, i, j, bk, w), RenameLevel(lv[1], bk, w), p)
  {
    var l, h', ks := lv[1], DelHeap(h, u, i, j, bk, w), h[u].ks;
    assert V(h', l[p].p) == h'[u];
    if l[p].s == bk {
      assert HasSep(l, bk);
    }
    RemoveLast(ks, i);
  }

  lemma RemoveLast(ks: seq<Key?>, i: nat)
    requires i < |ks|
    ensures |Remove(ks, i)| == |ks| - 1
    ensures i < |ks| - 1 ==> Remove(ks, i)[|ks| - 2] == ks[|ks| - 1]
    ensures i == |ks| - 1 && i > 0 ==> Remove(ks, i)[|ks| - 2] == ks[|ks| - 2]
  {
  }

  lemma DelOtherLeaf(h: Heap, l: Level, u: Node, i: nat, j: nat, bk: Key, w: Key, q: nat)
    requires Leaves(h, l) && q < |l| && NodeOK(h, l[q].p, 1) && l[q].p != ToNode(u) && u in h && i < |h[u].ks| && j < |h[u].ps|
    requires l[q].s != bk && NextPtr(RenameLevel(l, bk, w), q) == NextPtr(l, q)
    ensures LeafOK(DelHeap(h, u, i, j, bk, w), RenameLevel(l, bk, w), q)
  {
    RenameV(h, l[q].p, bk, w);
    assert V(DelHeap(h, u, i, j, bk, w), l[q].p) == V(h, l[q].p);
  }

  lemma NextSame(l: Level, a: Key, b: Key, i: nat)
    requires i < |l|
    ensures NextPtr(RenameLevel(l, a, b), i) == NextPtr(l, i)
  {
  }

  lemma DelKnown(h: Heap, lv: seq<Level>, root: Node, order: nat, keys: set<Key>, p: nat, u: Node, lo: nat, n: nat, i: nat, j: nat,
                 bk: Key, w: Key)
    requires Complete(h, lv, root, order, keys) && ContentOK(lv[0]) && Leaves(h, lv[1]) && Victim(h, lv, p, u, lo, n, i, j, bk, w)
    ensures KeysKnown(DelHeap(h, u, i, j, bk, w), keys - {bk})
  {
    hide Linked, LevelOK, Parents, Expand, ContentOK, Occupied, HasSep, PtrsOf, LeafSeps, Chain;
    LeafLevelOK(h, lv, root);
    var h' := DelHeap(h, u, i, j, bk, w);
    forall m, x | m in h' && h'[m].level > 0 && 0 <= x < |h'[m].ks|
      ensures h'[m].ks[x] != null && h'[m].ks[x] in keys - {bk}
    {
      var q := ListedAt(h, lv, m);
      var y := if m == u && x >= i then x + 1 else x;
      assert h[m].ks[y] != null && h[m].ks[y] in keys;
      if h[m].leaf {
        LeafIsOne(h, lv, root, m, q);
        assert h'[m].ks[x] == h[m].ks[y];
        if h[m].ks[y] == bk { LeafKeyOnce(h, lv, p, lo, n, i, q, y); }
      } else {
        assert h'[m].ks[x] == SwapKey(h[m].ks[x], bk, w);
        InnerKeyOther(h, lv, root, order, keys, p, u, lo, n, i, j, bk, w, m, q, x);
      }
    }
  }

  lemma LeafIsOne(h: Heap, lv: seq<Level>, root: Node, m: Node, q: nat)
    requires Tree(h, lv, root) && m in h && 0 < h[m].level < |lv| && q < |lv[h[m].level]| && lv[h[m].level][q].p == ToNode(m)
    ensures h[m].leaf <==> h[m].level == 1
  {
    hide LevelOK, Parents, Expand;
    LinkedAt(h, lv, root, 0, lv[0], h[m].level);
    NodeAt(h, lv[h[m].level], q, h[m].level);
  }

  /** In an internal slot the victim's key, if it is there, is exchanged for a known key. */
  lemma InnerKeyOther(h: Heap, lv: seq<Level>, root: Node, order: nat, keys: set<Key>, p: nat, u: Node, lo: nat, n: nat,
                      i: nat, j: nat, bk: Key, w: Key, m: Node, q: nat, x: nat)
    requires Complete(h, lv, root, order, keys) && ContentOK(lv[0]) && Leaves(h, lv[1]) && Victim(h, lv, p, u, lo, n, i, j, bk, w)
    requires m in h && !h[m].leaf && 0 < h[m].level < |lv| && q < |lv[h[m].level]| && lv[h[m].level][q].p == ToNode(m)
    requires x < |h[m].ks|
    ensures SwapKey(h[m].ks[x], bk, w) in keys - {bk}
  {
    hide Linked, LevelOK, Parents, Expand, ContentOK, Occupied, PtrsOf, LeafSeps, Chain, HasSep;
    var k := h[m].level;
    LeafIsOne(h, lv, root, m, q);
    assert h[m].ks[x] != null && h[m].ks[x] in keys;
    if h[m].ks[x] == bk {
      assert InSlot(h, lv, bk, k, q, x);
      var z := SlotSep(h, lv, root, bk, k, q, x);
      SepBelow(h, lv, root, 1, k - 1, bk);
      LeafLevelOK(h, lv, root);
      NodeAt(h, lv[1], p, 1);
      assert w == h[u].ks[i - 1] && h[u].ks[i - 1] in keys;
    }
  }

  lemma DelSlack(h: Heap, order: nat, root: Node, u: Node, i: nat, j: nat, bk: Key, w: Key)
    requires Occupied(h, order, root) && u in h && i < |h[u].ks| && j < |h[u].ps|
    ensures Slack(DelHeap(h, u, i, j, bk, w), order, root, u)
  {
  }

  lemma DelCovered(h: Heap, lv: seq<Level>, u: Node, d: nat, e: nat, i: nat, j: nat, bk: Key, w: Key)
    requires |lv| >= 1 && Covered(h, lv) && u in h && i < |h[u].ks| && j < |h[u].ps| && d < |lv[0]| && e < |lv[0]|
    ensures Covered(DelHeap(h, u, i, j, bk, w), DelLevels(lv, d, e, bk, w))
  {
    var h', lv' := DelHeap(h, u, i, j, bk, w), DelLevels(lv, d, e, bk, w);
    forall n | n in h' && h'[n].level > 0 ensures h'[n].level < |lv'| && ToNode(n) in PtrsOf(lv'[h'[n].level]) {
      var k := h[n].level;
      assert h'[n].level == k;
      var x := ListedAt(h, lv, n);
      assert lv'[k] == RenameLevel(lv[k], bk, w) && lv'[k][x].p == ToNode(n);
      InPtrs(lv'[k], x);
    }
  }

  /** The tree after an entry was removed from a leaf: all is well but for the leaf's occupancy. */
  lemma DelLoose(h: Heap, lv: seq<Level>, root: Node, order: nat, keys: set<Key>, p: nat, u: Node, lo: nat, n: nat, i: nat, j: nat,
                 bk: Key, w: Key)
    requires Complete(h, lv, root, order, keys) && ContentOK(lv[0]) && Leaves(h, lv[1]) && Victim(h, lv, p, u, lo, n, i, j, bk, w)
    ensures Loose(DelHeap(h, u, i, j, bk, w), DelLevels(lv, lo + i, lo + j, bk, w), root, order, keys - {bk}, u)
    ensures forall m :: m in DelHeap(h, u, i, j, bk, w) ==> DelHeap(h, u, i, j, bk, w)[m].level > 0
  {
    hide Linked, LevelOK, Parents, Expand, ContentOK, Occupied, PtrsOf, Leaves, HasSep, KeysKnown, Covered, Slack, RemoveSlots;
    DelTree(h, lv, root, p, u, lo, n, i, j, bk, w);
    DelContentOK(lv[0], lo + i, lo + j);
    DelLeaves(h, lv, root, p, u, lo, n, i, j, bk, w);
    DelSlack(h, order, root, u, i, j, bk, w);
    DelKnown(h, lv, root, order, keys, p, u, lo, n, i, j, bk, w);
    DelCovered(h, lv, u, lo + i, lo + j, i, j, bk, w);
  }
}
