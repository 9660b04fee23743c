/** Deletion inside the tree: merging two siblings leaves a gap that their parent closes by giving up a key and a child. */
module BPMerge {
  import opened BPTypes
  import opened BPLevels
  import opened BPSlots
  import opened BPSteps
  import opened BPInsertSteps
  import opened BPTree
  import opened BPInsert
  import opened BPFind
  import opened BPLeafSteps
  import opened BPFix
  import opened BPSeps
  import opened BPDelLeaf

  /** a and b stand side by side at positions q and q + 1 of level k, described as x by their common parent u: slots
      j and j + 1 of entry p of level k + 1. */
  ghost predicate Siblings(h: Heap, l: Level, x: Level, k: nat, q: nat, p: nat, j: nat, u: Node, a: Node, b: Node, bk: Key) {
    && p < |l| && l[p].p == ToNode(u) && NodeOK(h, ToNode(u), k + 1)
    && j < |h[u].ks| && j + 1 < |h[u].ps|
    && h[u].ps[j] == ToNode(a) && h[u].ps[j + 1] == ToNode(b) && h[u].ks[j] == bk
    && q == |Expand(h, l[..p])| + j && q + 1 < |x|
    && x[q] == Entry(ToNode(a), bk) && x[q + 1].p == ToNode(b)
  }

  ghost predicate DistinctPtrs(x: Level) {
    forall c, d :: 0 <= c < d < |x| ==> x[c].p != x[d].p
  }

  /** b has been merged into a, and the parent u does not know yet. */
  ghost predicate Gap(h: Heap, lv: seq<Level>, root: Node?, order: nat, keys: set<Key>, k: nat, x: Level, q: nat, p: nat, j: nat,
                      u: Node, a: Node, b: Node, bk: Key) {
    && root != null && Linked(h, lv, root, k, x) && 1 <= k < |lv| - 1 && AtLevel(h, x, k)
    && Siblings(h, lv[k + 1], x, k, q, p, j, u, a, b, bk)
    && lv[k] == Splice(x, q, 2, [Entry(ToNode(a), x[q + 1].s)])
    && DistinctPtrs(x) && DistinctSeps(x) && b in h && h[b].level == k
    && ContentOK(lv[0]) && Leaves(h, lv[1])
    && Slack(h - {b}, order, root, null) && KeysKnown(h, keys) && Covered(h - {b}, lv)
  }

  ghost function CloseGap(h: Heap, u: Node, b: Node, j: nat): Heap
    requires u in h && b in h && j < |h[u].ks| && j + 1 < |h[u].ps|
  {
    h[u := h[u].(ks := Remove(h[u].ks, j), ps := Remove(h[u].ps, j + 1))][b := h[b].(level := 0)]
  }

  lemma RowRemoveInner(v: NodeVal, v': NodeVal, s: Key?, j: nat)
    requires |v.ps| == |v.ks| + 1 && j < |v.ks|
    requires v'.ks == Remove(v.ks, j) && v'.ps == Remove(v.ps, j + 1)
    ensures Row(v', s) == Splice(Row(v, s), j, 2, [Entry(v.ps[j], Row(v, s)[j + 1].s)])
  {
  }

  lemma RowsAfter(h: Heap, l: Level, p: nat, j: nat, x: Level, n: nat, mid: Level)
    requires p < |l| && x == Expand(h, l) && j + n <= |V(h, l[p].p).ps|
    ensures |Expand(h, l[..p])| + j + n <= |x|
    ensures Splice(x, |Expand(h, l[..p])| + j, n, mid)
         == Expand(h, l[..p]) + Splice(Row(V(h, l[p].p), l[p].s), j, n, mid) + Expand(h, l[p + 1..])
    ensures forall m :: 0 <= m < |V(h, l[p].p).ps| ==>
      |Expand(h, l[..p])| + m < |x| && x[|Expand(h, l[..p])| + m] == Row(V(h, l[p].p), l[p].s)[m]
  {
    hide *;
    var a, r, b := Expand(h, l[..p]), Row(V(h, l[p].p), l[p].s), Expand(h, l[p + 1..]);
    ExpandAround(h, l, p);
    SpliceInside(a, r, b, j, n, mid);
    Middle(a, r, b);
  }

  lemma CloseTree(h: Heap, lv: seq<Level>, root: Node?, order: nat, keys: set<Key>, k: nat, x: Level, q: nat, p: nat, j: nat,
                  u: Node, a: Node, b: Node, bk: Key)
    requires Gap(h, lv, root, order, keys, k, x, q, p, j, u, a, b, bk)
    ensures Tree(CloseGap(h, u, b, j), lv, root)
  {
    hide Linked, LevelOK, Parents, Expand, Slack, KeysKnown, Covered, Leaves, ContentOK, DistinctSeps, DistinctPtrs;
    var l := lv[k + 1];
    LinkedAt(h, lv, root, k, x, k);
    LinkedAt(h, lv, root, k, x, k + 1);
    ChildLevels(h, l, k);
    KidsOf(h, l, k, p, u);
    var ks, ps := Remove(h[u].ks, j), Remove(h[u].ps, j + 1);
    KidsFewer(h, h[u].ps, u, k, j + 1);
    var h1 := h[u := h[u].(ks := ks, ps := ps)];
    RowsAfter(h, l, p, j, x, 2, [Entry(ToNode(a), x[q + 1].s)]);
    RowRemoveInner(h[u], h1[u], l[p].s, j);
    FixParent(h, h1, lv, root, k, x, l, p, u, ks, ps);
    GapUnlisted(h, h1, lv, root, k, x, q, a, b);
    TreeAgree(h1, CloseGap(h, u, b, j), lv, root);
  }

  lemma KidsFewer(h: Heap, ps: seq<Ptr>, u: Node, k: nat, j: nat)
    requires Kids(h, ps, u, k) && j < |ps|
    ensures Kids(h, Remove(ps, j), u, k)
  {
    var ps' := Remove(ps, j);
    assert forall m :: 0 <= m < |ps'| ==> ps'[m] == ps[if m < j then m else m + 1];
  }

  /** The merged-away node is on no level. */
  lemma GapUnlisted(h: Heap, h1: Heap, lv: seq<Level>, root: Node, k: nat, x: Level, q: nat, a: Node, b: Node)
    requires Tree(h1, lv, root) && 1 <= k < |lv| && q + 1 < |x| && x[q + 1].p == ToNode(b) && x[q].p == ToNode(a)
    requires DistinctPtrs(x) && lv[k] == Splice(x, q, 2, [Entry(ToNode(a), x[q + 1].s)])
    requires b in h1 && h1[b].level == k
    ensures forall m, i :: 1 <= m < |lv| && 0 <= i < |lv[m]| ==> lv[m][i].p != ToNode(b)
    ensures forall h': Heap {:trigger Agree(h1, h', lv)} :: (forall n :: n != b ==> (n in h' <==> n in h1) && (n in h1 ==> h'[n] == h1[n])) ==> Agree(h1, h', lv)
  {
    hide Linked, LevelOK, Parents, Expand;
    forall m, i | 1 <= m < |lv| && 0 <= i < |lv[m]| ensures lv[m][i].p != ToNode(b) {
      LinkedAt(h1, lv, root, 0, lv[0], m);
      NodeAt(h1, lv[m], i, m);
      if m == k { assert lv[k][i].p == x[if i <= q then i else i + 1].p; }
    }
  }

  lemma CloseLoose(h: Heap, lv: seq<Level>, root: Node?, order: nat, keys: set<Key>, k: nat, x: Level, q: nat, p: nat, j: nat,
                   u: Node, a: Node, b: Node, bk: Key)
    requires Gap(h, lv, root, order, keys, k, x, q, p, j, u, a, b, bk)
    ensures Loose(CloseGap(h, u, b, j), lv, root, order, keys, u)
  {
    hide Linked, LevelOK, Parents, Expand, Slack, KeysKnown, Covered, Leaves, ContentOK, DistinctSeps, DistinctPtrs;
    var h' := CloseGap(h, u, b, j);
    CloseTree(h, lv, root, order, keys, k, x, q, p, j, u, a, b, bk);
    CloseLeaves(h, lv, root, order, keys, k, x, q, p, j, u, a, b, bk);
    CloseCounts(h, lv, root, order, keys, k, u, b, j);
  }

  lemma CloseCounts(h: Heap, lv: seq<Level>, root: Node?, order: nat, keys: set<Key>, k: nat, u: Node, b: Node, j: nat)
    requires u in h && b in h && u != b && j < |h[u].ks| && j + 1 < |h[u].ps| && h[u].level > 0
    requires Slack(h - {b}, order, root, null) && KeysKnown(h, keys) && Covered(h - {b}, lv)
    ensures Slack(CloseGap(h, u, b, j), order, root, u) && KeysKnown(CloseGap(h, u, b, j), keys) && Covered(CloseGap(h, u, b, j), lv)
  {
    hide PtrsOf;
    var h' := CloseGap(h, u, b, j);
    forall n, i | n in h' && h'[n].level > 0 && 0 <= i < |h'[n].ks| ensures h'[n].ks[i] != null && h'[n].ks[i] in keys {
      if n == u {
        assert h'[u].ks[i] == h[u].ks[if i < j then i else i + 1];
      } else {
        assert h'[n].ks[i] == h[n].ks[i];
      }
    }
    forall n | n in h' && h'[n].level > 0 ensures h'[n].level < |lv| && ToNode(n) in PtrsOf(lv[h'[n].level]) {
      assert n in h - {b} && (h - {b})[n].level == h'[n].level;
    }
    forall m | m in h' && h'[m].level > 0
      ensures |h'[m].ks| + (if m == u then 1 else 0) >= if m == root then 1 else MinKeys(order, h'[m].leaf)
    {
      assert m in h - {b} && (h - {b})[m] == h[m];
    }
  }

  lemma CloseLeaves(h: Heap, lv: seq<Level>, root: Node?, order: nat, keys: set<Key>, k: nat, x: Level, q: nat, p: nat, j: nat,
                    u: Node, a: Node, b: Node, bk: Key)
    requires Gap(h, lv, root, order, keys, k, x, q, p, j, u, a, b, bk)
    ensures Leaves(CloseGap(h, u, b, j), lv[1])
  {
    hide Linked, LevelOK, Parents, Expand, Slack, KeysKnown, Covered, Leaves, ContentOK, DistinctSeps;
    var h', l := CloseGap(h, u, b, j), lv[1];
    LinkedAt(h, lv, root, k, x, 1);
    forall i | 0 <= i < |l| ensures V(h', l[i].p).ks == V(h, l[i].p).ks && V(h', l[i].p).next == V(h, l[i].p).next {
      NodeAt(h, l, i, 1);
      assert l[i].p != ToNode(u);
    }
    LeavesSame(h, h', l);
  }

  // ----- Siblings -----

  /** The slot of a node in its parent. */
  lemma SlotOf(h: Heap, lv: seq<Level>, root: Node, k: nat, i: nat, n: Node) returns (p: nat, j: nat, u: Node)
    requires Tree(h, lv, root) && 1 <= k < |lv| - 1 && i < |lv[k]| && lv[k][i].p == ToNode(n)
    ensures p < |lv[k + 1]| && lv[k + 1][p].p == ToNode(u) && NodeOK(h, ToNode(u), k + 1) && n in h && h[n].parent == u
    ensures j < |h[u].ps| && h[u].ps[j] == ToNode(n) && i == |Expand(h, lv[k + 1][..p])| + j
    ensures forall m :: 0 <= m < |h[u].ps| && m != j ==> h[u].ps[m] != ToNode(n)
  {
    hide Linked, LevelOK, Parents, Expand;
    LinkedAt(h, lv, root, 0, lv[0], k);
    LinkedAt(h, lv, root, 0, lv[0], k + 1);
    LevelDistinct(h, lv[k], k);
    NodeAt(h, lv[k], i, k);
    p, j := ParentSlot(h, lv[k + 1], k, lv[k], i);
    u := lv[k + 1][p].p.node;
  }

  /** Neighbouring slots of a node are siblings. */
  lemma SiblingSlots(h: Heap, lv: seq<Level>, root: Node, k: nat, p: nat, j: nat, u: Node) returns (q: nat, a: Node, b: Node, bk: Key)
    requires Tree(h, lv, root) && 1 <= k < |lv| - 1 && p < |lv[k + 1]| && lv[k + 1][p].p == ToNode(u)
    requires u in h && j + 1 < |h[u].ps|
    ensures Siblings(h, lv[k + 1], lv[k], k, q, p, j, u, a, b, bk)
    ensures a != b && NodeOK(h, ToNode(a), k) && NodeOK(h, ToNode(b), k) && h[a].parent == u && h[b].parent == u
    ensures q + 1 < |lv[k]| && lv[k][q] == Entry(ToNode(a), bk) && lv[k][q + 1].p == ToNode(b)
  {
    hide Linked, LevelOK, Parents, Expand;
    LinkedAt(h, lv, root, 0, lv[0], k);
    LinkedAt(h, lv, root, 0, lv[0], k + 1);
    var l := lv[k + 1];
    NodeAt(h, l, p, k + 1);
    RowsAfter(h, l, p, 0, lv[k], 0, []);
    q := |Expand(h, l[..p])| + j;
    assert lv[k][|Expand(h, l[..p])| + j] == Row(h[u], l[p].s)[j];
    assert lv[k][|Expand(h, l[..p])| + (j + 1)] == Row(h[u], l[p].s)[j + 1];
    NodeAt(h, lv[k], q, k);
    NodeAt(h, lv[k], q + 1, k);
    a, b, bk := h[u].ps[j].node, h[u].ps[j + 1].node, h[u].ks[j];
    LevelDistinct(h, lv[k], k);
    ChildParent(h, l, p, j);
    ChildParent(h, l, p, j + 1);
  }

  lemma ChildParent(h: Heap, l: Level, p: nat, j: nat)
    requires Parents(h, l) && p < |l| && j < |V(h, l[p].p).ps|
    ensures V(h, V(h, l[p].p).ps[j]).parent == PNode(l[p].p)
  {
  }

  lemma PicksTwo(h: Heap, l: Level, q: nat, k: nat, a: Node, b: Node)
    requires LevelOK(h, l, k) && q + 1 < |l| && l[q].p == ToNode(a) && l[q + 1].p == ToNode(b)
    ensures Picks(l, q, 2, {a, b})
  {
    forall i | 0 <= i < |l| ensures PNode(l[i].p) in {a, b} <==> q <= i < q + 2 {
      assert NodeOK(h, l[i].p, k);
      if i < q { assert l[i].p != l[q].p && l[i].p != l[q + 1].p; }
      if i > q + 1 { assert l[q].p != l[i].p && l[q + 1].p != l[i].p; }
    }
  }

  /** Two siblings of level k are rewritten into `mid` without a change of what lies below. */
  lemma RewriteTwo(h: Heap, h': Heap, lv: seq<Level>, root: Node, k: nat, q: nat, a: Node, b: Node, mid: Level)
    requires Tree(h, lv, root) && 1 <= k < |lv| && q + 1 < |lv[k]| && lv[k][q].p == ToNode(a) && lv[k][q + 1].p == ToNode(b)
    requires Touches(h, h', k - 1, {a, b}) && Replacement(h, h', lv[k], q, 2, mid, k, {a, b})
    requires k >= 2 ==> Parents(h', mid)
    requires Expand(h', mid) == Row(V(h, ToNode(a)), lv[k][q].s) + Row(V(h, ToNode(b)), lv[k][q + 1].s)
    ensures Linked(h', lv[k := Splice(lv[k], q, 2, mid)], root, k, lv[k])
  {
    hide *;
    TreeIs(h, lv, root);
    var l, below := lv[k], lv[k - 1];
    LinkedAt(h, lv, root, 0, lv[0], k);
    LinkedAt(h, lv, root, 0, lv[0], k - 1);
    PicksTwo(h, l, q, k, a, b);
    ExpandAt(h, l, q, 2);
    assert l[q..q + 2] == [l[q], l[q + 1]];
    ExpandTwo(h, l[q], l[q + 1]);
    LinkedFrom(h, lv, root, k - 1);
    if k >= 2 { LevelIsAll(h, below, k - 1); }
    Rewrite(h, h', lv, root, k - 1, lv[k - 1], l, q, 2, mid, {a, b});
  }

  lemma TreeIs(h: Heap, lv: seq<Level>, root: Node)
    requires Tree(h, lv, root)
    ensures |lv| >= 2 && Linked(h, lv, root, 0, lv[0])
  {
  }

  lemma LevelIsAll(h: Heap, x: Level, k: nat)
    requires LevelOK(h, x, k) && k >= 1
    ensures forall i :: 0 <= i < |x| ==> V(h, x[i].p).level == k
  {
    forall i | 0 <= i < |x| ensures V(h, x[i].p).level == k { assert NodeOK(h, x[i].p, k); }
  }

  /** A tree matches at every level. */
  lemma LinkedFrom(h: Heap, lv: seq<Level>, root: Node, k: nat)
    requires Tree(h, lv, root) && k < |lv|
    ensures Linked(h, lv, root, k, lv[k])
  {
    hide LevelOK, Parents, Expand;
    forall j | 0 <= j < |lv| ensures Above(h, lv, root, j) == lv[j] {
    }
  }

  /** The level above does not notice. */
  lemma AboveSame(h: Heap, h': Heap, l: Level, k: nat, p: nat)
    requires LevelOK(h, l, k) && p <= |l|
    requires forall m :: m in h && h[m].level == k ==> m in h' && h'[m].ks == h[m].ks && h'[m].ps == h[m].ps
    ensures Expand(h', l[..p]) == Expand(h, l[..p]) && Expand(h', l[p..]) == Expand(h, l[p..])
  {
    forall i | 0 <= i < |l| ensures V(h, l[i].p).ks == V(h', l[i].p).ks && V(h, l[i].p).ps == V(h', l[i].p).ps {
      assert NodeOK(h, l[i].p, k);
    }
    assert forall i :: 0 <= i < p ==> l[..p][i] == l[i];
    assert forall i {:trigger l[p..][i]} :: 0 <= i < |l| - p ==> l[p..][i] == l[p + i];
    ExpandFrame(h, h', l[..p]);
    ExpandFrame(h, h', l[p..]);
  }
}
