/** The two merges: a leaf or an internal node takes over everything its right sibling holds. */
module BPMergeSteps {
  import opened BPTypes
  import opened BPLevels
  import opened BPSteps
  import opened BPInsertSteps
  import opened BPTree
  import opened BPInsert
  import opened BPFind
  import opened BPLeafSteps
  import opened BPSeps
  import opened BPDelLeaf
  import opened BPMerge

  /** Two neighbouring nodes of level k under the common parent u, in a tree where one of them may be a key short. */
  ghost predicate Pair(h: Heap, lv: seq<Level>, root: Node?, order: nat, keys: set<Key>, k: nat, q: nat, p: nat, j: nat, u: Node,
                       a: Node, b: Node, bk: Key, n: Node) {
    && Loose(h, lv, root, order, keys, n) && (n == a || n == b)
    && 1 <= k < |lv| - 1 && Siblings(h, lv[k + 1], lv[k], k, q, p, j, u, a, b, bk)
    && q + 1 < |lv[k]| && lv[k][q] == Entry(ToNode(a), bk) && lv[k][q + 1].p == ToNode(b)
    && a != b && NodeOK(h, ToNode(a), k) && NodeOK(h, ToNode(b), k) && h[a].parent == u && h[b].parent == u
  }

  ghost function MergedLevels(lv: seq<Level>, k: nat, q: nat, a: Node): seq<Level>
    requires k < |lv| && q + 1 < |lv[k]|
  {
    lv[k := Splice(lv[k], q, 2, [Entry(ToNode(a), lv[k][q + 1].s)])]
  }

  /** What a merge has to provide. */
  ghost predicate Merged(h: Heap, h': Heap, lv: seq<Level>, root: Node?, order: nat, keys: set<Key>, k: nat, q: nat, a: Node, b: Node) {
    && root != null && 1 <= k < |lv| && q + 1 < |lv[k]| && a in h' && b in h'
    && Touches(h, h', k - 1, {a, b}) && h'.Keys == h.Keys
    && Linked(h', MergedLevels(lv, k, q, a), root, k, lv[k])
    && Leaves(h', MergedLevels(lv, k, q, a)[1]) && KeysKnown(h', keys)
    && order >= 4 && |h'[a].ks| >= MinKeys(order, h'[a].leaf)
    && forall m :: m in h && h[m].level == 0 ==> h'[m].level == 0
  }

  lemma MergeGap(h: Heap, h': Heap, lv: seq<Level>, root: Node?, order: nat, keys: set<Key>, k: nat, q: nat, p: nat, j: nat, u: Node,
                 a: Node, b: Node, bk: Key, n: Node)
    requires Pair(h, lv, root, order, keys, k, q, p, j, u, a, b, bk, n)
    requires Merged(h, h', lv, root, order, keys, k, q, a, b)
    ensures Gap(h', MergedLevels(lv, k, q, a), root, order, keys, k, lv[k], q, p, j, u, a, b, bk)
  {
    hide Linked, LevelOK, Parents, Expand, Slack, KeysKnown, Covered, Leaves, ContentOK, DistinctSeps, DistinctPtrs, Touches, Siblings,
         LeafSeps, Chain, AtLevel;
    LinkedAt(h, lv, root, 0, lv[0], k);
    LinkedAt(h, lv, root, 0, lv[0], k + 1);
    LevelPtrs(h, lv[k], k);
    LeavesIs(h, lv[1]);
    LevelSeps(h, lv, root, k);
    LevelsKept(h, h', lv[k], k, a, b);
    SiblingsKept(h, h', lv[k + 1], lv[k], k, q, p, j, u, a, b, bk);
    MergeSlack(h, h', order, root, k, a, b, n);
    MergeCovered(h, h', lv, k, q, a, b);
    TouchedLevel(h, h', k, a, b);
    BetweenLevels(lv, k, q, a);
  }

  lemma BetweenLevels(lv: seq<Level>, k: nat, q: nat, a: Node)
    requires 1 <= k < |lv| - 1 && q + 1 < |lv[k]|
    ensures MergedLevels(lv, k, q, a)[0] == lv[0] && MergedLevels(lv, k, q, a)[k + 1] == lv[k + 1]
    ensures |MergedLevels(lv, k, q, a)| == |lv|
  {
  }

  lemma LevelPtrs(h: Heap, l: Level, k: nat)
    requires LevelOK(h, l, k)
    ensures DistinctPtrs(l)
  {
  }

  lemma TouchedLevel(h: Heap, h': Heap, k: nat, a: Node, b: Node)
    requires k >= 1 && Touches(h, h', k - 1, {a, b}) && NodeOK(h, ToNode(b), k)
    ensures b in h' && h'[b].level == k
  {
  }

  lemma LevelsKept(h: Heap, h': Heap, l: Level, k: nat, a: Node, b: Node)
    requires LevelOK(h, l, k) && k >= 1 && Touches(h, h', k - 1, {a, b})
    ensures AtLevel(h', l, k)
  {
    forall i | 0 <= i < |l| ensures V(h', l[i].p).level == k {
      assert NodeOK(h, l[i].p, k);
    }
  }

  lemma SiblingsKept(h: Heap, h': Heap, l: Level, x: Level, k: nat, q: nat, p: nat, j: nat, u: Node, a: Node, b: Node, bk: Key)
    requires LevelOK(h, l, k + 1) && k >= 1 && Touches(h, h', k - 1, {a, b}) && Siblings(h, l, x, k, q, p, j, u, a, b, bk)
    requires a in h && b in h && h[a].level == k && h[b].level == k
    ensures Siblings(h', l, x, k, q, p, j, u, a, b, bk)
  {
    hide LevelOK, Expand;
    AboveSame(h, h', l, k + 1, p);
  }

  lemma MergeSlack(h: Heap, h': Heap, order: nat, root: Node?, k: nat, a: Node, b: Node, n: Node)
    requires Slack(h, order, root, n) && (n == a || n == b) && k >= 1 && Touches(h, h', k - 1, {a, b}) && h'.Keys == h.Keys
    requires a in h' && a != b && |h'[a].ks| >= MinKeys(order, h'[a].leaf)
    requires forall m :: m in h && h[m].level == 0 ==> h'[m].level == 0
    ensures Slack(h' - {b}, order, root, null)
  {
    forall m | m in h' - {b} && h'[m].level > 0
      ensures |h'[m].ks| >= if m == root then 1 else MinKeys(order, h'[m].leaf)
    {
      if m != a { assert h'[m] == h[m].(parent := h'[m].parent); }
    }
  }

  lemma MergeCovered(h: Heap, h': Heap, lv: seq<Level>, k: nat, q: nat, a: Node, b: Node)
    requires Covered(h, lv) && 1 <= k < |lv| && q + 1 < |lv[k]| && lv[k][q].p == ToNode(a) && lv[k][q + 1].p == ToNode(b)
    requires Touches(h, h', k - 1, {a, b}) && h'.Keys == h.Keys
    requires forall m :: m in h && h[m].level == 0 ==> h'[m].level == 0
    ensures Covered(h' - {b}, MergedLevels(lv, k, q, a))
  {
    hide PtrsOf;
    var lv' := MergedLevels(lv, k, q, a);
    forall n | n in h' - {b} && (h' - {b})[n].level > 0
      ensures (h' - {b})[n].level < |lv'| && ToNode(n) in PtrsOf(lv'[(h' - {b})[n].level])
    {
      assert h'[n].level == h[n].level;
      if h[n].level == k {
        StillListed(lv[k], q, a, b, n);
      }
    }
  }

  lemma StillListed(l: Level, q: nat, a: Node, b: Node, n: Node)
    requires q + 1 < |l| && l[q].p == ToNode(a) && l[q + 1].p == ToNode(b) && n != b && ToNode(n) in PtrsOf(l)
    ensures ToNode(n) in PtrsOf(Splice(l, q, 2, [Entry(ToNode(a), l[q + 1].s)]))
  {
    var l' := Splice(l, q, 2, [Entry(ToNode(a), l[q + 1].s)]);
    var e :| e in l && e.p == ToNode(n);
    var i :| 0 <= i < |l| && l[i] == e;
    var i' := if i <= q then i else i - 1;
    assert l'[i'].p == ToNode(n);
    assert l'[i'] in l';
  }

  // ----- Leaves -----

  ghost function LeafMerge(h: Heap, a: Node, b: Node): Heap
    requires a in h && b in h
  {
    h[a := h[a].(ks := h[a].ks + h[b].ks, ps := h[a].ps + h[b].ps, next := h[b].next)]
  }

  lemma MergeLeaf(h: Heap, lv: seq<Level>, root: Node?, order: nat, keys: set<Key>, q: nat, p: nat, j: nat, u: Node,
                  a: Node, b: Node, bk: Key, n: Node)
    requires Pair(h, lv, root, order, keys, 1, q, p, j, u, a, b, bk, n)
    ensures Merged(h, LeafMerge(h, a, b), lv, root, order, keys, 1, q, a, b)
  {
    hide Linked, LevelOK, Parents, Expand, Slack, KeysKnown, Covered, Leaves, ContentOK, DistinctSeps, DistinctPtrs, Touches, Replacement;
    var h', l := LeafMerge(h, a, b), lv[1];
    LinkedAt(h, lv, root, 0, lv[0], 1);
    var mid := [Entry(ToNode(a), l[q + 1].s)];
    LeafMergeRows(h, l, q, a, b);
    LeafMergeReplacement(h, l, q, a, b);
    RewriteTwo(h, h', lv, root, 1, q, a, b, mid);
    LeafMergeLeaves(h, l, q, a, b);
    LeafMergeKnown(h, keys, a, b);
    PairCounts(h, order, root, a, b, n);
    assert MergedLevels(lv, 1, q, a)[1] == Splice(l, q, 2, mid);
  }

  lemma PairCounts(h: Heap, order: nat, root: Node?, a: Node, b: Node, n: Node)
    requires Slack(h, order, root, n) && a in h && b in h && a != b && h[a].level > 0 && h[b].level > 0 && h[a].leaf == h[b].leaf
    requires n == a || n == b
    ensures order >= 4 && |h[a].ks| + |h[b].ks| + 1 >= MinKeys(order, h[a].leaf)
    ensures h[a].leaf ==> |h[a].ks| + |h[b].ks| >= MinKeys(order, h[a].leaf)
  {
  }

  lemma LeafMergeRows(h: Heap, l: Level, q: nat, a: Node, b: Node)
    requires q + 1 < |l| && l[q].p == ToNode(a) && l[q + 1].p == ToNode(b) && NodeOK(h, ToNode(a), 1) && NodeOK(h, ToNode(b), 1)
    ensures Expand(LeafMerge(h, a, b), [Entry(ToNode(a), l[q + 1].s)])
         == Row(V(h, ToNode(a)), l[q].s) + Row(V(h, ToNode(b)), l[q + 1].s)
  {
    var h', e := LeafMerge(h, a, b), Entry(ToNode(a), l[q + 1].s);
    ExpandOne(h', e);
    assert Row(h'[a], l[q + 1].s) == Row(h[a], l[q].s) + Row(h[b], l[q + 1].s);
  }

  lemma LeafMergeReplacement(h: Heap, l: Level, q: nat, a: Node, b: Node)
    requires q + 1 < |l| && l[q].p == ToNode(a) && l[q + 1].p == ToNode(b) && NodeOK(h, ToNode(a), 1) && NodeOK(h, ToNode(b), 1)
    ensures Touches(h, LeafMerge(h, a, b), 0, {a, b})
    ensures Replacement(h, LeafMerge(h, a, b), l, q, 2, [Entry(ToNode(a), l[q + 1].s)], 1, {a, b})
  {
  }

  lemma LeafMergeKnown(h: Heap, keys: set<Key>, a: Node, b: Node)
    requires KeysKnown(h, keys) && a in h && b in h && h[a].level > 0 && h[b].level > 0
    ensures KeysKnown(LeafMerge(h, a, b), keys)
  {
    var h' := LeafMerge(h, a, b);
    forall n, i | n in h' && h'[n].level > 0 && 0 <= i < |h'[n].ks| ensures h'[n].ks[i] != null && h'[n].ks[i] in keys {
      if n == a {
        assert h'[a].ks[i] == if i < |h[a].ks| then h[a].ks[i] else h[b].ks[i - |h[a].ks|];
      } else {
        assert h'[n].ks[i] == h[n].ks[i];
      }
    }
  }

  lemma LeafMergeLeaves(h: Heap, l: Level, q: nat, a: Node, b: Node)
    requires Leaves(h, l) && LevelOK(h, l, 1) && q + 1 < |l| && l[q].p == ToNode(a) && l[q + 1].p == ToNode(b) && a in h && b in h
    ensures Leaves(LeafMerge(h, a, b), Splice(l, q, 2, [Entry(ToNode(a), l[q + 1].s)]))
  {
    hide LevelOK;
    LevelDistinct(h, l, 1);
    var h', l' := LeafMerge(h, a, b), Splice(l, q, 2, [Entry(ToNode(a), l[q + 1].s)]);
    forall i | 0 <= i < |l'| ensures LeafOK(h', l', i) {
      LeafMergeOK(h, l, q, a, b, i);
    }
    LeavesIntro(h', l');
  }

  lemma LeafMergeOK(h: Heap, l: Level, q: nat, a: Node, b: Node, i: nat)
    requires Leaves(h, l) && q + 1 < |l| && l[q].p == ToNode(a) && l[q + 1].p == ToNode(b) && a in h && b in h && i < |l| - 1
    requires forall x, y :: 0 <= x < y < |l| ==> l[x].p != l[y].p
    ensures var l' := Splice(l, q, 2, [Entry(ToNode(a), l[q + 1].s)]); |l'| == |l| - 1 && LeafOK(LeafMerge(h, a, b), l', i)
  {
    hide Splice, LeafSeps, Chain;
    var h', y := LeafMerge(h, a, b), if i < q then i else i + 1;
    MergedEntries(l, q, a, i);
    if i == q {
      assert h'[a].ks == h[a].ks + h[b].ks;
    } else {
      assert l[y].p != l[q].p;
      assert V(h', l[y].p) == V(h, l[y].p);
    }
    LeafOf(h, l, y);
  }

  lemma LeafOf(h: Heap, l: Level, i: nat)
    requires Leaves(h, l) && i < |l|
    ensures LeafOK(h, l, i)
  {
  }

  lemma MergedEntries(l: Level, q: nat, a: Node, i: nat)
    requires q + 1 < |l| && l[q].p == ToNode(a) && i < |l| - 1
    ensures var l' := Splice(l, q, 2, [Entry(ToNode(a), l[q + 1].s)]);
            var y := if i < q then i else i + 1;
      && |l'| == |l| - 1 && NextPtr(l', i) == NextPtr(l, y)
      && l'[i] == if i == q then Entry(ToNode(a), l[q + 1].s) else l[y]
  {
  }

  // ----- Internal nodes -----

  ghost function InnerMerge(h: Heap, a: Node, b: Node, bk: Key): Heap
    requires a in h && b in h && |h[b].ps| > 0
  {
    Reparent(h[a := h[a].(ks := h[a].ks + [bk] + h[b].ks, ps := h[a].ps + h[b].ps)]
              [b := h[b].(ks := [], ps := h[b].ps[..1])], a)
  }

  /** The heap after an internal merge, node by node. */
  lemma InnerMergeVals(h: Heap, k: nat, u: Node, a: Node, b: Node, bk: Key)
    requires a in h && b in h && a != b && NodeOK(h, ToNode(a), k + 1) && NodeOK(h, ToNode(b), k + 1) && k >= 1
    requires Kids(h, h[a].ps, a, k) && Kids(h, h[b].ps, b, k)
    ensures var h' := InnerMerge(h, a, b, bk);
      && h'.Keys == h.Keys
      && h'[a] == h[a].(ks := h[a].ks + [bk] + h[b].ks, ps := h[a].ps + h[b].ps)
      && h'[b] == h[b].(ks := [], ps := h[b].ps[..1])
      && (forall n :: n in h && n != a && n != b ==> h'[n] == h[n].(parent := h'[n].parent))
      && (forall n :: n in h && h'[n].parent != h[n].parent ==> h[n].level == k && h[n].parent in {a, b})
      && (forall m :: 0 <= m < |h'[a].ps| ==> V(h', h'[a].ps[m]).parent == a)
  {
    var h', ps := InnerMerge(h, a, b, bk), h[a].ps + h[b].ps;
    forall m | 0 <= m < |ps| ensures ps[m].ToNode? && ps[m].node in h && h[ps[m].node].level == k && h[ps[m].node].parent in {a, b} {
      if m < |h[a].ps| { assert ps[m] == h[a].ps[m]; } else { assert ps[m] == h[b].ps[m - |h[a].ps|]; }
    }
    forall n | n in h && ToNode(n) in ps ensures h[n].level == k && h[n].parent in {a, b} {
      var m :| 0 <= m < |ps| && ps[m] == ToNode(n);
    }
  }

  lemma MergeInner(h: Heap, lv: seq<Level>, root: Node?, order: nat, keys: set<Key>, k: nat, q: nat, p: nat, j: nat, u: Node,
                   a: Node, b: Node, bk: Key, n: Node)
    requires Pair(h, lv, root, order, keys, k, q, p, j, u, a, b, bk, n) && k >= 2
    ensures |h[b].ps| > 0 && Merged(h, InnerMerge(h, a, b, bk), lv, root, order, keys, k, q, a, b)
  {
    hide Linked, LevelOK, Parents, Expand, Slack, KeysKnown, Covered, Leaves, ContentOK, DistinctSeps, DistinctPtrs, Touches,
         Replacement, InnerMerge, Siblings, LeafSeps, Chain;
    var h', l := InnerMerge(h, a, b, bk), lv[k];
    LinkedAt(h, lv, root, 0, lv[0], k);
    LinkedAt(h, lv, root, 0, lv[0], k - 1);
    LinkedAt(h, lv, root, 0, lv[0], 1);
    BothKids(h, l, lv[k - 1], k - 1, q, a, b);
    InnerMergeVals(h, k - 1, u, a, b, bk);
    var mid := [Entry(ToNode(a), l[q + 1].s)];
    InnerMergeRows(h, h', l, q, k, a, b, bk);
    InnerMergeReplacement(h, h', l, q, k, a, b, bk);
    assert Parents(h', mid) by { OneParent(h', a, mid[0].s); }
    RewriteTwo(h, h', lv, root, k, q, a, b, mid);
    LowLeaves(h, h', lv[1]);
    LeavesIs(h, lv[1]);
    LeavesSame(h, h', lv[1]);
    SiblingKey(h, keys, lv[k + 1], l, k, q, p, j, u, a, b, bk);
    InnerMergeKnown(h, h', keys, a, b, bk);
    PairCounts(h, order, root, a, b, n);
  }

  lemma OneParent(h: Heap, a: Node, s: Key?)
    requires a in h && forall m :: 0 <= m < |h[a].ps| ==> V(h, h[a].ps[m]).parent == a
    ensures Parents(h, [Entry(ToNode(a), s)])
  {
  }

  lemma BothKids(h: Heap, l: Level, below: Level, k: nat, q: nat, a: Node, b: Node)
    requires LevelOK(h, l, k + 1) && Parents(h, l) && Expand(h, l) == below && LevelOK(h, below, k) && k >= 1
    requires q + 1 < |l| && l[q].p == ToNode(a) && l[q + 1].p == ToNode(b) && a in h && b in h
    ensures Kids(h, h[a].ps, a, k) && Kids(h, h[b].ps, b, k)
  {
    hide Expand, LevelOK, Parents;
    forall i | 0 <= i < |below| ensures V(h, below[i].p).level == k { NodeAt(h, below, i, k); }
    ChildLevels(h, l, k);
    KidsOf(h, l, k, q, a);
    KidsOf(h, l, k, q + 1, b);
  }

  lemma LowLeaves(h: Heap, h': Heap, l: Level)
    requires LevelOK(h, l, 1)
    requires forall n :: n in h && h[n].level == 1 ==> n in h' && h'[n] == h[n].(parent := h'[n].parent)
    ensures forall i :: 0 <= i < |l| ==> V(h', l[i].p).ks == V(h, l[i].p).ks && V(h', l[i].p).next == V(h, l[i].p).next
  {
    forall i | 0 <= i < |l| ensures V(h', l[i].p).ks == V(h, l[i].p).ks && V(h', l[i].p).next == V(h, l[i].p).next {
      assert NodeOK(h, l[i].p, 1);
    }
  }

  lemma InnerMergeRows(h: Heap, h': Heap, l: Level, q: nat, k: nat, a: Node, b: Node, bk: Key)
    requires q + 1 < |l| && l[q] == Entry(ToNode(a), bk) && l[q + 1].p == ToNode(b) && k >= 2
    requires NodeOK(h, ToNode(a), k) && NodeOK(h, ToNode(b), k) && a in h'
    requires h'[a] == h[a].(ks := h[a].ks + [bk] + h[b].ks, ps := h[a].ps + h[b].ps)
    ensures Expand(h', [Entry(ToNode(a), l[q + 1].s)]) == Row(V(h, ToNode(a)), l[q].s) + Row(V(h, ToNode(b)), l[q + 1].s)
  {
    ExpandOne(h', Entry(ToNode(a), l[q + 1].s));
    RowCutInner(h'[a], h[a], h[b], l[q + 1].s, |h[a].ks|);
  }

  lemma InnerMergeReplacement(h: Heap, h': Heap, l: Level, q: nat, k: nat, a: Node, b: Node, bk: Key)
    requires q + 1 < |l| && l[q].p == ToNode(a) && l[q + 1].p == ToNode(b) && k >= 2 && a != b
    requires NodeOK(h, ToNode(a), k) && NodeOK(h, ToNode(b), k) && h'.Keys == h.Keys
    requires h'[a] == h[a].(ks := h[a].ks + [bk] + h[b].ks, ps := h[a].ps + h[b].ps)
    requires h'[b] == h[b].(ks := [], ps := h'[b].ps)
    requires forall n :: n in h && n != a && n != b ==> h'[n] == h[n].(parent := h'[n].parent)
    requires forall n :: n in h && h'[n].parent != h[n].parent ==> h[n].level == k - 1 && h[n].parent in {a, b}
    ensures Touches(h, h', k - 1, {a, b}) && Replacement(h, h', l, q, 2, [Entry(ToNode(a), l[q + 1].s)], k, {a, b})
  {
  }

  lemma SiblingKey(h: Heap, keys: set<Key>, l: Level, x: Level, k: nat, q: nat, p: nat, j: nat, u: Node, a: Node, b: Node, bk: Key)
    requires Siblings(h, l, x, k, q, p, j, u, a, b, bk) && KeysKnown(h, keys)
    ensures bk in keys
  {
    assert h[u].ks[j] in keys;
  }

  lemma InnerMergeKnown(h: Heap, h': Heap, keys: set<Key>, a: Node, b: Node, bk: Key)
    requires KeysKnown(h, keys) && a in h && b in h && a != b && h[a].level > 0 && h[b].level > 0 && bk in keys && h'.Keys == h.Keys
    requires h'[a] == h[a].(ks := h[a].ks + [bk] + h[b].ks, ps := h[a].ps + h[b].ps) && h'[b].ks == []
    requires forall n :: n in h && n != a && n != b ==> h'[n] == h[n].(parent := h'[n].parent)
    ensures KeysKnown(h', keys)
  {
    forall n, i | n in h' && h'[n].level > 0 && 0 <= i < |h'[n].ks| ensures h'[n].ks[i] != null && h'[n].ks[i] in keys {
      if n == a {
        var x := |h[a].ks|;
        assert h'[a].ks[i] == if i < x then h[a].ks[i] else if i == x then bk else h[b].ks[i - x - 1];
      } else {
        assert h'[n].ks[i] == h[n].ks[i];
      }
    }
  }
}
