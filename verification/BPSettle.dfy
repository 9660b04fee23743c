/** The outcome of rebalancing: roots that collapse, nodes that are released, and how steps compose. */
module BPSettle {
  import opened BPTypes
  import opened BPLevels
  import opened BPSteps
  import opened BPTree
  import opened BPInsert
  import opened BPFind
  import opened BPLeafSteps
  import opened BPSeps
  import opened BPRename
  import opened BPDelLeaf

  /** Rebalancing has finished: the content is as before, the tree is whole or empty, and the nodes outside the tree are
      those that were outside before and the ones in `dead`, which the caller will release. */
  ghost predicate Settled(h: Heap, h': Heap, lv: seq<Level>, lv': seq<Level>, root: Node?, order: nat, keys: set<Key>, dead: set<Node>) {
    && (forall m :: m in h' ==> m in h)
    && (forall m :: m in h' && h'[m].level == 0 ==> m in dead || h[m].level == 0)
    && (forall m :: m in h && (m in dead || h[m].level == 0) ==> m in h' && h'[m].level == 0)
    && |lv| >= 1 && |lv'| >= 1 && lv'[0] == lv[0]
    && (root == null ==> lv' == [[]] && forall m :: m in h' ==> h'[m].level == 0)
    && (root != null ==> Loose(h', lv', root, order, keys, null))
  }

  /** Nothing to do. */
  lemma SettledSame(h: Heap, lv: seq<Level>, root: Node?, order: nat, keys: set<Key>)
    requires Loose(h, lv, root, order, keys, null)
    ensures Settled(h, h, lv, lv, root, order, keys, {})
  {
    hide Linked, LevelOK, Parents, Expand, Slack, KeysKnown, Covered, Leaves, ContentOK;
  }

  lemma SettledOne(h: Heap, h': Heap, lv: seq<Level>, lv': seq<Level>, root: Node?, order: nat, keys: set<Key>)
    requires root != null && Loose(h', lv', root, order, keys, null) && h'.Keys == h.Keys && |lv| >= 1 && |lv'| >= 1 && lv'[0] == lv[0]
    requires forall m :: m in h ==> (h'[m].level == 0 <==> h[m].level == 0)
    ensures Settled(h, h', lv, lv', root, order, keys, {})
  {
    hide Loose;
  }

  /** A first step that keeps or kills nodes, followed by one that settles. */
  lemma SettledAfter(h: Heap, h1: Heap, h2: Heap, lv: seq<Level>, lv1: seq<Level>, lv2: seq<Level>, root: Node?, order: nat, keys: set<Key>,
                     dead: set<Node>, dead1: set<Node>)
    requires Settled(h1, h2, lv1, lv2, root, order, keys, dead1)
    requires h1.Keys == h.Keys && |lv| >= 1 && |lv1| >= 1 && lv1[0] == lv[0]
    requires forall m :: m in h ==> ((h1[m].level == 0 || m in dead1) <==> (h[m].level == 0 || m in dead))
    ensures Settled(h, h2, lv, lv2, root, order, keys, dead)
  {
    hide Loose;
  }

  /** Releasing a node that is out of the tree. */
  lemma SettledDrop(h: Heap, h1: Heap, lv: seq<Level>, lv1: seq<Level>, root: Node?, order: nat, keys: set<Key>, b: Node)
    requires Settled(h, h1, lv, lv1, root, order, keys, {b}) && b in h && h[b].level > 0
    ensures b in h1 && Settled(h, h1 - {b}, lv, lv1, root, order, keys, {})
  {
    hide Loose;
    if root != null { DropLoose(h1, lv1, root, order, keys, b); }
  }

  lemma DropLoose(h: Heap, lv: seq<Level>, root: Node?, order: nat, keys: set<Key>, b: Node)
    requires Loose(h, lv, root, order, keys, null) && b in h && h[b].level == 0
    ensures Loose(h - {b}, lv, root, order, keys, null)
  {
    hide Linked, LevelOK, Parents, Expand, Slack, KeysKnown, Covered, Leaves, ContentOK;
    var h' := h - {b};
    forall k, i {:trigger lv[k][i]} | 1 <= k < |lv| && 0 <= i < |lv[k]| ensures V(h', lv[k][i].p) == V(h, lv[k][i].p) {
      LinkedAt(h, lv, root, 0, lv[0], k);
      NodeAt(h, lv[k], i, k);
    }
    TreeAgree(h, h', lv, root);
    LinkedAt(h, lv, root, 0, lv[0], 1);
    var l := lv[1];
    assert forall i :: 0 <= i < |l| ==> V(h', l[i].p) == V(h, l[i].p);
    LeavesSame(h, h', l);
    DropCounts(h, lv, root, order, keys, b);
  }

  lemma DropCounts(h: Heap, lv: seq<Level>, root: Node?, order: nat, keys: set<Key>, b: Node)
    requires Slack(h, order, root, null) && KeysKnown(h, keys) && Covered(h, lv)
    ensures Slack(h - {b}, order, root, null) && KeysKnown(h - {b}, keys) && Covered(h - {b}, lv)
  {
    hide PtrsOf;
  }

  // ----- The root -----

  /** The heap in which the only child c of an empty root has become the root. */
  ghost function NewTop(h: Heap, root: Node, c: Node): Heap
    requires c in h
  {
    h[c := h[c].(parent := null)] - {root}
  }

  lemma CollapseParts(h: Heap, lv: seq<Level>, root: Node, k: nat)
    requires Tree(h, lv, root) && |lv| >= 3 && h[root].ks == [] && k == |lv| - 1
    ensures root in h && |h[root].ps| == 1 && h[root].ps[0].ToNode? && lv[k - 1] == [Entry(h[root].ps[0], null)]
    ensures h[root].ps[0].node in h && h[root].ps[0].node != root && h[h[root].ps[0].node].level == k - 1 && h[root].level == k
  {
    hide Linked, LevelOK, Parents, Expand;
    RootLevel0(h, lv, root);
    LinkedAt(h, lv, root, 0, lv[0], k);
    LinkedAt(h, lv, root, 0, lv[0], k - 1);
    NodeAt(h, lv[k], 0, k);
    ExpandOne(h, lv[k][0]);
    NodeAt(h, lv[k - 1], 0, k - 1);
  }

  lemma RootLevel0(h: Heap, lv: seq<Level>, root: Node)
    requires Tree(h, lv, root)
    ensures |lv| >= 2 && lv[|lv| - 1] == [Entry(ToNode(root), null)] && root in h && h[root].parent == null
  {
    RootLevel(h, lv, root, 0, lv[0]);
  }

  lemma CollapseTree(h: Heap, lv: seq<Level>, root: Node, k: nat, c: Node)
    requires Tree(h, lv, root) && |lv| >= 3 && h[root].ks == [] && k == |lv| - 1 && h[root].ps == [ToNode(c)] && c in h && root != c
    ensures Tree(NewTop(h, root, c), lv[..k], c)
  {
    hide Linked, LevelOK, Parents, Expand;
    CollapseParts(h, lv, root, k);
    var h', lv' := NewTop(h, root, c), lv[..k];
    forall j | 1 <= j < k
      ensures LevelOK(h', lv'[j], j) && (j >= 2 ==> Parents(h', lv'[j]))
      ensures Expand(h', lv'[j]) == if j - 1 == 0 then lv'[0] else lv'[j - 1]
    {
      LinkedAt(h, lv, root, 0, lv[0], j);
      LinkedAt(h, lv, root, 0, lv[0], j - 1);
      CollapseLevel(h, lv[j], root, c, j, k);
      if j >= 2 { CollapseKids(h, lv[j], lv[j - 1], root, c, j, k); }
    }
    LinkedIntro(h', lv', c, 0, lv'[0]);
  }

  lemma CollapseLevel(h: Heap, l: Level, root: Node, c: Node, j: nat, k: nat)
    requires LevelOK(h, l, j) && 1 <= j < k && root in h && h[root].level == k && c in h && root != c
    ensures LevelOK(NewTop(h, root, c), l, j) && Expand(NewTop(h, root, c), l) == Expand(h, l)
  {
    var h' := NewTop(h, root, c);
    forall i | 0 <= i < |l|
      ensures NodeOK(h', l[i].p, j) && V(h, l[i].p).ks == V(h', l[i].p).ks && V(h, l[i].p).ps == V(h', l[i].p).ps
    {
      assert NodeOK(h, l[i].p, j);
    }
    ExpandFrame(h, h', l);
  }

  lemma CollapseKids(h: Heap, l: Level, below: Level, root: Node, c: Node, j: nat, k: nat)
    requires 2 <= j < k && LevelOK(h, l, j) && LevelOK(h, below, j - 1) && Parents(h, l) && Expand(h, l) == below
    requires root in h && h[root].level == k && c in h && h[c].level == k - 1 && root != c
    ensures Parents(NewTop(h, root, c), l)
  {
    var h' := NewTop(h, root, c);
    forall i, m | 0 <= i < |l| && 0 <= m < |V(h', l[i].p).ps| ensures V(h', V(h', l[i].p).ps[m]).parent == PNode(l[i].p) {
      assert NodeOK(h, l[i].p, j);
      assert V(h', l[i].p).ps == V(h, l[i].p).ps;
      SlotAt(h, l, i, m);
      assert NodeOK(h, V(h, l[i].p).ps[m], j - 1);
      assert V(h, V(h, l[i].p).ps[m]).parent == PNode(l[i].p);
    }
  }

  /** An empty internal root gives way to its only child. */
  lemma Collapse(h: Heap, lv: seq<Level>, root: Node?, order: nat, keys: set<Key>)
    requires Loose(h, lv, root, order, keys, root) && h[root].ks == [] && |lv| >= 3
    ensures |h[root].ps| == 1 && h[root].ps[0].ToNode? && h[root].ps[0].node in h && h[root].ps[0].node != root
    ensures Settled(h, NewTop(h, root, h[root].ps[0].node), lv, lv[..|lv| - 1], h[root].ps[0].node, order, keys, {})
  {
    hide Linked, LevelOK, Parents, Expand, Slack, KeysKnown, Covered, Leaves, ContentOK;
    var k := |lv| - 1;
    CollapseParts(h, lv, root, k);
    var c := h[root].ps[0].node;
    CollapseTree(h, lv, root, k, c);
    var h' := NewTop(h, root, c);
    LinkedAt(h, lv, root, 0, lv[0], 1);
    CollapseCounts(h, lv, root, order, keys, c);
    var l := lv[1];
    forall i | 0 <= i < |l| ensures V(h', l[i].p).ks == V(h, l[i].p).ks && V(h', l[i].p).next == V(h, l[i].p).next {
      NodeAt(h, l, i, 1);
    }
    LeavesSame(h, h', l);
  }

  lemma CollapseCounts(h: Heap, lv: seq<Level>, root: Node, order: nat, keys: set<Key>, c: Node)
    requires Slack(h, order, root, root) && KeysKnown(h, keys) && Covered(h, lv) && |lv| >= 3 && root in h && c in h && c != root
    requires lv[|lv| - 1] == [Entry(ToNode(root), null)] || h[root].level == |lv| - 1
    requires Tree(h, lv, root)
    ensures Slack(NewTop(h, root, c), order, c, null) && KeysKnown(NewTop(h, root, c), keys) && Covered(NewTop(h, root, c), lv[..|lv| - 1])
  {
    hide Linked, LevelOK, Parents, Expand;
    RootLevel0(h, lv, root);
    var h', lv' := NewTop(h, root, c), lv[..|lv| - 1];
    forall n | n in h' && h'[n].level > 0 ensures h'[n].level < |lv'| && ToNode(n) in PtrsOf(lv'[h'[n].level]) {
      assert h'[n].level == h[n].level && n != root;
      var i := ListedAt(h, lv, n);
    }
    forall m | m in h' && h'[m].level > 0 ensures |h'[m].ks| >= if m == c then 1 else MinKeys(order, h'[m].leaf) {
      assert h'[m].ks == h[m].ks && m != root;
    }
  }

  /** An empty root that is a leaf means an empty tree. */
  lemma Vanish(h: Heap, lv: seq<Level>, root: Node?, order: nat, keys: set<Key>)
    requires Loose(h, lv, root, order, keys, root) && h[root].ks == [] && |lv| == 2
    ensures lv[0] == [] && Settled(h, h - {root}, lv, [[]], null, order, keys, {})
  {
    hide Linked, LevelOK, Parents, Expand, Slack, KeysKnown, Leaves, ContentOK;
    RootLevel0(h, lv, root);
    LinkedAt(h, lv, root, 0, lv[0], 1);
    LinkedAt(h, lv, root, 0, lv[0], 0);
    NodeAt(h, lv[1], 0, 1);
    ExpandOne(h, lv[1][0]);
    forall m | m in h && m != root ensures h[m].level == 0 {
      if h[m].level > 0 { var i := ListedAt(h, lv, m); }
    }
  }

  /** The root's kind tells the height. */
  lemma RootKind(h: Heap, lv: seq<Level>, root: Node?, order: nat, keys: set<Key>, n: Node?)
    requires Loose(h, lv, root, order, keys, n)
    ensures root in h && h[root].level == |lv| - 1 && |lv| >= 2 && (h[root].leaf <==> |lv| == 2) && h[root].parent == null
    ensures (n != root && order >= 4) ==> |h[root].ks| >= 1
    ensures order >= 4
  {
    hide Linked, LevelOK, Parents, Expand, KeysKnown, Covered, Leaves, ContentOK;
    RootLevel0(h, lv, root);
    LinkedAt(h, lv, root, 0, lv[0], |lv| - 1);
    NodeAt(h, lv[|lv| - 1], 0, |lv| - 1);
  }

  /** A node of the right size ends the rebalancing. */
  lemma Enough(h: Heap, lv: seq<Level>, root: Node?, order: nat, keys: set<Key>, n: Node)
    requires Loose(h, lv, root, order, keys, n) && n in h
    requires |h[n].ks| >= if n == root then 1 else MinKeys(order, h[n].leaf)
    ensures Loose(h, lv, root, order, keys, null)
  {
    hide Linked, LevelOK, Parents, Expand, KeysKnown, Covered, Leaves, ContentOK;
  }
}
