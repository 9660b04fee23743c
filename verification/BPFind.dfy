/** Descent from the root to a leaf, and lookup in the leaf. */
module BPFind {
  import opened CStrings
  import opened BPTypes
  import opened BPLevels
  import opened BPSteps
  import opened BPTree
  import opened BPInsert

  /** The content: records under strictly ascending keys. */
  ghost predicate ContentOK(c: Level) {
    && (forall i :: 0 <= i < |c| ==> c[i].p.ToRecord? && c[i].s != null)
    && (forall i, j :: 0 <= i < j < |c| ==> Rank(c[i].s.key) < Rank(c[j].s.key))
  }

  /** The separator of a leaf is its own last key object. */
  ghost predicate LeafSeps(h: Heap, l: Level) {
    forall i :: 0 <= i < |l| && l[i].s != null ==> |V(h, l[i].p).ks| > 0 && l[i].s == V(h, l[i].p).ks[|V(h, l[i].p).ks| - 1]
  }

  /** Each leaf points at the next one. */
  ghost predicate Chain(h: Heap, l: Level) {
    forall i :: 0 <= i < |l| ==> V(h, l[i].p).next == NextPtr(l, i)
  }

  ghost function NextPtr(l: Level, i: nat): Ptr {
    if i + 1 < |l| then l[i + 1].p else Null
  }

  /** The position in the content of the first slot of leaf p. */
  ghost function Lo(h: Heap, l: Level, p: nat): nat
    requires p <= |l|
  {
    |Expand(h, l[..p])|
  }

  /** The range of keys that belongs under entry i of a level: above the separator to the left, up to its own. */
  ghost predicate Covers(l: Level, i: nat, key: string) {
    && i < |l|
    && (i > 0 ==> l[i - 1].s != null && Rank(l[i - 1].s.key) < Rank(key))
    && (l[i].s != null ==> Rank(key) <= Rank(l[i].s.key))
  }

  /** The last slot below entry i - 1 carries that entry's separator. */
  lemma LastSlot(h: Heap, l: Level, i: nat)
    requires 0 < i <= |l| && 0 < |V(h, l[i - 1].p).ps| && |V(h, l[i - 1].p).ps| == |V(h, l[i - 1].p).ks| + 1
    ensures |Expand(h, l[..i])| > 0 && Expand(h, l[..i])[|Expand(h, l[..i])| - 1].s == l[i - 1].s
  {
    assert l[..i] == l[..i - 1] + [l[i - 1]];
    ExpandConcat(h, l[..i - 1], [l[i - 1]]);
    ExpandOne(h, l[i - 1]);
  }

  /** One step down: if entry i covers the key and j is the first slot whose separator is not below it, that slot
      covers the key. */
  lemma StepDown(h: Heap, l: Level, below: Level, k: nat, i: nat, j: nat, key: string)
    requires LevelOK(h, l, k) && k >= 2 && Expand(h, l) == below && Covers(l, i, key)
    requires var v := V(h, l[i].p);
      && j < |v.ps| && null !in v.ks
      && (forall m :: 0 <= m < j ==> Rank(v.ks[m].key) < Rank(key))
      && (j < |v.ks| ==> Rank(key) <= Rank(v.ks[j].key))
    ensures |Expand(h, l[..i])| + j < |below| && Covers(below, |Expand(h, l[..i])| + j, key)
    ensures below[|Expand(h, l[..i])| + j].p == V(h, l[i].p).ps[j]
  {
    hide Expand, LevelOK, Rank;
    SlotAt(h, l, i, j);
    NodeAt(h, l, i, k);
    var v, o := V(h, l[i].p), |Expand(h, l[..i])|;
    assert below[o + j].s == if j < |v.ks| then v.ks[j] else l[i].s;
    if j > 0 {
      SlotAt(h, l, i, j - 1);
      assert below[o + j - 1].s == v.ks[j - 1];
    } else if i > 0 {
      LastBefore(h, l, below, k, i);
    } else {
      ExpandNone(h, l);
    }
  }

  lemma ExpandNone(h: Heap, l: Level)
    ensures Expand(h, l[..0]) == []
  {
  }

  lemma LastBefore(h: Heap, l: Level, below: Level, k: nat, i: nat)
    requires LevelOK(h, l, k) && k >= 2 && Expand(h, l) == below && 0 < i <= |l|
    ensures 0 < |Expand(h, l[..i])| <= |below| && below[|Expand(h, l[..i])| - 1].s == l[i - 1].s
  {
    hide Expand, LevelOK;
    NodeAt(h, l, i - 1, k);
    LastSlot(h, l, i);
    ExpandAt(h, l, i, 0);
    var o := |Expand(h, l[..i])|;
    assert below[o - 1] == Expand(h, l[..i])[o - 1];
  }

  /** The descent stands at node c, entry p of level k, and c's subtree covers the key. */
  ghost predicate StandsAt(h: Heap, lv: seq<Level>, k: nat, p: nat, c: Node, key: string) {
    1 <= k < |lv| && Covers(lv[k], p, key) && lv[k][p].p == ToNode(c) && NodeOK(h, ToNode(c), k)
  }

  /** bptree.c _find_leaf */
  method FindLeaf(t: BPlusTree, key: string) returns (leaf: Node, ghost p: nat)
    requires t.root != null && Allocated(t.nodes, t.order) && Complete(t.H(), t.lv, t.root, t.order, t.keys)
    ensures leaf in t.nodes && leaf.Shape(t.order) && leaf.isLeaf && null !in leaf.Val().ks && leaf.level == 1
    ensures StandsAt(t.H(), t.lv, 1, p, leaf, key) && t.H() == old(t.H())
  {
    hide Complete, Allocated, StandsAt, Snap;
    ghost var k := |t.lv| - 1;
    ghost var h := t.H();
    p := 0;
    var c: Node := t.root;
    RootPosition(h, t.lv, t.root, t.order, t.keys, key);
    NodeFacts(t, h, t.lv, k, p, c, key);
    SnapFacts(t, c);
    while !c.isLeaf
      invariant forall m :: m in t.nodes ==> m.Val() == h[m]
      invariant k >= 1 && StandsAt(h, t.lv, k, p, c, key)
      invariant c in t.nodes && c in h && c.Shape(t.order) && c.isLeaf == (k == 1) && null !in c.Val().ks && c.level == k && c.Val() == h[c]
      decreases k
    {
      var i := ChildIndex(t.order, c, key);
      ghost var q := Descend(h, t.lv, t.root, t.order, t.keys, key, k, p, c, i);
      assert c.pointers[i] == h[c].ps[i] by { ValOf(c, t.order); }
      c := c.pointers[i].node;
      k, p := k - 1, q;
      SnapSame(t, h);
      NodeFacts(t, h, t.lv, k, p, c, key);
    }
    SnapSame(t, h);
    leaf := c;
  }

  /** The first child whose separator is not below the key. */
  method ChildIndex(order: nat, c: Node, key: string) returns (i: nat)
    requires order >= 4 && c.Shape(order) && !c.isLeaf && null !in c.Val().ks
    ensures i < |c.Val().ps| && i <= |c.Val().ks|
    ensures forall m :: 0 <= m < i ==> Rank(c.Val().ks[m].key) < Rank(key)
    ensures i < |c.Val().ks| ==> Rank(key) <= Rank(c.Val().ks[i].key)
  {
    ValOf(c, order);
    ghost var ks := c.Val().ks;
    i := 0;
    while i < c.numKeys
      invariant 0 <= i <= c.numKeys
      invariant forall m :: 0 <= m < i ==> Rank(ks[m].key) < Rank(key)
    {
      assert c.bkeys[i] == ks[i];
      StrcmpIsRank(key, c.bkeys[i].key);
      if Strcmp(key, c.bkeys[i].key) <= 0 { break; }
      i := i + 1;
    }
  }

  lemma NodeFacts(t: BPlusTree, h: Heap, lv: seq<Level>, k: nat, p: nat, c: Node, key: string)
    requires Allocated(t.nodes, t.order) && h == t.H() && StandsAt(h, lv, k, p, c, key)
    ensures c in t.nodes && c.Shape(t.order) && c.isLeaf == (k == 1) && null !in c.Val().ks && c.level == k && c.Val() == h[c]
    ensures t.order >= 4 && k >= 1 && c in h
  {
    hide Separate, Covers;
    assert t.H()[c] == c.Val();
    ValOf(c, t.order);
  }

  lemma RootPosition(h: Heap, lv: seq<Level>, root: Node?, order: nat, keys: set<Key>, key: string)
    requires Complete(h, lv, root, order, keys)
    ensures root != null && |lv| >= 2 && StandsAt(h, lv, |lv| - 1, 0, root, key)
  {
    hide LevelOK, Parents, Expand, Occupied, KeysKnown, Covered;
    var k := |lv| - 1;
    LinkedAt(h, lv, root, 0, lv[0], k);
    RootLevel(h, lv, root, 0, lv[0]);
    NodeAt(h, lv[k], 0, k);
  }

  lemma Descend(h: Heap, lv: seq<Level>, root: Node?, order: nat, keys: set<Key>, key: string, k: nat, p: nat, c: Node, i: nat)
    returns (q: nat)
    requires Complete(h, lv, root, order, keys)
    requires StandsAt(h, lv, k, p, c, key) && k >= 2
    requires i < |h[c].ps|
    requires forall m :: 0 <= m < i && m < |h[c].ks| ==> Rank(h[c].ks[m].key) < Rank(key)
    requires i < |h[c].ks| ==> Rank(key) <= Rank(h[c].ks[i].key)
    ensures h[c].ps[i].ToNode? && StandsAt(h, lv, k - 1, q, h[c].ps[i].node, key)
  {
    hide LevelOK, Parents, Expand, Occupied, KeysKnown, Covered, Linked, Rank;
    LinkedAt(h, lv, root, 0, lv[0], k);
    LinkedAt(h, lv, root, 0, lv[0], k - 1);
    StepDown(h, lv[k], lv[k - 1], k, p, i, key);
    q := |Expand(h, lv[k][..p])| + i;
    NodeAt(h, lv[k - 1], q, k - 1);
    assert lv[k - 1][q].p == h[c].ps[i];
  }
}
