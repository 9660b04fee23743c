/** Rewriting one node in place: what a change of its slots means for the level below and for the whole tree. */
module BPFix {
  import opened BPTypes
  import opened BPLevels
  import opened BPSteps
  import opened BPInsertSteps
  import opened BPTree
  import opened BPInsert
  import opened BPFind
  import opened BPValid
  import opened BPLookup
  import opened BPLeafSteps

  /** New slots of leaf u replace its stretch of the content. */
  lemma FixLeaf(h: Heap, h': Heap, lv: seq<Level>, root: Node, p: nat, u: Node, ks: seq<Key?>, ps: seq<Ptr>)
    requires Tree(h, lv, root) && p < |lv[1]| && lv[1][p].p == ToNode(u) && NodeOK(h, ToNode(u), 1)
    requires |ks| == |ps| && null !in ks
    requires h' == h[u := h[u].(ks := ks, ps := ps)]
    ensures var lo := |Expand(h, lv[1][..p])|;
      && lo + |h[u].ps| <= |lv[0]|
      && Tree(h', lv[0 := Splice(lv[0], lo, |h[u].ps|, Row(h'[u], lv[1][p].s))], root)
  {
    hide Linked, LevelOK, Parents, Expand, Touches, Replacement, Picks, Row;
    var l := lv[1];
    LinkedAt(h, lv, root, 0, lv[0], 0);
    LinkedAt(h, lv, root, 0, lv[0], 1);
    RowLength(h[u], l[p].s);
    ExpandAt(h, l, p, 1);
    assert l[p..p + 1] == [l[p]];
    ExpandOne(h, l[p]);
    ExpandOne(h', l[p]);
    var lo := |Expand(h, l[..p])|;
    var c := Splice(lv[0], lo, |h[u].ps|, Row(h'[u], l[p].s));
    assert c == Expand(h, l[..p]) + Row(h'[u], l[p].s) + Expand(h, l[p + 1..]);
    PicksOne(h, l, p, 1, u);
    OneReplacement(h, h', l, 0, p, u, ks, ps);
    NewContent(h, lv, root, c);
    Rewrite(h, h', lv[0 := c], root, 0, lv[0], l, p, 1, [l[p]], {u});
    assert Splice(l, p, 1, [l[p]]) == l;
    assert lv[0 := c][1 := l] == lv[0 := c];
    LinkedIsTree(h', lv[0 := c], root, 1);
  }

  lemma RowLength(v: NodeVal, s: Key?)
    ensures |Row(v, s)| == |v.ps|
  {
  }

  lemma OneReplacement(h: Heap, h': Heap, l: Level, k: nat, p: nat, u: Node, ks: seq<Key?>, ps: seq<Ptr>)
    requires LevelOK(h, l, k + 1) && p < |l| && l[p].p == ToNode(u) && NodeOK(h, ToNode(u), k + 1)
    requires |ps| == |ks| + (if k == 0 then 0 else 1) && null !in ks
    requires h' == h[u := h[u].(ks := ks, ps := ps)]
    ensures Touches(h, h', k, {u}) && Replacement(h, h', l, p, 1, [l[p]], k + 1, {u})
  {
  }

  /** New slots of the internal node u, which sits at p of level k + 1, make that level describe lv[k]. */
  lemma FixParent(h: Heap, h': Heap, lv: seq<Level>, root: Node, k: nat, x: Level, l: Level, p: nat, u: Node,
                  ks: seq<Key?>, ps: seq<Ptr>)
    requires Linked(h, lv, root, k, x) && 1 <= k < |lv| - 1 && l == lv[k + 1] && AtLevel(h, x, k)
    requires p < |l| && l[p].p == ToNode(u) && NodeOK(h, ToNode(u), k + 1)
    requires |ps| == |ks| + 1 && null !in ks && Kids(h, ps, u, k)
    requires h' == h[u := h[u].(ks := ks, ps := ps)]
    requires lv[k] == Expand(h, l[..p]) + Row(h'[u], l[p].s) + Expand(h, l[p + 1..])
    ensures Tree(h', lv, root)
  {
    hide Linked, LevelOK, Parents, Expand, Touches, Replacement, Picks, Row, AtLevel;
    LinkedAt(h, lv, root, k, x, k);
    LinkedAt(h, lv, root, k, x, k + 1);
    ExpandOne(h', l[p]);
    PicksOne(h, l, p, k + 1, u);
    OneReplacement(h, h', l, k, p, u, ks, ps);
    KidsAfter(h, h', u, ks, ps, k, l[p].s);
    AtLevelIs(h, x, k);
    Rewrite(h, h', lv, root, k, x, l, p, 1, [l[p]], {u});
    assert Splice(l, p, 1, [l[p]]) == l;
    assert lv[k + 1 := l] == lv;
    LinkedIsTree(h', lv, root, k + 1);
  }

  lemma AtLevelIs(h: Heap, x: Level, k: nat)
    requires AtLevel(h, x, k)
    ensures forall i :: 0 <= i < |x| ==> V(h, x[i].p).level == k
  {
  }

  lemma KidsAfter(h: Heap, h': Heap, u: Node, ks: seq<Key?>, ps: seq<Ptr>, k: nat, s: Key?)
    requires u in h && Kids(h, ps, u, k) && h' == h[u := h[u].(ks := ks, ps := ps)]
    ensures Parents(h', [Entry(ToNode(u), s)])
  {
    forall m | 0 <= m < |ps| ensures V(h', ps[m]).parent == u {
    }
  }

  // ----- Assigning another record to a slot -----

  /** A slot that is made to hold another record changes one entry of the content and nothing else. */
  lemma ReslotStructure(h: Heap, h': Heap, lv: seq<Level>, root: Node?, order: nat, keys: set<Key>, p: nat, u: Node,
                        lo: nat, n: nat, i: nat, rec: Record)
    requires root != null && Structure(h, lv, root, order, keys) && |lv| >= 2 && p < |lv[1]| && lv[1][p].p == ToNode(u)
    requires LeafAt(h, lv[1], lv[0], p, lo, n) && i < n && u in h
    requires h' == h[u := h[u].(ps := h[u].ps[i := ToRecord(rec)])]
    ensures lo + i < |lv[0]|
    ensures Structure(h', lv[0 := lv[0][lo + i := Entry(ToRecord(rec), lv[0][lo + i].s)]], root, order, keys)
  {
    hide Linked, LevelOK, Parents, Expand, PtrsOf, Chain, LeafSeps, ContentOK;
    LeafLevelOK(h, lv, root);
    NodeAt(h, lv[1], p, 1);
    var ks, ps := h[u].ks, h[u].ps[i := ToRecord(rec)];
    FixLeaf(h, h', lv, root, p, u, ks, ps);
    var c, d := lv[0], lo + i;
    var c' := c[d := Entry(ToRecord(rec), c[d].s)];
    assert c' == Splice(c, lo, n, Row(h'[u], lv[1][p].s)) by {
      forall m | 0 <= m < |c| ensures c'[m] == Splice(c, lo, n, Row(h'[u], lv[1][p].s))[m] {
        if lo <= m < lo + n { assert c[lo + (m - lo)] == Entry(V(h, lv[1][p].p).ps[m - lo], V(h, lv[1][p].p).ks[m - lo]); }
      }
    }
    ReslotContent(c, d, rec);
    LeavesIs(h, lv[1]);
    LeavesSame(h, h', lv[1]);
    LeavesIs(h', lv[1]);
    SameKeys(h, h', lv, order, root, keys, u, c');
  }

  lemma ReslotContent(c: Level, d: nat, rec: Record)
    requires ContentOK(c) && d < |c|
    ensures ContentOK(c[d := Entry(ToRecord(rec), c[d].s)])
  {
  }

  lemma SameKeys(h: Heap, h': Heap, lv: seq<Level>, order: nat, root: Node?, keys: set<Key>, u: Node, c: Level)
    requires |lv| >= 1 && Covered(h, lv) && Occupied(h, order, root) && KeysKnown(h, keys) && u in h
    requires h'.Keys == h.Keys && h'[u] == h[u].(ps := h'[u].ps) && forall n :: n in h && n != u ==> h'[n] == h[n]
    requires forall n :: n in h ==> h[n].level > 0
    ensures Covered(h', lv[0 := c]) && Occupied(h', order, root) && KeysKnown(h', keys)
    ensures forall n :: n in h' ==> h'[n].level > 0
  {
    hide PtrsOf;
  }
}
