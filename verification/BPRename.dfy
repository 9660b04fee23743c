/** Exchanging one separator for another throughout the internal nodes and the levels. */
module BPRename {
  import opened BPTypes
  import opened BPLevels
  import opened BPSteps
  import opened BPTree
  import opened BPInsert
  import opened BPFind
  import opened BPLeafSteps
  import opened BPSeps

  ghost function SwapKey(q: Key?, a: Key, b: Key): Key? {
    if q == a then b else q
  }

  ghost function SwapKeys(ks: seq<Key?>, a: Key, b: Key): seq<Key?> {
    seq(|ks|, i requires 0 <= i < |ks| => SwapKey(ks[i], a, b))
  }

  ghost function RenameVal(v: NodeVal, a: Key, b: Key): NodeVal {
    if v.leaf then v else v.(ks := SwapKeys(v.ks, a, b))
  }

  /** Every internal slot of a holds b instead. */
  ghost function RenameHeap(h: Heap, a: Key, b: Key): Heap {
    map n | n in h :: RenameVal(h[n], a, b)
  }

  ghost function RenameLevel(l: Level, a: Key, b: Key): Level {
    seq(|l|, i requires 0 <= i < |l| => Entry(l[i].p, SwapKey(l[i].s, a, b)))
  }

  /** The levels of nodes with the separator exchanged; the content keeps its keys. */
  ghost function RenameLevels(lv: seq<Level>, a: Key, b: Key): seq<Level> {
    seq(|lv|, k requires 0 <= k < |lv| => if k == 0 then lv[0] else RenameLevel(lv[k], a, b))
  }

  lemma RenameV(h: Heap, p: Ptr, a: Key, b: Key)
    ensures V(RenameHeap(h, a, b), p) == RenameVal(V(h, p), a, b)
  {
  }

  lemma {:induction false} RenameExpand(h: Heap, l: Level, a: Key, b: Key)
    requires forall i :: 0 <= i < |l| ==> !V(h, l[i].p).leaf
    ensures Expand(RenameHeap(h, a, b), RenameLevel(l, a, b)) == RenameLevel(Expand(h, l), a, b)
  {
    var h', l' := RenameHeap(h, a, b), RenameLevel(l, a, b);
    if l == [] {
      assert l' == [];
    } else {
      RenameExpand(h, l[1..], a, b);
      assert l'[1..] == RenameLevel(l[1..], a, b);
      var v := V(h, l[0].p);
      RenameV(h, l[0].p, a, b);
      assert Row(V(h', l'[0].p), l'[0].s) == RenameLevel(Row(v, l[0].s), a, b);
      var r, e := Row(v, l[0].s), Expand(h, l[1..]);
      assert RenameLevel(r + e, a, b) == RenameLevel(r, a, b) + RenameLevel(e, a, b);
    }
  }

  lemma {:induction false} RenameLeaves(h: Heap, l: Level, a: Key, b: Key)
    requires forall i :: 0 <= i < |l| ==> V(h, l[i].p).leaf && |V(h, l[i].p).ks| == |V(h, l[i].p).ps|
    ensures Expand(RenameHeap(h, a, b), RenameLevel(l, a, b)) == Expand(h, l)
  {
    var h', l' := RenameHeap(h, a, b), RenameLevel(l, a, b);
    if l != [] {
      RenameLeaves(h, l[1..], a, b);
      assert l'[1..] == RenameLevel(l[1..], a, b);
      RenameV(h, l[0].p, a, b);
      assert Row(V(h', l'[0].p), l'[0].s) == Row(V(h, l[0].p), l[0].s);
    }
  }

  lemma RenameLevelOK(h: Heap, l: Level, k: nat, a: Key, b: Key)
    requires LevelOK(h, l, k) && k >= 1
    ensures LevelOK(RenameHeap(h, a, b), RenameLevel(l, a, b), k)
    ensures k >= 2 ==> Expand(RenameHeap(h, a, b), RenameLevel(l, a, b)) == RenameLevel(Expand(h, l), a, b)
    ensures k == 1 ==> Expand(RenameHeap(h, a, b), RenameLevel(l, a, b)) == Expand(h, l)
  {
    hide Expand;
    var h', l' := RenameHeap(h, a, b), RenameLevel(l, a, b);
    forall i | 0 <= i < |l'| ensures NodeOK(h', l'[i].p, k) {
      assert NodeOK(h, l[i].p, k);
    }
    if k == 1 { RenameLeaves(h, l, a, b); } else { RenameExpand(h, l, a, b); }
  }

  lemma RenameParents(h: Heap, l: Level, a: Key, b: Key)
    requires Parents(h, l)
    ensures Parents(RenameHeap(h, a, b), RenameLevel(l, a, b))
  {
    var h', l' := RenameHeap(h, a, b), RenameLevel(l, a, b);
    forall i, m | 0 <= i < |l'| && 0 <= m < |V(h', l'[i].p).ps|
      ensures V(h', V(h', l'[i].p).ps[m]).parent == PNode(l'[i].p)
    {
      RenameV(h, l[i].p, a, b);
      assert V(h, V(h, l[i].p).ps[m]).parent == PNode(l[i].p);
      RenameV(h, V(h, l[i].p).ps[m], a, b);
    }
  }

  /** A tree stays a tree. */
  lemma RenameTree(h: Heap, lv: seq<Level>, root: Node, a: Key, b: Key)
    requires Tree(h, lv, root)
    ensures Tree(RenameHeap(h, a, b), RenameLevels(lv, a, b), root)
  {
    hide Linked, LevelOK, Parents, Expand, RenameHeap, RenameLevel;
    var h', lv' := RenameHeap(h, a, b), RenameLevels(lv, a, b);
    LinkedTopAt(h, lv, root, 0, lv[0]);
    RootHasNoParent(h, lv, root, 0, lv[0]);
    RenameTop(h, root, a, b);
    forall j | 1 <= j < |lv|
      ensures LevelOK(h', lv'[j], j) && (j >= 2 ==> Parents(h', lv'[j]))
      ensures Expand(h', lv'[j]) == if j - 1 == 0 then lv'[0] else lv'[j - 1]
    {
      LinkedAt(h, lv, root, 0, lv[0], j);
      LinkedAt(h, lv, root, 0, lv[0], j - 1);
      RenameLevelOK(h, lv[j], j, a, b);
      if j >= 2 { RenameParents(h, lv[j], a, b); }
    }
    LinkedIntro(h', lv', root, 0, lv'[0]);
  }

  lemma RenameTop(h: Heap, root: Node, a: Key, b: Key)
    requires root in h && h[root].parent == null
    ensures root in RenameHeap(h, a, b) && RenameHeap(h, a, b)[root].parent == null
    ensures RenameLevel([Entry(ToNode(root), null)], a, b) == [Entry(ToNode(root), null)]
  {
  }

  lemma RenameSame(h: Heap, lv: seq<Level>, a: Key)
    ensures RenameHeap(h, a, a) == h && RenameLevels(lv, a, a) == lv
  {
    forall n | n in h ensures RenameVal(h[n], a, a) == h[n] {
      assert SwapKeys(h[n].ks, a, a) == h[n].ks;
    }
    forall k | 0 <= k < |lv| ensures RenameLevels(lv, a, a)[k] == lv[k] {
      assert RenameLevel(lv[k], a, a) == lv[k];
    }
  }

  // ----- Where the key really is -----

  /** A node that claims a level is listed there. */
  lemma ListedAt(h: Heap, lv: seq<Level>, n: Node) returns (i: nat)
    requires Covered(h, lv) && n in h && h[n].level > 0
    ensures h[n].level < |lv| && i < |lv[h[n].level]| && lv[h[n].level][i].p == ToNode(n)
  {
    var l := lv[h[n].level];
    var e :| e in l && e.p == ToNode(n);
    i :| 0 <= i < |l| && l[i] == e;
  }

  /** If the key separates no leaves, no internal slot holds it. */
  lemma RenameNone(h: Heap, lv: seq<Level>, root: Node, a: Key, b: Key)
    requires Tree(h, lv, root) && ContentOK(lv[0]) && LeafSeps(h, lv[1]) && Covered(h, lv)
    requires forall n :: n in h ==> h[n].level > 0
    requires !HasSep(lv[1], a)
    ensures RenameHeap(h, a, b) == h
  {
    hide Linked, LevelOK, Parents, Expand, ContentOK, LeafSeps, HasSep;
    forall n | n in h ensures RenameVal(h[n], a, b) == h[n] {
      var k := h[n].level;
      var i := ListedAt(h, lv, n);
      LinkedAt(h, lv, root, 0, lv[0], k);
      NodeAt(h, lv[k], i, k);
      forall m | 0 <= m < |h[n].ks| && !h[n].leaf ensures h[n].ks[m] != a {
        if h[n].ks[m] == a {
          var x := SlotSep(h, lv, root, a, k, i, m);
          SepBelow(h, lv, root, 1, k - 1, a);
        }
      }
      assert !h[n].leaf ==> SwapKeys(h[n].ks, a, b) == h[n].ks;
    }
  }

  /** Otherwise exactly one slot changes. */
  lemma RenameOne(h: Heap, lv: seq<Level>, root: Node, a: Key, b: Key, k: nat, i: nat, m: nat, u: Node)
    requires Tree(h, lv, root) && ContentOK(lv[0]) && LeafSeps(h, lv[1]) && Covered(h, lv)
    requires forall n :: n in h ==> h[n].level > 0
    requires InSlot(h, lv, a, k, i, m) && lv[k][i].p == ToNode(u)
    ensures u in h && m < |h[u].ks|
    ensures RenameHeap(h, a, b) == h[u := h[u].(ks := h[u].ks[m := b])]
  {
    hide Linked, LevelOK, Parents, Expand, ContentOK, LeafSeps, HasSep;
    LinkedAt(h, lv, root, 0, lv[0], k);
    NodeAt(h, lv[k], i, k);
    forall n | n in h ensures RenameVal(h[n], a, b) == h[u := h[u].(ks := h[u].ks[m := b])][n] {
      var k' := h[n].level;
      var i' := ListedAt(h, lv, n);
      LinkedAt(h, lv, root, 0, lv[0], k');
      NodeAt(h, lv[k'], i', k');
      forall m' | 0 <= m' < |h[n].ks| && !h[n].leaf && h[n].ks[m'] == a ensures n == u && m' == m {
        SlotOnce(h, lv, root, a, k, i, m, k', i', m');
      }
      if n == u {
        assert SwapKeys(h[n].ks, a, b) == h[n].ks[m := b];
      } else if !h[n].leaf {
        assert SwapKeys(h[n].ks, a, b) == h[n].ks;
      }
    }
  }
}
