/** How the in-place edits of one or two nodes act on levels: inserting into a row, splitting a row, removing from a
    row, merging and balancing two rows. */
module BPSteps {
  import opened BPTypes
  import opened BPLevels
  import opened BPSlots



  // ----- Rows -----

  lemma RowInsertInner(v: NodeVal, v': NodeVal, s: Key?, j: nat, bk: Key, right: Ptr)
    requires |v.ps| == |v.ks| + 1 && j < |v.ps|
    requires v'.ks == Insert(v.ks, j, bk) && v'.ps == Insert(v.ps, j + 1, right)
    ensures Row(v', s) == Splice(Row(v, s), j, 1, [Entry(v.ps[j], bk), Entry(right, Row(v, s)[j].s)])
  {
  }

  lemma RowInsertLeaf(v: NodeVal, v': NodeVal, s: Key?, j: nat, bk: Key, rec: Ptr)
    requires |v.ps| == |v.ks| && j <= |v.ps|
    requires v'.ks == Insert(v.ks, j, bk) && v'.ps == Insert(v.ps, j, rec)
    ensures Row(v', s) == Splice(Row(v, s), j, 0, [Entry(rec, bk)])
  {
  }

  /** Cutting an internal row at key c, which moves up as the separator of the left part. */
  lemma RowCutInner(f: NodeVal, a: NodeVal, b: NodeVal, s: Key?, c: nat)
    requires |f.ps| == |f.ks| + 1 && c < |f.ks|
    requires a.ks == f.ks[..c] && a.ps == f.ps[..c + 1] && b.ks == f.ks[c + 1..] && b.ps == f.ps[c + 1..]
    ensures Row(f, s) == Row(a, f.ks[c]) + Row(b, s)
  {
  }

  lemma RowCutLeaf(f: NodeVal, a: NodeVal, b: NodeVal, s: Key?, t: Key?, c: nat)
    requires |f.ps| == |f.ks| && c <= |f.ks|
    requires a.ks == f.ks[..c] && a.ps == f.ps[..c] && b.ks == f.ks[c..] && b.ps == f.ps[c..]
    ensures Row(f, s) == Row(a, t) + Row(b, s)
  {
  }

  // ----- Levels -----

  lemma Middle<T>(a: seq<T>, r: seq<T>, b: seq<T>)
    ensures |a + r + b| == |a| + |r| + |b|
    ensures forall m :: 0 <= m < |r| ==> (a + r + b)[|a| + m] == r[m]
  {
  }

  /** The level below, cut around the row of entry p. */
  lemma ExpandAround(h: Heap, l: Level, p: nat)
    requires p < |l|
    ensures Expand(h, l) == Expand(h, l[..p]) + Row(V(h, l[p].p), l[p].s) + Expand(h, l[p + 1..])
  {
    ExpandAt(h, l, p, 1);
    assert l[p..p + 1] == [l[p]];
    ExpandOne(h, l[p]);
  }

  lemma SpliceInside<T>(a: seq<T>, r: seq<T>, b: seq<T>, j: nat, n: nat, mid: seq<T>)
    requires j + n <= |r|
    ensures Splice(a + r + b, |a| + j, n, mid) == a + Splice(r, j, n, mid) + b
  {
  }

  /** Nodes p .. p + n of level l are exactly the members of u in it. */
  ghost predicate Picks(l: Level, p: nat, n: nat, u: set<Node>) {
    && p + n <= |l|
    && forall i :: 0 <= i < |l| ==> (PNode(l[i].p) in u <==> p <= i < p + n)
  }

  /** A valid replacement for nodes p .. p + n of level l: the nodes used are among the replaced ones or new. */
  ghost predicate Replacement(h: Heap, h': Heap, l: Level, p: nat, n: nat, mid: Level, k: nat, u: set<Node>) {
    && p + n <= |l| && 0 < n && 0 < |mid|
    && (forall i :: 0 <= i < |mid| ==> NodeOK(h', mid[i].p, k) && (mid[i].p.node in u || V(h, mid[i].p).level == 0))
    && (forall i, j :: 0 <= i < j < |mid| ==> mid[i].p != mid[j].p)
    && (forall j :: 0 <= j < |mid| - 1 ==> mid[j].s != null)
    && mid[|mid| - 1].s == l[p + n - 1].s
  }

  /** Only the nodes in u change their slots; only children of nodes in u change their parent. */
  ghost predicate Touches(h: Heap, h': Heap, k: nat, u: set<Node>) {
    forall m :: m in h && h[m].level > 0 ==>
      && m in h' && h'[m].level == h[m].level
      && (m !in u ==> h'[m] == h[m].(parent := h'[m].parent))
      && (h'[m].parent != h[m].parent ==> h[m].level == k && h[m].parent in u)
      && (m in u ==> h[m].level == k + 1)
  }

  lemma TouchesIsLocal(h: Heap, h': Heap, k: nat, u: set<Node>)
    requires Touches(h, h', k, u)
    ensures Local(h, h', k)
  {
  }

  lemma RewriteRows(h: Heap, h': Heap, k: nat, l: Level, p: nat, n: nat, u: set<Node>)
    requires LevelOK(h, l, k + 1) && Picks(l, p, n, u) && Touches(h, h', k, u)
    ensures SameRows(h, h', l[..p]) && SameRows(h, h', l[p + n..])
    ensures forall i :: 0 <= i < |l| && !(p <= i < p + n) ==> NodeOK(h', l[i].p, k + 1)
  {
    forall i | 0 <= i < |l| && !(p <= i < p + n)
      ensures NodeOK(h', l[i].p, k + 1)
      ensures V(h, l[i].p).ks == V(h', l[i].p).ks && V(h, l[i].p).ps == V(h', l[i].p).ps
    {
      assert NodeOK(h, l[i].p, k + 1) && PNode(l[i].p) !in u;
    }
    assert forall i :: 0 <= i < p ==> l[..p][i] == l[i];
    assert forall i {:trigger l[p + n..][i]} :: 0 <= i < |l| - p - n ==> l[p + n..][i] == l[p + n + i];
  }

  lemma RewriteLevel(h: Heap, h': Heap, k: nat, l: Level, p: nat, n: nat, mid: Level, u: set<Node>)
    requires LevelOK(h, l, k + 1) && Picks(l, p, n, u) && Touches(h, h', k, u)
    requires Replacement(h, h', l, p, n, mid, k + 1, u)
    ensures LevelOK(h', Splice(l, p, n, mid), k + 1)
  {
    hide Splice, Touches;
    RewriteRows(h, h', k, l, p, n, u);
    forall i, j | 0 <= i < |l| && !(p <= i < p + n) && 0 <= j < |mid|
      ensures l[i].p != mid[j].p
    {
      assert NodeOK(h, l[i].p, k + 1) && PNode(l[i].p) !in u;
    }
    var l' := Splice(l, p, n, mid);
    assert |l'| == |l| - n + |mid| by { SpliceItem(l, p, n, mid, 0); }
    forall i | 0 <= i < |l'| ensures NodeOK(h', l'[i].p, k + 1) {
      SpliceItem(l, p, n, mid, i);
    }
    SpliceDistinct(l, p, n, mid);
    SpliceSeps(l, p, n, mid);
  }

  lemma SpliceItem<T>(l: seq<T>, p: nat, n: nat, mid: seq<T>, i: nat)
    requires p + n <= |l| && i < |l| - n + |mid|
    ensures |Splice(l, p, n, mid)| == |l| - n + |mid|
    ensures Splice(l, p, n, mid)[i] == if i < p then l[i] else if i < p + |mid| then mid[i - p] else l[i - |mid| + n]
  {
  }

  lemma SpliceDistinct(l: Level, p: nat, n: nat, mid: Level)
    requires p + n <= |l|
    requires forall i, j :: 0 <= i < j < |l| ==> l[i].p != l[j].p
    requires forall i, j :: 0 <= i < j < |mid| ==> mid[i].p != mid[j].p
    requires forall i, j :: 0 <= i < |l| && !(p <= i < p + n) && 0 <= j < |mid| ==> l[i].p != mid[j].p
    ensures var l' := Splice(l, p, n, mid); forall i, j :: 0 <= i < j < |l'| ==> l'[i].p != l'[j].p
  {
    var l' := Splice(l, p, n, mid);
    forall i, j | 0 <= i < j < |l'| ensures l'[i].p != l'[j].p {
      SpliceItem(l, p, n, mid, i);
      SpliceItem(l, p, n, mid, j);
    }
  }

  lemma SpliceSeps(l: Level, p: nat, n: nat, mid: Level)
    requires p + n <= |l| && 0 < n && 0 < |mid|
    requires forall i :: 0 <= i < |l| ==> (l[i].s == null <==> i == |l| - 1)
    requires forall j :: 0 <= j < |mid| - 1 ==> mid[j].s != null
    requires mid[|mid| - 1].s == l[p + n - 1].s
    ensures var l' := Splice(l, p, n, mid); forall i :: 0 <= i < |l'| ==> (l'[i].s == null <==> i == |l'| - 1)
  {
    var l' := Splice(l, p, n, mid);
    forall i | 0 <= i < |l'| ensures l'[i].s == null <==> i == |l'| - 1 {
      SpliceItem(l, p, n, mid, i);
    }
  }

  /** All child slots of a level hold nodes of level k. */
  ghost predicate ChildrenAt(h: Heap, l: Level, k: nat) {
    forall i, m :: 0 <= i < |l| && 0 <= m < |V(h, l[i].p).ps| ==> V(h, V(h, l[i].p).ps[m]).level == k
  }

  lemma RewriteParents(h: Heap, h': Heap, k: nat, l: Level, p: nat, n: nat, mid: Level, u: set<Node>)
    requires LevelOK(h, l, k + 1) && Picks(l, p, n, u) && Touches(h, h', k, u)
    requires Parents(h, l) && Parents(h', mid)
    requires ChildrenAt(h, l, k) && k > 0
    ensures Parents(h', Splice(l, p, n, mid))
  {
    RewriteRows(h, h', k, l, p, n, u);
    var l' := Splice(l, p, n, mid);
    forall i, m | 0 <= i < |l'| && 0 <= m < |V(h', l'[i].p).ps|
      ensures V(h', V(h', l'[i].p).ps[m]).parent == PNode(l'[i].p)
    {
      if p <= i < p + |mid| {
        assert l'[i] == mid[i - p];
      } else {
        var q := if i < p then i else i - |mid| + n;
        assert l'[i] == l[q];
        assert q < p ==> l[q] == l[..p][q];
        assert q >= p ==> l[q] == l[p + n..][q - p - n];
        assert V(h, V(h, l[q].p).ps[m]).parent == PNode(l[q].p);
        assert V(h, V(h, l[q].p).ps[m]).level == k;
      }
    }
  }

  lemma ChildLevels(h: Heap, l: Level, k: nat)
    requires forall i :: 0 <= i < |Expand(h, l)| ==> V(h, Expand(h, l)[i].p).level == k
    ensures ChildrenAt(h, l, k)
  {
    forall i, m | 0 <= i < |l| && 0 <= m < |V(h, l[i].p).ps|
      ensures V(h, V(h, l[i].p).ps[m]).level == k
    {
      SlotAt(h, l, i, m);
    }
  }

  /** What Linked says about one level. */
  lemma LinkedAt(h: Heap, lv: seq<Level>, root: Node, k: nat, x: Level, j: nat)
    requires Linked(h, lv, root, k, x) && j < |lv|
    ensures |lv| >= 2 && k < |lv|
    ensures j >= 1 ==> LevelOK(h, lv[j], j)
    ensures j >= 2 ==> Parents(h, lv[j])
    ensures j < |lv| - 1 ==> Expand(h, lv[j + 1]) == if j == k then x else lv[j]
  {
    assert Above(h, lv, root, j) == if j == k then x else lv[j];
  }

  /** The general repair step. Nodes p .. p + n of level k + 1 are replaced by `mid` so that the level now describes
      lv[k]: what remains to be repaired is the level above. */
  lemma Rewrite(h: Heap, h': Heap, lv: seq<Level>, root: Node, k: nat, x: Level, l: Level, p: nat, n: nat, mid: Level, u: set<Node>)
    requires Linked(h, lv, root, k, x) && k + 1 < |lv| && l == lv[k + 1]
    requires Picks(l, p, n, u) && Touches(h, h', k, u)
    requires Replacement(h, h', l, p, n, mid, k + 1, u)
    requires k > 0 ==> Parents(h', mid) && forall i :: 0 <= i < |x| ==> V(h, x[i].p).level == k
    requires p + n <= |l| && Expand(h, l[..p]) + Expand(h', mid) + Expand(h, l[p + n..]) == lv[k]
    ensures p + n <= |l| && Linked(h', lv[k + 1 := Splice(l, p, n, mid)], root, k + 1, l)
  {
    hide *;
    LinkedAt(h, lv, root, k, x, k);
    LinkedAt(h, lv, root, k, x, k + 1);
    RewriteRows(h, h', k, l, p, n, u);
    RewriteLevel(h, h', k, l, p, n, mid, u);
    if k > 0 {
      ChildLevels(h, l, k);
      RewriteParents(h, h', k, l, p, n, mid, u);
    }
    RewriteExpand(h, h', l, p, n, mid);
    TouchesIsLocal(h, h', k, u);
    Step(h, h', lv, root, k, x, Splice(l, p, n, mid));
  }

  lemma RewriteExpand(h: Heap, h': Heap, l: Level, p: nat, n: nat, mid: Level)
    requires p + n <= |l| && SameRows(h, h', l[..p]) && SameRows(h, h', l[p + n..])
    ensures Expand(h', Splice(l, p, n, mid)) == Expand(h, l[..p]) + Expand(h', mid) + Expand(h, l[p + n..])
  {
    ExpandSplice(h, h', l, p, n, mid);
    ExpandAt(h, l, p, n);
  }
}
