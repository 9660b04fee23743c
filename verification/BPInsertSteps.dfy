/** What the node edits of an insertion do to the levels of the tree. */
module BPInsertSteps {
  import opened BPTypes
  import opened BPLevels
  import opened BPSlots
  import opened BPSteps

  /** Level k has had the entry x[i] = (left, s) replaced by (left, bk), (right, s). */
  ghost predicate IsSplit(l: Level, x: Level, i: nat, left: Node, bk: Key, right: Node) {
    i < |x| && x[i].p == ToNode(left) && l == Splice(x, i, 1, [Entry(ToNode(left), bk), Entry(ToNode(right), x[i].s)])
  }

  /** The slot that describes x[i] in the level above: node p of that level, slot j; it is the node's only slot for
      that child, and the child's parent link names the node. */
  lemma ParentSlot(h: Heap, l: Level, k: nat, x: Level, i: nat) returns (p: nat, j: nat)
    requires LevelOK(h, l, k + 1) && Parents(h, l) && Expand(h, l) == x && i < |x|
    requires forall a, b :: 0 <= a < b < |x| ==> x[a].p != x[b].p
    ensures p < |l| && NodeOK(h, l[p].p, k + 1)
    ensures var v := V(h, l[p].p);
      && j < |v.ps| && i == |Expand(h, l[..p])| + j
      && x[i] == Row(v, l[p].s)[j]
      && V(h, x[i].p).parent == PNode(l[p].p)
      && (forall m :: 0 <= m < |v.ps| && m != j ==> v.ps[m] != x[i].p)
  {
    p, j := Locate(h, l, i);
    var v := V(h, l[p].p);
    assert V(h, v.ps[j]).parent == PNode(l[p].p);
    forall m | 0 <= m < |v.ps| && m != j
      ensures v.ps[m] != x[i].p
    {
      SlotAt(h, l, p, m);
      assert x[i - j + m].p == v.ps[m];
    }
  }

  lemma SplitDistinct(l: Level, x: Level, i: nat, left: Node, bk: Key, right: Node)
    requires IsSplit(l, x, i, left, bk, right)
    requires forall a, b :: 0 <= a < b < |l| ==> l[a].p != l[b].p
    ensures forall a, b :: 0 <= a < b < |x| ==> x[a].p != x[b].p
  {
    assert forall a :: 0 <= a < |x| ==> x[a].p == l[if a <= i then a else a + 1].p;
  }

  /** The row that describes x[i] splits like level k does. */
  lemma RowsAfterSplit(h: Heap, l: Level, p: nat, j: nat, x: Level, i: nat, two: Level)
    requires p < |l| && x == Expand(h, l) && |two| == 2
    requires j < |V(h, l[p].p).ps| && i == |Expand(h, l[..p])| + j
    ensures i < |x| && Splice(x, i, 1, two)
         == Expand(h, l[..p]) + Splice(Row(V(h, l[p].p), l[p].s), j, 1, two) + Expand(h, l[p + 1..])
  {
    hide *;
    var a, r, b := Expand(h, l[..p]), Row(V(h, l[p].p), l[p].s), Expand(h, l[p + 1..]);
    ExpandAround(h, l, p);
    SpliceInside(a, r, b, j, 1, two);
    Middle(a, r, b);
  }

  lemma PicksOne(h: Heap, l: Level, p: nat, k: nat, u: Node)
    requires LevelOK(h, l, k) && p < |l| && l[p].p == ToNode(u)
    ensures Picks(l, p, 1, {u})
  {
    forall i | 0 <= i < |l|
      ensures PNode(l[i].p) in {u} <==> p <= i < p + 1
    {
      assert NodeOK(h, l[i].p, k);
      if i != p { assert l[i].p != l[p].p; }
    }
  }

  /** A parent whose child list gained `right` behind slot j. */
  lemma ParentsAfterInsert(h: Heap, h': Heap, l: Level, p: nat, j: nat, u: Node, right: Node, s: Key?)
    requires Parents(h, l) && p < |l| && l[p].p == ToNode(u) && u in h && u in h'
    requires j < |h[u].ps| && h'[u].ps == Insert(h[u].ps, j + 1, ToNode(right))
    requires forall c: Ptr {:trigger V(h', c)} :: V(h', c).parent == V(h, c).parent
    requires V(h, ToNode(right)).parent == u
    ensures Parents(h', [Entry(ToNode(u), s)])
  {
    forall m | 0 <= m < |h'[u].ps|
      ensures V(h', h'[u].ps[m]).parent == u
    {
      var c := h'[u].ps[m];
      if m != j + 1 {
        var q := if m <= j then m else m - 1;
        assert V(h, l[p].p).ps[q] == c;
        assert V(h, V(h, l[p].p).ps[q]).parent == PNode(l[p].p);
      }
    }
  }

  ghost predicate AtLevel(h: Heap, x: Level, k: nat) {
    forall i :: 0 <= i < |x| ==> V(h, x[i].p).level == k
  }

  /** Where the parent of a split child sits: node u at position p of level l, child slot j. */
  ghost predicate Site(h: Heap, l: Level, k: nat, x: Level, i: nat, p: nat, j: nat, u: Node) {
    && p < |l| && l[p].p == ToNode(u) && NodeOK(h, ToNode(u), k)
    && i < |x| && j < |h[u].ps| && i == |Expand(h, l[..p])| + j && x[i] == Row(h[u], l[p].s)[j]
  }

  /** _insert_into_node: the parent u has room. */
  lemma Fits(h: Heap, h': Heap, lv: seq<Level>, root: Node, k: nat, x: Level, i: nat,
             left: Node, bk: Key, right: Node, l: Level, p: nat, j: nat, u: Node)
    requires Linked(h, lv, root, k, x) && 1 <= k < |lv| - 1 && IsSplit(lv[k], x, i, left, bk, right)
    requires l == lv[k + 1] && AtLevel(h, x, k) && Site(h, l, k + 1, x, i, p, j, u)
    requires h' == h[u := h[u].(ks := Insert(h[u].ks, j, bk), ps := Insert(h[u].ps, j + 1, ToNode(right)))]
    requires V(h, ToNode(right)).parent == u
    ensures Linked(h', lv, root, k + 1, l)
  {
    hide Linked, LevelOK, Parents, Expand, Touches, Replacement, Picks;
    var mid := [l[p]];
    LinkedAt(h, lv, root, k, x, k);
    LinkedAt(h, lv, root, k, x, k + 1);
    RowInsertInner(h[u], h'[u], l[p].s, j, bk, ToNode(right));
    ExpandOne(h', l[p]);
    RowsAfterSplit(h, l, p, j, x, i, [Entry(ToNode(left), bk), Entry(ToNode(right), x[i].s)]);
    PicksOne(h, l, p, k + 1, u);
    ParentsAfterInsert(h, h', l, p, j, u, right, l[p].s);
    FitsReplacement(h, h', l, k, p, j, u, bk, right);
    Rewrite(h, h', lv, root, k, x, l, p, 1, mid, {u});
    assert Splice(l, p, 1, mid) == l;
    assert lv[k + 1 := l] == lv;
  }

  lemma FitsReplacement(h: Heap, h': Heap, l: Level, k: nat, p: nat, j: nat, u: Node, bk: Key, right: Node)
    requires LevelOK(h, l, k + 1) && k >= 1 && p < |l| && l[p].p == ToNode(u) && NodeOK(h, ToNode(u), k + 1)
    requires j < |h[u].ps|
    requires h' == h[u := h[u].(ks := Insert(h[u].ks, j, bk), ps := Insert(h[u].ps, j + 1, ToNode(right)))]
    ensures Touches(h, h', k, {u}) && Replacement(h, h', l, p, 1, [l[p]], k + 1, {u})
  {
  }

  /** The heap after every child of w has been told that w is its parent. */
  ghost function Reparent(h: Heap, w: Node): Heap {
    map n | n in h :: if ToNode(n) in V(h, ToNode(w)).ps then h[n].(parent := w) else h[n]
  }

  /** The heap after u's slots, with (bk, right) inserted at slot j, were cut at key c and the upper part moved to w. */
  ghost function CutHeap(h: Heap, u: Node, w: Node, j: nat, bk: Key, right: Node, c: nat): Heap
    requires u in h && w in h && j < |h[u].ps| && |h[u].ps| == |h[u].ks| + 1 && c <= |h[u].ks|
  {
    var ks := Insert(h[u].ks, j, bk);
    var ps := Insert(h[u].ps, j + 1, ToNode(right));
    Reparent(h[u := h[u].(ks := ks[..c], ps := ps[..c + 1])]
              [w := NodeVal(false, ks[c + 1..], ps[c + 1..], Null, h[u].parent, h[u].level)], w)
  }

  /** _insert_into_node_after_splitting: u is full, its upper half goes to the fresh node w. */
  lemma Splits(h: Heap, h': Heap, lv: seq<Level>, root: Node, k: nat, x: Level, i: nat, left: Node, bk: Key,
               right: Node, l: Level, p: nat, j: nat, u: Node, w: Node, c: nat)
    requires Linked(h, lv, root, k, x) && 1 <= k < |lv| - 1 && IsSplit(lv[k], x, i, left, bk, right)
    requires l == lv[k + 1] && AtLevel(h, x, k) && Site(h, l, k + 1, x, i, p, j, u)
    requires w in h && h[w].level == 0 && 0 < c < |h[u].ks|
    requires h' == CutHeap(h, u, w, j, bk, right, c)
    requires V(h, ToNode(right)).parent == u
    ensures p < |l| && Linked(h', lv[k + 1 := Splice(l, p, 1, [Entry(ToNode(u), Insert(h[u].ks, j, bk)[c]), Entry(ToNode(w), l[p].s)])],
                   root, k + 1, l)
  {
    hide Linked, LevelOK, Parents, Expand, Touches, Replacement, Picks, CutHeap;
    LinkedAt(h, lv, root, k, x, k);
    LinkedAt(h, lv, root, k, x, k + 1);
    var ks, ps := Insert(h[u].ks, j, bk), Insert(h[u].ps, j + 1, ToNode(right));
    var f := h[u].(ks := ks, ps := ps);
    var s := l[p].s;
    var mid := [Entry(ToNode(u), ks[c]), Entry(ToNode(w), s)];
    RowInsertInner(h[u], f, s, j, bk, ToNode(right));
    RowsAfterSplit(h, l, p, j, x, i, [Entry(ToNode(left), bk), Entry(ToNode(right), x[i].s)]);
    CutVals(h, h', u, w, j, bk, right, c);
    RowCutInner(f, h'[u], h'[w], s, c);
    ExpandTwo(h', mid[0], mid[1]);
    PicksOne(h, l, p, k + 1, u);
    RightLevel(h, lv[k], x, i, left, bk, right, k);
    SlotsDistinct(h, lv[k], k, Expand(h, l[..p]), Row(f, s), Expand(h, l[p + 1..]));
    ChildLevels(h, l, k);
    CutParents(h, h', l, k, p, j, u, w, bk, right, c, f, s, mid);
    CutReplacement(h, h', l, k, p, j, u, w, bk, right, c, mid);
    Rewrite(h, h', lv, root, k, x, l, p, 1, mid, {u});
  }

  lemma RightLevel(h: Heap, y: Level, x: Level, i: nat, left: Node, bk: Key, right: Node, k: nat)
    requires LevelOK(h, y, k) && IsSplit(y, x, i, left, bk, right)
    ensures right in h && h[right].level == k
  {
    assert y[i + 1] == Entry(ToNode(right), x[i].s);
    assert NodeOK(h, y[i + 1].p, k);
  }

  /** The slots of one row of a well-formed level are distinct. */
  lemma SlotsDistinct(h: Heap, y: Level, k: nat, a: Level, r: Level, b: Level)
    requires LevelOK(h, y, k) && y == a + r + b
    ensures forall m, n :: 0 <= m < n < |r| ==> r[m].p != r[n].p
  {
    assert forall m :: 0 <= m < |r| ==> r[m] == y[|a| + m];
  }

  lemma CutVals(h: Heap, h': Heap, u: Node, w: Node, j: nat, bk: Key, right: Node, c: nat)
    requires u in h && w in h && u != w && j < |h[u].ps| && |h[u].ps| == |h[u].ks| + 1 && c < |h[u].ks|
    requires h' == CutHeap(h, u, w, j, bk, right, c)
    ensures var ks := Insert(h[u].ks, j, bk);
            var ps := Insert(h[u].ps, j + 1, ToNode(right));
      && h'.Keys == h.Keys
      && h'[u] == h[u].(ks := ks[..c], ps := ps[..c + 1], parent := h'[u].parent)
      && h'[w] == NodeVal(false, ks[c + 1..], ps[c + 1..], Null, h'[w].parent, h[u].level)
      && (forall n :: n in h && n != u && n != w ==> h'[n] == h[n].(parent := h'[n].parent))
      && (forall n :: n in h && n != w ==> h'[n].parent == if ToNode(n) in ps[c + 1..] then w else h[n].parent)
      && (ToNode(w) !in ps[c + 1..] ==> h'[w].parent == h[u].parent)
  {
  }

  lemma CutParents(h: Heap, h': Heap, l: Level, k: nat, p: nat, j: nat, u: Node, w: Node, bk: Key, right: Node, c: nat,
                   f: NodeVal, s: Key?, mid: Level)
    requires p < |l| && l[p].p == ToNode(u) && u in h && w in h && w != u && Parents(h, l) && ChildrenAt(h, l, k)
    requires h[w].level == 0 && h[u].level == k + 1 && k > 0
    requires j < |h[u].ps| && |h[u].ps| == |h[u].ks| + 1 && 0 < c < |h[u].ks|
    requires h' == CutHeap(h, u, w, j, bk, right, c)
    requires f == h[u].(ks := Insert(h[u].ks, j, bk), ps := Insert(h[u].ps, j + 1, ToNode(right)))
    requires forall m, n :: 0 <= m < n < |f.ps| ==> Row(f, s)[m].p != Row(f, s)[n].p
    requires right in h && h[right].level == k && h[right].parent == u
    requires |mid| == 2 && mid[0].p == ToNode(u) && mid[1].p == ToNode(w)
    ensures Parents(h', mid)
    ensures Kids(h, f.ps, u, k)
  {
    hide CutHeap, Parents;
    CutVals(h, h', u, w, j, bk, right, c);
    KidsOf(h, l, k, p, u);
    forall m | 0 <= m < |f.ps|
      ensures f.ps[m].ToNode? && f.ps[m].node in h && h[f.ps[m].node].parent == u && h[f.ps[m].node].level == k
    {
      assert f.ps[m] == if m <= j then h[u].ps[m] else if m == j + 1 then ToNode(right) else h[u].ps[m - 1];
    }
    assert forall m :: 0 <= m < |f.ps| ==> Row(f, s)[m].p == f.ps[m];
    forall m | 0 <= m < |h'[u].ps|
      ensures V(h', h'[u].ps[m]).parent == u
    {
      assert h'[u].ps[m] == f.ps[m];
      assert forall n {:trigger f.ps[c + 1..][n]} :: 0 <= n < |f.ps| - c - 1 ==> f.ps[c + 1..][n] == f.ps[c + 1 + n];
    }
    forall m | 0 <= m < |h'[w].ps|
      ensures V(h', h'[w].ps[m]).parent == w
    {
      assert h'[w].ps[m] == f.ps[c + 1 + m];
    }
    ParentsTwo(h', mid);
  }

  /** The pointers are nodes of level k whose parent is u. */
  ghost predicate Kids(h: Heap, ps: seq<Ptr>, u: Node, k: nat) {
    forall m :: 0 <= m < |ps| ==> ps[m].ToNode? && ps[m].node in h && h[ps[m].node].parent == u && h[ps[m].node].level == k
  }

  lemma KidsOf(h: Heap, l: Level, k: nat, p: nat, u: Node)
    requires p < |l| && l[p].p == ToNode(u) && u in h && Parents(h, l) && ChildrenAt(h, l, k) && k > 0
    ensures Kids(h, h[u].ps, u, k)
  {
    forall m | 0 <= m < |h[u].ps|
      ensures h[u].ps[m].ToNode? && h[u].ps[m].node in h && V(h, h[u].ps[m]).parent == u && V(h, h[u].ps[m]).level == k
    {
      assert V(h, V(h, l[p].p).ps[m]).parent == PNode(l[p].p);
      assert V(h, V(h, l[p].p).ps[m]).level == k;
    }
  }

  lemma ParentsTwo(h: Heap, mid: Level)
    requires |mid| == 2
    requires forall m :: 0 <= m < |V(h, mid[0].p).ps| ==> V(h, V(h, mid[0].p).ps[m]).parent == PNode(mid[0].p)
    requires forall m :: 0 <= m < |V(h, mid[1].p).ps| ==> V(h, V(h, mid[1].p).ps[m]).parent == PNode(mid[1].p)
    ensures Parents(h, mid)
  {
  }

  lemma CutReplacement(h: Heap, h': Heap, l: Level, k: nat, p: nat, j: nat, u: Node, w: Node, bk: Key, right: Node, c: nat,
                       mid: Level)
    requires p < |l| && l[p].p == ToNode(u) && NodeOK(h, ToNode(u), k + 1) && w in h && h[w].level == 0 && k > 0
    requires j < |h[u].ps| && 0 < c < |h[u].ks|
    requires h' == CutHeap(h, u, w, j, bk, right, c)
    requires Kids(h, Insert(h[u].ps, j + 1, ToNode(right)), u, k)
    requires mid == [Entry(ToNode(u), Insert(h[u].ks, j, bk)[c]), Entry(ToNode(w), l[p].s)]
    ensures Touches(h, h', k, {u})
    ensures Replacement(h, h', l, p, 1, mid, k + 1, {u})
  {
    hide CutHeap;
    CutVals(h, h', u, w, j, bk, right, c);
    var ks, ps := Insert(h[u].ks, j, bk), Insert(h[u].ps, j + 1, ToNode(right));
    forall n | n in h && ToNode(n) in ps[c + 1..]
      ensures h[n].parent == u && h[n].level == k
    {
      var m :| 0 <= m < |ps[c + 1..]| && ps[c + 1..][m] == ToNode(n);
      assert ps[c + 1 + m] == ToNode(n);
    }
    assert null !in ks;
    assert null !in ks[..c] && null !in ks[c + 1..];
  }

  /** _insert_into_new_root: the old root was split; the fresh node w becomes the root above both halves. */
  lemma NewRoot(h: Heap, h': Heap, lv: seq<Level>, root: Node, k: nat, x: Level, i: nat, left: Node, bk: Key,
                right: Node, w: Node)
    requires Linked(h, lv, root, k, x) && k == |lv| - 1 && IsSplit(lv[k], x, i, left, bk, right)
    requires w in h && h[w].level == 0 && left in h && right in h && left != right
    requires h' == h[w := NodeVal(false, [bk], [ToNode(left), ToNode(right)], Null, null, k + 1)]
                    [left := h[left].(parent := w)][right := h[right].(parent := w)]
    ensures left == root && Linked(h', lv + [[Entry(ToNode(w), null)]], w, k + 1, [Entry(ToNode(w), null)])
  {
    hide Linked, LevelOK, Parents, Expand, Local;
    LinkedAt(h, lv, root, k, x, k);
    RootEntry(h, lv, root, k, x);
    RightLevel(h, lv[k], x, i, left, bk, right, k);
    LeftLevel(h, lv[k], x, i, left, bk, right, k);
    NewRootLocal(h, h', k, left, right, w, bk);
    var top: Level := [Entry(ToNode(w), null)];
    ExpandOne(h', top[0]);
    assert Expand(h', top) == lv[k];
    NewRootTop(h', w, top, k, left, right, bk);
    forall j | 1 <= j < |lv|
      ensures LevelOK(h', lv[j], j) && (j >= 2 ==> Parents(h', lv[j])) && Expand(h', lv[j]) == lv[j - 1]
    {
      LinkedAt(h, lv, root, k, x, j);
      LinkedAt(h, lv, root, k, x, j - 1);
      LevelKept(h, h', k, lv[j], j);
      if j >= 2 { ParentsKept(h, h', k, lv[j], lv[j - 1], j); }
    }
    AddTop(h', lv, w, k, top);
  }

  lemma RootEntry(h: Heap, lv: seq<Level>, root: Node, k: nat, x: Level)
    requires Linked(h, lv, root, k, x) && k == |lv| - 1
    ensures x == [Entry(ToNode(root), null)] && root in h && h[root].parent == null && |lv| >= 2
  {
    assert Above(h, lv, root, k) == x;
  }

  lemma LeftLevel(h: Heap, y: Level, x: Level, i: nat, left: Node, bk: Key, right: Node, k: nat)
    requires LevelOK(h, y, k) && IsSplit(y, x, i, left, bk, right)
    ensures left in h && h[left].level == k
  {
    assert y[i] == Entry(ToNode(left), bk);
    assert NodeOK(h, y[i].p, k);
  }

  lemma NewRootLocal(h: Heap, h': Heap, k: nat, left: Node, right: Node, w: Node, bk: Key)
    requires w in h && h[w].level == 0 && left in h && right in h && left != right && k > 0
    requires h[left].level == k && h[right].level == k
    requires h' == h[w := NodeVal(false, [bk], [ToNode(left), ToNode(right)], Null, null, k + 1)]
                    [left := h[left].(parent := w)][right := h[right].(parent := w)]
    ensures Local(h, h', k)
    ensures h'[w] == NodeVal(false, [bk], [ToNode(left), ToNode(right)], Null, null, k + 1)
    ensures h'[left].parent == w && h'[right].parent == w
  {
  }

  lemma NewRootTop(h: Heap, w: Node, top: Level, k: nat, left: Node, right: Node, bk: Key)
    requires w in h && left in h && right in h && k > 0 && top == [Entry(ToNode(w), null)]
    requires h[w] == NodeVal(false, [bk], [ToNode(left), ToNode(right)], Null, null, k + 1)
    requires h[left].parent == w && h[right].parent == w
    ensures LevelOK(h, top, k + 1) && Parents(h, top)
  {
  }

  /** Stacking a root on top of a forest whose top level it describes. */
  lemma AddTop(h: Heap, lv: seq<Level>, w: Node, k: nat, top: Level)
    requires |lv| >= 2 && k == |lv| - 1 && top == [Entry(ToNode(w), null)]
    requires w in h && h[w].parent == null && LevelOK(h, top, k + 1) && Parents(h, top) && Expand(h, top) == lv[k]
    requires forall j :: 1 <= j < |lv| ==>
      LevelOK(h, lv[j], j) && (j >= 2 ==> Parents(h, lv[j])) && Expand(h, lv[j]) == lv[j - 1]
    ensures Linked(h, lv + [top], w, k + 1, top)
  {
    hide LevelOK, Parents, Expand;
    var lv' := lv + [top];
    forall j | 0 <= j < |lv'|
      ensures Above(h, lv', w, j) == lv'[j]
    {
      if j + 1 < |lv| { assert lv'[j + 1] == lv[j + 1]; }
    }
  }

  // ----- Leaves -----

  /** Changing the content first: the leaves still describe the old one. */
  lemma NewContent(h: Heap, lv: seq<Level>, root: Node, c: Level)
    requires Tree(h, lv, root)
    ensures Linked(h, lv[0 := c], root, 0, lv[0])
  {
    hide LevelOK, Parents, Expand;
    var lv' := lv[0 := c];
    forall j | 0 <= j < |lv'|
      ensures Above(h, lv', root, j) == if j == 0 then lv[0] else lv'[j]
    {
      assert Above(h, lv, root, j) == lv[j];
    }
  }

  /** Where content position at falls in leaf p. */
  lemma ContentAfterInsert(h: Heap, l: Level, p: nat, at: nat, c: Level, e: Entry)
    requires p < |l| && c == Expand(h, l) && at <= |V(h, l[p].p).ps|
    ensures |Expand(h, l[..p])| + at <= |c|
    ensures Insert(c, |Expand(h, l[..p])| + at, e)
         == Expand(h, l[..p]) + Splice(Row(V(h, l[p].p), l[p].s), at, 0, [e]) + Expand(h, l[p + 1..])
  {
    hide *;
    var a, r, b := Expand(h, l[..p]), Row(V(h, l[p].p), l[p].s), Expand(h, l[p + 1..]);
    ExpandAround(h, l, p);
    SpliceInside(a, r, b, at, 0, [e]);
    Middle(a, r, b);
    InsertIsSplice(c, |a| + at, e);
  }

  lemma InsertIsSplice<T>(c: seq<T>, d: nat, e: T)
    requires d <= |c|
    ensures Insert(c, d, e) == Splice(c, d, 0, [e])
  {
  }

  /** _insert_into_leaf */
  lemma LeafFits(h: Heap, h': Heap, lv: seq<Level>, root: Node, l: Level, p: nat, u: Node, at: nat, bk: Key, rec: Record)
    requires Tree(h, lv, root) && l == lv[1] && p < |l| && l[p].p == ToNode(u) && NodeOK(h, ToNode(u), 1)
    requires at <= |h[u].ks|
    requires h' == h[u := h[u].(ks := Insert(h[u].ks, at, bk), ps := Insert(h[u].ps, at, ToRecord(rec)))]
    ensures var c := |Expand(h, l[..p])| + at;
      c <= |lv[0]| && Linked(h', lv[0 := Insert(lv[0], c, Entry(ToRecord(rec), bk))], root, 1, l)
  {
    hide Linked, LevelOK, Parents, Expand, Touches, Replacement, Picks;
    LinkedAt(h, lv, root, 0, lv[0], 0);
    LinkedAt(h, lv, root, 0, lv[0], 1);
    var mid := [l[p]];
    var e := Entry(ToRecord(rec), bk);
    RowInsertLeaf(h[u], h'[u], l[p].s, at, bk, ToRecord(rec));
    ExpandOne(h', l[p]);
    ContentAfterInsert(h, l, p, at, lv[0], e);
    PicksOne(h, l, p, 1, u);
    LeafFitsReplacement(h, h', l, p, at, u, bk, rec);
    var c := Insert(lv[0], |Expand(h, l[..p])| + at, e);
    NewContent(h, lv, root, c);
    Rewrite(h, h', lv[0 := c], root, 0, lv[0], l, p, 1, mid, {u});
    assert Splice(l, p, 1, mid) == l;
    assert lv[0 := c][1 := l] == lv[0 := c];
  }

  lemma LeafFitsReplacement(h: Heap, h': Heap, l: Level, p: nat, at: nat, u: Node, bk: Key, rec: Record)
    requires LevelOK(h, l, 1) && p < |l| && l[p].p == ToNode(u) && NodeOK(h, ToNode(u), 1)
    requires at <= |h[u].ks|
    requires h' == h[u := h[u].(ks := Insert(h[u].ks, at, bk), ps := Insert(h[u].ps, at, ToRecord(rec)))]
    ensures Touches(h, h', 0, {u}) && Replacement(h, h', l, p, 1, [l[p]], 1, {u})
  {
  }

  /** _insert_into_leaf_after_splitting, before the parent is told. */
  lemma LeafSplits(h: Heap, h': Heap, lv: seq<Level>, root: Node, l: Level, p: nat, u: Node, w: Node, at: nat,
                   bk: Key, rec: Record, c: nat)
    requires Tree(h, lv, root) && l == lv[1] && p < |l| && l[p].p == ToNode(u) && NodeOK(h, ToNode(u), 1)
    requires at <= |h[u].ks| && 0 < c <= |h[u].ks| && w in h && h[w].level == 0
    requires var ks, ps := Insert(h[u].ks, at, bk), Insert(h[u].ps, at, ToRecord(rec));
      h' == h[u := h[u].(ks := ks[..c], ps := ps[..c], next := ToNode(w))]
             [w := NodeVal(true, ks[c..], ps[c..], h[u].next, h[u].parent, 1)]
    ensures var d := |Expand(h, l[..p])| + at;
      && d <= |lv[0]|
      && Linked(h', lv[0 := Insert(lv[0], d, Entry(ToRecord(rec), bk))]
                      [1 := Splice(l, p, 1, [Entry(ToNode(u), Insert(h[u].ks, at, bk)[c - 1]), Entry(ToNode(w), l[p].s)])],
                root, 1, l)
  {
    hide Linked, LevelOK, Parents, Expand, Touches, Replacement, Picks;
    LinkedAt(h, lv, root, 0, lv[0], 0);
    LinkedAt(h, lv, root, 0, lv[0], 1);
    var ks, ps := Insert(h[u].ks, at, bk), Insert(h[u].ps, at, ToRecord(rec));
    var mid := [Entry(ToNode(u), ks[c - 1]), Entry(ToNode(w), l[p].s)];
    var e := Entry(ToRecord(rec), bk);
    var f := h[u].(ks := ks, ps := ps);
    RowInsertLeaf(h[u], f, l[p].s, at, bk, ToRecord(rec));
    RowCutLeaf(f, h'[u], h'[w], l[p].s, ks[c - 1], c);
    ExpandTwo(h', mid[0], mid[1]);
    ContentAfterInsert(h, l, p, at, lv[0], e);
    PicksOne(h, l, p, 1, u);
    LeafSplitsReplacement(h, h', l, p, at, u, w, bk, rec, c, mid);
    var d := Insert(lv[0], |Expand(h, l[..p])| + at, e);
    NewContent(h, lv, root, d);
    Rewrite(h, h', lv[0 := d], root, 0, lv[0], l, p, 1, mid, {u});
  }

  lemma LeafSplitsReplacement(h: Heap, h': Heap, l: Level, p: nat, at: nat, u: Node, w: Node, bk: Key, rec: Record,
                              c: nat, mid: Level)
    requires LevelOK(h, l, 1) && p < |l| && l[p].p == ToNode(u) && NodeOK(h, ToNode(u), 1)
    requires at <= |h[u].ks| && 0 < c <= |h[u].ks| && w in h && h[w].level == 0
    requires var ks, ps := Insert(h[u].ks, at, bk), Insert(h[u].ps, at, ToRecord(rec));
      && h' == h[u := h[u].(ks := ks[..c], ps := ps[..c], next := ToNode(w))]
             [w := NodeVal(true, ks[c..], ps[c..], h[u].next, h[u].parent, 1)]
      && mid == [Entry(ToNode(u), ks[c - 1]), Entry(ToNode(w), l[p].s)]
    ensures Touches(h, h', 0, {u}) && Replacement(h, h', l, p, 1, mid, 1, {u})
  {
    assert null !in Insert(h[u].ks, at, bk);
  }
}
