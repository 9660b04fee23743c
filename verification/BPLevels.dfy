/** The shape of a B+ tree, seen level by level.

    Level 0 is the content: one entry per leaf slot. Level 1 lists the leaves from left to right, level 2 their
    parents, and so on up to the root. An entry pairs a pointer with its upper separator: the key object that
    stands to its right in the nearest enclosing node, or null at the right edge of the tree. Expanding every node
    of a level into its slots yields exactly the level below; this single relation says that the depth is uniform,
    that every node has one parent slot and that an internal key is the very separator of the subtree on its left. */
module BPLevels {
  import opened BPTypes

  datatype Entry = Entry(p: Ptr, s: Key?)
  type Level = seq<Entry>

  ghost const NoVal: NodeVal := NodeVal(false, [], [], Null, null, 0)

  ghost function V(h: Heap, p: Ptr): NodeVal {
    if p.ToNode? && p.node in h then h[p.node] else NoVal
  }

  /** The slots of a node whose own upper separator is `s`. */
  ghost function Row(v: NodeVal, s: Key?): (r: Level)
    ensures |r| == |v.ps|
  {
    seq(|v.ps|, i requires 0 <= i < |v.ps| => Entry(v.ps[i], if i < |v.ks| then v.ks[i] else s))
  }

  ghost function Expand(h: Heap, l: Level): Level {
    if l == [] then [] else Row(V(h, l[0].p), l[0].s) + Expand(h, l[1..])
  }

  /** Replace `n` entries at `i` by `mid`. */
  ghost function Splice<T>(l: seq<T>, i: nat, n: nat, mid: seq<T>): seq<T>
    requires i + n <= |l|
  {
    l[..i] + mid + l[i + n..]
  }

  // ----- Expand is a homomorphism -----

  lemma {:induction false} ExpandConcat(h: Heap, a: Level, b: Level)
    ensures Expand(h, a + b) == Expand(h, a) + Expand(h, b)
  {
    if a == [] {
      assert a + b == b;
    } else {
      assert (a + b)[1..] == a[1..] + b;
      ExpandConcat(h, a[1..], b);
    }
  }

  lemma ExpandOne(h: Heap, e: Entry)
    ensures Expand(h, [e]) == Row(V(h, e.p), e.s)
  {
    assert [e][1..] == [];
    assert Expand(h, [e][1..]) == [];
  }

  lemma ExpandTwo(h: Heap, e: Entry, f: Entry)
    ensures Expand(h, [e, f]) == Row(V(h, e.p), e.s) + Row(V(h, f.p), f.s)
  {
    assert [e, f] == [e] + [f];
    ExpandConcat(h, [e], [f]);
    ExpandOne(h, e);
    ExpandOne(h, f);
  }

  /** The slots of two heaps agree on a level. */
  ghost predicate SameRows(h: Heap, h': Heap, l: Level) {
    forall i :: 0 <= i < |l| ==> V(h, l[i].p).ks == V(h', l[i].p).ks && V(h, l[i].p).ps == V(h', l[i].p).ps
  }

  lemma {:induction false} ExpandFrame(h: Heap, h': Heap, l: Level)
    requires SameRows(h, h', l)
    ensures Expand(h, l) == Expand(h', l)
  {
    if l != [] {
      forall i | 0 <= i < |l[1..]|
        ensures V(h, l[1..][i].p).ks == V(h', l[1..][i].p).ks && V(h, l[1..][i].p).ps == V(h', l[1..][i].p).ps
      {
        assert l[1..][i] == l[i + 1];
      }
      ExpandFrame(h, h', l[1..]);
      assert Row(V(h, l[0].p), l[0].s) == Row(V(h', l[0].p), l[0].s);
    }
  }

  /** Splitting a level around position p. */
  lemma ExpandAt(h: Heap, l: Level, p: nat, n: nat)
    requires p + n <= |l|
    ensures Expand(h, l) == Expand(h, l[..p]) + Expand(h, l[p..p + n]) + Expand(h, l[p + n..])
  {
    assert l == l[..p] + (l[p..p + n] + l[p + n..]);
    ExpandConcat(h, l[..p], l[p..p + n] + l[p + n..]);
    ExpandConcat(h, l[p..p + n], l[p + n..]);
  }

  /** Where position x of the expansion comes from. */
  lemma {:induction false} Locate(h: Heap, l: Level, x: nat) returns (p: nat, j: nat)
    requires x < |Expand(h, l)|
    ensures p < |l| && j < |V(h, l[p].p).ps|
    ensures x == |Expand(h, l[..p])| + j
    ensures Expand(h, l)[x] == Row(V(h, l[p].p), l[p].s)[j]
  {
    var r := Row(V(h, l[0].p), l[0].s);
    if x < |r| {
      p, j := 0, x;
    } else {
      var q;
      q, j := Locate(h, l[1..], x - |r|);
      p := q + 1;
      assert l[..p] == [l[0]] + l[1..][..q];
      ExpandConcat(h, [l[0]], l[1..][..q]);
      ExpandOne(h, l[0]);
    }
  }

  /** Row j of position p lies at |Expand(l[..p])| + j. */
  lemma SlotAt(h: Heap, l: Level, p: nat, j: nat)
    requires p < |l| && j < |V(h, l[p].p).ps|
    ensures |Expand(h, l[..p])| + j < |Expand(h, l)|
    ensures Expand(h, l)[|Expand(h, l[..p])| + j] == Row(V(h, l[p].p), l[p].s)[j]
  {
    ExpandAt(h, l, p, 1);
    assert l[p..p + 1] == [l[p]];
    ExpandOne(h, l[p]);
  }

  /** Replacing n nodes of a level whose other rows keep their slots splices the level below. */
  lemma ExpandSplice(h: Heap, h': Heap, l: Level, p: nat, n: nat, mid: Level)
    requires p + n <= |l|
    requires SameRows(h, h', l[..p]) && SameRows(h, h', l[p + n..])
    ensures |Expand(h, l[..p])| + |Expand(h, l[p..p + n])| <= |Expand(h, l)|
    ensures Expand(h', Splice(l, p, n, mid))
         == Splice(Expand(h, l), |Expand(h, l[..p])|, |Expand(h, l[p..p + n])|, Expand(h', mid))
  {
    hide Expand, SameRows;
    ExpandAt(h, l, p, n);
    ExpandFrame(h, h', l[..p]);
    ExpandFrame(h, h', l[p + n..]);
    ExpandConcat(h', l[..p] + mid, l[p + n..]);
    ExpandConcat(h', l[..p], mid);
    SpliceParts(Expand(h, l[..p]), Expand(h, l[p..p + n]), Expand(h, l[p + n..]), Expand(h', mid));
  }

  lemma SpliceParts<T>(a: seq<T>, b: seq<T>, c: seq<T>, mid: seq<T>)
    ensures Splice(a + b + c, |a|, |b|, mid) == a + mid + c
  {
  }

  // ----- Well-formed levels -----

  ghost predicate NodeOK(h: Heap, p: Ptr, k: nat) {
    && p.ToNode? && p.node in h
    && var v := h[p.node];
       && v.level == k && v.leaf == (k == 1)
       && |v.ps| == |v.ks| + (if k == 1 then 0 else 1)
       && null !in v.ks
  }

  ghost predicate LevelOK(h: Heap, l: Level, k: nat) {
    && |l| > 0
    && (forall i :: 0 <= i < |l| ==> NodeOK(h, l[i].p, k))
    && (forall i, j :: 0 <= i < j < |l| ==> l[i].p != l[j].p)
    && (forall i :: 0 <= i < |l| ==> (l[i].s == null <==> i == |l| - 1))
  }

  /** The children of a level point back at it. */
  ghost predicate Parents(h: Heap, l: Level) {
    forall i, j :: 0 <= i < |l| && 0 <= j < |V(h, l[i].p).ps| ==> V(h, V(h, l[i].p).ps[j]).parent == PNode(l[i].p)
  }

  ghost function PNode(p: Ptr): Node? {
    if p.ToNode? then p.node else null
  }

  /** What level j must be for the level above it to be right. */
  ghost function Above(h: Heap, lv: seq<Level>, root: Node, j: nat): Level {
    if j + 1 < |lv| then Expand(h, lv[j + 1]) else [Entry(ToNode(root), null)]
  }

  ghost predicate LevelsOK(h: Heap, lv: seq<Level>) {
    forall j :: 1 <= j < |lv| ==> LevelOK(h, lv[j], j)
  }

  ghost predicate Family(h: Heap, lv: seq<Level>) {
    forall j :: 2 <= j < |lv| ==> Parents(h, lv[j])
  }

  /** Every level describes the one below it, except that level k + 1 still describes `x` instead of lv[k]. */
  ghost predicate Stacked(h: Heap, lv: seq<Level>, root: Node, k: nat, x: Level) {
    forall j :: 0 <= j < |lv| ==> Above(h, lv, root, j) == if j == k then x else lv[j]
  }

  /** The levels form a tree, except that the nodes above level k still describe `x` instead of lv[k]. */
  ghost predicate Linked(h: Heap, lv: seq<Level>, root: Node, k: nat, x: Level) {
    && |lv| >= 2 && k < |lv|
    && LevelsOK(h, lv) && Family(h, lv) && Stacked(h, lv, root, k, x)
    && root in h && h[root].parent == null
  }

  /** All levels are linked. */
  ghost predicate Tree(h: Heap, lv: seq<Level>, root: Node) {
    |lv| >= 2 && Linked(h, lv, root, 0, lv[0])
  }

  /** h' differs from h only in the rows of level k + 1 and in the parent links of level k. */
  ghost predicate Local(h: Heap, h': Heap, k: nat) {
    forall n :: n in h && h[n].level > 0 ==>
      && n in h' && h'[n].level == h[n].level
      && (h[n].level != k + 1 ==> h'[n] == h[n].(parent := h'[n].parent))
      && (h[n].level != k ==> h'[n].parent == h[n].parent)
  }

  lemma LevelKept(h: Heap, h': Heap, k: nat, l: Level, j: nat)
    requires LevelOK(h, l, j) && Local(h, h', k)
    requires 1 <= j != k + 1
    ensures LevelOK(h', l, j) && SameRows(h, h', l) && Expand(h', l) == Expand(h, l)
  {
    forall i | 0 <= i < |l|
      ensures NodeOK(h', l[i].p, j)
      ensures V(h, l[i].p).ks == V(h', l[i].p).ks && V(h, l[i].p).ps == V(h', l[i].p).ps
    {
      assert NodeOK(h, l[i].p, j);
    }
    ExpandFrame(h, h', l);
  }

  /** Child links of level j survive a local change elsewhere. */
  lemma ParentsKept(h: Heap, h': Heap, k: nat, l: Level, below: Level, j: nat)
    requires 2 <= j != k + 1
    requires LevelOK(h, l, j) && LevelOK(h, below, j - 1) && Parents(h, l) && Local(h, h', k)
    requires Expand(h, l) == below
    ensures Parents(h', l)
  {
    LevelKept(h, h', k, l, j);
    forall i, m | 0 <= i < |l| && 0 <= m < |V(h', l[i].p).ps|
      ensures V(h', V(h', l[i].p).ps[m]).parent == PNode(l[i].p)
    {
      var c := V(h, l[i].p).ps[m];
      assert V(h, c).parent == PNode(l[i].p);
      SlotAt(h, l, i, m);
      assert NodeOK(h, c, j - 1);
    }
  }

  lemma RootLevel(h: Heap, lv: seq<Level>, root: Node, k: nat, x: Level)
    requires LevelsOK(h, lv) && Stacked(h, lv, root, k, x) && k < |lv| - 1
    ensures lv[|lv| - 1] == [Entry(ToNode(root), null)] && V(h, ToNode(root)).level == |lv| - 1
  {
    assert Above(h, lv, root, |lv| - 1) == lv[|lv| - 1];
    assert LevelOK(h, lv[|lv| - 1], |lv| - 1);
    assert NodeOK(h, lv[|lv| - 1][0].p, |lv| - 1);
  }

  lemma StepLevels(h: Heap, h': Heap, lv: seq<Level>, k: nat, l: Level)
    requires LevelsOK(h, lv) && k + 1 < |lv| && Local(h, h', k) && LevelOK(h', l, k + 1)
    ensures LevelsOK(h', lv[k + 1 := l])
  {
    forall j | 1 <= j < |lv| && j != k + 1
      ensures LevelOK(h', lv[j], j)
    {
      LevelKept(h, h', k, lv[j], j);
    }
  }

  lemma StepFamily(h: Heap, h': Heap, lv: seq<Level>, root: Node, k: nat, x: Level, l: Level)
    requires Linked(h, lv, root, k, x) && k + 1 < |lv| && Local(h, h', k) && (k > 0 ==> Parents(h', l))
    ensures Family(h', lv[k + 1 := l])
  {
    forall j | 2 <= j < |lv| && j != k + 1
      ensures Parents(h', lv[j])
    {
      assert LevelOK(h, lv[j], j) && LevelOK(h, lv[j - 1], j - 1) && Parents(h, lv[j]);
      assert Above(h, lv, root, j - 1) == lv[j - 1];
      ParentsKept(h, h', k, lv[j], lv[j - 1], j);
    }
  }

  lemma StepAbove(h: Heap, h': Heap, lv: seq<Level>, lv': seq<Level>, root: Node, k: nat, l: Level, j: nat)
    requires k + 1 < |lv| && lv' == lv[k + 1 := l] && j < |lv| && j != k
    requires j + 1 < |lv| ==> LevelOK(h, lv[j + 1], j + 1)
    requires Local(h, h', k)
    ensures Above(h', lv', root, j) == Above(h, lv, root, j)
  {
    if j + 1 < |lv| {
      LevelKept(h, h', k, lv[j + 1], j + 1);
    }
  }

  lemma StepStacked(h: Heap, h': Heap, lv: seq<Level>, root: Node, k: nat, x: Level, l: Level)
    requires LevelsOK(h, lv) && Stacked(h, lv, root, k, x) && k + 1 < |lv| && Local(h, h', k)
    requires Expand(h', l) == lv[k]
    ensures Stacked(h', lv[k + 1 := l], root, k + 1, lv[k + 1])
  {
    var lv' := lv[k + 1 := l];
    forall j | 0 <= j < |lv'|
      ensures Above(h', lv', root, j) == if j == k + 1 then lv[k + 1] else lv'[j]
    {
      if j != k {
        assert Above(h, lv, root, j) == lv[j];
        StepAbove(h, h', lv, lv', root, k, l, j);
      }
    }
  }

  /** One repair step: level k + 1 is rewritten to describe lv[k]; the mismatch moves one level up. */
  lemma Step(h: Heap, h': Heap, lv: seq<Level>, root: Node, k: nat, x: Level, l: Level)
    requires Linked(h, lv, root, k, x) && k + 1 < |lv|
    requires Local(h, h', k)
    requires LevelOK(h', l, k + 1) && (k > 0 ==> Parents(h', l))
    requires Expand(h', l) == lv[k]
    ensures Linked(h', lv[k + 1 := l], root, k + 1, lv[k + 1])
  {
    StepLevels(h, h', lv, k, l);
    StepFamily(h, h', lv, root, k, x, l);
    StepStacked(h, h', lv, root, k, x, l);
    RootLevel(h, lv, root, k, x);
  }
}
