/** Redistribution: two siblings share out their entries anew and the key between them changes. */
module BPBalance {
  import opened BPTypes
  import opened BPLevels
  import opened BPSteps
  import opened BPInsertSteps
  import opened BPTree
  import opened BPInsert
  import opened BPFind
  import opened BPLeafSteps
  import opened BPFix
  import opened BPDelLeaf
  import opened BPMerge
  import opened BPMergeSteps

  ghost function BalancedMid(l: Level, q: nat, a: Node, b: Node, sep: Key): Level
    requires q + 1 < |l|
  {
    [Entry(ToNode(a), sep), Entry(ToNode(b), l[q + 1].s)]
  }

  ghost function BalancedLevels(lv: seq<Level>, k: nat, q: nat, a: Node, b: Node, sep: Key): seq<Level>
    requires k < |lv| && q + 1 < |lv[k]|
  {
    lv[k := Splice(lv[k], q, 2, BalancedMid(lv[k], q, a, b, sep))]
  }

  /** What the exchange of entries between the siblings has to provide. */
  ghost predicate Exchanged(h: Heap, h1: Heap, lv: seq<Level>, order: nat, keys: set<Key>, k: nat, q: nat, a: Node, b: Node,
                            sep: Key) {
    && 1 <= k < |lv| && q + 1 < |lv[k]|
    && Touches(h, h1, k - 1, {a, b}) && h1.Keys == h.Keys
    && NodeOK(h1, ToNode(a), k) && NodeOK(h1, ToNode(b), k)
    && Expand(h1, BalancedMid(lv[k], q, a, b, sep)) == Row(V(h, ToNode(a)), lv[k][q].s) + Row(V(h, ToNode(b)), lv[k][q + 1].s)
    && (k >= 2 ==> Parents(h1, BalancedMid(lv[k], q, a, b, sep)))
    && KeysKnown(h1, keys) && sep in keys
    && order >= 4 && |h1[a].ks| >= MinKeys(order, h1[a].leaf) && |h1[b].ks| >= MinKeys(order, h1[b].leaf)
    && forall m :: m in h && h[m].level == 0 ==> h1[m].level == 0
  }

  ghost function NewKey(h: Heap, u: Node, j: nat, sep: Key): Heap
    requires u in h && j < |h[u].ks|
  {
    h[u := h[u].(ks := h[u].ks[j := sep])]
  }

  lemma ParentUntouched(h: Heap, h1: Heap, k: nat, u: Node, a: Node, b: Node, ps: seq<Ptr>)
    requires k >= 1 && Touches(h, h1, k - 1, {a, b}) && NodeOK(h, ToNode(u), k + 1) && h[u].ps == ps && Kids(h, ps, u, k)
    requires a in h && b in h && h[a].level == k && h[b].level == k
    ensures u in h1 && h1[u] == h[u] && NodeOK(h1, ToNode(u), k + 1) && Kids(h1, ps, u, k)
  {
  }

  lemma RowSetKey(v: NodeVal, s: Key?, j: nat, sep: Key)
    requires |v.ps| == |v.ks| + 1 && j < |v.ks|
    ensures Row(v.(ks := v.ks[j := sep]), s) == Splice(Row(v, s), j, 2, [Entry(v.ps[j], sep), Row(v, s)[j + 1]])
  {
  }

  lemma BalanceReplacement(h: Heap, h1: Heap, l: Level, k: nat, q: nat, a: Node, b: Node, sep: Key)
    requires q + 1 < |l| && a != b && NodeOK(h1, ToNode(a), k) && NodeOK(h1, ToNode(b), k)
    ensures Replacement(h, h1, l, q, 2, BalancedMid(l, q, a, b, sep), k, {a, b})
  {
  }

  lemma BalanceTree(h: Heap, h1: Heap, lv: seq<Level>, root: Node?, order: nat, keys: set<Key>, k: nat, q: nat, p: nat, j: nat,
                    u: Node, a: Node, b: Node, bk: Key, n: Node, sep: Key)
    requires Pair(h, lv, root, order, keys, k, q, p, j, u, a, b, bk, n)
    requires Exchanged(h, h1, lv, order, keys, k, q, a, b, sep)
    ensures u in h1 && h1[u] == h[u] && Tree(NewKey(h1, u, j, sep), BalancedLevels(lv, k, q, a, b, sep), root)
  {
    hide Linked, LevelOK, Parents, Expand, Slack, KeysKnown, Covered, Leaves, ContentOK, Touches, Replacement, Row;
    var l, x, mid := lv[k + 1], lv[k], BalancedMid(lv[k], q, a, b, sep);
    var lv' := BalancedLevels(lv, k, q, a, b, sep);
    LinkedAt(h, lv, root, 0, lv[0], k);
    LinkedAt(h, lv, root, 0, lv[0], k + 1);
    LevelIsAll(h, x, k);
    ChildLevels(h, l, k);
    KidsOf(h, l, k, p, u);
    ParentUntouched(h, h1, k, u, a, b, h[u].ps);
    BalanceReplacement(h, h1, x, k, q, a, b, sep);
    RewriteTwo(h, h1, lv, root, k, q, a, b, mid);
    LinkedAt(h1, lv', root, k, x, k);
    LinkedAt(h1, lv', root, k, x, k + 1);
    AboveSame(h, h1, l, k + 1, p) by { KeptAbove(h, h1, k, a, b); }
    RowsAfter(h1, l, p, j, x, 2, mid);
    RowSetKey(h1[u], l[p].s, j, sep);
    assert x[|Expand(h1, l[..p])| + (j + 1)] == Row(h1[u], l[p].s)[j + 1];
    LevelsKept(h, h1, x, k, a, b);
    FixParent(h1, NewKey(h1, u, j, sep), lv', root, k, x, l, p, u, h1[u].ks[j := sep], h1[u].ps);
  }

  lemma KeptAbove(h: Heap, h1: Heap, k: nat, a: Node, b: Node)
    requires k >= 1 && Touches(h, h1, k - 1, {a, b}) && a in h && b in h && h[a].level == k && h[b].level == k
    ensures forall m :: m in h && h[m].level == k + 1 ==> m in h1 && h1[m].ks == h[m].ks && h1[m].ps == h[m].ps
  {
  }

  lemma BalanceLoose(h: Heap, h1: Heap, lv: seq<Level>, root: Node?, order: nat, keys: set<Key>, k: nat, q: nat, p: nat, j: nat,
                     u: Node, a: Node, b: Node, bk: Key, n: Node, sep: Key)
    requires Pair(h, lv, root, order, keys, k, q, p, j, u, a, b, bk, n)
    requires Exchanged(h, h1, lv, order, keys, k, q, a, b, sep)
    requires |lv| >= 2 && Leaves(h1, BalancedLevels(lv, k, q, a, b, sep)[1])
    ensures u in h1 && h1[u] == h[u] && Loose(NewKey(h1, u, j, sep), BalancedLevels(lv, k, q, a, b, sep), root, order, keys, null)
  {
    hide Linked, LevelOK, Parents, Expand, Slack, KeysKnown, Covered, Leaves, ContentOK, Touches, Replacement, Row;
    var lv' := BalancedLevels(lv, k, q, a, b, sep);
    BalanceTree(h, h1, lv, root, order, keys, k, q, p, j, u, a, b, bk, n, sep);
    var h' := NewKey(h1, u, j, sep);
    LeafLevelOK(h', lv', root);
    forall i | 0 <= i < |lv'[1]| ensures V(h', lv'[1][i].p).ks == V(h1, lv'[1][i].p).ks && V(h', lv'[1][i].p).next == V(h1, lv'[1][i].p).next {
      NodeAt(h', lv'[1], i, 1);
    }
    LeavesSame(h1, h', lv'[1]);
    NewKeyKnown(h1, keys, u, j, sep);
    BalanceSlack(h, h1, order, root, k, u, a, b, n, j, sep);
    BalanceCovered(h, h1, lv, k, q, u, a, b, j, sep);
  }

  lemma NewKeyKnown(h: Heap, keys: set<Key>, u: Node, j: nat, sep: Key)
    requires KeysKnown(h, keys) && u in h && j < |h[u].ks| && sep in keys
    ensures KeysKnown(NewKey(h, u, j, sep), keys)
  {
    var h' := NewKey(h, u, j, sep);
    forall n, i | n in h' && h'[n].level > 0 && 0 <= i < |h'[n].ks| ensures h'[n].ks[i] != null && h'[n].ks[i] in keys {
      assert h'[n].ks[i] == sep || h'[n].ks[i] == h[n].ks[i];
    }
  }

  lemma BalanceSlack(h: Heap, h1: Heap, order: nat, root: Node?, k: nat, u: Node, a: Node, b: Node, n: Node, j: nat, sep: Key)
    requires Slack(h, order, root, n) && (n == a || n == b) && k >= 1 && Touches(h, h1, k - 1, {a, b}) && h1.Keys == h.Keys
    requires u in h1 && j < |h1[u].ks| && a in h1 && b in h1
    requires |h1[a].ks| >= MinKeys(order, h1[a].leaf) && |h1[b].ks| >= MinKeys(order, h1[b].leaf)
    requires forall m :: m in h && h[m].level == 0 ==> h1[m].level == 0
    ensures Slack(NewKey(h1, u, j, sep), order, root, null)
  {
    var h' := NewKey(h1, u, j, sep);
    forall m | m in h' && h'[m].level > 0 ensures |h'[m].ks| >= if m == root then 1 else MinKeys(order, h'[m].leaf) {
      assert |h'[m].ks| == |h1[m].ks| && h'[m].leaf == h1[m].leaf;
      if m != a && m != b { assert h1[m] == h[m].(parent := h1[m].parent); }
    }
  }

  lemma BalanceCovered(h: Heap, h1: Heap, lv: seq<Level>, k: nat, q: nat, u: Node, a: Node, b: Node, j: nat, sep: Key)
    requires Covered(h, lv) && 1 <= k < |lv| && q + 1 < |lv[k]| && lv[k][q].p == ToNode(a) && lv[k][q + 1].p == ToNode(b)
    requires Touches(h, h1, k - 1, {a, b}) && h1.Keys == h.Keys && u in h1 && j < |h1[u].ks|
    requires forall m :: m in h && h[m].level == 0 ==> h1[m].level == 0
    ensures Covered(NewKey(h1, u, j, sep), BalancedLevels(lv, k, q, a, b, sep))
  {
    hide PtrsOf;
    var h', lv' := NewKey(h1, u, j, sep), BalancedLevels(lv, k, q, a, b, sep);
    forall n | n in h' && h'[n].level > 0 ensures h'[n].level < |lv'| && ToNode(n) in PtrsOf(lv'[h'[n].level]) {
      assert h'[n].level == h[n].level;
      if h[n].level == k {
        SamePtrs(lv[k], lv'[k]) by {
          assert forall i :: 0 <= i < |lv[k]| ==> lv'[k][i].p == lv[k][i].p;
        }
      }
    }
  }

  lemma SamePtrs(l: Level, l': Level)
    requires |l| == |l'| && forall i :: 0 <= i < |l| ==> l'[i].p == l[i].p
    ensures PtrsOf(l) <= PtrsOf(l')
  {
    forall x | x in PtrsOf(l) ensures x in PtrsOf(l') {
      var e :| e in l && e.p == x;
      var i :| 0 <= i < |l| && l[i] == e;
      assert l'[i] in l';
    }
  }

  // ----- Leaves -----

  /** The leaves a and b, with their joint entries cut at m. */
  ghost function LeafShare(h: Heap, a: Node, b: Node, m: nat): Heap
    requires a in h && b in h && m <= |h[a].ks| + |h[b].ks| && m <= |h[a].ps| + |h[b].ps|
  {
    var ks, ps := h[a].ks + h[b].ks, h[a].ps + h[b].ps;
    h[a := h[a].(ks := ks[..m], ps := ps[..m])][b := h[b].(ks := ks[m..], ps := ps[m..])]
  }

  lemma LeafShareKeys(h: Heap, keys: set<Key>, a: Node, b: Node, m: nat)
    requires KeysKnown(h, keys) && NodeOK(h, ToNode(a), 1) && NodeOK(h, ToNode(b), 1) && a != b
    requires 0 < m < |h[a].ks| + |h[b].ks|
    ensures KeysKnown(LeafShare(h, a, b, m), keys)
    ensures (h[a].ks + h[b].ks)[m - 1] != null && (h[a].ks + h[b].ks)[m - 1] in keys
    ensures NodeOK(LeafShare(h, a, b, m), ToNode(a), 1) && NodeOK(LeafShare(h, a, b, m), ToNode(b), 1)
  {
    var ks, h' := h[a].ks + h[b].ks, LeafShare(h, a, b, m);
    forall i | 0 <= i < |ks| ensures ks[i] != null && ks[i] in keys {
      assert ks[i] == if i < |h[a].ks| then h[a].ks[i] else h[b].ks[i - |h[a].ks|];
    }
    forall n, i | n in h' && h'[n].level > 0 && 0 <= i < |h'[n].ks| ensures h'[n].ks[i] != null && h'[n].ks[i] in keys {
      if n == a { assert h'[a].ks[i] == ks[i]; }
      else if n == b { assert h'[b].ks[i] == ks[m + i]; }
      else { assert h'[n].ks[i] == h[n].ks[i]; }
    }
  }

  lemma LeafShareRows(h: Heap, l: Level, q: nat, a: Node, b: Node, m: nat, sep: Key)
    requires q + 1 < |l| && l[q].p == ToNode(a) && l[q + 1].p == ToNode(b) && a != b
    requires NodeOK(h, ToNode(a), 1) && NodeOK(h, ToNode(b), 1) && m <= |h[a].ks| + |h[b].ks|
    ensures Expand(LeafShare(h, a, b, m), BalancedMid(l, q, a, b, sep))
         == Row(V(h, ToNode(a)), l[q].s) + Row(V(h, ToNode(b)), l[q + 1].s)
  {
    var h', mid := LeafShare(h, a, b, m), BalancedMid(l, q, a, b, sep);
    ExpandTwo(h', mid[0], mid[1]);
    var f := h[a].(ks := h[a].ks + h[b].ks, ps := h[a].ps + h[b].ps);
    RowCutLeaf(f, h[a], h[b], l[q + 1].s, l[q].s, |h[a].ks|);
    RowCutLeaf(f, h'[a], h'[b], l[q + 1].s, sep, m);
  }

  lemma LeafShareTouches(h: Heap, a: Node, b: Node, m: nat)
    requires a != b && NodeOK(h, ToNode(a), 1) && NodeOK(h, ToNode(b), 1) && m <= |h[a].ks| + |h[b].ks|
    ensures Touches(h, LeafShare(h, a, b, m), 0, {a, b})
  {
  }

  lemma LeafShareLeaves(h: Heap, l: Level, q: nat, a: Node, b: Node, m: nat)
    requires Leaves(h, l) && LevelOK(h, l, 1) && q + 1 < |l| && l[q].p == ToNode(a) && l[q + 1].p == ToNode(b) && a in h && b in h
    requires a != b && NodeOK(h, ToNode(a), 1) && NodeOK(h, ToNode(b), 1)
    requires 0 < m < |h[a].ks| + |h[b].ks| && (h[a].ks + h[b].ks)[m - 1] != null && |h[b].ks| > 0
    ensures Leaves(LeafShare(h, a, b, m), Splice(l, q, 2, BalancedMid(l, q, a, b, (h[a].ks + h[b].ks)[m - 1])))
  {
    hide LevelOK;
    LevelDistinct(h, l, 1);
    var ks := h[a].ks + h[b].ks;
    var h', l' := LeafShare(h, a, b, m), Splice(l, q, 2, BalancedMid(l, q, a, b, ks[m - 1]));
    forall i | 0 <= i < |l'| ensures LeafOK(h', l', i) {
      LeafShareOK(h, l, q, a, b, m, i);
    }
    LeavesIntro(h', l');
  }

  lemma LeafShareOK(h: Heap, l: Level, q: nat, a: Node, b: Node, m: nat, i: nat)
    requires Leaves(h, l) && q + 1 < |l| && l[q].p == ToNode(a) && l[q + 1].p == ToNode(b) && a in h && b in h
    requires forall x, y :: 0 <= x < y < |l| ==> l[x].p != l[y].p
    requires |h[a].ks| == |h[a].ps| && |h[b].ks| == |h[b].ps| && i < |l|
    requires 0 < m < |h[a].ks| + |h[b].ks| && (h[a].ks + h[b].ks)[m - 1] != null && |h[b].ks| > 0
    ensures LeafOK(LeafShare(h, a, b, m), Splice(l, q, 2, BalancedMid(l, q, a, b, (h[a].ks + h[b].ks)[m - 1])), i)
  {
    hide LeafShare, Splice, LeafSeps, Chain;
    var sep := (h[a].ks + h[b].ks)[m - 1];
    var l' := Splice(l, q, 2, BalancedMid(l, q, a, b, sep));
    ShareEntries(l, q, a, b, sep, i);
    LeafShareVals(h, a, b, m);
    if i == q {
      assert l'[i] == Entry(ToNode(a), sep);
    } else if i == q + 1 {
      assert l'[i] == Entry(ToNode(b), l[q + 1].s);
    } else {
      assert l'[i] == l[i] && l[i].p != l[q].p && l[i].p != l[q + 1].p;
      LeafShareOther(h, a, b, m, l[i].p);
    }
    LeafOf(h, l, i);
  }

  lemma ShareEntries(l: Level, q: nat, a: Node, b: Node, sep: Key, i: nat)
    requires q + 1 < |l| && l[q].p == ToNode(a) && l[q + 1].p == ToNode(b) && i < |l|
    ensures var l' := Splice(l, q, 2, BalancedMid(l, q, a, b, sep));
      && |l'| == |l| && NextPtr(l', i) == NextPtr(l, i)
      && l'[i] == if i == q then Entry(ToNode(a), sep) else if i == q + 1 then Entry(ToNode(b), l[q + 1].s) else l[i]
  {
  }

  lemma LeafShareVals(h: Heap, a: Node, b: Node, m: nat)
    requires a in h && b in h && a != b && |h[a].ks| == |h[a].ps| && |h[b].ks| == |h[b].ps| && |h[b].ks| > 0
    requires 0 < m < |h[a].ks| + |h[b].ks|
    ensures var h' := LeafShare(h, a, b, m);
      && a in h' && b in h' && h'[a].next == h[a].next && h'[b].next == h[b].next
      && |h'[a].ks| > 0 && h'[a].ks[|h'[a].ks| - 1] == (h[a].ks + h[b].ks)[m - 1]
      && |h'[b].ks| > 0 && h'[b].ks[|h'[b].ks| - 1] == h[b].ks[|h[b].ks| - 1]
  {
  }

  lemma LeafShareOther(h: Heap, a: Node, b: Node, m: nat, x: Ptr)
    requires a in h && b in h && m <= |h[a].ks| + |h[b].ks| && m <= |h[a].ps| + |h[b].ps|
    requires x != ToNode(a) && x != ToNode(b)
    ensures V(LeafShare(h, a, b, m), x) == V(h, x)
  {
  }

  lemma BalanceLeaf(h: Heap, lv: seq<Level>, root: Node?, order: nat, keys: set<Key>, q: nat, p: nat, j: nat, u: Node,
                    a: Node, b: Node, bk: Key, n: Node, m: nat)
    requires Pair(h, lv, root, order, keys, 1, q, p, j, u, a, b, bk, n)
    requires order >= 4 && MinKeys(order, true) <= m && m + MinKeys(order, true) <= |h[a].ks| + |h[b].ks| && |h[b].ks| > 0
    ensures 0 < m < |h[a].ks| + |h[b].ks| && |h[a].ks| == |h[a].ps| && |h[b].ks| == |h[b].ps|
    ensures (h[a].ks + h[b].ks)[m - 1] != null && (h[a].ks + h[b].ks)[m - 1] in keys
    ensures var h1, sep := LeafShare(h, a, b, m), (h[a].ks + h[b].ks)[m - 1];
      u in h1 && h1[u] == h[u] && Loose(NewKey(h1, u, j, sep), BalancedLevels(lv, 1, q, a, b, sep), root, order, keys, null)
  {
    hide Linked, LevelOK, Parents, Expand, Slack, KeysKnown, Covered, Leaves, ContentOK, Touches, Replacement, Row;
    LinkedAt(h, lv, root, 0, lv[0], 1);
    LeafShareKeys(h, keys, a, b, m);
    var h1, sep, l := LeafShare(h, a, b, m), (h[a].ks + h[b].ks)[m - 1], lv[1];
    LeafShareRows(h, l, q, a, b, m, sep);
    LeafShareTouches(h, a, b, m);
    LeafShareLeaves(h, l, q, a, b, m);
    BalanceLoose(h, h1, lv, root, order, keys, 1, q, p, j, u, a, b, bk, n, sep);
  }

  // ----- Internal nodes -----

  /** a and b have shared out their keys, with bk between them, and children anew: key c goes up. */
  ghost predicate InnerShared(h: Heap, h1: Heap, k: nat, a: Node, b: Node, bk: Key, c: nat) {
    && a in h && b in h && a != b && h1.Keys == h.Keys && k >= 1
    && |h[a].ps| == |h[a].ks| + 1 && |h[b].ps| == |h[b].ks| + 1
    && (forall n :: n in h && n != a && n != b ==> h1[n] == h[n].(parent := h1[n].parent))
    && (forall n :: n in h && h1[n].parent != h[n].parent ==> h[n].level == k - 1 && h[n].level > 0 && h[n].parent in {a, b})
    && (forall m :: 0 <= m < |h1[a].ps| ==> V(h1, h1[a].ps[m]).parent == a)
    && (forall m :: 0 <= m < |h1[b].ps| ==> V(h1, h1[b].ps[m]).parent == b)
    && var ks, ps := h[a].ks + [bk] + h[b].ks, h[a].ps + h[b].ps;
    c < |ks| && h1[a] == h[a].(ks := ks[..c], ps := ps[..c + 1]) && h1[b] == h[b].(ks := ks[c + 1..], ps := ps[c + 1..])
  }

  lemma InnerShareKeys(h: Heap, h1: Heap, keys: set<Key>, k: nat, a: Node, b: Node, bk: Key, c: nat)
    requires KeysKnown(h, keys) && NodeOK(h, ToNode(a), k) && NodeOK(h, ToNode(b), k) && k >= 2 && bk in keys
    requires InnerShared(h, h1, k, a, b, bk, c)
    ensures KeysKnown(h1, keys)
    ensures (h[a].ks + [bk] + h[b].ks)[c] != null && (h[a].ks + [bk] + h[b].ks)[c] in keys
    ensures NodeOK(h1, ToNode(a), k) && NodeOK(h1, ToNode(b), k)
  {
    var ks, x := h[a].ks + [bk] + h[b].ks, |h[a].ks|;
    forall i | 0 <= i < |ks| ensures ks[i] != null && ks[i] in keys {
      assert ks[i] == if i < x then h[a].ks[i] else if i == x then bk else h[b].ks[i - x - 1];
    }
    forall n, i | n in h1 && h1[n].level > 0 && 0 <= i < |h1[n].ks| ensures h1[n].ks[i] != null && h1[n].ks[i] in keys {
      if n == a { assert h1[a].ks[i] == ks[i]; }
      else if n == b { assert h1[b].ks[i] == ks[c + 1 + i]; }
      else { assert h1[n].ks[i] == h[n].ks[i]; }
    }
  }

  lemma InnerShareRows(h: Heap, h1: Heap, l: Level, k: nat, q: nat, a: Node, b: Node, bk: Key, c: nat, sep: Key)
    requires q + 1 < |l| && l[q] == Entry(ToNode(a), bk) && l[q + 1].p == ToNode(b)
    requires InnerShared(h, h1, k, a, b, bk, c) && sep == (h[a].ks + [bk] + h[b].ks)[c]
    ensures Expand(h1, BalancedMid(l, q, a, b, sep)) == Row(V(h, ToNode(a)), l[q].s) + Row(V(h, ToNode(b)), l[q + 1].s)
  {
    var mid := BalancedMid(l, q, a, b, sep);
    ExpandTwo(h1, mid[0], mid[1]);
    var f := h[a].(ks := h[a].ks + [bk] + h[b].ks, ps := h[a].ps + h[b].ps);
    RowCutInner(f, h[a], h[b], l[q + 1].s, |h[a].ks|);
    RowCutInner(f, h1[a], h1[b], l[q + 1].s, c);
  }

  lemma InnerShareTouches(h: Heap, h1: Heap, l: Level, k: nat, q: nat, a: Node, b: Node, bk: Key, c: nat, sep: Key)
    requires q + 1 < |l| && InnerShared(h, h1, k, a, b, bk, c) && NodeOK(h, ToNode(a), k) && NodeOK(h, ToNode(b), k) && k >= 2
    ensures Touches(h, h1, k - 1, {a, b}) && Parents(h1, BalancedMid(l, q, a, b, sep))
    ensures forall m :: m in h && h[m].level == 0 ==> h1[m].level == 0
    ensures forall m :: m in h && h[m].level == 1 ==> m in h1 && h1[m] == h[m].(parent := h1[m].parent)
  {
    ParentsTwo(h1, BalancedMid(l, q, a, b, sep));
  }

  lemma BalanceInner(h: Heap, h1: Heap, lv: seq<Level>, root: Node?, order: nat, keys: set<Key>, k: nat, q: nat, p: nat, j: nat,
                     u: Node, a: Node, b: Node, bk: Key, n: Node, c: nat)
    requires Pair(h, lv, root, order, keys, k, q, p, j, u, a, b, bk, n) && k >= 2
    requires InnerShared(h, h1, k, a, b, bk, c)
    requires order >= 4 && MinKeys(order, false) <= c && c + 1 + MinKeys(order, false) <= |h[a].ks| + 1 + |h[b].ks|
    ensures (h[a].ks + [bk] + h[b].ks)[c] != null && (h[a].ks + [bk] + h[b].ks)[c] in keys
    ensures var sep := (h[a].ks + [bk] + h[b].ks)[c];
      && u in h1 && h1[u] == h[u]
      && Loose(NewKey(h1, u, j, sep), BalancedLevels(lv, k, q, a, b, sep), root, order, keys, null)
  {
    hide Linked, LevelOK, Parents, Expand, Slack, KeysKnown, Covered, Leaves, ContentOK, Touches, Replacement, Row;
    LinkedAt(h, lv, root, 0, lv[0], 1);
    SiblingKey(h, keys, lv[k + 1], lv[k], k, q, p, j, u, a, b, bk);
    InnerShareKeys(h, h1, keys, k, a, b, bk, c);
    var sep := (h[a].ks + [bk] + h[b].ks)[c];
    InnerShareRows(h, h1, lv[k], k, q, a, b, bk, c, sep);
    InnerShareTouches(h, h1, lv[k], k, q, a, b, bk, c, sep);
    LowLeaves(h, h1, lv[1]);
    LeavesSame(h, h1, lv[1]);
    BalanceLoose(h, h1, lv, root, order, keys, k, q, p, j, u, a, b, bk, n, sep);
  }
}
