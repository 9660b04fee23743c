/** Separators across levels: each key object separates at most once, so it sits in at most one internal slot; and what
    happens when one separator is exchanged for another throughout the tree. */
module BPSeps {
  import opened BPTypes
  import opened BPLevels
  import opened BPSteps
  import opened BPInsert
  import opened BPFind
  import opened BPLeafSteps
  import opened BPAddSteps

  /** A tree depends on the listed nodes only. */
  ghost predicate Agree(h: Heap, h': Heap, lv: seq<Level>) {
    forall k, i {:trigger lv[k][i]} :: 1 <= k < |lv| && 0 <= i < |lv[k]| ==> V(h', lv[k][i].p) == V(h, lv[k][i].p)
  }

  lemma TreeAgree(h: Heap, h': Heap, lv: seq<Level>, root: Node)
    requires Tree(h, lv, root) && Agree(h, h', lv)
    ensures Tree(h', lv, root)
  {
    hide Linked, LevelOK, Parents, Expand;
    LinkedTopAt(h, lv, root, 0, lv[0]);
    LinkedAt(h, lv, root, 0, lv[0], |lv| - 1);
    RootHasNoParent(h, lv, root, 0, lv[0]);
    assert lv[|lv| - 1][0] == Entry(ToNode(root), null);
    NodeAt(h, lv[|lv| - 1], 0, |lv| - 1);
    assert V(h', lv[|lv| - 1][0].p) == h[root];
    forall j | 1 <= j < |lv|
      ensures LevelOK(h', lv[j], j) && (j >= 2 ==> Parents(h', lv[j]))
      ensures Expand(h', lv[j]) == if j - 1 == 0 then lv[0] else lv[j - 1]
    {
      LinkedAt(h, lv, root, 0, lv[0], j);
      LinkedAt(h, lv, root, 0, lv[0], j - 1);
      assert forall i :: 0 <= i < |lv[j]| ==> V(h', lv[j][i].p) == V(h, lv[j][i].p);
      LevelAgree(h, h', lv[j], j);
      if j >= 2 {
        var below := lv[j - 1];
        assert forall i :: 0 <= i < |below| ==> V(h', below[i].p) == V(h, below[i].p);
        ParentsAgree(h, h', lv[j], below);
      }
    }
    LinkedIntro(h', lv, root, 0, lv[0]);
  }

  lemma LevelAgree(h: Heap, h': Heap, l: Level, k: nat)
    requires LevelOK(h, l, k) && k >= 1 && forall i :: 0 <= i < |l| ==> V(h', l[i].p) == V(h, l[i].p)
    ensures LevelOK(h', l, k) && Expand(h', l) == Expand(h, l)
  {
    forall i | 0 <= i < |l| ensures NodeOK(h', l[i].p, k) {
      assert NodeOK(h, l[i].p, k);
    }
    ExpandFrame(h, h', l);
  }

  lemma ParentsAgree(h: Heap, h': Heap, l: Level, below: Level)
    requires Parents(h, l) && Expand(h, l) == below
    requires forall i :: 0 <= i < |l| ==> V(h', l[i].p) == V(h, l[i].p)
    requires forall i :: 0 <= i < |below| ==> V(h', below[i].p) == V(h, below[i].p)
    ensures Parents(h', l)
  {
    forall i, m | 0 <= i < |l| && 0 <= m < |V(h', l[i].p).ps|
      ensures V(h', V(h', l[i].p).ps[m]).parent == PNode(l[i].p)
    {
      SlotAt(h, l, i, m);
      assert V(h, V(h, l[i].p).ps[m]).parent == PNode(l[i].p);
    }
  }

  // ----- Distinct separators -----

  ghost predicate DistinctSeps(l: Level) {
    forall a, b :: 0 <= a < b < |l| && l[a].s != null ==> l[a].s != l[b].s
  }

  /** The last slot below entry i carries the separator of entry i. */
  lemma LastChild(h: Heap, l: Level, i: nat, k: nat)
    requires LevelOK(h, l, k) && k >= 2 && i < |l|
    ensures 0 < |Expand(h, l[..i + 1])| <= |Expand(h, l)|
    ensures Expand(h, l)[|Expand(h, l[..i + 1])| - 1].s == l[i].s
  {
    assert NodeOK(h, l[i].p, k);
    LastSlot(h, l, i + 1);
    ExpandAt(h, l, i + 1, 0);
  }

  lemma {:induction false} LevelSeps(h: Heap, lv: seq<Level>, root: Node, k: nat)
    requires Tree(h, lv, root) && ContentOK(lv[0]) && LeafSeps(h, lv[1]) && 1 <= k < |lv|
    ensures DistinctSeps(lv[k])
  {
    hide Linked, LevelOK, Parents, Expand, ContentOK, LeafSeps;
    LinkedAt(h, lv, root, 0, lv[0], k);
    LinkedAt(h, lv, root, 0, lv[0], k - 1);
    var l := lv[k];
    if k > 1 { LevelSeps(h, lv, root, k - 1); }
    forall a, b | 0 <= a < b < |l| && l[a].s != null
      ensures l[a].s != l[b].s
    {
      if l[b].s != null {
        if k == 1 {
          SepsDistinct(h, l, lv[0], a, b);
        } else {
          LastChild(h, l, a, k);
          LastChild(h, l, b, k);
          Grows(h, l, a + 1, b + 1, k);
        }
      }
    }
  }

  lemma Grows(h: Heap, l: Level, a: nat, b: nat, k: nat)
    requires LevelOK(h, l, k) && k >= 2 && a < b <= |l|
    ensures |Expand(h, l[..a])| < |Expand(h, l[..b])|
  {
    assert NodeOK(h, l[b - 1].p, k);
    assert l[..b] == l[..b - 1] + [l[b - 1]];
    ExpandConcat(h, l[..b - 1], [l[b - 1]]);
    ExpandOne(h, l[b - 1]);
    assert l[..b - 1] == l[..a] + l[a..b - 1];
    ExpandConcat(h, l[..a], l[a..b - 1]);
  }

  /** Some entry of the level has separator q. */
  ghost predicate HasSep(l: Level, q: Key) {
    exists i :: 0 <= i < |l| && l[i].s == q
  }

  /** Separators of a level are separators of all levels below. */
  lemma {:induction false} SepBelow(h: Heap, lv: seq<Level>, root: Node, j: nat, k: nat, q: Key)
    requires Tree(h, lv, root) && 1 <= j <= k < |lv| && HasSep(lv[k], q)
    ensures HasSep(lv[j], q)
    decreases k
  {
    hide Linked, LevelOK, Parents, Expand;
    if j < k {
      LinkedAt(h, lv, root, 0, lv[0], k);
      LinkedAt(h, lv, root, 0, lv[0], k - 1);
      var i :| 0 <= i < |lv[k]| && lv[k][i].s == q;
      LastChild(h, lv[k], i, k);
      SepBelow(h, lv, root, j, k - 1, q);
    }
  }

  /** Key q sits in internal slot m of entry i of level k. */
  ghost predicate InSlot(h: Heap, lv: seq<Level>, q: Key, k: nat, i: nat, m: nat) {
    2 <= k < |lv| && i < |lv[k]| && m < |V(h, lv[k][i].p).ks| && V(h, lv[k][i].p).ks[m] == q
  }

  /** An internal key is the separator of the slot to its left, and it is not a separator at its own level. */
  lemma SlotSep(h: Heap, lv: seq<Level>, root: Node, q: Key, k: nat, i: nat, m: nat) returns (x: nat)
    requires Tree(h, lv, root) && ContentOK(lv[0]) && LeafSeps(h, lv[1]) && InSlot(h, lv, q, k, i, m)
    ensures x == |Expand(h, lv[k][..i])| + m < |lv[k - 1]| && lv[k - 1][x].s == q
    ensures HasSep(lv[k - 1], q) && !HasSep(lv[k], q)
    ensures DistinctSeps(lv[k - 1]) && m < |V(h, lv[k][i].p).ps|
  {
    hide Linked, LevelOK, Parents, Expand, ContentOK, LeafSeps;
    LinkedAt(h, lv, root, 0, lv[0], k);
    LinkedAt(h, lv, root, 0, lv[0], k - 1);
    LevelSeps(h, lv, root, k - 1);
    NodeAt(h, lv[k], i, k);
    SlotAt(h, lv[k], i, m);
    x := |Expand(h, lv[k][..i])| + m;
    if HasSep(lv[k], q) {
      var j :| 0 <= j < |lv[k]| && lv[k][j].s == q;
      LastChild(h, lv[k], j, k);
      NotLast(h, lv[k], i, m, j, k);
      assert false;
    }
  }

  lemma NotLast(h: Heap, l: Level, i: nat, m: nat, j: nat, k: nat)
    requires LevelOK(h, l, k) && k >= 2 && i < |l| && j < |l| && m < |V(h, l[i].p).ks|
    ensures |Expand(h, l[..i])| + m != |Expand(h, l[..j + 1])| - 1
  {
    assert NodeOK(h, l[i].p, k) && NodeOK(h, l[j].p, k);
    assert l[..i + 1] == l[..i] + [l[i]];
    ExpandConcat(h, l[..i], [l[i]]);
    ExpandOne(h, l[i]);
    if j < i {
      if j + 1 < i { Grows(h, l, j + 1, i, k); }
    } else if i < j {
      Grows(h, l, i + 1, j + 1, k);
    }
  }

  /** A key sits in at most one internal slot. */
  lemma SlotOnce(h: Heap, lv: seq<Level>, root: Node, q: Key, k: nat, i: nat, m: nat, k': nat, i': nat, m': nat)
    requires Tree(h, lv, root) && ContentOK(lv[0]) && LeafSeps(h, lv[1])
    requires InSlot(h, lv, q, k, i, m) && InSlot(h, lv, q, k', i', m')
    ensures k == k' && i == i' && m == m'
  {
    hide Linked, LevelOK, Parents, Expand, ContentOK, LeafSeps, HasSep, InSlot, DistinctSeps;
    var x := SlotSep(h, lv, root, q, k, i, m);
    var x' := SlotSep(h, lv, root, q, k', i', m');
    SlotLevels(h, lv, q, k, i, m);
    SlotLevels(h, lv, q, k', i', m');
    if k < k' { SepBelow(h, lv, root, k, k' - 1, q); }
    if k' < k { SepBelow(h, lv, root, k', k - 1, q); }
    SepOnce(lv[k - 1], x, x');
    LinkedAt(h, lv, root, 0, lv[0], k);
    SamePlace(h, lv[k], k, i, m, i', m');
  }

  lemma SlotLevels(h: Heap, lv: seq<Level>, q: Key, k: nat, i: nat, m: nat)
    requires InSlot(h, lv, q, k, i, m)
    ensures 2 <= k < |lv| && i < |lv[k]| && m < |V(h, lv[k][i].p).ks| && V(h, lv[k][i].p).ks[m] == q
  {
  }

  lemma SepOnce(l: Level, x: nat, y: nat)
    requires DistinctSeps(l) && x < |l| && y < |l| && l[x].s == l[y].s && l[x].s != null
    ensures x == y
  {
  }

  lemma SamePlace(h: Heap, l: Level, k: nat, i: nat, m: nat, i': nat, m': nat)
    requires LevelOK(h, l, k) && i < |l| && i' < |l| && m < |V(h, l[i].p).ps| && m' < |V(h, l[i'].p).ps|
    requires |Expand(h, l[..i])| + m == |Expand(h, l[..i'])| + m'
    ensures i == i' && m == m'
  {
    if i < i' { Before(h, l, i, i'); }
    if i' < i { Before(h, l, i', i); }
  }

  lemma Before(h: Heap, l: Level, i: nat, j: nat)
    requires i < j <= |l|
    ensures |Expand(h, l[..i])| + |V(h, l[i].p).ps| <= |Expand(h, l[..j])|
  {
    assert l[..j] == l[..i] + ([l[i]] + l[i + 1..j]);
    ExpandConcat(h, l[..i], [l[i]] + l[i + 1..j]);
    ExpandConcat(h, [l[i]], l[i + 1..j]);
    ExpandOne(h, l[i]);
  }
}
