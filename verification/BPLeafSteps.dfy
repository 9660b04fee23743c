/** What inserting into a leaf does to the tree: shape, separators, chain and content. */
module BPLeafSteps {
  import opened CStrings
  import opened BPTypes
  import opened BPLevels
  import opened BPSlots
  import opened BPSteps
  import opened BPInsertSteps
  import opened BPNodeInsert
  import opened BPTree
  import opened BPInsert
  import opened BPFind
  import opened BPValid
  import opened BPLookup
  import opened BPAlloc

  // ----- More nodes in the heap change nothing -----

  ghost predicate Extends(h: Heap, h': Heap) {
    forall n :: n in h ==> n in h' && h'[n] == h[n]
  }

  lemma LinkedExtends(h: Heap, h': Heap, lv: seq<Level>, root: Node, k: nat, x: Level)
    requires Linked(h, lv, root, k, x) && Extends(h, h')
    ensures Linked(h', lv, root, k, x)
  {
    hide Linked, LevelOK, Parents, Expand;
    RootHasNoParent(h, lv, root, k, x);
    LinkedLength(h, lv, root, k, x);
    var far := |lv|;
    ExtendsIsLocal(h, h', far);
    forall j | 1 <= j < |lv|
      ensures LevelOK(h', lv[j], j) && (j >= 2 ==> Parents(h', lv[j]))
      ensures Expand(h', lv[j]) == if j - 1 == k then x else lv[j - 1]
    {
      LinkedAt(h, lv, root, k, x, j);
      LinkedAt(h, lv, root, k, x, j - 1);
      LevelKept(h, h', far, lv[j], j);
      if j >= 2 { KidsExtend(h, h', lv[j], j); }
    }
    LinkedTopAt(h, lv, root, k, x);
    LinkedIntro(h', lv, root, k, x);
  }

  lemma LinkedLength(h: Heap, lv: seq<Level>, root: Node, k: nat, x: Level)
    requires Linked(h, lv, root, k, x)
    ensures |lv| >= 2 && k < |lv|
  {
  }

  lemma LinkedTopAt(h: Heap, lv: seq<Level>, root: Node, k: nat, x: Level)
    requires Linked(h, lv, root, k, x)
    ensures |lv| >= 2 && [Entry(ToNode(root), null)] == if k == |lv| - 1 then x else lv[|lv| - 1]
  {
    assert Above(h, lv, root, |lv| - 1) == if k == |lv| - 1 then x else lv[|lv| - 1];
  }

  lemma LinkedIntro(h: Heap, lv: seq<Level>, root: Node, k: nat, x: Level)
    requires |lv| >= 2 && k < |lv| && root in h && h[root].parent == null
    requires [Entry(ToNode(root), null)] == if k == |lv| - 1 then x else lv[|lv| - 1]
    requires forall j :: 1 <= j < |lv| ==> LevelOK(h, lv[j], j) && (j >= 2 ==> Parents(h, lv[j]))
    requires forall j :: 1 <= j < |lv| ==> Expand(h, lv[j]) == if j - 1 == k then x else lv[j - 1]
    ensures Linked(h, lv, root, k, x)
  {
    hide LevelOK, Parents, Expand;
    forall j | 0 <= j < |lv|
      ensures Above(h, lv, root, j) == if j == k then x else lv[j]
    {
      if j + 1 < |lv| { assert Expand(h, lv[j + 1]) == if j + 1 - 1 == k then x else lv[j + 1 - 1]; }
    }
  }

  lemma ExtendsIsLocal(h: Heap, h': Heap, far: nat)
    requires Extends(h, h')
    ensures Local(h, h', far)
  {
  }

  lemma KidsExtend(h: Heap, h': Heap, l: Level, k: nat)
    requires Parents(h, l) && Extends(h, h') && LevelOK(h, l, k)
    ensures Parents(h', l)
  {
    forall i, m | 0 <= i < |l| && 0 <= m < |V(h', l[i].p).ps|
      ensures V(h', V(h', l[i].p).ps[m]).parent == PNode(l[i].p)
    {
      assert NodeOK(h, l[i].p, k) && V(h, l[i].p) == V(h', l[i].p);
      assert V(h, V(h, l[i].p).ps[m]).parent == PNode(l[i].p);
    }
  }

  /** A whole tree stays whole when a list of fresh nodes is put beside it. */
  lemma WholeExtends(h: Heap, h': Heap, lv: seq<Level>, root: Node?, order: nat, keys: set<Key>, fl: seq<Node>)
    requires Complete(h, lv, root, order, keys) && ListMade(h, h', fl)
    ensures Whole(h', lv, root, order, keys)
    ensures forall n :: n in h' && h'[n].level == 0 ==> n in fl
    ensures Extends(h, h')
  {
    hide Linked, NodeList, PtrsOf;
    ListIsZero(h, h', fl);
    LinkedExtends(h, h', lv, root, 0, lv[0]);
  }

  lemma ListIsZero(h: Heap, h': Heap, fl: seq<Node>)
    requires ListMade(h, h', fl)
    ensures forall n :: n in h' && n !in h ==> n in fl && h'[n].level == 0
    ensures Extends(h, h')
  {
    forall n | n in fl ensures n in h' && h'[n].level == 0 {
      var i :| 0 <= i < |fl| && fl[i] == n;
    }
  }

  /** The facts about leaves that are not part of the level structure. */
  ghost predicate Leaves(h: Heap, l: Level) {
    LeafSeps(h, l) && Chain(h, l)
  }

  lemma LeavesIs(h: Heap, l: Level)
    ensures Leaves(h, l) <==> LeafSeps(h, l) && Chain(h, l)
  {
  }

  /** Leaves depend on the leaves' slots and chain pointers only. */
  lemma LeavesSame(h: Heap, h': Heap, l: Level)
    requires Leaves(h, l)
    requires forall i :: 0 <= i < |l| ==> V(h', l[i].p).ks == V(h, l[i].p).ks && V(h', l[i].p).next == V(h, l[i].p).next
    ensures Leaves(h', l)
  {
  }

  /** A key that is not in the tree goes between its neighbours: the insertion point in the covering leaf is the
      insertion point in the whole content. */
  lemma InsertContent(h: Heap, lv: seq<Level>, p: nat, key: string, lo: nat, n: nat, at: nat, e: Entry)
    requires Locates(h, lv, p, key, lo, n) && IsInsertionPoint(V(h, lv[1][p].p).ks, key, at)
    requires forall m :: 0 <= m < |lv[0]| ==> lv[0][m].s.key != key
    requires e.p.ToRecord? && e.s != null && e.s.key == key
    ensures lo + at <= |lv[0]| && ContentOK(Insert(lv[0], lo + at, e))
  {
    hide Locates, IsInsertionPoint, Insert, ContentOK, Rank;
    InsertRoom(h, lv, p, key, lo, n, at);
    var c := lv[0];
    forall m | 0 <= m < |c| ensures if m < lo + at then Rank(c[m].s.key) < Rank(key) else Rank(key) < Rank(c[m].s.key) {
      AroundKey(h, lv, p, key, lo, n, at, m);
    }
    InsertOK(c, lo + at, e);
  }

  lemma InsertRoom(h: Heap, lv: seq<Level>, p: nat, key: string, lo: nat, n: nat, at: nat)
    requires Locates(h, lv, p, key, lo, n) && IsInsertionPoint(V(h, lv[1][p].p).ks, key, at)
    ensures |lv| >= 2 && lo + at <= |lv[0]| && ContentOK(lv[0])
    ensures forall m :: 0 <= m < |lv[0]| ==> lv[0][m].s != null
  {
  }

  /** A new key goes behind the last key of its leaf only at the right edge of the tree. */
  lemma AtEnd(h: Heap, lv: seq<Level>, p: nat, key: string, lo: nat, n: nat, at: nat)
    requires Locates(h, lv, p, key, lo, n) && IsInsertionPoint(V(h, lv[1][p].p).ks, key, at)
    requires forall m :: 0 <= m < |lv[0]| ==> lv[0][m].s.key != key
    ensures at == n ==> lv[1][p].s == null
  {
    if at == n && n > 0 { AroundKey(h, lv, p, key, lo, n, at, lo + n - 1); }
  }

  lemma AroundKey(h: Heap, lv: seq<Level>, p: nat, key: string, lo: nat, n: nat, at: nat, m: nat)
    requires Locates(h, lv, p, key, lo, n) && IsInsertionPoint(V(h, lv[1][p].p).ks, key, at)
    requires m < |lv[0]| && lv[0][m].s.key != key
    ensures m < lo + at ==> Rank(lv[0][m].s.key) < Rank(key)
    ensures m >= lo + at ==> Rank(key) < Rank(lv[0][m].s.key)
  {
    var c, ks := lv[0], V(h, lv[1][p].p).ks;
    StrcmpIsRank(c[m].s.key, key);
    if lo <= m < lo + n {
      assert c[lo + (m - lo)] == Entry(V(h, lv[1][p].p).ps[m - lo], ks[m - lo]);
      if m - lo > at {
        assert c[lo + at] == Entry(V(h, lv[1][p].p).ps[at], ks[at]);
      }
    }
  }

  lemma InsertOK(c: Level, d: nat, e: Entry)
    requires ContentOK(c) && d <= |c| && e.p.ToRecord? && e.s != null
    requires forall m :: 0 <= m < |c| ==> if m < d then Rank(c[m].s.key) < Rank(e.s.key) else Rank(e.s.key) < Rank(c[m].s.key)
    ensures ContentOK(Insert(c, d, e))
  {
    var c' := Insert(c, d, e);
    assert forall m :: 0 <= m < |c'| ==> c'[m] == if m < d then c[m] else if m == d then e else c[m - 1];
  }

  // ----- The leaf has room -----

  lemma FitsStructure(h: Heap, h': Heap, lv: seq<Level>, root: Node?, order: nat, keys: set<Key>, p: nat, u: Node,
                      lo: nat, n: nat, at: nat, bk: Key, rec: Record)
    requires root != null && Structure(h, lv, root, order, keys) && StandsAt(h, lv, 1, p, u, bk.key)
    requires Locates(h, lv, p, bk.key, lo, n) && IsInsertionPoint(h[u].ks, bk.key, at)
    requires forall m :: 0 <= m < |lv[0]| ==> lv[0][m].s.key != bk.key
    requires h' == h[u := h[u].(ks := Insert(h[u].ks, at, bk), ps := Insert(h[u].ps, at, ToRecord(rec)))]
    ensures lo + at <= |lv[0]|
    ensures Structure(h', lv[0 := Insert(lv[0], lo + at, Entry(ToRecord(rec), bk))], root, order, keys + {bk})
  {
    hide Linked, LevelOK, Parents, Expand, PtrsOf, ContentOK, LeafSeps, Chain, Locates, Covers, IsInsertionPoint;
    var l := lv[1];
    InsertContent(h, lv, p, bk.key, lo, n, at, Entry(ToRecord(rec), bk));
    AtEnd(h, lv, p, bk.key, lo, n, at);
    var c' := Insert(lv[0], lo + at, Entry(ToRecord(rec), bk));
    LocatesAt(h, lv, p, bk.key, lo, n);
    AtInRange(h[u].ks, bk.key, at);
    LeafFits(h, h', lv, root, l, p, u, at, bk, rec);
    LinkedIsTree(h', lv[0 := c'], root, 1);
    LeafLevelOK(h, lv, root);
    FitsLeaves(h, h', l, p, u, at, bk, rec);
    assert Covered(h', lv[0 := c']);
    InsertKnown(h, h', keys, u, at, bk);
  }

  lemma LocatesAt(h: Heap, lv: seq<Level>, p: nat, key: string, lo: nat, n: nat)
    requires Locates(h, lv, p, key, lo, n)
    ensures |lv| >= 2 && p < |lv[1]| && lo == |Expand(h, lv[1][..p])| && n == |V(h, lv[1][p].p).ks| == |V(h, lv[1][p].p).ps|
  {
  }

  lemma AtInRange(ks: seq<Key?>, key: string, at: nat)
    requires IsInsertionPoint(ks, key, at)
    ensures at <= |ks| && null !in ks
  {
  }

  lemma LeafLevelOK(h: Heap, lv: seq<Level>, root: Node)
    requires Tree(h, lv, root)
    ensures LevelOK(h, lv[1], 1) && Expand(h, lv[1]) == lv[0]
  {
    hide LevelOK, Parents, Expand;
    LinkedAt(h, lv, root, 0, lv[0], 0);
    LinkedAt(h, lv, root, 0, lv[0], 1);
  }

  lemma InsertKnown(h: Heap, h': Heap, keys: set<Key>, u: Node, at: nat, bk: Key)
    requires KeysKnown(h, keys) && u in h && h[u].level == 1 && at <= |h[u].ks|
    requires h'.Keys == h.Keys && h'[u].ks == Insert(h[u].ks, at, bk)
    requires forall n :: n in h && n != u ==> h'[n] == h[n]
    ensures KeysKnown(h', keys + {bk})
  {
    forall n, m | n in h' && h'[n].level > 0 && 0 <= m < |h'[n].ks|
      ensures h'[n].ks[m] != null && h'[n].ks[m] in keys + {bk}
    {
      if n == u {
        assert h'[u].ks[m] == if m < at then h[u].ks[m] else if m == at then bk else h[u].ks[m - 1];
      } else {
        assert h'[n].ks[m] == h[n].ks[m];
      }
    }
  }

  lemma FitsLeaves(h: Heap, h': Heap, l: Level, p: nat, u: Node, at: nat, bk: Key, rec: Record)
    requires LeafSeps(h, l) && Chain(h, l) && LevelOK(h, l, 1) && p < |l| && l[p].p == ToNode(u) && u in h
    requires at <= |h[u].ks| && |h[u].ks| == |h[u].ps| && (at == |h[u].ks| ==> l[p].s == null)
    requires h' == h[u := h[u].(ks := Insert(h[u].ks, at, bk), ps := Insert(h[u].ps, at, ToRecord(rec)))]
    ensures LeafSeps(h', l) && Chain(h', l)
  {
    forall i | 0 <= i < |l|
      ensures l[i].s != null ==> |V(h', l[i].p).ks| > 0 && l[i].s == V(h', l[i].p).ks[|V(h', l[i].p).ks| - 1]
      ensures V(h', l[i].p).next == NextPtr(l, i)
    {
      assert NodeOK(h, l[i].p, 1);
      if i != p { assert l[i].p != l[p].p; }
    }
  }

  // ----- The leaf is split -----

  /** The heap after a full leaf u has been split into u and w. */
  ghost predicate LeafCut(h: Heap, h': Heap, u: Node, w: Node, at: nat, bk: Key, rec: Record, c: nat) {
    && u in h && w in h && at <= |h[u].ks| && 0 < c <= |h[u].ks| && |h[u].ps| == |h[u].ks| && u != w
    && h' == h[u := h[u].(ks := Insert(h[u].ks, at, bk)[..c], ps := Insert(h[u].ps, at, ToRecord(rec))[..c], next := ToNode(w))]
              [w := NodeVal(true, Insert(h[u].ks, at, bk)[c..], Insert(h[u].ps, at, ToRecord(rec))[c..], h[u].next, h[u].parent, 1)]
  }

  ghost function SplitLevels(h: Heap, lv: seq<Level>, p: nat, d: nat, u: Node, w: Node, at: nat, bk: Key, rec: Record, c: nat): seq<Level>
    requires |lv| >= 2 && p < |lv[1]| && d <= |lv[0]| && u in h && at <= |h[u].ks| && 0 < c <= |h[u].ks|
  {
    lv[0 := Insert(lv[0], d, Entry(ToRecord(rec), bk))]
      [1 := Splice(lv[1], p, 1, [Entry(ToNode(u), Insert(h[u].ks, at, bk)[c - 1]), Entry(ToNode(w), lv[1][p].s)])]
  }

  lemma CutPending(h: Heap, h': Heap, lv: seq<Level>, lv': seq<Level>, root: Node?, order: nat, keys: set<Key>, p: nat, u: Node,
                   w: Node, lo: nat, n: nat, at: nat, bk: Key, rec: Record, c: nat, fl: seq<Node>)
    requires Whole(h, lv, root, order, keys) && StandsAt(h, lv, 1, p, u, bk.key)
    requires Locates(h, lv, p, bk.key, lo, n) && lo + at <= |lv[0]|
    requires |h[u].ks| == order - 1 && c == Cut(order - 1) && w in h && h[w].level == 0
    requires LeafCut(h, h', u, w, at, bk, rec, c)
    requires lv' == SplitLevels(h, lv, p, lo + at, u, w, at, bk, rec, c)
    ensures Insert(h[u].ks, at, bk)[c - 1] != null
    ensures Pending(h', lv', root, order, keys + {bk}, 1, lv[1], p, u, Insert(h[u].ks, at, bk)[c - 1], w)
  {
    hide Linked, LevelOK, Parents, Expand, PtrsOf, Locates, Covers, IsSplit, Covered, Occupied, KeysKnown, AtLevel;
    LocatesAt(h, lv, p, bk.key, lo, n);
    var l := lv[1];
    LeafSplits(h, h', lv, root, l, p, u, w, at, bk, rec, c);
    LeafLevelOK(h, lv, root);
    CutSep(h, keys, u, at, bk, c);
    var sep := Insert(h[u].ks, at, bk)[c - 1];
    SplitIs(lv'[1], l, p, u, sep, w);
    CutAtLevel(h, h', l, u, w, at, bk, rec, c);
    CutKnown(h, h', keys, u, w, at, bk, rec, c);
    CutOccupied(h, h', lv, root, order, keys, u, w, at, bk, rec, c);
    var lv0 := lv[0 := Insert(lv[0], lo + at, Entry(ToRecord(rec), bk))];
    CoveredContent(h, lv, lv0[0]);
    CoveredSplit(h, h', lv0, lv', 0, l, p, u, sep, w);
  }

  lemma CoveredContent(h: Heap, lv: seq<Level>, c: Level)
    requires Covered(h, lv) && |lv| >= 1
    ensures Covered(h, lv[0 := c])
  {
    hide PtrsOf;
  }

  lemma CutSep(h: Heap, keys: set<Key>, u: Node, at: nat, bk: Key, c: nat)
    requires KeysKnown(h, keys) && u in h && h[u].level == 1 && at <= |h[u].ks| && 0 < c <= |h[u].ks|
    ensures Insert(h[u].ks, at, bk)[c - 1] != null && Insert(h[u].ks, at, bk)[c - 1] in keys + {bk}
  {
    var m := c - 1;
    assert Insert(h[u].ks, at, bk)[m] == if m < at then h[u].ks[m] else if m == at then bk else h[u].ks[m - 1];
  }

  lemma CutAtLevel(h: Heap, h': Heap, l: Level, u: Node, w: Node, at: nat, bk: Key, rec: Record, c: nat)
    requires LevelOK(h, l, 1) && LeafCut(h, h', u, w, at, bk, rec, c) && h[u].level == 1 && h[w].level == 0
    ensures AtLevel(h', l, 1)
  {
    forall i | 0 <= i < |l| ensures V(h', l[i].p).level == 1 {
      assert NodeOK(h, l[i].p, 1);
    }
  }

  lemma CutKnown(h: Heap, h': Heap, keys: set<Key>, u: Node, w: Node, at: nat, bk: Key, rec: Record, c: nat)
    requires KeysKnown(h, keys) && LeafCut(h, h', u, w, at, bk, rec, c) && h[u].level == 1
    ensures KeysKnown(h', keys + {bk})
  {
    var ks := Insert(h[u].ks, at, bk);
    forall m | 0 <= m < |ks| ensures ks[m] != null && ks[m] in keys + {bk} {
      assert ks[m] == if m < at then h[u].ks[m] else if m == at then bk else h[u].ks[m - 1];
    }
    forall n, m | n in h' && h'[n].level > 0 && 0 <= m < |h'[n].ks|
      ensures h'[n].ks[m] != null && h'[n].ks[m] in keys + {bk}
    {
      if n == u { assert h'[n].ks[m] == ks[m]; }
      else if n == w { assert h'[n].ks[m] == ks[c + m]; }
      else { assert h'[n].ks[m] == h[n].ks[m]; }
    }
  }

  lemma CutOccupied(h: Heap, h': Heap, lv: seq<Level>, root: Node?, order: nat, keys: set<Key>, u: Node, w: Node, at: nat, bk: Key,
                    rec: Record, c: nat)
    requires Whole(h, lv, root, order, keys) && LeafCut(h, h', u, w, at, bk, rec, c) && c == Cut(order - 1)
    requires h[u].level == 1 && h[u].leaf && |h[u].ks| == order - 1
    ensures Occupied(h', order, if 1 == |lv| - 1 then null else root)
  {
    hide Linked, LevelOK, Parents, Expand, PtrsOf, KeysKnown;
    if |lv| == 2 { OnlyLeaf(h, lv, root, u); }
  }

  lemma OnlyLeaf(h: Heap, lv: seq<Level>, root: Node, u: Node)
    requires Tree(h, lv, root) && |lv| == 2 && u in h && h[u].level == 1 && Covered(h, lv)
    ensures u == root
  {
    hide LevelOK, Parents, Expand;
    RootLevel(h, lv, root, 0, lv[0]);
  }

  lemma CutLeaves(h: Heap, h': Heap, lv: seq<Level>, lv': seq<Level>, p: nat, u: Node, w: Node, d: nat, at: nat, bk: Key,
                  rec: Record, c: nat)
    requires |lv| >= 2 && Leaves(h, lv[1]) && LevelOK(h, lv[1], 1) && p < |lv[1]| && lv[1][p].p == ToNode(u) && d <= |lv[0]|
    requires LeafCut(h, h', u, w, at, bk, rec, c) && h[w].level == 0 && (at == |h[u].ks| ==> lv[1][p].s == null)
    requires lv' == SplitLevels(h, lv, p, d, u, w, at, bk, rec, c)
    ensures Leaves(h', lv'[1])
  {
    hide Leaves, LevelOK, LeafOK;
    var l, l' := lv[1], lv'[1];
    forall i | 0 <= i < |l'|
      ensures LeafOK(h', l', i)
    {
      CutLeaf(h, h', l, l', p, u, w, at, bk, rec, c, i);
    }
    LeavesIntro(h', l');
  }

  lemma LeavesIntro(h: Heap, l: Level)
    requires forall i :: 0 <= i < |l| ==> LeafOK(h, l, i)
    ensures Leaves(h, l)
  {
    forall i | 0 <= i < |l|
      ensures l[i].s != null ==> |V(h, l[i].p).ks| > 0 && l[i].s == V(h, l[i].p).ks[|V(h, l[i].p).ks| - 1]
      ensures V(h, l[i].p).next == NextPtr(l, i)
    {
      assert LeafOK(h, l, i);
    }
  }

  ghost predicate LeafOK(h: Heap, l: Level, i: nat)
    requires i < |l|
  {
    && (l[i].s != null ==> |V(h, l[i].p).ks| > 0 && l[i].s == V(h, l[i].p).ks[|V(h, l[i].p).ks| - 1])
    && V(h, l[i].p).next == NextPtr(l, i)
  }

  lemma CutLeaf(h: Heap, h': Heap, l: Level, l': Level, p: nat, u: Node, w: Node, at: nat, bk: Key, rec: Record, c: nat, i: nat)
    requires Leaves(h, l) && LevelOK(h, l, 1) && p < |l| && l[p].p == ToNode(u)
    requires LeafCut(h, h', u, w, at, bk, rec, c) && h[w].level == 0 && (at == |h[u].ks| ==> l[p].s == null)
    requires l' == Splice(l, p, 1, [Entry(ToNode(u), Insert(h[u].ks, at, bk)[c - 1]), Entry(ToNode(w), l[p].s)])
    requires i < |l'|
    ensures LeafOK(h', l', i)
  {
    hide LevelOK, LeafCut, LeafSeps, Chain;
    CutBoundsOf(h, h', u, w, at, bk, rec, c);
    if i != p && i != p + 1 {
      var q := if i < p then i else i - 1;
      NodeAt(h, l, q, 1);
      LevelDistinct(h, l, 1);
      CutOther(h, h', l, l', p, q, u, w, at, bk, rec, c, i);
    } else if i == p {
      CutLeft(h, h', l', p, u, w, at, bk, rec, c);
    } else {
      CutRight(h, h', l, l', p, u, w, at, bk, rec, c);
    }
  }

  lemma CutBoundsOf(h: Heap, h': Heap, u: Node, w: Node, at: nat, bk: Key, rec: Record, c: nat)
    requires LeafCut(h, h', u, w, at, bk, rec, c)
    ensures u in h && w in h && at <= |h[u].ks| && 0 < c <= |h[u].ks|
  {
  }

  lemma CutOther(h: Heap, h': Heap, l: Level, l': Level, p: nat, q: nat, u: Node, w: Node, at: nat, bk: Key, rec: Record, c: nat, i: nat)
    requires Leaves(h, l) && p < |l| && q < |l| && l[p].p == ToNode(u) && l[q].p != ToNode(u) && NodeOK(h, l[q].p, 1)
    requires LeafCut(h, h', u, w, at, bk, rec, c) && h[w].level == 0 && i == (if q < p then q else q + 1) && q != p
    requires l' == Splice(l, p, 1, [Entry(ToNode(u), Insert(h[u].ks, at, bk)[c - 1]), Entry(ToNode(w), l[p].s)])
    ensures i < |l'| && LeafOK(h', l', i)
  {
    hide Insert, NodeOK;
    NodeOf(h, l[q].p);
    assert l'[i] == l[q];
    assert V(h', l[q].p) == V(h, l[q].p);
    assert NextPtr(l', i) == NextPtr(l, q);
  }

  lemma NodeOf(h: Heap, p: Ptr)
    requires NodeOK(h, p, 1)
    ensures p.ToNode? && p.node in h && h[p.node].level == 1
  {
  }

  lemma CutLeft(h: Heap, h': Heap, l': Level, p: nat, u: Node, w: Node, at: nat, bk: Key, rec: Record, c: nat)
    requires LeafCut(h, h', u, w, at, bk, rec, c) && p + 1 < |l'|
    requires l'[p] == Entry(ToNode(u), Insert(h[u].ks, at, bk)[c - 1]) && l'[p + 1].p == ToNode(w)
    ensures LeafOK(h', l', p)
  {
    hide Insert;
    InsertLength(h[u].ks, at, bk);
  }

  lemma CutRight(h: Heap, h': Heap, l: Level, l': Level, p: nat, u: Node, w: Node, at: nat, bk: Key, rec: Record, c: nat)
    requires Leaves(h, l) && p < |l| && l[p].p == ToNode(u)
    requires LeafCut(h, h', u, w, at, bk, rec, c) && (at == |h[u].ks| ==> l[p].s == null)
    requires p + 1 < |l'| && l'[p + 1] == Entry(ToNode(w), l[p].s) && NextPtr(l', p + 1) == NextPtr(l, p)
    ensures LeafOK(h', l', p + 1)
  {
    assert V(h', ToNode(w)).ks == Insert(h[u].ks, at, bk)[c..];
  }
}
