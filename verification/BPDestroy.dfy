/** Destruction of a whole tree: every slot is shown to the callback, every object is released exactly once. */
module BPDestroy {
  import opened BPTypes
  import opened BPLevels
  import opened BPSteps
  import opened BPTree
  import opened BPInsert
  import opened BPFind
  import opened BPValid
  import opened BPLookup
  import opened BPAlloc
  import opened BPLeafSteps
  import opened BPAddSteps
  import opened BPMap
  import opened BPAlias
  import opened BPSeps
  import opened BPDelLeaf
  import opened BPDelCounts
  import opened BPRename
  import opened BPSettle
  import opened BPIter

  /** What the callback is shown for one leaf slot. */
  datatype Seen = Seen(key: string, rec: Record, refCount: nat)

  // ----- Positions -----

  /** The position in the content of the first slot below entry p of level k. */
  ghost function Off(h: Heap, lv: seq<Level>, k: nat, p: nat): nat
    requires k < |lv| && p <= |lv[k]|
    requires forall j :: 1 <= j <= k ==> Expand(h, lv[j]) == lv[j - 1]
    decreases k
  {
    if k == 0 then p
    else
      (ExpandAt(h, lv[k], p, 0);
      Off(h, lv, k - 1, |Expand(h, lv[k][..p])|))
  }

  /** The number of nodes below entries p up to q of level k, themselves included. */
  ghost function NodeCount(h: Heap, lv: seq<Level>, k: nat, p: nat, q: nat): nat
    requires k < |lv| && p <= q <= |lv[k]|
    requires forall j :: 1 <= j <= k ==> Expand(h, lv[j]) == lv[j - 1]
    decreases k
  {
    if k == 0 then 0
    else
      (ExpandAt(h, lv[k], q, 0);
      LoMonotone(h, lv[k], p, q);
      (q - p) + NodeCount(h, lv, k - 1, |Expand(h, lv[k][..p])|, |Expand(h, lv[k][..q])|))
  }

  lemma {:induction false} OffMonotone(h: Heap, lv: seq<Level>, k: nat, p: nat, q: nat)
    requires k < |lv| && p <= q <= |lv[k]|
    requires forall j :: 1 <= j <= k ==> Expand(h, lv[j]) == lv[j - 1]
    ensures Off(h, lv, k, p) <= Off(h, lv, k, q) <= |lv[0]|
    decreases k
  {
    hide Expand;
    if k > 0 {
      LoMonotone(h, lv[k], p, q);
      ExpandAt(h, lv[k], p, 0);
      ExpandAt(h, lv[k], q, 0);
      OffMonotone(h, lv, k - 1, |Expand(h, lv[k][..p])|, |Expand(h, lv[k][..q])|);
    }
  }

  lemma {:induction false} NodeCountSplit(h: Heap, lv: seq<Level>, k: nat, p: nat, m: nat, q: nat)
    requires k < |lv| && p <= m <= q <= |lv[k]|
    requires forall j :: 1 <= j <= k ==> Expand(h, lv[j]) == lv[j - 1]
    ensures NodeCount(h, lv, k, p, q) == NodeCount(h, lv, k, p, m) + NodeCount(h, lv, k, m, q)
    decreases k
  {
    hide Expand;
    if k > 0 {
      LoMonotone(h, lv[k], p, m);
      LoMonotone(h, lv[k], m, q);
      ExpandAt(h, lv[k], q, 0);
      NodeCountSplit(h, lv, k - 1, |Expand(h, lv[k][..p])|, |Expand(h, lv[k][..m])|, |Expand(h, lv[k][..q])|);
    }
  }

  /** The rows of neighbouring entries adjoin. */
  lemma NextRow(h: Heap, l: Level, p: nat)
    requires p < |l|
    ensures |Expand(h, l[..p + 1])| == |Expand(h, l[..p])| + |V(h, l[p].p).ps| <= |Expand(h, l)|
  {
    assert l[..p + 1] == l[..p] + [l[p]];
    ExpandConcat(h, l[..p], [l[p]]);
    ExpandOne(h, l[p]);
    ExpandAt(h, l, p + 1, 0);
  }

  // ----- The nodes of a tree, counted by level -----

  ghost function Total(lv: seq<Level>, k: nat): nat
    requires k < |lv|
  {
    if k == 0 then 0 else |lv[k]| + Total(lv, k - 1)
  }

  lemma {:induction false} CountAll(h: Heap, lv: seq<Level>, k: nat)
    requires k < |lv| && forall j :: 1 <= j <= k ==> Expand(h, lv[j]) == lv[j - 1]
    ensures NodeCount(h, lv, k, 0, |lv[k]|) == Total(lv, k) && Off(h, lv, k, 0) == 0 && Off(h, lv, k, |lv[k]|) == |lv[0]|
    decreases k
  {
    hide Expand;
    if k > 0 {
      ExpandNone(h, lv[k]);
      assert lv[k][..|lv[k]|] == lv[k];
      CountAll(h, lv, k - 1);
    }
  }

  ghost function NodesOf(l: Level): set<Node> {
    set e | e in l && e.p.ToNode? :: e.p.node
  }

  lemma {:induction false} NodesOfSize(l: Level)
    requires forall i :: 0 <= i < |l| ==> l[i].p.ToNode?
    requires forall i, j :: 0 <= i < j < |l| ==> l[i].p != l[j].p
    ensures |NodesOf(l)| == |l|
  {
    if l != [] {
      NodesOfSize(l[1..]);
      var n := l[0].p.node;
      forall m | m in NodesOf(l) ensures m in NodesOf(l[1..]) + {n} {
        var e :| e in l && e.p == ToNode(m);
        var i :| 0 <= i < |l| && l[i] == e;
        if i > 0 { assert l[1..][i - 1] == e; }
      }
      forall m | m in NodesOf(l[1..]) ensures m in NodesOf(l) && m != n {
        var e :| e in l[1..] && e.p == ToNode(m);
        var i :| 0 <= i < |l[1..]| && l[1..][i] == e;
        assert l[i + 1] == e;
      }
      assert l[0] in l;
      assert NodesOf(l) == NodesOf(l[1..]) + {n};
    }
  }

  /** The nodes of the levels up to k. */
  ghost function UpTo(h: Heap, k: nat): set<Node> {
    set n | n in h && 0 < h[n].level <= k
  }

  lemma {:induction false} LevelsCount(h: Heap, lv: seq<Level>, k: nat)
    requires k < |lv| && Covered(h, lv) && forall j :: 1 <= j <= k ==> LevelOK(h, lv[j], j)
    ensures |UpTo(h, k)| == Total(lv, k)
    decreases k
  {
    if k == 0 {
      assert UpTo(h, 0) == {};
    } else {
      hide LevelOK, Covered, UpTo, NodesOf;
      LevelsCount(h, lv, k - 1);
      LevelNodes(h, lv, k);
      UpToStep(h, k, NodesOf(lv[k]));
    }
  }

  lemma UpToStep(h: Heap, k: nat, s: set<Node>)
    requires k > 0 && forall n :: n in s <==> n in h && h[n].level == k
    ensures |UpTo(h, k)| == |UpTo(h, k - 1)| + |s|
  {
    assert UpTo(h, k) == UpTo(h, k - 1) + s && UpTo(h, k - 1) !! s;
  }

  lemma LevelNodes(h: Heap, lv: seq<Level>, k: nat)
    requires 1 <= k < |lv| && Covered(h, lv) && LevelOK(h, lv[k], k)
    ensures |NodesOf(lv[k])| == |lv[k]|
    ensures forall n :: n in NodesOf(lv[k]) <==> n in h && h[n].level == k
  {
    var l := lv[k];
    forall i | 0 <= i < |l| ensures l[i].p.ToNode? { NodeAt(h, l, i, k); }
    NodesOfSize(l);
    forall n | n in NodesOf(l) ensures n in h && h[n].level == k {
      var e :| e in l && e.p == ToNode(n);
      var i :| 0 <= i < |l| && l[i] == e;
      NodeAt(h, l, i, k);
    }
    forall n | n in h && h[n].level == k ensures n in NodesOf(l) {
      var i := ListedAt(h, lv, n);
      assert l[i] in l;
    }
  }

  /** A complete tree has as many nodes as its levels have entries. */
  lemma AllNodes(h: Heap, lv: seq<Level>, root: Node?, order: nat, keys: set<Key>)
    requires Complete(h, lv, root, order, keys)
    ensures |lv| >= 2 && |h.Keys| == Total(lv, |lv| - 1) && lv[|lv| - 1] == [Entry(ToNode(root), null)]
    ensures forall j :: 1 <= j < |lv| ==> Expand(h, lv[j]) == lv[j - 1]
  {
    hide LevelOK, Parents, Expand, Occupied, KeysKnown, Covered;
    RootLevel0(h, lv, root);
    forall j | 1 <= j < |lv| ensures LevelOK(h, lv[j], j) && Expand(h, lv[j]) == lv[j - 1] {
      LinkedAt(h, lv, root, 0, lv[0], j);
      LinkedAt(h, lv, root, 0, lv[0], j - 1);
    }
    LevelsCount(h, lv, |lv| - 1);
    forall n | n in h ensures n in UpTo(h, |lv| - 1) { CoveredLevel(h, lv, n); }
    assert UpTo(h, |lv| - 1) == h.Keys;
  }

  lemma CoveredLevel(h: Heap, lv: seq<Level>, n: Node)
    requires Covered(h, lv) && n in h && h[n].level > 0
    ensures h[n].level < |lv|
  {
  }

  // ----- The books while the tree is being released -----

  ghost function RecsOf(c: Level): set<Record> {
    set e | e in c && e.p.ToRecord? :: e.p.rec
  }

  /** From position x on every key still has all its references. */
  ghost predicate KeysFull(c: Level, seps: set<Key>, x: nat)
    reads KeysOf(c)`refCount
  {
    forall m :: x <= m < |c| ==> c[m].s != null && c[m].s in KeysOf(c) && c[m].s.refCount == if c[m].s in seps then 2 else 1
  }

  /** The counters while the content before x has been released, `nl` nodes are left and `extra` bytes belong to a key
      that is held by its internal slot alone. */
  ghost predicate Books(t: BPlusTree, c: Level, x: nat, nl: nat, extra: nat)
    reads t, t.recs`refCount, t.recs`dataSize
  {
    && t.order >= 1 && x <= |c| && RecordCounts(c[x..], t.recs)
    && t.metaSize == TREE_SIZE + NodeBytes(t.order, nl) + KeyBytes(c[x..]) + extra + |t.recs| * RECORD_SIZE
    && t.dataSize == DataBytes(t.recs) && t.numEntries == |t.recs|
  }

  ghost predicate Shown(c: Level, x: nat, y: nat, trace: seq<Seen>) {
    && x <= y <= |c| && |trace| == y - x && ContentOK(c)
    && forall m :: 0 <= m < |trace| ==> trace[m] == Seen(c[x + m].s.key, c[x + m].p.rec, Count(c[x + m..], c[x + m].p.rec))
  }

  lemma BooksParts(t: BPlusTree, c: Level, x: nat, nl: nat, extra: nat)
    requires Books(t, c, x, nl, extra)
    ensures t.order >= 1 && x <= |c| && RecordCounts(c[x..], t.recs)
    ensures t.metaSize == TREE_SIZE + NodeBytes(t.order, nl) + KeyBytes(c[x..]) + extra + |t.recs| * RECORD_SIZE
    ensures t.dataSize == DataBytes(t.recs) && t.numEntries == |t.recs|
  {
  }

  lemma BooksIntro(t: BPlusTree, c: Level, x: nat, nl: nat, extra: nat)
    requires t.order >= 1 && x <= |c| && RecordCounts(c[x..], t.recs)
    requires t.metaSize == TREE_SIZE + NodeBytes(t.order, nl) + KeyBytes(c[x..]) + extra + |t.recs| * RECORD_SIZE
    requires t.dataSize == DataBytes(t.recs) && t.numEntries == |t.recs|
    ensures Books(t, c, x, nl, extra)
  {
  }

  lemma NextSlot(c: Level, x: nat)
    requires ContentOK(c) && x < |c|
    ensures c[x..] != [] && c[x..][0] == c[x] && c[x..][1..] == c[x + 1..]
    ensures c[x].s != null && c[x].p.ToRecord? && c[x].s in KeysOf(c) && c[x].p.rec in RecsOf(c)
    ensures KeyBytes(c[x..]) == KeySize(c[x].s) + KeyBytes(c[x + 1..])
    ensures forall r :: Count(c[x..], r) == (if c[x].p == ToRecord(r) then 1 else 0) + Count(c[x + 1..], r)
  {
    assert c[x] in c;
  }

  lemma KeysFullStep(c: Level, seps: set<Key>, x: nat)
    requires ContentOK(c) && x < |c|
    requires forall m :: x < m < |c| ==> c[m].s != null && c[m].s != c[x].s
    requires forall m :: x < m < |c| ==> c[m].s.refCount == if c[m].s in seps then 2 else 1
    ensures KeysFull(c, seps, x + 1)
  {
    forall m | x + 1 <= m < |c| ensures c[m].s in KeysOf(c) { assert c[m] in c; }
  }

  lemma KeysFullParts(c: Level, seps: set<Key>, x: nat)
    requires KeysFull(c, seps, x) && ContentOK(c)
    ensures forall m :: x <= m < |c| ==> c[m].s != null && c[m].s.refCount == if c[m].s in seps then 2 else 1
    ensures forall m :: x < m < |c| ==> c[m].s != c[x].s
  {
  }

  lemma RecordStep(c: Level, x: nat, recs: seq<Record>)
    requires ContentOK(c) && x < |c| && RecordCounts(c[x..], recs)
    ensures c[x].p.ToRecord? && c[x].p.rec in recs
    ensures c[x].p.rec.refCount == Count(c[x..], c[x].p.rec)
    ensures RecordCountsBut(c[x + 1..], recs, c[x].p.rec)
  {
    NextSlot(c, x);
    var a, b := c[x..], c[x + 1..];
    assert a[0].p.rec in recs;
    forall i | 0 <= i < |b| && b[i].p.ToRecord? ensures b[i].p.rec in recs { assert a[i + 1] == b[i]; }
  }

  /** bptree.c _unref_record, while the tree is being released */
  method ReleaseRecord(t: BPlusTree, rec: Record, ghost c: Level)
    requires RecordCountsBut(c, t.recs, rec) && rec in t.recs && t.dataSize == DataBytes(t.recs) && t.numEntries == |t.recs|
    modifies t`metaSize, t`dataSize, t`numEntries, t`recs, rec`refCount
    ensures RecordCounts(c, t.recs) && t.dataSize == DataBytes(t.recs) && t.numEntries == |t.recs|
    ensures t.metaSize - |t.recs| * RECORD_SIZE == old(t.metaSize) - |old(t.recs)| * RECORD_SIZE
    ensures forall r :: r in t.recs ==> r in old(t.recs)
  {
    hide *;
    RecordsDistinct(c, t.recs, rec);
    RecordListed(c, t.recs, rec);
    rec.refCount := rec.refCount - 1;
    if rec.refCount == 0 {
      ghost var i :| 0 <= i < |t.recs| && t.recs[i] == rec;
      DestroyRecord(t, rec);
      RecordGone(c, t.recs, i);
      DataBytesRemove(t.recs, i);
      t.recs := t.recs[..i] + t.recs[i + 1..];
    } else {
      CountsSettled(c, t.recs, rec);
    }
  }

  /** One leaf slot: the callback sees it, then the key and the record lose a reference. */
  method ReleaseSlot(t: BPlusTree, q: Key, rec: Record, ghost c: Level, ghost seps: set<Key>, ghost x: nat, ghost nl: nat)
    returns (seen: Seen)
    requires ContentOK(c) && x < |c| && c[x] == Entry(ToRecord(rec), q)
    requires KeysFull(c, seps, x) && Books(t, c, x, nl, 0)
    modifies t`metaSize, t`dataSize, t`numEntries, t`recs, q`refCount, rec`refCount
    ensures KeysFull(c, seps, x + 1) && Books(t, c, x + 1, nl, if q in seps then KeySize(q) else 0)
    ensures q.refCount == if q in seps then 1 else 0
    ensures seen == Seen(q.key, rec, Count(c[x..], rec))
    ensures forall r :: r in t.recs ==> r in old(t.recs)
  {
    hide *;
    BooksParts(t, c, x, nl, 0);
    KeysFullParts(c, seps, x);
    NextSlot(c, x);
    RecordStep(c, x, t.recs);
    seen := Seen(q.key, rec, rec.refCount);
    q.refCount := q.refCount - 1;
    if q.refCount == 0 {
      KeySizeIs(q);
      t.metaSize := t.metaSize - (KEY_SIZE + |q.key| + 1);
    }
    ReleaseRecord(t, rec, c[x + 1..]);
    KeysFullStep(c, seps, x);
    BooksIntro(t, c, x + 1, nl, if q in seps then KeySize(q) else 0);
  }

  // ----- The recursion -----

  /** The tree as it was when its destruction began; nodes are read only. */
  ghost predicate Original(h: Heap, lv: seq<Level>, root: Node?, order: nat, keys: set<Key>) {
    && root != null && Structure(h, lv, root, order, keys) && Allocated(h.Keys, order) && |lv| >= 2
    && forall j :: 1 <= j < |lv| ==> Expand(h, lv[j]) == lv[j - 1]
  }

  lemma OriginalParts(h: Heap, lv: seq<Level>, root: Node?, order: nat, keys: set<Key>)
    requires Original(h, lv, root, order, keys)
    ensures root != null && Structure(h, lv, root, order, keys) && Allocated(h.Keys, order) && |lv| >= 2 && order >= 4
    ensures forall j :: 1 <= j < |lv| ==> Expand(h, lv[j]) == lv[j - 1]
    ensures ContentOK(lv[0]) && Complete(h, lv, root, order, keys)
  {
  }

  /** A node of the original tree as an object. */
  lemma OriginalNode(h: Heap, lv: seq<Level>, root: Node?, order: nat, keys: set<Key>, k: nat, p: nat, n: Node)
    requires Original(h, lv, root, order, keys) && 1 <= k < |lv| && p < |lv[k]| && lv[k][p].p == ToNode(n)
    requires forall m :: m in h ==> m.Val() == h[m]
    ensures n in h && n.Shape(order) && n.isLeaf == (k == 1) && null !in h[n].ks && |h[n].ks| == n.numKeys
    ensures |h[n].ps| == n.numKeys + (if k == 1 then 0 else 1) && order >= 4
    ensures forall i :: 0 <= i < |h[n].ks| ==> i < n.bkeys.Length && n.bkeys[i] == h[n].ks[i]
    ensures forall i :: 0 <= i < |h[n].ps| ==> i < n.pointers.Length && n.pointers[i] == h[n].ps[i]
  {
    hide Complete, Expand, ContentOK, LeafSeps, Chain, Separate;
    NodeInLevelOf(h, lv, root, order, keys, k, p, n);
    assert n.Val() == h[n];
    ValOf(n, order);
  }

  lemma NodeInLevelOf(h: Heap, lv: seq<Level>, root: Node?, order: nat, keys: set<Key>, k: nat, p: nat, n: Node)
    requires Complete(h, lv, root, order, keys) && 1 <= k < |lv| && p < |lv[k]| && lv[k][p].p == ToNode(n)
    ensures NodeOK(h, ToNode(n), k)
  {
    hide Linked, LevelOK, Parents, Expand, Occupied, KeysKnown, Covered;
    LinkedAt(h, lv, root, 0, lv[0], k);
    NodeAt(h, lv[k], p, k);
  }

  /** Which slots of a leaf hold separators. */
  lemma LeafSepSlots(h: Heap, lv: seq<Level>, root: Node?, order: nat, keys: set<Key>, p: nat, n: Node) returns (lo: nat, cnt: nat)
    requires root != null && Structure(h, lv, root, order, keys) && |lv| >= 2 && p < |lv[1]| && lv[1][p].p == ToNode(n)
    requires forall j :: 1 <= j < |lv| ==> Expand(h, lv[j]) == lv[j - 1]
    ensures n in h && lo == Off(h, lv, 1, p) && lo + cnt == Off(h, lv, 1, p + 1) <= |lv[0]| && cnt == |h[n].ks| == |h[n].ps| && cnt > 0
    ensures forall i :: 0 <= i < cnt ==> lv[0][lo + i] == Entry(h[n].ps[i], h[n].ks[i]) && h[n].ps[i].ToRecord? && h[n].ks[i] != null
    ensures forall i :: 0 <= i < cnt - 1 ==> h[n].ks[i] !in Seps(lv)
    ensures h[n].ks[cnt - 1] in Seps(lv) <==> lv[1][p].s != null
    ensures lv[1][p].s != null ==> lv[1][p].s == h[n].ks[cnt - 1]
  {
    hide Linked, LevelOK, Parents, Expand, KeysKnown, Covered, Occupied, Seps, Chain, ContentOK;
    LeafLevelOK(h, lv, root);
    lo, cnt := LeafView(h, lv, root, order, keys, p, n);
    OffLeaf(h, lv, p);
    LeafAtParts(h, lv[1], lv[0], p, lo, cnt, n);
    forall i | 0 <= i < cnt ensures lv[0][lo + i] == Entry(h[n].ps[i], h[n].ks[i]) && h[n].ps[i].ToRecord? && h[n].ks[i] != null {
      ContentEntry(lv[0], lo + i);
    }
    forall i | 0 <= i < cnt && h[n].ks[i] in Seps(lv) ensures i == cnt - 1 && lv[1][p].s != null {
      SepsHas(lv, h[n].ks[i]);
      var q :| 0 <= q < |lv[1]| && lv[1][q].s == h[n].ks[i];
      LeafKeyOnce(h, lv, p, lo, cnt, i, q, |V(h, lv[1][q].p).ks| - 1);
    }
    if lv[1][p].s != null {
      SepsHas(lv, lv[1][p].s);
      SepHere(lv[1], p);
    }
  }

  lemma SepHere(l: Level, p: nat)
    requires p < |l| && l[p].s != null
    ensures HasSep(l, l[p].s)
  {
  }

  lemma OffLeaf(h: Heap, lv: seq<Level>, p: nat)
    requires |lv| >= 2 && p < |lv[1]| && forall j :: 1 <= j < |lv| ==> Expand(h, lv[j]) == lv[j - 1]
    ensures Off(h, lv, 1, p) == Lo(h, lv[1], p) && Off(h, lv, 1, p + 1) == Lo(h, lv[1], p) + |V(h, lv[1][p].p).ps|
    ensures Off(h, lv, 1, p + 1) <= |lv[0]| && NodeCount(h, lv, 1, p, p + 1) == 1
  {
    NextRow(h, lv[1], p);
  }

  lemma ShownNone(c: Level, x: nat)
    requires ContentOK(c) && x <= |c|
    ensures Shown(c, x, x, [])
  {
  }

  lemma ShownOne(c: Level, x: nat, y: nat, trace: seq<Seen>, seen: Seen)
    requires Shown(c, x, y, trace) && y < |c| && c[y].s != null && c[y].p.ToRecord?
    requires seen == Seen(c[y].s.key, c[y].p.rec, Count(c[y..], c[y].p.rec))
    ensures Shown(c, x, y + 1, trace + [seen])
  {
  }

  lemma ShownMore(c: Level, x: nat, y: nat, z: nat, a: seq<Seen>, b: seq<Seen>)
    requires Shown(c, x, y, a) && Shown(c, y, z, b)
    ensures Shown(c, x, z, a + b)
  {
    forall m | 0 <= m < |a + b| ensures (a + b)[m] == Seen(c[x + m].s.key, c[x + m].p.rec, Count(c[x + m..], c[x + m].p.rec)) {
      if m >= |a| { assert (a + b)[m] == b[m - |a|]; }
    }
  }

  lemma InContent(c: Level, x: nat)
    requires ContentOK(c) && x < |c|
    ensures c[x].s in KeysOf(c) && c[x].p.ToRecord? && c[x].p.rec in RecsOf(c)
  {
    assert c[x] in c;
  }

  /** The bytes of a separator that only its internal slot still holds. */
  ghost function Held(s: Key?): nat {
    if s == null then 0 else KeySize(s)
  }

  lemma HeldIs(q: Key)
    ensures Held(q) == KeySize(q) && Held(null) == 0
  {
  }

  /** The subtrees at entries p up to q of level k have been released; of `nl` nodes those remain that are not in them, and
      of the keys before the new position at most `held`, the last one, still has a reference: its internal slot. */
  ghost predicate Released(t: BPlusTree, h: Heap, lv: seq<Level>, k: nat, p: nat, q: nat, nl: nat, trace: seq<Seen>, held: Key?)
    requires k < |lv| && p <= q <= |lv[k]|
    requires forall j :: 1 <= j < |lv| ==> Expand(h, lv[j]) == lv[j - 1]
    reads t, t.recs`refCount, t.recs`dataSize, KeysOf(lv[0])`refCount
  {
    var x, y := Off(h, lv, k, p), Off(h, lv, k, q);
    && Shown(lv[0], x, y, trace)
    && KeysFull(lv[0], Seps(lv), y) && nl >= NodeCount(h, lv, k, p, q)
    && Books(t, lv[0], y, nl - NodeCount(h, lv, k, p, q), Held(held))
    && (held != null ==> held in KeysOf(lv[0]) && held.refCount == 1 && 0 < y <= |lv[0]| && lv[0][y - 1].s == held)
  }

  lemma ReleasedParts(t: BPlusTree, h: Heap, lv: seq<Level>, k: nat, p: nat, q: nat, nl: nat, trace: seq<Seen>, held: Key?)
    requires k < |lv| && p <= q <= |lv[k]| && forall j :: 1 <= j < |lv| ==> Expand(h, lv[j]) == lv[j - 1]
    requires Released(t, h, lv, k, p, q, nl, trace, held)
    ensures var y := Off(h, lv, k, q);
      && Shown(lv[0], Off(h, lv, k, p), y, trace) && KeysFull(lv[0], Seps(lv), y)
      && nl >= NodeCount(h, lv, k, p, q) && Books(t, lv[0], y, nl - NodeCount(h, lv, k, p, q), Held(held))
      && (held != null ==> held in KeysOf(lv[0]) && held.refCount == 1 && 0 < y <= |lv[0]| && lv[0][y - 1].s == held)
  {
  }

  lemma ReleasedIntro(t: BPlusTree, h: Heap, lv: seq<Level>, k: nat, p: nat, q: nat, nl: nat, trace: seq<Seen>, held: Key?)
    requires k < |lv| && p <= q <= |lv[k]| && forall j :: 1 <= j < |lv| ==> Expand(h, lv[j]) == lv[j - 1]
    requires nl >= NodeCount(h, lv, k, p, q)
    requires var y := Off(h, lv, k, q);
      && Shown(lv[0], Off(h, lv, k, p), y, trace) && KeysFull(lv[0], Seps(lv), y)
      && Books(t, lv[0], y, nl - NodeCount(h, lv, k, p, q), Held(held))
      && (held != null ==> held in KeysOf(lv[0]) && held.refCount == 1 && 0 < y <= |lv[0]| && lv[0][y - 1].s == held)
    ensures Released(t, h, lv, k, p, q, nl, trace, held)
  {
  }

  /** Nothing has been released yet. */
  lemma ReleasedNone(t: BPlusTree, h: Heap, lv: seq<Level>, k: nat, p: nat, nl: nat)
    requires k < |lv| && p <= |lv[k]| && forall j :: 1 <= j < |lv| ==> Expand(h, lv[j]) == lv[j - 1]
    requires ContentOK(lv[0]) && KeysFull(lv[0], Seps(lv), Off(h, lv, k, p)) && Books(t, lv[0], Off(h, lv, k, p), nl, 0)
    ensures Released(t, h, lv, k, p, p, nl, [], null)
  {
    hide Expand, KeysFull, Books, Off, NodeCount, Shown;
    NodeCountSplit(h, lv, k, p, p, p);
    OffMonotone(h, lv, k, p, p);
    ShownNone(lv[0], Off(h, lv, k, p));
  }

  /** Two neighbouring stretches. */
  lemma ReleasedJoin(t: BPlusTree, h: Heap, lv: seq<Level>, k: nat, p: nat, m: nat, q: nat, nl: nat, rest: nat, a: seq<Seen>, b: seq<Seen>, held: Key?)
    requires k < |lv| && p <= m <= q <= |lv[k]| && forall j :: 1 <= j < |lv| ==> Expand(h, lv[j]) == lv[j - 1]
    requires Shown(lv[0], Off(h, lv, k, p), Off(h, lv, k, m), a)
    requires nl >= NodeCount(h, lv, k, p, m) && rest == nl - NodeCount(h, lv, k, p, m)
    requires Released(t, h, lv, k, m, q, rest, b, held)
    ensures Released(t, h, lv, k, p, q, nl, a + b, held)
  {
    hide Expand, KeysFull, Books, Off, NodeCount, Shown;
    NodeCountSplit(h, lv, k, p, m, q);
    ShownMore(lv[0], Off(h, lv, k, p), Off(h, lv, k, m), Off(h, lv, k, q), a, b);
  }

  /** An inner entry stands for the row of its children, all of them released, and its own node. */
  lemma ReleasedRow(t: BPlusTree, h: Heap, lv: seq<Level>, k: nat, p: nat, y0: nat, y1: nat, nl: nat, trace: seq<Seen>)
    requires 2 <= k < |lv| && p < |lv[k]| && forall j :: 1 <= j < |lv| ==> Expand(h, lv[j]) == lv[j - 1]
    requires y0 == |Expand(h, lv[k][..p])| && y1 == y0 + |V(h, lv[k][p].p).ps| <= |lv[k - 1]|
    requires KeysFull(lv[0], Seps(lv), Off(h, lv, k - 1, y1)) && Shown(lv[0], Off(h, lv, k - 1, y0), Off(h, lv, k - 1, y1), trace)
    requires nl >= 1 + NodeCount(h, lv, k - 1, y0, y1)
    requires Books(t, lv[0], Off(h, lv, k - 1, y1), nl - NodeCount(h, lv, k - 1, y0, y1) - 1, Held(lv[k][p].s))
    requires var s, y := lv[k][p].s, Off(h, lv, k - 1, y1);
      s != null ==> s in KeysOf(lv[0]) && s.refCount == 1 && 0 < y <= |lv[0]| && lv[0][y - 1].s == s
    ensures Released(t, h, lv, k, p, p + 1, nl, trace, lv[k][p].s)
  {
    hide Expand, KeysFull, Books, Shown;
    OffInner(h, lv, k, p);
  }

  /** bptree.c _destroy_tree_nodes, the case of a leaf, up to releasing the node itself */
  method ReleaseLeaf(t: BPlusTree, n: Node, ghost h: Heap, ghost lv: seq<Level>, ghost root: Node?, ghost keys: set<Key>, ghost p: nat, ghost nl: nat)
    returns (trace: seq<Seen>)
    requires Original(h, lv, root, t.order, keys) && p < |lv[1]| && lv[1][p].p == ToNode(n)
    requires forall m :: m in h ==> m.Val() == h[m]
    requires KeysFull(lv[0], Seps(lv), Off(h, lv, 1, p)) && Books(t, lv[0], Off(h, lv, 1, p), nl, 0)
    modifies t`metaSize, t`dataSize, t`numEntries, t`recs, KeysOf(lv[0])`refCount, RecsOf(lv[0])`refCount
    ensures Shown(lv[0], Off(h, lv, 1, p), Off(h, lv, 1, p + 1), trace)
    ensures KeysFull(lv[0], Seps(lv), Off(h, lv, 1, p + 1)) && Books(t, lv[0], Off(h, lv, 1, p + 1), nl, Held(lv[1][p].s))
    ensures var s, y := lv[1][p].s, Off(h, lv, 1, p + 1);
      s != null ==> s in KeysOf(lv[0]) && s.refCount == 1 && 0 < y <= |lv[0]| && lv[0][y - 1].s == s
  {
    hide *;
    OriginalParts(h, lv, root, t.order, keys);
    OriginalNode(h, lv, root, t.order, keys, 1, p, n);
    ghost var c := lv[0];
    ghost var lo, cnt := LeafSepSlots(h, lv, root, t.order, keys, p, n);
    ghost var held: Key? := null;
    trace := [];
    ShownNone(c, lo);
    HeldIs(n.bkeys[0]);
    var i := 0;
    while i < n.numKeys
      invariant 0 <= i <= n.numKeys == cnt && |lv| >= 2
      invariant Shown(c, lo, lo + i, trace) && KeysFull(c, Seps(lv), lo + i) && Books(t, c, lo + i, nl, Held(held))
      invariant held == if i == cnt then lv[1][p].s else null
      invariant held != null ==> held.refCount == 1
    {
      InContent(c, lo + i);
      assert c[lo + i] == Entry(h[n].ps[i], h[n].ks[i]);
      var seen := ReleaseSlot(t, n.bkeys[i], n.pointers[i].rec, c, Seps(lv), lo + i, nl);
      ShownOne(c, lo, lo + i, trace, seen);
      trace := trace + [seen];
      HeldIs(n.bkeys[i]);
      held := if n.bkeys[i] in Seps(lv) then n.bkeys[i] else null;
      i := i + 1;
    }
    InContent(c, lo + (cnt - 1));
  }

  /** The children of an inner entry, as entries of the level below. */
  lemma ChildEntry(h: Heap, lv: seq<Level>, root: Node?, order: nat, keys: set<Key>, k: nat, p: nat, n: Node, i: nat) returns (y: nat)
    requires Original(h, lv, root, order, keys) && 2 <= k < |lv| && p < |lv[k]| && lv[k][p].p == ToNode(n) && n in h && i < |h[n].ps|
    ensures y == |Expand(h, lv[k][..p])| + i < |lv[k - 1]|
    ensures h[n].ps[i].ToNode? && lv[k - 1][y].p == h[n].ps[i]
    ensures lv[k - 1][y].s == if i < |h[n].ks| then h[n].ks[i] else lv[k][p].s
  {
    hide Complete, ContentOK, LeafSeps, Chain, Separate, Expand;
    OriginalParts(h, lv, root, order, keys);
    SlotAt(h, lv[k], p, i);
    y := |Expand(h, lv[k][..p])| + i;
    LevelKind(h, lv, root, order, keys, k - 1, y);
  }

  lemma LevelKind(h: Heap, lv: seq<Level>, root: Node?, order: nat, keys: set<Key>, k: nat, y: nat)
    requires Complete(h, lv, root, order, keys) && 1 <= k < |lv| && y < |lv[k]|
    ensures lv[k][y].p.ToNode?
  {
    hide Linked, LevelOK, Parents, Expand, Occupied, KeysKnown, Covered;
    LinkedAt(h, lv, root, 0, lv[0], k);
    NodeAt(h, lv[k], y, k);
  }

  lemma OffInner(h: Heap, lv: seq<Level>, k: nat, p: nat)
    requires 2 <= k < |lv| && p < |lv[k]| && forall j :: 1 <= j < |lv| ==> Expand(h, lv[j]) == lv[j - 1]
    ensures var y0 := |Expand(h, lv[k][..p])|;
            var y1 := y0 + |V(h, lv[k][p].p).ps|;
      && y1 <= |lv[k - 1]| && Off(h, lv, k, p) == Off(h, lv, k - 1, y0) && Off(h, lv, k, p + 1) == Off(h, lv, k - 1, y1)
      && NodeCount(h, lv, k, p, p + 1) == 1 + NodeCount(h, lv, k - 1, y0, y1)
  {
    NextRow(h, lv[k], p);
  }

  lemma KeysKept(c: Level, seps: set<Key>, x: nat)
    requires ContentOK(c)
    requires forall m :: x <= m < |c| ==> c[m].s != null && c[m].s.refCount == if c[m].s in seps then 2 else 1
    ensures KeysFull(c, seps, x)
  {
    forall m | x <= m < |c| ensures c[m].s in KeysOf(c) { assert c[m] in c; }
  }

  lemma NotLater(c: Level, x: nat, q: Key)
    requires ContentOK(c) && 0 < x <= |c| && c[x - 1].s == q
    ensures forall m :: x <= m < |c| ==> c[m].s != q
  {
  }

  /** bptree.c _destroy_node, while the tree is being released */
  method ReleaseNode(t: BPlusTree, n: Node, ghost c: Level, ghost seps: set<Key>, ghost x: nat, ghost nl: nat, ghost extra: nat)
    requires Books(t, c, x, nl, extra) && nl >= 1 && KeysFull(c, seps, x) && ContentOK(c)
    modifies t`metaSize
    ensures Books(t, c, x, nl - 1, extra) && KeysFull(c, seps, x)
  {
    hide *;
    BooksParts(t, c, x, nl, extra);
    KeysFullParts(c, seps, x);
    NodeSizeIs(t.order);
    t.metaSize := t.metaSize - (NODE_SIZE + (t.order - 1) * POINTER_SIZE + t.order * POINTER_SIZE);
    NodeBytesAdd(t.order, nl - 1, 1);
    BooksIntro(t, c, x, nl - 1, extra);
    KeysKept(c, seps, x);
  }

  /** The internal slot of a separator lets go of its key: the last reference. */
  method ReleaseSeparator(t: BPlusTree, q: Key, ghost h: Heap, ghost lv: seq<Level>, ghost k: nat, ghost p: nat, ghost y: nat, ghost nl: nat,
                          ghost trace: seq<Seen>)
    requires k < |lv| && p <= y <= |lv[k]| && (forall j :: 1 <= j < |lv| ==> Expand(h, lv[j]) == lv[j - 1]) && ContentOK(lv[0])
    requires Released(t, h, lv, k, p, y, nl, trace, q)
    modifies t`metaSize, q`refCount
    ensures Released(t, h, lv, k, p, y, nl, trace, null) && q.refCount == 0
  {
    hide *;
    ghost var c, x := lv[0], Off(h, lv, k, y);
    ReleasedParts(t, h, lv, k, p, y, nl, trace, q);
    BooksParts(t, c, x, nl - NodeCount(h, lv, k, p, y), Held(q));
    KeysFullParts(c, Seps(lv), x);
    NotLater(c, x, q);
    HeldIs(q);
    UnrefKey(t, q);
    BooksIntro(t, c, x, nl - NodeCount(h, lv, k, p, y), 0);
    KeysKept(c, Seps(lv), x);
    ReleasedIntro(t, h, lv, k, p, y, nl, trace, null);
  }

  lemma VOf(h: Heap, n: Node)
    requires n in h
    ensures V(h, ToNode(n)) == h[n]
  {
  }

  /** bptree.c _destroy_tree_nodes */
  method DestroyTreeNodes(t: BPlusTree, n: Node, ghost h: Heap, ghost lv: seq<Level>, ghost root: Node?, ghost keys: set<Key>, ghost k: nat,
                          ghost p: nat, ghost nl: nat) returns (trace: seq<Seen>)
    requires Original(h, lv, root, t.order, keys) && (forall j :: 1 <= j < |lv| ==> Expand(h, lv[j]) == lv[j - 1])
    requires 1 <= k < |lv| && p < |lv[k]| && lv[k][p].p == ToNode(n) && forall m :: m in h ==> m.Val() == h[m]
    requires nl >= NodeCount(h, lv, k, p, p + 1)
    requires KeysFull(lv[0], Seps(lv), Off(h, lv, k, p)) && Books(t, lv[0], Off(h, lv, k, p), nl, 0)
    modifies t`metaSize, t`dataSize, t`numEntries, t`recs, KeysOf(lv[0])`refCount, RecsOf(lv[0])`refCount
    ensures Released(t, h, lv, k, p, p + 1, nl, trace, lv[k][p].s)
    decreases k, 1
  {
    hide *;
    OriginalParts(h, lv, root, t.order, keys);
    OriginalNode(h, lv, root, t.order, keys, k, p, n);
    ghost var c := lv[0];
    if n.isLeaf {
      OffLeaf(h, lv, p);
      trace := ReleaseLeaf(t, n, h, lv, root, keys, p, nl);
      ReleaseNode(t, n, c, Seps(lv), Off(h, lv, 1, p + 1), nl, Held(lv[1][p].s));
      ReleasedIntro(t, h, lv, 1, p, p + 1, nl, trace, lv[1][p].s);
    } else {
      OffInner(h, lv, k, p);
      VOf(h, n);
      ghost var y0 := |Expand(h, lv[k][..p])|;
      ghost var y1 := y0 + |h[n].ps|;
      trace := ReleaseChildren(t, n, h, lv, root, keys, k, p, y0, y1, nl);
      ReleasedParts(t, h, lv, k - 1, y0, y1, nl, trace, lv[k][p].s);
      ReleaseNode(t, n, c, Seps(lv), Off(h, lv, k - 1, y1), nl - NodeCount(h, lv, k - 1, y0, y1), Held(lv[k][p].s));
      ReleasedRow(t, h, lv, k, p, y0, y1, nl, trace);
    }
  }

  /** bptree.c _destroy_tree_nodes, the loop over the children of an internal node */
  method ReleaseChildren(t: BPlusTree, n: Node, ghost h: Heap, ghost lv: seq<Level>, ghost root: Node?, ghost keys: set<Key>, ghost k: nat,
                         ghost p: nat, ghost y0: nat, ghost y1: nat, ghost nl: nat) returns (trace: seq<Seen>)
    requires 2 <= k < |lv| && p < |lv[k]| && lv[k][p].p == ToNode(n) && n in h
    requires y0 <= y1 == y0 + |h[n].ps| <= |lv[k - 1]| && y0 == |Expand(h, lv[k][..p])|
    requires forall j :: 1 <= j < |lv| ==> Expand(h, lv[j]) == lv[j - 1]
    requires nl >= NodeCount(h, lv, k - 1, y0, y1)
    requires forall m :: m in h ==> m.Val() == h[m]
    requires Original(h, lv, root, t.order, keys)
    requires KeysFull(lv[0], Seps(lv), Off(h, lv, k - 1, y0)) && Books(t, lv[0], Off(h, lv, k - 1, y0), nl, 0)
    modifies t`metaSize, t`dataSize, t`numEntries, t`recs, KeysOf(lv[0])`refCount, RecsOf(lv[0])`refCount
    ensures Released(t, h, lv, k - 1, y0, y1, nl, trace, lv[k][p].s)
    decreases k, 0
  {
    hide *;
    OriginalParts(h, lv, root, t.order, keys);
    OriginalNode(h, lv, root, t.order, keys, k, p, n);
    trace := [];
    ReleasedNone(t, h, lv, k - 1, y0, nl);
    var i := 0;
    while i < n.numKeys + 1
      invariant 0 <= i <= n.numKeys + 1 == |h[n].ps|
      invariant Released(t, h, lv, k - 1, y0, y0 + i, nl, trace, if i == |h[n].ps| then lv[k][p].s else null)
    {
      trace := ReleaseChild(t, n, i, trace, h, lv, root, keys, k, p, y0, nl);
      i := i + 1;
    }
  }

  /** One child, and the separator to its right. */
  method ReleaseChild(t: BPlusTree, n: Node, i: nat, before: seq<Seen>, ghost h: Heap, ghost lv: seq<Level>, ghost root: Node?, ghost keys: set<Key>,
                      ghost k: nat, ghost p: nat, ghost y0: nat, ghost nl: nat) returns (trace: seq<Seen>)
    requires 2 <= k < |lv| && p < |lv[k]| && lv[k][p].p == ToNode(n) && n in h
    requires y0 == |Expand(h, lv[k][..p])| && y0 + |h[n].ps| <= |lv[k - 1]| && i < |h[n].ps|
    requires forall j :: 1 <= j < |lv| ==> Expand(h, lv[j]) == lv[j - 1]
    requires nl >= NodeCount(h, lv, k - 1, y0, y0 + |h[n].ps|)
    requires forall m :: m in h ==> m.Val() == h[m]
    requires Original(h, lv, root, t.order, keys)
    requires Released(t, h, lv, k - 1, y0, y0 + i, nl, before, null)
    modifies t`metaSize, t`dataSize, t`numEntries, t`recs, KeysOf(lv[0])`refCount, RecsOf(lv[0])`refCount
    ensures Released(t, h, lv, k - 1, y0, y0 + (i + 1), nl, trace, if i + 1 == |h[n].ps| then lv[k][p].s else null)
    decreases k - 1, 2
  {
    hide *;
    OriginalParts(h, lv, root, t.order, keys);
    OriginalNode(h, lv, root, t.order, keys, k, p, n);
    ghost var y := ChildEntry(h, lv, root, t.order, keys, k, p, n, i);
    NodeCountSplit(h, lv, k - 1, y0, y, y + 1);
    NodeCountSplit(h, lv, k - 1, y0, y + 1, y0 + |h[n].ps|);
    ReleasedParts(t, h, lv, k - 1, y0, y, nl, before, null);
    HeldNull();
    ghost var rest: nat := nl - NodeCount(h, lv, k - 1, y0, y);
    var more := DestroyTreeNodes(t, n.pointers[i].node, h, lv, root, keys, k - 1, y, rest);
    trace := before + more;
    ReleasedJoin(t, h, lv, k - 1, y0, y, y + 1, nl, rest, before, more, lv[k - 1][y].s);
    if i < n.numKeys {
      HeldKey(t, h, lv, k - 1, y0, y + 1, nl, trace, n.bkeys[i]);
      ReleaseSeparator(t, n.bkeys[i], h, lv, k - 1, y0, y + 1, nl, trace);
    }
  }

  lemma HeldKey(t: BPlusTree, h: Heap, lv: seq<Level>, k: nat, p: nat, q: nat, nl: nat, trace: seq<Seen>, held: Key)
    requires k < |lv| && p <= q <= |lv[k]| && forall j :: 1 <= j < |lv| ==> Expand(h, lv[j]) == lv[j - 1]
    requires Released(t, h, lv, k, p, q, nl, trace, held)
    ensures held in KeysOf(lv[0])
  {
  }

  lemma HeldNull()
    ensures Held(null) == 0
  {
  }

  // ----- The interface -----

  lemma OriginalNow(t: BPlusTree)
    requires Valid(t) && t.root != null
    ensures |t.lv| >= 2 && Original(t.H(), t.lv, t.root, t.order, t.keys) && t.order >= 4
    ensures forall m :: m in t.H() ==> m.Val() == t.H()[m]
    ensures forall j :: 1 <= j < |t.lv| ==> Expand(t.H(), t.lv[j]) == t.lv[j - 1]
    ensures t.lv[|t.lv| - 1] == [Entry(ToNode(t.root), null)] && NodeCount(t.H(), t.lv, |t.lv| - 1, 0, 1) == |t.nodes|
    ensures Off(t.H(), t.lv, |t.lv| - 1, 0) == 0 && Off(t.H(), t.lv, |t.lv| - 1, 1) == |t.lv[0]|
  {
    hide ContentOK, LeafSeps, Chain, Complete, KeyCounts, RecordCounts, Sizes, Separate, Expand, Off, NodeCount;
    assert t.H().Keys == t.nodes;
    AllNodes(t.H(), t.lv, t.root, t.order, t.keys);
    CountAll(t.H(), t.lv, |t.lv| - 1);
  }

  lemma BooksNow(t: BPlusTree)
    requires Valid(t)
    ensures |t.lv| >= 1 && KeysFull(t.lv[0], Seps(t.lv), 0) && Books(t, t.lv[0], 0, |t.nodes|, 0)
    ensures t.keys == KeysOf(t.lv[0]) && ContentOK(t.lv[0])
    ensures forall r :: r in RecsOf(t.lv[0]) ==> r in t.recs
  {
    hide *;
    ContentPart(t);
    SizesIs(t);
    KeyFacts(t.lv, t.keys);
    ghost var c := t.lv[0];
    assert c[0..] == c;
    forall m | 0 <= m < |c| ensures c[m].s != null && c[m].s.refCount == if c[m].s in Seps(t.lv) then 2 else 1 {
      InContent(c, m);
      ContentEntry(c, m);
    }
    KeysKept(c, Seps(t.lv), 0);
    BooksIntro(t, c, 0, |t.nodes|, 0);
    RecordFacts(c, t.recs);
    RecsAre(c);
  }

  lemma RecsAre(c: Level)
    ensures forall r :: r in RecsOf(c) ==> exists m :: 0 <= m < |c| && c[m].p == ToRecord(r)
  {
    forall r | r in RecsOf(c) ensures exists m :: 0 <= m < |c| && c[m].p == ToRecord(r) {
      var e :| e in c && e.p == ToRecord(r);
      var m :| 0 <= m < |c| && c[m] == e;
    }
  }

  lemma NoRecords(recs: seq<Record>)
    requires RecordCounts([], recs)
    ensures recs == []
  {
    if |recs| > 0 {
      var r := recs[0];
      CountZero([], r);
      assert false;
    }
  }

  lemma BooksDone(t: BPlusTree, c: Level)
    requires Books(t, c, |c|, 0, 0)
    ensures t.metaSize == TREE_SIZE && t.dataSize == 0 && t.numEntries == 0 && t.recs == []
  {
    assert c[|c|..] == [];
    NoRecords(t.recs);
    assert NodeBytes(t.order, 0) == 0;
  }

  /** bptree.c bptree_destroy_with_fn: the callback sees every entry in order, with the number of entries of the same record
      that are still to come, itself included; the counters return to those of an empty tree. */
  method Destroy(t: BPlusTree) returns (trace: seq<Seen>)
    requires Valid(t)
    modifies t`metaSize, t`dataSize, t`numEntries, t`recs, t.keys`refCount, t.recs`refCount
    ensures t.metaSize == TREE_SIZE && t.dataSize == 0 && t.numEntries == 0 && t.recs == []
    ensures |t.lv| >= 1 && Shown(t.lv[0], 0, |t.lv[0]|, trace)
  {
    hide *;
    BooksNow(t);
    ghost var c := t.lv[0];
    trace := [];
    if t.root == null {
      ValidParts(t);
      ShownNone(c, 0);
      BooksDone(t, c);
      return;
    }
    OriginalNow(t);
    ghost var h, k := t.H(), |t.lv| - 1;
    trace := DestroyTreeNodes(t, t.root, h, t.lv, t.root, t.keys, k, 0, |t.nodes|);
    ReleasedParts(t, h, t.lv, k, 0, 1, |t.nodes|, trace, null);
    HeldNull();
    BooksDone(t, c);
  }

  /** Every record of a valid tree is shown with a count of one exactly once: at its last entry. */
  lemma {:induction false} LastOnce(c: Level, r: Record) returns (m: nat)
    requires Count(c, r) > 0
    ensures m < |c| && c[m].p == ToRecord(r) && Count(c[m..], r) == 1
    ensures forall x :: 0 <= x < |c| && x != m && c[x].p == ToRecord(r) ==> Count(c[x..], r) > 1
  {
    if Count(c[1..], r) > 0 {
      var y := LastOnce(c[1..], r);
      m := y + 1;
      assert c[m..] == c[1..][y..];
      forall x | 0 <= x < |c| && x != m && c[x].p == ToRecord(r) ensures Count(c[x..], r) > 1 {
        if x > 0 { assert c[x..] == c[1..][x - 1..] && c[1..][x - 1].p == ToRecord(r); } else { assert c[0..] == c; }
      }
    } else {
      m := 0;
      assert c[0..] == c;
      forall x | 0 < x < |c| && c[x].p == ToRecord(r) ensures false {
        CountPositive(c[1..], r, x - 1);
      }
    }
  }

  /** The callback's view of the records: each one is shown exactly once with a count of one. */
  lemma ShownOnce(c: Level, recs: seq<Record>, trace: seq<Seen>, r: Record) returns (m: nat)
    requires RecordCounts(c, recs) && Shown(c, 0, |c|, trace) && r in recs
    ensures m < |trace| && trace[m].rec == r && trace[m].refCount == 1
    ensures forall x :: 0 <= x < |trace| && x != m && trace[x].rec == r ==> trace[x].refCount > 1
  {
    m := LastOnce(c, r);
    forall x | 0 <= x < |trace| && x != m && trace[x].rec == r ensures trace[x].refCount > 1 {
      assert trace[x] == Seen(c[0 + x].s.key, c[0 + x].p.rec, Count(c[0 + x..], c[0 + x].p.rec));
    }
    assert trace[m] == Seen(c[0 + m].s.key, c[0 + m].p.rec, Count(c[0 + m..], c[0 + m].p.rec));
  }
}
