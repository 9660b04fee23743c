/** Whole runs, and the invariant in the words of the tree's documentation. */
module BPRuns {
  import opened BPTypes
  import opened BPLevels
  import opened BPSteps
  import opened BPTree
  import opened BPInsert
  import opened BPFind
  import opened BPValid
  import opened BPLookup
  import opened BPMap
  import opened BPSeps
  import opened BPIter
  import opened BPDestroy
  import opened BPRefine

  // ----- Consequences of validity -----

  /** Every level lists the rows of the level above it. */
  ghost predicate Nested(h: Heap, lv: seq<Level>) {
    forall j :: 1 <= j < |lv| ==> Expand(h, lv[j]) == lv[j - 1]
  }

  lemma LevelsNest(t: BPlusTree)
    requires Valid(t) && |t.lv| > 1
    ensures t.root != null && Nested(t.H(), t.lv)
  {
    hide *;
    ValidParts(t);
    OriginalNow(t);
    NestedIntro(t.H(), t.lv);
  }

  lemma NestedIntro(h: Heap, lv: seq<Level>)
    requires forall j :: 1 <= j < |lv| ==> Expand(h, lv[j]) == lv[j - 1]
    ensures Nested(h, lv)
  {
  }

  /** The last slot below an entry with a separator holds the separator itself. */
  lemma {:induction false} LastSlotBelow(h: Heap, lv: seq<Level>, root: Node?, order: nat, keys: set<Key>, k: nat, i: nat)
    requires root != null && Structure(h, lv, root, order, keys) && Nested(h, lv)
    requires 1 <= k < |lv| && i < |lv[k]| && lv[k][i].s != null
    ensures EndsWith(h, lv, k, i, lv[k][i].s)
    decreases k
  {
    hide Linked, LevelOK, Parents, Expand, KeysKnown, Covered, Occupied, ContentOK, Chain;
    LinkedAt(h, lv, root, 0, lv[0], k);
    NodeAt(h, lv[k], i, k);
    if k == 1 {
      var n := lv[1][i].p.node;
      var lo, cnt := LeafSepSlots(h, lv, root, order, keys, i, n);
      assert lv[0][lo + (cnt - 1)] == Entry(h[n].ps[cnt - 1], h[n].ks[cnt - 1]);
    } else {
      LastChild(h, lv[k], i, k);
      LastSlotBelow(h, lv, root, order, keys, k - 1, |Expand(h, lv[k][..i + 1])| - 1);
    }
  }

  /** The content below entry i of level k ends with the key object s. */
  ghost predicate EndsWith(h: Heap, lv: seq<Level>, k: nat, i: nat, s: Key?) {
    && Nested(h, lv) && k < |lv| && i < |lv[k]|
    && 0 < Off(h, lv, k, i + 1) <= |lv[0]| && lv[0][Off(h, lv, k, i + 1) - 1].s == s
  }

  /** In a valid tree the content below an entry with a separator ends with the separator itself. */
  lemma LastBelow(t: BPlusTree, k: nat, i: nat)
    requires Valid(t) && 1 <= k < |t.lv| && i < |t.lv[k]| && t.lv[k][i].s != null
    ensures EndsWith(t.H(), t.lv, k, i, t.lv[k][i].s)
  {
    hide *;
    LevelsNest(t);
    ValidParts(t);
    LastSlotBelow(t.H(), t.lv, t.root, t.order, t.keys, k, i);
  }

  /** In a valid tree every key in an internal node is the very key object of the maximum of the subtree on its left. Slot m of
      node n, the entry i of level k, leads to entry y of the level below. */
  lemma SeparatorIsMaximum(t: BPlusTree, k: nat, i: nat, m: nat, n: Node, y: nat)
    requires Valid(t) && 2 <= k < |t.lv| && i < |t.lv[k]| && t.lv[k][i].p == ToNode(n) && n in t.nodes
    requires m < |n.Val().ks| && y == |Expand(t.H(), t.lv[k][..i])| + m
    ensures m < |n.Val().ps| && y < |t.lv[k - 1]| && t.lv[k - 1][y].p == n.Val().ps[m]
    ensures n.Val().ks[m] != null && EndsWith(t.H(), t.lv, k - 1, y, n.Val().ks[m])
  {
    hide *;
    LevelsNest(t);
    ValidParts(t);
    SnapAll(t);
    SeparatorSlot(t.H(), t.lv, t.root, t.order, t.keys, k, i, m, n, y);
    LastBelow(t, k - 1, y);
  }

  lemma SeparatorSlot(h: Heap, lv: seq<Level>, root: Node?, order: nat, keys: set<Key>, k: nat, i: nat, m: nat, n: Node, y: nat)
    requires root != null && Structure(h, lv, root, order, keys) && Nested(h, lv)
    requires 2 <= k < |lv| && i < |lv[k]| && lv[k][i].p == ToNode(n) && n in h && m < |h[n].ks| && y == |Expand(h, lv[k][..i])| + m
    ensures m < |h[n].ps| && y < |lv[k - 1]| && lv[k - 1][y].p == h[n].ps[m] && lv[k - 1][y].s == h[n].ks[m] != null
  {
    hide Linked, LevelOK, Parents, Expand, KeysKnown, Covered, Occupied, ContentOK, LeafSeps, Chain;
    LinkedAt(h, lv, root, 0, lv[0], k);
    NodeAt(h, lv[k], i, k);
    SlotAt(h, lv[k], i, m);
  }

  lemma {:induction false} RowsDouble(h: Heap, l: Level)
    requires forall i :: 0 <= i < |l| ==> |V(h, l[i].p).ps| >= 2
    ensures |Expand(h, l)| >= 2 * |l|
  {
    if l != [] {
      RowsDouble(h, l[1..]);
    }
  }

  ghost function Pow2(n: nat): nat {
    if n == 0 then 1 else 2 * Pow2(n - 1)
  }

  /** A tree of height d has at least 2^d leaves: the depth is logarithmic. */
  lemma {:induction false} LeavesGrow(h: Heap, lv: seq<Level>, root: Node?, order: nat, keys: set<Key>, k: nat)
    requires Complete(h, lv, root, order, keys) && 1 <= k < |lv|
    ensures |lv[k]| >= Pow2(|lv| - 1 - k)
    decreases |lv| - k
  {
    hide Linked, LevelOK, Parents, Expand, KeysKnown, Covered;
    LinkedAt(h, lv, root, 0, lv[0], k);
    if k < |lv| - 1 {
      LeavesGrow(h, lv, root, order, keys, k + 1);
      LinkedAt(h, lv, root, 0, lv[0], k + 1);
      var l := lv[k + 1];
      forall i | 0 <= i < |l| ensures |V(h, l[i].p).ps| >= 2 {
        NodeAt(h, l, i, k + 1);
      }
      RowsDouble(h, l);
    } else {
      LevelNonEmpty(h, lv[k], k);
    }
  }

  /** bptree.c bptree_get_height */
  method GetHeight(t: BPlusTree) returns (height: nat)
    requires Valid(t)
    ensures t.root == null ==> height == 0
    ensures t.root != null ==> |t.lv| == height + 2 && |t.lv[1]| >= Pow2(height)
  {
    hide *;
    StateParts(t);
    var c;
    c, height := GetFirstLeafNode(t);
    StateParts(t);
    ValidParts(t);
    if t.root != null { LeavesGrow(t.H(), t.lv, t.root, t.order, t.keys, 1); }
  }

  // ----- Runs -----

  /** Everything a tree consists of. */
  ghost function Footprint(t: BPlusTree): set<object>
    reads t
  {
    {t} + t.nodes + Arrays(t.nodes) + t.keys + (set r | r in t.recs)
  }

  lemma FootprintIs(t: BPlusTree)
    ensures forall o :: o in Footprint(t) <==> o == t || o in t.nodes || o in Arrays(t.nodes) || o in t.keys || o in t.recs
    ensures forall o :: o in Arrays(t.nodes) ==> exists n :: n in t.nodes && (o == n.bkeys || o == n.pointers)
    ensures forall n :: n in t.nodes ==> n.bkeys in Footprint(t) && n.pointers in Footprint(t)
  {
  }

  /** One operation. What the tree consists of afterwards was part of it before or is new. */
  method Perform(t: BPlusTree, op: Op) returns (r: int)
    requires Valid(t)
    modifies t, t.nodes, Arrays(t.nodes), t.keys`refCount, t.recs
    ensures Valid(t) && Does(op, old(MomentOf(t)), MomentOf(t), r)
    ensures forall n :: n in t.nodes ==> n in old(t.nodes) || (fresh(n) && fresh(n.bkeys) && fresh(n.pointers))
    ensures forall q :: q in t.keys ==> q in old(t.keys) || fresh(q)
    ensures forall q :: q in t.recs ==> q in old(t.recs) || fresh(q)
  {
    hide *;
    match op
    case Add(_, _, _) => r := PerformAdd(t, op);
    case Alias(_, _, _) => r := PerformAlias(t, op);
    case Update(_, _, _, _) => r := PerformUpdate(t, op);
    case Del(_) => r := PerformDel(t, op);
  }

  /** A run of the ordered map: the entries before the first operation, and after each. */
  ghost predicate Trace(ops: seq<Op>, results: seq<int>, ms: seq<Moment>) {
    && |results| == |ops| && |ms| == |ops| + 1
    && forall i :: 0 <= i < |ops| ==> Does(ops[i], ms[i], ms[i + 1], results[i])
  }

  lemma TraceOne(ops: seq<Op>, results: seq<int>, ms: seq<Moment>, op: Op, r: int, m: Moment)
    requires Trace(ops, results, ms) && Does(op, m, ms[0], r)
    ensures Trace([op] + ops, [r] + results, [m] + ms)
  {
    hide Does;
  }

  /** Any run of operations, with allocations failing at any point, passes through valid trees only and is a run of the
      ordered map. */
  method Run(t: BPlusTree, ops: seq<Op>) returns (results: seq<int>, ghost ms: seq<Moment>)
    requires Valid(t)
    modifies Footprint(t)
    ensures Valid(t) && Trace(ops, results, ms) && ms[0] == old(MomentOf(t)) && ms[|ops|] == MomentOf(t)
    ensures forall o :: o in Footprint(t) ==> o in old(Footprint(t)) || fresh(o)
    decreases |ops|
  {
    results, ms := [], [MomentOf(t)];
    hide *;
    if ops == [] {
      NoTrace(ops, results, ms);
    } else {
      ghost var m := MomentOf(t);
      FootprintIs(t);
      var r := Perform(t, ops[0]);
      FootprintIs(t);
      var rest;
      ghost var after;
      rest, after := Run(t, ops[1..]);
      TraceIs(ops[1..], rest, after);
      TraceOne(ops[1..], rest, after, ops[0], r, m);
      assert [ops[0]] + ops[1..] == ops;
      results, ms := [r] + rest, [m] + after;
    }
  }

  lemma NoTrace(ops: seq<Op>, results: seq<int>, ms: seq<Moment>)
    requires ops == [] && results == [] && |ms| == 1
    ensures Trace(ops, results, ms)
  {
  }

  lemma TraceIs(ops: seq<Op>, results: seq<int>, ms: seq<Moment>)
    requires Trace(ops, results, ms)
    ensures |results| == |ops| && |ms| == |ops| + 1
  {
  }

  lemma StartsEmpty(t: BPlusTree)
    requires t.order >= 4 && t.root == null && t.metaSize == TREE_SIZE && t.dataSize == 0 && t.numEntries == 0
    requires t.lv == [[]] && t.nodes == {} && t.keys == {} && t.recs == []
    ensures Valid(t) && View(t) == map[] && Footprint(t) == {t}
  {
    EmptyValid(t);
    MapOfIs(t);
    ViewIs(t);
    assert View(t) == map[];
  }

  /** bptree.c bptree_create; memory may run out. */
  method Create(order: int) returns (t: BPlusTree?)
    ensures order <= 3 ==> t == null
    ensures t != null ==> Valid(t) && t.order == order && View(t) == map[] && t.metaSize == TREE_SIZE && fresh(Footprint(t))
  {
    if order <= 3 { return null; }
    if * { return null; }
    t := new BPlusTree(order);
    StartsEmpty(t);
  }

  /** Runs that start from nothing. */
  method RunAll(order: nat, ops: seq<Op>) returns (t: BPlusTree, results: seq<int>, ghost ms: seq<Moment>)
    requires order >= 4
    ensures Valid(t) && t.order == order && Trace(ops, results, ms) && ms[0].view == map[] && ms[|ops|] == MomentOf(t)
    ensures fresh(Footprint(t))
  {
    t := new BPlusTree(order);
    StartsEmpty(t);
    hide *;
    results, ms := Run(t, ops);
  }
}
