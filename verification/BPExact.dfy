/** Exact deletions: what a caller can check beforehand, and trees in which a deletion and a bounded pass go wrong. */
module BPExact {
  import opened CStrings
  import opened BPTypes
  import opened BPLevels
  import opened BPSteps
  import opened BPTree
  import opened BPInsert
  import opened BPFind
  import opened BPValid
  import opened BPLookup
  import opened BPLeafSteps
  import opened BPMap
  import opened BPIter
  import opened BPErase
  import opened BPRefine
  import opened BPRuns

  lemma {:induction false} CountOnce(c: Level, x: nat, rec: Record)
    requires x < |c| && c[x].p == ToRecord(rec)
    ensures Count(c, rec) >= 1
  {
    if x > 0 { CountOnce(c[1..], x - 1, rec); }
  }

  lemma {:induction false} CountTwice(c: Level, x: nat, y: nat, rec: Record)
    requires x < y < |c| && c[x].p == ToRecord(rec) && c[y].p == ToRecord(rec)
    ensures Count(c, rec) >= 2
  {
    if x > 0 { CountTwice(c[1..], x - 1, y - 1, rec); } else { CountOnce(c[1..], y - 1, rec); }
  }

  /** A key that shares its record with no other key is always deleted exactly; lookup tells by the reference count. */
  lemma SoleKeyExact(t: BPlusTree, key: string)
    requires Valid(t) && key in MapOf(t) && MapOf(t)[key].refCount == 1
    ensures DelExact(t.H(), t.lv, key)
  {
    hide *;
    ContentPart(t);
    MapOfIs(t);
    ValidParts(t);
    RefCountIs(t, key);
    var h, lv := t.H(), t.lv;
    if t.root == null {
      NothingToDelete(h, lv, key);
    } else {
      RootTree(h, lv, t.root, t.order, t.keys);
      LeafLevelOK(h, lv, t.root);
      forall p | 0 <= p < |lv[1]| ensures Aligned(V(h, lv[1][p].p), key) {
        SoleAligned(h, lv, key, p);
      }
      ExactIntro(h, lv, key);
    }
  }

  lemma RefCountIs(t: BPlusTree, key: string)
    requires Valid(t) && key in MapOf(t) && |t.lv| >= 1 && RecordCounts(t.lv[0], t.recs)
    ensures MapOf(t)[key].refCount == Count(t.lv[0], MapOf(t)[key])
  {
    hide MapOf, Valid, Count;
    Recorded(t);
  }

  lemma NothingToDelete(h: Heap, lv: seq<Level>, key: string)
    requires lv == [[]]
    ensures DelExact(h, lv, key)
  {
  }

  lemma ExactIntro(h: Heap, lv: seq<Level>, key: string)
    requires |lv| >= 2 && forall p :: 0 <= p < |lv[1]| ==> Aligned(V(h, lv[1][p].p), key)
    ensures DelExact(h, lv, key)
  {
    hide Aligned;
  }

  lemma RootTree(h: Heap, lv: seq<Level>, root: Node, order: nat, keys: set<Key>)
    requires Complete(h, lv, root, order, keys)
    ensures Tree(h, lv, root) && |lv| >= 2 && order >= 4 && Occupied(h, order, root)
    ensures lv[|lv| - 1] == [Entry(ToNode(root), null)]
  {
    hide LevelOK, Parents, Expand, Occupied, KeysKnown, Covered;
    assert Above(h, lv, root, |lv| - 1) == lv[|lv| - 1];
  }

  lemma SoleAligned(h: Heap, lv: seq<Level>, key: string, p: nat)
    requires |lv| >= 2 && LevelOK(h, lv[1], 1) && Expand(h, lv[1]) == lv[0] && ContentOK(lv[0]) && p < |lv[1]|
    requires key in AsMap(lv[0]) && Count(lv[0], AsMap(lv[0])[key]) == 1
    ensures Aligned(V(h, lv[1][p].p), key)
  {
    hide Expand, LevelOK, ContentOK, AsMap, Count, FirstOf;
    var c, v := lv[0], V(h, lv[1][p].p);
    var lo, n := LeafSlice(h, lv[1], c, p);
    forall i | 0 <= i < |v.ks| && v.ks[i] != null && v.ks[i].key == key && i < |v.ps| && v.ps[i] in v.ps
      ensures FirstOf(v.ps, v.ps[i]) >= i
    {
      var j := FirstOf(v.ps, v.ps[i]);
      assert c[lo + i] == Entry(v.ps[i], v.ks[i]) && c[lo + j] == Entry(v.ps[j], v.ks[j]);
      InMap(c, lo + i);
      RecordAt(c, lo + i);
      if j < i { CountTwice(c, lo + j, lo + i, c[lo + i].p.rec); }
    }
  }

  lemma RecordAt(c: Level, i: nat)
    requires ContentOK(c) && i < |c|
    ensures c[i].p.ToRecord? && c[i].s != null
  {
  }

  // ----- A deletion that goes wrong -----

  /** Up to three entries under order 4 are in one leaf. */
  lemma OneLeaf(h: Heap, lv: seq<Level>, root: Node, keys: set<Key>)
    requires Complete(h, lv, root, 4, keys) && |lv| >= 1 && |lv[0]| <= 3
    ensures |lv| >= 2 && |lv[1]| == 1
  {
    hide Linked, LevelOK, Parents, Expand, KeysKnown, Covered, Occupied;
    RootTree(h, lv, root, 4, keys);
    LeafLevelOK(h, lv, root);
    var l := lv[1];
    if |lv| > 2 {
      LinkedAt(h, lv, root, 0, lv[0], |lv| - 1);
      NodeAt(h, lv[|lv| - 1], 0, |lv| - 1);
      forall i | 0 <= i < |l| ensures |V(h, l[i].p).ps| >= 2 {
        NodeAt(h, l, i, 1);
        HalfFull(h, root, l[i].p.node);
      }
      RowsDouble(h, l);
      AboveOne(h, lv, root);
    }
  }

  lemma HalfFull(h: Heap, root: Node, n: Node)
    requires Occupied(h, 4, root) && n in h && n != root && h[n].level > 0 && h[n].leaf
    ensures |h[n].ks| >= 2
  {
  }

  /** Above a level of leaves there are at least two of them. */
  lemma AboveOne(h: Heap, lv: seq<Level>, root: Node)
    requires Tree(h, lv, root) && |lv| > 2 && Occupied(h, 4, root)
    ensures |lv[1]| >= 2
  {
    hide Linked, LevelOK, Parents, Expand, Occupied;
    LinkedAt(h, lv, root, 0, lv[0], 1);
    LinkedAt(h, lv, root, 0, lv[0], 2);
    var l := lv[2];
    forall i | 0 <= i < |l| ensures |V(h, l[i].p).ps| >= 2 {
      NodeAt(h, l, i, 2);
      SomeKey(h, root, l[i].p.node);
    }
    RowsDouble(h, l);
    NotEmpty(h, l, 2);
  }

  lemma SomeKey(h: Heap, root: Node, n: Node)
    requires Occupied(h, 4, root) && n in h && h[n].level > 0
    ensures |h[n].ks| >= 1
  {
  }

  lemma NotEmpty(h: Heap, l: Level, k: nat)
    requires LevelOK(h, l, k)
    ensures |l| > 0
  {
  }

  /** Deleting the last of three keys is not exact if the first one, and not the second, shares its record. */
  lemma NotExact(h: Heap, lv: seq<Level>, root: Node, keys: set<Key>)
    requires Complete(h, lv, root, 4, keys) && |lv| >= 1 && |lv[0]| == 3 && ContentOK(lv[0])
    requires lv[0][0].p == lv[0][2].p != lv[0][1].p
    ensures lv[0][2].s != null && !DelExact(h, lv, lv[0][2].s.key)
  {
    hide Linked, LevelOK, Parents, Expand, KeysKnown, Covered, Occupied, FirstOf;
    OneLeaf(h, lv, root, keys);
    RootTree(h, lv, root, 4, keys);
    LeafLevelOK(h, lv, root);
    var v := V(h, lv[1][0].p);
    var lo, n := LeafSlice(h, lv[1], lv[0], 0);
    FromTheFirst(h, lv[1]);
    assert forall j :: 0 <= j < 3 ==> lv[0][0 + j] == Entry(v.ps[j], v.ks[j]);
    assert v.ps[0] == v.ps[2] && v.ps[1] != v.ps[2] && v.ps[2] in v.ps;
    assert FirstOf(v.ps, v.ps[2]) == 0;
    assert !Aligned(v, lv[0][2].s.key);
  }

  lemma FromTheFirst(h: Heap, l: Level)
    requires |l| > 0
    ensures Lo(h, l, 0) == 0
  {
  }

  /** Three keys in order are three entries. */
  lemma ThreeKeys(c: Level, x: string, y: string, z: string)
    requires ContentOK(c) && AsMap(c).Keys == {x, y, z} && Strcmp(x, y) < 0 && Strcmp(y, z) < 0
    ensures |c| == 3 && c[0].s.key == x && c[1].s.key == y && c[2].s.key == z
    ensures AsMap(c)[x] == c[0].p.rec && AsMap(c)[y] == c[1].p.rec && AsMap(c)[z] == c[2].p.rec
  {
    hide AsMap, Rank, Strcmp;
    StrcmpIsRank(x, y);
    StrcmpIsRank(y, z);
    var i := KeyIndex(c, x);
    var j := KeyIndex(c, y);
    var k := KeyIndex(c, z);
    forall m | 0 <= m < |c| ensures Among(m, i, j, k) {
      InMap(c, m);
      SameKey(c, m, i);
      SameKey(c, m, j);
      SameKey(c, m, k);
    }
    Three(|c|, i, j, k);
  }

  predicate Among(m: nat, i: nat, j: nat, k: nat) {
    m == i || m == j || m == k
  }

  lemma Three(n: nat, i: nat, j: nat, k: nat)
    requires i < j < k < n && forall m: nat :: m < n ==> Among(m, i, j, k)
    ensures n == 3 && i == 0 && j == 1 && k == 2
  {
    assert Among(0, i, j, k);
    assert Among(1, i, j, k);
    assert Among(2, i, j, k);
    assert n > 3 ==> Among(3, i, j, k);
  }

  lemma SameKey(c: Level, m: nat, i: nat)
    requires ContentOK(c) && m < |c| && i < |c|
    ensures c[m].s != null && c[i].s != null && (c[m].s.key == c[i].s.key ==> m == i)
  {
    hide Rank;
  }

  lemma WrongVictim(t: BPlusTree)
    requires Valid(t) && t.order == 4 && MapOf(t).Keys == {"a", "b", "c"} && MapOf(t)["a"] == MapOf(t)["c"] != MapOf(t)["b"]
    ensures !DelExact(t.H(), t.lv, "c")
  {
    hide *;
    ContentPart(t);
    MapOfIs(t);
    ValidParts(t);
    Letters();
    ThreeKeys(t.lv[0], "a", "b", "c");
    RecordAt(t.lv[0], 0);
    RecordAt(t.lv[0], 1);
    RecordAt(t.lv[0], 2);
    NotExact(t.H(), t.lv, t.root, t.keys);
  }

  lemma Letters()
    ensures Strcmp("a", "b") < 0 && Strcmp("b", "c") < 0 && Strcmp("a", "c") < 0
  {
  }

  /** The smallest run into the failure: a, b, an alias c of a, and c is deleted. If the allocations succeed, all keys but c
      stay, and yet one of a and b shows another record than before. */
  method DeleteThroughAlias() returns (t: BPlusTree, results: seq<int>, ghost ms: seq<Moment>)
    ensures Trace([Op.Add("a", 1, 1), Op.Add("b", 2, 1), Op.Alias("a", "c", false), Op.Del("c")], results, ms)
    ensures Valid(t) && ms[0].view == map[] && MomentOf(t) == ms[4]
    ensures results[..3] == [0, 0, 0] ==>
      var v, v' := ms[3].view, ms[4].view;
      && v.Keys == {"a", "b", "c"} && v["a"].data == 1 && v["b"].data == 2 && v["c"] == v["a"]
      && v'.Keys == {"a", "b"} && (v'["a"] != v["a"] || v'["b"] != v["b"])
  {
    hide *;
    var ops := [Op.Add("a", 1, 1), Op.Add("b", 2, 1), Op.Alias("a", "c", false)];
    var last;
    ghost var end;
    t, results, ms := RunAll(4, ops);
    ViewIs(t);
    TraceIs(ops, results, ms);
    if results == [0, 0, 0] {
      ThreeOps(ops, results, ms);
      WrongVictim(t);
    }
    last, end := Run(t, [Op.Del("c")]);
    TraceIs([Op.Del("c")], last, end);
    if results == [0, 0, 0] { LastOp(last, end); }
    OneMoreOp(ops, results, ms, Op.Del("c"), last, end);
    assert ops + [Op.Del("c")] == [Op.Add("a", 1, 1), Op.Add("b", 2, 1), Op.Alias("a", "c", false), Op.Del("c")];
    results, ms := results + last, ms + end[1..];
  }

  lemma OneMoreOp(ops: seq<Op>, results: seq<int>, ms: seq<Moment>, op: Op, last: seq<int>, end: seq<Moment>)
    requires Trace(ops, results, ms) && Trace([op], last, end) && end[0] == ms[|ops|]
    ensures Trace(ops + [op], results + last, ms + end[1..])
  {
    hide Does;
    forall i | 0 <= i < |ops| + 1 ensures Does((ops + [op])[i], (ms + end[1..])[i], (ms + end[1..])[i + 1], (results + last)[i]) {
      assert if i < |ops| then Does(ops[i], ms[i], ms[i + 1], results[i]) else Does([op][0], end[0], end[1], last[0]);
    }
  }

  lemma ThreeOps(ops: seq<Op>, results: seq<int>, ms: seq<Moment>)
    requires ops == [Op.Add("a", 1, 1), Op.Add("b", 2, 1), Op.Alias("a", "c", false)] && Trace(ops, results, ms)
    requires ms[0].view == map[] && results == [0, 0, 0]
    ensures var v := ms[3].view;
      && v.Keys == {"a", "b", "c"} && v["a"].data == 1 && v["b"].data == 2 && v["c"] == v["a"] && v["a"].rec != v["b"].rec
  {
    assert Does(ops[0], ms[0], ms[1], 0) && Does(ops[1], ms[1], ms[2], 0) && Does(ops[2], ms[2], ms[3], 0);
    assert ms[1].view.Keys == {"a"};
    assert ms[2].view.Keys == {"a", "b"};
  }

  lemma LastOp(results: seq<int>, ms: seq<Moment>)
    requires Trace([Op.Del("c")], results, ms) && ms[0].view.Keys == {"a", "b", "c"} && !DelExact(ms[0].h, ms[0].lv, "c")
    ensures var v, v' := ms[0].view, ms[1].view;
      v'.Keys == {"a", "b"} && (v'["a"] != v["a"] || v'["b"] != v["b"])
  {
    hide DelExact;
    assert Does(Op.Del("c"), ms[0], ms[1], results[0]);
    var v, v' := ms[0].view, ms[1].view;
    assert v'.Keys == {"a", "b"};
    if v'["a"] == v["a"] && v'["b"] == v["b"] { OnlyThat(v, v'); }
  }

  lemma OnlyThat(v: Entries, v': Entries)
    requires v.Keys == {"a", "b", "c"} && v'.Keys == {"a", "b"} && v'["a"] == v["a"] && v'["b"] == v["b"]
    ensures v' == v - {"c"}
  {
  }

  // ----- A pass that goes wrong -----

  /** Two keys in order are two entries. */
  lemma TwoKeys(c: Level, x: string, y: string)
    requires ContentOK(c) && AsMap(c).Keys == {x, y} && Strcmp(x, y) < 0
    ensures |c| == 2 && c[0].s.key == x && c[1].s.key == y
  {
    hide AsMap, Rank, Strcmp;
    StrcmpIsRank(x, y);
    var i := KeyIndex(c, x);
    var j := KeyIndex(c, y);
    forall m | 0 <= m < |c| ensures Among(m, i, j, j) {
      InMap(c, m);
      SameKey(c, m, i);
      SameKey(c, m, j);
    }
    Two(|c|, i, j);
  }

  lemma Two(n: nat, i: nat, j: nat)
    requires i < j < n && forall m: nat :: m < n ==> Among(m, i, j, j)
    ensures n == 2 && i == 0 && j == 1
  {
    assert Among(0, i, j, j);
    assert Among(1, i, j, j);
    assert n > 2 ==> Among(2, i, j, j);
  }

  lemma TwoOps(ops: seq<Op>, results: seq<int>, ms: seq<Moment>)
    requires ops == [Op.Add("a", 1, 1), Op.Add("c", 3, 1)] && Trace(ops, results, ms) && ms[0].view == map[] && results == [0, 0]
    ensures ms[2].view.Keys == {"a", "c"}
  {
    assert Does(ops[0], ms[0], ms[1], 0) && Does(ops[1], ms[1], ms[2], 0);
    assert ms[1].view.Keys == {"a"};
  }

  lemma TwoInOneLeaf(t: BPlusTree)
    requires Valid(t) && t.order == 4 && MapOf(t).Keys == {"a", "c"}
    ensures t.root != null && |t.lv| >= 2 && |t.lv[1]| == 1 && Lo(t.H(), t.lv[1], 0) == 0
    ensures |t.lv[0]| == 2 && ContentOK(t.lv[0]) && t.lv[0][0].s.key == "a" && t.lv[0][1].s.key == "c"
  {
    hide *;
    ContentPart(t);
    MapOfIs(t);
    ValidParts(t);
    Letters();
    TwoKeys(t.lv[0], "a", "c");
    assert t.lv != [[]];
    OneLeaf(t.H(), t.lv, t.root, t.keys);
    FromTheFirst(t.H(), t.lv[1]);
  }

  /** A pass from "b" over the keys "a" and "c" of one leaf shows both. */
  lemma ShowsBoth(h: Heap, lv: seq<Level>, d0: nat, trace: seq<Visit>)
    requires |lv| >= 2 && |lv[1]| == 1 && Lo(h, lv[1], 0) == 0
    requires |lv[0]| == 2 && ContentOK(lv[0]) && lv[0][0].s.key == "a" && lv[0][1].s.key == "c"
    requires Begins(h, lv, Exact, Some("b"), d0) && Delivers(lv[0], d0, trace)
    requires StopsAt(lv[0], Exact, Some("b"), None, d0, d0 + |trace|)
    ensures |trace| == 2 && trace[0].key == "a" && trace[1].key == "c" && !Exactly(lv[0], Some("b"), None, d0, d0 + |trace|)
  {
    hide Rank, Lo;
    assert forall m :: 0 <= m < 2 ==> !Matches(Exact, "b", lv[0][m].s.key);
    assert d0 == 0;
    assert |trace| == 2;
    Letters();
    StrcmpIsRank("a", "b");
    assert !InRange(Some("b"), None, lv[0][0].s.key);
  }

  /** bptree.c bptree_iter_create with a start key and no end key. */
  method CreateIter(t: BPlusTree, start: string) returns (it: Iter)
    requires Valid(t)
    ensures fresh(it) && it.tree == t && it.how == Exact && it.keyStart == Some(start) && it.keyEnd == None && it.c == null
    ensures Valid(t) && StateOf(t) == old(StateOf(t))
  {
    hide *;
    ghost var arrays := Arrays(t.nodes);
    FootprintKnown(t);
    StateParts(t);
    it := new Iter(t, Exact, Some(start), None);
    assert it !in arrays;
    StateParts(t);
  }

  lemma FootprintKnown(t: BPlusTree)
    ensures forall o :: o in Arrays(t.nodes) ==> allocated(o)
  {
  }

  /** The smallest bounded pass that shows too much: the keys "a" and "c" are in one leaf, and a pass from "b" on begins at
      "a". */
  method PassFromAbsentKey() returns (t: BPlusTree, results: seq<int>, trace: seq<Visit>, ghost d0: nat)
    ensures Valid(t) && |results| == 2
    ensures results == [0, 0] ==>
      && |trace| == 2 && trace[0].key == "a" && trace[1].key == "c"
      && |t.lv| >= 1 && ContentOK(t.lv[0]) && !Exactly(t.lv[0], Some("b"), None, d0, d0 + |trace|)
  {
    hide *;
    var ops := [Op.Add("a", 1, 1), Op.Add("c", 3, 1)];
    ghost var ms;
    t, results, ms := RunAll(4, ops);
    ViewIs(t);
    TraceIs(ops, results, ms);
    if results == [0, 0] {
      TwoOps(ops, results, ms);
      TwoInOneLeaf(t);
    }
    StateParts(t);
    var it := CreateIter(t, "b");
    StateParts(t);
    trace, d0 := Pass(it);
    StateParts(t);
    if results == [0, 0] { ShowsBoth(t.H(), t.lv, d0, trace); }
  }
}
