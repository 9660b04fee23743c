/** Iteration: bounded passes and prefix passes over the chained leaves. */
module BPIter {
  import opened CStrings
  import opened BPTypes
  import opened BPLevels
  import opened BPSteps
  import opened BPTree
  import opened BPInsert
  import opened BPFind
  import opened BPValid
  import opened BPLookup
  import opened BPLeafSteps
  import opened BPMap
  import opened BPSettle
  import opened BPDelete

  /** An iterator: the search method, the bounds and the current leaf slot. `p` is the position of leaf `c`. */
  class Iter {
    const tree: BPlusTree
    const how: LookupMethod
    const keyStart: Option<string>
    const keyEnd: Option<string>
    var c: Node?
    var i: nat
    ghost var p: nat

    constructor (tree: BPlusTree, how: LookupMethod, keyStart: Option<string>, keyEnd: Option<string>)
      requires how.Prefix? ==> keyStart.Some? && keyEnd.None?
      ensures this.tree == tree && this.how == how && this.keyStart == keyStart && this.keyEnd == keyEnd && c == null
    {
      this.tree, this.how, this.keyStart, this.keyEnd := tree, how, keyStart, keyEnd;
      c, i, p := null, 0, 0;
    }
  }

  /** The iterator stands at position d of the content. */
  ghost predicate At(it: Iter, h: Heap, lv: seq<Level>, d: nat)
    reads it
  {
    && |lv| >= 2 && it.c != null && it.p < |lv[1]| && lv[1][it.p].p == ToNode(it.c) && it.c in h
    && it.i < |h[it.c].ks| && d == Lo(h, lv[1], it.p) + it.i
  }

  /** The iterator's bounds admit a key. */
  ghost predicate Admits(how: LookupMethod, start: Option<string>, end: Option<string>, key: string) {
    match how
    case Exact => end.Some? ==> Rank(key) <= Rank(end.value)
    case Prefix => start.Some? ==> start.value <= key
  }

  /** Where a pass begins: at the first entry, at the entry of the start key, at the first entry with the prefix, and
      otherwise at slot 0 of the leaf that would hold the key. */
  ghost predicate Begins(h: Heap, lv: seq<Level>, how: LookupMethod, start: Option<string>, d: nat) {
    && |lv| >= 2 && ContentOK(lv[0]) && d < |lv[0]|
    && if start.None? then d == 0
       else if exists m :: 0 <= m < |lv[0]| && Matches(how, start.value, lv[0][m].s.key)
       then Matches(how, start.value, lv[0][d].s.key) && forall m :: 0 <= m < d ==> !Matches(how, start.value, lv[0][m].s.key)
       else exists p :: Covers(lv[1], p, start.value) && d == Lo(h, lv[1], p)
  }

  // ----- The leaves as the iterator sees them -----

  /** A leaf of a valid tree is not empty; its slots are content; the chain leads to the next one. */
  lemma LeafView(h: Heap, lv: seq<Level>, root: Node?, order: nat, keys: set<Key>, p: nat, leaf: Node) returns (lo: nat, n: nat)
    requires root != null && Structure(h, lv, root, order, keys) && |lv| >= 2 && p < |lv[1]| && lv[1][p].p == ToNode(leaf)
    ensures leaf in h && NodeOK(h, ToNode(leaf), 1) && LeafAt(h, lv[1], lv[0], p, lo, n) && n > 0 && ContentOK(lv[0])
    ensures h[leaf].next == NextPtr(lv[1], p) && n == |h[leaf].ks|
    ensures p + 1 < |lv[1]| ==> Lo(h, lv[1], p + 1) == lo + n && lv[1][p + 1].p.ToNode?
    ensures p + 1 == |lv[1]| ==> |lv[0]| == lo + n
  {
    hide Linked, LevelOK, Parents, Expand, KeysKnown, Covered, LeafSeps, ContentOK;
    LeafLevelOK(h, lv, root);
    lo, n := LeafSlice(h, lv[1], lv[0], p);
    NodeAt(h, lv[1], p, 1);
    if p + 1 < |lv[1]| { NodeAt(h, lv[1], p + 1, 1); }
  }

  lemma FirstLeafIs(h: Heap, lv: seq<Level>, root: Node?, order: nat, keys: set<Key>)
    requires root != null && Structure(h, lv, root, order, keys)
    ensures |lv| >= 2 && |lv[1]| > 0 && Lo(h, lv[1], 0) == 0
  {
    hide Linked, LevelOK, Parents, KeysKnown, Covered, LeafSeps, ContentOK, Occupied, Chain;
    LeafLevelOK(h, lv, root);
    FirstLeaf(h, lv[1]);
    LevelNonEmpty(h, lv[1], 1);
  }

  lemma LevelNonEmpty(h: Heap, l: Level, k: nat)
    requires LevelOK(h, l, k)
    ensures |l| > 0
  {
  }

  /** The first slot of a level's first node is the first node of the level below. */
  lemma DownLeft(h: Heap, lv: seq<Level>, root: Node?, order: nat, keys: set<Key>, k: nat, c: Node) returns (d: Node)
    requires root != null && Structure(h, lv, root, order, keys) && 2 <= k < |lv| && |lv[k]| > 0 && lv[k][0].p == ToNode(c)
    ensures NodeOK(h, ToNode(c), k) && |h[c].ps| > 0 && h[c].ps[0] == ToNode(d)
    ensures |lv[k - 1]| > 0 && lv[k - 1][0].p == ToNode(d) && NodeOK(h, ToNode(d), k - 1)
  {
    hide Linked, LevelOK, Parents, Expand, KeysKnown, Covered, LeafSeps, ContentOK, Occupied, Chain;
    LinkedAt(h, lv, root, 0, lv[0], k);
    LinkedAt(h, lv, root, 0, lv[0], k - 1);
    NodeAt(h, lv[k], 0, k);
    SlotAt(h, lv[k], 0, 0);
    ExpandNone(h, lv[k]);
    LevelNonEmpty(h, lv[k - 1], k - 1);
    NodeAt(h, lv[k - 1], 0, k - 1);
    d := lv[k - 1][0].p.node;
  }

  lemma TopNode(h: Heap, lv: seq<Level>, root: Node?, order: nat, keys: set<Key>)
    requires root != null && Structure(h, lv, root, order, keys)
    ensures |lv| >= 2 && |lv[|lv| - 1]| > 0 && lv[|lv| - 1][0].p == ToNode(root) && NodeOK(h, ToNode(root), |lv| - 1)
  {
    hide LevelOK, Parents, Expand, KeysKnown, Covered, LeafSeps, ContentOK, Occupied, Chain;
    RootLevel0(h, lv, root);
    LinkedAt(h, lv, root, 0, lv[0], |lv| - 1);
    NodeAt(h, lv[|lv| - 1], 0, |lv| - 1);
  }

  /** bptree.c _get_first_leaf_node and bptree_get_height in one descent: every leaf is as deep as the first one. */
  method GetFirstLeafNode(t: BPlusTree) returns (c: Node?, height: nat)
    requires Valid(t)
    ensures Valid(t) && StateOf(t) == old(StateOf(t))
    ensures t.root == null <==> c == null
    ensures c != null ==> |t.lv| >= 2 && |t.lv[1]| > 0 && t.lv[1][0].p == ToNode(c) && c in t.nodes && c.Shape(t.order) && c.isLeaf
    ensures height == if t.root == null then 0 else |t.lv| - 2
  {
    hide *;
    StateParts(t);
    ValidParts(t);
    height := 0;
    c := t.root;
    if c == null { return; }
    ContentPart(t);
    ghost var h, k := t.H(), |t.lv| - 1;
    SnapAll(t);
    TopNode(h, t.lv, t.root, t.order, t.keys);
    NodeIn(t, c, k);
    while !c.isLeaf
      invariant c != null && c in t.nodes && c.Shape(t.order) && 1 <= k < |t.lv| && height + k == |t.lv| - 1
      invariant |t.lv[k]| > 0 && t.lv[k][0].p == ToNode(c) && NodeOK(h, ToNode(c), k) && c.isLeaf == (k == 1)
      invariant forall m :: m in t.nodes ==> m.Val() == h[m]
      decreases k
    {
      ghost var d := DownLeft(h, t.lv, t.root, t.order, t.keys, k, c);
      SnapSame(t, h);
      NodeIn(t, c, k);
      FirstSlot(t.order, c);
      NodeIn(t, d, k - 1);
      c := c.pointers[0].node;
      height := height + 1;
      k := k - 1;
    }
    SnapSame(t, h);
    ValidIntro(t);
    StateParts(t);
  }

  // ----- The first entry of a pass -----

  lemma NotBelow(how: LookupMethod, key: string, k: string)
    requires Rank(k) < Rank(key)
    ensures !Matches(how, key, k)
  {
    StrcmpIsRank(key, k);
    if key <= k { PrefixIsBelow(key, k); }
  }

  lemma FoundBegins(h: Heap, lv: seq<Level>, root: Node?, order: nat, keys: set<Key>, how: LookupMethod, key: string, rec: Record?,
                    leaf: Node, i: nat, bkey: Key?, p: nat) returns (d: nat)
    requires root != null && Structure(h, lv, root, order, keys)
    requires FindOutcome(h, lv, how, key, rec, leaf, i, bkey, p)
    ensures |lv| >= 2 && p < |lv[1]| && lv[1][p].p == ToNode(leaf) && leaf in h && i < |h[leaf].ks| && d == Lo(h, lv[1], p) + i
    ensures Begins(h, lv, how, Some(key), d)
  {
    hide *;
    OutcomeParts(h, lv, how, key, rec, leaf, i, bkey, p);
    var lo, n := Located(h, lv, root, order, keys, p, leaf, key);
    var lo', n' := LeafView(h, lv, root, order, keys, p, leaf);
    LocatesParts(h, lv, p, key, lo, n);
    LeafAtParts(h, lv[1], lv[0], p, lo, n, leaf);
    LeafAtParts(h, lv[1], lv[0], p, lo', n', leaf);
    d := lo + i;
    var c, ks := lv[0], h[leaf].ks;
    forall m | 0 <= m < lo ensures !Matches(how, key, c[m].s.key) { NotBelow(how, key, c[m].s.key); }
    KeysHere(c, h[leaf].ps, ks, lo, n);
    if rec == null {
      forall m | 0 <= m < |c| ensures !Matches(how, key, c[m].s.key) {
        if m >= lo + n { NothingBeyond(h, lv, how, key, p, lo, n, m); }
      }
      BeginsAbsent(h, lv, how, key, p);
    } else {
      BeginsFound(h, lv, how, key, d);
    }
  }

  lemma KeysHere(c: Level, ps: seq<Ptr>, ks: seq<Key?>, lo: nat, n: nat)
    requires lo + n <= |c| && n == |ps| == |ks| && forall j :: 0 <= j < n ==> c[lo + j] == Entry(ps[j], ks[j])
    ensures forall m :: lo <= m < lo + n ==> c[m].s == ks[m - lo]
  {
    forall m | lo <= m < lo + n ensures c[m].s == ks[m - lo] { assert c[lo + (m - lo)] == Entry(ps[m - lo], ks[m - lo]); }
  }

  lemma BeginsFound(h: Heap, lv: seq<Level>, how: LookupMethod, key: string, d: nat)
    requires |lv| >= 2 && ContentOK(lv[0]) && d < |lv[0]|
    requires Matches(how, key, lv[0][d].s.key) && forall m :: 0 <= m < d ==> !Matches(how, key, lv[0][m].s.key)
    ensures Begins(h, lv, how, Some(key), d)
  {
  }

  lemma BeginsAbsent(h: Heap, lv: seq<Level>, how: LookupMethod, key: string, p: nat)
    requires |lv| >= 2 && ContentOK(lv[0]) && Covers(lv[1], p, key) && p < |lv[1]| && Lo(h, lv[1], p) < |lv[0]|
    requires forall m :: 0 <= m < |lv[0]| ==> !Matches(how, key, lv[0][m].s.key)
    ensures Begins(h, lv, how, Some(key), Lo(h, lv[1], p))
  {
  }

  lemma OutcomeParts(h: Heap, lv: seq<Level>, how: LookupMethod, key: string, rec: Record?, leaf: Node, i: nat, bkey: Key?, p: nat)
    requires FindOutcome(h, lv, how, key, rec, leaf, i, bkey, p)
    ensures |lv| >= 2 && p < |lv[1]| && lv[1][p].p == ToNode(leaf) && leaf in h && Covers(lv[1], p, key) && null !in h[leaf].ks
    ensures StandsAt(h, lv, 1, p, leaf, key)
    ensures rec == null ==> i == 0 && forall j :: 0 <= j < |h[leaf].ks| ==> !Matches(how, key, h[leaf].ks[j].key)
    ensures rec != null ==> i < |h[leaf].ks| && Matches(how, key, h[leaf].ks[i].key)
    ensures rec != null ==> forall j :: 0 <= j < i ==> !Matches(how, key, h[leaf].ks[j].key)
  {
    hide Matches, Rank;
  }

  lemma LocatesParts(h: Heap, lv: seq<Level>, p: nat, key: string, lo: nat, n: nat)
    requires Locates(h, lv, p, key, lo, n)
    ensures |lv| >= 2 && LeafAt(h, lv[1], lv[0], p, lo, n) && ContentOK(lv[0])
    ensures forall m :: 0 <= m < |lv[0]| ==> lv[0][m].s != null && lv[0][m].p.ToRecord?
    ensures forall m :: 0 <= m < lo ==> Rank(lv[0][m].s.key) < Rank(key)
  {
  }

  /** If the covering leaf has no match, no later leaf has one. */
  lemma NothingBeyond(h: Heap, lv: seq<Level>, how: LookupMethod, key: string, p: nat, lo: nat, n: nat, m: nat)
    requires Locates(h, lv, p, key, lo, n) && lo + n <= m < |lv[0]| && n > 0
    requires !Matches(how, key, lv[0][lo + n - 1].s.key)
    ensures !Matches(how, key, lv[0][m].s.key)
  {
    StrcmpIsRank(key, lv[0][m].s.key);
    if how.Prefix? && key <= lv[0][m].s.key {
      assert Rank(lv[0][lo + n - 1].s.key) < Rank(lv[0][m].s.key);
      PrefixInterval(key, lv[0][lo + n - 1].s.key, lv[0][m].s.key);
    }
  }

  /** bptree.c bptree_iter_next, the start of a pass */
  method First(it: Iter) returns (ghost d: nat)
    requires Valid(it.tree) && (it.how.Prefix? ==> it.keyStart.Some?)
    modifies it
    ensures Valid(it.tree) && StateOf(it.tree) == old(StateOf(it.tree))
    ensures it.c == null <==> it.tree.root == null
    ensures it.c != null ==> At(it, it.tree.H(), it.tree.lv, d) && Begins(it.tree.H(), it.tree.lv, it.how, it.keyStart, d)
    ensures it.c != null ==> it.c in it.tree.nodes && it.c.Shape(it.tree.order) && it.c.isLeaf
  {
    hide *;
    var t := it.tree;
    StateParts(t);
    ValidParts(t);
    ContentPart(t);
    ItApart(it);
    d := 0;
    if it.keyStart.Some? {
      var rec, leaf, i, bkey;
      ghost var p;
      rec, leaf, i, bkey, p := Find(t, it.keyStart.value, it.how);
      ValidIntro(t);
      StateParts(t);
      it.c, it.i, it.p := leaf, i, p;
      if leaf != null {
        d := FoundBegins(t.H(), t.lv, t.root, t.order, t.keys, it.how, it.keyStart.value, rec, leaf, i, bkey, p);
        AtIntro(it, t.H(), t.lv, d);
        SomeIs(it.keyStart);
      }
    } else {
      var c, height := GetFirstLeafNode(t);
      StateParts(t);
      it.c, it.i, it.p := c, 0, 0;
      if c != null {
        ValidParts(t);
        FirstLeafIs(t.H(), t.lv, t.root, t.order, t.keys);
        ghost var lo, n := LeafView(t.H(), t.lv, t.root, t.order, t.keys, 0, c);
        LeafAtParts(t.H(), t.lv[1], t.lv[0], 0, lo, n, c);
        AtIntro(it, t.H(), t.lv, 0);
        BeginsNone(t.H(), t.lv, it.how);
      }
    }
    ValidIntro(t);
    StateParts(t);
  }

  lemma SomeIs<T>(x: Option<T>)
    requires x.Some?
    ensures x == Some(x.value)
  {
  }

  lemma ItApart(it: Iter)
    ensures it !in Arrays(it.tree.nodes)
  {
  }

  lemma AtIntro(it: Iter, h: Heap, lv: seq<Level>, d: nat)
    requires |lv| >= 2 && it.c != null && it.p < |lv[1]| && lv[1][it.p].p == ToNode(it.c) && it.c in h
    requires it.i < |h[it.c].ks| && d == Lo(h, lv[1], it.p) + it.i
    ensures At(it, h, lv, d)
  {
  }

  lemma AtParts(it: Iter, h: Heap, lv: seq<Level>, d: nat)
    requires At(it, h, lv, d)
    ensures |lv| >= 2 && it.c != null && it.p < |lv[1]| && lv[1][it.p].p == ToNode(it.c) && it.c in h
    ensures it.i < |h[it.c].ks| && d == Lo(h, lv[1], it.p) + it.i
  {
  }

  lemma LeafAtParts(h: Heap, l: Level, c: Level, p: nat, lo: nat, n: nat, leaf: Node)
    requires LeafAt(h, l, c, p, lo, n) && l[p].p == ToNode(leaf) && leaf in h
    ensures lo == Lo(h, l, p) && n == |h[leaf].ks| == |h[leaf].ps| && lo + n <= |c|
    ensures forall j :: 0 <= j < n ==> c[lo + j] == Entry(h[leaf].ps[j], h[leaf].ks[j])
  {
  }

  lemma BeginsNone(h: Heap, lv: seq<Level>, how: LookupMethod)
    requires |lv| >= 2 && ContentOK(lv[0]) && |lv[0]| > 0
    ensures Begins(h, lv, how, None, 0)
  {
  }

  // ----- One step -----

  /** bptree.c bptree_iter_next: the step to the candidate entry, before the bounds are looked at. */
  method Advance(it: Iter, ghost d0: nat) returns (ghost d: nat)
    requires Valid(it.tree) && it.c != null && At(it, it.tree.H(), it.tree.lv, d0)
    modifies it
    ensures Valid(it.tree) && StateOf(it.tree) == old(StateOf(it.tree)) && d == d0 + 1 && |it.tree.lv| >= 1
    ensures it.c == null <==> d == |it.tree.lv[0]|
    ensures it.c != null ==> At(it, it.tree.H(), it.tree.lv, d) && it.c in it.tree.nodes && it.c.Shape(it.tree.order) && it.c.isLeaf
  {
    hide *;
    var t := it.tree;
    ghost var h, lv := t.H(), t.lv;
    StateParts(t);
    ValidParts(t);
    ContentPart(t);
    AtParts(it, h, lv, d0);
    RootThere(t);
    ghost var lo, n := LeafView(h, lv, t.root, t.order, t.keys, it.p, it.c);
    LeafAtParts(h, lv[1], lv[0], it.p, lo, n, it.c);
    NodeIn(t, it.c, 1);
    SizesOf(it.c, t.order);
    ValOf(it.c, t.order);
    ItApart(it);
    d := d0 + 1;
    if it.i < it.c.numKeys - 1 {
      it.i := it.i + 1;
      AtIntro(it, h, lv, d);
    } else {
      var next := it.c.pointers[t.order - 1];
      NextIs(lv[1], it.p);
      it.c := if next.ToNode? then next.node else null;
      it.i := 0;
      it.p := it.p + 1;
      if it.c != null {
        ghost var lo', n' := LeafView(h, lv, t.root, t.order, t.keys, it.p, it.c);
        LeafAtParts(h, lv[1], lv[0], it.p, lo', n', it.c);
        NodeIn(t, it.c, 1);
        AtIntro(it, h, lv, d);
      }
    }
    ValidIntro(t);
    StateParts(t);
  }

  lemma RootThere(t: BPlusTree)
    requires Valid(t) && |t.lv| >= 2
    ensures t.root != null
  {
    hide Allocated, Complete, ContentOK, LeafSeps, Chain, KeyCounts, RecordCounts, Sizes;
  }

  lemma NextIs(l: Level, p: nat)
    requires p < |l|
    ensures p + 1 < |l| ==> NextPtr(l, p) == l[p + 1].p
    ensures p + 1 == |l| ==> NextPtr(l, p) == Null
    ensures NextPtr(l, p).ToNode? && p + 1 < |l| ==> l[p + 1].p == ToNode(NextPtr(l, p).node)
  {
  }

  lemma AdmitsTest(how: LookupMethod, start: Option<string>, end: Option<string>, key: string)
    ensures Admits(how, start, end, key) <==>
      match how
      case Exact => end.None? || Strcmp(key, end.value) <= 0
      case Prefix => start.None? || SameUpTo(key, start.value, |start.value|)
  {
    if end.Some? { StrcmpIsRank(key, end.value); }
    if start.Some? { PrefixTest(start.value, key); }
  }

  lemma LeafEntry(h: Heap, lv: seq<Level>, root: Node?, order: nat, keys: set<Key>, p: nat, leaf: Node, i: nat, d: nat)
    requires root != null && Structure(h, lv, root, order, keys) && |lv| >= 2 && p < |lv[1]| && lv[1][p].p == ToNode(leaf)
    requires leaf in h && i < |h[leaf].ks| && d == Lo(h, lv[1], p) + i
    ensures NodeOK(h, ToNode(leaf), 1) && |h[leaf].ps| == |h[leaf].ks| && d < |lv[0]| && ContentOK(lv[0])
    ensures lv[0][d] == Entry(h[leaf].ps[i], h[leaf].ks[i]) && h[leaf].ps[i].ToRecord? && h[leaf].ks[i] != null
  {
    hide *;
    var lo, n := LeafView(h, lv, root, order, keys, p, leaf);
    LeafAtParts(h, lv[1], lv[0], p, lo, n, leaf);
    ContentEntry(lv[0], d);
  }

  lemma ContentEntry(c: Level, d: nat)
    requires ContentOK(c) && d < |c|
    ensures c[d].p.ToRecord? && c[d].s != null
  {
  }

  /** Position d is delivered if it exists and the bounds admit its key. */
  ghost predicate Candidate(c: Level, how: LookupMethod, start: Option<string>, end: Option<string>, d: nat, key: Option<string>, rec: Record?) {
    && ContentOK(c) && d <= |c|
    && if key.Some?
       then d < |c| && rec != null && key.value == c[d].s.key && rec == c[d].p.rec && Admits(how, start, end, c[d].s.key)
       else rec == null && (d < |c| ==> !Admits(how, start, end, c[d].s.key))
  }

  lemma CandidateIntro(c: Level, how: LookupMethod, start: Option<string>, end: Option<string>, d: nat, key: Option<string>, rec: Record?)
    requires ContentOK(c) && d <= |c|
    requires key.Some? ==>
      d < |c| && c[d].s != null && c[d].p.ToRecord? && rec != null && key.value == c[d].s.key && rec == c[d].p.rec && Admits(how, start, end, c[d].s.key)
    requires key.None? ==> rec == null && (d < |c| ==> c[d].s != null && !Admits(how, start, end, c[d].s.key))
    ensures Candidate(c, how, start, end, d, key, rec)
  {
  }

  /** bptree.c bptree_iter_next and bptree_iter_current. `d` is the candidate position; it is delivered if it exists and
      the bounds admit its key, and otherwise the iterator is reset. */
  method Next(it: Iter, ghost d0: nat) returns (key: Option<string>, rec: Record?, ghost d: nat)
    requires Valid(it.tree) && (it.how.Prefix? ==> it.keyStart.Some?)
    requires it.c != null ==> At(it, it.tree.H(), it.tree.lv, d0)
    modifies it
    ensures Valid(it.tree) && StateOf(it.tree) == old(StateOf(it.tree)) && |it.tree.lv| >= 1 && ContentOK(it.tree.lv[0])
    ensures old(it.c) != null ==> d == d0 + 1 && it.tree.root != null && d <= |it.tree.lv[0]|
    ensures old(it.c) == null && it.tree.root != null ==> Begins(it.tree.H(), it.tree.lv, it.how, it.keyStart, d) && d < |it.tree.lv[0]|
    ensures it.tree.root != null ==> Candidate(it.tree.lv[0], it.how, it.keyStart, it.keyEnd, d, key, rec)
    ensures it.c != null <==> key.Some?
    ensures it.tree.root == null ==> it.c == null
    ensures it.c != null ==> At(it, it.tree.H(), it.tree.lv, d)
  {
    hide *;
    key, rec := None, null;
    var t := it.tree;
    StateParts(t);
    ContentPart(t);
    if it.c != null {
      AtParts(it, t.H(), t.lv, d0);
      RootThere(t);
      PositionBound(t, it, d0);
      d := Advance(it, d0);
    } else {
      d := First(it);
      if it.c != null { BeginsBound(t.H(), t.lv, it.how, it.keyStart, d); }
    }
    StateParts(t);
    if it.c != null {
      ValidParts(t);
      AtParts(it, t.H(), t.lv, d);
      LeafEntry(t.H(), t.lv, t.root, t.order, t.keys, it.p, it.c, it.i, d);
      NodeIn(t, it.c, 1);
      SizesOf(it.c, t.order);
      ValOf(it.c, t.order);
      assert it.c.bkeys[it.i] == it.c.Val().ks[it.i] && it.c.pointers[it.i] == it.c.Val().ps[it.i];
      var k := it.c.bkeys[it.i].key;
      AdmitsTest(it.how, it.keyStart, it.keyEnd, k);
      var stop := match it.how
        case Exact => it.keyEnd.Some? && Strcmp(k, it.keyEnd.value) > 0
        case Prefix => it.keyStart.Some? && !SameUpTo(k, it.keyStart.value, |it.keyStart.value|);
      if stop {
        ItApart(it);
        it.c, it.i := null, 0;
      } else {
        key, rec := Some(k), it.c.pointers[it.i].rec;
      }
      ValidIntro(t);
      StateParts(t);
    }
    if t.root != null { CandidateIntro(t.lv[0], it.how, it.keyStart, it.keyEnd, d, key, rec); }
  }

  lemma BeginsBound(h: Heap, lv: seq<Level>, how: LookupMethod, start: Option<string>, d: nat)
    requires Begins(h, lv, how, start, d)
    ensures |lv| >= 1 && d < |lv[0]|
  {
  }

  lemma PositionBound(t: BPlusTree, it: Iter, d: nat)
    requires Valid(t) && t.root != null && At(it, t.H(), t.lv, d)
    ensures |t.lv| >= 1 && d < |t.lv[0]|
  {
    hide *;
    ValidParts(t);
    AtParts(it, t.H(), t.lv, d);
    LeafEntry(t.H(), t.lv, t.root, t.order, t.keys, it.p, it.c, it.i, d);
  }

  // ----- A whole pass -----

  datatype Visit = Visit(key: string, rec: Record)

  /** The visits are the content from d on, in order. */
  ghost predicate Delivers(c: Level, d: nat, trace: seq<Visit>) {
    && ContentOK(c) && d + |trace| <= |c|
    && forall x :: 0 <= x < |trace| ==> trace[x] == Visit(c[d + x].s.key, c[d + x].p.rec)
  }

  /** The pass stops at d1: at the end, or at the first key out of bounds. */
  ghost predicate StopsAt(c: Level, how: LookupMethod, start: Option<string>, end: Option<string>, d0: nat, d1: nat) {
    && ContentOK(c) && d0 <= d1 <= |c|
    && (forall m :: d0 <= m < d1 ==> Admits(how, start, end, c[m].s.key))
    && (d1 < |c| ==> !Admits(how, start, end, c[d1].s.key))
  }

  /** The loop of bptree_iter: every entry from the beginning of the pass to its stop, once and in order. */
  method Pass(it: Iter) returns (trace: seq<Visit>, ghost d0: nat)
    requires Valid(it.tree) && it.c == null && (it.how.Prefix? ==> it.keyStart.Some?)
    modifies it
    ensures Valid(it.tree) && StateOf(it.tree) == old(StateOf(it.tree)) && it.c == null
    ensures it.tree.root == null ==> trace == []
    ensures it.tree.root != null ==> |it.tree.lv| >= 1 && Begins(it.tree.H(), it.tree.lv, it.how, it.keyStart, d0)
    ensures it.tree.root != null ==>
      Delivers(it.tree.lv[0], d0, trace) && StopsAt(it.tree.lv[0], it.how, it.keyStart, it.keyEnd, d0, d0 + |trace|)
  {
    hide *;
    var t := it.tree;
    StateParts(t);
    trace, d0 := [], 0;
    var key, rec;
    ghost var d;
    key, rec, d := Next(it, 0);
    StateParts(t);
    d0 := d;
    ghost var c := t.lv[0];
    if t.root != null { NoVisits(c, it.how, it.keyStart, it.keyEnd, d0); }
    while key.Some?
      invariant Valid(t) && StateOf(t) == old(StateOf(t)) && |t.lv| >= 1 && t.lv[0] == c && (key.Some? <==> it.c != null)
      invariant t.root == old(t.root) && t.H() == old(t.H()) && t.lv == old(t.lv)
      invariant key.Some? ==> t.root != null && At(it, t.H(), t.lv, d)
      invariant t.root == null ==> trace == [] && key.None?
      invariant t.root != null ==> d == d0 + |trace| && d <= |c| && Delivers(c, d0, trace) && Within(c, it.how, it.keyStart, it.keyEnd, d0, d)
      invariant t.root != null ==> Candidate(c, it.how, it.keyStart, it.keyEnd, d, key, rec)
      decreases |c| - d, key.Some?
    {
      CandidateParts(c, it.how, it.keyStart, it.keyEnd, d, key, rec);
      OneVisit(c, it.how, it.keyStart, it.keyEnd, d0, d, trace, rec);
      trace := trace + [Visit(key.value, rec)];
      key, rec, d := Next(it, d);
      StateParts(t);
    }
    if t.root != null {
      CandidateParts(c, it.how, it.keyStart, it.keyEnd, d, key, rec);
      StopsIntro(c, it.how, it.keyStart, it.keyEnd, d0, d);
    }
  }

  lemma CandidateParts(c: Level, how: LookupMethod, start: Option<string>, end: Option<string>, d: nat, key: Option<string>, rec: Record?)
    requires Candidate(c, how, start, end, d, key, rec)
    ensures ContentOK(c) && d <= |c|
    ensures key.Some? ==> d < |c| && c[d].s != null && c[d].p.ToRecord? && rec != null && key.value == c[d].s.key && rec == c[d].p.rec
    ensures key.Some? ==> Admits(how, start, end, c[d].s.key)
    ensures key.None? && d < |c| ==> c[d].s != null && !Admits(how, start, end, c[d].s.key)
  {
  }

  ghost predicate Within(c: Level, how: LookupMethod, start: Option<string>, end: Option<string>, d0: nat, d1: nat) {
    ContentOK(c) && d0 <= d1 <= |c| && forall m :: d0 <= m < d1 ==> Admits(how, start, end, c[m].s.key)
  }

  lemma NoVisits(c: Level, how: LookupMethod, start: Option<string>, end: Option<string>, d: nat)
    requires ContentOK(c) && d <= |c|
    ensures Delivers(c, d, []) && Within(c, how, start, end, d, d)
  {
  }

  lemma OneVisit(c: Level, how: LookupMethod, start: Option<string>, end: Option<string>, d0: nat, d: nat, trace: seq<Visit>, rec: Record)
    requires ContentOK(c) && d < |c| && rec == c[d].p.rec
    requires Delivers(c, d0, trace) && d == d0 + |trace| && Within(c, how, start, end, d0, d) && Admits(how, start, end, c[d].s.key)
    ensures Delivers(c, d0, trace + [Visit(c[d].s.key, rec)]) && Within(c, how, start, end, d0, d + 1)
  {
  }

  lemma StopsIntro(c: Level, how: LookupMethod, start: Option<string>, end: Option<string>, d0: nat, d1: nat)
    requires Within(c, how, start, end, d0, d1) && (d1 < |c| ==> !Admits(how, start, end, c[d1].s.key))
    ensures StopsAt(c, how, start, end, d0, d1)
  {
  }

  // ----- What a pass yields -----

  ghost predicate InRange(start: Option<string>, end: Option<string>, key: string) {
    (start.Some? ==> Rank(start.value) <= Rank(key)) && (end.Some? ==> Rank(key) <= Rank(end.value))
  }

  /** A bounded pass that starts at the beginning or at a key of the tree yields exactly the keys within the bounds. */
  lemma RangePass(h: Heap, lv: seq<Level>, start: Option<string>, end: Option<string>, d0: nat, d1: nat)
    requires Begins(h, lv, Exact, start, d0) && StopsAt(lv[0], Exact, start, end, d0, d1)
    requires start.Some? ==> start.value in AsMap(lv[0])
    ensures Exactly(lv[0], start, end, d0, d1)
  {
    hide Rank;
    var c := lv[0];
    if start.Some? {
      var x := KeyIndex(c, start.value);
      assert Matches(Exact, start.value, c[x].s.key);
    }
    forall m | 0 <= m < |c| ensures d0 <= m < d1 <==> InRange(start, end, c[m].s.key) {
      if d1 <= m { assert d1 < |c| && Rank(c[d1].s.key) <= Rank(c[m].s.key); }
    }
  }

  /** A prefix pass yields exactly the keys with the prefix: that the leaf searched first is the right one rests on every
      separator being the maximum of the subtree on its left. */
  lemma PrefixPass(h: Heap, lv: seq<Level>, prefix: string, end: Option<string>, d0: nat, d1: nat)
    requires Begins(h, lv, Prefix, Some(prefix), d0) && StopsAt(lv[0], Prefix, Some(prefix), end, d0, d1)
    ensures forall m :: 0 <= m < |lv[0]| ==> (d0 <= m < d1 <==> prefix <= lv[0][m].s.key)
  {
    hide Rank, Covers, Lo;
    var c := lv[0];
    forall m | 0 <= m < |c| ensures d0 <= m < d1 <==> prefix <= c[m].s.key {
      assert Matches(Prefix, prefix, c[m].s.key) == (prefix <= c[m].s.key);
      if d1 < m && prefix <= c[m].s.key && d0 < d1 {
        assert Admits(Prefix, Some(prefix), end, c[d0].s.key);
        PrefixIsBelow(prefix, c[d0].s.key);
        PrefixInterval(prefix, c[d1].s.key, c[m].s.key);
      }
    }
  }

  /** A pass from a key that is not in the tree starts at `d0`, slot 0 of the covering leaf. It yields the keys within the
      bounds if and only if the key in that slot is above the start key, or above the end key. */
  lemma AbsentStart(t: BPlusTree, start: string, end: Option<string>, d0: nat, d1: nat)
    requires Valid(t) && |t.lv| >= 2 && ContentOK(t.lv[0]) && start !in AsMap(t.lv[0])
    requires Begins(t.H(), t.lv, Exact, Some(start), d0) && StopsAt(t.lv[0], Exact, Some(start), end, d0, d1)
    ensures d0 < |t.lv[0]| && t.lv[0][d0].s != null
    ensures Exactly(t.lv[0], Some(start), end, d0, d1) <==>
      var first := t.lv[0][d0].s.key; Strcmp(first, start) > 0 || (end.Some? && Strcmp(first, end.value) > 0)
  {
    hide *;
    var h, lv, c := t.H(), t.lv, t.lv[0];
    ValidParts(t);
    LeafParts(h, lv, t.root, t.order, t.keys);
    BeginsBound(h, lv, Exact, Some(start), d0);
    BelowStart(h, lv, start, d0);
    StopParts(c, Exact, Some(start), end, d0, d1);
    RangeFrom(c, start, end, d0, d1);
    StrcmpIsRank(c[d0].s.key, start);
    if end.Some? { StrcmpIsRank(c[d0].s.key, end.value); }
  }

  lemma LeafParts(h: Heap, lv: seq<Level>, root: Node?, order: nat, keys: set<Key>)
    requires Structure(h, lv, root, order, keys) && |lv| >= 2
    ensures LevelOK(h, lv[1], 1) && Expand(h, lv[1]) == lv[0] && LeafSeps(h, lv[1])
  {
    hide Linked, LevelOK, Parents, Expand, KeysKnown, Covered, LeafSeps, ContentOK;
    LeafLevelOK(h, lv, root);
  }

  lemma BelowStart(h: Heap, lv: seq<Level>, start: string, d0: nat)
    requires Begins(h, lv, Exact, Some(start), d0)
    requires LevelOK(h, lv[1], 1) && Expand(h, lv[1]) == lv[0] && LeafSeps(h, lv[1]) && start !in AsMap(lv[0])
    ensures forall m :: 0 <= m < |lv[0]| ==> lv[0][m].s != null && lv[0][m].s.key != start
    ensures forall m :: 0 <= m < d0 ==> Rank(lv[0][m].s.key) < Rank(start)
  {
    hide Rank, Expand, LevelOK, LeafSeps, AsMap;
    var c := lv[0];
    forall m | 0 <= m < |c| ensures !Matches(Exact, start, c[m].s.key) { InMap(c, m); }
    var p :| Covers(lv[1], p, start) && d0 == Lo(h, lv[1], p);
    var lo, n := OutsideLeaf(h, lv[1], c, p, start);
  }

  lemma StopParts(c: Level, how: LookupMethod, start: Option<string>, end: Option<string>, d0: nat, d1: nat)
    requires StopsAt(c, how, start, end, d0, d1)
    ensures d0 <= d1 <= |c| && ContentOK(c) && forall m :: 0 <= m < |c| ==> c[m].s != null
    ensures how.Exact? ==> forall m :: d0 <= m < d1 ==> end.Some? ==> Rank(c[m].s.key) <= Rank(end.value)
    ensures how.Exact? && d1 < |c| ==> end.Some? && Rank(end.value) < Rank(c[d1].s.key)
  {
    hide Rank;
    forall m | d0 <= m < d1 ensures how.Exact? && end.Some? ==> Rank(c[m].s.key) <= Rank(end.value) {
      assert Admits(how, start, end, c[m].s.key);
    }
  }

  lemma Ascending(c: Level, i: nat, j: nat)
    requires ContentOK(c) && i < j < |c|
    ensures c[i].s != null && c[j].s != null && Rank(c[i].s.key) < Rank(c[j].s.key)
  {
  }

  /** The keys delivered from d0 up to d1 are exactly those within the bounds. */
  ghost predicate Exactly(c: Level, start: Option<string>, end: Option<string>, d0: nat, d1: nat)
    requires forall m :: 0 <= m < |c| ==> c[m].s != null
  {
    forall m :: 0 <= m < |c| ==> (d0 <= m < d1 <==> InRange(start, end, c[m].s.key))
  }

  /** One entry of a pass whose first entry is above the start key. */
  lemma RangeEntry(c: Level, start: string, end: Option<string>, d0: nat, d1: nat, m: nat)
    requires ContentOK(c) && d0 <= d1 <= |c| && m < |c|
    requires m < d0 ==> Rank(c[m].s.key) < Rank(start)
    requires d0 < d1 ==> Rank(start) < Rank(c[d0].s.key)
    requires d0 <= m < d1 && end.Some? ==> Rank(c[m].s.key) <= Rank(end.value)
    requires d1 < |c| ==> end.Some? && Rank(end.value) < Rank(c[d1].s.key)
    ensures d0 <= m < d1 <==> InRange(Some(start), end, c[m].s.key)
  {
    hide Rank;
  }

  lemma RangeFrom(c: Level, start: string, end: Option<string>, d0: nat, d1: nat)
    requires d0 <= d1 <= |c| && ContentOK(c) && forall m :: 0 <= m < |c| ==> c[m].s != null && c[m].s.key != start
    requires forall m :: 0 <= m < d0 ==> Rank(c[m].s.key) < Rank(start)
    requires forall m :: d0 <= m < d1 ==> end.Some? ==> Rank(c[m].s.key) <= Rank(end.value)
    requires d1 < |c| ==> end.Some? && Rank(end.value) < Rank(c[d1].s.key)
    ensures Exactly(c, Some(start), end, d0, d1) <==> (d0 < d1 ==> Rank(start) < Rank(c[d0].s.key))
  {
    hide Rank, ContentOK, InRange;
    if d0 < d1 { StrcmpIsRank(start, c[d0].s.key); }
    if d0 < d1 ==> Rank(start) < Rank(c[d0].s.key) {
      forall m | 0 <= m < |c| ensures d0 <= m < d1 <==> InRange(Some(start), end, c[m].s.key) {
        RangeEntry(c, start, end, d0, d1, m);
      }
    }
    if Exactly(c, Some(start), end, d0, d1) && d0 < d1 {
      assert InRange(Some(start), end, c[d0].s.key);
      RangeStart(start, end, c[d0].s.key);
    }
  }

  lemma RangeStart(start: string, end: Option<string>, key: string)
    requires InRange(Some(start), end, key)
    ensures Rank(start) <= Rank(key)
  {
  }
}
