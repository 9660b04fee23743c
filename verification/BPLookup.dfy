/** Lookup: what the leaf that covers a key says about the whole content. */
module BPLookup {
  import opened CStrings
  import opened BPTypes
  import opened BPLevels
  import opened BPSteps
  import opened BPTree
  import opened BPInsert
  import opened BPFind
  import opened BPValid

  datatype LookupMethod = Exact | Prefix

  /** What the scan of a leaf compares: strcmp, or strncmp over the length of the searched prefix. */
  ghost predicate Matches(how: LookupMethod, key: string, k: string) {
    if how.Exact? then key == k else key <= k
  }

  lemma {:induction false} PrefixTest(key: string, k: string)
    ensures SameUpTo(key, k, |key|) <==> key <= k
  {
    if |k| >= |key| { assert key <= k <==> k[..|key|] == key; }
  }

  /** The slots of leaf p are the content from Lo(p) on. */
  ghost predicate LeafAt(h: Heap, l: Level, c: Level, p: nat, lo: nat, n: nat) {
    && p < |l| && lo == Lo(h, l, p) && n == |V(h, l[p].p).ks| == |V(h, l[p].p).ps| && lo + n <= |c|
    && forall j :: 0 <= j < n ==> c[lo + j] == Entry(V(h, l[p].p).ps[j], V(h, l[p].p).ks[j])
  }

  lemma LeafSlice(h: Heap, l: Level, c: Level, p: nat) returns (lo: nat, n: nat)
    requires LevelOK(h, l, 1) && Expand(h, l) == c && p < |l|
    ensures LeafAt(h, l, c, p, lo, n)
    ensures p + 1 < |l| ==> Lo(h, l, p + 1) == lo + n
    ensures p + 1 == |l| ==> |c| == lo + n
  {
    assert NodeOK(h, l[p].p, 1);
    lo, n := Lo(h, l, p), |V(h, l[p].p).ks|;
    ExpandAt(h, l, p, 1);
    assert l[p..p + 1] == [l[p]];
    ExpandOne(h, l[p]);
    forall j | 0 <= j < n ensures c[lo + j] == Entry(V(h, l[p].p).ps[j], V(h, l[p].p).ks[j]) {
      SlotAt(h, l, p, j);
    }
    assert l[..p + 1] == l[..p] + [l[p]];
    ExpandConcat(h, l[..p], [l[p]]);
    if p + 1 == |l| { assert l[p + 1..] == []; }
  }

  /** Everything left of the covering leaf is below the key, everything right of it above: that is what the separators
      being maxima of their left subtrees gives. */
  lemma OutsideLeaf(h: Heap, l: Level, c: Level, p: nat, key: string) returns (lo: nat, n: nat)
    requires LevelOK(h, l, 1) && Expand(h, l) == c && ContentOK(c) && LeafSeps(h, l) && Covers(l, p, key)
    ensures LeafAt(h, l, c, p, lo, n)
    ensures forall m :: 0 <= m < lo ==> Rank(c[m].s.key) < Rank(key)
    ensures forall m :: lo + n <= m < |c| ==> Rank(key) < Rank(c[m].s.key)
    ensures l[p].s != null ==> n > 0 && c[lo + n - 1].s == l[p].s
    ensures l[p].s == null ==> lo + n == |c|
  {
    hide Expand, LevelOK;
    lo, n := LeafSlice(h, l, c, p);
    if p > 0 {
      var lo', n' := LeafSlice(h, l, c, p - 1);
      assert c[lo' + (n' - 1)].s == l[p - 1].s;
    } else {
      FirstLeaf(h, l);
    }
    LastIsNull(h, l, p);
    if l[p].s != null {
      assert c[lo + (n - 1)].s == l[p].s;
    }
  }

  lemma FirstLeaf(h: Heap, l: Level)
    ensures Lo(h, l, 0) == 0
  {
    assert l[..0] == [];
  }

  lemma LastIsNull(h: Heap, l: Level, p: nat)
    requires LevelOK(h, l, 1) && p < |l|
    ensures l[p].s == null <==> p + 1 == |l|
  {
  }

  /** Where the key is or would be. */
  ghost predicate Locates(h: Heap, lv: seq<Level>, p: nat, key: string, lo: nat, n: nat) {
    && |lv| >= 2 && LeafAt(h, lv[1], lv[0], p, lo, n) && ContentOK(lv[0])
    && (forall m :: 0 <= m < lo ==> Rank(lv[0][m].s.key) < Rank(key))
    && (forall m :: lo + n <= m < |lv[0]| ==> Rank(key) < Rank(lv[0][m].s.key))
    && (lv[1][p].s != null ==> n > 0 && lv[0][lo + n - 1].s == lv[1][p].s && Rank(key) <= Rank(lv[1][p].s.key))
    && (lv[1][p].s == null ==> lo + n == |lv[0]|)
  }

  lemma Located(h: Heap, lv: seq<Level>, root: Node?, order: nat, keys: set<Key>, p: nat, leaf: Node, key: string)
    returns (lo: nat, n: nat)
    requires root != null && Structure(h, lv, root, order, keys) && StandsAt(h, lv, 1, p, leaf, key)
    ensures Locates(h, lv, p, key, lo, n)
  {
    hide LevelOK, Parents, Expand, Occupied, KeysKnown, Covered, Linked, LeafSeps, Chain;
    LinkedAt(h, lv, root, 0, lv[0], 0);
    LinkedAt(h, lv, root, 0, lv[0], 1);
    lo, n := OutsideLeaf(h, lv[1], lv[0], p, key);
  }

  /** The outcome of _find on a tree with a root: the covering leaf and its first matching slot, if any. */
  ghost predicate FindOutcome(h: Heap, lv: seq<Level>, how: LookupMethod, key: string, rec: Record?, leaf: Node, i: nat,
                              bkey: Key?, p: nat) {
    && StandsAt(h, lv, 1, p, leaf, key) && leaf in h
    && var v := h[leaf];
    && |v.ps| == |v.ks|
    && null !in v.ks
    && if rec != null
       then i < |v.ks| && bkey == v.ks[i] && v.ps[i] == ToRecord(rec) && Matches(how, key, v.ks[i].key)
            && forall j :: 0 <= j < i ==> !Matches(how, key, v.ks[j].key)
       else i == 0 && bkey == null && forall j :: 0 <= j < |v.ks| ==> !Matches(how, key, v.ks[j].key)
  }

  /** bptree.c _find: the covering leaf, and the first slot of it that matches. */
  method Find(t: BPlusTree, key: string, how: LookupMethod)
    returns (rec: Record?, leaf: Node?, i: nat, bkey: Key?, ghost p: nat)
    requires Valid(t)
    ensures t.root == null ==> rec == null && leaf == null && bkey == null
    ensures t.root != null ==> leaf != null && FindOutcome(t.H(), t.lv, how, key, rec, leaf, i, bkey, p)
    ensures t.root != null ==> leaf in t.nodes && leaf.Shape(t.order) && leaf.isLeaf
    ensures t.H() == old(t.H())
  {
    hide Valid, Structure, Complete, Allocated, Snap, StandsAt, Matches;
    rec, leaf, i, bkey, p := null, null, 0, null, 0;
    ValidParts(t);
    if t.root == null { return; }
    leaf, p := FindLeaf(t, key);
    LeafRecords(t.H(), t.lv, t.root, t.order, t.keys, p, leaf, key);
    SnapFacts(t, leaf);
    LeafVal(t.order, leaf);
    ghost var ks := leaf.Val().ks;
    while i < leaf.numKeys
      invariant 0 <= i <= leaf.numKeys
      invariant forall j :: 0 <= j < i ==> !Matches(how, key, ks[j].key)
    {
      assert leaf.bkeys[i] == ks[i];
      var same := if how.Exact? then Strcmp(key, leaf.bkeys[i].key) == 0 else SameUpTo(key, leaf.bkeys[i].key, |key|);
      assert same == Matches(how, key, ks[i].key) by { MatchTest(how, key, ks[i].key); }
      if same { break; }
      i := i + 1;
    }
    assert StandsAt(t.H(), t.lv, 1, p, leaf, key) && t.H()[leaf] == leaf.Val();
    if i == leaf.numKeys {
      i := 0;
    } else {
      bkey := leaf.bkeys[i];
      assert leaf.Val().ps[i] == leaf.pointers[i];
      rec := leaf.pointers[i].rec;
    }
  }

  lemma LeafVal(order: nat, leaf: Node)
    requires leaf.Shape(order) && leaf.isLeaf && order >= 4
    ensures leaf.Val().ks == leaf.bkeys[..leaf.numKeys] && leaf.Val().ps == leaf.pointers[..leaf.numKeys]
  {
    ValOf(leaf, order);
  }

  lemma MatchTest(how: LookupMethod, key: string, k: string)
    ensures (if how.Exact? then Strcmp(key, k) == 0 else SameUpTo(key, k, |key|)) == Matches(how, key, k)
  {
    PrefixTest(key, k);
  }

  lemma ValidParts(t: BPlusTree)
    requires Valid(t)
    ensures Allocated(t.nodes, t.order) && t.order >= 4 && |t.lv| >= 1 && Structure(t.H(), t.lv, t.root, t.order, t.keys)
    ensures t.root != null ==> Complete(t.H(), t.lv, t.root, t.order, t.keys) && |t.lv| >= 2
    ensures t.root == null ==> t.lv == [[]] && t.nodes == {}
  {
    hide LevelOK, Parents, Expand, Occupied, KeysKnown, Covered, Linked, LeafSeps, Chain, ContentOK, Separate;
    assert t.H().Keys == t.nodes;
  }

  /** The slots of a leaf hold records. */
  lemma LeafRecords(h: Heap, lv: seq<Level>, root: Node?, order: nat, keys: set<Key>, p: nat, leaf: Node, key: string)
    requires root != null && Structure(h, lv, root, order, keys) && StandsAt(h, lv, 1, p, leaf, key)
    ensures leaf in h && forall i :: 0 <= i < |h[leaf].ps| ==> h[leaf].ps[i].ToRecord?
  {
    hide LevelOK, Parents, Expand, Occupied, KeysKnown, Covered, Linked, LeafSeps, Chain, Complete;
    var lo, n := Located(h, lv, root, order, keys, p, leaf, key);
    forall i | 0 <= i < |h[leaf].ps| ensures h[leaf].ps[i].ToRecord? {
      assert lv[0][lo + i] == Entry(h[leaf].ps[i], h[leaf].ks[i]);
    }
  }
}
