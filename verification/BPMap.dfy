/** The tree as an ordered map from keys to shared records: lookup, add, alias, update. */
module BPMap {
  import opened BPTypes
  import opened BPLevels
  import opened BPSlots
  import opened BPTree
  import opened BPInsert
  import opened BPFind
  import opened BPValid
  import opened BPLookup
  import opened BPAlloc
  import opened BPLeafSteps
  import opened BPAddSteps
  import opened BPAdd

  // ----- The map -----

  /** The entry found, or the fact that there is none. */
  lemma FindIndex(h: Heap, lv: seq<Level>, root: Node?, order: nat, keys: set<Key>, key: string, rec: Record?, leaf: Node,
                  i: nat, bkey: Key?, p: nat) returns (d: nat)
    requires root != null && Structure(h, lv, root, order, keys)
    requires FindOutcome(h, lv, Exact, key, rec, leaf, i, bkey, p)
    ensures |lv| >= 1
    ensures rec != null ==> bkey != null && d < |lv[0]| && lv[0][d] == Entry(ToRecord(rec), bkey) && bkey.key == key
    ensures rec != null ==> leaf in h && |lv| >= 2 && p < |lv[1]| && lv[1][p].p == ToNode(leaf) && d == Lo(h, lv[1], p) + i
    ensures rec == null ==> forall m :: 0 <= m < |lv[0]| ==> lv[0][m].s != null && lv[0][m].s.key != key
  {
    hide Linked, Parents, Expand, PtrsOf, Covered, Occupied, KeysKnown, LeafSeps, Chain, LevelOK, Complete;
    var lo, n := Located(h, lv, root, order, keys, p, leaf, key);
    d := lo + i;
    if rec == null {
      forall m | 0 <= m < |lv[0]| ensures lv[0][m].s != null && lv[0][m].s.key != key {
        if lo <= m < lo + n {
          assert lv[0][lo + (m - lo)] == Entry(h[leaf].ps[m - lo], h[leaf].ks[m - lo]);
        }
      }
    }
  }

  lemma InMap(c: Level, d: nat)
    requires ContentOK(c) && d < |c|
    ensures c[d].s.key in AsMap(c) && AsMap(c)[c[d].s.key] == c[d].p.rec
  {
  }

  lemma NotInMap(c: Level, key: string)
    requires ContentOK(c) && forall m :: 0 <= m < |c| ==> c[m].s.key != key
    ensures key !in AsMap(c)
  {
  }

  /** The map is determined by the entries. */
  lemma MapIs(c: Level, m: map<string, Record>)
    requires ContentOK(c)
    requires forall i :: 0 <= i < |c| ==> c[i].s.key in m && m[c[i].s.key] == c[i].p.rec
    requires forall k :: k in m ==> exists i :: 0 <= i < |c| && c[i].s.key == k
    ensures AsMap(c) == m
  {
    forall k | k in m ensures k in AsMap(c) && AsMap(c)[k] == m[k] {
      var i :| 0 <= i < |c| && c[i].s.key == k;
      InMap(c, i);
    }
  }

  /** An inserted entry extends the map at its key and nowhere else. */
  lemma MapInsert(c: Level, d: nat, e: Entry)
    requires ContentOK(c) && d <= |c| && e.p.ToRecord? && e.s != null && ContentOK(Insert(c, d, e))
    requires forall m :: 0 <= m < |c| ==> c[m].s.key != e.s.key
    ensures AsMap(Insert(c, d, e)) == AsMap(c)[e.s.key := e.p.rec]
  {
    hide AsMap;
    var c', m := Insert(c, d, e), AsMap(c)[e.s.key := e.p.rec];
    forall i | 0 <= i < |c'| ensures c'[i].s.key in m && m[c'[i].s.key] == c'[i].p.rec {
      assert c'[i] == if i < d then c[i] else if i == d then e else c[i - 1];
      if i != d { InMap(c, if i < d then i else i - 1); }
    }
    forall k | k in m ensures exists i :: 0 <= i < |c'| && c'[i].s.key == k {
      if k == e.s.key {
        assert c'[d].s.key == k;
      } else {
        var i := KeyIndex(c, k);
        assert c'[if i < d then i else i + 1] == c[i];
      }
    }
    MapIs(c', m);
  }

  lemma KeyIndex(c: Level, key: string) returns (i: nat)
    requires ContentOK(c) && key in AsMap(c)
    ensures i < |c| && c[i].s.key == key && AsMap(c)[key] == c[i].p.rec
  {
    i :| 0 <= i < |c| && c[i].s.key == key;
  }

  // ----- Lookup -----

  /** The map that a valid tree represents: keys to record objects, so that aliases share. */
  ghost function MapOf(t: BPlusTree): map<string, Record>
    reads t`lv
  {
    if |t.lv| >= 1 && ContentOK(t.lv[0]) then AsMap(t.lv[0]) else map[]
  }

  lemma MapOfIs(t: BPlusTree)
    requires Valid(t)
    ensures |t.lv| >= 1 && ContentOK(t.lv[0]) && MapOf(t) == AsMap(t.lv[0])
  {
    ContentPart(t);
  }

  /** The record under a key, if any. */
  method FindRecord(t: BPlusTree, key: string) returns (rec: Record?)
    requires Valid(t)
    ensures Valid(t) && StateOf(t) == old(StateOf(t)) && |t.lv| >= 1
    ensures rec == null <==> key !in MapOf(t)
    ensures rec != null ==> rec == MapOf(t)[key] && rec in t.recs && t.root != null
    ensures rec == null ==> forall m :: 0 <= m < |t.lv[0]| ==> t.lv[0][m].s != null && t.lv[0][m].s.key != key
  {
    hide *;
    StateParts(t);
    ValidParts(t);
    MapOfIs(t);
    ContentPart(t);
    var leaf, i, bkey;
    ghost var p;
    rec, leaf, i, bkey, p := Find(t, key, Exact);
    ValidIntro(t);
    StateParts(t);
    if t.root == null {
      EmptyMap(t);
    } else {
      ghost var d := FindIndex(t.H(), t.lv, t.root, t.order, t.keys, key, rec, leaf, i, bkey, p);
      if rec == null {
        NotInMap(t.lv[0], key);
      } else {
        InMap(t.lv[0], d);
        Listed(t.lv[0], t.recs, d);
      }
    }
  }

  lemma Listed(c: Level, recs: seq<Record>, d: nat)
    requires RecordCounts(c, recs) && d < |c| && c[d].p.ToRecord?
    ensures c[d].p.rec in recs
  {
  }

  /** bptree.c bptree_lookup */
  method Lookup(t: BPlusTree, key: string) returns (found: bool, data: int, dataSize: nat, refCount: nat)
    requires Valid(t)
    ensures found <==> key in MapOf(t)
    ensures found ==> var rec := MapOf(t)[key]; data == rec.data && dataSize == rec.dataSize && refCount == rec.refCount
  {
    var rec := FindRecord(t, key);
    found := rec != null;
    data, dataSize, refCount := 0, 0, 0;
    if rec != null { data, dataSize, refCount := rec.data, rec.dataSize, rec.refCount; }
  }

  lemma ContentPart(t: BPlusTree)
    requires Valid(t)
    ensures |t.lv| >= 1 && ContentOK(t.lv[0]) && KeyCounts(t.lv, t.keys) && RecordCounts(t.lv[0], t.recs) && Sizes(t)
  {
    hide ContentOK, LeafSeps, Chain, Complete, KeyCounts, RecordCounts, Sizes, Allocated;
  }

  lemma EmptyMap(t: BPlusTree)
    requires t.lv == [[]]
    ensures ContentOK(t.lv[0]) && AsMap(t.lv[0]) == map[]
  {
  }

  // ----- Add -----

  /** Everything but the shape: what Valid says beside it. */
  lemma ValidIntro(t: BPlusTree)
    requires Allocated(t.nodes, t.order) && Structure(t.H(), t.lv, t.root, t.order, t.keys) && |t.lv| >= 1
    requires KeyCounts(t.lv, t.keys) && RecordCounts(t.lv[0], t.recs) && Sizes(t)
    ensures Valid(t)
  {
    hide Structure, KeyCounts, RecordCounts, Sizes, Allocated;
  }

  /** bptree.c _create_root */
  method CreateRoot(t: BPlusTree, bkey: Key, rec: Record) returns (leaf: Node?)
    requires Allocated(t.nodes, t.order) && t.root == null && t.nodes == {} && t.lv == [[]] && t.keys == {} && bkey.refCount == 0
    modifies t`root, t`lv, t`metaSize, t`keys, t`nodes, bkey`refCount, rec`refCount
    ensures Allocated(t.nodes, t.order)
    ensures leaf == null ==>
      && t.root == null && t.lv == [[]] && t.nodes == {} && t.keys == {} && t.metaSize == old(t.metaSize)
      && bkey.refCount == 0 && rec.refCount == old(rec.refCount)
    ensures leaf != null ==>
      && Inserted(t.H(), old(t.lv), t.lv, t.root, t.order, {}, bkey, rec, 0) && t.keys == {bkey}
      && KeyCounts(t.lv, t.keys) && rec.refCount == old(rec.refCount) + 1
      && |t.nodes| == 1 && fresh(t.nodes) && t.metaSize == old(t.metaSize) + NodeSize(t.order)
    ensures forall n :: n in t.nodes ==> n in old(t.nodes) || (fresh(n) && fresh(n.bkeys) && fresh(n.pointers))
  {
    hide *;
    leaf := MakeNode(t);
    if leaf != null {
      ghost var v := NodeVal(true, [bkey], [ToRecord(rec)], Null, null, 1);
      RootArrays(t, leaf);
      FillRootLeaf(t.order, leaf, bkey, rec);
      SingleNode(t, leaf, v);
      NotRead(t);
      t.root := leaf;
      t.keys := {bkey};
      t.lv := [[Entry(ToRecord(rec), bkey)], [Entry(ToNode(leaf), null)]];
      OneLeaf(t.H(), t.lv, leaf, t.order, bkey, rec);
    }
  }

  method FillRootLeaf(order: nat, leaf: Node, bkey: Key, rec: Record)
    requires leaf.Sized(order) && order >= 4
    modifies leaf, leaf.bkeys, leaf.pointers, bkey`refCount, rec`refCount
    ensures leaf.Val() == NodeVal(true, [bkey], [ToRecord(rec)], Null, null, 1)
    ensures bkey.refCount == old(bkey.refCount) + 1 && rec.refCount == old(rec.refCount) + 1
  {
    bkey.refCount := bkey.refCount + 1;
    rec.refCount := rec.refCount + 1;
    leaf.isLeaf := true;
    leaf.level := 1;
    leaf.bkeys[0] := bkey;
    leaf.pointers[0] := ToRecord(rec);
    leaf.pointers[order - 1] := Null;
    leaf.parent := null;
    leaf.numKeys := 1;
    ValOf(leaf, order);
    assert leaf.bkeys[..1] == [bkey] && leaf.pointers[..1] == [ToRecord(rec)];
  }

  lemma SingleNode(t: BPlusTree, n: Node, v: NodeVal)
    requires t.nodes == {n} && n.Val() == v
    ensures t.H() == map[n := v]
  {
  }

  lemma RootArrays(t: BPlusTree, leaf: Node)
    requires Allocated(t.nodes, t.order) && t.nodes == {leaf} && leaf.Shape(t.order)
    ensures t.order >= 4 && leaf.Sized(t.order)
  {
  }

  lemma OneLeaf(h: Heap, lv: seq<Level>, leaf: Node, order: nat, bkey: Key, rec: Record)
    requires h == map[leaf := NodeVal(true, [bkey], [ToRecord(rec)], Null, null, 1)] && order >= 4
    requires lv == [[Entry(ToRecord(rec), bkey)], [Entry(ToNode(leaf), null)]]
    requires bkey.refCount == 1
    ensures Inserted(h, [[]], lv, leaf, order, {}, bkey, rec, 0) && KeyCounts(lv, {bkey})
  {
    ExpandOne(h, lv[1][0]);
    assert Expand(h, lv[1]) == lv[0];
    assert Insert([], 0, Entry(ToRecord(rec), bkey)) == lv[0];
    assert lv[0][0] in lv[0] && lv[1][0] in lv[1];
    LinkedIntro(h, lv, leaf, 0, lv[0]);
    assert {} + {bkey} == {bkey};
  }

  /** The whole state of a tree object, for saying that nothing changed. */
  datatype State = State(root: Node?, lv: seq<Level>, nodes: set<Node>, keys: set<Key>, recs: seq<Record>,
                         metaSize: int, dataSize: int, numEntries: int, h: Heap)

  ghost function StateOf(t: BPlusTree): State
    reads t, t.nodes, Arrays(t.nodes)
  {
    State(t.root, t.lv, t.nodes, t.keys, t.recs, t.metaSize, t.dataSize, t.numEntries, t.H())
  }

  /** A successful insertion of a new record leaves a valid tree. */
  lemma ValidInserted(t: BPlusTree, lv0: seq<Level>, nodes0: nat, keys0: set<Key>, recs0: seq<Record>, bkey: Key, rec: Record,
                      d: nat)
    requires Allocated(t.nodes, t.order) && t.order >= 4
    requires Inserted(t.H(), lv0, t.lv, t.root, t.order, keys0, bkey, rec, d) && t.keys == keys0 + {bkey}
    requires KeyCounts(t.lv, t.keys)
    requires RecordCounts(lv0[0], recs0) && rec !in recs0 && rec.refCount == 1 && t.recs == recs0 + [rec]
    requires nodes0 <= |t.nodes|
    requires t.metaSize == TREE_SIZE + NodeBytes(t.order, nodes0) + KeyBytes(lv0[0]) + |recs0| * RECORD_SIZE
                         + KeySize(bkey) + RECORD_SIZE + NodeBytes(t.order, |t.nodes| - nodes0)
    requires t.dataSize == DataBytes(recs0) + rec.dataSize && t.numEntries == |recs0| + 1
    ensures Valid(t)
  {
    hide Structure, KeyCounts, RecordCounts, Allocated;
    StructureLength(t.H(), t.lv, t.root, t.order, t.keys);
    var e := Entry(ToRecord(rec), bkey);
    RecordsAppend(lv0[0], d, e, recs0, rec);
    KeyBytesInsert(lv0[0], d, e);
    DataBytesAppend(recs0, rec);
    NodeBytesAdd(t.order, nodes0, |t.nodes| - nodes0);
    ValidIntro(t);
  }

  lemma StructureLength(h: Heap, lv: seq<Level>, root: Node?, order: nat, keys: set<Key>)
    requires Structure(h, lv, root, order, keys)
    ensures |lv| >= 1 && ContentOK(lv[0])
  {
  }

  /** The two cases of bptree_add for a new key: the first entry makes the root, later ones are inserted. */
  method InsertEntry(t: BPlusTree, bkey: Key, rec: Record) returns (r: int, ghost d: nat)
    requires Allocated(t.nodes, t.order) && Structure(t.H(), t.lv, t.root, t.order, t.keys) && |t.lv| >= 1
    requires forall m :: 0 <= m < |t.lv[0]| ==> t.lv[0][m].s != null && t.lv[0][m].s.key != bkey.key
    requires KeyCounts(t.lv, t.keys) && bkey !in t.keys && bkey.refCount == 0
    modifies t`root, t`lv, t`metaSize, t`keys, t`nodes, t.nodes, Arrays(t.nodes), t.keys`refCount, bkey`refCount, rec`refCount
    ensures r == 0 || r == -1
    ensures Allocated(t.nodes, t.order)
    ensures r == -1 ==>
      && t.root == old(t.root) && t.lv == old(t.lv) && t.metaSize == old(t.metaSize) && t.keys == old(t.keys)
      && t.nodes == old(t.nodes) && t.H() == old(t.H())
      && bkey.refCount == 0 && rec.refCount == old(rec.refCount) && KeyCounts(t.lv, t.keys)
    ensures r == 0 ==>
      && Inserted(t.H(), old(t.lv), t.lv, t.root, t.order, old(t.keys), bkey, rec, d) && t.keys == old(t.keys) + {bkey}
      && KeyCounts(t.lv, t.keys) && rec.refCount == old(rec.refCount) + 1
      && |t.nodes| >= |old(t.nodes)| && t.order >= 4
      && t.metaSize == old(t.metaSize) + NodeBytes(t.order, |t.nodes| - |old(t.nodes)|)
    ensures forall n :: n in t.nodes ==> n in old(t.nodes) || (fresh(n) && fresh(n.bkeys) && fresh(n.pointers))
  {
    hide *;
    NotRead(t);
    if t.root == null {
      NothingIn(t);
      var leaf := CreateRoot(t, bkey, rec);
      d := 0;
      r := if leaf == null then -1 else 0;
      if leaf == null { NoKeys(t); }
    } else {
      r, d := DoInsert(t, bkey, rec);
    }
  }

  lemma NothingIn(t: BPlusTree)
    requires |t.lv| >= 1 && t.root == null && Allocated(t.nodes, t.order)
    requires Structure(t.H(), t.lv, t.root, t.order, t.keys) && KeyCounts(t.lv, t.keys)
    ensures t.lv == [[]] && t.nodes == {} && t.keys == {} && t.H() == map[] && t.order >= 4 && NodeBytes(t.order, 1) == NodeSize(t.order)
  {
    assert t.H().Keys == t.nodes;
  }

  lemma NoKeys(t: BPlusTree)
    requires t.lv == [[]] && t.keys == {} && t.nodes == {}
    ensures KeyCounts(t.lv, t.keys) && t.H() == map[]
  {
  }

  /** The key object and the record of a new entry, or neither. */
  method AllocateEntry(t: BPlusTree, key: string, data: int, dataSize: nat) returns (q: Key?, rc: Record?)
    modifies t`metaSize, t`dataSize, t`numEntries
    ensures t.H() == old(t.H())
    ensures q == null ==>
      t.metaSize == old(t.metaSize) && t.dataSize == old(t.dataSize) && t.numEntries == old(t.numEntries)
    ensures q != null ==>
      && fresh(q) && q.key == key && q.refCount == 0
      && rc != null && fresh(rc) && rc.data == data && rc.dataSize == dataSize && rc.refCount == 0
      && t.metaSize == old(t.metaSize) + KeySize(q) + RECORD_SIZE
      && t.dataSize == old(t.dataSize) + dataSize && t.numEntries == old(t.numEntries) + 1
  {
    rc := null;
    q := MakeKey(t, key);
    if q != null {
      rc := MakeRecord(t, data, dataSize);
      if rc == null {
        DestroyKey(t, q);
        q := null;
      }
    }
  }

  /** The tree object stands as described by s, and s is a valid state. */
  ghost predicate Stands(t: BPlusTree, s: State)
    reads t, t.nodes, Arrays(t.nodes), t.keys, t.recs
  {
    && t.root == s.root && t.lv == s.lv && t.nodes == s.nodes && t.keys == s.keys && t.recs == s.recs && t.H() == s.h
    && Allocated(t.nodes, t.order) && Structure(s.h, s.lv, s.root, t.order, s.keys) && t.order >= 4 && |s.lv| >= 1
    && KeyCounts(s.lv, s.keys) && RecordCounts(s.lv[0], s.recs)
    && s.metaSize == TREE_SIZE + NodeBytes(t.order, |s.nodes|) + KeyBytes(s.lv[0]) + |s.recs| * RECORD_SIZE
    && s.dataSize == DataBytes(s.recs) && s.numEntries == |s.recs|
  }

  lemma StandsNow(t: BPlusTree, s: State)
    requires Valid(t) && s == StateOf(t)
    ensures Stands(t, s)
  {
    hide Structure, KeyCounts, RecordCounts, Allocated, Snap;
  }

  lemma StandsValid(t: BPlusTree, s: State)
    requires Stands(t, s) && t.metaSize == s.metaSize && t.dataSize == s.dataSize && t.numEntries == s.numEntries
    ensures Valid(t) && StateOf(t) == s
  {
    hide Structure, KeyCounts, RecordCounts, Allocated, Snap;
  }

  lemma StandsParts(t: BPlusTree, s: State)
    requires Stands(t, s)
    ensures t.root == s.root && t.lv == s.lv && t.nodes == s.nodes && t.keys == s.keys && t.recs == s.recs && t.H() == s.h
    ensures Allocated(t.nodes, t.order) && Structure(s.h, s.lv, s.root, t.order, s.keys) && t.order >= 4 && |s.lv| >= 1
    ensures KeyCounts(s.lv, s.keys) && RecordCounts(s.lv[0], s.recs)
    ensures s.metaSize == TREE_SIZE + NodeBytes(t.order, |s.nodes|) + KeyBytes(s.lv[0]) + |s.recs| * RECORD_SIZE
    ensures s.dataSize == DataBytes(s.recs) && s.numEntries == |s.recs|
  {
  }

  /** The state with one more entry: a new record under a new key. */
  ghost predicate Added(s: State, lv: seq<Level>, recs: seq<Record>, rec: Record, bkey: Key, d: nat) {
    && |s.lv| >= 1 && |lv| >= 1 && d <= |s.lv[0]|
    && lv[0] == Insert(s.lv[0], d, Entry(ToRecord(rec), bkey)) && recs == s.recs + [rec]
  }

  /** The allocated key and record go in, or are released. */
  method InsertOrFree(t: BPlusTree, q: Key, rc: Record, ghost s: State) returns (r: int, ghost d: nat)
    requires Stands(t, s) && q !in t.keys && q.refCount == 0 && rc !in t.recs && rc.refCount == 0
    requires forall m :: 0 <= m < |t.lv[0]| ==> t.lv[0][m].s != null && t.lv[0][m].s.key != q.key
    requires t.metaSize == s.metaSize + KeySize(q) + RECORD_SIZE
    requires t.dataSize == s.dataSize + rc.dataSize && t.numEntries == s.numEntries + 1
    modifies t, t.nodes, Arrays(t.nodes), t.keys`refCount, q`refCount, rc`refCount
    ensures r == 0 || r == -1
    ensures Valid(t)
    ensures r == -1 ==> StateOf(t) == s
    ensures r == 0 ==> Added(s, t.lv, t.recs, rc, q, d)
    ensures forall n :: n in t.nodes ==> n in old(t.nodes) || (fresh(n) && fresh(n.bkeys) && fresh(n.pointers))
    ensures forall o :: o in t.keys ==> o in old(t.keys) || o == q
    ensures forall o :: o in t.recs ==> o in old(t.recs) || o == rc
  {
    hide *;
    StandsParts(t, s);
    NotRead(t);
    r, d := InsertEntry(t, q, rc);
    if r == -1 {
      StandsIntro(t, s);
      Release(t, q, rc, s);
    } else {
      CommitEntry(t, q, rc, s, d);
      AddedRecords(s, t.lv, t.recs, rc, q, d);
    }
  }

  lemma AddedRecords(s: State, lv: seq<Level>, recs: seq<Record>, rec: Record, bkey: Key, d: nat)
    requires Added(s, lv, recs, rec, bkey, d)
    ensures forall o :: o in recs ==> o in s.recs || o == rec
  {
  }

  lemma StandsIntro(t: BPlusTree, s: State)
    requires t.root == s.root && t.lv == s.lv && t.nodes == s.nodes && t.keys == s.keys && t.recs == s.recs && t.H() == s.h
    requires Allocated(t.nodes, t.order) && Structure(s.h, s.lv, s.root, t.order, s.keys) && t.order >= 4 && |s.lv| >= 1
    requires KeyCounts(s.lv, s.keys) && RecordCounts(s.lv[0], s.recs)
    requires s.metaSize == TREE_SIZE + NodeBytes(t.order, |s.nodes|) + KeyBytes(s.lv[0]) + |s.recs| * RECORD_SIZE
    requires s.dataSize == DataBytes(s.recs) && s.numEntries == |s.recs|
    ensures Stands(t, s)
  {
  }

  method Release(t: BPlusTree, q: Key, rc: Record, ghost s: State)
    requires Stands(t, s)
    requires t.metaSize == s.metaSize + KeySize(q) + RECORD_SIZE
    requires t.dataSize == s.dataSize + rc.dataSize && t.numEntries == s.numEntries + 1
    modifies t`metaSize, t`dataSize, t`numEntries
    ensures Valid(t) && StateOf(t) == s
  {
    hide *;
    StandsParts(t, s);
    NotRead(t);
    DestroyKey(t, q);
    DestroyRecord(t, rc);
    StandsIntro(t, s);
    StandsValid(t, s);
  }

  ghost method CommitEntry(t: BPlusTree, q: Key, rc: Record, s: State, d: nat)
    requires Allocated(t.nodes, t.order) && t.order >= 4 && t.recs == s.recs && |s.lv| >= 1
    requires Inserted(t.H(), s.lv, t.lv, t.root, t.order, s.keys, q, rc, d) && t.keys == s.keys + {q} && KeyCounts(t.lv, t.keys)
    requires RecordCounts(s.lv[0], s.recs) && rc !in s.recs && rc.refCount == 1 && |t.nodes| >= |s.nodes|
    requires t.metaSize == TREE_SIZE + NodeBytes(t.order, |s.nodes|) + KeyBytes(s.lv[0]) + |s.recs| * RECORD_SIZE
                         + KeySize(q) + RECORD_SIZE + NodeBytes(t.order, |t.nodes| - |s.nodes|)
    requires t.dataSize == DataBytes(s.recs) + rc.dataSize && t.numEntries == |s.recs| + 1
    modifies t`recs
    ensures Valid(t) && Added(s, t.lv, t.recs, rc, q, d)
  {
    hide *;
    NotRead(t);
    InsertedIs(t.H(), s.lv, t.lv, t.root, t.order, s.keys, q, rc, d);
    t.recs := t.recs + [rc];
    ValidInserted(t, s.lv, |s.nodes|, s.keys, s.recs, q, rc, d);
    AddedIntro(s, t.lv, t.recs, rc, q, d);
  }

  lemma AddedIntro(s: State, lv: seq<Level>, recs: seq<Record>, rec: Record, bkey: Key, d: nat)
    requires |s.lv| >= 1 && |lv| >= 1 && d <= |s.lv[0]|
    requires lv[0] == Insert(s.lv[0], d, Entry(ToRecord(rec), bkey)) && recs == s.recs + [rec]
    ensures Added(s, lv, recs, rec, bkey, d)
  {
  }

  /** bptree.c bptree_add, the case of a key that is not in the tree */
  method AddNew(t: BPlusTree, key: string, data: int, dataSize: nat, ghost s: State)
    returns (r: int, ghost rec: Record?, ghost bkey: Key?, ghost d: nat)
    requires Valid(t) && s == StateOf(t) && |t.lv| >= 1
    requires forall m :: 0 <= m < |t.lv[0]| ==> t.lv[0][m].s != null && t.lv[0][m].s.key != key
    modifies t, t.nodes, Arrays(t.nodes), t.keys`refCount
    ensures r == 0 || r == -1
    ensures Valid(t)
    ensures r == -1 ==> StateOf(t) == s
    ensures r == 0 ==>
      && rec != null && fresh(rec) && rec.data == data && rec.dataSize == dataSize
      && bkey != null && bkey.key == key && Added(s, t.lv, t.recs, rec, bkey, d)
    ensures forall n :: n in t.nodes ==> n in old(t.nodes) || (fresh(n) && fresh(n.bkeys) && fresh(n.pointers))
    ensures forall q :: q in t.keys ==> q in old(t.keys) || fresh(q)
    ensures forall q :: q in t.recs ==> q in old(t.recs) || fresh(q)
  {
    hide *;
    r, rec, bkey, d := -1, null, null, 0;
    StandsNow(t, s);
    StandsParts(t, s);
    StateParts(t);
    NotRead(t);
    var q, rc := AllocateEntry(t, key, data, dataSize);
    StandsIntro(t, s);
    if q == null {
      StandsValid(t, s);
    } else {
      rec, bkey := rc, q;
      r, d := InsertOrFree(t, q, rc, s);
    }
  }

  lemma InsertedIs(h: Heap, lv: seq<Level>, lv': seq<Level>, root: Node?, order: nat, keys: set<Key>, bk: Key, rec: Record, d: nat)
    requires Inserted(h, lv, lv', root, order, keys, bk, rec, d)
    ensures |lv| >= 1 && |lv'| >= 1 && d <= |lv[0]| && lv'[0] == Insert(lv[0], d, Entry(ToRecord(rec), bk))
  {
  }

  lemma StateParts(t: BPlusTree)
    ensures StateOf(t) == State(t.root, t.lv, t.nodes, t.keys, t.recs, t.metaSize, t.dataSize, t.numEntries, t.H())
  {
  }

  // ----- Add -----

  lemma SizesIs(t: BPlusTree)
    requires Sizes(t)
    ensures t.order >= 4 && |t.lv| >= 1
    ensures t.metaSize == TREE_SIZE + NodeBytes(t.order, |t.nodes|) + KeyBytes(t.lv[0]) + |t.recs| * RECORD_SIZE
    ensures t.dataSize == DataBytes(t.recs) && t.numEntries == |t.recs|
  {
  }

  lemma SizesIntro(t: BPlusTree)
    requires t.order >= 4 && |t.lv| >= 1
    requires t.metaSize == TREE_SIZE + NodeBytes(t.order, |t.nodes|) + KeyBytes(t.lv[0]) + |t.recs| * RECORD_SIZE
    requires t.dataSize == DataBytes(t.recs) && t.numEntries == |t.recs|
    ensures Sizes(t)
  {
  }

  /** Writing a record changes one summand of the data size. */
  method WriteRecord(t: BPlusTree, rec: Record, data: int, dataSize: nat)
    requires Valid(t) && rec in t.recs
    modifies rec`data, rec`dataSize, t`dataSize
    ensures Valid(t) && MapOf(t) == old(MapOf(t))
    ensures rec.data == data && rec.dataSize == dataSize
  {
    hide *;
    NotRead(t);
    ContentPart(t);
    MapOfIs(t);
    ValidParts(t);
    SizesIs(t);
    ghost var i :| 0 <= i < |t.recs| && t.recs[i] == rec;
    ghost var sz := DataSizes(t.recs);
    OnlyOnce(t.lv[0], t.recs, i);
    rec.data := data;
    t.dataSize := t.dataSize - rec.dataSize;
    rec.dataSize := dataSize;
    t.dataSize := t.dataSize + rec.dataSize;
    DataBytesUpdate(t.recs, i, sz);
    SizesIntro(t);
    ValidIntro(t);
    MapOfIs(t);
  }

  lemma OnlyOnce(c: Level, recs: seq<Record>, i: nat)
    requires RecordCounts(c, recs) && i < |recs|
    ensures forall j :: 0 <= j < |recs| && j != i ==> recs[j] != recs[i]
  {
  }

  /** bptree.c bptree_add. An existing entry's record is written in place, so every alias sees the new data; a new key
      gets a record of its own; a failed allocation leaves no trace. */
  method Add(t: BPlusTree, key: string, data: int, dataSize: nat) returns (r: int)
    requires Valid(t)
    modifies t, t.nodes, Arrays(t.nodes), t.keys`refCount, t.recs`data, t.recs`dataSize
    ensures Valid(t)
    ensures r == 0 || r == -1
    ensures r == -1 ==> key !in old(MapOf(t)) && StateOf(t) == old(StateOf(t))
    ensures r == 0 ==> key in MapOf(t) && MapOf(t)[key].data == data && MapOf(t)[key].dataSize == dataSize
    ensures r == 0 && key in old(MapOf(t)) ==> MapOf(t) == old(MapOf(t))
    ensures r == 0 && key !in old(MapOf(t)) ==> fresh(MapOf(t)[key]) && MapOf(t) == old(MapOf(t))[key := MapOf(t)[key]]
    ensures forall q :: q in old(t.recs) && (key in old(MapOf(t)) ==> q != old(MapOf(t))[key]) ==>
      q.data == old(q.data) && q.dataSize == old(q.dataSize)
    ensures forall n :: n in t.nodes ==> n in old(t.nodes) || (fresh(n) && fresh(n.bkeys) && fresh(n.pointers))
    ensures forall q :: q in t.keys ==> q in old(t.keys) || fresh(q)
    ensures forall o :: o in t.recs ==> o in old(t.recs) || fresh(o)
  {
    hide *;
    var rec := FindRecord(t, key);
    if rec != null {
      WriteRecord(t, rec, data, dataSize);
      return 0;
    }
    ghost var s := StateOf(t);
    StateParts(t);
    MapOfIs(t);
    NotRead(t);
    ghost var newRec, bkey, d;
    r, newRec, bkey, d := AddNew(t, key, data, dataSize, s);
    MapOfIs(t);
    if r == 0 {
      MapAdded(s, t.lv, t.recs, newRec, bkey, d);
    }
  }

  lemma MapAdded(s: State, lv: seq<Level>, recs: seq<Record>, rec: Record, bkey: Key, d: nat)
    requires Added(s, lv, recs, rec, bkey, d) && |s.lv| >= 1 && |lv| >= 1 && ContentOK(s.lv[0]) && ContentOK(lv[0])
    requires forall m :: 0 <= m < |s.lv[0]| ==> s.lv[0][m].s != null && s.lv[0][m].s.key != bkey.key
    ensures AsMap(lv[0]) == AsMap(s.lv[0])[bkey.key := rec]
  {
    hide AsMap, ContentOK;
    MapInsert(s.lv[0], d, Entry(ToRecord(rec), bkey));
  }
}
