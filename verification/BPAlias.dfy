/** Aliases: several keys that share one record, and the release of records. */
module BPAlias {
  import opened CStrings
  import opened BPTypes
  import opened BPLevels
  import opened BPSlots
  import opened BPTree
  import opened BPInsert
  import opened BPFind
  import opened BPValid
  import opened BPLookup
  import opened BPAlloc
  import opened BPAddSteps
  import opened BPAdd
  import opened BPMap
  import opened BPFix

  // ----- Releasing a reference to a record -----

  /** Record counts while one reference to `extra`, whose slot is gone already, is still held. */
  ghost predicate RecordCountsBut(c: Level, recs: seq<Record>, extra: Record)
    reads recs`refCount
  {
    && (forall i, j :: 0 <= i < j < |recs| ==> recs[i] != recs[j])
    && (forall i :: 0 <= i < |c| && c[i].p.ToRecord? ==> c[i].p.rec in recs)
    && (forall r :: r in recs ==> r.refCount == Count(c, r) + (if r == extra then 1 else 0) && r.refCount > 0)
  }

  lemma RecordsDistinct(c: Level, recs: seq<Record>, extra: Record)
    requires RecordCountsBut(c, recs, extra) && extra in recs
    ensures exists i :: 0 <= i < |recs| && recs[i] == extra
    ensures forall i, j :: 0 <= i < j < |recs| ==> recs[i] != recs[j]
    ensures extra.refCount == Count(c, extra) + 1
  {
  }

  lemma CountsSettled(c: Level, recs: seq<Record>, extra: Record)
    requires (forall i, j :: 0 <= i < j < |recs| ==> recs[i] != recs[j])
    requires (forall i :: 0 <= i < |c| && c[i].p.ToRecord? ==> c[i].p.rec in recs)
    requires forall r :: r in recs ==> r.refCount == Count(c, r) && r.refCount > 0
    ensures RecordCounts(c, recs)
  {
  }

  lemma RecordListed(c: Level, recs: seq<Record>, extra: Record)
    requires RecordCountsBut(c, recs, extra)
    ensures forall i :: 0 <= i < |c| && c[i].p.ToRecord? ==> c[i].p.rec in recs
    ensures forall r :: r in recs && r != extra ==> r.refCount == Count(c, r) && r.refCount > 0
  {
  }

  lemma RecordGone(c: Level, recs: seq<Record>, i: nat)
    requires i < |recs| && Count(c, recs[i]) == 0
    requires forall j, k :: 0 <= j < k < |recs| ==> recs[j] != recs[k]
    requires forall j :: 0 <= j < |c| && c[j].p.ToRecord? ==> c[j].p.rec in recs
    requires forall r :: r in recs && r != recs[i] ==> r.refCount == Count(c, r) && r.refCount > 0
    ensures RecordCounts(c, recs[..i] + recs[i + 1..])
  {
    var recs' := recs[..i] + recs[i + 1..];
    assert forall j :: 0 <= j < |recs'| ==> recs'[j] == recs[if j < i then j else j + 1];
    forall j | 0 <= j < |c| && c[j].p.ToRecord? ensures c[j].p.rec in recs' {
      if c[j].p.rec == recs[i] {
        CountPositive(c, recs[i], j);
      } else {
        var k :| 0 <= k < |recs| && recs[k] == c[j].p.rec;
        assert recs'[if k < i then k else k - 1] == c[j].p.rec;
      }
    }
  }

  /** bptree.c _unref_record: the last reference destroys the record. */
  method UnrefRecord(t: BPlusTree, rec: Record)
    requires Allocated(t.nodes, t.order) && Structure(t.H(), t.lv, t.root, t.order, t.keys) && |t.lv| >= 1
    requires KeyCounts(t.lv, t.keys) && RecordCountsBut(t.lv[0], t.recs, rec) && rec in t.recs && Sizes(t)
    modifies t`metaSize, t`dataSize, t`numEntries, t`recs, rec`refCount
    ensures Valid(t)
    ensures t.H() == old(t.H())
    ensures forall r :: r in t.recs ==> r in old(t.recs)
  {
    hide *;
    NotRead(t);
    SizesIs(t);
    RecordsDistinct(t.lv[0], t.recs, rec);
    RecordListed(t.lv[0], t.recs, rec);
    rec.refCount := rec.refCount - 1;
    if rec.refCount == 0 {
      ghost var i :| 0 <= i < |t.recs| && t.recs[i] == rec;
      DestroyRecord(t, rec);
      RecordGone(t.lv[0], t.recs, i);
      DataBytesRemove(t.recs, i);
      t.recs := t.recs[..i] + t.recs[i + 1..];
    } else {
      CountsSettled(t.lv[0], t.recs, rec);
    }
    SizesIntro(t);
    ValidIntro(t);
  }

  // ----- Reassigning a slot -----

  lemma CountUpdate(c: Level, d: nat, e: Entry, r: Record)
    requires d < |c|
    ensures Count(c[d := e], r) + (if c[d].p == ToRecord(r) then 1 else 0) == Count(c, r) + (if e.p == ToRecord(r) then 1 else 0)
  {
    assert c == Insert(c[..d] + c[d + 1..], d, c[d]);
    assert c[d := e] == Insert(c[..d] + c[d + 1..], d, e);
    CountInsert(c[..d] + c[d + 1..], d, c[d], r);
    CountInsert(c[..d] + c[d + 1..], d, e, r);
  }

  lemma KeyBytesUpdate(c: Level, d: nat, e: Entry)
    requires d < |c| && e.s == c[d].s && e.s != null
    ensures KeyBytes(c[d := e]) == KeyBytes(c)
  {
    assert c == Insert(c[..d] + c[d + 1..], d, c[d]);
    assert c[d := e] == Insert(c[..d] + c[d + 1..], d, e);
    KeyBytesInsert(c[..d] + c[d + 1..], d, c[d]);
    KeyBytesInsert(c[..d] + c[d + 1..], d, e);
  }

  lemma KeysOfUpdate(c: Level, d: nat, e: Entry)
    requires d < |c| && e.s == c[d].s
    ensures KeysOf(c[d := e]) == KeysOf(c)
  {
    var c' := c[d := e];
    forall f | f in c ensures exists g :: g in c' && g.s == f.s {
      var i :| 0 <= i < |c| && c[i] == f;
      assert c'[i] in c' && c'[i].s == f.s;
    }
    forall f | f in c' ensures exists g :: g in c && g.s == f.s {
      var i :| 0 <= i < |c'| && c'[i] == f;
      assert c[i] in c && c[i].s == f.s;
    }
  }

  lemma RecordsReslot(c: Level, d: nat, rec: Record, other: Record, recs: seq<Record>)
    requires d < |c| && c[d].p == ToRecord(other) && rec != other && rec in recs
    requires forall i, j :: 0 <= i < j < |recs| ==> recs[i] != recs[j]
    requires forall i :: 0 <= i < |c| && c[i].p.ToRecord? ==> c[i].p.rec in recs
    requires forall r :: r in recs ==> r.refCount == Count(c, r) + (if r == rec then 1 else 0) && r.refCount > 0
    ensures RecordCountsBut(c[d := Entry(ToRecord(rec), c[d].s)], recs, other)
  {
    var e := Entry(ToRecord(rec), c[d].s);
    forall r | r in recs ensures r.refCount == Count(c[d := e], r) + (if r == other then 1 else 0) {
      CountUpdate(c, d, e, r);
    }
  }

  lemma RecordFacts(c: Level, recs: seq<Record>)
    requires RecordCounts(c, recs)
    ensures forall i, j :: 0 <= i < j < |recs| ==> recs[i] != recs[j]
    ensures forall i :: 0 <= i < |c| && c[i].p.ToRecord? ==> c[i].p.rec in recs
    ensures forall r :: r in recs ==> r.refCount == Count(c, r) && r.refCount > 0
  {
  }

  lemma MapUpdate(c: Level, d: nat, rec: Record)
    requires ContentOK(c) && d < |c|
    ensures ContentOK(c[d := Entry(ToRecord(rec), c[d].s)])
    ensures AsMap(c[d := Entry(ToRecord(rec), c[d].s)]) == AsMap(c)[c[d].s.key := rec]
  {
    var c', m := c[d := Entry(ToRecord(rec), c[d].s)], AsMap(c)[c[d].s.key := rec];
    hide AsMap;
    forall i | 0 <= i < |c'| ensures c'[i].s.key in m && m[c'[i].s.key] == c'[i].p.rec {
      if i != d { InMap(c, i); StrcmpIsRank(c[i].s.key, c[d].s.key); }
    }
    forall k | k in m ensures exists i :: 0 <= i < |c'| && c'[i].s.key == k {
      var i := d;
      if k != c[d].s.key { i := KeyIndex(c, k); }
      assert c'[i].s.key == k;
    }
    MapIs(c', m);
  }

  /** The entry of a key: slot i of leaf p, position lo + i of the content. */
  ghost predicate EntryAt(h: Heap, lv: seq<Level>, key: string, leaf: Node, i: nat, rec: Record, bkey: Key?, p: nat, lo: nat,
                          n: nat) {
    && |lv| >= 2 && p < |lv[1]| && lv[1][p].p == ToNode(leaf) && leaf in h && LeafAt(h, lv[1], lv[0], p, lo, n) && i < n
    && lo + i < |lv[0]| && lv[0][lo + i] == Entry(ToRecord(rec), bkey) && bkey != null && bkey.key == key
    && h[leaf].ps[i] == ToRecord(rec) && h[leaf].ks[i] == bkey
  }

  lemma FoundSlot(h: Heap, lv: seq<Level>, root: Node?, order: nat, keys: set<Key>, key: string, rec: Record, leaf: Node,
                  i: nat, bkey: Key?, p: nat) returns (lo: nat, n: nat)
    requires root != null && Structure(h, lv, root, order, keys)
    requires FindOutcome(h, lv, Exact, key, rec, leaf, i, bkey, p)
    ensures EntryAt(h, lv, key, leaf, i, rec, bkey, p, lo, n)
  {
    hide Linked, Parents, Expand, PtrsOf, Covered, Occupied, KeysKnown, LeafSeps, Chain, LevelOK, Complete, Locates;
    lo, n := Located(h, lv, root, order, keys, p, leaf, key);
    LocatesLeaf(h, lv, p, key, lo, n);
  }

  lemma LocatesLeaf(h: Heap, lv: seq<Level>, p: nat, key: string, lo: nat, n: nat)
    requires Locates(h, lv, p, key, lo, n)
    ensures |lv| >= 2 && LeafAt(h, lv[1], lv[0], p, lo, n) && ContentOK(lv[0])
  {
  }

  lemma EntryParts(h: Heap, lv: seq<Level>, key: string, leaf: Node, i: nat, rec: Record, bkey: Key?, p: nat, lo: nat, n: nat)
    requires EntryAt(h, lv, key, leaf, i, rec, bkey, p, lo, n)
    ensures |lv| >= 2 && p < |lv[1]| && lv[1][p].p == ToNode(leaf) && LeafAt(h, lv[1], lv[0], p, lo, n) && i < n
    ensures lo + i < |lv[0]| && lv[0][lo + i] == Entry(ToRecord(rec), bkey) && bkey != null && bkey.key == key
    ensures leaf in h && n == |h[leaf].ps| == |h[leaf].ks| && h[leaf].ps[i] == ToRecord(rec) && h[leaf].ks[i] == bkey
  {
  }

  /** _find with what its outcome says about the map. */
  method FindEntry(t: BPlusTree, key: string)
    returns (rec: Record?, leaf: Node?, i: nat, bkey: Key?, ghost p: nat, ghost lo: nat, ghost n: nat)
    requires Valid(t)
    ensures Valid(t) && StateOf(t) == old(StateOf(t)) && |t.lv| >= 1
    ensures rec == null <==> key !in MapOf(t)
    ensures rec == null ==> forall m :: 0 <= m < |t.lv[0]| ==> t.lv[0][m].s != null && t.lv[0][m].s.key != key
    ensures rec != null ==> t.root != null && rec == MapOf(t)[key] && rec in t.recs
    ensures rec != null ==> leaf != null && leaf in t.nodes && leaf.Shape(t.order) && leaf.isLeaf
    ensures rec != null ==> EntryAt(t.H(), t.lv, key, leaf, i, rec, bkey, p, lo, n)
  {
    hide *;
    lo, n := 0, 0;
    StateParts(t);
    ValidParts(t);
    MapOfIs(t);
    ContentPart(t);
    rec, leaf, i, bkey, p := Find(t, key, Exact);
    ValidIntro(t);
    StateParts(t);
    if t.root == null {
      EmptyMap(t);
    } else {
      ghost var d := FindIndex(t.H(), t.lv, t.root, t.order, t.keys, key, rec, leaf, i, bkey, p);
      if rec == null {
        NotInMap(t.lv[0], key);
      } else {
        InMap(t.lv[0], d);
        Listed(t.lv[0], t.recs, d);
        lo, n := FoundSlot(t.H(), t.lv, t.root, t.order, t.keys, key, rec, leaf, i, bkey, p);
      }
    }
  }

  /** The slot work of a forced alias: the slot of `other` comes to hold rec. */
  method AssignSlot(t: BPlusTree, key: string, leaf: Node, i: nat, rec: Record, ghost other: Record, ghost bkey: Key?, ghost p: nat,
                    ghost lo: nat, ghost n: nat)
    requires Valid(t) && t.root != null && leaf in t.nodes && leaf.Shape(t.order) && leaf.isLeaf
    requires EntryAt(t.H(), t.lv, key, leaf, i, other, bkey, p, lo, n) && rec in t.recs && rec != other
    modifies t`lv, leaf.pointers, rec`refCount
    ensures Allocated(t.nodes, t.order)
    ensures |t.lv| >= 1 && |old(t.lv)| >= 1 && lo + i < |old(t.lv[0])|
    ensures t.lv[0] == old(t.lv[0])[lo + i := Entry(ToRecord(rec), old(t.lv[0])[lo + i].s)]
    ensures Structure(t.H(), t.lv, t.root, t.order, t.keys) && KeyCounts(t.lv, t.keys)
    ensures RecordCountsBut(t.lv[0], t.recs, other) && Sizes(t)
  {
    hide *;
    ghost var h, lv := t.H(), t.lv;
    NotRead(t);
    ValidParts(t);
    ContentPart(t);
    EntryParts(h, lv, key, leaf, i, other, bkey, p, lo, n);
    InSnap(t, leaf);
    RecordFacts(lv[0], t.recs);
    SizesIs(t);
    KeyFacts(lv, t.keys);
    rec.refCount := rec.refCount + 1;
    assert t.H() == h;
    WriteSlot(t, leaf, i, ToRecord(rec));
    ghost var c := lv[0][lo + i := Entry(ToRecord(rec), lv[0][lo + i].s)];
    ghost var h' := h[leaf := h[leaf].(ps := h[leaf].ps[i := ToRecord(rec)])];
    t.lv := lv[0 := c];
    ReslotStructure(h, h', lv, t.root, t.order, t.keys, p, leaf, lo, n, i, rec);
    RecordsReslot(lv[0], lo + i, rec, other, t.recs);
    KeyBytesUpdate(lv[0], lo + i, c[lo + i]);
    KeysOfUpdate(lv[0], lo + i, c[lo + i]);
    KeyIntro(lv, t.lv, t.keys);
    SizesIntro(t);
    assert t.H() == h';
  }

  lemma KeyFacts(lv: seq<Level>, keys: set<Key>)
    requires KeyCounts(lv, keys)
    ensures |lv| >= 1 && keys == KeysOf(lv[0])
    ensures forall q :: q in keys ==> q.refCount == if q in Seps(lv) then 2 else 1
  {
  }

  lemma KeyIntro(lv: seq<Level>, lv': seq<Level>, keys: set<Key>)
    requires |lv| >= 2 && |lv'| == |lv| && lv'[1] == lv[1] && KeysOf(lv'[0]) == keys
    requires forall q :: q in keys ==> q.refCount == if q in Seps(lv) then 2 else 1
    ensures KeyCounts(lv', keys)
  {
  }

  method WriteSlot(t: BPlusTree, leaf: Node, i: nat, x: Ptr)
    requires Allocated(t.nodes, t.order) && leaf in t.nodes && leaf.Shape(t.order) && leaf.isLeaf && i < |leaf.Val().ps|
    modifies leaf.pointers
    ensures leaf in old(t.H()) && i < |old(t.H())[leaf].ps|
    ensures t.H() == old(t.H())[leaf := old(t.H())[leaf].(ps := old(t.H())[leaf].ps[i := x])]
  {
    hide *;
    ghost var h := t.H();
    SnapFacts(t, leaf);
    OrderOf(t);
    SizesOf(leaf, t.order);
    ValOf(leaf, t.order);
    ghost var v := leaf.Val();
    leaf.pointers[i] := x;
    ValOf(leaf, t.order);
    assert leaf.pointers[..leaf.numKeys] == v.ps[i := x];
    Changed(t, h, leaf, v.(ps := v.ps[i := x]));
  }

  // ----- Adding an alias -----

  /** bptree.c bptree_add_alias: afterwards the alias maps to the very record of the key. */
  method AddAlias(t: BPlusTree, key: string, alias: string, force: bool) returns (r: int)
    requires Valid(t)
    modifies t, t.nodes, Arrays(t.nodes), t.keys`refCount, t.recs`refCount
    ensures Valid(t)
    ensures r == 0 || r == -1
    ensures r == -1 ==> StateOf(t) == old(StateOf(t))
    ensures r == 0 ==> key in old(MapOf(t)) && MapOf(t) == old(MapOf(t))[alias := old(MapOf(t))[key]]
    ensures key in old(MapOf(t)) && alias in old(MapOf(t)) ==>
      (r == 0 <==> force || old(MapOf(t))[alias] == old(MapOf(t))[key])
    ensures forall n :: n in t.nodes ==> n in old(t.nodes) || (fresh(n) && fresh(n.bkeys) && fresh(n.pointers))
    ensures forall q :: q in t.keys ==> q in old(t.keys) || fresh(q)
    ensures forall q :: q in t.recs ==> q in old(t.recs) || fresh(q)
  {
    hide *;
    StateParts(t);
    var rec := FindRecord(t, key);
    if rec == null { return -1; }
    StateParts(t);
    NotRead(t);
    MapOfIs(t);
    ghost var c := t.lv[0];
    var recAlias, leaf, i, bkey;
    ghost var p, lo, n;
    recAlias, leaf, i, bkey, p, lo, n := FindEntry(t, alias);
    StateParts(t);
    MapOfIs(t);
    if recAlias == null {
      r := InsertAlias(t, alias, rec);
    } else if rec == recAlias {
      SameMap(MapOf(t), key, alias);
      r := 0;
    } else if !force {
      r := -1;
    } else {
      InSnap(t, leaf);
      Realias(t, alias, leaf, i, rec, recAlias, bkey, p, lo, n);
      r := 0;
    }
  }

  /** A new alias: a key object of its own, the record shared; or no trace. */
  method InsertAlias(t: BPlusTree, alias: string, rec: Record) returns (r: int)
    requires Valid(t) && t.root != null && rec in t.recs && |t.lv| >= 1
    requires forall m :: 0 <= m < |t.lv[0]| ==> t.lv[0][m].s != null && t.lv[0][m].s.key != alias
    modifies t, t.nodes, Arrays(t.nodes), t.keys`refCount, rec`refCount
    ensures Valid(t)
    ensures r == 0 || r == -1
    ensures r == -1 ==> StateOf(t) == old(StateOf(t))
    ensures r == 0 ==> MapOf(t) == old(MapOf(t))[alias := rec]
    ensures forall n :: n in t.nodes ==> n in old(t.nodes) || (fresh(n) && fresh(n.bkeys) && fresh(n.pointers))
    ensures forall q :: q in t.keys ==> q in old(t.keys) || fresh(q)
    ensures t.recs == old(t.recs)
  {
    hide *;
    ghost var s := StateOf(t);
    StandsNow(t, s);
    StandsParts(t, s);
    StateParts(t);
    RecordFacts(s.lv[0], s.recs);
    NotRead(t);
    MapOfIs(t);
    var q := MakeKey(t, alias);
    if q == null {
      StandsIntro(t, s);
      StandsValid(t, s);
      return -1;
    }
    ghost var d;
    r, d := DoInsert(t, q, rec);
    if r == -1 {
      CountsSettled(s.lv[0], s.recs, rec);
      DestroyKey(t, q);
      StandsIntro(t, s);
      StandsValid(t, s);
    } else {
      AliasIn(t, s, q, rec, d);
    }
  }

  lemma AliasIn(t: BPlusTree, s: State, q: Key, rec: Record, d: nat)
    requires Allocated(t.nodes, t.order) && t.order >= 4 && t.recs == s.recs && rec in s.recs && |s.lv| >= 1
    requires t.keys == s.keys + {q} && |t.nodes| >= |s.nodes|
    requires forall i, j :: 0 <= i < j < |s.recs| ==> s.recs[i] != s.recs[j]
    requires forall i :: 0 <= i < |s.lv[0]| && s.lv[0][i].p.ToRecord? ==> s.lv[0][i].p.rec in s.recs
    requires forall r :: r in s.recs ==> r.refCount == Count(s.lv[0], r) + (if r == rec then 1 else 0) && Count(s.lv[0], r) > 0
    requires t.metaSize == TREE_SIZE + NodeBytes(t.order, |s.nodes|) + KeyBytes(s.lv[0]) + |s.recs| * RECORD_SIZE
                         + KeySize(q) + NodeBytes(t.order, |t.nodes| - |s.nodes|)
    requires t.dataSize == DataBytes(s.recs) && t.numEntries == |s.recs|
    requires ContentOK(s.lv[0])
    requires forall m :: 0 <= m < |s.lv[0]| ==> s.lv[0][m].s != null && s.lv[0][m].s.key != q.key
    requires Inserted(t.H(), s.lv, t.lv, t.root, t.order, s.keys, q, rec, d) && KeyCounts(t.lv, t.keys)
    ensures Valid(t) && MapOf(t) == AsMap(s.lv[0])[q.key := rec]
  {
    hide *;
    InsertedIs(t.H(), s.lv, t.lv, t.root, t.order, s.keys, q, rec, d);
    InsertedStructure(t.H(), s.lv, t.lv, t.root, t.order, s.keys, q, rec, d);
    var e := Entry(ToRecord(rec), q);
    RecordsAlias(s.lv[0], d, e, s.recs, rec);
    KeyBytesInsert(s.lv[0], d, e);
    NodeBytesAdd(t.order, |s.nodes|, |t.nodes| - |s.nodes|);
    SizesIntro(t);
    ValidIntro(t);
    MapOfIs(t);
    MapInsert(s.lv[0], d, e);
  }

  lemma InsertedStructure(h: Heap, lv: seq<Level>, lv': seq<Level>, root: Node?, order: nat, keys: set<Key>, bk: Key, rec: Record, d: nat)
    requires Inserted(h, lv, lv', root, order, keys, bk, rec, d)
    ensures Structure(h, lv', root, order, keys + {bk})
  {
  }

  lemma SameMap(m: map<string, Record>, key: string, alias: string)
    requires key in m && alias in m && m[key] == m[alias]
    ensures m == m[alias := m[key]]
  {
  }

  /** A forced alias over an existing entry. */
  method Realias(t: BPlusTree, key: string, leaf: Node, i: nat, rec: Record, other: Record, ghost bkey: Key?, ghost p: nat,
                 ghost lo: nat, ghost n: nat)
    requires Valid(t) && t.root != null && leaf in t.nodes && leaf.Shape(t.order) && leaf.isLeaf
    requires EntryAt(t.H(), t.lv, key, leaf, i, other, bkey, p, lo, n) && rec in t.recs && rec != other && other in t.recs
    modifies t`lv, leaf.pointers, rec`refCount, other`refCount, t`metaSize, t`dataSize, t`numEntries, t`recs
    ensures Valid(t) && MapOf(t) == old(MapOf(t))[key := rec]
    ensures forall o :: o in t.recs ==> o in old(t.recs)
  {
    hide *;
    MapOfIs(t);
    EntryParts(t.H(), t.lv, key, leaf, i, other, bkey, p, lo, n);
    MapUpdate(t.lv[0], lo + i, rec);
    AssignSlot(t, key, leaf, i, rec, other, bkey, p, lo, n);
    UnrefRecord(t, other);
    MapOfIs(t);
  }
}
