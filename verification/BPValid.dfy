/** The invariant of the whole tree object: shape, contents, reference counts and size counters. */
module BPValid {
  import opened BPTypes
  import opened BPLevels
  import opened BPTree
  import opened BPInsert
  import opened BPFind

  /** The shape: an empty tree, or a complete one whose leaves are chained and end in their separators, over
      strictly ascending content. */
  ghost predicate Structure(h: Heap, lv: seq<Level>, root: Node?, order: nat, keys: set<Key>) {
    && |lv| >= 1 && ContentOK(lv[0])
    && if root == null then h == map[] && lv == [[]]
       else Complete(h, lv, root, order, keys) && LeafSeps(h, lv[1]) && Chain(h, lv[1])
  }

  /** The separators of the leaves: the keys that also occupy an internal slot. */
  ghost function Seps(lv: seq<Level>): set<Key> {
    if |lv| < 2 then {} else set e | e in lv[1] && e.s != null :: e.s
  }

  ghost function KeysOf(c: Level): set<Key> {
    set e | e in c && e.s != null :: e.s
  }

  /** A key object is referenced once, or twice if it is the maximum of a leaf that is not the rightmost. */
  ghost predicate KeyCounts(lv: seq<Level>, keys: set<Key>)
    reads keys`refCount
  {
    && |lv| >= 1 && keys == KeysOf(lv[0])
    && forall q :: q in keys ==> q.refCount == if q in Seps(lv) then 2 else 1
  }

  /** The number of leaf slots that hold a record. */
  ghost function Count(c: Level, r: Record): nat {
    if c == [] then 0 else (if c[0].p == ToRecord(r) then 1 else 0) + Count(c[1..], r)
  }

  /** Every record in use is listed once and counts its leaf slots. */
  ghost predicate RecordCounts(c: Level, recs: seq<Record>)
    reads recs`refCount
  {
    && (forall i, j :: 0 <= i < j < |recs| ==> recs[i] != recs[j])
    && (forall i :: 0 <= i < |c| && c[i].p.ToRecord? ==> c[i].p.rec in recs)
    && (forall r :: r in recs ==> r.refCount == Count(c, r) > 0)
  }

  ghost function KeyBytes(c: Level): nat {
    if c == [] then 0 else (if c[0].s == null then 0 else KeySize(c[0].s)) + KeyBytes(c[1..])
  }

  ghost function Sum(s: seq<nat>): nat {
    if s == [] then 0 else s[0] + Sum(s[1..])
  }

  ghost function DataBytes(recs: seq<Record>): nat
    reads recs`dataSize
  {
    if recs == [] then 0 else recs[0].dataSize + DataBytes(recs[1..])
  }

  /** The size counters are the exact sums over what is allocated. */
  ghost predicate Sizes(t: BPlusTree)
    reads t, t.recs`dataSize
  {
    && t.order >= 4 && |t.lv| >= 1
    && t.metaSize == TREE_SIZE + NodeBytes(t.order, |t.nodes|) + KeyBytes(t.lv[0]) + |t.recs| * RECORD_SIZE
    && t.dataSize == DataBytes(t.recs)
    && t.numEntries == |t.recs|
  }

  ghost predicate Valid(t: BPlusTree)
    reads t, t.nodes, Arrays(t.nodes), t.keys, t.recs
  {
    && Allocated(t.nodes, t.order)
    && Structure(t.H(), t.lv, t.root, t.order, t.keys)
    && KeyCounts(t.lv, t.keys)
    && RecordCounts(t.lv[0], t.recs)
    && Sizes(t)
  }

  /** The ordered map that the tree represents. */
  ghost function AsMap(c: Level): map<string, Record>
    requires ContentOK(c)
  {
    map i | 0 <= i < |c| :: c[i].s.key := c[i].p.rec
  }

  lemma EmptyValid(t: BPlusTree)
    requires t.order >= 4 && t.root == null && t.metaSize == TREE_SIZE && t.dataSize == 0 && t.numEntries == 0
    requires t.lv == [[]] && t.nodes == {} && t.keys == {} && t.recs == []
    ensures Valid(t)
  {
  }
}
