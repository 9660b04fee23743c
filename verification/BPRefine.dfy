/** What callers see of a tree: keys, the records they share and the records' data; and what each operation does to it. */
module BPRefine {
  import opened BPTypes
  import opened BPLevels
  import opened BPSlots
  import opened BPTree
  import opened BPFind
  import opened BPValid
  import opened BPMap
  import opened BPAlias
  import BPErase
  import BPUpdate

  /** What a key shows. Keys that share a record show the same. */
  datatype Cell = Cell(rec: Record, data: int, dataSize: nat)
  type Entries = map<string, Cell>

  ghost function View(t: BPlusTree): Entries
    reads t`lv, MapOf(t).Values
  {
    map k | k in MapOf(t) :: Cell(MapOf(t)[k], MapOf(t)[k].data, MapOf(t)[k].dataSize)
  }

  /** The number of keys that show the same record as `key`. */
  ghost function Sharers(v: Entries, key: string): nat
    requires key in v
  {
    |set k | k in v && v[k].rec == v[key].rec|
  }

  // ----- What the operations do -----

  datatype Op = Add(key: string, data: int, dataSize: nat)
              | Alias(key: string, alias: string, force: bool)
              | Update(key: string, newData: Option<int>, newSize: nat, fn: Option<BPUpdate.Callback>)
              | Del(key: string)

  /** Writing through a key: every key that shares its record shows the write. A new key gets a record of its own. */
  ghost predicate Wrote(v: Entries, v': Entries, key: string, data: int, dataSize: nat) {
    if key in v then
      v' == map k | k in v :: if v[k].rec == v[key].rec then Cell(v[k].rec, data, dataSize) else v[k]
    else
      && key in v' && v'[key].data == data && v'[key].dataSize == dataSize && v' == v[key := v'[key]]
      && forall k :: k in v ==> v[k].rec != v'[key].rec
  }

  /** Removing a key: it is gone and all others stay; they show what they showed exactly when the deletion is exact. */
  ghost predicate Removed(v: Entries, v': Entries, key: string, exact: bool) {
    && v'.Keys == v.Keys - {key}
    && (key !in v ==> v' == v)
    && (key in v ==> (v' == v - {key} <==> exact))
  }

  /** What the update callback is shown: the reference count is the number of keys that share the record. */
  ghost function Was(v: Entries, key: string): BPUpdate.OldValue {
    if key in v then BPUpdate.OldValue(v[key].data, v[key].dataSize, Sharers(v, key)) else BPUpdate.OldValue(0, 0, 0)
  }

  /** The entries, and the layout, which decides whether a deletion is exact. */
  datatype Moment = Moment(view: Entries, h: Heap, lv: seq<Level>)

  ghost predicate Does(op: Op, a: Moment, b: Moment, r: int) {
    if op.Add? then
      if r == 0 then Wrote(a.view, b.view, op.key, op.data, op.dataSize) else r == -1 && op.key !in a.view && b.view == a.view
    else if op.Alias? then
      if r == 0 then
        && op.key in a.view && b.view == a.view[op.alias := a.view[op.key]]
        && (op.alias in a.view ==> op.force || a.view[op.alias].rec == a.view[op.key].rec)
      else
        && r == -1 && b.view == a.view
        && (op.key in a.view && op.alias in a.view ==> !op.force && a.view[op.alias].rec != a.view[op.key].rec)
    else if op.Update? then
      Updates(op.key, BPUpdate.AnswerTo(op.key, Was(a.view, op.key), op.newData, op.newSize, op.fn), a, b, r)
    else
      r == 0 && Removed(a.view, b.view, op.key, BPErase.DelExact(a.h, a.lv, op.key))
  }

  ghost predicate Updates(key: string, answer: BPUpdate.Answer, a: Moment, b: Moment, r: int) {
    if answer.act.Skip? then r == 0 && b.view == a.view
    else if answer.act.Remove? then r == 0 && Removed(a.view, b.view, key, BPErase.DelExact(a.h, a.lv, key))
    else if r == 0 then Wrote(a.view, b.view, key, if answer.data.Some? then answer.data.value else 0, answer.dataSize)
    else r == -1 && key !in a.view && b.view == a.view
  }

  ghost function MomentOf(t: BPlusTree): Moment
    reads t, t.nodes, Arrays(t.nodes), MapOf(t).Values
  {
    Moment(View(t), t.H(), t.lv)
  }

  // ----- Reading the entries -----

  lemma ViewIs(t: BPlusTree)
    ensures View(t).Keys == MapOf(t).Keys
    ensures forall k :: k in MapOf(t) ==> View(t)[k] == Cell(MapOf(t)[k], MapOf(t)[k].data, MapOf(t)[k].dataSize)
    ensures MomentOf(t) == Moment(View(t), t.H(), t.lv)
  {
    hide MapOf, Snap;
  }

  /** The map's records are the tree's. */
  lemma Recorded(t: BPlusTree)
    requires Valid(t)
    ensures forall k :: k in MapOf(t) ==> MapOf(t)[k] in t.recs
  {
    hide AsMap, Structure, Sizes, Allocated, KeyCounts, Snap;
    ContentPart(t);
    MapOfIs(t);
    forall k | k in MapOf(t) ensures MapOf(t)[k] in t.recs {
      var i := KeyIndex(t.lv[0], k);
    }
  }

  ghost function Holders(c: Level, rec: Record): set<string>
    requires ContentOK(c)
  {
    set k | k in AsMap(c) && AsMap(c)[k] == rec
  }

  /** Slots are counted by their keys. */
  lemma {:induction false} CountIsHolders(c: Level, rec: Record)
    requires ContentOK(c)
    ensures Count(c, rec) == |Holders(c, rec)|
  {
    hide AsMap;
    if c == [] {
      assert Holders(c, rec) == {} by { NoKeys(c); }
    } else {
      TailContentOK(c);
      CountIsHolders(c[1..], rec);
      assert c == Insert(c[1..], 0, c[0]);
      MapInsert(c[1..], 0, c[0]);
      NotInMap(c[1..], c[0].s.key);
      var more := if c[0].p == ToRecord(rec) then {c[0].s.key} else {};
      assert Holders(c, rec) == Holders(c[1..], rec) + more;
    }
  }

  lemma NoKeys(c: Level)
    requires c == [] && ContentOK(c)
    ensures AsMap(c) == map[]
  {
  }

  lemma TailContentOK(c: Level)
    requires ContentOK(c) && c != []
    ensures ContentOK(c[1..]) && c[0].p.ToRecord? && c[0].s != null
    ensures forall m :: 0 <= m < |c| - 1 ==> c[1..][m].s.key != c[0].s.key
  {
    forall m | 0 <= m < |c| - 1 ensures c[1..][m].s.key != c[0].s.key {
      assert c[1..][m] == c[m + 1];
    }
  }

  /** A record's reference count is the number of keys that show it. */
  lemma RefCountIsSharers(t: BPlusTree, key: string)
    requires Valid(t) && key in MapOf(t)
    ensures key in View(t) && MapOf(t)[key].refCount == Sharers(View(t), key)
  {
    hide AsMap, Structure, Sizes, Allocated, KeyCounts, Snap, ContentOK, Count, View, MapOf;
    ContentPart(t);
    MapOfIs(t);
    Recorded(t);
    ViewIs(t);
    var rec := MapOf(t)[key];
    CountIsHolders(t.lv[0], rec);
    assert Holders(t.lv[0], rec) == set k | k in View(t) && View(t)[k].rec == View(t)[key].rec;
  }

  // ----- Establishing the effects -----

  lemma WroteShared(v: Entries, v': Entries, key: string, data: int, dataSize: nat)
    requires key in v && v'.Keys == v.Keys
    requires forall k :: k in v ==> v'[k] == if v[k].rec == v[key].rec then Cell(v[k].rec, data, dataSize) else v[k]
    ensures Wrote(v, v', key, data, dataSize)
  {
  }

  lemma WroteNew(v: Entries, v': Entries, key: string, data: int, dataSize: nat)
    requires key !in v && v'.Keys == v.Keys + {key} && v'[key].data == data && v'[key].dataSize == dataSize
    requires forall k :: k in v ==> v'[k] == v[k] && v[k].rec != v'[key].rec
    ensures Wrote(v, v', key, data, dataSize)
  {
    assert v' == v[key := v'[key]];
  }

  lemma SameView(v: Entries, v': Entries)
    requires v'.Keys == v.Keys && forall k :: k in v ==> v'[k] == v[k]
    ensures v' == v
  {
  }

  lemma RemovedAre(v: Entries, v': Entries, key: string, m: map<string, Record>, m': map<string, Record>, exact: bool)
    requires v.Keys == m.Keys && v'.Keys == m'.Keys && m'.Keys == m.Keys - {key}
    requires forall k :: k in v ==> v[k].rec == m[k]
    requires forall k :: k in v' ==> v'[k].rec == m'[k]
    requires forall k, x :: k in v && x in v' && v[k].rec == v'[x].rec ==> v[k] == v'[x]
    requires key !in m ==> m' == m
    requires key in m ==> (m' == m - {key} <==> exact)
    ensures Removed(v, v', key, exact)
  {
    if m' == m - {key} {
      assert v' == v - {key};
    }
    if v' == v - {key} {
      forall k | k in m' ensures m'[k] == m[k] {
        assert v'[k] == v[k];
      }
      assert m' == m - {key};
    }
  }

  // ----- The operations -----

  method PerformAdd(t: BPlusTree, op: Op) returns (r: int)
    requires Valid(t) && op.Add?
    modifies t, t.nodes, Arrays(t.nodes), t.keys`refCount, t.recs`data, t.recs`dataSize
    ensures Valid(t) && Does(op, old(MomentOf(t)), MomentOf(t), r)
    ensures forall n :: n in t.nodes ==> n in old(t.nodes) || (fresh(n) && fresh(n.bkeys) && fresh(n.pointers))
    ensures forall q :: q in t.keys ==> q in old(t.keys) || fresh(q)
    ensures forall q :: q in t.recs ==> q in old(t.recs) || fresh(q)
  {
    hide *;
    ghost var a, m := MomentOf(t), MapOf(t);
    ViewIs(t);
    Recorded(t);
    StateParts(t);
    MapOfLv(t);
    r := BPMap.Add(t, op.key, op.data, op.dataSize);
    ViewIs(t);
    StateParts(t);
    MapOfLv(t);
    if r != 0 {
      SameView(a.view, View(t));
    } else if op.key in m {
      WroteShared(a.view, View(t), op.key, op.data, op.dataSize);
    } else {
      WroteNew(a.view, View(t), op.key, op.data, op.dataSize);
    }
    AddDoes(op, a, MomentOf(t), r);
  }

  lemma AddDoes(op: Op, a: Moment, b: Moment, r: int)
    requires op.Add?
    requires if r == 0 then Wrote(a.view, b.view, op.key, op.data, op.dataSize) else r == -1 && op.key !in a.view && b.view == a.view
    ensures Does(op, a, b, r)
  {
    hide Wrote;
  }

  method PerformAlias(t: BPlusTree, op: Op) returns (r: int)
    requires Valid(t) && op.Alias?
    modifies t, t.nodes, Arrays(t.nodes), t.keys`refCount, t.recs`refCount
    ensures Valid(t) && Does(op, old(MomentOf(t)), MomentOf(t), r)
    ensures forall n :: n in t.nodes ==> n in old(t.nodes) || (fresh(n) && fresh(n.bkeys) && fresh(n.pointers))
    ensures forall q :: q in t.keys ==> q in old(t.keys) || fresh(q)
    ensures forall q :: q in t.recs ==> q in old(t.recs) || fresh(q)
  {
    hide *;
    ghost var a, m := MomentOf(t), MapOf(t);
    ViewIs(t);
    Recorded(t);
    StateParts(t);
    MapOfLv(t);
    NotRead(t);
    r := AddAlias(t, op.key, op.alias, op.force);
    ViewIs(t);
    StateParts(t);
    MapOfLv(t);
    AliasDoes(op, a, MomentOf(t), m, MapOf(t), r);
  }

  lemma AliasDoes(op: Op, a: Moment, b: Moment, m: map<string, Record>, m': map<string, Record>, r: int)
    requires op.Alias? && (r == 0 || r == -1)
    requires a.view.Keys == m.Keys && b.view.Keys == m'.Keys
    requires forall k :: k in m ==> a.view[k].rec == m[k]
    requires forall k :: k in m' ==> b.view[k].rec == m'[k]
    requires forall k, x :: k in m && x in m' && m[k] == m'[x] ==> a.view[k] == b.view[x]
    requires if r == 0 then op.key in m && m' == m[op.alias := m[op.key]] else m' == m
    requires op.key in m && op.alias in m ==> (r == 0 <==> op.force || m[op.alias] == m[op.key])
    ensures Does(op, a, b, r)
  {
    if r == 0 {
      forall k | k in m' ensures b.view[k] == a.view[op.alias := a.view[op.key]][k] {
        assert m'[k] == m[if k == op.alias then op.key else k];
      }
      assert b.view == a.view[op.alias := a.view[op.key]];
    } else {
      SameView(a.view, b.view);
    }
  }

  method PerformDel(t: BPlusTree, op: Op) returns (r: int)
    requires Valid(t) && op.Del?
    modifies t, t.nodes, Arrays(t.nodes), t.keys`refCount, t.recs`refCount
    ensures Valid(t) && Does(op, old(MomentOf(t)), MomentOf(t), r)
    ensures t.nodes <= old(t.nodes) && t.keys <= old(t.keys) && forall q :: q in t.recs ==> q in old(t.recs)
  {
    hide *;
    ghost var a, m := MomentOf(t), MapOf(t);
    ViewIs(t);
    Recorded(t);
    StateParts(t);
    MapOfLv(t);
    NotRead(t);
    r := BPErase.Del(t, op.key);
    ViewIs(t);
    StateParts(t);
    MapOfLv(t);
    RemovedAre(a.view, View(t), op.key, m, MapOf(t), BPErase.DelExact(a.h, a.lv, op.key));
    DelDoes(op, a, MomentOf(t));
  }

  lemma DelDoes(op: Op, a: Moment, b: Moment)
    requires op.Del? && Removed(a.view, b.view, op.key, BPErase.DelExact(a.h, a.lv, op.key))
    ensures Does(op, a, b, 0)
  {
    hide Removed, BPErase.DelExact;
  }

  method PerformUpdate(t: BPlusTree, op: Op) returns (r: int)
    requires Valid(t) && op.Update?
    modifies t, t.nodes, Arrays(t.nodes), t.keys`refCount, t.recs
    ensures Valid(t) && Does(op, old(MomentOf(t)), MomentOf(t), r)
    ensures forall n :: n in t.nodes ==> n in old(t.nodes) || (fresh(n) && fresh(n.bkeys) && fresh(n.pointers))
    ensures forall q :: q in t.keys ==> q in old(t.keys) || fresh(q)
    ensures forall q :: q in t.recs ==> q in old(t.recs) || fresh(q)
  {
    hide *;
    ghost var a, m := MomentOf(t), MapOf(t);
    ViewIs(t);
    Recorded(t);
    StateParts(t);
    MapOfLv(t);
    WasIsWas(t, op.key);
    ghost var answer;
    r, answer := BPUpdate.Update(t, op.key, op.newData, op.newSize, op.fn);
    ViewIs(t);
    StateParts(t);
    MapOfLv(t);
    if answer.act.Remove? {
      RemovedAre(a.view, View(t), op.key, m, MapOf(t), BPErase.DelExact(a.h, a.lv, op.key));
    } else if answer.act.Skip? || r != 0 {
      SameView(a.view, View(t));
    } else if op.key in m {
      WroteShared(a.view, View(t), op.key, if answer.data.Some? then answer.data.value else 0, answer.dataSize);
    } else {
      WroteNew(a.view, View(t), op.key, if answer.data.Some? then answer.data.value else 0, answer.dataSize);
    }
    UpdateDoes(op, answer, a, MomentOf(t), r);
  }

  lemma WasIsWas(t: BPlusTree, key: string)
    requires Valid(t)
    ensures BPUpdate.WasOf(t, key) == Was(View(t), key)
  {
    hide MapOf, View, Valid, Sharers;
    ViewIs(t);
    if key in MapOf(t) { RefCountIsSharers(t, key); }
  }

  lemma UpdateDoes(op: Op, answer: BPUpdate.Answer, a: Moment, b: Moment, r: int)
    requires op.Update? && (r == 0 || r == -1) && answer == BPUpdate.AnswerTo(op.key, Was(a.view, op.key), op.newData, op.newSize, op.fn)
    requires r == -1 ==> answer.act.Write? && op.key !in a.view
    requires answer.act.Skip? || r == -1 ==> b.view == a.view
    requires answer.act.Remove? ==> Removed(a.view, b.view, op.key, BPErase.DelExact(a.h, a.lv, op.key))
    requires answer.act.Write? && r == 0 ==> Wrote(a.view, b.view, op.key, if answer.data.Some? then answer.data.value else 0, answer.dataSize)
    ensures Does(op, a, b, r)
  {
    hide Removed, Wrote, BPErase.DelExact, BPUpdate.AnswerTo, Was;
  }

  ghost function MapOfLevels(lv: seq<Level>): map<string, Record> {
    if |lv| >= 1 && ContentOK(lv[0]) then AsMap(lv[0]) else map[]
  }

  lemma MapOfLv(t: BPlusTree)
    ensures MapOf(t) == MapOfLevels(t.lv)
  {
  }
}
