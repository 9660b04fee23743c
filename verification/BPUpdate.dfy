/** bptree_update: a callback, or the presence of data, decides between writing, removing and leaving an entry alone. */
module BPUpdate {
  import opened BPTypes
  import opened BPTree
  import opened BPValid
  import opened BPMap
  import BPErase

  /** The answer of an update callback: what to do, and the value to write. A missing value stands for a null pointer. */
  datatype Action = Skip | Write | Remove
  datatype Answer = Answer(act: Action, data: Option<int>, dataSize: nat)
  datatype OldValue = OldValue(data: int, dataSize: nat, refCount: nat)
  type Callback = (string, OldValue, Option<int>, nat) -> Answer

  /** The answer an update acts on: the callback's, or without one a write if there is data and else a removal. */
  ghost function AnswerTo(key: string, was: OldValue, data: Option<int>, dataSize: nat, fn: Option<Callback>): Answer {
    if fn.Some? then fn.value(key, was, data, dataSize) else Answer(if data.Some? then Write else Remove, data, dataSize)
  }

  lemma AnswerIs(key: string, was: OldValue, data: Option<int>, dataSize: nat, fn: Option<Callback>)
    ensures fn.Some? ==> AnswerTo(key, was, data, dataSize, fn) == fn.value(key, was, data, dataSize)
    ensures fn.None? ==> AnswerTo(key, was, data, dataSize, fn) == Answer(if data.Some? then Write else Remove, data, dataSize)
  {
  }

  /** What the callback is shown. */
  ghost function WasOf(t: BPlusTree, key: string): OldValue
    reads t`lv, MapOf(t).Values
  {
    if key in MapOf(t) then OldValue(MapOf(t)[key].data, MapOf(t)[key].dataSize, MapOf(t)[key].refCount) else OldValue(0, 0, 0)
  }

  lemma WasIs(t: BPlusTree, key: string)
    ensures WasOf(t, key) == if key in MapOf(t) then OldValue(MapOf(t)[key].data, MapOf(t)[key].dataSize, MapOf(t)[key].refCount) else OldValue(0, 0, 0)
  {
  }

  /** bptree.c bptree_update */
  method Update(t: BPlusTree, key: string, data: Option<int>, dataSize: nat, fn: Option<Callback>) returns (r: int, ghost a: Answer)
    requires Valid(t)
    modifies t, t.nodes, Arrays(t.nodes), t.keys`refCount, t.recs
    ensures Valid(t) && (r == 0 || r == -1)
    ensures forall q :: q in old(t.recs) && (key in old(MapOf(t)) ==> q != old(MapOf(t))[key]) ==>
      q.data == old(q.data) && q.dataSize == old(q.dataSize)
    ensures !a.act.Write? ==> forall q :: q in old(t.recs) ==> q.data == old(q.data) && q.dataSize == old(q.dataSize)
    ensures a == AnswerTo(key, old(WasOf(t, key)), data, dataSize, fn)
    ensures a.act.Skip? || r == -1 ==> StateOf(t) == old(StateOf(t))
    ensures r == -1 ==> a.act.Write? && key !in old(MapOf(t))
    ensures a.act.Write? && r == 0 ==>
      key in MapOf(t) && MapOf(t)[key].data == (if a.data.Some? then a.data.value else 0) && MapOf(t)[key].dataSize == a.dataSize
    ensures a.act.Write? && r == 0 && key in old(MapOf(t)) ==> MapOf(t) == old(MapOf(t))
    ensures a.act.Write? && r == 0 && key !in old(MapOf(t)) ==>
      key in MapOf(t) && fresh(MapOf(t)[key]) && MapOf(t) == old(MapOf(t))[key := MapOf(t)[key]]
    ensures a.act.Remove? && key !in old(MapOf(t)) ==> StateOf(t) == old(StateOf(t))
    ensures a.act.Remove? ==> MapOf(t).Keys == old(MapOf(t)).Keys - {key}
    ensures a.act.Remove? && key in old(MapOf(t)) ==>
      (MapOf(t) == old(MapOf(t)) - {key} <==> BPErase.DelExact(old(t.H()), old(t.lv), key))
    ensures forall n :: n in t.nodes ==> n in old(t.nodes) || (fresh(n) && fresh(n.bkeys) && fresh(n.pointers))
    ensures forall q :: q in t.keys ==> q in old(t.keys) || fresh(q)
    ensures forall q :: q in t.recs ==> q in old(t.recs) || fresh(q)
  {
    hide *;
    r := 0;
    StateParts(t);
    NotRead(t);
    WasIs(t, key);
    AnswerIs(key, WasOf(t, key), data, dataSize, fn);
    var rec := FindRecord(t, key);
    StateParts(t);
    var answer;
    if fn.Some? {
      answer := fn.value(key, if rec == null then OldValue(0, 0, 0) else OldValue(rec.data, rec.dataSize, rec.refCount), data, dataSize);
    } else {
      answer := Answer(if data.Some? then Write else Remove, data, dataSize);
    }
    a := answer;
    var value := if answer.data.Some? then answer.data.value else 0;
    match answer.act
    case Skip =>
    case Write =>
      if rec != null {
        WriteRecord(t, rec, value, answer.dataSize);
      } else {
        r := Add(t, key, value, answer.dataSize);
      }
    case Remove =>
      r := BPErase.Del(t, key);
  }
}
