/** The key-value store: records under keys, a rollback log and deferred unsets while a transaction runs, and
    the value objects that pass between them. */
module KvStore {
  import opened BPTypes
  import opened CStrings

  /** A value container. Once created it is never written, only moved between owners and destroyed. */
  class Value {
    const isVector: bool
    const cells: seq<string>

    constructor (vec: bool, cs: seq<string>)
      ensures isVector == vec && cells == cs
    {
      isVector := vec;
      cells := cs;
    }
  }

  /** What a container holds, as callbacks are shown it. */
  datatype Content = Content(isVector: bool, cells: seq<string>)

  function ContentOf(v: Value): Content {
    Content(v.isVector, v.cells)
  }

  /** An entry of the rollback buffer: the value a write replaced. */
  datatype Entry = Entry(key: string, value: Option<Value>, hasArchive: bool, isArchive: bool)

  /** The abstract store. `log` is missing outside transactions; `created`, `dead` and `lost` are the ledger:
      the containers ever made, the ones destroyed, and the ones whose last pointer was dropped. */
  datatype Store = Store(recs: map<string, Value>, log: Option<seq<Entry>>, unsets: seq<string>,
                         created: set<Value>, dead: multiset<Value>, lost: set<Value>)

  function Find(recs: map<string, Value>, key: string): Option<Value> {
    if key in recs then Some(recs[key]) else None
  }

  function Made(s: Store, v: Value): Store {
    s.(created := s.created + {v})
  }

  function Kill(s: Store, v: Option<Value>): Store {
    if v.Some? then s.(dead := s.dead + multiset{v.value}) else s
  }

  /** One write of a record: the value it replaces goes to the log, to the archive, or is destroyed. */
  function Put(s: Store, key: string, v: Value, hasArchive: bool, isArchive: bool): Store {
    var was := Find(s.recs, key);
    var noted :=
      if s.log.Some? then s.(log := Some(s.log.value + [Entry(key, was, hasArchive, isArchive)]))
      else if hasArchive then s
      else Kill(s, was);
    noted.(recs := s.recs[key := v])
  }

  /** A set: the record, and then the replaced value under the archive key. */
  function Set(s: Store, key: string, v: Value, archiveKey: Option<string>): Store {
    var s1 := Put(s, key, v, archiveKey.Some?, false);
    if archiveKey.Some? && key in s.recs then Put(s1, archiveKey.value, s.recs[key], false, true) else s1
  }

  /** An unset takes effect at once outside a transaction and is deferred inside one. */
  function Unset(s: Store, key: string): Store {
    if s.log.Some? then s.(unsets := s.unsets + [key]) else Remove(s, key)
  }

  function Remove(s: Store, key: string): Store {
    Kill(s, Find(s.recs, key)).(recs := s.recs - {key})
  }

  function RemoveAll(s: Store, keys: seq<string>): Store
    decreases keys
  {
    if keys == [] then s else RemoveAll(Remove(s, keys[0]), keys[1..])
  }

  /** What committing does with one entry of the log. */
  function Retire(s: Store, e: Entry): Store {
    if e.hasArchive then s else Kill(s, e.value)
  }

  function RetireAll(s: Store, log: seq<Entry>): Store
    decreases log
  {
    if log == [] then s else RetireAll(Retire(s, log[0]), log[1..])
  }

  /** What rolling back does with one entry of the log. */
  function Undo(s: Store, e: Entry): Store {
    if e.key !in s.recs then Kill(s, e.value)
    else if e.value == Some(s.recs[e.key]) then s
    else
      var s1 := if e.isArchive then s else Kill(s, Some(s.recs[e.key]));
      if e.value.Some? then s1.(recs := s.recs[e.key := e.value.value]) else s1.(recs := s.recs - {e.key})
  }

  function Replay(s: Store, log: seq<Entry>): Store
    decreases log
  {
    if log == [] then s else Replay(Undo(s, log[0]), log[1..])
  }

  function Begin(s: Store): Store {
    s.(log := Some([]), unsets := [])
  }

  function End(s: Store, rollback: bool): Store
    requires s.log.Some?
  {
    var s1 := if rollback then s else RemoveAll(s, s.unsets);
    var s2 := if rollback then Replay(s1, s.log.value) else RetireAll(s1, s.log.value);
    s2.(log := None, unsets := [])
  }

  lemma {:induction false} RemoveAllKeeps(s: Store, keys: seq<string>)
    ensures RemoveAll(s, keys).log == s.log && RemoveAll(s, keys).unsets == s.unsets
    ensures RemoveAll(s, keys).created == s.created && RemoveAll(s, keys).lost == s.lost
    decreases keys
  {
    if keys != [] { RemoveAllKeeps(Remove(s, keys[0]), keys[1..]); }
  }

  lemma {:induction false} RemoveAllSnoc(s: Store, keys: seq<string>, key: string)
    ensures RemoveAll(s, keys + [key]) == Remove(RemoveAll(s, keys), key)
    decreases keys
  {
    if keys == [] {
      assert (keys + [key])[1..] == [];
    } else {
      assert (keys + [key])[1..] == keys[1..] + [key];
      RemoveAllSnoc(Remove(s, keys[0]), keys[1..], key);
    }
  }

  lemma {:induction false} RetireAllSnoc(s: Store, log: seq<Entry>, e: Entry)
    ensures RetireAll(s, log + [e]) == Retire(RetireAll(s, log), e)
    decreases log
  {
    if log == [] {
      assert (log + [e])[1..] == [];
    } else {
      assert (log + [e])[1..] == log[1..] + [e];
      RetireAllSnoc(Retire(s, log[0]), log[1..], e);
    }
  }

  lemma {:induction false} ReplaySnoc(s: Store, log: seq<Entry>, e: Entry)
    ensures Replay(s, log + [e]) == Undo(Replay(s, log), e)
    decreases log
  {
    if log == [] {
      assert (log + [e])[1..] == [];
    } else {
      assert (log + [e])[1..] == log[1..] + [e];
      ReplaySnoc(Undo(s, log[0]), log[1..], e);
    }
  }

  lemma TakeOneMore<T>(s: seq<T>, i: nat)
    requires i < |s|
    ensures s[..i + 1] == s[..i] + [s[i]]
  {
  }

  const EINVAL := 22
  const ENOMEM := 12
  const EIO := 5
  const EBUSY := 16

  /** What the caller's update function answers: leave the record alone, write the new value, or write another one. */
  datatype Verdict = Refuse | Keep | Edit(isVector: bool, cells: seq<string>)
  type Callback = (string, Option<Content>, Content) -> Verdict

  /** The first allocation of a set that fails: the container, the edited container, the log entry or the tree node. */
  datatype Fault = NoFault | NoValue | NoEdited | NoEntry | NoNode

  function CanonicalOpt(key: Option<string>): Option<string> {
    if key.Some? then Some(Canonical(key.value)) else None
  }

  /** What a callback answers when it is shown the key, the content of the old container and the new one's. */
  ghost function Ask(fn: Option<Callback>, key: string, was: Option<Value>, v: Value): Verdict {
    if fn.Some? then fn.value(key, if was.Some? then Some(ContentOf(was.value)) else None, ContentOf(v)) else Keep
  }

  type UnsetCallback = (string, Option<Content>) -> bool

  ghost predicate Agrees(fn: Option<UnsetCallback>, key: string, recs: map<string, Value>) {
    fn.Some? ==> fn.value(key, if key in recs then Some(ContentOf(recs[key])) else None)
  }

  /** How a set can end. `orig` is the container made for the caller, `chosen` the one the callback settled on. */
  datatype Outcome =
    | NoObject
    | Refused(orig: Value)
    | EditLost(orig: Value)
    | NotLogged(orig: Value, chosen: Value)
    | NoRecord(orig: Value, chosen: Value)
    | Stored(orig: Value, chosen: Value)

  ghost function ValuesOf(out: Outcome): set<Value> {
    match out
    case NoObject => {}
    case Refused(o) => {o}
    case EditLost(o) => {o}
    case NotLogged(o, c) => {o, c}
    case NoRecord(o, c) => {o, c}
    case Stored(o, c) => {o, c}
  }

  function Chosen(s: Store, orig: Value, chosen: Value): Store {
    if chosen == orig then Made(s, orig) else Kill(Made(Made(s, orig), chosen), Some(orig))
  }

  /** The store after a set that ended as `out`. */
  function After(s: Store, key: string, archiveKey: Option<string>, out: Outcome): Store {
    match out
    case NoObject => s
    case Refused(o) => Kill(Made(s, o), Some(o))
    case EditLost(o) => Made(s, o).(lost := s.lost + {o})
    case NotLogged(o, c) => Kill(Chosen(s, o, c), Some(c))
    case NoRecord(o, c) => Put(Chosen(s, o, c), key, c, archiveKey.Some?, false).(recs := s.recs, lost := s.lost + {c})
    case Stored(o, c) => Set(Chosen(s, o, c), key, c, archiveKey)
  }

  /** Which outcome a set has, from its arguments, the old record and the allocation that fails. */
  ghost predicate Explains(out: Outcome, s: Store, key: string, isVector: bool, cells: seq<string>,
                           fn: Option<Callback>, fault: Fault) {
    var k := Canonical(key);
    if key == [] || fault.NoValue? then out == NoObject
    else
      && !out.NoObject?
      && out.orig.isVector == isVector && out.orig.cells == cells
      && var verdict := Ask(fn, k, Find(s.recs, k), out.orig);
      if verdict.Refuse? then out.Refused?
      else if verdict.Edit? && fault.NoEdited? then out.EditLost?
      else
        && (out.NotLogged? <==> s.log.Some? && fault.NoEntry?)
        && (out.NoRecord? <==> k !in s.recs && fault.NoNode?)
        && (out.NotLogged? || out.NoRecord? || out.Stored?)
        && (if verdict.Edit? then out.chosen != out.orig && out.chosen.isVector == verdict.isVector && out.chosen.cells == verdict.cells
            else out.chosen == out.orig)
  }

  lemma EndsEarly(s: Store, key: string, archiveKey: Option<string>, isVector: bool, cells: seq<string>,
                  fn: Option<Callback>, fault: Fault)
    ensures After(s, Canonical(key), CanonicalOpt(archiveKey), NoObject) == s
    ensures key == [] || fault.NoValue? ==> Explains(NoObject, s, key, isVector, cells, fn, fault)
    ensures ValuesOf(NoObject) == {}
  {
  }

  lemma EndsEditLost(s: Store, key: string, aKey: Option<string>, isVector: bool, cells: seq<string>,
                     fn: Option<Callback>, fault: Fault, v: Value)
    requires key != [] && !fault.NoValue? && v.isVector == isVector && v.cells == cells
    requires Ask(fn, Canonical(key), Find(s.recs, Canonical(key)), v).Edit? && fault.NoEdited?
    ensures Explains(EditLost(v), s, key, isVector, cells, fn, fault)
    ensures After(s, Canonical(key), aKey, EditLost(v)) == Made(s, v).(lost := Made(s, v).lost + {v})
    ensures ValuesOf(EditLost(v)) == {v}
  {
  }

  lemma EndsRefused(s: Store, key: string, aKey: Option<string>, isVector: bool, cells: seq<string>,
                    fn: Option<Callback>, fault: Fault, v: Value)
    requires key != [] && !fault.NoValue? && v.isVector == isVector && v.cells == cells
    requires Ask(fn, Canonical(key), Find(s.recs, Canonical(key)), v).Refuse?
    ensures Explains(Refused(v), s, key, isVector, cells, fn, fault)
    ensures After(s, Canonical(key), aKey, Refused(v)) == Kill(Made(s, v), Some(v))
    ensures ValuesOf(Refused(v)) == {v}
  {
  }

  /** The store between choosing the value and writing it, and what each way on leads to. */
  lemma EndsChosen(s: Store, key: string, aKey: Option<string>, isVector: bool, cells: seq<string>,
                   fn: Option<Callback>, fault: Fault, v: Value, chosen: Value, s1: Store)
    requires key != [] && !fault.NoValue? && v.isVector == isVector && v.cells == cells
    requires match Ask(fn, Canonical(key), Find(s.recs, Canonical(key)), v)
             case Refuse => false
             case Keep => chosen == v && s1 == Made(s, v)
             case Edit(vec, cs) => !fault.NoEdited? && chosen != v && chosen.isVector == vec && chosen.cells == cs &&
                                   s1 == Kill(Made(Made(s, v), chosen), Some(v))
    ensures s1 == Chosen(s, v, chosen) && s1.recs == s.recs && s1.log == s.log
    ensures var k := Canonical(key); var out := Stored(v, chosen);
      && After(s, k, aKey, out) == Set(s1, k, chosen, aKey) && ValuesOf(out) == {v, chosen}
      && (!(s.log.Some? && fault.NoEntry?) && !(k !in s.recs && fault.NoNode?) ==>
            Explains(out, s, key, isVector, cells, fn, fault))
    ensures var k := Canonical(key); var out := NotLogged(v, chosen);
      && After(s, k, aKey, out) == Kill(s1, Some(chosen)) && ValuesOf(out) == {v, chosen}
      && (s.log.Some? && fault.NoEntry? ==> Explains(out, s, key, isVector, cells, fn, fault))
    ensures var k := Canonical(key); var out := NoRecord(v, chosen);
      && After(s, k, aKey, out) == Put(s1, k, chosen, aKey.Some?, false).(recs := s1.recs, lost := s1.lost + {chosen})
      && ValuesOf(out) == {v, chosen}
      && (k !in s.recs && fault.NoNode? ==> Explains(out, s, key, isVector, cells, fn, fault))
  {
  }

  lemma EndUnfolds(s0: Store, s1: Store, rollback: bool)
    requires s0.log.Some?
    requires s1 == (if rollback then s0 else RemoveAll(s0, s0.unsets)).(unsets := [])
    ensures End(s0, rollback) ==
            (if rollback then Replay(s1, s0.log.value) else RetireAll(s1, s0.log.value)).(log := None)
  {
    RemoveAllKeeps(s0, s0.unsets);
    ReplayIgnores(if rollback then s0 else RemoveAll(s0, s0.unsets), s0.log.value);
  }

  /** Neither replaying nor retiring looks at the unset buffer. */
  lemma {:induction false} ReplayIgnores(s: Store, log: seq<Entry>)
    ensures Replay(s, log).(unsets := []) == Replay(s.(unsets := []), log)
    ensures RetireAll(s, log).(unsets := []) == RetireAll(s.(unsets := []), log)
    decreases log
  {
    if log != [] {
      assert Undo(s.(unsets := []), log[0]) == Undo(s, log[0]).(unsets := []);
      assert Retire(s.(unsets := []), log[0]) == Retire(s, log[0]).(unsets := []);
      ReplayIgnores(Undo(s, log[0]), log[1..]);
      ReplayIgnores(Retire(s, log[0]), log[1..]);
    }
  }

  class KvStore {
    var recs: map<string, Value>
    var rollbackBuf: Option<seq<Entry>>
    var unsetBuf: seq<string>
    ghost var created: set<Value>
    ghost var dead: multiset<Value>
    ghost var lost: set<Value>

    ghost function State(): Store
      reads this
    {
      Store(recs, rollbackBuf, unsetBuf, created, dead, lost)
    }

    constructor ()
      ensures State() == Store(map[], None, [], {}, multiset{}, {})
    {
      recs := map[];
      rollbackBuf := None;
      unsetBuf := [];
      created := {};
      dead := multiset{};
      lost := {};
    }

    /** kvs.c _create_kv_store_value */
    method CreateValue(isVector: bool, cells: seq<string>) returns (v: Value)
      modifies this`created
      ensures fresh(v) && v.isVector == isVector && v.cells == cells
      ensures State() == Made(old(State()), v)
    {
      v := new Value(isVector, cells);
      created := created + {v};
    }

    /** kvs.c _destroy_kv_store_value */
    method DestroyValue(v: Option<Value>)
      modifies this`dead
      ensures State() == Kill(old(State()), v)
    {
      if v.Some? { dead := dead + multiset{v.value}; }
    }

    /** The callback part of kvs.c _update_fn: the value to write, if any. An edit that cannot be allocated drops the
        caller's container. */
    method Consult(key: string, was: Option<Value>, v: Value, fn: Option<Callback>, fault: Fault)
      returns (r: int, write: bool, chosen: Value)
      requires v in created
      modifies this`created, this`dead, this`lost
      ensures recs == old(recs) && rollbackBuf == old(rollbackBuf)
      ensures r == if Ask(fn, key, was, v).Edit? && fault.NoEdited? then -ENOMEM else 0
      ensures write <==> r == 0 && !Ask(fn, key, was, v).Refuse?
      ensures match Ask(fn, key, was, v)
              case Edit(vec, cells) =>
                if r < 0 then chosen == v && State() == old(State()).(lost := old(lost) + {v})
                else fresh(chosen) && chosen.isVector == vec && chosen.cells == cells &&
                     State() == Kill(Made(old(State()), chosen), Some(v))
              case _ => chosen == v && State() == old(State())
    {
      r, write, chosen := 0, true, v;
      if fn.None? { return; }
      var oldContent := if was.Some? then Some(Content(was.value.isVector, was.value.cells)) else None;
      match fn.value(key, oldContent, Content(v.isVector, v.cells))
      case Refuse => write := false;
      case Keep =>
      case Edit(vec, cells) =>
        if fault.NoEdited? {
          lost := lost + {v};
          return -ENOMEM, false, v;
        }
        chosen := CreateValue(vec, cells);
        DestroyValue(Some(v));
    }

    /** The bookkeeping part of kvs.c _update_fn, and the write by the backend. */
    method Write(key: string, v: Value, hasArchive: bool, isArchive: bool, fault: Fault)
      returns (r: int, archived: Option<Value>)
      modifies this
      ensures r == 0 || r == -EIO
      ensures r == -EIO <==>
        (old(rollbackBuf).Some? && fault.NoEntry?) || (key !in old(recs) && fault.NoNode?)
      ensures r == 0 ==> State() == Put(old(State()), key, v, hasArchive, isArchive)
      ensures r == 0 ==> archived == if hasArchive then Find(old(recs), key) else None
      ensures r < 0 ==> archived == None
      ensures r < 0 && fault.NoEntry? ==> State() == Kill(old(State()), Some(v))
      ensures r < 0 && fault.NoNode? ==>
        State() == Put(old(State()), key, v, hasArchive, isArchive).(recs := old(recs), lost := old(lost) + {v})
    {
      var was := Find(recs, key);
      archived := None;
      if rollbackBuf.Some? || hasArchive {
        if rollbackBuf.Some? {
          if fault.NoEntry? {
            DestroyValue(Some(v));
            return -EIO, None;
          }
          rollbackBuf := Some(rollbackBuf.value + [Entry(key, was, hasArchive, isArchive)]);
        }
        if hasArchive { archived := was; }
      } else {
        DestroyValue(was);
      }
      if key !in recs && fault.NoNode? {
        lost := lost + {v};
        return -EIO, None;
      }
      recs := recs[key := v];
      r := 0;
    }

    /** The writes of kvs.c sid_kvs_set: the record, then the replaced value under the archive key. */
    method WriteBoth(key: string, v: Value, archiveKey: Option<string>, fault: Fault) returns (r: int)
      modifies this
      ensures r == if (old(rollbackBuf).Some? && fault.NoEntry?) || (key !in old(recs) && fault.NoNode?) then -EIO else 0
      ensures r == 0 ==> State() == Set(old(State()), key, v, archiveKey)
      ensures r < 0 && fault.NoEntry? ==> State() == Kill(old(State()), Some(v))
      ensures r < 0 && fault.NoNode? ==>
        State() == Put(old(State()), key, v, archiveKey.Some?, false).(recs := old(recs), lost := old(lost) + {v})
    {
      hide Put, Kill;
      var archived;
      r, archived := Write(key, v, archiveKey.Some?, false, fault);
      if r == 0 && archived.Some? {
        var r1, unused := Write(archiveKey.value, archived.value, false, true, NoFault);
      }
    }

    /** kvs.c sid_kvs_set. The archive write itself is taken to succeed. */
    method SetValue(key: string, isVector: bool, cells: seq<string>, fn: Option<Callback>,
                    archiveKey: Option<string>, fault: Fault)
      returns (r: int, stored: Option<Value>, ghost out: Outcome)
      modifies this
      ensures State() == After(old(State()), Canonical(key), CanonicalOpt(archiveKey), out)
      ensures Explains(out, old(State()), key, isVector, cells, fn, fault)
      ensures r == if key == [] then -EINVAL else if out.NoObject? then -ENOMEM
                   else if out.Stored? || out.Refused? then 0 else -EIO
      ensures stored == if out.Stored? then Some(out.chosen) else None
      ensures forall v :: v in ValuesOf(out) ==> fresh(v)
    {
      hide Put, Kill, Chosen, Set, After, Explains, ValuesOf, Ask, Canonical, CanonicalOpt;
      ghost var s0 := State();
      stored, out := None, NoObject;
      EndsEarly(s0, key, archiveKey, isVector, cells, fn, fault);
      if key == [] { return -EINVAL, None, NoObject; }
      if fault.NoValue? { return -ENOMEM, None, NoObject; }
      var k := Canonical(key);
      var aKey := CanonicalOpt(archiveKey);
      var v := CreateValue(isVector, cells);
      var write, chosen;
      r, write, chosen := Consult(k, Find(recs, k), v, fn, fault);
      if r < 0 {
        EndsEditLost(s0, key, aKey, isVector, cells, fn, fault, v);
        return -EIO, None, EditLost(v);
      }
      if !write {
        DestroyValue(Some(v));
        EndsRefused(s0, key, aKey, isVector, cells, fn, fault, v);
        return 0, None, Refused(v);
      }
      EndsChosen(s0, key, aKey, isVector, cells, fn, fault, v, chosen, State());
      r := WriteBoth(k, chosen, aKey, fault);
      if r < 0 { return r, None, if fault.NoEntry? then NotLogged(v, chosen) else NoRecord(v, chosen); }
      stored, out := Some(chosen), Stored(v, chosen);
    }

    /** kvs.c sid_kvs_unset without an archive key */
    method UnsetValue(key: string, fn: Option<UnsetCallback>, entryFails: bool) returns (r: int)
      modifies this
      ensures r == if key == [] then -EINVAL
                   else if old(rollbackBuf).Some? && Agrees(fn, Canonical(key), old(recs)) && entryFails then -EIO else 0
      ensures State() == if r == 0 && Agrees(fn, Canonical(key), old(recs))
                         then Unset(old(State()), Canonical(key)) else old(State())
    {
      if key == [] { return -EINVAL; }
      var k := Canonical(key);
      if fn.Some? {
        var content := if k in recs then Some(Content(recs[k].isVector, recs[k].cells)) else None;
        if !fn.value(k, content) { return 0; }
      }
      if rollbackBuf.Some? {
        if entryFails { return -EIO; }
        unsetBuf := unsetBuf + [k];
      } else {
        RemoveValue(k);
      }
      r := 0;
    }

    /** kvs.c _unset_value with an empty relay */
    method RemoveValue(key: string)
      modifies this`recs, this`dead
      ensures State() == Remove(old(State()), key)
    {
      DestroyValue(Find(recs, key));
      recs := recs - {key};
    }

    /** kvs.c sid_kvs_get */
    method GetValue(key: string) returns (v: Option<Value>)
      ensures v == if key == [] then None else Find(recs, Canonical(key))
    {
      v := if key == [] then None else Find(recs, Canonical(key));
    }

    /** kvs.c sid_kvs_transaction_begin */
    method BeginTransaction(bufferFails: bool) returns (r: int)
      modifies this
      ensures r == if old(rollbackBuf).Some? then -EBUSY else if bufferFails then -ENOMEM else 0
      ensures State() == if r == 0 then Begin(old(State())) else old(State())
    {
      if rollbackBuf.Some? { return -EBUSY; }
      if bufferFails { return -ENOMEM; }
      rollbackBuf, unsetBuf := Some([]), [];
      r := 0;
    }

    /** kvs.c _kv_store_trans_rollback_value with _rollback_fn */
    method RollbackValue(e: Entry)
      modifies this`recs, this`dead
      ensures State() == Undo(old(State()), e)
    {
      var curr := Find(recs, e.key);
      if e.value == curr { return; }
      if curr.None? {
        DestroyValue(e.value);
        return;
      }
      if !e.isArchive { DestroyValue(curr); }
      if e.value.Some? { recs := recs[e.key := e.value.value]; } else { recs := recs - {e.key}; }
    }

    /** kvs.c sid_kvs_transaction_end: the unset buffer, then the rollback buffer, both first entry first. */
    method EndTransaction(rollback: bool)
      modifies this
      ensures State() == if old(rollbackBuf).Some? then End(old(State()), rollback) else old(State())
    {
      if rollbackBuf.None? { return; }
      ghost var s0 := State();
      var i := 0;
      while i < |unsetBuf|
        invariant i <= |unsetBuf|
        invariant unsetBuf == s0.unsets && rollbackBuf == s0.log
        invariant State() == if rollback then s0 else RemoveAll(s0, s0.unsets[..i])
      {
        TakeOneMore(unsetBuf, i);
        RemoveAllSnoc(s0, s0.unsets[..i], s0.unsets[i]);
        if !rollback { RemoveValue(unsetBuf[i]); }
        i := i + 1;
      }
      assert unsetBuf[..i] == unsetBuf;
      unsetBuf := [];
      ghost var s1 := State();
      var log := rollbackBuf.value;
      i := 0;
      while i < |log|
        invariant i <= |log|
        invariant unsetBuf == [] && rollbackBuf == Some(log)
        invariant State() == if rollback then Replay(s1, log[..i]) else RetireAll(s1, log[..i])
      {
        TakeOneMore(log, i);
        ReplaySnoc(s1, log[..i], log[i]);
        RetireAllSnoc(s1, log[..i], log[i]);
        if rollback {
          RollbackValue(log[i]);
        } else if !log[i].hasArchive {
          DestroyValue(log[i].value);
        }
        i := i + 1;
      }
      assert log[..i] == log;
      rollbackBuf := None;
      EndUnfolds(s0, s1, rollback);
    }
  }
}
