/** Whole runs of the store: what a committed transaction leaves behind, and exactly when a rolled back one leaves nothing. */
module KvRuns {
  import opened BPTypes
  import opened KvStore
  import opened KvLedger

  /** A call on the store as it went. Keys are canonical; a set carries the way it ended, and a call that did nothing is idle. */
  datatype Op =
    | SetOp(key: string, archiveKey: Option<string>, out: Outcome)
    | UnsetOp(key: string)
    | BeginOp
    | CommitOp
    | IdleOp

  function Step(s: Store, op: Op): Store {
    match op
    case SetOp(k, a, out) => After(s, k, a, out)
    case UnsetOp(k) => Unset(s, k)
    case BeginOp => if s.log.Some? then s else Begin(s)
    case CommitOp => if s.log.Some? then End(s, false) else s
    case IdleOp => s
  }

  function Run(s: Store, ops: seq<Op>): Store {
    if ops == [] then s else Step(Run(s, ops[..|ops| - 1]), ops[|ops| - 1])
  }

  ghost predicate Legal(s: Store, ops: seq<Op>) {
    ops == [] ||
    (Legal(s, ops[..|ops| - 1]) &&
     (ops[|ops| - 1].SetOp? ==> Possible(Run(s, ops[..|ops| - 1]), ops[|ops| - 1].key, ops[|ops| - 1].out)))
  }

  /** No run of sets, archiving sets, unsets and committed transactions leaks or double-frees a container. */
  lemma {:induction false} LedgerAlways(s: Store, ops: seq<Op>)
    requires Ledger(s) && Legal(s, ops)
    ensures Ledger(Run(s, ops))
  {
    hide Ledger;
    if ops != [] {
      var s1, op := Run(s, ops[..|ops| - 1]), ops[|ops| - 1];
      LedgerAlways(s, ops[..|ops| - 1]);
      match op
      case SetOp(k, a, out) => SetKeepsLedger(s1, k, a, out);
      case UnsetOp(k) => UnsetKeepsLedger(s1, k);
      case BeginOp => if s1.log.None? { BeginKeepsLedger(s1); }
      case CommitOp => if s1.log.Some? { CommitKeepsLedger(s1); }
      case IdleOp =>
    }
  }

  lemma BeginKeepsLedger(s: Store)
    requires Ledger(s) && s.log.None?
    ensures Ledger(Begin(s))
  {
    assert Owned([]) == {};
  }

  /** Containers are dropped only by a failed allocation. */
  lemma {:induction false} NothingLost(s: Store, ops: seq<Op>)
    requires s.lost == {}
    ensures Run(s, ops).lost == {} <==> forall i :: 0 <= i < |ops| && ops[i].SetOp? ==> !ops[i].out.EditLost? && !ops[i].out.NoRecord?
  {
    if ops != [] {
      var s1, op := Run(s, ops[..|ops| - 1]), ops[|ops| - 1];
      NothingLost(s, ops[..|ops| - 1]);
      LostStep(s1, op);
      assert ops == ops[..|ops| - 1] + [op];
    }
  }

  lemma LostStep(s: Store, op: Op)
    ensures Step(s, op).lost == s.lost + if op.SetOp? && op.out.EditLost? then {op.out.orig}
                                         else if op.SetOp? && op.out.NoRecord? then {op.out.chosen} else {}
  {
    if op.CommitOp? && s.log.Some? {
      RemoveAllKeeps(s, s.unsets);
      RetireAllKeeps(RemoveAll(s, s.unsets), s.log.value);
    }
  }

  lemma {:induction false} RetireAllKeeps(s: Store, log: seq<Entry>)
    ensures RetireAll(s, log).recs == s.recs && RetireAll(s, log).lost == s.lost && RetireAll(s, log).created == s.created
    decreases log
  {
    if log != [] { RetireAllKeeps(Retire(s, log[0]), log[1..]); }
  }

  /** The effect of a call on the map alone, unsets aside. */
  function Write(m: map<string, Value>, op: Op): map<string, Value> {
    if op.SetOp? && op.out.Stored? then
      var m1 := m[op.key := op.out.chosen];
      if op.archiveKey.Some? && op.key in m then m1[op.archiveKey.value := m[op.key]] else m1
    else m
  }

  function WriteAll(m: map<string, Value>, ops: seq<Op>): map<string, Value> {
    if ops == [] then m else Write(WriteAll(m, ops[..|ops| - 1]), ops[|ops| - 1])
  }

  function UnsetKeys(ops: seq<Op>): seq<string> {
    if ops == [] then []
    else UnsetKeys(ops[..|ops| - 1]) + if ops[|ops| - 1].UnsetOp? then [ops[|ops| - 1].key] else []
  }

  predicate InBody(op: Op) {
    op.SetOp? || op.UnsetOp? || op.IdleOp?
  }

  /** A body of a transaction: sets and unsets only. */
  predicate Plain(ops: seq<Op>) {
    forall i :: 0 <= i < |ops| ==> InBody(ops[i])
  }

  lemma {:induction false} Inside(s: Store, ops: seq<Op>)
    requires s.log.Some? && Plain(ops)
    ensures Run(s, ops).log.Some?
    ensures Run(s, ops).recs == WriteAll(s.recs, ops)
    ensures Run(s, ops).unsets == s.unsets + UnsetKeys(ops)
  {
    if ops != [] {
      hide Step, Write;
      Inside(s, ops[..|ops| - 1]);
      InsideStep(Run(s, ops[..|ops| - 1]), ops[|ops| - 1]);
    }
  }

  lemma InsideStep(s: Store, op: Op)
    requires s.log.Some? && InBody(op)
    ensures Step(s, op).log.Some?
    ensures Step(s, op).recs == Write(s.recs, op)
    ensures Step(s, op).unsets == s.unsets + if op.UnsetOp? then [op.key] else []
  {
    if op.SetOp? {
      AfterInside(s, op.key, op.archiveKey, op.out);
    }
  }

  lemma AfterInside(s: Store, key: string, archiveKey: Option<string>, out: Outcome)
    requires s.log.Some?
    ensures var t := After(s, key, archiveKey, out);
      t.log.Some? && t.unsets == s.unsets && t.recs == Write(s.recs, SetOp(key, archiveKey, out))
  {
    if out.Stored? {
      SetInside(Chosen(s, out.orig, out.chosen), key, out.chosen, archiveKey);
    }
  }

  lemma SetInside(s: Store, key: string, v: Value, archiveKey: Option<string>)
    requires s.log.Some?
    ensures var t := Set(s, key, v, archiveKey);
      && t.log.Some? && t.unsets == s.unsets && t.created == s.created
      && t.recs == (if archiveKey.Some? && key in s.recs then s.recs[key := v][archiveKey.value := s.recs[key]]
                    else s.recs[key := v])
      && t.log.value == s.log.value + [Entry(key, Find(s.recs, key), archiveKey.Some?, false)] +
           if archiveKey.Some? && key in s.recs
           then [Entry(archiveKey.value, Find(s.recs[key := v], archiveKey.value), false, true)] else []
  {
    hide Put;
    PutInside(s, key, v, archiveKey.Some?, false);
    if archiveKey.Some? && key in s.recs {
      PutInside(Put(s, key, v, true, false), archiveKey.value, s.recs[key], false, true);
    }
  }

  lemma PutInside(s: Store, key: string, v: Value, hasArchive: bool, isArchive: bool)
    requires s.log.Some?
    ensures var t := Put(s, key, v, hasArchive, isArchive);
      && t.recs == s.recs[key := v] && t.unsets == s.unsets
      && t.log == Some(s.log.value + [Entry(key, Find(s.recs, key), hasArchive, isArchive)])
      && t.created == s.created
  {
  }

  lemma {:induction false} RemoveAllRecs(s: Store, keys: seq<string>)
    ensures RemoveAll(s, keys).recs == s.recs - (set k | k in keys)
    decreases keys
  {
    if keys != [] {
      assert keys == [keys[0]] + keys[1..];
      RemoveAllRecs(Remove(s, keys[0]), keys[1..]);
    }
  }

  /** A committed transaction is its sets in order, then all its unsets: a key unset anywhere in the body is gone. */
  lemma CommitIsWritesThenUnsets(s: Store, ops: seq<Op>)
    requires s.log.None? && Plain(ops)
    ensures Run(Begin(s), ops).log.Some?
    ensures End(Run(Begin(s), ops), false).recs == WriteAll(s.recs, ops) - (set k | k in UnsetKeys(ops))
  {
    Inside(Begin(s), ops);
    var t := Run(Begin(s), ops);
    RemoveAllRecs(t, t.unsets);
    RemoveAllKeeps(t, t.unsets);
    RetireAllKeeps(RemoveAll(t, t.unsets), t.log.value);
  }

  /** A key that is unset and then set again in one transaction is gone after the commit. */
  lemma UnsetWins(s: Store, key: string, v: Value)
    requires s.log.Some?
    ensures key !in End(Set(Unset(s, key), key, v, None), false).recs
  {
    var t := Set(Unset(s, key), key, v, None);
    SetInside(Unset(s, key), key, v, None);
    RemoveAllRecs(t, t.unsets);
    RemoveAllKeeps(t, t.unsets);
    RetireAllKeeps(RemoveAll(t, t.unsets), t.log.value);
  }
}
