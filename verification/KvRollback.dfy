/** Rolling back. The log is replayed first entry first, so a key that was present and is written twice ends with the
    value of its first write instead of its old one; this module proves exactly when rolling back restores the map, and
    exactly when it leaves the ledger balanced. */
module KvRollback {
  import opened BPTypes
  import opened KvStore
  import opened KvLedger
  import opened KvRuns

  /** Archive keys are kept apart from the keys sets are addressed to. */
  ghost predicate Apart(ops: seq<Op>, archives: set<string>) {
    forall i :: 0 <= i < |ops| && ops[i].SetOp? ==>
      ops[i].key !in archives && (ops[i].archiveKey.Some? ==> ops[i].archiveKey.value in archives)
  }

  /** How often a transaction body writes key `k`, directly or as an archive, over a store holding `present`. */
  function Writes(present: set<string>, ops: seq<Op>, k: string): nat {
    if ops == [] then 0
    else
      var op := ops[|ops| - 1];
      Writes(present, ops[..|ops| - 1], k) +
      if !(op.SetOp? && op.out.Stored?) then 0
      else (if op.key == k then 1 else 0) +
           (if op.archiveKey == Some(k) && (op.key in present || Writes(present, ops[..|ops| - 1], op.key) > 0) then 1 else 0)
  }

  /** The replaced values the log holds for key `k`, in order. */
  function Past(log: seq<Entry>, k: string): seq<Option<Value>> {
    if log == [] then []
    else if log[0].key == k then [log[0].value] + Past(log[1..], k)
    else Past(log[1..], k)
  }

  lemma {:induction false} PastSnoc(log: seq<Entry>, e: Entry, k: string)
    ensures Past(log + [e], k) == Past(log, k) + if e.key == k then [e.value] else []
  {
    if log == [] {
      assert (log + [e])[1..] == [];
    } else {
      assert (log + [e])[1..] == log[1..] + [e];
      PastSnoc(log[1..], e, k);
    }
  }

  /** What replaying makes of one key. */
  function Final(cur: Option<Value>, past: seq<Option<Value>>): Option<Value>
    decreases past
  {
    if past == [] then cur else Final(if cur.None? then None else past[0], past[1..])
  }

  lemma {:induction false} ReplayAt(s: Store, log: seq<Entry>, k: string)
    ensures Find(Replay(s, log).recs, k) == Final(Find(s.recs, k), Past(log, k))
    decreases log
  {
    if log != [] { ReplayAt(Undo(s, log[0]), log[1..], k); }
  }

  lemma {:induction false} FinalOfAbsent(past: seq<Option<Value>>)
    ensures Final(None, past) == None
    decreases past
  {
    if past != [] { FinalOfAbsent(past[1..]); }
  }

  lemma {:induction false} FinalOfPresent(cur: Option<Value>, past: seq<Option<Value>>)
    requires cur.Some? && past != [] && forall i :: 0 <= i < |past| ==> past[i].Some?
    ensures Final(cur, past) == past[|past| - 1]
    decreases past
  {
    if |past| > 1 {
      FinalOfPresent(past[0], past[1..]);
    }
  }

  /** The state of a transaction at key `k`: untouched, or the log starts with the value the key had at the beginning.
      A key that was present then never shows that value again, neither later in the log nor in its record. */
  ghost predicate Traced(m0: map<string, Value>, recs: map<string, Value>, log: seq<Entry>, k: string) {
    var past := Past(log, k);
    if past == [] then Find(recs, k) == Find(m0, k)
    else
      && past[0] == Find(m0, k)
      && (k in m0 ==>
            && (forall i :: 1 <= i < |past| ==> past[i].Some? && past[i].value != m0[k])
            && k in recs && recs[k] != m0[k])
  }

  /** One traced key decides for itself whether replaying restores it. */
  lemma RestoredAt(m0: map<string, Value>, s: Store, log: seq<Entry>, k: string)
    requires Traced(m0, s.recs, log, k)
    ensures Find(Replay(s, log).recs, k) == Find(m0, k) <==> (k in m0 ==> |Past(log, k)| <= 1)
  {
    ReplayAt(s, log, k);
    var past := Past(log, k);
    if past != [] {
      if k in m0 {
        FinalOfPresent(Find(s.recs, k), past);
      } else {
        FinalOfAbsent(past[1..]);
      }
    }
  }

  lemma PutTraced(m0: map<string, Value>, s: Store, key: string, v: Value, hasArchive: bool, isArchive: bool, k: string)
    requires s.log.Some? && Traced(m0, s.recs, s.log.value, k)
    requires key in m0 ==> v != m0[key]
    ensures var t := Put(s, key, v, hasArchive, isArchive);
      t.log.Some? && Traced(m0, t.recs, t.log.value, k)
  {
    PastSnoc(s.log.value, Entry(key, Find(s.recs, key), hasArchive, isArchive), k);
  }

  /** An archive never receives the container it held when the transaction began. */
  lemma ArchiveIsOther(m0: map<string, Value>, s: Store, key: string, a: string)
    requires Ledger(s) && s.log.Some? && Traced(m0, s.recs, s.log.value, a)
    requires key in s.recs && a != key
    requires a in m0 && Past(s.log.value, a) != [] ==> m0[a] in Owned(s.log.value)
    ensures a in m0 ==> s.recs[key] != m0[a]
  {
    assert s.recs[key] in Held(s.recs);
  }

  /** What holds of every state of a transaction that began in `s0`. */
  ghost predicate During(s0: Store, s: Store, ops: seq<Op>, archives: set<string>) {
    && s.log.Some? && Ledger(s) && s0.created <= s.created
    && (forall k :: Traced(s0.recs, s.recs, s.log.value, k))
    && (forall a :: a in archives && a in s0.recs && Past(s.log.value, a) != [] ==> s0.recs[a] in Owned(s.log.value))
    && (forall k :: k in s0.recs || k in archives ==> |Past(s.log.value, k)| == Writes(s0.recs.Keys, ops, k))
    && (forall k :: k !in archives ==> (k in s.recs <==> k in s0.recs || Writes(s0.recs.Keys, ops, k) > 0))
  }

  lemma BeginsDuring(s0: Store, archives: set<string>)
    requires Ledger(s0) && s0.log.None?
    ensures During(s0, Begin(s0), [], archives)
  {
    BeginKeepsLedger(s0);
  }

  /** The archive write of a set, on a traced state. */
  lemma SetTraced(m0: map<string, Value>, s: Store, key: string, v: Value, archiveKey: Option<string>, k: string)
    requires s.log.Some?
    requires Traced(m0, s.recs, s.log.value, k)
    requires key in m0 ==> v != m0[key]
    requires archiveKey.Some? && key in s.recs && archiveKey.value in m0 ==> s.recs[key] != m0[archiveKey.value]
    ensures var t := Set(s, key, v, archiveKey);
      t.log.Some? && Traced(m0, t.recs, t.log.value, k)
  {
    hide Traced, Put;
    PutTraced(m0, s, key, v, archiveKey.Some?, false, k);
    PutInside(s, key, v, archiveKey.Some?, false);
    if archiveKey.Some? && key in s.recs {
      var s1 := Put(s, key, v, true, false);
      PutTraced(m0, s1, archiveKey.value, s.recs[key], false, true, k);
    }
  }

  /** Writes are counted by the log. */
  lemma SetPast(s: Store, key: string, v: Value, archiveKey: Option<string>, k: string)
    requires s.log.Some?
    ensures var t := Set(s, key, v, archiveKey);
      && t.log.Some?
      && |Past(t.log.value, k)| == |Past(s.log.value, k)| + (if key == k then 1 else 0)
                                   + (if archiveKey == Some(k) && key in s.recs then 1 else 0)
      && (Past(s.log.value, k) == [] && Past(t.log.value, k) != [] && archiveKey == Some(k) && key != k ==>
            Entry(k, Find(s.recs, k), false, true) in t.log.value)
      && (forall e :: e in s.log.value ==> e in t.log.value)
  {
    SetInside(s, key, v, archiveKey);
    var e := Entry(key, Find(s.recs, key), archiveKey.Some?, false);
    PastSnoc(s.log.value, e, k);
    if archiveKey.Some? && key in s.recs {
      var e2 := Entry(archiveKey.value, Find(s.recs[key := v], archiveKey.value), false, true);
      PastSnoc(s.log.value + [e], e2, k);
      assert s.log.value + [e] + [e2] == s.log.value + ([e] + [e2]);
      assert (s.log.value + ([e] + [e2]))[|s.log.value| + 1] == e2;
    } else {
      assert s.log.value + ([e] + []) == s.log.value + [e];
    }
  }

  lemma OwnedIn(log: seq<Entry>, e: Entry)
    requires e in log && Owns(e)
    ensures e.value.value in Owned(log)
  {
    var i :| 0 <= i < |log| && log[i] == e;
    assert log[i].value.value in Owned(log);
  }

  lemma {:induction false} DuringSteps(s0: Store, ops: seq<Op>, archives: set<string>)
    requires Ledger(s0) && s0.log.None?
    requires Plain(ops) && Legal(Begin(s0), ops) && Apart(ops, archives)
    ensures During(s0, Run(Begin(s0), ops), ops, archives)
  {
    if ops == [] {
      BeginsDuring(s0, archives);
    } else {
      var before, op := ops[..|ops| - 1], ops[|ops| - 1];
      DuringSteps(s0, before, archives);
      assert ops == before + [op];
      DuringStep(s0, Run(Begin(s0), before), before, op, archives);
    }
  }

  lemma DuringStep(s0: Store, s: Store, ops: seq<Op>, op: Op, archives: set<string>)
    requires During(s0, s, ops, archives) && Ledger(s0)
    requires Apart([op], archives) && InBody(op)
    requires op.SetOp? ==> Possible(s, op.key, op.out)
    ensures During(s0, Step(s, op), ops + [op], archives)
  {
    hide *;
    StepKeepsLedger(s0, s, ops, op, archives);
    WritesSnoc(s0.recs.Keys, ops, op);
    if Quiet(op) {
      QuietStep(s0, s, ops, op, archives);
      QuietDuring(s0, s, Step(s, op), ops, op, archives);
    } else {
      ApartOne(op, archives);
      if IsStored(op) {
        StoredDuring(s0, s, ops, op, archives);
      } else {
        NoRecordDuring(s0, s, ops, op, archives);
      }
    }
  }

  predicate Quiet(op: Op) {
    !op.SetOp? || !(op.out.NoRecord? || op.out.Stored?)
  }

  predicate IsStored(op: Op) {
    op.SetOp? && op.out.Stored?
  }

  lemma ApartOne(op: Op, archives: set<string>)
    requires Apart([op], archives) && !Quiet(op)
    ensures op.SetOp? && op.key !in archives && (op.archiveKey.Some? ==> op.archiveKey.value in archives)
    ensures !IsStored(op) ==> op.out.NoRecord?
    ensures IsStored(op) ==> op.out.Stored?
  {
    assert [op][0] == op;
  }

  lemma StepKeepsLedger(s0: Store, s: Store, ops: seq<Op>, op: Op, archives: set<string>)
    requires During(s0, s, ops, archives)
    requires InBody(op)
    requires op.SetOp? ==> Possible(s, op.key, op.out)
    ensures Ledger(Step(s, op))
  {
    hide Ledger;
    if op.SetOp? { SetKeepsLedger(s, op.key, op.archiveKey, op.out); } else if op.UnsetOp? { UnsetKeepsLedger(s, op.key); }
  }

  /** The occurrences one more call adds. */
  function Adds(present: set<string>, ops: seq<Op>, op: Op, k: string): nat {
    if !IsStored(op) then 0
    else (if op.key == k then 1 else 0) +
         (if op.archiveKey == Some(k) && (op.key in present || Writes(present, ops, op.key) > 0) then 1 else 0)
  }

  lemma WritesSnoc(present: set<string>, ops: seq<Op>, op: Op)
    ensures forall k :: Writes(present, ops + [op], k) == Writes(present, ops, k) + Adds(present, ops, op, k)
  {
    assert (ops + [op])[..|ops|] == ops;
  }

  lemma QuietStep(s0: Store, s: Store, ops: seq<Op>, op: Op, archives: set<string>)
    requires During(s0, s, ops, archives)
    requires Quiet(op) && InBody(op)
    ensures Step(s, op).recs == s.recs && Step(s, op).log == s.log && s.created <= Step(s, op).created
  {
  }

  lemma QuietDuring(s0: Store, s: Store, t: Store, ops: seq<Op>, op: Op, archives: set<string>)
    requires During(s0, s, ops, archives)
    requires t.recs == s.recs && t.log == s.log && s.created <= t.created && Ledger(t)
    requires Quiet(op)
    requires forall k :: Writes(s0.recs.Keys, ops + [op], k) == Writes(s0.recs.Keys, ops, k) + Adds(s0.recs.Keys, ops, op, k)
    ensures During(s0, t, ops + [op], archives)
  {
    hide Ledger, Traced, Past, Owned, Writes;
  }

  lemma NoRecordDuring(s0: Store, s: Store, ops: seq<Op>, op: Op, archives: set<string>)
    requires During(s0, s, ops, archives)
    requires op.SetOp? && op.key !in archives && op.out.NoRecord?
    requires Possible(s, op.key, op.out) && Ledger(Step(s, op))
    requires forall k :: Writes(s0.recs.Keys, ops + [op], k) == Writes(s0.recs.Keys, ops, k) + Adds(s0.recs.Keys, ops, op, k)
    ensures During(s0, Step(s, op), ops + [op], archives)
  {
    hide Ledger, Owned, Writes;
    var t := Step(s, op);
    var e := Entry(op.key, None, op.archiveKey.Some?, false);
    NoRecordStep(s, op);
    OwnedMore(s.log.value, e);
    assert op.key !in s0.recs;
    forall k ensures Past(t.log.value, k) == Past(s.log.value, k) + if e.key == k then [None] else [] {
      PastSnoc(s.log.value, e, k);
    }
    forall k ensures Traced(s0.recs, t.recs, t.log.value, k) {
      assert Traced(s0.recs, s.recs, s.log.value, k);
    }
  }

  lemma NoRecordStep(s: Store, op: Op)
    requires s.log.Some? && op.SetOp? && op.out.NoRecord? && op.key !in s.recs
    ensures Step(s, op).recs == s.recs && s.created <= Step(s, op).created
    ensures Step(s, op).log == Some(s.log.value + [Entry(op.key, None, op.archiveKey.Some?, false)])
  {
  }

  lemma StoredStep(s: Store, op: Op)
    requires s.log.Some? && IsStored(op)
    ensures var s1 := Chosen(s, op.out.orig, op.out.chosen);
      && s1.recs == s.recs && s1.log == s.log && s.created <= s1.created
      && Step(s, op) == Set(s1, op.key, op.out.chosen, op.archiveKey)
  {
  }

  lemma StoredDuring(s0: Store, s: Store, ops: seq<Op>, op: Op, archives: set<string>)
    requires During(s0, s, ops, archives) && Ledger(s0)
    requires IsStored(op) && op.key !in archives && (op.archiveKey.Some? ==> op.archiveKey.value in archives)
    requires Possible(s, op.key, op.out) && Ledger(Step(s, op))
    requires forall k :: Writes(s0.recs.Keys, ops + [op], k) == Writes(s0.recs.Keys, ops, k) + Adds(s0.recs.Keys, ops, op, k)
    ensures During(s0, Step(s, op), ops + [op], archives)
  {
    hide Ledger, Owned, Writes, Traced, Past, Set, Step, Chosen, Possible;
    var t := Step(s, op);
    var s1 := Chosen(s, op.out.orig, op.out.chosen);
    var v := op.out.chosen;
    StoredStep(s, op);
    SetInside(s1, op.key, v, op.archiveKey);
    FreshIsOther(s0, s, op, ops, archives);
    forall k ensures Traced(s0.recs, t.recs, t.log.value, k) {
      SetTraced(s0.recs, s1, op.key, v, op.archiveKey, k);
    }
    forall k ensures |Past(t.log.value, k)| == |Past(s.log.value, k)| + (if op.key == k then 1 else 0)
                                   + (if op.archiveKey == Some(k) && op.key in s.recs then 1 else 0) {
      SetPast(s1, op.key, v, op.archiveKey, k);
    }
    forall a | a in archives && a in s0.recs && Past(t.log.value, a) != [] ensures s0.recs[a] in Owned(t.log.value) {
      StoredOwned(s0, s, s1, t, ops, op, archives, a);
    }
    forall k | k !in archives
      ensures k in t.recs <==> k in s0.recs || Writes(s0.recs.Keys, ops + [op], k) > 0 {
      assert k in t.recs <==> k in s.recs || k == op.key;
    }
  }

  lemma FreshIsOther(s0: Store, s: Store, op: Op, ops: seq<Op>, archives: set<string>)
    requires During(s0, s, ops, archives) && Ledger(s0)
    requires IsStored(op) && Possible(s, op.key, op.out) && op.key !in archives
    requires op.archiveKey.Some? ==> op.archiveKey.value in archives
    ensures op.key in s0.recs ==> op.out.chosen != s0.recs[op.key]
    ensures op.archiveKey.Some? && op.key in s.recs && op.archiveKey.value in s0.recs ==>
      s.recs[op.key] != s0.recs[op.archiveKey.value]
  {
    assert op.out.chosen in ValuesOf(op.out);
    if op.key in s0.recs { assert s0.recs[op.key] in Held(s0.recs); }
    if op.archiveKey.Some? && op.key in s.recs {
      ArchiveIsOther(s0.recs, s, op.key, op.archiveKey.value);
    }
  }

  lemma StoredOwned(s0: Store, s: Store, s1: Store, t: Store, ops: seq<Op>, op: Op, archives: set<string>, a: string)
    requires During(s0, s, ops, archives)
    requires IsStored(op) && op.key !in archives
    requires s1.recs == s.recs && s1.log == s.log && t == Set(s1, op.key, op.out.chosen, op.archiveKey) && t.log.Some?
    requires a in archives && a in s0.recs && Past(t.log.value, a) != []
    ensures s0.recs[a] in Owned(t.log.value)
  {
    hide Ledger, Set, Past;
    SetPast(s1, op.key, op.out.chosen, op.archiveKey, a);
    if Past(s.log.value, a) != [] {
      var i :| 0 <= i < |s.log.value| && Owns(s.log.value[i]) && s.log.value[i].value.value == s0.recs[a];
      OwnedIn(t.log.value, s.log.value[i]);
    } else {
      assert Traced(s0.recs, s.recs, s.log.value, a);
      OwnedIn(t.log.value, Entry(a, Find(s.recs, a), false, true));
    }
  }

  /** Two sets of one present key, rolled back: the key keeps the first new value, and its old one is destroyed. */
  lemma SecondWriteStays(s0: Store, key: string, v1: Value, v2: Value)
    requires s0.log.None? && key in s0.recs && s0.recs[key] != v1 && v1 != v2 && v2 != s0.recs[key]
    ensures var t := End(Set(Set(Begin(s0), key, v1, None), key, v2, None), true);
      t.recs == s0.recs[key := v1] && t.dead == s0.dead + multiset{v2} + multiset{s0.recs[key]}
  {
    var s2 := Set(Set(Begin(s0), key, v1, None), key, v2, None);
    var e1, e2 := Entry(key, Some(s0.recs[key]), false, false), Entry(key, Some(v1), false, false);
    assert s2.log.value == [e1] + [e2];
    ReplaySnoc(s2, [e1], e2);
    ReplaySnoc(s2, [], e1);
    assert [] + [e1] == [e1];
    assert s0.recs[key := v1][key := v2][key := s0.recs[key]][key := v1] == s0.recs[key := v1];
  }

  /** Rolling back restores the map exactly when no key that was present at the beginning was written twice. */
  lemma RollbackRestoresIff(s0: Store, ops: seq<Op>, archives: set<string>)
    requires Ledger(s0) && s0.log.None?
    requires Plain(ops) && Legal(Begin(s0), ops) && Apart(ops, archives)
    ensures Run(Begin(s0), ops).log.Some?
    ensures End(Run(Begin(s0), ops), true).recs == s0.recs <==>
            forall k :: k in s0.recs ==> Writes(s0.recs.Keys, ops, k) <= 1
  {
    hide Ledger, Run, Writes, Traced, Past, Undo;
    DuringSteps(s0, ops, archives);
    var s := Run(Begin(s0), ops);
    var back := Replay(s, s.log.value);
    forall k ensures Find(back.recs, k) == Find(s0.recs, k) <==> (k in s0.recs ==> Writes(s0.recs.Keys, ops, k) <= 1) {
      RestoredAt(s0.recs, s, s.log.value, k);
    }
    SameMap(back.recs, s0.recs);
  }

  lemma SameMap(m: map<string, Value>, n: map<string, Value>)
    ensures m == n <==> forall k :: Find(m, k) == Find(n, k)
  {
    if forall k :: Find(m, k) == Find(n, k) {
      forall k ensures k in m <==> k in n { assert Find(m, k) == Find(n, k); }
      forall k | k in m ensures m[k] == n[k] { assert Find(m, k) == Find(n, k); }
    }
  }
}
