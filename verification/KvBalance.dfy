/** Rolling back and the ledger: exactly when replaying the log leaves every container with one owner. */
module KvBalance {
  import opened BPTypes
  import opened KvStore
  import opened KvLedger
  import opened KvRuns
  import opened KvRollback

  predicate Hands(e: Entry) {
    e.hasArchive && e.value.Some?
  }

  /** The shape of a log: archive entries are exactly those under archive keys, and each follows the entry that handed
      its container over. */
  ghost predicate Shaped(log: seq<Entry>, archives: set<string>) {
    && (forall i :: 0 <= i < |log| ==> (log[i].isArchive <==> log[i].key in archives))
    && (forall i :: 0 <= i < |log| && log[i].isArchive ==> !log[i].hasArchive)
    && (forall i :: 0 <= i < |log| && Hands(log[i]) ==> i + 1 < |log| && log[i + 1].isArchive)
    && (forall i :: 0 <= i < |log| && log[i].isArchive ==> i > 0 && Hands(log[i - 1]))
  }

  /** The archives still hold what the log handed them. */
  ghost predicate Kept(recs: map<string, Value>, log: seq<Entry>) {
    forall i :: 0 <= i < |log| - 1 && Hands(log[i]) ==>
      log[i + 1].key in recs && recs[log[i + 1].key] == log[i].value.value
  }

  ghost predicate OnceIn(log: seq<Entry>, archives: set<string>) {
    forall i, j :: 0 <= i < j < |log| && log[i].key in archives ==> log[i].key != log[j].key
  }

  lemma TakeBooks(s: Store, hand: set<Value>, key: string)
    requires Books(s, hand) && key in s.recs
    ensures Books(s.(recs := s.recs - {key}), hand + {s.recs[key]})
    ensures s.recs[key] !in hand
  {
    HeldRemove(s.recs, key);
    assert s.recs[key] in Held(s.recs);
  }

  lemma PlaceBooks(s: Store, hand: set<Value>, key: string, v: Value)
    requires Books(s, hand) && key !in s.recs && v in hand
    ensures Books(s.(recs := s.recs[key := v]), hand - {v})
  {
    HeldPut(s.recs, key, v);
  }

  /** Undoing one entry that handed nothing over. */
  lemma UndoBooks(s: Store, log: seq<Entry>, e: Entry)
    requires Books(s.(log := Some([e] + log)), {}) && !e.isArchive && !Hands(e)
    ensures Books(Undo(s, e).(log := Some(log)), {})
  {
    hide Books;
    var t := s.(log := Some(log));
    PopBooks(s.(log := Some([e] + log)), {});
    assert ([e] + log)[1..] == log;
    var hand := if Owns(e) then {e.value.value} else {};
    assert {} + hand == hand;
    assert Undo(s, e).(log := Some(log)) == Undo(t, e);
    UndoOne(t, hand, e);
  }

  lemma UndoOne(t: Store, hand: set<Value>, e: Entry)
    requires Books(t, hand) && hand == (if e.value.Some? then {e.value.value} else {}) && !e.isArchive
    ensures Books(Undo(t, e), {})
  {
    hide Books;
    if e.key !in t.recs {
      if e.value.Some? {
        KillBooks(t, hand, e.value.value);
        assert hand - {e.value.value} == {};
      }
    } else {
      var curr := t.recs[e.key];
      TakeBooks(t, hand, e.key);
      var t1 := t.(recs := t.recs - {e.key});
      KillBooks(t1, hand + {curr}, curr);
      assert hand + {curr} - {curr} == hand;
      var t2 := Kill(t1, Some(curr));
      if e.value.Some? {
        PlaceBooks(t2, hand, e.key, e.value.value);
        assert hand - {e.value.value} == {};
        assert t2.(recs := t2.recs[e.key := e.value.value]).recs == t.recs[e.key := e.value.value];
      }
    }
  }

  /** Undoing a set together with its archive write. */
  lemma UndoPair(s: Store, log: seq<Entry>, e: Entry, e2: Entry)
    requires Books(s.(log := Some([e, e2] + log)), {})
    requires Hands(e) && !e.isArchive && e2.isArchive && !e2.hasArchive && e.key != e2.key
    requires e2.key in s.recs && s.recs[e2.key] == e.value.value
    ensures Books(Undo(Undo(s, e), e2).(log := Some(log)), {})
  {
    hide Books;
    assert ([e, e2] + log)[1..] == [e2] + log && ([e2] + log)[1..] == log;
    PopBooks(s.(log := Some([e, e2] + log)), {});
    PopBooks(s.(log := Some([e2] + log)), {});
    var t := s.(log := Some(log));
    var hand := if e2.value.Some? then {e2.value.value} else {};
    assert {} + {} + hand == hand;
    assert {} + hand == hand;
    var w := e.value.value;
    OthersDiffer(s, [e, e2] + log, e.key, e2.key);
    assert Owns(e2) ==> ([e, e2] + log)[1] == e2;
    TakeBooks(t, hand, e2.key);
    var t1 := t.(recs := t.recs - {e2.key});
    assert hand + {w} == {w} + hand;
    if e2.value.Some? {
      PlaceBooks(t1, hand + {w}, e2.key, e2.value.value);
      assert hand + {w} - {e2.value.value} == {w};
      UndoOne(t1.(recs := t1.recs[e2.key := e2.value.value]), {w}, e);
      PairSome(s, t, log, e, e2);
    } else {
      assert hand + {w} == {w};
      UndoOne(t1, {w}, e);
      PairNone(s, t, log, e, e2);
    }
  }

  lemma PairSome(s: Store, t: Store, log: seq<Entry>, e: Entry, e2: Entry)
    requires t == s.(log := Some(log)) && e2.value.Some? && e.value.Some? && e2.value != e.value
    requires !e.isArchive && e2.isArchive && e.key != e2.key
    requires e2.key in s.recs && Some(s.recs[e2.key]) == e.value
    requires e.key in s.recs ==> s.recs[e.key] != s.recs[e2.key]
    ensures Undo(Undo(s, e), e2).(log := Some(log)) == Undo(t.(recs := (t.recs - {e2.key})[e2.key := e2.value.value]), e)
  {
    var a := Undo(Undo(s, e), e2);
    var b := Undo(t.(recs := (t.recs - {e2.key})[e2.key := e2.value.value]), e);
    assert a.recs == b.recs;
  }

  lemma PairNone(s: Store, t: Store, log: seq<Entry>, e: Entry, e2: Entry)
    requires t == s.(log := Some(log)) && e2.value.None? && e.value.Some?
    requires !e.isArchive && e2.isArchive && e.key != e2.key
    requires e2.key in s.recs && Some(s.recs[e2.key]) == e.value
    requires e.key in s.recs ==> s.recs[e.key] != s.recs[e2.key]
    ensures Undo(Undo(s, e), e2).(log := Some(log)) == Undo(t.(recs := t.recs - {e2.key}), e)
  {
    var a := Undo(Undo(s, e), e2);
    var b := Undo(t.(recs := t.recs - {e2.key}), e);
    if e.key in s.recs {
      assert s.recs[e.key := e.value.value] - {e2.key} == (s.recs - {e2.key})[e.key := e.value.value];
    }
    assert a.recs == b.recs;
  }

  lemma OthersDiffer(s: Store, log: seq<Entry>, k: string, a: string)
    requires Books(s.(log := Some(log)), {}) && a in s.recs && k != a
    ensures k in s.recs ==> s.recs[k] != s.recs[a]
    ensures forall e :: e in log && Owns(e) ==> e.value.value != s.recs[a]
  {
    assert s.recs[a] in Held(s.recs);
    forall e | e in log && Owns(e) ensures e.value.value != s.recs[a] { OwnedIn(log, e); }
  }

  /** The rest of a log after its first unit is again a log of whole units. */
  lemma NextUnit(log: seq<Entry>, archives: set<string>)
    requires Shaped(log, archives) && OnceIn(log, archives) && log != []
    ensures Hands(log[0]) ==> |log| >= 2 && log[1].isArchive && !log[1].hasArchive && log[0].key != log[1].key
    ensures !log[0].isArchive
    ensures var rest := if Hands(log[0]) then log[2..] else log[1..];
      Shaped(rest, archives) && OnceIn(rest, archives)
  {
    var n := if Hands(log[0]) then 2 else 1;
    var rest := log[n..];
    assert forall i :: 0 <= i < |rest| ==> rest[i] == log[i + n];
    if |log| > n { assert log[n].isArchive ==> Hands(log[n - 1]); }
  }

  /** Undoing the first unit does not disturb the archives of the others. */
  lemma StillKept(recs: map<string, Value>, recs2: map<string, Value>, log: seq<Entry>, archives: set<string>)
    requires Shaped(log, archives) && OnceIn(log, archives) && Kept(recs, log) && log != []
    requires Hands(log[0]) ==> |log| >= 2
    requires forall k :: k != log[0].key && (Hands(log[0]) ==> k != log[1].key) ==> Find(recs2, k) == Find(recs, k)
    requires !log[0].isArchive
    ensures Kept(recs2, if Hands(log[0]) then log[2..] else log[1..])
  {
    var n := if Hands(log[0]) then 2 else 1;
    var rest := log[n..];
    forall i | 0 <= i < |rest| - 1 && Hands(rest[i])
      ensures rest[i + 1].key in recs2 && recs2[rest[i + 1].key] == rest[i].value.value
    {
      assert rest[i] == log[i + n] && rest[i + 1] == log[i + n + 1];
      assert log[i + n + 1].isArchive;
      assert Find(recs2, rest[i + 1].key) == Find(recs, rest[i + 1].key);
    }
  }

  lemma {:induction false} ReplayBalances(s: Store, log: seq<Entry>, archives: set<string>)
    requires Books(s.(log := Some(log)), {})
    requires Shaped(log, archives) && Kept(s.recs, log) && OnceIn(log, archives)
    ensures Ledger(Replay(s, log).(log := None))
    decreases |log|
  {
    hide Books, Shaped, OnceIn, Kept, Undo;
    if log == [] {
      EmptyLog(s);
    } else {
      NextUnit(log, archives);
      UndoTouches(s, log[0]);
      if Hands(log[0]) {
        var rest := log[2..];
        assert log == [log[0], log[1]] + rest && log[1..][1..] == rest && log[1..][0] == log[1];
        HandedOver(s.recs, log);
        UndoPair(s, rest, log[0], log[1]);
        UndoTouches(Undo(s, log[0]), log[1]);
        StillKept(s.recs, Undo(Undo(s, log[0]), log[1]).recs, log, archives);
        ReplayBalances(Undo(Undo(s, log[0]), log[1]), rest, archives);
      } else {
        var rest := log[1..];
        assert log == [log[0]] + rest;
        UndoBooks(s, rest, log[0]);
        StillKept(s.recs, Undo(s, log[0]).recs, log, archives);
        ReplayBalances(Undo(s, log[0]), rest, archives);
      }
    }
  }

  lemma HandedOver(recs: map<string, Value>, log: seq<Entry>)
    requires Kept(recs, log) && |log| >= 2 && Hands(log[0])
    ensures log[1].key in recs && recs[log[1].key] == log[0].value.value
  {
    assert log[0 + 1].key in recs;
  }

  lemma EmptyLog(s: Store)
    requires Books(s.(log := Some([])), {})
    ensures Ledger(s.(log := None))
  {
  }

  lemma UndoTouches(s: Store, e: Entry)
    ensures forall k :: k != e.key ==> Find(Undo(s, e).recs, k) == Find(s.recs, k)
  {
  }

  /** Before position `n`, container `v` was handed to archive `a`. */
  ghost predicate HandedTo(log: seq<Entry>, n: int, a: string, v: Option<Value>) {
    exists i :: 0 <= i && i + 1 < n <= |log| && Hands(log[i]) && log[i + 1].key == a && log[i].value == v
  }

  /** Archives hold, and hand back to the log, only what was handed to them. */
  ghost predicate Sourced(recs: map<string, Value>, log: seq<Entry>, archives: set<string>) {
    && (forall a :: a in archives && Past(log, a) != [] ==> HandedTo(log, |log|, a, Find(recs, a)))
    && (forall j :: 0 <= j < |log| && log[j].isArchive && Past(log[..j], log[j].key) != [] ==>
          HandedTo(log, j, log[j].key, log[j].value))
  }

  lemma HandedToMore(log: seq<Entry>, more: seq<Entry>, n: int, a: string, v: Option<Value>)
    requires HandedTo(log, n, a, v) && n <= |log|
    ensures HandedTo(log + more, n, a, v) && HandedTo(log + more, |log + more|, a, v)
  {
    var i :| 0 <= i && i + 1 < n <= |log| && Hands(log[i]) && log[i + 1].key == a && log[i].value == v;
    assert Hands((log + more)[i]) && (log + more)[i + 1].key == a;
  }

  /** Logging an entry that hands nothing over and is no archive entry. */
  lemma SourcedOne(recs: map<string, Value>, recs2: map<string, Value>, log: seq<Entry>, e: Entry, archives: set<string>)
    requires Shaped(log, archives) && Sourced(recs, log, archives)
    requires !Hands(e) && !e.isArchive && e.key !in archives
    requires forall a :: a in archives ==> Find(recs2, a) == Find(recs, a)
    ensures Shaped(log + [e], archives) && Sourced(recs2, log + [e], archives)
  {
    var more := log + [e];
    assert forall i :: 0 <= i < |log| ==> more[i] == log[i];
    assert more[|log|] == e;
    forall a | a in archives && Past(more, a) != [] ensures HandedTo(more, |more|, a, Find(recs2, a)) {
      PastSnoc(log, e, a);
      HandedToMore(log, [e], |log|, a, Find(recs, a));
    }
    forall j | 0 <= j < |more| && more[j].isArchive && Past(more[..j], more[j].key) != []
      ensures HandedTo(more, j, more[j].key, more[j].value)
    {
      assert more[..j] == log[..j];
      HandedToMore(log, [e], j, log[j].key, log[j].value);
    }
  }

  /** Logging a set together with its archive write. */
  lemma SourcedTwo(recs: map<string, Value>, recs2: map<string, Value>, log: seq<Entry>, e: Entry, e2: Entry, archives: set<string>)
    requires Shaped(log, archives) && Sourced(recs, log, archives)
    requires Hands(e) && !e.isArchive && e.key !in archives
    requires e2.isArchive && !e2.hasArchive && e2.key in archives && e2.value == Find(recs, e2.key)
    requires Find(recs2, e2.key) == e.value
    requires forall a :: a in archives && a != e2.key ==> Find(recs2, a) == Find(recs, a)
    ensures Shaped(log + [e, e2], archives) && Sourced(recs2, log + [e, e2], archives)
  {
    ShapedTwo(log, e, e2, archives);
    hide Shaped, Sourced;
    var more := log + [e, e2];
    assert more[|log|] == e && more[|log| + 1] == e2;
    assert more == log + [e] + [e2];
    forall a | a in archives && Past(more, a) != [] ensures HandedTo(more, |more|, a, Find(recs2, a)) {
      if a == e2.key {
        assert Hands(more[|log|]) && more[|log| + 1].key == a;
      } else {
        PastSnoc(log, e, a);
        PastSnoc(log + [e], e2, a);
        SourcedNow(recs, log, archives, a);
        HandedToMore(log, [e, e2], |log|, a, Find(recs, a));
      }
    }
    forall j | 0 <= j < |more| && more[j].isArchive && Past(more[..j], more[j].key) != []
      ensures HandedTo(more, j, more[j].key, more[j].value)
    {
      if j < |log| {
        assert more[..j] == log[..j] && more[j] == log[j];
        SourcedAt(recs, log, archives, j);
        HandedToMore(log, [e, e2], j, log[j].key, log[j].value);
      } else {
        assert more[..j] == log + [e];
        PastSnoc(log, e, e2.key);
        SourcedNow(recs, log, archives, e2.key);
        HandedToMore(log, [e, e2], |log|, e2.key, e2.value);
        HandedToLater(more, |log|, j, e2.key, e2.value);
      }
    }
    SourcedParts(recs2, more, archives);
  }

  lemma ShapedTwo(log: seq<Entry>, e: Entry, e2: Entry, archives: set<string>)
    requires Shaped(log, archives) && Hands(e) && !e.isArchive && e.key !in archives
    requires e2.isArchive && !e2.hasArchive && e2.key in archives
    ensures Shaped(log + [e, e2], archives)
  {
    var more := log + [e, e2];
    assert forall i :: 0 <= i < |log| ==> more[i] == log[i];
    assert more[|log|] == e && more[|log| + 1] == e2;
  }

  lemma HandedToLater(log: seq<Entry>, n: int, m: int, a: string, v: Option<Value>)
    requires HandedTo(log, n, a, v) && n <= m <= |log|
    ensures HandedTo(log, m, a, v)
  {
  }

  lemma SourcedNow(recs: map<string, Value>, log: seq<Entry>, archives: set<string>, a: string)
    requires Sourced(recs, log, archives) && a in archives && Past(log, a) != []
    ensures HandedTo(log, |log|, a, Find(recs, a))
  {
  }

  lemma SourcedAt(recs: map<string, Value>, log: seq<Entry>, archives: set<string>, j: nat)
    requires Sourced(recs, log, archives) && j < |log| && log[j].isArchive && Past(log[..j], log[j].key) != []
    ensures HandedTo(log, j, log[j].key, log[j].value)
  {
  }

  lemma SourcedParts(recs: map<string, Value>, log: seq<Entry>, archives: set<string>)
    requires forall a :: a in archives && Past(log, a) != [] ==> HandedTo(log, |log|, a, Find(recs, a))
    requires forall j :: 0 <= j < |log| && log[j].isArchive && Past(log[..j], log[j].key) != [] ==>
      HandedTo(log, j, log[j].key, log[j].value)
    ensures Sourced(recs, log, archives)
  {
  }

  lemma {:induction false} SourcedAlways(s: Store, ops: seq<Op>, archives: set<string>)
    requires s.log == Some([]) && Plain(ops) && Legal(s, ops) && Apart(ops, archives)
    ensures var t := Run(s, ops); t.log.Some? && Shaped(t.log.value, archives) && Sourced(t.recs, t.log.value, archives)
  {
    if ops != [] {
      var before, op := ops[..|ops| - 1], ops[|ops| - 1];
      SourcedAlways(s, before, archives);
      assert ops == before + [op];
      SourcedStep(Run(s, before), op, archives);
    }
  }

  lemma SourcedStep(s: Store, op: Op, archives: set<string>)
    requires s.log.Some? && Shaped(s.log.value, archives) && Sourced(s.recs, s.log.value, archives)
    requires Apart([op], archives) && InBody(op)
    requires op.SetOp? ==> Possible(s, op.key, op.out)
    ensures var t := Step(s, op); t.log.Some? && Shaped(t.log.value, archives) && Sourced(t.recs, t.log.value, archives)
  {
    hide *;
    if Quiet(op) {
      QuietSame(s, op);
    } else {
      ApartOne(op, archives);
      if IsStored(op) {
        StoredStep(s, op);
        SourcedSet(Chosen(s, op.out.orig, op.out.chosen), op.key, op.out.chosen, op.archiveKey, archives);
      } else {
        AbsentKey(s, op);
        NoRecordStep(s, op);
        var e := Entry(op.key, None, op.archiveKey.Some?, false);
        HandsNothing(e);
        SourcedOne(s.recs, s.recs, s.log.value, e, archives);
      }
    }
  }

  lemma HandsNothing(e: Entry)
    requires e.value.None?
    ensures !Hands(e)
  {
  }

  lemma AbsentKey(s: Store, op: Op)
    requires op.SetOp? && Possible(s, op.key, op.out) && op.out.NoRecord?
    ensures op.key !in s.recs
  {
  }

  lemma QuietSame(s: Store, op: Op)
    requires Quiet(op) && s.log.Some? && InBody(op)
    ensures Step(s, op).recs == s.recs && Step(s, op).log == s.log
  {
  }

  lemma SourcedSet(s: Store, key: string, v: Value, archiveKey: Option<string>, archives: set<string>)
    requires s.log.Some? && Shaped(s.log.value, archives) && Sourced(s.recs, s.log.value, archives)
    requires key !in archives && (archiveKey.Some? ==> archiveKey.value in archives)
    ensures var t := Set(s, key, v, archiveKey);
      t.log.Some? && Shaped(t.log.value, archives) && Sourced(t.recs, t.log.value, archives)
  {
    hide Set, Shaped, Sourced;
    var t := Set(s, key, v, archiveKey);
    SetInside(s, key, v, archiveKey);
    var log := s.log.value;
    var e := Entry(key, Find(s.recs, key), archiveKey.Some?, false);
    if archiveKey.Some? && key in s.recs {
      var e2 := Entry(archiveKey.value, Find(s.recs[key := v], archiveKey.value), false, true);
      assert log + [e] + [e2] == log + [e, e2];
      SourcedTwo(s.recs, t.recs, log, e, e2, archives);
    } else {
      assert t.log.value == log + [e];
      SourcedOne(s.recs, t.recs, log, e, archives);
    }
  }

  lemma {:induction false} PastHas(log: seq<Entry>, k: string)
    ensures Past(log, k) != [] <==> exists i :: 0 <= i < |log| && log[i].key == k
  {
    if log != [] {
      PastHas(log[1..], k);
      if Past(log[1..], k) != [] {
        var i :| 0 <= i < |log[1..]| && log[1..][i].key == k;
        assert log[i + 1].key == k;
      }
      if i :| 0 <= i < |log| && log[i].key == k {
        if i > 0 { assert log[1..][i - 1].key == k; }
      }
    }
  }

  lemma {:induction false} PastAppend(a: seq<Entry>, b: seq<Entry>, k: string)
    ensures Past(a + b, k) == Past(a, k) + Past(b, k)
  {
    if a == [] {
      assert a + b == b;
    } else {
      assert (a + b)[1..] == a[1..] + b;
      PastAppend(a[1..], b, k);
    }
  }

  lemma {:induction false} ReplayAppend(s: Store, a: seq<Entry>, b: seq<Entry>)
    ensures Replay(s, a + b) == Replay(Replay(s, a), b)
    decreases a
  {
    if a == [] {
      assert a + b == b;
    } else {
      assert (a + b)[1..] == a[1..] + b;
      ReplayAppend(Undo(s, a[0]), a[1..], b);
    }
  }

  /** Written at most once, as counted by the log and as positions of the log. */
  lemma OnceIsCount(log: seq<Entry>, archives: set<string>)
    ensures OnceIn(log, archives) <==> forall a :: a in archives ==> |Past(log, a)| <= 1
  {
    forall a | a in archives && |Past(log, a)| > 1 ensures !OnceIn(log, archives) { TwoEntries(log, a); }
    if i, j :| 0 <= i < j < |log| && log[i].key in archives && log[i].key == log[j].key {
      var a := log[i].key;
      assert log == log[..i] + [log[i]] + log[i + 1..j] + [log[j]] + log[j + 1..];
      PastAppend(log[..i] + [log[i]] + log[i + 1..j] + [log[j]], log[j + 1..], a);
      PastAppend(log[..i] + [log[i]] + log[i + 1..j], [log[j]], a);
      PastAppend(log[..i] + [log[i]], log[i + 1..j], a);
      PastAppend(log[..i], [log[i]], a);
      assert |Past([log[i]], a)| == 1 && |Past([log[j]], a)| == 1;
    }
  }

  lemma {:induction false} TwoEntries(log: seq<Entry>, a: string)
    requires |Past(log, a)| > 1
    ensures exists i, j :: 0 <= i < j < |log| && log[i].key == a && log[j].key == a
  {
    if log[0].key == a {
      PastHas(log[1..], a);
      var j :| 0 <= j < |log[1..]| && log[1..][j].key == a;
      assert log[0].key == a && log[j + 1].key == a;
    } else {
      TwoEntries(log[1..], a);
      var i, j :| 0 <= i < j < |log[1..]| && log[1..][i].key == a && log[1..][j].key == a;
      assert log[i + 1].key == a && log[j + 1].key == a;
    }
  }

  /** With every archive written at most once, each still holds what it was handed. */
  lemma OnceIsKept(recs: map<string, Value>, log: seq<Entry>, archives: set<string>)
    requires Shaped(log, archives) && Sourced(recs, log, archives) && OnceIn(log, archives)
    ensures Kept(recs, log)
  {
    forall i | 0 <= i < |log| - 1 && Hands(log[i])
      ensures log[i + 1].key in recs && recs[log[i + 1].key] == log[i].value.value
    {
      var a := log[i + 1].key;
      PastHas(log, a);
      var i2 :| 0 <= i2 && i2 + 1 < |log| && Hands(log[i2]) && log[i2 + 1].key == a && log[i2].value == Find(recs, a);
      assert i2 == i;
    }
  }

  /** How many owners a container has among the destroyed ones and the records outside the archives. */
  ghost function Weight(s: Store, archives: set<string>, v: Value): nat {
    s.dead[v] + if exists k :: k in s.recs && k !in archives && s.recs[k] == v then 1 else 0
  }

  lemma WeightGrows(s: Store, e: Entry, archives: set<string>, v: Value)
    requires e.isArchive <==> e.key in archives
    ensures Weight(Undo(s, e), archives, v) >= Weight(s, archives, v)
    ensures !e.isArchive && e.value == Some(v) ==> Weight(Undo(s, e), archives, v) >= 1
  {
    var t := Undo(s, e);
    if k :| k in s.recs && k !in archives && s.recs[k] == v {
      if k == e.key && k in t.recs && t.recs[k] == v {
      } else if k != e.key {
        assert t.recs[k] == v;
      }
    }
    if !e.isArchive && e.value == Some(v) && e.key in s.recs {
      assert t.recs[e.key] == v;
    }
  }

  lemma {:induction false} WeightReplay(s: Store, log: seq<Entry>, archives: set<string>, v: Value)
    requires forall i :: 0 <= i < |log| ==> (log[i].isArchive <==> log[i].key in archives)
    ensures Weight(Replay(s, log), archives, v) >= Weight(s, archives, v)
    decreases log
  {
    if log != [] {
      WeightGrows(s, log[0], archives, v);
      assert forall i :: 0 <= i < |log[1..]| ==> log[1..][i] == log[i + 1];
      WeightReplay(Undo(s, log[0]), log[1..], archives, v);
    }
  }

  /** An archive written twice ends up with a container that has another owner, or destroys one a second time. */
  lemma TwiceUnbalances(s: Store, log: seq<Entry>, archives: set<string>)
    requires Shaped(log, archives) && Sourced(s.recs, log, archives) && !OnceIn(log, archives)
    ensures !Ledger(Replay(s, log).(log := None))
  {
    hide *;
    var a, i, j := FindTwice(s.recs, log, archives);
    var v := log[j].value.value;
    var s1 := Replay(s, log[..j]);
    WeighedBefore(s, log, archives, i, j);
    var t := Undo(s1, log[j]);
    ReplayFrom(s, log, archives, j, a, v);
    TooMany(s1, log[j], Replay(s, log), archives, v);
  }

  lemma FindTwice(recs: map<string, Value>, log: seq<Entry>, archives: set<string>) returns (a: string, i: nat, j: nat)
    requires Shaped(log, archives) && Sourced(recs, log, archives) && !OnceIn(log, archives)
    ensures i + 1 < j < |log| && Hands(log[i]) && log[i].value == log[j].value && log[j].value.Some?
    ensures a in archives && log[j].key == a && log[j].isArchive
    ensures forall m :: j < m < |log| ==> log[m].key != a
  {
    var i0, j0 :| 0 <= i0 < j0 < |log| && log[i0].key in archives && log[i0].key == log[j0].key;
    a := log[i0].key;
    j := LastOf(log, a, j0);
    assert log[j].isArchive;
    hide Sourced, Shaped;
    PastHas(log[..j], a);
    assert log[..j][i0] == log[i0];
    SourcedAt(recs, log, archives, j);
    i :| 0 <= i && i + 1 < j && Hands(log[i]) && log[i + 1].key == a && log[i].value == log[j].value;
  }

  lemma ReplayFrom(s: Store, log: seq<Entry>, archives: set<string>, j: nat, a: string, v: Value)
    requires Shaped(log, archives) && j < |log| && forall m :: j < m < |log| ==> log[m].key != a
    ensures var t := Undo(Replay(s, log[..j]), log[j]);
      && Weight(Replay(s, log), archives, v) >= Weight(t, archives, v)
      && Find(Replay(s, log).recs, a) == Find(t.recs, a)
  {
    hide Undo, Weight;
    var rest := log[j + 1..];
    var t := Undo(Replay(s, log[..j]), log[j]);
    assert forall m :: 0 <= m < |rest| ==> rest[m] == log[m + j + 1];
    ReplayAppend(s, log[..j], log[j..]);
    assert log == log[..j] + log[j..] && log[j..][0] == log[j] && log[j..][1..] == rest;
    assert Replay(s, log) == Replay(t, rest);
    WeightReplay(t, rest, archives, v);
    PastHas(rest, a);
    ReplayAt(t, rest, a);
  }

  lemma TooMany(s: Store, e: Entry, end: Store, archives: set<string>, v: Value)
    requires e.isArchive && e.key in archives && e.value == Some(v) && Weight(s, archives, v) >= 1
    requires Weight(end, archives, v) >= Weight(Undo(s, e), archives, v)
    requires Find(end.recs, e.key) == Find(Undo(s, e).recs, e.key)
    ensures !Ledger(end.(log := None))
  {
    WeightGrows(s, e, archives, v);
    if e.key in s.recs {
      assert e.key in end.recs && end.recs[e.key] == v;
      assert v in Held(end.recs);
    } else {
      assert Weight(end, archives, v) >= 2;
      if k :| k in end.recs && k !in archives && end.recs[k] == v { assert v in Held(end.recs); }
    }
    assert v in end.dead ==> v in Gone(end.dead);
  }

  lemma LastOf(log: seq<Entry>, a: string, from: nat) returns (j: nat)
    requires from < |log| && log[from].key == a
    ensures from <= j < |log| && log[j].key == a
    ensures forall i :: j < i < |log| ==> log[i].key != a
  {
    j := |log| - 1;
    while log[j].key != a
      invariant from <= j < |log|
      invariant forall i :: j < i < |log| ==> log[i].key != a
      decreases j
    {
      j := j - 1;
    }
  }

  /** When the last write of an archive is undone, the container it logged has an owner already. */
  lemma WeighedBefore(s: Store, log: seq<Entry>, archives: set<string>, i: nat, j: nat)
    requires Shaped(log, archives) && i < j < |log| && Hands(log[i]) && i + 1 < j
    ensures Weight(Replay(s, log[..j]), archives, log[i].value.value) >= 1
  {
    var v := log[i].value.value;
    var s0 := Replay(s, log[..i]);
    assert log[..j] == log[..i] + log[i..j];
    ReplayAppend(s, log[..i], log[i..j]);
    assert log[i..j][0] == log[i] && log[i..j][1..] == log[i + 1..j];
    assert log[i].hasArchive;
    WeightGrows(s0, log[i], archives, v);
    WeightReplay(Undo(s0, log[i]), log[i + 1..j], archives, v);
  }

  /** Rolling back leaves every container with exactly one owner exactly when no archive was written twice. */
  lemma RollbackBalancesIff(s0: Store, ops: seq<Op>, archives: set<string>)
    requires Ledger(s0) && s0.log.None?
    requires Plain(ops) && Legal(Begin(s0), ops) && Apart(ops, archives)
    ensures Run(Begin(s0), ops).log.Some?
    ensures Ledger(End(Run(Begin(s0), ops), true)) <==>
            forall a :: a in archives ==> Writes(s0.recs.Keys, ops, a) <= 1
  {
    hide Run, Writes, Undo, Shaped, Sourced, Kept, OnceIn, Past, Traced, Legal;
    DuringSteps(s0, ops, archives);
    SourcedAlways(Begin(s0), ops, archives);
    var s := Run(Begin(s0), ops);
    var log := s.log.value;
    OnceIsCount(log, archives);
    if OnceIn(log, archives) {
      OnceIsKept(s.recs, log, archives);
      ReplayBalances(s, log, archives);
    } else {
      TwiceUnbalances(s, log, archives);
    }
    var t := Replay(s, log);
    LedgerIgnoresUnsets(t.(log := None));
  }

  /** Two archiving sets of one key, rolled back: the container the archive held last is destroyed twice, and the key keeps
      the first new one. */
  lemma SecondArchiveFreesTwice(s0: Store, key: string, archive: string, v1: Value, v2: Value)
    requires s0.log.None? && key in s0.recs && archive !in s0.recs
    requires s0.recs[key] != v1 && v1 != v2 && v2 != s0.recs[key]
    ensures var t := End(Set(Set(Begin(s0), key, v1, Some(archive)), key, v2, Some(archive)), true);
      && t.recs == s0.recs[key := v1]
      && t.dead == s0.dead + multiset{v2} + multiset{s0.recs[key]} + multiset{s0.recs[key]} && !Ledger(t)
  {
    var v0 := s0.recs[key];
    var s := Set(Set(Begin(s0), key, v1, Some(archive)), key, v2, Some(archive));
    var e1, e2 := Entry(key, Some(v0), true, false), Entry(archive, None, false, true);
    var e3, e4 := Entry(key, Some(v1), true, false), Entry(archive, Some(v0), false, true);
    assert s.log.value == [e1] + [e2] + [e3] + [e4];
    ReplaySnoc(s, [e1] + [e2] + [e3], e4);
    ReplaySnoc(s, [e1] + [e2], e3);
    ReplaySnoc(s, [e1], e2);
    ReplaySnoc(s, [], e1);
    assert [] + [e1] == [e1];
    assert s.recs == s0.recs[key := v2][archive := v1];
    assert s.recs[key := v0] - {archive} == s0.recs;
    assert v0 in End(s, true).dead && End(s, true).dead[v0] >= 2;
  }

  lemma LedgerIgnoresUnsets(s: Store)
    ensures Ledger(s) <==> Ledger(s.(unsets := []))
  {
  }
}
