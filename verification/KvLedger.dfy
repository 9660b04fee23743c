/** Ownership of value containers: outside the code that is running, every container is held by exactly one record,
    or by exactly one entry of the rollback buffer, or it was destroyed exactly once (or dropped by a failed allocation). */
module KvLedger {
  import opened BPTypes
  import opened KvStore

  ghost function Held(recs: map<string, Value>): set<Value> {
    set k | k in recs :: recs[k]
  }

  /** The entry keeps the container alive; an entry with an archive does not, the archive record does. */
  predicate Owns(e: Entry) {
    !e.hasArchive && e.value.Some?
  }

  ghost function Owned(log: seq<Entry>): set<Value> {
    set i | 0 <= i < |log| && Owns(log[i]) :: log[i].value.value
  }

  ghost function Gone(dead: multiset<Value>): set<Value> {
    set v | v in dead
  }

  function LogOf(s: Store): seq<Entry> {
    if s.log.Some? then s.log.value else []
  }

  ghost predicate Injective(recs: map<string, Value>) {
    forall k1, k2 :: k1 in recs && k2 in recs && recs[k1] == recs[k2] ==> k1 == k2
  }

  ghost predicate DistinctLog(log: seq<Entry>) {
    forall i, j :: 0 <= i < j < |log| && Owns(log[i]) && Owns(log[j]) ==> log[i].value != log[j].value
  }

  /** The books balance, with the containers of `hand` held by local variables of the running code. */
  ghost predicate Books(s: Store, hand: set<Value>) {
    && Injective(s.recs)
    && DistinctLog(LogOf(s))
    && (forall v :: v in s.dead ==> s.dead[v] == 1)
    && Held(s.recs) !! Owned(LogOf(s)) !! Gone(s.dead) !! s.lost !! hand
    && s.created == Held(s.recs) + Owned(LogOf(s)) + Gone(s.dead) + s.lost + hand
  }

  ghost predicate Ledger(s: Store) {
    Books(s, {})
  }

  lemma MadeBooks(s: Store, hand: set<Value>, v: Value)
    requires Books(s, hand) && v !in s.created
    ensures Books(Made(s, v), hand + {v})
  {
  }

  lemma KillBooks(s: Store, hand: set<Value>, v: Value)
    requires Books(s, hand) && v in hand
    ensures Books(Kill(s, Some(v)), hand - {v})
  {
    GoneMore(s.dead, v);
  }

  lemma GoneMore(dead: multiset<Value>, v: Value)
    ensures Gone(dead + multiset{v}) == Gone(dead) + {v}
  {
  }

  lemma LoseBooks(s: Store, hand: set<Value>, v: Value)
    requires Books(s, hand) && v in hand
    ensures Books(s.(lost := s.lost + {v}), hand - {v})
  {
  }

  lemma OwnedMore(log: seq<Entry>, e: Entry)
    ensures Owned(log + [e]) == Owned(log) + if Owns(e) then {e.value.value} else {}
  {
    var more := log + [e];
    assert forall i :: 0 <= i < |log| ==> more[i] == log[i];
    assert more[|log|] == e;
    forall v | v in Owned(log) ensures v in Owned(more) {
      var i :| 0 <= i < |log| && Owns(log[i]) && log[i].value.value == v;
      assert more[i] == log[i];
    }
  }

  lemma HeldPut(recs: map<string, Value>, key: string, v: Value)
    requires Injective(recs) && v !in Held(recs)
    ensures Injective(recs[key := v])
    ensures Held(recs[key := v]) == Held(recs) - (if key in recs then {recs[key]} else {}) + {v}
  {
    var more := recs[key := v];
    assert more[key] == v;
    forall u | u in Held(recs) && (key in recs ==> u != recs[key]) ensures u in Held(more) {
      var k :| k in recs && recs[k] == u;
      assert more[k] == u;
    }
  }

  lemma HeldRemove(recs: map<string, Value>, key: string)
    requires Injective(recs)
    ensures Injective(recs - {key})
    ensures Held(recs - {key}) == Held(recs) - (if key in recs then {recs[key]} else {})
  {
    var less := recs - {key};
    forall u | u in Held(recs) && (key in recs ==> u != recs[key]) ensures u in Held(less) {
      var k :| k in recs && recs[k] == u;
      assert less[k] == u;
    }
  }

  lemma ReplaceBooks(s: Store, hand: set<Value>, key: string, v: Value)
    requires Books(s, hand) && v in hand
    ensures Books(s.(recs := s.recs[key := v]), hand - {v} + if key in s.recs then {s.recs[key]} else {})
    ensures key in s.recs ==> s.recs[key] !in hand
  {
    HeldPut(s.recs, key, v);
    assert key in s.recs ==> s.recs[key] in Held(s.recs);
  }

  /** A write moves `v` from the writer's hand into the record; the replaced container changes owner. */
  lemma PutBooks(s: Store, hand: set<Value>, key: string, v: Value, hasArchive: bool, isArchive: bool)
    requires Books(s, hand) && v in hand
    ensures Books(Put(s, key, v, hasArchive, isArchive),
                  hand - {v} + if hasArchive && key in s.recs then {s.recs[key]} else {})
  {
    hide Books, Injective;
    var freed := if key in s.recs then {s.recs[key]} else {};
    var s1 := s.(recs := s.recs[key := v]);
    var in1 := hand - {v} + freed;
    ReplaceBooks(s, hand, key, v);
    assert in1 - {} == in1 && hand - {v} + {} == hand - {v};
    if s.log.Some? {
      LogBooks(s1, in1, Entry(key, Find(s.recs, key), hasArchive, isArchive));
      assert hand - {v} == in1 - freed;
    } else if !hasArchive && key in s.recs {
      KillBooks(s1, in1, s.recs[key]);
      assert hand - {v} == in1 - freed;
    }
  }

  /** Logging a replaced container. */
  lemma LogBooks(s: Store, hand: set<Value>, e: Entry)
    requires Books(s, hand) && s.log.Some?
    requires Owns(e) ==> e.value.value in hand
    ensures Books(s.(log := Some(s.log.value + [e])), hand - if Owns(e) then {e.value.value} else {})
  {
    OwnedMore(s.log.value, e);
    forall i, j | 0 <= i < j < |s.log.value| + 1 && Owns((s.log.value + [e])[i]) && Owns((s.log.value + [e])[j])
      ensures (s.log.value + [e])[i].value != (s.log.value + [e])[j].value
    {
      if j == |s.log.value| { assert s.log.value[i].value.value in Owned(s.log.value); }
    }
  }

  lemma RemoveBooks(s: Store, hand: set<Value>, key: string)
    requires Books(s, hand)
    ensures Books(Remove(s, key), hand)
  {
    if key in s.recs {
      var s1 := s.(recs := s.recs - {key});
      HeldRemove(s.recs, key);
      assert s.recs[key] in Held(s.recs);
      assert Books(s1, hand + {s.recs[key]});
      KillBooks(s1, hand + {s.recs[key]}, s.recs[key]);
      assert hand + {s.recs[key]} - {s.recs[key]} == hand;
    } else {
      assert s.recs - {key} == s.recs;
    }
  }

  lemma {:induction false} RemoveAllBooks(s: Store, keys: seq<string>)
    requires Ledger(s)
    ensures Ledger(RemoveAll(s, keys))
    decreases keys
  {
    if keys != [] {
      RemoveBooks(s, {}, keys[0]);
      RemoveAllBooks(Remove(s, keys[0]), keys[1..]);
    }
  }

  /** Taking the first entry off the log puts what it owned into the hand. */
  lemma PopBooks(s: Store, hand: set<Value>)
    requires Books(s, hand) && LogOf(s) != []
    ensures var e := LogOf(s)[0];
      Books(s.(log := Some(LogOf(s)[1..])), hand + if Owns(e) then {e.value.value} else {})
  {
    var log := LogOf(s);
    var rest := log[1..];
    forall v | v in Owned(log) && !(Owns(log[0]) && v == log[0].value.value) ensures v in Owned(rest) {
      var i :| 0 <= i < |log| && Owns(log[i]) && log[i].value.value == v;
      assert rest[i - 1] == log[i];
    }
    forall v | v in Owned(rest) ensures v in Owned(log) && (Owns(log[0]) ==> v != log[0].value.value) {
      var i :| 0 <= i < |rest| && Owns(rest[i]) && rest[i].value.value == v;
      assert log[i + 1] == rest[i];
    }
    if Owns(log[0]) { assert log[0].value.value in Owned(log); }
  }

  lemma {:induction false} RetireAllBooks(s: Store, log: seq<Entry>)
    requires Books(s.(log := Some(log)), {})
    ensures Books(RetireAll(s, log).(log := None), {})
    decreases log
  {
    if log == [] {
      assert Owned([]) == {};
    } else {
      var s0 := s.(log := Some(log));
      PopBooks(s0, {});
      var hand := if Owns(log[0]) then {log[0].value.value} else {};
      var s1 := s.(log := Some(log[1..]));
      assert {} + hand == hand;
      assert Books(s1, hand);
      if Owns(log[0]) {
        KillBooks(s1, hand, log[0].value.value);
        assert hand - {log[0].value.value} == {};
      }
      assert Retire(s, log[0]).(log := Some(log[1..])) == Retire(s1, log[0]);
      RetireAllBooks(Retire(s, log[0]), log[1..]);
    }
  }

  /** Committing balances: what the log owned is destroyed, what an archive took over stays. */
  lemma CommitKeepsLedger(s: Store)
    requires Ledger(s) && s.log.Some?
    ensures Ledger(End(s, false))
  {
    RemoveAllBooks(s, s.unsets);
    RemoveAllKeeps(s, s.unsets);
    var s1 := RemoveAll(s, s.unsets);
    assert s1.(log := Some(s.log.value)) == s1;
    RetireAllBooks(s1, s.log.value);
    var s2 := RetireAll(s1, s.log.value).(log := None);
    assert Ledger(s2.(unsets := []));
  }

  /** The containers a set makes are new, and it ends in a way its circumstances allow. */
  ghost predicate Possible(s: Store, key: string, out: Outcome) {
    && (forall v :: v in ValuesOf(out) ==> v !in s.created)
    && (out.NotLogged? ==> s.log.Some?)
    && (out.NoRecord? ==> key !in s.recs)
  }

  lemma ChosenBooks(s: Store, orig: Value, chosen: Value)
    requires Ledger(s) && orig !in s.created && chosen !in s.created
    ensures Books(Chosen(s, orig, chosen), {chosen})
    ensures Chosen(s, orig, chosen).recs == s.recs && Chosen(s, orig, chosen).log == s.log
    ensures Chosen(s, orig, chosen).unsets == s.unsets
  {
    MadeBooks(s, {}, orig);
    assert {} + {orig} == {orig};
    if chosen != orig {
      MadeBooks(Made(s, orig), {orig}, chosen);
      KillBooks(Made(Made(s, orig), chosen), {orig} + {chosen}, orig);
      assert {orig} + {chosen} - {orig} == {chosen};
    }
  }

  lemma NewIsNew(s: Store, key: string, out: Outcome)
    requires Possible(s, key, out) && !out.NoObject?
    ensures out.orig !in s.created
    ensures out.NotLogged? || out.NoRecord? || out.Stored? ==> out.chosen !in s.created
  {
    assert out.orig in ValuesOf(out);
    assert out.NotLogged? || out.NoRecord? || out.Stored? ==> out.chosen in ValuesOf(out);
  }

  /** Every set keeps the ledger, inside and outside a transaction, however it ends. */
  lemma SetKeepsLedger(s: Store, key: string, archiveKey: Option<string>, out: Outcome)
    requires Ledger(s) && Possible(s, key, out)
    ensures Ledger(After(s, key, archiveKey, out))
  {
    hide Books;
    if !out.NoObject? { NewIsNew(s, key, out); }
    match out
    case NoObject =>
    case Refused(o) =>
      MadeBooks(s, {}, o);
      assert {} + {o} == {o};
      KillBooks(Made(s, o), {o}, o);
      assert {o} - {o} == {};
    case EditLost(o) =>
      MadeBooks(s, {}, o);
      assert {} + {o} == {o};
      LoseBooks(Made(s, o), {o}, o);
      assert {o} - {o} == {};
    case NotLogged(o, c) =>
      ChosenBooks(s, o, c);
      KillBooks(Chosen(s, o, c), {c}, c);
      assert {c} - {c} == {};
    case NoRecord(o, c) =>
      ChosenBooks(s, o, c);
      NoRecordBooks(Chosen(s, o, c), key, c, archiveKey.Some?);
    case Stored(o, c) =>
      ChosenBooks(s, o, c);
      StoredBooks(Chosen(s, o, c), key, c, archiveKey);
  }

  lemma NoRecordBooks(s: Store, key: string, v: Value, hasArchive: bool)
    requires Books(s, {v}) && key !in s.recs
    ensures Ledger(Put(s, key, v, hasArchive, false).(recs := s.recs, lost := s.lost + {v}))
  {
    LoseBooks(s, {v}, v);
    var s1 := s.(lost := s.lost + {v});
    if s.log.Some? { LogBooks(s1, {}, Entry(key, None, hasArchive, false)); }
  }

  lemma StoredBooks(s: Store, key: string, v: Value, archiveKey: Option<string>)
    requires Books(s, {v})
    ensures Ledger(Set(s, key, v, archiveKey))
  {
    PutBooks(s, {v}, key, v, archiveKey.Some?, false);
    if archiveKey.Some? && key in s.recs {
      var s1 := Put(s, key, v, true, false);
      var w := s.recs[key];
      assert {v} - {v} + {w} == {w};
      PutBooks(s1, {w}, archiveKey.value, w, false, true);
      assert {w} - {w} + {} == {};
    } else {
      assert {v} - {v} + {} == {};
    }
  }

  lemma UnsetKeepsLedger(s: Store, key: string)
    requires Ledger(s)
    ensures Ledger(Unset(s, key))
  {
    if s.log.None? { RemoveBooks(s, {}, key); }
  }
}
