/** Workers fork from a snapshot, collect cumulative deltas, and the main process folds them in, in any order. */
module DeltaSync {
  import opened BPTypes
  import opened CStrings
  import opened KvStore
  import opened Keys
  import opened SortedVec
  import opened DeltaStep
  import opened DeltaView
  import opened DeltaSet
  import opened DeltaRel

  /** A call of the relation engine in a worker. */
  datatype Call = Call(cur: KeySpec, rel: KeySpec, op: KvOp, items: set<string>, header: seq<string>)

  /** A run of a worker: the records before the first call, and after each. */
  ghost predicate Trace(es: seq<Recs>, calls: seq<Call>, kinds: KeySpec -> KeySpec) {
    && |es| == |calls| + 1
    && (forall i :: 0 <= i < |calls| ==>
          && GoodCall(calls[i].cur, calls[i].rel, calls[i].items, kinds)
          && SetOn(es[i], es[i + 1], calls[i].cur, calls[i].rel, calls[i].op, calls[i].items, calls[i].header, true, true))
  }

  ghost predicate FreshFork(e: Recs) {
    forall sp :: IsList(sp) ==> Plus(e, sp) == {} && Minus(e, sp) == {}
  }

  /** After any number of calls since the fork every cumulative list is the difference to the list at the fork, and the
      relation is symmetric. */
  lemma {:induction false} CumulativeAlways(es: seq<Recs>, calls: seq<Call>, kinds: KeySpec -> KeySpec, n: nat)
    requires Trace(es, calls, kinds) && World(es[0], kinds, true) && FreshFork(es[0]) && n < |es|
    ensures World(es[n], kinds, true)
    ensures forall sp :: IsList(sp) ==>
      && Base(es[n], sp) == Cur(es[0], sp)
      && Plus(es[n], sp) == Cur(es[n], sp) - Cur(es[0], sp) && Minus(es[n], sp) == Cur(es[0], sp) - Cur(es[n], sp)
  {
    hide Cur, Plus, Minus, SetOn, GoodCall, Symmetric, Typed;
    if n > 0 {
      CumulativeAlways(es, calls, kinds, n - 1);
      var c := calls[n - 1];
      assert es[n - 1 + 1] == es[n];
      CallKeepsWorld(es[n - 1], es[n], c.cur, c.rel, c.op, c.items, kinds, c.header, true);
    }
    forall sp | IsList(sp)
      ensures Base(es[n], sp) == Cur(es[0], sp)
      ensures Plus(es[n], sp) == Cur(es[n], sp) - Cur(es[0], sp) && Minus(es[n], sp) == Cur(es[0], sp) - Cur(es[n], sp)
    {
      assert Ready(es[n], sp, true);
      TrackedDifferences(es[n], sp);
    }
  }

  /** One exported record: the key without its operation character, the operation and the vector. */
  datatype DeltaRec = DeltaRec(key: string, op: KvOp, vec: seq<string>)

  /** The record's flags keep an empty list. */
  ghost predicate Reserves(r: DeltaRec) {
    |r.vec| > FLAGS && RESERVED in r.vec[FLAGS]
  }

  ghost predicate RecOk(r: DeltaRec) {
    r.key != [] && Canonical(r.key) == r.key && !r.op.OpSet? && |r.vec| > HEADER && Ascending(Data(r.vec))
  }

  /** The delta branch of ubr.c _sync_main_kv_store: a step of the main list; an empty list that is not reserved is unset. */
  method SyncDelta(kvs: KvStore, r: DeltaRec) returns (unset: bool)
    requires kvs.rollbackBuf.Some? && RecOk(r) && Untied(kvs.State(), {r.key}) && ListOk(Pending(kvs.State()), r.key)
    modifies kvs
    ensures Going(old(kvs.State()), kvs.State(), if r.op.OpPlus? then {} else {r.key})
    ensures OnlyAt(Pending(old(kvs.State())), Pending(kvs.State()), {r.key})
    ensures ListOk(Pending(kvs.State()), r.key)
    ensures Items(Pending(kvs.State()), r.key) == FinalSet(r.op, Items(Pending(old(kvs.State())), r.key), Elems(Data(r.vec)))
    ensures unset <==> !Reserves(r) && Items(Pending(kvs.State()), r.key) == {}
    ensures if unset then r.key !in Pending(kvs.State()) else HeaderAt(Pending(kvs.State()), r.key, r.vec[..HEADER])
  {
    hide Items, ListOk, OnlyAt, Pending, Going, Canonical, FinalSet, Data, Elems;
    ghost var s := kvs.State();
    var r1, plus, minus := StepAndStore(kvs, r.key, r.op, r.vec);
    ghost var s1 := kvs.State();
    var final := StoredCells(kvs, r.key);
    FinalIs(Pending(s1), r.key, r.vec[..HEADER], final);
    assert final[FLAGS] == r.vec[FLAGS];
    if r.op.OpPlus? { NotEmptied(Items(Pending(s), r.key), r.vec); }
    unset := RESERVED !in final[FLAGS] && |final| == HEADER;
    if unset {
      DropRecord(kvs, r.key);
      Dropped(s, s1, kvs.State(), r.key);
    } else if !r.op.OpPlus? {
      GoingMore(s, s1, {}, {r.key});
    }
  }

  lemma FinalIs(e: Recs, k: string, h: seq<string>, final: seq<string>)
    requires HeaderAt(e, k, h) && final == CellsAt(e, k)
    ensures |final| >= HEADER == |h| && final[FLAGS] == h[FLAGS] && (|final| == HEADER <==> Items(e, k) == {})
  {
    assert h[FLAGS] == final[..HEADER][FLAGS];
    EmptyAscends();
    SomeElem(Data(final));
    if |final| > HEADER { SomeData(final); }
  }

  lemma NotEmptied(was: set<string>, vec: seq<string>)
    requires |vec| > HEADER
    ensures FinalSet(OpPlus, was, Elems(Data(vec))) != {}
  {
    SomeData(vec);
    SomeElem(Data(vec));
  }

  lemma SomeData(v: seq<string>)
    requires |v| > HEADER
    ensures Data(v) != []
  {
    assert Data(v)[0] == v[HEADER];
  }

  lemma Dropped(s: Store, s1: Store, s2: Store, k: string)
    requires Going(s, s1, {}) && OnlyAt(Pending(s), Pending(s1), {k})
    requires Going(s1, s2, {k}) && OnlyAt(Pending(s1), Pending(s2), {k}) && k !in Pending(s2)
    ensures Going(s, s2, {k}) && OnlyAt(Pending(s), Pending(s2), {k}) && ListOk(Pending(s2), k) && Items(Pending(s2), k) == {}
  {
    hide Pending;
    GoingTrans(s, s1, s2, {}, {k});
    assert {} + {k} == {k} && {k} + {k} == {k};
    OnlyAtTrans(Pending(s), Pending(s1), Pending(s2), {k}, {k});
    EmptyAscends();
  }

  /** What the records of a batch add to and remove from the list under `k`. */
  ghost function Sent(batch: seq<DeltaRec>, k: string, op: KvOp): set<string> {
    set i, x | 0 <= i < |batch| && batch[i].key == k && batch[i].op == op && x in Elems(Data(batch[i].vec)) :: x
  }

  /** The added items of a list come before its removed ones, once each. */
  ghost predicate BatchOk(batch: seq<DeltaRec>) {
    && (forall i :: 0 <= i < |batch| ==> RecOk(batch[i]))
    && (forall i, j :: 0 <= i < j < |batch| && batch[i].key == batch[j].key ==> batch[i].op == OpPlus && batch[j].op == OpMinus)
  }

  ghost function KeysIn(batch: seq<DeltaRec>): set<string> {
    set i | 0 <= i < |batch| :: batch[i].key
  }

  ghost predicate Folded(e: Recs, e2: Recs, batch: seq<DeltaRec>) {
    && OnlyAt(e, e2, KeysIn(batch))
    && forall k :: k in KeysIn(batch) ==>
      ListOk(e2, k) && Items(e2, k) == (Items(e, k) + Sent(batch, k, OpPlus)) - Sent(batch, k, OpMinus)
  }

  /** No list with an addition still to come is about to be unset. */
  ghost predicate Safe(s: Store, batch: seq<DeltaRec>, n: nat)
    requires n <= |batch|
  {
    forall k :: k in s.unsets ==> exists i :: 0 <= i < n && batch[i].key == k && batch[i].op == OpMinus
  }

  lemma SentSnoc(batch: seq<DeltaRec>, n: nat, k: string, op: KvOp)
    requires n < |batch|
    ensures Sent(batch[..n + 1], k, op) ==
            Sent(batch[..n], k, op) + if batch[n].key == k && batch[n].op == op then Elems(Data(batch[n].vec)) else {}
  {
    hide Elems, Data;
    var a, b, r := batch[..n], batch[..n + 1], batch[n];
    assert forall i :: 0 <= i < n ==> b[i] == a[i];
    assert b[n] == r;
    forall x ensures x in Sent(b, k, op) <==> x in Sent(a, k, op) || (r.key == k && r.op == op && x in Elems(Data(r.vec))) {
      if x in Sent(a, k, op) {
        var i :| 0 <= i < |a| && a[i].key == k && a[i].op == op && x in Elems(Data(a[i].vec));
        assert b[i] == a[i];
      }
      if x in Sent(b, k, op) {
        var i :| 0 <= i < |b| && b[i].key == k && b[i].op == op && x in Elems(Data(b[i].vec));
        assert i < n ==> a[i] == b[i];
      }
    }
  }

  lemma KeysSnoc(batch: seq<DeltaRec>, n: nat)
    requires n < |batch|
    ensures KeysIn(batch[..n + 1]) == KeysIn(batch[..n]) + {batch[n].key}
  {
    var a, b := batch[..n], batch[..n + 1];
    assert b[n] == batch[n] && forall i :: 0 <= i < n ==> b[i] == a[i];
    forall k | k in KeysIn(a) ensures k in KeysIn(b) {
      var i :| 0 <= i < |a| && a[i].key == k;
      assert b[i].key == k;
    }
  }

  lemma NotInKeys(batch: seq<DeltaRec>, k: string, op: KvOp)
    requires k !in KeysIn(batch)
    ensures Sent(batch, k, op) == {}
  {
  }

  /** One record folds into every list as it should: an addition to a list comes before its removals. */
  lemma FoldOne(e: Recs, e1: Recs, e2: Recs, batch: seq<DeltaRec>, n: nat)
    requires BatchOk(batch) && n < |batch| && Folded(e, e1, batch[..n])
    requires OnlyAt(e1, e2, {batch[n].key}) && ListOk(e2, batch[n].key)
    requires Items(e2, batch[n].key) == FinalSet(batch[n].op, Items(e1, batch[n].key), Elems(Data(batch[n].vec)))
    ensures Folded(e, e2, batch[..n + 1])
  {
    hide Items, ListOk, Sent, RecOk, OnlyAt, KeysIn;
    var r := batch[n];
    KeysSnoc(batch, n);
    OnlyAtTrans(e, e1, e2, KeysIn(batch[..n]), {r.key});
    assert RecOk(r);
    OpOfRec(r);
    forall k | k in KeysIn(batch[..n + 1])
      ensures ListOk(e2, k) && Items(e2, k) == (Items(e, k) + Sent(batch[..n + 1], k, OpPlus)) - Sent(batch[..n + 1], k, OpMinus)
    {
      SentSnoc(batch, n, k, OpPlus);
      SentSnoc(batch, n, k, OpMinus);
      if k != r.key {
        AtOther(e1, e2, {r.key}, k);
      } else {
        if r.op == OpPlus { NoneSent(batch, n); }
        if k !in KeysIn(batch[..n]) {
          AtOther(e, e1, KeysIn(batch[..n]), k);
          NotInKeys(batch[..n], k, OpPlus);
          NotInKeys(batch[..n], k, OpMinus);
        }
      }
    }
  }

  lemma OpOfRec(r: DeltaRec)
    requires RecOk(r)
    ensures !r.op.OpSet?
  {
  }

  lemma AtOther(e1: Recs, e2: Recs, ks: set<string>, k: string)
    requires OnlyAt(e1, e2, ks) && k !in ks
    ensures Items(e2, k) == Items(e1, k) && (ListOk(e2, k) <==> ListOk(e1, k)) && (k in e2 <==> k in e1)
    ensures k in e1 ==> e2[k] == e1[k]
  {
    assert SameAt(e1, e2, k);
  }

  lemma NoneSent(batch: seq<DeltaRec>, n: nat)
    requires BatchOk(batch) && n < |batch| && batch[n].op == OpPlus
    ensures Sent(batch[..n], batch[n].key, OpMinus) == {}
  {
  }

  /** Record i takes the last item out of a list that is not reserved. */
  ghost predicate Empties(e: Recs, batch: seq<DeltaRec>, i: nat)
    requires i < |batch|
  {
    var r := batch[i];
    && !Reserves(r) && r.op.OpMinus?
    && Items(e, r.key) + Sent(batch, r.key, OpPlus) <= Elems(Data(r.vec))
  }

  /** No record but the last empties an unreserved list. */
  ghost predicate Intact(e: Recs, batch: seq<DeltaRec>) {
    forall i :: 0 <= i < |batch| - 1 ==> !Empties(e, batch, i)
  }

  lemma EmptiesIs(e: Recs, e1: Recs, e2: Recs, batch: seq<DeltaRec>, n: nat)
    requires BatchOk(batch) && n < |batch| && Folded(e, e1, batch[..n])
    requires OnlyAt(e1, e2, {batch[n].key}) && ListOk(e2, batch[n].key)
    requires Items(e2, batch[n].key) == FinalSet(batch[n].op, Items(e1, batch[n].key), Elems(Data(batch[n].vec)))
    ensures !Reserves(batch[n]) && Items(e2, batch[n].key) == {} <==> Empties(e, batch, n)
  {
    hide Items, ListOk, Sent, OnlyAt, KeysIn;
    var r := batch[n];
    assert RecOk(r);
    SomeData(r.vec);
    SomeElem(Data(r.vec));
    if r.op == OpMinus {
      AllSentBefore(batch, n);
      if r.key !in KeysIn(batch[..n]) {
        AtOther(e, e1, KeysIn(batch[..n]), r.key);
        NotInKeys(batch[..n], r.key, OpPlus);
      }
      LessNothing(Items(e, r.key) + Sent(batch, r.key, OpPlus), Elems(Data(r.vec)));
    }
  }

  lemma LessNothing(a: set<string>, b: set<string>)
    ensures a - {} == a && (a - b == {} <==> a <= b)
  {
    if a - b == {} {
      forall x | x in a ensures x in b { assert x !in a - b; }
    }
  }

  /** What comes before the removals of a list are all its additions. */
  lemma AllSentBefore(batch: seq<DeltaRec>, n: nat)
    requires BatchOk(batch) && n < |batch| && batch[n].op == OpMinus
    ensures Sent(batch[..n], batch[n].key, OpPlus) == Sent(batch, batch[n].key, OpPlus)
    ensures Sent(batch[..n], batch[n].key, OpMinus) == {}
  {
    hide RecOk, Elems, Data;
    var k := batch[n].key;
    forall i, x | 0 <= i < |batch| && batch[i].key == k && batch[i].op == OpPlus && x in Elems(Data(batch[i].vec))
      ensures x in Sent(batch[..n], k, OpPlus)
    {
      assert i < n && batch[..n][i] == batch[i];
    }
  }

  /** One more record of the batch. */
  method SyncNext(kvs: KvStore, ghost e: Recs, batch: seq<DeltaRec>, i: nat) returns (unset: bool)
    requires kvs.rollbackBuf.Some? && BatchOk(batch) && i < |batch| && forall k :: k in KeysIn(batch) ==> ListOk(e, k)
    requires Folded(e, Pending(kvs.State()), batch[..i]) && Safe(kvs.State(), batch, i) && Kept(e, Pending(kvs.State()), batch, i)
    modifies kvs
    ensures kvs.rollbackBuf.Some? && Folded(e, Pending(kvs.State()), batch[..i + 1]) && Safe(kvs.State(), batch, i + 1)
    ensures unset <==> Empties(e, batch, i)
    ensures Kept(e, Pending(kvs.State()), batch, i + 1)
  {
    hide Folded, OnlyAt, Pending, Data, Elems, ListOk, Items, Going, Canonical, KeysIn, Empties, Kept, HeaderAt, Reserves;
    ghost var s := kvs.State();
    NextSafe(s, e, batch, i);
    unset := SyncDelta(kvs, batch[i]);
    EmptiesIs(e, Pending(s), Pending(kvs.State()), batch, i);
    FoldOne(e, Pending(s), Pending(kvs.State()), batch, i);
    StillSafe(s, kvs.State(), batch, i);
    assert RecOk(batch[i]);
    KeptMore(e, Pending(s), Pending(kvs.State()), batch, i);
  }

  /** The last record of every list leaves its own header, or nothing if it empties the list. */
  ghost predicate Kept(e: Recs, e2: Recs, batch: seq<DeltaRec>, n: nat)
    requires n <= |batch|
  {
    forall i :: 0 <= i < n && (forall j :: i < j < n ==> batch[j].key != batch[i].key) ==>
      |batch[i].vec| >= HEADER &&
      if Empties(e, batch, i) then batch[i].key !in e2 else HeaderAt(e2, batch[i].key, batch[i].vec[..HEADER])
  }

  lemma KeptMore(e: Recs, e1: Recs, e2: Recs, batch: seq<DeltaRec>, n: nat)
    requires BatchOk(batch) && n < |batch| && Kept(e, e1, batch, n) && OnlyAt(e1, e2, {batch[n].key})
    requires |batch[n].vec| >= HEADER
    requires if Empties(e, batch, n) then batch[n].key !in e2 else HeaderAt(e2, batch[n].key, batch[n].vec[..HEADER])
    ensures Kept(e, e2, batch, n + 1)
  {
    hide Empties, BatchOk;
    forall i | 0 <= i < n && forall j :: i < j < n + 1 ==> batch[j].key != batch[i].key
      ensures |batch[i].vec| >= HEADER
      ensures if Empties(e, batch, i) then batch[i].key !in e2 else HeaderAt(e2, batch[i].key, batch[i].vec[..HEADER])
    {
      assert batch[n].key != batch[i].key;
      assert SameAt(e1, e2, batch[i].key);
      assert forall j :: i < j < n ==> batch[j].key != batch[i].key;
    }
  }

  /** So a list of the batch has a record afterwards if and only if no record of the batch empties it. */
  lemma GoneIff(e: Recs, e2: Recs, batch: seq<DeltaRec>, k: string)
    requires BatchOk(batch) && Kept(e, e2, batch, |batch|) && k in KeysIn(batch)
    ensures k in e2 <==> !exists i :: 0 <= i < |batch| && batch[i].key == k && Empties(e, batch, i)
  {
    hide RecOk, Sent, Items;
    var i :| 0 <= i < |batch| && batch[i].key == k;
    if j: nat :| i < j < |batch| && batch[j].key == k {
      i := j;
    }
    assert forall j :: i < j < |batch| ==> batch[j].key != batch[i].key;
    forall j | 0 <= j < |batch| && batch[j].key == k && Empties(e, batch, j) ensures j == i {
      assert batch[j].op == OpMinus;
    }
  }

  /** What the argument shared by the callbacks of one message points at: the delta specification, or what an unset left. */
  datatype Custom = RelSpec | UnsetInfo

  /** ubr.c _sync_main_kv_store on the delta records of one worker, in one committed transaction. Every record is folded in as
      with the delta specification; `intact` tells whether every delta step was in fact handed it. */
  method SyncMain(kvs: KvStore, batch: seq<DeltaRec>) returns (intact: bool)
    requires kvs.rollbackBuf.None? && BatchOk(batch) && forall k :: k in KeysIn(batch) ==> ListOk(kvs.recs, k)
    modifies kvs
    ensures kvs.rollbackBuf.None? && Folded(old(kvs.recs), kvs.recs, batch)
    ensures Kept(old(kvs.recs), kvs.recs, batch, |batch|)
    ensures intact <==> Intact(old(kvs.recs), batch)
  {
    ghost var e := kvs.recs;
    BeginIs(kvs.State());
    var r := kvs.BeginTransaction(false);
    NothingFolded(e);
    assert batch[..0] == [];
    var custom := RelSpec;
    intact := true;
    for i := 0 to |batch|
      invariant kvs.rollbackBuf.Some? && Folded(e, Pending(kvs.State()), batch[..i]) && Safe(kvs.State(), batch, i)
      invariant Kept(e, Pending(kvs.State()), batch, i)
      invariant custom == RelSpec <==> forall j :: 0 <= j < i ==> !Empties(e, batch, j)
      invariant intact <==> forall j :: 0 <= j < i - 1 ==> !Empties(e, batch, j)
    {
      hide Folded, Pending, BatchOk, Safe, Empties, Kept;
      if custom != RelSpec { intact := false; }
      var unset := SyncNext(kvs, e, batch, i);
      if unset { custom := UnsetInfo; }
    }
    assert batch[..|batch|] == batch;
    ghost var s3 := kvs.State();
    CommitIsPending(s3);
    kvs.EndTransaction(false);
    EndIs(s3);
  }

  lemma NothingFolded(e: Recs)
    ensures Folded(e, e, [])
  {
  }

  lemma NextSafe(s: Store, e: Recs, batch: seq<DeltaRec>, n: nat)
    requires BatchOk(batch) && n < |batch| && Safe(s, batch, n) && Folded(e, Pending(s), batch[..n])
    requires forall k :: k in KeysIn(batch) ==> ListOk(e, k)
    ensures RecOk(batch[n]) && Untied(s, {batch[n].key}) && ListOk(Pending(s), batch[n].key)
  {
    hide ListOk, Pending, Canonical;
    assert RecOk(batch[n]);
    var k := batch[n].key;
    assert k in KeysIn(batch);
    if k !in KeysIn(batch[..n]) { AtOther(e, Pending(s), KeysIn(batch[..n]), k); }
  }

  lemma StillSafe(s: Store, s2: Store, batch: seq<DeltaRec>, n: nat)
    requires BatchOk(batch) && n < |batch| && Safe(s, batch, n)
    requires Going(s, s2, if batch[n].op.OpPlus? then {} else {batch[n].key})
    ensures Safe(s2, batch, n + 1) && s2.log.Some?
  {
    assert RecOk(batch[n]);
    forall k | k in s2.unsets ensures exists i :: 0 <= i < n + 1 && batch[i].key == k && batch[i].op == OpMinus {
      if k in s.unsets {
        var i :| 0 <= i < n && batch[i].key == k && batch[i].op == OpMinus;
        assert 0 <= i < n + 1;
      }
    }
  }

  /** One record for each of two lists. */
  lemma TwoRecords(r: DeltaRec, q: DeltaRec)
    requires RecOk(r) && RecOk(q) && r.key != q.key
    ensures BatchOk([r, q]) && KeysIn([r, q]) == {r.key, q.key}
    ensures forall op: KvOp :: Sent([r, q], r.key, op) == if op == r.op then Elems(Data(r.vec)) else {}
  {
    hide RecOk, Elems, Data;
    var b := [r, q];
    assert b[0] == r && b[1] == q;
    forall op: KvOp ensures Sent(b, r.key, op) == if op == r.op then Elems(Data(r.vec)) else {} {
      SentSnoc(b, 0, r.key, op);
      SentSnoc(b, 1, r.key, op);
      assert b[..0] == [] && b[..2] == b;
    }
  }

  lemma ListOfOne(h: seq<string>, x: string)
    requires |h| == HEADER
    ensures Data(h + [x]) == [x] && Elems([x]) == {x} && Ascending([x])
  {
  }

  /** The smallest message on which a step is handed what an unset left: two lists that are not reserved lose their only
      members. Neither has a record afterwards. */
  method TwoListsEmptied(h: seq<string>) returns (kvs: KvStore, first: bool, second: bool)
    requires |h| == HEADER && RESERVED !in h[FLAGS]
    ensures first && !second && kvs.recs == map[]
  {
    hide BatchOk, Folded, KeysIn, Ascending, Sent, Data, Kept, Items, Empties, RecOk;
    ListOfOne(h, "x");
    ListOfOne(h, "y");
    EmptyAscends();
    var k1, l1 := DeltaRec("k", OpPlus, h + ["x"]), DeltaRec("l", OpPlus, h + ["y"]);
    var k2, l2 := DeltaRec("k", OpMinus, h + ["x"]), DeltaRec("l", OpMinus, h + ["y"]);
    BothOk(k1, l1, "x", "y");
    BothOk(k2, l2, "x", "y");
    kvs := new KvStore();
    NoItems(map[]);
    first := SyncMain(kvs, [k1, l1]);
    ghost var e := kvs.recs;
    FoldedAt(map[], e, [k1, l1], "k");
    FoldedAt(map[], e, [k1, l1], "l");
    FoldedOnly(map[], e, [k1, l1]);
    BothEmptied(e, k2, l2, "x", "y");
    second := SyncMain(kvs, [k2, l2]);
    FoldedOnly(e, kvs.recs, [k2, l2]);
    GoneIff(e, kvs.recs, [k2, l2], "k");
    GoneIff(e, kvs.recs, [k2, l2], "l");
    assert [k2, l2][0].key == "k" && [k2, l2][1].key == "l";
  }

  lemma NoItems(e: Recs)
    ensures e == map[] ==> forall k :: Items(e, k) == {} && ListOk(e, k)
  {
    EmptyAscends();
  }

  /** Two records of one item each. */
  lemma BothOk(r: DeltaRec, q: DeltaRec, x: string, y: string)
    requires |r.vec| == |q.vec| == HEADER + 1 && Data(r.vec) == [x] && Data(q.vec) == [y] && Elems([x]) == {x} && Elems([y]) == {y}
    requires Ascending([x]) && Ascending([y]) && r.key == "k" && q.key == "l" && !r.op.OpSet? && !q.op.OpSet?
    ensures BatchOk([r, q]) && KeysIn([r, q]) == {"k", "l"}
    ensures forall op: KvOp :: Sent([r, q], "k", op) == (if op == r.op then {x} else {}) && Sent([r, q], "l", op) == (if op == q.op then {y} else {})
    ensures r.op == OpPlus ==> Intact(map[], [r, q])
  {
    hide Sent, KeysIn, BatchOk, Data, Elems, Ascending;
    assert RecOk(r) && RecOk(q);
    TwoRecords(r, q);
    TwoRecordsToo(r, q);
  }

  lemma BothEmptied(e: Recs, r: DeltaRec, q: DeltaRec, x: string, y: string)
    requires Items(e, "k") == {x} && Items(e, "l") == {y} && r.key == "k" && q.key == "l" && r.op == q.op == OpMinus
    requires Elems(Data(r.vec)) == {x} && Elems(Data(q.vec)) == {y} && !Reserves(r) && !Reserves(q)
    requires Sent([r, q], "k", OpPlus) == {} && Sent([r, q], "l", OpPlus) == {}
    ensures Empties(e, [r, q], 0) && Empties(e, [r, q], 1) && !Intact(e, [r, q])
  {
    hide Sent, Items, Data, Elems;
    assert [r, q][0] == r && [r, q][1] == q;
  }

  /** A list that is reserved keeps its record, with the header of the message. */
  method ReservedListStays(h: seq<string>, h2: seq<string>) returns (kvs: KvStore, intact: bool)
    requires |h| == |h2| == HEADER && RESERVED in h2[FLAGS]
    ensures intact && kvs.recs.Keys == {"k"} && kvs.recs["k"].cells == h2
  {
    hide BatchOk, Folded, KeysIn, Ascending, Sent, Kept;
    ListOfOne(h, "x");
    ListOfOne(h2, "x");
    EmptyAscends();
    var k1, k2 := DeltaRec("k", OpPlus, h + ["x"]), DeltaRec("k", OpMinus, h2 + ["x"]);
    OneRecord(k1);
    OneRecord(k2);
    kvs := new KvStore();
    intact := SyncMain(kvs, [k1]);
    FoldedAt(map[], kvs.recs, [k1], "k");
    FoldedOnly(map[], kvs.recs, [k1]);
    ghost var e := kvs.recs;
    intact := SyncMain(kvs, [k2]);
    FoldedAt(e, kvs.recs, [k2], "k");
    FoldedOnly(e, kvs.recs, [k2]);
    KeptOne(e, kvs.recs, k2);
    SomeElem(Data(kvs.recs["k"].cells));
    assert kvs.recs["k"].cells == kvs.recs["k"].cells[..HEADER] + Data(kvs.recs["k"].cells);
  }

  lemma KeptOne(e: Recs, e2: Recs, r: DeltaRec)
    requires Kept(e, e2, [r], 1) && Reserves(r)
    ensures |r.vec| >= HEADER && HeaderAt(e2, r.key, r.vec[..HEADER])
  {
    assert [r][0] == r;
  }

  lemma OneRecord(r: DeltaRec)
    requires RecOk(r)
    ensures BatchOk([r]) && KeysIn([r]) == {r.key}
    ensures forall op: KvOp :: Sent([r], r.key, op) == if op == r.op then Elems(Data(r.vec)) else {}
  {
    hide RecOk, Elems, Data;
    assert [r][0] == r;
    forall op: KvOp ensures Sent([r], r.key, op) == if op == r.op then Elems(Data(r.vec)) else {} {
      SentSnoc([r], 0, r.key, op);
      assert [r][..1] == [r] && [r][..0] == [];
    }
  }

  lemma TwoRecordsToo(r: DeltaRec, q: DeltaRec)
    requires r.key != q.key
    ensures forall op: KvOp :: Sent([r, q], q.key, op) == if op == q.op then Elems(Data(q.vec)) else {}
  {
    hide Elems, Data;
    var b := [r, q];
    assert b[0] == r && b[1] == q;
    forall op: KvOp ensures Sent(b, q.key, op) == if op == q.op then Elems(Data(q.vec)) else {} {
      SentSnoc(b, 0, q.key, op);
      SentSnoc(b, 1, q.key, op);
      assert b[..0] == [] && b[..2] == b;
    }
  }

  lemma FoldedOnly(e: Recs, e2: Recs, batch: seq<DeltaRec>)
    requires Folded(e, e2, batch)
    ensures forall k :: k in e2 ==> k in e || k in KeysIn(batch)
  {
    forall k | k in e2 && k !in KeysIn(batch) ensures k in e { AtOther(e, e2, KeysIn(batch), k); }
  }

  lemma FoldedAt(e: Recs, e2: Recs, batch: seq<DeltaRec>, k: string)
    requires Folded(e, e2, batch) && k in KeysIn(batch)
    ensures ListOk(e2, k) && Items(e2, k) == (Items(e, k) + Sent(batch, k, OpPlus)) - Sent(batch, k, OpMinus)
  {
  }

  /** Main's lists after folding in worker `w`. */
  ghost predicate Merged(m: Recs, m2: Recs, w: Recs) {
    forall sp :: IsList(sp) ==> Cur(m2, sp) == (Cur(m, sp) + Plus(w, sp)) - Minus(w, sp)
  }

  /** A worker whose cumulative lists refer to the lists of `base`. */
  ghost predicate Forked(w: Recs, base: Recs) {
    forall sp :: IsList(sp) ==> Tracked(w, sp) && Base(w, sp) == Cur(base, sp)
  }

  /** A worker's run since the fork leaves it with cumulative lists that refer to the fork. */
  lemma RunIsForked(es: seq<Recs>, calls: seq<Call>, kinds: KeySpec -> KeySpec, n: nat)
    requires Trace(es, calls, kinds) && World(es[0], kinds, true) && FreshFork(es[0]) && n < |es|
    ensures Forked(es[n], es[0]) && Symmetric(es[n])
  {
    hide Cur, Base, SetOn, GoodCall, Typed;
    CumulativeAlways(es, calls, kinds, n);
    forall sp | IsList(sp) ensures Tracked(es[n], sp) { assert Ready(es[n], sp, true); }
  }

  /** Main's records before the first worker and after each. */
  ghost predicate MergeRun(ms: seq<Recs>, ws: seq<Recs>) {
    && |ms| == |ws| + 1
    && (forall i :: 0 <= i < |ws| ==> Forked(ws[i], ms[0]) && Merged(ms[i], ms[i + 1], ws[i]))
  }

  ghost function AllPlus(ws: seq<Recs>, sp: KeySpec): set<string> {
    set i, x | 0 <= i < |ws| && x in Plus(ws[i], sp) :: x
  }

  ghost function AllMinus(ws: seq<Recs>, sp: KeySpec): set<string> {
    set i, x | 0 <= i < |ws| && x in Minus(ws[i], sp) :: x
  }

  lemma AllSnoc(ws: seq<Recs>, n: nat, sp: KeySpec)
    requires n < |ws|
    ensures AllPlus(ws[..n + 1], sp) == AllPlus(ws[..n], sp) + Plus(ws[n], sp)
    ensures AllMinus(ws[..n + 1], sp) == AllMinus(ws[..n], sp) + Minus(ws[n], sp)
  {
    hide Plus, Minus;
    var a, b := ws[..n], ws[..n + 1];
    assert forall i :: 0 <= i < n ==> b[i] == a[i];
    assert b[n] == ws[n];
    forall x | x in AllPlus(a, sp) ensures x in AllPlus(b, sp) {
      var i :| 0 <= i < |a| && x in Plus(a[i], sp);
      assert x in Plus(b[i], sp);
    }
    forall x | x in AllMinus(a, sp) ensures x in AllMinus(b, sp) {
      var i :| 0 <= i < |a| && x in Minus(a[i], sp);
      assert x in Minus(b[i], sp);
    }
  }

  /** Folding any number of workers gives the base with all additions and without all removals. */
  lemma {:induction false} MergeConverges(ms: seq<Recs>, ws: seq<Recs>, n: nat, sp: KeySpec)
    requires MergeRun(ms, ws) && n <= |ws| && IsList(sp)
    ensures Cur(ms[n], sp) == (Cur(ms[0], sp) + AllPlus(ws[..n], sp)) - AllMinus(ws[..n], sp)
    ensures AllPlus(ws[..n], sp) !! Cur(ms[0], sp) && AllMinus(ws[..n], sp) <= Cur(ms[0], sp)
  {
    hide *;
    if n == 0 {
      AllNone(ws[..0], sp);
    } else {
      MergeConverges(ms, ws, n - 1, sp);
      AllSnoc(ws, n - 1, sp);
      MergeStep(ms, ws, n - 1, sp);
      OneMoreMerge(Cur(ms[0], sp), Cur(ws[n - 1], sp), AllPlus(ws[..n - 1], sp), AllMinus(ws[..n - 1], sp));
    }
  }

  lemma MergeStep(ms: seq<Recs>, ws: seq<Recs>, n: nat, sp: KeySpec)
    requires MergeRun(ms, ws) && n < |ws| && IsList(sp)
    ensures |ms| == |ws| + 1
    ensures Plus(ws[n], sp) == Cur(ws[n], sp) - Cur(ms[0], sp) && Minus(ws[n], sp) == Cur(ms[0], sp) - Cur(ws[n], sp)
    ensures Cur(ms[n + 1], sp) == (Cur(ms[n], sp) + Plus(ws[n], sp)) - Minus(ws[n], sp)
  {
    hide Cur, Plus, Minus, Base, IsList;
    assert Forked(ws[n], ms[0]) && Merged(ms[n], ms[n + 1], ws[n]);
    TrackedDifferences(ws[n], sp);
  }

  /** The algebra of one merge: what the worker adds was not in the base, and what it removes was. */
  lemma OneMoreMerge(base: set<string>, own: set<string>, plus: set<string>, minus: set<string>)
    requires plus !! base && minus <= base
    ensures ((base + plus) - minus) + (own - base) - (base - own) == (base + (plus + (own - base))) - (minus + (base - own))
    ensures plus + (own - base) !! base && minus + (base - own) <= base
  {
  }

  lemma AllNone(ws: seq<Recs>, sp: KeySpec)
    requires ws == []
    ensures AllPlus(ws, sp) == {} && AllMinus(ws, sp) == {}
  {
  }

  /** The same workers in any order, and any number of times each, lead to the same lists. */
  lemma OrderDoesNotMatter(ms: seq<Recs>, ws: seq<Recs>, ns: seq<Recs>, vs: seq<Recs>, sp: KeySpec)
    requires MergeRun(ms, ws) && MergeRun(ns, vs) && ms[0] == ns[0] && IsList(sp)
    requires forall w :: w in ws <==> w in vs
    ensures Cur(ms[|ws|], sp) == Cur(ns[|vs|], sp)
  {
    hide Cur, Plus, Minus, Base;
    MergeConverges(ms, ws, |ws|, sp);
    MergeConverges(ns, vs, |vs|, sp);
    assert ws[..|ws|] == ws && vs[..|vs|] == vs;
    AllOfSame(ws, vs, sp);
    AllOfSame(vs, ws, sp);
  }

  lemma AllOfSame(ws: seq<Recs>, vs: seq<Recs>, sp: KeySpec)
    requires forall w :: w in ws ==> w in vs
    ensures AllPlus(ws, sp) <= AllPlus(vs, sp) && AllMinus(ws, sp) <= AllMinus(vs, sp)
  {
    hide Plus, Minus;
    forall i | 0 <= i < |ws| ensures Plus(ws[i], sp) <= AllPlus(vs, sp) && Minus(ws[i], sp) <= AllMinus(vs, sp) {
      assert ws[i] in ws;
      var j :| 0 <= j < |vs| && vs[j] == ws[i];
    }
  }

  /** One worker's lists become main's. */
  lemma SingleWorker(ms: seq<Recs>, w: Recs, sp: KeySpec)
    requires MergeRun(ms, [w]) && IsList(sp)
    ensures Cur(ms[1], sp) == Cur(w, sp)
  {
    hide Cur, Plus, Minus, Base;
    assert [w][0] == w;
    assert Forked(w, ms[0]) && Merged(ms[0], ms[0 + 1], w);
    TrackedDifferences(w, sp);
  }

  /** If the base and all workers were symmetric, so is the merged store. */
  lemma MergedIsSymmetric(ms: seq<Recs>, ws: seq<Recs>)
    requires MergeRun(ms, ws) && Symmetric(ms[0]) && forall i :: 0 <= i < |ws| ==> Symmetric(ws[i])
    ensures Symmetric(ms[|ws|])
  {
    hide Cur, Plus, Minus, Base, Entity, ComposeKeyPrefix;
    assert ws[..|ws|] == ws;
    forall g, a | Entity(g) && Entity(a) ensures HasMember(ms[|ws|], g, a) <==> IsIn(ms[|ws|], a, g) {
      ListsOf(g);
      ListsOf(a);
      MergeConverges(ms, ws, |ws|, MembersOf(g));
      MergeConverges(ms, ws, |ws|, GroupsOf(a));
      forall i | 0 <= i < |ws|
        ensures ComposeKeyPrefix(a) in Plus(ws[i], MembersOf(g)) <==> ComposeKeyPrefix(g) in Plus(ws[i], GroupsOf(a))
        ensures ComposeKeyPrefix(a) in Minus(ws[i], MembersOf(g)) <==> ComposeKeyPrefix(g) in Minus(ws[i], GroupsOf(a))
      {
        assert Forked(ws[i], ms[0]);
        TrackedDifferences(ws[i], MembersOf(g));
        TrackedDifferences(ws[i], GroupsOf(a));
        assert HasMember(ms[0], g, a) <==> IsIn(ms[0], a, g);
        assert HasMember(ws[i], g, a) <==> IsIn(ws[i], a, g);
      }
    }
  }
}
