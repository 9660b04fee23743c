/** Calls with their arguments. How a call ends follows from its arguments, the store it finds and the allocation that
    fails; runs of calls on a store object are runs of the ledger and of the transactions. */
module KvCalls {
  import opened BPTypes
  import opened CStrings
  import opened KvStore
  import opened KvLedger
  import opened KvRuns
  import opened KvRollback
  import opened KvOrder
  import KvBalance

  datatype Call =
    | SetCall(key: string, isVector: bool, cells: seq<string>, fn: Option<Callback>, archiveKey: Option<string>, fault: Fault)
    | UnsetCall(key: string, unsetFn: Option<UnsetCallback>, entryFails: bool)
    | BeginCall(bufferFails: bool)
    | CommitCall

  predicate IsBody(call: Call) {
    call.SetCall? || call.UnsetCall?
  }

  // ----- How calls end -----

  /** What the callback of a set answers. */
  function Answer(s: Store, call: Call): Verdict
    requires call.SetCall?
  {
    var k := Canonical(call.key);
    var was := if k in s.recs then Some(Content(s.recs[k].isVector, s.recs[k].cells)) else None;
    if call.fn.Some? then call.fn.value(k, was, Content(call.isVector, call.cells)) else Keep
  }

  /** The content a set stores: the callback's or the caller's. */
  function ContentSet(s: Store, call: Call): Content
    requires call.SetCall?
  {
    var answer := Answer(s, call);
    if answer.Edit? then Content(answer.isVector, answer.cells) else Content(call.isVector, call.cells)
  }

  /** A set that drops its container: the edited value cannot be allocated, or the record of a new key cannot. */
  predicate Loses(s: Store, call: Call) {
    && call.SetCall? && call.key != []
    && ((Answer(s, call).Edit? && call.fault.NoEdited?)
        || (!Answer(s, call).Refuse? && call.fault.NoNode? && Canonical(call.key) !in s.recs))
  }

  /** A set that stores its value: not refused, and no allocation it needs fails. */
  predicate Stores(s: Store, call: Call) {
    && call.SetCall? && call.key != [] && !call.fault.NoValue? && !Answer(s, call).Refuse?
    && !(Answer(s, call).Edit? && call.fault.NoEdited?)
    && !(s.log.Some? && call.fault.NoEntry?)
    && !(Canonical(call.key) !in s.recs && call.fault.NoNode?)
  }

  /** An unset that takes effect, at once or at the commit. */
  ghost predicate Unsets(s: Store, call: Call) {
    && call.UnsetCall? && call.key != [] && Agrees(call.unsetFn, Canonical(call.key), s.recs)
    && !(s.log.Some? && call.entryFails)
  }

  /** How a call goes in a store. The containers a set makes are new. */
  ghost predicate Ended(s: Store, call: Call, op: Op) {
    match call
    case SetCall(key, isVector, cells, fn, archiveKey, fault) =>
      && op.SetOp? && op.key == Canonical(key) && op.archiveKey == CanonicalOpt(archiveKey)
      && Explains(op.out, s, key, isVector, cells, fn, fault)
      && forall v :: v in ValuesOf(op.out) ==> v !in s.created
    case UnsetCall(key, _, _) => op == if Unsets(s, call) then UnsetOp(Canonical(key)) else IdleOp
    case BeginCall(bufferFails) => op == if bufferFails then IdleOp else BeginOp
    case CommitCall => op == CommitOp
  }

  lemma OutcomeIs(s: Store, call: Call, op: Op)
    requires call.SetCall? && Ended(s, call, op)
    ensures IsStored(op) <==> Stores(s, call)
    ensures op.out.EditLost? || op.out.NoRecord? <==> Loses(s, call)
    ensures Possible(s, op.key, op.out)
  {
    hide Canonical;
    if !op.out.NoObject? { assert ContentOf(op.out.orig) == Content(call.isVector, call.cells); }
  }

  /** The callback of a set is shown the canonical key, the content of the record in the store, if there is one, and the new
      content; its answer decides between refusing, storing its own content and storing the caller's. */
  lemma SetCallbackSees(s: Store, call: Call, op: Op)
    requires call.SetCall? && call.fn.Some? && call.key != [] && !call.fault.NoValue? && Ended(s, call, op)
    ensures var k := Canonical(call.key);
      var was := if k in s.recs then Some(Content(s.recs[k].isVector, s.recs[k].cells)) else None;
      var answer := call.fn.value(k, was, Content(call.isVector, call.cells));
      && (op.out.Refused? <==> answer.Refuse?)
      && (op.out.EditLost? <==> answer.Edit? && call.fault.NoEdited?)
      && (op.out.Stored? && answer.Edit? ==> op.out.chosen.isVector == answer.isVector && op.out.chosen.cells == answer.cells)
      && (op.out.Stored? && answer.Keep? ==> op.out.chosen.isVector == call.isVector && op.out.chosen.cells == call.cells)
  {
    hide Canonical;
    assert ContentOf(op.out.orig) == Content(call.isVector, call.cells);
  }

  /** The callback of an unset is shown the key and the content of the record, and the unset takes effect only if it agrees. */
  lemma UnsetCallbackSees(s: Store, call: Call, op: Op)
    requires call.UnsetCall? && call.unsetFn.Some? && call.key != [] && !call.entryFails && Ended(s, call, op)
    ensures var k := Canonical(call.key);
      var was := if k in s.recs then Some(Content(s.recs[k].isVector, s.recs[k].cells)) else None;
      op == if call.unsetFn.value(k, was) then UnsetOp(k) else IdleOp
  {
    hide Canonical;
  }

  /** The calls of a run, each ended in the store it found. */
  ghost predicate Went(s: Store, calls: seq<Call>, ops: seq<Op>) {
    |ops| == |calls| && forall i :: 0 <= i < |calls| ==> Ended(Run(s, ops[..i]), calls[i], ops[i])
  }

  lemma WentMore(s: Store, calls: seq<Call>, ops: seq<Op>, call: Call, op: Op)
    requires Went(s, calls, ops) && Ended(Run(s, ops), call, op)
    ensures Went(s, calls + [call], ops + [op]) && Run(s, ops + [op]) == Step(Run(s, ops), op)
  {
    hide Run, Ended;
    forall i | 0 <= i < |calls| + 1 ensures Ended(Run(s, (ops + [op])[..i]), (calls + [call])[i], (ops + [op])[i]) {
      if i < |calls| {
        assert (ops + [op])[..i] == ops[..i];
      } else {
        assert (ops + [op])[..i] == ops;
      }
    }
    RunSnoc(s, ops, op);
  }

  lemma RunSnoc(s: Store, ops: seq<Op>, op: Op)
    ensures Run(s, ops + [op]) == Step(Run(s, ops), op)
  {
    assert (ops + [op])[..|ops|] == ops;
  }

  /** What the calls of a run decided is possible. */
  lemma {:induction false} WentIsLegal(s: Store, calls: seq<Call>, ops: seq<Op>)
    requires Went(s, calls, ops)
    ensures Legal(s, ops)
  {
    hide Run, Ended, Possible;
    if ops != [] {
      var n := |ops| - 1;
      assert Went(s, calls[..n], ops[..n]) by {
        forall i | 0 <= i < n ensures Ended(Run(s, ops[..n][..i]), calls[..n][i], ops[..n][i]) {
          assert ops[..n][..i] == ops[..i];
        }
      }
      WentIsLegal(s, calls[..n], ops[..n]);
      assert Ended(Run(s, ops[..n]), calls[n], ops[n]);
      EndedIsPossible(Run(s, ops[..n]), calls[n], ops[n]);
    }
  }

  lemma EndedIsPossible(s: Store, call: Call, op: Op)
    requires Ended(s, call, op)
    ensures op.SetOp? ==> Possible(s, op.key, op.out)
    ensures IsBody(call) ==> InBody(op)
    ensures op.SetOp? <==> call.SetCall?
  {
    hide Canonical, Explains, Possible;
    if call.SetCall? { OutcomeIs(s, call, op); }
  }

  /** A run drops no container if and only if no set in it loses the container it made. */
  lemma NothingLostIff(s: Store, calls: seq<Call>, ops: seq<Op>)
    requires Went(s, calls, ops) && s.lost == {}
    ensures Run(s, ops).lost == {} <==> forall i :: 0 <= i < |calls| ==> !Loses(Run(s, ops[..i]), calls[i])
  {
    hide Run, Ended, Loses;
    NothingLost(s, ops);
    forall i | 0 <= i < |calls|
      ensures Loses(Run(s, ops[..i]), calls[i]) <==> ops[i].SetOp? && (ops[i].out.EditLost? || ops[i].out.NoRecord?)
    {
      EndedIsPossible(Run(s, ops[..i]), calls[i], ops[i]);
      if calls[i].SetCall? { OutcomeIs(Run(s, ops[..i]), calls[i], ops[i]); } else { OnlySetsLose(Run(s, ops[..i]), calls[i]); }
    }
  }

  lemma OnlySetsLose(s: Store, call: Call)
    ensures Loses(s, call) ==> call.SetCall?
  {
  }

  // ----- What a get finds -----

  /** kvs.c sid_kvs_get on a store */
  function Got(s: Store, key: string): Option<Value> {
    if key == [] then None else Find(s.recs, Canonical(key))
  }

  /** After a set: the archive has the replaced value, the key has the stored one, everything else is as before. */
  lemma GetAfterSet(s: Store, call: Call, op: Op, key: string)
    requires call.SetCall? && Ended(s, call, op) && key != []
    ensures var k, was := Canonical(call.key), Find(s.recs, Canonical(call.key));
      Got(Step(s, op), key) ==
      if Stores(s, call) && call.archiveKey.Some? && Canonical(key) == Canonical(call.archiveKey.value) && was.Some? then was
      else if Stores(s, call) && Canonical(key) == k then Some(op.out.chosen)
      else Got(s, key)
    ensures Stores(s, call) ==> ContentOf(op.out.chosen) == ContentSet(s, call)
  {
    hide Canonical, Stores;
    OutcomeIs(s, call, op);
    AfterRecs(s, op);
    StoredContent(s, call, op);
  }

  lemma AfterRecs(s: Store, op: Op)
    requires op.SetOp?
    ensures Step(s, op).recs == Write(s.recs, op)
  {
  }

  lemma StoredContent(s: Store, call: Call, op: Op)
    requires call.SetCall? && Ended(s, call, op)
    ensures IsStored(op) ==> ContentOf(op.out.chosen) == ContentSet(s, call)
  {
    hide Canonical;
    if !op.out.NoObject? { assert ContentOf(op.out.orig) == Content(call.isVector, call.cells); }
  }

  /** After an unset: outside a transaction the key has no value, inside one everything is as before. */
  lemma GetAfterUnset(s: Store, call: Call, op: Op, key: string)
    requires call.UnsetCall? && Ended(s, call, op)
    ensures Got(Step(s, op), key) ==
      if s.log.None? && Unsets(s, call) && Canonical(key) == Canonical(call.key) then None else Got(s, key)
  {
    hide Canonical;
  }

  // ----- Calls on a store object -----

  method Perform(kvs: KvStore, call: Call) returns (ghost op: Op)
    modifies kvs
    ensures Ended(old(kvs.State()), call, op) && kvs.State() == Step(old(kvs.State()), op)
  {
    hide After, Explains, Canonical, Begin, End, Unset;
    match call
    case SetCall(key, isVector, cells, fn, archiveKey, fault) =>
      var r, stored;
      ghost var out;
      r, stored, out := kvs.SetValue(key, isVector, cells, fn, archiveKey, fault);
      op := SetOp(Canonical(key), CanonicalOpt(archiveKey), out);
    case UnsetCall(key, fn, entryFails) =>
      op := if Unsets(kvs.State(), call) then UnsetOp(Canonical(key)) else IdleOp;
      var r := kvs.UnsetValue(key, fn, entryFails);
    case BeginCall(bufferFails) =>
      op := if bufferFails then IdleOp else BeginOp;
      var r := kvs.BeginTransaction(bufferFails);
    case CommitCall =>
      op := CommitOp;
      kvs.EndTransaction(false);
  }

  /** Any calls, committed transactions among them: the ledger stays balanced, and containers are dropped exactly by the sets
      that lose them. */
  method RunCalls(kvs: KvStore, calls: seq<Call>) returns (ghost ops: seq<Op>)
    modifies kvs
    ensures Went(old(kvs.State()), calls, ops) && kvs.State() == Run(old(kvs.State()), ops)
    ensures old(Ledger(kvs.State())) ==> Ledger(kvs.State())
    ensures old(kvs.lost) == {} ==>
      (kvs.lost == {} <==> forall i :: 0 <= i < |calls| ==> !Loses(Run(old(kvs.State()), ops[..i]), calls[i]))
  {
    hide Ended, Run, Step, Ledger, Loses, Went;
    ghost var s := kvs.State();
    ops := [];
    NothingWent(s);
    for i := 0 to |calls|
      invariant Went(s, calls[..i], ops) && kvs.State() == Run(s, ops)
    {
      ghost var op;
      op := Perform(kvs, calls[i]);
      WentMore(s, calls[..i], ops, calls[i], op);
      assert calls[..i + 1] == calls[..i] + [calls[i]];
      ops := ops + [op];
    }
    assert calls[..|calls|] == calls;
    WentIsLegal(s, calls, ops);
    if Ledger(s) { LedgerAlways(s, ops); }
    WentLength(s, calls, ops);
    if s.lost == {} { NothingLostIff(s, calls, ops); }
  }

  lemma NothingWent(s: Store)
    ensures Went(s, [], []) && Run(s, []) == s
  {
  }

  lemma WentLength(s: Store, calls: seq<Call>, ops: seq<Op>)
    requires Went(s, calls, ops)
    ensures |ops| == |calls|
  {
  }

  /** Sets and unsets, with archive keys kept apart from the keys that are set. */
  ghost predicate BodyApart(calls: seq<Call>, archives: set<string>) {
    forall i :: 0 <= i < |calls| ==>
      && IsBody(calls[i])
      && (calls[i].SetCall? ==>
            && Canonical(calls[i].key) !in archives
            && (calls[i].archiveKey.Some? ==> Canonical(calls[i].archiveKey.value) in archives))
  }

  lemma WentBody(s: Store, calls: seq<Call>, ops: seq<Op>, archives: set<string>)
    requires Went(s, calls, ops) && BodyApart(calls, archives)
    ensures Plain(ops) && Apart(ops, archives)
  {
    hide Run, Explains, Canonical;
    forall i | 0 <= i < |ops|
      ensures InBody(ops[i])
      ensures ops[i].SetOp? ==> ops[i].key !in archives && (ops[i].archiveKey.Some? ==> ops[i].archiveKey.value in archives)
    {
      assert Ended(Run(s, ops[..i]), calls[i], ops[i]);
    }
  }

  /** A transaction that is rolled back, whatever its calls: the map is back if and only if no key that was present was
      written twice, and every container has one owner if and only if no archive was. */
  method RolledBack(kvs: KvStore, calls: seq<Call>, ghost archives: set<string>) returns (ghost ops: seq<Op>)
    requires kvs.rollbackBuf.None? && Ledger(kvs.State()) && BodyApart(calls, archives)
    modifies kvs
    ensures Went(Begin(old(kvs.State())), calls, ops) && kvs.rollbackBuf.None?
    ensures kvs.recs == old(kvs.recs) <==> forall k :: k in old(kvs.recs) ==> Writes(old(kvs.recs).Keys, ops, k) <= 1
    ensures Ledger(kvs.State()) <==> forall a :: a in archives ==> Writes(old(kvs.recs).Keys, ops, a) <= 1
  {
    hide Went, Ledger, Run, Writes, BodyApart, End, Loses;
    ghost var s := kvs.State();
    var r := kvs.BeginTransaction(false);
    ops := RunCalls(kvs, calls);
    WentBody(Begin(s), calls, ops, archives);
    WentIsLegal(Begin(s), calls, ops);
    RollbackRestoresIff(s, ops, archives);
    KvBalance.RollbackBalancesIff(s, ops, archives);
    ghost var s1 := kvs.State();
    kvs.EndTransaction(true);
    EndCloses(s1, true);
  }

  lemma EndCloses(s: Store, rollback: bool)
    requires s.log.Some?
    ensures End(s, rollback).log.None?
  {
  }

  /** A transaction that is committed, whatever its calls: it has the effect of the calls taken in order if and only if they
      are orderly. */
  method Committed(kvs: KvStore, calls: seq<Call>, ghost archives: set<string>) returns (ghost ops: seq<Op>)
    requires kvs.rollbackBuf.None? && Ledger(kvs.State()) && BodyApart(calls, archives)
    modifies kvs
    ensures Went(Begin(old(kvs.State())), calls, ops) && kvs.rollbackBuf.None? && Ledger(kvs.State())
    ensures kvs.recs == InOrder(old(kvs.recs), ops) <==> Orderly(old(kvs.recs).Keys, ops)
  {
    hide Went, Ledger, Run, Orderly, InOrder, BodyApart, End, Loses;
    ghost var s := kvs.State();
    var r := kvs.BeginTransaction(false);
    BeginKeepsLedger(s);
    ops := RunCalls(kvs, calls);
    WentBody(Begin(s), calls, ops, archives);
    WentIsLegal(Begin(s), calls, ops);
    InOrderIff(s, ops, archives);
    ghost var s1 := kvs.State();
    CommitKeepsLedger(s1);
    kvs.EndTransaction(false);
    EndCloses(s1, false);
  }

  // ----- Callbacks at work -----

  lemma Blank(key: string)
    ensures Canonical(" " + key) == Canonical(key)
  {
    assert (" " + key)[1..] == key;
  }

  /** A set outside a transaction that is not short of memory. */
  method SetIs(kvs: KvStore, key: string, cells: seq<string>, fn: Callback)
    requires kvs.rollbackBuf.None? && key != []
    modifies kvs
    ensures kvs.rollbackBuf.None? && kvs.lost == old(kvs.lost)
    ensures var k := Canonical(key);
      var was := old(if k in kvs.recs then Some(Content(kvs.recs[k].isVector, kvs.recs[k].cells)) else None);
      var answer := fn(k, was, Content(true, cells));
      if answer.Refuse? then kvs.recs == old(kvs.recs)
      else
        && k in kvs.recs && kvs.recs == old(kvs.recs)[k := kvs.recs[k]]
        && kvs.recs[k].isVector == (if answer.Edit? then answer.isVector else true)
        && kvs.recs[k].cells == if answer.Edit? then answer.cells else cells
  {
    hide Canonical;
    var r, stored;
    ghost var out;
    r, stored, out := kvs.SetValue(key, true, cells, Some(fn), None, NoFault);
  }

  /** ubr.c _kv_cb_write_new_only: a set of a present key is refused. */
  method WriteNewOnly() returns (kvs: KvStore)
    ensures kvs.recs.Keys == {"key"} && kvs.recs["key"].cells == ["first"] && kvs.lost == {}
  {
    kvs := new KvStore();
    var fn: Callback := (key: string, was: Option<Content>, content: Content) => if was.Some? then Refuse else Keep;
    var r, stored;
    ghost var out;
    r, stored, out := kvs.SetValue(" key", false, ["first"], Some(fn), None, NoFault);
    assert kvs.recs.Keys == {"key"};
    r, stored, out := kvs.SetValue("key", false, ["second"], Some(fn), None, NoFault);
  }

  /** A callback that appends the new cells to the old ones. */
  method AppendCells() returns (kvs: KvStore)
    ensures kvs.recs.Keys == {"key"} && kvs.recs["key"].cells == ["first", "second"] && kvs.recs["key"].isVector && kvs.lost == {}
  {
    kvs := new KvStore();
    var fn: Callback := (key: string, was: Option<Content>, content: Content) =>
      if key == "key" && was.Some? && was.value.isVector then Edit(true, was.value.cells + content.cells) else Keep;
    Blank("key");
    SetIs(kvs, "key", ["first"], fn);
    SetIs(kvs, " key", ["second"], fn);
  }

  /** A callback that lets only the record with its own content go. */
  method UnsetOwnOnly() returns (kvs: KvStore)
    ensures kvs.recs.Keys == {"theirs"} && kvs.recs["theirs"].cells == ["them"]
  {
    kvs := new KvStore();
    var fn: UnsetCallback := (key: string, was: Option<Content>) => was == Some(Content(false, ["me"]));
    var r, stored;
    ghost var out;
    r, stored, out := kvs.SetValue("mine", false, ["me"], None, None, NoFault);
    assert kvs.recs.Keys == {"mine"};
    r, stored, out := kvs.SetValue("theirs", false, ["them"], None, None, NoFault);
    assert kvs.recs.Keys == {"mine", "theirs"};
    r := kvs.UnsetValue("mine", Some(fn), false);
    assert kvs.recs.Keys == {"theirs"};
    r := kvs.UnsetValue("theirs", Some(fn), false);
  }

  // ----- Calls that lose their container -----

  /** A set whose callback edits the value, when the edited container cannot be allocated. */
  method LoseEdited() returns (kvs: KvStore)
    ensures fresh(kvs) && |kvs.lost| == 1 && kvs.recs == map[]
  {
    kvs := new KvStore();
    var fn: Callback := (key, was, content) => Edit(false, ["edited"]);
    var r, stored;
    ghost var out;
    r, stored, out := kvs.SetValue("key", false, ["value"], Some(fn), None, NoEdited);
    assert out.EditLost?;
  }

  /** A set of a new key, when its record cannot be allocated. */
  method LoseNew() returns (kvs: KvStore)
    ensures fresh(kvs) && |kvs.lost| == 1 && kvs.recs == map[]
  {
    kvs := new KvStore();
    var r, stored;
    ghost var out;
    r, stored, out := kvs.SetValue("key", false, ["value"], None, None, NoNode);
    assert out.NoRecord?;
  }
}
