/** Transactions whose calls take effect in order. A commit applies the sets in order and then all unsets; this module
    proves exactly when that is what applying the calls one at a time would give. */
module KvOrder {
  import opened BPTypes
  import opened KvStore
  import opened KvLedger
  import opened KvRuns
  import opened KvRollback

  type Recs = map<string, Value>

  /** The calls of a transaction body, one at a time. */
  function InOrderStep(m: Recs, op: Op): Recs {
    if op.UnsetOp? then m - {op.key} else Write(m, op)
  }

  function InOrder(m: Recs, ops: seq<Op>): Recs {
    if ops == [] then m else InOrderStep(InOrder(m, ops[..|ops| - 1]), ops[|ops| - 1])
  }

  /** Whether key `k` has a record after the calls, taken in order; `present` are the keys that have one before. */
  function Live(present: set<string>, ops: seq<Op>, k: string): bool {
    if ops == [] then k in present
    else
      var most, op := ops[..|ops| - 1], ops[|ops| - 1];
      if IsStored(op) && (op.key == k || (op.archiveKey == Some(k) && Live(present, most, op.key))) then true
      else if op.UnsetOp? && op.key == k then false
      else Live(present, most, k)
  }

  /** The same with all unsets left for later. */
  function Kept(present: set<string>, ops: seq<Op>, k: string): bool {
    if ops == [] then k in present
    else
      var most, op := ops[..|ops| - 1], ops[|ops| - 1];
      (IsStored(op) && (op.key == k || (op.archiveKey == Some(k) && Kept(present, most, op.key)))) || Kept(present, most, k)
  }

  /** Whether the last value archived under `k` was one its key still had: an archiving set of a key that was unset before it
      still finds the old value when the unset is deferred. */
  function Fresh(present: set<string>, ops: seq<Op>, k: string): bool {
    if ops == [] then true
    else
      var most, op := ops[..|ops| - 1], ops[|ops| - 1];
      if IsStored(op) && op.archiveKey == Some(k) && Kept(present, most, op.key) then Live(present, most, op.key)
      else Fresh(present, most, k)
  }

  /** No key that is unset is live at the end, and every archive that is not unset is fresh. */
  ghost predicate Orderly(present: set<string>, ops: seq<Op>) {
    forall k :: if k in UnsetKeys(ops) then !Live(present, ops, k) else Fresh(present, ops, k)
  }

  /** Whether a set of `k` was stored after the last unset of `k`. */
  function SetSince(ops: seq<Op>, k: string): bool {
    if ops == [] then false
    else
      var op := ops[|ops| - 1];
      if IsStored(op) && op.key == k then true
      else if op.UnsetOp? && op.key == k then false
      else SetSince(ops[..|ops| - 1], k)
  }

  /** For a key that is no archive, being live after an unset means being set again. */
  lemma {:induction false} LiveIsSetSince(present: set<string>, ops: seq<Op>, archives: set<string>, k: string)
    requires Apart(ops, archives) && k !in archives && k in UnsetKeys(ops)
    ensures Live(present, ops, k) <==> SetSince(ops, k)
  {
    if ops != [] {
      var most, op := ops[..|ops| - 1], ops[|ops| - 1];
      assert Apart(most, archives);
      assert op.SetOp? && op.archiveKey.Some? ==> op.archiveKey.value in archives;
      if k in UnsetKeys(most) { LiveIsSetSince(present, most, archives, k); }
    }
  }

  // ----- The two readings side by side -----

  /** `w` has the writes only, `i` has the calls in order, after `ops`; `made` are the containers made so far. */
  ghost predicate Beside(present: set<string>, ops: seq<Op>, archives: set<string>, w: Recs, i: Recs, made: set<Value>) {
    && (forall k :: k in w <==> Kept(present, ops, k))
    && (forall k :: k in i <==> Live(present, ops, k))
    && (forall k :: k !in archives && k in i ==> k in w && i[k] == w[k])
    && (forall k :: k !in archives && k in w && k !in UnsetKeys(ops) ==> k in i)
    && (forall a :: a in archives && a in i ==> i[a] in made && forall k :: k !in archives && k in w ==> w[k] != i[a])
    && (forall a :: a in archives && a !in UnsetKeys(ops) ==> (Find(w, a) == Find(i, a) <==> Fresh(present, ops, a)))
  }

  lemma LedgerFacts(s: Store)
    requires Ledger(s)
    ensures Injective(s.recs) && forall k :: k in s.recs ==> s.recs[k] in s.created
  {
    forall k | k in s.recs ensures s.recs[k] in s.created { assert s.recs[k] in Held(s.recs); }
  }

  lemma BesideStarts(s: Store, archives: set<string>)
    requires Ledger(s)
    ensures Beside(s.recs.Keys, [], archives, s.recs, s.recs, s.created)
  {
    LedgerFacts(s);
  }

  lemma UnsetKeysSnoc(ops: seq<Op>, op: Op)
    ensures UnsetKeys(ops + [op]) == UnsetKeys(ops) + if op.UnsetOp? then [op.key] else []
  {
    assert (ops + [op])[..|ops|] == ops;
  }

  lemma KeysSnoc(present: set<string>, ops: seq<Op>, op: Op, k: string)
    ensures Live(present, ops + [op], k) ==
            if IsStored(op) && (op.key == k || (op.archiveKey == Some(k) && Live(present, ops, op.key))) then true
            else if op.UnsetOp? && op.key == k then false
            else Live(present, ops, k)
    ensures Kept(present, ops + [op], k) ==
            ((IsStored(op) && (op.key == k || (op.archiveKey == Some(k) && Kept(present, ops, op.key)))) || Kept(present, ops, k))
    ensures Fresh(present, ops + [op], k) ==
            if IsStored(op) && op.archiveKey == Some(k) && Kept(present, ops, op.key) then Live(present, ops, op.key)
            else Fresh(present, ops, k)
  {
    assert (ops + [op])[..|ops|] == ops;
  }

  /** A call that stores nothing. */
  lemma BesideQuiet(present: set<string>, ops: seq<Op>, op: Op, archives: set<string>, w: Recs, i: Recs, made: set<Value>, made': set<Value>)
    requires Beside(present, ops, archives, w, i, made) && !IsStored(op) && InBody(op) && made <= made'
    ensures Beside(present, ops + [op], archives, w, InOrderStep(i, op), made')
  {
    hide Live, Kept, Fresh, UnsetKeys;
    UnsetKeysSnoc(ops, op);
    forall k ensures (Kept(present, ops + [op], k) <==> Kept(present, ops, k)) && (Fresh(present, ops + [op], k) <==> Fresh(present, ops, k))
              && (Live(present, ops + [op], k) <==> Live(present, ops, k) && !(op.UnsetOp? && op.key == k))
    {
      KeysSnoc(present, ops, op, k);
    }
  }

  /** A stored set, of a container that is new. */
  lemma BesideStored(present: set<string>, ops: seq<Op>, op: Op, archives: set<string>, w: Recs, i: Recs, made: set<Value>, made': set<Value>)
    requires Beside(present, ops, archives, w, i, made) && IsStored(op) && Apart([op], archives)
    requires op.out.chosen !in made && op.out.chosen in made' && made <= made'
    requires Injective(w) && forall k :: k in w ==> w[k] in made
    ensures Beside(present, ops + [op], archives, Write(w, op), InOrderStep(i, op), made')
  {
    hide Live, Kept, Fresh, UnsetKeys;
    UnsetKeysSnoc(ops, op);
    assert [op][0] == op;
    var w', i' := Write(w, op), InOrderStep(i, op);
    forall k
      ensures (k in w' <==> Kept(present, ops + [op], k)) && (k in i' <==> Live(present, ops + [op], k))
      ensures Fresh(present, ops + [op], k) ==
              if op.archiveKey == Some(k) && op.key in w then op.key in i else Fresh(present, ops, k)
    {
      KeysSnoc(present, ops, op, k);
    }
    forall a | a in archives && a in i' ensures i'[a] in made' && forall k :: k !in archives && k in w' ==> w'[k] != i'[a] {
      if op.archiveKey == Some(a) && op.key in i {
        assert i'[a] == w[op.key];
      } else {
        assert i'[a] == i[a];
      }
    }
    forall a | a in archives && a !in UnsetKeys(ops) ensures Find(w', a) == Find(i', a) <==> Fresh(present, ops + [op], a) {
      if op.archiveKey == Some(a) && op.key in w && op.key !in i {
        assert w'[a] == w[op.key] && Find(i', a) == Find(i, a);
      }
    }
  }

  lemma {:induction false} BesideAlways(s: Store, ops: seq<Op>, archives: set<string>)
    requires Ledger(s) && s.log.None? && Plain(ops) && Legal(Begin(s), ops) && Apart(ops, archives)
    ensures Run(Begin(s), ops).recs == WriteAll(s.recs, ops)
    ensures Beside(s.recs.Keys, ops, archives, WriteAll(s.recs, ops), InOrder(s.recs, ops), Run(Begin(s), ops).created)
  {
    hide Ledger, Beside, Step, Write, InOrderStep, Possible;
    Inside(Begin(s), ops);
    if ops == [] {
      BesideStarts(s, archives);
    } else {
      var most, op := ops[..|ops| - 1], ops[|ops| - 1];
      assert ops == most + [op];
      BesideAlways(s, most, archives);
      BeginKeepsLedger(s);
      LedgerAlways(Begin(s), most);
      LedgerFacts(Run(Begin(s), most));
      Inside(Begin(s), most);
      CreatedGrows(Run(Begin(s), most), op);
      if IsStored(op) {
        assert Apart([op], archives);
        BesideStored(s.recs.Keys, most, op, archives, WriteAll(s.recs, most), InOrder(s.recs, most),
                     Run(Begin(s), most).created, Run(Begin(s), ops).created);
      } else {
        NoWrite(WriteAll(s.recs, most), op);
        BesideQuiet(s.recs.Keys, most, op, archives, WriteAll(s.recs, most), InOrder(s.recs, most),
                    Run(Begin(s), most).created, Run(Begin(s), ops).created);
      }
    }
  }

  lemma NoWrite(m: Recs, op: Op)
    requires !IsStored(op)
    ensures Write(m, op) == m
  {
  }

  lemma CreatedGrows(s: Store, op: Op)
    requires s.log.Some? && InBody(op) && (op.SetOp? ==> Possible(s, op.key, op.out))
    ensures s.created <= Step(s, op).created
    ensures IsStored(op) ==> op.out.chosen !in s.created && op.out.chosen in Step(s, op).created
  {
    if IsStored(op) {
      assert op.out.chosen in ValuesOf(op.out);
      SetInside(Chosen(s, op.out.orig, op.out.chosen), op.key, op.out.chosen, op.archiveKey);
    }
  }

  /** A committed transaction has the effect of its calls taken in order if and only if no key it unsets is live at its end
      and no archive it leaves holds a value that an earlier unset was to remove. */
  lemma InOrderIff(s: Store, ops: seq<Op>, archives: set<string>)
    requires Ledger(s) && s.log.None? && Plain(ops) && Legal(Begin(s), ops) && Apart(ops, archives)
    ensures Run(Begin(s), ops).log.Some?
    ensures End(Run(Begin(s), ops), false).recs == InOrder(s.recs, ops) <==> Orderly(s.recs.Keys, ops)
  {
    hide Ledger, Run, InOrder, WriteAll, UnsetKeys, Live, Kept, Fresh, Legal, End, Write;
    CommitIsWritesThenUnsets(s, ops);
    BesideAlways(s, ops, archives);
    var w, i, u := WriteAll(s.recs, ops), InOrder(s.recs, ops), UnsetKeys(ops);
    var d := w - (set k | k in u);
    forall k ensures Find(d, k) == Find(i, k) <==> if k in u then !Live(s.recs.Keys, ops, k) else Fresh(s.recs.Keys, ops, k) {
      if k !in u && k !in archives { AlwaysFresh(s.recs.Keys, ops, archives, k); }
    }
    SameMap(d, i);
  }

  lemma {:induction false} AlwaysFresh(present: set<string>, ops: seq<Op>, archives: set<string>, k: string)
    requires Apart(ops, archives) && k !in archives
    ensures Fresh(present, ops, k)
  {
    hide Live, Kept;
    if ops != [] {
      assert Apart(ops[..|ops| - 1], archives);
      AlwaysFresh(present, ops[..|ops| - 1], archives, k);
    }
  }

  /** The archive clause at work: a key is unset and then set with an archive. The commit leaves its old value in the archive,
      though in order the key has no value to archive. */
  lemma StaleArchived(s: Store, key: string, archive: string, v: Value)
    requires s.log.None? && key in s.recs && key != archive
    ensures var ops := [UnsetOp(key), SetOp(key, Some(archive), Stored(v, v))];
      && Run(Begin(s), ops).log.Some?
      && (var t := End(Run(Begin(s), ops), false); archive in t.recs && t.recs[archive] == s.recs[key] && key !in t.recs)
      && InOrder(s.recs, ops) == s.recs[key := v]
  {
    var ops := [UnsetOp(key), SetOp(key, Some(archive), Stored(v, v))];
    CommitIsWritesThenUnsets(s, ops);
    assert ops[..1] == [UnsetOp(key)] && ops[..1][..0] == [];
    assert WriteAll(s.recs, ops[..1]) == s.recs;
    assert UnsetKeys(ops[..1]) == [key] && UnsetKeys(ops) == [key];
    assert InOrder(s.recs, ops[..1]) == s.recs - {key};
    assert (s.recs - {key})[key := v] == s.recs[key := v];
  }
}
