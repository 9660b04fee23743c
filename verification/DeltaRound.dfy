/** A round of work: workers fork from the main store, run their calls and export what they changed; main folds it in. */
module DeltaRound {
  import opened BPTypes
  import opened CStrings
  import opened KvStore
  import opened Keys
  import opened SortedVec
  import opened DeltaStep
  import opened DeltaView
  import opened DeltaSet
  import opened DeltaRel
  import opened DeltaSync

  // ----- The keys of delta records -----

  /** ubr.c _get_op_from_key */
  function OpOfKey(k: string): KvOp {
    var part := KeyPart(k, PART_OP, PART_COUNT);
    if part == Some("+") then OpPlus else if part == Some("-") then OpMinus else OpSet
  }

  /** Keys of delta records. */
  predicate IsDelta(k: string) {
    !OpOfKey(k).OpSet?
  }

  /** A key of one operation is the operation's character and a key that starts at the separator. */
  lemma DeltaParts(k: string)
    requires IsDelta(k)
    ensures k == OpPrefix(OpOfKey(k)) + k[1..] && k[1..] != [] && Canonical(k[1..]) == k[1..]
  {
    assert Cut(k) == 1 && k[1] == JOIN;
    assert k[..1] == OpPrefix(OpOfKey(k));
    assert k == k[..1] + k[1..];
  }

  lemma OpOfOpKey(op: KvOp, rest: string)
    ensures OpOfKey(OpPrefix(op) + [JOIN] + rest) == op
  {
    CutJoin(OpPrefix(op), rest);
    assert (OpPrefix(op) + [JOIN] + rest)[..|OpPrefix(op)|] == OpPrefix(op);
  }

  /** The keys of a list's three records. */
  lemma DeltaKey(sp: KeySpec, op: KvOp)
    requires Entity(sp)
    ensures StoreKey(sp) == KeyOf(sp, OpSet) != [] && !IsDelta(StoreKey(sp)) && Canonical(StoreKey(sp)) == StoreKey(sp)
    ensures KeyOf(sp, op) == OpPrefix(op) + StoreKey(sp) && OpOfKey(KeyOf(sp, op)) == op
  {
    hide KeyPart, Canonical;
    var s := sp.(op := op);
    StoreKeyIsJoin(sp);
    StoreKeyIsJoin(s);
    assert sp.(op := OpSet) == sp;
    var p, q := Parts(sp, sp.core), Parts(s, s.core);
    assert q == [OpPrefix(op)] + p[1..];
    assert Join(p) == p[0] + [JOIN] + Join(p[1..]) && Join(q) == q[0] + [JOIN] + Join(q[1..]);
    assert p[0] == [] && p[1..] == q[1..];
    var rest := Join(p[1..]);
    OpOfOpKey(op, rest);
    OpOfOpKey(OpSet, rest);
    assert StoreKey(sp) == [JOIN] + rest == [] + [JOIN] + rest;
    assert OpPrefix(op) + [JOIN] + rest == OpPrefix(op) + ([JOIN] + rest);
    StartsAtJoin(rest);
  }

  lemma StartsAtJoin(rest: string)
    ensures Canonical([JOIN] + rest) == [JOIN] + rest
  {
  }

  /** Delta records are records of lists. */
  ghost predicate OnlyListDeltas(e: Recs) {
    forall k :: k in e && IsDelta(k) ==> IsListKey(k)
  }

  ghost predicate IsListKey(k: string) {
    exists sp, op: KvOp :: IsList(sp) && !op.OpSet? && k == KeyOf(sp, op)
  }

  /** The main store keeps no delta records. */
  ghost predicate NoDeltas(e: Recs) {
    forall k :: k in e ==> !IsDelta(k)
  }

  // ----- Export -----

  /** The keys in the order an iterator visits them. */
  method SortedKeys(recs: Recs) returns (ks: seq<string>)
    ensures Ascending(ks) && Elems(ks) == recs.Keys
  {
    ks := [];
    var left := recs.Keys;
    while left != {}
      invariant Ascending(ks) && Elems(ks) + left == recs.Keys && Elems(ks) !! left
      decreases left
    {
      var k :| k in left;
      InsertMeans(k, ks);
      NotElem(k, ks);
      ks := Insert(k, ks);
      left := left - {k};
    }
  }

  lemma NotElem(k: string, ks: seq<string>)
    requires k !in Elems(ks)
    ensures k !in ks
  {
  }

  function FullKey(r: DeltaRec): string {
    OpPrefix(r.op) + r.key
  }

  /** The record is marked for the sync. */
  ghost predicate IsMarked(e: Recs, k: string) {
    k in e && |e[k].cells| > FLAGS && SYNC in e[k].cells[FLAGS]
  }

  /** A vector as it is sent: without the mark, and otherwise as it is stored. */
  ghost predicate Unmarked(cells: seq<string>, vec: seq<string>) {
    && |vec| == |cells| > FLAGS && (forall i :: 0 <= i < |vec| && i != FLAGS ==> vec[i] == cells[i])
    && forall c :: c in vec[FLAGS] <==> c in cells[FLAGS] && c != SYNC
  }

  /** A delta record as it is in the store, but for the mark. */
  ghost predicate Stored(e: Recs, r: DeltaRec) {
    RecOk(r) && IsDelta(FullKey(r)) && IsMarked(e, FullKey(r)) && Unmarked(e[FullKey(r)].cells, r.vec)
  }

  /** The batch has the marked delta records among `ks`, in key order. */
  ghost predicate Carries(e: Recs, ks: seq<string>, batch: seq<DeltaRec>) {
    && (forall i :: 0 <= i < |batch| ==> Stored(e, batch[i]) && FullKey(batch[i]) in ks)
    && (forall i, j :: 0 <= i < j < |batch| ==> Rank(FullKey(batch[i])) < Rank(FullKey(batch[j])))
    && (forall k :: k in ks && IsDelta(k) && IsMarked(e, k) ==> exists i :: 0 <= i < |batch| && FullKey(batch[i]) == k)
  }

  /** What can be exported: list records, sorted and not empty. */
  ghost predicate Exportable(e: Recs) {
    forall k :: k in e && IsDelta(k) && IsMarked(e, k) ==> |e[k].cells| > HEADER && Ascending(Data(e[k].cells))
  }

  /** ubr.c _build_cmd_kv_buffers, for delta records */
  method ExportDeltas(recs: Recs) returns (batch: seq<DeltaRec>)
    requires Exportable(recs)
    ensures BatchOk(batch)
    ensures forall k, op: KvOp :: OpOfKey(OpPrefix(op) + k) == op && !op.OpSet? ==>
      Sent(batch, k, op) == if IsMarked(recs, OpPrefix(op) + k) then Items(recs, OpPrefix(op) + k) else {}
    ensures forall i :: 0 <= i < |batch| ==> Stored(recs, batch[i])
  {
    hide Exportable, OpOfKey, IsDelta, Carries, Stored, RecOk, Sent, Items, Ascending, Elems, Data, OpPrefix, Rank, Unmarked;
    var ks := SortedKeys(recs);
    batch := [];
    NothingCarried(recs);
    assert ks[..0] == [];
    for i := 0 to |ks|
      invariant Carries(recs, ks[..i], batch)
    {
      var k := ks[i];
      InElems(ks, i);
      assert ks[..i + 1] == ks[..i] + [k];
      if IsDelta(k) && |recs[k].cells| > FLAGS && SYNC in recs[k].cells[FLAGS] {
        DeltaParts(k);
        var vec := Unmark(recs[k].cells);
        var r := DeltaRec(k[1..], OpOfKey(k), vec);
        RecOfKey(recs, k, r);
        CarriesMore(recs, ks, i, batch, r);
        batch := batch + [r];
      } else {
        CarriesOther(recs, ks[..i], batch, k);
      }
    }
    assert ks[..|ks|] == ks;
    CarriedInOrder(recs, ks, batch);
    forall k, op: KvOp | OpOfKey(OpPrefix(op) + k) == op && !op.OpSet? ensures Sent(batch, k, op) == if IsMarked(recs, OpPrefix(op) + k) then Items(recs, OpPrefix(op) + k) else {}
    {
      CarriedIsSent(recs, ks, batch, k, op);
    }
    CarriedAreDeltas(recs, ks, batch);
  }

  /** The mark is cleared in what is sent. */
  method Unmark(cells: seq<string>) returns (vec: seq<string>)
    requires |cells| > FLAGS
    ensures Unmarked(cells, vec)
  {
    var flags := "";
    for i := 0 to |cells[FLAGS]|
      invariant forall c :: c in flags <==> c in cells[FLAGS][..i] && c != SYNC
    {
      if cells[FLAGS][i] != SYNC { flags := flags + [cells[FLAGS][i]]; }
      assert cells[FLAGS][..i + 1] == cells[FLAGS][..i] + [cells[FLAGS][i]];
    }
    assert cells[FLAGS][..|cells[FLAGS]|] == cells[FLAGS];
    vec := cells[FLAGS := flags];
  }

  lemma SentData(cells: seq<string>, vec: seq<string>)
    requires Unmarked(cells, vec)
    ensures Data(vec) == Data(cells) && |vec| == |cells|
  {
  }

  lemma InElems(ks: seq<string>, i: nat)
    requires i < |ks|
    ensures ks[i] in Elems(ks)
  {
  }

  lemma NothingCarried(e: Recs)
    ensures Carries(e, [], [])
  {
  }

  lemma CarriedAreDeltas(e: Recs, ks: seq<string>, batch: seq<DeltaRec>)
    requires Carries(e, ks, batch)
    ensures forall i :: 0 <= i < |batch| ==> Stored(e, batch[i])
  {
    hide Rank, Stored;
  }

  lemma RecOfKey(e: Recs, k: string, r: DeltaRec)
    requires k in e && IsDelta(k) && Exportable(e) && r.key == k[1..] && r.op == OpOfKey(k) && IsMarked(e, k) && Unmarked(e[k].cells, r.vec)
    ensures Stored(e, r) && FullKey(r) == k
  {
    hide OpOfKey, Canonical;
    DeltaParts(k);
    IsDeltaIs(k);
    SentData(e[k].cells, r.vec);
  }

  lemma IsDeltaIs(k: string)
    ensures IsDelta(k) <==> !OpOfKey(k).OpSet?
  {
  }

  lemma CarriesMore(e: Recs, ks: seq<string>, n: nat, batch: seq<DeltaRec>, r: DeltaRec)
    requires Ascending(ks) && n < |ks| && Carries(e, ks[..n], batch) && Stored(e, r) && FullKey(r) == ks[n]
    ensures Carries(e, ks[..n + 1], batch + [r])
  {
    hide Stored, Rank;
    var b := batch + [r];
    assert ks[..n + 1] == ks[..n] + [ks[n]];
    forall i, j | 0 <= i < j < |b| ensures Rank(FullKey(b[i])) < Rank(FullKey(b[j])) {
      if j == |batch| {
        assert FullKey(batch[i]) in ks[..n];
        var m :| 0 <= m < n && ks[m] == FullKey(batch[i]);
      }
    }
    forall k | k in ks[..n + 1] && IsDelta(k) && IsMarked(e, k) ensures exists i :: 0 <= i < |b| && FullKey(b[i]) == k {
      if k in ks[..n] {
        var i :| 0 <= i < |batch| && FullKey(batch[i]) == k;
        assert b[i] == batch[i];
      } else {
        assert b[|batch|] == r;
      }
    }
  }

  lemma CarriesOther(e: Recs, ks: seq<string>, batch: seq<DeltaRec>, k: string)
    requires Carries(e, ks, batch) && !(IsDelta(k) && IsMarked(e, k))
    ensures Carries(e, ks + [k], batch)
  {
    hide Stored, Rank;
  }

  /** In key order the additions to a list come before its removals: '+' sorts before '-'. */
  lemma CarriedInOrder(e: Recs, ks: seq<string>, batch: seq<DeltaRec>)
    requires Carries(e, ks, batch)
    ensures BatchOk(batch)
  {
    hide Rank, RecOk;
    forall i | 0 <= i < |batch| ensures RecOk(batch[i]) && !batch[i].op.OpSet? {
      assert Stored(e, batch[i]);
      OpOfRec(batch[i]);
    }
    forall i, j | 0 <= i < j < |batch| && batch[i].key == batch[j].key ensures batch[i].op == OpPlus && batch[j].op == OpMinus {
      FirstCharacters(FullKey(batch[i]), FullKey(batch[j]));
    }
  }

  lemma FirstCharacters(a: string, b: string)
    requires a != [] && b != [] && Rank(a) < Rank(b)
    ensures a != b && a[0] <= b[0]
  {
    hide Rank;
    StrcmpIsRank(a, b);
  }

  lemma CarriedIsSent(e: Recs, ks: seq<string>, batch: seq<DeltaRec>, k: string, op: KvOp)
    requires Carries(e, ks, batch) && Elems(ks) == e.Keys && OpOfKey(OpPrefix(op) + k) == op && !op.OpSet?
    ensures Sent(batch, k, op) == if IsMarked(e, OpPrefix(op) + k) then Items(e, OpPrefix(op) + k) else {}
  {
    hide Rank, RecOk, Data, OpOfKey;
    var f := OpPrefix(op) + k;
    assert IsDelta(f);
    forall i | 0 <= i < |batch| && batch[i].key == k && batch[i].op == op
      ensures Elems(Data(batch[i].vec)) == Items(e, f)
    {
      assert Stored(e, batch[i]);
      SentData(e[f].cells, batch[i].vec);
    }
    if IsMarked(e, f) {
      assert f in Elems(ks);
      var i :| 0 <= i < |batch| && FullKey(batch[i]) == f;
      assert Stored(e, batch[i]);
      SameParts(batch[i], op, k);
    } else {
      EmptyAscends();
      forall i | 0 <= i < |batch| ensures !(batch[i].key == k && batch[i].op == op) { assert Stored(e, batch[i]); }
    }
  }

  lemma SameParts(r: DeltaRec, op: KvOp, k: string)
    requires RecOk(r) && FullKey(r) == OpPrefix(op) + k && !op.OpSet?
    ensures r.op == op && r.key == k
  {
    assert FullKey(r)[0] == OpPrefix(op)[0] && FullKey(r)[1..] == r.key && (OpPrefix(op) + k)[1..] == k;
  }

  // ----- Workers -----

  datatype Request = Request(cur: KeySpec, rel: KeySpec, op: KvOp, newv: seq<string>)

  ghost predicate GoodRequest(q: Request, kinds: KeySpec -> KeySpec) {
    |q.newv| >= HEADER && Ascending(Data(q.newv)) && GoodCall(q.cur, q.rel, Elems(Data(q.newv)), kinds)
  }

  ghost predicate GoodJob(reqs: seq<Request>, kinds: KeySpec -> KeySpec) {
    forall i :: 0 <= i < |reqs| ==> GoodRequest(reqs[i], kinds)
  }

  ghost function CallOf(q: Request): Call {
    Call(q.cur, q.rel, q.op, Elems(Data(q.newv)), if |q.newv| >= HEADER then q.newv[..HEADER] else [])
  }

  ghost function CallsOf(reqs: seq<Request>): seq<Call> {
    seq(|reqs|, i requires 0 <= i < |reqs| => CallOf(reqs[i]))
  }

  /** The main store between rounds. */
  ghost predicate GoodMain(e: Recs, kinds: KeySpec -> KeySpec) {
    World(e, kinds, false) && NoDeltas(e)
  }

  /** Every delta record is marked for the sync. */
  ghost predicate AllMarked(e: Recs) {
    forall k :: k in e && IsDelta(k) ==> IsMarked(e, k)
  }

  /** A worker's store while it works. */
  ghost predicate GoodWorker(e: Recs, kinds: KeySpec -> KeySpec) {
    World(e, kinds, true) && OnlyListDeltas(e) && AllMarked(e)
  }

  /** A fork of the main store is a worker that has done nothing yet. */
  lemma ForkIsFresh(e: Recs, kinds: KeySpec -> KeySpec)
    requires GoodMain(e, kinds)
    ensures GoodWorker(e, kinds) && FreshFork(e)
  {
    hide Symmetric, Typed, OpOfKey;
    forall sp | IsList(sp) ensures Tracked(e, sp) && Plus(e, sp) == {} && Minus(e, sp) == {} {
      assert Ready(e, sp, false);
      DeltaKey(sp, OpPlus);
      DeltaKey(sp, OpMinus);
      EmptyAscends();
    }
  }

  lemma CallKeepsDeltas(e: Recs, e2: Recs, cur: KeySpec, rel: KeySpec, op: KvOp, items: set<string>, kinds: KeySpec -> KeySpec,
                          h: seq<string>)
    requires GoodWorker(e, kinds) && GoodCall(cur, rel, items, kinds) && SetOn(e, e2, cur, rel, op, items, h, true, true)
    ensures OnlyListDeltas(e2) && AllMarked(e2)
  {
    hide IsDelta, Conforms, Symmetric, AllReady, Keys3, IsListKey, IsMarked, Mirror, Stepped, PlusSet, MinusSet, Cur, ForRelatives;
    MovedConform(e, cur, rel, op, items, kinds);
    var prefix := ComposeKeyPrefix(cur);
    forall k | k in e2 && IsDelta(k) ensures IsListKey(k) && IsMarked(e2, k) {
      if k in Keys3(cur) {
        KeyOfList(cur, k);
        StepMarks(e, e2, cur, op, items, h, k);
      } else if k in SetKeys(e, cur, rel, op, items, true) {
        var x :| x in Moved(e, cur, op, items) && k in Keys3(Mirror(rel, x));
        MirrorIsList(rel, x);
        KeyOfList(Mirror(rel, x), k);
        var dir := if x in PlusSet(op, Cur(e, cur), items) then OpPlus else OpMinus;
        assert Stepped(e, e2, Mirror(rel, x), dir, {prefix}, ForRelatives(h), true);
        StepMarks(e, e2, Mirror(rel, x), dir, {prefix}, ForRelatives(h), k);
      } else {
        assert SameAt(e, e2, k);
        SameMark(e, e2, k);
      }
    }
  }

  lemma SameMark(e: Recs, e2: Recs, k: string)
    requires SameAt(e, e2, k) && IsMarked(e, k)
    ensures IsMarked(e2, k)
  {
  }

  /** A step leaves marked delta records. */
  lemma StepMarks(e: Recs, e2: Recs, sp: KeySpec, op: KvOp, items: set<string>, h: seq<string>, k: string)
    requires Stepped(e, e2, sp, op, items, h, true) && IsList(sp) && k in Keys3(sp) && IsDelta(k) && k in e2
    requires k in e ==> IsMarked(e, k)
    ensures IsMarked(e2, k)
  {
    hide IsDelta, Ready, Cur, Base, PlusSet, MinusSet, FinalSet;
    DeltaKey(sp, OpSet);
    if NewOrGone(e2, k, Marked(h)) { MarkedIs(h); } else { assert SameAt(e, e2, k); }
  }

  lemma MarkedIs(h: seq<string>)
    ensures |h| == HEADER ==> |Marked(h)| == HEADER && SYNC in Marked(h)[FLAGS]
    ensures |h| != HEADER ==> Marked(h) == h
  {
  }

  lemma KeyOfList(sp: KeySpec, k: string)
    requires IsList(sp) && k in Keys3(sp) && IsDelta(k)
    ensures IsListKey(k)
  {
    hide IsDelta;
    DeltaKey(sp, OpSet);
  }

  ghost predicate WorkerRun(es: seq<Recs>, reqs: seq<Request>, kinds: KeySpec -> KeySpec, base: Recs, end: Recs) {
    Trace(es, CallsOf(reqs), kinds) && es[0] == base && es[|reqs|] == end
  }

  /** A worker: its store is a copy of the main store at the fork, and it sets lists. */
  method Worker(base: Recs, reqs: seq<Request>, ghost kinds: KeySpec -> KeySpec) returns (kvs: KvStore, ghost es: seq<Recs>)
    requires GoodMain(base, kinds) && GoodJob(reqs, kinds)
    ensures fresh(kvs) && WorkerRun(es, reqs, kinds, base, kvs.recs) && GoodWorker(kvs.recs, kinds)
  {
    hide *;
    kvs := new KvStore();
    StateIs(kvs);
    kvs.recs := base;
    es := [base];
    ForkIsFresh(base, kinds);
    WorkerStarts(base, reqs, kinds);
    for i := 0 to |reqs|
      invariant fresh(kvs) && kvs.rollbackBuf.None? && GoodWorker(kvs.recs, kinds) && WorkerRun(es, reqs[..i], kinds, base, kvs.recs)
    {
      var q := reqs[i];
      ghost var e := kvs.recs;
      RequestIs(reqs, kinds, i);
      WorkerIs(e, kinds);
      StateIs(kvs);
      WorldSettable(kvs.State(), q.cur, q.rel, q.op, Elems(Data(q.newv)), kinds, true);
      var r := KvDeltaSet(kvs, q.cur, q.rel, q.op, q.newv, false);
      CallKeepsWorld(e, kvs.recs, q.cur, q.rel, q.op, Elems(Data(q.newv)), kinds, q.newv[..HEADER], true);
      CallKeepsDeltas(e, kvs.recs, q.cur, q.rel, q.op, Elems(Data(q.newv)), kinds, q.newv[..HEADER]);
      WorkerIntro(kvs.recs, kinds);
      WorkerStep(es, reqs, i, kinds, base, e, kvs.recs);
      es := es + [kvs.recs];
    }
    assert reqs[..|reqs|] == reqs;
  }

  lemma StateIs(kvs: KvStore)
    ensures kvs.State().recs == kvs.recs && kvs.State().log == kvs.rollbackBuf
  {
  }

  lemma WorkerIs(e: Recs, kinds: KeySpec -> KeySpec)
    requires GoodWorker(e, kinds)
    ensures World(e, kinds, true) && OnlyListDeltas(e) && AllMarked(e)
  {
  }

  lemma WorkerIntro(e: Recs, kinds: KeySpec -> KeySpec)
    requires World(e, kinds, true) && OnlyListDeltas(e) && AllMarked(e)
    ensures GoodWorker(e, kinds)
  {
    hide World, OnlyListDeltas, AllMarked;
  }

  lemma RequestIs(reqs: seq<Request>, kinds: KeySpec -> KeySpec, i: nat)
    requires GoodJob(reqs, kinds) && i < |reqs|
    ensures var q := reqs[i]; |q.newv| >= HEADER && Ascending(Data(q.newv)) && GoodCall(q.cur, q.rel, Elems(Data(q.newv)), kinds)
  {
    hide GoodCall, Ascending, Data, Elems;
    assert GoodRequest(reqs[i], kinds);
  }

  lemma WorkerStarts(base: Recs, reqs: seq<Request>, kinds: KeySpec -> KeySpec)
    ensures WorkerRun([base], reqs[..0], kinds, base, base)
  {
  }

  lemma WorkerStep(es: seq<Recs>, reqs: seq<Request>, n: nat, kinds: KeySpec -> KeySpec, base: Recs, e: Recs, e2: Recs)
    requires n < |reqs| && WorkerRun(es, reqs[..n], kinds, base, e)
    requires var q := reqs[n];
      |q.newv| >= HEADER && GoodCall(q.cur, q.rel, Elems(Data(q.newv)), kinds) &&
      SetOn(e, e2, q.cur, q.rel, q.op, Elems(Data(q.newv)), q.newv[..HEADER], true, true)
    ensures WorkerRun(es + [e2], reqs[..n + 1], kinds, base, e2)
  {
    hide GoodCall, SetOn, Data, Elems;
    var was, calls := CallsOf(reqs[..n]), CallsOf(reqs[..n + 1]);
    assert forall i :: 0 <= i < n ==> calls[i] == was[i];
    forall i | 0 <= i < n + 1
      ensures GoodCall(calls[i].cur, calls[i].rel, calls[i].items, kinds)
      ensures SetOn((es + [e2])[i], (es + [e2])[i + 1], calls[i].cur, calls[i].rel, calls[i].op, calls[i].items, calls[i].header, true, true)
    {
      if i < n { assert GoodCall(was[i].cur, was[i].rel, was[i].items, kinds); }
    }
  }

  // ----- A round -----

  lemma WorkerExports(e: Recs, kinds: KeySpec -> KeySpec)
    requires GoodWorker(e, kinds)
    ensures Exportable(e)
  {
    hide Symmetric, Typed, IsDelta, Tracked, Ascending;
    forall k | k in e && IsDelta(k) ensures |e[k].cells| > HEADER && Ascending(Data(e[k].cells)) {
      assert IsListKey(k);
      var sp, op: KvOp :| IsList(sp) && !op.OpSet? && k == KeyOf(sp, op);
      assert Ready(e, sp, true);
      TrackedAt(e, sp, op);
    }
  }

  lemma TrackedAt(e: Recs, sp: KeySpec, op: KvOp)
    requires Tracked(e, sp) && !op.OpSet? && KeyOf(sp, op) in e
    ensures var k := KeyOf(sp, op); |e[k].cells| > HEADER && Ascending(Data(e[k].cells))
  {
    assert op.OpPlus? || op.OpMinus?;
  }

  /** The records of a worker's batch are delta records of its lists, sent as they are stored but for the mark. */
  ghost predicate FromLists(w: Recs, batch: seq<DeltaRec>) {
    forall i :: 0 <= i < |batch| ==> Stored(w, batch[i])
  }

  lemma BatchKey(w: Recs, batch: seq<DeltaRec>, k: string) returns (sp: KeySpec)
    requires OnlyListDeltas(w) && FromLists(w, batch) && k in KeysIn(batch)
    ensures IsList(sp) && k == StoreKey(sp) == KeyOf(sp, OpSet) && !IsDelta(k)
  {
    hide IsDelta, IsList;
    var i :| 0 <= i < |batch| && batch[i].key == k;
    var f := FullKey(batch[i]);
    assert Stored(w, batch[i]);
    assert IsListKey(f);
    var op: KvOp;
    sp, op :| IsList(sp) && !op.OpSet? && f == KeyOf(sp, op);
    ListIsEntity(sp);
    DeltaKey(sp, op);
    SameParts(batch[i], op, StoreKey(sp));
  }

  lemma ListIsEntity(sp: KeySpec)
    requires IsList(sp)
    ensures Entity(sp)
  {
  }

  /** Main has a list, or nothing, under every key of a worker's batch. */
  lemma BatchFits(m: Recs, w: Recs, batch: seq<DeltaRec>)
    requires AllReady(m, false) && OnlyListDeltas(w) && FromLists(w, batch)
    ensures forall k :: k in KeysIn(batch) ==> ListOk(m, k)
  {
    hide IsDelta, ListOk, KeysIn, IsList;
    forall k | k in KeysIn(batch) ensures ListOk(m, k) {
      var sp := BatchKey(w, batch, k);
      assert Ready(m, sp, false);
    }
  }

  /** Folding in a worker's batch merges its lists into main's. */
  lemma FoldingMerges(m: Recs, m2: Recs, w: Recs, batch: seq<DeltaRec>)
    requires AllReady(m, false) && NoDeltas(m) && OnlyListDeltas(w) && FromLists(w, batch) && Folded(m, m2, batch)
    requires forall k, op: KvOp :: OpOfKey(OpPrefix(op) + k) == op && !op.OpSet? ==> Sent(batch, k, op) == Items(w, OpPrefix(op) + k)
    ensures Merged(m, m2, w) && AllReady(m2, false) && NoDeltas(m2)
  {
    hide IsDelta, OpOfKey, ListOk, KeysIn, Items, Sent, IsList, FromLists, OnlyListDeltas, OnlyAt;
    forall sp | IsList(sp)
      ensures Cur(m2, sp) == (Cur(m, sp) + Plus(w, sp)) - Minus(w, sp) && Ready(m2, sp, false)
    {
      var k := StoreKey(sp);
      ListIsEntity(sp);
      DeltaKey(sp, OpPlus);
      DeltaKey(sp, OpMinus);
      assert Sent(batch, k, OpPlus) == Plus(w, sp) && Sent(batch, k, OpMinus) == Minus(w, sp);
      assert Ready(m, sp, false);
      if k !in KeysIn(batch) {
        AtOther(m, m2, KeysIn(batch), k);
        NotInKeys(batch, k, OpPlus);
        NotInKeys(batch, k, OpMinus);
      }
    }
    forall k | k in m2 ensures !IsDelta(k) {
      if k in KeysIn(batch) {
        var sp := BatchKey(w, batch, k);
      } else {
        AtOther(m, m2, KeysIn(batch), k);
      }
    }
  }

  /** Main's state within a round: what was folded in so far. */
  ghost predicate Rounding(base: Recs, ms: seq<Recs>, ws: seq<Recs>, m: Recs, kinds: KeySpec -> KeySpec) {
    && MergeRun(ms, ws) && ms[0] == base && ms[|ws|] == m && AllReady(m, false) && NoDeltas(m)
    && forall i :: 0 <= i < |ws| ==> GoodWorker(ws[i], kinds)
  }

  lemma RoundStarts(base: Recs, kinds: KeySpec -> KeySpec)
    requires GoodMain(base, kinds)
    ensures Rounding(base, [base], [], base, kinds)
  {
    hide Symmetric, Typed, AllReady, NoDeltas;
  }

  lemma RoundStep(base: Recs, ms: seq<Recs>, ws: seq<Recs>, m: Recs, kinds: KeySpec -> KeySpec, w: Recs, m2: Recs, es: seq<Recs>, reqs: seq<Request>)
    requires GoodMain(base, kinds) && Rounding(base, ms, ws, m, kinds) && WorkerRun(es, reqs, kinds, base, w) && GoodWorker(w, kinds)
    requires Merged(m, m2, w) && AllReady(m2, false) && NoDeltas(m2)
    ensures Rounding(base, ms + [m2], ws + [w], m2, kinds)
  {
    hide Symmetric, Typed, AllReady, NoDeltas, Merged, Forked, SetOn, GoodCall, World, OnlyListDeltas;
    ForkIsFresh(base, kinds);
    WorkerIs(base, kinds);
    RunIsForked(es, CallsOf(reqs), kinds, |reqs|);
    forall i | 0 <= i < |ws| + 1
      ensures Forked((ws + [w])[i], (ms + [m2])[0]) && Merged((ms + [m2])[i], (ms + [m2])[i + 1], (ws + [w])[i])
    {
      if i < |ws| { assert Forked(ws[i], ms[0]) && Merged(ms[i], ms[i + 1], ws[i]); }
    }
  }

  /** After the last worker: every list is the base with all additions and without all removals, and the relation is
      symmetric again. */
  lemma RoundEnds(base: Recs, ms: seq<Recs>, ws: seq<Recs>, m: Recs, kinds: KeySpec -> KeySpec)
    requires GoodMain(base, kinds) && Rounding(base, ms, ws, m, kinds)
    ensures GoodMain(m, kinds)
    ensures forall sp :: IsList(sp) ==> Cur(m, sp) == (Cur(base, sp) + AllPlus(ws, sp)) - AllMinus(ws, sp)
  {
    hide AllReady, NoDeltas, MergeRun, IsList, Cur, AllPlus, AllMinus, OnlyListDeltas, Conforms, Symmetric;
    forall sp | IsList(sp) ensures Cur(m, sp) == (Cur(base, sp) + AllPlus(ws, sp)) - AllMinus(ws, sp) {
      MergeConverges(ms, ws, |ws|, sp);
      assert ws[..|ws|] == ws;
    }
    MergedIsSymmetric(ms, ws);
    forall g, x | IsList(g) && g.core == GROUP_MEMBERS && x in Cur(m, g) ensures Conforms(kinds(g), x) {
      MergedTyped(base, ws, kinds, g, x);
    }
  }

  lemma MergedTyped(base: Recs, ws: seq<Recs>, kinds: KeySpec -> KeySpec, g: KeySpec, x: string)
    requires Typed(base, kinds) && (forall i :: 0 <= i < |ws| ==> GoodWorker(ws[i], kinds))
    requires IsList(g) && g.core == GROUP_MEMBERS && x in Cur(base, g) + AllPlus(ws, g)
    ensures Conforms(kinds(g), x)
  {
    hide IsList, Cur, Plus, Minus, OnlyListDeltas, Conforms, Symmetric, ListOk, NotBare;
    if x !in Cur(base, g) {
      var i :| 0 <= i < |ws| && x in Plus(ws[i], g);
      assert GoodWorker(ws[i], kinds);
      assert Ready(ws[i], g, true);
    }
  }

  /** The messages of a round: what each worker exports, folded into main one after the other. */
  ghost predicate Messages(ms: seq<Recs>, ws: seq<Recs>, batches: seq<seq<DeltaRec>>) {
    && |ms| == |ws| + 1 && |batches| == |ws|
    && forall i :: 0 <= i < |ws| ==> (FromLists(ws[i], batches[i]) && Folded(ms[i], ms[i + 1], batches[i])
                                   && Kept(ms[i], ms[i + 1], batches[i], |batches[i]|))
  }

  ghost predicate AllIntact(ms: seq<Recs>, batches: seq<seq<DeltaRec>>) {
    forall i :: 0 <= i < |batches| && i < |ms| ==> Intact(ms[i], batches[i])
  }

  lemma NoMessages(m: Recs)
    ensures Messages([m], [], []) && AllIntact([m], [])
  {
  }

  lemma MoreMessages(ms: seq<Recs>, ws: seq<Recs>, batches: seq<seq<DeltaRec>>, w: Recs, batch: seq<DeltaRec>, m: Recs)
    requires Messages(ms, ws, batches) && FromLists(w, batch) && Folded(ms[|ws|], m, batch) && Kept(ms[|ws|], m, batch, |batch|)
    ensures Messages(ms + [m], ws + [w], batches + [batch])
    ensures AllIntact(ms + [m], batches + [batch]) <==> AllIntact(ms, batches) && Intact(ms[|ws|], batch)
  {
    hide FromLists, Folded, Intact, Kept;
    var ms', bs' := ms + [m], batches + [batch];
    assert bs'[|ws|] == batch && ms'[|ws|] == ms[|ws|];
    assert forall i :: 0 <= i < |ws| ==> bs'[i] == batches[i] && ms'[i] == ms[i];
  }

  /** Any number of workers fork from the main store, each runs its calls, and main folds in what they export. The main
      store is good for the next round. `intact` tells whether every step of every message was handed its specification. */
  method Round(main: KvStore, jobs: seq<seq<Request>>, ghost kinds: KeySpec -> KeySpec)
    returns (intact: bool, ghost ms: seq<Recs>, ghost ws: seq<Recs>, ghost runs: seq<seq<Recs>>, ghost batches: seq<seq<DeltaRec>>)
    requires main.rollbackBuf.None? && GoodMain(main.recs, kinds) && forall i :: 0 <= i < |jobs| ==> GoodJob(jobs[i], kinds)
    modifies main
    ensures main.rollbackBuf.None? && GoodMain(main.recs, kinds)
    ensures |ws| == |runs| == |jobs| && forall i :: 0 <= i < |jobs| ==> WorkerRun(runs[i], jobs[i], kinds, old(main.recs), ws[i])
    ensures forall sp :: IsList(sp) ==> Cur(main.recs, sp) == (old(Cur(main.recs, sp)) + AllPlus(ws, sp)) - AllMinus(ws, sp)
    ensures Messages(ms, ws, batches) && ms[0] == old(main.recs) && ms[|jobs|] == main.recs
    ensures intact <==> AllIntact(ms, batches)
  {
    hide *;
    var base := main.recs;
    intact, ms, ws, runs, batches := true, [base], [], [], [];
    RoundStarts(base, kinds);
    NoMessages(base);
    for i := 0 to |jobs|
      invariant main.rollbackBuf.None? && Rounding(base, ms, ws, main.recs, kinds)
      invariant Messages(ms, ws, batches) && |ms| == i + 1 && ms[0] == base && ms[i] == main.recs && (intact <==> AllIntact(ms, batches))
      invariant |ws| == |runs| == i && forall j :: 0 <= j < i ==> WorkerRun(runs[j], jobs[j], kinds, base, ws[j])
    {
      var w;
      ghost var es;
      w, es := Worker(base, jobs[i], kinds);
      ghost var m, e := main.recs, w.recs;
      WorkerIs(e, kinds);
      WorkerExports(e, kinds);
      RoundingIs(base, ms, ws, m, kinds);
      var batch := ExportDeltas(w.recs);
      FromListsIntro(e, batch);
      BatchFits(m, e, batch);
      var whole := SyncMain(main, batch);
      intact := intact && whole;
      AllIsSent(e, batch);
      FoldingMerges(m, main.recs, e, batch);
      RoundStep(base, ms, ws, m, kinds, e, main.recs, es, jobs[i]);
      MoreMessages(ms, ws, batches, e, batch, main.recs);
      ms, ws, runs, batches := ms + [main.recs], ws + [e], runs + [es], batches + [batch];
    }
    RoundEnds(base, ms, ws, main.recs, kinds);
  }

  lemma RoundingIs(base: Recs, ms: seq<Recs>, ws: seq<Recs>, m: Recs, kinds: KeySpec -> KeySpec)
    requires Rounding(base, ms, ws, m, kinds)
    ensures AllReady(m, false) && NoDeltas(m)
  {
  }

  lemma FromListsIntro(w: Recs, batch: seq<DeltaRec>)
    requires forall i :: 0 <= i < |batch| ==> Stored(w, batch[i])
    ensures FromLists(w, batch)
  {
    hide Stored;
  }

  /** A worker sends all of its lists. */
  lemma AllIsSent(w: Recs, batch: seq<DeltaRec>)
    requires AllMarked(w)
    requires forall k, op: KvOp :: OpOfKey(OpPrefix(op) + k) == op && !op.OpSet? ==>
      Sent(batch, k, op) == if IsMarked(w, OpPrefix(op) + k) then Items(w, OpPrefix(op) + k) else {}
    ensures forall k, op: KvOp :: OpOfKey(OpPrefix(op) + k) == op && !op.OpSet? ==> Sent(batch, k, op) == Items(w, OpPrefix(op) + k)
  {
    hide Sent, OpOfKey, OpPrefix, IsMarked;
    forall k, op: KvOp | OpOfKey(OpPrefix(op) + k) == op && !op.OpSet? ensures Sent(batch, k, op) == Items(w, OpPrefix(op) + k) {
      var f := OpPrefix(op) + k;
      IsDeltaIs(f);
      EmptyAscends();
      if f in w { assert IsMarked(w, f); } else { assert CellsAt(w, f) == []; }
    }
  }
}
