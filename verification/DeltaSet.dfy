/** Setting a list: the step itself, its cumulative lists, and the mirrored lists of the relatives. */
module DeltaSet {
  import opened BPTypes
  import opened CStrings
  import opened KvStore
  import KvRuns
  import opened Keys
  import opened SortedVec
  import opened DeltaStep
  import opened DeltaAbs
  import opened DeltaView

  /** The map a transaction leads to: its records without the keys it will unset. */
  ghost function Pending(s: Store): Recs {
    s.recs - (set k | k in s.unsets)
  }

  /** Committing yields exactly that map. */
  lemma CommitIsPending(s: Store)
    requires s.log.Some?
    ensures End(s, false).recs == Pending(s)
  {
    KvRuns.RemoveAllRecs(s, s.unsets);
    RemoveAllKeeps(s, s.unsets);
    KvRuns.RetireAllKeeps(RemoveAll(s, s.unsets), s.log.value);
  }

  ghost predicate Untied(s: Store, ks: set<string>) {
    forall k :: k in ks ==> k !in s.unsets
  }

  /** Between calls of the engine: a transaction is open, and new pending unsets are only under `ks`. */
  ghost predicate Going(s: Store, s2: Store, ks: set<string>) {
    s2.log.Some? && forall k :: k in s2.unsets ==> k in s.unsets || k in ks
  }

  lemma GoingTrans(s: Store, s1: Store, s2: Store, ks: set<string>, ls: set<string>)
    requires Going(s, s1, ks) && Going(s1, s2, ls)
    ensures Going(s, s2, ks + ls)
  {
  }

  /** A vector set inside a transaction. */
  method PutVector(kvs: KvStore, key: string, cells: seq<string>)
    requires key != [] && kvs.rollbackBuf.Some? && Canonical(key) !in kvs.unsetBuf
    modifies kvs
    ensures Going(old(kvs.State()), kvs.State(), {})
    ensures ListAt(Pending(kvs.State()), Canonical(key), cells)
    ensures OnlyAt(Pending(old(kvs.State())), Pending(kvs.State()), {Canonical(key)})
  {
    ghost var s := kvs.State();
    var r, stored, out := kvs.SetValue(key, true, cells, None, None, NoFault);
    PutMeans(s, key, cells, out);
  }

  ghost predicate ListAt(e: Recs, k: string, cells: seq<string>) {
    k in e && e[k].isVector && e[k].cells == cells
  }

  lemma PutMeans(s: Store, key: string, cells: seq<string>, out: Outcome)
    requires s.log.Some? && Canonical(key) !in s.unsets && key != []
    requires Explains(out, s, key, true, cells, None, NoFault)
    ensures var t := After(s, Canonical(key), None, out);
      && Going(s, t, {}) && ListAt(Pending(t), Canonical(key), cells)
      && OnlyAt(Pending(s), Pending(t), {Canonical(key)})
  {
    hide Canonical;
    KvRuns.AfterInside(s, Canonical(key), None, out);
  }

  /** An unset inside a transaction. */
  method DropRecord(kvs: KvStore, key: string)
    requires key != [] && kvs.rollbackBuf.Some?
    modifies kvs
    ensures Going(old(kvs.State()), kvs.State(), {Canonical(key)})
    ensures Canonical(key) !in Pending(kvs.State())
    ensures OnlyAt(Pending(old(kvs.State())), Pending(kvs.State()), {Canonical(key)})
  {
    var r := kvs.UnsetValue(key, None, false);
  }

  /** ubr.c _kv_cb_delta_step under sid_kvs_set: the new list is stored, and the step's lists are returned. */
  method StepAndStore(kvs: KvStore, key: string, op: KvOp, newv: seq<string>)
    returns (r: int, plus: Option<seq<string>>, minus: Option<seq<string>>)
    requires key != [] && kvs.rollbackBuf.Some? && Untied(kvs.State(), {Canonical(key)})
    requires |newv| >= HEADER && Ascending(Data(newv)) && ListOk(Pending(kvs.State()), Canonical(key))
    modifies kvs
    ensures r == 0 && Going(old(kvs.State()), kvs.State(), {})
    ensures OnlyAt(Pending(old(kvs.State())), Pending(kvs.State()), {Canonical(key)})
    ensures ListOk(Pending(kvs.State()), Canonical(key)) && HeaderAt(Pending(kvs.State()), Canonical(key), newv[..HEADER])
    ensures Items(Pending(kvs.State()), Canonical(key)) ==
            FinalSet(op, Items(Pending(old(kvs.State())), Canonical(key)), Elems(Data(newv)))
    ensures StepLists(plus, minus, op, Items(Pending(old(kvs.State())), Canonical(key)), Elems(Data(newv)))
  {
    ghost var s := kvs.State();
    ghost var k := Canonical(key);
    var was := kvs.GetValue(key);
    var oldv := if was.Some? then was.value.cells else [];
    ReadsPending(s, k, oldv);
    var final;
    r, plus, minus, final := StepCalc(op, oldv, newv);
    StepMeans(op, oldv, newv, plus, minus, final);
    PutVector(kvs, key, final.value);
    assert CellsAt(Pending(kvs.State()), k) == final.value;
  }

  /** What a step returns: its lists, missing when empty. */
  ghost predicate StepLists(plus: Option<seq<string>>, minus: Option<seq<string>>, op: KvOp, was: set<string>, items: set<string>) {
    && VectorOk(Cells0(plus)) && VectorOk(Cells0(minus))
    && (plus.Some? ==> |plus.value| > HEADER) && (minus.Some? ==> |minus.value| > HEADER)
    && Ascending(Data(Cells0(plus))) && Ascending(Data(Cells0(minus)))
    && Elems(Data(Cells0(plus))) == PlusSet(op, was, items)
    && Elems(Data(Cells0(minus))) == MinusSet(op, was, items)
  }

  lemma ReadsPending(s: Store, k: string, cells: seq<string>)
    requires k !in s.unsets && cells == if k in s.recs then s.recs[k].cells else []
    ensures CellsAt(Pending(s), k) == cells
  {
  }

  lemma StepMeans(op: KvOp, oldv: seq<string>, newv: seq<string>,
                  plus: Option<seq<string>>, minus: Option<seq<string>>, final: Option<seq<string>>)
    requires |newv| >= HEADER && VectorOk(oldv) && Ascending(Data(oldv)) && Ascending(Data(newv))
    requires var lists := Merge(op, Data(oldv), Data(newv));
      && plus == (if lists.plus == [] then None else Some(Header(newv) + lists.plus))
      && minus == (if lists.minus == [] then None else Some(Header(newv) + lists.minus))
      && final == Some(Header(newv) + lists.final)
    ensures StepLists(plus, minus, op, Elems(Data(oldv)), Elems(Data(newv)))
    ensures VectorOk(final.value) && Ascending(Data(final.value))
    ensures Elems(Data(final.value)) == FinalSet(op, Elems(Data(oldv)), Elems(Data(newv)))
  {
    hide Merge, Ascending, PlusSet, MinusSet, FinalSet;
    var lists := Merge(op, Data(oldv), Data(newv));
    MergeMeans(op, Data(oldv), Data(newv));
    DataOfVector(Header(newv), lists.plus);
    DataOfVector(Header(newv), lists.minus);
    DataOfVector(Header(newv), lists.final);
    EmptyAscends();
  }

  lemma EmptyAscends()
    ensures Ascending(Data([])) && Elems(Data([])) == {} && Elems([]) == {}
  {
  }

  lemma DataOfVector(h: seq<string>, l: seq<string>)
    requires |h| == HEADER
    ensures Data(h + l) == l
  {
  }

  /** The specification of the relative an item names: the item's device or identifier part put into `rel`. */
  function Mirror(rel: KeySpec, item: string): KeySpec {
    var part := KeyPart(item, if rel.ns.NsDev? then PART_NS_PART else PART_ID, PART_COUNT);
    if part.None? then rel else if rel.ns.NsDev? then rel.(nsPart := part.value) else rel.(id := part.value)
  }

  /** Items are composed prefixes of relatives of the kind `rel` describes. */
  ghost predicate Conforms(rel: KeySpec, item: string) {
    && Clean(Mirror(rel, item)) && ComposeKeyPrefix(Mirror(rel, item)) == item
    && KeyPart(item, PART_NS_PART, PART_COUNT).Some? && KeyPart(item, PART_ID, PART_COUNT).Some?
  }

  lemma MirrorsApart(rel: KeySpec, x: string, y: string)
    requires Conforms(rel, x) && Conforms(rel, y) && x != y
    ensures Keys3(Mirror(rel, x)) !! Keys3(Mirror(rel, y))
  {
    KeysApart(Mirror(rel, x), Mirror(rel, y));
  }

  ghost function MirrorKeys(rel: KeySpec, xs: set<string>): set<string> {
    set x, k | x in xs && k in Keys3(Mirror(rel, x)) :: k
  }

  /** Every relative named in `xs` made its own step with the one item `prefix`. */
  ghost predicate MirrorsStepped(e: Recs, e2: Recs, rel: KeySpec, dir: KvOp, prefix: string, xs: set<string>, h: seq<string>, track: bool) {
    forall x :: x in xs ==> Stepped(e, e2, Mirror(rel, x), dir, {prefix}, h, track)
  }

  /** The relatives named in `xs` can be stepped. */
  ghost predicate MirrorsReady(s: Store, rel: KeySpec, xs: set<string>, track: bool) {
    forall x :: x in xs ==> Conforms(rel, x) && Ready(Pending(s), Mirror(rel, x), track) && Untied(s, Keys3(Mirror(rel, x)))
  }

  /** The two sides of a relation use different cores, so a list is never its own relative. */
  predicate TwoSides(cur: KeySpec, rel: KeySpec) {
    && Clean(cur) && Clean(rel) && cur.op == OpSet && rel.op == OpSet && cur.core != rel.core
    && (rel.ns.NsDev? || rel.ns.NsMod?)
  }

  lemma MirrorIsOther(cur: KeySpec, rel: KeySpec, xs: set<string>)
    requires TwoSides(cur, rel) && forall x :: x in xs ==> Conforms(rel, x)
    ensures Keys3(cur) !! MirrorKeys(rel, xs)
  {
    forall x | x in xs ensures Keys3(cur) !! Keys3(Mirror(rel, x)) { KeysApart(cur, Mirror(rel, x)); }
  }

  lemma SteppedLater(e: Recs, e1: Recs, e2: Recs, ks: set<string>, sp: KeySpec, op: KvOp, items: set<string>, h: seq<string>, track: bool)
    requires Stepped(e, e1, sp, op, items, h, track) && OnlyAt(e1, e2, ks) && Keys3(sp) !! ks
    ensures Stepped(e, e2, sp, op, items, h, track)
  {
    Untouched(e1, e2, ks, sp);
  }

  lemma SteppedFrom(e: Recs, e1: Recs, e2: Recs, ks: set<string>, sp: KeySpec, op: KvOp, items: set<string>, h: seq<string>, track: bool)
    requires OnlyAt(e, e1, ks) && Keys3(sp) !! ks && Stepped(e1, e2, sp, op, items, h, track)
    ensures Stepped(e, e2, sp, op, items, h, track)
  {
    Untouched(e, e1, ks, sp);
  }

  lemma MirrorKeysOf(rel: KeySpec, xs: set<string>, x: string)
    ensures x in xs ==> Keys3(Mirror(rel, x)) <= MirrorKeys(rel, xs)
    ensures MirrorKeys(rel, xs + {x}) == MirrorKeys(rel, xs) + Keys3(Mirror(rel, x))
  {
  }

  /** One more relative. */
  lemma MirrorsGrow(e: Recs, e1: Recs, e2: Recs, own: set<string>, rel: KeySpec, dir: KvOp, prefix: string,
                    xs: set<string>, x: string, h: seq<string>, track: bool)
    requires (forall y :: y in xs ==> Conforms(rel, y)) && Conforms(rel, x) && x !in xs
    requires MirrorsStepped(e, e1, rel, dir, prefix, xs, h, track) && OnlyAt(e, e1, own + MirrorKeys(rel, xs))
    requires own !! Keys3(Mirror(rel, x))
    requires Stepped(e1, e2, Mirror(rel, x), dir, {prefix}, h, track) && OnlyAt(e1, e2, Keys3(Mirror(rel, x)))
    ensures MirrorsStepped(e, e2, rel, dir, prefix, xs + {x}, h, track)
    ensures OnlyAt(e, e2, own + MirrorKeys(rel, xs + {x}))
  {
    hide Stepped, OnlyAt, Conforms, Keys3;
    MirrorKeysOf(rel, xs, x);
    OnlyAtTrans(e, e1, e2, own + MirrorKeys(rel, xs), Keys3(Mirror(rel, x)));
    assert own + MirrorKeys(rel, xs) + Keys3(Mirror(rel, x)) == own + MirrorKeys(rel, xs + {x});
    MirrorFree(rel, xs, x);
    SteppedFrom(e, e1, e2, own + MirrorKeys(rel, xs), Mirror(rel, x), dir, {prefix}, h, track);
    forall y | y in xs ensures Stepped(e, e2, Mirror(rel, y), dir, {prefix}, h, track) {
      MirrorsApart(rel, y, x);
      SteppedLater(e, e1, e2, Keys3(Mirror(rel, x)), Mirror(rel, y), dir, {prefix}, h, track);
    }
  }

  lemma MirrorFree(rel: KeySpec, xs: set<string>, x: string)
    requires (forall y :: y in xs ==> Conforms(rel, y)) && Conforms(rel, x) && x !in xs
    ensures Keys3(Mirror(rel, x)) !! MirrorKeys(rel, xs)
  {
    hide Conforms, Keys3;
    forall y | y in xs ensures Keys3(Mirror(rel, x)) !! Keys3(Mirror(rel, y)) { MirrorsApart(rel, x, y); }
  }

  /** The first part of ubr.c _delta_update: the absolute vector is stored, or its record unset when it is a bare header. */
  method StoreAbs(kvs: KvStore, sp: KeySpec, dir: KvOp, absVec: seq<string>)
    requires kvs.rollbackBuf.Some? && Untied(kvs.State(), {KeyOf(sp, dir)}) && |absVec| >= HEADER && Ascending(Data(absVec))
    modifies kvs
    ensures Going(old(kvs.State()), kvs.State(), {KeyOf(sp, dir)})
    ensures OnlyAt(Pending(old(kvs.State())), Pending(kvs.State()), {KeyOf(sp, dir)})
    ensures AbsStored(Pending(kvs.State()), KeyOf(sp, dir), absVec)
  {
    StoreKeyIsJoin(sp.(op := dir));
    var marked := if SYNC in absVec[FLAGS] then absVec else absVec[FLAGS := absVec[FLAGS] + [SYNC]];
    assert Data(marked) == Data(absVec);
    assert marked[..HEADER] == DeltaView.Marked(absVec[..HEADER]);
    if |absVec| > HEADER {
      PutVector(kvs, ComposeKey(sp.(op := dir)), marked);
    } else {
      DropRecord(kvs, ComposeKey(sp.(op := dir)));
      assert Data(absVec) == [];
    }
    EmptyAscends();
  }

  /** The record of an absolute list: the list under the marked header, and no record for an empty list. */
  ghost predicate AbsStored(e: Recs, k: string, absVec: seq<string>)
    requires |absVec| >= HEADER
  {
    && ListOk(e, k) && Items(e, k) == Elems(Data(absVec)) && NotBare(e, k)
    && (k in e <==> Data(absVec) != []) && NewOrGone(e, k, DeltaView.Marked(absVec[..HEADER]))
  }

  /** The state of the mirroring loop: the relatives of `done` are stepped. */
  ghost predicate Mirroring(s: Store, s2: Store, own: set<string>, rel: KeySpec, dir: KvOp, prefix: string,
                            done: set<string>, h: seq<string>, track: bool) {
    && Going(s, s2, own + MirrorKeys(rel, done))
    && OnlyAt(Pending(s), Pending(s2), own + MirrorKeys(rel, done))
    && MirrorsStepped(Pending(s), Pending(s2), rel, dir, prefix, done, h, track)
  }

  /** The records a set may change. */
  ghost function SetKeys(e: Recs, cur: KeySpec, rel: KeySpec, op: KvOp, items: set<string>, withRel: bool): set<string> {
    Keys3(cur) + if withRel then MirrorKeys(rel, Moved(e, cur, op, items)) else {}
  }

  /** What a set of a list does to the records: the list makes its step, every relative named by an added or removed item
      makes the mirrored step, and nothing else changes. */
  ghost predicate SetOn(e: Recs, e2: Recs, cur: KeySpec, rel: KeySpec, op: KvOp, items: set<string>, h: seq<string>, withRel: bool, track: bool) {
    && OnlyAt(e, e2, SetKeys(e, cur, rel, op, items, withRel))
    && Stepped(e, e2, cur, op, items, h, track)
    && (withRel ==>
          && MirrorsStepped(e, e2, rel, OpPlus, ComposeKeyPrefix(cur), PlusSet(op, Cur(e, cur), items), ForRelatives(h), track)
          && MirrorsStepped(e, e2, rel, OpMinus, ComposeKeyPrefix(cur), MinusSet(op, Cur(e, cur), items), ForRelatives(h), track))
  }

  ghost predicate ListSet(s: Store, s2: Store, cur: KeySpec, rel: KeySpec, op: KvOp, items: set<string>, h: seq<string>, withRel: bool, track: bool) {
    && Going(s, s2, SetKeys(Pending(s), cur, rel, op, items, withRel))
    && SetOn(Pending(s), Pending(s2), cur, rel, op, items, h, withRel, track)
  }

  lemma NextReady(s: Store, s1: Store, own: set<string>, rel: KeySpec, dir: KvOp, prefix: string,
                  xs: set<string>, done: set<string>, x: string, h: seq<string>, track: bool)
    requires Mirroring(s, s1, own, rel, dir, prefix, done, h, track) && done <= xs && x in xs && x !in done
    requires MirrorsReady(s, rel, xs, track) && own !! MirrorKeys(rel, xs)
    ensures Ready(Pending(s1), Mirror(rel, x), track) && Untied(s1, Keys3(Mirror(rel, x))) && own !! Keys3(Mirror(rel, x))
  {
    hide Ready, OnlyAt, Keys3, Conforms;
    MirrorKeysOf(rel, xs, x);
    MirrorFree(rel, done, x);
    Untouched(Pending(s), Pending(s1), own + MirrorKeys(rel, done), Mirror(rel, x));
  }

  lemma NextDone(s: Store, s1: Store, s2: Store, own: set<string>, rel: KeySpec, dir: KvOp, prefix: string,
                 done: set<string>, x: string, h: seq<string>, track: bool, any: KeySpec)
    requires Mirroring(s, s1, own, rel, dir, prefix, done, h, track) && x !in done
    requires (forall y :: y in done ==> Conforms(rel, y)) && Conforms(rel, x) && own !! Keys3(Mirror(rel, x))
    requires ListSet(s1, s2, Mirror(rel, x), any, dir, {prefix}, h, false, track)
    ensures Mirroring(s, s2, own, rel, dir, prefix, done + {x}, h, track)
  {
    hide Stepped, OnlyAt, Keys3, Conforms, MirrorKeys, MirrorsStepped;
    assert Keys3(Mirror(rel, x)) + {} == Keys3(Mirror(rel, x));
    MirrorKeysOf(rel, done, x);
    GoingTrans(s, s1, s2, own + MirrorKeys(rel, done), Keys3(Mirror(rel, x)));
    assert own + MirrorKeys(rel, done) + Keys3(Mirror(rel, x)) == own + MirrorKeys(rel, done + {x});
    MirrorsGrow(Pending(s), Pending(s1), Pending(s2), own, rel, dir, prefix, done, x, h, track);
  }

  lemma MirrorSettable(s: Store, sp: KeySpec, rel: KeySpec, dir: KvOp, items: set<string>, track: bool)
    requires s.log.Some? && Clean(sp) && sp.op == OpSet && Untied(s, Keys3(sp)) && Ready(Pending(s), sp, track)
    ensures Settable(s, sp, rel, dir, items, false, track)
  {
  }

  /** The header cells of a relative's list: those of the set, with flags of their own. */
  method RelativesHeader(header: seq<string>, ghost x: string) returns (r: seq<string>)
    requires |header| == HEADER
    ensures r == ForRelatives(header) && |r| == HEADER && |r + [x]| >= HEADER && (r + [x])[..HEADER] == r
  {
    r := [header[0], VALUE_FLAGS_NO_SYNC, header[2], header[3]];
  }

  /** The part taken from an item, and the relative it names. */
  method RelativeOf(rel: KeySpec, item: string) returns (r: int, sp: KeySpec)
    ensures r == 0 <==> (rel.ns.NsDev? && KeyPart(item, PART_NS_PART, PART_COUNT).Some?) ||
                        (rel.ns.NsMod? && KeyPart(item, PART_ID, PART_COUNT).Some?)
    ensures r == 0 ==> sp == Mirror(rel, item)
  {
    sp := rel;
    if rel.ns.NsDev? {
      var part := GetKeyPart(item, PART_NS_PART);
      if part.None? { return -1, rel; }
      return 0, rel.(nsPart := part.value);
    } else if rel.ns.NsMod? {
      var part := GetKeyPart(item, PART_ID);
      if part.None? { return -1, rel; }
      return 0, rel.(id := part.value);
    }
    return -1, rel;
  }

  lemma SingleItem(header: seq<string>, x: string)
    requires |header| == HEADER
    ensures Data(header + [x]) == [x] && Elems([x]) == {x} && Ascending([x])
  {
  }

  /** The mirroring loop of ubr.c _delta_update. The inner sets carry no relation flag, so they do not mirror again. */
  method UpdateRelatives(kvs: KvStore, cur: KeySpec, rel: KeySpec, dir: KvOp, header: seq<string>, vec: seq<string>,
                         isSync: bool, ghost own: set<string>)
    returns (r: int)
    requires kvs.rollbackBuf.Some? && TwoSides(cur, rel) && |header| == HEADER && !dir.OpSet?
    requires |vec| >= HEADER && Ascending(Data(vec))
    requires MirrorsReady(kvs.State(), rel, Elems(Data(vec)), !isSync)
    requires own !! MirrorKeys(rel, Elems(Data(vec)))
    modifies kvs
    ensures r == 0
    ensures Mirroring(old(kvs.State()), kvs.State(), own, rel, dir, ComposeKeyPrefix(cur), Elems(Data(vec)), ForRelatives(header), !isSync)
    decreases 2
  {
    hide *;
    ghost var s := kvs.State();
    ghost var h := ForRelatives(header);
    ghost var done: set<string> := {};
    var prefix := ComposeKeyPrefix(cur);
    var relHeader := RelativesHeader(header, prefix);
    SingleItem(relHeader, prefix);
    StateLog(kvs);
    MirroringStarts(s, own, rel, dir, prefix, vec, h, !isSync);
    for i := HEADER to |vec|
      invariant done == Elems(vec[HEADER..i])
      invariant kvs.rollbackBuf.Some? && Mirroring(s, kvs.State(), own, rel, dir, prefix, done, h, !isSync)
    {
      NextItem(vec, i);
      ghost var s1 := kvs.State();
      NextReady(s, s1, own, rel, dir, prefix, Elems(Data(vec)), done, vec[i], h, !isSync);
      ItemOk(s, rel, Elems(Data(vec)), vec[i], !isSync);
      MirrorShape(cur, rel, vec[i]);
      var r1, sp := RelativeOf(rel, vec[i]);
      if r1 < 0 { return -1; }
      StateLog(kvs);
      MirrorSettable(s1, sp, cur, dir, {prefix}, !isSync);
      var r2 := DoDeltaSet(kvs, sp, cur, dir, relHeader + [prefix], false, isSync);
      DoneOk(s, rel, Elems(Data(vec)), done, !isSync);
      NextDone(s, s1, kvs.State(), own, rel, dir, prefix, done, vec[i], h, !isSync, cur);
      done := done + {vec[i]};
      OpenAgain(s, kvs.State(), own, rel, dir, prefix, done, h, !isSync);
      StateLog(kvs);
    }
    AllItems(vec);
    r := 0;
  }

  lemma MirroringStarts(s: Store, own: set<string>, rel: KeySpec, dir: KvOp, prefix: string, vec: seq<string>, h: seq<string>, track: bool)
    requires s.log.Some? && |vec| >= HEADER
    ensures Elems(vec[HEADER..HEADER]) == {} && Mirroring(s, s, own, rel, dir, prefix, {}, h, track)
  {
  }

  lemma StateLog(kvs: KvStore)
    ensures kvs.State().log == kvs.rollbackBuf
  {
  }

  lemma NextItem(vec: seq<string>, i: nat)
    requires HEADER <= i < |vec| && Ascending(Data(vec))
    ensures vec[i] in Elems(Data(vec)) && vec[i] !in Elems(vec[HEADER..i])
    ensures Elems(vec[HEADER..i]) <= Elems(Data(vec))
    ensures Elems(vec[HEADER..i + 1]) == Elems(vec[HEADER..i]) + {vec[i]}
  {
    AscendingDistinct(Data(vec));
    assert Data(vec)[i - HEADER] == vec[i];
    forall x | x in vec[HEADER..i] ensures x in Data(vec) && x != vec[i] {
      var j :| 0 <= j < |vec[HEADER..i]| && vec[HEADER..i][j] == x;
      assert Data(vec)[j] == x;
    }
    assert vec[HEADER..i + 1] == vec[HEADER..i] + [vec[i]];
  }

  lemma AllItems(vec: seq<string>)
    requires |vec| >= HEADER
    ensures vec[HEADER..|vec|] == Data(vec)
  {
  }

  lemma ItemOk(s: Store, rel: KeySpec, xs: set<string>, x: string, track: bool)
    requires MirrorsReady(s, rel, xs, track) && x in xs
    ensures Conforms(rel, x)
    ensures KeyPart(x, PART_NS_PART, PART_COUNT).Some? && KeyPart(x, PART_ID, PART_COUNT).Some?
    ensures Clean(Mirror(rel, x))
  {
  }

  lemma DoneOk(s: Store, rel: KeySpec, xs: set<string>, done: set<string>, track: bool)
    requires MirrorsReady(s, rel, xs, track) && done <= xs
    ensures forall y :: y in done ==> Conforms(rel, y)
  {
  }

  lemma MirrorShape(cur: KeySpec, rel: KeySpec, x: string)
    requires TwoSides(cur, rel)
    ensures Mirror(rel, x).op == OpSet && (rel.ns.NsDev? || rel.ns.NsMod?)
  {
  }

  lemma OpenAgain(s: Store, s2: Store, own: set<string>, rel: KeySpec, dir: KvOp, prefix: string, done: set<string>, h: seq<string>, track: bool)
    requires Mirroring(s, s2, own, rel, dir, prefix, done, h, track)
    ensures s2.log.Some?
  {
  }

  /** The relatives to step: none without the relation flag or without a list. */
  ghost function Named(vec: Option<seq<string>>, withRel: bool): set<string> {
    if withRel && vec.Some? then Elems(Data(vec.value)) else {}
  }

  /** What one direction of ubr.c _delta_update leaves under its own key. */
  ghost predicate Settled(e: Recs, e2: Recs, k: string, absVec: Option<seq<string>>, track: bool) {
    && (!track || absVec.None? ==> SameAt(e, e2, k))
    && (track && absVec.Some? ==> |absVec.value| >= HEADER && AbsStored(e2, k, absVec.value))
  }

  lemma SettledIs(e: Recs, e1: Recs, k: string, absVec: Option<seq<string>>, track: bool)
    requires !track || absVec.None? ==> SameAt(e, e1, k)
    requires track && absVec.Some? ==> |absVec.value| >= HEADER && AbsStored(e1, k, absVec.value)
    ensures Settled(e, e1, k, absVec, track)
  {
  }

  /** ubr.c _delta_update for one direction */
  method DeltaUpdate(kvs: KvStore, cur: KeySpec, rel: KeySpec, dir: KvOp, header: seq<string>, vec: Option<seq<string>>,
                     absVec: Option<seq<string>>, withRel: bool, isSync: bool)
    returns (r: int)
    requires kvs.rollbackBuf.Some? && |header| == HEADER && !dir.OpSet? && Untied(kvs.State(), {KeyOf(cur, dir)})
    requires absVec.Some? ==> |absVec.value| >= HEADER && Ascending(Data(absVec.value))
    requires vec.Some? ==> |vec.value| >= HEADER && Ascending(Data(vec.value)) && (isSync || absVec.Some?)
    requires withRel ==> TwoSides(cur, rel)
    requires MirrorsReady(kvs.State(), rel, Named(vec, withRel), !isSync)
    requires {KeyOf(cur, dir)} !! MirrorKeys(rel, Named(vec, withRel))
    modifies kvs
    ensures r == 0
    ensures Mirroring(old(kvs.State()), kvs.State(), {KeyOf(cur, dir)}, rel, dir, ComposeKeyPrefix(cur), Named(vec, withRel), ForRelatives(header), !isSync)
    ensures Settled(Pending(old(kvs.State())), Pending(kvs.State()), KeyOf(cur, dir), absVec, !isSync)
    decreases if withRel then 3 else 0
  {
    hide *;
    ghost var s := kvs.State();
    ghost var h := ForRelatives(header);
    ghost var k := KeyOf(cur, dir);
    ghost var prefix := ComposeKeyPrefix(cur);
    NamedIs(vec, withRel);
    StateLog(kvs);
    NothingMirrored(s, k, rel, dir, prefix, h, !isSync);
    if !isSync {
      if absVec.None? {
        SettledIs(Pending(s), Pending(s), k, absVec, !isSync);
        return 0;
      }
      StoreAbs(kvs, cur, dir, absVec.value);
    }
    ghost var s1 := kvs.State();
    SettledIs(Pending(s), Pending(s1), k, absVec, !isSync);
    StateLog(kvs);
    if vec.None? || !withRel {
      StoredOnly(s, s1, k, rel, dir, prefix, h, !isSync);
      return 0;
    }
    StillReady(s, s1, k, rel, Named(vec, withRel), !isSync);
    r := UpdateRelatives(kvs, cur, rel, dir, header, vec.value, isSync, {});
    AfterMirrors(s, s1, kvs.State(), k, rel, dir, prefix, Named(vec, withRel), absVec, h, !isSync);
  }

  lemma NamedIs(vec: Option<seq<string>>, withRel: bool)
    ensures Named(vec, withRel) == if withRel && vec.Some? then Elems(Data(vec.value)) else {}
  {
  }

  lemma NothingMirrored(s: Store, k: string, rel: KeySpec, dir: KvOp, prefix: string, h: seq<string>, track: bool)
    requires s.log.Some?
    ensures Mirroring(s, s, {k}, rel, dir, prefix, {}, h, track) && SameAt(Pending(s), Pending(s), k)
    ensures Going(s, s, {k}) && OnlyAt(Pending(s), Pending(s), {k})
  {
  }

  lemma StoredOnly(s: Store, s1: Store, k: string, rel: KeySpec, dir: KvOp, prefix: string, h: seq<string>, track: bool)
    requires Going(s, s1, {k}) && OnlyAt(Pending(s), Pending(s1), {k})
    ensures Mirroring(s, s1, {k}, rel, dir, prefix, {}, h, track)
  {
    assert {k} + MirrorKeys(rel, {}) == {k};
  }

  lemma StillReady(s: Store, s1: Store, k: string, rel: KeySpec, xs: set<string>, track: bool)
    requires MirrorsReady(s, rel, xs, track) && {k} !! MirrorKeys(rel, xs)
    requires Going(s, s1, {k}) && OnlyAt(Pending(s), Pending(s1), {k})
    ensures MirrorsReady(s1, rel, xs, track)
  {
    hide Ready, OnlyAt, Keys3, Conforms;
    forall x | x in xs ensures Ready(Pending(s1), Mirror(rel, x), track) && Untied(s1, Keys3(Mirror(rel, x))) {
      MirrorKeysOf(rel, xs, x);
      Untouched(Pending(s), Pending(s1), {k}, Mirror(rel, x));
    }
  }

  lemma AfterMirrors(s: Store, s1: Store, s2: Store, k: string, rel: KeySpec, dir: KvOp, prefix: string, xs: set<string>,
                     absVec: Option<seq<string>>, h: seq<string>, track: bool)
    requires Going(s, s1, {k}) && OnlyAt(Pending(s), Pending(s1), {k})
    requires {k} !! MirrorKeys(rel, xs)
    requires Mirroring(s1, s2, {}, rel, dir, prefix, xs, h, track)
    ensures Mirroring(s, s2, {k}, rel, dir, prefix, xs, h, track)
    ensures Settled(Pending(s), Pending(s1), k, absVec, track) ==> Settled(Pending(s), Pending(s2), k, absVec, track)
  {
    hide Stepped, Keys3;
    var ks := MirrorKeys(rel, xs);
    assert {} + ks == ks;
    GoingTrans(s, s1, s2, {k}, ks);
    OnlyAtTrans(Pending(s), Pending(s1), Pending(s2), {k}, ks);
    assert SameAt(Pending(s1), Pending(s2), k);
    forall x | x in xs ensures Stepped(Pending(s), Pending(s2), Mirror(rel, x), dir, {prefix}, h, track) {
      MirrorKeysOf(rel, xs, x);
      SteppedFrom(Pending(s), Pending(s1), Pending(s2), {k}, Mirror(rel, x), dir, {prefix}, h, track);
    }
  }

  /** The items a set adds or removes. */
  ghost function Moved(e: Recs, cur: KeySpec, op: KvOp, items: set<string>): set<string> {
    PlusSet(op, Cur(e, cur), items) + MinusSet(op, Cur(e, cur), items)
  }

  /** What a set needs: a clean list that can be stepped and, with the relation flag, relatives that can be stepped. */
  ghost predicate Settable(s: Store, cur: KeySpec, rel: KeySpec, op: KvOp, items: set<string>, withRel: bool, track: bool) {
    && s.log.Some? && Clean(cur) && cur.op == OpSet
    && Untied(s, Keys3(cur)) && Ready(Pending(s), cur, track)
    && (withRel ==> TwoSides(cur, rel) && MirrorsReady(s, rel, Moved(Pending(s), cur, op, items), track))
  }

  lemma SetStarts(s: Store, cur: KeySpec, rel: KeySpec, op: KvOp, items: set<string>, withRel: bool, track: bool)
    requires Settable(s, cur, rel, op, items, withRel, track)
    ensures s.log.Some? && cur.op == OpSet && KeyOf(cur, OpSet) == StoreKey(cur)
    ensures Untied(s, {StoreKey(cur)}) && ListOk(Pending(s), StoreKey(cur))
    ensures withRel ==> TwoSides(cur, rel)
    ensures ComposeKey(cur) != [] && Canonical(ComposeKey(cur)) == StoreKey(cur)
  {
    assert cur.(op := OpSet) == cur;
    StoreKeyIsJoin(cur);
  }

  /** The state after the step itself: the list is final, its cumulative lists are not yet updated. */
  ghost predicate StepState(s: Store, s1: Store, cur: KeySpec, op: KvOp, items: set<string>,
                            plus: Option<seq<string>>, minus: Option<seq<string>>, h: seq<string>) {
    && Going(s, s1, {}) && OnlyAt(Pending(s), Pending(s1), {KeyOf(cur, OpSet)})
    && ListOk(Pending(s1), KeyOf(cur, OpSet)) && Cur(Pending(s1), cur) == FinalSet(op, Cur(Pending(s), cur), items)
    && StepLists(plus, minus, op, Cur(Pending(s), cur), items)
    && HeaderAt(Pending(s1), KeyOf(cur, OpSet), h)
  }

  lemma StepDone(s: Store, s1: Store, cur: KeySpec, rel: KeySpec, op: KvOp, items: set<string>,
                 plus: Option<seq<string>>, minus: Option<seq<string>>, h: seq<string>, withRel: bool, track: bool)
    requires Settable(s, cur, rel, op, items, withRel, track)
    requires Going(s, s1, {}) && OnlyAt(Pending(s), Pending(s1), {StoreKey(cur)}) && KeyOf(cur, OpSet) == StoreKey(cur)
    requires ListOk(Pending(s1), StoreKey(cur)) && HeaderAt(Pending(s1), StoreKey(cur), h)
    requires Items(Pending(s1), StoreKey(cur)) == FinalSet(op, Items(Pending(s), StoreKey(cur)), items)
    requires StepLists(plus, minus, op, Items(Pending(s), StoreKey(cur)), items)
    ensures StepState(s, s1, cur, op, items, plus, minus, h)
    ensures Untied(s1, Keys3(cur)) && StepLists(plus, minus, op, Cur(Pending(s), cur), items)
    ensures CellsAt(Pending(s1), KeyOf(cur, OpPlus)) == CellsAt(Pending(s), KeyOf(cur, OpPlus))
    ensures CellsAt(Pending(s1), KeyOf(cur, OpMinus)) == CellsAt(Pending(s), KeyOf(cur, OpMinus))
    ensures track ==> Tracked(Pending(s), cur)
  {
    hide StepLists, ListOk, FinalSet, Items;
    KeysDistinct(cur);
    assert SameAt(Pending(s), Pending(s1), KeyOf(cur, OpPlus));
    assert SameAt(Pending(s), Pending(s1), KeyOf(cur, OpMinus));
  }

  lemma NamedItems(plus: Option<seq<string>>, minus: Option<seq<string>>, op: KvOp, was: set<string>, items: set<string>, withRel: bool)
    requires StepLists(plus, minus, op, was, items)
    ensures Named(plus, withRel) == if withRel then PlusSet(op, was, items) else {}
    ensures Named(minus, withRel) == if withRel then MinusSet(op, was, items) else {}
    ensures plus.Some? ==> |plus.value| >= HEADER && Ascending(Data(plus.value))
    ensures minus.Some? ==> |minus.value| >= HEADER && Ascending(Data(minus.value))
    ensures PlusSet(op, was, items) !! MinusSet(op, was, items)
  {
    EmptyAscends();
  }

  /** Relatives that are untouched so far can still be stepped. */
  lemma MirrorsStillReady(s: Store, s1: Store, ks: set<string>, rel: KeySpec, xs: set<string>, track: bool)
    requires MirrorsReady(s, rel, xs, track) && ks !! MirrorKeys(rel, xs)
    requires Going(s, s1, ks) && OnlyAt(Pending(s), Pending(s1), ks)
    ensures MirrorsReady(s1, rel, xs, track)
  {
    hide Ready, OnlyAt, Keys3, Conforms;
    forall x | x in xs ensures Ready(Pending(s1), Mirror(rel, x), track) && Untied(s1, Keys3(Mirror(rel, x))) {
      MirrorKeysOf(rel, xs, x);
      Untouched(Pending(s), Pending(s1), ks, Mirror(rel, x));
    }
  }

  lemma MirrorsFewer(s: Store, rel: KeySpec, xs: set<string>, ys: set<string>, track: bool)
    requires MirrorsReady(s, rel, xs, track) && ys <= xs
    ensures MirrorsReady(s, rel, ys, track) && MirrorKeys(rel, ys) <= MirrorKeys(rel, xs)
  {
    hide Ready, Keys3, Conforms;
  }

  lemma SetsOfMirrorsApart(s: Store, rel: KeySpec, xs: set<string>, ys: set<string>, track: bool)
    requires MirrorsReady(s, rel, xs + ys, track) && xs !! ys
    ensures MirrorKeys(rel, xs) !! MirrorKeys(rel, ys)
  {
    hide Ready, Keys3, Conforms;
    forall x, y | x in xs && y in ys ensures Keys3(Mirror(rel, x)) !! Keys3(Mirror(rel, y)) {
      assert x in xs + ys && y in xs + ys;
      MirrorsApart(rel, x, y);
    }
  }

  /** Facts about the keys of a set that do not change while it runs. */
  lemma Separate(s: Store, cur: KeySpec, rel: KeySpec, p: set<string>, m: set<string>, track: bool)
    requires TwoSides(cur, rel) && MirrorsReady(s, rel, p + m, track) && p !! m
    ensures Keys3(cur) !! MirrorKeys(rel, p) && Keys3(cur) !! MirrorKeys(rel, m) && MirrorKeys(rel, p) !! MirrorKeys(rel, m)
    ensures MirrorKeys(rel, p + m) == MirrorKeys(rel, p) + MirrorKeys(rel, m)
    ensures MirrorsReady(s, rel, p, track) && MirrorsReady(s, rel, m, track)
  {
    hide Ready, Keys3, Mirror;
    MirrorsFewer(s, rel, p + m, p, track);
    MirrorsFewer(s, rel, p + m, m, track);
    SetsOfMirrorsApart(s, rel, p, m, track);
    assert forall x :: x in p ==> Conforms(rel, x);
    assert forall x :: x in m ==> Conforms(rel, x);
    MirrorIsOther(cur, rel, p);
    MirrorIsOther(cur, rel, m);
  }

  lemma PlusReady(s: Store, s1: Store, cur: KeySpec, rel: KeySpec, op: KvOp, items: set<string>,
                  plus: Option<seq<string>>, minus: Option<seq<string>>, absPlus: Option<seq<string>>, h: seq<string>, withRel: bool, track: bool)
    requires Settable(s, cur, rel, op, items, withRel, track) && StepState(s, s1, cur, op, items, plus, minus, h)
    ensures s1.log.Some? && Untied(s1, {KeyOf(cur, OpPlus)})
    ensures plus.Some? ==> |plus.value| >= HEADER && Ascending(Data(plus.value))
    ensures MirrorsReady(s1, rel, Named(plus, withRel), track)
    ensures {KeyOf(cur, OpPlus)} !! MirrorKeys(rel, Named(plus, withRel))
  {
    hide StepLists, Ready, MirrorsReady, MirrorKeys, ListOk, OnlyAt, Named;
    var p, m := PlusSet(op, Cur(Pending(s), cur), items), MinusSet(op, Cur(Pending(s), cur), items);
    NamedItems(plus, minus, op, Cur(Pending(s), cur), items, withRel);
    if withRel {
      Separate(s, cur, rel, p, m, track);
      GoingMore(s, s1, {}, {KeyOf(cur, OpSet)});
      MirrorsStillReady(s, s1, {KeyOf(cur, OpSet)}, rel, p, track);
    } else {
      NoMirrors(s1, rel, track);
    }
  }

  lemma NoMirrors(s: Store, rel: KeySpec, track: bool)
    ensures MirrorsReady(s, rel, {}, track) && MirrorKeys(rel, {}) == {}
  {
  }

  lemma GoingMore(s: Store, s1: Store, ks: set<string>, ls: set<string>)
    requires Going(s, s1, ks) && ks <= ls
    ensures Going(s, s1, ls)
  {
  }

  lemma MinusReady(s: Store, s1: Store, s2: Store, cur: KeySpec, rel: KeySpec, op: KvOp, items: set<string>, prefix: string,
                   plus: Option<seq<string>>, minus: Option<seq<string>>, h: seq<string>, withRel: bool, track: bool)
    requires Settable(s, cur, rel, op, items, withRel, track) && StepState(s, s1, cur, op, items, plus, minus, h)
    requires Mirroring(s1, s2, {KeyOf(cur, OpPlus)}, rel, OpPlus, prefix, Named(plus, withRel), ForRelatives(h), track)
    ensures s2.log.Some? && Untied(s2, {KeyOf(cur, OpMinus)})
    ensures minus.Some? ==> |minus.value| >= HEADER && Ascending(Data(minus.value))
    ensures MirrorsReady(s2, rel, Named(minus, withRel), track)
    ensures {KeyOf(cur, OpMinus)} !! MirrorKeys(rel, Named(minus, withRel))
  {
    hide StepLists, Ready, MirrorsReady, MirrorKeys, ListOk, OnlyAt, Named, MirrorsStepped;
    var p, m := PlusSet(op, Cur(Pending(s), cur), items), MinusSet(op, Cur(Pending(s), cur), items);
    NamedItems(plus, minus, op, Cur(Pending(s), cur), items, withRel);
    KeysDistinct(cur);
    if withRel {
      Separate(s, cur, rel, p, m, track);
      GoingMore(s, s1, {}, {KeyOf(cur, OpSet)});
      MirrorsStillReady(s, s1, {KeyOf(cur, OpSet)}, rel, m, track);
      MirrorsStillReady(s1, s2, {KeyOf(cur, OpPlus)} + MirrorKeys(rel, p), rel, m, track);
    } else {
      NoMirrors(s2, rel, track);
    }
  }

  method StoredCells(kvs: KvStore, key: string) returns (cells: seq<string>)
    requires key != [] && Untied(kvs.State(), {Canonical(key)})
    ensures cells == CellsAt(Pending(kvs.State()), Canonical(key))
  {
    var v := kvs.GetValue(key);
    cells := if v.Some? then v.value.cells else [];
    ReadsPending(kvs.State(), Canonical(key), cells);
  }

  /** The absolute vectors of a step: what they hold when they exist, and that nothing changes when they do not. */
  ghost predicate AbsGood(absVec: Option<seq<string>>, stored: set<string>, opposite: set<string>, added: set<string>, removed: set<string>) {
    match absVec
    case None => PlusAfter(stored, opposite, added, removed) == stored
    case Some(v) => |v| >= HEADER && Ascending(Data(v)) && Elems(Data(v)) == PlusAfter(stored, opposite, added, removed)
  }

  /** Absolute vectors exist only after a change, with the header of the set, and are missing then only if there was no record. */
  ghost predicate AbsMade(absVec: Option<seq<string>>, h: seq<string>, moved: bool, had: bool) {
    && (!moved ==> absVec.None?)
    && (absVec.Some? ==> |absVec.value| >= HEADER && absVec.value[..HEADER] == h)
    && (moved && absVec.None? ==> !had)
  }

  /** The part of ubr.c _do_kv_delta_set that computes the absolute vectors. */
  method AbsOf(kvs: KvStore, cur: KeySpec, op: KvOp, header: seq<string>, plus: Option<seq<string>>, minus: Option<seq<string>>,
               ghost e: Recs, ghost items: set<string>)
    returns (r: int, absPlus: Option<seq<string>>, absMinus: Option<seq<string>>)
    requires Untied(kvs.State(), Keys3(cur)) && Tracked(e, cur) && |header| == HEADER
    requires CellsAt(Pending(kvs.State()), KeyOf(cur, OpPlus)) == CellsAt(e, KeyOf(cur, OpPlus))
    requires CellsAt(Pending(kvs.State()), KeyOf(cur, OpMinus)) == CellsAt(e, KeyOf(cur, OpMinus))
    requires StepLists(plus, minus, op, Cur(e, cur), items)
    ensures r == 0
    ensures AbsGood(absPlus, Plus(e, cur), Minus(e, cur), PlusSet(op, Cur(e, cur), items), MinusSet(op, Cur(e, cur), items))
    ensures AbsGood(absMinus, Minus(e, cur), Plus(e, cur), MinusSet(op, Cur(e, cur), items), PlusSet(op, Cur(e, cur), items))
    ensures (plus.Some? ==> absPlus.Some?) && (minus.Some? ==> absMinus.Some?)
    ensures var moved := PlusSet(op, Cur(e, cur), items) + MinusSet(op, Cur(e, cur), items) != {};
      AbsMade(absPlus, header, moved, KeyOf(cur, OpPlus) in e) && AbsMade(absMinus, header, moved, KeyOf(cur, OpMinus) in e)
  {
    StoreKeyIsJoin(cur.(op := OpPlus));
    StoreKeyIsJoin(cur.(op := OpMinus));
    var storedPlus := StoredCells(kvs, ComposeKey(cur.(op := OpPlus)));
    var storedMinus := StoredCells(kvs, ComposeKey(cur.(op := OpMinus)));
    hide *;
    AbsInputs(e, cur, op, items, plus, minus, storedPlus, storedMinus);
    r, absPlus, absMinus := AbsCalc(header, plus, minus, storedPlus, storedMinus);
    AbsResult(header, plus, minus, storedPlus, storedMinus, absPlus, absMinus, e, cur, op, items);
  }

  lemma AbsInputs(e: Recs, cur: KeySpec, op: KvOp, items: set<string>, plus: Option<seq<string>>, minus: Option<seq<string>>,
                  storedPlus: seq<string>, storedMinus: seq<string>)
    requires Tracked(e, cur) && StepLists(plus, minus, op, Cur(e, cur), items)
    requires storedPlus == CellsAt(e, KeyOf(cur, OpPlus)) && storedMinus == CellsAt(e, KeyOf(cur, OpMinus))
    ensures VectorOk(storedPlus) && VectorOk(storedMinus)
    ensures (plus.Some? ==> |plus.value| >= HEADER) && (minus.Some? ==> |minus.value| >= HEADER)
    ensures Ascending(Data(storedPlus)) && Ascending(Data(storedMinus))
    ensures Ascending(Data(Cells0(plus))) && Ascending(Data(Cells0(minus)))
    ensures Elems(Data(storedPlus)) !! Elems(Data(Cells0(plus))) && Elems(Data(storedMinus)) !! Elems(Data(Cells0(minus)))
    ensures Distinct(AbsList(storedPlus, Cells0(minus), Cells0(plus), storedMinus))
    ensures Distinct(AbsList(storedMinus, Cells0(plus), Cells0(minus), storedPlus))
  {
    hide Ascending, Distinct, AbsList, Data, Elems;
    StepAlgebra(op, Cur(e, cur), items);
    AbsListMeans(storedPlus, Cells0(minus), Cells0(plus), storedMinus);
    AbsListMeans(storedMinus, Cells0(plus), Cells0(minus), storedPlus);
  }

  lemma AbsResult(header: seq<string>, plus: Option<seq<string>>, minus: Option<seq<string>>,
                  storedPlus: seq<string>, storedMinus: seq<string>, absPlus: Option<seq<string>>, absMinus: Option<seq<string>>,
                  e: Recs, cur: KeySpec, op: KvOp, items: set<string>)
    requires |header| == HEADER && Tracked(e, cur) && StepLists(plus, minus, op, Cur(e, cur), items)
    requires storedPlus == CellsAt(e, KeyOf(cur, OpPlus)) && storedMinus == CellsAt(e, KeyOf(cur, OpMinus))
    requires plus.None? && minus.None? ==> absPlus == None && absMinus == None
    requires plus.Some? || minus.Some? ==>
      && absPlus == AbsVector(header, storedPlus, Cells0(minus), Cells0(plus), storedMinus)
      && absMinus == AbsVector(header, storedMinus, Cells0(plus), Cells0(minus), storedPlus)
    ensures AbsGood(absPlus, Plus(e, cur), Minus(e, cur), PlusSet(op, Cur(e, cur), items), MinusSet(op, Cur(e, cur), items))
    ensures AbsGood(absMinus, Minus(e, cur), Plus(e, cur), MinusSet(op, Cur(e, cur), items), PlusSet(op, Cur(e, cur), items))
    ensures (plus.Some? ==> absPlus.Some?) && (minus.Some? ==> absMinus.Some?)
    ensures var moved := PlusSet(op, Cur(e, cur), items) + MinusSet(op, Cur(e, cur), items) != {};
      AbsMade(absPlus, header, moved, KeyOf(cur, OpPlus) in e) && AbsMade(absMinus, header, moved, KeyOf(cur, OpMinus) in e)
  {
    hide Distinct, AbsList, Qsort, PlusSet, MinusSet, Ascending;
    AbsInputs(e, cur, op, items, plus, minus, storedPlus, storedMinus);
    AbsOne(header, storedPlus, Cells0(minus), Cells0(plus), storedMinus);
    AbsOne(header, storedMinus, Cells0(plus), Cells0(minus), storedPlus);
    EmptyAscends();
    MovedIs(plus, minus, op, Cur(e, cur), items);
  }

  lemma MovedIs(plus: Option<seq<string>>, minus: Option<seq<string>>, op: KvOp, was: set<string>, items: set<string>)
    requires StepLists(plus, minus, op, was, items)
    ensures plus.Some? || minus.Some? <==> PlusSet(op, was, items) + MinusSet(op, was, items) != {}
  {
    hide PlusSet, MinusSet, Ascending;
    EmptyAscends();
    SomeElem(Data(Cells0(plus)));
    SomeElem(Data(Cells0(minus)));
    if plus.Some? { assert Data(plus.value)[0] == plus.value[HEADER]; }
    if minus.Some? { assert Data(minus.value)[0] == minus.value[HEADER]; }
  }

  lemma AbsOne(header: seq<string>, stored: seq<string>, cancel: seq<string>, added: seq<string>, cancelled: seq<string>)
    requires |header| == HEADER
    requires Ascending(Data(stored)) && Ascending(Data(added)) && Elems(Data(stored)) !! Elems(Data(added))
    ensures AbsGood(AbsVector(header, stored, cancel, added, cancelled), Elems(Data(stored)), Elems(Data(cancelled)),
                    Elems(Data(added)), Elems(Data(cancel)))
  {
    AbsListMeans(stored, cancel, added, cancelled);
    DataOfVector(header, Qsort(AbsList(stored, cancel, added, cancelled)));
    EmptyAscends();
  }

  /** ubr.c _do_kv_delta_set with the difference flag, and with the relation flag when `withRel` holds */
  method DoDeltaSet(kvs: KvStore, cur: KeySpec, rel: KeySpec, op: KvOp, newv: seq<string>, withRel: bool, isSync: bool)
    returns (r: int)
    requires Settable(kvs.State(), cur, rel, op, Elems(Data(newv)), withRel, !isSync)
    requires |newv| >= HEADER && Ascending(Data(newv))
    modifies kvs
    ensures r == 0
    ensures ListSet(old(kvs.State()), kvs.State(), cur, rel, op, Elems(Data(newv)), newv[..HEADER], withRel, !isSync)
    decreases if withRel then 4 else 1
  {
    hide *;
    ghost var s := kvs.State();
    ghost var items := Elems(Data(newv));
    ghost var h := newv[..HEADER];
    SetStarts(s, cur, rel, op, items, withRel, !isSync);
    StateLog(kvs);
    var plus, minus;
    r, plus, minus := StepAndStore(kvs, ComposeKey(cur), op, newv);
    ghost var s1 := kvs.State();
    StepDone(s, s1, cur, rel, op, items, plus, minus, h, withRel, !isSync);
    var absPlus: Option<seq<string>>, absMinus: Option<seq<string>> := None, None;
    if !isSync {
      r, absPlus, absMinus := AbsOf(kvs, cur, op, newv[..HEADER], plus, minus, Pending(s), items);
      AbsUsable(absPlus, Plus(Pending(s), cur), Minus(Pending(s), cur), PlusSet(op, Cur(Pending(s), cur), items), MinusSet(op, Cur(Pending(s), cur), items));
      AbsUsable(absMinus, Minus(Pending(s), cur), Plus(Pending(s), cur), MinusSet(op, Cur(Pending(s), cur), items), PlusSet(op, Cur(Pending(s), cur), items));
    }
    StateLog(kvs);
    PlusReady(s, s1, cur, rel, op, items, plus, minus, absPlus, h, withRel, !isSync);
    r := DeltaUpdate(kvs, cur, rel, OpPlus, newv[..HEADER], plus, absPlus, withRel, isSync);
    ghost var s2 := kvs.State();
    MinusReady(s, s1, s2, cur, rel, op, items, ComposeKeyPrefix(cur), plus, minus, h, withRel, !isSync);
    StateLog(kvs);
    r := DeltaUpdate(kvs, cur, rel, OpMinus, newv[..HEADER], minus, absMinus, withRel, isSync);
    SetEnds(s, s1, s2, kvs.State(), cur, rel, op, items, plus, minus, absPlus, absMinus, h, withRel, !isSync);
  }

  lemma AbsUsable(absVec: Option<seq<string>>, stored: set<string>, opposite: set<string>, added: set<string>, removed: set<string>)
    requires AbsGood(absVec, stored, opposite, added, removed)
    ensures absVec.Some? ==> |absVec.value| >= HEADER && Ascending(Data(absVec.value))
  {
  }

  /** The record of one direction after both, and what it holds. */
  lemma SettledHolds(e: Recs, e2: Recs, k: string, absVec: Option<seq<string>>, opposite: set<string>, added: set<string>, removed: set<string>)
    requires Settled(e, e2, k, absVec, true) && ListOk(e, k) && AbsGood(absVec, Items(e, k), opposite, added, removed)
    ensures ListOk(e2, k) && Items(e2, k) == PlusAfter(Items(e, k), opposite, added, removed)
    ensures NotBare(e, k) ==> NotBare(e2, k)
  {
  }

  lemma SameList(e: Recs, e2: Recs, k: string)
    requires SameAt(e, e2, k)
    ensures Items(e2, k) == Items(e, k) && (ListOk(e2, k) <==> ListOk(e, k)) && (NotBare(e2, k) <==> NotBare(e, k))
  {
  }

  lemma OneRewritten(e: Recs, a: Recs, b: Recs, e2: Recs, k: string, absVec: Option<seq<string>>, h: seq<string>, moved: bool, track: bool)
    requires SameAt(e, a, k) && Settled(a, b, k, absVec, track) && SameAt(b, e2, k)
    requires track ==> AbsMade(absVec, h, moved, k in e)
    ensures if track && moved then NewOrGone(e2, k, DeltaView.Marked(h)) else SameAt(e, e2, k)
  {
    hide ListOk, Items, NotBare, DeltaView.Marked;
  }

  lemma OwnEnds(e: Recs, e1: Recs, e2: Recs, e3: Recs, cur: KeySpec, op: KvOp, items: set<string>, pk: set<string>, mk: set<string>,
                absPlus: Option<seq<string>>, absMinus: Option<seq<string>>, h: seq<string>, track: bool)
    requires Clean(cur) && Ready(e, cur, track)
    requires track ==> var moved := PlusSet(op, Cur(e, cur), items) + MinusSet(op, Cur(e, cur), items) != {};
      AbsMade(absPlus, h, moved, KeyOf(cur, OpPlus) in e) && AbsMade(absMinus, h, moved, KeyOf(cur, OpMinus) in e)
    requires HeaderAt(e1, KeyOf(cur, OpSet), h)
    requires OnlyAt(e, e1, {KeyOf(cur, OpSet)}) && ListOk(e1, KeyOf(cur, OpSet)) && Cur(e1, cur) == FinalSet(op, Cur(e, cur), items)
    requires OnlyAt(e1, e2, {KeyOf(cur, OpPlus)} + pk) && OnlyAt(e2, e3, {KeyOf(cur, OpMinus)} + mk)
    requires Keys3(cur) !! pk && Keys3(cur) !! mk
    requires Settled(e1, e2, KeyOf(cur, OpPlus), absPlus, track) && Settled(e2, e3, KeyOf(cur, OpMinus), absMinus, track)
    requires track ==> AbsGood(absPlus, Plus(e, cur), Minus(e, cur), PlusSet(op, Cur(e, cur), items), MinusSet(op, Cur(e, cur), items))
    requires track ==> AbsGood(absMinus, Minus(e, cur), Plus(e, cur), MinusSet(op, Cur(e, cur), items), PlusSet(op, Cur(e, cur), items))
    ensures Stepped(e, e3, cur, op, items, h, track)
  {
    hide Elems, AbsGood, PlusSet, MinusSet, FinalSet, Settled, ListOk, Items, NotBare, AbsMade, DeltaView.Marked;
    var ks, kp, km := KeyOf(cur, OpSet), KeyOf(cur, OpPlus), KeyOf(cur, OpMinus);
    KeysDistinct(cur);
    assert SameAt(e1, e2, ks) && SameAt(e2, e3, ks);
    assert SameAt(e, e1, kp) && SameAt(e2, e3, kp);
    assert SameAt(e, e1, km) && SameAt(e1, e2, km);
    SameList(e1, e2, ks);
    SameList(e2, e3, ks);
    SameList(e, e1, kp);
    SameList(e2, e3, kp);
    SameList(e, e1, km);
    SameList(e1, e2, km);
    var moved := PlusSet(op, Cur(e, cur), items) + MinusSet(op, Cur(e, cur), items) != {};
    OneRewritten(e, e1, e2, e3, kp, absPlus, h, moved, track);
    assert SameAt(e, e2, km);
    OneRewritten(e, e2, e3, e3, km, absMinus, h, moved, track);
    assert Rewritten(e, e3, cur, track && moved, h);
    assert HeaderAt(e3, ks, h);
    if track {
      SettledHolds(e1, e2, kp, absPlus, Minus(e, cur), PlusSet(op, Cur(e, cur), items), MinusSet(op, Cur(e, cur), items));
      SettledHolds(e2, e3, km, absMinus, Plus(e, cur), MinusSet(op, Cur(e, cur), items), PlusSet(op, Cur(e, cur), items));
      CumulativeStep(op, Cur(e, cur), Plus(e, cur), Minus(e, cur), items);
    }
  }

  lemma MirrorsEnd(s: Store, s1: Store, s2: Store, s3: Store, cur: KeySpec, rel: KeySpec, prefix: string, p: set<string>, m: set<string>, h: seq<string>, track: bool)
    requires TwoSides(cur, rel) && MirrorsReady(s, rel, p + m, track) && p !! m
    requires OnlyAt(Pending(s), Pending(s1), {KeyOf(cur, OpSet)})
    requires Mirroring(s1, s2, {KeyOf(cur, OpPlus)}, rel, OpPlus, prefix, p, h, track)
    requires Mirroring(s2, s3, {KeyOf(cur, OpMinus)}, rel, OpMinus, prefix, m, h, track)
    ensures MirrorsStepped(Pending(s), Pending(s3), rel, OpPlus, prefix, p, h, track)
    ensures MirrorsStepped(Pending(s), Pending(s3), rel, OpMinus, prefix, m, h, track)
  {
    hide Stepped, OnlyAt, Going, MirrorKeys, MirrorsReady;
    Separate(s, cur, rel, p, m, track);
    var e, e1, e2, e3 := Pending(s), Pending(s1), Pending(s2), Pending(s3);
    var ks, ps, ms := {KeyOf(cur, OpSet)}, {KeyOf(cur, OpPlus)} + MirrorKeys(rel, p), {KeyOf(cur, OpMinus)} + MirrorKeys(rel, m);
    forall x | x in p ensures Stepped(e, e3, Mirror(rel, x), OpPlus, {prefix}, h, track) {
      MirrorKeysOf(rel, p, x);
      SteppedFrom(e, e1, e2, ks, Mirror(rel, x), OpPlus, {prefix}, h, track);
      SteppedLater(e, e2, e3, ms, Mirror(rel, x), OpPlus, {prefix}, h, track);
    }
    OnlyAtTrans(e, e1, e2, ks, ps);
    forall x | x in m ensures Stepped(e, e3, Mirror(rel, x), OpMinus, {prefix}, h, track) {
      MirrorKeysOf(rel, m, x);
      SteppedFrom(e, e2, e3, ks + ps, Mirror(rel, x), OpMinus, {prefix}, h, track);
    }
  }

  lemma FramesEnd(s: Store, s1: Store, s2: Store, s3: Store, ks: set<string>, ps: set<string>, ms: set<string>, all: set<string>)
    requires Going(s, s1, {}) && Going(s1, s2, ps) && Going(s2, s3, ms)
    requires OnlyAt(Pending(s), Pending(s1), ks) && OnlyAt(Pending(s1), Pending(s2), ps) && OnlyAt(Pending(s2), Pending(s3), ms)
    requires ks + ps + ms == all
    ensures Going(s, s3, all) && OnlyAt(Pending(s), Pending(s3), all)
  {
    hide Pending, OnlyAt;
    OnlyAtTrans(Pending(s), Pending(s1), Pending(s2), ks, ps);
    OnlyAtTrans(Pending(s), Pending(s2), Pending(s3), ks + ps, ms);
  }

  lemma SetEnds(s: Store, s1: Store, s2: Store, s3: Store, cur: KeySpec, rel: KeySpec, op: KvOp, items: set<string>,
                plus: Option<seq<string>>, minus: Option<seq<string>>, absPlus: Option<seq<string>>, absMinus: Option<seq<string>>,
                h: seq<string>, withRel: bool, track: bool)
    requires Settable(s, cur, rel, op, items, withRel, track) && StepState(s, s1, cur, op, items, plus, minus, h)
    requires Mirroring(s1, s2, {KeyOf(cur, OpPlus)}, rel, OpPlus, ComposeKeyPrefix(cur), Named(plus, withRel), ForRelatives(h), track)
    requires Mirroring(s2, s3, {KeyOf(cur, OpMinus)}, rel, OpMinus, ComposeKeyPrefix(cur), Named(minus, withRel), ForRelatives(h), track)
    requires Settled(Pending(s1), Pending(s2), KeyOf(cur, OpPlus), absPlus, track)
    requires Settled(Pending(s2), Pending(s3), KeyOf(cur, OpMinus), absMinus, track)
    requires track ==> AbsGood(absPlus, Plus(Pending(s), cur), Minus(Pending(s), cur),
                               PlusSet(op, Cur(Pending(s), cur), items), MinusSet(op, Cur(Pending(s), cur), items))
    requires track ==> AbsGood(absMinus, Minus(Pending(s), cur), Plus(Pending(s), cur),
                               MinusSet(op, Cur(Pending(s), cur), items), PlusSet(op, Cur(Pending(s), cur), items))
    requires track ==>
      var moved := PlusSet(op, Cur(Pending(s), cur), items) + MinusSet(op, Cur(Pending(s), cur), items) != {};
      AbsMade(absPlus, h, moved, KeyOf(cur, OpPlus) in Pending(s)) && AbsMade(absMinus, h, moved, KeyOf(cur, OpMinus) in Pending(s))
    ensures ListSet(s, s3, cur, rel, op, items, h, withRel, track)
  {
    hide AbsGood, Settled, PlusSet, MinusSet, FinalSet, Stepped, OnlyAt, Going, MirrorKeys, MirrorsStepped, MirrorsReady, Named,
         StepLists, ListOk, Ready, KeyOf, Pending, Cur, Plus, Minus;
    var p, m := PlusSet(op, Cur(Pending(s), cur), items), MinusSet(op, Cur(Pending(s), cur), items);
    NamedItems(plus, minus, op, Cur(Pending(s), cur), items, withRel);
    var ps, ms := Named(plus, withRel), Named(minus, withRel);
    if withRel {
      Separate(s, cur, rel, p, m, track);
      MirrorsEnd(s, s1, s2, s3, cur, rel, ComposeKeyPrefix(cur), p, m, ForRelatives(h), track);
    } else {
      NoMirrors(s, rel, track);
    }
    var all := Keys3(cur) + if withRel then MirrorKeys(rel, p + m) else {};
    assert {KeyOf(cur, OpSet)} + ({KeyOf(cur, OpPlus)} + MirrorKeys(rel, ps)) + ({KeyOf(cur, OpMinus)} + MirrorKeys(rel, ms)) == all;
    FramesEnd(s, s1, s2, s3, {KeyOf(cur, OpSet)}, {KeyOf(cur, OpPlus)} + MirrorKeys(rel, ps), {KeyOf(cur, OpMinus)} + MirrorKeys(rel, ms), all);
    OwnEnds(Pending(s), Pending(s1), Pending(s2), Pending(s3), cur, op, items, MirrorKeys(rel, ps), MirrorKeys(rel, ms), absPlus, absMinus, h, track);
  }

  /** ubr.c _kv_delta_set: the set in a transaction of its own, which is always committed */
  method KvDeltaSet(kvs: KvStore, cur: KeySpec, rel: KeySpec, op: KvOp, newv: seq<string>, isSync: bool) returns (r: int)
    requires kvs.rollbackBuf.None? ==> Settable(Begin(kvs.State()), cur, rel, op, Elems(Data(newv)), true, !isSync)
    requires |newv| >= HEADER && Ascending(Data(newv))
    modifies kvs
    ensures r == if old(kvs.rollbackBuf).Some? then -EBUSY else 0
    ensures r < 0 ==> kvs.State() == old(kvs.State())
    ensures r == 0 ==> kvs.rollbackBuf.None?
    ensures r == 0 ==> SetOn(old(kvs.recs), kvs.recs, cur, rel, op, Elems(Data(newv)), newv[..HEADER], true, !isSync)
  {
    hide Settable, SetOn, ListSet, Pending, Begin, End, Data, Elems;
    ghost var s0 := kvs.State();
    BeginIs(s0);
    r := kvs.BeginTransaction(false);
    if r < 0 { return r; }
    ghost var s := kvs.State();
    r := DoDeltaSet(kvs, cur, rel, op, newv, true, isSync);
    ghost var s3 := kvs.State();
    ListSetOpen(s, s3, cur, rel, op, Elems(Data(newv)), newv[..HEADER], true, !isSync);
    CommitIsPending(s3);
    kvs.EndTransaction(false);
    EndIs(s3);
  }

  lemma BeginIs(s: Store)
    ensures Pending(Begin(s)) == s.recs && Begin(s).log.Some?
  {
  }

  lemma EndIs(s: Store)
    requires s.log.Some?
    ensures End(s, false).log == None
  {
  }

  lemma ListSetOpen(s: Store, s2: Store, cur: KeySpec, rel: KeySpec, op: KvOp, items: set<string>, h: seq<string>, withRel: bool, track: bool)
    requires ListSet(s, s2, cur, rel, op, items, h, withRel, track)
    ensures s2.log.Some? && SetOn(Pending(s), Pending(s2), cur, rel, op, items, h, withRel, track)
  {
  }
}
