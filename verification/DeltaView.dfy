/** The lists of the delta engine as they are seen in the store: for every key specification the current list, and the
    cumulative plus and minus lists kept since the snapshot. */
module DeltaView {
  import opened KvStore
  import opened Keys
  import opened SortedVec
  import opened DeltaStep
  import opened DeltaAbs

  type Recs = map<string, Value>

  // ----- Header cells -----

  /** The position of the flags cell. It lists its flags, one letter each: S marks a record for the sync with the main process,
      P makes it persistent, R reserves its key even when the list is empty, D lets other modules read it. */
  const FLAGS: nat := 1
  const SYNC: char := 'S'
  const RESERVED: char := 'R'
  const VALUE_FLAGS_NO_SYNC: string := "PRD"

  /** The record under `k` exists and has header `h`. */
  ghost predicate HeaderAt(e: Recs, k: string, h: seq<string>) {
    k in e && |e[k].cells| >= HEADER && e[k].cells[..HEADER] == h
  }

  /** A header marked for the sync. */
  ghost function Marked(h: seq<string>): seq<string> {
    if |h| == HEADER && SYNC !in h[FLAGS] then h[FLAGS := h[FLAGS] + [SYNC]] else h
  }

  /** The header a relative's list gets: everything but the flags is that of the set. */
  ghost function ForRelatives(h: seq<string>): seq<string> {
    if |h| == HEADER then h[FLAGS := VALUE_FLAGS_NO_SYNC] else h
  }

  function CellsAt(e: Recs, k: string): seq<string> {
    if k in e then e[k].cells else []
  }

  ghost function Items(e: Recs, k: string): set<string> {
    Elems(Data(CellsAt(e, k)))
  }

  ghost predicate ListOk(e: Recs, k: string) {
    VectorOk(CellsAt(e, k)) && Ascending(Data(CellsAt(e, k)))
  }

  /** A record that exists holds items. */
  ghost predicate NotBare(e: Recs, k: string) {
    k in e ==> |e[k].cells| > HEADER
  }

  function KeyOf(sp: KeySpec, op: KvOp): string {
    StoreKey(sp.(op := op))
  }

  function Keys3(sp: KeySpec): set<string> {
    {KeyOf(sp, OpSet), KeyOf(sp, OpPlus), KeyOf(sp, OpMinus)}
  }

  ghost function Cur(e: Recs, sp: KeySpec): set<string> {
    Items(e, KeyOf(sp, OpSet))
  }

  ghost function Plus(e: Recs, sp: KeySpec): set<string> {
    Items(e, KeyOf(sp, OpPlus))
  }

  ghost function Minus(e: Recs, sp: KeySpec): set<string> {
    Items(e, KeyOf(sp, OpMinus))
  }

  /** The cumulative lists fit the current one: what was added is there, what was removed is not. */
  ghost predicate Tracked(e: Recs, sp: KeySpec) {
    && ListOk(e, KeyOf(sp, OpSet)) && ListOk(e, KeyOf(sp, OpPlus)) && ListOk(e, KeyOf(sp, OpMinus))
    && Plus(e, sp) <= Cur(e, sp) && Minus(e, sp) !! Cur(e, sp)
    && NotBare(e, KeyOf(sp, OpPlus)) && NotBare(e, KeyOf(sp, OpMinus))
  }

  /** The list of the snapshot the cumulative lists refer to. */
  ghost function Base(e: Recs, sp: KeySpec): set<string> {
    (Cur(e, sp) - Plus(e, sp)) + Minus(e, sp)
  }

  /** The stored lists are exactly the differences to the snapshot. */
  lemma TrackedDifferences(e: Recs, sp: KeySpec)
    requires Tracked(e, sp)
    ensures Plus(e, sp) == Cur(e, sp) - Base(e, sp) && Minus(e, sp) == Base(e, sp) - Cur(e, sp)
  {
    hide Items;
  }

  /** What a list must satisfy for a step: with cumulative lists or, when syncing, without. */
  ghost predicate Ready(e: Recs, sp: KeySpec, track: bool) {
    if track then Tracked(e, sp) else ListOk(e, KeyOf(sp, OpSet))
  }

  ghost predicate SameAt(e: Recs, e2: Recs, k: string) {
    Find(e2, k) == Find(e, k)
  }

  /** Only the records under `ks` may differ. */
  ghost predicate OnlyAt(e: Recs, e2: Recs, ks: set<string>) {
    forall k :: k !in ks ==> SameAt(e, e2, k)
  }

  /** The record under `k` is gone or has header `h`. */
  ghost predicate NewOrGone(e: Recs, k: string, h: seq<string>) {
    k in e ==> HeaderAt(e, k, h)
  }

  /** What a step with header `h` does to the cumulative lists' records: they are as before if nothing moved, and else gone or
      written with the marked header. */
  ghost predicate Rewritten(e: Recs, e2: Recs, sp: KeySpec, moved: bool, h: seq<string>) {
    if moved then NewOrGone(e2, KeyOf(sp, OpPlus), Marked(h)) && NewOrGone(e2, KeyOf(sp, OpMinus), Marked(h))
    else SameAt(e, e2, KeyOf(sp, OpPlus)) && SameAt(e, e2, KeyOf(sp, OpMinus))
  }

  /** A step of one list, with its cumulative lists. The list's record exists afterwards and has the header of the set. */
  ghost predicate Stepped(e: Recs, e2: Recs, sp: KeySpec, op: KvOp, items: set<string>, h: seq<string>, track: bool) {
    && Ready(e2, sp, track)
    && Cur(e2, sp) == FinalSet(op, Cur(e, sp), items)
    && (track ==> Base(e2, sp) == Base(e, sp))
    && HeaderAt(e2, KeyOf(sp, OpSet), h)
    && Rewritten(e, e2, sp, track && PlusSet(op, Cur(e, sp), items) + MinusSet(op, Cur(e, sp), items) != {}, h)
  }

  lemma OnlyAtTrans(e: Recs, e1: Recs, e2: Recs, ks: set<string>, ls: set<string>)
    requires OnlyAt(e, e1, ks) && OnlyAt(e1, e2, ls)
    ensures OnlyAt(e, e2, ks + ls)
  {
    forall k | k !in ks + ls ensures SameAt(e, e2, k) {
      assert SameAt(e, e1, k) && SameAt(e1, e2, k);
    }
  }

  /** Lists whose records are untouched are unchanged. */
  lemma Untouched(e: Recs, e2: Recs, ks: set<string>, sp: KeySpec)
    requires OnlyAt(e, e2, ks) && Keys3(sp) !! ks
    ensures Cur(e2, sp) == Cur(e, sp) && Plus(e2, sp) == Plus(e, sp) && Minus(e2, sp) == Minus(e, sp)
    ensures Base(e2, sp) == Base(e, sp)
    ensures Tracked(e2, sp) <==> Tracked(e, sp)
    ensures forall track :: Ready(e2, sp, track) <==> Ready(e, sp, track)
  {
    forall op: KvOp
      ensures CellsAt(e2, KeyOf(sp, op)) == CellsAt(e, KeyOf(sp, op)) && (NotBare(e2, KeyOf(sp, op)) <==> NotBare(e, KeyOf(sp, op)))
    {
      assert KeyOf(sp, op) in Keys3(sp);
      assert SameAt(e, e2, KeyOf(sp, op));
    }
  }

  lemma KeysApart(a: KeySpec, b: KeySpec)
    requires Clean(a) && Clean(b) && a != b && a.op == b.op
    ensures Keys3(a) !! Keys3(b)
  {
    forall o1: KvOp, o2: KvOp ensures KeyOf(a, o1) != KeyOf(b, o2) {
      if KeyOf(a, o1) == KeyOf(b, o2) { StoreKeyInjective(a.(op := o1), b.(op := o2)); }
    }
  }

  lemma KeysDistinct(a: KeySpec)
    requires Clean(a)
    ensures KeyOf(a, OpSet) != KeyOf(a, OpPlus) && KeyOf(a, OpSet) != KeyOf(a, OpMinus) && KeyOf(a, OpPlus) != KeyOf(a, OpMinus)
  {
    forall o1: KvOp, o2: KvOp | o1 != o2 ensures KeyOf(a, o1) != KeyOf(a, o2) {
      if KeyOf(a, o1) == KeyOf(a, o2) { StoreKeyInjective(a.(op := o1), a.(op := o2)); }
    }
  }

  /** The cumulative lists after a step, from those before it. */
  ghost function PlusAfter(oldPlus: set<string>, oldMinus: set<string>, p: set<string>, m: set<string>): set<string> {
    (oldPlus - m) + (p - oldMinus)
  }

  /** A step keeps the cumulative lists the differences to the same snapshot. */
  lemma CumulativeStep(op: KvOp, cur: set<string>, plus: set<string>, minus: set<string>, items: set<string>)
    requires plus <= cur && minus !! cur
    ensures var p, m, cur2 := PlusSet(op, cur, items), MinusSet(op, cur, items), FinalSet(op, cur, items);
      var plus2, minus2 := PlusAfter(plus, minus, p, m), PlusAfter(minus, plus, m, p);
      && plus2 <= cur2 && minus2 !! cur2
      && (cur2 - plus2) + minus2 == (cur - plus) + minus
      && plus2 == cur2 - ((cur - plus) + minus) && minus2 == ((cur - plus) + minus) - cur2
  {
  }

  /** The absolute vectors hold the cumulative lists after the step. */
  lemma AbsListMeans(stored: seq<string>, cancel: seq<string>, added: seq<string>, cancelled: seq<string>)
    requires Ascending(Data(stored)) && Ascending(Data(added)) && Elems(Data(stored)) !! Elems(Data(added))
    ensures var l := AbsList(stored, cancel, added, cancelled);
      && Distinct(l) && Ascending(Qsort(l))
      && Elems(Qsort(l)) ==
         PlusAfter(Elems(Data(stored)), Elems(Data(cancelled)), Elems(Data(added)), Elems(Data(cancel)))
  {
    var a, b := Without(Data(stored), Data(cancel)), Without(Data(added), Data(cancelled));
    AscendingDistinct(Data(stored));
    AscendingDistinct(Data(added));
    WithoutMeans(Data(stored), Data(cancel));
    WithoutMeans(Data(added), Data(cancelled));
    ElemsAppend(a, b);
    DistinctAppend(a, b);
    QsortMeans(a + b);
  }

  lemma DistinctAppend(a: seq<string>, b: seq<string>)
    requires Distinct(a) && Distinct(b) && Elems(a) !! Elems(b)
    ensures Distinct(a + b)
  {
    forall i, j | 0 <= i < j < |a + b| ensures (a + b)[i] != (a + b)[j] {
      if i < |a| <= j {
        assert a[i] in Elems(a) && b[j - |a|] in Elems(b);
      }
    }
  }
}
