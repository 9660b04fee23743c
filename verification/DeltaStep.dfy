/** One step of the delta engine: the difference between a stored list and the list a caller provides. */
module DeltaStep {
  import opened BPTypes
  import opened CStrings
  import opened Keys
  import opened SortedVec
  import opened Buffers

  /** A stored vector starts with the sequence number, flags, generation number and owner cells. */
  const HEADER: nat := 4

  function Header(v: seq<string>): seq<string>
    requires |v| >= HEADER
  {
    v[..HEADER]
  }

  /** The list part of a vector; a missing vector has none. */
  function Data(v: seq<string>): seq<string> {
    if |v| < HEADER then [] else v[HEADER..]
  }

  /** Which of the two lists has the item at hand. */
  datatype Side = OldOnly | NewOnly | Both

  predicate ToPlus(op: KvOp, side: Side) {
    side.NewOnly? && !op.OpMinus?
  }

  predicate ToMinus(op: KvOp, side: Side) {
    (side.OldOnly? && op.OpSet?) || (side.Both? && op.OpMinus?)
  }

  predicate ToFinal(op: KvOp, side: Side) {
    match side
    case OldOnly => !op.OpSet?
    case _ => !op.OpMinus?
  }

  datatype Lists = Lists(plus: seq<string>, minus: seq<string>, final: seq<string>)

  function Push(a: Lists, op: KvOp, side: Side, x: string): Lists {
    Lists(a.plus + (if ToPlus(op, side) then [x] else []),
          a.minus + (if ToMinus(op, side) then [x] else []),
          a.final + (if ToFinal(op, side) then [x] else []))
  }

  function Concat(a: Lists, b: Lists): Lists {
    Lists(a.plus + b.plus, a.minus + b.minus, a.final + b.final)
  }

  /** The lists the merge produces, first items first. */
  function Merge(op: KvOp, o: seq<string>, n: seq<string>): Lists
    decreases |o| + |n|
  {
    if o == [] && n == [] then Lists([], [], [])
    else if n == [] || (o != [] && Strcmp(o[0], n[0]) < 0) then
      Concat(Push(Lists([], [], []), op, OldOnly, o[0]), Merge(op, o[1..], n))
    else if o == [] || Strcmp(o[0], n[0]) > 0 then
      Concat(Push(Lists([], [], []), op, NewOnly, n[0]), Merge(op, o, n[1..]))
    else
      Concat(Push(Lists([], [], []), op, Both, n[0]), Merge(op, o[1..], n[1..]))
  }

  ghost function PlusSet(op: KvOp, o: set<string>, n: set<string>): set<string> {
    if op.OpMinus? then {} else n - o
  }

  ghost function MinusSet(op: KvOp, o: set<string>, n: set<string>): set<string> {
    match op
    case OpSet => o - n
    case OpPlus => {}
    case OpMinus => o * n
  }

  ghost function FinalSet(op: KvOp, o: set<string>, n: set<string>): set<string> {
    match op
    case OpSet => n
    case OpPlus => o + n
    case OpMinus => o - n
  }

  /** The algebra of a step. */
  lemma StepAlgebra(op: KvOp, o: set<string>, n: set<string>)
    ensures FinalSet(op, o, n) == (o - MinusSet(op, o, n)) + PlusSet(op, o, n)
    ensures PlusSet(op, o, n) !! o && MinusSet(op, o, n) <= o
    ensures PlusSet(op, o, n) <= n && (op.OpMinus? ==> MinusSet(op, o, n) <= n)
  {
  }

  ghost predicate Above(x: string, s: seq<string>) {
    forall y :: y in s ==> Rank(x) < Rank(y)
  }

  ghost predicate Means(op: KvOp, o: seq<string>, n: seq<string>, out: Lists) {
    && Ascending(out.plus) && Ascending(out.minus) && Ascending(out.final)
    && Elems(out.plus) == PlusSet(op, Elems(o), Elems(n))
    && Elems(out.minus) == MinusSet(op, Elems(o), Elems(n))
    && Elems(out.final) == FinalSet(op, Elems(o), Elems(n))
  }

  lemma TailAscending(s: seq<string>)
    requires Ascending(s) && s != []
    ensures Ascending(s[1..]) && Above(s[0], s[1..]) && s == [s[0]] + s[1..]
    ensures Elems(s) == {s[0]} + Elems(s[1..]) && s[0] !in Elems(s[1..])
  {
    ElemsCons(s[0], s[1..]);
    assert s == [s[0]] + s[1..];
    forall y | y in s[1..] ensures Rank(s[0]) < Rank(y) {
      var i :| 0 <= i < |s[1..]| && s[1..][i] == y;
      assert s[i + 1] == y;
    }
  }

  lemma AboveAll(x: string, s: seq<string>)
    requires s != [] && Ascending(s) && Rank(x) < Rank(s[0])
    ensures Above(x, s) && x !in Elems(s)
  {
    forall y | y in s ensures Rank(x) < Rank(y) {
      var i :| 0 <= i < |s| && s[i] == y;
      assert Rank(s[0]) <= Rank(s[i]);
    }
  }

  lemma PushAscending(x: string, s: seq<string>, bound: set<string>, put: bool)
    requires Ascending(s) && Elems(s) <= bound && forall y :: y in bound ==> Rank(x) < Rank(y)
    ensures Ascending((if put then [x] else []) + s)
    ensures Elems((if put then [x] else []) + s) == (if put then {x} else {}) + Elems(s)
  {
    if put {
      forall y | y in s ensures Rank(x) < Rank(y) { assert y in Elems(s); }
      AscendingCons(x, s);
      ElemsCons(x, s);
    } else {
      assert [] + s == s;
    }
  }

  lemma SetsBounded(op: KvOp, o: set<string>, n: set<string>)
    ensures PlusSet(op, o, n) <= o + n && MinusSet(op, o, n) <= o + n && FinalSet(op, o, n) <= o + n
  {
  }

  lemma PushEmpty(op: KvOp, side: Side, x: string, rest: Lists)
    ensures Concat(Push(Lists([], [], []), op, side, x), rest) ==
            Lists((if ToPlus(op, side) then [x] else []) + rest.plus,
                  (if ToMinus(op, side) then [x] else []) + rest.minus,
                  (if ToFinal(op, side) then [x] else []) + rest.final)
  {
    hide ToPlus, ToMinus, ToFinal;
    assert forall s: seq<string> :: [] + s == s;
  }

  /** One item in front of a correct rest: the old and new lists get it as `side` says. */
  lemma PushMeans(op: KvOp, side: Side, x: string, o: seq<string>, n: seq<string>, rest: Lists,
                  o2: seq<string>, n2: seq<string>)
    requires Means(op, o, n, rest) && Above(x, o) && Above(x, n)
    requires PlusSet(op, Elems(o2), Elems(n2)) == PlusSet(op, Elems(o), Elems(n)) + (if ToPlus(op, side) then {x} else {})
    requires MinusSet(op, Elems(o2), Elems(n2)) == MinusSet(op, Elems(o), Elems(n)) + (if ToMinus(op, side) then {x} else {})
    requires FinalSet(op, Elems(o2), Elems(n2)) == FinalSet(op, Elems(o), Elems(n)) + (if ToFinal(op, side) then {x} else {})
    ensures Means(op, o2, n2, Concat(Push(Lists([], [], []), op, side, x), rest))
  {
    hide ToPlus, ToMinus, ToFinal, PlusSet, MinusSet, FinalSet, Ascending, Rank, Concat, Push;
    var bound := Elems(o) + Elems(n);
    SetsBounded(op, Elems(o), Elems(n));
    PushAscending(x, rest.plus, bound, ToPlus(op, side));
    PushAscending(x, rest.minus, bound, ToMinus(op, side));
    PushAscending(x, rest.final, bound, ToFinal(op, side));
    PushEmpty(op, side, x, rest);
  }

  lemma EmptyMeans(op: KvOp)
    ensures Means(op, [], [], Lists([], [], []))
  {
  }

  /** For ascending lists the merge computes the set algebra of the operation, in ascending lists. */
  lemma {:induction false} MergeMeans(op: KvOp, o: seq<string>, n: seq<string>)
    requires Ascending(o) && Ascending(n)
    ensures Means(op, o, n, Merge(op, o, n))
    decreases |o| + |n|
  {
    hide Means, ToPlus, ToMinus, ToFinal, PlusSet, MinusSet, FinalSet, Ascending, Rank, Concat, Push, Elems, Strcmp, Above;
    if o != [] { TailAscending(o); }
    if n != [] { TailAscending(n); }
    if o != [] && n != [] { StrcmpIsRank(o[0], n[0]); }
    if o == [] && n == [] {
      EmptyMeans(op);
    } else if n == [] || (o != [] && Strcmp(o[0], n[0]) < 0) {
      MergeMeans(op, o[1..], n);
      AboveMaybe(o[0], n);
      StepOld(op, o[0], Elems(o[1..]), Elems(n));
      PushMeans(op, OldOnly, o[0], o[1..], n, Merge(op, o[1..], n), o, n);
    } else if o == [] || Strcmp(o[0], n[0]) > 0 {
      MergeMeans(op, o, n[1..]);
      AboveMaybe(n[0], o);
      StepNew(op, n[0], Elems(o), Elems(n[1..]));
      PushMeans(op, NewOnly, n[0], o, n[1..], Merge(op, o, n[1..]), o, n);
    } else {
      MergeMeans(op, o[1..], n[1..]);
      StepBoth(op, n[0], Elems(o[1..]), Elems(n[1..]));
      PushMeans(op, Both, n[0], o[1..], n[1..], Merge(op, o[1..], n[1..]), o, n);
    }
  }

  lemma AboveMaybe(x: string, s: seq<string>)
    requires Ascending(s) && (s != [] ==> Rank(x) < Rank(s[0]))
    ensures Above(x, s) && x !in Elems(s)
  {
    if s != [] { AboveAll(x, s); }
  }

  lemma StepOld(op: KvOp, x: string, o: set<string>, n: set<string>)
    requires x !in n && x !in o
    ensures PlusSet(op, {x} + o, n) == PlusSet(op, o, n) + (if ToPlus(op, OldOnly) then {x} else {})
    ensures MinusSet(op, {x} + o, n) == MinusSet(op, o, n) + (if ToMinus(op, OldOnly) then {x} else {})
    ensures FinalSet(op, {x} + o, n) == FinalSet(op, o, n) + (if ToFinal(op, OldOnly) then {x} else {})
  {
  }

  lemma StepNew(op: KvOp, x: string, o: set<string>, n: set<string>)
    requires x !in n && x !in o
    ensures PlusSet(op, o, {x} + n) == PlusSet(op, o, n) + (if ToPlus(op, NewOnly) then {x} else {})
    ensures MinusSet(op, o, {x} + n) == MinusSet(op, o, n) + (if ToMinus(op, NewOnly) then {x} else {})
    ensures FinalSet(op, o, {x} + n) == FinalSet(op, o, n) + (if ToFinal(op, NewOnly) then {x} else {})
  {
  }

  lemma StepBoth(op: KvOp, x: string, o: set<string>, n: set<string>)
    requires x !in n && x !in o
    ensures PlusSet(op, {x} + o, {x} + n) == PlusSet(op, o, n) + (if ToPlus(op, Both) then {x} else {})
    ensures MinusSet(op, {x} + o, {x} + n) == MinusSet(op, o, n) + (if ToMinus(op, Both) then {x} else {})
    ensures FinalSet(op, {x} + o, {x} + n) == FinalSet(op, o, n) + (if ToFinal(op, Both) then {x} else {})
  {
  }

  /** The buffer holds the header and `list`, in exactly `size` preallocated slots; a buffer of size 0 is missing. */
  ghost predicate Holds(b: Buf?<string>, header: seq<string>, list: seq<string>, size: nat)
    reads b, Slots(b)
  {
    if b == null then size == 0 && list == []
    else
      && b.Valid() && b.prefixLen == 0 && b.allocStep == 0 && b.limit == 0
      && b.mem.Length == size && b.Items() == header + list
  }

  ghost function Slots(b: Buf?<string>): set<object>
    reads b
  {
    if b == null then {} else var o: object := b; {o, b.mem}
  }

  /** ubr.c _init_delta_buffer: nothing for size 0, an error for a size below the header */
  method InitDeltaBuffer(header: seq<string>, size: nat) returns (r: int, b: Buf?<string>)
    requires |header| == HEADER
    ensures r == if 0 < size < HEADER then -1 else 0
    ensures r == 0 ==> Holds(b, header, [], size)
    ensures r < 0 ==> b == null
    ensures b != null ==> fresh(b) && fresh(b.mem)
  {
    if size == 0 { return 0, null; }
    if size < HEADER { return -1, null; }
    var buf := new Buf<string>(0, size, 0, 0);
    for i := 0 to HEADER
      invariant fresh(buf) && fresh(buf.mem) && buf.Valid() && buf.prefixLen == 0 && buf.allocStep == 0 && buf.limit == 0
      invariant buf.mem.Length == size && buf.Items() == header[..i]
    {
      var r1 := buf.Add([header[i]]);
    }
    assert header[..HEADER] + [] == header;
    return 0, buf;
  }

  /** ubr.c _init_delta_buffers */
  method InitDeltaBuffers(header: seq<string>, minusSize: nat, plusSize: nat, finalSize: nat)
    returns (r: int, plus: Buf?<string>, minus: Buf?<string>, final: Buf?<string>)
    requires |header| == HEADER
    ensures r == if 0 < plusSize < HEADER || 0 < minusSize < HEADER || 0 < finalSize < HEADER then -1 else 0
    ensures r == 0 ==> Holds(plus, header, [], plusSize) && Holds(minus, header, [], minusSize) && Holds(final, header, [], finalSize)
    ensures fresh(Slots(plus)) && fresh(Slots(minus)) && fresh(Slots(final))
    ensures Slots(plus) !! Slots(minus) !! Slots(final)
    ensures r < 0 ==> plus == null && minus == null && final == null
  {
    plus, minus, final := null, null, null;
    r, plus := InitDeltaBuffer(header, plusSize);
    if r < 0 { return -1, null, null, null; }
    r, minus := InitDeltaBuffer(header, minusSize);
    if r < 0 { return -1, null, null, null; }
    r, final := InitDeltaBuffer(header, finalSize);
    if r < 0 { return -1, null, null, null; }
  }

  /** An append that has its slot. */
  method Append(b: Buf?<string>, x: string, ghost header: seq<string>, ghost list: seq<string>, ghost size: nat)
    returns (r: int)
    requires Holds(b, header, list, size) && |header| + |list| < size
    modifies Slots(b)
    ensures r == 0 && Holds(b, header, list + [x], size) && Slots(b) == old(Slots(b))
  {
    r := b.Add([x]);
    assert header + list + [x] == header + (list + [x]);
  }

  /** The three buffers of a step. */
  ghost predicate HoldsAll(plus: Buf?<string>, minus: Buf?<string>, final: Buf?<string>, header: seq<string>,
                           lists: Lists, oldSize: nat, newSize: nat)
    reads plus, minus, final, Slots(plus), Slots(minus), Slots(final)
  {
    && Holds(plus, header, lists.plus, newSize)
    && Holds(minus, header, lists.minus, oldSize)
    && Holds(final, header, lists.final, oldSize + newSize)
    && Slots(plus) !! Slots(minus) !! Slots(final)
  }

  /** Every list still has the slots for the items that are left. */
  predicate Room(lists: Lists, oldSize: nat, newSize: nat, iOld: nat, iNew: nat) {
    && HEADER <= iOld <= (if oldSize == 0 then HEADER else oldSize) && HEADER <= iNew <= newSize
    && HEADER + |lists.plus| <= iNew
    && HEADER + |lists.minus| <= iOld
    && |lists.final| <= (iOld - HEADER) + (iNew - HEADER)
  }

  /** The switch of ubr.c _delta_step_calc for an item that is in the list or lists `side` names. */
  method Place(op: KvOp, side: Side, x: string, plus: Buf?<string>, minus: Buf?<string>, final: Buf?<string>,
               ghost header: seq<string>, ghost lists: Lists, ghost oldSize: nat, ghost newSize: nat)
    returns (r: int)
    requires HoldsAll(plus, minus, final, header, lists, oldSize, newSize) && |header| == HEADER
    requires !side.NewOnly? ==> HEADER + |lists.minus| < oldSize
    requires !side.OldOnly? ==> HEADER + |lists.plus| < newSize
    requires HEADER + |lists.final| < oldSize + newSize
    modifies Slots(plus), Slots(minus), Slots(final)
    ensures r == 0
    ensures HoldsAll(plus, minus, final, header, Push(lists, op, side, x), oldSize, newSize)
    ensures Slots(plus) == old(Slots(plus)) && Slots(minus) == old(Slots(minus)) && Slots(final) == old(Slots(final))
  {
    r := 0;
    assert lists.plus + [] == lists.plus && lists.minus + [] == lists.minus && lists.final + [] == lists.final;
    if ToMinus(op, side) {
      r := Append(minus, x, header, lists.minus, oldSize);
    }
    if ToPlus(op, side) {
      r := Append(plus, x, header, lists.plus, newSize);
    }
    if ToFinal(op, side) {
      r := Append(final, x, header, lists.final, oldSize + newSize);
    }
  }

  /** ubr.c _destroy_unused_delta_buffers: a buffer with no list item is dropped. What is left is read with sid_buf_get_data. */
  method Finish(b: Buf?<string>, ghost header: seq<string>, ghost list: seq<string>, ghost size: nat)
    returns (data: Option<seq<string>>)
    requires Holds(b, header, list, size) && |header| == HEADER
    ensures data == if list == [] then None else Some(header + list)
  {
    if b == null { return None; }
    var n := b.Count();
    if n < HEADER + 1 { return None; }
    return Some(b.mem[..b.used]);
  }

  /** What is left to merge at positions `iOld` and `iNew`. */
  ghost function Rest(op: KvOp, oldv: seq<string>, newv: seq<string>, iOld: nat, iNew: nat): Lists {
    Merge(op, if iOld < |oldv| then oldv[iOld..] else [], if iNew < |newv| then newv[iNew..] else [])
  }

  lemma RestStep(op: KvOp, oldv: seq<string>, newv: seq<string>, iOld: nat, iNew: nat, lists: Lists, side: Side)
    requires !side.NewOnly? ==> iOld < |oldv|
    requires !side.OldOnly? ==> iNew < |newv|
    requires side.OldOnly? ==> iNew >= |newv| || Strcmp(oldv[iOld], newv[iNew]) < 0
    requires side.NewOnly? ==> iOld >= |oldv| || Strcmp(oldv[iOld], newv[iNew]) > 0
    requires side.Both? ==> Strcmp(oldv[iOld], newv[iNew]) == 0
    ensures var x := if side.OldOnly? then oldv[iOld] else newv[iNew];
      Concat(lists, Rest(op, oldv, newv, iOld, iNew)) ==
      Concat(Push(lists, op, side, x),
             Rest(op, oldv, newv, if side.NewOnly? then iOld else iOld + 1, if side.OldOnly? then iNew else iNew + 1))
  {
    hide Strcmp, ToPlus, ToMinus, ToFinal, Push, Concat;
    var o := if iOld < |oldv| then oldv[iOld..] else [];
    var n := if iNew < |newv| then newv[iNew..] else [];
    var x := if side.OldOnly? then oldv[iOld] else newv[iNew];
    var next := Rest(op, oldv, newv, if side.NewOnly? then iOld else iOld + 1, if side.OldOnly? then iNew else iNew + 1);
    assert o != [] ==> o[0] == oldv[iOld] && o[1..] == if iOld + 1 < |oldv| then oldv[iOld + 1..] else [];
    assert n != [] ==> n[0] == newv[iNew] && n[1..] == if iNew + 1 < |newv| then newv[iNew + 1..] else [];
    assert Merge(op, o, n) == Concat(Push(Lists([], [], []), op, side, x), next);
    PushFront(lists, op, side, x, next);
  }

  lemma PushFront(lists: Lists, op: KvOp, side: Side, x: string, next: Lists)
    ensures Concat(lists, Concat(Push(Lists([], [], []), op, side, x), next)) == Concat(Push(lists, op, side, x), next)
  {
    hide ToPlus, ToMinus, ToFinal;
    assert forall a: seq<string>, b: seq<string>, c: seq<string> :: a + (([] + b) + c) == (a + b) + c;
  }

  /** The merge at positions `iOld` and `iNew`: `lists` is in the buffers, and it and the rest make up the result. */
  ghost predicate Merging(op: KvOp, oldv: seq<string>, newv: seq<string>, iOld: nat, iNew: nat, lists: Lists,
                          plus: Buf?<string>, minus: Buf?<string>, final: Buf?<string>)
    requires |newv| >= HEADER
    reads plus, minus, final, Slots(plus), Slots(minus), Slots(final)
  {
    && Room(lists, |oldv|, |newv|, iOld, iNew)
    && HoldsAll(plus, minus, final, Header(newv), lists, |oldv|, |newv|)
    && Concat(lists, Rest(op, oldv, newv, iOld, iNew)) == Rest(op, oldv, newv, HEADER, HEADER)
  }

  /** The item `side` names goes where it belongs, and the merge moves on. */
  method Advance(op: KvOp, oldv: seq<string>, newv: seq<string>, iOld: nat, iNew: nat, side: Side,
                 plus: Buf?<string>, minus: Buf?<string>, final: Buf?<string>, ghost lists: Lists)
    returns (r: int, iOld2: nat, iNew2: nat, ghost lists2: Lists)
    requires |newv| >= HEADER && Merging(op, oldv, newv, iOld, iNew, lists, plus, minus, final)
    requires !side.NewOnly? ==> iOld < |oldv|
    requires !side.OldOnly? ==> iNew < |newv|
    requires side.OldOnly? ==> iNew >= |newv| || Strcmp(oldv[iOld], newv[iNew]) < 0
    requires side.NewOnly? ==> iOld >= |oldv| || Strcmp(oldv[iOld], newv[iNew]) > 0
    requires side.Both? ==> Strcmp(oldv[iOld], newv[iNew]) == 0
    modifies Slots(plus), Slots(minus), Slots(final)
    ensures r == 0 && Merging(op, oldv, newv, iOld2, iNew2, lists2, plus, minus, final)
    ensures Slots(plus) == old(Slots(plus)) && Slots(minus) == old(Slots(minus)) && Slots(final) == old(Slots(final))
    ensures iOld2 == (if side.NewOnly? then iOld else iOld + 1) && iNew2 == if side.OldOnly? then iNew else iNew + 1
  {
    hide Merge, Rest, Strcmp, Push, Concat, ToPlus, ToMinus, ToFinal;
    var x := if side.OldOnly? then oldv[iOld] else newv[iNew];
    RestStep(op, oldv, newv, iOld, iNew, lists, side);
    PushSizes(lists, op, side, x);
    lists2 := Push(lists, op, side, x);
    r := Place(op, side, x, plus, minus, final, Header(newv), lists, |oldv|, |newv|);
    iOld2 := if side.NewOnly? then iOld else iOld + 1;
    iNew2 := if side.OldOnly? then iNew else iNew + 1;
  }

  /** ubr.c _delta_step_calc. No append exceeds the size its buffer was created with. */
  method StepCalc(op: KvOp, oldv: seq<string>, newv: seq<string>)
    returns (r: int, plus: Option<seq<string>>, minus: Option<seq<string>>, final: Option<seq<string>>)
    requires |newv| >= HEADER
    ensures r == if 0 < |oldv| < HEADER then -1 else 0
    ensures r == 0 ==>
      var lists := Merge(op, Data(oldv), Data(newv));
      && plus == (if lists.plus == [] then None else Some(Header(newv) + lists.plus))
      && minus == (if lists.minus == [] then None else Some(Header(newv) + lists.minus))
      && final == Some(Header(newv) + lists.final)
    ensures r < 0 ==> plus == None && minus == None && final == None
  {
    hide Merge, Strcmp, Push, Concat, ToPlus, ToMinus, ToFinal, Merging, Holds, HoldsAll, Room;
    plus, minus, final := None, None, None;
    var plusBuf, minusBuf, finalBuf;
    r, plusBuf, minusBuf, finalBuf := InitDeltaBuffers(newv[..HEADER], |oldv|, |newv|, |oldv| + |newv|);
    if r < 0 { return; }
    var oldSize := if |oldv| == 0 then HEADER else |oldv|;
    var iOld: nat, iNew: nat := HEADER, HEADER;
    ghost var lists := Lists([], [], []);
    MergingStarts(op, oldv, newv, plusBuf, minusBuf, finalBuf);
    while iOld < oldSize && iNew < |newv|
      invariant r == 0 && fresh(Slots(plusBuf)) && fresh(Slots(minusBuf)) && fresh(Slots(finalBuf))
      invariant Merging(op, oldv, newv, iOld, iNew, lists, plusBuf, minusBuf, finalBuf)
      invariant HEADER <= iOld <= oldSize && iNew <= |newv|
      decreases oldSize - iOld + |newv| - iNew
    {
      var cmp := Strcmp(oldv[iOld], newv[iNew]);
      var side := if cmp < 0 then OldOnly else if cmp > 0 then NewOnly else Both;
      r, iOld, iNew, lists := Advance(op, oldv, newv, iOld, iNew, side, plusBuf, minusBuf, finalBuf, lists);
    }
    if iOld == oldSize {
      while iNew < |newv|
        invariant r == 0 && fresh(Slots(plusBuf)) && fresh(Slots(minusBuf)) && fresh(Slots(finalBuf))
        invariant Merging(op, oldv, newv, iOld, iNew, lists, plusBuf, minusBuf, finalBuf)
        invariant iOld == oldSize && iNew <= |newv|
      {
        r, iOld, iNew, lists := Advance(op, oldv, newv, iOld, iNew, NewOnly, plusBuf, minusBuf, finalBuf, lists);
      }
    } else {
      while iOld < oldSize
        invariant r == 0 && fresh(Slots(plusBuf)) && fresh(Slots(minusBuf)) && fresh(Slots(finalBuf))
        invariant Merging(op, oldv, newv, iOld, iNew, lists, plusBuf, minusBuf, finalBuf)
        invariant HEADER <= iOld <= oldSize && iNew == |newv|
      {
        r, iOld, iNew, lists := Advance(op, oldv, newv, iOld, iNew, OldOnly, plusBuf, minusBuf, finalBuf, lists);
      }
    }
    MergingEnds(op, oldv, newv, iOld, iNew, lists, plusBuf, minusBuf, finalBuf);
    plus := Finish(plusBuf, newv[..HEADER], lists.plus, |newv|);
    minus := Finish(minusBuf, newv[..HEADER], lists.minus, |oldv|);
    final := Some(finalBuf.mem[..finalBuf.used]);
  }

  lemma MergingStarts(op: KvOp, oldv: seq<string>, newv: seq<string>,
                      plus: Buf?<string>, minus: Buf?<string>, final: Buf?<string>)
    requires |newv| >= HEADER && !(0 < |oldv| < HEADER)
    requires Holds(plus, newv[..HEADER], [], |newv|) && Holds(minus, newv[..HEADER], [], |oldv|)
    requires Holds(final, newv[..HEADER], [], |oldv| + |newv|) && Slots(plus) !! Slots(minus) !! Slots(final)
    ensures Merging(op, oldv, newv, HEADER, HEADER, Lists([], [], []), plus, minus, final)
  {
    hide Holds, Merge;
    ConcatEmpty(Rest(op, oldv, newv, HEADER, HEADER));
  }

  lemma MergingEnds(op: KvOp, oldv: seq<string>, newv: seq<string>, iOld: nat, iNew: nat, lists: Lists,
                    plus: Buf?<string>, minus: Buf?<string>, final: Buf?<string>)
    requires |newv| >= HEADER && Merging(op, oldv, newv, iOld, iNew, lists, plus, minus, final)
    requires iOld >= |oldv| && iNew >= |newv| && !(0 < |oldv| < HEADER)
    ensures lists == Merge(op, Data(oldv), Data(newv))
    ensures Holds(plus, newv[..HEADER], lists.plus, |newv|) && Holds(minus, newv[..HEADER], lists.minus, |oldv|)
    ensures final != null && final.used <= final.mem.Length && final.mem[..final.used] == Header(newv) + lists.final
  {
    ConcatEmpty(lists);
    assert Rest(op, oldv, newv, iOld, iNew) == Lists([], [], []);
    assert Data(newv) == if HEADER < |newv| then newv[HEADER..] else [];
    assert Data(oldv) == if HEADER < |oldv| then oldv[HEADER..] else [];
  }

  lemma ConcatEmpty(all: Lists)
    ensures Concat(Lists([], [], []), all) == all && Concat(all, Lists([], [], [])) == all
  {
  }

  lemma PushSizes(lists: Lists, op: KvOp, side: Side, x: string)
    ensures var p := Push(lists, op, side, x);
      && |p.plus| <= |lists.plus| + (if side.OldOnly? then 0 else 1)
      && |p.minus| <= |lists.minus| + (if side.NewOnly? then 0 else 1)
      && |p.final| <= |lists.final| + 1
  {
  }
}
