/** The cumulative delta: what the current list has and lacks against the list of the database snapshot. */
module DeltaAbs {
  import opened BPTypes
  import opened Bitmap
  import opened CStrings
  import opened SortedVec
  import opened Buffers
  import opened DeltaStep

  /** The items of `a` that `b` does not have. */
  function Without(a: seq<string>, b: seq<string>): seq<string> {
    if a == [] then [] else (if a[0] in b then [] else [a[0]]) + Without(a[1..], b)
  }

  lemma {:induction false} WithoutSnoc(a: seq<string>, x: string, b: seq<string>)
    ensures Without(a + [x], b) == Without(a, b) + if x in b then [] else [x]
  {
    if a == [] {
      assert (a + [x])[1..] == [];
    } else {
      assert (a + [x])[1..] == a[1..] + [x];
      WithoutSnoc(a[1..], x, b);
    }
  }

  lemma {:induction false} WithoutMeans(a: seq<string>, b: seq<string>)
    ensures Elems(Without(a, b)) == Elems(a) - Elems(b) && |Without(a, b)| <= |a|
    ensures Distinct(a) ==> Distinct(Without(a, b))
  {
    if a != [] {
      hide Elems, Distinct;
      var rest := Without(a[1..], b);
      WithoutMeans(a[1..], b);
      assert a == [a[0]] + a[1..];
      ElemsCons(a[0], a[1..]);
      ElemsCons(a[0], rest);
      InElems(a[0], b);
      InElems(a[0], rest);
      assert [] + rest == rest;
      DistinctTail(a);
      InElems(a[0], a[1..]);
      if Distinct(a) { DistinctCons(a[0], rest); }
    }
  }

  lemma InElems(x: string, s: seq<string>)
    ensures x in s <==> x in Elems(s)
  {
  }

  lemma DistinctTail(s: seq<string>)
    requires s != []
    ensures Distinct(s) ==> (Distinct(s[1..]) && s[0] !in s[1..])
  {
  }

  lemma DistinctCons(x: string, s: seq<string>)
    ensures x !in s && Distinct(s) ==> Distinct([x] + s)
  {
  }

  /** The marks a cross comparison leaves on a vector: header cells, and items the other list does not have. */
  ghost function Marks(v: seq<string>, other: seq<string>): (s: seq<bool>)
    ensures |s| == |v|
  {
    seq(|v|, i requires 0 <= i < |v| => i < HEADER || v[i] !in Data(other))
  }

  /** The number of marks is the size of a vector of the surviving items. */
  lemma {:induction false} CountMarks(v: seq<string>, other: seq<string>)
    requires |v| >= HEADER
    ensures Count(Marks(v, other)) == HEADER + |Without(Data(v), Data(other))|
    decreases |v|
  {
    hide Count, Without;
    if |v| == HEADER {
      CountSame(Marks(v, other), true);
      NothingLeft(Data(v), Data(other));
    } else {
      var w, x := v[..|v| - 1], v[|v| - 1];
      CountMarks(w, other);
      assert Data(v) == Data(w) + [x];
      WithoutSnoc(Data(w), x, Data(other));
      MarksSnoc(w, x, other);
      assert v == w + [x];
      CountSnoc(Marks(w, other), x !in Data(other));
    }
  }

  lemma NothingLeft(a: seq<string>, b: seq<string>)
    requires a == []
    ensures Without(a, b) == []
  {
  }

  lemma MarksSnoc(w: seq<string>, x: string, other: seq<string>)
    requires |w| >= HEADER
    ensures Marks(w + [x], other) == Marks(w, other) + [x !in Data(other)]
  {
    hide Data;
  }

  lemma {:induction false} CountSnoc(bits: seq<bool>, b: bool)
    ensures Count(bits + [b]) == Count(bits) + if b then 1 else 0
  {
    if bits == [] {
      assert (bits + [b])[1..] == [];
    } else {
      assert (bits + [b])[1..] == bits[1..] + [b];
      CountSnoc(bits[1..], b);
    }
  }

  /** The bitmap of a vector, missing exactly when the vector is. */
  ghost predicate Marked(bmp: Bmp?, v: seq<string>, bits: seq<bool>)
    reads bmp, if bmp == null then {} else {bmp.mem}
  {
    if bmp == null then v == [] else |v| >= HEADER && bmp.Valid() && bmp.bitCount == |v| && bmp.Bits() == bits
  }

  ghost function Cells(bmp: Bmp?): set<object> {
    if bmp == null then {} else var o: object := bmp; {o, bmp.mem}
  }

  /** The state of the comparison: the first `i` positions of `v` are marked, the others still set. */
  ghost function Partly(v: seq<string>, other: seq<string>, i: nat): (s: seq<bool>)
    ensures |s| == |v|
  {
    seq(|v|, k requires 0 <= k < |v| => k < HEADER || k >= i || v[k] !in Data(other))
  }

  /** Everything before the positions is below everything after them. */
  ghost predicate Split(oldv: seq<string>, newv: seq<string>, iOld: nat, iNew: nat) {
    && (forall a, b :: HEADER <= a < iOld && a < |oldv| && iNew <= b < |newv| ==> Rank(oldv[a]) < Rank(newv[b]))
    && (forall a, b :: iOld <= a < |oldv| && HEADER <= b < iNew && b < |newv| ==> Rank(newv[b]) < Rank(oldv[a]))
  }

  /** ubr.c _delta_cross_bitmap_calc */
  method CrossBitmapCalc(oldv: seq<string>, newv: seq<string>, oldBmp: Bmp?, newBmp: Bmp?)
    requires Ascending(Data(oldv)) && Ascending(Data(newv))
    requires Marked(oldBmp, oldv, Partly(oldv, newv, HEADER)) && Marked(newBmp, newv, Partly(newv, oldv, HEADER))
    requires Cells(oldBmp) !! Cells(newBmp)
    modifies Cells(oldBmp), Cells(newBmp)
    ensures Marked(oldBmp, oldv, Marks(oldv, newv)) && Marked(newBmp, newv, Marks(newv, oldv))
  {
    hide Rank;
    var oldSize := if |oldv| < HEADER then HEADER else |oldv|;
    var newSize := if |newv| < HEADER then HEADER else |newv|;
    var iOld: nat, iNew: nat := HEADER, HEADER;
    while iOld < oldSize && iNew < newSize
      invariant HEADER <= iOld <= oldSize && HEADER <= iNew <= newSize
      invariant Marked(oldBmp, oldv, Partly(oldv, newv, iOld)) && Marked(newBmp, newv, Partly(newv, oldv, iNew))
      invariant Split(oldv, newv, iOld, iNew)
      decreases oldSize - iOld + newSize - iNew
    {
      var cmp := Strcmp(oldv[iOld], newv[iNew]);
      CrossStep(oldv, newv, iOld, iNew, cmp);
      if cmp < 0 {
        iOld := iOld + 1;
      } else if cmp > 0 {
        iNew := iNew + 1;
      } else {
        var r1 := oldBmp.UnsetBit(iOld);
        var r2 := newBmp.UnsetBit(iNew);
        iOld, iNew := iOld + 1, iNew + 1;
      }
    }
    CrossEnds(oldv, newv, iOld, iNew);
  }

  /** What one comparison decides. */
  lemma CrossStep(oldv: seq<string>, newv: seq<string>, iOld: nat, iNew: nat, cmp: int)
    requires Ascending(Data(oldv)) && Ascending(Data(newv)) && Split(oldv, newv, iOld, iNew)
    requires HEADER <= iOld < |oldv| && HEADER <= iNew < |newv| && cmp == Strcmp(oldv[iOld], newv[iNew])
    ensures cmp < 0 ==> (Split(oldv, newv, iOld + 1, iNew) && Partly(oldv, newv, iOld + 1) == Partly(oldv, newv, iOld))
    ensures cmp > 0 ==> (Split(oldv, newv, iOld, iNew + 1) && Partly(newv, oldv, iNew + 1) == Partly(newv, oldv, iNew))
    ensures cmp == 0 ==> (Split(oldv, newv, iOld + 1, iNew + 1) &&
                          Partly(oldv, newv, iOld + 1) == Partly(oldv, newv, iOld)[iOld := false] &&
                          Partly(newv, oldv, iNew + 1) == Partly(newv, oldv, iNew)[iNew := false])
  {
    StrcmpIsRank(oldv[iOld], newv[iNew]);
    hide Rank, Strcmp, Ascending, Partly, Split, Data;
    SplitSwaps(oldv, newv, iOld, iNew);
    if cmp < 0 {
      CrossLess(oldv, newv, iOld, iNew);
    } else if cmp > 0 {
      CrossLess(newv, oldv, iNew, iOld);
      SplitSwaps(newv, oldv, iNew + 1, iOld);
    } else {
      CrossSame(oldv, newv, iOld, iNew);
      PartlySame(oldv, newv, iOld, iNew);
      PartlySame(newv, oldv, iNew, iOld);
    }
  }

  lemma SplitSwaps(v: seq<string>, w: seq<string>, i: nat, j: nat)
    requires Split(v, w, i, j)
    ensures Split(w, v, j, i)
  {
  }

  lemma CrossLess(v: seq<string>, w: seq<string>, i: nat, j: nat)
    requires Ascending(Data(v)) && Ascending(Data(w)) && Split(v, w, i, j)
    requires HEADER <= i < |v| && HEADER <= j < |w| && Rank(v[i]) < Rank(w[j])
    ensures Split(v, w, i + 1, j) && Partly(v, w, i + 1) == Partly(v, w, i)
  {
    hide Rank, Ascending, Data;
    DataOrder(v);
    DataOrder(w);
    NotAmong(w, v[i], j);
  }

  lemma CrossSame(v: seq<string>, w: seq<string>, i: nat, j: nat)
    requires Ascending(Data(v)) && Ascending(Data(w)) && Split(v, w, i, j)
    requires HEADER <= i < |v| && HEADER <= j < |w| && v[i] == w[j]
    ensures Split(v, w, i + 1, j + 1)
  {
    hide Rank, Ascending, Data;
    DataOrder(v);
    DataOrder(w);
  }

  lemma PartlySame(v: seq<string>, w: seq<string>, i: nat, j: nat)
    requires HEADER <= i < |v| && HEADER <= j < |w| && v[i] == w[j]
    ensures Partly(v, w, i + 1) == Partly(v, w, i)[i := false]
  {
    assert Data(w)[j - HEADER] == w[j];
  }

  lemma DataOrder(v: seq<string>)
    requires Ascending(Data(v))
    ensures forall a, b :: HEADER <= a < b < |v| ==> Rank(v[a]) < Rank(v[b])
  {
    forall a, b | HEADER <= a < b < |v| ensures Rank(v[a]) < Rank(v[b]) {
      assert Data(v)[a - HEADER] == v[a] && Data(v)[b - HEADER] == v[b];
    }
  }

  lemma NotAmong(v: seq<string>, x: string, i: nat)
    requires forall a :: HEADER <= a < i && a < |v| ==> Rank(v[a]) < Rank(x)
    requires forall a :: i <= a < |v| ==> Rank(x) < Rank(v[a])
    ensures x !in Data(v)
  {
    forall k | 0 <= k < |Data(v)| ensures Data(v)[k] != x {
      assert Data(v)[k] == v[k + HEADER];
    }
  }

  lemma CrossEnds(oldv: seq<string>, newv: seq<string>, iOld: nat, iNew: nat)
    requires Ascending(Data(oldv)) && Ascending(Data(newv)) && Split(oldv, newv, iOld, iNew)
    requires (iOld >= |oldv| && iNew >= HEADER) || (iNew >= |newv| && iOld >= HEADER)
    ensures Partly(oldv, newv, iOld) == Marks(oldv, newv) && Partly(newv, oldv, iNew) == Marks(newv, oldv)
  {
    hide Rank, Ascending;
    forall k | 0 <= k < |oldv| && k >= iOld ensures k < HEADER || oldv[k] !in Data(newv) {
      if k >= HEADER { NotAmong(newv, oldv[k], iNew); }
    }
    forall k | 0 <= k < |newv| && k >= iNew ensures k < HEADER || newv[k] !in Data(oldv) {
      if k >= HEADER { NotAmong(oldv, newv[k], iOld); }
    }
  }

  /** The surviving items of `v` go to the buffer, in order. */
  method AppendMarked(buf: Buf?<string>, v: seq<string>, bmp: Bmp?, ghost other: seq<string>,
                      ghost header: seq<string>, ghost list: seq<string>, ghost size: nat) returns (r: int)
    requires Holds(buf, header, list, size) && Marked(bmp, v, Marks(v, other)) && |header| == HEADER
    requires Cells(bmp) !! Slots(buf)
    requires v != [] ==> HEADER + |list| + |Without(Data(v), Data(other))| <= size
    modifies Slots(buf)
    ensures r == 0 && Holds(buf, header, list + Without(Data(v), Data(other)), size) && Slots(buf) == old(Slots(buf))
    ensures Marked(bmp, v, Marks(v, other))
  {
    hide Without, Holds, Data;
    r := 0;
    if v == [] {
      NoneLeft(list, v, other);
      return;
    }
    ghost var put := list;
    PutStarts(list, v, other);
    for i := HEADER to |v|
      invariant r == 0 && put == list + Without(v[HEADER..i], Data(other))
      invariant Holds(buf, header, put, size) && Slots(buf) == old(Slots(buf))
      invariant Marked(bmp, v, Marks(v, other))
    {
      PutMore(list, v, other, i, size);
      var isSet := bmp.BitIsSet(i);
      if isSet {
        r := Append(buf, v[i], header, put, size);
        put := put + [v[i]];
      }
    }
    PutEnds(v, other);
  }

  lemma NoneLeft(list: seq<string>, v: seq<string>, other: seq<string>)
    requires v == []
    ensures list + Without(Data(v), Data(other)) == list
  {
  }

  lemma PutStarts(list: seq<string>, v: seq<string>, other: seq<string>)
    requires |v| >= HEADER
    ensures list + Without(v[HEADER..HEADER], Data(other)) == list
  {
  }

  lemma PutEnds(v: seq<string>, other: seq<string>)
    requires |v| >= HEADER
    ensures v[HEADER..|v|] == Data(v)
  {
  }

  lemma PutMore(list: seq<string>, v: seq<string>, other: seq<string>, i: nat, size: nat)
    requires HEADER <= i < |v| && HEADER + |list| + |Without(Data(v), Data(other))| <= size
    ensures Without(v[HEADER..i + 1], Data(other)) == Without(v[HEADER..i], Data(other)) + if v[i] in Data(other) then [] else [v[i]]
    ensures list + Without(v[HEADER..i], Data(other)) + [v[i]] == list + (Without(v[HEADER..i], Data(other)) + [v[i]])
    ensures list + Without(v[HEADER..i], Data(other)) == list + (Without(v[HEADER..i], Data(other)) + [])
    ensures v[i] !in Data(other) ==> HEADER + |list + Without(v[HEADER..i], Data(other))| < size
    ensures Marks(v, other)[i] <==> v[i] !in Data(other)
  {
    hide Data;
    assert v[HEADER..i + 1] == v[HEADER..i] + [v[i]];
    WithoutSnoc(v[HEADER..i], v[i], Data(other));
    PutEnds(v, other);
    assert v[HEADER..|v|] == v[HEADER..i + 1] + v[i + 1..];
    WithoutShorter(v[HEADER..i + 1], v[i + 1..], Data(other));
  }

  lemma {:induction false} WithoutShorter(a: seq<string>, b: seq<string>, c: seq<string>)
    ensures |Without(a, c)| <= |Without(a + b, c)|
  {
    if a != [] {
      assert (a + b)[1..] == a[1..] + b;
      WithoutShorter(a[1..], b, c);
    }
  }

  /** The C library's qsort over the list part of a buffer. */
  method SortData(buf: Buf<string>, ghost header: seq<string>, ghost list: seq<string>, ghost size: nat)
    requires Holds(buf, header, list, size) && |header| == HEADER && Distinct(list)
    modifies buf.mem
    ensures Holds(buf, header, Qsort(list), size) && Slots(buf) == old(Slots(buf))
  {
    QsortMeans(list);
    var n := buf.used;
    assert buf.mem[..n] == header + list;
    var sorted := Qsort(buf.mem[HEADER..n]);
    assert buf.mem[HEADER..n] == list;
    for i := HEADER to n
      invariant buf.mem[..i] == header + sorted[..i - HEADER]
    {
      buf.mem[i] := sorted[i - HEADER];
      assert sorted[..i + 1 - HEADER] == sorted[..i - HEADER] + [sorted[i - HEADER]];
      assert buf.mem[..i + 1] == buf.mem[..i] + [sorted[i - HEADER]];
    }
    assert sorted[..n - HEADER] == sorted;
  }

  /** The size of an absolute vector, from the bitmaps of its two sources. */
  method AbsSize(a: Bmp?, b: Bmp?, ghost v: seq<string>, ghost vOther: seq<string>, ghost w: seq<string>, ghost wOther: seq<string>)
    returns (n: nat)
    requires Marked(a, v, Marks(v, vOther)) && Marked(b, w, Marks(w, wOther))
    ensures n == if a == null && b == null then 0
                 else HEADER + |Without(Data(v), Data(vOther))| + |Without(Data(w), Data(wOther))|
  {
    hide Without, Count, Marks;
    n := 0;
    if a != null {
      CountMarks(v, vOther);
      n := a.GetBitSetCount();
    } else {
      NoneLeft([], v, vOther);
    }
    if b != null {
      CountMarks(w, wOther);
      var m := b.GetBitSetCount();
      n := n + m;
    } else {
      NoneLeft([], w, wOther);
    }
    if a != null && b != null { n := n - HEADER; }
  }

  method CreateBmp(v: seq<string>) returns (b: Bmp?)
    requires v == [] || |v| >= HEADER
    ensures fresh(Cells(b))
    ensures forall w :: Marked(b, v, Partly(v, w, HEADER)) && (w == [] ==> Marked(b, v, Marks(v, w)))
  {
    b := null;
    if v != [] {
      b := new Bmp(|v|, true);
      forall w ensures b.Bits() == Partly(v, w, HEADER) && (w == [] ==> b.Bits() == Marks(v, w)) {
        if w == [] { assert Data(w) == []; }
      }
    }
  }

  /** The bitmaps of one cross comparison: a stored vector against the opposite list of the step, if there is one. */
  method Cross(stored: seq<string>, added: Option<seq<string>>) returns (a: Bmp?, b: Bmp?)
    requires stored == [] || |stored| >= HEADER
    requires added.Some? ==> |added.value| >= HEADER
    requires Ascending(Data(stored)) && Ascending(Data(Cells0(added)))
    ensures Marked(a, stored, Marks(stored, Cells0(added))) && Marked(b, Cells0(added), Marks(Cells0(added), stored))
    ensures fresh(Cells(a)) && fresh(Cells(b)) && Cells(a) !! Cells(b)
  {
    hide Marks, Partly, Marked;
    a := CreateBmp(stored);
    b := CreateBmp(Cells0(added));
    if added.Some? {
      CrossBitmapCalc(stored, added.value, a, b);
    } else {
      MissingMarked(b, stored);
    }
  }

  lemma MissingMarked(b: Bmp?, stored: seq<string>)
    requires Marked(b, [], Partly([], stored, HEADER))
    ensures Marked(b, [], Marks([], stored))
  {
  }

  /** The cells of an optional vector. */
  function Cells0(v: Option<seq<string>>): seq<string> {
    if v.Some? then v.value else []
  }

  /** The absolute list: what survives of the stored list, then what survives of the step's. */
  function AbsList(stored: seq<string>, cancel: seq<string>, added: seq<string>, cancelled: seq<string>): seq<string> {
    Without(Data(stored), Data(cancel)) + Without(Data(added), Data(cancelled))
  }

  /** An absolute vector; it is missing when neither source exists, and may be a bare header. */
  function AbsVector(header: seq<string>, stored: seq<string>, cancel: seq<string>, added: seq<string>, cancelled: seq<string>)
    : Option<seq<string>>
  {
    if stored == [] && added == [] then None else Some(header + Qsort(AbsList(stored, cancel, added, cancelled)))
  }

  predicate VectorOk(v: seq<string>) {
    v == [] || |v| >= HEADER
  }

  /** ubr.c _delta_abs_calc: from the stored absolute lists and the lists of one step to the new absolute lists. The
      buffers get exactly the slots the set bits count, and every slot is used. */
  method AbsCalc(header: seq<string>, plus: Option<seq<string>>, minus: Option<seq<string>>,
                 storedPlus: seq<string>, storedMinus: seq<string>)
    returns (r: int, absPlus: Option<seq<string>>, absMinus: Option<seq<string>>)
    requires |header| == HEADER && VectorOk(storedPlus) && VectorOk(storedMinus)
    requires (plus.Some? ==> |plus.value| >= HEADER) && (minus.Some? ==> |minus.value| >= HEADER)
    requires Ascending(Data(storedPlus)) && Ascending(Data(storedMinus))
    requires Ascending(Data(Cells0(plus))) && Ascending(Data(Cells0(minus)))
    requires Distinct(AbsList(storedPlus, Cells0(minus), Cells0(plus), storedMinus))
    requires Distinct(AbsList(storedMinus, Cells0(plus), Cells0(minus), storedPlus))
    ensures r == 0
    ensures plus.None? && minus.None? ==> absPlus == None && absMinus == None
    ensures plus.Some? || minus.Some? ==>
      && absPlus == AbsVector(header, storedPlus, Cells0(minus), Cells0(plus), storedMinus)
      && absMinus == AbsVector(header, storedMinus, Cells0(plus), Cells0(minus), storedPlus)
  {
    hide Marked, Marks, Data, Without, Distinct, Qsort, Holds;
    if plus.None? && minus.None? { return 0, None, None; }
    var p, m := Cells0(plus), Cells0(minus);
    var old1, new1 := Cross(storedPlus, minus);
    var old2, new2 := Cross(storedMinus, plus);
    MarkedNull(old1, storedPlus, m);
    MarkedNull(new1, m, storedPlus);
    MarkedNull(old2, storedMinus, p);
    MarkedNull(new2, p, storedMinus);
    var minusSize := AbsSize(old2, new1, storedMinus, p, m, storedPlus);
    var plusSize := AbsSize(old1, new2, storedPlus, m, p, storedMinus);
    r, absPlus, absMinus := Fill(header, p, m, storedPlus, storedMinus, old1, new1, old2, new2, plusSize, minusSize);
  }

  /** Filling and sorting the absolute vectors. */
  method Fill(header: seq<string>, p: seq<string>, m: seq<string>, storedPlus: seq<string>, storedMinus: seq<string>,
              old1: Bmp?, new1: Bmp?, old2: Bmp?, new2: Bmp?, plusSize: nat, minusSize: nat)
    returns (r: int, absPlus: Option<seq<string>>, absMinus: Option<seq<string>>)
    requires |header| == HEADER
    requires Marked(old1, storedPlus, Marks(storedPlus, m)) && Marked(new1, m, Marks(m, storedPlus))
    requires Marked(old2, storedMinus, Marks(storedMinus, p)) && Marked(new2, p, Marks(p, storedMinus))
    requires Distinct(AbsList(storedPlus, m, p, storedMinus)) && Distinct(AbsList(storedMinus, p, m, storedPlus))
    requires plusSize == if storedPlus == [] && p == [] then 0 else HEADER + |AbsList(storedPlus, m, p, storedMinus)|
    requires minusSize == if storedMinus == [] && m == [] then 0 else HEADER + |AbsList(storedMinus, p, m, storedPlus)|
    ensures r == 0
    ensures absPlus == AbsVector(header, storedPlus, m, p, storedMinus)
    ensures absMinus == AbsVector(header, storedMinus, p, m, storedPlus)
  {
    hide Marked, Marks, Data, Without, Distinct, Qsort, Holds;
    var plusBuf, minusBuf, finalBuf;
    r, plusBuf, minusBuf, finalBuf := InitDeltaBuffers(header, minusSize, plusSize, 0);
    absPlus := FillOne(plusBuf, header, storedPlus, old1, m, p, new2, storedMinus, plusSize);
    SortEither(Without(Data(storedMinus), Data(p)), Without(Data(m), Data(storedPlus)));
    absMinus := FillOne(minusBuf, header, m, new1, storedPlus, storedMinus, old2, p, minusSize);
  }

  /** The two copying loops of one absolute vector, and its sorting. Every slot is used. */
  method FillOne(buf: Buf?<string>, ghost header: seq<string>, v: seq<string>, a: Bmp?, ghost vOther: seq<string>,
                 w: seq<string>, b: Bmp?, ghost wOther: seq<string>, ghost size: nat)
    returns (data: Option<seq<string>>)
    requires |header| == HEADER
    requires Marked(a, v, Marks(v, vOther)) && Marked(b, w, Marks(w, wOther))
    requires Holds(buf, header, [], size) && Cells(a) + Cells(b) !! Slots(buf)
    requires Distinct(AbsList(v, vOther, w, wOther))
    requires size == if v == [] && w == [] then 0 else HEADER + |AbsList(v, vOther, w, wOther)|
    modifies Slots(buf)
    ensures data == AbsVector(header, v, vOther, w, wOther)
    ensures buf != null ==> buf.used == buf.mem.Length
  {
    hide Marked, Marks, Data, Without, Holds, Distinct, Qsort;
    ghost var l1, l2 := Without(Data(v), Data(vOther)), Without(Data(w), Data(wOther));
    assert [] + l1 == l1;
    var r := AppendMarked(buf, v, a, vOther, header, [], size);
    r := AppendMarked(buf, w, b, wOther, header, l1, size);
    HoldsNull(buf, header, l1 + l2, size);
    data := SortAndRead(buf, header, l1 + l2, size);
  }

  lemma HoldsNull(buf: Buf?<string>, header: seq<string>, list: seq<string>, size: nat)
    requires Holds(buf, header, list, size) && |header| == HEADER
    ensures buf == null <==> size == 0
  {
  }

  /** Sorting forgets which list was appended first. */
  lemma SortEither(a: seq<string>, b: seq<string>)
    requires Distinct(a + b)
    ensures Distinct(b + a) && Qsort(b + a) == Qsort(a + b)
  {
    forall i, j | 0 <= i < j < |b + a| ensures (b + a)[i] != (b + a)[j] {
      var i2 := if i < |b| then i + |a| else i - |b|;
      var j2 := if j < |b| then j + |a| else j - |b|;
      assert (a + b)[i2] == (b + a)[i] && (a + b)[j2] == (b + a)[j];
    }
    QsortMeans(a + b);
    QsortMeans(b + a);
    ElemsAppend(a, b);
    ElemsAppend(b, a);
    AscendingUnique(Qsort(b + a), Qsort(a + b));
  }

  /** The full buffer, sorted. */
  method SortAndRead(buf: Buf?<string>, ghost header: seq<string>, ghost list: seq<string>, ghost size: nat)
    returns (data: Option<seq<string>>)
    requires Holds(buf, header, list, size) && |header| == HEADER && Distinct(list)
    requires buf != null ==> size == HEADER + |list|
    modifies Slots(buf)
    ensures data == if size == 0 then None else Some(header + Qsort(list))
    ensures buf != null ==> buf.used == buf.mem.Length
  {
    data := None;
    if buf != null {
      QsortMeans(list);
      SortData(buf, header, list, size);
      data := Some(buf.mem[..buf.used]);
    }
  }

  lemma MarkedNull(b: Bmp?, v: seq<string>, w: seq<string>)
    requires Marked(b, v, Marks(v, w))
    ensures b == null <==> v == []
  {
  }
}
