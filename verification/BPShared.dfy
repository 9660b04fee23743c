/** What an update's callback sees, and a run whose outcome hangs on it. */
module BPShared {
  import opened BPTypes
  import opened BPUpdate
  import opened BPTree
  import opened BPValid
  import opened BPRefine
  import opened BPRuns

  /** A callback is shown the data of a present key and the number of keys that share its record, and zeroes for a missing key. */
  lemma CallbackSees(op: Op, a: Moment, b: Moment, r: int)
    requires op.Update? && op.fn.Some? && Does(op, a, b, r)
    ensures op.key in a.view ==>
      var cell := a.view[op.key];
      var keys := set k | k in a.view && a.view[k].rec == cell.rec;
      Updates(op.key, op.fn.value(op.key, OldValue(cell.data, cell.dataSize, |keys|), op.newData, op.newSize), a, b, r)
    ensures op.key !in a.view ==>
      Updates(op.key, op.fn.value(op.key, OldValue(0, 0, 0), op.newData, op.newSize), a, b, r)
  {
    hide Updates;
  }

  /** Without a callback an update with data writes it and one without data removes the key. */
  lemma NoCallback(op: Op, a: Moment, b: Moment, r: int)
    requires op.Update? && op.fn.None? && Does(op, a, b, r)
    ensures op.newData.Some? && r == 0 ==> Wrote(a.view, b.view, op.key, op.newData.value, op.newSize)
    ensures op.newData.Some? && r != 0 ==> op.key !in a.view && b.view == a.view
    ensures op.newData.None? ==> b.view.Keys == a.view.Keys - {op.key}
  {
    hide Wrote;
  }

  /** A callback that leaves shared records alone, changes the one it knows, writes what it is given for a missing key, and
      otherwise removes. */
  function Careful(key: string, was: OldValue, data: Option<int>, dataSize: nat): Answer {
    if was.refCount > 1 then Answer(Skip, data, dataSize)
    else if key == "c" && was == OldValue(8, 2, 1) then Answer(Write, Some(5), 4)
    else if key == "d" && was == OldValue(0, 0, 0) then Answer(Write, data, dataSize)
    else Answer(Remove, data, dataSize)
  }

  /** Two keys that share a record, one that does not, and updates of a shared, a sole and a missing key. */
  method UpdateSharedSoleMissing() returns (t: BPlusTree, results: seq<int>)
    ensures Valid(t)
    ensures results == [0, 0, 0, 0, 0, 0] ==> var v := View(t);
      && v.Keys == {"a", "b", "c", "d"} && v["a"] == v["b"] && v["a"].data == 1
      && v["c"].data == 5 && v["c"].dataSize == 4 && v["d"].data == 9 && v["d"].dataSize == 3
  {
    hide *;
    var ops := [Op.Add("a", 1, 1), Op.Alias("a", "b", false), Op.Add("c", 8, 2), Op.Update("a", None, 0, Some(Careful)),
                Op.Update("c", None, 0, Some(Careful)), Op.Update("d", Some(9), 3, Some(Careful))];
    ghost var ms;
    t, results, ms := RunAll(4, ops);
    ViewIs(t);
    TraceIs(ops, results, ms);
    if results == [0, 0, 0, 0, 0, 0] {
      FirstThree(ops[..3], results[..3], ms[..4]) by { TraceStart(ops, results, ms, 3); }
      TraceAt(ops, results, ms, 3);
      TraceAt(ops, results, ms, 4);
      TraceAt(ops, results, ms, 5);
      LastThree(ms[3], ms[4], ms[5], ms[6]);
    }
  }

  lemma TraceAt(ops: seq<Op>, results: seq<int>, ms: seq<Moment>, i: nat)
    requires Trace(ops, results, ms) && i < |ops|
    ensures |results| == |ops| && |ms| == |ops| + 1 && Does(ops[i], ms[i], ms[i + 1], results[i])
  {
    hide Does;
  }

  lemma TraceStart(ops: seq<Op>, results: seq<int>, ms: seq<Moment>, n: nat)
    requires Trace(ops, results, ms) && n <= |ops|
    ensures |results| == |ops| && |ms| == |ops| + 1 && Trace(ops[..n], results[..n], ms[..n + 1])
  {
    hide Does;
  }

  lemma FirstThree(ops: seq<Op>, results: seq<int>, ms: seq<Moment>)
    requires ops == [Op.Add("a", 1, 1), Op.Alias("a", "b", false), Op.Add("c", 8, 2)] && Trace(ops, results, ms)
    requires ms[0].view == map[] && results == [0, 0, 0]
    ensures var v := ms[3].view;
      && v.Keys == {"a", "b", "c"} && v["a"].data == 1 && v["b"] == v["a"] && v["c"].rec != v["a"].rec
      && v["c"].data == 8 && v["c"].dataSize == 2
  {
    assert Does(ops[0], ms[0], ms[1], 0) && Does(ops[1], ms[1], ms[2], 0) && Does(ops[2], ms[2], ms[3], 0);
    assert ms[1].view.Keys == {"a"};
    assert ms[2].view.Keys == {"a", "b"};
  }

  lemma LastThree(m3: Moment, m4: Moment, m5: Moment, m6: Moment)
    requires Does(Op.Update("a", None, 0, Some(Careful)), m3, m4, 0)
    requires Does(Op.Update("c", None, 0, Some(Careful)), m4, m5, 0)
    requires Does(Op.Update("d", Some(9), 3, Some(Careful)), m5, m6, 0)
    requires var v := m3.view;
      && v.Keys == {"a", "b", "c"} && v["a"].data == 1 && v["b"] == v["a"] && v["c"].rec != v["a"].rec
      && v["c"].data == 8 && v["c"].dataSize == 2
    ensures var v := m6.view;
      && v.Keys == {"a", "b", "c", "d"} && v["a"] == v["b"] && v["a"].data == 1
      && v["c"].data == 5 && v["c"].dataSize == 4 && v["d"].data == 9 && v["d"].dataSize == 3
  {
    var v := m3.view;
    TwoShare(v);
    assert m4.view == v;
    OneShows(v);
    assert m5.view.Keys == {"a", "b", "c"};
  }

  lemma TwoShare(v: Entries)
    requires v.Keys == {"a", "b", "c"} && v["b"] == v["a"] && v["c"].rec != v["a"].rec
    ensures Sharers(v, "a") == 2
  {
    assert (set k | k in v && v[k].rec == v["a"].rec) == {"a", "b"};
  }

  lemma OneShows(v: Entries)
    requires v.Keys == {"a", "b", "c"} && v["b"] == v["a"] && v["c"].rec != v["a"].rec
    ensures Sharers(v, "c") == 1
  {
    assert (set k | k in v && v[k].rec == v["c"].rec) == {"c"};
  }
}
