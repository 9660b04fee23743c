/** Reference counts and sizes across an insertion. */
module BPAddSteps {
  import opened CStrings
  import opened BPTypes
  import opened BPLevels
  import opened BPSlots
  import opened BPTree
  import opened BPFind
  import opened BPValid
  import opened BPLookup

  lemma KeysOfInsert(c: Level, d: nat, e: Entry)
    requires d <= |c| && e.s != null
    ensures KeysOf(Insert(c, d, e)) == KeysOf(c) + {e.s}
  {
    var c' := Insert(c, d, e);
    assert c'[d] == e;
    forall f | f in c ensures f in c' {
      var i :| 0 <= i < |c| && c[i] == f;
      assert c'[if i < d then i else i + 1] == f;
    }
    forall f | f in c' ensures f in c || f == e {
      var i :| 0 <= i < |c'| && c'[i] == f;
      assert f == if i < d then c[i] else if i == d then e else c[i - 1];
    }
  }

  /** The separators of distinct leaves are distinct keys. */
  lemma SepsDistinct(h: Heap, l: Level, c: Level, i: nat, j: nat)
    requires LevelOK(h, l, 1) && Expand(h, l) == c && ContentOK(c) && LeafSeps(h, l)
    requires i < j < |l| && l[i].s != null && l[j].s != null
    ensures l[i].s != l[j].s
  {
    hide Expand, LevelOK;
    var lo, n := LeafSlice(h, l, c, i);
    var lo', n' := LeafSlice(h, l, c, j);
    assert c[lo + (n - 1)].s == l[i].s && c[lo' + (n' - 1)].s == l[j].s;
    LoMonotone(h, l, i + 1, j);
    assert Rank(c[lo + (n - 1)].s.key) < Rank(c[lo' + (n' - 1)].s.key);
  }

  lemma LoMonotone(h: Heap, l: Level, i: nat, j: nat)
    requires i <= j <= |l|
    ensures Lo(h, l, i) <= Lo(h, l, j)
  {
    assert l[..j] == l[..i] + l[i..j];
    ExpandConcat(h, l[..i], l[i..j]);
  }

  /** A leaf split adds one separator. */
  lemma SepsSplit(h: Heap, lv: seq<Level>, lv': seq<Level>, p: nat, u: Ptr, sep: Key, w: Ptr)
    requires |lv| >= 2 && |lv'| >= 2 && p < |lv[1]|
    requires lv'[1] == Splice(lv[1], p, 1, [Entry(u, sep), Entry(w, lv[1][p].s)])
    requires LevelOK(h, lv'[1], 1) && Expand(h, lv'[1]) == lv'[0] && ContentOK(lv'[0]) && LeafSeps(h, lv'[1])
    ensures Seps(lv') == Seps(lv) + {sep} && sep !in Seps(lv)
  {
    hide Expand, LevelOK, ContentOK, LeafSeps;
    var l, l' := lv[1], lv'[1];
    assert l'[p] == Entry(u, sep) && l'[p + 1] == Entry(w, l[p].s);
    forall i | 0 <= i < |l|
      ensures exists j :: 0 <= j < |l'| && j != p && l'[j].s == l[i].s
    {
      assert l'[if i < p then i else i + 1].s == l[i].s;
    }
    forall j | 0 <= j < |l'| && j != p
      ensures l'[j].s != null ==> l'[j].s in Seps(lv) && l'[j].s != sep
    {
      var i := if j < p then j else j - 1;
      assert l'[j].s == l[i].s && l[i] in l;
      if l'[j].s != null {
        if j < p { SepsDistinct(h, l', lv'[0], j, p); } else { SepsDistinct(h, l', lv'[0], p, j); }
      }
    }
    forall q | q in Seps(lv) ensures q in Seps(lv') && q != sep {
      var e :| e in l && e.s == q;
      var i :| 0 <= i < |l| && l[i] == e;
      var j :| 0 <= j < |l'| && j != p && l'[j].s == l[i].s;
      assert l'[j] in l';
    }
    assert sep in Seps(lv') by { assert l'[p] in l'; }
    forall q | q in Seps(lv') ensures q in Seps(lv) + {sep} {
      var e :| e in l' && e.s == q;
      var j :| 0 <= j < |l'| && l'[j] == e;
    }
  }

  /** Separators are keys of the content. */
  lemma SepsAreKeys(h: Heap, lv: seq<Level>)
    requires |lv| >= 2 && LevelOK(h, lv[1], 1) && Expand(h, lv[1]) == lv[0] && LeafSeps(h, lv[1])
    ensures Seps(lv) <= KeysOf(lv[0])
  {
    hide Expand, LevelOK;
    forall q | q in Seps(lv) ensures q in KeysOf(lv[0]) {
      var e :| e in lv[1] && e.s == q && e.s != null;
      var i :| 0 <= i < |lv[1]| && lv[1][i] == e;
      var lo, n := LeafSlice(h, lv[1], lv[0], i);
      assert lv[0][lo + (n - 1)].s == q;
      assert lv[0][lo + (n - 1)] in lv[0];
    }
  }

  // ----- Record counts -----

  lemma {:induction false} CountConcat(a: Level, b: Level, r: Record)
    ensures Count(a + b, r) == Count(a, r) + Count(b, r)
  {
    if a == [] {
      assert a + b == b;
    } else {
      assert (a + b)[1..] == a[1..] + b;
      CountConcat(a[1..], b, r);
    }
  }

  lemma CountInsert(c: Level, d: nat, e: Entry, r: Record)
    requires d <= |c|
    ensures Count(Insert(c, d, e), r) == Count(c, r) + if e.p == ToRecord(r) then 1 else 0
  {
    assert c == c[..d] + c[d..];
    CountConcat(c[..d], c[d..], r);
    CountConcat(c[..d] + [e], c[d..], r);
    CountConcat(c[..d], [e], r);
    assert [e][1..] == [];
  }

  lemma {:induction false} CountPositive(c: Level, r: Record, i: nat)
    requires i < |c| && c[i].p == ToRecord(r)
    ensures Count(c, r) > 0
  {
    if i > 0 { CountPositive(c[1..], r, i - 1); }
  }

  lemma {:induction false} CountZero(c: Level, r: Record)
    requires forall i :: 0 <= i < |c| ==> c[i].p != ToRecord(r)
    ensures Count(c, r) == 0
  {
    if c != [] { CountZero(c[1..], r); }
  }

  // ----- Bytes -----

  lemma {:induction false} KeyBytesConcat(a: Level, b: Level)
    ensures KeyBytes(a + b) == KeyBytes(a) + KeyBytes(b)
  {
    if a == [] {
      assert a + b == b;
    } else {
      assert (a + b)[1..] == a[1..] + b;
      KeyBytesConcat(a[1..], b);
    }
  }

  lemma KeyBytesInsert(c: Level, d: nat, e: Entry)
    requires d <= |c| && e.s != null
    ensures KeyBytes(Insert(c, d, e)) == KeyBytes(c) + KeySize(e.s)
  {
    assert c == c[..d] + c[d..];
    KeyBytesConcat(c[..d], c[d..]);
    KeyBytesConcat(c[..d] + [e], c[d..]);
    KeyBytesConcat(c[..d], [e]);
    assert [e][1..] == [];
  }

  lemma {:induction false} SumConcat(a: seq<nat>, b: seq<nat>)
    ensures Sum(a + b) == Sum(a) + Sum(b)
  {
    if a == [] {
      assert a + b == b;
    } else {
      assert (a + b)[1..] == a[1..] + b;
      SumConcat(a[1..], b);
    }
  }

  /** The data sizes as values, so that they can be compared across changes of the records. */
  lemma {:induction false} DataSizes(recs: seq<Record>) returns (sz: seq<nat>)
    ensures |sz| == |recs| && forall i :: 0 <= i < |recs| ==> sz[i] == recs[i].dataSize
    ensures DataBytes(recs) == Sum(sz)
  {
    if recs == [] {
      sz := [];
    } else {
      var rest := DataSizes(recs[1..]);
      sz := [recs[0].dataSize] + rest;
    }
  }

  lemma {:induction false} DataBytesIs(recs: seq<Record>, sz: seq<nat>)
    requires |sz| == |recs| && forall i :: 0 <= i < |recs| ==> sz[i] == recs[i].dataSize
    ensures DataBytes(recs) == Sum(sz)
  {
    if recs != [] { DataBytesIs(recs[1..], sz[1..]); }
  }

  lemma DataBytesAppend(recs: seq<Record>, r: Record)
    ensures DataBytes(recs + [r]) == DataBytes(recs) + r.dataSize
  {
    var sz := DataSizes(recs);
    DataBytesIs(recs + [r], sz + [r.dataSize]);
    SumConcat(sz, [r.dataSize]);
    assert [r.dataSize][1..] == [];
  }

  lemma DataBytesRemove(recs: seq<Record>, i: nat)
    requires i < |recs|
    ensures DataBytes(recs[..i] + recs[i + 1..]) == DataBytes(recs) - recs[i].dataSize
  {
    var sz := DataSizes(recs);
    DataBytesIs(recs[..i] + recs[i + 1..], sz[..i] + sz[i + 1..]);
    SumRemove(sz, i);
  }

  lemma SumUpdate(s: seq<nat>, i: nat, x: nat)
    requires i < |s|
    ensures Sum(s[i := x]) == Sum(s) - s[i] + x
  {
    var a, b := s[..i], s[i + 1..];
    assert s == a + ([s[i]] + b) && s[i := x] == a + ([x] + b);
    SumConcat(a, [s[i]] + b);
    SumConcat(a, [x] + b);
    assert ([s[i]] + b)[1..] == b && ([x] + b)[1..] == b;
  }

  lemma DataBytesUpdate(recs: seq<Record>, i: nat, sz: seq<nat>)
    requires |sz| == |recs| && i < |recs|
    requires forall j :: 0 <= j < |recs| && j != i ==> recs[j].dataSize == sz[j]
    ensures DataBytes(recs) == Sum(sz) - sz[i] + recs[i].dataSize
  {
    SumUpdate(sz, i, recs[i].dataSize);
    DataBytesIs(recs, sz[i := recs[i].dataSize]);
  }

  lemma SumRemove(s: seq<nat>, i: nat)
    requires i < |s|
    ensures Sum(s[..i] + s[i + 1..]) == Sum(s) - s[i]
  {
    var a, b := s[..i], s[i + 1..];
    assert s == a + ([s[i]] + b);
    SumConcat(a, [s[i]] + b);
    SumConcat(a, b);
    assert ([s[i]] + b)[1..] == b;
  }

  /** A record new to the tree enters the list with its first slot. */
  lemma RecordsAppend(c: Level, d: nat, e: Entry, recs: seq<Record>, rec: Record)
    requires RecordCounts(c, recs) && rec !in recs && rec.refCount == 1 && e.p == ToRecord(rec) && d <= |c|
    ensures RecordCounts(Insert(c, d, e), recs + [rec])
  {
    var c', recs' := Insert(c, d, e), recs + [rec];
    forall i | 0 <= i < |c'| && c'[i].p.ToRecord? ensures c'[i].p.rec in recs' {
      assert c'[i] == if i < d then c[i] else if i == d then e else c[i - 1];
      assert recs'[|recs|] == rec;
      if i != d { assert c'[i].p.rec in recs; }
    }
    forall r | r in recs' ensures r.refCount == Count(c', r) > 0 {
      CountInsert(c, d, e, r);
      if r == rec {
        CountZero(c, rec);
      } else {
        assert r in recs;
      }
    }
  }

  /** An alias adds a slot to a record that is already listed. */
  lemma RecordsAlias(c: Level, d: nat, e: Entry, recs: seq<Record>, rec: Record)
    requires |recs| >= 0 && rec in recs && e.p == ToRecord(rec) && d <= |c|
    requires forall i, j :: 0 <= i < j < |recs| ==> recs[i] != recs[j]
    requires forall i :: 0 <= i < |c| && c[i].p.ToRecord? ==> c[i].p.rec in recs
    requires forall r :: r in recs ==> Count(c, r) > 0 && r.refCount == Count(c, r) + if r == rec then 1 else 0
    ensures RecordCounts(Insert(c, d, e), recs)
  {
    hide Insert, Count;
    InsertAt(c, d, e);
    var c' := Insert(c, d, e);
    forall i | 0 <= i < |c'| && c'[i].p.ToRecord? ensures c'[i].p.rec in recs {
      assert c'[i] == if i < d then c[i] else if i == d then e else c[i - 1];
    }
    forall r | r in recs ensures r.refCount == Count(c', r) > 0 {
      CountInsert(c, d, e, r);
    }
  }
}
