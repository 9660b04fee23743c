/** Reference counts, sizes and the map across a deletion. */
module BPDelCounts {
  import opened CStrings
  import opened BPTypes
  import opened BPLevels
  import opened BPSlots
  import opened BPTree
  import opened BPFind
  import opened BPValid
  import opened BPLeafSteps
  import opened BPAddSteps
  import opened BPMap
  import opened BPAlias
  import opened BPSeps
  import opened BPRename
  import opened BPDelLeaf

  lemma {:induction false} CountSame(a: Level, b: Level, r: Record)
    requires |a| == |b| && forall i :: 0 <= i < |a| ==> a[i].p == b[i].p
    ensures Count(a, r) == Count(b, r)
  {
    if a != [] { CountSame(a[1..], b[1..], r); }
  }

  lemma CountRemove(c: Level, d: nat, e: nat, r: Record)
    requires d < |c| && e < |c|
    ensures Count(RemoveSlots(c, d, e), r) + (if c[e].p == ToRecord(r) then 1 else 0) == Count(c, r)
  {
    var b := Remove(c, e);
    assert c == Insert(b, e, c[e]);
    CountInsert(b, e, c[e], r);
    CountSame(RemoveSlots(c, d, e), b, r);
  }

  lemma {:induction false} KeyBytesSame(a: Level, b: Level)
    requires |a| == |b| && forall i :: 0 <= i < |a| ==> a[i].s == b[i].s
    ensures KeyBytes(a) == KeyBytes(b)
  {
    if a != [] { KeyBytesSame(a[1..], b[1..]); }
  }

  lemma KeyBytesRemove(c: Level, d: nat, e: nat)
    requires d < |c| && e < |c| && c[d].s != null
    ensures KeyBytes(RemoveSlots(c, d, e)) == KeyBytes(c) - KeySize(c[d].s)
  {
    var b := Remove(c, d);
    assert c == Insert(b, d, c[d]);
    KeyBytesInsert(b, d, c[d]);
    KeyBytesSame(RemoveSlots(c, d, e), b);
  }

  lemma KeysOfRemove(c: Level, d: nat, e: nat)
    requires ContentOK(c) && d < |c| && e < |c|
    ensures KeysOf(RemoveSlots(c, d, e)) == KeysOf(c) - {c[d].s}
  {
    var c' := RemoveSlots(c, d, e);
    forall q | q in KeysOf(c') ensures q in KeysOf(c) && q != c[d].s {
      var f :| f in c' && f.s == q;
      var m :| 0 <= m < |c'| && c'[m] == f;
      assert c[if m < d then m else m + 1] in c;
    }
    forall q | q in KeysOf(c) && q != c[d].s ensures q in KeysOf(c') {
      var f :| f in c && f.s == q;
      var m :| 0 <= m < |c| && c[m] == f;
      assert c'[if m < d then m else m - 1] in c';
    }
  }

  // ----- Separators -----

  lemma SepsHas(lv: seq<Level>, q: Key)
    requires |lv| >= 2
    ensures q in Seps(lv) <==> HasSep(lv[1], q)
  {
    if q in Seps(lv) {
      var e :| e in lv[1] && e.s == q;
      var i :| 0 <= i < |lv[1]| && lv[1][i] == e;
    }
    if HasSep(lv[1], q) {
      var i :| 0 <= i < |lv[1]| && lv[1][i].s == q;
      assert lv[1][i] in lv[1];
    }
  }

  lemma SepsRename(lv: seq<Level>, a: Key, b: Key, c: Level)
    requires |lv| >= 2
    ensures var lv' := RenameLevels(lv, a, b)[0 := c];
      forall q :: q in Seps(lv') <==> if q == b then b in Seps(lv) || a in Seps(lv) else q != a && q in Seps(lv)
  {
    var lv' := RenameLevels(lv, a, b)[0 := c];
    var l, l' := lv[1], lv'[1];
    assert l' == RenameLevel(l, a, b);
    forall q: Key ensures HasSep(l', q) <==> if q == b then HasSep(l, b) || HasSep(l, a) else q != a && HasSep(l, q) {
      if HasSep(l', q) {
        var i :| 0 <= i < |l'| && l'[i].s == q;
        assert l[i].s == q || l[i].s == a;
      }
      if q == b && HasSep(l, a) {
        var i :| 0 <= i < |l| && l[i].s == a;
        assert l'[i].s == b;
      } else if HasSep(l, q) && (q == b || q != a) {
        var i :| 0 <= i < |l| && l[i].s == q;
        assert l'[i].s == q;
      }
    }
    forall q: Key ensures (q in Seps(lv') <==> HasSep(l', q)) && (q in Seps(lv) <==> HasSep(l, q)) {
      SepsHas(lv', q);
      SepsHas(lv, q);
    }
  }

  /** The key that takes the victim's place separated nothing before. */
  lemma NewSep(h: Heap, lv: seq<Level>, root: Node, p: nat, u: Node, lo: nat, n: nat, i: nat, j: nat, bk: Key, w: Key)
    requires Tree(h, lv, root) && ContentOK(lv[0]) && Leaves(h, lv[1]) && Victim(h, lv, p, u, lo, n, i, j, bk, w)
    requires w != bk
    ensures w !in Seps(lv)
  {
    hide Linked, LevelOK, Parents, Expand, ContentOK, Chain;
    LeafLevelOK(h, lv, root);
    SepsHas(lv, w);
    if HasSep(lv[1], w) {
      var q :| 0 <= q < |lv[1]| && lv[1][q].s == w;
      LeafKeyOnce(h, lv, p, lo, n, i - 1, q, |V(h, lv[1][q].p).ks| - 1);
      assert false;
    }
  }

  lemma VictimSep(h: Heap, lv: seq<Level>, p: nat, u: Node, lo: nat, n: nat, i: nat, j: nat, bk: Key, w: Key)
    requires Victim(h, lv, p, u, lo, n, i, j, bk, w)
    ensures w == bk ==> bk !in Seps(lv)
    ensures lo + i < |lv[0]| && lo + j < |lv[0]| && lv[0][lo + i] == Entry(h[u].ps[i], bk)
  {
    hide Seps;
    SepsHas(lv, bk);
    assert lv[0][lo + i] == Entry(h[u].ps[i], bk);
    if i == n - 1 && i > 0 && w != bk {} else { assert bk !in Seps(lv); }
  }

  /** Key counts after the deletion from the leaf and the exchange of the separator. */
  lemma DelKeyCounts(h: Heap, lv: seq<Level>, root: Node, keys: set<Key>, p: nat, u: Node, lo: nat, n: nat, i: nat, j: nat,
                     bk: Key, w: Key)
    requires Tree(h, lv, root) && ContentOK(lv[0]) && Leaves(h, lv[1]) && Victim(h, lv, p, u, lo, n, i, j, bk, w)
    requires keys == KeysOf(lv[0])
    requires forall q :: q in keys && q != bk ==>
      q.refCount == (if q in Seps(lv) then 2 else 1) + (if q == w && bk in Seps(lv) then 1 else 0)
    ensures KeyCounts(DelLevels(lv, lo + i, lo + j, bk, w), keys - {bk})
  {
    hide Linked, LevelOK, Parents, Expand, ContentOK, Leaves, Seps, KeysOf, RemoveSlots;
    VictimSep(h, lv, p, u, lo, n, i, j, bk, w);
    if w != bk { NewSep(h, lv, root, p, u, lo, n, i, j, bk, w); }
    SepsRename(lv, bk, w, RemoveSlots(lv[0], lo + i, lo + j));
    KeysOfRemove(lv[0], lo + i, lo + j);
  }

  lemma DelRecordCounts(c: Level, d: nat, e: nat, recs: seq<Record>, rec: Record)
    requires RecordCounts(c, recs) && d < |c| && e < |c| && c[e].p == ToRecord(rec)
    requires forall m :: 0 <= m < |c| ==> c[m].p.ToRecord?
    ensures RecordCountsBut(RemoveSlots(c, d, e), recs, rec)
  {
    var c' := RemoveSlots(c, d, e);
    forall m | 0 <= m < |c'| && c'[m].p.ToRecord? ensures c'[m].p.rec in recs {
      assert c'[m].p == c[if m < e then m else m + 1].p;
    }
    forall r | r in recs ensures r.refCount == Count(c', r) + (if r == rec then 1 else 0) {
      CountRemove(c, d, e, r);
    }
  }

  // ----- The map -----

  /** The keys that remain. */
  lemma RemainingKey(c: Level, d: nat, e: nat, m: nat)
    requires ContentOK(c) && d < |c| && e < |c| && m < |c| - 1
    ensures ContentOK(RemoveSlots(c, d, e))
    ensures var y := if m < d then m else m + 1;
      RemoveSlots(c, d, e)[m].s == c[y].s && c[y].s.key in AsMap(c) && c[y].s.key != c[d].s.key && AsMap(c)[c[y].s.key] == c[y].p.rec
  {
    hide AsMap;
    DelContentOK(c, d, e);
    InMap(c, if m < d then m else m + 1);
    StrcmpIsRank(c[if m < d then m else m + 1].s.key, c[d].s.key);
  }

  lemma AlignedDelete(c: Level, d: nat, e: nat)
    requires ContentOK(c) && e <= d < |c| && ContentOK(RemoveSlots(c, d, e)) && forall m :: e <= m < d ==> c[m].p == c[d].p
    ensures AsMap(RemoveSlots(c, d, e)) == AsMap(c) - {c[d].s.key}
  {
    hide AsMap;
    var c', m' := RemoveSlots(c, d, e), AsMap(c) - {c[d].s.key};
    forall m | 0 <= m < |c'| ensures c'[m].s.key in m' && m'[c'[m].s.key] == c'[m].p.rec {
      RemainingKey(c, d, e, m);
      assert e <= m < d ==> c[m].p == c[d].p;
      assert e <= m + 1 < d ==> c[m + 1].p == c[d].p;
    }
    forall k | k in m' ensures exists x :: 0 <= x < |c'| && c'[x].s.key == k {
      var y := KeyIndex(c, k);
      assert c'[if y < d then y else y - 1].s.key == k;
    }
    MapIs(c', m');
  }

  lemma DeleteAligned(c: Level, d: nat, e: nat)
    requires ContentOK(c) && e <= d < |c| && ContentOK(RemoveSlots(c, d, e))
    requires AsMap(RemoveSlots(c, d, e)) == AsMap(c) - {c[d].s.key}
    ensures forall m :: e <= m < d ==> c[m].p == c[d].p
  {
    hide AsMap;
    forall m | e <= m < d ensures c[m].p == c[m + 1].p {
      RemainingKey(c, d, e, m);
      InMap(RemoveSlots(c, d, e), m);
      assert RemoveSlots(c, d, e)[m] == Entry(c[m + 1].p, c[m].s);
    }
    SameRun(c, e, d);
  }

  /** Deleting removes exactly the key's entry if and only if no different record lies between the slot the pointer is
      taken from and the slot of the key. */
  lemma RemoveIsDelete(c: Level, d: nat, e: nat)
    requires ContentOK(c) && e <= d < |c| && c[e].p == c[d].p
    ensures ContentOK(RemoveSlots(c, d, e))
    ensures AsMap(RemoveSlots(c, d, e)) == AsMap(c) - {c[d].s.key} <==> forall m :: e <= m < d ==> c[m].p == c[d].p
  {
    hide AsMap;
    DelContentOK(c, d, e);
    if forall m :: e <= m < d ==> c[m].p == c[d].p { AlignedDelete(c, d, e); }
    if AsMap(RemoveSlots(c, d, e)) == AsMap(c) - {c[d].s.key} { DeleteAligned(c, d, e); }
  }

  lemma {:induction false} SameRun(c: Level, e: nat, d: nat)
    requires e <= d < |c| && forall m :: e <= m < d ==> c[m].p == c[m + 1].p
    ensures forall m :: e <= m < d ==> c[m].p == c[d].p
    decreases d - e
  {
    if e < d {
      SameRun(c, e + 1, d);
      assert c[e].p == c[e + 1].p;
      assert e + 1 < d ==> c[e + 1].p == c[d].p;
    }
  }

  /** The smallest failure: with a -> R, b -> S, c -> R in one leaf, deleting c takes the first pointer to R, which is
      a's. Afterwards a maps to S and b to R. */
  lemma DeleteAliasFails(a: Key, b: Key, c: Key, r: Record, s: Record)
    requires a.key == "a" && b.key == "b" && c.key == "c" && r != s
    ensures var content: Level := [Entry(ToRecord(r), a), Entry(ToRecord(s), b), Entry(ToRecord(r), c)];
      && ContentOK(content) && ContentOK(RemoveSlots(content, 2, 0))
      && "a" in AsMap(content) && AsMap(content)["a"] == r
      && "a" in AsMap(RemoveSlots(content, 2, 0)) && AsMap(RemoveSlots(content, 2, 0))["a"] == s
      && "b" in AsMap(RemoveSlots(content, 2, 0)) && AsMap(RemoveSlots(content, 2, 0))["b"] == r
  {
    hide AsMap, Rank;
    var content: Level := [Entry(ToRecord(r), a), Entry(ToRecord(s), b), Entry(ToRecord(r), c)];
    StrcmpIsRank("a", "b");
    StrcmpIsRank("b", "c");
    assert ContentOK(content);
    DelContentOK(content, 2, 0);
    var content' := RemoveSlots(content, 2, 0);
    assert content'[0] == Entry(ToRecord(s), a) && content'[1] == Entry(ToRecord(r), b);
    InMap(content, 0);
    InMap(content', 0);
    InMap(content', 1);
  }
}
