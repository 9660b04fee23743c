/** Strictly ascending vectors of strings, the form in which relation lists are stored. */
module SortedVec {
  import opened CStrings

  ghost predicate Ascending(s: seq<string>) {
    forall i, j :: 0 <= i < j < |s| ==> Rank(s[i]) < Rank(s[j])
  }

  ghost function Elems(s: seq<string>): set<string> {
    set x | x in s
  }

  lemma ElemsCons(x: string, s: seq<string>)
    ensures Elems([x] + s) == {x} + Elems(s)
  {
  }

  lemma ElemsAppend(a: seq<string>, b: seq<string>)
    ensures Elems(a + b) == Elems(a) + Elems(b)
  {
  }

  lemma SomeElem(s: seq<string>)
    ensures s != [] ==> Elems(s) != {}
  {
    if s != [] { assert s[0] in Elems(s); }
  }

  /** An ascending vector is determined by its elements. */
  lemma {:induction false} AscendingUnique(a: seq<string>, b: seq<string>)
    requires Ascending(a) && Ascending(b) && Elems(a) == Elems(b)
    ensures a == b
  {
    if a == [] {
      SomeElem(b);
    } else {
      assert a[0] in Elems(b);
      assert b != [] && b[0] in Elems(a);
      StrcmpIsRank(a[0], b[0]);
      assert a[0] == b[0];
      forall x ensures x in Elems(a[1..]) <==> x in Elems(b[1..]) {
        assert a == [a[0]] + a[1..] && b == [b[0]] + b[1..];
        assert x in Elems(a) <==> x in Elems(b);
        if x in a[1..] { assert x != a[0]; }
        if x in b[1..] { assert x != b[0]; }
      }
      AscendingUnique(a[1..], b[1..]);
      assert a == [a[0]] + a[1..] && b == [b[0]] + b[1..];
    }
  }

  lemma AscendingCons(x: string, s: seq<string>)
    requires Ascending(s) && forall y :: y in s ==> Rank(x) < Rank(y)
    ensures Ascending([x] + s)
  {
  }

  /** The contract of the C library's qsort with strcmp: a rearrangement in which no element follows a greater one. */
  function Insert(x: string, s: seq<string>): seq<string> {
    if s == [] then [x] else if Strcmp(x, s[0]) <= 0 then [x] + s else [s[0]] + Insert(x, s[1..])
  }

  function Qsort(s: seq<string>): seq<string> {
    if s == [] then [] else Insert(s[0], Qsort(s[1..]))
  }

  lemma {:induction false} InsertMeans(x: string, s: seq<string>)
    ensures Elems(Insert(x, s)) == {x} + Elems(s) && |Insert(x, s)| == |s| + 1
    ensures Ascending(s) && x !in s ==> Ascending(Insert(x, s))
  {
    if s == [] {
      ElemsCons(x, []);
    } else {
      hide Strcmp, Rank, Ascending, Elems;
      StrcmpIsRank(x, s[0]);
      if Strcmp(x, s[0]) > 0 {
        InsertMeans(x, s[1..]);
        assert s == [s[0]] + s[1..];
        ElemsCons(s[0], s[1..]);
        ElemsCons(s[0], Insert(x, s[1..]));
        if Ascending(s) && x !in s { InsertLater(x, s, Insert(x, s[1..])); }
      } else {
        ElemsCons(x, s);
        if Ascending(s) && x !in s { InsertHere(x, s); }
      }
    }
  }

  lemma InsertHere(x: string, s: seq<string>)
    requires s != [] && Ascending(s) && Rank(x) <= Rank(s[0]) && x !in s
    ensures Ascending([x] + s)
  {
    StrcmpIsRank(x, s[0]);
    forall y | y in s ensures Rank(x) < Rank(y) {
      var i :| 0 <= i < |s| && s[i] == y;
      assert Rank(s[0]) <= Rank(s[i]);
    }
    AscendingCons(x, s);
  }

  lemma InsertLater(x: string, s: seq<string>, t: seq<string>)
    requires s != [] && Ascending(s) && Rank(s[0]) < Rank(x)
    requires Elems(t) == {x} + Elems(s[1..]) && (Ascending(s[1..]) && x !in s[1..] ==> Ascending(t)) && x !in s
    ensures Ascending([s[0]] + t)
  {
    forall y | y in t ensures Rank(s[0]) < Rank(y) {
      assert y in Elems(t);
    }
    AscendingCons(s[0], t);
  }

  predicate Distinct(s: seq<string>) {
    forall i, j :: 0 <= i < j < |s| ==> s[i] != s[j]
  }

  lemma {:induction false} QsortMeans(s: seq<string>)
    requires Distinct(s)
    ensures Ascending(Qsort(s)) && Elems(Qsort(s)) == Elems(s) && |Qsort(s)| == |s|
  {
    if s != [] {
      QsortMeans(s[1..]);
      assert s == [s[0]] + s[1..];
      ElemsCons(s[0], s[1..]);
      assert s[0] !in Elems(Qsort(s[1..]));
      InsertMeans(s[0], Qsort(s[1..]));
    }
  }

  lemma AscendingDistinct(s: seq<string>)
    requires Ascending(s)
    ensures Distinct(s)
  {
  }
}
