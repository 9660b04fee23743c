/** C strings as the tree uses them: strcmp, strncmp and the order they induce.
    A value of type `string` stands for the characters before the terminating NUL. */
module CStrings {

  const RADIX: int := 0x110001

  /** The sign of strcmp(a, b): the end of a string sorts before every character. */
  function Strcmp(a: string, b: string): (r: int)
    ensures r == 0 <==> a == b
  {
    if a == [] then (if b == [] then 0 else -1)
    else if b == [] then 1
    else if a[0] < b[0] then -1
    else if a[0] > b[0] then 1
    else
      assert a == [a[0]] + a[1..] && b == [b[0]] + b[1..];
      Strcmp(a[1..], b[1..])
  }

  /** The first place where two strings differ decides, and the end of a string is below every character. */
  lemma {:induction false} StrcmpAtDifference(a: string, b: string, n: nat)
    requires n <= |a| && n <= |b| && a[..n] == b[..n] && (n == |a| || n == |b| || a[n] != b[n])
    ensures Strcmp(a, b) < 0 <==> if n < |a| && n < |b| then a[n] < b[n] else n == |a| < |b|
  {
    if n > 0 {
      assert a[0] == a[..n][0] && b[0] == b[..n][0];
      assert a[1..][..n - 1] == a[..n][1..] && b[1..][..n - 1] == b[..n][1..];
      StrcmpAtDifference(a[1..], b[1..], n - 1);
    }
  }

  /** strncmp(a, b, n) == 0, for strings without embedded NULs. */
  predicate SameUpTo(a: string, b: string, n: nat) {
    (if |a| < n then a else a[..n]) == (if |b| < n then b else b[..n])
  }

  /** An order embedding of strcmp into the reals. Stating sortedness through Rank makes transitivity and
      totality of the string order plain arithmetic. */
  ghost function Rank(s: string): (r: real)
    ensures 0.0 <= r < 1.0
    ensures r == 0.0 <==> s == []
  {
    if s == [] then 0.0
    else ((s[0] as int + 1) as real + Rank(s[1..])) / RADIX as real
  }

  /** Rank embeds strcmp. */
  lemma {:induction false} StrcmpIsRank(a: string, b: string)
    ensures Strcmp(a, b) < 0 <==> Rank(a) < Rank(b)
    ensures Strcmp(a, b) > 0 <==> Rank(a) > Rank(b)
    ensures Rank(a) == Rank(b) <==> a == b
  {
    if a != [] && b != [] {
      StrcmpIsRank(a[1..], b[1..]);
      var x, y := a[0] as int, b[0] as int;
      assert a[0] < b[0] <==> x < y;
      if x < y {
        assert (x + 1) as real + Rank(a[1..]) < (y + 1) as real + Rank(b[1..]);
      } else if y < x {
        assert (y + 1) as real + Rank(b[1..]) < (x + 1) as real + Rank(a[1..]);
      } else {
        assert a == [a[0]] + a[1..] && b == [b[0]] + b[1..];
      }
    }
  }

  /** The keys with a given prefix are contiguous in the order, and the prefix is their lower bound. */
  lemma {:induction false} PrefixInterval(p: string, b: string, c: string)
    requires Rank(p) <= Rank(b) <= Rank(c) && p <= c
    ensures p <= b
  {
    if p != [] {
      StrcmpIsRank(p, b);
      StrcmpIsRank(b, c);
      StrcmpIsRank(p[1..], b[1..]);
      StrcmpIsRank(b[1..], c[1..]);
      assert b != [];
      assert p[0] == c[0];
      assert b[0] == p[0];
      PrefixInterval(p[1..], b[1..], c[1..]);
    }
  }

  lemma {:induction false} PrefixIsBelow(p: string, a: string)
    requires p <= a
    ensures Rank(p) <= Rank(a)
  {
    if p != [] { PrefixIsBelow(p[1..], a[1..]); }
  }

  /** strcmp is a strict total order. */
  lemma StrcmpIsOrder(a: string, b: string, c: string)
    ensures Strcmp(a, b) < 0 <==> Strcmp(b, a) > 0
    ensures Strcmp(a, b) <= 0 && Strcmp(b, c) < 0 ==> Strcmp(a, c) < 0
    ensures Strcmp(a, b) < 0 && Strcmp(b, c) <= 0 ==> Strcmp(a, c) < 0
    ensures Strcmp(a, b) == 0 <==> a == b
  {
    hide Strcmp, Rank;
    StrcmpIsRank(a, b);
    StrcmpIsRank(b, a);
    StrcmpIsRank(b, c);
    StrcmpIsRank(a, c);
  }

  /** Between a prefix and a string with that prefix there are only strings with the prefix. */
  lemma PrefixContiguous(p: string, b: string, c: string)
    requires Strcmp(p, b) <= 0 && Strcmp(b, c) <= 0 && p <= c
    ensures p <= b
  {
    hide Strcmp, Rank;
    StrcmpIsRank(p, b);
    StrcmpIsRank(b, c);
    PrefixInterval(p, b, c);
  }

  // ----- Keys with leading blanks -----

  predicate IsSpace(c: char) {
    c == ' ' || '\t' <= c <= '\r'
  }

  /** kvs.c _canonicalize_key */
  function Canonical(key: string): (r: string)
    ensures r == [] || !IsSpace(r[0])
    ensures key == [] || !IsSpace(key[0]) ==> r == key
  {
    if key != [] && IsSpace(key[0]) then Canonical(key[1..]) else key
  }

  /** isspace in the C locale: blank, tab, newline, vertical tab, form feed and carriage return. */
  lemma SpaceIs(c: char)
    ensures IsSpace(c) <==> c as int in {0x20, 0x09, 0x0A, 0x0B, 0x0C, 0x0D}
  {
  }

  /** What is dropped are blanks at the front, all of them and nothing else. */
  lemma {:induction false} CanonicalDrops(key: string) returns (n: nat)
    ensures n <= |key| && Canonical(key) == key[n..] && (forall i :: 0 <= i < n ==> IsSpace(key[i]))
    ensures n < |key| ==> !IsSpace(key[n])
  {
    if key != [] && IsSpace(key[0]) {
      var m := CanonicalDrops(key[1..]);
      n := m + 1;
    } else {
      n := 0;
    }
  }
}
