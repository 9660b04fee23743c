/** The slot-shifting loops of bptree.c. The source moves a node's key array and pointer array in lock step; the two
    arrays never alias, so each loop is modelled on one array at a time. */
module BPSlots {

  ghost function Insert<T>(s: seq<T>, j: nat, x: T): seq<T>
    requires j <= |s|
  {
    s[..j] + [x] + s[j..]
  }

  ghost function Remove<T>(s: seq<T>, j: nat): seq<T>
    requires j < |s|
  {
    s[..j] + s[j + 1..]
  }

  lemma InsertAt<T>(s: seq<T>, j: nat, x: T)
    requires j <= |s|
    ensures |Insert(s, j, x)| == |s| + 1
    ensures forall m :: 0 <= m < |s| + 1 ==> Insert(s, j, x)[m] == if m < j then s[m] else if m == j then x else s[m - 1]
  {
  }

  lemma InsertLength<T>(s: seq<T>, j: nat, x: T)
    requires j <= |s|
    ensures |Insert(s, j, x)| == |s| + 1
  {
  }

  /** Make room at `at` among the first n slots and store x there. */
  method InsertSlot<T>(a: array<T>, n: nat, at: nat, x: T)
    requires at <= n < a.Length
    modifies a
    ensures a[..n + 1] == Insert(old(a[..n]), at, x)
    ensures a[n + 1..] == old(a[n + 1..])
  {
    ghost var o := a[..];
    var i := n;
    while i > at
      invariant at <= i <= n
      invariant forall m {:trigger a[m]} :: 0 <= m < a.Length ==> a[m] == if i < m <= n then o[m - 1] else o[m]
    {
      a[i] := a[i - 1];
      i := i - 1;
    }
    a[at] := x;
  }

  /** Close the gap left by slot `at` among the first n slots. */
  method RemoveSlot<T>(a: array<T>, n: nat, at: nat)
    requires at < n <= a.Length
    modifies a
    ensures a[..n - 1] == Remove(old(a[..n]), at)
    ensures a[n..] == old(a[n..])
  {
    ghost var o := a[..];
    var i := at + 1;
    while i < n
      invariant at < i <= n
      invariant forall m {:trigger a[m]} :: 0 <= m < a.Length ==> a[m] == if at <= m < i - 1 then o[m + 1] else o[m]
    {
      a[i - 1] := a[i];
      i := i + 1;
    }
  }

  /** Shift the first n slots up by one and store x in front. */
  method PushFront<T>(a: array<T>, n: nat, x: T)
    requires n < a.Length
    modifies a
    ensures a[..n + 1] == [x] + old(a[..n])
    ensures a[n + 1..] == old(a[n + 1..])
  {
    InsertSlot(a, n, 0, x);
  }

  /** Shift the first n slots down by one; slot 0 is gone. */
  method PopFront<T>(a: array<T>, n: nat)
    requires 0 < n <= a.Length
    modifies a
    ensures a[..n - 1] == old(a[1..n])
    ensures a[n..] == old(a[n..])
  {
    RemoveSlot(a, n, 0);
  }

  /** The upper part, from position `split` on, of the n slots of src with x inserted at `at`, is written to dst. */
  method FillUpper<T>(src: array<T>, dst: array<T>, n: nat, split: nat, at: nat, x: T)
    requires at <= n <= src.Length && 0 < split <= n && n + 1 - split <= dst.Length && src != dst
    modifies dst
    ensures dst[..n + 1 - split] == Insert(src[..n], at, x)[split..]
  {
    ghost var s := Insert(src[..n], at, x);
    var i := if at < split then split - 1 else split;
    var j := 0;
    while j < n + 1 - split
      invariant 0 <= j <= n + 1 - split
      invariant i == if at < split + j then split + j - 1 else split + j
      invariant forall m {:trigger dst[m]} :: 0 <= m < j ==> dst[m] == s[split + m]
    {
      if split + j == at {
        dst[j] := x;
      } else {
        dst[j] := src[i];
        i := i + 1;
      }
      j := j + 1;
    }
  }

  /** Distribute n full slots and the new x over src (the first `split` of them) and dst (the rest). */
  method SplitSlots<T>(src: array<T>, dst: array<T>, n: nat, split: nat, at: nat, x: T)
    requires at <= n <= src.Length && 0 < split <= n && n + 1 - split <= dst.Length && src != dst
    modifies src, dst
    ensures src[..split] == Insert(old(src[..n]), at, x)[..split]
    ensures dst[..n + 1 - split] == Insert(old(src[..n]), at, x)[split..]
    ensures src[split..] == old(src[split..])
  {
    ghost var o := src[..n];
    FillUpper(src, dst, n, split, at, x);
    if at < split {
      assert src[..split - 1] == o[..split - 1];
      InsertSlot(src, split - 1, at, x);
      assert Insert(o[..split - 1], at, x) == Insert(o, at, x)[..split];
    } else {
      assert src[..split] == Insert(o, at, x)[..split];
    }
  }

  /** Copy the first m slots of src behind the first n slots of dst. */
  method AppendSlots<T>(src: array<T>, m: nat, dst: array<T>, n: nat)
    requires m <= src.Length && n + m <= dst.Length && src != dst
    modifies dst
    ensures dst[..n + m] == old(dst[..n]) + src[..m]
    ensures dst[n + m..] == old(dst[n + m..])
  {
    ghost var o := dst[..];
    var j := 0;
    while j < m
      invariant 0 <= j <= m
      invariant forall q {:trigger dst[q]} :: 0 <= q < dst.Length ==> dst[q] == if n <= q < n + j then src[q - n] else o[q]
    {
      dst[n + j] := src[j];
      j := j + 1;
    }
  }

  /** Overwrite the slots from `from` up to `to`. */
  method ClearSlots<T>(a: array<T>, from: nat, to: nat, nil: T)
    requires from <= to <= a.Length
    modifies a
    ensures a[..from] == old(a[..from]) && a[to..] == old(a[to..])
    ensures forall i :: from <= i < to ==> a[i] == nil
  {
    ghost var o := a[..];
    for i := from to to
      invariant forall q {:trigger a[q]} :: 0 <= q < a.Length ==> a[q] == if from <= q < i then nil else o[q]
    {
      a[i] := nil;
    }
  }

  /** The first slot among the first n that holds x. */
  method IndexOf<T(==)>(a: array<T>, n: nat, x: T) returns (i: nat)
    requires n <= a.Length && x in a[..n]
    ensures i < n && a[i] == x && x !in a[..i]
  {
    i := 0;
    while a[i] != x
      invariant i < n && x !in a[..i] && x in a[i..n]
      decreases n - i
    {
      i := i + 1;
    }
  }
}
