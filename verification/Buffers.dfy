/** Growing buffers. A linear buffer is a Buf of bytes, a vector buffer a Buf of items; in size prefix mode the first
    `prefixLen` slots are kept for the prefix, in plain mode `prefixLen` is 0. */
module Buffers {

  const EXFULL := 54
  const EOVERFLOW := 75

  /** `needed` rounded up to a multiple of the allocation step. */
  function RoundUp(needed: nat, step: nat): (r: nat)
    requires step > 0
    ensures needed <= r < needed + step && r % step == 0
    ensures step == 1 ==> r == needed
  {
    var align := needed % step;
    NextMultiple(needed, step);
    if align == 0 then needed else needed + step - align
  }

  lemma NextMultiple(n: nat, step: nat)
    requires step > 0
    ensures (n + step - n % step) % step == 0
  {
    var q := n / step;
    assert n + step - n % step == step * (q + 1);
    MultipleOf(step, q + 1);
  }

  lemma MultipleOf(step: nat, k: nat)
    requires step > 0
    ensures step * k % step == 0
  {
    var q, r := step * k / step, step * k % step;
    var d := k - q;
    assert step * d == r;
    AtLeast(step, d);
  }

  lemma AtLeast(step: nat, d: int)
    requires step > 0
    ensures d >= 1 ==> step * d >= step
    ensures d <= -1 ==> step * d < 0
  {
  }

  /** memcpy */
  method Copy<T>(p: array<T>, at: nat, xs: seq<T>)
    requires at + |xs| <= p.Length
    modifies p
    ensures p[..at] == old(p[..at]) && p[at..at + |xs|] == xs
    ensures forall k :: at + |xs| <= k < p.Length ==> p[k] == old(p[k])
  {
    for i := 0 to |xs|
      invariant forall k :: 0 <= k < i ==> p[at + k] == xs[k]
      invariant forall k :: 0 <= k < p.Length && !(at <= k < at + i) ==> p[k] == old(p[k])
    {
      p[at + i] := xs[i];
    }
  }

  class Buf<T(0)> {
    const prefixLen: nat
    const initSize: nat
    const allocStep: nat
    const limit: nat
    var mem: array<T>
    var used: nat

    ghost predicate Valid()
      reads this
    {
      used <= mem.Length && (used == 0 || prefixLen <= used)
    }

    /** What was added so far. */
    ghost function Items(): seq<T>
      requires Valid()
      reads this, mem
    {
      if used == 0 then [] else mem[prefixLen..used]
    }

    /** Where the next item goes. */
    ghost function Next(): nat
      reads this
    {
      if used == 0 then prefixLen else used
    }

    /** buf.c sid_buf_create with _buffer_linear_create or _buffer_vector_create */
    constructor (prefix: nat, size: nat, step: nat, lim: nat)
      requires lim == 0 || size + prefix <= lim
      ensures Valid() && fresh(mem) && used == 0 && prefixLen == prefix && allocStep == step && limit == lim && initSize == size
      ensures mem.Length == size + prefix
    {
      prefixLen := prefix;
      initSize := size;
      allocStep := step;
      limit := lim;
      mem := new T[size + prefix];
      used := 0;
    }

    /** _buffer_linear_realloc, _buffer_vector_realloc */
    method Realloc(needed: nat, force: bool) returns (r: int)
      modifies this`mem
      ensures r == if !force && old(mem).Length >= needed then 0
                   else if !force && allocStep == 0 then -EXFULL
                   else if limit > 0 && RoundUp(needed, if force then 1 else allocStep) > limit then -EOVERFLOW
                   else 0
      ensures r < 0 || (!force && old(mem).Length >= needed) ==> mem == old(mem)
      ensures r == 0 && (force || old(mem).Length < needed) ==>
        fresh(mem) && mem.Length == RoundUp(needed, if force then 1 else allocStep) &&
        forall i :: 0 <= i < old(mem).Length && i < mem.Length ==> mem[i] == old(mem)[i]
    {
      var step := 1;
      if !force {
        if mem.Length >= needed { return 0; }
        step := allocStep;
        if step == 0 { return -EXFULL; }
      }
      var size := RoundUp(needed, step);
      if limit > 0 && size > limit { return -EOVERFLOW; }
      var p := new T[size];
      var was := mem;
      for i := 0 to if was.Length < size then was.Length else size
        invariant forall m :: 0 <= m < i ==> p[m] == was[m]
        invariant mem == was
      {
        p[i] := was[i];
      }
      mem := p;
      r := 0;
    }

    /** Whether adding `len` items fails. */
    ghost predicate Refuses(len: nat)
      reads this
    {
      mem.Length < Next() + len && (allocStep == 0 || (limit > 0 && RoundUp(Next() + len, allocStep) > limit))
    }

    /** _buffer_linear_add of a block of bytes; _buffer_vector_add of one item */
    method Add(xs: seq<T>) returns (r: int)
      requires Valid()
      modifies this, mem
      ensures Valid() && (mem == old(mem) || fresh(mem))
      ensures r == if !old(Refuses(|xs|)) then 0 else if allocStep == 0 then -EXFULL else -EOVERFLOW
      ensures r < 0 ==> mem == old(mem) && used == old(used) && Items() == old(Items())
      ensures r == 0 ==> Items() == old(Items()) + xs && used == old(Next()) + |xs|
      ensures old(Next()) + |xs| <= old(mem).Length ==> mem == old(mem)
      ensures forall k :: 0 <= k < prefixLen && k < old(mem).Length && k < mem.Length ==> mem[k] == old(mem[k])
      ensures r == 0 ==>
        mem.Length == if old(Next()) + |xs| <= old(mem).Length then old(mem).Length else RoundUp(old(Next()) + |xs|, allocStep)
    {
      ghost var was := Items();
      var at := if used == 0 then prefixLen else used;
      r := Realloc(at + |xs|, false);
      if r < 0 { return; }
      assert used > 0 ==> mem[..at][prefixLen..] == was;
      Copy(mem, at, xs);
      assert mem[prefixLen..at + |xs|] == mem[..at][prefixLen..] + mem[at..at + |xs|];
      used := at + |xs|;
    }

    /** _buffer_linear_count, _buffer_vector_count */
    method Count() returns (n: nat)
      requires Valid()
      ensures n == |Items()|
    {
      n := if used > 0 then used - prefixLen else 0;
    }

    /** _buffer_linear_reset, _buffer_vector_reset */
    method Reset() returns (r: int)
      requires Valid()
      modifies this
      ensures Valid() && used == 0 && Items() == []
      ensures limit == 0 || initSize + prefixLen <= limit ==>
        r == 0 && fresh(mem) && mem.Length == initSize + prefixLen &&
        forall k :: 0 <= k < old(mem).Length && k < mem.Length ==> mem[k] == old(mem[k])
      ensures r < 0 ==> mem == old(mem)
    {
      used := 0;
      r := Realloc(initSize + prefixLen, true);
    }
  }
}
