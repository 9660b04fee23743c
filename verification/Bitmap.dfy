/** The bits of one machine word. */
module Words {
  type Word = bv32

  const ONES: Word := 0xFFFF_FFFF
  const ZEROS: Word := 0

  function Mask(b: bv5): Word {
    (1 as bv32) << (b as bv32)
  }

  predicate Has(word: Word, b: bv5) {
    word & Mask(b) != 0
  }

  function With(word: Word, b: bv5): Word {
    word | Mask(b)
  }

  function Without(word: Word, b: bv5): Word {
    word & !Mask(b)
  }

  lemma WithIs(word: Word, b: bv5)
    ensures With(word, b) == word | Mask(b)
  {
    hide Mask;
  }

  lemma WithoutIs(word: Word, b: bv5)
    ensures Without(word, b) == word & !Mask(b)
  {
    hide Mask;
  }

  lemma HasIs(word: Word, b: bv5)
    ensures Has(word, b) <==> word & Mask(b) != 0
  {
    hide Mask;
  }

  lemma SetOne(word: Word, b: bv5, c: bv5, m: Word, n: Word, x: Word)
    requires m == Mask(b) && n == Mask(c) && x == word | m
    ensures x & n != 0 <==> b == c || word & n != 0
  {
  }

  lemma UnsetOne(word: Word, b: bv5, c: bv5, m: Word, n: Word, x: Word)
    requires m == Mask(b) && n == Mask(c) && x == word & !m
    ensures x & n != 0 <==> b != c && word & n != 0
  {
  }

  /** Setting a bit changes that bit alone. */
  lemma HasWith(word: Word, b: bv5, c: bv5)
    ensures Has(With(word, b), c) <==> b == c || Has(word, c)
  {
    hide Mask, Has, With;
    var x := With(word, b);
    WithIs(word, b);
    HasIs(x, c);
    HasIs(word, c);
    SetOne(word, b, c, Mask(b), Mask(c), x);
  }

  /** Clearing a bit changes that bit alone. */
  lemma HasWithout(word: Word, b: bv5, c: bv5)
    ensures Has(Without(word, b), c) <==> b != c && Has(word, c)
  {
    hide Mask, Has, Without;
    var x := Without(word, b);
    WithoutIs(word, b);
    HasIs(x, c);
    HasIs(word, c);
    UnsetOne(word, b, c, Mask(b), Mask(c), x);
  }

  lemma Filled(b: bv5)
    ensures Has(ONES, b) && !Has(ZEROS, b)
  {
  }
}

/** Bitmaps over blocks of machine words, with a running count of the set bits. */
module Bitmap {
  import Words

  const BITS_PER_BLOCK: nat := 32
  const ENOMEM := 12
  const EINVAL := 22
  const ERANGE := 34

  /** bmp.c _log2n_recursive */
  function Log2n(n: nat): nat {
    if n > 1 then Log2n(n / 2) + 1 else 0
  }

  const BLOCK_SHIFT: nat := Log2n(BITS_PER_BLOCK)

  function Pow2(n: nat): nat {
    if n == 0 then 1 else 2 * Pow2(n - 1)
  }

  /** Shifting a position by BLOCK_SHIFT divides it by the number of bits of a block. */
  lemma BlockShift()
    ensures Pow2(BLOCK_SHIFT) == BITS_PER_BLOCK
  {
    assert Log2n(32) == Log2n(16) + 1;
    assert Log2n(16) == Log2n(8) + 1;
    assert Log2n(8) == Log2n(4) + 1;
    assert Pow2(5) == 2 * Pow2(4) && Pow2(4) == 2 * Pow2(3) && Pow2(3) == 2 * Pow2(2);
  }

  /** The position inside a block. */
  function Bit(pos: nat): bv5 {
    (pos % BITS_PER_BLOCK) as bv5
  }

  lemma BitInjective(p: nat, q: nat)
    ensures Bit(p) == Bit(q) <==> p % BITS_PER_BLOCK == q % BITS_PER_BLOCK
  {
    BitBack(p % BITS_PER_BLOCK);
    BitBack(q % BITS_PER_BLOCK);
  }

  lemma BitBack(i: nat)
    requires i < BITS_PER_BLOCK
    ensures (i as bv5) as int == i
  {
  }

  /** The bit of `word` that position `pos` selects. */
  predicate At(word: Words.Word, pos: nat) {
    Words.Has(word, Bit(pos))
  }

  lemma AtIs(word: Words.Word, p: nat)
    ensures At(word, p) <==> Words.Has(word, Bit(p))
  {
    hide Bit, Words.Has;
  }

  lemma AtSet(word: Words.Word, p: nat, q: nat)
    ensures At(Words.With(word, Bit(p)), q) <==> p % BITS_PER_BLOCK == q % BITS_PER_BLOCK || At(word, q)
  {
    hide Bit, Words.Has, Words.With, Words.Without;
    Words.HasWith(word, Bit(p), Bit(q));
    BitInjective(p, q);
  }

  lemma AtUnset(word: Words.Word, p: nat, q: nat)
    ensures At(Words.Without(word, Bit(p)), q) <==> p % BITS_PER_BLOCK != q % BITS_PER_BLOCK && At(word, q)
  {
    hide Bit, Words.Has, Words.With, Words.Without;
    Words.HasWithout(word, Bit(p), Bit(q));
    BitInjective(p, q);
  }

  lemma AtFilled(p: nat)
    ensures At(Words.ONES, p) && !At(Words.ZEROS, p)
  {
    hide Bit, Words.Has;
    Words.Filled(Bit(p));
  }

  function Count(bits: seq<bool>): (n: nat)
    ensures n <= |bits|
  {
    if bits == [] then 0 else (if bits[0] then 1 else 0) + Count(bits[1..])
  }

  lemma {:induction false} CountUpdate(bits: seq<bool>, i: nat, v: bool)
    requires i < |bits|
    ensures Count(bits[i := v]) == Count(bits) - (if bits[i] then 1 else 0) + (if v then 1 else 0)
  {
    if i == 0 {
      assert bits[0 := v][1..] == bits[1..];
    } else {
      assert bits[i := v][1..] == bits[1..][i - 1 := v];
      CountUpdate(bits[1..], i - 1, v);
    }
  }

  lemma {:induction false} CountSame(bits: seq<bool>, v: bool)
    requires forall i :: 0 <= i < |bits| ==> bits[i] == v
    ensures Count(bits) == if v then |bits| else 0
  {
    if bits != [] { CountSame(bits[1..], v); }
  }

  class Bmp {
    const bitCount: nat
    var bitSetCount: nat
    const mem: array<Words.Word>

    ghost predicate Shape()
      reads this
    {
      bitCount > 0 && mem.Length == (bitCount - 1) / BITS_PER_BLOCK + 1
    }

    ghost function Bits(): (s: seq<bool>)
      requires Shape()
      reads this, mem
      ensures |s| == bitCount
    {
      seq(bitCount, i requires 0 <= i < bitCount reads this, mem => At(mem[i / BITS_PER_BLOCK], i))
    }

    /** The running count is the number of set bits. */
    ghost predicate Valid()
      reads this, mem
    {
      Shape() && bitSetCount == Count(Bits())
    }

    /** A bitmap with every bit set or none. */
    constructor (count: nat, invert: bool)
      requires count > 0
      ensures Valid() && fresh(mem) && bitCount == count
      ensures forall i :: 0 <= i < count ==> Bits()[i] == invert
    {
      bitCount := count;
      bitSetCount := if invert then count else 0;
      mem := new Words.Word[(count - 1) / BITS_PER_BLOCK + 1](_ => if invert then Words.ONES else Words.ZEROS);
      new;
      forall i | 0 <= i < count ensures Bits()[i] == invert { AtFilled(i); }
      CountSame(Bits(), invert);
    }

    /** bmp.c bmp_set_bit */
    method SetBit(pos: nat) returns (r: int)
      requires Valid()
      modifies this`bitSetCount, mem
      ensures Valid() && r == if pos < bitCount then 0 else -ERANGE
      ensures Bits() == if pos < bitCount then old(Bits())[pos := true] else old(Bits())
    {
      if pos >= bitCount { return -ERANGE; }
      hide At, Bit, Words.Has, Words.With, Words.Without, Count;
      ghost var was := Bits();
      CountUpdate(was, pos, true);
      var block := pos / BITS_PER_BLOCK;
      ghost var word := mem[block];
      assert At(word, pos) <==> Words.Has(word, Bit(pos)) by { AtIs(word, pos); }
      if !Words.Has(mem[block], Bit(pos)) {
        mem[block] := Words.With(mem[block], Bit(pos));
        bitSetCount := bitSetCount + 1;
        forall i | 0 <= i < bitCount ensures Bits()[i] == was[pos := true][i] {
          if i / BITS_PER_BLOCK == block { AtSet(word, pos, i); }
        }
      }
      assert Bits() == was[pos := true];
      r := 0;
    }

    /** bmp.c bmp_unset_bit */
    method UnsetBit(pos: nat) returns (r: int)
      requires Valid()
      modifies this`bitSetCount, mem
      ensures Valid() && r == if pos < bitCount then 0 else -ERANGE
      ensures Bits() == if pos < bitCount then old(Bits())[pos := false] else old(Bits())
    {
      if pos >= bitCount { return -ERANGE; }
      hide At, Bit, Words.Has, Words.With, Words.Without, Count;
      ghost var was := Bits();
      CountUpdate(was, pos, false);
      var block := pos / BITS_PER_BLOCK;
      ghost var word := mem[block];
      assert At(word, pos) <==> Words.Has(word, Bit(pos)) by { AtIs(word, pos); }
      if Words.Has(mem[block], Bit(pos)) {
        mem[block] := Words.Without(mem[block], Bit(pos));
        bitSetCount := bitSetCount - 1;
        forall i | 0 <= i < bitCount ensures Bits()[i] == was[pos := false][i] {
          if i / BITS_PER_BLOCK == block { AtUnset(word, pos, i); }
        }
      }
      assert Bits() == was[pos := false];
      r := 0;
    }

    /** bmp.c bmp_bit_is_set */
    method BitIsSet(pos: nat) returns (b: bool)
      requires Valid()
      ensures b == (pos < bitCount && Bits()[pos])
    {
      if pos >= bitCount { return false; }
      hide At, Bit, Words.Has;
      AtIs(mem[pos / BITS_PER_BLOCK], pos);
      b := Words.Has(mem[pos / BITS_PER_BLOCK], Bit(pos));
    }

    /** bmp.c bmp_get_bit_set_count */
    method GetBitSetCount() returns (n: nat)
      requires Valid()
      ensures n == Count(Bits())
    {
      n := bitSetCount;
    }
  }

  /** bmp.c bmp_create; memory may run out. */
  method Create(count: nat, invert: bool) returns (b: Bmp?, r: int)
    ensures r == 0 || r == -EINVAL || r == -ENOMEM
    ensures r == -EINVAL <==> count == 0
    ensures b != null <==> r == 0
    ensures b != null ==> fresh(b) && fresh(b.mem) && b.Valid() && b.bitCount == count
    ensures b != null ==> forall i :: 0 <= i < count ==> b.Bits()[i] == invert
  {
    if count == 0 { return null, -EINVAL; }
    if * { return null, -ENOMEM; }
    b := new Bmp(count, invert);
    r := 0;
  }
}
