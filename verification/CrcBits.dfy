/**
 Facts about single steps of the checksum: how the operations on its 32-bit register act on sums, which of
 them can be undone, and what short messages leave in it.

 `Xor`, `Half`, `Odd`, `Wide` and `Up` name single bit operations so that proofs can replace equals by equals
 without looking at bits; only the lemmas that end in `Bits` look inside.
 */
module CrcBits {
  import opened Crc

  // ---------------------------------------------------------------- the step is linear and invertible

  predicate Top(w: Word) { w & 0x80000000 != 0 }

  /** The mask that keeps the polynomial for an odd register, and nothing for an even one. */
  function Mask(low: Word): Word { POLYNOMIAL & (0 - low) }

  lemma LowBits(c: Word)
    ensures c & 1 == if Odd(c) then 1 else 0
  {
  }

  lemma MaskBits()
    ensures Mask(1) == POLYNOMIAL && Mask(0) == 0
  {
  }

  /** The step in the form that looks at the lowest bit. */
  lemma ShiftCases(c: Word)
    ensures Shift(c) == if Odd(c) then Xor(Half(c), POLYNOMIAL) else Half(c)
  {
    LowBits(c);
    MaskBits();
    XorUndoBits(Half(c), 0);
    assert Shift(c) == Xor(Half(c), Mask(c & 1));
  }

  /** The bit shifted out can be read off the top bit of the result. */
  lemma TopBits(c: Word)
    ensures Top(Shift(c)) <==> Odd(c)
  {
  }

  lemma XorSwapBits(a: Word, b: Word)
    ensures Xor(a, b) == Xor(b, a)
  {
  }

  lemma PairwiseBits(a: Word, b: Word, p: Word)
    ensures (a ^ p) ^ (b ^ p) == a ^ b
  {
  }

  lemma OutwardBits(a: Word, b: Word, p: Word)
    ensures (a ^ p) ^ b == (a ^ b) ^ p
  {
  }

  lemma AssociativeBits(a: Word, b: Word, p: Word)
    ensures a ^ (b ^ p) == (a ^ b) ^ p
  {
  }

  lemma XorPairwise(a: Word, b: Word, p: Word)
    ensures Xor(Xor(a, p), Xor(b, p)) == Xor(a, b)
  {
    PairwiseBits(a, b, p);
    assert Xor(a ^ p, b ^ p) == Xor(a, b);
  }

  lemma XorOutward(a: Word, b: Word, p: Word)
    ensures Xor(Xor(a, p), b) == Xor(Xor(a, b), p)
  {
    OutwardBits(a, b, p);
    assert Xor(a ^ p, b) == Xor(a ^ b, p);
  }

  lemma XorAssociative(a: Word, b: Word, p: Word)
    ensures Xor(a, Xor(b, p)) == Xor(Xor(a, b), p)
  {
    AssociativeBits(a, b, p);
    assert Xor(a, b ^ p) == Xor(a ^ b, p);
  }

  lemma XorLaws(a: Word, b: Word, p: Word)
    ensures Xor(Xor(a, p), Xor(b, p)) == Xor(a, b)
    ensures Xor(Xor(a, p), b) == Xor(Xor(a, b), p)
    ensures Xor(a, Xor(b, p)) == Xor(Xor(a, b), p)
  {
    XorPairwise(a, b, p);
    XorOutward(a, b, p);
    XorAssociative(a, b, p);
  }

  lemma XorUndoBits(a: Word, p: Word)
    ensures Xor(Xor(a, p), p) == a
    ensures Xor(a, 0) == a
  {
  }

  lemma OddBits(a: Word, b: Word)
    ensures Odd(Xor(a, b)) <==> Odd(a) != Odd(b)
  {
  }

  lemma HalfRawBits(a: Word, b: Word)
    ensures (a ^ b) >> 1 == (a >> 1) ^ (b >> 1)
  {
  }

  lemma HalfXor(a: Word, b: Word)
    ensures Half(Xor(a, b)) == Xor(Half(a), Half(b))
  {
    HalfRawBits(a, b);
    assert Half(a ^ b) == Half(a) ^ Half(b);
  }

  lemma XorCancels(a: Word, b: Word, p: Word)
    requires Xor(a, p) == Xor(b, p)
    ensures a == b
  {
    XorUndoBits(a, p);
    XorUndoBits(b, p);
  }

  lemma HalvesOdd(a: Word, b: Word)
    requires Odd(a) && Odd(b)
    ensures Shift(Xor(a, b)) == Xor(Shift(a), Shift(b))
  {
    ShiftCases(a);
    ShiftCases(b);
    ShiftCases(Xor(a, b));
    OddBits(a, b);
    HalfXor(a, b);
    XorPairwise(Half(a), Half(b), POLYNOMIAL);
  }

  lemma HalvesOneOdd(a: Word, b: Word)
    requires Odd(a) && !Odd(b)
    ensures Shift(Xor(a, b)) == Xor(Shift(a), Shift(b))
  {
    ShiftCases(a);
    ShiftCases(b);
    ShiftCases(Xor(a, b));
    OddBits(a, b);
    HalfXor(a, b);
    XorOutward(Half(a), Half(b), POLYNOMIAL);
  }

  lemma HalvesEven(a: Word, b: Word)
    requires !Odd(a) && !Odd(b)
    ensures Shift(Xor(a, b)) == Xor(Shift(a), Shift(b))
  {
    ShiftCases(a);
    ShiftCases(b);
    ShiftCases(Xor(a, b));
    OddBits(a, b);
    HalfXor(a, b);
  }

  lemma ShiftXor(a: Word, b: Word)
    ensures Shift(Xor(a, b)) == Xor(Shift(a), Shift(b))
  {
    if Odd(a) && Odd(b) {
      HalvesOdd(a, b);
    } else if Odd(a) {
      HalvesOneOdd(a, b);
    } else if Odd(b) {
      HalvesOneOdd(b, a);
      XorSwapBits(a, b);
      XorSwapBits(Shift(a), Shift(b));
    } else {
      HalvesEven(a, b);
    }
  }

  lemma {:induction false} ShiftsXor(a: Word, b: Word, n: nat)
    ensures Shifts(Xor(a, b), n) == Xor(Shifts(a, n), Shifts(b, n))
    decreases n
  {
    if n > 0 {
      ShiftXor(a, b);
      ShiftsXor(Shift(a), Shift(b), n - 1);
    }
  }

  lemma HalvesBits(a: Word, b: Word)
    requires Half(a) == Half(b) && Odd(a) == Odd(b)
    ensures a == b
  {
  }

  lemma {:induction false} ShiftsAdd(c: Word, m: nat, n: nat)
    ensures Shifts(c, m + n) == Shifts(Shifts(c, m), n)
    decreases m
  {
    if m > 0 { ShiftsAdd(Shift(c), m - 1, n); }
  }

  // ---------------------------------------------------------------- the serial register

  /** One message bit enters the textbook register: the bit shifted out is compared with it. */
  function SerialStep(c: Word, bit: bool): Word {
    if Odd(c) != bit then Xor(Half(c), POLYNOMIAL) else Half(c)
  }

  /** The lowest `n` bits of `w`, lowest first. */
  function Serial(c: Word, w: Word, n: nat): Word
    decreases n, c
  {
    if n == 0 then c else Serial(SerialStep(c, Odd(w)), Half(w), n - 1)
  }

  function Dropped(w: Word, n: nat): Word
    decreases n, w
  {
    if n == 0 then w else Dropped(Half(w), n - 1)
  }

  /** One serial step is the source's step on the sum, less the bits still to come. */
  lemma SerialStepIsShift(c: Word, w: Word)
    ensures Shift(Xor(c, w)) == Xor(SerialStep(c, Odd(w)), Half(w))
  {
    ShiftCases(Xor(c, w));
    OddBits(c, w);
    HalfXor(c, w);
    XorLaws(Half(c), Half(w), POLYNOMIAL);
  }

  lemma {:induction false} SerialShifts(c: Word, w: Word, n: nat)
    ensures Shifts(Xor(c, w), n) == Xor(Serial(c, w, n), Dropped(w, n))
    decreases n
  {
    if n > 0 {
      SerialStepIsShift(c, w);
      SerialShifts(SerialStep(c, Odd(w)), Half(w), n - 1);
    }
  }

  function DownTwo(w: Word): Word { w >> 2 }

  lemma DroppedTwo(w: Word, n: nat)
    requires n >= 2
    ensures Dropped(w, n) == Dropped(DownTwo(w), n - 2)
  {
    HalfTwiceBits(w);
  }

  lemma HalfTwiceBits(w: Word)
    ensures Half(Half(w)) == DownTwo(w)
  {
  }

  lemma ByteBits(b: bv8)
    ensures DownTwo(DownTwo(DownTwo(DownTwo(Wide(b))))) == 0
  {
  }

  lemma ByteDropped(b: bv8)
    ensures Dropped(Wide(b), 8) == 0
  {
    var w := Wide(b);
    DroppedTwo(w, 8);
    DroppedTwo(DownTwo(w), 6);
    DroppedTwo(DownTwo(DownTwo(w)), 4);
    DroppedTwo(DownTwo(DownTwo(DownTwo(w))), 2);
    ByteBits(b);
  }

  // ---------------------------------------------------------------- what short messages leave

  predicate PairZero(x: Word) { x & 3 == 0 }

  lemma PairZeroBits(x: Word)
    requires PairZero(x)
    ensures !Odd(x) && !Odd(Half(x))
  {
  }

  lemma ShiftPairZero(x: Word, n: nat)
    requires PairZero(x) && n >= 2
    ensures Shifts(x, n) == Shifts(DownTwo(x), n - 2)
  {
    PairZeroBits(x);
    HalfTwiceBits(x);
    ShiftCases(x);
    ShiftCases(Half(x));
  }

  lemma ShiftFourZeros(x: Word, n: nat)
    requires PairZero(x) && PairZero(DownTwo(x)) && n >= 4
    ensures Shifts(x, n) == Shifts(DownTwo(DownTwo(x)), n - 4)
  {
    ShiftPairZero(x, n);
    ShiftPairZero(DownTwo(x), n - 2);
  }

  /** The upper byte of a word is free. */
  predicate Fits24(y: Word) { y & 0xff000000 == 0 }

  lemma UpPairBits(y: Word)
    ensures PairZero(Up(y)) && PairZero(DownTwo(Up(y)))
    ensures PairZero(DownTwo(DownTwo(Up(y)))) && PairZero(DownTwo(DownTwo(DownTwo(Up(y)))))
  {
  }

  lemma UpDownBits(y: Word)
    requires Fits24(y)
    ensures DownTwo(DownTwo(DownTwo(DownTwo(Up(y))))) == y
  {
  }

  lemma ShiftsUp(y: Word)
    requires Fits24(y)
    ensures Shifts(Up(y), 8) == y
  {
    var x := Up(y);
    UpPairBits(y);
    ShiftFourZeros(x, 8);
    ShiftFourZeros(DownTwo(DownTwo(x)), 4);
    UpDownBits(y);
  }

  /** Bits above the lowest eight only move down while a byte is absorbed. */
  lemma AbsorbAhead(c: Word, b: bv8, y: Word)
    requires Fits24(y)
    ensures Shifts(Xor(c, Xor(Wide(b), Up(y))), 8) == Xor(Absorb(c, b), y)
  {
    XorLaws(c, Wide(b), Up(y));
    ShiftsXor(Xor(c, Wide(b)), Up(y), 8);
    ShiftsUp(y);
  }

  /** At most four bytes as the little-endian word they spell. */
  function Spell(b: Bytes): Word {
    if b == [] then 0 else Xor(Wide(b[0]), Up(Spell(b[1..])))
  }

  predicate Fits(w: Word, bytes: nat) {
    if bytes == 0 then w == 0
    else if bytes == 1 then w & 0xffffff00 == 0
    else if bytes == 2 then w & 0xffff0000 == 0
    else if bytes == 3 then Fits24(w)
    else true
  }

  lemma OneByteBits(b: bv8)
    ensures Wide(b) & 0xffffff00 == 0 && Up(0) == 0
  {
  }

  lemma TwoByteBits(b: bv8, y: Word)
    requires y & 0xffffff00 == 0
    ensures Xor(Wide(b), Up(y)) & 0xffff0000 == 0 && Fits24(y)
  {
  }

  lemma ThreeByteBits(b: bv8, y: Word)
    requires y & 0xffff0000 == 0
    ensures Fits24(Xor(Wide(b), Up(y))) && Fits24(y)
  {
  }

  lemma SpellFitsStep(b: bv8, y: Word, n: nat)
    requires Fits(y, n) && n < 4
    ensures Fits(Xor(Wide(b), Up(y)), n + 1) && Fits24(y)
  {
    if n == 0 {
      OneByteBits(b);
      XorUndoBits(Wide(b), 0);
    } else if n == 1 {
      TwoByteBits(b, y);
    } else if n == 2 {
      ThreeByteBits(b, y);
    }
  }

  lemma {:induction false} SpellFits(b: Bytes)
    requires |b| <= 4
    ensures Fits(Spell(b), |b|)
  {
    if b != [] {
      SpellFits(b[1..]);
      SpellFitsStep(b[0], Spell(b[1..]), |b| - 1);
    }
  }

  lemma SpellFits24(b: Bytes)
    requires |b| <= 3
    ensures Fits24(Spell(b))
  {
    SpellFits(b);
    SpellFitsStep(0, Spell(b), |b|);
  }

  lemma LowByteBits(a: bv8, y: Word, b: bv8, z: Word)
    requires Fits24(y) && Fits24(z)
    requires Xor(Wide(a), Up(y)) == Xor(Wide(b), Up(z))
    ensures a == b && y == z
  {
    LowByteOfBits(a, y);
    LowByteOfBits(b, z);
  }

  lemma LowByteOfBits(a: bv8, y: Word)
    requires Fits24(y)
    ensures Xor(Wide(a), Up(y)) & 0xff == Wide(a)
    ensures Xor(Wide(a), Up(y)) >> 8 == y
  {
  }

  lemma SameHeadAndTail(a: Bytes, b: Bytes)
    requires a != [] && b != [] && a[0] == b[0] && a[1..] == b[1..]
    ensures a == b
  {
    assert a == [a[0]] + a[1..] && b == [b[0]] + b[1..];
  }

  lemma {:induction false} SpellInjective(a: Bytes, b: Bytes)
    requires |a| == |b| <= 4 && Spell(a) == Spell(b)
    ensures a == b
    decreases |a|
  {
    if a != [] {
      SpellFits24(a[1..]);
      SpellFits24(b[1..]);
      LowByteBits(a[0], Spell(a[1..]), b[0], Spell(b[1..]));
      SpellInjective(a[1..], b[1..]);
      SameHeadAndTail(a, b);
    }
  }
}
