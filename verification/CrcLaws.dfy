/** What CRC-32 computes and detects. */
module CrcLaws {
  import opened Crc
  import opened CrcBits

  lemma ShiftInjective(a: Word, b: Word)
    requires Shift(a) == Shift(b)
    ensures a == b
  {
    TopBits(a);
    TopBits(b);
    ShiftCases(a);
    ShiftCases(b);
    if Odd(a) { XorCancels(Half(a), Half(b), POLYNOMIAL); }
    HalvesBits(a, b);
  }

  lemma {:induction false} ShiftsInjective(a: Word, b: Word, n: nat)
    requires Shifts(a, n) == Shifts(b, n)
    ensures a == b
    decreases n
  {
    if n > 0 {
      ShiftsInjective(Shift(a), Shift(b), n - 1);
      ShiftInjective(a, b);
    }
  }

  /** Whole messages keep distinct states distinct. */
  lemma {:induction false} StateInjective(a: Word, b: Word, bytes: Bytes)
    requires State(a, bytes) == State(b, bytes)
    ensures a == b
    decreases |bytes|
  {
    if bytes != [] {
      StateInjective(Absorb(a, bytes[0]), Absorb(b, bytes[0]), bytes[1..]);
      ShiftsInjective(Xor(a, Wide(bytes[0])), Xor(b, Wide(bytes[0])), 8);
      XorCancels(a, b, Wide(bytes[0]));
    }
  }

  /** The checksum of a concatenation continues from the checksum of its first part. */
  lemma {:induction false} StateConcat(c: Word, a: Bytes, b: Bytes)
    ensures State(c, a + b) == State(State(c, a), b)
    decreases |a|
  {
    if a == [] {
      assert a + b == b;
    } else {
      assert (a + b)[1..] == a[1..] + b;
      StateConcat(Absorb(c, a[0]), a[1..], b);
    }
  }

  lemma Crc32Concat(a: Bytes, b: Bytes)
    ensures Crc32(a + b) == Xor(State(Xor(Crc32(a), ONES), b), ONES)
  {
    StateConcat(ONES, a, b);
    XorUndoBits(State(ONES, a), ONES);
  }

  function SerialState(c: Word, bytes: Bytes): Word
    decreases |bytes|
  {
    if bytes == [] then c else SerialState(Serial(c, Wide(bytes[0]), 8), bytes[1..])
  }

  /** The byte loop computes what the serial register computes bit by bit. */
  lemma {:induction false} StateIsSerial(c: Word, bytes: Bytes)
    ensures State(c, bytes) == SerialState(c, bytes)
    decreases |bytes|
  {
    if bytes != [] {
      SerialShifts(c, Wide(bytes[0]), 8);
      ByteDropped(bytes[0]);
      XorUndoBits(Serial(c, Wide(bytes[0]), 8), 0);
      StateIsSerial(Absorb(c, bytes[0]), bytes[1..]);
    }
  }

  /** Absorbing at most four bytes is eight steps for each on the state plus their word. */
  lemma {:induction false} StateSpelled(c: Word, b: Bytes)
    requires |b| <= 4
    ensures State(c, b) == Shifts(Xor(c, Spell(b)), 8 * |b|)
    decreases |b|
  {
    if b == [] {
      XorUndoBits(c, 0);
    } else {
      var y := Spell(b[1..]);
      SpellFits24(b[1..]);
      AbsorbAhead(c, b[0], y);
      ShiftsAdd(Xor(c, Spell(b)), 8, 8 * |b[1..]|);
      StateSpelled(Absorb(c, b[0]), b[1..]);
    }
  }

  /** At most four bytes from one state are told apart by the state they lead to. */
  lemma ShortRunsMatter(c: Word, a: Bytes, b: Bytes)
    requires |a| == |b| <= 4 && State(c, a) == State(c, b)
    ensures a == b
  {
    StateSpelled(c, a);
    StateSpelled(c, b);
    ShiftsInjective(Xor(c, Spell(a)), Xor(c, Spell(b)), 8 * |a|);
    XorSwapBits(c, Spell(a));
    XorSwapBits(c, Spell(b));
    XorCancels(Spell(a), Spell(b), c);
    SpellInjective(a, b);
  }

  /**
   Burst detection: two messages that agree outside one stretch of at most four bytes, and differ
   inside it, have different checksums.
   */
  lemma BurstDetected(before: Bytes, x: Bytes, y: Bytes, after: Bytes)
    requires |x| == |y| <= 4 && x != y
    ensures Crc32(before + x + after) != Crc32(before + y + after)
  {
    StateConcat(ONES, before + x, after);
    StateConcat(ONES, before + y, after);
    StateConcat(ONES, before, x);
    StateConcat(ONES, before, y);
    if Crc32(before + x + after) == Crc32(before + y + after) {
      XorCancels(State(ONES, before + x + after), State(ONES, before + y + after), ONES);
      StateInjective(State(ONES, before + x), State(ONES, before + y), after);
      ShortRunsMatter(State(ONES, before), x, y);
    }
  }

  /** In particular a message with one byte changed never keeps its checksum. */
  lemma OneByteDetected(a: Bytes, i: nat, b: bv8)
    requires i < |a| && b != a[i]
    ensures Crc32(a[i := b]) != Crc32(a)
  {
    BurstDetected(a[..i], [a[i]], [b], a[i + 1..]);
    assert a[..i] + [a[i]] + a[i + 1..] == a;
    assert a[..i] + [b] + a[i + 1..] == a[i := b];
  }
}
