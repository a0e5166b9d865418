/** The reflected CRC-32 of section 4.4.7 of PKWARE APPNOTE.TXT. */
module Crc {
  type Word = bv32

  /** A byte of a `Uint8Array`. */
  newtype Byte = x: int | 0 <= x < 256

  type Data = seq<Byte>

  /** The same bytes with their bits in sight. */
  type Bytes = seq<bv8>

  function Bits(bytes: Data): (b: Bytes)
    ensures |b| == |bytes|
  {
    if bytes == [] then [] else [bytes[0] as bv8] + Bits(bytes[1..])
  }

  const POLYNOMIAL: Word := 0xedb88320
  const ONES: Word := 0xffffffff

  function Xor(a: Word, b: Word): Word { a ^ b }

  function Half(w: Word): Word { w >> 1 }

  predicate Odd(w: Word) { w & 1 == 1 }

  function Wide(b: bv8): Word { b as Word }

  function Up(w: Word): Word { w << 8 }

  /** The inner step of the loop, in the source's branch-free form. */
  function Shift(c: Word): Word {
    (c >> 1) ^ (POLYNOMIAL & (0 - (c & 1)))
  }

  function Shifts(c: Word, n: nat): Word
    decreases n, c
  {
    if n == 0 then c else Shifts(Shift(c), n - 1)
  }

  function Absorb(c: Word, b: bv8): Word {
    Shifts(Xor(c, Wide(b)), 8)
  }

  function State(c: Word, bytes: Bytes): Word
    decreases |bytes|
  {
    if bytes == [] then c else State(Absorb(c, bytes[0]), bytes[1..])
  }

  function Crc32(bytes: Bytes): Word {
    Xor(State(ONES, bytes), ONES)
  }

  function Power(n: nat): (p: nat)
    ensures p > 0
  {
    if n == 0 then 1 else 2 * Power(n - 1)
  }

  lemma WordPower()
    ensures Power(32) == 0x1_0000_0000
  {
    assert Power(8) == 256;
    assert Power(16) == 0x1_0000;
    assert Power(24) == 0x100_0000;
  }

  /** What `>>> 0` makes of the register: the number that its lowest `n` bits spell. */
  function Unsigned(w: Word, n: nat): (x: nat)
    ensures x < Power(n)
    decreases n, w
  {
    if n == 0 then 0 else (if Odd(w) then 1 else 0) + 2 * Unsigned(Half(w), n - 1)
  }

  lemma BitsHead(bytes: Data, i: nat)
    requires i < |bytes|
    ensures Bits(bytes[i..]) != [] && Bits(bytes[i..])[0] == bytes[i] as bv8
    ensures Bits(bytes[i..])[1..] == Bits(bytes[i + 1..])
  {
    assert bytes[i..][1..] == bytes[i + 1..];
  }

  /** `crc32`. */
  method ComputeCrc32(bytes: Data) returns (r: nat)
    ensures r == Unsigned(Crc32(Bits(bytes)), 32)
  {
    var crc := ONES;
    for i := 0 to |bytes|
      invariant State(crc, Bits(bytes[i..])) == State(ONES, Bits(bytes))
    {
      ghost var absorbed := Absorb(crc, bytes[i] as bv8);
      BitsHead(bytes, i);
      crc := Xor(crc, Wide(bytes[i] as bv8));
      for b := 0 to 8
        invariant Shifts(crc, 8 - b) == absorbed
      {
        crc := Shift(crc);
      }
    }
    r := Unsigned(Xor(crc, ONES), 32);
  }
}
