/**
 The checksum of section 4.4.7 of PKWARE APPNOTE.TXT as mathematics has it, and that the table-free loop computes it.

 The message is a polynomial over GF(2), each byte sent lowest bit first; its highest 32 coefficients are
 complemented, it is multiplied by x^32 and divided by the generator, and the complement of the remainder is the
 checksum, its highest coefficient sent first. Nothing in this definition is a machine word.
 */
module CrcDivision {
  import opened Crc
  import opened CrcBits
  import opened CrcLaws

  // ---------------------------------------------------------------- the definition

  /** The coefficients of a polynomial over GF(2), that of the highest power first. */
  type Poly = seq<bool>

  /** The powers of x that the generator has. */
  predicate HasPower(k: int) {
    || k == 32 || k == 26 || k == 23 || k == 22 || k == 16 || k == 12 || k == 11 || k == 10
    || k == 8 || k == 7 || k == 5 || k == 4 || k == 2 || k == 1 || k == 0
  }

  /** The coefficients of the generator below x^n. */
  function Below(n: nat): (g: Poly)
    ensures |g| == n
  {
    if n == 0 then [] else [HasPower(n - 1)] + Below(n - 1)
  }

  /** The generator without its highest power. */
  function Generator(): (g: Poly)
    ensures |g| == 32
  {
    Below(32)
  }

  /** `p` with `q` added to its highest coefficients. */
  function AddFront(p: Poly, q: Poly): (r: Poly)
    requires |q| <= |p|
    ensures |r| == |p|
  {
    seq(|p|, i requires 0 <= i < |p| => if i < |q| then p[i] != q[i] else p[i])
  }

  /** What is left of `p` when multiples of the generator have taken away all powers from x^32 up. */
  function Remainder(p: Poly): (r: Poly)
    ensures |r| == if |p| <= 32 then |p| else 32
    decreases |p|
  {
    if |p| <= 32 then p
    else Remainder(if p[0] then AddFront(p[1..], Generator()) else p[1..])
  }

  function Repeat(b: bool, n: nat): (p: Poly)
    ensures |p| == n && forall i :: 0 <= i < n ==> p[i] == b
  {
    seq(n, _ => b)
  }

  /** The lowest `n` binary digits of `x`, lowest first. */
  function Digits(x: nat, n: nat): (p: Poly)
    ensures |p| == n
  {
    if n == 0 then [] else [x % 2 == 1] + Digits(x / 2, n - 1)
  }

  function Message(bytes: Data): (p: Poly)
    ensures |p| == 8 * |bytes|
  {
    if bytes == [] then [] else Digits(bytes[0] as nat, 8) + Message(bytes[1..])
  }

  /** The number whose binary digits are `p`, lowest first. */
  function Number(p: Poly): (x: nat)
    ensures x < Power(|p|)
  {
    if p == [] then 0 else (if p[0] then 1 else 0) + 2 * Number(p[1..])
  }

  function Complement(p: Poly): (r: Poly)
    ensures |r| == |p|
  {
    AddFront(p, Repeat(true, |p|))
  }

  /** The checksum as a division leaves it. */
  function DivisionChecksum(bytes: Data): (x: nat)
    ensures x < 0x1_0000_0000
  {
    WordPower();
    Number(Complement(Remainder(AddFront(Message(bytes) + Repeat(false, 32), Repeat(true, 32)))))
  }

  // ---------------------------------------------------------------- it is the remainder

  /** The generator times `q`, plus `r`. */
  function Dividend(q: Poly, r: Poly): (p: Poly)
    requires |r| == 32
    ensures |p| == |q| + 32
  {
    if q == [] then r
    else AddFront([false] + Dividend(q[1..], r), if q[0] then [true] + Generator() else [])
  }

  function Quotient(p: Poly): (q: Poly)
    ensures |q| == if |p| <= 32 then 0 else |p| - 32
    decreases |p|
  {
    if |p| <= 32 then []
    else [p[0]] + Quotient(if p[0] then AddFront(p[1..], Generator()) else p[1..])
  }

  lemma AddFrontHead(x: bool, p: Poly, y: bool, q: Poly)
    requires |q| <= |p|
    ensures AddFront([x] + p, [y] + q) == [x != y] + AddFront(p, q)
  {
  }

  lemma AddFrontUndo(p: Poly, q: Poly)
    requires |q| <= |p|
    ensures AddFront(AddFront(p, q), q) == p
  {
  }

  lemma TailsDecide(b: bool, d: Poly, t: Poly)
    ensures [b] + d == [b] + t <==> d == t
  {
    assert ([b] + d)[1..] == d && ([b] + t)[1..] == t;
  }

  lemma DividendStep(b: bool, d: Poly, t: Poly)
    requires |d| == |t| >= 32
    ensures AddFront([false] + d, if b then [true] + Generator() else []) == [b] + t <==>
            d == if b then AddFront(t, Generator()) else t
  {
    var g := Generator();
    if b {
      AddFrontHead(false, d, true, g);
      TailsDecide(b, AddFront(d, g), t);
      AddFrontUndo(d, g);
      AddFrontUndo(t, g);
    } else {
      assert AddFront([false] + d, []) == [false] + d;
      TailsDecide(b, d, t);
    }
  }

  /** Division with remainder: `p` is the generator times `q`, plus `r`, for the quotient and remainder only. */
  lemma {:induction false} DivisionExact(p: Poly, q: Poly, r: Poly)
    requires |r| == 32 && |p| == |q| + 32
    ensures p == Dividend(q, r) <==> q == Quotient(p) && r == Remainder(p)
    decreases |p|
  {
    if q != [] {
      var next := if p[0] then AddFront(p[1..], Generator()) else p[1..];
      DivisionExact(next, q[1..], r);
      DividendStep(q[0], Dividend(q[1..], r), p[1..]);
      assert p == [p[0]] + p[1..] && q == [q[0]] + q[1..];
      assert Quotient(p) == [p[0]] + Quotient(next) && Quotient(p)[1..] == Quotient(next);
      assert Dividend(q, r)[0] == q[0];
    }
  }

  // ---------------------------------------------------------------- division, one message bit at a time

  /** The remainder so far, moved up by one power and compared with the next message bit. */
  function Next(w: Poly, bit: bool): (r: Poly)
    requires |w| == 32
    ensures |r| == 32
  {
    var up := w[1..] + [false];
    if w[0] != bit then AddFront(up, Generator()) else up
  }

  function Feed(w: Poly, m: Poly): (r: Poly)
    requires |w| == 32
    ensures |r| == 32
    decreases |m|
  {
    if m == [] then w else Feed(Next(w, m[0]), m[1..])
  }

  lemma AddFrontTwice(p: Poly, a: Poly, b: Poly)
    requires |a| == |b| <= |p|
    ensures AddFront(AddFront(p, a), b) == AddFront(p, AddFront(a, b))
  {
  }

  lemma {:induction false} DivisionIsFeeding(w: Poly, m: Poly)
    requires |w| == 32
    ensures Remainder(AddFront(m + Repeat(false, 32), w)) == Feed(w, m)
    decreases |m|
  {
    if m == [] {
      assert AddFront(m + Repeat(false, 32), w) == w;
    } else {
      var p := AddFront(m + Repeat(false, 32), w);
      var rest := m[1..] + Repeat(false, 32);
      var up := w[1..] + [false];
      assert p[1..] == AddFront(rest, up);
      AddFrontTwice(rest, up, Generator());
      DivisionIsFeeding(Next(w, m[0]), m[1..]);
    }
  }

  // ---------------------------------------------------------------- the register as a polynomial

  /** The lowest `n` bits of the register, lowest first. */
  function Window(c: Word, n: nat): (p: Poly)
    ensures |p| == n
    decreases n, c
  {
    if n == 0 then [] else [Odd(c)] + Window(Half(c), n - 1)
  }

  lemma WindowStep(c: Word, n: nat)
    ensures Window(c, n + 1) == [Odd(c)] + Window(Half(c), n)
  {
  }

  lemma {:induction false} WindowXor(a: Word, b: Word, n: nat)
    ensures Window(Xor(a, b), n) == AddFront(Window(a, n), Window(b, n))
    decreases n
  {
    if n > 0 {
      WindowStep(a, n - 1);
      WindowStep(b, n - 1);
      WindowStep(Xor(a, b), n - 1);
      OddBits(a, b);
      HalfXor(a, b);
      WindowXor(Half(a), Half(b), n - 1);
      AddFrontHead(Odd(a), Window(Half(a), n - 1), Odd(b), Window(Half(b), n - 1));
    }
  }

  lemma {:induction false} WindowSnoc(c: Word, n: nat)
    ensures Window(c, n + 1) == Window(c, n) + [Odd(Dropped(c, n))]
    decreases n
  {
    if n > 0 { WindowSnoc(Half(c), n - 1); }
  }

  lemma DroppedAdd(w: Word, m: nat, n: nat)
    ensures Dropped(w, m + n) == Dropped(Dropped(w, m), n)
    decreases m
  {
    if m > 0 { DroppedAdd(Half(w), m - 1, n); }
  }

  function DownEight(w: Word): Word { w >> 8 }

  lemma DownEightBits(w: Word)
    ensures DownTwo(DownTwo(DownTwo(DownTwo(w)))) == DownEight(w)
    ensures DownEight(DownEight(DownEight(DownEight(w)))) == 0
  {
  }

  lemma DroppedEight(w: Word)
    ensures Dropped(w, 8) == DownEight(w)
  {
    DroppedTwo(w, 8);
    DroppedTwo(DownTwo(w), 6);
    DroppedTwo(DownTwo(DownTwo(w)), 4);
    DroppedTwo(DownTwo(DownTwo(DownTwo(w))), 2);
    DownEightBits(w);
  }

  lemma AllDropped(w: Word)
    ensures Dropped(w, 32) == 0
  {
    DroppedAdd(w, 8, 24);
    DroppedEight(w);
    DroppedAdd(DownEight(w), 8, 16);
    DroppedEight(DownEight(w));
    DroppedAdd(DownEight(DownEight(w)), 8, 8);
    DroppedEight(DownEight(DownEight(w)));
    DroppedEight(DownEight(DownEight(DownEight(w))));
    DownEightBits(w);
  }

  lemma ZeroIsEven()
    ensures !Odd(0)
  {
  }

  lemma WindowHalf(c: Word)
    ensures Window(Half(c), 32) == Window(c, 32)[1..] + [false]
  {
    WindowSnoc(c, 32);
    AllDropped(c);
    ZeroIsEven();
    assert Window(c, 33)[1..] == Window(Half(c), 32);
  }

  /** One serial step of the register is one step of the division. */
  lemma StepIsNext(c: Word, bit: bool)
    ensures Window(SerialStep(c, bit), 32) == Next(Window(c, 32), bit)
  {
    GeneratorIsPolynomial();
    WindowHalf(c);
    WindowXor(Half(c), POLYNOMIAL, 32);
    assert Window(c, 32)[0] == Odd(c);
  }

  lemma {:induction false} NumberIsUnsigned(c: Word, n: nat)
    ensures Number(Window(c, n)) == Unsigned(c, n)
    decreases n
  {
    if n > 0 {
      assert Window(c, n)[1..] == Window(Half(c), n - 1);
      NumberIsUnsigned(Half(c), n - 1);
    }
  }

  // ---------------------------------------------------------------- the two constants

  lemma OnesFour(c: Word, up: Word, n: nat)
    requires n >= 4 && Window(up, n - 4) == Repeat(true, n - 4) && up == DownTwo(DownTwo(c))
    requires Odd(c) && Odd(Half(c)) && Odd(DownTwo(c)) && Odd(Half(DownTwo(c)))
    ensures Window(c, n) == Repeat(true, n)
  {
    HalfTwiceBits(c);
    HalfTwiceBits(DownTwo(c));
    assert Window(DownTwo(c), n - 2) == Repeat(true, n - 2);
    assert Window(Half(c), n - 1) == Repeat(true, n - 1);
  }

  lemma AllOnes()
    ensures Window(ONES, 32) == Repeat(true, 32)
  {
    OnesFour(0xf, 0x0, 4);
    OnesFour(0xff, 0xf, 8);
    OnesFour(0xfff, 0xff, 12);
    OnesFour(0xffff, 0xfff, 16);
    OnesFour(0xfffff, 0xffff, 20);
    OnesFour(0xffffff, 0xfffff, 24);
    OnesFour(0xfffffff, 0xffffff, 28);
    OnesFour(0xffffffff, 0xfffffff, 32);
  }

  /** The lowest four bits of the reflected polynomial are the coefficients of the four powers below x^n. */
  predicate Four(c: Word, up: Word, n: nat) {
    && up == DownTwo(DownTwo(c))
    && Odd(c) == HasPower(n - 1) && Odd(Half(c)) == HasPower(n - 2)
    && Odd(DownTwo(c)) == HasPower(n - 3) && Odd(Half(DownTwo(c))) == HasPower(n - 4)
  }

  lemma SameFour(c: Word, up: Word, n: nat)
    requires n >= 4 && Window(up, n - 4) == Below(n - 4) && Four(c, up, n)
    ensures Window(c, n) == Below(n)
  {
    HalfTwiceBits(c);
    HalfTwiceBits(DownTwo(c));
    assert Window(Half(DownTwo(c)), n - 3) == Below(n - 3);
    assert Window(DownTwo(c), n - 2) == Below(n - 2);
    assert Window(Half(c), n - 1) == Below(n - 1);
  }

  lemma LowPowers()
    ensures Window(0xedb8, 16) == Below(16)
  {
    SameFour(0xe, 0, 4);
    SameFour(0xed, 0xe, 8);
    SameFour(0xedb, 0xed, 12);
    SameFour(0xedb8, 0xedb, 16);
  }

  lemma HighPowers(n: nat)
    requires n == 32 && Window(0xedb8, n - 16) == Below(n - 16)
    ensures Window(POLYNOMIAL, n) == Below(n)
  {
    SameFour(0xedb88, 0xedb8, n - 12);
    SameFour(0xedb883, 0xedb88, n - 8);
    SameFour(0xedb8832, 0xedb883, n - 4);
    SameFour(0xedb88320, 0xedb8832, n);
  }

  lemma GeneratorIsPolynomial()
    ensures Window(POLYNOMIAL, 32) == Generator()
  {
    LowPowers();
    HighPowers(32);
  }

  // ---------------------------------------------------------------- the message

  /** The bits of a byte are its binary digits. */
  lemma DigitBits(n: nat)
    requires n < 256
    ensures n as bv8 & 1 == 1 <==> n % 2 == 1
    ensures (n as bv8 >> 1) & 1 == 1 <==> n / 2 % 2 == 1
    ensures (n as bv8 >> 2) & 1 == 1 <==> n / 4 % 2 == 1
    ensures (n as bv8 >> 3) & 1 == 1 <==> n / 8 % 2 == 1
    ensures (n as bv8 >> 4) & 1 == 1 <==> n / 16 % 2 == 1
    ensures (n as bv8 >> 5) & 1 == 1 <==> n / 32 % 2 == 1
    ensures (n as bv8 >> 6) & 1 == 1 <==> n / 64 % 2 == 1
    ensures (n as bv8 >> 7) & 1 == 1 <==> n / 128 % 2 == 1
  {
  }

  lemma WideBits(b: bv8)
    ensures Odd(Wide(b)) <==> b & 1 == 1
    ensures Half(Wide(b)) == Wide(b >> 1)
  {
  }

  /** The lowest `k` bits of a byte are the lowest `k` binary digits of a number. */
  predicate Agrees(b: bv8, n: nat, k: nat)
    decreases k, b, n
  {
    k == 0 || ((b & 1 == 1 <==> n % 2 == 1) && Agrees(b >> 1, n / 2, k - 1))
  }

  lemma {:induction false} AgreeingDigits(b: bv8, n: nat, k: nat)
    requires Agrees(b, n, k)
    ensures Window(Wide(b), k) == Digits(n, k)
    decreases k
  {
    if k > 0 {
      WideBits(b);
      AgreeingDigits(b >> 1, n / 2, k - 1);
    }
  }

  lemma AgreesNext(b: bv8, next: bv8, n: nat, half: nat, k: nat)
    requires next == b >> 1 && half == n / 2 && (b & 1 == 1 <==> n % 2 == 1) && Agrees(next, half, k)
    ensures Agrees(b, n, k + 1)
  {
  }

  lemma ShiftBits(b: bv8)
    ensures b >> 1 >> 1 == b >> 2 && b >> 2 >> 1 == b >> 3 && b >> 3 >> 1 == b >> 4
    ensures b >> 4 >> 1 == b >> 5 && b >> 5 >> 1 == b >> 6 && b >> 6 >> 1 == b >> 7
  {
  }

  lemma Halves(n: nat)
    ensures n / 2 / 2 == n / 4 && n / 4 / 2 == n / 8 && n / 8 / 2 == n / 16
    ensures n / 16 / 2 == n / 32 && n / 32 / 2 == n / 64 && n / 64 / 2 == n / 128
  {
  }

  lemma ByteAgrees(n: nat)
    requires n < 256
    ensures Agrees(n as bv8, n, 8)
  {
    var b := n as bv8;
    DigitBits(n);
    ShiftBits(b);
    Halves(n);
    AgreesNext(b >> 7, b >> 7 >> 1, n / 128, n / 128 / 2, 0);
    AgreesNext(b >> 6, b >> 7, n / 64, n / 128, 1);
    AgreesNext(b >> 5, b >> 6, n / 32, n / 64, 2);
    AgreesNext(b >> 4, b >> 5, n / 16, n / 32, 3);
    AgreesNext(b >> 3, b >> 4, n / 8, n / 16, 4);
    AgreesNext(b >> 2, b >> 3, n / 4, n / 8, 5);
    AgreesNext(b >> 1, b >> 2, n / 2, n / 4, 6);
    AgreesNext(b, b >> 1, n, n / 2, 7);
  }

  lemma ByteDigits(n: nat)
    requires n < 256
    ensures Window(Wide(n as bv8), 8) == Digits(n, 8)
  {
    ByteAgrees(n);
    AgreeingDigits(n as bv8, n, 8);
  }

  /** The serial register takes the bits of a word in the order in which the division does. */
  lemma {:induction false} SerialIsFeed(c: Word, w: Word, n: nat)
    ensures Window(Serial(c, w, n), 32) == Feed(Window(c, 32), Window(w, n))
    decreases n
  {
    if n > 0 {
      var bit, rest := Odd(w), Window(Half(w), n - 1);
      WindowStep(w, n - 1);
      StepIsNext(c, bit);
      SerialIsFeed(SerialStep(c, bit), Half(w), n - 1);
      assert ([bit] + rest)[1..] == rest;
    }
  }

  lemma {:induction false} FeedAppend(w: Poly, a: Poly, b: Poly)
    requires |w| == 32
    ensures Feed(w, a + b) == Feed(Feed(w, a), b)
    decreases |a|
  {
    if a == [] {
      assert a + b == b;
    } else {
      assert (a + b)[1..] == a[1..] + b;
      FeedAppend(Next(w, a[0]), a[1..], b);
    }
  }

  lemma {:induction false} StateIsFeed(c: Word, bytes: Data)
    ensures Window(State(c, Bits(bytes)), 32) == Feed(Window(c, 32), Message(bytes))
    decreases |bytes|
  {
    if bytes != [] {
      var b := bytes[0] as bv8;
      BitsHead(bytes, 0);
      assert bytes[0..] == bytes;
      StateIsSerial(c, [b]);
      ByteDigits(bytes[0] as nat);
      SerialIsFeed(c, Wide(b), 8);
      FeedAppend(Window(c, 32), Digits(bytes[0] as nat, 8), Message(bytes[1..]));
      StateIsFeed(Absorb(c, b), bytes[1..]);
    }
  }

  // ---------------------------------------------------------------- the theorem

  /** The loop over bytes computes the complement of the remainder. */
  lemma Crc32IsDivision(bytes: Data)
    ensures Unsigned(Crc32(Bits(bytes)), 32) == DivisionChecksum(bytes)
  {
    AllOnes();
    DivisionIsFeeding(Repeat(true, 32), Message(bytes));
    StateIsFeed(ONES, bytes);
    WindowXor(State(ONES, Bits(bytes)), ONES, 32);
    NumberIsUnsigned(Crc32(Bits(bytes)), 32);
  }

  lemma CheckFront()
    ensures State(ONES, [0x31, 0x32, 0x33, 0x34, 0x35]) == 0x340ac5e3
  {
    StateNext(ONES, 0x31, [0x32, 0x33, 0x34, 0x35], 0x7c231048);
    StateNext(0x7c231048, 0x32, [0x33, 0x34, 0x35], 0xb0acbb32);
    StateNext(0xb0acbb32, 0x33, [0x34, 0x35], 0x77b79c2d);
    StateNext(0x77b79c2d, 0x34, [0x35], 0x641c1f5c);
    StateNext(0x641c1f5c, 0x35, [], 0x340ac5e3);
  }

  lemma CheckBack()
    ensures State(0x340ac5e3, [0x36, 0x37, 0x38, 0x39]) == 0x340bc6d9
  {
    StateNext(0x340ac5e3, 0x36, [0x37, 0x38, 0x39], 0xf68d2c9e);
    StateNext(0xf68d2c9e, 0x37, [0x38, 0x39], 0xaffc9660);
    StateNext(0xaffc9660, 0x38, [0x39], 0x651f2550);
    StateNext(0x651f2550, 0x39, [], 0x340bc6d9);
  }

  lemma StateNext(c: Word, b: bv8, rest: Bytes, d: Word)
    requires Absorb(c, b) == d
    ensures State(c, [b] + rest) == State(d, rest)
  {
    assert ([b] + rest)[1..] == rest;
  }

  /** The check value that catalogues of checksums give for CRC-32: that of the nine characters `123456789`. */
  lemma CheckValue()
    ensures Crc32([0x31, 0x32, 0x33, 0x34, 0x35, 0x36, 0x37, 0x38, 0x39]) == 0xcbf43926
  {
    CheckFront();
    CheckBack();
    StateConcat(ONES, [0x31, 0x32, 0x33, 0x34, 0x35], [0x36, 0x37, 0x38, 0x39]);
  }
}
