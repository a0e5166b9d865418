/**
 Numbers and names at fixed places of a header: what a field holds after the writes that follow it, and what a
 reader that looks at the place sees. Each header is written field by field into a zeroed buffer, so the facts
 below say of every field that it is written once, at a place no other write touches, and of the fields that are
 not written at all that they stay zero. `Holds` says that some bytes stand at a place.
 */
module ZipLayout {
  import opened Common
  import opened Crc
  import opened Zip

  function Get16(s: Data, at: nat): nat
    requires at + 2 <= |s|
  {
    (s[at] as nat) + 256 * (s[at + 1] as nat)
  }

  function Get32(s: Data, at: nat): nat
    requires at + 4 <= |s|
  {
    Get16(s, at) + 65536 * Get16(s, at + 2)
  }

  /** The bytes `b` stand at `at`. */
  predicate Holds(s: Data, at: nat, b: Data) {
    at + |b| <= |s| && forall i :: 0 <= i < |b| ==> s[at + i] == b[i]
  }

  lemma TwoDigits(n: nat)
    ensures n % 256 + 256 * (n / 256 % 256) == n % 0x1_0000
  {
    var q := n / 0x1_0000;
    assert n / 256 / 256 == q;
  }

  lemma HeldU16(s: Data, at: nat, n: nat)
    requires Holds(s, at, U16(n))
    ensures Get16(s, at) == n % 0x1_0000
  {
    assert s[at + 0] == U16(n)[0] && s[at + 1] == U16(n)[1];
    TwoDigits(n);
  }

  lemma HeldParts(s: Data, at: nat, a: Data, b: Data)
    requires Holds(s, at, a + b)
    ensures Holds(s, at, a) && Holds(s, at + |a|, b)
  {
    forall i | 0 <= i < |a| ensures s[at + i] == a[i] { assert s[at + i] == (a + b)[i]; }
    forall i | 0 <= i < |b| ensures s[at + |a| + i] == b[i] { assert s[at + (|a| + i)] == (a + b)[|a| + i]; }
  }

  lemma ByteWraps(n: nat, m: nat)
    requires n % 256 == m % 256
    ensures LowByte(n) == LowByte(m)
  {
  }

  lemma PairWraps(n: nat, m: nat)
    requires n % 0x1_0000 == m % 0x1_0000
    ensures U16(n) == U16(m)
  {
    TwoDigits(n);
    TwoDigits(m);
    ByteWraps(n, m);
    ByteWraps(n / 256, m / 256);
  }

  lemma HighWraps(n: nat)
    ensures n % 0x1_0000_0000 % 0x1_0000 == n % 0x1_0000
    ensures n % 0x1_0000_0000 / 0x1_0000 % 0x1_0000 == n / 0x1_0000 % 0x1_0000
  {
    var q, r := n / 0x1_0000_0000, n % 0x1_0000_0000;
    assert n == 0x1_0000 * (0x1_0000 * q) + r;
    assert n / 0x1_0000 == 0x1_0000 * q + r / 0x1_0000;
  }

  /** A 32-bit field holds its number modulo 2^32. */
  lemma Wraps(n: nat)
    ensures U32(n) == U32(n % 0x1_0000_0000)
  {
    HighWraps(n);
    PairWraps(n, n % 0x1_0000_0000);
    PairWraps(n / 0x1_0000, n % 0x1_0000_0000 / 0x1_0000);
  }

  lemma HeldLow(s: Data, at: nat, n: nat)
    requires Holds(s, at, U32(n))
    ensures Get16(s, at) == n % 0x1_0000
  {
    HeldParts(s, at, U16(n), U16(n / 65536));
    HeldU16(s, at, n);
  }

  lemma HeldHigh(s: Data, at: nat, n: nat)
    requires Holds(s, at, U32(n))
    ensures Get16(s, at + 2) == n / 65536 % 0x1_0000
  {
    HeldParts(s, at, U16(n), U16(n / 65536));
    HeldU16(s, at + 2, n / 65536);
  }

  lemma Halves(s: Data, at: nat, n: nat)
    requires at + 4 <= |s| && n < 0x1_0000_0000
    requires Get16(s, at) == n % 0x1_0000 && Get16(s, at + 2) == n / 65536 % 0x1_0000
    ensures Get32(s, at) == n
  {
  }

  lemma HeldU32(s: Data, at: nat, n: nat)
    requires Holds(s, at, U32(n)) && n < 0x1_0000_0000
    ensures Get32(s, at) == n
  {
    HeldLow(s, at, n);
    HeldHigh(s, at, n);
    Halves(s, at, n);
  }

  lemma PutHolds(s: Data, at: nat, b: Data)
    requires at + |b| <= |s|
    ensures Holds(Put(s, at, b), at, b)
  {
    forall i | 0 <= i < |b| ensures Put(s, at, b)[at + i] == b[i] {
      PutAt(s, at, b, at + i);
    }
  }

  lemma PutKeeps(s: Data, at: nat, b: Data, at': nat, b': Data)
    requires at' + |b'| <= |s| && Holds(s, at, b)
    requires at + |b| <= at' || at' + |b'| <= at
    ensures Holds(Put(s, at', b'), at, b)
  {
    forall i | 0 <= i < |b| ensures Put(s, at', b')[at + i] == b[i] {
      PutAt(s, at', b', at + i);
    }
  }

  /** Writing a field leaves every other field as it was. */
  lemma PutField(s: Data, at: nat, b: Data)
    requires at + |b| <= |s|
    ensures Holds(Put(s, at, b), at, b)
    ensures forall at': nat, b': Data :: Holds(s, at', b') && (at' + |b'| <= at || at + |b| <= at') ==>
      Holds(Put(s, at, b), at', b')
  {
    PutHolds(s, at, b);
    forall at': nat, b': Data | Holds(s, at', b') && (at' + |b'| <= at || at + |b| <= at')
      ensures Holds(Put(s, at, b), at', b')
    {
      PutKeeps(s, at', b', at, b);
    }
  }

  lemma ZerosHold(n: nat, at: nat, k: nat)
    requires at + k <= n
    ensures Holds(Zeros(n), at, Zeros(k))
  {
  }

  predicate Apart(at: nat, n: nat, at': nat, n': nat) {
    at + n <= at' || at' + n' <= at
  }

  /** Writing three fields one behind the other. */
  lemma PutThree(s: Data, i: nat, a: Data, j: nat, b: Data, k: nat, c: Data) returns (h: Data)
    requires i + |a| <= j && j + |b| <= k && k + |c| <= |s|
    ensures h == Put(Put(Put(s, i, a), j, b), k, c) && |h| == |s|
    ensures Holds(h, i, a) && Holds(h, j, b) && Holds(h, k, c)
    ensures forall at: nat, d: Data ::
      Holds(s, at, d) && Apart(at, |d|, i, |a|) && Apart(at, |d|, j, |b|) && Apart(at, |d|, k, |c|) ==> Holds(h, at, d)
  {
    PutField(s, i, a);
    PutField(Put(s, i, a), j, b);
    PutField(Put(Put(s, i, a), j, b), k, c);
    h := Put(Put(Put(s, i, a), j, b), k, c);
  }

  ghost predicate LocalFrontHeld(
      h: Data, signature: Data, version: Data, flags: Data, date: Data, crc: Data, size: Data) {
    && Holds(h, 0, signature) && Holds(h, 4, version) && Holds(h, 6, flags) && Holds(h, 12, date)
    && Holds(h, 14, crc) && Holds(h, 18, size)
  }

  lemma LocalFront(s: Data, signature: Data, version: Data, flags: Data, date: Data, crc: Data, size: Data)
      returns (h: Data)
    requires |signature| == |crc| == |size| == 4 && |version| == |flags| == |date| == 2 && |s| >= 30
    ensures h == Put(Put(Put(Put(Put(Put(s, 0, signature), 4, version), 6, flags), 12, date), 14, crc), 18, size)
      && |h| == |s|
    ensures LocalFrontHeld(h, signature, version, flags, date, crc, size)
    ensures forall at: nat, z :: Holds(s, at, z) && ((at == 8 && |z| == 4) || at >= 22) ==> Holds(h, at, z)
  {
    h := PutThree(s, 0, signature, 4, version, 6, flags);
    h := PutThree(h, 12, date, 14, crc, 18, size);
  }

  /** The fields of a local header, each where section 4.3.7 of APPNOTE.TXT puts it. */
  lemma LocalLayout(s: Data, signature: Data, version: Data, flags: Data, date: Data, crc: Data, size: Data,
      length: Data, name: Data)
    returns (h: Data)
    requires |signature| == |crc| == |size| == 4 && |version| == |flags| == |date| == |length| == 2
    requires |s| == 30 + |name|
    ensures h == Put(Put(Put(Put(Put(Put(Put(Put(Put(s, 0, signature), 4, version), 6, flags), 12, date), 14, crc), 18,
      size), 22, size), 26, length), 30, name)
    ensures LocalFrontHeld(h, signature, version, flags, date, crc, size)
    ensures Holds(h, 22, size) && Holds(h, 26, length) && Holds(h, 30, name)
    ensures forall z | |z| == 4 && Holds(s, 8, z) :: Holds(h, 8, z)
    ensures forall z | |z| == 2 && Holds(s, 28, z) :: Holds(h, 28, z)
  {
    h := LocalFront(s, signature, version, flags, date, crc, size);
    h := PutThree(h, 22, size, 26, length, 30, name);
  }

  ghost predicate CentralFrontHeld(h: Data, signature: Data, version: Data, flags: Data, date: Data, crc: Data) {
    && Holds(h, 0, signature) && Holds(h, 4, version) && Holds(h, 6, version) && Holds(h, 8, flags)
    && Holds(h, 14, date) && Holds(h, 16, crc)
  }

  ghost predicate CentralBackHeld(h: Data, size: Data, length: Data, offset: Data, name: Data) {
    && Holds(h, 20, size) && Holds(h, 24, size) && Holds(h, 28, length) && Holds(h, 42, offset)
    && Holds(h, 46, name)
  }

  lemma CentralFront(s: Data, signature: Data, version: Data, flags: Data, date: Data, crc: Data) returns (h: Data)
    requires |signature| == |crc| == 4 && |version| == |flags| == |date| == 2 && |s| >= 46
    ensures h == Put(Put(Put(Put(Put(Put(s, 0, signature), 4, version), 6, version), 8, flags), 14, date), 16, crc)
      && |h| == |s|
    ensures CentralFrontHeld(h, signature, version, flags, date, crc)
    ensures forall at: nat, z :: Holds(s, at, z) && ((at == 10 && |z| == 4) || at >= 20) ==> Holds(h, at, z)
  {
    h := PutThree(s, 0, signature, 4, version, 6, version);
    h := PutThree(h, 8, flags, 14, date, 16, crc);
  }

  lemma CentralBack(s: Data, size: Data, length: Data, offset: Data, name: Data) returns (h: Data)
    requires |size| == |offset| == 4 && |length| == 2 && |s| == 46 + |name|
    ensures h == Put(Put(Put(Put(Put(s, 20, size), 24, size), 28, length), 42, offset), 46, name)
    ensures CentralBackHeld(h, size, length, offset, name)
    ensures forall at: nat, z :: Holds(s, at, z) && (at + |z| <= 20 || (at == 30 && |z| == 12)) ==> Holds(h, at, z)
  {
    h := PutThree(s, 20, size, 24, size, 28, length);
    PutField(h, 42, offset);
    h := Put(h, 42, offset);
    PutField(h, 46, name);
    h := Put(h, 46, name);
  }

  /** The fields of a directory entry, each where section 4.3.12 of APPNOTE.TXT puts it. */
  lemma CentralLayout(s: Data, signature: Data, version: Data, flags: Data, date: Data, crc: Data, size: Data,
      length: Data, offset: Data, name: Data)
    returns (h: Data)
    requires |signature| == |crc| == |size| == |offset| == 4 && |version| == |flags| == |date| == |length| == 2
    requires |s| == 46 + |name|
    ensures h == Put(Put(Put(Put(Put(Put(Put(Put(Put(Put(Put(s, 0, signature), 4, version), 6, version), 8, flags), 14,
      date), 16, crc), 20, size), 24, size), 28, length), 42, offset), 46, name)
    ensures CentralFrontHeld(h, signature, version, flags, date, crc)
    ensures CentralBackHeld(h, size, length, offset, name)
    ensures forall z | |z| == 4 && Holds(s, 10, z) :: Holds(h, 10, z)
    ensures forall z | |z| == 12 && Holds(s, 30, z) :: Holds(h, 30, z)
  {
    h := CentralFront(s, signature, version, flags, date, crc);
    h := CentralBack(h, size, length, offset, name);
  }

  lemma EndLayout(s: Data, signature: Data, count: Data, size: Data, offset: Data) returns (h: Data)
    requires |signature| == |size| == |offset| == 4 && |count| == 2 && |s| == 22
    ensures h == Put(Put(Put(Put(Put(s, 0, signature), 8, count), 10, count), 12, size), 16, offset)
    ensures Holds(h, 0, signature) && Holds(h, 8, count) && Holds(h, 10, count)
    ensures Holds(h, 12, size) && Holds(h, 16, offset)
    ensures forall z | |z| == 4 && Holds(s, 4, z) :: Holds(h, 4, z)
    ensures forall z | |z| == 2 && Holds(s, 20, z) :: Holds(h, 20, z)
  {
    h := PutThree(s, 0, signature, 8, count, 10, count);
    PutField(h, 12, size);
    h := Put(h, 12, size);
    PutField(h, 16, offset);
    h := Put(h, 16, offset);
  }

  lemma Within(z: Data, at: nat, h: Data, k: nat, b: Data)
    requires Holds(z, at, h) && Holds(h, k, b)
    ensures Holds(z, at + k, b)
  {
    forall i | 0 <= i < |b| ensures z[at + k + i] == b[i] {
      assert z[at + (k + i)] == h[k + i];
    }
  }

  lemma HoldsInside(z: Data, a: Data, b: Data)
    requires a + b <= z
    ensures Holds(z, |a|, b)
  {
    forall i | 0 <= i < |b| ensures z[|a| + i] == b[i] { assert z[|a| + i] == (a + b)[|a| + i]; }
  }

  lemma Longer(l: Data, a: Data, b: Data, c: Data)
    requires l <= a
    ensures l <= a + b && l <= a + b + c
  {
  }

  lemma {:induction false} LocalsPrefix(parts: seq<Part>, i: nat)
    requires i <= |parts|
    ensures Locals(parts[..i]) <= Locals(parts) && Centrals(parts[..i]) <= Centrals(parts)
    decreases |parts|
  {
    if i == |parts| {
      assert parts[..i] == parts;
    } else {
      var n := |parts| - 1;
      var front := parts[..n];
      LocalsPrefix(front, i);
      assert front[..i] == parts[..i];
      Longer(Locals(front[..i]), Locals(front), parts[n].header, parts[n].data);
      Longer(Centrals(front[..i]), Centrals(front), parts[n].entry, []);
    }
  }

  lemma Number32(z: Data, at: nat, h: Data, k: nat, n: nat)
    requires Holds(z, at, h) && Holds(h, k, U32(n)) && n < 0x1_0000_0000
    ensures at + k + 4 <= |z| && Get32(z, at + k) == n
  {
    Within(z, at, h, k, U32(n));
    HeldU32(z, at + k, n);
  }

  lemma Small(n: nat)
    requires n < 0x1_0000
    ensures n % 0x1_0000 == n
  {
  }

  lemma HeldSmall(s: Data, at: nat, n: nat)
    requires Holds(s, at, U16(n)) && n < 0x1_0000
    ensures Get16(s, at) == n
  {
    HeldU16(s, at, n);
    Small(n);
  }

  lemma Number16(z: Data, at: nat, h: Data, k: nat, n: nat)
    requires Holds(z, at, h) && Holds(h, k, U16(n)) && n < 0x1_0000
    ensures at + k + 2 <= |z| && Get16(z, at + k) == n
  {
    Within(z, at, h, k, U16(n));
    HeldSmall(z, at + k, n);
  }

  lemma HeldSlice(z: Data, at: nat, b: Data)
    requires Holds(z, at, b)
    ensures z[at..at + |b|] == b
  {
  }

  lemma Tail(z: Data, a: Data, b: Data, c: Data)
    requires a + b <= z && c <= b
    ensures a + c <= z
  {
    assert a + c == (a + b)[..|a| + |c|];
  }

  /** A number read among bytes that were never written is 0. */
  lemma Unset(z: Data, at: nat, h: Data, k: nat, n: nat, i: nat)
    requires Holds(z, at, h) && Holds(h, k, Zeros(n)) && k <= i && i + 2 <= k + n
    ensures at + i + 2 <= |z| && Get16(z, at + i) == 0
  {
    assert z[at + i] == h[k + (i - k)] == Zeros(n)[i - k];
    assert z[at + (i + 1)] == h[k + (i + 1 - k)] == Zeros(n)[i + 1 - k];
  }
}
