/** Which connector versions know how to close things. */
module Versions {
  import opened Common
  import opened Decimals

  /** What comes before the first of the stops. */
  function Until(s: string, stops: set<char>): (r: string)
    ensures |r| <= |s|
  {
    if s == [] || s[0] in stops then [] else [s[0]] + Until(s[1..], stops)
  }

  /** `core.split('.')`. */
  function Pieces(s: string): seq<string>
    decreases |s|
  {
    var head := Until(s, {'.'});
    if |head| == |s| then [s] else [head] + Pieces(s[|head| + 1..])
  }

  predicate AllDigits(s: string) {
    forall i :: 0 <= i < |s| ==> '0' <= s[i] <= '9'
  }

  function Value(s: string): nat
    requires AllDigits(s)
  {
    if s == [] then 0 else 10 * Value(s[..|s| - 1]) + (s[|s| - 1] - '0') as nat
  }

  /** `parse::<u32>().ok().unwrap_or(0)`. */
  function Number(s: string): nat {
    if s != [] && AllDigits(s) && Value(s) < 0x1_0000_0000 then Value(s) else 0
  }

  /** A component that is not there counts as 0. */
  function Component(pieces: seq<string>, k: nat): nat {
    if k < |pieces| then Number(pieces[k]) else 0
  }

  /** Versions compare by their components, the first first. */
  predicate AtLeast(a: seq<nat>, b: seq<nat>)
    requires |a| == |b|
  {
    a == [] || a[0] > b[0] || (a[0] == b[0] && AtLeast(a[1..], b[1..]))
  }

  const MIN_RECONCILE_VERSION: seq<nat> := [0, 2, 0]

  /** `version_supports_reconcile`. */
  predicate Supports(version: Option<string>) {
    version.Some? &&
    var pieces := Pieces(Until(version.value, {'-', '+'}));
    AtLeast([Component(pieces, 0), Component(pieces, 1), Component(pieces, 2)], MIN_RECONCILE_VERSION)
  }

  lemma {:induction false} UntilStop(s: string, rest: string, stops: set<char>)
    requires (forall c :: c in s ==> c !in stops) && (rest == [] || rest[0] in stops)
    ensures Until(s + rest, stops) == s
  {
    if s == [] {
      assert s + rest == rest;
    } else {
      assert (s + rest)[1..] == s[1..] + rest;
      UntilStop(s[1..], rest, stops);
    }
  }

  lemma PiecesHead(s: string, rest: string)
    requires AllDigits(s)
    ensures Pieces(s + "." + rest) == [s] + Pieces(rest) && Pieces(s) == [s]
  {
    UntilStop(s, "." + rest, {'.'});
    UntilStop(s, "", {'.'});
    assert s + "" == s && s + "." + rest == s + ("." + rest);
    assert (s + "." + rest)[|s| + 1..] == rest;
  }

  lemma ThreePieces(x: string, y: string, z: string)
    requires AllDigits(x) && AllDigits(y) && AllDigits(z)
    ensures Pieces(x + "." + (y + "." + z)) == [x, y, z]
  {
    PiecesHead(x, y + "." + z);
    PiecesHead(y, z);
    PiecesHead(z, "");
  }

  lemma AtLeastThree(a: nat, b: nat, c: nat)
    ensures AtLeast([a, b, c], MIN_RECONCILE_VERSION) <==> a > 0 || b >= 2
  {
    assert [a, b, c][1..] == [b, c] && [b, c][1..] == [c] && [c][1..] == [];
    var min := MIN_RECONCILE_VERSION;
    assert min[1..] == [2, 0] && min[1..][1..] == [0];
    assert AtLeast([b, c], [2, 0]) <==> b > 2 || (b == 2 && AtLeast([c], [0]));
  }

  /**
   A release is judged by its numbers, whatever pre-release or build suffix it carries: it closes things from 0.2.0
   on. A number too large to read counts as 0.
   */
  lemma WrittenVersion(x: string, y: string, z: string, suffix: string)
    requires AllDigits(x) && AllDigits(y) && AllDigits(z)
    requires suffix == [] || suffix[0] in {'-', '+'}
    ensures Supports(Some(x + "." + (y + "." + z) + suffix)) <==> Number(x) > 0 || Number(y) >= 2
  {
    UntilStop(x + "." + (y + "." + z), suffix, {'-', '+'});
    ThreePieces(x, y, z);
    AtLeastThree(Number(x), Number(y), Number(z));
  }

  lemma AppendReads(front: string, d: nat)
    requires AllDigits(front) && d < 10
    ensures AllDigits(front + [Digit(d)]) && Value(front + [Digit(d)]) == 10 * Value(front) + d
  {
    assert (front + [Digit(d)])[..|front|] == front;
  }

  lemma {:induction false} DecimalReads(n: nat)
    ensures AllDigits(Decimal(n)) && Value(Decimal(n)) == n
  {
    if n >= 10 { DecimalReads(n / 10); }
    AppendReads(if n < 10 then "" else Decimal(n / 10), n % 10);
  }

  /** A number too large for 32 bits reads as 0. */
  function Read(n: nat): nat {
    if n < 0x1_0000_0000 then n else 0
  }

  lemma NumberReads(n: nat)
    ensures AllDigits(Decimal(n)) && Number(Decimal(n)) == Read(n)
  {
    DecimalReads(n);
  }

  /** The same without the components that a version may lack, which count as 0. */
  lemma ShortVersion(x: string, y: string, suffix: string)
    requires AllDigits(x) && AllDigits(y) && (suffix == [] || suffix[0] in {'-', '+'})
    ensures Supports(Some(x + "." + y + suffix)) <==> Number(x) > 0 || Number(y) >= 2
    ensures Supports(Some(x + suffix)) <==> Number(x) > 0
  {
    PiecesHead(x, y);
    PiecesHead(y, "");
    UntilStop(x + "." + y, suffix, {'-', '+'});
    UntilStop(x, suffix, {'-', '+'});
    AtLeastThree(Number(x), Number(y), 0);
    AtLeastThree(Number(x), 0, 0);
  }

  /** Releases `a.b.c`, `a.b` and `a`, with a suffix or without. */
  lemma ReleaseExactly(a: nat, b: nat, c: nat, suffix: string)
    requires suffix == [] || suffix[0] in {'-', '+'}
    ensures Supports(Some(Decimal(a) + "." + (Decimal(b) + "." + Decimal(c)) + suffix)) <==> Read(a) > 0 || Read(b) >= 2
    ensures Supports(Some(Decimal(a) + "." + Decimal(b) + suffix)) <==> Read(a) > 0 || Read(b) >= 2
    ensures Supports(Some(Decimal(a) + suffix)) <==> Read(a) > 0
    ensures !Supports(None)
  {
    NumberReads(a);
    NumberReads(b);
    NumberReads(c);
    WrittenVersion(Decimal(a), Decimal(b), Decimal(c), suffix);
    ShortVersion(Decimal(a), Decimal(b), suffix);
  }
}
