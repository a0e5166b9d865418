/**
 The HTML cases of `encodeText`: five characters are encoded, and named or numeric entities are decoded.

 A decoder that meets an entity takes it whole and goes on behind it, so what it decoded is not looked at again.
 */
module Html {
  import opened Common
  import opened JsText

  const AMP: Utf16 := 38
  const LT: Utf16 := 60
  const GT: Utf16 := 62
  const QUOT: Utf16 := 34
  const APOS: Utf16 := 39
  const HASH: Utf16 := 35
  const SEMICOLON: Utf16 := 59
  const LOWER_X: Utf16 := 120

  function EncodeChar(c: Utf16): JsString {
    if c == AMP then [AMP, 97, 109, 112, SEMICOLON]
    else if c == LT then [AMP, 108, 116, SEMICOLON]
    else if c == GT then [AMP, 103, 116, SEMICOLON]
    else if c == QUOT then [AMP, 113, 117, 111, 116, SEMICOLON]
    else if c == APOS then [AMP, HASH, 51, 57, SEMICOLON]
    else [c]
  }

  function Encode(s: JsString): JsString {
    if s == [] then [] else EncodeChar(s[0]) + Encode(s[1..])
  }

  // ---------------------------------------------------------------- decoding

  function Lower(c: Utf16): Utf16 {
    if 65 <= c <= 90 then c + 32 else c
  }

  /** Whether `s` starts with the word, in either case. */
  predicate Starts(s: JsString, word: JsString) {
    |word| <= |s| && forall i :: 0 <= i < |word| ==> Lower(s[i]) == word[i]
  }

  /** What an entity stands for, and how much text after its `&` it takes. */
  datatype Entity = Entity(text: JsString, length: nat)

  function Named(s: JsString): Option<Entity> {
    if Starts(s, [97, 109, 112, SEMICOLON]) then Some(Entity([AMP], 4))
    else if Starts(s, [108, 116, SEMICOLON]) then Some(Entity([LT], 3))
    else if Starts(s, [103, 116, SEMICOLON]) then Some(Entity([GT], 3))
    else if Starts(s, [113, 117, 111, 116, SEMICOLON]) then Some(Entity([QUOT], 5))
    else if Starts(s, [97, 112, 111, 115, SEMICOLON]) then Some(Entity([APOS], 5))
    else None
  }

  predicate IsDigitOf(c: Utf16, base: nat) {
    48 <= c <= 57 || (base == 16 && 97 <= Lower(c) <= 102)
  }

  function DigitValue(c: Utf16): int {
    if c <= 57 then c as int - 48 else Lower(c) as int - 87
  }

  /** How many digits `s` starts with. */
  function Run(s: JsString, base: nat): (n: nat)
    ensures n <= |s|
  {
    if s != [] && IsDigitOf(s[0], base) then 1 + Run(s[1..], base) else 0
  }

  function Value(digits: JsString, base: nat): int
    decreases |digits|
  {
    if digits == [] then 0
    else base * Value(digits[..|digits| - 1], base) + DigitValue(digits[|digits| - 1])
  }

  /** Unicode scalar values other than zero. */
  predicate IsScalar(n: int) {
    0 < n <= 0x10ffff && !(0xd800 <= n <= 0xdfff)
  }

  /** `String.fromCodePoint`: a code point above U+FFFF becomes a surrogate pair. */
  function FromCodePoint(n: int): (s: JsString)
    requires 0 <= n <= 0x10ffff
  {
    if n < 0x1_0000 then [n as Utf16]
    else [(0xd800 + (n - 0x1_0000) / 0x400) as Utf16, (0xdc00 + (n - 0x1_0000) % 0x400) as Utf16]
  }

  /** What the digits stand for, or the entity's own text if that is no character. */
  function Spelled(digits: JsString, base: nat, entity: JsString): JsString {
    var n := Value(digits, base);
    if IsScalar(n) then FromCodePoint(n) else [AMP] + entity
  }

  /** Digits and a semicolon behind `skip` characters of an entity; an invalid one stays as it is. */
  function Numeric(s: JsString, skip: nat, base: nat): (e: Option<Entity>)
    requires skip <= |s|
    ensures e.Some? ==> skip < e.value.length <= |s|
  {
    var n := Run(s[skip..], base);
    if n == 0 || skip + n >= |s| || s[skip + n] != SEMICOLON then None
    else
      Some(Entity(Spelled(s[skip..skip + n], base, s[..skip + n + 1]), skip + n + 1))
  }

  /** The entity behind an `&`, if the text after it is one. */
  function EntityAt(s: JsString): (e: Option<Entity>)
    ensures e.Some? ==> e.value.length <= |s|
  {
    if s == [] || s[0] != HASH then Named(s)
    else if |s| > 1 && Lower(s[1]) == LOWER_X then Numeric(s, 2, 16)
    else Numeric(s, 1, 10)
  }

  function Decode(s: JsString): JsString
    decreases |s|
  {
    if s == [] then []
    else if s[0] != AMP then [s[0]] + Decode(s[1..])
    else match EntityAt(s[1..])
      case None => [AMP] + Decode(s[1..])
      case Some(e) => e.text + Decode(s[1 + e.length..])
  }

  // ---------------------------------------------------------------- numerals

  function DigitChar(d: nat): Utf16
    requires d < 16
  {
    (if d < 10 then 48 + d else 87 + d) as Utf16
  }

  /** `n` written out, without leading zeros. */
  function Numeral(n: nat, base: nat): (s: JsString)
    requires 2 <= base <= 16
    ensures s != []
  {
    (if n < base then [] else Numeral(n / base, base)) + [DigitChar(n % base)]
  }

  lemma {:induction false} NumeralDigits(n: nat, base: nat)
    requires base == 10 || base == 16
    ensures forall c :: c in Numeral(n, base) ==> IsDigitOf(c, base)
  {
    if n >= base { NumeralDigits(n / base, base); }
  }

  lemma {:induction false} NumeralValue(n: nat, base: nat)
    requires base == 10 || base == 16
    ensures Value(Numeral(n, base), base) == n
  {
    var s := Numeral(n, base);
    if n < base {
    } else {
      NumeralValue(n / base, base);
      assert s[..|s| - 1] == Numeral(n / base, base);
    }
  }

  lemma {:induction false} RunEnds(digits: JsString, base: nat, k: JsString)
    requires forall c :: c in digits ==> IsDigitOf(c, base)
    ensures Run(digits + [SEMICOLON] + k, base) == |digits|
  {
    var s := digits + [SEMICOLON] + k;
    if digits == [] {
      assert s[0] == SEMICOLON;
    } else {
      assert s[1..] == digits[1..] + [SEMICOLON] + k;
      RunEnds(digits[1..], base, k);
    }
  }

  lemma Slices(a: JsString, b: JsString, c: JsString, k: JsString)
    ensures (a + b + c + k)[|a|..] == b + c + k && (a + b + c + k)[|a|..|a| + |b|] == b
    ensures (a + b + c + k)[..|a| + |b| + |c|] == a + b + c && (a + b + c + k)[|a| + |b| + |c|..] == k
  {
  }

  lemma NumericGiven(s: JsString, skip: nat, base: nat, digits: JsString, text: JsString)
    requires skip + |digits| < |s| && Run(s[skip..], base) == |digits| > 0 && s[skip + |digits|] == SEMICOLON
    requires s[skip..skip + |digits|] == digits && s[..skip + |digits| + 1] == text
    ensures Numeric(s, skip, base) == Some(Entity(Spelled(digits, base, text), skip + |digits| + 1))
  {
  }

  lemma NumericRun(prefix: JsString, digits: JsString, base: nat, k: JsString)
    requires digits != [] && forall c :: c in digits ==> IsDigitOf(c, base)
    ensures Numeric(prefix + digits + [SEMICOLON] + k, |prefix|, base) == Some(Meaning(prefix, digits, base))
  {
    var s := prefix + digits + [SEMICOLON] + k;
    RunEnds(digits, base, k);
    Slices(prefix, digits, [SEMICOLON], k);
    assert s[|prefix| + |digits|] == SEMICOLON;
    NumericGiven(s, |prefix|, base, digits, prefix + digits + [SEMICOLON]);
  }

  /** The entity that `prefix` and some digits spell. */
  function Meaning(prefix: JsString, digits: JsString, base: nat): Entity {
    Entity(Spelled(digits, base, prefix + digits + [SEMICOLON]), |prefix| + |digits| + 1)
  }

  lemma NumericNumeral(prefix: JsString, n: nat, base: nat, k: JsString)
    requires base == 10 || base == 16
    ensures Numeric(prefix + Numeral(n, base) + [SEMICOLON] + k, |prefix|, base) ==
      Some(Meaning(prefix, Numeral(n, base), base))
    ensures Value(Numeral(n, base), base) == n
  {
    NumeralDigits(n, base);
    NumeralValue(n, base);
    NumericRun(prefix, Numeral(n, base), base, k);
  }

  lemma DecodeEntity(body: JsString, text: JsString, k: JsString)
    requires EntityAt(body + k) == Some(Entity(text, |body|))
    ensures Decode([AMP] + body + k) == text + Decode(k)
  {
    var s := [AMP] + body + k;
    assert s[1..] == body + k && s[1 + |body|..] == k;
  }

  // Numeric entities are spelled with the codes of `#` (35), `x` (120) and `;` (59), behind that of `&` (38).

  function Decimal(n: nat): JsString {
    [35] + Numeral(n, 10) + [59]
  }

  function Hexadecimal(n: nat): JsString {
    [35, 120] + Numeral(n, 16) + [59]
  }

  lemma FirstDigit(n: nat)
    ensures 48 <= Numeral(n, 10)[0] <= 57
  {
    NumeralDigits(n, 10);
    assert Numeral(n, 10)[0] in Numeral(n, 10);
  }

  lemma DecimalAt(n: nat, k: JsString)
    ensures EntityAt(Decimal(n) + k) == Some(Meaning([HASH], Numeral(n, 10), 10))
  {
    FirstDigit(n);
    DecimalForm(Numeral(n, 10), k);
    NumericNumeral([HASH], n, 10, k);
  }

  lemma DecimalForm(digits: JsString, k: JsString)
    requires digits != [] && 48 <= digits[0] <= 57
    ensures EntityAt([HASH] + digits + [SEMICOLON] + k) == Numeric([HASH] + digits + [SEMICOLON] + k, 1, 10)
  {
    assert ([HASH] + digits + [SEMICOLON] + k)[1] == digits[0];
  }

  lemma HexadecimalAt(n: nat, k: JsString)
    ensures EntityAt(Hexadecimal(n) + k) == Some(Meaning([HASH, LOWER_X], Numeral(n, 16), 16))
  {
    var s := Hexadecimal(n) + k;
    assert s[1] == LOWER_X;
    NumericNumeral([HASH, LOWER_X], n, 16, k);
  }

  /** A decimal entity of a scalar value is decoded, and of any other number stays as it is; */
  lemma DecimalEntity(n: nat, k: JsString)
    ensures Decode([38] + Decimal(n) + k) == (if IsScalar(n) then FromCodePoint(n) else [38] + Decimal(n)) + Decode(k)
  {
    DecimalAt(n, k);
    NumeralValue(n, 10);
    DecodeEntity(Decimal(n), Spelled(Numeral(n, 10), 10, Decimal(n)), k);
  }

  /** and a hexadecimal one likewise. */
  lemma HexEntity(n: nat, k: JsString)
    ensures Decode([38] + Hexadecimal(n) + k) ==
      (if IsScalar(n) then FromCodePoint(n) else [38] + Hexadecimal(n)) + Decode(k)
  {
    HexadecimalAt(n, k);
    NumeralValue(n, 16);
    DecodeEntity(Hexadecimal(n), Spelled(Numeral(n, 16), 16, Hexadecimal(n)), k);
  }

  // ---------------------------------------------------------------- the round trip

  lemma NamedChar(c: Utf16, k: JsString)
    requires c in {AMP, LT, GT, QUOT}
    ensures EntityAt(EncodeChar(c)[1..] + k) == Some(Entity([c], |EncodeChar(c)[1..]|))
  {
    var e := EncodeChar(c)[1..];
    assert (e + k)[0] == e[0] && (e + k)[1] == e[1];
  }

  lemma Thirtynine()
    ensures Decimal(39) == [HASH, 51, 57, SEMICOLON]
  {
    assert Numeral(3, 10) == [51];
    assert Numeral(39, 10) == Numeral(3, 10) + [57];
  }

  lemma DecodeChar(c: Utf16, k: JsString)
    ensures Decode(EncodeChar(c) + k) == [c] + Decode(k)
  {
    if c in {AMP, LT, GT, QUOT} {
      NamedChar(c, k);
      DecodeEntity(EncodeChar(c)[1..], [c], k);
      assert EncodeChar(c) == [AMP] + EncodeChar(c)[1..];
    } else if c == APOS {
      Thirtynine();
      DecimalEntity(39, k);
      assert EncodeChar(c) == [AMP] + Decimal(39);
    } else {
      assert ([c] + k)[1..] == k;
    }
  }

  /** Decoding undoes encoding, for every text. */
  lemma {:induction false} RoundTrip(s: JsString)
    ensures Decode(Encode(s)) == s
  {
    if s != [] {
      DecodeChar(s[0], Encode(s[1..]));
      RoundTrip(s[1..]);
    }
  }

  /** Every `&` starts an entity. */
  ghost predicate Entities(s: JsString) {
    forall i :: 0 <= i < |s| && s[i] == 38 ==> EntityAt(s[i + 1..]).Some?
  }

  lemma EntitiesMore(e: JsString, k: JsString)
    requires e != [] && (forall i :: 0 < i < |e| ==> e[i] != AMP) && Entities(k)
      && (e[0] == AMP ==> EntityAt((e + k)[1..]).Some?)
    ensures Entities(e + k)
  {
    forall i | 0 <= i < |e + k| && (e + k)[i] == AMP ensures EntityAt((e + k)[i + 1..]).Some? {
      if i >= |e| {
        assert (e + k)[i + 1..] == k[i - |e| + 1..];
      }
    }
  }

  lemma EntityBehind(c: Utf16, k: JsString)
    requires c in {AMP, LT, GT, QUOT, APOS}
    ensures EntityAt((EncodeChar(c) + k)[1..]).Some?
  {
    assert (EncodeChar(c) + k)[1..] == EncodeChar(c)[1..] + k;
    if c == APOS {
      Thirtynine();
      DecimalAt(39, k);
    } else {
      NamedChar(c, k);
    }
  }

  lemma CharIsInert(c: Utf16)
    ensures LT !in EncodeChar(c) && GT !in EncodeChar(c) && QUOT !in EncodeChar(c) && APOS !in EncodeChar(c)
    ensures (forall i :: 0 < i < |EncodeChar(c)| ==> EncodeChar(c)[i] != AMP)
      && (EncodeChar(c)[0] == AMP ==> c in {AMP, LT, GT, QUOT, APOS})
  {
  }

  /** Encoded text cannot open a tag or end an attribute (`<`, `>` and both quotes), and `&` in it starts an entity. */
  lemma {:induction false} EncodedIsInert(s: JsString)
    ensures 60 !in Encode(s) && 62 !in Encode(s) && 34 !in Encode(s) && 39 !in Encode(s)
    ensures Entities(Encode(s))
  {
    if s != [] {
      var c, k := s[0], Encode(s[1..]);
      EncodedIsInert(s[1..]);
      CharIsInert(c);
      if c in {AMP, LT, GT, QUOT, APOS} { EntityBehind(c, k); }
      EntitiesMore(EncodeChar(c), k);
    }
  }

  /** Decoding never makes a text longer. */
  lemma {:induction false} DecodeShrinks(s: JsString)
    ensures |Decode(s)| <= |s|
    decreases |s|
  {
    if s != [] {
      if s[0] == AMP && EntityAt(s[1..]).Some? {
        DecodeShrinks(s[1 + EntityAt(s[1..]).value.length..]);
      } else {
        DecodeShrinks(s[1..]);
      }
    }
  }
}
