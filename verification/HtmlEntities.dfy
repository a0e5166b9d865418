/** Every entity the decoder knows, however it is spelled, and what it stands for. */
module HtmlEntities {
  import opened Common
  import opened JsText
  import opened Html

  // The codes are those of `&` (38), `#` (35), `x` (120), `X` (88) and `;` (59).

  /** The value of a digit, the letters from A to F in either case being digits of hexadecimal numbers. */
  function DigitOf(c: Utf16, base: nat): Option<nat> {
    if 48 <= c <= 57 then Some(c as nat - 48)
    else if base == 16 && 65 <= c <= 70 then Some(c as nat - 55)
    else if base == 16 && 97 <= c <= 102 then Some(c as nat - 87)
    else None
  }

  /** The number that digits write. */
  function Amount(digits: JsString, base: nat): Option<nat>
    decreases |digits|
  {
    if digits == [] then Some(0)
    else
      var front, last := Amount(digits[..|digits| - 1], base), DigitOf(digits[|digits| - 1], base);
      if front.Some? && last.Some? then Some(base * front.value + last.value) else None
  }

  /** The text is the one character with this code, as UTF-16 has it: a unit, or two surrogates. */
  predicate IsCharacter(text: JsString, n: nat) {
    || (|text| == 1 && text[0] as nat == n)
    || (|text| == 2 && 0xd800 <= text[0] <= 0xdbff && 0xdc00 <= text[1] <= 0xdfff
        && n == 0x1_0000 + 0x400 * (text[0] as nat - 0xd800) + (text[1] as nat - 0xdc00))
  }

  /** A code that is a character's: neither zero nor a surrogate's, and no more than U+10FFFF. */
  predicate HasCharacter(n: nat) {
    1 <= n < 0xd800 || 0xe000 <= n < 0x11_0000
  }

  lemma DigitExactly(c: Utf16, base: nat)
    requires base == 10 || base == 16
    ensures DigitOf(c, base).Some? <==> IsDigitOf(c, base)
    ensures DigitOf(c, base).Some? ==> DigitOf(c, base).value == DigitValue(c)
  {
  }

  lemma {:induction false} AmountExactly(digits: JsString, base: nat)
    requires base == 10 || base == 16
    ensures Amount(digits, base).Some? <==> forall c :: c in digits ==> IsDigitOf(c, base)
    ensures Amount(digits, base).Some? ==> Amount(digits, base).value == Value(digits, base)
    decreases |digits|
  {
    if digits != [] {
      var front, last := digits[..|digits| - 1], digits[|digits| - 1];
      assert digits == front + [last];
      AmountExactly(front, base);
      DigitExactly(last, base);
    }
  }

  lemma CharacterExactly(n: nat)
    ensures IsScalar(n) <==> HasCharacter(n)
    ensures IsScalar(n) ==> IsCharacter(FromCodePoint(n), n)
  {
  }

  /** `#`, or `#x` in either case. */
  predicate Begins(prefix: JsString, base: nat) {
    || (base == 10 && prefix == [35])
    || (base == 16 && (prefix == [35, 120] || prefix == [35, 88]))
  }

  lemma EntityRead(prefix: JsString, base: nat, digits: JsString, k: JsString)
    requires Begins(prefix, base) && digits != [] && Amount(digits, base).Some?
    ensures EntityAt(prefix + digits + [SEMICOLON] + k) == Some(Meaning(prefix, digits, base))
  {
    var s := prefix + digits + [SEMICOLON] + k;
    AmountExactly(digits, base);
    NumericRun(prefix, digits, base, k);
    assert s[0] == 35;
    if base == 16 {
      assert s[1] == prefix[1];
    } else {
      assert s[1] == digits[0];
      assert digits[0] in digits;
    }
  }

  /** A numeric entity is the character with its number, if there is one; otherwise it stays as it is. */
  lemma NumericEntity(prefix: JsString, base: nat, digits: JsString, n: nat, k: JsString) returns (text: JsString)
    requires Begins(prefix, base) && digits != [] && Amount(digits, base) == Some(n)
    ensures var entity := prefix + digits + [59];
      && Decode([38] + entity + k) == text + Decode(k)
      && if HasCharacter(n) then IsCharacter(text, n) else text == [38] + entity
  {
    text := Spelled(digits, base, prefix + digits + [59]);
    EntityRead(prefix, base, digits, k);
    DecodeEntity(prefix + digits + [59], text, k);
    AmountExactly(digits, base);
    CharacterExactly(n);
  }

  /** The same letters, the one or the other case of each. */
  predicate SameName(s: JsString, name: JsString) {
    |s| == |name| && forall i :: 0 <= i < |s| ==> s[i] == name[i] || s[i] as int == name[i] as int - 32
  }

  /** The five names and their characters: amp, lt, gt, quot and apos. */
  function NamedCharacter(i: nat): (JsString, Utf16)
    requires i < 5
  {
    if i == 0 then ([97, 109, 112], 38)
    else if i == 1 then ([108, 116], 60)
    else if i == 2 then ([103, 116], 62)
    else if i == 3 then ([113, 117, 111, 116], 34)
    else ([97, 112, 111, 115], 39)
  }

  lemma NameStarts(s: JsString, name: JsString, k: JsString)
    requires SameName(s, name) && forall i :: 0 <= i < |name| ==> 97 <= name[i] <= 122
    ensures Starts(s + [SEMICOLON] + k, name + [SEMICOLON])
  {
    var all, word := s + [SEMICOLON] + k, name + [SEMICOLON];
    forall i | 0 <= i < |word| ensures Lower(all[i]) == word[i] {
      if i < |s| { assert all[i] == s[i] && word[i] == name[i]; }
    }
  }

  /** Another name does not start there: some character of the two differs. */
  lemma OtherName(s: JsString, name: JsString, other: JsString, k: JsString, i: nat)
    requires SameName(s, name) && (forall j :: 0 <= j < |name| ==> 97 <= name[j] <= 122)
    requires i < |name| && i < |other| && name[i] != other[i]
    ensures !Starts(s + [SEMICOLON] + k, other)
  {
    assert (s + [SEMICOLON] + k)[i] == s[i] && Lower(s[i]) == name[i];
  }

  lemma NameRead(i: nat, s: JsString, k: JsString)
    requires i < 5 && SameName(s, NamedCharacter(i).0)
    ensures EntityAt(s + [SEMICOLON] + k) == Some(Entity([NamedCharacter(i).1], |s| + 1))
  {
    var name := NamedCharacter(i).0;
    NameStarts(s, name, k);
    assert (s + [SEMICOLON] + k)[0] == s[0];
    if i == 1 {
      OtherName(s, name, [97, 109, 112, SEMICOLON], k, 0);
    } else if i == 2 {
      OtherName(s, name, [97, 109, 112, SEMICOLON], k, 0);
      OtherName(s, name, [108, 116, SEMICOLON], k, 0);
    } else if i == 3 {
      OtherName(s, name, [97, 109, 112, SEMICOLON], k, 0);
      OtherName(s, name, [108, 116, SEMICOLON], k, 0);
      OtherName(s, name, [103, 116, SEMICOLON], k, 0);
    } else if i == 4 {
      OtherName(s, name, [97, 109, 112, SEMICOLON], k, 1);
      OtherName(s, name, [108, 116, SEMICOLON], k, 0);
      OtherName(s, name, [103, 116, SEMICOLON], k, 0);
      OtherName(s, name, [113, 117, 111, 116, SEMICOLON], k, 0);
    }
  }

  /** A named entity is its character, whatever the case of its name. */
  lemma NamedEntity(i: nat, s: JsString, k: JsString)
    requires i < 5 && SameName(s, NamedCharacter(i).0)
    ensures Decode([38] + s + [59] + k) == [NamedCharacter(i).1] + Decode(k)
  {
    NameRead(i, s, k);
    assert s + [59] + k == (s + [59]) + k;
    DecodeEntity(s + [59], [NamedCharacter(i).1], k);
    assert [38] + (s + [59]) + k == [38] + s + [59] + k;
  }

  // ---------------------------------------------------------------- nothing else is an entity

  ghost predicate IsName(e: JsString) {
    exists i: nat :: i < 5 && e != [] && e[|e| - 1] == 59 && SameName(e[..|e| - 1], NamedCharacter(i).0)
  }

  ghost predicate IsNumber(e: JsString) {
    exists prefix, base, digits ::
      Begins(prefix, base) && digits != [] && Amount(digits, base).Some? && e == prefix + digits + [59]
  }

  lemma StartsWithName(s: JsString, i: nat)
    requires i < 5 && Starts(s, NamedCharacter(i).0 + [SEMICOLON])
    ensures IsName(s[..|NamedCharacter(i).0| + 1])
  {
    var name := NamedCharacter(i).0;
    var e, word := s[..|name| + 1], name + [SEMICOLON];
    assert Lower(s[|name|]) == word[|name|] == 59;
    forall j | 0 <= j < |name| ensures e[..|name|][j] == name[j] || e[..|name|][j] as int == name[j] as int - 32 {
      assert Lower(s[j]) == word[j] == name[j];
    }
    assert e[..|e| - 1] == e[..|name|];
  }

  lemma {:induction false} RunIsDigits(s: JsString, base: nat)
    ensures forall c :: c in s[..Run(s, base)] ==> IsDigitOf(c, base)
  {
    if s != [] && IsDigitOf(s[0], base) {
      RunIsDigits(s[1..], base);
      var n := Run(s[1..], base);
      assert s[..n + 1] == [s[0]] + s[1..][..n];
    }
  }

  lemma NumericIsNumber(s: JsString, prefix: JsString, base: nat)
    requires Begins(prefix, base) && prefix <= s && Numeric(s, |prefix|, base).Some?
    ensures IsNumber(s[..Numeric(s, |prefix|, base).value.length])
  {
    var n := Run(s[|prefix|..], base);
    var digits := s[|prefix|..|prefix| + n];
    RunIsDigits(s[|prefix|..], base);
    assert s[|prefix|..][..n] == digits;
    AmountExactly(digits, base);
    assert s[..|prefix| + n + 1] == prefix + digits + [59];
  }

  /** What the decoder takes for an entity is one of the five names, or a number behind `#` or `#x`, and a semicolon. */
  lemma NothingElse(s: JsString)
    requires EntityAt(s).Some?
    ensures var e := s[..EntityAt(s).value.length]; IsName(e) || IsNumber(e)
  {
    if s[0] != HASH {
      assert NamedCharacter(0).0 + [SEMICOLON] == [97, 109, 112, SEMICOLON];
      assert NamedCharacter(1).0 + [SEMICOLON] == [108, 116, SEMICOLON];
      assert NamedCharacter(2).0 + [SEMICOLON] == [103, 116, SEMICOLON];
      assert NamedCharacter(3).0 + [SEMICOLON] == [113, 117, 111, 116, SEMICOLON];
      assert NamedCharacter(4).0 + [SEMICOLON] == [97, 112, 111, 115, SEMICOLON];
      var i: nat :| i < 5 && Starts(s, NamedCharacter(i).0 + [SEMICOLON])
        && EntityAt(s).value.length == |NamedCharacter(i).0| + 1;
      StartsWithName(s, i);
    } else if |s| > 1 && Lower(s[1]) == LOWER_X {
      NumericIsNumber(s, [35, s[1]], 16);
    } else {
      NumericIsNumber(s, [35], 10);
    }
  }

  /** An entity is written at the front of the text. */
  ghost predicate HasEntity(s: JsString) {
    exists n :: 0 <= n <= |s| && (IsName(s[..n]) || IsNumber(s[..n]))
  }

  /** Everything else stays as it is: each other character, and an `&` with no entity behind it. */
  lemma OtherTextStays(c: Utf16, k: JsString)
    requires c != 38 || !HasEntity(k)
    ensures Decode([c] + k) == [c] + Decode(k) && Decode([]) == []
  {
    assert ([c] + k)[1..] == k;
    if c == 38 && EntityAt(k).Some? { NothingElse(k); }
  }
}
