/** Small datatypes shared by every module of the model. */
module Common {
  datatype Option<+T> = None | Some(value: T)

  /** The source's thrown errors and `Result` returns. */
  datatype Result<+T, +E> = Ok(value: T) | Err(error: E)

  function Min(a: int, b: int): int {
    if a < b then a else b
  }

  lemma Associate<T>(a: seq<T>, b: seq<T>, c: seq<T>)
    ensures a + (b + c) == a + b + c
  {
  }
}

/** Numbers written out in decimal. */
module Decimals {
  function Digit(n: nat): char
    requires n < 10
  {
    '0' + n as char
  }

  function Decimal(n: nat): (s: string)
    ensures s != ""
  {
    (if n < 10 then "" else Decimal(n / 10)) + [Digit(n % 10)]
  }

  lemma {:induction false} DecimalInjective(a: nat, b: nat)
    requires Decimal(a) == Decimal(b)
    ensures a == b
  {
    var s, t := Decimal(a), Decimal(b);
    assert s[|s| - 1] == Digit(a % 10) && t[|t| - 1] == Digit(b % 10);
    assert s[..|s| - 1] == t[..|t| - 1];
    assert a < 10 || s[..|s| - 1] == Decimal(a / 10);
    assert b < 10 || t[..|t| - 1] == Decimal(b / 10);
    if a >= 10 && b >= 10 { DecimalInjective(a / 10, b / 10); }
  }
}

/** ASCII case folding. */
module Ascii {
  function LowerChar(c: char): char {
    if 'A' <= c <= 'Z' then c - 'A' + 'a' else c
  }

  function Lower(s: string): (r: string)
    ensures |r| == |s| && forall i :: 0 <= i < |s| ==> r[i] == LowerChar(s[i])
  {
    if s == "" then "" else [LowerChar(s[0])] + Lower(s[1..])
  }

  /** The same character, or the two cases of one of the letters from A to Z, by their codes. */
  predicate SameLetter(c: char, d: char) {
    || c == d
    || (65 <= c as int <= 90 && d as int == c as int + 32)
    || (65 <= d as int <= 90 && c as int == d as int + 32)
  }

  /** Texts that differ only in the case of such letters. */
  predicate SameLetters(s: string, t: string) {
    |s| == |t| && forall i :: 0 <= i < |s| ==> SameLetter(s[i], t[i])
  }

  lemma FoldExactly(c: char, d: char)
    ensures LowerChar(c) == LowerChar(d) <==> SameLetter(c, d)
  {
  }

  /** Folding makes equal exactly what differs in the case of letters. */
  lemma FoldsExactly(s: string, t: string)
    ensures Lower(s) == Lower(t) <==> SameLetters(s, t)
  {
    if |s| == |t| {
      forall i | 0 <= i < |s| ensures Lower(s)[i] == Lower(t)[i] <==> SameLetter(s[i], t[i]) {
        FoldExactly(s[i], t[i]);
      }
    }
  }
}

/** JavaScript strings: sequences of UTF-16 code units, lone surrogates included. */
module JsText {
  newtype Utf16 = u: int | 0 <= u < 0x1_0000

  type JsString = seq<Utf16>

  const TEXT_LIMIT := 200_000

  /** What the regular-expression class `\s` matches. */
  predicate IsSpace(c: Utf16) {
    || 9 <= c <= 13 || c == 32 || c == 0xA0 || c == 0x1680 || 0x2000 <= c <= 0x200A
    || c == 0x2028 || c == 0x2029 || c == 0x202F || c == 0x205F || c == 0x3000 || c == 0xFEFF
  }

  predicate IsDigit(c: Utf16) {
    48 <= c <= 57
  }
}
