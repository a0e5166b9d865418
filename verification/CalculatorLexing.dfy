/** Which texts are numbers to the calculator, how a text splits into tokens, and when it is refused for that. */
module CalculatorLexing {
  import opened Common
  import opened JsText
  import opened Calculator
  import opened CalculatorGrammar
  import opened CalculatorText

  // The codes are those of `.` (46), `E` and `e` (69 and 101), `+` (43) and `-` (45).

  predicate AllDigits(s: JsString) {
    forall i :: 0 <= i < |s| ==> 48 <= s[i] <= 57
  }

  /** Digits, with a point among them, before or behind them, or without one. */
  ghost predicate IsDecimal(s: JsString) {
    || (s != [] && AllDigits(s))
    || exists p :: 0 <= p < |s| && |s| > 1 && s[p] == 46 && AllDigits(s[..p]) && AllDigits(s[p + 1..])
  }

  /** `e` in either case, perhaps a sign, and digits. */
  predicate IsExponent(s: JsString) {
    && s != [] && (s[0] == 101 || s[0] == 69)
    && var digits := if |s| > 1 && (s[1] == 43 || s[1] == 45) then s[2..] else s[1..];
       digits != [] && AllDigits(digits)
  }

  /** A number: a decimal, perhaps with an exponent. */
  ghost predicate IsNumber(s: JsString) {
    exists m :: 0 <= m <= |s| && IsDecimal(s[..m]) && (m == |s| || IsExponent(s[m..]))
  }

  /** The longest number at the start of `s` has `n` characters. */
  ghost predicate LongestNumber(s: JsString, n: nat) {
    n <= |s| && IsNumber(s[..n]) && forall k :: n < k <= |s| ==> !IsNumber(s[..k])
  }

  // ---------------------------------------------------------------- the pattern takes the longest number

  lemma {:induction false} DigitsExactly(s: JsString)
    ensures AllDigits(s[..Digits(s)]) && (Digits(s) < |s| ==> !(48 <= s[Digits(s)] <= 57))
  {
    if s != [] && IsDigit(s[0]) {
      DigitsExactly(s[1..]);
      assert s[Digits(s)..] == s[1..][Digits(s[1..])..];
      if Digits(s) < |s| { assert s[Digits(s)] == s[1..][Digits(s[1..])]; }
    }
  }

  /** As many digits as there are, they are all counted. */
  lemma DigitsCounted(s: JsString, n: nat)
    requires n <= |s| && AllDigits(s[..n])
    ensures n <= Digits(s)
  {
    DigitsExactly(s);
    assert forall i :: 0 <= i < n ==> s[i] == s[..n][i];
  }

  lemma MantissaIsDecimal(s: JsString)
    requires MantissaLength(s) > 0
    ensures IsDecimal(s[..MantissaLength(s)])
    ensures forall i :: 0 <= i < MantissaLength(s) ==> 48 <= s[i] <= 57 || s[i] == 46
  {
    var whole, m := Digits(s), MantissaLength(s);
    DigitsExactly(s);
    if whole < m {
      var rest := s[whole + 1..];
      DigitsExactly(rest);
      assert s[..m][whole + 1..] == rest[..Digits(rest)] && s[..m][..whole] == s[..whole];
      assert s[..m][whole] == 46;
      forall i | whole + 1 <= i < m ensures 48 <= s[i] <= 57 { assert s[i] == rest[..Digits(rest)][i - whole - 1]; }
      forall i | 0 <= i < whole ensures 48 <= s[i] <= 57 { assert s[i] == s[..whole][i]; }
    } else {
      forall i | 0 <= i < m ensures 48 <= s[i] <= 57 { assert s[i] == s[..whole][i]; }
    }
  }

  /** The digits before a point are all there are. */
  lemma DigitsToPoint(s: JsString, p: nat)
    requires p < |s| && s[p] == 46 && AllDigits(s[..p])
    ensures Digits(s) == p
  {
    DigitsCounted(s, p);
    DigitsExactly(s);
    assert forall i :: 0 <= i < Digits(s) ==> s[i] == s[..Digits(s)][i];
  }

  lemma PointIsTaken(s: JsString, p: nat, k: nat)
    requires p < k <= |s| && k > 1 && s[p] == 46 && AllDigits(s[..p]) && AllDigits(s[p + 1..k])
    ensures k <= MantissaLength(s)
  {
    DigitsToPoint(s, p);
    assert s[p + 1..][..k - p - 1] == s[p + 1..k];
    DigitsCounted(s[p + 1..], k - p - 1);
  }

  lemma DecimalIsTaken(s: JsString, k: nat)
    requires k <= |s| && IsDecimal(s[..k])
    ensures k <= MantissaLength(s)
  {
    var d := s[..k];
    if AllDigits(d) {
      DigitsCounted(s, k);
    } else {
      var p :| 0 <= p < |d| && |d| > 1 && d[p] == 46 && AllDigits(d[..p]) && AllDigits(d[p + 1..]);
      assert d[..p] == s[..p] && d[p] == s[p] && d[p + 1..] == s[p + 1..k];
      PointIsTaken(s, p, k);
    }
  }

  lemma ExponentIsOne(s: JsString)
    requires ExponentLength(s) > 0
    ensures IsExponent(s[..ExponentLength(s)])
  {
    var n := ExponentLength(s);
    var start := if |s| > 1 && (s[1] == 43 || s[1] == 45) then 2 else 1;
    DigitsExactly(s[start..]);
    assert s[..n][start..] == s[start..][..Digits(s[start..])];
    assert s[..n][0] == s[0] && s[..n][1] == s[1];
  }

  lemma ExponentIsTaken(s: JsString, k: nat)
    requires k <= |s| && IsExponent(s[..k])
    ensures k <= ExponentLength(s)
  {
    var x := s[..k];
    assert x[0] == s[0] && |x| > 1 && x[1] == s[1];
    var start := if s[1] == 43 || s[1] == 45 then 2 else 1;
    assert s[start..][..k - start] == x[start..];
    DigitsCounted(s[start..], k - start);
  }

  /** The mantissa ends where an exponent begins. */
  lemma MantissaEnds(s: JsString, m: nat)
    requires m < |s| && IsDecimal(s[..m]) && (s[m] == 101 || s[m] == 69)
    ensures MantissaLength(s) == m > 0
  {
    DecimalIsTaken(s, m);
    MantissaIsDecimal(s);
  }

  lemma ExponentFollows(s: JsString, m: nat, k: nat)
    requires m < k <= |s| && IsDecimal(s[..m]) && IsExponent(s[m..k])
    ensures k <= NumberLength(s)
  {
    assert s[m] == s[m..k][0];
    MantissaEnds(s, m);
    assert s[m..][..k - m] == s[m..k];
    ExponentIsTaken(s[m..], k - m);
  }

  lemma NumberIsTaken(s: JsString, k: nat)
    requires k <= |s| && IsNumber(s[..k])
    ensures 0 < k <= NumberLength(s)
  {
    var m :| 0 <= m <= k && IsDecimal(s[..k][..m]) && (m == k || IsExponent(s[..k][m..]));
    assert s[..k][..m] == s[..m] && s[..k][m..] == s[m..k];
    if m < k { ExponentFollows(s, m, k); } else { DecimalIsTaken(s, k); }
  }

  /** The number pattern takes the longest number there is, and nothing if there is none. */
  lemma NumberExactly(s: JsString)
    ensures if NumberLength(s) > 0 then LongestNumber(s, NumberLength(s))
      else forall k :: 0 <= k <= |s| ==> !IsNumber(s[..k])
  {
    var n, m := NumberLength(s), MantissaLength(s);
    if n > 0 {
      MantissaIsDecimal(s);
      assert s[..n][..m] == s[..m];
      if n > m {
        ExponentIsOne(s[m..]);
        assert s[..n][m..] == s[m..][..n - m];
      }
      assert IsNumber(s[..n]);
    }
    forall k | 0 <= k <= |s| && IsNumber(s[..k]) ensures 0 < k <= n { NumberIsTaken(s, k); }
  }

  // ---------------------------------------------------------------- tokens

  /** The first token of `s` takes `n` characters: the longest number there, or else one of `( ) + - * / ^ %`. */
  ghost predicate Takes(s: JsString, t: Token, n: nat) {
    if exists k :: 0 <= k <= |s| && IsNumber(s[..k]) then LongestNumber(s, n) && t == Num(s[..n])
    else n == 1 && s != [] && match t
      case Num(_) => false
      case Open => s[0] == 40
      case Close => s[0] == 41
      case Percent => s[0] == 37
      case Op(Add) => s[0] == 43
      case Op(Sub) => s[0] == 45
      case Op(Mul) => s[0] == 42
      case Op(Div) => s[0] == 47
      case Op(Pow) => s[0] == 94
  }

  /** The text is these tokens, one after the other. */
  ghost predicate Splits(s: JsString, ts: seq<Token>)
    decreases |s|
  {
    if ts == [] then s == []
    else exists n :: 0 < n <= |s| && Takes(s, ts[0], n) && Splits(s[n..], ts[1..])
  }

  lemma LongestOnce(s: JsString, m: nat, n: nat)
    requires LongestNumber(s, n)
    ensures LongestNumber(s, m) <==> m == n
  {
  }

  lemma FirstExactly(s: JsString, t: Token, n: nat)
    requires s != []
    ensures 0 < n <= |s| && Takes(s, t, n) <==> FirstToken(s) == Some(t) && n == FirstLength(s)
  {
    NumberExactly(s);
    if NumberLength(s) > 0 { LongestOnce(s, n, NumberLength(s)); }
  }

  lemma {:induction false} LexExactly(s: JsString, ts: seq<Token>)
    ensures Lex(s) == Some(ts) <==> Splits(s, ts)
    decreases |s|
  {
    if s != [] && ts != [] {
      var n := FirstLength(s);
      forall k ensures 0 < k <= |s| && Takes(s, ts[0], k) <==> FirstToken(s) == Some(ts[0]) && k == n {
        if k >= 0 { FirstExactly(s, ts[0], k); }
      }
      LexExactly(s[n..], ts[1..]);
      assert ts == [ts[0]] + ts[1..];
    }
  }

  // ---------------------------------------------------------------- refusals

  /** What is behind a sum that ends: a number or a parenthesis, where an operator could be. */
  predicate Misplaced(k: seq<Token>) {
    k != [] && (k[0].Num? || k[0].Open? || k[0].Close?)
  }

  /** The tokens begin with a sum that is shallow enough and has a value, and go on with something misplaced. */
  ghost predicate GoesOn<N(!new)>(alg: Algebra<N>, ts: seq<Token>) {
    exists s: SumTree, k ::
      PrintSum(s, k) == ts && Misplaced(k) && SumNesting(s) < 40 && Eval(alg, SumExpr(s)).Ok?
  }

  lemma {:induction false} PercentsEnd<N>(alg: Algebra<N>, v: N, ts: seq<Token>)
    ensures !Starts(Percents(alg, v, ts).rest, Percent)
    decreases |ts|
  {
    if Starts(ts, Percent) { PercentsEnd(alg, alg.hundredth(v), ts[1..]); }
  }

  lemma AtomRest<N>(alg: Algebra<N>, ts: seq<Token>, d: nat)
    requires ParseAtom(alg, ts, d).Got?
    ensures !Starts(ParseAtom(alg, ts, d).rest, Percent)
  {
    if Starts(ts, Open) {
      var r := ParseSum(alg, ts[1..], d + 1);
      PercentsEnd(alg, r.value, r.rest[1..]);
    } else {
      PercentsEnd(alg, alg.number(ts[0].text), ts[1..]);
    }
  }

  lemma {:induction false} PowerRest<N>(alg: Algebra<N>, ts: seq<Token>, d: nat)
    requires ParsePower(alg, ts, d).Got?
    ensures AfterPower(ParsePower(alg, ts, d).rest)
    decreases |ts|, 0
  {
    AtomRest(alg, ts, d);
    var rest := ParseAtom(alg, ts, d).rest;
    if Starts(rest, Op(Pow)) { UnaryRest(alg, rest[1..], d); }
  }

  lemma {:induction false} UnaryRest<N>(alg: Algebra<N>, ts: seq<Token>, d: nat)
    requires ParseUnary(alg, ts, d).Got?
    ensures AfterPower(ParseUnary(alg, ts, d).rest)
    decreases |ts|, 1
  {
    if StartsAdditive(ts) { UnaryRest(alg, ts[1..], d); } else { PowerRest(alg, ts, d); }
  }

  lemma {:induction false} ProductRest<N>(alg: Algebra<N>, v: N, ts: seq<Token>, d: nat)
    requires ProductTail(alg, v, ts, d).Got? && AfterPower(ts)
    ensures AfterProduct(ProductTail(alg, v, ts, d).rest)
    decreases |ts|
  {
    if StartsMultiplicative(ts) {
      var r := ParseUnary(alg, ts[1..], d);
      UnaryRest(alg, ts[1..], d);
      ProductRest(alg, Combine(alg, ts[0].op, v, r.value).value, r.rest, d);
    }
  }

  lemma ProductEnds<N>(alg: Algebra<N>, ts: seq<Token>, d: nat)
    requires ParseProduct(alg, ts, d).Got?
    ensures AfterProduct(ParseProduct(alg, ts, d).rest)
  {
    UnaryRest(alg, ts, d);
    ProductRest(alg, ParseUnary(alg, ts, d).value, ParseUnary(alg, ts, d).rest, d);
  }

  lemma {:induction false} SumRest<N>(alg: Algebra<N>, v: N, ts: seq<Token>, d: nat)
    requires SumTail(alg, v, ts, d).Got? && AfterProduct(ts)
    ensures var rest := SumTail(alg, v, ts, d).rest; rest == [] || Misplaced(rest)
    decreases |ts|
  {
    if StartsAdditive(ts) {
      var r := ParseProduct(alg, ts[1..], d);
      ProductEnds(alg, ts[1..], d);
      SumRest(alg, alg.apply(ts[0].op, v, r.value), r.rest, d);
    }
  }

  /** The parser's own complaints. */
  predicate Complains<N>(p: Parsed<N>) {
    p.Bad? ==> p.error.TooDeep? || p.error.Unclosed? || p.error.MissingNumber? || p.error.DivisionByZero?
  }

  lemma {:induction false} AtomComplains<N>(alg: Algebra<N>, ts: seq<Token>, d: nat)
    ensures Complains(ParseAtom(alg, ts, d))
    decreases |ts|, 0
  {
    if Starts(ts, Open) { SumComplains(alg, ts[1..], d + 1); }
  }

  lemma {:induction false} PowerComplains<N>(alg: Algebra<N>, ts: seq<Token>, d: nat)
    ensures Complains(ParsePower(alg, ts, d))
    decreases |ts|, 1
  {
    AtomComplains(alg, ts, d);
    var r := ParseAtom(alg, ts, d);
    if r.Got? && Starts(r.rest, Op(Pow)) { UnaryComplains(alg, r.rest[1..], d); }
  }

  lemma {:induction false} UnaryComplains<N>(alg: Algebra<N>, ts: seq<Token>, d: nat)
    ensures Complains(ParseUnary(alg, ts, d))
    decreases |ts|, 2
  {
    if StartsAdditive(ts) { UnaryComplains(alg, ts[1..], d); } else { PowerComplains(alg, ts, d); }
  }

  lemma {:induction false} ProductComplains<N>(alg: Algebra<N>, v: N, ts: seq<Token>, d: nat)
    ensures Complains(ProductTail(alg, v, ts, d))
    decreases |ts|, 3
  {
    if StartsMultiplicative(ts) {
      UnaryComplains(alg, ts[1..], d);
      var r := ParseUnary(alg, ts[1..], d);
      if r.Got? && Combine(alg, ts[0].op, v, r.value).Ok? {
        ProductComplains(alg, Combine(alg, ts[0].op, v, r.value).value, r.rest, d);
      }
    }
  }

  lemma {:induction false} FactorsComplain<N>(alg: Algebra<N>, ts: seq<Token>, d: nat)
    ensures Complains(ParseProduct(alg, ts, d))
    decreases |ts|, 4
  {
    UnaryComplains(alg, ts, d);
    var r := ParseUnary(alg, ts, d);
    if r.Got? { ProductComplains(alg, r.value, r.rest, d); }
  }

  lemma {:induction false} TermsComplain<N>(alg: Algebra<N>, v: N, ts: seq<Token>, d: nat)
    ensures Complains(SumTail(alg, v, ts, d))
    decreases |ts|, 5
  {
    if StartsAdditive(ts) {
      FactorsComplain(alg, ts[1..], d);
      var r := ParseProduct(alg, ts[1..], d);
      if r.Got? { TermsComplain(alg, alg.apply(ts[0].op, v, r.value), r.rest, d); }
    }
  }

  lemma {:induction false} SumComplains<N>(alg: Algebra<N>, ts: seq<Token>, d: nat)
    ensures Complains(ParseSum(alg, ts, d))
    decreases |ts|, 6
  {
    FactorsComplain(alg, ts, d);
    var r := ParseProduct(alg, ts, d);
    if r.Got? { TermsComplain(alg, r.value, r.rest, d); }
  }

  /** An operator is missing exactly behind a sum with a value. */
  lemma MissingOperatorExactly<N(!new)>(alg: Algebra<N>, ts: seq<Token>)
    ensures CalculateTokens(alg, ts) == Err(MissingOperator) <==> GoesOn(alg, ts)
  {
    SumComplains(alg, ts, 0);
    if CalculateTokens(alg, ts) == Err(MissingOperator) {
      var s := SumSound(alg, ts, 0);
      var rest := ParseSum(alg, ts, 0).rest;
      ProductEnds(alg, ts, 0);
      SumRest(alg, ParseProduct(alg, ts, 0).value, ParseProduct(alg, ts, 0).rest, 0);
      assert PrintSum(s, rest) == ts && Misplaced(rest);
    }
    if GoesOn(alg, ts) {
      var s: SumTree, k :|
        PrintSum(s, k) == ts && Misplaced(k) && SumNesting(s) < 40 && Eval(alg, SumExpr(s)).Ok?;
      SumComplete(alg, s, k, 0);
    }
  }

  /**
   Why a text is refused before it is parsed: it has more than 500 characters, or is blank or no sequence of numbers and
   the eight signs. And when an operator is missing.
   */
  lemma RefusedExactly<N(!new)>(alg: Algebra<N>, input: JsString)
    ensures CalculateInput(alg, input) == Err(TooLong) <==> |input| > 500
    ensures CalculateInput(alg, input) == Err(BadCharacters) <==>
      |input| <= 500 && (Clean(input) == [] || forall ts :: !Splits(Clean(input), ts))
    ensures CalculateInput(alg, input) == Err(MissingOperator) <==>
      |input| <= 500 && Clean(input) != [] && exists ts :: Splits(Clean(input), ts) && GoesOn(alg, ts)
  {
    var raw := Clean(input);
    forall ts ensures Lex(raw) == Some(ts) <==> Splits(raw, ts) { LexExactly(raw, ts); }
    if Lex(raw).Some? {
      assert Splits(raw, Lex(raw).value);
      SumComplains(alg, Lex(raw).value, 0);
      MissingOperatorExactly(alg, Lex(raw).value);
    }
  }
}
