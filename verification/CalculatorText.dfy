/**
 From characters to tokens: the calculator's regular expression and the texts it splits.

 The expression takes the longest number, or one character; a text is refused if it holds a character that
 belongs to neither.
 */
module CalculatorText {
  import opened Common
  import opened JsText
  import opened Calculator
  import opened CalculatorGrammar

  /** The decimal digits at the start of `s`. */
  function Digits(s: JsString): (n: nat)
    ensures n <= |s|
    ensures forall k :: 0 <= k < n ==> IsDigit(s[k])
  {
    if s != [] && IsDigit(s[0]) then 1 + Digits(s[1..]) else 0
  }

  /** The length of `\d+(?:\.\d*)?|\.\d+` at the start of `s`, 0 when it does not match. */
  function MantissaLength(s: JsString): (n: nat)
    ensures n <= |s|
  {
    var whole := Digits(s);
    if whole > 0 then
      if whole < |s| && s[whole] == 46 then whole + 1 + Digits(s[whole + 1..]) else whole
    else if s != [] && s[0] == 46 && Digits(s[1..]) > 0 then 1 + Digits(s[1..])
    else 0
  }

  /** The length of `(?:e[+-]?\d+)?` at the start of `s`. */
  function ExponentLength(s: JsString): (n: nat)
    ensures n <= |s|
  {
    if s == [] || (s[0] != 101 && s[0] != 69) then 0
    else
      var start := if |s| > 1 && (s[1] == 43 || s[1] == 45) then 2 else 1;
      var digits := Digits(s[start..]);
      if digits == 0 then 0 else start + digits
  }

  /** The number token at the start of `s`, 0 when there is none. */
  function NumberLength(s: JsString): (n: nat)
    ensures n <= |s|
  {
    var m := MantissaLength(s);
    if m == 0 then 0 else m + ExponentLength(s[m..])
  }

  /** A text the number pattern matches from end to end. */
  predicate IsNumeral(s: JsString) {
    s != [] && NumberLength(s) == |s|
  }

  /** The one-character tokens `( ) + - * / ^ %`. */
  function Symbol(c: Utf16): Option<Token> {
    if c == 40 then Some(Open)
    else if c == 41 then Some(Close)
    else if c == 43 then Some(Op(Add))
    else if c == 45 then Some(Op(Sub))
    else if c == 42 then Some(Op(Mul))
    else if c == 47 then Some(Op(Div))
    else if c == 94 then Some(Op(Pow))
    else if c == 37 then Some(Percent)
    else None
  }

  function TokenText(t: Token): JsString {
    match t
    case Num(text) => text
    case Open => [40]
    case Close => [41]
    case Percent => [37]
    case Op(op) =>
      match op case Add => [43] case Sub => [45] case Mul => [42] case Div => [47] case Pow => [94]
  }

  /** `tokens.join("")`. */
  function Join(ts: seq<Token>): JsString {
    if ts == [] then [] else TokenText(ts[0]) + Join(ts[1..])
  }

  /** How many characters the first match takes: the longest number, otherwise one character. */
  function FirstLength(s: JsString): (n: nat)
    requires s != []
    ensures 1 <= n <= |s|
  {
    var n := NumberLength(s);
    if n > 0 then n else 1
  }

  function FirstToken(s: JsString): Option<Token>
    requires s != []
  {
    var n := NumberLength(s);
    if n > 0 then Some(Num(s[..n])) else Symbol(s[0])
  }

  /**
   All matches of the token pattern, or `None` when a character belongs to no match: then the
   joined tokens are shorter than the text, which is what the source tests.
   */
  function Lex(s: JsString): Option<seq<Token>>
    decreases |s|
  {
    if s == [] then Some([])
    else if FirstToken(s).None? then None
    else match Lex(s[FirstLength(s)..])
      case None => None
      case Some(ts) => Some([FirstToken(s).value] + ts)
  }

  /** Spaces dropped, the typographic multiplication and division signs replaced. */
  function Clean(s: JsString): JsString {
    if s == [] then []
    else if IsSpace(s[0]) then Clean(s[1..])
    else [if s[0] == 0xD7 then 42 else if s[0] == 0xF7 then 47 else s[0]] + Clean(s[1..])
  }

  /** The outcome of `calculate` on the text the user typed. */
  function CalculateInput<N>(alg: Algebra<N>, input: JsString): Result<N, Error> {
    if |input| > MAX_INPUT then Err(TooLong)
    else
      var raw := Clean(input);
      if raw == [] || Lex(raw).None? then Err(BadCharacters) else CalculateTokens(alg, Lex(raw).value)
  }

  method CalculateText<N>(alg: Algebra<N>, input: JsString) returns (r: Result<N, Error>)
    ensures r == CalculateInput(alg, input)
  {
    if |input| > MAX_INPUT { return Err(TooLong); }
    var raw := Clean(input);
    var tokens := Lex(raw);
    if raw == [] || tokens.None? { return Err(BadCharacters); }
    r := Calculate(alg, tokens.value);
  }

  // ---------------------------------------------------------------- lexing inverts printing

  /** The characters a numeral is made of. */
  predicate NumeralChar(c: Utf16) {
    IsDigit(c) || c == 46 || c == 101 || c == 69 || c == 43 || c == 45
  }

  /** What may follow a number without extending it. */
  predicate StopsNumber(k: JsString) {
    k == [] || Symbol(k[0]).Some?
  }

  lemma {:induction false} DigitsThen(s: JsString, k: JsString)
    requires k == [] || !IsDigit(k[0])
    ensures Digits(s + k) == Digits(s)
  {
    if s == [] {
      assert s + k == k;
    } else {
      assert (s + k)[1..] == s[1..] + k;
      DigitsThen(s[1..], k);
    }
  }

  lemma MantissaThen(s: JsString, k: JsString)
    requires StopsNumber(k) && MantissaLength(s) > 0
    ensures MantissaLength(s + k) == MantissaLength(s)
  {
    DigitsThen(s, k);
    var whole := Digits(s);
    if whole > 0 {
      if whole < |s| && s[whole] == 46 {
        assert (s + k)[whole + 1..] == s[whole + 1..] + k;
        DigitsThen(s[whole + 1..], k);
      }
    } else {
      assert (s + k)[1..] == s[1..] + k;
      DigitsThen(s[1..], k);
    }
  }

  lemma ExponentThen(s: JsString, k: JsString)
    requires StopsNumber(k)
    requires ExponentLength(s) == |s|
    ensures ExponentLength(s + k) == |s|
  {
    if s == [] {
      assert s + k == k;
    } else {
      var start := if |s| > 1 && (s[1] == 43 || s[1] == 45) then 2 else 1;
      assert |s| > 1;
      assert (s + k)[1] == s[1];
      assert (s + k)[start..] == s[start..] + k;
      DigitsThen(s[start..], k);
    }
  }

  /** Maximal munch: a numeral followed by an operator, a parenthesis or the end stays that numeral. */
  lemma NumberThen(s: JsString, k: JsString)
    requires IsNumeral(s) && StopsNumber(k)
    ensures NumberLength(s + k) == |s|
  {
    var m := MantissaLength(s);
    MantissaThen(s, k);
    assert (s + k)[m..] == s[m..] + k;
    ExponentThen(s[m..], k);
  }

  /** Tokens as a printer writes them: proper numerals, never two in a row. */
  predicate WellSpaced(ts: seq<Token>) {
    ts == [] ||
    (&& (ts[0].Num? ==> IsNumeral(ts[0].text) && (|ts| > 1 ==> !ts[1].Num?))
     && WellSpaced(ts[1..]))
  }

  lemma SymbolText(t: Token)
    requires !t.Num?
    ensures |TokenText(t)| == 1 && Symbol(TokenText(t)[0]) == Some(t)
  {
  }

  lemma FirstOfJoin(t: Token, k: JsString)
    requires t.Num? ==> IsNumeral(t.text) && StopsNumber(k)
    ensures TokenText(t) + k != []
    ensures FirstLength(TokenText(t) + k) == |TokenText(t)|
    ensures FirstToken(TokenText(t) + k) == Some(t)
  {
    var s := TokenText(t) + k;
    if t.Num? {
      NumberThen(t.text, k);
      assert s[..|t.text|] == t.text;
    } else {
      SymbolText(t);
      assert s[0] == TokenText(t)[0];
    }
  }

  lemma {:induction false} LexJoin(ts: seq<Token>)
    requires WellSpaced(ts)
    ensures Lex(Join(ts)) == Some(ts)
    decreases |ts|
  {
    if ts != [] {
      var t, rest := TokenText(ts[0]), Join(ts[1..]);
      if |ts| > 1 && !ts[1].Num? { SymbolText(ts[1]); }
      FirstOfJoin(ts[0], rest);
      LexJoin(ts[1..]);
      assert (t + rest)[|t|..] == rest;
      assert [ts[0]] + ts[1..] == ts;
    }
  }

  lemma FirstTokenText(s: JsString)
    requires s != [] && FirstToken(s).Some?
    ensures TokenText(FirstToken(s).value) == s[..FirstLength(s)]
  {
  }

  lemma JoinFirst(s: JsString, rest: seq<Token>)
    requires s != [] && FirstToken(s).Some? && Join(rest) == s[FirstLength(s)..]
    ensures Join([FirstToken(s).value] + rest) == s
  {
    FirstTokenText(s);
    assert ([FirstToken(s).value] + rest)[1..] == rest;
    assert s == s[..FirstLength(s)] + s[FirstLength(s)..];
  }

  /** The tokens joined again are the text: nothing was skipped. */
  lemma {:induction false} JoinLex(s: JsString)
    requires Lex(s).Some?
    ensures Join(Lex(s).value) == s
    decreases |s|
  {
    if s != [] {
      var rest := s[FirstLength(s)..];
      JoinLex(rest);
      JoinFirst(s, Lex(rest).value);
    }
  }

  // ---------------------------------------------------------------- printed trees are well spaced

  /** Every numeral of the expression is one the number pattern matches entirely. */
  predicate ProperNumerals(e: Expr) {
    match e
    case Literal(t) => IsNumeral(t)
    case Signed(_, x) => ProperNumerals(x)
    case PercentOf(x) => ProperNumerals(x)
    case Binary(_, l, r) => ProperNumerals(l) && ProperNumerals(r)
  }

  /** What a tree may be followed by: nothing, or a token that is not a number. */
  predicate Tail(k: seq<Token>) {
    WellSpaced(k) && (k != [] ==> !k[0].Num?)
  }

  lemma SymbolThen(t: Token, k: seq<Token>)
    requires !t.Num? && WellSpaced(k)
    ensures Tail([t] + k)
  {
    assert ([t] + k)[1..] == k;
  }

  lemma {:induction false} AtomSpacing(a: AtomTree, k: seq<Token>)
    requires ProperNumerals(AtomExpr(a)) && Tail(k)
    ensures WellSpaced(PrintAtom(a, k))
    decreases a
  {
    match a
    case Lit(t) => assert ([Num(t)] + k)[1..] == k;
    case Paren(s) =>
      SymbolThen(Close, k);
      SumSpacing(s, [Close] + k);
      SymbolThen(Open, PrintSum(s, [Close] + k));
    case Postfix(x) =>
      SymbolThen(Percent, k);
      AtomSpacing(x, [Percent] + k);
  }

  lemma {:induction false} PowerSpacing(p: PowerTree, k: seq<Token>)
    requires ProperNumerals(PowerExpr(p)) && Tail(k)
    ensures WellSpaced(PrintPower(p, k))
    decreases p
  {
    match p
    case Base(a) => AtomSpacing(a, k);
    case Raised(a, e) =>
      UnarySpacing(e, k);
      SymbolThen(Op(Pow), PrintUnary(e, k));
      AtomSpacing(a, [Op(Pow)] + PrintUnary(e, k));
  }

  lemma {:induction false} UnarySpacing(u: UnaryTree, k: seq<Token>)
    requires ProperNumerals(UnaryExpr(u)) && Tail(k)
    ensures WellSpaced(PrintUnary(u, k))
    decreases u
  {
    match u
    case Prefix(negative, x) =>
      UnarySpacing(x, k);
      SymbolThen(Op(if negative then Sub else Add), PrintUnary(x, k));
    case Plain(p) => PowerSpacing(p, k);
  }

  lemma {:induction false} ProductSpacing(p: ProductTree, k: seq<Token>)
    requires ProperNumerals(ProductExpr(p)) && Tail(k)
    ensures WellSpaced(PrintProduct(p, k))
    decreases p
  {
    match p
    case Factor(u) => UnarySpacing(u, k);
    case ProductOf(l, op, u) =>
      UnarySpacing(u, k);
      SymbolThen(Op(op), PrintUnary(u, k));
      ProductSpacing(l, [Op(op)] + PrintUnary(u, k));
  }

  lemma {:induction false} SumSpacing(s: SumTree, k: seq<Token>)
    requires ProperNumerals(SumExpr(s)) && Tail(k)
    ensures WellSpaced(PrintSum(s, k))
    decreases s
  {
    match s
    case Term(p) => ProductSpacing(p, k);
    case SumOf(l, op, p) =>
      ProductSpacing(p, k);
      SymbolThen(Op(op), PrintProduct(p, k));
      SumSpacing(l, [Op(op)] + PrintProduct(p, k));
  }

  lemma PrintsSomething(s: SumTree, k: seq<Token>)
    ensures PrintSum(s, k) != []
  {
    match s
    case SumOf(l, op, p) => PrintsSomething(l, [Op(op)] + PrintProduct(p, k));
    case Term(p) => ProductPrintsSomething(p, k);
  }

  lemma ProductPrintsSomething(p: ProductTree, k: seq<Token>)
    ensures PrintProduct(p, k) != []
  {
    match p
    case ProductOf(l, op, u) => ProductPrintsSomething(l, [Op(op)] + PrintUnary(u, k));
    case Factor(Prefix(_, _)) =>
    case Factor(Plain(Base(a))) =>
      AtomHead(a, k);
      assert PrintUnary(Plain(Base(a)), k) == PrintAtom(a, k);
    case Factor(Plain(Raised(a, e))) =>
      var k' := [Op(Pow)] + PrintUnary(e, k);
      AtomHead(a, k');
      assert PrintUnary(Plain(Raised(a, e)), k) == PrintAtom(a, k');
  }

  lemma NumeralCharacters(s: JsString)
    requires IsNumeral(s)
    ensures forall i :: 0 <= i < |s| ==> NumeralChar(s[i])
  {
    var whole, m := Digits(s), MantissaLength(s);
    var after := if whole > 0 then whole + 1 else 1;
    forall i | 0 <= i < m ensures NumeralChar(s[i]) {
      if i >= after { assert s[i] == s[after..][i - after]; }
    }
    var x := s[m..];
    forall i | m <= i < |s| ensures NumeralChar(s[i]) {
      var start := if |x| > 1 && (x[1] == 43 || x[1] == 45) then 2 else 1;
      assert s[i] == x[i - m];
      if i - m >= start { assert x[i - m] == x[start..][i - m - start]; }
    }
  }

  lemma {:induction false} CleanKeeps(s: JsString, k: JsString)
    requires forall i :: 0 <= i < |s| ==> NumeralChar(s[i]) || Symbol(s[i]).Some?
    requires Clean(k) == k
    ensures Clean(s + k) == s + k
  {
    if s == [] {
      assert s + k == k;
    } else {
      assert (s + k)[1..] == s[1..] + k;
      CleanKeeps(s[1..], k);
    }
  }

  /** Printed without any spacing, tokens are already clean. */
  lemma {:induction false} PlainTextIsClean(ts: seq<Token>)
    requires WellSpaced(ts)
    ensures Clean(Join(ts)) == Join(ts)
  {
    if ts != [] {
      PlainTextIsClean(ts[1..]);
      if ts[0].Num? { NumeralCharacters(ts[0].text); }
      CleanKeeps(TokenText(ts[0]), Join(ts[1..]));
    }
  }

  /** So an expression's own text is one that `TextOfExpression` speaks of. */
  lemma OwnText(e: Expr)
    requires ProperNumerals(e)
    ensures Clean(Join(Tokens(e))) == Join(Tokens(e))
  {
    PrintingKeepsTheExpression(e);
    SumSpacing(AsSum(e), []);
    PlainTextIsClean(Tokens(e));
  }

  /**
   End to end. Whatever spacing and whichever multiplication and division signs the user types,
   the text of an expression is worth exactly the reference answer, unless it is longer than 500
   characters or nested more than 39 parentheses deep: then it is refused.
   */
  lemma TextOfExpression<N(!new)>(alg: Algebra<N>, e: Expr, input: JsString)
    requires ProperNumerals(e)
    requires Clean(input) == Join(Tokens(e))
    ensures var r := CalculateInput(alg, input);
            if |input| <= 500 && SumNesting(AsSum(e)) < 40 then r == Answer(alg, e) else r.Err?
  {
    PrintingKeepsTheExpression(e);
    SumSpacing(AsSum(e), []);
    LexJoin(Tokens(e));
    CalculateTree(alg, AsSum(e));
    PrintsSomething(AsSum(e), []);
  }

  /** The other direction: an accepted text spells, spacing aside, a tree of the grammar worth that value. */
  lemma AcceptedText<N(!new)>(alg: Algebra<N>, input: JsString, v: N)
    requires CalculateInput(alg, input) == Ok(v)
    ensures exists s: SumTree ::
              && Join(PrintSum(s, [])) == Clean(input)
              && SumNesting(s) < 40
              && Answer(alg, SumExpr(s)) == Ok(v)
  {
    JoinLex(Clean(input));
    CalculateExact(alg, Lex(Clean(input)).value, v);
  }
}
