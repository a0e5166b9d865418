/** The parser of `Calculator` accepts exactly its grammar and computes exactly the reference value. */
module CalculatorGrammar {
  import opened Common
  import opened JsText
  import opened Calculator

  predicate Fits(depth: nat, nesting: nat) {
    depth + nesting < MAX_DEPTH
  }

  /** What may follow a power: neither `%` nor `^`. */
  predicate AfterPower(k: seq<Token>) {
    !Starts(k, Percent) && !Starts(k, Op(Pow))
  }

  predicate AfterProduct(k: seq<Token>) {
    AfterPower(k) && !StartsMultiplicative(k)
  }

  /** A parse of something `fits` deep ends as `expected`; anything deeper fails. */
  ghost predicate Yields<N(!new)>(p: Parsed<N>, fits: bool, expected: Parsed<N>) {
    if fits then p == expected else p.Bad?
  }

  // What remains to be done with the value of an atom, a power, a product and a sum before `k`.

  function ThenPercents<N>(alg: Algebra<N>, e: Result<N, Error>, k: seq<Token>): Parsed<N> {
    match e case Err(x) => Bad(x) case Ok(v) => Percents(alg, v, k)
  }

  function ThenStop<N>(e: Result<N, Error>, k: seq<Token>): Parsed<N> {
    match e case Err(x) => Bad(x) case Ok(v) => Got(v, k)
  }

  function ThenProducts<N>(alg: Algebra<N>, e: Result<N, Error>, k: seq<Token>, d: nat): Parsed<N> {
    match e case Err(x) => Bad(x) case Ok(v) => ProductTail(alg, v, k, d)
  }

  function ThenSums<N>(alg: Algebra<N>, e: Result<N, Error>, k: seq<Token>, d: nat): Parsed<N> {
    match e case Err(x) => Bad(x) case Ok(v) => SumTail(alg, v, k, d)
  }

  // ---------------------------------------------------------------- every tree is parsed to its value

  lemma AtomHead(a: AtomTree, k: seq<Token>)
    ensures PrintAtom(a, k) != [] && (PrintAtom(a, k)[0].Num? || PrintAtom(a, k)[0].Open?)
  {
  }

  lemma {:induction false} AtomComplete<N(!new)>(alg: Algebra<N>, a: AtomTree, k: seq<Token>, d: nat)
    ensures Yields(ParseAtom(alg, PrintAtom(a, k), d), Fits(d, AtomNesting(a)),
                   ThenPercents(alg, Eval(alg, AtomExpr(a)), k))
    decreases a
  {
    match a
    case Lit(t) =>
    case Paren(s) =>
      var inner := [Close] + k;
      assert PrintAtom(a, k)[1..] == PrintSum(s, inner);
      SumComplete(alg, s, inner, d + 1);
    case Postfix(x) => AtomComplete(alg, x, [Percent] + k, d);
  }

  lemma {:induction false} PowerComplete<N(!new)>(alg: Algebra<N>, p: PowerTree, k: seq<Token>, d: nat)
    requires AfterPower(k)
    ensures Yields(ParsePower(alg, PrintPower(p, k), d), Fits(d, PowerNesting(p)),
                   ThenStop(Eval(alg, PowerExpr(p)), k))
    decreases p
  {
    match p
    case Base(a) => AtomComplete(alg, a, k, d);
    case Raised(a, e) =>
      AtomComplete(alg, a, [Op(Pow)] + PrintUnary(e, k), d);
      UnaryComplete(alg, e, k, d);
  }

  lemma {:induction false} UnaryComplete<N(!new)>(alg: Algebra<N>, u: UnaryTree, k: seq<Token>, d: nat)
    requires AfterPower(k)
    ensures Yields(ParseUnary(alg, PrintUnary(u, k), d), Fits(d, UnaryNesting(u)),
                   ThenStop(Eval(alg, UnaryExpr(u)), k))
    decreases u
  {
    match u
    case Prefix(negative, x) =>
      assert PrintUnary(u, k)[1..] == PrintUnary(x, k);
      UnaryComplete(alg, x, k, d);
    case Plain(p) =>
      AtomHead(p.a, match p case Base(_) => k case Raised(_, e) => [Op(Pow)] + PrintUnary(e, k));
      PowerComplete(alg, p, k, d);
  }

  lemma {:induction false} ProductComplete<N(!new)>(alg: Algebra<N>, p: ProductTree, k: seq<Token>, d: nat)
    requires AfterPower(k)
    ensures Yields(ParseProduct(alg, PrintProduct(p, k), d), Fits(d, ProductNesting(p)),
                   ThenProducts(alg, Eval(alg, ProductExpr(p)), k, d))
    decreases p
  {
    match p
    case Factor(u) => UnaryComplete(alg, u, k, d);
    case ProductOf(l, op, u) =>
      var k' := [Op(op)] + PrintUnary(u, k);
      assert k'[1..] == PrintUnary(u, k);
      ProductComplete(alg, l, k', d);
      UnaryComplete(alg, u, k, d);
  }

  lemma {:induction false} SumComplete<N(!new)>(alg: Algebra<N>, s: SumTree, k: seq<Token>, d: nat)
    requires AfterProduct(k)
    ensures Yields(ParseSum(alg, PrintSum(s, k), d), Fits(d, SumNesting(s)),
                   ThenSums(alg, Eval(alg, SumExpr(s)), k, d))
    decreases s
  {
    match s
    case Term(p) => ProductComplete(alg, p, k, d);
    case SumOf(l, op, p) =>
      var k' := [Op(op)] + PrintProduct(p, k);
      assert k'[1..] == PrintProduct(p, k);
      SumComplete(alg, l, k', d);
      ProductComplete(alg, p, k, d);
  }

  // ---------------------------------------------------------------- whatever is accepted is a tree

  lemma {:induction false} PercentsSound<N(!new)>(alg: Algebra<N>, a: AtomTree, v: N, ts: seq<Token>)
      returns (b: AtomTree)
    requires Eval(alg, AtomExpr(a)) == Ok(v)
    ensures var r := Percents(alg, v, ts);
            && PrintAtom(b, r.rest) == PrintAtom(a, ts)
            && AtomNesting(b) == AtomNesting(a)
            && Eval(alg, AtomExpr(b)) == Ok(r.value)
    decreases |ts|
  {
    if Starts(ts, Percent) {
      assert [Percent] + ts[1..] == ts;
      b := PercentsSound(alg, Postfix(a), alg.hundredth(v), ts[1..]);
    } else {
      b := a;
    }
  }

  lemma {:induction false} AtomSound<N(!new)>(alg: Algebra<N>, ts: seq<Token>, d: nat) returns (a: AtomTree)
    requires ParseAtom(alg, ts, d).Got?
    ensures var r := ParseAtom(alg, ts, d);
            PrintAtom(a, r.rest) == ts && Fits(d, AtomNesting(a)) && Eval(alg, AtomExpr(a)) == Ok(r.value)
    decreases |ts|, 0
  {
    if Starts(ts, Open) {
      var s := SumSound(alg, ts[1..], d + 1);
      var r := ParseSum(alg, ts[1..], d + 1);
      assert [Close] + r.rest[1..] == r.rest;
      assert [Open] + ts[1..] == ts;
      a := PercentsSound(alg, Paren(s), r.value, r.rest[1..]);
    } else {
      assert [Num(ts[0].text)] + ts[1..] == ts;
      a := PercentsSound(alg, Lit(ts[0].text), alg.number(ts[0].text), ts[1..]);
    }
  }

  lemma {:induction false} PowerSound<N(!new)>(alg: Algebra<N>, ts: seq<Token>, d: nat) returns (p: PowerTree)
    requires ParsePower(alg, ts, d).Got?
    ensures var r := ParsePower(alg, ts, d);
            PrintPower(p, r.rest) == ts && Fits(d, PowerNesting(p)) && Eval(alg, PowerExpr(p)) == Ok(r.value)
    decreases |ts|, 1
  {
    var a := AtomSound(alg, ts, d);
    var rest := ParseAtom(alg, ts, d).rest;
    if Starts(rest, Op(Pow)) {
      var e := UnarySound(alg, rest[1..], d);
      assert [Op(Pow)] + rest[1..] == rest;
      p := Raised(a, e);
    } else {
      p := Base(a);
    }
  }

  lemma {:induction false} UnarySound<N(!new)>(alg: Algebra<N>, ts: seq<Token>, d: nat) returns (u: UnaryTree)
    requires ParseUnary(alg, ts, d).Got?
    ensures var r := ParseUnary(alg, ts, d);
            PrintUnary(u, r.rest) == ts && Fits(d, UnaryNesting(u)) && Eval(alg, UnaryExpr(u)) == Ok(r.value)
    decreases |ts|, 2
  {
    if StartsAdditive(ts) {
      var x := UnarySound(alg, ts[1..], d);
      assert [ts[0]] + ts[1..] == ts;
      u := Prefix(ts[0].op == Sub, x);
    } else {
      var p := PowerSound(alg, ts, d);
      u := Plain(p);
    }
  }

  lemma {:induction false} ProductTailSound<N(!new)>(alg: Algebra<N>, l: ProductTree, v: N, ts: seq<Token>, d: nat)
      returns (p: ProductTree)
    requires Fits(d, ProductNesting(l)) && Eval(alg, ProductExpr(l)) == Ok(v)
    requires ProductTail(alg, v, ts, d).Got?
    ensures var r := ProductTail(alg, v, ts, d);
            && PrintProduct(p, r.rest) == PrintProduct(l, ts)
            && Fits(d, ProductNesting(p)) && Eval(alg, ProductExpr(p)) == Ok(r.value)
    decreases |ts|, 3
  {
    if StartsMultiplicative(ts) {
      var u := UnarySound(alg, ts[1..], d);
      var w := ParseUnary(alg, ts[1..], d);
      assert [ts[0]] + ts[1..] == ts;
      p := ProductTailSound(alg, ProductOf(l, ts[0].op, u), Combine(alg, ts[0].op, v, w.value).value, w.rest, d);
    } else {
      p := l;
    }
  }

  lemma {:induction false} ProductSound<N(!new)>(alg: Algebra<N>, ts: seq<Token>, d: nat) returns (p: ProductTree)
    requires ParseProduct(alg, ts, d).Got?
    ensures var r := ParseProduct(alg, ts, d);
            PrintProduct(p, r.rest) == ts && Fits(d, ProductNesting(p)) && Eval(alg, ProductExpr(p)) == Ok(r.value)
    decreases |ts|, 4
  {
    var u := UnarySound(alg, ts, d);
    var r := ParseUnary(alg, ts, d);
    p := ProductTailSound(alg, Factor(u), r.value, r.rest, d);
  }

  lemma {:induction false} SumTailSound<N(!new)>(alg: Algebra<N>, l: SumTree, v: N, ts: seq<Token>, d: nat)
      returns (s: SumTree)
    requires Fits(d, SumNesting(l)) && Eval(alg, SumExpr(l)) == Ok(v)
    requires SumTail(alg, v, ts, d).Got?
    ensures var r := SumTail(alg, v, ts, d);
            && PrintSum(s, r.rest) == PrintSum(l, ts)
            && Fits(d, SumNesting(s)) && Eval(alg, SumExpr(s)) == Ok(r.value)
    decreases |ts|, 5
  {
    if StartsAdditive(ts) {
      var p := ProductSound(alg, ts[1..], d);
      var w := ParseProduct(alg, ts[1..], d);
      assert [ts[0]] + ts[1..] == ts;
      s := SumTailSound(alg, SumOf(l, ts[0].op, p), alg.apply(ts[0].op, v, w.value), w.rest, d);
    } else {
      s := l;
    }
  }

  lemma {:induction false} SumSound<N(!new)>(alg: Algebra<N>, ts: seq<Token>, d: nat) returns (s: SumTree)
    requires ParseSum(alg, ts, d).Got?
    ensures var r := ParseSum(alg, ts, d);
            PrintSum(s, r.rest) == ts && Fits(d, SumNesting(s)) && Eval(alg, SumExpr(s)) == Ok(r.value)
    decreases |ts|, 6
  {
    var p := ProductSound(alg, ts, d);
    var r := ParseProduct(alg, ts, d);
    s := SumTailSound(alg, Term(p), r.value, r.rest, d);
  }

  // ---------------------------------------------------------------- the two directions together

  /** The reference answer for an expression: its value, checked and rounded, or its division by zero. */
  function Answer<N>(alg: Algebra<N>, e: Expr): Result<N, Error> {
    match Eval(alg, e)
    case Err(x) => Err(x)
    case Ok(v) => if alg.finite(v) then Ok(alg.rounded(v)) else Err(OutOfRange)
  }

  /** A token list is the printing of a tree that is shallow enough and has a finite value. */
  ghost predicate Means<N(!new)>(alg: Algebra<N>, ts: seq<Token>, v: N) {
    exists s: SumTree ::
      && PrintSum(s, []) == ts
      && SumNesting(s) < 40
      && Answer(alg, SumExpr(s)) == Ok(v)
  }

  /** `calculate` accepts a token list with value `v` exactly when the grammar gives it that value. */
  lemma CalculateExact<N(!new)>(alg: Algebra<N>, ts: seq<Token>, v: N)
    ensures CalculateTokens(alg, ts) == Ok(v) <==> Means(alg, ts, v)
  {
    if CalculateTokens(alg, ts) == Ok(v) {
      var s := SumSound(alg, ts, 0);
      assert PrintSum(s, []) == ts;
    }
    if Means(alg, ts, v) {
      var s: SumTree :| PrintSum(s, []) == ts && SumNesting(s) < 40 && Answer(alg, SumExpr(s)) == Ok(v);
      SumComplete(alg, s, [], 0);
    }
  }

  /** On the printing of any tree: too deep fails, otherwise the reference value or its own error. */
  lemma CalculateTree<N(!new)>(alg: Algebra<N>, s: SumTree)
    ensures var r := CalculateTokens(alg, PrintSum(s, []));
            if SumNesting(s) < 40 then r == Answer(alg, SumExpr(s)) else r.Err?
  {
    SumComplete(alg, s, [], 0);
  }

  // ---------------------------------------------------------------- printing a bare expression

  /** The tree that writes `e` with no parentheses but the ones precedence forces. */
  function AsSum(e: Expr): SumTree
    decreases e, 5
  {
    if e.Binary? && IsAdditive(e.op) then SumOf(AsSum(e.l), e.op, AsProduct(e.r)) else Term(AsProduct(e))
  }

  function AsProduct(e: Expr): ProductTree
    decreases e, 4
  {
    if e.Binary? && IsMultiplicative(e.op) then ProductOf(AsProduct(e.l), e.op, AsUnary(e.r)) else Factor(AsUnary(e))
  }

  function AsUnary(e: Expr): UnaryTree
    decreases e, 3
  {
    if e.Signed? then Prefix(e.negative, AsUnary(e.e)) else Plain(AsPower(e))
  }

  function AsPower(e: Expr): PowerTree
    decreases e, 2
  {
    if e.Binary? && e.op == Pow then Raised(AsAtom(e.l), AsUnary(e.r)) else Base(AsAtom(e))
  }

  function AsAtom(e: Expr): AtomTree
    decreases e, 1
  {
    match e
    case Literal(t) => Lit(t)
    case PercentOf(x) => Postfix(AsAtom(x))
    case Signed(negative, x) => Paren(Term(Factor(Prefix(negative, AsUnary(x)))))
    case Binary(op, l, r) =>
      Paren(
        if IsAdditive(op) then SumOf(AsSum(l), op, AsProduct(r))
        else if IsMultiplicative(op) then Term(ProductOf(AsProduct(l), op, AsUnary(r)))
        else Term(Factor(Plain(Raised(AsAtom(l), AsUnary(r))))))
  }

  lemma {:induction false} PrintingKeepsTheExpression(e: Expr)
    ensures AtomExpr(AsAtom(e)) == e
    ensures PowerExpr(AsPower(e)) == e
    ensures UnaryExpr(AsUnary(e)) == e
    ensures ProductExpr(AsProduct(e)) == e
    ensures SumExpr(AsSum(e)) == e
  {
    match e
    case Literal(_) =>
    case Signed(negative, x) =>
      PrintingKeepsTheExpression(x);
      var u := Prefix(negative, AsUnary(x));
      assert AsAtom(e) == Paren(Term(Factor(u)));
      assert UnaryExpr(u) == e;
      assert ProductExpr(Factor(u)) == e;
    case PercentOf(x) => PrintingKeepsTheExpression(x);
    case Binary(op, l, r) =>
      PrintingKeepsTheExpression(l);
      PrintingKeepsTheExpression(r);
      if op == Pow {
        var u := Plain(Raised(AsAtom(l), AsUnary(r)));
        assert AsAtom(e) == Paren(Term(Factor(u)));
        assert UnaryExpr(u) == e;
        assert ProductExpr(Factor(u)) == e;
      } else if IsMultiplicative(op) {
        var p := ProductOf(AsProduct(l), op, AsUnary(r));
        assert AsAtom(e) == Paren(Term(p));
        assert ProductExpr(p) == e;
      }
  }

  /** The tokens of an expression written with the fewest parentheses. */
  function Tokens(e: Expr): seq<Token> {
    PrintSum(AsSum(e), [])
  }

  /**
   Precedence and associativity, stated on bare expressions: writing any expression down with
   minimal parentheses and calculating it gives the value of that very expression.
   */
  lemma CalculateExpression<N(!new)>(alg: Algebra<N>, e: Expr)
    requires SumNesting(AsSum(e)) < 40
    ensures CalculateTokens(alg, Tokens(e)) == Answer(alg, e)
  {
    PrintingKeepsTheExpression(e);
    CalculateTree(alg, AsSum(e));
  }
}
