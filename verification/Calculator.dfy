/** The arithmetic calculator: its tokens, its grammar and its parser. */
module Calculator {
  import opened Common
  import opened JsText

  // Numbers are abstract. `Algebra` carries every arithmetic operation the parser applies, so the theorems hold
  // for floating point, for reals and for any other interpretation of the operators.

  const MAX_INPUT := 500
  const MAX_DEPTH := 40

  datatype Operator = Add | Sub | Mul | Div | Pow

  datatype Token = Num(text: JsString) | Op(op: Operator) | Percent | Open | Close

  datatype Error =
    TooLong | BadCharacters | TooDeep | Unclosed | MissingNumber | DivisionByZero | MissingOperator | OutOfRange

  /** The number domain: `Number(t)`, the operators, and the two final checks. */
  datatype Algebra<!N> = Algebra(
    number: JsString -> N,
    apply: (Operator, N, N) -> N,
    one: N,
    minusOne: N,
    hundredth: N -> N,
    isZero: N -> bool,
    finite: N -> bool,
    rounded: N -> N)

  // ---------------------------------------------------------------- the reference semantics

  /** An arithmetic expression, free of any notation. */
  datatype Expr =
    | Literal(text: JsString)
    | Signed(negative: bool, e: Expr)
    | Binary(op: Operator, l: Expr, r: Expr)
    | PercentOf(e: Expr)

  /** Operands left to right; the only failure is a zero divisor. */
  function Eval<N>(alg: Algebra<N>, e: Expr): Result<N, Error> {
    match e
    case Literal(t) => Ok(alg.number(t))
    case Signed(negative, x) =>
      (match Eval(alg, x)
       case Err(err) => Err(err)
       case Ok(v) => Ok(alg.apply(Mul, if negative then alg.minusOne else alg.one, v)))
    case Binary(op, l, r) =>
      (match Eval(alg, l)
       case Err(err) => Err(err)
       case Ok(a) =>
         match Eval(alg, r)
         case Err(err) => Err(err)
         case Ok(b) => if op.Div? && alg.isZero(b) then Err(DivisionByZero) else Ok(alg.apply(op, a, b)))
    case PercentOf(x) =>
      (match Eval(alg, x)
       case Err(err) => Err(err)
       case Ok(v) => Ok(alg.hundredth(v)))
  }

  // ---------------------------------------------------------------- the grammar

  predicate IsAdditive(op: Operator) { op == Add || op == Sub }

  predicate IsMultiplicative(op: Operator) { op == Mul || op == Div }

  type AdditiveOp = op: Operator | IsAdditive(op) witness Add

  type MultiplicativeOp = op: Operator | IsMultiplicative(op) witness Mul

  datatype SumTree = Term(p: ProductTree) | SumOf(l: SumTree, sop: AdditiveOp, p: ProductTree)
  datatype ProductTree = Factor(u: UnaryTree) | ProductOf(l: ProductTree, pop: MultiplicativeOp, u: UnaryTree)
  datatype UnaryTree = Prefix(negative: bool, u: UnaryTree) | Plain(p: PowerTree)
  datatype PowerTree = Base(a: AtomTree) | Raised(a: AtomTree, e: UnaryTree)
  datatype AtomTree = Lit(text: JsString) | Paren(s: SumTree) | Postfix(a: AtomTree)

  /** `PrintX(x, k)` is the token list of `x` followed by `k`. */
  function PrintSum(s: SumTree, k: seq<Token>): seq<Token> {
    match s
    case Term(p) => PrintProduct(p, k)
    case SumOf(l, op, p) => PrintSum(l, [Op(op)] + PrintProduct(p, k))
  }

  function PrintProduct(p: ProductTree, k: seq<Token>): seq<Token> {
    match p
    case Factor(u) => PrintUnary(u, k)
    case ProductOf(l, op, u) => PrintProduct(l, [Op(op)] + PrintUnary(u, k))
  }

  function PrintUnary(u: UnaryTree, k: seq<Token>): seq<Token> {
    match u
    case Prefix(negative, x) => [Op(if negative then Sub else Add)] + PrintUnary(x, k)
    case Plain(p) => PrintPower(p, k)
  }

  function PrintPower(p: PowerTree, k: seq<Token>): seq<Token> {
    match p
    case Base(a) => PrintAtom(a, k)
    case Raised(a, e) => PrintAtom(a, [Op(Pow)] + PrintUnary(e, k))
  }

  function PrintAtom(a: AtomTree, k: seq<Token>): seq<Token> {
    match a
    case Lit(t) => [Num(t)] + k
    case Paren(s) => [Open] + PrintSum(s, [Close] + k)
    case Postfix(x) => PrintAtom(x, [Percent] + k)
  }

  /** The expression a tree denotes: parentheses disappear, everything else stays. */
  function SumExpr(s: SumTree): Expr {
    match s
    case Term(p) => ProductExpr(p)
    case SumOf(l, op, p) => Binary(op, SumExpr(l), ProductExpr(p))
  }

  function ProductExpr(p: ProductTree): Expr {
    match p
    case Factor(u) => UnaryExpr(u)
    case ProductOf(l, op, u) => Binary(op, ProductExpr(l), UnaryExpr(u))
  }

  function UnaryExpr(u: UnaryTree): Expr {
    match u
    case Prefix(negative, x) => Signed(negative, UnaryExpr(x))
    case Plain(p) => PowerExpr(p)
  }

  function PowerExpr(p: PowerTree): Expr {
    match p
    case Base(a) => AtomExpr(a)
    case Raised(a, e) => Binary(Pow, AtomExpr(a), UnaryExpr(e))
  }

  function AtomExpr(a: AtomTree): Expr {
    match a
    case Lit(t) => Literal(t)
    case Paren(s) => SumExpr(s)
    case Postfix(x) => PercentOf(AtomExpr(x))
  }

  function Max(a: nat, b: nat): nat { if a < b then b else a }

  /** Depth of nested parentheses. */
  function SumNesting(s: SumTree): nat {
    match s
    case Term(p) => ProductNesting(p)
    case SumOf(l, _, p) => Max(SumNesting(l), ProductNesting(p))
  }

  function ProductNesting(p: ProductTree): nat {
    match p
    case Factor(u) => UnaryNesting(u)
    case ProductOf(l, _, u) => Max(ProductNesting(l), UnaryNesting(u))
  }

  function UnaryNesting(u: UnaryTree): nat {
    match u
    case Prefix(_, x) => UnaryNesting(x)
    case Plain(p) => PowerNesting(p)
  }

  function PowerNesting(p: PowerTree): nat {
    match p
    case Base(a) => AtomNesting(a)
    case Raised(a, e) => Max(AtomNesting(a), UnaryNesting(e))
  }

  function AtomNesting(a: AtomTree): nat {
    match a
    case Lit(_) => 0
    case Paren(s) => 1 + SumNesting(s)
    case Postfix(x) => AtomNesting(x)
  }

  // ---------------------------------------------------------------- the parser, as functions

  datatype Parsed<+N> = Got(value: N, rest: seq<Token>) | Bad(error: Error)

  predicate Starts(ts: seq<Token>, t: Token) {
    ts != [] && ts[0] == t
  }

  predicate StartsAdditive(ts: seq<Token>) {
    ts != [] && ts[0].Op? && IsAdditive(ts[0].op)
  }

  predicate StartsMultiplicative(ts: seq<Token>) {
    ts != [] && ts[0].Op? && IsMultiplicative(ts[0].op)
  }

  function Sign<N>(alg: Algebra<N>, negative: bool): N {
    if negative then alg.minusOne else alg.one
  }

  function Combine<N>(alg: Algebra<N>, op: Operator, a: N, b: N): Result<N, Error> {
    if op == Div && alg.isZero(b) then Err(DivisionByZero) else Ok(alg.apply(op, a, b))
  }

  function ParseSum<N>(alg: Algebra<N>, ts: seq<Token>, depth: nat): (r: Parsed<N>)
    ensures r.Got? ==> |r.rest| < |ts|
    decreases |ts|, 6
  {
    match ParseProduct(alg, ts, depth)
    case Bad(e) => Bad(e)
    case Got(v, rest) => SumTail(alg, v, rest, depth)
  }

  function SumTail<N>(alg: Algebra<N>, v: N, ts: seq<Token>, depth: nat): (r: Parsed<N>)
    ensures r.Got? ==> |r.rest| <= |ts|
    decreases |ts|, 5
  {
    if StartsAdditive(ts) then
      match ParseProduct(alg, ts[1..], depth)
      case Bad(e) => Bad(e)
      case Got(w, rest) => SumTail(alg, alg.apply(ts[0].op, v, w), rest, depth)
    else
      Got(v, ts)
  }

  function ParseProduct<N>(alg: Algebra<N>, ts: seq<Token>, depth: nat): (r: Parsed<N>)
    ensures r.Got? ==> |r.rest| < |ts|
    decreases |ts|, 4
  {
    match ParseUnary(alg, ts, depth)
    case Bad(e) => Bad(e)
    case Got(v, rest) => ProductTail(alg, v, rest, depth)
  }

  function ProductTail<N>(alg: Algebra<N>, v: N, ts: seq<Token>, depth: nat): (r: Parsed<N>)
    ensures r.Got? ==> |r.rest| <= |ts|
    decreases |ts|, 3
  {
    if StartsMultiplicative(ts) then
      match ParseUnary(alg, ts[1..], depth)
      case Bad(e) => Bad(e)
      case Got(w, rest) =>
        match Combine(alg, ts[0].op, v, w)
        case Err(e) => Bad(e)
        case Ok(x) => ProductTail(alg, x, rest, depth)
    else
      Got(v, ts)
  }

  function ParseUnary<N>(alg: Algebra<N>, ts: seq<Token>, depth: nat): (r: Parsed<N>)
    ensures r.Got? ==> |r.rest| < |ts|
    decreases |ts|, 2
  {
    if StartsAdditive(ts) then
      match ParseUnary(alg, ts[1..], depth)
      case Bad(e) => Bad(e)
      case Got(v, rest) => Got(alg.apply(Mul, Sign(alg, ts[0].op == Sub), v), rest)
    else
      ParsePower(alg, ts, depth)
  }

  function ParsePower<N>(alg: Algebra<N>, ts: seq<Token>, depth: nat): (r: Parsed<N>)
    ensures r.Got? ==> |r.rest| < |ts|
    decreases |ts|, 1
  {
    match ParseAtom(alg, ts, depth)
    case Bad(e) => Bad(e)
    case Got(v, rest) =>
      if Starts(rest, Op(Pow)) then
        match ParseUnary(alg, rest[1..], depth)
        case Bad(e) => Bad(e)
        case Got(w, rest') => Got(alg.apply(Pow, v, w), rest')
      else
        Got(v, rest)
  }

  function ParseAtom<N>(alg: Algebra<N>, ts: seq<Token>, depth: nat): (r: Parsed<N>)
    ensures r.Got? ==> |r.rest| < |ts|
    decreases |ts|, 0
  {
    if depth + 1 > MAX_DEPTH then Bad(TooDeep)
    else if Starts(ts, Open) then
      match ParseSum(alg, ts[1..], depth + 1)
      case Bad(e) => Bad(e)
      case Got(v, rest) => if Starts(rest, Close) then Percents(alg, v, rest[1..]) else Bad(Unclosed)
    else if ts == [] || !ts[0].Num? then Bad(MissingNumber)
    else Percents(alg, alg.number(ts[0].text), ts[1..])
  }

  /** An atom without its percent signs. */
  function ParsePrimary<N>(alg: Algebra<N>, ts: seq<Token>, depth: nat): Parsed<N> {
    if Starts(ts, Open) then
      match ParseSum(alg, ts[1..], depth)
      case Bad(e) => Bad(e)
      case Got(v, rest) => if Starts(rest, Close) then Got(v, rest[1..]) else Bad(Unclosed)
    else if ts == [] || !ts[0].Num? then Bad(MissingNumber)
    else Got(alg.number(ts[0].text), ts[1..])
  }

  function WithPercents<N>(alg: Algebra<N>, p: Parsed<N>): Parsed<N> {
    match p
    case Bad(e) => Bad(e)
    case Got(v, rest) => Percents(alg, v, rest)
  }

  lemma AtomParts<N>(alg: Algebra<N>, ts: seq<Token>, depth: nat)
    ensures ParseAtom(alg, ts, depth) == if depth + 1 > MAX_DEPTH then Bad(TooDeep)
      else WithPercents(alg, ParsePrimary(alg, ts, depth + 1))
  {
  }

  function Percents<N>(alg: Algebra<N>, v: N, ts: seq<Token>): (r: Parsed<N>)
    ensures r.Got? && |r.rest| <= |ts|
  {
    if Starts(ts, Percent) then Percents(alg, alg.hundredth(v), ts[1..]) else Got(v, ts)
  }

  /** Everything after tokenizing: parse, demand the end of input, check and round the value. */
  function CalculateTokens<N>(alg: Algebra<N>, ts: seq<Token>): Result<N, Error> {
    match ParseSum(alg, ts, 0)
    case Bad(e) => Err(e)
    case Got(v, rest) => if rest != [] then Err(MissingOperator) else Finish(alg, v)
  }

  function Finish<N>(alg: Algebra<N>, v: N): Result<N, Error> {
    if alg.finite(v) then Ok(alg.rounded(v)) else Err(OutOfRange)
  }

  /** What the loop of `product` makes of the value so far and what a further operand parses to. */
  function ProductAfter<N>(alg: Algebra<N>, v: N, op: Operator, p: Parsed<N>, depth: nat): Parsed<N> {
    match p
    case Bad(e) => Bad(e)
    case Got(w, rest) =>
      match Combine(alg, op, v, w)
      case Err(e) => Bad(e)
      case Ok(x) => ProductTail(alg, x, rest, depth)
  }

  lemma ProductTurn<N>(alg: Algebra<N>, v: N, ts: seq<Token>, i: nat, d: nat)
    requires i < |ts| && ts[i].Op? && IsMultiplicative(ts[i].op)
    ensures ProductTail(alg, v, ts[i..], d) == ProductAfter(alg, v, ts[i].op, ParseUnary(alg, ts[i + 1..], d), d)
  {
    assert ts[i..][1..] == ts[i + 1..];
  }

  /** The same for the loop of `sum`. */
  function SumAfter<N>(alg: Algebra<N>, v: N, op: Operator, p: Parsed<N>, depth: nat): Parsed<N> {
    match p
    case Bad(e) => Bad(e)
    case Got(w, rest) => SumTail(alg, alg.apply(op, v, w), rest, depth)
  }

  lemma SumTurn<N>(alg: Algebra<N>, v: N, ts: seq<Token>, i: nat, d: nat)
    requires i < |ts| && ts[i].Op? && IsAdditive(ts[i].op)
    ensures SumTail(alg, v, ts[i..], d) == SumAfter(alg, v, ts[i].op, ParseProduct(alg, ts[i + 1..], d), d)
  {
    assert ts[i..][1..] == ts[i + 1..];
  }

  // ---------------------------------------------------------------- the parser, as the source runs it

  /** The closures of `calculate`, sharing the cursor `i` and the counter `depth`. */
  class Parser<N> {
    const alg: Algebra<N>
    const tokens: seq<Token>
    var i: nat
    var depth: nat

    constructor (alg: Algebra<N>, tokens: seq<Token>)
      ensures this.alg == alg && this.tokens == tokens && i == 0 && depth == 0
    {
      this.alg, this.tokens, i, depth := alg, tokens, 0, 0;
    }

    /** What a closure that started at `from` with nesting `d` must have done. */
    ghost predicate Follows(expected: Parsed<N>, r: Result<N, Error>, d: nat)
      reads this
    {
      match expected
      case Bad(e) => r == Err(e)
      case Got(v, rest) => r == Ok(v) && i <= |tokens| && tokens[i..] == rest && depth == d
    }

    method Sum() returns (r: Result<N, Error>)
      requires i <= |tokens|
      modifies this
      ensures Follows(ParseSum(alg, old(tokens[i..]), old(depth)), r, old(depth))
      decreases |tokens| - i, 5
    {
      ghost var expected := ParseSum(alg, tokens[i..], depth);
      r := Product();
      while r.Ok? && i < |tokens| && tokens[i].Op? && IsAdditive(tokens[i].op)
        invariant r.Ok? ==> old(i) < i <= |tokens| && depth == old(depth)
        invariant if r.Ok? then SumTail(alg, r.value, tokens[i..], depth) == expected else expected == Bad(r.error)
        decreases r.Ok?, |tokens| - i
      {
        r := AddNext(r.value);
      }
    }

    /** One turn of the loop of `sum`. */
    method AddNext(v: N) returns (r: Result<N, Error>)
      requires i < |tokens| && tokens[i].Op? && IsAdditive(tokens[i].op)
      modifies this
      ensures r.Ok? ==> old(i) < i <= |tokens| && depth == old(depth)
      ensures SumTail(alg, v, old(tokens[i..]), old(depth)) ==
              if r.Ok? then SumTail(alg, r.value, tokens[i..], depth) else Bad(r.error)
      decreases |tokens| - i, 4
    {
      SumTurn(alg, v, tokens, i, depth);
      var op := tokens[i].op;
      i := i + 1;
      r := Product();
      if r.Ok? { r := Ok(alg.apply(op, v, r.value)); }
    }

    method Product() returns (r: Result<N, Error>)
      requires i <= |tokens|
      modifies this
      ensures Follows(ParseProduct(alg, old(tokens[i..]), old(depth)), r, old(depth))
      ensures r.Ok? ==> i > old(i)
      decreases |tokens| - i, 3
    {
      ghost var expected := ParseProduct(alg, tokens[i..], depth);
      r := Unary();
      while r.Ok? && i < |tokens| && tokens[i].Op? && IsMultiplicative(tokens[i].op)
        invariant r.Ok? ==> old(i) < i <= |tokens| && depth == old(depth)
        invariant if r.Ok? then ProductTail(alg, r.value, tokens[i..], depth) == expected else expected == Bad(r.error)
        decreases r.Ok?, |tokens| - i
      {
        r := MultiplyNext(r.value);
      }
    }

    /** One turn of the loop of `product`. */
    method MultiplyNext(v: N) returns (r: Result<N, Error>)
      requires i < |tokens| && tokens[i].Op? && IsMultiplicative(tokens[i].op)
      modifies this
      ensures r.Ok? ==> old(i) < i <= |tokens| && depth == old(depth)
      ensures ProductTail(alg, v, old(tokens[i..]), old(depth)) ==
              if r.Ok? then ProductTail(alg, r.value, tokens[i..], depth) else Bad(r.error)
      decreases |tokens| - i, 2, 1
    {
      ProductTurn(alg, v, tokens, i, depth);
      var op := tokens[i].op;
      i := i + 1;
      r := Unary();
      if r.Err? { return; }
      if op == Div && alg.isZero(r.value) { return Err(DivisionByZero); }
      r := Ok(alg.apply(op, v, r.value));
    }

    method Unary() returns (r: Result<N, Error>)
      requires i <= |tokens|
      modifies this
      ensures Follows(ParseUnary(alg, old(tokens[i..]), old(depth)), r, old(depth))
      ensures r.Ok? ==> i > old(i)
      decreases |tokens| - i, 2
    {
      if i < |tokens| && tokens[i].Op? && IsAdditive(tokens[i].op) {
        var sign := tokens[i].op;
        assert tokens[i..][1..] == tokens[i + 1..];
        i := i + 1;
        r := Unary();
        if r.Ok? { r := Ok(alg.apply(Mul, Sign(alg, sign == Sub), r.value)); }
      } else {
        r := Power();
      }
    }

    method Power() returns (r: Result<N, Error>)
      requires i <= |tokens|
      modifies this
      ensures Follows(ParsePower(alg, old(tokens[i..]), old(depth)), r, old(depth))
      ensures r.Ok? ==> i > old(i)
      decreases |tokens| - i, 1
    {
      r := Atom();
      if r.Ok? && i < |tokens| && tokens[i] == Op(Pow) {
        assert tokens[i..][1..] == tokens[i + 1..];
        i := i + 1;
        var e := Unary();
        if e.Err? { return e; }
        r := Ok(alg.apply(Pow, r.value, e.value));
      }
    }

    method Atom() returns (r: Result<N, Error>)
      requires i <= |tokens|
      modifies this
      ensures Follows(ParseAtom(alg, old(tokens[i..]), old(depth)), r, old(depth))
      ensures r.Ok? ==> i > old(i)
      decreases |tokens| - i, 0
    {
      AtomParts(alg, tokens[i..], depth);
      depth := depth + 1;
      if depth > MAX_DEPTH { return Err(TooDeep); }
      r := Primary();
      if r.Err? { return; }
      var v := PostfixPercents(r.value);
      r := Ok(v);
      depth := depth - 1;
    }

    /** The two branches of `atom`: a parenthesized sum or a number. */
    method Primary() returns (r: Result<N, Error>)
      requires i <= |tokens|
      modifies this
      ensures Follows(ParsePrimary(alg, old(tokens[i..]), old(depth)), r, old(depth))
      ensures r.Ok? ==> i > old(i)
      decreases |tokens| - i, 0, 0
    {
      if i < |tokens| && tokens[i] == Open {
        assert tokens[i..][1..] == tokens[i + 1..];
        i := i + 1;
        r := Sum();
        if r.Err? { return; }
        if i == |tokens| || tokens[i] != Close {
          i := i + 1;
          return Err(Unclosed);
        }
      } else {
        if i == |tokens| || !tokens[i].Num? {
          i := i + 1;
          return Err(MissingNumber);
        }
        r := Ok(alg.number(tokens[i].text));
      }
      assert tokens[i..][1..] == tokens[i + 1..];
      i := i + 1;
    }

    /** The `%` loop at the end of `atom`. */
    method PostfixPercents(value: N) returns (v: N)
      requires i <= |tokens|
      modifies this`i
      ensures old(i) <= i <= |tokens|
      ensures Percents(alg, value, old(tokens[i..])) == Got(v, tokens[i..])
    {
      v := value;
      while i < |tokens| && tokens[i] == Percent
        invariant old(i) <= i <= |tokens|
        invariant Percents(alg, v, tokens[i..]) == Percents(alg, value, old(tokens[i..]))
        decreases |tokens| - i
      {
        assert tokens[i..][1..] == tokens[i + 1..];
        i := i + 1;
        v := alg.hundredth(v);
      }
    }
  }

  /** `calculate` from its token list on. */
  method Calculate<N>(alg: Algebra<N>, tokens: seq<Token>) returns (r: Result<N, Error>)
    ensures r == CalculateTokens(alg, tokens)
  {
    var p := new Parser<N>(alg, tokens);
    assert p.tokens[p.i..] == tokens;
    r := p.Sum();
    if r.Err? { return; }
    if p.i != |tokens| { return Err(MissingOperator); }
    r := if alg.finite(r.value) then Ok(alg.rounded(r.value)) else Err(OutOfRange);
  }
}
