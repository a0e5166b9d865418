/** What binds how tightly: operators, signs and percent signs between numbers, case by case. */
module CalculatorPrecedence {
  import opened Common
  import opened JsText
  import opened Calculator
  import opened CalculatorGrammar

  /** How tightly an operator binds. */
  function Level(op: Operator): nat {
    match op
    case Add => 1
    case Sub => 1
    case Mul => 2
    case Div => 2
    case Pow => 3
  }

  /**
   `a p b q c`: the tighter operator comes first, and of two equally tight ones the left one, but powers from the
   right.
   */
  function Grouped(a: Expr, p: Operator, b: Expr, q: Operator, c: Expr): Expr {
    if Level(p) > Level(q) || (Level(p) == Level(q) && p != Pow) then Binary(q, Binary(p, a, b), c)
    else Binary(p, a, Binary(q, b, c))
  }

  // What a tree without parentheses writes, whatever follows, and what it means.

  ghost predicate UnaryWrites(u: UnaryTree, ts: seq<Token>, e: Expr) {
    (forall k :: PrintUnary(u, k) == ts + k) && UnaryExpr(u) == e && UnaryNesting(u) == 0
  }

  ghost predicate ProductWrites(p: ProductTree, ts: seq<Token>, e: Expr) {
    (forall k :: PrintProduct(p, k) == ts + k) && ProductExpr(p) == e && ProductNesting(p) == 0
  }

  ghost predicate SumWrites(s: SumTree, ts: seq<Token>, e: Expr) {
    (forall k :: PrintSum(s, k) == ts + k) && SumExpr(s) == e && SumNesting(s) == 0
  }

  lemma LiteralWrites(a: JsString) returns (u: UnaryTree)
    ensures UnaryWrites(u, [Num(a)], Literal(a))
  {
    u := Plain(Base(Lit(a)));
    forall k ensures PrintUnary(u, k) == [Num(a)] + k { assert PrintPower(Base(Lit(a)), k) == PrintAtom(Lit(a), k); }
    assert PowerExpr(Base(Lit(a))) == AtomExpr(Lit(a)) && PowerNesting(Base(Lit(a))) == AtomNesting(Lit(a));
  }

  lemma PercentWrites(a: JsString) returns (u: UnaryTree)
    ensures UnaryWrites(u, [Num(a), Percent], PercentOf(Literal(a)))
  {
    var atom := Postfix(Lit(a));
    u := Plain(Base(atom));
    forall k ensures PrintUnary(u, k) == [Num(a), Percent] + k {
      assert PrintPower(Base(atom), k) == PrintAtom(atom, k) == PrintAtom(Lit(a), [Percent] + k);
      assert [Num(a)] + ([Percent] + k) == [Num(a), Percent] + k;
    }
    assert PowerExpr(Base(atom)) == AtomExpr(atom) == PercentOf(AtomExpr(Lit(a)));
    assert PowerNesting(Base(atom)) == AtomNesting(atom) == AtomNesting(Lit(a));
  }

  lemma PowerWrites(a: JsString, r: UnaryTree, ts: seq<Token>, e: Expr) returns (u: UnaryTree)
    requires UnaryWrites(r, ts, e)
    ensures UnaryWrites(u, [Num(a), Op(Pow)] + ts, Binary(Pow, Literal(a), e))
  {
    var power := Raised(Lit(a), r);
    u := Plain(power);
    forall k ensures PrintUnary(u, k) == [Num(a), Op(Pow)] + ts + k {
      assert PrintPower(power, k) == PrintAtom(Lit(a), [Op(Pow)] + PrintUnary(r, k));
      assert [Num(a)] + ([Op(Pow)] + (ts + k)) == [Num(a), Op(Pow)] + ts + k;
    }
    assert PowerExpr(power) == Binary(Pow, AtomExpr(Lit(a)), UnaryExpr(r));
    assert PowerNesting(power) == Max(AtomNesting(Lit(a)), UnaryNesting(r));
  }

  lemma SignWrites(negative: bool, r: UnaryTree, ts: seq<Token>, e: Expr) returns (u: UnaryTree)
    requires UnaryWrites(r, ts, e)
    ensures UnaryWrites(u, [Op(if negative then Sub else Add)] + ts, Signed(negative, e))
  {
    u := Prefix(negative, r);
    var sign := [Op(if negative then Sub else Add)];
    forall k ensures PrintUnary(u, k) == sign + ts + k { Associate(sign, ts, k); }
  }

  lemma FactorWrites(u: UnaryTree, ts: seq<Token>, e: Expr) returns (p: ProductTree)
    requires UnaryWrites(u, ts, e)
    ensures ProductWrites(p, ts, e)
  {
    p := Factor(u);
  }

  lemma TimesWrites(l: ProductTree, ts: seq<Token>, x: Expr, op: MultiplicativeOp, u: UnaryTree, us: seq<Token>,
      y: Expr)
    returns (p: ProductTree)
    requires ProductWrites(l, ts, x) && UnaryWrites(u, us, y)
    ensures ProductWrites(p, ts + [Op(op)] + us, Binary(op, x, y))
  {
    p := ProductOf(l, op, u);
    forall k ensures PrintProduct(p, k) == ts + [Op(op)] + us + k {
      assert ts + ([Op(op)] + (us + k)) == ts + [Op(op)] + us + k;
    }
  }

  lemma TermWrites(p: ProductTree, ts: seq<Token>, e: Expr) returns (s: SumTree)
    requires ProductWrites(p, ts, e)
    ensures SumWrites(s, ts, e)
  {
    s := Term(p);
  }

  lemma PlusWrites(l: SumTree, ts: seq<Token>, x: Expr, op: AdditiveOp, p: ProductTree, ps: seq<Token>, y: Expr)
    returns (s: SumTree)
    requires SumWrites(l, ts, x) && ProductWrites(p, ps, y)
    ensures SumWrites(s, ts + [Op(op)] + ps, Binary(op, x, y))
  {
    s := SumOf(l, op, p);
    forall k ensures PrintSum(s, k) == ts + [Op(op)] + ps + k {
      assert ts + ([Op(op)] + (ps + k)) == ts + [Op(op)] + ps + k;
    }
  }

  /** `l op r` for an operator that binds less tightly than a power. */
  lemma BinaryWrites(l: UnaryTree, ts: seq<Token>, x: Expr, op: Operator, r: UnaryTree, us: seq<Token>, y: Expr)
    returns (s: SumTree)
    requires UnaryWrites(l, ts, x) && UnaryWrites(r, us, y) && op != Pow
    ensures SumWrites(s, ts + [Op(op)] + us, Binary(op, x, y))
  {
    var f := FactorWrites(l, ts, x);
    if IsAdditive(op) {
      var t := TermWrites(f, ts, x);
      var g := FactorWrites(r, us, y);
      s := PlusWrites(t, ts, x, op, g, us, y);
    } else {
      var p := TimesWrites(f, ts, x, op, r, us, y);
      s := TermWrites(p, ts + [Op(op)] + us, Binary(op, x, y));
    }
  }

  /** Two operators that are no powers. */
  lemma TripleWrites(a: JsString, p: Operator, b: JsString, q: Operator, c: JsString) returns (s: SumTree)
    requires p != Pow && q != Pow
    ensures SumWrites(s, [Num(a)] + [Op(p)] + [Num(b)] + [Op(q)] + [Num(c)],
                      Grouped(Literal(a), p, Literal(b), q, Literal(c)))
  {
    var x := LiteralWrites(a);
    var y := LiteralWrites(b);
    var z := LiteralWrites(c);
    var f := FactorWrites(x, [Num(a)], Literal(a));
    var g := FactorWrites(y, [Num(b)], Literal(b));
    var h := FactorWrites(z, [Num(c)], Literal(c));
    var left, both := [Num(a)] + [Op(p)] + [Num(b)], Binary(p, Literal(a), Literal(b));
    if IsAdditive(q) {
      var t := BinaryWrites(x, [Num(a)], Literal(a), p, y, [Num(b)], Literal(b));
      s := PlusWrites(t, left, both, q, h, [Num(c)], Literal(c));
    } else if IsAdditive(p) {
      var t := TermWrites(f, [Num(a)], Literal(a));
      var r := TimesWrites(g, [Num(b)], Literal(b), q, z, [Num(c)], Literal(c));
      s := PlusWrites(t, [Num(a)], Literal(a), p, r, [Num(b)] + [Op(q)] + [Num(c)],
        Binary(q, Literal(b), Literal(c)));
      assert [Num(a)] + [Op(p)] + ([Num(b)] + [Op(q)] + [Num(c)]) == left + [Op(q)] + [Num(c)];
    } else {
      var t := TimesWrites(f, [Num(a)], Literal(a), p, y, [Num(b)], Literal(b));
      var r := TimesWrites(t, left, both, q, z, [Num(c)], Literal(c));
      s := TermWrites(r, left + [Op(q)] + [Num(c)], Binary(q, both, Literal(c)));
    }
  }

  /** A power on either side, or on both. */
  lemma PowersWrite(a: JsString, p: Operator, b: JsString, q: Operator, c: JsString) returns (s: SumTree)
    requires p == Pow || q == Pow
    ensures SumWrites(s, [Num(a)] + [Op(p)] + [Num(b)] + [Op(q)] + [Num(c)],
                      Grouped(Literal(a), p, Literal(b), q, Literal(c)))
  {
    var x := LiteralWrites(a);
    var y := LiteralWrites(b);
    var z := LiteralWrites(c);
    if q == Pow {
      var r := PowerWrites(b, z, [Num(c)], Literal(c));
      var bc, e := [Num(b), Op(Pow)] + [Num(c)], Binary(Pow, Literal(b), Literal(c));
      if p == Pow {
        var u := PowerWrites(a, r, bc, e);
        var f := FactorWrites(u, [Num(a), Op(Pow)] + bc, Binary(Pow, Literal(a), e));
        s := TermWrites(f, [Num(a), Op(Pow)] + bc, Binary(Pow, Literal(a), e));
        assert [Num(a), Op(Pow)] + bc == [Num(a)] + [Op(p)] + [Num(b)] + [Op(q)] + [Num(c)];
      } else {
        s := BinaryWrites(x, [Num(a)], Literal(a), p, r, bc, e);
        assert [Num(a)] + [Op(p)] + bc == [Num(a)] + [Op(p)] + [Num(b)] + [Op(q)] + [Num(c)];
      }
    } else {
      var l := PowerWrites(a, y, [Num(b)], Literal(b));
      var ab := [Num(a), Op(Pow)] + [Num(b)];
      s := BinaryWrites(l, ab, Binary(Pow, Literal(a), Literal(b)), q, z, [Num(c)], Literal(c));
      assert ab == [Num(a)] + [Op(p)] + [Num(b)];
    }
  }

  lemma WrittenAnswer<N(!new)>(alg: Algebra<N>, s: SumTree, ts: seq<Token>, e: Expr)
    requires SumWrites(s, ts, e)
    ensures CalculateTokens(alg, ts) == Answer(alg, e)
  {
    assert PrintSum(s, []) == ts + [] == ts;
    CalculateTree(alg, s);
  }

  /** Three numbers and two operators: how they are grouped. */
  lemma GroupingExact<N(!new)>(alg: Algebra<N>, a: JsString, p: Operator, b: JsString, q: Operator, c: JsString)
    ensures CalculateTokens(alg, [Num(a)] + [Op(p)] + [Num(b)] + [Op(q)] + [Num(c)]) ==
      Answer(alg, Grouped(Literal(a), p, Literal(b), q, Literal(c)))
  {
    var ts, e := [Num(a)] + [Op(p)] + [Num(b)] + [Op(q)] + [Num(c)], Grouped(Literal(a), p, Literal(b), q, Literal(c));
    if p == Pow || q == Pow {
      var s := PowersWrite(a, p, b, q, c);
      WrittenAnswer(alg, s, ts, e);
    } else {
      var s := TripleWrites(a, p, b, q, c);
      WrittenAnswer(alg, s, ts, e);
    }
  }

  /** A sign applies to a whole power, but otherwise to the number behind it only. */
  lemma SignExact<N(!new)>(alg: Algebra<N>, negative: bool, a: JsString, p: Operator, b: JsString)
    ensures CalculateTokens(alg, [Op(if negative then Sub else Add)] + [Num(a)] + [Op(p)] + [Num(b)]) == Answer(alg,
      if p == Pow then Signed(negative, Binary(p, Literal(a), Literal(b)))
      else Binary(p, Signed(negative, Literal(a)), Literal(b)))
  {
    var sign := [Op(if negative then Sub else Add)];
    var x := LiteralWrites(a);
    var y := LiteralWrites(b);
    if p == Pow {
      var ab, e := [Num(a), Op(Pow)] + [Num(b)], Binary(Pow, Literal(a), Literal(b));
      var u := PowerWrites(a, y, [Num(b)], Literal(b));
      var v := SignWrites(negative, u, ab, e);
      var f := FactorWrites(v, sign + ab, Signed(negative, e));
      var s := TermWrites(f, sign + ab, Signed(negative, e));
      assert sign + ab == sign + [Num(a)] + [Op(p)] + [Num(b)];
      WrittenAnswer(alg, s, sign + ab, Signed(negative, e));
    } else {
      var u := SignWrites(negative, x, [Num(a)], Literal(a));
      var s := BinaryWrites(u, sign + [Num(a)], Signed(negative, Literal(a)), p, y, [Num(b)], Literal(b));
      WrittenAnswer(alg, s, sign + [Num(a)] + [Op(p)] + [Num(b)],
        Binary(p, Signed(negative, Literal(a)), Literal(b)));
    }
  }

  /** A percent sign applies to the number before it only. */
  lemma PercentExact<N(!new)>(alg: Algebra<N>, a: JsString, p: Operator, b: JsString)
    ensures CalculateTokens(alg, [Num(a)] + [Op(p)] + [Num(b), Percent]) ==
      Answer(alg, Binary(p, Literal(a), PercentOf(Literal(b))))
  {
    var x := LiteralWrites(a);
    var y := PercentWrites(b);
    var ts, e := [Num(b), Percent], PercentOf(Literal(b));
    if p == Pow {
      var u := PowerWrites(a, y, ts, e);
      var f := FactorWrites(u, [Num(a), Op(Pow)] + ts, Binary(p, Literal(a), e));
      var s := TermWrites(f, [Num(a), Op(Pow)] + ts, Binary(p, Literal(a), e));
      assert [Num(a), Op(Pow)] + ts == [Num(a)] + [Op(p)] + ts;
      WrittenAnswer(alg, s, [Num(a)] + [Op(p)] + ts, Binary(p, Literal(a), e));
    } else {
      var s := BinaryWrites(x, [Num(a)], Literal(a), p, y, ts, e);
      WrittenAnswer(alg, s, [Num(a)] + [Op(p)] + ts, Binary(p, Literal(a), e));
    }
  }
}
