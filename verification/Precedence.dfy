/** How operators group, said without the table of precedence levels. */
module Precedence {
  import opened Text
  import opened Expressions
  import opened Tokens
  import opened Grammar
  import opened Printing
  import RoundTrip

  /** The operators that are parsed by one loop each, those that bind least first. */
  const TIERS: seq<set<BinaryOp>> := [
    {Or}, {And}, {BitOr}, {BitXor}, {BitAnd}, {Equal, NotEqual, Is, Isnt}, {Less, LessEq, Greater, GreaterEq},
    {ShiftLeft, ShiftRight, UShiftRight}, {Add, Sub}, {Mul, Div, Mod}]

  lemma TierOfOperator(op: BinaryOp, i: nat)
    requires i < |TIERS| && op in TIERS[i]
    ensures PrecedenceLevel(op) == i + 1 <= 10
  {
  }

  lemma EveryOperatorHasATier(op: BinaryOp)
    requires !op.Subscript?
    ensures exists i :: 0 <= i < |TIERS| && op in TIERS[i]
  {
    var i := PrecedenceLevel(op) - 1;
    assert op in TIERS[i];
  }

  function Single(v: Value): (t: seq<Token>)
    requires !v.AdValue?
  {
    [LiteralToken(v)]
  }

  /** Of two operators in a row the first takes its operands first if it stands in the same set as the second
      or in a later one; otherwise the second does. */
  lemma TwoOperators(op1: BinaryOp, i: nat, op2: BinaryOp, j: nat, a: Value, b: Value, c: Value)
    requires i < |TIERS| && op1 in TIERS[i] && j < |TIERS| && op2 in TIERS[j]
    requires !a.AdValue? && !b.AdValue? && !c.AdValue?
    ensures var x, y, z := Literal(a), Literal(b), Literal(c);
            ParseExpression(Single(a) + [OpTok(op1)] + Single(b) + [OpTok(op2)] + Single(c)) ==
            Parse(if i >= j then Binary(op2, Binary(op1, x, y), z) else Binary(op1, x, Binary(op2, y, z)), [])
  {
    hide ParseExpression;
    TierOfOperator(op1, i);
    TierOfOperator(op2, j);
    if i >= j {
      FirstFirst(op1, op2, a, b, c);
    } else {
      SecondFirst(op1, op2, a, b, c);
    }
  }

  lemma LiteralPair(op: BinaryOp, a: Value, b: Value)
    requires PrecedenceLevel(op) <= 10 && !a.AdValue? && !b.AdValue?
    ensures var e := Binary(op, Literal(a), Literal(b));
            WellFormed(e) && Tier(e) == PrecedenceLevel(op) && Unparse(e) == Single(a) + [OpTok(op)] + Single(b)
    ensures WellFormed(Literal(a)) && Tier(Literal(a)) == 13 && Unparse(Literal(a)) == Single(a)
    ensures WellFormed(Literal(b)) && Tier(Literal(b)) == 13 && Unparse(Literal(b)) == Single(b)
  {
    assert Tier(Literal(a)) == Tier(Literal(b)) == 13;
  }

  lemma FirstFirst(op1: BinaryOp, op2: BinaryOp, a: Value, b: Value, c: Value)
    requires PrecedenceLevel(op2) <= PrecedenceLevel(op1) <= 10 && !a.AdValue? && !b.AdValue? && !c.AdValue?
    ensures ParseExpression(Single(a) + [OpTok(op1)] + Single(b) + [OpTok(op2)] + Single(c))
         == Parse(Binary(op2, Binary(op1, Literal(a), Literal(b)), Literal(c)), [])
  {
    hide ParseExpression;
    hide PrecedenceLevel;
    LiteralPair(op1, a, b);
    LiteralPair(op2, c, c);
    SubscriptLevel();
    RoundTrip.ParseOfUnparse(Binary(op2, Binary(op1, Literal(a), Literal(b)), Literal(c)));
  }

  lemma SecondFirst(op1: BinaryOp, op2: BinaryOp, a: Value, b: Value, c: Value)
    requires PrecedenceLevel(op1) < PrecedenceLevel(op2) <= 10 && !a.AdValue? && !b.AdValue? && !c.AdValue?
    ensures ParseExpression(Single(a) + [OpTok(op1)] + Single(b) + [OpTok(op2)] + Single(c))
         == Parse(Binary(op1, Literal(a), Binary(op2, Literal(b), Literal(c))), [])
  {
    hide ParseExpression;
    hide PrecedenceLevel;
    LiteralPair(op2, b, c);
    LiteralPair(op1, a, a);
    SubscriptLevel();
    var toks := Single(a) + [OpTok(op1)] + (Single(b) + [OpTok(op2)] + Single(c));
    assert Single(a) + [OpTok(op1)] + Single(b) + [OpTok(op2)] + Single(c) == toks;
    RoundTrip.ParseOfUnparse(Binary(op1, Literal(a), Binary(op2, Literal(b), Literal(c))));
  }

  lemma SubscriptLevel()
    ensures PrecedenceLevel(Subscript) == 12
  {
  }

  /** A prefix operator takes its operand before any binary operator, and after selections and
      subscripts. */
  lemma PrefixOperators(uop: UnaryOp, op: BinaryOp, a: string, b: string)
    requires !uop.Parentheses? && !op.Subscript?
    ensures var x, y := Ref(a, false), Ref(b, false);
            && ParseExpression([UnaryToken(uop), IdentTok(a), OpTok(op), IdentTok(b)])
               == Parse(Binary(op, Unary(uop, x), y), [])
            && ParseExpression([IdentTok(a), OpTok(op), UnaryToken(uop), IdentTok(b)])
               == Parse(Binary(op, x, Unary(uop, y)), [])
            && ParseExpression([UnaryToken(uop), IdentTok(a), Dot, IdentTok(b)])
               == Parse(Unary(uop, Select(x, b)), [])
            && ParseExpression([UnaryToken(uop), IdentTok(a), OpenBox, IdentTok(b), CloseBox])
               == Parse(Unary(uop, Binary(Subscript, x, y)), [])
  {
    var x, y := Ref(a, false), Ref(b, false);
    var e1, e2 := Binary(op, Unary(uop, x), y), Binary(op, x, Unary(uop, y));
    var e3, e4 := Unary(uop, Select(x, b)), Unary(uop, Binary(Subscript, x, y));
    Small(x, y, uop, op, b);
    assert Unparse(x) == [IdentTok(a)] && Unparse(y) == [IdentTok(b)];
    assert Unparse(Unary(uop, x)) == [UnaryToken(uop), IdentTok(a)];
    assert Unparse(Unary(uop, y)) == [UnaryToken(uop), IdentTok(b)];
    assert Unparse(e1) == [UnaryToken(uop), IdentTok(a), OpTok(op), IdentTok(b)];
    assert Unparse(e2) == [IdentTok(a), OpTok(op), UnaryToken(uop), IdentTok(b)];
    assert Unparse(e3) == [UnaryToken(uop), IdentTok(a), Dot, IdentTok(b)];
    assert Unparse(e4) == [UnaryToken(uop), IdentTok(a), OpenBox, IdentTok(b), CloseBox];
    RoundTrip.ParseOfUnparse(e1);
    RoundTrip.ParseOfUnparse(e2);
    RoundTrip.ParseOfUnparse(e3);
    RoundTrip.ParseOfUnparse(e4);
  }

  lemma Small(x: Expr, y: Expr, uop: UnaryOp, op: BinaryOp, attr: string)
    requires x.Ref? && y.Ref? && !uop.Parentheses? && !op.Subscript?
    ensures PrecedenceLevel(op) <= 10 && Tier(Binary(op, x, y)) == PrecedenceLevel(op)
    ensures Tier(x) == Tier(y) == 13 && WellFormed(x) && WellFormed(y) && WellFormed(Binary(op, x, y))
    ensures Tier(Unary(uop, x)) == Tier(Unary(uop, y)) == 11
    ensures Tier(Select(x, attr)) == Tier(Binary(Subscript, x, y)) == 12
    ensures WellFormed(Select(x, attr)) && WellFormed(Binary(Subscript, x, y))
    ensures WellFormed(Unary(uop, x)) && WellFormed(Unary(uop, y))
  {
  }

  /** A conditional takes its operands last of all. */
  lemma LooseConditional(op: BinaryOp, a: string, b: string, c: string, d: string, e: string)
    requires !op.Subscript?
    ensures var u, v, w, x, y := Ref(a, false), Ref(b, false), Ref(c, false), Ref(d, false), Ref(e, false);
            ParseExpression([IdentTok(a), OpTok(op), IdentTok(b)] + [QMark] + [IdentTok(c)] + [Colon]
                            + [IdentTok(d), OpTok(op), IdentTok(e)])
            == Parse(Ternary(Binary(op, u, v), w, Binary(op, x, y)), [])
  {
    hide ParseExpression;
    var u, v, w, x, y := Ref(a, false), Ref(b, false), Ref(c, false), Ref(d, false), Ref(e, false);
    Small(u, v, UnaryPlus, op, "");
    Small(x, y, UnaryPlus, op, "");
    Pair(op, a, b);
    Pair(op, d, e);
    assert WellFormed(w) && Unparse(w) == [IdentTok(c)];
    RoundTrip.ParseOfUnparse(Ternary(Binary(op, u, v), w, Binary(op, x, y)));
  }

  lemma Pair(op: BinaryOp, a: string, b: string)
    requires !op.Subscript?
    ensures WellFormed(Binary(op, Ref(a, false), Ref(b, false)))
    ensures Unparse(Binary(op, Ref(a, false), Ref(b, false))) == [IdentTok(a), OpTok(op), IdentTok(b)]
  {
    Small(Ref(a, false), Ref(b, false), UnaryPlus, op, "");
    assert Unparse(Ref(a, false)) == [IdentTok(a)] && Unparse(Ref(b, false)) == [IdentTok(b)];
  }

  /** Conditionals group to the right. */
  lemma NestedConditionals(a: string, b: string, c: string, d: string, e: string)
    ensures var u, v, w, x, y := Ref(a, false), Ref(b, false), Ref(c, false), Ref(d, false), Ref(e, false);
            ParseExpression([IdentTok(a)] + [QMark] + [IdentTok(b)] + [Colon]
                            + ([IdentTok(c)] + [QMark] + [IdentTok(d)] + [Colon] + [IdentTok(e)]))
            == Parse(Ternary(u, v, Ternary(w, x, y)), [])
  {
    hide ParseExpression;
    var u, v, w, x, y := Ref(a, false), Ref(b, false), Ref(c, false), Ref(d, false), Ref(e, false);
    Small(u, v, UnaryPlus, Add, "");
    Small(w, x, UnaryPlus, Add, "");
    Small(y, y, UnaryPlus, Add, "");
    assert Unparse(u) == [IdentTok(a)] && Unparse(v) == [IdentTok(b)] && Unparse(w) == [IdentTok(c)];
    assert Unparse(x) == [IdentTok(d)] && Unparse(y) == [IdentTok(e)];
    var inner := Ternary(w, x, y);
    assert WellFormed(inner);
    assert Unparse(inner) == [IdentTok(c)] + [QMark] + [IdentTok(d)] + [Colon] + [IdentTok(e)];
    RoundTrip.ParseOfUnparse(Ternary(u, v, inner));
  }
}
