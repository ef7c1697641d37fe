/** Printing a tree and parsing it back. */
module RoundTrip {
  import opened Text
  import opened Expressions
  import opened Tokens
  import opened Grammar
  import opened Printing

  /** The tokens an expression can start with. */
  predicate Starts(t: Token) {
    LiteralOf(t).Some? || t.IdentTok? || t == Dot || t == OpenParen || t == OpenBox || t == OpenBrace
    || UnaryOf(t).Some?
  }

  lemma {:induction false} FirstToken(e: Expr)
    requires WellFormed(e)
    ensures Starts(Unparse(e)[0])
    ensures Tier(e) >= 12 ==> UnaryOf(Unparse(e)[0]).None?
    decreases e
  {
    match e
    case Select(base, _) => FirstToken(base);
    case Binary(_, l, _) => FirstToken(l);
    case Ternary(c, _, _) => FirstToken(c);
    case _ =>
  }

  /** ParsePrimary followed by ParsePostfix. */
  function ParseChain(toks: seq<Token>): (r: Parsed<Expr>) {
    match ParsePrimary(toks)
    case NoParse => NoParse
    case Parse(e, rest) => ParsePostfix(e, rest)
  }

  // One step of each production, given what its parts parse to.

  lemma {:induction false} ConditionalStep(
    toks: seq<Token>, c: Expr, t: Expr, f: Expr, mid: seq<Token>, last: seq<Token>, rest: seq<Token>)
    requires ParseTier(1, toks) == Parse(c, [QMark] + mid)
    requires ParseExpression(mid) == Parse(t, [Colon] + last)
    requires ParseExpression(last) == Parse(f, rest)
    ensures ParseExpression(toks) == Parse(Ternary(c, t, f), rest)
  {
    assert ([QMark] + mid)[1..] == mid && ([Colon] + last)[1..] == last;
  }

  lemma {:induction false} OperatorStep(n: nat, op: BinaryOp, l: Expr, r: Expr, after: seq<Token>, rest: seq<Token>)
    requires 1 <= n <= 10 && PrecedenceLevel(op) == n
    requires ParseTier(n + 1, after) == Parse(r, rest)
    ensures ParseOperators(n, l, [OpTok(op)] + after) == ParseOperators(n, Binary(op, l, r), rest)
  {
    assert ([OpTok(op)] + after)[1..] == after;
  }

  lemma {:induction false} SelectStep(base: Expr, attr: string, rest: seq<Token>)
    ensures ParsePostfix(base, [Dot, IdentTok(attr)] + rest) == ParsePostfix(Select(base, attr), rest)
  {
    var toks := [Dot, IdentTok(attr)] + rest;
    assert toks[1..][0] == toks[1] && toks[2..] == rest;
  }

  lemma {:induction false} SubscriptStep(base: Expr, index: Expr, inside: seq<Token>, rest: seq<Token>)
    requires ParseExpression(inside) == Parse(index, [CloseBox] + rest)
    ensures ParsePostfix(base, [OpenBox] + inside) == ParsePostfix(Binary(Subscript, base, index), rest)
  {
    assert ([OpenBox] + inside)[1..] == inside && ([CloseBox] + rest)[1..] == rest;
  }

  lemma {:induction false} ParenStep(e: Expr, inside: seq<Token>, rest: seq<Token>)
    requires ParseExpression(inside) == Parse(e, [CloseParen] + rest)
    ensures ParsePrimary([OpenParen] + inside) == Parse(Unary(Parentheses, e), rest)
  {
    assert ([OpenParen] + inside)[1..] == inside && ([CloseParen] + rest)[1..] == rest;
  }

  lemma {:induction false} CallStep(fn: string, args: seq<Expr>, inside: seq<Token>, rest: seq<Token>)
    requires !IsTimeCall(fn, args)
    requires ParseItems([], CloseParen, inside, true) == Parse(args, rest)
    ensures ParsePrimary([IdentTok(fn), OpenParen] + inside) == Parse(Call(fn, args), rest)
  {
    var toks := [IdentTok(fn), OpenParen] + inside;
    assert toks[1..][0] == OpenParen && toks[2..] == inside;
  }

  lemma {:induction false} ListStep(elems: seq<Expr>, inside: seq<Token>, rest: seq<Token>)
    requires ParseItems([], CloseBrace, inside, true) == Parse(elems, rest)
    ensures ParsePrimary([OpenBrace] + inside) == Parse(ExprList(elems), rest)
  {
    assert ([OpenBrace] + inside)[1..] == inside;
  }

  lemma {:induction false} AdStep(attrs: seq<Attr>, inside: seq<Token>, rest: seq<Token>)
    requires ParseAttributes([], inside, true) == Parse(attrs, rest)
    ensures ParsePrimary([OpenBox] + inside) == Parse(Ad(attrs), rest)
  {
    assert ([OpenBox] + inside)[1..] == inside;
  }

  lemma {:induction false} ReferenceStep(name: string, rest: seq<Token>)
    ensures Peek(rest) != OpenParen ==> ParsePrimary([IdentTok(name)] + rest) == Parse(Ref(name, false), rest)
    ensures ParsePrimary([Dot, IdentTok(name)] + rest) == Parse(Ref(name, true), rest)
  {
    assert ([IdentTok(name)] + rest)[1..] == rest;
    var toks := [Dot, IdentTok(name)] + rest;
    assert toks[1..][0] == toks[1] && toks[2..] == rest;
  }

  lemma {:induction false} LiteralStep(v: Value, rest: seq<Token>)
    requires !v.AdValue?
    ensures ParsePrimary([LiteralToken(v)] + rest) == Parse(Literal(v), rest)
  {
    assert ([LiteralToken(v)] + rest)[1..] == rest;
  }

  lemma {:induction false} UnaryStep(op: UnaryOp, e: Expr, inside: seq<Token>, rest: seq<Token>)
    requires !op.Parentheses? && ParseUnary(inside) == Parse(e, rest)
    ensures ParseUnary([UnaryToken(op)] + inside) == Parse(Unary(op, e), rest)
  {
    assert ([UnaryToken(op)] + inside)[1..] == inside;
  }

  lemma {:induction false} ChainStep(toks: seq<Token>)
    requires UnaryOf(Peek(toks)).None?
    ensures ParseUnary(toks) == ParseChain(toks)
  {
  }

  // How the printed tokens of each construct fall apart.

  lemma {:induction false} TernaryTokens(e: Expr, rest: seq<Token>)
    requires WellFormed(e) && e.Ternary?
    ensures Unparse(e) + rest
         == Unparse(e.cond) + ([QMark] + (Unparse(e.onTrue) + ([Colon] + (Unparse(e.onFalse) + rest))))
  {
    var c, t, f := Unparse(e.cond), Unparse(e.onTrue), Unparse(e.onFalse);
    Rebracket5(c, [QMark], t, [Colon], f, rest);
  }

  lemma {:induction false} Rebracket5(
    a: seq<Token>, b: seq<Token>, c: seq<Token>, d: seq<Token>, e: seq<Token>, rest: seq<Token>)
    ensures a + b + c + d + e + rest == a + (b + (c + (d + (e + rest))))
  {
  }

  lemma {:induction false} Rebracket4(a: seq<Token>, b: seq<Token>, c: seq<Token>, d: seq<Token>, rest: seq<Token>)
    ensures a + b + c + d + rest == a + (b + (c + (d + rest)))
  {
  }

  lemma {:induction false} Rebracket3(a: seq<Token>, b: seq<Token>, c: seq<Token>, rest: seq<Token>)
    ensures a + b + c + rest == a + (b + (c + rest))
  {
  }

  lemma {:induction false} ExpressionBack(e: Expr, rest: seq<Token>)
    requires WellFormed(e) && Continues(Peek(rest)) == -1
    ensures ParseExpression(Unparse(e) + rest) == Parse(e, rest)
    decreases e, 20
  {
    if e.Ternary? {
      hide ParseExpression;
      hide ParseTier;
      var last := Unparse(e.onFalse) + rest;
      var mid := Unparse(e.onTrue) + ([Colon] + last);
      ExpressionBack(e.onFalse, rest);
      ExpressionBack(e.onTrue, [Colon] + last);
      TierBack(1, e.cond, [QMark] + mid);
      TernaryTokens(e, rest);
      assert ParseOperators(1, e.cond, [QMark] + mid) == Parse(e.cond, [QMark] + mid);
      ConditionalStep(Unparse(e) + rest, e.cond, e.onTrue, e.onFalse, mid, last, rest);
    } else {
      TierBack(1, e, rest);
    }
  }

  /** Printed operands of a tier are read up to the first token that cannot belong to them, and
      then the tier's own operators are looked for. */
  lemma {:induction false} TierBack(n: nat, e: Expr, rest: seq<Token>)
    requires 1 <= n <= 11
    requires WellFormed(e) && Tier(e) >= n && Continues(Peek(rest)) <= n
    ensures ParseTier(n, Unparse(e) + rest) == if n == 11 then Parse(e, rest) else ParseOperators(n, e, rest)
    decreases e, 15 - n
  {
    if n == 11 {
      UnaryBack(e, rest);
    } else if Tier(e) > n {
      TierBack(n + 1, e, rest);
    } else {
      OperatorBack(n, e, rest);
    }
  }

  lemma {:induction false} OperatorBack(n: nat, e: Expr, rest: seq<Token>)
    requires 1 <= n <= 10
    requires WellFormed(e) && Tier(e) == n && Continues(Peek(rest)) <= n
    ensures ParseTier(n, Unparse(e) + rest) == ParseOperators(n, e, rest)
    decreases e, 0
  {
    hide ParseTier;
    var after := Unparse(e.right) + rest;
    var tail := [OpTok(e.op)] + after;
    TierBack(n, e.left, tail);
    TierBack(n + 1, e.right, rest);
    OperatorStep(n, e.op, e.left, e.right, after, rest);
    Rebracket3(Unparse(e.left), [OpTok(e.op)], Unparse(e.right), rest);
  }

  lemma {:induction false} UnaryBack(e: Expr, rest: seq<Token>)
    requires WellFormed(e) && Tier(e) >= 11 && Continues(Peek(rest)) <= 11
    ensures ParseUnary(Unparse(e) + rest) == Parse(e, rest)
    decreases e, 3
  {
    hide ParseUnary;
    if Tier(e) == 11 {
      UnaryBack(e.arg, rest);
      UnaryStep(e.uop, e.arg, Unparse(e.arg) + rest, rest);
      assert Unparse(e) + rest == [UnaryToken(e.uop)] + (Unparse(e.arg) + rest);
    } else {
      FirstToken(e);
      ChainBack(e, rest);
      assert Peek(Unparse(e) + rest) == Unparse(e)[0];
      ChainStep(Unparse(e) + rest);
      assert ParsePostfix(e, rest) == Parse(e, rest);
    }
  }

  lemma {:induction false} ChainBack(e: Expr, rest: seq<Token>)
    requires WellFormed(e) && Tier(e) >= 12 && Continues(Peek(rest)) <= 12
    ensures ParseChain(Unparse(e) + rest) == ParsePostfix(e, rest)
    decreases e, 2
  {
    hide ParsePrimary;
    hide ParsePostfix;
    hide ParseExpression;
    if e.Select? {
      var tail := [Dot, IdentTok(e.attr)] + rest;
      ChainBack(e.base, tail);
      SelectStep(e.base, e.attr, rest);
      assert Unparse(e) + rest == Unparse(e.base) + tail;
    } else if e.Binary? {
      var inside := Unparse(e.right) + ([CloseBox] + rest);
      ChainBack(e.left, [OpenBox] + inside);
      ExpressionBack(e.right, [CloseBox] + rest);
      SubscriptStep(e.left, e.right, inside, rest);
      Rebracket4(Unparse(e.left), [OpenBox], Unparse(e.right), [CloseBox], rest);
    } else {
      PrimaryBack(e, rest);
    }
  }

  lemma {:induction false} PrimaryBack(e: Expr, rest: seq<Token>)
    requires WellFormed(e) && Tier(e) == 13 && Continues(Peek(rest)) <= 12
    ensures ParsePrimary(Unparse(e) + rest) == Parse(e, rest)
    decreases e, 1
  {
    hide ParsePrimary;
    hide ParseExpression;
    hide ParseItems;
    hide ParseAttributes;
    match e
    case Literal(v) => LiteralStep(v, rest);
    case Ref(name, absolute) =>
      ReferenceStep(name, rest);
      assert [] + [IdentTok(name)] == [IdentTok(name)] && [Dot] + [IdentTok(name)] == [Dot, IdentTok(name)];
    case Unary(_, arg) =>
      var inside := Unparse(arg) + ([CloseParen] + rest);
      ExpressionBack(arg, [CloseParen] + rest);
      ParenStep(arg, inside, rest);
      Rebracket3([OpenParen], Unparse(arg), [CloseParen], rest);
    case Call(fn, args) =>
      ItemsBack([], args, CloseParen, rest, true);
      Rebracket3([IdentTok(fn), OpenParen], UnparseItems(args), [CloseParen], rest);
      assert [] + args == args;
      CallStep(fn, args, UnparseItems(args) + ([CloseParen] + rest), rest);
    case ExprList(elems) =>
      ItemsBack([], elems, CloseBrace, rest, true);
      Rebracket3([OpenBrace], UnparseItems(elems), [CloseBrace], rest);
      assert [] + elems == elems;
      ListStep(elems, UnparseItems(elems) + ([CloseBrace] + rest), rest);
    case Ad(attrs) =>
      AttributesBack([], attrs, rest);
      Rebracket3([OpenBox], UnparseAttributes(attrs), [CloseBox], rest);
      assert [] + attrs == attrs;
      AdStep(attrs, UnparseAttributes(attrs) + ([CloseBox] + rest), rest);
  }

  lemma {:induction false} ItemsStep(
    acc: seq<Expr>, e: Expr, close: Token, toks: seq<Token>, tail: seq<Token>, mayClose: bool)
    requires close == CloseParen || close == CloseBrace
    requires Peek(toks) != close && ParseExpression(toks) == Parse(e, tail)
    ensures Peek(tail) == close ==> ParseItems(acc, close, toks, mayClose) == Parse(acc + [e], tail[1..])
    ensures Peek(tail) == Comma ==>
      ParseItems(acc, close, toks, mayClose) == ParseItems(acc + [e], close, tail[1..], false)
  {
  }

  lemma {:induction false} ItemsEnd(acc: seq<Expr>, close: Token, rest: seq<Token>)
    requires close == CloseParen || close == CloseBrace
    ensures ParseItems(acc, close, [] + ([close] + rest), true) == Parse(acc + [], rest)
  {
    var closing := [close] + rest;
    assert [] + closing == closing && closing[1..] == rest;
    assert acc + [] == acc;
  }

  lemma {:induction false} ItemTokens(es: seq<Expr>, closing: seq<Token>)
    requires es != [] && forall i :: 0 <= i < |es| ==> WellFormed(es[i])
    ensures var more := UnparseItems(es[1..]) + closing;
            UnparseItems(es) + closing == Unparse(es[0]) + (if |es| == 1 then more else [Comma] + more)
  {
    var sep := if |es| == 1 then [] else [Comma];
    Rebracket3(Unparse(es[0]), sep, UnparseItems(es[1..]), closing);
    var more := UnparseItems(es[1..]) + closing;
    assert [] + more == more;
  }

  lemma {:induction false} ItemsBack(acc: seq<Expr>, es: seq<Expr>, close: Token, rest: seq<Token>, mayClose: bool)
    requires close == CloseParen || close == CloseBrace
    requires forall i :: 0 <= i < |es| ==> WellFormed(es[i])
    requires es == [] ==> mayClose
    ensures ParseItems(acc, close, UnparseItems(es) + ([close] + rest), mayClose) == Parse(acc + es, rest)
    decreases es, 0
  {
    hide ParseItems;
    hide ParseExpression;
    hide Unparse;
    hide WellFormed;
    if es == [] {
      ItemsEnd(acc, close, rest);
    } else {
      var closing := [close] + rest;
      var more := UnparseItems(es[1..]) + closing;
      var tail := if |es| == 1 then more else [Comma] + more;
      ItemTokens(es, closing);
      FirstToken(es[0]);
      ExpressionBack(es[0], tail);
      ItemsStep(acc, es[0], close, Unparse(es[0]) + tail, tail, mayClose);
      assert acc + [es[0]] + es[1..] == acc + es;
      if |es| > 1 {
        assert tail[1..] == more;
        ItemsBack(acc + [es[0]], es[1..], close, rest, false);
      } else {
        assert more == closing && tail[1..] == rest;
        assert acc + [es[0]] == acc + es;
      }
    }
  }

  lemma {:induction false} InsertNew(acc: seq<Attr>, name: string, e: Expr)
    requires forall i :: 0 <= i < |acc| ==> !SameName(acc[i].name, name)
    ensures Insert(acc, name, e) == acc + [Attr(name, e)]
  {
    if acc != [] {
      InsertNew(acc[1..], name, e);
    }
  }

  lemma {:induction false} AttributesStep(acc: seq<Attr>, a: Attr, toks: seq<Token>, tail: seq<Token>)
    requires a.name != "" && ParseExpression(toks) == Parse(a.expr, tail)
    requires Peek(tail) == Semicolon || Peek(tail) == CloseBox
    ensures ParseAttributes(acc, [IdentTok(a.name), Assign] + toks, true)
         == ParseAttributes(Insert(acc, a.name, a.expr), SkipSemicolons(tail), true)
  {
    var all := [IdentTok(a.name), Assign] + toks;
    assert all[1..][0] == Assign && all[2..] == toks;
  }

  lemma {:induction false} AttributeTokens(attrs: seq<Attr>, closing: seq<Token>)
    requires attrs != [] && forall i :: 0 <= i < |attrs| ==> WellFormed(attrs[i].expr)
    ensures var more := UnparseAttributes(attrs[1..]) + closing;
            UnparseAttributes(attrs) + closing
            == [IdentTok(attrs[0].name), Assign]
               + (Unparse(attrs[0].expr) + (if |attrs| == 1 then more else [Semicolon] + more))
  {
    var sep := if |attrs| == 1 then [] else [Semicolon];
    Rebracket4([IdentTok(attrs[0].name), Assign], Unparse(attrs[0].expr), sep, UnparseAttributes(attrs[1..]), closing);
    var more := UnparseAttributes(attrs[1..]) + closing;
    assert [] + more == more;
  }

  lemma {:induction false} AttributesEnd(acc: seq<Attr>, rest: seq<Token>)
    ensures ParseAttributes(acc, [] + ([CloseBox] + rest), true) == Parse(acc + [], rest)
  {
    var closing := [CloseBox] + rest;
    assert [] + closing == closing && closing[1..] == rest;
    assert acc + [] == acc;
  }

  lemma {:induction false} AttributesBack(acc: seq<Attr>, attrs: seq<Attr>, rest: seq<Token>)
    requires Distinct(acc + attrs)
    requires forall i :: 0 <= i < |attrs| ==> WellFormed(attrs[i].expr)
    ensures ParseAttributes(acc, UnparseAttributes(attrs) + ([CloseBox] + rest), true) == Parse(acc + attrs, rest)
    decreases attrs, 0
  {
    hide ParseAttributes;
    hide ParseExpression;
    hide Unparse;
    hide WellFormed;
    hide Distinct;
    hide Insert;
    hide SkipSemicolons;
    hide SameName;
    if attrs == [] {
      AttributesEnd(acc, rest);
    } else {
      var closing := [CloseBox] + rest;
      var a := attrs[0];
      var more := UnparseAttributes(attrs[1..]) + closing;
      var tail := if |attrs| == 1 then more else [Semicolon] + more;
      AttributeTokens(attrs, closing);
      ExpressionBack(a.expr, tail);
      NextAttributeStart(attrs, closing);
      NewName(acc, attrs);
      AttributesStep(acc, a, Unparse(a.expr) + tail, tail);
      InsertNew(acc, a.name, a.expr);
      OneOver(acc, attrs);
      AttributesBack(acc + [a], attrs[1..], rest);
    }
  }

  lemma OneOver(acc: seq<Attr>, attrs: seq<Attr>)
    requires attrs != []
    ensures (acc + [attrs[0]]) + attrs[1..] == acc + attrs
  {
  }

  lemma {:induction false} NewName(acc: seq<Attr>, attrs: seq<Attr>)
    requires attrs != [] && Distinct(acc + attrs)
    ensures attrs[0].name != "" && forall i :: 0 <= i < |acc| ==> !SameName(acc[i].name, attrs[0].name)
  {
    var all := acc + attrs;
    assert all[|acc|] == attrs[0];
    forall i | 0 <= i < |acc| ensures !SameName(acc[i].name, attrs[0].name) {
      assert all[i] == acc[i];
    }
  }

  lemma {:induction false} NextAttributeStart(attrs: seq<Attr>, closing: seq<Token>)
    requires attrs != [] && forall i :: 0 <= i < |attrs| ==> WellFormed(attrs[i].expr)
    requires Peek(closing) == CloseBox
    ensures var more := UnparseAttributes(attrs[1..]) + closing;
            var tail := if |attrs| == 1 then more else [Semicolon] + more;
            SkipSemicolons(tail) == more && (Peek(tail) == Semicolon || Peek(tail) == CloseBox)
  {
    var more := UnparseAttributes(attrs[1..]) + closing;
    if |attrs| > 1 {
      AttributeTokens(attrs[1..], closing);
      assert ([Semicolon] + more)[1..] == more;
      assert Peek(more).IdentTok?;
    } else {
      assert more == closing;
    }
  }

  /** Parsing the printed tokens of a well-formed tree returns that tree and nothing is left. */
  lemma {:induction false} ParseOfUnparse(e: Expr)
    requires WellFormed(e)
    ensures ParseExpression(Unparse(e)) == Parse(e, [])
  {
    ExpressionBack(e, []);
    assert Unparse(e) + [] == Unparse(e);
  }

  // -------------------------------------- every parsed tree is well-formed

  predicate AllWellFormed(es: seq<Expr>) {
    forall i :: 0 <= i < |es| ==> WellFormed(es[i])
  }

  predicate GoodAttributes(attrs: seq<Attr>) {
    Distinct(attrs) && forall i :: 0 <= i < |attrs| ==> WellFormed(attrs[i].expr)
  }

  lemma {:induction false} ParsedExpression(toks: seq<Token>)
    ensures ParseExpression(toks).Parse? ==> WellFormed(ParseExpression(toks).tree)
    decreases |toks|, 20
  {
    ParsedTier(1, toks);
    var c := ParseTier(1, toks);
    if c.Parse? && Peek(c.rest) == QMark {
      ParsedExpression(c.rest[1..]);
      var t := ParseExpression(c.rest[1..]);
      if t.Parse? && Peek(t.rest) == Colon {
        ParsedExpression(t.rest[1..]);
      }
    }
  }

  lemma {:induction false} ParsedTier(n: nat, toks: seq<Token>)
    requires 1 <= n <= 11
    ensures var r := ParseTier(n, toks); r.Parse? ==> WellFormed(r.tree) && Tier(r.tree) >= n
    decreases |toks|, 15 - n
  {
    if n == 11 {
      ParsedUnary(toks);
    } else {
      ParsedTier(n + 1, toks);
      var r := ParseTier(n + 1, toks);
      if r.Parse? {
        ParsedOperators(n, r.tree, r.rest);
      }
    }
  }

  lemma {:induction false} ParsedOperators(n: nat, left: Expr, toks: seq<Token>)
    requires 1 <= n <= 10 && WellFormed(left) && Tier(left) >= n
    ensures var r := ParseOperators(n, left, toks); r.Parse? ==> WellFormed(r.tree) && Tier(r.tree) >= n
    decreases |toks|, 0
  {
    if Continues(Peek(toks)) == n {
      ParsedTier(n + 1, toks[1..]);
      var r := ParseTier(n + 1, toks[1..]);
      if r.Parse? {
        ParsedOperators(n, Binary(toks[0].op, left, r.tree), r.rest);
      }
    }
  }

  lemma {:induction false} ParsedUnary(toks: seq<Token>)
    ensures var r := ParseUnary(toks); r.Parse? ==> WellFormed(r.tree) && Tier(r.tree) >= 11
    decreases |toks|, 3
  {
    if UnaryOf(Peek(toks)).Some? {
      ParsedUnary(toks[1..]);
    } else {
      ParsedPrimary(toks);
      var r := ParsePrimary(toks);
      if r.Parse? {
        ParsedPostfix(r.tree, r.rest);
      }
    }
  }

  lemma {:induction false} ParsedPostfix(base: Expr, toks: seq<Token>)
    requires WellFormed(base) && Tier(base) >= 12
    ensures var r := ParsePostfix(base, toks); r.Parse? ==> WellFormed(r.tree) && Tier(r.tree) >= 12
    decreases |toks|, 1
  {
    if Peek(toks) == OpenBox {
      ParsedExpression(toks[1..]);
      var r := ParseExpression(toks[1..]);
      if r.Parse? && Peek(r.rest) == CloseBox {
        ParsedPostfix(Binary(Subscript, base, r.tree), r.rest[1..]);
      }
    } else if Peek(toks) == Dot && Peek(toks[1..]).IdentTok? {
      ParsedPostfix(Select(base, toks[1].name), toks[2..]);
    }
  }

  lemma {:induction false} ParsedPrimary(toks: seq<Token>)
    ensures var r := ParsePrimary(toks); r.Parse? ==> WellFormed(r.tree) && Tier(r.tree) >= 12
    decreases |toks|, 2
  {
    hide ParseExpression;
    hide ParseItems;
    hide ParseAttributes;
    var t := Peek(toks);
    if t.IdentTok? && Peek(toks[1..]) == OpenParen {
      ParsedItems([], CloseParen, toks[2..], true);
    } else if t == OpenParen {
      ParsedExpression(toks[1..]);
    } else if t == OpenBox {
      ParsedAttributes([], toks[1..], true);
    } else if t == OpenBrace {
      ParsedItems([], CloseBrace, toks[1..], true);
    }
  }

  lemma {:induction false} ParsedItems(acc: seq<Expr>, close: Token, toks: seq<Token>, mayClose: bool)
    requires close == CloseParen || close == CloseBrace
    requires AllWellFormed(acc)
    ensures var r := ParseItems(acc, close, toks, mayClose); r.Parse? ==> AllWellFormed(r.tree)
    decreases |toks|, 21
  {
    if !(mayClose && Peek(toks) == close) {
      ParsedExpression(toks);
      var r := ParseExpression(toks);
      if r.Parse? && Peek(r.rest) == Comma {
        ParsedItems(acc + [r.tree], close, r.rest[1..], false);
      }
    }
  }

  lemma {:induction false} InsertNames(attrs: seq<Attr>, name: string, e: Expr)
    ensures var r := Insert(attrs, name, e);
            && (forall i :: 0 <= i < |attrs| ==> r[i].name == attrs[i].name && (r[i] == attrs[i] || r[i].expr == e))
            && (|r| > |attrs| ==> r[|attrs|] == Attr(name, e))
            && (|r| > |attrs| ==> forall i :: 0 <= i < |attrs| ==> !SameName(attrs[i].name, name))
  {
    if attrs != [] && !SameName(attrs[0].name, name) {
      InsertNames(attrs[1..], name, e);
      var r, tail := Insert(attrs, name, e), Insert(attrs[1..], name, e);
      assert forall i :: 0 < i < |r| ==> r[i] == tail[i - 1];
    }
  }

  lemma {:induction false} InsertKeepsGood(attrs: seq<Attr>, name: string, e: Expr)
    requires GoodAttributes(attrs) && name != "" && WellFormed(e)
    ensures GoodAttributes(Insert(attrs, name, e))
  {
    hide Insert;
    hide WellFormed;
    InsertNames(attrs, name, e);
  }

  lemma {:induction false} ParsedAttributes(acc: seq<Attr>, toks: seq<Token>, mayClose: bool)
    requires GoodAttributes(acc)
    ensures var r := ParseAttributes(acc, toks, mayClose); r.Parse? ==> GoodAttributes(r.tree)
    decreases |toks|, 21
  {
    var t := Peek(toks);
    if t == Semicolon {
      ParsedAttributes(acc, toks[1..], false);
    } else if t.IdentTok? && Peek(toks[1..]) == Assign {
      ParsedExpression(toks[2..]);
      var r := ParseExpression(toks[2..]);
      if r.Parse? && t.name != "" && (Peek(r.rest) == Semicolon || Peek(r.rest) == CloseBox) {
        InsertKeepsGood(acc, t.name, r.tree);
        ParsedAttributes(Insert(acc, t.name, r.tree), SkipSemicolons(r.rest), true);
      }
    }
  }

  /** Whatever the parser accepts, it gets back by printing the tree and parsing again. */
  lemma {:induction false} ReparseIsIdentity(toks: seq<Token>)
    requires ParseExpression(toks).Parse?
    ensures WellFormed(ParseExpression(toks).tree)
    ensures ParseExpression(Unparse(ParseExpression(toks).tree)) == Parse(ParseExpression(toks).tree, [])
  {
    ParsedExpression(toks);
    ParseOfUnparse(ParseExpression(toks).tree);
  }

  /** When a full parse of a printed tree tolerates what follows it: exactly when nothing follows,
      or when the tree is a conditional expression. */
  lemma {:induction false} FullParseTolerates(e: Expr, more: seq<Token>)
    requires WellFormed(e) && Continues(Peek(more)) == -1
    ensures AcceptsFull(Unparse(e) + more) <==> e.Ternary? || Peek(more) == EndOfInput
  {
    ExpressionBack(e, more);
  }

  /** `a ? b : c )` passes for a complete expression. */
  lemma {:induction false} FullParseCounterexample(a: string, b: string, c: string)
    ensures AcceptsFull([IdentTok(a), QMark, IdentTok(b), Colon, IdentTok(c), CloseParen])
  {
    var e := Ternary(Ref(a, false), Ref(b, false), Ref(c, false));
    FullParseTolerates(e, [CloseParen]);
    assert Unparse(e) == [IdentTok(a), QMark, IdentTok(b), Colon, IdentTok(c)];
    assert Unparse(e) + [CloseParen] == [IdentTok(a), QMark, IdentTok(b), Colon, IdentTok(c), CloseParen];
  }
}
