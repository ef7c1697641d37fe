/** The unparser, as the token sequence of its output. */
module Printing {
  import opened Text
  import opened Expressions
  import opened Tokens
  import opened Grammar

  /** The precedence level of a tree's outermost construct; 13 for whatever brackets itself. */
  function Tier(e: Expr): (n: nat)
    ensures n <= 13
  {
    match e
    case Ternary(_, _, _) => 0
    case Binary(op, _, _) => PrecedenceLevel(op)
    case Unary(op, _) => if op.Parentheses? then 13 else 11
    case Select(_, _) => 12
    case _ => 13
  }

  /** Trees the grammar can express without adding parentheses: a left operand binds at least as
      tightly as its operator and a right operand more tightly, names of an ad are distinct and
      not empty, and no call is one that the parser replaces by a literal. */
  predicate WellFormed(e: Expr) {
    match e
    case Literal(v) => !v.AdValue?
    case Ref(_, _) => true
    case Select(base, _) => Tier(base) >= 12 && WellFormed(base)
    case Unary(op, arg) => (op.Parentheses? || Tier(arg) >= 11) && WellFormed(arg)
    case Binary(op, l, r) =>
      && WellFormed(l) && WellFormed(r)
      && Tier(l) >= PrecedenceLevel(op)
      && (op.Subscript? || Tier(r) > PrecedenceLevel(op))
    case Ternary(c, t, f) => Tier(c) >= 1 && WellFormed(c) && WellFormed(t) && WellFormed(f)
    case Call(fn, args) => !IsTimeCall(fn, args) && forall i :: 0 <= i < |args| ==> WellFormed(args[i])
    case ExprList(elems) => forall i :: 0 <= i < |elems| ==> WellFormed(elems[i])
    case Ad(attrs) => Distinct(attrs) && forall i :: 0 <= i < |attrs| ==> WellFormed(attrs[i].expr)
  }

  predicate Distinct(attrs: seq<Attr>) {
    && (forall i :: 0 <= i < |attrs| ==> attrs[i].name != "")
    && (forall i, j :: 0 <= i < j < |attrs| ==> !SameName(attrs[i].name, attrs[j].name))
  }

  function Unparse(e: Expr): (r: seq<Token>)
    requires WellFormed(e)
    ensures r != []
    decreases e, 1
  {
    match e
    case Literal(v) => [LiteralToken(v)]
    case Ref(name, absolute) => (if absolute then [Dot] else []) + [IdentTok(name)]
    case Select(base, attr) => Unparse(base) + [Dot, IdentTok(attr)]
    case Unary(op, arg) =>
      if op.Parentheses? then [OpenParen] + Unparse(arg) + [CloseParen] else [UnaryToken(op)] + Unparse(arg)
    case Binary(op, l, r) =>
      if op.Subscript? then Unparse(l) + [OpenBox] + Unparse(r) + [CloseBox]
      else Unparse(l) + [OpTok(op)] + Unparse(r)
    case Ternary(c, t, f) => Unparse(c) + [QMark] + Unparse(t) + [Colon] + Unparse(f)
    case Call(fn, args) => [IdentTok(fn), OpenParen] + UnparseItems(args) + [CloseParen]
    case ExprList(elems) => [OpenBrace] + UnparseItems(elems) + [CloseBrace]
    case Ad(attrs) => [OpenBox] + UnparseAttributes(attrs) + [CloseBox]
  }

  function UnparseItems(es: seq<Expr>): (r: seq<Token>)
    requires forall i :: 0 <= i < |es| ==> WellFormed(es[i])
    decreases es, 0
  {
    if es == [] then []
    else Unparse(es[0]) + (if |es| == 1 then [] else [Comma]) + UnparseItems(es[1..])
  }

  function UnparseAttributes(attrs: seq<Attr>): (r: seq<Token>)
    requires forall i :: 0 <= i < |attrs| ==> WellFormed(attrs[i].expr)
    decreases attrs, 0
  {
    if attrs == [] then []
    else
      [IdentTok(attrs[0].name), Assign] + Unparse(attrs[0].expr)
      + (if |attrs| == 1 then [] else [Semicolon]) + UnparseAttributes(attrs[1..])
  }
}
