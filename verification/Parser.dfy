/** The parser as a program that consumes tokens, proved against the grammar. */
module Parser {
  import opened Text
  import opened Expressions
  import opened Tokens
  import G = Grammar
  import RoundTrip

  class ClassAdParser {
    /** What the lexer has yet to deliver. */
    var rest: seq<Token>

    constructor (toks: seq<Token>)
      ensures rest == toks
    {
      rest := toks;
    }

    function PeekToken(): (t: Token)
      reads this
    {
      Peek(rest)
    }

    method ConsumeToken() returns (t: Token)
      modifies this
      ensures t == Peek(old(rest))
      ensures rest == if old(rest) == [] then [] else old(rest)[1..]
    {
      t := PeekToken();
      if rest != [] {
        rest := rest[1..];
      }
    }

    /** With `full`, the input has to be exhausted, except after a conditional expression, whose
        branch returns without looking. */
    method ParseExpression(full: bool) returns (ok: bool, tree: Expr)
      modifies this
      ensures var r := G.ParseExpression(old(rest));
              && (ok <==> if full then G.AcceptsFull(old(rest)) else r.Parse?)
              && (ok ==> tree == r.tree)
              && (ok && !full ==> rest == r.rest)
      ensures |rest| <= |old(rest)|
      decreases |rest|, 20
    {
      ok, tree := ParseTier(1);
      if !ok { return; }
      if PeekToken() == QMark {
        var c := tree;
        var _ := ConsumeToken();
        var okM, m := ParseExpression(false);
        var t := ConsumeToken();
        if t != Colon { return false, tree; }
        var okR, r := ParseExpression(false);
        return okM && okR, Ternary(c, m, r);
      }
      RoundTrip.ParsedTier(1, old(rest));
      if full {
        var t := ConsumeToken();
        ok := t == EndOfInput;
      }
    }

    /** The ten levels of binary operators, from `||` at 1 to `*` at 10; level 11 is the unary one. */
    method ParseTier(n: nat) returns (ok: bool, tree: Expr)
      requires 1 <= n <= 11
      modifies this
      ensures var r := G.ParseTier(n, old(rest));
              (ok <==> r.Parse?) && (ok ==> tree == r.tree && rest == r.rest)
      ensures |rest| <= |old(rest)|
      decreases |rest|, 15 - n
    {
      if n == 11 {
        ok, tree := ParseUnary();
        return;
      }
      ok, tree := ParseTier(n + 1);
      if !ok { return; }
      while Continues(PeekToken()) == n
        invariant |rest| <= |old(rest)|
        invariant |rest| == |old(rest)| ==> rest == old(rest)
        invariant G.ParseTier(n, old(rest)) == G.ParseOperators(n, tree, rest)
        invariant |rest| < |old(rest)|
        decreases |rest|
      {
        var t := ConsumeToken();
        var okR, right := ParseTier(n + 1);
        if !okR { return false, tree; }
        tree := Binary(t.op, tree, right);
      }
    }

    method ParseUnary() returns (ok: bool, tree: Expr)
      modifies this
      ensures var r := G.ParseUnary(old(rest));
              (ok <==> r.Parse?) && (ok ==> tree == r.tree && rest == r.rest)
      ensures |rest| <= |old(rest)|
      decreases |rest|, 3
    {
      var op := UnaryOf(PeekToken());
      if op.Some? {
        var _ := ConsumeToken();
        ok, tree := ParseUnary();
        tree := Unary(op.value, tree);
      } else {
        ok, tree := ParsePostfix();
      }
    }

    method ParsePostfix() returns (ok: bool, tree: Expr)
      requires UnaryOf(Peek(rest)).None?
      modifies this
      ensures var r := G.ParseUnary(old(rest));
              (ok <==> r.Parse?) && (ok ==> tree == r.tree && rest == r.rest)
      ensures |rest| <= |old(rest)|
      decreases |rest|, 2
    {
      ok, tree := ParsePrimary();
      if !ok { return; }
      while PeekToken() == OpenBox || PeekToken() == Dot
        invariant |rest| < |old(rest)|
        invariant G.ParseUnary(old(rest)) == G.ParsePostfix(tree, rest)
        decreases |rest|
      {
        ghost var before := rest;
        var t := ConsumeToken();
        if t == OpenBox {
          var okI, index := ParseExpression(false);
          if !okI { return false, tree; }
          t := ConsumeToken();
          if t != CloseBox { return false, tree; }
          tree := Binary(Subscript, tree, index);
        } else {
          t := ConsumeToken();
          if !t.IdentTok? { return false, tree; }
          assert before[1..][0] == before[1] && before[1..][1..] == before[2..];
          tree := Select(tree, t.name);
        }
      }
    }

    method ParsePrimary() returns (ok: bool, tree: Expr)
      modifies this
      ensures var r := G.ParsePrimary(old(rest));
              (ok <==> r.Parse?) && (ok ==> tree == r.tree && rest == r.rest)
      ensures |rest| <= |old(rest)|
      decreases |rest|, 1
    {
      ok, tree := false, Literal(Undefined);
      var t := PeekToken();
      match t {
        case IdentTok(_) => ok, tree := ParseIdentifier();
        case Dot => ok, tree := ParseAbsolute();
        case OpenParen => ok, tree := ParseParenthesized();
        case OpenBox =>
          t := ConsumeToken();
          var attrs;
          ok, attrs := ParseAttributes();
          tree := Ad(attrs);
        case OpenBrace =>
          t := ConsumeToken();
          var elems;
          ok, elems := ParseItems(CloseBrace);
          tree := ExprList(elems);
        case _ =>
          var v := LiteralOf(t);
          if v.Some? {
            t := ConsumeToken();
            ok, tree := true, Literal(v.value);
          }
      }
    }

    /** A reference, or a call if an argument list follows. */
    method ParseIdentifier() returns (ok: bool, tree: Expr)
      requires Peek(rest).IdentTok?
      modifies this
      ensures var r := G.ParsePrimary(old(rest));
              (ok <==> r.Parse?) && (ok ==> tree == r.tree && rest == r.rest)
      ensures |rest| <= |old(rest)|
      decreases |rest|, 0
    {
      var t := ConsumeToken();
      var name := t.name;
      if PeekToken() == OpenParen {
        t := ConsumeToken();
        assert rest == old(rest)[2..];
        var args;
        ok, args := ParseItems(CloseParen);
        ok, tree := ok && !G.IsTimeCall(name, args), Call(name, args);
      } else {
        ok, tree := true, Ref(name, false);
      }
    }

    method ParseAbsolute() returns (ok: bool, tree: Expr)
      requires Peek(rest) == Dot
      modifies this
      ensures var r := G.ParsePrimary(old(rest));
              (ok <==> r.Parse?) && (ok ==> tree == r.tree && rest == r.rest)
      ensures |rest| <= |old(rest)|
    {
      ok, tree := false, Literal(Undefined);
      var t := ConsumeToken();
      t := ConsumeToken();
      if t.IdentTok? {
        assert rest == old(rest)[2..];
        ok, tree := true, Ref(t.name, true);
      }
    }

    method ParseParenthesized() returns (ok: bool, tree: Expr)
      requires Peek(rest) == OpenParen
      modifies this
      ensures var r := G.ParsePrimary(old(rest));
              (ok <==> r.Parse?) && (ok ==> tree == r.tree && rest == r.rest)
      ensures |rest| <= |old(rest)|
      decreases |rest|, 0
    {
      var t := ConsumeToken();
      ok, tree := ParseExpression(false);
      if !ok { return; }
      t := ConsumeToken();
      ok, tree := t == CloseParen, Unary(Parentheses, tree);
    }

    /** The rest of an argument list or of a list, after its opening bracket. */
    method ParseItems(close: Token) returns (ok: bool, items: seq<Expr>)
      requires close == CloseParen || close == CloseBrace
      modifies this
      ensures var r := G.ParseItems([], close, old(rest), true);
              (ok <==> r.Parse?) && (ok ==> items == r.tree && rest == r.rest)
      ensures |rest| <= |old(rest)|
      decreases |rest|, 21
    {
      items := [];
      var tt := PeekToken();
      while tt != close
        invariant |rest| <= |old(rest)|
        invariant tt == close ==>
          Peek(rest) == close && G.ParseItems([], close, old(rest), true) == G.Parse(items, rest[1..])
        invariant tt != close ==>
          G.ParseItems([], close, old(rest), true) == G.ParseItems(items, close, rest, false)
        decreases |rest|, tt != close
      {
        ghost var before := rest;
        var okE, e := ParseExpression(false);
        if !okE { return false, items; }
        items := items + [e];
        tt := PeekToken();
        if tt == Comma {
          var _ := ConsumeToken();
        } else if tt != close {
          return false, items;
        }
      }
      var _ := ConsumeToken();
      ok := true;
    }

    /** The rest of an ad, after its opening bracket. */
    method ParseAttributes() returns (ok: bool, attrs: seq<Attr>)
      modifies this
      ensures var r := G.ParseAttributes([], old(rest), true);
              (ok <==> r.Parse?) && (ok ==> attrs == r.tree && rest == r.rest)
      ensures |rest| <= |old(rest)|
      decreases |rest|, 21
    {
      attrs := [];
      var tt := PeekToken();
      while tt != CloseBox
        invariant |rest| <= |old(rest)|
        invariant tt == CloseBox ==> Peek(rest) == CloseBox
        invariant G.ParseAttributes([], old(rest), true)
               == G.ParseAttributes(attrs, rest, tt == CloseBox || tt == Peek(rest))
        invariant tt != CloseBox && tt != Peek(rest) ==> tt == Semicolon
        decreases |rest|, tt != CloseBox
      {
        ghost var before := rest;
        tt := ConsumeToken();
        if tt == Semicolon { continue; }
        if !tt.IdentTok? { return false, attrs; }
        var name := tt.name;
        tt := ConsumeToken();
        if tt != Assign { return false, attrs; }
        assert before[1..][1..] == before[2..];
        var okE, e := ParseExpression(false);
        if !okE { return false, attrs; }
        if name == "" { return false, attrs; }
        attrs := G.Insert(attrs, name, e);
        tt := PeekToken();
        if tt != Semicolon && tt != CloseBox { return false, attrs; }
        ghost var afterExpr := rest;
        while tt == Semicolon
          invariant tt == Peek(rest)
          invariant G.SkipSemicolons(rest) == G.SkipSemicolons(afterExpr)
          invariant |rest| <= |afterExpr|
          decreases |rest|
        {
          tt := ConsumeToken();
          tt := PeekToken();
        }
      }
      var _ := ConsumeToken();
      ok := true;
    }
  }
}
