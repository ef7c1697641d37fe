/** Printed shapes that the lexer runs together, and exactly when they come back. */
module Misreadings {
  import opened Text
  import opened Expressions
  import opened Tokens
  import opened Grammar
  import opened Printing
  import opened Decimal
  import opened Lexing
  import opened Rendering
  import opened TextRoundTrip

  /** Printing the tree, reading the text and parsing the tokens gives the tree. */
  ghost predicate ComesBack(e: Expr) {
    ParseExpression(Lex(EndOfInput, TextOf(e))) == Parse(e, [])
  }

  // ------------------------------------- a parsed tree begins with its token

  /** The token a tree was read from, in its leftmost leaf or bracket. */
  function Opening(e: Expr): (t: Token) {
    match e
    case Literal(v) => if v.AdValue? then BadToken else LiteralToken(v)
    case Ref(name, absolute) => if absolute then Dot else IdentTok(name)
    case Select(base, _) => Opening(base)
    case Unary(op, _) => if op.Parentheses? then OpenParen else UnaryToken(op)
    case Binary(_, l, _) => Opening(l)
    case Ternary(c, _, _) => Opening(c)
    case Call(fn, _) => IdentTok(fn)
    case ExprList(_) => OpenBrace
    case Ad(_) => OpenBox
  }

  lemma {:induction false} ParsedOpening(toks: seq<Token>)
    requires ParseExpression(toks).Parse?
    ensures Opening(ParseExpression(toks).tree) == Peek(toks)
  {
    TierOpening(1, toks);
  }

  lemma {:induction false} TierOpening(n: nat, toks: seq<Token>)
    requires 1 <= n <= 11 && ParseTier(n, toks).Parse?
    ensures Opening(ParseTier(n, toks).tree) == Peek(toks)
    decreases 11 - n
  {
    if n == 11 {
      UnaryOpening(toks);
    } else {
      TierOpening(n + 1, toks);
      var left := ParseTier(n + 1, toks);
      OperatorsOpening(n, left.tree, left.rest);
    }
  }

  lemma {:induction false} OperatorsOpening(n: nat, left: Expr, toks: seq<Token>)
    requires 1 <= n <= 10 && ParseOperators(n, left, toks).Parse?
    ensures Opening(ParseOperators(n, left, toks).tree) == Opening(left)
    decreases |toks|
  {
    if Continues(Peek(toks)) == n {
      var right := ParseTier(n + 1, toks[1..]);
      OperatorsOpening(n, Binary(toks[0].op, left, right.tree), right.rest);
    }
  }

  lemma {:induction false} UnaryOpening(toks: seq<Token>)
    requires ParseUnary(toks).Parse?
    ensures Opening(ParseUnary(toks).tree) == Peek(toks)
  {
    hide ParsePrimary;
    hide ParsePostfix;
    if UnaryOf(Peek(toks)).None? {
      var first := ParsePrimary(toks);
      PrimaryOpening(toks);
      PostfixOpening(first.tree, first.rest);
    }
  }

  lemma {:induction false} PrimaryOpening(toks: seq<Token>)
    requires ParsePrimary(toks).Parse?
    ensures Opening(ParsePrimary(toks).tree) == Peek(toks)
  {
    hide ParseExpression;
    hide ParseItems;
    hide ParseAttributes;
  }

  lemma {:induction false} PostfixOpening(base: Expr, toks: seq<Token>)
    requires ParsePostfix(base, toks).Parse?
    ensures Opening(ParsePostfix(base, toks).tree) == Opening(base)
    decreases |toks|
  {
    if Peek(toks) == OpenBox {
      var index := ParseExpression(toks[1..]);
      PostfixOpening(Binary(Subscript, base, index.tree), index.rest[1..]);
    } else if Peek(toks) == Dot {
      PostfixOpening(Select(base, toks[1].name), toks[2..]);
    }
  }

  /** A tree whose text starts with another token than the tree itself is lost. */
  lemma {:induction false} OtherOpeningIsLost(e: Expr)
    requires Peek(Lex(EndOfInput, TextOf(e))) != Opening(e)
    ensures !ComesBack(e)
  {
    hide Lex;
    hide ParseExpression;
    if ComesBack(e) {
      ParsedOpening(Lex(EndOfInput, TextOf(e)));
    }
  }

  // ------------------------------------------------- a minus before a digit

  /** A negated operand comes back exactly if its text does not start with a digit. */
  lemma {:induction false} MinusComesBack(arg: Expr)
    requires WellFormed(Unary(UnaryMinus, arg)) && Spellable(arg)
    ensures TextOf(arg) != ""
    ensures ComesBack(Unary(UnaryMinus, arg)) <==> !IsDigit(TextOf(arg)[0])
  {
    FirstChar(arg);
    if IsDigit(TextOf(arg)[0]) {
      MinusIsJoined(arg);
      OtherOpeningIsLost(Unary(UnaryMinus, arg));
    } else {
      ParseOfText(Unary(UnaryMinus, arg));
    }
  }

  lemma {:induction false} MinusIsJoined(arg: Expr)
    requires TextOf(arg) != "" && IsDigit(TextOf(arg)[0])
    ensures Peek(Lex(EndOfInput, TextOf(Unary(UnaryMinus, arg)))) != OpTok(Sub)
  {
    hide TextOf;
    hide Lex;
    var s := "-" + TextOf(arg);
    NegatedText(arg);
    SpaceIsSkipped(EndOfInput, s);
    LexHead(EndOfInput, s);
    assert s[1..] == TextOf(arg);
  }

  lemma {:induction false} NegatedText(arg: Expr)
    ensures TextOf(Unary(UnaryMinus, arg)) == " " + ("-" + TextOf(arg))
  {
    assert (" " + "-") + TextOf(arg) == " " + ("-" + TextOf(arg));
  }

  // --------------------------------------------- a selection from a number

  /** A selection comes back exactly if its base is not an integer literal. */
  lemma {:induction false} SelectionComesBack(base: Expr, attr: string)
    requires WellFormed(Select(base, attr)) && Spellable(base) && PlainName(attr)
    ensures ComesBack(Select(base, attr)) <==> !(base.Literal? && base.value.Int?)
  {
    if base.Literal? && base.value.Int? {
      DottedNumber(base.value.i, attr);
      OtherOpeningIsLost(Select(base, attr));
    } else {
      ParseOfText(Select(base, attr));
    }
  }

  lemma {:induction false} DottedNumber(i: int, attr: string)
    ensures Peek(Lex(EndOfInput, TextOf(Select(Literal(Int(i)), attr)))) == BadToken
  {
    hide TextOf;
    hide Numeral;
    var n: nat := if i < 0 then -i else i;
    var dotted := Numeral(n) + ("." + attr);
    var s := if i < 0 then "-" + dotted else dotted;
    DottedText(i, attr);
    DottedNumeral(i < 0, n, attr);
    if i < 0 {
      assert s[1..] == dotted;
    }
    LexHead(EndOfInput, s);
  }

  lemma {:induction false} DottedText(i: int, attr: string)
    ensures TextOf(Select(Literal(Int(i)), attr))
         == if i < 0 then "-" + (Numeral(-i) + ("." + attr)) else Numeral(i) + ("." + attr)
  {
    hide Numeral;
    assert TextOf(Literal(Int(i))) == ValueText(Int(i));
  }

  lemma {:induction false} DottedNumeral(negative: bool, n: nat, attr: string)
    ensures ScanInteger(negative, Numeral(n) + ("." + attr)).tok == BadToken
  {
    DigitCountOfNumeral(Numeral(n), "." + attr);
    assert Char(Numeral(n) + ("." + attr), |Numeral(n)|) == '.';
  }

  // ------------------------------------------------ an integer out of range

  /** An integer comes back exactly if an `int` can hold it. */
  lemma {:induction false} IntegerComesBack(i: int)
    ensures ComesBack(Literal(Int(i))) <==> INT_MIN <= i <= INT_MAX
  {
    if INT_MIN <= i <= INT_MAX {
      ParseOfText(Literal(Int(i)));
    } else {
      ReadClamped(i);
      OtherOpeningIsLost(Literal(Int(i)));
    }
  }

  lemma {:induction false} ReadClamped(i: int)
    ensures Peek(Lex(EndOfInput, TextOf(Literal(Int(i))))) == IntTok(Clamp(i))
  {
    hide TextOf;
    hide Lex;
    hide Numeral;
    var n: nat := if i < 0 then -i else i;
    var digits := Numeral(n);
    var s := if i < 0 then "-" + digits else digits;
    assert TextOf(Literal(Int(i))) == s by {
      IntegerText(i);
    }
    ScanNumeral(i < 0, n, "");
    assert digits + "" == digits;
    if i < 0 {
      assert s[1..] == digits;
    }
    LexHead(EndOfInput, s);
  }

  lemma {:induction false} IntegerText(i: int)
    ensures TextOf(Literal(Int(i))) == if i < 0 then "-" + Numeral(-i) else Numeral(i)
  {
  }
}
