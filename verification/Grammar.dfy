/** The recursive-descent grammar, as functions from token sequences to trees. */
module Grammar {
  import opened Text
  import opened Expressions
  import opened Tokens

  datatype Parsed<+T> = NoParse | Parse(tree: T, rest: seq<Token>)

  /** Calls that the parser replaces by time literals; those literals are outside this model. */
  predicate IsTimeCall(fn: string, args: seq<Expr>) {
    && (Fold(fn) == "abstime" || Fold(fn) == "reltime")
    && |args| == 1 && args[0].Literal? && args[0].value.Str?
  }

  /** Inserting an attribute replaces the one of the same name, if there is one. */
  function Insert(attrs: seq<Attr>, name: string, e: Expr): (r: seq<Attr>)
    ensures |attrs| <= |r| <= |attrs| + 1
  {
    if attrs == [] then [Attr(name, e)]
    else if SameName(attrs[0].name, name) then [Attr(attrs[0].name, e)] + attrs[1..]
    else [attrs[0]] + Insert(attrs[1..], name, e)
  }

  /** Expression ::= tier 1 | tier 1 '?' Expression ':' Expression */
  function ParseExpression(toks: seq<Token>): (r: Parsed<Expr>)
    ensures r.Parse? ==> |r.rest| < |toks|
    decreases |toks|, 20
  {
    match ParseTier(1, toks)
    case NoParse => NoParse
    case Parse(c, rest) =>
      if Peek(rest) != QMark then Parse(c, rest)
      else
        match ParseExpression(rest[1..])
        case NoParse => NoParse
        case Parse(t, rest1) =>
          if Peek(rest1) != Colon then NoParse
          else
            match ParseExpression(rest1[1..])
            case NoParse => NoParse
            case Parse(f, rest2) => Parse(Ternary(c, t, f), rest2)
  }

  /** A full parse wants the input exhausted, but the branch for a conditional expression returns
      without looking. */
  predicate AcceptsFull(toks: seq<Token>) {
    var r := ParseExpression(toks);
    r.Parse? && (r.tree.Ternary? || Peek(r.rest) == EndOfInput)
  }

  /** Tier n (1 to 10) ::= tier n+1 { operator of level n, tier n+1 }, associating to the left. */
  function ParseTier(n: nat, toks: seq<Token>): (r: Parsed<Expr>)
    requires 1 <= n <= 11
    ensures r.Parse? ==> |r.rest| < |toks|
    decreases |toks|, 15 - n
  {
    if n == 11 then ParseUnary(toks)
    else
      match ParseTier(n + 1, toks)
      case NoParse => NoParse
      case Parse(e, rest) => ParseOperators(n, e, rest)
  }

  function ParseOperators(n: nat, left: Expr, toks: seq<Token>): (r: Parsed<Expr>)
    requires 1 <= n <= 10
    ensures r.Parse? ==> |r.rest| <= |toks|
    decreases |toks|, 0
  {
    if Continues(Peek(toks)) != n then Parse(left, toks)
    else
      match ParseTier(n + 1, toks[1..])
      case NoParse => NoParse
      case Parse(right, rest) => ParseOperators(n, Binary(toks[0].op, left, right), rest)
  }

  /** Unary ::= unary operator, Unary | Postfix */
  function ParseUnary(toks: seq<Token>): (r: Parsed<Expr>)
    ensures r.Parse? ==> |r.rest| < |toks|
    decreases |toks|, 3
  {
    match UnaryOf(Peek(toks))
    case Some(op) =>
      (match ParseUnary(toks[1..])
       case NoParse => NoParse
       case Parse(e, rest) => Parse(Unary(op, e), rest))
    case None =>
      match ParsePrimary(toks)
      case NoParse => NoParse
      case Parse(e, rest) => ParsePostfix(e, rest)
  }

  /** Postfix ::= Primary { '[' Expression ']' | '.' identifier } */
  function ParsePostfix(base: Expr, toks: seq<Token>): (r: Parsed<Expr>)
    ensures r.Parse? ==> |r.rest| <= |toks|
    decreases |toks|, 1
  {
    match Peek(toks)
    case OpenBox =>
      (match ParseExpression(toks[1..])
       case NoParse => NoParse
       case Parse(index, rest) =>
         if Peek(rest) == CloseBox then ParsePostfix(Binary(Subscript, base, index), rest[1..]) else NoParse)
    case Dot =>
      if Peek(toks[1..]).IdentTok? then ParsePostfix(Select(base, toks[1].name), toks[2..]) else NoParse
    case _ => Parse(base, toks)
  }

  function ParsePrimary(toks: seq<Token>): (r: Parsed<Expr>)
    ensures r.Parse? ==> |r.rest| < |toks|
    decreases |toks|, 2
  {
    var t := Peek(toks);
    match t
    case IdentTok(name) =>
      if Peek(toks[1..]) == OpenParen then
        (match ParseItems([], CloseParen, toks[2..], true)
         case NoParse => NoParse
         case Parse(args, rest) => if IsTimeCall(name, args) then NoParse else Parse(Call(name, args), rest))
      else Parse(Ref(name, false), toks[1..])
    case Dot =>
      if Peek(toks[1..]).IdentTok? then Parse(Ref(toks[1].name, true), toks[2..]) else NoParse
    case OpenParen =>
      (match ParseExpression(toks[1..])
       case NoParse => NoParse
       case Parse(e, rest) =>
         if Peek(rest) == CloseParen then Parse(Unary(Parentheses, e), rest[1..]) else NoParse)
    case OpenBox =>
      (match ParseAttributes([], toks[1..], true)
       case NoParse => NoParse
       case Parse(attrs, rest) => Parse(Ad(attrs), rest))
    case OpenBrace =>
      (match ParseItems([], CloseBrace, toks[1..], true)
       case NoParse => NoParse
       case Parse(elems, rest) => Parse(ExprList(elems), rest))
    case _ =>
      match LiteralOf(t)
      case Some(v) => Parse(Literal(v), toks[1..])
      case None => NoParse
  }

  /** The rest of a comma-separated list up to its closing token, which may come at once only
      where `mayClose` says so: not after a comma. */
  function ParseItems(acc: seq<Expr>, close: Token, toks: seq<Token>, mayClose: bool): (r: Parsed<seq<Expr>>)
    requires close == CloseParen || close == CloseBrace
    ensures r.Parse? ==> |r.rest| < |toks|
    decreases |toks|, 21
  {
    if mayClose && Peek(toks) == close then Parse(acc, toks[1..])
    else
      match ParseExpression(toks)
      case NoParse => NoParse
      case Parse(e, rest) =>
        if Peek(rest) == Comma then ParseItems(acc + [e], close, rest[1..], false)
        else if Peek(rest) == close then Parse(acc + [e], rest[1..])
        else NoParse
  }

  function SkipSemicolons(toks: seq<Token>): (r: seq<Token>)
    ensures |r| <= |toks| && Peek(r) != Semicolon
    ensures Peek(toks) == Semicolon ==> |r| < |toks|
  {
    if Peek(toks) == Semicolon then SkipSemicolons(toks[1..]) else toks
  }

  /** The rest of an ad. A semicolon before an attribute is skipped, but the ad may not close
      right after such a semicolon. */
  function ParseAttributes(acc: seq<Attr>, toks: seq<Token>, mayClose: bool): (r: Parsed<seq<Attr>>)
    ensures r.Parse? ==> |r.rest| < |toks|
    decreases |toks|, 21
  {
    match Peek(toks)
    case CloseBox => if mayClose then Parse(acc, toks[1..]) else NoParse
    case Semicolon => ParseAttributes(acc, toks[1..], false)
    case IdentTok(name) =>
      if Peek(toks[1..]) != Assign then NoParse
      else
        (match ParseExpression(toks[2..])
         case NoParse => NoParse
         case Parse(e, rest) =>
           if name == "" then NoParse
           else if Peek(rest) != Semicolon && Peek(rest) != CloseBox then NoParse
           else ParseAttributes(Insert(acc, name, e), SkipSemicolons(rest), true))
    case _ => NoParse
  }
}
