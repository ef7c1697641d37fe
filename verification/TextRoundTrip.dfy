/** From tree to text and back: the lexer recovers the printed tokens, so the parser recovers the
    tree. */
module TextRoundTrip {
  import opened Text
  import opened Expressions
  import opened Tokens
  import opened Grammar
  import opened Printing
  import opened Escapes
  import opened Decimal
  import opened Lexing
  import opened Rendering
  import RoundTrip

  // ------------------------------------------------------- lexing in pieces

  function LastOf(prev: Token, toks: seq<Token>): (t: Token) {
    if toks == [] then prev else toks[|toks| - 1]
  }

  /** Reading `s` after `prev` gives `toks`, with `more` still to be read. */
  ghost predicate Lexed(prev: Token, s: string, toks: seq<Token>, more: string) {
    Lex(prev, s) == toks + Lex(LastOf(prev, toks), more)
  }

  lemma {:induction false} Chain(prev: Token, s: string, t1: seq<Token>, s1: string, t2: seq<Token>, s2: string)
    requires Lexed(prev, s, t1, s1) && Lexed(LastOf(prev, t1), s1, t2, s2)
    ensures Lexed(prev, s, t1 + t2, s2)
  {
    hide Lex;
    assert LastOf(LastOf(prev, t1), t2) == LastOf(prev, t1 + t2) by {
      if t2 == [] {
        assert t1 + t2 == t1;
      }
    }
    var after := Lex(LastOf(prev, t1 + t2), s2);
    assert t1 + (t2 + after) == (t1 + t2) + after;
  }

  lemma {:induction false} SpaceIsSkipped(prev: Token, s: string)
    ensures Lex(prev, " " + s) == Lex(prev, s)
  {
    assert (" " + s)[1..] == s;
    assert SkipSpaces(" " + s) == SkipSpaces(s);
  }

  lemma {:induction false} SkippedIsSame(prev: Token, s: string)
    ensures Lex(prev, SkipSpaces(s)) == Lex(prev, s)
  {
  }

  lemma {:induction false} OneToken(prev: Token, s: string, tok: Token, more: string)
    requires s != "" && !IsSpace(s[0]) && s[0] != NUL && Scan(prev, s) == Scanned(tok, more)
    ensures Lexed(prev, s, [tok], more)
  {
  }

  lemma {:induction false} OneSpacedToken(prev: Token, s: string, tok: Token, more: string)
    requires s != "" && !IsSpace(s[0]) && s[0] != NUL && Scan(prev, s) == Scanned(tok, " " + more)
    ensures Lexed(prev, s, [tok], more)
    ensures Lexed(prev, " " + s, [tok], more)
  {
    OneToken(prev, s, tok, " " + more);
    SpaceIsSkipped(tok, more);
    SpaceIsSkipped(prev, s);
  }

  /** What may follow an expression in printed text. */
  predicate Boundary(more: string) {
    && (more == "" || more[0] in {' ', ')', ']', '}', ',', ';', '[', '.', '('})
    && !IsQuote(Char(SkipSpaces(more), 0))
  }

  lemma {:induction false} BoundaryOf(c: char, s: string)
    requires c in {')', ']', '}', ',', ';', '[', '.', '('}
    ensures Boundary([c] + s)
  {
    assert SkipSpaces([c] + s) == [c] + s;
  }

  lemma {:induction false} SpacedBoundary(c: char, s: string)
    requires !IsSpace(c) && !IsQuote(c)
    ensures Boundary(" " + ([c] + s))
  {
    var t := [c] + s;
    assert (" " + t)[1..] == t;
    assert SkipSpaces(" " + t) == t;
  }

  // ------------------------------------------------------------- one token

  lemma {:induction false} WordEnds(word: string, more: string)
    requires WordLength(word) == |word| && (more == "" || !IsWord(more[0]))
    ensures WordLength(word + more) == |word|
  {
    if word == "" {
      assert word + more == more;
    } else {
      assert (word + more)[1..] == word[1..] + more;
      WordEnds(word[1..], more);
    }
  }

  lemma {:induction false} ScanWord(prev: Token, word: string, more: string)
    requires word != "" && (IsAlpha(word[0]) || word[0] == '_') && WordLength(word) == |word|
    requires more == "" || !IsWord(more[0])
    ensures Scan(prev, word + more) == Scanned(WordToken(word), more)
  {
    hide WordToken;
    hide WordLength;
    WordEnds(word, more);
    var s := word + more;
    assert s[..|word|] == word && s[|word|..] == more;
  }

  lemma {:induction false} LexWord(prev: Token, word: string, more: string)
    requires word != "" && (IsAlpha(word[0]) || word[0] == '_') && WordLength(word) == |word|
    requires more == "" || !IsWord(more[0])
    ensures Lexed(prev, word + more, [WordToken(word)], more)
  {
    hide WordToken;
    hide WordLength;
    hide Scan;
    hide Lex;
    ScanWord(prev, word, more);
    OneToken(prev, word + more, WordToken(word), more);
  }

  lemma {:induction false} LexQuoted(prev: Token, text: string, quote: char, more: string)
    requires IsQuote(quote) && IsText(text) && !IsQuote(Char(SkipSpaces(more), 0))
    ensures Lexed(prev, [quote] + (Escape(text, quote) + ([quote] + more)),
                  [if quote == '"' then StrTok(text) else IdentTok(text)], more)
  {
    hide Lex;
    hide Scan;
    hide SkipSpaces;
    hide Escape;
    var s := [quote] + (Escape(text, quote) + ([quote] + more));
    var tok := if quote == '"' then StrTok(text) else IdentTok(text);
    ScanQuotedText(prev, text, quote, more);
    OneToken(prev, s, tok, SkipSpaces(more));
    SkippedIsSame(tok, more);
  }

  lemma {:induction false} ScanQuotedText(prev: Token, text: string, quote: char, more: string)
    requires IsQuote(quote) && IsText(text) && !IsQuote(Char(SkipSpaces(more), 0))
    ensures Scan(prev, [quote] + (Escape(text, quote) + ([quote] + more)))
         == Scanned(if quote == '"' then StrTok(text) else IdentTok(text), SkipSpaces(more))
  {
    hide Escape;
    hide Unescape;
    hide ScanQuoted;
    hide SkipSpaces;
    var inside := Escape(text, quote) + ([quote] + more);
    QuotedBody(text, quote, more);
    UnescapeOfEscape(text, quote);
    assert ([quote] + inside)[1..] == inside;
  }

  lemma {:induction false} QuotedBody(text: string, quote: char, more: string)
    requires IsQuote(quote) && IsText(text) && !IsQuote(Char(SkipSpaces(more), 0))
    ensures ScanQuoted(quote, Escape(text, quote) + ([quote] + more)) == Some((Escape(text, quote), SkipSpaces(more)))
  {
    hide Escape;
    hide ClosingQuote;
    hide SkipSpaces;
    var body := Escape(text, quote);
    var s := body + ([quote] + more);
    ClosingQuoteOfEscape(text, quote, more);
    assert body + [quote] + more == s;
    assert s[..|body|] == body && s[|body| + 1..] == more;
  }

  lemma {:induction false} LexNumeral(prev: Token, n: nat, more: string)
    requires n <= INT_MAX && (more == "" || (!IsWord(more[0]) && more[0] != '.'))
    ensures Lexed(prev, Numeral(n) + more, [IntTok(n)], more)
  {
    var s := Numeral(n) + more;
    ScanNumeral(false, n, more);
    OneToken(prev, s, IntTok(n), more);
  }

  lemma {:induction false} ScanNumeral(negative: bool, n: nat, more: string)
    requires more == "" || (!IsWord(more[0]) && more[0] != '.')
    ensures ScanInteger(negative, Numeral(n) + more) == Scanned(IntTok(Clamp(if negative then 0 - n else n)), more)
  {
    var d := Numeral(n);
    var s := d + more;
    DigitCountOfNumeral(d, more);
    ValueOfNumeral(n);
    if n > 0 {
      NumeralHead(n);
    }
    assert Char(s, |d|) == Char(more, 0);
    assert n == 0 ==> Char(s, 1) == Char(more, 0);
    assert s[..|d|] == d && s[|d|..] == more;
  }

  lemma {:induction false} LexNegative(prev: Token, n: nat, more: string)
    requires 0 < n <= -INT_MIN && (more == "" || (!IsWord(more[0]) && more[0] != '.')) && !EndsOperand(prev)
    ensures Lexed(prev, ("-" + Numeral(n)) + more, [IntTok(0 - n)], more)
  {
    var s := ("-" + Numeral(n)) + more;
    assert s[1..] == Numeral(n) + more;
    ScanNumeral(true, n, more);
    OneToken(prev, s, IntTok(0 - n), more);
  }

  lemma {:induction false} LexValue(prev: Token, v: Value, more: string)
    requires SpellableValue(v) && !EndsOperand(prev)
    requires Boundary(more) && (v.Int? ==> Char(more, 0) != '.')
    ensures Lexed(prev, ValueText(v) + more, [LiteralToken(v)], more)
  {
    hide Lexed;
    hide Numeral;
    hide SkipSpaces;
    hide Lex;
    hide Escape;
    hide WordToken;
    match v
    case Int(i) =>
      if i < 0 { LexNegative(prev, -i, more); } else { LexNumeral(prev, i, more); }
    case Str(s) =>
      LexQuoted(prev, s, '"', more);
      Requote(Escape(s, '"'), more);
    case Undefined => LexReserved(prev, "undefined", more);
    case Error => LexReserved(prev, "error", more);
    case Bool(b) =>
      if b { LexReserved(prev, "true", more); } else { LexReserved(prev, "false", more); }
  }

  lemma {:induction false} Requote(body: string, more: string)
    ensures ("\"" + body + "\"") + more == "\"" + (body + ("\"" + more))
  {
  }

  function ReservedToken(word: string): (t: Token) {
    if word == "undefined" then UndefinedTok
    else if word == "error" then ErrorTok
    else if word == "true" then BoolTok(true)
    else if word == "false" then BoolTok(false)
    else if word == "is" then OpTok(Is)
    else OpTok(Isnt)
  }

  predicate IsReserved(word: string) {
    word in {"undefined", "error", "true", "false", "is", "isnt"}
  }

  lemma {:induction false} LexReserved(prev: Token, word: string, more: string)
    requires IsReserved(word)
    requires more == "" || !IsWord(more[0])
    ensures Lexed(prev, word + more, [ReservedToken(word)], more)
  {
    hide Lex;
    hide WordToken;
    ReservedIsWord(word);
    LexWord(prev, word, more);
  }

  lemma {:induction false} ReservedIsWord(word: string)
    requires IsReserved(word)
    ensures word != "" && IsAlpha(word[0])
    ensures WordLength(word) == |word| && WordToken(word) == ReservedToken(word)
  {
    hide Fold;
    hide WordLength;
    LowerCaseWord(word);
  }

  lemma {:induction false} LowerCaseWord(word: string)
    requires forall i :: 0 <= i < |word| ==> 'a' <= word[i] <= 'z'
    ensures WordLength(word) == |word| && Fold(word) == word
  {
    if word != "" {
      LowerCaseWord(word[1..]);
      assert word == [word[0]] + word[1..];
    }
  }

  lemma {:induction false} EscapeOfWord(s: string)
    requires IsText(s)
    ensures WordLength(s) == |s| ==> Escape(s, '\'') == s
    ensures WordLength(s) < |s| ==> WordLength(Escape(s, '\'')) < |Escape(s, '\'')|
    ensures s != "" && IsWord(s[0]) ==> Escape(s, '\'') != "" && Escape(s, '\'')[0] == s[0]
  {
    if s != "" {
      var e, tail := EscapeChar(s[0], '\''), Escape(s[1..], '\'');
      if IsWord(s[0]) {
        EscapeOfWord(s[1..]);
        assert e == [s[0]];
        assert (e + tail)[1..] == tail;
        assert s == [s[0]] + s[1..];
      } else {
        assert !IsWord((e + tail)[0]);
      }
    }
  }

  lemma {:induction false} LexName(prev: Token, name: string, more: string)
    requires GoodName(name) && Boundary(more)
    ensures Lexed(prev, NameText(name) + more, [IdentTok(name)], more)
  {
    hide Lex;
    hide Escape;
    hide WordLength;
    hide WordToken;
    var e := Escape(name, '\'');
    EscapeOfWord(name);
    if WordLength(name) == |name| {
      WordTokenKeepsName(name);
      LexWord(prev, name, more);
    } else {
      LexQuoted(prev, name, '\'', more);
      assert NameText(name) + more == "'" + (e + ("'" + more));
    }
  }

  lemma {:induction false} WordTokenKeepsName(name: string)
    ensures WordToken(name).IdentTok? ==> WordToken(name) == IdentTok(name)
  {
  }

  lemma {:induction false} LexPlain(prev: Token, name: string, more: string)
    requires PlainName(name) && Boundary(more)
    ensures Lexed(prev, name + more, [IdentTok(name)], more)
  {
    hide Lex;
    hide WordToken;
    hide WordLength;
    WordTokenKeepsName(name);
    LexWord(prev, name, more);
  }

  lemma {:induction false} ScanOperator(prev: Token, op: BinaryOp, more: string)
    requires !op.Subscript?
    ensures var s := OpSymbol(op) + (" " + more);
            && !IsSpace(s[0]) && s[0] != NUL && !IsQuote(s[0])
            && Scan(prev, s) == Scanned(OpTok(op), " " + more)
  {
    hide WordToken;
    hide WordLength;
    var t := " " + more;
    var s := OpSymbol(op) + t;
    if op.Is? || op.Isnt? {
      ReservedIsWord(OpSymbol(op));
      ScanWord(prev, OpSymbol(op), t);
    } else {
      ScanSymbol(prev, op, t);
    }
  }

  lemma {:induction false} ScanSymbol(prev: Token, op: BinaryOp, t: string)
    requires !op.Subscript? && !op.Is? && !op.Isnt? && Char(t, 0) == ' '
    ensures Scan(prev, OpSymbol(op) + t) == Scanned(OpTok(op), t)
  {
    hide ScanPunctuation;
    hide ScanInteger;
    hide ScanString;
    hide ScanDot;
    var sym := OpSymbol(op);
    var s := sym + t;
    assert s[|sym|..] == t;
    assert Char(s, |sym|) == ' ';
    assert s[0] == sym[0];
    if !op.Sub? {
      PunctuationSymbol(op, t);
    }
  }

  lemma {:induction false} PunctuationSymbol(op: BinaryOp, t: string)
    requires !op.Subscript? && !op.Is? && !op.Isnt? && !op.Sub? && Char(t, 0) == ' '
    ensures ScanPunctuation(OpSymbol(op) + t) == Scanned(OpTok(op), t)
  {
    var sym := OpSymbol(op);
    var s := sym + t;
    assert s[|sym|..] == t;
    assert Char(s, |sym|) == ' ';
    assert s[0] == sym[0];
    if |sym| >= 2 { assert s[1] == sym[1]; }
    if |sym| >= 3 { assert s[2] == sym[2]; }
  }

  lemma {:induction false} LexOperator(prev: Token, op: BinaryOp, more: string)
    requires !op.Subscript?
    ensures Lexed(prev, " " + (OpSymbol(op) + (" " + more)), [OpTok(op)], more)
    ensures Boundary(" " + (OpSymbol(op) + (" " + more)))
  {
    var s := OpSymbol(op) + (" " + more);
    ScanOperator(prev, op, more);
    OneSpacedToken(prev, s, OpTok(op), more);
    assert s == [s[0]] + s[1..];
    SpacedBoundary(s[0], s[1..]);
  }

  predicate Punctuation(c: char) {
    c in {'[', ']', '(', ')', '{', '}', ',', ';', '?', ':', '=', '~', '+'}
  }

  function PunctuationToken(c: char): (t: Token) {
    if c == '=' then Assign else Single(c)
  }

  /** A punctuation mark, possibly with a space on either side. */
  lemma {:induction false} LexMark(prev: Token, c: char, more: string)
    requires Punctuation(c) && (c == '=' ==> Char(more, 0) == ' ')
    ensures Lexed(prev, [c] + more, [PunctuationToken(c)], more)
    ensures Lexed(prev, " " + ([c] + more), [PunctuationToken(c)], more)
  {
    var s := [c] + more;
    assert s[1..] == more;
    assert c == '=' ==> Char(s, 1) == ' ';
    assert Scan(prev, s) == Scanned(PunctuationToken(c), more);
    OneToken(prev, s, PunctuationToken(c), more);
    SpaceIsSkipped(prev, s);
  }

  lemma {:induction false} Spaced(prev: Token, s: string, toks: seq<Token>, more: string)
    requires Lexed(prev, s, toks, " " + more)
    ensures Lexed(prev, s, toks, more)
  {
    SpaceIsSkipped(LastOf(prev, toks), more);
  }

  lemma {:induction false} LexDot(prev: Token, more: string)
    requires more != "" && !IsDigit(more[0]) && more[0] != '.'
    ensures Lexed(prev, "." + more, [Dot], more)
  {
    var s := "." + more;
    assert s[1..] == more;
    OneToken(prev, s, Dot, more);
  }

  lemma {:induction false} LexUnary(prev: Token, op: UnaryOp, more: string)
    requires !op.Parentheses? && !EndsOperand(prev) && more != ""
    requires op.UnaryMinus? ==> !IsDigit(more[0]) && (more[0] == '.' ==> !IsDigit(Char(more, 1)))
    requires op.LogicalNot? ==> more[0] != '='
    ensures Lexed(prev, (" " + UnarySymbol(op)) + more, [UnaryToken(op)], more)
  {
    var s := UnarySymbol(op) + more;
    assert s[1..] == more && Char(s, 1) == more[0] && Char(s, 2) == Char(more, 1);
    assert Scan(prev, s) == Scanned(UnaryToken(op), more);
    OneToken(prev, s, UnaryToken(op), more);
    SpaceIsSkipped(prev, s);
    assert (" " + UnarySymbol(op)) + more == " " + s;
  }

  // -------------------------------------------------------------- the tree

  /** The first character of a printed expression. */
  lemma {:induction false} FirstChar(e: Expr)
    requires WellFormed(e) && Spellable(e)
    ensures TextOf(e) != "" && TextOf(e)[0] != '='
    ensures TextOf(e)[0] == '.' ==> |TextOf(e)| > 1 && !IsDigit(TextOf(e)[1])
    decreases e
  {
    match e
    case Literal(v) => FirstOfValue(v);
    case Ref(name, _) => FirstOfName(name);
    case Select(base, _) => FirstChar(base);
    case Binary(_, l, _) => FirstChar(l);
    case Ternary(c, _, _) => FirstChar(c);
    case _ =>
  }

  lemma {:induction false} FirstOfValue(v: Value)
    requires SpellableValue(v)
    ensures ValueText(v) != "" && ValueText(v)[0] != '=' && ValueText(v)[0] != '.'
  {
  }

  lemma {:induction false} FirstOfName(name: string)
    requires GoodName(name)
    ensures NameText(name) != ""
    ensures NameText(name)[0] == name[0] || NameText(name)[0] == '\''
  {
    EscapeOfWord(name);
  }

  /** Reading the text of a tree gives the printed tokens of that tree. */
  lemma {:induction false} LexOfText(e: Expr, prev: Token, more: string)
    requires WellFormed(e) && Spellable(e) && !EndsOperand(prev)
    requires Boundary(more) && (Char(more, 0) == '.' ==> Tier(e) >= 12 && !(e.Literal? && e.value.Int?))
    ensures Lexed(prev, TextOf(e) + more, Unparse(e), more)
    decreases e, 2
  {
    match e
    case Literal(v) => LexValue(prev, v, more);
    case Ref(name, absolute) => LexReference(name, absolute, prev, more);
    case Select(base, attr) => LexSelect(e, prev, more);
    case Unary(op, arg) =>
      if op.Parentheses? { LexParenthesized(e, prev, more); } else { LexPrefixed(e, prev, more); }
    case Binary(op, l, r) =>
      if op.Subscript? { LexSubscript(e, prev, more); } else { LexBinary(e, prev, more); }
    case Ternary(c, t, f) => LexTernary(e, prev, more);
    case Call(fn, args) => LexCall(e, prev, more);
    case ExprList(elems) => LexList(e, prev, more);
    case Ad(attrs) => LexAd(e, prev, more);
  }

  lemma {:induction false} LexReference(name: string, absolute: bool, prev: Token, more: string)
    requires GoodName(name) && Boundary(more)
    ensures Lexed(prev, TextOf(Ref(name, absolute)) + more, Unparse(Ref(name, absolute)), more)
  {
    hide Lex;
    hide Lexed;
    hide NameText;
    var text := NameText(name) + more;
    if absolute {
      FirstOfName(name);
      LexDot(prev, text);
      LexName(Dot, name, more);
      Chain(prev, "." + text, [Dot], text, [IdentTok(name)], more);
      assert TextOf(Ref(name, true)) + more == "." + text;
    } else {
      LexName(prev, name, more);
      assert TextOf(Ref(name, false)) + more == text;
      assert Unparse(Ref(name, false)) == [IdentTok(name)];
    }
  }

  lemma {:induction false} LexSelect(e: Expr, prev: Token, more: string)
    requires e.Select? && WellFormed(e) && Spellable(e) && !EndsOperand(prev) && Boundary(more)
    ensures Lexed(prev, TextOf(e) + more, Unparse(e), more)
    decreases e, 0
  {
    hide Lex;
    hide Lexed;
    hide TextOf;
    hide Unparse;
    var name := e.attr + more;
    BoundaryOf('.', name);
    LexOfText(e.base, prev, "." + name);
    LexDot(LastOf(prev, Unparse(e.base)), name);
    LexPlain(Dot, e.attr, more);
    Chain(LastOf(prev, Unparse(e.base)), "." + name, [Dot], name, [IdentTok(e.attr)], more);
    SelectText(e, more);
    Chain(prev, TextOf(e) + more, Unparse(e.base), "." + name, [Dot] + [IdentTok(e.attr)], more);
  }

  lemma {:induction false} SelectText(e: Expr, more: string)
    requires e.Select? && WellFormed(e)
    ensures TextOf(e) + more == TextOf(e.base) + ("." + (e.attr + more))
    ensures Unparse(e) == Unparse(e.base) + ([Dot] + [IdentTok(e.attr)])
  {
    assert [Dot, IdentTok(e.attr)] == [Dot] + [IdentTok(e.attr)];
  }

  lemma {:induction false} LexParenthesized(e: Expr, prev: Token, more: string)
    requires e.Unary? && e.uop.Parentheses?
    requires WellFormed(e) && Spellable(e) && !EndsOperand(prev) && Boundary(more)
    ensures Lexed(prev, TextOf(e) + more, Unparse(e), more)
    decreases e, 0
  {
    hide Lex;
    hide TextOf;
    hide Unparse;
    hide Lexed;
    var tail := " " + (")" + more);
    var inside := TextOf(e.arg) + tail;
    var all := "(" + (" " + inside);
    LexMark(prev, '(', " " + inside);
    Spaced(prev, all, [OpenParen], inside);
    SpacedBoundary(')', more);
    LexOfText(e.arg, OpenParen, tail);
    LexMark(LastOf(OpenParen, Unparse(e.arg)), ')', more);
    Chain(OpenParen, inside, Unparse(e.arg), tail, [CloseParen], more);
    Chain(prev, all, [OpenParen], inside, Unparse(e.arg) + [CloseParen], more);
    ParenText(e, more);
  }

  lemma {:induction false} ParenText(e: Expr, more: string)
    requires e.Unary? && e.uop.Parentheses? && WellFormed(e)
    ensures TextOf(e) + more == "(" + (" " + (TextOf(e.arg) + (" " + (")" + more))))
    ensures Unparse(e) == [OpenParen] + (Unparse(e.arg) + [CloseParen])
  {
    assert TextOf(e) == ("(" + " ") + (TextOf(e.arg) + (" " + ")"));
    Bracketed("(", TextOf(e.arg), ")", more);
  }

  lemma {:induction false} LexPrefixed(e: Expr, prev: Token, more: string)
    requires e.Unary? && !e.uop.Parentheses?
    requires WellFormed(e) && Spellable(e) && !EndsOperand(prev) && Boundary(more) && Char(more, 0) != '.'
    ensures Lexed(prev, TextOf(e) + more, Unparse(e), more)
    decreases e, 0
  {
    hide Lex;
    hide Lexed;
    FirstChar(e.arg);
    var inside := TextOf(e.arg) + more;
    var tok := UnaryToken(e.uop);
    LexUnary(prev, e.uop, inside);
    LexOfText(e.arg, tok, more);
    Chain(prev, (" " + UnarySymbol(e.uop)) + inside, [tok], inside, Unparse(e.arg), more);
    assert TextOf(e) + more == (" " + UnarySymbol(e.uop)) + inside;
  }

  lemma {:induction false} LexSubscript(e: Expr, prev: Token, more: string)
    requires e.Binary? && e.op.Subscript?
    requires WellFormed(e) && Spellable(e) && !EndsOperand(prev) && Boundary(more)
    ensures Lexed(prev, TextOf(e) + more, Unparse(e), more)
    decreases e, 0
  {
    hide Lex;
    hide TextOf;
    hide Unparse;
    hide Lexed;
    var tail := "]" + more;
    var inside := TextOf(e.right) + tail;
    var open := "[" + inside;
    var l, r := Unparse(e.left), Unparse(e.right);
    BoundaryOf('[', inside);
    BoundaryOf(']', more);
    LexOfText(e.left, prev, open);
    LexMark(LastOf(prev, l), '[', inside);
    LexOfText(e.right, OpenBox, tail);
    LexMark(LastOf(OpenBox, r), ']', more);
    Chain(OpenBox, inside, r, tail, [CloseBox], more);
    Chain(LastOf(prev, l), open, [OpenBox], inside, r + [CloseBox], more);
    SubscriptText(e, more);
    Chain(prev, TextOf(e) + more, l, open, [OpenBox] + (r + [CloseBox]), more);
  }

  lemma {:induction false} SubscriptText(e: Expr, more: string)
    requires e.Binary? && e.op.Subscript? && WellFormed(e)
    ensures TextOf(e) + more == TextOf(e.left) + ("[" + (TextOf(e.right) + ("]" + more)))
    ensures Unparse(e) == Unparse(e.left) + ([OpenBox] + (Unparse(e.right) + [CloseBox]))
  {
    var l, r := TextOf(e.left), TextOf(e.right);
    assert (l + ("[" + (r + "]"))) + more == l + ("[" + (r + ("]" + more)));
  }

  lemma {:induction false} LexBinary(e: Expr, prev: Token, more: string)
    requires e.Binary? && !e.op.Subscript?
    requires WellFormed(e) && Spellable(e) && !EndsOperand(prev) && Boundary(more) && Char(more, 0) != '.'
    ensures Lexed(prev, TextOf(e) + more, Unparse(e), more)
    decreases e, 0
  {
    hide Lex;
    hide TextOf;
    hide Unparse;
    hide Lexed;
    var right := TextOf(e.right) + more;
    var tail := " " + (OpSymbol(e.op) + (" " + right));
    var l, r := Unparse(e.left), Unparse(e.right);
    LexOperator(LastOf(prev, l), e.op, right);
    LexOfText(e.left, prev, tail);
    LexOfText(e.right, OpTok(e.op), more);
    Chain(LastOf(prev, l), tail, [OpTok(e.op)], right, r, more);
    BinaryText(e, more);
    Chain(prev, TextOf(e) + more, l, tail, [OpTok(e.op)] + r, more);
  }

  lemma {:induction false} BinaryText(e: Expr, more: string)
    requires e.Binary? && !e.op.Subscript? && WellFormed(e)
    ensures TextOf(e) + more == TextOf(e.left) + (" " + (OpSymbol(e.op) + (" " + (TextOf(e.right) + more))))
    ensures Unparse(e) == Unparse(e.left) + ([OpTok(e.op)] + Unparse(e.right))
  {
    Rebracket(TextOf(e.left), " ", OpSymbol(e.op), " ", TextOf(e.right), more);
  }

  /** A mark with a space on both sides. */
  lemma {:induction false} LexSpacedMark(prev: Token, c: char, more: string)
    requires Punctuation(c)
    ensures Lexed(prev, " " + ([c] + (" " + more)), [PunctuationToken(c)], more)
    ensures Boundary(" " + ([c] + (" " + more)))
  {
    hide Lex;
    hide Lexed;
    LexMark(prev, c, " " + more);
    Spaced(prev, " " + ([c] + (" " + more)), [PunctuationToken(c)], more);
    SpacedBoundary(c, " " + more);
  }

  lemma {:induction false} LexTernary(e: Expr, prev: Token, more: string)
    requires e.Ternary?
    requires WellFormed(e) && Spellable(e) && !EndsOperand(prev) && Boundary(more) && Char(more, 0) != '.'
    ensures Lexed(prev, TextOf(e) + more, Unparse(e), more)
    decreases e, 1
  {
    hide Lex;
    hide TextOf;
    hide Unparse;
    hide Lexed;
    var mid := TextOf(e.onTrue) + (" " + (":" + (" " + (TextOf(e.onFalse) + more))));
    var mark := " " + ("?" + (" " + mid));
    var c := Unparse(e.cond);
    var arms := Unparse(e.onTrue) + ([Colon] + Unparse(e.onFalse));
    LexSpacedMark(LastOf(prev, c), '?', mid);
    LexOfText(e.cond, prev, mark);
    LexArms(e, more);
    Chain(LastOf(prev, c), mark, [QMark], mid, arms, more);
    Chain(prev, TextOf(e.cond) + mark, c, mark, [QMark] + arms, more);
    TernaryText(e, more);
    TernaryTokens(e);
  }

  lemma {:induction false} LexArms(e: Expr, more: string)
    requires e.Ternary? && WellFormed(e.onTrue) && WellFormed(e.onFalse)
    requires Spellable(e.onTrue) && Spellable(e.onFalse) && Boundary(more) && Char(more, 0) != '.'
    ensures Lexed(QMark, TextOf(e.onTrue) + (" " + (":" + (" " + (TextOf(e.onFalse) + more)))),
                  Unparse(e.onTrue) + ([Colon] + Unparse(e.onFalse)), more)
    decreases e, 0
  {
    hide Lex;
    hide TextOf;
    hide Unparse;
    hide Lexed;
    hide WellFormed;
    hide Spellable;
    hide SkipSpaces;
    var last := TextOf(e.onFalse) + more;
    var colon := " " + (":" + (" " + last));
    LexSpacedMark(LastOf(QMark, Unparse(e.onTrue)), ':', last);
    LexOfText(e.onTrue, QMark, colon);
    LexOfText(e.onFalse, Colon, more);
    ArmsChain(TextOf(e.onTrue), last, Unparse(e.onTrue), Unparse(e.onFalse), more);
  }

  lemma {:induction false} ArmsChain(text: string, last: string, t: seq<Token>, f: seq<Token>, more: string)
    requires var colon := " " + (":" + (" " + last));
             && Lexed(LastOf(QMark, t), colon, [Colon], last) && Lexed(QMark, text + colon, t, colon)
             && Lexed(Colon, last, f, more)
    ensures Lexed(QMark, text + (" " + (":" + (" " + last))), t + ([Colon] + f), more)
  {
    hide Lex;
    hide Lexed;
    var colon := " " + (":" + (" " + last));
    Chain(LastOf(QMark, t), colon, [Colon], last, f, more);
    Chain(QMark, text + colon, t, colon, [Colon] + f, more);
  }

  lemma {:induction false} TernaryTokens(e: Expr)
    requires e.Ternary? && WellFormed(e)
    ensures Unparse(e) == Unparse(e.cond) + ([QMark] + (Unparse(e.onTrue) + ([Colon] + Unparse(e.onFalse))))
  {
    TernaryDefined(e);
    hide Unparse;
    RebracketTokens(Unparse(e.cond), [QMark], Unparse(e.onTrue), [Colon], Unparse(e.onFalse));
  }

  lemma {:induction false} TernaryDefined(e: Expr)
    requires e.Ternary? && WellFormed(e)
    ensures Unparse(e) == Unparse(e.cond) + [QMark] + Unparse(e.onTrue) + [Colon] + Unparse(e.onFalse)
  {
  }

  lemma {:induction false} RebracketTokens(a: seq<Token>, b: seq<Token>, c: seq<Token>, d: seq<Token>, e: seq<Token>)
    ensures a + b + c + d + e == a + (b + (c + (d + e)))
  {
  }

  lemma {:induction false} TernaryText(e: Expr, more: string)
    requires e.Ternary?
    ensures TextOf(e) + more
         == TextOf(e.cond)
            + (" " + ("?" + (" " + (TextOf(e.onTrue) + (" " + (":" + (" " + (TextOf(e.onFalse) + more))))))))
  {
    var c, t, f := TextOf(e.cond), TextOf(e.onTrue), TextOf(e.onFalse);
    Rebracket(c, " ? ", t, " : ", f, more);
    assert " " + (":" + (" " + (f + more))) == " : " + (f + more);
    var mid := t + (" : " + (f + more));
    assert " " + ("?" + (" " + mid)) == " ? " + mid;
  }

  lemma {:induction false} Rebracket(a: string, b: string, c: string, d: string, e: string, more: string)
    ensures (a + (b + (c + (d + e)))) + more == a + (b + (c + (d + (e + more))))
  {
  }

  lemma {:induction false} LexItems(es: seq<Expr>, prev: Token, more: string)
    requires forall i :: 0 <= i < |es| ==> WellFormed(es[i]) && Spellable(es[i])
    requires !EndsOperand(prev) && Boundary(more) && Char(more, 0) != '.'
    ensures Lexed(prev, ItemsText(es) + more, UnparseItems(es), more)
    decreases es, 0
  {
    hide Lex;
    hide Lexed;
    if es == [] {
      NoItems(prev, more);
    } else if |es| == 1 {
      LexOfText(es[0], prev, more);
      OneItem(es);
    } else {
      var first := Unparse(es[0]);
      var tail := ItemsText(es[1..]) + more;
      BoundaryOf(',', tail);
      LexOfText(es[0], prev, "," + tail);
      LexMark(LastOf(prev, first), ',', tail);
      LexItems(es[1..], Comma, more);
      Chain(LastOf(prev, first), "," + tail, [Comma], tail, UnparseItems(es[1..]), more);
      MoreItems(es, more);
      Chain(prev, ItemsText(es) + more, first, "," + tail, [Comma] + UnparseItems(es[1..]), more);
    }
  }

  lemma {:induction false} OneItem(es: seq<Expr>)
    requires |es| == 1 && WellFormed(es[0])
    ensures UnparseItems(es) == Unparse(es[0]) && ItemsText(es) == TextOf(es[0])
  {
    assert UnparseItems(es) == Unparse(es[0]) + [] + [];
  }

  lemma {:induction false} MoreItems(es: seq<Expr>, more: string)
    requires |es| > 1 && forall i :: 0 <= i < |es| ==> WellFormed(es[i])
    ensures ItemsText(es) + more == TextOf(es[0]) + ("," + (ItemsText(es[1..]) + more))
    ensures UnparseItems(es) == Unparse(es[0]) + ([Comma] + UnparseItems(es[1..]))
  {
  }

  lemma {:induction false} NoItems(prev: Token, more: string)
    ensures Lexed(prev, "" + more, [], more)
  {
    assert "" + more == more;
  }

  lemma {:induction false} LexCall(e: Expr, prev: Token, more: string)
    requires e.Call? && WellFormed(e) && Spellable(e) && Boundary(more)
    ensures Lexed(prev, TextOf(e) + more, Unparse(e), more)
    decreases e, 0
  {
    hide Lex;
    hide TextOf;
    hide Unparse;
    hide Lexed;
    var close := ")" + more;
    var inside := ItemsText(e.args) + close;
    var open := "(" + inside;
    var items := UnparseItems(e.args);
    BoundaryOf('(', inside);
    BoundaryOf(')', more);
    LexPlain(prev, e.fn, open);
    LexMark(IdentTok(e.fn), '(', inside);
    LexItems(e.args, OpenParen, close);
    LexMark(LastOf(OpenParen, items), ')', more);
    Chain(OpenParen, inside, items, close, [CloseParen], more);
    Chain(IdentTok(e.fn), open, [OpenParen], inside, items + [CloseParen], more);
    Chain(prev, e.fn + open, [IdentTok(e.fn)], open, [OpenParen] + (items + [CloseParen]), more);
    CallText(e, more);
  }

  lemma {:induction false} CallText(e: Expr, more: string)
    requires e.Call? && WellFormed(e)
    ensures TextOf(e) + more == e.fn + ("(" + (ItemsText(e.args) + (")" + more)))
    ensures Unparse(e) == [IdentTok(e.fn)] + ([OpenParen] + (UnparseItems(e.args) + [CloseParen]))
  {
  }

  lemma {:induction false} LexList(e: Expr, prev: Token, more: string)
    requires e.ExprList? && WellFormed(e) && Spellable(e) && Boundary(more)
    ensures Lexed(prev, TextOf(e) + more, Unparse(e), more)
    decreases e, 0
  {
    hide Lex;
    hide TextOf;
    hide Unparse;
    hide Lexed;
    var close := " " + ("}" + more);
    var inside := ItemsText(e.elems) + close;
    var all := "{" + (" " + inside);
    var items := UnparseItems(e.elems);
    LexMark(prev, '{', " " + inside);
    Spaced(prev, all, [OpenBrace], inside);
    SpacedBoundary('}', more);
    LexItems(e.elems, OpenBrace, close);
    LexMark(LastOf(OpenBrace, items), '}', more);
    Chain(OpenBrace, inside, items, close, [CloseBrace], more);
    Chain(prev, all, [OpenBrace], inside, items + [CloseBrace], more);
    ListText(e, more);
  }

  lemma {:induction false} ListText(e: Expr, more: string)
    requires e.ExprList? && WellFormed(e)
    ensures TextOf(e) + more == "{" + (" " + (ItemsText(e.elems) + (" " + ("}" + more))))
    ensures Unparse(e) == [OpenBrace] + (UnparseItems(e.elems) + [CloseBrace])
  {
    assert TextOf(e) == ("{" + " ") + (ItemsText(e.elems) + (" " + "}"));
    Bracketed("{", ItemsText(e.elems), "}", more);
  }

  lemma {:induction false} Bracketed(open: string, inside: string, close: string, more: string)
    requires |open| == 1 && |close| == 1
    ensures ((open + " ") + (inside + (" " + close))) + more == open + (" " + (inside + (" " + (close + more))))
  {
  }

  lemma {:induction false} LexAttribute(a: Attr, prev: Token, more: string)
    requires GoodName(a.name) && WellFormed(a.expr) && Spellable(a.expr)
    requires Boundary(more) && Char(more, 0) != '.'
    ensures Lexed(prev, AttributeText(a) + more, [IdentTok(a.name), Assign] + Unparse(a.expr), more)
    decreases a, 0
  {
    hide Lex;
    hide Lexed;
    hide NameText;
    hide TextOf;
    hide Unparse;
    hide AttributeText;
    hide WellFormed;
    hide Spellable;
    hide WordLength;
    hide WordToken;
    hide SkipSpaces;
    var value := TextOf(a.expr) + more;
    var equals := " " + ("=" + (" " + value));
    LexSpacedMark(IdentTok(a.name), '=', value);
    LexName(prev, a.name, equals);
    LexOfText(a.expr, Assign, more);
    Chain(IdentTok(a.name), equals, [Assign], value, Unparse(a.expr), more);
    AttributeTextParts(a, more);
    Chain(prev, NameText(a.name) + equals, [IdentTok(a.name)], equals, [Assign] + Unparse(a.expr), more);
    assert [IdentTok(a.name), Assign] + Unparse(a.expr) == [IdentTok(a.name)] + ([Assign] + Unparse(a.expr));
  }

  lemma {:induction false} AttributeTextParts(a: Attr, more: string)
    requires GoodName(a.name)
    ensures AttributeText(a) + more == NameText(a.name) + (" " + ("=" + (" " + (TextOf(a.expr) + more))))
  {
    hide NameText;
    hide TextOf;
    Equation(NameText(a.name), TextOf(a.expr), more);
  }

  lemma {:induction false} Equation(n: string, t: string, more: string)
    ensures (n + (" = " + t)) + more == n + (" " + ("=" + (" " + (t + more))))
  {
    assert " = " + (t + more) == " " + ("=" + (" " + (t + more)));
    assert (n + (" = " + t)) + more == n + (" = " + (t + more));
  }

  lemma {:induction false} LexAttributes(attrs: seq<Attr>, prev: Token, more: string)
    requires forall i :: 0 <= i < |attrs| ==>
      GoodName(attrs[i].name) && WellFormed(attrs[i].expr) && Spellable(attrs[i].expr)
    requires Boundary(more) && Char(more, 0) != '.'
    ensures Lexed(prev, AttributesText(attrs) + more, UnparseAttributes(attrs), more)
    decreases attrs, 0
  {
    hide Lex;
    hide Lexed;
    hide AttributeText;
    if attrs == [] {
      NoItems(prev, more);
    } else {
      var a := attrs[0];
      var first := [IdentTok(a.name), Assign] + Unparse(a.expr);
      if |attrs| == 1 {
        LexAttribute(a, prev, more);
        OneAttribute(attrs);
      } else {
        var tail := AttributesText(attrs[1..]) + more;
        var semi := ";" + (" " + tail);
        var others := UnparseAttributes(attrs[1..]);
        BoundaryOf(';', " " + tail);
        LexAttribute(a, prev, semi);
        LexMark(LastOf(prev, first), ';', " " + tail);
        Spaced(LastOf(prev, first), semi, [Semicolon], tail);
        LexAttributes(attrs[1..], Semicolon, more);
        Chain(LastOf(prev, first), semi, [Semicolon], tail, others, more);
        MoreAttributes(attrs, more);
        Chain(prev, AttributesText(attrs) + more, first, semi, [Semicolon] + others, more);
      }
    }
  }

  lemma {:induction false} OneAttribute(attrs: seq<Attr>)
    requires |attrs| == 1 && WellFormed(attrs[0].expr)
    ensures UnparseAttributes(attrs) == [IdentTok(attrs[0].name), Assign] + Unparse(attrs[0].expr)
    ensures AttributesText(attrs) == AttributeText(attrs[0])
  {
    var first := [IdentTok(attrs[0].name), Assign] + Unparse(attrs[0].expr);
    assert UnparseAttributes(attrs) == first + [] + [];
  }

  lemma {:induction false} MoreAttributes(attrs: seq<Attr>, more: string)
    requires |attrs| > 1 && forall i :: 0 <= i < |attrs| ==> WellFormed(attrs[i].expr)
    ensures AttributesText(attrs) + more
         == AttributeText(attrs[0]) + (";" + (" " + (AttributesText(attrs[1..]) + more)))
    ensures UnparseAttributes(attrs)
         == ([IdentTok(attrs[0].name), Assign] + Unparse(attrs[0].expr)) + ([Semicolon] + UnparseAttributes(attrs[1..]))
  {
    var t := AttributesText(attrs[1..]) + more;
    assert "; " + t == ";" + (" " + t);
  }

  lemma {:induction false} LexAd(e: Expr, prev: Token, more: string)
    requires e.Ad? && WellFormed(e) && Spellable(e) && Boundary(more)
    ensures Lexed(prev, TextOf(e) + more, Unparse(e), more)
    decreases e, 0
  {
    hide Lex;
    hide TextOf;
    hide Unparse;
    hide Lexed;
    var close := " " + ("]" + more);
    var inside := AttributesText(e.attrs) + close;
    var all := "[" + (" " + inside);
    var items := UnparseAttributes(e.attrs);
    LexMark(prev, '[', " " + inside);
    Spaced(prev, all, [OpenBox], inside);
    SpacedBoundary(']', more);
    LexAttributes(e.attrs, OpenBox, close);
    LexMark(LastOf(OpenBox, items), ']', more);
    Chain(OpenBox, inside, items, close, [CloseBox], more);
    Chain(prev, all, [OpenBox], inside, items + [CloseBox], more);
    AdText(e, more);
  }

  lemma {:induction false} AdText(e: Expr, more: string)
    requires e.Ad? && WellFormed(e)
    ensures TextOf(e) + more == "[" + (" " + (AttributesText(e.attrs) + (" " + ("]" + more))))
    ensures Unparse(e) == [OpenBox] + (UnparseAttributes(e.attrs) + [CloseBox])
  {
    assert TextOf(e) == ("[" + " ") + (AttributesText(e.attrs) + (" " + "]"));
    Bracketed("[", AttributesText(e.attrs), "]", more);
  }

  /** Reading and parsing the printed text of a tree gives that tree back. */
  lemma {:induction false} ParseOfText(e: Expr)
    requires WellFormed(e) && Spellable(e)
    ensures ParseExpression(Lex(EndOfInput, TextOf(e))) == Parse(e, [])
  {
    LexOfText(e, EndOfInput, "");
    assert TextOf(e) + "" == TextOf(e);
    assert Lex(LastOf(EndOfInput, Unparse(e)), "") == [];
    assert Unparse(e) + [] == Unparse(e);
    RoundTrip.ParseOfUnparse(e);
  }

  // ------------------------------------------------- what does not come back

  /** A minus sign written before a natural number is read as part of it. */
  lemma {:induction false} MinusJoinsNumber(n: nat)
    requires n <= INT_MAX
    ensures ParseExpression(Lex(EndOfInput, TextOf(Unary(UnaryMinus, Literal(Int(n))))))
         == Parse(Literal(Int(0 - n)), [])
  {
    hide Lex;
    hide Numeral;
    var digits := "-" + Numeral(n);
    MinusText(n);
    SpaceIsSkipped(EndOfInput, digits);
    MinusNumeral(n);
    RoundTrip.ParseOfUnparse(Literal(Int(0 - n)));
  }

  lemma {:induction false} MinusText(n: nat)
    ensures TextOf(Unary(UnaryMinus, Literal(Int(n)))) == " " + ("-" + Numeral(n))
  {
    hide Numeral;
    var number := Literal(Int(n));
    assert TextOf(number) == ValueText(Int(n)) == Numeral(n);
    assert TextOf(Unary(UnaryMinus, number)) == (" " + UnarySymbol(UnaryMinus)) + TextOf(number);
    assert (" " + "-") + Numeral(n) == " " + ("-" + Numeral(n));
  }

  lemma {:induction false} MinusNumeral(n: nat)
    requires n <= INT_MAX
    ensures Lex(EndOfInput, "-" + Numeral(n)) == [IntTok(0 - n)]
  {
    var s := "-" + Numeral(n);
    assert s[1..] == Numeral(n) + "";
    ScanNumeral(true, n, "");
    OneToken(EndOfInput, s, IntTok(0 - n), "");
  }

  /** The names that come back when printed and read are exactly the good ones. */
  lemma {:induction false} NameComesBack(name: string)
    requires IsText(name)
    ensures Lex(EndOfInput, NameText(name)) == [IdentTok(name)] <==> GoodName(name)
  {
    if GoodName(name) {
      GoodNameComesBack(name);
    } else if name != "" && (IsAlpha(name[0]) || name[0] == '_') {
      ReservedNameIsLost(name);
    } else {
      OddNameIsLost(name);
    }
  }

  lemma {:induction false} GoodNameComesBack(name: string)
    requires GoodName(name)
    ensures Lex(EndOfInput, NameText(name)) == [IdentTok(name)]
  {
    hide NameText;
    LexName(EndOfInput, name, "");
    assert NameText(name) + "" == NameText(name);
  }

  lemma {:induction false} ReservedNameIsLost(name: string)
    requires IsText(name) && !GoodName(name) && name != "" && (IsAlpha(name[0]) || name[0] == '_')
    ensures Lex(EndOfInput, NameText(name)) != [IdentTok(name)]
  {
    hide Lex;
    hide WordToken;
    EscapeOfWord(name);
    assert NameText(name) == name;
    LexWord(EndOfInput, name, "");
    assert name + "" == name;
    assert Lex(EndOfInput, name)[0] == WordToken(name);
  }

  lemma {:induction false} OddNameIsLost(name: string)
    requires IsText(name) && (name == "" || (!IsAlpha(name[0]) && name[0] != '_'))
    ensures Lex(EndOfInput, NameText(name)) != [IdentTok(name)]
  {
    hide Lex;
    hide SkipSpaces;
    var text := Escape(name, '\'');
    EscapeStart(name);
    assert NameText(name) == text;
    var t := SkipSpaces(text);
    if t == "" || t[0] == NUL {
      LexNothing(EndOfInput, text);
    } else {
      LexHead(EndOfInput, text);
      IdentifierStart(EndOfInput, t);
    }
  }

  lemma {:induction false} LexNothing(prev: Token, s: string)
    requires var t := SkipSpaces(s); t == "" || t[0] == NUL
    ensures Lex(prev, s) == []
  {
  }

  lemma {:induction false} LexHead(prev: Token, s: string)
    requires var t := SkipSpaces(s); t != "" && t[0] != NUL
    ensures Lex(prev, s) != [] && Lex(prev, s)[0] == Scan(prev, SkipSpaces(s)).tok
  {
  }

  lemma {:induction false} IdentifierStart(prev: Token, t: string)
    requires t != "" && t[0] != '\''
    ensures var tok := Scan(prev, t).tok;
            tok.IdentTok? ==> tok.name != "" && (IsAlpha(tok.name[0]) || tok.name[0] == '_')
  {
    if IsWord(t[0]) && !IsDigit(t[0]) {
      WordTokenKeepsName(t[..WordLength(t)]);
    }
  }

  lemma {:induction false} EscapeStart(s: string)
    requires IsText(s)
    ensures var t := SkipSpaces(Escape(s, '\'')); t != "" ==> t[0] != '\''
    ensures s != "" && !IsAlpha(s[0]) && s[0] != '_' ==>
              var e := Escape(s, '\''); e != "" && !IsAlpha(e[0]) && e[0] != '_'
  {
    if s != "" {
      var e, tail := EscapeChar(s[0], '\''), Escape(s[1..], '\'');
      assert (e + tail)[0] == e[0];
      if s[0] == ' ' {
        EscapeStart(s[1..]);
        assert e == " " && (e + tail)[1..] == tail;
      } else {
        assert !IsSpace(e[0]) && e[0] != '\'';
      }
    }
  }
}
