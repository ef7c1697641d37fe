/** Input as people write it: the spelling of every token, and what the printer never writes. */
module Spellings {
  import opened Text
  import opened Expressions
  import opened Tokens
  import opened Grammar
  import opened Escapes
  import opened Decimal
  import opened Lexing
  import opened Rendering
  import opened TextRoundTrip
  import RoundTrip

  // ---------------------------------------------------------------- operators

  /** The next character cannot make a longer operator. */
  predicate Ends(more: string) {
    more == "" || more[0] == ' '
  }

  /** The first characters of words, numbers, quoted texts, minus signs and dots are dealt with elsewhere. */
  predicate Special(c: char) {
    c == '-' || c == '.' || IsWord(c) || IsQuote(c)
  }

  /** Scanning a text of punctuation looks at most two characters ahead. */
  lemma Spelt(prev: Token, text: string, more: string)
    requires 1 <= |text| <= 3 && !Special(text[0]) && Ends(more)
    ensures var s := text + more;
            && Scan(prev, s) == ScanPunctuation(s) && s[0] == text[0] && s[|text|..] == more
            && Char(s, 1) == (if |text| > 1 then text[1] else Char(more, 0))
            && (|text| > 1 ==> Char(s, 2) == if |text| > 2 then text[2] else Char(more, 0))
            && (Char(more, 0) == NUL || Char(more, 0) == ' ')
            && s[1..] == text[1..] + more
  {
    hide ScanPunctuation;
  }

  /** Comparisons. */
  lemma OrderSpellings(prev: Token, more: string)
    requires Ends(more)
    ensures Scan(prev, "<" + more) == Scanned(OpTok(Less), more)
    ensures Scan(prev, "<=" + more) == Scanned(OpTok(LessEq), more)
    ensures Scan(prev, ">" + more) == Scanned(OpTok(Greater), more)
    ensures Scan(prev, ">=" + more) == Scanned(OpTok(GreaterEq), more)
  {
    hide Scan;
    Spelt(prev, "<", more);
    Spelt(prev, "<=", more);
    Spelt(prev, ">", more);
    Spelt(prev, ">=", more);
  }

  /** Equalities. The forms of `is` and `isnt` that are not words are there for older programs. */
  lemma EqualitySpellings(prev: Token, more: string)
    requires Ends(more)
    ensures Scan(prev, "==" + more) == Scanned(OpTok(Equal), more)
    ensures Scan(prev, "!=" + more) == Scanned(OpTok(NotEqual), more)
    ensures Scan(prev, "=?=" + more) == Scanned(OpTok(Is), more)
    ensures Scan(prev, "=!=" + more) == Scanned(OpTok(Isnt), more)
    ensures Scan(prev, "=" + more) == Scanned(Assign, more)
  {
    hide Scan;
    Spelt(prev, "==", more);
    Spelt(prev, "!=", more);
    Spelt(prev, "=?=", more);
    Spelt(prev, "=!=", more);
    Spelt(prev, "=", more);
  }

  /** Shifts. */
  lemma ShiftSpellings(prev: Token, more: string)
    requires Ends(more)
    ensures Scan(prev, "<<" + more) == Scanned(OpTok(ShiftLeft), more)
    ensures Scan(prev, ">>" + more) == Scanned(OpTok(ShiftRight), more)
    ensures Scan(prev, ">>>" + more) == Scanned(OpTok(UShiftRight), more)
  {
    hide Scan;
    Spelt(prev, "<<", more);
    Spelt(prev, ">>", more);
    Spelt(prev, ">>>", more);
  }

  /** Bitwise operators and connectives. */
  lemma BitSpellings(prev: Token, more: string)
    requires Ends(more)
    ensures Scan(prev, "&" + more) == Scanned(OpTok(BitAnd), more)
    ensures Scan(prev, "|" + more) == Scanned(OpTok(BitOr), more)
    ensures Scan(prev, "^" + more) == Scanned(OpTok(BitXor), more)
    ensures Scan(prev, "&&" + more) == Scanned(OpTok(And), more)
    ensures Scan(prev, "||" + more) == Scanned(OpTok(Or), more)
  {
    hide Scan;
    Spelt(prev, "&", more);
    Spelt(prev, "|", more);
    Spelt(prev, "^", more);
    Spelt(prev, "&&", more);
    Spelt(prev, "||", more);
  }

  /** Arithmetic; minus signs are further down. */
  lemma ArithmeticSpellings(prev: Token, more: string)
    requires Ends(more)
    ensures Scan(prev, "+" + more) == Scanned(OpTok(Add), more)
    ensures Scan(prev, "*" + more) == Scanned(OpTok(Mul), more)
    ensures Scan(prev, "/" + more) == Scanned(OpTok(Div), more)
    ensures Scan(prev, "%" + more) == Scanned(OpTok(Mod), more)
  {
    hide Scan;
    Spelt(prev, "+", more);
    Spelt(prev, "*", more);
    Spelt(prev, "/", more);
    Spelt(prev, "%", more);
  }

  /** Prefix operators and the marks of conditionals and lists. */
  lemma PrefixSpellings(prev: Token, more: string)
    requires Ends(more)
    ensures Scan(prev, "!" + more) == Scanned(LogicalNotTok, more)
    ensures Scan(prev, "~" + more) == Scanned(BitwiseNotTok, more)
    ensures Scan(prev, "?" + more) == Scanned(QMark, more)
    ensures Scan(prev, ":" + more) == Scanned(Colon, more)
    ensures Scan(prev, ";" + more) == Scanned(Semicolon, more)
    ensures Scan(prev, "," + more) == Scanned(Comma, more)
  {
    hide Scan;
    Spelt(prev, "!", more);
    Spelt(prev, "~", more);
    Spelt(prev, "?", more);
    Spelt(prev, ":", more);
    Spelt(prev, ";", more);
    Spelt(prev, ",", more);
  }

  /** Brackets. */
  lemma BracketSpellings(prev: Token, more: string)
    requires Ends(more)
    ensures Scan(prev, "[" + more) == Scanned(OpenBox, more)
    ensures Scan(prev, "]" + more) == Scanned(CloseBox, more)
    ensures Scan(prev, "(" + more) == Scanned(OpenParen, more)
    ensures Scan(prev, ")" + more) == Scanned(CloseParen, more)
    ensures Scan(prev, "{" + more) == Scanned(OpenBrace, more)
    ensures Scan(prev, "}" + more) == Scanned(CloseBrace, more)
  {
    hide Scan;
    Spelt(prev, "[", more);
    Spelt(prev, "]", more);
    Spelt(prev, "(", more);
    Spelt(prev, ")", more);
    Spelt(prev, "{", more);
    Spelt(prev, "}", more);
  }

  /** A dot selects, and so do two. */
  lemma DotSpellings(prev: Token, more: string)
    requires more == "" || (!IsDigit(more[0]) && more[0] != '.')
    ensures Scan(prev, "." + more) == Scanned(Dot, more) && Scan(prev, ".." + more) == Scanned(Dot, more)
  {
    assert ("." + more)[1..] == more && (".." + more)[2..] == more;
    assert Char("." + more, 1) == Char(more, 0) && Char(".." + more, 2) == Char(more, 0);
  }

  // -------------------------------------------------------------------- words

  /** The reserved words, in capitals or not, and every other word. */
  lemma Words(prev: Token, word: string, more: string)
    requires word != "" && (IsAlpha(word[0]) || word[0] == '_') && WordLength(word) == |word|
    requires more == "" || !IsWord(more[0])
    ensures var r := Scan(prev, word + more);
            && r.rest == more
            && (SameName(word, "true") ==> r.tok == BoolTok(true))
            && (SameName(word, "false") ==> r.tok == BoolTok(false))
            && (SameName(word, "undefined") ==> r.tok == UndefinedTok)
            && (SameName(word, "error") ==> r.tok == ErrorTok)
            && (SameName(word, "is") ==> r.tok == OpTok(Is))
            && (SameName(word, "isnt") ==> r.tok == OpTok(Isnt))
            && (!SameName(word, "true") && !SameName(word, "false") && !SameName(word, "undefined")
                && !SameName(word, "error") && !SameName(word, "is") && !SameName(word, "isnt") ==>
                  r.tok == IdentTok(word))
  {
    hide WordLength;
    hide Scan;
    hide Fold;
    ScanWord(prev, word, more);
    LowerCaseWords();
    DifferentWords();
  }

  lemma LowerCaseWords()
    ensures Fold("true") == "true" && Fold("false") == "false" && Fold("undefined") == "undefined"
    ensures Fold("error") == "error" && Fold("is") == "is" && Fold("isnt") == "isnt"
  {
    hide Fold;
    hide WordLength;
    LowerCaseWord("true");
    LowerCaseWord("false");
    LowerCaseWord("undefined");
    LowerCaseWord("error");
    LowerCaseWord("is");
    LowerCaseWord("isnt");
  }

  lemma DifferentWords()
    ensures "true" != "false" && "true" != "undefined" && "true" != "error" && "true" != "is" && "true" != "isnt"
    ensures "false" != "undefined" && "false" != "error" && "false" != "is" && "false" != "isnt"
    ensures "undefined" != "error" && "undefined" != "is" && "undefined" != "isnt"
    ensures "error" != "is" && "error" != "isnt" && "is" != "isnt"
  {
    assert "true"[0] != "isnt"[0] && "false"[0] != "error"[0];
  }

  // ---------------------------------------------------------------- minus signs

  /** A minus sign before digits is an operator after what can end an operand, and otherwise begins a
      number. */
  lemma MinusBeforeDigits(prev: Token, n: nat, more: string)
    requires more == "" || (!IsWord(more[0]) && more[0] != '.')
    ensures var r := Scan(prev, "-" + (Numeral(n) + more));
            if prev.IntTok? || prev.RealTok? || prev.BoolTok? || prev.StrTok? || prev.UndefinedTok? || prev.ErrorTok?
               || prev.IdentTok? || prev.Dot? || prev.CloseBox? || prev.CloseParen? || prev.CloseBrace?
            then r == Scanned(OpTok(Sub), Numeral(n) + more)
            else r == Scanned(IntTok(Clamp(0 - n)), more)
  {
    hide Numeral;
    var s := "-" + (Numeral(n) + more);
    assert s[1..] == Numeral(n) + more && Char(s, 1) == Numeral(n)[0];
    ScanNumeral(true, n, more);
  }

  // --------------------------------------------------------------- white space

  predicate Blank(gap: string) {
    forall i :: 0 <= i < |gap| ==>
      gap[i] in {' ', '\t', '\n', '\r', VERTICAL_TAB, FORM_FEED}
  }

  lemma {:induction false} BlankIsSkipped(prev: Token, gap: string, s: string)
    requires Blank(gap)
    ensures SkipSpaces(gap + s) == SkipSpaces(s) && Lex(prev, gap + s) == Lex(prev, s)
  {
    if gap == "" {
      assert gap + s == s;
    } else {
      assert (gap + s)[1..] == gap[1..] + s;
      BlankIsSkipped(prev, gap[1..], s);
      SkippedIsSame(prev, gap + s);
      SkippedIsSame(prev, s);
    }
  }

  // ------------------------------------------------------------- quoted texts

  /** Quoted texts with nothing but white space between them are one text. */
  lemma QuotedTwice(prev: Token, s: string, t: string, quote: char, gap: string, more: string)
    requires IsQuote(quote) && IsText(s) && IsText(t) && Blank(gap) && !IsQuote(Char(SkipSpaces(more), 0))
    ensures var second := [quote] + (Escape(t, quote) + ([quote] + more));
            Scan(prev, [quote] + (Escape(s, quote) + ([quote] + (gap + second))))
            == Scanned(if quote == '"' then StrTok(s + t) else IdentTok(s + t), SkipSpaces(more))
  {
    hide Escape;
    hide Unescape;
    hide SkipSpaces;
    hide ClosingQuote;
    var second := [quote] + (Escape(t, quote) + ([quote] + more));
    var after := gap + second;
    var body := Escape(s, quote);
    var inside := body + ([quote] + after);
    assert ([quote] + inside)[1..] == inside;
    ClosingQuoteOfEscape(s, quote, after);
    assert body + [quote] + after == inside;
    assert inside[..|body|] == body && inside[|body| + 1..] == after;
    NextQuote(prev, gap, second);
    assert second[1..] == Escape(t, quote) + ([quote] + more);
    QuotedBody(t, quote, more);
    EscapedBoth(s, t, quote);
    UnescapeOfEscape(s + t, quote);
    assert ScanQuoted(quote, inside) == Some((body + Escape(t, quote), SkipSpaces(more)));
  }

  lemma NextQuote(prev: Token, gap: string, second: string)
    requires Blank(gap) && second != "" && IsQuote(second[0])
    ensures SkipSpaces(gap + second) == second
  {
    BlankIsSkipped(prev, gap, second);
  }

  lemma {:induction false} EscapedBoth(s: string, t: string, quote: char)
    requires IsQuote(quote) && IsText(s) && IsText(t)
    ensures IsText(s + t) && Escape(s + t, quote) == Escape(s, quote) + Escape(t, quote)
  {
    hide EscapeChar;
    if s == "" {
      assert s + t == t;
    } else {
      assert (s + t)[1..] == s[1..] + t;
      EscapedBoth(s[1..], t, quote);
    }
  }

  // ------------------------------------------------------------------ escapes

  /** An escape of one character: seven letters stand for control characters, and any other character that
      is no octal digit for itself. */
  lemma LetterEscapes(c: char, rest: string)
    requires !('0' <= c <= '7') && c != NUL
    ensures Unescape(['\\', c] + rest) ==
            Prefixed(if c == 'a' then 7 as char else if c == 'b' then 8 as char else if c == 't' then 9 as char
                     else if c == 'n' then 10 as char else if c == 'v' then 11 as char
                     else if c == 'f' then 12 as char else if c == 'r' then 13 as char else c, Unescape(rest))
  {
    var t := ['\\', c] + rest;
    assert t[1..][0] == c && t[2..] == rest;
  }

  lemma EscapeStep(u: string, c: char, used: nat, rest: string)
    requires u != "" && ReadEscape(u) == (c, used) && u[used..] == rest
    ensures Unescape("\\" + u) == if c == NUL then None else Prefixed(c, Unescape(rest))
  {
    hide ReadEscape;
    var t := "\\" + u;
    assert t[1..] == u && t[1 + used..] == rest;
  }

  /** Octal escapes have one to three digits, and three only if they fit a byte; one that denotes NUL is
      refused. */
  lemma OneOctalDigit(a: char, rest: string)
    requires IsOctal(a) && (rest == "" || !IsOctal(rest[0]))
    ensures var n := a as int - '0' as int;
            Unescape("\\" + ([a] + rest)) == if n == 0 then None else Prefixed(n as char, Unescape(rest))
  {
    hide Unescape;
    var u := [a] + rest;
    assert u[1..] == rest && u[0] == a;
    EscapeStep(u, (a as int - '0' as int) as char, 1, rest);
  }

  lemma TwoOctalDigits(a: char, b: char, rest: string)
    requires IsOctal(a) && IsOctal(b) && (a > '3' || rest == "" || !IsOctal(rest[0]))
    ensures var n := 8 * (a as int - '0' as int) + (b as int - '0' as int);
            Unescape("\\" + ([a, b] + rest)) == if n == 0 then None else Prefixed(n as char, Unescape(rest))
  {
    hide Unescape;
    var u := [a, b] + rest;
    assert u[2..] == rest && u[0] == a && u[1] == b;
    EscapeStep(u, (8 * (a as int - '0' as int) + (b as int - '0' as int)) as char, 2, rest);
  }

  lemma ThreeOctalDigits(a: char, b: char, c: char, rest: string)
    requires IsOctal(a) && IsOctal(b) && IsOctal(c) && a <= '3'
    ensures var n := 64 * (a as int - '0' as int) + 8 * (b as int - '0' as int) + (c as int - '0' as int);
            Unescape("\\" + ([a, b, c] + rest)) == if n == 0 then None else Prefixed(n as char, Unescape(rest))
  {
    hide Unescape;
    var u := [a, b, c] + rest;
    var n := 64 * (a as int - '0' as int) + 8 * (b as int - '0' as int) + (c as int - '0' as int);
    assert u[3..] == rest && u[0] == a && u[1] == b && u[2] == c;
    EscapeStep(u, n as char, 3, rest);
  }

  /** A backslash at the end of a text is dropped. */
  lemma LastBackslash()
    ensures Unescape("\\") == Some("")
  {
  }

  // ------------------------------------------------------------ ads as written

  /** A name given twice in an ad has the expression given last, under the spelling given first. */
  lemma {:induction false} InsertMeans(attrs: seq<Attr>, name: string, e: Expr, other: string)
    ensures Lookup(Insert(attrs, name, e), other) == if SameName(name, other) then Some(e) else Lookup(attrs, other)
  {
    if attrs != [] && !SameName(attrs[0].name, name) {
      InsertMeans(attrs[1..], name, e, other);
      var r := Insert(attrs, name, e);
      assert r[0] == attrs[0] && r[1..] == Insert(attrs[1..], name, e);
    } else if attrs != [] {
      var r := Insert(attrs, name, e);
      assert r[0] == Attr(attrs[0].name, e) && r[1..] == attrs[1..];
    } else {
      assert Lookup([Attr(name, e)][1..], other) == None;
    }
  }

  /** Semicolons, any number of them. */
  function Semicolons(n: nat): (r: seq<Token>)
    ensures |r| == n && forall i :: 0 <= i < n ==> r[i] == Semicolon
  {
    seq(n, i => Semicolon)
  }

  lemma {:induction false} AllSkipped(n: nat, rest: seq<Token>)
    requires Peek(rest) != Semicolon
    ensures SkipSemicolons(Semicolons(n) + rest) == rest
  {
    if n == 0 {
      assert Semicolons(0) + rest == rest;
    } else {
      assert (Semicolons(n) + rest)[1..] == Semicolons(n - 1) + rest;
      AllSkipped(n - 1, rest);
    }
  }

  /** Between attributes any number of semicolons may stand, and after the last one too. */
  lemma ManySemicolons(a: string, v: Value, b: string, w: Value, m: nat, n: nat, rest: seq<Token>)
    requires a != "" && b != "" && !SameName(a, b) && !v.AdValue? && !w.AdValue? && m > 0
    ensures var tail := Semicolons(n) + ([CloseBox] + rest);
            var toks := [IdentTok(a), Assign] + ([LiteralToken(v)]
                        + (Semicolons(m) + ([IdentTok(b), Assign] + ([LiteralToken(w)] + tail))));
            ParseAttributes([], toks, true) == Parse([Attr(a, Literal(v)), Attr(b, Literal(w))], rest)
  {
    hide ParseAttributes;
    hide ParseExpression;
    hide SkipSemicolons;
    var tail := Semicolons(n) + ([CloseBox] + rest);
    var second := [IdentTok(b), Assign] + ([LiteralToken(w)] + tail);
    LiteralBack(v, Semicolons(m) + second);
    LiteralBack(w, tail);
    assert Peek(tail) == if n > 0 then Semicolon else CloseBox;
    assert Peek(Semicolons(m) + second) == Semicolon;
    AllSkipped(m, second);
    AllSkipped(n, [CloseBox] + rest);
    RoundTrip.AttributesStep([], Attr(a, Literal(v)), [LiteralToken(v)] + (Semicolons(m) + second),
                             Semicolons(m) + second);
    var one := Insert([], a, Literal(v));
    assert one == [Attr(a, Literal(v))];
    RoundTrip.AttributesStep(one, Attr(b, Literal(w)), [LiteralToken(w)] + tail, tail);
    RoundTrip.InsertNew(one, b, Literal(w));
    var both := one + [Attr(b, Literal(w))];
    assert both == [Attr(a, Literal(v)), Attr(b, Literal(w))];
    RoundTrip.AttributesEnd(both, rest);
    assert [] + ([CloseBox] + rest) == [CloseBox] + rest && both + [] == both;
  }

  /** A semicolon may come before the first attribute, but an ad may not consist of semicolons. */
  lemma LeadingSemicolons(n: nat, toks: seq<Token>)
    requires n > 0 && Peek(toks) != Semicolon
    ensures Peek(toks).IdentTok? ==>
      ParseAttributes([], Semicolons(n) + toks, true) == ParseAttributes([], toks, true)
    ensures Peek(toks) == CloseBox ==> ParseAttributes([], Semicolons(n) + toks, true) == NoParse
  {
    AfterSemicolons(n, toks, true);
  }

  lemma {:induction false} AfterSemicolons(n: nat, toks: seq<Token>, mayClose: bool)
    ensures ParseAttributes([], Semicolons(n) + toks, mayClose)
         == ParseAttributes([], toks, if n == 0 then mayClose else false)
  {
    hide ParseAttributes;
    if n == 0 {
      assert Semicolons(0) + toks == toks;
    } else {
      SemicolonStep(Semicolons(n) + toks, mayClose);
      assert (Semicolons(n) + toks)[1..] == Semicolons(n - 1) + toks;
      AfterSemicolons(n - 1, toks, false);
    }
  }

  lemma SemicolonStep(toks: seq<Token>, mayClose: bool)
    requires Peek(toks) == Semicolon
    ensures ParseAttributes([], toks, mayClose) == ParseAttributes([], toks[1..], false)
  {
    hide ParseExpression;
  }

  lemma LiteralBack(v: Value, tail: seq<Token>)
    requires !v.AdValue? && Continues(Peek(tail)) == -1
    ensures ParseExpression([LiteralToken(v)] + tail) == Parse(Literal(v), tail)
  {
    hide ParseExpression;
    RoundTrip.ExpressionBack(Literal(v), tail);
  }

  // ------------------------------------------------------------ words and texts

  /** A text is a word if it is all letters, digits and underscores. */
  lemma {:induction false} WholeWord(s: string)
    ensures WordLength(s) == |s| <==> forall i :: 0 <= i < |s| ==>
      'a' <= s[i] <= 'z' || 'A' <= s[i] <= 'Z' || '0' <= s[i] <= '9' || s[i] == '_'
  {
    if s != "" {
      WholeWord(s[1..]);
      assert forall i :: 0 < i < |s| ==> s[i] == s[1..][i - 1];
    }
  }

  /** Whatever the string, its text between quotes consists of printable characters. */
  lemma {:induction false} EscapedIsPrintable(s: string, quote: char)
    requires IsQuote(quote) && IsText(s)
    ensures forall i :: 0 <= i < |Escape(s, quote)| ==> ' ' <= Escape(s, quote)[i] <= '~'
  {
    if s != "" {
      EscapedIsPrintable(s[1..], quote);
      var c := EscapeChar(s[0], quote);
      assert forall i :: 0 <= i < |c| ==> ' ' <= c[i] <= '~';
    }
  }

  /** Printable characters other than the quote and the backslash are printed as they are. */
  lemma {:induction false} PlainStays(s: string, quote: char)
    requires IsQuote(quote) && forall i :: 0 <= i < |s| ==> ' ' <= s[i] <= '~' && s[i] != quote && s[i] != '\\'
    ensures IsText(s) && Escape(s, quote) == s
  {
    if s != "" {
      PlainStays(s[1..], quote);
      assert s == [s[0]] + s[1..];
    }
  }

  lemma PlainNameText(name: string)
    requires PlainName(name)
    ensures IsText(name) && NameText(name) == name
  {
    hide WordToken;
    hide WordLength;
    WholeWord(name);
    EscapeOfWord(name);
  }

  lemma PlainReference(name: string)
    requires PlainName(name)
    ensures TextOf(Ref(name, false)) == name && TextOf(Ref(name, true)) == "." + name
  {
    hide PlainName;
    hide NameText;
    PlainNameText(name);
    assert "" + name == name;
  }

  /** How operators are laid out between, before and around their operands. */
  lemma PrintedOperators(x: string, y: string, op: BinaryOp, uop: UnaryOp)
    requires PlainName(x) && PlainName(y) && !op.Subscript? && !uop.Parentheses?
    ensures var a, b := Ref(x, false), Ref(y, false);
            && TextOf(Binary(op, a, b)) == x + (" " + (OpSymbol(op) + (" " + y)))
            && TextOf(Unary(uop, a)) == (" " + UnarySymbol(uop)) + x
            && TextOf(Unary(Parentheses, a)) == "( " + (x + " )")
  {
    hide PlainName;
    PlainReference(x);
    PlainReference(y);
  }

  /** How selections, subscripts and conditionals are laid out. */
  lemma PrintedSelections(x: string, y: string, z: string)
    requires PlainName(x) && PlainName(y)
    ensures var a, b := Ref(x, false), Ref(y, false);
            && TextOf(Binary(Subscript, a, b)) == x + ("[" + (y + "]"))
            && TextOf(Select(a, z)) == x + ("." + z)
            && TextOf(Ternary(a, b, a)) == x + (" ? " + (y + (" : " + x)))
  {
    hide PlainName;
    PlainReference(x);
    PlainReference(y);
  }

  /** How calls and lists are laid out. */
  lemma PrintedLists(f: string, x: string, y: string)
    requires PlainName(x) && PlainName(y)
    ensures var a, b := Ref(x, false), Ref(y, false);
            && TextOf(Call(f, [a, b])) == f + ("(" + ((x + ("," + y)) + ")"))
            && TextOf(ExprList([a, b])) == "{ " + ((x + ("," + y)) + " }")
  {
    hide PlainName;
    PlainReference(x);
    PlainReference(y);
    var a, b := Ref(x, false), Ref(y, false);
    assert ItemsText([a, b]) == x + ("," + y) by {
      assert [a, b][1..] == [b];
      assert ItemsText([b]) == y;
    }
  }

  /** How ads are laid out. */
  lemma PrintedAd(x: string, y: string)
    requires PlainName(x) && PlainName(y)
    ensures TextOf(Ad([Attr(x, Ref(y, false)), Attr(y, Ref(x, false))]))
         == "[ " + (((x + (" = " + y)) + ("; " + (y + (" = " + x)))) + " ]")
  {
    hide PlainName;
    hide NameText;
    PlainReference(x);
    PlainReference(y);
    PlainNameText(x);
    PlainNameText(y);
    var p, q := Attr(x, Ref(y, false)), Attr(y, Ref(x, false));
    assert AttributeText(p) == x + (" = " + y) && AttributeText(q) == y + (" = " + x);
    hide AttributeText;
    assert AttributesText([p, q]) == AttributeText(p) + ("; " + AttributeText(q)) by {
      assert [p, q][1..] == [q];
      assert AttributesText([q]) == AttributeText(q);
    }
  }
}
