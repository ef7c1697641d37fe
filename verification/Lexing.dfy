/** From characters to tokens. */
module Lexing {
  import opened Text
  import opened Expressions
  import opened Tokens
  import opened Escapes
  import opened Decimal

  datatype Scanned = Scanned(tok: Token, rest: string)

  predicate IsSpace(c: char) {
    c == ' ' || c == '\t' || c == '\n' || c == '\r' || c == VERTICAL_TAB || c == FORM_FEED
  }

  predicate IsAlpha(c: char) {
    'a' <= c <= 'z' || 'A' <= c <= 'Z'
  }

  /** The characters of an identifier. */
  predicate IsWord(c: char) {
    IsAlpha(c) || IsDigit(c) || c == '_'
  }

  function SkipSpaces(s: string): (r: string)
    ensures |r| <= |s| && (r != "" ==> !IsSpace(r[0]))
    ensures s != "" && !IsSpace(s[0]) ==> r == s
  {
    if s != "" && IsSpace(s[0]) then SkipSpaces(s[1..]) else s
  }

  /** The next character, or NUL at the end. */
  function Char(s: string, i: nat): (c: char) {
    if i < |s| then s[i] else NUL
  }

  // ---------------------------------------------------------------- numbers

  const INT_MAX := 0x7fff_ffff
  const INT_MIN := -0x8000_0000

  function Clamp(n: int): (r: int)
    ensures INT_MIN <= r <= INT_MAX
  {
    if n > INT_MAX then INT_MAX else if n < INT_MIN then INT_MIN else n
  }

  /** A character that would make the number before it a real, or scale it. */
  predicate ExtendsNumber(c: char) {
    c == '.' || FoldChar(c) in {'e', 'b', 'k', 'm', 'g', 't'}
  }

  /** Decimal integers, clamped to the range of `int`. Hexadecimal and octal integers, reals and
      scaled numbers are outside this model and give BadToken. */
  function ScanInteger(negative: bool, s: string): (r: Scanned)
    requires s != "" && IsDigit(s[0])
    ensures |r.rest| < |s|
  {
    var n := DigitCount(s);
    if (s[0] == '0' && (n > 1 || FoldChar(Char(s, 1)) == 'x')) || ExtendsNumber(Char(s, n)) then
      Scanned(BadToken, s[1..])
    else
      var v: int := NumeralValue(s[..n]);
      Scanned(IntTok(Clamp(if negative then -v else v)), s[n..])
  }

  /** After these tokens a minus sign is an operator; elsewhere it may begin a number. */
  predicate EndsOperand(t: Token) {
    LiteralOf(t).Some? || t.IdentTok? || t == Dot || t == CloseBox || t == CloseParen || t == CloseBrace
  }

  function ScanMinus(prev: Token, s: string): (r: Scanned)
    requires s != "" && s[0] == '-'
    ensures |r.rest| < |s|
  {
    if !EndsOperand(prev) && IsDigit(Char(s, 1)) then ScanInteger(true, s[1..])
    else if !EndsOperand(prev) && Char(s, 1) == '.' && IsDigit(Char(s, 2)) then Scanned(BadToken, s[1..])
    else Scanned(OpTok(Sub), s[1..])
  }

  function ScanDot(s: string): (r: Scanned)
    requires s != "" && s[0] == '.'
    ensures |r.rest| < |s|
  {
    var n := if Char(s, 1) == '.' then 2 else 1;
    if IsDigit(Char(s, n)) then Scanned(BadToken, s[1..]) else Scanned(Dot, s[n..])
  }

  // ------------------------------------------------------------------ words

  function WordLength(s: string): (n: nat)
    ensures n <= |s|
    ensures s != "" && IsWord(s[0]) ==> n > 0
  {
    if s == "" || !IsWord(s[0]) then 0 else 1 + WordLength(s[1..])
  }

  /** Reserved words are recognised without regard to case. */
  function WordToken(word: string): (t: Token) {
    var w := Fold(word);
    if w == "true" then BoolTok(true)
    else if w == "false" then BoolTok(false)
    else if w == "undefined" then UndefinedTok
    else if w == "error" then ErrorTok
    else if w == "is" then OpTok(Is)
    else if w == "isnt" then OpTok(Isnt)
    else IdentTok(word)
  }

  // ----------------------------------------------------------------- quoted

  /** The text between quotes and what follows. Adjacent quoted texts are read as one. */
  function ScanQuoted(quote: char, s: string): (r: Option<(string, string)>)
    ensures r.Some? ==> |r.value.1| < |s|
    decreases |s|
  {
    match ClosingQuote(quote, false, s)
    case None => None
    case Some(n) =>
      var after := SkipSpaces(s[n + 1..]);
      if Char(after, 0) == quote && after != "" then
        match ScanQuoted(quote, after[1..])
        case None => None
        case Some((more, rest)) => Some((s[..n] + more, rest))
      else Some((s[..n], after))
  }

  function ScanString(s: string): (r: Scanned)
    requires s != "" && IsQuote(s[0])
    ensures |r.rest| < |s|
  {
    match ScanQuoted(s[0], s[1..])
    case None => Scanned(BadToken, "")
    case Some((body, rest)) =>
      match Unescape(body)
      case None => Scanned(BadToken, rest)
      case Some(text) => Scanned(if s[0] == '"' then StrTok(text) else IdentTok(text), rest)
  }

  // ------------------------------------------------------------ punctuation

  function Single(c: char): (t: Token) {
    match c
    case '*' => OpTok(Mul)
    case '/' => OpTok(Div)
    case '%' => OpTok(Mod)
    case '+' => OpTok(Add)
    case '~' => BitwiseNotTok
    case '^' => OpTok(BitXor)
    case '?' => QMark
    case ':' => Colon
    case ';' => Semicolon
    case ',' => Comma
    case '[' => OpenBox
    case ']' => CloseBox
    case '(' => OpenParen
    case ')' => CloseParen
    case '{' => OpenBrace
    case '}' => CloseBrace
    case _ => BadToken
  }

  /** Operators are as long as they can be. Comments are outside this model. */
  function ScanPunctuation(s: string): (r: Scanned)
    requires s != ""
    ensures |r.rest| < |s|
  {
    var c, c1, c2 := s[0], Char(s, 1), Char(s, 2);
    if c == '&' then
      if c1 == '&' && |s| > 1 then Scanned(OpTok(And), s[2..]) else Scanned(OpTok(BitAnd), s[1..])
    else if c == '|' then
      if c1 == '|' && |s| > 1 then Scanned(OpTok(Or), s[2..]) else Scanned(OpTok(BitOr), s[1..])
    else if c == '<' then
      if c1 == '=' && |s| > 1 then Scanned(OpTok(LessEq), s[2..])
      else if c1 == '<' && |s| > 1 then Scanned(OpTok(ShiftLeft), s[2..])
      else Scanned(OpTok(Less), s[1..])
    else if c == '>' then
      if c1 == '=' && |s| > 1 then Scanned(OpTok(GreaterEq), s[2..])
      else if c1 == '>' && |s| > 1 then
        (if c2 == '>' && |s| > 2 then Scanned(OpTok(UShiftRight), s[3..]) else Scanned(OpTok(ShiftRight), s[2..]))
      else Scanned(OpTok(Greater), s[1..])
    else if c == '=' then
      if c1 == '=' && |s| > 1 then Scanned(OpTok(Equal), s[2..])
      else if c1 == '?' && |s| > 1 then
        (if c2 == '=' && |s| > 2 then Scanned(OpTok(Is), s[3..]) else Scanned(BadToken, s[2..]))
      else if c1 == '!' && c2 == '=' && |s| > 2 then Scanned(OpTok(Isnt), s[3..])
      else Scanned(Assign, s[1..])
    else if c == '!' then
      if c1 == '=' && |s| > 1 then Scanned(OpTok(NotEqual), s[2..]) else Scanned(LogicalNotTok, s[1..])
    else if c == '/' && (c1 == '/' || c1 == '*') then Scanned(BadToken, s[1..])
    else Scanned(Single(c), s[1..])
  }

  // ----------------------------------------------------------- the scanner

  /** One token. Which kind is decided by the first character, and for a minus sign also by the
      token before. */
  function Scan(prev: Token, s: string): (r: Scanned)
    requires s != ""
    ensures |r.rest| < |s|
  {
    var c := s[0];
    if c == '-' then ScanMinus(prev, s)
    else if c == '.' then ScanDot(s)
    else if IsDigit(c) then ScanInteger(false, s)
    else if IsWord(c) then
      var n := WordLength(s);
      Scanned(WordToken(s[..n]), s[n..])
    else if IsQuote(c) then ScanString(s)
    else ScanPunctuation(s)
  }

  function Lex(prev: Token, s: string): (r: seq<Token>)
    decreases |s|
  {
    var t := SkipSpaces(s);
    if t == "" || t[0] == NUL then []
    else
      var r := Scan(prev, t);
      [r.tok] + Lex(r.tok, r.rest)
  }
}
