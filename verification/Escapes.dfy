/** Quoted text: how the unparser writes a string between quotes, how the lexer finds the closing
    quote, and how escapes are turned back into characters. */
module Escapes {
  import opened Expressions

  const NUL := 0 as char
  const BELL := 7 as char
  const BACKSPACE := 8 as char
  const VERTICAL_TAB := 11 as char
  const FORM_FEED := 12 as char

  /** The strings that can be written: characters are bytes, and none is NUL. */
  predicate IsText(s: string) {
    forall i :: 0 <= i < |s| ==> 0 < s[i] as int < 256
  }

  predicate IsQuote(c: char) {
    c == '"' || c == '\''
  }

  predicate IsPrint(c: char) {
    32 <= c as int < 127
  }

  predicate IsOctal(c: char) {
    '0' <= c <= '7'
  }

  function OctalDigit(n: int): (c: char)
    requires 0 <= n < 8
    ensures IsOctal(c) && c as int - '0' as int == n
  {
    ('0' as int + n) as char
  }

  function OctalValue(c: char): (n: nat)
    requires IsOctal(c)
    ensures n < 8
  {
    c as int - '0' as int
  }

  // ----------------------------------------------------------------- writing

  function EscapeChar(c: char, quote: char): (r: string)
    requires IsQuote(quote) && c as int < 256
    ensures r != ""
  {
    if c == quote then ['\\', quote]
    else if c == BELL then "\\a"
    else if c == BACKSPACE then "\\b"
    else if c == FORM_FEED then "\\f"
    else if c == '\n' then "\\n"
    else if c == '\r' then "\\r"
    else if c == '\t' then "\\t"
    else if c == VERTICAL_TAB then "\\v"
    else if c == '\\' then "\\\\"
    else if IsPrint(c) then [c]
    else
      var b := c as int;
      ['\\', OctalDigit(b / 64), OctalDigit(b / 8 % 8), OctalDigit(b % 8)]
  }

  function Escape(s: string, quote: char): (r: string)
    requires IsQuote(quote) && IsText(s)
  {
    if s == "" then "" else EscapeChar(s[0], quote) + Escape(s[1..], quote)
  }

  // ----------------------------------------------------------------- reading

  /** Where the closing quote is. A quote does not close after an odd run of backslashes. */
  function ClosingQuote(quote: char, odd: bool, s: string): (r: Option<nat>)
    ensures r.Some? ==> r.value < |s| && s[r.value] == quote
    decreases |s|
  {
    if s == "" || s[0] == NUL then None
    else if s[0] == quote && !odd then Some(0)
    else
      match ClosingQuote(quote, !odd && s[0] == '\\', s[1..])
      case None => None
      case Some(n) => Some(n + 1)
  }

  /** The character an escape letter stands for; other characters stand for themselves. */
  function EscapeLetter(c: char): (r: char) {
    match c
    case 'a' => BELL
    case 'b' => BACKSPACE
    case 'f' => FORM_FEED
    case 'n' => '\n'
    case 'r' => '\r'
    case 't' => '\t'
    case 'v' => VERTICAL_TAB
    case _ => c
  }

  /** What the text after a backslash denotes, and how much of it is used: three octal digits if
      the first is at most 3, else two, else one, else a single character. */
  function ReadEscape(t: string): (r: (char, nat))
    requires t != ""
    ensures 0 < r.1 <= |t|
  {
    if !IsOctal(t[0]) then (EscapeLetter(t[0]), 1)
    else if |t| >= 3 && t[0] <= '3' && IsOctal(t[1]) && IsOctal(t[2]) then
      ((64 * OctalValue(t[0]) + 8 * OctalValue(t[1]) + OctalValue(t[2])) as char, 3)
    else if |t| >= 2 && IsOctal(t[1]) then ((8 * OctalValue(t[0]) + OctalValue(t[1])) as char, 2)
    else (OctalValue(t[0]) as char, 1)
  }

  /** The text with its escapes converted, or None if an octal escape denotes NUL. A backslash at
      the very end denotes nothing. */
  function Unescape(t: string): (r: Option<string>)
    decreases |t|
  {
    if t == "" then Some("")
    else if t[0] != '\\' then Prefixed(t[0], Unescape(t[1..]))
    else if |t| == 1 then Some("")
    else
      var (c, used) := ReadEscape(t[1..]);
      if c == NUL then None else Prefixed(c, Unescape(t[1 + used..]))
  }

  function Prefixed(c: char, r: Option<string>): (r': Option<string>) {
    match r
    case None => None
    case Some(s) => Some([c] + s)
  }

  // -------------------------------------------------------------- round trip

  /** One escaped character is read back as itself, whatever follows. */
  lemma UnescapeChar(c: char, quote: char, rest: string)
    requires IsQuote(quote) && 0 < c as int < 256
    ensures Unescape(EscapeChar(c, quote) + rest) == Prefixed(c, Unescape(rest))
  {
    var e := EscapeChar(c, quote);
    var t := e + rest;
    if |e| == 1 {
      assert t[1..] == rest;
    } else if |e| == 2 {
      assert t[1..][0] == e[1];
      assert ReadEscape(t[1..]) == (c, 1);
      assert t[2..] == rest;
    } else {
      OctalRoundTrip(c);
      assert t[1..][0] == e[1] && t[1..][1] == e[2] && t[1..][2] == e[3];
      assert ReadEscape(t[1..]) == (c, 3);
      assert t[4..] == rest;
    }
  }

  lemma OctalRoundTrip(c: char)
    requires c as int < 256
    ensures var b := c as int;
            && b / 64 <= 3
            && (64 * (b / 64) + 8 * (b / 8 % 8) + b % 8) as char == c
  {
  }

  /** Every text is recovered from its escaped form. */
  lemma {:induction false} UnescapeOfEscape(s: string, quote: char)
    requires IsQuote(quote) && IsText(s)
    ensures Unescape(Escape(s, quote)) == Some(s)
  {
    hide EscapeChar;
    hide ReadEscape;
    if s == "" {
    } else {
      hide Unescape;
      UnescapeOfEscape(s[1..], quote);
      UnescapeChar(s[0], quote, Escape(s[1..], quote));
      assert s == [s[0]] + s[1..];
    }
  }

  /** The lexer passes over one escaped character without stopping and without owing a backslash. */
  lemma PassChar(c: char, quote: char, rest: string)
    requires IsQuote(quote) && 0 < c as int < 256
    ensures var skipped := ClosingQuote(quote, false, rest);
            ClosingQuote(quote, false, EscapeChar(c, quote) + rest)
            == if skipped.None? then None else Some(|EscapeChar(c, quote)| + skipped.value)
  {
    hide ClosingQuote;
    var e := EscapeChar(c, quote);
    var t := e + rest;
    if |e| == 1 {
      PassOne(quote, false, t);
      assert t[1..] == rest;
    } else if |e| == 2 {
      PassOne(quote, false, t);
      PassOne(quote, true, t[1..]);
      assert t[1..][1..] == rest;
    } else {
      PassOne(quote, false, t);
      PassOne(quote, true, t[1..]);
      PassOne(quote, false, t[1..][1..]);
      PassOne(quote, false, t[1..][1..][1..]);
      assert t[1..][1..][1..][1..] == rest;
    }
  }

  lemma PassOne(quote: char, odd: bool, s: string)
    requires s != "" && s[0] != NUL && (s[0] != quote || odd)
    ensures var r := ClosingQuote(quote, !odd && s[0] == '\\', s[1..]);
            ClosingQuote(quote, odd, s) == if r.None? then None else Some(r.value + 1)
  {
  }

  /** The closing quote found for an escaped text is the one that was written after it. */
  lemma {:induction false} ClosingQuoteOfEscape(s: string, quote: char, rest: string)
    requires IsQuote(quote) && IsText(s)
    ensures ClosingQuote(quote, false, Escape(s, quote) + [quote] + rest) == Some(|Escape(s, quote)|)
  {
    hide EscapeChar;
    if s == "" {
      assert Escape(s, quote) + [quote] + rest == [quote] + rest;
    } else {
      hide ClosingQuote;
      ClosingQuoteOfEscape(s[1..], quote, rest);
      PassChar(s[0], quote, Escape(s[1..], quote) + [quote] + rest);
      QuotedRest(EscapeChar(s[0], quote), Escape(s[1..], quote), [quote], rest);
    }
  }

  lemma QuotedRest(a: string, b: string, c: string, d: string)
    ensures (a + b) + c + d == a + (b + c + d)
  {
  }
}
