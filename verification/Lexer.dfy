/** The lexer's handling of quoted text as a program over its character source. */
module Lexer {
  import opened Expressions
  import opened Tokens
  import opened Escapes
  import opened Lexing

  function Append(p: string, r: Option<string>): (r': Option<string>) {
    match r
    case None => None
    case Some(s) => Some(p + s)
  }

  lemma AppendNothing(r: Option<string>)
    ensures Append("", r) == r
  {
    if r.Some? {
      assert "" + r.value == r.value;
    }
  }

  lemma AppendPrefixed(p: string, c: char, r: Option<string>)
    ensures Append(p, Prefixed(c, r)) == Append(p + [c], r)
  {
    if r.Some? {
      assert p + ([c] + r.value) == (p + [c]) + r.value;
    }
  }

  /** Converts the escapes of a text that ends in NUL, copying it into a buffer from left to right. */
  method ConvertEscapes(text: string) returns (valid: bool, converted: string)
    requires text != "" && text[|text| - 1] == NUL
    ensures Unescape(text[..|text| - 1]) == if valid then Some(converted) else None
  {
    hide ReadEscape;
    ghost var body := text[..|text| - 1];
    var length := |text|;
    var copy := new char[length + 1];
    var source, dest := 0, 0;
    ghost var done := "";
    AppendNothing(Unescape(body));
    assert body[0..] == body;
    while source < length - 1
      invariant 0 <= dest <= source <= length - 1
      invariant copy[..dest] == done
      invariant Append(done, Unescape(body[source..])) == Unescape(body)
    {
      UnescapeStep(body, source);
      if text[source] != '\\' {
        AppendPrefixed(done, text[source], Unescape(body[source + 1..]));
        done := done + [text[source]];
        copy[dest] := text[source];
      } else {
        source := source + 1;
        if source == length - 1 {
          break;
        }
        var c, more := ConvertEscape(text, source);
        if c == NUL {
          return false, "";
        }
        AppendPrefixed(done, c, Unescape(body[source + more + 1..]));
        done := done + [c];
        copy[dest] := c;
        source := source + more;
      }
      dest, source := dest + 1, source + 1;
    }
    assert Unescape(body[source..]) == Some("");
    assert done + "" == done;
    return true, copy[..dest];
  }

  lemma UnescapeStep(body: string, at: nat)
    requires at < |body|
    ensures body[at] != '\\' ==> Unescape(body[at..]) == Prefixed(body[at], Unescape(body[at + 1..]))
    ensures body[at] == '\\' && at + 1 == |body| ==> Unescape(body[at..]) == Some("")
    ensures body[at] == '\\' && at + 1 < |body| ==>
      var (c, used) := ReadEscape(body[at + 1..]);
      Unescape(body[at..]) == if c == NUL then None else Prefixed(c, Unescape(body[at + 1 + used..]))
  {
    hide ReadEscape;
    var s := body[at..];
    assert s[1..] == body[at + 1..];
    if body[at] == '\\' && at + 1 < |body| {
      var (c, used) := ReadEscape(body[at + 1..]);
      assert s[1 + used..] == body[at + 1 + used..];
    }
  }

  /** The character denoted by the escape whose first character after the backslash is at `source`,
      and how many further characters it takes. */
  method ConvertEscape(text: string, source: nat) returns (c: char, more: nat)
    requires source < |text| - 1 && text[|text| - 1] == NUL
    ensures ReadEscape(text[source..|text| - 1]) == (c, more + 1)
  {
    var length := |text|;
    if !IsOctal(text[source]) {
      return EscapeLetter(text[source]), 0;
    } else if source <= length - 3 && text[source] <= '3' && IsOctal(text[source + 1]) && IsOctal(text[source + 2]) {
      c := (64 * OctalValue(text[source]) + 8 * OctalValue(text[source + 1]) + OctalValue(text[source + 2])) as char;
      return c, 2;
    } else if source <= length - 2 && IsOctal(text[source + 1]) {
      return (8 * OctalValue(text[source]) + OctalValue(text[source + 1])) as char, 1;
    } else {
      return OctalValue(text[source]) as char, 0;
    }
  }

  // ---------------------------------------------------- quoted text, midway

  /** What is left of a quoted text, given whether a backslash is owed. */
  function ScanFrom(quote: char, odd: bool, s: string): (r: Option<(string, string)>) {
    match ClosingQuote(quote, odd, s)
    case None => None
    case Some(n) =>
      var after := SkipSpaces(s[n + 1..]);
      if Char(after, 0) == quote && after != "" then
        match ScanQuoted(quote, after[1..])
        case None => None
        case Some((more, rest)) => Some((s[..n] + more, rest))
      else Some((s[..n], after))
  }

  function AppendBody(p: string, r: Option<(string, string)>): (r': Option<(string, string)>) {
    match r
    case None => None
    case Some((body, rest)) => Some((p + body, rest))
  }

  /** A character that does not close moves from what is to be read to what has been read. */
  lemma StepOver(quote: char, odd: bool, s: string, p: string)
    requires s != "" && s[0] != NUL && (s[0] != quote || odd)
    ensures AppendBody(p, ScanFrom(quote, odd, s))
         == AppendBody(p + [s[0]], ScanFrom(quote, !odd && s[0] == '\\', s[1..]))
  {
    hide ScanQuoted;
    hide SkipSpaces;
    hide ClosingQuote;
    PassOne(quote, odd, s);
    var r := ClosingQuote(quote, !odd && s[0] == '\\', s[1..]);
    if r.Some? {
      var n := r.value;
      assert s[1..][n + 1..] == s[n + 2..];
      assert s[..n + 1] == [s[0]] + s[1..][..n];
      var after := SkipSpaces(s[n + 2..]);
      var more := if Char(after, 0) == quote && after != "" then ScanQuoted(quote, after[1..]) else None;
      JoinBodies(p, s[0], s[1..][..n], if more.Some? then more.value.0 else "");
    }
  }

  lemma JoinBodies(p: string, c: char, b: string, m: string)
    ensures p + (([c] + b) + m) == (p + [c]) + (b + m)
    ensures p + ([c] + b) == (p + [c]) + b
  {
  }

  /** At a closing quote the text ends, unless another quoted text follows. */
  lemma AtQuote(quote: char, s: string, p: string)
    requires s != "" && s[0] == quote && quote != NUL
    ensures var after := SkipSpaces(s[1..]);
            AppendBody(p, ScanFrom(quote, false, s))
            == if after != "" && after[0] == quote then AppendBody(p, ScanFrom(quote, false, after[1..]))
               else Some((p, after))
  {
    hide SkipSpaces;
    assert s[..0] == "" && p + "" == p;
    var after := SkipSpaces(s[1..]);
    if after != "" && after[0] == quote {
      var more := ScanQuoted(quote, after[1..]);
      assert more == ScanFrom(quote, false, after[1..]);
      if more.Some? {
        assert "" + more.value.0 == more.value.0;
      }
    }
  }

  class Scanner {
    const source: string
    var offset: nat
    var ch: char
    var lexBuffer: string
    var lexBufferCount: int

    /** The current character is the one before the read position; NUL marks the end. */
    ghost predicate Valid()
      reads this
    {
      && IsText(source) && offset <= |source|
      && (if ch == NUL then offset == |source| else offset > 0 && source[offset - 1] == ch)
    }

    /** What is still to be read, the current character included. */
    function Rest(): (r: string)
      requires Valid()
      reads this
    {
      if ch == NUL then "" else source[offset - 1..]
    }

    /** The text of the current token so far, without the current character, is `body`. */
    ghost predicate Holds(body: string)
      reads this
    {
      lexBufferCount == |body| && (ch != NUL ==> lexBuffer == body + [ch])
    }

    constructor (text: string)
      requires IsText(text)
      ensures Valid() && source == text && Rest() == text
    {
      source := text;
      offset := if text == "" then 0 else 1;
      ch := if text == "" then NUL else text[0];
      lexBuffer, lexBufferCount := "", 0;
    }

    method ReadCharacter() returns (c: char)
      requires offset <= |source|
      modifies this`offset
      ensures old(offset) < |source| ==> c == source[old(offset)] && offset == old(offset) + 1
      ensures old(offset) == |source| ==> c == NUL && offset == old(offset)
    {
      if offset < |source| {
        c := source[offset];
        offset := offset + 1;
      } else {
        c := NUL;
      }
    }

    method Mark()
      modifies this`lexBuffer, this`lexBufferCount
      ensures Holds("")
    {
      lexBuffer, lexBufferCount := [ch], 0;
    }

    /** Moves to the next character of the source and accumulates it. */
    method Wind()
      requires IsText(source) && offset <= |source| && ch != NUL
      modifies this
      ensures Valid() && Rest() == source[old(offset)..]
      ensures lexBufferCount == old(lexBufferCount) + 1
      ensures lexBuffer == if ch == NUL then old(lexBuffer) else old(lexBuffer) + [ch]
      ensures old(offset) <= offset
      ensures ch != NUL ==> old(offset) < offset
    {
      ch := ReadCharacter();
      lexBufferCount := lexBufferCount + 1;
      if ch != NUL {
        lexBuffer := lexBuffer + [ch];
      }
    }

    /** Reads up to a quote that no backslash protects, or to the end. */
    method ReadToQuote(quote: char, ghost read: string) returns (ghost body: string)
      requires Valid() && Holds(read) && IsQuote(quote)
      modifies this
      ensures Valid() && Holds(body)
      ensures ch == quote || ch == NUL
      ensures AppendBody(body, ScanFrom(quote, false, Rest()))
           == AppendBody(read, ScanFrom(quote, false, old(Rest())))
      ensures old(offset) <= offset
    {
      hide ScanFrom;
      body := read;
      var oddBackWhacks, oldCh := false, NUL;
      while ch != NUL && (ch != quote || (oldCh == '\\' && oddBackWhacks))
        invariant Valid() && Holds(body) && old(offset) <= offset
        invariant oddBackWhacks ==> oldCh == '\\'
        invariant AppendBody(body, ScanFrom(quote, oddBackWhacks, Rest()))
               == AppendBody(read, ScanFrom(quote, false, old(Rest())))
        decreases |source| - offset, ch != NUL
      {
        StepOver(quote, oddBackWhacks, Rest(), body);
        ghost var rest := Rest();
        body := body + [ch];
        oddBackWhacks, oldCh := !oddBackWhacks && ch == '\\', ch;
        Wind();
        assert Rest() == rest[1..];
      }
      if ch == NUL {
        NothingLeft(quote, oddBackWhacks);
        NothingLeft(quote, false);
      }
    }

    /** Reads on past white space, leaving the current character alone, and says whether another
        quote follows. */
    method AnotherQuote(quote: char) returns (found: bool)
      requires IsText(source) && offset <= |source| && IsQuote(quote)
      modifies this`offset
      ensures old(offset) <= offset <= |source|
      ensures var after := SkipSpaces(source[old(offset)..]);
              && (found <==> after != "" && after[0] == quote)
              && source[offset..] == (if found then after[1..] else after)
      ensures found ==> old(offset) < offset
    {
      var c := ' ';
      ghost var start := offset;
      ghost var after := SkipSpaces(source[start..]);
      while IsSpace(c)
        invariant start <= offset <= |source|
        invariant IsSpace(c) ==> SkipSpaces(source[offset..]) == after
        invariant !IsSpace(c) && c != NUL ==>
          start < offset && source[offset - 1] == c && source[offset - 1..] == after
        invariant c == NUL ==> offset == |source| && after == ""
        decreases |source| - offset, IsSpace(c)
      {
        ghost var before := source[offset..];
        c := ReadCharacter();
        assert before != "" ==> before[0] == c && before[1..] == source[offset..];
      }
      found := c == quote;
      if !found && c != NUL {
        offset := offset - 1;
      }
    }

    /** Reads one quoted text. If another follows it, the quote between them is dropped. */
    method ReadPiece(quote: char, ghost read: string) returns (complete: bool, ghost body: string)
      requires Valid() && Holds(read) && IsQuote(quote)
      modifies this
      ensures IsText(source) && old(offset) <= offset <= |source| && Holds(body)
      ensures complete ==> ch == quote
      ensures complete ==>
        AppendBody(read, ScanFrom(quote, false, old(Rest()))) == Some((body, source[offset..]))
      ensures !complete ==> Valid() && (ch == NUL || old(offset) < offset)
      ensures !complete ==>
        AppendBody(read, ScanFrom(quote, false, old(Rest()))) == AppendBody(body, ScanFrom(quote, false, Rest()))
    {
      hide ScanFrom;
      hide SkipSpaces;
      body := ReadToQuote(quote, read);
      if ch != quote {
        return false, body;
      }
      ghost var here := Rest();
      assert here[1..] == source[offset..];
      AtQuote(quote, here, body);
      var again := AnotherQuote(quote);
      if again {
        lexBuffer := lexBuffer[..lexBufferCount];
        assert lexBuffer == body;
        lexBufferCount := lexBufferCount - 1;
        Wind();
      }
      return !again, body;
    }

    /** Cuts the token at its closing quote, moves on, and converts its escapes. */
    method FinishString(quote: char, ghost body: string) returns (t: Token)
      requires IsText(source) && offset <= |source| && Holds(body) && ch == quote && IsQuote(quote)
      modifies this
      ensures Valid() && Rest() == source[old(offset)..]
      ensures t == TokenOf(quote, Unescape(body))
    {
      hide Unescape;
      lexBuffer := lexBuffer[lexBufferCount := NUL];
      var literal := lexBuffer;
      assert literal[..|literal| - 1] == body;
      Wind();
      var valid, text := ConvertEscapes(literal);
      return if !valid then BadToken else if quote == '"' then StrTok(text) else IdentTok(text);
    }

    /** A string literal or a quoted attribute name, starting at its opening quote. */
    method TokenizeString(quote: char) returns (t: Token)
      requires Valid() && ch == quote && IsQuote(quote)
      modifies this
      ensures Valid()
      ensures Scanned(t, Rest()) == ScanString(old(Rest()))
    {
      hide ScanFrom;
      hide ScanQuoted;
      hide ScanString;
      hide Unescape;
      hide IsText;
      ghost var all := Rest();
      StringScanned(all);
      Wind();
      Mark();
      assert Rest() == all[1..];
      ghost var start, body := Rest(), "";
      StartOfQuoted(quote, start);
      var complete := false;
      while !complete
        invariant IsText(source) && offset <= |source| && Holds(body)
        invariant !complete ==> Valid()
        invariant !complete ==> ScanQuoted(quote, start) == AppendBody(body, ScanFrom(quote, false, Rest()))
        invariant complete ==> ch == quote
        invariant complete ==> ScanQuoted(quote, start) == Some((body, source[offset..]))
        decreases |source| - offset, !complete
      {
        complete, body := ReadPiece(quote, body);
        if !complete && ch == NUL {
          NothingLeft(quote, false);
          return BadToken;
        }
      }
      t := FinishString(quote, body);
    }
  }

  lemma StringScanned(s: string)
    requires s != "" && IsQuote(s[0])
    ensures ScanString(s) == match ScanQuoted(s[0], s[1..])
                             case None => Scanned(BadToken, "")
                             case Some((body, rest)) => Scanned(TokenOf(s[0], Unescape(body)), rest)
  {
    hide ScanQuoted;
    hide Unescape;
  }

  /** The token of a quoted text whose escapes have been converted. */
  function TokenOf(quote: char, text: Option<string>): (t: Token) {
    match text
    case None => BadToken
    case Some(t) => if quote == '"' then StrTok(t) else IdentTok(t)
  }

  lemma NothingLeft(quote: char, odd: bool)
    ensures ScanFrom(quote, odd, "") == None
  {
  }

  lemma StartOfQuoted(quote: char, s: string)
    ensures ScanQuoted(quote, s) == AppendBody("", ScanFrom(quote, false, s))
  {
    hide SkipSpaces;
    hide ClosingQuote;
    assert ScanQuoted(quote, s) == ScanFrom(quote, false, s);
    var r := ScanFrom(quote, false, s);
    if r.Some? {
      assert "" + r.value.0 == r.value.0;
    }
  }
}
