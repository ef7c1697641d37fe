/** The parser of relative times as a program that moves an index from right to left. */
module RelTimeParser {
  import opened Expressions
  import opened Decimal
  import opened Lexing
  import opened RelTimes

  function Reversed(s: string): (r: string)
    ensures |r| == |s|
  {
    if s == "" then "" else Reversed(s[1..]) + [s[0]]
  }

  lemma {:induction false} ReversedTwice(s: string)
    ensures Reversed(Reversed(s)) == s
  {
    if s != "" {
      ReversedTwice(s[1..]);
      ReversedSnoc(Reversed(s[1..]), s[0]);
    }
  }

  lemma {:induction false} ReversedSnoc(s: string, c: char)
    ensures Reversed(s + [c]) == [c] + Reversed(s)
  {
    if s != "" {
      ReversedSnoc(s[1..], c);
      assert (s + [c])[1..] == s[1..] + [c];
    } else {
      assert s + [c] == [c];
      assert [c][1..] == "";
    }
  }

  /** What is still to be read: the text up to and including the index. */
  function Left(s: string, index: int): (r: string)
    requires -1 <= index < |s|
    ensures |r| == index + 1
  {
    s[..index + 1]
  }

  method PrevNonSpaceChar(s: string, index: int) returns (i: int)
    requires -1 <= index < |s|
    ensures -1 <= i <= index && Left(s, i) == TrimEnd(Left(s, index))
  {
    i := index;
    while i >= 0 && IsSpace(s[i])
      invariant -1 <= i <= index && TrimEnd(Left(s, i)) == TrimEnd(Left(s, index))
    {
      assert Left(s, i)[..i] == Left(s, i - 1);
      i := i - 1;
    }
  }

  lemma ReversedNothing()
    ensures Reversed("") == ""
  {
  }

  lemma EndDigitsStep(s: string, i: int)
    requires 0 <= i < |s| && IsDigit(s[i])
    ensures EndDigits(Left(s, i)) == 1 + EndDigits(Left(s, i - 1))
  {
    assert Left(s, i)[..i] == Left(s, i - 1);
  }

  /** Collects the digits before the index, last first. */
  method CollectDigits(s: string, index: int) returns (rev: string, i: int)
    requires -1 <= index < |s|
    ensures var t := Left(s, index);
            -1 <= i <= index && i == index - EndDigits(t) && Reversed(rev) == t[i + 1..]
  {
    hide Reversed;
    i, rev := index, "";
    ghost var t := Left(s, index);
    assert t[i + 1..] == "" && Reversed("") == "" by { ReversedNothing(); }
    while i >= 0 && IsDigit(s[i])
      invariant -1 <= i <= index
      invariant EndDigits(t) == index - i + EndDigits(Left(s, i))
      invariant Reversed(rev) == t[i + 1..]
    {
      EndDigitsStep(s, i);
      ReversedSnoc(rev, s[i]);
      rev := rev + [s[i]];
      i := i - 1;
      assert t[i + 1..] == [t[i + 1]] + t[i + 2..];
    }
  }

  /** Turns the digits round and reads them. */
  method RevInt(rev: string) returns (number: nat)
    requires IsNumeral(Reversed(rev))
    ensures number == NumeralValue(Reversed(rev))
  {
    hide NumeralValue;
    hide Reversed;
    hide IsNumeral;
    var numStr := "";
    var i := |rev| - 1;
    NothingReversed(rev);
    while i >= 0
      invariant -1 <= i < |rev|
      invariant numStr == Reversed(rev[i + 1..])
    {
      ReversedStep(rev, i);
      numStr := numStr + [rev[i]];
      i := i - 1;
    }
    assert rev[0..] == rev;
    number := NumeralValue(numStr);
  }

  lemma NothingReversed(s: string)
    ensures Reversed(s[|s|..]) == ""
  {
  }

  lemma ReversedStep(s: string, i: nat)
    requires i < |s|
    ensures Reversed(s[i..]) == Reversed(s[i + 1..]) + [s[i]]
  {
    assert s[i..][1..] == s[i + 1..];
  }

  /** The number whose digits end at the index. */
  method ReadNumber(s: string, index: int) returns (value: nat, count: nat, i: int)
    requires -1 <= index < |s|
    ensures -1 <= i <= index && TakeNumber(Left(s, index)) == Number(Left(s, i), count, value)
  {
    hide NumeralValue;
    hide EndDigits;
    hide Reversed;
    var rev;
    rev, i := CollectDigits(s, index);
    value := RevInt(rev);
    count := |rev|;
  }

  /** One marked field: a mark, and the digits before it. */
  method ReadField(s: string, index: int, marks: set<char>) returns (value: nat, i: int)
    requires -1 <= index < |s|
    ensures -1 <= i <= index && TakeField(Left(s, index), marks) == Field(Left(s, i), value as real)
  {
    hide TrimEnd;
    hide TakeNumber;
    i := PrevNonSpaceChar(s, index);
    value := 0;
    if i >= 0 && s[i] in marks {
      ghost var t := Left(s, i);
      i := i - 1;
      assert t[..|t| - 1] == Left(s, i);
      i := PrevNonSpaceChar(s, i);
      var count;
      value, count, i := ReadNumber(s, i);
    }
  }

  /** A number with or without a fraction. */
  method ReadDecimal(s: string, index: int) returns (value: real, i: int)
    requires -1 <= index < |s|
    ensures -1 <= i <= index && TakeDecimal(Left(s, index)) == Field(Left(s, i), value)
  {
    hide TakeNumber;
    hide Fraction;
    var digits, count;
    digits, count, i := ReadNumber(s, index);
    if i >= 0 && s[i] == '.' {
      ghost var before := Left(s, i);
      i := i - 1;
      assert before[..|before| - 1] == Left(s, i);
      var units, width;
      units, width, i := ReadNumber(s, i);
      value := units as real + Fraction(digits, count);
    } else {
      value := digits as real;
    }
  }

  /** The seconds, with their fraction. */
  method ReadSeconds(s: string, index: int) returns (secs: real, i: int)
    requires -1 <= index < |s|
    ensures -1 <= i <= index && TakeSeconds(Left(s, index)) == Field(Left(s, i), secs)
  {
    hide TrimEnd;
    hide TakeDecimal;
    i := PrevNonSpaceChar(s, index);
    if i >= 0 && (s[i] == 's' || s[i] == 'S' || IsDigit(s[i])) {
      if !IsDigit(s[i]) {
        ghost var t := Left(s, i);
        i := i - 1;
        assert t[..|t| - 1] == Left(s, i);
        i := PrevNonSpaceChar(s, i);
      }
      secs, i := ReadDecimal(s, i);
    } else {
      secs := 0.0;
    }
  }

  /** Reads days, hours, minutes and seconds, the last first. */
  method MakeRelTime(timeStr: string) returns (r: Option<real>)
    ensures r == ParseRelTime(timeStr)
  {
    hide TakeSeconds;
    hide TakeField;
    hide TrimEnd;
    var i := |timeStr| - 1;
    assert Left(timeStr, i) == timeStr;
    var secs;
    secs, i := ReadSeconds(timeStr, i);
    var mins, hrs, days;
    mins, i := ReadField(timeStr, i, MINUTE_MARKS);
    hrs, i := ReadField(timeStr, i, HOUR_MARKS);
    days, i := ReadField(timeStr, i, DAY_MARKS);
    i := PrevNonSpaceChar(timeStr, i);
    var negative := false;
    ghost var t := Left(timeStr, i);
    if i >= 0 && timeStr[i] == '-' {
      negative := true;
      i := i - 1;
      assert t[..|t| - 1] == Left(timeStr, i);
    }
    i := PrevNonSpaceChar(timeStr, i);
    if i >= 0 {
      return None;
    }
    var total := days as real * 86400.0 + hrs as real * 3600.0 + mins as real * 60.0 + secs;
    return Some(if negative then -total else total);
  }
}
