/** Relative times: their text, and the parser that reads it from right to left. */
module RelTimes {
  import opened Expressions
  import opened Decimal
  import opened Lexing

  // ---------------------------------------------------------------- printing

  /** At least two digits. */
  function TwoDigits(n: nat): (s: string)
    ensures s != "" && IsNumeral(s)
  {
    if n < 10 then "0" + Numeral(n) else Numeral(n)
  }

  /** The text laid out by its parts. */
  function Layout(days: nat, hrs: nat, mins: nat, secs: nat): (s: string) {
    if days != 0 then Numeral(days) + "+" + TwoDigits(hrs) + ":" + TwoDigits(mins) + ":" + TwoDigits(secs)
    else if hrs != 0 then TwoDigits(hrs) + ":" + TwoDigits(mins) + ":" + TwoDigits(secs)
    else if mins != 0 then TwoDigits(mins) + ":" + TwoDigits(secs)
    else TwoDigits(secs)
  }

  function UnsignedText(n: nat): (s: string) {
    Layout(n / 86400, n % 86400 / 3600, n % 86400 % 3600 / 60, n % 86400 % 3600 % 60)
  }

  /** The text of a whole number of seconds. */
  function RelTimeText(n: int): (s: string) {
    if n < 0 then "-" + UnsignedText(0 - n) else UnsignedText(n)
  }

  // ----------------------------------------------------------------- parsing

  function TrimEnd(s: string): (r: string)
    ensures r <= s && (r != "" ==> !IsSpace(r[|r| - 1]))
  {
    if s != "" && IsSpace(s[|s| - 1]) then TrimEnd(s[..|s| - 1]) else s
  }

  /** How many digits a text ends with. */
  function EndDigits(s: string): (n: nat)
    ensures n <= |s| && IsNumeral(s[|s| - n..])
  {
    if s == "" || !IsDigit(s[|s| - 1]) then 0
    else
      var n := EndDigits(s[..|s| - 1]);
      assert s[|s| - 1 - n..] == s[..|s| - 1][|s| - 1 - n..] + [s[|s| - 1]];
      n + 1
  }

  /** The digits at the end of a text: what is before them, how many they are, and their value. */
  datatype Number = Number(before: string, count: nat, value: nat)

  function TakeNumber(u: string): (r: Number) {
    var n := EndDigits(u);
    Number(u[..|u| - n], n, NumeralValue(u[|u| - n..]))
  }

  /** A number at the end of a text, and what is before it. */
  datatype Field = Field(before: string, value: real)

  function LastChar(s: string): (c: char) {
    if s == "" then '\0' else s[|s| - 1]
  }

  /** The digits at the end, if a mark follows them; else nothing is taken and the value is zero. */
  function TakeField(s: string, marks: set<char>): (r: Field) {
    var t := TrimEnd(s);
    if t == "" || LastChar(t) !in marks then Field(t, 0.0)
    else
      var n := TakeNumber(TrimEnd(t[..|t| - 1]));
      Field(n.before, n.value as real)
  }

  function Power(n: nat): (p: nat)
    ensures p > 0
  {
    if n == 0 then 1 else 10 * Power(n - 1)
  }

  /** The value of digits after a point. */
  function Fraction(digits: nat, count: nat): (r: real) {
    digits as real / Power(count) as real
  }

  /** A number with or without a fraction, at the end of a text. */
  function TakeDecimal(u: string): (r: Field) {
    var last := TakeNumber(u);
    if last.before == "" || LastChar(last.before) != '.' then Field(last.before, last.value as real)
    else
      var units := TakeNumber(last.before[..|last.before| - 1]);
      Field(units.before, units.value as real + Fraction(last.value, last.count))
  }

  /** Seconds may have a fraction, and may be marked. */
  function TakeSeconds(s: string): (r: Field) {
    var t := TrimEnd(s);
    if t == "" || !(LastChar(t) == 's' || LastChar(t) == 'S' || IsDigit(LastChar(t))) then Field(t, 0.0)
    else TakeDecimal(if IsDigit(LastChar(t)) then t else TrimEnd(t[..|t| - 1]))
  }

  const MINUTE_MARKS := {'m', 'M', ':'}
  const HOUR_MARKS := {'h', 'H', ':'}
  const DAY_MARKS := {'d', 'D', '+'}

  /** The number of seconds a text denotes, or None if anything is left over. */
  function ParseRelTime(s: string): (r: Option<real>) {
    var secs := TakeSeconds(s);
    var mins := TakeField(secs.before, MINUTE_MARKS);
    var hrs := TakeField(mins.before, HOUR_MARKS);
    var days := TakeField(hrs.before, DAY_MARKS);
    var t := TrimEnd(days.before);
    var negative := LastChar(t) == '-';
    var left := TrimEnd(if negative then t[..|t| - 1] else t);
    var total := days.value * 86400.0 + hrs.value * 3600.0 + mins.value * 60.0 + secs.value;
    if left != "" then None else Some(if negative then -total else total)
  }

  // -------------------------------------------------------------- round trip

  lemma ValueOfTwoDigits(n: nat)
    ensures NumeralValue(TwoDigits(n)) == n
  {
    ValueOfNumeral(n);
    if n < 10 {
      assert TwoDigits(n)[..1] == "0";
      assert NumeralValue("0") == 0 by {
        assert "0"[..0] == "";
      }
    }
  }

  lemma {:induction false} EndDigitsOf(before: string, digits: string)
    requires IsNumeral(digits) && !IsDigit(LastChar(before))
    ensures EndDigits(before + digits) == |digits|
    ensures (before + digits)[..|before|] == before && (before + digits)[|before|..] == digits
    decreases |digits|
  {
    if digits == "" {
      assert before + digits == before;
    } else {
      var n := |digits| - 1;
      assert (before + digits)[..|before| + n] == before + digits[..n];
      EndDigitsOf(before, digits[..n]);
    }
  }

  lemma TrimKept(s: string)
    requires s != "" && !IsSpace(s[|s| - 1])
    ensures TrimEnd(s) == s
  {
  }

  /** What a field leaves and gives. */
  lemma FieldTaken(before: string, digits: string, mark: char, marks: set<char>)
    requires digits != "" && IsNumeral(digits) && !IsDigit(LastChar(before))
    requires mark in marks && !IsSpace(mark)
    ensures TakeField(before + digits + [mark], marks) == Field(before, NumeralValue(digits) as real)
  {
    hide TrimEnd;
    hide EndDigits;
    hide NumeralValue;
    var u := before + digits;
    var s := u + [mark];
    assert s[|s| - 1] == mark && s[..|s| - 1] == u;
    assert u[|u| - 1] == digits[|digits| - 1];
    TrimKept(s);
    TrimKept(u);
    EndDigitsOf(before, digits);
  }

  lemma NoField(s: string, marks: set<char>)
    requires s == "" || s == "-"
    requires '-' !in marks
    ensures TakeField(s, marks) == Field(s, 0.0)
  {
  }

  lemma SecondsTaken(before: string, digits: string)
    requires digits != "" && IsNumeral(digits) && !IsDigit(LastChar(before)) && LastChar(before) != '.'
    ensures TakeSeconds(before + digits) == Field(before, NumeralValue(digits) as real)
  {
    hide TrimEnd;
    hide EndDigits;
    hide NumeralValue;
    var s := before + digits;
    assert s[|s| - 1] == digits[|digits| - 1];
    TrimKept(s);
    EndDigitsOf(before, digits);
  }

  /** From the fields to the total. */
  lemma Assembled(text: string, secs: Field, mins: Field, hrs: Field, days: Field)
    requires TakeSeconds(text) == secs && TakeField(secs.before, MINUTE_MARKS) == mins
    requires TakeField(mins.before, HOUR_MARKS) == hrs && TakeField(hrs.before, DAY_MARKS) == days
    requires days.before == "" || days.before == "-"
    ensures var total := days.value * 86400.0 + hrs.value * 3600.0 + mins.value * 60.0 + secs.value;
            ParseRelTime(text) == Some(if days.before == "-" then -total else total)
  {
    hide TakeSeconds;
    hide TakeField;
    assert TrimEnd("-") == "-" && TrimEnd("") == "";
    assert "-"[..0] == "";
  }

  predicate IsSign(sign: string) {
    sign == "" || sign == "-"
  }

  lemma WithSeconds(sign: string, n: nat)
    requires IsSign(sign)
    ensures TakeSeconds(sign + TwoDigits(n)) == Field(sign, n as real)
    ensures ParseRelTime(sign + TwoDigits(n)) == Some(if sign == "-" then -(n as real) else n as real)
  {
    hide TakeSeconds;
    hide TakeField;
    hide ParseRelTime;
    ValueOfTwoDigits(n);
    SecondsTaken(sign, TwoDigits(n));
    NoField(sign, MINUTE_MARKS);
    NoField(sign, HOUR_MARKS);
    NoField(sign, DAY_MARKS);
    Assembled(sign + TwoDigits(n), Field(sign, n as real), Field(sign, 0.0), Field(sign, 0.0), Field(sign, 0.0));
  }

  lemma WithMinutes(sign: string, mins: nat, secs: nat)
    requires IsSign(sign)
    ensures var total := mins as real * 60.0 + secs as real;
            ParseRelTime(sign + TwoDigits(mins) + ":" + TwoDigits(secs)) == Some(if sign == "-" then -total else total)
  {
    hide TakeSeconds;
    hide TakeField;
    hide ParseRelTime;
    ValueOfTwoDigits(mins);
    ValueOfTwoDigits(secs);
    var m := sign + TwoDigits(mins) + ":";
    EndsInMark(sign + TwoDigits(mins), ':');
    SecondsTaken(m, TwoDigits(secs));
    FieldTaken(sign, TwoDigits(mins), ':', MINUTE_MARKS);
    NoField(sign, HOUR_MARKS);
    NoField(sign, DAY_MARKS);
    Assembled(m + TwoDigits(secs), Field(m, secs as real),
              Field(sign, mins as real), Field(sign, 0.0), Field(sign, 0.0));
  }

  lemma EndsInMark(s: string, mark: char)
    ensures LastChar(s + [mark]) == mark
  {
  }

  lemma WithHours(sign: string, hrs: nat, mins: nat, secs: nat)
    requires IsSign(sign)
    ensures var total := hrs as real * 3600.0 + mins as real * 60.0 + secs as real;
            ParseRelTime(sign + TwoDigits(hrs) + ":" + TwoDigits(mins) + ":" + TwoDigits(secs))
            == Some(if sign == "-" then -total else total)
  {
    hide TakeSeconds;
    hide TakeField;
    hide ParseRelTime;
    ValueOfTwoDigits(hrs);
    ValueOfTwoDigits(mins);
    ValueOfTwoDigits(secs);
    var h := sign + TwoDigits(hrs) + ":";
    EndsInMark(sign + TwoDigits(hrs), ':');
    var m := h + TwoDigits(mins) + ":";
    EndsInMark(h + TwoDigits(mins), ':');
    SecondsTaken(m, TwoDigits(secs));
    FieldTaken(h, TwoDigits(mins), ':', MINUTE_MARKS);
    FieldTaken(sign, TwoDigits(hrs), ':', HOUR_MARKS);
    NoField(sign, DAY_MARKS);
    Assembled(m + TwoDigits(secs), Field(m, secs as real),
              Field(h, mins as real), Field(sign, hrs as real), Field(sign, 0.0));
  }

  lemma WithDays(sign: string, days: nat, hrs: nat, mins: nat, secs: nat)
    requires IsSign(sign)
    ensures var total := days as real * 86400.0 + hrs as real * 3600.0 + mins as real * 60.0 + secs as real;
            ParseRelTime(sign + Numeral(days) + "+" + TwoDigits(hrs) + ":" + TwoDigits(mins) + ":" + TwoDigits(secs))
            == Some(if sign == "-" then -total else total)
  {
    hide TakeSeconds;
    hide TakeField;
    hide ParseRelTime;
    ValueOfNumeral(days);
    ValueOfTwoDigits(hrs);
    ValueOfTwoDigits(mins);
    ValueOfTwoDigits(secs);
    var d := sign + Numeral(days) + "+";
    EndsInMark(sign + Numeral(days), '+');
    var h := d + TwoDigits(hrs) + ":";
    EndsInMark(d + TwoDigits(hrs), ':');
    var m := h + TwoDigits(mins) + ":";
    EndsInMark(h + TwoDigits(mins), ':');
    SecondsTaken(m, TwoDigits(secs));
    FieldTaken(h, TwoDigits(mins), ':', MINUTE_MARKS);
    FieldTaken(d, TwoDigits(hrs), ':', HOUR_MARKS);
    FieldTaken(sign, Numeral(days), '+', DAY_MARKS);
    Assembled(m + TwoDigits(secs), Field(m, secs as real),
              Field(h, mins as real), Field(d, hrs as real), Field(sign, days as real));
  }

  lemma Split(n: nat, days: nat, hrs: nat, mins: nat, secs: nat)
    requires days == n / 86400 && hrs == n % 86400 / 3600
    requires mins == n % 86400 % 3600 / 60 && secs == n % 86400 % 3600 % 60
    ensures n as real == days as real * 86400.0 + hrs as real * 3600.0 + mins as real * 60.0 + secs as real
  {
    assert n == days * 86400 + hrs * 3600 + mins * 60 + secs;
    ToReals(days, hrs, mins, secs);
  }

  lemma ToReals(days: nat, hrs: nat, mins: nat, secs: nat)
    ensures (days * 86400 + hrs * 3600 + mins * 60 + secs) as real
         == days as real * 86400.0 + hrs as real * 3600.0 + mins as real * 60.0 + secs as real
  {
  }

  lemma Rebracket(a: string, b: string, c: string, d: string, e: string, f: string, g: string, h: string)
    ensures a + (b + c + d + e + f + g + h) == a + b + c + d + e + f + g + h
    ensures a + (b + c + d + e + f) == a + b + c + d + e + f
    ensures a + (b + c + d) == a + b + c + d
  {
  }

  lemma LayoutRoundTrip(sign: string, days: nat, hrs: nat, mins: nat, secs: nat)
    requires IsSign(sign)
    ensures var total := days as real * 86400.0 + hrs as real * 3600.0 + mins as real * 60.0 + secs as real;
            ParseRelTime(sign + Layout(days, hrs, mins, secs)) == Some(if sign == "-" then -total else total)
  {
    hide ParseRelTime;
    hide TwoDigits;
    hide Numeral;
    if days != 0 {
      WithDays(sign, days, hrs, mins, secs);
      Rebracket(sign, Numeral(days), "+", TwoDigits(hrs), ":", TwoDigits(mins), ":", TwoDigits(secs));
    } else if hrs != 0 {
      WithHours(sign, hrs, mins, secs);
      Rebracket(sign, TwoDigits(hrs), ":", TwoDigits(mins), ":", TwoDigits(secs), "", "");
    } else if mins != 0 {
      WithMinutes(sign, mins, secs);
      Rebracket(sign, TwoDigits(mins), ":", TwoDigits(secs), "", "", "", "");
    } else {
      WithSeconds(sign, secs);
    }
  }

  lemma UnsignedRoundTrip(sign: string, n: nat)
    requires IsSign(sign)
    ensures ParseRelTime(sign + UnsignedText(n)) == Some(if sign == "-" then -(n as real) else n as real)
  {
    hide ParseRelTime;
    hide TwoDigits;
    hide Numeral;
    hide Layout;
    var days, hrs, mins, secs := n / 86400, n % 86400 / 3600, n % 86400 % 3600 / 60, n % 86400 % 3600 % 60;
    Split(n, days, hrs, mins, secs);
    LayoutRoundTrip(sign, days, hrs, mins, secs);
  }

  /** Every whole number of seconds comes back from its text. */
  lemma RelTimeRoundTrip(n: int)
    ensures ParseRelTime(RelTimeText(n)) == Some(n as real)
  {
    hide ParseRelTime;
    hide UnsignedText;
    if n < 0 {
      UnsignedRoundTrip("-", 0 - n);
    } else {
      UnsignedRoundTrip("", n);
      assert "" + UnsignedText(n) == UnsignedText(n);
    }
  }

  /** How a number of seconds is printed: in days, hours, minutes and seconds that are in range and add up,
      without leading parts that are zero. */
  lemma PrintedParts(n: nat) returns (days: nat, hrs: nat, mins: nat, secs: nat)
    ensures n == 86400 * days + 3600 * hrs + 60 * mins + secs && hrs < 24 && mins < 60 && secs < 60
    ensures RelTimeText(n) ==
            if days > 0 then Numeral(days) + "+" + TwoDigits(hrs) + ":" + TwoDigits(mins) + ":" + TwoDigits(secs)
            else if hrs > 0 then TwoDigits(hrs) + ":" + TwoDigits(mins) + ":" + TwoDigits(secs)
            else if mins > 0 then TwoDigits(mins) + ":" + TwoDigits(secs)
            else TwoDigits(secs)
    ensures n > 0 ==> RelTimeText(0 - n) == "-" + RelTimeText(n)
  {
    hide Numeral;
    hide TwoDigits;
    days, hrs, mins, secs := n / 86400, n % 86400 / 3600, n % 86400 % 3600 / 60, n % 86400 % 3600 % 60;
  }

  /** Two digits are two, for what has no more. */
  lemma TwoDigitsAreTwo(n: nat)
    requires n < 100
    ensures |TwoDigits(n)| == 2 && NumeralValue(TwoDigits(n)) == n
  {
    ValueOfTwoDigits(n);
    assert n >= 10 ==> Numeral(n) == Numeral(n / 10) + [Digit(n % 10)];
  }

  // ----------------------------------------------------- letters and fractions

  /** What digits after a point are worth: the first a tenth of itself, and so on. */
  function Tenths(digits: string): (r: real)
    requires IsNumeral(digits)
  {
    if digits == "" then 0.0 else ((digits[0] as int - '0' as int) as real + Tenths(digits[1..])) / 10.0
  }

  lemma {:induction false} FirstDigit(digits: string)
    requires digits != "" && IsNumeral(digits)
    ensures NumeralValue(digits)
         == (digits[0] as int - '0' as int) * Power(|digits| - 1) + NumeralValue(digits[1..])
    decreases |digits|
  {
    var n := |digits| - 1;
    if n > 0 {
      FirstDigit(digits[..n]);
      assert digits[..n][1..] == digits[1..][..n - 1] && digits[1..][n - 1] == digits[n];
      assert NumeralValue(digits[1..]) == 10 * NumeralValue(digits[1..][..n - 1]) + (digits[n] as int - '0' as int);
      TenTimes(digits[0] as int - '0' as int, Power(n - 1));
    } else {
      assert digits[..0] == "" && digits[1..] == "";
    }
  }

  lemma TenTimes(d: int, p: nat)
    ensures 10 * (d * p) == d * (10 * p)
  {
  }

  predicate IsProduct(n: nat, t: real, p: nat) {
    n as real == t * p as real
  }

  lemma {:induction false} DigitsShifted(digits: string)
    requires IsNumeral(digits)
    ensures IsProduct(NumeralValue(digits), Tenths(digits), Power(|digits|))
    decreases |digits|
  {
    if digits == "" {
      assert NumeralValue(digits) == 0 && Tenths(digits) == 0.0;
    } else {
      hide IsProduct;
      hide NumeralValue;
      hide Power;
      hide Tenths;
      DigitsShifted(digits[1..]);
      DigitStep(digits);
    }
  }

  lemma DigitStep(digits: string)
    requires digits != "" && IsNumeral(digits)
    requires IsProduct(NumeralValue(digits[1..]), Tenths(digits[1..]), Power(|digits| - 1))
    ensures IsProduct(NumeralValue(digits), Tenths(digits), Power(|digits|))
  {
    hide IsProduct;
    hide NumeralValue;
    FirstDigit(digits);
    var d, p, t := digits[0] as int - '0' as int, Power(|digits| - 1), Tenths(digits[1..]);
    assert Power(|digits|) == 10 * p && Tenths(digits) == (d as real + t) / 10.0;
    Shifted(d, p, t, NumeralValue(digits[1..]), NumeralValue(digits), Power(|digits|), Tenths(digits));
  }

  lemma Shifted(d: int, p: nat, t: real, rest: nat, all: nat, q: nat, x: real)
    requires IsProduct(rest, t, p) && all == d * p + rest && q == 10 * p && x == (d as real + t) / 10.0
    ensures IsProduct(all, x, q)
  {
    var y := p as real;
    assert (d * p) as real == d as real * y;
    assert q as real == 10.0 * y;
    assert 10.0 * x == d as real + t;
    assert x * (10.0 * y) == (10.0 * x) * y;
    assert (d as real + t) * y == d as real * y + t * y;
  }

  lemma FractionMeans(digits: string)
    requires IsNumeral(digits)
    ensures Fraction(NumeralValue(digits), |digits|) == Tenths(digits)
  {
    hide NumeralValue;
    hide Power;
    hide Tenths;
    DigitsShifted(digits);
    Divided(NumeralValue(digits) as real, Tenths(digits), Power(|digits|) as real);
  }

  lemma Divided(a: real, t: real, p: real)
    requires p > 0.0 && a == t * p
    ensures a / p == t
  {
  }

  lemma DecimalTaken(before: string, secs: nat, digits: string)
    requires !IsDigit(LastChar(before)) && digits != "" && IsNumeral(digits)
    ensures TakeDecimal(before + Numeral(secs) + "." + digits) == Field(before, secs as real + Tenths(digits))
  {
    hide Numeral;
    hide Tenths;
    hide EndDigits;
    ValueOfNumeral(secs);
    FractionMeans(digits);
    var units := before + Numeral(secs);
    var point := units + ".";
    EndsInMark(units, '.');
    EndDigitsOf(point, digits);
    assert point[..|point| - 1] == units;
    EndDigitsOf(before, Numeral(secs));
  }

  lemma SecondsWithFraction(before: string, secs: nat, digits: string, mark: string)
    requires !IsDigit(LastChar(before)) && digits != "" && IsNumeral(digits) && SecondMark(mark)
    ensures TakeSeconds(before + Numeral(secs) + "." + digits + mark) == Field(before, secs as real + Tenths(digits))
  {
    hide Numeral;
    hide Tenths;
    hide TakeDecimal;
    DecimalTaken(before, secs, digits);
    var t := before + Numeral(secs) + "." + digits;
    var s := t + mark;
    assert LastChar(t) == digits[|digits| - 1];
    if mark == "" {
      assert s == t;
    } else {
      assert s[..|s| - 1] == t && LastChar(s) == mark[0];
    }
  }

  predicate SecondMark(s: string) {
    s == "" || s == "s" || s == "S"
  }

  predicate DayMark(c: char) {
    c == 'd' || c == 'D' || c == '+'
  }

  predicate HourMark(c: char) {
    c == 'h' || c == 'H' || c == ':'
  }

  predicate MinuteMark(c: char) {
    c == 'm' || c == 'M' || c == ':'
  }

  /** A number and its mark at the end of a text. */
  function Marked(before: string, n: nat, c: char): (s: string) {
    before + Numeral(n) + [c]
  }

  lemma MarkedTaken(before: string, n: nat, c: char)
    requires !IsDigit(LastChar(before))
    ensures var s := Marked(before, n, c);
            && (DayMark(c) ==> TakeField(s, DAY_MARKS) == Field(before, n as real))
            && (HourMark(c) ==> TakeField(s, HOUR_MARKS) == Field(before, n as real))
            && (MinuteMark(c) ==> TakeField(s, MINUTE_MARKS) == Field(before, n as real))
            && LastChar(s) == c
  {
    hide TakeField;
    hide Numeral;
    ValueOfNumeral(n);
    EndsInMark(before + Numeral(n), c);
    if DayMark(c) {
      FieldTaken(before, Numeral(n), c, DAY_MARKS);
    }
    if HourMark(c) {
      FieldTaken(before, Numeral(n), c, HOUR_MARKS);
    }
    if MinuteMark(c) {
      FieldTaken(before, Numeral(n), c, MINUTE_MARKS);
    }
  }

  /** A time written out with marks, letters in either case or colons and a plus sign, and seconds with a
      fraction: `1d2h3m4.5s` and the like. */
  lemma LetteredTime(sign: string, days: nat, d: char, hrs: nat, h: char, mins: nat, m: char,
      secs: nat, digits: string, mark: string)
    requires IsSign(sign) && DayMark(d) && HourMark(h) && MinuteMark(m)
    requires digits != "" && IsNumeral(digits) && SecondMark(mark)
    ensures var total := days as real * 86400.0 + hrs as real * 3600.0 + mins as real * 60.0
                         + (secs as real + Tenths(digits));
            var front := Marked(Marked(Marked(sign, days, d), hrs, h), mins, m);
            ParseRelTime(front + Numeral(secs) + "." + digits + mark) == Some(if sign == "-" then -total else total)
  {
    hide TakeSeconds;
    hide TakeField;
    hide ParseRelTime;
    hide Numeral;
    hide Tenths;
    hide Marked;
    hide SecondMark;
    var b1 := Marked(sign, days, d);
    var b2 := Marked(b1, hrs, h);
    var b3 := Marked(b2, mins, m);
    MarkedTaken(sign, days, d);
    MarkedTaken(b1, hrs, h);
    MarkedTaken(b2, mins, m);
    SecondsWithFraction(b3, secs, digits, mark);
    var text := b3 + Numeral(secs) + "." + digits + mark;
    Assembled(text, Field(b3, secs as real + Tenths(digits)), Field(b2, mins as real), Field(b1, hrs as real),
              Field(sign, days as real));
  }

  // ------------------------------------------------------------ machine integers

  predicate FitsInt(r: real) {
    INT_MIN as real <= r <= INT_MAX as real
  }

  /** The `int` values and `int` sums on the way to the total fit; the total itself is a `double`. */
  predicate PartsFit(s: string) {
    var mins := TakeField(TakeSeconds(s).before, MINUTE_MARKS);
    var hrs := TakeField(mins.before, HOUR_MARKS);
    var days := TakeField(hrs.before, DAY_MARKS);
    && FitsInt(days.value) && FitsInt(days.value * 86400.0)
    && FitsInt(hrs.value) && FitsInt(hrs.value * 3600.0) && FitsInt(days.value * 86400.0 + hrs.value * 3600.0)
    && FitsInt(mins.value) && FitsInt(mins.value * 60.0)
    && FitsInt(days.value * 86400.0 + hrs.value * 3600.0 + mins.value * 60.0)
  }

  /** A text that denotes a number of seconds in the range of `int` is parsed without overflow, and in
      particular the text of every such number. */
  lemma NoOverflow(s: string)
    requires ParseRelTime(s).Some? && -INT_MAX as real <= ParseRelTime(s).value <= INT_MAX as real
    ensures PartsFit(s)
  {
    hide TakeSeconds;
    hide TakeField;
    var secs := TakeSeconds(s);
    var mins := TakeField(secs.before, MINUTE_MARKS);
    var hrs := TakeField(mins.before, HOUR_MARKS);
    var days := TakeField(hrs.before, DAY_MARKS);
    SecondsNotNegative(s);
    FieldNotNegative(secs.before, MINUTE_MARKS);
    FieldNotNegative(mins.before, HOUR_MARKS);
    FieldNotNegative(hrs.before, DAY_MARKS);
  }

  lemma FieldNotNegative(s: string, marks: set<char>)
    ensures TakeField(s, marks).value >= 0.0
  {
  }

  lemma SecondsNotNegative(s: string)
    ensures TakeSeconds(s).value >= 0.0
  {
  }

  lemma TextFits(n: int)
    requires -INT_MAX <= n <= INT_MAX
    ensures PartsFit(RelTimeText(n))
  {
    hide ParseRelTime;
    RelTimeRoundTrip(n);
    NoOverflow(RelTimeText(n));
  }
}
