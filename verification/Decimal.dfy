/** Decimal numerals. */
module Decimal {

  predicate IsDigit(c: char) {
    '0' <= c <= '9'
  }

  predicate IsNumeral(s: string) {
    forall i :: 0 <= i < |s| ==> IsDigit(s[i])
  }

  function Digit(n: int): (c: char)
    requires 0 <= n < 10
    ensures IsDigit(c) && c as int - '0' as int == n
  {
    ('0' as int + n) as char
  }

  /** The digits of a number, without leading zeros. */
  function Numeral(n: nat): (s: string)
    ensures |s| > 0 && IsNumeral(s)
  {
    if n < 10 then [Digit(n)] else Numeral(n / 10) + [Digit(n % 10)]
  }

  /** Only zero is written with a leading zero. */
  lemma {:induction false} NumeralHead(n: nat)
    requires n > 0
    ensures Numeral(n)[0] != '0'
  {
    if n >= 10 {
      NumeralHead(n / 10);
    }
  }

  /** `atoi` on a string of digits. */
  function NumeralValue(s: string): (n: nat)
    requires IsNumeral(s)
  {
    if s == "" then 0
    else 10 * NumeralValue(s[..|s| - 1]) + (s[|s| - 1] as int - '0' as int)
  }

  lemma {:induction false} ValueOfNumeral(n: nat)
    ensures NumeralValue(Numeral(n)) == n
  {
    if n >= 10 {
      ValueOfNumeral(n / 10);
      var s := Numeral(n);
      assert s[..|s| - 1] == Numeral(n / 10);
    } else {
      var s := Numeral(n);
      assert s[..|s| - 1] == "";
    }
  }

  /** How many digits a text starts with. */
  function DigitCount(s: string): (n: nat)
    ensures n <= |s| && IsNumeral(s[..n])
    ensures n < |s| ==> !IsDigit(s[n])
  {
    if s == "" || !IsDigit(s[0]) then 0 else 1 + DigitCount(s[1..])
  }

  lemma {:induction false} DigitCountOfNumeral(s: string, more: string)
    requires IsNumeral(s) && (more == "" || !IsDigit(more[0]))
    ensures DigitCount(s + more) == |s|
  {
    if s != "" {
      DigitCountOfNumeral(s[1..], more);
      assert (s + more)[1..] == s[1..] + more;
    } else {
      assert s + more == more;
    }
  }
}
