/** Day numbers of the proleptic Gregorian calendar. */
module Gregorian {
  import opened Operators
  import opened Lexing

  datatype Date = Date(year: int, month: int, day: int)

  predicate IsLeapYear(year: int) {
    var mod4, mod400 := TruncMod(year, 4), TruncMod(year, 400);
    mod4 == 0 && mod400 != 100 && mod400 != 200 && mod400 != 300
  }

  function MonthAdjustment(year: int, month: int): (r: int) {
    if month <= 2 then 0 else if IsLeapYear(year) then -1 else -2
  }

  /** The days of the years before. */
  function YearBase(year: int): (r: int) {
    365 * (year - 1) + TruncDiv(year - 1, 4) - TruncDiv(year - 1, 100) + TruncDiv(year - 1, 400)
  }

  /** The number of a date, counted from the first of January of year 1. */
  function FixedFromGregorian(date: Date): (r: int) {
    YearBase(date.year) + TruncDiv(367 * date.month - 362, 12) + MonthAdjustment(date.year, date.month) + date.day
  }

  function Weekday(date: Date): (r: int) {
    TruncMod(FixedFromGregorian(date), 7)
  }

  function Yearday(date: Date): (r: int) {
    FixedFromGregorian(date) - FixedFromGregorian(Date(date.year, 1, 1))
  }

  // ---------------------------------------------------------------- calendar

  /** The rule of the calendar. */
  predicate CenturyRule(year: int) {
    year % 4 == 0 && (year % 100 == 0 ==> year % 400 == 0)
  }

  function MonthLength(year: int, month: int): (r: int)
    ensures 28 <= r <= 31
  {
    if month == 2 then (if CenturyRule(year) then 29 else 28)
    else if month in {4, 6, 9, 11} then 30
    else 31
  }

  predicate IsDate(date: Date) {
    date.year >= 1 && 1 <= date.month <= 12 && 1 <= date.day <= MonthLength(date.year, date.month)
  }

  function NextDate(date: Date): (r: Date)
    requires IsDate(date)
    ensures IsDate(r)
  {
    if date.day < MonthLength(date.year, date.month) then date.(day := date.day + 1)
    else if date.month < 12 then Date(date.year, date.month + 1, 1)
    else Date(date.year + 1, 1, 1)
  }

  /** The order of the calendar. */
  predicate Earlier(a: Date, b: Date) {
    a.year < b.year || (a.year == b.year && (a.month < b.month || (a.month == b.month && a.day < b.day)))
  }

  // ------------------------------------------------------------------ proofs

  /** The test on the year modulo 400 is the rule of the calendar. */
  lemma LeapYearRule(year: int)
    requires year >= 1
    ensures IsLeapYear(year) <==> CenturyRule(year)
  {
  }

  lemma Quotients(y: int, d: int)
    requires y >= 1 && d in {4, 100, 400}
    ensures y / d - (y - 1) / d == if y % d == 0 then 1 else 0
  {
  }

  lemma YearLength(year: int)
    requires year >= 1
    ensures YearBase(year + 1) - YearBase(year) == if CenturyRule(year) then 366 else 365
  {
    Quotients(year, 4);
    Quotients(year, 100);
    Quotients(year, 400);
    Multiples(year);
  }

  lemma Multiples(year: int)
    ensures year % 400 == 0 ==> year % 100 == 0
    ensures year % 100 == 0 ==> year % 4 == 0
  {
  }

  /** The days of a year before a month. */
  function BeforeMonth(leap: bool, month: int): (r: int)
    requires 1 <= month <= 12
  {
    (367 * month - 362) / 12 + if month <= 2 then 0 else if leap then -1 else -2
  }

  lemma MonthStep(year: int, month: int)
    requires year >= 1 && 1 <= month < 12
    ensures BeforeMonth(CenturyRule(year), month + 1)
         == BeforeMonth(CenturyRule(year), month) + MonthLength(year, month)
  {
  }

  lemma FixedParts(date: Date)
    requires date.year >= 1 && 1 <= date.month <= 12
    ensures FixedFromGregorian(date)
         == YearBase(date.year) + BeforeMonth(CenturyRule(date.year), date.month) + date.day
  {
    LeapYearRule(date.year);
  }

  /** The next date has the next number, and falls on the next day of the week. */
  lemma NextNumber(date: Date)
    requires IsDate(date)
    ensures FixedFromGregorian(NextDate(date)) == FixedFromGregorian(date) + 1
    ensures Weekday(NextDate(date)) == (Weekday(date) + 1) % 7
  {
    hide FixedFromGregorian;
    hide YearBase;
    hide CenturyRule;
    var next := NextDate(date);
    FixedParts(date);
    FixedParts(next);
    if date.day == MonthLength(date.year, date.month) {
      if date.month < 12 {
        MonthStep(date.year, date.month);
      } else {
        YearLength(date.year);
      }
    }
    FixedPositive(date);
  }

  lemma {:induction false} YearBaseGrows(a: int, b: int)
    requires 1 <= a <= b
    ensures YearBase(b) >= YearBase(a) + 365 * (b - a)
    decreases b - a
  {
    hide YearBase;
    hide CenturyRule;
    if a < b {
      YearBaseGrows(a, b - 1);
      YearLength(b - 1);
    }
  }

  lemma FixedPositive(date: Date)
    requires IsDate(date)
    ensures FixedFromGregorian(date) >= 1
  {
    hide FixedFromGregorian;
    hide CenturyRule;
    FixedParts(date);
    YearBaseGrows(1, date.year);
    assert YearBase(1) == 0;
  }

  lemma {:induction false} MonthsGrow(year: int, a: int, b: int)
    requires year >= 1 && 1 <= a < b <= 12
    ensures BeforeMonth(CenturyRule(year), a) + MonthLength(year, a) <= BeforeMonth(CenturyRule(year), b)
    decreases b - a
  {
    hide BeforeMonth;
    hide CenturyRule;
    MonthStep(year, a);
    if a + 1 < b {
      MonthsGrow(year, a + 1, b);
    }
  }

  /** The year day of a date lies within its year. */
  lemma YeardayRange(date: Date)
    requires IsDate(date)
    ensures 0 <= Yearday(date) < if CenturyRule(date.year) then 366 else 365
  {
    hide FixedFromGregorian;
    hide YearBase;
    FixedParts(date);
    FixedParts(Date(date.year, 1, 1));
    if date.month > 1 {
      MonthsGrow(date.year, 1, date.month);
    }
    if date.month < 12 {
      MonthsGrow(date.year, date.month, 12);
    }
  }

  /** The numbering follows the order of the calendar. */
  lemma NumbersIncrease(a: Date, b: Date)
    requires IsDate(a) && IsDate(b)
    ensures Earlier(a, b) <==> FixedFromGregorian(a) < FixedFromGregorian(b)
  {
    hide FixedFromGregorian;
    if Earlier(a, b) {
      EarlierLess(a, b);
    } else if Earlier(b, a) {
      EarlierLess(b, a);
    } else {
      assert a == b;
    }
  }

  lemma EarlierLess(a: Date, b: Date)
    requires IsDate(a) && IsDate(b) && Earlier(a, b)
    ensures FixedFromGregorian(a) < FixedFromGregorian(b)
  {
    hide FixedFromGregorian;
    hide YearBase;
    hide CenturyRule;
    hide BeforeMonth;
    FixedParts(a);
    FixedParts(b);
    if a.year < b.year {
      YeardayRange(a);
      FixedParts(Date(a.year, 1, 1));
      FixedParts(Date(b.year, 1, 1));
      YeardayRange(b);
      YearLength(a.year);
      YearBaseGrows(a.year + 1, b.year);
      FirstMonth(CenturyRule(a.year));
      FirstMonth(CenturyRule(b.year));
    } else if a.month < b.month {
      MonthsGrow(a.year, a.month, b.month);
    }
  }

  lemma FirstMonth(leap: bool)
    ensures BeforeMonth(leap, 1) == 0
  {
  }

  // ----------------------------------------------------------- every number

  /** The date `n` days after the first of January of year 1. */
  function DateAfter(n: nat): (r: Date)
    ensures IsDate(r)
  {
    if n == 0 then Date(1, 1, 1) else NextDate(DateAfter(n - 1))
  }

  /** Every positive number is that of exactly one date. */
  lemma {:induction false} NumberOfDateAfter(n: nat)
    ensures FixedFromGregorian(DateAfter(n)) == n + 1
  {
    hide FixedFromGregorian;
    if n == 0 {
      FixedParts(Date(1, 1, 1));
      assert YearBase(1) == 0;
    } else {
      NumberOfDateAfter(n - 1);
      NextNumber(DateAfter(n - 1));
    }
  }

  lemma DateOfNumber(date: Date)
    requires IsDate(date)
    ensures FixedFromGregorian(date) >= 1 && DateAfter(FixedFromGregorian(date) - 1) == date
  {
    hide FixedFromGregorian;
    hide DateAfter;
    FixedPositive(date);
    var n := FixedFromGregorian(date) - 1;
    NumberOfDateAfter(n);
    NumbersIncrease(date, DateAfter(n));
    NumbersIncrease(DateAfter(n), date);
  }

  /** The first of January of year 1 is a Monday, the day with number 1, and days of the week go round from
      there; the first of January of 1970 is a Thursday. */
  lemma WeekdayOfDateAfter(n: nat)
    ensures Weekday(DateAfter(n)) == (n + 1) % 7
    ensures Weekday(Date(1970, 1, 1)) == 4
  {
    hide FixedFromGregorian;
    NumberOfDateAfter(n);
    assert FixedFromGregorian(Date(1970, 1, 1)) == 719163 by {
      NewYear1970();
    }
  }

  lemma NewYear1970()
    ensures FixedFromGregorian(Date(1970, 1, 1)) == 719163
  {
  }

  /** The date some days later. */
  function DaysLater(date: Date, n: nat): (r: Date)
    requires IsDate(date)
    ensures IsDate(r)
  {
    if n == 0 then date else NextDate(DaysLater(date, n - 1))
  }

  lemma {:induction false} NumberOfDaysLater(date: Date, n: nat)
    requires IsDate(date)
    ensures FixedFromGregorian(DaysLater(date, n)) == FixedFromGregorian(date) + n
  {
    hide FixedFromGregorian;
    if n > 0 {
      NumberOfDaysLater(date, n - 1);
      NextNumber(DaysLater(date, n - 1));
    }
  }

  /** The year day is the number of days since the first of January. */
  lemma YeardayCounts(date: Date)
    requires IsDate(date)
    ensures Yearday(date) >= 0 && DaysLater(Date(date.year, 1, 1), Yearday(date)) == date
  {
    hide FixedFromGregorian;
    hide DaysLater;
    YeardayRange(date);
    var first := Date(date.year, 1, 1);
    var later := DaysLater(first, Yearday(date));
    NumberOfDaysLater(first, Yearday(date));
    NumbersIncrease(date, later);
    NumbersIncrease(later, date);
  }

  // ---------------------------------------------------------- machine integers

  predicate FitsInt(n: int) {
    INT_MIN <= n <= INT_MAX
  }

  /** Up to year 5,000,000 no step of the computation, taken from left to right, overflows. */
  lemma NoOverflow(date: Date)
    requires IsDate(date) && date.year <= 5_000_000
    ensures var y := date.year - 1;
            && FitsInt(365 * y) && FitsInt(365 * y + y / 4) && FitsInt(365 * y + y / 4 - y / 100)
            && FitsInt(YearBase(date.year)) && FitsInt(367 * date.month - 362)
            && FitsInt(YearBase(date.year) + (367 * date.month - 362) / 12)
            && FitsInt(FixedFromGregorian(date))
  {
    hide CenturyRule;
    FixedParts(date);
  }
}
