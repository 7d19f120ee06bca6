/** Proleptic Gregorian calendar arithmetic, with months numbered from 0 as
    JavaScript's `Date.prototype.getMonth` numbers them (0 = January). */
module Gregorian {

  type Month = m: int | 0 <= m < 12

  /** A calendar month of a year: the part of `currentDate` the calendar page shows. */
  datatype YearMonth = YearMonth(year: int, month: Month) {
    /** Months counted from January of year 0: consecutive months have consecutive indices. */
    function Index(): int {
      12 * year + month
    }
  }

  predicate IsLeapYear(y: int) {
    y % 4 == 0 && (y % 100 != 0 || y % 400 == 0)
  }

  /** The length of a month, as `new Date(year, month + 1, 0).getDate()` yields it. */
  function DaysInMonth(y: int, m: Month): (n: int)
    ensures 28 <= n <= 31
    ensures m == 1 ==> (n == 29 <==> IsLeapYear(y))
  {
    if m == 1 then
      if IsLeapYear(y) then 29 else 28
    else if m == 3 || m == 5 || m == 8 || m == 10 then
      30
    else
      31
  }

  /** The month `new Date(year, month, 1)` lands in when `month` is outside
      0..11: the excess overflows into the year, as the MakeDay operation of
      ECMA-262 does with floor division and a non-negative remainder. */
  function MakeMonth(year: int, month: int): (r: YearMonth)
    ensures r.Index() == 12 * year + month
    ensures 0 <= month < 12 ==> r == YearMonth(year, month)
  {
    YearMonth(year + month / 12, month % 12)
  }

  /** Two indices name the same month only if the months are equal. */
  lemma IndexInjective(a: YearMonth, b: YearMonth)
    requires a.Index() == b.Index()
    ensures a == b
  {
  }

  /** Days since 1970-01-01 (negative before it) of day `d` of month `m` of
      year `y`. The year is taken to start in March, so that the leap day is
      the last day of its year; the 365-day years, the 4/100/400 leap rule
      and the month lengths from March on (31, 30, 31, 30, 31, 31, 30, 31, 30,
      31, 31, 28/29) are then counted in closed form. */
  function DayNumber(y: int, m: Month, d: int): int {
    var y' := if m <= 1 then y - 1 else y;
    var mp := if m <= 1 then m + 10 else m - 2;
    365 * y' + y' / 4 - y' / 100 + y' / 400 + (153 * mp + 2) / 5 + d - 1 - 719468
  }

  /** `getDay()`: 0 for Sunday up to 6 for Saturday; 1970-01-01 was a Thursday. */
  function Weekday(y: int, m: Month, d: int): (w: int)
    ensures 0 <= w < 7
  {
    (DayNumber(y, m, d) + 4) % 7
  }

  /** Fixed points of the day count and the weekday. */
  lemma KnownDays()
    ensures DayNumber(1970, 0, 1) == 0 && Weekday(1970, 0, 1) == 4
    ensures DayNumber(2000, 2, 1) == 11017 && Weekday(2000, 2, 1) == 3
    ensures Weekday(2024, 0, 1) == 1
    ensures Weekday(2026, 9, 10) == 6
  {
  }

  /** Days within a month follow each other. */
  lemma DayNumberStep(y: int, m: Month, d: int)
    ensures DayNumber(y, m, d + 1) == DayNumber(y, m, d) + 1
    ensures Weekday(y, m, d + 1) == (Weekday(y, m, d) + 1) % 7
  {
  }

  /** Among the numbers up to `y`, the multiples of 4 number one more than
      among those up to `y - 1` exactly when 4 divides `y`; likewise for 100 and 400. */
  lemma FloorDivSteps(y: int)
    ensures y / 4 - (y - 1) / 4 == if y % 4 == 0 then 1 else 0
    ensures y / 100 - (y - 1) / 100 == if y % 100 == 0 then 1 else 0
    ensures y / 400 - (y - 1) / 400 == if y % 400 == 0 then 1 else 0
  {
  }

  lemma {:induction false} MultipleOfMultiple(y: int, a: int, b: int)
    requires a > 0 && b > 0 && y % (a * b) == 0
    ensures y % a == 0
  {
    var q := y / (a * b);
    assert y == (a * b) * q;
    assert y == a * (b * q);
  }

  /** February: from March 1 back to February 1 is 28 days plus the leap day. */
  lemma {:induction false} FebruarySpan(y: int)
    ensures DayNumber(y, 2, 1) - DayNumber(y, 1, 1) == DaysInMonth(y, 1)
  {
    FloorDivSteps(y);
    if y % 400 == 0 {
      MultipleOfMultiple(y, 100, 4);
    }
    if y % 100 == 0 {
      MultipleOfMultiple(y, 4, 25);
    }
    assert DayNumber(y, 2, 1) - DayNumber(y, 1, 1)
        == 28 + (y / 4 - (y - 1) / 4) - (y / 100 - (y - 1) / 100) + (y / 400 - (y - 1) / 400);
  }

  /** The month lengths agree with the day count: the first of the following
      month comes DaysInMonth days after the first of this one. This is the
      sense of `new Date(year, month + 1, 0)`, the day before the following first. */
  lemma {:induction false} DaysInMonthSpansMonth(ym: YearMonth)
    ensures
      var next := MakeMonth(ym.year, ym.month + 1);
      DayNumber(next.year, next.month, 1) - DayNumber(ym.year, ym.month, 1) == DaysInMonth(ym.year, ym.month)
  {
    if ym.month == 1 {
      FebruarySpan(ym.year);
    }
  }
}
