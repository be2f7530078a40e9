/** Proleptic Gregorian calendar arithmetic, as done by Python's `date` and
    `timedelta`: leap years, month lengths, the day ordinal (0001-01-01 is
    day 1), the weekday (Monday = 0) and adding a number of days. */
module Calendar {

  datatype Date = Date(year: int, month: int, day: int)

  predicate IsLeap(y: int) {
    y % 4 == 0 && (y % 100 != 0 || y % 400 == 0)
  }

  function DaysInYear(y: int): int {
    if IsLeap(y) then 366 else 365
  }

  function DaysInMonth(y: int, m: int): (n: int)
    requires 1 <= m <= 12
    ensures 28 <= n <= 31
    ensures n == 31 <==> m in {1, 3, 5, 7, 8, 10, 12}
    ensures n == 29 <==> m == 2 && IsLeap(y)
    ensures n == 28 <==> m == 2 && !IsLeap(y)
  {
    if m == 2 then (if IsLeap(y) then 29 else 28)
    else if m == 4 || m == 6 || m == 9 || m == 11 then 30
    else 31
  }

  /** What `date(y, m, d)` accepts without raising ValueError (the year
      range 1..9999 is not modelled). */
  predicate ValidDate(d: Date) {
    1 <= d.month <= 12 && 1 <= d.day <= DaysInMonth(d.year, d.month)
  }

  /** Days in the years before `y` (Python's `_days_before_year`). */
  function DaysBeforeYear(y: int): int
    decreases if y < 1 then 1 - y else y - 1
  {
    if y == 1 then 0
    else if y > 1 then DaysBeforeYear(y - 1) + DaysInYear(y - 1)
    else DaysBeforeYear(y + 1) - DaysInYear(y)
  }

  /** Days in the months of year `y` before month `m` (`_days_before_month`),
      meaningful for months 1 to 12. */
  function DaysBeforeMonth(y: int, m: int): int {
    var common :=
      match m
      case 1 => 0 case 2 => 31 case 3 => 59 case 4 => 90
      case 5 => 120 case 6 => 151 case 7 => 181 case 8 => 212
      case 9 => 243 case 10 => 273 case 11 => 304 case _ => 334;
    common + (if m > 2 && IsLeap(y) then 1 else 0)
  }

  /** `date.toordinal()`, meaningful for valid dates. */
  function ToOrdinal(d: Date): int {
    DaysBeforeYear(d.year) + DaysBeforeMonth(d.year, d.month) + d.day
  }

  /** `date.weekday()`: Monday is 0 and Sunday is 6. */
  function Weekday(d: Date): (w: int)
    ensures 0 <= w < 7
  {
    (ToOrdinal(d) + 6) % 7
  }

  function FirstOfNextMonth(d: Date): Date
    requires 1 <= d.month <= 12
  {
    if d.month == 12 then Date(d.year + 1, 1, 1) else Date(d.year, d.month + 1, 1)
  }

  function LastOfPreviousMonth(d: Date): Date
    requires 1 <= d.month <= 12
  {
    if d.month == 1 then Date(d.year - 1, 12, 31)
    else Date(d.year, d.month - 1, DaysInMonth(d.year, d.month - 1))
  }

  lemma DivStep4(y: int)
    ensures y / 4 == (y - 1) / 4 + (if y % 4 == 0 then 1 else 0)
  {
  }

  lemma DivStep100(y: int)
    ensures y / 100 == (y - 1) / 100 + (if y % 100 == 0 then 1 else 0)
  {
  }

  lemma DivStep400(y: int)
    ensures y / 400 == (y - 1) / 400 + (if y % 400 == 0 then 1 else 0)
  {
  }

  lemma LeapDivisors(y: int)
    ensures y % 400 == 0 ==> y % 100 == 0
    ensures y % 100 == 0 ==> y % 4 == 0
  {
    if y % 400 == 0 {
      Multiple400(y);
    }
    if y % 100 == 0 {
      Multiple100(y);
    }
  }

  lemma Multiple400(y: int)
    requires y % 400 == 0
    ensures y % 100 == 0
  {
    var q := y / 400;
    assert y == 100 * (4 * q);
  }

  lemma Multiple100(y: int)
    requires y % 100 == 0
    ensures y % 4 == 0
  {
    var q := y / 100;
    assert y == 4 * (25 * q);
  }

  lemma DaysBeforeYearStep(y: int)
    ensures DaysBeforeYear(y + 1) == DaysBeforeYear(y) + DaysInYear(y)
  {
  }

  /** The recursive count agrees with the closed form of `_days_before_year`
      for every year from 1 on. */
  lemma {:induction false} DaysBeforeYearClosedForm(y: int)
    requires y >= 1
    ensures var p := y - 1; DaysBeforeYear(y) == 365 * p + p / 4 - p / 100 + p / 400
    decreases y
  {
    if y > 1 {
      DaysBeforeYearClosedForm(y - 1);
      var p, q := y - 1, y - 2;
      assert DaysBeforeYear(y) == DaysBeforeYear(p) + DaysInYear(p);
      assert DaysBeforeYear(p) == 365 * q + q / 4 - q / 100 + q / 400;
      DivStep4(p);
      DivStep100(p);
      DivStep400(p);
      LeapDivisors(p);
      assert DaysInYear(p) == 365 + (if p % 4 == 0 then 1 else 0)
        - (if p % 100 == 0 then 1 else 0) + (if p % 400 == 0 then 1 else 0);
    }
  }

  lemma {:induction false} DaysBeforeYearMonotonic(a: int, b: int)
    requires a <= b
    ensures DaysBeforeYear(a) <= DaysBeforeYear(b)
    decreases b - a
  {
    if a < b {
      DaysBeforeYearStep(a);
      DaysBeforeYearMonotonic(a + 1, b);
    }
  }

  /** A valid date's ordinal lies within its own year's range of ordinals. */
  lemma OrdinalWithinYear(d: Date)
    requires ValidDate(d)
    ensures DaysBeforeYear(d.year) < ToOrdinal(d) <= DaysBeforeYear(d.year + 1)
  {
    DaysBeforeYearStep(d.year);
  }

  /** Month `m + 1` starts where month `m` ends. */
  lemma MonthStep(y: int, m: int)
    requires 1 <= m < 12
    ensures DaysBeforeMonth(y, m + 1) == DaysBeforeMonth(y, m) + DaysInMonth(y, m)
  {
    if m == 1 {
    } else if m == 2 {
    } else if m <= 6 {
      assert m == 3 || m == 4 || m == 5 || m == 6;
    } else {
      assert m == 7 || m == 8 || m == 9 || m == 10 || m == 11;
    }
  }

  lemma YearBoundaryOrdinal(y: int)
    ensures ToOrdinal(Date(y + 1, 1, 1)) == ToOrdinal(Date(y, 12, 31)) + 1
  {
    DaysBeforeYearStep(y);
  }

  lemma MonthBoundaryOrdinal(y: int, m: int)
    requires 1 <= m < 12
    ensures ValidDate(Date(y, m + 1, 1))
    ensures ToOrdinal(Date(y, m + 1, 1)) == ToOrdinal(Date(y, m, DaysInMonth(y, m))) + 1
  {
    MonthStep(y, m);
  }

  /** The first day of the next month follows the last day of this one. */
  lemma NextMonthOrdinal(d: Date)
    requires 1 <= d.month <= 12
    ensures ValidDate(FirstOfNextMonth(d))
    ensures ToOrdinal(FirstOfNextMonth(d))
         == ToOrdinal(Date(d.year, d.month, DaysInMonth(d.year, d.month))) + 1
  {
    if d.month == 12 {
      assert FirstOfNextMonth(d) == Date(d.year + 1, 1, 1);
      assert DaysInMonth(d.year, d.month) == 31;
      YearBoundaryOrdinal(d.year);
    } else {
      assert FirstOfNextMonth(d) == Date(d.year, d.month + 1, 1);
      MonthBoundaryOrdinal(d.year, d.month);
    }
  }

  /** Different valid dates have different ordinals, so ToOrdinal is a
      bijection onto its image and `date.fromordinal` is its inverse. */
  lemma OrdinalInjective(a: Date, b: Date)
    requires ValidDate(a) && ValidDate(b)
    requires ToOrdinal(a) == ToOrdinal(b)
    ensures a == b
  {
    OrdinalWithinYear(a);
    OrdinalWithinYear(b);
    if a.year < b.year {
      DaysBeforeYearMonotonic(a.year + 1, b.year);
      assert false;
    } else if b.year < a.year {
      DaysBeforeYearMonotonic(b.year + 1, a.year);
      assert false;
    }
  }

  /** Moving within a month moves the ordinal by the same amount. */
  lemma SameMonthOrdinal(d: Date, day: int)
    requires ValidDate(d) && 1 <= day <= DaysInMonth(d.year, d.month)
    ensures ValidDate(d.(day := day))
    ensures ToOrdinal(d.(day := day)) == ToOrdinal(d) - d.day + day
  {
  }

  /** The first day of the next month is `len - day + 1` days later. */
  lemma ForwardOrdinal(d: Date)
    requires ValidDate(d)
    ensures ValidDate(FirstOfNextMonth(d))
    ensures ToOrdinal(FirstOfNextMonth(d)) == ToOrdinal(d) + DaysInMonth(d.year, d.month) - d.day + 1
  {
    SameMonthOrdinal(d, DaysInMonth(d.year, d.month));
    NextMonthOrdinal(d);
  }

  /** The last day of the previous month is `day` days earlier. */
  lemma BackwardOrdinal(d: Date)
    requires ValidDate(d)
    ensures ValidDate(LastOfPreviousMonth(d))
    ensures ToOrdinal(LastOfPreviousMonth(d)) == ToOrdinal(d) - d.day
  {
    var prev := LastOfPreviousMonth(d);
    SameMonthOrdinal(d, 1);
    NextMonthOrdinal(prev);
    assert FirstOfNextMonth(prev) == d.(day := 1);
  }

  /** `d + timedelta(days=n)`, computed month by month. */
  function AddDays(d: Date, n: int): (r: Date)
    requires ValidDate(d)
    ensures ValidDate(r) && ToOrdinal(r) == ToOrdinal(d) + n
    decreases if n < 0 then -n else n
  {
    var len := DaysInMonth(d.year, d.month);
    if 1 <= d.day + n <= len then
      SameMonthOrdinal(d, d.day + n);
      d.(day := d.day + n)
    else if n > 0 then
      ForwardOrdinal(d);
      AddDays(FirstOfNextMonth(d), n - (len - d.day + 1))
    else
      BackwardOrdinal(d);
      AddDays(LastOfPreviousMonth(d), n + d.day)
  }

  /** Adding days gives the one valid date with the shifted ordinal. */
  lemma AddDaysUnique(d: Date, n: int, e: Date)
    requires ValidDate(d) && ValidDate(e)
    requires ToOrdinal(e) == ToOrdinal(d) + n
    ensures AddDays(d, n) == e
  {
    OrdinalInjective(AddDays(d, n), e);
  }

  /** An anchor for the ordinal and weekday arithmetic: 2024-01-01, a
      Monday, is day 738886. */
  lemma WeekdayAnchor()
    ensures ToOrdinal(Date(2024, 1, 1)) == 738886
    ensures Weekday(Date(2024, 1, 1)) == 0
  {
    DaysBeforeYearClosedForm(2024);
  }

  /** Moving a date by n days moves its weekday by n, modulo 7; with the
      anchor this fixes the weekday of every date. */
  lemma WeekdayShift(d: Date, n: int)
    requires ValidDate(d)
    ensures Weekday(AddDays(d, n)) == (Weekday(d) + n) % 7
  {
  }

  /** The position of a date's month in the sequence of all months. */
  function MonthIndex(d: Date): int {
    d.year * 12 + d.month
  }

  /** Every date of a later month has a larger ordinal. */
  lemma {:induction false} LaterMonthOrdinal(a: Date, b: Date)
    requires ValidDate(a) && ValidDate(b)
    requires MonthIndex(a) < MonthIndex(b)
    ensures ToOrdinal(a) < ToOrdinal(b)
    decreases MonthIndex(b) - MonthIndex(a)
  {
    var next := FirstOfNextMonth(a);
    ForwardOrdinal(a);
    if MonthIndex(next) == MonthIndex(b) {
      SameMonthDistance(next, b);
    } else {
      LaterMonthOrdinal(next, b);
    }
  }

  /** Two dates of one month are as far apart as their days. */
  lemma SameMonthDistance(a: Date, b: Date)
    requires ValidDate(a) && ValidDate(b) && MonthIndex(a) == MonthIndex(b)
    ensures a.year == b.year && a.month == b.month
    ensures ToOrdinal(b) - ToOrdinal(a) == b.day - a.day
  {
    SameMonthOrdinal(a, b.day);
    assert a.(day := b.day) == b;
  }

  /** Dates at least 31 days apart lie in different months, the earlier
      date in the earlier month. */
  lemma MonthsApart(a: Date, b: Date)
    requires ValidDate(a) && ValidDate(b)
    requires ToOrdinal(a) + 31 <= ToOrdinal(b)
    ensures MonthIndex(a) < MonthIndex(b)
  {
    if MonthIndex(b) < MonthIndex(a) {
      LaterMonthOrdinal(b, a);
    } else if MonthIndex(a) == MonthIndex(b) {
      SameMonthDistance(a, b);
    }
  }
}
