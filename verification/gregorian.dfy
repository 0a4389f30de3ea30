/**
 * The proleptic Gregorian calendar as Python's `calendar` and `datetime` modules use it:
 * leap years, month lengths and the weekday of a date, Monday = 0.
 */
module Gregorian {

  predicate IsLeap(year: int) {
    (year % 4 == 0 && year % 100 != 0) || year % 400 == 0
  }

  function DaysInMonth(year: int, month: int): (n: nat)
    requires 1 <= month <= 12
    ensures 28 <= n <= 31
    ensures month == 2 ==> (n == 29 <==> IsLeap(year))
  {
    if month == 2 then (if IsLeap(year) then 29 else 28)
    else if month == 4 || month == 6 || month == 9 || month == 11 then 30
    else 31
  }

  /** Days of `year` that lie before the first of `month`. */
  function DaysBeforeMonth(year: int, month: int): nat
    requires 1 <= month <= 12
    decreases month
  {
    if month == 1 then 0 else DaysBeforeMonth(year, month - 1) + DaysInMonth(year, month - 1)
  }

  /**
   * Days from 0001-01-01 to the first of January of `year`. Dafny's `/` rounds down for a
   * positive divisor, so the count is also right for years before 1.
   */
  function DaysBeforeYear(year: int): int {
    365 * (year - 1) + (year - 1) / 4 - (year - 1) / 100 + (year - 1) / 400
  }

  /** `datetime.date(year, month, day).weekday()`; 0001-01-01 was a Monday. */
  function Weekday(year: int, month: int, day: int): (w: nat)
    requires 1 <= month <= 12
    ensures w < 7
  {
    (DaysBeforeYear(year) + DaysBeforeMonth(year, month) + day - 1) % 7
  }

  lemma LeapPeriodic(year: int)
    ensures IsLeap(year + 400) == IsLeap(year)
  {
    assert (year + 400) % 4 == year % 4;
    assert (year + 400) % 100 == year % 100;
    assert (year + 400) % 400 == year % 400;
  }

  lemma DaysBeforeYearPeriodic(year: int)
    ensures DaysBeforeYear(year + 400) == DaysBeforeYear(year) + 146097
  {
    assert (year + 399) / 4 == (year - 1) / 4 + 100;
    assert (year + 399) / 100 == (year - 1) / 100 + 4;
    assert (year + 399) / 400 == (year - 1) / 400 + 1;
  }

  lemma {:induction false} DaysBeforeMonthPeriodic(year: int, month: int)
    requires 1 <= month <= 12
    ensures DaysBeforeMonth(year + 400, month) == DaysBeforeMonth(year, month)
    decreases month
  {
    if month > 1 {
      DaysBeforeMonthPeriodic(year, month - 1);
      LeapPeriodic(year);
    }
  }

  /** Four hundred Gregorian years are 146097 days, a whole number of weeks. */
  lemma WeekdayStep(year: int, month: int, day: int)
    requires 1 <= month <= 12
    ensures Weekday(year + 400, month, day) == Weekday(year, month, day)
  {
    DaysBeforeYearPeriodic(year);
    DaysBeforeMonthPeriodic(year, month);
    var x := DaysBeforeYear(year) + DaysBeforeMonth(year, month) + day - 1;
    assert DaysBeforeYear(year + 400) + DaysBeforeMonth(year + 400, month) + day - 1 == x + 146097;
    WeekShift(x, 20871);
  }

  lemma WeekShift(x: int, k: int)
    ensures (x + 7 * k) % 7 == x % 7
  {
    var q, r := x / 7, x % 7;
    assert x + 7 * k == 7 * (q + k) + r;
  }

  lemma {:induction false} ShiftByCycles(year: int, month: int, day: int, k: int)
    requires 1 <= month <= 12
    ensures Weekday(year + 400 * k, month, day) == Weekday(year, month, day)
    decreases if k < 0 then -k else k
  {
    if k > 0 {
      ShiftByCycles(year, month, day, k - 1);
      WeekdayStep(year + 400 * (k - 1), month, day);
      assert year + 400 * (k - 1) + 400 == year + 400 * k;
    } else if k < 0 {
      ShiftByCycles(year, month, day, k + 1);
      WeekdayStep(year + 400 * k, month, day);
      assert year + 400 * k + 400 == year + 400 * (k + 1);
    }
  }

  /**
   * The weekday repeats every four hundred years; Python's `calendar.weekday` relies on
   * this when it maps a year outside 1..9999 to `2000 + year % 400`.
   */
  lemma WeekdayPeriodic(year: int, month: int, day: int)
    requires 1 <= month <= 12
    ensures Weekday(2000 + year % 400, month, day) == Weekday(year, month, day)
  {
    var k := (year - (2000 + year % 400)) / 400;
    assert year == 2000 + year % 400 + 400 * k;
    ShiftByCycles(2000 + year % 400, month, day, k);
  }
}
