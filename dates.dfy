/** Calendar dates as whole day numbers. A date string "YYYY-MM-DD" parses to
    UTC midnight of that day, so comparing two parsed dates is comparing their
    day numbers. */
module Dates {

  /** Days since 1970-01-01. */
  type Day = int

  /** A month index as `Date.prototype.getMonth` returns it: 0 is January. */
  type Month = m: int | 0 <= m <= 11

  predicate IsLeapYear(y: int)
  {
    y % 4 == 0 && (y % 100 != 0 || y % 400 == 0)
  }

  /** The number of days of month `m` (1 to 12) of year `y` in the Gregorian calendar. */
  function DaysInMonth(y: int, m: int): (n: int)
    requires 1 <= m <= 12
    ensures 28 <= n <= 31
  {
    if m == 2 then (if IsLeapYear(y) then 29 else 28)
    else if m == 4 || m == 6 || m == 9 || m == 11 then 30
    else 31
  }

  /** The day number of the proleptic Gregorian date `y`-`m`-`d` (month 1 to 12),
      counted with the year starting on March 1 so that a leap day ends it. */
  function DaysFromCivil(y: int, m: int, d: int): Day
    requires 1 <= m <= 12
  {
    var y' := if m <= 2 then y - 1 else y;
    var mp := if m > 2 then m - 3 else m + 9;
    DaysBeforeMarchYear(y') + (153 * mp + 2) / 5 + d - 1
  }

  /** The day number of March 1 of year `y'`. Dafny's `/` rounds down for a
      positive divisor, so the 400-year era is `y' / 400` for negative years too. */
  function DaysBeforeMarchYear(y': int): int
  {
    var era := y' / 400;
    var yoe := y' - era * 400;
    era * 146097 + yoe * 365 + yoe / 4 - yoe / 100 - 719468
  }

  /** From March 1 of year `y - 1` to March 1 of year `y` there are 366 days
      when `y` is a leap year and 365 otherwise. */
  lemma MarchYearLength(y: int)
    ensures DaysBeforeMarchYear(y) - DaysBeforeMarchYear(y - 1) == if IsLeapYear(y) then 366 else 365
  {
    var era, yoe := y / 400, y % 400;
    EraSplit(y, era, yoe);
    LeapInEra(y, era, yoe);
    if yoe == 0 {
      EraSplit(y - 1, era - 1, 399);
      assert IsLeapYear(y);
    } else {
      EraSplit(y - 1, era, yoe - 1);
      YearOfEraStep(yoe);
      var leapDays := (yoe / 4 - (yoe - 1) / 4) - (yoe / 100 - (yoe - 1) / 100);
      assert DaysBeforeMarchYear(y) - DaysBeforeMarchYear(y - 1) == 365 + leapDays;
      assert leapDays == if IsLeapYear(y) then 1 else 0;
    }
  }

  /** Year `y`, which is year `yoe` of 400-year era `era`, starts its March
      year this many days after 1970-01-01. */
  lemma EraSplit(y: int, era: int, yoe: int)
    requires 0 <= yoe < 400 && y == era * 400 + yoe
    ensures DaysBeforeMarchYear(y) == era * 146097 + yoe * 365 + yoe / 4 - yoe / 100 - 719468
  {
    assert y / 400 == era;
  }

  /** Leap years repeat every 400 years. */
  lemma LeapInEra(y: int, era: int, yoe: int)
    requires 0 <= yoe < 400 && y == era * 400 + yoe
    ensures IsLeapYear(y) == (yoe % 4 == 0 && (yoe % 100 != 0 || yoe == 0))
  {
    ShiftMod4(era * 100, yoe);
    ShiftMod100(era * 4, yoe);
    ShiftMod400(era, yoe);
  }

  /** Adding a multiple of 4 leaves the remainder modulo 4 unchanged. */
  lemma ShiftMod4(k: int, r: int)
    ensures (4 * k + r) % 4 == r % 4
  {
  }

  /** Adding a multiple of 100 leaves the remainder modulo 100 unchanged. */
  lemma ShiftMod100(k: int, r: int)
    ensures (100 * k + r) % 100 == r % 100
  {
  }

  /** Adding a multiple of 400 leaves the remainder modulo 400 unchanged. */
  lemma ShiftMod400(k: int, r: int)
    ensures (400 * k + r) % 400 == r % 400
  {
  }

  /** Within a 400-year era, the leap days counted up to year `a` exceed
      those counted up to year `a - 1` exactly at multiples of 4 and 100. */
  lemma YearOfEraStep(a: int)
    requires 1 <= a < 400
    ensures a / 4 - (a - 1) / 4 == if a % 4 == 0 then 1 else 0
    ensures a / 100 - (a - 1) / 100 == if a % 100 == 0 then 1 else 0
  {
  }

  /** The first day of the month after month `m` (1 to 12) of year `y`. */
  function FirstOfNextMonth(y: int, m: int): Day
    requires 1 <= m <= 12
  {
    if m == 12 then DaysFromCivil(y + 1, 1, 1) else DaysFromCivil(y, m + 1, 1)
  }

  /** The days of month `m` of year `y` are exactly the day numbers from its
      first day up to, not including, the first day of the next month. */
  lemma MonthLength(y: int, m: int)
    requires 1 <= m <= 12
    ensures FirstOfNextMonth(y, m) - DaysFromCivil(y, m, 1) == DaysInMonth(y, m)
  {
    if m == 2 {
      MarchYearLength(y);
    }
  }

  /** The day numbers `[lo, hi)` that `getFullYear() == year && getMonth() == month`
      selects: the days of that month. */
  function MonthWindow(year: int, month: Month): (w: (Day, Day))
    ensures w.0 == DaysFromCivil(year, month + 1, 1)
    ensures w.1 - w.0 == DaysInMonth(year, month + 1)
  {
    MonthLength(year, month + 1);
    (DaysFromCivil(year, month + 1, 1), FirstOfNextMonth(year, month + 1))
  }
}
