/**
 Calendar dates and their day numbers, as `Date.UTC` counts them (section 21.4.1 of ECMA-262): the
 proleptic Gregorian calendar, with a two-digit year read as one of the 1900s.
 */
module CivilDates {
  datatype CalendarDate = CalendarDate(year: int, month: nat, day: nat)

  const DAY_MS := 24 * 60 * 60 * 1000

  predicate IsLeap(year: int) {
    year % 4 == 0 && (year % 100 != 0 || year % 400 == 0)
  }

  function DaysInYear(year: int): nat { if IsLeap(year) then 366 else 365 }

  function DaysInMonth(year: int, month: nat): nat {
    if month == 2 then if IsLeap(year) then 29 else 28
    else if month == 4 || month == 6 || month == 9 || month == 11 then 30
    else 31
  }

  predicate IsDate(d: CalendarDate) {
    1 <= d.month <= 12 && 1 <= d.day <= DaysInMonth(d.year, d.month)
  }

  /** The day number of January 1st. */
  function DayFromYear(year: int): int {
    365 * (year - 1970) + (year - 1969) / 4 - (year - 1901) / 100 + (year - 1601) / 400
  }

  /** Days of the year before the month begins. */
  function DaysBefore(year: int, month: nat): nat
    requires 1 <= month <= 13
  {
    if month == 1 then 0 else DaysBefore(year, month - 1) + DaysInMonth(year, month - 1)
  }

  function DayNumber(d: CalendarDate): int
    requires IsDate(d)
  {
    DayFromYear(d.year) + DaysBefore(d.year, d.month) + d.day - 1
  }

  /** `Date.UTC` counts years 0 to 99 from 1900. */
  function Counted(d: CalendarDate): CalendarDate {
    if 0 <= d.year <= 99 then d.(year := 1900 + d.year) else d
  }

  /** The milliseconds `Date.UTC` answers; February 29th of a two-digit year may overflow into March. */
  function DateUtc(d: CalendarDate): int
    requires 1 <= d.month <= 12
  {
    var c := Counted(d);
    (DayFromYear(c.year) + DaysBefore(c.year, c.month) + c.day - 1) * DAY_MS
  }

  /** `Math.round` of a quotient: halves go up. */
  function RoundedQuotient(n: int, d: nat): int
    requires d > 0
  {
    (2 * n + d) / (2 * d)
  }

  function EpochDay(d: CalendarDate): int
    requires 1 <= d.month <= 12
  {
    RoundedQuotient(DateUtc(d), DAY_MS)
  }

  predicate Before(a: CalendarDate, b: CalendarDate) {
    a.year < b.year || (a.year == b.year && (a.month < b.month || (a.month == b.month && a.day < b.day)))
  }

  /** The date after, by the calendar alone. */
  function NextDate(d: CalendarDate): CalendarDate {
    if d.day < DaysInMonth(d.year, d.month) then d.(day := d.day + 1)
    else if d.month < 12 then CalendarDate(d.year, d.month + 1, 1)
    else CalendarDate(d.year + 1, 1, 1)
  }

  // ----- Day numbers count dates.

  lemma YearLength(year: int)
    ensures DayFromYear(year + 1) == DayFromYear(year) + DaysInYear(year)
  {
    EveryFourYears(year);
    EveryHundredYears(year);
    EveryFourHundredYears(year);
  }

  lemma EveryFourYears(year: int)
    ensures (year - 1968) / 4 - (year - 1969) / 4 == if year % 4 == 0 then 1 else 0
  {
  }

  lemma EveryHundredYears(year: int)
    ensures (year - 1900) / 100 - (year - 1901) / 100 == if year % 100 == 0 then 1 else 0
    ensures year % 100 == 0 ==> year % 4 == 0
  {
  }

  lemma EveryFourHundredYears(year: int)
    ensures (year - 1600) / 400 - (year - 1601) / 400 == if year % 400 == 0 then 1 else 0
    ensures year % 400 == 0 ==> year % 100 == 0
  {
  }

  lemma YearOfMonths(year: int)
    ensures DaysBefore(year, 13) == DaysInYear(year)
  {
    assert DaysBefore(year, 2) == 31;
    assert DaysBefore(year, 4) == 31 + DaysInMonth(year, 2) + 31;
    assert DaysBefore(year, 6) == DaysBefore(year, 4) + 61;
    assert DaysBefore(year, 8) == DaysBefore(year, 6) + 61;
    assert DaysBefore(year, 10) == DaysBefore(year, 8) + 61;
    assert DaysBefore(year, 12) == DaysBefore(year, 10) + 61;
  }

  /** A partner by the calendar alone: the day number grows by one from each date to the next. */
  lemma NextDateIsNextDay(d: CalendarDate)
    requires IsDate(d)
    ensures IsDate(NextDate(d)) && DayNumber(NextDate(d)) == DayNumber(d) + 1
  {
    if d.day == DaysInMonth(d.year, d.month) && d.month == 12 {
      YearLength(d.year);
      YearOfMonths(d.year);
    }
  }

  /** The day of the year each month begins with, in a common year and after February in a leap one. */
  lemma MonthStarts(year: int, month: nat)
    requires 1 <= month <= 12
    ensures DaysBefore(year, month)
            == [0, 31, 59, 90, 120, 151, 181, 212, 243, 273, 304, 334][month - 1]
               + if IsLeap(year) && month > 2 then 1 else 0
  {
    assert DaysBefore(year, 2) == 31;
    assert DaysBefore(year, 3) == 31 + DaysInMonth(year, 2);
    assert DaysBefore(year, 5) == DaysBefore(year, 3) + 61;
    assert DaysBefore(year, 7) == DaysBefore(year, 5) + 61;
    assert DaysBefore(year, 9) == DaysBefore(year, 7) + 62;
    assert DaysBefore(year, 11) == DaysBefore(year, 9) + 61;
  }

  /** The date so many dates later. */
  function DaysLater(d: CalendarDate, n: nat): CalendarDate {
    if n == 0 then d else NextDate(DaysLater(d, n - 1))
  }

  lemma {:induction false} DaysLaterNumber(d: CalendarDate, n: nat)
    requires IsDate(d)
    ensures IsDate(DaysLater(d, n)) && DayNumber(DaysLater(d, n)) == DayNumber(d) + n
  {
    if n > 0 {
      DaysLaterNumber(d, n - 1);
      NextDateIsNextDay(DaysLater(d, n - 1));
    }
  }

  lemma EpochBegins()
    ensures DayNumber(CalendarDate(1970, 1, 1)) == 0
  {
  }

  /** The date so many days after the epoch, one date after the other. */
  function AfterEpoch(days: nat): CalendarDate {
    if days == 0 then CalendarDate(1970, 1, 1) else NextDate(AfterEpoch(days - 1))
  }

  lemma {:induction false} MonthsGrow(year: int, m: nat, n: nat)
    requires 1 <= m <= n <= 13
    ensures DaysBefore(year, m) <= DaysBefore(year, n)
    ensures m < n ==> DaysBefore(year, m) + DaysInMonth(year, m) <= DaysBefore(year, n)
    decreases n - m
  {
    if m < n {
      MonthsGrow(year, m + 1, n);
    }
  }

  lemma {:induction false} YearsGrow(y: int, z: int)
    requires y < z
    ensures DayFromYear(y) + DaysInYear(y) <= DayFromYear(z)
    decreases z - y
  {
    YearLength(y);
    if y + 1 < z {
      YearsGrow(y + 1, z);
    }
  }

  lemma WithinYear(d: CalendarDate)
    requires IsDate(d)
    ensures DayFromYear(d.year) <= DayNumber(d) < DayFromYear(d.year) + DaysInYear(d.year)
  {
    MonthsGrow(d.year, d.month, 13);
    MonthsGrow(d.year, d.month, d.month + 1);
    MonthsGrow(d.year, d.month + 1, 13);
    YearOfMonths(d.year);
  }

  /** Earlier dates have smaller day numbers, across months, years and leap years. */
  lemma DayNumberMonotone(a: CalendarDate, b: CalendarDate)
    requires IsDate(a) && IsDate(b)
    ensures DayNumber(a) < DayNumber(b) <==> Before(a, b)
  {
    DayNumberGrows(a, b);
    DayNumberGrows(b, a);
  }

  lemma OneDateADay(a: CalendarDate, b: CalendarDate)
    requires IsDate(a) && IsDate(b)
    ensures DayNumber(a) == DayNumber(b) <==> a == b
  {
    DayNumberMonotone(a, b);
    DayNumberMonotone(b, a);
  }

  /** So many days apart is so many dates later. */
  lemma DaysApart(a: CalendarDate, b: CalendarDate, n: nat)
    requires IsDate(a) && IsDate(b)
    ensures DayNumber(b) - DayNumber(a) == n <==> DaysLater(a, n) == b
  {
    DaysLaterNumber(a, n);
    OneDateADay(DaysLater(a, n), b);
  }

  lemma DayNumberGrows(a: CalendarDate, b: CalendarDate)
    requires IsDate(a) && IsDate(b)
    ensures Before(a, b) ==> DayNumber(a) < DayNumber(b)
  {
    if a.year < b.year {
      WithinYear(a);
      WithinYear(b);
      YearsGrow(a.year, b.year);
    } else if a.year == b.year && a.month < b.month {
      MonthsGrow(a.year, a.month, b.month);
    }
  }

  lemma RoundedDays(n: int)
    ensures RoundedQuotient(n * DAY_MS, DAY_MS) == n
  {
  }

  /** What the dashboard computes is the day number of the date it counts. */
  lemma EpochDayMeaning(d: CalendarDate)
    requires IsDate(d) && IsDate(Counted(d))
    ensures EpochDay(d) == DayNumber(Counted(d))
  {
    RoundedDays(DayNumber(Counted(d)));
  }

  /** Exactly: dates are ordered by their day as the dates they are counted as are ordered. */
  lemma EpochDayOrder(a: CalendarDate, b: CalendarDate)
    requires IsDate(a) && IsDate(b) && IsDate(Counted(a)) && IsDate(Counted(b))
    ensures EpochDay(a) < EpochDay(b) <==> Before(Counted(a), Counted(b))
  {
    EpochDayMeaning(a);
    EpochDayMeaning(b);
    DayNumberMonotone(Counted(a), Counted(b));
  }

  lemma {:induction false} DayNumberCounts(days: nat)
    ensures IsDate(AfterEpoch(days)) && AfterEpoch(days).year >= 1970 && DayNumber(AfterEpoch(days)) == days
  {
    if days == 0 {
      EpochBegins();
    } else {
      DayNumberCounts(days - 1);
      NextDateIsNextDay(AfterEpoch(days - 1));
    }
  }

  /** From the epoch on the dashboard's number of a date is how many dates it comes after January 1st 1970. */
  lemma EpochDayCounts(days: nat)
    ensures IsDate(AfterEpoch(days)) && EpochDay(AfterEpoch(days)) == days
  {
    DayNumberCounts(days);
    EpochDayMeaning(AfterEpoch(days));
  }

  // ----- Two-digit years.

  predicate IsTwoDigit(d: CalendarDate) { 0 <= d.year <= 99 }

  const FIRST_COUNTED := CalendarDate(1900, 1, 1)
  const LAST_COUNTED := CalendarDate(1999, 12, 31)

  /** Only February 29th of the year 0 is counted as no date: 1900 is no leap year. */
  lemma CountedIsDate(d: CalendarDate)
    requires IsDate(d)
    ensures IsDate(Counted(d)) || d == CalendarDate(0, 2, 29)
  {
    if IsTwoDigit(d) && d.year > 0 {
      assert IsLeap(d.year) <==> IsLeap(1900 + d.year);
    }
  }

  lemma YearZeroLeapDay()
    ensures EpochDay(CalendarDate(0, 2, 29)) == DayNumber(CalendarDate(1900, 3, 1))
  {
    RoundedDays(DayNumber(CalendarDate(1900, 3, 1)));
    assert DaysBefore(1900, 3) == DaysBefore(1900, 2) + 28;
  }

  /** The date a date is counted as, of its own year or of the 1900s. */
  function CountedAs(d: CalendarDate): (c: CalendarDate)
    requires IsDate(d)
    ensures IsDate(c)
  {
    if d == CalendarDate(0, 2, 29) then CalendarDate(1900, 3, 1)
    else
      assert IsDate(Counted(d)) by { CountedIsDate(d); }
      if 0 <= d.year < 100 then d.(year := d.year + 1900) else d
  }

  lemma EpochDayIs(d: CalendarDate)
    requires IsDate(d)
    ensures EpochDay(d) == DayNumber(CountedAs(d))
  {
    if d == CalendarDate(0, 2, 29) {
      YearZeroLeapDay();
    } else {
      CountedIsDate(d);
      EpochDayMeaning(d);
    }
  }

  /** Every date of a two-digit year is counted within the 1900s. */
  lemma TwoDigitSpan(d: CalendarDate)
    requires IsDate(d) && IsTwoDigit(d)
    ensures DayNumber(FIRST_COUNTED) <= EpochDay(d) <= DayNumber(LAST_COUNTED)
  {
    CountedIsDate(d);
    var c := if d == CalendarDate(0, 2, 29) then CalendarDate(1900, 3, 1) else Counted(d);
    if d == CalendarDate(0, 2, 29) {
      YearZeroLeapDay();
    } else {
      EpochDayMeaning(d);
    }
    DayNumberMonotone(c, FIRST_COUNTED);
    DayNumberMonotone(LAST_COUNTED, c);
  }
}
