/**
 * Python's naive `datetime` values as the tool uses them: six fields, the
 * range checks of the `datetime` constructor, the field-by-field ordering
 * Python applies to naive datetimes, and day arithmetic through proleptic
 * Gregorian ordinals (`date.toordinal`), which is how `timedelta(days=1)`
 * is added.
 */
module Calendar {
  import opened Wrappers

  const MinYear := 1
  const MaxYear := 9999
  const SecondsPerDay := 86400

  datatype DateTime = DateTime(year: int, month: int, day: int, hour: int, minute: int, second: int)

  predicate IsLeapYear(y: int) {
    y % 4 == 0 && (y % 100 != 0 || y % 400 == 0)
  }

  function DaysInYear(y: int): int {
    if IsLeapYear(y) then 366 else 365
  }

  function DaysInMonth(y: int, m: int): int {
    if m == 2 then (if IsLeapYear(y) then 29 else 28)
    else if m == 4 || m == 6 || m == 9 || m == 11 then 30
    else 31
  }

  predicate IsValidDate(y: int, m: int, d: int) {
    MinYear <= y <= MaxYear && 1 <= m <= 12 && 1 <= d <= DaysInMonth(y, m)
  }

  /** The checks `datetime(year, month, day, hour, minute, second)` makes; it raises `ValueError` otherwise. */
  predicate IsValid(t: DateTime) {
    IsValidDate(t.year, t.month, t.day) &&
    0 <= t.hour < 24 && 0 <= t.minute < 60 && 0 <= t.second < 60
  }

  /** A value Python can hold in a `datetime` object. */
  type Instant = t: DateTime | IsValid(t) witness DateTime(1, 1, 1, 0, 0, 0)

  /** `a < b` on naive datetimes: the fields compared in order, year first. */
  predicate Before(a: DateTime, b: DateTime) {
    a.year < b.year || (a.year == b.year &&
    (a.month < b.month || (a.month == b.month &&
    (a.day < b.day || (a.day == b.day &&
    (a.hour < b.hour || (a.hour == b.hour &&
    (a.minute < b.minute || (a.minute == b.minute && a.second < b.second)))))))))
  }

  /** `a <= b` on naive datetimes. */
  predicate NotAfter(a: DateTime, b: DateTime) {
    a == b || Before(a, b)
  }

  /** The calendar date of `a` is earlier than that of `b`. */
  predicate DateBefore(a: DateTime, b: DateTime) {
    a.year < b.year || (a.year == b.year && (a.month < b.month || (a.month == b.month && a.day < b.day)))
  }

  /** Days in the years before `y` (CPython's `_days_before_year`). */
  function DaysBeforeYear(y: int): int
    requires y >= 1
  {
    var p := y - 1;
    p * 365 + p / 4 - p / 100 + p / 400
  }

  /** Days in the months of year `y` before month `m` (CPython's `_days_before_month`). */
  function DaysBeforeMonth(y: int, m: int): int
    requires 1 <= m <= 12
  {
    var common :=
      if m == 1 then 0 else if m == 2 then 31 else if m == 3 then 59
      else if m == 4 then 90 else if m == 5 then 120 else if m == 6 then 151
      else if m == 7 then 181 else if m == 8 then 212 else if m == 9 then 243
      else if m == 10 then 273 else if m == 11 then 304 else 334;
    common + (if m > 2 && IsLeapYear(y) then 1 else 0)
  }

  /** `date.toordinal()`: 0001-01-01 is day 1. */
  function Ordinal(t: DateTime): int
    requires IsValidDate(t.year, t.month, t.day)
  {
    DaysBeforeYear(t.year) + DaysBeforeMonth(t.year, t.month) + t.day
  }

  /** Seconds since 0000-12-31 00:00:00: the instant's place on the time line. */
  function Timeline(t: Instant): int {
    Ordinal(t) * SecondsPerDay + t.hour * 3600 + t.minute * 60 + t.second
  }

  /** The same calendar date at 00:00:00. */
  function StartOfDay(t: Instant): Instant {
    t.(hour := 0, minute := 0, second := 0)
  }

  /**
   * `t + timedelta(days=1)`: the same time on the following calendar day,
   * or `None` where Python raises `OverflowError` (after 9999-12-31).
   */
  function AddOneDay(t: Instant): (r: Option<Instant>)
    ensures r.None? <==> (t.year == MaxYear && t.month == 12 && t.day == 31)
    ensures r.Some? ==> r.value.hour == t.hour && r.value.minute == t.minute && r.value.second == t.second
  {
    if t.day < DaysInMonth(t.year, t.month) then Some(t.(day := t.day + 1))
    else if t.month < 12 then Some(t.(month := t.month + 1, day := 1))
    else if t.year < MaxYear then Some(t.(year := t.year + 1, month := 1, day := 1))
    else None
  }

  // ---------------------------------------------------------------------
  // Ordinals

  /** How the quotients in `DaysBeforeYear` grow from one year to the next. */
  lemma QuotientSteps(p: int)
    requires p >= 0
    ensures (p + 1) / 4 == p / 4 + (if (p + 1) % 4 == 0 then 1 else 0)
    ensures (p + 1) / 100 == p / 100 + (if (p + 1) % 100 == 0 then 1 else 0)
    ensures (p + 1) / 400 == p / 400 + (if (p + 1) % 400 == 0 then 1 else 0)
  {
    assert p == 4 * (p / 4) + p % 4;
    assert p == 100 * (p / 100) + p % 100;
    assert p == 400 * (p / 400) + p % 400;
  }

  /** The leap-year rule as a sum of the three divisibility tests. */
  lemma LeapDays(y: int)
    ensures DaysInYear(y) == 365 + (if y % 4 == 0 then 1 else 0) - (if y % 100 == 0 then 1 else 0) + (if y % 400 == 0 then 1 else 0)
  {
    if y % 400 == 0 {
      var q := y / 400;
      assert y == 100 * (4 * q) && y == 4 * (100 * q);
    } else if y % 100 == 0 {
      var q := y / 100;
      assert y == 4 * (25 * q);
    }
  }

  lemma YearStep(y: int)
    requires y >= 1
    ensures DaysBeforeYear(y + 1) == DaysBeforeYear(y) + DaysInYear(y)
  {
    QuotientSteps(y - 1);
    LeapDays(y);
  }

  lemma {:induction false} YearsMonotone(y: int, z: int)
    requires 1 <= y <= z
    ensures DaysBeforeYear(y) + 365 * (z - y) <= DaysBeforeYear(z)
    decreases z - y
  {
    if y < z {
      YearsMonotone(y, z - 1);
      YearStep(z - 1);
    }
  }

  lemma MonthStep(y: int, m: int)
    requires 1 <= m < 12
    ensures DaysBeforeMonth(y, m + 1) == DaysBeforeMonth(y, m) + DaysInMonth(y, m)
  {
  }

  lemma DayOfYearBound(y: int, m: int, d: int)
    requires IsValidDate(y, m, d)
    ensures 1 <= DaysBeforeMonth(y, m) + d <= DaysInYear(y)
  {
  }

  lemma {:induction false} MonthsMonotone(y: int, m: int, n: int)
    requires 1 <= m < n <= 12
    ensures DaysBeforeMonth(y, m) + DaysInMonth(y, m) <= DaysBeforeMonth(y, n)
  {
  }

  /** Ordinals grow with the calendar date: the ordinal is a faithful day count. */
  lemma OrdinalMonotone(a: DateTime, b: DateTime)
    requires IsValidDate(a.year, a.month, a.day) && IsValidDate(b.year, b.month, b.day)
    ensures DateBefore(a, b) <==> Ordinal(a) < Ordinal(b)
    ensures (a.year, a.month, a.day) == (b.year, b.month, b.day) <==> Ordinal(a) == Ordinal(b)
  {
    if DateBefore(a, b) {
      OrdinalStrict(a, b);
    } else if DateBefore(b, a) {
      OrdinalStrict(b, a);
    }
  }

  lemma OrdinalStrict(a: DateTime, b: DateTime)
    requires IsValidDate(a.year, a.month, a.day) && IsValidDate(b.year, b.month, b.day)
    requires DateBefore(a, b)
    ensures Ordinal(a) < Ordinal(b)
  {
    if a.year < b.year {
      OrdinalWithinYear(a);
      OrdinalWithinYear(b);
      YearStep(a.year);
      YearsMonotone(a.year + 1, b.year);
    } else if a.month < b.month {
      MonthsMonotone(a.year, a.month, b.month);
    }
  }

  /** An ordinal falls inside its own year. */
  lemma OrdinalWithinYear(t: DateTime)
    requires IsValidDate(t.year, t.month, t.day)
    ensures DaysBeforeYear(t.year) < Ordinal(t) <= DaysBeforeYear(t.year) + DaysInYear(t.year)
  {
    DayOfYearBound(t.year, t.month, t.day);
  }

  /** `AddOneDay` is the day whose ordinal is one more, which is how Python adds `timedelta(days=1)`. */
  lemma AddOneDayOrdinal(t: Instant)
    requires AddOneDay(t).Some?
    ensures Ordinal(AddOneDay(t).value) == Ordinal(t) + 1
    ensures Timeline(AddOneDay(t).value) == Timeline(t) + SecondsPerDay
  {
    if t.day == DaysInMonth(t.year, t.month) {
      if t.month < 12 {
        MonthStep(t.year, t.month);
      } else {
        YearStep(t.year);
      }
    }
  }

  /** Python's field-by-field ordering agrees with the time line. */
  lemma BeforeIsTimeline(a: Instant, b: Instant)
    ensures Before(a, b) <==> Timeline(a) < Timeline(b)
    ensures a == b <==> Timeline(a) == Timeline(b)
  {
    OrdinalMonotone(a, b);
  }
}
