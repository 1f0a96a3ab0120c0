/**
  Proleptic Gregorian calendar arithmetic, as Python's `datetime.date`,
  `datetime.timedelta` and `dateutil.relativedelta` perform it for AIP.py.
  A date is a (year, month, day) triple; `Ordinal` numbers the days the way
  `date.toordinal()` does, so "n days later" means "ordinal plus n".
*/
module Calendar {

  datatype Date = Date(year: int, month: int, day: int)

  const MIN_YEAR := 1
  const MAX_YEAR := 9999

  predicate IsLeap(y: int) {
    y % 4 == 0 && (y % 100 != 0 || y % 400 == 0)
  }

  function DaysInYear(y: int): int {
    if IsLeap(y) then 366 else 365
  }

  /** Length of month `m` of year `y` (February has 29 days in a leap year). */
  function DaysInMonth(y: int, m: int): (n: int)
    requires 1 <= m <= 12
    ensures 28 <= n <= 31
    ensures n == 29 <==> m == 2 && IsLeap(y)
    ensures n == 28 <==> m == 2 && !IsLeap(y)
  {
    if m == 2 then (if IsLeap(y) then 29 else 28)
    else if m == 4 || m == 6 || m == 9 || m == 11 then 30
    else 31
  }

  /** A real calendar day: month 1..12 and day within that month. */
  predicate Valid(d: Date) {
    1 <= d.month <= 12 && 1 <= d.day <= DaysInMonth(d.year, d.month)
  }

  /** The years a Python `date` can hold. */
  predicate InRange(d: Date) {
    MIN_YEAR <= d.year <= MAX_YEAR
  }

  /** Chronological order: `a` is strictly earlier than `b`. */
  predicate Before(a: Date, b: Date) {
    a.year < b.year
    || (a.year == b.year && a.month < b.month)
    || (a.year == b.year && a.month == b.month && a.day < b.day)
  }

  predicate OnOrBefore(a: Date, b: Date) {
    !Before(b, a)
  }

  /** Days in the years before `y`, counted from 0001-01-01 (Python's `_days_before_year`). */
  function DaysBeforeYear(y: int): int {
    var p := y - 1;
    p * 365 + p / 4 - p / 100 + p / 400
  }

  /** Days in the months of year `y` before month `m` (Python's `_days_before_month`). */
  function DaysBeforeMonth(y: int, m: int): int
    requires 1 <= m <= 12
  {
    [0, 31, 59, 90, 120, 151, 181, 212, 243, 273, 304, 334][m - 1]
      + (if m > 2 && IsLeap(y) then 1 else 0)
  }

  /** The day number of `d`; 0001-01-01 is day 1 (Python's `date.toordinal`). */
  function Ordinal(d: Date): int
    requires Valid(d)
  {
    DaysBeforeYear(d.year) + DaysBeforeMonth(d.year, d.month) + d.day
  }

  /** The calendar day after `d`. */
  function NextDay(d: Date): (r: Date)
    requires Valid(d)
    ensures Valid(r) && Before(d, r)
    ensures Ordinal(r) == Ordinal(d) + 1
  {
    if d.day < DaysInMonth(d.year, d.month) then Date(d.year, d.month, d.day + 1)
    else if d.month < 12 then
      MonthsFit(d.year, d.month);
      Date(d.year, d.month + 1, 1)
    else
      YearLength(d.year);
      Date(d.year + 1, 1, 1)
  }

  /** The calendar day before `d`. */
  function PrevDay(d: Date): (r: Date)
    requires Valid(d)
    ensures Valid(r) && Before(r, d)
    ensures Ordinal(r) == Ordinal(d) - 1
  {
    if d.day > 1 then Date(d.year, d.month, d.day - 1)
    else if d.month > 1 then
      MonthsFit(d.year, d.month - 1);
      Date(d.year, d.month - 1, DaysInMonth(d.year, d.month - 1))
    else
      YearLength(d.year - 1);
      Date(d.year - 1, 12, 31)
  }

  /** `d + timedelta(days=n)`, one calendar day at a time. */
  function AddDays(d: Date, n: int): (r: Date)
    requires Valid(d)
    ensures Valid(r)
    ensures Ordinal(r) == Ordinal(d) + n
    decreases if n < 0 then -n else n
  {
    if n == 0 then d
    else if n > 0 then AddDays(NextDay(d), n - 1)
    else AddDays(PrevDay(d), n + 1)
  }

  /** `d + relativedelta(months=n)`: shift the month, roll the year, clamp the day to the month's end. */
  function AddMonths(d: Date, n: int): (r: Date)
    requires Valid(d)
    ensures Valid(r)
    ensures r.year * 12 + (r.month - 1) == d.year * 12 + (d.month - 1) + n
    ensures r.day == if d.day <= DaysInMonth(r.year, r.month) then d.day else DaysInMonth(r.year, r.month)
  {
    var total := d.year * 12 + (d.month - 1) + n;
    var y, m := total / 12, total % 12 + 1;
    var dim := DaysInMonth(y, m);
    Date(y, m, if d.day <= dim then d.day else dim)
  }

  /** `d + relativedelta(years=n)`: same month, year shifted, day clamped (Feb 29 becomes Feb 28). */
  function AddYears(d: Date, n: int): (r: Date)
    requires Valid(d)
    ensures Valid(r)
    ensures r.year == d.year + n && r.month == d.month
    ensures Valid(Date(d.year + n, d.month, d.day)) ==> r.day == d.day
    ensures !Valid(Date(d.year + n, d.month, d.day)) ==> d.month == 2 && d.day == 29 && r.day == 28
  {
    var dim := DaysInMonth(d.year + n, d.month);
    Date(d.year + n, d.month, if d.day <= dim then d.day else dim)
  }

  // ---------------------------------------------------------------- lemmas

  /** A whole year holds `DaysInYear` days: the ordinal of Jan 1 advances by the year's length. */
  lemma YearLength(y: int)
    ensures DaysBeforeYear(y + 1) == DaysBeforeYear(y) + DaysInYear(y)
    ensures DaysBeforeMonth(y, 12) + 31 == DaysInYear(y)
  {
    var p := y - 1;
    LeapCounts(p);
    MultiplesNest(y);
    assert y * 365 == p * 365 + 365;
    assert DaysBeforeYear(y + 1) - DaysBeforeYear(y)
        == 365 + (y / 4 - p / 4) - (y / 100 - p / 100) + (y / 400 - p / 400);
  }

  /** A multiple of 400 is a multiple of 100, and a multiple of 100 one of 4. */
  lemma MultiplesNest(y: int)
    ensures y % 400 == 0 ==> y % 100 == 0
    ensures y % 100 == 0 ==> y % 4 == 0
  {
    if y % 400 == 0 {
      var q := y / 400;
      assert y == 400 * q;
      assert y == 100 * (4 * q) + 0;
    }
    if y % 100 == 0 {
      var q := y / 100;
      assert y == 100 * q;
      assert y == 4 * (25 * q) + 0;
    }
  }

  /** From year `p` to year `p + 1` each of the leap-year counts grows by one exactly at a multiple. */
  lemma LeapCounts(p: int)
    ensures (p + 1) / 4 - p / 4 == (if (p + 1) % 4 == 0 then 1 else 0)
    ensures (p + 1) / 100 - p / 100 == (if (p + 1) % 100 == 0 then 1 else 0)
    ensures (p + 1) / 400 - p / 400 == (if (p + 1) % 400 == 0 then 1 else 0)
  {
  }

  /** The months of a year before month `m`, plus month `m`, fit in the year. */
  lemma MonthsFit(y: int, m: int)
    requires 1 <= m <= 12
    ensures DaysBeforeMonth(y, m) + DaysInMonth(y, m) <= DaysInYear(y)
    ensures m < 12 ==> DaysBeforeMonth(y, m) + DaysInMonth(y, m) == DaysBeforeMonth(y, m + 1)
  {
  }

  lemma {:induction false} DaysBeforeYearMonotone(y1: int, y2: int)
    requires y1 <= y2
    ensures DaysBeforeYear(y1) + 365 * (y2 - y1) <= DaysBeforeYear(y2)
    decreases y2 - y1
  {
    if y1 < y2 {
      YearLength(y1);
      DaysBeforeYearMonotone(y1 + 1, y2);
    }
  }

  lemma {:induction false} DaysBeforeMonthMonotone(y: int, m1: int, m2: int)
    requires 1 <= m1 < m2 <= 12
    ensures DaysBeforeMonth(y, m1) + DaysInMonth(y, m1) <= DaysBeforeMonth(y, m2)
    decreases m2 - m1
  {
    MonthsFit(y, m1);
    if m1 + 1 < m2 {
      DaysBeforeMonthMonotone(y, m1 + 1, m2);
    }
  }

  /** The ordinal agrees with chronological order on valid dates. */
  lemma OrdinalMonotone(a: Date, b: Date)
    requires Valid(a) && Valid(b)
    ensures Before(a, b) <==> Ordinal(a) < Ordinal(b)
    ensures a == b <==> Ordinal(a) == Ordinal(b)
  {
    if a.year < b.year {
      OrdinalOrdered(a, b);
    } else if b.year < a.year {
      OrdinalOrdered(b, a);
    } else if a.month < b.month {
      DaysBeforeMonthMonotone(a.year, a.month, b.month);
    } else if b.month < a.month {
      DaysBeforeMonthMonotone(a.year, b.month, a.month);
    }
  }

  lemma OrdinalOrdered(a: Date, b: Date)
    requires Valid(a) && Valid(b) && a.year < b.year
    ensures Ordinal(a) < Ordinal(b)
  {
    MonthsFit(a.year, a.month);
    YearLength(a.year);
    DaysBeforeYearMonotone(a.year + 1, b.year);
  }

  /** Adding days moves forward exactly when n is positive. */
  lemma AddDaysDirection(d: Date, n: int)
    requires Valid(d)
    ensures n > 0 <==> Before(d, AddDays(d, n))
    ensures n < 0 <==> Before(AddDays(d, n), d)
    ensures n == 0 <==> AddDays(d, n) == d
  {
    OrdinalMonotone(d, AddDays(d, n));
  }

  /** Adding days composes. */
  lemma AddDaysAdd(d: Date, m: int, n: int)
    requires Valid(d)
    ensures AddDays(AddDays(d, m), n) == AddDays(d, m + n)
  {
    OrdinalMonotone(AddDays(AddDays(d, m), n), AddDays(d, m + n));
  }
}
