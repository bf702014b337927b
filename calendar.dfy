/**
 * The proleptic Gregorian calendar of Python's `datetime.date`: dates from 0001-01-01 to
 * 9999-12-31, the day number `Ordinal` (0001-01-01 is day 1, as `toordinal()` counts),
 * weekdays with Monday = 0, tuple comparison, `date + timedelta(days=n)` and `replace(year=...)`.
 */
module Calendar {
  import opened Base

  const MAX_YEAR := 9999
  /** The day number of 9999-12-31, the last date Python represents. */
  const MAX_ORDINAL := 3652059

  datatype Date = Date(year: int, month: int, day: int)

  predicate IsLeap(y: int)
  {
    y % 4 == 0 && (y % 100 != 0 || y % 400 == 0)
  }

  function DaysInMonth(y: int, m: int): int
    requires 1 <= m <= 12
  {
    if m == 2 then (if IsLeap(y) then 29 else 28)
    else if m == 4 || m == 6 || m == 9 || m == 11 then 30
    else 31
  }

  function DaysInYear(y: int): int
  {
    if IsLeap(y) then 366 else 365
  }

  /** A date Python can construct: year 1..9999, month 1..12, day within the month. */
  predicate Valid(d: Date)
  {
    1 <= d.year <= MAX_YEAR && 1 <= d.month <= 12 && 1 <= d.day <= DaysInMonth(d.year, d.month)
  }

  /** Days in the years before year `y`. */
  function DaysBeforeYear(y: int): int
    requires y >= 1
  {
    var p := y - 1;
    p * 365 + p / 4 - p / 100 + p / 400
  }

  /** Days in the months of year `y` before month `m`. */
  function DaysBeforeMonth(y: int, m: int): int
    requires 1 <= m <= 12
  {
    (if m == 1 then 0 else if m == 2 then 31 else if m == 3 then 59 else if m == 4 then 90
     else if m == 5 then 120 else if m == 6 then 151 else if m == 7 then 181 else if m == 8 then 212
     else if m == 9 then 243 else if m == 10 then 273 else if m == 11 then 304 else 334)
    + (if m > 2 && IsLeap(y) then 1 else 0)
  }

  /** The day number of a date (Python's `toordinal()`). */
  function Ordinal(d: Date): int
    requires Valid(d)
  {
    DaysBeforeYear(d.year) + DaysBeforeMonth(d.year, d.month) + d.day
  }

  /** Python's `a < b` on dates: (year, month, day) compared as tuples. */
  predicate Before(a: Date, b: Date)
  {
    a.year < b.year || (a.year == b.year && (a.month < b.month || (a.month == b.month && a.day < b.day)))
  }

  /** Python's `weekday()`: Monday is 0, Sunday is 6. */
  function Weekday(d: Date): int
    requires Valid(d)
  {
    (Ordinal(d) + 6) % 7
  }

  /** Counting multiples of 4, 100 and 400 up to `p + 1` instead of `p` adds one exactly at a multiple. */
  lemma DivSteps(p: int)
    requires p >= 0
    ensures (p + 1) / 4 == p / 4 + (if (p + 1) % 4 == 0 then 1 else 0)
    ensures (p + 1) / 100 == p / 100 + (if (p + 1) % 100 == 0 then 1 else 0)
    ensures (p + 1) / 400 == p / 400 + (if (p + 1) % 400 == 0 then 1 else 0)
  {
  }

  lemma YearStep(y: int)
    requires y >= 1
    ensures DaysBeforeYear(y + 1) == DaysBeforeYear(y) + DaysInYear(y)
  {
    DivSteps(y - 1);
  }

  lemma MonthStep(y: int, m: int)
    requires 1 <= m <= 12
    ensures DaysBeforeMonth(y, m) + DaysInMonth(y, m) == if m == 12 then DaysInYear(y) else DaysBeforeMonth(y, m + 1)
  {
  }

  lemma {:induction false} YearMonotone(a: int, b: int)
    requires 1 <= a <= b
    ensures DaysBeforeYear(a) <= DaysBeforeYear(b)
    decreases b - a
  {
    if a < b {
      YearStep(a);
      YearMonotone(a + 1, b);
    }
  }

  /** A date's day number lies within its own year's span of day numbers. */
  lemma WithinYear(d: Date)
    requires Valid(d)
    ensures DaysBeforeYear(d.year) < Ordinal(d) <= DaysBeforeYear(d.year + 1)
  {
    MonthStep(d.year, d.month);
    YearStep(d.year);
    if d.month < 12 {
      MonthsBefore(d.year, d.month + 1, 12);
      MonthStep(d.year, 12);
    }
  }

  lemma {:induction false} MonthsBefore(y: int, a: int, b: int)
    requires 1 <= a <= b <= 12
    ensures DaysBeforeMonth(y, a) <= DaysBeforeMonth(y, b)
    decreases b - a
  {
    if a < b {
      MonthStep(y, a);
      MonthsBefore(y, a + 1, b);
    }
  }

  /** Every date Python can represent has a day number in 1..MAX_ORDINAL. */
  lemma OrdinalRange(d: Date)
    requires Valid(d)
    ensures 1 <= Ordinal(d) <= MAX_ORDINAL
  {
    WithinYear(d);
    YearMonotone(d.year + 1, MAX_YEAR + 1);
  }

  /** Python's tuple comparison of dates agrees with comparing day numbers. */
  lemma OrdinalOrder(a: Date, b: Date)
    requires Valid(a) && Valid(b)
    ensures Before(a, b) <==> Ordinal(a) < Ordinal(b)
  {
    if a.year < b.year {
      WithinYear(a);
      WithinYear(b);
      YearMonotone(a.year + 1, b.year);
    } else if b.year < a.year {
      WithinYear(a);
      WithinYear(b);
      YearMonotone(b.year + 1, a.year);
    } else if a.month < b.month {
      MonthStep(a.year, a.month);
      MonthsBefore(a.year, a.month + 1, b.month);
    } else if b.month < a.month {
      MonthStep(b.year, b.month);
      MonthsBefore(b.year, b.month + 1, a.month);
    }
  }

  /** Distinct dates have distinct day numbers. */
  lemma OrdinalInjective(a: Date, b: Date)
    requires Valid(a) && Valid(b) && Ordinal(a) == Ordinal(b)
    ensures a == b
  {
    OrdinalOrder(a, b);
    OrdinalOrder(b, a);
  }

  /** The next day, or Python's OverflowError after 9999-12-31. */
  function Tomorrow(d: Date): (r: Result<Date>)
    requires Valid(d)
    ensures r.Ok? <==> Ordinal(d) < MAX_ORDINAL
    ensures r.Ok? ==> Valid(r.value) && Ordinal(r.value) == Ordinal(d) + 1
    ensures r.Err? ==> r.error == Overflow
  {
    OrdinalRange(d);
    OrdinalOrder(d, Date(MAX_YEAR, 12, 31));
    if d.day < DaysInMonth(d.year, d.month) then Ok(Date(d.year, d.month, d.day + 1))
    else if d.month < 12 then
      MonthStep(d.year, d.month);
      Ok(Date(d.year, d.month + 1, 1))
    else if d.year < MAX_YEAR then
      MonthStep(d.year, 12);
      YearStep(d.year);
      Ok(Date(d.year + 1, 1, 1))
    else Err(Overflow)
  }

  /** The previous day, or Python's OverflowError before 0001-01-01. */
  function Yesterday(d: Date): (r: Result<Date>)
    requires Valid(d)
    ensures r.Ok? <==> Ordinal(d) > 1
    ensures r.Ok? ==> Valid(r.value) && Ordinal(r.value) == Ordinal(d) - 1
    ensures r.Err? ==> r.error == Overflow
  {
    OrdinalRange(d);
    OrdinalOrder(Date(1, 1, 1), d);
    if d.day > 1 then Ok(Date(d.year, d.month, d.day - 1))
    else if d.month > 1 then
      MonthStep(d.year, d.month - 1);
      Ok(Date(d.year, d.month - 1, DaysInMonth(d.year, d.month - 1)))
    else if d.year > 1 then
      MonthStep(d.year - 1, 12);
      YearStep(d.year - 1);
      Ok(Date(d.year - 1, 12, 31))
    else Err(Overflow)
  }

  /** `d + timedelta(days=n)`: the date `n` days later, or OverflowError outside Python's range. */
  function AddDays(d: Date, n: int): (r: Result<Date>)
    requires Valid(d)
    ensures r.Ok? <==> 1 <= Ordinal(d) + n <= MAX_ORDINAL
    ensures r.Ok? ==> Valid(r.value) && Ordinal(r.value) == Ordinal(d) + n
    ensures r.Err? ==> r.error == Overflow
    decreases if n < 0 then -n else n
  {
    OrdinalRange(d);
    if n == 0 then Ok(d)
    else if n > 0 then
      match Tomorrow(d)
      case Err(e) => Err(e)
      case Ok(t) => AddDays(t, n - 1)
    else
      match Yesterday(d)
      case Err(e) => Err(e)
      case Ok(t) => AddDays(t, n + 1)
  }

  lemma ModShift(a: int, n: int)
    ensures (a + n) % 7 == (a % 7 + n) % 7
  {
    var q := a / 7;
    assert a == 7 * q + a % 7;
    assert a + n == 7 * q + (a % 7 + n);
  }

  /** Moving `n` days moves the weekday `n` places round the week. */
  lemma WeekdayShift(d: Date, e: Date, n: int)
    requires Valid(d) && Valid(e) && Ordinal(e) == Ordinal(d) + n
    ensures Weekday(e) == (Weekday(d) + n) % 7
  {
    ModShift(Ordinal(d) + 6, n);
  }

  /** Within one stretch of seven days, each weekday occurs once. */
  lemma WeekdayWithinWeek(a: Date, b: Date)
    requires Valid(a) && Valid(b) && Weekday(a) == Weekday(b)
    requires Ordinal(a) <= Ordinal(b) < Ordinal(a) + 7
    ensures a == b
  {
    var n := Ordinal(b) - Ordinal(a);
    WeekdayShift(a, b, n);
    assert n == 0 by {
      var w := Weekday(a);
      assert 0 <= w < 7 && 0 <= n < 7 && (w + n) % 7 == w;
    }
    OrdinalInjective(a, b);
  }

  /**
   * `d.replace(year=y)`: the same month and day in year `y`. Python raises ValueError when
   * `y` is outside 1..9999 or when the day does not exist in that year, which for a valid
   * date happens only to 29 February in a common year.
   */
  function ReplaceYear(d: Date, y: int): (r: Result<Date>)
    requires Valid(d)
    ensures r.Ok? <==> 1 <= y <= MAX_YEAR && !(d.month == 2 && d.day == 29 && !IsLeap(y))
    ensures r.Ok? ==> Valid(r.value) && r.value.year == y && r.value.month == d.month && r.value.day == d.day
    ensures r.Err? ==> r.error == BadReplace
  {
    var e := Date(y, d.month, d.day);
    if Valid(e) then Ok(e) else Err(BadReplace)
  }
}
