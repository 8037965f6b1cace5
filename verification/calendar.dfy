/** The part of Python's datetime.date the script uses: construction from
    (year, month, day), which rejects impossible dates, and subtraction,
    whose .days is the difference of proleptic-Gregorian day numbers. */
module Calendar {
  import opened Failures

  /** A (year, month, day) triple, as format_date returns it. */
  datatype Date = Date(year: int, month: int, day: int)

  const MinYear: int := 1
  const MaxYear: int := 9999

  predicate IsLeap(y: int) {
    y % 4 == 0 && (y % 100 != 0 || y % 400 == 0)
  }

  function DaysInYear(y: int): int {
    if IsLeap(y) then 366 else 365
  }

  function DaysInMonth(y: int, m: int): (n: int)
    requires 1 <= m <= 12
    ensures 28 <= n <= 31
    ensures m == 2 <==> n < 30
  {
    if m == 2 then (if IsLeap(y) then 29 else 28)
    else if m == 4 || m == 6 || m == 9 || m == 11 then 30
    else 31
  }

  /** What datetime.date(year, month, day) accepts without a ValueError. */
  predicate IsValid(d: Date) {
    && MinYear <= d.year <= MaxYear
    && 1 <= d.month <= 12
    && 1 <= d.day <= DaysInMonth(d.year, d.month)
  }

  /** datetime.date takes its arguments as C ints: a component outside this
      range raises OverflowError before any range check is made. */
  const CIntMin: int := -0x8000_0000
  const CIntMax: int := 0x7FFF_FFFF

  predicate FitsCInt(x: int) {
    CIntMin <= x <= CIntMax
  }

  /** datetime.date(year, month, day): the date itself when it exists; an
      OverflowError when a component is too large for a C int, a ValueError
      otherwise. */
  function Construct(d: Date): (r: Result<Date>)
    ensures r.Ok? <==> IsValid(d)
    ensures r.Ok? ==> r.value == d
    ensures r.Err? ==>
      r.error == (if FitsCInt(d.year) && FitsCInt(d.month) && FitsCInt(d.day)
                  then InvalidDate else DateOverflow)
  {
    if !(FitsCInt(d.year) && FitsCInt(d.month) && FitsCInt(d.day)) then Err(DateOverflow)
    else if !IsValid(d) then Err(InvalidDate)
    else Ok(d)
  }

  /** Days in the years before y. */
  function DaysBeforeYear(y: int): int
    requires y >= 1
  {
    var p := y - 1;
    p * 365 + p / 4 - p / 100 + p / 400
  }

  /** Days in the months of year y before month m. */
  function DaysBeforeMonth(y: int, m: int): (n: int)
    requires 1 <= m <= 12
    ensures 28 * (m - 1) <= n <= 31 * (m - 1)
  {
    if m == 1 then 0 else DaysBeforeMonth(y, m - 1) + DaysInMonth(y, m - 1)
  }

  /** date.toordinal(): January 1 of year 1 is day 1. */
  function Ordinal(d: Date): int
    requires IsValid(d)
  {
    DaysBeforeYear(d.year) + DaysBeforeMonth(d.year, d.month) + d.day
  }

  /** (a - b).days for two valid dates. */
  function Difference(a: Date, b: Date): int
    requires IsValid(a) && IsValid(b)
  {
    Ordinal(a) - Ordinal(b)
  }

  /** Calendar order: a falls on an earlier day than b. */
  predicate Before(a: Date, b: Date) {
    || a.year < b.year
    || (a.year == b.year && a.month < b.month)
    || (a.year == b.year && a.month == b.month && a.day < b.day)
  }

  /** The day after d (d + timedelta(days=1)). */
  function NextDay(d: Date): (e: Date)
    requires IsValid(d) && d != Date(MaxYear, 12, 31)
    ensures IsValid(e) && Before(d, e)
  {
    if d.day < DaysInMonth(d.year, d.month) then Date(d.year, d.month, d.day + 1)
    else if d.month < 12 then Date(d.year, d.month + 1, 1)
    else Date(d.year + 1, 1, 1)
  }

  // ---------------------------------------------------------------------------
  // Lemmas about day numbers

  lemma DivStep(y: int)
    requires y >= 1
    ensures y / 4 - (y - 1) / 4 == (if y % 4 == 0 then 1 else 0)
    ensures y / 100 - (y - 1) / 100 == (if y % 100 == 0 then 1 else 0)
    ensures y / 400 - (y - 1) / 400 == (if y % 400 == 0 then 1 else 0)
  {
  }

  /** A year adds DaysInYear(y) days. */
  lemma DaysBeforeNextYear(y: int)
    requires y >= 1
    ensures DaysBeforeYear(y + 1) == DaysBeforeYear(y) + DaysInYear(y)
  {
    var p := y - 1;
    assert DaysBeforeYear(y + 1) == y * 365 + y / 4 - y / 100 + y / 400;
    assert DaysBeforeYear(y) == p * 365 + p / 4 - p / 100 + p / 400;
    DivStep(y);
    DivisorsOfCentury(y);
  }

  lemma DivisorsOfCentury(y: int)
    ensures y % 100 == 0 ==> y % 4 == 0
    ensures y % 400 == 0 ==> y % 100 == 0
  {
    if y % 100 == 0 {
      CenturyIsLeapCandidate(y);
    }
    if y % 400 == 0 {
      QuadCenturyIsCentury(y);
    }
  }

  lemma CenturyIsLeapCandidate(y: int)
    requires y % 100 == 0
    ensures y % 4 == 0
  {
    var q := y / 100;
    assert y == 4 * (25 * q);
  }

  lemma QuadCenturyIsCentury(y: int)
    requires y % 400 == 0
    ensures y % 100 == 0
  {
    var q := y / 400;
    assert y == 100 * (4 * q);
  }

  lemma YearLength(y: int)
    ensures DaysBeforeMonth(y, 12) + DaysInMonth(y, 12) == DaysInYear(y)
  {
    var feb := DaysInMonth(y, 2);
    assert DaysBeforeMonth(y, 2) == 31;
    assert DaysBeforeMonth(y, 3) == 31 + feb;
    assert DaysBeforeMonth(y, 4) == 62 + feb;
    assert DaysBeforeMonth(y, 5) == 92 + feb;
    assert DaysBeforeMonth(y, 6) == 123 + feb;
    assert DaysBeforeMonth(y, 7) == 153 + feb;
    assert DaysBeforeMonth(y, 8) == 184 + feb;
    assert DaysBeforeMonth(y, 9) == 215 + feb;
    assert DaysBeforeMonth(y, 10) == 245 + feb;
    assert DaysBeforeMonth(y, 11) == 276 + feb;
    assert DaysBeforeMonth(y, 12) == 306 + feb;
  }

  /** The months before m, with m itself, never exceed the year. */
  lemma {:induction false} MonthsFitInYear(y: int, m: int, n: int)
    requires 1 <= m < n <= 12
    ensures DaysBeforeMonth(y, m) + DaysInMonth(y, m) <= DaysBeforeMonth(y, n)
    decreases n - m
  {
    if m + 1 < n {
      MonthsFitInYear(y, m + 1, n);
      MonthsFitInYear(y, m, m + 1);
    }
  }

  lemma {:induction false} YearsBefore(y: int, z: int)
    requires 1 <= y < z
    ensures DaysBeforeYear(y) + DaysInYear(y) <= DaysBeforeYear(z)
    decreases z - y
  {
    DaysBeforeNextYear(y);
    if y + 1 < z {
      YearsBefore(y + 1, z);
    }
  }

  lemma DayFitsInYear(d: Date)
    requires IsValid(d)
    ensures DaysBeforeMonth(d.year, d.month) + d.day <= DaysInYear(d.year)
  {
    YearLength(d.year);
    if d.month < 12 {
      MonthsFitInYear(d.year, d.month, 12);
    }
  }

  /** Day numbers start at 1 on January 1 of year 1. */
  lemma OrdinalFirstDay()
    ensures Ordinal(Date(MinYear, 1, 1)) == 1
  {
  }

  /** Day numbers follow calendar order. */
  lemma OrdinalMonotone(a: Date, b: Date)
    requires IsValid(a) && IsValid(b) && Before(a, b)
    ensures Ordinal(a) < Ordinal(b)
  {
    if a.year < b.year {
      DayFitsInYear(a);
      YearsBefore(a.year, b.year);
    } else if a.month < b.month {
      MonthsFitInYear(a.year, a.month, b.month);
    }
  }

  /** Different valid dates have different day numbers. */
  lemma OrdinalInjective(a: Date, b: Date)
    requires IsValid(a) && IsValid(b) && Ordinal(a) == Ordinal(b)
    ensures a == b
  {
    if Before(a, b) {
      OrdinalMonotone(a, b);
    } else if Before(b, a) {
      OrdinalMonotone(b, a);
    }
  }

  /** The next day has the next day number. */
  lemma OrdinalNextDay(d: Date)
    requires IsValid(d) && d != Date(MaxYear, 12, 31)
    ensures Ordinal(NextDay(d)) == Ordinal(d) + 1
  {
    if d.day == DaysInMonth(d.year, d.month) && d.month == 12 {
      YearLength(d.year);
      DaysBeforeNextYear(d.year);
    }
  }

  /** The difference is zero exactly for equal dates. */
  lemma DifferenceZero(a: Date, b: Date)
    requires IsValid(a) && IsValid(b)
    ensures Difference(a, b) == 0 <==> a == b
  {
    if Difference(a, b) == 0 {
      OrdinalInjective(a, b);
    }
  }

  /** Swapping the dates negates the difference. */
  lemma DifferenceAntisymmetric(a: Date, b: Date)
    requires IsValid(a) && IsValid(b)
    ensures Difference(a, b) == -Difference(b, a)
  {
  }

  /** The difference is negative exactly when the first date is earlier. */
  lemma DifferenceNegative(a: Date, b: Date)
    requires IsValid(a) && IsValid(b)
    ensures Difference(a, b) < 0 <==> Before(a, b)
  {
    if Before(a, b) {
      OrdinalMonotone(a, b);
    } else if Before(b, a) {
      OrdinalMonotone(b, a);
    }
  }

  /** Moving the first date one day later adds one to the difference. */
  lemma DifferenceNextDay(a: Date, b: Date)
    requires IsValid(a) && IsValid(b) && a != Date(MaxYear, 12, 31)
    ensures Difference(NextDay(a), b) == Difference(a, b) + 1
  {
    OrdinalNextDay(a);
  }

  /** January 1, 2020 is 31 days after December 1, 2019. */
  lemma DifferenceExample()
    ensures IsValid(Date(2020, 1, 1)) && IsValid(Date(2019, 12, 1))
    ensures Difference(Date(2020, 1, 1), Date(2019, 12, 1)) == 31
  {
    DaysBeforeNextYear(2019);
    YearLength(2019);
  }
}
