/** Civil dates of the proleptic Gregorian calendar, as Python's `datetime.date`
    represents them, and the day numbers (`date.toordinal()`) that date
    arithmetic and comparisons reduce to. */
module Calendar {

  datatype Date = Date(year: int, month: int, day: int)

  const MinYear := 1
  const MaxYear := 9999

  predicate IsLeapYear(y: int) {
    y % 4 == 0 && (y % 100 != 0 || y % 400 == 0)
  }

  function DaysInYear(y: int): (n: int)
    ensures n == 365 || n == 366
  {
    if IsLeapYear(y) then 366 else 365
  }

  /** The second component of `calendar.monthrange(year, month)`. */
  function DaysInMonth(y: int, m: int): (n: int)
    requires 1 <= m <= 12
    ensures 28 <= n <= 31
    ensures n == 29 <==> m == 2 && IsLeapYear(y)
    ensures n == 28 <==> m == 2 && !IsLeapYear(y)
  {
    if m == 2 then (if IsLeapYear(y) then 29 else 28)
    else if m == 4 || m == 6 || m == 9 || m == 11 then 30
    else 31
  }

  /** Days in the months of year `y` that precede month `m`. */
  function DaysBeforeMonth(y: int, m: int): (n: nat)
    requires 1 <= m <= 13
    decreases m
  {
    if m == 1 then 0 else DaysBeforeMonth(y, m - 1) + DaysInMonth(y, m - 1)
  }

  /** Days in the years before year `y`, counting from year 1. */
  function DaysBeforeYear(y: int): int {
    var p := y - 1;
    365 * p + p / 4 - p / 100 + p / 400
  }

  predicate ValidDate(d: Date) {
    MinYear <= d.year <= MaxYear && 1 <= d.month <= 12 &&
    1 <= d.day <= DaysInMonth(d.year, d.month)
  }

  /** `date.toordinal()`: 1 January of year 1 is day 1. */
  function Ordinal(d: Date): int
    requires 1 <= d.month <= 12
  {
    DaysBeforeYear(d.year) + DaysBeforeMonth(d.year, d.month) + d.day
  }

  /** Python's `<` on dates: year, then month, then day. */
  predicate LexBefore(a: Date, b: Date) {
    a.year < b.year ||
    (a.year == b.year && (a.month < b.month || (a.month == b.month && a.day < b.day)))
  }

  function FirstOfMonth(y: int, m: int): (d: Date)
    requires MinYear <= y <= MaxYear && 1 <= m <= 12
    ensures ValidDate(d)
  {
    Date(y, m, 1)
  }

  function LastOfMonth(y: int, m: int): (d: Date)
    requires MinYear <= y <= MaxYear && 1 <= m <= 12
    ensures ValidDate(d)
  {
    Date(y, m, DaysInMonth(y, m))
  }

  lemma {:induction false} DaysBeforeMonthBounds(y: int, m: int)
    requires 1 <= m <= 12
    ensures DaysBeforeMonth(y, m) + DaysInMonth(y, m) == DaysBeforeMonth(y, m + 1)
    ensures DaysBeforeMonth(y, 13) == DaysInYear(y)
  {
    // The year total is the sum of the twelve month lengths.
    assert DaysBeforeMonth(y, 13) == DaysBeforeMonth(y, 12) + 31;
    assert DaysBeforeMonth(y, 12) == DaysBeforeMonth(y, 11) + 30;
    assert DaysBeforeMonth(y, 11) == DaysBeforeMonth(y, 10) + 31;
    assert DaysBeforeMonth(y, 10) == DaysBeforeMonth(y, 9) + 30;
    assert DaysBeforeMonth(y, 9) == DaysBeforeMonth(y, 8) + 31;
    assert DaysBeforeMonth(y, 8) == DaysBeforeMonth(y, 7) + 31;
    assert DaysBeforeMonth(y, 7) == DaysBeforeMonth(y, 6) + 30;
    assert DaysBeforeMonth(y, 6) == DaysBeforeMonth(y, 5) + 31;
    assert DaysBeforeMonth(y, 5) == DaysBeforeMonth(y, 4) + 30;
    assert DaysBeforeMonth(y, 4) == DaysBeforeMonth(y, 3) + 31;
    assert DaysBeforeMonth(y, 3) == DaysBeforeMonth(y, 2) + DaysInMonth(y, 2);
  }

  /** Stepping a numerator by one raises the quotient exactly when the new
      numerator is a multiple of the divisor. */
  lemma DivStep(p: int, k: int)
    requires k > 0
    ensures (p + 1) / k == p / k + (if (p + 1) % k == 0 then 1 else 0)
  {
    var q, r := p / k, p % k;
    assert p == q * k + r && 0 <= r < k;
    if r == k - 1 {
      assert p + 1 == (q + 1) * k;
      DivUnique(p + 1, k, q + 1, 0);
    } else {
      assert p + 1 == q * k + (r + 1);
      DivUnique(p + 1, k, q, r + 1);
    }
  }

  lemma DivUnique(a: int, k: int, q: int, r: int)
    requires k > 0 && 0 <= r < k && a == q * k + r
    ensures a / k == q && a % k == r
  {
    var q', r' := a / k, a % k;
    assert a == q' * k + r' && 0 <= r' < k;
    if q < q' {
      MulStep(q, q', k);
    } else if q' < q {
      MulStep(q', q, k);
    }
  }

  lemma MulStep(q: int, q': int, k: int)
    requires k > 0 && q < q'
    ensures q * k + k <= q' * k
  {
    var d := q' - q - 1;
    assert q' * k == q * k + k + d * k;
  }

  /** Consecutive years are exactly one year length apart. */
  lemma DaysBeforeNextYear(y: int)
    ensures DaysBeforeYear(y + 1) == DaysBeforeYear(y) + DaysInYear(y)
  {
    var p := y - 1;
    DivStep(p, 4);
    DivStep(p, 100);
    DivStep(p, 400);
  }

  /** A valid date's day number lies inside its year's block of day numbers. */
  lemma OrdinalWithinYear(d: Date)
    requires ValidDate(d)
    ensures DaysBeforeYear(d.year) < Ordinal(d) <= DaysBeforeYear(d.year) + DaysInYear(d.year)
  {
    DaysBeforeMonthMonotone(d.year, d.month + 1, 13);
    DaysBeforeMonthBounds(d.year, d.month);
  }

  lemma {:induction false} DaysBeforeMonthMonotone(y: int, m: int, n: int)
    requires 1 <= m <= n <= 13
    ensures DaysBeforeMonth(y, m) <= DaysBeforeMonth(y, n)
    decreases n - m
  {
    if m < n {
      DaysBeforeMonthMonotone(y, m, n - 1);
    }
  }

  lemma {:induction false} DaysBeforeYearMonotone(y: int, z: int)
    requires y <= z
    ensures DaysBeforeYear(y) + (z - y) * 365 <= DaysBeforeYear(z)
    decreases z - y
  {
    if y < z {
      DaysBeforeYearMonotone(y, z - 1);
      DaysBeforeNextYear(z - 1);
    }
  }

  /** A date earlier in Python's year-month-day order has a smaller day number. */
  lemma OrdinalIncreasing(a: Date, b: Date)
    requires ValidDate(a) && ValidDate(b) && LexBefore(a, b)
    ensures Ordinal(a) < Ordinal(b)
  {
    if a.year < b.year {
      OrdinalWithinYear(a);
      OrdinalWithinYear(b);
      DaysBeforeYearMonotone(a.year + 1, b.year);
      DaysBeforeNextYear(a.year);
    } else if a.month < b.month {
      DaysBeforeMonthBounds(a.year, a.month);
      DaysBeforeMonthMonotone(a.year, a.month + 1, b.month);
    }
  }

  /** Comparing day numbers is comparing dates: for valid dates the ordinal
      order is Python's year-month-day order, so `<=`, `max` and `min` on
      dates may be computed on ordinals. */
  lemma OrdinalOrder(a: Date, b: Date)
    requires ValidDate(a) && ValidDate(b)
    ensures Ordinal(a) < Ordinal(b) <==> LexBefore(a, b)
    ensures Ordinal(a) == Ordinal(b) <==> a == b
  {
    if LexBefore(a, b) {
      OrdinalIncreasing(a, b);
    } else if LexBefore(b, a) {
      OrdinalIncreasing(b, a);
    }
  }

  /** The first and last day of a month bracket every day of that month. */
  lemma MonthBoundsOrdered(y: int, m: int)
    requires MinYear <= y <= MaxYear && 1 <= m <= 12
    ensures Ordinal(FirstOfMonth(y, m)) + DaysInMonth(y, m) - 1 == Ordinal(LastOfMonth(y, m))
  {
  }
}
