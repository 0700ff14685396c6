/** The reporting helpers of villas/views.py: `validate_month_year`, and the
    choice of the date window and of daily or monthly grouping in
    `AnalyticsSummaryView.get`. Dates of the window are day numbers (Python's
    `date.toordinal`); `today` and the current year come in as parameters. */
module Reporting {
  import opened Requests
  import opened Calendar
  import opened Text

  datatype Result<T> = Ok(value: T) | Err(message: string)

  const MonthYearNotIntegers := "month and year must be integers"
  const MonthOutOfRange := "month must be between 1 and 12"
  const YearPrefix := "year must be between 1900 and "

  /** The earliest year a report may ask for. */
  const FirstYear := 1900

  /** `validate_month_year(month, year)`: `month` and `year` are the results
      of `int(...)`, `None` when the conversion raises. The tests run in
      order and the first failure's message is returned. */
  function ValidateMonthYear(month: Option<int>, year: Option<int>, currentYear: nat): (r: Result<(int, int)>)
    ensures r.Ok? <==>
      month.Some? && year.Some? && 1 <= month.value <= 12 && FirstYear <= year.value <= currentYear
    ensures r.Ok? ==> r.value == (month.value, year.value)
  {
    if month.None? || year.None? then Err(MonthYearNotIntegers)
    else if month.value < 1 || month.value > 12 then Err(MonthOutOfRange)
    else if year.value < FirstYear || year.value > currentYear then Err(YearPrefix + NatToString(currentYear))
    else Ok((month.value, year.value))
  }

  /** Which message a refusal carries: a failed conversion first, then the
      month, then the year; the year message ends with the current year
      written in decimal, which reads back as that year. */
  lemma MonthYearErrors(month: Option<int>, year: Option<int>, currentYear: nat)
    ensures month.None? || year.None? ==> ValidateMonthYear(month, year, currentYear) == Err(MonthYearNotIntegers)
    ensures month.Some? && year.Some? && !(1 <= month.value <= 12) ==>
      ValidateMonthYear(month, year, currentYear) == Err(MonthOutOfRange)
    ensures month.Some? && year.Some? && 1 <= month.value <= 12 && !(FirstYear <= year.value <= currentYear) ==>
      var m := ValidateMonthYear(month, year, currentYear).message;
      && m[..|YearPrefix|] == YearPrefix
      && IsDigits(m[|YearPrefix|..])
      && DecimalValue(m[|YearPrefix|..]) == currentYear
  {
    if month.Some? && year.Some? && 1 <= month.value <= 12 && !(FirstYear <= year.value <= currentYear) {
      var m := ValidateMonthYear(month, year, currentYear).message;
      assert m[|YearPrefix|..] == NatToString(currentYear);
      NatToStringRoundTrip(currentYear);
    }
  }

  // ---------------------------------------------------------------------
  // The window of `AnalyticsSummaryView`.

  /** A `start` or `end` query parameter: missing (or empty), or given, with
      the result of `date.fromisoformat`, `None` when it raises. */
  datatype Bound = Absent | Given(parsed: Option<Date>)

  /** `fromisoformat` only returns real calendar dates. */
  predicate Parsed(b: Bound) {
    b.Given? && b.parsed.Some? ==> ValidDate(b.parsed.value)
  }

  /** The window and its grouping, or the exceptions the view lets escape
      (a 500): an unparsable explicit date, or a start before 1 January of
      year 1 (`OverflowError` from the date subtraction). */
  datatype Window = Window(start: int, end: int, monthly: bool) | BadDate | Overflow

  /** The days a `range` value looks back; `None` for `month`, which starts
      the window on the first of the current month. Unknown values mean 7. */
  function LookBack(range: string): (n: Option<nat>)
    ensures n.None? <==> range == "month"
  {
    if range == "7d" then Some(7)
    else if range == "30d" then Some(30)
    else if range == "90d" then Some(90)
    else if range == "month" then None
    else if range == "6m" then Some(180)
    else if range == "1y" || range == "year" then Some(365)
    else if IsDigits(range) then Some(DecimalValue(range))
    else Some(7)
  }

  /** Spans longer than sixty days are grouped by month, others by day. */
  predicate Monthly(start: int, end: int) {
    end - start > 60
  }

  /** `range_type = request.GET.get("range", "7d")`. */
  function RangeType(range: Option<string>): string {
    if range.None? then "7d" else range.value
  }

  /** The window of `AnalyticsSummaryView.get`: both `start` and `end` given
      override `range`; otherwise the window ends today and starts the
      number of days `range` names before it, or on the first of the month. */
  function SelectWindow(startParam: Bound, endParam: Bound, range: Option<string>, today: Date): (w: Window)
    requires ValidDate(today)
    requires Parsed(startParam) && Parsed(endParam)
    ensures w.Overflow? ==> !(startParam.Given? && endParam.Given?) && LookBack(RangeType(range)).Some?
    ensures startParam.Given? && endParam.Given? ==>
      (w.Window? <==> startParam.parsed.Some? && endParam.parsed.Some?)
    ensures startParam.Given? && endParam.Given? && w.Window? ==>
      w.start == Ordinal(startParam.parsed.value) && w.end == Ordinal(endParam.parsed.value)
  {
    if startParam.Given? && endParam.Given? then
      if startParam.parsed.None? || endParam.parsed.None? then BadDate
      else
        var s, e := Ordinal(startParam.parsed.value), Ordinal(endParam.parsed.value);
        Window(s, e, Monthly(s, e))
    else
      var t := Ordinal(today);
      match LookBack(RangeType(range))
      case None =>
        var s := Ordinal(FirstOfMonth(today.year, today.month));
        Window(s, t, Monthly(s, t))
      case Some(n) =>
        if t - n < 1 then Overflow else Window(t - n, t, Monthly(t - n, t))
  }

  /** Every window ends no earlier than it starts, except an explicit one,
      which is taken as given; grouping is monthly exactly when the span
      exceeds sixty days. */
  lemma WindowShape(startParam: Bound, endParam: Bound, range: Option<string>, today: Date)
    requires ValidDate(today)
    requires Parsed(startParam) && Parsed(endParam)
    ensures var w := SelectWindow(startParam, endParam, range, today);
      && (w.Window? ==> (w.monthly <==> w.end - w.start > 60))
      && (w.Window? && !(startParam.Given? && endParam.Given?) ==> w.start <= w.end == Ordinal(today))
      && (w.BadDate? <==> startParam.Given? && endParam.Given? &&
                          (startParam.parsed.None? || endParam.parsed.None?))
  {
    var w := SelectWindow(startParam, endParam, range, today);
    if w.Window? && !(startParam.Given? && endParam.Given?) && RangeType(range) == "month" {
      assert FirstOfMonth(today.year, today.month) == Date(today.year, today.month, 1);
    }
  }

  /** The `month` window runs from the first of the month to today, so it
      spans at most thirty days and is always grouped by day. */
  lemma MonthWindowIsDaily(startParam: Bound, endParam: Bound, today: Date)
    requires ValidDate(today)
    requires Parsed(startParam) && Parsed(endParam)
    requires !(startParam.Given? && endParam.Given?)
    ensures SelectWindow(startParam, endParam, Some("month"), today) ==
      Window(Ordinal(today) - (today.day - 1), Ordinal(today), false)
  {
    assert LookBack("month").None?;
    assert Ordinal(FirstOfMonth(today.year, today.month)) == Ordinal(today) - (today.day - 1);
  }

  /** A range of digits looks back that many days: writing `n` in decimal
      and passing it as `range` gives a window of exactly `n` days. */
  lemma DigitsLookBack(n: nat)
    ensures LookBack(NatToString(n)) == Some(n)
  {
    var s := NatToString(n);
    NatToStringRoundTrip(n);
    assert IsDigit(s[0]);
    assert s != "7d" && s != "30d" && s != "90d" && s != "month" && s != "6m" && s != "1y" && s != "year" by {
      if |s| >= 2 { assert IsDigit(s[1]); }
      if |s| >= 3 { assert IsDigit(s[2]); }
    }
  }

  /** Without `range`, or with a value that is neither a keyword nor digits,
      the window is the last seven days. */
  lemma DefaultIsSevenDays(range: Option<string>)
    requires range.Some? ==> range.value !in ["7d", "30d", "90d", "month", "6m", "1y", "year"] && !IsDigits(range.value)
    ensures LookBack(RangeType(range)) == Some(7)
  {
  }
}
