/** `get_property_availability` of villas/views.py: the approved bookings of a
    property that touch a given month, each clipped to that month. */
module Availability {
  import opened Requests
  import opened Calendar
  import opened Bookings

  /** A `month` or `year` query parameter: absent (the current month or year
      is used), or given, with the result of `int(...)`, `None` when it
      raises. */
  datatype IntParam = Absent | Given(parsed: Option<int>)

  /** One entry of the answer: the booked days of a stay inside the month. */
  datatype Span = Span(start: Date, end: Date)

  /** 404 for an unknown property, 400 for a parameter that is not an
      integer, and the `ValueError` that `date(year, month, 1)` raises for a
      month outside 1..12 or a year outside 1..9999, which the view does not
      catch (a 500). */
  datatype Reply = Booked(spans: seq<Span>) | PropertyNotFound | InvalidParameter | NoSuchMonth

  function ValueOr(p: IntParam, default: int): Option<int> {
    if p.Absent? then Some(default) else p.parsed
  }

  /** The stay touches the month: `check_in <= end_of_month` and
      `check_out >= start_of_month`, both bounds inclusive. */
  predicate Touches(b: Booking, first: Date, last: Date)
    requires WellFormed(b) && ValidDate(first) && ValidDate(last)
  {
    Ordinal(b.checkIn) <= Ordinal(last) && Ordinal(b.checkOut) >= Ordinal(first)
  }

  /** The rows the queryset selects. */
  predicate Selected(property: PropertyId, first: Date, last: Date, b: Booking)
    requires ValidDate(first) && ValidDate(last)
  {
    b.property == property && b.status == Approved && WellFormed(b) && Touches(b, first, last)
  }

  /** `max(check_in, start_of_month)` and `min(check_out, end_of_month)`. */
  function Clip(b: Booking, first: Date, last: Date): (s: Span)
    requires WellFormed(b) && ValidDate(first) && ValidDate(last)
    ensures ValidDate(s.start) && ValidDate(s.end)
  {
    Span(if Ordinal(b.checkIn) >= Ordinal(first) then b.checkIn else first,
         if Ordinal(b.checkOut) <= Ordinal(last) then b.checkOut else last)
  }

  /** The answer for month `first..last`: one clipped span per selected
      booking, in table order. */
  function Spans(rows: seq<Booking>, property: PropertyId, first: Date, last: Date): (r: seq<Span>)
    requires AllWellFormed(rows) && ValidDate(first) && ValidDate(last)
    ensures forall i :: 0 <= i < |r| ==> ValidDate(r[i].start) && ValidDate(r[i].end)
    decreases |rows|
  {
    if rows == [] then []
    else
      var front, b := rows[..|rows| - 1], rows[|rows| - 1];
      Spans(front, property, first, last) + (if Selected(property, first, last, b) then [Clip(b, first, last)] else [])
  }

  /** The view. `properties` holds the primary keys of the stored properties;
      `today` stands for `datetime.now()`. */
  method PropertyAvailability(properties: set<PropertyId>, rows: seq<Booking>, property: PropertyId,
                              month: IntParam, year: IntParam, today: Date) returns (reply: Reply)
    requires AllWellFormed(rows)
    ensures property !in properties ==> reply == PropertyNotFound
    ensures property in properties && (ValueOr(month, today.month).None? || ValueOr(year, today.year).None?) ==>
      reply == InvalidParameter
    ensures property in properties && ValueOr(month, today.month).Some? && ValueOr(year, today.year).Some? ==>
      var m, y := ValueOr(month, today.month).value, ValueOr(year, today.year).value;
      if !(1 <= m <= 12 && MinYear <= y <= MaxYear) then reply == NoSuchMonth
      else reply == Booked(Spans(rows, property, FirstOfMonth(y, m), LastOfMonth(y, m)))
  {
    if property !in properties {
      return PropertyNotFound;
    }
    var m := ValueOr(month, today.month);
    var y := ValueOr(year, today.year);
    if m.None? || y.None? {
      return InvalidParameter;
    }
    if !(1 <= m.value <= 12 && MinYear <= y.value <= MaxYear) {
      return NoSuchMonth;
    }
    var first := FirstOfMonth(y.value, m.value);
    var last := LastOfMonth(y.value, m.value);
    var booked: seq<Span> := [];
    var i := 0;
    while i < |rows|
      invariant 0 <= i <= |rows|
      invariant booked == Spans(rows[..i], property, first, last)
    {
      assert rows[..i + 1][..i] == rows[..i];
      if rows[i].property == property && rows[i].status == Approved && Touches(rows[i], first, last) {
        booked := booked + [Clip(rows[i], first, last)];
      }
      i := i + 1;
    }
    assert rows[..|rows|] == rows;
    reply := Booked(booked);
  }

  /** The answer holds an entry for exactly the approved bookings of the
      property whose stay touches the month, each clipped to it: every entry
      is the clip of such a booking, and every such booking has its entry. */
  lemma {:induction false} SpansAreClippedSelection(rows: seq<Booking>, property: PropertyId, first: Date, last: Date)
    requires AllWellFormed(rows) && ValidDate(first) && ValidDate(last)
    ensures forall s :: s in Spans(rows, property, first, last) ==>
      exists b :: b in rows && Selected(property, first, last, b) && s == Clip(b, first, last)
    ensures forall b ::
      (b in rows && b.property == property && b.status == Approved &&
       Ordinal(b.checkIn) <= Ordinal(last) && Ordinal(b.checkOut) >= Ordinal(first)) ==>
      Clip(b, first, last) in Spans(rows, property, first, last)
    decreases |rows|
  {
    if rows != [] {
      var front := rows[..|rows| - 1];
      SpansAreClippedSelection(front, property, first, last);
      assert rows == front + [rows[|rows| - 1]];
    }
  }

  /** A stay that does not end before it starts is clipped into the month:
      `start_of_month <= start <= end <= end_of_month`. */
  lemma ClippedWithinMonth(b: Booking, first: Date, last: Date)
    requires WellFormed(b) && ValidDate(first) && ValidDate(last)
    requires Ordinal(first) <= Ordinal(last)
    requires Touches(b, first, last) && Ordinal(b.checkIn) <= Ordinal(b.checkOut)
    ensures var s := Clip(b, first, last);
      Ordinal(first) <= Ordinal(s.start) <= Ordinal(s.end) <= Ordinal(last)
  {
  }

  /** Every entry of a month's answer lies within that month, for stays that
      do not end before they start; the month runs from its first to its
      last day. */
  lemma AnswerWithinMonth(rows: seq<Booking>, property: PropertyId, y: int, m: int, k: nat)
    requires AllWellFormed(rows) && MinYear <= y <= MaxYear && 1 <= m <= 12
    requires forall i :: 0 <= i < |rows| ==> Ordinal(rows[i].checkIn) <= Ordinal(rows[i].checkOut)
    requires k < |Spans(rows, property, FirstOfMonth(y, m), LastOfMonth(y, m))|
    ensures var s := Spans(rows, property, FirstOfMonth(y, m), LastOfMonth(y, m))[k];
      && Ordinal(FirstOfMonth(y, m)) <= Ordinal(s.start) <= Ordinal(s.end) <= Ordinal(LastOfMonth(y, m))
      && s.start.year == s.end.year == y && s.start.month == s.end.month == m
  {
    var first, last := FirstOfMonth(y, m), LastOfMonth(y, m);
    var spans := Spans(rows, property, first, last);
    SpansAreClippedSelection(rows, property, first, last);
    assert spans[k] in spans;
    var b :| b in rows && Selected(property, first, last, b) && spans[k] == Clip(b, first, last);
    MonthBoundsOrdered(y, m);
    ClippedWithinMonth(b, first, last);
    var s := Clip(b, first, last);
    SameMonth(first, last, s.start);
    SameMonth(first, last, s.end);
  }

  /** A valid date between the first and the last day of a month, by day
      number, is in that month. */
  lemma SameMonth(first: Date, last: Date, d: Date)
    requires ValidDate(first) && ValidDate(last) && ValidDate(d)
    requires first.year == last.year && first.month == last.month && first.day == 1
    requires last.day == DaysInMonth(last.year, last.month)
    requires Ordinal(first) <= Ordinal(d) <= Ordinal(last)
    ensures d.year == first.year && d.month == first.month
  {
    OrdinalOrder(first, d);
    OrdinalOrder(d, last);
  }
}
