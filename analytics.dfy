/** The daily analytics store of villas/utils.py: one row of four counters per
    (property, date), created on first use and then incremented in place. */
module Analytics {
  import opened Requests
  import opened Calendar

  type PropertyId = nat

  datatype Counters = Counters(views: nat, inquiries: nat, bookings: nat, downloads: nat)

  /** A fresh row: every counter starts at zero. */
  const NoCounts := Counters(0, 0, 0, 0)

  datatype Counter = Views | Inquiries | Bookings | Downloads

  datatype Key = Key(property: PropertyId, date: Date)

  /** The counter a field name selects; other names select none. */
  function CounterNamed(field: string): (k: Option<Counter>)
    ensures k == Some(Views) <==> field == "views"
    ensures k == Some(Inquiries) <==> field == "inquiries"
    ensures k == Some(Bookings) <==> field == "bookings"
    ensures k == Some(Downloads) <==> field == "downloads"
  {
    if field == "views" then Some(Views)
    else if field == "inquiries" then Some(Inquiries)
    else if field == "bookings" then Some(Bookings)
    else if field == "downloads" then Some(Downloads)
    else None
  }

  function Get(c: Counters, k: Counter): nat {
    match k
    case Views => c.views
    case Inquiries => c.inquiries
    case Bookings => c.bookings
    case Downloads => c.downloads
  }

  /** The row after `analytics.<field> += 1`: the named counter rises by one,
      the other three keep their values, and an unknown name changes none. */
  function Increment(c: Counters, field: string): (r: Counters)
    ensures forall k :: Get(r, k) == Get(c, k) + (if CounterNamed(field) == Some(k) then 1 else 0)
  {
    if field == "views" then c.(views := c.views + 1)
    else if field == "inquiries" then c.(inquiries := c.inquiries + 1)
    else if field == "bookings" then c.(bookings := c.bookings + 1)
    else if field == "downloads" then c.(downloads := c.downloads + 1)
    else c
  }

  /** `get_or_create`: the stored row, or a fresh one. */
  function RowOf(records: map<Key, Counters>, key: Key): Counters {
    if key in records then records[key] else NoCounts
  }

  /** The store after `update_daily_analytics(property, field)` on `today`. */
  function Recorded(records: map<Key, Counters>, property: PropertyId, field: string, today: Date): (r: map<Key, Counters>)
    ensures r.Keys == records.Keys + {Key(property, today)}
    ensures NeverDecreased(records, r)
  {
    var key := Key(property, today);
    records[key := Increment(RowOf(records, key), field)]
  }

  /** Each counter of `after` is at least its value in `before`, row by row. */
  predicate NeverDecreased(before: map<Key, Counters>, after: map<Key, Counters>) {
    before.Keys <= after.Keys &&
    forall key, k :: key in before ==> Get(before[key], k) <= Get(after[key], k)
  }

  class DailyAnalyticsStore {
    var records: map<Key, Counters>

    constructor ()
      ensures records == map[]
    {
      records := map[];
    }

    /** `update_daily_analytics(property, field)`, with `timezone.now().date()`
        passed in as `today`. Returns the saved row. */
    method UpdateDailyAnalytics(property: PropertyId, field: string, today: Date) returns (row: Counters)
      modifies this
      ensures records == Recorded(old(records), property, field, today)
      ensures row == records[Key(property, today)]
    {
      var key := Key(property, today);
      var analytics: Counters;
      if key in records {
        analytics := records[key];
      } else {
        analytics := NoCounts;
        records := records[key := analytics];
      }
      if field == "views" {
        analytics := analytics.(views := analytics.views + 1);
      } else if field == "inquiries" {
        analytics := analytics.(inquiries := analytics.inquiries + 1);
      } else if field == "bookings" {
        analytics := analytics.(bookings := analytics.bookings + 1);
      } else if field == "downloads" {
        analytics := analytics.(downloads := analytics.downloads + 1);
      }
      records := records[key := analytics];
      row := analytics;
    }
  }

  /** One call increments exactly counter `field` of the (property, today) row,
      creating the row if it was absent, and leaves the other counters of that
      row and every other row as they were. */
  lemma RecordedEffect(records: map<Key, Counters>, property: PropertyId, field: string, today: Date)
    ensures var after := Recorded(records, property, field, today);
      var key := Key(property, today);
      && after.Keys == records.Keys + {key}
      && (forall k :: Get(after[key], k) == Get(RowOf(records, key), k) + (if CounterNamed(field) == Some(k) then 1 else 0))
      && (forall other :: other in records && other != key ==> after[other] == records[other])
  {
  }

  /** An unknown field name still creates and saves the row, with no count. */
  lemma UnknownFieldCountsNothing(records: map<Key, Counters>, property: PropertyId, field: string, today: Date)
    requires CounterNamed(field) == None
    ensures Recorded(records, property, field, today) == records[Key(property, today) := RowOf(records, Key(property, today))]
  {
    var c := RowOf(records, Key(property, today));
    var r := Increment(c, field);
    assert Get(r, Views) == Get(c, Views) && Get(r, Inquiries) == Get(c, Inquiries);
    assert Get(r, Bookings) == Get(c, Bookings) && Get(r, Downloads) == Get(c, Downloads);
  }

  /** A sequence of calls to `update_daily_analytics`. */
  datatype Call = Call(property: PropertyId, field: string, today: Date)

  function RecordAll(records: map<Key, Counters>, calls: seq<Call>): map<Key, Counters>
    decreases |calls|
  {
    if calls == [] then records
    else RecordAll(Recorded(records, calls[0].property, calls[0].field, calls[0].today), calls[1..])
  }

  lemma NeverDecreasedTransitive(a: map<Key, Counters>, b: map<Key, Counters>, c: map<Key, Counters>)
    requires NeverDecreased(a, b) && NeverDecreased(b, c)
    ensures NeverDecreased(a, c)
  {
    forall key, k | key in a ensures Get(a[key], k) <= Get(c[key], k) {
      assert Get(a[key], k) <= Get(b[key], k);
    }
  }

  /** Counters never go down, however many calls are made and in whatever order. */
  lemma {:induction false} CountersNeverDecrease(records: map<Key, Counters>, calls: seq<Call>)
    ensures NeverDecreased(records, RecordAll(records, calls))
    decreases |calls|
  {
    if calls != [] {
      var next := Recorded(records, calls[0].property, calls[0].field, calls[0].today);
      RecordedEffect(records, calls[0].property, calls[0].field, calls[0].today);
      assert NeverDecreased(records, next);
      CountersNeverDecrease(next, calls[1..]);
      NeverDecreasedTransitive(records, next, RecordAll(next, calls[1..]));
    }
  }
}
