/** Bookings of villas/views.py (`BookingViewSet`): creation in `pending`, the
    status update with its guarded move into `approved`, who sees which
    bookings, and the `?search=` filter. */
module Bookings {
  import opened Requests
  import opened Calendar
  import opened Text
  import Queries
  import AccountPermissions
  import Analytics

  type PropertyId = nat

  datatype Status = Pending | Approved | Rejected | Cancelled | Completed

  /** The value stored in `Booking.status` and sent in requests. */
  function StatusName(s: Status): string {
    match s
    case Pending => "pending"
    case Approved => "approved"
    case Rejected => "rejected"
    case Cancelled => "cancelled"
    case Completed => "completed"
  }

  /** The status a request string names, if it names one of the five. */
  function StatusNamed(name: string): (s: Option<Status>)
    ensures s.Some? ==> StatusName(s.value) == name
    ensures s.None? ==> forall t :: StatusName(t) != name
  {
    if name == "pending" then Some(Pending)
    else if name == "approved" then Some(Approved)
    else if name == "rejected" then Some(Rejected)
    else if name == "cancelled" then Some(Cancelled)
    else if name == "completed" then Some(Completed)
    else None
  }

  datatype Booking = Booking(
    property: PropertyId,
    owner: Option<UserId>,
    fullName: string,
    email: string,
    phone: string,
    checkIn: Date,
    checkOut: Date,
    status: Status)

  /** Dates read back from the database are real calendar dates. */
  predicate WellFormed(b: Booking) {
    ValidDate(b.checkIn) && ValidDate(b.checkOut)
  }

  predicate AllWellFormed(rows: seq<Booking>) {
    forall i :: 0 <= i < |rows| ==> WellFormed(rows[i])
  }

  /** `validate_date_range(property, check_in, check_out)` is not part of this
      model: the update consults it as a function of the stored bookings and
      the booking's property and dates, truthy meaning "refuse". */
  type ConflictCheck = (seq<Booking>, PropertyId, Date, Date) -> bool

  datatype UpdateError = StatusRequired | DateConflict | InvalidStatus

  /** What `update` answers: 200 with the booking, 400 with an error, a refusal
      by the permission gate, or 404 from `get_object`. */
  datatype Reply = Ok(booking: Booking) | BadRequest(error: UpdateError) | Denied | NotFound

  /** The effect of one status request on one booking: the reply, the booking
      as saved (or left), and whether the `bookings` counter was bumped. */
  datatype Step = Step(reply: Reply, booking: Booking, counted: bool)

  /** The branches of `BookingViewSet.update` once the booking is loaded.
      `request` is `request.data.get('status')`; `conflict` is the value of
      `validate_date_range` for this booking. */
  function Transition(b: Booking, request: Option<string>, conflict: bool): (s: Step)
    ensures s.reply.Ok? ==> request.Some? && StatusNamed(request.value) == Some(s.booking.status)
    ensures s.reply.Ok? && s.booking.status == Approved && b.status != Approved ==> !conflict
  {
    if request.None? || request.value == "" then
      Step(BadRequest(StatusRequired), b, false)
    else if request.value == StatusName(b.status) then
      Step(Ok(b), b, false)
    else if request.value == "approved" then
      if conflict then Step(BadRequest(DateConflict), b, false)
      else Step(Ok(b.(status := Approved)), b.(status := Approved), true)
    else if request.value in ["cancelled", "rejected", "completed", "pending"] then
      var b' := b.(status := StatusNamed(request.value).value);
      Step(Ok(b'), b', false)
    else
      Step(BadRequest(InvalidStatus), b, false)
  }

  /** Three requests leave the booking as it was and count nothing: a missing
      status (400), an unknown status (400) and the current status (200). */
  lemma UnchangedCases(b: Booking, request: Option<string>, conflict: bool)
    ensures request.None? || request == Some("") ==>
      Transition(b, request, conflict) == Step(BadRequest(StatusRequired), b, false)
    ensures request.Some? && request.value != "" && StatusNamed(request.value).None? ==>
      Transition(b, request, conflict) == Step(BadRequest(InvalidStatus), b, false)
    ensures request == Some(StatusName(b.status)) ==>
      Transition(b, request, conflict) == Step(Ok(b), b, false)
  {
  }

  /** Moving into `approved` succeeds exactly when no conflict is reported. On
      success the status becomes `approved` and the counter is bumped; on
      failure nothing changes. The booking was not approved when checked. */
  lemma ApprovalDecision(b: Booking, conflict: bool)
    requires b.status != Approved
    ensures var s := Transition(b, Some("approved"), conflict);
      && (s.reply.Ok? <==> !conflict)
      && (s.reply.Ok? ==> s.booking == b.(status := Approved) && s.counted)
      && (!s.reply.Ok? ==> s.reply == BadRequest(DateConflict) && s.booking == b && !s.counted)
  {
  }

  /** Requests for `cancelled`, `rejected`, `completed` or `pending` are
      assigned straight from any other status, `approved` included, with no
      conflict check and no count. */
  lemma DirectAssignment(b: Booking, target: Status, conflict: bool)
    requires target != Approved && target != b.status
    ensures Transition(b, Some(StatusName(target)), conflict) ==
      Step(Ok(b.(status := target)), b.(status := target), false)
  {
  }

  /** Only the status ever changes, and the counter is bumped exactly when the
      booking enters `approved` from another status. */
  lemma TransitionFrame(b: Booking, request: Option<string>, conflict: bool)
    ensures var s := Transition(b, request, conflict);
      && s.booking == b.(status := s.booking.status)
      && (s.counted <==> b.status != Approved && s.booking.status == Approved)
      && (s.reply.Ok? <==> s.reply == Ok(s.booking))
      && (!s.reply.Ok? ==> s.booking == b)
  {
  }

  /** The validated fields of a booking request (`BookingSerializer` is not
      part of this model). */
  datatype NewBooking = NewBooking(
    property: PropertyId, fullName: string, email: string, phone: string,
    checkIn: Date, checkOut: Date)

  datatype CreateReply = Created(id: nat) | Invalid | CreateDenied

  class BookingTable {
    /** The bookings, a booking's id being its position. */
    var rows: seq<Booking>

    ghost predicate Valid()
      reads this
    {
      AllWellFormed(rows)
    }

    constructor ()
      ensures Valid() && rows == []
    {
      rows := [];
    }

    /** `create` / `perform_create`: a signed-in requester's validated booking
        is stored as theirs, in `pending`, whatever status the request named. */
    method Create(u: Requester, data: Option<NewBooking>) returns (reply: CreateReply)
      requires Valid()
      requires data.Some? ==> ValidDate(data.value.checkIn) && ValidDate(data.value.checkOut)
      modifies this
      ensures Valid()
      ensures !u.IsAuthenticated() ==> reply == CreateDenied && rows == old(rows)
      ensures u.IsAuthenticated() && data.None? ==> reply == Invalid && rows == old(rows)
      ensures u.IsAuthenticated() && data.Some? ==>
        var d := data.value;
        && reply == Created(|old(rows)|)
        && rows == old(rows) + [Booking(d.property, Some(u.id), d.fullName, d.email, d.phone, d.checkIn, d.checkOut, Pending)]
    {
      if !u.IsAuthenticated() {
        return CreateDenied;
      }
      if data.None? {
        return Invalid;
      }
      var d := data.value;
      reply := Created(|rows|);
      rows := rows + [Booking(d.property, Some(u.id), d.fullName, d.email, d.phone, d.checkIn, d.checkOut, Pending)];
    }

    /** `BookingViewSet.update`: only admins and managers pass the permission
        gate; `get_object` looks the id up in the searched queryset, so an
        unknown id, or a booking the request's `?search=` leaves out, is 404;
        then the status request is applied and, on approval, the property's
        `bookings` counter for `today` is incremented. */
    method Update(u: Requester, id: nat, search: Option<string>, searchDate: Option<Date>,
                  request: Option<string>, analytics: Analytics.DailyAnalyticsStore,
                  today: Date, validateDateRange: ConflictCheck) returns (reply: Reply)
      requires Valid()
      modifies this, analytics
      ensures Valid()
      ensures !AccountPermissions.IsAdminOrManager(u) ==>
        reply == Denied && rows == old(rows) && analytics.records == old(analytics.records)
      ensures AccountPermissions.IsAdminOrManager(u) && !Found(old(rows), id, search, searchDate) ==>
        reply == NotFound && rows == old(rows) && analytics.records == old(analytics.records)
      ensures AccountPermissions.IsAdminOrManager(u) && Found(old(rows), id, search, searchDate) ==>
        var b := old(rows)[id];
        var s := Transition(b, request, validateDateRange(old(rows), b.property, b.checkIn, b.checkOut));
        && reply == s.reply
        && rows == old(rows)[id := s.booking]
        && analytics.records == (if s.counted then Analytics.Recorded(old(analytics.records), b.property, "bookings", today)
                                 else old(analytics.records))
    {
      if !AccountPermissions.IsAdminOrManager(u) {
        return Denied;
      }
      if id >= |rows| {
        return NotFound;
      }
      var booking := rows[id];
      if search.Some? && search.value != "" && !MatchesSearch(booking, search.value, searchDate) {
        return NotFound;
      }
      if request.None? || request.value == "" {
        return BadRequest(StatusRequired);
      }
      var newStatus := request.value;
      if newStatus != StatusName(booking.status) {
        if newStatus == "approved" {
          if validateDateRange(rows, booking.property, booking.checkIn, booking.checkOut) {
            return BadRequest(DateConflict);
          }
          booking := booking.(status := Approved);
          var _ := analytics.UpdateDailyAnalytics(booking.property, "bookings", today);
        } else if newStatus in ["cancelled", "rejected", "completed", "pending"] {
          booking := booking.(status := StatusNamed(newStatus).value);
        } else {
          return BadRequest(InvalidStatus);
        }
        rows := rows[id := booking];
      }
      reply := Ok(booking);
    }
  }

  // ---------------------------------------------------------------------
  // No double booking, for a concrete `validate_date_range`.

  /** Half-open stays `[in, out)` share a night. */
  predicate Overlaps(aIn: Date, aOut: Date, bIn: Date, bOut: Date)
    requires ValidDate(aIn) && ValidDate(aOut) && ValidDate(bIn) && ValidDate(bOut)
  {
    Ordinal(aIn) < Ordinal(bOut) && Ordinal(bIn) < Ordinal(aOut)
  }

  /** An assumed `validate_date_range`: refuse when an approved booking of the
      same property overlaps the stay. */
  predicate ApprovedOverlap(rows: seq<Booking>, property: PropertyId, checkIn: Date, checkOut: Date)
    requires AllWellFormed(rows) && ValidDate(checkIn) && ValidDate(checkOut)
  {
    exists j :: 0 <= j < |rows| && rows[j].status == Approved && rows[j].property == property &&
      Overlaps(rows[j].checkIn, rows[j].checkOut, checkIn, checkOut)
  }

  /** No two approved bookings of one property overlap. */
  predicate NoDoubleBooking(rows: seq<Booking>)
    requires AllWellFormed(rows)
  {
    forall i, j ::
      (0 <= i < |rows| && 0 <= j < |rows| && i != j &&
       rows[i].status == Approved && rows[j].status == Approved && rows[i].property == rows[j].property) ==>
      !Overlaps(rows[i].checkIn, rows[i].checkOut, rows[j].checkIn, rows[j].checkOut)
  }

  /** The table after a status request against booking `id`, with the
      overlap test above standing for `validate_date_range`. */
  function Apply(rows: seq<Booking>, id: nat, request: Option<string>): (r: seq<Booking>)
    requires AllWellFormed(rows)
    ensures AllWellFormed(r) && |r| == |rows|
  {
    if id < |rows| then
      var b := rows[id];
      rows[id := Transition(b, request, ApprovedOverlap(rows, b.property, b.checkIn, b.checkOut)).booking]
    else rows
  }

  /** With that test, one status request never creates a double booking. */
  lemma ApplyKeepsNoDoubleBooking(rows: seq<Booking>, id: nat, request: Option<string>)
    requires AllWellFormed(rows) && NoDoubleBooking(rows)
    ensures NoDoubleBooking(Apply(rows, id, request))
  {
    if id < |rows| {
      var b := rows[id];
      var conflict := ApprovedOverlap(rows, b.property, b.checkIn, b.checkOut);
      var s := Transition(b, request, conflict);
      TransitionFrame(b, request, conflict);
      var r := Apply(rows, id, request);
      forall i, j | 0 <= i < |r| && 0 <= j < |r| && i != j &&
          r[i].status == Approved && r[j].status == Approved && r[i].property == r[j].property
        ensures !Overlaps(r[i].checkIn, r[i].checkOut, r[j].checkIn, r[j].checkOut)
      {
        if i == id && b.status != Approved {
          // `id` was just approved: the check found no approved overlap, and
          // row j was approved before.
          assert !conflict;
          assert r[j] == rows[j];
          assert !Overlaps(rows[j].checkIn, rows[j].checkOut, b.checkIn, b.checkOut);
        } else if j == id && b.status != Approved {
          assert !conflict;
          assert r[i] == rows[i];
          assert !Overlaps(rows[i].checkIn, rows[i].checkOut, b.checkIn, b.checkOut);
        } else {
          assert rows[i].status == Approved && rows[j].status == Approved;
        }
      }
    }
  }

  /** No sequence of status requests, however ordered, leaves two approved
      bookings of one property overlapping. */
  lemma {:induction false} NoDoubleBookingEver(rows: seq<Booking>, requests: seq<(nat, Option<string>)>)
    requires AllWellFormed(rows) && NoDoubleBooking(rows)
    ensures NoDoubleBooking(ApplyAll(rows, requests))
    decreases |requests|
  {
    if requests != [] {
      ApplyKeepsNoDoubleBooking(rows, requests[0].0, requests[0].1);
      NoDoubleBookingEver(Apply(rows, requests[0].0, requests[0].1), requests[1..]);
    }
  }

  function ApplyAll(rows: seq<Booking>, requests: seq<(nat, Option<string>)>): (r: seq<Booking>)
    requires AllWellFormed(rows)
    ensures AllWellFormed(r)
    decreases |requests|
  {
    if requests == [] then rows
    else ApplyAll(Apply(rows, requests[0].0, requests[0].1), requests[1..])
  }

  // ---------------------------------------------------------------------
  // Listing.

  /** `get_queryset`: nobody signed out, everything for admins and managers,
      one's own bookings for everyone else. */
  predicate VisibleTo(u: Requester, b: Booking) {
    if !u.IsAuthenticated() then false
    else if u.Role() == Some("admin") || u.Role() == Some("manager") then true
    else b.owner == Some(u.id)
  }

  function Visible(u: Requester, rows: seq<Booking>): seq<Booking> {
    Queries.Filter(rows, b => VisibleTo(u, b))
  }

  lemma VisibilityDecision(u: Requester, rows: seq<Booking>, b: Booking)
    ensures !u.IsAuthenticated() ==> Visible(u, rows) == []
    ensures u.Member? && (u.role == "admin" || u.role == "manager") ==> Visible(u, rows) == rows
    ensures b in Visible(u, rows) <==>
      b in rows && u.Member? && (u.role == "admin" || u.role == "manager" || b.owner == Some(u.id))
  {
    if u.Member? && (u.role == "admin" || u.role == "manager") {
      FilterAll(rows, b => VisibleTo(u, b));
    }
  }

  lemma {:induction false} FilterAll<T(!new)>(rows: seq<T>, cond: T -> bool)
    requires forall x :: cond(x)
    ensures Queries.Filter(rows, cond) == rows
  {
    if rows != [] {
      FilterAll(rows[1..], cond);
      assert rows == [rows[0]] + rows[1..];
    }
  }

  /** `filter_queryset`: with a non-empty `search`, keep bookings whose name,
      email or phone contains it ignoring case, or, when it parses as a
      YYYY-MM-DD date (`searchDate`, the result of `strptime`), whose
      check-in or check-out is that date. */
  predicate MatchesSearch(b: Booking, search: string, searchDate: Option<Date>) {
    IContains(b.fullName, search) || IContains(b.email, search) || IContains(b.phone, search) ||
    (searchDate.Some? && (b.checkIn == searchDate.value || b.checkOut == searchDate.value))
  }

  function Search(rows: seq<Booking>, search: Option<string>, searchDate: Option<Date>): seq<Booking> {
    if search.None? || search.value == "" then rows
    else Queries.Filter(rows, b => MatchesSearch(b, search.value, searchDate))
  }

  lemma SearchDecision(rows: seq<Booking>, search: Option<string>, searchDate: Option<Date>, b: Booking)
    ensures search.None? || search == Some("") ==> Search(rows, search, searchDate) == rows
    ensures search.Some? && search.value != "" ==>
      (b in Search(rows, search, searchDate) <==> b in rows && MatchesSearch(b, search.value, searchDate))
    ensures search.Some? && searchDate.None? ==>
      (b in Search(rows, search, searchDate) ==>
        b in rows &&
        (IContains(b.fullName, search.value) || IContains(b.email, search.value) || IContains(b.phone, search.value)))
  {
  }

  /** `get_object` for an admin or manager, whose queryset is the whole
      table: the id names a booking that `filter_queryset` keeps. */
  predicate Found(rows: seq<Booking>, id: nat, search: Option<string>, searchDate: Option<Date>) {
    id < |rows| && (search.None? || search.value == "" || MatchesSearch(rows[id], search.value, searchDate))
  }

  /** The booking `update` finds is one the searched listing holds, and a
      booking is found by a non-empty search exactly when it matches it. */
  lemma FoundDecision(rows: seq<Booking>, id: nat, search: Option<string>, searchDate: Option<Date>)
    ensures Found(rows, id, search, searchDate) ==> rows[id] in Search(rows, search, searchDate)
    ensures id < |rows| && search.Some? && search.value != "" ==>
      (Found(rows, id, search, searchDate) <==> MatchesSearch(rows[id], search.value, searchDate))
    ensures id >= |rows| ==> !Found(rows, id, search, searchDate)
  {
    if Found(rows, id, search, searchDate) {
      SearchDecision(rows, search, searchDate, rows[id]);
    }
  }
}
