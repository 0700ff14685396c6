# Eastmond Villas booking backend — a verified model

This project is a Dafny model of the decision logic in the Django REST
backend of a villa rental business. It covers these parts:

- **Bookings.** A booking is created as `pending`. A status request moves it
  between `pending`, `approved`, `rejected`, `cancelled` and `completed`.
  Approval is guarded by a date-conflict check and counts a daily booking.
  The model also covers who sees which bookings and the `?search=` filter.
- **Monthly availability.** The approved stays of a property that touch a
  month, each clipped to that month.
- **Daily analytics.** One row of four counters per (property, day). A row
  is created on first use, and one named counter is incremented per call.
- **Properties.** Who sees which property. The checks `create` makes on
  bedroom images and their `bedrooms_meta` JSON.
- **Reviews.** Who sees which review. The limit of five images, and which
  uploads are stored.
- **Favourites.** `toggle` over the set of (user, property) pairs.
- **Reporting.** `validate_month_year`. The date window and the daily or
  monthly grouping of the analytics summary.
- **Permissions.** The permission classes of `accounts/permissions.py` and
  `villas/permissions.py`. The `get_permissions` tables of the property and
  booking view sets, under Django REST framework's rules:
  - every class must pass `has_permission`;
  - every class must also pass `has_object_permission` for a request about
    one object;
  - `A | B` passes when either operand passes both of its own checks.
- **Accounts.** Deleting a user account: who may do it, and the real delete
  or the anonymising fallback.
- **Resources.** The resource library listing, with its role gate, category
  filter and search filter, and the role guard on `create`.

## How the model is built

Each module follows one area of the source:

- Calendar: `date`, `date.toordinal`, `calendar.monthrange`.
- Text: `str(n)`, `isdigit`/`int`, `icontains`.
- Queries: `.filter`, `.order_by('-created_at')`.
- Requests: the requester and the HTTP method.
- One module per view set or permission file.

How state is represented:

- Tables the source changes in place are classes whose methods state their
  whole new state:
  - `BookingTable`;
  - `DailyAnalyticsStore`, whose `map` is keyed by (property, date);
  - `FavoriteStore`, a `set` of pairs;
  - `UserTable`;
  - `ResourceTable`.
- Loops the source runs are `while` loops proved against a specification
  function:
  - the bedroom key and upload loops;
  - the availability loop;
  - the review image loop.
- Decision logic is a set of functions and predicates, with lemmas that
  state each decision.

Inputs and outside services:

- The clock is passed in as `today` and the current year.
- Parsing is passed in as its outcome:
  - `int()`, `date.fromisoformat` and `strptime` appear as
    `Option` values;
  - `json.loads` is a parser parameter.
- `validate_date_range` is not part of this model. It is a function
  parameter. Bookings are also proved free of double booking under one
  concrete choice: refuse when an approved booking of the same property
  overlaps the stay, with stays read as half-open `[check_in, check_out)`.

## Model

| member | source | states |
|---|---|---|
| Calendar.DaysInMonth | villas/views.py:332 | The length of a month is 28 to 31 days. It is 29 exactly for February of a leap year and 28 exactly for February of another year. |
| Calendar.OrdinalOrder | villas/views.py:338-339 | For valid dates, day numbers compare as the dates do: `<` is lexicographic order on (year, month, day), and equal day numbers mean equal dates. Date comparisons can therefore be made on day numbers. |
| Calendar.MonthBoundsOrdered | villas/views.py:331-333 | The day number of the month's last day equals the first day's number plus the month's length minus one. |
| Text.NatToStringRoundTrip | villas/views.py:708 | Reading back the decimal digits `str(n)` writes gives `n`. |
| Text.NatToStringInjective | accounts/views.py:119 | Distinct numbers are written as distinct strings. |
| Text.Contains | villas/views.py:255-259 | Substring search returns true exactly when the needle occurs at some position of the haystack. |
| Queries.Filter | villas/views.py:229-236 | `.filter` keeps each row the condition accepts, as often as it occurs, and no other row. |
| Queries.FilterFilter | resources/views.py:41-48 | Filtering twice is filtering once by the conjunction of the two conditions. |
| Queries.NewestFirst | villas/views.py:73-74 | `order_by('-created_at')` returns the same multiset of rows, newest first. |
| Queries.FilterKeepsOrder | resources/views.py:36-48 | Filtering a newest-first table keeps it newest first. |
| AccountPermissions.AdminDecision | accounts/permissions.py:11-12 | `IsAdmin` grants exactly a signed-in requester whose role is `admin`. |
| AccountPermissions.AdminOrManagerDecision | accounts/permissions.py:21-25 | `IsAdminOrManager` refuses the anonymous user. It grants exactly the signed-in roles `admin` and `manager`. |
| AccountPermissions.FullAccessDecision | accounts/permissions.py:34-35 | `IsAgentWithFullAccess` grants exactly when the object's assigned agent is the requester and the requester's permission is `full_access`. The role is not consulted. |
| AccountPermissions.ReadOnlyDecision | accounts/permissions.py:43-46 | `IsAssignedAgentReadOnly` never grants an unsafe method. It grants a safe method exactly to the object's assigned agent. |
| AccountPermissions.OwnerDecision | accounts/permissions.py:53-57 | `IsOwnerOrAdminOrManager` always grants admins and managers. Anyone else is granted exactly when the object's user is them, so an ownerless object passes admins and managers only. |
| AccountPermissions.AgentDecisions | accounts/permissions.py:66-78 | `IsAgent` grants exactly signed-in agents. `IsAgentOrAdminOrManager` grants exactly signed-in agents, admins and managers, which is the union of `IsAgent` and `IsAdminOrManager`. |
| AccountPermissions.RolesNest | accounts/permissions.py:11-78 | Admins pass `IsAdminOrManager`, and admins and managers pass `IsAgentOrAdminOrManager`. Agents never pass `IsAdminOrManager`. |
| VillaPermissions.AdminAgentManagerDecision | villas/permissions.py:7-13 | `IsAdminAgentManager` allows safe methods to everyone, signed out included. It allows an unsafe method exactly to a signed-in admin, manager, agent or staff member. |
| VillaPermissions.BookingOwnerOrManagerDecision | villas/permissions.py:19-24 | `IsBookingOwnerOrManager.has_permission` grants exactly signed-in requesters, whatever the method. |
| VillaPermissions.BookingOwnerOrManagerObjectDecision | villas/permissions.py:26-39 | At object level, safe methods always pass. Unsafe methods pass exactly for a signed-in admin, manager or staff member, or for the booking's non-null owner. So an ownerless booking can be changed by admins, managers and staff only. |
| ViewPermissions.AdmitsOne | villas/views.py:94-106 | A permission list with one class admits a request exactly when that class passes `has_permission` and, for an object, `has_object_permission`. |
| ViewPermissions.PropertyGuards | villas/views.py:94-106 | `PropertyViewSet.get_permissions` picks exactly one permission class, or one `|` of two classes, for every action. |
| ViewPermissions.PropertyAccess | villas/views.py:94-106 | For properties, anyone may list or retrieve. Only admins and managers may create or destroy. Editing is for admins, managers, or the assigned agent holding `full_access`. Other actions need a signed-in requester. |
| ViewPermissions.BookingGuards | villas/views.py:267-276 | `BookingViewSet.get_permissions` picks exactly one permission class for every action. |
| ViewPermissions.BookingAccess | villas/views.py:267-276 | For bookings, signed-in requesters may create, list and run other actions. Retrieving is for admins, managers and the booking's owner. Update, partial update and destroy are for admins and managers only. |
| Analytics.CounterNamed | villas/utils.py:13-20 | The four field names select the four counters, one each, and no other name selects a counter. |
| Analytics.Increment | villas/utils.py:13-20 | The named counter rises by exactly one. Every other counter keeps its value. |
| Analytics.Recorded | villas/utils.py:4-22 | A call adds the (property, today) row if it is absent and keeps every other row. No counter of any row goes down. |
| Analytics.DailyAnalyticsStore.UpdateDailyAnalytics | villas/utils.py:4-23 | After a call, the store is the old store with the (property, today) row read or created and then incremented. The returned row is the stored one. |
| Analytics.RecordedEffect | villas/utils.py:7-20 | A call creates the (property, today) row if it is absent and raises exactly the named counter by one. The row's other counters and every other row are unchanged. |
| Analytics.UnknownFieldCountsNothing | villas/utils.py:12-22 | An unknown field name still creates and saves the row, but changes no counter. |
| Analytics.CountersNeverDecrease | villas/utils.py:13-22 | Over any sequence of calls, no row disappears and no counter goes down. |
| Bookings.StatusNamed | villas/views.py:306-307 | A request string names a status exactly when it is one of the five stored names. |
| Bookings.Transition | villas/views.py:290-314 | A 200 means the booking now holds the status the request names. A booking enters `approved` from another status only when the conflict check reported nothing. |
| Bookings.UnchangedCases | villas/views.py:292-314 | Three requests leave the booking unchanged and count nothing: a missing or empty status (400), an unknown status (400), and the current status (200 with the booking as it is). |
| Bookings.ApprovalDecision | villas/views.py:295-304 | Moving into `approved` succeeds exactly when no conflict is reported. On success the status becomes `approved` and a booking is counted. On failure the reply is 400 and nothing changes. |
| Bookings.DirectAssignment | villas/views.py:306-307 | `cancelled`, `rejected`, `completed` and `pending` are assigned directly from any other status, `approved` included. There is no conflict check and no count. |
| Bookings.TransitionFrame | villas/views.py:288-314 | Only the status ever changes. A booking is counted exactly when it enters `approved` from another status. A refused request leaves the booking as it was. |
| Bookings.BookingTable.Create | villas/views.py:278-286 | A signed-in requester's valid booking is appended as theirs, in `pending`. A refused or invalid request changes nothing. |
| Bookings.BookingTable.Update | villas/views.py:238-314 | Non-admins and non-managers are refused, with no change. A 404 with no change is given for an unknown id, and also for a booking that a non-empty `?search=` leaves out, because `get_object` looks the id up in the filtered queryset. Otherwise the booking becomes the transition's result, and the analytics store gains the `bookings` count for today exactly when the transition counts. |
| Bookings.ApplyKeepsNoDoubleBooking | villas/views.py:297-303 | With the overlap test standing for `validate_date_range`, one status request never makes two approved stays of a property overlap. |
| Bookings.NoDoubleBookingEver | villas/views.py:297-303 | Under the same test, no sequence of status requests, in any order, creates a double booking. |
| Bookings.VisibilityDecision | villas/views.py:226-236 | Signed-out requesters see no booking. Admins and managers see every booking. Anyone else sees exactly their own bookings. |
| Bookings.SearchDecision | villas/views.py:238-265 | Without a search term, every row is kept. With one, a row is kept exactly when its name, email or phone contains the term ignoring case, or when the term is a date equal to its check-in or check-out. |
| Bookings.FoundDecision | villas/views.py:238-265 | A booking `update` finds is one the searched listing holds. With a non-empty term, an existing booking is found exactly when it matches the term. An unknown id is never found. |
| Properties.ListingDecision | villas/views.py:62-83 | The listing is newest first and holds each visible row as often as the table. Signed-out requesters and customers see published properties, admins and managers see all, and agents see those assigned to them. |
| Properties.FirstEmpty | villas/views.py:174-179 | The first empty upload is found when one exists, with every upload before it non-empty. When none is found, every upload is non-empty. |
| Properties.EntryAt | villas/views.py:181 | `meta_map[idx]` is an entry of the list whose index is `idx`. |
| Properties.IndexPresent | villas/views.py:167-172 | When the sorted indexes are `0..n-1`, every position has an entry with that index. |
| Properties.EntriesCheck | villas/views.py:160-187 | An accepted entry list has one entry per upload, no upload is empty, and one stored row is produced per upload. A missing-keys refusal means some entry really lacks `index` or `name`. |
| Properties.BedroomCheck | villas/views.py:145-187 | An accepted request stores one bedroom image per upload. An invalid-JSON refusal means the parser rejected the raw metadata. |
| Properties.OmittedMetadataCountsNoEntries | villas/views.py:146-161 | Images sent without `bedrooms_meta` meet the default `'[]'`, which parses to no entries, so they are refused by the count test with the image count and zero entries. |
| Properties.ValidateBedrooms | villas/views.py:145-187 | The method returns exactly what the bedroom check specifies, in the order the source tests. |
| Properties.ValidateEntries | villas/views.py:160-187 | After parsing, the method returns exactly the specified result of the count test, the key loop, the index test and the upload loop. |
| Properties.AllHaveKeys | villas/views.py:163-165 | The key loop passes exactly when every entry has `index` and `name`. |
| Properties.PairUploads | villas/views.py:174-187 | The upload loop refuses the first empty upload. Otherwise it pairs every upload with its entry. |
| Properties.EntriesAcceptedIff | villas/views.py:160-179 | The entries are accepted exactly when four things hold: the counts agree, every entry has `index` and `name`, the indexes are `0..n-1` in some order, and no upload is empty. |
| Properties.AcceptedIff | villas/views.py:146-159 | Bedroom data is accepted exactly when images and metadata are both present or both absent (an omitted `bedrooms_meta` counts as present), the JSON parses, and the entries are accepted. |
| Properties.AcceptedPairsEveryImage | villas/views.py:172-187 | Once accepted, every upload position `k` is stored with the name and description of the entry whose index is `k`. |
| Properties.OmittedMetadataWithoutImagesRefused | villas/views.py:146-151 | Omitting both the bedroom images and `bedrooms_meta` is refused with the "at least one bedroom image" error. |
| Availability.Clip | villas/views.py:343-345 | The clipped span is made of valid dates. |
| Availability.Spans | villas/views.py:335-350 | The answer for a month is one span per selected booking, in table order, and every span is made of valid dates. |
| Availability.PropertyAvailability | villas/views.py:319-352 | An unknown property is 404, and a parameter that is not an integer is 400. A month or year `date()` rejects raises. Otherwise the answer is exactly the clipped spans of the selected bookings. |
| Availability.SpansAreClippedSelection | villas/views.py:335-350 | Every entry is the clip of an approved booking of the property that touches the month, inclusive at both ends. Every such booking has its entry. |
| Availability.ClippedWithinMonth | villas/views.py:343-345 | For a stay that does not end before it starts, `start_of_month <= start <= end <= end_of_month`. |
| Availability.AnswerWithinMonth | villas/views.py:331-350 | Every entry of a month's answer lies within that month: both dates fall in the requested year and month. |
| Reviews.ListingDecision | villas/views.py:365-369 | Signed-out requesters are refused. Admins and managers see every review, and everyone else sees exactly the approved reviews, as often as they are stored. |
| Reviews.KeptExactly | villas/views.py:390-392 | The kept positions are increasing, each is a non-empty upload, and every non-empty upload is kept. |
| Reviews.StoreImages | villas/views.py:390-392 | The image loop stores exactly the kept uploads, in upload order. |
| Reviews.RefusedReviewIsStillSaved | villas/views.py:379-388 | As written, a review with six images is answered 400, yet the review is saved. |
| Reviews.CreateOutcomes | villas/views.py:379-395 | With the refusal taking effect as a whole, a refusal leaves the store unchanged. The 400 for images is given exactly for more than five. An accepted review is appended with the requester as author, and exactly its non-empty uploads are attached. |
| Favorites.Toggled | villas/views.py:428-444 | The toggled pair flips membership, and every other pair keeps its membership. |
| Favorites.ToggleTwice | villas/views.py:428-444 | Toggling the same pair twice restores the set. |
| Favorites.TogglesCommute | villas/views.py:428-444 | Toggles of different pairs commute. |
| Favorites.FavoriteStore.Toggle | villas/views.py:419-444 | Signed-out requesters are refused, and a missing property is 400, both with the set unchanged. Otherwise the pair is flipped: a present pair is removed (200, not favourited) and an absent one is added (201, favourited). |
| Reporting.ValidateMonthYear | villas/views.py:696-711 | The check succeeds exactly when both values are integers, `1 <= month <= 12` and `1900 <= year <= current year`. It then returns (month, year). |
| Reporting.MonthYearErrors | villas/views.py:696-709 | A refusal carries the first failing test's message: non-integers, then the month, then the year. The year message ends with the current year in decimal. |
| Reporting.LookBack | villas/views.py:481-497 | Only `month` does not look back a number of days. |
| Reporting.SelectWindow | villas/views.py:474-504 | Explicit `start` and `end` give exactly their own day numbers as the window, or the bad-date error when either fails to parse. The overflow error arises only from a day count looked back from today. |
| Reporting.WindowShape | villas/views.py:474-504 | Grouping is monthly exactly when the span exceeds 60 days. A window not given explicitly ends today and starts no later. A bad date is reported exactly when both bounds are given and one fails to parse. |
| Reporting.MonthWindowIsDaily | villas/views.py:488-504 | The `month` window runs from the first of the month to today, so it is always grouped by day. |
| Reporting.DigitsLookBack | villas/views.py:494-495 | A range made of the decimal digits of `n` looks back exactly `n` days. |
| Reporting.DefaultIsSevenDays | villas/views.py:476-497 | A missing range, or one that is neither a keyword nor digits, looks back seven days. |
| Accounts.UserTable.Delete | accounts/views.py:101-123 | A refused or signed-out request changes nothing, and an unknown key is 404 before the permission test. A request that is not from staff, an admin or the account itself is 403. Otherwise the reply is 204 and the account is removed, or, when the cascade fails, anonymised. |
| Accounts.AfterDelete | accounts/views.py:114-122 | The account stays exactly when the cascade fails. It is then inactive, and its role and staff flag are unchanged. |
| Accounts.OnlySelfUnlessPrivileged | accounts/views.py:106-108 | A requester who is neither staff nor an admin may delete only their own account. |
| Accounts.DeleteEffect | accounts/views.py:113-123 | After a permitted deletion, the account is gone, or it is inactive with the anonymous address and name. Every other account is unchanged. |
| Accounts.AnonymousEmailsDistinct | accounts/views.py:119 | Two anonymised accounts never share an address. |
| Resources.ListingDecision | resources/views.py:26-50 | The view set's `IsAuthenticated` gate refuses signed-out requesters. Signed-in requesters outside admin, manager and agent get an empty list. Otherwise the listing is newest first and holds exactly the resources that pass both filters, as often as stored. |
| Resources.ResourceTable.Create | resources/views.py:52-64 | Roles other than admin and manager get 401 and nothing is created. An invalid request creates nothing. A valid one appends the resource. |

## Left out

- The Google Calendar service, notifications, announcements and the
  WebSocket pushes. The booking update path makes no calendar call.
- The ORM aggregations of the analytics summary, the dashboard and the
  agent summary (`Sum`, `Count`, `TruncDay`, `Subquery`). The model stops
  at the chosen window and grouping.
- Pagination, the `SearchFilter`/`OrderingFilter` back ends, the serializers
  and the annotations (`total_reviews`, `avg_rating`, `is_favorited`).
- `validate_date_range` and the booking serializer are not part of this
  model. The update takes the conflict check as a parameter. The
  no-double-booking lemmas assume the half-open overlap test against
  approved bookings of the same property.
- Concurrency: the booking update takes no lock, and two simultaneous
  approvals are outside this sequential model.
- Transactions and files: `PropertyViewSet.create` and
  `ReviewViewSet.create` return their 400 answers from inside
  `transaction.atomic()`, which commits on return. Rows written before a
  refusal therefore stay:
  - the property and its media images when the bedroom checks fail;
  - the bedroom images stored before an empty one.
  The bedroom methods model only the answer. The review case is modelled
  under Findings.
- Bookings.BookingTable.Update: a booking id is its position in the table,
  and deletion of bookings is not modelled.
- Properties.ValidateBedrooms: a `json.loads` result is taken to be a list
  of objects. An entry's `index` is an integer or missing. Other JSON types,
  and the `TypeError` that mixed index types raise in `sorted`, are not
  modelled.
- Properties.ValidateBedrooms: only the bedroom checks of `create` are
  modelled. The videos and the requirement of at least one media image are
  not.
- Availability.PropertyAvailability: the answer lists bookings in table
  order, since the query names no ordering. Dates are compared by day
  number, and the `strftime` rendering is not modelled.
- Availability.PropertyAvailability: the source has no range check on the
  month and year, so `date(year, month, 1)` raises and the request ends
  in a 500. The model returns `NoSuchMonth` for that case instead of
  requiring a valid month. A 400 "invalid period" answer would be more
  natural, but the code does not give one.
- Text.IContains: case folding is ASCII only, where Django's `icontains`
  uses the database's folding.
- Reporting.LookBack: `str.isdigit` is modelled on ASCII digits only. Python
  also accepts other Unicode digits, for which `int()` then raises.
- Reporting.SelectWindow: the window is a pair of day numbers, not `date`
  values. A start before year 1 is the `OverflowError` the view does not
  catch.
- Reviews.Create: review status values other than `APPROVED` are not
  distinguished.
- Favorites.FavoriteStore.Toggle: a property key that names no property
  fails in the database and is not modelled. A key equal to 0 is treated
  as present.
- ViewPermissions: `A | B` follows the rule of Django REST framework 3.14
  and later, where each operand must pass both of its checks. Older
  versions combine `has_object_permission` alone.
- `AgentMonthlyBookingView` and `AssignPropertyView`, apart from
  `validate_month_year`.

## Findings

| source | as written | input that shows it | evidently intended | confidence | as-written member | corrected member |
|---|---|---|---|---|---|---|
| villas/views.py:379-388 | The review is saved, then the image count is checked, and the 400 is returned from inside `transaction.atomic()`, which commits on return. | A valid review with six images: the answer is 400 and the review is stored. | A refused review is not stored. | high, not executed | Reviews.CreateAsWritten (exhibited by Reviews.RefusedReviewIsStillSaved) | Reviews.Create (proved by Reviews.CreateOutcomes) |
