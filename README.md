# Equipment lending: availability and request lifecycle

A Dafny model of the core of a school equipment-lending backend. Borrowers ask for a
quantity of an item over a closed period. Staff approve, reject, issue and take
back requests. A daily job marks issued requests that are past their end date as
overdue and notifies their requesters. Administrators create, update and delete items.

The model covers:

- **Availability** (`availability.dfy`): the units of one item booked over a query
  interval. Only `approved` and `issued` requests count, and only when their interval
  overlaps the query. The overlap test is inclusive at both ends. The result is
  `available = max(0, (total || 0) - booked)`. This is pure functions over a sequence
  of request records, with lemmas.
- **Records** (`models.dfy`): the request and equipment documents. This covers their
  schema validators and defaults, the six-value status enum, and the notification
  record.
- **Lifecycle** (`lifecycle.dfy`): the transition table, and the guard-and-update step
  of approve, reject, issue and return on one record.
- **Store** (`store.dfy`): an in-memory stand-in for the document store. It is a class
  `Db` with the equipment map, the request sequence (a request's identity is its
  position; requests are never deleted) and the notification sequence. The file also
  holds the store invariant and the per-item **capacity invariant**: at every instant, the
  units held by approved and issued requests fit in the item's quantity. Lemmas show
  which writes keep it.
- **Request handlers** (`request_routes.dfy`): create, approve, reject, issue and
  return as methods that change `Db`. Each one checks every guard before it writes
  anything. Each one keeps the store invariant and the capacity invariant.
- **Overdue sweep** (`overdue_job.dfy`): the selection, the marking loop and the
  notifications. Lemmas cover idempotence, recipients and the effect on availability.
- **Equipment handlers** (`equipment_routes.dfy`): the payload schema, create, update,
  the guarded delete, and the listing with its `availableOnly` filter loop.

Dates are points on one integer time line (milliseconds since the epoch). A date-only
input is stored as its midnight. `now` is the instant of the call, and the sweep runs at
09:00 by default. Identities are naturals. The clock (`now`) and the acting
user are parameters. Handlers run one at a time. The approve handler checks capacity
and then saves, with no transaction, so the capacity invariant is proved only for
sequential execution.

Behaviour of the code worth knowing:

- The sweep notifies only the requester; administrators get no notice.
- `overdue` does not hold capacity (`backend/src/utils/availability.js:5`). An overdue
  item therefore frees its units for new bookings.
- A query interval whose start is after its end is not treated as empty. The
  inclusive test still matches any request that covers both instants
  (`Availability.ReversedQueryStillMatches`).
- A booking whose last date is `d` ends at midnight of `d`. The 09:00 run on day `d`
  already marks it overdue, while an availability query for day `d` still counts it
  (`OverdueJob.DueDuringItsLastBookedDay`).
- The name rule counts UTF-16 units, so one character outside the Basic Multilingual
  Plane is a name of length 2 (`EquipmentRoutes.WideCharacterNameAccepted`).
- Deleting an unknown item succeeds. Updating an unknown item answers with no item.
  Neither gives not-found.

## Model

| member | source | states |
|---|---|---|
| Models.ParseStatus | backend/src/models/Request.js:9-12 | a status string is accepted exactly when it is the name of one of the six statuses |
| Models.ParseStatusName | backend/src/models/Request.js:11 | every status name parses back to that status |
| Models.NewRequest | backend/src/models/Request.js:4-16 | creation succeeds iff quantity >= 1; the stored record keeps the given item, requester, quantity and dates, gets status `requested` when none is given, and has no decision maker, issuedAt or returnedAt |
| Models.NewEquipment | backend/src/models/Equipment.js:4-8 | creation succeeds iff name and category are non-empty and quantity >= 0; condition defaults to "good" and description to "" |
| Availability.Booked | backend/src/utils/availability.js:7-23 | booked is non-negative when quantities are, and 0 when no request matches |
| Availability.AvailableFrom | backend/src/utils/availability.js:24 | available is never negative; it is either 0 or total - booked, and at least total - booked |
| Availability.ComputeAvailableQuantity | backend/src/utils/availability.js:4-26 | returns booked and the available amount derived from it |
| Availability.AvailableBounds | backend/src/utils/availability.js:24 | available >= 0, and available <= total for a non-negative total and non-negative quantities |
| Availability.NoTotalNothingAvailable | backend/src/utils/availability.js:24 | a missing or zero total gives available == 0 |
| Availability.NothingBookedAllAvailable | backend/src/utils/availability.js:17-24 | with no matching request, booked is 0 and the whole total is available |
| Availability.OverlapsIffSharedInstant | backend/src/utils/availability.js:12-13 | for well-formed intervals, the overlap test holds iff the two intervals share an instant |
| Availability.BookedAppend | backend/src/utils/availability.js:17-20 | booked over a concatenation is the sum of the parts' booked amounts |
| Availability.BookedUpdate | backend/src/utils/availability.js:9-20 | replacing one request changes booked by the difference of the two contributions |
| Availability.BookedDominated | backend/src/utils/availability.js:9-20 | a collection whose requests each contribute no more than their counterparts books no more |
| Availability.BookedWithin | backend/src/utils/availability.js:12-13 | what is held at any instant inside an interval is at most what is booked over the interval |
| Availability.AddingRequestNeverRaisesAvailable | backend/src/utils/availability.js:7-24 | adding a request never raises available; adding one that does not match (other item, non-holding status, no overlap) leaves the result unchanged |
| Availability.AvailableAntitone | backend/src/utils/availability.js:24 | more booked never means more available |
| Availability.ScenarioOneApprovedBooking | backend/src/utils/availability.js:4-26 | item of 5 with 3 approved over [1,10]: [5,15] gives booked 3, available 2; [20,25] gives booked 0, available 5 |
| Availability.SameDayHandoverIsContested | backend/src/utils/availability.js:12-13 | a booking ending at the query's first instant counts |
| Availability.ReversedQueryStillMatches | backend/src/utils/availability.js:12-13 | a query whose start is after its end still matches a request covering both instants |
| Lifecycle.Approve | backend/src/routes/requests.js:145-149 | succeeds iff the table allows requested to approved and the quantity fits in what is available; otherwise InvalidTransition, or CapacityExceeded carrying the available amount; on success only status (approved) and decision maker change |
| Lifecycle.Reject | backend/src/routes/requests.js:182-184 | succeeds iff the table allows the move to rejected (from requested or approved); sets rejected and the decision maker and nothing else |
| Lifecycle.Issue | backend/src/routes/requests.js:217-220 | succeeds iff the status is approved; sets issued, issuedAt = now and the decision maker |
| Lifecycle.Return | backend/src/routes/requests.js:253-256 | succeeds iff the status is issued or overdue; sets returned, returnedAt = now and the decision maker |
| Lifecycle.TerminalIffNoWayOut | backend/src/routes/requests.js:145-253 | returned and rejected are exactly the statuses with no outgoing transition |
| Lifecycle.TerminalRequestsAreFinal | backend/src/routes/requests.js:145-253 | every staff action on a returned or rejected request fails with InvalidTransition |
| Lifecycle.OnlyApproveAcquiresCapacity | backend/src/routes/requests.js:148-254 | approve moves a request into the holding set; reject and return move it out; issue keeps it in |
| Store.Db.constructor | backend/src/models/Equipment.js:11 | the empty equipment and request collections (also backend/src/models/Request.js:19), with no notifications, satisfy the store invariant |
| Store.AddNonHoldingKeepsCapacity | backend/src/routes/requests.js:71-78 | storing a new non-holding request keeps the capacity invariant |
| Store.ReleaseKeepsCapacity | backend/src/routes/requests.js:183-256 | rewriting a request into a status that holds capacity only if the old one did keeps the capacity invariant |
| Store.ApproveKeepsCapacity | backend/src/routes/requests.js:146-150 | approving a request whose quantity (>= 1) fits in what is available over its interval keeps the capacity invariant at every instant |
| Store.AddItemKeepsCapacity | backend/src/routes/equipment.js:197-198 | a new item that no request refers to keeps the capacity invariant |
| Store.RemoveItemKeepsCapacity | backend/src/routes/equipment.js:382 | removing an item keeps the capacity invariant for the others |
| RequestRoutes.PostRequest | backend/src/routes/requests.js:63-81 | refuses a quantity below 1 or above the largest safe JavaScript integer, then an end before the start, then an unknown item, then a quantity above available (reporting it), each leaving the store unchanged; otherwise appends exactly one `requested` request owned by the caller; keeps both invariants |
| RequestRoutes.PatchApprove | backend/src/routes/requests.js:141-153 | unknown id gives NotFound; otherwise the result is Lifecycle.Approve against availability over the request's own interval and the item's current quantity; only the approved record changes; keeps both invariants |
| RequestRoutes.PatchReject | backend/src/routes/requests.js:178-188 | unknown id gives NotFound; otherwise the result is Lifecycle.Reject, written back only on success; keeps both invariants |
| RequestRoutes.PatchIssue | backend/src/routes/requests.js:213-224 | unknown id gives NotFound; otherwise the result is Lifecycle.Issue, written back only on success; keeps both invariants |
| RequestRoutes.PatchReturn | backend/src/routes/requests.js:249-260 | unknown id gives NotFound; otherwise the result is Lifecycle.Return, written back only on success; keeps both invariants |
| RequestRoutes.ScenarioSecondApprovalRefused | backend/src/routes/requests.js:146-147 | two overlapping requests of 3 on an item of 5: after the first is approved, the second is refused with CapacityExceeded(2) |
| OverdueJob.DueIds | backend/src/jobs/overdueJob.js:11-14 | selects exactly the issued requests with endDate < now, each once, in store order; nothing when none is due |
| OverdueJob.MarkOverdue | backend/src/jobs/overdueJob.js:16 | a record is changed iff it is due, and then only its status, by a legal move to overdue |
| OverdueJob.Sweep | backend/src/jobs/overdueJob.js:15-17 | the swept collection has the same length, and each record is its marked form |
| OverdueJob.Notices | backend/src/jobs/overdueJob.js:18-22 | one notification per selected request, in order, built from that request |
| OverdueJob.MarkAll | backend/src/jobs/overdueJob.js:15-17 | marking a list of identities sets exactly those records to overdue |
| OverdueJob.MarkSelected | backend/src/jobs/overdueJob.js:15-23 | the loop marks every selected request and writes exactly the notices for them |
| OverdueJob.MarkAllIsSweep | backend/src/jobs/overdueJob.js:11-17 | marking the selected identities gives the swept collection |
| OverdueJob.RunOverdueSweep | backend/src/jobs/overdueJob.js:10-23 | the requests become the swept collection; the notices are appended after the existing ones; the count is the number selected; items unchanged; keeps both invariants |
| OverdueJob.SweepKeepsStoreInvariant | backend/src/jobs/overdueJob.js:16 | the sweep keeps the store invariant |
| OverdueJob.SweepKeepsCapacity | backend/src/jobs/overdueJob.js:16 | the sweep keeps the capacity invariant |
| OverdueJob.SweepNeverRaisesBooked | backend/src/jobs/overdueJob.js:16 | after a sweep no query books more, so available can only grow |
| OverdueJob.DueDuringItsLastBookedDay | backend/src/jobs/overdueJob.js:10-14 | an issued request ending at midnight of day d is due at any later instant of day d, such as 09:00, while a query for day d still counts its units |
| OverdueJob.SweepChangesExactlyTheDue | backend/src/jobs/overdueJob.js:11-17 | due requests become overdue; others are unchanged; issued requests with endDate >= now stay issued |
| OverdueJob.SweepIdempotent | backend/src/jobs/overdueJob.js:11-17 | a second sweep at the same now selects nothing, changes nothing and writes no notification |
| OverdueJob.NoticesGoToRequesters | backend/src/jobs/overdueJob.js:18-22 | one notice per selected request, addressed to its requester, titled "Overdue equipment", naming the item or "item" |
| OverdueJob.NoticesNameTheItem | backend/src/jobs/overdueJob.js:21 | in a consistent store every selected request's item exists, so the notice carries its real name |
| EquipmentRoutes.Utf16Length | backend/src/routes/equipment.js:12 | the length Joi's `min` counts: between the character count and twice it, and equal to it when no character is outside the Basic Multilingual Plane |
| EquipmentRoutes.ValidatePayload | backend/src/routes/equipment.js:11-17 | accepts iff name is >= 2 UTF-16 units long, category and any given condition are non-empty and 0 <= quantity <= the largest safe JavaScript integer; a missing condition becomes "good" |
| EquipmentRoutes.ApplyUpdate | backend/src/routes/equipment.js:328-329 | the update sets name, category, quantity and the given condition and description, and keeps a description left out; a validated payload gives a valid item |
| EquipmentRoutes.PostEquipment | backend/src/routes/equipment.js:195-201 | an invalid payload changes nothing; a valid one stores the created item under a fresh identity; keeps both invariants |
| EquipmentRoutes.PutEquipment | backend/src/routes/equipment.js:326-332 | an invalid payload changes nothing; an unknown id answers no item and changes nothing; otherwise the item becomes the updated record; keeps the store invariant |
| EquipmentRoutes.ActiveCount | backend/src/routes/equipment.js:375-379 | the count is positive iff some request for the item is requested, approved or issued |
| EquipmentRoutes.DeleteEquipment | backend/src/routes/equipment.js:373-387 | refused with the items unchanged when an active request exists; otherwise exactly that item is removed; keeps both invariants |
| EquipmentRoutes.Unfiltered | backend/src/routes/equipment.js:123 | the unfiltered listing is every item found, in order, without an available field |
| EquipmentRoutes.AvailableOnly | backend/src/routes/equipment.js:116-121 | the filtered listing holds exactly the items with available > 0, each annotated with its available amount |
| EquipmentRoutes.ListEquipment | backend/src/routes/equipment.js:115-123 | filters only for availableOnly "true" with both dates given, and returns the full list otherwise |
| EquipmentRoutes.AvailableOnlyKeepsOrder | backend/src/routes/equipment.js:116-121 | filtering a concatenation is the concatenation of the filtered parts, so the input order is kept |
| EquipmentRoutes.DeleteBlockedExactlyByActive | backend/src/routes/equipment.js:377 | deletion is allowed iff every request for the item is overdue, returned or rejected |
| EquipmentRoutes.UpdateWithoutConditionResetsIt | backend/src/routes/equipment.js:14 | an update without condition sets the stored condition to "good" |
| EquipmentRoutes.WideCharacterNameAccepted | backend/src/routes/equipment.js:12 | a one-emoji name passes `min(2)`; a one-letter name fails |
| EquipmentRoutes.ResizeCanBreakCapacity | backend/src/routes/equipment.js:328-329 | shrinking an item below what is held is accepted and breaks the capacity invariant |

## Left out

- HTTP routing, status codes and error forwarding. Outcomes are the `Error` datatype.
- Authentication and roles. The acting user's identity is a parameter and is trusted.
- The document store's calls. They are replaced by the `Db` class and explicit
  functions. Data-access failures and timeouts are not modelled.
- Malformed identities, which make the store raise a cast error, are not modelled.
  Identities are naturals.
- Joi's type coercion (numeric strings, for example) and its rejection of unknown keys
  are not modelled. Payload fields are already typed.
- Date parsing and time zones are not modelled. Dates are already instants, so an
  invalid date string has no counterpart.
- The cron schedule, the clock and logging are not modelled. `now` is a parameter.
  An exception inside the sweep's loop would stop the remaining iterations. That is
  not modelled, because store writes never fail here.
- The automatic `createdAt`/`updatedAt` timestamps are not modelled.
- The listing's regex name search, category filter and sort order are not modelled.
  `ListEquipment` takes the items the query found, in the order found.
- GET /:id for items, the request list, and the dashboard, user and notification
  routes are not modelled. They are plain lookups with no rules.
- Concurrent handlers are not modelled. The approve handler checks capacity and then
  saves, with no transaction. Two approvals running at once could both pass. Every
  invariant here assumes handlers run one after another.
- RequestRoutes.PatchApprove: requires the store invariant. Under it, a `requested`
  request's item always exists, because delete is refused while such a request exists.
  So the source's crash on a missing populated item cannot happen.
- OverdueJob.NoticesNameTheItem: the fallback label "item" is modelled in
  `ItemLabel`. Under the store invariant it is never used.
- EquipmentRoutes.PutEquipment: does not keep the capacity invariant. The source does
  not reconcile a resize with what is already held (`ResizeCanBreakCapacity`).
- The sweep's notifications to administrators, and notification delivery failures,
  are not modelled. The code notifies only the requester.
