// The stored documents of the equipment-lending backend: the Request and
// Equipment records with their schema validators and defaults, the
// Notification record the overdue sweep writes, and the outcome type the
// route handlers return instead of HTTP status codes.
module Models {

  /** Document identities (Mongo ObjectIds) are modelled as naturals. */
  type Id = nat

  /** A date is a point on one integer time line, in milliseconds since the epoch; no time zones.
      A date-only input such as "2025-03-10" stands for its midnight, while `now` is the instant of
      the call, so a date and `now` taken on the same day can differ by up to a day. */
  type Date = int

  const MsPerDay: int := 86400000
  const MsPerHour: int := 3600000

  /** The instant a date-only input for day `day` (counted from the epoch) is stored as. */
  function Midnight(day: int): Date {
    day * MsPerDay
  }

  /** The largest integer a JavaScript number holds exactly (`Number.MAX_SAFE_INTEGER`);
      Joi's number validator refuses integers beyond it. */
  const MaxSafeInteger: int := 9007199254740991

  datatype Option<T> = None | Some(value: T)

  /** The reasons a handler refuses; each is returned before anything is written. */
  datatype Error =
    | NotFound                         // item or request identity unresolved (404)
    | InvalidTransition                // action not legal from the current status
    | CapacityExceeded(available: int) // "Only N available for selected period"
    | InvalidInterval                  // endDate before startDate
    | ValidationFailed                 // a Joi or Mongoose validator refused the payload
    | ActiveRequests                   // "Cannot delete: equipment has active requests"

  datatype Result<T> = Ok(value: T) | Err(error: Error)

  /** The six values of the request schema's status enum. */
  datatype Status = Requested | Approved | Issued | Returned | Rejected | Overdue

  function StatusName(s: Status): string {
    match s
    case Requested => "requested"
    case Approved => "approved"
    case Issued => "issued"
    case Returned => "returned"
    case Rejected => "rejected"
    case Overdue => "overdue"
  }

  /** The enum validator: a status string is accepted exactly when it names one of the six statuses. */
  function ParseStatus(name: string): (s: Option<Status>)
    ensures s.Some? ==> StatusName(s.value) == name
    ensures s.None? ==> forall st: Status :: StatusName(st) != name
  {
    if name == "requested" then Some(Requested)
    else if name == "approved" then Some(Approved)
    else if name == "issued" then Some(Issued)
    else if name == "returned" then Some(Returned)
    else if name == "rejected" then Some(Rejected)
    else if name == "overdue" then Some(Overdue)
    else None
  }

  lemma ParseStatusName(s: Status)
    ensures ParseStatus(StatusName(s)) == Some(s)
  {
    match s
    case Requested =>
    case Approved =>
    case Issued =>
    case Returned =>
    case Rejected =>
    case Overdue =>
  }

  /** A borrow request. Item, requester, quantity and both dates are required; the rest is optional. */
  datatype Request = Request(
    item: Id,
    requester: Id,
    quantity: int,
    startDate: Date,
    endDate: Date,
    status: Status,
    decisionMaker: Option<Id>,
    issuedAt: Option<Date>,
    returnedAt: Option<Date>)

  /** The request schema's own constraint: `quantity` has `min: 1`. */
  predicate ValidRequest(r: Request) {
    r.quantity >= 1
  }

  /** Two records describe the same booking: only status, decision maker and timestamps may differ. */
  predicate SameBooking(a: Request, b: Request) {
    a.item == b.item && a.requester == b.requester && a.quantity == b.quantity
    && a.startDate == b.startDate && a.endDate == b.endDate
  }

  /** `Request.create`: runs the `min: 1` validator and fills in the schema's defaults. */
  function NewRequest(item: Id, requester: Id, quantity: int, startDate: Date, endDate: Date,
                      status: Option<Status>): (res: Result<Request>)
    ensures res.Ok? <==> quantity >= 1
    ensures res.Err? ==> res.error == ValidationFailed
    ensures res.Ok? ==> ValidRequest(res.value)
    ensures res.Ok? ==> res.value.item == item && res.value.requester == requester
                        && res.value.quantity == quantity
                        && res.value.startDate == startDate && res.value.endDate == endDate
    ensures res.Ok? && status.None? ==> res.value.status == Requested
    ensures res.Ok? && status.Some? ==> res.value.status == status.value
    ensures res.Ok? ==> res.value.decisionMaker.None? && res.value.issuedAt.None?
                        && res.value.returnedAt.None?
  {
    if quantity < 1 then Err(ValidationFailed)
    else
      var st := match status case Some(s) => s case None => Requested;
      Ok(Request(item, requester, quantity, startDate, endDate, st, None, None, None))
  }

  /** An equipment item. `quantity` is the total number of units owned. */
  datatype Equipment = Equipment(
    name: string,
    category: string,
    condition: string,
    quantity: int,
    description: string)

  /** The equipment schema's constraints: required strings are non-empty and `quantity` has `min: 0`. */
  predicate ValidEquipment(e: Equipment) {
    e.name != "" && e.category != "" && e.quantity >= 0
  }

  /** `Equipment.create`: runs the schema's validators and fills in its defaults. */
  function NewEquipment(name: string, category: string, condition: Option<string>, quantity: int,
                        description: Option<string>): (res: Result<Equipment>)
    ensures res.Ok? <==> name != "" && category != "" && quantity >= 0
    ensures res.Err? ==> res.error == ValidationFailed
    ensures res.Ok? ==> ValidEquipment(res.value)
    ensures res.Ok? ==> res.value.name == name && res.value.category == category
                        && res.value.quantity == quantity
    ensures res.Ok? && condition.None? ==> res.value.condition == "good"
    ensures res.Ok? && condition.Some? ==> res.value.condition == condition.value
    ensures res.Ok? && description.None? ==> res.value.description == ""
    ensures res.Ok? && description.Some? ==> res.value.description == description.value
  {
    if name == "" || category == "" || quantity < 0 then Err(ValidationFailed)
    else
      var cond := match condition case Some(c) => c case None => "good";
      var desc := match description case Some(d) => d case None => "";
      Ok(Equipment(name, category, cond, quantity, desc))
  }

  /** A notification addressed to one user (the Notification model's `user`, `title`, `message`). */
  datatype Notification = Notification(user: Id, title: string, message: string)
}
