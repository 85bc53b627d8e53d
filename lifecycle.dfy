// The request lifecycle: the transition table and the guard-and-update step of
// each staff action on one request record. The handlers that load and save
// the record live in module RequestRoutes.
module Lifecycle {
  import opened Models
  import opened Availability

  /** The transition table: which status each action may move a request into, and from where. */
  predicate Legal(from: Status, to: Status) {
    match to
    case Approved => from == Requested
    case Rejected => from == Requested || from == Approved
    case Issued => from == Approved
    case Returned => from == Issued || from == Overdue
    case Overdue => from == Issued
    case Requested => false
  }

  /** `returned` and `rejected` are final. */
  predicate Terminal(s: Status) {
    s == Returned || s == Rejected
  }

  /** Only the record's status, decision maker and the given timestamps change. */
  predicate Rewritten(r: Request, r': Request, status: Status, actor: Id) {
    SameBooking(r, r') && r'.status == status && r'.decisionMaker == Some(actor)
  }

  /** PATCH /:id/approve after the lookup: only from `requested`, and only if the quantity fits. */
  function Approve(r: Request, available: int, actor: Id): (res: Result<Request>)
    ensures res.Ok? <==> Legal(r.status, Approved) && r.quantity <= available
    ensures !Legal(r.status, Approved) ==> res == Err(InvalidTransition)
    ensures Legal(r.status, Approved) && r.quantity > available ==> res == Err(CapacityExceeded(available))
    ensures res.Ok? ==> Rewritten(r, res.value, Approved, actor)
                        && res.value.issuedAt == r.issuedAt && res.value.returnedAt == r.returnedAt
  {
    if r.status != Requested then Err(InvalidTransition)
    else if r.quantity > available then Err(CapacityExceeded(available))
    else Ok(r.(status := Approved, decisionMaker := Some(actor)))
  }

  /** PATCH /:id/reject after the lookup: only from `requested` or `approved`. */
  function Reject(r: Request, actor: Id): (res: Result<Request>)
    ensures res.Ok? <==> Legal(r.status, Rejected)
    ensures res.Err? ==> res.error == InvalidTransition
    ensures res.Ok? ==> Rewritten(r, res.value, Rejected, actor)
                        && res.value.issuedAt == r.issuedAt && res.value.returnedAt == r.returnedAt
  {
    if !(r.status == Requested || r.status == Approved) then Err(InvalidTransition)
    else Ok(r.(status := Rejected, decisionMaker := Some(actor)))
  }

  /** PATCH /:id/issue after the lookup: only from `approved`; stamps `issuedAt`. */
  function Issue(r: Request, actor: Id, now: Date): (res: Result<Request>)
    ensures res.Ok? <==> Legal(r.status, Issued)
    ensures res.Err? ==> res.error == InvalidTransition
    ensures res.Ok? ==> Rewritten(r, res.value, Issued, actor)
                        && res.value.issuedAt == Some(now) && res.value.returnedAt == r.returnedAt
  {
    if r.status != Approved then Err(InvalidTransition)
    else Ok(r.(status := Issued, issuedAt := Some(now), decisionMaker := Some(actor)))
  }

  /** PATCH /:id/return after the lookup: only from `issued` or `overdue`; stamps `returnedAt`. */
  function Return(r: Request, actor: Id, now: Date): (res: Result<Request>)
    ensures res.Ok? <==> Legal(r.status, Returned)
    ensures res.Err? ==> res.error == InvalidTransition
    ensures res.Ok? ==> Rewritten(r, res.value, Returned, actor)
                        && res.value.returnedAt == Some(now) && res.value.issuedAt == r.issuedAt
  {
    if !(r.status == Issued || r.status == Overdue) then Err(InvalidTransition)
    else Ok(r.(status := Returned, returnedAt := Some(now), decisionMaker := Some(actor)))
  }

  /** A status is final exactly when the table has no way out of it. */
  lemma TerminalIffNoWayOut(s: Status)
    ensures Terminal(s) <==> forall to: Status :: !Legal(s, to)
  {
    if !Terminal(s) {
      var to := match s
        case Requested => Approved
        case Approved => Issued
        case Issued => Returned
        case Overdue => Returned
        case _ => Approved;
      assert Legal(s, to);
    }
  }

  /** No staff action succeeds on a returned or rejected request. */
  lemma TerminalRequestsAreFinal(r: Request, available: int, actor: Id, now: Date)
    requires Terminal(r.status)
    ensures Approve(r, available, actor) == Err(InvalidTransition)
    ensures Reject(r, actor) == Err(InvalidTransition)
    ensures Issue(r, actor, now) == Err(InvalidTransition)
    ensures Return(r, actor, now) == Err(InvalidTransition)
  {
  }

  /** Approve is the only action that moves a request into the holding set; the others keep it or release it. */
  lemma OnlyApproveAcquiresCapacity(r: Request, available: int, actor: Id, now: Date)
    ensures Approve(r, available, actor).Ok? ==> !Holds(r.status) && Holds(Approve(r, available, actor).value.status)
    ensures Reject(r, actor).Ok? ==> !Holds(Reject(r, actor).value.status)
    ensures Issue(r, actor, now).Ok? ==> Holds(r.status) && Holds(Issue(r, actor, now).value.status)
    ensures Return(r, actor, now).Ok? ==> !Holds(Return(r, actor, now).value.status)
  {
  }
}
