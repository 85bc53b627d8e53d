// The request handlers: POST / creates a request, and the four PATCH actions
// load one request, check its guard, and save the rewritten record. Every
// guard is checked before anything is written; handlers run one at a time.
module RequestRoutes {
  import opened Models
  import opened Availability
  import opened Lifecycle
  import opened Store

  /** POST /: validate (an integer quantity from 1 up to the largest safe JavaScript integer),
      check the interval, find the item, check capacity, then store a new `requested` request
      owned by the caller. Its identity is its position in the collection. */
  method PostRequest(db: Db, caller: Id, itemId: Id, quantity: int, startDate: Date, endDate: Date)
    returns (res: Result<Request>)
    requires db.Valid()
    modifies db
    ensures db.Valid()
    ensures db.equipment == old(db.equipment) && db.notifications == old(db.notifications)
    ensures db.nextItemId == old(db.nextItemId)
    ensures !(1 <= quantity <= MaxSafeInteger) ==> res == Err(ValidationFailed)
    ensures 1 <= quantity <= MaxSafeInteger && endDate < startDate ==> res == Err(InvalidInterval)
    ensures 1 <= quantity <= MaxSafeInteger && startDate <= endDate && itemId !in old(db.equipment) ==>
              res == Err(NotFound)
    ensures 1 <= quantity <= MaxSafeInteger && startDate <= endDate && itemId in old(db.equipment) ==>
              var available := ComputeAvailableQuantity(old(db.requests), itemId,
                                 Some(old(db.equipment)[itemId].quantity), startDate, endDate).available;
              res == if quantity > available then Err(CapacityExceeded(available))
                     else Ok(Request(itemId, caller, quantity, startDate, endDate, Requested, None, None, None))
    ensures res.Ok? ==> db.requests == old(db.requests) + [res.value]
    ensures res.Err? ==> db.requests == old(db.requests)
    ensures old(CapacityHolds(db.equipment, db.requests)) ==> CapacityHolds(db.equipment, db.requests)
  {
    if quantity < 1 || quantity > MaxSafeInteger {
      return Err(ValidationFailed);
    }
    if endDate < startDate {
      return Err(InvalidInterval);
    }
    if itemId !in db.equipment {
      return Err(NotFound);
    }
    var item := db.equipment[itemId];
    var availability := ComputeAvailableQuantity(db.requests, itemId, Some(item.quantity), startDate, endDate);
    if quantity > availability.available {
      return Err(CapacityExceeded(availability.available));
    }
    var created := NewRequest(itemId, caller, quantity, startDate, endDate, Some(Requested));
    if old(CapacityHolds(db.equipment, db.requests)) {
      AddNonHoldingKeepsCapacity(db.equipment, db.requests, created.value);
    }
    db.requests := db.requests + [created.value];
    res := Ok(created.value);
  }

  /** PATCH /:id/approve: only a `requested` request, and only if its quantity still fits in what
      is available over its own interval, against the item's current total. */
  method PatchApprove(db: Db, id: Id, actor: Id) returns (res: Result<Request>)
    requires db.Valid()
    modifies db
    ensures db.Valid()
    ensures db.equipment == old(db.equipment) && db.notifications == old(db.notifications)
    ensures db.nextItemId == old(db.nextItemId)
    ensures id >= |old(db.requests)| ==> res == Err(NotFound)
    ensures id < |old(db.requests)| && old(db.requests)[id].status != Requested ==> res == Err(InvalidTransition)
    ensures id < |old(db.requests)| && old(db.requests)[id].status == Requested ==>
              var r := old(db.requests)[id];
              r.item in old(db.equipment)
              && res == Approve(r, ComputeAvailableQuantity(old(db.requests), r.item,
                                   Some(old(db.equipment)[r.item].quantity), r.startDate, r.endDate).available, actor)
    ensures res.Ok? ==> db.requests == old(db.requests)[id := res.value]
    ensures res.Err? ==> db.requests == old(db.requests)
    ensures old(CapacityHolds(db.equipment, db.requests)) ==> CapacityHolds(db.equipment, db.requests)
  {
    if id >= |db.requests| {
      return Err(NotFound);
    }
    var r := db.requests[id];
    if r.status != Requested {
      return Err(InvalidTransition);
    }
    var item := db.equipment[r.item];
    var availability := ComputeAvailableQuantity(db.requests, r.item, Some(item.quantity), r.startDate, r.endDate);
    if r.quantity > availability.available {
      return Err(CapacityExceeded(availability.available));
    }
    var approved := r.(status := Approved, decisionMaker := Some(actor));
    if old(CapacityHolds(db.equipment, db.requests)) {
      ApproveKeepsCapacity(db.equipment, db.requests, id, approved);
    }
    db.requests := db.requests[id := approved];
    res := Ok(approved);
  }

  /** PATCH /:id/reject: only a `requested` or `approved` request. */
  method PatchReject(db: Db, id: Id, actor: Id) returns (res: Result<Request>)
    requires db.Valid()
    modifies db
    ensures db.Valid()
    ensures db.equipment == old(db.equipment) && db.notifications == old(db.notifications)
    ensures db.nextItemId == old(db.nextItemId)
    ensures res == if id < |old(db.requests)| then Reject(old(db.requests)[id], actor) else Err(NotFound)
    ensures res.Ok? ==> db.requests == old(db.requests)[id := res.value]
    ensures res.Err? ==> db.requests == old(db.requests)
    ensures old(CapacityHolds(db.equipment, db.requests)) ==> CapacityHolds(db.equipment, db.requests)
  {
    if id >= |db.requests| {
      return Err(NotFound);
    }
    var r := db.requests[id];
    if !(r.status == Requested || r.status == Approved) {
      return Err(InvalidTransition);
    }
    var rejected := r.(status := Rejected, decisionMaker := Some(actor));
    if old(CapacityHolds(db.equipment, db.requests)) {
      ReleaseKeepsCapacity(db.equipment, db.requests, id, rejected);
    }
    db.requests := db.requests[id := rejected];
    res := Ok(rejected);
  }

  /** PATCH /:id/issue: only an `approved` request; `issuedAt` is the time of the call. */
  method PatchIssue(db: Db, id: Id, actor: Id, now: Date) returns (res: Result<Request>)
    requires db.Valid()
    modifies db
    ensures db.Valid()
    ensures db.equipment == old(db.equipment) && db.notifications == old(db.notifications)
    ensures db.nextItemId == old(db.nextItemId)
    ensures res == if id < |old(db.requests)| then Issue(old(db.requests)[id], actor, now) else Err(NotFound)
    ensures res.Ok? ==> db.requests == old(db.requests)[id := res.value]
    ensures res.Err? ==> db.requests == old(db.requests)
    ensures old(CapacityHolds(db.equipment, db.requests)) ==> CapacityHolds(db.equipment, db.requests)
  {
    if id >= |db.requests| {
      return Err(NotFound);
    }
    var r := db.requests[id];
    if r.status != Approved {
      return Err(InvalidTransition);
    }
    var issued := r.(status := Issued, issuedAt := Some(now), decisionMaker := Some(actor));
    if old(CapacityHolds(db.equipment, db.requests)) {
      ReleaseKeepsCapacity(db.equipment, db.requests, id, issued);
    }
    db.requests := db.requests[id := issued];
    res := Ok(issued);
  }

  /** PATCH /:id/return: only an `issued` or `overdue` request; `returnedAt` is the time of the call. */
  method PatchReturn(db: Db, id: Id, actor: Id, now: Date) returns (res: Result<Request>)
    requires db.Valid()
    modifies db
    ensures db.Valid()
    ensures db.equipment == old(db.equipment) && db.notifications == old(db.notifications)
    ensures db.nextItemId == old(db.nextItemId)
    ensures res == if id < |old(db.requests)| then Return(old(db.requests)[id], actor, now) else Err(NotFound)
    ensures res.Ok? ==> db.requests == old(db.requests)[id := res.value]
    ensures res.Err? ==> db.requests == old(db.requests)
    ensures old(CapacityHolds(db.equipment, db.requests)) ==> CapacityHolds(db.equipment, db.requests)
  {
    if id >= |db.requests| {
      return Err(NotFound);
    }
    var r := db.requests[id];
    if !(r.status == Issued || r.status == Overdue) {
      return Err(InvalidTransition);
    }
    var returned := r.(status := Returned, returnedAt := Some(now), decisionMaker := Some(actor));
    if old(CapacityHolds(db.equipment, db.requests)) {
      ReleaseKeepsCapacity(db.equipment, db.requests, id, returned);
    }
    db.requests := db.requests[id := returned];
    res := Ok(returned);
  }

  /** Two requests for the same 5-unit item asking for 3 units each over overlapping periods: once the
      first is approved, approving the second is refused, reporting the 2 units still available. */
  lemma ScenarioSecondApprovalRefused(item: Id, alice: Id, bob: Id, staff: Id)
    ensures var first := Request(item, alice, 3, 1, 10, Requested, None, None, None);
            var second := Request(item, bob, 3, 5, 15, Requested, None, None, None);
            var approved := Approve(first, ComputeAvailableQuantity([first, second], item, Some(5), 1, 10).available, staff);
            approved.Ok?
            && Approve(second, ComputeAvailableQuantity([approved.value, second], item, Some(5), 5, 15).available, staff)
               == Err(CapacityExceeded(2))
  {
    var first := Request(item, alice, 3, 1, 10, Requested, None, None, None);
    var second := Request(item, bob, 3, 5, 15, Requested, None, None, None);
    assert [first, second][..1] == [first] && [first][..0] == [];
    assert Booked([first, second], item, 1, 10) == 0;
    var approved := first.(status := Approved, decisionMaker := Some(staff));
    assert Approve(first, 5, staff) == Ok(approved);
    assert [approved, second][..1] == [approved] && [approved][..0] == [];
    assert Booked([approved], item, 5, 15) == 3;
    assert Booked([approved, second], item, 5, 15) == 3;
  }
}
