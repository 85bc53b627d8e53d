// The document store the route handlers read and write, held in memory: the
// equipment collection keyed by identity, the request collection in insertion
// order (a request's identity is its position; requests are never deleted),
// and the notification collection. Also the store-wide invariants: what the
// schemas and handler guards keep true of every stored document, and the
// per-item capacity invariant with the lemmas that each kind of write keeps it.
module Store {
  import opened Models
  import opened Availability

  /** The statuses that block deleting an item: `requested`, `approved`, `issued`. */
  predicate IsActive(s: Status) {
    s == Requested || s == Approved || s == Issued
  }

  /** What every stored request satisfies: the schema's minimum quantity, the interval checked
      at creation, an item identity that was issued by the store, and an existing item while active. */
  predicate StoredRequest(r: Request, equipment: map<Id, Equipment>, nextItemId: Id) {
    ValidRequest(r) && r.startDate <= r.endDate && r.item < nextItemId
    && (IsActive(r.status) ==> r.item in equipment)
  }

  predicate StoreInvariant(equipment: map<Id, Equipment>, requests: seq<Request>, nextItemId: Id) {
    (forall id :: id in equipment ==> id < nextItemId && ValidEquipment(equipment[id]))
    && (forall k :: 0 <= k < |requests| ==> StoredRequest(requests[k], equipment, nextItemId))
  }

  /** The capacity invariant: at every instant, the held units of each item fit in its total quantity.
      What is held at instant t is what is booked over the one-instant interval [t, t]. */
  ghost predicate CapacityHolds(equipment: map<Id, Equipment>, requests: seq<Request>) {
    forall item, t :: item in equipment ==> Booked(requests, item, t, t) <= equipment[item].quantity
  }

  class Db {
    var equipment: map<Id, Equipment>
    var requests: seq<Request>
    var notifications: seq<Notification>
    var nextItemId: Id

    ghost predicate Valid()
      reads this
    {
      StoreInvariant(equipment, requests, nextItemId)
    }

    constructor ()
      ensures Valid()
      ensures equipment == map[] && requests == [] && notifications == [] && nextItemId == 0
    {
      equipment := map[];
      requests := [];
      notifications := [];
      nextItemId := 0;
    }
  }

  // ---------------------------------------------------------------------------
  // How each kind of write affects the capacity invariant

  /** Appending a request that holds no capacity keeps the invariant. */
  lemma AddNonHoldingKeepsCapacity(equipment: map<Id, Equipment>, requests: seq<Request>, r: Request)
    requires CapacityHolds(equipment, requests)
    requires !Holds(r.status)
    ensures CapacityHolds(equipment, requests + [r])
  {
    forall item, t | item in equipment
      ensures Booked(requests + [r], item, t, t) <= equipment[item].quantity
    {
      BookedAppend(requests, [r], item, t, t);
      assert Booked([r], item, t, t) == 0 by {
        assert [r][..0] == [];
      }
    }
  }

  /** Rewriting one request into a status that holds capacity only if the old one did
      (reject, issue, return, the overdue mark) keeps the invariant. */
  lemma ReleaseKeepsCapacity(equipment: map<Id, Equipment>, requests: seq<Request>, k: int, x: Request)
    requires CapacityHolds(equipment, requests)
    requires 0 <= k < |requests|
    requires SameBooking(requests[k], x) && x.quantity >= 0
    requires Holds(x.status) ==> Holds(requests[k].status)
    ensures CapacityHolds(equipment, requests[k := x])
  {
    var updated := requests[k := x];
    forall item, t | item in equipment
      ensures Booked(updated, item, t, t) <= equipment[item].quantity
    {
      BookedUpdate(requests, k, x, item, t, t);
    }
  }

  /** Approving: a request that did not hold capacity starts holding it, and its quantity fits in
      what was available over its own interval. Every instant inside that interval then carries at
      most the interval's booking plus the new quantity, which fits in the total; instants outside are
      untouched. */
  lemma ApproveKeepsCapacity(equipment: map<Id, Equipment>, requests: seq<Request>, k: int, x: Request)
    requires CapacityHolds(equipment, requests)
    requires forall j :: 0 <= j < |requests| ==> requests[j].quantity >= 0
    requires 0 <= k < |requests|
    requires SameBooking(requests[k], x) && !Holds(requests[k].status)
    requires x.item in equipment && x.quantity >= 1
    requires x.quantity <= ComputeAvailableQuantity(requests, x.item, Some(equipment[x.item].quantity),
                                                    x.startDate, x.endDate).available
    ensures CapacityHolds(equipment, requests[k := x])
  {
    var updated := requests[k := x];
    forall item, t | item in equipment
      ensures Booked(updated, item, t, t) <= equipment[item].quantity
    {
      BookedUpdate(requests, k, x, item, t, t);
      if Counts(x, item, t, t) {
        BookedWithin(requests, item, x.startDate, x.endDate, t);
      }
    }
  }

  /** A new item that no request refers to starts with nothing held. */
  lemma AddItemKeepsCapacity(equipment: map<Id, Equipment>, requests: seq<Request>, id: Id, e: Equipment)
    requires CapacityHolds(equipment, requests)
    requires forall k :: 0 <= k < |requests| ==> requests[k].item != id
    requires e.quantity >= 0
    ensures CapacityHolds(equipment[id := e], requests)
  {
  }

  /** Removing an item leaves every other item's bookings as they were. */
  lemma RemoveItemKeepsCapacity(equipment: map<Id, Equipment>, requests: seq<Request>, id: Id)
    requires CapacityHolds(equipment, requests)
    ensures CapacityHolds(equipment - {id}, requests)
  {
  }
}
