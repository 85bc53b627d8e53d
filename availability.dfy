// The availability calculation: how many units of one item are committed by
// capacity-holding requests whose date interval overlaps a query interval, and
// how many remain free. It only reads the request collection.
module Availability {
  import opened Models

  /** The capacity-holding statuses. `requested` and `overdue` do not hold capacity here. */
  predicate Holds(s: Status) {
    s == Approved || s == Issued
  }

  /** The store's overlap match: inclusive at both ends, so [1,5] and [5,10] overlap. */
  predicate Overlaps(startDate: Date, endDate: Date, qStart: Date, qEnd: Date) {
    startDate <= qEnd && endDate >= qStart
  }

  /** The aggregation's match stage: this item, a holding status, an overlapping interval. */
  predicate Counts(r: Request, item: Id, qStart: Date, qEnd: Date) {
    r.item == item && Holds(r.status) && Overlaps(r.startDate, r.endDate, qStart, qEnd)
  }

  /** What one request adds to the group's `$sum` of quantities. */
  function Contribution(r: Request, item: Id, qStart: Date, qEnd: Date): int {
    if Counts(r, item, qStart, qEnd) then r.quantity else 0
  }

  /** `booked`: the summed quantity of the matching requests, 0 when the match is empty. */
  function Booked(requests: seq<Request>, item: Id, qStart: Date, qEnd: Date): (booked: int)
    ensures (forall k :: 0 <= k < |requests| ==> requests[k].quantity >= 0) ==> booked >= 0
    ensures (forall k :: 0 <= k < |requests| ==> !Counts(requests[k], item, qStart, qEnd)) ==> booked == 0
    decreases |requests|
  {
    if |requests| == 0 then 0
    else
      var last := |requests| - 1;
      Booked(requests[..last], item, qStart, qEnd) + Contribution(requests[last], item, qStart, qEnd)
  }

  /** `equipmentTotalQty || 0`: a missing total reads as 0. */
  function TotalOrZero(total: Option<int>): int {
    match total
    case Some(t) => t
    case None => 0
  }

  /** `Math.max(0, (equipmentTotalQty || 0) - booked)`. */
  function AvailableFrom(total: Option<int>, booked: int): (available: int)
    ensures available >= 0
    ensures available >= TotalOrZero(total) - booked
    ensures available == 0 || available == TotalOrZero(total) - booked
  {
    var free := TotalOrZero(total) - booked;
    if free > 0 then free else 0
  }

  datatype Availability = Availability(booked: int, available: int)

  /** computeAvailableQuantity(item, total, qStart, qEnd) over the current requests. */
  function ComputeAvailableQuantity(requests: seq<Request>, item: Id, total: Option<int>,
                                    qStart: Date, qEnd: Date): (res: Availability)
    ensures res.booked == Booked(requests, item, qStart, qEnd)
    ensures res.available == AvailableFrom(total, res.booked)
  {
    var booked := Booked(requests, item, qStart, qEnd);
    Availability(booked, AvailableFrom(total, booked))
  }

  // ---------------------------------------------------------------------------
  // Properties of the calculation

  /** `available` is never negative, and never above a non-negative total when quantities are non-negative. */
  lemma AvailableBounds(requests: seq<Request>, item: Id, total: Option<int>, qStart: Date, qEnd: Date)
    ensures ComputeAvailableQuantity(requests, item, total, qStart, qEnd).available >= 0
    ensures (forall k :: 0 <= k < |requests| ==> requests[k].quantity >= 0) && TotalOrZero(total) >= 0
            ==> ComputeAvailableQuantity(requests, item, total, qStart, qEnd).available <= TotalOrZero(total)
  {
  }

  /** A missing or zero total leaves nothing available when quantities are non-negative. */
  lemma NoTotalNothingAvailable(requests: seq<Request>, item: Id, total: Option<int>, qStart: Date, qEnd: Date)
    requires total == None || total == Some(0)
    requires forall k :: 0 <= k < |requests| ==> requests[k].quantity >= 0
    ensures ComputeAvailableQuantity(requests, item, total, qStart, qEnd).available == 0
  {
  }

  /** With nothing matching, the whole non-negative total is available. */
  lemma NothingBookedAllAvailable(requests: seq<Request>, item: Id, total: int, qStart: Date, qEnd: Date)
    requires total >= 0
    requires forall k :: 0 <= k < |requests| ==> !Counts(requests[k], item, qStart, qEnd)
    ensures ComputeAvailableQuantity(requests, item, Some(total), qStart, qEnd) == Availability(0, total)
  {
  }

  /** Instant `t` lies in the closed interval [startDate, endDate]. */
  predicate Contains(startDate: Date, endDate: Date, t: Date) {
    startDate <= t <= endDate
  }

  /** Two closed, well-formed intervals pass the overlap test exactly when they share an instant. */
  lemma OverlapsIffSharedInstant(startDate: Date, endDate: Date, qStart: Date, qEnd: Date)
    requires startDate <= endDate && qStart <= qEnd
    ensures Overlaps(startDate, endDate, qStart, qEnd)
            <==> exists t :: Contains(startDate, endDate, t) && Contains(qStart, qEnd, t)
  {
    if Overlaps(startDate, endDate, qStart, qEnd) {
      var t := if startDate >= qStart then startDate else qStart;
      assert Contains(startDate, endDate, t) && Contains(qStart, qEnd, t);
    }
  }

  /** Booking is additive over concatenated collections. */
  lemma {:induction false} BookedAppend(a: seq<Request>, b: seq<Request>, item: Id, qStart: Date, qEnd: Date)
    ensures Booked(a + b, item, qStart, qEnd) == Booked(a, item, qStart, qEnd) + Booked(b, item, qStart, qEnd)
    decreases |b|
  {
    if |b| == 0 {
      assert a + b == a;
    } else {
      var last := |b| - 1;
      assert (a + b)[..|a + b| - 1] == a + b[..last];
      assert (a + b)[|a + b| - 1] == b[last];
      BookedAppend(a, b[..last], item, qStart, qEnd);
    }
  }

  /** Replacing one request changes `booked` by exactly the difference of the two contributions. */
  lemma {:induction false} BookedUpdate(requests: seq<Request>, k: int, x: Request, item: Id, qStart: Date, qEnd: Date)
    requires 0 <= k < |requests|
    ensures Booked(requests[k := x], item, qStart, qEnd)
            == Booked(requests, item, qStart, qEnd)
               - Contribution(requests[k], item, qStart, qEnd) + Contribution(x, item, qStart, qEnd)
    decreases |requests|
  {
    var last := |requests| - 1;
    if k == last {
      assert requests[k := x][..last] == requests[..last];
    } else {
      assert requests[k := x][..last] == requests[..last][k := x];
      BookedUpdate(requests[..last], k, x, item, qStart, qEnd);
    }
  }

  /** If every request of `a` contributes at most what the request at the same place in `b` does
      (possibly for another item or interval), `a` books at most what `b` books. */
  lemma {:induction false} BookedDominated(a: seq<Request>, b: seq<Request>,
                                           itemA: Id, startA: Date, endA: Date,
                                           itemB: Id, startB: Date, endB: Date)
    requires |a| == |b|
    requires forall k :: 0 <= k < |a| ==> Contribution(a[k], itemA, startA, endA) <= Contribution(b[k], itemB, startB, endB)
    ensures Booked(a, itemA, startA, endA) <= Booked(b, itemB, startB, endB)
    decreases |a|
  {
    if |a| > 0 {
      var last := |a| - 1;
      BookedDominated(a[..last], b[..last], itemA, startA, endA, itemB, startB, endB);
    }
  }

  /** What is held at any instant inside an interval is at most what is booked over the whole interval. */
  lemma BookedWithin(requests: seq<Request>, item: Id, qStart: Date, qEnd: Date, t: Date)
    requires forall k :: 0 <= k < |requests| ==> requests[k].quantity >= 0
    requires qStart <= t <= qEnd
    ensures Booked(requests, item, t, t) <= Booked(requests, item, qStart, qEnd)
  {
    forall k | 0 <= k < |requests|
      ensures Contribution(requests[k], item, t, t) <= Contribution(requests[k], item, qStart, qEnd)
    {
    }
    BookedDominated(requests, requests, item, t, t, item, qStart, qEnd);
  }

  /** Adding a request never raises `available`; adding one that does not match leaves it unchanged. */
  lemma AddingRequestNeverRaisesAvailable(requests: seq<Request>, r: Request, item: Id, total: Option<int>,
                                          qStart: Date, qEnd: Date)
    requires r.quantity >= 0
    ensures ComputeAvailableQuantity(requests + [r], item, total, qStart, qEnd).available
            <= ComputeAvailableQuantity(requests, item, total, qStart, qEnd).available
    ensures !Counts(r, item, qStart, qEnd) ==>
            ComputeAvailableQuantity(requests + [r], item, total, qStart, qEnd)
            == ComputeAvailableQuantity(requests, item, total, qStart, qEnd)
  {
    BookedAppend(requests, [r], item, qStart, qEnd);
    assert Booked([r], item, qStart, qEnd) == Contribution(r, item, qStart, qEnd) by {
      assert [r][..0] == [];
    }
  }

  /** Fewer units booked never means fewer available. */
  lemma AvailableAntitone(total: Option<int>, b1: int, b2: int)
    requires b1 <= b2
    ensures AvailableFrom(total, b2) <= AvailableFrom(total, b1)
  {
  }

  // ---------------------------------------------------------------------------
  // Worked scenarios

  /** Item of 5 units, one approved booking of 3 over [1,10]: [5,15] sees 3 booked and 2 free;
      [20,25] sees nothing booked. */
  lemma ScenarioOneApprovedBooking(item: Id, requester: Id)
    ensures var held := [Request(item, requester, 3, 1, 10, Approved, None, None, None)];
            ComputeAvailableQuantity(held, item, Some(5), 5, 15) == Availability(3, 2)
            && ComputeAvailableQuantity(held, item, Some(5), 20, 25) == Availability(0, 5)
  {
    var held := [Request(item, requester, 3, 1, 10, Approved, None, None, None)];
    assert held[..0] == [];
  }

  /** A booking ending at the query's first instant still counts: [1,5] against [5,10]. */
  lemma SameDayHandoverIsContested(item: Id, requester: Id)
    ensures Booked([Request(item, requester, 2, 1, 5, Issued, None, None, None)], item, 5, 10) == 2
  {
    var held := [Request(item, requester, 2, 1, 5, Issued, None, None, None)];
    assert held[..0] == [];
  }

  /** A reversed query interval is not treated as empty: [1,10] still matches a query from 7 back to 3. */
  lemma ReversedQueryStillMatches(item: Id, requester: Id)
    ensures Booked([Request(item, requester, 4, 1, 10, Approved, None, None, None)], item, 7, 3) == 4
  {
    var held := [Request(item, requester, 4, 1, 10, Approved, None, None, None)];
    assert held[..0] == [];
  }
}
