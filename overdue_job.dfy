// The scheduled overdue sweep: select every `issued` request whose end date is
// strictly before `now`, mark each `overdue`, and write one notification to its
// requester. The scheduler and the clock are outside the model: `now` is a
// parameter (the instant of the run, 09:00 by default) and each run is one call.
module OverdueJob {
  import opened Models
  import opened Availability
  import opened Lifecycle
  import opened Store

  /** The selection query: status `issued` and `endDate < now` (strict). */
  predicate IsDue(r: Request, now: Date) {
    r.status == Issued && r.endDate < now
  }

  /** The identities the query returns, in collection order, each exactly once. */
  function DueIds(requests: seq<Request>, now: Date): (ids: seq<Id>)
    ensures forall j :: 0 <= j < |ids| ==> ids[j] < |requests| && IsDue(requests[ids[j]], now)
    ensures forall k :: 0 <= k < |requests| && IsDue(requests[k], now) ==> k in ids
    ensures forall i, j :: 0 <= i < j < |ids| ==> ids[i] < ids[j]
    ensures (forall k :: 0 <= k < |requests| ==> !IsDue(requests[k], now)) ==> ids == []
    decreases |requests|
  {
    if |requests| == 0 then []
    else
      var last := |requests| - 1;
      DueIds(requests[..last], now) + (if IsDue(requests[last], now) then [last] else [])
  }

  /** One record after the sweep: a due request becomes `overdue`, every other is left alone. */
  function MarkOverdue(r: Request, now: Date): (r': Request)
    ensures r' == r || (Legal(r.status, r'.status) && r'.status == Overdue)
    ensures SameBooking(r, r') && r'.decisionMaker == r.decisionMaker
    ensures r'.issuedAt == r.issuedAt && r'.returnedAt == r.returnedAt
    ensures IsDue(r, now) <==> r' != r
  {
    if IsDue(r, now) then r.(status := Overdue) else r
  }

  /** The request collection after one sweep. */
  function Sweep(requests: seq<Request>, now: Date): (swept: seq<Request>)
    ensures |swept| == |requests|
    ensures forall k :: 0 <= k < |requests| ==> swept[k] == MarkOverdue(requests[k], now)
  {
    seq(|requests|, k requires 0 <= k < |requests| => MarkOverdue(requests[k], now))
  }

  /** `r.item?.name ?? 'item'`: the item's name, or "item" when the item is gone. */
  function ItemLabel(equipment: map<Id, Equipment>, item: Id): string {
    if item in equipment then equipment[item].name else "item"
  }

  /** The text of the overdue notice for an item called `itemName`. */
  function OverdueMessage(itemName: string): string {
    "Your booking for \"" + itemName + "\" is overdue. Please return immediately."
  }

  /** The notification written for one marked request. */
  function OverdueNotice(equipment: map<Id, Equipment>, r: Request): Notification {
    Notification(r.requester, "Overdue equipment", OverdueMessage(ItemLabel(equipment, r.item)))
  }

  /** The notifications written for the requests at `ids`, in that order. */
  function Notices(equipment: map<Id, Equipment>, requests: seq<Request>, ids: seq<Id>): (notes: seq<Notification>)
    requires forall j :: 0 <= j < |ids| ==> ids[j] < |requests|
    ensures |notes| == |ids|
    ensures forall j :: 0 <= j < |ids| ==> notes[j] == OverdueNotice(equipment, requests[ids[j]])
    decreases |ids|
  {
    if |ids| == 0 then []
    else
      var last := |ids| - 1;
      Notices(equipment, requests, ids[..last]) + [OverdueNotice(equipment, requests[ids[last]])]
  }

  /** The loop over the query's documents: mark each selected request `overdue` and write one
      notice to its requester, in selection order. */
  method MarkSelected(requests: seq<Request>, equipment: map<Id, Equipment>, toMark: seq<Id>)
    returns (marked: seq<Request>, notes: seq<Notification>)
    requires forall i :: 0 <= i < |toMark| ==> toMark[i] < |requests|
    ensures marked == MarkAll(requests, toMark)
    ensures notes == Notices(equipment, requests, toMark)
  {
    marked, notes := requests, [];
    for j := 0 to |toMark|
      invariant marked == MarkAll(requests, toMark[..j])
      invariant notes == Notices(equipment, requests, toMark[..j])
    {
      var r := requests[toMark[j]];
      marked := marked[toMark[j] := r.(status := Overdue)];
      notes := notes + [OverdueNotice(equipment, r)];
      assert toMark[..j + 1][..j] == toMark[..j];
    }
    assert toMark[..|toMark|] == toMark;
  }

  /** One run of the cron callback: select the due requests, mark and announce each, and report
      how many were marked. */
  method RunOverdueSweep(db: Db, now: Date) returns (count: nat)
    requires db.Valid()
    modifies db
    ensures db.Valid()
    ensures db.equipment == old(db.equipment) && db.nextItemId == old(db.nextItemId)
    ensures db.requests == Sweep(old(db.requests), now)
    ensures db.notifications == old(db.notifications)
                                + Notices(old(db.equipment), old(db.requests), DueIds(old(db.requests), now))
    ensures count == |DueIds(old(db.requests), now)|
    ensures old(CapacityHolds(db.equipment, db.requests)) ==> CapacityHolds(db.equipment, db.requests)
  {
    var toMark := DueIds(db.requests, now);
    var marked, notes := MarkSelected(db.requests, db.equipment, toMark);
    MarkAllIsSweep(db.requests, now);
    SweepKeepsStoreInvariant(db.equipment, db.requests, db.nextItemId, now);
    if CapacityHolds(db.equipment, db.requests) {
      SweepKeepsCapacity(db.equipment, db.requests, now);
    }
    db.requests := marked;
    db.notifications := db.notifications + notes;
    count := |toMark|;
  }

  /** The collection after the loop has marked the requests at `ids`, in that order. */
  function MarkAll(requests: seq<Request>, ids: seq<Id>): (marked: seq<Request>)
    requires forall i :: 0 <= i < |ids| ==> ids[i] < |requests|
    ensures |marked| == |requests|
    ensures forall k :: 0 <= k < |requests| ==>
              marked[k] == if k in ids then requests[k].(status := Overdue) else requests[k]
    decreases |ids|
  {
    if |ids| == 0 then requests
    else
      var last := |ids| - 1;
      MarkAll(requests, ids[..last])[ids[last] := requests[ids[last]].(status := Overdue)]
  }

  /** Marking every selected identity yields the swept collection. */
  lemma MarkAllIsSweep(requests: seq<Request>, now: Date)
    ensures MarkAll(requests, DueIds(requests, now)) == Sweep(requests, now)
  {
    var ids := DueIds(requests, now);
    forall k | 0 <= k < |requests|
      ensures MarkAll(requests, ids)[k] == Sweep(requests, now)[k]
    {
      assert k in ids <==> IsDue(requests[k], now);
    }
  }

  // ---------------------------------------------------------------------------
  // Properties of the sweep

  lemma SweepKeepsStoreInvariant(equipment: map<Id, Equipment>, requests: seq<Request>, nextItemId: Id, now: Date)
    requires StoreInvariant(equipment, requests, nextItemId)
    ensures StoreInvariant(equipment, Sweep(requests, now), nextItemId)
  {
  }

  /** The sweep moves requests only out of the holding set, so the capacity invariant survives it. */
  lemma SweepKeepsCapacity(equipment: map<Id, Equipment>, requests: seq<Request>, now: Date)
    requires CapacityHolds(equipment, requests)
    requires forall k :: 0 <= k < |requests| ==> requests[k].quantity >= 0
    ensures CapacityHolds(equipment, Sweep(requests, now))
  {
    var swept := Sweep(requests, now);
    forall item, t | item in equipment
      ensures Booked(swept, item, t, t) <= equipment[item].quantity
    {
      SweepNeverRaisesBooked(requests, now, item, t, t);
    }
  }

  /** After a sweep, no query books more than before, so `available` can only grow. */
  lemma SweepNeverRaisesBooked(requests: seq<Request>, now: Date, item: Id, qStart: Date, qEnd: Date)
    requires forall k :: 0 <= k < |requests| ==> requests[k].quantity >= 0
    ensures Booked(Sweep(requests, now), item, qStart, qEnd) <= Booked(requests, item, qStart, qEnd)
  {
    var swept := Sweep(requests, now);
    forall k | 0 <= k < |requests|
      ensures Contribution(swept[k], item, qStart, qEnd) <= Contribution(requests[k], item, qStart, qEnd)
    {
    }
    BookedDominated(swept, requests, item, qStart, qEnd, item, qStart, qEnd);
  }

  /** A booking entered with a date-only end `d` ends at midnight of `d`, so any run later that
      same day (the 09:00 run, say) already marks it overdue, although a date-only availability
      query for day `d` still counts its units as booked. */
  lemma DueDuringItsLastBookedDay(r: Request, d: int, now: Date)
    requires r.status == Issued && r.quantity >= 0
    requires r.startDate <= r.endDate == Midnight(d)
    requires Midnight(d) < now < Midnight(d + 1)
    ensures IsDue(r, now)
    ensures Contribution(r, r.item, Midnight(d), Midnight(d)) == r.quantity
    ensures IsDue(r, Midnight(d) + 9 * MsPerHour)
  {
  }

  /** Exactly the due requests change, each to `overdue`; `issued` ones not yet past due stay `issued`. */
  lemma SweepChangesExactlyTheDue(requests: seq<Request>, now: Date, k: int)
    requires 0 <= k < |requests|
    ensures IsDue(requests[k], now) ==> Sweep(requests, now)[k].status == Overdue
    ensures !IsDue(requests[k], now) ==> Sweep(requests, now)[k] == requests[k]
    ensures requests[k].status == Issued && requests[k].endDate >= now ==> Sweep(requests, now)[k].status == Issued
  {
  }

  /** A second sweep at the same `now` selects nothing, changes nothing and writes no notification. */
  lemma SweepIdempotent(equipment: map<Id, Equipment>, requests: seq<Request>, now: Date)
    ensures DueIds(Sweep(requests, now), now) == []
    ensures Sweep(Sweep(requests, now), now) == Sweep(requests, now)
    ensures Notices(equipment, Sweep(requests, now), DueIds(Sweep(requests, now), now)) == []
  {
    var swept := Sweep(requests, now);
    assert forall k :: 0 <= k < |swept| ==> !IsDue(swept[k], now);
  }

  /** One notification per marked request, in selection order, addressed to that request's requester
      (so to nobody who has no overdue request), titled "Overdue equipment" and naming the item. */
  lemma NoticesGoToRequesters(equipment: map<Id, Equipment>, requests: seq<Request>, now: Date)
    ensures var ids := DueIds(requests, now);
            var notes := Notices(equipment, requests, ids);
            |notes| == |ids|
            && forall j :: 0 <= j < |ids| ==>
                 IsDue(requests[ids[j]], now)
                 && notes[j] == Notification(requests[ids[j]].requester, "Overdue equipment",
                                             OverdueMessage(ItemLabel(equipment, requests[ids[j]].item)))
  {
  }

  /** In a consistent store every marked request's item still exists, so the message names it. */
  lemma NoticesNameTheItem(equipment: map<Id, Equipment>, requests: seq<Request>, nextItemId: Id, now: Date)
    requires StoreInvariant(equipment, requests, nextItemId)
    ensures var ids := DueIds(requests, now);
            forall j :: 0 <= j < |ids| ==>
              requests[ids[j]].item in equipment
              && ItemLabel(equipment, requests[ids[j]].item) == equipment[requests[ids[j]].item].name
  {
    var ids := DueIds(requests, now);
    forall j | 0 <= j < |ids|
      ensures requests[ids[j]].item in equipment
    {
      assert StoredRequest(requests[ids[j]], equipment, nextItemId);
    }
  }
}
