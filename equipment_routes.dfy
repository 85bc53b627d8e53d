// The equipment handlers: the payload schema shared by create and update, the
// listing with its optional "available in this period" filter, and the delete
// guard that protects items with active requests.
module EquipmentRoutes {
  import opened Models
  import opened Availability
  import opened Store

  /** A create or update body as received. */
  datatype Payload = Payload(
    name: string,
    category: string,
    condition: Option<string>,
    quantity: int,
    description: Option<string>)

  /** The length of a string in UTF-16 code units, which is what Joi's `min` counts: a character
      outside the Basic Multilingual Plane (code point 0x10000 or above) takes two units. */
  function Utf16Length(s: string): (n: nat)
    ensures |s| <= n <= 2 * |s|
    ensures (forall i :: 0 <= i < |s| ==> (s[i] as int) < 0x10000) ==> n == |s|
    decreases |s|
  {
    if |s| == 0 then 0
    else
      var last := |s| - 1;
      Utf16Length(s[..last]) + (if (s[last] as int) >= 0x10000 then 2 else 1)
  }

  /** The payload schema: `name` at least 2 UTF-16 units long, `category` and a given `condition`
      non-empty, `quantity` an integer from 0 up to the largest safe JavaScript integer,
      `description` any string; a missing `condition` becomes "good". */
  function ValidatePayload(p: Payload): (res: Result<Payload>)
    ensures res.Ok? <==> Utf16Length(p.name) >= 2 && p.category != "" && 0 <= p.quantity <= MaxSafeInteger
                         && (p.condition.Some? ==> p.condition.value != "")
    ensures res.Err? ==> res.error == ValidationFailed
    ensures res.Ok? ==> res.value.name == p.name && res.value.category == p.category
                        && res.value.quantity == p.quantity && res.value.description == p.description
    ensures res.Ok? && p.condition.Some? ==> res.value.condition == p.condition
    ensures res.Ok? && p.condition.None? ==> res.value.condition == Some("good")
  {
    if Utf16Length(p.name) < 2 || p.category == "" || p.quantity < 0 || p.quantity > MaxSafeInteger then
      Err(ValidationFailed)
    else
      match p.condition
      case Some(c) => if c == "" then Err(ValidationFailed) else Ok(p)
      case None => Ok(p.(condition := Some("good")))
  }

  /** The stored item after an update sets every field the validated payload carries;
      a `description` left out of the payload keeps its stored value. */
  function ApplyUpdate(e: Equipment, p: Payload): (e': Equipment)
    ensures e'.name == p.name && e'.category == p.category && e'.quantity == p.quantity
    ensures p.condition.Some? ==> e'.condition == p.condition.value
    ensures p.condition.None? ==> e'.condition == e.condition
    ensures p.description.Some? ==> e'.description == p.description.value
    ensures p.description.None? ==> e'.description == e.description
    ensures ValidatePayload(p).Ok? ==> ValidEquipment(e')
  {
    Equipment(p.name, p.category,
              match p.condition case Some(c) => c case None => e.condition,
              p.quantity,
              match p.description case Some(d) => d case None => e.description)
  }

  /** POST /: validate the payload, then create the item under a fresh identity. */
  method PostEquipment(db: Db, p: Payload) returns (res: Result<Id>)
    requires db.Valid()
    modifies db
    ensures db.Valid()
    ensures db.requests == old(db.requests) && db.notifications == old(db.notifications)
    ensures ValidatePayload(p).Err? ==>
              res == Err(ValidationFailed) && db.equipment == old(db.equipment) && db.nextItemId == old(db.nextItemId)
    ensures ValidatePayload(p).Ok? ==>
              var v := ValidatePayload(p).value;
              var created := NewEquipment(v.name, v.category, v.condition, v.quantity, v.description);
              created.Ok? && old(db.nextItemId) !in old(db.equipment)
              && res == Ok(old(db.nextItemId)) && db.nextItemId == old(db.nextItemId) + 1
              && db.equipment == old(db.equipment)[old(db.nextItemId) := created.value]
    ensures old(CapacityHolds(db.equipment, db.requests)) ==> CapacityHolds(db.equipment, db.requests)
  {
    var payload := ValidatePayload(p);
    if payload.Err? {
      return Err(ValidationFailed);
    }
    var v := payload.value;
    var created := NewEquipment(v.name, v.category, v.condition, v.quantity, v.description);
    var id := db.nextItemId;
    if CapacityHolds(db.equipment, db.requests) {
      AddItemKeepsCapacity(db.equipment, db.requests, id, created.value);
    }
    db.equipment := db.equipment[id := created.value];
    db.nextItemId := id + 1;
    res := Ok(id);
  }

  /** PUT /:id: validate the payload, then update the item if it exists; an unknown identity
      answers with no item and changes nothing. No capacity check is made, so shrinking an
      item's quantity below what is already held is accepted. */
  method PutEquipment(db: Db, id: Id, p: Payload) returns (res: Result<Option<Equipment>>)
    requires db.Valid()
    modifies db
    ensures db.Valid()
    ensures db.requests == old(db.requests) && db.notifications == old(db.notifications)
    ensures db.nextItemId == old(db.nextItemId)
    ensures ValidatePayload(p).Err? ==> res == Err(ValidationFailed) && db.equipment == old(db.equipment)
    ensures ValidatePayload(p).Ok? && id !in old(db.equipment) ==> res == Ok(None) && db.equipment == old(db.equipment)
    ensures ValidatePayload(p).Ok? && id in old(db.equipment) ==>
              var updated := ApplyUpdate(old(db.equipment)[id], ValidatePayload(p).value);
              res == Ok(Some(updated)) && db.equipment == old(db.equipment)[id := updated]
  {
    var payload := ValidatePayload(p);
    if payload.Err? {
      return Err(ValidationFailed);
    }
    if id !in db.equipment {
      return Ok(None);
    }
    var updated := ApplyUpdate(db.equipment[id], payload.value);
    db.equipment := db.equipment[id := updated];
    res := Ok(Some(updated));
  }

  /** The count of requests for `item` in a status that blocks deletion. */
  function ActiveCount(requests: seq<Request>, item: Id): (n: nat)
    ensures n <= |requests|
    ensures n > 0 <==> exists k :: 0 <= k < |requests| && requests[k].item == item && IsActive(requests[k].status)
    decreases |requests|
  {
    if |requests| == 0 then 0
    else
      var last := |requests| - 1;
      ActiveCount(requests[..last], item)
      + (if requests[last].item == item && IsActive(requests[last].status) then 1 else 0)
  }

  /** DELETE /:id: refused while any request for the item is `requested`, `approved` or `issued`;
      otherwise the item is removed (removing an unknown identity is a no-op that still succeeds). */
  method DeleteEquipment(db: Db, id: Id) returns (res: Result<()>)
    requires db.Valid()
    modifies db
    ensures db.Valid()
    ensures db.requests == old(db.requests) && db.notifications == old(db.notifications)
    ensures db.nextItemId == old(db.nextItemId)
    ensures ActiveCount(old(db.requests), id) > 0 ==> res == Err(ActiveRequests) && db.equipment == old(db.equipment)
    ensures ActiveCount(old(db.requests), id) == 0 ==> res == Ok(()) && db.equipment == old(db.equipment) - {id}
    ensures old(CapacityHolds(db.equipment, db.requests)) ==> CapacityHolds(db.equipment, db.requests)
  {
    var active := ActiveCount(db.requests, id);
    if active > 0 {
      return Err(ActiveRequests);
    }
    if CapacityHolds(db.equipment, db.requests) {
      RemoveItemKeepsCapacity(db.equipment, db.requests, id);
    }
    db.equipment := db.equipment - {id};
    res := Ok(());
  }

  /** An item in a listing; `available` is present only in the filtered listing. */
  datatype Listing = Listing(id: Id, doc: Equipment, available: Option<int>)

  /** The filter applies only for `availableOnly=true` with both dates given. */
  predicate FilterApplies(availableOnly: Option<string>, startDate: Option<Date>, endDate: Option<Date>) {
    availableOnly == Some("true") && startDate.Some? && endDate.Some?
  }

  /** `available` for one listed item over the query period. */
  function AvailableFor(requests: seq<Request>, it: (Id, Equipment), qStart: Date, qEnd: Date): int {
    ComputeAvailableQuantity(requests, it.0, Some(it.1.quantity), qStart, qEnd).available
  }

  /** The unfiltered listing: every item, as found, without an `available` field. */
  function Unfiltered(items: seq<(Id, Equipment)>): (out: seq<Listing>)
    ensures |out| == |items|
    ensures forall k :: 0 <= k < |items| ==> out[k] == Listing(items[k].0, items[k].1, None)
  {
    seq(|items|, k requires 0 <= k < |items| => Listing(items[k].0, items[k].1, None))
  }

  /** The filtered listing: the items with something available, in their original order, each
      annotated with what is available. */
  function AvailableOnly(requests: seq<Request>, items: seq<(Id, Equipment)>, qStart: Date, qEnd: Date)
    : (out: seq<Listing>)
    ensures |out| <= |items|
    ensures forall l :: l in out ==>
              (l.id, l.doc) in items && l.available == Some(AvailableFor(requests, (l.id, l.doc), qStart, qEnd))
              && l.available.value > 0
    ensures forall it :: it in items && AvailableFor(requests, it, qStart, qEnd) > 0 ==>
              Listing(it.0, it.1, Some(AvailableFor(requests, it, qStart, qEnd))) in out
    decreases |items|
  {
    if |items| == 0 then []
    else
      var last := |items| - 1;
      var it := items[last];
      var available := AvailableFor(requests, it, qStart, qEnd);
      AvailableOnly(requests, items[..last], qStart, qEnd)
      + (if available > 0 then [Listing(it.0, it.1, Some(available))] else [])
  }

  /** GET /: the items found, either all of them or only those with units free over the period. */
  method ListEquipment(requests: seq<Request>, items: seq<(Id, Equipment)>,
                       availableOnly: Option<string>, startDate: Option<Date>, endDate: Option<Date>)
    returns (out: seq<Listing>)
    ensures FilterApplies(availableOnly, startDate, endDate) ==>
              out == AvailableOnly(requests, items, startDate.value, endDate.value)
    ensures !FilterApplies(availableOnly, startDate, endDate) ==> out == Unfiltered(items)
  {
    if FilterApplies(availableOnly, startDate, endDate) {
      var qStart, qEnd := startDate.value, endDate.value;
      var filtered: seq<Listing> := [];
      for i := 0 to |items|
        invariant filtered == AvailableOnly(requests, items[..i], qStart, qEnd)
      {
        var it := items[i];
        var availability := ComputeAvailableQuantity(requests, it.0, Some(it.1.quantity), qStart, qEnd);
        if availability.available > 0 {
          filtered := filtered + [Listing(it.0, it.1, Some(availability.available))];
        }
        assert items[..i + 1][..i] == items[..i];
      }
      assert items[..|items|] == items;
      return filtered;
    }
    out := Unfiltered(items);
  }

  // ---------------------------------------------------------------------------
  // Properties of the equipment rules

  /** The filtered listing keeps the input order: filtering a concatenation concatenates the filtered parts. */
  lemma {:induction false} AvailableOnlyKeepsOrder(requests: seq<Request>, a: seq<(Id, Equipment)>,
                                                  b: seq<(Id, Equipment)>, qStart: Date, qEnd: Date)
    ensures AvailableOnly(requests, a + b, qStart, qEnd)
            == AvailableOnly(requests, a, qStart, qEnd) + AvailableOnly(requests, b, qStart, qEnd)
    decreases |b|
  {
    if |b| == 0 {
      assert a + b == a;
    } else {
      var last := |b| - 1;
      assert (a + b)[..|a + b| - 1] == a + b[..last];
      assert (a + b)[|a + b| - 1] == b[last];
      AvailableOnlyKeepsOrder(requests, a, b[..last], qStart, qEnd);
    }
  }

  /** Only `requested`, `approved` and `issued` requests block deletion; any mix of `overdue`,
      `returned` and `rejected` requests does not. */
  lemma DeleteBlockedExactlyByActive(requests: seq<Request>, item: Id)
    ensures ActiveCount(requests, item) == 0
            <==> forall k :: 0 <= k < |requests| && requests[k].item == item ==>
                   requests[k].status in {Overdue, Returned, Rejected}
  {
    if ActiveCount(requests, item) > 0 {
      var k :| 0 <= k < |requests| && requests[k].item == item && IsActive(requests[k].status);
      assert requests[k].status !in {Overdue, Returned, Rejected};
    }
  }

  /** An update that leaves out `condition` resets a stored condition to "good". */
  lemma UpdateWithoutConditionResetsIt(e: Equipment, p: Payload)
    requires ValidatePayload(p).Ok? && p.condition.None?
    ensures ApplyUpdate(e, ValidatePayload(p).value).condition == "good"
  {
  }

  /** Resizing is not reconciled with what is held: an item of 5 units with 3 approved over
      [1,10] satisfies the capacity invariant, and shrinking it to 1 unit breaks it. */
  lemma ResizeCanBreakCapacity(item: Id, requester: Id)
    ensures var requests := [Request(item, requester, 3, 1, 10, Approved, None, None, None)];
            var e := Equipment("Tripod", "Camera", "good", 5, "");
            var p := Payload("Tripod", "Camera", None, 1, None);
            CapacityHolds(map[item := e], requests)
            && ValidatePayload(p).Ok?
            && !CapacityHolds(map[item := ApplyUpdate(e, ValidatePayload(p).value)], requests)
  {
    var r := Request(item, requester, 3, 1, 10, Approved, None, None, None);
    var requests := [r];
    var e := Equipment("Tripod", "Camera", "good", 5, "");
    var p := Payload("Tripod", "Camera", None, 1, None);
    assert requests[..0] == [];
    forall i, t | i in map[item := e]
      ensures Booked(requests, i, t, t) <= map[item := e][i].quantity
    {
    }
    var shrunk := ApplyUpdate(e, ValidatePayload(p).value);
    assert Booked(requests, item, 1, 1) == 3;
    assert Booked(requests, item, 1, 1) > map[item := shrunk][item].quantity;
  }

  /** A one-character name outside the Basic Multilingual Plane is two UTF-16 units long and
      passes the `min(2)` rule, while a one-character name inside it does not. */
  lemma WideCharacterNameAccepted()
    ensures ValidatePayload(Payload("\U{1F4F7}", "Camera", None, 1, None)).Ok?
    ensures ValidatePayload(Payload("T", "Camera", None, 1, None)).Err?
  {
    assert "\U{1F4F7}"[..0] == [];
    assert "T"[..0] == [];
  }
}
