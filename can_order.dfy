/** The ordering switch of SushiBE/Controllers/CanOrderController.cs: the
    first stored `CanOrder` record, if any, decides whether orders are taken
    now; an administrator creates or overwrites that record. */
module CanOrderController {
  import opened Common
  import opened Models
  import opened Data

  /** `isActive` as `Get` computes it: start from the manual flag, then turn
      it off before the opening date and after the closing date. */
  function IsActive(rec: CanOrder, now: Ticks): bool
  {
    var active := rec.isEnabled;
    var active := if rec.onDate.Some? && now < rec.onDate.value then false else active;
    var active := if rec.offDate.Some? && now > rec.offDate.value then false else active;
    active
  }

  /** Active exactly when enabled and `now` lies within the bounds that are
      set, both bounds included. */
  lemma IsActiveIff(rec: CanOrder, now: Ticks)
    ensures IsActive(rec, now) <==>
      && rec.isEnabled
      && (rec.onDate.None? || rec.onDate.value <= now)
      && (rec.offDate.None? || now <= rec.offDate.value)
  {
  }

  /** The bounds are inclusive: an enabled record is active at its own
      opening and closing instants when the other bound allows it. */
  lemma BoundsInclusive(rec: CanOrder)
    requires rec.isEnabled
    ensures rec.onDate.Some? && (rec.offDate.None? || rec.onDate.value <= rec.offDate.value) ==>
      IsActive(rec, rec.onDate.value)
    ensures rec.offDate.Some? && (rec.onDate.None? || rec.onDate.value <= rec.offDate.value) ==>
      IsActive(rec, rec.offDate.value)
  {
  }

  /** A disabled record is never active; an enabled one without bounds
      always is. */
  lemma FlagDominates(rec: CanOrder, now: Ticks)
    ensures !rec.isEnabled ==> !IsActive(rec, now)
    ensures rec.isEnabled && rec.onDate.None? && rec.offDate.None? ==> IsActive(rec, now)
  {
  }

  /** What `GET api/CanOrder` answers. */
  datatype View = View(canOrderId: Option<Id>, isEnabled: bool, onDate: Option<Ticks>, offDate: Option<Ticks>, isActive: bool)

  /** `Get`: the first stored record, reported as active exactly when it is
      enabled and `now` lies within its set bounds, both included; with none
      stored, enabled, unbounded and active. */
  function Get(canOrders: seq<CanOrder>, now: Ticks): (v: View)
    ensures canOrders == [] ==> v == View(None, true, None, None, true)
    ensures canOrders != [] ==>
      && v.canOrderId == Some(canOrders[0].canOrderId)
      && v.isEnabled == canOrders[0].isEnabled
      && v.onDate == canOrders[0].onDate && v.offDate == canOrders[0].offDate
      && (v.isActive <==>
            && v.isEnabled
            && (v.onDate.None? || v.onDate.value <= now)
            && (v.offDate.None? || now <= v.offDate.value))
  {
    if canOrders == [] then View(None, true, None, None, true)
    else
      var rec := canOrders[0];
      View(Some(rec.canOrderId), rec.isEnabled, rec.onDate, rec.offDate, IsActive(rec, now))
  }

  /** The body of `PUT api/CanOrder`. */
  datatype UpdateDto = UpdateDto(isEnabled: bool, onDate: Option<Ticks>, offDate: Option<Ticks>)

  /** The records after an update: the first one takes the three fields of
      the payload and keeps its id, or, with none stored, one new record is
      added under a fresh id. */
  function Upserted(canOrders: seq<CanOrder>, dto: UpdateDto, freshId: Id): seq<CanOrder>
  {
    if canOrders == [] then [CanOrder(freshId, dto.isEnabled, dto.onDate, dto.offDate)]
    else canOrders[0 := canOrders[0].(isEnabled := dto.isEnabled, onDate := dto.onDate, offDate := dto.offDate)]
  }

  /** An update creates a record only when there is none, never adds a
      second one, keeps the first record's id, and does not touch the others. */
  lemma UpsertShape(canOrders: seq<CanOrder>, dto: UpdateDto, freshId: Id)
    ensures var r := Upserted(canOrders, dto, freshId);
      && |r| == (if canOrders == [] then 1 else |canOrders|)
      && r[0].canOrderId == (if canOrders == [] then freshId else canOrders[0].canOrderId)
      && r[0].isEnabled == dto.isEnabled && r[0].onDate == dto.onDate && r[0].offDate == dto.offDate
      && r[1..] == (if canOrders == [] then [] else canOrders[1..])
  {
  }

  /** After an update, `Get` reports the payload's fields, and whether
      ordering is active follows from them alone. */
  lemma GetAfterUpdate(canOrders: seq<CanOrder>, dto: UpdateDto, freshId: Id, now: Ticks)
    ensures var v := Get(Upserted(canOrders, dto, freshId), now);
      && v.isEnabled == dto.isEnabled && v.onDate == dto.onDate && v.offDate == dto.offDate
      && v.isActive == IsActive(CanOrder(freshId, dto.isEnabled, dto.onDate, dto.offDate), now)
  {
  }

  /** Applying the same update twice leaves the records as applying it once. */
  lemma UpdateIdempotent(canOrders: seq<CanOrder>, dto: UpdateDto, freshId: Id, freshId2: Id)
    ensures Upserted(Upserted(canOrders, dto, freshId), dto, freshId2) == Upserted(canOrders, dto, freshId)
  {
  }

  /** `Update`: a missing payload answers BadRequest and changes nothing;
      otherwise the records are upserted and the stored record is answered. */
  method Update(db: Db, dto: Option<UpdateDto>, freshId: Id) returns (status: Status, stored: Option<CanOrder>)
    requires db.Valid()
    modifies db
    ensures db.Valid()
    ensures db.carts == old(db.carts) && db.users == old(db.users) && db.products == old(db.products)
    ensures db.orders == old(db.orders) && db.orderItems == old(db.orderItems) && db.invoices == old(db.invoices)
    ensures dto.None? <==> status == BadRequest
    ensures dto.None? ==> db.canOrders == old(db.canOrders) && stored.None?
    ensures dto.Some? ==>
      && status == Ok
      && db.canOrders == Upserted(old(db.canOrders), dto.value, freshId)
      && stored == Some(db.canOrders[0])
  {
    if dto.None? {
      return BadRequest, None;
    }
    var d := dto.value;
    var rec: CanOrder;
    var isNew := false;
    if db.canOrders == [] {
      rec := CanOrder(freshId, true, None, None);
      isNew := true;
    } else {
      rec := db.canOrders[0];
    }
    rec := rec.(isEnabled := d.isEnabled);
    rec := rec.(onDate := d.onDate);
    rec := rec.(offDate := d.offDate);
    if isNew {
      db.canOrders := db.canOrders + [rec];
    } else {
      db.canOrders := db.canOrders[0 := rec];
    }
    status, stored := Ok, Some(rec);
  }
}
