/**
 * The reservation endpoints: list, get, create, partial update and delete
 * over the store, with the availability check guarding create and update.
 * Each operation first runs the request schema (a 422 outcome), as the web
 * framework does before the handler is entered.
 */
module ReservationRouter {
  import opened Wrappers
  import opened Models
  import opened Store
  import opened ReservationService
  import opened ReservationSchema
  import opened PartialUpdate

  /** `setattr(record, field, value)` for one supplied field. */
  function SetAttr(r: Reservation, f: ReservationField): Reservation {
    match f
    case CustomerName(v) => r.(customerName := v)
    case TableId(v) => r.(tableId := v)
    case ReservationTime(v) => r.(reservationTime := v)
    case DurationMinutes(v) => r.(durationMinutes := v)
  }

  /**
   * The meaning of a partial update, field by field: a supplied field replaces
   * the stored value, an absent one keeps it, and the id never changes.
   */
  function Merge(r: Reservation, u: ReservationUpdate): Reservation {
    Reservation(
      r.id,
      u.customerName.GetOr(r.customerName),
      u.tableId.GetOr(r.tableId),
      u.reservationTime.GetOr(r.reservationTime),
      u.durationMinutes.GetOr(r.durationMinutes))
  }

  /** Whether every window field the update supplies equals the stored one. */
  predicate ResubmitsWindow(r: Reservation, u: ReservationUpdate) {
    && (u.tableId.Some? ==> u.tableId.value == r.tableId)
    && (u.reservationTime.Some? ==> u.reservationTime.value == r.reservationTime)
    && (u.durationMinutes.Some? ==> u.durationMinutes.value == r.durationMinutes)
  }

  /** Running `setattr` over the supplied fields yields exactly the field-by-field merge. */
  lemma {:induction false} SetAttrLoopIsMerge(r: Reservation, u: ReservationUpdate)
    ensures ApplyFields(r, UpdateData(u), SetAttr) == Merge(r, u)
  {
    var a := if u.customerName.Some? then [CustomerName(u.customerName.value)] else [];
    var b := if u.tableId.Some? then [TableId(u.tableId.value)] else [];
    var c := if u.reservationTime.Some? then [ReservationTime(u.reservationTime.value)] else [];
    var d := if u.durationMinutes.Some? then [DurationMinutes(u.durationMinutes.value)] else [];
    assert UpdateData(u) == a + b + c + d;
    var r1 := if u.customerName.Some? then r.(customerName := u.customerName.value) else r;
    var r2 := if u.tableId.Some? then r1.(tableId := u.tableId.value) else r1;
    var r3 := if u.reservationTime.Some? then r2.(reservationTime := u.reservationTime.value) else r2;
    var r4 := if u.durationMinutes.Some? then r3.(durationMinutes := u.durationMinutes.value) else r3;
    ApplyFieldsConcat(r, a, b + c + d, SetAttr);
    ApplyFieldsConcat(r1, b, c + d, SetAttr);
    ApplyFieldsConcat(r2, c, d, SetAttr);
    assert ApplyFields(r, a, SetAttr) == r1;
    assert ApplyFields(r1, b, SetAttr) == r2;
    assert ApplyFields(r2, c, SetAttr) == r3;
    assert ApplyFields(r3, d, SetAttr) == r4;
    assert (a + b + c + d) == a + (b + c + d);
    assert b + c + d == b + (c + d);
  }

  /** Rewriting one record without changing its id keeps the keys unique and in range. */
  lemma ReplacingKeepsKeys(rs: seq<Reservation>, k: nat, record: Reservation, nextId: int)
    requires k < |rs| && record.id == rs[k].id
    requires UniqueReservationIds(rs) && forall r :: r in rs ==> 0 < r.id < nextId
    ensures UniqueReservationIds(rs[k := record])
    ensures forall r :: r in rs[k := record] ==> 0 < r.id < nextId
  {
  }

  /** `GET /reservations`: every stored reservation, in store order. */
  function GetReservations(db: Database): seq<Reservation>
    reads db
  {
    db.reservations
  }

  /** `GET /reservations/{id}`: the stored record with that id, or NotFound when there is none. */
  function GetReservation(db: Database, id: int): (o: Outcome<Reservation>)
    reads db
    ensures o.Ok? || o.NotFound?
    ensures o.NotFound? <==> forall r :: r in db.reservations ==> r.id != id
    ensures o.Ok? ==> o.value in db.reservations && o.value.id == id
  {
    match FindReservation(db.reservations, id)
    case None => NotFound
    case Some(k) => Ok(db.reservations[k])
  }

  /** A single get finds an id exactly when the listing contains a record with it. */
  lemma GetAgreesWithList(db: Database, id: int)
    ensures GetReservation(db, id).Ok? <==> exists r :: r in GetReservations(db) && r.id == id
  {
  }

  /**
   * `POST /reservations`. A request the schema rejects, or whose window is not
   * available on its table, leaves the store unchanged; otherwise exactly one
   * record with a fresh id and the validated fields is appended.
   */
  method CreateReservation(db: Database, req: ReservationRequest, now: int) returns (o: Outcome<Reservation>)
    requires db.Valid()
    modifies db
    ensures db.Valid()
    ensures db.tables == old(db.tables) && db.nextTableId == old(db.nextTableId)
    ensures ParseCreate(req, now).Failure? ==> o == Invalid(ParseCreate(req, now).error) && unchanged(db)
    ensures ParseCreate(req, now).Success? ==>
      var c := ParseCreate(req, now).value;
      if !IsTableAvailable(old(db.reservations), c.tableId, c.reservationTime, c.durationMinutes, None) then
        o == Conflict && unchanged(db)
      else
        && o == Ok(Reservation(old(db.nextReservationId), c.customerName, c.tableId, c.reservationTime,
                               c.durationMinutes))
        && db.reservations == old(db.reservations) + [o.value]
        && db.nextReservationId == old(db.nextReservationId) + 1
        && (forall r :: r in old(db.reservations) ==> r.id != o.value.id)
    ensures old(NoDoubleBooking(db.reservations)) ==> NoDoubleBooking(db.reservations)
  {
    var parsed := ParseCreate(req, now);
    if parsed.Failure? {
      return Invalid(parsed.error);
    }
    var c := parsed.value;
    if !IsTableAvailable(db.reservations, c.tableId, c.reservationTime, c.durationMinutes, None) {
      return Conflict;
    }
    var created := Reservation(db.nextReservationId, c.customerName, c.tableId, c.reservationTime,
                               c.durationMinutes);
    if NoDoubleBooking(db.reservations) {
      AcceptedCreateKeepsNoDoubleBooking(db.reservations, created);
    }
    ghost var before := db.reservations;
    db.reservations := db.reservations + [created];
    db.nextReservationId := db.nextReservationId + 1;
    assert forall r :: r in db.reservations ==> r in before || r == created;
    o := Ok(created);
  }

  /**
   * `PUT /reservations/{id}`, a partial update. When the update supplies a
   * window field, the merged window is checked with the record's own id
   * excluded; an accepted update rewrites only the supplied fields of that
   * one record.
   */
  method UpdateReservation(db: Database, id: int, upd: ReservationUpdate) returns (o: Outcome<Reservation>)
    requires db.Valid()
    modifies db
    ensures db.Valid()
    ensures db.tables == old(db.tables) && db.nextTableId == old(db.nextTableId)
    ensures db.nextReservationId == old(db.nextReservationId)
    ensures UpdateErrors(upd) != [] ==> o == Invalid(UpdateErrors(upd)) && unchanged(db)
    ensures UpdateErrors(upd) == [] && FindReservation(old(db.reservations), id).None? ==>
      o == NotFound && unchanged(db)
    ensures UpdateErrors(upd) == [] && FindReservation(old(db.reservations), id).Some? ==>
      var k := FindReservation(old(db.reservations), id).value;
      var merged := Merge(old(db.reservations)[k], upd);
      if TouchesWindow(upd)
         && !IsTableAvailable(old(db.reservations), merged.tableId, merged.reservationTime,
                              merged.durationMinutes, Some(id))
      then o == Conflict && unchanged(db)
      else o == Ok(merged) && db.reservations == old(db.reservations)[k := merged]
    ensures !TouchesWindow(upd) ==> !o.Conflict?
    ensures old(NoDoubleBooking(db.reservations))
            && (forall r :: r in old(db.reservations) && r.id == id ==> ResubmitsWindow(r, upd))
            ==> !o.Conflict?
    ensures old(NoDoubleBooking(db.reservations)) ==> NoDoubleBooking(db.reservations)
  {
    var errors := UpdateErrors(upd);
    if errors != [] {
      return Invalid(errors);
    }
    var found := FindReservation(db.reservations, id);
    if found.None? {
      return NotFound;
    }
    var k := found.value;
    var stored := db.reservations[k];
    assert stored in db.reservations;
    if TouchesWindow(upd) {
      var tableId := upd.tableId.GetOr(stored.tableId);
      var reservationTime := upd.reservationTime.GetOr(stored.reservationTime);
      var durationMinutes := upd.durationMinutes.GetOr(stored.durationMinutes);
      if NoDoubleBooking(db.reservations) && ResubmitsWindow(stored, upd) {
        OwnWindowIsAvailable(db.reservations, k);
      }
      if !IsTableAvailable(db.reservations, tableId, reservationTime, durationMinutes, Some(id)) {
        return Conflict;
      }
    }
    var record := SetAttrLoop(stored, UpdateData(upd), SetAttr);
    SetAttrLoopIsMerge(stored, upd);
    ReplacingKeepsKeys(db.reservations, k, record, db.nextReservationId);
    if NoDoubleBooking(db.reservations) {
      if TouchesWindow(upd) {
        AcceptedUpdateKeepsNoDoubleBooking(db.reservations, k, record);
      } else {
        UnchangedWindowKeepsNoDoubleBooking(db.reservations, k, record);
      }
    }
    db.reservations := db.reservations[k := record];
    o := Ok(record);
  }

  /**
   * `DELETE /reservations/{id}`: removes exactly that record, after which no
   * stored record has the id; an unknown id changes nothing.
   */
  method DeleteReservation(db: Database, id: int) returns (o: Outcome<()>)
    requires db.Valid()
    modifies db
    ensures db.Valid()
    ensures db.tables == old(db.tables) && db.nextTableId == old(db.nextTableId)
    ensures db.nextReservationId == old(db.nextReservationId)
    ensures FindReservation(old(db.reservations), id).None? ==> o == NotFound && unchanged(db)
    ensures FindReservation(old(db.reservations), id).Some? ==>
      var k := FindReservation(old(db.reservations), id).value;
      o == Ok(()) && db.reservations == old(db.reservations)[..k] + old(db.reservations)[k + 1..]
    ensures GetReservation(db, id) == NotFound
    ensures old(NoDoubleBooking(db.reservations)) ==> NoDoubleBooking(db.reservations)
  {
    var found := FindReservation(db.reservations, id);
    if found.None? {
      return NotFound;
    }
    var k := found.value;
    FoundReservationIsOnly(db.reservations, id);
    ghost var before := db.reservations;
    db.reservations := db.reservations[..k] + db.reservations[k + 1..];
    assert forall j :: 0 <= j < |db.reservations| ==>
      db.reservations[j] == before[if j < k then j else j + 1];
    o := Ok(());
  }
}
