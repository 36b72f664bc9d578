/**
 * The two persisted record shapes and the caller-visible outcome of a store
 * operation. Instants are whole minutes since an arbitrary UTC epoch.
 */
module Models {

  /** A row of the `reservations` table (app/models/reservation.py). */
  datatype Reservation = Reservation(
    id: int,
    customerName: string,
    tableId: int,
    reservationTime: int,
    durationMinutes: int)

  /** A row of the `tables` table (app/models/table.py). */
  datatype Table = Table(id: int, name: string, seats: int, location: string)

  /**
   * What a router operation reports: 200/201/204 (Ok), 404 (NotFound),
   * 409 (Conflict) or 422 (Invalid, with the names of the rejected fields).
   */
  datatype Outcome<+T> = Ok(value: T) | NotFound | Conflict | Invalid(fields: seq<string>)

  /** No two stored reservations share an id (the primary key). */
  predicate UniqueReservationIds(rs: seq<Reservation>) {
    forall i, j :: 0 <= i < j < |rs| ==> rs[i].id != rs[j].id
  }

  /** No two stored tables share an id (the primary key). */
  predicate UniqueTableIds(ts: seq<Table>) {
    forall i, j :: 0 <= i < j < |ts| ==> ts[i].id != ts[j].id
  }
}
