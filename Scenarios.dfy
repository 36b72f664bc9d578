/**
 * Client code exercising the endpoints through their contracts alone: the
 * overlap, past-time, short-duration and delete cases of
 * tests/test_reservations.py, and a booking that touches another's window.
 */
module Scenarios {
  import opened Wrappers
  import opened Models
  import opened Store
  import opened ReservationService
  import opened ReservationSchema
  import opened TableSchema
  import opened ReservationRouter
  import opened TableRouter

  /** A valid table is created with the first id and echoes its fields. */
  method CreateTableScenario() {
    var db := new Database();
    var name := "Table 1";
    assert forall c :: c in name ==> c == ' ' || IsAlnumChar(c);
    assert name[0] in name && name[0] != ' ';
    var t := CreateTable(db, TableRequest(name, 4, "Hall 1"));
    assert t == Ok(Table(1, name, 4, "Hall 1"));
  }

  /**
   * A booking from now + 1h for 120 minutes; an overlapping one from
   * now + 1h30 is refused, one starting at now + 3h is accepted.
   */
  method OverlapAndTouchingScenario(now: int) {
    var db := new Database();
    var first := CreateReservation(db, ReservationRequest("Ivan", 1, Naive(now + 60), 120), now);
    assert db.reservations == [Reservation(1, "Ivan", 1, now + 60, 120)];

    var overlapping := CreateReservation(db, ReservationRequest("Petr", 1, Naive(now + 90), 120), now);
    assert db.reservations[0] in db.reservations;
    assert overlapping == Conflict;

    var touching := CreateReservation(db, ReservationRequest("Petr", 1, Naive(now + 180), 60), now);
    assert touching == Ok(Reservation(2, "Petr", 1, now + 180, 60));
  }

  /** A past time and a 20-minute duration are both rejected before any check. */
  method ValidationScenario(now: int) {
    var db := new Database();
    var past := CreateReservation(db, ReservationRequest("Anna", 1, Naive(now - 60), 120), now);
    assert past.Invalid? && db.reservations == [];
    var tooShort := CreateReservation(db, ReservationRequest("Anna", 1, Naive(now + 60), 20), now);
    assert tooShort.Invalid? && db.reservations == [];
  }

  /** A deleted booking is no longer found. */
  method DeleteScenario(now: int) {
    var db := new Database();
    var first := CreateReservation(db, ReservationRequest("Ivan", 1, Naive(now + 60), 120), now);
    assert first == Ok(Reservation(1, "Ivan", 1, now + 60, 120));
    var gone := DeleteReservation(db, 1);
    assert gone == Ok(());
    assert GetReservation(db, 1) == NotFound;
  }
}
