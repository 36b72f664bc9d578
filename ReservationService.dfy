/**
 * The availability check: does a proposed booking window on a table collide
 * with any stored reservation? Windows are half-open, `[start, start + duration)`.
 */
module ReservationService {
  import opened Wrappers
  import opened Models

  /**
   * The query's filter: `existing` is on `tableId` and its window meets
   * `[startTime, startTime + durationMinutes)`. Both comparisons are strict.
   */
  predicate IsConflict(existing: Reservation, tableId: int, startTime: int, durationMinutes: int) {
    var endTime := startTime + durationMinutes;
    && existing.tableId == tableId
    && existing.reservationTime < endTime
    && existing.reservationTime + existing.durationMinutes > startTime
  }

  /**
   * The optional exclusion of one id. As in the source's `if exclude_reservation_id:`,
   * it applies only when the id is truthy, so `Some(0)` excludes nothing.
   */
  predicate IsExcluded(existing: Reservation, excludeReservationId: Option<int>) {
    excludeReservationId.Some? && excludeReservationId.value != 0
    && existing.id == excludeReservationId.value
  }

  /** The reservations the query returns, in store order. */
  function Conflicts(rs: seq<Reservation>, tableId: int, startTime: int, durationMinutes: int,
                     excludeReservationId: Option<int>): (cs: seq<Reservation>)
    ensures |cs| <= |rs|
    ensures forall r :: r in cs <==>
      r in rs && IsConflict(r, tableId, startTime, durationMinutes) && !IsExcluded(r, excludeReservationId)
    decreases |rs|
  {
    if rs == [] then []
    else
      var rest := Conflicts(rs[1..], tableId, startTime, durationMinutes, excludeReservationId);
      assert forall r :: r in rs <==> r == rs[0] || r in rs[1..];
      if IsConflict(rs[0], tableId, startTime, durationMinutes) && !IsExcluded(rs[0], excludeReservationId)
      then [rs[0]] + rest
      else rest
  }

  /** True exactly when no stored reservation that is not excluded conflicts with the window. */
  function IsTableAvailable(rs: seq<Reservation>, tableId: int, startTime: int, durationMinutes: int,
                            excludeReservationId: Option<int>): (available: bool)
    ensures available <==> forall r :: r in rs ==>
      !IsConflict(r, tableId, startTime, durationMinutes) || IsExcluded(r, excludeReservationId)
  {
    var cs := Conflicts(rs, tableId, startTime, durationMinutes, excludeReservationId);
    assert |cs| > 0 ==> cs[0] in cs;
    |cs| == 0
  }

  /** Half-open overlap of two stored reservations: same table, `s1 < e2 && s2 < e1`. */
  predicate Overlap(a: Reservation, b: Reservation) {
    && a.tableId == b.tableId
    && a.reservationTime < b.reservationTime + b.durationMinutes
    && b.reservationTime < a.reservationTime + a.durationMinutes
  }

  /** The core invariant: reservations on the same table are pairwise non-overlapping. */
  predicate NoDoubleBooking(rs: seq<Reservation>) {
    forall i, j :: 0 <= i < |rs| && 0 <= j < |rs| && i != j ==> !Overlap(rs[i], rs[j])
  }

  /**
   * A booking that ends exactly at `startTime`, or starts exactly at
   * `startTime + durationMinutes`, never changes the verdict.
   */
  lemma TouchingBookingNeverConflicts(before: seq<Reservation>, touching: Reservation, after: seq<Reservation>,
                                      tableId: int, startTime: int, durationMinutes: int,
                                      excludeReservationId: Option<int>)
    requires touching.reservationTime + touching.durationMinutes == startTime
          || touching.reservationTime == startTime + durationMinutes
    ensures IsTableAvailable(before + [touching] + after, tableId, startTime, durationMinutes, excludeReservationId)
        == IsTableAvailable(before + after, tableId, startTime, durationMinutes, excludeReservationId)
  {
  }

  /** A reservation on another table never changes the verdict. */
  lemma OtherTableNeverMatters(before: seq<Reservation>, other: Reservation, after: seq<Reservation>,
                               tableId: int, startTime: int, durationMinutes: int,
                               excludeReservationId: Option<int>)
    requires other.tableId != tableId
    ensures IsTableAvailable(before + [other] + after, tableId, startTime, durationMinutes, excludeReservationId)
        == IsTableAvailable(before + after, tableId, startTime, durationMinutes, excludeReservationId)
  {
  }

  /** The reservation carrying a truthy excluded id is ignored, whatever its window. */
  lemma ExcludedReservationIgnored(before: seq<Reservation>, excluded: Reservation, after: seq<Reservation>,
                                   tableId: int, startTime: int, durationMinutes: int, id: int)
    requires id != 0 && excluded.id == id
    ensures IsTableAvailable(before + [excluded] + after, tableId, startTime, durationMinutes, Some(id))
        == IsTableAvailable(before + after, tableId, startTime, durationMinutes, Some(id))
  {
  }

  /** Without an exclusion every conflicting reservation blocks the slot. */
  lemma ConflictBlocksWithoutExclusion(rs: seq<Reservation>, k: nat,
                                       tableId: int, startTime: int, durationMinutes: int)
    requires k < |rs| && IsConflict(rs[k], tableId, startTime, durationMinutes)
    ensures !IsTableAvailable(rs, tableId, startTime, durationMinutes, None)
  {
  }

  /** A falsy excluded id (zero) behaves exactly like no exclusion at all. */
  lemma ZeroExclusionIsNoExclusion(rs: seq<Reservation>, tableId: int, startTime: int, durationMinutes: int)
    ensures IsTableAvailable(rs, tableId, startTime, durationMinutes, Some(0))
        == IsTableAvailable(rs, tableId, startTime, durationMinutes, None)
  {
  }

  /** Accepting a create whose window passed the check keeps the invariant. */
  lemma AcceptedCreateKeepsNoDoubleBooking(rs: seq<Reservation>, created: Reservation)
    requires NoDoubleBooking(rs)
    requires IsTableAvailable(rs, created.tableId, created.reservationTime, created.durationMinutes, None)
    ensures NoDoubleBooking(rs + [created])
  {
    var rs' := rs + [created];
    forall i, j | 0 <= i < |rs'| && 0 <= j < |rs'| && i != j
      ensures !Overlap(rs'[i], rs'[j])
    {
      if i < |rs| && j < |rs| {
        assert rs'[i] == rs[i] && rs'[j] == rs[j];
      } else if i < |rs| {
        assert rs[i] in rs;
      } else {
        assert rs[j] in rs;
      }
    }
  }

  /**
   * Accepting an update of position `k` whose new window passed the check
   * with the record's own (truthy) id excluded keeps the invariant.
   */
  lemma AcceptedUpdateKeepsNoDoubleBooking(rs: seq<Reservation>, k: nat, updated: Reservation)
    requires k < |rs| && UniqueReservationIds(rs) && NoDoubleBooking(rs)
    requires updated.id == rs[k].id && updated.id != 0
    requires IsTableAvailable(rs, updated.tableId, updated.reservationTime, updated.durationMinutes, Some(updated.id))
    ensures NoDoubleBooking(rs[k := updated])
  {
    var rs' := rs[k := updated];
    forall i, j | 0 <= i < |rs'| && 0 <= j < |rs'| && i != j
      ensures !Overlap(rs'[i], rs'[j])
    {
      if i != k && j != k {
        assert rs'[i] == rs[i] && rs'[j] == rs[j];
      } else if i == k {
        assert rs[j] in rs && rs[j].id != updated.id;
      } else {
        assert rs[i] in rs && rs[i].id != updated.id;
      }
    }
  }

  /** An update that leaves table, time and duration as they were keeps the invariant. */
  lemma UnchangedWindowKeepsNoDoubleBooking(rs: seq<Reservation>, k: nat, updated: Reservation)
    requires k < |rs| && NoDoubleBooking(rs)
    requires updated.tableId == rs[k].tableId && updated.reservationTime == rs[k].reservationTime
    requires updated.durationMinutes == rs[k].durationMinutes
    ensures NoDoubleBooking(rs[k := updated])
  {
  }

  /**
   * A stored reservation's own window, checked with its own (truthy) id
   * excluded, is always available while the invariant holds: re-submitting
   * a booking never conflicts with itself.
   */
  lemma OwnWindowIsAvailable(rs: seq<Reservation>, k: nat)
    requires k < |rs| && UniqueReservationIds(rs) && NoDoubleBooking(rs)
    requires rs[k].id != 0
    ensures IsTableAvailable(rs, rs[k].tableId, rs[k].reservationTime, rs[k].durationMinutes, Some(rs[k].id))
  {
  }
}
