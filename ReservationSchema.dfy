/**
 * Request validation for reservations: the field bounds and validators of the
 * create schema, and the deliberately laxer optional-field update schema.
 */
module ReservationSchema {
  import opened Wrappers

  const MAX_CUSTOMER_NAME_LENGTH := 100
  const MIN_DURATION_MINUTES := 30
  const MAX_DURATION_MINUTES := 240

  /**
   * A submitted instant in minutes: without a zone (taken as UTC), or as a
   * local wall-clock reading with its offset east of UTC.
   */
  datatype TimeInput = Naive(minutes: int) | Aware(localMinutes: int, utcOffsetMinutes: int)

  /** The same instant in UTC minutes. */
  function ToUtc(t: TimeInput): int {
    match t
    case Naive(m) => m
    case Aware(local, offset) => local - offset
  }

  /** The body of a create request, before validation. */
  datatype ReservationRequest = ReservationRequest(
    customerName: string,
    tableId: int,
    reservationTime: TimeInput,
    durationMinutes: int)

  /** A validated create request; its time is already normalised to UTC minutes. */
  datatype ReservationCreate = ReservationCreate(
    customerName: string,
    tableId: int,
    reservationTime: int,
    durationMinutes: int)

  /** The body of an update request: every field optional, absent meaning "not supplied". */
  datatype ReservationUpdate = ReservationUpdate(
    customerName: Option<string>,
    tableId: Option<int>,
    reservationTime: Option<int>,
    durationMinutes: Option<int>)

  /** One supplied field of an update, as `dict(exclude_unset=True)` yields it. */
  datatype ReservationField =
    | CustomerName(customerName: string)
    | TableId(tableId: int)
    | ReservationTime(reservationTime: int)
    | DurationMinutes(durationMinutes: int)

  /** `customer_name` bounds: length 1..100. */
  predicate CustomerNameInBounds(name: string) {
    1 <= |name| <= MAX_CUSTOMER_NAME_LENGTH
  }

  /** `duration_minutes` field bounds: greater than 0, at most 240. */
  predicate DurationFieldInBounds(d: int) {
    0 < d <= MAX_DURATION_MINUTES
  }

  /**
   * Normalises the submitted time to UTC and rejects it when strictly before
   * `now`; returns the normalised instant.
   */
  function EnsureTimezoneAwareAndFuture(v: TimeInput, now: int): (r: Result<int, string>)
    ensures r.Success? <==> ToUtc(v) >= now
    ensures r.Success? ==> r.value == ToUtc(v)
  {
    var utc := ToUtc(v);
    if utc < now then Failure("reservation time cannot be in the past") else Success(utc)
  }

  /** Rejects durations under 30 or over 240 minutes; returns a valid one unchanged. */
  function DurationMustBeReasonable(v: int): (r: Result<int, string>)
    ensures r.Success? <==> MIN_DURATION_MINUTES <= v <= MAX_DURATION_MINUTES
    ensures r.Success? ==> r.value == v
  {
    if v < MIN_DURATION_MINUTES then Failure("minimum reservation duration is 30 minutes")
    else if v > MAX_DURATION_MINUTES then Failure("maximum reservation duration is 4 hours")
    else Success(v)
  }

  /**
   * The names of the rejected fields of a create request, in declaration
   * order: a field fails when its bounds or its validator fail.
   */
  function CreateErrors(req: ReservationRequest, now: int): seq<string> {
    (if CustomerNameInBounds(req.customerName) then [] else ["customer_name"])
    + (if req.tableId > 0 then [] else ["table_id"])
    + (if EnsureTimezoneAwareAndFuture(req.reservationTime, now).Success? then [] else ["reservation_time"])
    + (if DurationFieldInBounds(req.durationMinutes) && DurationMustBeReasonable(req.durationMinutes).Success?
       then [] else ["duration_minutes"])
  }

  /**
   * Validates a create request against the clock reading `now`. It is accepted
   * exactly when every field is in range, with the duration window [30, 240]
   * and a time not before `now`; the accepted value carries the UTC instant.
   */
  function ParseCreate(req: ReservationRequest, now: int): (r: Result<ReservationCreate, seq<string>>)
    ensures r.Success? <==>
      && 1 <= |req.customerName| <= 100
      && req.tableId > 0
      && ToUtc(req.reservationTime) >= now
      && 30 <= req.durationMinutes <= 240
    ensures r.Success? ==> r.value == ReservationCreate(
      req.customerName, req.tableId, ToUtc(req.reservationTime), req.durationMinutes)
    ensures r.Failure? ==> r.error != []
    ensures r.Failure? ==> ("customer_name" in r.error <==> !(1 <= |req.customerName| <= 100))
    ensures r.Failure? ==> ("table_id" in r.error <==> req.tableId <= 0)
    ensures r.Failure? ==> ("reservation_time" in r.error <==> ToUtc(req.reservationTime) < now)
    ensures r.Failure? ==> ("duration_minutes" in r.error <==> !(30 <= req.durationMinutes <= 240))
  {
    var errors := CreateErrors(req, now);
    if errors == [] then
      Success(ReservationCreate(req.customerName, req.tableId, ToUtc(req.reservationTime), req.durationMinutes))
    else
      Failure(errors)
  }

  /**
   * The names of the rejected fields of an update request. Only the field
   * bounds apply: no 30-minute minimum and no check against the clock.
   */
  function UpdateErrors(u: ReservationUpdate): (errors: seq<string>)
    ensures errors == [] <==>
      && (u.customerName.Some? ==> 1 <= |u.customerName.value| <= 100)
      && (u.tableId.Some? ==> u.tableId.value > 0)
      && (u.durationMinutes.Some? ==> 1 <= u.durationMinutes.value <= 240)
  {
    (if u.customerName.Some? && !CustomerNameInBounds(u.customerName.value) then ["customer_name"] else [])
    + (if u.tableId.Some? && u.tableId.value <= 0 then ["table_id"] else [])
    + (if u.durationMinutes.Some? && !DurationFieldInBounds(u.durationMinutes.value) then ["duration_minutes"] else [])
  }

  /** The supplied fields of an update, in declaration order (`dict(exclude_unset=True)`). */
  function UpdateData(u: ReservationUpdate): seq<ReservationField> {
    (if u.customerName.Some? then [CustomerName(u.customerName.value)] else [])
    + (if u.tableId.Some? then [TableId(u.tableId.value)] else [])
    + (if u.reservationTime.Some? then [ReservationTime(u.reservationTime.value)] else [])
    + (if u.durationMinutes.Some? then [DurationMinutes(u.durationMinutes.value)] else [])
  }

  /** Whether the update supplies any field of the booking window. */
  predicate TouchesWindow(u: ReservationUpdate) {
    u.tableId.Some? || u.reservationTime.Some? || u.durationMinutes.Some?
  }

  /** A zone-aware time and its UTC reading as a naive time validate alike. */
  lemma SameInstantValidatesAlike(local: int, offset: int, now: int)
    ensures EnsureTimezoneAwareAndFuture(Aware(local, offset), now)
         == EnsureTimezoneAwareAndFuture(Naive(local - offset), now)
  {
  }

  /** The normalised value is itself a valid, already-normalised input. */
  lemma NormalisedTimeRevalidates(v: TimeInput, now: int)
    requires EnsureTimezoneAwareAndFuture(v, now).Success?
    ensures var utc := EnsureTimezoneAwareAndFuture(v, now).value;
      EnsureTimezoneAwareAndFuture(Naive(utc), now) == Success(utc)
  {
  }

  /**
   * Validation depends on the moment it runs: the same input is accepted at
   * its own instant and rejected one minute later.
   */
  lemma ValidationDependsOnClock(v: TimeInput)
    ensures EnsureTimezoneAwareAndFuture(v, ToUtc(v)).Success?
    ensures EnsureTimezoneAwareAndFuture(v, ToUtc(v) + 1).Failure?
  {
  }

  /**
   * The update schema is laxer than the create schema: a 1..29 minute
   * duration and a past time pass on update but are rejected on create.
   */
  lemma UpdateSchemaIsLaxer(name: string, tableId: int, time: int, d: int, now: int)
    requires 1 <= |name| <= 100 && tableId > 0
    requires 1 <= d < 30 && time < now
    ensures UpdateErrors(ReservationUpdate(Some(name), Some(tableId), Some(time), Some(d))) == []
    ensures var r := ParseCreate(ReservationRequest(name, tableId, Naive(time), d), now);
      r.Failure? && "reservation_time" in r.error && "duration_minutes" in r.error
  {
  }

  /** Every create-valid request is also valid as an update supplying all fields. */
  lemma CreateValidImpliesUpdateValid(req: ReservationRequest, now: int)
    requires ParseCreate(req, now).Success?
    ensures var c := ParseCreate(req, now).value;
      UpdateErrors(ReservationUpdate(Some(c.customerName), Some(c.tableId), Some(c.reservationTime),
                                     Some(c.durationMinutes))) == []
  {
  }
}
