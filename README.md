# Restaurant table booking: a verified model of the conflict gate

This project models the core of a restaurant booking backend. The backend keeps
two kinds of records: tables (name, seats, location) and reservations (customer
name, table, start time, duration in minutes). It has one domain rule: a table
cannot be booked twice for overlapping time windows. The model covers four parts:

- the availability check `is_table_available` (`ReservationService`): does a
  proposed window `[start, start + duration)` on a table meet any stored
  reservation that is not excluded?
- the reservation endpoints (`ReservationRouter`): list, get, create, partial
  update and delete over the store. Create and update are guarded by the check.
- the table endpoints (`TableRouter`): the same shape, with a unique-name check
  on create only.
- the request schemas (`ReservationSchema`, `TableSchema`): field bounds and
  validators. The update schemas are deliberately laxer than the create schemas.

The relational store is one `Store.Database` object. It holds both record lists
in insertion order and hands out fresh primary keys. Each endpoint is a method
that takes the database, as the handlers take a session. An endpoint first runs
its request schema, because the web framework answers 422 before the handler
runs. Outcomes are `Ok`, `NotFound` (404), `Conflict` (409) and
`Invalid(fields)` (422, with the names of the rejected fields in declaration
order). Time is an integer count of UTC minutes. The clock reading `now` is a
parameter.

The main proved results:

- `ReservationService.IsTableAvailable` is true exactly when no stored
  reservation conflicts with the window. "Conflicts" means: same table,
  `existing.start < start + duration` and `existing.start + existing.duration > start`,
  and not excluded. Only a truthy (non-zero) excluded id counts as an exclusion.
- Every accepted create and every accepted update keeps the reservations on
  each table pairwise non-overlapping (`NoDoubleBooking`). Creates are covered by
  `AcceptedCreateKeepsNoDoubleBooking`. Updates are covered by
  `AcceptedUpdateKeepsNoDoubleBooking` and `UnchangedWindowKeepsNoDoubleBooking`.
  The endpoint methods state this as `old(NoDoubleBooking(..)) ==> NoDoubleBooking(..)`.
- While no two reservations on a table overlap, a reservation's own window,
  checked with its own id excluded, is available (`OwnWindowIsAvailable`). So resubmitting the current table, time and
  duration never conflicts.
- The handlers apply updates with a `setattr` loop over the supplied fields.
  The model writes that loop out once for both record kinds (`PartialUpdate.SetAttrLoop`). It is proved equal to the
  field-by-field merge, where a supplied field replaces the stored one and an
  absent field keeps the stored value (`SetAttrLoopIsMerge`).

In three places the handlers are laxer than the create schema
(app/schemas/reservation.py:5-35), the foreign key on `table_id`
(app/models/reservation.py:10) and the unique `name` column (app/models/table.py:8)
suggest, and the model follows the handlers:

- Creating or updating a reservation does not check that the referenced table
  exists, although a reservation is meant to belong to a stored table.
- On update, a reservation's duration is bounded only to 1..240 and its time is
  not compared with the clock, although every reservation is meant to last
  30..240 minutes and not to start in the past.
- A table's name is checked for uniqueness on create only. The router does not
  check it on update.

Primary keys come from a counter, so a new id is never one in use. SQLite's
rowid allocation may hand out a deleted highest id again. The model's fresh-id
promise covers only the ids currently stored.

`Scenarios` is client code. It uses only the contracts to replay these cases:
an overlapping booking is refused, a touching booking is accepted, a past time
or a 20-minute duration is rejected, and a deleted booking is no longer found.

## Model

| member | source | states |
|---|---|---|
| `ReservationService.Conflicts` | app/services/reservation_service.py:17-26 | the query result holds exactly the stored reservations on the table whose window meets the proposed one with strict comparisons and which are not excluded; it is never longer than the store |
| `ReservationService.IsTableAvailable` | app/services/reservation_service.py:6-27 | true iff every stored reservation either fails the half-open overlap test on that table or carries the truthy excluded id |
| `ReservationService.TouchingBookingNeverConflicts` | app/services/reservation_service.py:19-20 | a booking that ends exactly at the proposed start, or starts exactly at its end, never changes the verdict |
| `ReservationService.OtherTableNeverMatters` | app/services/reservation_service.py:18 | reservations on another table never change the verdict |
| `ReservationService.ExcludedReservationIgnored` | app/services/reservation_service.py:23-24 | the reservation whose id is the truthy excluded id is ignored whatever its window |
| `ReservationService.ConflictBlocksWithoutExclusion` | app/services/reservation_service.py:17-27 | without an exclusion any one conflicting reservation makes the slot unavailable |
| `ReservationService.ZeroExclusionIsNoExclusion` | app/services/reservation_service.py:23 | an excluded id of 0 is falsy and behaves exactly like no exclusion |
| `ReservationService.AcceptedCreateKeepsNoDoubleBooking` | app/routers/reservations.py:58-65 | appending a reservation whose window passed the check with no exclusion keeps every table's reservations pairwise non-overlapping |
| `ReservationService.AcceptedUpdateKeepsNoDoubleBooking` | app/routers/reservations.py:85-97 | rewriting one record whose new window passed the check with its own id excluded keeps the invariant |
| `ReservationService.UnchangedWindowKeepsNoDoubleBooking` | app/routers/reservations.py:84-97 | an update that skips the check because it leaves table, time and duration alone keeps the invariant |
| `ReservationService.OwnWindowIsAvailable` | app/routers/reservations.py:86-90 | while the invariant holds, a stored reservation's own window checked with its own id excluded is available, so resubmitting it never conflicts |
| `Store.FirstIndex` | app/routers/reservations.py:42 | the `filter(...).first()` lookup: the index returned satisfies the filter and no earlier element does; none is returned only when no element satisfies it |
| `Store.FoundReservationIsOnly` | app/models/reservation.py:8 | with unique primary keys the record found by id is the only one carrying it |
| `Store.FoundTableIsOnly` | app/models/table.py:7 | with unique primary keys the table found by id is the only one carrying it |
| `ReservationSchema.EnsureTimezoneAwareAndFuture` | app/schemas/reservation.py:11-27 | the time is normalised to UTC, a naive time taken as UTC; it is rejected iff strictly before now, and the normalised instant is returned |
| `ReservationSchema.DurationMustBeReasonable` | app/schemas/reservation.py:29-35 | a duration passes iff it lies in [30, 240] and is returned unchanged |
| `ReservationSchema.ParseCreate` | app/schemas/reservation.py:5-35 | a create request is accepted iff the name has 1..100 characters, the table id is positive, the UTC time is not before now and the duration lies in [30, 240]; the accepted value carries the UTC instant; each rejected field is named exactly when it is out of range |
| `ReservationSchema.UpdateErrors` | app/schemas/reservation.py:40-44 | an update is valid iff each supplied field is in its bounds: name 1..100, table id positive, duration 1..240; the time is not checked |
| `ReservationSchema.SameInstantValidatesAlike` | app/schemas/reservation.py:16-21 | a zone-aware time and the same instant written as naive UTC validate identically |
| `ReservationSchema.NormalisedTimeRevalidates` | app/schemas/reservation.py:21-27 | the returned UTC value validates again to itself |
| `ReservationSchema.ValidationDependsOnClock` | app/schemas/reservation.py:24-25 | a time equal to now is accepted and the same time is rejected one minute later |
| `ReservationSchema.UpdateSchemaIsLaxer` | app/schemas/reservation.py:40-44 | a duration of 1..29 and a past time pass the update schema but are both rejected by the create schema |
| `ReservationSchema.CreateValidImpliesUpdateValid` | app/schemas/reservation.py:5-44 | every value the create schema accepts also passes the update schema |
| `TableSchema.RemoveSpaces` | app/schemas/table.py:11 | `replace(' ', '')`: a character occurs in the result iff it occurs in the input and is not a space; the result is no longer than the input |
| `TableSchema.RemoveSpacesCounts` | app/schemas/table.py:11 | every non-space character occurs in the result exactly as often as in the input, and no space is left |
| `TableSchema.RemoveSpacesConcat` | app/schemas/table.py:11 | dropping spaces distributes over concatenation, so the remaining characters keep their order; with `RemoveSpacesCounts` this fixes the result exactly |
| `TableSchema.NameMustNotContainSpecialChars` | app/schemas/table.py:9-13 | a name passes iff every character is a letter, digit or space and at least one is not a space; a valid name is returned unchanged |
| `TableSchema.ParseCreate` | app/schemas/table.py:4-13 | a create request is accepted iff the name has 1..100 characters and passes the character rule, seats lie in [1, 20] and the location has 1..100 characters; the accepted value echoes the fields; each of name, seats and location is named in the error list exactly when it is rejected |
| `TableSchema.UpdateErrors` | app/schemas/table.py:18-21 | an update is valid iff each supplied field is in its bounds; the name gets no character check |
| `TableSchema.AllSpacesNameRejected` | app/schemas/table.py:11-12 | a name made only of spaces is rejected |
| `TableSchema.EmptyNameRejected` | tests/test_tables.py:101-110 | the empty name is rejected by the create schema, which names the field |
| `TableSchema.UpdateSkipsNameCharacterCheck` | app/schemas/table.py:18-21 | any name of 1..100 characters holding a character that is not a letter, digit or space fails the create schema and passes the update schema |
| `PartialUpdate.ApplyFieldsConcat` | app/routers/reservations.py:96-97 | applying two batches of `setattr` in a row is applying their concatenation (the same loop is at app/routers/tables.py:85-86) |
| `ReservationRouter.SetAttrLoopIsMerge` | app/routers/reservations.py:84-97 | the `setattr` loop over the supplied fields gives the field-by-field merge: supplied fields replaced, the others and the id kept |
| `PartialUpdate.SetAttrLoop` | app/routers/reservations.py:96-97 | the loop over the supplied fields, written out with its invariant, yields exactly `setattr` applied to each field in order (the same loop is at app/routers/tables.py:85-86) |
| `ReservationRouter.ReplacingKeepsKeys` | app/models/reservation.py:8 | rewriting one record without changing its id keeps primary keys unique and in range |
| `ReservationRouter.GetReservations` | app/routers/reservations.py:32-33 | the listing is the stored reservations in store order; its agreement with a single get is `GetAgreesWithList` |
| `ReservationRouter.GetReservation` | app/routers/reservations.py:41-48 | returns a stored record with the id, and NotFound iff no stored record has it |
| `ReservationRouter.GetAgreesWithList` | app/routers/reservations.py:32-48 | a get by id succeeds iff the full listing contains a record with that id |
| `ReservationRouter.CreateReservation` | app/routers/reservations.py:57-68 | an invalid request gives Invalid and an unavailable window gives Conflict, both leaving the store unchanged; otherwise exactly one record with a fresh id and the validated fields is appended and returned; tables are untouched and the invariant is kept |
| `ReservationRouter.UpdateReservation` | app/routers/reservations.py:76-101 | Invalid, or NotFound for an absent id, leave the store unchanged; the check runs only when a window field is supplied, on the supplied-or-stored values with the own id excluded, and a failure gives Conflict with nothing changed; otherwise only that record becomes the merge; with no window field it never gives Conflict; resubmitting the stored window never gives Conflict while the invariant holds; the invariant is kept |
| `ReservationRouter.DeleteReservation` | app/routers/reservations.py:109-118 | NotFound for an absent id changes nothing; otherwise exactly that record is removed, the others keep their order, and a later get of the id gives NotFound |
| `TableRouter.SetAttrLoopIsMerge` | app/routers/tables.py:84-86 | the `setattr` loop over the supplied fields gives the field-by-field merge |
| `TableRouter.ReplacingKeepsKeys` | app/models/table.py:7 | rewriting one table without changing its id keeps primary keys unique and in range |
| `TableRouter.GetTables` | app/routers/tables.py:31-32 | the listing is the stored tables in store order; its agreement with a single get is `GetAgreesWithList` |
| `TableRouter.GetTable` | app/routers/tables.py:40-47 | returns a stored table with the id, and NotFound iff no stored table has it |
| `TableRouter.GetAgreesWithList` | app/routers/tables.py:31-47 | a get by id succeeds iff the full listing contains a table with that id |
| `TableRouter.CreateTable` | app/routers/tables.py:56-68 | Invalid leaves the store unchanged; a name some stored table already has gives Conflict and changes nothing; otherwise one table with a fresh id echoing name, seats and location is appended; reservations are untouched |
| `TableRouter.UpdateTable` | app/routers/tables.py:76-90 | Invalid, or NotFound for an absent id, change nothing; otherwise only that table becomes the merge; it never gives Conflict, so success depends on no other table's name |
| `TableRouter.DeleteTable` | app/routers/tables.py:98-107 | NotFound for an absent id changes nothing; otherwise exactly that table is removed and a later get gives NotFound; reservations, including those referencing it, are unchanged |

## Left out

- Persistence: sessions, `add`/`commit`/`refresh` and the SQL text of the interval arithmetic are abstracted as an in-memory store. Commits are taken to succeed. The store-level unique constraint on table names is not modelled, so an update that duplicates a name succeeds in the model, while the store would refuse it at commit. Foreign-key enforcement is not modelled either.
- Concurrency: the check-then-insert race between simultaneous requests is outside a sequential model.
- Time: ISO-8601 parsing and time-zone databases are left out. A submitted time is a naive minute count or a local minute count with a UTC offset, and the clock is the `now` parameter.
- ReservationSchema.ReservationUpdate: the update schema stores a supplied time as given, without normalising it. The model takes that time as a UTC minute count and does not represent a zone-aware time here.
- TableSchema.IsAlnumChar: Python's `isalnum` uses the full Unicode tables. The model accepts exactly ASCII letters and digits, the Latin-1 characters U+00AA, U+00B2-U+00B3, U+00B5, U+00B9-U+00BA, U+00BC-U+00BE and U+00C0-U+00FF without U+00D7 and U+00F7, and the Cyrillic letters U+0400-U+0481 and U+048A-U+04FF. Every other character `isalnum` accepts is rejected by the model: letters of other scripts, the Cyrillic Supplement letters from U+0500, and every decimal digit or numeric character outside ASCII and Latin-1. A name such as "Стол ½" or "µ1" is accepted by both.
- Explicit `null` values in an update body, which the source treats as supplied `None` values, are not representable. An update field is either absent or present with a value.
- Validation error detail: messages, error types and pydantic's per-error entries are reduced to the list of rejected field names.
- Response serialisation: the response models `ReservationOut` and `TableOut` (app/schemas/reservation.py:46, app/schemas/table.py:23) inherit the create validators, which therefore run again on every record a handler returns. This framework-side check is not modelled. In the source, any response that carries a reservation whose time has passed or whose duration is under 30 minutes, or a table whose name fails the name rule (punctuation or another character that is not a letter or digit, or spaces only), is answered with a server error; the model answers `Ok`. This covers a get, a listing, and an update, which is committed before the error. An accepted update can store such a record, because the update schemas check neither the clock, nor the 30-minute minimum, nor the name rule, so later gets and listings of it fail too.
- HTTP routing and status codes: these are mapped to the `Outcome` datatype. The `GET /health` endpoint, CORS, startup and shutdown hooks, logging configuration, the error-body schema and the test fixtures have no domain logic and are not part of this model.
- ReservationRouter.GetReservations and TableRouter.GetTables return the stored list as it is and carry no contract of their own. What they promise is stated through `GetAgreesWithList`.
