# Hotel room booking engine — Dafny model

This project models the booking core of the hotel reservation assistant,
`src/database/database_operations.py`. The core has two operations over two
SQLite tables:

- the room catalog `rooms(id, capacity, features)`;
- the reservation ledger `reservations(id, room_id, guest_name, date, start_time, end_time)`.

**`check_availability`** is a pure filter over the catalog. It applies three tests:

- the room's capacity is at least the requested minimum, which defaults to 1;
- the room has no reservation on the requested date that conflicts with the
  requested window. This test applies only when date, start and end are all
  truthy;
- the room's feature list contains every required feature.

**`reserve_room`** validates and then appends. It checks, in order:

1. all five fields are truthy;
2. the room exists;
3. no reservation of that room on that date conflicts with the window.

On success it appends a row under the next AUTOINCREMENT id. It returns a
confirmation that echoes the request together with the room's capacity and
features.

Both operations share one conflict test. An existing reservation conflicts
with `[start, end)` unless it ends at or before `start`, or starts at or after
`end`. That is half-open interval intersection, so windows that only touch at
a boundary do not conflict.

Modules, one per concept:

- `Wrappers` (`wrappers.dfy`): optional dictionary values and Python truthiness.
  An absent value, `""` and `0` are falsy.
- `Times` (`times.dfy`): SQLite's BINARY text collation, which is how dates and
  times are compared. For zero-padded `HH:MM` readings it agrees with the
  numeric clock order.
- `Tables` (`tables.dfy`): the rows, the store (both tables plus the
  AUTOINCREMENT counter), and the primary-key and id-counter invariants.
- `Overlap` (`overlap.dfy`): the shared conflict test and the no-double-booking
  invariant.
- `Availability` (`availability.dfy`): `check_availability` and its
  monotonicity properties.
- `Booking` (`booking.dfy`): `reserve_room`, preservation of the invariants,
  and repeated calls.
- `Consistency` (`consistency.dfy`): listing a room and booking it agree.
- `Scenarios` (`scenarios.dfy`): concrete situations from
  `src/database/test_db.py` and from the booking rules.

The model keeps the places where the code is more permissive than a booking system usually is:

- The code has no `start < end` check. An inverted or empty window is booked
  like any other (`Scenarios.InvertedWindowAccepted`). A repeated empty-window
  booking is accepted twice (`Booking.EmptyWindowRepeatIsAccepted`).
- A partial date/time filter is silently ignored, not rejected.
- The capacity filter is not validated, so 0 or a negative value is an
  ordinary bound.
- A missing field means a Python-falsy field, so room id `0` and empty
  strings are rejected as missing.
- Times are compared as text. The order matches the clock only for
  zero-padded readings (`Times.ClockOrderIsNumeric`). For example, "10:00"
  sorts before "9:00" (`Times.UnpaddedHourMisorders`).

Both operations are pure functions. `CheckAvailability` returns only the
listed rooms, so it cannot change the database. `ReserveRoom` returns the
outcome together with the database after the call.

## Model

| member | source | states |
|---|---|---|
| Times.LeTotal | src/database/database_operations.py:51 | any two stored time texts are comparable under the collation used by the conflict test |
| Times.LeAntisymmetric | src/database/database_operations.py:51 | two texts each at most the other are equal |
| Times.LeTransitive | src/database/database_operations.py:51 | the text order used for times is transitive |
| Times.NotLeIsGreater | src/database/database_operations.py:126 | failing `a <= b` means exactly `b < a`, so the negated test `NOT (end <= s OR start >= e)` reads as strict comparisons |
| Times.ClockOrderIsNumeric | src/database/create_database.py:26-27 | for zero-padded `HH:MM` readings with minutes below 60, text order is the order of minutes since midnight, both `<=` and `<` |
| Times.UnpaddedHourMisorders | src/database/database_operations.py:51 | an unpadded hour breaks the clock order: "10:00" sorts before "9:00" |
| Tables.FindRoom | src/database/database_operations.py:115-116 | the lookup by id finds a row exactly when the catalog has a room with that id, and the row it returns is a catalog room carrying that id |
| Tables.FindRoomUnique | src/database/database_operations.py:148-151 | with `rooms.id` a primary key, the row fetched for the confirmation is the one room with the requested id |
| Overlap.ConflictsIffIntersect | src/database/database_operations.py:51 | an existing reservation conflicts with `[start, end)` iff `start < existing.end` and `existing.start < end` (half-open intersection) |
| Overlap.OverlapSymmetric | src/database/database_operations.py:126 | the conflict relation between two stored reservations is symmetric |
| Overlap.TouchingNeverConflicts | src/database/database_operations.py:51 | a reservation that ends where the window starts, or starts where it ends, never conflicts |
| Overlap.NonEmptyWindowConflictsWithItself | src/database/database_operations.py:126 | a reservation with `start < end` conflicts with its own window |
| Overlap.EmptyWindowNeverSelfConflicts | src/database/database_operations.py:126 | a reservation with `end <= start` does not conflict with its own window |
| Availability.CheckAvailability | src/database/database_operations.py:27-78 | the result keeps catalog order; every listed room meets the capacity bound (default 1) and has every required feature; when the window is complete, no listed room has a conflicting reservation on that date; every catalog room passing all three tests is listed |
| Availability.ListedCounts | src/database/database_operations.py:61-75 | each catalog row passing all three tests appears in the result as often as in the catalog, and a failing row never appears |
| Availability.ListedIff | src/database/database_operations.py:34-68 | a room is listed iff it is in the catalog and passes the capacity, time-window and feature tests |
| Availability.CapacityMonotone | src/database/database_operations.py:30-39 | lowering the capacity bound can only enlarge the result |
| Availability.FeaturesAntitone | src/database/database_operations.py:64-68 | requiring more features can only shrink the result |
| Availability.NoFeaturesNoRestriction | src/database/database_operations.py:31 | an absent or empty feature list excludes no room |
| Availability.NoWindowIgnoresLedger | src/database/database_operations.py:42 | if date, start or end is falsy, the result is the same whatever the ledger holds |
| Availability.UnbookedDateListsAll | src/database/test_db.py:77-86 | for any catalog, a window on a date nobody booked lists exactly what an empty ledger would: every room meeting capacity and features, in catalog order |
| Booking.ReserveRoom | src/database/database_operations.py:101-168 | a falsy field gives "missing information"; an unknown room gives "does not exist"; a conflicting reservation of that room and date gives "not available". All three are checked in that order and leave the database unchanged. Otherwise the call succeeds and appends exactly one row with the given fields under the counter's id. The catalog is unchanged and the counter advances. The details echo the request and a catalog row with the room's id |
| Booking.ReservedIdIsFresh | src/database/create_database.py:22 | a new reservation id is greater than every id already in the ledger (AUTOINCREMENT) |
| Booking.ConfirmationEchoesRoom | src/database/database_operations.py:147-167 | the confirmation's capacity and features are those of the booked room |
| Booking.ReservePreservesValid | src/database/database_operations.py:123-139 | `reserve_room` keeps unique room ids, increasing reservation ids below the counter, and no double booking |
| Booking.ReservePreservesKnownRooms | src/database/database_operations.py:114-120 | if every reservation names a catalog room, that remains so after a call |
| Booking.RepeatIsRejected | src/database/database_operations.py:123-133 | repeating a successful call whose window is non-empty fails with "not available", so the ledger grows by exactly one over both calls |
| Booking.EmptyWindowRepeatIsAccepted | src/database/database_operations.py:123-139 | repeating a successful call whose start equals its end succeeds again |
| Booking.ReserveAll | src/database/database_operations.py:135-139 | a run of calls leaves the catalog alone, keeps every earlier row, and adds at most one row per call |
| Booking.ReserveAllPreservesValid | src/database/database_operations.py:123-139 | after any sequence of calls there is still no double booking |
| Consistency.ListedIsReservable | src/database/database_operations.py:42-54 | a room listed for a complete window can be booked for that window, given a non-zero id and a non-empty name |
| Consistency.ListedIffReservable | src/database/database_operations.py:123-133 | for a catalog room with a non-zero id, being listed for a window (at the room's own capacity) is equivalent to a booking of it for that window succeeding |
| Consistency.BookedRoomDropsOut | src/database/database_operations.py:47-51 | after booking a non-empty window, the room is no longer listed for it |
| Scenarios.StartAtPreviousEndIsFree | src/database/test_db.py:106-116 | a window starting when a booking ends still lists the room |
| Scenarios.EndAtNextStartIsFree | src/database/test_db.py:118-128 | a window ending when a booking starts still lists the room |
| Scenarios.OverlapExcludes | src/database/test_db.py:130-140 | a window overlapping a booking excludes the room |
| Scenarios.EmptyDateListsEveryRoom | src/database/test_db.py:77-86 | a date with no reservations lists every room |
| Scenarios.OverlappingBookingRefused | src/database/database_operations.py:129-133 | booking into an existing reservation is refused and changes nothing |
| Scenarios.UnknownRoomRefused | src/database/database_operations.py:115-120 | booking an unknown room is refused and changes nothing |
| Scenarios.FalsyFieldsAreMissing | src/database/database_operations.py:108-112 | room id 0 and an empty name are reported as missing information |
| Scenarios.InvertedWindowAccepted | src/database/database_operations.py:123-168 | a window whose end precedes its start is booked, with a confirmation echoing it |

## Left out

- Database connections, SQL text, commits and unclosed connections are I/O. The tables are modelled as sequences.
- JSON encoding of `features` is not modelled. Features are a list of strings.
- The generic exception branch (database_operations.py:170-176) is left out. It catches storage failures, and also a `json.loads` failure on the room's features at :151. That decode runs after the commit at :145, so such a call reports an error although its reservation row is committed; the model, with features already decoded, cannot reach this case.
- Concurrency and the atomicity of check-then-insert are left out. The code takes no locks, and the model is sequential.
- Message texts are not modelled. Each f-string message is represented by its outcome variant (`MissingInformation`, `NoSuchRoom`, `NotAvailable`, `Reserved`), and `Booking.Status` gives the `status` field.
- A key present with an explicit null value (`capacity: None` or `features: None`) is not modelled separately. Absent keys get their defaults. An explicit null capacity would compare as SQL NULL and match no room.
- Values of the wrong type, such as a room id given as text, are not modelled. Ids are integers and the other fields are strings.
- Result order: the query has no ORDER BY. The model returns rooms in catalog storage order, which is the table-scan order.
- `NOT IN` against a NULL `room_id` in the ledger is not modelled. Every row written by `reserve_room` has a non-zero integer room id.
- Mapping an error result to HTTP 400 (src/api/routes.py:149-150) and the LLM/agent, HTTP, UI and conversation-store layers are left out. They are glue around the two operations.
- The seed script src/database/create_database.py is used only for the schema. Its sample data is not modelled as a whole. The scenarios borrow two of its reservations (Irene and Grace) on a two-room catalog and number them 1 and 2, where a fresh seed would give them ids 7 and 5.
