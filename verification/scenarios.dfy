/**
 Concrete situations from the repository's availability checks and from the
 booking rules, replayed on a small database.
 */
module Scenarios {
  import opened Wrappers
  import opened Times
  import opened Tables
  import opened Overlap
  import opened Availability
  import opened Booking

  const room1 := Room(1, 2, ["WiFi"])
  const room2 := Room(2, 4, ["TV", "WiFi"])
  const irene := Reservation(1, 1, "Irene", "2025-05-12", "08:00", "12:00")
  const grace := Reservation(2, 2, "Grace", "2025-05-11", "14:00", "16:00")
  const sample := Store([room1, room2], [irene, grace], 3)

  function WindowQuery(date: string, start: string, end: string): Query {
    Query(Some(date), Some(start), Some(end), None, None)
  }

  /** Starting exactly when room 1's booking ends does not exclude room 1. */
  lemma StartAtPreviousEndIsFree()
    ensures room1 in CheckAvailability(sample.rooms, sample.reservations, WindowQuery("2025-05-12", "12:00", "14:00"))
  {
    var q := WindowQuery("2025-05-12", "12:00", "14:00");
    TouchingNeverConflicts(irene, "12:00", "14:00");
    ListedIff(room1, sample.rooms, sample.reservations, q);
  }

  /** Ending exactly when room 2's booking starts does not exclude room 2. */
  lemma EndAtNextStartIsFree()
    ensures room2 in CheckAvailability(sample.rooms, sample.reservations, WindowQuery("2025-05-11", "12:00", "14:00"))
  {
    var q := WindowQuery("2025-05-11", "12:00", "14:00");
    TouchingNeverConflicts(grace, "12:00", "14:00");
    ListedIff(room2, sample.rooms, sample.reservations, q);
  }

  /** A window overlapping room 2's booking excludes room 2. */
  lemma OverlapExcludes()
    ensures room2 !in CheckAvailability(sample.rooms, sample.reservations, WindowQuery("2025-05-11", "13:00", "15:00"))
  {
    ClockOrderIsNumeric("16:00", "13:00");
    ClockOrderIsNumeric("15:00", "14:00");
    assert Conflicts(sample.reservations[1], "13:00", "15:00");
  }

  /** A date with no reservations lists every room. */
  lemma EmptyDateListsEveryRoom()
    ensures CheckAvailability(sample.rooms, sample.reservations, WindowQuery("2025-06-01", "12:00", "14:00")) == sample.rooms
  {
    UnbookedDateListsAll(sample.rooms, sample.reservations, WindowQuery("2025-06-01", "12:00", "14:00"));
  }

  /** Booking into an existing reservation is refused and changes nothing. */
  lemma OverlappingBookingRefused()
    ensures ReserveRoom(sample, Request(Some(1), Some("Alice"), Some("2025-05-12"), Some("09:30"), Some("10:30")))
      == Transition(NotAvailable(1), sample)
  {
    ClockOrderIsNumeric("12:00", "09:30");
    ClockOrderIsNumeric("10:30", "08:00");
    assert Conflicts(sample.reservations[0], "09:30", "10:30");
  }

  /** Booking a room that is not in the catalog is refused and changes nothing. */
  lemma UnknownRoomRefused()
    ensures ReserveRoom(sample, Request(Some(99), Some("Alice"), Some("2025-05-12"), Some("13:00"), Some("14:00")))
      == Transition(NoSuchRoom(99), sample)
  {
  }

  /** Room id 0 and an empty name both count as missing information. */
  lemma FalsyFieldsAreMissing()
    ensures ReserveRoom(sample, Request(Some(0), Some("Alice"), Some("2025-05-12"), Some("13:00"), Some("14:00")))
      == Transition(MissingInformation, sample)
    ensures ReserveRoom(sample, Request(Some(1), Some(""), Some("2025-05-12"), Some("13:00"), Some("14:00")))
      == Transition(MissingInformation, sample)
  {
  }

  /** An inverted window is not rejected: it is booked like any other. */
  lemma InvertedWindowAccepted()
    ensures ReserveRoom(sample, Request(Some(2), Some("Alice"), Some("2025-05-12"), Some("12:00"), Some("10:00")))
      .outcome == Reserved(3, Details(2, 4, ["TV", "WiFi"], "Alice", "2025-05-12", "12:00", "10:00"))
  {
    assert FindRoom(sample.rooms, 2) == Some(room2) by {
      FindRoomUnique(sample.rooms, room2);
    }
    assert sample.reservations[1].date != "2025-05-12";
  }
}
