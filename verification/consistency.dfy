/**
 The availability query and the booking operation use the same conflict
 test, so what one reports free the other accepts, and vice versa.
 */
module Consistency {
  import opened Wrappers
  import opened Times
  import opened Tables
  import opened Overlap
  import opened Availability
  import opened Booking

  /** A room listed for a window can be booked for that window (given a truthy id and name). */
  lemma ListedIsReservable(s: Store, q: Query, room: Room, name: string)
    requires WindowGiven(q)
    requires room in CheckAvailability(s.rooms, s.reservations, q)
    requires room.id != 0 && name != ""
    ensures ReserveRoom(s, Request(Some(room.id), Some(name), q.date, q.startTime, q.endTime)).outcome.Reserved?
  {
    ListedIff(room, s.rooms, s.reservations, q);
  }

  /**
   For a catalog room with a truthy id, being listed by a window query that
   only asks for the room's own capacity is exactly being bookable for that
   window.
   */
  lemma ListedIffReservable(s: Store, room: Room, name: string, date: string, start: string, end: string)
    requires room in s.rooms
    requires room.id != 0 && name != "" && date != "" && start != "" && end != ""
    ensures room in CheckAvailability(s.rooms, s.reservations,
                                      Query(Some(date), Some(start), Some(end), Some(room.capacity), None))
        <==> ReserveRoom(s, Request(Some(room.id), Some(name), Some(date), Some(start), Some(end))).outcome.Reserved?
  {
    ListedIff(room, s.rooms, s.reservations, Query(Some(date), Some(start), Some(end), Some(room.capacity), None));
  }

  /** Once a non-empty window is booked, the room is no longer listed for it. */
  lemma BookedRoomDropsOut(s: Store, q: Query, room: Room, name: string)
    requires WindowGiven(q)
    requires room.id != 0 && name != ""
    requires Lt(q.startTime.value, q.endTime.value)
    ensures var t := ReserveRoom(s, Request(Some(room.id), Some(name), q.date, q.startTime, q.endTime));
      t.outcome.Reserved? ==> room !in CheckAvailability(t.after.rooms, t.after.reservations, q)
  {
    var req := Request(Some(room.id), Some(name), q.date, q.startTime, q.endTime);
    var t := ReserveRoom(s, req);
    if t.outcome.Reserved? {
      var k := |s.reservations|;
      assert t.after.reservations[k] == RowFor(req, s.nextId);
      NonEmptyWindowConflictsWithItself(t.after.reservations[k]);
      assert TakenInWindow(room, t.after.reservations, q);
    }
  }
}
