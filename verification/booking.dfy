/**
 `reserve_room`: validate, then append.  The checks run in this order:
 every field truthy, the room exists, no conflicting reservation for that
 room and date.  Only when all pass is a reservation appended under the next
 AUTOINCREMENT id.  There is no check that the start precedes the end.
 */
module Booking {
  import opened Wrappers
  import opened Times
  import opened Tables
  import opened Overlap

  /** The request dictionary; `None` is an absent key. */
  datatype Request = Request(
    roomId: Option<int>,
    guestName: Option<string>,
    date: Option<string>,
    startTime: Option<string>,
    endTime: Option<string>)

  /** The `details` part of a confirmation: the request plus the room's capacity and features. */
  datatype Details = Details(
    roomId: int,
    capacity: int,
    features: seq<string>,
    guestName: string,
    date: string,
    startTime: string,
    endTime: string)

  /** The result dictionary, one variant per branch that returns. */
  datatype Outcome =
    | Reserved(reservationId: int, details: Details)
    | MissingInformation
    | NoSuchRoom(roomId: int)
    | NotAvailable(roomId: int)

  /** The `status` field of the result. */
  function Status(o: Outcome): string {
    if o.Reserved? then "success" else "error"
  }

  /** What a call returns together with the database afterwards. */
  datatype Transition = Transition(outcome: Outcome, after: Store)

  /** All five fields are present and truthy (`all([...])`). */
  predicate Complete(req: Request) {
    && IntGiven(req.roomId)
    && TextGiven(req.guestName)
    && TextGiven(req.date)
    && TextGiven(req.startTime)
    && TextGiven(req.endTime)
  }

  /** The row a successful request inserts under id `id`. */
  function RowFor(req: Request, id: int): Reservation
    requires Complete(req)
  {
    Reservation(id, req.roomId.value, req.guestName.value, req.date.value,
                req.startTime.value, req.endTime.value)
  }

  /** Some reservation of the requested room on the requested date conflicts with the requested window. */
  predicate Clashes(s: Store, req: Request)
    requires Complete(req)
  {
    BookedDuring(s.reservations, req.roomId.value, req.date.value, req.startTime.value, req.endTime.value)
  }

  function ReserveRoom(s: Store, req: Request): (t: Transition)
    // rejections, in the order the checks run, leave the database untouched
    ensures !Complete(req) ==> t == Transition(MissingInformation, s)
    ensures Complete(req) && !HasRoom(s.rooms, req.roomId.value) ==>
      t == Transition(NoSuchRoom(req.roomId.value), s)
    ensures Complete(req) && HasRoom(s.rooms, req.roomId.value) && Clashes(s, req) ==>
      t == Transition(NotAvailable(req.roomId.value), s)
    ensures t.outcome.Reserved? <==>
      Complete(req) && HasRoom(s.rooms, req.roomId.value) && !Clashes(s, req)
    // success appends exactly one row with the given fields and a fresh id
    ensures t.outcome.Reserved? ==>
      && t.after.rooms == s.rooms
      && t.after.reservations == s.reservations + [RowFor(req, t.outcome.reservationId)]
      && t.outcome.reservationId == s.nextId
      && t.after.nextId == s.nextId + 1
    // the confirmation echoes the request and the booked room's catalog row
    ensures t.outcome.Reserved? ==>
      var d := t.outcome.details;
      && Room(d.roomId, d.capacity, d.features) in s.rooms
      && d.roomId == req.roomId.value && d.guestName == req.guestName.value
      && d.date == req.date.value && d.startTime == req.startTime.value && d.endTime == req.endTime.value
  {
    if !Complete(req) then Transition(MissingInformation, s)
    else
      var id := req.roomId.value;
      match FindRoom(s.rooms, id)
      case None => Transition(NoSuchRoom(id), s)
      case Some(room) =>
        if Clashes(s, req) then Transition(NotAvailable(id), s)
        else
          var row := RowFor(req, s.nextId);
          var details := Details(id, room.capacity, room.features, row.guestName, row.date,
                                 row.startTime, row.endTime);
          Transition(Reserved(s.nextId, details), Store(s.rooms, s.reservations + [row], s.nextId + 1))
  }

  /** The properties the tables keep: primary keys, the id counter, no double booking. */
  predicate Valid(s: Store) {
    && UniqueRoomIds(s.rooms)
    && IdsIncreasing(s.reservations)
    && IdsBelow(s.reservations, s.nextId)
    && NoDoubleBooking(s.reservations)
  }

  /** A successful booking's id is greater than every earlier reservation id. */
  lemma ReservedIdIsFresh(s: Store, req: Request)
    requires IdsBelow(s.reservations, s.nextId)
    requires ReserveRoom(s, req).outcome.Reserved?
    ensures forall k :: 0 <= k < |s.reservations| ==>
      s.reservations[k].id < ReserveRoom(s, req).outcome.reservationId
  {
  }

  /** The confirmation's capacity and features are those of the requested room. */
  lemma ConfirmationEchoesRoom(s: Store, req: Request, room: Room)
    requires UniqueRoomIds(s.rooms)
    requires room in s.rooms
    requires ReserveRoom(s, req).outcome.Reserved?
    requires req.roomId == Some(room.id)
    ensures ReserveRoom(s, req).outcome.details.capacity == room.capacity
    ensures ReserveRoom(s, req).outcome.details.features == room.features
  {
    FindRoomUnique(s.rooms, room);
  }

  /** `reserve_room` preserves the table invariants, in particular no double booking. */
  lemma ReservePreservesValid(s: Store, req: Request)
    requires Valid(s)
    ensures Valid(ReserveRoom(s, req).after)
  {
    var t := ReserveRoom(s, req);
    if t.outcome.Reserved? {
      var L := t.after.reservations;
      var n := |s.reservations|;
      var row := L[n];
      forall i, j | 0 <= i < j < |L| && L[i].roomId == L[j].roomId && L[i].date == L[j].date
        ensures !Overlaps(L[i], L[j])
      {
        if j == n {
          assert L[i] == s.reservations[i];
          assert !Conflicts(L[i], row.startTime, row.endTime);
        } else {
          assert L[i] == s.reservations[i] && L[j] == s.reservations[j];
        }
      }
    }
  }

  /** Every reservation names a catalog room, and `reserve_room` keeps it so. */
  lemma ReservePreservesKnownRooms(s: Store, req: Request)
    requires KnownRooms(s)
    ensures KnownRooms(ReserveRoom(s, req).after)
  {
    var t := ReserveRoom(s, req);
    if t.outcome.Reserved? {
      var L := t.after.reservations;
      forall i | 0 <= i < |L|
        ensures HasRoom(t.after.rooms, L[i].roomId)
      {
        if i < |s.reservations| {
          assert L[i] == s.reservations[i];
        }
      }
    }
  }

  /**
   Repeating a successful call whose window is non-empty fails with the
   conflict error, so the ledger grows by exactly one row over both calls.
   */
  lemma RepeatIsRejected(s: Store, req: Request)
    requires ReserveRoom(s, req).outcome.Reserved?
    requires Lt(req.startTime.value, req.endTime.value)
    ensures var s1 := ReserveRoom(s, req).after;
      && ReserveRoom(s1, req) == Transition(NotAvailable(req.roomId.value), s1)
      && |s1.reservations| == |s.reservations| + 1
  {
    var s1 := ReserveRoom(s, req).after;
    var k := |s.reservations|;
    assert s1.reservations[k] == RowFor(req, s.nextId);
    NonEmptyWindowConflictsWithItself(s1.reservations[k]);
    assert Clashes(s1, req);
  }

  /**
   With an empty window (start equal to end) the same request succeeds again,
   leaving two identical bookings: the conflict test alone does not guard
   against repeats.
   */
  lemma EmptyWindowRepeatIsAccepted(s: Store, req: Request)
    requires ReserveRoom(s, req).outcome.Reserved?
    requires req.startTime == req.endTime
    ensures ReserveRoom(ReserveRoom(s, req).after, req).outcome.Reserved?
  {
    var s1 := ReserveRoom(s, req).after;
    var k := |s.reservations|;
    LeReflexive(req.startTime.value);
    assert !Conflicts(s1.reservations[k], req.startTime.value, req.endTime.value);
  }

  /** Apply a sequence of requests one after the other. */
  function ReserveAll(s: Store, reqs: seq<Request>): (r: Store)
    ensures r.rooms == s.rooms
    ensures |s.reservations| <= |r.reservations| <= |s.reservations| + |reqs|
    ensures r.reservations[..|s.reservations|] == s.reservations
    decreases |reqs|
  {
    if |reqs| == 0 then s
    else
      var s1 := ReserveRoom(s, reqs[0]).after;
      var r := ReserveAll(s1, reqs[1..]);
      assert s1.reservations[..|s.reservations|] == s.reservations;
      assert r.reservations[..|s1.reservations|] == s1.reservations;
      assert r.reservations[..|s.reservations|] == s1.reservations[..|s.reservations|];
      r
  }

  /** After any sequence of calls there is still no double booking. */
  lemma {:induction false} ReserveAllPreservesValid(s: Store, reqs: seq<Request>)
    requires Valid(s)
    ensures Valid(ReserveAll(s, reqs))
    decreases |reqs|
  {
    if |reqs| > 0 {
      ReservePreservesValid(s, reqs[0]);
      ReserveAllPreservesValid(ReserveRoom(s, reqs[0]).after, reqs[1..]);
    }
  }
}
