/**
 The two tables of the hotel database as plain data: the room catalog and
 the reservation ledger, together with the AUTOINCREMENT counter that issues
 reservation ids.
 */
module Tables {
  import opened Wrappers

  /** A row of `rooms`; `features` is the decoded JSON list. */
  datatype Room = Room(id: int, capacity: int, features: seq<string>)

  /** A row of `reservations`. */
  datatype Reservation = Reservation(
    id: int,
    roomId: int,
    guestName: string,
    date: string,
    startTime: string,
    endTime: string)

  /**
   The database: the catalog in storage order, the ledger in insertion order,
   and `nextId`, one past the largest reservation id ever issued.
   */
  datatype Store = Store(rooms: seq<Room>, reservations: seq<Reservation>, nextId: int)

  /** `rooms.id` is the primary key. */
  predicate UniqueRoomIds(rooms: seq<Room>) {
    forall i, j :: 0 <= i < j < |rooms| ==> rooms[i].id != rooms[j].id
  }

  /** Reservation ids grow with insertion order, so none is ever reused. */
  predicate IdsIncreasing(ledger: seq<Reservation>) {
    forall i, j :: 0 <= i < j < |ledger| ==> ledger[i].id < ledger[j].id
  }

  /** Every issued id lies below the counter. */
  predicate IdsBelow(ledger: seq<Reservation>, nextId: int) {
    forall i :: 0 <= i < |ledger| ==> ledger[i].id < nextId
  }

  /** Whether the catalog has a room with this id. */
  predicate HasRoom(rooms: seq<Room>, id: int) {
    exists k :: 0 <= k < |rooms| && rooms[k].id == id
  }

  /** Every reservation names a catalog room (the foreign key of `reservations.room_id`). */
  predicate KnownRooms(s: Store) {
    forall i :: 0 <= i < |s.reservations| ==> HasRoom(s.rooms, s.reservations[i].roomId)
  }

  /** The catalog row with a given id (`SELECT ... FROM rooms WHERE id = ?`). */
  function FindRoom(rooms: seq<Room>, id: int): (r: Option<Room>)
    ensures r.Some? <==> HasRoom(rooms, id)
    ensures r.Some? ==> r.value in rooms && r.value.id == id
  {
    if |rooms| == 0 then None
    else if rooms[0].id == id then Some(rooms[0])
    else
      var rest := FindRoom(rooms[1..], id);
      assert HasRoom(rooms, id) ==> HasRoom(rooms[1..], id) by {
        if HasRoom(rooms, id) {
          var k :| 0 <= k < |rooms| && rooms[k].id == id;
          assert rooms[1..][k - 1].id == id;
        }
      }
      assert HasRoom(rooms[1..], id) ==> HasRoom(rooms, id) by {
        if HasRoom(rooms[1..], id) {
          var k :| 0 <= k < |rooms[1..]| && rooms[1..][k].id == id;
          assert rooms[k + 1].id == id;
        }
      }
      rest
  }

  /** With unique ids, the row `FindRoom` returns is the one room that has that id. */
  lemma FindRoomUnique(rooms: seq<Room>, room: Room)
    requires UniqueRoomIds(rooms)
    requires room in rooms
    ensures FindRoom(rooms, room.id) == Some(room)
  {
    var r := FindRoom(rooms, room.id);
    var i :| 0 <= i < |rooms| && rooms[i] == room;
    var j :| 0 <= j < |rooms| && rooms[j] == r.value;
    assert i == j;
  }
}
