/**
 `check_availability`: a pure filter over the catalog.  A room survives when
 its capacity reaches the requested minimum, it has no conflicting
 reservation in the requested window (only when date, start and end are all
 given), and its feature list contains every required feature.
 */
module Availability {
  import opened Wrappers
  import opened Tables
  import opened Overlap

  /** The query dictionary; `None` is an absent key. */
  datatype Query = Query(
    date: Option<string>,
    startTime: Option<string>,
    endTime: Option<string>,
    capacity: Option<int>,
    features: Option<seq<string>>)

  /** The minimum capacity, 1 when the key is absent; any integer is accepted. */
  function MinCapacity(q: Query): int {
    q.capacity.GetOr(1)
  }

  /** The required features, none when the key is absent. */
  function Required(q: Query): seq<string> {
    q.features.GetOr([])
  }

  /** The time filter applies only when date, start and end are all truthy. */
  predicate WindowGiven(q: Query) {
    TextGiven(q.date) && TextGiven(q.startTime) && TextGiven(q.endTime)
  }

  predicate HasFeatures(room: Room, required: seq<string>) {
    forall f :: f in required ==> f in room.features
  }

  /** The room is taken during the query's window (false when no window is given). */
  predicate TakenInWindow(room: Room, ledger: seq<Reservation>, q: Query) {
    WindowGiven(q)
    && BookedDuring(ledger, room.id, q.date.value, q.startTime.value, q.endTime.value)
  }

  /** `a` is `b` with some elements dropped, the rest kept in order. */
  predicate SubseqOf<T(==)>(a: seq<T>, b: seq<T>)
    decreases |b|
  {
    if |b| == 0 then a == []
    else a == [] || (a[0] == b[0] && SubseqOf(a[1..], b[1..])) || SubseqOf(a, b[1..])
  }

  /**
   The rooms listed for a query, in catalog order.  Each listed room is the
   catalog row itself, so its id, capacity and features are echoed.
   */
  function CheckAvailability(rooms: seq<Room>, ledger: seq<Reservation>, q: Query): (r: seq<Room>)
    ensures SubseqOf(r, rooms)
    ensures forall x :: x in r ==> x.capacity >= MinCapacity(q)
    ensures forall x :: x in r ==> HasFeatures(x, Required(q))
    ensures forall x :: x in r ==> !TakenInWindow(x, ledger, q)
    ensures forall x ::
      (x in rooms && x.capacity >= MinCapacity(q) && HasFeatures(x, Required(q)) && !TakenInWindow(x, ledger, q))
      ==> x in r
  {
    if |rooms| == 0 then []
    else
      var room := rooms[0];
      var rest := CheckAvailability(rooms[1..], ledger, q);
      assert rooms == [room] + rooms[1..];
      if room.capacity >= MinCapacity(q) && !TakenInWindow(room, ledger, q)
        && HasFeatures(room, Required(q))
      then [room] + rest
      else rest
  }

  /**
   Each catalog row that passes the tests is listed as often as it occurs in
   the catalog, and a failing row never; so duplicates are neither merged nor
   invented.
   */
  lemma {:induction false} ListedCounts(rooms: seq<Room>, ledger: seq<Reservation>, q: Query, x: Room)
    ensures multiset(CheckAvailability(rooms, ledger, q))[x] ==
      if x.capacity >= MinCapacity(q) && HasFeatures(x, Required(q)) && !TakenInWindow(x, ledger, q)
      then multiset(rooms)[x] else 0
    decreases |rooms|
  {
    if |rooms| > 0 {
      ListedCounts(rooms[1..], ledger, q, x);
      assert rooms == [rooms[0]] + rooms[1..];
    }
  }

  /** Membership in the result is exactly passing all three tests. */
  predicate Listed(room: Room, rooms: seq<Room>, ledger: seq<Reservation>, q: Query) {
    room in CheckAvailability(rooms, ledger, q)
  }

  lemma ListedIff(room: Room, rooms: seq<Room>, ledger: seq<Reservation>, q: Query)
    ensures Listed(room, rooms, ledger, q) <==>
      && room in rooms
      && room.capacity >= MinCapacity(q)
      && HasFeatures(room, Required(q))
      && !TakenInWindow(room, ledger, q)
  {
    SubseqMembers(CheckAvailability(rooms, ledger, q), rooms);
  }

  lemma {:induction false} SubseqMembers<T>(a: seq<T>, b: seq<T>)
    requires SubseqOf(a, b)
    ensures forall x :: x in a ==> x in b
    decreases |b|
  {
    if |b| > 0 && a != [] {
      if a[0] == b[0] && SubseqOf(a[1..], b[1..]) {
        SubseqMembers(a[1..], b[1..]);
        assert a == [a[0]] + a[1..];
      } else {
        SubseqMembers(a, b[1..]);
      }
    }
  }

  /** Lowering the capacity bound can only enlarge the result. */
  lemma CapacityMonotone(rooms: seq<Room>, ledger: seq<Reservation>, q: Query, lower: int)
    requires lower <= MinCapacity(q)
    ensures forall x :: x in CheckAvailability(rooms, ledger, q) ==>
      x in CheckAvailability(rooms, ledger, q.(capacity := Some(lower)))
  {
    forall x | x in CheckAvailability(rooms, ledger, q)
      ensures x in CheckAvailability(rooms, ledger, q.(capacity := Some(lower)))
    {
      ListedIff(x, rooms, ledger, q);
      ListedIff(x, rooms, ledger, q.(capacity := Some(lower)));
    }
  }

  /** Requiring more features can only shrink the result. */
  lemma FeaturesAntitone(rooms: seq<Room>, ledger: seq<Reservation>, q: Query, more: seq<string>)
    requires forall f :: f in Required(q) ==> f in more
    ensures forall x :: x in CheckAvailability(rooms, ledger, q.(features := Some(more))) ==>
      x in CheckAvailability(rooms, ledger, q)
  {
    forall x | x in CheckAvailability(rooms, ledger, q.(features := Some(more)))
      ensures x in CheckAvailability(rooms, ledger, q)
    {
      ListedIff(x, rooms, ledger, q.(features := Some(more)));
      ListedIff(x, rooms, ledger, q);
    }
  }

  /** An absent or empty feature list imposes no restriction. */
  lemma NoFeaturesNoRestriction(rooms: seq<Room>, ledger: seq<Reservation>, q: Query)
    requires q.features == None || q.features == Some([])
    ensures forall x :: x in rooms && x.capacity >= MinCapacity(q) && !TakenInWindow(x, ledger, q) ==>
      x in CheckAvailability(rooms, ledger, q)
  {
  }

  /**
   When the window is incomplete the ledger is never consulted: the result is
   the same whatever reservations exist.
   */
  lemma {:induction false} NoWindowIgnoresLedger(rooms: seq<Room>, ledger: seq<Reservation>, other: seq<Reservation>, q: Query)
    requires !WindowGiven(q)
    ensures CheckAvailability(rooms, ledger, q) == CheckAvailability(rooms, other, q)
    decreases |rooms|
  {
    if |rooms| > 0 {
      NoWindowIgnoresLedger(rooms[1..], ledger, other, q);
    }
  }

  /**
   On a date nobody has booked, a window query lists exactly what it would
   list with an empty ledger: every room meeting capacity and features, in
   catalog order.
   */
  lemma {:induction false} UnbookedDateListsAll(rooms: seq<Room>, ledger: seq<Reservation>, q: Query)
    requires WindowGiven(q)
    requires forall k :: 0 <= k < |ledger| ==> ledger[k].date != q.date.value
    ensures CheckAvailability(rooms, ledger, q) == CheckAvailability(rooms, [], q)
    decreases |rooms|
  {
    if |rooms| > 0 {
      UnbookedDateListsAll(rooms[1..], ledger, q);
    }
  }
}
