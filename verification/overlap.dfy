/**
 The conflict test shared by the availability query and the booking
 operation: an existing reservation conflicts with a requested window when
 it is NOT the case that it ends at or before the window's start or starts
 at or after the window's end.
 */
module Overlap {
  import opened Times
  import opened Tables

  /** `NOT (end_time <= start OR start_time >= end)` for an existing reservation. */
  predicate Conflicts(existing: Reservation, start: string, end: string) {
    !(Le(existing.endTime, start) || Le(end, existing.startTime))
  }

  /** Two stored reservations overlap when either conflicts with the other's window. */
  predicate Overlaps(a: Reservation, b: Reservation) {
    Conflicts(a, b.startTime, b.endTime)
  }

  /** The conflict test is half-open interval intersection: `start < existing.end && existing.start < end`. */
  lemma ConflictsIffIntersect(existing: Reservation, start: string, end: string)
    ensures Conflicts(existing, start, end) <==>
      Lt(start, existing.endTime) && Lt(existing.startTime, end)
  {
    NotLeIsGreater(existing.endTime, start);
    NotLeIsGreater(end, existing.startTime);
  }

  lemma OverlapSymmetric(a: Reservation, b: Reservation)
    ensures Overlaps(a, b) <==> Overlaps(b, a)
  {
  }

  /** Windows that only touch at a boundary never conflict. */
  lemma TouchingNeverConflicts(existing: Reservation, start: string, end: string)
    requires existing.endTime == start || existing.startTime == end
    ensures !Conflicts(existing, start, end)
  {
    LeReflexive(start);
    LeReflexive(end);
  }

  /** A reservation with a non-empty window conflicts with that same window. */
  lemma NonEmptyWindowConflictsWithItself(r: Reservation)
    requires Lt(r.startTime, r.endTime)
    ensures Overlaps(r, r)
  {
    if Le(r.endTime, r.startTime) {
      LeAntisymmetric(r.startTime, r.endTime);
    }
  }

  /** A reservation whose window is empty or inverted conflicts with nothing at its own window. */
  lemma EmptyWindowNeverSelfConflicts(r: Reservation)
    requires Le(r.endTime, r.startTime)
    ensures !Overlaps(r, r)
  {
  }

  /** No two reservations for the same room and date overlap. */
  predicate NoDoubleBooking(ledger: seq<Reservation>) {
    forall i, j ::
      (0 <= i < j < |ledger| && ledger[i].roomId == ledger[j].roomId && ledger[i].date == ledger[j].date)
      ==> !Overlaps(ledger[i], ledger[j])
  }

  /** Whether some reservation of `roomId` on `date` conflicts with `[start, end)`. */
  predicate BookedDuring(ledger: seq<Reservation>, roomId: int, date: string, start: string, end: string) {
    exists k :: 0 <= k < |ledger| && ledger[k].roomId == roomId && ledger[k].date == date
      && Conflicts(ledger[k], start, end)
  }
}
