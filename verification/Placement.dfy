/**
 What every operation on a schedule keeps: the loads stay exact, and every active reservation of fixed shape sits
 in exactly the slots of its time.
 */
module Placement {
  import opened Common
  import opened Reservations
  import opened Slots
  import opened Timeline
  import opened PlaceSearch

  // ------------------------------------------------------------------------------------------------ accounting

  lemma SameReserved(before: Store, after: Store, c: Cell)
    requires Accounted(before, c) && forall id :: id in c.ids ==> Reserved(before, id) == Reserved(after, id)
    ensures Accounted(after, c)
  {
    ReservedByFrame(before, after, c.ids);
  }

  lemma UpdateKeepsAccounts(s: Schedule, now: int)
    requires WellFormed(s) && AllAccounted(s) && SlotIndex(s.width, now) >= s.start
    ensures AllAccounted(Updated(s, now))
  {
    var d := SlotIndex(s.width, now) - s.start;
    var after := Updated(s, now);
    forall k | 0 <= k < |s.cells| ensures Accounted(after.store, after.cells[k]) {
      ShiftedCell(s.cells, d, k);
      if k + d < |s.cells| {
        SameReserved(s.store, after.store, s.cells[k + d]);
      } else {
        assert s.cells[(k + d) % |s.cells|].capacity == s.cells[0].capacity;
      }
    }
  }

  lemma SpanKeepsAccounts(store: Store, start: int, cells: seq<Cell>, first: int, last: int, id: ReservationId)
    requires id in store && store[id].capacity >= 0 && forall k :: 0 <= k < |cells| ==> Accounted(store, cells[k])
    ensures var after := InsertSpan(start, cells, first, last, store[id].capacity, id);
            |after| == |cells| && forall k :: 0 <= k < |cells| ==> Accounted(store, after[k])
    ensures var after := FreeSpan(start, cells, first, last, store[id].capacity, id);
            |after| == |cells| && forall k :: 0 <= k < |cells| ==> Accounted(store, after[k])
  {
    forall k | 0 <= k < |cells|
      ensures Accounted(store, InsertSpan(start, cells, first, last, store[id].capacity, id)[k])
      ensures Accounted(store, FreeSpan(start, cells, first, last, store[id].capacity, id)[k])
    {
      InsertAccounted(store, cells[k], id);
      DeleteAccounted(store, cells[k], id);
    }
  }

  lemma SpanKeepsSound(start: int, cells: seq<Cell>, first: int, last: int, capacity: int, id: ReservationId, store: Store)
    requires Sound(cells, store.Keys) && id in store
    ensures Sound(InsertSpan(start, cells, first, last, capacity, id), store.Keys)
    ensures InsertSpan(start, cells, first, last, capacity, id)[0].capacity == cells[0].capacity
  {
  }

  lemma AccountedIsSound(cells: seq<Cell>, after: seq<Cell>, store: Store)
    requires Sound(cells, store.Keys) && |after| == |cells|
    requires forall k :: 0 <= k < |cells| ==>
      Accounted(store, after[k]) && after[k].capacity == cells[k].capacity && after[k].ids <= store.Keys
    ensures Sound(after, store.Keys)
  {
  }

  lemma AllReserved(before: Schedule, after: Schedule)
    requires AllAccounted(before) && after.cells == before.cells
    requires forall id :: Reserved(before.store, id) == Reserved(after.store, id)
    ensures AllAccounted(after)
  {
    forall k | 0 <= k < |after.cells| ensures Accounted(after.store, after.cells[k]) {
      SameReserved(before.store, after.store, before.cells[k]);
    }
  }

  lemma BookingKeepsAccounts(s: Schedule, id: ReservationId)
    requires WellFormed(s) && AllAccounted(s) && id in s.store
    ensures WellFormed(BookedWithoutCheck(s, id)) && AllAccounted(BookedWithoutCheck(s, id))
  {
    var r := s.store[id];
    var first, last := FirstSlot(s.width, r), LastSlot(s.width, r);
    var entered := InsertSpan(s.start, s.cells, first, last, r.capacity, id);
    SpanKeepsAccounts(s.store, s.start, s.cells, first, last, id);
    SpanKeepsSound(s.start, s.cells, first, last, r.capacity, id, s.store);
    SpanKeepsAccounts(s.store, s.start, entered, first, last, id);
    var after := BookedWithoutCheck(s, id);
    if id in s.active {
      AccountedIsSound(entered, after.cells, s.store);
    }
    AllReserved(after.(store := s.store), after);
  }

  lemma ReserveKeepsAccounts(s: Schedule, id: ReservationId)
    requires WellFormed(s) && AllAccounted(s) && id in s.store
    ensures WellFormed(ReservedNow(s, id)) && AllAccounted(ReservedNow(s, id))
  {
    FirstFitIsLeast(s, s.store[id]);
    match FirstFit(s, s.store[id])
    case None =>
      AllReserved(s, ReservedNow(s, id));
    case Some(v) =>
      var c := TryFit(s, s.store[id], v, IntervalEnd(s.store[id])).value;
      var promoted := s.(store := Promoted(s.store, id, c));
      AllReserved(s, promoted);
      BookingKeepsAccounts(promoted, id);
  }

  lemma ReleaseKeepsAccounts(s: Schedule, id: ReservationId, now: int)
    requires WellFormed(s) && AllAccounted(s)
    ensures WellFormed(ReleasedNow(s, id, now)) && AllAccounted(ReleasedNow(s, id, now))
  {
    if id in s.active && s.store[id].assignedEnd > now {
      var r := s.store[id];
      var first, last := Max(FirstSlot(s.width, r), s.start), Clamped(s, LastSlot(s.width, r));
      SpanKeepsAccounts(s.store, s.start, s.cells, first, last, id);
      var after := ReleasedNow(s, id, now);
      AccountedIsSound(s.cells, after.cells, s.store);
      AllReserved(after.(store := s.store), after);
    }
  }

  /**
   After a change of capacity to at least one, every slot has it and is not full; the loads are still exact. Nothing is
   removed that need not be, and without the last one removed the slot would be too full.
   */
  lemma ResizeKeepsAccounts(store: Store, c: Cell, c': Cell, capacity: int)
    requires Accounted(store, c) && c.ids <= store.Keys && NonNegative(store) && Resized(store, c, c', capacity)
    ensures c'.load == ReservedBy(store, c'.ids) && 0 <= c'.load <= c.load
    ensures capacity >= 1 ==> Accounted(store, c') && c'.capacity == capacity && c'.load < capacity
    ensures capacity < 1 ==> c' == Cell(0, c.capacity, {})
    ensures c.load < capacity ==> c'.ids == c.ids
    ensures c'.ids != c.ids ==> exists id :: id in c.ids - c'.ids && c'.load + Reserved(store, id) >= capacity
  {
    ReservedBySplit(store, c.ids, c'.ids);
    ReservedByNonNegative(store, c'.ids);
    ReservedByNonNegative(store, c.ids - c'.ids);
  }

  lemma {:induction false} ReservedBySplit(store: Store, ids: set<ReservationId>, part: set<ReservationId>)
    requires part <= ids
    ensures ReservedBy(store, ids) == ReservedBy(store, part) + ReservedBy(store, ids - part)
  {
    if part == {} {
      assert ids - part == ids;
    } else {
      var id :| id in part;
      ReservedByRemove(store, ids, id);
      ReservedByRemove(store, part, id);
      ReservedBySplit(store, ids - {id}, part - {id});
      assert ids - {id} - (part - {id}) == ids - part;
    }
  }

  // ------------------------------------------------------------------------------------------------- placement

  /** The active reservations whose time covers the slot v. */
  ghost function Covering(s: Schedule, v: int): set<ReservationId>
    requires s.width >= 1 && s.active <= s.store.Keys
  {
    set id | id in s.active && FirstSlot(s.width, s.store[id]) <= v <= LastSlot(s.width, s.store[id])
  }

  /** Every slot of the window holds exactly the active reservations that cover it, and all of those end in the window. */
  ghost predicate InPlace(s: Schedule)
    requires s.width >= 1 && s.active <= s.store.Keys
  {
    && (forall v :: InWindow(s, v) ==> IdsAt(s, v) == Covering(s, v))
    && (forall id :: id in s.active ==> Occupies(s, id))
  }

  ghost predicate Occupies(s: Schedule, id: ReservationId)
    requires s.width >= 1 && id in s.store
  {
    FirstSlot(s.width, s.store[id]) <= LastSlot(s.width, s.store[id]) && InWindow(s, LastSlot(s.width, s.store[id]))
  }

  lemma ExpiredExactly(s: Schedule, newStart: int)
    requires WellFormed(s) && InPlace(s)
    ensures Expired(s, newStart) * s.active == set id | id in s.active && LastSlot(s.width, s.store[id]) < newStart
  {
    forall id | id in s.active && LastSlot(s.width, s.store[id]) < newStart ensures id in Expired(s, newStart) {
      var last := LastSlot(s.width, s.store[id]);
      assert Occupies(s, id) && id in Covering(s, last) && id in IdsAt(s, last);
      var k := last - s.start;
      assert s.start + k < newStart && id in s.cells[k].ids;
    }
  }

  /** An update ends exactly the reservations whose last slot has left the window, and marks just these as deleted. */
  lemma UpdateKeepsPlace(s: Schedule, now: int)
    requires WellFormed(s) && InPlace(s) && SlotIndex(s.width, now) >= s.start
    ensures WellFormed(Updated(s, now)) && InPlace(Updated(s, now))
    ensures Updated(s, now).active == set id | id in s.active && LastSlot(s.width, s.store[id]) >= Updated(s, now).start
    ensures Updated(s, now).store == map id | id in s.store ::
      if id in s.active && LastSlot(s.width, s.store[id]) < Updated(s, now).start then s.store[id].(state := Deleted) else s.store[id]
  {
    var after := Updated(s, now);
    UpdatedWellFormed(s, now);
    ExpiredExactly(s, after.start);
    forall v | InWindow(after, v) ensures IdsAt(after, v) == Covering(after, v) {
      UpdateCutsTheTimeline(s, now, v);
      if !InWindow(s, v) {
        forall id | id in s.active ensures id !in Covering(after, v) {
          assert Occupies(s, id);
        }
      }
    }
    forall id | id in after.active ensures Occupies(after, id) {
      assert Occupies(s, id);
    }
  }

  /** The slots of the window in which the reservation is entered, after it has been reserved. */
  lemma InsertedAt(s: Schedule, first: int, last: int, capacity: int, id: ReservationId, v: int)
    requires InWindow(s, v)
    ensures var after := InsertSpan(s.start, s.cells, first, last, capacity, id);
            after[v - s.start] == if first <= v <= last then Inserted(s.cells[v - s.start], capacity, id) else s.cells[v - s.start]
  {
  }

  lemma FreedAt(start: int, cells: seq<Cell>, first: int, last: int, capacity: int, id: ReservationId, v: int)
    requires start <= v < start + |cells|
    ensures var after := FreeSpan(start, cells, first, last, capacity, id);
            after[v - start] == if first <= v <= last then Freed(cells[v - start], id, capacity) else cells[v - start]
  {
  }

  /** The candidate that is reserved, with the facts about its span. */
  lemma ChosenCandidate(s: Schedule, id: ReservationId) returns (v: int, c: Reservation)
    requires WellFormed(s) && id in s.store && Proper(s.store[id]) && FirstFit(s, s.store[id]).Some?
    ensures FirstFit(s, s.store[id]) == Some(v) && TryFit(s, s.store[id], v, IntervalEnd(s.store[id])) == Some(c)
    ensures CutTo(s.store[id], c, CandidateStart(s, s.store[id], v))
    ensures FitsFrom(s, s.store[id], c, v, IntervalEnd(s.store[id]))
    ensures InWindow(s, v) && FirstSlot(s.width, c) == v <= LastSlot(s.width, c)
    ensures ReservedNow(s, id) == BookedWithoutCheck(s.(store := Promoted(s.store, id, c)), id)
  {
    var r := s.store[id];
    FirstFitIsLeast(s, r);
    v := FirstFit(s, r).value;
    c := TryFit(s, r, v, IntervalEnd(r)).value;
    FitIsSound(s, r, CandidateStart(s, r, v), v, IntervalEnd(r));
    SlotIndexMonotone(s.width, c.assignedStart, c.assignedEnd - 1);
    StartsInItsSlot(s, r, v, LastSlot(s.width, c), c.capacity);
  }

  /**
   A reservation that is reserved ends up in all slots of its time if and only if it was not active before and the
   span it needs in its full shape, from the first slot where it fits at all, has the capacity free. Otherwise it is
   cut, the record keeps the requested capacity, and a slot with less refuses it.
   */
  lemma ReserveInPlaceExactly(s: Schedule, id: ReservationId)
    requires WellFormed(s) && InPlace(s) && id in s.store && Proper(s.store[id])
    requires FirstFit(s, s.store[id]).Some?
    ensures var r, v := s.store[id], FirstFit(s, s.store[id]).value;
            InPlace(ReservedNow(s, id)) <==> id !in s.active && FitsSpan(s, v, LastNeeded(s, r, v), r.capacity)
  {
    var r := s.store[id];
    var v, c := ChosenCandidate(s, id);
    CutExactly(s, r, CandidateStart(s, r, v), v, IntervalEnd(r));
    hide FitFrom, FirstFit, CandidateStart, Proper, InPlace, BookedWithoutCheck, ReservedNow;
    if id in s.active {
      RebookedNotInPlace(s, id, v, c);
    } else if c.capacity < r.capacity {
      var u :| v <= u <= LastSlot(s.width, c) && InWindow(s, u) && Free(s, u) == c.capacity;
      RefusedNotInPlace(s, id, v, c, u);
    } else {
      UncutInPlace(s, id, v, c);
    }
  }

  /** Booking an active reservation again takes it out of its slots. */
  lemma RebookedNotInPlace(s: Schedule, id: ReservationId, v: int, c: Reservation)
    requires WellFormed(s) && id in s.store && id in s.active
    requires FirstSlot(s.width, c) == v <= LastSlot(s.width, c) && InWindow(s, v)
    ensures !InPlace(BookedWithoutCheck(s.(store := Promoted(s.store, id, c)), id))
  {
    var last, capacity := LastSlot(s.width, c), s.store[id].capacity;
    var after := BookedWithoutCheck(s.(store := Promoted(s.store, id, c)), id);
    InsertedAt(s, v, last, capacity, id, v);
    FreedAt(s.start, InsertSpan(s.start, s.cells, v, last, capacity, id), v, last, capacity, id, v);
    assert id !in IdsAt(after, v) && id in Covering(after, v);
  }

  /** A slot of the span that has less than the capacity free refuses the reservation. */
  lemma RefusedNotInPlace(s: Schedule, id: ReservationId, v: int, c: Reservation, u: int)
    requires WellFormed(s) && InPlace(s) && id in s.store && id !in s.active
    requires FirstSlot(s.width, c) == v <= u <= LastSlot(s.width, c) && InWindow(s, u) && Free(s, u) < s.store[id].capacity
    ensures !InPlace(BookedWithoutCheck(s.(store := Promoted(s.store, id, c)), id))
  {
    var after := BookedWithoutCheck(s.(store := Promoted(s.store, id, c)), id);
    InsertedAt(s, v, LastSlot(s.width, c), s.store[id].capacity, id, u);
    assert IdsAt(s, u) == Covering(s, u);
    assert id !in IdsAt(after, u) && id in Covering(after, u);
  }

  lemma UncutInPlace(s: Schedule, id: ReservationId, v: int, c: Reservation)
    requires WellFormed(s) && InPlace(s) && id in s.store && id !in s.active
    requires FirstSlot(s.width, c) == v <= LastSlot(s.width, c)
    requires FitsSpan(s, v, LastSlot(s.width, c), s.store[id].capacity)
    ensures InPlace(BookedWithoutCheck(s.(store := Promoted(s.store, id, c)), id))
  {
    var last := LastSlot(s.width, c);
    var after := BookedWithoutCheck(s.(store := Promoted(s.store, id, c)), id);
    assert FirstSlot(s.width, after.store[id]) == v && LastSlot(s.width, after.store[id]) == last && InWindow(s, last);
    assert forall x :: x in s.active ==> x != id && after.store[x] == s.store[x];
    forall u | InWindow(s, u) ensures IdsAt(after, u) == Covering(after, u) {
      InsertedAt(s, v, last, s.store[id].capacity, id, u);
      assert IdsAt(s, u) == Covering(s, u);
      assert IdsAt(after, u) == IdsAt(s, u) + if v <= u <= last then {id} else {};
    }
    forall x | x in after.active ensures Occupies(after, x) {
      assert x != id ==> Occupies(s, x);
    }
  }

  lemma ReleaseKeepsPlace(s: Schedule, id: ReservationId, now: int)
    requires WellFormed(s) && InPlace(s)
    ensures ReleasedNow(s, id, now).active <= ReleasedNow(s, id, now).store.Keys && InPlace(ReleasedNow(s, id, now))
    ensures var after := ReleasedNow(s, id, now);
            if id in s.active && s.store[id].assignedEnd > now
            then after.active == s.active - {id} && after.store == s.store[id := s.store[id].(state := Deleted)]
            else after == s
  {
    var after := ReleasedNow(s, id, now);
    if id in s.active && s.store[id].assignedEnd > now {
      var r := s.store[id];
      var first, last := Max(FirstSlot(s.width, r), s.start), Clamped(s, LastSlot(s.width, r));
      assert Occupies(s, id);
      forall v | InWindow(s, v) ensures IdsAt(after, v) == Covering(after, v) {
        FreedAt(s.start, s.cells, first, last, r.capacity, id, v);
        assert IdsAt(s, v) == Covering(s, v);
        assert Covering(after, v) == Covering(s, v) - {id};
      }
      forall x | x in after.active ensures Occupies(after, x) {
        assert Occupies(s, x);
      }
    }
  }

  /** The window starts with the slot of the current time. */
  ghost predicate UpToDate(s: Schedule, now: int) {
    s.start * s.width <= now < (s.start + 1) * s.width
  }

  /**
   What a deletion makes of the reservation: one that is not active is rejected, and nothing else changes. Otherwise
   the window moves on; what has ended with a slot that leaves it is gone, what ends by now otherwise stays, and
   everything else leaves all its slots.
   */
  lemma DeleteExactly(s: Schedule, id: ReservationId, now: int)
    requires WellFormed(s) && InPlace(s) && SlotIndex(s.width, now) >= s.start && now >= 0
    ensures id !in s.active ==> DeleteAt(s, id, now) == s.(store := if id in s.store then s.store[id := s.store[id].(state := Rejected)] else s.store)
    ensures id in s.active ==>
              var after := DeleteAt(s, id, now);
              && after.active <= after.store.Keys && InPlace(after) && UpToDate(after, now) && id in after.store
              && (if id in after.active then after.store[id] == s.store[id] else after.store[id] == s.store[id].(state := Deleted))
              && (id in after.active <==> after.start <= LastSlot(s.width, s.store[id]) && s.store[id].assignedEnd <= now)
  {
    if id in s.active {
      UpdateKeepsPlace(s, now);
      UpdateCutsTheTimeline(s, now, s.start);
      ReleaseKeepsPlace(Updated(s, now), id, now);
      hide InPlace, Updated;
    }
  }

  /** Clearing empties every slot and ends everything, and leaves all records as they are. */
  lemma ClearExactly(s: Schedule, now: int, v: int)
    requires WellFormed(s) && SlotIndex(s.width, now) >= s.start && now >= 0
    ensures var after := ClearAt(s, now);
            && UpToDate(after, now) && after.active == {} && after.store == s.store && |after.cells| == |s.cells|
            && (0 <= v < |s.cells| ==> after.cells[v] == Cell(0, s.cells[0].capacity, {}))
  {
    ClearedWellFormed(s);
    var after := ClearAt(s, now);
    UpdateCutsTheTimeline(Cleared(s), now, after.start + v);
    UpdatedWellFormed(Cleared(s), now);
  }

  /** Freeing the span of a reservation that was not there before it was entered restores the slots. */
  lemma FreeUndoesInsert(s: Schedule, first: int, last: int, capacity: int, id: ReservationId)
    requires forall v :: InWindow(s, v) ==> id !in IdsAt(s, v)
    ensures FreeSpan(s.start, InsertSpan(s.start, s.cells, first, last, capacity, id), first, last, capacity, id) == s.cells
  {
    var entered := InsertSpan(s.start, s.cells, first, last, capacity, id);
    var freed := FreeSpan(s.start, entered, first, last, capacity, id);
    forall k | 0 <= k < |s.cells| ensures freed[k] == s.cells[k] {
      InsertedAt(s, first, last, capacity, id, s.start + k);
      FreedAt(s.start, entered, first, last, capacity, id, s.start + k);
      assert id !in IdsAt(s, s.start + k);
      InsertDelete(s.cells[k], capacity, id);
    }
  }

  /**
   Deleting at the same time what has just been reserved undoes the reservation in all slots and in the active set
   if and only if the reservation ends later than now.
   */
  lemma ReserveDeleteRoundTrip(s: Schedule, id: ReservationId, now: int)
    requires WellFormed(s) && AllAccounted(s) && InPlace(s) && SlotIndex(s.width, now) == s.start
    requires id in s.store && id !in s.active && Sized(s.store[id]) && !s.store[id].moldable
    requires FirstFit(s, s.store[id]).Some?
    ensures WellFormed(ReservedNow(s, id)) && ReservedNow(s, id).start == s.start
    ensures var reserved := ReservedNow(s, id);
            var deleted := DeleteAt(reserved, id, now);
            (deleted.cells == s.cells && deleted.active == s.active) <==> reserved.store[id].assignedEnd > now
  {
    var v, last := FixedReserved(s, id);
    ReserveKeepsAccounts(s, id);
    NotEnteredYet(s, id);
    hide InPlace, ReservedNow, FirstFit, AllAccounted, Sound, InsertSpan;
    var reserved := ReservedNow(s, id);
    UpdateInPlaceIsIdle(reserved, now);
    FreeUndoesInsert(s, v, last, s.store[id].capacity, id);
    assert s.active + {id} - {id} == s.active;
    assert id in reserved.active && id !in s.active;
  }

  lemma NotEnteredYet(s: Schedule, id: ReservationId)
    requires WellFormed(s) && InPlace(s) && id !in s.active
    ensures forall u :: InWindow(s, u) ==> id !in IdsAt(s, u)
  {
    forall u | InWindow(s, u) ensures id !in IdsAt(s, u) {
      assert IdsAt(s, u) == Covering(s, u);
    }
  }

  /** A reservation of fixed shape that is reserved: its span, and the schedule afterwards. */
  lemma FixedReserved(s: Schedule, id: ReservationId) returns (v: int, last: int)
    requires WellFormed(s) && id in s.store && id !in s.active && Sized(s.store[id]) && !s.store[id].moldable
    requires FirstFit(s, s.store[id]).Some?
    ensures s.start <= v <= last < s.start + |s.cells|
    ensures var reserved := ReservedNow(s, id);
            && reserved == s.(cells := reserved.cells, active := s.active + {id}, store := reserved.store)
            && reserved.cells == InsertSpan(s.start, s.cells, v, last, s.store[id].capacity, id)
            && id in reserved.store && reserved.store[id].capacity == s.store[id].capacity
            && FirstSlot(s.width, reserved.store[id]) == v && LastSlot(s.width, reserved.store[id]) == last
            && reserved.store == s.store[id := reserved.store[id]]
            && reserved.store[id].state == ReserveAnswer
            && FirstFit(s, s.store[id]) == Some(v)
            && reserved.store[id].assignedStart == CandidateStart(s, s.store[id], v)
            && reserved.store[id].assignedEnd == reserved.store[id].assignedStart + s.store[id].duration
  {
    v := FixedCandidate(s, id);
    last := LastNeeded(s, s.store[id], v);
    assert InWindow(s, last);
  }

  /** The place where a reservation of fixed shape is reserved. */
  lemma FixedCandidate(s: Schedule, id: ReservationId) returns (v: int)
    requires WellFormed(s) && id in s.store && Sized(s.store[id]) && !s.store[id].moldable && FirstFit(s, s.store[id]).Some?
    ensures FirstFit(s, s.store[id]) == Some(v) && InWindow(s, v)
    ensures var r := s.store[id];
            var c := Placed(r, CandidateStart(s, r, v));
            && TryFit(s, r, v, IntervalEnd(r)) == Some(c)
            && FirstSlot(s.width, c) == v <= LastSlot(s.width, c) == LastNeeded(s, r, v)
            && FitsSpan(s, v, LastNeeded(s, r, v), r.capacity)
            && ReservedNow(s, id) == BookedWithoutCheck(s.(store := Promoted(s.store, id, c)), id)
  {
    var r := s.store[id];
    FirstFitIsLeast(s, r);
    v := FirstFit(s, r).value;
    FixedFit(s, r, CandidateStart(s, r, v), v, IntervalEnd(r));
    SlotIndexMonotone(s.width, CandidateStart(s, r, v), CandidateStart(s, r, v) + r.duration - 1);
    StartsInItsSlot(s, r, v, LastNeeded(s, r, v), r.capacity);
  }

  /** An update without progress of the window changes nothing. */
  lemma UpdateInPlaceIsIdle(s: Schedule, now: int)
    requires WellFormed(s) && SlotIndex(s.width, now) == s.start
    ensures Updated(s, now) == s
  {
    ShiftedCells(s.cells, 0);
    assert Expired(s, s.start) == {};
    assert MarkedDeleted(s.store, {}) == s.store;
  }

  // --------------------------------------------------------------------------------------------- main results

  /** The slots that the time meets have taken in the reservation, each exactly its capacity; the others are as before. */
  ghost predicate TakenIn(s: Schedule, after: Schedule, id: ReservationId, capacity: int, start: int, end: int) {
    && after.width == s.width && after.start == s.start && |after.cells| == |s.cells| && after.active == s.active + {id}
    && forall u :: InWindow(s, u) ==>
         after.cells[u - s.start] ==
         if Meets(s.width, u, start, end) then s.cells[u - s.start].(load := LoadAt(s, u) + capacity, ids := IdsAt(s, u) + {id})
         else s.cells[u - s.start]
  }

  /** The least slot with which a reservation of fixed shape can start. */
  ghost predicate LeastFit(s: Schedule, r: Reservation, v: int)
    requires WellFormed(s)
  {
    FixedFits(s, r, v) && forall u :: u < v ==> !FixedFits(s, r, u)
  }

  /** Booked from the time given on: the record has it as its booking interval, too. */
  function BookedFrom(r: Reservation, start: int): Reservation {
    r.(bookingStart := start, bookingEnd := start + r.duration, assignedStart := start, assignedEnd := start + r.duration,
       state := ReserveAnswer)
  }

  ghost predicate TakenInAtLeastFit(s: Schedule, after: Schedule, id: ReservationId)
    requires WellFormed(s) && id in s.store
  {
    var r := s.store[id];
    exists v :: LeastFit(s, r, v) && TakenInFrom(s, after, id, if v * s.width < r.bookingStart then r.bookingStart else v * s.width)
  }

  ghost predicate TakenInFrom(s: Schedule, after: Schedule, id: ReservationId, start: int)
    requires id in s.store
  {
    var r := s.store[id];
    TakenIn(s, after, id, r.capacity, start, start + r.duration) && after.store == s.store[id := BookedFrom(r, start)]
  }

  /**
   Reserving is exact first fit for reservations of fixed shape: if it fits with some slot as its first, the least such
   slot is, and exactly the slots of its time take in exactly the capacity; otherwise nothing changes but the state of
   the record.
   */
  lemma ReserveIsExactFirstFit(s: Schedule, id: ReservationId)
    requires WellFormed(s) && AllAccounted(s) && InPlace(s) && id in s.store && id !in s.active
    requires Sized(s.store[id]) && !s.store[id].moldable
    ensures var r := s.store[id];
            if IsInterval(r) && exists v :: FixedFits(s, r, v) then TakenInAtLeastFit(s, ReservedNow(s, id), id)
            else ReservedNow(s, id) == s.(store := s.store[id := r.(state := Rejected)])
  {
    var r := s.store[id];
    FixedFirstFit(s, r);
    if FirstFit(s, r).Some? {
      ReservedAtLeastFit(s, id, FirstFit(s, r).value);
    }
  }

  lemma ReservedAtLeastFit(s: Schedule, id: ReservationId, v: int)
    requires WellFormed(s) && InPlace(s) && id in s.store && id !in s.active && Sized(s.store[id]) && !s.store[id].moldable
    requires FirstFit(s, s.store[id]) == Some(v) && LeastFit(s, s.store[id], v)
    requires TryFit(s, s.store[id], v, IntervalEnd(s.store[id])) == Some(Placed(s.store[id], CandidateStart(s, s.store[id], v)))
    ensures TakenInAtLeastFit(s, ReservedNow(s, id), id)
  {
    var r := s.store[id];
    var start := CandidateStart(s, r, v);
    StartsAtTheLater(s, r, v);
    hide InPlace, ReservedNow, FirstFit, InsertSpan, FixedFits, TryFit, LeastFit, TakenIn, FitsSpan, CandidateStart, Sound, NonNegative;
    var w, last := FixedReserved(s, id);
    FixedRecord(s, id, v);
    FixedSpan(s, r, v);
    SpanTakesIn(s, ReservedNow(s, id), id, v, last);
    SpanIsTime(s, ReservedNow(s, id), id, v, start);
    assert TakenInFrom(s, ReservedNow(s, id), id, start);
  }

  /** The span of a placed reservation is what its time meets. */
  lemma SpanIsTime(s: Schedule, after: Schedule, id: ReservationId, v: int, start: int)
    requires WellFormed(s) && id in s.store && s.store[id].duration >= 1 && LeastFit(s, s.store[id], v)
    requires start == CandidateStart(s, s.store[id], v)
    requires EntersSpan(s, after, id, s.store[id].capacity, v, LastNeeded(s, s.store[id], v))
    ensures TakenIn(s, after, id, s.store[id].capacity, start, start + s.store[id].duration)
  {
    StartsInSlot(s, s.store[id], v);
    forall u | InWindow(s, u)
      ensures Meets(s.width, u, start, start + s.store[id].duration) <==> v <= u <= LastNeeded(s, s.store[id], v)
    {
      MetExactly(s.width, u, start, start + s.store[id].duration);
    }
  }

  /** The slots from v to last have taken in the reservation. */
  ghost predicate EntersSpan(s: Schedule, after: Schedule, id: ReservationId, capacity: int, v: int, last: int) {
    && after.width == s.width && after.start == s.start && |after.cells| == |s.cells| && after.active == s.active + {id}
    && forall u :: InWindow(s, u) ==>
         after.cells[u - s.start] ==
         if v <= u <= last then s.cells[u - s.start].(load := LoadAt(s, u) + capacity, ids := IdsAt(s, u) + {id})
         else s.cells[u - s.start]
  }

  lemma FixedSpan(s: Schedule, r: Reservation, v: int)
    requires WellFormed(s) && LeastFit(s, r, v) && r.duration >= 1
    ensures FitsSpan(s, v, LastNeeded(s, r, v), r.capacity)
  {
    StartsInSlot(s, r, v);
    FreeDuringExactly(s, CandidateStart(s, r, v), CandidateStart(s, r, v) + r.duration, r.capacity);
  }

  lemma FixedRecord(s: Schedule, id: ReservationId, v: int)
    requires WellFormed(s) && id in s.store && FirstFit(s, s.store[id]) == Some(v)
    requires TryFit(s, s.store[id], v, IntervalEnd(s.store[id])) == Some(Placed(s.store[id], CandidateStart(s, s.store[id], v)))
    ensures ReservedNow(s, id).store == s.store[id := BookedFrom(s.store[id], CandidateStart(s, s.store[id], v))]
  {
    hide TryFit, FirstFit;
    var c := TryFit(s, s.store[id], v, IntervalEnd(s.store[id])).value;
    assert Promoted(s.store, id, c) == s.store[id := c];
  }

  lemma SpanTakesIn(s: Schedule, after: Schedule, id: ReservationId, v: int, last: int)
    requires WellFormed(s) && InPlace(s) && id in s.store && id !in s.active
    requires FitsSpan(s, v, last, s.store[id].capacity)
    requires after == s.(cells := InsertSpan(s.start, s.cells, v, last, s.store[id].capacity, id),
                         active := s.active + {id}, store := after.store)
    ensures EntersSpan(s, after, id, s.store[id].capacity, v, last)
  {
    NotEnteredYet(s, id);
    forall u | InWindow(s, u)
      ensures after.cells[u - s.start] ==
              if v <= u <= last then s.cells[u - s.start].(load := LoadAt(s, u) + s.store[id].capacity, ids := IdsAt(s, u) + {id})
              else s.cells[u - s.start]
    {
      InsertedAt(s, v, last, s.store[id].capacity, id, u);
      assert id !in IdsAt(s, u);
      assert v <= u <= last ==> Free(s, u) >= s.store[id].capacity;
    }
  }

  /**
   While candidates are rated, each is booked under an id of its own and released again. That leaves the slots and
   the active set as they were if and only if the candidate ends after the current time; its record stays behind
   in either case, since only records in the state of a probe are taken out of the store.
   */
  lemma TrialUndoneExactly(s: Schedule, c: Reservation, id: ReservationId, now: int)
    requires WellFormed(s) && id !in s.store && c.capacity >= 0
    ensures var trial := BookedWithoutCheck(s.(store := s.store[id := c]), id);
            && WellFormed(trial)
            && ((ReleasedNow(trial, id, now).cells == s.cells && ReleasedNow(trial, id, now).active == s.active) <==> c.assignedEnd > now)
            && id in ReleasedNow(trial, id, now).store && ReleasedNow(trial, id, now).store[id].state != ProbeReservation
  {
    var known := s.(store := s.store[id := c]);
    var first, last := FirstSlot(s.width, c), LastSlot(s.width, c);
    var entered := InsertSpan(s.start, s.cells, first, last, c.capacity, id);
    SpanKeepsSound(s.start, s.cells, first, last, c.capacity, id, known.store);
    var trial := BookedWithoutCheck(known, id);
    forall k | 0 <= k < |s.cells| ensures id !in s.cells[k].ids {
      assert s.cells[k].ids <= s.store.Keys;
    }
    if c.assignedEnd > now {
      var from, to := Max(first, s.start), Clamped(s, last);
      var freed := FreeSpan(s.start, entered, from, to, c.capacity, id);
      forall k | 0 <= k < |s.cells| ensures freed[k] == s.cells[k] {
        InsertDelete(s.cells[k], c.capacity, id);
      }
      assert freed == s.cells;
      assert trial.active - {id} == s.active;
    } else {
      assert id in trial.active && id !in s.active;
    }
  }

  // ------------------------------------------------------------------------------------------- failing inputs

  /** Four slots of capacity 2, and one unit of the second one taken. */
  ghost function OneUnitTaken(): Schedule {
    var holder := Reservation(ReserveAnswer, 10, 20, 10, 20, 10, 1, false, 10);
    var request := Reservation(Open, 0, 100, 0, 0, 15, 2, true, 30);
    Schedule(10, 0, [Cell(0, 2, {}), Cell(1, 2, {2}), Cell(0, 2, {}), Cell(0, 2, {})], {2}, map[1 := request, 2 := holder])
  }

  lemma OneUnitTakenIsSound()
    ensures WellFormed(OneUnitTaken()) && AllAccounted(OneUnitTaken()) && InPlace(OneUnitTaken())
  {
    var s := OneUnitTaken();
    ReservedByRemove(s.store, {2}, 2);
    assert {2} - {2} == {};
    forall v | InWindow(s, v) ensures IdsAt(s, v) == Covering(s, v) {
    }
    assert Occupies(s, 2);
  }

  /** A moldable request for 2 units over 15 time units is accepted with one unit, and its second slot refuses the other. */
  lemma CutRequestIsNotInPlace()
    ensures var s := OneUnitTaken();
            && WellFormed(s) && InPlace(s) && Proper(s.store[1]) && 1 !in s.active && FirstFit(s, s.store[1]) == Some(0)
            && TryFit(s, s.store[1], 0, 100).Some? && TryFit(s, s.store[1], 0, 100).value.capacity == 1
            && !InPlace(ReservedNow(s, 1))
  {
    var s := OneUnitTaken();
    OneUnitTakenIsSound();
    var r := s.store[1];
    var m := Molded(r, 1);
    assert m.capacity == 1 && m.duration == 30;
    assert FitFrom(s, m, 0, 3, 100) == Some(Placed(m, 0));
    assert FitFrom(s, m, 0, 2, 100) == Some(Placed(m, 0));
    assert FitFrom(s, r, 0, 1, 100) == Some(Placed(m, 0));
    assert FitFrom(s, r, 0, 0, 100) == Some(Placed(m, 0));
    assert FirstFitFrom(s, r, 0) == Some(0);
    assert InWindow(s, 1) && Free(s, 1) == 1;
    ReserveInPlaceExactly(s, 1);
  }

  /** Two empty slots, and a request that takes less than one of them. */
  ghost function ShortRequest(): Schedule {
    Schedule(10, 0, [Cell(0, 1, {}), Cell(0, 1, {})], {}, map[1 := Reservation(Open, 0, 100, 0, 0, 3, 1, false, 3)])
  }

  lemma ShortRequestIsSound()
    ensures WellFormed(ShortRequest()) && AllAccounted(ShortRequest()) && InPlace(ShortRequest())
  {
  }

  lemma ShortRequestFits()
    ensures var s := ShortRequest();
            WellFormed(s) && AllAccounted(s) && InPlace(s) && FirstFit(s, s.store[1]) == Some(0) && CandidateStart(s, s.store[1], 0) == 0
  {
    var s := ShortRequest();
    var r := s.store[1];
    ShortRequestIsSound();
    hide InPlace, AllAccounted, WellFormed;
    assert FitsSpan(s, 0, 0, 1);
    FixedFit(s, r, 0, 0, 100);
    hide FitFrom;
    assert TryFit(s, r, 0, 100).Some?;
    hide TryFit, FitsSpan;
    assert FirstFitFrom(s, r, 0) == Some(0);
  }

  /** Time 5 is inside the first slot: the request is placed at 0 to 3, and cannot be deleted any more. */
  lemma DeletionComesTooLate()
    ensures var s := ShortRequest();
            && WellFormed(s) && SlotIndex(s.width, 5) == s.start && FirstFit(s, s.store[1]).Some?
            && WellFormed(ReservedNow(s, 1)) && ReservedNow(s, 1).start == s.start
            && DeleteAt(ReservedNow(s, 1), 1, 5) == ReservedNow(s, 1) && ReservedNow(s, 1).active != s.active
  {
    ShortRequestFits();
    EndedStays(ShortRequest(), 1, 5);
  }

  /** What ends by the current time is reserved all the same, and stays reserved. */
  lemma EndedStays(s: Schedule, id: ReservationId, now: int)
    requires WellFormed(s) && AllAccounted(s) && SlotIndex(s.width, now) == s.start
    requires id in s.store && id !in s.active && Sized(s.store[id]) && !s.store[id].moldable
    requires FirstFit(s, s.store[id]).Some?
    requires CandidateStart(s, s.store[id], FirstFit(s, s.store[id]).value) + s.store[id].duration <= now
    ensures WellFormed(ReservedNow(s, id)) && ReservedNow(s, id).start == s.start
    ensures DeleteAt(ReservedNow(s, id), id, now) == ReservedNow(s, id) && ReservedNow(s, id).active == s.active + {id} != s.active
  {
    var v, last := FixedReserved(s, id);
    ReserveKeepsAccounts(s, id);
    hide ReservedNow, FirstFit, AllAccounted, Sound, InsertSpan;
    UpdateInPlaceIsIdle(ReservedNow(s, id), now);
    assert id in s.active + {id};
  }
}
