/** Whole runs of a schedule: any sequence of operations under a clock that does not run backwards. */
module Runs {
  import opened Common
  import opened Reservations
  import opened Slots
  import opened Timeline
  import opened PlaceSearch
  import opened Placement

  datatype Operation =
    | Submit(id: ReservationId, r: Reservation)
    | Amend(id: ReservationId, r: Reservation)
    | Reserve(id: ReservationId, now: int)
    | Book(id: ReservationId)
    | Delete(id: ReservationId, now: int)
    | Update(now: int)
    | Clear(now: int)
    | Resize(capacity: int)

  ghost predicate OnTime(s: Schedule, now: int)
    requires s.width >= 1
  {
    SlotIndex(s.width, now) >= s.start
  }

  ghost predicate AllResized(s: Schedule, s': Schedule, capacity: int) {
    && |s'.cells| == |s.cells| && s' == s.(cells := s'.cells)
    && forall k :: 0 <= k < |s.cells| ==> Resized(s.store, s.cells[k], s'.cells[k], capacity)
  }

  /** Other components may change the state of any record, and all of a record that the schedule does not hold. */
  ghost predicate Amendable(s: Schedule, id: ReservationId, r: Reservation)
    requires id in s.store
  {
    || r == s.store[id].(state := r.state)
    || (r.capacity >= 0 && id !in s.active && forall v :: InWindow(s, v) ==> id !in IdsAt(s, v))
  }

  ghost predicate Step(s: Schedule, op: Operation, s': Schedule)
    requires WellFormed(s)
  {
    match op
    case Submit(id, r) => id !in s.store && r.capacity >= 0 && s' == s.(store := s.store[id := r])
    case Amend(id, r) => id in s.store && Amendable(s, id, r) && s' == s.(store := s.store[id := r])
    case Reserve(id, now) => OnTime(s, now) && id in s.store && s' == ReserveAt(s, id, now)
    case Book(id) => id in s.store && s' == BookedWithoutCheck(s, id)
    case Delete(id, now) => OnTime(s, now) && s' == DeleteAt(s, id, now)
    case Update(now) => OnTime(s, now) && s' == Updated(s, now)
    case Clear(now) => OnTime(s, now) && s' == ClearAt(s, now)
    case Resize(capacity) => AllResized(s, s', capacity)
  }

  /** A schedule of empty slots. */
  ghost predicate Empty(s: Schedule) {
    && s.width >= 1 && s.start >= 0 && s.cells != [] && s.cells[0].capacity >= 0
    && (forall k :: 0 <= k < |s.cells| ==> s.cells[k] == Cell(0, s.cells[0].capacity, {}))
    && s.active == {} && NonNegative(s.store)
  }

  ghost predicate Run(states: seq<Schedule>, ops: seq<Operation>) {
    && |states| == |ops| + 1
    && Empty(states[0])
    && forall i :: 0 <= i < |ops| ==> WellFormed(states[i]) && Step(states[i], ops[i], states[i + 1])
  }

  lemma SubmitKeepsAccounts(s: Schedule, id: ReservationId, r: Reservation)
    requires WellFormed(s) && AllAccounted(s) && id !in s.store && r.capacity >= 0
    ensures var s' := s.(store := s.store[id := r]); WellFormed(s') && AllAccounted(s')
  {
    var s' := s.(store := s.store[id := r]);
    forall k | 0 <= k < |s.cells| ensures Accounted(s'.store, s'.cells[k]) {
      SameReserved(s.store, s'.store, s.cells[k]);
    }
  }

  lemma AmendKeepsAccounts(s: Schedule, id: ReservationId, r: Reservation)
    requires WellFormed(s) && AllAccounted(s) && id in s.store && Amendable(s, id, r)
    ensures var s' := s.(store := s.store[id := r]); WellFormed(s') && AllAccounted(s')
  {
    var s' := s.(store := s.store[id := r]);
    forall k | 0 <= k < |s.cells| ensures Accounted(s'.store, s'.cells[k]) {
      assert IdsAt(s, s.start + k) == s.cells[k].ids;
      SameReserved(s.store, s'.store, s.cells[k]);
    }
  }

  lemma AllResizedKeepsAccounts(s: Schedule, s': Schedule, capacity: int)
    requires WellFormed(s) && AllAccounted(s) && AllResized(s, s', capacity)
    ensures WellFormed(s') && AllAccounted(s')
    ensures capacity >= 1 ==> forall k :: 0 <= k < |s'.cells| ==> s'.cells[k].capacity == capacity && s'.cells[k].load < capacity
  {
    forall k | 0 <= k < |s.cells|
      ensures Accounted(s'.store, s'.cells[k]) && s'.cells[k].ids <= s.store.Keys
      ensures s'.cells[k].capacity == if capacity >= 1 then capacity else s.cells[0].capacity
      ensures capacity >= 1 ==> s'.cells[k].load < capacity
    {
      ResizeKeepsAccounts(s.store, s.cells[k], s'.cells[k], capacity);
    }
  }

  lemma StepKeepsAccounts(s: Schedule, op: Operation, s': Schedule)
    requires WellFormed(s) && AllAccounted(s) && Step(s, op, s')
    ensures WellFormed(s') && AllAccounted(s')
  {
    match op
    case Submit(id, r) => SubmitKeepsAccounts(s, id, r);
    case Amend(id, r) => AmendKeepsAccounts(s, id, r);
    case Reserve(id, now) =>
      UpdatedWellFormed(s, now);
      UpdateKeepsAccounts(s, now);
      ReserveKeepsAccounts(Updated(s, now), id);
    case Delete(id, now) =>
      if id in s.active {
        UpdatedWellFormed(s, now);
        UpdateKeepsAccounts(s, now);
        ReleaseKeepsAccounts(Updated(s, now), id, now);
      } else {
        AllReserved(s, s');
      }
    case Update(now) =>
      UpdatedWellFormed(s, now);
      UpdateKeepsAccounts(s, now);
    case Book(id) => BookingKeepsAccounts(s, id);
    case Clear(now) =>
      ClearedWellFormed(s);
      UpdatedWellFormed(Cleared(s), now);
      UpdateKeepsAccounts(Cleared(s), now);
    case Resize(capacity) => AllResizedKeepsAccounts(s, s', capacity);
  }

  /**
   In every state of every run, moldable reservations and changes of capacity included, each slot's load is the sum
   of what its reservations reserve and lies between zero and the capacity.
   */
  lemma {:induction false} RunKeepsAccounts(states: seq<Schedule>, ops: seq<Operation>, i: nat)
    requires Run(states, ops) && i < |states|
    ensures WellFormed(states[i]) && AllAccounted(states[i])
    ensures forall k :: 0 <= k < |states[i].cells| ==> 0 <= states[i].cells[k].load <= states[i].cells[k].capacity
  {
    if i > 0 {
      RunKeepsAccounts(states, ops, i - 1);
      StepKeepsAccounts(states[i - 1], ops[i - 1], states[i]);
    }
    var s := states[i];
    forall k | 0 <= k < |s.cells| ensures 0 <= s.cells[k].load <= s.cells[k].capacity {
      assert Accounted(s.store, s.cells[k]) && s.cells[k].ids <= s.store.Keys;
      ReservedByNonNegative(s.store, s.cells[k].ids);
    }
  }

  /** No slot is too full for the new capacity, so that none loses a reservation. */
  ghost predicate NothingEvicted(s: Schedule, capacity: int) {
    forall k :: 0 <= k < |s.cells| ==> s.cells[k].load < capacity || s.cells[k].ids == {}
  }

  /**
   A change of capacity leaves every active reservation in all its slots exactly if no slot is too full for it: an
   evicted reservation stays active, but is missing from a slot of its time.
   */
  lemma ResizeInPlaceExactly(s: Schedule, s': Schedule, capacity: int)
    requires WellFormed(s) && InPlace(s) && AllResized(s, s', capacity)
    ensures InPlace(s') <==> NothingEvicted(s, capacity)
  {
    if NothingEvicted(s, capacity) {
      forall v | InWindow(s', v) ensures IdsAt(s', v) == Covering(s', v) {
        assert IdsAt(s, v) == Covering(s, v);
        assert Resized(s.store, s.cells[v - s.start], s'.cells[v - s.start], capacity);
      }
      forall id | id in s'.active ensures Occupies(s', id) {
        assert Occupies(s, id);
      }
    } else {
      var k :| 0 <= k < |s.cells| && s.cells[k].load >= capacity && s.cells[k].ids != {};
      assert Resized(s.store, s.cells[k], s'.cells[k], capacity);
      EvictsSome(s.store, s.cells[k], s'.cells[k], capacity);
      assert IdsAt(s, s.start + k) == Covering(s, s.start + k) == Covering(s', s.start + k);
      assert IdsAt(s', s.start + k) != IdsAt(s, s.start + k);
    }
  }

  lemma EvictsSome(store: Store, c: Cell, c': Cell, capacity: int)
    requires Resized(store, c, c', capacity) && c.load >= capacity && c.ids != {}
    ensures c'.ids != c.ids
  {
    assert c'.ids == c.ids ==> c.ids - c'.ids == {};
  }

  /**
   Operations on reservations of fixed shape that are not active when they are reserved. Booking without a check has
   to respect what is free, and a change of capacity what is taken.
   */
  ghost predicate Plain(s: Schedule, op: Operation)
    requires WellFormed(s)
  {
    match op
    case Reserve(id, now) =>
      OnTime(s, now) && id in s.store && !s.store[id].moldable && Sized(s.store[id]) && id !in Updated(s, now).active
    case Book(id) => id in s.store && Bookable(s, id)
    case Resize(capacity) => NothingEvicted(s, capacity)
    case _ => true
  }

  /** The assigned time lies in the window, and all its slots have the capacity free. */
  ghost predicate Bookable(s: Schedule, id: ReservationId)
    requires s.width >= 1 && id in s.store
  {
    var first, last := FirstSlot(s.width, s.store[id]), LastSlot(s.width, s.store[id]);
    id !in s.active && first <= last && FitsSpan(s, first, last, s.store[id].capacity)
  }

  /** The reservations booked and neither deleted, cleared nor amended since, after one more operation. */
  ghost function BookedAfter(s: Schedule, op: Operation, booked: set<ReservationId>): set<ReservationId>
    requires WellFormed(s)
  {
    match op
    case Reserve(id, now) =>
      if OnTime(s, now) && id in s.store && ReservedAtOnce(s, id, now) then booked + {id} else booked
    case Delete(id, now) =>
      if OnTime(s, now) && id in s.active && id in Updated(s, now).active && s.store[id].assignedEnd > now then booked - {id} else booked
    case Book(id) => booked + {id}
    case Amend(id, r) => if id in s.store && r == s.store[id].(state := r.state) then booked else booked - {id}
    case Clear(_) => {}
    case _ => booked
  }

  ghost predicate ReservedAtOnce(s: Schedule, id: ReservationId, now: int)
    requires WellFormed(s) && OnTime(s, now) && id in s.store
  {
    UpdatedWellFormed(s, now);
    FirstFit(Updated(s, now), Updated(s, now).store[id]).Some?
  }

  ghost function BookedBy(states: seq<Schedule>, ops: seq<Operation>, i: nat): set<ReservationId>
    requires Run(states, ops) && i < |states|
  {
    if i == 0 then {} else BookedAfter(states[i - 1], ops[i - 1], BookedBy(states, ops, i - 1))
  }

  /** Active are exactly the booked reservations that have not left the window, and they sit in exactly their slots. */
  ghost predicate Faithful(s: Schedule, booked: set<ReservationId>)
    requires WellFormed(s)
  {
    && InPlace(s)
    && booked <= s.store.Keys
    && s.active == set id | id in booked && LastSlot(s.width, s.store[id]) >= s.start
  }

  lemma UpdateKeepsFaith(s: Schedule, now: int, booked: set<ReservationId>)
    requires WellFormed(s) && Faithful(s, booked) && OnTime(s, now)
    ensures WellFormed(Updated(s, now)) && Faithful(Updated(s, now), booked)
  {
    UpdateKeepsPlace(s, now);
  }

  lemma ReserveKeepsFaith(s: Schedule, id: ReservationId, booked: set<ReservationId>)
    requires WellFormed(s) && AllAccounted(s) && Faithful(s, booked)
    requires id in s.store && !s.store[id].moldable && Sized(s.store[id]) && id !in s.active
    ensures WellFormed(ReservedNow(s, id))
    ensures Faithful(ReservedNow(s, id), if FirstFit(s, s.store[id]).Some? then booked + {id} else booked)
  {
    ReserveKeepsAccounts(s, id);
    var after := ReservedNow(s, id);
    if FirstFit(s, s.store[id]).Some? {
      var v, last := FixedReserved(s, id);
      ReservedInPlace(s, id);
    } else {
      RejectKeepsFaith(s, id, booked);
    }
  }

  lemma ReservedInPlace(s: Schedule, id: ReservationId)
    requires WellFormed(s) && InPlace(s) && id in s.store && id !in s.active
    requires !s.store[id].moldable && Sized(s.store[id]) && FirstFit(s, s.store[id]).Some?
    ensures InPlace(ReservedNow(s, id))
  {
    var v := FixedCandidate(s, id);
    UncutInPlace(s, id, v, Placed(s.store[id], CandidateStart(s, s.store[id], v)));
  }

  lemma RejectKeepsFaith(s: Schedule, id: ReservationId, booked: set<ReservationId>)
    requires WellFormed(s) && Faithful(s, booked)
    ensures var s' := s.(store := UpdateState(s.store, id, Rejected)); WellFormed(s') && Faithful(s', booked)
  {
    var s' := s.(store := UpdateState(s.store, id, Rejected));
    forall v | InWindow(s', v) ensures IdsAt(s', v) == Covering(s', v) {
      assert IdsAt(s, v) == Covering(s, v);
    }
    forall x | x in s'.active ensures Occupies(s', x) {
      assert Occupies(s, x);
    }
  }

  lemma SubmitKeepsFaith(s: Schedule, id: ReservationId, r: Reservation, booked: set<ReservationId>)
    requires WellFormed(s) && Faithful(s, booked) && id !in s.store && r.capacity >= 0
    ensures var s' := s.(store := s.store[id := r]); WellFormed(s') && Faithful(s', booked)
  {
    var s' := s.(store := s.store[id := r]);
    forall v | InWindow(s', v) ensures IdsAt(s', v) == Covering(s', v) {
      assert IdsAt(s, v) == Covering(s, v);
    }
    forall x | x in s'.active ensures Occupies(s', x) {
      assert Occupies(s, x);
    }
  }

  lemma AmendKeepsFaith(s: Schedule, id: ReservationId, r: Reservation, booked: set<ReservationId>)
    requires WellFormed(s) && Faithful(s, booked) && id in s.store && Amendable(s, id, r)
    ensures var s' := s.(store := s.store[id := r]);
            WellFormed(s') && Faithful(s', if r == s.store[id].(state := r.state) then booked else booked - {id})
  {
    var s' := s.(store := s.store[id := r]);
    forall v | InWindow(s', v) ensures IdsAt(s', v) == Covering(s', v) {
      assert IdsAt(s, v) == Covering(s, v);
    }
    forall x | x in s'.active ensures Occupies(s', x) {
      assert Occupies(s, x);
    }
  }

  lemma BookKeepsFaith(s: Schedule, id: ReservationId, booked: set<ReservationId>)
    requires WellFormed(s) && AllAccounted(s) && Faithful(s, booked) && id in s.store && Bookable(s, id)
    ensures WellFormed(BookedWithoutCheck(s, id)) && Faithful(BookedWithoutCheck(s, id), booked + {id})
  {
    BookingKeepsAccounts(s, id);
    var r := s.store[id];
    assert Promoted(s.store, id, r) == s.store && s.(store := s.store) == s;
    UncutInPlace(s, id, FirstSlot(s.width, r), r);
    assert InWindow(s, LastSlot(s.width, r));
  }

  lemma ResizeKeepsFaith(s: Schedule, s': Schedule, capacity: int, booked: set<ReservationId>)
    requires WellFormed(s) && AllAccounted(s) && Faithful(s, booked) && AllResized(s, s', capacity) && NothingEvicted(s, capacity)
    ensures WellFormed(s') && Faithful(s', booked)
  {
    AllResizedKeepsAccounts(s, s', capacity);
    ResizeInPlaceExactly(s, s', capacity);
  }

  lemma ReleaseKeepsFaith(s: Schedule, id: ReservationId, now: int, booked: set<ReservationId>)
    requires WellFormed(s) && AllAccounted(s) && Faithful(s, booked)
    ensures WellFormed(ReleasedNow(s, id, now))
    ensures Faithful(ReleasedNow(s, id, now), if id in s.active && s.store[id].assignedEnd > now then booked - {id} else booked)
  {
    ReleaseKeepsAccounts(s, id, now);
    ReleaseKeepsPlace(s, id, now);
  }

  lemma StepKeepsFaith(s: Schedule, op: Operation, s': Schedule, booked: set<ReservationId>)
    requires WellFormed(s) && AllAccounted(s) && Faithful(s, booked) && Step(s, op, s') && Plain(s, op)
    ensures WellFormed(s') && Faithful(s', BookedAfter(s, op, booked))
  {
    match op
    case Submit(id, r) => SubmitKeepsFaith(s, id, r, booked);
    case Amend(id, r) => AmendKeepsFaith(s, id, r, booked);
    case Reserve(id, now) =>
      UpdateKeepsFaith(s, now, booked);
      UpdateKeepsAccounts(s, now);
      ReserveKeepsFaith(Updated(s, now), id, booked);
    case Delete(id, now) =>
      if id in s.active {
        UpdateKeepsFaith(s, now, booked);
        UpdateKeepsAccounts(s, now);
        ReleaseKeepsFaith(Updated(s, now), id, now, booked);
      } else {
        RejectKeepsFaith(s, id, booked);
      }
    case Update(now) => UpdateKeepsFaith(s, now, booked);
    case Clear(now) =>
      ClearedWellFormed(s);
      assert forall v :: InWindow(Cleared(s), v) ==> IdsAt(Cleared(s), v) == Covering(Cleared(s), v);
      UpdateKeepsFaith(Cleared(s), now, {});
    case Book(id) => BookKeepsFaith(s, id, booked);
    case Resize(capacity) => ResizeKeepsFaith(s, s', capacity, booked);
  }

  /**
   In every state of every run of plain operations, a reservation is active if and only if it is booked and its time
   meets the window, and it is entered in exactly the slots of the window that its time covers.
   */
  lemma {:induction false} RunKeepsPlaces(states: seq<Schedule>, ops: seq<Operation>, i: nat)
    requires Run(states, ops) && i < |states|
    requires forall j :: 0 <= j < i ==> Plain(states[j], ops[j])
    ensures WellFormed(states[i]) && Faithful(states[i], BookedBy(states, ops, i))
  {
    if i > 0 {
      RunKeepsPlaces(states, ops, i - 1);
      RunKeepsAccounts(states, ops, i - 1);
      StepKeepsFaith(states[i - 1], ops[i - 1], states[i], BookedBy(states, ops, i - 1));
    }
  }
}
