/**
 The slotted schedule itself: a ring of slots under a window that moves with the clock. Every method is tied to
 what it makes of the schedule as a value.
 */
module SlottedSchedules {
  import opened Common
  import opened Reservations
  import opened Slots
  import opened Timeline
  import opened PlaceSearch
  import opened Placement
  import opened Rings
  import opened Probes
  import opened LoadBuffers
  import opened Runs

  function EmptyCells(n: nat, capacity: int): seq<Cell> {
    seq(n, k => Cell(0, capacity, {}))
  }

  /** A new schedule: no load, and a window that starts with the slot of the current time. */
  ghost function EmptySchedule(n: nat, width: int, capacity: int, store: Store, now: int): Schedule
    requires width >= 1
  {
    Schedule(width, SlotIndex(width, now), EmptyCells(n, capacity), {}, store)
  }

  lemma EmptyWindow(n: nat, capacity: int, start: int)
    requires n >= 1
    ensures Window(EmptyCells(n, capacity), start) == EmptyCells(n, capacity)
  {
    var cells := EmptyCells(n, capacity);
    forall k | 0 <= k < n ensures Window(cells, start)[k] == cells[k] {
      assert 0 <= (start + k) % n < n;
    }
  }

  lemma EmptyIsValid(n: nat, width: int, capacity: int, store: Store, now: int)
    requires n >= 1 && width >= 1 && capacity >= 0 && NonNegative(store)
    ensures WellFormed(EmptySchedule(n, width, capacity, store, now)) && AllAccounted(EmptySchedule(n, width, capacity, store, now))
  {
  }

  /** No slot is taken, nothing is active, and the current time lies in the first slot. */
  lemma EmptyExactly(n: nat, width: int, capacity: int, store: Store, now: int, k: nat)
    requires width >= 1 && now >= 0 && k < n
    ensures var s := EmptySchedule(n, width, capacity, store, now);
            && s.width == width && UpToDate(s, now) && s.active == {} && s.store == store
            && |s.cells| == n && s.cells[k] == Cell(0, capacity, {})
  {
    SlotOf(width, now);
  }

  method NewSlots(n: nat, capacity: int) returns (slots: seq<Slot>)
    ensures |slots| == n && fresh(slots)
    ensures forall j, k :: 0 <= j < k < n ==> slots[j] != slots[k]
    ensures forall j :: 0 <= j < n ==> slots[j].Value() == EmptyCells(n, capacity)[j]
  {
    slots := [];
    for i := 0 to n
      invariant |slots| == i && fresh(slots)
      invariant forall j, k :: 0 <= j < k < i ==> slots[j] != slots[k]
      invariant forall j :: 0 <= j < i ==> slots[j].Value() == Cell(0, capacity, {})
    {
      var slot := new Slot(capacity);
      slots := slots + [slot];
    }
  }

  lemma Fits(s: Schedule, r: Reservation)
    requires WellFormed(s) && r in s.store.Values
    ensures s.width >= 1 && forall i :: 0 <= i < |s.cells| ==> s.cells[i].load <= s.cells[i].capacity
    ensures r.capacity >= 0
  {
  }

  /** One slot of the walk. */
  lemma FitStep(s: Schedule, r: Reservation, start: int, v: int, boundary: int)
    requires s.width >= 1 && forall i :: 0 <= i < |s.cells| ==> s.cells[i].load <= s.cells[i].capacity
    requires v <= SlotIndex(s.width, start + r.duration - 1)
    ensures var available := Available(s, v, r.capacity);
            FitFrom(s, r, start, v, boundary) ==
            if (available == 0 && r.capacity != 0) || (!r.moldable && available != r.capacity) then None
            else if available < r.capacity then
              var m := Molded(r, available);
              if !IsTimeInWindow(s, start + m.duration) || start + m.duration > boundary then None
              else FitFrom(s, m, start, v + 1, boundary)
            else FitFrom(s, r, start, v + 1, boundary)
    ensures r.capacity >= 0 ==> Available(s, v, r.capacity) >= 0
    ensures var available := Available(s, v, r.capacity);
            available < r.capacity && available != 0 ==> Molded(r, available).capacity == available
  {
  }

  lemma FitEnd(s: Schedule, r: Reservation, start: int, v: int, boundary: int)
    requires s.width >= 1 && forall i :: 0 <= i < |s.cells| ==> s.cells[i].load <= s.cells[i].capacity
    requires v > SlotIndex(s.width, start + r.duration - 1)
    ensures FitFrom(s, r, start, v, boundary) == Some(Placed(r, start))
  {
  }

  lemma NumberedGrows(cs: seq<Reservation>, c: Reservation)
    ensures Numbered(cs + [c]) == Numbered(cs)[|cs| := c]
    ensures Numbered([]) == map[]
  {
  }

  /** The candidates under the numbers they get when they are added one by one. */
  ghost function Numbered(cs: seq<Reservation>): map<nat, Reservation> {
    map k: nat | k < |cs| :: cs[k]
  }

  lemma EmptySpan(start: int, cells: seq<Cell>, first: int, capacity: int, id: ReservationId)
    ensures forall last :: last < first ==> InsertSpan(start, cells, first, last, capacity, id) == cells
    ensures forall last :: last < first ==> FreeSpan(start, cells, first, last, capacity, id) == cells
  {
  }

  lemma SpanGrows(start: int, cells: seq<Cell>, first: int, v: int, capacity: int, id: ReservationId)
    requires first <= v
    ensures InsertSpan(start, InsertSpan(start, cells, first, v - 1, capacity, id), v, v, capacity, id) ==
            InsertSpan(start, cells, first, v, capacity, id)
    ensures FreeSpan(start, FreeSpan(start, cells, first, v - 1, capacity, id), v, v, capacity, id) ==
            FreeSpan(start, cells, first, v, capacity, id)
  {
  }

  lemma NoneExpired(s: Schedule)
    requires WellFormed(s)
    ensures Expired(s, s.start) == {}
  {
  }

  lemma ExpiredGrows(s: Schedule, v: int)
    requires WellFormed(s) && s.start <= v < s.start + |s.cells|
    ensures s.cells[v - s.start].ids <= s.store.Keys
    ensures Expired(s, v + 1) == Expired(s, v) + set id | id in s.cells[v - s.start].ids && LastSlot(s.width, s.store[id]) == v
  {
    assert s.cells[v - s.start].ids <= s.store.Keys;
    forall id | id in s.cells[v - s.start].ids && LastSlot(s.width, s.store[id]) == v ensures id in Expired(s, v + 1) {
      assert s.start + (v - s.start) == v;
    }
  }

  lemma ExpiredStops(s: Schedule, newStart: int)
    requires WellFormed(s) && newStart >= s.start
    ensures Expired(s, newStart) == Expired(s, Min(newStart, s.start + |s.cells|))
  {
  }

  /** The loads of m slots from the first of the window on; slots behind the window are empty. */
  ghost function LoadsFrom(cells: seq<Cell>, m: nat): seq<int> {
    seq(m, k requires 0 <= k => if k < |cells| then cells[k].load else 0)
  }

  lemma FrontGrows(cells: seq<Cell>, m: nat)
    ensures LoadsFrom(cells, m + 1) == LoadsFrom(cells, m) + [if m < |cells| then FrontEmptied(cells, m)[m].load else 0]
    ensures FrontEmptied(cells, m + 1) ==
            if m < |cells| then FrontEmptied(cells, m)[m := Emptied(FrontEmptied(cells, m)[m])] else FrontEmptied(cells, m)
  {
  }

  lemma LoadsAreLeaving(s: Schedule, now: int)
    requires WellFormed(s) && SlotIndex(s.width, now) >= s.start
    ensures LeavingLoads(s, now) == LoadsFrom(s.cells, SlotIndex(s.width, now) - s.start)
    ensures |LeavingLoads(s, now)| == SlotIndex(s.width, now) - s.start
  {
  }

  lemma UpdatedKeys(s: Schedule, now: int)
    requires WellFormed(s) && SlotIndex(s.width, now) >= s.start
    ensures WellFormed(Updated(s, now)) && Updated(s, now).store.Keys == s.store.Keys
    ensures Updated(s, now).start == SlotIndex(s.width, now) && Updated(s, now).width == s.width
  {
    UpdatedWellFormed(s, now);
  }

  ghost predicate BestAmong(local: map<nat, Reservation>, k: nat)
    requires k in local
  {
    forall j :: j in local ==> NoLater(EarliestStart, local[k], local[j])
  }

  lemma NoneNumbered(cs: seq<Reservation>)
    requires Numbered(cs) == map[]
    ensures cs == []
  {
    assert cs != [] ==> 0 in Numbered(cs);
  }

  lemma BestIsFirstFit(s: Schedule, r: Reservation, k: nat)
    requires WellFormed(s) && k in Numbered(Candidates(s, r)) && BestAmong(Numbered(Candidates(s, r)), k)
    ensures FirstFit(s, r).Some?
    ensures TryFit(s, r, FirstFit(s, r).value, IntervalEnd(r)) == Some(Numbered(Candidates(s, r))[k])
  {
    var cs := Candidates(s, r);
    forall j | 0 <= j < |cs| ensures cs[k].assignedStart <= cs[j].assignedStart {
      assert j in Numbered(cs);
    }
    EarliestCandidateIsFirstFit(s, r, k);
  }

  lemma BookedAnswer(s: Schedule, id: ReservationId)
    requires s.width >= 1 && id in s.store
    ensures id in BookedWithoutCheck(s, id).store && BookedWithoutCheck(s, id).store[id].state == ReserveAnswer
  {
  }

  /** Reservations are removed in any order, until what is left fits, or nothing is left. */
  method ResizeSlot(slot: Slot, store: Store, capacity: nat)
    modifies slot
    ensures Resized(store, old(slot.Value()), slot.Value(), capacity)
  {
    if slot.load < capacity {
      slot.capacity := capacity;
      return;
    }
    ghost var was := slot.Value();
    var todo := slot.ids;
    ghost var removed: set<ReservationId> := {};
    while todo != {}
      invariant removed == was.ids - todo && todo <= was.ids
      invariant slot.Value() == Cell(was.load - ReservedBy(store, removed), was.capacity, was.ids - removed)
      invariant slot.load >= capacity
      invariant removed != {} ==> exists id :: id in removed && slot.load + Reserved(store, id) >= capacity
    {
      var id :| id in todo;
      todo := todo - {id};
      ReservedByAdd(store, removed, id);
      removed := removed + {id};
      var deleted := slot.DeleteReservation(id, Reserved(store, id));
      assert id in removed && slot.load + Reserved(store, id) >= capacity;
      if slot.load < capacity {
        slot.capacity := capacity;
        break;
      }
    }
    assert was.ids - slot.ids == removed;
  }

  class SlottedSchedule {
    /** The ring: the vector never changes after construction, its slots are updated in place. */
    const slots: seq<Slot>
    const slotWidth: int
    const loadBuffer: LoadBuffer
    var startIndex: int
    var endIndex: int
    var windowStart: int
    var windowEnd: int
    var active: set<ReservationId>
    var store: Store
    /** The values of the slots, place by place. */
    ghost var ring: seq<Cell>
    /** The loads handed to the load buffer so far, the first of them of the slot with index base. */
    ghost var history: seq<int>
    ghost var base: int

    /** The window and the ring fit together, and the ring shows what the slots hold. */
    ghost predicate Linked()
      reads this`startIndex, this`endIndex, this`windowStart, this`windowEnd, this`ring, slots
    {
      && slotWidth >= 1 && startIndex >= 0
      && |ring| == |slots| > 0
      && (forall i, j :: 0 <= i < j < |slots| ==> slots[i] != slots[j])
      && (forall i :: 0 <= i < |slots| ==> slots[i].Value() == ring[i])
      && endIndex == startIndex + |slots| - 1
      && windowStart == startIndex * slotWidth && windowEnd == endIndex * slotWidth + slotWidth - 1
    }

    /** The load buffer has recorded the history. */
    ghost predicate Logged()
      reads this`history, this`base, loadBuffer, loadBuffer.context
    {
      loadBuffer.Valid() && loadBuffer.Value() == Recorded(history, base)
    }

    /** The schedule as a value. */
    ghost function Abs(): Schedule
      requires ring != []
      reads this
    {
      Schedule(slotWidth, startIndex, Window(ring, startIndex), active, store)
    }

    /** The history reaches up to the window: no slot is missing, and none has been handed over twice. */
    ghost predicate Valid()
      reads this, slots, loadBuffer, loadBuffer.context
    {
      && Linked() && Logged() && startIndex == base + |history|
      && WellFormed(Abs()) && AllAccounted(Abs())
    }

    constructor (numberOfSlots: nat, slotWidth: int, capacity: int, store: Store, now: int)
      requires numberOfSlots >= 1 && slotWidth >= 1 && capacity >= 0 && now >= 0 && NonNegative(store)
      ensures Valid() && this.slotWidth == slotWidth && |slots| == numberOfSlots
      ensures Abs() == EmptySchedule(numberOfSlots, slotWidth, capacity, store, now)
      ensures history == [] && fresh(slots) && fresh(loadBuffer) && fresh(loadBuffer.context)
    {
      hide Window, WellFormed, AllAccounted;
      var created := NewSlots(numberOfSlots, capacity);
      var context := new GlobalLoadContext();
      var buffer := new LoadBuffer(context);
      var start := SlotIndex(slotWidth, now);
      slots, this.slotWidth, loadBuffer, this.store := created, slotWidth, buffer, store;
      startIndex, endIndex := start, start + numberOfSlots - 1;
      windowStart, windowEnd := start * slotWidth, (start + numberOfSlots - 1) * slotWidth + slotWidth - 1;
      active := {};
      ring, history, base := EmptyCells(numberOfSlots, capacity), [], start;
      new;
      EmptyWindow(numberOfSlots, capacity, start);
      EmptyIsValid(numberOfSlots, slotWidth, capacity, store, now);
    }

    lemma Facts()
      requires Linked()
      ensures slotWidth >= 1 && ring != [] && |Abs().cells| == |ring| == |slots| == endIndex - startIndex + 1
      ensures Abs() == Schedule(slotWidth, startIndex, Abs().cells, active, store)
      ensures forall time :: IsTimeInSchedulingWindow(time) <==> IsTimeInWindow(Abs(), time)
    {
    }

    // ------------------------------------------------------------------------------------------------- indices

    function GetSlotIndex(time: int): (index: int)
      requires slotWidth >= 1
      ensures index == SlotIndex(slotWidth, time)
    {
      var index := time / slotWidth;
      if index < 0 then 0 else index
    }

    function GetEffectiveSlotIndex(index: int): (effective: int)
      requires Linked()
      reads this, slots
      ensures effective == Clamped(Abs(), index)
    {
      var effective := if index < startIndex then startIndex else index;
      if effective > endIndex then endIndex else effective
    }

    predicate IsTimeInSchedulingWindow(time: int)
      reads this
    {
      !(time > windowEnd || time < windowStart)
    }

    /** The slot with the virtual index given, if it is in the window. */
    function GetSlot(index: int): (slot: Option<Slot>)
      requires Linked()
      reads this, slots
      ensures slot.Some? <==> InWindow(Abs(), index)
      ensures slot.Some? ==> slot.value in slots && slot.value.Value() == Abs().cells[index - startIndex]
    {
      if index < 0 || index < startIndex || index > endIndex then None
      else
        PlaceOf(index);
        Some(slots[index % |slots|])
    }

    lemma PlaceOf(index: int)
      requires Linked() && startIndex <= index <= endIndex
      ensures 0 <= index % |slots| < |slots|
      ensures Abs().cells[index - startIndex] == ring[index % |slots|] == slots[index % |slots|].Value()
    {
    }

    // ---------------------------------------------------------------------------------------------- single slots

    /** One slot of the ring has taken a new value. */
    lemma SlotChanged(before: seq<Cell>, index: int, c: Cell)
      requires before != [] && startIndex <= index < startIndex + |before|
      requires ring == before[index % |before| := c]
      ensures Abs().cells == Window(before, startIndex)[index - startIndex := c]
    {
      WindowUpdate(before, startIndex, index, c);
    }

    method InsertIntoSlot(requirement: int, index: int, id: ReservationId)
      requires Linked()
      modifies slots, this`ring
      ensures Linked()
      ensures Abs().cells == InsertSpan(startIndex, old(Abs().cells), index, index, requirement, id)
    {
      ghost var cells := Abs().cells;
      if startIndex <= index <= endIndex {
        PlaceOf(index);
        var place := index % |slots|;
        var slot := slots[place];
        var inserted := slot.InsertReservation(requirement, id);
        ghost var before := ring;
        ring := ring[place := slot.Value()];
        SlotChanged(before, index, slot.Value());
      }
      assert Abs().cells == InsertSpan(startIndex, cells, index, index, requirement, id);
    }

    method DeleteReservationInSlot(id: ReservationId, reserved: int, index: int) returns (deleted: bool)
      requires Linked()
      modifies slots, this`ring
      ensures Linked()
      ensures Abs().cells == FreeSpan(startIndex, old(Abs().cells), index, index, reserved, id)
      ensures deleted <==> id in old(IdsAt(Abs(), index))
    {
      ghost var cells := Abs().cells;
      deleted := false;
      if startIndex <= index <= endIndex {
        PlaceOf(index);
        var place := index % |slots|;
        var slot := slots[place];
        deleted := slot.DeleteReservation(id, reserved);
        ghost var before := ring;
        ring := ring[place := slot.Value()];
        SlotChanged(before, index, slot.Value());
      }
      assert Abs().cells == FreeSpan(startIndex, cells, index, index, reserved, id);
    }

    // ------------------------------------------------------------------------------------------ finding a place

    /** What a slot offers a request; nothing if the slot is outside the window. */
    function AdjustRequirement(index: int, requirement: int): (available: int)
      requires Linked()
      reads this, slots
      ensures available == Available(Abs(), index, requirement)
    {
      match GetSlot(index)
      case None => 0
      case Some(slot) => slot.GetAdjustRequirement(requirement)
    }

    method TryFitReservation(id: ReservationId, index: int, boundary: int) returns (fitted: Option<Reservation>)
      requires Valid()
      ensures fitted == if id in store then TryFit(Abs(), store[id], index, boundary) else None
    {
      if id !in store {
        return None;
      }
      Facts();
      Fits(Abs(), store[id]);
      hide Linked, Logged, WellFormed, AllAccounted, FitFrom, SlotIndex;
      var candidate := new ReservationBase(store[id]);
      var start := index * slotWidth;
      if start < candidate.bookingStart {
        start := candidate.bookingStart;
      }
      var feasible := WalkSlots(candidate, start, index, boundary);
      if !feasible {
        return None;
      }
      candidate.bookingStart, candidate.bookingEnd := start, start + candidate.duration;
      candidate.assignedStart, candidate.assignedEnd := start, start + candidate.duration;
      candidate.state := ProbeReservation;
      fitted := Some(candidate.Value());
    }

    /** Walks over the slots of the candidate's time, which grows while the candidate is squeezed into them. */
    method WalkSlots(candidate: ReservationBase, start: int, index: int, boundary: int) returns (feasible: bool)
      requires Linked() && Abs().width >= 1 && candidate.capacity >= 0
      requires forall i :: 0 <= i < |Abs().cells| ==> Abs().cells[i].load <= Abs().cells[i].capacity
      modifies candidate`capacity, candidate`duration, candidate`work
      ensures FitFrom(Abs(), old(candidate.Value()), start, index, boundary) ==
              if feasible then Some(Placed(candidate.Value(), start)) else None
    {
      hide Linked, FitFrom, SlotIndex, Molded, Available, IsTimeInWindow, IsTimeInSchedulingWindow, GetSlotIndex;
      Facts();
      ghost var s, r := Abs(), candidate.Value();
      var required := candidate.capacity;
      var end := start + candidate.duration;
      var last := GetSlotIndex(end - 1);
      var current := index;
      while current <= last
        invariant required == candidate.capacity >= 0
        invariant end == start + candidate.duration && last == SlotIndex(s.width, end - 1)
        invariant FitFrom(s, candidate.Value(), start, current, boundary) == FitFrom(s, r, start, index, boundary)
        decreases required, Max(0, last + 1 - current)
        modifies candidate`capacity, candidate`duration, candidate`work
      {
        var available := AdjustRequirement(current, required);
        FitStep(s, candidate.Value(), start, current, boundary);
        if available == 0 && required != 0 {
          return false;
        }
        if !candidate.moldable && available != required {
          return false;
        }
        if available < required {
          candidate.AdjustCapacity(available);
          required := available;
          end := start + candidate.duration;
          if !IsTimeInSchedulingWindow(end) || end > boundary {
            return false;
          }
          last := GetSlotIndex(end - 1);
        }
        current := current + 1;
      }
      FitEnd(s, candidate.Value(), start, current, boundary);
      return true;
    }

    /** All candidates for a request, in the order of their first slots. */
    method CalculateSchedule(id: ReservationId) returns (probes: ProbeReservations)
      requires Valid() && id in store
      ensures fresh(probes) && probes.Valid() && probes.originalId == id
      ensures probes.local == Numbered(Candidates(Abs(), store[id]))
    {
      hide Linked, Logged, WellFormed, AllAccounted, CandidatesUpTo, TryFit, SlotIndex, Clamped, Numbered, GetSlotIndex, GetEffectiveSlotIndex;
      Facts();
      ghost var s, r := Abs(), store[id];
      var start, end := store[id].bookingStart, store[id].bookingEnd;
      if start == I64_MIN {
        start := 0;
      }
      if end == I64_MIN {
        end := I64_MAX;
      }
      probes := new ProbeReservations(id);
      NumberedGrows([], r);
      if start > end || start < 0 {
        return;
      }
      var capacity := GetCapacity();
      if !store[id].moldable && capacity > 0 && capacity < store[id].capacity {
        return;
      }
      var earliest := GetEffectiveSlotIndex(GetSlotIndex(start));
      var latest := GetEffectiveSlotIndex(GetSlotIndex(end - store[id].duration));
      var index := earliest;
      NoCandidateBefore(s, r, earliest - 1);
      while index <= latest
        invariant earliest <= index && (index <= latest + 1 || index == earliest)
        invariant fresh(probes) && probes.Valid() && probes.originalId == id
        invariant probes.index == |CandidatesUpTo(s, r, index - 1)| && probes.local == Numbered(CandidatesUpTo(s, r, index - 1))
        modifies probes
      {
        var candidate := TryFitReservation(id, index, end);
        NextCandidate(s, r, index);
        if candidate.Some? {
          NumberedGrows(CandidatesUpTo(s, r, index - 1), candidate.value);
          var _ := probes.AddReservation(candidate.value);
        }
        index := index + 1;
      }
      if latest < earliest {
        NoCandidateBefore(s, r, latest);
      }
    }

    /** The capacity of a schedule is that of the first slot of the ring. */
    method GetCapacity() returns (capacity: int)
      requires Linked() && WellFormed(Abs())
      ensures capacity == Abs().cells[0].capacity
    {
      capacity := slots[0].capacity;
      var k := PlaceTaken(startIndex, |slots|, 0);
      assert Abs().cells[k] == ring[0];
    }

    // ------------------------------------------------------------------------------------ booking and releasing

    method InsertIntoSlots(requirement: int, first: int, last: int, id: ReservationId)
      requires Linked()
      modifies slots, this`ring
      ensures Linked()
      ensures Abs().cells == InsertSpan(startIndex, old(Abs().cells), first, last, requirement, id)
    {
      hide Linked, Inserted;
      Facts();
      ghost var cells := Abs().cells;
      var index := first;
      EmptySpan(startIndex, cells, first, requirement, id);
      while index <= last
        invariant first <= index && (index <= last + 1 || index == first)
        invariant ring != [] && Linked() && Abs().cells == InsertSpan(startIndex, cells, first, index - 1, requirement, id)
        modifies slots, this`ring
      {
        InsertIntoSlot(requirement, index, id);
        Facts();
        SpanGrows(startIndex, cells, first, index, requirement, id);
        index := index + 1;
      }
      if last < first {
        EmptySpan(startIndex, cells, last + 1, requirement, id);
      }
    }

    /** The program goes on if a slot does not hold the reservation; whether all did is not asked for. */
    method DeleteInSlots(id: ReservationId, reserved: int, first: int, last: int)
      requires Linked()
      modifies slots, this`ring
      ensures Linked()
      ensures Abs().cells == FreeSpan(startIndex, old(Abs().cells), first, last, reserved, id)
    {
      hide Linked, Freed;
      Facts();
      ghost var cells := Abs().cells;
      var index := first;
      EmptySpan(startIndex, cells, first, reserved, id);
      while index <= last
        invariant first <= index && (index <= last + 1 || index == first)
        invariant ring != [] && Linked() && Abs().cells == FreeSpan(startIndex, cells, first, index - 1, reserved, id)
        modifies slots, this`ring
      {
        var deleted := DeleteReservationInSlot(id, reserved, index);
        Facts();
        SpanGrows(startIndex, cells, first, index, reserved, id);
        index := index + 1;
      }
      if last < first {
        EmptySpan(startIndex, cells, last + 1, reserved, id);
      }
    }

    method ReserveWithoutCheck(id: ReservationId)
      requires Valid() && id in store
      modifies slots, this`ring, this`active, this`store
      ensures Valid()
      ensures Abs() == BookedWithoutCheck(old(Abs()), id)
    {
      hide Linked, Logged, WellFormed, AllAccounted, InsertSpan, FreeSpan, Window, SlotIndex;
      Facts();
      ghost var s := Abs();
      BookingKeepsAccounts(s, id);
      var first := GetSlotIndex(store[id].assignedStart);
      var last := GetSlotIndex(store[id].assignedEnd - 1);
      InsertIntoSlots(store[id].capacity, first, last, id);
      if id in active {
        DeleteInSlots(id, store[id].capacity, first, last);
      }
      Finish(active + {id}, UpdateState(store, id, ReserveAnswer));
      assert s.active + {id} == if id in s.active then s.active else s.active + {id};
    }

    /** The active set and the store play no part in how fields and objects fit together. */
    method Finish(newActive: set<ReservationId>, newStore: Store)
      requires Linked()
      modifies this`active, this`store
      ensures Linked() && Abs() == old(Abs()).(active := newActive, store := newStore)
    {
      active, store := newActive, newStore;
    }

    // --------------------------------------------------------------------------------------- moving the window

    /** The reservations of one slot that end with it, looked at in any order. */
    method EndingWith(ids: set<ReservationId>, index: int) returns (ending: set<ReservationId>)
      requires slotWidth >= 1 && ids <= store.Keys
      ensures ending == set id | id in ids && LastSlot(slotWidth, store[id]) == index
    {
      ending := {};
      var todo := ids;
      while todo != {}
        invariant todo <= ids
        invariant ending == set id | id in ids - todo && LastSlot(slotWidth, store[id]) == index
      {
        var id :| id in todo;
        todo := todo - {id};
        if GetSlotIndex(store[id].assignedEnd - 1) == index {
          ending := ending + {id};
        }
      }
    }

    method CollectExpired(newStart: int) returns (expired: set<ReservationId>)
      requires Linked() && WellFormed(Abs()) && newStart >= startIndex
      ensures expired == Expired(Abs(), newStart)
    {
      hide Linked, WellFormed, LastSlot, Expired;
      Facts();
      ghost var s := Abs();
      var cleanupEnd := Min(newStart, endIndex + 1);
      expired := {};
      NoneExpired(s);
      var index := startIndex;
      while index < cleanupEnd
        invariant startIndex <= index <= cleanupEnd
        invariant expired == Expired(s, index)
      {
        var slot := GetSlot(index);
        ExpiredGrows(s, index);
        if slot.Some? {
          var ending := EndingWith(slot.value.ids, index);
          expired := expired + ending;
        }
        index := index + 1;
      }
      ExpiredStops(s, newStart);
    }

    /** Takes the reservations out of the active set, in any order, and marks those that were in it. */
    method RemoveExpired(expired: set<ReservationId>)
      modifies this`active, this`store
      ensures active == old(active) - expired
      ensures store == MarkedDeleted(old(store), expired * old(active))
    {
      ghost var was := store;
      var todo := expired;
      while todo != {}
        invariant todo <= expired
        invariant active == old(active) - (expired - todo)
        invariant store == MarkedDeleted(was, (expired - todo) * old(active))
        modifies this`active, this`store
      {
        var id :| id in todo;
        todo := todo - {id};
        if id in active {
          active := active - {id};
          store := UpdateState(store, id, Deleted);
        }
      }
    }

    /** Hands the loads of the slots before the new start to the load buffer, and empties these slots. */
    method LogAndReset(newStart: int)
      requires Linked() && Logged() && newStart >= startIndex == base + |history|
      modifies slots, this`ring, this`history, loadBuffer, loadBuffer.context
      ensures Linked() && Logged()
      ensures Abs().cells == FrontEmptied(old(Abs().cells), newStart - startIndex)
      ensures history == old(history) + LoadsFrom(old(Abs().cells), newStart - startIndex)
    {
      hide Linked, Logged;
      Facts();
      ghost var cells, h := Abs().cells, history;
      var index := startIndex;
      assert FrontEmptied(cells, 0) == cells && LoadsFrom(cells, 0) == [];
      hide Window, FrontEmptied, LoadsFrom;
      while index < newStart
        invariant startIndex <= index <= newStart
        invariant ring != [] && Linked() && Logged()
        invariant Abs().cells == FrontEmptied(cells, index - startIndex)
        invariant history == h + LoadsFrom(cells, index - startIndex)
        modifies slots, this`ring, this`history, loadBuffer, loadBuffer.context
      {
        var load := GetSlotLoad(index);
        LogLoad(load, index);
        ResetSlot(index);
        Facts();
        FrontGrows(cells, index - startIndex);
        index := index + 1;
      }
    }

    function GetSlotLoad(index: int): (load: int)
      requires Linked()
      reads this, slots
      ensures load == LoadAt(Abs(), index)
    {
      match GetSlot(index)
      case None => 0
      case Some(slot) => slot.load
    }

    method LogLoad(load: int, index: int)
      requires Logged() && index == base + |history|
      modifies this`history, loadBuffer, loadBuffer.context
      ensures Logged() && history == old(history) + [load]
    {
      loadBuffer.Add(load, index);
      ghost var before := history;
      history := history + [load];
      assert history[..|history| - 1] == before;
    }

    method ResetSlot(index: int)
      requires Linked()
      modifies slots, this`ring
      ensures Linked()
      ensures Abs().cells == if InWindow(old(Abs()), index) then old(Abs().cells)[index - startIndex := Emptied(old(Abs().cells)[index - startIndex])]
                             else old(Abs().cells)
    {
      if startIndex <= index <= endIndex {
        PlaceOf(index);
        var place := index % |slots|;
        slots[place].Reset();
        ghost var before := ring;
        ring := ring[place := slots[place].Value()];
        SlotChanged(before, index, slots[place].Value());
      }
    }

    method MoveWindow(newStart: int)
      requires Linked() && newStart >= startIndex
      modifies this`startIndex, this`endIndex, this`windowStart, this`windowEnd
      ensures Linked() && Abs() == old(Abs()).(start := newStart, cells := Window(ring, newStart))
    {
      startIndex := newStart;
      endIndex := newStart + |slots| - 1;
      windowStart := startIndex * slotWidth;
      windowEnd := endIndex * slotWidth + slotWidth - 1;
    }

    /** Moves the window on to the current time. */
    method Update(now: int)
      requires Valid() && SlotIndex(slotWidth, now) >= startIndex
      modifies this, slots, loadBuffer, loadBuffer.context
      ensures Valid() && base == old(base)
      ensures Abs() == Updated(old(Abs()), now)
      ensures history == old(history) + LeavingLoads(old(Abs()), now)
    {
      hide Linked, Logged, WellFormed, AllAccounted, Window, SlotIndex, Expired, Shifted, FrontEmptied, LoadsFrom, MarkedDeleted;
      Facts();
      ghost var s, before := Abs(), ring;
      UpdatedWellFormed(s, now);
      UpdateKeepsAccounts(s, now);
      var newStart := GetSlotIndex(now);
      var expired := CollectExpired(newStart);
      RemoveExpired(expired);
      LogAndReset(newStart);
      Facts();
      RingAdvances(before, ring, startIndex, newStart - startIndex);
      MoveWindow(newStart);
      LoadsAreLeaving(s, now);
      assert Linked() && Abs() == Updated(s, now) && Logged();
    }

    // ------------------------------------------------------------------------------------------ the operations

    /** Reserves at the first place that fits, if there is one. */
    method Reserve(id: ReservationId, now: int) returns (reserved: bool)
      requires Valid() && id in store && SlotIndex(slotWidth, now) >= startIndex
      modifies this, slots, loadBuffer, loadBuffer.context
      ensures Valid() && base == old(base)
      ensures Abs() == ReserveAt(old(Abs()), id, now)
      ensures reserved <==> store[id].state == ReserveAnswer
      ensures history == old(history) + LeavingLoads(old(Abs()), now)
    {
      hide Linked, Logged, WellFormed, AllAccounted, FirstFit, BookedWithoutCheck, Updated, LeavingLoads, Candidates, TryFit;
      Facts();
      ghost var before := Abs();
      UpdatedKeys(before, now);
      Update(now);
      Facts();
      ghost var s, r := Abs(), store[id];
      var probes := CalculateSchedule(id);
      EarliestCandidateIsFirstFit(s, r, 0);
      if probes.local == map[] {
        NoneNumbered(Candidates(s, r));
        SetStore(UpdateState(store, id, Rejected));
        return false;
      }
      ghost var candidates := probes.local;
      var promoted, newStore := probes.OnlyPromoteBest(id, EarliestStart, store);
      ghost var k :| k in candidates && newStore == Promoted(store, id, candidates[k]) && BestAmong(candidates, k);
      BestIsFirstFit(s, r, k);
      SetStore(newStore);
      ReserveWithoutCheck(id);
      BookedAnswer(s.(store := newStore), id);
      return true;
    }

    /** A change of the store that leaves the capacities alone leaves the schedule valid. */
    method SetStore(newStore: Store)
      requires Valid() && newStore.Keys == store.Keys
      requires forall id :: id in store ==> newStore[id].capacity == store[id].capacity
      modifies this`store
      ensures Valid() && Abs() == old(Abs()).(store := newStore)
    {
      hide Linked, Logged;
      Facts();
      ghost var s := Abs();
      store := newStore;
      AllReserved(s, Abs());
    }

    method DeleteReservation(id: ReservationId, now: int)
      requires Valid() && SlotIndex(slotWidth, now) >= startIndex
      modifies this, slots, loadBuffer, loadBuffer.context
      ensures Valid() && base == old(base)
      ensures Abs() == DeleteAt(old(Abs()), id, now)
      ensures history == old(history) + if id in old(active) then LeavingLoads(old(Abs()), now) else []
    {
      hide Linked, Logged, AllAccounted, Updated, LeavingLoads, FreeSpan, SlotIndex;
      Facts();
      if id !in active {
        SetStore(UpdateState(store, id, Rejected));
        return;
      }
      Update(now);
      Facts();
      ghost var s := Abs();
      ReleaseKeepsAccounts(s, id, now);
      if id !in store || store[id].assignedEnd <= now || id !in active {
        return;
      }
      var reserved := store[id].capacity;
      var first := GetSlotIndex(store[id].assignedStart);
      var last := GetEffectiveSlotIndex(GetSlotIndex(store[id].assignedEnd - 1));
      if first < startIndex {
        first := startIndex;
      }
      Finish(active - {id}, UpdateState(store, id, Deleted));
      DeleteInSlots(id, reserved, first, last);
    }

    /** Empties all slots, forgets the active reservations, and moves the window on. */
    method Clear(now: int)
      requires Valid() && SlotIndex(slotWidth, now) >= startIndex
      modifies this, slots, loadBuffer, loadBuffer.context
      ensures Valid() && base == old(base)
      ensures Abs() == ClearAt(old(Abs()), now)
      ensures history == old(history) + Zeros(startIndex - old(startIndex))
    {
      hide Logged, AllAccounted, Updated, SlotIndex;
      ghost var s := Abs();
      ClearedWellFormed(s);
      ghost var before := ring;
      for i := 0 to |slots|
        invariant |ring| == |slots|
        invariant forall j :: 0 <= j < |slots| ==> slots[j].Value() == ring[j]
        invariant forall j :: 0 <= j < |slots| ==> ring[j] == if j < i then Emptied(before[j]) else before[j]
        modifies slots, this`ring
      {
        slots[i].Reset();
        ring := ring[i := slots[i].Value()];
      }
      active := {};
      assert Abs() == Cleared(s);
      Update(now);
      assert LeavingLoads(Cleared(s), now) == Zeros(startIndex - s.start);
    }

    /** Gives all slots a new capacity; from slots that are too full for it reservations are removed. */
    method UpdateCapacity(capacity: nat)
      requires Valid()
      modifies slots, this`ring
      ensures Valid() && AllResized(old(Abs()), Abs(), capacity)
    {
      hide Logged, WellFormed, AllAccounted, Resized;
      ghost var s, before := Abs(), ring;
      for i := 0 to |slots|
        invariant |ring| == |slots|
        invariant forall j :: 0 <= j < |slots| ==> slots[j].Value() == ring[j]
        invariant forall j :: i <= j < |slots| ==> ring[j] == before[j]
        invariant forall j :: 0 <= j < i ==> Resized(store, before[j], ring[j], capacity)
        modifies slots, this`ring
      {
        ResizeSlot(slots[i], store, capacity);
        ring := ring[i := slots[i].Value()];
      }
      forall k | 0 <= k < |slots| ensures Resized(store, s.cells[k], Abs().cells[k], capacity) {
        var place := (startIndex + k) % |slots|;
        assert s.cells[k] == before[place] && Abs().cells[k] == ring[place];
      }
      AllResizedKeepsAccounts(s, Abs(), capacity);
    }
  }
}
