/**
 A schedule as a value: a window of slots on an endless timeline, and what every operation makes of it. The
 window of the program is a ring of slots; here it is a sequence that starts at the first slot of the window.
 */
module Timeline {
  import opened Common
  import opened Reservations
  import opened Slots

  /** cells[k] is the slot with the virtual index start + k. */
  datatype Schedule = Schedule(width: int, start: int, cells: seq<Cell>, active: set<ReservationId>, store: Store)

  /** All slots have the same capacity and none is overfull; only known reservations are entered. */
  ghost predicate Sound(cells: seq<Cell>, known: set<ReservationId>) {
    && cells != [] && cells[0].capacity >= 0
    && forall i :: 0 <= i < |cells| ==> cells[i].load <= cells[i].capacity == cells[0].capacity && cells[i].ids <= known
  }

  ghost predicate WellFormed(s: Schedule) {
    && s.width >= 1 && s.start >= 0 && Sound(s.cells, s.store.Keys) && s.active <= s.store.Keys
    && NonNegative(s.store)
  }

  /** No reservation asks for less than nothing. */
  ghost predicate NonNegative(store: Store) {
    forall id :: id in store ==> store[id].capacity >= 0
  }

  /** Every slot's load is what its reservations reserve. */
  ghost predicate AllAccounted(s: Schedule) {
    forall i :: 0 <= i < |s.cells| ==> Accounted(s.store, s.cells[i])
  }

  /** The slot that contains a point in time; times before zero belong to the first slot. */
  function SlotIndex(width: int, time: int): int
    requires width >= 1
  {
    Max(0, time / width)
  }

  predicate InWindow(s: Schedule, v: int) {
    s.start <= v < s.start + |s.cells|
  }

  function Clamped(s: Schedule, v: int): int {
    Min(Max(v, s.start), s.start + |s.cells| - 1)
  }

  predicate IsTimeInWindow(s: Schedule, time: int) {
    s.start * s.width <= time <= (s.start + |s.cells| - 1) * s.width + s.width - 1
  }

  function FirstSlot(width: int, r: Reservation): int
    requires width >= 1
  {
    SlotIndex(width, r.assignedStart)
  }

  function LastSlot(width: int, r: Reservation): int
    requires width >= 1
  {
    SlotIndex(width, r.assignedEnd - 1)
  }

  // ---------------------------------------------------------------------------------------- moving the window

  /** The reservations whose last slot leaves the window, as the slots show it. */
  ghost function Expired(s: Schedule, newStart: int): set<ReservationId>
    requires WellFormed(s)
  {
    set k, id | 0 <= k < |s.cells| && s.start + k < newStart && id in s.cells[k].ids && LastSlot(s.width, s.store[id]) == s.start + k :: id
  }

  ghost function MarkedDeleted(store: Store, ids: set<ReservationId>): Store {
    map id | id in store :: if id in ids then store[id].(state := Deleted) else store[id]
  }

  /** The slots after the window has moved on by d: those that leave it come back empty at its end. */
  ghost function Shifted(cells: seq<Cell>, d: nat): seq<Cell>
    requires cells != []
  {
    seq(|cells|, k requires 0 <= k < |cells| => if k + d < |cells| then cells[k + d] else Emptied(cells[(k + d) % |cells|]))
  }

  ghost function Updated(s: Schedule, now: int): Schedule
    requires WellFormed(s) && SlotIndex(s.width, now) >= s.start
  {
    var newStart := SlotIndex(s.width, now);
    var expired := Expired(s, newStart) * s.active;
    s.(start := newStart,
       cells := Shifted(s.cells, newStart - s.start),
       active := s.active - expired,
       store := MarkedDeleted(s.store, expired))
  }

  /** The loads of the slots that leave the window, in order; slots never reached are empty. */
  ghost function LeavingLoads(s: Schedule, now: int): seq<int>
    requires WellFormed(s) && SlotIndex(s.width, now) >= s.start
  {
    seq(SlotIndex(s.width, now) - s.start, k requires 0 <= k => if k < |s.cells| then s.cells[k].load else 0)
  }

  /** What stands in a slot of the endless timeline: nothing, outside the window. */
  ghost function LoadAt(s: Schedule, v: int): int {
    if InWindow(s, v) then s.cells[v - s.start].load else 0
  }

  ghost function IdsAt(s: Schedule, v: int): set<ReservationId> {
    if InWindow(s, v) then s.cells[v - s.start].ids else {}
  }

  lemma UpdatedWellFormed(s: Schedule, now: int)
    requires WellFormed(s) && SlotIndex(s.width, now) >= s.start
    ensures WellFormed(Updated(s, now)) && |Updated(s, now).cells| == |s.cells|
    ensures Updated(s, now).cells[0].capacity == s.cells[0].capacity
    ensures Updated(s, now).store.Keys == s.store.Keys
  {
    ShiftedSound(s.cells, SlotIndex(s.width, now) - s.start, s.store.Keys);
    assert Updated(s, now).store.Keys == s.store.Keys;
  }

  lemma ShiftedSound(cells: seq<Cell>, d: nat, known: set<ReservationId>)
    requires Sound(cells, known)
    ensures Sound(Shifted(cells, d), known) && |Shifted(cells, d)| == |cells|
    ensures Shifted(cells, d)[0].capacity == cells[0].capacity
  {
    forall k | 0 <= k < |cells|
      ensures var c := Shifted(cells, d)[k]; c.load <= c.capacity == cells[0].capacity && c.ids <= known
    {
      ShiftedCell(cells, d, k);
      var origin := if k + d < |cells| then k + d else (k + d) % |cells|;
      assert cells[origin].load <= cells[origin].capacity == cells[0].capacity && cells[origin].ids <= known;
    }
  }

  /**
   On the endless timeline an update cuts off everything before the new start and changes nothing after it, even
   if the window moves on by more than its own length.
   */
  lemma UpdateCutsTheTimeline(s: Schedule, now: int, v: int)
    requires WellFormed(s) && SlotIndex(s.width, now) >= s.start
    ensures LoadAt(Updated(s, now), v) == if v >= SlotIndex(s.width, now) then LoadAt(s, v) else 0
    ensures IdsAt(Updated(s, now), v) == if v >= SlotIndex(s.width, now) then IdsAt(s, v) else {}
    ensures now >= 0 ==> Updated(s, now).start * s.width <= now < (Updated(s, now).start + 1) * s.width
    ensures |LeavingLoads(s, now)| == SlotIndex(s.width, now) - s.start
    ensures s.start <= v < SlotIndex(s.width, now) ==> LeavingLoads(s, now)[v - s.start] == LoadAt(s, v)
  {
    var d := SlotIndex(s.width, now) - s.start;
    if InWindow(Updated(s, now), v) {
      ShiftedCell(s.cells, d, v - s.start - d);
    }
    if now >= 0 {
      SlotOf(s.width, now);
    }
  }

  lemma ShiftedCell(cells: seq<Cell>, d: nat, k: nat)
    requires k < |cells|
    ensures Shifted(cells, d)[k] == if k + d < |cells| then cells[k + d] else Emptied(cells[(k + d) % |cells|])
  {
  }

  lemma SlotOf(width: int, time: int)
    requires width >= 1
    ensures time >= 0 ==> var i := SlotIndex(width, time); i * width <= time < (i + 1) * width
    ensures time < 0 ==> SlotIndex(width, time) == 0
  {
    assert time == width * (time / width) + time % width;
    if time >= 0 && time / width < 0 {
      MulMono(width, time / width, -1);
    } else if time < 0 && time / width >= 0 {
      MulMono(width, 0, time / width);
    }
  }

  lemma ShiftedCells(cells: seq<Cell>, d: nat)
    requires cells != []
    ensures |Shifted(cells, d)| == |cells|
    ensures forall k :: 0 <= k < |cells| ==>
      Shifted(cells, d)[k] == if k + d < |cells| then cells[k + d] else Emptied(cells[(k + d) % |cells|])
    ensures d == 0 ==> Shifted(cells, d) == cells
  {
  }

  // ------------------------------------------------------------------------------------------- finding a place

  /** What a slot can offer; nothing outside the window. */
  function Available(s: Schedule, v: int, requirement: int): int {
    if InWindow(s, v) then Adjusted(s.cells[v - s.start], requirement) else 0
  }

  /** The time at which a candidate that uses slot v as its first starts. */
  function CandidateStart(s: Schedule, r: Reservation, v: int): int {
    Max(v * s.width, r.bookingStart)
  }

  function Placed(r: Reservation, start: int): Reservation {
    r.(bookingStart := start, bookingEnd := start + r.duration,
       assignedStart := start, assignedEnd := start + r.duration, state := ProbeReservation)
  }

  /** The walk over the slots from v on; a moldable reservation shrinks to what they offer, and gets longer. */
  function FitFrom(s: Schedule, r: Reservation, start: int, v: int, boundary: int): Option<Reservation>
    requires s.width >= 1 && forall i :: 0 <= i < |s.cells| ==> s.cells[i].load <= s.cells[i].capacity
    decreases Max(0, r.capacity), Max(0, SlotIndex(s.width, start + r.duration - 1) + 1 - v)
  {
    if v > SlotIndex(s.width, start + r.duration - 1) then Some(Placed(r, start))
    else
      var available := Available(s, v, r.capacity);
      if available == 0 && r.capacity != 0 then None
      else if !r.moldable && available != r.capacity then None
      else if available < r.capacity then
        var m := Molded(r, available);
        if !IsTimeInWindow(s, start + m.duration) || start + m.duration > boundary then None
        else FitFrom(s, m, start, v + 1, boundary)
      else FitFrom(s, r, start, v + 1, boundary)
  }

  function TryFit(s: Schedule, r: Reservation, v: int, boundary: int): Option<Reservation>
    requires s.width >= 1 && forall i :: 0 <= i < |s.cells| ==> s.cells[i].load <= s.cells[i].capacity
  {
    FitFrom(s, r, CandidateStart(s, r, v), v, boundary)
  }

  /** The booking interval with the sentinel for "not set" resolved. */
  function IntervalStart(r: Reservation): int {
    if r.bookingStart == I64_MIN then 0 else r.bookingStart
  }

  function IntervalEnd(r: Reservation): int {
    if r.bookingEnd == I64_MIN then I64_MAX else r.bookingEnd
  }

  /** Requests that are turned down without looking at the slots. */
  predicate TurnedDown(s: Schedule, r: Reservation)
    requires s.cells != []
  {
    || IntervalStart(r) > IntervalEnd(r)
    || IntervalStart(r) < 0
    || (!r.moldable && 0 < s.cells[0].capacity < r.capacity)
  }

  function EarliestSlot(s: Schedule, r: Reservation): int
    requires s.width >= 1
  {
    Clamped(s, SlotIndex(s.width, IntervalStart(r)))
  }

  function LatestSlot(s: Schedule, r: Reservation): int
    requires s.width >= 1
  {
    Clamped(s, SlotIndex(s.width, IntervalEnd(r) - r.duration))
  }

  /** v is the first slot up to latest where a candidate fits. */
  ghost predicate IsFirstFit(s: Schedule, r: Reservation, v: int)
    requires WellFormed(s)
  {
    && !TurnedDown(s, r)
    && EarliestSlot(s, r) <= v <= LatestSlot(s, r)
    && TryFit(s, r, v, IntervalEnd(r)).Some?
    && forall u :: EarliestSlot(s, r) <= u < v ==> TryFit(s, r, u, IntervalEnd(r)).None?
  }

  ghost predicate NothingFits(s: Schedule, r: Reservation)
    requires WellFormed(s)
  {
    TurnedDown(s, r) || forall u :: EarliestSlot(s, r) <= u <= LatestSlot(s, r) ==> TryFit(s, r, u, IntervalEnd(r)).None?
  }

  /** Least slot from v on where a candidate fits. */
  ghost function FirstFitFrom(s: Schedule, r: Reservation, v: int): Option<int>
    requires WellFormed(s)
    decreases LatestSlot(s, r) - v
  {
    if v > LatestSlot(s, r) then None
    else if TryFit(s, r, v, IntervalEnd(r)).Some? then Some(v)
    else FirstFitFrom(s, r, v + 1)
  }

  ghost function FirstFit(s: Schedule, r: Reservation): Option<int>
    requires WellFormed(s)
  {
    if TurnedDown(s, r) then None else FirstFitFrom(s, r, EarliestSlot(s, r))
  }

  lemma {:induction false} FirstFitFromIsLeast(s: Schedule, r: Reservation, v: int)
    requires WellFormed(s)
    ensures match FirstFitFrom(s, r, v)
            case None => forall u :: v <= u <= LatestSlot(s, r) ==> TryFit(s, r, u, IntervalEnd(r)).None?
            case Some(w) => v <= w <= LatestSlot(s, r) && TryFit(s, r, w, IntervalEnd(r)).Some?
                            && forall u :: v <= u < w ==> TryFit(s, r, u, IntervalEnd(r)).None?
    decreases LatestSlot(s, r) - v
  {
    if v <= LatestSlot(s, r) && TryFit(s, r, v, IntervalEnd(r)).None? {
      FirstFitFromIsLeast(s, r, v + 1);
    }
  }

  lemma FirstFitIsLeast(s: Schedule, r: Reservation)
    requires WellFormed(s)
    ensures match FirstFit(s, r)
            case None => NothingFits(s, r)
            case Some(v) => IsFirstFit(s, r, v)
  {
    FirstFitFromIsLeast(s, r, EarliestSlot(s, r));
  }

  // -------------------------------------------------------------------------------------- booking and releasing

  /** The slots of the window between first and last, each with the reservation entered. */
  ghost function InsertSpan(start: int, cells: seq<Cell>, first: int, last: int, capacity: int, id: ReservationId): seq<Cell> {
    seq(|cells|, k requires 0 <= k < |cells| => if first <= start + k <= last then Inserted(cells[k], capacity, id) else cells[k])
  }

  ghost function FreeSpan(start: int, cells: seq<Cell>, first: int, last: int, capacity: int, id: ReservationId): seq<Cell> {
    seq(|cells|, k requires 0 <= k < |cells| => if first <= start + k <= last then Freed(cells[k], id, capacity) else cells[k])
  }

  /**
   The reservation is entered into all slots of its assigned time. If it was active before, it is taken out of all
   of them again.
   */
  ghost function BookedWithoutCheck(s: Schedule, id: ReservationId): Schedule
    requires s.width >= 1 && id in s.store
  {
    var r := s.store[id];
    var first, last := FirstSlot(s.width, r), LastSlot(s.width, r);
    var entered := InsertSpan(s.start, s.cells, first, last, r.capacity, id);
    s.(cells := if id in s.active then FreeSpan(s.start, entered, first, last, r.capacity, id) else entered,
       active := s.active + {id},
       store := UpdateState(s.store, id, ReserveAnswer))
  }

  /** The record takes over the times of the candidate, and nothing else. */
  function Promoted(store: Store, id: ReservationId, c: Reservation): Store
    requires id in store
  {
    store[id := store[id].(bookingStart := c.bookingStart, bookingEnd := c.bookingEnd,
                           assignedStart := c.assignedStart, assignedEnd := c.assignedEnd, state := c.state)]
  }

  /** Reserving at the first place that fits, in a window that is up to date. */
  ghost function ReservedNow(s: Schedule, id: ReservationId): Schedule
    requires WellFormed(s) && id in s.store
  {
    match FirstFit(s, s.store[id])
    case None => s.(store := UpdateState(s.store, id, Rejected))
    case Some(v) =>
      FirstFitIsLeast(s, s.store[id]);
      var c := TryFit(s, s.store[id], v, IntervalEnd(s.store[id])).value;
      BookedWithoutCheck(s.(store := Promoted(s.store, id, c)), id)
  }

  ghost function ReserveAt(s: Schedule, id: ReservationId, now: int): Schedule
    requires WellFormed(s) && SlotIndex(s.width, now) >= s.start && id in s.store
  {
    UpdatedWellFormed(s, now);
    ReservedNow(Updated(s, now), id)
  }

  /** Releasing an active reservation that has not ended yet. */
  ghost function ReleasedNow(s: Schedule, id: ReservationId, now: int): Schedule
    requires WellFormed(s)
  {
    if id !in s.active || s.store[id].assignedEnd <= now then s
    else
      var r := s.store[id];
      s.(cells := FreeSpan(s.start, s.cells, Max(FirstSlot(s.width, r), s.start), Clamped(s, LastSlot(s.width, r)), r.capacity, id),
         active := s.active - {id},
         store := UpdateState(s.store, id, Deleted))
  }

  ghost function DeleteAt(s: Schedule, id: ReservationId, now: int): Schedule
    requires WellFormed(s) && SlotIndex(s.width, now) >= s.start
  {
    if id !in s.active then s.(store := UpdateState(s.store, id, Rejected))
    else
      UpdatedWellFormed(s, now);
      ReleasedNow(Updated(s, now), id, now)
  }

  /** All slots emptied and no reservation active any more, in a window that is up to date. */
  ghost function Cleared(s: Schedule): Schedule {
    s.(cells := seq(|s.cells|, k requires 0 <= k < |s.cells| => Emptied(s.cells[k])), active := {})
  }

  ghost function ClearAt(s: Schedule, now: int): Schedule
    requires WellFormed(s) && SlotIndex(s.width, now) >= s.start
  {
    ClearedWellFormed(s);
    Updated(Cleared(s), now)
  }

  lemma ClearedWellFormed(s: Schedule)
    requires WellFormed(s)
    ensures WellFormed(Cleared(s)) && AllAccounted(Cleared(s))
    ensures forall v :: LoadAt(Cleared(s), v) == 0 && IdsAt(Cleared(s), v) == {}
  {
    forall k | 0 <= k < |s.cells| ensures Emptied(s.cells[k]).capacity == s.cells[0].capacity {
    }
  }

  /** What a change of capacity may make of a slot: it loses reservations only if it is too full, and only as many as it takes. */
  ghost predicate Resized(store: Store, c: Cell, c': Cell, capacity: int) {
    if c.load < capacity then c' == c.(capacity := capacity)
    else
      && c'.ids <= c.ids
      && (c'.ids != c.ids ==> exists id :: id in c.ids - c'.ids && c'.load + Reserved(store, id) >= capacity)
      && c'.load == c.load - ReservedBy(store, c.ids - c'.ids)
      && (c'.load < capacity || c'.ids == {})
      && c'.capacity == if c'.load < capacity then capacity else c.capacity
  }
}
