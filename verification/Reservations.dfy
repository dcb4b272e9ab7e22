/** Reservation records, the store that holds them, and the molding of a reservation to less capacity. */
module Reservations {
  import opened Common

  type ReservationId = nat

  /** The states in the order in which the program compares them. */
  datatype ReservationState =
    | Rejected
    | Deleted
    | Open
    | ProbeAnswer
    | ProbeReservation
    | ReserveProbeReservation
    | ReserveAnswer
    | Committed
    | Finished
    | External

  predicate AtLeastReserved(s: ReservationState) {
    s.ReserveAnswer? || s.Committed? || s.Finished? || s.External?
  }

  /** The part of a reservation that scheduling reads and writes. */
  datatype Reservation = Reservation(
    state: ReservationState,
    bookingStart: int,
    bookingEnd: int,
    assignedStart: int,
    assignedEnd: int,
    duration: int,
    capacity: int,
    moldable: bool,
    work: int)

  type Store = map<ReservationId, Reservation>

  function UpdateState(store: Store, id: ReservationId, state: ReservationState): Store {
    if id in store then store[id := store[id].(state := state)] else store
  }

  function WithTaskDuration(r: Reservation, duration: int): Reservation {
    r.(duration := duration, work := r.capacity * duration)
  }

  function WithReservedCapacity(r: Reservation, capacity: int): Reservation {
    r.(capacity := capacity, work := capacity * r.duration)
  }

  /** The reservation squeezed to another capacity: what it loses in width it gains in length. */
  function Molded(r: Reservation, capacity: int): Reservation {
    if capacity == r.capacity then r
    else
      var m := if capacity == 0 then WithReservedCapacity(WithTaskDuration(r, r.work), 1)
               else WithReservedCapacity(WithTaskDuration(r, TruncDiv(r.work, capacity)), capacity);
      if m.duration <= 0 then WithTaskDuration(m, 1) else m
  }

  /** The work figure fits the shape, and there is something to do. */
  ghost predicate Proper(r: Reservation) {
    r.capacity >= 1 && r.duration >= 1 && r.work == r.capacity * r.duration
  }

  /** The reservation asks for something. The work figure plays no part for a reservation of fixed shape. */
  predicate Sized(r: Reservation) {
    r.capacity >= 1 && r.duration >= 1
  }

  /** The booking interval starts no earlier than the horizon and leaves room for the duration. */
  predicate HasRoom(r: Reservation, horizon: int) {
    horizon <= r.bookingStart && 0 <= r.duration <= r.bookingEnd - r.bookingStart
  }

  /**
   What may become of a record by a reserve request: the assigned start is not before the booking interval, the
   interval is not widened downwards, and the assigned end is within the interval if that leaves room. A refusal
   leaves the room there.
   */
  predicate Honoured(before: Reservation, after: Reservation, taken: bool, horizon: int) {
    && after.duration == before.duration && after.bookingStart >= before.bookingStart
    && (taken <==> AtLeastReserved(after.state))
    && (taken ==> after.assignedStart >= before.bookingStart)
    && (HasRoom(before, horizon) ==>
          if taken then after.assignedEnd <= before.bookingEnd
          else HasRoom(after, horizon) && after.bookingEnd <= before.bookingEnd)
  }

  lemma DivisionLoss(capacity: int, duration: int, cut: int)
    requires 1 <= cut <= capacity && duration >= 1
    ensures var q := (capacity * duration) / cut;
            q >= duration && capacity * duration - cut < cut * q <= capacity * duration
  {
    var work := capacity * duration;
    var q := work / cut;
    assert work == cut * q + work % cut;
    if q < duration {
      MulMono(cut, q + 1, duration);
      MulMono(duration, cut, capacity);
    }
  }

  /** A cut to c' loses less than c' of the work, and never shortens the reservation. */
  lemma MoldingLoss(r: Reservation, capacity: int)
    requires Proper(r) && 1 <= capacity <= r.capacity
    ensures var m := Molded(r, capacity);
            && Proper(m) && m.capacity == capacity && m.duration >= r.duration
            && r.work - capacity < m.work <= r.work
            && m == r.(capacity := m.capacity, duration := m.duration, work := m.work)
  {
    DivisionLoss(r.capacity, r.duration, capacity);
    MulMono(r.capacity, 1, r.duration);
  }

  /** A chain of cuts, one after the other. */
  ghost function MoldedAll(r: Reservation, cuts: seq<int>): Reservation
    decreases |cuts|
  {
    if cuts == [] then r else MoldedAll(Molded(r, cuts[0]), cuts[1..])
  }

  ghost predicate Decreasing(from: int, cuts: seq<int>) {
    cuts == [] || (1 <= cuts[0] < from && Decreasing(cuts[0], cuts[1..]))
  }

  lemma LossBudget(c: int, cut: int)
    requires 1 <= cut < c
    ensures (cut - 1) * (cut - 2) + 2 * (cut - 1) <= (c - 1) * (c - 2)
  {
    MulMono(cut, cut - 1, c - 2);
    MulMono(c - 2, cut, c - 1);
    assert (cut - 1) * (cut - 2) + 2 * (cut - 1) == cut * (cut - 1);
  }

  /** However often a reservation is cut on its way from capacity c, the loss stays within (c - 1)(c - 2) / 2. */
  lemma {:induction false} MoldingChainLoss(r: Reservation, cuts: seq<int>)
    requires Proper(r) && Decreasing(r.capacity, cuts)
    ensures var m := MoldedAll(r, cuts);
            && Proper(m) && m.duration >= r.duration && m.capacity <= r.capacity
            && m.work <= r.work
            && 2 * (r.work - m.work) <= (r.capacity - 1) * (r.capacity - 2)
    decreases |cuts|
  {
    if cuts == [] {
      if r.capacity >= 2 {
        MulMono(r.capacity - 1, 0, r.capacity - 2);
      }
    } else {
      MoldingLoss(r, cuts[0]);
      MoldingChainLoss(Molded(r, cuts[0]), cuts[1..]);
      LossBudget(r.capacity, cuts[0]);
    }
  }

  /** The bound is met: 3 units over 5 time units of work 15, cut to 2 and then to 1, lose 1 in all. */
  lemma MoldingChainTight()
    ensures var r := Reservation(Open, 0, 0, 0, 0, 5, 3, true, 15);
            Proper(r) && Decreasing(3, [2, 1]) && 2 * (r.work - MoldedAll(r, [2, 1]).work) == (3 - 1) * (3 - 2)
  {
    var r := Reservation(Open, 0, 0, 0, 0, 5, 3, true, 15);
    assert [2, 1][1..] == [1] && [1][1..] == [];
    var m := Molded(r, 2);
    assert m.work == 14 && m.duration == 7;
    assert Molded(m, 1).work == 14;
    assert MoldedAll(r, [2, 1]) == MoldedAll(m, [1]) == MoldedAll(Molded(m, 1), []);
  }

  /** The reservation stretched or shortened to another duration; its work figure is kept. */
  function Stretched(r: Reservation, duration: int): Reservation {
    if duration == r.duration then r
    else
      var d := if duration <= 0 then 1 else duration;
      var c := TruncDiv(r.work, d);
      r.(duration := d, capacity := if c <= 0 then 1 else c)
  }

  /** A cut to nothing is none: what is left has capacity 1 for as long as the work takes. */
  lemma MoldedToNothing(r: Reservation)
    requires Proper(r)
    ensures Molded(r, 0) == r.(capacity := 1, duration := r.work)
  {
    MulMono(r.capacity, 1, r.duration);
  }

  lemma Quotient(work: int, d: int)
    requires work >= 0 && d >= 1
    ensures var q := work / d; q >= 0 && work - d < q * d <= work && (q >= 1 <==> d <= work)
  {
    var q := work / d;
    assert work == d * q + work % d;
    if q < 0 {
      MulMono(d, q, -1);
    } else if q >= 1 {
      MulMono(d, 1, q);
    }
  }

  /** The new shape holds the work up to less than one time unit of it, unless it is padded up to capacity 1. */
  lemma StretchingLoss(r: Reservation, duration: int)
    requires Proper(r) && duration >= 1
    ensures var s := Stretched(r, duration);
            && s.work == r.work && s.duration == duration && s.capacity >= 1
            && (duration <= r.work ==> r.work - duration < s.capacity * s.duration <= r.work)
            && (duration > r.work ==> s.capacity == 1)
    ensures forall d :: d <= 0 ==> Stretched(r, d) == Stretched(r, 1)
  {
    MulMono(r.capacity, 1, r.duration);
    Quotient(r.work, duration);
  }

  /** A reservation as the program holds it while it works on it: a record updated in place. */
  class ReservationBase {
    var state: ReservationState
    var bookingStart: int
    var bookingEnd: int
    var assignedStart: int
    var assignedEnd: int
    var duration: int
    var capacity: int
    const moldable: bool
    var work: int

    function Value(): Reservation
      reads this
    {
      Reservation(state, bookingStart, bookingEnd, assignedStart, assignedEnd, duration, capacity, moldable, work)
    }

    constructor (r: Reservation)
      ensures Value() == r
    {
      state, bookingStart, bookingEnd := r.state, r.bookingStart, r.bookingEnd;
      assignedStart, assignedEnd := r.assignedStart, r.assignedEnd;
      duration, capacity, moldable, work := r.duration, r.capacity, r.moldable, r.work;
    }

    method SetTaskDuration(d: int)
      modifies this`duration, this`work
      ensures Value() == WithTaskDuration(old(Value()), d)
    {
      duration := d;
      work := capacity * d;
    }

    method SetReservedCapacity(c: int)
      modifies this`capacity, this`work
      ensures Value() == WithReservedCapacity(old(Value()), c)
    {
      capacity := c;
      work := c * duration;
    }

    method AdjustCapacity(c: int)
      modifies this`capacity, this`duration, this`work
      ensures Value() == Molded(old(Value()), c)
    {
      if c != capacity {
        if c == 0 {
          SetTaskDuration(work);
          SetReservedCapacity(1);
        } else {
          SetTaskDuration(TruncDiv(work, c));
          SetReservedCapacity(c);
        }
        if duration <= 0 {
          SetTaskDuration(1);
        }
      }
    }

    method AdjustTaskDuration(requested: int)
      modifies this`capacity, this`duration
      ensures Value() == Stretched(old(Value()), requested)
    {
      var d := requested;
      if d != duration {
        if d <= 0 {
          d := 1;
        }
        capacity := TruncDiv(work, d);
        if capacity <= 0 {
          capacity := 1;
        }
        duration := d;
      }
    }
  }
}
