/** What the search for a place finds: exactly the first place that fits, with as little molding as possible. */
module PlaceSearch {
  import opened Common
  import opened Reservations
  import opened Slots
  import opened Timeline

  /** What is left of a slot of the window. */
  function Free(s: Schedule, v: int): int
    requires InWindow(s, v)
  {
    s.cells[v - s.start].capacity - s.cells[v - s.start].load
  }

  /** All slots from first to last lie in the window and have the capacity free. */
  ghost predicate FitsSpan(s: Schedule, first: int, last: int, capacity: int) {
    forall u :: first <= u <= last ==> InWindow(s, u) && Free(s, u) >= capacity
  }

  /** The capacity is not cut further than the fullest slot of the span demands. */
  ghost predicate NoNeedlessCut(s: Schedule, first: int, last: int, requested: int, capacity: int) {
    capacity == requested || exists u :: first <= u <= last && InWindow(s, u) && Free(s, u) == capacity
  }

  /** A reservation that cannot be molded fits where its whole span is free, and keeps its shape. */
  lemma {:induction false} FixedFit(s: Schedule, r: Reservation, start: int, v: int, boundary: int)
    requires WellFormed(s) && !r.moldable && r.capacity >= 1
    ensures FitFrom(s, r, start, v, boundary) ==
            if FitsSpan(s, v, SlotIndex(s.width, start + r.duration - 1), r.capacity) then Some(Placed(r, start)) else None
    decreases SlotIndex(s.width, start + r.duration - 1) + 1 - v
  {
    var last := SlotIndex(s.width, start + r.duration - 1);
    if v <= last {
      FixedFit(s, r, start, v + 1, boundary);
      if Available(s, v, r.capacity) == r.capacity {
        assert InWindow(s, v) && Free(s, v) >= r.capacity;
      } else {
        assert !(InWindow(s, v) && Free(s, v) >= r.capacity);
      }
    }
  }

  /** A request for nothing fits everywhere, even where its time runs past the window: no slot is asked for anything. */
  lemma {:induction false} NothingNeedsNoRoom(s: Schedule, r: Reservation, start: int, v: int, boundary: int)
    requires WellFormed(s) && r.capacity == 0
    ensures FitFrom(s, r, start, v, boundary) == Some(Placed(r, start))
    decreases SlotIndex(s.width, start + r.duration - 1) + 1 - v
  {
    if v <= SlotIndex(s.width, start + r.duration - 1) {
      assert Available(s, v, 0) == 0;
      NothingNeedsNoRoom(s, r, start, v + 1, boundary);
    }
  }

  lemma SlotIndexMonotone(width: int, a: int, b: int)
    requires width >= 1 && a <= b
    ensures SlotIndex(width, a) <= SlotIndex(width, b)
  {
    assert a == width * (a / width) + a % width && b == width * (b / width) + b % width;
    if a / width > b / width {
      MulMono(width, b / width + 1, a / width);
    }
  }

  lemma NoLoss(c: int)
    requires c >= 1
    ensures 0 <= (c - 1) * (c - 2)
  {
    if c >= 2 {
      MulMono(c - 1, 0, c - 2);
    }
  }

  /** What became of the reservation r on its way to the candidate c that starts at the time given. */
  ghost predicate CutTo(r: Reservation, c: Reservation, start: int) {
    && Proper(c) && c.capacity <= r.capacity && c.duration >= r.duration
    && c.work <= r.work && 2 * (r.work - c.work) <= (r.capacity - 1) * (r.capacity - 2)
    && c == Placed(r.(capacity := c.capacity, duration := c.duration, work := c.work), start)
    && (c.capacity == r.capacity ==> c == Placed(r, start))
  }

  /** The candidate fits the slots from v on, after no more cuts than they demand, and a cut one ends in time. */
  ghost predicate FitsFrom(s: Schedule, r: Reservation, c: Reservation, v: int, boundary: int)
    requires s.width >= 1
  {
    var last := SlotIndex(s.width, c.assignedEnd - 1);
    && FitsSpan(s, v, last, c.capacity)
    && NoNeedlessCut(s, v, last, r.capacity, c.capacity)
    && (c.capacity < r.capacity ==>
          c.assignedEnd <= boundary && s.start * s.width <= c.assignedEnd < (s.start + |s.cells|) * s.width)
  }

  /**
   Any candidate found: its final capacity is free in every slot of its final span, it is cut no further than
   necessary, the work lost by cutting is bounded, and a cut candidate ends within booking interval and window.
   */
  lemma {:induction false} FitIsSound(s: Schedule, r: Reservation, start: int, v: int, boundary: int)
    requires WellFormed(s) && Proper(r) && FitFrom(s, r, start, v, boundary).Some?
    ensures CutTo(r, FitFrom(s, r, start, v, boundary).value, start)
    ensures FitsFrom(s, r, FitFrom(s, r, start, v, boundary).value, v, boundary)
    decreases Max(0, r.capacity), Max(0, SlotIndex(s.width, start + r.duration - 1) + 1 - v)
  {
    NoLoss(r.capacity);
    if v <= SlotIndex(s.width, start + r.duration - 1) {
      var available := Available(s, v, r.capacity);
      assert InWindow(s, v);
      if available < r.capacity {
        var m := Molded(r, available);
        MoldingLoss(r, available);
        FitIsSound(s, m, start, v + 1, boundary);
        var c := FitFrom(s, m, start, v + 1, boundary).value;
        LossBudget(r.capacity, available);
        SlotIndexMonotone(s.width, start + r.duration - 1, start + c.duration - 1);
        CutStep(s, r, m, c, start, v, boundary);
      } else {
        FitIsSound(s, r, start, v + 1, boundary);
      }
    }
  }

  /** One cut, at slot v, in front of the cuts that follow. */
  lemma CutStep(s: Schedule, r: Reservation, m: Reservation, c: Reservation, start: int, v: int, boundary: int)
    requires s.width >= 1 && InWindow(s, v) && m.capacity == Free(s, v) < r.capacity
    requires CutTo(m, c, start) && FitsFrom(s, m, c, v + 1, boundary)
    requires start + m.duration <= boundary && IsTimeInWindow(s, start + m.duration)
    requires v <= SlotIndex(s.width, c.assignedEnd - 1)
    ensures FitsFrom(s, r, c, v, boundary)
  {
  }

  /**
   Whether a candidate is cut can be told from the slots before the search: it keeps its shape if the span it needs has
   the capacity free, and otherwise it is cut, and ends by the boundary.
   */
  lemma {:induction false} CutExactly(s: Schedule, r: Reservation, start: int, v: int, boundary: int)
    requires WellFormed(s) && r.capacity >= 1 && FitFrom(s, r, start, v, boundary).Some?
    ensures var c := FitFrom(s, r, start, v, boundary).value;
            if FitsSpan(s, v, SlotIndex(s.width, start + r.duration - 1), r.capacity) then c == Placed(r, start)
            else c.capacity < r.capacity && c.assignedEnd <= boundary && c.assignedStart == start
    decreases Max(0, r.capacity), Max(0, SlotIndex(s.width, start + r.duration - 1) + 1 - v)
  {
    if v <= SlotIndex(s.width, start + r.duration - 1) {
      var available := Available(s, v, r.capacity);
      assert InWindow(s, v) && available >= 1;
      if available < r.capacity {
        CutExactly(s, Molded(r, available), start, v + 1, boundary);
        assert Free(s, v) < r.capacity;
      } else {
        CutExactly(s, r, start, v + 1, boundary);
        assert Free(s, v) >= r.capacity;
      }
    }
  }

  lemma MulStep(width: int, a: int, b: int)
    requires width >= 1 && a < b
    ensures (a + 1) * width <= b * width
  {
    MulMono(width, a + 1, b);
  }

  /** Candidates of later slots start later, so the earliest start picks the first slot. */
  lemma LaterSlotsStartLater(s: Schedule, r: Reservation, u: int, v: int)
    requires WellFormed(s) && IntervalStart(r) >= 0
    requires EarliestSlot(s, r) <= u < v <= LatestSlot(s, r)
    ensures CandidateStart(s, r, u) < CandidateStart(s, r, v) == v * s.width
  {
    SlotOf(s.width, IntervalStart(r));
    MulStep(s.width, u, v);
    MulStep(s.width, SlotIndex(s.width, IntervalStart(r)), v);
  }

  /** When the request leaves room for the duration between the start of interval and window and the interval's end. */
  predicate LeavesRoom(s: Schedule, r: Reservation) {
    IntervalEnd(r) - r.duration >= Max(IntervalStart(r), s.start * s.width)
  }

  /** The last slot a reservation needs in its full shape if it starts with slot v. */
  ghost function LastNeeded(s: Schedule, r: Reservation, v: int): int
    requires s.width >= 1
  {
    SlotIndex(s.width, CandidateStart(s, r, v) + r.duration - 1)
  }

  /**
   No candidate starts before the booking interval or the window. A candidate ends within the booking interval
   exactly if the slots it asks for are too full for its shape, or the request leaves room for its duration.
   */
  lemma InsideBookingIntervalExactly(s: Schedule, r: Reservation, v: int)
    requires WellFormed(s) && r.capacity >= 1 && !TurnedDown(s, r)
    requires EarliestSlot(s, r) <= v <= LatestSlot(s, r) && TryFit(s, r, v, IntervalEnd(r)).Some?
    ensures var c := TryFit(s, r, v, IntervalEnd(r)).value;
            && c.assignedStart >= r.bookingStart && c.assignedStart >= s.start * s.width
            && (c.assignedEnd <= IntervalEnd(r) <==> !FitsSpan(s, v, LastNeeded(s, r, v), r.capacity) || LeavesRoom(s, r))
  {
    var start := CandidateStart(s, r, v);
    CutExactly(s, r, start, v, IntervalEnd(r));
    StartsAfterBoth(s, r, v);
    if LeavesRoom(s, r) {
      EndsInTime(s, r, v);
    }
    hide FitFrom, FitsSpan, CandidateStart, EarliestSlot, LatestSlot, WellFormed, SlotIndex;
  }

  /** A fixed request for the time 0 to 5 that takes 10 is not turned down: it is placed at 0 to 10. */
  lemma OverrunsItsInterval(s: Schedule, r: Reservation)
    requires s.width == 10 && s.start == 0 && s.cells == [Cell(0, 1, {}), Cell(0, 1, {})] && WellFormed(s)
    requires r == Reservation(Open, 0, 5, 0, 0, 10, 1, false, 10)
    ensures FirstFit(s, r) == Some(0) && TryFit(s, r, 0, IntervalEnd(r)) == Some(Placed(r, 0))
    ensures TryFit(s, r, 0, IntervalEnd(r)).value.assignedEnd == 10 > IntervalEnd(r)
  {
    assert FitsSpan(s, 0, 0, 1);
    FixedFit(s, r, 0, 0, 5);
    assert FirstFitFrom(s, r, 0) == Some(0);
  }

  lemma StartsAfterBoth(s: Schedule, r: Reservation, v: int)
    requires WellFormed(s) && v >= s.start
    ensures CandidateStart(s, r, v) >= r.bookingStart && CandidateStart(s, r, v) >= s.start * s.width >= 0
  {
    MulNonNegative(s.start, s.width);
    MulMono(s.width, s.start, v);
  }

  lemma EndsInTime(s: Schedule, r: Reservation, v: int)
    requires WellFormed(s) && v >= s.start && v <= LatestSlot(s, r) && LeavesRoom(s, r) && IntervalStart(r) >= 0
    ensures CandidateStart(s, r, v) + r.duration <= IntervalEnd(r)
  {
    var latest := IntervalEnd(r) - r.duration;
    MulNonNegative(s.start, s.width);
    SlotOf(s.width, latest);
    SlotIndexMonotone(s.width, s.start * s.width, latest);
    SlotOfStart(s.width, s.start);
    assert v <= SlotIndex(s.width, latest);
    MulMono(s.width, v, SlotIndex(s.width, latest));
  }

  lemma MulNonNegative(a: int, b: int)
    requires a >= 0 && b >= 0
    ensures a * b >= 0
  {
  }

  // ---------------------------------------------------------------------------------------- which slots are tried

  /** The end of the booking interval; unset, it is no bound. */
  predicate EndsBy(r: Reservation, time: int) {
    time <= if r.bookingEnd == I64_MIN then I64_MAX else r.bookingEnd
  }

  /** The booking interval is neither reversed nor before zero; an unset bound leaves it open. */
  predicate IsInterval(r: Reservation) {
    && (r.bookingStart == I64_MIN || (0 <= r.bookingStart && EndsBy(r, r.bookingStart)))
    && EndsBy(r, 0)
  }

  /**
   A reservation may start with slot v of the window: the slot ends after the start of the booking interval, and the
   duration counted from the start of the slot ends in the interval. The first slot of the window is tried even if not.
   */
  predicate Allowed(s: Schedule, r: Reservation, v: int) {
    && InWindow(s, v)
    && (r.bookingStart == I64_MIN || r.bookingStart < (v + 1) * s.width)
    && (v == s.start || EndsBy(r, v * s.width + r.duration))
  }

  lemma SlotNotBefore(width: int, time: int, v: int)
    requires width >= 1 && v >= 0
    ensures SlotIndex(width, time) <= v <==> time < (v + 1) * width
    ensures time >= 0 ==> (v <= SlotIndex(width, time) <==> v * width <= time)
  {
    SlotOf(width, time);
    var i := SlotIndex(width, time);
    MulNonNegative(v + 1, width);
    if i <= v {
      MulMono(width, i + 1, v + 1);
    } else {
      MulMono(width, v + 1, i);
    }
    if v <= i {
      MulMono(width, v, i);
    } else {
      MulMono(width, i + 1, v);
    }
  }

  /** The search tries exactly the slots with which the reservation may start, unless the window ends before the interval. */
  lemma SearchedExactly(s: Schedule, r: Reservation, v: int)
    requires WellFormed(s) && IsInterval(r)
    requires r.bookingStart == I64_MIN || r.bookingStart < (s.start + |s.cells|) * s.width
    ensures EarliestSlot(s, r) <= v <= LatestSlot(s, r) <==> Allowed(s, r, v)
  {
    SlotNotBefore(s.width, IntervalStart(r), s.start + |s.cells| - 1);
    if InWindow(s, v) {
      SlotNotBefore(s.width, IntervalStart(r), v);
      MulNonNegative(v, s.width);
      if IntervalEnd(r) - r.duration >= 0 {
        SlotNotBefore(s.width, IntervalEnd(r) - r.duration, v);
      } else {
        SlotOf(s.width, IntervalEnd(r) - r.duration);
      }
    }
  }

  /**
   Where the interval leaves room, the slots tried are those from which the duration ends in it. Where it does not, only
   the slot with the start of interval or window is, if it is the first of the window or the duration fits behind it.
   */
  lemma AllowedExactly(s: Schedule, r: Reservation, v: int)
    requires WellFormed(s) && IsInterval(r) && InWindow(s, v)
    ensures var start, end := IntervalStart(r), IntervalEnd(r);
            if LeavesRoom(s, r) then Allowed(s, r, v) <==> start < (v + 1) * s.width && v * s.width + r.duration <= end
            else Allowed(s, r, v) <==>
                 v * s.width <= Max(start, s.start * s.width) < (v + 1) * s.width && (v == s.start || v * s.width + r.duration <= end)
  {
    MulNonNegative(s.start, s.width);
    MulMono(s.width, s.start, v);
    if v > s.start {
      MulMono(s.width, s.start + 1, v);
    }
    assert (v + 1) * s.width == v * s.width + s.width;
  }

  /** The time from start to end, end excluded, meets the slot u. */
  predicate Meets(width: int, u: int, start: int, end: int) {
    u * width < end && start < (u + 1) * width
  }

  /** The slots that a time meets are those from the slot of its start to that of its last unit. */
  lemma MetExactly(width: int, u: int, start: int, end: int)
    requires width >= 1 && 0 <= start < end
    ensures Meets(width, u, start, end) <==> SlotIndex(width, start) <= u <= SlotIndex(width, end - 1)
  {
    if u >= 0 {
      SlotNotBefore(width, start, u);
      SlotNotBefore(width, end - 1, u);
    } else {
      MulMono(width, u + 1, 0);
    }
  }

  /** All slots that the time meets lie in the window and have the capacity free. */
  ghost predicate FreeDuring(s: Schedule, start: int, end: int, capacity: int) {
    forall u :: Meets(s.width, u, start, end) ==> InWindow(s, u) && Free(s, u) >= capacity
  }

  lemma FreeDuringExactly(s: Schedule, start: int, end: int, capacity: int)
    requires WellFormed(s) && 0 <= start < end
    ensures FreeDuring(s, start, end, capacity) <==> FitsSpan(s, SlotIndex(s.width, start), SlotIndex(s.width, end - 1), capacity)
  {
    forall u ensures Meets(s.width, u, start, end) <==> SlotIndex(s.width, start) <= u <= SlotIndex(s.width, end - 1) {
      MetExactly(s.width, u, start, end);
    }
  }

  /** With slot v as its first, the reservation is allowed to start and has the capacity free for all of its time. */
  ghost predicate FixedFits(s: Schedule, r: Reservation, v: int)
    requires WellFormed(s)
  {
    Allowed(s, r, v) && FreeDuring(s, CandidateStart(s, r, v), CandidateStart(s, r, v) + r.duration, r.capacity)
  }

  /** A candidate starts at the start of its slot or of the booking interval, whichever is later. */
  lemma StartsAtTheLater(s: Schedule, r: Reservation, v: int)
    ensures var start := CandidateStart(s, r, v);
            && start >= v * s.width && start >= r.bookingStart && (start == v * s.width || start == r.bookingStart)
  {
  }

  /** The first slot of the candidate's time is the slot it was tried for. */
  lemma StartsInItsSlot(s: Schedule, r: Reservation, v: int, last: int, capacity: int)
    requires WellFormed(s) && IntervalStart(r) >= 0 && EarliestSlot(s, r) <= v && InWindow(s, v)
    requires last >= SlotIndex(s.width, CandidateStart(s, r, v)) && FitsSpan(s, v, last, capacity)
    ensures SlotIndex(s.width, CandidateStart(s, r, v)) == v <= last
  {
    var start := CandidateStart(s, r, v);
    MulNonNegative(v, s.width);
    SlotOf(s.width, start);
    var index := SlotIndex(s.width, start);
    if index < v {
      MulStep(s.width, index, v);
    } else if index > v {
      var nextInWindow := InWindow(s, v + 1);
      MulStep(s.width, v, index);
      SlotOf(s.width, IntervalStart(r));
    }
  }

  /** The early refusal of a request beyond the capacity of the slots turns down nothing that would fit. */
  lemma NoSlotIsThatLarge(s: Schedule, r: Reservation, v: int)
    requires WellFormed(s) && AllAccounted(s) && r.duration >= 1 && s.cells[0].capacity < r.capacity
    requires InWindow(s, v)
    ensures !FitsSpan(s, v, LastNeeded(s, r, v), r.capacity)
  {
    var c := s.cells[v - s.start];
    assert Accounted(s.store, c) && c.ids <= s.store.Keys;
    ReservedByNonNegative(s.store, c.ids);
    assert Free(s, v) <= s.cells[0].capacity;
    SlotIndexMonotone(s.width, v * s.width, CandidateStart(s, r, v) + r.duration - 1);
    SlotOfStart(s.width, v);
    assert v <= v <= LastNeeded(s, r, v);
  }

  lemma SlotOfStart(width: int, v: int)
    requires width >= 1 && v >= 0
    ensures SlotIndex(width, v * width) == v
  {
    MulNonNegative(v, width);
    SlotOf(width, v * width);
    var i := SlotIndex(width, v * width);
    if i < v {
      MulMono(width, i + 1, v);
    } else if i > v {
      MulMono(width, v + 1, i);
    }
  }

  lemma StartsInSlot(s: Schedule, r: Reservation, v: int)
    requires WellFormed(s) && Allowed(s, r, v)
    ensures SlotIndex(s.width, CandidateStart(s, r, v)) == v && CandidateStart(s, r, v) >= 0
  {
    var start := CandidateStart(s, r, v);
    MulNonNegative(v, s.width);
    assert v * s.width <= start < (v + 1) * s.width;
    SlotNotBefore(s.width, start, v);
  }

  /** Trying a slot for a reservation of fixed shape. */
  lemma FixedTry(s: Schedule, r: Reservation, v: int)
    requires WellFormed(s) && IsInterval(r) && !r.moldable && r.capacity >= 1 && r.duration >= 1
    ensures EarliestSlot(s, r) <= v <= LatestSlot(s, r) && TryFit(s, r, v, IntervalEnd(r)).Some? <==> FixedFits(s, r, v)
    ensures FixedFits(s, r, v) ==> TryFit(s, r, v, IntervalEnd(r)) == Some(Placed(r, CandidateStart(s, r, v)))
    ensures FixedFits(s, r, v) ==> FitsSpan(s, v, LastNeeded(s, r, v), r.capacity)
  {
    var start := CandidateStart(s, r, v);
    FixedFit(s, r, start, v, IntervalEnd(r));
    hide FitFrom, FitsSpan, FreeDuring, CandidateStart;
    if r.bookingStart == I64_MIN || r.bookingStart < (s.start + |s.cells|) * s.width {
      SearchedExactly(s, r, v);
      if Allowed(s, r, v) {
        StartsInSlot(s, r, v);
        FreeDuringExactly(s, start, start + r.duration, r.capacity);
      }
    } else {
      BeyondTheWindow(s, r, v);
    }
  }

  /** Where the window ends before the booking interval, no slot is allowed, and none has the time free. */
  lemma BeyondTheWindow(s: Schedule, r: Reservation, v: int)
    requires WellFormed(s) && r.bookingStart >= (s.start + |s.cells|) * s.width && r.duration >= 1
    ensures !Allowed(s, r, v)
    ensures EarliestSlot(s, r) <= v <= LatestSlot(s, r) ==> !FitsSpan(s, v, LastNeeded(s, r, v), r.capacity)
  {
    var next := s.start + |s.cells|;
    if InWindow(s, v) {
      MulMono(s.width, v + 1, next);
      MulMono(s.width, v, next);
      var last := LastNeeded(s, r, v);
      SlotNotBefore(s.width, CandidateStart(s, r, v) + r.duration - 1, next - 1);
      assert v <= last && !InWindow(s, last);
    }
  }

  /**
   Exact first fit: a reservation of fixed shape is reserved if and only if its interval is one and it fits with some
   slot as its first, and then the least such slot is.
   */
  lemma FixedFirstFit(s: Schedule, r: Reservation)
    requires WellFormed(s) && AllAccounted(s) && !r.moldable && r.capacity >= 1 && r.duration >= 1
    ensures FirstFit(s, r).Some? <==> IsInterval(r) && exists v :: FixedFits(s, r, v)
    ensures FirstFit(s, r).Some? ==>
              var v := FirstFit(s, r).value;
              && FixedFits(s, r, v) && (forall u :: u < v ==> !FixedFits(s, r, u))
              && TryFit(s, r, v, IntervalEnd(r)) == Some(Placed(r, CandidateStart(s, r, v)))
  {
    hide FixedFits, TryFit, EarliestSlot, LatestSlot, FirstFit;
    FirstFitIsLeast(s, r);
    if IsInterval(r) {
      forall v ensures EarliestSlot(s, r) <= v <= LatestSlot(s, r) && TryFit(s, r, v, IntervalEnd(r)).Some? <==> FixedFits(s, r, v) {
        FixedTry(s, r, v);
      }
      if FirstFit(s, r).Some? {
        FixedTry(s, r, FirstFit(s, r).value);
      }
      if TurnedDown(s, r) {
        forall v ensures !FixedFits(s, r, v) {
          FixedTry(s, r, v);
          if FixedFits(s, r, v) {
            InAllowedWindow(s, r, v);
            NoSlotIsThatLarge(s, r, v);
          }
        }
      }
    }
  }

  lemma InAllowedWindow(s: Schedule, r: Reservation, v: int)
    requires WellFormed(s) && FixedFits(s, r, v)
    ensures InWindow(s, v)
  {
  }

  // ------------------------------------------------------------------------------------------ moldable requests

  /** All chains of cuts end within the time that a single cut to the least capacity takes. */
  lemma NoLongerThanOneCut(r: Reservation, capacity: int, work: int)
    requires Proper(r) && 1 <= capacity <= r.capacity && r.work <= work
    ensures r.duration <= work / capacity
  {
    MulMono(r.duration, capacity, r.capacity);
    Quotient(work, capacity);
    if r.duration > work / capacity {
      MulMono(capacity, work / capacity + 1, r.duration);
    }
  }

  /**
   The walk finds a candidate wherever a single cut would do: if all slots of the time that the work takes at some
   capacity have it free, and that time ends within booking interval and window, a candidate at least as wide is found.
   */
  lemma {:induction false} CutFound(s: Schedule, r: Reservation, start: int, v: int, boundary: int, capacity: int, work: int)
    requires WellFormed(s) && r.moldable && Proper(r) && 1 <= capacity <= r.capacity && r.work <= work
    requires FitsSpan(s, v, SlotIndex(s.width, start + work / capacity - 1), capacity) && start >= s.start * s.width
    requires capacity == r.capacity || (start + work / capacity <= boundary && IsTimeInWindow(s, start + work / capacity))
    ensures FitFrom(s, r, start, v, boundary).Some? && FitFrom(s, r, start, v, boundary).value.capacity >= capacity
    decreases Max(0, r.capacity), Max(0, SlotIndex(s.width, start + r.duration - 1) + 1 - v)
  {
    NoLongerThanOneCut(r, capacity, work);
    SlotIndexMonotone(s.width, start + r.duration - 1, start + work / capacity - 1);
    if v <= SlotIndex(s.width, start + r.duration - 1) {
      assert InWindow(s, v) && Free(s, v) >= capacity;
      var available := Available(s, v, r.capacity);
      if available < r.capacity {
        MoldingLoss(r, available);
        NoLongerThanOneCut(Molded(r, available), capacity, work);
        CutFound(s, Molded(r, available), start, v + 1, boundary, capacity, work);
      } else {
        CutFound(s, r, start, v + 1, boundary, capacity, work);
      }
    }
  }

  /** A moldable request finds a place with slot v or an earlier one if some capacity is free for as long as its work then takes. */
  ghost predicate MoldableFits(s: Schedule, r: Reservation, v: int, capacity: int)
    requires WellFormed(s) && capacity >= 1
  {
    var start := CandidateStart(s, r, v);
    var end := start + r.work / capacity;
    && Allowed(s, r, v) && FreeDuring(s, start, end, capacity)
    && (capacity == r.capacity || (EndsBy(r, end) && end < (s.start + |s.cells|) * s.width))
  }

  /** No moldable request is refused that one cut would fit in, not even one beyond the capacity of the slots. */
  lemma MoldableFindsPlace(s: Schedule, r: Reservation, v: int, capacity: int)
    requires WellFormed(s) && IsInterval(r) && r.moldable && Proper(r) && 1 <= capacity <= r.capacity
    requires MoldableFits(s, r, v, capacity)
    ensures FirstFit(s, r).Some? && FirstFit(s, r).value <= v
  {
    MoldableTry(s, r, v, capacity);
    InAllowedRange(s, r, v);
    hide TryFit, MoldableFits, EarliestSlot, LatestSlot, Allowed, FirstFit;
    FirstFitIsLeast(s, r);
  }

  lemma InAllowedRange(s: Schedule, r: Reservation, v: int)
    requires WellFormed(s) && IsInterval(r) && Allowed(s, r, v)
    ensures EarliestSlot(s, r) <= v <= LatestSlot(s, r)
  {
    MulMono(s.width, v + 1, s.start + |s.cells|);
    SearchedExactly(s, r, v);
  }

  lemma MoldableTry(s: Schedule, r: Reservation, v: int, capacity: int)
    requires WellFormed(s) && r.moldable && Proper(r) && 1 <= capacity <= r.capacity && MoldableFits(s, r, v, capacity)
    ensures Allowed(s, r, v) && TryFit(s, r, v, IntervalEnd(r)).Some?
  {
    var start := CandidateStart(s, r, v);
    StartsInSlot(s, r, v);
    StartsAfterBoth(s, r, v);
    NoLongerThanOneCut(r, capacity, r.work);
    hide FitFrom, CandidateStart, FreeDuring, FitsSpan, Allowed, Molded;
    MoldableWalk(s, r, start, v, capacity, r.work / capacity);
  }

  lemma MoldableWalk(s: Schedule, r: Reservation, start: int, v: int, capacity: int, time: int)
    requires WellFormed(s) && r.moldable && Proper(r) && 1 <= capacity <= r.capacity && time == r.work / capacity >= 1
    requires start >= s.start * s.width && start >= 0 && SlotIndex(s.width, start) == v && FreeDuring(s, start, start + time, capacity)
    requires capacity == r.capacity || (start + time <= IntervalEnd(r) && start + time < (s.start + |s.cells|) * s.width)
    ensures FitFrom(s, r, start, v, IntervalEnd(r)).Some?
  {
    FreeDuringExactly(s, start, start + time, capacity);
    hide FitFrom, FreeDuring, FitsSpan, Molded, SlotIndex, NonNegative, Sound;
    assert (s.start + |s.cells| - 1) * s.width + s.width == (s.start + |s.cells|) * s.width;
    CutFound(s, r, start, v, IntervalEnd(r), capacity, r.work);
  }

  /** A candidate starts when it was told to, moldable or not. */
  lemma {:induction false} FitKeepsStart(s: Schedule, r: Reservation, start: int, v: int, boundary: int)
    requires WellFormed(s) && FitFrom(s, r, start, v, boundary).Some?
    ensures FitFrom(s, r, start, v, boundary).value.assignedStart == start
    ensures FitFrom(s, r, start, v, boundary).value.bookingStart == start
    decreases Max(0, r.capacity), Max(0, SlotIndex(s.width, start + r.duration - 1) + 1 - v)
  {
    if v <= SlotIndex(s.width, start + r.duration - 1) {
      var available := Available(s, v, r.capacity);
      FitKeepsStart(s, if available < r.capacity then Molded(r, available) else r, start, v + 1, boundary);
    }
  }

  /**
   What the workflow scheduler relies on: a reservation is assigned a time within its booking interval if that leaves
   room behind the start of the window, never one before it, and no other record changes.
   */
  lemma ReserveHonoursBooking(s: Schedule, id: ReservationId, horizon: int)
    requires WellFormed(s) && id in s.store && horizon >= s.start * s.width
    ensures var before, after := s.store[id], ReservedNow(s, id).store[id];
            && Honoured(before, after, FirstFit(s, before).Some?, horizon)
            && after.state == (if FirstFit(s, before).Some? then ReserveAnswer else Rejected)
            && ReservedNow(s, id).store == s.store[id := after]
  {
    var r := s.store[id];
    FirstFitIsLeast(s, r);
    if FirstFit(s, r).Some? {
      var v := FirstFit(s, r).value;
      FitKeepsStart(s, r, CandidateStart(s, r, v), v, IntervalEnd(r));
      if HasRoom(r, horizon) {
        PlacedWithRoomEndsInTime(s, r, v, horizon);
      }
    }
  }

  /** Wherever there is room for the duration, the candidate ends within the booking interval, cut or not. */
  lemma PlacedWithRoomEndsInTime(s: Schedule, r: Reservation, v: int, horizon: int)
    requires WellFormed(s) && r.capacity >= 0 && HasRoom(r, horizon) && horizon >= s.start * s.width
    requires s.start <= v <= LatestSlot(s, r) && TryFit(s, r, v, IntervalEnd(r)).Some?
    ensures TryFit(s, r, v, IntervalEnd(r)).value.assignedEnd <= r.bookingEnd
  {
    var start := CandidateStart(s, r, v);
    MulNonNegative(s.start, s.width);
    EndsInTime(s, r, v);
    if r.capacity == 0 {
      NothingNeedsNoRoom(s, r, start, v, IntervalEnd(r));
    } else {
      CutExactly(s, r, start, v, IntervalEnd(r));
    }
  }

  // ------------------------------------------------------------------------------------------- all candidates

  /** The candidates whose first slot is at most v, in the order of their first slots. */
  ghost function CandidatesUpTo(s: Schedule, r: Reservation, v: int): seq<Reservation>
    requires WellFormed(s)
    decreases v - EarliestSlot(s, r)
  {
    if v < EarliestSlot(s, r) then []
    else
      match TryFit(s, r, v, IntervalEnd(r))
      case None => CandidatesUpTo(s, r, v - 1)
      case Some(c) => CandidatesUpTo(s, r, v - 1) + [c]
  }

  ghost function Candidates(s: Schedule, r: Reservation): seq<Reservation>
    requires WellFormed(s)
  {
    if TurnedDown(s, r) then [] else CandidatesUpTo(s, r, LatestSlot(s, r))
  }

  /** The candidates are exactly those of the slots that are tried. */
  lemma {:induction false} CandidatesExactly(s: Schedule, r: Reservation, v: int, c: Reservation)
    requires WellFormed(s)
    ensures c in CandidatesUpTo(s, r, v) <==>
            exists u :: EarliestSlot(s, r) <= u <= v && TryFit(s, r, u, IntervalEnd(r)) == Some(c)
    decreases v - EarliestSlot(s, r)
  {
    hide FitFrom;
    if v >= EarliestSlot(s, r) {
      CandidatesExactly(s, r, v - 1, c);
    }
  }

  /** A request that is not turned down has one candidate for every slot it may start with and fits from. */
  lemma CandidatesOfAllowedSlots(s: Schedule, r: Reservation, c: Reservation)
    requires WellFormed(s) && !TurnedDown(s, r)
    requires r.bookingStart == I64_MIN || r.bookingStart < (s.start + |s.cells|) * s.width
    ensures c in Candidates(s, r) <==> exists u :: Allowed(s, r, u) && TryFit(s, r, u, IntervalEnd(r)) == Some(c)
    ensures Staggered(Candidates(s, r), CandidateStart(s, r, LatestSlot(s, r)))
  {
    CandidatesAreStaggered(s, r, LatestSlot(s, r));
    CandidatesExactly(s, r, LatestSlot(s, r), c);
    hide TryFit, Staggered, CandidatesUpTo;
    forall u ensures EarliestSlot(s, r) <= u <= LatestSlot(s, r) <==> Allowed(s, r, u) {
      SearchedExactly(s, r, u);
    }
  }

  lemma NoCandidateBefore(s: Schedule, r: Reservation, v: int)
    requires WellFormed(s) && v < EarliestSlot(s, r)
    ensures CandidatesUpTo(s, r, v) == []
  {
  }

  lemma NextCandidate(s: Schedule, r: Reservation, v: int)
    requires WellFormed(s) && v >= EarliestSlot(s, r)
    ensures CandidatesUpTo(s, r, v) ==
            match TryFit(s, r, v, IntervalEnd(r))
            case None => CandidatesUpTo(s, r, v - 1)
            case Some(c) => CandidatesUpTo(s, r, v - 1) + [c]
  {
  }

  /** The candidates start one after the other, and none after the bound. */
  ghost predicate Staggered(cs: seq<Reservation>, bound: int) {
    && (forall i, j :: 0 <= i < j < |cs| ==> cs[i].assignedStart < cs[j].assignedStart)
    && (forall i :: 0 <= i < |cs| ==> cs[i].assignedStart <= bound)
  }

  lemma {:induction false} CandidatesAreStaggered(s: Schedule, r: Reservation, v: int)
    requires WellFormed(s) && IntervalStart(r) >= 0 && v <= LatestSlot(s, r)
    ensures Staggered(CandidatesUpTo(s, r, v), CandidateStart(s, r, v))
    decreases v - EarliestSlot(s, r)
  {
    hide FitFrom, Staggered;
    if v >= EarliestSlot(s, r) {
      CandidatesAreStaggered(s, r, v - 1);
      if v > EarliestSlot(s, r) {
        LaterSlotsStartLater(s, r, v - 1, v);
      } else {
        NoCandidateBefore(s, r, v - 1);
      }
      if TryFit(s, r, v, IntervalEnd(r)).Some? {
        FitKeepsStart(s, r, CandidateStart(s, r, v), v, IntervalEnd(r));
        OneMore(CandidatesUpTo(s, r, v - 1), TryFit(s, r, v, IntervalEnd(r)).value, CandidateStart(s, r, v - 1));
      } else {
        StaysStaggered(CandidatesUpTo(s, r, v - 1), CandidateStart(s, r, v - 1), CandidateStart(s, r, v));
      }
    } else {
      NoCandidateBefore(s, r, v);
      StaysStaggered([], 0, CandidateStart(s, r, v));
    }
  }

  lemma OneMore(cs: seq<Reservation>, c: Reservation, bound: int)
    requires Staggered(cs, bound) && (cs == [] || bound < c.assignedStart)
    ensures Staggered(cs + [c], c.assignedStart)
  {
  }

  lemma StaysStaggered(cs: seq<Reservation>, bound: int, bound': int)
    requires cs == [] || (Staggered(cs, bound) && bound <= bound')
    ensures Staggered(cs, bound')
  {
  }

  /** The first of the candidates is that of the first slot where one fits. */
  lemma {:induction false} FirstCandidate(s: Schedule, r: Reservation, v: int)
    requires WellFormed(s) && EarliestSlot(s, r) - 1 <= v <= LatestSlot(s, r) && !TurnedDown(s, r)
    ensures var cs := CandidatesUpTo(s, r, v);
            match FirstFit(s, r)
            case None => cs == []
            case Some(w) =>
              (cs == [] <==> v < w)
              && (cs != [] ==> FirstFitIsThere(s, r) && Some(cs[0]) == TryFit(s, r, w, IntervalEnd(r)))
    decreases v - EarliestSlot(s, r)
  {
    FirstFitIsLeast(s, r);
    if v >= EarliestSlot(s, r) {
      FirstCandidate(s, r, v - 1);
    }
  }

  ghost predicate FirstFitIsThere(s: Schedule, r: Reservation)
    requires WellFormed(s)
  {
    FirstFit(s, r).Some? && IsFirstFit(s, r, FirstFit(s, r).value)
  }

  ghost predicate IsEarliest(cs: seq<Reservation>, k: int) {
    0 <= k < |cs| && forall j :: 0 <= j < |cs| ==> cs[k].assignedStart <= cs[j].assignedStart
  }

  /** Whichever candidate has the earliest start, it is the one of the first slot where one fits. */
  lemma EarliestCandidateIsFirstFit(s: Schedule, r: Reservation, k: int)
    requires WellFormed(s)
    ensures Candidates(s, r) == [] <==> FirstFit(s, r).None?
    ensures IsEarliest(Candidates(s, r), k) ==>
              Some(Candidates(s, r)[k]) == TryFit(s, r, FirstFit(s, r).value, IntervalEnd(r))
  {
    if !TurnedDown(s, r) {
      FirstFitIsLeast(s, r);
      var latest := LatestSlot(s, r);
      if latest < EarliestSlot(s, r) {
        NoCandidateBefore(s, r, latest);
      } else {
        FirstCandidate(s, r, latest);
        CandidatesAreStaggered(s, r, latest);
        assert k > 0 && k < |Candidates(s, r)| ==> Candidates(s, r)[0].assignedStart < Candidates(s, r)[k].assignedStart;
      }
    }
  }
}
