/** The candidates found for a request, and the promotion of the best of them. */
module Probes {
  import opened Common
  import opened Reservations
  import opened Timeline

  /** Earliest finish time, or earliest start time. */
  datatype Comparator = EarliestFinish | EarliestStart

  function Key(comparator: Comparator, r: Reservation): int {
    match comparator
    case EarliestFinish => r.assignedEnd
    case EarliestStart => r.assignedStart
  }

  /** The candidate finishes, or starts, no later than the other one. */
  predicate NoLater(comparator: Comparator, a: Reservation, b: Reservation) {
    if comparator == EarliestFinish then a.assignedEnd <= b.assignedEnd else a.assignedStart <= b.assignedStart
  }

  class ProbeReservations {
    const originalId: ReservationId
    /** The candidates by the number in their name. */
    var local: map<nat, Reservation>
    var index: nat

    ghost predicate Valid()
      reads this
    {
      forall k :: k in local ==> k < index
    }

    constructor (originalId: ReservationId)
      ensures Valid() && this.originalId == originalId && local == map[] && index == 0
    {
      this.originalId := originalId;
      local, index := map[], 0;
    }

    method AddReservation(r: Reservation) returns (added: bool)
      requires Valid()
      modifies this
      ensures Valid() && added
      ensures local == old(local)[old(index) := r] && old(index) !in old(local) && index == old(index) + 1
    {
      added := index !in local;
      local := local[index := r];
      if added {
        index := index + 1;
      }
    }

    /** A candidate with the least key; which one, among equals, depends on the order of iteration. */
    method GetBest(id: ReservationId, comparator: Comparator) returns (best: Option<nat>)
      ensures best.None? <==> id != originalId || local == map[]
      ensures best.Some? ==> best.value in local
      ensures best.Some? ==> forall k :: k in local ==> NoLater(comparator, local[best.value], local[k])
    {
      best := None;
      if id != originalId || local == map[] {
        return;
      }
      var todo := local.Keys;
      while todo != {}
        invariant todo <= local.Keys
        invariant best.None? ==> todo == local.Keys
        invariant best.Some? ==> best.value in local
        invariant best.Some? ==>
          forall k :: k in local.Keys - todo ==> Key(comparator, local[best.value]) <= Key(comparator, local[k])
      {
        var k :| k in todo;
        todo := todo - {k};
        if best.None? || Key(comparator, local[best.value]) > Key(comparator, local[k]) {
          best := Some(k);
        }
      }
    }

    /** Takes the best candidate out and hands its times and state to the original reservation. */
    method OnlyPromoteBest(id: ReservationId, comparator: Comparator, store: Store) returns (promoted: bool, store': Store)
      requires Valid() && id in store
      modifies this`local
      ensures Valid()
      ensures promoted <==> id == originalId && old(local) != map[]
      ensures !promoted ==> store' == store && local == old(local)
      ensures promoted ==>
        exists k :: && k in old(local) && local == old(local) - {k}
                    && (forall j :: j in old(local) ==> NoLater(comparator, old(local)[k], old(local)[j]))
                    && store' == Promoted(store, id, old(local)[k])
    {
      var best := GetBest(id, comparator);
      promoted, store' := best.Some?, store;
      if promoted {
        var r := local[best.value];
        local := local - {best.value};
        store' := store[id := store[id].(bookingStart := r.bookingStart, bookingEnd := r.bookingEnd,
                                         assignedStart := r.assignedStart, assignedEnd := r.assignedEnd, state := r.state)];
      }
    }
  }
}
