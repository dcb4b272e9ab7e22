/** One slot of a schedule: how much of its capacity is reserved, and by whom. */
module Slots {
  import opened Common
  import opened Reservations

  /** The value of a slot. */
  datatype Cell = Cell(load: int, capacity: int, ids: set<ReservationId>)

  /** The requirement, or what is left of the capacity if that is less. */
  function Adjusted(c: Cell, requirement: int): int {
    Min(requirement, c.capacity - c.load)
  }

  function Emptied(c: Cell): Cell {
    c.(load := 0, ids := {})
  }

  /** A reservation is entered once, and only where it fits. */
  function Inserted(c: Cell, requirement: int, id: ReservationId): Cell {
    if c.load + requirement > c.capacity || id in c.ids then c
    else c.(load := c.load + requirement, ids := c.ids + {id})
  }

  function Freed(c: Cell, id: ReservationId, reserved: int): Cell {
    if id in c.ids then c.(load := c.load - reserved, ids := c.ids - {id}) else c
  }

  class Slot {
    var load: int
    var capacity: int
    var ids: set<ReservationId>

    function Value(): Cell
      reads this
    {
      Cell(load, capacity, ids)
    }

    constructor (capacity: int)
      ensures Value() == Cell(0, capacity, {})
    {
      this.load, this.capacity, this.ids := 0, capacity, {};
    }

    function GetAdjustRequirement(requirement: int): (available: int)
      reads this
      ensures available == Adjusted(Value(), requirement)
    {
      var left := capacity - load;
      if left >= requirement then requirement else left
    }

    method Reset()
      modifies this`load, this`ids
      ensures Value() == Emptied(old(Value()))
    {
      load := 0;
      ids := {};
    }

    method InsertReservation(requirement: int, id: ReservationId) returns (inserted: bool)
      modifies this`load, this`ids
      ensures Value() == Inserted(old(Value()), requirement, id)
      ensures inserted <==> id !in old(ids) && id in ids
    {
      if load + requirement > capacity {
        return false;
      }
      if id !in ids {
        ids := ids + {id};
        load := load + requirement;
        inserted := true;
      } else {
        inserted := false;
      }
    }

    method DeleteReservation(id: ReservationId, reserved: int) returns (deleted: bool)
      modifies this`load, this`ids
      ensures Value() == Freed(old(Value()), id, reserved)
      ensures deleted <==> id in old(ids)
    {
      if id in ids {
        ids := ids - {id};
        load := load - reserved;
        deleted := true;
      } else {
        deleted := false;
      }
    }
  }

  /** The capacity a reservation reserves; nothing if the store does not know it. */
  function Reserved(store: Store, id: ReservationId): int {
    if id in store then store[id].capacity else 0
  }

  ghost function ReservedBy(store: Store, ids: set<ReservationId>): int {
    if ids == {} then 0
    else
      var id :| id in ids;
      Reserved(store, id) + ReservedBy(store, ids - {id})
  }

  /** The sum does not depend on the order in which it is taken. */
  lemma {:induction false} ReservedByRemove(store: Store, ids: set<ReservationId>, id: ReservationId)
    requires id in ids
    ensures ReservedBy(store, ids) == Reserved(store, id) + ReservedBy(store, ids - {id})
  {
    var pick :| pick in ids && ReservedBy(store, ids) == Reserved(store, pick) + ReservedBy(store, ids - {pick});
    if pick != id {
      ReservedByRemove(store, ids - {pick}, id);
      ReservedByRemove(store, ids - {id}, pick);
      assert ids - {pick} - {id} == ids - {id} - {pick};
    }
  }

  lemma ReservedByAdd(store: Store, ids: set<ReservationId>, id: ReservationId)
    requires id !in ids
    ensures ReservedBy(store, ids + {id}) == Reserved(store, id) + ReservedBy(store, ids)
  {
    ReservedByRemove(store, ids + {id}, id);
    assert ids + {id} - {id} == ids;
  }

  lemma {:induction false} ReservedByFrame(store: Store, store': Store, ids: set<ReservationId>)
    requires forall id :: id in ids ==> Reserved(store, id) == Reserved(store', id)
    ensures ReservedBy(store, ids) == ReservedBy(store', ids)
  {
    if ids != {} {
      var id :| id in ids;
      ReservedByRemove(store, ids, id);
      ReservedByRemove(store', ids, id);
      ReservedByFrame(store, store', ids - {id});
    }
  }

  lemma {:induction false} ReservedByNonNegative(store: Store, ids: set<ReservationId>)
    requires forall id :: id in ids ==> Reserved(store, id) >= 0
    ensures ReservedBy(store, ids) >= 0
  {
    if ids != {} {
      var id :| id in ids;
      ReservedByRemove(store, ids, id);
      ReservedByNonNegative(store, ids - {id});
    }
  }

  /** The load of the slot is what its reservations reserve, and fits the capacity. */
  ghost predicate Accounted(store: Store, c: Cell) {
    c.load == ReservedBy(store, c.ids) && c.load <= c.capacity
  }

  lemma InsertAccounted(store: Store, c: Cell, id: ReservationId)
    requires Accounted(store, c) && id in store
    ensures Accounted(store, Inserted(c, store[id].capacity, id))
  {
    if id !in c.ids {
      ReservedByAdd(store, c.ids, id);
    }
  }

  lemma DeleteAccounted(store: Store, c: Cell, id: ReservationId)
    requires Accounted(store, c) && id in store && store[id].capacity >= 0
    ensures Accounted(store, Freed(c, id, store[id].capacity))
  {
    if id in c.ids {
      ReservedByRemove(store, c.ids, id);
    }
  }

  /** Deletion keeps every slot within its capacity exactly for reservations that do not reserve less than nothing. */
  lemma DeletionSafeExactly(id: ReservationId, reserved: int)
    ensures (forall store, c :: Accounted(store, c) && id in c.ids && Reserved(store, id) == reserved ==>
               Accounted(store, Freed(c, id, reserved)))
            <==> reserved >= 0
  {
    if reserved >= 0 {
      forall store, c | Accounted(store, c) && id in c.ids && Reserved(store, id) == reserved
        ensures Accounted(store, Freed(c, id, reserved))
      {
        ReservedByRemove(store, c.ids, id);
      }
    } else {
      var other := id + 1;
      var r := Reservation(Open, 0, 0, 0, 0, 1, reserved, false, reserved);
      var store: Store := map[id := r, other := r.(capacity := -reserved)];
      var c := Cell(0, 0, {id, other});
      ReservedByRemove(store, c.ids, id);
      assert c.ids - {id} == {other};
      ReservedByRemove(store, {other}, other);
      assert {other} - {other} == {};
      assert Accounted(store, c) && Freed(c, id, reserved).load > 0;
    }
  }

  /** Deleting what has just been entered restores the slot. */
  lemma InsertDelete(c: Cell, requirement: int, id: ReservationId)
    requires id !in c.ids
    ensures Freed(Inserted(c, requirement, id), id, requirement) == c
  {
    assert c.ids + {id} - {id} == c.ids;
  }
}
