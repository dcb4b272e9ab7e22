# A verified model of the VRM scheduler

The program is a scheduler for virtual resources: grid nodes and network links keep time-slotted schedules, requests
are fitted into them, and workflows of dependent tasks are booked as a whole. This project models its algorithms in
Dafny and proves what they are for. There is one module per file; the classes and methods follow the program's own
objects and loops, and each is tied to a function on values about which the properties are proved.

| file | content |
|---|---|
| Common | options, sentinels of the 64-bit integers, finite sequences and sets |
| Paths, Topology | routes in a network, the search for the K shortest, the path cache |
| LinkStrategies | the bottleneck query and the booking of a path on all its links |
| Connectivity, CoAllocations | sync dependencies, union-find, groups of nodes and the edges between them |
| Dags, Workflows | longest paths, the ranking by an explicit stack, the order of descending rank |
| Heft | the HEFTSync scheduler: who works on which reservations, and what an accepted workflow guarantees |
| Reservations | records, the store, and molding: less capacity for more time |
| Slots, Timeline | a slot, and a schedule as a value on an endless timeline: what every operation makes of it |
| PlaceSearch, Placement | what the search for a place finds, and what every operation keeps |
| Runs | whole runs of operations under a clock that does not run backwards |
| Rings, Probes, LoadBuffers, SlottedSchedules | the schedule as the program keeps it: a ring of slots updated in place, candidates, the buffer for expired loads |
| Fragmentation | blocks of free slots per capacity level and the quadratic-mean index |

How to read the model:

- Router names, link ids and reservation ids are natural numbers. 64-bit integers are unbounded, 64-bit floats are
  reals, and raising to the default power 2.0 is squaring. Divisions are written out as the program performs them:
  cut towards zero for work and transfer times, rounded down for slot indices.
- Hash maps and hash sets are visited in arbitrary order: loops pick any element, so the results hold for every order.
- The clock is the parameter `now`; a schedule requires that it has not fallen behind the start of its window. The
  reservation store is a map from id to record. A schedule as a value is `Schedule`; `Abs()` is that of the ring.
- Grid components are oracles that may answer anything that keeps their contract (`HonoursBooking`): nothing is
  assigned before the start of its booking interval, nor beyond its end where the interval leaves room for the
  duration, and other reservations keep their times. The end needs an interval behind the start of the component's
  window, hence the horizon of the grid. `PlaceSearch.ReserveHonoursBooking` shows that the slotted schedule keeps it.
- Links across components need no oracle: the program splits them into segments without asking the network.
- `Reserve` returns, besides its answer, a ghost record of where and why it stopped; nothing executable depends on it.
- A new record gets an id that is not in use; nothing else is assumed about ids.
- Capacities in the store are not negative (`NonNegative`). The program logs a negative one and goes on;
  `Slots.DeletionSafeExactly` shows that the bookkeeping needs the assumption, and for exactly these reservations.

Where the code does other than its comments and names say, the model follows the code:

- A reservation of moldable shape may be reserved in a cut shape of which only the times reach its record
  (`Placement.ReserveInPlaceExactly`, for instance `Placement.CutRequestIsNotInPlace`).
- A candidate that has not been cut may end after the booking interval (`PlaceSearch.InsideBookingIntervalExactly`,
  for instance `PlaceSearch.OverrunsItsInterval`).
- A booking made and deleted at once stays in the slots if it ends no later than now
  (`Placement.ReserveDeleteRoundTrip`, for instance `Placement.DeletionComesTooLate`). The same holds for the bookings
  made while candidates are rated, whose records also stay in the store (`Placement.TrialUndoneExactly`); nothing in
  the repository sets the flag `is_frag_needed` that turns the rating on.
- A change of capacity evicts also from a slot that the new capacity would just hold, and what is evicted stays active
  (`Runs.ResizeInPlaceExactly`).
- A request of capacity 0 is accepted even where its time runs past the window (`PlaceSearch.NothingNeedsNoRoom`); the
  results on exact placement are therefore about capacities of at least 1.
- The warm-up phase of the load buffer: the zeros behind its last load are logged once load follows
  (`LoadBuffers.LoggedStretch`), which changes no sum (`LoadBuffers.EffectiveLoadIsTheMiddle`).
- Sorting by rank is a topological order exactly if every heaviest path takes time to pass its first edge
  (`Workflows.TopologicalExactly`); where a group has the rank of its successor, the successor always comes first, as in
  `Workflows.InstantPairMisordered`.
- The record of a link that has been split keeps the state of an open request and the assigned times it had; only its
  segments hold the interval (`Heft.HeftScheduler.ScheduleCrossDependency`). The network is not asked whether it has
  room, and a rollback leaves the segments in the store, because only bookings of nodes are rolled back
  (`Heft.HeftScheduler.Reserve`: no record is removed).
- The loop test of the path search lets self-loop links pass (`Paths.SimpleExactlyWithoutSelfLoops`), which
  matters between different routers only where a link leads away from such a router
  (`Paths.SimpleBetweenDifferentExactly`).
- The bulk shortcut, the early exits and the duplicate pushes on the stack are modelled as they are.

`dafny verify dfyconfig.toml` checks the whole project.

## Model

| member | source | states |
|---|---|---|
| `Placement.ReserveIsExactFirstFit` | src/vrm/schedule/slotted_schedule/schedule_base.rs:124-150 | Reserving a reservation of fixed shape is exact first fit, in terms of times: if some slot of the window ends after the start of the interval, leaves the duration room in it (or is the first of the window) and has the capacity free in every slot its time meets, the least such slot is taken; the record starts at the start of the slot or of the interval, whichever is later; exactly the slots its time meets gain exactly the capacity and the id; otherwise nothing changes but the state, which becomes rejected |
| `Placement.ReserveInPlaceExactly` | src/vrm/reservation/probe_reservations.rs:138-148 | A reserved reservation, moldable or not, sits in all slots of its time if and only if it was not active before and the slots its full shape needs from its first slot on had its capacity free: otherwise it is cut, but only times and state are promoted, and slots with less room refuse the uncut capacity |
| `Placement.CutRequestIsNotInPlace` | src/vrm/reservation/probe_reservations.rs:138-148 | A schedule and a moldable request that is reserved and yet not entered in all slots of its time |
| `Placement.ReserveDeleteRoundTrip` | src/vrm/schedule/slotted_schedule/schedule_base.rs:115-150 | Deleting at the same time what has just been reserved restores all slots and the active set if and only if the assigned end is later than the current time |
| `Placement.DeletionComesTooLate` | src/vrm/schedule/slotted_schedule/schedule_base.rs:115-150 | A schedule and a request that is reserved and deleted at the same time and stays in its slot |
| `Placement.TrialUndoneExactly` | src/vrm/schedule/slotted_schedule/schedule_base.rs:61-77 | Booking and releasing a candidate while it is rated leaves slots and active set as they were if and only if the candidate ends after the current time; its record never gets back into the state in which the store would drop it |
| `Placement.UpdateKeepsPlace` | src/vrm/schedule/slotted_schedule/slotted_schedule_context.rs:216-265 | An update ends exactly the active reservations whose last slot leaves the window and marks just these as deleted, and all others stay in exactly the slots they cover |
| `Placement.ReleaseKeepsPlace` | src/vrm/schedule/slotted_schedule/slotted_schedule_context.rs:293-336 | After a release every slot still holds exactly the active reservations that cover it; an active reservation that ends after now is released and marked deleted, otherwise nothing changes |
| `Placement.DeleteExactly` | src/vrm/schedule/slotted_schedule/schedule_base.rs:115-122 | What a deletion makes of a reservation: rejected if it was not active; otherwise the window moves on, and it stays only if its last slot is still in the window and it ends by now, and is marked deleted and leaves all slots if not |
| `Placement.ClearExactly` | src/vrm/schedule/slotted_schedule/schedule_base.rs:15-19 | Clearing empties every slot, ends everything, brings the window up to date, and leaves all records as they are |
| `Placement.ResizeKeepsAccounts` | src/vrm/schedule/slotted_schedule/slotted_schedule_context.rs:501-528 | After a change to a capacity of at least 1 a slot has that capacity, its load is below it and still the exact sum, and with one of the reservations removed back in it would not be; a slot that was not too full loses none; after a change to 0 the slot is empty and keeps its old capacity |
| `Placement.UpdateKeepsAccounts` | src/vrm/schedule/slotted_schedule/slotted_schedule_context.rs:216-265 | An update keeps every load equal to the sum of the capacities of the ids entered |
| `Placement.BookingKeepsAccounts` | src/vrm/schedule/slotted_schedule/schedule_base.rs:152-187 | Booking without a check keeps the loads exact and within the capacity, whatever times the record carries, and also for an id that is already active |
| `Placement.ReserveKeepsAccounts` | src/vrm/schedule/slotted_schedule/schedule_base.rs:124-150 | Reserving keeps the loads exact and within the capacity |
| `Placement.ReleaseKeepsAccounts` | src/vrm/schedule/slotted_schedule/slotted_schedule_context.rs:293-336 | Releasing keeps the loads exact and within the capacity |
| `Runs.RunKeepsAccounts` | src/vrm/schedule/slotted_schedule/schedule_base.rs:14-196 | In every state of every run of submit, amend, reserve, book, delete, update, clear and change of capacity, moldable reservations included, each load is the sum of the capacities of the slot's ids and lies between 0 and the capacity |
| `Runs.RunKeepsPlaces` | src/vrm/schedule/slotted_schedule/schedule_base.rs:14-196 | In every state of every run on reservations of fixed shape, with unchecked bookings where there is room and changes of capacity that evict nothing, an id is active if and only if it is booked and its time meets the window, and it is entered in exactly the slots of the window that its time covers |
| `Runs.ResizeInPlaceExactly` | src/vrm/schedule/slotted_schedule/slotted_schedule_context.rs:501-528 | A change of capacity leaves every active reservation in all its slots if and only if every slot that is not empty has a load below the new capacity; whatever is evicted stays active but is missing from a slot |
| `Timeline.UpdateCutsTheTimeline` | src/vrm/schedule/slotted_schedule/slotted_schedule_context.rs:216-265 | Seen on the endless timeline an update only cuts off what lies before the new start, even if the window jumps further than its own length, and the new first slot contains the current time |
| `Timeline.FirstFitIsLeast` | src/vrm/schedule/slotted_schedule/slotted_schedule_context.rs:413-417 | The search result is the least slot up to the latest start where a candidate fits, and nothing is found only if none does |
| `Timeline.SlotOf` | src/vrm/schedule/slotted_schedule/slotted_schedule_context.rs:170-182 | A point in time lies in its slot; times before zero belong to slot 0 |
| `PlaceSearch.SearchedExactly` | src/vrm/schedule/slotted_schedule/slotted_schedule_context.rs:407-413 | The slots tried are exactly those of the window that end after the start of the interval and leave the duration room in it, and the first of the window; unless the whole window ends before the interval |
| `PlaceSearch.AllowedExactly` | src/vrm/schedule/slotted_schedule/slotted_schedule_context.rs:407-413 | Where the interval leaves room for the duration, exactly the slots from which it ends in the interval; where it does not, only the slot with the start of interval or window, and only if it is the first of the window or the duration fits behind its start |
| `PlaceSearch.MetExactly` | src/vrm/schedule/slotted_schedule/slotted_schedule_context.rs:170-182 | The slots from that of the start to that of the last unit are exactly those that the time meets |
| `PlaceSearch.FixedFirstFit` | src/vrm/schedule/slotted_schedule/slotted_schedule_context.rs:374-419 | A reservation of fixed shape finds a place if and only if its interval is not reversed or negative and with some allowed slot as its first all slots its time meets have the capacity free; the least such slot is found; the early refusal of requests beyond the slot capacity turns down nothing that fits |
| `PlaceSearch.CutFound` | src/vrm/schedule/slotted_schedule/slotted_schedule_context.rs:448-477 | The walk finds a candidate wherever a single cut would do: with some capacity free for as long as the work then takes, within interval and window, a candidate at least as wide is found, however often it is cut |
| `PlaceSearch.MoldableFindsPlace` | src/vrm/schedule/slotted_schedule/slotted_schedule_context.rs:374-419 | A moldable request is placed with that slot or an earlier one wherever a single cut fits, also if it asks for more than the slots can hold |
| `PlaceSearch.CandidatesOfAllowedSlots` | src/vrm/schedule/slotted_schedule/slotted_schedule_context.rs:407-417 | The candidates are exactly those of the allowed slots, in strictly increasing order of their starts |
| `PlaceSearch.FixedFit` | src/vrm/schedule/slotted_schedule/slotted_schedule_context.rs:448-489 | The walk accepts a reservation of fixed shape if and only if its whole span lies in the window with the capacity free, and leaves its shape alone |
| `PlaceSearch.NothingNeedsNoRoom` | src/vrm/schedule/slotted_schedule/slotted_schedule_context.rs:448-489 | A request of capacity 0 is accepted from every start, even where its time runs past the window |
| `PlaceSearch.FitIsSound` | src/vrm/schedule/slotted_schedule/slotted_schedule_context.rs:448-489 | Every candidate has its final capacity free in every slot up to its final end, is cut no further than the fullest of them demands, never shortened, and loses at most (c-1)(c-2)/2 of its work; a cut candidate ends within booking interval and window |
| `PlaceSearch.InsideBookingIntervalExactly` | src/vrm/schedule/slotted_schedule/slotted_schedule_context.rs:435-474 | No candidate starts before booking interval or window; it ends inside the booking interval if and only if the slots its full shape needs lack its capacity, or the request leaves room for its duration |
| `PlaceSearch.OverrunsItsInterval` | src/vrm/schedule/slotted_schedule/slotted_schedule_context.rs:435-474 | A schedule and a fixed request that is placed beyond the end of its booking interval |
| `PlaceSearch.CutExactly` | src/vrm/schedule/slotted_schedule/slotted_schedule_context.rs:448-489 | Whether a candidate is cut can be told from the slots beforehand: it keeps its shape if and only if the span of that shape has its capacity free, and a cut one ends by the boundary |
| `PlaceSearch.LaterSlotsStartLater` | src/vrm/schedule/slotted_schedule/slotted_schedule_context.rs:413-441 | Candidates of later slots start strictly later |
| `PlaceSearch.EarliestCandidateIsFirstFit` | src/vrm/schedule/slotted_schedule/schedule_base.rs:136-145 | Whichever candidate has the least start, it is the one of the first slot where one fits, so the arbitrary iteration order of the candidate map does not matter |
| `PlaceSearch.NoSlotIsThatLarge` | src/vrm/schedule/slotted_schedule/slotted_schedule_context.rs:400-405 | A request larger than the slot capacity fits in no slot of the window |
| `PlaceSearch.FitKeepsStart` | src/vrm/schedule/slotted_schedule/slotted_schedule_context.rs:435-486 | A candidate starts at the time it was tried for, however often it is cut |
| `PlaceSearch.ReserveHonoursBooking` | src/vrm/schedule/slotted_schedule/schedule_base.rs:124-150 | What the workflow scheduler relies on: reserved means assigned not before the start of the booking interval, and not beyond its end if behind the start of the window it leaves room for the duration, moldable or not; a refusal changes the state only, and no other record changes |
| `Rings.RingAdvances` | src/vrm/schedule/slotted_schedule/slotted_schedule_context.rs:243-260 | Resetting the places of the slots that leave the window and moving its start on shows the remaining slots in order and empty ones behind them, for any distance and across the end of the ring |
| `Rings.PlacesDiffer` | src/vrm/schedule/slotted_schedule/slotted_schedule_context.rs:128-130 | Two indices of one window never share a place of the ring |
| `Rings.PlaceTaken` | src/vrm/schedule/slotted_schedule/slotted_schedule_context.rs:128-130 | Every place of the ring holds some index of the window |
| `Rings.WindowUpdate` | src/vrm/schedule/slotted_schedule/slotted_schedule_context.rs:151-162 | Writing the place of an index changes that slot of the window and no other |
| `SlottedSchedules.SlottedSchedule.constructor` | src/vrm/schedule/slotted_schedule/slotted_schedule_context.rs:74-114 | A new schedule has empty slots of the given capacity, no active reservation, and a window that starts with the slot of the current time |
| `SlottedSchedules.EmptyExactly` | src/vrm/schedule/slotted_schedule/slotted_schedule_context.rs:74-114 | In a new schedule no slot is taken, nothing is active, and the first slot contains the current time |
| `SlottedSchedules.SlottedSchedule.GetSlot` | src/vrm/schedule/slotted_schedule/slotted_schedule_context.rs:135-162 | A slot is found if and only if its index is in the window, and it is the slot of that index |
| `SlottedSchedules.SlottedSchedule.GetSlotIndex` | src/vrm/schedule/slotted_schedule/slotted_schedule_context.rs:170-182 | The slot of a point in time; times before zero belong to slot 0 |
| `SlottedSchedules.SlottedSchedule.AdjustRequirement` | src/vrm/schedule/slotted_schedule/strategy/node/node_strategy.rs:17-37 | What a slot offers: the requirement or what is left, and nothing outside the window |
| `SlottedSchedules.SlottedSchedule.TryFitReservation` | src/vrm/schedule/slotted_schedule/slotted_schedule_context.rs:421-489 | The loop over a reservation record that is reshaped in place, with an end slot that moves, terminates and computes the fit the lemmas above are about |
| `SlottedSchedules.SlottedSchedule.WalkSlots` | src/vrm/schedule/slotted_schedule/slotted_schedule_context.rs:448-477 | The walk over the slots, which stretches while it squeezes the record in place, ends and agrees with the recursive fit |
| `SlottedSchedules.SlottedSchedule.CalculateSchedule` | src/vrm/schedule/slotted_schedule/slotted_schedule_context.rs:374-419 | The candidates are exactly those of the allowed first slots, one each, in the order of the slots; none for a reversed, negative or too large request |
| `SlottedSchedules.SlottedSchedule.InsertIntoSlot` | src/vrm/schedule/slotted_schedule/strategy/node/node_strategy.rs:128-141 | Inserting enters the reservation into that slot of the window and changes no other |
| `SlottedSchedules.SlottedSchedule.DeleteReservationInSlot` | src/vrm/schedule/slotted_schedule/slotted_schedule_context.rs:281-290 | Deleting in one slot changes that slot only, and reports whether the id was in it |
| `SlottedSchedules.SlottedSchedule.ReserveWithoutCheck` | src/vrm/schedule/slotted_schedule/schedule_base.rs:152-187 | All slots of the assigned time take the reservation in, and give it back if the id was active before; active set and state follow |
| `SlottedSchedules.SlottedSchedule.CollectExpired` | src/vrm/schedule/slotted_schedule/slotted_schedule_context.rs:225-237 | The ids collected are exactly those whose last slot leaves the window |
| `SlottedSchedules.SlottedSchedule.RemoveExpired` | src/vrm/schedule/slotted_schedule/slotted_schedule_context.rs:239-241 | Exactly the collected ids leave the active set, and those that were active are marked deleted, in whatever order |
| `SlottedSchedules.SlottedSchedule.LogAndReset` | src/vrm/schedule/slotted_schedule/slotted_schedule_context.rs:243-256 | Every slot before the new start is emptied, and its load is handed to the load buffer once, in the order of the indices, slots never reached counting as 0 |
| `SlottedSchedules.SlottedSchedule.Update` | src/vrm/schedule/slotted_schedule/slotted_schedule_context.rs:216-265 | The ring does what the timeline does: the value afterwards is the updated schedule, the history grows by exactly the loads that leave, and it reaches up to the window |
| `SlottedSchedules.SlottedSchedule.Reserve` | src/vrm/schedule/slotted_schedule/schedule_base.rs:124-150 | The loop over slots and candidates with the promotion of the best computes exact first fit after an update |
| `SlottedSchedules.SlottedSchedule.DeleteReservation` | src/vrm/schedule/slotted_schedule/schedule_base.rs:115-122 | An unknown id is rejected; otherwise the window moves on and the reservation leaves its slots and the active set, unless it has ended |
| `SlottedSchedules.SlottedSchedule.Clear` | src/vrm/schedule/slotted_schedule/schedule_base.rs:15-19 | All slots are emptied and nothing is active; the slots that then leave the window are logged as empty |
| `SlottedSchedules.SlottedSchedule.UpdateCapacity` | src/vrm/schedule/slotted_schedule/slotted_schedule_context.rs:501-528 | Every slot is resized: reservations are removed only from slots that are too full, in any order and no more than it takes |
| `SlottedSchedules.ResizeSlot` | src/vrm/schedule/slotted_schedule/slotted_schedule_context.rs:504-526 | One slot of a change of capacity: removal stops with the first reservation whose removal makes the rest fit |
| `Slots.Slot.InsertReservation` | src/vrm/schedule/slotted_schedule/slot.rs:62-82 | Entered at most once and only where it fits; the answer tells whether it was |
| `Slots.Slot.DeleteReservation` | src/vrm/schedule/slotted_schedule/slot.rs:88-103 | Taken out with its capacity if it was in, otherwise nothing changes |
| `Slots.InsertAccounted` | src/vrm/schedule/slotted_schedule/slot.rs:62-82 | Insertion keeps the load exact and within the capacity |
| `Slots.DeleteAccounted` | src/vrm/schedule/slotted_schedule/slot.rs:88-103 | Deletion with the stored capacity keeps the load exact |
| `Slots.DeletionSafeExactly` | src/vrm/schedule/slotted_schedule/slot.rs:88-103 | Deleting a reservation keeps every accounted slot within its capacity if and only if its capacity is not negative |
| `Slots.InsertDelete` | src/vrm/schedule/slotted_schedule/slot.rs:62-103 | Deleting what has just been entered restores the slot |
| `Probes.ProbeReservations.AddReservation` | src/vrm/reservation/probe_reservations.rs:55-72 | A candidate is added under a new number |
| `Probes.ProbeReservations.GetBest` | src/vrm/reservation/probe_reservations.rs:158-185 | A candidate that finishes, or starts, no later than any other is found, in whatever order they are visited; none for another id or an empty set |
| `Probes.ProbeReservations.OnlyPromoteBest` | src/vrm/reservation/probe_reservations.rs:138-150 | A best candidate is taken out and the record takes over its times and state, not its shape |
| `Reservations.MoldingLoss` | src/vrm/reservation/reservation.rs:305-323 | A cut to capacity c keeps the work up to less than c and never shortens |
| `Reservations.MoldingChainLoss` | src/vrm/reservation/reservation.rs:305-323 | Any strictly decreasing chain of cuts from capacity c loses at most (c-1)(c-2)/2 of the work in all |
| `Reservations.MoldingChainTight` | src/vrm/reservation/reservation.rs:305-323 | A concrete chain meets the bound |
| `Reservations.MoldedToNothing` | src/vrm/reservation/reservation.rs:305-323 | A cut to capacity 0 leaves capacity 1 for as long as the work takes |
| `Reservations.StretchingLoss` | src/vrm/reservation/reservation.rs:667-690 | A new duration keeps the work up to less than that duration, or is padded to capacity 1 |
| `Reservations.ReservationBase.AdjustCapacity` | src/vrm/reservation/reservation.rs:305-323 | The record is reshaped in place as the lemmas on molding say |
| `Reservations.ReservationBase.AdjustTaskDuration` | src/vrm/reservation/reservation.rs:667-690 | The record is stretched in place; the work figure stays |
| `LoadBuffers.LoadBuffer.AddIntern` | src/vrm/schedule/load_buffer.rs:133-141 | The sum covers everything logged and the tail is its last 50 entries |
| `LoadBuffers.LoadBuffer.AddZerosIntern` | src/vrm/schedule/load_buffer.rs:143-163 | The bulk shortcut for zeros agrees with pushing them one by one |
| `LoadBuffers.LoadBuffer.Add` | src/vrm/schedule/load_buffer.rs:165-194 | One more slot: zeros are counted, and a load after the warm-up phase is logged behind the zeros before it |
| `LoadBuffers.LoadBuffer.GetEffectiveOverallLoad` | src/vrm/schedule/load_buffer.rs:196-207 | The effective load is the sum of everything logged but its last 50 entries, averaged over the number of slots between warm-up and cool-down; without any load, or without such a slot, the average is 0 |
| `LoadBuffers.LoggedStretch` | src/vrm/schedule/load_buffer.rs:165-194 | After any sequence of consecutive slots, what is logged is one contiguous stretch: from behind the last load of the warm-up phase up to the latest load |
| `LoadBuffers.EffectiveLoadIsTheMiddle` | src/vrm/schedule/load_buffer.rs:196-207 | The effective load is the sum over exactly the slots more than 50 behind the first load and at least 50 before the last, and it is averaged over exactly their number |
| `Fragmentation.BlocksAreMaximal` | src/vrm/schedule/slotted_schedule/fragmentation.rs:40-81 | The blocks counted for a level are exactly the maximal runs of slots with at least that much free, each once |
| `Fragmentation.LengthsCountSlots` | src/vrm/schedule/slotted_schedule/fragmentation.rs:40-81 | The lengths of the blocks of a level add up to the number of slots with that much free |
| `Fragmentation.SquaresBelowSquare` | src/vrm/schedule/slotted_schedule/fragmentation.rs:83-94 | The squares of block lengths add up to at most the square of the sum, with equality if and only if there is at most one block |
| `Fragmentation.IndexRange` | src/vrm/schedule/slotted_schedule/fragmentation.rs:83-100 | The index is in [0, 1) and 0 if and only if no level has more than one block |
| `Fragmentation.EvenIndex` | src/vrm/schedule/slotted_schedule/fragmentation.rs:83-100 | If every level in use is split into k blocks of equal length, the index is 1 - 1/k |
| `Fragmentation.SingleLevelIndex` | src/vrm/schedule/slotted_schedule/fragmentation.rs:83-100 | With one level in use, one minus the index, times the square of the number of free slots, is the sum of the squared block lengths |
| `Fragmentation.RatioLaw` | src/vrm/schedule/slotted_schedule/fragmentation.rs:88 | The share of a level times the square of its number of free slots is the sum of its squared block lengths |
| `Fragmentation.IndexGrows` | src/vrm/schedule/slotted_schedule/fragmentation.rs:99 | One minus the index, times the number of levels in use, grows with every level by its share |
| `Fragmentation.LevelsInUseCounted` | src/vrm/schedule/slotted_schedule/fragmentation.rs:86-92 | The levels in use are those with a block |
| `Fragmentation.FreeCapacitiesAre` | src/vrm/schedule/slotted_schedule/fragmentation.rs:48-49 | What is measured is what each slot of the window has left |
| `Fragmentation.AddBlocksEndingInRange` | src/vrm/schedule/slotted_schedule/fragmentation.rs:40-65 | The three vectors hold, per level, sum and sum of squares of the blocks that end in the range and the length of the current one |
| `Fragmentation.AddBlocksCutByRangeEnd` | src/vrm/schedule/slotted_schedule/fragmentation.rs:67-81 | Afterwards the vectors cover all blocks of every level |
| `Fragmentation.CalculateAvgFragmentation` | src/vrm/schedule/slotted_schedule/fragmentation.rs:83-100 | The loop computes the index that the laws above are about |
| `Fragmentation.GetFragmentationQuadraticMean` | src/vrm/schedule/slotted_schedule/fragmentation.rs:20-38 | For every valid schedule the result is the index of its free capacities, lies in [0, 1), and is 0 if and only if every level is in one block |
| `Topology.FindPaths` | src/vrm/schedule/slotted_schedule/strategy/link/topology.rs:165-215 | On every network, cyclic or with self-loops, the search terminates and returns K shortest routes: distinct, sorted by length, all routes if fewer than K, and none left out that is shorter than one returned |
| `Paths.SimpleExactlyWithoutSelfLoops` | src/vrm/schedule/slotted_schedule/strategy/link/topology.rs:199-206 | The loop test admits only simple paths, for all end points, if and only if the network has no self-loop link |
| `Paths.SimpleBetweenDifferentExactly` | src/vrm/schedule/slotted_schedule/strategy/link/topology.rs:261-282 | Between different routers, the only pairs that are cached, the search admits only simple paths if and only if no link leads away from a router with a self-loop |
| `Paths.RoutesAreSimplePaths` | src/vrm/schedule/slotted_schedule/strategy/link/topology.rs:180-215 | Without self-loop links the routes of the search are the textbook simple paths |
| `Paths.SelfLoopCounterexample` | src/vrm/schedule/slotted_schedule/strategy/link/topology.rs:199-206 | A path through a self-loop that the search accepts between two different routers |
| `Paths.ExploredUsesLinksOnce` | src/vrm/schedule/slotted_schedule/strategy/link/topology.rs:199-213 | No queued path uses a link twice, so it is no longer than the number of links |
| `Paths.KShortestLengthsUnique` | src/vrm/schedule/slotted_schedule/strategy/link/topology.rs:165-215 | Whatever the iteration order, two searches agree on the number of paths and on the length of the i-th |
| `Topology.PendingIsLong` | src/vrm/schedule/slotted_schedule/strategy/link/topology.rs:180-215 | Every path not yet taken out of the queue is at least as long as the next one in it |
| `Topology.ClosesLoop` | src/vrm/schedule/slotted_schedule/strategy/link/topology.rs:197-206 | The loop test: does the link lead to a router the path has left |
| `Topology.StartPaths` | src/vrm/schedule/slotted_schedule/strategy/link/topology.rs:166-178 | The queue starts with exactly the links that leave the source |
| `Topology.Extend` | src/vrm/schedule/slotted_schedule/strategy/link/topology.rs:193-214 | A path is extended by exactly the outgoing links that close no loop |
| `Topology.SetupRouters` | src/vrm/schedule/slotted_schedule/strategy/link/topology.rs:335-360 | Routers are the grid nodes and the end points of links, and exactly the grid nodes are access points |
| `Topology.SetupAdjacency` | src/vrm/schedule/slotted_schedule/strategy/link/topology.rs:288-331 | Every link is filed under its source |
| `Topology.BandwidthBottleneck` | src/vrm/schedule/slotted_schedule/strategy/link/topology.rs:227-236 | The least capacity of the links of a path |
| `Topology.SumBandwidths` | src/vrm/schedule/slotted_schedule/strategy/link/topology.rs:224-244 | The total of the bottlenecks, and the widest seen so far |
| `Paths.BottleneckIsLeast` | src/vrm/schedule/slotted_schedule/strategy/link/topology.rs:227-236 | The bottleneck is a lower bound of the capacities that some link attains |
| `Paths.BandwidthsAddUp` | src/vrm/schedule/slotted_schedule/strategy/link/topology.rs:225-245 | The total bandwidth of one path is its bottleneck, and that of two lists the sum of both |
| `Topology.NetworkTopology.CalcKShortestPaths` | src/vrm/schedule/slotted_schedule/strategy/link/topology.rs:165-254 | Something is cached if and only if the routers are connected, and then the K shortest routes with a summary of their bandwidths |
| `Topology.NetworkTopology.CalcAllPaths` | src/vrm/schedule/slotted_schedule/strategy/link/topology.rs:261-285 | Afterwards exactly the connected ordered pairs of different access points are cached and summarised, and the maximum is that of all cached bottlenecks |
| `Topology.NetworkTopology.constructor` | src/vrm/schedule/slotted_schedule/strategy/link/topology.rs:115-159 | A new topology is filled for the access points of its grid nodes |
| `LinkStrategies.LinkStrategy.AdjustRequirement` | src/vrm/schedule/slotted_schedule/strategy/link/link_strategy.rs:53-116 | The bottleneck query returns the best offer of the K shortest routes from source to target, each as wide as its fullest link and no wider than the maximum; early exits included; nothing without such routes |
| `LinkStrategies.OfferIsLeast` | src/vrm/schedule/slotted_schedule/strategy/link/link_strategy.rs:94-106 | The offer of a path is a lower bound of the free capacities of its links and of the maximum, attained by one of them |
| `LinkStrategies.BookableExactly` | src/vrm/schedule/slotted_schedule/strategy/link/link_strategy.rs:53-202 | Query and booking agree: a capacity up to the maximum can be booked if and only if the best offer covers it |
| `LinkStrategies.LinkStrategy.InsertReservationIntoSlot` | src/vrm/schedule/slotted_schedule/strategy/link/link_strategy.rs:118-202 | All or nothing: the first wholly free one of the K shortest routes from source to target is booked on all its links, remembered, and entered into the network's own slot, or nothing changes |
| `LinkStrategies.BookedOnGainsOnce` | src/vrm/schedule/slotted_schedule/strategy/link/link_strategy.rs:163-171 | Every link of the booked path gains exactly the capacity exactly once in that slot, none becomes overfull, and no other link or slot changes |
| `LinkStrategies.PathsLead` | src/vrm/schedule/slotted_schedule/strategy/link/link_strategy.rs:59-78 | Every path used leads from source to target, and there is none if and only if these are no connected pair of access points |
| `LinkStrategies.OnRoute` | src/vrm/schedule/slotted_schedule/strategy/link/link_strategy.rs:118-195 | Whatever is booked is a route from source to target |
| `LinkStrategies.RememberedExactly` | src/vrm/schedule/slotted_schedule/strategy/link/link_strategy.rs:173-185 | Remembering a path for one slot of a reservation forgets no other |
| `LinkStrategies.LinkStrategy.constructor` | src/vrm/schedule/slotted_schedule/strategy/link/link_strategy.rs:27-30 | The strategy starts with the paths of the topology and no path reserved |
| `Connectivity.ConnectedAdd` | src/vrm/workflow/workflow.rs:545-554 | Adding one pair joins two classes of connected nodes and changes nothing else |
| `Connectivity.UnionFind.constructor` | src/vrm/workflow/workflow.rs:511 | Every index starts in a set of its own |
| `Connectivity.UnionFind.Find` | src/vrm/workflow/workflow.rs:564 | The representative of a set, the same for all its members |
| `Connectivity.UnionFind.Union` | src/vrm/workflow/workflow.rs:549 | Joins two sets and no others |
| `CoAllocations.MergeSyncs` | src/vrm/workflow/workflow.rs:545-554 | After all unions two nodes are in one set if and only if sync dependencies connect them |
| `CoAllocations.GroupNodes` | src/vrm/workflow/workflow.rs:556-590 | Every node joins the group of its representative, exactly once |
| `CoAllocations.BuildCoAllocations` | src/vrm/workflow/workflow.rs:496-590 | Two nodes get the same group if and only if sync dependencies connect them in either direction, and the member lists split the nodes up without repetition |
| `CoAllocations.BuildCoAllocationDependencies` | src/vrm/workflow/workflow.rs:614-659 | Every group lists exactly the data dependencies that leave and enter it, each once and with its data; those within a group are not listed; the edges returned are those of exactly the dependencies between groups |
| `CoAllocations.FindEntryGroups` | src/vrm/workflow/workflow.rs:675-676 | Entry groups are those without incoming dependency |
| `Workflows.GetCoAllocationDuration` | src/vrm/workflow/co_allocation.rs:94-108 | The longest duration of the members, or 0 |
| `Workflows.LongestDurationIsLeast` | src/vrm/workflow/co_allocation.rs:94-108 | It bounds every member's duration and is attained unless it is 0 |
| `Workflows.CommunicationTakes` | src/vrm/workflow/workflow.rs:758-765 | The transfer time estimated is the whole part of size / speed, and 0 without speed |
| `Workflows.TakesOneTime` | src/vrm/workflow/workflow.rs:758-765 | That fixes the transfer time: no other is the whole part |
| `Workflows.GraphMeans` | src/vrm/workflow/workflow.rs:744-778 | The graph that is ranked: every group takes as long as its longest task, every edge stands for a dependency between two groups with its transfer time, and every such dependency for an edge |
| `Dags.WeightsAddUp` | src/vrm/workflow/workflow.rs:750-772 | The weight of a path is the sum of all durations and transfer times on it |
| `Workflows.VisitSuccessors` | src/vrm/workflow/workflow.rs:744-778 | The loop over the successors yields the rank if all of them are finished, and otherwise exactly those to visit first |
| `Workflows.RankGroups` | src/vrm/workflow/workflow.rs:735-791 | On every acyclic group graph the traversal with its explicit stack terminates in spite of duplicate pushes, finishes every group once and after its successors, and leaves as rank the weight of a heaviest path, with the length of one |
| `Dags.HeaviestPathEndsAtExit` | src/vrm/workflow/workflow.rs:709-712 | With positive durations a heaviest path runs until a group without successor |
| `Dags.ClosedSetHoldsAll` | src/vrm/workflow/workflow.rs:727-733 | Starting from the entry groups the traversal misses no group of an acyclic graph |
| `Dags.RankDrops` | src/vrm/workflow/workflow.rs:750-772 | The rank drops strictly along every edge that takes time |
| `Workflows.SortByRankSorts` | src/vrm/workflow/workflow.rs:793-798 | The sorted list is a permutation in descending order of rank |
| `Workflows.SortByRankStable` | src/vrm/workflow/workflow.rs:793-798 | Groups of equal rank keep the order in which they were finished |
| `Workflows.RankedRepresentatives` | src/vrm/workflow/workflow.rs:793-801 | One representative per group, the highest rank first |
| `Workflows.RankOrderIsTopological` | src/vrm/workflow/workflow.rs:714-716 | If every edge takes time, descending rank is a topological order |
| `Workflows.RanksDropExactly` | src/vrm/workflow/workflow.rs:750-772 | The rank drops along every edge if and only if every heaviest path takes time to pass its first edge |
| `Workflows.TopologicalExactly` | src/vrm/workflow/workflow.rs:793-798 | For times that are not negative the resulting order is topological if and only if every heaviest path of the group graph takes time to pass its first edge |
| `Workflows.InstantPairMisordered` | src/vrm/workflow/workflow.rs:793-798 | A graph of two groups for which every order the ranking can return puts the successor first |
| `Workflows.Workflow.constructor` | src/vrm/workflow/workflow.rs:61-148 | A workflow starts with its groups, the edges between them and its entry groups |
| `Workflows.Workflow.UpdateReservation` | src/vrm/workflow/workflow.rs:928-956 | The assigned interval of the workflow is extended to that of the reservation, with the sentinel cases |
| `Workflows.ExtendedIsLeast` | src/vrm/workflow/workflow.rs:945-956 | The extended interval covers the old one and that of the reservation, and is no larger than it takes |
| `Workflows.Workflow.CalculateUpwardRank` | src/vrm/workflow/workflow.rs:717-802 | All groups are ranked and their representatives are listed once in descending order; the list is topological where every edge takes time, and for times that are not negative if and only if every heaviest path takes time to pass its first edge |
| `Heft.HeftScheduler.Reserve` | src/vrm/vrm_component/scheduler/heft_sync_workflow_scheduler.rs:55-149 | An accepted workflow has every node booked and within its own assigned interval; every representative runs within the booking interval of the workflow and its members while it does, as far as durations and horizon allow; every data dependency between groups is met, the target starting no earlier than the end of the source plus the transfer time, with the link arranged for exactly the time between them (a dummy takes none); and every sync link is arranged for the time of its target. A rejected one leaves nothing booked, and there was cause: all groups of higher rank were served, and the next one missed the deadline even from its earliest start, or its representative was refused twice, or a member was refused for the time of the representative, or a link of it is none. Without data between groups, among willing components and with real links, a workflow whose representatives fit its interval is accepted. No record is removed either way |
| `Heft.OnlyLateStops` | src/vrm/vrm_component/scheduler/heft_sync_workflow_scheduler.rs:111-139 | Among willing components and real links only a group that misses the deadline from its earliest start is a cause to reject |
| `Heft.NothingStops` | src/vrm/vrm_component/scheduler/heft_sync_workflow_scheduler.rs:55-149 | Without data between groups such a workflow is not rejected if every representative fits the booking interval |
| `Heft.TurnsByRank` | src/vrm/vrm_component/scheduler/heft_sync_workflow_scheduler.rs:68-72 | The groups served before a rejection rank no lower than the one stopped at, and all others no higher |
| `Heft.AllAccepted` | src/vrm/vrm_component/scheduler/heft_sync_workflow_scheduler.rs:72-145 | Once all groups are through, every node is booked, all groups run on time, all dependencies between groups are met with their transfers, and all sync links are arranged |
| `Heft.RankOrderSchedulable` | src/vrm/vrm_component/scheduler/heft_sync_workflow_scheduler.rs:68-106 | In a topological order the source of every incoming dependency of a group is scheduled before the group, and every group works on reservations of its own |
| `Heft.TransferTakesTime` | src/vrm/vrm_component/scheduler/heft_sync_workflow_scheduler.rs:85-99 | A transfer takes at least one unit whenever there is something to transfer, for exactly those link speeds that do not turn the quotient negative |
| `Heft.GroupsApart` | src/vrm/vrm_component/scheduler/heft_sync_workflow_scheduler.rs:72-140 | Two groups never work on the same node or link |
| `Heft.ServiceKept` | src/vrm/vrm_component/scheduler/heft_sync_workflow_scheduler.rs:72-140 | Bookings, times, transfers and sync links of a group, segments included, stay while only reservations of others are worked on |
| `Heft.ServeStep` | src/vrm/vrm_component/scheduler/heft_sync_workflow_scheduler.rs:72-140 | With one more group scheduled, all groups so far are served |
| `Heft.GroupIsServed` | src/vrm/vrm_component/scheduler/heft_sync_workflow_scheduler.rs:72-140 | A group booked behind the computed start has its data and its transfers |
| `Heft.HeftScheduler.EarliestStart` | src/vrm/vrm_component/scheduler/heft_sync_workflow_scheduler.rs:72-106 | The earliest start is the maximum of the start of the workflow and the arrival of all incoming data |
| `Heft.ReadyAtIsMaximum` | src/vrm/vrm_component/scheduler/heft_sync_workflow_scheduler.rs:72-106 | The time a group is ready at bounds the start of the workflow and all arrivals, and is one of them |
| `Heft.HeftScheduler.ScheduleGroup` | src/vrm/vrm_component/scheduler/heft_sync_workflow_scheduler.rs:72-140 | One turn of the loop: the group is booked behind its data and before the deadline, its links are arranged, and only its own members, the sync links to them and the transfers to it change their times; it fails only for a cause, and never succeeds past the deadline |
| `Heft.HeftScheduler.PlaceGroup` | src/vrm/vrm_component/scheduler/heft_sync_workflow_scheduler.rs:122-132 | Representative and members start no earlier than the start computed, and the representative ends by the deadline |
| `Heft.HeftScheduler.ScheduleCoAllocation` | src/vrm/vrm_component/scheduler/heft_sync_workflow_scheduler.rs:225-293 | All members of a group are booked for the time of the representative, and their sync links are arranged; or some answer of a component, or a link that is none, says why not |
| `Heft.HeftScheduler.ReserveAtBest` | src/vrm/vrm_component/scheduler/heft_sync_workflow_scheduler.rs:237-249 | A refused node is asked for exactly once more, with an open request; if booked it starts no earlier than its booking interval, and ends within it if that leaves room |
| `Heft.HeftScheduler.ReserveMembers` | src/vrm/vrm_component/scheduler/heft_sync_workflow_scheduler.rs:258-284 | The other members start no earlier than the representative, and end no later if their durations fit the time it got; if one fails, it was asked for with exactly that time and refused |
| `Heft.HeftScheduler.ReserveAtFirst` | src/vrm/vrm_component/scheduler/heft_sync_workflow_scheduler.rs:263-273 | A node is asked for with exactly the interval given; if booked it starts no earlier, and ends within it if it leaves room; if not it is rejected |
| `Heft.HeftScheduler.ScheduleSyncDependencies` | src/vrm/vrm_component/scheduler/heft_sync_workflow_scheduler.rs:357-406 | Every sync link that leads to the node from a booked node is arranged for the time of the node, or the group fails; only these links change their times |
| `Heft.HeftScheduler.ScheduleDataDependencies` | src/vrm/vrm_component/scheduler/heft_sync_workflow_scheduler.rs:168-221 | Every incoming transfer between booked nodes is arranged from the end of its source to the start of its target, or the group fails |
| `Heft.HeftScheduler.ScheduleDependency` | src/vrm/vrm_component/scheduler/heft_sync_workflow_scheduler.rs:307-355 | A link without data or within one component is committed as a dummy, any other is split; either way it is arranged for the interval; a reservation that is no link fails and changes nothing |
| `Heft.HeftScheduler.ScheduleDummyDependency` | src/vrm/vrm_component/scheduler/heft_sync_workflow_scheduler.rs:467-486 | A dummy is committed for the interval without capacity; a transfer takes no time |
| `Heft.HeftScheduler.ScheduleRealDependency` | src/vrm/vrm_component/scheduler/heft_sync_workflow_scheduler.rs:500-571 | The link asks for exactly the interval, as a moldable transfer of one time unit or as a channel for all of it, and is split |
| `Heft.HeftScheduler.ScheduleCrossDependency` | src/vrm/vrm_component/scheduler/heft_sync_workflow_scheduler.rs:500-683 | A link across components becomes an open request with the interval and gets exactly four new segments behind those it has, each committed for exactly the interval without capacity; nothing else changes |
| `Heft.SplitSpans` | src/vrm/vrm_component/scheduler/heft_sync_workflow_scheduler.rs:586-683 | Four segments of their own then cover the interval, and what else is stored and tracked is as before |
| `Heft.HeftScheduler.AddSegment` | src/vrm/reservation/reservation_store.rs:115-181 | A segment is a copy of the link under a new id, entered behind the segments the link has |
| `Heft.HeftScheduler.CancelAllReservations` | src/vrm/vrm_component/scheduler/heft_sync_workflow_scheduler.rs:443-457 | Everything booked is deleted or rejected with exactly the segments tracked for it, no time changes, and the database is empty |

## Left out

- Heft.HeftScheduler.Reserve: requires an acyclic group graph in which every edge takes time, or times are not negative and every heaviest path takes time to pass its first edge, because the program relies on both without checking them; `Workflows.TopologicalExactly` says what happens to the order otherwise. The program keeps the workflow itself in the store; here it is an object of its own.
- Heft.HeftScheduler.ScheduleDependency: the end points that links and segments carry are not modelled, because records here hold only what scheduling reads and writes.
- Heft.HeftScheduler.CancelAllReservations: whether a component can delete a booking is the oracle's answer.
- SlottedSchedules.SlottedSchedule.constructor: the provisional window set before the first update is not modelled, since the update in the constructor replaces it and finds only empty slots.
- SlottedSchedules.SlottedSchedule.Reserve: the log entry and the provisional rejection for a negative capacity are not modelled, because the store is assumed to hold none.
- LinkStrategies.LinkStrategy.AdjustRequirement: the end points of the reservation are parameters, since records here hold only what scheduling reads and writes.
- CoAllocations.BuildCoAllocations: the lists of sync dependencies kept per group are left out; they follow from the members.
- Workflows.Workflow.constructor: reading the workflow input and building nodes and dependencies from it are not modelled; they are parameters here.
- Topology.NetworkTopology.constructor: the schedules of the links and their registration in the resource store are not built here; `LinkStrategies` takes them as given.
- Connectivity.UnionFind: the class meets the contract of the union-find library by relabelling; the library's own structure is not modelled.
- Fragmentation.GetFragmentationQuadraticMean: the range is given in slot indices; clamping of times, the cache of the last value and its flag are not modelled.
- LoadBuffers.LoadBuffer.GetEffectiveOverallLoad: only the sum, the number of slots and their average; utilization and the times of the record returned are not modelled.
- Probes.ProbeReservations: merging the candidates of several components, their origin, and undoing a promotion; merging files candidates and origins under different ids, so nothing is claimed about origins.
- End-to-end reservation of links through the slotted schedule: the bottleneck query ignores the amount requested, so a fixed request is accepted only where the best offer equals it.
- Releasing booked link capacity: the schedule's own deletion does not release the links of a path.
- The fragmentation by resubmission: random sampling on a copied schedule.
- Load metrics, statistics and logging.
- Shadow schedules, the manager of components, and the paths of commit requests: map bookkeeping around remote components.
- Workflow input, the dependencies derived from it, the downward rank and exit points, which nothing scheduled here reads.
- Data dependencies with an absent end point are modelled as dependencies of an unknown node, which have the same effect: no edge.
- The SLURM client and its synchronisation, actors, threads and locks, files and data transfer objects: input and output.
- Overflow of 64-bit integers, rounding of floats, and clocks that run backwards.
