/**
 The HEFTSync workflow scheduler: groups are reserved in the order of their upward rank, each not before all data
 it depends on has arrived; if anything cannot be reserved, everything is rolled back.
 */
module Heft {
  import opened Common
  import opened Reservations
  import opened CoAllocations
  import Connectivity
  import opened Dags
  import opened Workflows

  type ComponentId = nat

  /** The segments that stand for a link across components, the oldest first. */
  type Virtuals = map<ReservationId, seq<ReservationId>>

  /** What a grid component answers to a reserve request: whether it reserved, and the records afterwards. */
  datatype Answer = Answer(component: Option<ComponentId>, store: Store)

  /**
   The components of the grid as the scheduler sees them. Every answer may depend on the time of the call, here
   its number, and on all records. The windows of all schedules start no later than the horizon.
   */
  datatype Grid = Grid(
    best: (nat, Store, ReservationId) -> Answer,
    first: (nat, Store, ReservationId) -> Answer,
    deleted: (nat, Store, ReservationId) -> bool,
    horizon: int)

  /** Other reservations keep their times; a component may still change their state, say of one that has expired. */
  ghost predicate KeepsTimes(before: Store, after: Store, id: ReservationId) {
    forall x :: x in before && x != id ==> x in after && after[x] == before[x].(state := after[x].state)
  }

  ghost predicate HonoursBooking(ask: (nat, Store, ReservationId) -> Answer, horizon: int) {
    forall t: nat, store: Store, id: ReservationId | id in store ::
      var a := ask(t, store, id);
      KeepsTimes(store, a.store, id) && id in a.store && Honoured(store[id], a.store[id], a.component.Some?, horizon)
  }

  ghost predicate Reliable(grid: Grid) {
    HonoursBooking(grid.best, grid.horizon) && HonoursBooking(grid.first, grid.horizon)
  }

  /** The time a transfer takes: whatever is to be transferred takes at least one unit. */
  function TransferTime(size: int, speed: int): int
    requires speed != 0
  {
    if size <= 0 then 0
    else if TruncDiv(size, speed) == 0 then 1
    else TruncDiv(size, speed)
  }

  /** The lower bound of one unit holds for exactly those link speeds that do not turn the quotient negative. */
  lemma TransferTakesTime(size: int, speed: int)
    requires speed != 0
    ensures size <= 0 ==> TransferTime(size, speed) == 0
    ensures size > 0 ==> (TransferTime(size, speed) >= 1 <==> speed > 0 || size < -speed)
    ensures size > 0 && speed > 0 ==> TransferTime(size, speed) == Max(1, CommunicationTime(size, speed)) == Max(1, size / speed)
    ensures size > 0 && speed < 0 ==> TransferTime(size, speed) == if size < -speed then 1 else -(size / -speed)
  {
    if size > 0 && speed > 0 {
      QuotientSign(size, speed);
    } else if size > 0 {
      QuotientSign(size, -speed);
      assert size / speed == -(size / -speed);
    }
  }

  lemma QuotientSign(a: int, b: int)
    requires a > 0 && b > 0
    ensures a / b >= 0 && (a / b == 0 <==> a < b)
  {
    var q := a / b;
    assert a == b * q + a % b;
    if q < 0 {
      MulMono(b, q, -1);
    } else if q > 0 {
      MulMono(b, 1, q);
    }
  }

  /** What is fixed about a workflow while it is scheduled. */
  datatype Plan = Plan(nodes: map<NodeId, ReservationId>, data: DataDependencies, syncs: Syncs, groupOf: map<NodeId, GroupId>)

  /** The bounds a workflow is scheduled by: the link speed, its booking interval, and the horizon of the grid. */
  datatype Terms = Terms(speed: int, start: int, deadline: int, horizon: int)

  /** What the scheduler keeps: the records, the segments of the links, and the component of every booking made. */
  datatype Books = Books(store: Store, virtuals: Virtuals, database: map<ReservationId, ComponentId>)

  ghost function SyncLinks(p: Plan): set<ReservationId> {
    set id | id in p.syncs :: p.syncs[id].reservation
  }

  ghost function DataLinks(p: Plan): set<ReservationId> {
    set id | id in p.data :: p.data[id].reservation
  }

  ghost function Known(p: Plan): set<ReservationId> {
    p.nodes.Values + DataLinks(p) + SyncLinks(p)
  }

  /** All nodes and links have reservations of their own. */
  ghost predicate Separate(p: Plan) {
    && (forall a, b :: a in p.nodes && b in p.nodes && a != b ==> p.nodes[a] != p.nodes[b])
    && (forall a, b :: a in p.data && b in p.data && a != b ==> p.data[a].reservation != p.data[b].reservation)
    && (forall a, b :: a in p.syncs && b in p.syncs && a != b ==> p.syncs[a].reservation != p.syncs[b].reservation)
    && p.nodes.Values !! DataLinks(p) && p.nodes.Values !! SyncLinks(p) && DataLinks(p) !! SyncLinks(p)
  }

  // ------------------------------------------------------------------------------------------- what is kept

  /** Only the times of the reservations given may have changed, and none is lost. */
  ghost predicate Frame(before: Store, after: Store, touched: set<ReservationId>) {
    forall x :: x in before ==> x in after && (x !in touched ==> after[x] == before[x].(state := after[x].state))
  }

  /** Work on the reservations given: no others change their times or their segments, and no booking is lost. */
  ghost predicate Kept(a: Books, b: Books, touched: set<ReservationId>) {
    && Frame(a.store, b.store, touched)
    && (forall x :: x in a.virtuals && x !in touched ==> x in b.virtuals && b.virtuals[x] == a.virtuals[x])
    && a.database.Keys <= b.database.Keys
  }

  lemma KeptReflexive(a: Books, touched: set<ReservationId>)
    ensures Kept(a, a, touched)
  {
  }

  lemma KeptChain(a: Books, b: Books, c: Books, first: set<ReservationId>, second: set<ReservationId>, all: set<ReservationId>)
    requires Kept(a, b, first) && Kept(b, c, second) && first <= all && second <= all
    ensures Kept(a, c, all)
  {
  }

  lemma KeptWiden(a: Books, b: Books, touched: set<ReservationId>, all: set<ReservationId>)
    requires Kept(a, b, touched) && touched <= all
    ensures Kept(a, b, all)
  {
  }

  lemma KeptTimes(a: Books, b: Books, touched: set<ReservationId>)
    requires Kept(a, b, touched)
    ensures a.store.Keys <= b.store.Keys && a.database.Keys <= b.database.Keys
    ensures Frame(a.store, b.store, touched)
  {
  }

  /** Bookings are made for nodes, segments for links, and no segment is lost. */
  ghost predicate Orderly(p: Plan, booked: set<ReservationId>, b: Books) {
    && booked == b.database.Keys <= p.nodes.Values && booked <= b.store.Keys
    && b.virtuals.Keys !! p.nodes.Values
    && AllTracked(b)
  }

  ghost predicate AllTracked(b: Books) {
    forall x, s :: x in b.virtuals && s in b.virtuals[x] ==> s in b.store
  }

  // ------------------------------------------------------------------------------------------- what is promised

  /** The data dependency is met: m starts only after the data has arrived. */
  ghost predicate DataArrives(p: Plan, store: Store, speed: int, d: DataDependency, m: NodeId)
    requires speed != 0
  {
    && m in p.nodes && p.nodes[m] in store
    && d.source in p.nodes && p.nodes[d.source] in store
    && store[p.nodes[m]].assignedStart >= store[p.nodes[d.source]].assignedEnd + TransferTime(d.size, speed)
  }

  /** Four segments of their own have been committed for the link for exactly the interval given. */
  ghost predicate Spanned(b: Books, known: set<ReservationId>, id: ReservationId, start: int, end: int) {
    id in b.virtuals && |b.virtuals[id]| >= 4 && SegmentsFor(b.store, known, LastFour(b.virtuals[id]), start, end)
  }

  function LastFour(chain: seq<ReservationId>): seq<ReservationId>
    requires |chain| >= 4
  {
    chain[|chain| - 4..]
  }

  ghost predicate SegmentsFor(store: Store, known: set<ReservationId>, segments: seq<ReservationId>, start: int, end: int) {
    && Distinct(segments)
    && forall s :: s in segments ==>
         && s in store && s !in known
         && store[s].assignedStart == start && store[s].assignedEnd == end && store[s].capacity == 0
  }

  /** The link is arranged for the interval: as a dummy, where a transfer takes no time, or as a request with segments. */
  ghost predicate Arranged(b: Books, known: set<ReservationId>, id: ReservationId, start: int, end: int, isTransfer: bool) {
    && id in b.store
    && var r := b.store[id];
       if r.capacity == 0
       then r.assignedStart == start && r.assignedEnd == (if isTransfer then start else end) && r.duration == r.assignedEnd - start
       else Spanned(b, known, id, start, end) && IsRequestFor(r, start, end, isTransfer)
  }

  /** The record asks for exactly the interval: a moldable transfer in one time unit, or a channel for all of it. */
  predicate IsRequestFor(r: Reservation, start: int, end: int, isTransfer: bool) {
    && r.bookingStart == start && r.bookingEnd == end && r.moldable == isTransfer
    && r.duration == if isTransfer then 1 else end - start
  }

  /** The transfer is arranged for the time between the end of its source and the start of its target. */
  ghost predicate Transferred(p: Plan, b: Books, d: DataDependency) {
    && d.source in p.nodes && d.target in p.nodes && p.nodes[d.source] in b.store && p.nodes[d.target] in b.store
    && Arranged(b, Known(p), d.reservation, b.store[p.nodes[d.source]].assignedEnd, b.store[p.nodes[d.target]].assignedStart, true)
  }

  /** The link of a sync dependency is arranged for exactly the time of its target. */
  ghost predicate Synced(p: Plan, b: Books, sync: SyncDependency) {
    && sync.target in p.nodes && p.nodes[sync.target] in b.store
    && var r := b.store[p.nodes[sync.target]];
       Arranged(b, Known(p), sync.reservation, r.assignedStart, r.assignedEnd, false)
  }

  /** The links of the sync dependencies between members of the group are arranged. */
  ghost predicate SyncsLinked(p: Plan, b: Books, members: seq<NodeId>) {
    forall id :: id in p.syncs && p.syncs[id].source in members && p.syncs[id].target in members ==> Synced(p, b, p.syncs[id])
  }

  /** Assigned within the interval, as far as it leaves room behind the horizon. */
  ghost predicate Within(r: Reservation, start: int, end: int, horizon: int) {
    r.assignedStart >= start && (horizon <= start && 0 <= r.duration <= end - start ==> r.assignedEnd <= end)
  }

  /** The reservations are assigned within the interval. */
  ghost predicate AllWithin(store: Store, ids: set<ReservationId>, start: int, end: int, horizon: int) {
    forall x :: x in ids ==> x in store && Within(store[x], start, end, horizon)
  }

  /**
   The representative of the group runs within the booking interval of the workflow, and the members run while the
   representative does, as far as their durations allow.
   */
  ghost predicate OnTime(p: Plan, store: Store, t: Terms, group: CoAllocation) {
    && group.representative in p.nodes && p.nodes[group.representative] in store
    && var first := store[p.nodes[group.representative]];
       && first.assignedStart >= t.start
       && (t.horizon <= t.start && 0 <= first.duration ==> first.assignedEnd <= t.deadline)
       && AllWithin(store, MemberIds(p, group.members), first.assignedStart, first.assignedEnd, t.horizon)
  }

  ghost predicate GroupArrives(p: Plan, store: Store, speed: int, group: CoAllocation)
    requires speed != 0
  {
    forall m, d :: m in group.members && d in group.incomingData ==> DataArrives(p, store, speed, d, m)
  }

  ghost predicate GroupBooked(p: Plan, database: map<ReservationId, ComponentId>, group: CoAllocation) {
    forall m :: m in group.members ==> m in p.nodes && p.nodes[m] in database
  }

  /** The transfers to the group are arranged. */
  ghost predicate GroupSupplied(p: Plan, b: Books, group: CoAllocation) {
    forall d :: d in group.incomingData ==> Transferred(p, b, d)
  }

  /** All that is promised for a group once it has been scheduled. */
  ghost predicate GroupServed(p: Plan, b: Books, t: Terms, group: CoAllocation)
    requires t.speed != 0
  {
    && GroupBooked(p, b.database, group) && OnTime(p, b.store, t, group) && GroupArrives(p, b.store, t.speed, group)
    && GroupSupplied(p, b, group) && SyncsLinked(p, b, group.members)
  }

  ghost predicate AllServed(p: Plan, b: Books, t: Terms, groups: Groups, done: set<GroupId>)
    requires t.speed != 0
  {
    forall k :: k in done && k in groups ==> GroupServed(p, b, t, groups[k])
  }

  // ------------------------------------------------------------------------------------------- who works on what

  ghost function MemberIds(p: Plan, members: seq<NodeId>): set<ReservationId> {
    set m | m in members && m in p.nodes :: p.nodes[m]
  }

  /** The links of the sync dependencies that lead to the members. */
  ghost function SyncIds(p: Plan, members: seq<NodeId>): set<ReservationId> {
    set id | id in p.syncs && p.syncs[id].target in members :: p.syncs[id].reservation
  }

  ghost function TransferIds(incoming: seq<DataDependency>): set<ReservationId> {
    set d | d in incoming :: d.reservation
  }

  /** The reservations a group works on: its members, its sync links, and the transfers to it. */
  ghost function GroupIds(p: Plan, group: CoAllocation): set<ReservationId> {
    MemberIds(p, group.members) + SyncIds(p, group.members) + TransferIds(group.incomingData)
  }

  /** What group k works on is its own: its members are nodes of k, and all data it waits for is for a member. */
  ghost predicate Owns(p: Plan, group: CoAllocation, k: GroupId) {
    && group.id == k && group.representative in group.members && Distinct(group.members)
    && (forall m :: m in group.members ==> m in p.nodes && m in p.groupOf && p.groupOf[m] == k)
    && (forall d :: d in group.incomingData ==> d in p.data.Values && d.target in group.members)
    && LinksDiffer(group.incomingData)
  }

  ghost predicate LinksDiffer(incoming: seq<DataDependency>) {
    forall i, j :: 0 <= i < j < |incoming| ==> incoming[i].reservation != incoming[j].reservation
  }

  ghost predicate SourceIn(p: Plan, done: set<GroupId>, d: DataDependency) {
    d.source in p.nodes && d.source in p.groupOf && p.groupOf[d.source] in done
  }

  /** The group k can be scheduled next: all it waits for comes from groups that are done. */
  ghost predicate Schedulable(p: Plan, group: CoAllocation, k: GroupId, done: set<GroupId>) {
    Owns(p, group, k) && k !in done && forall d :: d in group.incomingData ==> SourceIn(p, done, d)
  }

  /** Whatever a group in done waits for comes from a group in done. */
  ghost predicate DownwardClosed(p: Plan, groups: Groups, done: set<GroupId>) {
    forall k :: k in done ==>
      k in groups && Owns(p, groups[k], k) && forall d :: d in groups[k].incomingData ==> SourceIn(p, done, d)
  }

  /** Following the order, every group can be scheduled when its turn comes. */
  ghost predicate OrderSchedulable(p: Plan, groups: Groups, order: seq<GroupId>) {
    forall i :: 0 <= i < |order| ==>
      && order[i] in p.groupOf && p.groupOf[order[i]] == order[i] && order[i] in groups
      && Schedulable(p, groups[order[i]], order[i], Elements(order[..i]))
  }

  /** A dependency between known nodes that need not run at the same time. */
  ghost predicate Independent(p: Plan, d: DataDependency) {
    d.source in p.nodes && d.target in p.nodes && !SyncConnected(p.nodes.Keys, p.syncs, d.source, d.target)
  }

  lemma NodesAreNoLinks(p: Plan)
    requires Separate(p)
    ensures forall n :: n in p.nodes ==> p.nodes[n] !in SyncLinks(p) && p.nodes[n] !in DataLinks(p)
  {
  }

  /** All a group works on are known reservations, and its transfers touch neither nodes nor sync links. */
  lemma GroupIdsKnown(p: Plan, group: CoAllocation, k: GroupId)
    requires Owns(p, group, k)
    ensures MemberIds(p, group.members) <= p.nodes.Values && SyncIds(p, group.members) <= SyncLinks(p)
    ensures TransferIds(group.incomingData) <= DataLinks(p) && GroupIds(p, group) <= Known(p)
  {
    forall d | d in group.incomingData ensures d.reservation in DataLinks(p) {
      var id :| id in p.data && p.data[id] == d;
    }
  }

  /** Two groups never work on the same reservation. */
  lemma GroupsApart(p: Plan, a: CoAllocation, b: CoAllocation, j: GroupId, k: GroupId)
    requires Separate(p) && Owns(p, a, j) && Owns(p, b, k) && j != k
    ensures GroupIds(p, a) !! GroupIds(p, b)
  {
    GroupIdsKnown(p, a, j);
    GroupIdsKnown(p, b, k);
    forall d, e | d in a.incomingData && e in b.incomingData ensures d.reservation != e.reservation {
      var x :| x in p.data && p.data[x] == d;
      var y :| y in p.data && p.data[y] == e;
      assert d.target in a.members && e.target in b.members;
    }
    assert TransferIds(a.incomingData) !! TransferIds(b.incomingData);
    assert SyncIds(p, a.members) !! SyncIds(p, b.members);
    assert MemberIds(p, a.members) !! MemberIds(p, b.members);
  }

  /** A source in another group is not touched by a group. */
  lemma SourceApart(p: Plan, group: CoAllocation, k: GroupId, done: set<GroupId>, d: DataDependency)
    requires Separate(p) && Owns(p, group, k) && k !in done && SourceIn(p, done, d)
    ensures p.nodes[d.source] !in GroupIds(p, group)
  {
    GroupIdsKnown(p, group, k);
    assert p.nodes[d.source] !in MemberIds(p, group.members);
  }

  // ------------------------------------------------------------------------------------------- what stays arranged

  lemma ArrangedKept(a: Books, b: Books, known: set<ReservationId>, touched: set<ReservationId>,
                     id: ReservationId, start: int, end: int, isTransfer: bool)
    requires Kept(a, b, touched) && touched <= known && id !in touched
    requires Arranged(a, known, id, start, end, isTransfer)
    ensures Arranged(b, known, id, start, end, isTransfer)
  {
  }

  lemma SyncKept(p: Plan, a: Books, b: Books, touched: set<ReservationId>, sync: SyncDependency)
    requires Kept(a, b, touched) && touched <= Known(p) && Synced(p, a, sync)
    requires sync.reservation !in touched && p.nodes[sync.target] !in touched
    ensures Synced(p, b, sync)
  {
    hide Arranged, Known;
    var r := a.store[p.nodes[sync.target]];
    ArrangedKept(a, b, Known(p), touched, sync.reservation, r.assignedStart, r.assignedEnd, false);
  }

  lemma TransferKept(p: Plan, a: Books, b: Books, touched: set<ReservationId>, d: DataDependency)
    requires Kept(a, b, touched) && touched <= Known(p) && Transferred(p, a, d)
    requires d.reservation !in touched && p.nodes[d.source] !in touched && p.nodes[d.target] !in touched
    ensures Transferred(p, b, d)
  {
    hide Arranged, Known;
    ArrangedKept(a, b, Known(p), touched, d.reservation,
                 a.store[p.nodes[d.source]].assignedEnd, a.store[p.nodes[d.target]].assignedStart, true);
  }

  lemma SyncsKept(p: Plan, a: Books, b: Books, touched: set<ReservationId>, members: seq<NodeId>)
    requires Kept(a, b, touched) && touched <= Known(p) && SyncsLinked(p, a, members)
    requires touched !! SyncIds(p, members) && touched !! MemberIds(p, members)
    ensures SyncsLinked(p, b, members)
  {
    hide Kept, Synced, Known, SyncIds, MemberIds;
    forall id | id in p.syncs && p.syncs[id].source in members && p.syncs[id].target in members ensures Synced(p, b, p.syncs[id]) {
      MemberSynced(p, a, members, id);
      SyncKept(p, a, b, touched, p.syncs[id]);
    }
  }

  lemma MemberSynced(p: Plan, b: Books, members: seq<NodeId>, id: DependencyId)
    requires SyncsLinked(p, b, members) && id in p.syncs && p.syncs[id].source in members && p.syncs[id].target in members
    ensures Synced(p, b, p.syncs[id]) && p.syncs[id].reservation in SyncIds(p, members)
    ensures p.syncs[id].target in p.nodes && p.nodes[p.syncs[id].target] in MemberIds(p, members)
  {
  }

  lemma OnTimeKept(p: Plan, a: Store, b: Store, touched: set<ReservationId>, t: Terms, group: CoAllocation)
    requires Frame(a, b, touched) && OnTime(p, a, t, group) && group.representative in group.members
    requires touched !! MemberIds(p, group.members)
    ensures OnTime(p, b, t, group)
  {
    assert p.nodes[group.representative] in MemberIds(p, group.members);
  }

  /** What has been arranged for a group stays so while only other reservations are worked on. */
  lemma ServiceKept(p: Plan, a: Books, b: Books, t: Terms, touched: set<ReservationId>, group: CoAllocation, k: GroupId)
    requires t.speed != 0 && Owns(p, group, k) && GroupServed(p, a, t, group)
    requires Kept(a, b, touched) && touched <= Known(p) && touched !! GroupIds(p, group)
    requires forall d :: d in group.incomingData ==> d.source in p.nodes && p.nodes[d.source] !in touched
    ensures GroupServed(p, b, t, group)
  {
    hide Known, Transferred, SyncsLinked, OnTime, SyncIds;
    forall m | m in group.members ensures p.nodes[m] !in touched {
      assert p.nodes[m] in MemberIds(p, group.members);
    }
    forall d | d in group.incomingData ensures d.reservation !in touched {
      assert d.reservation in TransferIds(group.incomingData);
    }
    SyncsKept(p, a, b, touched, group.members);
    OnTimeKept(p, a.store, b.store, touched, t, group);
    forall d | d in group.incomingData ensures Transferred(p, b, d) {
      TransferKept(p, a, b, touched, d);
    }
    forall m, d | m in group.members && d in group.incomingData ensures DataArrives(p, b.store, t.speed, d, m) {
      assert DataArrives(p, a.store, t.speed, d, m);
    }
  }

  /** One more group has been scheduled; what the groups before it hold is as it was. */
  lemma ServeStep(p: Plan, a: Books, b: Books, t: Terms, groups: Groups, done: set<GroupId>, k: GroupId)
    requires t.speed != 0 && Separate(p) && k in groups && Schedulable(p, groups[k], k, done)
    requires DownwardClosed(p, groups, done) && AllServed(p, a, t, groups, done)
    requires Kept(a, b, GroupIds(p, groups[k])) && GroupServed(p, b, t, groups[k])
    ensures DownwardClosed(p, groups, done + {k}) && AllServed(p, b, t, groups, done + {k})
  {
    hide Separate, Kept, GroupServed, GroupIds, Known, Owns;
    GroupIdsKnown(p, groups[k], k);
    forall g | g in done ensures GroupServed(p, b, t, groups[g]) {
      GroupsApart(p, groups[k], groups[g], k, g);
      forall d | d in groups[g].incomingData ensures p.nodes[d.source] !in GroupIds(p, groups[k]) {
        SourceApart(p, groups[k], k, done, d);
      }
      ServiceKept(p, a, b, t, GroupIds(p, groups[k]), groups[g], g);
    }
  }

  lemma NothingDone(p: Plan, b: Books, t: Terms, groups: Groups)
    requires t.speed != 0
    ensures DownwardClosed(p, groups, {}) && AllServed(p, b, t, groups, {})
  {
  }

  /** The sources of the data a group waits for are booked. */
  lemma SourcesBooked(p: Plan, b: Books, t: Terms, groups: Groups, done: set<GroupId>, k: GroupId)
    requires t.speed != 0 && Partition(groups, p.groupOf) && k in groups && Schedulable(p, groups[k], k, done)
    requires AllServed(p, b, t, groups, done)
    ensures forall d :: d in groups[k].incomingData ==> d.source in p.nodes && p.nodes[d.source] in b.database
  {
    forall d | d in groups[k].incomingData ensures p.nodes[d.source] in b.database {
      assert SourceIn(p, done, d);
      assert d.source in groups[p.groupOf[d.source]].members;
      assert GroupServed(p, b, t, groups[p.groupOf[d.source]]);
    }
  }

  /** The data a group waits for: it comes from a different group, one that precedes it in the group graph. */
  lemma IncomingData(nodes: map<NodeId, ReservationId>, store: Store, data: DataDependencies, speed: int,
                     groupOf: map<NodeId, GroupId>, groups: Groups, k: GroupId, d: DataDependency)
    requires Partition(groups, groupOf) && EdgesListed(groups, data, groupOf, data.Keys)
    requires k in groups && d in groups[k].incomingData
    ensures d in data.Values && Crosses(groupOf, d) && groupOf[d.target] == k && groupOf[d.source] in groups
    ensures HasEdge(GroupGraph(nodes, store, data, speed, groups), groupOf[d.source], k)
  {
    IncomingListed(data, groupOf, groups, k);
    hide Partition, EdgesListed;
    var i :| 0 <= i < |groups[k].incomingData| && groups[k].incomingData[i] == d;
    var e := CoAllocationEdge(data, groupOf, groups, k, i);
    EdgeInGraph(nodes, store, data, speed, groups, groupOf[d.source], e);
  }

  lemma IncomingListed(data: DataDependencies, groupOf: map<NodeId, GroupId>, groups: Groups, k: GroupId)
    requires EdgesListed(groups, data, groupOf, data.Keys) && k in groups
    ensures |groups[k].incoming| == |groups[k].incomingData|
  {
    assert GroupListed(data, groupOf, data.Keys, k, groups[k]);
  }

  lemma CoAllocationEdge(data: DataDependencies, groupOf: map<NodeId, GroupId>, groups: Groups, k: GroupId, i: nat)
    returns (e: GroupDependency)
    requires Partition(groups, groupOf) && EdgesListed(groups, data, groupOf, data.Keys)
    requires k in groups && |groups[k].incoming| == |groups[k].incomingData| && i < |groups[k].incoming|
    ensures e.id in data && groups[k].incomingData[i] == data[e.id] && Crosses(groupOf, data[e.id])
    ensures groupOf[data[e.id].target] == k && groupOf[data[e.id].source] in groups
    ensures e in groups[groupOf[data[e.id].source]].outgoing && e.target == k
  {
    e := IncomingEdge(data, groupOf, groups, k, i);
  }

  /** No dependency between groups is forgotten: it is among the data its target group waits for. */
  lemma DependencyIsIncoming(data: DataDependencies, groupOf: map<NodeId, GroupId>, groups: Groups, id: DependencyId)
    requires Partition(groups, groupOf) && EdgesListed(groups, data, groupOf, data.Keys)
    requires id in data && Crosses(groupOf, data[id])
    ensures groupOf[data[id].target] in groups
    ensures data[id].target in groups[groupOf[data[id].target]].members
    ensures data[id] in groups[groupOf[data[id].target]].incomingData
  {
    var k := groupOf[data[id].target];
    assert GroupListed(data, groupOf, data.Keys, k, groups[k]);
    var e := GroupEdge(groupOf, id, data[id]);
    assert e in groups[k].incoming;
    var i :| 0 <= i < |groups[k].incoming| && groups[k].incoming[i] == e;
    assert groups[k].incomingData[i] == data[id];
  }

  /** The transfers to a group have links of their own. */
  lemma IncomingLinksDiffer(p: Plan, groups: Groups, k: GroupId)
    requires Separate(p) && EdgesListed(groups, p.data, p.groupOf, p.data.Keys) && k in groups
    ensures LinksDiffer(groups[k].incomingData)
  {
    var edges, carried := groups[k].incoming, groups[k].incomingData;
    assert GroupListed(p.data, p.groupOf, p.data.Keys, k, groups[k]);
    forall i, j | 0 <= i < j < |carried| ensures carried[i].reservation != carried[j].reservation {
      assert edges[i] in edges && edges[j] in edges && edges[i] != edges[j];
    }
  }

  /** The rank order schedules the source of every incoming dependency before its target. */
  lemma SourcesFirst(p: Plan, store: Store, speed: int, groups: Groups, order: seq<GroupId>, i: nat, d: DataDependency)
    requires Partition(groups, p.groupOf) && EdgesListed(groups, p.data, p.groupOf, p.data.Keys) && p.groupOf.Keys == p.nodes.Keys
    requires ListsOnce(order, groups.Keys) && Topological(GroupGraph(p.nodes, store, p.data, speed, groups), order)
    requires i < |order| && order[i] in groups && d in groups[order[i]].incomingData
    ensures SourceIn(p, Elements(order[..i]), d)
    ensures d in p.data.Values && d.target in p.nodes && p.groupOf[d.target] == order[i]
  {
    hide Partition, EdgesListed, GroupGraph, HasEdge;
    IncomingData(p.nodes, store, p.data, speed, p.groupOf, groups, order[i], d);
    var u := p.groupOf[d.source];
    assert u in order;
    var j :| 0 <= j < |order| && order[j] == u;
    assert order[..i][j] == u;
  }

  lemma RankOrderSchedulable(p: Plan, store: Store, speed: int, groups: Groups, order: seq<GroupId>)
    requires Separate(p) && p.groupOf.Keys == p.nodes.Keys
    requires Partition(groups, p.groupOf) && EdgesListed(groups, p.data, p.groupOf, p.data.Keys)
    requires ListsOnce(order, groups.Keys) && Topological(GroupGraph(p.nodes, store, p.data, speed, groups), order)
    ensures OrderSchedulable(p, groups, order)
  {
    hide Separate, EdgesListed, GroupGraph, Topological, Schedulable, Partition, ListsOnce;
    forall i | 0 <= i < |order|
      ensures order[i] in p.groupOf && p.groupOf[order[i]] == order[i] && order[i] in groups
      ensures Schedulable(p, groups[order[i]], order[i], Elements(order[..i]))
    {
      NextSchedulable(p, store, speed, groups, order, i);
    }
  }

  lemma NextSchedulable(p: Plan, store: Store, speed: int, groups: Groups, order: seq<GroupId>, i: nat)
    requires Separate(p) && p.groupOf.Keys == p.nodes.Keys
    requires Partition(groups, p.groupOf) && EdgesListed(groups, p.data, p.groupOf, p.data.Keys)
    requires ListsOnce(order, groups.Keys) && Topological(GroupGraph(p.nodes, store, p.data, speed, groups), order)
    requires i < |order|
    ensures order[i] in p.groupOf && p.groupOf[order[i]] == order[i] && order[i] in groups
    ensures Schedulable(p, groups[order[i]], order[i], Elements(order[..i]))
  {
    hide Separate, EdgesListed, GroupGraph, Topological;
    assert order[i] in order;
    var group := groups[order[i]];
    assert order[i] !in order[..i];
    assert order[i] in groups[p.groupOf[order[i]]].members;
    IncomingLinksDiffer(p, groups, order[i]);
    forall d | d in group.incomingData
      ensures SourceIn(p, Elements(order[..i]), d) && d in p.data.Values && d.target in group.members
    {
      SourcesFirst(p, store, speed, groups, order, i, d);
    }
  }

  lemma Turn(p: Plan, groups: Groups, order: seq<GroupId>, i: nat)
    requires OrderSchedulable(p, groups, order) && i < |order|
    ensures order[i] in p.groupOf && p.groupOf[order[i]] == order[i] && order[i] in groups
    ensures Schedulable(p, groups[order[i]], order[i], Elements(order[..i]))
    ensures groups[order[i]].id == order[i]
  {
  }

  lemma SyncedTogether(p: Plan, id: DependencyId)
    requires id in p.syncs && p.syncs[id].source in p.nodes && p.syncs[id].target in p.nodes
    ensures SyncConnected(p.nodes.Keys, p.syncs, p.syncs[id].source, p.syncs[id].target)
  {
    var rel, path := SyncPairs(p.nodes.Keys, p.syncs, p.syncs.Keys), [p.syncs[id].source, p.syncs[id].target];
    assert (p.syncs[id].source, p.syncs[id].target) in rel;
    assert Connectivity.Chain(rel, path);
  }

  /** All nodes are booked, all groups run on time, and all dependencies are met. */
  ghost predicate AllMet(p: Plan, b: Books, t: Terms, groups: Groups)
    requires t.speed != 0
  {
    && (forall n :: n in p.nodes ==> p.nodes[n] in b.database)
    && (forall k :: k in groups ==> OnTime(p, b.store, t, groups[k]))
    && (forall id :: id in p.syncs && p.syncs[id].source in p.nodes && p.syncs[id].target in p.nodes ==> Synced(p, b, p.syncs[id]))
    && (forall id :: id in p.data && Independent(p, p.data[id]) ==>
          DataArrives(p, b.store, t.speed, p.data[id], p.data[id].target) && Transferred(p, b, p.data[id]))
  }

  lemma AllSynced(p: Plan, b: Books, t: Terms, groups: Groups)
    requires t.speed != 0 && GroupedBySync(p.nodes.Keys, p.syncs, p.groupOf) && Partition(groups, p.groupOf)
    requires forall k :: k in groups ==> GroupServed(p, b, t, groups[k])
    ensures forall id :: id in p.syncs && p.syncs[id].source in p.nodes && p.syncs[id].target in p.nodes ==> Synced(p, b, p.syncs[id])
  {
    hide SyncConnected, Synced, OnTime, GroupArrives, GroupSupplied;
    forall id | id in p.syncs && p.syncs[id].source in p.nodes && p.syncs[id].target in p.nodes ensures Synced(p, b, p.syncs[id]) {
      SyncedTogether(p, id);
      assert SyncsLinked(p, b, groups[p.groupOf[p.syncs[id].source]].members);
    }
  }

  /** Once all groups are done, all dependencies between groups are met. */
  lemma AllAccepted(p: Plan, b: Books, t: Terms, groups: Groups, order: seq<GroupId>)
    requires t.speed != 0 && GroupedBySync(p.nodes.Keys, p.syncs, p.groupOf)
    requires Partition(groups, p.groupOf) && EdgesListed(groups, p.data, p.groupOf, p.data.Keys)
    requires ListsOnce(order, groups.Keys) && AllServed(p, b, t, groups, Elements(order))
    ensures AllMet(p, b, t, groups)
  {
    hide EdgesListed, SyncConnected, OnTime, Synced, Transferred, DataArrives;
    forall k | k in groups ensures GroupServed(p, b, t, groups[k]) {
      assert k in order;
    }
    AllSynced(p, b, t, groups);
    forall n | n in p.nodes ensures p.nodes[n] in b.database {
      assert GroupBooked(p, b.database, groups[p.groupOf[n]]);
    }
    forall id | id in p.data && Independent(p, p.data[id])
      ensures DataArrives(p, b.store, t.speed, p.data[id], p.data[id].target) && Transferred(p, b, p.data[id])
    {
      assert Crosses(p.groupOf, p.data[id]);
      DependencyIsIncoming(p.data, p.groupOf, groups, id);
      assert GroupServed(p, b, t, groups[p.groupOf[p.data[id].target]]);
    }
  }

  // ------------------------------------------------------------------------------------------- what may stop a group

  /** The time from which a group can run: the start of the workflow, or when the last of its data has arrived. */
  ghost function ReadyAt(p: Plan, store: Store, from: int, speed: int, incoming: seq<DataDependency>): int
    requires speed != 0 && SourcesKnown(p, store, incoming)
  {
    if incoming == [] then from
    else
      var d := incoming[|incoming| - 1];
      Max(ReadyAt(p, store, from, speed, incoming[..|incoming| - 1]), store[p.nodes[d.source]].assignedEnd + TransferTime(d.size, speed))
  }

  ghost predicate SourcesKnown(p: Plan, store: Store, incoming: seq<DataDependency>) {
    forall d :: d in incoming ==> d.source in p.nodes && p.nodes[d.source] in store
  }

  lemma {:induction false} ReadyAtIsMaximum(p: Plan, store: Store, from: int, speed: int, incoming: seq<DataDependency>)
    requires speed != 0 && SourcesKnown(p, store, incoming)
    ensures var ready := ReadyAt(p, store, from, speed, incoming);
            && ready >= from
            && (forall d :: d in incoming ==> ready >= store[p.nodes[d.source]].assignedEnd + TransferTime(d.size, speed))
            && (ready == from || exists d :: d in incoming && ready == store[p.nodes[d.source]].assignedEnd + TransferTime(d.size, speed))
  {
    if incoming != [] {
      var init, last := incoming[..|incoming| - 1], incoming[|incoming| - 1];
      assert incoming == init + [last];
      ReadyAtIsMaximum(p, store, from, speed, init);
      hide TransferTime;
      assert last in incoming;
    }
  }

  /** Why the scheduling of a group stops. */
  datatype Cause =
    | Late
    | NodeRefused(time: nat)
    | MemberRefused(asked: Books, time: nat, member: NodeId)
    | NotALink

  /** The deadline is missed even if the representative runs as soon as the group is ready. */
  ghost predicate IsLate(p: Plan, store: Store, t: Terms, group: CoAllocation) {
    && t.speed != 0 && SourcesKnown(p, store, group.incomingData)
    && group.representative in p.nodes && p.nodes[group.representative] in store
    && ReadyAt(p, store, t.start, t.speed, group.incomingData) + store[p.nodes[group.representative]].duration > t.deadline
  }

  /** The record with its booking interval set. */
  function Offered(store: Store, id: ReservationId, start: int, end: int): Store
    requires id in store
  {
    store[id := store[id].(bookingStart := start, bookingEnd := end)]
  }

  /** The best component refuses the node, and refuses it again after its request has been opened once more. */
  ghost predicate RefusedTwice(grid: Grid, asked: Store, id: ReservationId, time: nat) {
    var a := grid.best(time, asked, id);
    && a.component.None? && id in a.store
    && grid.best(time + 1, a.store[id := a.store[id].(state := Open)], id).component.None?
  }

  /** The first component that is asked refuses the member for the time the representative has been given. */
  ghost predicate RefusesMember(p: Plan, grid: Grid, b: Books, members: seq<NodeId>, first: ReservationId, asked: Books, time: nat, m: NodeId) {
    && m in members && m in p.nodes && p.nodes[m] != first && Kept(b, asked, MemberIds(p, members))
    && first in asked.store && first in asked.database && p.nodes[m] in asked.store
    && asked.store[p.nodes[m]].bookingStart == asked.store[first].assignedStart
    && asked.store[p.nodes[m]].bookingEnd == asked.store[first].assignedEnd
    && grid.first(time, asked.store, p.nodes[m]).component.None?
  }

  /** There is cause to stop at the group, as things stand before it is scheduled. */
  ghost predicate Stops(p: Plan, grid: Grid, links: set<ReservationId>, b: Books, t: Terms, group: CoAllocation, why: Cause) {
    && t.speed != 0 && SourcesKnown(p, b.store, group.incomingData)
    && group.representative in p.nodes && p.nodes[group.representative] in b.store
    && var first := p.nodes[group.representative];
       match why
       case Late => IsLate(p, b.store, t, group)
       case NodeRefused(time) =>
         RefusedTwice(grid, Offered(b.store, first, ReadyAt(p, b.store, t.start, t.speed, group.incomingData), t.deadline), first, time)
       case MemberRefused(asked, time, m) => RefusesMember(p, grid, b, group.members, first, asked, time, m)
       case NotALink => !(SyncIds(p, group.members) + TransferIds(group.incomingData) <= links)
  }

  /** Where the scheduling of a workflow has stopped: before which group, after which others, and why. */
  datatype Stop = Stop(at: Books, done: set<GroupId>, group: GroupId, cause: Cause)

  /** The reservations that the groups have worked on. */
  ghost function HeldBy(p: Plan, groups: Groups, done: set<GroupId>): set<ReservationId> {
    set k, x | k in done && k in groups && x in GroupIds(p, groups[k]) :: x
  }

  /** All groups before have been served, all that the group waits for comes from them, and there is cause to stop at it. */
  ghost predicate StoppedAt(p: Plan, grid: Grid, links: set<ReservationId>, initial: Books, t: Terms, groups: Groups, stop: Stop)
    requires t.speed != 0
  {
    && stop.group in groups && Schedulable(p, groups[stop.group], stop.group, stop.done) && DownwardClosed(p, groups, stop.done)
    && Kept(initial, stop.at, HeldBy(p, groups, stop.done)) && AllServed(p, stop.at, t, groups, stop.done)
    && Stops(p, grid, links, stop.at, t, groups[stop.group], stop.cause)
  }

  /** The groups done are those before the group in the list. */
  ghost predicate InTurn(order: seq<GroupId>, stop: Stop) {
    exists i :: 0 <= i < |order| && order[i] == stop.group && stop.done == Elements(order[..i])
  }

  /** No group done ranks below the one stopped at, and no other above it. */
  ghost predicate HighestFirst(groups: Groups, stop: Stop) {
    stop.group in groups && forall k :: k in groups ==>
      if k in stop.done then groups[k].rankUpward >= groups[stop.group].rankUpward
      else groups[k].rankUpward <= groups[stop.group].rankUpward
  }

  lemma TurnsByRank(groups: Groups, order: seq<GroupId>, stop: Stop)
    requires ListsOnce(order, groups.Keys) && SortedByRank(groups, order) && InTurn(order, stop)
    ensures HighestFirst(groups, stop)
  {
    var i :| 0 <= i < |order| && order[i] == stop.group && stop.done == Elements(order[..i]);
    assert order[i] in order;
    forall k | k in groups
      ensures if k in stop.done then groups[k].rankUpward >= groups[stop.group].rankUpward
              else groups[k].rankUpward <= groups[stop.group].rankUpward
    {
      assert k in order;
      var j :| 0 <= j < |order| && order[j] == k;
      if j < i {
        assert order[..i][j] == k;
      }
    }
  }

  /** Every component takes whatever it is asked for. */
  ghost predicate Willing(grid: Grid) {
    forall t: nat, store: Store, id: ReservationId | id in store ::
      grid.best(t, store, id).component.Some? && grid.first(t, store, id).component.Some?
  }

  /** Among willing components and real links, only a missed deadline stops a group. */
  lemma OnlyLateStops(p: Plan, grid: Grid, links: set<ReservationId>, initial: Books, t: Terms, groups: Groups, stop: Stop)
    requires t.speed != 0 && StoppedAt(p, grid, links, initial, t, groups, stop)
    requires Willing(grid) && DataLinks(p) + SyncLinks(p) <= links
    ensures stop.cause.Late? && IsLate(p, stop.at.store, t, groups[stop.group])
  {
    GroupIdsKnown(p, groups[stop.group], stop.group);
  }

  /** No data passes between groups, and every representative can run within the booking interval of the workflow. */
  ghost predicate Unhindered(p: Plan, grid: Grid, links: set<ReservationId>, store: Store, t: Terms, groups: Groups) {
    && Willing(grid) && DataLinks(p) + SyncLinks(p) <= links
    && forall k :: k in groups ==>
         && groups[k].incomingData == [] && groups[k].representative in p.nodes && p.nodes[groups[k].representative] in store
         && t.start + store[p.nodes[groups[k].representative]].duration <= t.deadline
  }

  /** The representative of the group before which scheduling stopped is as it was in the beginning. */
  lemma RepresentativeUntouched(p: Plan, grid: Grid, links: set<ReservationId>, initial: Books, t: Terms, groups: Groups, stop: Stop)
    requires t.speed != 0 && Separate(p) && StoppedAt(p, grid, links, initial, t, groups, stop)
    ensures var rep := p.nodes[groups[stop.group].representative];
            rep in initial.store ==> rep in stop.at.store && stop.at.store[rep].duration == initial.store[rep].duration
  {
    var rep := p.nodes[groups[stop.group].representative];
    InMemberIds(p, groups[stop.group].members, groups[stop.group].representative);
    forall k | k in stop.done && k in groups ensures rep !in GroupIds(p, groups[k]) {
      GroupsApart(p, groups[stop.group], groups[k], stop.group, k);
      assert rep in GroupIds(p, groups[stop.group]);
    }
  }

  /** Then nothing stops it. */
  lemma NothingStops(p: Plan, grid: Grid, links: set<ReservationId>, initial: Books, t: Terms, groups: Groups, stop: Stop)
    requires t.speed != 0 && Separate(p)
    ensures Unhindered(p, grid, links, initial.store, t, groups) ==> !StoppedAt(p, grid, links, initial, t, groups, stop)
  {
    if Unhindered(p, grid, links, initial.store, t, groups) && StoppedAt(p, grid, links, initial, t, groups, stop) {
      RepresentativeUntouched(p, grid, links, initial, t, groups, stop);
      OnlyLateStops(p, grid, links, initial, t, groups, stop);
    }
  }

  lemma HeldGrows(p: Plan, groups: Groups, done: set<GroupId>, k: GroupId)
    requires k in groups
    ensures HeldBy(p, groups, done) <= HeldBy(p, groups, done + {k}) && GroupIds(p, groups[k]) <= HeldBy(p, groups, done + {k})
    ensures HeldBy(p, groups, {}) == {}
  {
  }

  // ------------------------------------------------------------------------------------------- links and members

  ghost predicate CoversBookings(base: Reservation, b: Books) {
    forall id :: id in b.database && id in b.store ==> Covers(base, b.store[id])
  }

  /** One more booking, covered as well. */
  lemma BookingCovered(base: Reservation, base': Reservation, a: Books, b: Books, id: ReservationId)
    requires CoversBookings(base, a) && Widened(base, base') && Frame(a.store, b.store, {id})
    requires a.database.Keys <= a.store.Keys && b.database.Keys == a.database.Keys + {id} && id in b.store && Covers(base', b.store[id])
    ensures CoversBookings(base', b)
  {
  }

  /** What is booked stays covered while other reservations are worked on. */
  lemma StillCovered(base: Reservation, base': Reservation, a: Books, b: Books, touched: set<ReservationId>)
    requires CoversBookings(base, a) && Widened(base, base') && Frame(a.store, b.store, touched)
    requires a.database.Keys <= a.store.Keys && b.database == a.database && touched !! a.database.Keys
    ensures CoversBookings(base', b)
  {
  }

  /** A link within one component, or without data: committed on the spot, and a file transfer takes no time. */
  function DummyLink(r: Reservation, start: int, end: int, isTransfer: bool): Reservation {
    var until := if isTransfer then start else end;
    WithTaskDuration(WithReservedCapacity(r.(state := Committed, assignedStart := start, assignedEnd := until), 0), until - start)
  }

  /** A link across components: file transfers are moldable and start out as short as possible. */
  function LinkRequest(r: Reservation, start: int, end: int, isTransfer: bool): Reservation {
    var open := r.(state := Open, bookingStart := start, bookingEnd := end, moldable := isTransfer);
    if isTransfer then Stretched(open, 1) else WithTaskDuration(open, end - start)
  }

  /** A segment of a link: a copy that is committed for the interval and takes no capacity. */
  function Segment(r: Reservation, start: int, end: int): Reservation {
    WithReservedCapacity(r.(state := Committed, assignedStart := start, assignedEnd := end), 0)
  }

  function Chain(virtuals: Virtuals, id: ReservationId): seq<ReservationId> {
    if id in virtuals then virtuals[id] else []
  }

  /** The link request r has been split: four new segments have been added to it, and nothing else has changed. */
  ghost predicate Split(a: Books, b: Books, id: ReservationId, r: Reservation, start: int, end: int) {
    exists segments: seq<ReservationId> ::
      && |segments| == 4 && Distinct(segments) && (forall x :: x in segments ==> x !in a.store)
      && b.virtuals == a.virtuals[id := Chain(a.virtuals, id) + segments]
      && b.store == WithSegments(a.store[id := r], segments, Segment(r, start, end))
  }

  ghost function WithSegments(store: Store, segments: seq<ReservationId>, segment: Reservation): Store {
    map x | x in store.Keys + Elements(segments) :: if x in segments then segment else store[x]
  }

  lemma SplitSpans(a: Books, b: Books, known: set<ReservationId>, id: ReservationId, r: Reservation, start: int, end: int)
    requires Split(a, b, id, r, start, end) && id in a.store && known <= a.store.Keys
    ensures Spanned(b, known, id, start, end) && b.store[id] == r
    ensures forall s :: s in LastFour(b.virtuals[id]) ==> b.store[s].state == Committed
    ensures Frame(a.store, b.store, {id}) && b.virtuals.Keys == a.virtuals.Keys + {id}
    ensures forall x :: x in a.virtuals && x != id ==> b.virtuals[x] == a.virtuals[x]
    ensures AllTracked(a) ==> AllTracked(b)
  {
    var segments: seq<ReservationId> :|
      && |segments| == 4 && Distinct(segments) && (forall x :: x in segments ==> x !in a.store)
      && b.virtuals == a.virtuals[id := Chain(a.virtuals, id) + segments]
      && b.store == WithSegments(a.store[id := r], segments, Segment(r, start, end));
    assert LastFour(b.virtuals[id]) == segments;
  }

  lemma DummyArranged(b: Books, known: set<ReservationId>, id: ReservationId, r: Reservation, start: int, end: int, isTransfer: bool)
    requires id in b.store && b.store[id] == DummyLink(r, start, end, isTransfer)
    ensures Arranged(b, known, id, start, end, isTransfer) && b.store[id].state == Committed
    ensures b.store[id] == r.(state := Committed, assignedStart := start, assignedEnd := if isTransfer then start else end,
                              capacity := 0, work := 0, duration := if isTransfer then 0 else end - start)
  {
  }

  lemma RequestArranged(b: Books, known: set<ReservationId>, id: ReservationId, r: Reservation, start: int, end: int, isTransfer: bool)
    requires id in b.store && b.store[id] == LinkRequest(r, start, end, isTransfer) && r.capacity != 0
    requires Spanned(b, known, id, start, end)
    ensures Arranged(b, known, id, start, end, isTransfer) && b.store[id].state == Open
  {
  }

  /** The reservations of the members, but for the one given. */
  ghost function OthersThan(p: Plan, members: seq<NodeId>, first: ReservationId): set<ReservationId> {
    MemberIds(p, members) - {first}
  }

  lemma NoMembers(p: Plan, members: seq<NodeId>, first: ReservationId)
    ensures OthersThan(p, members[..0], first) == {}
  {
  }

  lemma OthersGrow(p: Plan, members: seq<NodeId>, first: ReservationId, i: nat)
    requires i < |members| && members[i] in p.nodes && Separate(p) && Distinct(members)
    ensures var before, id := OthersThan(p, members[..i], first), p.nodes[members[i]];
            && OthersThan(p, members[..i + 1], first) == (if id == first then before else before + {id})
            && OthersThan(p, members[..i + 1], first) <= OthersThan(p, members, first) && id !in before
  {
    assert members[..i + 1] == members[..i] + [members[i]];
    assert MemberIds(p, members[..i + 1]) == MemberIds(p, members[..i]) + {p.nodes[members[i]]};
  }

  lemma AllMembers(p: Plan, members: seq<NodeId>, first: ReservationId, touched: set<ReservationId>, booked: set<ReservationId>)
    requires touched == OthersThan(p, members, first) && touched <= booked && first in booked
    ensures forall m :: m in members && m in p.nodes ==> p.nodes[m] in booked
  {
    forall m | m in members && m in p.nodes ensures p.nodes[m] in booked {
      InMemberIds(p, members, m);
    }
  }

  lemma OneMoreWithin(a: Store, b: Store, ids: set<ReservationId>, id: ReservationId, start: int, end: int, horizon: int)
    requires AllWithin(a, ids, start, end, horizon) && Frame(a, b, {id}) && id !in ids
    requires id in b && Within(b[id], start, end, horizon)
    ensures AllWithin(b, ids + {id}, start, end, horizon)
  {
  }

  ghost function PlanOf(w: Workflow): Plan {
    Plan(w.nodes, w.data, w.syncs, w.groupOf)
  }

  lemma SplitInFour(x: Books, y: Books, id: ReservationId, r: Reservation, start: int, end: int,
                    a: ReservationId, b: ReservationId, c: ReservationId, d: ReservationId)
    requires id in x.store && a !in x.store && b !in x.store && c !in x.store && d !in x.store && Distinct([a, b, c, d])
    requires var s := Segment(r, start, end); y.store == x.store[id := r][a := s][b := s][c := s][d := s]
    requires y.virtuals == x.virtuals[id := Chain(x.virtuals, id) + [a, b, c, d]]
    ensures Split(x, y, id, r, start, end)
  {
    var segments := [a, b, c, d];
    assert y.store == WithSegments(x.store[id := r], segments, Segment(r, start, end));
  }

  /** A booking for one node, or the refusal of one. */
  lemma OneBooking(p: Plan, had: set<ReservationId>, a: Books, booked: set<ReservationId>, b: Books, id: ReservationId, ok: bool)
    requires Orderly(p, had, a) && id in p.nodes.Values && id in a.store && Frame(a.store, b.store, {id}) && b.virtuals == a.virtuals
    requires booked == had + (if ok then {id} else {}) && b.database.Keys == a.database.Keys + (if ok then {id} else {})
    ensures Orderly(p, booked, b) && Kept(a, b, {id})
  {
  }

  lemma BookedKnown(p: Plan, booked: set<ReservationId>, b: Books)
    requires Orderly(p, booked, b)
    ensures b.database.Keys <= b.store.Keys && b.database.Keys <= p.nodes.Values
  {
  }

  lemma WidenedReflexive(a: Reservation)
    ensures Widened(a, a)
  {
  }

  lemma UpdateCovers(a: Reservation, r: Reservation)
    ensures Widened(a, Extended(a, r)) && Covers(Extended(a, r), r)
  {
  }

  lemma WidenedFurther(a: Reservation, b: Reservation, c: Reservation)
    requires Widened(a, b) && Widened(b, c)
    ensures Widened(a, c)
  {
  }

  /** With all nodes booked, all are covered, whatever becomes of the workflow's own state. */
  lemma AllCovered(p: Plan, b: Books, t: Terms, groups: Groups, base: Reservation)
    requires t.speed != 0 && AllMet(p, b, t, groups) && CoversBookings(base, b)
    ensures forall n, state :: n in p.nodes && p.nodes[n] in b.store ==> Covers(base.(state := state), b.store[p.nodes[n]])
  {
  }

  /** Work on transfers leaves the bookings covered. */
  lemma TransfersCovered(p: Plan, booked: set<ReservationId>, base: Reservation, base': Reservation, a: Books, b: Books, ids: set<ReservationId>)
    requires Separate(p) && ids <= DataLinks(p) && Orderly(p, booked, b) && b.database == a.database
    requires CoversBookings(base, a) && Widened(base, base') && Kept(a, b, ids) && a.database.Keys <= a.store.Keys
    ensures CoversBookings(base', b)
  {
    StillCovered(base, base', a, b, ids);
  }

  /** What the members of a group may be refused for. */
  ghost predicate GroupRefused(p: Plan, grid: Grid, links: set<ReservationId>, b: Books, offered: Store, group: CoAllocation, why: Cause) {
    && group.representative in p.nodes
    && var first := p.nodes[group.representative];
       match why
       case Late => false
       case NodeRefused(time) => RefusedTwice(grid, offered, first, time)
       case MemberRefused(asked, time, m) => RefusesMember(p, grid, b, group.members, first, asked, time, m)
       case NotALink => !(SyncIds(p, group.members) <= links)
  }

  /** What scheduling the nodes of a group and the links between them comes to. */
  ghost predicate GroupTried(p: Plan, grid: Grid, links: set<ReservationId>, a: Books, offered: Store, b: Books,
                             base: Reservation, base': Reservation, t: Terms, group: CoAllocation, ok: bool, why: Cause) {
    && Kept(a, b, MemberIds(p, group.members) + SyncIds(p, group.members)) && Widened(base, base')
    && if ok then
         && GroupBooked(p, b.database, group) && OnTime(p, b.store, t, group) && SyncsLinked(p, b, group.members)
         && CoversBookings(base', b)
       else GroupRefused(p, grid, links, a, offered, group, why)
  }

  lemma Tried(p: Plan, grid: Grid, links: set<ReservationId>, a: Books, offered: Store, b: Books,
              base: Reservation, base': Reservation, t: Terms, group: CoAllocation, ok: bool, why: Cause)
    requires GroupTried(p, grid, links, a, offered, b, base, base', t, group, ok, why)
    ensures Kept(a, b, MemberIds(p, group.members) + SyncIds(p, group.members)) && Widened(base, base')
    ensures ok ==>
      && GroupBooked(p, b.database, group) && OnTime(p, b.store, t, group) && SyncsLinked(p, b, group.members)
      && CoversBookings(base', b)
    ensures !ok ==> GroupRefused(p, grid, links, a, offered, group, why)
  {
  }

  lemma NodesFail(p: Plan, grid: Grid, links: set<ReservationId>, s0: Books, s1: Books, base: Reservation, base': Reservation,
                  t: Terms, group: CoAllocation, why: Cause)
    requires Kept(s0, s1, MemberIds(p, group.members)) && Widened(base, base')
    requires GroupRefused(p, grid, links, s0, s0.store, group, why)
    ensures GroupTried(p, grid, links, s0, s0.store, s1, base, base', t, group, false, why)
  {
    KeptWiden(s0, s1, MemberIds(p, group.members), MemberIds(p, group.members) + SyncIds(p, group.members));
  }

  /** Sync links are worked on after the nodes of the group, and leave those as they are. */
  lemma SyncsAfterNodes(p: Plan, grid: Grid, links: set<ReservationId>, booked: set<ReservationId>, base0: Reservation, base1: Reservation,
                        base2: Reservation, s0: Books, s1: Books, s2: Books, t: Terms, group: CoAllocation, ok: bool)
    requires Separate(p) && Owns(p, group, group.id) && Orderly(p, booked, s1) && s2.database == s1.database
    requires Kept(s0, s1, MemberIds(p, group.members)) && Kept(s1, s2, SyncIds(p, group.members))
    requires GroupBooked(p, s1.database, group) && OnTime(p, s1.store, t, group) && CoversBookings(base1, s1)
    requires Widened(base0, base1) && Widened(base1, base2)
    requires if ok then SyncsLinked(p, s2, group.members) else !(SyncIds(p, group.members) <= links)
    ensures GroupTried(p, grid, links, s0, s0.store, s2, base0, base2, t, group, ok, NotALink)
  {
    var ids, syncs := MemberIds(p, group.members), SyncIds(p, group.members);
    KeptChain(s0, s1, s2, ids, syncs, ids + syncs);
    KeptTimes(s1, s2, syncs);
    WidenedFurther(base0, base1, base2);
    GroupIdsKnown(p, group, group.id);
    BookedKnown(p, booked, s1);
    MembersApart(p, group, s1.database.Keys);
    UnlinkedRefusal(p, grid, links, s0, s0.store, group);
    hide Separate, Frame, MemberIds, SyncIds, Widened, CoversBookings, Kept, Orderly, OnTime, SyncsLinked, GroupBooked, GroupRefused;
    OnTimeKept(p, s1.store, s2.store, syncs, t, group);
    StillCovered(base1, base2, s1, s2, syncs);
  }

  lemma UnlinkedRefusal(p: Plan, grid: Grid, links: set<ReservationId>, b: Books, offered: Store, group: CoAllocation)
    requires group.representative in p.nodes
    ensures !(SyncIds(p, group.members) <= links) ==> GroupRefused(p, grid, links, b, offered, group, NotALink)
  {
  }

  lemma NodeRefusal(p: Plan, grid: Grid, links: set<ReservationId>, b: Books, group: CoAllocation, time: nat)
    requires group.representative in p.nodes && RefusedTwice(grid, b.store, p.nodes[group.representative], time)
    ensures GroupRefused(p, grid, links, b, b.store, group, NodeRefused(time))
  {
  }

  lemma MemberRefusal(p: Plan, grid: Grid, links: set<ReservationId>, a: Books, b: Books, group: CoAllocation, why: Cause)
    requires group.representative in p.nodes && why.MemberRefused? && Kept(a, b, MemberIds(p, group.members))
    requires RefusesMember(p, grid, b, group.members, p.nodes[group.representative], why.asked, why.time, why.member)
    ensures GroupRefused(p, grid, links, a, a.store, group, why)
  {
    RefusalKept(p, grid, a, b, group.members, p.nodes[group.representative], why.asked, why.time, why.member);
  }

  /** The representative is booked as the terms demand, and the members for its time. */
  lemma GroupIsReserved(p: Plan, s0: Books, s1: Books, s2: Books, t: Terms, group: CoAllocation)
    requires group.representative in group.members && (forall m :: m in group.members ==> m in p.nodes && p.nodes[m] in s2.database)
    requires var first := p.nodes[group.representative];
             && first in s0.store && first in s1.store && HasTerms(s0.store[first], t) && s1.store[first].duration == s0.store[first].duration
             && Kept(s1, s2, MemberIds(p, group.members) - {first})
             && s1.store[first].assignedStart >= s0.store[first].bookingStart
             && (HasRoom(s0.store[first], t.horizon) ==> s1.store[first].assignedEnd <= s0.store[first].bookingEnd)
             && AllWithin(s2.store, MemberIds(p, group.members) - {first}, s1.store[first].assignedStart, s1.store[first].assignedEnd, t.horizon)
    ensures GroupBooked(p, s2.database, group) && OnTime(p, s2.store, t, group)
  {
    var first := p.nodes[group.representative];
    InMemberIds(p, group.members, group.representative);
    KeptTimes(s1, s2, MemberIds(p, group.members) - {first});
    hide Kept, MemberIds, AllWithin;
    FirstWithin(s2.store, MemberIds(p, group.members), first, t.horizon);
  }

  lemma MemberStops(p: Plan, grid: Grid, a: Books, b: Books, members: seq<NodeId>, first: ReservationId, touched: set<ReservationId>,
                    m: NodeId, time: nat)
    requires m in members && m in p.nodes && p.nodes[m] != first && Kept(a, b, touched) && touched <= OthersThan(p, members, first)
    requires first in a.store && first in a.database && p.nodes[m] in b.store
    requires var offered := Offered(b.store, p.nodes[m], a.store[first].assignedStart, a.store[first].assignedEnd);
             grid.first(time, offered, p.nodes[m]).component.None?
    ensures var offered := Offered(b.store, p.nodes[m], a.store[first].assignedStart, a.store[first].assignedEnd);
            RefusesMember(p, grid, a, members, first, b.(store := offered), time, m)
  {
    InMemberIds(p, members, m);
  }

  lemma RefusalKept(p: Plan, grid: Grid, a: Books, b: Books, members: seq<NodeId>, first: ReservationId, asked: Books, time: nat, m: NodeId)
    requires Kept(a, b, MemberIds(p, members)) && RefusesMember(p, grid, b, members, first, asked, time, m)
    ensures RefusesMember(p, grid, a, members, first, asked, time, m)
  {
    KeptChain(a, b, asked, MemberIds(p, members), MemberIds(p, members), MemberIds(p, members));
  }

  lemma RefusedBefore(p: Plan, grid: Grid, links: set<ReservationId>, a: Books, b: Books, group: CoAllocation, why: Cause)
    requires Kept(a, b, MemberIds(p, group.members)) && GroupRefused(p, grid, links, b, b.store, group, why)
    ensures GroupRefused(p, grid, links, a, b.store, group, why)
  {
    hide RefusesMember;
    if why.MemberRefused? {
      RefusalKept(p, grid, a, b, group.members, p.nodes[group.representative], why.asked, why.time, why.member);
    }
  }

  /** Seen from before the booking interval of the representative was set. */
  lemma TriedBefore(p: Plan, grid: Grid, links: set<ReservationId>, a: Books, asked: Books, b: Books, base: Reservation, base': Reservation,
                    t: Terms, group: CoAllocation, ok: bool, why: Cause)
    requires Kept(a, asked, MemberIds(p, group.members)) && GroupTried(p, grid, links, asked, asked.store, b, base, base', t, group, ok, why)
    ensures GroupTried(p, grid, links, a, asked.store, b, base, base', t, group, ok, why)
  {
    var ids, all := MemberIds(p, group.members), MemberIds(p, group.members) + SyncIds(p, group.members);
    hide Kept, MemberIds, SyncIds, GroupRefused, OnTime, SyncsLinked, CoversBookings;
    KeptChain(a, asked, b, ids, all, all);
    if !ok {
      RefusedBefore(p, grid, links, a, asked, group, why);
    }
  }

  lemma LateStops(p: Plan, grid: Grid, links: set<ReservationId>, b: Books, t: Terms, group: CoAllocation)
    requires IsLate(p, b.store, t, group)
    ensures Stops(p, grid, links, b, t, group, Late)
  {
  }

  lemma UnlinkedStops(p: Plan, grid: Grid, links: set<ReservationId>, b: Books, t: Terms, group: CoAllocation)
    requires t.speed != 0 && SourcesKnown(p, b.store, group.incomingData)
    requires group.representative in p.nodes && p.nodes[group.representative] in b.store && !(TransferIds(group.incomingData) <= links)
    ensures Stops(p, grid, links, b, t, group, NotALink)
  {
  }

  lemma RefusalStops(p: Plan, grid: Grid, links: set<ReservationId>, b: Books, t: Terms, group: CoAllocation, why: Cause)
    requires t.speed != 0 && SourcesKnown(p, b.store, group.incomingData)
    requires group.representative in p.nodes && p.nodes[group.representative] in b.store
    requires var first, start := p.nodes[group.representative], ReadyAt(p, b.store, t.start, t.speed, group.incomingData);
             GroupRefused(p, grid, links, b, Offered(b.store, first, start, t.deadline), group, why)
    ensures Stops(p, grid, links, b, t, group, why)
  {
    hide RefusesMember, RefusedTwice, ReadyAt;
  }

  /** A sync dependency that leads to the node from a node booked already. */
  ghost predicate LeadsTo(p: Plan, b: Books, id: DependencyId, n: NodeId) {
    && id in p.syncs && p.syncs[id].target == n && n in p.nodes && p.nodes[n] in b.database
    && p.syncs[id].source in p.nodes && p.nodes[p.syncs[id].source] in b.database
  }

  /** The links of all sync dependencies that lead to the node are arranged, but for those left to do. */
  ghost predicate SyncedBut(p: Plan, b: Books, n: NodeId, todo: set<DependencyId>) {
    forall id :: id !in todo && LeadsTo(p, b, id, n) ==> Synced(p, b, p.syncs[id])
  }

  lemma SyncStep(p: Plan, a: Books, b: Books, n: NodeId, todo: set<DependencyId>, id: DependencyId)
    requires Separate(p) && id in p.syncs && n in p.nodes && p.nodes[n] in a.store && p.syncs[id].target == n
    requires Kept(a, b, {p.syncs[id].reservation}) && b.database == a.database && SyncedBut(p, a, n, todo)
    requires var r := a.store[p.nodes[n]];
             LeadsTo(p, a, id, n) ==> Arranged(b, Known(p), p.syncs[id].reservation, r.assignedStart, r.assignedEnd, false)
    ensures b.store[p.nodes[n]] == a.store[p.nodes[n]].(state := b.store[p.nodes[n]].state)
    ensures SyncedBut(p, b, n, todo - {id})
  {
    NodesAreNoLinks(p);
    assert p.syncs[id].reservation in SyncLinks(p) && SyncLinks(p) <= Known(p);
    forall x | x !in todo - {id} && LeadsTo(p, b, x, n) ensures Synced(p, b, p.syncs[x]) {
      hide Arranged, Kept, Known, SyncLinks;
      if x != id {
        assert LeadsTo(p, a, x, n);
        SyncKept(p, a, b, {p.syncs[id].reservation}, p.syncs[x]);
      }
    }
  }

  /** The links between the members are arranged as far as they lead to the first i of them. */
  ghost predicate SyncsLinkedTo(p: Plan, b: Books, members: seq<NodeId>, i: nat)
    requires i <= |members|
  {
    forall id :: id in p.syncs && p.syncs[id].source in members && p.syncs[id].target in members[..i] ==> Synced(p, b, p.syncs[id])
  }

  lemma GroupSyncStep(p: Plan, a: Books, b: Books, members: seq<NodeId>, i: nat)
    requires Separate(p) && i < |members| && Distinct(members) && SyncsLinkedTo(p, a, members, i)
    requires forall m :: m in members ==> m in p.nodes && p.nodes[m] in b.database
    requires Kept(a, b, SyncIds(p, [members[i]])) && SyncedBut(p, b, members[i], {})
    ensures SyncsLinkedTo(p, b, members, i + 1)
  {
    NodesAreNoLinks(p);
    var touched := SyncIds(p, [members[i]]);
    assert touched <= SyncLinks(p) <= Known(p);
    forall id | id in p.syncs && p.syncs[id].source in members && p.syncs[id].target in members[..i + 1]
      ensures Synced(p, b, p.syncs[id])
    {
      hide Kept, Known, SyncLinks;
      if p.syncs[id].target == members[i] {
        assert LeadsTo(p, b, id, members[i]);
      } else {
        assert p.syncs[id].target in members[..i];
        SyncKept(p, a, b, touched, p.syncs[id]);
      }
    }
  }

  /** The first i transfers are arranged, as far as their source and target are booked. */
  ghost predicate SuppliedUpTo(p: Plan, b: Books, incoming: seq<DataDependency>, i: nat)
    requires i <= |incoming|
  {
    forall j :: 0 <= j < i && BothBooked(p, b, incoming[j]) ==> Transferred(p, b, incoming[j])
  }

  ghost predicate BothBooked(p: Plan, b: Books, d: DataDependency) {
    && d.source in p.nodes && p.nodes[d.source] in b.database
    && d.target in p.nodes && p.nodes[d.target] in b.database
  }

  lemma TransferStep(p: Plan, a: Books, b: Books, incoming: seq<DataDependency>, i: nat)
    requires Separate(p) && LinksDiffer(incoming) && i < |incoming| && SuppliedUpTo(p, a, incoming, i)
    requires forall d :: d in incoming ==> d.reservation in DataLinks(p)
    requires p.nodes.Values <= a.store.Keys
    requires var d := incoming[i]; Kept(a, b, {d.reservation}) && b.database == a.database
    requires var d := incoming[i]; BothBooked(p, a, d) ==>
               Arranged(b, Known(p), d.reservation, a.store[p.nodes[d.source]].assignedEnd, a.store[p.nodes[d.target]].assignedStart, true)
    ensures SuppliedUpTo(p, b, incoming, i + 1)
  {
    NodesAreNoLinks(p);
    assert incoming[i] in incoming && DataLinks(p) <= Known(p);
    forall j | 0 <= j < i + 1 && BothBooked(p, b, incoming[j]) ensures Transferred(p, b, incoming[j]) {
      hide Arranged, Known, DataLinks;
      if j < i {
        TransferKept(p, a, b, {incoming[i].reservation}, incoming[j]);
      } else {
        var d := incoming[i];
        KeptTimes(a, b, {d.reservation});
        assert p.nodes[d.source] in a.store && p.nodes[d.target] in a.store;
      }
    }
  }

  /** Work on links leaves the bookings in order. */
  lemma LinkWork(p: Plan, booked: set<ReservationId>, a: Books, b: Books, id: ReservationId)
    requires Separate(p) && Orderly(p, booked, a) && id in DataLinks(p) + SyncLinks(p)
    requires b.database == a.database && b.virtuals.Keys <= a.virtuals.Keys + {id} && AllTracked(b) && a.store.Keys <= b.store.Keys
    ensures Orderly(p, booked, b)
  {
  }

  lemma InMemberIds(p: Plan, members: seq<NodeId>, m: NodeId)
    requires m in members && m in p.nodes
    ensures p.nodes[m] in MemberIds(p, members)
  {
  }

  /** The record may be booked for the time the terms allow. */
  predicate HasTerms(r: Reservation, t: Terms) {
    r.bookingStart == t.start && r.bookingEnd == t.deadline && t.start + r.duration <= t.deadline
  }

  lemma FirstWithin(store: Store, ids: set<ReservationId>, first: ReservationId, horizon: int)
    requires first in store && first in ids
    requires AllWithin(store, ids - {first}, store[first].assignedStart, store[first].assignedEnd, horizon)
    ensures AllWithin(store, ids, store[first].assignedStart, store[first].assignedEnd, horizon)
  {
  }

  lemma NodesKnown(p: Plan, store: Store)
    requires Known(p) <= store.Keys
    ensures forall n :: n in p.nodes ==> p.nodes[n] in store
  {
  }

  lemma MembersApart(p: Plan, group: CoAllocation, booked: set<ReservationId>)
    requires Separate(p) && SyncIds(p, group.members) <= SyncLinks(p) && booked <= p.nodes.Values
    ensures SyncIds(p, group.members) !! MemberIds(p, group.members) && SyncIds(p, group.members) !! booked
  {
  }

  /** The segments tracked for the reservations given. */
  ghost function SegmentsOf(virtuals: Virtuals, ids: set<ReservationId>): set<ReservationId> {
    set x, s | x in virtuals && x in ids && s in virtuals[x] :: s
  }

  lemma OneMoreCancelled(virtuals: Virtuals, ids: set<ReservationId>, id: ReservationId)
    requires id !in ids
    ensures SegmentsOf(virtuals, ids + {id}) == SegmentsOf(virtuals, ids) + Elements(Chain(virtuals, id))
    ensures Chain(virtuals - ids, id) == Chain(virtuals, id) && virtuals - (ids + {id}) == (virtuals - ids) - {id}
  {
    assert id in virtuals ==> forall s :: s in virtuals[id] ==> s in SegmentsOf(virtuals, ids + {id});
  }

  /** Nothing booked has segments. */
  lemma NoSegmentsOf(p: Plan, booked: set<ReservationId>, b: Books)
    requires Orderly(p, booked, b)
    ensures SegmentsOf(b.virtuals, b.database.Keys) == {} && b.virtuals - b.database.Keys == b.virtuals
  {
    assert b.virtuals.Keys !! b.database.Keys;
  }

  lemma BookingSet(a: Books, b: Books, rep: ReservationId, members: set<ReservationId>)
    requires rep in a.store && rep in b.store && rep in members && b.virtuals == a.virtuals && b.database == a.database
    requires b.store == a.store[rep := a.store[rep].(bookingStart := b.store[rep].bookingStart, bookingEnd := b.store[rep].bookingEnd)]
    ensures Kept(a, b, members)
  {
  }

  /** A group reserved not before the earliest start has its data, and its transfers are arranged. */
  lemma GroupIsServed(p: Plan, s0: Books, s1: Books, s2: Books, t: Terms, group: CoAllocation, done: set<GroupId>, start: int)
    requires t.speed != 0 && Separate(p) && Schedulable(p, group, group.id, done) && start >= t.start
    requires forall d :: d in group.incomingData ==>
      && p.nodes[d.source] in s0.store && p.nodes[d.source] in s0.database
      && start >= s0.store[p.nodes[d.source]].assignedEnd + TransferTime(d.size, t.speed)
    requires Kept(s0, s2, GroupIds(p, group)) && Kept(s1, s2, TransferIds(group.incomingData))
    requires s0.database.Keys <= s1.database.Keys && s2.database == s1.database
    requires GroupBooked(p, s1.database, group) && OnTime(p, s1.store, t.(start := start), group) && SyncsLinked(p, s1, group.members)
    requires SuppliedUpTo(p, s2, group.incomingData, |group.incomingData|)
    ensures GroupServed(p, s2, t, group)
  {
    var ids := TransferIds(group.incomingData);
    GroupIdsKnown(p, group, group.id);
    forall d | d in group.incomingData ensures p.nodes[d.source] !in GroupIds(p, group) {
      SourceApart(p, group, group.id, done, d);
    }
    TransfersApart(p, group, ids);
    hide Known, Separate, Transferred, Synced, SyncIds, DataLinks, SyncLinks, AllWithin, GroupIds;
    OnTimeKept(p, s1.store, s2.store, ids, t.(start := start), group);
    SyncsKept(p, s1, s2, ids, group.members);
    EarlierTerms(p, s2.store, t, group, start);
    GroupHasData(p, s0, s2, t, group, start);
    forall d | d in group.incomingData ensures Transferred(p, s2, d) {
      assert BothBooked(p, s2, d);
    }
  }

  lemma TransfersApart(p: Plan, group: CoAllocation, ids: set<ReservationId>)
    requires Separate(p) && ids <= DataLinks(p)
    requires MemberIds(p, group.members) <= p.nodes.Values && SyncIds(p, group.members) <= SyncLinks(p)
    ensures ids <= Known(p) && ids !! SyncIds(p, group.members) && ids !! MemberIds(p, group.members)
  {
  }

  lemma EarlierTerms(p: Plan, store: Store, t: Terms, group: CoAllocation, start: int)
    requires OnTime(p, store, t.(start := start), group) && start >= t.start
    ensures OnTime(p, store, t, group)
  {
  }

  lemma GroupHasData(p: Plan, a: Books, b: Books, t: Terms, group: CoAllocation, start: int)
    requires t.speed != 0 && Kept(a, b, GroupIds(p, group)) && OnTime(p, b.store, t.(start := start), group)
    requires forall m :: m in group.members ==> m in p.nodes
    requires forall d :: d in group.incomingData ==>
      && d.source in p.nodes && p.nodes[d.source] in a.store && p.nodes[d.source] !in GroupIds(p, group)
      && start >= a.store[p.nodes[d.source]].assignedEnd + TransferTime(d.size, t.speed)
    ensures GroupArrives(p, b.store, t.speed, group)
  {
    forall m, d | m in group.members && d in group.incomingData ensures DataArrives(p, b.store, t.speed, d, m) {
      InMemberIds(p, group.members, m);
      assert Within(b.store[p.nodes[m]], b.store[p.nodes[group.representative]].assignedStart,
                    b.store[p.nodes[group.representative]].assignedEnd, t.horizon);
    }
  }

  class HeftScheduler {
    const grid: Grid
    /** The reservations that are links. */
    const links: set<ReservationId>
    var store: Store
    /** The segments of the links that have been split. */
    var virtuals: Virtuals
    /** The reservations made so far, with the component that holds each. */
    var database: map<ReservationId, ComponentId>
    var calls: nat
    /** All reservations ever entered in the database. */
    ghost var booked: set<ReservationId>

    ghost function Now(): Books
      reads this`store, this`virtuals, this`database
    {
      Books(store, virtuals, database)
    }

    constructor (grid: Grid, links: set<ReservationId>, store: Store, virtuals: Virtuals)
      ensures this.grid == grid && this.links == links
      ensures Now() == Books(store, virtuals, map[]) && booked == {}
    {
      this.grid, this.links, this.store, this.virtuals := grid, links, store, virtuals;
      database, calls := map[], 0;
      booked := {};
    }

    method Enter(id: ReservationId, a: Answer) returns (ok: bool)
      modifies this`store, this`database, this`calls, this`booked
      ensures store == a.store && (ok <==> a.component.Some?) && calls == old(calls) + 1
      ensures database == if ok then old(database)[id := a.component.value] else old(database)
      ensures booked == if ok then old(booked) + {id} else old(booked)
    {
      calls := calls + 1;
      store := a.store;
      ok := a.component.Some?;
      if ok {
        database := database[id := a.component.value];
        booked := booked + {id};
      }
    }

    /** Reserves a node where it finishes earliest; one failure is forgiven. */
    method ReserveAtBest(id: ReservationId) returns (ok: bool)
      requires HonoursBooking(grid.best, grid.horizon) && id in store
      modifies this`store, this`database, this`calls, this`booked
      ensures Frame(old(store), store, {id}) && store[id].duration == old(store)[id].duration
      ensures booked == old(booked) + (if ok then {id} else {})
      ensures var a := grid.best(old(calls), old(store), id);
              id in a.store &&
              var b := if a.component.Some? then a else grid.best(old(calls) + 1, a.store[id := a.store[id].(state := Open)], id);
              && store == b.store && (ok <==> b.component.Some?)
              && database == if ok then old(database)[id := b.component.value] else old(database)
      ensures ok ==> store[id].assignedStart >= old(store)[id].bookingStart
      ensures ok && HasRoom(old(store)[id], grid.horizon) ==> store[id].assignedEnd <= old(store)[id].bookingEnd
    {
      ok := Enter(id, grid.best(calls, store, id));
      if !ok {
        store := UpdateState(store, id, Open);
        ok := Enter(id, grid.best(calls, store, id));
      }
    }

    /** Reserves a node for the interval given, at the first component that takes it. */
    method ReserveAtFirst(id: ReservationId, start: int, end: int) returns (ok: bool)
      requires HonoursBooking(grid.first, grid.horizon) && id in store
      modifies this`store, this`database, this`calls, this`booked
      ensures Frame(old(store), store, {id})
      ensures booked == old(booked) + (if ok then {id} else {})
      ensures var a := grid.first(old(calls), old(store)[id := old(store)[id].(bookingStart := start, bookingEnd := end)], id);
              && id in a.store && store == (if ok then a.store else a.store[id := a.store[id].(state := Rejected)])
              && (ok <==> a.component.Some?) && calls == old(calls) + 1
              && database == if ok then old(database)[id := a.component.value] else old(database)
      ensures ok ==> Within(store[id], start, end, grid.horizon)
    {
      store := store[id := store[id].(bookingStart := start, bookingEnd := end)];
      ok := Enter(id, grid.first(calls, store, id));
      if !ok {
        store := UpdateState(store, id, Rejected);
      }
    }

    /** A new entry of the store gets an id that is not in use. */
    method FreshId() returns (id: ReservationId)
      ensures id !in store
    {
      id := 0;
      var todo := store.Keys;
      while todo != {}
        invariant todo <= store.Keys && forall x :: x in store && x !in todo ==> x < id
      {
        var x :| x in todo;
        todo := todo - {x};
        id := if x >= id then x + 1 else id;
      }
    }

    /** Adds a copy of the link as a segment that is committed for the interval. */
    method AddSegment(id: ReservationId, start: int, end: int) returns (segment: ReservationId)
      requires id in store
      modifies this`store, this`virtuals
      ensures segment !in old(store) && store == old(store)[segment := Segment(old(store)[id], start, end)]
      ensures virtuals == old(virtuals)[id := Chain(old(virtuals), id) + [segment]]
    {
      segment := FreshId();
      store := store[segment := store[id]];
      virtuals := virtuals[id := Chain(virtuals, id) + [segment]];
      store := store[segment := Segment(store[segment], start, end)];
    }

    /** A link across components: it is split into four segments, all committed for the same time. */
    method ScheduleCrossDependency(id: ReservationId, start: int, end: int, isTransfer: bool)
      requires id in store
      modifies this`store, this`virtuals
      ensures Split(old(Now()), Now(), id, LinkRequest(old(store)[id], start, end, isTransfer), start, end)
    {
      store := store[id := LinkRequest(store[id], start, end, isTransfer)];
      var a := AddSegment(id, start, end);
      var b := AddSegment(id, start, end);
      var c := AddSegment(id, start, end);
      var d := AddSegment(id, start, end);
      assert virtuals[id] == Chain(old(virtuals), id) + [a, b, c, d];
      SplitInFour(old(Now()), Now(), id, LinkRequest(old(store)[id], start, end, isTransfer), start, end, a, b, c, d);
    }

    /** A link that crosses no network is committed as it is. */
    method ScheduleDummyDependency(w: Workflow, ghost p: Plan, id: ReservationId, start: int, end: int, isTransfer: bool)
      requires Separate(p) && id in store && Orderly(p, booked, Now()) && id in DataLinks(p) + SyncLinks(p)
      modifies this`store, w`base
      ensures store == old(store)[id := DummyLink(old(store)[id], start, end, isTransfer)] && store[id].state == Committed
      ensures Arranged(Now(), Known(p), id, start, end, isTransfer) && w.base == Extended(old(w.base), store[id])
      ensures Kept(old(Now()), Now(), {id}) && Orderly(p, booked, Now()) && Widened(old(w.base), w.base)
    {
      hide Spanned, Known, DataLinks, SyncLinks, Separate, Arranged, DummyLink;
      store := store[id := DummyLink(store[id], start, end, isTransfer)];
      DummyArranged(Now(), Known(p), id, old(store)[id], start, end, isTransfer);
      LinkWork(p, booked, old(Now()), Now(), id);
      w.UpdateReservation(store[id]);
    }

    /** A link across the network becomes an open request, and is split. */
    method ScheduleRealDependency(w: Workflow, ghost p: Plan, id: ReservationId, start: int, end: int, isTransfer: bool)
      requires Separate(p) && Known(p) <= store.Keys && Orderly(p, booked, Now()) && id in DataLinks(p) + SyncLinks(p)
      requires id in store && store[id].capacity != 0
      modifies this`store, this`virtuals, w`base
      ensures Split(old(Now()), Now(), id, LinkRequest(old(store)[id], start, end, isTransfer), start, end)
      ensures Arranged(Now(), Known(p), id, start, end, isTransfer) && id in store && store[id].state == Open
      ensures w.base == Extended(old(w.base), store[id])
      ensures Kept(old(Now()), Now(), {id}) && Orderly(p, booked, Now()) && Widened(old(w.base), w.base)
    {
      hide Spanned, Known, DataLinks, SyncLinks, Separate, Arranged, LinkRequest, Split;
      ScheduleCrossDependency(id, start, end, isTransfer);
      SplitSpans(old(Now()), Now(), Known(p), id, LinkRequest(old(store)[id], start, end, isTransfer), start, end);
      RequestArranged(Now(), Known(p), id, old(store)[id], start, end, isTransfer);
      LinkWork(p, booked, old(Now()), Now(), id);
      w.UpdateReservation(store[id]);
    }

    /** Schedules the link of a dependency: a dummy if nothing has to cross the network, its segments otherwise. */
    method ScheduleDependency(w: Workflow, ghost p: Plan, id: ReservationId, start: int, end: int, isTransfer: bool,
                              source: ComponentId, target: ComponentId)
      returns (ok: bool)
      requires Separate(p) && Known(p) <= store.Keys && Orderly(p, booked, Now()) && id in DataLinks(p) + SyncLinks(p)
      modifies this`store, this`virtuals, w`base
      ensures ok <==> id in links
      ensures !ok ==> Now() == old(Now())
      ensures ok && (old(store)[id].capacity == 0 || source == target) ==>
        virtuals == old(virtuals) && store == old(store)[id := DummyLink(old(store)[id], start, end, isTransfer)]
      ensures ok && old(store)[id].capacity != 0 && source != target ==>
        Split(old(Now()), Now(), id, LinkRequest(old(store)[id], start, end, isTransfer), start, end)
      ensures ok ==> Arranged(Now(), Known(p), id, start, end, isTransfer) && id in store
      ensures w.base == if ok then Extended(old(w.base), store[id]) else old(w.base)
      ensures ok ==> id in store && store[id].state == if old(store)[id].capacity == 0 || source == target then Committed else Open
      ensures Kept(old(Now()), Now(), {id}) && Orderly(p, booked, Now()) && Widened(old(w.base), w.base)
    {
      assert id in Known(p);
      hide Spanned, Known, DataLinks, SyncLinks, Separate, Arranged, DummyLink, LinkRequest, Split, Kept, Orderly;
      if id !in links {
        KeptReflexive(Now(), {id});
        return false;
      }
      if store[id].capacity == 0 || source == target {
        ScheduleDummyDependency(w, p, id, start, end, isTransfer);
      } else {
        ScheduleRealDependency(w, p, id, start, end, isTransfer);
      }
      ok := true;
    }

    /** Reserves one more node for the interval given. */
    method ReserveMember(w: Workflow, ghost p: Plan, id: ReservationId, start: int, end: int) returns (ok: bool)
      requires HonoursBooking(grid.first, grid.horizon) && id in store && id in p.nodes.Values && Orderly(p, booked, Now())
      modifies this`store, this`database, this`calls, this`booked, w`base
      ensures Kept(old(Now()), Now(), {id}) && Orderly(p, booked, Now()) && Widened(old(w.base), w.base)
      ensures ok ==> id in store && id in database && Within(store[id], start, end, grid.horizon)
      ensures w.base == if ok then Extended(old(w.base), store[id]) else old(w.base)
      ensures ok && CoversBookings(old(w.base), old(Now())) ==> CoversBookings(w.base, Now())
      ensures !ok ==> grid.first(old(calls), Offered(old(store), id, start, end), id).component.None?
    {
      hide HonoursBooking, Kept, Orderly, Within, CoversBookings;
      ghost var before, had := Now(), booked;
      ok := ReserveAtFirst(id, start, end);
      OneBooking(p, had, before, booked, Now(), id, ok);
      if ok {
        KeptTimes(before, Now(), {id});
        w.UpdateReservation(store[id]);
        if CoversBookings(old(w.base), before) {
          BookedKnown(p, had, before);
          BookingCovered(old(w.base), w.base, before, Now(), id);
        }
      }
    }

    /** Reserves the other members of the group for the interval assigned to its representative. */
    method ReserveMembers(w: Workflow, ghost p: Plan, members: seq<NodeId>, first: ReservationId) returns (ok: bool, ghost why: Cause)
      requires p == PlanOf(w) && Separate(p) && Distinct(members) && Orderly(p, booked, Now()) && CoversBookings(w.base, Now())
      requires HonoursBooking(grid.first, grid.horizon) && first in store && first in database
      requires forall m :: m in members ==> m in w.nodes && w.nodes[m] in store
      modifies this`store, this`database, this`calls, this`booked, w`base
      ensures Kept(old(Now()), Now(), OthersThan(p, members, first)) && Orderly(p, booked, Now()) && Widened(old(w.base), w.base)
      ensures ok ==> (forall m :: m in members ==> w.nodes[m] in database) && CoversBookings(w.base, Now())
      ensures ok ==> AllWithin(store, OthersThan(p, members, first),
                               old(store)[first].assignedStart, old(store)[first].assignedEnd, grid.horizon)
      ensures !ok ==> why.MemberRefused? && RefusesMember(p, grid, old(Now()), members, first, why.asked, why.time, why.member)
    {
      var start, end := store[first].assignedStart, store[first].assignedEnd;
      ghost var s0, base0, touched := Now(), w.base, {};
      why := Late;
      KeptReflexive(s0, touched);
      NoMembers(p, members, first);
      for i := 0 to |members|
        invariant touched == OthersThan(p, members[..i], first)
        invariant Kept(s0, Now(), touched) && Orderly(p, booked, Now()) && Widened(base0, w.base)
        invariant AllWithin(store, touched, start, end, grid.horizon) && CoversBookings(w.base, Now())
        invariant touched <= database.Keys && s0.store.Keys <= store.Keys && first in database
      {
        hide Kept, Frame, AllWithin, HonoursBooking, OthersThan, Separate, Orderly, Within, CoversBookings, Widened, RefusesMember, Offered;
        var id := w.nodes[members[i]];
        OthersGrow(p, members, first, i);
        if id != first {
          ghost var before, base, time := Now(), w.base, calls;
          ok := ReserveMember(w, p, id, start, end);
          WidenedFurther(base0, base, w.base);
          KeptChain(s0, before, Now(), touched, {id}, touched + {id});
          KeptTimes(before, Now(), {id});
          if !ok {
            KeptWiden(s0, Now(), touched + {id}, OthersThan(p, members, first));
            why := MemberRefused(before.(store := Offered(before.store, id, start, end)), time, members[i]);
            MemberStops(p, grid, s0, before, members, first, touched, members[i], time);
            return;
          }
          OneMoreWithin(before.store, store, touched, id, start, end, grid.horizon);
          touched := touched + {id};
        }
      }
      assert members[..|members|] == members;
      AllMembers(p, members, first, touched, database.Keys);
      ok := true;
    }

    /** Schedules the links of all sync dependencies that lead to the node. */
    method ScheduleSyncDependencies(w: Workflow, ghost p: Plan, n: NodeId) returns (ok: bool)
      requires p == PlanOf(w) && Separate(p) && n in w.nodes && Known(p) <= store.Keys && Orderly(p, booked, Now())
      modifies this`store, this`virtuals, w`base
      ensures Kept(old(Now()), Now(), SyncIds(p, [n])) && Orderly(p, booked, Now())
      ensures ok ==> SyncedBut(p, Now(), n, {})
      ensures !ok ==> !(SyncIds(p, [n]) <= links)
      ensures Widened(old(w.base), w.base)
    {
      assert w.nodes[n] in Known(p);
      var start, end := store[w.nodes[n]].assignedStart, store[w.nodes[n]].assignedEnd;
      var todo := set id | id in w.syncs && w.syncs[id].target == n;
      KeptReflexive(Now(), SyncIds(p, [n]));
      while todo != {}
        invariant forall id :: id in todo ==> id in w.syncs && w.syncs[id].target == n
        invariant Kept(old(Now()), Now(), SyncIds(p, [n])) && Orderly(p, booked, Now())
        invariant Known(p) <= store.Keys && SyncedBut(p, Now(), n, todo)
        invariant w.nodes[n] in store && store[w.nodes[n]].assignedStart == start && store[w.nodes[n]].assignedEnd == end
        invariant Widened(old(w.base), w.base)
      {
        var id :| id in todo;
        hide Kept, Separate, Orderly, SyncedBut, Known, SyncIds;
        ghost var before := Now();
        ok := ScheduleSyncDependency(w, p, n, id, start, end, todo);
        KeptChain(old(Now()), before, Now(), SyncIds(p, [n]), SyncIds(p, [n]), SyncIds(p, [n]));
        KeptTimes(before, Now(), SyncIds(p, [n]));
        if !ok {
          return;
        }
        todo := todo - {id};
      }
      ok := true;
    }

    /** Schedules the link of one of them, if both its ends are booked. */
    method ScheduleSyncDependency(w: Workflow, ghost p: Plan, n: NodeId, id: DependencyId, start: int, end: int,
                                  ghost todo: set<DependencyId>)
      returns (ok: bool)
      requires p == PlanOf(w) && Separate(p) && n in w.nodes && Known(p) <= store.Keys && Orderly(p, booked, Now())
      requires id in w.syncs && w.syncs[id].target == n && SyncedBut(p, Now(), n, todo)
      requires w.nodes[n] in store && store[w.nodes[n]].assignedStart == start && store[w.nodes[n]].assignedEnd == end
      modifies this`store, this`virtuals, w`base
      ensures Kept(old(Now()), Now(), SyncIds(p, [n])) && Orderly(p, booked, Now())
      ensures ok ==> SyncedBut(p, Now(), n, todo - {id})
      ensures !ok ==> !(SyncIds(p, [n]) <= links)
      ensures w.nodes[n] in store && store[w.nodes[n]].assignedStart == start && store[w.nodes[n]].assignedEnd == end
      ensures Widened(old(w.base), w.base)
    {
      hide Kept, Separate, Orderly, SyncedBut, Arranged;
      var sync := w.syncs[id];
      assert sync.reservation in SyncIds(p, [n]) && sync.reservation in SyncLinks(p);
      hide SyncIds, SyncLinks, Known;
      KeptReflexive(Now(), {sync.reservation});
      NodesAreNoLinks(p);
      ok := true;
      if sync.source in w.nodes && w.nodes[sync.source] in database && w.nodes[n] in database {
        ok := ScheduleDependency(w, p, sync.reservation, start, end, false, database[w.nodes[sync.source]], database[w.nodes[n]]);
      }
      KeptWiden(old(Now()), Now(), {sync.reservation}, SyncIds(p, [n]));
      KeptTimes(old(Now()), Now(), {sync.reservation});
      if ok {
        SyncStep(p, old(Now()), Now(), n, todo, id);
      }
    }

    /** Reserves all nodes of a group: the representative first, the others for the time it got. */
    method ReserveGroup(w: Workflow, ghost p: Plan, group: CoAllocation, ghost t: Terms) returns (ok: bool, ghost why: Cause)
      requires p == PlanOf(w) && Reliable(grid) && Separate(p) && Owns(p, group, group.id) && Orderly(p, booked, Now())
      requires forall m :: m in group.members ==> w.nodes[m] in store
      requires t.horizon == grid.horizon && HasTerms(store[w.nodes[group.representative]], t) && CoversBookings(w.base, Now())
      modifies this`store, this`database, this`calls, this`booked, w`base
      ensures Kept(old(Now()), Now(), MemberIds(p, group.members)) && Orderly(p, booked, Now()) && Widened(old(w.base), w.base)
      ensures ok ==> GroupBooked(p, database, group) && OnTime(p, store, t, group) && CoversBookings(w.base, Now())
      ensures !ok ==> GroupRefused(p, grid, links, old(Now()), old(store), group, why)
    {
      hide Separate, Orderly, Kept, MemberIds, AllWithin, HonoursBooking, Within, CoversBookings, RefusesMember, Widened, Covers,
           Extended, GroupRefused, GroupBooked, OnTime;
      var first := w.nodes[group.representative];
      ghost var s0, had, ids, base0 := Now(), booked, MemberIds(p, group.members), w.base;
      InMemberIds(p, group.members, group.representative);
      why := NodeRefused(calls);
      ok := ReserveAtBest(first);
      assert unchanged(this`virtuals);
      OneBooking(p, had, s0, booked, Now(), first, ok);
      ghost var s1 := Now();
      KeptWiden(s0, s1, {first}, ids);
      KeptTimes(s0, s1, ids);
      if !ok {
        NodeRefusal(p, grid, links, s0, group, why.time);
        WidenedReflexive(base0);
        return;
      }
      w.UpdateReservation(store[first]);
      UpdateCovers(base0, store[first]);
      BookedKnown(p, had, s0);
      ghost var base1 := w.base;
      BookingCovered(base0, base1, s0, s1, first);
      ok, why := ReserveMembers(w, p, group.members, first);
      WidenedFurther(base0, base1, w.base);
      KeptChain(s0, s1, Now(), ids, ids - {first}, ids);
      if ok {
        GroupIsReserved(p, s0, s1, Now(), t, group);
      } else {
        MemberRefusal(p, grid, links, s0, s1, group, why);
      }
    }

    /** Schedules the links between the nodes of a group. */
    method ScheduleGroupSyncs(w: Workflow, ghost p: Plan, members: seq<NodeId>) returns (ok: bool)
      requires p == PlanOf(w) && Separate(p) && Known(p) <= store.Keys && Orderly(p, booked, Now()) && Distinct(members)
      requires forall m :: m in members ==> m in w.nodes && w.nodes[m] in database
      modifies this`store, this`virtuals, w`base
      ensures Kept(old(Now()), Now(), SyncIds(p, members)) && Orderly(p, booked, Now())
      ensures ok ==> SyncsLinked(p, Now(), members)
      ensures !ok ==> !(SyncIds(p, members) <= links)
      ensures Widened(old(w.base), w.base)
    {
      KeptReflexive(Now(), SyncIds(p, members));
      for i := 0 to |members|
        invariant Kept(old(Now()), Now(), SyncIds(p, members)) && Orderly(p, booked, Now())
        invariant Known(p) <= store.Keys && SyncsLinkedTo(p, Now(), members, i)
        invariant Widened(old(w.base), w.base)
      {
        hide Kept, Separate, Orderly, SyncedBut, SyncsLinkedTo, Known;
        ghost var before := Now();
        assert SyncIds(p, [members[i]]) <= SyncIds(p, members);
        hide SyncIds;
        ok := ScheduleSyncDependencies(w, p, members[i]);
        KeptChain(old(Now()), before, Now(), SyncIds(p, members), SyncIds(p, [members[i]]), SyncIds(p, members));
        if !ok {
          return;
        }
        KeptTimes(before, Now(), SyncIds(p, [members[i]]));
        GroupSyncStep(p, before, Now(), members, i);
      }
      assert members[..|members|] == members;
      ok := true;
    }

    /** Reserves all nodes of a group for the same time, and the links between them. */
    method ScheduleCoAllocation(w: Workflow, ghost p: Plan, group: CoAllocation, ghost t: Terms) returns (ok: bool, ghost why: Cause)
      requires p == PlanOf(w) && Reliable(grid) && Separate(p) && Owns(p, group, group.id) && Orderly(p, booked, Now())
      requires Known(p) <= store.Keys && CoversBookings(w.base, Now())
      requires t.horizon == grid.horizon && w.nodes[group.representative] in store && HasTerms(store[w.nodes[group.representative]], t)
      modifies this`store, this`virtuals, this`database, this`calls, this`booked, w`base
      ensures Orderly(p, booked, Now())
      ensures GroupTried(p, grid, links, old(Now()), old(store), Now(), old(w.base), w.base, t, group, ok, why)
    {
      NodesKnown(p, store);
      hide Kept, Orderly, OnTime, SyncsLinked, Known, HonoursBooking, HasTerms, CoversBookings, GroupRefused, Separate, MemberIds, SyncIds,
           GroupTried;
      ghost var before, base0 := Now(), w.base;
      ok, why := ReserveGroup(w, p, group, t);
      ghost var reserved, base := Now(), w.base;
      if ok {
        KeptTimes(before, reserved, MemberIds(p, group.members));
        assert Known(p) <= store.Keys && Orderly(p, booked, reserved);
        label Reserved:
        ok := ScheduleGroupSyncs(w, p, group.members);
        assert unchanged@Reserved(this`database);
        why := NotALink;
        SyncsAfterNodes(p, grid, links, booked, base0, base, w.base, before, reserved, Now(), t, group, ok);
      } else {
        NodesFail(p, grid, links, before, reserved, base0, base, t, group, why);
      }
    }

    /** Schedules the transfers of all data the group waits for. */
    method ScheduleDataDependencies(w: Workflow, ghost p: Plan, incoming: seq<DataDependency>) returns (ok: bool)
      requires p == PlanOf(w) && Separate(p) && Known(p) <= store.Keys && Orderly(p, booked, Now()) && LinksDiffer(incoming)
      requires forall d :: d in incoming ==> d.reservation in DataLinks(p) && d.source in w.nodes && d.target in w.nodes
      modifies this`store, this`virtuals, w`base
      ensures Kept(old(Now()), Now(), TransferIds(incoming)) && Orderly(p, booked, Now())
      ensures ok ==> SuppliedUpTo(p, Now(), incoming, |incoming|)
      ensures !ok ==> !(TransferIds(incoming) <= links)
      ensures Widened(old(w.base), w.base)
    {
      KeptReflexive(Now(), TransferIds(incoming));
      for i := 0 to |incoming|
        invariant Kept(old(Now()), Now(), TransferIds(incoming)) && Orderly(p, booked, Now())
        invariant Known(p) <= store.Keys && SuppliedUpTo(p, Now(), incoming, i)
        invariant Widened(old(w.base), w.base)
      {
        hide Kept, Separate, Orderly, SuppliedUpTo, Arranged, LinksDiffer;
        var d := incoming[i];
        assert d in incoming && d.reservation in TransferIds(incoming);
        var source, target := w.nodes[d.source], w.nodes[d.target];
        assert source in Known(p) && target in Known(p) && d.reservation in Known(p) && p.nodes.Values <= Known(p);
        hide Known, TransferIds, DataLinks, SyncLinks;
        ghost var before := Now();
        KeptReflexive(before, {d.reservation});
        if source in database && target in database {
          label Asked:
          ok := ScheduleDependency(w, p, d.reservation, store[source].assignedEnd, store[target].assignedStart, true,
                                   database[source], database[target]);
          assert unchanged@Asked(this`database);
          KeptChain(old(Now()), before, Now(), TransferIds(incoming), {d.reservation}, TransferIds(incoming));
          if !ok {
            return;
          }
        }
        KeptTimes(before, Now(), {d.reservation});
        TransferStep(p, before, Now(), incoming, i);
      }
      ok := true;
    }

    /** Drops the segments tracked for a reservation, and deletes it at its component. */
    method CancelReservation(id: ReservationId)
      modifies this`store, this`virtuals, this`calls
      ensures virtuals == old(virtuals) - {id}
      ensures store.Keys == old(store).Keys - Elements(Chain(old(virtuals), id))
      ensures forall x :: x in store ==> store[x] == old(store)[x].(state := store[x].state)
      ensures forall x :: x in store && x != id ==> store[x] == old(store)[x]
      ensures id in store ==>
        var rest := old(store) - Elements(Chain(old(virtuals), id));
        store[id].state == if grid.deleted(old(calls), rest, id) then Deleted else Rejected
    {
      store := store - (set s | s in Chain(virtuals, id));
      virtuals := virtuals - {id};
      store := UpdateState(store, id, if grid.deleted(calls, store, id) then Deleted else Rejected);
      calls := calls + 1;
    }

    /** Deletes everything booked for the workflow, and the segments tracked for what was booked. */
    method CancelAllReservations()
      modifies this`store, this`virtuals, this`database, this`calls
      ensures database == map[] && virtuals == old(virtuals) - old(database).Keys
      ensures store.Keys == old(store).Keys - SegmentsOf(old(virtuals), old(database).Keys)
      ensures forall id :: id in old(database) && id in store ==> store[id].state in {Deleted, Rejected}
      ensures forall id :: id in store ==> store[id] == old(store)[id].(state := store[id].state)
    {
      var todo := database.Keys;
      ghost var gone: set<ReservationId> := {};
      while todo != {}
        invariant database == old(database) && todo !! gone && todo + gone == database.Keys
        invariant virtuals == old(virtuals) - gone && store.Keys == old(store).Keys - SegmentsOf(old(virtuals), gone)
        invariant forall id :: id in gone && id in store ==> store[id].state in {Deleted, Rejected}
        invariant forall id :: id in store ==> store[id] == old(store)[id].(state := store[id].state)
      {
        hide SegmentsOf, Chain;
        var id :| id in todo;
        OneMoreCancelled(old(virtuals), gone, id);
        CancelReservation(id);
        todo, gone := todo - {id}, gone + {id};
      }
      database := map[];
    }

    /** The earliest start of a group: the start of the workflow, or when the last data has arrived. */
    method EarliestStart(w: Workflow, incoming: seq<DataDependency>, speed: int) returns (start: int)
      requires speed != 0 && SourcesKnown(PlanOf(w), store, incoming)
      ensures start == ReadyAt(PlanOf(w), store, w.base.bookingStart, speed, incoming)
      ensures start >= w.base.bookingStart
      ensures forall d :: d in incoming ==> start >= store[w.nodes[d.source]].assignedEnd + TransferTime(d.size, speed)
      ensures start == w.base.bookingStart
              || exists d :: d in incoming && start == store[w.nodes[d.source]].assignedEnd + TransferTime(d.size, speed)
    {
      start := w.base.bookingStart;
      for i := 0 to |incoming|
        invariant start == ReadyAt(PlanOf(w), store, w.base.bookingStart, speed, incoming[..i])
      {
        var d := incoming[i];
        assert d in incoming && incoming[..i + 1][..i] == incoming[..i];
        var transfer := 0;
        if d.size > 0 {
          transfer := TruncDiv(d.size, speed);
        }
        if d.size > 0 && transfer == 0 {
          transfer := 1;
        }
        if store[w.nodes[d.source]].assignedEnd + transfer > start {
          start := store[w.nodes[d.source]].assignedEnd + transfer;
        }
      }
      assert incoming[..|incoming|] == incoming;
      ReadyAtIsMaximum(PlanOf(w), store, w.base.bookingStart, speed, incoming);
    }

    /** Sets the booking interval of the representative, and schedules the members of the group and their sync links. */
    method PlaceGroup(w: Workflow, ghost p: Plan, group: CoAllocation, ghost t: Terms, start: int) returns (ok: bool, ghost why: Cause)
      requires p == PlanOf(w) && Reliable(grid) && Separate(p) && Owns(p, group, group.id) && Orderly(p, booked, Now())
      requires Known(p) <= store.Keys && t.horizon == grid.horizon && t.start == start && t.deadline == w.base.bookingEnd
      requires var rep := w.nodes[group.representative]; rep in store && start + store[rep].duration <= w.base.bookingEnd
      requires CoversBookings(w.base, Now())
      modifies this`store, this`virtuals, this`database, this`calls, this`booked, w`base
      ensures Orderly(p, booked, Now())
      ensures var offered := Offered(old(store), w.nodes[group.representative], start, t.deadline);
              GroupTried(p, grid, links, old(Now()), offered, Now(), old(w.base), w.base, t, group, ok, why)
    {
      hide SyncIds, Separate, Reliable, SyncsLinked, Known, OnTime, Frame, GroupRefused, GroupTried;
      var rep := w.nodes[group.representative];
      InMemberIds(p, group.members, group.representative);
      ghost var before, base := Now(), w.base;
      store := store[rep := store[rep].(bookingStart := start, bookingEnd := w.base.bookingEnd)];
      ghost var asked := Now();
      BookingSet(before, asked, rep, MemberIds(p, group.members));
      hide Kept, Orderly, MemberIds, CoversBookings;
      ok, why := ScheduleCoAllocation(w, p, group, t);
      TriedBefore(p, grid, links, before, asked, Now(), base, w.base, t, group, ok, why);
    }

    /** One group: wait for its data, reserve its nodes, schedule the transfers to it. */
    method ScheduleGroup(w: Workflow, ghost p: Plan, group: CoAllocation, speed: int, ghost t: Terms, ghost done: set<GroupId>)
      returns (ok: bool, ghost why: Cause)
      requires p == PlanOf(w) && Reliable(grid) && Separate(p) && Schedulable(p, group, group.id, done) && Orderly(p, booked, Now())
      requires Known(p) <= store.Keys && speed != 0 && t == Terms(speed, w.base.bookingStart, w.base.bookingEnd, grid.horizon)
      requires (forall d :: d in group.incomingData ==> w.nodes[d.source] in database) && CoversBookings(w.base, Now())
      modifies this`store, this`virtuals, this`database, this`calls, this`booked, w`base
      ensures Kept(old(Now()), Now(), GroupIds(p, group)) && Orderly(p, booked, Now())
      ensures ok ==> GroupServed(p, Now(), t, group) && CoversBookings(w.base, Now()) && !IsLate(p, old(store), t, group)
      ensures !ok ==> Stops(p, grid, links, old(Now()), t, group, why)
      ensures Widened(old(w.base), w.base)
    {
      hide Separate, Reliable, Kept, Orderly, Known, MemberIds, SyncIds, TransferIds, OnTime, SyncsLinked, SuppliedUpTo, GroupArrives,
           CoversBookings, RefusesMember, RefusedTwice, ReadyAt, GroupRefused, Stops, GroupTried;
      GroupIdsKnown(p, group, group.id);
      NodesKnown(p, store);
      var start := EarliestStart(w, group.incomingData, speed);
      var rep := w.nodes[group.representative];
      ghost var s0, ids, base0 := Now(), GroupIds(p, group), w.base;
      KeptReflexive(s0, ids);
      if start + store[rep].duration > w.base.bookingEnd {
        why := Late;
        LateStops(p, grid, links, s0, t, group);
        return false, why;
      }
      ghost var nodeIds := MemberIds(p, group.members) + SyncIds(p, group.members);
      ok, why := PlaceGroup(w, p, group, t.(start := start), start);
      ghost var s1, base := Now(), w.base;
      Tried(p, grid, links, s0, Offered(s0.store, rep, start, t.deadline), s1, base0, base, t.(start := start), group, ok, why);
      KeptWiden(s0, s1, nodeIds, ids);
      if ok {
        KeptTimes(s0, s1, ids);
        BookedKnown(p, booked, s1);
        label Booked:
        ok := ScheduleDataDependencies(w, p, group.incomingData);
        assert unchanged@Booked(this`database);
        KeptChain(s0, s1, Now(), nodeIds, TransferIds(group.incomingData), ids);
        if ok {
          GroupIsServed(p, s0, s1, Now(), t, group, done, start);
          TransfersCovered(p, booked, base, w.base, s1, Now(), TransferIds(group.incomingData));
        } else {
          why := NotALink;
          UnlinkedStops(p, grid, links, s0, t, group);
        }
      } else {
        RefusalStops(p, grid, links, s0, t, group, why);
      }
    }

    /** Schedules the groups in the order given, until one fails. */
    method ScheduleInOrder(w: Workflow, ghost p: Plan, order: seq<NodeId>, speed: int, ghost t: Terms) returns (ok: bool, ghost stop: Stop)
      requires p == PlanOf(w) && Reliable(grid) && Separate(p) && Known(p) <= store.Keys && Orderly(p, booked, Now())
      requires speed != 0 && t == Terms(speed, w.base.bookingStart, w.base.bookingEnd, grid.horizon)
      requires OrderSchedulable(p, w.groups, order) && Partition(w.groups, p.groupOf) && CoversBookings(w.base, Now())
      modifies this`store, this`virtuals, this`database, this`calls, this`booked, w`base
      ensures old(store).Keys <= store.Keys && Orderly(p, booked, Now())
      ensures ok ==> AllServed(p, Now(), t, w.groups, Elements(order)) && CoversBookings(w.base, Now())
      ensures !ok ==> StoppedAt(p, grid, links, old(Now()), t, w.groups, stop) && InTurn(order, stop)
      ensures Widened(old(w.base), w.base)
    {
      hide Reliable, Separate, OrderSchedulable, DownwardClosed, AllServed, Kept, Schedulable, Orderly, Known, Partition, GroupIds, GroupServed,
           CoversBookings, Stops, HeldBy, IsLate;
      ghost var done: set<GroupId> := {};
      stop := Stop(Now(), {}, 0, Late);
      NothingDone(p, Now(), t, w.groups);
      KeptReflexive(Now(), HeldBy(p, w.groups, done));
      for i := 0 to |order|
        invariant done == Elements(order[..i])
        invariant old(store).Keys <= store.Keys && Orderly(p, booked, Now()) && CoversBookings(w.base, Now())
        invariant Kept(old(Now()), Now(), HeldBy(p, w.groups, done))
        invariant DownwardClosed(p, w.groups, done) && AllServed(p, Now(), t, w.groups, done)
        invariant Widened(old(w.base), w.base)
      {
        Turn(p, w.groups, order, i);
        var key := w.groupOf[order[i]];
        var group := w.groups[key];
        ghost var before, why := Now(), Late;
        SourcesBooked(p, before, t, w.groups, done, key);
        ok, why := ScheduleGroup(w, p, group, speed, t, done);
        KeptTimes(before, Now(), GroupIds(p, group));
        if !ok {
          stop := Stop(before, done, key, why);
          assert order[i] == stop.group && stop.done == Elements(order[..i]);
          return;
        }
        ServeStep(p, before, Now(), t, w.groups, done, key);
        HeldGrows(p, w.groups, done, key);
        KeptChain(old(Now()), before, Now(), HeldBy(p, w.groups, done), GroupIds(p, group), HeldBy(p, w.groups, done + {key}));
        done := done + {key};
        assert Elements(order[..i + 1]) == Elements(order[..i]) + {order[i]};
      }
      assert order[..|order|] == order;
      ok := true;
    }

    ghost function TermsOf(w: Workflow, speed: int): Terms
      reads w
    {
      Terms(speed, w.base.bookingStart, w.base.bookingEnd, grid.horizon)
    }

    /** All that an accepted workflow is promised; its own assigned interval covers all its nodes. */
    ghost predicate Accepted(w: Workflow, speed: int)
      requires speed != 0
      reads this, w
    {
      && AllMet(PlanOf(w), Now(), TermsOf(w, speed), w.groups)
      && forall n :: n in w.nodes && w.nodes[n] in store ==> Covers(w.base, store[w.nodes[n]])
    }

    /**
     Reserves a whole workflow. If it is accepted, all its groups run on time and every dependency between groups is
     met; if not, there was cause to stop at one of its groups, and nothing of it stays booked. The segments of links
     stay in the store either way.
     */
    method Reserve(w: Workflow, reportedSpeed: int) returns (ok: bool, ghost stop: Stop)
      requires w.Valid() && Reliable(grid)
      requires var p := PlanOf(w); Separate(p) && Known(p) <= store.Keys && virtuals.Keys !! p.nodes.Values && AllTracked(Now())
      requires var g := w.Dag(store, if reportedSpeed == 0 then 1 else reportedSpeed);
               Acyclic(g) && (Forward(g) || (NoNegativeTimes(g) && TimePasses(g)))
      modifies this, w`groups, w`base
      ensures ok ==> w.base.state == ReserveAnswer && Accepted(w, if reportedSpeed == 0 then 1 else reportedSpeed)
      ensures !ok ==> w.base.state == Rejected && database == map[]
      ensures var speed := if reportedSpeed == 0 then 1 else reportedSpeed;
              && (!ok ==> StoppedAt(PlanOf(w), grid, links, Books(old(store), old(virtuals), map[]), TermsOf(w, speed), w.groups, stop))
              && (!ok ==> HighestFirst(w.groups, stop))
              && (Unhindered(PlanOf(w), grid, links, old(store), TermsOf(w, speed), w.groups) ==> ok)
      ensures !ok ==> forall id :: id in booked ==> id in store && store[id].state in {Deleted, Rejected}
      ensures old(store).Keys <= store.Keys && AllTracked(Now())
      ensures w.Valid() && SameGroups(old(w.groups), w.groups)
    {
      hide Reliable, Separate, OrderSchedulable, AllServed, SameGroups, Partition, EdgesListed, GroupedBySync, Known, AllMet;
      hide Acyclic, Forward, NoNegativeTimes, TimePasses, Topological, ListsOnce, SortedByRank, IsRank, GroupGraph;
      hide StoppedAt, Unhindered, InTurn, HighestFirst;
      database, booked := map[], {};
      var speed := if reportedSpeed == 0 then 1 else reportedSpeed;
      ghost var p, t := PlanOf(w), Terms(speed, w.base.bookingStart, w.base.bookingEnd, grid.horizon);
      NodesKnown(p, store);
      GroupedKeys(w.nodes.Keys, w.syncs, w.groupOf);
      var order := w.CalculateUpwardRank(speed, store);
      RankOrderSchedulable(p, store, speed, w.groups, order);
      ok, stop := ScheduleInOrder(w, p, order, speed, t);
      NothingStops(p, grid, links, Books(old(store), old(virtuals), map[]), t, w.groups, stop);
      if ok {
        AllAccepted(p, Now(), t, w.groups, order);
        AllCovered(p, Now(), t, w.groups, w.base);
        w.base := w.base.(state := ReserveAnswer);
      } else {
        TurnsByRank(w.groups, order, stop);
        NoSegmentsOf(p, booked, Now());
        CancelAllReservations();
        w.base := w.base.(state := Rejected);
      }
    }
  }
}
