/**
 Booking bandwidth along a path: every link keeps a schedule of its own, and a slot of a reservation is booked on
 all links of the first cached path that is wholly free, or on none.
 */
module LinkStrategies {
  import opened Common
  import opened Paths
  import opened Topology
  import opened Reservations
  import opened Slots
  import opened Timeline
  import opened SlottedSchedules

  /** The schedules of the links as values. */
  type Bandwidths = map<LinkId, Schedule>

  /** What is left of a link in a slot; nothing outside the link's window. */
  function FreeAt(s: Schedule, v: int): int {
    if InWindow(s, v) then s.cells[v - s.start].capacity - s.cells[v - s.start].load else 0
  }

  ghost predicate NoneOverfull(s: Schedule) {
    forall i :: 0 <= i < |s.cells| ==> s.cells[i].load <= s.cells[i].capacity
  }

  ghost predicate AllSound(links: Bandwidths) {
    forall l :: l in links ==> NoneOverfull(links[l])
  }

  ghost predicate Within(links: Bandwidths, p: Path) {
    forall l :: l in p ==> l in links
  }

  /** What a path offers in a slot: no more than its fullest link has left, and no more than the bound. */
  ghost function Offer(links: Bandwidths, p: Path, v: int, bound: int): int
    requires Within(links, p)
  {
    if p == [] then bound else Min(Offer(links, p[..|p| - 1], v, bound), FreeAt(links[p[|p| - 1]], v))
  }

  lemma {:induction false} OfferIsLeast(links: Bandwidths, p: Path, v: int, bound: int)
    requires Within(links, p)
    ensures Offer(links, p, v, bound) <= bound
    ensures forall l :: l in p ==> Offer(links, p, v, bound) <= FreeAt(links[l], v)
    ensures Offer(links, p, v, bound) == bound || exists l :: l in p && Offer(links, p, v, bound) == FreeAt(links[l], v)
  {
    if p != [] {
      var init, last := p[..|p| - 1], p[|p| - 1];
      assert p == init + [last];
      OfferIsLeast(links, init, v, bound);
      if FreeAt(links[last], v) <= Offer(links, init, v, bound) {
        assert last in p;
      }
    }
  }

  ghost predicate AllWithin(links: Bandwidths, paths: seq<Path>) {
    forall k :: 0 <= k < |paths| ==> paths[k] != [] && Within(links, paths[k])
  }

  /** The best offer of the first n paths, or nothing if there is none above zero. */
  ghost predicate BestOffer(links: Bandwidths, paths: seq<Path>, n: nat, v: int, bound: int, best: int)
    requires AllWithin(links, paths) && n <= |paths|
  {
    && best >= 0
    && (forall k :: 0 <= k < n ==> Offer(links, paths[k], v, bound) <= best)
    && (best == 0 || exists k :: 0 <= k < n && Offer(links, paths[k], v, bound) == best)
  }

  lemma BestOfferGrows(links: Bandwidths, paths: seq<Path>, n: nat, v: int, bound: int, best: int)
    requires AllWithin(links, paths) && n < |paths| && bound >= 0 && BestOffer(links, paths, n, v, bound, best)
    ensures var offer := Offer(links, paths[n], v, bound);
            && BestOffer(links, paths, n + 1, v, bound, Max(best, offer))
            && (offer == bound ==> BestOffer(links, paths, |paths|, v, bound, bound))
  {
    forall k | 0 <= k < |paths| ensures Offer(links, paths[k], v, bound) <= bound {
      OfferIsLeast(links, paths[k], v, bound);
    }
    assert Offer(links, paths[n], v, bound) <= bound;
  }

  /** Every link of the path can take the whole capacity. */
  ghost predicate WhollyFree(links: Bandwidths, p: Path, v: int, capacity: int)
    requires Within(links, p)
  {
    forall l :: l in p ==> Available(links[l], v, capacity) == capacity
  }

  ghost predicate FirstFree(links: Bandwidths, paths: seq<Path>, v: int, capacity: int, k: int)
    requires AllWithin(links, paths)
  {
    && 0 <= k < |paths|
    && WhollyFree(links, paths[k], v, capacity)
    && forall j :: 0 <= j < k ==> !WhollyFree(links, paths[j], v, capacity)
  }

  ghost predicate NoneFree(links: Bandwidths, paths: seq<Path>, v: int, capacity: int)
    requires AllWithin(links, paths)
  {
    forall k :: 0 <= k < |paths| ==> !WhollyFree(links, paths[k], v, capacity)
  }

  /** Query and booking agree: a capacity up to the bound can be booked if and only if the best offer covers it. */
  lemma BookableExactly(links: Bandwidths, paths: seq<Path>, v: int, bound: int, best: int, capacity: int)
    requires AllWithin(links, paths) && 0 < capacity <= bound && BestOffer(links, paths, |paths|, v, bound, best)
    ensures NoneFree(links, paths, v, capacity) <==> best < capacity
  {
    forall k | 0 <= k < |paths| ensures WhollyFree(links, paths[k], v, capacity) <==> capacity <= Offer(links, paths[k], v, bound) {
      OfferIsLeast(links, paths[k], v, bound);
    }
    if best >= capacity {
      var k :| 0 <= k < |paths| && Offer(links, paths[k], v, bound) == best;
      assert WhollyFree(links, paths[k], v, capacity);
    }
  }

  /** The reservation entered into one slot of every link of a path. */
  ghost function BookedOn(links: Bandwidths, p: Path, v: int, capacity: int, id: ReservationId): Bandwidths {
    map l | l in links ::
      if l in p then links[l].(cells := InsertSpan(links[l].start, links[l].cells, v, v, capacity, id)) else links[l]
  }

  /** Every link of the path gains the capacity exactly once in the slot, no link is overfull, and nothing else changes. */
  ghost predicate GainsOnce(links: Bandwidths, after: Bandwidths, p: Path, v: int, capacity: int, id: ReservationId) {
    && after.Keys == links.Keys
    && (forall l :: l in links && l !in p ==> after[l] == links[l])
    && (forall l :: l in links && l in p ==> Gains(links[l], after[l], v, capacity, id))
  }

  ghost predicate Gains(s: Schedule, after: Schedule, v: int, capacity: int, id: ReservationId) {
    && after == s.(cells := after.cells) && |after.cells| == |s.cells| && InWindow(s, v)
    && LoadAt(after, v) == LoadAt(s, v) + capacity && IdsAt(after, v) == IdsAt(s, v) + {id} && FreeAt(after, v) >= 0
    && forall k :: 0 <= k < |s.cells| && k != v - s.start ==> after.cells[k] == s.cells[k]
  }

  /** Booking a path is all or nothing: on a wholly free path every link gains the capacity, and each only once. */
  lemma BookedOnGainsOnce(links: Bandwidths, p: Path, v: int, capacity: int, id: ReservationId)
    requires Within(links, p) && WhollyFree(links, p, v, capacity) && capacity > 0
    requires forall l :: l in p ==> id !in IdsAt(links[l], v)
    ensures GainsOnce(links, BookedOn(links, p, v, capacity, id), p, v, capacity, id)
  {
    var after := BookedOn(links, p, v, capacity, id);
    forall l | l in links && l in p ensures Gains(links[l], after[l], v, capacity, id) {
      GainsAt(links[l], v, capacity, id);
    }
  }

  lemma GainsAt(s: Schedule, v: int, capacity: int, id: ReservationId)
    requires Available(s, v, capacity) == capacity > 0 && id !in IdsAt(s, v)
    ensures Gains(s, s.(cells := InsertSpan(s.start, s.cells, v, v, capacity, id)), v, capacity, id)
  {
    var after := InsertSpan(s.start, s.cells, v, v, capacity, id);
    assert InWindow(s, v) && after[v - s.start] == Inserted(s.cells[v - s.start], capacity, id);
  }

  /** Entering twice is entering once, whether the slot takes the reservation or refuses it. */
  lemma InsertTwice(start: int, cells: seq<Cell>, v: int, capacity: int, id: ReservationId)
    ensures var once := InsertSpan(start, cells, v, v, capacity, id);
            InsertSpan(start, once, v, v, capacity, id) == once
  {
  }

  lemma NothingBooked(links: Bandwidths, p: Path, v: int, capacity: int, id: ReservationId)
    ensures BookedOn(links, p[..0], v, capacity, id) == links
  {
  }

  lemma BookedOnGrows(links: Bandwidths, p: Path, i: nat, v: int, capacity: int, id: ReservationId)
    requires i < |p| && p[i] in links
    ensures var before, l := BookedOn(links, p[..i], v, capacity, id), p[i];
            before.Keys == links.Keys &&
            BookedOn(links, p[..i + 1], v, capacity, id) ==
            before[l := before[l].(cells := InsertSpan(before[l].start, before[l].cells, v, v, capacity, id))]
  {
    InsertTwice(links[p[i]].start, links[p[i]].cells, v, capacity, id);
    assert p[..i + 1] == p[..i] + [p[i]];
  }

  /** The path remembered for one slot of the reservation. */
  ghost function Remembered(reserved: map<ReservationId, map<int, Path>>, id: ReservationId, v: int, p: Path): map<ReservationId, map<int, Path>> {
    reserved[id := (if id in reserved then reserved[id] else map[])[v := p]]
  }

  /** The path remembered for a slot of a reservation. */
  function PathFor(reserved: map<ReservationId, map<int, Path>>, id: ReservationId, v: int): Option<Path> {
    if id in reserved && v in reserved[id] then Some(reserved[id][v]) else None
  }

  /** Remembering a path for one slot forgets none that is remembered for another slot or reservation. */
  lemma RememberedExactly(reserved: map<ReservationId, map<int, Path>>, id: ReservationId, v: int, p: Path, x: ReservationId, u: int)
    ensures PathFor(Remembered(reserved, id, v, p), x, u) == if (x, u) == (id, v) then Some(p) else PathFor(reserved, x, u)
  {
  }

  /**
   The paths are those to use between the end points: the K shortest routes from source to target, if both are known
   access points, and otherwise none.
   */
  ghost predicate PathsBetween(net: Network, pairs: set<(RouterId, RouterId)>, source: Option<RouterId>, target: Option<RouterId>, paths: seq<Path>) {
    if source.Some? && target.Some? && (source.value, target.value) in pairs
    then KShortest(net, source.value, target.value, K_NUMBER_OF_PATHS, paths)
    else paths == []
  }

  /** They lead from source to target, and there are none exactly if the end points are no connected pair of access points. */
  lemma PathsLead(net: Network, pairs: set<(RouterId, RouterId)>, source: Option<RouterId>, target: Option<RouterId>, paths: seq<Path>)
    requires PathsBetween(net, pairs, source, target, paths)
    ensures forall p :: p in paths ==> source.Some? && target.Some? && Route(net, source.value, target.value, p)
    ensures paths == [] <==>
      !(source.Some? && target.Some? && (source.value, target.value) in pairs && Connected(net, source.value, target.value))
  {
    if source.Some? && target.Some? && (source.value, target.value) in pairs {
      if paths == [] {
        assert |paths| < K_NUMBER_OF_PATHS;
      } else {
        assert paths[0] in paths;
      }
    }
  }

  /** Everything that booking a slot may change: the links, the schedule of the network, and the paths remembered. */
  datatype NetworkState = NetworkState(links: Bandwidths, own: Schedule, reserved: map<ReservationId, map<int, Path>>)

  ghost function BookedState(s: NetworkState, p: Path, v: int, capacity: int, id: ReservationId): NetworkState {
    NetworkState(BookedOn(s.links, p, v, capacity, id),
                 s.own.(cells := InsertSpan(s.own.start, s.own.cells, v, v, capacity, id)),
                 Remembered(s.reserved, id, v, p))
  }

  /** The first wholly free path is booked and remembered, or there is none and nothing changes. */
  ghost predicate AllOrNothing(before: NetworkState, after: NetworkState, paths: seq<Path>, v: int, capacity: int, id: ReservationId)
    requires AllWithin(before.links, paths)
  {
    if NoneFree(before.links, paths, v, capacity) then after == before
    else exists k :: FirstFree(before.links, paths, v, capacity, k) && after == BookedState(before, paths[k], v, capacity, id)
  }

  /** A route from source to target has been booked. */
  ghost predicate BookedOnRoute(net: Network, before: NetworkState, after: NetworkState, source: Option<RouterId>, target: Option<RouterId>,
                                v: int, capacity: int, id: ReservationId) {
    source.Some? && target.Some? &&
    exists p :: Route(net, source.value, target.value, p) && after == BookedState(before, p, v, capacity, id)
  }

  /** Whatever is booked is a route from source to target. */
  lemma OnRoute(net: Network, pairs: set<(RouterId, RouterId)>, before: NetworkState, after: NetworkState, source: Option<RouterId>,
                target: Option<RouterId>, paths: seq<Path>, v: int, capacity: int, id: ReservationId)
    requires AllWithin(before.links, paths) && AllOrNothing(before, after, paths, v, capacity, id)
    requires PathsBetween(net, pairs, source, target, paths)
    ensures after != before ==> BookedOnRoute(net, before, after, source, target, v, capacity, id)
  {
    PathsLead(net, pairs, source, target, paths);
    if after != before {
      var k :| FirstFree(before.links, paths, v, capacity, k) && after == BookedState(before, paths[k], v, capacity, id);
      assert paths[k] in paths;
    }
  }

  lemma CachedWithin(net: Network, cache: PathCache, links: Bandwidths, s: RouterId, t: RouterId)
    requires CacheSound(net, cache) && (s, t) in cache && links.Keys == net.Keys
    ensures AllWithin(links, cache[(s, t)])
    ensures forall p :: p in cache[(s, t)] ==> Distinct(p)
  {
    var paths := cache[(s, t)];
    forall p | p in paths ensures p != [] && Within(links, p) && Distinct(p) {
      assert Route(net, s, t, p);
      ExploredUsesLinksOnce(net, s, t, p);
    }
    assert forall k :: 0 <= k < |paths| ==> paths[k] in paths;
  }

  lemma BoundNonNegative(net: Network, cache: PathCache, widest: int, s: RouterId, t: RouterId)
    requires CacheSound(net, cache) && WidestCached(net, cache, widest) && (s, t) in cache
    requires forall l :: l in net ==> net[l].capacity >= 0
    ensures widest >= 0
  {
    var p := cache[(s, t)][0];
    assert Route(net, s, t, p) && Known(net, p);
    BottleneckIsLeast(net, p);
    assert IsCached(cache, p);
  }

  lemma EntersSound(s: Schedule, v: int, capacity: int, id: ReservationId)
    requires NoneOverfull(s)
    ensures NoneOverfull(s.(cells := InsertSpan(s.start, s.cells, v, v, capacity, id)))
  {
  }

  lemma NoOfferYet(links: Bandwidths, paths: seq<Path>, v: int, bound: int)
    requires AllWithin(links, paths)
    ensures BestOffer(links, paths, 0, v, bound, 0)
  {
  }

  lemma OfferOfNone(links: Bandwidths, p: Path, v: int, bound: int)
    requires Within(links, p)
    ensures Offer(links, p[..0], v, bound) == bound
  {
  }

  lemma OfferGrows(links: Bandwidths, p: Path, i: nat, v: int, bound: int)
    requires i < |p| && Within(links, p)
    ensures Offer(links, p[..i + 1], v, bound) == Min(Offer(links, p[..i], v, bound), FreeAt(links[p[i]], v))
  {
    assert p[..i + 1][..i] == p[..i];
  }

  /** The walk over the links ends with the offer of the path, even if it stops early. */
  lemma OfferComplete(links: Bandwidths, p: Path, v: int, bound: int, offer: int)
    requires p != [] && Within(links, p) && AllSound(links) && bound >= 0
    requires exists i :: 0 < i <= |p| && (i == |p| || offer == 0) && offer == Min(Offer(links, p[..i], v, bound), FreeAt(links[p[0]], v))
    ensures offer == Offer(links, p, v, bound)
  {
    var i :| 0 < i <= |p| && (i == |p| || offer == 0) && offer == Min(Offer(links, p[..i], v, bound), FreeAt(links[p[0]], v));
    assert p[..|p|] == p;
    OfferIsLeast(links, p[..i], v, bound);
    OfferIsLeast(links, p, v, bound);
    forall l | l in p ensures FreeAt(links[l], v) >= 0 {
      assert NoneOverfull(links[l]);
    }
  }

  /** A schedule is as it was if neither its fields nor its slots have changed. */
  twostate lemma Untouched(s: SlottedSchedule)
    requires old(s.Linked()) && unchanged(s) && forall x :: x in s.slots ==> unchanged(x)
    ensures s.Linked() && s.ring != [] && s.Abs() == old(s.Abs())
  {
    assert forall i :: 0 <= i < |s.slots| ==> s.slots[i] in s.slots;
    assert forall i :: 0 <= i < |s.slots| ==> s.slots[i].Value() == old(s.slots[i].Value());
  }

  class LinkStrategy {
    const net: Network
    const pathCache: PathCache
    const maxBandwidth: int
    /** The pairs of access points for which paths have been cached, as far as they are connected. */
    ghost const pairs: set<(RouterId, RouterId)>
    /** The schedule of each link, and the schedule of the network as a whole. */
    const links: map<LinkId, SlottedSchedule>
    const own: SlottedSchedule
    var reservedPaths: map<ReservationId, map<int, Path>>

    ghost predicate TwoApart(a: SlottedSchedule, b: SlottedSchedule) {
      a != b && forall x :: x in a.slots ==> x !in b.slots
    }

    ghost predicate Apart() {
      && (forall l, m :: l in links && m in links && l != m ==> TwoApart(links[l], links[m]))
      && (forall l :: l in links ==> TwoApart(links[l], own))
    }

    ghost function LinkSlots(): set<Slot> {
      set l, x | l in links && x in links[l].slots :: x
    }

    ghost predicate AllLinked()
      reads links.Values, LinkSlots()
    {
      forall l :: l in links ==>
        assert forall x :: x in links[l].slots ==> x in LinkSlots();
        links[l].Linked()
    }

    /** The schedules of the links as values. */
    ghost function Bandwidth(): (b: Bandwidths)
      requires AllLinked()
      reads links.Values, LinkSlots()
      ensures b.Keys == links.Keys
    {
      map l | l in links :: links[l].Abs()
    }

    ghost predicate Valid()
      reads links.Values, LinkSlots()
      reads own, own.slots
    {
      && Apart() && links.Keys == net.Keys && (forall l :: l in net ==> net[l].capacity >= 0)
      && CacheSound(net, pathCache) && WidestCached(net, pathCache, maxBandwidth)
      && (forall s, t :: (s, t) in pathCache <==> (s, t) in pairs && Connected(net, s, t))
      && AllLinked() && own.Linked() && AllSound(Bandwidth())
    }

    constructor (topology: NetworkTopology, links: map<LinkId, SlottedSchedule>, own: SlottedSchedule)
      requires Filled(topology.net, topology.pathCache, topology.virtualLinks, topology.maxBandwidth, topology.AccessPairs())
      requires links.Keys == topology.net.Keys && forall l :: l in topology.net ==> topology.net[l].capacity >= 0
      requires forall l, m :: l in links && m in links && l != m ==>
        links[l] != links[m] && forall x :: x in links[l].slots ==> x !in links[m].slots
      requires forall l :: l in links ==> links[l] != own && forall x :: x in links[l].slots ==> x !in own.slots
      requires own.Linked() && forall l :: l in links ==> links[l].Linked() && NoneOverfull(links[l].Abs())
      ensures Valid() && reservedPaths == map[]
      ensures this.links == links && this.own == own && pathCache == topology.pathCache && maxBandwidth == topology.maxBandwidth
      ensures net == topology.net && pairs == topology.AccessPairs()
    {
      pairs := topology.AccessPairs();
      net, pathCache, maxBandwidth := topology.net, topology.pathCache, topology.maxBandwidth;
      this.links, this.own := links, own;
      reservedPaths := map[];
    }

    /** The cached paths between the end points of a reservation; none without end points. */
    function CachedPaths(source: Option<RouterId>, target: Option<RouterId>): seq<Path> {
      if source.Some? && target.Some? && (source.value, target.value) in pathCache then pathCache[(source.value, target.value)] else []
    }

    lemma PathsKnown(source: Option<RouterId>, target: Option<RouterId>)
      requires Valid()
      ensures AllWithin(Bandwidth(), CachedPaths(source, target))
      ensures forall p :: p in CachedPaths(source, target) ==> Distinct(p)
      ensures CachedPaths(source, target) != [] ==> maxBandwidth >= 0
      ensures PathsBetween(net, pairs, source, target, CachedPaths(source, target))
    {
      if source.Some? && target.Some? && (source.value, target.value) in pathCache {
        CachedWithin(net, pathCache, Bandwidth(), source.value, target.value);
        BoundNonNegative(net, pathCache, maxBandwidth, source.value, target.value);
      }
    }

    /** The schedules of the links have the values given. */
    ghost predicate Serves(b: Bandwidths)
      reads links.Values, LinkSlots()
    {
      AllLinked() && AllSound(b) && b == Bandwidth()
    }

    function AdjustLink(l: LinkId, index: int, requirement: int, ghost b: Bandwidths): (available: int)
      requires Serves(b) && l in b
      reads links.Values, LinkSlots()
      ensures available == Available(b[l], index, requirement)
      ensures requirement >= 0 ==> 0 <= available == Min(requirement, FreeAt(b[l], index))
    {
      assert NoneOverfull(b[l]);
      assert forall x :: x in links[l].slots ==> x in LinkSlots();
      links[l].AdjustRequirement(index, requirement)
    }

    /**
     What the network offers between two routers in a slot: the best of the cached paths, each as wide as its
     fullest link, up to the widest bandwidth of all paths.
     */
    method AdjustRequirement(index: int, source: Option<RouterId>, target: Option<RouterId>) returns (available: int)
      requires Valid()
      ensures AllWithin(Bandwidth(), CachedPaths(source, target))
      ensures var paths := CachedPaths(source, target);
              BestOffer(Bandwidth(), paths, |paths|, index, maxBandwidth, available)
      ensures PathsBetween(net, pairs, source, target, CachedPaths(source, target))
    {
      PathsKnown(source, target);
      hide CacheSound, WidestCached, Apart, CachedPaths, AllLinked, AllSound, Bandwidth, BestOffer, AllWithin;
      ghost var b := Bandwidth();
      available := BestOf(CachedPaths(source, target), index, b);
      assert b == Bandwidth();
    }

    method BestOf(paths: seq<Path>, index: int, ghost b: Bandwidths) returns (available: int)
      requires Serves(b) && AllSound(b) && AllWithin(b, paths) && (paths != [] ==> maxBandwidth >= 0)
      ensures Serves(b) && BestOffer(b, paths, |paths|, index, maxBandwidth, available)
    {
      hide Serves, Offer, FreeAt, BestOffer;
      available := 0;
      NoOfferYet(b, paths, index, maxBandwidth);
      for i := 0 to |paths|
        invariant Serves(b)
        invariant available >= 0 && BestOffer(b, paths, i, index, maxBandwidth, available)
      {
        var path := paths[i];
        var offer := AdjustLink(path[0], index, maxBandwidth, b);
        OfferOfNone(b, path, index, maxBandwidth);
        for j := 0 to |path|
          invariant Serves(b)
          invariant 0 <= offer == Min(Offer(b, path[..j], index, maxBandwidth), FreeAt(b[path[0]], index))
        {
          OfferGrows(b, path, j, index, maxBandwidth);
          offer := AdjustLink(path[j], index, offer, b);
          if offer == 0 {
            break;
          }
        }
        OfferComplete(b, path, index, maxBandwidth, offer);
        BestOfferGrows(b, paths, i, index, maxBandwidth, available);
        if offer == maxBandwidth {
          return maxBandwidth;
        } else if offer > available {
          available := offer;
        }
      }
    }

    method IsWhollyFree(p: Path, index: int, capacity: int, ghost b: Bandwidths) returns (free: bool)
      requires Serves(b) && Within(b, p)
      ensures Serves(b) && (free <==> WhollyFree(b, p, index, capacity))
    {
      hide Serves, Available;
      free := true;
      for i := 0 to |p|
        invariant Serves(b) && free
        invariant forall j :: 0 <= j < i ==> Available(b[p[j]], index, capacity) == capacity
      {
        var available := AdjustLink(p[i], index, capacity, b);
        if available != capacity {
          assert p[i] in p;
          return false;
        }
      }
    }

    method EnterLink(l: LinkId, index: int, capacity: int, id: ReservationId, ghost b: Bandwidths)
      requires Apart() && Serves(b) && l in b && own.Linked()
      modifies LinkSlots(), links.Values
      ensures own.Linked() && own.Abs() == old(own.Abs())
      ensures Serves(b[l := b[l].(cells := InsertSpan(b[l].start, b[l].cells, index, index, capacity, id))])
    {
      hide InsertSpan, NoneOverfull, SlottedSchedule.Linked;
      var link := links[l];
      EntersSound(b[l], index, capacity, id);
      assert forall x :: x in link.slots ==> x in LinkSlots();
      assert TwoApart(link, own);
      link.InsertIntoSlot(capacity, index, id);
      Untouched(own);
      ghost var after := b[l := b[l].(cells := InsertSpan(b[l].start, b[l].cells, index, index, capacity, id))];
      link.Facts();
      forall m | m in links ensures links[m].Linked() && links[m].ring != [] && links[m].Abs() == after[m] {
        if m != l {
          assert TwoApart(link, links[m]);
          Untouched(links[m]);
        }
      }
      Serving(after);
    }

    lemma Serving(b: Bandwidths)
      requires b.Keys == links.Keys && AllSound(b)
      requires forall l :: l in links ==> links[l].Linked() && links[l].ring != [] && links[l].Abs() == b[l]
      ensures Serves(b)
    {
    }

    method BookPath(p: Path, index: int, capacity: int, id: ReservationId, ghost b: Bandwidths)
      requires Apart() && Serves(b) && Within(b, p) && own.Linked()
      modifies LinkSlots(), links.Values
      ensures own.Linked() && own.ring != [] && own.Abs() == old(own.Abs())
      ensures Serves(BookedOn(b, p, index, capacity, id))
    {
      own.Facts();
      hide SlottedSchedule.Linked, Serves, Apart, LinkSlots, BookedOn;
      ghost var network := own.Abs();
      NothingBooked(b, p, index, capacity, id);
      for i := 0 to |p|
        invariant own.Linked() && own.ring != [] && own.Abs() == network
        invariant Serves(BookedOn(b, p[..i], index, capacity, id)) && BookedOn(b, p[..i], index, capacity, id).Keys == b.Keys
        modifies LinkSlots(), links.Values
      {
        BookedOnGrows(b, p, i, index, capacity, id);
        EnterLink(p[i], index, capacity, id, BookedOn(b, p[..i], index, capacity, id));
        own.Facts();
      }
      assert p[..|p|] == p;
    }

    ghost function State(): NetworkState
      requires AllLinked() && own.Linked()
      reads this, links.Values, LinkSlots(), own, own.slots
    {
      NetworkState(Bandwidth(), own.Abs(), reservedPaths)
    }

    method EnterOwn(index: int, capacity: int, id: ReservationId, ghost b: Bandwidths)
      requires Apart() && Serves(b) && b.Keys == links.Keys && own.Linked()
      modifies own.slots, own`ring
      ensures Serves(b) && own.Linked() && own.ring != []
      ensures own.Abs() == old(own.Abs()).(cells := InsertSpan(own.startIndex, old(own.Abs().cells), index, index, capacity, id))
    {
      hide InsertSpan, NoneOverfull, SlottedSchedule.Linked;
      own.Facts();
      own.InsertIntoSlot(capacity, index, id);
      own.Facts();
      forall l | l in links ensures links[l].Linked() && links[l].ring != [] && links[l].Abs() == b[l] {
        assert TwoApart(links[l], own);
        Untouched(links[l]);
      }
      Serving(b);
    }

    method BookOn(p: Path, index: int, capacity: int, id: ReservationId, ghost b: Bandwidths)
      requires Apart() && Serves(b) && b.Keys == links.Keys && Within(b, p) && own.Linked()
      modifies this`reservedPaths, LinkSlots(), links.Values, own.slots, own`ring
      ensures own.Linked() && own.ring != [] && Serves(BookedOn(b, p, index, capacity, id))
      ensures own.Abs() == old(own.Abs()).(cells := InsertSpan(own.startIndex, old(own.Abs().cells), index, index, capacity, id))
      ensures reservedPaths == Remembered(old(reservedPaths), id, index, p)
    {
      own.Facts();
      hide SlottedSchedule.Linked, Serves, Apart, LinkSlots, InsertSpan;
      BookPath(p, index, capacity, id, b);
      var earlier := if id in reservedPaths then reservedPaths[id] else map[];
      reservedPaths := reservedPaths[id := earlier[index := p]];
      EnterOwn(index, capacity, id, BookedOn(b, p, index, capacity, id));
    }

    /** Books one slot of a reservation on all links of the first cached path that is wholly free. */
    method InsertReservationIntoSlot(index: int, id: ReservationId, source: Option<RouterId>, target: Option<RouterId>)
      requires Valid() && id in own.store
      modifies this`reservedPaths, LinkSlots(), links.Values, own.slots, own`ring
      ensures Valid() && AllWithin(old(Bandwidth()), CachedPaths(source, target))
      ensures AllOrNothing(old(State()), State(), CachedPaths(source, target), index, own.store[id].capacity, id)
      ensures PathsBetween(net, pairs, source, target, CachedPaths(source, target))
      ensures State() != old(State()) ==>
        BookedOnRoute(net, old(State()), State(), source, target, index, own.store[id].capacity, id)
    {
      PathsKnown(source, target);
      own.Facts();
      ghost var before := State();
      BookFirstFree(CachedPaths(source, target), index, own.store[id].capacity, id, before.links);
      OnRoute(net, pairs, before, State(), source, target, CachedPaths(source, target), index, own.store[id].capacity, id);
    }

    method BookFirstFree(paths: seq<Path>, index: int, capacity: int, id: ReservationId, ghost b: Bandwidths)
      requires Apart() && Serves(b) && b.Keys == links.Keys && AllWithin(b, paths) && own.Linked() && own.ring != []
      modifies this`reservedPaths, LinkSlots(), links.Values, own.slots, own`ring
      ensures own.Linked() && own.ring != []
      ensures if NoneFree(b, paths, index, capacity)
              then Serves(b) && own.Abs() == old(own.Abs()) && reservedPaths == old(reservedPaths)
              else exists k :: && FirstFree(b, paths, index, capacity, k) && Serves(BookedOn(b, paths[k], index, capacity, id))
                               && reservedPaths == Remembered(old(reservedPaths), id, index, paths[k])
                               && own.Abs() == old(own.Abs()).(cells := InsertSpan(own.startIndex, old(own.Abs().cells), index, index, capacity, id))
    {
      hide SlottedSchedule.Linked, Serves, Apart, LinkSlots, InsertSpan, WhollyFree, BookedOn;
      for i := 0 to |paths|
        invariant Serves(b) && own.Linked() && own.ring != [] && own.Abs() == old(own.Abs()) && reservedPaths == old(reservedPaths)
        invariant forall k :: 0 <= k < i ==> !WhollyFree(b, paths[k], index, capacity)
      {
        var free := IsWhollyFree(paths[i], index, capacity, b);
        if free {
          BookOn(paths[i], index, capacity, id, b);
          assert FirstFree(b, paths, index, capacity, i);
          return;
        }
      }
    }
  }
}
