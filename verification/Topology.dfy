/**
 The network topology: routers, adjacency, the search for the K shortest paths between two routers, and the
 cache of those paths for all pairs of grid access points.
 */
module Topology {
  import opened Common
  import opened Paths

  const K_NUMBER_OF_PATHS: nat := 10

  type Adjacency = map<RouterId, set<LinkId>>

  /** The adjacency map lists, for every router with outgoing links, exactly those links. */
  ghost predicate Adjacent(net: Network, adjacency: Adjacency) {
    && (forall l :: l in net ==> net[l].source in adjacency)
    && (forall r :: r in adjacency ==> forall l :: l in adjacency[r] <==> l in net && net[l].source == r)
  }

  /** Breadth first: what is queued is sorted behind what has been taken out, and spans at most two lengths. */
  ghost predicate Layered(done: seq<Path>, queue: seq<Path>) {
    && Distinct(done + queue)
    && SortedByLength(done + queue)
    && forall p :: p in queue ==> |p| <= |queue[0]| + 1
  }

  ghost predicate AllExplored(net: Network, s: RouterId, t: RouterId, ps: seq<Path>) {
    forall p :: p in ps ==> Explored(net, s, t, p)
  }

  /** Every path longer than one link came into the queue when its longest proper prefix was taken out. */
  ghost predicate ParentsDone(done: seq<Path>, ps: seq<Path>) {
    forall p :: p in ps && |p| > 1 ==> p[..|p| - 1] in done
  }

  /** Nothing is missed: every explored path has been queued, unless it has a prefix that is still to be extended. */
  ghost predicate ChildrenSeen(net: Network, s: RouterId, t: RouterId, done: seq<Path>, queue: seq<Path>) {
    forall p :: Explored(net, s, t, p) && (|p| == 1 || p[..|p| - 1] in done) ==> p in done || p in queue
  }

  /** The state of the search: the paths taken out of the queue so far, in order, and those still in it. */
  ghost predicate Frontier(net: Network, s: RouterId, t: RouterId, done: seq<Path>, queue: seq<Path>) {
    && Layered(done, queue)
    && AllExplored(net, s, t, done)
    && AllExplored(net, s, t, queue)
    && ParentsDone(done, done)
    && ParentsDone(done, queue)
    && ChildrenSeen(net, s, t, done, queue)
  }

  /** The paths to put in the queue when the path p is taken out: its extensions, each once. */
  ghost predicate Extensions(net: Network, s: RouterId, t: RouterId, p: Path, kids: seq<Path>) {
    && Distinct(kids)
    && (forall q :: q in kids ==> |q| == |p| + 1 && q[..|p|] == p && Explored(net, s, t, q))
    && (forall q :: Explored(net, s, t, q) && |q| == |p| + 1 && q[..|p|] == p ==> q in kids)
  }

  lemma LayeredStep(done: seq<Path>, queue: seq<Path>, kids: seq<Path>)
    requires queue != [] && Layered(done, queue) && Distinct(kids)
    requires forall q :: q in kids ==> |q| == |queue[0]| + 1 && q !in done && q !in queue
    ensures Layered(done + [queue[0]], queue[1..] + kids)
  {
    var all := done + queue;
    assert done + [queue[0]] + (queue[1..] + kids) == all + kids;
    assert forall m :: 0 <= m < |kids| ==> kids[m] in kids;
    forall i | 0 <= i < |all| ensures all[i] !in kids && |all[i]| <= |queue[0]| + 1 {
      if i < |done| {
        assert all[|done|] == queue[0];
        assert all[i] in done;
      } else {
        assert all[i] == queue[i - |done|];
      }
    }
    forall p | p in queue[1..] + kids ensures |p| <= |(queue[1..] + kids)[0]| + 1 {
      assert |queue[0]| <= |(queue[1..] + kids)[0]| by {
        if |queue| > 1 {
          assert all[|done|] == queue[0] && all[|done| + 1] == queue[1];
        }
      }
    }
  }

  lemma ChildrenStep(net: Network, s: RouterId, t: RouterId, done: seq<Path>, queue: seq<Path>, kids: seq<Path>)
    requires queue != [] && ChildrenSeen(net, s, t, done, queue)
    requires Extensions(net, s, t, queue[0], kids)
    ensures ChildrenSeen(net, s, t, done + [queue[0]], queue[1..] + kids)
  {
    var p := queue[0];
    assert forall q :: q in queue ==> q == p || q in queue[1..];
    forall q | Explored(net, s, t, q) && (|q| == 1 || q[..|q| - 1] in done + [p])
      ensures q in done + [p] || q in queue[1..] + kids
    {
      if |q| == 1 || q[..|q| - 1] in done {
        assert q in done || q in queue;
      } else {
        assert q[..|p|] == p;
      }
    }
  }

  /** Taking out the first path of the queue and queueing its extensions keeps the search state. */
  lemma FrontierStep(net: Network, s: RouterId, t: RouterId, done: seq<Path>, queue: seq<Path>, kids: seq<Path>)
    requires queue != [] && Frontier(net, s, t, done, queue)
    requires Extensions(net, s, t, queue[0], kids)
    ensures Frontier(net, s, t, done + [queue[0]], queue[1..] + kids)
  {
    NotYetDone(done, queue);
    assert forall q :: q in kids ==> q[..|q| - 1] == queue[0];
    LayeredStep(done, queue, kids);
    ChildrenStep(net, s, t, done, queue, kids);
    assert forall q :: q in queue[1..] ==> q in queue;
  }

  lemma NotYetDone(done: seq<Path>, queue: seq<Path>)
    requires queue != [] && Layered(done, queue)
    ensures queue[0] !in done
    ensures forall q :: q in done ==> |q| <= |queue[0]|
    ensures forall q :: q in queue ==> |queue[0]| <= |q|
  {
    var all := done + queue;
    assert all[|done|] == queue[0];
    forall i | 0 <= i < |done| ensures done[i] != queue[0] && |done[i]| <= |queue[0]| {
      assert all[i] == done[i];
    }
    forall i | 0 <= i < |queue| ensures |queue[0]| <= |queue[i]| {
      assert all[|done| + i] == queue[i];
    }
  }

  /** Every path not yet taken out is at least as long as the next one in the queue; in particular there is one. */
  lemma {:induction false} PendingIsLong(net: Network, s: RouterId, t: RouterId, done: seq<Path>, queue: seq<Path>, p: Path)
    requires Frontier(net, s, t, done, queue)
    requires Explored(net, s, t, p) && p !in done
    ensures queue != [] && |queue[0]| <= |p|
    decreases |p|
  {
    if p in queue {
      NotYetDone(done, queue);
    } else {
      ExploredPrefix(net, s, t, p);
      PendingIsLong(net, s, t, done, queue, p[..|p| - 1]);
    }
  }

  /** Each path taken out is a new one of a finite universe, so the search ends. */
  lemma DoneGrows(net: Network, s: RouterId, t: RouterId, done: seq<Path>, queue: seq<Path>)
    requires queue != [] && Frontier(net, s, t, done, queue)
    ensures Explored(net, s, t, queue[0]) && Layered(done, queue)
    ensures var universe := SequencesUpTo(net.Keys, |net.Keys|);
            universe - Elements(done + [queue[0]]) < universe - Elements(done)
  {
    assert Elements(done + [queue[0]]) == Elements(done) + {queue[0]};
    NotYetDone(done, queue);
    ExploredUsesLinksOnce(net, s, t, queue[0]);
    InSequencesUpTo(net.Keys, |net.Keys|, queue[0]);
  }

  /** The solutions found: the paths taken out that end at the target, shortest first. */
  ghost predicate Solutions(net: Network, t: RouterId, done: seq<Path>, found: seq<Path>) {
    && Distinct(found)
    && SortedByLength(found)
    && (forall p :: p in found <==> p in done && EndsAt(net, t, p))
  }

  lemma NoSolutionYet(net: Network, t: RouterId)
    ensures Solutions(net, t, [], [])
  {
  }

  lemma SolutionStep(net: Network, t: RouterId, done: seq<Path>, queue: seq<Path>, found: seq<Path>)
    requires queue != [] && Layered(done, queue)
    requires Solutions(net, t, done, found)
    ensures Solutions(net, t, done + [queue[0]], if EndsAt(net, t, queue[0]) then found + [queue[0]] else found)
  {
    NotYetDone(done, queue);
    assert forall i :: 0 <= i < |found| ==> found[i] in found;
  }

  /** If the target is reached the path is not extended: there is nothing to extend. */
  lemma TargetHasNoExtensions(net: Network, s: RouterId, t: RouterId, p: Path)
    requires Explored(net, s, t, p) && EndsAt(net, t, p)
    ensures Extensions(net, s, t, p, [])
  {
    forall q | |q| == |p| + 1 && q[..|p|] == p ensures !Explored(net, s, t, q) {
      if Explored(net, s, t, q) {
        ExploredPrefix(net, s, t, q);
      }
    }
  }

  /** When the queue has run empty, or the k-th solution has just been found, the search has met its duty. */
  lemma SearchDone(net: Network, s: RouterId, t: RouterId, k: nat, done: seq<Path>, queue: seq<Path>, found: seq<Path>)
    requires Frontier(net, s, t, done, queue)
    requires Solutions(net, t, done, found)
    requires (|found| < k && queue == []) || |found| == k > 0
    ensures KShortest(net, s, t, k, found)
  {
    forall p | Route(net, s, t, p) && p !in found ensures queue != [] && |queue[0]| <= |p| {
      PendingIsLong(net, s, t, done, queue, p);
    }
    if queue != [] {
      NotYetDone(done, queue);
    }
  }

  /** Does the link lead back to a router that the path has already left? */
  method ClosesLoop(net: Network, p: Path, l: LinkId) returns (isLoop: bool)
    requires l in net && forall x :: x in p ==> x in net
    ensures isLoop <==> exists i :: 0 <= i < |p| && net[p[i]].source == net[l].target
  {
    isLoop := false;
    for i := 0 to |p|
      invariant !isLoop
      invariant forall j :: 0 <= j < i ==> net[p[j]].source != net[l].target
    {
      if net[p[i]].source == net[l].target {
        isLoop := true;
        break;
      }
    }
  }

  lemma InitialFrontier(net: Network, adjacency: Adjacency, s: RouterId, t: RouterId, queue: seq<Path>)
    requires Adjacent(net, adjacency) && Distinct(queue)
    requires forall p :: p in queue ==> |p| == 1 && s in adjacency && p[0] in adjacency[s]
    requires s in adjacency ==> forall l :: l in adjacency[s] ==> [l] in queue
    ensures Frontier(net, s, t, [], queue)
  {
    assert Layered([], queue) by {
      assert [] + queue == queue;
      assert forall i :: 0 <= i < |queue| ==> queue[i] in queue;
    }
    OneLinkExplored(net, adjacency, s, t, queue);
    hide Layered, ChildrenSeen, AllExplored;
    assert ParentsDone([], queue);
  }

  lemma OneLinkExplored(net: Network, adjacency: Adjacency, s: RouterId, t: RouterId, queue: seq<Path>)
    requires Adjacent(net, adjacency)
    requires forall p :: p in queue ==> |p| == 1 && s in adjacency && p[0] in adjacency[s]
    requires s in adjacency ==> forall l :: l in adjacency[s] ==> [l] in queue
    ensures AllExplored(net, s, t, queue) && AllExplored(net, s, t, []) && ChildrenSeen(net, s, t, [], queue)
  {
    forall p | Explored(net, s, t, p) && |p| == 1 ensures p in queue {
      assert p[0] in p && p == [p[0]];
    }
  }

  /** Queues the paths of one link that leave the source router. */
  method StartPaths(net: Network, adjacency: Adjacency, s: RouterId, ghost t: RouterId) returns (queue: seq<Path>)
    requires Adjacent(net, adjacency)
    ensures Frontier(net, s, t, [], queue)
  {
    queue := [];
    if s in adjacency {
      var todo := adjacency[s];
      while todo != {}
        invariant todo <= adjacency[s]
        invariant Distinct(queue)
        invariant forall p :: p in queue ==> |p| == 1 && p[0] in adjacency[s] - todo
        invariant forall l :: l in adjacency[s] - todo ==> [l] in queue
      {
        var l :| l in todo;
        todo := todo - {l};
        if l in net {
          assert [l][0] == l && [l] !in queue;
          queue := queue + [[l]];
        }
      }
    }
    InitialFrontier(net, adjacency, s, t, queue);
  }

  /** The extensions of a path by the outgoing links of the router it ends at, loops left out. */
  method Extend(net: Network, adjacency: Adjacency, s: RouterId, t: RouterId, p: Path) returns (kids: seq<Path>)
    requires Adjacent(net, adjacency)
    requires Explored(net, s, t, p) && !EndsAt(net, t, p)
    ensures Extensions(net, s, t, p, kids)
  {
    kids := [];
    var last := p[|p| - 1];
    assert last in p;
    var at := net[last].target;
    if at in adjacency {
      var todo := adjacency[at];
      while todo != {}
        invariant todo <= adjacency[at]
        invariant Distinct(kids)
        invariant forall q :: q in kids ==> |q| == |p| + 1 && q[..|p|] == p && q[|p|] in adjacency[at] - todo
        invariant forall q :: q in kids ==> Explored(net, s, t, q)
        invariant forall l :: l in adjacency[at] - todo && Explored(net, s, t, p + [l]) ==> p + [l] in kids
      {
        var l :| l in todo;
        todo := todo - {l};
        var isLoop := ClosesLoop(net, p, l);
        ExploredExtension(net, s, t, p, l);
        if !isLoop {
          assert p + [l] !in kids;
          kids := kids + [p + [l]];
        }
      }
    }
    forall q | Explored(net, s, t, q) && |q| == |p| + 1 && q[..|p|] == p ensures q in kids {
      var l := q[|p|];
      assert q == p + [l];
      ExploredExtension(net, s, t, p, l);
    }
  }

  /** Breadth-first search over whole paths, cut off when k solutions have been found. */
  method FindPaths(net: Network, adjacency: Adjacency, s: RouterId, t: RouterId, k: nat) returns (found: seq<Path>)
    requires Adjacent(net, adjacency) && k > 0
    ensures KShortest(net, s, t, k, found)
  {
    found := [];
    var queue := StartPaths(net, adjacency, s, t);
    ghost var done: seq<Path> := [];
    hide Frontier, Solutions, Extensions, Adjacent, Layered, Elements, SequencesUpTo;
    NoSolutionYet(net, t);
    while queue != []
      invariant Frontier(net, s, t, done, queue)
      invariant Solutions(net, t, done, found) && |found| < k
      decreases SequencesUpTo(net.Keys, |net.Keys|) - Elements(done)
    {
      var current := queue[0];
      DoneGrows(net, s, t, done, queue);
      SolutionStep(net, t, done, queue, found);
      var kids: seq<Path> := [];
      var last := current[|current| - 1];
      if net[last].target == t {
        found := found + [current];
        TargetHasNoExtensions(net, s, t, current);
      } else {
        kids := Extend(net, adjacency, s, t, current);
      }
      FrontierStep(net, s, t, done, queue, kids);
      done := done + [current];
      queue := queue[1..] + kids;
      if |found| >= k {
        break;
      }
    }
    SearchDone(net, s, t, k, done, queue, found);
  }

  /** The virtual link that stands for all cached paths between two grid access points. */
  datatype VirtualLink = VirtualLink(source: RouterId, target: RouterId, capacity: int, avgBandwidth: int)

  type PathCache = map<(RouterId, RouterId), seq<Path>>

  ghost predicate Connected(net: Network, s: RouterId, t: RouterId) {
    exists p :: Route(net, s, t, p)
  }

  ghost predicate CacheSound(net: Network, cache: PathCache) {
    forall s, t :: (s, t) in cache ==> cache[(s, t)] != [] && KShortest(net, s, t, K_NUMBER_OF_PATHS, cache[(s, t)])
  }

  ghost predicate IsCached(cache: PathCache, p: Path) {
    exists key :: key in cache && p in cache[key]
  }

  /** No cached path is wider than the bound; where it is not the initial -1, some cached path is that wide. */
  ghost predicate WidestCached(net: Network, cache: PathCache, widest: int) {
    && (forall p :: IsCached(cache, p) && Known(net, p) ==> Bottleneck(net, p) <= widest)
    && (widest == -1 || exists p :: IsCached(cache, p) && Known(net, p) && Bottleneck(net, p) == widest)
  }

  /** The bound after the paths found have been looked at. */
  ghost predicate Widened(net: Network, found: seq<Path>, widest: int, widest': int) {
    && widest <= widest'
    && (forall p :: p in found && Known(net, p) ==> Bottleneck(net, p) <= widest')
    && (widest' == widest || exists p :: p in found && Known(net, p) && Bottleneck(net, p) == widest')
  }

  lemma NothingWidened(net: Network, widest: int)
    ensures Widened(net, [], widest, widest)
  {
  }

  lemma WidenedStep(net: Network, found: seq<Path>, p: Path, widest: int, widest': int)
    requires Known(net, p) && Widened(net, found, widest, widest')
    ensures Widened(net, found + [p], widest, Max(widest', Bottleneck(net, p)))
  {
    assert p in found + [p];
    forall q | q in found ensures q in found + [p] {
    }
  }

  lemma WidestCachedStep(net: Network, cache: PathCache, widest: int, s: RouterId, t: RouterId, found: seq<Path>, widest': int)
    requires (s, t) !in cache && WidestCached(net, cache, widest)
    requires Widened(net, found, widest, widest')
    ensures WidestCached(net, cache[(s, t) := found], widest')
  {
    var cache' := cache[(s, t) := found];
    forall p | IsCached(cache', p) && Known(net, p) ensures Bottleneck(net, p) <= widest' {
      var key :| key in cache' && p in cache'[key];
      if key != (s, t) {
        assert key in cache && p in cache[key];
        assert IsCached(cache, p);
      }
    }
    if widest' != widest {
      var p :| p in found && Known(net, p) && Bottleneck(net, p) == widest';
      assert (s, t) in cache' && p in cache'[(s, t)];
      assert IsCached(cache', p);
    } else if widest != -1 {
      var p :| IsCached(cache, p) && Known(net, p) && Bottleneck(net, p) == widest;
      var key :| key in cache && p in cache[key];
      assert key in cache' && p in cache'[key];
      assert IsCached(cache', p);
    }
  }

  ghost predicate Summarises(net: Network, cache: PathCache, v: VirtualLink) {
    && (v.source, v.target) in cache
    && var ps := cache[(v.source, v.target)];
       && ps != []
       && (forall p :: p in ps ==> Known(net, p))
       && v.capacity == TotalBandwidth(net, ps)
       && v.avgBandwidth == TruncDiv(v.capacity, |ps|)
  }

  ghost predicate Covered(vs: seq<VirtualLink>, s: RouterId, t: RouterId) {
    exists v :: v in vs && v.source == s && v.target == t
  }

  /** What the topology holds once the router pairs given have been searched. */
  ghost predicate Filled(net: Network, cache: PathCache, vs: seq<VirtualLink>, widest: int, pairs: set<(RouterId, RouterId)>) {
    && CacheSound(net, cache)
    && WidestCached(net, cache, widest)
    && (forall s, t :: (s, t) in cache <==> (s, t) in pairs && Connected(net, s, t))
    && (forall v :: v in vs ==> Summarises(net, cache, v))
    && (forall s, t :: (s, t) in cache ==> Covered(vs, s, t))
  }

  lemma SummariesStep(net: Network, cache: PathCache, vs: seq<VirtualLink>, v: VirtualLink, found: seq<Path>)
    requires (v.source, v.target) !in cache
    requires forall u :: u in vs ==> Summarises(net, cache, u)
    requires Summarises(net, cache[(v.source, v.target) := found], v)
    requires forall s, t :: (s, t) in cache ==> Covered(vs, s, t)
    ensures forall u :: u in vs + [v] ==> Summarises(net, cache[(v.source, v.target) := found], u)
    ensures forall s, t :: (s, t) in cache[(v.source, v.target) := found] ==> Covered(vs + [v], s, t)
  {
    var cache' := cache[(v.source, v.target) := found];
    forall u | u in vs ensures Summarises(net, cache', u) {
      assert cache'[(u.source, u.target)] == cache[(u.source, u.target)];
    }
    forall s, t | (s, t) in cache' ensures Covered(vs + [v], s, t) {
      if (s, t) == (v.source, v.target) {
        assert v in vs + [v];
      } else {
        var u :| u in vs && u.source == s && u.target == t;
        assert u in vs + [v];
      }
    }
  }

  /** One more pair searched: either unconnected, or cached, summarised and taken into account for the width. */
  lemma FilledStep(
    net: Network, cache: PathCache, vs: seq<VirtualLink>, widest: int, pairs: set<(RouterId, RouterId)>,
    v: VirtualLink, found: seq<Path>, widest': int)
    requires Filled(net, cache, vs, widest, pairs) && (v.source, v.target) !in pairs
    requires Connected(net, v.source, v.target) && found != []
    requires KShortest(net, v.source, v.target, K_NUMBER_OF_PATHS, found)
    requires Summarises(net, cache[(v.source, v.target) := found], v)
    requires Widened(net, found, widest, widest')
    ensures Filled(net, cache[(v.source, v.target) := found], vs + [v], widest', pairs + {(v.source, v.target)})
  {
    assert (v.source, v.target) !in cache;
    WidestCachedStep(net, cache, widest, v.source, v.target, found, widest');
    SummariesStep(net, cache, vs, v, found);
    assert CacheSound(net, cache[(v.source, v.target) := found]);
  }

  /** Registers grid nodes as access points, and the remaining end points of links as plain routers. */
  method SetupRouters(nodes: seq<RouterId>, net: Network) returns (routers: map<RouterId, bool>)
    ensures forall r :: r in routers <==> r in nodes || exists l :: l in net && r in {net[l].source, net[l].target}
    ensures forall r :: r in routers ==> (routers[r] <==> r in nodes)
  {
    routers := map[];
    for i := 0 to |nodes|
      invariant forall r :: r in routers <==> r in nodes[..i]
      invariant forall r :: r in routers ==> routers[r]
    {
      routers := routers[nodes[i] := true];
    }
    assert nodes[..|nodes|] == nodes;
    var todo := net.Keys;
    while todo != {}
      invariant todo <= net.Keys
      invariant forall r :: r in routers <==>
        r in nodes || exists l :: l in net.Keys - todo && r in {net[l].source, net[l].target}
      invariant forall r :: r in routers ==> (routers[r] <==> r in nodes)
    {
      var l :| l in todo;
      todo := todo - {l};
      if net[l].target !in routers {
        routers := routers[net[l].target := false];
      }
      if net[l].source !in routers {
        routers := routers[net[l].source := false];
      }
    }
  }

  /** Looks both end points of each link up among the routers and files the link under its source. */
  method SetupAdjacency(net: Network, routers: map<RouterId, bool>) returns (adjacency: Adjacency)
    requires forall l :: l in net ==> net[l].source in routers
    ensures Adjacent(net, adjacency)
  {
    adjacency := map[];
    var todo := net.Keys;
    while todo != {}
      invariant todo <= net.Keys
      invariant forall l :: l in net.Keys - todo ==> net[l].source in adjacency
      invariant forall r :: r in adjacency ==> forall l :: l in adjacency[r] <==> l in net.Keys - todo && net[l].source == r
    {
      var l :| l in todo;
      todo := todo - {l};
      var sourceFound, targetFound, rest := false, false, routers.Keys;
      ghost var before := adjacency;
      var filed := (if net[l].source in adjacency then adjacency[net[l].source] else {}) + {l};
      while rest != {}
        invariant !sourceFound ==> net[l].source in rest && adjacency == before
        invariant sourceFound ==> adjacency == before[net[l].source := filed]
      {
        var r :| r in rest;
        rest := rest - {r};
        if r == net[l].source {
          sourceFound := true;
          adjacency := adjacency[r := filed];
          if targetFound {
            break;
          }
        }
        if r == net[l].target {
          targetFound := true;
          if sourceFound {
            break;
          }
        }
      }
    }
  }

  method BandwidthBottleneck(net: Network, p: Path) returns (bandwidth: int)
    requires Known(net, p)
    ensures bandwidth == Bottleneck(net, p)
  {
    bandwidth := I64_MAX;
    for i := 0 to |p|
      invariant bandwidth == Bottleneck(net, p[..i])
    {
      assert p[..i + 1][..i] == p[..i];
      if net[p[i]].capacity < bandwidth {
        bandwidth := net[p[i]].capacity;
      }
    }
    assert p[..|p|] == p;
  }

  /** Adds the bottlenecks of the solutions up and keeps track of the widest. */
  method SumBandwidths(net: Network, found: seq<Path>, widest: int) returns (total: int, widest': int)
    requires forall p :: p in found ==> Known(net, p)
    ensures total == TotalBandwidth(net, found)
    ensures Widened(net, found, widest, widest')
  {
    total, widest' := 0, widest;
    hide Widened, Bottleneck;
    NothingWidened(net, widest);
    for i := 0 to |found|
      invariant total == TotalBandwidth(net, found[..i])
      invariant Widened(net, found[..i], widest, widest')
    {
      assert found[..i + 1][..i] == found[..i] && found[..i + 1] == found[..i] + [found[i]];
      var bandwidth := BandwidthBottleneck(net, found[i]);
      WidenedStep(net, found[..i], found[i], widest, widest');
      if bandwidth > widest' {
        widest' := bandwidth;
      }
      total := total + bandwidth;
    }
    assert found[..|found|] == found;
  }

  class NetworkTopology {
    const net: Network
    const routers: map<RouterId, bool>
    const adjacency: Adjacency
    var pathCache: PathCache
    var virtualLinks: seq<VirtualLink>
    var maxBandwidth: int

    /** The ordered pairs of different grid access points. */
    ghost function AccessPairs(): set<(RouterId, RouterId)> {
      set s, t | s in routers && t in routers && routers[s] && routers[t] && s != t :: (s, t)
    }

    constructor (nodes: seq<RouterId>, links: Network)
      ensures net == links
      ensures forall s, t :: (s, t) in AccessPairs() <==> s in nodes && t in nodes && s != t
      ensures Filled(net, pathCache, virtualLinks, maxBandwidth, AccessPairs())
    {
      var rs := SetupRouters(nodes, links);
      var adj := SetupAdjacency(links, rs);
      net, routers, adjacency := links, rs, adj;
      pathCache, virtualLinks, maxBandwidth := map[], [], -1;
      new;
      CalcAllPaths();
    }

    /** Searches, caches and summarises the paths between two routers. */
    method CalcKShortestPaths(s: RouterId, t: RouterId) returns (r: Option<VirtualLink>)
      requires Adjacent(net, adjacency)
      modifies this`pathCache, this`maxBandwidth
      ensures r.Some? <==> Connected(net, s, t)
      ensures r.None? ==> pathCache == old(pathCache) && maxBandwidth == old(maxBandwidth)
      ensures r.Some? ==>
        && (s, t) in pathCache && pathCache == old(pathCache)[(s, t) := pathCache[(s, t)]]
        && pathCache[(s, t)] != [] && KShortest(net, s, t, K_NUMBER_OF_PATHS, pathCache[(s, t)])
        && (r.value.source, r.value.target) == (s, t) && Summarises(net, pathCache, r.value)
        && Widened(net, pathCache[(s, t)], old(maxBandwidth), maxBandwidth)
    {
      var found := FindPaths(net, adjacency, s, t, K_NUMBER_OF_PATHS);
      if found == [] {
        return None;
      }
      assert Route(net, s, t, found[0]);
      pathCache := pathCache[(s, t) := found];
      var total, widest := SumBandwidths(net, found, maxBandwidth);
      maxBandwidth := widest;
      r := Some(VirtualLink(s, t, total, TruncDiv(total, |found|)));
    }

    /** Caches the paths of all ordered pairs of different grid access points. */
    method CalcAllPaths()
      requires Adjacent(net, adjacency)
      requires pathCache == map[] && virtualLinks == [] && maxBandwidth == -1
      modifies this`pathCache, this`virtualLinks, this`maxBandwidth
      ensures Filled(net, pathCache, virtualLinks, maxBandwidth, AccessPairs())
    {
      ghost var pairs := {};
      var sources := routers.Keys;
      while sources != {}
        invariant sources <= routers.Keys
        invariant Filled(net, pathCache, virtualLinks, maxBandwidth, pairs)
        invariant forall s, t :: (s, t) in pairs <==> (s, t) in AccessPairs() && s !in sources
      {
        var source :| source in sources;
        if routers[source] {
          var targets := routers.Keys;
          while targets != {}
            invariant targets <= routers.Keys
            invariant Filled(net, pathCache, virtualLinks, maxBandwidth, pairs)
            invariant forall s, t :: (s, t) in pairs <==>
              (s, t) in AccessPairs() && (s !in sources || (s == source && t !in targets))
          {
            var target :| target in targets;
            targets := targets - {target};
            if routers[target] && source != target {
              ghost var before, widest := pathCache, maxBandwidth;
              var r := CalcKShortestPaths(source, target);
              if r.Some? {
                FilledStep(net, before, virtualLinks, widest, pairs, r.value, pathCache[(source, target)], maxBandwidth);
                virtualLinks := virtualLinks + [r.value];
              }
              pairs := pairs + {(source, target)};
            }
          }
        }
        sources := sources - {source};
      }
      assert pairs == AccessPairs() by {
        forall key ensures key in pairs <==> key in AccessPairs() {
          assert key == (key.0, key.1);
        }
      }
    }
  }
}
