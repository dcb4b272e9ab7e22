/**
 Routes through a network of directed links: what the path search calls a path, what a simple path is,
 and what it means for a list of paths to be "the K shortest".
 */
module Paths {
  import opened Common

  type RouterId = nat
  type LinkId = nat

  datatype Link = Link(source: RouterId, target: RouterId, capacity: int)

  /** The links the topology owns, with the end points the resource store holds for them. */
  type Network = map<LinkId, Link>

  /** A path is the sequence of links to traverse. */
  type Path = seq<LinkId>

  ghost predicate Chained(net: Network, p: Path) {
    && (forall l :: l in p ==> l in net)
    && (forall i :: 0 < i < |p| ==> net[p[i]].source == net[p[i - 1]].target)
  }

  /** The loop test of the search: no link leads back to a router that an earlier link of the path left. */
  ghost predicate LoopFree(net: Network, p: Path)
    requires forall l :: l in p ==> l in net
  {
    forall i, j :: 0 <= i < j < |p| ==> net[p[j]].target != net[p[i]].source
  }

  /** A path the search may hold in its queue: it leaves s, has no loop and has not passed through t. */
  ghost predicate Explored(net: Network, s: RouterId, t: RouterId, p: Path) {
    && p != []
    && Chained(net, p)
    && net[p[0]].source == s
    && LoopFree(net, p)
    && forall i :: 0 <= i < |p| - 1 ==> net[p[i]].target != t
  }

  ghost predicate EndsAt(net: Network, t: RouterId, p: Path) {
    p != [] && p[|p| - 1] in net && net[p[|p| - 1]].target == t
  }

  ghost predicate Route(net: Network, s: RouterId, t: RouterId, p: Path) {
    Explored(net, s, t, p) && EndsAt(net, t, p)
  }

  /** The router reached after the first i links. */
  function RouterAt(net: Network, p: Path, i: nat): RouterId
    requires p != [] && i <= |p| && forall l :: l in p ==> l in net
  {
    if i == 0 then net[p[0]].source else net[p[i - 1]].target
  }

  /** The textbook notion: a chain of links from s to t that visits no router twice. */
  ghost predicate SimplePath(net: Network, s: RouterId, t: RouterId, p: Path) {
    && p != []
    && Chained(net, p)
    && RouterAt(net, p, 0) == s
    && RouterAt(net, p, |p|) == t
    && forall a, b :: 0 <= a < b <= |p| ==> RouterAt(net, p, a) != RouterAt(net, p, b)
  }

  ghost predicate NoSelfLoops(net: Network) {
    forall l :: l in net ==> net[l].source != net[l].target
  }

  /** Without self-loop links the search's notion of a path is the textbook one. */
  lemma RoutesAreSimplePaths(net: Network, s: RouterId, t: RouterId, p: Path)
    requires NoSelfLoops(net)
    ensures Route(net, s, t, p) <==> SimplePath(net, s, t, p)
  {
    if Route(net, s, t, p) {
      forall a, b | 0 <= a < b <= |p| ensures RouterAt(net, p, a) != RouterAt(net, p, b) {
        assert RouterAt(net, p, b) == net[p[b - 1]].target;
        assert RouterAt(net, p, a) == net[p[a]].source;
        assert p[a] in net;
      }
    }
    if SimplePath(net, s, t, p) {
      forall i, j | 0 <= i < j < |p| ensures net[p[j]].target != net[p[i]].source {
        assert RouterAt(net, p, i) == net[p[i]].source;
        assert RouterAt(net, p, j + 1) == net[p[j]].target;
      }
      forall i | 0 <= i < |p| - 1 ensures net[p[i]].target != t {
        assert RouterAt(net, p, i + 1) == net[p[i]].target;
      }
    }
  }

  /** The search admits simple paths only, for every query, exactly on the networks without self-loop links. */
  lemma SimpleExactlyWithoutSelfLoops(net: Network)
    ensures (forall s, t, p :: Route(net, s, t, p) ==> SimplePath(net, s, t, p)) <==> NoSelfLoops(net)
  {
    if NoSelfLoops(net) {
      forall s, t, p | Route(net, s, t, p) ensures SimplePath(net, s, t, p) {
        RoutesAreSimplePaths(net, s, t, p);
      }
    } else {
      var l :| l in net && net[l].source == net[l].target;
      var s := net[l].source;
      assert Route(net, s, s, [l]);
      assert !SimplePath(net, s, s, [l]) by {
        assert RouterAt(net, [l], 0) == RouterAt(net, [l], 1);
      }
    }
  }

  /** Two different routers do not help: with a loop at router 7, the search accepts 7 -> 7 -> 8 as a path to 8. */
  lemma SelfLoopCounterexample()
    ensures var net: Network := map[0 := Link(7, 7, 1), 1 := Link(7, 8, 1)];
            Route(net, 7, 8, [0, 1]) && !SimplePath(net, 7, 8, [0, 1])
  {
    var net: Network := map[0 := Link(7, 7, 1), 1 := Link(7, 8, 1)];
    var p: Path := [0, 1];
    assert Route(net, 7, 8, p);
    assert RouterAt(net, p, 0) == RouterAt(net, p, 1);
  }

  ghost predicate SelfLoop(net: Network, l: LinkId)
    requires l in net
  {
    net[l].source == net[l].target
  }

  /** No link leads away from a router with a self-loop. */
  ghost predicate SelfLoopsAreDeadEnds(net: Network) {
    forall l, m :: l in net && m in net && SelfLoop(net, l) && net[m].source == net[l].source ==> SelfLoop(net, m)
  }

  /**
   Paths are cached between different routers only. For these the search admits simple paths only exactly on the networks
   where self-loops sit at dead ends.
   */
  lemma SimpleBetweenDifferentExactly(net: Network)
    ensures (forall s, t, p :: s != t && Route(net, s, t, p) ==> SimplePath(net, s, t, p)) <==> SelfLoopsAreDeadEnds(net)
  {
    if SelfLoopsAreDeadEnds(net) {
      forall s, t, p | s != t && Route(net, s, t, p) ensures SimplePath(net, s, t, p) {
        forall l | l in p ensures !SelfLoop(net, l) {
          NoSelfLoopOnRoute(net, s, t, p, l);
        }
        LooplessRouteIsSimple(net, s, t, p);
      }
    } else {
      var l, m :| l in net && m in net && SelfLoop(net, l) && net[m].source == net[l].source && !SelfLoop(net, m);
      var s, t, p := net[l].source, net[m].target, [l, m];
      assert Route(net, s, t, p);
      assert RouterAt(net, p, 0) == RouterAt(net, p, 1);
    }
  }

  lemma NoSelfLoopOnRoute(net: Network, s: RouterId, t: RouterId, p: Path, l: LinkId)
    requires SelfLoopsAreDeadEnds(net) && s != t && Route(net, s, t, p) && l in p
    ensures !SelfLoop(net, l)
  {
    var i :| 0 <= i < |p| && p[i] == l;
    assert i < |p| - 1 ==> p[i + 1] in p && net[p[i + 1]].source == net[p[i]].target && net[p[i + 1]].target != net[p[i]].source;
    assert i > 0 ==> net[p[i]].source == net[p[i - 1]].target && net[p[i - 1]].target != t;
  }

  lemma LooplessRouteIsSimple(net: Network, s: RouterId, t: RouterId, p: Path)
    requires Route(net, s, t, p) && forall l :: l in p ==> !SelfLoop(net, l)
    ensures SimplePath(net, s, t, p)
  {
    var sub: Network := map l | l in net && !SelfLoop(net, l) :: net[l];
    assert Route(sub, s, t, p);
    RoutesAreSimplePaths(sub, s, t, p);
    assert forall i :: 0 <= i <= |p| ==> RouterAt(sub, p, i) == RouterAt(net, p, i);
  }

  /** No link is used twice, self-loops or not, so the loop test alone bounds the length of what is queued. */
  lemma ExploredUsesLinksOnce(net: Network, s: RouterId, t: RouterId, p: Path)
    requires Explored(net, s, t, p)
    ensures Distinct(p) && |p| <= |net.Keys|
  {
    forall i, j | 0 <= i < j < |p| ensures p[i] != p[j] {
      assert net[p[i + 1]].source == net[p[i]].target;
      if i + 1 < j {
        assert net[p[j]].target != net[p[i + 1]].source;
      } else {
        assert net[p[j]].target != net[p[i]].source;
      }
    }
    DistinctWithin(p, net.Keys);
  }

  lemma ExploredPrefix(net: Network, s: RouterId, t: RouterId, p: Path)
    requires Explored(net, s, t, p) && |p| > 1
    ensures Explored(net, s, t, p[..|p| - 1]) && !EndsAt(net, t, p[..|p| - 1])
  {
    var q := p[..|p| - 1];
    assert forall l :: l in q ==> l in p;
    assert forall i :: 0 <= i < |q| ==> q[i] == p[i];
  }

  /** When the search extends a path it holds by an outgoing link, the loop test decides. */
  lemma ExploredExtension(net: Network, s: RouterId, t: RouterId, p: Path, l: LinkId)
    requires Explored(net, s, t, p)
    ensures Explored(net, s, t, p + [l]) <==>
              && l in net && net[l].source == net[p[|p| - 1]].target && !EndsAt(net, t, p)
              && forall i :: 0 <= i < |p| ==> net[p[i]].source != net[l].target
  {
    var q := p + [l];
    assert q[|p|] == l && forall i :: 0 <= i < |p| ==> q[i] == p[i];
    assert forall x :: x in q <==> x in p || x == l;
    if Explored(net, s, t, q) {
      forall i | 0 <= i < |p| ensures net[p[i]].source != net[l].target {
        assert net[q[|p|]].target != net[q[i]].source;
      }
      assert net[q[|p|]].source == net[q[|p| - 1]].target;
    }
  }

  /** All link sequences of length at most n: a finite universe for the search. */
  ghost function SequencesUpTo(links: set<LinkId>, n: nat): set<Path> {
    if n == 0 then {[]}
    else SequencesUpTo(links, n - 1) + set p, l | p in SequencesUpTo(links, n - 1) && l in links :: p + [l]
  }

  lemma {:induction false} InSequencesUpTo(links: set<LinkId>, n: nat, p: Path)
    requires |p| <= n && forall l :: l in p ==> l in links
    ensures p in SequencesUpTo(links, n)
  {
    if n > 0 {
      if |p| < n {
        InSequencesUpTo(links, n - 1, p);
      } else {
        var q, l := p[..n - 1], p[n - 1];
        assert p == q + [l];
        InSequencesUpTo(links, n - 1, q);
      }
    }
  }

  ghost predicate SortedByLength(ps: seq<Path>) {
    forall i, j :: 0 <= i < j < |ps| ==> |ps[i]| <= |ps[j]|
  }

  /**
   What a search for the k shortest paths owes its caller: only routes, none twice, shortest first; all of them
   when there are fewer than k, and otherwise none left out that is shorter than one reported.
   */
  ghost predicate KShortest(net: Network, s: RouterId, t: RouterId, k: nat, found: seq<Path>) {
    && |found| <= k
    && Distinct(found)
    && SortedByLength(found)
    && (forall p :: p in found ==> Route(net, s, t, p))
    && (|found| < k ==> forall p :: Route(net, s, t, p) ==> p in found)
    && forall p, q :: Route(net, s, t, p) && p !in found && q in found ==> |q| <= |p|
  }

  /**
   Links are iterated in arbitrary order, so two searches may report different paths. They never differ in how
   many they report, nor in the length of the i-th.
   */
  lemma KShortestLengthsUnique(net: Network, s: RouterId, t: RouterId, k: nat, a: seq<Path>, b: seq<Path>)
    requires KShortest(net, s, t, k, a) && KShortest(net, s, t, k, b)
    ensures |a| == |b|
    ensures forall i :: 0 <= i < |a| ==> |a[i]| == |b[i]|
  {
    NotFewer(net, s, t, k, a, b);
    NotFewer(net, s, t, k, b, a);
    forall i | 0 <= i < |a| ensures |a[i]| == |b[i]| {
      NotShorter(net, s, t, k, a, b, i);
      NotShorter(net, s, t, k, b, a, i);
    }
  }

  lemma NotFewer(net: Network, s: RouterId, t: RouterId, k: nat, a: seq<Path>, b: seq<Path>)
    requires KShortest(net, s, t, k, a) && KShortest(net, s, t, k, b)
    ensures |a| <= |b|
  {
    if |b| < k {
      DistinctSize(b);
      DistinctWithin(a, Elements(b));
    }
  }

  lemma ShorterComesBefore(ps: seq<Path>, i: nat, p: Path)
    requires SortedByLength(ps) && i < |ps| && p in ps && |p| < |ps[i]|
    ensures p in ps[..i]
  {
    var n :| 0 <= n < |ps| && ps[n] == p;
    assert n < i;
    assert ps[..i][n] == p;
  }

  /** The first i + 1 elements of a cannot all be found among the first i of b. */
  lemma SomeElementMissing(a: seq<Path>, b: seq<Path>, i: nat)
    requires Distinct(a) && Distinct(b) && i < |a| && i <= |b|
    ensures exists m :: 0 <= m <= i && a[m] !in b[..i]
  {
    if forall m :: 0 <= m <= i ==> a[m] in b[..i] {
      DistinctSize(b[..i]);
      var short := a[..i + 1];
      forall p | p in short ensures p in Elements(b[..i]) {
        var m :| 0 <= m <= i && short[m] == p;
        assert a[m] in b[..i];
      }
      DistinctWithin(short, Elements(b[..i]));
    }
  }

  lemma NotShorter(net: Network, s: RouterId, t: RouterId, k: nat, a: seq<Path>, b: seq<Path>, i: nat)
    requires KShortest(net, s, t, k, a) && KShortest(net, s, t, k, b)
    requires i < |a| == |b|
    ensures |b[i]| <= |a[i]|
  {
    SomeElementMissing(a, b, i);
    var m :| 0 <= m <= i && a[m] !in b[..i];
    assert a[m] in a && b[i] in b;
    if |a[m]| < |b[i]| {
      ShorterComesBefore(b, i, a[m]);
    }
  }

  ghost predicate Known(net: Network, p: Path) {
    forall l :: l in p ==> l in net
  }

  /** The smallest capacity along a path; the largest integer for the empty path. */
  ghost function Bottleneck(net: Network, p: Path): int
    requires Known(net, p)
  {
    if p == [] then I64_MAX else Min(Bottleneck(net, p[..|p| - 1]), net[p[|p| - 1]].capacity)
  }

  lemma {:induction false} BottleneckIsLeast(net: Network, p: Path)
    requires Known(net, p)
    ensures forall l :: l in p ==> Bottleneck(net, p) <= net[l].capacity
    ensures Bottleneck(net, p) == I64_MAX || exists l :: l in p && net[l].capacity == Bottleneck(net, p)
  {
    if p != [] {
      var init, last := p[..|p| - 1], p[|p| - 1];
      BottleneckIsLeast(net, init);
      assert p == init + [last];
      if net[last].capacity <= Bottleneck(net, init) {
        assert last in p;
      }
    }
  }

  ghost function TotalBandwidth(net: Network, ps: seq<Path>): int
    requires forall p :: p in ps ==> Known(net, p)
  {
    if ps == [] then 0 else TotalBandwidth(net, ps[..|ps| - 1]) + Bottleneck(net, ps[|ps| - 1])
  }

  /** Bandwidths add up: one path counts with its bottleneck, and two lists with the sum of both. */
  lemma {:induction false} BandwidthsAddUp(net: Network, a: seq<Path>, b: seq<Path>, p: Path)
    requires Known(net, p) && (forall q :: q in a ==> Known(net, q)) && forall q :: q in b ==> Known(net, q)
    ensures forall q :: q in a + b ==> Known(net, q)
    ensures TotalBandwidth(net, [p]) == Bottleneck(net, p)
    ensures TotalBandwidth(net, a + b) == TotalBandwidth(net, a) + TotalBandwidth(net, b)
  {
    assert [p][..0] == [];
    if b == [] {
      assert a + b == a;
    } else {
      assert (a + b)[..|a + b| - 1] == a + b[..|b| - 1];
      BandwidthsAddUp(net, a, b[..|b| - 1], p);
    }
  }
}
