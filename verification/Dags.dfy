/**
 Weighted directed acyclic graphs: paths, reachability, and the rank of a vertex, which is the weight of the
 heaviest path that starts there.
 */
module Dags {
  import opened Common

  type VertexId = nat

  datatype Edge = Edge(target: VertexId, cost: int)

  datatype Vertex = Vertex(duration: int, outgoing: seq<Edge>)

  type Graph = map<VertexId, Vertex>

  ghost predicate Closed(g: Graph) {
    forall v :: v in g ==> forall e :: e in g[v].outgoing ==> e.target in g
  }

  ghost predicate HasEdge(g: Graph, v: VertexId, w: VertexId) {
    v in g && exists e :: e in g[v].outgoing && e.target == w
  }

  /** A path is the sequence of edges it follows. */
  ghost predicate IsPath(g: Graph, v: VertexId, es: seq<Edge>)
    decreases |es|
  {
    v in g && (es != [] ==> es[0] in g[v].outgoing && IsPath(g, es[0].target, es[1..]))
  }

  ghost function End(v: VertexId, es: seq<Edge>): VertexId {
    if es == [] then v else es[|es| - 1].target
  }

  /** The durations of all vertices on the path and the costs of all its edges. */
  ghost function Weight(g: Graph, v: VertexId, es: seq<Edge>): int
    requires IsPath(g, v, es)
    decreases |es|
  {
    g[v].duration + if es == [] then 0 else es[0].cost + Weight(g, es[0].target, es[1..])
  }

  /** The weights of two paths that follow each other add up, but for the vertex between them, which counts once. */
  lemma {:induction false} WeightsAddUp(g: Graph, v: VertexId, a: seq<Edge>, b: seq<Edge>)
    requires IsPath(g, v, a) && IsPath(g, End(v, a), b)
    ensures IsPath(g, v, a + b) && End(v, a) in g
    ensures Weight(g, v, a + b) + g[End(v, a)].duration == Weight(g, v, a) + Weight(g, End(v, a), b)
    ensures Weight(g, v, []) == g[v].duration
    ensures |a| == 1 ==> Weight(g, v, a) == g[v].duration + a[0].cost + g[a[0].target].duration
    decreases |a|
  {
    if a == [] {
      assert a + b == b;
    } else {
      WeightsAddUp(g, a[0].target, a[1..], b);
      assert (a + b)[1..] == a[1..] + b;
    }
  }

  ghost predicate Reaches(g: Graph, v: VertexId, w: VertexId) {
    exists es :: es != [] && IsPath(g, v, es) && End(v, es) == w
  }

  ghost predicate Acyclic(g: Graph) {
    forall v :: v in g ==> !Reaches(g, v, v)
  }

  lemma {:induction false} PathConcat(g: Graph, v: VertexId, a: seq<Edge>, b: seq<Edge>)
    requires IsPath(g, v, a) && IsPath(g, End(v, a), b)
    ensures IsPath(g, v, a + b) && End(v, a + b) == End(End(v, a), b)
    decreases |a|
  {
    if a == [] {
      assert a + b == b;
    } else {
      PathConcat(g, a[0].target, a[1..], b);
      assert (a + b)[1..] == a[1..] + b;
    }
  }

  lemma EdgeReaches(g: Graph, v: VertexId, w: VertexId)
    requires Closed(g) && HasEdge(g, v, w)
    ensures Reaches(g, v, w)
  {
    var e :| e in g[v].outgoing && e.target == w;
    var es := [e];
    assert es[1..] == [] && IsPath(g, w, []);
    assert IsPath(g, v, es) && End(v, es) == w;
  }

  lemma ReachesTransitive(g: Graph, u: VertexId, v: VertexId, w: VertexId)
    requires Reaches(g, u, v) && Reaches(g, v, w)
    ensures Reaches(g, u, w)
  {
    var a :| a != [] && IsPath(g, u, a) && End(u, a) == v;
    var b :| b != [] && IsPath(g, v, b) && End(v, b) == w;
    PathConcat(g, u, a, b);
  }

  ghost function Descendants(g: Graph, v: VertexId): set<VertexId> {
    set w | w in g && Reaches(g, v, w)
  }

  ghost function Ancestors(g: Graph, v: VertexId): set<VertexId> {
    set w | w in g && Reaches(g, w, v)
  }

  /** A measure that drops along every edge of an acyclic graph. */
  ghost function Level(g: Graph, v: VertexId): nat {
    |Descendants(g, v)|
  }

  lemma LevelDrops(g: Graph, v: VertexId, w: VertexId)
    requires Closed(g) && Acyclic(g) && HasEdge(g, v, w)
    ensures Level(g, w) < Level(g, v)
  {
    EdgeReaches(g, v, w);
    forall x | x in Descendants(g, w) ensures x in Descendants(g, v) {
      ReachesTransitive(g, v, w, x);
    }
    assert w in Descendants(g, v) && w !in Descendants(g, w);
    SubsetSize(Descendants(g, w), Descendants(g, v));
  }

  /** A set closed under edges that holds all vertices without predecessor holds every vertex. */
  lemma {:induction false} ClosedSetHoldsAll(g: Graph, s: set<VertexId>, v: VertexId)
    requires Closed(g) && Acyclic(g) && v in g
    requires forall u, w :: u in s && HasEdge(g, u, w) ==> w in s
    requires forall w :: w in g && (forall u :: !HasEdge(g, u, w)) ==> w in s
    ensures v in s
    decreases |Ancestors(g, v)|
  {
    if exists u :: HasEdge(g, u, v) {
      var u :| HasEdge(g, u, v);
      EdgeReaches(g, u, v);
      forall x | x in Ancestors(g, u) ensures x in Ancestors(g, v) {
        ReachesTransitive(g, x, u, v);
      }
      assert u in Ancestors(g, v) && u !in Ancestors(g, u);
      SubsetSize(Ancestors(g, u), Ancestors(g, v));
      ClosedSetHoldsAll(g, s, u);
    }
  }

  /** The paths from v that stop at once or start with one of the edges given. */
  ghost predicate StartsWithin(es: seq<Edge>, first: seq<Edge>) {
    es == [] || es[0] in first
  }

  /** r is the weight of the heaviest path from v among those considered, and one of n vertices attains it. */
  ghost predicate HeaviestWithin(g: Graph, v: VertexId, first: seq<Edge>, r: int, n: nat) {
    && (exists es :: IsPath(g, v, es) && StartsWithin(es, first) && Weight(g, v, es) == r && |es| + 1 == n)
    && (forall es :: IsPath(g, v, es) && StartsWithin(es, first) ==> Weight(g, v, es) <= r)
  }

  /** The rank of v and the number of vertices of a path that attains it. */
  ghost predicate IsRank(g: Graph, v: VertexId, r: int, n: nat) {
    && (exists es :: IsPath(g, v, es) && Weight(g, v, es) == r && |es| + 1 == n)
    && (forall es :: IsPath(g, v, es) ==> Weight(g, v, es) <= r)
  }

  lemma HeaviestBase(g: Graph, v: VertexId)
    requires v in g
    ensures HeaviestWithin(g, v, [], g[v].duration, 1)
  {
    assert IsPath(g, v, []) && Weight(g, v, []) == g[v].duration;
  }

  /** One more outgoing edge is considered, to a successor whose rank is known. */
  lemma HeaviestStep(g: Graph, v: VertexId, first: seq<Edge>, r: int, n: nat, e: Edge, r': int, n': nat)
    requires v in g && e in g[v].outgoing && HeaviestWithin(g, v, first, r, n)
    requires IsRank(g, e.target, r', n')
    ensures var candidate := g[v].duration + e.cost + r';
            if r < candidate then HeaviestWithin(g, v, first + [e], candidate, n' + 1)
            else HeaviestWithin(g, v, first + [e], r, n)
  {
    var candidate := g[v].duration + e.cost + r';
    forall es | IsPath(g, v, es) && StartsWithin(es, first + [e])
      ensures Weight(g, v, es) <= Max(r, candidate)
    {
      if !StartsWithin(es, first) {
        assert es[0] == e;
        assert Weight(g, e.target, es[1..]) <= r';
      }
    }
    if r < candidate {
      var rest :| IsPath(g, e.target, rest) && Weight(g, e.target, rest) == r' && |rest| + 1 == n';
      var es := [e] + rest;
      assert es[1..] == rest && IsPath(g, v, es) && StartsWithin(es, first + [e]);
      assert Weight(g, v, es) == candidate;
    } else {
      var es :| IsPath(g, v, es) && StartsWithin(es, first) && Weight(g, v, es) == r && |es| + 1 == n;
      assert StartsWithin(es, first + [e]);
    }
  }

  lemma HeaviestIsRank(g: Graph, v: VertexId, r: int, n: nat)
    requires v in g && HeaviestWithin(g, v, g[v].outgoing, r, n)
    ensures IsRank(g, v, r, n)
  {
    forall es | IsPath(g, v, es) ensures StartsWithin(es, g[v].outgoing) {
    }
  }

  /** No edge can be passed in no time, so ranks drop strictly along every edge. */
  ghost predicate Forward(g: Graph) {
    forall v :: v in g ==> forall e :: e in g[v].outgoing ==> g[v].duration + e.cost >= 1
  }

  lemma RankDrops(g: Graph, v: VertexId, w: VertexId, rv: int, nv: nat, rw: int, nw: nat)
    requires Forward(g) && HasEdge(g, v, w)
    requires IsRank(g, v, rv, nv) && IsRank(g, w, rw, nw)
    ensures rw < rv
  {
    RankCoversEdge(g, v, w, rv, nv, rw, nw);
  }

  /** Neither tasks nor transfers take less than no time. */
  ghost predicate NoNegativeTimes(g: Graph) {
    forall v :: v in g ==> g[v].duration >= 0 && forall e :: e in g[v].outgoing ==> e.cost >= 0
  }

  lemma RankDoesNotRise(g: Graph, v: VertexId, w: VertexId, rv: int, nv: nat, rw: int, nw: nat)
    requires NoNegativeTimes(g) && HasEdge(g, v, w)
    requires IsRank(g, v, rv, nv) && IsRank(g, w, rw, nw)
    ensures rw <= rv
  {
    RankCoversEdge(g, v, w, rv, nv, rw, nw);
  }

  lemma RankCoversEdge(g: Graph, v: VertexId, w: VertexId, rv: int, nv: nat, rw: int, nw: nat)
    requires HasEdge(g, v, w) && IsRank(g, v, rv, nv) && IsRank(g, w, rw, nw)
    ensures exists e :: e in g[v].outgoing && e.target == w && rv >= g[v].duration + e.cost + rw
  {
    var e :| e in g[v].outgoing && e.target == w;
    var rest :| IsPath(g, w, rest) && Weight(g, w, rest) == rw && |rest| + 1 == nw;
    var es := [e] + rest;
    assert es[1..] == rest && IsPath(g, v, es);
    assert Weight(g, v, es) == g[v].duration + e.cost + rw;
  }

  ghost predicate Heaviest(g: Graph, v: VertexId, es: seq<Edge>) {
    IsPath(g, v, es) && forall fs :: IsPath(g, v, fs) ==> Weight(g, v, fs) <= Weight(g, v, es)
  }

  /** Every heaviest path takes time to pass its first edge. */
  ghost predicate TimePasses(g: Graph) {
    forall v, es: seq<Edge> :: es != [] && Heaviest(g, v, es) ==> g[v].duration + es[0].cost >= 1
  }

  /** Along one edge, the rank stays the same only if some heaviest path starts with an edge that takes no time. */
  lemma EqualRanksAreFree(g: Graph, v: VertexId, w: VertexId, r: int, nv: nat, nw: nat)
    requires NoNegativeTimes(g) && HasEdge(g, v, w) && IsRank(g, v, r, nv) && IsRank(g, w, r, nw)
    ensures !TimePasses(g)
  {
    var e :| e in g[v].outgoing && e.target == w && exists rest :: IsPath(g, w, rest) && Weight(g, w, rest) == r;
    var rest :| IsPath(g, w, rest) && Weight(g, w, rest) == r;
    var es := [e] + rest;
    assert es[1..] == rest && IsPath(g, v, es);
    assert Weight(g, v, es) == g[v].duration + e.cost + r;
    assert Heaviest(g, v, es);
  }

  /** A heaviest path that starts with an edge that takes no time leads to a vertex of the same rank, or a higher one. */
  lemma FreeEdgeKeepsRank(g: Graph, v: VertexId, es: seq<Edge>, rv: int, nv: nat, rw: int, nw: nat)
    requires es != [] && Heaviest(g, v, es) && g[v].duration + es[0].cost < 1
    requires IsRank(g, v, rv, nv) && IsRank(g, es[0].target, rw, nw)
    ensures HasEdge(g, v, es[0].target) && rv <= rw
  {
    assert IsPath(g, es[0].target, es[1..]);
    var fs :| IsPath(g, v, fs) && Weight(g, v, fs) == rv;
  }

  /** Tasks take time and transfers do not take less than none. */
  ghost predicate Positive(g: Graph) {
    forall v :: v in g ==> g[v].duration >= 1 && forall e :: e in g[v].outgoing ==> e.cost >= 0
  }

  /** With positive durations a heaviest path runs on until a vertex without successor. */
  lemma {:induction false} HeaviestPathEndsAtExit(g: Graph, v: VertexId, r: int, n: nat, es: seq<Edge>)
    requires Closed(g) && Positive(g) && IsRank(g, v, r, n)
    requires IsPath(g, v, es) && Weight(g, v, es) == r
    ensures End(v, es) in g && g[End(v, es)].outgoing == []
  {
    PathEndKnown(g, v, es);
    var last := End(v, es);
    if g[last].outgoing != [] {
      var e := g[last].outgoing[0];
      assert [e][1..] == [] && IsPath(g, e.target, []) && IsPath(g, last, [e]);
      PathConcat(g, v, es, [e]);
      WeightSnoc(g, v, es, e);
    }
  }

  lemma {:induction false} PathEndKnown(g: Graph, v: VertexId, es: seq<Edge>)
    requires Closed(g) && IsPath(g, v, es)
    ensures End(v, es) in g
    decreases |es|
  {
    if es != [] {
      PathEndKnown(g, es[0].target, es[1..]);
    }
  }

  lemma {:induction false} WeightSnoc(g: Graph, v: VertexId, es: seq<Edge>, e: Edge)
    requires Closed(g) && IsPath(g, v, es) && IsPath(g, v, es + [e]) && e.target in g
    ensures Weight(g, v, es + [e]) == Weight(g, v, es) + e.cost + g[e.target].duration
    decreases |es|
  {
    if es == [] {
      assert es + [e] == [e];
      assert Weight(g, e.target, []) == g[e.target].duration;
    } else {
      assert (es + [e])[1..] == es[1..] + [e];
      WeightSnoc(g, es[0].target, es[1..], e);
    }
  }
}
