/** Undirected connectivity of a finite relation, and a union-find structure that maintains it. */
module Connectivity {
  import opened Common

  type Item = nat

  type Relation = set<(Item, Item)>

  ghost predicate Linked(rel: Relation, a: Item, b: Item) {
    (a, b) in rel || (b, a) in rel
  }

  ghost predicate Chain(rel: Relation, p: seq<Item>) {
    p != [] && forall i :: 0 < i < |p| ==> Linked(rel, p[i - 1], p[i])
  }

  /** a and b are connected through pairs of the relation, taken in either direction. */
  ghost predicate Connected(rel: Relation, a: Item, b: Item) {
    exists p :: Chain(rel, p) && p[0] == a && p[|p| - 1] == b
  }

  lemma ConnectedReflexive(rel: Relation, a: Item)
    ensures Connected(rel, a, a)
  {
    assert Chain(rel, [a]);
  }

  lemma ConnectedTransitive(rel: Relation, a: Item, b: Item, c: Item)
    requires Connected(rel, a, b) && Connected(rel, b, c)
    ensures Connected(rel, a, c)
  {
    var p :| Chain(rel, p) && p[0] == a && p[|p| - 1] == b;
    var q :| Chain(rel, q) && q[0] == b && q[|q| - 1] == c;
    var r := p + q[1..];
    forall i | 0 < i < |r| ensures Linked(rel, r[i - 1], r[i]) {
      if i < |p| {
        assert Linked(rel, p[i - 1], p[i]);
      } else {
        assert Linked(rel, q[i - |p|], q[i - |p| + 1]);
      }
    }
    assert Chain(rel, r) && r[0] == a && r[|r| - 1] == c;
  }

  lemma ConnectedMonotone(rel: Relation, more: Relation, a: Item, b: Item)
    requires rel <= more && Connected(rel, a, b)
    ensures Connected(more, a, b)
  {
    var p :| Chain(rel, p) && p[0] == a && p[|p| - 1] == b;
    assert Chain(more, p);
  }

  /** What joining the classes of a and b makes of the connection between x and y. */
  ghost predicate JoinedBy(rel: Relation, a: Item, b: Item, x: Item, y: Item) {
    || Connected(rel, x, y)
    || (Connected(rel, x, a) && Connected(rel, b, y))
    || (Connected(rel, x, b) && Connected(rel, a, y))
  }

  lemma {:induction false} ChainJoined(rel: Relation, a: Item, b: Item, p: seq<Item>)
    requires Chain(rel + {(a, b)}, p)
    ensures JoinedBy(rel, a, b, p[0], p[|p| - 1])
  {
    ConnectedReflexive(rel, p[0]);
    if |p| > 1 {
      var init, u, v := p[..|p| - 1], p[|p| - 2], p[|p| - 1];
      ChainJoined(rel, a, b, init);
      ConnectedReflexive(rel, a);
      ConnectedReflexive(rel, b);
      assert Linked(rel + {(a, b)}, u, v);
      if Linked(rel, u, v) {
        assert Chain(rel, [u, v]);
        JoinedExtend(rel, a, b, p[0], u, v);
      }
    }
  }

  lemma JoinedExtend(rel: Relation, a: Item, b: Item, x: Item, u: Item, v: Item)
    requires JoinedBy(rel, a, b, x, u) && Connected(rel, u, v)
    ensures JoinedBy(rel, a, b, x, v)
  {
    if Connected(rel, x, u) {
      ConnectedTransitive(rel, x, u, v);
    } else if Connected(rel, x, a) && Connected(rel, b, u) {
      ConnectedTransitive(rel, b, u, v);
    } else {
      ConnectedTransitive(rel, a, u, v);
    }
  }

  /** Adding one pair to the relation joins two classes and changes nothing else. */
  lemma ConnectedAdd(rel: Relation, a: Item, b: Item, x: Item, y: Item)
    ensures Connected(rel + {(a, b)}, x, y) <==> JoinedBy(rel, a, b, x, y)
  {
    var more := rel + {(a, b)};
    if Connected(more, x, y) {
      var p :| Chain(more, p) && p[0] == x && p[|p| - 1] == y;
      ChainJoined(rel, a, b, p);
    }
    assert Chain(more, [a, b]) && Chain(more, [b, a]);
    if Connected(rel, x, y) {
      ConnectedMonotone(rel, more, x, y);
    } else if Connected(rel, x, a) && Connected(rel, b, y) {
      JoinThrough(rel, more, x, a, b, y);
    } else if Connected(rel, x, b) && Connected(rel, a, y) {
      JoinThrough(rel, more, x, b, a, y);
    }
  }

  lemma JoinThrough(rel: Relation, more: Relation, x: Item, u: Item, v: Item, y: Item)
    requires rel <= more && Connected(rel, x, u) && Connected(rel, v, y) && Chain(more, [u, v])
    ensures Connected(more, x, y)
  {
    ConnectedMonotone(rel, more, x, u);
    ConnectedMonotone(rel, more, v, y);
    assert [u, v][0] == u && [u, v][1] == v;
    ConnectedTransitive(more, x, u, v);
    ConnectedTransitive(more, x, v, y);
  }

  /**
   Disjoint sets over 0 .. n - 1. The contract is what the program uses of its union-find library; the
   relabelling below is one way to meet it.
   */
  class UnionFind {
    const root: array<nat>

    ghost predicate Valid()
      reads root
    {
      forall i :: 0 <= i < root.Length ==> root[i] < root.Length && root[root[i]] == root[i]
    }

    ghost predicate Same(i: nat, j: nat)
      requires i < root.Length && j < root.Length
      reads root
    {
      root[i] == root[j]
    }

    constructor (n: nat)
      ensures Valid() && fresh(root) && root.Length == n
      ensures forall i, j :: 0 <= i < n && 0 <= j < n ==> (Same(i, j) <==> i == j)
    {
      root := new nat[n](i => i);
    }

    /** The representative of the set of i, a member of it. */
    method Find(i: nat) returns (r: nat)
      requires Valid() && i < root.Length
      ensures r < root.Length && Same(r, i)
      ensures forall j :: 0 <= j < root.Length ==> (Same(i, j) <==> root[j] == r)
    {
      r := root[i];
    }

    method Union(i: nat, j: nat)
      requires Valid() && i < root.Length && j < root.Length
      modifies root
      ensures Valid()
      ensures forall x, y :: 0 <= x < root.Length && 0 <= y < root.Length ==>
        (Same(x, y) <==> old(Same(x, y) || (Same(x, i) && Same(j, y)) || (Same(x, j) && Same(i, y))))
    {
      var from, to := root[i], root[j];
      for k := 0 to root.Length
        invariant forall x :: 0 <= x < root.Length ==>
          root[x] == if x < k && old(root[x]) == from then to else old(root[x])
      {
        if root[k] == from {
          root[k] := to;
        }
      }
    }
  }
}
