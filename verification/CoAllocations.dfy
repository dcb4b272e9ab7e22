/**
 Co-allocation groups: the nodes of a workflow that sync dependencies connect, contracted into groups, and the
 data dependencies that remain between different groups.
 */
module CoAllocations {
  import opened Common
  import opened Connectivity
  import opened Reservations

  type NodeId = nat
  /** A group carries the name of the node that represents it. */
  type GroupId = nat
  type DependencyId = nat

  datatype SyncDependency = SyncDependency(reservation: ReservationId, source: NodeId, target: NodeId)

  datatype DataDependency = DataDependency(reservation: ReservationId, source: NodeId, target: NodeId, size: int)

  /** An edge between two groups; it carries the id of the data dependency it comes from. */
  datatype GroupDependency = GroupDependency(id: DependencyId, source: GroupId, target: GroupId)

  datatype CoAllocation = CoAllocation(
    id: GroupId,
    representative: NodeId,
    members: seq<NodeId>,
    outgoing: seq<GroupDependency>,
    outgoingData: seq<DataDependency>,
    incoming: seq<GroupDependency>,
    incomingData: seq<DataDependency>,
    rankUpward: int,
    criticalNodes: nat,
    isDiscovered: bool,
    isProcessed: bool)

  type Groups = map<GroupId, CoAllocation>
  type Syncs = map<DependencyId, SyncDependency>
  type DataDependencies = map<DependencyId, DataDependency>

  function SingleNode(n: NodeId): CoAllocation {
    CoAllocation(n, n, [n], [], [], [], [], 0, 0, false, false)
  }

  /** The pairs of known nodes that the sync dependencies given connect directly. */
  ghost function SyncPairs(nodes: set<NodeId>, syncs: Syncs, ids: set<DependencyId>): Relation {
    set id | id in ids && id in syncs && syncs[id].source in nodes && syncs[id].target in nodes ::
      (syncs[id].source, syncs[id].target)
  }

  ghost predicate SyncConnected(nodes: set<NodeId>, syncs: Syncs, a: NodeId, b: NodeId) {
    Connected(SyncPairs(nodes, syncs, syncs.Keys), a, b)
  }

  /** Two nodes have the same group exactly if sync dependencies connect them. */
  ghost predicate GroupedBySync(nodes: set<NodeId>, syncs: Syncs, groupOf: map<NodeId, GroupId>) {
    && groupOf.Keys == nodes
    && forall a, b :: a in nodes && b in nodes ==> (groupOf[a] == groupOf[b] <==> SyncConnected(nodes, syncs, a, b))
  }

  lemma GroupedKeys(nodes: set<NodeId>, syncs: Syncs, groupOf: map<NodeId, GroupId>)
    requires GroupedBySync(nodes, syncs, groupOf)
    ensures groupOf.Keys == nodes
  {
  }

  /** The member lists split the nodes up, without repetition, and every group is named after one of its members. */
  ghost predicate Partition(groups: Groups, groupOf: map<NodeId, GroupId>) {
    && (forall n :: n in groupOf ==> groupOf[n] in groups && n in groups[groupOf[n]].members)
    && (forall k :: k in groups ==>
          && groups[k].id == k && groups[k].representative == k
          && k in groupOf && groupOf[k] == k
          && Distinct(groups[k].members)
          && forall m :: m in groups[k].members ==> m in groupOf && groupOf[m] == k)
  }

  /** Lists the nodes in some order, with their position. */
  method Enumerate(nodes: set<NodeId>) returns (ids: seq<NodeId>, index: map<NodeId, nat>)
    ensures index.Keys == nodes && Indexed(ids, index)
  {
    ids, index := [], map[];
    var todo := nodes;
    while todo != {}
      invariant todo <= nodes && index.Keys == nodes - todo && Indexed(ids, index)
    {
      var n :| n in todo;
      todo := todo - {n};
      index := index[n := |ids|];
      ids := ids + [n];
    }
  }

  ghost predicate Mirrors(dsu: UnionFind, index: map<NodeId, nat>, rel: Relation)
    reads dsu.root
  {
    && dsu.Valid()
    && (forall n :: n in index ==> index[n] < dsu.root.Length)
    && forall a, b :: a in index && b in index ==> (dsu.Same(index[a], index[b]) <==> Connected(rel, a, b))
  }

  method MergeSync(dsu: UnionFind, index: map<NodeId, nat>, ghost rel: Relation, s: NodeId, t: NodeId)
    requires Mirrors(dsu, index, rel) && s in index && t in index
    modifies dsu.root
    ensures Mirrors(dsu, index, rel + {(s, t)})
  {
    dsu.Union(index[s], index[t]);
    forall a, b | a in index && b in index
      ensures dsu.Same(index[a], index[b]) <==> Connected(rel + {(s, t)}, a, b)
    {
      ConnectedAdd(rel, s, t, a, b);
    }
  }

  lemma SyncPairsStep(nodes: set<NodeId>, syncs: Syncs, ids: set<DependencyId>, id: DependencyId)
    requires id in syncs
    ensures SyncPairs(nodes, syncs, ids + {id}) ==
            SyncPairs(nodes, syncs, ids)
            + if syncs[id].source in nodes && syncs[id].target in nodes then {(syncs[id].source, syncs[id].target)} else {}
  {
  }

  /** Joins the sets of both end points of every sync dependency. */
  method MergeSyncs(dsu: UnionFind, index: map<NodeId, nat>, syncs: Syncs)
    requires Mirrors(dsu, index, {})
    modifies dsu.root
    ensures Mirrors(dsu, index, SyncPairs(index.Keys, syncs, syncs.Keys))
  {
    var todo := syncs.Keys;
    ghost var done: set<DependencyId>, rel: Relation := {}, {};
    while todo != {}
      invariant todo <= syncs.Keys && done == syncs.Keys - todo
      invariant rel == SyncPairs(index.Keys, syncs, done)
      invariant Mirrors(dsu, index, rel)
    {
      var id :| id in todo;
      var s, t := syncs[id].source, syncs[id].target;
      SyncPairsStep(index.Keys, syncs, done, id);
      if s in index && t in index {
        MergeSync(dsu, index, rel, s, t);
        rel := rel + {(s, t)};
      }
      todo, done := todo - {id}, done + {id};
    }
    assert done == syncs.Keys;
  }

  /** The group of k once the nodes in done have been looked at: k itself and those of them that it represents. */
  ghost predicate GroupSoFar(done: set<NodeId>, rep: map<NodeId, NodeId>, k: GroupId, group: CoAllocation) {
    && group == SingleNode(k).(members := group.members)
    && Distinct(group.members)
    && forall m :: m in group.members <==> m == k || (m in done && m in rep && rep[m] == k)
  }

  ghost predicate AllSoFar(done: set<NodeId>, rep: map<NodeId, NodeId>, merged: Groups) {
    forall k :: k in merged ==> GroupSoFar(done, rep, k, merged[k])
  }

  /** The groups met are those that represent a node looked at. */
  ghost predicate GroupsMet(done: set<NodeId>, rep: map<NodeId, NodeId>, met: set<GroupId>) {
    forall k :: k in met <==> exists n :: n in done && n in rep && rep[n] == k
  }

  /** The state of the grouping after the nodes in done: the groups met, and the nodes not yet put into one. */
  ghost predicate Grouped(done: set<NodeId>, rep: map<NodeId, NodeId>, merged: Groups, prelim: Groups) {
    && GroupsMet(done, rep, merged.Keys)
    && AllSoFar(done, rep, merged)
    && Waiting(done, rep, merged.Keys, prelim)
  }

  /** A group of its own still waits for every node that has neither been looked at nor become a representative. */
  ghost predicate Waiting(done: set<NodeId>, rep: map<NodeId, NodeId>, met: set<GroupId>, prelim: Groups) {
    && (forall n :: n in prelim <==> n in rep && n !in done && n !in met)
    && (forall n :: n in prelim ==> prelim[n] == SingleNode(n))
  }

  /** Representatives are members of their own group. */
  ghost predicate Canonical(rep: map<NodeId, NodeId>) {
    forall n :: n in rep ==> rep[n] in rep && rep[rep[n]] == rep[n]
  }

  lemma GroupSoFarStep(done: set<NodeId>, rep: map<NodeId, NodeId>, n: NodeId, k: GroupId, group: CoAllocation)
    requires n in rep && n !in done && GroupSoFar(done, rep, k, group)
    ensures var joins := rep[n] == k && n != k;
            GroupSoFar(done + {n}, rep, k, if joins then group.(members := group.members + [n]) else group)
  {
    if rep[n] == k && n != k {
      assert n !in group.members;
      assert forall m :: m in group.members + [n] <==> m in group.members || m == n;
    }
  }

  lemma NewGroupSoFar(done: set<NodeId>, rep: map<NodeId, NodeId>, merged: Groups, prelim: Groups, r: NodeId)
    requires Grouped(done, rep, merged, prelim) && r !in merged
    ensures GroupSoFar(done, rep, r, SingleNode(r))
  {
  }

  /** The groups after one more node: its group is set up if it is new, and the node joins it. */
  lemma GroupedStep(done: set<NodeId>, rep: map<NodeId, NodeId>, merged: Groups, prelim: Groups,
                    n: NodeId, merged': Groups, prelim': Groups)
    requires Canonical(rep) && n in rep && n !in done
    requires Grouped(done, rep, merged, prelim)
    requires var r := rep[n];
             var own := if r in merged then merged[r] else SingleNode(r);
             && merged' == merged[r := if n != r then own.(members := own.members + [n]) else own]
             && prelim' == prelim - {r, n}
    ensures Grouped(done + {n}, rep, merged', prelim')
  {
    var r := rep[n];
    AllSoFarStep(done, rep, merged, prelim, n, merged');
    GroupsMetStep(done, rep, merged.Keys, n);
    WaitingStep(done, rep, merged.Keys, prelim, n);
    hide AllSoFar, GroupsMet, Canonical, Waiting;
    assert merged'.Keys == merged.Keys + {r};
  }

  lemma WaitingStep(done: set<NodeId>, rep: map<NodeId, NodeId>, met: set<GroupId>, prelim: Groups, n: NodeId)
    requires n in rep && Waiting(done, rep, met, prelim)
    ensures Waiting(done + {n}, rep, met + {rep[n]}, prelim - {rep[n], n})
  {
  }

  lemma AllSoFarStep(done: set<NodeId>, rep: map<NodeId, NodeId>, merged: Groups, prelim: Groups, n: NodeId, merged': Groups)
    requires n in rep && n !in done && Grouped(done, rep, merged, prelim)
    requires var r := rep[n];
             var own := if r in merged then merged[r] else SingleNode(r);
             merged' == merged[r := if n != r then own.(members := own.members + [n]) else own]
    ensures AllSoFar(done + {n}, rep, merged')
  {
    var r := rep[n];
    if r !in merged {
      NewGroupSoFar(done, rep, merged, prelim, r);
    }
    hide GroupSoFar, GroupsMet;
    forall k | k in merged' ensures GroupSoFar(done + {n}, rep, k, merged'[k]) {
      GroupSoFarStep(done, rep, n, k, if k in merged then merged[k] else SingleNode(r));
    }
  }

  lemma GroupsMetStep(done: set<NodeId>, rep: map<NodeId, NodeId>, met: set<GroupId>, n: NodeId)
    requires n in rep && GroupsMet(done, rep, met)
    ensures GroupsMet(done + {n}, rep, met + {rep[n]})
  {
    forall k ensures k in met + {rep[n]} <==> exists m :: m in done + {n} && m in rep && rep[m] == k {
      if k in met {
        var m :| m in done && m in rep && rep[m] == k;
        assert m in done + {n};
      }
      assert n in done + {n};
    }
  }

  /** What the lookups of the grouping find: the node, if it does not represent itself, and its representative. */
  lemma GroupedLookups(done: set<NodeId>, rep: map<NodeId, NodeId>, merged: Groups, prelim: Groups, n: NodeId)
    requires Canonical(rep) && n in rep && n !in done
    requires Grouped(done, rep, merged, prelim)
    ensures rep[n] !in merged ==> rep[n] in prelim && prelim[rep[n]] == SingleNode(rep[n])
    ensures n != rep[n] ==> n in prelim && prelim[n] == SingleNode(n)
    ensures n == rep[n] && n in merged ==> n !in prelim
    ensures rep[n] in merged ==> rep[n] !in prelim
  {
    if rep[n] in done {
      assert rep[rep[n]] == rep[n];
    }
    if n in merged {
      var m :| m in done && m in rep && rep[m] == n;
      assert rep[rep[m]] == rep[m];
    }
  }

  /** Merges one node into the group of its representative, which is set up when it is met for the first time. */
  method MergeNode(ghost done: set<NodeId>, ghost rep: map<NodeId, NodeId>,
                   n: NodeId, r: NodeId, merged: Groups, prelim: Groups)
    returns (merged': Groups, prelim': Groups)
    requires Canonical(rep) && n in rep && n !in done && r == rep[n]
    requires Grouped(done, rep, merged, prelim)
    ensures Grouped(done + {n}, rep, merged', prelim')
  {
    hide Grouped, GroupSoFar;
    merged', prelim' := merged, prelim;
    GroupedLookups(done, rep, merged, prelim, n);
    if r !in merged' && r in prelim' {
      merged' := merged'[r := prelim'[r].(id := r)];
      prelim' := prelim' - {r};
    }
    if n != r && n in prelim' && r in merged' {
      var members := prelim'[n].members;
      prelim' := prelim' - {n};
      merged' := merged'[r := merged'[r].(members := merged'[r].members + members)];
    }
    GroupedStep(done, rep, merged, prelim, n, merged', prelim');
  }

  /** Every listed node, and no other, has its position in the index. */
  ghost predicate Indexed(ids: seq<NodeId>, index: map<NodeId, nat>) {
    && (forall n :: n in index ==> index[n] < |ids| && ids[index[n]] == n)
    && (forall i :: 0 <= i < |ids| ==> ids[i] in index && index[ids[i]] == i)
  }

  /** Every node's representative according to the union-find labels. */
  ghost predicate Represents(ids: seq<NodeId>, index: map<NodeId, nat>, labels: seq<nat>, rep: map<NodeId, NodeId>) {
    && |labels| == |ids|
    && rep.Keys == index.Keys
    && forall n :: n in index ==> index[n] < |labels| && labels[index[n]] < |ids| && rep[n] == ids[labels[index[n]]]
  }

  /** Puts every node into the group of its representative. */
  method GroupNodes(ids: seq<NodeId>, index: map<NodeId, nat>, dsu: UnionFind, ghost rep: map<NodeId, NodeId>)
    returns (groups: Groups, groupOf: map<NodeId, GroupId>)
    requires Indexed(ids, index) && dsu.Valid() && Represents(ids, index, dsu.root[..], rep) && Canonical(rep)
    ensures groupOf == rep
    ensures Grouped(rep.Keys, rep, groups, map[])
  {
    hide Grouped, GroupSoFar, Indexed, Represents, Canonical;
    groups, groupOf := map[], map[];
    var prelim := map n | n in index :: SingleNode(n);
    ghost var done: set<NodeId>, labels := {}, dsu.root[..];
    AllIndexed(ids, index, labels, rep);
    GroupedInitially(rep, prelim);
    for i := 0 to |ids|
      invariant dsu.Valid() && dsu.root[..] == labels
      invariant Grouped(done, rep, groups, prelim)
      invariant forall n :: n in done <==> n in index && index[n] < i
      invariant groupOf.Keys == done && forall n :: n in done ==> groupOf[n] == rep[n]
    {
      var n := ids[i];
      NextInIndex(ids, index, labels, rep, i);
      var root := dsu.Find(index[n]);
      assert dsu.root[..][i] == root;
      groupOf := groupOf[n := ids[root]];
      groups, prelim := MergeNode(done, rep, n, ids[root], groups, prelim);
      done := done + {n};
    }
    assert done == rep.Keys;
    GroupedFinally(rep, groups, prelim);
  }

  lemma NextInIndex(ids: seq<NodeId>, index: map<NodeId, nat>, labels: seq<nat>, rep: map<NodeId, NodeId>, i: nat)
    requires Indexed(ids, index) && Represents(ids, index, labels, rep) && i < |ids|
    ensures ids[i] in rep && ids[i] in index && index[ids[i]] == i < |labels|
    ensures labels[i] < |ids| && rep[ids[i]] == ids[labels[i]]
    ensures forall n :: n in index && index[n] < i + 1 <==> n in index && (index[n] < i || n == ids[i])
  {
  }

  lemma AllIndexed(ids: seq<NodeId>, index: map<NodeId, nat>, labels: seq<nat>, rep: map<NodeId, NodeId>)
    requires Indexed(ids, index) && Represents(ids, index, labels, rep)
    ensures |labels| == |ids| && rep.Keys == index.Keys
    ensures forall n :: n in index ==> index[n] < |ids|
  {
  }

  lemma GroupedInitially(rep: map<NodeId, NodeId>, prelim: Groups)
    requires prelim.Keys == rep.Keys && forall n :: n in prelim ==> prelim[n] == SingleNode(n)
    ensures Grouped({}, rep, map[], prelim)
  {
  }

  lemma GroupedFinally(rep: map<NodeId, NodeId>, groups: Groups, prelim: Groups)
    requires Grouped(rep.Keys, rep, groups, prelim)
    ensures prelim == map[]
  {
  }

  /** Identifies the co-allocation groups. */
  method BuildCoAllocations(nodes: set<NodeId>, syncs: Syncs) returns (groups: Groups, groupOf: map<NodeId, GroupId>)
    ensures GroupedBySync(nodes, syncs, groupOf)
    ensures Partition(groups, groupOf)
    ensures forall k :: k in groups ==> groups[k] == SingleNode(k).(members := groups[k].members)
  {
    var ids, index := Enumerate(nodes);
    var dsu := new UnionFind(|ids|);
    assert Mirrors(dsu, index, {}) by {
      forall a, b | a in index && b in index ensures dsu.Same(index[a], index[b]) <==> Connected({}, a, b) {
        NothingConnected(a, b);
      }
    }
    MergeSyncs(dsu, index, syncs);
    ghost var rep := map n | n in nodes :: ids[dsu.root[index[n]]];
    RepresentativesCanonical(ids, index, dsu.root[..], rep);
    groups, groupOf := GroupNodes(ids, index, dsu, rep);
    GroupedIsPartition(rep, groups);
    SameLabelIsConnected(dsu, ids, index, rep, nodes, syncs);
    hide GroupedBySync, Partition, Mirrors, Indexed, Represents, Canonical, Grouped;
  }

  lemma SameLabelIsConnected(dsu: UnionFind, ids: seq<NodeId>, index: map<NodeId, nat>, rep: map<NodeId, NodeId>,
                             nodes: set<NodeId>, syncs: Syncs)
    requires Indexed(ids, index) && Represents(ids, index, dsu.root[..], rep) && index.Keys == nodes
    requires Mirrors(dsu, index, SyncPairs(nodes, syncs, syncs.Keys))
    ensures GroupedBySync(nodes, syncs, rep)
  {
    forall a, b | a in rep && b in rep ensures rep[a] == rep[b] <==> SyncConnected(nodes, syncs, a, b) {
      assert dsu.Same(index[a], index[b]) <==> Connected(SyncPairs(nodes, syncs, syncs.Keys), a, b);
    }
  }

  lemma NothingConnected(a: NodeId, b: NodeId)
    ensures Connected({}, a, b) <==> a == b
  {
    ConnectedReflexive({}, a);
    if Connected({}, a, b) {
      var p :| Chain({}, p) && p[0] == a && p[|p| - 1] == b;
      assert |p| > 1 ==> Linked({}, p[0], p[1]);
    }
  }

  lemma GroupedIsPartition(rep: map<NodeId, NodeId>, groups: Groups)
    requires Canonical(rep) && Grouped(rep.Keys, rep, groups, map[])
    ensures Partition(groups, rep)
    ensures forall k :: k in groups ==> groups[k] == SingleNode(k).(members := groups[k].members)
  {
    forall k | k in groups
      ensures groups[k].id == k && groups[k].representative == k && k in rep && rep[k] == k
      ensures Distinct(groups[k].members) && forall m :: m in groups[k].members ==> m in rep && rep[m] == k
    {
      var n :| n in rep.Keys && n in rep && rep[n] == k;
      assert GroupSoFar(rep.Keys, rep, k, groups[k]);
    }
    forall n | n in rep ensures rep[n] in groups && n in groups[rep[n]].members {
      assert n in rep.Keys && rep[n] in groups;
      assert GroupSoFar(rep.Keys, rep, rep[n], groups[rep[n]]);
    }
  }

  lemma RepresentativesCanonical(ids: seq<NodeId>, index: map<NodeId, nat>, labels: seq<nat>, rep: map<NodeId, NodeId>)
    requires Indexed(ids, index) && Represents(ids, index, labels, rep)
    requires forall i :: 0 <= i < |labels| ==> labels[i] < |labels| && labels[labels[i]] == labels[i]
    ensures Canonical(rep)
  {
  }

  /** A data dependency between different groups. */
  predicate Crosses(groupOf: map<NodeId, GroupId>, d: DataDependency) {
    d.source in groupOf && d.target in groupOf && groupOf[d.source] != groupOf[d.target]
  }

  function GroupEdge(groupOf: map<NodeId, GroupId>, id: DependencyId, d: DataDependency): GroupDependency
    requires Crosses(groupOf, d)
  {
    GroupDependency(id, groupOf[d.source], groupOf[d.target])
  }

  /** The list holds the group edges of the dependencies ids that satisfy the predicate, each once. */
  ghost predicate ListsEdges(data: DataDependencies, groupOf: map<NodeId, GroupId>, ids: set<DependencyId>,
                             list: seq<GroupDependency>, group: GroupId, atSource: bool) {
    && Distinct(list)
    && (forall e :: e in list ==> e.id in ids && e.id in data && Crosses(groupOf, data[e.id])
                                  && e == GroupEdge(groupOf, e.id, data[e.id])
                                  && group == if atSource then e.source else e.target)
    && (forall id :: id in ids && id in data && Crosses(groupOf, data[id])
                     && group == (if atSource then groupOf[data[id].source] else groupOf[data[id].target])
                     ==> GroupEdge(groupOf, id, data[id]) in list)
  }

  ghost predicate CarriesData(data: DataDependencies, edges: seq<GroupDependency>, carried: seq<DataDependency>) {
    && |carried| == |edges|
    && forall i :: 0 <= i < |edges| ==> edges[i].id in data && carried[i] == data[edges[i].id]
  }

  /** The group lists exactly its outgoing and incoming edges among the dependencies ids. */
  ghost predicate GroupListed(data: DataDependencies, groupOf: map<NodeId, GroupId>, ids: set<DependencyId>,
                              k: GroupId, group: CoAllocation) {
    && ListsEdges(data, groupOf, ids, group.outgoing, k, true)
    && ListsEdges(data, groupOf, ids, group.incoming, k, false)
    && CarriesData(data, group.outgoing, group.outgoingData)
    && CarriesData(data, group.incoming, group.incomingData)
  }

  ghost predicate EdgesListed(groups: Groups, data: DataDependencies, groupOf: map<NodeId, GroupId>, ids: set<DependencyId>) {
    forall k :: k in groups ==> GroupListed(data, groupOf, ids, k, groups[k])
  }

  lemma ListStep(data: DataDependencies, groupOf: map<NodeId, GroupId>, done: set<DependencyId>,
                 list: seq<GroupDependency>, k: GroupId, atSource: bool, id: DependencyId)
    requires ListsEdges(data, groupOf, done, list, k, atSource)
    requires id in data && id !in done
    ensures var here := Crosses(groupOf, data[id])
                        && k == if atSource then groupOf[data[id].source] else groupOf[data[id].target];
            ListsEdges(data, groupOf, done + {id},
                       if here then list + [GroupEdge(groupOf, id, data[id])] else list, k, atSource)
  {
    assert forall i :: 0 <= i < |list| ==> list[i] in list;
  }

  /** One more dependency, seen from the group k: an outgoing edge, an incoming edge with its data, or neither. */
  function LinkGroup(groupOf: map<NodeId, GroupId>, id: DependencyId, d: DataDependency, k: GroupId, group: CoAllocation): CoAllocation {
    if !Crosses(groupOf, d) then group
    else if k == groupOf[d.source] then
      group.(outgoing := group.outgoing + [GroupEdge(groupOf, id, d)], outgoingData := group.outgoingData + [d])
    else if k == groupOf[d.target] then
      group.(incoming := group.incoming + [GroupEdge(groupOf, id, d)], incomingData := group.incomingData + [d])
    else group
  }

  lemma LinkGroupStep(data: DataDependencies, groupOf: map<NodeId, GroupId>, done: set<DependencyId>, id: DependencyId,
                      k: GroupId, group: CoAllocation)
    requires GroupListed(data, groupOf, done, k, group)
    requires id in data && id !in done
    ensures GroupListed(data, groupOf, done + {id}, k, LinkGroup(groupOf, id, data[id], k, group))
  {
    ListStep(data, groupOf, done, group.outgoing, k, true, id);
    ListStep(data, groupOf, done, group.incoming, k, false, id);
    if Crosses(groupOf, data[id]) {
      CarryStep(data, group.outgoing, group.outgoingData, GroupEdge(groupOf, id, data[id]));
      CarryStep(data, group.incoming, group.incomingData, GroupEdge(groupOf, id, data[id]));
    }
    hide ListsEdges, CarriesData, Crosses;
  }

  lemma CarryStep(data: DataDependencies, edges: seq<GroupDependency>, carried: seq<DataDependency>, e: GroupDependency)
    requires CarriesData(data, edges, carried) && e.id in data
    ensures CarriesData(data, edges + [e], carried + [data[e.id]])
  {
  }

  /** The group before it was linked to others. */
  function Unlinked(group: CoAllocation): CoAllocation {
    group.(outgoing := [], outgoingData := [], incoming := [], incomingData := [])
  }

  /** The edge and its data are entered at both ends. */
  method LinkEnds(groupOf: map<NodeId, GroupId>, e: GroupDependency, d: DataDependency, groups: Groups) returns (linked: Groups)
    requires Crosses(groupOf, d) && e == GroupEdge(groupOf, e.id, d) && e.source in groups && e.target in groups
    ensures linked.Keys == groups.Keys
    ensures forall k :: k in groups ==>
      linked[k] == LinkGroup(groupOf, e.id, d, k, groups[k]) && Unlinked(linked[k]) == Unlinked(groups[k])
  {
    var s, t := groups[e.source], groups[e.target];
    linked := groups[e.source := s.(outgoing := s.outgoing + [e], outgoingData := s.outgoingData + [d])];
    linked := linked[e.target := t.(incoming := t.incoming + [e], incomingData := t.incomingData + [d])];
  }

  /** Links the groups by the data dependencies between nodes of different groups. */
  method BuildCoAllocationDependencies(data: DataDependencies, groupOf: map<NodeId, GroupId>, groups: Groups)
    returns (linked: Groups, edges: map<DependencyId, GroupDependency>)
    requires Partition(groups, groupOf)
    requires forall k :: k in groups ==> groups[k] == SingleNode(k).(members := groups[k].members)
    ensures linked.Keys == groups.Keys
    ensures forall k :: k in groups ==>
      Unlinked(linked[k]) == groups[k]
    ensures EdgesListed(linked, data, groupOf, data.Keys)
    ensures forall id :: id in edges <==> id in data && Crosses(groupOf, data[id])
    ensures forall id :: id in edges ==> edges[id] == GroupEdge(groupOf, id, data[id])
  {
    hide EdgesListed, GroupListed, ListsEdges, CarriesData, LinkGroup;
    linked, edges := groups, map[];
    NothingListed(data, groupOf, groups);
    var todo := data.Keys;
    ghost var done: set<DependencyId> := {};
    while todo != {}
      invariant todo <= data.Keys && done == data.Keys - todo && linked.Keys == groups.Keys
      invariant forall k :: k in groups ==>
        Unlinked(linked[k]) == groups[k]
      invariant EdgesListed(linked, data, groupOf, done)
      invariant forall id :: id in edges <==> id in done && Crosses(groupOf, data[id])
      invariant forall id :: id in edges ==> edges[id] == GroupEdge(groupOf, id, data[id])
    {
      var id :| id in todo;
      var d := data[id];
      ghost var before := linked;
      if d.source in groupOf && d.target in groupOf && groupOf[d.source] != groupOf[d.target] {
        edges := edges[id := GroupDependency(id, groupOf[d.source], groupOf[d.target])];
        linked := LinkEnds(groupOf, edges[id], d, linked);
      }
      UnlinkedAlone(data, groupOf, id, before);
      LinkedStep(data, groupOf, done, id, before, linked);
      todo, done := todo - {id}, done + {id};
    }
    assert done == data.Keys;
  }

  lemma UnlinkedAlone(data: DataDependencies, groupOf: map<NodeId, GroupId>, id: DependencyId, groups: Groups)
    requires id in data
    ensures !Crosses(groupOf, data[id]) ==> forall k :: k in groups ==> groups[k] == LinkGroup(groupOf, id, data[id], k, groups[k])
  {
  }

  lemma NothingListed(data: DataDependencies, groupOf: map<NodeId, GroupId>, groups: Groups)
    requires forall k :: k in groups ==> groups[k] == SingleNode(k).(members := groups[k].members)
    ensures EdgesListed(groups, data, groupOf, {})
  {
  }

  lemma LinkedStep(data: DataDependencies, groupOf: map<NodeId, GroupId>, done: set<DependencyId>, id: DependencyId,
                   before: Groups, after: Groups)
    requires EdgesListed(before, data, groupOf, done) && id in data && id !in done
    requires after.Keys == before.Keys
    requires forall k :: k in before ==> after[k] == LinkGroup(groupOf, id, data[id], k, before[k])
    ensures EdgesListed(after, data, groupOf, done + {id})
  {
    forall k | k in after ensures GroupListed(data, groupOf, done + {id}, k, after[k]) {
      LinkGroupStep(data, groupOf, done, id, k, before[k]);
    }
  }

  /** Groups that no group depends on come first: those without incoming edges, in some order. */
  method FindEntryGroups(groups: Groups) returns (entries: seq<GroupId>)
    ensures forall k :: k in entries <==> k in groups && groups[k].incoming == []
  {
    entries := [];
    var todo := groups.Keys;
    while todo != {}
      invariant todo <= groups.Keys
      invariant forall k :: k in entries <==> k in groups.Keys - todo && groups[k].incoming == []
    {
      var k :| k in todo;
      todo := todo - {k};
      if groups[k].incoming == [] {
        entries := entries + [k];
      }
    }
  }
}
