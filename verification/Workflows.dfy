/**
 A workflow: its nodes, its dependencies, its co-allocation groups, and the upward rank that orders the groups
 for scheduling.
 */
module Workflows {
  import opened Common
  import opened Reservations
  import opened CoAllocations
  import opened Dags

  /** Transfer time as the ranking estimates it. */
  function CommunicationTime(size: int, speed: int): int {
    if speed > 0 then TruncDiv(size, speed) else 0
  }

  /** The time is the whole part of size / speed; links without speed are passed at once. */
  ghost predicate Takes(time: int, size: int, speed: int) {
    if speed <= 0 then time == 0
    else if size >= 0 then time * speed <= size < (time + 1) * speed
    else (time - 1) * speed < size <= time * speed
  }

  lemma CommunicationTakes(size: int, speed: int)
    ensures Takes(CommunicationTime(size, speed), size, speed)
  {
    if speed > 0 {
      TruncDivLaw(size, speed);
      TimesOneMore(CommunicationTime(size, speed), speed);
      hide CommunicationTime;
    }
  }

  lemma TimesOneMore(time: int, speed: int)
    ensures (time + 1) * speed == time * speed + speed && (time - 1) * speed == time * speed - speed
    ensures time * speed == speed * time
  {
  }

  /** No other time does. */
  lemma TakesOneTime(a: int, b: int, size: int, speed: int)
    requires Takes(a, size, speed) && Takes(b, size, speed)
    ensures a == b
  {
    if speed > 0 && a != b {
      var low, high := Min(a, b), Max(a, b);
      MulMono(speed, low + 1, high);
      TimesOneMore(low, speed);
      TimesOneMore(high, speed);
      MulMono(speed, low, high - 1);
    }
  }

  /** The longest task duration among the members. */
  ghost function LongestDuration(nodes: map<NodeId, ReservationId>, store: Store, members: seq<NodeId>): int {
    if members == [] then 0
    else
      var rest := LongestDuration(nodes, store, members[..|members| - 1]);
      var m := members[|members| - 1];
      if m in nodes && nodes[m] in store then Max(rest, store[nodes[m]].duration) else rest
  }

  /** It is the least bound of the durations of all known members, and of 0. */
  lemma {:induction false} LongestDurationIsLeast(nodes: map<NodeId, ReservationId>, store: Store, members: seq<NodeId>)
    ensures LongestDuration(nodes, store, members) >= 0
    ensures forall m :: m in members && m in nodes && nodes[m] in store ==>
      store[nodes[m]].duration <= LongestDuration(nodes, store, members)
    ensures LongestDuration(nodes, store, members) == 0 ||
      exists m :: m in members && m in nodes && nodes[m] in store && store[nodes[m]].duration == LongestDuration(nodes, store, members)
  {
    if members != [] {
      var init, last := members[..|members| - 1], members[|members| - 1];
      assert members == init + [last];
      LongestDurationIsLeast(nodes, store, init);
      assert last in members;
    }
  }

  /** The group graph: durations of the groups, and their outgoing edges with transfer times. */
  ghost function GroupVertex(nodes: map<NodeId, ReservationId>, store: Store, data: DataDependencies, speed: int, group: CoAllocation): Vertex {
    Vertex(
      LongestDuration(nodes, store, group.members),
      seq(|group.outgoing|, i requires 0 <= i < |group.outgoing| => GroupEdgeCost(data, speed, group.outgoing[i])))
  }

  ghost function GroupEdgeCost(data: DataDependencies, speed: int, e: GroupDependency): Edge {
    Edge(e.target, if e.id in data then CommunicationTime(data[e.id].size, speed) else 0)
  }

  ghost function GroupGraph(nodes: map<NodeId, ReservationId>, store: Store, data: DataDependencies, speed: int, groups: Groups): Graph {
    map k | k in groups :: GroupVertex(nodes, store, data, speed, groups[k])
  }

  /** A group without the fields that the ranking writes. */
  function Bare(g: CoAllocation): CoAllocation {
    g.(rankUpward := 0, criticalNodes := 0, isDiscovered := false, isProcessed := false)
  }

  /** The ranking touches nothing but ranks and marks. */
  ghost predicate SameGroups(a: Groups, b: Groups) {
    a.Keys == b.Keys && forall k :: k in a ==> Bare(a[k]) == Bare(b[k])
  }

  lemma SameGroupsSameGraph(nodes: map<NodeId, ReservationId>, store: Store, data: DataDependencies, speed: int, a: Groups, b: Groups)
    requires SameGroups(a, b)
    ensures GroupGraph(nodes, store, data, speed, a) == GroupGraph(nodes, store, data, speed, b)
  {
    forall k | k in a
      ensures GroupVertex(nodes, store, data, speed, a[k]) == GroupVertex(nodes, store, data, speed, b[k])
    {
      assert Bare(a[k]).outgoing == a[k].outgoing && Bare(b[k]).outgoing == b[k].outgoing;
      assert Bare(a[k]).members == a[k].members && Bare(b[k]).members == b[k].members;
    }
  }

  /** The longest task duration of a group, as the program finds it. */
  method GetCoAllocationDuration(nodes: map<NodeId, ReservationId>, store: Store, members: seq<NodeId>) returns (longest: int)
    requires forall n :: n in nodes ==> nodes[n] in store
    ensures longest == LongestDuration(nodes, store, members)
  {
    longest := 0;
    for i := 0 to |members|
      invariant longest == LongestDuration(nodes, store, members[..i])
    {
      assert members[..i + 1][..i] == members[..i];
      if members[i] in nodes {
        var duration := store[nodes[members[i]]].duration;
        if duration > longest {
          longest := duration;
        }
      }
    }
    assert members[..|members|] == members;
  }

  /** The ranks recorded for the groups processed so far are right, and all their successors are processed too. */
  ghost predicate RanksRight(g: Graph, groups: Groups) {
    && groups.Keys == g.Keys
    && (forall k :: k in groups && groups[k].isProcessed ==> IsRank(g, k, groups[k].rankUpward, groups[k].criticalNodes))
    && (forall k, w :: k in groups && groups[k].isProcessed && HasEdge(g, k, w) ==> w in groups && groups[w].isProcessed)
  }

  /**
   The stack of the traversal. An occurrence is marked when the successors of its group have been pushed above
   it; such a group waits for exactly those, and everything above it lies deeper in the graph.
   */
  ghost predicate StackRight(g: Graph, processed: set<GroupId>, expanded: set<GroupId>, stack: seq<GroupId>, marks: seq<bool>) {
    && |marks| == |stack|
    && (forall i :: 0 <= i < |stack| ==> stack[i] in g)
    && MarkedOnStack(processed, expanded, stack, marks)
    && LowerAbove(g, processed, stack, marks)
    && SuccessorsAbove(g, processed, stack, marks)
  }

  /** Every opened group that is not finished has its marked entry. */
  ghost predicate MarkedOnStack(processed: set<GroupId>, expanded: set<GroupId>, stack: seq<GroupId>, marks: seq<bool>)
    requires |marks| == |stack|
  {
    forall k :: k in expanded && k !in processed ==> exists i :: 0 <= i < |stack| && marks[i] && stack[i] == k
  }

  /** Everything above an opened group lies deeper in the graph. */
  ghost predicate LowerAbove(g: Graph, processed: set<GroupId>, stack: seq<GroupId>, marks: seq<bool>)
    requires |marks| == |stack|
  {
    forall i, j :: 0 <= i < j < |stack| && marks[i] && stack[i] !in processed ==> Level(g, stack[j]) < Level(g, stack[i])
  }

  /** The unfinished successors of an opened group are above it. */
  ghost predicate SuccessorsAbove(g: Graph, processed: set<GroupId>, stack: seq<GroupId>, marks: seq<bool>)
    requires |marks| == |stack|
  {
    forall i, w :: 0 <= i < |stack| && marks[i] && stack[i] !in processed && HasEdge(g, stack[i], w) && w !in processed
      ==> w in stack[i + 1..]
  }

  /** A group on top of the stack whose successors are not all processed has not been expanded before. */
  lemma TopNotExpanded(g: Graph, processed: set<GroupId>, expanded: set<GroupId>, stack: seq<GroupId>, marks: seq<bool>, w: GroupId)
    requires StackRight(g, processed, expanded, stack, marks) && stack != []
    requires var k := stack[|stack| - 1]; k !in processed && HasEdge(g, k, w) && w !in processed
    ensures stack[|stack| - 1] !in expanded
  {
  }

  lemma TopIsGroup(g: Graph, processed: set<GroupId>, expanded: set<GroupId>, stack: seq<GroupId>, marks: seq<bool>)
    requires StackRight(g, processed, expanded, stack, marks) && stack != []
    ensures stack[|stack| - 1] in g
  {
  }

  lemma PopKeepsStack(g: Graph, processed: set<GroupId>, processed': set<GroupId>, expanded: set<GroupId>, stack: seq<GroupId>, marks: seq<bool>)
    requires StackRight(g, processed, expanded, stack, marks) && stack != []
    requires processed <= processed' && stack[|stack| - 1] in processed'
    ensures StackRight(g, processed', expanded, stack[..|stack| - 1], marks[..|stack| - 1])
  {
    var top := |stack| - 1;
    var stack' := stack[..top];
    forall k | k in expanded && k !in processed'
      ensures exists i :: 0 <= i < |stack'| && marks[..top][i] && stack'[i] == k
    {
      var i :| 0 <= i < |stack| && marks[i] && stack[i] == k;
      assert i != top && marks[..top][i];
    }
    forall i, w | 0 <= i < top && marks[i] && stack[i] !in processed' && HasEdge(g, stack[i], w) && w !in processed'
      ensures w in stack'[i + 1..]
    {
      assert w in stack[i + 1..];
      assert stack[i + 1..] == stack'[i + 1..] + [stack[top]];
    }
  }

  /** Opening the group on top of the stack: its unprocessed successors go above it. */
  lemma PushKeepsStack(g: Graph, processed: set<GroupId>, expanded: set<GroupId>, stack: seq<GroupId>, marks: seq<bool>, pushed: seq<GroupId>)
    requires Closed(g) && Acyclic(g)
    requires StackRight(g, processed, expanded, stack, marks) && stack != []
    requires var k := stack[|stack| - 1];
             && k !in processed
             && (forall w :: w in pushed ==> HasEdge(g, k, w))
             && (forall w :: HasEdge(g, k, w) && w !in processed ==> w in pushed)
    ensures var top := |stack| - 1;
            StackRight(g, processed, expanded + {stack[top]}, stack + pushed,
                       marks[..top] + [true] + seq(|pushed|, i => false))
  {
    var top := |stack| - 1;
    var k := stack[top];
    var stack' := stack + pushed;
    var marks' := marks[..top] + [true] + seq(|pushed|, i => false);
    forall j | 0 <= j < |pushed| ensures pushed[j] in g && Level(g, pushed[j]) < Level(g, k) {
      assert pushed[j] in pushed;
      LevelDrops(g, k, pushed[j]);
    }
    hide Closed, Acyclic, MarkedOnStack, LowerAbove, SuccessorsAbove, Level, HasEdge;
    PushKeepsMarks(processed, expanded, stack, marks, pushed, marks');
    PushKeepsLower(g, processed, stack, marks, pushed, marks');
    PushKeepsSuccessors(g, processed, stack, marks, pushed, marks');
  }

  /** The marks after the group on top has been opened. */
  ghost predicate Opened(marks: seq<bool>, pushed: seq<GroupId>, marks': seq<bool>) {
    marks != [] && marks' == marks[..|marks| - 1] + [true] + seq(|pushed|, i => false)
  }

  lemma PushKeepsMarks(processed: set<GroupId>, expanded: set<GroupId>, stack: seq<GroupId>, marks: seq<bool>, pushed: seq<GroupId>, marks': seq<bool>)
    requires |marks| == |stack| && Opened(marks, pushed, marks') && MarkedOnStack(processed, expanded, stack, marks)
    ensures MarkedOnStack(processed, expanded + {stack[|stack| - 1]}, stack + pushed, marks')
  {
    var top := |stack| - 1;
    var stack' := stack + pushed;
    forall x | x in expanded + {stack[top]} && x !in processed
      ensures exists i :: 0 <= i < |stack'| && marks'[i] && stack'[i] == x
    {
      if x == stack[top] {
        assert marks'[top] && stack'[top] == x;
      } else {
        var i :| 0 <= i < |stack| && marks[i] && stack[i] == x;
        assert marks'[i] && stack'[i] == x;
      }
    }
  }

  lemma PushKeepsLower(g: Graph, processed: set<GroupId>, stack: seq<GroupId>, marks: seq<bool>, pushed: seq<GroupId>, marks': seq<bool>)
    requires |marks| == |stack| && Opened(marks, pushed, marks') && LowerAbove(g, processed, stack, marks)
    requires forall j :: 0 <= j < |pushed| ==> Level(g, pushed[j]) < Level(g, stack[|stack| - 1])
    ensures LowerAbove(g, processed, stack + pushed, marks')
  {
    var top := |stack| - 1;
    var stack' := stack + pushed;
    hide Level;
    forall i, j | 0 <= i < j < |stack'| && marks'[i] && stack'[i] !in processed
      ensures Level(g, stack'[j]) < Level(g, stack'[i])
    {
      assert i <= top;
      if i < top {
        assert marks[i];
        assert Level(g, stack[top]) < Level(g, stack[i]);
      }
    }
  }

  lemma PushKeepsSuccessors(g: Graph, processed: set<GroupId>, stack: seq<GroupId>, marks: seq<bool>, pushed: seq<GroupId>, marks': seq<bool>)
    requires |marks| == |stack| && Opened(marks, pushed, marks') && SuccessorsAbove(g, processed, stack, marks)
    requires forall w :: HasEdge(g, stack[|stack| - 1], w) && w !in processed ==> w in pushed
    ensures SuccessorsAbove(g, processed, stack + pushed, marks')
  {
    var top := |stack| - 1;
    var stack' := stack + pushed;
    forall i, w | 0 <= i < |stack'| && marks'[i] && stack'[i] !in processed && HasEdge(g, stack'[i], w) && w !in processed
      ensures w in stack'[i + 1..]
    {
      assert i <= top;
      assert stack'[i + 1..] == stack[i + 1..] + pushed;
      if i < top {
        assert marks[i] && w in stack[i + 1..];
      }
    }
  }

  lemma StackInitially(g: Graph, stack: seq<GroupId>, marks: seq<bool>)
    requires |marks| == |stack| && forall i :: 0 <= i < |stack| ==> stack[i] in g && !marks[i]
    ensures StackRight(g, {}, {}, stack, marks)
  {
  }

  /** Every entry group is processed or still on the stack. */
  ghost predicate EntriesCovered(entries: seq<GroupId>, processed: set<GroupId>, stack: seq<GroupId>) {
    forall k :: k in entries ==> k in processed || k in stack
  }

  lemma EntriesInitially(entries: seq<GroupId>)
    ensures EntriesCovered(entries, {}, entries)
  {
  }

  lemma EntriesAfterPop(entries: seq<GroupId>, processed: set<GroupId>, processed': set<GroupId>, stack: seq<GroupId>)
    requires stack != [] && processed <= processed' && stack[|stack| - 1] in processed'
    requires EntriesCovered(entries, processed, stack)
    ensures EntriesCovered(entries, processed', stack[..|stack| - 1])
  {
    assert stack == stack[..|stack| - 1] + [stack[|stack| - 1]];
  }

  lemma EntriesAfterPush(entries: seq<GroupId>, processed: set<GroupId>, stack: seq<GroupId>, pushed: seq<GroupId>)
    requires EntriesCovered(entries, processed, stack)
    ensures EntriesCovered(entries, processed, stack + pushed)
  {
  }

  /** In an acyclic graph everything is a descendant of the entry groups, so an empty stack leaves no group out. */
  lemma AllProcessed(g: Graph, groups: Groups, processed: set<GroupId>, entries: seq<GroupId>)
    requires Closed(g) && Acyclic(g) && RanksRight(g, groups)
    requires ProcessedSet(groups, processed)
    requires forall w :: w in groups && (forall u :: !HasEdge(g, u, w)) ==> w in entries
    requires EntriesCovered(entries, processed, [])
    ensures processed == g.Keys
  {
    hide IsRank, Acyclic, Closed;
    forall v | v in g ensures v in processed {
      ClosedSetHoldsAll(g, processed, v);
    }
  }

  ghost predicate SortedByRank(groups: Groups, ks: seq<GroupId>)
    requires forall k :: k in ks ==> k in groups
  {
    forall i, j :: 0 <= i < j < |ks| ==> groups[ks[i]].rankUpward >= groups[ks[j]].rankUpward
  }

  /** Library sort: by descending rank, equal ranks in their old order. */
  function InsertByRank(groups: Groups, ks: seq<GroupId>, k: GroupId): (r: seq<GroupId>)
    requires k in groups && forall x :: x in ks ==> x in groups
    ensures forall x :: x in r <==> x in ks || x == k
  {
    if ks == [] then [k]
    else
      var init, last := ks[..|ks| - 1], ks[|ks| - 1];
      assert ks == init + [last];
      if groups[last].rankUpward >= groups[k].rankUpward then ks + [k]
      else InsertByRank(groups, init, k) + [last]
  }

  function SortByRank(groups: Groups, ks: seq<GroupId>): (r: seq<GroupId>)
    requires forall x :: x in ks ==> x in groups
    ensures forall x :: x in r <==> x in ks
  {
    if ks == [] then []
    else
      assert ks == ks[..|ks| - 1] + [ks[|ks| - 1]];
      InsertByRank(groups, SortByRank(groups, ks[..|ks| - 1]), ks[|ks| - 1])
  }

  lemma {:induction false} InsertByRankSorted(groups: Groups, ks: seq<GroupId>, k: GroupId)
    requires k in groups && (forall x :: x in ks ==> x in groups) && SortedByRank(groups, ks)
    ensures SortedByRank(groups, InsertByRank(groups, ks, k))
  {
    if ks != [] {
      var init, last := ks[..|ks| - 1], ks[|ks| - 1];
      assert ks == init + [last];
      InsertByRankSorted(groups, init, k);
      if groups[last].rankUpward < groups[k].rankUpward {
        LastStaysLast(groups, init, last, InsertByRank(groups, init, k), k);
      }
    }
  }

  lemma {:induction false} InsertByRankPermutes(groups: Groups, ks: seq<GroupId>, k: GroupId)
    requires k in groups && forall x :: x in ks ==> x in groups
    ensures multiset(InsertByRank(groups, ks, k)) == multiset(ks) + multiset{k}
  {
    if ks != [] {
      var init, last := ks[..|ks| - 1], ks[|ks| - 1];
      assert ks == init + [last];
      InsertByRankPermutes(groups, init, k);
    }
  }

  lemma LastStaysLast(groups: Groups, init: seq<GroupId>, last: GroupId, r: seq<GroupId>, k: GroupId)
    requires k in groups && (forall x :: x in init + [last] ==> x in groups) && (forall x :: x in r <==> x in init || x == k)
    requires SortedByRank(groups, init + [last]) && SortedByRank(groups, r)
    requires groups[last].rankUpward < groups[k].rankUpward
    ensures (forall x :: x in r + [last] ==> x in groups) && SortedByRank(groups, r + [last])
  {
    assert last in init + [last] && forall x :: x in init ==> x in init + [last];
    forall i | 0 <= i < |r| ensures groups[r[i]].rankUpward >= groups[last].rankUpward {
      assert r[i] in r;
      if r[i] != k {
        var j :| 0 <= j < |init| && init[j] == r[i];
        assert (init + [last])[j] == r[i] && (init + [last])[|init|] == last;
      }
    }
  }

  /** The sorted list is a permutation of the list given, in descending order of rank. */
  lemma {:induction false} SortByRankSorts(groups: Groups, ks: seq<GroupId>)
    requires forall x :: x in ks ==> x in groups
    ensures SortedByRank(groups, SortByRank(groups, ks))
    ensures multiset(SortByRank(groups, ks)) == multiset(ks)
  {
    if ks != [] {
      var init, last := ks[..|ks| - 1], ks[|ks| - 1];
      assert ks == init + [last];
      SortByRankSorts(groups, init);
      InsertByRankSorted(groups, SortByRank(groups, init), last);
      InsertByRankPermutes(groups, SortByRank(groups, init), last);
    }
  }

  ghost predicate Before(ks: seq<GroupId>, a: GroupId, b: GroupId) {
    exists i, j :: 0 <= i < j < |ks| && ks[i] == a && ks[j] == b
  }

  lemma BeforeExtend(ks: seq<GroupId>, a: GroupId, b: GroupId, last: GroupId)
    ensures Before(ks, a, b) ==> Before(ks + [last], a, b)
    ensures a in ks ==> Before(ks + [last], a, last)
    ensures Before(ks + [last], a, b) && !Before(ks, a, b) ==> a in ks && b == last
  {
    var all := ks + [last];
    if Before(ks, a, b) {
      var i, j :| 0 <= i < j < |ks| && ks[i] == a && ks[j] == b;
      assert all[i] == a && all[j] == b;
    }
    if a in ks {
      var i :| 0 <= i < |ks| && ks[i] == a;
      assert all[i] == a && all[|ks|] == last;
    }
    if Before(all, a, b) {
      var i, j :| 0 <= i < j < |all| && all[i] == a && all[j] == b;
      assert ks[i] == a;
      if j < |ks| {
        assert ks[j] == b && Before(ks, a, b);
      }
    }
  }

  lemma {:induction false} InsertByRankStable(groups: Groups, ks: seq<GroupId>, k: GroupId, a: GroupId, b: GroupId)
    requires k in groups && forall x :: x in ks ==> x in groups
    ensures Before(ks, a, b) ==> Before(InsertByRank(groups, ks, k), a, b)
    ensures a in ks && groups[a].rankUpward >= groups[k].rankUpward ==> Before(InsertByRank(groups, ks, k), a, k)
  {
    if ks != [] {
      var init, last := ks[..|ks| - 1], ks[|ks| - 1];
      assert ks == init + [last];
      BeforeExtend(init, a, b, last);
      if groups[last].rankUpward >= groups[k].rankUpward {
        BeforeExtend(ks, a, b, k);
      } else {
        InsertByRankStable(groups, init, k, a, b);
        BeforeExtend(InsertByRank(groups, init, k), a, b, last);
        BeforeExtend(InsertByRank(groups, init, k), a, k, last);
      }
    }
  }

  /** Groups of equal rank stay in the order in which they were finished. */
  lemma {:induction false} SortByRankStable(groups: Groups, ks: seq<GroupId>, a: GroupId, b: GroupId)
    requires (forall x :: x in ks ==> x in groups) && Before(ks, a, b) && groups[a].rankUpward >= groups[b].rankUpward
    ensures Before(SortByRank(groups, ks), a, b)
  {
    var init, last := ks[..|ks| - 1], ks[|ks| - 1];
    assert ks == init + [last];
    BeforeExtend(init, a, b, last);
    InsertByRankStable(groups, SortByRank(groups, init), last, a, b);
    if Before(init, a, b) {
      SortByRankStable(groups, init, a, b);
    }
  }

  /** A permutation of a list without repetition has none either. */
  lemma PermutationDistinct<T(!new)>(a: seq<T>, b: seq<T>)
    requires multiset(a) == multiset(b) && Distinct(a)
    ensures Distinct(b)
  {
    forall i, j | 0 <= i < j < |b| ensures b[i] != b[j] {
      if b[i] == b[j] {
        assert b == b[..i] + [b[i]] + b[i + 1..j] + [b[j]] + b[j + 1..];
        assert multiset(b)[b[i]] >= 2;
        DistinctCounts(a, b[i]);
      }
    }
  }

  lemma {:induction false} DistinctCounts<T(!new)>(a: seq<T>, x: T)
    requires Distinct(a)
    ensures multiset(a)[x] <= 1
  {
    if a != [] {
      assert a == a[..|a| - 1] + [a[|a| - 1]];
      DistinctCounts(a[..|a| - 1], x);
    }
  }

  lemma SameGroupsKeepStructure(a: Groups, b: Groups, data: DataDependencies, groupOf: map<NodeId, GroupId>)
    requires SameGroups(a, b) && Partition(a, groupOf) && EdgesListed(a, data, groupOf, data.Keys)
    ensures Partition(b, groupOf) && EdgesListed(b, data, groupOf, data.Keys)
    ensures forall k :: k in a ==> a[k].incoming == b[k].incoming
  {
    hide ListsEdges, CarriesData;
    forall k | k in a
      ensures a[k].id == b[k].id && a[k].representative == b[k].representative && a[k].members == b[k].members
      ensures a[k].outgoing == b[k].outgoing && a[k].outgoingData == b[k].outgoingData
      ensures a[k].incoming == b[k].incoming && a[k].incomingData == b[k].incomingData
    {
      assert Bare(a[k]).id == Bare(b[k]).id;
    }
  }

  /** Edges of the group graph are the group dependencies, so they lead to groups, and leave their trace at the target. */
  lemma GraphShape(nodes: map<NodeId, ReservationId>, store: Store, data: DataDependencies, speed: int,
                   groupOf: map<NodeId, GroupId>, groups: Groups)
    requires Partition(groups, groupOf) && EdgesListed(groups, data, groupOf, data.Keys)
    ensures var g := GroupGraph(nodes, store, data, speed, groups);
            Closed(g) && forall w :: w in groups && (forall u :: !HasEdge(g, u, w)) ==> groups[w].incoming == []
  {
    var g := GroupGraph(nodes, store, data, speed, groups);
    forall k, e | k in g && e in g[k].outgoing ensures e.target in g {
      var i :| 0 <= i < |groups[k].outgoing| && g[k].outgoing[i] == e;
      OutgoingEdge(data, groupOf, groups, k, i);
    }
    forall w | w in groups && groups[w].incoming != [] ensures exists u :: HasEdge(g, u, w) {
      var d := IncomingEdge(data, groupOf, groups, w, 0);
      EdgeInGraph(nodes, store, data, speed, groups, groupOf[data[d.id].source], d);
    }
  }

  lemma EdgeInGraph(nodes: map<NodeId, ReservationId>, store: Store, data: DataDependencies, speed: int,
                    groups: Groups, u: GroupId, e: GroupDependency)
    requires u in groups && e in groups[u].outgoing
    ensures HasEdge(GroupGraph(nodes, store, data, speed, groups), u, e.target)
  {
    var g := GroupGraph(nodes, store, data, speed, groups);
    var i :| 0 <= i < |groups[u].outgoing| && groups[u].outgoing[i] == e;
    assert g[u].outgoing[i] == GroupEdgeCost(data, speed, e);
  }

  /** The vertex of a group: its duration, and one edge per outgoing dependency. */
  lemma VertexOf(nodes: map<NodeId, ReservationId>, store: Store, data: DataDependencies, speed: int, groups: Groups, k: GroupId)
    requires k in groups
    ensures var g := GroupGraph(nodes, store, data, speed, groups);
            && k in g && g[k].duration == LongestDuration(nodes, store, groups[k].members)
            && |g[k].outgoing| == |groups[k].outgoing|
            && forall i :: 0 <= i < |groups[k].outgoing| ==> g[k].outgoing[i] == GroupEdgeCost(data, speed, groups[k].outgoing[i])
  {
  }

  /** The edge stands for the dependency: it leads to the group of its target and takes as long as the data needs. */
  ghost predicate StandsFor(e: Edge, groupOf: map<NodeId, GroupId>, d: DataDependency, speed: int) {
    Crosses(groupOf, d) && e.target == groupOf[d.target] && Takes(e.cost, d.size, speed)
  }

  /** The vertex takes as long as the longest task among its members. */
  ghost predicate TakesLongest(v: Vertex, nodes: map<NodeId, ReservationId>, store: Store, members: seq<NodeId>) {
    && v.duration >= 0
    && (forall m :: m in members && m in nodes && nodes[m] in store ==> store[nodes[m]].duration <= v.duration)
    && (v.duration == 0 || exists m :: m in members && m in nodes && nodes[m] in store && store[nodes[m]].duration == v.duration)
  }

  /**
   What the group graph means: a group takes as long as its longest task, and every edge stands for a dependency between
   two groups and every such dependency for an edge.
   */
  lemma GraphMeans(nodes: map<NodeId, ReservationId>, store: Store, data: DataDependencies, speed: int,
                   groupOf: map<NodeId, GroupId>, groups: Groups)
    requires Partition(groups, groupOf) && EdgesListed(groups, data, groupOf, data.Keys)
    ensures var g := GroupGraph(nodes, store, data, speed, groups);
            && g.Keys == groups.Keys
            && (forall k :: k in g ==> TakesLongest(g[k], nodes, store, groups[k].members))
            && (forall k, e :: k in g && e in g[k].outgoing ==>
                  exists id :: id in data && StandsFor(e, groupOf, data[id], speed) && groupOf[data[id].source] == k)
            && (forall id :: id in data && Crosses(groupOf, data[id]) ==>
                  && groupOf[data[id].source] in g
                  && exists e :: e in g[groupOf[data[id].source]].outgoing && StandsFor(e, groupOf, data[id], speed))
  {
    var g := GroupGraph(nodes, store, data, speed, groups);
    GraphKeys(nodes, store, data, speed, groups);
    forall k | k in g ensures TakesLongest(g[k], nodes, store, groups[k].members) {
      LongestDurationIsLeast(nodes, store, groups[k].members);
    }
    hide GroupGraph;
    forall k, e | k in g && e in g[k].outgoing
      ensures exists id :: id in data && StandsFor(e, groupOf, data[id], speed) && groupOf[data[id].source] == k
    {
      var id := EdgeStands(nodes, store, data, speed, groupOf, groups, k, e);
    }
    forall id | id in data && Crosses(groupOf, data[id])
      ensures groupOf[data[id].source] in g
      ensures exists e :: e in g[groupOf[data[id].source]].outgoing && StandsFor(e, groupOf, data[id], speed)
    {
      var e := DependencyStands(nodes, store, data, speed, groupOf, groups, id);
    }
  }

  lemma EdgeStands(nodes: map<NodeId, ReservationId>, store: Store, data: DataDependencies, speed: int,
                   groupOf: map<NodeId, GroupId>, groups: Groups, k: GroupId, e: Edge) returns (id: DependencyId)
    requires Partition(groups, groupOf) && EdgesListed(groups, data, groupOf, data.Keys)
    requires var g := GroupGraph(nodes, store, data, speed, groups); k in g && e in g[k].outgoing
    ensures id in data && StandsFor(e, groupOf, data[id], speed) && groupOf[data[id].source] == k
  {
    VertexOf(nodes, store, data, speed, groups, k);
    assert GroupListed(data, groupOf, data.Keys, k, groups[k]);
    var i :| 0 <= i < |groups[k].outgoing| && GroupGraph(nodes, store, data, speed, groups)[k].outgoing[i] == e;
    var d := groups[k].outgoing[i];
    assert d in groups[k].outgoing;
    id := d.id;
    CommunicationTakes(data[id].size, speed);
  }

  lemma DependencyStands(nodes: map<NodeId, ReservationId>, store: Store, data: DataDependencies, speed: int,
                         groupOf: map<NodeId, GroupId>, groups: Groups, id: DependencyId) returns (e: Edge)
    requires Partition(groups, groupOf) && EdgesListed(groups, data, groupOf, data.Keys)
    requires id in data && Crosses(groupOf, data[id])
    ensures var g := GroupGraph(nodes, store, data, speed, groups);
            groupOf[data[id].source] in g && e in g[groupOf[data[id].source]].outgoing && StandsFor(e, groupOf, data[id], speed)
  {
    var k := groupOf[data[id].source];
    assert k in groups && GroupListed(data, groupOf, data.Keys, k, groups[k]);
    VertexOf(nodes, store, data, speed, groups, k);
    var d := GroupEdge(groupOf, id, data[id]);
    assert d in groups[k].outgoing;
    var i :| 0 <= i < |groups[k].outgoing| && groups[k].outgoing[i] == d;
    e := GroupGraph(nodes, store, data, speed, groups)[k].outgoing[i];
    assert e == GroupEdgeCost(data, speed, d);
    CommunicationTakes(data[id].size, speed);
  }

  lemma OutgoingEdge(data: DataDependencies, groupOf: map<NodeId, GroupId>, groups: Groups, k: GroupId, i: nat)
    requires Partition(groups, groupOf) && EdgesListed(groups, data, groupOf, data.Keys)
    requires k in groups && i < |groups[k].outgoing|
    ensures var e := groups[k].outgoing[i];
            && e.id in data && Crosses(groupOf, data[e.id]) && e == GroupEdge(groupOf, e.id, data[e.id])
            && e.source == k && e.target in groups
  {
    assert GroupListed(data, groupOf, data.Keys, k, groups[k]);
    assert groups[k].outgoing[i] in groups[k].outgoing;
  }

  lemma IncomingEdge(data: DataDependencies, groupOf: map<NodeId, GroupId>, groups: Groups, k: GroupId, i: nat)
    returns (e: GroupDependency)
    requires Partition(groups, groupOf) && EdgesListed(groups, data, groupOf, data.Keys)
    requires k in groups && i < |groups[k].incoming|
    ensures e == groups[k].incoming[i] && |groups[k].incomingData| == |groups[k].incoming|
    ensures e.id in data && Crosses(groupOf, data[e.id]) && e == GroupEdge(groupOf, e.id, data[e.id])
    ensures groups[k].incomingData[i] == data[e.id]
    ensures e.target == k && e.source in groups && e in groups[e.source].outgoing
  {
    e := groups[k].incoming[i];
    assert GroupListed(data, groupOf, data.Keys, k, groups[k]);
    assert e in groups[k].incoming;
    var s := groupOf[data[e.id].source];
    assert GroupListed(data, groupOf, data.Keys, s, groups[s]);
  }

  lemma NothingProcessed(g: Graph, groups: Groups)
    requires groups.Keys == g.Keys && forall k :: k in groups ==> !groups[k].isProcessed
    ensures RanksRight(g, groups) && ProcessedSet(groups, {})
  {
  }

  lemma ProcessedStep(g: Graph, groups: Groups, k: GroupId, rank: int, count: nat)
    requires RanksRight(g, groups) && k in groups && IsRank(g, k, rank, count)
    requires forall w :: HasEdge(g, k, w) ==> w in groups && groups[w].isProcessed
    ensures RanksRight(g, groups[k := groups[k].(rankUpward := rank, criticalNodes := count, isProcessed := true)])
  {
    hide IsRank, HasEdge;
  }

  /** The rank of a group as far as its successors have one, and those that still need one. */
  method VisitSuccessors(nodes: map<NodeId, ReservationId>, store: Store, data: DataDependencies, speed: int,
                         groupOf: map<NodeId, GroupId>, groups: Groups, k: GroupId, ghost g: Graph)
    returns (rank: int, count: nat, pushed: seq<GroupId>)
    requires (forall n :: n in nodes ==> nodes[n] in store) && k in groups
    requires Partition(groups, groupOf) && EdgesListed(groups, data, groupOf, data.Keys)
    requires g == GroupGraph(nodes, store, data, speed, groups) && RanksRight(g, groups)
    ensures forall w :: w in pushed ==> HasEdge(g, k, w) && w in groups && !groups[w].isProcessed
    ensures forall w :: HasEdge(g, k, w) ==> w in groups && (groups[w].isProcessed || w in pushed)
    ensures pushed == [] ==> IsRank(g, k, rank, count)
  {
    hide Partition, EdgesListed, IsPath, HeaviestWithin, GroupGraph, IsRank, LongestDuration, Crosses;
    VertexOf(nodes, store, data, speed, groups, k);
    var duration := GetCoAllocationDuration(nodes, store, groups[k].members);
    var outgoing := groups[k].outgoing;
    ghost var edges := g[k].outgoing;
    rank, count, pushed := duration, 1, [];
    HeaviestBase(g, k);
    for i := 0 to |outgoing|
      invariant |edges| == |outgoing|
      invariant forall w :: w in pushed ==> HasEdge(g, k, w) && w in groups && !groups[w].isProcessed
      invariant forall j :: 0 <= j < i ==>
        outgoing[j].target in groups && (groups[outgoing[j].target].isProcessed || outgoing[j].target in pushed)
      invariant pushed == [] ==> HeaviestWithin(g, k, edges[..i], rank, count)
    {
      var dep := outgoing[i];
      OutgoingEdge(data, groupOf, groups, k, i);
      assert edges[i] in edges && edges[i].target == dep.target && HasEdge(g, k, dep.target);
      if !groups[dep.target].isProcessed {
        pushed := pushed + [dep.target];
      } else {
        var target := groups[dep.target];
        var possible := duration + CommunicationTime(data[dep.id].size, speed) + target.rankUpward;
        if pushed == [] {
          HeaviestStep(g, k, edges[..i], rank, count, edges[i], target.rankUpward, target.criticalNodes);
          assert edges[..i + 1] == edges[..i] + [edges[i]];
        }
        if rank < possible {
          rank, count := possible, target.criticalNodes + 1;
        }
      }
    }
    forall w | HasEdge(g, k, w) ensures w in groups && (groups[w].isProcessed || w in pushed) {
      var e :| e in edges && e.target == w;
      var j :| 0 <= j < |edges| && edges[j] == e;
    }
    assert edges[..|edges|] == edges;
    if pushed == [] {
      HeaviestIsRank(g, k, rank, count);
    }
  }

  /** Clears the marks of all groups and marks the entry groups, which are the first to look at. */
  method MarkEntries(groups: Groups, entries: seq<GroupId>) returns (marked: Groups)
    requires forall k :: k in entries ==> k in groups
    ensures SameGroups(groups, marked)
    ensures forall k :: k in marked ==> !marked[k].isProcessed && (marked[k].isDiscovered <==> k in entries)
  {
    marked := map k | k in groups :: groups[k].(isDiscovered := false, isProcessed := false);
    for i := 0 to |entries|
      invariant SameGroups(groups, marked)
      invariant forall k :: k in marked ==> !marked[k].isProcessed && (marked[k].isDiscovered <==> k in entries[..i])
    {
      marked := marked[entries[i] := marked[entries[i]].(isDiscovered := true)];
    }
    assert entries[..|entries|] == entries;
  }

  /** The processed groups are those marked so. */
  ghost predicate ProcessedSet(groups: Groups, processed: set<GroupId>) {
    forall k :: k in processed <==> k in groups && groups[k].isProcessed
  }

  lemma InProcessedSet(groups: Groups, processed: set<GroupId>, k: GroupId)
    requires ProcessedSet(groups, processed)
    ensures k in groups ==> (k in processed <==> groups[k].isProcessed)
    ensures processed <= groups.Keys
    ensures forall w :: w in groups && groups[w].isProcessed ==> w in processed
  {
  }

  lemma SameGroupsKeys(a: Groups, b: Groups)
    requires SameGroups(a, b)
    ensures a.Keys == b.Keys
  {
  }

  /** The list holds exactly the elements of the set, each once. */
  ghost predicate ListsOnce(list: seq<GroupId>, elements: set<GroupId>) {
    Distinct(list) && forall k :: k in list <==> k in elements
  }

  /** A group is finished after all its successors. */
  ghost predicate SuccessorsFirst(g: Graph, finished: seq<GroupId>) {
    forall i, w :: 0 <= i < |finished| && HasEdge(g, finished[i], w) ==> w in finished[..i]
  }

  lemma NothingFinished(g: Graph)
    ensures ListsOnce([], {}) && SuccessorsFirst(g, [])
  {
  }

  lemma FinishAfterSuccessors(g: Graph, groups: Groups, finished: seq<GroupId>, processed: set<GroupId>, k: GroupId)
    requires ListsOnce(finished, processed) && ProcessedSet(groups, processed) && SuccessorsFirst(g, finished)
    requires forall w :: HasEdge(g, k, w) ==> w in groups && groups[w].isProcessed
    ensures SuccessorsFirst(g, finished + [k])
  {
    hide HasEdge;
    forall i, w | 0 <= i <= |finished| && HasEdge(g, (finished + [k])[i], w) ensures w in (finished + [k])[..i] {
      if i == |finished| {
        assert w in processed && w in finished;
        assert (finished + [k])[..i] == finished;
      } else {
        assert (finished + [k])[..i] == finished[..i];
      }
    }
  }

  lemma ListOneMore(list: seq<GroupId>, elements: set<GroupId>, k: GroupId)
    requires ListsOnce(list, elements) && k !in elements
    ensures ListsOnce(list + [k], elements + {k})
  {
  }

  lemma ListedElements(list: seq<GroupId>, elements: set<GroupId>)
    requires ListsOnce(list, elements)
    ensures Distinct(list) && forall k :: k in list <==> k in elements
  {
  }

  lemma AllRanked(g: Graph, groups: Groups, processed: set<GroupId>)
    requires ProcessedSet(groups, processed) && processed == g.Keys && RanksRight(g, groups)
    ensures forall k :: k in groups ==> IsRank(g, k, groups[k].rankUpward, groups[k].criticalNodes)
  {
  }

  lemma RecordStep(before: Groups, groups: Groups, processed: set<GroupId>, k: GroupId, rank: int, count: nat)
    requires SameGroups(before, groups) && ProcessedSet(groups, processed) && k in groups
    ensures var groups' := groups[k := groups[k].(rankUpward := rank, criticalNodes := count, isProcessed := true)];
            SameGroups(before, groups') && ProcessedSet(groups', processed + {k}) && groups'.Keys == groups.Keys
  {
  }

  /**
   The depth-first traversal: a group is finished when all its successors are; until then they are pushed above
   it. Groups may be on the stack several times, yet each is expanded and finished once.
   */
  method RankGroups(nodes: map<NodeId, ReservationId>, store: Store, data: DataDependencies, speed: int,
                    groupOf: map<NodeId, GroupId>, entries: seq<GroupId>, ghost before: Groups, entered: Groups)
    returns (groups: Groups, finished: seq<GroupId>)
    requires forall n :: n in nodes ==> nodes[n] in store
    requires Partition(before, groupOf) && EdgesListed(before, data, groupOf, data.Keys)
    requires SameGroups(before, entered) && forall k :: k in entered ==> !entered[k].isProcessed
    requires forall k :: k in entries <==> k in before && before[k].incoming == []
    requires Acyclic(GroupGraph(nodes, store, data, speed, before))
    ensures SameGroups(before, groups)
    ensures forall k :: k in groups ==>
      IsRank(GroupGraph(nodes, store, data, speed, before), k, groups[k].rankUpward, groups[k].criticalNodes)
    ensures ListsOnce(finished, groups.Keys) && SuccessorsFirst(GroupGraph(nodes, store, data, speed, before), finished)
  {
    hide Partition, EdgesListed, IsRank, HasEdge, Acyclic, Closed, RanksRight, StackRight, Level;
    hide SameGroups, ProcessedSet, ListsOnce, EntriesCovered, GroupGraph, SuccessorsFirst;
    ghost var g := GroupGraph(nodes, store, data, speed, before);
    GraphShape(nodes, store, data, speed, groupOf, before);
    GraphKeys(nodes, store, data, speed, before);
    groups := entered;
    SameGroupsKeys(before, groups);
    NothingProcessed(g, groups);
    var stack := entries;
    finished := [];
    NothingFinished(g);
    ghost var processed: set<GroupId>, expanded: set<GroupId>, marks := {}, {}, seq(|stack|, i => false);
    StackInitially(g, stack, marks);
    EntriesInitially(entries);
    while stack != []
      invariant SameGroups(before, groups) && groups.Keys == g.Keys && RanksRight(g, groups)
      invariant ProcessedSet(groups, processed)
      invariant ListsOnce(finished, processed) && SuccessorsFirst(g, finished)
      invariant EntriesCovered(entries, processed, stack)
      invariant StackRight(g, processed, expanded, stack, marks) && |marks| == |stack|
      decreases g.Keys - processed, g.Keys - expanded, |stack|
    {
      var top := |stack| - 1;
      var next := stack[top];
      TopIsGroup(g, processed, expanded, stack, marks);
      InProcessedSet(groups, processed, next);
      if groups[next].isProcessed {
        PopKeepsStack(g, processed, processed, expanded, stack, marks);
        EntriesAfterPop(entries, processed, processed, stack);
        stack, marks := stack[..top], marks[..top];
        continue;
      }
      SameGroupsKeepStructure(before, groups, data, groupOf);
      SameGroupsSameGraph(nodes, store, data, speed, before, groups);
      var rank, count, pushed := VisitSuccessors(nodes, store, data, speed, groupOf, groups, next, g);
      if pushed == [] {
        ProcessedStep(g, groups, next, rank, count);
        PopKeepsStack(g, processed, processed + {next}, expanded, stack, marks);
        EntriesAfterPop(entries, processed, processed + {next}, stack);
        RecordStep(before, groups, processed, next, rank, count);
        FinishAfterSuccessors(g, groups, finished, processed, next);
        groups := groups[next := groups[next].(rankUpward := rank, criticalNodes := count, isProcessed := true)];
        stack, marks := stack[..top], marks[..top];
        ListOneMore(finished, processed, next);
        finished := finished + [next];
        processed := processed + {next};
      } else {
        assert pushed[0] in pushed;
        InProcessedSet(groups, processed, pushed[0]);
        TopNotExpanded(g, processed, expanded, stack, marks, pushed[0]);
        PushKeepsStack(g, processed, expanded, stack, marks, pushed);
        EntriesAfterPush(entries, processed, stack, pushed);
        stack, marks := stack + pushed, marks[..top] + [true] + seq(|pushed|, i => false);
        expanded := expanded + {next};
      }
    }
    AllProcessed(g, groups, processed, entries);
    AllRanked(g, groups, processed);
  }

  lemma GraphKeys(nodes: map<NodeId, ReservationId>, store: Store, data: DataDependencies, speed: int, groups: Groups)
    ensures GroupGraph(nodes, store, data, speed, groups).Keys == groups.Keys
  {
  }

  /** Every group is represented by the node it is named after. */
  function Representatives(groups: Groups, ghost groupOf: map<NodeId, GroupId>, ks: seq<GroupId>): (ns: seq<NodeId>)
    requires Partition(groups, groupOf) && forall k :: k in ks ==> k in groups
    ensures ns == ks
  {
    seq(|ks|, i requires 0 <= i < |ks| => assert ks[i] in ks; groups[ks[i]].representative)
  }

  /** The representatives of the groups, the highest rank first. */
  method RankedRepresentatives(groups: Groups, ghost groupOf: map<NodeId, GroupId>, finished: seq<GroupId>) returns (order: seq<NodeId>)
    requires Partition(groups, groupOf) && ListsOnce(finished, groups.Keys)
    ensures order == SortByRank(groups, finished) && ListsOnce(order, groups.Keys) && SortedByRank(groups, order)
  {
    hide Partition;
    SortByRankSorts(groups, finished);
    var sorted := SortByRank(groups, finished);
    PermutationDistinct(finished, sorted);
    order := Representatives(groups, groupOf, sorted);
  }

  /** Every group comes before the groups it leads to. */
  ghost predicate Topological(g: Graph, order: seq<GroupId>) {
    forall i, j :: 0 <= i < |order| && 0 <= j < |order| && HasEdge(g, order[i], order[j]) ==> i < j
  }

  /** A list sorted by descending rank is a topological order wherever every edge takes time. */
  lemma RankOrderIsTopological(g: Graph, groups: Groups, order: seq<GroupId>)
    requires Forward(g) && groups.Keys == g.Keys
    requires forall k :: k in groups ==> IsRank(g, k, groups[k].rankUpward, groups[k].criticalNodes)
    requires ListsOnce(order, groups.Keys) && SortedByRank(groups, order)
    ensures Topological(g, order)
  {
    hide IsRank, HasEdge, Forward;
    forall i, j | 0 <= i < |order| && 0 <= j < |order| && HasEdge(g, order[i], order[j]) ensures i < j {
      assert order[i] in order && order[j] in order;
      var u, v := groups[order[i]], groups[order[j]];
      RankDrops(g, order[i], order[j], u.rankUpward, u.criticalNodes, v.rankUpward, v.criticalNodes);
    }
  }

  /** The rank of a group is higher than those of all its successors. */
  ghost predicate RanksDrop(g: Graph, groups: Groups) {
    forall v, w :: HasEdge(g, v, w) && v in groups && w in groups ==> groups[v].rankUpward > groups[w].rankUpward
  }

  /**
   Exactly when the order of descending rank is a topological order: when every heaviest path of the graph takes time
   to pass its first edge. Otherwise a group has the rank of one of its successors. Groups of equal rank keep the
   order in which they were finished, and there the successor always comes first.
   */
  lemma TopologicalExactly(g: Graph, groups: Groups, finished: seq<GroupId>)
    requires Closed(g) && groups.Keys == g.Keys && NoNegativeTimes(g)
    requires forall k :: k in groups ==> IsRank(g, k, groups[k].rankUpward, groups[k].criticalNodes)
    requires ListsOnce(finished, groups.Keys) && SuccessorsFirst(g, finished)
    requires forall x :: x in finished ==> x in groups
    requires ListsOnce(SortByRank(groups, finished), groups.Keys) && SortedByRank(groups, SortByRank(groups, finished))
    ensures Topological(g, SortByRank(groups, finished)) <==> TimePasses(g)
  {
    var order := SortByRank(groups, finished);
    forall v, w | HasEdge(g, v, w) && v in groups && w in groups ensures groups[v].rankUpward >= groups[w].rankUpward {
      RankDoesNotRise(g, v, w, groups[v].rankUpward, groups[v].criticalNodes, groups[w].rankUpward, groups[w].criticalNodes);
    }
    RanksDropExactly(g, groups);
    hide IsRank, HasEdge, SortByRank, Closed, NoNegativeTimes, SuccessorsFirst, TimePasses;
    if !Topological(g, order) {
      SomeRankStays(g, groups, order);
    } else {
      forall v, w | HasEdge(g, v, w) && v in groups && w in groups ensures groups[v].rankUpward > groups[w].rankUpward {
        if groups[v].rankUpward == groups[w].rankUpward {
          EqualRanksMisordered(g, groups, finished, order, v, w);
        }
      }
    }
  }

  lemma RanksDropExactly(g: Graph, groups: Groups)
    requires Closed(g) && groups.Keys == g.Keys && NoNegativeTimes(g)
    requires forall k :: k in groups ==> IsRank(g, k, groups[k].rankUpward, groups[k].criticalNodes)
    ensures RanksDrop(g, groups) <==> TimePasses(g)
  {
    hide IsRank, HasEdge, NoNegativeTimes;
    if TimePasses(g) {
      forall v, w | HasEdge(g, v, w) && v in groups && w in groups ensures groups[v].rankUpward > groups[w].rankUpward {
        var x, y := groups[v], groups[w];
        RankDoesNotRise(g, v, w, x.rankUpward, x.criticalNodes, y.rankUpward, y.criticalNodes);
        if x.rankUpward == y.rankUpward {
          EqualRanksAreFree(g, v, w, x.rankUpward, x.criticalNodes, y.criticalNodes);
        }
      }
    } else {
      var v, es: seq<Edge> :| es != [] && Heaviest(g, v, es) && g[v].duration + es[0].cost < 1;
      HeaviestKnown(g, v, es);
      var x, y := groups[v], groups[es[0].target];
      FreeEdgeKeepsRank(g, v, es, x.rankUpward, x.criticalNodes, y.rankUpward, y.criticalNodes);
    }
  }

  lemma HeaviestKnown(g: Graph, v: VertexId, es: seq<Edge>)
    requires Closed(g) && es != [] && Heaviest(g, v, es)
    ensures v in g && es[0].target in g
  {
  }

  lemma SomeRankStays(g: Graph, groups: Groups, order: seq<GroupId>)
    requires (forall x :: x in order ==> x in groups) && SortedByRank(groups, order) && !Topological(g, order)
    ensures !RanksDrop(g, groups)
  {
    hide HasEdge;
    var i, j :| 0 <= i < |order| && 0 <= j < |order| && HasEdge(g, order[i], order[j]) && i >= j;
    assert order[i] in order && order[j] in order;
  }

  lemma EqualRanksMisordered(g: Graph, groups: Groups, finished: seq<GroupId>, order: seq<GroupId>, v: GroupId, w: GroupId)
    requires ListsOnce(finished, groups.Keys) && SuccessorsFirst(g, finished) && forall x :: x in finished ==> x in groups
    requires HasEdge(g, v, w) && v in groups && w in groups && groups[v].rankUpward == groups[w].rankUpward
    requires order == SortByRank(groups, finished) && Distinct(order)
    ensures !Topological(g, order)
  {
    hide HasEdge, SortByRank;
    var i :| 0 <= i < |finished| && finished[i] == v;
    assert w in finished[..i];
    var j :| 0 <= j < i && finished[j] == w;
    assert Before(finished, w, v);
    SortByRankStable(groups, finished, w, v);
    var a, b :| 0 <= a < b < |order| && order[a] == w && order[b] == v;
    assert HasEdge(g, order[b], order[a]);
  }

  /** Group 1 has to wait for nothing but leads to group 2, and neither the tasks nor the transfer take any time. */
  ghost function InstantPair(): Graph {
    map[1 := Vertex(0, [Edge(2, 0)]), 2 := Vertex(0, [])]
  }

  lemma InstantPairRanks()
    ensures var g := InstantPair();
            g.Keys == {1, 2} && Closed(g) && NoNegativeTimes(g) && HasEdge(g, 1, 2) && Heaviest(g, 1, [Edge(2, 0)]) && !TimePasses(g)
  {
    var g := InstantPair();
    assert Edge(2, 0) in g[1].outgoing;
    assert [Edge(2, 0)][1..] == [] && IsPath(g, 2, []) && IsPath(g, 1, [Edge(2, 0)]);
    forall fs | IsPath(g, 1, fs) ensures Weight(g, 1, fs) <= Weight(g, 1, [Edge(2, 0)]) {
      if fs != [] {
        assert IsPath(g, 2, fs[1..]);
      }
    }
  }

  /** Whatever ranks the traversal leaves for the pair, and however it finishes, the second group is listed first. */
  lemma InstantPairMisordered(groups: Groups, finished: seq<GroupId>)
    requires groups.Keys == {1, 2}
    requires forall k :: k in groups ==> IsRank(InstantPair(), k, groups[k].rankUpward, groups[k].criticalNodes)
    requires ListsOnce(finished, groups.Keys) && SuccessorsFirst(InstantPair(), finished)
    requires forall x :: x in finished ==> x in groups
    ensures !Topological(InstantPair(), SortByRank(groups, finished))
  {
    hide Heaviest, TimePasses, IsRank, SortByRank, InstantPair, Closed, NoNegativeTimes, HasEdge, SuccessorsFirst, Topological, SortedByRank;
    InstantPairRanks();
    SortByRankSorts(groups, finished);
    PermutationDistinct(finished, SortByRank(groups, finished));
    TopologicalExactly(InstantPair(), groups, finished);
  }

  /** The group edges of exactly those data dependencies that lead from one group to another. */
  ghost predicate DependenciesBetween(data: DataDependencies, groupOf: map<NodeId, GroupId>, edges: map<DependencyId, GroupDependency>) {
    && (forall id :: id in edges <==> id in data && Crosses(groupOf, data[id]))
    && (forall id :: id in edges ==> edges[id] == GroupEdge(groupOf, id, data[id]))
  }

  /** The assigned interval of a extended to that of r; an unset bound is no bound. */
  function Extended(a: Reservation, r: Reservation): Reservation {
    a.(assignedStart :=
         if a.assignedStart == I64_MIN then r.assignedStart
         else if r.assignedStart == I64_MIN then a.assignedStart
         else Min(a.assignedStart, r.assignedStart),
       assignedEnd := if a.assignedEnd == I64_MIN then r.assignedEnd else Max(a.assignedEnd, r.assignedEnd))
  }

  /** Only the assigned interval changes, and what it covered before it still covers. */
  predicate Widened(a: Reservation, b: Reservation) {
    && b == a.(assignedStart := b.assignedStart, assignedEnd := b.assignedEnd)
    && (a.assignedStart == I64_MIN || (b.assignedStart != I64_MIN && b.assignedStart <= a.assignedStart))
    && (a.assignedEnd <= I64_MIN || b.assignedEnd >= a.assignedEnd)
  }

  /** The assigned interval of the workflow covers that of the reservation, as far as it is set. */
  predicate Covers(base: Reservation, r: Reservation) {
    && (r.assignedStart == I64_MIN || (base.assignedStart != I64_MIN && base.assignedStart <= r.assignedStart))
    && (r.assignedEnd <= I64_MIN || base.assignedEnd >= r.assignedEnd)
  }

  /** The extended interval covers both, and is no larger than it takes. */
  lemma ExtendedIsLeast(a: Reservation, r: Reservation, b: Reservation)
    requires r.assignedEnd >= I64_MIN
    ensures Widened(a, Extended(a, r)) && Covers(Extended(a, r), r)
    ensures Widened(a, b) && Covers(b, r) && a.assignedEnd >= I64_MIN && b.assignedEnd >= I64_MIN ==> Widened(Extended(a, r), b)
  {
  }

  class Workflow {
    const nodes: map<NodeId, ReservationId>
    const data: DataDependencies
    const syncs: Syncs
    const groupOf: map<NodeId, GroupId>
    const entryGroups: seq<GroupId>
    const dependencies: map<DependencyId, GroupDependency>
    var groups: Groups
    var base: Reservation

    ghost predicate Valid()
      reads this
    {
      && GroupedBySync(nodes.Keys, syncs, groupOf)
      && Partition(groups, groupOf)
      && EdgesListed(groups, data, groupOf, data.Keys)
      && (forall k :: k in entryGroups <==> k in groups && groups[k].incoming == [])
      && DependenciesBetween(data, groupOf, dependencies)
    }

    constructor (base: Reservation, nodes: map<NodeId, ReservationId>, data: DataDependencies, syncs: Syncs)
      ensures this.nodes == nodes && this.data == data && this.syncs == syncs && this.base == base
      ensures Valid()
    {
      var gs, go := BuildCoAllocations(nodes.Keys, syncs);
      var linked, edges := BuildCoAllocationDependencies(data, go, gs);
      var entries := FindEntryGroups(linked);
      this.base, this.nodes, this.data, this.syncs := base, nodes, data, syncs;
      groupOf, entryGroups, groups, dependencies := go, entries, linked, edges;
    }

    /** Widens the assigned interval of the workflow so that it covers a reservation made for it. */
    method UpdateReservation(r: Reservation)
      modifies this`base
      ensures base == Extended(old(base), r)
    {
      if base.assignedStart == I64_MIN || (r.assignedStart < base.assignedStart && r.assignedStart != I64_MIN) {
        base := base.(assignedStart := r.assignedStart);
      }
      if base.assignedEnd == I64_MIN || r.assignedEnd > base.assignedEnd {
        base := base.(assignedEnd := r.assignedEnd);
      }
    }

    /** The group graph for the ranking. */
    ghost function Dag(store: Store, speed: int): Graph
      reads this
    {
      GroupGraph(nodes, store, data, speed, groups)
    }

    /**
     Ranks all groups by a depth-first traversal with an explicit stack and returns the representatives of the
     groups, the highest rank first.
     */
    method CalculateUpwardRank(speed: int, store: Store) returns (order: seq<NodeId>)
      requires Valid() && forall n :: n in nodes ==> nodes[n] in store
      requires Acyclic(Dag(store, speed))
      modifies this`groups
      ensures Valid() && SameGroups(old(groups), groups) && Dag(store, speed) == old(Dag(store, speed))
      ensures forall k :: k in groups ==> IsRank(Dag(store, speed), k, groups[k].rankUpward, groups[k].criticalNodes)
      ensures ListsOnce(order, groups.Keys) && SortedByRank(groups, order)
      ensures NoNegativeTimes(Dag(store, speed)) ==>
        (Topological(Dag(store, speed), order) <==> TimePasses(Dag(store, speed)))
      ensures Forward(Dag(store, speed)) ==> Topological(Dag(store, speed), order)
    {
      hide Partition, EdgesListed, IsRank, Acyclic, GroupedBySync, SameGroups, SortedByRank, GroupGraph, Topological, TimePasses, Forward,
           SuccessorsFirst, ListsOnce, NoNegativeTimes, Closed;
      GraphShape(nodes, store, data, speed, groupOf, groups);
      var entered := MarkEntries(groups, entryGroups);
      var ranked, finished := RankGroups(nodes, store, data, speed, groupOf, entryGroups, groups, entered);
      SameGroupsKeepStructure(groups, ranked, data, groupOf);
      SameGroupsSameGraph(nodes, store, data, speed, groups, ranked);
      SameGroupsKeys(groups, ranked);
      groups := ranked;
      order := RankedRepresentatives(ranked, groupOf, finished);
      GraphKeys(nodes, store, data, speed, groups);
      ListedElements(finished, groups.Keys);
      if NoNegativeTimes(Dag(store, speed)) {
        TopologicalExactly(Dag(store, speed), groups, finished);
      }
      if Forward(Dag(store, speed)) {
        RankOrderIsTopological(Dag(store, speed), groups, order);
      }
    }
  }
}
