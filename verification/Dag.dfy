/** The workflow graph algorithms of the step runner. */
module Dag {
  import opened Graph
  import opened Sequences

  datatype SortResult = Sorted(order: seq<Id>) | Cycle | UnknownNode

  // ---- Kahn's algorithm

  /** The number of edges into `v` whose source is not in `done`. */
  function Waiting(edges: seq<Edge>, done: set<Id>, v: Id): nat {
    if edges == [] then 0
    else
      var e := edges[|edges| - 1];
      Waiting(edges[..|edges| - 1], done, v) + (if e.target == v && e.source !in done then 1 else 0)
  }

  /** adjacency[u]: the targets of the edges out of `u`, in edge order. */
  function Targets(edges: seq<Edge>, u: Id): seq<Id> {
    if edges == [] then []
    else
      var e := edges[|edges| - 1];
      Targets(edges[..|edges| - 1], u) + (if e.source == u then [e.target] else [])
  }

  lemma {:induction false} TargetsAre(edges: seq<Edge>, u: Id, v: Id)
    ensures v in Targets(edges, u) <==> Edge(u, v) in edges
  {
    if edges != [] {
      var front, e := edges[..|edges| - 1], edges[|edges| - 1];
      TargetsAre(front, u, v);
      assert edges == front + [e];
    }
  }

  lemma {:induction false} NoneWaiting(edges: seq<Edge>, done: set<Id>, v: Id)
    ensures Waiting(edges, done, v) == 0 <==> Sources(edges, v) <= done
  {
    if edges != [] {
      var front, e := edges[..|edges| - 1], edges[|edges| - 1];
      NoneWaiting(front, done, v);
      assert edges == front + [e];
      assert Sources(edges, v) == Sources(front, v) + if e.target == v then {e.source} else {};
    }
  }

  /** Finishing `u` takes one from every node per edge out of `u`. */
  lemma {:induction false} WaitingDrops(edges: seq<Edge>, done: set<Id>, u: Id, v: Id)
    requires u !in done
    ensures Waiting(edges, done, v) == Waiting(edges, done + {u}, v) + multiset(Targets(edges, u))[v]
  {
    if edges != [] {
      WaitingDrops(edges[..|edges| - 1], done, u, v);
    }
  }

  /** Every listed node comes after all sources of its incoming edges. */
  ghost predicate SourcesFirst(edges: seq<Edge>, order: seq<Id>) {
    forall i :: 0 <= i < |order| ==> Sources(edges, order[i]) <= Elements(order[..i])
  }

  lemma OneEdgeMore(edges: seq<Edge>, e: Edge, u: Id)
    ensures Targets(edges + [e], u) == if e.source == u then Targets(edges, u) + [e.target] else Targets(edges, u)
    ensures Waiting(edges + [e], {}, u) == Waiting(edges, {}, u) + if e.target == u then 1 else 0
  {
    assert (edges + [e])[..|edges|] == edges;
  }

  function InDegrees(nodes: seq<Id>, edges: seq<Edge>): map<Id, int> {
    map v | v in nodes :: Waiting(edges, {}, v)
  }

  /** The in-degrees and adjacency lists of these edges. */
  ghost predicate GraphOf(nodes: seq<Id>, edges: seq<Edge>, inDegree: map<Id, int>, adjacency: map<Id, seq<Id>>) {
    && inDegree.Keys == Elements(nodes) && adjacency.Keys == Elements(nodes)
    && forall v :: v in nodes ==> inDegree[v] == Waiting(edges, {}, v) && adjacency[v] == Targets(edges, v)
  }

  lemma GraphGrows(nodes: seq<Id>, edges: seq<Edge>, e: Edge, inDegree: map<Id, int>, adjacency: map<Id, seq<Id>>)
    requires GraphOf(nodes, edges, inDegree, adjacency) && e.source in adjacency && e.target in inDegree
    ensures GraphOf(nodes, edges + [e], inDegree[e.target := inDegree[e.target] + 1],
                    adjacency[e.source := adjacency[e.source] + [e.target]])
  {
    hide Waiting, Targets;
    var d, a := inDegree[e.target := inDegree[e.target] + 1], adjacency[e.source := adjacency[e.source] + [e.target]];
    forall v | v in nodes ensures d[v] == Waiting(edges + [e], {}, v) && a[v] == Targets(edges + [e], v) {
      OneEdgeMore(edges, e, v);
    }
  }

  lemma ClosedGrows(nodes: seq<Id>, edges: seq<Edge>, k: nat)
    requires k < |edges| && Closed(nodes, edges[..k])
    ensures edges[k].source in nodes && edges[k].target in nodes ==> Closed(nodes, edges[..k + 1])
    ensures Closed(nodes, edges) ==> edges[k].source in nodes && edges[k].target in nodes
  {
    assert edges[..k + 1] == edges[..k] + [edges[k]];
    assert edges[k] in edges;
  }

  method BuildGraph(nodes: seq<Id>, edges: seq<Edge>)
    returns (ok: bool, inDegree: map<Id, int>, adjacency: map<Id, seq<Id>>)
    ensures ok <==> Closed(nodes, edges)
    ensures ok ==> GraphOf(nodes, edges, inDegree, adjacency)
  {
    inDegree := map v | v in nodes :: 0;
    adjacency := map v | v in nodes :: [];
    assert GraphOf(nodes, edges[..0], inDegree, adjacency) && Closed(nodes, edges[..0]);
    hide Waiting, Targets, Closed;
    for k := 0 to |edges|
      invariant Closed(nodes, edges[..k]) && GraphOf(nodes, edges[..k], inDegree, adjacency)
    {
      var e := edges[k];
      ClosedGrows(nodes, edges, k);
      assert e.source in Elements(nodes) <==> e.source in nodes;
      assert e.target in Elements(nodes) <==> e.target in nodes;
      if e.source !in adjacency || e.target !in inDegree {
        return false, inDegree, adjacency;
      }
      GraphGrows(nodes, edges[..k], e, inDegree, adjacency);
      assert edges[..k + 1] == edges[..k] + [e];
      adjacency := adjacency[e.source := adjacency[e.source] + [e.target]];
      inDegree := inDegree[e.target := inDegree[e.target] + 1];
    }
    assert edges[..|edges|] == edges;
    ok := true;
  }

  /** Where the degrees stand while the edges out of the last finished node are being counted off. */
  ghost predicate Degrees(nodes: seq<Id>, edges: seq<Edge>, inDegree: map<Id, int>, done: set<Id>, counted: seq<Id>) {
    inDegree.Keys == Elements(nodes) &&
    forall v :: v in nodes ==> inDegree[v] == Waiting(edges, done, v) - multiset(counted)[v]
  }

  /** The finished and the queued nodes are, without repetition, the nodes nothing is waiting for. */
  ghost predicate Frontier(nodes: seq<Id>, inDegree: map<Id, int>, result: seq<Id>, queue: seq<Id>) {
    && inDegree.Keys == Elements(nodes)
    && Distinct(result + queue)
    && (forall v :: v in result + queue <==> v in nodes && inDegree[v] == 0)
  }

  lemma CountUpTo(s: seq<Id>, k: nat, v: Id)
    requires k < |s|
    ensures multiset(s[..k + 1])[v] == multiset(s[..k])[v] + (if s[k] == v then 1 else 0)
    ensures multiset(s)[v] >= multiset(s[..k + 1])[v]
  {
    assert s[..k + 1] == s[..k] + [s[k]];
    assert s == s[..k + 1] + s[k + 1..];
  }

  lemma CountOff(nodes: seq<Id>, edges: seq<Edge>, inDegree: map<Id, int>, done: set<Id>, node: Id, k: nat)
    requires Closed(nodes, edges) && node !in done && k < |Targets(edges, node)|
    requires Degrees(nodes, edges, inDegree, done, Targets(edges, node)[..k])
    ensures var v := Targets(edges, node)[k];
      && v in nodes && inDegree[v] >= 1
      && Degrees(nodes, edges, inDegree[v := inDegree[v] - 1], done, Targets(edges, node)[..k + 1])
  {
    var targets := Targets(edges, node);
    var v := targets[k];
    TargetsAre(edges, node, v);
    WaitingDrops(edges, done, node, v);
    forall u | u in nodes
      ensures multiset(targets[..k + 1])[u] == multiset(targets[..k])[u] + (if v == u then 1 else 0)
    {
      CountUpTo(targets, k, u);
    }
    CountUpTo(targets, k, v);
  }

  lemma FreedOrNot(nodes: seq<Id>, inDegree: map<Id, int>, result: seq<Id>, queue: seq<Id>, v: Id)
    requires Frontier(nodes, inDegree, result, queue) && v in nodes && inDegree[v] >= 1
    ensures Frontier(nodes, inDegree[v := inDegree[v] - 1], result, if inDegree[v] == 1 then queue + [v] else queue)
  {
    if inDegree[v] == 1 {
      assert result + (queue + [v]) == result + queue + [v];
      assert v !in result + queue;
    }
  }

  lemma CountedOff(nodes: seq<Id>, edges: seq<Edge>, inDegree: map<Id, int>, done: set<Id>, node: Id)
    requires node !in done && Degrees(nodes, edges, inDegree, done, Targets(edges, node))
    ensures Degrees(nodes, edges, inDegree, done + {node}, [])
  {
    forall v | v in nodes
      ensures inDegree[v] == Waiting(edges, done + {node}, v)
    {
      WaitingDrops(edges, done, node, v);
    }
  }

  /** The in-degrees and the queue after the targets of a finished node were counted off one by one. */
  function Settle(degrees: map<Id, int>, targets: seq<Id>, queue: seq<Id>): (map<Id, int>, seq<Id>)
    requires forall v :: v in targets ==> v in degrees
    decreases |targets|
  {
    if targets == [] then (degrees, queue)
    else
      var v := targets[0];
      var left := degrees[v := degrees[v] - 1];
      if left[v] == 0 then Settle(left, targets[1..], queue + [v]) else Settle(left, targets[1..], queue)
  }

  /** The inner loop: take a node off the in-degrees of its targets and queue those that become free. */
  method Finish(targets: seq<Id>, degrees: map<Id, int>, waitingQueue: seq<Id>) returns (inDegree: map<Id, int>, queue: seq<Id>)
    requires forall v :: v in targets ==> v in degrees
    ensures (inDegree, queue) == Settle(degrees, targets, waitingQueue)
  {
    inDegree, queue := degrees, waitingQueue;
    assert targets[0..] == targets;
    for k := 0 to |targets|
      invariant inDegree.Keys == degrees.Keys
      invariant Settle(degrees, targets, waitingQueue) == Settle(inDegree, targets[k..], queue)
    {
      assert targets[k..][0] == targets[k] && targets[k..][1..] == targets[k + 1..];
      inDegree := inDegree[targets[k] := inDegree[targets[k]] - 1];
      if inDegree[targets[k]] == 0 {
        queue := queue + [targets[k]];
      }
    }
  }

  /** Counting off keeps the in-degrees exact and queues exactly the nodes that become free, each once. */
  lemma {:induction false} SettleKeeps(nodes: seq<Id>, edges: seq<Edge>, degrees: map<Id, int>, done: set<Id>, node: Id,
                                       result: seq<Id>, queue: seq<Id>, k: nat)
    requires Closed(nodes, edges) && node !in done && k <= |Targets(edges, node)|
    requires Degrees(nodes, edges, degrees, done, Targets(edges, node)[..k]) && Frontier(nodes, degrees, result, queue)
    requires forall v :: v in Targets(edges, node)[k..] ==> v in degrees
    ensures var (left, grown) := Settle(degrees, Targets(edges, node)[k..], queue);
      Degrees(nodes, edges, left, done + {node}, []) && Frontier(nodes, left, result, grown)
    decreases |Targets(edges, node)| - k
  {
    hide Degrees, Frontier, Closed, Targets;
    var targets := Targets(edges, node);
    if k == |targets| {
      assert targets[..k] == targets;
      CountedOff(nodes, edges, degrees, done, node);
    } else {
      var v := targets[k];
      assert targets[k..][0] == v && targets[k..][1..] == targets[k + 1..];
      CountOff(nodes, edges, degrees, done, node, k);
      FreedOrNot(nodes, degrees, result, queue, v);
      SettleKeeps(nodes, edges, degrees[v := degrees[v] - 1], done, node, result, if degrees[v] == 1 then queue + [v] else queue, k + 1);
    }
  }

  function Positive(degrees: map<Id, int>): set<Id> {
    set v | v in degrees && degrees[v] > 0
  }

  /** Whatever the in-degrees are: a node is queued only when it stops being positive, so the two never outgrow each other. */
  lemma {:induction false} SettleIsBounded(degrees: map<Id, int>, targets: seq<Id>, queue: seq<Id>)
    requires forall v :: v in targets ==> v in degrees
    ensures var (left, grown) := Settle(degrees, targets, queue);
      && left.Keys == degrees.Keys && |grown| + |Positive(left)| <= |queue| + |Positive(degrees)|
      && forall v :: v in grown ==> v in queue || v in degrees
    decreases |targets|
  {
    if targets != [] {
      var v := targets[0];
      var left := degrees[v := degrees[v] - 1];
      assert Positive(left) == if left[v] > 0 then Positive(degrees) else Positive(degrees) - {v};
      assert left[v] == 0 ==> v in Positive(degrees);
      SettleIsBounded(left, targets[1..], if left[v] == 0 then queue + [v] else queue);
    }
  }

  // ---- What the order means

  /** Sources come first, so every path runs forward in the order. */
  lemma {:induction false} PathsRunForward(edges: seq<Edge>, order: seq<Id>, p: seq<Id>)
    requires SourcesFirst(edges, order) && IsPath(edges, p) && p[|p| - 1] in order
    ensures p[0] in order
    ensures forall j :: 0 <= j < |order| && order[j] == p[|p| - 1] && |p| >= 2 ==> p[0] in order[..j]
    decreases |p|
  {
    if |p| >= 2 {
      forall j | 0 <= j < |order| && order[j] == p[|p| - 1]
        ensures p[0] in order[..j]
      {
        assert p[|p| - 2] in Sources(edges, order[j]);
        assert p[|p| - 2] in order[..j];
        var front := order[..j];
        forall i | 0 <= i < |front| ensures Sources(edges, front[i]) <= Elements(front[..i]) {
          assert front[..i] == order[..i];
        }
        PathsRunForward(edges, front, p[..|p| - 1]);
      }
    }
  }

  lemma OrderedIsAcyclic(nodes: seq<Id>, edges: seq<Edge>, order: seq<Id>)
    requires Closed(nodes, edges) && Distinct(order) && Elements(order) == Elements(nodes)
    requires SourcesFirst(edges, order)
    ensures Acyclic(edges)
  {
    forall v, p | |p| >= 2 && PathFromTo(edges, p, v, v)
      ensures false
    {
      assert Edge(p[|p| - 2], p[|p| - 1]) in edges;
      assert v in Elements(order);
      var j :| 0 <= j < |order| && order[j] == v;
      PathsRunForward(edges, order, p);
    }
  }

  /** The nodes Kahn's algorithm leaves over all wait for each other. */
  lemma LeftoverIsCyclic(nodes: seq<Id>, edges: seq<Edge>, inDegree: map<Id, int>, result: seq<Id>)
    requires Closed(nodes, edges) && Degrees(nodes, edges, inDegree, Elements(result), [])
    requires Frontier(nodes, inDegree, result, []) && Elements(nodes) - Elements(result) != {}
    ensures !Acyclic(edges)
  {
    var left := Elements(nodes) - Elements(result);
    assert result + [] == result;
    forall v | v in left
      ensures Sources(edges, v) * left != {}
    {
      assert v !in result + [];
      NoneWaiting(edges, Elements(result), v);
      var u :| u in Sources(edges, v) && u !in Elements(result);
      assert Edge(u, v) in edges;
      assert u in Sources(edges, v) * left;
    }
    CycleInside(edges, left);
  }

  /** The nodes with in-degree 0, in definition order. */
  function Free(nodes: seq<Id>, degrees: map<Id, int>): seq<Id>
    requires forall v :: v in nodes ==> v in degrees
  {
    if nodes == [] then []
    else
      var before, v := Free(nodes[..|nodes| - 1], degrees), nodes[|nodes| - 1];
      if degrees[v] == 0 then before + [v] else before
  }

  /** Every edge leads to a node that has an in-degree. */
  ghost predicate Covers(edges: seq<Edge>, degrees: map<Id, int>) {
    forall u, v :: v in Targets(edges, u) ==> v in degrees
  }

  /** The loop of the algorithm, for at most `fuel` nodes. */
  ghost function Kahn(edges: seq<Edge>, degrees: map<Id, int>, queue: seq<Id>, result: seq<Id>, fuel: nat): seq<Id>
    requires Covers(edges, degrees)
    decreases fuel
  {
    if queue == [] || fuel == 0 then result
    else
      SettleIsBounded(degrees, Targets(edges, queue[0]), queue[1..]);
      var (left, grown) := Settle(degrees, Targets(edges, queue[0]), queue[1..]);
      Kahn(edges, left, grown, result + [queue[0]], fuel - 1)
  }

  lemma ClosedCovers(nodes: seq<Id>, edges: seq<Edge>, degrees: map<Id, int>)
    requires Closed(nodes, edges) && forall v :: v in nodes ==> v in degrees
    ensures Covers(edges, degrees)
  {
    forall u, v | v in Targets(edges, u) ensures v in degrees { TargetsAre(edges, u, v); }
  }

  /** The list the algorithm ends up with, for node lists with and without repeated ids. */
  ghost function KahnOrder(nodes: seq<Id>, edges: seq<Edge>): seq<Id>
    requires Closed(nodes, edges)
  {
    ClosedCovers(nodes, edges, InDegrees(nodes, edges));
    Kahn(edges, InDegrees(nodes, edges), Free(nodes, InDegrees(nodes, edges)), [], |nodes|)
  }

  /**
   topological_sort. On distinct ids the order lists every node once, after all sources of its
   incoming edges, and a cycle is reported exactly when there is one. On any ids the outcome is
   that of the algorithm, which is sorted as soon as it lists as many nodes as were given.
   */
  method TopologicalSort(nodes: seq<Id>, edges: seq<Edge>) returns (r: SortResult)
    ensures r.UnknownNode? <==> !Closed(nodes, edges)
    ensures Closed(nodes, edges) ==>
      r == if |KahnOrder(nodes, edges)| == |nodes| then Sorted(KahnOrder(nodes, edges)) else Cycle
    ensures Distinct(nodes) ==> (r.Cycle? <==> Closed(nodes, edges) && !Acyclic(edges))
    ensures Distinct(nodes) && r.Sorted? ==> Distinct(r.order) && Elements(r.order) == Elements(nodes) && |r.order| == |nodes|
    ensures Distinct(nodes) && r.Sorted? ==> SourcesFirst(edges, r.order)
  {
    var ok, inDegree, adjacency := BuildGraph(nodes, edges);
    if !ok {
      return UnknownNode;
    }
    assert inDegree == InDegrees(nodes, edges);
    var queue := FreeNodes(nodes, inDegree);
    var result := [];
    UnderwayStarts(nodes, edges, inDegree);
    hide Underway, Closed, Acyclic, SourcesFirst, Distinct, Kahn, KahnOrder, Targets, Settle;
    while queue != []
      invariant Underway(nodes, edges, inDegree, queue, result) && adjacency.Keys == Elements(nodes)
      decreases |nodes| - |result|
    {
      var node := queue[0];
      UnderwayGoesOn(nodes, edges, inDegree, queue, result);
      result := result + [node];
      inDegree, queue := Finish(adjacency[node], inDegree, queue[1..]);
    }
    UnderwayEnds(nodes, edges, inDegree, result);
    if |result| != |nodes| {
      return Cycle;
    }
    return Sorted(result);
  }

  /** What the loop keeps; the last part on distinct ids only. */
  ghost predicate Underway(nodes: seq<Id>, edges: seq<Edge>, inDegree: map<Id, int>, queue: seq<Id>, result: seq<Id>)
    requires Closed(nodes, edges)
  {
    && inDegree.Keys == Elements(nodes) && Covers(edges, inDegree) && (forall v :: v in queue ==> v in nodes)
    && |result| + |queue| + |Positive(inDegree)| <= |nodes|
    && KahnOrder(nodes, edges) == Kahn(edges, inDegree, queue, result, |nodes| - |result|)
    && (Distinct(nodes) ==> InOrder(nodes, edges, inDegree, result, queue))
  }

  lemma UnderwayStarts(nodes: seq<Id>, edges: seq<Edge>, inDegree: map<Id, int>)
    requires Closed(nodes, edges) && inDegree == InDegrees(nodes, edges)
    ensures Underway(nodes, edges, inDegree, Free(nodes, inDegree), [])
  {
    hide Waiting, Kahn, Distinct, InOrder;
    FreeIsBounded(nodes, inDegree);
    ClosedCovers(nodes, edges, inDegree);
    if Distinct(nodes) { BeginsWithFree(nodes, edges, inDegree); }
  }

  lemma UnderwayGoesOn(nodes: seq<Id>, edges: seq<Edge>, inDegree: map<Id, int>, queue: seq<Id>, result: seq<Id>)
    requires Closed(nodes, edges) && queue != [] && Underway(nodes, edges, inDegree, queue, result)
    ensures |result| < |nodes| && queue[0] in nodes && forall v :: v in Targets(edges, queue[0]) ==> v in inDegree
    ensures var (left, grown) := Settle(inDegree, Targets(edges, queue[0]), queue[1..]);
      Underway(nodes, edges, left, grown, result + [queue[0]])
  {
    hide Closed, Settle, Positive, Distinct, InOrder, Targets, KahnOrder;
    var (left, grown) := Settle(inDegree, Targets(edges, queue[0]), queue[1..]);
    SettleIsBounded(inDegree, Targets(edges, queue[0]), queue[1..]);
    CoversStill(edges, left, inDegree.Keys);
    assert Kahn(edges, inDegree, queue, result, |nodes| - |result|)
        == Kahn(edges, left, grown, result + [queue[0]], |nodes| - |result| - 1);
    if Distinct(nodes) { InOrderStill(nodes, edges, inDegree, result, queue); }
    forall v | v in grown ensures v in nodes {
      assert v in queue[1..] ==> v in queue;
      assert v in inDegree ==> v in Elements(nodes);
    }
  }

  lemma UnderwayEnds(nodes: seq<Id>, edges: seq<Edge>, inDegree: map<Id, int>, result: seq<Id>)
    requires Closed(nodes, edges) && Underway(nodes, edges, inDegree, [], result)
    ensures result == KahnOrder(nodes, edges)
    ensures Distinct(nodes) ==> (|result| == |nodes| <==> Acyclic(edges))
    ensures Distinct(nodes) && |result| == |nodes| ==>
      Distinct(result) && SourcesFirst(edges, result) && Elements(result) == Elements(nodes)
  {
    hide Acyclic, SourcesFirst, InOrder, Distinct, KahnOrder;
    if Distinct(nodes) { InOrderEnds(nodes, edges, inDegree, result); }
  }

  /** Equally many is all of them; otherwise some are left over. */
  lemma AllOrLeftover(nodes: seq<Id>, result: seq<Id>)
    requires Distinct(nodes) && Distinct(result) && Elements(result) <= Elements(nodes)
    ensures if |result| == |nodes| then Elements(result) == Elements(nodes) else Elements(nodes) - Elements(result) != {}
  {
    DistinctSize(nodes);
    DistinctSize(result);
    assert Elements(nodes) == Elements(result) + (Elements(nodes) - Elements(result));
    assert |Elements(nodes)| == |Elements(result)| + |Elements(nodes) - Elements(result)|;
  }

  /** Taking the head of the queue keeps the frontier, and all its sources are already listed. */
  lemma MovesOver(nodes: seq<Id>, edges: seq<Edge>, inDegree: map<Id, int>, result: seq<Id>, queue: seq<Id>)
    requires Distinct(nodes) && queue != [] && SourcesFirst(edges, result)
    requires Degrees(nodes, edges, inDegree, Elements(result), []) && Frontier(nodes, inDegree, result, queue)
    ensures queue[0] in nodes && queue[0] !in result
    ensures Frontier(nodes, inDegree, result + [queue[0]], queue[1..])
    ensures SourcesFirst(edges, result + [queue[0]]) && |result + [queue[0]]| <= |nodes|
  {
    var node := queue[0];
    var longer := result + [node];
    assert result + queue == longer + queue[1..];
    assert node in result + queue;
    assert (result + queue)[|result|] == node;
    NoneWaiting(edges, Elements(result), node);
    forall i | 0 <= i < |longer| ensures Sources(edges, longer[i]) <= Elements(longer[..i]) {
      assert longer[..i] == result[..i];
      assert result[..|result|] == result;
    }
    assert Distinct(longer) by {
      assert forall i :: 0 <= i < |longer| ==> longer[i] == (result + queue)[i];
    }
    assert Elements(longer) <= Elements(nodes) by {
      assert forall v :: v in longer ==> v in result + queue;
    }
    DistinctSize(longer);
    DistinctSize(nodes);
    SubsetSize(Elements(longer), Elements(nodes));
  }

  /** The initial queue. */
  method FreeNodes(nodes: seq<Id>, inDegree: map<Id, int>) returns (queue: seq<Id>)
    requires inDegree.Keys == Elements(nodes)
    ensures queue == Free(nodes, inDegree)
  {
    queue := [];
    for k := 0 to |nodes|
      invariant forall v :: v in nodes[..k] ==> v in inDegree
      invariant queue == Free(nodes[..k], inDegree)
    {
      assert nodes[..k + 1][..k] == nodes[..k] && nodes[..k + 1][k] == nodes[k];
      assert nodes[k] in Elements(nodes);
      if inDegree[nodes[k]] == 0 {
        queue := queue + [nodes[k]];
      }
    }
    assert nodes[..|nodes|] == nodes;
  }

  lemma {:induction false} FreeAre(nodes: seq<Id>, degrees: map<Id, int>)
    requires forall v :: v in nodes ==> v in degrees
    ensures forall v :: v in Free(nodes, degrees) <==> v in nodes && degrees[v] == 0
    ensures Distinct(nodes) ==> Distinct(Free(nodes, degrees))
  {
    if nodes != [] {
      FreeAre(nodes[..|nodes| - 1], degrees);
      assert nodes == nodes[..|nodes| - 1] + [nodes[|nodes| - 1]];
    }
  }

  lemma {:induction false} FreeIsBounded(nodes: seq<Id>, degrees: map<Id, int>)
    requires degrees.Keys == Elements(nodes)
    ensures |Free(nodes, degrees)| + |Positive(degrees)| <= |nodes|
    ensures forall v :: v in Free(nodes, degrees) ==> v in nodes
  {
    FreeAre(nodes, degrees);
    assert Positive(degrees) <= PositiveOf(nodes, degrees);
    SubsetSize(Positive(degrees), PositiveOf(nodes, degrees));
    FreeOrPositive(nodes, degrees);
  }

  function PositiveOf(nodes: seq<Id>, degrees: map<Id, int>): set<Id>
    requires forall v :: v in nodes ==> v in degrees
  {
    set v | v in nodes && degrees[v] > 0
  }

  lemma {:induction false} FreeOrPositive(nodes: seq<Id>, degrees: map<Id, int>)
    requires forall v :: v in nodes ==> v in degrees
    ensures |Free(nodes, degrees)| + |PositiveOf(nodes, degrees)| <= |nodes|
  {
    if nodes != [] {
      var front, v := nodes[..|nodes| - 1], nodes[|nodes| - 1];
      FreeOrPositive(front, degrees);
      assert nodes == front + [v];
      assert PositiveOf(nodes, degrees) == PositiveOf(front, degrees) + if degrees[v] > 0 then {v} else {};
    }
  }

  lemma CoversStill(edges: seq<Edge>, degrees: map<Id, int>, keys: set<Id>)
    requires degrees.Keys == keys && forall u, v :: v in Targets(edges, u) ==> v in keys
    ensures Covers(edges, degrees)
  {
  }

  /** What the loop keeps on distinct ids. */
  ghost predicate InOrder(nodes: seq<Id>, edges: seq<Edge>, inDegree: map<Id, int>, result: seq<Id>, queue: seq<Id>) {
    Degrees(nodes, edges, inDegree, Elements(result), []) && Frontier(nodes, inDegree, result, queue) && SourcesFirst(edges, result)
  }

  lemma BeginsWithFree(nodes: seq<Id>, edges: seq<Edge>, inDegree: map<Id, int>)
    requires Distinct(nodes) && inDegree == InDegrees(nodes, edges)
    ensures InOrder(nodes, edges, inDegree, [], Free(nodes, inDegree))
  {
    FreeAre(nodes, inDegree);
    assert [] + Free(nodes, inDegree) == Free(nodes, inDegree) && Elements<Id>([]) == {};
  }

  lemma InOrderStill(nodes: seq<Id>, edges: seq<Edge>, inDegree: map<Id, int>, result: seq<Id>, queue: seq<Id>)
    requires Closed(nodes, edges) && Distinct(nodes) && queue != [] && Covers(edges, inDegree)
    requires InOrder(nodes, edges, inDegree, result, queue)
    ensures var (left, grown) := Settle(inDegree, Targets(edges, queue[0]), queue[1..]);
      InOrder(nodes, edges, left, result + [queue[0]], grown)
  {
    var node := queue[0];
    MovesOver(nodes, edges, inDegree, result, queue);
    assert Elements(result + [node]) == Elements(result) + {node};
    assert Targets(edges, node)[0..] == Targets(edges, node) && Targets(edges, node)[..0] == [];
    SettleKeeps(nodes, edges, inDegree, Elements(result), node, result + [node], queue[1..], 0);
  }

  lemma InOrderEnds(nodes: seq<Id>, edges: seq<Edge>, inDegree: map<Id, int>, result: seq<Id>)
    requires Closed(nodes, edges) && Distinct(nodes) && InOrder(nodes, edges, inDegree, result, [])
    ensures Distinct(result) && SourcesFirst(edges, result)
    ensures |result| == |nodes| ==> Elements(result) == Elements(nodes)
    ensures |result| == |nodes| <==> Acyclic(edges)
  {
    assert result + [] == result;
    AllOrLeftover(nodes, result);
    if |result| != |nodes| {
      LeftoverIsCyclic(nodes, edges, inDegree, result);
    } else {
      OrderedIsAcyclic(nodes, edges, result);
    }
  }

  // ---- Repeated ids

  lemma KahnPasses(edges: seq<Edge>, degrees: map<Id, int>, queue: seq<Id>, result: seq<Id>, fuel: nat, v: Id)
    requires Covers(edges, degrees) && queue != [] && fuel > 0 && v in degrees
    requires Targets(edges, queue[0]) == [v]
    ensures var left := degrees[v := degrees[v] - 1];
      Covers(edges, left) && Kahn(edges, degrees, queue, result, fuel)
        == Kahn(edges, left, if left[v] == 0 then queue[1..] + [v] else queue[1..], result + [queue[0]], fuel - 1)
  {
    var left := degrees[v := degrees[v] - 1];
    CoversStill(edges, left, degrees.Keys);
    assert [v][1..] == [];
    assert Settle(degrees, [v], queue[1..]) == (left, if left[v] == 0 then queue[1..] + [v] else queue[1..]);
  }

  lemma KahnPassesSink(edges: seq<Edge>, degrees: map<Id, int>, queue: seq<Id>, result: seq<Id>, fuel: nat)
    requires Covers(edges, degrees) && queue != [] && fuel > 0 && Targets(edges, queue[0]) == []
    ensures Kahn(edges, degrees, queue, result, fuel) == Kahn(edges, degrees, queue[1..], result + [queue[0]], fuel - 1)
  {
  }

  /** A repeated target is taken for a node that never comes free: a cycle is reported where there is none. */
  lemma RepeatedIdFalseCycle(a: Id, b: Id)
    requires a != b
    ensures var nodes, edges := [a, b, b], [Edge(a, b)];
      Closed(nodes, edges) && Acyclic(edges) && |KahnOrder(nodes, edges)| == 2
  {
    var nodes, edges := [a, b, b], [Edge(a, b)];
    assert edges[..0] == [] && Waiting(edges, {}, a) == 0 && Waiting(edges, {}, b) == 1;
    assert Targets(edges, a) == [] + [b] && Targets(edges, b) == [];
    var degrees := InDegrees(nodes, edges);
    assert nodes[..2] == [a, b] && [a, b][..1] == [a] && [a][..0] == [];
    assert Free([a], degrees) == [] + [a] && Free(nodes, degrees) == [a];
    ClosedCovers(nodes, edges, degrees);
    hide Kahn, Waiting, Targets, Covers;
    KahnPasses(edges, degrees, [a], [], 3, b);
    assert [a][1..] + [b] == [b] && [] + [a] == [a];
    var left := degrees[b := 0];
    KahnPassesSink(edges, left, [b], [a], 2);
    assert [b][1..] == [] && [a] + [b] == [a, b];
    KahnDone(edges, left, [a, b], 1);
    TwoInOrder(a, b);
  }

  lemma KahnDone(edges: seq<Edge>, degrees: map<Id, int>, result: seq<Id>, fuel: nat)
    requires Covers(edges, degrees)
    ensures Kahn(edges, degrees, [], result, fuel) == result
  {
  }

  lemma TwoInOrder(a: Id, b: Id)
    requires a != b
    ensures Acyclic([Edge(a, b)])
  {
    var edges, order := [Edge(a, b)], [a, b];
    assert edges[0] == Edge(a, b) && Sources(edges, a) == {} && Sources(edges, b) == {a};
    assert order[..1] == [a];
    OrderedIsAcyclic(order, edges, order);
  }

  /** A graph of four nodes in which `b` has the sources `a` and `c`, and `c` the source `d`. */
  function Diamond(a: Id, b: Id, c: Id, d: Id): seq<Edge> {
    [] + [Edge(d, c)] + [Edge(a, b)] + [Edge(c, b)]
  }

  lemma DiamondAt(a: Id, b: Id, c: Id, d: Id, u: Id)
    ensures Targets(Diamond(a, b, c, d), u)
      == (if u == d then [c] else []) + (if u == a then [b] else []) + (if u == c then [b] else [])
    ensures Waiting(Diamond(a, b, c, d), {}, u) == (if u == c then 1 else 0) + (if u == b then 2 else 0)
  {
    OneEdgeMore([], Edge(d, c), u);
    OneEdgeMore([] + [Edge(d, c)], Edge(a, b), u);
    OneEdgeMore([] + [Edge(d, c)] + [Edge(a, b)], Edge(c, b), u);
  }

  lemma DiamondIsAcyclic(a: Id, b: Id, c: Id, d: Id)
    requires Distinct([a, b, c, d])
    ensures Acyclic(Diamond(a, b, c, d)) && Closed([a, a, d, b, c], Diamond(a, b, c, d)) && Edge(c, b) in Diamond(a, b, c, d)
  {
    FourApart(a, b, c, d);
    var edges, order := Diamond(a, b, c, d), [a, d, c, b];
    assert edges == [Edge(d, c), Edge(a, b), Edge(c, b)];
    assert edges[0] == Edge(d, c) && edges[1] == Edge(a, b) && edges[2] == Edge(c, b);
    assert Sources(edges, a) == {} && Sources(edges, d) == {} && Sources(edges, c) == {d} && Sources(edges, b) == {a, c};
    assert order[..2] == [a, d] && order[..3] == [a, d, c];
    OrderedIsAcyclic(order, edges, order);
  }

  lemma FourApart(a: Id, b: Id, c: Id, d: Id)
    requires Distinct([a, b, c, d])
    ensures a != b && a != c && a != d && b != c && b != d && c != d
  {
    var s := [a, b, c, d];
    assert s[0] == a && s[1] == b && s[2] == c && s[3] == d;
  }

  /** A repeated root is taken off its targets twice: a node can come before one of its sources. */
  lemma RepeatedIdMisorders(a: Id, b: Id, c: Id, d: Id)
    requires Distinct([a, b, c, d])
    ensures var nodes, edges := [a, a, d, b, c], Diamond(a, b, c, d);
      Closed(nodes, edges) && Acyclic(edges) && KahnOrder(nodes, edges) == nodes && Edge(c, b) in edges
  {
    FourApart(a, b, c, d);
    DiamondIsAcyclic(a, b, c, d);
    var nodes, edges := [a, a, d, b, c], Diamond(a, b, c, d);
    var degrees := map[a := 0, d := 0, b := 2, c := 1];
    assert InDegrees(nodes, edges) == degrees by {
      forall u | u in nodes ensures Waiting(edges, {}, u) == degrees[u] { DiamondAt(a, b, c, d, u); }
    }
    FreeOfFive(a, b, c, d, degrees);
    ClosedCovers(nodes, edges, degrees);
    hide Kahn, Waiting, Targets, Covers, Acyclic, Closed, Diamond, Free, InDegrees;
    RootTakenTwice(a, b, c, d, edges, degrees);
    DiamondAt(a, b, c, d, d);
    DiamondAt(a, b, c, d, b);
    DiamondAt(a, b, c, d, c);
    SourceComesLate(a, b, c, d, edges, degrees[b := 0]);
  }

  lemma RootTakenTwice(a: Id, b: Id, c: Id, d: Id, edges: seq<Edge>, degrees: map<Id, int>)
    requires edges == Diamond(a, b, c, d) && Covers(edges, degrees) && a != d && a != c && b in degrees && degrees[b] == 2
    ensures Covers(edges, degrees[b := 0])
    ensures Kahn(edges, degrees, [a, a, d], [], 5) == Kahn(edges, degrees[b := 0], [d, b], [a, a], 3)
  {
    DiamondAt(a, b, c, d, a);
    hide Kahn, Targets, Covers, Diamond;
    var left := degrees[b := 1];
    KahnPasses(edges, degrees, [a, a, d], [], 5, b);
    assert [a, a, d][1..] == [a, d] && [] + [a] == [a];
    KahnPasses(edges, left, [a, d], [a], 4, b);
    assert [a, d][1..] + [b] == [d, b] && [a] + [a] == [a, a] && left[b := 0] == degrees[b := 0];
  }

  lemma SourceComesLate(a: Id, b: Id, c: Id, d: Id, edges: seq<Edge>, degrees: map<Id, int>)
    requires Covers(edges, degrees) && b != c
    requires Targets(edges, d) == [c] && Targets(edges, b) == [] && Targets(edges, c) == [b]
    requires b in degrees && c in degrees && degrees[b] == 0 && degrees[c] == 1
    ensures Kahn(edges, degrees, [d, b], [a, a], 3) == [a, a, d, b, c]
  {
    hide Kahn, Targets, Covers;
    var left := degrees[c := 0];
    KahnPasses(edges, degrees, [d, b], [a, a], 3, c);
    assert [d, b][1..] + [c] == [b, c] && [a, a] + [d] == [a, a, d];
    KahnPassesSink(edges, left, [b, c], [a, a, d], 2);
    assert [b, c][1..] == [c] && [a, a, d] + [b] == [a, a, d, b];
    KahnPasses(edges, left, [c], [a, a, d, b], 1, b);
    assert [c][1..] == [] && [a, a, d, b] + [c] == [a, a, d, b, c];
    KahnDone(edges, left[b := -1], [a, a, d, b, c], 0);
  }

  lemma FreeOfFive(a: Id, b: Id, c: Id, d: Id, degrees: map<Id, int>)
    requires degrees.Keys == {a, b, c, d} && degrees[a] == degrees[d] == 0 && degrees[b] > 0 && degrees[c] > 0
    ensures Free([a, a, d, b, c], degrees) == [a, a, d]
  {
    assert [a][..0] == [] && [a, a][..1] == [a] && [a, a, d][..2] == [a, a];
    assert [a, a, d, b][..3] == [a, a, d] && [a, a, d, b, c][..4] == [a, a, d, b];
    assert Free([a], degrees) == [] + [a] && Free([a, a], degrees) == [a] + [a] && Free([a, a, d], degrees) == [a, a] + [d];
    assert Free([a, a, d, b], degrees) == [a, a, d];
  }

  // ---- Reachability

  function Successors(edges: seq<Edge>, u: Id): set<Id> {
    set e | e in edges && e.source == u :: e.target
  }

  lemma TargetsAreSuccessors(edges: seq<Edge>, u: Id)
    ensures Elements(Targets(edges, u)) == Successors(edges, u)
  {
    forall v ensures v in Targets(edges, u) <==> v in Successors(edges, u) {
      TargetsAre(edges, u, v);
      assert Edge(u, v) in edges ==> v in Successors(edges, u);
    }
  }

  /** A set that holds the successors of `start` and of its own members holds all that `start` reaches. */
  lemma {:induction false} ReachesInside(edges: seq<Edge>, start: Id, inside: set<Id>, p: seq<Id>)
    requires Successors(edges, start) <= inside && forall u :: u in inside ==> Successors(edges, u) <= inside
    requires |p| >= 2 && IsPath(edges, p) && p[0] == start
    ensures p[|p| - 1] in inside
    decreases |p|
  {
    var e := Edge(p[|p| - 2], p[|p| - 1]);
    assert e in edges;
    if |p| > 2 {
      ReachesInside(edges, start, inside, p[..|p| - 1]);
    }
    assert e.target in Successors(edges, e.source);
  }

  /** Visited and queued nodes are reached, and no successor of a visited node has been forgotten. */
  ghost predicate Explored(edges: seq<Edge>, start: Id, visited: set<Id>, queued: set<Id>) {
    && (forall v :: v in visited + queued ==> Reaches(edges, start, v))
    && Successors(edges, start) <= visited + queued
    && (forall u :: u in visited ==> Successors(edges, u) <= visited + queued)
  }

  lemma ExploredFurther(edges: seq<Edge>, start: Id, visited: set<Id>, queued: set<Id>, u: Id, rest: set<Id>)
    requires Explored(edges, start, visited, queued) && queued == {u} + rest && u !in visited
    ensures Explored(edges, start, visited + {u}, rest + (Successors(edges, u) - (visited + {u})))
  {
    NextHop(edges, start, u);
    assert visited + queued <= visited + {u} + (rest + (Successors(edges, u) - (visited + {u})));
  }

  lemma ExploredAll(edges: seq<Edge>, start: Id, visited: set<Id>)
    requires Explored(edges, start, visited, {})
    ensures forall v :: v in visited <==> Reaches(edges, start, v)
  {
    assert visited + {} == visited;
    forall v | Reaches(edges, start, v)
      ensures v in visited
    {
      var p :| |p| >= 2 && PathFromTo(edges, p, start, v);
      ReachesInside(edges, start, visited, p);
    }
  }

  /** find_downstream_subgraph: exactly the nodes that `start` reaches along one edge or more. */
  method FindDownstreamSubgraph(start: Id, edges: seq<Edge>) returns (visited: set<Id>)
    ensures forall v :: v in visited <==> Reaches(edges, start, v)
  {
    visited := {};
    var queue := Targets(edges, start);
    TargetsAreSuccessors(edges, start);
    FirstHop(edges, start);
    ghost var all := set e | e in edges :: e.target;
    while queue != []
      invariant Elements(queue) <= all && visited <= all
      invariant Explored(edges, start, visited, Elements(queue))
      decreases all - visited, |queue|
    {
      var current := queue[0];
      assert Elements(queue) == {current} + Elements(queue[1..]);
      if current in visited {
        assert visited + Elements(queue) == visited + Elements(queue[1..]);
        queue := queue[1..];
      } else {
        ExploredFurther(edges, start, visited, Elements(queue), current, Elements(queue[1..]));
        TargetsAreSuccessors(edges, current);
        visited := visited + {current};
        var found := Unvisited(Targets(edges, current), visited);
        assert Elements(queue[1..] + found) == Elements(queue[1..]) + Elements(found);
        queue := queue[1..] + found;
      }
    }
    ExploredAll(edges, start, visited);
  }

  lemma FirstHop(edges: seq<Edge>, start: Id)
    ensures forall v :: v in Successors(edges, start) ==> Reaches(edges, start, v)
  {
    forall v | v in Successors(edges, start) ensures Reaches(edges, start, v) {
      assert Edge(start, v) in edges;
      OneEdge(edges, start, v);
    }
  }

  lemma NextHop(edges: seq<Edge>, start: Id, u: Id)
    requires Reaches(edges, start, u)
    ensures forall v :: v in Successors(edges, u) ==> Reaches(edges, start, v)
  {
    forall v | v in Successors(edges, u) ensures Reaches(edges, start, v) {
      assert Edge(u, v) in edges;
      Joined(edges, start, u, v);
    }
  }

  method Unvisited(targets: seq<Id>, visited: set<Id>) returns (found: seq<Id>)
    ensures Elements(found) == Elements(targets) - visited
  {
    found := [];
    for k := 0 to |targets|
      invariant forall v :: v in found <==> v in targets[..k] && v !in visited
    {
      assert targets[..k + 1] == targets[..k] + [targets[k]];
      if targets[k] !in visited {
        found := found + [targets[k]];
      }
    }
    assert targets[..|targets|] == targets;
  }

  // ---- Skip propagation

  /** A node dies when it has incoming edges and all of them come from the dead. */
  predicate Starved(edges: seq<Edge>, dead: set<Id>, v: Id) {
    Sources(edges, v) != {} && Sources(edges, v) <= dead
  }

  lemma StarvedStill(edges: seq<Edge>, dead: set<Id>, more: set<Id>)
    requires dead <= more
    ensures forall v :: Starved(edges, dead, v) ==> Starved(edges, more, v)
  {
  }

  /** `dead` holds the skipped nodes and every node it starves. */
  ghost predicate ClosedUnderStarving(nodes: seq<Id>, edges: seq<Edge>, skipped: set<Id>, dead: set<Id>) {
    skipped <= dead && forall v :: v in nodes && Starved(edges, dead, v) ==> v in dead
  }

  /** propagate_skips: with the skipped nodes, the result is the least set closed under starving. */
  method PropagateSkips(skipped: set<Id>, nodes: seq<Id>, edges: seq<Edge>) returns (unreachable: set<Id>)
    ensures unreachable !! skipped && unreachable <= Elements(nodes)
    ensures ClosedUnderStarving(nodes, edges, skipped, skipped + unreachable)
    ensures forall dead :: ClosedUnderStarving(nodes, edges, skipped, dead) ==> skipped + unreachable <= dead
    ensures forall v :: v in unreachable ==> Starved(edges, skipped + unreachable, v)
  {
    var dead := skipped;
    var changed := true;
    while changed
      invariant skipped <= dead <= skipped + Elements(nodes)
      invariant forall other :: ClosedUnderStarving(nodes, edges, skipped, other) ==> dead <= other
      invariant forall v :: v in dead - skipped ==> Starved(edges, dead, v)
      invariant !changed ==> ClosedUnderStarving(nodes, edges, skipped, dead)
      decreases skipped + Elements(nodes) - dead, changed
    {
      changed := false;
      ghost var before := dead;
      for k := 0 to |nodes|
        invariant skipped <= dead <= skipped + Elements(nodes) && before <= dead
        invariant forall other :: ClosedUnderStarving(nodes, edges, skipped, other) ==> dead <= other
        invariant forall v :: v in dead - skipped ==> Starved(edges, dead, v)
        invariant if changed then before < dead else dead == before
        invariant !changed ==> forall i :: 0 <= i < k && Starved(edges, dead, nodes[i]) ==> nodes[i] in dead
      {
        var v := nodes[k];
        if v !in dead && Starved(edges, dead, v) {
          StarvedStill(edges, dead, dead + {v});
          dead := dead + {v};
          changed := true;
        }
      }
    }
    unreachable := dead - skipped;
    assert skipped + unreachable == dead;
  }

  /** Some path leads from a node without incoming edges to `v`, past no skipped node. */
  ghost predicate LivePath(edges: seq<Edge>, skipped: set<Id>, p: seq<Id>, v: Id) {
    IsPath(edges, p) && p[|p| - 1] == v && Sources(edges, p[0]) == {} && Elements(p) !! skipped
  }

  /** Along a live path nobody starves. */
  lemma {:induction false} AliveAlong(edges: seq<Edge>, skipped: set<Id>, unreachable: set<Id>, p: seq<Id>, v: Id)
    requires forall u :: u in unreachable ==> Starved(edges, skipped + unreachable, u)
    requires LivePath(edges, skipped, p, v)
    ensures v !in skipped + unreachable
    decreases |p|
  {
    if |p| >= 2 {
      var u := p[|p| - 2];
      assert Edge(u, v) in edges && u in Sources(edges, v);
      AliveAlong(edges, skipped, unreachable, p[..|p| - 1], u);
    }
  }

  lemma RootIsLive(edges: seq<Edge>, skipped: set<Id>, v: Id)
    requires Sources(edges, v) == {} && v !in skipped
    ensures exists p :: LivePath(edges, skipped, p, v)
  {
    assert LivePath(edges, skipped, [v], v);
  }

  lemma LiveGoesOn(edges: seq<Edge>, skipped: set<Id>, q: seq<Id>, u: Id, v: Id)
    requires LivePath(edges, skipped, q, u) && Edge(u, v) in edges && v !in skipped
    ensures exists p :: LivePath(edges, skipped, p, v)
  {
    assert LivePath(edges, skipped, q + [v], v);
  }

  /** In an acyclic graph a node without a live path has died. */
  lemma DiesWithoutPath(nodes: seq<Id>, edges: seq<Edge>, skipped: set<Id>, unreachable: set<Id>, v: Id)
    requires Closed(nodes, edges) && Acyclic(edges) && v in nodes
    requires ClosedUnderStarving(nodes, edges, skipped, skipped + unreachable)
    requires v !in skipped + unreachable
    ensures exists p :: LivePath(edges, skipped, p, v)
  {
    var dead := skipped + unreachable;
    var stranded := set u | u in nodes && u !in dead && !exists p :: LivePath(edges, skipped, p, u);
    forall u | u in stranded
      ensures Sources(edges, u) * stranded != {}
    {
      if Sources(edges, u) == {} {
        RootIsLive(edges, skipped, u);
      }
      assert !Starved(edges, dead, u);
      var w :| w in Sources(edges, u) && w !in dead;
      assert Edge(w, u) in edges;
      if q :| LivePath(edges, skipped, q, w) {
        LiveGoesOn(edges, skipped, q, w, u);
      }
      assert w in Sources(edges, u) * stranded;
    }
    if stranded != {} {
      CycleInside(edges, stranded);
    }
    assert v !in stranded;
  }

  /** On an acyclic graph exactly the nodes with a live path stay runnable. */
  lemma LiveIffPath(nodes: seq<Id>, edges: seq<Edge>, skipped: set<Id>, unreachable: set<Id>, v: Id)
    requires Closed(nodes, edges) && Acyclic(edges) && v in nodes
    requires ClosedUnderStarving(nodes, edges, skipped, skipped + unreachable)
    requires forall u :: u in unreachable ==> Starved(edges, skipped + unreachable, u)
    ensures v !in skipped + unreachable <==> exists p :: LivePath(edges, skipped, p, v)
  {
    if v !in skipped + unreachable {
      DiesWithoutPath(nodes, edges, skipped, unreachable, v);
    }
    if p :| LivePath(edges, skipped, p, v) {
      AliveAlong(edges, skipped, unreachable, p, v);
    }
  }

  /** The nodes that are not dead and that no live path reaches are closed under starving. */
  lemma StrandedIsClosed(nodes: seq<Id>, edges: seq<Edge>, skipped: set<Id>, stranded: set<Id>)
    requires forall u :: u in stranded <==> u in nodes && u !in skipped && !exists p :: LivePath(edges, skipped, p, u)
    requires Closed(nodes, edges)
    ensures ClosedUnderStarving(nodes, edges, skipped, skipped + stranded)
  {
    forall v | v in nodes && Starved(edges, skipped + stranded, v) && v !in skipped
      ensures v in stranded
    {
      if p :| LivePath(edges, skipped, p, v) {
        LastHop(edges, skipped, p, v);
      }
    }
  }

  lemma LastHop(edges: seq<Edge>, skipped: set<Id>, p: seq<Id>, v: Id)
    requires LivePath(edges, skipped, p, v) && Sources(edges, v) != {}
    ensures |p| >= 2 && p[|p| - 2] in Sources(edges, v) && p[|p| - 2] !in skipped
    ensures LivePath(edges, skipped, p[..|p| - 1], p[|p| - 2])
  {
    assert Edge(p[|p| - 2], p[|p| - 1]) in edges;
  }

  /** On an acyclic graph a node starves for certain exactly if it is skipped or no live path reaches it. */
  lemma StarvesIffNoPath(nodes: seq<Id>, edges: seq<Edge>, skipped: set<Id>, v: Id)
    requires Closed(nodes, edges) && Acyclic(edges) && v in nodes
    ensures (forall dead :: ClosedUnderStarving(nodes, edges, skipped, dead) ==> v in dead)
      <==> v in skipped || !exists p :: LivePath(edges, skipped, p, v)
  {
    var stranded := set u | u in nodes && u !in skipped && !exists p :: LivePath(edges, skipped, p, u);
    StrandedIsClosed(nodes, edges, skipped, stranded);
    if v in skipped || !exists p :: LivePath(edges, skipped, p, v) {
      forall dead | ClosedUnderStarving(nodes, edges, skipped, dead) ensures v in dead {
        assert skipped + (dead - skipped) == dead;
        if v !in dead { DiesWithoutPath(nodes, edges, skipped, dead - skipped, v); }
      }
    }
  }

  // ---- Ready nodes

  datatype NodeStatus =
    | Pending | Running | AwaitingApproval | Completed | Skipped | Unreachable | Failed | Cancelled | Other(name: string)

  /** A predecessor in this state no longer holds its successors back. */
  predicate Passes(results: map<Id, NodeStatus>, u: Id) {
    u in results && (results[u].Completed? || results[u].Skipped? || results[u].Unreachable?)
  }

  function DeadIn(results: map<Id, NodeStatus>): set<Id> {
    set v | v in results && (results[v].Skipped? || results[v].Unreachable?)
  }

  predicate IsReady(edges: seq<Edge>, results: map<Id, NodeStatus>, v: Id) {
    v in results && results[v].Pending? && forall u :: u in Sources(edges, v) ==> Passes(results, u)
  }

  /** While nothing has run, only nodes without incoming edges are ready. */
  lemma AllPending(nodes: seq<Id>, edges: seq<Edge>)
    requires Closed(nodes, edges)
    ensures forall v :: IsReady(edges, map u | u in nodes :: Pending, v) ==> v in nodes && Sources(edges, v) == {}
  {
    var results := map u | u in nodes :: Pending;
    forall v | IsReady(edges, results, v)
      ensures Sources(edges, v) == {}
    {
      if u :| u in Sources(edges, v) {
        assert Edge(u, v) in edges;
        assert Passes(results, u);
      }
    }
  }

  /** find_root_nodes: the nodes no edge points to, in definition order. */
  method FindRootNodes(nodes: seq<Id>, edges: seq<Edge>) returns (roots: seq<Id>)
    ensures forall v :: v in roots <==> v in nodes && Sources(edges, v) == {}
    ensures forall v :: v in roots ==> IsReady(edges, map u | u in nodes :: Pending, v)
    ensures Closed(nodes, edges) ==> forall v :: IsReady(edges, map u | u in nodes :: Pending, v) ==> v in roots
  {
    roots := [];
    for k := 0 to |nodes|
      invariant forall v :: v in roots <==> v in nodes[..k] && Sources(edges, v) == {}
    {
      assert nodes[..k + 1] == nodes[..k] + [nodes[k]];
      if Sources(edges, nodes[k]) == {} {
        roots := roots + [nodes[k]];
      }
    }
    assert nodes[..|nodes|] == nodes;
    if Closed(nodes, edges) {
      AllPending(nodes, edges);
    }
  }

  /** find_ready_nodes: the pending nodes all of whose predecessors let them pass, as often as they are listed. */
  method FindReadyNodes(nodes: seq<Id>, edges: seq<Edge>, results: map<Id, NodeStatus>) returns (ready: seq<Id>)
    ensures forall v :: v in ready <==> v in nodes && IsReady(edges, results, v)
    ensures forall v :: multiset(ready)[v] == if IsReady(edges, results, v) then multiset(nodes)[v] else 0
  {
    var predecessors: map<Id, set<Id>> := map[];
    for k := 0 to |edges|
      invariant forall v :: Sources(edges[..k], v) == if v in predecessors then predecessors[v] else {}
    {
      var e := edges[k];
      assert edges[..k + 1] == edges[..k] + [e];
      assert forall v :: Sources(edges[..k + 1], v)
                      == Sources(edges[..k], v) + if v == e.target then {e.source} else {};
      var known := if e.target in predecessors then predecessors[e.target] else {};
      predecessors := predecessors[e.target := known + {e.source}];
    }
    assert edges[..|edges|] == edges;
    ready := [];
    for k := 0 to |nodes|
      invariant forall v :: v in ready <==> v in nodes[..k] && IsReady(edges, results, v)
      invariant forall v :: multiset(ready)[v] == if IsReady(edges, results, v) then multiset(nodes[..k])[v] else 0
    {
      var v := nodes[k];
      assert nodes[..k + 1] == nodes[..k] + [v];
      if v in results && results[v] == Pending {
        var sources := if v in predecessors then predecessors[v] else {};
        assert sources == Sources(edges, v);
        if forall u :: u in sources ==> Passes(results, u) {
          ready := ready + [v];
        }
      }
    }
    assert nodes[..|nodes|] == nodes;
  }
}
