/** On which node lists the topological sort is right about every graph. */
module RepeatedIds {
  import opened Dag
  import opened Graph
  import opened Sequences

  /** A cycle is reported exactly if there is one; otherwise every node is listed, and its sources first. */
  ghost predicate SortsRight(nodes: seq<Id>, edges: seq<Edge>)
    requires Closed(nodes, edges)
  {
    && (|KahnOrder(nodes, edges)| == |nodes| <==> Acyclic(edges))
    && (|KahnOrder(nodes, edges)| == |nodes| ==>
          SourcesFirst(edges, KahnOrder(nodes, edges)) && Elements(KahnOrder(nodes, edges)) == Elements(nodes))
  }

  ghost predicate AllEqual(nodes: seq<Id>) {
    forall i, j :: 0 <= i < j < |nodes| ==> nodes[i] == nodes[j]
  }

  // ---- Distinct ids

  /** The loop run to its end. */
  lemma {:induction false} RunsDry(nodes: seq<Id>, edges: seq<Edge>, degrees: map<Id, int>, queue: seq<Id>, result: seq<Id>)
    returns (left: map<Id, int>, order: seq<Id>)
    requires Closed(nodes, edges) && Underway(nodes, edges, degrees, queue, result)
    ensures Underway(nodes, edges, left, [], order)
    decreases |nodes| - |result|
  {
    hide Underway, Settle, Closed;
    if queue == [] {
      left, order := degrees, result;
    } else {
      UnderwayGoesOn(nodes, edges, degrees, queue, result);
      var (next, grown) := Settle(degrees, Targets(edges, queue[0]), queue[1..]);
      left, order := RunsDry(nodes, edges, next, grown, result + [queue[0]]);
    }
  }

  lemma DistinctSortsRight(nodes: seq<Id>, edges: seq<Edge>)
    requires Distinct(nodes) && Closed(nodes, edges)
    ensures SortsRight(nodes, edges)
  {
    hide Underway, KahnOrder, Acyclic, SourcesFirst, Closed;
    var degrees := InDegrees(nodes, edges);
    UnderwayStarts(nodes, edges, degrees);
    var left, order := RunsDry(nodes, edges, degrees, Free(nodes, degrees), []);
    UnderwayEnds(nodes, edges, left, order);
  }

  // ---- One id, any number of times

  lemma {:induction false} FreeAll(nodes: seq<Id>, degrees: map<Id, int>)
    requires forall v :: v in nodes ==> v in degrees && degrees[v] == 0
    ensures Free(nodes, degrees) == nodes
  {
    if nodes != [] {
      FreeAll(nodes[..|nodes| - 1], degrees);
      assert nodes == nodes[..|nodes| - 1] + [nodes[|nodes| - 1]];
    }
  }

  lemma {:induction false} FreeNone(nodes: seq<Id>, degrees: map<Id, int>)
    requires forall v :: v in nodes ==> v in degrees && degrees[v] != 0
    ensures Free(nodes, degrees) == []
  {
    if nodes != [] {
      FreeNone(nodes[..|nodes| - 1], degrees);
    }
  }

  lemma {:induction false} KahnCopies(degrees: map<Id, int>, queue: seq<Id>, result: seq<Id>, fuel: nat)
    requires Covers([], degrees) && fuel >= |queue|
    ensures Kahn([], degrees, queue, result, fuel) == result + queue
    decreases |queue|
  {
    if queue == [] {
      KahnDone([], degrees, result, fuel);
    } else {
      KahnPassesSink([], degrees, queue, result, fuel);
      KahnCopies(degrees, queue[1..], result + [queue[0]], fuel - 1);
      assert result + [queue[0]] + queue[1..] == result + queue;
    }
  }

  lemma NoEdgesSorted(nodes: seq<Id>)
    ensures Acyclic([]) && SourcesFirst([], nodes)
  {
    OrderedIsAcyclic([], [], []);
  }

  lemma NoEdges(nodes: seq<Id>)
    ensures KahnOrder(nodes, []) == nodes && Acyclic([]) && SourcesFirst([], nodes)
  {
    NoEdgesSorted(nodes);
    hide Acyclic, SourcesFirst, Kahn, Targets;
    var degrees := InDegrees(nodes, []);
    ClosedCovers(nodes, [], degrees);
    FreeAll(nodes, degrees);
    KahnCopies(degrees, nodes, [], |nodes|);
  }

  /** Loops at every node: nothing is free. */
  lemma LoopsOnly(nodes: seq<Id>, edges: seq<Edge>)
    requires nodes != [] && edges != [] && Closed(nodes, edges) && AllEqual(nodes)
    ensures KahnOrder(nodes, edges) == [] && !Acyclic(edges)
  {
    var a, e := nodes[0], edges[0];
    assert forall v :: v in nodes ==> v == a;
    assert e in edges && e == Edge(a, a);
    OneEdge(edges, a, a);
    var degrees := InDegrees(nodes, edges);
    NoneWaiting(edges, {}, a);
    assert a in Sources(edges, a);
    FreeNone(nodes, degrees);
    ClosedCovers(nodes, edges, degrees);
    KahnDone(edges, degrees, [], |nodes|);
  }

  lemma AllEqualSortsRight(nodes: seq<Id>, edges: seq<Edge>)
    requires AllEqual(nodes) && Closed(nodes, edges)
    ensures SortsRight(nodes, edges)
  {
    hide KahnOrder, Acyclic, SourcesFirst;
    if edges == [] {
      NoEdges(nodes);
    } else {
      assert edges[0] in edges;
      LoopsOnly(nodes, edges);
    }
  }

  // ---- A repeated id beside another one

  /** Every node has an edge to `y` or none, and `x` has one. */
  ghost predicate AimAt(edges: seq<Edge>, x: Id, y: Id) {
    Targets(edges, x) == [y] && forall u :: Targets(edges, u) == [] || Targets(edges, u) == [y]
  }

  /** Once `y` is not waited for any more, the queue is passed on as it is. */
  lemma {:induction false} PassesOn(edges: seq<Edge>, degrees: map<Id, int>, queue: seq<Id>, result: seq<Id>, fuel: nat, x: Id, y: Id)
    requires Covers(edges, degrees) && AimAt(edges, x, y) && y in degrees && degrees[y] <= 0 && fuel >= |queue|
    ensures |Kahn(edges, degrees, queue, result, fuel)| == |result| + |queue|
    decreases |queue|
  {
    hide Covers, AimAt, Kahn, Targets;
    if queue == [] {
      KahnDone(edges, degrees, result, fuel);
    } else {
      AimsAtOne(edges, x, y, queue[0]);
      if Targets(edges, queue[0]) == [] {
        KahnPassesSink(edges, degrees, queue, result, fuel);
        PassesOn(edges, degrees, queue[1..], result + [queue[0]], fuel - 1, x, y);
      } else {
        KahnPasses(edges, degrees, queue, result, fuel, y);
        PassesOn(edges, degrees[y := degrees[y] - 1], queue[1..], result + [queue[0]], fuel - 1, x, y);
      }
    }
  }

  lemma AimsAtOne(edges: seq<Edge>, x: Id, y: Id, u: Id)
    requires AimAt(edges, x, y)
    ensures Targets(edges, u) == [] || Targets(edges, u) == [y]
    ensures u == x ==> Targets(edges, u) == [y]
  {
  }

  /** The copies of `x` in the queue count `y` down to 0, which queues it once. */
  lemma {:induction false} FreesOnce(edges: seq<Edge>, degrees: map<Id, int>, queue: seq<Id>, result: seq<Id>, fuel: nat, x: Id, y: Id)
    requires Covers(edges, degrees) && AimAt(edges, x, y) && y in degrees && fuel > |queue|
    requires y !in queue && 0 < degrees[y] <= multiset(queue)[x]
    ensures |Kahn(edges, degrees, queue, result, fuel)| == |result| + |queue| + 1
    decreases |queue|
  {
    hide Covers, AimAt, Kahn, Targets;
    assert queue != [];
    assert queue == [queue[0]] + queue[1..];
    AimsAtOne(edges, x, y, queue[0]);
    if Targets(edges, queue[0]) == [] {
      KahnPassesSink(edges, degrees, queue, result, fuel);
      FreesOnce(edges, degrees, queue[1..], result + [queue[0]], fuel - 1, x, y);
    } else {
      KahnPasses(edges, degrees, queue, result, fuel, y);
      var left := degrees[y := degrees[y] - 1];
      if left[y] == 0 {
        PassesOn(edges, left, queue[1..] + [y], result + [queue[0]], fuel - 1, x, y);
      } else {
        FreesOnce(edges, left, queue[1..], result + [queue[0]], fuel - 1, x, y);
      }
    }
  }

  /** All occurrences of all other ids are free. */
  lemma {:induction false} FreeOthers(nodes: seq<Id>, degrees: map<Id, int>, y: Id)
    requires forall v :: v in nodes ==> v in degrees && (degrees[v] == 0 <==> v != y)
    ensures |Free(nodes, degrees)| + multiset(nodes)[y] == |nodes| && y !in Free(nodes, degrees)
    ensures forall x :: x != y ==> multiset(Free(nodes, degrees))[x] == multiset(nodes)[x]
  {
    if nodes != [] {
      FreeOthers(nodes[..|nodes| - 1], degrees, y);
      assert nodes == nodes[..|nodes| - 1] + [nodes[|nodes| - 1]];
    }
  }

  /** If `x` alone and perhaps `y` have an edge to `y`, all nodes but `y` are listed as often as given, and `y` once. */
  lemma ListedOnce(nodes: seq<Id>, edges: seq<Edge>, x: Id, y: Id)
    requires Closed(nodes, edges) && AimAt(edges, x, y) && x != y && y in nodes
    requires 0 < Waiting(edges, {}, y) <= multiset(nodes)[x] && forall v :: v != y ==> Waiting(edges, {}, v) == 0
    ensures |KahnOrder(nodes, edges)| + multiset(nodes)[y] == |nodes| + 1
  {
    var degrees := InDegrees(nodes, edges);
    ClosedCovers(nodes, edges, degrees);
    FreeOthers(nodes, degrees, y);
    assert multiset(nodes)[y] >= 1;
    FreesOnce(edges, degrees, Free(nodes, degrees), [], |nodes|, x, y);
  }

  lemma EdgeAt(x: Id, y: Id, u: Id)
    ensures Targets([Edge(x, y)], u) == if u == x then [y] else []
    ensures Waiting([Edge(x, y)], {}, u) == if u == y then 1 else 0
  {
    OneEdgeMore([], Edge(x, y), u);
    assert [] + [Edge(x, y)] == [Edge(x, y)] && [] + [y] == [y];
  }

  lemma LoopAt(x: Id, y: Id, u: Id)
    requires x != y
    ensures Targets([Edge(x, y), Edge(y, y)], u) == if u == x || u == y then [y] else []
    ensures Waiting([Edge(x, y), Edge(y, y)], {}, u) == if u == y then 2 else 0
  {
    EdgeAt(x, y, u);
    OneEdgeMore([Edge(x, y)], Edge(y, y), u);
    assert [Edge(x, y)] + [Edge(y, y)] == [Edge(x, y), Edge(y, y)] && [] + [y] == [y];
  }

  /** A cycle goes unreported: an id given twice counts its target down past the edge of a loop. */
  lemma MissedCycle(nodes: seq<Id>, x: Id, y: Id)
    requires x != y && multiset(nodes)[x] >= 2 && multiset(nodes)[y] == 1
    ensures var edges := [Edge(x, y), Edge(y, y)];
      Closed(nodes, edges) && !Acyclic(edges) && |KahnOrder(nodes, edges)| == |nodes|
  {
    var edges := [Edge(x, y), Edge(y, y)];
    assert x in multiset(nodes) && y in multiset(nodes);
    assert edges[1] == Edge(y, y);
    OneEdge(edges, y, y);
    forall u {
      LoopAt(x, y, u);
    }
    hide Waiting, Targets, KahnOrder;
    ListedOnce(nodes, edges, x, y);
  }

  /** A cycle is reported where there is none: an id given twice is queued only once when it comes free. */
  lemma FalseCycle(nodes: seq<Id>, x: Id, y: Id)
    requires x != y && multiset(nodes)[x] >= 1 && multiset(nodes)[y] >= 2
    ensures var edges := [Edge(x, y)];
      Closed(nodes, edges) && Acyclic(edges) && |KahnOrder(nodes, edges)| < |nodes|
  {
    var edges := [Edge(x, y)];
    assert x in multiset(nodes) && y in multiset(nodes);
    assert edges[0] == Edge(x, y);
    TwoInOrder(x, y);
    forall u {
      EdgeAt(x, y, u);
    }
    hide Waiting, Targets, KahnOrder;
    ListedOnce(nodes, edges, x, y);
  }

  lemma TwiceIn(nodes: seq<Id>, i: nat, j: nat)
    requires i < j < |nodes| && nodes[i] == nodes[j]
    ensures multiset(nodes)[nodes[i]] >= 2
  {
    assert nodes == nodes[..j] + nodes[j..];
    assert nodes[..j][i] == nodes[i] && nodes[j..][0] == nodes[i];
    assert nodes[i] in multiset(nodes[..j]) && nodes[i] in multiset(nodes[j..]);
  }

  lemma RepeatedAndAnother(nodes: seq<Id>) returns (x: Id, y: Id)
    requires !Distinct(nodes) && !AllEqual(nodes)
    ensures x != y && multiset(nodes)[x] >= 2 && multiset(nodes)[y] >= 1
  {
    var i, j :| 0 <= i < j < |nodes| && nodes[i] == nodes[j];
    TwiceIn(nodes, i, j);
    x := nodes[i];
    var k, l :| 0 <= k < l < |nodes| && nodes[k] != nodes[l];
    y := if nodes[k] != x then nodes[k] else nodes[l];
    assert y in multiset(nodes);
  }

  lemma SomeGraphSortedWrongly(nodes: seq<Id>) returns (edges: seq<Edge>)
    requires !Distinct(nodes) && !AllEqual(nodes)
    ensures Closed(nodes, edges) && !SortsRight(nodes, edges)
  {
    hide KahnOrder, Acyclic, Closed, SourcesFirst;
    var x, y := RepeatedAndAnother(nodes);
    if multiset(nodes)[y] == 1 {
      MissedCycle(nodes, x, y);
      edges := [Edge(x, y), Edge(y, y)];
    } else {
      FalseCycle(nodes, x, y);
      edges := [Edge(x, y)];
    }
  }

  /** The sort is right about every graph on these nodes exactly if the ids are distinct or all equal. */
  lemma RightIffDistinctOrAllEqual(nodes: seq<Id>)
    ensures (forall edges :: Closed(nodes, edges) ==> SortsRight(nodes, edges)) <==> Distinct(nodes) || AllEqual(nodes)
  {
    hide SortsRight, Distinct, AllEqual;
    if Distinct(nodes) || AllEqual(nodes) {
      forall edges | Closed(nodes, edges)
        ensures SortsRight(nodes, edges)
      {
        if Distinct(nodes) { DistinctSortsRight(nodes, edges); } else { AllEqualSortsRight(nodes, edges); }
      }
    } else {
      var edges := SomeGraphSortedWrongly(nodes);
    }
  }
}
