/** Directed graphs given by an edge list, as workflow definitions give them. */
module Graph {
  import opened Sequences

  type Id = string

  datatype Edge = Edge(source: Id, target: Id)

  function Sources(edges: seq<Edge>, v: Id): set<Id> {
    set e | e in edges && e.target == v :: e.source
  }

  ghost predicate IsPath(edges: seq<Edge>, p: seq<Id>) {
    |p| >= 1 && forall i :: 0 <= i < |p| - 1 ==> Edge(p[i], p[i + 1]) in edges
  }

  ghost predicate PathFromTo(edges: seq<Edge>, p: seq<Id>, a: Id, b: Id) {
    IsPath(edges, p) && p[0] == a && p[|p| - 1] == b
  }

  /** `b` can be reached from `a` along at least one edge. */
  ghost predicate Reaches(edges: seq<Edge>, a: Id, b: Id) {
    exists p :: |p| >= 2 && PathFromTo(edges, p, a, b)
  }

  ghost predicate Acyclic(edges: seq<Edge>) {
    forall v :: !Reaches(edges, v, v)
  }

  /** Every edge joins two of the listed nodes. */
  predicate Closed(nodes: seq<Id>, edges: seq<Edge>) {
    forall e :: e in edges ==> e.source in nodes && e.target in nodes
  }

  lemma Joined(edges: seq<Edge>, a: Id, b: Id, c: Id)
    requires Reaches(edges, a, b) && Edge(b, c) in edges
    ensures Reaches(edges, a, c)
  {
    var p :| |p| >= 2 && PathFromTo(edges, p, a, b);
    assert PathFromTo(edges, p + [c], a, c);
  }

  lemma OneEdge(edges: seq<Edge>, a: Id, b: Id)
    requires Edge(a, b) in edges
    ensures Reaches(edges, a, b)
  {
    assert PathFromTo(edges, [a, b], a, b);
  }

  /** A walk of `n` steps backwards inside a set whose members all have a predecessor in it. */
  lemma {:induction false} WalkBack(edges: seq<Edge>, inside: set<Id>, v: Id, n: nat) returns (p: seq<Id>)
    requires v in inside && forall u :: u in inside ==> Sources(edges, u) * inside != {}
    ensures |p| == n + 1 && IsPath(edges, p) && p[n] == v && Elements(p) <= inside
    decreases n
  {
    if n == 0 {
      p := [v];
    } else {
      var u :| u in Sources(edges, v) * inside;
      var q := WalkBack(edges, inside, u, n - 1);
      p := q + [v];
    }
  }

  /** A non-empty set in which every member has a predecessor contains a cycle. */
  lemma CycleInside(edges: seq<Edge>, inside: set<Id>)
    requires inside != {} && forall u :: u in inside ==> Sources(edges, u) * inside != {}
    ensures !Acyclic(edges)
  {
    var v :| v in inside;
    var p := WalkBack(edges, inside, v, |inside|);
    Pigeonhole(p, inside);
    var i, j :| 0 <= i < j < |p| && p[i] == p[j];
    assert PathFromTo(edges, p[i..j + 1], p[i], p[i]);
    assert Reaches(edges, p[i], p[i]);
  }
}
