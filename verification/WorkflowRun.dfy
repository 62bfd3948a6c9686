/**
 A workflow run as a step system: dispatchers that act on possibly stale readings of the node
 results, workers that complete, edge evaluation that skips, parking and approval, the watchdog's
 stall flips, and the handlers that write a node's status without asking what it is by now.
 */
module WorkflowRun {
  import opened Graph
  import opened Dag

  type Results = map<Id, NodeStatus>

  /** `generation` is the dispatchGeneration counter of each node; `views` lists every past state of the results. */
  datatype State = State(results: Results, generation: map<Id, nat>, views: seq<Results>)

  /** Handlers that read the row, decide on what they read, and write a node's status unconditionally. */
  datatype Handler = RetryFailure | FinalFailure | PauseRequest | ScopedApproval | Cancellation

  datatype Event =
    | Dispatch(view: Results, node: Id)                   // guarded pending -> running
    | Complete(node: Id)                                  // first write wins, by a dispatched worker
    | Skip(view: Results, source: Id, node: Id)           // a false edge out of a completed node
    | MarkUnreachable(view: Results, node: Id)            // propagated skips
    | FlipStalled(node: Id)                               // guarded running -> pending
    | Park(node: Id)                                      // guarded pending -> awaiting approval, instead of a dispatch
    | ParkRunning(node: Id)                               // guarded running -> awaiting approval, for a tool
    | Approve(node: Id)                                   // guarded awaiting approval -> pending
    | Overwrite(handler: Handler, view: Results, node: Id)     // an unguarded write

  function Start(nodes: seq<Id>): State {
    var results: Results := map v | v in nodes :: Pending;
    State(results, map v | v in nodes :: 0, [results])
  }

  function Set(s: State, v: Id, status: NodeStatus): State {
    var results := s.results[v := status];
    s.(results := results, views := s.views + [results])
  }

  /**
   A reading of the results that may be stale, and may mix entries of different age, because a
   handler goes on using its own copy after it has updated some entries.
   */
  ghost predicate Observed(s: State, view: Results) {
    forall v :: v in view ==> exists i :: 0 <= i < |s.views| && v in s.views[i] && s.views[i][v] == view[v]
  }

  /** `v` is in what propagate_skips returns for the nodes that are dead in this reading. */
  ghost predicate Propagated(nodes: seq<Id>, edges: seq<Edge>, results: Results, v: Id) {
    v !in DeadIn(results) &&
    forall dead :: ClosedUnderStarving(nodes, edges, DeadIn(results), dead) ==> v in dead
  }

  /** On an acyclic graph the propagated nodes are those that no path of unskipped nodes from a root reaches any more. */
  lemma PropagatedIffNoPath(nodes: seq<Id>, edges: seq<Edge>, results: Results, v: Id)
    requires Closed(nodes, edges) && Acyclic(edges) && v in nodes
    ensures var dead := set u | u in results && results[u] in {Skipped, Unreachable};
      Propagated(nodes, edges, results, v) <==> v !in dead && !exists p :: LivePath(edges, dead, p, v)
  {
    var skipped := DeadIn(results);
    assert skipped == set u | u in results && results[u] in {Skipped, Unreachable};
    StarvesIffNoPath(nodes, edges, skipped, v);
  }

  /** The test a handler makes on the status it has read. */
  predicate Finds(handler: Handler, status: NodeStatus) {
    match handler
    case RetryFailure | FinalFailure => !status.Failed?
    case PauseRequest => status.Pending?
    case ScopedApproval => status.AwaitingApproval?
    case Cancellation => status.Pending? || status.Running?
  }

  function Writes(handler: Handler): NodeStatus {
    match handler
    case RetryFailure | ScopedApproval => Pending
    case FinalFailure => Failed
    case PauseRequest => AwaitingApproval
    case Cancellation => Cancelled
  }

  /** The handler has read a status on which it decides to write. */
  ghost predicate Decided(s: State, handler: Handler, view: Results, v: Id) {
    Observed(s, view) && v in view && Finds(handler, view[v])
  }

  ghost function Step(nodes: seq<Id>, edges: seq<Edge>, s: State, e: Event): State {
    if e.node !in s.results || e.node !in s.generation then s
    else match e
      case Dispatch(view, v) =>
        if Observed(s, view) && IsReady(edges, view, v) && s.results[v].Pending?
        then Set(s, v, Running).(generation := s.generation[v := s.generation[v] + 1])
        else s
      case Complete(v) =>
        if s.generation[v] > 0 && !s.results[v].Completed? then Set(s, v, Completed) else s
      case Skip(view, u, v) =>
        if Observed(s, view) && u in view && view[u].Completed? && Edge(u, v) in edges
        then Set(s, v, Skipped)
        else s
      case MarkUnreachable(view, v) =>
        if Observed(s, view) && Propagated(nodes, edges, view, v) then Set(s, v, Unreachable) else s
      case FlipStalled(v) =>
        if s.results[v].Running? then Set(s, v, Pending) else s
      case Park(v) =>
        if s.results[v].Pending? then Set(s, v, AwaitingApproval) else s
      case ParkRunning(v) =>
        if s.results[v].Running? then Set(s, v, AwaitingApproval) else s
      case Approve(v) =>
        if s.results[v].AwaitingApproval? then Set(s, v, Pending) else s
      case Overwrite(handler, view, v) =>
        if Decided(s, handler, view, v) then Set(s, v, Writes(handler)) else s
  }

  ghost function After(nodes: seq<Id>, edges: seq<Edge>, run: seq<Event>): State {
    if run == [] then Start(nodes)
    else Step(nodes, edges, After(nodes, edges, run[..|run| - 1]), run[|run| - 1])
  }

  /**
   What the unguarded handlers write, on a status they once read: a failure report anything but a
   recorded failure, a pause request a pending node, an execution-wide approval a parked one, and a
   cancellation a pending or running one. None asks what the node is by now.
   */
  lemma HandlersInWords(nodes: seq<Id>, edges: seq<Edge>, s: State, handler: Handler, view: Results, v: Id)
    requires Observed(s, view) && v in view && v in s.results && v in s.generation
    ensures var after := Step(nodes, edges, s, Overwrite(handler, view, v)).results;
      && (handler == RetryFailure ==> after == if view[v] == Failed then s.results else s.results[v := Pending])
      && (handler == FinalFailure ==> after == if view[v] == Failed then s.results else s.results[v := Failed])
      && (handler == PauseRequest ==> after == if view[v] == Pending then s.results[v := AwaitingApproval] else s.results)
      && (handler == ScopedApproval ==> after == if view[v] == AwaitingApproval then s.results[v := Pending] else s.results)
      && (handler == Cancellation ==>
            after == if view[v] in {Pending, Running} then s.results[v := Cancelled] else s.results)
  {
  }

  /** A handler is about to write over a node that is completed, skipped or unreachable by now. */
  ghost predicate WritesOver(s: State, e: Event) {
    e.Overwrite? && Passes(s.results, e.node) && Decided(s, e.handler, e.view, e.node)
  }

  ghost predicate Reopens(nodes: seq<Id>, edges: seq<Edge>, run: seq<Event>, k: nat) {
    k < |run| && WritesOver(After(nodes, edges, run[..k]), run[k])
  }

  lemma PrefixStep(nodes: seq<Id>, edges: seq<Edge>, run: seq<Event>, k: nat)
    requires k < |run|
    ensures After(nodes, edges, run[..k + 1]) == Step(nodes, edges, After(nodes, edges, run[..k]), run[k])
  {
    assert run[..k + 1][..k] == run[..k];
  }

  // ---- Nodes that let their successors pass keep doing so

  lemma PassesOn(nodes: seq<Id>, edges: seq<Edge>, s: State, e: Event, v: Id)
    requires Passes(s.results, v) && (e.node == v ==> !WritesOver(s, e))
    ensures Passes(Step(nodes, edges, s, e).results, v)
  {
  }

  /** The end of `run[..n]`: whatever any reading so far let pass still passes. */
  ghost predicate Settling(s: State) {
    && s.views != [] && s.views[|s.views| - 1] == s.results
    && forall i, v :: 0 <= i < |s.views| && Passes(s.views[i], v) ==> Passes(s.results, v)
  }

  lemma {:induction false} AlwaysSettling(nodes: seq<Id>, edges: seq<Edge>, run: seq<Event>)
    requires forall k :: !Reopens(nodes, edges, run, k)
    ensures Settling(After(nodes, edges, run))
  {
    if run != [] {
      var front, e := run[..|run| - 1], run[|run| - 1];
      EarlierRun(nodes, edges, run, |run| - 1);
      AlwaysSettling(nodes, edges, front);
      var s := After(nodes, edges, front);
      var s' := Step(nodes, edges, s, e);
      assert !Reopens(nodes, edges, run, |run| - 1);
      forall i, v | 0 <= i < |s'.views| && Passes(s'.views[i], v)
        ensures Passes(s'.results, v)
      {
        if i < |s.views| {
          assert s'.views[i] == s.views[i];
          PassesOn(nodes, edges, s, e, v);
        }
      }
    }
  }

  lemma EarlierRun(nodes: seq<Id>, edges: seq<Edge>, run: seq<Event>, n: nat)
    requires n <= |run| && forall k :: !Reopens(nodes, edges, run, k)
    ensures forall k :: !Reopens(nodes, edges, run[..n], k)
  {
    forall k: nat | k < n
      ensures !Reopens(nodes, edges, run[..n], k)
    {
      assert run[..n][..k] == run[..k];
      assert !Reopens(nodes, edges, run, k);
    }
  }

  // ---- What every run keeps

  /** Everything that was ever dispatched has only predecessors that let it pass. */
  ghost predicate Justified(edges: seq<Edge>, s: State) {
    && s.results.Keys == s.generation.Keys
    && (forall v :: v in s.results && (s.results[v].Running? || s.results[v].Completed?) ==> s.generation[v] > 0)
    && (forall v, u :: v in s.generation && s.generation[v] > 0 && u in Sources(edges, v) ==> Passes(s.results, u))
  }

  lemma ReadyInView(edges: seq<Edge>, s: State, view: Results, v: Id)
    requires Settling(s) && Observed(s, view) && IsReady(edges, view, v)
    ensures forall u :: u in Sources(edges, v) ==> Passes(s.results, u)
  {
    forall u | u in Sources(edges, v)
      ensures Passes(s.results, u)
    {
      assert Passes(view, u);
      var i :| 0 <= i < |s.views| && u in s.views[i] && s.views[i][u] == view[u];
      assert Passes(s.views[i], u);
    }
  }

  lemma JustifiedKept(nodes: seq<Id>, edges: seq<Edge>, s: State, e: Event)
    requires Settling(s) && Justified(edges, s)
    requires !WritesOver(s, e)
    ensures Justified(edges, Step(nodes, edges, s, e))
  {
    var s' := Step(nodes, edges, s, e);
    forall u | Passes(s.results, u) ensures Passes(s'.results, u) {
      PassesOn(nodes, edges, s, e, u);
    }
    if e.Dispatch? && s' != s {
      ReadyInView(edges, s, e.view, e.node);
    }
  }

  /**
   As long as no handler writes over a node that already let its successors pass, every
   running or completed node has only predecessors that are completed, skipped or unreachable.
   */
  lemma {:induction false} RunningIsJustified(nodes: seq<Id>, edges: seq<Edge>, run: seq<Event>)
    requires forall k :: !Reopens(nodes, edges, run, k)
    ensures Justified(edges, After(nodes, edges, run))
  {
    if run != [] {
      var front := run[..|run| - 1];
      EarlierRun(nodes, edges, run, |run| - 1);
      AlwaysSettling(nodes, edges, front);
      RunningIsJustified(nodes, edges, front);
      assert !Reopens(nodes, edges, run, |run| - 1);
      JustifiedKept(nodes, edges, After(nodes, edges, front), run[|run| - 1]);
    }
  }

  /** A ready node stays ready for as long as it is pending. */
  lemma ReadyStays(nodes: seq<Id>, edges: seq<Edge>, run: seq<Event>, k: nat, v: Id)
    requires k < |run| && !Reopens(nodes, edges, run, k)
    requires IsReady(edges, After(nodes, edges, run[..k]).results, v)
    requires v in After(nodes, edges, run[..k + 1]).results
             && After(nodes, edges, run[..k + 1]).results[v].Pending?
    ensures IsReady(edges, After(nodes, edges, run[..k + 1]).results, v)
  {
    PrefixStep(nodes, edges, run, k);
    var s := After(nodes, edges, run[..k]);
    forall u | u in Sources(edges, v) ensures Passes(Step(nodes, edges, s, run[k]).results, u) {
      assert Passes(s.results, u);
      PassesOn(nodes, edges, s, run[k], u);
    }
  }

  lemma PassedStep(nodes: seq<Id>, edges: seq<Edge>, run: seq<Event>, k: nat, v: Id)
    requires k < |run| && !Reopens(nodes, edges, run, k) && Passes(After(nodes, edges, run[..k]).results, v)
    ensures Passes(After(nodes, edges, run[..k + 1]).results, v)
  {
    hide After, Step, Passes;
    PrefixStep(nodes, edges, run, k);
    PassesOn(nodes, edges, After(nodes, edges, run[..k]), run[k], v);
  }

  lemma {:induction false} PassedForever(nodes: seq<Id>, edges: seq<Edge>, run: seq<Event>, j: nat, k: nat, v: Id)
    requires j <= k <= |run| && forall m :: !Reopens(nodes, edges, run, m)
    requires Passes(After(nodes, edges, run[..j]).results, v)
    ensures Passes(After(nodes, edges, run[..k]).results, v)
    decreases k
  {
    hide After, Reopens, Passes;
    if j < k {
      PassedForever(nodes, edges, run, j, k - 1, v);
      assert !Reopens(nodes, edges, run, k - 1);
      PassedStep(nodes, edges, run, k - 1, v);
    }
  }

  /** Event `k` dispatches `v`: it wins the guarded write. */
  ghost predicate Dispatches(nodes: seq<Id>, edges: seq<Edge>, run: seq<Event>, k: nat, v: Id) {
    k < |run| && run[k].Dispatch? && run[k].node == v &&
    Step(nodes, edges, After(nodes, edges, run[..k]), run[k]) != After(nodes, edges, run[..k])
  }

  /** A node that was once completed, skipped or unreachable is never dispatched again. */
  lemma NeverDispatchedAgain(nodes: seq<Id>, edges: seq<Edge>, run: seq<Event>, j: nat, k: nat, v: Id)
    requires j <= k < |run| && forall m :: !Reopens(nodes, edges, run, m)
    requires Passes(After(nodes, edges, run[..j]).results, v)
    ensures !Dispatches(nodes, edges, run, k, v)
  {
    PassedForever(nodes, edges, run, j, k, v);
  }

  // ---- Where the guarantee ends

  ghost predicate NeverReopened(nodes: seq<Id>, edges: seq<Edge>, run: seq<Event>) {
    forall j: nat, k: nat, v | j <= k <= |run| && Passes(After(nodes, edges, run[..j]).results, v)
      :: Passes(After(nodes, edges, run[..k]).results, v)
  }

  lemma {:induction false} KeysAgree(nodes: seq<Id>, edges: seq<Edge>, run: seq<Event>)
    ensures After(nodes, edges, run).results.Keys == After(nodes, edges, run).generation.Keys
  {
    if run != [] { KeysAgree(nodes, edges, run[..|run| - 1]); }
  }

  /** Nodes let their successors pass for good exactly in the runs in which no handler writes over one that does. */
  lemma ReopenedExactlyByStaleWriters(nodes: seq<Id>, edges: seq<Edge>, run: seq<Event>)
    ensures NeverReopened(nodes, edges, run) <==> forall k :: !Reopens(nodes, edges, run, k)
  {
    if forall k :: !Reopens(nodes, edges, run, k) {
      forall j: nat, k: nat, v | j <= k <= |run| && Passes(After(nodes, edges, run[..j]).results, v)
        ensures Passes(After(nodes, edges, run[..k]).results, v)
      {
        PassedForever(nodes, edges, run, j, k, v);
      }
    } else {
      var k: nat :| Reopens(nodes, edges, run, k);
      PrefixStep(nodes, edges, run, k);
      KeysAgree(nodes, edges, run[..k]);
      assert Passes(After(nodes, edges, run[..k]).results, run[k].node);
      assert !Passes(After(nodes, edges, run[..k + 1]).results, run[k].node);
    }
  }

  // ---- A workflow of one node

  function Only(v: Id, status: NodeStatus): Results {
    map[v := status]
  }

  /** The only node was dispatched once and has completed. */
  function Done(v: Id): State {
    State(Only(v, Completed), map[v := 1], [Only(v, Pending), Only(v, Running), Only(v, Completed)])
  }

  function RunToDone(v: Id): seq<Event> {
    [Dispatch(Only(v, Pending), v), Complete(v)]
  }

  lemma ReachesDone(v: Id, run: seq<Event>)
    requires RunToDone(v) <= run
    ensures After([v], [], run[..2]) == Done(v)
  {
    var s0 := State(Only(v, Pending), map[v := 0], [Only(v, Pending)]);
    var s1 := State(Only(v, Running), map[v := 1], [Only(v, Pending), Only(v, Running)]);
    assert run[0] == RunToDone(v)[0] && run[1] == RunToDone(v)[1];
    assert Start([v]) == s0 by {
      assert Start([v]).results == Only(v, Pending) && Start([v]).generation == map[v := 0];
    }
    assert run[..0] == [] && After([v], [], run[..0]) == s0;
    assert Step([v], [], s0, Dispatch(Only(v, Pending), v)) == s1 by {
      assert s0.views[0] == Only(v, Pending) && Observed(s0, Only(v, Pending));
      assert s0.results[v := Running] == Only(v, Running) && s0.generation[v := 1] == map[v := 1];
    }
    assert Step([v], [], s1, Complete(v)) == Done(v) by {
      assert s1.results[v := Completed] == Only(v, Completed);
    }
    hide After, Step;
    PrefixStep([v], [], run, 0);
    PrefixStep([v], [], run, 1);
  }

  /** Writing over the node, on any reading of it from before. */
  lemma OverwriteTakes(v: Id, s: State, handler: Handler, i: nat, status: NodeStatus)
    requires v in s.results && v in s.generation && i < |s.views| && s.views[i] == Only(v, status) && Finds(handler, status)
    ensures Step([v], [], s, Overwrite(handler, Only(v, status), v)) == Set(s, v, Writes(handler))
  {
    assert v in s.views[i] && s.views[i][v] == status;
    assert Observed(s, Only(v, status));
  }

  lemma DispatchTakes(v: Id, s: State)
    requires s.results == Only(v, Pending) && v in s.generation && |s.views| > 0 && s.views[0] == Only(v, Pending)
    ensures Step([v], [], s, Dispatch(Only(v, Pending), v)).generation == s.generation[v := s.generation[v] + 1]
    ensures Step([v], [], s, Dispatch(Only(v, Pending), v)) != s
  {
    assert v in s.views[0] && s.views[0][v] == Pending;
    assert Observed(s, Only(v, Pending));
    var s' := Step([v], [], s, Dispatch(Only(v, Pending), v));
    assert s'.generation[v] == s.generation[v] + 1;
  }

  /** A late failure report for a completed node, read while it was still running, gets it dispatched again. */
  lemma CompletedNodeDispatchedAgain(v: Id) returns (run: seq<Event>)
    ensures |run| == 4 && run[1] == Complete(v) && run[2].Overwrite? && run[2].handler == RetryFailure
    ensures After([v], [], run[..2]).results == map[v := Completed]
    ensures Dispatches([v], [], run, 3, v)
  {
    run := RunToDone(v) + [Overwrite(RetryFailure, Only(v, Running), v), Dispatch(Only(v, Pending), v)];
    ReachesDone(v, run);
    hide After, Step;
    OverwriteTakes(v, Done(v), RetryFailure, 1, Running);
    PrefixStep([v], [], run, 2);
    DispatchTakes(v, Set(Done(v), v, Pending));
  }

  /** So does a pause that was read before the node was dispatched, once the pause is approved. */
  lemma PausedNodeDispatchedAgain(v: Id) returns (run: seq<Event>)
    ensures |run| == 5 && run[1] == Complete(v)
    ensures run[2].Overwrite? && run[2].handler == PauseRequest && run[3].Overwrite? && run[3].handler == ScopedApproval
    ensures After([v], [], run[..2]).results == map[v := Completed]
    ensures Dispatches([v], [], run, 4, v)
  {
    run := RunToDone(v) + [Overwrite(PauseRequest, Only(v, Pending), v), Overwrite(ScopedApproval, Only(v, AwaitingApproval), v),
                           Dispatch(Only(v, Pending), v)];
    ReachesDone(v, run);
    hide After, Step;
    OverwriteTakes(v, Done(v), PauseRequest, 0, Pending);
    PrefixStep([v], [], run, 2);
    var parked := Set(Done(v), v, AwaitingApproval);
    OverwriteTakes(v, parked, ScopedApproval, 3, AwaitingApproval);
    PrefixStep([v], [], run, 3);
    DispatchTakes(v, Set(parked, v, Pending));
  }

  /** And a cancellation read while the node was running takes its completion back. */
  lemma CancelledAfterCompletion(v: Id) returns (run: seq<Event>)
    ensures |run| == 3 && run[2].Overwrite? && run[2].handler == Cancellation
    ensures After([v], [], run[..2]).results == map[v := Completed]
    ensures After([v], [], run).results == map[v := Cancelled]
  {
    run := RunToDone(v) + [Overwrite(Cancellation, Only(v, Running), v)];
    ReachesDone(v, run);
    hide After, Step;
    OverwriteTakes(v, Done(v), Cancellation, 1, Running);
    PrefixStep([v], [], run, 2);
    assert run[..3] == run;
  }
}
