/** The timeout watchdog's sweep over one running execution, and the scheduler it shares with the executor. */
module Watchdog {
  import opened Common
  import opened Graph
  import opened Sequences
  import opened Dag

  datatype ExecStatus = ExecPending | ExecRunning | ExecAwaitingApproval | ExecCompleted | ExecFailed | ExecOther(name: string)

  datatype NodeRecord = NodeRecord(status: NodeStatus, startedAt: Option<real>, retryCount: int)

  type Records = map<Id, NodeRecord>

  predicate Terminal(status: NodeStatus) {
    status.Completed? || status.Skipped? || status.Failed? || status.Unreachable?
  }

  /** A node without a record counts as pending. */
  function StatusMap(nodes: seq<Id>, records: Records): map<Id, NodeStatus> {
    map v | v in nodes :: if v in records then records[v].status else Pending
  }

  predicate AllTerminal(nodes: seq<Id>, results: map<Id, NodeStatus>) {
    nodes != [] && forall v :: v in nodes ==> v in results && Terminal(results[v])
  }

  /** A lost dispatch or a lost finalize to re-drive. */
  predicate Reconcilable(status: ExecStatus, nodes: seq<Id>, edges: seq<Edge>, results: map<Id, NodeStatus>) {
    || (exists v :: v in nodes && IsReady(edges, results, v))
    || (AllTerminal(nodes, results) && status == ExecRunning)
  }

  /** _has_reconcilable_frontier. */
  method HasReconcilableFrontier(status: ExecStatus, records: Records, nodes: seq<Id>, edges: seq<Edge>) returns (r: bool)
    ensures r <==> Reconcilable(status, nodes, edges, StatusMap(nodes, records))
  {
    var results := StatusMap(nodes, records);
    var ready := FindReadyNodes(nodes, edges, results);
    if ready != [] {
      assert ready[0] in ready;
      return true;
    }
    r := AllTerminal(nodes, results) && status == ExecRunning;
  }

  /** No node is running, parked or in any other unfinished state but pending. */
  predicate NothingInProgress(nodes: seq<Id>, results: map<Id, NodeStatus>) {
    forall v :: v in nodes ==> v in results && (results[v].Pending? || Terminal(results[v]))
  }

  /** `v` lies downstream of a failed node. */
  ghost predicate BehindFailure(nodes: seq<Id>, edges: seq<Edge>, results: map<Id, NodeStatus>, v: Id) {
    exists f :: f in nodes && f in results && results[f].Failed? && Reaches(edges, f, v)
  }

  lemma BehindIt(nodes: seq<Id>, edges: seq<Edge>, results: map<Id, NodeStatus>, u: Id, v: Id)
    requires Edge(u, v) in edges && u in nodes && u in results
    requires results[u].Failed? || BehindFailure(nodes, edges, results, u)
    ensures BehindFailure(nodes, edges, results, v)
  {
    if results[u].Failed? {
      OneEdge(edges, u, v);
    } else {
      var f :| f in nodes && f in results && results[f].Failed? && Reaches(edges, f, u);
      Joined(edges, f, u, v);
    }
  }

  /**
   No silent deadlock: when a running acyclic workflow has nothing in progress and the sweep sees
   no frontier, some node is still pending and every pending node lies downstream of a failed one.
   */
  lemma NoSilentDeadlock(status: ExecStatus, nodes: seq<Id>, edges: seq<Edge>, results: map<Id, NodeStatus>)
    requires nodes != [] && Closed(nodes, edges) && Acyclic(edges) && status == ExecRunning
    requires NothingInProgress(nodes, results) && !Reconcilable(status, nodes, edges, results)
    ensures exists v :: v in nodes && results[v].Pending?
    ensures forall v :: v in nodes && results[v].Pending? ==> BehindFailure(nodes, edges, results, v)
  {
    var silent := set v | v in nodes && results[v].Pending? && !BehindFailure(nodes, edges, results, v);
    forall v | v in silent
      ensures Sources(edges, v) * silent != {}
    {
      var u :| u in Sources(edges, v) && !Passes(results, u);
      assert Edge(u, v) in edges;
      if results[u].Failed? || BehindFailure(nodes, edges, results, u) {
        BehindIt(nodes, edges, results, u, v);
      }
      assert u in Sources(edges, v) * silent;
    }
    if silent != {} {
      CycleInside(edges, silent);
    }
  }

  /** Both assumptions on the graph are needed: a cycle, or an edge from an unknown node, can wait for ever. */
  lemma SilentDeadlocks(v: Id, unknown: Id)
    requires v != unknown
    ensures !Reconcilable(ExecRunning, [v], [Edge(v, v)], map[v := Pending])
    ensures !Reconcilable(ExecRunning, [v], [Edge(unknown, v)], map[v := Pending])
  {
    assert Edge(v, v) in [Edge(v, v)] && Edge(unknown, v) in [Edge(unknown, v)];
    assert !Passes(map[v := Pending], v) && !Passes(map[v := Pending], unknown);
    assert v in Sources([Edge(v, v)], v) && unknown in Sources([Edge(unknown, v)], v);
  }

  // ---- Ages

  /** _effective_age_seconds: the time since the start, without the time spent parked. */
  function EffectiveAge(started: real, pausedSeconds: real, pausedAt: Option<real>, now: real): (age: real)
    ensures age >= 0.0
  {
    var ongoing := if pausedAt.Some? then now - pausedAt.value else 0.0;
    var effective := now - started - pausedSeconds - ongoing;
    if effective > 0.0 then effective else 0.0
  }

  /** Started longer ago than it may run, time spent parked not counted. */
  predicate Overdue(started: Option<real>, pausedSeconds: real, pausedAt: Option<real>, now: real, timeout: real) {
    started.Some? && EffectiveAge(started.value, pausedSeconds, pausedAt, now) > timeout
  }

  /** The age is the time on the clock since the start, less all parked time, and it is overdue past its timeout. */
  lemma AgeIsTimeNotParked(started: real, pausedSeconds: real, pausedAt: Option<real>, now: real, timeout: real)
    requires timeout >= 0.0
    ensures var parked := pausedSeconds + (if pausedAt.Some? then now - pausedAt.value else 0.0);
      && (started + parked <= now ==> EffectiveAge(started, pausedSeconds, pausedAt, now) == now - started - parked)
      && (started + parked > now ==> EffectiveAge(started, pausedSeconds, pausedAt, now) == 0.0)
      && (Overdue(Some(started), pausedSeconds, pausedAt, now, timeout) <==> now > started + parked + timeout)
  {
  }

  /** While an execution is not parked its age grows with the clock, second for second. */
  lemma AgeGrows(started: real, pausedSeconds: real, now: real, later: real)
    requires started + pausedSeconds <= now <= later
    ensures EffectiveAge(started, pausedSeconds, None, later) == EffectiveAge(started, pausedSeconds, None, now) + (later - now)
  {
  }

  /** While an execution is parked its age stands still, and resuming does not make it jump. */
  lemma ParkedTimeDoesNotCount(started: real, pausedSeconds: real, parked: real, resumed: real, now: real)
    requires started <= parked <= resumed <= now
    ensures EffectiveAge(started, pausedSeconds, Some(parked), resumed)
         == EffectiveAge(started, pausedSeconds, None, parked)
         == EffectiveAge(started, pausedSeconds + (resumed - parked), None, resumed)
    ensures EffectiveAge(started, pausedSeconds + (resumed - parked), None, now)
         <= EffectiveAge(started, pausedSeconds, None, parked) + (now - resumed)
  {
  }

  /** So an execution that was not overdue when it was parked is not while it is, nor when it is resumed. */
  lemma ParkingIsNotOverdue(started: real, pausedSeconds: real, parked: real, now: real, timeout: real)
    requires started <= parked <= now && !Overdue(Some(started), pausedSeconds, None, parked, timeout)
    ensures !Overdue(Some(started), pausedSeconds, Some(parked), now, timeout)
    ensures !Overdue(Some(started), pausedSeconds + (now - parked), None, now, timeout)
  {
    ParkedTimeDoesNotCount(started, pausedSeconds, parked, now, now);
  }

  /** A node that runs longer than the stall threshold, as far as its start time is known. */
  predicate Stalled(records: Records, v: Id, now: real, stall: real) {
    v in records && records[v].status.Running? && records[v].startedAt.Some? && records[v].startedAt.value <= now - stall
  }

  predicate FirstStalled(keys: seq<Id>, records: Records, i: nat, now: real, stall: real)
    requires i < |keys|
  {
    Stalled(records, keys[i], now, stall) && forall j :: 0 <= j < i ==> !Stalled(records, keys[j], now, stall)
  }

  /** _find_stalled_node: the first such node in the order of the record map's keys. */
  method FindStalledNode(keys: seq<Id>, records: Records, now: real, stall: real) returns (r: Option<Id>)
    ensures r.None? <==> forall v :: v in keys ==> !Stalled(records, v, now, stall)
    ensures r.Some? ==> (r.value in records && records[r.value].status == Running && records[r.value].startedAt.Some?
                         && now - records[r.value].startedAt.value >= stall)
    ensures r.None? ==> forall v | v in keys && v in records && records[v].status == Running && records[v].startedAt.Some? ::
      now - records[v].startedAt.value < stall
    ensures r.Some? ==> exists i :: 0 <= i < |keys| && FirstStalled(keys, records, i, now, stall) && keys[i] == r.value
  {
    for i := 0 to |keys|
      invariant forall j :: 0 <= j < i ==> !Stalled(records, keys[j], now, stall)
    {
      if Stalled(records, keys[i], now, stall) {
        return Some(keys[i]);
      }
    }
    r := None;
  }

  /** With nothing in progress nothing stalls. */
  lemma NothingStalls(nodes: seq<Id>, records: Records, now: real, stall: real)
    requires NothingInProgress(nodes, StatusMap(nodes, records)) && records.Keys == Elements(nodes)
    ensures forall v :: v in records ==> !Stalled(records, v, now, stall)
  {
    assert forall v :: v in records.Keys ==> v in nodes;
  }

  // ---- The execution row

  /** How one sweep disposed of one execution. */
  datatype Disposition =
    | Reconciled | ReDispatched | NodeProgressed | NodeFailed | ExecutionFailed | Healthy | NoStartTime | RaceLost

  /**
   What can keep a ready node from being dispatched: a gate that refuses it, or a pause that parks
   it. `retries` holds the retry limit of the nodes whose policy retries what the gate says.
   */
  datatype Gates = Gates(refused: set<Id>, retries: map<Id, int>,
                         pauseEnabled: bool, pauseRequested: bool, requiresApproval: set<Id>)

  predicate Parks(g: Gates, v: Id) {
    g.pauseEnabled && (g.pauseRequested || v in g.requiresApproval)
  }

  /** The statuses a scheduling pass goes by after it handled the ready nodes of `view`; it does not notice refusals. */
  function Scheduled(nodes: seq<Id>, edges: seq<Edge>, view: map<Id, NodeStatus>, g: Gates): map<Id, NodeStatus> {
    map v | v in view ::
      if v in nodes && IsReady(edges, view, v) then (if Parks(g, v) then AwaitingApproval else Running) else view[v]
  }

  predicate AllParked(nodes: seq<Id>, results: map<Id, NodeStatus>) {
    && nodes != []
    && (forall v :: v in nodes ==> v in results && (Terminal(results[v]) || results[v].AwaitingApproval?))
    && (exists v :: v in nodes && results[v].AwaitingApproval?)
  }

  /** The execution-level status after a scheduling pass. */
  function StatusAfter(status: ExecStatus, nodes: seq<Id>, results: map<Id, NodeStatus>, pauseEnabled: bool): ExecStatus
    requires forall v :: v in nodes ==> v in results
  {
    if AllTerminal(nodes, results) then (if status == ExecRunning then ExecCompleted else status)
    else if AllParked(nodes, results) then (if pauseEnabled && status == ExecRunning then ExecAwaitingApproval else status)
    else ExecRunning
  }

  /**
   What a pass makes of the execution: running while any node may still move, and also if there is
   no node; completed from running once every node has ended; parked once none but parked ones are left.
   */
  lemma StatusTellsTheNodes(status: ExecStatus, nodes: seq<Id>, results: map<Id, NodeStatus>, pauseEnabled: bool)
    requires forall v :: v in nodes ==> v in results
    ensures var after := StatusAfter(status, nodes, results, pauseEnabled);
      && (nodes == [] || (exists v :: v in nodes && results[v] in {Pending, Running, Cancelled}) ==> after == ExecRunning)
      && (nodes != [] && (forall v :: v in nodes ==> results[v] in {Completed, Skipped, Failed, Unreachable}) ==>
            after == if status == ExecRunning then ExecCompleted else status)
      && ((forall v :: v in nodes ==> results[v] in {Completed, Skipped, Failed, Unreachable, AwaitingApproval})
          && (exists v :: v in nodes && results[v] == AwaitingApproval) ==>
            after == if pauseEnabled && status == ExecRunning then ExecAwaitingApproval else status)
  {
  }

  function RecordOf(records: Records, v: Id): Option<NodeRecord> {
    if v in records then Some(records[v]) else None
  }

  const STUB := NodeRecord(Pending, None, 0)

  predicate RetriesRefusal(g: Gates, v: Id, record: NodeRecord) {
    v in g.retries && record.retryCount < g.retries[v]
  }

  /** What a refusal makes of a node's record: it waits for another try, or has failed. */
  function RefusedRecord(g: Gates, v: Id, record: NodeRecord): NodeRecord {
    if record.status == Failed then record
    else if RetriesRefusal(g, v, record) then record.(status := Pending, retryCount := record.retryCount + 1)
    else record.(status := Failed)
  }

  /** What invoking a node makes of its record: refused, parked (creating it if need be) or dispatched, or left alone. */
  function Invoked(g: Gates, v: Id, record: Option<NodeRecord>, now: real): Option<NodeRecord> {
    if v in g.refused then (if record.Some? then Some(RefusedRecord(g, v, record.value)) else None)
    else if Parks(g, v) then
      var found := if record.Some? then record.value else STUB;
      Some(if found.status == Pending then found.(status := AwaitingApproval) else found)
    else if record.Some? && record.value.status == Pending then Some(record.value.(status := Running, startedAt := Some(now)))
    else record
  }

  /** ... and invoking it `n` times, as a node that is listed so often is. */
  function InvokedTimes(g: Gates, v: Id, record: Option<NodeRecord>, now: real, n: nat): Option<NodeRecord> {
    if n == 0 then record else Invoked(g, v, InvokedTimes(g, v, record, now, n - 1), now)
  }

  /** How often a scheduling pass invokes `v`. */
  function ReadyTimes(nodes: seq<Id>, edges: seq<Edge>, view: map<Id, NodeStatus>, v: Id): nat {
    if IsReady(edges, view, v) then multiset(nodes)[v] else 0
  }

  /** Two invocations leave a node that no gate refuses where one does. */
  lemma {:induction false} OnceSuffices(g: Gates, v: Id, record: Option<NodeRecord>, now: real, n: nat)
    requires v !in g.refused && n > 0
    ensures InvokedTimes(g, v, record, now, n) == Invoked(g, v, record, now)
  {
    if n > 1 {
      OnceSuffices(g, v, record, now, n - 1);
    }
  }

  /** A refused node's retry count never goes down; it has failed, or every refusal was counted. */
  lemma {:induction false} RefusalsCount(g: Gates, v: Id, record: NodeRecord, now: real, n: nat)
    requires v in g.refused
    ensures var after := InvokedTimes(g, v, Some(record), now, n);
      && after.Some? && after.value.retryCount >= record.retryCount
      && (after.value.status.Failed? || after.value.retryCount == record.retryCount + n)
  {
    if n > 0 {
      RefusalsCount(g, v, record, now, n - 1);
    }
  }

  /** Invoking a pending node, however often, moves it on or counts a retry, and never lowers the count. */
  lemma InvokedMoves(g: Gates, v: Id, record: NodeRecord, now: real, n: nat)
    ensures var after := InvokedTimes(g, v, Some(record), now, n);
      && after.Some? && after.value.retryCount >= record.retryCount && (n == 0 ==> after.value == record)
      && (n > 0 && record.status == Pending ==> after.value.status != Pending || after.value.retryCount > record.retryCount)
  {
    if v in g.refused {
      RefusalsCount(g, v, record, now, n);
    } else if n > 0 {
      OnceSuffices(g, v, Some(record), now, n);
    }
  }

  /** The nodes that have failed since. */
  function NewlyFailed(was: Records, records: Records): set<Id> {
    set v | v in records && records[v].status == Failed && !(v in was && was[v].status == Failed)
  }

  function ReadyNodes(nodes: seq<Id>, edges: seq<Edge>, view: map<Id, NodeStatus>): set<Id> {
    set v | v in nodes && IsReady(edges, view, v)
  }

  /** A gate that refuses a ready node for good fails the execution; the same pass takes the node for started and ends it running again. */
  lemma RefusalIsUndone(nodes: seq<Id>, edges: seq<Edge>, view: map<Id, NodeStatus>, g: Gates, v: Id)
    requires view.Keys == Elements(nodes) && v in ReadyNodes(nodes, edges, view) && v in g.refused && !Parks(g, v)
    ensures StatusAfter(ExecFailed, nodes, Scheduled(nodes, edges, view, g), g.pauseEnabled) == ExecRunning
  {
    assert Scheduled(nodes, edges, view, g)[v] == Running;
  }

  // ---- Repairing lost skips

  function Statuses(records: Records): map<Id, NodeStatus> {
    map v | v in records :: records[v].status
  }

  function Marked(records: Records, ids: set<Id>, status: NodeStatus): Records {
    map v | v in records :: if v in ids then records[v].(status := status) else records[v]
  }

  /** The targets of false edges out of the completed nodes among `sources`. */
  function FalseTargets(sources: set<Id>, records: Records, falseEdges: set<Edge>): set<Id> {
    set e | e in falseEdges && e.source in sources && e.source in records && records[e.source].status.Completed? :: e.target
  }

  /** What the repair may leave on a record: what was there, or the mark of a skipped or unreachable node. */
  predicate Repaired(before: NodeRecord, after: NodeRecord) {
    after == before || after == before.(status := Skipped) || after == before.(status := Unreachable)
  }

  /** `v` dies for certain of these dead. */
  ghost predicate Dies(nodes: seq<Id>, edges: seq<Edge>, dead: set<Id>, v: Id) {
    forall all :: ClosedUnderStarving(nodes, edges, dead, all) ==> v in all
  }

  /** On an acyclic graph a node dies for certain exactly if it is dead or no path past the dead ones leads there from a root. */
  lemma DiesIffNoPath(nodes: seq<Id>, edges: seq<Edge>, dead: set<Id>, v: Id)
    requires Closed(nodes, edges) && Acyclic(edges) && v in nodes
    ensures Dies(nodes, edges, dead, v) <==> v in dead || !exists p :: LivePath(edges, dead, p, v)
  {
    StarvesIffNoPath(nodes, edges, dead, v);
  }

  // ---- Retries

  /** What a sweep may make of a stalled node's record when it goes by what the record holds. */
  predicate SweptOnce(before: NodeRecord, after: NodeRecord, maxRetries: int) {
    if before.retryCount < maxRetries && before.status.Running? then after.retryCount > before.retryCount
    else after.retryCount == before.retryCount
  }

  predicate Flips(record: NodeRecord, maxRetries: int) {
    record.status.Running? && record.retryCount < maxRetries
  }

  /** How many of the first `n` changes of a record were stall flips by a sweep. */
  function FlipCount(history: seq<NodeRecord>, swept: seq<bool>, maxRetries: int, n: nat): nat
    requires n <= |swept| && n < |history|
  {
    if n == 0 then 0
    else FlipCount(history, swept, maxRetries, n - 1) + if swept[n - 1] && Flips(history[n - 1], maxRetries) then 1 else 0
  }

  /**
   Over any number of sweeps that do not overlap, and whatever else happens to the record in between
   short of lowering its retry count, a node is flipped back at most as often as it has retries left.
   */
  lemma {:induction false} FlipsAreBounded(history: seq<NodeRecord>, swept: seq<bool>, maxRetries: int, n: nat)
    requires n <= |swept| && n < |history|
    requires forall i :: 0 <= i < n ==>
      if swept[i] then SweptOnce(history[i], history[i + 1], maxRetries) else history[i + 1].retryCount >= history[i].retryCount
    ensures history[0].retryCount + FlipCount(history, swept, maxRetries, n) <= history[n].retryCount
    ensures FlipCount(history, swept, maxRetries, n) > 0 ==>
      history[0].retryCount + FlipCount(history, swept, maxRetries, n) <= maxRetries
  {
    if n > 0 { FlipsAreBounded(history, swept, maxRetries, n - 1); }
  }

  /** How far the repair has come: `skipped` by a false edge, `dead` by now, from the nodes that were dead before. */
  ghost predicate UnderRepair(nodes: seq<Id>, edges: seq<Edge>, deadBefore: set<Id>, base: set<Id>,
                              was: Records, records: Records, skipped: set<Id>, dead: set<Id>)
  {
    && records.Keys == was.Keys && (forall v :: v in records ==> Repaired(was[v], records[v]))
    && deadBefore + skipped <= dead
    && (forall v :: v in records && v in skipped ==> records[v].status == Skipped)
    && (forall v :: v in dead ==> Dies(nodes, edges, base, v))
    && (forall v :: v in records && records[v] != was[v] ==> v in dead)
    && (forall v :: v in records && v in dead && v !in deadBefore ==> records[v].status.Skipped? || records[v].status.Unreachable?)
    && (skipped != {} ==> ClosedUnderStarving(nodes, edges, dead, dead))
  }

  lemma BaseDies(nodes: seq<Id>, edges: seq<Edge>, base: set<Id>)
    ensures forall v :: v in base ==> Dies(nodes, edges, base, v)
  {
  }

  lemma NothingRepaired(nodes: seq<Id>, edges: seq<Edge>, deadBefore: set<Id>, base: set<Id>, was: Records)
    requires deadBefore <= base
    ensures UnderRepair(nodes, edges, deadBefore, base, was, was, {}, deadBefore)
  {
    BaseDies(nodes, edges, base);
  }

  lemma TargetsOfFalseEdges(seen: Records, falseEdges: set<Edge>)
    ensures forall e | e in falseEdges && e.source in seen && seen[e.source].status == Completed ::
      e.target in FalseTargets(seen.Keys, seen, falseEdges)
  {
  }

  lemma NoFalseTargets(records: Records, falseEdges: set<Edge>)
    ensures FalseTargets({}, records, falseEdges) == {}
  {
  }

  lemma OneMoreSource(sources: set<Id>, u: Id, records: Records, falseEdges: set<Edge>)
    ensures FalseTargets(sources + {u}, records, falseEdges)
            == FalseTargets(sources, records, falseEdges) + FalseTargets({u}, records, falseEdges)
  {
    var all := FalseTargets(sources + {u}, records, falseEdges);
    forall t | t in all ensures t in FalseTargets(sources, records, falseEdges) + FalseTargets({u}, records, falseEdges) {
      var e :| e in falseEdges && e.source in sources + {u} && e.source in records && records[e.source].status.Completed? && e.target == t;
    }
  }

  lemma SomeSourcesSuffice(few: set<Id>, sources: set<Id>, records: Records, falseEdges: set<Edge>)
    requires few <= sources
    ensures FalseTargets(few, records, falseEdges) <= FalseTargets(sources, records, falseEdges)
  {
  }

  /** One more completed node with false edges: its targets are skipped, and what starves of them is unreachable. */
  lemma RepairGoesOn(nodes: seq<Id>, edges: seq<Edge>, deadBefore: set<Id>, base: set<Id>, was: Records, records: Records,
                     skipped: set<Id>, dead: set<Id>, direct: set<Id>, starved: set<Id>)
    requires UnderRepair(nodes, edges, deadBefore, base, was, records, skipped, dead) && direct <= base && starved !! dead + direct
    requires ClosedUnderStarving(nodes, edges, dead + direct, dead + direct + starved)
    requires forall all :: ClosedUnderStarving(nodes, edges, dead + direct, all) ==> dead + direct + starved <= all
    ensures UnderRepair(nodes, edges, deadBefore, base, was, Marked(Marked(records, direct, Skipped), starved, Unreachable),
                        skipped + direct, dead + direct + starved)
  {
    BaseDies(nodes, edges, base);
    DiesOfTheDead(nodes, edges, base, dead + direct, starved);
    hide Dies;
    var after := Marked(Marked(records, direct, Skipped), starved, Unreachable);
    forall v | v in after ensures Repaired(was[v], after[v]) { assert Repaired(was[v], records[v]); }
    assert ClosedUnderStarving(nodes, edges, dead + direct + starved, dead + direct + starved);
  }

  lemma RepairEnds(nodes: seq<Id>, edges: seq<Edge>, deadBefore: set<Id>, base: set<Id>, was: Records, records: Records,
                   skipped: set<Id>, dead: set<Id>)
    requires UnderRepair(nodes, edges, deadBefore, base, was, records, skipped, dead) && base == deadBefore + skipped
    ensures forall v :: v in records && records[v] != was[v] ==> Dies(nodes, edges, base, v)
    ensures skipped != {} ==> (
      forall v :: (v in records && Dies(nodes, edges, base, v)
        ==> v in deadBefore || records[v].status.Skipped? || records[v].status.Unreachable?))
  {
    if skipped != {} {
      assert ClosedUnderStarving(nodes, edges, base, dead);
    }
  }

  class ExecutionRow {
    var status: ExecStatus
    var records: Records
    var failureEvents: nat       // workflow.failed events published

    constructor (status: ExecStatus, records: Records)
      ensures this.status == status && this.records == records && failureEvents == 0
    {
      this.status, this.records, failureEvents := status, records, 0;
    }

    /** The write behind _fail_stuck: only a running execution fails, and only then an event goes out. */
    method FailStuck() returns (failed: bool)
      modifies this`status, this`failureEvents
      ensures failed <==> old(status) == ExecRunning
      ensures status == if failed then ExecFailed else old(status)
      ensures failureEvents == old(failureEvents) + (if failed then 1 else 0)
    {
      failed := status == ExecRunning;
      if failed {
        status := ExecFailed;
        failureEvents := failureEvents + 1;
      }
    }

    /** The executor's failure path for a node a gate refused: a retry if the policy has one left, or the failure of it all. */
    method Refuse(v: Id, g: Gates)
      modifies this
      ensures records == if v in old(records) then old(records)[v := RefusedRecord(g, v, old(records)[v])] else old(records)
      ensures if NewlyFailed(old(records), records) == {}
        then status == old(status) && failureEvents == old(failureEvents)
        else NewlyFailed(old(records), records) == {v} && status == ExecFailed && failureEvents == old(failureEvents) + 1
    {
      if v in records && records[v].status != Failed && RetriesRefusal(g, v, records[v]) {
        records := records[v := records[v].(status := Pending, retryCount := records[v].retryCount + 1)];
      } else {
        FailNode(v);
        assert v in NewlyFailed(old(records), records) <==> v in old(records) && old(records)[v].status != Failed;
        assert NewlyFailed(old(records), records) <= {v};
      }
    }

    /** The executor's terminal failure path for one node; without a record there is nothing to write to. */
    method FailNode(v: Id)
      modifies this
      ensures v in old(records) && old(records)[v].status != Failed ==>
        records == old(records)[v := old(records)[v].(status := Failed)] && status == ExecFailed
        && failureEvents == old(failureEvents) + 1
      ensures v !in old(records) || old(records)[v].status == Failed ==>
        records == old(records) && status == old(status) && failureEvents == old(failureEvents)
    {
      if v !in records || records[v].status == Failed {
        return;
      }
      records := records[v := records[v].(status := Failed)];
      status := ExecFailed;
      failureEvents := failureEvents + 1;
    }

    /** invoke_node: the gates, the pause, and the guarded pending -> running write. */
    method InvokeNode(v: Id, g: Gates, now: real)
      modifies this
      // refused: one retry less, or failed for good
      ensures v in g.refused && v in old(records) && old(records)[v].status != Failed ==> (
        if v in g.retries && old(records)[v].retryCount < g.retries[v]
        then records == old(records)[v := old(records)[v].(status := Pending, retryCount := old(records)[v].retryCount + 1)]
        else records == old(records)[v := old(records)[v].(status := Failed)] && status == ExecFailed)
      // parked, with a record made for it if there is none
      ensures v !in g.refused && g.pauseEnabled && (g.pauseRequested || v in g.requiresApproval) ==> (
        && v in records
        && (v !in old(records) ==> records[v] == NodeRecord(AwaitingApproval, None, 0))
        && (v in old(records) ==> records[v] == if old(records)[v].status == Pending
              then old(records)[v].(status := AwaitingApproval) else old(records)[v]))
      // dispatched
      ensures v !in g.refused && !(g.pauseEnabled && (g.pauseRequested || v in g.requiresApproval)) ==> (
        records == if v in old(records) && old(records)[v].status == Pending
          then old(records)[v := old(records)[v].(status := Running, startedAt := Some(now))] else old(records))
      ensures forall u :: (RecordOf(records, u)
        == if u == v then Invoked(g, v, RecordOf(old(records), v), now) else RecordOf(old(records), u))
      ensures if NewlyFailed(old(records), records) == {}
        then status == old(status) && failureEvents == old(failureEvents)
        else NewlyFailed(old(records), records) == {v} && status == ExecFailed && failureEvents == old(failureEvents) + 1
    {
      if v in g.refused {
        Refuse(v, g);
        assert v in records && records[v].status == Failed && old(records)[v].status != Failed ==>
            v in NewlyFailed(old(records), records);
        return;
      }
      if Parks(g, v) {
        if v !in records {
          records := records[v := STUB];
        }
        if records[v].status == Pending {
          records := records[v := records[v].(status := AwaitingApproval)];
        }
      } else if v in records && records[v].status == Pending {
        records := records[v := records[v].(status := Running, startedAt := Some(now))];
      }
      assert NewlyFailed(old(records), records) == {};
    }

    /** schedule_frontier, driven by a reading `view` that other writers may have overtaken. */
    method ScheduleFrontier(nodes: seq<Id>, edges: seq<Edge>, view: map<Id, NodeStatus>, g: Gates, now: real)
      requires view.Keys == Elements(nodes)
      modifies this
      ensures forall v :: RecordOf(records, v) == InvokedTimes(g, v, RecordOf(old(records), v), now, ReadyTimes(nodes, edges, view, v))
      ensures failureEvents == old(failureEvents) + |NewlyFailed(old(records), records)|
      ensures status == StatusAfter(if NewlyFailed(old(records), records) == {} then old(status) else ExecFailed,
                                    nodes, Scheduled(nodes, edges, view, g), g.pauseEnabled)
    {
      hide Invoked, InvokedTimes, IsReady, NewlyFailed, AllTerminal, AllParked, Scheduled;
      var ready := FindReadyNodes(nodes, edges, view);
      ghost var was := records;
      NothingInvoked(g, was, now, ready);
      for k := 0 to |ready|
        invariant InvokedSoFar(g, was, records, now, multiset(ready[..k]))
        invariant failureEvents == old(failureEvents) + |NewlyFailed(was, records)|
        invariant status == if NewlyFailed(was, records) == {} then old(status) else ExecFailed
      {
        ghost var between := records;
        InvokeNode(ready[k], g, now);
        OneMoreInvoked(g, was, between, records, now, ready, k);
      }
      assert ready[..|ready|] == ready;
      var after := Scheduled(nodes, edges, view, g);
      if AllTerminal(nodes, after) {
        if status == ExecRunning {
          status := ExecCompleted;
        }
      } else if AllParked(nodes, after) {
        if g.pauseEnabled && status == ExecRunning {
          status := ExecAwaitingApproval;
        }
      } else {
        status := ExecRunning;
      }
    }

    /** The stall flip: running -> pending, counting the retry from the sweep's own reading. */
    method FlipStalled(v: Id, seenRetries: int) returns (flipped: bool)
      modifies this`records
      ensures flipped <==> v in old(records) && old(records)[v].status == Running
      ensures records == if flipped
        then old(records)[v := old(records)[v].(status := Pending, retryCount := seenRetries + 1)] else old(records)
    {
      flipped := v in records && records[v].status == Running;
      if flipped {
        records := records[v := records[v].(status := Pending, retryCount := seenRetries + 1)];
      }
    }

    /** _reconcile_or_fail_node, with the row as the sweep finds it when it writes. */
    method ReconcileOrFailNode(v: Id, seenRetries: int, maxRetries: int, nodes: seq<Id>, edges: seq<Edge>, g: Gates, now: real)
      returns (d: Disposition)
      requires v in records
      modifies this
      ensures d == if seenRetries >= maxRetries then NodeFailed
                   else if old(records)[v].status == Running then ReDispatched else NodeProgressed
      ensures d.NodeFailed? ==> (
        if old(records)[v].status == Failed
        then records == old(records) && status == old(status) && failureEvents == old(failureEvents)
        else records == old(records)[v := old(records)[v].(status := Failed)] && status == ExecFailed
             && failureEvents == old(failureEvents) + 1)
      ensures d.NodeProgressed? ==> records == old(records) && status == old(status) && failureEvents == old(failureEvents)
      ensures d.ReDispatched? ==> (
        var flipped := old(records)[v := old(records)[v].(status := Pending, retryCount := seenRetries + 1)];
        forall u :: (RecordOf(records, u)
          == InvokedTimes(g, u, RecordOf(flipped, u), now, ReadyTimes(nodes, edges, StatusMap(nodes, flipped), u))))
      ensures (d.ReDispatched? && v in nodes && v !in g.refused && forall u :: u in Sources(edges, v) ==>
               u != v && u in nodes && u in old(records) && old(records)[u].status in {Completed, Skipped, Unreachable}) ==> (
        && v in records
        && if Parks(g, v) then records[v].status == AwaitingApproval
           else records[v].status == Running && records[v].startedAt == Some(now))
      ensures v in records
      ensures seenRetries == old(records)[v].retryCount ==> SweptOnce(old(records)[v], records[v], maxRetries)
    {
      if seenRetries >= maxRetries {
        FailNode(v);
        return NodeFailed;
      }
      var flipped := FlipStalled(v, seenRetries);
      if !flipped {
        return NodeProgressed;
      }
      var view := StatusMap(nodes, records);
      assert v in nodes ==> view[v] == Pending;
      ghost var between := records;
      assert RecordOf(between, v) == Some(between[v]);
      ScheduleFrontier(nodes, edges, view, g, now);
      StalledIsInvoked(nodes, edges, old(records), between, records, v, g, now);
      return ReDispatched;
    }

    /** _reconcile_completed_edges: false edges out of completed nodes prune their targets and all that starves of it. */
    method RepairEdges(seen: Records, keys: seq<Id>, falseEdges: set<Edge>, nodes: seq<Id>, edges: seq<Edge>)
      requires Elements(keys) == seen.Keys
      modifies this`records
      ensures records.Keys == old(records).Keys
      ensures forall v :: v in records ==> Repaired(old(records)[v], records[v])
      ensures forall v :: v in records && v in FalseTargets(seen.Keys, seen, falseEdges) ==> records[v].status == Skipped
      ensures forall e | e in falseEdges && e.source in seen && seen[e.source].status == Completed && e.target in records ::
        records[e.target].status == Skipped
      // no more is marked than dies of the false edges and of what was dead before ...
      ensures forall v :: v in records && records[v] != old(records)[v] ==>
        Dies(nodes, edges, DeadIn(Statuses(seen)) + FalseTargets(seen.Keys, seen, falseEdges), v)
      // ... and no less
      ensures FalseTargets(seen.Keys, seen, falseEdges) != {} ==> (
        forall v :: (v in records && Dies(nodes, edges, DeadIn(Statuses(seen)) + FalseTargets(seen.Keys, seen, falseEdges), v)
          ==> v in DeadIn(Statuses(seen)) || records[v].status.Skipped? || records[v].status.Unreachable?))
    {
      ghost var was := records;
      var skipped, dead: set<Id> := {}, DeadIn(Statuses(seen));   // of the sweep's own reading
      ghost var base := DeadIn(Statuses(seen)) + FalseTargets(seen.Keys, seen, falseEdges);
      hide Dies, ClosedUnderStarving, FalseTargets;
      NothingRepaired(nodes, edges, DeadIn(Statuses(seen)), base, was);
      NoFalseTargets(seen, falseEdges);
      assert Elements(keys[..0]) == {};
      for k := 0 to |keys|
        invariant skipped == FalseTargets(Elements(keys[..k]), seen, falseEdges)
        invariant UnderRepair(nodes, edges, DeadIn(Statuses(seen)), base, was, records, skipped, dead)
      {
        var u := keys[k];
        assert keys[..k + 1] == keys[..k] + [u];
        assert u in Elements(keys) && Elements(keys[..k + 1]) == Elements(keys[..k]) + {u};
        OneMoreSource(Elements(keys[..k]), u, seen, falseEdges);
        var direct := FalseTargets({u}, seen, falseEdges);
        if direct != {} {
          ghost var between := records;
          records := Marked(records, direct, Skipped);
          var starved := PropagateSkips(dead + direct, nodes, edges);
          records := Marked(records, starved, Unreachable);
          SomeSourcesSuffice({u}, seen.Keys, seen, falseEdges);
          RepairGoesOn(nodes, edges, DeadIn(Statuses(seen)), base, was, between, skipped, dead, direct, starved);
          skipped, dead := skipped + direct, dead + direct + starved;
        }
      }
      assert keys[..|keys|] == keys;
      RepairEnds(nodes, edges, DeadIn(Statuses(seen)), base, was, records, skipped, dead);
      TargetsOfFalseEdges(seen, falseEdges);
    }

    /** The state a sweep must not leave alone: a running execution, a record per node, nothing in progress. */
    predicate Stuck(nodes: seq<Id>)
      reads this
    {
      && status == ExecRunning && records != map[] && records.Keys == Elements(nodes)
      && NothingInProgress(nodes, StatusMap(nodes, records))
    }

    /** Some node that was pending is no longer, or has a retry less left. */
    twostate predicate MovedOn()
      reads this
    {
      exists v :: v in records && v in old(records) && old(records[v].status) == Pending
        && (records[v].status != Pending || records[v].retryCount > old(records[v].retryCount))
    }

    /** _reconcile: repair the edges the sweep has read, then drive the frontier as it is by now. */
    method Reconcile(seen: Records, keys: seq<Id>, falseEdges: set<Edge>, nodes: seq<Id>, edges: seq<Edge>, g: Gates, now: real)
      requires Elements(keys) == seen.Keys
      requires Reconcilable(ExecRunning, nodes, edges, StatusMap(nodes, seen))
      modifies this
      ensures seen == old(records) && old(Stuck(nodes)) ==> status != ExecRunning || MovedOn()
    {
      hide InvokedTimes, Repaired, IsReady, NewlyFailed, Scheduled, FalseTargets, Dies;
      ghost var was := records;
      RepairEdges(seen, keys, falseEdges, nodes, edges);
      ghost var repaired := records;
      ScheduleFrontier(nodes, edges, StatusMap(nodes, records), g, now);
      if seen == was && was.Keys == Elements(nodes) {
        if v :| v in nodes && IsReady(edges, StatusMap(nodes, was), v) {
          ReadyOrRepaired(nodes, edges, was, repaired, v);
          assert RecordOf(was, v) == Some(was[v]) && RecordOf(repaired, v) == Some(repaired[v]);
          InvokedMoves(g, v, repaired[v], now, ReadyTimes(nodes, edges, StatusMap(nodes, repaired), v));
          assert RecordOf(records, v).Some?;
        } else {
          StillTerminal(nodes, edges, was, repaired, records, g, now);
        }
      }
    }

    /**
     _process_execution, on a reading `seen` of a running execution that may be outdated by now. The
     sweep prefers a lost frontier to a stalled node, and a stalled node to the execution-level
     backstop; and a stuck overdue execution, read as it is, never comes out of it unchanged.
     */
    method ProcessExecution(seen: Records, loaded: bool, nodes: seq<Id>, edges: seq<Edge>, falseEdges: set<Edge>, keys: seq<Id>,
                            maxRetries: map<Id, int>, g: Gates, started: Option<real>, pausedSeconds: real, pausedAt: Option<real>,
                            now: real, timeout: real, stall: real)
      returns (d: Disposition)
      requires Elements(keys) == seen.Keys && seen.Keys <= records.Keys
      modifies this
      // which remedy, in the order of preference
      ensures d.Reconciled? <==> loaded && FrontierSeen(seen, nodes, edges)
      ensures (d.ReDispatched? || d.NodeFailed? || d.NodeProgressed?) <==>
        loaded && !FrontierSeen(seen, nodes, edges) && StallSeen(seen, now, stall)
      // a stalled node is retried while the count that was read is below its limit, which is 0 without a policy
      ensures d.NodeFailed? ==> exists v | v in seen && Stalled(seen, v, now, stall) ::
        seen[v].retryCount >= (if v in maxRetries then maxRetries[v] else 0)
      ensures d.ReDispatched? || d.NodeProgressed? ==> exists v | v in seen && Stalled(seen, v, now, stall) ::
        seen[v].retryCount < (if v in maxRetries then maxRetries[v] else 0)
      ensures timeout >= 0.0 ==> ((d.ExecutionFailed? || d.RaceLost?) <==>
        ((loaded ==> !FrontierSeen(seen, nodes, edges) && !StallSeen(seen, now, stall)) && started.Some?
         && now - started.value - pausedSeconds - (if pausedAt.Some? then now - pausedAt.value else 0.0) > timeout))
      ensures d.NoStartTime? <==>
        (loaded ==> !FrontierSeen(seen, nodes, edges) && !StallSeen(seen, now, stall)) && started.None?
      // and what it did
      ensures d.Healthy? || d.NoStartTime? || d.RaceLost? ==>
        status == old(status) && records == old(records) && failureEvents == old(failureEvents)
      ensures d.RaceLost? ==> old(status) != ExecRunning
      ensures d.ExecutionFailed? ==> old(status) == ExecRunning && status == ExecFailed
                                     && failureEvents == old(failureEvents) + 1 && records == old(records)
      ensures (seen == old(records) && old(status) == ExecRunning && seen != map[] && seen.Keys == Elements(nodes)
               && (forall v :: v in seen ==> seen[v].status in {Pending, Completed, Skipped, Failed, Unreachable})
               && started.Some? && timeout >= 0.0
               && now - started.value - pausedSeconds - (if pausedAt.Some? then now - pausedAt.value else 0.0) > timeout) ==>
        status != ExecRunning || MovedOn()
    {
      if seen == records && status == ExecRunning && seen != map[] && seen.Keys == Elements(nodes)
         && forall v :: v in seen ==> seen[v].status in {Pending, Completed, Skipped, Failed, Unreachable}
      {
        assert forall v :: v in nodes ==> v in Elements(nodes);
        assert Stuck(nodes);
        NothingStalls(nodes, records, now, stall);
      }
      hide Reconcilable, StatusMap, NothingInProgress, IsReady, Scheduled, StatusAfter, Invoked;
      if seen != map[] && loaded {
        var frontier := HasReconcilableFrontier(ExecRunning, seen, nodes, edges);
        if frontier {
          Reconcile(seen, keys, falseEdges, nodes, edges, g, now);
          return Reconciled;
        }
        var v := FindStalledNode(keys, seen, now, stall);
        if v.Some? {
          var limit := if v.value in maxRetries then maxRetries[v.value] else 0;
          d := ReconcileOrFailNode(v.value, seen[v.value].retryCount, limit, nodes, edges, g, now);
          return;
        }
      }
      if started.None? {
        return NoStartTime;
      }
      if EffectiveAge(started.value, pausedSeconds, pausedAt, now) > timeout {
        var failed := FailStuck();
        return if failed then ExecutionFailed else RaceLost;
      }
      return Healthy;
    }
  }

  ghost predicate FrontierSeen(seen: Records, nodes: seq<Id>, edges: seq<Edge>) {
    seen != map[] && Reconcilable(ExecRunning, nodes, edges, StatusMap(nodes, seen))
  }

  /** Some node was read as running since longer than the stall threshold. */
  ghost predicate StallSeen(seen: Records, now: real, stall: real) {
    exists v :: v in seen && seen[v].status == Running && seen[v].startedAt.Some? && now - seen[v].startedAt.value >= stall
  }

  /** Every record as invoking these nodes, so often, leaves it. */
  ghost predicate InvokedSoFar(g: Gates, was: Records, records: Records, now: real, times: multiset<Id>) {
    forall v :: RecordOf(records, v) == InvokedTimes(g, v, RecordOf(was, v), now, times[v])
  }

  lemma NothingInvoked(g: Gates, was: Records, now: real, ready: seq<Id>)
    ensures InvokedSoFar(g, was, was, now, multiset(ready[..0])) && NewlyFailed(was, was) == {}
  {
  }

  lemma {:induction false} FailedStays(g: Gates, v: Id, record: Option<NodeRecord>, now: real, n: nat)
    requires record.Some? && record.value.status == Failed
    ensures InvokedTimes(g, v, record, now, n) == record
  {
    if n > 0 { FailedStays(g, v, record, now, n - 1); }
  }

  /** No failure is undone. */
  ghost predicate FailuresStay(was: Records, records: Records) {
    forall v :: RecordOf(was, v).Some? && RecordOf(was, v).value.status == Failed ==> RecordOf(records, v) == RecordOf(was, v)
  }

  lemma InvokedFailuresStay(g: Gates, was: Records, records: Records, now: real, times: multiset<Id>)
    requires InvokedSoFar(g, was, records, now, times)
    ensures FailuresStay(was, records)
  {
    forall v | RecordOf(was, v).Some? && RecordOf(was, v).value.status == Failed
      ensures RecordOf(records, v) == RecordOf(was, v)
    {
      FailedStays(g, v, RecordOf(was, v), now, times[v]);
    }
  }

  lemma OneMoreInvoked(g: Gates, was: Records, between: Records, records: Records, now: real, ready: seq<Id>, k: nat)
    requires k < |ready| && InvokedSoFar(g, was, between, now, multiset(ready[..k]))
    requires forall u :: (RecordOf(records, u)
      == if u == ready[k] then Invoked(g, u, RecordOf(between, u), now) else RecordOf(between, u))
    ensures InvokedSoFar(g, was, records, now, multiset(ready[..k + 1]))
    ensures |NewlyFailed(was, records)| == |NewlyFailed(was, between)| + |NewlyFailed(between, records)|
    ensures NewlyFailed(was, records) == {} <==> NewlyFailed(was, between) == {} && NewlyFailed(between, records) == {}
  {
    assert ready[..k + 1] == ready[..k] + [ready[k]];
    InvokedFailuresStay(g, was, between, now, multiset(ready[..k]));
    assert FailuresStay(between, records);
    FailuresAddUp(was, between, records);
    hide Invoked, NewlyFailed, FailuresStay, InvokedSoFar;
    SoFarGrows(g, was, between, records, now, ready, k);
  }

  lemma SoFarGrows(g: Gates, was: Records, between: Records, records: Records, now: real, ready: seq<Id>, k: nat)
    requires k < |ready| && InvokedSoFar(g, was, between, now, multiset(ready[..k]))
    requires forall u :: (RecordOf(records, u)
      == if u == ready[k] then Invoked(g, u, RecordOf(between, u), now) else RecordOf(between, u))
    ensures InvokedSoFar(g, was, records, now, multiset(ready[..k + 1]))
  {
    assert ready[..k + 1] == ready[..k] + [ready[k]];
    hide InvokedTimes, Invoked, RecordOf;
    forall v
      ensures RecordOf(records, v) == InvokedTimes(g, v, RecordOf(was, v), now, multiset(ready[..k + 1])[v])
    {
      OnceMore(g, v, RecordOf(was, v), now, multiset(ready[..k])[v]);
    }
  }

  lemma OnceMore(g: Gates, v: Id, record: Option<NodeRecord>, now: real, n: nat)
    ensures InvokedTimes(g, v, record, now, n + 1) == Invoked(g, v, InvokedTimes(g, v, record, now, n), now)
  {
  }

  /** Failures add up as long as none is undone. */
  lemma FailuresAddUp(was: Records, between: Records, records: Records)
    requires FailuresStay(was, between) && FailuresStay(between, records)
    ensures NewlyFailed(was, records) == NewlyFailed(was, between) + NewlyFailed(between, records)
    ensures |NewlyFailed(was, records)| == |NewlyFailed(was, between)| + |NewlyFailed(between, records)|
  {
    var before, since := NewlyFailed(was, between), NewlyFailed(between, records);
    forall v | v in before ensures v in NewlyFailed(was, records) {
      assert RecordOf(records, v) == RecordOf(between, v);
    }
    forall v | v in was && was[v].status == Failed ensures v in between && between[v].status == Failed {
      assert RecordOf(between, v) == RecordOf(was, v);
    }
    assert before !! since && NewlyFailed(was, records) == before + since;
  }

  /** What propagation adds dies of the base, if everything it started from does. */
  lemma DiesOfTheDead(nodes: seq<Id>, edges: seq<Edge>, base: set<Id>, dead: set<Id>, starved: set<Id>)
    requires forall v :: v in dead ==> Dies(nodes, edges, base, v)
    requires forall all :: ClosedUnderStarving(nodes, edges, dead, all) ==> dead + starved <= all
    ensures forall v :: v in starved ==> Dies(nodes, edges, base, v)
  {
    forall v, all | v in starved && ClosedUnderStarving(nodes, edges, base, all) ensures v in all {
      assert dead <= all;
      assert ClosedUnderStarving(nodes, edges, dead, all);
    }
  }

  /** A node that was ready is marked by the repair, or still ready after it. */
  lemma ReadyOrRepaired(nodes: seq<Id>, edges: seq<Edge>, was: Records, repaired: Records, v: Id)
    requires was.Keys == repaired.Keys == Elements(nodes) && forall u :: u in was ==> Repaired(was[u], repaired[u])
    requires IsReady(edges, StatusMap(nodes, was), v)
    requires v in nodes
    ensures v in was && was[v].status == Pending && repaired[v].retryCount == was[v].retryCount
    ensures repaired[v].status == Pending <==> ReadyTimes(nodes, edges, StatusMap(nodes, repaired), v) > 0
  {
    var before, after := StatusMap(nodes, was), StatusMap(nodes, repaired);
    forall u | Passes(before, u) ensures Passes(after, u) {
      assert u in Elements(nodes);
    }
  }

  /** With nothing left to do before the repair, there is nothing left to do after it. */
  lemma StillTerminal(nodes: seq<Id>, edges: seq<Edge>, was: Records, repaired: Records, records: Records, g: Gates, now: real)
    requires was.Keys == repaired.Keys == Elements(nodes) && forall u :: u in was ==> Repaired(was[u], repaired[u])
    requires AllTerminal(nodes, StatusMap(nodes, was))
    requires forall v :: (RecordOf(records, v)
      == InvokedTimes(g, v, RecordOf(repaired, v), now, ReadyTimes(nodes, edges, StatusMap(nodes, repaired), v)))
    ensures NewlyFailed(repaired, records) == {}
    ensures AllTerminal(nodes, Scheduled(nodes, edges, StatusMap(nodes, repaired), g))
  {
    var view := StatusMap(nodes, repaired);
    forall v | v in nodes ensures Terminal(view[v]) {
      assert v in Elements(nodes) && Repaired(was[v], repaired[v]);
      assert Terminal(StatusMap(nodes, was)[v]);
    }
    forall v ensures RecordOf(records, v) == RecordOf(repaired, v) {
      assert !IsReady(edges, view, v);
    }
    forall v | v in records && records[v].status == Failed
      ensures v in repaired && repaired[v].status == Failed
    {
      assert RecordOf(records, v) == RecordOf(repaired, v);
    }
  }

  /** What the scheduling pass after a stall flip makes of the stalled node. */
  lemma StalledIsInvoked(nodes: seq<Id>, edges: seq<Edge>, was: Records, flipped: Records, records: Records, v: Id, g: Gates, now: real)
    requires v in was && flipped.Keys == was.Keys && forall u :: u in was && u != v ==> flipped[u] == was[u]
    requires flipped[v].status == Pending
    requires forall u :: (RecordOf(records, u)
      == InvokedTimes(g, u, RecordOf(flipped, u), now, ReadyTimes(nodes, edges, StatusMap(nodes, flipped), u)))
    ensures v in records && records[v].retryCount >= flipped[v].retryCount
    ensures (v in nodes && v !in g.refused && forall u :: u in Sources(edges, v) ==>
               u != v && u in nodes && u in was && was[u].status in {Completed, Skipped, Unreachable}) ==> (
      if Parks(g, v) then records[v].status == AwaitingApproval
      else records[v].status == Running && records[v].startedAt == Some(now))
  {
    var view := StatusMap(nodes, flipped);
    var times := ReadyTimes(nodes, edges, view, v);
    assert RecordOf(flipped, v) == Some(flipped[v]);
    InvokedMoves(g, v, flipped[v], now, times);
    assert RecordOf(records, v).Some?;
    if v in nodes && v !in g.refused && forall u :: u in Sources(edges, v) ==>
         u != v && u in nodes && u in was && was[u].status in {Completed, Skipped, Unreachable}
    {
      forall u | u in Sources(edges, v) ensures Passes(view, u) {
        assert u != v && was[u].status in {Completed, Skipped, Unreachable};
      }
      assert IsReady(edges, view, v) && v in multiset(nodes);
      OnceSuffices(g, v, Some(flipped[v]), now, times);
    }
  }
}
