# Citadel arbiter: verified model

A Dafny model of the guarantees that the Python "arbiter" tier of Citadel gives in
comments and docstrings and keeps, or does not quite keep, across several functions.
`dafny verify dfyconfig.toml` checks everything. The files follow the program:

- **Tool-execution ledger.** `LedgerProtocol` is one key's row with its conditional
  writes and any number of calls as a step system; every read may be outdated, every
  request may be lost before or after it was applied, and a call may die anywhere.
  `LedgerSafety`, `LedgerReplay` and `LedgerLeases` prove what all runs keep,
  `LedgerOutcomes` what undisturbed calls come to, from the tool's outcome to what the
  next caller is told; `LedgerLimits` holds the runs that show where the guarantees end.
  `ToolExecutionLedger` is the class with the methods themselves, each proved to take
  protocol steps while other calls interleave. `DispatchFence` adds the generation fence
  over all keys of a workflow.
- **Workflow scheduling.** `Graph`, `Dag` and `RepeatedIds` are the graph algorithms,
  `WorkflowRun` the node records under guarded dispatches from stale readings, `Watchdog`
  the sweep.
- **Circuit breaker.** `BreakerProtocol`, `BreakerSafety`, `BreakerProbes` and the class in
  `ToolBreakerStore`, in the same style as the ledger; `BreakerBursts` tells when failures
  add up and what recovery counts from.
- **Governance engine.** `GovernanceModels` holds the entities and the declarative
  policy, `GovernanceEngine` the indexes and the pipeline proved equal to it.
- **Compensation templates, approvals, bounded retry.** `CompensationTemplate` with
  `TemplateGuarantees` and `TemplateLookup`, `ToolApproval`, and `TransientRetry`.

Clocks, draws, faults, stale readings, the JSON codec and the hash are parameters.
Python's `int()` truncates toward zero (`Common.Trunc`); a float JSON leaf is carried by
the text Python prints for it.

## Where the code and its own words disagree

The model follows the code. Each point names the lemma that shows it, mostly on a concrete
input and beside the exact condition under which the promise holds, or the member that
models it.

- The ledger promises that superseded workers "can no longer both reach an adapter"
  (`tool_execution_ledger.py:18-27`). The fence stops reservations, not executions
  (`DispatchFence.TwoGenerationsHold`), and a takeover is not fenced at all
  (`DispatchFence.TakeoverEscapesFence`); `DispatchFence.OnlyCurrentIffNoneBehind` is the
  exact condition.
- A settling write asks only for `in_flight`, so after a takeover the old holder can
  settle the new holder's row (`LedgerLimits.TakeoverSplitsResults`), or be refused and
  still report its own value (`LedgerLimits.LateSettlerReportsItsOwn`);
  `LedgerReplay.OneRecordedResult` holds whenever superseded calls do neither, nor overwrite
  the offloaded object.
- `execute_idempotent` reads the clock once and keeps the reading; a late re-reservation
  can bring back an old creation time, which is then taken over a second time
  (`LedgerLimits.SameSeenValueTwice`).
- The failure handler, the pause request, the execution-wide approval and the cancellation
  write a node's status on the strength of an old reading. A late failure report, or a pause
  that overtakes a completion, gets a completed node dispatched again, and a cancellation
  takes a completion back (`WorkflowRun.CompletedNodeDispatchedAgain`,
  `PausedNodeDispatchedAgain`, `CancelledAfterCompletion`);
  `WorkflowRun.ReopenedExactlyByStaleWriters` is the exact condition.
- `schedule_frontier` writes the execution's status back to running even if it was failed
  or cancelled meanwhile, although its comment says that terminal states win
  (`executor.py:1637-1708`). So a gate that refuses a node for good fails the execution, and
  the same pass undoes it (`Watchdog.RefusalIsUndone`).
- `topological_sort` takes a repeated node id without complaint, and may then return an order
  for a graph with a cycle, report a cycle that is not there, or misplace a node
  (`RepeatedIds.MissedCycle`, `RepeatedIds.FalseCycle`, `Dag.RepeatedIdMisorders`);
  `RepeatedIds.RightIffDistinctOrAllEqual` is the exact condition.
- The breaker means to fail open when its store does not answer, but a transport error in
  the lease write fast-fails (`tool_breaker_store.py:359-366`), as `PreCheck` says.
- "Only the current prober transitions" (`tool_breaker_store.py:372-374`), but the end of a
  probe does not ask who holds the lease: one that outlasts its lease ends the next one's
  (`BreakerProbes.LateEndClosesOverALease`). `BreakerProbes.HoldsIffNoTurnSince` says exactly
  when an end is the prober's own, `BreakerProbes.EveryEndIsByTheHolder` what callers can do.
- The domain-pair lookup of contracts can never find one
  (`GovernanceEngine.Engine.OnlyThePairCounts`): both domains are the request's.
- The path expression's `$` also stands before a final newline, so the validator accepts
  templates that the renderer calls malformed (`TemplateGuarantees.AcceptedYetMalformed`).
- "Any two distinct tuples produce distinct ids" (`tool_approval.py:38-40`) fails for
  strings that spell a character as two surrogates (`ToolApproval.SplitPairsShareAMarker`).
- A permitted backoff leaves the next checkpoint passing on an exact clock, not on one
  that counts whole milliseconds (`FabricationDeadline.WholeMillisecondsDoNot`);
  `FabricationDeadline.WholeMillisecondsDoIff` is the exact condition there.

## Model

| member | source | states |
|---|---|---|
| `LedgerSafety.EffectsBounded` | arbiter/governance/tool_execution_ledger.py:9-53 | In every interleaving of calls, crashes, lost replies, releases and takeovers on one key, the tool runs that may have taken effect number at most one more than the lease takeovers. |
| `LedgerSafety.AlwaysCounted` | arbiter/governance/tool_execution_ledger.py:598-812 | The counting invariant behind it: grants equal the first put plus re-reservations plus takeovers; effects, harmless runs and calls about to run never exceed the grants; releases never exceed the harmless runs. |
| `LedgerSafety.CountedKept` | arbiter/governance/tool_execution_ledger.py:422-510 | Every single step of every call keeps the counting invariant. |
| `LedgerLimits.BoundIsReached` | arbiter/governance/tool_execution_ledger.py:422-450 | The bound is tight: for every n there is a run with n takeovers and n + 1 effects. |
| `LedgerOutcomes.FailureMatrix` | arbiter/governance/tool_execution_ledger.py:950-983 | The failure matrix, from the call on an absent key to the stored row: what each way the tool can fail leaves in the row, reports to the caller and counts as an effect. |
| `LedgerOutcomes.ReturnedValues` | arbiter/governance/tool_execution_ledger.py:985-991 | What becomes of a value the tool returned: an error object is a recorded failure, a small result is stored inline, a large one beside the row, and what cannot be stored leaves the row in flight. |
| `LedgerOutcomes.LaterCallsAreTold` | arbiter/governance/tool_execution_ledger.py:849-933 | What a later call is told that reads a settled row, status by status, without running its tool or changing the row. |
| `LedgerOutcomes.RecordedThenReplayed` | arbiter/governance/tool_execution_ledger.py:875-991 | First call, then second: after an undisturbed success the next caller is handed the very value the first one returned, under a codec that reads back what it wrote. |
| `LedgerOutcomes.DeathLeavesAll` | arbiter/governance/tool_execution_ledger.py:875-991 | A call may die wherever it stands and leaves everything as it was; one that has ended stays so. |
| `LedgerOutcomes.LostRequestsLeaveAll` | arbiter/governance/tool_execution_ledger.py:598-812 | A request lost on its way leaves row and stored object alone and ends the call. |
| `LedgerReplay.SettledForever` | arbiter/governance/tool_execution_ledger.py:698-739 | A completed or failed row never changes again, whatever follows. |
| `LedgerReplay.InFlightHasOneWinner` | arbiter/governance/tool_execution_ledger.py:698-812 | Without takeovers, an in-flight row has exactly one unsettled winner and a row in any other state none. |
| `LedgerReplay.NoTakeoverNoDispute` | arbiter/governance/tool_execution_ledger.py:422-450 | Without takeovers no call is ever superseded, so nobody interferes. |
| `LedgerReplay.AlwaysFaithful` | arbiter/governance/tool_execution_ledger.py:363-406 | In every run in which no superseded call interferes, however many dead holders were replaced, the row is in flight exactly while the call it was last granted to has not settled it, a completed row always has a readable recorded text, and every call stands where that text justifies. |
| `LedgerReplay.OneRecordedResult` | arbiter/governance/tool_execution_ledger.py:875-991 | In those runs every value handed out as a success (by the winner, a later hit or a poller, inline or offloaded) is the one recorded text up to JSON encoding. |
| `LedgerReplay.AllCallersAgree` | arbiter/governance/tool_execution_ledger.py:849-872 | Hence any two successes on one key are equal if the codec reads back what it wrote. |
| `LedgerLimits.TakeoverSplitsResults` | arbiter/governance/tool_execution_ledger.py:698-739 | Interference does break it: after one takeover the old holder can settle the new holder's row, and the new holder returns a success that is not the recorded one. |
| `LedgerLimits.LateSettlerReportsItsOwn` | arbiter/governance/tool_execution_ledger.py:724-732 | So does a settle that comes too late: it is refused as benign, and the old holder returns its own value as a success although another one is recorded. |
| `LedgerLeases.TakeoverAdvances` | arbiter/governance/tool_execution_ledger.py:422-450 | A takeover strictly increases the stored integer creation time, although the clock reading is cut down to whole seconds. |
| `LedgerLeases.TakeoversAlwaysDue` | arbiter/governance/tool_execution_ledger.py:481-510 | A call about to take over has seen a creation time more than a lease older than its clock reading. |
| `LedgerLeases.TakeoverWaitsForTheLease` | arbiter/governance/tool_execution_ledger.py:505-509 | Every takeover that succeeds does so on a reading more than the lease length past the creation time it replaces, to the fraction of a second. |
| `LedgerLeases.ReadOfRunningRow` | arbiter/governance/tool_execution_ledger.py:505-510 | An answered read of a row in flight sends the call to take it over exactly if more than the lease length has passed, and to poll otherwise. |
| `LedgerLeases.OnceWithinOneLease` | arbiter/governance/tool_execution_ledger.py:9-17 | If all calls read their clocks within one lease of each other, then in every interleaving no lease is taken over and the tool takes effect at most once. |
| `LedgerLeases.OneTakeoverPerSeenValue` | arbiter/governance/tool_execution_ledger.py:422-478 | Two calls holding the same seen value both succeed only if a released row was re-reserved in between with a reading at or before that value. |
| `LedgerLeases.AtMostOneTakeover` | arbiter/governance/tool_execution_ledger.py:422-478 | While no re-reservation stores an earlier reading, each creation time is taken over at most once. |
| `LedgerLimits.SameSeenValueTwice` | arbiter/governance/tool_execution_ledger.py:918-922 | The condition is needed even with a clock that never goes back: a call keeps its first reading, so one creation time can be taken over twice. |
| `LedgerLimits.EveryRewindPermitsAnother` | arbiter/governance/tool_execution_ledger.py:453-478 | And it is the right one: after any re-reservation that brings a creation time back, every later call that finds it expired can take it over again. |
| `ToolExecutionLedger.Ledger.PutItem` | arbiter/governance/tool_execution_ledger.py:598-667 | The conditional put, with the fence checked in the same write: what it leaves in the row and in the caller, for every answer and every loss. |
| `ToolExecutionLedger.Ledger.TakeOver` | arbiter/governance/tool_execution_ledger.py:422-478 | The conditional updates behind stale and released takeover, step for step those of the protocol. |
| `ToolExecutionLedger.Ledger.ResolveExisting` | arbiter/governance/tool_execution_ledger.py:481-510 | What a call saw of a possibly outdated row decides: completed and failed rows are hits, a released one may be re-reserved, one in flight taken over only past its lease, and otherwise nothing is written. |
| `ToolExecutionLedger.Ledger.Reserve` | arbiter/governance/tool_execution_ledger.py:513-667 | Reserve ends in exactly one of won, hit, failed, held elsewhere, fenced or broken; broken only if a request was lost; the tool is never invoked. |
| `ToolExecutionLedger.Ledger.SettleItem` | arbiter/governance/tool_execution_ledger.py:698-812 | The three settling writes: guarded by in-flight, and answered with the outcome that belongs to the verdict. |
| `ToolExecutionLedger.Ledger.RunAndSettle` | arbiter/governance/tool_execution_ledger.py:950-991 | The winner runs the tool once and settles; when nothing is lost it reports exactly what its failure matrix prescribes. |
| `ToolExecutionLedger.Ledger.WaitForTerminal` | arbiter/governance/tool_execution_ledger.py:670-695 | The polling loop returns only a settled row, or times out at the deadline. |
| `ToolExecutionLedger.Ledger.ExecuteIdempotent` | arbiter/governance/tool_execution_ledger.py:875-991 | The whole call, with other calls acting between any two requests, takes protocol steps only; it tells whether it ran the tool; its result obeys the bound and, unless a superseded call interfered, is the recorded one. |
| `DispatchFence.AlwaysFenced` | arbiter/governance/tool_execution_ledger.py:513-595 | Every fresh fenced reservation and every attempt that finds its key taken carries the generation of the last dispatch of its node, in every interleaving of dispatches and reservations; a claim against an absent counter is refused. |
| `DispatchFence.FreshGrantsFollowDispatches` | arbiter/common/workflow_contract.py:309-317 | So a fresh reservation granted after a dispatch is never older than it, under any keys. |
| `DispatchFence.TakeoversFollowAttempts` | arbiter/governance/tool_execution_ledger.py:575-595 | Every takeover follows an attempt of the same claim that passed the fence; its generation is never newer than the last dispatch, and older exactly if the node was dispatched between the attempt and the takeover. |
| `DispatchFence.AttemptsAreSpent` | arbiter/governance/tool_execution_ledger.py:575-595 | Each attempt takes a row over at most once; the ones not used yet are still to be resolved. |
| `DispatchFence.OnlyCurrentIffNoneBehind` | arbiter/governance/tool_execution_ledger.py:18-27 | All through a run only workers of a node's current generation hold rows exactly if no dispatch of the node finds a row in flight for it and no worker of an earlier generation takes one over. |
| `DispatchFence.TakeoverEscapesFence` | arbiter/governance/tool_execution_ledger.py:589-590 | A takeover happens outside the transaction: an old generation is granted the row after the node was dispatched again. |
| `DispatchFence.TwoGenerationsHold` | arbiter/governance/tool_execution_ledger.py:18-27 | A run in which they do not: workers of two generations of one node both hold an in-flight row, each freshly reserved. |
| `Dag.TopologicalSort` | arbiter/stepRunner/dag.py:45-73 | An unknown node is reported exactly when an edge names one; otherwise the outcome is that of the algorithm on any node list. On distinct ids the order is a permutation with every edge forward, and a cycle is reported exactly when there is one; duplicate edges and self-loops included. |
| `Dag.BuildGraph` | arbiter/stepRunner/dag.py:47-56 | In-degrees and adjacency lists count every edge, duplicates too. |
| `Dag.Finish` | arbiter/stepRunner/dag.py:62-68 | The inner loop is the counting off of the targets one by one, on any in-degrees. |
| `Dag.SettleKeeps` | arbiter/stepRunner/dag.py:62-68 | On distinct ids counting off keeps the in-degrees exact and queues exactly the nodes that become free, each once. |
| `Dag.SettleIsBounded` | arbiter/stepRunner/dag.py:60-68 | On any ids the queued nodes and the nodes with a positive in-degree together never grow, so the loop ends. |
| `Dag.RepeatedIdFalseCycle` | arbiter/stepRunner/dag.py:70-71 | With a repeated id the code reports a cycle on an acyclic graph. |
| `Dag.RepeatedIdMisorders` | arbiter/stepRunner/dag.py:60-73 | With a repeated root the code returns an order in which a node comes before one of its sources. |
| `RepeatedIds.MissedCycle` | arbiter/stepRunner/dag.py:60-73 | With any id given more than once beside one given once, the code returns an order for a graph with a cycle. |
| `RepeatedIds.FalseCycle` | arbiter/stepRunner/dag.py:58-71 | With any two ids, one of them given more than once, it reports a cycle on an acyclic graph. |
| `RepeatedIds.RightIffDistinctOrAllEqual` | arbiter/stepRunner/dag.py:45-73 | The exact condition on the node list: the sort is right about every graph (a cycle reported exactly if there is one, else all nodes with their sources first) exactly if the ids are distinct or all equal. |
| `Dag.LeftoverIsCyclic` | arbiter/stepRunner/dag.py:70-71 | The nodes left over when the queue runs dry contain a cycle. |
| `Dag.OrderedIsAcyclic` | arbiter/stepRunner/dag.py:45-73 | An order with all sources first exists only on an acyclic graph. |
| `Dag.FindDownstreamSubgraph` | arbiter/stepRunner/dag.py:113-132 | The result is exactly what is reachable along one edge or more (so the start itself only on a cycle). |
| `Dag.PropagateSkips` | arbiter/stepRunner/dag.py:135-169 | With the skipped nodes, the result is the least set closed under losing all predecessors. |
| `Dag.LiveIffPath` | arbiter/stepRunner/dag.py:135-169 | On an acyclic graph a node stays runnable exactly when a path reaches it from an unskipped root through unskipped nodes. |
| `Dag.StarvesIffNoPath` | arbiter/stepRunner/dag.py:135-169 | So does a node die for certain of a set of skipped ones exactly if it is one of them or no such path is left. |
| `Dag.FindReadyNodes` | arbiter/stepRunner/dag.py:82-100 | Exactly the pending nodes whose predecessors are all completed, skipped or unreachable, as often as they are listed. |
| `Dag.FindRootNodes` | arbiter/stepRunner/dag.py:76-79 | Exactly the nodes without incoming edge, which are the ready nodes of an untouched workflow. |
| `WorkflowRun.RunningIsJustified` | arbiter/stepRunner/executor.py:1140-1182 | Over every run of guarded dispatches from mixed stale readings, completions, skips, parking, approvals, stall flips and unguarded writes that hit no settled node, a running or completed node has only predecessors that let it pass. |
| `WorkflowRun.ReadyStays` | arbiter/stepRunner/dag.py:82-100 | A ready node stays ready while it is pending. |
| `WorkflowRun.NeverDispatchedAgain` | arbiter/stepRunner/executor.py:1140-1182 | A completed, skipped or unreachable node is never dispatched again, unless a handler that writes without a guard wrote over one. |
| `WorkflowRun.ReopenedExactlyByStaleWriters` | arbiter/stepRunner/executor.py:3105-3341 | Completed, skipped and unreachable nodes stay so exactly in the runs in which no unguarded handler (failure, pause request, execution-wide approval, cancellation) passes its own test on what it once read of a node that is settled by then. |
| `WorkflowRun.HandlersInWords` | arbiter/stepRunner/executor.py:2422-2554 | What each unguarded handler writes on what status it read. |
| `WorkflowRun.PropagatedIffNoPath` | arbiter/stepRunner/dag.py:135-169 | On an acyclic graph exactly the nodes that no path of unskipped nodes from a root reaches any more are marked unreachable. |
| `WorkflowRun.CompletedNodeDispatchedAgain` | arbiter/stepRunner/executor.py:2422-2554 | It can happen: a late failure report for a completed node gets it dispatched a second time. |
| `WorkflowRun.PausedNodeDispatchedAgain` | arbiter/stepRunner/executor.py:3148-3341 | So does a pause request that had read the node as pending, once the pause is approved. |
| `WorkflowRun.CancelledAfterCompletion` | arbiter/stepRunner/executor.py:3105-3130 | And a cancellation that had read the node as running takes its completion back. |
| `Watchdog.HasReconcilableFrontier` | arbiter/stepRunner/timeout_watchdog.py:329-343 | True exactly when a running execution has nothing left to do, or something ready. |
| `Watchdog.NoSilentDeadlock` | arbiter/stepRunner/timeout_watchdog.py:329-343 | In a running acyclic workflow with nothing in progress, a missing frontier means that some node is pending and every pending node is downstream of a failed one. |
| `Watchdog.SilentDeadlocks` | arbiter/stepRunner/timeout_watchdog.py:329-343 | On a cyclic graph, or with an edge from an unknown node, it does not. |
| `Watchdog.ParkedTimeDoesNotCount` | arbiter/stepRunner/timeout_watchdog.py:428-451 | The effective age stands still while an execution is parked, and grows by no more than the clock afterwards. |
| `Watchdog.AgeIsTimeNotParked` | arbiter/stepRunner/timeout_watchdog.py:428-451 | The age is the time since the start less all parked time, never below 0; an execution is overdue exactly past its start plus parked time plus timeout. |
| `Watchdog.AgeGrows` | arbiter/stepRunner/timeout_watchdog.py:428-451 | While it is not parked, an execution ages with the clock. |
| `Watchdog.ParkingIsNotOverdue` | arbiter/stepRunner/timeout_watchdog.py:428-488 | An execution that was not overdue when it was parked is not while it is, nor on being resumed. |
| `Watchdog.FindStalledNode` | arbiter/stepRunner/timeout_watchdog.py:346-358 | The first running node, in record order, that started too long ago; none exactly if there is none. |
| `Watchdog.ExecutionRow.FailStuck` | arbiter/stepRunner/timeout_watchdog.py:164-226 | Only a running execution is failed, once, with one event. |
| `Watchdog.ExecutionRow.InvokeNode` | arbiter/stepRunner/executor.py:1019-1182 | A gate has the node retried or failed as its retry policy says, a pause parks it, or the guarded write dispatches it; no other record changes, and only a failure fails the execution and publishes an event. |
| `Watchdog.ExecutionRow.ScheduleFrontier` | arbiter/stepRunner/executor.py:1574-1710 | Exactly the ready nodes are invoked, as often as they are listed; each failed one is one failure event; and the execution ends finalized, awaiting approval, running or as it was. |
| `Watchdog.StatusTellsTheNodes` | arbiter/stepRunner/executor.py:1637-1708 | What a pass makes of the execution, told by its nodes: running while any may still move, completed once all have ended, parked once only parked ones are left. |
| `Watchdog.RefusalIsUndone` | arbiter/stepRunner/executor.py:1637-1708 | A refusal that is not retried fails the execution, and the pass that met it ends by writing it back to running. |
| `Watchdog.ExecutionRow.ReconcileOrFailNode` | arbiter/stepRunner/timeout_watchdog.py:361-413 | What becomes of the records after a stall: the node failed with one event, left alone, or flipped with the retry counted and the ready nodes invoked, the stalled one among them if its predecessors still let it pass. |
| `Watchdog.FlipsAreBounded` | arbiter/stepRunner/timeout_watchdog.py:373-403 | Over sweeps that do not overlap a node is flipped back at most as often as it has retries left, whatever else happens to it short of lowering the count. |
| `Watchdog.ExecutionRow.RepairEdges` | arbiter/stepRunner/executor.py:1713-1732 | False edges out of completed nodes skip their targets; beyond those exactly what dies of them and of the nodes dead before is marked unreachable. |
| `Watchdog.DiesIffNoPath` | arbiter/stepRunner/executor.py:1713-1732 | What the repair takes for dead, in terms of paths. |
| `Watchdog.ExecutionRow.Reconcile` | arbiter/stepRunner/timeout_watchdog.py:416-425 | Repairing and driving the frontier of a stuck execution ends it, moves a pending node on, or uses up one of its retries. |
| `Watchdog.ExecutionRow.ProcessExecution` | arbiter/stepRunner/timeout_watchdog.py:454-490 | On a possibly outdated reading, exactly which remedy the sweep picks, in its order of preference; the execution is failed exactly if it has neither a frontier nor a stall and more than the timeout has passed since its start, parked time not counted; a stuck overdue execution that was read as it is never leaves it unchanged. |
| `BreakerSafety.AlwaysOrdered` | arbiter/governance/tool_breaker_store.py:324-459 | In every interleaving the transitions written for one target have strictly increasing versions and form a prefix of ((CLOSED to OPEN)(HALF_OPEN to OPEN)*(HALF_OPEN to CLOSED))*. |
| `BreakerSafety.AlwaysAccounted` | arbiter/governance/tool_breaker_store.py:520-526 | Every transition written is emitted once, still owed by one worker, or dropped. |
| `BreakerSafety.EmittedOnce` | arbiter/governance/tool_breaker_store.py:520-526 | No two emitted findings share a version. |
| `BreakerSafety.EmissionsTellTheHistory` | arbiter/governance/tool_breaker_store.py:520-526 | If none was dropped and none is owed, the findings sorted by version are the whole history, and it follows the cycle. |
| `BreakerSafety.OpeningIsEarned` | arbiter/governance/tool_breaker_store.py:410-518 | Each CLOSED to OPEN transition was preceded, since the breaker last became CLOSED, by at least the threshold of failures counted in one window, despite concurrent increments, rolls and stale snapshots. |
| `BreakerSafety.WindowNeverBack` | arbiter/governance/tool_breaker_store.py:461-518 | Window start and version of an existing row never decrease. |
| `BreakerSafety.LeaseIffHalfOpen` | arbiter/governance/tool_breaker_store.py:324-408 | The lease attributes are present exactly while the row is HALF_OPEN. |
| `BreakerProbes.LeaseIsExclusive` | arbiter/governance/tool_breaker_store.py:324-366 | Two leases are won with no probe ended in between only if the second reading lies past the expiry of the first, in every interleaving. |
| `BreakerProbes.HoldsIffNoTurnSince` | arbiter/governance/tool_breaker_store.py:368-408 | A prober holds the lease on the row, so that ending its probe ends its own lease, exactly if no lease was won and no probe ended since it won. |
| `BreakerProbes.EveryProberWon` | arbiter/governance/tool_breaker_store.py:324-366 | Whoever probes won a lease at some step of the run, and has stood there since. |
| `BreakerProbes.EveryEndIsByTheHolder` | arbiter/governance/tool_breaker_store.py:368-408 | If readings do not go back from a lease to an end, and every probe ends by its own lease's expiry, each applied end is by the holder. |
| `BreakerProbes.NoDoubleProbe` | arbiter/governance/tool_breaker_store.py:324-366 | In such runs two workers probe at once only if the lease of one of them has run out by a reading of the run. |
| `BreakerProbes.LateEndClosesOverALease` | arbiter/governance/tool_breaker_store.py:368-408 | A run in which it is not: a probe whose lease ran out closes the breaker under the running lease of another worker. |
| `BreakerLogic.WindowsInOrder` | arbiter/governance/tool_breaker_logic.py:135-139 | Later clock readings fall into later or equal windows. |
| `BreakerLogic.FixedWindow` | arbiter/governance/tool_breaker_logic.py:135-139 | Windows are fixed: all readings from one multiple of the window length to the next count from that multiple. |
| `BreakerLogic.RecoveringOrDue` | arbiter/governance/tool_breaker_logic.py:161-180 | An OPEN breaker is still recovering or due for a probe, never both, and the turn comes exactly at its opening plus the recovery; any other is neither. |
| `BreakerBursts.BurstOpens` | arbiter/governance/tool_breaker_store.py:410-518 | Undisturbed failures anywhere within one fixed window add up: short of the threshold all are counted and the breaker stays CLOSED; the one that reaches it opens the breaker with one finding; later ones change nothing. |
| `BreakerBursts.OpenedAtItsFailure` | arbiter/governance/tool_breaker_store.py:368-408 | A breaker that opens counts its recovery from the reading of the failure, or of the failed probe, that opened it. |
| `BreakerBursts.ClosedByHealthyProbe` | arbiter/governance/tool_breaker_store.py:276-287 | Only a healthy probe closes a breaker, which then counts from 0 again. |
| `BreakerSafety.LaterFailuresAreTaken` | arbiter/governance/tool_breaker_store.py:461-518 | Hence, while readings do not go back, a CLOSED row takes every failure, in its window or in a new one. |
| `ToolBreakerStore.Store.PreCheck` | arbiter/governance/tool_breaker_store.py:217-272 | A decision of the cache alone rests on a value the row has held; a reading is remembered as it is; a store that does not answer lets the call proceed; an OPEN row still recovering fast-fails without a write; an uncontended, answered check is granted the probe exactly of a row past its recovery or with an expired lease; whoever is granted it holds the lease, and a faulted lease write grants nothing. |
| `ToolBreakerStore.CacheRestsOnReading` | arbiter/governance/tool_breaker_logic.py:182-202 | What the cache decides alone was read from the row. |
| `ToolBreakerStore.CacheDecidesInWords` | arbiter/governance/tool_breaker_logic.py:182-202 | The cache decides alone exactly on an entry not from the future that has been CLOSED for less than the closed TTL, or OPEN for less than the recovery and not past it. |
| `ToolBreakerStore.Store.TryAcquireProbeLease` | arbiter/governance/tool_breaker_store.py:324-366 | The lease is won, and then held, exactly if the write was answered and its condition held; a lost answer looks like a refusal. |
| `ToolBreakerStore.Store.TransitionFromProbe` | arbiter/governance/tool_breaker_store.py:368-408 | The end of a probe: undisturbed, it leaves the row CLOSED with its count at 0, or OPEN since this reading, and one finding; in any case at most one finding, and one that is in the history. |
| `ToolBreakerStore.Store.ObserveSuccess` | arbiter/governance/tool_breaker_store.py:276-287 | Nothing is written on the CLOSED path; a healthy probe, undisturbed, leaves exactly the stated row and finding. |
| `ToolBreakerStore.Store.ObserveFailure` | arbiter/governance/tool_breaker_store.py:289-307 | Transient failures and timeouts count, throttling if so configured, all others write nothing, on a probe too, whose lease is left to run out; undisturbed, a counted failure counts, rolls or opens exactly as stated. |
| `ToolBreakerStore.Store.CountAndMaybeOpen` | arbiter/governance/tool_breaker_store.py:410-459 | Counting and opening under interleaving; undisturbed, the row and finding that one more failure makes. |
| `ToolBreakerStore.Store.IncrementFailure` | arbiter/governance/tool_breaker_store.py:461-518 | The reply is the row the applied write left, from the increment or from the window roll. |
| `GovernanceEngine.Engine.constructor` | arbiter/governance/engine.py:81-113 | Every index answers as a scan of the list would: buckets in order, the contract last listed for the unordered pair, case law stably sorted. |
| `GovernanceIndexes.FirstMatchGoverns` | arbiter/governance/engine.py:659-670 | The first hit of the sorted case law is the entry of highest precedence, the earliest among equals; none exactly if none matches. |
| `GovernanceIndexes.ByPrecedenceSorts` | arbiter/governance/engine.py:106-108 | The sorted case law falls in precedence and is a permutation of the given list. |
| `GovernanceIndexes.SelectTightest` | arbiter/governance/engine.py:210-223 | The selected unit is one that no other beats in specificity, then in id order; of several such the first listed. |
| `GovernanceEngine.Engine.FindCoveringUnits` | arbiter/governance/engine.py:191-204 | The indexed lookup finds what a full scan finds, in the same order: as a set, exactly the covering units in force. |
| `GovernanceEngine.Engine.OnlyThePairCounts` | arbiter/governance/engine.py:229-292 | The governing contract is that of the pair of agents; the fallback to the pair of domains never finds one. |
| `GovernanceEngine.Engine.IsStateConfirmed` | arbiter/governance/engine.py:621-653 | State is confirmed exactly when no condition or limit of the unit or the contract is flagged. |
| `GovernanceEngine.DispatchArbitrates` | arbiter/governance/engine.py:371-563 | For a covered requester the three patterns decide as one table says, and cite the contract they apply. |
| `GovernanceEngine.Engine.EvaluateComposition` | arbiter/governance/engine.py:294-367 | With a contract for the pair, its pattern decides and the finding cites it; without one there is no result. |
| `GovernanceEngine.Engine.ConstitutionalReview` | arbiter/governance/engine.py:691-768 | A permit stands exactly if every rule passes; otherwise the first rule that does not pass denies it, or raises if its values cannot be compared. |
| `GovernanceEngine.Engine.Evaluate` | arbiter/governance/engine.py:119-185 | The outcome is what the declarative policy proposes, reviewed; and the finding truthfully cites case, unit and contract. |
| `GovernanceEngine.PermitIffPolicyPermits` | arbiter/governance/engine.py:119-185 | A request is permitted exactly if no rule objects and the governing case law, or the leading covering unit together with the contract, permits it; for any lists. |
| `GovernanceEngine.AuthorityDecides` | arbiter/governance/engine.py:119-208 | Every permit that case law does not grant rests on a unit of the requester or of everybody that is neither revoked nor expired, matches action and domain, whose conditions the context meets and whose limits it does not exceed; without such a unit and without case law the answer is a residual denial; with one, no contract and no objecting rule, a permit. |
| `GovernancePolicy.MayActIffCovers` | arbiter/governance/models.py:62-79 | Covering, in the terms of the context: wildcards, conditions by equality, an absent entry as None, and limits as upper bounds on numbers alone. |
| `GovernancePolicy.AttributesAreMatched` | arbiter/governance/engine.py:673-689 | A case-law pattern over the six attributes matches exactly the requests that have them. |
| `GovernancePolicy.ContextIsMatched` | arbiter/governance/engine.py:673-689 | A pattern over any other key asks the context, and an empty one matches everything. |
| `GovernancePolicy.RulesInWords` | arbiter/governance/engine.py:719-751 | What each operator of a constitutional rule asks of an absent, a numeric and a textual entry, and when the comparison raises. |
| `GovernanceModels.LexIsDictionaryOrder` | arbiter/governance/engine.py:210-227 | Texts are compared as in a dictionary. |
| `GovernanceEngine.DecisionIgnoresUnitOrder` | arbiter/governance/engine.py:88-109 | With distinct unit ids, the decision depends on the set of units, not on their order or repetition. |
| `GovernancePolicy.OneProposal` | arbiter/governance/engine.py:210-223 | The policy proposes one decision, for any lists. |
| `GovernancePolicy.SharedIdsMakeOrderMatter` | arbiter/governance/engine.py:210-223 | Distinct ids are needed for the order not to matter: two units that share an id, listed in the one order or the other, lead to a denial or a permit. |
| `GovernancePolicy.AmbiguousUnits` | arbiter/governance/engine.py:621-653 | Such units exist, for any agent and any two keys. |
| `CompensationTemplate.ParsePathSegments` | arbiter/common/compensation_template.py:127-157 | The scanning loop returns well-formed segments whose text is the path, or fails as malformed exactly when no list of segments has that text. |
| `TemplateGrammar.ScanIffPrinted` | arbiter/common/compensation_template.py:127-157 | A text scans to a list of segments exactly if it is the text of that list: accepted paths are consumed whole and read unambiguously. |
| `TemplateGrammar.AcceptedIsPathUnlessNewline` | arbiter/common/compensation_template.py:101 | What the path expression accepts is a path exactly if it does not end in a newline. |
| `CompensationTemplate.ResolvePath` | arbiter/common/compensation_template.py:190-235 | The lookup loop walks the segments, with output checks before path checks before lookups. |
| `TemplateLookup.SegmentsInWords` | arbiter/common/compensation_template.py:100-106 | Keys are ASCII identifiers and indices are digits; exactly these may stand in a path. |
| `TemplateLookup.DecimalReadsBack` | arbiter/common/compensation_template.py:142-152 | An index in decimal digits is read as that number ... |
| `TemplateLookup.LeadingZero` | arbiter/common/compensation_template.py:142-152 | ... and leading zeros change nothing. |
| `TemplateLookup.IndexLeadsToElement` | arbiter/common/compensation_template.py:193-240 | A path one index longer leads to exactly the element at that position of the array the shorter one leads to, is out of range exactly from the length on, and fails on anything but an array. |
| `TemplateLookup.KeyLeadsToMember` | arbiter/common/compensation_template.py:193-240 | A path one key longer leads to the value of that key, and is missing exactly if no entry has it. |
| `TemplateLookup.RootLeadsToOutput` | arbiter/common/compensation_template.py:159-190 | The bare root leads to the recorded output, unless that is absent, flagged as truncated, or flagged or marked as kept elsewhere, in this order. |
| `TemplateLookup.WholeTokenIsItsValue` | arbiter/common/compensation_template.py:249-262 | A string that is one token and no more becomes what its path leads to, with its type, unless that is an object or an array. |
| `TemplateLookup.TextSpellsValue` | arbiter/common/compensation_template.py:264-281 | How a value is spelled inside a text: integers in decimal digits that read back, and the rest as Python prints it. |
| `CompensationTemplate.RenderStringValue` | arbiter/common/compensation_template.py:238-281 | The interpolation loop equals the specification: no token, one whole token with its type kept, or spliced text. |
| `TemplateGuarantees.ValidIffEveryOpeningIsGood` | arbiter/common/workflow_contract.py:120-142 | A string is accepted exactly if every opening brace pair begins a token with an accepted path. |
| `TemplateGuarantees.StringFailsAtFirstBadToken` | arbiter/common/compensation_template.py:238-281 | A string renders exactly if all its tokens resolve, and otherwise fails as its first bad token does. |
| `TemplateGuarantees.MalformedIffNewline` | arbiter/common/compensation_template.py:101 | Against a usable output an accepted token fails as malformed exactly when its body ends in a newline. |
| `TemplateGuarantees.AcceptedNeverMalformed` | arbiter/common/workflow_contract.py:120-150 | An accepted template without newline-terminated tokens never fails as malformed, only on lookup. |
| `TemplateGuarantees.AcceptedYetMalformed` | arbiter/common/compensation_template.py:101 | A template that is accepted and fails as malformed against every usable output. |
| `TemplateGuarantees.RenderFailsAtALeaf` | arbiter/common/compensation_template.py:301-310 | A template renders exactly if all its string leaves do, and otherwise fails as one of them does. |
| `TemplateGuarantees.RenderedInPlace` | arbiter/common/compensation_template.py:301-310 | Every part of the template becomes its own rendering in the same place: shape, keys, lengths and all leaves but strings with tokens are kept. |
| `TemplateGuarantees.NothingIsAdded` | arbiter/common/compensation_template.py:301-310 | The rendering has exactly the positions the template has. |
| `TemplateGuarantees.TokenlessIsUnchanged` | arbiter/common/compensation_template.py:249-251 | A template without tokens renders to itself against any output, absent ones included. |
| `TemplateGuarantees.InterpolationKeepsLiterals` | arbiter/common/compensation_template.py:264-281 | Template and rendering are the same literals, in order, woven with the tokens and with their values. |
| `ToolApproval.CanonicalIffMerged` | arbiter/governance/tool_approval.py:103-113 | Two tuples have the same canonical text exactly if they agree after joining adjacent surrogate pairs. |
| `JsonAscii.QuotedIsReadable` | arbiter/governance/tool_approval.py:103-113 | An escaped JSON string can be read back, up to that joining, and says where it ends. |
| `JsonAscii.QuotedReadsBack` | arbiter/governance/tool_approval.py:103-113 | A JSON reader (section 7 of RFC 8259) gets the string back, up to that joining, from printable ASCII that ends at the closing quote. |
| `JsonAscii.EscapesInWords` | arbiter/governance/tool_approval.py:103-113 | Printable ASCII stands for itself but for the quote and the backslash, seven characters have two-character escapes, and all others four lower-case digits. |
| `JsonAscii.MergeKeeps` | arbiter/governance/tool_approval.py:103-113 | Joining changes a text exactly if a high surrogate stands right before a low one. |
| `ToolApproval.SameMarkerIffMerged` | arbiter/governance/tool_approval.py:116-126 | Under an injective hash, well-formed tuples never share a grant or a marker. |
| `ToolApproval.SplitPairsShareAMarker` | arbiter/governance/tool_approval.py:103-113 | Two different, not well-formed tuples that do. |
| `ToolApproval.GrantsAndMarkersAreApart` | arbiter/governance/tool_approval.py:84-88 | No grant id is a consumption id, whatever the hash. |
| `ToolApproval.SharedIdIsNotSharedAuthority` | arbiter/governance/tool_approval.py:224-261 | A grant is honoured only for the tuple it names, even where ids coincide. |
| `ToolApproval.GrantLivesUntilExpiry` | arbiter/governance/tool_approval.py:224-261 | A grant is honoured for exactly its scope and exactly until its expiry; nothing else ever is. |
| `ToolApproval.ApprovalTable.Consume` | arbiter/governance/tool_approval.py:269-321 | First write wins: nothing stored changes, the winner is recorded, a refusal means there was a marker. |
| `ToolApproval.AtMostOneWinner` | arbiter/governance/tool_approval.py:269-321 | Of all claims on one marker, in any order and under any losses, at most one returns true. |
| `ToolApproval.OneWinnerPerApproval` | arbiter/governance/tool_approval.py:269-321 | Hence at most one claim on one tuple returns true, whatever the hash. |
| `ToolApproval.WinnerIsRecorded` | arbiter/governance/tool_approval.py:269-321 | The winner's marker stays as written. |
| `ToolApproval.RefusedOnlyIfClaimed` | arbiter/governance/tool_approval.py:269-321 | A claim on a well-formed tuple is refused only because that very tuple was claimed before. |
| `TransientRetry.CallWithTransientRetry` | arbiter/fabricator/transient_retry.py:115-182 | At most the given number of calls, none begun inside the margin, only auto-retryable failures retried, the last failure raised unchanged; on an exact clock with punctual sleeps only the first checkpoint can trip. |
| `TransientRetry.CalculateBackoff` | arbiter/fabricator/transient_retry.py:51-63 | The drawn delay lies between zero and both ceilings. |
| `TransientRetry.CeilingDoubles` | arbiter/fabricator/transient_retry.py:51-63 | The ceiling starts at the base and doubles with each attempt until it reaches the maximum. |
| `TransientRetry.DrawScales` | arbiter/fabricator/transient_retry.py:51-63 | The delay is the drawn part of the ceiling, from none to all of it. |
| `FailureTaxonomy.RetriedIffHealthSignal` | arbiter/common/failure_taxonomy.py:97-124 | What is retried without a human is exactly what may count against a target's health; only an absent approval waits for a human. |
| `FabricationDeadline.FittingWorkLeavesTheMargin` | arbiter/fabricator/deadline.py:93-137 | On an exact clock a backoff that fits leaves the next checkpoint passing, for any margin. |
| `FabricationDeadline.WholeMillisecondsDoNot` | arbiter/fabricator/deadline.py:93-137 | On a clock that rounds down to whole milliseconds it need not. |
| `FabricationDeadline.WholeMillisecondsDoIff` | arbiter/fabricator/deadline.py:93-137 | The exact condition there: wherever within its millisecond the clock stands, a backoff leaves the next checkpoint passing exactly if the reading less the backoff, rounded down to whole milliseconds and not below 0, is above the margin. |
| `FabricationDeadline.FitsIfMoreIsLeft` | arbiter/fabricator/deadline.py:93-137 | A backoff fits exactly if it leaves more than the margin of what is left, and always without a clock. |
| `FabricationDeadline.Deadline.Check` | arbiter/fabricator/deadline.py:121-137 | Passes outside the margin and leaves the latch; inside, latches where. |

## Left out

- CompensationTemplate.ParsePathSegments: takes a path that starts with the root name, as the expression guarantees before the call; digits are the ASCII ones, not every Unicode decimal digit, and an index of more than 4300 digits, for which Python's `int()` raises a ValueError of its own, is a number here.
- Watchdog.ExecutionRow.InvokeNode: whether a node's policy retries the refusal's text is given as its retry limit; a park write that fails, and a failure report for a node without a record, which raises, leave everything as it is here.
- Watchdog.ExecutionRow.RepairEdges: which conditional edges are false is given, their evaluation is left out; a mark on a node without a record, which raises in the code, is dropped.
- Watchdog.ExecutionRow.Reconcile: other workers are not interleaved between the repair and the scheduling pass; `WorkflowRun` has those interleavings.
- Watchdog.FlipsAreBounded: speaks of sweeps that do not overlap and of a retry count that nobody lowers; overlapping sweeps, and the step runner's failure handler, write that count from readings of their own that may be outdated, and with them there is no such bound.
- TransientRetry.CallWithTransientRetry: takes each fault's failure class as given; how exception names map to classes is a table.
- ToolBreakerStore.Store.Emit: a failing emission callback is not modelled; a worker that dies before emitting is.
- Deletion of ledger and breaker rows by their time to live; the guarantees speak of rows that stay.
- The bypass mode of the ledger, forged result pointers and the organisation check on them.
- Compensation runs, and the denial of an approval other than as a failure report.
- The execution-level bookkeeping around a node failure other than status, record and event.
- The collaborative arbitration pattern: no value of the conflict-resolution type selects it.
- Case-law patterns that name the request's dictionary-valued attributes, dictionary or list context values, and NaN.
- Repeated clock readings within one governance evaluation: one reading serves the whole evaluation.
- Approval expiry values that parse to infinity or NaN, and the retention attribute beyond its value.
- DynamoDB, S3, SQS, EventBridge and metrics plumbing, marshalling, retries inside the AWS client, and log lines.
