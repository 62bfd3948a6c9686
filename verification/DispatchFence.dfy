/**
 The dispatch-generation fence: ledger rows under any number of keys, next to the execution row
 whose per-node generation counter every fresh fenced reservation is checked against.
 */
module DispatchFence {
  import opened Common
  import opened Graph
  import opened Dag
  import LedgerRows
  import WorkflowRun

  type Key = string

  /** A worker's reservation attempt: the key, the node it works for, the generation it carries. */
  datatype Claim = Claim(key: Key, node: Id, generation: nat)

  /** What happened, in order. */
  datatype Entry =
    | Dispatched(node: Id, generation: nat)
    | FreshGrant(claim: Claim)
    | Attempted(claim: Claim)                              // passed the fence, and found the key taken
    | TakenOver(claim: Claim)

  /** `holders` tells whom each row was last granted to; `resolving` are the attempts still to be resolved. */
  datatype State = State(
    run: WorkflowRun.State,
    rows: map<Key, LedgerRows.Row>,
    holders: map<Key, Claim>,
    resolving: multiset<Claim>,
    log: seq<Entry>)

  datatype Event =
    | RunEvent(e: WorkflowRun.Event)
    | Reserve(claim: Claim, now: real)                     // put and fence check in one transaction
    | TakeStale(claim: Claim, seen: int, now: real)        // outside the transaction
    | TakeReleased(claim: Claim, now: real)
    | Finish(key: Key, status: LedgerRows.Status, content: LedgerRows.Content)
    | GiveBack(key: Key)

  function RowAt(s: State, key: Key): Option<LedgerRows.Row> {
    if key in s.rows then Some(s.rows[key]) else None
  }

  /** nodeResults.<node>.dispatchGeneration; 0 while the counter is absent, before the first dispatch. */
  function Generation(run: WorkflowRun.State, node: Id): nat {
    if node in run.generation then run.generation[node] else 0
  }

  function Put(s: State, key: Key, row: Option<LedgerRows.Row>): State {
    if row.Some? then s.(rows := s.rows[key := row.value]) else s
  }

  /** The fence: an absent counter equals no generation at all. */
  predicate PassesFence(run: WorkflowRun.State, claim: Claim) {
    Generation(run, claim.node) == claim.generation != 0
  }

  /** The transaction: both conditions hold and the row is put, or no row changes. */
  function ReserveFenced(s: State, claim: Claim, now: real): State {
    var put := LedgerRows.PutNew(RowAt(s, claim.key), now);
    if !PassesFence(s.run, claim) then s
    else if put.None? then s.(resolving := s.resolving + multiset{claim}, log := s.log + [Attempted(claim)])
    else Put(s, claim.key, put).(holders := s.holders[claim.key := claim], log := s.log + [FreshGrant(claim)])
  }

  function TakeOver(s: State, claim: Claim, row: Option<LedgerRows.Row>): State {
    if claim in s.resolving && row.Some?
    then Put(s, claim.key, row).(holders := s.holders[claim.key := claim], log := s.log + [TakenOver(claim)],
                                 resolving := s.resolving - multiset{claim})
    else s
  }

  ghost function StepRun(nodes: seq<Id>, edges: seq<Edge>, s: State, e: WorkflowRun.Event): State {
    var run := WorkflowRun.Step(nodes, edges, s.run, e);
    if Generation(run, e.node) == Generation(s.run, e.node) then s.(run := run)
    else s.(run := run, log := s.log + [Dispatched(e.node, Generation(run, e.node))])
  }

  ghost function Step(nodes: seq<Id>, edges: seq<Edge>, s: State, e: Event): State {
    match e
    case RunEvent(r) => StepRun(nodes, edges, s, r)
    case Reserve(claim, now) => ReserveFenced(s, claim, now)
    case TakeStale(claim, seen, now) =>
      TakeOver(s, claim, LedgerRows.TakeStale(RowAt(s, claim.key), seen, now))
    case TakeReleased(claim, now) =>
      TakeOver(s, claim, LedgerRows.TakeReleased(RowAt(s, claim.key), now))
    case Finish(key, status, content) => Put(s, key, LedgerRows.Finish(RowAt(s, key), status, content))
    case GiveBack(key) => Put(s, key, LedgerRows.Release(RowAt(s, key)))
  }

  ghost function After(nodes: seq<Id>, edges: seq<Edge>, events: seq<Event>): State {
    if events == [] then State(WorkflowRun.Start(nodes), map[], map[], multiset{}, [])
    else Step(nodes, edges, After(nodes, edges, events[..|events| - 1]), events[|events| - 1])
  }

  /** The generation of the last dispatch of `node` in a log; 0 before the first. */
  function LastDispatch(log: seq<Entry>, node: Id): nat {
    if log == [] then 0
    else
      var last := log[|log| - 1];
      if last.Dispatched? && last.node == node then last.generation else LastDispatch(log[..|log| - 1], node)
  }

  /**
   Dispatches count up one by one, fresh grants and attempts carry the generation of the last
   dispatch, and whoever takes a row over has attempted to reserve it before.
   */
  predicate Follows(log: seq<Entry>, entry: Entry) {
    match entry
    case Dispatched(node, g) => g == LastDispatch(log, node) + 1
    case FreshGrant(claim) => claim.generation == LastDispatch(log, claim.node)
    case Attempted(claim) => claim.generation == LastDispatch(log, claim.node)
    case TakenOver(claim) => Attempted(claim) in log
  }

  ghost predicate InStep(log: seq<Entry>) {
    forall i :: 0 <= i < |log| ==> Follows(log[..i], log[i])
  }

  lemma LogGrows(log: seq<Entry>, entry: Entry)
    requires InStep(log) && Follows(log, entry)
    ensures InStep(log + [entry])
    ensures forall node :: (LastDispatch(log + [entry], node)
      == if entry.Dispatched? && entry.node == node then entry.generation else LastDispatch(log, node))
  {
    var longer := log + [entry];
    assert longer[..|log|] == log;
    forall i | 0 <= i < |log|
      ensures longer[..i] == log[..i]
    {
    }
  }

  ghost predicate Fenced(s: State) {
    && InStep(s.log)
    && (forall node :: LastDispatch(s.log, node) == Generation(s.run, node))
    && (forall claim :: claim in s.resolving ==> Attempted(claim) in s.log)
  }

  /** A step that appends an entry in step keeps the fence, if run and attempts follow the log. */
  lemma FencedAppend(s: State, s': State, entry: Entry)
    requires Fenced(s) && Follows(s.log, entry) && s'.log == s.log + [entry]
    requires forall node :: (Generation(s'.run, node)
      == if entry.Dispatched? && entry.node == node then entry.generation else Generation(s.run, node))
    requires forall claim :: claim in s'.resolving ==> claim in s.resolving || entry == Attempted(claim)
    ensures Fenced(s')
  {
    LogGrows(s.log, entry);
    hide InStep, LastDispatch, Follows;
    assert s'.log[|s.log|] == entry;
  }

  lemma FencedRun(nodes: seq<Id>, edges: seq<Edge>, s: State, e: WorkflowRun.Event)
    requires Fenced(s)
    ensures Fenced(StepRun(nodes, edges, s, e))
  {
    var s' := StepRun(nodes, edges, s, e);
    CountsUp(nodes, edges, s.run, e);
    hide InStep, WorkflowRun.Step;
    if s'.log != s.log {
      FencedAppend(s, s', Dispatched(e.node, Generation(s'.run, e.node)));
    }
  }

  lemma FencedReserve(s: State, claim: Claim, now: real)
    requires Fenced(s)
    ensures Fenced(ReserveFenced(s, claim, now))
  {
    hide InStep, LastDispatch;
    var s' := ReserveFenced(s, claim, now);
    if s'.log != s.log {
      FencedAppend(s, s', if RowAt(s, claim.key).None? then FreshGrant(claim) else Attempted(claim));
    }
  }

  lemma FencedTake(s: State, claim: Claim, row: Option<LedgerRows.Row>)
    requires Fenced(s)
    ensures Fenced(TakeOver(s, claim, row))
  {
    hide InStep, LastDispatch;
    if claim in s.resolving && row.Some? {
      FencedAppend(s, TakeOver(s, claim, row), TakenOver(claim));
    }
  }

  lemma FencedKept(nodes: seq<Id>, edges: seq<Edge>, s: State, e: Event)
    requires Fenced(s)
    ensures Fenced(Step(nodes, edges, s, e))
  {
    hide InStep, LastDispatch, StepRun, ReserveFenced, TakeOver;
    match e
    case RunEvent(r) => FencedRun(nodes, edges, s, r);
    case Reserve(claim, now) => FencedReserve(s, claim, now);
    case TakeStale(claim, seen, now) =>
      FencedTake(s, claim, LedgerRows.TakeStale(RowAt(s, claim.key), seen, now));
    case TakeReleased(claim, now) =>
      FencedTake(s, claim, LedgerRows.TakeReleased(RowAt(s, claim.key), now));
    case _ =>
  }

  /** Only a won dispatch moves a generation, and it moves its own node's by one. */
  lemma CountsUp(nodes: seq<Id>, edges: seq<Edge>, s: WorkflowRun.State, e: WorkflowRun.Event)
    ensures var s' := WorkflowRun.Step(nodes, edges, s, e);
      && (forall node :: node != e.node ==> Generation(s', node) == Generation(s, node))
      && (Generation(s', e.node) == Generation(s, e.node)
          || (e.Dispatch? && Generation(s', e.node) == Generation(s, e.node) + 1))
  {
  }

  lemma {:induction false} AlwaysFenced(nodes: seq<Id>, edges: seq<Edge>, events: seq<Event>)
    ensures Fenced(After(nodes, edges, events))
  {
    if events != [] {
      AlwaysFenced(nodes, edges, events[..|events| - 1]);
      FencedKept(nodes, edges, After(nodes, edges, events[..|events| - 1]), events[|events| - 1]);
    }
  }

  lemma {:induction false} DispatchesGrow(log: seq<Entry>, i: nat, j: nat, node: Id)
    requires InStep(log) && i <= j <= |log|
    ensures LastDispatch(log[..i], node) <= LastDispatch(log[..j], node)
    decreases j
  {
    if i < j {
      DispatchesGrow(log, i, j - 1, node);
      assert log[..j][..j - 1] == log[..j - 1];
      assert Follows(log[..j - 1], log[j - 1]);
    }
  }

  /**
   Under any keys and in any interleaving, a fresh reservation carries the generation of the last
   dispatch of its node: none granted after a dispatch is older, none granted before is as new.
   */
  lemma FreshGrantsFollowDispatches(nodes: seq<Id>, edges: seq<Edge>, events: seq<Event>, i: nat, j: nat)
    requires i < |After(nodes, edges, events).log| && After(nodes, edges, events).log[i].Dispatched?
    requires j < |After(nodes, edges, events).log| && After(nodes, edges, events).log[j].FreshGrant?
    requires After(nodes, edges, events).log[i].node == After(nodes, edges, events).log[j].claim.node
    ensures var log := After(nodes, edges, events).log;
      && (i < j ==> log[j].claim.generation >= log[i].generation)
      && (j < i ==> log[j].claim.generation < log[i].generation)
  {
    var log := After(nodes, edges, events).log;
    AlwaysFenced(nodes, edges, events);
    assert Follows(log[..i], log[i]) && Follows(log[..j], log[j]);
    if i < j {
      DispatchesGrow(log, i + 1, j, log[i].node);
      assert log[..i + 1][..i] == log[..i];
    } else {
      DispatchesGrow(log, j, i, log[i].node);
    }
  }

  lemma AfterStep(nodes: seq<Id>, edges: seq<Edge>, events: seq<Event>, e: Event)
    ensures After(nodes, edges, events + [e]) == Step(nodes, edges, After(nodes, edges, events), e)
  {
    assert (events + [e])[..|events|] == events;
  }

  // ---- Takeovers

  predicate DispatchOf(entry: Entry, node: Id) {
    entry.Dispatched? && entry.node == node
  }

  ghost predicate DispatchedBetween(log: seq<Entry>, i: nat, j: nat, node: Id)
    requires j <= |log|
  {
    exists d :: i <= d < j && DispatchOf(log[d], node)
  }

  lemma OneStepWider(log: seq<Entry>, i: nat, j: nat, node: Id)
    requires i < j <= |log|
    ensures DispatchedBetween(log, i, j, node) <==> DispatchedBetween(log, i, j - 1, node) || DispatchOf(log[j - 1], node)
  {
  }

  /** The last generation has moved between two points of the log exactly if the node was dispatched there. */
  lemma {:induction false} MovedIffDispatched(log: seq<Entry>, i: nat, j: nat, node: Id)
    requires InStep(log) && i <= j <= |log|
    ensures LastDispatch(log[..i], node) < LastDispatch(log[..j], node) <==> DispatchedBetween(log, i, j, node)
    decreases j
  {
    hide InStep, LastDispatch, DispatchOf;
    if i < j {
      hide DispatchedBetween;
      MovedIffDispatched(log, i, j - 1, node);
      DispatchesGrow(log, i, j - 1, node);
      OneEntryMore(log, j, node);
      OneStepWider(log, i, j, node);
    }
  }

  lemma OneEntryMore(log: seq<Entry>, j: nat, node: Id)
    requires InStep(log) && 0 < j <= |log|
    ensures LastDispatch(log[..j], node)
         == LastDispatch(log[..j - 1], node) + if DispatchOf(log[j - 1], node) then 1 else 0
  {
    assert log[..j][..j - 1] == log[..j - 1];
    assert Follows(log[..j - 1], log[j - 1]);
  }

  /**
   Every takeover follows an attempt of the same claim that passed the fence. It never carries a
   generation that was not dispatched yet; and it carries an old one exactly if its node was
   dispatched again between the attempt and the takeover.
   */
  lemma TakeoversFollowAttempts(nodes: seq<Id>, edges: seq<Edge>, events: seq<Event>, t: nat)
    requires t < |After(nodes, edges, events).log| && After(nodes, edges, events).log[t].TakenOver?
    ensures var log := After(nodes, edges, events).log;
      var claim := log[t].claim;
      && claim.generation <= LastDispatch(log[..t], claim.node)
      && (exists a :: 0 <= a < t && log[a] == Attempted(claim))
      && (forall a :: 0 <= a < t && log[a] == Attempted(claim) ==>
            (claim.generation < LastDispatch(log[..t], claim.node) <==> DispatchedBetween(log, a + 1, t, claim.node)))
  {
    var log := After(nodes, edges, events).log;
    var claim := log[t].claim;
    AlwaysFenced(nodes, edges, events);
    hide After, LastDispatch, DispatchedBetween;
    AttemptedBefore(log, t);
    hide InStep;
    forall a | 0 <= a < t && log[a] == Attempted(claim)
      ensures claim.generation <= LastDispatch(log[..t], claim.node)
      ensures claim.generation < LastDispatch(log[..t], claim.node) <==> DispatchedBetween(log, a + 1, t, claim.node)
    {
      AttemptTells(log, a, t);
    }
  }

  lemma AttemptedBefore(log: seq<Entry>, t: nat)
    requires InStep(log) && t < |log| && log[t].TakenOver?
    ensures exists a :: 0 <= a < t && log[a] == Attempted(log[t].claim)
  {
    hide LastDispatch;
    assert Follows(log[..t], log[t]);
    var a :| 0 <= a < t && log[..t][a] == Attempted(log[t].claim);
    assert log[a] == Attempted(log[t].claim);
  }

  lemma AttemptTells(log: seq<Entry>, a: nat, t: nat)
    requires InStep(log) && a < t <= |log| && log[a].Attempted?
    ensures var claim := log[a].claim;
      && claim.generation <= LastDispatch(log[..t], claim.node)
      && (claim.generation < LastDispatch(log[..t], claim.node) <==> DispatchedBetween(log, a + 1, t, claim.node))
  {
    var node := log[a].claim.node;
    assert Follows(log[..a], log[a]);
    DispatchesGrow(log, a + 1, t, node);
    OneEntryMore(log, a + 1, node);
    MovedIffDispatched(log, a + 1, t, node);
    hide InStep, LastDispatch, DispatchedBetween;
  }

  /** Each attempt takes a row over at most once: those not used yet are still to be resolved. */
  lemma {:induction false} AttemptsAreSpent(nodes: seq<Id>, edges: seq<Edge>, events: seq<Event>, claim: Claim)
    ensures var s := After(nodes, edges, events);
      multiset(s.log)[TakenOver(claim)] + s.resolving[claim] == multiset(s.log)[Attempted(claim)]
  {
    if events != [] {
      AttemptsAreSpent(nodes, edges, events[..|events| - 1], claim);
      SpentInStep(nodes, edges, After(nodes, edges, events[..|events| - 1]), events[|events| - 1], claim);
    }
  }

  /** Attempts of `claim` that took a row over, and those still to be resolved, are all of them. */
  ghost predicate Spent(s: State, claim: Claim) {
    multiset(s.log)[TakenOver(claim)] + s.resolving[claim] == multiset(s.log)[Attempted(claim)]
  }

  lemma OneEntry(log: seq<Entry>, entry: Entry, e: Entry)
    ensures multiset(log + [entry])[e] == multiset(log)[e] + if entry == e then 1 else 0
  {
  }

  lemma SpentStill(s: State, s': State, entry: Entry, claim: Claim)
    requires Spent(s, claim) && s'.log == s.log + [entry]
    requires s'.resolving[claim] + (if entry == TakenOver(claim) then 1 else 0)
          == s.resolving[claim] + (if entry == Attempted(claim) then 1 else 0)
    ensures Spent(s', claim)
  {
    OneEntry(s.log, entry, TakenOver(claim));
    OneEntry(s.log, entry, Attempted(claim));
  }

  lemma SpentReserve(s: State, c: Claim, now: real, claim: Claim)
    requires Spent(s, claim)
    ensures Spent(ReserveFenced(s, c, now), claim)
  {
    hide Spent, LedgerRows.PutNew;
    var s' := ReserveFenced(s, c, now);
    if s'.log != s.log {
      SpentStill(s, s', s'.log[|s.log|], claim);
    } else {
      SameSpent(s, s', claim);
    }
  }

  lemma SameSpent(s: State, s': State, claim: Claim)
    requires Spent(s, claim) && s'.log == s.log && s'.resolving == s.resolving
    ensures Spent(s', claim)
  {
  }

  lemma SpentTake(s: State, c: Claim, row: Option<LedgerRows.Row>, claim: Claim)
    requires Spent(s, claim)
    ensures Spent(TakeOver(s, c, row), claim)
  {
    hide Spent;
    if c in s.resolving && row.Some? { SpentStill(s, TakeOver(s, c, row), TakenOver(c), claim); }
  }

  lemma SpentInStep(nodes: seq<Id>, edges: seq<Edge>, s: State, e: Event, claim: Claim)
    requires Spent(s, claim)
    ensures Spent(Step(nodes, edges, s, e), claim)
  {
    hide WorkflowRun.Step, Spent, ReserveFenced, TakeOver;
    match e
    case RunEvent(r) =>
      var s' := StepRun(nodes, edges, s, r);
      if s'.log != s.log { SpentStill(s, s', s'.log[|s.log|], claim); } else { SameSpent(s, s', claim); }
    case Reserve(c, now) => SpentReserve(s, c, now, claim);
    case TakeStale(c, seen, now) => SpentTake(s, c, LedgerRows.TakeStale(RowAt(s, c.key), seen, now), claim);
    case TakeReleased(c, now) => SpentTake(s, c, LedgerRows.TakeReleased(RowAt(s, c.key), now), claim);
    case _ => SameSpent(s, Step(nodes, edges, s, e), claim);
  }

  // ---- Only the current generation holds

  /** The row is in flight under a grant to a worker of `node`. */
  predicate HeldFor(s: State, key: Key, node: Id) {
    LedgerRows.Running(RowAt(s, key)) && key in s.holders && s.holders[key].node == node
  }

  /** The rows in flight for `node` are all held by workers of its current generation. */
  ghost predicate OnlyCurrent(s: State, node: Id) {
    forall key :: HeldFor(s, key, node) ==> s.holders[key].generation == Generation(s.run, node)
  }

  /** The step dispatches `node` while a row is still in flight for it. */
  ghost predicate LeavesBehind(nodes: seq<Id>, edges: seq<Edge>, s: State, e: Event, node: Id) {
    Generation(Step(nodes, edges, s, e).run, node) != Generation(s.run, node) && exists key :: HeldFor(s, key, node)
  }

  /** The step lets a worker of an earlier generation of `node` take a row over. */
  ghost predicate TakesBehind(nodes: seq<Id>, edges: seq<Edge>, s: State, e: Event, node: Id) {
    (e.TakeStale? || e.TakeReleased?) && e.claim.node == node && e.claim.generation < Generation(s.run, node)
    && Step(nodes, edges, s, e).log != s.log
  }

  /** An attempt that is still to be resolved is at most as new as its node. */
  lemma ResolvingTrails(s: State, claim: Claim)
    requires Fenced(s) && claim in s.resolving
    ensures claim.generation <= Generation(s.run, claim.node)
  {
    var a :| 0 <= a < |s.log| && s.log[a] == Attempted(claim);
    assert Follows(s.log[..a], s.log[a]);
    assert s.log[..|s.log|] == s.log;
    DispatchesGrow(s.log, a, |s.log|, claim.node);
  }

  lemma TakesKeep(nodes: seq<Id>, edges: seq<Edge>, s: State, e: Event, node: Id)
    requires Fenced(s) && OnlyCurrent(s, node) && (e.TakeStale? || e.TakeReleased?)
    ensures OnlyCurrent(Step(nodes, edges, s, e), node) <==> !TakesBehind(nodes, edges, s, e, node)
  {
    var s' := Step(nodes, edges, s, e);
    if s'.log != s.log {
      ResolvingTrails(s, e.claim);
      assert e.claim.node == node ==> HeldFor(s', e.claim.key, node);
      assert forall key :: key != e.claim.key ==> (HeldFor(s', key, node) <==> HeldFor(s, key, node));
    }
  }

  lemma RunKeeps(nodes: seq<Id>, edges: seq<Edge>, s: State, e: Event, node: Id)
    requires OnlyCurrent(s, node) && e.RunEvent?
    ensures OnlyCurrent(Step(nodes, edges, s, e), node) <==> !LeavesBehind(nodes, edges, s, e, node)
  {
    var s' := Step(nodes, edges, s, e);
    assert forall key :: HeldFor(s', key, node) <==> HeldFor(s, key, node);
  }

  lemma OthersKeep(nodes: seq<Id>, edges: seq<Edge>, s: State, e: Event, node: Id)
    requires OnlyCurrent(s, node) && (e.Reserve? || e.Finish? || e.GiveBack?)
    ensures OnlyCurrent(Step(nodes, edges, s, e), node)
  {
    var s' := Step(nodes, edges, s, e);
    assert forall key :: HeldFor(s', key, node) ==> HeldFor(s, key, node) || (e.Reserve? && key == e.claim.key);
  }

  lemma OnlyCurrentStep(nodes: seq<Id>, edges: seq<Edge>, s: State, e: Event, node: Id)
    requires Fenced(s) && OnlyCurrent(s, node)
    ensures OnlyCurrent(Step(nodes, edges, s, e), node)
      <==> !LeavesBehind(nodes, edges, s, e, node) && !TakesBehind(nodes, edges, s, e, node)
  {
    if e.TakeStale? || e.TakeReleased? {
      TakesKeep(nodes, edges, s, e, node);
    } else if e.RunEvent? {
      RunKeeps(nodes, edges, s, e, node);
    } else {
      OthersKeep(nodes, edges, s, e, node);
    }
  }

  /** A step after which an old generation still holds: it leaves a row behind, or a worker left behind takes one. */
  ghost predicate Behind(nodes: seq<Id>, edges: seq<Edge>, events: seq<Event>, k: nat, node: Id)
    requires k < |events|
  {
    var s := After(nodes, edges, events[..k]);
    LeavesBehind(nodes, edges, s, events[k], node) || TakesBehind(nodes, edges, s, events[k], node)
  }

  ghost predicate CurrentAt(nodes: seq<Id>, edges: seq<Edge>, events: seq<Event>, k: nat, node: Id)
    requires k <= |events|
  {
    OnlyCurrent(After(nodes, edges, events[..k]), node)
  }

  lemma CurrentStep(nodes: seq<Id>, edges: seq<Edge>, events: seq<Event>, k: nat, node: Id)
    requires k < |events| && CurrentAt(nodes, edges, events, k, node)
    ensures CurrentAt(nodes, edges, events, k + 1, node) <==> !Behind(nodes, edges, events, k, node)
  {
    hide After, Step, OnlyCurrent, LeavesBehind, TakesBehind, Fenced;
    AlwaysFenced(nodes, edges, events[..k]);
    AfterStep(nodes, edges, events[..k], events[k]);
    assert events[..k + 1] == events[..k] + [events[k]];
    OnlyCurrentStep(nodes, edges, After(nodes, edges, events[..k]), events[k], node);
  }

  lemma {:induction false} CurrentUntilBehind(nodes: seq<Id>, edges: seq<Edge>, events: seq<Event>, n: nat, node: Id)
    requires n <= |events| && forall k :: 0 <= k < n ==> !Behind(nodes, edges, events, k, node)
    ensures CurrentAt(nodes, edges, events, n, node)
  {
    if n == 0 {
      assert events[..0] == [] && !LedgerRows.Running(None);
    } else {
      CurrentUntilBehind(nodes, edges, events, n - 1, node);
      CurrentStep(nodes, edges, events, n - 1, node);
    }
  }

  /**
   All through a run only workers of a node's current generation hold rows, exactly if no dispatch
   of the node finds a row in flight for it and no worker of an earlier generation takes one over.
   */
  lemma OnlyCurrentIffNoneBehind(nodes: seq<Id>, edges: seq<Edge>, events: seq<Event>, node: Id)
    ensures (forall k :: 0 <= k <= |events| ==> CurrentAt(nodes, edges, events, k, node))
      <==> (forall k :: 0 <= k < |events| ==> !Behind(nodes, edges, events, k, node))
  {
    hide CurrentAt, Behind;
    forall k | 0 <= k < |events| && CurrentAt(nodes, edges, events, k, node)
      ensures CurrentAt(nodes, edges, events, k + 1, node) <==> !Behind(nodes, edges, events, k, node)
    {
      CurrentStep(nodes, edges, events, k, node);
    }
    if forall k :: 0 <= k < |events| ==> !Behind(nodes, edges, events, k, node) {
      forall n | 0 <= n <= |events|
        ensures CurrentAt(nodes, edges, events, n, node)
      {
        CurrentUntilBehind(nodes, edges, events, n, node);
      }
    } else {
      var k :| 0 <= k < |events| && Behind(nodes, edges, events, k, node);
      assert !CurrentAt(nodes, edges, events, k, node) || !CurrentAt(nodes, edges, events, k + 1, node);
    }
  }

  // ---- What the fence leaves open

  /** A single node after the dispatches and stall flips that its past results tell. */
  function Single(v: Id, generation: nat, views: seq<WorkflowRun.Results>): WorkflowRun.State
    requires views != []
  {
    WorkflowRun.State(views[|views| - 1], map[v := generation], views)
  }

  lemma SingleDispatch(v: Id, generation: nat, views: seq<WorkflowRun.Results>)
    requires views != [] && views[|views| - 1] == WorkflowRun.Only(v, Pending)
    ensures WorkflowRun.Step([v], [], Single(v, generation, views), WorkflowRun.Dispatch(WorkflowRun.Only(v, Pending), v))
         == Single(v, generation + 1, views + [WorkflowRun.Only(v, Running)])
  {
    assert WorkflowRun.Observed(Single(v, generation, views), WorkflowRun.Only(v, Pending));
    assert WorkflowRun.Only(v, Pending)[v := Running] == WorkflowRun.Only(v, Running);
  }

  lemma SingleFlip(v: Id, generation: nat, views: seq<WorkflowRun.Results>)
    requires views != [] && views[|views| - 1] == WorkflowRun.Only(v, Running)
    ensures WorkflowRun.Step([v], [], Single(v, generation, views), WorkflowRun.FlipStalled(v))
         == Single(v, generation, views + [WorkflowRun.Only(v, Pending)])
  {
    assert WorkflowRun.Only(v, Running)[v := Pending] == WorkflowRun.Only(v, Pending);
  }

  /** A worker of the first dispatch reserves `key`, a second claim on it waits, and the node is dispatched again. */
  function FenceRun(v: Id, key: Key): seq<Event> {
    [RunEvent(WorkflowRun.Dispatch(WorkflowRun.Only(v, Pending), v))]
    + [Reserve(Claim(key, v, 1), 0.0)] + [Reserve(Claim(key, v, 1), 0.0)]
    + [RunEvent(WorkflowRun.FlipStalled(v))] + [RunEvent(WorkflowRun.Dispatch(WorkflowRun.Only(v, Pending), v))]
  }

  function Views(v: Id): seq<WorkflowRun.Results> {
    [WorkflowRun.Only(v, Pending), WorkflowRun.Only(v, Running), WorkflowRun.Only(v, Pending), WorkflowRun.Only(v, Running)]
  }

  lemma FirstDispatch(v: Id)
    ensures After([v], [], [RunEvent(WorkflowRun.Dispatch(WorkflowRun.Only(v, Pending), v))])
         == State(Single(v, 1, Views(v)[..2]), map[], map[], multiset{}, [Dispatched(v, 1)])
  {
    var e := RunEvent(WorkflowRun.Dispatch(WorkflowRun.Only(v, Pending), v));
    AfterStep([v], [], [], e);
    assert [] + [e] == [e];
    assert WorkflowRun.Start([v]) == Single(v, 0, [WorkflowRun.Only(v, Pending)]) by {
      assert (map u | u in [v] :: Pending) == WorkflowRun.Only(v, Pending) && (map u: Id | u in [v] :: 0) == map[v := 0];
    }
    SingleDispatch(v, 0, [WorkflowRun.Only(v, Pending)]);
    assert [WorkflowRun.Only(v, Pending)] + [WorkflowRun.Only(v, Running)] == Views(v)[..2];
  }

  lemma TwoClaims(v: Id, key: Key, s: State)
    requires s == State(Single(v, 1, Views(v)[..2]), map[], map[], multiset{}, [Dispatched(v, 1)])
    ensures var claim := Claim(key, v, 1);
      Step([v], [], Step([v], [], s, Reserve(claim, 0.0)), Reserve(claim, 0.0))
      == s.(rows := map[key := LedgerRows.Row(LedgerRows.InFlight, 0, LedgerRows.Nothing)],
            holders := map[key := claim], resolving := multiset{claim},
            log := [Dispatched(v, 1), FreshGrant(claim), Attempted(claim)])
  {
  }

  lemma SecondDispatch(v: Id, s: State)
    requires s.run == Single(v, 1, Views(v)[..2])
    ensures Step([v], [], Step([v], [], s, RunEvent(WorkflowRun.FlipStalled(v))),
                 RunEvent(WorkflowRun.Dispatch(WorkflowRun.Only(v, Pending), v)))
         == s.(run := Single(v, 2, Views(v)), log := s.log + [Dispatched(v, 2)])
  {
    SingleFlip(v, 1, Views(v)[..2]);
    assert Views(v)[..2] + [WorkflowRun.Only(v, Pending)] == Views(v)[..3];
    SingleDispatch(v, 1, Views(v)[..3]);
    assert Views(v)[..3] + [WorkflowRun.Only(v, Running)] == Views(v);
  }

  lemma FenceRunEnds(v: Id, key: Key)
    ensures After([v], [], FenceRun(v, key))
      == State(Single(v, 2, Views(v)),
               map[key := LedgerRows.Row(LedgerRows.InFlight, 0, LedgerRows.Nothing)],
               map[key := Claim(key, v, 1)],
               multiset{Claim(key, v, 1)},
               [Dispatched(v, 1), FreshGrant(Claim(key, v, 1)), Attempted(Claim(key, v, 1)), Dispatched(v, 2)])
  {
    var first := [RunEvent(WorkflowRun.Dispatch(WorkflowRun.Only(v, Pending), v))];
    var claim := Reserve(Claim(key, v, 1), 0.0);
    FirstDispatch(v);
    AfterStep([v], [], first, claim);
    AfterStep([v], [], first + [claim], claim);
    TwoClaims(v, key, After([v], [], first));
    AfterStep([v], [], first + [claim] + [claim], RunEvent(WorkflowRun.FlipStalled(v)));
    AfterStep([v], [], first + [claim] + [claim] + [RunEvent(WorkflowRun.FlipStalled(v))], first[0]);
    SecondDispatch(v, After([v], [], first + [claim] + [claim]));
  }

  /** A takeover outside the transaction grants an old generation after the node was dispatched again. */
  lemma TakeoverEscapesFence(v: Id, key: Key) returns (events: seq<Event>)
    ensures After([v], [], events).log
         == [Dispatched(v, 1), FreshGrant(Claim(key, v, 1)), Attempted(Claim(key, v, 1)), Dispatched(v, 2),
             TakenOver(Claim(key, v, 1))]
  {
    FenceRunEnds(v, key);
    events := FenceRun(v, key) + [TakeStale(Claim(key, v, 1), 0, 901.0)];
    AfterStep([v], [], FenceRun(v, key), TakeStale(Claim(key, v, 1), 0, 901.0));
  }

  /**
   The fence stops reservations, not executions: a worker that reserved before its node was
   dispatched again still holds its row when the worker of the next generation, whose body came
   up with a different key, is granted one too.
   */
  lemma TwoGenerationsHold(v: Id, key: Key, other: Key) returns (events: seq<Event>)
    requires key != other
    ensures var s := After([v], [], events);
      && HeldFor(s, key, v) && s.holders[key].generation == 1
      && HeldFor(s, other, v) && s.holders[other].generation == 2
      && !OnlyCurrent(s, v)
  {
    FenceRunEnds(v, key);
    events := FenceRun(v, key) + [Reserve(Claim(other, v, 2), 1.0)];
    AfterStep([v], [], FenceRun(v, key), Reserve(Claim(other, v, 2), 1.0));
  }
}
