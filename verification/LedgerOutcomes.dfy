/** What calls that nobody disturbs come to: the failure matrix, and what later callers are told. */
module LedgerOutcomes {
  import opened Common
  import opened JsonValues
  import opened LedgerRows
  import opened LedgerProtocol
  import opened LedgerSafety

  /** A call that finds the key absent. A step that does not fit where the call stands by then changes nothing. */
  function FirstCall(call: nat, now: real, tool: ToolOutcome): seq<Event> {
    [Event(call, Start(now)), Event(call, Put(true, NoFault)), Event(call, Run(tool)),
     Event(call, Offload(NoFault)), Event(call, Settle(NoFault))]
  }

  /** A call that finds the key taken and reads value number `index` of the row. */
  function LaterCall(call: nat, now: real, index: nat): seq<Event> {
    [Event(call, Start(now)), Event(call, Put(true, NoFault)), Event(call, Read(index, NoFault)),
     Event(call, Fetch(NoFault))]
  }

  lemma AfterFour(cfg: Config, run: seq<Event>, a: Event, b: Event, c: Event, d: Event)
    ensures After(cfg, run + [a, b, c, d]) == Step(cfg, Step(cfg, Step(cfg, Step(cfg, After(cfg, run), a), b), c), d)
  {
    hide After, Step;
    AfterStep(cfg, run, a);
    AfterStep(cfg, run + [a], b);
    AfterStep(cfg, run + [a] + [b], c);
    AfterStep(cfg, run + [a] + [b] + [c], d);
    assert run + [a, b, c, d] == run + [a] + [b] + [c] + [d];
  }

  /** The reservation is granted and the tool has run. */
  lemma ReservedAndRun(cfg: Config, s: State, call: nat, now: real, tool: ToolOutcome)
    requires call !in s.pcs && s.row.None?
    ensures var s3 := Step(cfg, Step(cfg, Step(cfg, s, Event(call, Start(now))), Event(call, Put(true, NoFault))),
                           Event(call, Run(tool)));
      && s3.row == Some(Row(InFlight, Trunc(now), Nothing)) && s3.blob == s.blob
      && call in s3.pcs && s3.pcs[call] == RunPc(cfg, tool)
      && s3.tally.effects == s.tally.effects + (if tool.NotSent? && tool.retryable then 0 else 1)
  {
    hide RunPc;
    var s1 := At(s, call, Reserving(now));
    assert Step(cfg, s, Event(call, Start(now))) == s1;
    assert Step(cfg, s1, Event(call, Put(true, NoFault))) == StepPut(cfg, s1, call, now, true, NoFault);
  }

  /** How the key stands after the call, and what the call reports. */
  ghost predicate Leaves(s: State, call: nat, status: Status, createdAt: int, content: Content, outcome: CallResult) {
    s.row == Some(Row(status, createdAt, content)) && call in s.pcs && s.pcs[call].Stopped? && s.pcs[call].outcome == outcome
  }

  /** A result that counts as a failure: an object whose status is "error". */
  ghost predicate SaysError(result: Json) {
    result.Obj? && FirstUnder(result.entries, "status", Str("error"))
  }

  /** The two last steps, from where the tool's outcome left the call. */
  lemma SettledBy(cfg: Config, s: State, call: nat, createdAt: int)
    requires s.row == Some(Row(InFlight, createdAt, Nothing)) && call in s.pcs
    ensures var s' := Step(cfg, Step(cfg, s, Event(call, Offload(NoFault))), Event(call, Settle(NoFault)));
      && s'.tally.effects == s.tally.effects
      && (s.pcs[call] == Settling(GiveBack) ==> Leaves(s', call, Released, createdAt, Nothing, RetryableNoExecution))
      && (s.pcs[call].Settling? && s.pcs[call].verdict.Fail? ==>
            Leaves(s', call, Failed, createdAt, Failure(s.pcs[call].verdict.errorType, s.pcs[call].verdict.indeterminate),
                   s.pcs[call].verdict.thenRaise))
      && (s.pcs[call].Settling? && s.pcs[call].verdict.Succeed? ==>
            Leaves(s', call, Completed, createdAt, s.pcs[call].verdict.content, Success(s.pcs[call].verdict.result)))
      && (s.pcs[call].Offloading? ==> s'.blob == Some(s.pcs[call].text))
      && (s.pcs[call].Offloading? ==>
            Leaves(s', call, Completed, createdAt, Offloaded, Success(s.pcs[call].result)))
      && (s.pcs[call].Stopped? ==> s' == s)
  {
  }

  /**
   The failure matrix. A call that reserves an absent key and loses no request leaves the row, and
   reports to its caller, exactly this; and nothing but a provably unsent call leaves no effect.
   */
  lemma FailureMatrix(cfg: Config, run: seq<Event>, call: nat, now: real, tool: ToolOutcome)
    requires call !in After(cfg, run).pcs && After(cfg, run).row.None?
    ensures var s := After(cfg, run + FirstCall(call, now, tool));
      var at := Trunc(now);
      && (tool.NotSent? && tool.retryable ==> Leaves(s, call, Released, at, Nothing, RetryableNoExecution))
      && (tool.NotSent? && !tool.retryable ==>
            Leaves(s, call, Failed, at, Failure(tool.errorType, true), OutcomeIndeterminate))
      && (tool.Unclear? ==> Leaves(s, call, Failed, at, Failure(tool.errorType, true), OutcomeIndeterminate))
      && (tool.Applied? ==> Leaves(s, call, Failed, at, Failure(tool.errorType, false), RecordedToolFailure))
      && s.tally.effects == After(cfg, run).tally.effects + (if tool.NotSent? && tool.retryable then 0 else 1)
  {
    Unfold(cfg, run, call, now, tool);
    SettledBy(cfg, RunState(cfg, After(cfg, run), call, now, tool), call, Trunc(now));
    ReservedAndRun(cfg, After(cfg, run), call, now, tool);
  }

  function RunState(cfg: Config, s: State, call: nat, now: real, tool: ToolOutcome): State {
    Step(cfg, Step(cfg, Step(cfg, s, Event(call, Start(now))), Event(call, Put(true, NoFault))), Event(call, Run(tool)))
  }

  lemma Unfold(cfg: Config, run: seq<Event>, call: nat, now: real, tool: ToolOutcome)
    ensures After(cfg, run + FirstCall(call, now, tool))
      == Step(cfg, Step(cfg, RunState(cfg, After(cfg, run), call, now, tool), Event(call, Offload(NoFault))),
              Event(call, Settle(NoFault)))
  {
    hide After, Step;
    var all := FirstCall(call, now, tool);
    AfterFour(cfg, run, all[0], all[1], all[2], all[3]);
    AfterStep(cfg, run + [all[0], all[1], all[2], all[3]], all[4]);
    assert run + all == run + [all[0], all[1], all[2], all[3]] + [all[4]];
  }

  /** ... and what becomes of a value that the tool returned. */
  lemma ReturnedValues(cfg: Config, run: seq<Event>, call: nat, now: real, v: Json)
    requires call !in After(cfg, run).pcs && After(cfg, run).row.None?
    ensures var s := After(cfg, run + FirstCall(call, now, ToolReturned(v)));
      var (at, text) := (Trunc(now), cfg.dumps(v));
      && (SaysError(v) ==> Leaves(s, call, Failed, at, Failure("tool_error_result", false), ErrorResult(v)))
      && (!SaysError(v) && text.Some? && !cfg.oversized(text.value) ==>
            Leaves(s, call, Completed, at, Inline(text.value), Success(v)))
      && (!SaysError(v) && text.Some? && cfg.oversized(text.value) && cfg.bucket ==>
            Leaves(s, call, Completed, at, Offloaded, Success(v)) && s.blob == text)
      && (!SaysError(v) && (text.None? || (cfg.oversized(text.value) && !cfg.bucket)) ==>
            Leaves(s, call, InFlight, at, Nothing, LedgerError))
  {
    Unfold(cfg, run, call, now, ToolReturned(v));
    SettledBy(cfg, RunState(cfg, After(cfg, run), call, now, ToolReturned(v)), call, Trunc(now));
    ReservedAndRun(cfg, After(cfg, run), call, now, ToolReturned(v));
    if v.Obj? { LookupFindsFirst(v.entries, "status", Str("error")); }
  }

  /** How a later call ends that found `seen` in the row. */
  ghost predicate Told(cfg: Config, s: State, call: nat, seen: Row, blob: Option<string>, now: real) {
    call in s.pcs &&
    match (seen.status, seen.content)
    case (Failed, _) => s.pcs[call] == Stopped(RecordedToolFailure, false)
    case (Released, _) => s.pcs[call] == TakingReleased(now)
    case (Completed, Inline(text)) =>
      if cfg.loads(text).Some? then s.pcs[call] == Stopped(Replayed(cfg.loads(text).value), false)
      else s.pcs[call] == Stopped(Replayed(Str(text)), false)
    case (Completed, Offloaded) =>
      if blob.Some? && cfg.loads(blob.value).Some?
      then s.pcs[call] == Stopped(Replayed(cfg.loads(blob.value).value), false)
      else s.pcs[call] == Stopped(LedgerError, false)
    case _ => true
  }

  /** What a later call is told that reads the row: no tool runs, and the row stays. */
  lemma LaterCallsAreTold(cfg: Config, run: seq<Event>, call: nat, now: real, index: nat)
    requires call !in After(cfg, run).pcs && After(cfg, run).row.Some?
    requires index < |After(cfg, run).history| && After(cfg, run).history[index].Some?
    ensures var s, s' := After(cfg, run), After(cfg, run + LaterCall(call, now, index));
      && s'.row == s.row && s'.tally == s.tally
      && Told(cfg, s', call, s.history[index].value, s.blob, now)
  {
    hide After, LooksDead;
    var s := After(cfg, run);
    var all := LaterCall(call, now, index);
    AfterFour(cfg, run, all[0], all[1], all[2], all[3]);
    assert all == [all[0], all[1], all[2], all[3]];
    var s1, s2 := At(s, call, Reserving(now)), At(s, call, Resolving(now));
    assert Step(cfg, s, all[0]) == s1;
    assert s.pcs[call := Reserving(now)][call := Resolving(now)] == s.pcs[call := Resolving(now)];
    assert Step(cfg, s1, all[1]) == s2;
    var s3 := At(s2, call, ReadPc(cfg, s.history[index], now));
    assert Step(cfg, s2, all[2]) == s3;
    FetchEnds(cfg, s3, call, s.history[index].value, now);
  }

  lemma FetchEnds(cfg: Config, s: State, call: nat, seen: Row, now: real)
    requires call in s.pcs && s.pcs[call] == ReadPc(cfg, Some(seen), now)
    ensures var s' := Step(cfg, s, Event(call, Fetch(NoFault)));
      s'.row == s.row && s'.tally == s.tally && Told(cfg, s', call, seen, s.blob, now)
  {
  }

  /**
   First call, then second: under a codec that reads back what it wrote, whoever calls again after
   an undisturbed success is handed the first call's value, and the tool does not run again.
   */
  lemma RecordedThenReplayed(cfg: Config, first: nat, second: nat, now: real, later: real, v: Json)
    requires first != second && !SaysError(v) && cfg.dumps(v).Some? && (cfg.oversized(cfg.dumps(v).value) ==> cfg.bucket)
    requires cfg.loads(cfg.dumps(v).value) == Some(v)
    ensures var run := FirstCall(first, now, ToolReturned(v));
      var index := |After(cfg, run).history| - 1;
      index >= 0 &&
      var s := After(cfg, run + LaterCall(second, later, index));
      s.tally.effects == 1 && second in s.pcs && s.pcs[second] == Stopped(Replayed(v), false)
  {
    var run := FirstCall(first, now, ToolReturned(v));
    assert [] + run == run;
    ReturnedValues(cfg, [], first, now, v);
    FailureMatrix(cfg, [], first, now, ToolReturned(v));
    OnlyItself(cfg, [], first, now, ToolReturned(v));
    AlwaysCounted(cfg, run);
    LaterCallsAreTold(cfg, run, second, later, |After(cfg, run).history| - 1);
  }

  lemma OnlyItself(cfg: Config, run: seq<Event>, call: nat, now: real, tool: ToolOutcome)
    ensures After(cfg, run + FirstCall(call, now, tool)).pcs.Keys <= After(cfg, run).pcs.Keys + {call}
  {
    Unfold(cfg, run, call, now, tool);
    hide After;
    var s := After(cfg, run);
    KeysOf(cfg, s, Event(call, Start(now)));
    var s1 := Step(cfg, s, Event(call, Start(now)));
    KeysOf(cfg, s1, Event(call, Put(true, NoFault)));
    var s2 := Step(cfg, s1, Event(call, Put(true, NoFault)));
    KeysOf(cfg, s2, Event(call, Run(tool)));
    var s3 := Step(cfg, s2, Event(call, Run(tool)));
    KeysOf(cfg, s3, Event(call, Offload(NoFault)));
    KeysOf(cfg, Step(cfg, s3, Event(call, Offload(NoFault))), Event(call, Settle(NoFault)));
    hide Step;
  }

  lemma KeysOf(cfg: Config, s: State, e: Event)
    ensures Step(cfg, s, e).pcs.Keys <= s.pcs.Keys + {e.call}
  {
  }

  /**
   A call may die wherever it stands, and leaves everything as it was; whether it held the row is
   remembered. A call that has ended stays so, whatever is asked of it.
   */
  lemma DeathLeavesAll(cfg: Config, s: State, call: nat, act: Action)
    requires call in s.pcs
    ensures s.pcs[call].Stopped? ==> Step(cfg, s, Event(call, act)) == s
    ensures !s.pcs[call].Stopped? ==> (
      var s' := Step(cfg, s, Event(call, Die));
      && s'.row == s.row && s'.blob == s.blob && s'.tally == s.tally && s'.history == s.history
      && s'.pcs == s.pcs[call := Stopped(Died, s.pcs[call].Holding? || s.pcs[call].Offloading? || s.pcs[call].Settling?)])
  {
  }

  /** A request that is lost on the way leaves the row and the stored object alone, and ends the call. */
  lemma LostRequestsLeaveAll(cfg: Config, s: State, call: nat, act: Action)
    requires call in s.pcs && act in {Put(true, LostBefore), Put(false, LostBefore), Take(LostBefore), Offload(LostBefore),
                                      Settle(LostBefore), Fetch(LostBefore)}
    requires var s' := Step(cfg, s, Event(call, act)); s' != s
    ensures var s' := Step(cfg, s, Event(call, act));
      && s'.row == s.row && s'.blob == s.blob && s'.tally == s.tally && s'.history == s.history
      && call in s'.pcs && s'.pcs[call].Stopped? && s'.pcs[call].outcome == LedgerError
  {
  }
}
