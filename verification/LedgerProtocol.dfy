/** One ledger row and the conditional writes DynamoDB applies to it atomically. */
module LedgerRows {
  import opened Common

  datatype Status = InFlight | Completed | Failed | Released

  /** What a settled row records: a result inline, a pointer to the offloaded object, or a failure. */
  datatype Content =
    | Nothing
    | Inline(text: string)
    | Offloaded
    | Failure(errorType: string, indeterminate: bool)

  datatype Row = Row(status: Status, createdAt: int, content: Content)

  predicate Settled(row: Option<Row>) {
    row.Some? && (row.value.status.Completed? || row.value.status.Failed?)
  }

  predicate Running(row: Option<Row>) {
    row.Some? && row.value.status.InFlight?
  }

  predicate LetGo(row: Option<Row>) {
    row.Some? && row.value.status.Released?
  }

  // Every write below returns the new row, or None when its condition does not hold.

  function PutNew(row: Option<Row>, now: real): Option<Row> {
    if row.None? then Some(Row(InFlight, Trunc(now), Nothing)) else None
  }

  function TakeStale(row: Option<Row>, seen: int, now: real): Option<Row> {
    if Running(row) && row.value.createdAt == seen
    then Some(row.value.(createdAt := Trunc(now)))
    else None
  }

  function TakeReleased(row: Option<Row>, now: real): Option<Row> {
    if LetGo(row) then Some(Row(InFlight, Trunc(now), row.value.content)) else None
  }

  function Finish(row: Option<Row>, status: Status, content: Content): Option<Row> {
    if Running(row) then Some(row.value.(status := status, content := content)) else None
  }

  function Release(row: Option<Row>): Option<Row> {
    if Running(row) then Some(row.value.(status := Released)) else None
  }

  /** The holder of a row created at `createdAt` looks dead to a caller whose clock says `now`. */
  predicate LooksDead(now: real, createdAt: int, lease: int) {
    now - createdAt as real > lease as real
  }
}

/**
 The reserve, execute, finalize protocol on one ledger key as a step system. Any number of
 calls run it at once; each call's next step may happen at any moment, may be lost before or
 after it took effect, and a call may die anywhere.
 */
module LedgerProtocol {
  import opened Common
  import opened JsonValues
  import opened LedgerRows

  /** The deployment: lease length, JSON codec, inline cap, and whether a result bucket is set. */
  datatype Config = Config(
    lease: int,
    dumps: Json -> Option<string>,
    loads: string -> Option<Json>,
    oversized: string -> bool,
    bucket: bool)

  /** A request that fails may have failed before or after it was applied. */
  datatype Fault = NoFault | LostBefore | LostAfter

  /** How the wrapped tool call ended. */
  datatype ToolOutcome =
    | ToolReturned(result: Json)
    | NotSent(retryable: bool, errorType: string)
    | Applied(errorType: string)
    | Unclear(errorType: string)

  /** How execute_idempotent ended. Success and ErrorResult return the tool's own value. */
  datatype CallResult =
    | Success(result: Json)
    | ErrorResult(result: Json)
    | Replayed(result: Json)
    | RecordedToolFailure
    | RetryableNoExecution
    | OutcomeIndeterminate
    | StaleWorkerFenced
    | LedgerError
    | Died

  /** The write a call still owes its reservation after the tool ended. */
  datatype Verdict =
    | GiveBack
    | Fail(errorType: string, indeterminate: bool, thenRaise: CallResult)
    | Succeed(result: Json, content: Content)

  /** Where one call stands. `unsettled` says it holds a reservation it will never settle. */
  datatype Pc =
    | Reserving(now: real)
    | Resolving(now: real)
    | TakingReleased(now: real)
    | TakingStale(now: real, seen: int)
    | Holding
    | Offloading(result: Json, text: string)
    | Settling(verdict: Verdict)
    | Polling
    | Fetching
    | Stopped(outcome: CallResult, unsettled: bool)

  /** What happened so far on this key. */
  datatype Tally = Tally(
    wins: nat,         // reservations granted, by whichever write
    staleTakes: nat,   // reservations granted by taking over a stale lease
    retakes: nat,      // reservations granted on a released row
    releases: nat,     // release writes applied
    effects: nat,      // tool runs that may have taken effect
    harmless: nat)     // tool runs that provably sent nothing

  /**
   `history` lists every value the row has held: a read may return any of them. `granted` is the
   call the row was last granted to.
   */
  datatype State = State(
    row: Option<Row>,
    history: seq<Option<Row>>,
    blob: Option<string>,
    granted: Option<nat>,
    pcs: map<nat, Pc>,
    tally: Tally)

  datatype Action =
    | Start(now: real)
    | Put(fenceHolds: bool, fault: Fault)
    | Read(index: nat, fault: Fault)
    | Take(fault: Fault)
    | Run(outcome: ToolOutcome)
    | Offload(fault: Fault)
    | Settle(fault: Fault)
    | Poll(index: nat, fault: Fault)
    | StopPolling
    | Fetch(fault: Fault)
    | Die

  /** Action `act` of call `call`. */
  datatype Event = Event(call: nat, act: Action)

  const NO_TALLY := Tally(0, 0, 0, 0, 0, 0)

  function Init(): State {
    State(None, [None], None, None, map[], NO_TALLY)
  }

  predicate Holds(pc: Pc) {
    pc.Holding? || pc.Offloading? || pc.Settling? || (pc.Stopped? && pc.unsettled)
  }

  function IsErrorResult(result: Json): bool {
    result.Obj? && Lookup(result.entries, "status") == Some(Str("error"))
  }

  function Outcome(verdict: Verdict): CallResult {
    match verdict
    case GiveBack => RetryableNoExecution
    case Fail(_, _, thenRaise) => thenRaise
    case Succeed(result, _) => Success(result)
  }

  function SettleWrite(row: Option<Row>, verdict: Verdict): Option<Row> {
    match verdict
    case GiveBack => Release(row)
    case Fail(errorType, indeterminate, _) => Finish(row, Failed, Failure(errorType, indeterminate))
    case Succeed(_, content) => Finish(row, Completed, content)
  }

  /** json.loads with the fallback to the raw text that an inline result gets. */
  function LoadsOrRaw(cfg: Config, text: string): Json {
    var v := cfg.loads(text);
    if v.Some? then v.value else Str(text)
  }

  function At(s: State, call: nat, pc: Pc): State {
    s.(pcs := s.pcs[call := pc])
  }

  function Write(s: State, row: Option<Row>): State {
    s.(row := row, history := s.history + [row])
  }

  /** A grant that was applied: the caller holds the row unless the reply got lost. */
  function Granted(s: State, call: nat, row: Option<Row>, fault: Fault): State {
    var t := s.tally;
    At(Write(s, row).(granted := Some(call), tally := t.(wins := t.wins + 1)), call,
       if fault.NoFault? then Holding else Stopped(LedgerError, true))
  }

  function StepPut(cfg: Config, s: State, call: nat, now: real, fenceHolds: bool, fault: Fault): State {
    var w := PutNew(s.row, now);
    if fault.LostBefore? then At(s, call, Stopped(LedgerError, false))
    else if fenceHolds && w.Some? then Granted(s, call, w, fault)
    else if fault.LostAfter? then At(s, call, Stopped(LedgerError, false))
    else if !fenceHolds then At(s, call, Stopped(StaleWorkerFenced, false))
    else At(s, call, Resolving(now))
  }

  function ReadPc(cfg: Config, row: Option<Row>, now: real): Pc {
    if row.None? then Polling
    else match row.value.status
      case Completed => ReplayPc(cfg, row.value)
      case Failed => Stopped(RecordedToolFailure, false)
      case Released => TakingReleased(now)
      case InFlight =>
        if LooksDead(now, row.value.createdAt, cfg.lease)
        then TakingStale(now, row.value.createdAt)
        else Polling
  }

  function ReplayPc(cfg: Config, row: Row): Pc {
    match row.content
    case Offloaded => Fetching
    case Inline(text) => Stopped(Replayed(LoadsOrRaw(cfg, text)), false)
    case _ => Stopped(Replayed(Null), false)
  }

  function StepRead(cfg: Config, s: State, call: nat, now: real, index: nat, fault: Fault): State {
    if !fault.NoFault? then At(s, call, Stopped(LedgerError, false))
    else if index < |s.history| then At(s, call, ReadPc(cfg, s.history[index], now))
    else s
  }

  function StepTake(s: State, call: nat, w: Option<Row>, stale: bool, fault: Fault): State {
    if fault.LostBefore? then At(s, call, Stopped(LedgerError, false))
    else if w.Some? then
      var g := Granted(s, call, w, fault);
      g.(tally := if stale then g.tally.(staleTakes := s.tally.staleTakes + 1)
                  else g.tally.(retakes := s.tally.retakes + 1))
    else if fault.LostAfter? then At(s, call, Stopped(LedgerError, false))
    else At(s, call, Polling)
  }

  /** The failure matrix, and the preparation of a result that is to be recorded. */
  function RunPc(cfg: Config, outcome: ToolOutcome): Pc {
    match outcome
    case NotSent(true, _) => Settling(GiveBack)
    case NotSent(false, e) => Settling(Fail(e, true, OutcomeIndeterminate))
    case Applied(e) => Settling(Fail(e, false, RecordedToolFailure))
    case Unclear(e) => Settling(Fail(e, true, OutcomeIndeterminate))
    case ToolReturned(v) =>
      if IsErrorResult(v) then Settling(Fail("tool_error_result", false, ErrorResult(v)))
      else if cfg.dumps(v).None? then Stopped(LedgerError, true)
      else if !cfg.oversized(cfg.dumps(v).value) then Settling(Succeed(v, Inline(cfg.dumps(v).value)))
      else if !cfg.bucket then Stopped(LedgerError, true)
      else Offloading(v, cfg.dumps(v).value)
  }

  predicate SentNothing(outcome: ToolOutcome) {
    outcome.NotSent? && outcome.retryable
  }

  function StepRun(cfg: Config, s: State, call: nat, outcome: ToolOutcome): State {
    var t := s.tally;
    At(s.(tally := if SentNothing(outcome) then t.(harmless := t.harmless + 1)
                   else t.(effects := t.effects + 1)),
       call, RunPc(cfg, outcome))
  }

  function StepOffload(s: State, call: nat, result: Json, text: string, fault: Fault): State {
    if fault.LostBefore? then At(s, call, Stopped(LedgerError, true))
    else At(s.(blob := Some(text)), call,
            if fault.NoFault? then Settling(Succeed(result, Offloaded)) else Stopped(LedgerError, true))
  }

  function StepSettle(s: State, call: nat, verdict: Verdict, fault: Fault): State {
    var w := SettleWrite(s.row, verdict);
    if fault.LostBefore? then At(s, call, Stopped(LedgerError, true))
    else
      var pc := Stopped(if fault.NoFault? then Outcome(verdict) else LedgerError, false);
      if w.None? then At(s, call, pc)
      else
        var t := s.tally;
        At(Write(s, w).(tally := if verdict.GiveBack? then t.(releases := t.releases + 1) else t), call, pc)
  }

  /** wait_for_terminal: only a settled row ends the poll. */
  function StepPoll(cfg: Config, s: State, call: nat, index: nat, fault: Fault): State {
    if !fault.NoFault? then At(s, call, Stopped(LedgerError, false))
    else if index < |s.history| && Settled(s.history[index]) then At(s, call, ReadPc(cfg, s.history[index], 0.0))
    else s
  }

  function FetchResult(cfg: Config, blob: Option<string>, fault: Fault): CallResult {
    if fault.NoFault? && blob.Some? && cfg.loads(blob.value).Some?
    then Replayed(cfg.loads(blob.value).value)
    else LedgerError
  }

  /** One step; an action that does not fit the call's program counter changes nothing. */
  function Step(cfg: Config, s: State, e: Event): State {
    if e.call !in s.pcs then
      if e.act.Start? then At(s, e.call, Reserving(e.act.now)) else s
    else if e.act.Die? then
      if s.pcs[e.call].Stopped? then s else At(s, e.call, Stopped(Died, Holds(s.pcs[e.call])))
    else
      match (s.pcs[e.call], e.act)
      case (Reserving(now), Put(fenceHolds, fault)) => StepPut(cfg, s, e.call, now, fenceHolds, fault)
      case (Resolving(now), Read(i, fault)) => StepRead(cfg, s, e.call, now, i, fault)
      case (TakingReleased(now), Take(fault)) =>
        StepTake(s, e.call, TakeReleased(s.row, now), false, fault)
      case (TakingStale(now, seen), Take(fault)) =>
        StepTake(s, e.call, TakeStale(s.row, seen, now), true, fault)
      case (Holding, Run(outcome)) => StepRun(cfg, s, e.call, outcome)
      case (Offloading(v, text), Offload(fault)) => StepOffload(s, e.call, v, text, fault)
      case (Settling(verdict), Settle(fault)) => StepSettle(s, e.call, verdict, fault)
      case (Polling, Poll(i, fault)) => StepPoll(cfg, s, e.call, i, fault)
      case (Polling, StopPolling) => At(s, e.call, Stopped(RetryableNoExecution, false))
      case (Fetching, Fetch(fault)) => At(s, e.call, Stopped(FetchResult(cfg, s.blob, fault), false))
      case _ => s
  }

  /** The state after a run, from the untouched key. */
  function After(cfg: Config, run: seq<Event>): State {
    if run == [] then Init()
    else Step(cfg, After(cfg, run[..|run| - 1]), run[|run| - 1])
  }
}
