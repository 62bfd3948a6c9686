/** Pure decisions of the per-target circuit breaker. */
module BreakerLogic {
  datatype BreakerState = Closed | Open | HalfOpen

  datatype FailureClass =
    | Transient | Throttle | Timeout | Validation | PolicyDenied | Authz
    | ApprovalAbsent | Indeterminate | CircuitOpen | InvalidAgentConfig | Unknown

  datatype Config = Config(
    failureThreshold: int,
    windowSeconds: int,
    recoverySeconds: int,
    probeLeaseSeconds: int,
    closedCacheTtl: int,
    includeThrottle: bool)

  /** window_start: the one multiple of the window length at or before `now` that `now` is less than a window past. */
  function WindowStart(now: int, windowSeconds: int): (start: int)
    ensures start <= now && (windowSeconds > 0 ==> now < start + windowSeconds && start % windowSeconds == 0)
    ensures windowSeconds <= 0 ==> start == now
  {
    if windowSeconds <= 0 then now
    else
      MultipleRemainsNothing(now / windowSeconds, windowSeconds);
      (now / windowSeconds) * windowSeconds
  }

  lemma MultipleRemainsNothing(q: int, factor: int)
    requires factor > 0
    ensures (q * factor) % factor == 0
  {
    var product := q * factor;
    assert product == (product / factor) * factor + product % factor;
    var d := q - product / factor;
    assert d * factor == product % factor;
    if d >= 1 { Scales(0, d, factor); } else if d < 0 { Scales(d, 0, factor); }
  }

  lemma Scales(m: int, n: int, factor: int)
    requires m < n && factor > 0
    ensures m * factor + factor <= n * factor
    decreases n - m
  {
    assert (m + 1) * factor == m * factor + factor;
    if m + 1 < n {
      Scales(m + 1, n, factor);
    }
  }

  /** Readings of the clock that do not go back fall into windows that do not go back. */
  lemma WindowsInOrder(a: int, b: int, windowSeconds: int)
    requires a <= b
    ensures WindowStart(a, windowSeconds) <= WindowStart(b, windowSeconds)
  {
    if windowSeconds > 0 {
      var m, n := a / windowSeconds, b / windowSeconds;
      if m > n {
        Scales(n, m, windowSeconds);
      } else if m < n {
        Scales(m, n, windowSeconds);
      }
    }
  }

  /** Windows are fixed: every reading from `k` windows on and before the next counts from the same start. */
  lemma FixedWindow(now: int, k: int, windowSeconds: int)
    requires windowSeconds > 0 && k * windowSeconds <= now < (k + 1) * windowSeconds
    ensures WindowStart(now, windowSeconds) == k * windowSeconds
  {
    var q := now / windowSeconds;
    assert (k + 1) * windowSeconds == k * windowSeconds + windowSeconds;
    if q < k { Scales(q, k, windowSeconds); } else if k < q { Scales(k, q, windowSeconds); }
  }

  predicate ShouldCountFailure(c: FailureClass, includeThrottle: bool) {
    c.Transient? || c.Timeout? || (c.Throttle? && includeThrottle)
  }

  predicate IsProbeEligible(state: BreakerState, openedAt: int, now: int, recovery: int) {
    state.Open? && now >= openedAt + recovery
  }

  predicate IsOpenFastFail(state: BreakerState, openedAt: int, now: int, recovery: int) {
    state.Open? && now < openedAt + recovery
  }

  /** An OPEN breaker is still recovering or due for a probe, never both; any other is neither. */
  lemma RecoveringOrDue(state: BreakerState, openedAt: int, now: int, recovery: int)
    ensures state == Open ==> (IsProbeEligible(state, openedAt, now, recovery) <==> !IsOpenFastFail(state, openedAt, now, recovery))
    ensures state != Open ==> !IsProbeEligible(state, openedAt, now, recovery) && !IsOpenFastFail(state, openedAt, now, recovery)
    ensures IsOpenFastFail(Open, openedAt, openedAt + recovery - 1, recovery) && IsProbeEligible(Open, openedAt, openedAt + recovery, recovery)
  {
  }

  predicate CacheEntryFresh(state: BreakerState, cachedAt: int, now: int, openTtl: int, closedTtl: int) {
    0 <= now - cachedAt < (if state.Open? then openTtl else closedTtl)
  }
}

/** The breaker's shared row and the conditional writes on it. */
module BreakerRows {
  import opened Common
  import opened BreakerLogic

  datatype Lease = Lease(owner: string, expiresAt: int)

  datatype Row = Row(
    state: BreakerState,
    windowStart: int,
    failureCount: nat,
    version: nat,
    openedAt: int,
    lease: Option<Lease>)

  // Every write returns the new row, or None when its condition does not hold.

  function CountInWindow(row: Option<Row>, window: int): Option<Row> {
    if row.Some? && row.value.state.Closed? && row.value.windowStart == window
    then Some(row.value.(failureCount := row.value.failureCount + 1))
    else None
  }

  function RollWindow(row: Option<Row>, window: int): Option<Row> {
    if row.None? then Some(Row(Closed, window, 1, 0, 0, None))
    else if row.value.state.Closed? && row.value.windowStart < window
    then Some(row.value.(windowStart := window, failureCount := 1))
    else None
  }

  function OpenIfUnchanged(row: Option<Row>, seen: nat, now: int): Option<Row> {
    if row.Some? && row.value.state.Closed? && row.value.version == seen
    then Some(row.value.(state := Open, openedAt := now, version := seen + 1))
    else None
  }

  function AcquireLease(row: Option<Row>, owner: string, now: int, leaseSeconds: int): Option<Row> {
    if row.Some? && !row.value.state.Closed? && (row.value.lease.None? || row.value.lease.value.expiresAt < now)
    then Some(row.value.(state := HalfOpen, lease := Some(Lease(owner, now + leaseSeconds)),
                         version := row.value.version + 1))
    else None
  }

  /** The end of a probe; it asks only for the state, not for the lease's owner. */
  function EndProbe(row: Option<Row>, healthy: bool, now: int): Option<Row> {
    if row.Some? && row.value.state.HalfOpen? then
      var ended := row.value.(lease := None, version := row.value.version + 1);
      Some(if healthy then ended.(state := Closed, failureCount := 0) else ended.(state := Open, openedAt := now))
    else None
  }
}

/**
 The breaker of one target as a step system: any number of workers, each read and each write a
 step of its own, each write possibly lost before or after it was applied.
 */
module BreakerProtocol {
  import opened Common
  import opened BreakerLogic
  import opened BreakerRows

  datatype Fault = NoFault | LostBefore | LostAfter

  datatype Transition = Transition(from: BreakerState, to: BreakerState, version: nat)

  /** The writes applied so far, in order. */
  datatype Entry = Failure(window: int) | Moved(t: Transition) | Leased

  /** Where a worker stands that is counting a failure, probing the target, or owes the emission of a transition. */
  datatype Pc =
    | Counting(now: int)
    | Rolling(now: int)
    | Opening(now: int, seen: nat, window: int)
    | Probing(lease: Lease, version: nat)
    | Emitting(t: Transition)

  /** `history` lists every value the row has held; `dropped` counts the transitions nobody will emit any more. */
  datatype State = State(
    row: Option<Row>,
    history: seq<Option<Row>>,
    log: seq<Entry>,
    pcs: map<nat, Pc>,
    emitted: seq<Transition>,
    dropped: nat)

  datatype Action =
    | ObserveFailure(now: int)
    | Count(fault: Fault)
    | Roll(fault: Fault)
    | OpenBreaker(fault: Fault)
    | Probe(owner: string, now: int, fault: Fault)
    | FinishProbe(healthy: bool, now: int, fault: Fault)
    | Emit
    | Die

  datatype Event = Event(worker: nat, act: Action)

  function Init(): State {
    State(None, [None], [], map[], [], 0)
  }

  function Write(s: State, row: Option<Row>, entry: Entry): State {
    s.(row := row, history := s.history + [row], log := s.log + [entry])
  }

  function Idle(s: State, worker: nat): State {
    s.(pcs := s.pcs - {worker})
  }

  function At(s: State, worker: nat, pc: Pc): State {
    s.(pcs := s.pcs[worker := pc])
  }

  /** After a failure counted in `window`: the reply carries the new row, and the threshold is checked on it. */
  function CountedIn(cfg: Config, s: State, worker: nat, now: int, window: int, row: Row, fault: Fault): State {
    var s' := Write(s, Some(row), Failure(window));
    if fault.NoFault? && row.failureCount >= cfg.failureThreshold
    then At(s', worker, Opening(now, row.version, window))
    else Idle(s', worker)
  }

  function Counted(cfg: Config, s: State, worker: nat, now: int, row: Row, fault: Fault): State {
    CountedIn(cfg, s, worker, now, WindowStart(now, cfg.windowSeconds), row, fault)
  }

  /** After an applied transition: the worker still owes its emission, unless the reply got lost. */
  function Transitioned(s: State, worker: nat, from: BreakerState, row: Row, fault: Fault): State {
    var t := Transition(from, row.state, row.version);
    var s' := Write(s, Some(row), Moved(t));
    if fault.NoFault? then At(s', worker, Emitting(t)) else Idle(s', worker).(dropped := s.dropped + 1)
  }

  function StepCount(cfg: Config, s: State, worker: nat, now: int, fault: Fault): State {
    var w := CountInWindow(s.row, WindowStart(now, cfg.windowSeconds));
    if fault.LostBefore? then Idle(s, worker)
    else if w.Some? then Counted(cfg, s, worker, now, w.value, fault)
    else if fault.NoFault? then At(s, worker, Rolling(now))
    else Idle(s, worker)
  }

  function StepRoll(cfg: Config, s: State, worker: nat, now: int, fault: Fault): State {
    var w := RollWindow(s.row, WindowStart(now, cfg.windowSeconds));
    if fault.LostBefore? || w.None? then Idle(s, worker) else Counted(cfg, s, worker, now, w.value, fault)
  }

  function StepOpen(s: State, worker: nat, now: int, seen: nat, fault: Fault): State {
    var w := OpenIfUnchanged(s.row, seen, now);
    if fault.LostBefore? || w.None? then Idle(s, worker) else Transitioned(s, worker, Closed, w.value, fault)
  }

  /** A worker probes only if it was told that it won the lease. */
  function StepProbe(cfg: Config, s: State, worker: nat, owner: string, now: int, fault: Fault): State {
    var w := AcquireLease(s.row, owner, now, cfg.probeLeaseSeconds);
    if fault.LostBefore? || w.None? then s
    else if fault.LostAfter? then Write(s, w, Leased)
    else At(Write(s, w, Leased), worker, Probing(w.value.lease.value, w.value.version))
  }

  function StepFinish(s: State, worker: nat, healthy: bool, now: int, fault: Fault): State {
    var w := EndProbe(s.row, healthy, now);
    if fault.LostBefore? || w.None? then Idle(s, worker) else Transitioned(s, worker, HalfOpen, w.value, fault)
  }

  /** One step; an action that does not fit where the worker stands changes nothing. */
  function Step(cfg: Config, s: State, e: Event): State {
    if e.worker !in s.pcs then
      match e.act
      case ObserveFailure(now) => At(s, e.worker, Counting(now))
      case Probe(owner, now, fault) => StepProbe(cfg, s, e.worker, owner, now, fault)
      case _ => s
    else
      match (s.pcs[e.worker], e.act)
      case (Counting(now), Count(fault)) => StepCount(cfg, s, e.worker, now, fault)
      case (Rolling(now), Roll(fault)) => StepRoll(cfg, s, e.worker, now, fault)
      case (Opening(now, seen, _), OpenBreaker(fault)) => StepOpen(s, e.worker, now, seen, fault)
      case (Probing(_, _), FinishProbe(healthy, now, fault)) => StepFinish(s, e.worker, healthy, now, fault)
      case (Emitting(t), Emit) => Idle(s, e.worker).(emitted := s.emitted + [t])
      case (Emitting(t), Die) => Idle(s, e.worker).(dropped := s.dropped + 1)
      case (_, Die) => Idle(s, e.worker)
      case _ => s
  }

  function After(cfg: Config, run: seq<Event>): State {
    if run == [] then Init()
    else Step(cfg, After(cfg, run[..|run| - 1]), run[|run| - 1])
  }

  lemma AfterStep(cfg: Config, run: seq<Event>, e: Event)
    ensures After(cfg, run + [e]) == Step(cfg, After(cfg, run), e)
  {
    assert (run + [e])[..|run|] == run;
  }
}
