/** What every interleaving of workers keeps about one breaker. */
module BreakerSafety {
  import opened Common
  import opened BreakerLogic
  import opened BreakerRows
  import opened BreakerProtocol
  import opened Sequences

  // ---- Readings of the log

  function Transitions(log: seq<Entry>): seq<Transition> {
    if log == [] then []
    else
      var earlier, last := Transitions(log[..|log| - 1]), log[|log| - 1];
      if last.Moved? then earlier + [last.t] else earlier
  }

  /** The failures counted in one window since the breaker last became CLOSED. */
  function CountedSinceClosed(log: seq<Entry>, window: int): nat {
    if log == [] then 0
    else
      var last := log[|log| - 1];
      if last.Moved? && last.t.to.Closed? then 0
      else CountedSinceClosed(log[..|log| - 1], window) + if last == Failure(window) then 1 else 0
  }

  lemma LogGrows(log: seq<Entry>, entry: Entry)
    ensures Transitions(log + [entry]) == if entry.Moved? then Transitions(log) + [entry.t] else Transitions(log)
    ensures forall w :: (CountedSinceClosed(log + [entry], w)
      == if entry.Moved? && entry.t.to.Closed? then 0
         else CountedSinceClosed(log, w) + if entry == Failure(w) then 1 else 0)
  {
    assert (log + [entry])[..|log|] == log;
  }

  // ---- The order of transitions

  predicate Opens(t: Transition) { t.from.Closed? && t.to.Open? }
  predicate Reopens(t: Transition) { t.from.HalfOpen? && t.to.Open? }
  predicate Recovers(t: Transition) { t.from.HalfOpen? && t.to.Closed? }

  /** The first transition opens the breaker, and so does the first one after each recovery. */
  predicate Placed(ts: seq<Transition>, i: nat)
    requires i < |ts|
  {
    if i == 0 || Recovers(ts[i - 1]) then Opens(ts[i]) else Reopens(ts[i]) || Recovers(ts[i])
  }

  /** A prefix of ((CLOSED->OPEN) (HALF_OPEN->OPEN)* (HALF_OPEN->CLOSED))*. */
  predicate Cycles(ts: seq<Transition>) {
    forall i :: 0 <= i < |ts| ==> Placed(ts, i)
  }

  lemma CyclesGrow(ts: seq<Transition>, t: Transition)
    requires Cycles(ts)
    requires if ts == [] || Recovers(ts[|ts| - 1]) then Opens(t) else Reopens(t) || Recovers(t)
    ensures Cycles(ts + [t])
  {
    forall i | 0 <= i < |ts + [t]|
      ensures Placed(ts + [t], i)
    {
      assert i < |ts| ==> Placed(ts, i);
    }
  }

  predicate VersionsIncrease(ts: seq<Transition>) {
    forall i, j :: 0 <= i < j < |ts| ==> ts[i].version < ts[j].version
  }

  /** The row's state is where the last transition led, up to a probe lease on an open breaker. */
  predicate RowFollows(row: Option<Row>, ts: seq<Transition>) {
    if row.None? || row.value.state.Closed? then ts == [] || Recovers(ts[|ts| - 1])
    else ts != [] && !Recovers(ts[|ts| - 1])
  }

  ghost predicate Ordered(s: State) {
    var ts := Transitions(s.log);
    && Cycles(ts) && VersionsIncrease(ts) && RowFollows(s.row, ts)
    && (s.row.None? ==> s.log == [])
    && (s.row.Some? ==> (s.row.value.lease.Some? <==> s.row.value.state.HalfOpen?))
    && (s.row.Some? ==> forall i :: 0 <= i < |ts| ==> ts[i].version <= s.row.value.version)
  }

  lemma OrderedCounted(cfg: Config, s: State, worker: nat, now: int, row: Row, fault: Fault)
    requires Ordered(s) && row.state.Closed? && row.lease.None?
    requires s.row.Some? ==> s.row.value.state.Closed? && s.row.value.version == row.version
    ensures Ordered(Counted(cfg, s, worker, now, row, fault))
  {
    LogGrows(s.log, Failure(WindowStart(now, cfg.windowSeconds)));
  }

  lemma OrderedTransitioned(s: State, worker: nat, from: BreakerState, row: Row, fault: Fault)
    requires Ordered(s) && s.row.Some? && s.row.value.state == from && row.version == s.row.value.version + 1
    requires row.lease.None?
    requires (from.Closed? && row.state.Open?) || (from.HalfOpen? && !row.state.HalfOpen?)
    ensures Ordered(Transitioned(s, worker, from, row, fault))
  {
    hide Transitions, CountedSinceClosed, Cycles;
    LogGrows(s.log, Moved(Transition(from, row.state, row.version)));
    CyclesGrow(Transitions(s.log), Transition(from, row.state, row.version));
  }

  lemma OrderedProbe(cfg: Config, s: State, worker: nat, owner: string, now: int, fault: Fault)
    requires Ordered(s)
    ensures Ordered(StepProbe(cfg, s, worker, owner, now, fault))
  {
    LogGrows(s.log, Leased);
  }

  lemma OrderedKept(cfg: Config, s: State, e: Event)
    requires Ordered(s)
    ensures Ordered(Step(cfg, s, e))
  {
    hide Cycles, VersionsIncrease;
    if e.worker !in s.pcs {
      match e.act
      case Probe(owner, now, fault) => OrderedProbe(cfg, s, e.worker, owner, now, fault);
      case _ =>
    } else {
      match (s.pcs[e.worker], e.act)
      case (Counting(now), Count(fault)) =>
        var w := CountInWindow(s.row, WindowStart(now, cfg.windowSeconds));
        if w.Some? { OrderedCounted(cfg, s, e.worker, now, w.value, fault); }
      case (Rolling(now), Roll(fault)) =>
        var w := RollWindow(s.row, WindowStart(now, cfg.windowSeconds));
        if w.Some? { OrderedCounted(cfg, s, e.worker, now, w.value, fault); }
      case (Opening(now, seen, _), OpenBreaker(fault)) =>
        var w := OpenIfUnchanged(s.row, seen, now);
        if w.Some? { OrderedTransitioned(s, e.worker, Closed, w.value, fault); }
      case (Probing(_, _), FinishProbe(healthy, now, fault)) =>
        var w := EndProbe(s.row, healthy, now);
        if w.Some? { OrderedTransitioned(s, e.worker, HalfOpen, w.value, fault); }
      case _ =>
    }
  }

  lemma {:induction false} AlwaysOrdered(cfg: Config, run: seq<Event>)
    ensures Ordered(After(cfg, run))
  {
    if run != [] {
      AlwaysOrdered(cfg, run[..|run| - 1]);
      OrderedKept(cfg, After(cfg, run[..|run| - 1]), run[|run| - 1]);
    }
  }

  // ---- Emissions

  predicate Owes(pcs: map<nat, Pc>, worker: nat, t: Transition) {
    worker in pcs && pcs[worker] == Emitting(t)
  }

  function Emitters(pcs: map<nat, Pc>): set<nat> {
    set w | w in pcs && pcs[w].Emitting?
  }

  /** Every transition is emitted, owed by one worker, or dropped; never more than one of these. */
  ghost predicate Accounted(s: State) {
    var ts := Transitions(s.log);
    && (forall t :: t in s.emitted ==> t in ts)
    && Distinct(s.emitted)
    && (forall w, t :: Owes(s.pcs, w, t) ==> t in ts && t !in s.emitted)
    && (forall v, w, t :: Owes(s.pcs, v, t) && Owes(s.pcs, w, t) ==> v == w)
    && |s.emitted| + |Emitters(s.pcs)| + s.dropped == |ts|
  }

  lemma EmittersMove(s: State, worker: nat, pc: Pc)
    ensures |Emitters(s.pcs[worker := pc])| == |Emitters(s.pcs - {worker})| + (if pc.Emitting? then 1 else 0)
    ensures |Emitters(s.pcs)|
         == |Emitters(s.pcs - {worker})| + (if worker in s.pcs && s.pcs[worker].Emitting? then 1 else 0)
  {
    var rest := Emitters(s.pcs - {worker});
    assert Emitters(s.pcs[worker := pc]) == if pc.Emitting? then rest + {worker} else rest;
    assert Emitters(s.pcs) == if worker in s.pcs && s.pcs[worker].Emitting? then rest + {worker} else rest;
  }

  /** Steps that write no transition and emit none. */
  lemma AccountedQuiet(s: State, s': State, worker: nat)
    requires Accounted(s) && (worker in s.pcs ==> !s.pcs[worker].Emitting?)
    requires Transitions(s'.log) == Transitions(s.log) && s'.emitted == s.emitted && s'.dropped == s.dropped
    requires s'.pcs == s.pcs || s'.pcs == s.pcs - {worker}
             || (worker in s'.pcs && !s'.pcs[worker].Emitting? && s'.pcs == s.pcs[worker := s'.pcs[worker]])
    ensures Accounted(s')
  {
    EmittersMove(s, worker, Counting(0));
    if worker in s'.pcs { EmittersMove(s, worker, s'.pcs[worker]); }
    assert forall w, t :: Owes(s'.pcs, w, t) ==> Owes(s.pcs, w, t);
  }

  lemma AccountedTransition(s: State, worker: nat, from: BreakerState, row: Row, fault: Fault)
    requires Accounted(s) && Ordered(s) && (worker in s.pcs ==> !s.pcs[worker].Emitting?)
    requires s.row.Some? && row.version > s.row.value.version
    ensures Accounted(Transitioned(s, worker, from, row, fault))
  {
    var s' := Transitioned(s, worker, from, row, fault);
    var t := Transition(from, row.state, row.version);
    LogGrows(s.log, Moved(t));
    EmittersMove(s, worker, Emitting(t));
    assert t !in Transitions(s.log);
    assert forall w, u :: Owes(s'.pcs, w, u) ==> Owes(s.pcs, w, u) || (w == worker && u == t);
  }

  lemma AccountedEmit(s: State, worker: nat, t: Transition)
    requires Accounted(s) && Owes(s.pcs, worker, t)
    ensures Accounted(Idle(s, worker).(emitted := s.emitted + [t]))
    ensures Accounted(Idle(s, worker).(dropped := s.dropped + 1))
  {
    EmittersMove(s, worker, Counting(0));
    assert forall w, u :: Owes(s.pcs - {worker}, w, u) ==> Owes(s.pcs, w, u) && w != worker;
  }

  lemma AccountedCount(cfg: Config, s: State, worker: nat, now: int, fault: Fault)
    requires Accounted(s) && worker in s.pcs && s.pcs[worker] == Counting(now)
    ensures Accounted(StepCount(cfg, s, worker, now, fault))
  {
    LogGrows(s.log, Failure(WindowStart(now, cfg.windowSeconds)));
    AccountedQuiet(s, StepCount(cfg, s, worker, now, fault), worker);
  }

  lemma AccountedRoll(cfg: Config, s: State, worker: nat, now: int, fault: Fault)
    requires Accounted(s) && worker in s.pcs && s.pcs[worker] == Rolling(now)
    ensures Accounted(StepRoll(cfg, s, worker, now, fault))
  {
    LogGrows(s.log, Failure(WindowStart(now, cfg.windowSeconds)));
    AccountedQuiet(s, StepRoll(cfg, s, worker, now, fault), worker);
  }

  lemma AccountedOpen(s: State, worker: nat, now: int, seen: nat, window: int, fault: Fault)
    requires Accounted(s) && Ordered(s) && worker in s.pcs && s.pcs[worker] == Opening(now, seen, window)
    ensures Accounted(StepOpen(s, worker, now, seen, fault))
  {
    var w := OpenIfUnchanged(s.row, seen, now);
    if fault.LostBefore? || w.None? {
      AccountedQuiet(s, Idle(s, worker), worker);
    } else {
      AccountedTransition(s, worker, Closed, w.value, fault);
    }
  }

  lemma AccountedFinish(s: State, worker: nat, healthy: bool, now: int, fault: Fault)
    requires Accounted(s) && Ordered(s) && worker in s.pcs && s.pcs[worker].Probing?
    ensures Accounted(StepFinish(s, worker, healthy, now, fault))
  {
    var w := EndProbe(s.row, healthy, now);
    if fault.LostBefore? || w.None? {
      AccountedQuiet(s, Idle(s, worker), worker);
    } else {
      AccountedTransition(s, worker, HalfOpen, w.value, fault);
    }
  }

  /** A worker that stands nowhere starts something. */
  lemma AccountedStart(cfg: Config, s: State, e: Event)
    requires Accounted(s) && Ordered(s) && e.worker !in s.pcs
    ensures Accounted(Step(cfg, s, e))
  {
    hide Accounted, Ordered, Transitions;
    var s' := Step(cfg, s, e);
    match e.act
    case ObserveFailure(now) => AccountedQuiet(s, s', e.worker);
    case Probe(owner, now, fault) =>
      LogGrows(s.log, Leased);
      AccountedQuiet(s, s', e.worker);
    case _ =>
  }

  lemma AccountedKept(cfg: Config, s: State, e: Event)
    requires Accounted(s) && Ordered(s)
    ensures Accounted(Step(cfg, s, e))
  {
    hide Accounted, Ordered, Transitions;
    if e.worker !in s.pcs {
      AccountedStart(cfg, s, e);
    } else if s.pcs[e.worker].Emitting? {
      AccountedEmit(s, e.worker, s.pcs[e.worker].t);
    } else {
      match (s.pcs[e.worker], e.act)
      case (Counting(now), Count(fault)) => AccountedCount(cfg, s, e.worker, now, fault);
      case (Rolling(now), Roll(fault)) => AccountedRoll(cfg, s, e.worker, now, fault);
      case (Opening(now, seen, window), OpenBreaker(fault)) => AccountedOpen(s, e.worker, now, seen, window, fault);
      case (Probing(_, _), FinishProbe(healthy, now, fault)) => AccountedFinish(s, e.worker, healthy, now, fault);
      case (_, Die) => AccountedQuiet(s, Step(cfg, s, e), e.worker);
      case _ =>
    }
  }

  lemma {:induction false} AlwaysAccounted(cfg: Config, run: seq<Event>)
    ensures Accounted(After(cfg, run))
  {
    if run == [] {
      assert Emitters(Init().pcs) == {};
    } else {
      AlwaysAccounted(cfg, run[..|run| - 1]);
      AlwaysOrdered(cfg, run[..|run| - 1]);
      AccountedKept(cfg, After(cfg, run[..|run| - 1]), run[|run| - 1]);
    }
  }

  // ---- The emitted findings

  ghost predicate SameMembers(a: seq<Transition>, b: seq<Transition>) {
    forall t :: t in a <==> t in b
  }

  /** `sorted` lists the same transitions by increasing version. */
  ghost predicate SortedByVersion(emitted: seq<Transition>, sorted: seq<Transition>) {
    VersionsIncrease(sorted) && SameMembers(sorted, emitted)
  }

  lemma VersionsTellApart(ts: seq<Transition>, t: Transition, u: Transition)
    requires VersionsIncrease(ts) && t in ts && u in ts && t.version == u.version
    ensures t == u
  {
  }

  /** In every run no transition is emitted twice, and no two emitted ones share a version. */
  lemma EmittedOnce(cfg: Config, run: seq<Event>, i: nat, j: nat)
    requires i < j < |After(cfg, run).emitted|
    ensures After(cfg, run).emitted[i].version != After(cfg, run).emitted[j].version
  {
    var s := After(cfg, run);
    AlwaysAccounted(cfg, run);
    AlwaysOrdered(cfg, run);
    if s.emitted[i].version == s.emitted[j].version {
      VersionsTellApart(Transitions(s.log), s.emitted[i], s.emitted[j]);
    }
  }

  lemma AllButLast(ts: seq<Transition>)
    requires VersionsIncrease(ts) && ts != []
    ensures ts[|ts| - 1] in ts && VersionsIncrease(ts[..|ts| - 1])
    ensures forall t :: t in ts ==> t.version <= ts[|ts| - 1].version
    ensures forall t :: t in ts[..|ts| - 1] <==> t in ts && t != ts[|ts| - 1]
  {
    var front, last := ts[..|ts| - 1], ts[|ts| - 1];
    assert ts == front + [last];
    forall t | t in front
      ensures t.version < last.version
    {
      var i :| 0 <= i < |front| && front[i] == t;
      assert ts[i] == t;
    }
  }

  lemma SameFronts(a: seq<Transition>, b: seq<Transition>)
    requires VersionsIncrease(a) && VersionsIncrease(b) && a != [] && SameMembers(a, b)
    ensures b != [] && a[|a| - 1] == b[|b| - 1]
    ensures VersionsIncrease(a[..|a| - 1]) && VersionsIncrease(b[..|b| - 1])
    ensures SameMembers(a[..|a| - 1], b[..|b| - 1])
  {
    assert a[0] in b;
    AllButLast(a);
    AllButLast(b);
    VersionsTellApart(a, a[|a| - 1], b[|b| - 1]);
    var fa, fb := a[..|a| - 1], b[..|b| - 1];
    assert forall t :: t in fa <==> t in a && t != a[|a| - 1];
    assert forall t :: t in fb <==> t in b && t != b[|b| - 1];
  }

  lemma {:induction false} SameSorted(a: seq<Transition>, b: seq<Transition>)
    requires VersionsIncrease(a) && VersionsIncrease(b) && SameMembers(a, b)
    ensures a == b
    decreases |a|
  {
    assert b == [] || b[0] in b;
    if a != [] {
      SameFronts(a, b);
      SameSorted(a[..|a| - 1], b[..|b| - 1]);
      assert a == a[..|a| - 1] + [a[|a| - 1]] && b == b[..|b| - 1] + [b[|b| - 1]];
    }
  }

  /**
   When no transition was dropped and none is still owed, the emitted ones, put in the order of
   their versions, are the breaker's whole history, and it runs through the cycle of a breaker.
   */
  lemma EmissionsTellTheHistory(cfg: Config, run: seq<Event>, sorted: seq<Transition>)
    requires After(cfg, run).dropped == 0 && Emitters(After(cfg, run).pcs) == {}
    requires SortedByVersion(After(cfg, run).emitted, sorted)
    ensures sorted == Transitions(After(cfg, run).log) && Cycles(sorted)
  {
    var s := After(cfg, run);
    var ts := Transitions(s.log);
    AlwaysAccounted(cfg, run);
    AlwaysOrdered(cfg, run);
    assert Distinct(ts) by {
      assert forall i, j :: 0 <= i < j < |ts| ==> ts[i].version < ts[j].version;
    }
    DistinctSize(ts);
    DistinctSize(s.emitted);
    var all, told := Elements(ts), Elements(s.emitted);
    assert told <= all && |told| == |all|;
    assert all == told + (all - told);
    assert forall t :: (t in ts <==> t in all) && (t in s.emitted <==> t in told);
    SameSorted(sorted, ts);
  }

  // ---- Why a breaker opens

  /** Transition number `k` of the log was earned: enough failures in one window since the last recovery. */
  ghost predicate Earned(cfg: Config, log: seq<Entry>) {
    forall k :: 0 <= k < |log| && log[k].Moved? && Opens(log[k].t) ==>
      exists window :: CountedSinceClosed(log[..k], window) >= cfg.failureThreshold
  }

  ghost predicate Counts(cfg: Config, s: State) {
    && (s.row.Some? && s.row.value.state.Closed? ==>
          s.row.value.failureCount == CountedSinceClosed(s.log, s.row.value.windowStart))
    && (s.row.Some? ==> forall w :: w > s.row.value.windowStart ==> CountedSinceClosed(s.log, w) == 0)
    && (forall w :: w in s.pcs && s.pcs[w].Opening? ==> s.row.Some? && s.pcs[w].seen <= s.row.value.version)
    && (forall w :: w in s.pcs && s.pcs[w].Opening? && s.row.Some? && s.row.value.version == s.pcs[w].seen
          ==> CountedSinceClosed(s.log, s.pcs[w].window) >= cfg.failureThreshold)
    && Earned(cfg, s.log)
  }

  lemma EarnedGrows(cfg: Config, log: seq<Entry>, entry: Entry)
    requires Earned(cfg, log)
    requires entry.Moved? && Opens(entry.t) ==> exists w :: CountedSinceClosed(log, w) >= cfg.failureThreshold
    ensures Earned(cfg, log + [entry])
  {
    var longer := log + [entry];
    forall k | 0 <= k < |longer| && longer[k].Moved? && Opens(longer[k].t)
      ensures exists window :: CountedSinceClosed(longer[..k], window) >= cfg.failureThreshold
    {
      assert longer[..k] == log[..k];
      assert log[..|log|] == log;
    }
  }

  lemma CountsIncremented(cfg: Config, s: State, worker: nat, now: int, window: int, row: Row, fault: Fault)
    requires Counts(cfg, s) && Some(row) == CountInWindow(s.row, window)
    ensures Counts(cfg, CountedIn(cfg, s, worker, now, window, row, fault))
  {
    hide Earned, Transitions, CountedSinceClosed;
    LogGrows(s.log, Failure(window));
    EarnedGrows(cfg, s.log, Failure(window));
  }

  lemma CountsRolled(cfg: Config, s: State, worker: nat, now: int, window: int, row: Row, fault: Fault)
    requires Counts(cfg, s) && (s.row.None? ==> s.log == [])
    requires Some(row) == RollWindow(s.row, window)
    ensures Counts(cfg, CountedIn(cfg, s, worker, now, window, row, fault))
  {
    hide Earned, Transitions, CountedSinceClosed;
    LogGrows(s.log, Failure(window));
    EarnedGrows(cfg, s.log, Failure(window));
    if s.row.None? { NothingCounted(); }
  }

  lemma NothingCounted()
    ensures forall w :: CountedSinceClosed([], w) == 0
  {
  }

  lemma CountsTransitioned(cfg: Config, s: State, worker: nat, from: BreakerState, row: Row, fault: Fault)
    requires Counts(cfg, s) && s.row.Some? && row.version > s.row.value.version
    requires row.windowStart == s.row.value.windowStart
    requires row.state.Closed? ==> row.failureCount == 0
    requires from.Closed? && row.state.Open? ==>
      exists w :: CountedSinceClosed(s.log, w) >= cfg.failureThreshold
    ensures Counts(cfg, Transitioned(s, worker, from, row, fault))
  {
    LogGrows(s.log, Moved(Transition(from, row.state, row.version)));
    EarnedGrows(cfg, s.log, Moved(Transition(from, row.state, row.version)));
  }

  lemma CountsProbe(cfg: Config, s: State, worker: nat, owner: string, now: int, fault: Fault)
    requires Counts(cfg, s)
    ensures Counts(cfg, StepProbe(cfg, s, worker, owner, now, fault))
  {
    LogGrows(s.log, Leased);
    EarnedGrows(cfg, s.log, Leased);
  }

  lemma CountsFinish(cfg: Config, s: State, worker: nat, healthy: bool, now: int, fault: Fault)
    requires Counts(cfg, s)
    ensures Counts(cfg, StepFinish(s, worker, healthy, now, fault))
  {
    var w := EndProbe(s.row, healthy, now);
    if w.Some? {
      CountsTransitioned(cfg, s, worker, HalfOpen, w.value, fault);
    }
  }

  lemma CountsOpen(cfg: Config, s: State, worker: nat, now: int, seen: nat, window: int, fault: Fault)
    requires Counts(cfg, s) && worker in s.pcs && s.pcs[worker] == Opening(now, seen, window)
    ensures Counts(cfg, StepOpen(s, worker, now, seen, fault))
  {
    var w := OpenIfUnchanged(s.row, seen, now);
    if w.Some? {
      assert CountedSinceClosed(s.log, window) >= cfg.failureThreshold;
      CountsTransitioned(cfg, s, worker, Closed, w.value, fault);
    }
  }

  /** Steps that write nothing. */
  lemma CountsQuiet(cfg: Config, s: State, s': State)
    requires Counts(cfg, s) && s'.row == s.row && s'.log == s.log
    requires forall w :: w in s'.pcs && s'.pcs[w].Opening? ==> w in s.pcs && s'.pcs[w] == s.pcs[w]
    ensures Counts(cfg, s')
  {
  }

  lemma CountsStepCount(cfg: Config, s: State, worker: nat, now: int, fault: Fault)
    requires Counts(cfg, s)
    ensures Counts(cfg, StepCount(cfg, s, worker, now, fault))
  {
    hide Counts, WindowStart;
    var w := CountInWindow(s.row, WindowStart(now, cfg.windowSeconds));
    if w.Some? { CountsIncremented(cfg, s, worker, now, WindowStart(now, cfg.windowSeconds), w.value, fault); }
    CountsQuiet(cfg, s, Idle(s, worker));
    CountsQuiet(cfg, s, At(s, worker, Rolling(now)));
  }

  lemma CountsStepRoll(cfg: Config, s: State, worker: nat, now: int, fault: Fault)
    requires Counts(cfg, s) && (s.row.None? ==> s.log == [])
    ensures Counts(cfg, StepRoll(cfg, s, worker, now, fault))
  {
    hide Counts, WindowStart;
    var w := RollWindow(s.row, WindowStart(now, cfg.windowSeconds));
    if w.Some? { CountsRolled(cfg, s, worker, now, WindowStart(now, cfg.windowSeconds), w.value, fault); }
    CountsQuiet(cfg, s, Idle(s, worker));
  }

  lemma CountsKept(cfg: Config, s: State, e: Event)
    requires Counts(cfg, s) && Ordered(s)
    ensures Counts(cfg, Step(cfg, s, e))
  {
    assert s.row.None? ==> s.log == [];
    hide Ordered, Earned;
    var s' := Step(cfg, s, e);
    if e.worker !in s.pcs {
      match e.act
      case ObserveFailure(now) => CountsQuiet(cfg, s, s');
      case Probe(owner, now, fault) => CountsProbe(cfg, s, e.worker, owner, now, fault);
      case _ =>
    } else {
      match (s.pcs[e.worker], e.act)
      case (Counting(now), Count(fault)) => CountsStepCount(cfg, s, e.worker, now, fault);
      case (Rolling(now), Roll(fault)) => CountsStepRoll(cfg, s, e.worker, now, fault);
      case (Opening(now, seen, window), OpenBreaker(fault)) =>
        CountsOpen(cfg, s, e.worker, now, seen, window, fault);
      case (Probing(_, _), FinishProbe(healthy, now, fault)) => CountsFinish(cfg, s, e.worker, healthy, now, fault);
      case (Emitting(_), Emit) => CountsQuiet(cfg, s, s');
      case (_, Die) => CountsQuiet(cfg, s, s');
      case _ =>
    }
  }

  lemma {:induction false} AlwaysCounts(cfg: Config, run: seq<Event>)
    ensures Counts(cfg, After(cfg, run))
  {
    if run != [] {
      AlwaysCounts(cfg, run[..|run| - 1]);
      AlwaysOrdered(cfg, run[..|run| - 1]);
      CountsKept(cfg, After(cfg, run[..|run| - 1]), run[|run| - 1]);
    }
  }

  /**
   Whatever increments, window rolls and stale snapshots are interleaved: each time the breaker
   went from CLOSED to OPEN, at least `failureThreshold` failures had been counted in one window
   since it last became CLOSED.
   */
  lemma OpeningIsEarned(cfg: Config, run: seq<Event>, k: nat)
    requires k < |After(cfg, run).log| && After(cfg, run).log[k].Moved? && Opens(After(cfg, run).log[k].t)
    ensures exists window :: CountedSinceClosed(After(cfg, run).log[..k], window) >= cfg.failureThreshold
  {
    AlwaysCounts(cfg, run);
  }

  lemma StepNeverBack(cfg: Config, s: State, e: Event)
    requires s.row.Some?
    ensures Step(cfg, s, e).row.Some?
    ensures s.row.value.windowStart <= Step(cfg, s, e).row.value.windowStart
    ensures s.row.value.version <= Step(cfg, s, e).row.value.version
  {
    hide WindowStart;
  }

  /** The failure window of an existing row never moves back. */
  lemma {:induction false} WindowNeverBack(cfg: Config, run: seq<Event>, more: seq<Event>)
    requires After(cfg, run).row.Some?
    ensures After(cfg, run + more).row.Some?
    ensures After(cfg, run).row.value.windowStart <= After(cfg, run + more).row.value.windowStart
    ensures After(cfg, run).row.value.version <= After(cfg, run + more).row.value.version
  {
    hide After, Step;
    if more == [] {
      assert run + more == run;
    } else {
      var front, e := more[..|more| - 1], more[|more| - 1];
      WindowNeverBack(cfg, run, front);
      assert run + more == run + front + [e];
      AfterStep(cfg, run + front, e);
      StepNeverBack(cfg, After(cfg, run + front), e);
    }
  }

  /** While readings of the clock do not go back, a CLOSED row takes every failure: in its window or in a later one. */
  lemma LaterFailuresAreTaken(cfg: Config, row: Row, began: int, now: int)
    requires row.state.Closed? && row.windowStart == WindowStart(began, cfg.windowSeconds) && began <= now
    ensures var window := WindowStart(now, cfg.windowSeconds);
      CountInWindow(Some(row), window).Some? || RollWindow(Some(row), window).Some?
  {
    WindowsInOrder(began, now, cfg.windowSeconds);
  }

  /** A lease is on the row exactly while it is HALF_OPEN. */
  lemma {:induction false} LeaseIffHalfOpen(cfg: Config, run: seq<Event>)
    requires After(cfg, run).row.Some?
    ensures After(cfg, run).row.value.lease.Some? <==> After(cfg, run).row.value.state.HalfOpen?
  {
    AlwaysOrdered(cfg, run);
  }
}
