/**
 The breaker store of one worker process: its private cache, and the shared row of one target
 that every process changes by conditional writes.
 */
module ToolBreakerStore {
  import opened Common
  import opened BreakerLogic
  import opened BreakerRows
  import opened BreakerProtocol
  import opened BreakerProbes
  import opened BreakerSafety

  /** `later` adds to `earlier` only events of other workers. */
  predicate OnlyOthers(earlier: seq<Event>, later: seq<Event>, worker: nat) {
    earlier <= later && forall i :: |earlier| <= i < |later| ==> later[i].worker != worker
  }

  predicate Faulty(act: Action) {
    match act
    case Count(fault) => !fault.NoFault?
    case Roll(fault) => !fault.NoFault?
    case OpenBreaker(fault) => !fault.NoFault?
    case Probe(_, _, fault) => !fault.NoFault?
    case FinishProbe(_, _, fault) => !fault.NoFault?
    case _ => false
  }

  /** What may go wrong is a request to the store, and nothing else. */
  lemma OnlyRequestsAreFaulty(f: Fault, owner: string, healthy: bool, now: int)
    ensures f == NoFault <==> !Faulty(Count(f)) && !Faulty(Roll(f)) && !Faulty(OpenBreaker(f))
    ensures f == NoFault <==> !Faulty(Probe(owner, now, f)) && !Faulty(FinishProbe(healthy, now, f))
    ensures f != NoFault ==> Faulty(Count(f)) && Faulty(Roll(f)) && Faulty(OpenBreaker(f))
    ensures f != NoFault ==> Faulty(Probe(owner, now, f)) && Faulty(FinishProbe(healthy, now, f))
    ensures !Faulty(Action.ObserveFailure(now)) && !Faulty(Action.Emit) && !Faulty(Die)
  {
  }

  /** From position `from` on, only this worker acted, and all its requests were answered. */
  ghost predicate Undisturbed(events: seq<Event>, from: nat, worker: nat) {
    forall i :: from <= i < |events| ==> events[i].worker == worker && !Faulty(events[i].act)
  }

  /** Event by event: an answered step of this worker, and nothing else, keeps a stretch undisturbed. */
  lemma UndisturbedGrows(events: seq<Event>, e: Event, from: nat, worker: nat)
    ensures Undisturbed([], from, worker)
    ensures Undisturbed(events + [e], from, worker)
      <==> Undisturbed(events, from, worker) && (from <= |events| ==> e.worker == worker && !Faulty(e.act))
  {
    var longer := events + [e];
    assert forall i :: 0 <= i < |events| ==> longer[i] == events[i];
    assert longer[|events|] == e;
  }

  /** A write in an undisturbed stretch was answered, and met the row as it was at the start. */
  lemma NobodyElse(earlier: seq<Event>, between: seq<Event>, e: Event, later: seq<Event>)
    requires OnlyOthers(earlier, between, e.worker) && between + [e] <= later
    ensures Undisturbed(later, |earlier|, e.worker) ==> between == earlier && !Faulty(e.act)
  {
    assert later[|between|] == e;
    assert |between| == |earlier| || later[|earlier|] == between[|earlier|];
  }

  /** What an undisturbed count finds or leaves: the window's counter goes up, or a new window begins. */
  function CountedOnce(cfg: Config, row: Option<Row>, now: int): Option<Row> {
    var window := WindowStart(now, cfg.windowSeconds);
    if CountInWindow(row, window).Some? then CountInWindow(row, window) else RollWindow(row, window)
  }

  /** ... and the breaker opens when the count reaches the threshold. */
  function OpenedBy(cfg: Config, counted: Option<Row>, now: int): Option<Row> {
    if counted.Some? && counted.value.failureCount >= cfg.failureThreshold
    then OpenIfUnchanged(counted, counted.value.version, now)
    else None
  }

  function Else(row: Option<Row>, otherwise: Option<Row>): Option<Row> {
    if row.Some? then row else otherwise
  }

  /** The emission that goes with a transition write, if it was made. */
  function Emission(from: BreakerState, written: Option<Row>): seq<Transition> {
    if written.Some? then [Transition(from, written.value.state, written.value.version)] else []
  }

  lemma {:induction false} OthersLeaveAlone(cfg: Config, earlier: seq<Event>, later: seq<Event>, worker: nat)
    requires OnlyOthers(earlier, later, worker)
    ensures worker in After(cfg, earlier).pcs <==> worker in After(cfg, later).pcs
    ensures worker in After(cfg, earlier).pcs ==> After(cfg, later).pcs[worker] == After(cfg, earlier).pcs[worker]
    decreases |later|
  {
    if earlier != later {
      OthersLeaveAlone(cfg, earlier, later[..|later| - 1], worker);
      OnlyOwnCounter(cfg, After(cfg, later[..|later| - 1]), later[|later| - 1], worker);
    }
  }

  lemma OnlyOwnCounter(cfg: Config, s: State, e: Event, worker: nat)
    requires e.worker != worker
    ensures worker in Step(cfg, s, e).pcs <==> worker in s.pcs
    ensures worker in s.pcs ==> Step(cfg, s, e).pcs[worker] == s.pcs[worker]
  {
  }

  /** The one stored row of a target, with every value it has held. */
  class BreakerTable {
    const cfg: Config
    var row: Option<Row>
    var past: seq<Option<Row>>
    ghost var trace: seq<Event>

    ghost predicate Valid()
      reads this
    {
      var s := After(cfg, trace);
      row == s.row && past == s.history
    }

    ghost predicate IsIdle(worker: nat)
      reads this
    {
      worker !in After(cfg, trace).pcs
    }

    ghost predicate IsProbing(worker: nat)
      reads this
    {
      worker in After(cfg, trace).pcs && After(cfg, trace).pcs[worker].Probing?
    }

    /** Where a call stands: with the probe lease it was told it won, or nowhere. */
    ghost predicate Ready(worker: nat, isProbe: bool)
      reads this
    {
      if isProbe then IsProbing(worker) else IsIdle(worker)
    }

    ghost predicate Stands(worker: nat, pc: Pc)
      reads this
    {
      worker in After(cfg, trace).pcs && After(cfg, trace).pcs[worker] == pc
    }

    constructor (cfg: Config)
      ensures Valid() && this.cfg == cfg && trace == []
    {
      this.cfg := cfg;
      row, past, trace := None, [None], [];
    }

    /** Other workers may act here, any number of times; a caller knows only what this contract says. */
    method Interleave(worker: nat)
      requires Valid()
      modifies this
      ensures Valid() && OnlyOthers(old(trace), trace, worker) && old(past) <= past
      ensures worker in After(cfg, trace).pcs <==> worker in After(cfg, old(trace)).pcs
      ensures worker in After(cfg, trace).pcs ==> Stands(worker, After(cfg, old(trace)).pcs[worker])
    {
      OthersLeaveAlone(cfg, trace, trace, worker);
    }

    /** A conditional update: `w` is the row it would leave, None if its condition fails. */
    method Update(w: Option<Row>, fault: Fault) returns (applied: bool)
      modifies this`row, this`past
      ensures applied <==> w.Some? && !fault.LostBefore?
      ensures row == (if applied then w else old(row)) && past == (if applied then old(past) + [w] else old(past))
    {
      applied := w.Some? && !fault.LostBefore?;
      if applied {
        row := w;
        past := past + [w];
      }
    }
  }

  /** What a lease write makes of the row and of its worker. */
  lemma ProbeStep(cfg: Config, s: State, worker: nat, owner: string, now: int, fault: Fault)
    requires worker !in s.pcs
    ensures var s' := Step(cfg, s, Event(worker, Probe(owner, now, fault)));
      var w := AcquireLease(s.row, owner, now, cfg.probeLeaseSeconds);
      && s'.row == (if w.Some? && !fault.LostBefore? then w else s.row)
      && s'.history == (if w.Some? && !fault.LostBefore? then s.history + [w] else s.history)
      && (if w.Some? && fault.NoFault? then Probes(s', worker) && Holds(s', worker) else worker !in s'.pcs)
  {
    hide WindowStart;
  }

  datatype PreCheckDecision = Proceed | FastFail | Probing

  datatype CacheEntry = CacheEntry(state: BreakerState, openedAt: int, version: nat, cachedAt: int)

  /** What pre_check remembers of a reading; an absent row counts as CLOSED. */
  function EntryOf(row: Option<Row>, now: int): CacheEntry {
    if row.None? then CacheEntry(Closed, 0, 0, now)
    else CacheEntry(row.value.state, row.value.openedAt, row.value.version, now)
  }

  /** The cache decides alone: a fresh entry that is CLOSED, or OPEN and still recovering. */
  predicate CacheDecides(cfg: Config, cached: Option<CacheEntry>, now: int) {
    cached.Some? &&
    var e := cached.value;
    CacheEntryFresh(e.state, e.cachedAt, now, cfg.recoverySeconds, cfg.closedCacheTtl) &&
    (IsOpenFastFail(e.state, e.openedAt, now, cfg.recoverySeconds) || e.state.Closed?)
  }

  /** ... that is, one not from the future, CLOSED for less than the closed TTL, or OPEN for less than the recovery and not past it. */
  lemma CacheDecidesInWords(cfg: Config, entry: CacheEntry, now: int)
    ensures !CacheDecides(cfg, None, now)
    ensures CacheDecides(cfg, Some(entry), now) <==>
      (0 <= now - entry.cachedAt
       && ((entry.state == Closed && now - entry.cachedAt < cfg.closedCacheTtl)
           || (entry.state == Open && now - entry.cachedAt < cfg.recoverySeconds
               && now < entry.openedAt + cfg.recoverySeconds)))
  {
  }

  /** A cached entry is what some reading showed. */
  ghost predicate Remembered(cached: Option<CacheEntry>, readings: seq<(Option<Row>, int)>) {
    cached.Some? ==> exists i :: 0 <= i < |readings| && cached.value == EntryOf(readings[i].0, readings[i].1)
  }

  lemma RememberedNow(seen: Option<Row>, now: int, readings: seq<(Option<Row>, int)>)
    requires readings != [] && readings[|readings| - 1] == (seen, now)
    ensures Remembered(Some(EntryOf(seen, now)), readings)
  {
  }

  /** Every reading showed a value that the row has held. */
  ghost predicate Genuine(readings: seq<(Option<Row>, int)>, past: seq<Option<Row>>) {
    forall i :: 0 <= i < |readings| ==> readings[i].0 in past
  }

  lemma StillGenuine(readings: seq<(Option<Row>, int)>, past: seq<Option<Row>>, longer: seq<Option<Row>>)
    requires Genuine(readings, past) && past <= longer
    ensures Genuine(readings, longer)
  {
  }

  /** Less than the closed TTL ago the row was read, and it was absent or CLOSED. */
  ghost predicate ReadClosed(cfg: Config, readings: seq<(Option<Row>, int)>, past: seq<Option<Row>>, now: int) {
    exists i :: 0 <= i < |readings| && readings[i].0 in past
      && (readings[i].0.None? || readings[i].0.value.state.Closed?) && 0 <= now - readings[i].1 < cfg.closedCacheTtl
  }

  /** The row was read as OPEN, and its recovery is not over yet. */
  ghost predicate ReadOpen(cfg: Config, readings: seq<(Option<Row>, int)>, past: seq<Option<Row>>, now: int) {
    exists i :: 0 <= i < |readings| && readings[i].0 in past
      && readings[i].0.Some? && readings[i].0.value.state.Open? && now < readings[i].0.value.openedAt + cfg.recoverySeconds
  }

  /** A decision of the cache alone rests on a reading of the row. */
  lemma CacheRestsOnReading(cfg: Config, entry: CacheEntry, readings: seq<(Option<Row>, int)>, past: seq<Option<Row>>, now: int)
    requires Remembered(Some(entry), readings) && Genuine(readings, past) && CacheDecides(cfg, Some(entry), now)
    ensures entry.state.Open? ==> ReadOpen(cfg, readings, past, now)
    ensures entry.state.Closed? ==> ReadClosed(cfg, readings, past, now)
  {
    var i :| 0 <= i < |readings| && entry == EntryOf(readings[i].0, readings[i].1);
    assert readings[i].0 in past;
  }

  class Store {
    const cfg: Config
    const worker: nat
    const table: BreakerTable
    var cached: Option<CacheEntry>
    var ddbOpCount: nat
    var storeUnavailable: bool
    var findings: seq<Transition>          // what on_transition was called with
    ghost var readings: seq<(Option<Row>, int)>

    ghost predicate Valid()
      reads this, table
    {
      && table.Valid() && table.cfg == cfg
      && Remembered(cached, readings) && Genuine(readings, table.past)
    }

    constructor (table: BreakerTable, worker: nat)
      requires table.Valid()
      ensures Valid() && this.table == table && this.worker == worker && cached.None? && ddbOpCount == 0 && !storeUnavailable && findings == []
    {
      this.cfg := table.cfg;
      this.table, this.worker := table, worker;
      cached, ddbOpCount, storeUnavailable, findings, readings := None, 0, false, [], [];
    }

    /** _get_row: any value the row has held, or nothing when the store does not answer. */
    method GetRow(now: int, answers: bool, index: nat) returns (seen: Option<Row>)
      requires Valid() && index < |table.past|
      modifies this`ddbOpCount, this`storeUnavailable, this`readings
      ensures Valid() && ddbOpCount == old(ddbOpCount) + 1 && storeUnavailable == !answers
      ensures seen == if answers then table.past[index] else None
      ensures readings == if answers then old(readings) + [(seen, now)] else old(readings)
    {
      ddbOpCount := ddbOpCount + 1;
      storeUnavailable := !answers;
      seen := if answers then table.past[index] else None;
      if answers {
        assert table.past[index] in table.past;
        readings := readings + [(seen, now)];
        assert forall i :: 0 <= i < |old(readings)| ==> readings[i] == old(readings)[i];
      }
    }

    /** _try_acquire_probe_lease: a refused write and a failed one look the same to the caller. */
    method TryAcquireProbeLease(owner: string, now: int, fault: Fault) returns (won: bool)
      requires Valid() && table.IsIdle(worker)
      modifies this`ddbOpCount, this`cached, table
      ensures Valid() && ddbOpCount == old(ddbOpCount) + 1
      ensures table.trace == old(table.trace) + [Event(worker, Probe(owner, now, fault))]
      ensures table.Ready(worker, won) && (won ==> Holds(After(cfg, table.trace), worker))
      ensures won <==> fault.NoFault? && AcquireLease(old(table.row), owner, now, cfg.probeLeaseSeconds).Some?
      ensures won ==> table.row.Some? && table.row.value.state.HalfOpen?
                      && table.row.value.lease == Some(Lease(owner, now + cfg.probeLeaseSeconds))
      ensures cached == if won then None else old(cached)
    {
      hide After, Step, Holds;
      ddbOpCount := ddbOpCount + 1;
      AfterStep(cfg, table.trace, Event(worker, Probe(owner, now, fault)));
      ProbeStep(cfg, After(cfg, table.trace), worker, owner, now, fault);
      var applied := table.Update(AcquireLease(table.row, owner, now, cfg.probeLeaseSeconds), fault);
      table.trace := table.trace + [Event(worker, Probe(owner, now, fault))];
      won := applied && fault.NoFault?;
      if won {
        cached := None;
      }
    }

    /** The end of a check that found a probe due: whoever loses the lease fast-fails. */
    method AttemptProbe(owner: string, now: int, fault: Fault) returns (d: PreCheckDecision)
      requires Valid() && table.IsIdle(worker)
      modifies this`ddbOpCount, this`cached, table
      ensures Valid() && table.Ready(worker, d.Probing?) && (d.Probing? || d.FastFail?)
      ensures ddbOpCount == old(ddbOpCount) + 1 && |table.trace| > |old(table.trace)|
      ensures d.Probing? ==> fault.NoFault? && Holds(After(cfg, table.trace), worker)
                             && table.row.Some? && table.row.value.lease == Some(Lease(owner, now + cfg.probeLeaseSeconds))
      ensures cached == if d.Probing? then None else old(cached)
      ensures Uncontended(old(table.trace), owner, now, fault) && fault.NoFault? ==>
        (d.Probing? <==> AcquireLease(old(table.row), owner, now, cfg.probeLeaseSeconds).Some?)
    {
      hide After, Step, Holds, Remembered, Genuine;
      ghost var past := table.past;
      table.Interleave(worker);
      StillGenuine(readings, past, table.past);
      ghost var between := table.trace;
      var won := TryAcquireProbeLease(owner, now, fault);
      assert table.trace[..|table.trace| - 1] == between;
      assert (old(table.trace) + [Event(worker, Probe(owner, now, fault))])[..|old(table.trace)|] == old(table.trace);
      d := if won then PreCheckDecision.Probing else FastFail;
    }

    /**
     pre_check. Decisions without a store call rest on a fresh reading; a store that does not
     answer lets the call proceed; and a due probe is granted unless somebody else got in between
     or the lease write failed.
     */
    method PreCheck(owner: string, now: int, answers: bool, index: nat, fault: Fault) returns (d: PreCheckDecision)
      requires Valid() && table.IsIdle(worker) && index < |table.past|
      modifies this, table
      ensures Valid() && table.Ready(worker, d.Probing?)
      // decided from the cache alone
      ensures ddbOpCount == old(ddbOpCount) <==> CacheDecides(cfg, old(cached), now)
      ensures ddbOpCount == old(ddbOpCount) ==> old(cached).Some? && table.trace == old(table.trace) && !d.Probing?
      ensures ddbOpCount == old(ddbOpCount) && d.FastFail? ==> ReadOpen(cfg, old(readings), old(table.past), now)
      ensures ddbOpCount == old(ddbOpCount) && d.Proceed? ==> ReadClosed(cfg, old(readings), old(table.past), now)
      // decided on a reading
      ensures !CacheDecides(cfg, old(cached), now) && !answers ==> d.Proceed?
      ensures !CacheDecides(cfg, old(cached), now) && answers ==>
        (d.Proceed? <==> old(table.past)[index].None? || old(table.past)[index].value.state.Closed?)
      ensures d.Probing? ==> fault.NoFault? && Holds(After(cfg, table.trace), worker)
                             && table.row.value.lease == Some(Lease(owner, now + cfg.probeLeaseSeconds))
      // what was read is remembered, unless the check went on to win the lease
      ensures !CacheDecides(cfg, old(cached), now) && answers && !d.Probing? ==> (
        var seen := old(table.past)[index];
        cached == Some(if seen.None? then CacheEntry(Closed, 0, 0, now)
                       else CacheEntry(seen.value.state, seen.value.openedAt, seen.value.version, now)))
      // an OPEN row that is still recovering costs no write
      ensures !CacheDecides(cfg, old(cached), now) && answers && old(table.past)[index].Some?
              && old(table.past)[index].value.state == Open && now < old(table.past)[index].value.openedAt + cfg.recoverySeconds ==>
        d.FastFail? && table.trace == old(table.trace)
      // one past its recovery, or a HALF_OPEN one whose lease has run out, is up for a probe
      ensures Uncontended(old(table.trace), owner, now, fault) && fault.NoFault? && answers
              && old(table.past)[index] == old(table.row) && !CacheDecides(cfg, old(cached), now) ==>
        (d.Probing? <==>
          (old(table.row).Some?
           && ((old(table.row).value.state == Open && now >= old(table.row).value.openedAt + cfg.recoverySeconds)
               || (old(table.row).value.lease.Some? && old(table.row).value.lease.value.expiresAt < now))))
    {
      hide After, Step, Holds, Transitions, Cycles, VersionsIncrease, Remembered, Genuine, ReadClosed, ReadOpen;
      if CacheDecides(cfg, cached, now) { CacheRestsOnReading(cfg, cached.value, readings, table.past, now); }
      if cached.Some? && CacheEntryFresh(cached.value.state, cached.value.cachedAt, now, cfg.recoverySeconds, cfg.closedCacheTtl) {
        if IsOpenFastFail(cached.value.state, cached.value.openedAt, now, cfg.recoverySeconds) {
          return FastFail;
        }
        if cached.value.state == Closed {
          return Proceed;
        }
      }
      AlwaysOrdered(cfg, table.trace);
      var seen := GetRow(now, answers, index);
      if seen.None? && storeUnavailable {
        return Proceed;
      }
      cached := Some(EntryOf(seen, now));
      RememberedNow(seen, now, readings);
      if seen.None? || seen.value.state == Closed {
        return Proceed;
      }
      if IsOpenFastFail(seen.value.state, seen.value.openedAt, now, cfg.recoverySeconds) {
        return FastFail;
      }
      d := Proceed;
      if IsProbeEligible(seen.value.state, seen.value.openedAt, now, cfg.recoverySeconds) || seen.value.state == HalfOpen {
        d := AttemptProbe(owner, now, fault);
      }
    }

    /** Between the start of a check and its lease write, if it came to one, nobody else wrote. */
    ghost predicate Uncontended(before: seq<Event>, owner: string, now: int, fault: Fault)
      reads table
    {
      table.trace == before || table.trace == before + [Event(worker, Probe(owner, now, fault))]
    }

    /** The worker's own steps since `before`, with other workers' steps anywhere in between. */
    ghost predicate Progress(before: seq<Event>)
      reads this, table
    {
      Valid() && table.IsIdle(worker) && before <= table.trace
    }

    /** What was emitted, if anything: one transition that is in the breaker's history. */
    ghost predicate Emitted(before: seq<Transition>)
      reads this, table
    {
      findings == before ||
      (|findings| == |before| + 1 && before <= findings
       && findings[|before|] in Transitions(After(cfg, table.trace).log))
    }

    /** _emit, for a transition this worker has just performed. */
    method Emit(t: Transition)
      requires Valid() && table.Stands(worker, Emitting(t))
      modifies this`findings, this`cached, table`trace
      ensures Progress(old(table.trace)) && findings == old(findings) + [t]
      ensures t in Transitions(After(cfg, table.trace).log)
      ensures table.trace == old(table.trace) + [Event(worker, Action.Emit)] && cached.None?
    {
      AlwaysAccounted(cfg, table.trace);
      assert Owes(After(cfg, table.trace).pcs, worker, t);
      AfterStep(cfg, table.trace, Event(worker, Action.Emit));
      table.trace := table.trace + [Event(worker, Action.Emit)];
      cached := None;
      findings := findings + [t];
    }

    /** _transition_from_probe: HALF_OPEN -> CLOSED or OPEN. */
    method TransitionFromProbe(healthy: bool, now: int, fault: Fault)
      requires Valid() && table.IsProbing(worker)
      modifies this, table
      ensures Progress(old(table.trace)) && Emitted(old(findings)) && ddbOpCount == old(ddbOpCount) + 1
      ensures findings != old(findings) ==> cached.None?
      ensures Undisturbed(table.trace, |old(table.trace)|, worker) ==> (
        var w := EndProbe(old(table.row), healthy, now);
        table.row == Else(w, old(table.row)) && findings == old(findings) + Emission(HalfOpen, w))
      ensures Undisturbed(table.trace, |old(table.trace)|, worker) && old(table.row).Some? && old(table.row).value.state == HalfOpen ==> (
        var was := old(table.row).value;
        && table.row == Some(if healthy then Row(Closed, was.windowStart, 0, was.version + 1, was.openedAt, None)
                             else Row(Open, was.windowStart, was.failureCount, was.version + 1, now, None))
        && findings == old(findings) + [Transition(HalfOpen, if healthy then Closed else Open, was.version + 1)])
    {
      hide After, Transitions;
      table.Interleave(worker);
      ghost var between := table.trace;
      ddbOpCount := ddbOpCount + 1;
      var w := EndProbe(table.row, healthy, now);
      AfterStep(cfg, table.trace, Event(worker, FinishProbe(healthy, now, fault)));
      var applied := table.Update(w, fault);
      table.trace := table.trace + [Event(worker, FinishProbe(healthy, now, fault))];
      if applied && fault.NoFault? {
        Emit(Transition(HalfOpen, w.value.state, w.value.version));
      }
      assert old(table.trace) <= between <= table.trace;
      NobodyElse(old(table.trace), between, Event(worker, FinishProbe(healthy, now, fault)), table.trace);
    }

    /** observe_success: write-quiet on the CLOSED path, the end of the probe otherwise. */
    method ObserveSuccess(isProbe: bool, now: int, fault: Fault)
      requires Valid() && table.Ready(worker, isProbe)
      modifies this, table
      ensures Progress(old(table.trace)) && Emitted(old(findings))
      ensures !isProbe ==> table.trace == old(table.trace) && ddbOpCount == old(ddbOpCount)
      ensures isProbe && Undisturbed(table.trace, |old(table.trace)|, worker) ==> (
        var w := EndProbe(old(table.row), true, now);
        table.row == Else(w, old(table.row)) && findings == old(findings) + Emission(HalfOpen, w))
    {
      if isProbe {
        TransitionFromProbe(true, now, fault);
      }
    }

    /** observe_failure: neutral classes write nothing; a prober that meets one leaves its lease to run out. */
    method ObserveFailure(c: FailureClass, isProbe: bool, now: int, fault: Fault)
      requires Valid() && table.Ready(worker, isProbe)
      modifies this, table
      ensures Progress(old(table.trace)) && Emitted(old(findings))
      ensures !(c.Transient? || c.Timeout? || (c.Throttle? && cfg.includeThrottle)) ==>
        table.trace == (if isProbe then old(table.trace) + [Event(worker, Die)] else old(table.trace))
        && table.row == old(table.row) && findings == old(findings) && ddbOpCount == old(ddbOpCount)
      ensures (c.Transient? || c.Timeout? || (c.Throttle? && cfg.includeThrottle)) && isProbe && Undisturbed(table.trace, |old(table.trace)|, worker) ==> (
        var w := EndProbe(old(table.row), false, now);
        table.row == Else(w, old(table.row)) && findings == old(findings) + Emission(HalfOpen, w))
      ensures (c.Transient? || c.Timeout? || (c.Throttle? && cfg.includeThrottle)) && !isProbe && Undisturbed(table.trace, |old(table.trace)|, worker) ==> (
        var counted := CountedOnce(cfg, old(table.row), now);
        var w := OpenedBy(cfg, counted, now);
        table.row == Else(w, Else(counted, old(table.row))) && findings == old(findings) + Emission(Closed, w))
    {
      if !ShouldCountFailure(c, cfg.includeThrottle) {
        if isProbe {
          AfterStep(cfg, table.trace, Event(worker, Die));
          table.trace := table.trace + [Event(worker, Die)];
        }
        return;
      }
      if isProbe {
        TransitionFromProbe(false, now, fault);
      } else {
        CountAndMaybeOpen(now);
      }
    }

    /** Where a counted failure leaves the worker: about to open the breaker, or done. */
    ghost predicate AfterCount(now: int, row: Row)
      reads this, table
    {
      if row.failureCount >= cfg.failureThreshold
      then table.Stands(worker, Opening(now, row.version, WindowStart(now, cfg.windowSeconds)))
      else table.IsIdle(worker)
    }

    /** The increment within the current window; `refused` if the row is not in that window. */
    method CountOnce(now: int) returns (reply: Option<Row>, refused: bool)
      requires Valid() && table.Stands(worker, Counting(now))
      modifies this`ddbOpCount, table
      ensures Valid() && old(table.trace) <= table.trace && ddbOpCount == old(ddbOpCount) + 1
      ensures reply.Some? ==> !refused && AfterCount(now, reply.value)
      ensures reply.None? ==> if refused then table.Stands(worker, Rolling(now)) else table.IsIdle(worker)
      ensures Undisturbed(table.trace, |old(table.trace)|, worker) ==> (
        var w := CountInWindow(old(table.row), WindowStart(now, cfg.windowSeconds));
        reply == w && refused == w.None? && table.row == Else(w, old(table.row)))
    {
      hide After, Transitions;
      table.Interleave(worker);
      ghost var between := table.trace;
      var fault: Fault := *;
      ddbOpCount := ddbOpCount + 1;
      var w := CountInWindow(table.row, WindowStart(now, cfg.windowSeconds));
      AfterStep(cfg, table.trace, Event(worker, Count(fault)));
      var applied := table.Update(w, fault);
      table.trace := table.trace + [Event(worker, Count(fault))];
      reply := if applied && fault.NoFault? then w else None;
      refused := !applied && fault.NoFault?;
      assert old(table.trace) <= between <= table.trace;
      NobodyElse(old(table.trace), between, Event(worker, Count(fault)), table.trace);
    }

    /** The write that rolls or creates the window. */
    method RollOnce(now: int) returns (reply: Option<Row>)
      requires Valid() && table.Stands(worker, Rolling(now))
      modifies this`ddbOpCount, table
      ensures Valid() && old(table.trace) <= table.trace && ddbOpCount == old(ddbOpCount) + 1
      ensures if reply.Some? then AfterCount(now, reply.value) else table.IsIdle(worker)
      ensures Undisturbed(table.trace, |old(table.trace)|, worker) ==> (
        reply == RollWindow(old(table.row), WindowStart(now, cfg.windowSeconds)) && table.row == Else(reply, old(table.row)))
    {
      hide After, Transitions;
      table.Interleave(worker);
      ghost var between := table.trace;
      var fault: Fault := *;
      ddbOpCount := ddbOpCount + 1;
      var w := RollWindow(table.row, WindowStart(now, cfg.windowSeconds));
      AfterStep(cfg, table.trace, Event(worker, Roll(fault)));
      var applied := table.Update(w, fault);
      table.trace := table.trace + [Event(worker, Roll(fault))];
      reply := if applied && fault.NoFault? then w else None;
      assert old(table.trace) <= between <= table.trace;
      NobodyElse(old(table.trace), between, Event(worker, Roll(fault)), table.trace);
    }

    /** _increment_failure: count within the window, else roll or create it; the reply is the new row. */
    method IncrementFailure(now: int) returns (reply: Option<Row>)
      requires Valid() && table.Stands(worker, Counting(now))
      modifies this`ddbOpCount, table
      ensures Valid() && old(table.trace) <= table.trace
      ensures old(ddbOpCount) + 1 <= ddbOpCount <= old(ddbOpCount) + 2
      ensures if reply.Some? then AfterCount(now, reply.value) else table.IsIdle(worker)
      ensures Undisturbed(table.trace, |old(table.trace)|, worker) ==> (
        reply == CountedOnce(cfg, old(table.row), now) && table.row == Else(reply, old(table.row)))
    {
      var refused;
      reply, refused := CountOnce(now);
      if refused {
        reply := RollOnce(now);
      }
    }

    /** The write that opens the breaker, guarded by the version the counting reply showed. */
    method OpenOnce(now: int, seen: nat)
      requires Valid() && table.Stands(worker, Opening(now, seen, WindowStart(now, cfg.windowSeconds)))
      modifies this, table
      ensures Progress(old(table.trace)) && Emitted(old(findings)) && ddbOpCount == old(ddbOpCount) + 1
      ensures findings != old(findings) ==> cached.None?
      ensures Undisturbed(table.trace, |old(table.trace)|, worker) ==> (
        var w := OpenIfUnchanged(old(table.row), seen, now);
        table.row == Else(w, old(table.row)) && findings == old(findings) + Emission(Closed, w))
    {
      hide After, Transitions;
      table.Interleave(worker);
      ghost var between := table.trace;
      var fault: Fault := *;
      ddbOpCount := ddbOpCount + 1;
      var w := OpenIfUnchanged(table.row, seen, now);
      AfterStep(cfg, table.trace, Event(worker, OpenBreaker(fault)));
      var applied := table.Update(w, fault);
      table.trace := table.trace + [Event(worker, OpenBreaker(fault))];
      if applied && fault.NoFault? {
        Emit(Transition(Closed, w.value.state, w.value.version));
      }
      assert old(table.trace) <= between <= table.trace;
      NobodyElse(old(table.trace), between, Event(worker, OpenBreaker(fault)), table.trace);
    }

    /** _count_and_maybe_open. */
    method CountAndMaybeOpen(now: int)
      requires Valid() && table.IsIdle(worker)
      modifies this, table
      ensures Progress(old(table.trace)) && Emitted(old(findings))
      ensures old(ddbOpCount) + 1 <= ddbOpCount <= old(ddbOpCount) + 3
      ensures findings != old(findings) ==> cached.None?
      ensures Undisturbed(table.trace, |old(table.trace)|, worker) ==> (
        var counted := CountedOnce(cfg, old(table.row), now);
        var w := OpenedBy(cfg, counted, now);
        table.row == Else(w, Else(counted, old(table.row))) && findings == old(findings) + Emission(Closed, w))
    {
      AfterStep(cfg, table.trace, Event(worker, Action.ObserveFailure(now)));
      table.trace := table.trace + [Event(worker, Action.ObserveFailure(now))];
      var reply := IncrementFailure(now);
      if reply.Some? && reply.value.failureCount >= cfg.failureThreshold {
        OpenOnce(now, reply.value.version);
      }
    }
  }
}
