/** Failures that add up, and what recovery counts from. */
module BreakerBursts {
  import opened Common
  import opened BreakerLogic
  import opened BreakerRows
  import opened BreakerProtocol

  /** One undisturbed failure. A step that does not fit where the worker stands by then changes nothing. */
  function OneFailure(worker: nat, now: int): seq<Event> {
    [Event(worker, ObserveFailure(now)), Event(worker, Count(NoFault)), Event(worker, Roll(NoFault)),
     Event(worker, OpenBreaker(NoFault)), Event(worker, Emit)]
  }

  /** One failure after the other, at these readings of the clock. */
  function Burst(worker: nat, readings: seq<int>): seq<Event> {
    if readings == [] then [] else Burst(worker, readings[..|readings| - 1]) + OneFailure(worker, readings[|readings| - 1])
  }

  lemma AfterFailure(cfg: Config, run: seq<Event>, worker: nat, now: int)
    ensures After(cfg, run + OneFailure(worker, now)) == Failed(cfg, After(cfg, run), worker, now)
  {
    hide After, Step;
    var all := OneFailure(worker, now);
    AfterStep(cfg, run, all[0]);
    AfterStep(cfg, run + [all[0]], all[1]);
    AfterStep(cfg, run + [all[0]] + [all[1]], all[2]);
    AfterStep(cfg, run + [all[0]] + [all[1]] + [all[2]], all[3]);
    AfterStep(cfg, run + [all[0]] + [all[1]] + [all[2]] + [all[3]], all[4]);
    assert run + all == run + [all[0]] + [all[1]] + [all[2]] + [all[3]] + [all[4]];
  }

  function Failed(cfg: Config, s: State, worker: nat, now: int): State {
    var s2 := Step(cfg, Step(cfg, s, Event(worker, ObserveFailure(now))), Event(worker, Count(NoFault)));
    Step(cfg, Step(cfg, Step(cfg, s2, Event(worker, Roll(NoFault))), Event(worker, OpenBreaker(NoFault))), Event(worker, Emit))
  }

  /** Failures the row has counted in the window that starts at `start`. */
  function CountedIn(row: Option<Row>, start: int): nat {
    if row.Some? && row.value.windowStart == start then row.value.failureCount else 0
  }

  /** A breaker that takes failures of the window that starts at `start`. */
  predicate Taking(row: Option<Row>, start: int) {
    row.Some? ==> row.value.state == Closed && row.value.windowStart <= start
  }

  function VersionOf(row: Option<Row>): nat {
    if row.Some? then row.value.version else 0
  }

  /** The first three steps count the failure, in the window of the row or in a new one. */
  lemma FailureIsCounted(cfg: Config, s: State, worker: nat, now: int, start: int)
    requires worker !in s.pcs && WindowStart(now, cfg.windowSeconds) == start && Taking(s.row, start)
    ensures var s2 := Step(cfg, Step(cfg, s, Event(worker, ObserveFailure(now))), Event(worker, Count(NoFault)));
      var s3 := Step(cfg, s2, Event(worker, Roll(NoFault)));
      && s3.emitted == s.emitted && s3.row.Some? && s3.row.value.state == Closed
      && s3.row.value.windowStart == start && s3.row.value.failureCount == CountedIn(s.row, start) + 1
      && s3.row.value.version == VersionOf(s.row)
      && (s.row.None? ==> s3.row == Some(Row(Closed, start, 1, 0, 0, None)))
      && (if s3.row.value.failureCount >= cfg.failureThreshold
          then worker in s3.pcs && s3.pcs[worker] == Opening(now, s3.row.value.version, start) else worker !in s3.pcs)
  {
    hide WindowStart;
    var s1 := At(s, worker, Counting(now));
    assert Step(cfg, s, Event(worker, ObserveFailure(now))) == s1;
    assert Step(cfg, s1, Event(worker, Count(NoFault))) == StepCount(cfg, s1, worker, now, NoFault);
  }

  /** One more failure is counted in its window; the one that reaches the threshold opens the breaker. */
  lemma OneMoreFailure(cfg: Config, s: State, worker: nat, now: int, start: int)
    requires worker !in s.pcs && WindowStart(now, cfg.windowSeconds) == start && Taking(s.row, start)
    ensures var s' := Failed(cfg, s, worker, now);
      && worker !in s'.pcs && s'.row.Some?
      && (s.row.None? && cfg.failureThreshold > 1 ==> s'.row == Some(Row(Closed, start, 1, 0, 0, None)))
      && s'.row.value.windowStart == start && s'.row.value.failureCount == CountedIn(s.row, start) + 1
      && (s'.row.value.failureCount < cfg.failureThreshold ==>
            s'.row.value.state == Closed && s'.row.value.version == VersionOf(s.row) && s'.emitted == s.emitted)
      && (s'.row.value.failureCount >= cfg.failureThreshold ==>
            s'.row.value.state == Open && s'.row.value.openedAt == now && s'.row.value.version == VersionOf(s.row) + 1
            && s'.emitted == s.emitted + [Transition(Closed, Open, VersionOf(s.row) + 1)])
  {
    FailureIsCounted(cfg, s, worker, now, start);
    var s2 := Step(cfg, Step(cfg, s, Event(worker, ObserveFailure(now))), Event(worker, Count(NoFault)));
    LastTwoSteps(cfg, Step(cfg, s2, Event(worker, Roll(NoFault))), worker, now, start);
    hide Step, CountedIn;
  }

  /** The last two open the breaker, if the count reached the threshold. */
  lemma LastTwoSteps(cfg: Config, s: State, worker: nat, now: int, start: int)
    requires s.row.Some? && s.row.value.state == Closed
    requires worker in s.pcs ==> s.pcs[worker] == Opening(now, s.row.value.version, start)
    ensures var s' := Step(cfg, Step(cfg, s, Event(worker, OpenBreaker(NoFault))), Event(worker, Emit));
      && worker !in s'.pcs
      && (worker !in s.pcs ==> s'.row == s.row && s'.emitted == s.emitted)
      && (worker in s.pcs ==>
            && s'.row == Some(s.row.value.(state := Open, openedAt := now, version := s.row.value.version + 1))
            && s'.emitted == s.emitted + [Transition(Closed, Open, s.row.value.version + 1)])
  {
    hide WindowStart;
  }

  /** A failure that an OPEN or HALF_OPEN breaker meets changes nothing. */
  lemma FailureOnOpen(cfg: Config, s: State, worker: nat, now: int)
    requires worker !in s.pcs && s.row.Some? && s.row.value.state != Closed
    ensures var s' := Failed(cfg, s, worker, now);
      worker !in s'.pcs && s'.row == s.row && s'.emitted == s.emitted
  {
    hide WindowStart;
    var s1 := At(s, worker, Counting(now));
    assert Step(cfg, s, Event(worker, ObserveFailure(now))) == s1;
    var s2 := At(s1, worker, Rolling(now));
    assert Step(cfg, s1, Event(worker, Count(NoFault))) == s2;
    assert Step(cfg, s2, Event(worker, Roll(NoFault))) == Idle(s2, worker);
  }

  /** How many more failures of the window that starts at `start` open the breaker. */
  function Needed(cfg: Config, row: Option<Row>, start: int): nat {
    var missing := cfg.failureThreshold - CountedIn(row, start);
    if missing > 1 then missing else 1
  }

  ghost predicate AllIn(readings: seq<int>, start: int, end: int) {
    forall i :: 0 <= i < |readings| ==> start <= readings[i] < end
  }

  /** Where a burst of `n` failures of one window leaves a breaker that had `before`. */
  ghost predicate BurstLeft(cfg: Config, before: State, after: State, worker: nat, readings: seq<int>, start: int) {
    var need := Needed(cfg, before.row, start);
    && worker !in after.pcs
    && (|readings| < need ==>
          && Taking(after.row, start) && CountedIn(after.row, start) == CountedIn(before.row, start) + |readings|
          && VersionOf(after.row) == VersionOf(before.row) && after.emitted == before.emitted)
    && (|readings| >= need ==>
          && after.row.Some? && after.row.value.state == Open && after.row.value.openedAt == readings[need - 1]
          && after.emitted == before.emitted + [Transition(Closed, Open, VersionOf(before.row) + 1)])
  }

  /**
   Undisturbed failures of one fixed window add up whenever in it they happen: short of the
   threshold the breaker stays CLOSED and has counted them all; the one that reaches it opens the
   breaker, with one finding, and those after it change nothing.
   */
  lemma {:induction false} BurstOpens(cfg: Config, run: seq<Event>, worker: nat, readings: seq<int>, k: int)
    requires cfg.windowSeconds > 0 && AllIn(readings, k * cfg.windowSeconds, (k + 1) * cfg.windowSeconds)
    requires worker !in After(cfg, run).pcs && Taking(After(cfg, run).row, k * cfg.windowSeconds)
    ensures BurstLeft(cfg, After(cfg, run), After(cfg, run + Burst(worker, readings)), worker, readings, k * cfg.windowSeconds)
  {
    hide After, Step, Failed, WindowStart, AllIn;
    if readings == [] {
      assert run + Burst(worker, readings) == run;
    } else {
      var front, now := readings[..|readings| - 1], readings[|readings| - 1];
      AllButLast(readings, k * cfg.windowSeconds, (k + 1) * cfg.windowSeconds);
      BurstOpens(cfg, run, worker, front, k);
      var earlier := run + Burst(worker, front);
      AfterFailure(cfg, earlier, worker, now);
      assert run + Burst(worker, readings) == earlier + OneFailure(worker, now);
      FixedWindow(now, k, cfg.windowSeconds);
      BurstGoesOn(cfg, After(cfg, run), After(cfg, earlier), worker, readings, k * cfg.windowSeconds);
    }
  }

  lemma AllButLast(readings: seq<int>, start: int, end: int)
    requires AllIn(readings, start, end) && readings != []
    ensures AllIn(readings[..|readings| - 1], start, end) && start <= readings[|readings| - 1] < end
  {
  }

  lemma BurstGoesOn(cfg: Config, before: State, s: State, worker: nat, readings: seq<int>, start: int)
    requires readings != [] && WindowStart(readings[|readings| - 1], cfg.windowSeconds) == start
    requires BurstLeft(cfg, before, s, worker, readings[..|readings| - 1], start)
    ensures BurstLeft(cfg, before, Failed(cfg, s, worker, readings[|readings| - 1]), worker, readings, start)
  {
    hide Failed, WindowStart;
    var now := readings[|readings| - 1];
    if |readings| - 1 < Needed(cfg, before.row, start) {
      OneMoreFailure(cfg, s, worker, now, start);
    } else {
      FailureOnOpen(cfg, s, worker, now);
    }
  }

  // ---- What a transition writes

  /** An OPEN breaker counts its recovery from the reading of the failure, or of the failed probe, that opened it. */
  lemma OpenedAtItsFailure(cfg: Config, s: State, e: Event)
    requires s.row.None? || s.row.value.state != Open
    requires Step(cfg, s, e).row.Some? && Step(cfg, s, e).row.value.state == Open
    ensures var row := Step(cfg, s, e).row.value;
      && e.worker in s.pcs && s.row.Some? && row.version == s.row.value.version + 1
      && row.windowStart == s.row.value.windowStart && row.failureCount == s.row.value.failureCount
      && (if e.act.OpenBreaker?
          then s.pcs[e.worker].Opening? && row.openedAt == s.pcs[e.worker].now && s.row.value.state == Closed
          else e.act.FinishProbe? && !e.act.healthy && row.openedAt == e.act.now && s.row.value.state == HalfOpen)
  {
  }

  /** Only a healthy probe closes a breaker, and the count starts again at 0. */
  lemma ClosedByHealthyProbe(cfg: Config, s: State, e: Event)
    requires s.row.Some? && s.row.value.state != Closed
    requires Step(cfg, s, e).row.Some? && Step(cfg, s, e).row.value.state == Closed
    ensures e.act.FinishProbe? && e.act.healthy && s.row.value.state == HalfOpen
    ensures Step(cfg, s, e).row.value == s.row.value.(state := Closed, lease := None, failureCount := 0,
                                                     version := s.row.value.version + 1)
  {
  }
}
