/** The failure taxonomy's retry side. */
module FailureTaxonomy {
  import opened BreakerLogic

  datatype RetryDisposition = RetryWithBackoff | RetryAfterHuman | Never

  function Disposition(c: FailureClass): RetryDisposition {
    match c
    case Transient | Throttle | Timeout => RetryWithBackoff
    case ApprovalAbsent => RetryAfterHuman
    case _ => Never
  }

  predicate IsAutoRetryable(c: FailureClass) {
    Disposition(c).RetryWithBackoff?
  }

  /**
   The two readings of the taxonomy agree: what is retried without a human is what tells on the
   target's health, throttling counted in, and only an absent approval waits for a human.
   */
  lemma RetriedIffHealthSignal(c: FailureClass)
    ensures IsAutoRetryable(c) <==> ShouldCountFailure(c, true)
    ensures ShouldCountFailure(c, false) <==> IsAutoRetryable(c) && c != Throttle
    ensures Disposition(c).RetryAfterHuman? <==> c == ApprovalAbsent
    ensures c in {Validation, PolicyDenied, Authz, Indeterminate, CircuitOpen, InvalidAgentConfig, Unknown} ==> Disposition(c).Never?
  {
  }
}

/** The remaining-time guard. */
module FabricationDeadline {
  import opened Common

  /** What asking the clock yields, in milliseconds left. */
  datatype Reading = NoClock | ClockRaised | Millis(ms: real)

  /** Seconds left; nothing means unlimited. */
  function Remaining(r: Reading): Option<real> {
    if r.Millis? then Some(if r.ms / 1000.0 > 0.0 then r.ms / 1000.0 else 0.0) else None
  }

  predicate InsideMargin(r: Reading, margin: real) {
    Remaining(r).Some? && Remaining(r).value <= margin
  }

  predicate Fits(r: Reading, margin: real, seconds: real) {
    Remaining(r).None? || Remaining(r).value - seconds > margin
  }

  /** A backoff fits if it leaves more than the margin of the seconds left, which are never counted below 0; without a clock it always fits. */
  lemma FitsIfMoreIsLeft(r: Reading, margin: real, seconds: real)
    ensures !r.Millis? ==> Fits(r, margin, seconds)
    ensures r.Millis? && r.ms >= 0.0 ==> (Fits(r, margin, seconds) <==> r.ms > (margin + seconds) * 1000.0)
    ensures r.Millis? && r.ms < 0.0 ==> (Fits(r, margin, seconds) <==> margin + seconds < 0.0)
  {
    if r.Millis? { assert r.ms / 1000.0 * 1000.0 == r.ms; }
  }

  /** A clock that runs down to a limit, without error or rounding. */
  ghost predicate Exact(clock: real -> Reading, limit: real) {
    forall t :: clock(t) == Millis((limit - t) * 1000.0)
  }

  lemma ExactClockExists(limit: real)
    ensures exists clock :: Exact(clock, limit)
  {
    var clock: real -> Reading := t => Millis((limit - t) * 1000.0);
    assert Exact(clock, limit);
  }

  /** On an exact clock, work that fits leaves the next checkpoint passing: the margin may even be negative. */
  lemma FittingWorkLeavesTheMargin(clock: real -> Reading, limit: real, margin: real, t: real, d: real)
    requires Exact(clock, limit) && d >= 0.0 && Fits(clock(t), margin, d)
    ensures !InsideMargin(clock(t + d), margin)
  {
    assert clock(t) == Millis((limit - t) * 1000.0) && clock(t + d) == Millis((limit - (t + d)) * 1000.0);
    assert (limit - t) * 1000.0 / 1000.0 == limit - t;
    assert (limit - (t + d)) * 1000.0 / 1000.0 == limit - (t + d);
  }

  /**
   A clock that rounds down to whole milliseconds does not guarantee it: with 100 ms left and a margin
   of 99 ms, a backoff of half a millisecond fits, and the checkpoint after it trips.
   */
  lemma WholeMillisecondsDoNot(clock: real -> Reading)
    requires forall t :: clock(t) == Millis((100.0 - t * 1000.0).Floor as real)
    ensures Fits(clock(0.0), 0.099, 0.0005) && InsideMargin(clock(0.0 + 0.0005), 0.099)
  {
    assert clock(0.0) == Millis(100.0);
    assert 0.0005 * 1000.0 == 0.5;
    assert clock(0.0005) == Millis((100.0 - 0.0005 * 1000.0).Floor as real);
    assert (99.5).Floor == 99;
  }

  /** The whole milliseconds that a clock running down to `limit` shows. */
  function MillisLeft(limit: real, t: real): int {
    ((limit - t) * 1000.0).Floor
  }

  /** What can be checked before the sleep: the reading less the backoff, rounded down, is above the margin. */
  predicate FitsWholeMillis(ms: int, margin: real, seconds: real) {
    var left := (ms as real - seconds * 1000.0).Floor;
    (if left > 0 then left else 0) as real > margin * 1000.0
  }

  /**
   On a clock of whole milliseconds that reads `ms`, a backoff is sure to leave the next checkpoint
   passing, wherever the clock stands within its millisecond, exactly if it fits in whole milliseconds.
   */
  lemma WholeMillisecondsDoIff(ms: int, margin: real, t: real, d: real)
    ensures (forall limit :: MillisLeft(limit, t) == ms ==> !InsideMargin(Millis(MillisLeft(limit, t + d) as real), margin))
      <==> FitsWholeMillis(ms, margin, d)
  {
    hide MillisLeft, InsideMargin;
    var least := (ms as real - d * 1000.0).Floor;
    PassesIff(least, margin);
    LeastIsReached(ms, t, d);
    forall limit | MillisLeft(limit, t) == ms && FitsWholeMillis(ms, margin, d)
      ensures !InsideMargin(Millis(MillisLeft(limit, t + d) as real), margin)
    {
      NeverBelowLeast(limit, ms, t, d);
      PassesIff(MillisLeft(limit, t + d), margin);
    }
  }

  lemma LeastIsReached(ms: int, t: real, d: real)
    ensures exists limit :: MillisLeft(limit, t) == ms && MillisLeft(limit, t + d) == (ms as real - d * 1000.0).Floor
  {
    var limit := t + ms as real / 1000.0;
    assert (limit - t) * 1000.0 == ms as real && (limit - (t + d)) * 1000.0 == ms as real - d * 1000.0;
    assert MillisLeft(limit, t) == ms;
  }

  lemma NeverBelowLeast(limit: real, ms: int, t: real, d: real)
    requires MillisLeft(limit, t) == ms
    ensures MillisLeft(limit, t + d) >= (ms as real - d * 1000.0).Floor
  {
    assert (limit - (t + d)) * 1000.0 == (limit - t) * 1000.0 - d * 1000.0;
    assert (limit - t) * 1000.0 >= ms as real;
  }

  lemma PassesIff(ms: int, margin: real)
    ensures !InsideMargin(Millis(ms as real), margin) <==> (if ms > 0 then ms else 0) as real > margin * 1000.0
  {
    var left := ms as real / 1000.0;
    assert left * 1000.0 == ms as real;
  }

  /** A checkpoint: which attempt, out of how many. */
  datatype Where = Where(attempt: int, maxAttempts: int)

  class Deadline {
    const clock: real -> Reading
    const margin: real
    var tripped: bool
    var trippedWhere: Option<Where>

    constructor (clock: real -> Reading, margin: real)
      ensures this.clock == clock && this.margin == margin && !tripped && trippedWhere.None?
    {
      this.clock, this.margin := clock, margin;
      tripped, trippedWhere := false, None;
    }

    predicate Exceeded(t: real) {
      InsideMargin(clock(t), margin)
    }

    predicate CanFit(t: real, seconds: real) {
      Fits(clock(t), margin, seconds)
    }

    /** Passes, or latches where it tripped; the latch is never cleared. */
    method Check(where: Where, t: real) returns (passed: bool)
      modifies this
      ensures passed == !Exceeded(t)
      ensures passed <==> !clock(t).Millis? || (clock(t).ms > margin * 1000.0 && clock(t).ms > 0.0) || margin < 0.0
      ensures !passed ==> tripped && trippedWhere == Some(where)
      ensures passed ==> tripped == old(tripped) && trippedWhere == old(trippedWhere)
    {
      if Exceeded(t) {
        tripped := true;
        trippedWhere := Some(where);
        return false;
      }
      passed := true;
    }
  }
}

/** Bounded retry of transient faults under a deadline. */
module TransientRetry {
  import opened Common
  import opened BreakerLogic
  import opened FailureTaxonomy
  import opened FabricationDeadline

  /** How one call of the operation ends. A hard stop is an exception that `except Exception` lets through. */
  datatype Result = Returned(value: int) | Failed(c: FailureClass) | HardStop

  /** The surroundings: how attempt `k` ends, how long it lasts, what is drawn, how late the sleep wakes up. */
  datatype World = World(result: nat -> Result, lasts: nat -> real, draw: nat -> real, late: nat -> real)

  datatype Outcome = Value(value: int) | Raised(c: FailureClass) | Stopped | DeadlineExceeded | Unreachable

  function Pow2(n: nat): real {
    if n == 0 then 1.0 else 2.0 * Pow2(n - 1)
  }

  function Ceiling(attempt: nat, base: real, maxDelay: real): real {
    if base * Pow2(attempt) <= maxDelay then base * Pow2(attempt) else maxDelay
  }

  lemma {:induction false} Pow2IsPositive(n: nat)
    ensures Pow2(n) >= 1.0
  {
    if n > 0 { Pow2IsPositive(n - 1); }
  }

  lemma ScaleDown(x: real, f: real)
    requires x >= 0.0 && 0.0 <= f <= 1.0
    ensures 0.0 <= x * f <= x
  {
  }

  lemma CeilingIsPositive(attempt: nat, base: real, maxDelay: real)
    requires base > 0.0 && maxDelay > 0.0
    ensures 0.0 < Ceiling(attempt, base, maxDelay) <= maxDelay && Ceiling(attempt, base, maxDelay) <= base * Pow2(attempt)
  {
    Pow2IsPositive(attempt);
    Product(base, Pow2(attempt));
  }

  lemma Product(x: real, y: real)
    requires x > 0.0 && y > 0.0
    ensures x * y > 0.0
  {
  }

  /** Full jitter: anywhere from nothing to the ceiling. */
  function CalculateBackoff(attempt: nat, base: real, maxDelay: real, draw: real): (d: real)
    requires base > 0.0 && maxDelay > 0.0 && 0.0 <= draw <= 1.0
    ensures 0.0 <= d <= maxDelay && d <= base * Pow2(attempt)
  {
    CeilingIsPositive(attempt, base, maxDelay);
    ScaleDown(Ceiling(attempt, base, maxDelay), draw);
    Ceiling(attempt, base, maxDelay) * draw
  }

  /** The ceiling starts at the base, and doubles with each attempt until it is cut off at the maximum. */
  lemma CeilingDoubles(attempt: nat, base: real, maxDelay: real)
    requires base > 0.0 && maxDelay > 0.0
    ensures Ceiling(0, base, maxDelay) == if base <= maxDelay then base else maxDelay
    ensures var last := Ceiling(attempt, base, maxDelay);
      Ceiling(attempt + 1, base, maxDelay) == if 2.0 * last <= maxDelay then 2.0 * last else maxDelay
  {
    Pow2IsPositive(attempt);
    Product(base, Pow2(attempt));
    assert base * Pow2(attempt + 1) == 2.0 * (base * Pow2(attempt));
  }

  /** The delay is the drawn part of the ceiling: nothing at 0, all of it at 1. */
  lemma DrawScales(attempt: nat, base: real, maxDelay: real, draw: real)
    requires base > 0.0 && maxDelay > 0.0 && 0.0 <= draw <= 1.0
    ensures CalculateBackoff(attempt, base, maxDelay, 0.0) == 0.0
    ensures CalculateBackoff(attempt, base, maxDelay, 1.0) == Ceiling(attempt, base, maxDelay)
    ensures CalculateBackoff(attempt, base, maxDelay, draw) == draw * CalculateBackoff(attempt, base, maxDelay, 1.0)
  {
  }

  /** When an attempt began, and how long the backoff behind it was. */
  datatype Attempt = Attempt(began: real, backoff: real)

  /** Attempts before the last failed, retryably; each backoff was short enough to fit, and was waited out. */
  ghost predicate Retried(w: World, deadline: Deadline?, base: real, maxDelay: real, log: seq<Attempt>, i: nat)
    requires i + 1 < |log|
  {
    && w.result(i).Failed? && IsAutoRetryable(w.result(i).c)
    && 0.0 <= log[i].backoff <= maxDelay && log[i].backoff <= base * Pow2(i)
    && (deadline == null || Fits(deadline.clock(log[i].began + w.lasts(i)), deadline.margin, log[i].backoff))
    && log[i + 1].began == log[i].began + w.lasts(i) + log[i].backoff + w.late(i)
  }

  lemma StillRetried(w: World, deadline: Deadline?, base: real, maxDelay: real, log: seq<Attempt>, more: seq<Attempt>)
    requires forall i: nat :: i + 1 < |log| ==> Retried(w, deadline, base, maxDelay, log, i)
    requires |more| == |log| + 1 && more[..|log|] == log
    requires log != [] ==> Retried(w, deadline, base, maxDelay, more, |log| - 1)
    ensures forall i: nat :: i + 1 < |more| ==> Retried(w, deadline, base, maxDelay, more, i)
  {
    forall i: nat | i + 1 < |more| ensures Retried(w, deadline, base, maxDelay, more, i) {
      if i + 1 < |log| {
        assert Retried(w, deadline, base, maxDelay, log, i);
        assert more[i] == more[..|log|][i] && more[i + 1] == more[..|log|][i + 1];
      }
    }
  }

  lemma BackoffRecorded(w: World, deadline: Deadline?, base: real, maxDelay: real, log: seq<Attempt>, backoff: real)
    requires log != [] && forall i: nat :: i + 1 < |log| ==> Retried(w, deadline, base, maxDelay, log, i)
    ensures var noted := log[|log| - 1 := log[|log| - 1].(backoff := backoff)];
            forall i: nat :: i + 1 < |noted| ==> Retried(w, deadline, base, maxDelay, noted, i)
  {
    var noted := log[|log| - 1 := log[|log| - 1].(backoff := backoff)];
    forall i: nat | i + 1 < |noted| ensures Retried(w, deadline, base, maxDelay, noted, i) {
      assert Retried(w, deadline, base, maxDelay, log, i);
    }
  }

  /** A backoff that fits, waited out after a retryable failure, makes the attempt behind it a retry. */
  lemma RetriedBy(w: World, deadline: Deadline?, base: real, maxDelay: real, log: seq<Attempt>, backoff: real)
    requires log != [] && w.result(|log| - 1).Failed? && IsAutoRetryable(w.result(|log| - 1).c)
    requires 0.0 <= backoff <= maxDelay && backoff <= base * Pow2(|log| - 1)
    requires deadline == null || deadline.CanFit(log[|log| - 1].began + w.lasts(|log| - 1), backoff)
    ensures var k := |log| - 1;
      var next := Attempt(log[k].began + w.lasts(k) + backoff + w.late(k), 0.0);
      Retried(w, deadline, base, maxDelay, log[k := log[k].(backoff := backoff)] + [next], k)
  {
    hide Fits, Pow2, IsAutoRetryable;
    var k := |log| - 1;
    var noted := log[k := log[k].(backoff := backoff)];
    var next := Attempt(log[k].began + w.lasts(k) + backoff + w.late(k), 0.0);
    assert (noted + [next])[k] == Attempt(log[k].began, backoff) && (noted + [next])[k + 1] == next;
  }

  /**
   At most `maxAttempts` calls, none begun inside the margin, only auto-retryable failures retried, the
   last failure raised unchanged. On an exact clock with punctual sleeps only the first checkpoint can trip.
   */
  method CallWithTransientRetry(w: World, maxAttempts: int, base: real, maxDelay: real, deadline: Deadline?, start: real)
    returns (o: Outcome, log: seq<Attempt>)
    requires base > 0.0 && maxDelay > 0.0
    requires forall k :: 0.0 <= w.draw(k) <= 1.0 && w.late(k) >= 0.0
    modifies deadline
    ensures |log| <= if maxAttempts > 0 then maxAttempts else 0
    ensures log != [] ==> log[0].began == start
    ensures forall i :: 0 <= i < |log| ==> deadline == null || !InsideMargin(deadline.clock(log[i].began), deadline.margin)
    ensures forall i: nat :: i + 1 < |log| ==> Retried(w, deadline, base, maxDelay, log, i)
    ensures o.Value? ==> log != [] && w.result(|log| - 1) == Returned(o.value)
    ensures o.Stopped? ==> log != [] && w.result(|log| - 1).HardStop?
    ensures o.Raised? ==> (
      && log != [] && w.result(|log| - 1) == Failed(o.c)
      && (|log| == maxAttempts || !IsAutoRetryable(o.c)
          || (deadline != null
              && !Fits(deadline.clock(log[|log| - 1].began + w.lasts(|log| - 1)), deadline.margin,
                       CalculateBackoff(|log| - 1, base, maxDelay, w.draw(|log| - 1))))))
    ensures o.DeadlineExceeded? ==> deadline != null && deadline.tripped && |log| < maxAttempts
                                    && deadline.trippedWhere == Some(Where(|log| + 1, maxAttempts))
    ensures !o.DeadlineExceeded? && deadline != null ==>
      deadline.tripped == old(deadline.tripped) && deadline.trippedWhere == old(deadline.trippedWhere)
    ensures o.Unreachable? <==> maxAttempts <= 0
    ensures o.DeadlineExceeded? && (forall k :: w.late(k) == 0.0) && (exists limit :: Exact(deadline.clock, limit)) ==> log == []
  {
    hide Ceiling, Pow2, Remaining, InsideMargin, Fits, Exact, Retried;
    log := [];
    var now := start;
    var attempt := 0;
    while attempt < maxAttempts
      invariant 0 <= attempt == |log| && (attempt <= maxAttempts || attempt == 0)
      invariant attempt > 0 ==> attempt < maxAttempts
      invariant log == [] ==> now == start
      invariant log != [] ==> log[0].began == start
      invariant forall i :: 0 <= i < |log| ==> deadline == null || !InsideMargin(deadline.clock(log[i].began), deadline.margin)
      invariant forall i: nat :: i + 1 < |log| ==> Retried(w, deadline, base, maxDelay, log, i)
      invariant log != [] ==> Retried(w, deadline, base, maxDelay, log + [Attempt(now, 0.0)], |log| - 1)
      invariant deadline != null ==> deadline.tripped == old(deadline.tripped) && deadline.trippedWhere == old(deadline.trippedWhere)
    {
      if deadline != null {
        if log != [] {
          NextCheckpointPasses(w, deadline, base, maxDelay, log, now);
        }
        var passed := deadline.Check(Where(attempt + 1, maxAttempts), now);
        if !passed {
          o := DeadlineExceeded;
          return;
        }
      }
      StillRetried(w, deadline, base, maxDelay, log, log + [Attempt(now, 0.0)]);
      log := log + [Attempt(now, 0.0)];
      var result := w.result(attempt);
      now := now + w.lasts(attempt);
      if result.Returned? {
        o := Value(result.value);
        return;
      }
      if result.HardStop? {
        o := Stopped;
        return;
      }
      if attempt >= maxAttempts - 1 || !IsAutoRetryable(result.c) {
        o := Raised(result.c);
        return;
      }
      var delay := CalculateBackoff(attempt, base, maxDelay, w.draw(attempt));
      if deadline != null && !deadline.CanFit(now, delay) {
        o := Raised(result.c);
        return;
      }
      BackoffRecorded(w, deadline, base, maxDelay, log, delay);
      RetriedBy(w, deadline, base, maxDelay, log, delay);
      log := log[attempt := log[attempt].(backoff := delay)];
      now := now + delay + w.late(attempt);
      attempt := attempt + 1;
    }
    o := Unreachable;
  }

  /** After a backoff that fitted, waited out exactly, the deadline has not been reached. */
  lemma NextCheckpointPasses(w: World, deadline: Deadline, base: real, maxDelay: real, log: seq<Attempt>, now: real)
    requires log != [] && Retried(w, deadline, base, maxDelay, log + [Attempt(now, 0.0)], |log| - 1)
    ensures (forall k :: w.late(k) == 0.0) && (exists limit :: Exact(deadline.clock, limit)) ==> !deadline.Exceeded(now)
  {
    if (forall k :: w.late(k) == 0.0) && exists limit :: Exact(deadline.clock, limit) {
      var limit :| Exact(deadline.clock, limit);
      var k := |log| - 1;
      var last := (log + [Attempt(now, 0.0)])[k];
      assert w.late(k) == 0.0;
      FittingWorkLeavesTheMargin(deadline.clock, limit, deadline.margin, last.began + w.lasts(k), last.backoff);
    }
  }
}
