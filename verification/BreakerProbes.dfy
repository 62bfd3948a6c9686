/** Who may probe a target, and whose probe the end of a probe ends. */
module BreakerProbes {
  import opened Common
  import opened BreakerLogic
  import opened BreakerRows
  import opened BreakerProtocol
  import opened BreakerSafety

  /** The step applies a lease write ... */
  predicate Leases(cfg: Config, s: State, e: Event) {
    e.act.Probe? && Step(cfg, s, e).log != s.log
  }

  /** ... or the end of a probe. */
  predicate Ends(cfg: Config, s: State, e: Event) {
    e.act.FinishProbe? && Step(cfg, s, e).log != s.log
  }

  predicate LeasesAt(cfg: Config, run: seq<Event>, k: nat)
    requires k < |run|
  {
    Leases(cfg, After(cfg, run[..k]), run[k])
  }

  predicate EndsAt(cfg: Config, run: seq<Event>, k: nat)
    requires k < |run|
  {
    Ends(cfg, After(cfg, run[..k]), run[k])
  }

  /** Strictly between two steps no lease was won and no probe ended. */
  ghost predicate NoTurnBetween(cfg: Config, run: seq<Event>, i: nat, j: nat)
    requires j <= |run|
  {
    forall k :: i < k < j ==> !LeasesAt(cfg, run, k) && !EndsAt(cfg, run, k)
  }

  predicate Probes(s: State, worker: nat) {
    worker in s.pcs && s.pcs[worker].Probing?
  }

  /** The lease on the row is the one this worker won. */
  predicate Holds(s: State, worker: nat) {
    Probes(s, worker) && s.row.Some? && s.row.value.state.HalfOpen?
    && s.row.value.lease == Some(s.pcs[worker].lease) && s.row.value.version == s.pcs[worker].version
  }

  // ---- Leases exclude each other

  /** Only a lease write or the end of a probe changes a HALF_OPEN row. */
  lemma HalfOpenStays(cfg: Config, s: State, e: Event)
    requires s.row.Some? && s.row.value.state.HalfOpen? && !Leases(cfg, s, e) && !Ends(cfg, s, e)
    ensures Step(cfg, s, e).row == s.row
  {
  }

  lemma LeaseLeaves(cfg: Config, s: State, e: Event)
    requires Leases(cfg, s, e)
    ensures s.row.Some? && (s.row.value.lease.Some? ==> s.row.value.lease.value.expiresAt < e.act.now)
    ensures Step(cfg, s, e).row == Some(s.row.value.(state := HalfOpen, version := s.row.value.version + 1,
                                        lease := Some(Lease(e.act.owner, e.act.now + cfg.probeLeaseSeconds))))
  {
  }

  lemma {:induction false} LeaseLasts(cfg: Config, run: seq<Event>, i: nat, j: nat)
    requires i < j <= |run| && LeasesAt(cfg, run, i) && NoTurnBetween(cfg, run, i, j)
    ensures After(cfg, run[..j]).row == Step(cfg, After(cfg, run[..i]), run[i]).row
    decreases j
  {
    hide Step, After;
    if j == i + 1 {
      AfterStep(cfg, run[..i], run[i]);
      assert run[..j] == run[..i] + [run[i]];
    } else {
      LeaseLasts(cfg, run, i, j - 1);
      assert !LeasesAt(cfg, run, j - 1) && !EndsAt(cfg, run, j - 1);
      LeaseLeaves(cfg, After(cfg, run[..i]), run[i]);
      HalfOpenStays(cfg, After(cfg, run[..j - 1]), run[j - 1]);
      AfterStep(cfg, run[..j - 1], run[j - 1]);
      assert run[..j] == run[..j - 1] + [run[j - 1]];
    }
  }

  /**
   Exactly one worker wins the lease: in every interleaving a second one is won only by a reading
   past the first one's expiry, unless a probe ended in between.
   */
  lemma LeaseIsExclusive(cfg: Config, run: seq<Event>, i: nat, j: nat)
    requires i < j < |run| && LeasesAt(cfg, run, i) && LeasesAt(cfg, run, j) && NoTurnBetween(cfg, run, i, j)
    ensures run[j].act.now > run[i].act.now + cfg.probeLeaseSeconds
  {
    LeaseLasts(cfg, run, i, j);
    LeaseLeaves(cfg, After(cfg, run[..i]), run[i]);
    LeaseLeaves(cfg, After(cfg, run[..j]), run[j]);
  }

  // ---- A worker that probes past its lease

  function FirstFailure(): seq<Event> {
    [Event(0, ObserveFailure(0)), Event(0, Count(NoFault)), Event(0, Roll(NoFault)), Event(0, OpenBreaker(NoFault))]
  }

  function TwoProbes(first: string, second: string, cfg: Config): seq<Event> {
    [Event(1, Probe(first, 0, NoFault)), Event(2, Probe(second, cfg.probeLeaseSeconds + 1, NoFault))]
  }

  /**
   A probe whose lease has run out still ends what it finds: under the second worker's running
   lease the first one's late success closes the breaker, and the second one's own end is refused.
   */
  lemma LateEndClosesOverALease(cfg: Config, first: string, second: string)
    requires cfg.failureThreshold <= 1 && cfg.probeLeaseSeconds >= 0
    ensures var run := FirstFailure() + TwoProbes(first, second, cfg);
      var late := Event(1, FinishProbe(true, cfg.probeLeaseSeconds + 1, NoFault));
      && Holds(After(cfg, run), 2) && Probes(After(cfg, run), 1)
      && late.act.now <= After(cfg, run).pcs[2].lease.expiresAt
      && Ends(cfg, After(cfg, run), late)
      && Step(cfg, After(cfg, run), late).row.value.state.Closed?
  {
    var a := FirstFailure();
    AfterFour(cfg, a[0], a[1], a[2], a[3]);
    var run := a + TwoProbes(first, second, cfg);
    AfterStep(cfg, a, run[4]);
    AfterStep(cfg, a + [run[4]], run[5]);
    assert run == a + [run[4]] + [run[5]];
  }

  lemma AfterFour(cfg: Config, a: Event, b: Event, c: Event, d: Event)
    ensures After(cfg, [a, b, c, d]) == Step(cfg, Step(cfg, Step(cfg, Step(cfg, Init(), a), b), c), d)
  {
    AfterStep(cfg, [], a);
    AfterStep(cfg, [a], b);
    AfterStep(cfg, [a, b], c);
    AfterStep(cfg, [a, b, c], d);
    assert [] + [a] == [a] && [a] + [b] == [a, b] && [a, b] + [c] == [a, b, c] && [a, b, c] + [d] == [a, b, c, d];
  }

  // ---- Whose probe an end ends

  /** What a probing worker remembers is what the row was when it won; no two remember one version. */
  ghost predicate Remembering(s: State) {
    && (forall w :: Probes(s, w) ==> s.row.Some? && s.pcs[w].version <= s.row.value.version)
    && (forall w :: Probes(s, w) && s.pcs[w].version == s.row.value.version ==> Holds(s, w))
    && (forall v, w :: Probes(s, v) && Probes(s, w) && s.pcs[v].version == s.pcs[w].version ==> v == w)
  }

  /** Whoever probes after a step probed before it, or has just won. */
  lemma ProbesAfter(cfg: Config, s: State, e: Event, worker: nat)
    requires Probes(Step(cfg, s, e), worker)
    ensures (Probes(s, worker) && Step(cfg, s, e).pcs[worker] == s.pcs[worker])
         || (worker == e.worker && Leases(cfg, s, e) && Holds(Step(cfg, s, e), worker))
    ensures Ends(cfg, s, e) ==> Probes(s, e.worker) && e.worker != worker
  {
    hide WindowStart, CountInWindow, RollWindow;
  }

  lemma VersionMoves(cfg: Config, s: State, e: Event)
    requires s.row.Some?
    ensures Step(cfg, s, e).row.Some? && s.row.value.version <= Step(cfg, s, e).row.value.version
    ensures Leases(cfg, s, e) || Ends(cfg, s, e) ==> s.row.value.version < Step(cfg, s, e).row.value.version
  {
    hide WindowStart;
  }

  lemma RememberingKept(cfg: Config, s: State, e: Event)
    requires Remembering(s)
    ensures Remembering(Step(cfg, s, e))
  {
    hide Step;
    var s' := Step(cfg, s, e);
    if s.row.Some? { VersionMoves(cfg, s, e); }
    if Leases(cfg, s, e) { LeaseLeaves(cfg, s, e); }
    if s.row.Some? && s.row.value.state.HalfOpen? && !Leases(cfg, s, e) && !Ends(cfg, s, e) { HalfOpenStays(cfg, s, e); }
    forall w | Probes(s', w)
      ensures (Probes(s, w) && s'.pcs[w] == s.pcs[w]) || (w == e.worker && Leases(cfg, s, e) && Holds(s', w))
    {
      ProbesAfter(cfg, s, e, w);
    }
  }

  lemma {:induction false} AlwaysRemembering(cfg: Config, run: seq<Event>)
    ensures Remembering(After(cfg, run))
  {
    if run != [] {
      AlwaysRemembering(cfg, run[..|run| - 1]);
      RememberingKept(cfg, After(cfg, run[..|run| - 1]), run[|run| - 1]);
    }
  }

  /** The worker stands at the end of the run where it stood after winning the lease at step `i`. */
  ghost predicate WonAt(cfg: Config, run: seq<Event>, i: nat, worker: nat) {
    && i < |run| && run[i].worker == worker && LeasesAt(cfg, run, i)
    && Probes(After(cfg, run), worker)
    && (forall k :: i < k <= |run| ==> Standing(cfg, run[..k], worker, After(cfg, run).pcs[worker]))
  }

  ghost predicate Standing(cfg: Config, run: seq<Event>, worker: nat, pc: Pc) {
    worker in After(cfg, run).pcs && After(cfg, run).pcs[worker] == pc
  }

  /** How one step of a run changes who holds the lease, for a worker that goes on probing. */
  lemma HoldsStep(cfg: Config, s: State, e: Event, worker: nat)
    requires Remembering(s) && Probes(s, worker) && Probes(Step(cfg, s, e), worker)
    requires Step(cfg, s, e).pcs[worker] == s.pcs[worker]
    ensures Holds(Step(cfg, s, e), worker) <==> Holds(s, worker) && !Leases(cfg, s, e) && !Ends(cfg, s, e)
  {
    hide Step;
    VersionMoves(cfg, s, e);
    if Holds(s, worker) && !Leases(cfg, s, e) && !Ends(cfg, s, e) { HalfOpenStays(cfg, s, e); }
  }

  lemma WonBefore(cfg: Config, run: seq<Event>, i: nat, worker: nat)
    requires WonAt(cfg, run, i, worker) && i < |run| - 1
    ensures WonAt(cfg, run[..|run| - 1], i, worker)
    ensures After(cfg, run[..|run| - 1]).pcs[worker] == After(cfg, run).pcs[worker]
  {
    hide After, LeasesAt;
    var front := run[..|run| - 1];
    assert front[..i] == run[..i];
    assert Standing(cfg, run[..|run| - 1], worker, After(cfg, run).pcs[worker]);
    forall k | i < k <= |front|
      ensures Standing(cfg, front[..k], worker, After(cfg, run).pcs[worker])
    {
      assert front[..k] == run[..k];
    }
    LeaseSame(cfg, run, front, i);
  }

  lemma LeaseSame(cfg: Config, run: seq<Event>, front: seq<Event>, i: nat)
    requires i < |front| && front <= run
    ensures LeasesAt(cfg, front, i) == LeasesAt(cfg, run, i) && EndsAt(cfg, front, i) == EndsAt(cfg, run, i)
  {
    assert front[..i] == run[..i];
  }

  /**
   In every interleaving a prober holds the lease on the row exactly if, since it won its own,
   no lease was won and no probe ended. The end of its probe ends its own lease exactly then.
   */
  lemma {:induction false} HoldsIffNoTurnSince(cfg: Config, run: seq<Event>, i: nat, worker: nat)
    requires WonAt(cfg, run, i, worker)
    ensures Holds(After(cfg, run), worker) <==> NoTurnBetween(cfg, run, i, |run|)
    decreases |run|
  {
    var front, e := run[..|run| - 1], run[|run| - 1];
    AfterStep(cfg, front, e);
    assert run == front + [e];
    var s := After(cfg, front);
    if i == |run| - 1 {
      LeaseLeaves(cfg, s, e);
    } else {
      WonBefore(cfg, run, i, worker);
      HoldsIffNoTurnSince(cfg, front, i, worker);
      AlwaysRemembering(cfg, front);
      hide After, Step, Holds;
      HoldsStep(cfg, s, e, worker);
      forall k | 0 <= k < |front|
        ensures LeasesAt(cfg, front, k) == LeasesAt(cfg, run, k) && EndsAt(cfg, front, k) == EndsAt(cfg, run, k)
      {
        LeaseSame(cfg, run, front, k);
      }
      assert LeasesAt(cfg, run, |front|) == Leases(cfg, s, e) && EndsAt(cfg, run, |front|) == Ends(cfg, s, e);
    }
  }

  lemma StillWon(cfg: Config, run: seq<Event>, e: Event, i: nat, worker: nat)
    requires WonAt(cfg, run, i, worker) && Standing(cfg, run + [e], worker, After(cfg, run).pcs[worker])
    ensures WonAt(cfg, run + [e], i, worker)
  {
    hide After, LeasesAt;
    LeaseSame(cfg, run + [e], run, i);
    forall k | i < k <= |run + [e]|
      ensures Standing(cfg, (run + [e])[..k], worker, After(cfg, run).pcs[worker])
    {
      assert (run + [e])[..k] == if k <= |run| then run[..k] else run + [e];
    }
  }

  lemma JustWon(cfg: Config, run: seq<Event>, e: Event)
    requires Leases(cfg, After(cfg, run), e) && Probes(After(cfg, run + [e]), e.worker)
    ensures WonAt(cfg, run + [e], |run|, e.worker)
  {
    hide After, Leases;
    assert (run + [e])[..|run|] == run && (run + [e])[..|run| + 1] == run + [e];
  }

  /** Whoever probes won a lease at some step, and has stood there since. */
  lemma {:induction false} EveryProberWon(cfg: Config, run: seq<Event>, worker: nat)
    requires Probes(After(cfg, run), worker)
    ensures exists i: nat :: WonAt(cfg, run, i, worker)
  {
    assert run != [];
    hide After, Step, WonAt, Leases;
    var front, e := run[..|run| - 1], run[|run| - 1];
    AfterStep(cfg, front, e);
    assert run == front + [e];
    var s := After(cfg, front);
    ProbesAfter(cfg, s, e, worker);
    if Probes(s, worker) && s.pcs[worker] == After(cfg, run).pcs[worker] {
      EveryProberWon(cfg, front, worker);
      var i: nat :| WonAt(cfg, front, i, worker);
      StillWon(cfg, front, e, i, worker);
    } else {
      JustWon(cfg, front, e);
    }
  }

  // ---- When every probe is ended by its holder

  /** The readings behind applied lease writes and ends of probes do not go back. */
  ghost predicate Steady(cfg: Config, run: seq<Event>) {
    forall i, j :: 0 <= i < j < |run| && LeasesAt(cfg, run, i) && EndsAt(cfg, run, j) ==>
      run[i].act.now <= run[j].act.now
  }

  /** Every probe ends by the time its own lease runs out. */
  ghost predicate Timely(cfg: Config, run: seq<Event>) {
    forall j :: 0 <= j < |run| && EndsAt(cfg, run, j) ==> InTime(After(cfg, run[..j]), run[j])
  }

  predicate InTime(s: State, e: Event) {
    Probes(s, e.worker) && e.act.FinishProbe? && e.act.now <= s.pcs[e.worker].lease.expiresAt
  }

  /** Some lease was won by a reading past this expiry. */
  ghost predicate Overtaken(cfg: Config, run: seq<Event>, expiresAt: int) {
    exists m :: 0 <= m < |run| && LeasesAt(cfg, run, m) && run[m].act.now > expiresAt
  }

  lemma PunctualBefore(cfg: Config, run: seq<Event>, front: seq<Event>)
    requires front <= run && Steady(cfg, run) && Timely(cfg, run)
    ensures Steady(cfg, front) && Timely(cfg, front)
    ensures forall expiresAt :: Overtaken(cfg, front, expiresAt) ==> Overtaken(cfg, run, expiresAt)
  {
    hide LeasesAt, EndsAt, After;
    forall k | 0 <= k < |front|
      ensures LeasesAt(cfg, front, k) == LeasesAt(cfg, run, k) && EndsAt(cfg, front, k) == EndsAt(cfg, run, k)
      ensures front[..k] == run[..k] && front[k] == run[k]
    {
      LeaseSame(cfg, run, front, k);
    }
  }

  /** With such readings, an end that is applied is the end of the holder's probe. */
  lemma EndIsTheHolders(cfg: Config, run: seq<Event>, e: Event)
    requires Steady(cfg, run + [e]) && Timely(cfg, run + [e]) && Ends(cfg, After(cfg, run), e)
    requires Probes(After(cfg, run), e.worker) ==>
      Holds(After(cfg, run), e.worker) || Overtaken(cfg, run, After(cfg, run).pcs[e.worker].lease.expiresAt)
    ensures Holds(After(cfg, run), e.worker)
  {
    hide After, Step, Holds;
    var longer := run + [e];
    assert longer[..|run|] == run && longer[|run|] == e;
    assert EndsAt(cfg, longer, |run|);
    var expiresAt := After(cfg, run).pcs[e.worker].lease.expiresAt;
    if Overtaken(cfg, run, expiresAt) {
      var m :| 0 <= m < |run| && LeasesAt(cfg, run, m) && run[m].act.now > expiresAt;
      LeaseSame(cfg, longer, run, m);
    }
  }

  lemma SoleHolder(s: State, v: nat, w: nat)
    requires Remembering(s) && Holds(s, v) && Holds(s, w)
    ensures v == w
  {
  }

  lemma {:induction false} HoldsUnlessOvertaken(cfg: Config, run: seq<Event>, worker: nat)
    requires Steady(cfg, run) && Timely(cfg, run) && Probes(After(cfg, run), worker)
    ensures Holds(After(cfg, run), worker) || Overtaken(cfg, run, After(cfg, run).pcs[worker].lease.expiresAt)
    decreases |run|
  {
    assert run != [];
    hide After, Step, Holds, Steady, Timely;
    var front, e := run[..|run| - 1], run[|run| - 1];
    AfterStep(cfg, front, e);
    assert run == front + [e];
    var s := After(cfg, front);
    ProbesAfter(cfg, s, e, worker);
    if Probes(s, worker) && s.pcs[worker] == After(cfg, run).pcs[worker] {
      PunctualBefore(cfg, run, front);
      HoldsUnlessOvertaken(cfg, front, worker);
      AlwaysRemembering(cfg, front);
      HoldsStep(cfg, s, e, worker);
      if Holds(s, worker) && Leases(cfg, s, e) {
        OvertakenBy(cfg, front, e, worker);
      } else if Holds(s, worker) && Ends(cfg, s, e) {
        HoldsUnlessOvertaken(cfg, front, e.worker);
        EndIsTheHolders(cfg, front, e);
        SoleHolder(s, worker, e.worker);
      }
    }
  }

  lemma OvertakenBy(cfg: Config, run: seq<Event>, e: Event, worker: nat)
    requires Holds(After(cfg, run), worker) && Leases(cfg, After(cfg, run), e)
    ensures Overtaken(cfg, run + [e], After(cfg, run).pcs[worker].lease.expiresAt)
  {
    hide After, Step;
    LeaseLeaves(cfg, After(cfg, run), e);
    assert (run + [e])[..|run|] == run;
    assert LeasesAt(cfg, run + [e], |run|);
  }

  /**
   A condition every caller can check keeps ends to their own leases: if readings do not go back
   and every probe ends by the time its lease runs out, each applied end is the holder's.
   */
  lemma EveryEndIsByTheHolder(cfg: Config, run: seq<Event>, j: nat)
    requires Steady(cfg, run) && Timely(cfg, run) && j < |run| && EndsAt(cfg, run, j)
    ensures Holds(After(cfg, run[..j]), run[j].worker)
  {
    hide After, Step, Holds, LeasesAt;
    PunctualBefore(cfg, run, run[..j]);
    PunctualBefore(cfg, run, run[..j] + [run[j]]);
    if Probes(After(cfg, run[..j]), run[j].worker) { HoldsUnlessOvertaken(cfg, run[..j], run[j].worker); }
    EndIsTheHolders(cfg, run[..j], run[j]);
  }

  /** Two workers probe at once only if the lease of one of them has run out by a reading of the run. */
  lemma NoDoubleProbe(cfg: Config, run: seq<Event>, v: nat, w: nat)
    requires Steady(cfg, run) && Timely(cfg, run) && v != w
    requires Probes(After(cfg, run), v) && Probes(After(cfg, run), w)
    ensures Overtaken(cfg, run, After(cfg, run).pcs[v].lease.expiresAt)
         || Overtaken(cfg, run, After(cfg, run).pcs[w].lease.expiresAt)
  {
    HoldsUnlessOvertaken(cfg, run, v);
    HoldsUnlessOvertaken(cfg, run, w);
    AlwaysRemembering(cfg, run);
  }
}
