/** Runs that show where the ledger's guarantees end. */
module LedgerLimits {
  import opened Common
  import opened JsonValues
  import opened LedgerRows
  import opened LedgerProtocol
  import opened LedgerSafety
  import opened LedgerLeases

  /** A call reads its clock and finds the key taken. */
  function Arrive(call: nat, now: real): seq<Event> {
    [Event(call, Start(now)), Event(call, Put(true, NoFault))]
  }

  lemma Arrives(cfg: Config, run: seq<Event>, call: nat, now: real)
    requires call !in After(cfg, run).pcs && After(cfg, run).row.Some?
    ensures After(cfg, run + Arrive(call, now)) == At(After(cfg, run), call, Resolving(now))
  {
    var s := After(cfg, run);
    AfterStep(cfg, run, Event(call, Start(now)));
    AfterStep(cfg, run + [Event(call, Start(now))], Event(call, Put(true, NoFault)));
    assert run + Arrive(call, now) == run + [Event(call, Start(now))] + [Event(call, Put(true, NoFault))];
    assert s.pcs[call := Reserving(now)][call := Resolving(now)] == s.pcs[call := Resolving(now)];
  }

  /** ... and then reads value number `index` of the row, a lease that looks expired. */
  function Approach(call: nat, now: real, index: nat): seq<Event> {
    Arrive(call, now) + [Event(call, Read(index, NoFault))]
  }

  lemma Approaches(cfg: Config, run: seq<Event>, call: nat, now: real, index: nat)
    requires call !in After(cfg, run).pcs && After(cfg, run).row.Some?
    requires index < |After(cfg, run).history| && Running(After(cfg, run).history[index])
    requires LooksDead(now, After(cfg, run).history[index].value.createdAt, cfg.lease)
    ensures After(cfg, run + Approach(call, now, index))
         == At(After(cfg, run), call, TakingStale(now, After(cfg, run).history[index].value.createdAt))
  {
    hide After;
    var s := After(cfg, run);
    Arrives(cfg, run, call, now);
    AfterStep(cfg, run + Arrive(call, now), Event(call, Read(index, NoFault)));
    assert run + Approach(call, now, index) == run + Arrive(call, now) + [Event(call, Read(index, NoFault))];
    var pc := TakingStale(now, s.history[index].value.createdAt);
    assert s.pcs[call := Resolving(now)][call := pc] == s.pcs[call := pc];
  }

  lemma AfterTwo(cfg: Config, run: seq<Event>, a: Event, b: Event)
    ensures After(cfg, run + [a, b]) == Step(cfg, Step(cfg, After(cfg, run), a), b)
  {
    AfterStep(cfg, run, a);
    AfterStep(cfg, run + [a], b);
    assert run + [a, b] == run + [a] + [b];
  }

  lemma AfterThree(cfg: Config, run: seq<Event>, a: Event, b: Event, c: Event)
    ensures After(cfg, run + [a, b, c]) == Step(cfg, Step(cfg, Step(cfg, After(cfg, run), a), b), c)
  {
    AfterTwo(cfg, run, a, b);
    AfterStep(cfg, run + [a, b], c);
    assert run + [a, b, c] == run + [a, b] + [c];
  }

  /** The first call on the key wins it. */
  lemma FirstWins(cfg: Config, call: nat)
    ensures After(cfg, Arrive(call, 0.0))
         == State(Some(Row(InFlight, 0, Nothing)), [None, Some(Row(InFlight, 0, Nothing))], None, Some(call),
                  map[call := Holding], NO_TALLY.(wins := 1))
  {
    AfterStep(cfg, [], Event(call, Start(0.0)));
    AfterStep(cfg, [Event(call, Start(0.0))], Event(call, Put(true, NoFault)));
    assert [] + [Event(call, Start(0.0))] == [Event(call, Start(0.0))];
    assert Arrive(call, 0.0) == [Event(call, Start(0.0))] + [Event(call, Put(true, NoFault))];
  }

  const TIMEOUT := Run(Unclear("TimeoutError"))

  /** One link of a takeover chain: a call arrives at `time`, takes the lease over and runs its tool. */
  function Link(call: nat, time: nat, index: nat): seq<Event> {
    Approach(call, time as real, index) + [Event(call, Take(NoFault)), Event(call, TIMEOUT)]
  }

  lemma LinkSteps(cfg: Config, s: State, call: nat, time: nat, seen: nat)
    requires s.row == Some(Row(InFlight, seen, Nothing))
    ensures var s' := Step(cfg, Step(cfg, At(s, call, TakingStale(time as real, seen)),
                                     Event(call, Take(NoFault))), Event(call, TIMEOUT));
      && s'.row == Some(Row(InFlight, time, Nothing)) && s'.history == s.history + [s'.row]
      && s'.pcs.Keys == s.pcs.Keys + {call}
      && s'.tally.staleTakes == s.tally.staleTakes + 1 && s'.tally.effects == s.tally.effects + 1
  {
    assert Trunc(time as real) == time;
    var s1 := At(s, call, TakingStale(time as real, seen));
    var s2 := StepTake(s1, call, Some(Row(InFlight, time, Nothing)), true, NoFault);
    assert Step(cfg, s1, Event(call, Take(NoFault))) == s2;
    assert s2.pcs[call] == Holding;
    assert Step(cfg, s2, Event(call, TIMEOUT)) == StepRun(cfg, s2, call, Unclear("TimeoutError"));
  }

  lemma Links(cfg: Config, run: seq<Event>, call: nat, time: nat, seen: nat)
    requires var s := After(cfg, run);
      && call !in s.pcs && s.row == Some(Row(InFlight, seen, Nothing)) && time - seen > cfg.lease
      && s.history != [] && s.history[|s.history| - 1] == s.row
    ensures var s := After(cfg, run);
      var s' := After(cfg, run + Link(call, time, |s.history| - 1));
      && s'.row == Some(Row(InFlight, time, Nothing)) && s'.history == s.history + [s'.row]
      && s'.pcs.Keys == s.pcs.Keys + {call}
      && s'.tally.staleTakes == s.tally.staleTakes + 1 && s'.tally.effects == s.tally.effects + 1
  {
    var s := After(cfg, run);
    var near := Approach(call, time as real, |s.history| - 1);
    Approaches(cfg, run, call, time as real, |s.history| - 1);
    AfterTwo(cfg, run + near, Event(call, Take(NoFault)), Event(call, TIMEOUT));
    assert run + Link(call, time, |s.history| - 1) == run + near + [Event(call, Take(NoFault)), Event(call, TIMEOUT)];
    LinkSteps(cfg, s, call, time, seen);
  }

  /** A takeover chain: call k takes the lease over from call k - 1 and runs its tool. */
  function Chain(lease: nat, n: nat): seq<Event> {
    if n == 0 then Arrive(0, 0.0) + [Event(0, TIMEOUT)] else Chain(lease, n - 1) + Link(n, n * (lease + 1), n)
  }

  /** The bound on effects is reached for every number of takeovers. */
  lemma {:induction false} BoundIsReached(cfg: Config, n: nat)
    requires cfg.lease > 0
    ensures var s := After(cfg, Chain(cfg.lease, n));
      && s.tally.staleTakes == n && s.tally.effects == n + 1
      && s.row == Some(Row(InFlight, n * (cfg.lease + 1), Nothing))
      && |s.history| == n + 2 && s.history[n + 1] == s.row
      && forall c :: c in s.pcs.Keys ==> 0 <= c <= n
  {
    hide After;
    if n == 0 {
      FirstWins(cfg, 0);
      AfterStep(cfg, Arrive(0, 0.0), Event(0, TIMEOUT));
    } else {
      BoundIsReached(cfg, n - 1);
      assert n * (cfg.lease + 1) - (n - 1) * (cfg.lease + 1) == cfg.lease + 1;
      Links(cfg, Chain(cfg.lease, n - 1), n, n * (cfg.lease + 1), (n - 1) * (cfg.lease + 1));
    }
  }

  /** Calls 2 and 3 see the lease of call 1; call 4 read its clock long before it re-reserves. */
  function RewindRun(late: real): seq<Event> {
    Arrive(1, 0.0) + Arrive(4, 0.0) + Approach(2, late, 1) + Approach(3, late, 1)
    + [Event(2, Take(NoFault)), Event(2, Run(NotSent(true, "ConnectionRefused"))), Event(2, Settle(NoFault))]
    + [Event(4, Read(3, NoFault)), Event(4, Take(NoFault))]
    + [Event(3, Take(NoFault))]
  }

  lemma RewindStart(cfg: Config, late: real)
    requires LooksDead(late, 0, cfg.lease)
    ensures var row := Some(Row(InFlight, 0, Nothing));
      After(cfg, Arrive(1, 0.0) + Arrive(4, 0.0) + Approach(2, late, 1) + Approach(3, late, 1))
      == State(row, [None, row], None, Some(1),
               map[1 := Holding, 4 := Resolving(0.0), 2 := TakingStale(late, 0), 3 := TakingStale(late, 0)],
               NO_TALLY.(wins := 1))
  {
    FirstWins(cfg, 1);
    Arrives(cfg, Arrive(1, 0.0), 4, 0.0);
    Approaches(cfg, Arrive(1, 0.0) + Arrive(4, 0.0), 2, late, 1);
    Approaches(cfg, Arrive(1, 0.0) + Arrive(4, 0.0) + Approach(2, late, 1), 3, late, 1);
  }

  /** Call 2 takes the lease over, sends nothing and releases; call 4 re-reserves with its old reading. */
  lemma RewindSteps(cfg: Config, s: State, late: real)
    requires late >= 1.0 && s.row == Some(Row(InFlight, 0, Nothing)) && s.history == [None, s.row]
    requires {2, 3, 4} <= s.pcs.Keys && s.pcs[2] == s.pcs[3] == TakingStale(late, 0) && s.pcs[4] == Resolving(0.0)
    ensures TakeStale(s.row, 0, late).Some?
    ensures var s3 := Step(cfg, Step(cfg, Step(cfg, s, Event(2, Take(NoFault))),
                                     Event(2, Run(NotSent(true, "ConnectionRefused")))), Event(2, Settle(NoFault)));
      var s5 := Step(cfg, Step(cfg, s3, Event(4, Read(3, NoFault))), Event(4, Take(NoFault)));
      s5.row == Some(Row(InFlight, 0, Nothing)) && 3 in s5.pcs && s5.pcs[3] == TakingStale(late, 0)
  {
    var taken := Some(Row(InFlight, Trunc(late), Nothing));
    var s1 := StepTake(s, 2, taken, true, NoFault);
    assert Step(cfg, s, Event(2, Take(NoFault))) == s1;
    var s2 := StepRun(cfg, s1, 2, NotSent(true, "ConnectionRefused"));
    assert Step(cfg, s1, Event(2, Run(NotSent(true, "ConnectionRefused")))) == s2;
    var s3 := StepSettle(s2, 2, GiveBack, NoFault);
    assert Step(cfg, s2, Event(2, Settle(NoFault))) == s3;
    assert LetGo(s3.row) && |s3.history| == 4 && s3.history[3] == s3.row && s3.pcs[4] == Resolving(0.0);
    var s4 := At(s3, 4, TakingReleased(0.0));
    assert Step(cfg, s3, Event(4, Read(3, NoFault))) == s4;
    assert Step(cfg, s4, Event(4, Take(NoFault))) == StepTake(s4, 4, TakeReleased(s4.row, 0.0), false, NoFault);
  }

  /**
   Although the calls read their clocks in non-decreasing order, two of them take over the lease
   created at 0: a call keeps the reading it took first, however long it waits before it writes.
   */
  lemma SameSeenValueTwice(cfg: Config, late: real)
    requires late >= 1.0 && LooksDead(late, 0, cfg.lease)
    ensures TookOver(cfg, RewindRun(late), 10, 0) && TookOver(cfg, RewindRun(late), 15, 0)
  {
    hide After;
    var run := RewindRun(late);
    var start := Arrive(1, 0.0) + Arrive(4, 0.0) + Approach(2, late, 1) + Approach(3, late, 1);
    RewindStart(cfg, late);
    RewindSteps(cfg, After(cfg, start), late);
    var give := [Event(2, Take(NoFault)), Event(2, Run(NotSent(true, "ConnectionRefused"))), Event(2, Settle(NoFault))];
    AfterThree(cfg, start, give[0], give[1], give[2]);
    var back := [Event(4, Read(3, NoFault)), Event(4, Take(NoFault))];
    AfterTwo(cfg, start + give, back[0], back[1]);
    assert run[..10] == start && run[10] == give[0];
    assert run[..15] == start + give + back && run[15] == Event(3, Take(NoFault));
  }

  /** A result that is recorded inline. */
  predicate RecordsInline(cfg: Config, v: Json) {
    !IsErrorResult(v) && cfg.dumps(v).Some? && !cfg.oversized(cfg.dumps(v).value)
  }

  /**
   Every re-reservation that brings a creation time back permits another takeover of it: any call
   that arrives later finds it, and succeeds if nobody gets in between.
   */
  lemma EveryRewindPermitsAnother(cfg: Config, run: seq<Event>, call: nat, now: real, seen: int)
    requires run != [] && RewoundTo(cfg, run, |run| - 1, seen) && After(cfg, run).row.value.createdAt == seen
    requires call !in After(cfg, run).pcs && LooksDead(now, seen, cfg.lease)
    ensures var last := |After(cfg, run).history| - 1;
      TookOver(cfg, run + Approach(call, now, last) + [Event(call, Take(NoFault))], |run| + 3, seen)
  {
    var s := After(cfg, run);
    RewindRuns(cfg, run, seen);
    AlwaysCounted(cfg, run);
    hide After, Step, Counted;
    var last := |s.history| - 1;
    Approaches(cfg, run, call, now, last);
    var longer := run + Approach(call, now, last) + [Event(call, Take(NoFault))];
    assert longer[..|run| + 3] == run + Approach(call, now, last);
  }

  /** A re-reservation leaves the row running. */
  lemma RewindRuns(cfg: Config, run: seq<Event>, seen: int)
    requires run != [] && RewoundTo(cfg, run, |run| - 1, seen)
    ensures Running(After(cfg, run).row)
  {
    PrefixStep(cfg, run, |run| - 1);
    assert run[..|run|] == run;
  }

  /** Calls `a` and `b` both run their tool under the same row, and call `a` settles first. */
  lemma SplitSteps(cfg: Config, s: State, a: nat, b: nat, first: Json, second: Json)
    requires Running(s.row) && a != b && {a, b} <= s.pcs.Keys
    requires s.pcs[a] == s.pcs[b] == Holding && RecordsInline(cfg, first) && RecordsInline(cfg, second)
    ensures var s1 := Step(cfg, Step(cfg, s, Event(a, Run(ToolReturned(first)))), Event(b, Run(ToolReturned(second))));
      var s2 := Step(cfg, Step(cfg, s1, Event(a, Settle(NoFault))), Event(b, Settle(NoFault)));
      && s2.tally.staleTakes == s.tally.staleTakes
      && s2.row == Some(Row(Completed, s.row.value.createdAt, Inline(cfg.dumps(first).value)))
      && a in s2.pcs && s2.pcs[a] == Stopped(Success(first), false)
      && b in s2.pcs && s2.pcs[b] == Stopped(Success(second), false)
  {
    var s1 := StepRun(cfg, s, a, ToolReturned(first));
    assert Step(cfg, s, Event(a, Run(ToolReturned(first)))) == s1;
    var s2 := StepRun(cfg, s1, b, ToolReturned(second));
    assert Step(cfg, s1, Event(b, Run(ToolReturned(second)))) == s2;
    var s3 := StepSettle(s2, a, Succeed(first, Inline(cfg.dumps(first).value)), NoFault);
    assert Step(cfg, s2, Event(a, Settle(NoFault))) == s3;
    var s4 := StepSettle(s3, b, Succeed(second, Inline(cfg.dumps(second).value)), NoFault);
    assert Step(cfg, s3, Event(b, Settle(NoFault))) == s4;
  }

  /** Call 2 takes the lease of call 1 over; both run their tools, and `a` settles before `b`. */
  lemma SplitRun(cfg: Config, late: real, a: nat, b: nat, first: Json, second: Json) returns (run: seq<Event>)
    requires LooksDead(late, 0, cfg.lease) && RecordsInline(cfg, first) && RecordsInline(cfg, second)
    requires (a == 1 && b == 2) || (a == 2 && b == 1)
    ensures var s := After(cfg, run);
      && s.tally.staleTakes == 1
      && s.row.Some? && s.row.value.status.Completed? && s.row.value.content == Inline(cfg.dumps(first).value)
      && b in s.pcs && s.pcs[b] == Stopped(Success(second), false)
  {
    hide After;
    var near := Arrive(1, 0.0) + Approach(2, late, 1);
    FirstWins(cfg, 1);
    Approaches(cfg, Arrive(1, 0.0), 2, late, 1);
    AfterStep(cfg, near, Event(2, Take(NoFault)));
    var start := near + [Event(2, Take(NoFault))];
    assert After(cfg, start)
        == StepTake(After(cfg, near), 2, TakeStale(After(cfg, near).row, 0, late), true, NoFault);
    var tools := [Event(a, Run(ToolReturned(first))), Event(b, Run(ToolReturned(second)))];
    AfterTwo(cfg, start, tools[0], tools[1]);
    AfterTwo(cfg, start + tools, Event(a, Settle(NoFault)), Event(b, Settle(NoFault)));
    run := start + tools + [Event(a, Settle(NoFault)), Event(b, Settle(NoFault))];
    SplitSteps(cfg, After(cfg, start), a, b, first, second);
  }

  /**
   After a takeover the old holder can settle the new holder's row, and the new holder then
   returns as a success a value that is not the recorded one.
   */
  lemma TakeoverSplitsResults(cfg: Config, late: real, first: Json, second: Json) returns (run: seq<Event>)
    requires LooksDead(late, 0, cfg.lease) && RecordsInline(cfg, first) && RecordsInline(cfg, second)
    ensures var s := After(cfg, run);
      && s.tally.staleTakes == 1
      && s.row.Some? && s.row.value.status.Completed? && s.row.value.content == Inline(cfg.dumps(first).value)
      && 2 in s.pcs && s.pcs[2] == Stopped(Success(second), false)
  {
    run := SplitRun(cfg, late, 1, 2, first, second);
  }

  /** Settling too late is no better: the refused old holder still returns its own value as a success. */
  lemma LateSettlerReportsItsOwn(cfg: Config, late: real, first: Json, second: Json) returns (run: seq<Event>)
    requires LooksDead(late, 0, cfg.lease) && RecordsInline(cfg, first) && RecordsInline(cfg, second)
    ensures var s := After(cfg, run);
      && s.tally.staleTakes == 1
      && s.row.Some? && s.row.value.status.Completed? && s.row.value.content == Inline(cfg.dumps(first).value)
      && 1 in s.pcs && s.pcs[1] == Stopped(Success(second), false)
  {
    run := SplitRun(cfg, late, 2, 1, first, second);
  }
}
