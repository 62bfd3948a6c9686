/** Lease takeovers: what the stored integer createdAt guarantees, and what it does not. */
module LedgerLeases {
  import opened Common
  import opened JsonValues
  import opened LedgerRows
  import opened LedgerProtocol
  import opened LedgerSafety

  /** Only a lease that looked expired is ever up for a takeover. */
  ghost predicate TakeoversDue(cfg: Config, s: State) {
    forall c :: c in s.pcs && s.pcs[c].TakingStale? ==> LooksDead(s.pcs[c].now, s.pcs[c].seen, cfg.lease)
  }

  /** A call comes to take a stale lease over only by reading that it looks expired. */
  lemma DueAfter(cfg: Config, s: State, e: Event, call: nat)
    requires call in Step(cfg, s, e).pcs && Step(cfg, s, e).pcs[call].TakingStale?
    ensures (call in s.pcs && s.pcs[call] == Step(cfg, s, e).pcs[call])
      || LooksDead(Step(cfg, s, e).pcs[call].now, Step(cfg, s, e).pcs[call].seen, cfg.lease)
  {
    if call == e.call && call in s.pcs && !e.act.Die? {
      match (s.pcs[call], e.act)
      case (Reserving(_), Put(_, _)) =>
      case (TakingReleased(_), Take(_)) =>
      case (TakingStale(_, _), Take(_)) =>
      case (Settling(_), Settle(_)) =>
      case _ =>
    }
  }

  lemma StaysDue(cfg: Config, s: State, e: Event)
    requires TakeoversDue(cfg, s)
    ensures TakeoversDue(cfg, Step(cfg, s, e))
  {
    hide Step;
    forall c | c in Step(cfg, s, e).pcs && Step(cfg, s, e).pcs[c].TakingStale?
      ensures LooksDead(Step(cfg, s, e).pcs[c].now, Step(cfg, s, e).pcs[c].seen, cfg.lease)
    {
      DueAfter(cfg, s, e, c);
    }
  }

  lemma {:induction false} TakeoversAlwaysDue(cfg: Config, run: seq<Event>)
    ensures TakeoversDue(cfg, After(cfg, run))
  {
    if run != [] {
      TakeoversAlwaysDue(cfg, run[..|run| - 1]);
      StaysDue(cfg, After(cfg, run[..|run| - 1]), run[|run| - 1]);
    }
  }

  /** Event `k` of the run took over the lease that was created at `seen`. */
  predicate TookOver(cfg: Config, run: seq<Event>, k: nat, seen: int) {
    k < |run| &&
    var s, e := After(cfg, run[..k]), run[k];
    e.call in s.pcs && e.act.Take? && !e.act.fault.LostBefore? &&
    s.pcs[e.call].TakingStale? && s.pcs[e.call].seen == seen &&
    TakeStale(s.row, seen, s.pcs[e.call].now).Some?
  }

  /** Event `k` re-reserved a released row and moved its creation time from after `seen` back to `seen` or before. */
  predicate RewoundTo(cfg: Config, run: seq<Event>, k: nat, seen: int) {
    k < |run| &&
    var s, e := After(cfg, run[..k]), run[k];
    e.call in s.pcs && e.act.Take? && !e.act.fault.LostBefore? &&
    s.pcs[e.call].TakingReleased? && LetGo(s.row) &&
    Trunc(s.pcs[e.call].now) <= seen < s.row.value.createdAt
  }

  /**
   Nobody takes a lease over before it has run out: the taker's reading lies more than the lease
   length behind the creation time it saw, to the fraction of a second.
   */
  lemma TakeoverWaitsForTheLease(cfg: Config, run: seq<Event>, k: nat, seen: int)
    requires TookOver(cfg, run, k, seen)
    ensures After(cfg, run[..k]).pcs[run[k].call].now - seen as real > cfg.lease as real
  {
    TakeoversAlwaysDue(cfg, run[..k]);
  }

  /** An answered read of a row in flight sends the call to take it over exactly if the lease has run out. */
  lemma ReadOfRunningRow(cfg: Config, s: State, call: nat, now: real, index: nat, createdAt: int)
    requires call in s.pcs && s.pcs[call] == Resolving(now) && index < |s.history|
    requires s.history[index].Some? && s.history[index].value.status == InFlight
             && s.history[index].value.createdAt == createdAt
    ensures var s' := Step(cfg, s, Event(call, Read(index, NoFault)));
      && s'.row == s.row && s'.tally == s.tally
      && s'.pcs == s.pcs[call := if now - createdAt as real > cfg.lease as real
                                 then TakingStale(now, createdAt) else Polling]
  {
  }

  lemma PrefixStep(cfg: Config, run: seq<Event>, k: nat)
    requires k < |run|
    ensures After(cfg, run[..k + 1]) == Step(cfg, After(cfg, run[..k]), run[k])
  {
    assert run[..k + 1][..k] == run[..k];
  }

  /** A takeover strictly advances createdAt, whatever was lost by cutting off the fraction of `now`. */
  lemma TakeoverAdvances(cfg: Config, run: seq<Event>, k: nat, seen: int)
    requires cfg.lease > 0 && TookOver(cfg, run, k, seen)
    ensures After(cfg, run[..k]).row.Some? && After(cfg, run[..k]).row.value.createdAt == seen
    ensures After(cfg, run[..k + 1]).row.Some? && After(cfg, run[..k + 1]).row.value.createdAt > seen
  {
    PrefixStep(cfg, run, k);
    TakeoversAlwaysDue(cfg, run[..k]);
    var s := After(cfg, run[..k]);
    var now := s.pcs[run[k].call].now;
    assert LooksDead(now, seen, cfg.lease);
    assert now > seen as real + 1.0;
  }

  lemma StaysLater(cfg: Config, run: seq<Event>, k: nat, seen: int)
    requires cfg.lease > 0 && k < |run| && !RewoundTo(cfg, run, k, seen)
    requires After(cfg, run[..k]).row.Some? && After(cfg, run[..k]).row.value.createdAt > seen
    ensures After(cfg, run[..k + 1]).row.Some? && After(cfg, run[..k + 1]).row.value.createdAt > seen
  {
    PrefixStep(cfg, run, k);
    var s, e := After(cfg, run[..k]), run[k];
    if TookOver(cfg, run, k, s.row.value.createdAt) {
      TakeoverAdvances(cfg, run, k, s.row.value.createdAt);
    }
  }

  lemma {:induction false} LaterUntil(cfg: Config, run: seq<Event>, j: nat, k: nat, seen: int)
    requires cfg.lease > 0 && j <= k <= |run|
    requires forall m :: j <= m < k ==> !RewoundTo(cfg, run, m, seen)
    requires After(cfg, run[..j]).row.Some? && After(cfg, run[..j]).row.value.createdAt > seen
    ensures After(cfg, run[..k]).row.Some? && After(cfg, run[..k]).row.value.createdAt > seen
    decreases k
  {
    if j < k {
      LaterUntil(cfg, run, j, k - 1, seen);
      StaysLater(cfg, run, k - 1, seen);
    }
  }

  /**
   Two calls that saw the same creation time can both take the lease over only if, in between,
   a released row was re-reserved by a call whose clock reading lies behind the stored one.
   */
  lemma OneTakeoverPerSeenValue(cfg: Config, run: seq<Event>, j: nat, k: nat, seen: int)
    requires cfg.lease > 0 && j < k && TookOver(cfg, run, j, seen) && TookOver(cfg, run, k, seen)
    ensures exists m :: j < m < k && RewoundTo(cfg, run, m, seen)
  {
    if forall m :: j + 1 <= m < k ==> !RewoundTo(cfg, run, m, seen) {
      TakeoverAdvances(cfg, run, j, seen);
      LaterUntil(cfg, run, j + 1, k, seen);
      TakeoverAdvances(cfg, run, k, seen);
    }
  }

  // ---- Runs within one lease

  /** All clock readings of the run lie within one lease after `start`. */
  ghost predicate WithinOneLease(cfg: Config, run: seq<Event>, start: int) {
    forall k :: 0 <= k < |run| && run[k].act.Start? ==>
      start as real <= run[k].act.now <= (start + cfg.lease) as real
  }

  predicate Fresh(row: Option<Row>, start: int) {
    row.Some? ==> row.value.createdAt >= start
  }

  predicate Recent(cfg: Config, pc: Pc, start: int) {
    (pc.Reserving? || pc.Resolving? || pc.TakingReleased? ==> start as real <= pc.now <= (start + cfg.lease) as real)
    && !pc.TakingStale?
  }

  ghost predicate Early(cfg: Config, s: State, start: int) {
    && s.tally.staleTakes == 0 && Fresh(s.row, start)
    && (forall i :: 0 <= i < |s.history| ==> Fresh(s.history[i], start))
    && (forall c :: c in s.pcs ==> Recent(cfg, s.pcs[c], start))
  }

  lemma EarlyRow(cfg: Config, s: State, e: Event, start: int)
    requires Early(cfg, s, start)
    ensures var s' := Step(cfg, s, e);
      && s'.tally.staleTakes == 0 && Fresh(s'.row, start)
      && (s'.history == s.history || s'.history == s.history + [s'.row])
  {
    if e.call in s.pcs { assert Recent(cfg, s.pcs[e.call], start); }
  }

  lemma ReadIsRecent(cfg: Config, row: Option<Row>, now: real, start: int)
    requires Fresh(row, start)
    ensures start as real <= now <= (start + cfg.lease) as real ==> Recent(cfg, ReadPc(cfg, row, now), start)
    ensures Settled(row) ==> Recent(cfg, ReadPc(cfg, row, now), start)
  {
  }

  lemma EarlyReader(cfg: Config, s: State, e: Event, start: int)
    requires Early(cfg, s, start) && e.call in s.pcs && (e.act.Read? || e.act.Poll?)
    ensures Recent(cfg, Step(cfg, s, e).pcs[e.call], start)
  {
    hide ReadPc, Settled;
    assert Recent(cfg, s.pcs[e.call], start);
    if e.act.index < |s.history| {
      assert Fresh(s.history[e.act.index], start);
      ReadIsRecent(cfg, s.history[e.act.index], if s.pcs[e.call].Resolving? then s.pcs[e.call].now else 0.0, start);
    }
  }

  lemma EarlyWriter(cfg: Config, s: State, e: Event, start: int)
    requires e.call in s.pcs && Recent(cfg, s.pcs[e.call], start) && !e.act.Read? && !e.act.Poll?
    ensures Recent(cfg, Step(cfg, s, e).pcs[e.call], start)
  {
    hide ReadPc, SettleWrite, PutNew, TakeReleased, IsErrorResult, FetchResult;
  }

  lemma EarlyPc(cfg: Config, s: State, e: Event, start: int, call: nat)
    requires Early(cfg, s, start) && call in Step(cfg, s, e).pcs
    requires e.act.Start? ==> start as real <= e.act.now <= (start + cfg.lease) as real
    ensures Recent(cfg, Step(cfg, s, e).pcs[call], start)
  {
    if call == e.call && call in s.pcs {
      hide Step;
      assert Recent(cfg, s.pcs[call], start);
      if e.act.Read? || e.act.Poll? { EarlyReader(cfg, s, e, start); } else { EarlyWriter(cfg, s, e, start); }
    } else if call in s.pcs {
      assert Recent(cfg, s.pcs[call], start);
    }
  }

  lemma {:induction false} AlwaysEarly(cfg: Config, run: seq<Event>, start: int)
    requires WithinOneLease(cfg, run, start)
    ensures Early(cfg, After(cfg, run), start)
  {
    if run != [] {
      var front, e := run[..|run| - 1], run[|run| - 1];
      AlwaysEarly(cfg, front, start);
      EarlyRow(cfg, After(cfg, front), e, start);
      hide Step, Recent;
      forall c | c in After(cfg, run).pcs ensures Recent(cfg, After(cfg, run).pcs[c], start) {
        EarlyPc(cfg, After(cfg, front), e, start, c);
      }
    }
  }

  /**
   Exactly-once within a lease: however calls, crashes and losses interleave, if all calls read
   their clocks within one lease of each other, no lease is taken over and the tool takes effect
   at most once.
   */
  lemma OnceWithinOneLease(cfg: Config, run: seq<Event>, start: int)
    requires WithinOneLease(cfg, run, start)
    ensures After(cfg, run).tally.staleTakes == 0 && After(cfg, run).tally.effects <= 1
  {
    AlwaysEarly(cfg, run, start);
    EffectsBounded(cfg, run);
  }

  /** Re-reserving event `k` stores a reading earlier than the creation time it replaces. */
  predicate ClockWentBack(cfg: Config, run: seq<Event>, k: nat) {
    k < |run| &&
    var s, e := After(cfg, run[..k]), run[k];
    e.call in s.pcs && s.pcs[e.call].TakingReleased? && LetGo(s.row) &&
    Trunc(s.pcs[e.call].now) < s.row.value.createdAt
  }

  lemma RewindIsClockGoingBack(cfg: Config, run: seq<Event>, seen: int)
    ensures forall m :: RewoundTo(cfg, run, m, seen) ==> ClockWentBack(cfg, run, m)
  {
  }

  /** So while no re-reservation stores an earlier reading, each creation time is taken over at most once. */
  lemma AtMostOneTakeover(cfg: Config, run: seq<Event>, j: nat, k: nat, seen: int)
    requires cfg.lease > 0 && forall m :: !ClockWentBack(cfg, run, m)
    requires TookOver(cfg, run, j, seen) && TookOver(cfg, run, k, seen)
    ensures j == k
  {
    RewindIsClockGoingBack(cfg, run, seen);
    if j < k {
      OneTakeoverPerSeenValue(cfg, run, j, k, seen);
    } else if k < j {
      OneTakeoverPerSeenValue(cfg, run, k, j, seen);
    }
  }
}
