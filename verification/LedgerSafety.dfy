/** Exactly-once execution: what every interleaving of calls on one key keeps. */
module LedgerSafety {
  import opened Common
  import opened JsonValues
  import opened LedgerRows
  import opened LedgerProtocol

  // ---- Counting calls by where they stand

  function Where(pcs: map<nat, Pc>, p: Pc -> bool): set<nat> {
    set c | c in pcs && p(pcs[c])
  }

  function One(b: bool): nat {
    if b then 1 else 0
  }

  lemma WhereMoves(pcs: map<nat, Pc>, call: nat, pc: Pc, p: Pc -> bool)
    ensures |Where(pcs[call := pc], p)| + One(call in pcs && p(pcs[call])) == |Where(pcs, p)| + One(p(pc))
  {
    var rest := Where(pcs, p) - {call};
    assert Where(pcs, p) == if call in pcs && p(pcs[call]) then rest + {call} else rest;
    assert Where(pcs[call := pc], p) == if p(pc) then rest + {call} else rest;
  }

  lemma AfterStep(cfg: Config, run: seq<Event>, e: Event)
    ensures After(cfg, run + [e]) == Step(cfg, After(cfg, run), e)
  {
    assert (run + [e])[..|run|] == run;
  }

  // ---- At most one effect per grant that was not given back

  predicate IsHolding(pc: Pc) { pc.Holding? }

  predicate IsGivingBack(pc: Pc) { pc.Settling? && pc.verdict.GiveBack? }

  ghost predicate Counted(s: State) {
    && s.history != [] && s.history[|s.history| - 1] == s.row
    && s.tally.wins == One(s.row.Some?) + s.tally.retakes + s.tally.staleTakes
    && s.tally.retakes + One(LetGo(s.row)) == s.tally.releases
    && s.tally.effects + s.tally.harmless + |Where(s.pcs, IsHolding)| <= s.tally.wins
    && s.tally.releases + |Where(s.pcs, IsGivingBack)| <= s.tally.harmless
  }

  /** How the two counts move when one call goes from one program counter to another. */
  lemma CountsMove(s: State, call: nat, pc: Pc)
    ensures |Where(s.pcs[call := pc], IsHolding)| + One(call in s.pcs && IsHolding(s.pcs[call]))
         == |Where(s.pcs, IsHolding)| + One(IsHolding(pc))
    ensures |Where(s.pcs[call := pc], IsGivingBack)| + One(call in s.pcs && IsGivingBack(s.pcs[call]))
         == |Where(s.pcs, IsGivingBack)| + One(IsGivingBack(pc))
  {
    WhereMoves(s.pcs, call, pc, IsHolding);
    WhereMoves(s.pcs, call, pc, IsGivingBack);
  }

  lemma CountedPut(cfg: Config, s: State, e: Event)
    requires Counted(s) && e.call in s.pcs && s.pcs[e.call].Reserving? && e.act.Put?
    ensures Counted(Step(cfg, s, e))
  {
    CountsMove(s, e.call, StepPut(cfg, s, e.call, s.pcs[e.call].now, e.act.fenceHolds, e.act.fault).pcs[e.call]);
  }

  lemma CountedTake(cfg: Config, s: State, call: nat, w: Option<Row>, stale: bool, fault: Fault)
    requires Counted(s) && call in s.pcs && (s.pcs[call].TakingReleased? || s.pcs[call].TakingStale?)
    requires w.Some? ==> Running(w) && (if stale then Running(s.row) else LetGo(s.row))
    ensures Counted(StepTake(s, call, w, stale, fault))
  {
    CountsMove(s, call, StepTake(s, call, w, stale, fault).pcs[call]);
  }

  lemma CountedRun(cfg: Config, s: State, e: Event)
    requires Counted(s) && e.call in s.pcs && s.pcs[e.call].Holding? && e.act.Run?
    ensures Counted(Step(cfg, s, e))
  {
    CountsMove(s, e.call, RunPc(cfg, e.act.outcome));
  }

  lemma CountedSettle(cfg: Config, s: State, e: Event)
    requires Counted(s) && e.call in s.pcs && s.pcs[e.call].Settling? && e.act.Settle?
    ensures Counted(Step(cfg, s, e))
  {
    CountsMove(s, e.call, Step(cfg, s, e).pcs[e.call]);
  }

  /** Every other step moves a program counter and leaves the row and the tally alone. */
  lemma OtherSteps(cfg: Config, s: State, e: Event)
    requires !e.act.Put? && !e.act.Take? && !e.act.Run? && !e.act.Settle?
    ensures var s' := Step(cfg, s, e);
      && s'.row == s.row && s'.history == s.history && s'.tally == s.tally
      && (s' == s || (e.call in s'.pcs && s'.pcs == s.pcs[e.call := s'.pcs[e.call]]
                      && !IsHolding(s'.pcs[e.call]) && !IsGivingBack(s'.pcs[e.call])))
  {
  }

  lemma CountedKept(cfg: Config, s: State, e: Event)
    requires Counted(s)
    ensures Counted(Step(cfg, s, e))
  {
    if e.call in s.pcs && s.pcs[e.call].Reserving? && e.act.Put? {
      CountedPut(cfg, s, e);
    } else if e.call in s.pcs && s.pcs[e.call].TakingReleased? && e.act.Take? {
      CountedTake(cfg, s, e.call, TakeReleased(s.row, s.pcs[e.call].now), false, e.act.fault);
    } else if e.call in s.pcs && s.pcs[e.call].TakingStale? && e.act.Take? {
      CountedTake(cfg, s, e.call, TakeStale(s.row, s.pcs[e.call].seen, s.pcs[e.call].now), true, e.act.fault);
    } else if e.call in s.pcs && s.pcs[e.call].Holding? && e.act.Run? {
      CountedRun(cfg, s, e);
    } else if e.call in s.pcs && s.pcs[e.call].Settling? && e.act.Settle? {
      CountedSettle(cfg, s, e);
    } else if !e.act.Put? && !e.act.Take? && !e.act.Run? && !e.act.Settle? {
      OtherSteps(cfg, s, e);
      var s' := Step(cfg, s, e);
      if s' != s {
        CountsMove(s, e.call, s'.pcs[e.call]);
      }
    }
  }

  lemma {:induction false} AlwaysCounted(cfg: Config, run: seq<Event>)
    ensures Counted(After(cfg, run))
  {
    if run == [] {
      assert Where(Init().pcs, IsHolding) == {} && Where(Init().pcs, IsGivingBack) == {};
    } else {
      AlwaysCounted(cfg, run[..|run| - 1]);
      CountedKept(cfg, After(cfg, run[..|run| - 1]), run[|run| - 1]);
    }
  }

  /**
   The number of tool runs that may have taken effect is at most one more than the number of
   reservations that were taken over from a holder whose lease ran out.
   */
  lemma EffectsBounded(cfg: Config, run: seq<Event>)
    ensures After(cfg, run).tally.effects <= 1 + After(cfg, run).tally.staleTakes
  {
    AlwaysCounted(cfg, run);
  }
}
