/** Settled records are final, and unless a superseded call interferes every caller sees the one recorded result. */
module LedgerReplay {
  import opened Common
  import opened JsonValues
  import opened LedgerRows
  import opened LedgerProtocol
  import opened LedgerSafety

  // ---- Completed and failed rows never change again

  lemma SettledStays(cfg: Config, s: State, e: Event)
    requires Settled(s.row)
    ensures Step(cfg, s, e).row == s.row
  {
  }

  lemma {:induction false} SettledForever(cfg: Config, run: seq<Event>, more: seq<Event>)
    requires Settled(After(cfg, run).row)
    ensures After(cfg, run + more).row == After(cfg, run).row
  {
    if more == [] {
      assert run + more == run;
    } else {
      var front := more[..|more| - 1];
      SettledForever(cfg, run, front);
      assert run + more == run + front + [more[|more| - 1]];
      AfterStep(cfg, run + front, more[|more| - 1]);
      SettledStays(cfg, After(cfg, run + front), more[|more| - 1]);
    }
  }

  // ---- Without lease takeovers an in-flight row has exactly one unsettled winner

  function Holders(s: State): set<nat> {
    Where(s.pcs, Holds)
  }

  ghost predicate OneHolder(s: State) {
    s.tally.staleTakes == 0 ==> |Holders(s)| == One(Running(s.row))
  }

  lemma SoleHolder(s: State, a: nat, b: nat)
    requires OneHolder(s) && s.tally.staleTakes == 0 && a in s.pcs && b in s.pcs
    requires Holds(s.pcs[a]) && Holds(s.pcs[b])
    ensures a == b && Running(s.row)
  {
    assert {a, b} <= Holders(s);
    var others := Holders(s) - {a};
    assert Holders(s) == others + {a};
    assert b in others || a == b;
  }

  lemma OneHolderKept(cfg: Config, s: State, e: Event)
    requires OneHolder(s)
    ensures OneHolder(Step(cfg, s, e))
  {
    var s' := Step(cfg, s, e);
    if s'.tally.staleTakes == 0 && s' != s {
      StaleTakesGrow(cfg, s, e);
      WhereMoves(s.pcs, e.call, s'.pcs[e.call], Holds);
      HoldingChanges(cfg, s, e);
      if e.call in s.pcs && Holds(s.pcs[e.call]) {
        SoleHolder(s, e.call, e.call);
      }
    }
  }

  lemma StaleTakesGrow(cfg: Config, s: State, e: Event)
    ensures s.tally.staleTakes <= Step(cfg, s, e).tally.staleTakes
    ensures Step(cfg, s, e) == s || (e.call in Step(cfg, s, e).pcs
            && Step(cfg, s, e).pcs == s.pcs[e.call := Step(cfg, s, e).pcs[e.call]])
  {
    var s' := Step(cfg, s, e);
    if e.call in s.pcs && !e.act.Die? {
      match (s.pcs[e.call], e.act)
      case (Reserving(now), Put(_, _)) =>
      case (TakingReleased(now), Take(_)) =>
      case (TakingStale(now, seen), Take(_)) =>
      case (Settling(verdict), Settle(_)) =>
      case _ =>
    }
  }

  /** A call starts holding only by a grant, and stops holding only by an answered settle. */
  lemma HoldingChanges(cfg: Config, s: State, e: Event)
    requires Step(cfg, s, e).tally.staleTakes == 0 && Step(cfg, s, e) != s && e.call in Step(cfg, s, e).pcs
    ensures var s' := Step(cfg, s, e);
      var held, holds := e.call in s.pcs && Holds(s.pcs[e.call]), Holds(s'.pcs[e.call]);
      && (!held && holds ==> !Running(s.row) && Running(s'.row))
      && (held && !holds ==> !Running(s'.row))
      && (held == holds ==> Running(s'.row) == Running(s.row))
  {
  }

  /** In runs without lease takeovers: `in_flight` means exactly one unsettled winner, any other status none. */
  lemma {:induction false} InFlightHasOneWinner(cfg: Config, run: seq<Event>)
    ensures OneHolder(After(cfg, run))
  {
    if run == [] {
      assert Holders(Init()) == {};
    } else {
      InFlightHasOneWinner(cfg, run[..|run| - 1]);
      OneHolderKept(cfg, After(cfg, run[..|run| - 1]), run[|run| - 1]);
    }
  }

  // ---- Superseded calls

  /** A call that still holds a reservation although the row was granted to another one since. */
  predicate Superseded(s: State, call: nat) {
    call in s.pcs && Holds(s.pcs[call]) && s.granted != Some(call)
  }

  /**
   A superseded call interferes if it overwrites the offloaded object or settles the row of the
   call that replaced it, or if its settle is refused and it reports its own result as a success.
   */
  predicate Interferes(s: State, e: Event) {
    Superseded(s, e.call) &&
    ((s.pcs[e.call].Offloading? && e.act.Offload? && !e.act.fault.LostBefore?)
     || (s.pcs[e.call].Settling? && e.act.Settle? && !e.act.fault.LostBefore?
         && (Running(s.row) || (e.act.fault.NoFault? && s.pcs[e.call].verdict.Succeed?))))
  }

  /** No call interferes after it was superseded, for instance because it had died. */
  ghost predicate Undisputed(cfg: Config, run: seq<Event>) {
    forall k :: 0 <= k < |run| ==> !Interferes(After(cfg, run[..k]), run[k])
  }

  lemma UndisputedBefore(cfg: Config, run: seq<Event>)
    requires run != [] && Undisputed(cfg, run)
    ensures Undisputed(cfg, run[..|run| - 1]) && !Interferes(After(cfg, run[..|run| - 1]), run[|run| - 1])
  {
    hide After, Interferes;
    var front := run[..|run| - 1];
    forall k | 0 <= k < |front|
      ensures !Interferes(After(cfg, front[..k]), front[k])
    {
      assert front[..k] == run[..k];
    }
  }

  ghost predicate NoneSuperseded(s: State) {
    s.tally.staleTakes == 0 ==> forall c :: c in s.pcs && Holds(s.pcs[c]) ==> s.granted == Some(c)
  }

  lemma NobodyHolds(s: State)
    requires OneHolder(s) && s.tally.staleTakes == 0 && !Running(s.row)
    ensures forall c :: c in s.pcs ==> !Holds(s.pcs[c])
  {
    assert forall c :: c in s.pcs && Holds(s.pcs[c]) ==> c in Holders(s);
  }

  lemma NoneSupersededKept(cfg: Config, s: State, e: Event)
    requires OneHolder(s) && NoneSuperseded(s)
    ensures NoneSuperseded(Step(cfg, s, e))
  {
    var s' := Step(cfg, s, e);
    StaleTakesGrow(cfg, s, e);
    if s'.tally.staleTakes == 0 && s' != s {
      HoldingChanges(cfg, s, e);
      if !Running(s.row) { NobodyHolds(s); }
      GrantsTell(cfg, s, e);
    }
  }

  /** A call starts holding by a grant alone, and a grant is of a row that nobody runs or of a stale one. */
  lemma GrantsTell(cfg: Config, s: State, e: Event)
    ensures var s' := Step(cfg, s, e);
      && (e.call in s'.pcs && Holds(s'.pcs[e.call]) && !(e.call in s.pcs && Holds(s.pcs[e.call])) ==> s'.granted == Some(e.call))
      && (s'.granted == s.granted || (s'.granted == Some(e.call) && Running(s'.row) && !Settled(s.row)
          && (Running(s.row) ==> s'.tally.staleTakes > 0)))
  {
  }

  /** Without takeovers there is nobody to interfere. */
  lemma {:induction false} NoTakeoverNoDispute(cfg: Config, run: seq<Event>)
    requires After(cfg, run).tally.staleTakes == 0
    ensures Undisputed(cfg, run) && NoneSuperseded(After(cfg, run))
  {
    if run != [] {
      var front, e := run[..|run| - 1], run[|run| - 1];
      StaleTakesGrow(cfg, After(cfg, front), e);
      NoTakeoverNoDispute(cfg, front);
      InFlightHasOneWinner(cfg, front);
      NoneSupersededKept(cfg, After(cfg, front), e);
      hide After, Step;
      forall k | 0 <= k < |run|
        ensures !Interferes(After(cfg, run[..k]), run[k])
      {
        if k < |front| { assert front[..k] == run[..k] && front[k] == run[k]; }
      }
    }
  }

  // ---- The call a row is granted to

  predicate Engaged(s: State) {
    s.granted.Some? && s.granted.value in s.pcs && Holds(s.pcs[s.granted.value])
  }

  /** A row is in flight exactly as long as the call it was last granted to has not settled it. */
  ghost predicate GrantedRuns(s: State) {
    && (Running(s.row) <==> Engaged(s))
    && (s.granted.Some? ==> s.granted.value in s.pcs && (s.pcs[s.granted.value].Stopped? || Engaged(s)))
  }

  lemma GrantedRunsKept(cfg: Config, s: State, e: Event)
    requires GrantedRuns(s) && !Interferes(s, e)
    ensures GrantedRuns(Step(cfg, s, e))
  {
    var s' := Step(cfg, s, e);
    if s' != s {
      StaleTakesGrow(cfg, s, e);
      GrantsTell(cfg, s, e);
      if s'.granted == s.granted {
        GrantStands(cfg, s, e);
      } else {
        GrantHolds(cfg, s, e);
      }
    }
  }

  lemma GrantHolds(cfg: Config, s: State, e: Event)
    requires Step(cfg, s, e).granted != s.granted
    ensures e.call in Step(cfg, s, e).pcs && Holds(Step(cfg, s, e).pcs[e.call])
  {
  }

  /** Between grants the row leaves `in_flight` only by a settle, and only the granted call may settle. */
  lemma GrantStands(cfg: Config, s: State, e: Event)
    requires GrantedRuns(s) && !Interferes(s, e) && Step(cfg, s, e).granted == s.granted && Step(cfg, s, e) != s
    requires e.call in Step(cfg, s, e).pcs
    ensures var s' := Step(cfg, s, e);
      && (s.granted != Some(e.call) ==> Running(s'.row) == Running(s.row))
      && (s.granted == Some(e.call) ==>
            (Running(s'.row) <==> Holds(s'.pcs[e.call])) && (Holds(s'.pcs[e.call]) || s'.pcs[e.call].Stopped?))
  {
  }

  // ---- The recorded result

  /** The JSON text a completed row stands for: inline, or the offloaded object. */
  function Recorded(s: State): Option<string> {
    if s.row.Some? && s.row.value.status.Completed? then
      match s.row.value.content
      case Inline(text) => Some(text)
      case Offloaded => s.blob
      case _ => None
    else None
  }

  /** What call `call`, standing at `pc`, may rely on, given the row, the offloaded object and the grant. */
  ghost predicate PcFaithful(cfg: Config, s: State, call: nat, pc: Pc) {
    match pc
    case Offloading(v, text) => cfg.dumps(v) == Some(text)
    case Settling(Succeed(v, Inline(text))) => cfg.dumps(v) == Some(text)
    case Settling(Succeed(v, Offloaded)) => s.granted == Some(call) ==> s.blob.Some? && cfg.dumps(v) == s.blob
    case Settling(Succeed(_, _)) => false
    case Settling(Fail(_, _, thenRaise)) => !thenRaise.Success? && !thenRaise.Replayed?
    case Stopped(Success(v), _) => Recorded(s).Some? && cfg.dumps(v) == Recorded(s)
    case Stopped(Replayed(v), _) => Recorded(s).Some? && v == LoadsOrRaw(cfg, Recorded(s).value)
    case Fetching => s.row.Some? && s.row.value.status.Completed? && s.row.value.content.Offloaded?
    case _ => true
  }

  ghost predicate Faithful(cfg: Config, s: State) {
    && (s.row.Some? && s.row.value.status.Completed? ==> Recorded(s).Some?)
    && (forall i :: 0 <= i < |s.history| && Settled(s.history[i]) ==> s.history[i] == s.row)
    && (forall c :: c in s.pcs ==> PcFaithful(cfg, s, c, s.pcs[c]))
  }

  lemma FaithfulKept(cfg: Config, s: State, e: Event)
    requires GrantedRuns(s) && Faithful(cfg, s) && !Interferes(s, e)
    ensures Faithful(cfg, Step(cfg, s, e))
  {
    var s' := Step(cfg, s, e);
    if s' == s {
    } else if Still(cfg, s, e) {
      SamePlace(cfg, s, e);
    } else {
      RecordMoves(cfg, s, e);
    }
  }

  /** What a call may rely on depends on the row, the object and the grant alone. */
  lemma OnlyThePlaceMatters(cfg: Config, s: State, s': State, call: nat, pc: Pc)
    requires s'.row == s.row && s'.blob == s.blob && s'.granted == s.granted && PcFaithful(cfg, s, call, pc)
    ensures PcFaithful(cfg, s', call, pc)
  {
  }

  /** The row, the object and the grant stay as they are. */
  ghost predicate Still(cfg: Config, s: State, e: Event) {
    var s' := Step(cfg, s, e);
    s' != s && s'.row == s.row && s'.blob == s.blob && s'.granted == s.granted
  }

  lemma StillMovesOneCall(cfg: Config, s: State, e: Event)
    requires Still(cfg, s, e)
    ensures var s' := Step(cfg, s, e);
      e.call in s'.pcs && s'.pcs == s.pcs[e.call := s'.pcs[e.call]]
      && (s'.history == s.history || s'.history == s.history + [s.row])
  {
    StaleTakesGrow(cfg, s, e);
  }

  /** What was read from a faithful history can be relied on. */
  lemma ReadIsFaithful(cfg: Config, s: State, call: nat, index: nat, now: real)
    requires Faithful(cfg, s) && index < |s.history|
    ensures PcFaithful(cfg, s, call, ReadPc(cfg, s.history[index], now))
  {
  }

  /** Where a step leaves its own call, if that call holds a reservation ... */
  lemma HoldersPcFaithful(cfg: Config, s: State, e: Event)
    requires GrantedRuns(s) && Faithful(cfg, s) && Still(cfg, s, e) && !Interferes(s, e)
    requires e.call in s.pcs && Holds(s.pcs[e.call])
    ensures PcFaithful(cfg, s, e.call, Step(cfg, s, e).pcs[e.call])
  {
    StaleTakesGrow(cfg, s, e);
    assert PcFaithful(cfg, s, e.call, s.pcs[e.call]);
  }

  /** ... and if it does not. */
  lemma OthersPcFaithful(cfg: Config, s: State, e: Event)
    requires Faithful(cfg, s) && Still(cfg, s, e) && (e.call in s.pcs ==> !Holds(s.pcs[e.call]))
    ensures PcFaithful(cfg, s, e.call, Step(cfg, s, e).pcs[e.call])
  {
    if e.call in s.pcs {
      assert PcFaithful(cfg, s, e.call, s.pcs[e.call]);
      match (s.pcs[e.call], e.act)
      case (Resolving(now), Read(i, fault)) => if i < |s.history| { ReadIsFaithful(cfg, s, e.call, i, now); }
      case (Polling, Poll(i, fault)) => if i < |s.history| { ReadIsFaithful(cfg, s, e.call, i, 0.0); }
      case _ =>
    }
  }

  /** Steps that leave the row, the object and the grant alone. */
  lemma SamePlace(cfg: Config, s: State, e: Event)
    requires GrantedRuns(s) && Faithful(cfg, s) && Still(cfg, s, e) && !Interferes(s, e)
    ensures Faithful(cfg, Step(cfg, s, e))
  {
    hide Step, PcFaithful, Interferes;
    var s' := Step(cfg, s, e);
    StillMovesOneCall(cfg, s, e);
    if e.call in s.pcs && Holds(s.pcs[e.call]) { HoldersPcFaithful(cfg, s, e); } else { OthersPcFaithful(cfg, s, e); }
    forall c | c in s'.pcs
      ensures PcFaithful(cfg, s', c, s'.pcs[c])
    {
      OnlyThePlaceMatters(cfg, s, s', c, s'.pcs[c]);
    }
  }

  /** A call the row is not granted to relies on nothing while the row is unsettled. */
  lemma Bystander(cfg: Config, s: State, s': State, call: nat, pc: Pc)
    requires PcFaithful(cfg, s, call, pc) && !Settled(s.row) && s'.granted != Some(call)
    ensures PcFaithful(cfg, s', call, pc)
  {
  }

  /** Steps that change the row, the object or the grant: nobody else relies on them. */
  lemma RecordMoves(cfg: Config, s: State, e: Event)
    requires GrantedRuns(s) && Faithful(cfg, s) && !Interferes(s, e)
    requires Step(cfg, s, e) != s && !Still(cfg, s, e)
    ensures Faithful(cfg, Step(cfg, s, e))
  {
    var s' := Step(cfg, s, e);
    StaleTakesGrow(cfg, s, e);
    MoverOwnsGrant(cfg, s, e);
    OwnRecord(cfg, s, e);
    hide Step, PcFaithful, Interferes;
    forall c | c in s'.pcs
      ensures PcFaithful(cfg, s', c, s'.pcs[c])
    {
      if c != e.call {
        Bystander(cfg, s, s', c, s.pcs[c]);
      }
    }
  }

  /** Whoever changes the row, the object or the grant has it granted, or interferes; and the row is not settled. */
  lemma MoverOwnsGrant(cfg: Config, s: State, e: Event)
    requires GrantedRuns(s) && !Interferes(s, e) && Step(cfg, s, e) != s && !Still(cfg, s, e)
    ensures e.call in s.pcs && !Settled(s.row)
    ensures Step(cfg, s, e).granted == Some(e.call)
  {
  }

  /** What `call` leaves behind when it writes is what it may rely on. */
  ghost predicate RecordsOwn(cfg: Config, s: State, call: nat) {
    && call in s.pcs && PcFaithful(cfg, s, call, s.pcs[call])
    && (s.row.Some? && s.row.value.status.Completed? ==> Recorded(s).Some?)
    && forall i :: 0 <= i < |s.history| && Settled(s.history[i]) ==> s.history[i] == s.row
  }

  lemma SettleRecords(cfg: Config, s: State, call: nat, verdict: Verdict, fault: Fault)
    requires Faithful(cfg, s) && Running(s.row) && s.granted == Some(call) && call in s.pcs
    requires s.pcs[call] == Settling(verdict) && !fault.LostBefore?
    ensures RecordsOwn(cfg, StepSettle(s, call, verdict, fault), call)
  {
    assert PcFaithful(cfg, s, call, s.pcs[call]);
  }

  lemma OffloadRecords(cfg: Config, s: State, call: nat, v: Json, text: string, fault: Fault)
    requires Faithful(cfg, s) && !Settled(s.row) && call in s.pcs && s.pcs[call] == Offloading(v, text)
    ensures RecordsOwn(cfg, StepOffload(s, call, v, text, fault), call)
  {
    assert PcFaithful(cfg, s, call, s.pcs[call]);
  }

  lemma GrantRecords(cfg: Config, s: State, s': State, call: nat, fault: Fault)
    requires Faithful(cfg, s) && !Settled(s.row) && call in s'.pcs && !Settled(s'.row)
    requires s'.history == s.history + [s'.row] && s'.pcs[call] == if fault.NoFault? then Holding else Stopped(LedgerError, true)
    ensures RecordsOwn(cfg, s', call)
  {
  }

  lemma OwnRecord(cfg: Config, s: State, e: Event)
    requires GrantedRuns(s) && Faithful(cfg, s) && !Interferes(s, e) && !Settled(s.row) && e.call in s.pcs
    requires Step(cfg, s, e).granted == Some(e.call) && Step(cfg, s, e) != s && !Still(cfg, s, e)
    ensures RecordsOwn(cfg, Step(cfg, s, e), e.call)
  {
    hide Faithful, PcFaithful, RecordsOwn;
    if e.act.Settle? {
      SettleRecords(cfg, s, e.call, s.pcs[e.call].verdict, e.act.fault);
    } else if e.act.Offload? {
      OffloadRecords(cfg, s, e.call, s.pcs[e.call].result, s.pcs[e.call].text, e.act.fault);
    } else {
      assert e.act.Put? || e.act.Take?;
      GrantRecords(cfg, s, Step(cfg, s, e), e.call, e.act.fault);
    }
  }

  /** The row and the calls agree with the one recorded text after every run in which no superseded call interferes. */
  lemma {:induction false} AlwaysFaithful(cfg: Config, run: seq<Event>)
    requires Undisputed(cfg, run)
    ensures Faithful(cfg, After(cfg, run)) && GrantedRuns(After(cfg, run))
  {
    if run != [] {
      UndisputedBefore(cfg, run);
      AlwaysFaithful(cfg, run[..|run| - 1]);
      FaithfulKept(cfg, After(cfg, run[..|run| - 1]), run[|run| - 1]);
      GrantedRunsKept(cfg, After(cfg, run[..|run| - 1]), run[|run| - 1]);
    }
  }

  /** A value handed to a caller as a success: by the winner, or replayed from the record. */
  predicate HandedOut(s: State, call: nat, result: Json) {
    call in s.pcs && s.pcs[call].Stopped?
    && (s.pcs[call].outcome == Success(result) || s.pcs[call].outcome == Replayed(result))
  }

  /**
   In a run in which no superseded call interferes, however often dead holders were replaced: once
   any call has handed out a success the row is completed, and every success handed out, by any
   call, is the recorded text up to JSON encoding.
   */
  lemma OneRecordedResult(cfg: Config, run: seq<Event>, call: nat, result: Json)
    requires Undisputed(cfg, run) && HandedOut(After(cfg, run), call, result)
    ensures var s := After(cfg, run);
      && Recorded(s).Some?
      && (s.pcs[call].outcome.Success? ==> cfg.dumps(result) == Recorded(s))
      && (s.pcs[call].outcome.Replayed? ==> result == LoadsOrRaw(cfg, Recorded(s).value))
  {
    AlwaysFaithful(cfg, run);
    assert PcFaithful(cfg, After(cfg, run), call, After(cfg, run).pcs[call]);
  }

  /** Hence, when the codec reads back what it wrote, all callers get the same value. */
  lemma AllCallersAgree(cfg: Config, run: seq<Event>, a: nat, b: nat, resultA: Json, resultB: Json)
    requires forall v :: cfg.dumps(v).Some? ==> cfg.loads(cfg.dumps(v).value) == Some(v)
    requires Undisputed(cfg, run)
    requires HandedOut(After(cfg, run), a, resultA) && HandedOut(After(cfg, run), b, resultB)
    ensures resultA == resultB
  {
    OneRecordedResult(cfg, run, a, resultA);
    OneRecordedResult(cfg, run, b, resultB);
  }
}
