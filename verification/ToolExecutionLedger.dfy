/**
 The ledger as the worker runs it: one table row and one result object, changed by conditional
 writes. Every method is proved to take exactly the steps of LedgerProtocol, while other calls
 may take theirs in between.
 */
module ToolExecutionLedger {
  import opened Common
  import opened JsonValues
  import opened LedgerRows
  import opened LedgerProtocol
  import opened LedgerSafety
  import opened LedgerReplay

  /** How a conditional write was answered. */
  datatype Reply = Done | Refused | FenceRefused | NoReply

  /** The outcome of reserve. */
  datatype Reserved = Won | HitCompleted(row: Row) | HitFailed | HeldElsewhere | Fenced | Broken

  datatype Waited = Terminal(row: Row) | TimedOut | ReadFailed

  /** `later` adds to `earlier` only events of calls other than `call`. */
  predicate OnlyOthers(earlier: seq<Event>, later: seq<Event>, call: nat) {
    earlier <= later && forall i :: |earlier| <= i < |later| ==> later[i].call != call
  }

  predicate Faulty(act: Action) {
    match act
    case Put(_, fault) => !fault.NoFault?
    case Read(_, fault) => !fault.NoFault?
    case Take(fault) => !fault.NoFault?
    case Offload(fault) => !fault.NoFault?
    case Settle(fault) => !fault.NoFault?
    case Poll(_, fault) => !fault.NoFault?
    case Fetch(fault) => !fault.NoFault?
    case _ => false
  }

  /** What may go wrong is a request, and nothing else. */
  lemma OnlyRequestsAreFaulty(f: Fault, holds: bool, i: nat, now: real, tool: ToolOutcome)
    ensures f == NoFault ==> !Faulty(Put(holds, f)) && !Faulty(Read(i, f)) && !Faulty(Take(f)) && !Faulty(Offload(f))
    ensures f == NoFault ==> !Faulty(Settle(f)) && !Faulty(Poll(i, f)) && !Faulty(Fetch(f))
    ensures f != NoFault ==> Faulty(Put(holds, f)) && Faulty(Read(i, f)) && Faulty(Take(f)) && Faulty(Offload(f))
    ensures f != NoFault ==> Faulty(Settle(f)) && Faulty(Poll(i, f)) && Faulty(Fetch(f))
    ensures !Faulty(Start(now)) && !Faulty(Run(tool)) && !Faulty(StopPolling) && !Faulty(Die)
  {
  }

  /** From position `from` on, every request of this call was answered. */
  ghost predicate Clean(events: seq<Event>, from: nat, call: nat) {
    forall i :: from <= i < |events| && events[i].call == call ==> !Faulty(events[i].act)
  }

  /** Request by request: an answered one, or another call's, keeps a stretch clean. */
  lemma CleanGrows(events: seq<Event>, e: Event, from: nat, call: nat)
    ensures Clean([], from, call)
    ensures Clean(events + [e], from, call)
      <==> Clean(events, from, call) && (from <= |events| && e.call == call ==> !Faulty(e.act))
  {
    var longer := events + [e];
    assert forall i :: 0 <= i < |events| ==> longer[i] == events[i];
    assert longer[|events|] == e;
  }

  /** From position `from` on, this call did not invoke its tool. */
  ghost predicate NeverRan(events: seq<Event>, from: nat, call: nat) {
    forall i :: from <= i < |events| && events[i].call == call ==> !events[i].act.Run?
  }

  /** What the winner of a reservation is to report when nothing gets lost. */
  function Expected(cfg: Config, tool: ToolOutcome): CallResult {
    match RunPc(cfg, tool)
    case Settling(verdict) => Outcome(verdict)
    case Offloading(v, _) => Success(v)
    case _ => LedgerError
  }

  /** What another call does never moves this call's program counter. */
  lemma {:induction false} OthersLeaveAlone(cfg: Config, earlier: seq<Event>, later: seq<Event>, call: nat)
    requires OnlyOthers(earlier, later, call)
    ensures call in After(cfg, earlier).pcs <==> call in After(cfg, later).pcs
    ensures call in After(cfg, earlier).pcs ==> After(cfg, later).pcs[call] == After(cfg, earlier).pcs[call]
    decreases |later|
  {
    if earlier != later {
      OthersLeaveAlone(cfg, earlier, later[..|later| - 1], call);
      StaleTakesGrow(cfg, After(cfg, later[..|later| - 1]), later[|later| - 1]);
    }
  }

  class Ledger {
    const cfg: Config
    var row: Option<Row>
    var past: seq<Option<Row>>
    var blob: Option<string>
    ghost var trace: seq<Event>

    ghost predicate Valid()
      reads this
    {
      var s := After(cfg, trace);
      row == s.row && past == s.history && blob == s.blob
    }

    /** `call` stands at `pc`. */
    ghost predicate Stands(call: nat, pc: Pc)
      reads this
    {
      var s := After(cfg, trace);
      call in s.pcs && s.pcs[call] == pc
    }

    ghost predicate Ended(call: nat, outcome: CallResult)
      reads this
    {
      Stands(call, Stopped(outcome, false)) || Stands(call, Stopped(outcome, true))
    }

    constructor (cfg: Config)
      ensures Valid() && this.cfg == cfg && trace == []
    {
      this.cfg := cfg;
      row, past, blob, trace := None, [None], None, [];
    }

    /** Other workers may act here, any number of times; a caller knows only what this contract says. */
    method Interleave(call: nat)
      requires Valid()
      modifies this
      ensures Valid() && OnlyOthers(old(trace), trace, call)
      ensures call in After(cfg, trace).pcs <==> call in After(cfg, old(trace)).pcs
      ensures call in After(cfg, trace).pcs ==> Stands(call, After(cfg, old(trace)).pcs[call])
    {
      OthersLeaveAlone(cfg, trace, trace, call);
    }

    /** The fresh reserve: a conditional put, with the generation fence in the same transaction. */
    method PutItem(call: nat, now: real, fenceHolds: bool, fault: Fault) returns (reply: Reply)
      requires Valid() && Stands(call, Reserving(now))
      modifies this
      ensures Valid() && trace == old(trace) + [Event(call, Put(fenceHolds, fault))]
      ensures reply.Done? ==> Stands(call, Holding)
      ensures reply.Refused? ==> Stands(call, Resolving(now))
      ensures reply.FenceRefused? ==> Stands(call, Stopped(StaleWorkerFenced, false))
      ensures reply.NoReply? ==> Ended(call, LedgerError)
      ensures reply.NoReply? ==> !fault.NoFault?
    {
      trace := trace + [Event(call, Put(fenceHolds, fault))];
      AfterStep(cfg, old(trace), Event(call, Put(fenceHolds, fault)));
      if fault.LostBefore? {
        return NoReply;
      }
      if fenceHolds && row.None? {
        row := Some(Row(InFlight, Trunc(now), Nothing));
        past := past + [row];
        return if fault.NoFault? then Done else NoReply;
      }
      if fault.LostAfter? {
        return NoReply;
      }
      return if fenceHolds then Refused else FenceRefused;
    }

    /** The conditional update that takes over a released row or a stale lease. */
    method TakeOver(call: nat, now: real, seen: Option<int>, fault: Fault) returns (reply: Reply)
      requires Valid()
      requires Stands(call, if seen.None? then TakingReleased(now) else TakingStale(now, seen.value))
      modifies this
      ensures Valid() && trace == old(trace) + [Event(call, Take(fault))]
      ensures reply.Done? ==> Stands(call, Holding)
      ensures reply.Refused? ==> Stands(call, Polling)
      ensures reply.NoReply? ==> Ended(call, LedgerError)
      ensures !reply.FenceRefused?
      ensures reply.NoReply? ==> !fault.NoFault?
    {
      hide After;
      trace := trace + [Event(call, Take(fault))];
      AfterStep(cfg, old(trace), Event(call, Take(fault)));
      if fault.LostBefore? {
        return NoReply;
      }
      if row.Some? && (if seen.None? then row.value.status == Released
                       else row.value.status == InFlight && row.value.createdAt == seen.value) {
        row := Some(row.value.(status := InFlight, createdAt := Trunc(now)));
        past := past + [row];
        return if fault.NoFault? then Done else NoReply;
      }
      return if fault.LostAfter? then NoReply else Refused;
    }

    /** get_item: an eventually consistent read may return any value the row has held. */
    method GetItem() returns (seen: Option<Row>, ghost index: nat)
      requires Valid()
      ensures index < |past| && seen == past[index]
    {
      AlwaysCounted(cfg, trace);
      var i :| 0 <= i < |past|;
      seen, index := past[i], i;
    }

    /** _resolve_existing: what a caller does that found the key taken. */
    method ResolveExisting(call: nat, now: real) returns (reserved: Reserved, ghost seen: Option<Row>)
      requires Valid() && Stands(call, Resolving(now))
      modifies this
      ensures Valid() && old(trace) <= trace && seen in old(past)
      ensures ReservedAt(call, reserved)
      // what was seen decides
      ensures reserved.Won? ==> seen.Some? && (seen.value.status == InFlight || seen.value.status == Released)
      ensures reserved.Won? && seen.value.status == InFlight ==> now - seen.value.createdAt as real > cfg.lease as real
      ensures reserved.HitCompleted? <==> !reserved.Broken? && seen.Some? && seen.value.status == Completed
      ensures reserved.HitCompleted? ==> reserved.row == seen.value
      ensures reserved.HitFailed? <==> !reserved.Broken? && seen.Some? && seen.value.status == Failed
      ensures seen.None? || (seen.value.status == InFlight && now - seen.value.createdAt as real <= cfg.lease as real) ==>
        (reserved.HeldElsewhere? || reserved.Broken?) && row == old(row) && past == old(past)
      ensures !reserved.Fenced?
      ensures (Clean(trace, |old(trace)|, call) ==> !reserved.Broken?) && NeverRan(trace, |old(trace)|, call)
    {
      hide After;
      var fault: Fault := *;
      var found, i := GetItem();
      seen := found;
      trace := trace + [Event(call, Read(i, fault))];
      assert trace[|trace| - 1] == Event(call, Read(i, fault));
      AfterStep(cfg, old(trace), Event(call, Read(i, fault)));
      if !fault.NoFault? {
        reserved := Broken;
        return;
      }
      if found.None? {
        reserved := HeldElsewhere;
        return;
      }
      match found.value.status {
        case Completed => reserved := HitCompleted(found.value);
        case Failed => reserved := HitFailed;
        case Released => reserved := Retake(call, now, None);
        case InFlight =>
          if now - found.value.createdAt as real > cfg.lease as real {
            reserved := Retake(call, now, Some(found.value.createdAt));
          } else {
            reserved := HeldElsewhere;
          }
      }
    }

    method Retake(call: nat, now: real, createdAt: Option<int>) returns (reserved: Reserved)
      requires Valid()
      requires Stands(call, if createdAt.None? then TakingReleased(now) else TakingStale(now, createdAt.value))
      modifies this
      ensures Valid() && old(trace) <= trace
      ensures ReservedAt(call, reserved) && (reserved.Won? || reserved.HeldElsewhere? || reserved.Broken?)
      ensures (Clean(trace, |old(trace)|, call) ==> !reserved.Broken?) && NeverRan(trace, |old(trace)|, call)
    {
      Interleave(call);
      var fault: Fault := *;
      var reply := TakeOver(call, now, createdAt, fault);
      assert trace[|trace| - 1] == Event(call, Take(fault));
      reserved := if reply.Done? then Won else if reply.Refused? then HeldElsewhere else Broken;
    }

    /** reserve, fenced or not: an unfenced call passes `fenceHolds` as true. */
    method Reserve(call: nat, now: real, fenceHolds: bool) returns (reserved: Reserved)
      requires Valid() && Stands(call, Reserving(now))
      modifies this
      ensures Valid() && old(trace) <= trace
      ensures ReservedAt(call, reserved)
      ensures (Clean(trace, |old(trace)|, call) ==> !reserved.Broken?) && NeverRan(trace, |old(trace)|, call)
    {
      hide After;
      Interleave(call);
      var fault: Fault := *;
      var reply := PutItem(call, now, fenceHolds, fault);
      assert trace[|trace| - 1] == Event(call, Put(fenceHolds, fault));
      match reply {
        case Done => return Won;
        case FenceRefused => return Fenced;
        case NoReply => return Broken;
        case Refused =>
          Interleave(call);
          ghost var seen;
          reserved, seen := ResolveExisting(call, now);
      }
    }

    /** The program counter that goes with an outcome of reserve. */
    ghost predicate ReservedAt(call: nat, reserved: Reserved)
      reads this
    {
      match reserved
      case Won => Stands(call, Holding)
      case HitCompleted(seen) => Stands(call, ReplayPc(cfg, seen))
      case HitFailed => Stands(call, Stopped(CallResult.RecordedToolFailure, false))
      case HeldElsewhere => Stands(call, Polling)
      case Fenced => Stands(call, Stopped(StaleWorkerFenced, false))
      case Broken => Ended(call, LedgerError)
    }

    /** finalize_success, finalize_failure and release: one update guarded by `in_flight`. */
    method SettleItem(call: nat, verdict: Verdict) returns (result: CallResult)
      requires Valid() && Stands(call, Settling(verdict))
      modifies this
      ensures Valid() && old(trace) <= trace
      ensures Ended(call, result) && (result == Outcome(verdict) || result.LedgerError?)
      ensures Clean(trace, |old(trace)|, call) ==> result == Outcome(verdict)
    {
      hide After;
      Interleave(call);
      var fault: Fault := *;
      ghost var before := trace;
      trace := trace + [Event(call, Settle(fault))];
      assert trace[|trace| - 1] == Event(call, Settle(fault));
      AfterStep(cfg, before, Event(call, Settle(fault)));
      if !fault.LostBefore? && row.Some? && row.value.status == InFlight {
        match verdict {
          case GiveBack => row := Some(row.value.(status := Released));
          case Fail(errorType, indeterminate, _) =>
            row := Some(row.value.(status := Failed, content := Failure(errorType, indeterminate)));
          case Succeed(_, content) => row := Some(row.value.(status := Completed, content := content));
        }
        past := past + [row];
      }
      return if fault.NoFault? then Outcome(verdict) else CallResult.LedgerError;
    }

    /** The offload of an oversized result, before the row is completed with a pointer to it. */
    method PutObject(call: nat, v: Json, text: string) returns (stored: bool)
      requires Valid() && Stands(call, Pc.Offloading(v, text))
      modifies this
      ensures Valid() && old(trace) <= trace
      ensures if stored then Stands(call, Settling(Succeed(v, Offloaded))) else Ended(call, LedgerError)
      ensures Clean(trace, |old(trace)|, call) ==> stored
    {
      hide After;
      Interleave(call);
      var fault: Fault := *;
      ghost var before := trace;
      trace := trace + [Event(call, Offload(fault))];
      assert trace[|trace| - 1] == Event(call, Offload(fault));
      AfterStep(cfg, before, Event(call, Offload(fault)));
      if !fault.LostBefore? {
        blob := Some(text);
      }
      return fault.NoFault?;
    }

    /** Invoke the tool under the reservation; what must happen next depends on how it ended. */
    method RunTool(call: nat, tool: ToolOutcome)
      requires Valid() && Stands(call, Holding)
      modifies this
      ensures Valid() && old(trace) <= trace && Stands(call, RunPc(cfg, tool))
      ensures trace != old(trace) && trace[|trace| - 1] == Event(call, Run(tool))
    {
      hide After;
      Interleave(call);
      ghost var before := trace;
      trace := trace + [Event(call, Run(tool))];
      AfterStep(cfg, before, Event(call, Run(tool)));
    }

    /** The winner: run the tool under the reservation, then settle. */
    method RunAndSettle(call: nat, tool: ToolOutcome) returns (result: CallResult)
      requires Valid() && Stands(call, Holding)
      modifies this
      ensures Valid() && old(trace) <= trace && Ended(call, result)
      ensures result.RetryableNoExecution? ==> SentNothing(tool)
      ensures !result.StaleWorkerFenced? && !result.Replayed?
      ensures Clean(trace, |old(trace)|, call) ==> result == Expected(cfg, tool)
      ensures exists i :: |old(trace)| <= i < |trace| && trace[i] == Event(call, Run(tool))
    {
      hide After;
      RunTool(call, tool);
      match tool {
        case NotSent(true, _) => result := SettleItem(call, GiveBack);
        case NotSent(false, e) => result := SettleItem(call, Fail(e, true, OutcomeIndeterminate));
        case Applied(e) => result := SettleItem(call, Fail(e, false, CallResult.RecordedToolFailure));
        case Unclear(e) => result := SettleItem(call, Fail(e, true, OutcomeIndeterminate));
        case ToolReturned(v) =>
          if IsErrorResult(v) {
            result := SettleItem(call, Fail("tool_error_result", false, ErrorResult(v)));
          } else {
            result := RecordResult(call, v);
          }
      }
    }

    method RecordResult(call: nat, v: Json) returns (result: CallResult)
      requires Valid() && !IsErrorResult(v) && Stands(call, RunPc(cfg, ToolReturned(v)))
      modifies this
      ensures Valid() && old(trace) <= trace && Ended(call, result)
      ensures result == Success(v) || result.LedgerError?
      ensures Clean(trace, |old(trace)|, call) ==> result == Expected(cfg, ToolReturned(v))
    {
      var text := cfg.dumps(v);
      if text.None? || (cfg.oversized(text.value) && !cfg.bucket) {
        return CallResult.LedgerError;
      }
      if !cfg.oversized(text.value) {
        result := SettleItem(call, Succeed(v, Inline(text.value)));
        return;
      }
      var stored := PutObject(call, v, text.value);
      if !stored {
        return CallResult.LedgerError;
      }
      result := SettleItem(call, Succeed(v, Offloaded));
    }

    /** _recorded_result: parse an inline result, fetch an offloaded one. */
    method RecordedResult(call: nat, seen: Row) returns (result: CallResult)
      requires Valid() && Stands(call, ReplayPc(cfg, seen))
      modifies this
      ensures Valid() && old(trace) <= trace && Ended(call, result)
      ensures result.Replayed? || result.LedgerError?
      ensures NeverRan(trace, |old(trace)|, call)
    {
      hide After, LoadsOrRaw, StepRead, StepTake, StepSettle, StepPut;
      match seen.content {
        case Inline(text) => return Replayed(LoadsOrRaw(cfg, text));
        case Offloaded =>
          Interleave(call);
          var fault: Fault := *;
          ghost var before := trace;
          trace := trace + [Event(call, Fetch(fault))];
          AfterStep(cfg, before, Event(call, Fetch(fault)));
          if fault.NoFault? && blob.Some? {
            var v := cfg.loads(blob.value);
            if v.Some? {
              return Replayed(v.value);
            }
          }
          return CallResult.LedgerError;
        case _ => return Replayed(Null);
      }
    }

    /**
     wait_for_terminal: poll until the row is settled or the clock passes the deadline.
     `clock` is what the clock will show: its first reading sets the deadline, a later one passes it.
     */
    method WaitForTerminal(call: nat, clock: seq<real>, timeout: real) returns (waited: Waited)
      requires Valid() && Stands(call, Polling)
      requires |clock| >= 2 && clock[|clock| - 1] >= clock[0] + timeout
      modifies this
      ensures Valid() && old(trace) <= trace
      ensures waited.Terminal? ==> Settled(Some(waited.row)) && Stands(call, ReadPc(cfg, Some(waited.row), 0.0))
      ensures waited.TimedOut? ==> Stands(call, Polling)
      ensures waited.ReadFailed? ==> Ended(call, LedgerError)
      ensures (Clean(trace, |old(trace)|, call) ==> !waited.ReadFailed?) && NeverRan(trace, |old(trace)|, call)
    {
      hide After;
      var deadline := clock[0] + timeout;
      var i := 1;
      while true
        invariant Valid() && old(trace) <= trace && Stands(call, Polling) && NeverRan(trace, |old(trace)|, call)
        invariant 1 <= i < |clock|
        decreases |clock| - i
      {
        Interleave(call);
        var fault: Fault := *;
        ghost var k: nat;
        var seen;
        seen, k := GetItem();
        ghost var before := trace;
        trace := trace + [Event(call, Poll(k, fault))];
        assert trace[|before|] == Event(call, Poll(k, fault));
        AfterStep(cfg, before, Event(call, Poll(k, fault)));
        if !fault.NoFault? {
          return ReadFailed;
        }
        if seen.Some? && (seen.value.status == Completed || seen.value.status == Failed) {
          return Terminal(seen.value);
        }
        if clock[i] >= deadline {
          return TimedOut;
        }
        i := i + 1;
      }
    }

    /** A caller that found a live holder: wait, replay what settled, and never execute. */
    method WaitAndReplay(call: nat, clock: seq<real>, timeout: real) returns (result: CallResult)
      requires Valid() && Stands(call, Polling)
      requires |clock| >= 2 && clock[|clock| - 1] >= clock[0] + timeout
      modifies this
      ensures Valid() && old(trace) <= trace && Ended(call, result)
      ensures result.Replayed? || result.RecordedToolFailure? || result.RetryableNoExecution? || result.LedgerError?
      ensures NeverRan(trace, |old(trace)|, call)
    {
      hide After;
      var waited := WaitForTerminal(call, clock, timeout);
      if waited.ReadFailed? {
        return CallResult.LedgerError;
      }
      if waited.Terminal? && waited.row.status == Completed {
        result := RecordedResult(call, waited.row);
        return;
      }
      if waited.Terminal? {
        return CallResult.RecordedToolFailure;
      }
      ghost var before := trace;
      trace := trace + [Event(call, StopPolling)];
      AfterStep(cfg, before, Event(call, StopPolling));
      return RetryableNoExecution;
    }

    /**
     execute_idempotent. Whatever the other calls do in between, this call takes the steps of the
     protocol and ends as the protocol says; so its result obeys every theorem about runs.
     `ran` tells whether the tool was invoked.
     */
    method ExecuteIdempotent(call: nat, now: real, fenceHolds: bool, tool: ToolOutcome, clock: seq<real>, timeout: real)
      returns (result: CallResult, ran: bool)
      requires Valid() && call !in After(cfg, trace).pcs
      requires |clock| >= 2 && clock[|clock| - 1] >= clock[0] + timeout
      modifies this
      ensures Valid() && old(trace) <= trace && Ended(call, result)
      ensures result.RetryableNoExecution? ==> !ran || SentNothing(tool)
      ensures result.StaleWorkerFenced? || result.Replayed? ==> !ran
      ensures After(cfg, trace).tally.effects <= 1 + After(cfg, trace).tally.staleTakes
      ensures (Undisputed(cfg, trace) && result.Success?) ==>
        Recorded(After(cfg, trace)).Some? && cfg.dumps(result.result) == Recorded(After(cfg, trace))
      ensures (Undisputed(cfg, trace) && result.Replayed?) ==>
        Recorded(After(cfg, trace)).Some? && result.result == LoadsOrRaw(cfg, Recorded(After(cfg, trace)).value)
      ensures ran <==> exists i :: |old(trace)| <= i < |trace| && trace[i] == Event(call, Run(tool))
      ensures ran && Clean(trace, |old(trace)|, call) ==> result == Expected(cfg, tool)
    {
      hide After, Undisputed;
      trace := trace + [Event(call, Start(now))];
      AfterStep(cfg, old(trace), Event(call, Start(now)));
      var reserved := Reserve(call, now, fenceHolds);
      ran := reserved.Won?;
      match reserved {
        case Won => result := RunAndSettle(call, tool);
        case HitCompleted(seen) => result := RecordedResult(call, seen);
        case HitFailed => result := CallResult.RecordedToolFailure;
        case HeldElsewhere => result := WaitAndReplay(call, clock, timeout);
        case Fenced => result := StaleWorkerFenced;
        case Broken => result := CallResult.LedgerError;
      }
      EffectsBounded(cfg, trace);
      if Undisputed(cfg, trace) && (result.Success? || result.Replayed?) {
        OneRecordedResult(cfg, trace, call, result.result);
      }
    }
  }
}
