/** The indexes the engine is built around, as functions of the lists it is constructed from. */
module GovernanceIndexes {
  import opened Common
  import opened GovernanceModels
  import opened GovernancePolicy
  import opened Sequences

  /** dict.get(agent, []). */
  function Bucket(index: map<string, seq<Unit>>, agent: string): seq<Unit> {
    if agent in index then index[agent] else []
  }

  /** The contract that the pair index ends up holding. */
  function Latest(contracts: seq<Contract>, a: string, b: string): (r: Option<Contract>)
    ensures r.None? ==> forall i: nat :: !LastFor(contracts, a, b, i)
    ensures r.Some? ==> exists i: nat :: LastFor(contracts, a, b, i) && contracts[i] == r.value
  {
    if contracts == [] then None
    else
      var n := |contracts| - 1;
      if Joins(contracts[n], a, b) then
        assert LastFor(contracts, a, b, n);
        Some(contracts[n])
      else
        var r := Latest(contracts[..n], a, b);
        assert forall i: nat :: LastFor(contracts, a, b, i) <==> LastFor(contracts[..n], a, b, i) by {
          LastForPrefix(contracts, a, b);
        }
        r
  }

  lemma LastForPrefix(contracts: seq<Contract>, a: string, b: string)
    requires contracts != [] && !Joins(contracts[|contracts| - 1], a, b)
    ensures forall i: nat :: LastFor(contracts, a, b, i) <==> LastFor(contracts[..|contracts| - 1], a, b, i)
  {
    var before := contracts[..|contracts| - 1];
    forall i: nat ensures LastFor(contracts, a, b, i) <==> LastFor(before, a, b, i) {
      if i < |before| {
        assert before[i] == contracts[i];
        assert forall j :: i < j < |before| ==> before[j] == contracts[j];
        assert forall j :: i < j < |contracts| ==> j < |before| || contracts[j] == contracts[|contracts| - 1];
        assert LastFor(before, a, b, i) ==> LastFor(contracts, a, b, i);
        if LastFor(contracts, a, b, i) {
          forall j | i < j < |before| ensures !Joins(before[j], a, b) { assert before[j] == contracts[j]; }
        }
      }
    }
  }

  // ---- Case law: sorted by precedence, ties in insertion order

  ghost predicate Descending(cases: seq<CaseLaw>) {
    forall i, j :: 0 <= i < j < |cases| ==> cases[i].precedence >= cases[j].precedence
  }

  /** Puts `c` behind everything of at least its precedence. */
  function Insert(cases: seq<CaseLaw>, c: CaseLaw): seq<CaseLaw> {
    if cases == [] then [c]
    else if cases[0].precedence < c.precedence then [c] + cases
    else [cases[0]] + Insert(cases[1..], c)
  }

  function ByPrecedence(cases: seq<CaseLaw>): seq<CaseLaw> {
    if cases == [] then [] else Insert(ByPrecedence(cases[..|cases| - 1]), cases[|cases| - 1])
  }

  lemma {:induction false} InsertPermutes(cases: seq<CaseLaw>, c: CaseLaw)
    ensures multiset(Insert(cases, c)) == multiset(cases) + multiset{c}
  {
    if cases != [] && cases[0].precedence >= c.precedence {
      InsertPermutes(cases[1..], c);
      assert cases == [cases[0]] + cases[1..];
    }
  }

  lemma {:induction false} InsertSorts(cases: seq<CaseLaw>, c: CaseLaw)
    requires Descending(cases)
    ensures Descending(Insert(cases, c))
  {
    if cases != [] && cases[0].precedence >= c.precedence {
      var rest := Insert(cases[1..], c);
      InsertSorts(cases[1..], c);
      InsertPermutes(cases[1..], c);
      forall k | 0 <= k < |rest| ensures rest[k].precedence <= cases[0].precedence {
        assert rest[k] in multiset(rest);
        assert rest[k] == c || rest[k] in cases[1..];
      }
    }
  }

  /** The list is sorted by falling precedence and holds the same entries. */
  lemma {:induction false} ByPrecedenceSorts(cases: seq<CaseLaw>)
    ensures Descending(ByPrecedence(cases)) && multiset(ByPrecedence(cases)) == multiset(cases)
  {
    if cases != [] {
      var before, last := cases[..|cases| - 1], cases[|cases| - 1];
      ByPrecedenceSorts(before);
      InsertSorts(ByPrecedence(before), last);
      InsertPermutes(ByPrecedence(before), last);
      assert cases == before + [last];
    }
  }

  function FirstMatch(cases: seq<CaseLaw>, request: Request): (r: Option<CaseLaw>)
    ensures r.None? <==> forall c :: c in cases ==> !Matches(request, c)
    ensures r.Some? ==> r.value in cases && Matches(request, r.value)
  {
    if cases == [] then None
    else if Matches(request, cases[0]) then Some(cases[0])
    else FirstMatch(cases[1..], request)
  }

  lemma {:induction false} FirstMatchAfterInsert(cases: seq<CaseLaw>, c: CaseLaw, request: Request)
    requires Descending(cases)
    ensures var first := FirstMatch(cases, request);
            var wins := Matches(request, c) && (first.None? || first.value.precedence < c.precedence);
            FirstMatch(Insert(cases, c), request) == if wins then Some(c) else first
  {
    if cases == [] {
      assert FirstMatch([c], request) == if Matches(request, c) then Some(c) else FirstMatch([], request);
    } else if cases[0].precedence < c.precedence {
      assert ([c] + cases)[1..] == cases;
    } else {
      FirstMatchAfterInsert(cases[1..], c, request);
      assert ([cases[0]] + Insert(cases[1..], c))[1..] == Insert(cases[1..], c);
    }
  }

  lemma NoneGoverns(cases: seq<CaseLaw>, request: Request)
    requires FirstMatch(ByPrecedence(cases), request).None?
    ensures forall i: nat :: i < |cases| ==> !Matches(request, cases[i])
  {
    ByPrecedenceSorts(cases);
    forall i: nat | i < |cases| ensures !Matches(request, cases[i]) {
      assert cases[i] in multiset(cases);
      assert cases[i] in ByPrecedence(cases);
    }
  }

  /** Which entry governs after one more is listed. */
  lemma GovernsNext(cases: seq<CaseLaw>, request: Request, i: nat)
    requires cases != []
    requires var n := |cases| - 1;
             if i < n then
               Governs(cases[..n], request, i) && !(Matches(request, cases[n]) && cases[i].precedence < cases[n].precedence)
             else
               && i == n && Matches(request, cases[n])
               && forall j :: 0 <= j < n && Matches(request, cases[j]) ==> cases[j].precedence < cases[n].precedence
    ensures Governs(cases, request, i)
  {
    var n := |cases| - 1;
    forall j | 0 <= j < |cases| && Matches(request, cases[j])
      ensures cases[j].precedence < cases[i].precedence || (cases[j].precedence == cases[i].precedence && i <= j)
    {
      if j < n { assert cases[..n][j] == cases[j]; }
    }
  }

  /** `found` is the governing entry, or nothing if none matches. */
  ghost predicate IsGoverning(cases: seq<CaseLaw>, request: Request, found: Option<CaseLaw>) {
    if found.None? then forall i: nat :: !Governs(cases, request, i)
    else exists i: nat :: Governs(cases, request, i) && cases[i] == found.value
  }

  lemma FoundNext(cases: seq<CaseLaw>, request: Request, was: Option<CaseLaw>)
    requires cases != [] && IsGoverning(cases[..|cases| - 1], request, was)
    requires was.None? ==> forall i: nat :: i < |cases| - 1 ==> !Matches(request, cases[i])
    requires Matches(request, cases[|cases| - 1]) || was.Some?
    ensures var last := cases[|cases| - 1];
            var wins := Matches(request, last) && (was.None? || was.value.precedence < last.precedence);
            IsGoverning(cases, request, if wins then Some(last) else was)
  {
    hide Matches;
    var n := |cases| - 1;
    if was.None? {
      GovernsNext(cases, request, n);
    } else {
      var i: nat :| Governs(cases[..n], request, i) && cases[..n][i] == was.value;
      assert forall j :: 0 <= j < n ==> cases[..n][j] == cases[j];
      GovernsNext(cases, request, if Matches(request, cases[n]) && was.value.precedence < cases[n].precedence then n else i);
    }
  }

  /** Stopping at the first hit of the sorted list finds the governing entry of the list as given. */
  lemma {:induction false} FirstMatchGoverns(cases: seq<CaseLaw>, request: Request)
    ensures IsGoverning(cases, request, FirstMatch(ByPrecedence(cases), request))
  {
    var first := FirstMatch(ByPrecedence(cases), request);
    if first.None? {
      NoneGoverns(cases, request);
    } else {
      hide IsGoverning, Matches;
      var n := |cases| - 1;
      var before := cases[..n];
      FirstMatchGoverns(before, request);
      ByPrecedenceSorts(before);
      FirstMatchAfterInsert(ByPrecedence(before), cases[n], request);
      if FirstMatch(ByPrecedence(before), request).None? { NoneStillGoverns(cases, request); }
      FoundNext(cases, request, FirstMatch(ByPrecedence(before), request));
    }
  }

  lemma NoneStillGoverns(cases: seq<CaseLaw>, request: Request)
    requires cases != [] && FirstMatch(ByPrecedence(cases[..|cases| - 1]), request).None?
    ensures forall i: nat :: i < |cases| - 1 ==> !Matches(request, cases[i])
  {
    NoneGoverns(cases[..|cases| - 1], request);
    forall i: nat | i < |cases| - 1 ensures !Matches(request, cases[i]) {
      assert cases[..|cases| - 1][i] == cases[i];
    }
  }

  // ---- Filtering and selection

  /** min over (-specificity, unit_id): the first of the tightest. */
  function SelectTightest(units: seq<Unit>): (best: Unit)
    requires units != []
    ensures Leading(best, units)
  {
    LexTotal(units[0].unitId, units[0].unitId);
    if |units| == 1 then units[0]
    else
      var rest := SelectTightest(units[1..]);
      assert units == [units[0]] + units[1..];
      LexTotal(units[0].unitId, rest.unitId);
      if Tighter(rest, units[0]) then
        LeadsLonger(units, rest);
        rest
      else
        assert forall u :: u in units[1..] ==> !Tighter(u, units[0]) by {
          forall u | u in units[1..] ensures !Tighter(u, units[0]) { TighterTransitive(units[0], rest, u); }
        }
        units[0]
  }

  lemma LeadsLonger(units: seq<Unit>, best: Unit)
    requires units != [] && Leading(best, units[1..]) && Tighter(best, units[0])
    ensures Leading(best, units)
  {
    LexTotal(units[0].unitId, best.unitId);
    var i :| 0 <= i < |units[1..]| && units[1..][i] == best && forall j :: 0 <= j < i ==> Tighter(best, units[1..][j]);
    assert units[i + 1] == best;
    forall j | 0 <= j < i + 1 ensures Tighter(best, units[j]) {
      if j > 0 { assert units[j] == units[1..][j - 1]; }
    }
    assert units == [units[0]] + units[1..];
  }
}

/** The deterministic decision pipeline. */
module GovernanceEngine {
  import opened Common
  import opened GovernanceModels
  import opened GovernancePolicy
  import opened Sequences
  import opened GovernanceIndexes

  datatype Pattern = DeferredAuthority | UnilateralSovereignty | RivalrousClaim

  datatype Reason =
    | FromCaseLaw(caseId: string)
    | NoScopeCoversAction
    | ScopeMatch(unitId: string)
    | UnconfirmedState(pattern: Pattern)
    | BothPermit
    | HaltedConflict
    | SovereignDecides(sovereign: string)
    | NoPrecedenceWinner
    | Attenuated(winner: string, loser: string)
    | InvariantViolated(layerId: string, field: string)

  datatype Finding = Finding(
    workflowId: string, decision: Decision, requestingAgent: string, targetAgent: string, reason: Reason,
    scopeEvaluated: Option<string> := None, contractEvaluated: Option<string> := None,
    escalationTarget: Option<string> := None, residualDenial: bool := false)

  /** A finding, or the TypeError of comparing values that Python cannot order. */
  datatype Outcome = Found(finding: Finding) | Raised

  // ---- The arbitration patterns

  /** HALT_AND_ESCALATE. */
  function Deferred(request: Request, c: Contract, best: Unit, requesterPermits: bool, targetPermits: bool, confirmed: bool): Finding {
    if !confirmed then
      Finding(request.workflowId, Deny, request.requestingAgentId, request.targetAgentId, UnconfirmedState(DeferredAuthority),
              Some(best.unitId), Some(c.contractId))
    else if requesterPermits && targetPermits then
      Finding(request.workflowId, Permit, request.requestingAgentId, request.targetAgentId, BothPermit,
              Some(best.unitId), Some(c.contractId))
    else
      Finding(request.workflowId, Escalate, request.requestingAgentId, request.targetAgentId, HaltedConflict,
              Some(best.unitId), Some(c.contractId), c.escalationPath)
  }

  /** DEFAULT_DENY. */
  function Unilateral(request: Request, c: Contract, best: Unit, targetUnits: seq<Unit>,
                      requesterPermits: bool, targetPermits: bool, confirmed: bool): Finding
  {
    if !confirmed then
      Finding(request.workflowId, Deny, request.requestingAgentId, request.targetAgentId, UnconfirmedState(UnilateralSovereignty),
              Some(best.unitId), Some(c.contractId))
    else
      var sovereign := c.precedence;
      var (decision, scope) :=
        if sovereign == request.requestingAgentId then (if requesterPermits then Permit else Deny, Some(best.unitId))
        else if sovereign == request.targetAgentId then
          (if targetPermits then Permit else Deny, if targetUnits != [] then Some(targetUnits[0].unitId) else None)
        else (Deny, Some(best.unitId));
      Finding(request.workflowId, decision, request.requestingAgentId, request.targetAgentId, SovereignDecides(sovereign),
              scope, Some(c.contractId))
  }

  /** PRECEDENCE_RESOLUTION. */
  function Rivalrous(request: Request, c: Contract, best: Unit, targetUnits: seq<Unit>,
                     requesterPermits: bool, targetPermits: bool, confirmed: bool): Finding
  {
    if !confirmed then
      Finding(request.workflowId, Deny, request.requestingAgentId, request.targetAgentId, UnconfirmedState(RivalrousClaim),
              Some(best.unitId), Some(c.contractId))
    else if c.precedence == request.requestingAgentId then
      Finding(request.workflowId, if requesterPermits then Permit else Deny, request.requestingAgentId, request.targetAgentId,
              Attenuated(c.precedence, request.targetAgentId), Some(best.unitId), Some(c.contractId))
    else if c.precedence == request.targetAgentId then
      Finding(request.workflowId, if targetPermits then Permit else Deny, request.requestingAgentId, request.targetAgentId,
              Attenuated(c.precedence, request.requestingAgentId),
              if targetUnits != [] then Some(targetUnits[0].unitId) else None, Some(c.contractId))
    else
      Finding(request.workflowId, Deny, request.requestingAgentId, request.targetAgentId, NoPrecedenceWinner,
              Some(best.unitId), Some(c.contractId))
  }

  /** What every pattern puts on its finding. */
  predicate SpeaksFor(request: Request, c: Contract, best: Unit, targetUnits: seq<Unit>, f: Finding) {
    && f.workflowId == request.workflowId && f.requestingAgent == request.requestingAgentId && f.targetAgent == request.targetAgentId
    && !f.residualDenial && !f.reason.NoScopeCoversAction? && !f.reason.FromCaseLaw? && !f.reason.ScopeMatch?
    && !f.reason.InvariantViolated?
    && f.contractEvaluated == Some(c.contractId)
    && (f.scopeEvaluated == Some(best.unitId) || f.scopeEvaluated == if targetUnits == [] then None else Some(targetUnits[0].unitId))
    && (f.escalationTarget.None? || (f.decision == Escalate && f.escalationTarget == c.escalationPath))
  }

  /** The pattern is chosen by the contract's conflict resolution. */
  function Dispatch(request: Request, c: Contract, best: Unit, targetUnits: seq<Unit>,
                    requesterPermits: bool, targetPermits: bool, confirmed: bool): Finding
  {
    match c.resolution
    case HaltAndEscalate => Deferred(request, c, best, requesterPermits, targetPermits, confirmed)
    case DefaultDeny => Unilateral(request, c, best, targetUnits, requesterPermits, targetPermits, confirmed)
    case PrecedenceResolution => Rivalrous(request, c, best, targetUnits, requesterPermits, targetPermits, confirmed)
  }

  /** For a covered requester the four patterns come down to one decision table. */
  lemma DispatchArbitrates(request: Request, c: Contract, best: Unit, targetUnits: seq<Unit>,
                           requesterPermits: bool, targetPermits: bool, confirmed: bool)
    ensures SpeaksFor(request, c, best, targetUnits, Dispatch(request, c, best, targetUnits, requesterPermits, targetPermits, confirmed))
    ensures requesterPermits ==> (
      Dispatch(request, c, best, targetUnits, requesterPermits, targetPermits, confirmed).decision
        == Arbitrated(request, c, confirmed, targetPermits))
  {
  }

  // ---- What a finding may say

  /** The finding names the request it is about and cites what it rests on. */
  ghost predicate Attributed(units: set<Unit>, contracts: seq<Contract>, cases: seq<CaseLaw>, request: Request, now: real, f: Finding) {
    && f.workflowId == request.workflowId && f.requestingAgent == request.requestingAgentId && f.targetAgent == request.targetAgentId
    && (f.residualDenial <==> f.reason.NoScopeCoversAction?)
    && (f.residualDenial ==> f.decision == Deny && Covering(units, request, now) == {})
    && (f.reason.InvariantViolated? ==> f.decision == Deny)
    && (!f.reason.InvariantViolated? && !f.reason.FromCaseLaw? ==>
          (Covering(units, request, now) == {} ==> f.residualDenial) && forall i: nat :: !Governs(cases, request, i))
    && (f.reason.FromCaseLaw? ==>
          exists i: nat :: Governs(cases, request, i) && cases[i].caseId == f.reason.caseId && cases[i].resolution == f.decision)
    && (f.reason.ScopeMatch? ==> (
          && f.decision == Permit && f.scopeEvaluated == Some(f.reason.unitId) && f.contractEvaluated.None?
          && exists u :: Tightest(u, Covering(units, request, now)) && u.unitId == f.reason.unitId))
    && (f.scopeEvaluated.Some? ==> exists u :: u in units && u.unitId == f.scopeEvaluated.value && InForce(u, now) && Covers(u.scope, request))
    && (f.contractEvaluated.Some? ==> exists i: nat ::
          LastFor(contracts, request.requestingAgentId, request.targetAgentId, i) && contracts[i].contractId == f.contractEvaluated.value
          && (f.escalationTarget.Some? ==> f.decision == Escalate && f.escalationTarget == contracts[i].escalationPath))
    && (f.contractEvaluated.None? ==> f.escalationTarget.None?)
  }

  lemma ComposedByThePair(units: seq<Unit>, contracts: seq<Contract>, request: Request, now: real, best: Unit, j: nat, d: Decision)
    requires LastFor(contracts, request.requestingAgentId, request.targetAgentId, j)
    requires d == Arbitrated(request, contracts[j], StateConfirmed(request, best, contracts[j]), TargetPermits(Elements(units), request, now))
    ensures ComposedAs(units, contracts, request, now, best, d)
  {
  }

  lemma ComposedIsAttributed(units: set<Unit>, contracts: seq<Contract>, cases: seq<CaseLaw>, request: Request, now: real,
                             j: nat, best: Unit, targetUnits: seq<Unit>, f: Finding)
    requires LastFor(contracts, request.requestingAgentId, request.targetAgentId, j)
    requires SpeaksFor(request, contracts[j], best, targetUnits, f)
    requires best in Covering(units, request, now) && forall i: nat :: !Governs(cases, request, i)
    requires forall u :: u in targetUnits ==> u in units && InForce(u, now) && Covers(u.scope, request)
    ensures Attributed(units, contracts, cases, request, now, f)
  {
    if f.scopeEvaluated.Some? && f.scopeEvaluated != Some(best.unitId) {
      assert targetUnits[0] in targetUnits;
    }
  }

  /** Rule `j` of layer `i` is the first, in order, that does not pass. */
  ghost predicate FirstObjection(request: Request, layers: seq<Layer>, i: nat, j: nat) {
    && i < |layers| && j < |layers[i].rules|
    && !Check(request, layers[i].rules[j]).Satisfied?
    && Constitutional(request, layers[..i])
    && (forall k :: 0 <= k < j ==> Check(request, layers[i].rules[k]).Satisfied?)
  }

  /** The outcome of an evaluation in which the stages before the review settled on `d`. */
  ghost predicate Reviewed(request: Request, layers: seq<Layer>, d: Decision, o: Outcome) {
    if d != Permit || Constitutional(request, layers)
    then o.Found? && o.finding.decision == d && !o.finding.reason.InvariantViolated?
    else exists i: nat, j: nat :: FirstObjection(request, layers, i, j) && Overridden(request, layers[i], j, o)
  }

  /** What a rule that does not pass makes of a permit. */
  ghost predicate Overridden(request: Request, layer: Layer, j: nat, o: Outcome)
    requires j < |layer.rules|
  {
    if Check(request, layer.rules[j]).Faulty? then o.Raised?
    else o.Found? && o.finding.decision == Deny && o.finding.reason == InvariantViolated(layer.layerId, layer.rules[j].field)
  }

  /** What the whole pipeline may answer. */
  ghost predicate Decided(units: seq<Unit>, contracts: seq<Contract>, cases: seq<CaseLaw>, layers: seq<Layer>,
                          request: Request, now: real, o: Outcome)
  {
    exists d :: Proposes(units, contracts, cases, request, now, d) && Reviewed(request, layers, d, o)
  }

  // ---- The engine

  class Engine {
    var agentUnits: map<string, seq<Unit>>
    var contracts: map<(string, string), Contract>
    var caseLaw: seq<CaseLaw>
    var layers: seq<Layer>
    ghost const givenUnits: seq<Unit>
    ghost const givenContracts: seq<Contract>
    ghost const givenCases: seq<CaseLaw>

    /** Every index answers as a scan of the list it was built from would. */
    ghost predicate Valid()
      reads this
    {
      && (forall a :: Bucket(agentUnits, a) == OfAgent(givenUnits, a))
      && (forall a, b :: ContractOf(a, b) == Latest(givenContracts, a, b))
      && caseLaw == ByPrecedence(givenCases)
    }

    ghost function Units(): set<Unit> {
      Elements(givenUnits)
    }

    /** self.contracts.get((a, b)). */
    function ContractOf(a: string, b: string): Option<Contract>
      reads this
    {
      if (a, b) in contracts then Some(contracts[(a, b)]) else None
    }

    constructor (units: seq<Unit>, listed: seq<Contract>, cases: seq<CaseLaw>, constitution: seq<Layer>)
      ensures Valid() && givenUnits == units && givenContracts == listed && givenCases == cases && layers == constitution
    {
      agentUnits, contracts := map[], map[];
      caseLaw := ByPrecedence(cases);
      layers := constitution;
      givenUnits, givenContracts, givenCases := units, listed, cases;
      new;
      hide ByPrecedence;
      for i := 0 to |units|
        invariant forall a :: Bucket(agentUnits, a) == OfAgent(units[..i], a)
        invariant contracts == map[] && caseLaw == ByPrecedence(cases) && layers == constitution
      {
        var u := units[i];
        agentUnits := agentUnits[u.agentId := Bucket(agentUnits, u.agentId) + [u]];
        assert units[..i + 1][..i] == units[..i] && units[..i + 1][i] == u;
      }
      assert units[..|units|] == units;
      ghost var indexed := agentUnits;
      for i := 0 to |listed|
        invariant forall a, b :: ContractOf(a, b) == Latest(listed[..i], a, b)
        invariant agentUnits == indexed && caseLaw == ByPrecedence(cases) && layers == constitution
      {
        var c := listed[i];
        contracts := contracts[(c.partyA, c.partyB) := c];
        contracts := contracts[(c.partyB, c.partyA) := c];
        assert listed[..i + 1][..i] == listed[..i] && listed[..i + 1][i] == c;
      }
      assert listed[..|listed|] == listed;
    }

    // ---- Lookups

    function FindCoveringUnits(request: Request, now: real): (r: seq<Unit>)
      requires Valid()
      reads this
      ensures r == CoveringInOrder(givenUnits, request, now) && Elements(r) == Covering(Units(), request, now)
    {
      InForceCovering(Bucket(agentUnits, request.requestingAgentId) + Bucket(agentUnits, "*"), request, now)
    }

    function TargetUnits(request: Request, now: real): (r: seq<Unit>)
      requires Valid()
      reads this
      ensures r != [] <==> TargetPermits(Units(), request, now)
      ensures forall u :: u in r ==> u in Units() && InForce(u, now) && Covers(u.scope, request)
    {
      var r := InForceCovering(Bucket(agentUnits, request.targetAgentId), request, now);
      assert r != [] ==> r[0] in r;
      r
    }

    /** An agent's domain: that of its tightest covering unit with a domain of its own. */
    function GetAgentDomain(agent: string, request: Request, now: real): Option<string>
      reads this
    {
      var valid := OwnDomain(InForceCovering(Bucket(agentUnits, agent), request, now));
      if valid == [] then None else Some(SelectTightest(valid).scope.domain)
    }

    static function OwnDomain(units: seq<Unit>): (r: seq<Unit>)
      ensures forall u :: u in r <==> u in units && u.scope.domain != "*"
    {
      if units == [] then []
      else
        var rest := OwnDomain(units[1..]);
        assert units == [units[0]] + units[1..];
        if units[0].scope.domain != "*" then [units[0]] + rest else rest
    }

    function DomainPairContract(a: Option<string>, b: Option<string>): Option<Contract>
      reads this
    {
      if a.Some? && b.Some? && a.value != b.value then ContractOf(a.value, b.value) else None
    }

    /** The contract of the pair of agents, or else that of their two domains. */
    function FindContract(request: Request, now: real): Option<Contract>
      reads this
    {
      var c := ContractOf(request.requestingAgentId, request.targetAgentId);
      if c.Some? then c
      else
        DomainPairContract(GetAgentDomain(request.requestingAgentId, request, now),
                           GetAgentDomain(request.targetAgentId, request, now))
    }

    /**
     A covering unit with a domain of its own has the request's domain, so two agents' domains never
     differ and the domain-pair lookup never finds a contract: only the pair of agents counts.
     */
    lemma OnlyThePairCounts(request: Request, now: real)
      requires Valid()
      ensures FindContract(request, now) == Latest(givenContracts, request.requestingAgentId, request.targetAgentId)
    {
      DomainIsTheRequests(request.requestingAgentId, request, now);
      DomainIsTheRequests(request.targetAgentId, request, now);
    }

    lemma DomainIsTheRequests(agent: string, request: Request, now: real)
      ensures var d := GetAgentDomain(agent, request, now); d.None? || d.value == request.domain
    {
      var valid := OwnDomain(InForceCovering(Bucket(agentUnits, agent), request, now));
      if valid != [] {
        assert SelectTightest(valid) in Elements(valid);
      }
    }

    method CheckCaseLaw(request: Request) returns (r: Option<CaseLaw>)
      requires Valid()
      ensures r.None? ==> forall i: nat :: !Governs(givenCases, request, i)
      ensures r.Some? ==> exists i: nat :: Governs(givenCases, request, i) && givenCases[i] == r.value
    {
      FirstMatchGoverns(givenCases, request);
      for i := 0 to |caseLaw|
        invariant FirstMatch(caseLaw, request) == FirstMatch(caseLaw[i..], request)
      {
        if Matches(request, caseLaw[i]) {
          return Some(caseLaw[i]);
        }
      }
      r := None;
    }

    method IsStateConfirmed(request: Request, u: Unit, c: Contract) returns (confirmed: bool)
      ensures confirmed == StateConfirmed(request, u, c)
    {
      var prefix := "unconfirmed_";
      var unconfirmed := set k | k in request.context && prefix <= k;
      assert forall k :: prefix + k in request.context ==> prefix + k in unconfirmed;
      if unconfirmed == {} {
        return true;
      }
      var relevant: set<string> := {};
      relevant := relevant + u.scope.conditions.Keys;
      relevant := relevant + u.scope.limits.Keys;
      relevant := relevant + c.scope.conditions.Keys;
      relevant := relevant + c.scope.limits.Keys;
      var base := set k | k in unconfirmed :: k[|prefix|..];
      forall k ensures k in base <==> prefix + k in request.context {
        if prefix + k in request.context {
          assert (prefix + k)[|prefix|..] == k;
        }
        if k in base {
          var long :| long in unconfirmed && long[|prefix|..] == k;
          assert long == prefix + k;
        }
      }
      confirmed := base * relevant == {};
      if confirmed {
        forall k | k in relevant ensures prefix + k !in request.context { assert k !in base * relevant; }
      } else {
        var k :| k in base * relevant;
        assert prefix + k in request.context;
      }
    }

    // ---- Composition and review

    method EvaluateComposition(request: Request, best: Unit, now: real) returns (r: Option<Finding>)
      requires Valid()
      requires Leading(best, CoveringInOrder(givenUnits, request, now))
      requires forall i: nat :: !Governs(givenCases, request, i)
      ensures r.None? ==> forall j: nat :: !LastFor(givenContracts, request.requestingAgentId, request.targetAgentId, j)
      ensures r.Some? ==> (
        && (exists j: nat :: LastFor(givenContracts, request.requestingAgentId, request.targetAgentId, j))
        && ComposedAs(givenUnits, givenContracts, request, now, best, r.value.decision) && !r.value.reason.InvariantViolated?
        && Attributed(Units(), givenContracts, givenCases, request, now, r.value))
    {
      var found := FindContract(request, now);
      OnlyThePairCounts(request, now);
      if found.None? {
        return None;
      }
      var c := found.value;
      ghost var j: nat :| LastFor(givenContracts, request.requestingAgentId, request.targetAgentId, j) && givenContracts[j] == c;
      var targetUnits := TargetUnits(request, now);
      var requesterPermits := |FindCoveringUnits(request, now)| > 0;
      assert best in Elements(FindCoveringUnits(request, now));
      var targetPermits := |targetUnits| > 0;
      var confirmed := IsStateConfirmed(request, best, c);
      var f := Dispatch(request, c, best, targetUnits, requesterPermits, targetPermits, confirmed);
      DispatchArbitrates(request, c, best, targetUnits, requesterPermits, targetPermits, confirmed);
      ComposedByThePair(givenUnits, givenContracts, request, now, best, j, f.decision);
      ComposedIsAttributed(Units(), givenContracts, givenCases, request, now, j, best, targetUnits, f);
      r := Some(f);
    }

    /** Overrides a permit with a denial when a rule is violated; the first rule that does not pass decides. */
    method ConstitutionalReview(request: Request, permit: Finding) returns (o: Outcome)
      requires permit.decision == Permit && !permit.reason.InvariantViolated?
      ensures Reviewed(request, layers, Permit, o)
      ensures Constitutional(request, layers) ==> o == Found(permit)
      ensures !Constitutional(request, layers) && o.Found? ==> (
        && o.finding.workflowId == request.workflowId && o.finding.requestingAgent == request.requestingAgentId
        && o.finding.targetAgent == request.targetAgentId && o.finding.reason.InvariantViolated?
        && o.finding.scopeEvaluated == permit.scopeEvaluated && o.finding.contractEvaluated == permit.contractEvaluated
        && o.finding.escalationTarget.None? && !o.finding.residualDenial)
    {
      for i := 0 to |layers|
        invariant Constitutional(request, layers[..i])
      {
        var layer := layers[i];
        for j := 0 to |layer.rules|
          invariant forall k :: 0 <= k < j ==> Check(request, layer.rules[k]).Satisfied?
        {
          var verdict := Check(request, layer.rules[j]);
          if !verdict.Satisfied? {
            assert FirstObjection(request, layers, i, j);
            if verdict.Faulty? {
              return Raised;
            }
            return Found(Finding(request.workflowId, Deny, request.requestingAgentId, request.targetAgentId,
                                 InvariantViolated(layer.layerId, layer.rules[j].field),
                                 permit.scopeEvaluated, permit.contractEvaluated));
          }
        }
        assert layers[..i + 1] == layers[..i] + [layer];
      }
      assert layers[..|layers|] == layers;
      o := Found(permit);
    }

    // ---- The pipeline

    method Evaluate(request: Request, now: real) returns (o: Outcome)
      requires Valid()
      ensures Decided(givenUnits, givenContracts, givenCases, layers, request, now, o)
      ensures o.Found? ==> Attributed(Units(), givenContracts, givenCases, request, now, o.finding)
    {
      hide Reviewed, CoveringInOrder, Covers, Matches, Leading;
      var hit := CheckCaseLaw(request);
      if hit.Some? {
        var finding := Finding(request.workflowId, hit.value.resolution, request.requestingAgentId, request.targetAgentId,
                               FromCaseLaw(hit.value.caseId));
        assert Proposes(givenUnits, givenContracts, givenCases, request, now, finding.decision);
        o := ReviewIfPermit(request, finding, now);
        return;
      }

      var covering := FindCoveringUnits(request, now);
      if covering == [] {
        assert Proposes(givenUnits, givenContracts, givenCases, request, now, Deny);
        o := ReviewIfPermit(request, Finding(request.workflowId, Deny, request.requestingAgentId, request.targetAgentId,
                                             NoScopeCoversAction, residualDenial := true), now);
        return;
      }
      assert covering[0] in Elements(covering);
      var best := SelectTightest(covering);
      LeadingIsTightest(best, covering);

      var composed := EvaluateComposition(request, best, now);
      if composed.Some? {
        assert Proposes(givenUnits, givenContracts, givenCases, request, now, composed.value.decision);
        o := ReviewIfPermit(request, composed.value, now);
        return;
      }

      assert ComposedAs(givenUnits, givenContracts, request, now, best, Permit);
      assert Proposes(givenUnits, givenContracts, givenCases, request, now, Permit);
      o := ReviewIfPermit(request, Finding(request.workflowId, Permit, request.requestingAgentId, request.targetAgentId,
                                           ScopeMatch(best.unitId), Some(best.unitId)), now);
    }

    /** How every stage ends: a permit goes before the constitution, anything else stands. */
    method ReviewIfPermit(request: Request, finding: Finding, now: real) returns (o: Outcome)
      requires Attributed(Units(), givenContracts, givenCases, request, now, finding) && !finding.reason.InvariantViolated?
      ensures Reviewed(request, layers, finding.decision, o)
      ensures o.Found? ==> Attributed(Units(), givenContracts, givenCases, request, now, o.finding)
    {
      if finding.decision != Permit {
        return Found(finding);
      }
      hide Constitutional, FirstObjection, Overridden;
      o := ConstitutionalReview(request, finding);
    }
  }

  // ---- The guarantees

  lemma PassedBefore(request: Request, layers: seq<Layer>, n: nat, i: nat, j: nat)
    requires i < n <= |layers| && Constitutional(request, layers[..n]) && j < |layers[i].rules|
    ensures Check(request, layers[i].rules[j]).Satisfied?
  {
    assert layers[..n][i] == layers[i];
  }

  lemma ObjectionsAgree(request: Request, layers: seq<Layer>, i: nat, j: nat, k: nat, l: nat)
    requires FirstObjection(request, layers, i, j) && FirstObjection(request, layers, k, l)
    ensures i == k && j == l
  {
    if i < k { PassedBefore(request, layers, k, i, j); }
    if k < i { PassedBefore(request, layers, i, k, l); }
  }

  /** A request is permitted exactly when the policy permits it. */
  lemma PermitIffPolicyPermits(units: seq<Unit>, contracts: seq<Contract>, cases: seq<CaseLaw>, layers: seq<Layer>,
                               request: Request, now: real, o: Outcome)
    requires Decided(units, contracts, cases, layers, request, now, o)
    ensures (o.Found? && o.finding.decision == Permit) <==> Permitted(units, contracts, cases, layers, request, now)
  {
    var d :| Proposes(units, contracts, cases, request, now, d) && Reviewed(request, layers, d, o);
    if Permitted(units, contracts, cases, layers, request, now) {
      OneProposal(units, contracts, cases, request, now, d, Permit);
    }
  }

  /**
   What a request is permitted on. Every permit that case law does not grant rests on a unit that
   may act; a request on which none may act, and no case law rules, is a residual denial; and one
   on which some unit may act is not, and is permitted if no contract joins the pair and no rule objects.
   */
  lemma AuthorityDecides(units: seq<Unit>, contracts: seq<Contract>, cases: seq<CaseLaw>, layers: seq<Layer>,
                         request: Request, now: real, o: Outcome)
    requires Decided(units, contracts, cases, layers, request, now, o)
    requires o.Found? ==> Attributed(Elements(units), contracts, cases, request, now, o.finding)
    ensures o.Found? && o.finding.decision == Permit && !o.finding.reason.FromCaseLaw? ==>
      exists u :: u in units && MayAct(u, request, now)
    ensures (forall i: nat :: !Governs(cases, request, i)) && (forall u :: u in units ==> !MayAct(u, request, now)) ==>
      o.Found? && o.finding.decision == Deny && o.finding.residualDenial
    ensures (exists u :: u in units && MayAct(u, request, now)) ==> !(o.Found? && o.finding.residualDenial)
    ensures (forall i: nat :: !Governs(cases, request, i)) && (exists u :: u in units && MayAct(u, request, now)) ==>
      (forall c :: c in contracts ==> {c.partyA, c.partyB} != {request.requestingAgentId, request.targetAgentId}) ==>
      Constitutional(request, layers) ==>
      o.Found? && o.finding.decision == Permit
  {
    var r := CoveringInOrder(units, request, now);
    CoveringMayAct(units, request, now);
    assert r == [] || r[0] in r;
    hide CoveringInOrder, Covering, MayAct, Governs, Constitutional, FirstObjection, Overridden, Leading;
    var d :| Proposes(units, contracts, cases, request, now, d) && Reviewed(request, layers, d, o);
    if forall c :: c in contracts ==> {c.partyA, c.partyB} != {request.requestingAgentId, request.targetAgentId} {
      NobodyJoins(contracts, request.requestingAgentId, request.targetAgentId);
    }
  }

  lemma NobodyJoins(contracts: seq<Contract>, a: string, b: string)
    requires forall c :: c in contracts ==> {c.partyA, c.partyB} != {a, b}
    ensures forall j: nat :: !LastFor(contracts, a, b, j)
  {
    forall j: nat | j < |contracts| ensures !Joins(contracts[j], a, b) {
      assert contracts[j] in contracts;
    }
  }

  lemma ReviewsAgree(request: Request, layers: seq<Layer>, d: Decision, o: Outcome, p: Outcome)
    requires Reviewed(request, layers, d, o) && Reviewed(request, layers, d, p)
    ensures o.Found? == p.Found? && (o.Found? ==> o.finding.decision == p.finding.decision)
  {
    if d == Permit && !Constitutional(request, layers) {
      var i: nat, j: nat :| FirstObjection(request, layers, i, j) && Overridden(request, layers[i], j, o);
      var k: nat, l: nat :| FirstObjection(request, layers, k, l) && Overridden(request, layers[k], l, p);
      ObjectionsAgree(request, layers, i, j, k, l);
    }
  }

  /** With distinct ids, two engines given the same units in any order and multiplicity decide alike. */
  lemma DecisionIgnoresUnitOrder(units: seq<Unit>, others: seq<Unit>, contracts: seq<Contract>, cases: seq<CaseLaw>, layers: seq<Layer>,
                                 request: Request, now: real, o: Outcome, p: Outcome)
    requires Elements(units) == Elements(others) && DistinctIds(Elements(units))
    requires Decided(units, contracts, cases, layers, request, now, o)
    requires Decided(others, contracts, cases, layers, request, now, p)
    ensures o.Found? == p.Found? && (o.Found? ==> o.finding.decision == p.finding.decision)
  {
    hide Proposes, Reviewed, DistinctIds;
    var d :| Proposes(units, contracts, cases, request, now, d) && Reviewed(request, layers, d, o);
    var e :| Proposes(others, contracts, cases, request, now, e) && Reviewed(request, layers, e, p);
    ProposalIgnoresOrder(units, others, contracts, cases, request, now, d, e);
    ReviewsAgree(request, layers, d, o, p);
  }
}
