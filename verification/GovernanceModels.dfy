/** The governance graph: authority units, contracts, case law, constitutional layers, requests. */
module GovernanceModels {
  import opened Common

  /** A context value. Python's booleans are numbers, so True is Num(1.0). */
  datatype Value = Absent | Num(n: real) | Text(s: string)

  datatype Decision = Permit | Deny | Escalate | Halt | RequireApproval

  datatype ConflictResolution = HaltAndEscalate | DefaultDeny | PrecedenceResolution

  datatype Scope = Scope(decisionType: string, domain: string, conditions: map<string, Value>, limits: map<string, real>)

  datatype Unit = Unit(unitId: string, agentId: string, scope: Scope, expiry: Option<real>, revoked: bool)

  datatype Contract = Contract(
    contractId: string, partyA: string, partyB: string, precedence: string,
    resolution: ConflictResolution, scope: Scope, escalationPath: Option<string>)

  datatype CaseLaw = CaseLaw(caseId: string, pattern: map<string, Value>, resolution: Decision, precedence: int)

  datatype Operator = Eq | Neq | Exists | NotExists | Gt | Lt | UnknownOperator(name: string)

  datatype Rule = Rule(field: string, operator: Operator, value: Value)

  datatype Layer = Layer(layerId: string, rules: seq<Rule>)

  datatype Request = Request(
    requestingAgentId: string, targetAgentId: string, actionType: string, domain: string,
    workflowId: string, agentUseId: string, context: map<string, Value>)

  /** request.context.get(key). */
  function FromContext(request: Request, key: string): Value {
    if key in request.context then request.context[key] else Absent
  }

  /** AuthorityScope.covers. */
  predicate Covers(scope: Scope, request: Request) {
    && (scope.decisionType == request.actionType || scope.decisionType == "*")
    && (scope.domain == request.domain || scope.domain == "*")
    && (forall k :: k in scope.conditions ==> FromContext(request, k) == scope.conditions[k])
    && (forall k :: k in scope.limits ==> var actual := FromContext(request, k); actual.Num? ==> actual.n <= scope.limits[k])
  }

  function Specificity(scope: Scope): nat {
    |scope.conditions| + |scope.limits|
  }

  /** AuthorityUnit.is_valid, with the clock read once. */
  predicate InForce(u: Unit, now: real) {
    !u.revoked && (u.expiry.None? || now <= u.expiry.value)
  }

  // ---- Python's order on strings

  predicate LexLess(a: string, b: string) {
    if b == [] then false
    else if a == [] then true
    else a[0] < b[0] || (a[0] == b[0] && LexLess(a[1..], b[1..]))
  }

  lemma {:induction false} LexTotal(a: string, b: string)
    ensures LexLess(a, b) || LexLess(b, a) || a == b
    ensures !(LexLess(a, b) && LexLess(b, a))
    decreases |a|
  {
    if a != [] && b != [] {
      LexTotal(a[1..], b[1..]);
      assert a == [a[0]] + a[1..] && b == [b[0]] + b[1..];
    }
  }

  lemma {:induction false} LexTransitive(a: string, b: string, c: string)
    requires LexLess(a, b) && LexLess(b, c)
    ensures LexLess(a, c)
    decreases |a|
  {
    if a != [] && a[0] == b[0] && b[0] == c[0] {
      LexTransitive(a[1..], b[1..], c[1..]);
    }
  }

  /** The two agree before `i`, and not at `i`, where one of them may have ended. */
  predicate FirstDifference(a: string, b: string, i: nat) {
    && i <= |a| && i <= |b| && (forall j :: 0 <= j < i ==> a[j] == b[j])
    && (i < |a| && i < |b| ==> a[i] != b[i])
  }

  /** At the first difference `a` has ended, or has the smaller character. */
  ghost predicate SmallerFirst(a: string, b: string) {
    exists i: nat :: FirstDifference(a, b, i) && i < |b| && (i < |a| ==> a[i] < b[i])
  }

  lemma SmallerBehindTheHead(a: string, b: string)
    requires a != [] && b != [] && a[0] == b[0]
    ensures SmallerFirst(a, b) <==> SmallerFirst(a[1..], b[1..])
  {
    if i: nat :| FirstDifference(a[1..], b[1..], i) && i < |b[1..]| && (i < |a[1..]| ==> a[1..][i] < b[1..][i]) {
      forall j | 0 <= j < i + 1 ensures a[j] == b[j] {
        if j > 0 { assert a[1..][j - 1] == b[1..][j - 1]; }
      }
      assert FirstDifference(a, b, i + 1);
    }
    if i: nat :| FirstDifference(a, b, i) && i < |b| && (i < |a| ==> a[i] < b[i]) {
      assert FirstDifference(a[1..], b[1..], i - 1);
    }
  }

  /** The order of a dictionary: a proper prefix comes first, otherwise the first difference decides. */
  lemma {:induction false} LexIsDictionaryOrder(a: string, b: string)
    ensures LexLess(a, b) <==> SmallerFirst(a, b)
    decreases |a|
  {
    if a != [] && b != [] && a[0] == b[0] {
      hide SmallerFirst;
      LexIsDictionaryOrder(a[1..], b[1..]);
      SmallerBehindTheHead(a, b);
    } else {
      assert FirstDifference(a, b, 0);
    }
  }

  /** The key order of the tightest-scope selection: more specific first, then the smaller unit id. */
  predicate Tighter(u: Unit, v: Unit) {
    || Specificity(u.scope) > Specificity(v.scope)
    || (Specificity(u.scope) == Specificity(v.scope) && LexLess(u.unitId, v.unitId))
  }

  lemma TighterTransitive(u: Unit, v: Unit, w: Unit)
    requires !Tighter(v, u) && !Tighter(w, v)
    ensures !Tighter(w, u)
  {
    LexTotal(u.unitId, v.unitId);
    LexTotal(v.unitId, w.unitId);
    LexTotal(u.unitId, w.unitId);
    if LexLess(u.unitId, v.unitId) && LexLess(v.unitId, w.unitId) {
      LexTransitive(u.unitId, v.unitId, w.unitId);
    }
  }

  /** `best` is a tightest unit of the set. */
  ghost predicate Tightest(best: Unit, units: set<Unit>) {
    best in units && forall u :: u in units ==> !Tighter(u, best)
  }

  /** No two units share an id. */
  ghost predicate DistinctIds(units: set<Unit>) {
    forall u, v :: u in units && v in units && u.unitId == v.unitId ==> u == v
  }

  lemma TightestIsUnique(a: Unit, b: Unit, units: set<Unit>)
    requires DistinctIds(units) && Tightest(a, units) && Tightest(b, units)
    ensures a == b
  {
    LexTotal(a.unitId, b.unitId);
  }
}

/** The declarative policy that governance decisions are to follow. */
module GovernancePolicy {
  import opened Common
  import opened GovernanceModels
  import opened Sequences

  // ---- Case law

  /** An attribute of the request, or else an entry of its context. */
  function Actual(request: Request, key: string): Value {
    match key
    case "requesting_agent_id" => Text(request.requestingAgentId)
    case "target_agent_id" => Text(request.targetAgentId)
    case "action_type" => Text(request.actionType)
    case "domain" => Text(request.domain)
    case "workflow_id" => Text(request.workflowId)
    case "agent_use_id" => Text(request.agentUseId)
    case _ => FromContext(request, key)
  }

  /** A pattern over all six attributes matches exactly the requests that have them; the context has no say in those. */
  lemma AttributesAreMatched(request: Request, c: CaseLaw, a: string, b: string, action: string, domain: string, flow: string, use: string)
    requires c.pattern == map["requesting_agent_id" := Text(a), "target_agent_id" := Text(b), "action_type" := Text(action),
                              "domain" := Text(domain), "workflow_id" := Text(flow), "agent_use_id" := Text(use)]
    ensures Matches(request, c) <==>
      (request.requestingAgentId == a && request.targetAgentId == b && request.actionType == action
       && request.domain == domain && request.workflowId == flow && request.agentUseId == use)
  {
    var p := c.pattern;
    assert p["requesting_agent_id"] == Text(a) && p["target_agent_id"] == Text(b) && p["action_type"] == Text(action);
    assert p["domain"] == Text(domain) && p["workflow_id"] == Text(flow) && p["agent_use_id"] == Text(use);
  }

  /** A pattern over any other key asks the context; an empty pattern matches every request. */
  lemma ContextIsMatched(request: Request, c: CaseLaw, key: string, v: Value)
    requires key !in {"requesting_agent_id", "target_agent_id", "action_type", "domain", "workflow_id", "agent_use_id"}
    ensures c.pattern == map[key := v] ==>
      (Matches(request, c) <==> if key in request.context then request.context[key] == v else v == Absent)
    ensures c.pattern == map[] ==> Matches(request, c)
  {
    assert Actual(request, key) == FromContext(request, key);
    if c.pattern == map[key := v] { assert c.pattern[key] == v; }
  }

  predicate Matches(request: Request, c: CaseLaw) {
    forall k :: k in c.pattern ==> Actual(request, k) == c.pattern[k]
  }

  /** Entry `i` matches, nothing that matches has higher precedence, and it is the earliest such. */
  predicate Governs(cases: seq<CaseLaw>, request: Request, i: nat) {
    i < |cases| && Matches(request, cases[i]) &&
    forall j :: 0 <= j < |cases| && Matches(request, cases[j]) ==>
      cases[j].precedence < cases[i].precedence || (cases[j].precedence == cases[i].precedence && i <= j)
  }

  // ---- Scopes and contracts

  function Covering(units: set<Unit>, request: Request, now: real): set<Unit> {
    set u | u in units && (u.agentId == request.requestingAgentId || u.agentId == "*")
            && InForce(u, now) && Covers(u.scope, request)
  }

  /**
   A unit the request may rest on: it belongs to the requester or to everybody, is neither revoked
   nor past its expiry, speaks of this action in this domain, the context agrees with each of its
   conditions, and no number in the context is above its limit.
   */
  predicate MayAct(u: Unit, request: Request, now: real) {
    && u.agentId in {request.requestingAgentId, "*"}
    && u.scope.decisionType in {request.actionType, "*"} && u.scope.domain in {request.domain, "*"}
    && !u.revoked && !(u.expiry.Some? && u.expiry.value < now)
    && (forall k :: k in u.scope.conditions ==> if k in request.context
          then request.context[k] == u.scope.conditions[k] else u.scope.conditions[k] == Absent)
    && !(exists k :: k in u.scope.limits && k in request.context && request.context[k].Num?
          && u.scope.limits[k] < request.context[k].n)
  }

  lemma CoveringMayAct(units: seq<Unit>, request: Request, now: real)
    ensures forall u :: u in CoveringInOrder(units, request, now) <==> u in units && MayAct(u, request, now)
    ensures Covering(Elements(units), request, now) == {} <==> CoveringInOrder(units, request, now) == []
  {
    var r := CoveringInOrder(units, request, now);
    forall u ensures u in r <==> u in units && MayAct(u, request, now) {
      assert u in r <==> u in Elements(r);
      MayActIffCovers(u, request, now);
    }
    assert r == [] || r[0] in Elements(r);
  }

  lemma MayActIffCovers(u: Unit, request: Request, now: real)
    ensures MayAct(u, request, now)
      <==> u.agentId in {request.requestingAgentId, "*"} && InForce(u, now) && Covers(u.scope, request)
  {
    if InForce(u, now) && Covers(u.scope, request) {
      forall k | k in u.scope.conditions ensures if k in request.context
        then request.context[k] == u.scope.conditions[k] else u.scope.conditions[k] == Absent
      {
        assert FromContext(request, k) == u.scope.conditions[k];
      }
      forall k | k in u.scope.limits && k in request.context && request.context[k].Num?
        ensures request.context[k].n <= u.scope.limits[k]
      {
        assert FromContext(request, k) == request.context[k];
      }
    }
  }

  /** The units bound to one agent, in the order they are listed. */
  function OfAgent(units: seq<Unit>, agent: string): (r: seq<Unit>)
    ensures forall u :: u in r <==> u in units && u.agentId == agent
  {
    if units == [] then []
    else
      var before := OfAgent(units[..|units| - 1], agent);
      assert units == units[..|units| - 1] + [units[|units| - 1]];
      if units[|units| - 1].agentId == agent then before + [units[|units| - 1]] else before
  }

  /** The units in force that cover the request, in order. */
  function InForceCovering(units: seq<Unit>, request: Request, now: real): (r: seq<Unit>)
    ensures forall u :: u in r <==> u in units && InForce(u, now) && Covers(u.scope, request)
  {
    if units == [] then []
    else
      var rest := InForceCovering(units[1..], request, now);
      assert units == [units[0]] + units[1..];
      if InForce(units[0], now) && Covers(units[0].scope, request) then [units[0]] + rest else rest
  }

  /** The candidates as a full scan finds them: the requester's own units, then the platform-wide ones. */
  function CoveringInOrder(units: seq<Unit>, request: Request, now: real): (r: seq<Unit>)
    ensures Elements(r) == Covering(Elements(units), request, now)
  {
    InForceCovering(OfAgent(units, request.requestingAgentId) + OfAgent(units, "*"), request, now)
  }

  /** `best` is the first of the tightest units of the list. */
  ghost predicate Leading(best: Unit, units: seq<Unit>) {
    && (forall u :: u in units ==> !Tighter(u, best))
    && exists i :: 0 <= i < |units| && units[i] == best && forall j :: 0 <= j < i ==> Tighter(best, units[j])
  }

  lemma LeadingIsTightest(best: Unit, units: seq<Unit>)
    requires Leading(best, units)
    ensures best in units && Tightest(best, Elements(units))
  {
  }

  lemma LeadingIsUnique(a: Unit, b: Unit, units: seq<Unit>)
    requires Leading(a, units) && Leading(b, units)
    ensures a == b
  {
    var i :| 0 <= i < |units| && units[i] == a && forall j :: 0 <= j < i ==> Tighter(a, units[j]);
    var k :| 0 <= k < |units| && units[k] == b && forall j :: 0 <= j < k ==> Tighter(b, units[j]);
    assert !Tighter(units[i], b) && !Tighter(units[k], a);
  }

  predicate TargetPermits(units: set<Unit>, request: Request, now: real) {
    exists u :: u in units && u.agentId == request.targetAgentId && InForce(u, now) && Covers(u.scope, request)
  }

  predicate Joins(c: Contract, a: string, b: string) {
    (c.partyA == a && c.partyB == b) || (c.partyA == b && c.partyB == a)
  }

  /** Contract `i` is the last one listed for the unordered pair. */
  predicate LastFor(contracts: seq<Contract>, a: string, b: string, i: nat) {
    i < |contracts| && Joins(contracts[i], a, b) && forall j :: i < j < |contracts| ==> !Joins(contracts[j], a, b)
  }

  /** No condition or limit that the unit or the contract looks at is flagged as unconfirmed. */
  predicate StateConfirmed(request: Request, u: Unit, c: Contract) {
    forall k :: k in u.scope.conditions.Keys + u.scope.limits.Keys + c.scope.conditions.Keys + c.scope.limits.Keys
      ==> "unconfirmed_" + k !in request.context
  }

  /** What the four arbitration patterns decide for a requester that is covered. */
  function Arbitrated(request: Request, c: Contract, confirmed: bool, targetPermits: bool): Decision {
    if !confirmed then Deny
    else if c.resolution.HaltAndEscalate? then (if targetPermits then Permit else Escalate)
    else if c.precedence == request.requestingAgentId then Permit
    else if c.precedence == request.targetAgentId && targetPermits then Permit
    else Deny
  }

  // ---- The constitution

  datatype Verdict = Satisfied | Violated | Faulty

  /** a <= b, where Python can compare the two. */
  function AtMost(a: Value, b: Value): Option<bool> {
    if a.Num? && b.Num? then Some(a.n <= b.n)
    else if a.Text? && b.Text? then Some(!LexLess(b.s, a.s))
    else None
  }

  function Ordered(violated: Option<bool>): Verdict {
    if violated.None? then Faulty else if violated.value then Violated else Satisfied
  }

  /** One rule: an operator that needs an order is faulty on values Python cannot compare. */
  function Check(request: Request, rule: Rule): Verdict {
    var actual := FromContext(request, rule.field);
    match rule.operator
    case Eq => if actual != rule.value then Violated else Satisfied
    case Neq => if actual == rule.value then Violated else Satisfied
    case Exists => if actual.Absent? then Violated else Satisfied
    case NotExists => if actual.Absent? then Satisfied else Violated
    case Gt => if actual.Absent? then Violated else Ordered(AtMost(actual, rule.value))
    case Lt => if actual.Absent? then Violated else Ordered(AtMost(rule.value, actual))
    case UnknownOperator(_) => Satisfied
  }

  /** What one rule asks of the context: of an attribute that is not there, of a number, and of a text. */
  lemma RulesInWords(request: Request, rule: Rule)
    ensures var (f, here) := (rule.field, rule.field in request.context && !request.context[rule.field].Absent?);
      && (rule.operator == Exists ==> Check(request, rule) == if here then Satisfied else Violated)
      && (rule.operator == NotExists ==> Check(request, rule) == if here then Violated else Satisfied)
      && (rule.operator == Eq ==> Check(request, rule) == if here
            then (if request.context[f] == rule.value then Satisfied else Violated)
            else (if rule.value.Absent? then Satisfied else Violated))
      && (rule.operator == Neq ==> Check(request, rule) == if here
            then (if request.context[f] == rule.value then Violated else Satisfied)
            else (if rule.value.Absent? then Violated else Satisfied))
      && (rule.operator in {Gt, Lt} && !here ==> Check(request, rule) == Violated)
      && (rule.operator in {Gt, Lt} && here && request.context[f].Num? && rule.value.Num? ==>
            Check(request, rule) == if (if rule.operator == Gt then request.context[f].n > rule.value.n
                                        else request.context[f].n < rule.value.n) then Satisfied else Violated)
      && (rule.operator in {Gt, Lt} && here && request.context[f].Text? && rule.value.Text? ==>
            Check(request, rule) == if (if rule.operator == Gt then LexLess(rule.value.s, request.context[f].s)
                                        else LexLess(request.context[f].s, rule.value.s)) then Satisfied else Violated)
      && (rule.operator in {Gt, Lt} && here && request.context[f].Num? != rule.value.Num? ==> Check(request, rule) == Faulty)
      && (rule.operator.UnknownOperator? ==> Check(request, rule) == Satisfied)
  {
  }

  /** No rule of any layer objects. */
  predicate Constitutional(request: Request, layers: seq<Layer>) {
    forall i, j :: 0 <= i < |layers| && 0 <= j < |layers[i].rules| ==> Check(request, layers[i].rules[j]).Satisfied?
  }

  // ---- The decision

  /** What the governing contract, if there is one, makes of a request that `best` covers. */
  ghost predicate ComposedAs(units: seq<Unit>, contracts: seq<Contract>, request: Request, now: real, best: Unit, d: Decision) {
    if exists j: nat :: LastFor(contracts, request.requestingAgentId, request.targetAgentId, j) then
      exists j: nat :: LastFor(contracts, request.requestingAgentId, request.targetAgentId, j)
        && d == Arbitrated(request, contracts[j], StateConfirmed(request, best, contracts[j]), TargetPermits(Elements(units), request, now))
    else d == Permit
  }

  /** What is decided before the constitution has its say. */
  ghost predicate Proposes(units: seq<Unit>, contracts: seq<Contract>, cases: seq<CaseLaw>, request: Request, now: real,
                           d: Decision)
  {
    if exists i: nat :: Governs(cases, request, i) then
      exists i: nat :: Governs(cases, request, i) && d == cases[i].resolution
    else if CoveringInOrder(units, request, now) == [] then d == Deny
    else exists best :: Leading(best, CoveringInOrder(units, request, now)) && ComposedAs(units, contracts, request, now, best, d)
  }

  lemma OneCaseGoverns(cases: seq<CaseLaw>, request: Request, i: nat, j: nat)
    requires Governs(cases, request, i) && Governs(cases, request, j)
    ensures i == j
  {
  }

  /** Two lists of the same units compose alike. */
  lemma OneComposition(units: seq<Unit>, others: seq<Unit>, contracts: seq<Contract>, request: Request, now: real, best: Unit,
                       d: Decision, e: Decision)
    requires Elements(units) == Elements(others)
    requires ComposedAs(units, contracts, request, now, best, d) && ComposedAs(others, contracts, request, now, best, e)
    ensures d == e
  {
    hide StateConfirmed, TargetPermits, Arbitrated;
  }

  /** There is one proposal. */
  lemma OneProposal(units: seq<Unit>, contracts: seq<Contract>, cases: seq<CaseLaw>, request: Request, now: real,
                    d: Decision, e: Decision)
    requires Proposes(units, contracts, cases, request, now, d) && Proposes(units, contracts, cases, request, now, e)
    ensures d == e
  {
    hide CoveringInOrder, Leading, ComposedAs;
    if exists i: nat :: Governs(cases, request, i) {
      var i: nat :| i < |cases| && Governs(cases, request, i) && d == cases[i].resolution;
      var j: nat :| j < |cases| && Governs(cases, request, j) && e == cases[j].resolution;
      OneCaseGoverns(cases, request, i, j);
    } else if CoveringInOrder(units, request, now) != [] {
      var a :| Leading(a, CoveringInOrder(units, request, now)) && ComposedAs(units, contracts, request, now, a, d);
      var b :| Leading(b, CoveringInOrder(units, request, now)) && ComposedAs(units, contracts, request, now, b, e);
      LeadingIsUnique(a, b, CoveringInOrder(units, request, now));
      OneComposition(units, units, contracts, request, now, a, d, e);
    }
  }

  /** With distinct unit ids the leading unit does not depend on the order of the list. */
  lemma SameLeader(a: Unit, b: Unit, units: seq<Unit>, others: seq<Unit>, request: Request, now: real)
    requires Elements(units) == Elements(others) && DistinctIds(Elements(units))
    requires Leading(a, CoveringInOrder(units, request, now)) && Leading(b, CoveringInOrder(others, request, now))
    ensures a == b
  {
    var covering := Covering(Elements(units), request, now);
    assert forall u :: u in covering ==> u in CoveringInOrder(units, request, now) && u in CoveringInOrder(others, request, now) by {
      assert covering == Elements(CoveringInOrder(units, request, now)) == Elements(CoveringInOrder(others, request, now));
    }
    assert a in Elements(CoveringInOrder(units, request, now)) && b in Elements(CoveringInOrder(others, request, now));
    TightestIsUnique(a, b, covering);
  }

  /** ... and neither does the proposal. */
  lemma ProposalIgnoresOrder(units: seq<Unit>, others: seq<Unit>, contracts: seq<Contract>, cases: seq<CaseLaw>,
                             request: Request, now: real, d: Decision, e: Decision)
    requires Elements(units) == Elements(others) && DistinctIds(Elements(units))
    requires Proposes(units, contracts, cases, request, now, d) && Proposes(others, contracts, cases, request, now, e)
    ensures d == e
  {
    assert Elements(CoveringInOrder(units, request, now)) == Elements(CoveringInOrder(others, request, now));
    SameEmptiness(CoveringInOrder(units, request, now), CoveringInOrder(others, request, now));
    hide CoveringInOrder, Leading, ComposedAs, DistinctIds;
    if exists i: nat :: Governs(cases, request, i) {
      var i: nat :| i < |cases| && Governs(cases, request, i) && d == cases[i].resolution;
      var j: nat :| j < |cases| && Governs(cases, request, j) && e == cases[j].resolution;
      OneCaseGoverns(cases, request, i, j);
    } else if CoveringInOrder(units, request, now) != [] {
      var a :| Leading(a, CoveringInOrder(units, request, now)) && ComposedAs(units, contracts, request, now, a, d);
      var b :| Leading(b, CoveringInOrder(others, request, now)) && ComposedAs(others, contracts, request, now, b, e);
      SameLeader(a, b, units, others, request, now);
      OneComposition(units, others, contracts, request, now, a, d, e);
    }
  }

  lemma ScanOfTwo(u: Unit, v: Unit, request: Request, now: real)
    requires u.agentId == v.agentId == request.requestingAgentId != "*"
    requires InForce(u, now) && Covers(u.scope, request) && InForce(v, now) && Covers(v.scope, request)
    ensures CoveringInOrder([u, v], request, now) == [u, v]
  {
    hide Covers, InForce;
    var units := [u, v];
    assert units[..1] == [u] && [u][..0] == [];
    assert OfAgent([u], u.agentId) == [] + [u] && OfAgent([u], "*") == [];
    assert OfAgent(units, u.agentId) == [u] + [v] && OfAgent(units, "*") == [];
    assert [u] + [v] + [] == units && units[1..] == [v] && [v][1..] == [];
    assert InForceCovering([v], request, now) == [v] + [];
  }

  /** Two covering units that share an id, and of which state is confirmed for the one but not for the other. */
  ghost predicate Ambiguous(a: Unit, b: Unit, c: Contract, request: Request) {
    && a.agentId == b.agentId == request.requestingAgentId != "*" && a.unitId == b.unitId
    && Specificity(a.scope) == Specificity(b.scope)
    && InForce(a, 0.0) && Covers(a.scope, request) && InForce(b, 0.0) && Covers(b.scope, request)
    && Joins(c, request.requestingAgentId, request.targetAgentId)
    && c.resolution == DefaultDeny && c.precedence == request.requestingAgentId
    && !StateConfirmed(request, a, c) && StateConfirmed(request, b, c)
  }

  lemma FirstOfTwoLeads(u: Unit, v: Unit)
    requires u.unitId == v.unitId && Specificity(u.scope) == Specificity(v.scope)
    ensures Leading(u, [u, v])
  {
    LexTotal(u.unitId, u.unitId);
    assert [u, v][0] == u;
  }

  /** Without case law, the leading unit and the pair's only contract decide. */
  lemma OneContractDecides(units: seq<Unit>, c: Contract, request: Request, now: real, best: Unit)
    requires Leading(best, CoveringInOrder(units, request, now)) && Joins(c, request.requestingAgentId, request.targetAgentId)
    ensures Proposes(units, [c], [], request, now,
                     Arbitrated(request, c, StateConfirmed(request, best, c), TargetPermits(Elements(units), request, now)))
  {
    hide Leading, CoveringInOrder, StateConfirmed, TargetPermits, Arbitrated;
    var d := Arbitrated(request, c, StateConfirmed(request, best, c), TargetPermits(Elements(units), request, now));
    assert LastFor([c], request.requestingAgentId, request.targetAgentId, 0) && [c][0] == c;
    assert ComposedAs(units, [c], request, now, best, d);
    assert CoveringInOrder(units, request, now) != [] by { LeadsSomething(best, CoveringInOrder(units, request, now)); }
  }

  lemma LeadsSomething(best: Unit, units: seq<Unit>)
    requires Leading(best, units)
    ensures units != []
  {
  }

  /** The hypothesis is needed: of two units that share an id the one listed first is asked about unconfirmed state. */
  lemma SharedIdsMakeOrderMatter(a: Unit, b: Unit, c: Contract, request: Request)
    requires Ambiguous(a, b, c, request)
    ensures Proposes([a, b], [c], [], request, 0.0, Deny)
    ensures Proposes([b, a], [c], [], request, 0.0, Permit)
  {
    ScanOfTwo(a, b, request, 0.0);
    ScanOfTwo(b, a, request, 0.0);
    FirstOfTwoLeads(a, b);
    FirstOfTwoLeads(b, a);
    hide Proposes, CoveringInOrder, Covers, StateConfirmed, TargetPermits, Specificity, Leading, Tighter;
    OneContractDecides([a, b], c, request, 0.0, a);
    OneContractDecides([b, a], c, request, 0.0, b);
  }

  /** Such units exist for any agent and any two keys: one unit looks at `x`, which is flagged, the other limits `y`. */
  lemma AmbiguousUnits(agent: string, target: string, id: string, x: string, y: string)
    returns (a: Unit, b: Unit, c: Contract, request: Request)
    requires agent != "*" && x != y && "unconfirmed_" + y != x
    ensures Ambiguous(a, b, c, request) && a.unitId == b.unitId == id
  {
    var flag, other := "unconfirmed_" + x, "unconfirmed_" + y;
    assert flag[12..] == x && other[12..] == y;
    var one := Num(1.0);
    a := Unit(id, agent, Scope("*", "*", map[x := one], map[]), None, false);
    b := Unit(id, agent, Scope("*", "*", map[], map[y := 1.0]), None, false);
    c := Contract(id, agent, target, agent, DefaultDeny, Scope("*", "*", map[], map[]), None);
    request := Request(agent, target, id, id, id, id, map[x := one, flag := one]);
    assert !StateConfirmed(request, a, c) by { assert x in a.scope.conditions.Keys && flag in request.context; }
    assert StateConfirmed(request, b, c) by { assert other !in request.context; }
    assert |map[x := one]| == |map[y := 1.0]| == 1;
  }

  lemma SameEmptiness<T>(s: seq<T>, t: seq<T>)
    requires Elements(s) == Elements(t)
    ensures s == [] <==> t == []
  {
    assert s == [] || s[0] in Elements(s);
    assert t == [] || t[0] in Elements(t);
  }

  /** The conditions under which a request is permitted, in full. */
  ghost predicate Permitted(units: seq<Unit>, contracts: seq<Contract>, cases: seq<CaseLaw>, layers: seq<Layer>,
                            request: Request, now: real)
  {
    Constitutional(request, layers) && Proposes(units, contracts, cases, request, now, Permit)
  }
}
