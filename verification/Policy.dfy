/** Policy evaluation (policy.py): default deny, deny overrides, sorted and digested decisions. */
module Policy {
  import opened Wrappers
  import opened Ordering
  import opened Text
  import opened Canonical
  import opened Glob
  import opened Lists
  import opened Models

  datatype Effect = Allow | Deny

  datatype Constraints = Constraints(
    notBefore: Option<int>,
    notAfter: Option<int>,
    requiredContext: Option<map<string, Json>>,
    requiresHumanPresent: Option<bool>,
    maxRiskTier: Option<int>,
    maxForce: Option<int>,
    maxVelocity: Option<int>,
    allowedZones: Option<seq<string>>,
    minApprovalTier: Option<int>)

  const UNCONSTRAINED := Constraints(None, None, None, None, None, None, None, None, None)

  datatype PolicyRule = PolicyRule(
    policyId: string,
    issuer: string,
    target: string,
    effect: Effect,
    actions: seq<string>,
    subjects: seq<string>,
    purposes: seq<string>,
    constraints: Constraints,
    obligations: seq<string>,
    priority: int,
    source: map<string, Json>)

  /** A policy snapshot and the engine's settings; `known` is the action vocabulary. */
  datatype Engine = Engine(
    rules: seq<PolicyRule>,
    trustedIssuers: set<string>,
    requestMaxAge: int,
    clockSkew: int,
    requireKnownActions: bool,
    known: set<string>)

  ghost predicate UniqueIds(rules: seq<PolicyRule>) {
    forall i, j :: 0 <= i < j < |rules| ==> rules[i].policyId != rules[j].policyId
  }

  /** The digests a decision carries: of the sorted rules and trusted issuers, and of the request. */
  datatype PolicyNaming = PolicyNaming(
    snapshot: (seq<PolicyRule>, seq<string>) -> string,
    request: Request -> string)

  // ---- Python's equality on JSON values ----

  /** `True` and `1` are equal in Python, and `False` and `0`. */
  function Normal(v: Json): Json {
    match v
    case Bool(b) => Num(if b then 1 else 0)
    case Arr(items) => Arr(seq(|items|, i requires 0 <= i < |items| => Normal(items[i])))
    case Obj(m) => Obj(map k | k in m :: Normal(m[k]))
    case _ => v
  }

  predicate PyEqual(a: Json, b: Json) {
    Normal(a) == Normal(b)
  }

  // ---- constraints ----

  /** `context.get(key)` */
  function Get(context: map<string, Json>, key: string): Json {
    if key in context then context[key] else Null
  }

  predicate ContextAgrees(expected: Json, actual: Json) {
    if expected.Arr? then exists v :: v in expected.items && PyEqual(actual, v) else PyEqual(actual, expected)
  }

  predicate RequiredContextHolds(c: Constraints, context: map<string, Json>) {
    c.requiredContext.Some? ==>
      forall k :: k in c.requiredContext.value ==> ContextAgrees(c.requiredContext.value[k], Get(context, k))
  }

  predicate InTimeWindow(c: Constraints, now: int) {
    && (c.notBefore.Some? ==> c.notBefore.value <= now)
    && (c.notAfter.Some? ==> now < c.notAfter.value)
  }

  /** `isinstance(actual_risk, int)`, which admits booleans. */
  predicate RiskWithin(c: Constraints, context: map<string, Json>) {
    c.maxRiskTier.Some? ==>
      match Get(context, "risk_tier")
      case Num(n) => n <= c.maxRiskTier.value
      case Bool(b) => (if b then 1 else 0) <= c.maxRiskTier.value
      case _ => false
  }

  predicate HumanPresent(c: Constraints, context: map<string, Json>) {
    c.requiresHumanPresent == Some(true) ==> Get(context, "human_present") == Bool(true)
  }

  /** A declared number; anything else is no evidence. */
  function Declared(context: map<string, Json>, key: string): Option<int> {
    match Get(context, key)
    case Num(n) => Some(n)
    case _ => None
  }

  /** No evidence, or evidence above the limit. */
  predicate Violates(limit: Option<int>, declared: Option<int>) {
    limit.Some? && (declared.None? || declared.value > limit.value)
  }

  predicate InZone(zones: seq<string>, context: map<string, Json>) {
    match Get(context, "zone")
    case Str(zone) => !Blank(zone) && MatchesAny(zones, zone)
    case _ => false
  }

  predicate Physical(c: Constraints) {
    c.maxForce.Some? || c.maxVelocity.Some? || c.allowedZones.Some?
  }

  /** The conditions an allow and a deny rule share. */
  predicate CommonConditions(c: Constraints, r: Request, now: int) {
    InTimeWindow(c, now) && RequiredContextHolds(c, r.context) && HumanPresent(c, r.context) && RiskWithin(c, r.context)
  }

  /**
   `_constraints_hold`. An allow rule applies only within its physical limits; a deny
   rule with physical limits applies when the request violates one of them or is in
   one of its zones.
   */
  predicate ConstraintsHold(rule: PolicyRule, r: Request, now: int) {
    var c := rule.constraints;
    && CommonConditions(c, r, now)
    && if Violates(c.maxForce, Declared(r.context, "force_newtons")) then rule.effect.Deny?
       else if Violates(c.maxVelocity, Declared(r.context, "velocity_mps")) then rule.effect.Deny?
       else if c.allowedZones.Some? && rule.effect.Deny? && InZone(c.allowedZones.value, r.context) then true
       else if c.allowedZones.Some? && rule.effect.Allow? && !InZone(c.allowedZones.value, r.context) then false
       else !(rule.effect.Deny? && Physical(c))
  }

  /** The scope part of applicability. */
  predicate InScope(rule: PolicyRule, r: Request) {
    && Matches(rule.target, r.target) && MatchesAny(rule.actions, r.action)
    && MatchesAny(rule.subjects, r.agent) && MatchesAny(rule.purposes, r.purpose)
  }

  /** Untrusted sources may restrict but never grant. */
  predicate Applies(trusted: set<string>, rule: PolicyRule, r: Request, now: int) {
    (rule.effect.Allow? ==> rule.issuer in trusted) && InScope(rule, r) && ConstraintsHold(rule, r, now)
  }

  // ---- evaluation ----

  function Applier(e: Engine, r: Request, now: int): PolicyRule -> bool {
    rule => Applies(e.trustedIssuers, rule, r, now)
  }

  /** The rules that apply to a request, in the engine's order. */
  function Applicable(e: Engine, r: Request, now: int): seq<PolicyRule> {
    Filter(Applier(e, r, now), e.rules)
  }

  /** `(-priority, policy_id)` */
  function PriorityKey(rule: PolicyRule): seq<int> {
    [-rule.priority] + CodePoints(rule.policyId)
  }

  function IdKey(rule: PolicyRule): seq<int> {
    CodePoints(rule.policyId)
  }

  function PolicyIds(rules: seq<PolicyRule>): seq<string> {
    seq(|rules|, i requires 0 <= i < |rules| => rules[i].policyId)
  }

  function SnapshotDigest(names: PolicyNaming, rules: seq<PolicyRule>, trusted: set<string>): string {
    CodePointsDistinct(trusted);
    names.snapshot(SortBy(rules, IdKey), SortedSet(trusted, CodePoints))
  }

  function ObligationSet(rules: seq<PolicyRule>): set<string> {
    set rule, o | rule in rules && rule.effect.Allow? && o in rule.obligations :: o
  }

  function TierOf(rule: PolicyRule): int {
    rule.constraints.minApprovalTier.GetOr(0)
  }

  /** The highest tier an allow rule among `rules` asks for. */
  function RequiredTier(rules: seq<PolicyRule>): int {
    if rules == [] then 0
    else
      var rest := RequiredTier(rules[1..]);
      if rules[0].effect.Allow? && TierOf(rules[0]) > rest then TierOf(rules[0]) else rest
  }

  predicate Known(e: Engine, r: Request) {
    e.requireKnownActions ==> r.action in e.known
  }

  predicate FromFuture(e: Engine, r: Request, now: int) {
    r.issuedAt > now + e.clockSkew
  }

  predicate Stale(e: Engine, r: Request, now: int) {
    now - r.issuedAt > e.requestMaxAge
  }

  /** The decision on the sorted applicable rules. */
  function Resolve(sorted: seq<PolicyRule>, requestDigest: string, policyDigest: string): Decision {
    var matched := PolicyIds(sorted);
    if exists rule :: rule in sorted && rule.effect.Deny? then
      Decision(false, "explicit_deny", requestDigest, policyDigest, matched, [], 0)
    else if sorted == [] then
      Decision(false, "default_deny", requestDigest, policyDigest, matched, [], 0)
    else
      CodePointsDistinct(ObligationSet(sorted));
      Decision(true, "explicit_allow", requestDigest, policyDigest, matched,
               SortedSet(ObligationSet(sorted), CodePoints), RequiredTier(sorted))
  }

  /** `PolicyEngine.evaluate` */
  function Decide(names: PolicyNaming, e: Engine, r: Request, now: int): Decision {
    var policyDigest := SnapshotDigest(names, e.rules, e.trustedIssuers);
    var requestDigest := names.request(r);
    if !Known(e, r) then Decision(false, "unknown_action", requestDigest, policyDigest, [], [], 0)
    else if FromFuture(e, r, now) then Decision(false, "future_request", requestDigest, policyDigest, [], [], 0)
    else if Stale(e, r, now) then Decision(false, "stale_request", requestDigest, policyDigest, [], [], 0)
    else Resolve(SortBy(Applicable(e, r, now), PriorityKey), requestDigest, policyDigest)
  }

  /** What the constructor and `add` insist on of each rule: its constraints, and known actions where they are required. */
  predicate ValidRule(requireKnown: bool, known: set<string>, rule: PolicyRule) {
    var c := rule.constraints;
    && (requireKnown ==> forall action :: action in rule.actions ==> action in known)
    && (c.maxForce.Some? ==> 0 <= c.maxForce.value) && (c.maxVelocity.Some? ==> 0 <= c.maxVelocity.value)
    && (c.allowedZones.Some? ==> c.allowedZones.value != [] && forall z :: z in c.allowedZones.value ==> !Blank(z))
    && (c.minApprovalTier.Some? ==> 0 <= c.minApprovalTier.value <= 2)
  }

  class PolicyEngine {
    const names: PolicyNaming
    const requestMaxAge: int
    const clockSkew: int
    const requireKnownActions: bool
    const known: set<string>
    var rules: seq<PolicyRule>
    var trustedIssuers: set<string>

    ghost predicate Valid()
      reads this
    {
      UniqueIds(rules) && forall rule :: rule in rules ==> ValidRule(requireKnownActions, known, rule)
    }

    function Value(): Engine
      reads this
    {
      Engine(rules, trustedIssuers, requestMaxAge, clockSkew, requireKnownActions, known)
    }

    constructor (names: PolicyNaming, e: Engine)
      requires UniqueIds(e.rules) && forall rule :: rule in e.rules ==> ValidRule(e.requireKnownActions, e.known, rule)
      ensures Valid() && this.names == names && Value() == e
    {
      this.names := names;
      rules, trustedIssuers, requestMaxAge, clockSkew := e.rules, e.trustedIssuers, e.requestMaxAge, e.clockSkew;
      requireKnownActions, known := e.requireKnownActions, e.known;
    }

    /** Adds nothing at all when a rule is invalid or an id is taken. */
    method Add(more: seq<PolicyRule>) returns (added: bool)
      requires Valid()
      modifies this
      ensures Valid() && Value() == old(Value()).(rules := rules)
      ensures added <==> UniqueIds(old(rules) + more) && forall rule :: rule in more ==> ValidRule(requireKnownActions, known, rule)
      ensures rules == old(rules) + if added then more else []
    {
      if exists i :: 0 <= i < |more| && !ValidRule(requireKnownActions, known, more[i]) { return false; }
      var combined := rules + more;
      if exists i, j :: 0 <= i < j < |combined| && combined[i].policyId == combined[j].policyId {
        return false;
      }
      rules := combined;
      added := true;
    }

    method Evaluate(r: Request, now: int) returns (d: Decision)
      ensures d == Decide(names, Value(), r, now)
    {
      var e := Value();
      var policyDigest := SnapshotDigest(names, rules, trustedIssuers);
      var requestDigest := names.request(r);
      if !Known(e, r) { return Decision(false, "unknown_action", requestDigest, policyDigest, [], [], 0); }
      if FromFuture(e, r, now) { return Decision(false, "future_request", requestDigest, policyDigest, [], [], 0); }
      if Stale(e, r, now) { return Decision(false, "stale_request", requestDigest, policyDigest, [], [], 0); }
      var applicable := Collect(Applier(e, r, now), e.rules);
      applicable := SortBy(applicable, PriorityKey);
      d := Resolve(applicable, requestDigest, policyDigest);
    }
  }
}
