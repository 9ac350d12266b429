/**
 Capability attenuation (attenuation.py): the generator of narrower capabilities,
 the independent verifier, and what follows for whole delegation chains.
 */
module Attenuation {
  import opened Wrappers
  import opened Text
  import opened Glob
  import opened Models
  import opened Capabilities

  /** How a pattern is matched: `Matches` in Python, `JsMatches` in the browser verifier. */
  type Matcher = (string, string) -> bool

  predicate AnyMatch(m: Matcher, patterns: seq<string>, value: string) {
    exists p :: p in patterns && m(p, value)
  }

  predicate Subset(a: seq<string>, b: seq<string>) {
    forall x :: x in a ==> x in b
  }

  // ---- the verifier ----

  predicate KnownVersion(version: string) {
    version == "0.1" || version == "0.2" || version == "1.0"
  }

  /** `_require_parent` finds nothing to object to. */
  predicate SupportedParent(parent: Capability) {
    parent.typ == CAPABILITY_TYPE && KnownVersion(parent.version) && parent.matchedPolicyIds != []
  }

  /** Nor does `_parent_scope`. */
  predicate UsableScope(parent: Capability) {
    && !Blank(parent.target)
    && parent.actions != [] && NonEmptyStrings(parent.actions)
    && parent.purposes != [] && NonEmptyStrings(parent.purposes)
  }

  predicate UsableParent(parent: Capability) {
    SupportedParent(parent) && UsableScope(parent)
  }

  /** Everything a child must take over from its parent unchanged, and its links to it. */
  predicate SameOrigin(child: Capability, parent: Capability) {
    && child.typ == CAPABILITY_TYPE && child.Scoped()
    && (parent.Scoped() ==> child.version == parent.version)
    && child.parentId == Some(parent.capabilityId)
    && child.rootId == Some(parent.RootOf())
    && child.delegateAllowlist == parent.delegateAllowlist
    && child.issuer == parent.issuer && child.agent == parent.agent && child.policyDigest == parent.policyDigest
    && child.approvalTier == parent.approvalTier
  }

  predicate ScopeNarrowed(m: Matcher, child: Capability, parent: Capability) {
    && child.matchedPolicyIds != [] && Subset(child.matchedPolicyIds, parent.matchedPolicyIds)
    && (child.target == parent.target || m(parent.target, child.target))
    && child.actions != [] && Subset(child.actions, parent.actions)
    && child.purposes != [] && Subset(child.purposes, parent.purposes)
  }

  predicate LifetimeWithin(child: Capability, parent: Capability) {
    parent.notBefore <= child.notBefore && child.expiresAt <= parent.expiresAt
  }

  predicate DepthsInRange(c: Capability) {
    0 <= c.maxDelegationDepth <= 3 && 0 <= c.delegationDepth <= 3
  }

  predicate DelegationStep(m: Matcher, child: Capability, parent: Capability) {
    && DepthsInRange(parent) && DepthsInRange(child)
    && (if child.delegateAgent == parent.delegateAgent then
          child.delegationDepth == parent.delegationDepth && child.requestDigest == parent.requestDigest
        else
          && parent.delegationAllowed
          && parent.delegationDepth < parent.maxDelegationDepth
          && child.delegationDepth == parent.delegationDepth + 1
          && child.delegateAgent.Some? && child.delegateAgent.value != ""
          && child.delegateAgent.value != child.agent
          && !child.delegationAllowed && child.maxDelegationDepth == 0
          && (parent.delegateAllowlist.Some? && parent.delegateAllowlist.value != [] ==>
                AnyMatch(m, parent.delegateAllowlist.value, child.delegateAgent.value)))
    && child.maxDelegationDepth <= parent.maxDelegationDepth
    && (child.delegationAllowed ==> parent.delegationAllowed)
  }

  /** A limit of the child's is compared only where both state one. */
  predicate LimitTightened(child: Option<int>, parent: Option<int>) {
    child.Some? && parent.Some? ==> child.value <= parent.value
  }

  predicate LimitsTightened(m: Matcher, child: Limits, parent: Limits) {
    && LimitTightened(child.maxForce, parent.maxForce)
    && LimitTightened(child.maxVelocity, parent.maxVelocity)
    && (child.allowedZones.Some? && parent.allowedZones.Some? ==>
          forall z :: z in child.allowedZones.value ==> AnyMatch(m, parent.allowedZones.value, z))
  }

  /** `verify_attenuation` */
  predicate VerifyAttenuation(child: Capability, parent: Capability) {
    && UsableParent(parent)
    && SameOrigin(child, parent)
    && ScopeNarrowed(Matches, child, parent)
    && DelegationStep(Matches, child, parent)
    && LifetimeWithin(child, parent)
    && LimitsTightened(Matches, child.constraints, parent.constraints)
  }

  predicate NonNegative(limit: Option<int>) {
    limit.Some? ==> 0 <= limit.value
  }

  predicate JsLifetimeWithin(child: Capability, parent: Capability) {
    && Milliseconds(parent.notBefore) <= Milliseconds(child.notBefore)
    && Milliseconds(child.expiresAt) <= Milliseconds(parent.expiresAt)
  }

  /** `verifyAttenuation` of the browser verifier: scoped parents only, its own matcher and its own instants. */
  predicate JsVerifyAttenuation(child: Capability, parent: Capability) {
    && parent.typ == CAPABILITY_TYPE && parent.Scoped()
    && SameOrigin(child, parent)
    && parent.target != "" && parent.actions != [] && parent.purposes != []
    && ScopeNarrowed(JsMatches, child, parent)
    && DelegationStep(JsMatches, child, parent)
    && JsLifetimeWithin(child, parent)
    && LimitsTightened(JsMatches, child.constraints, parent.constraints)
    && NonNegative(child.constraints.maxForce) && NonNegative(child.constraints.maxVelocity)
  }

  // ---- the generator ----

  datatype AttenuationError =
    | UnsupportedParent | CrossAgent | InvalidParentScope | BlankTarget | TargetOutsideParent | InvalidList | ListWidened
    | TtlOutOfRange | LifetimeExtended | ForceRaised | VelocityRaised | InvalidZones | ZoneOutsideParent
    | InvalidParentDelegation | InvalidDelegate | DelegateIsPrincipal | DelegationNotAllowed | DelegationDepthReached
    | DelegateRequestMissing | DelegateRequestAgent | DelegateRequestTarget | DelegateRequestAction
    | DelegateRequestPurpose | DelegateNotListed | InvalidParentTier

  /** The optional arguments of `attenuate_capability`. */
  datatype Options = Options(
    agent: Option<string>,
    actions: Option<seq<string>>,
    target: Option<string>,
    purposes: Option<seq<string>>,
    ttlSeconds: Option<int>,
    maxForce: Option<int>,
    maxVelocity: Option<int>,
    allowedZones: Option<seq<string>>,
    delegateAgent: Option<string>,
    delegateRequest: Option<Request>)

  /** `int(delta.total_seconds())`, which truncates towards zero. */
  function WholeSeconds(delta: int): int {
    if delta >= 0 then delta / MICROS else -((-delta) / MICROS)
  }

  function Min(a: int, b: int): int { if a < b then a else b }

  function Max(a: int, b: int): int { if a < b then b else a }

  /** `_narrow_time` at instant `now`: the child's `not_before` and `expires_at`. */
  function NarrowTime(parent: Capability, ttlSeconds: Option<int>, now: int): Result<(int, int), AttenuationError> {
    var ttl := match ttlSeconds
      case Some(t) => t
      case None => Max(1, Min(300, WholeSeconds(parent.expiresAt - now)));
    if !(1 <= ttl <= 300) then Failure(TtlOutOfRange)
    else if now < parent.notBefore || parent.expiresAt < now + ttl * MICROS then
      Failure(LifetimeExtended)
    else Success((now, now + ttl * MICROS))
  }

  predicate LimitAccepted(value: Option<int>, parent: Option<int>) {
    value.Some? ==> 0 <= value.value && (parent.Some? ==> value.value <= parent.value)
  }

  /** `_narrow_constraints`: only the limits the caller states, none of the parent's. */
  function NarrowConstraints(parent: Capability, o: Options): Result<Limits, AttenuationError> {
    if !LimitAccepted(o.maxForce, parent.constraints.maxForce) then
      Failure(ForceRaised)
    else if !LimitAccepted(o.maxVelocity, parent.constraints.maxVelocity) then
      Failure(VelocityRaised)
    else if o.allowedZones.Some? && (o.allowedZones.value == [] || exists z :: z in o.allowedZones.value && Blank(z)) then
      Failure(InvalidZones)
    else if o.allowedZones.Some? && parent.constraints.allowedZones.Some?
            && exists z :: z in o.allowedZones.value && !MatchesAny(parent.constraints.allowedZones.value, z) then
      Failure(ZoneOutsideParent)
    else Success(Limits(o.maxForce, o.maxVelocity, o.allowedZones))
  }

  /** The optional narrowing of the action or purpose list. */
  function NarrowList(given: Option<seq<string>>, parent: seq<string>): Result<seq<string>, AttenuationError> {
    match given
    case None => Success(parent)
    case Some(s) =>
      if s == [] || !NonEmptyStrings(s) then Failure(InvalidList)
      else if !Subset(s, parent) then Failure(ListWidened)
      else Success(s)
  }

  function NarrowTarget(given: Option<string>, parent: string): Result<string, AttenuationError> {
    match given
    case None => Success(parent)
    case Some(t) =>
      if Blank(t) then Failure(BlankTarget)
      else if t != parent && !Matches(parent, t) then Failure(TargetOutsideParent)
      else Success(t)
  }

  /** The delegation members of a child. */
  datatype Delegation = Delegation(delegate: Option<string>, depth: int, allowed: bool, maxDepth: int, requestDigest: string)

  function Delegate(names: Naming, parent: Capability, o: Options, target: string, actions: seq<string>, purposes: seq<string>)
    : Result<Delegation, AttenuationError>
  {
    match o.delegateAgent
    case None =>
      Success(Delegation(parent.delegateAgent, parent.delegationDepth, parent.delegationAllowed,
                         parent.maxDelegationDepth, parent.requestDigest))
    case Some(delegate) =>
      if Blank(delegate) then Failure(InvalidDelegate)
      else if delegate == parent.agent then Failure(DelegateIsPrincipal)
      else if !parent.delegationAllowed then Failure(DelegationNotAllowed)
      else if parent.delegationDepth >= parent.maxDelegationDepth then Failure(DelegationDepthReached)
      else if o.delegateRequest.None? then Failure(DelegateRequestMissing)
      else
        var request := o.delegateRequest.value;
        if request.agent != delegate then Failure(DelegateRequestAgent)
        else if !Matches(target, request.target) then Failure(DelegateRequestTarget)
        else if request.action !in actions then Failure(DelegateRequestAction)
        else if request.purpose !in purposes then Failure(DelegateRequestPurpose)
        else Success(Delegation(o.delegateAgent, parent.delegationDepth + 1, false, 0, names.requestDigest(request)))
  }

  /** `attenuate_capability` at instant `now` with a fresh `nonce`. */
  function Attenuate(names: Naming, parent: Capability, o: Options, now: int, nonce: string): Result<Capability, AttenuationError> {
    if !SupportedParent(parent) then Failure(UnsupportedParent)
    else if o.agent.Some? && o.agent.value != parent.agent then Failure(CrossAgent)
    else if !UsableScope(parent) then Failure(InvalidParentScope)
    else
      match NarrowTarget(o.target, parent.target)
      case Failure(e) => Failure(e)
      case Success(target) =>
      match NarrowList(o.actions, parent.actions)
      case Failure(e) => Failure(e)
      case Success(actions) =>
      match NarrowList(o.purposes, parent.purposes)
      case Failure(e) => Failure(e)
      case Success(purposes) =>
      match NarrowTime(parent, o.ttlSeconds, now)
      case Failure(e) => Failure(e)
      case Success((notBefore, expiresAt)) =>
      match NarrowConstraints(parent, o)
      case Failure(e) => Failure(e)
      case Success(limits) =>
      if !DepthsInRange(parent) || (parent.delegateAgent.Some? && parent.delegateAgent.value == "") then
        Failure(InvalidParentDelegation)
      else
        match Delegate(names, parent, o, target, actions, purposes)
        case Failure(e) => Failure(e)
        case Success(d) =>
        if o.delegateAgent.Some? && parent.delegateAllowlist.Some? && parent.delegateAllowlist.value != []
           && !MatchesAny(parent.delegateAllowlist.value, o.delegateAgent.value) then
          Failure(DelegateNotListed)
        else if !(0 <= parent.approvalTier <= 2) then Failure(InvalidParentTier)
        else Success(Child(names, parent, target, actions, purposes, notBefore, expiresAt, limits, d, nonce))
  }

  method ZonesInside(patterns: seq<string>, zones: seq<string>) returns (inside: bool)
    ensures inside <==> forall z :: z in zones ==> MatchesAny(patterns, z)
  {
    for i := 0 to |zones|
      invariant forall j :: 0 <= j < i ==> MatchesAny(patterns, zones[j])
    {
      if !MatchesAny(patterns, zones[i]) { return false; }
    }
    inside := true;
  }

  /** `_narrow_constraints` as it runs: the limits are entered one after another, the zones checked one by one. */
  method FillLimits(parent: Capability, o: Options) returns (r: Result<Limits, AttenuationError>)
    ensures r == NarrowConstraints(parent, o)
  {
    var child := NO_LIMITS;
    if o.maxForce.Some? {
      if !LimitAccepted(o.maxForce, parent.constraints.maxForce) { return Failure(ForceRaised); }
      child := child.(maxForce := o.maxForce);
    }
    if o.maxVelocity.Some? {
      if !LimitAccepted(o.maxVelocity, parent.constraints.maxVelocity) { return Failure(VelocityRaised); }
      child := child.(maxVelocity := o.maxVelocity);
    }
    if o.allowedZones.Some? {
      var zones := o.allowedZones.value;
      if zones == [] || exists z :: z in zones && Blank(z) { return Failure(InvalidZones); }
      if parent.constraints.allowedZones.Some? {
        var inside := ZonesInside(parent.constraints.allowedZones.value, zones);
        if !inside { return Failure(ZoneOutsideParent); }
      }
      child := child.(allowedZones := o.allowedZones);
    }
    r := Success(child);
  }

  /** The child's body with its content id. */
  function Child(names: Naming, parent: Capability, target: string, actions: seq<string>, purposes: seq<string>,
                 notBefore: int, expiresAt: int, limits: Limits, d: Delegation, nonce: string): Capability
  {
    var body := Capability(
      CAPABILITY_TYPE, if parent.Scoped() then parent.version else "0.2",
      parent.issuer, parent.agent, target, actions, purposes, d.requestDigest, parent.policyDigest,
      parent.matchedPolicyIds, parent.obligations, notBefore, notBefore, expiresAt, nonce,
      Some(parent.capabilityId), limits, parent.approvalTier, d.allowed, d.maxDepth, d.delegate, d.depth,
      parent.delegateAllowlist, Some(parent.RootOf()), "");
    body.(capabilityId := names.capabilityId(body))
  }

  /** What a returned child carries: everything as asked for, and the rest as the parent has it. */
  predicate AsAsked(names: Naming, child: Capability, parent: Capability, o: Options, now: int) {
    && UsableParent(parent) && DepthsInRange(parent) && SameOrigin(child, parent)
    && child.target == o.target.GetOr(parent.target)
    && child.actions == o.actions.GetOr(parent.actions) && child.purposes == o.purposes.GetOr(parent.purposes)
    && child.constraints == Limits(o.maxForce, o.maxVelocity, o.allowedZones)
    && child.obligations == parent.obligations && child.matchedPolicyIds == parent.matchedPolicyIds
    && child.issuedAt == child.notBefore == now && 1 * MICROS <= child.expiresAt - now <= 300 * MICROS
    && child.delegateAgent == (if o.delegateAgent.Some? then o.delegateAgent else parent.delegateAgent)
    && child.Shaped() && child.capabilityId == names.capabilityId(child.(capabilityId := ""))
    && ScopeNarrowed(Matches, child, parent) && LifetimeWithin(child, parent)
  }

  /** Its delegation members, with and without a new delegate. */
  predicate HandedOn(names: Naming, child: Capability, parent: Capability, o: Options) {
    && (o.delegateAgent.None? ==>
          && child.delegationDepth == parent.delegationDepth && child.requestDigest == parent.requestDigest
          && child.maxDelegationDepth == parent.maxDelegationDepth
          && child.delegationAllowed == parent.delegationAllowed)
    && (o.delegateAgent.Some? ==>
          && parent.delegationAllowed && parent.delegationDepth < parent.maxDelegationDepth
          && child.delegationDepth == parent.delegationDepth + 1
          && !child.delegationAllowed && child.maxDelegationDepth == 0
          && o.delegateAgent.value != "" && o.delegateAgent.value != parent.agent
          && o.delegateRequest.Some? && o.delegateRequest.value.agent == o.delegateAgent.value
          && child.requestDigest == names.requestDigest(o.delegateRequest.value)
          && Matches(child.target, o.delegateRequest.value.target)
          && o.delegateRequest.value.action in child.actions && o.delegateRequest.value.purpose in child.purposes
          && (parent.delegateAllowlist.Some? && parent.delegateAllowlist.value != [] ==>
                MatchesAny(parent.delegateAllowlist.value, o.delegateAgent.value)))
  }

  lemma GeneratedAsAsked(names: Naming, parent: Capability, o: Options, now: int, nonce: string)
    requires Attenuate(names, parent, o, now, nonce).Success?
    ensures AsAsked(names, Attenuate(names, parent, o, now, nonce).value, parent, o, now)
  {
  }

  /** The stated limits respect the parent's. */
  lemma GeneratedLimits(names: Naming, parent: Capability, o: Options, now: int, nonce: string)
    requires Attenuate(names, parent, o, now, nonce).Success?
    ensures LimitsTightened(Matches, Limits(o.maxForce, o.maxVelocity, o.allowedZones), parent.constraints)
  {
    if o.allowedZones.Some? && parent.constraints.allowedZones.Some? {
      forall z | z in o.allowedZones.value ensures AnyMatch(Matches, parent.constraints.allowedZones.value, z) {
        assert MatchesAny(parent.constraints.allowedZones.value, z);
      }
    }
  }

  lemma GeneratedDelegation(names: Naming, parent: Capability, o: Options, now: int, nonce: string)
    requires Attenuate(names, parent, o, now, nonce).Success?
    ensures HandedOn(names, Attenuate(names, parent, o, now, nonce).value, parent, o)
  {
  }

  /** `attenuate_capability` as it runs, check by check. */
  method AttenuateCapability(names: Naming, parent: Capability, o: Options, now: int, nonce: string)
    returns (r: Result<Capability, AttenuationError>)
    ensures r == Attenuate(names, parent, o, now, nonce)
    ensures r.Success? ==> AsAsked(names, r.value, parent, o, now) && HandedOn(names, r.value, parent, o)
    ensures r.Success? ==> LimitsTightened(Matches, r.value.constraints, parent.constraints)
    ensures r.Success? ==>
      (VerifyAttenuation(r.value, parent) <==> !(o.delegateAgent.Some? && o.delegateAgent == parent.delegateAgent))
  {
    if Attenuate(names, parent, o, now, nonce).Success? {
      GeneratedAsAsked(names, parent, o, now, nonce);
      GeneratedLimits(names, parent, o, now, nonce);
      GeneratedDelegation(names, parent, o, now, nonce);
      GeneratorMeetsVerifier(names, parent, o, now, nonce);
    }
    if !SupportedParent(parent) { return Failure(UnsupportedParent); }
    if o.agent.Some? && o.agent.value != parent.agent { return Failure(CrossAgent); }
    if !UsableScope(parent) { return Failure(InvalidParentScope); }
    var target := NarrowTarget(o.target, parent.target);
    if target.Failure? { return Failure(target.error); }
    var actions := NarrowList(o.actions, parent.actions);
    if actions.Failure? { return Failure(actions.error); }
    var purposes := NarrowList(o.purposes, parent.purposes);
    if purposes.Failure? { return Failure(purposes.error); }
    var window := NarrowTime(parent, o.ttlSeconds, now);
    if window.Failure? { return Failure(window.error); }
    var limits := FillLimits(parent, o);
    if limits.Failure? { return Failure(limits.error); }
    if !DepthsInRange(parent) || parent.delegateAgent == Some("") { return Failure(InvalidParentDelegation); }
    var d := Delegate(names, parent, o, target.value, actions.value, purposes.value);
    if d.Failure? { return Failure(d.error); }
    if o.delegateAgent.Some? && parent.delegateAllowlist.Some? && parent.delegateAllowlist.value != [] {
      if !MatchesAny(parent.delegateAllowlist.value, o.delegateAgent.value) { return Failure(DelegateNotListed); }
    }
    if !(0 <= parent.approvalTier <= 2) { return Failure(InvalidParentTier); }
    r := Success(Child(names, parent, target.value, actions.value, purposes.value, window.value.0, window.value.1,
                       limits.value, d.value, nonce));
  }

  /** What the generator insists on of a parent and the verifier does not look at. */
  predicate WellFormedParent(parent: Capability) {
    0 <= parent.approvalTier <= 2 && parent.delegateAgent != Some("")
  }

  const AS_IS := Options(None, None, None, None, None, None, None, None, None, None)

  /** Asking for nothing narrower succeeds exactly while a whole second of the parent's lifetime is left. */
  lemma UnchangedAttenuation(names: Naming, parent: Capability, now: int, nonce: string)
    requires UsableParent(parent) && DepthsInRange(parent) && WellFormedParent(parent)
    ensures Attenuate(names, parent, AS_IS, now, nonce).Success?
        <==> parent.notBefore <= now && now + MICROS <= parent.expiresAt
  {
    var left := parent.expiresAt - now;
    if left >= MICROS { assert left / MICROS * MICROS <= left; }
  }

  // ---- generator meets verifier ----

  /**
   The verifier accepts what the generator returns, except in one case: the caller
   delegates to the agent the parent is already delegated to. The verifier then sees
   no change of delegate and objects to the increased depth.
   */
  lemma GeneratorMeetsVerifier(names: Naming, parent: Capability, o: Options, now: int, nonce: string)
    requires Attenuate(names, parent, o, now, nonce).Success?
    ensures VerifyAttenuation(Attenuate(names, parent, o, now, nonce).value, parent)
        <==> !(o.delegateAgent.Some? && o.delegateAgent == parent.delegateAgent)
  {
    var child := Attenuate(names, parent, o, now, nonce).value;
    GeneratedAsAsked(names, parent, o, now, nonce);
    GeneratedLimits(names, parent, o, now, nonce);
    GeneratedDelegation(names, parent, o, now, nonce);
    VerifyParts(child, parent);
  }

  /** A capability of agent `a`, already delegated to `b`, that says it may be delegated further. */
  function OnceDelegated(now: int): Capability {
    Capability(CAPABILITY_TYPE, "0.2", "i", "a", "t", ["x"], ["p"], "", "", ["q"], [], now, now, now + 60 * MICROS, "n",
               None, NO_LIMITS, 0, true, 3, Some("b"), 1, None, Some("r"), "c")
  }

  /** The exception occurs: delegated to `b` once more, it yields a child the verifier rejects. */
  lemma SecondDelegationRejected(names: Naming, now: int, nonce: string)
    ensures var o := AS_IS.(delegateAgent := Some("b"), delegateRequest := Some(Request("r", "b", "t", "x", "p", now, map[])));
      var r := Attenuate(names, OnceDelegated(now), o, now, nonce);
      r.Success? && !VerifyAttenuation(r.value, OnceDelegated(now))
  {
    var parent := OnceDelegated(now);
    var o := AS_IS.(delegateAgent := Some("b"), delegateRequest := Some(Request("r", "b", "t", "x", "p", now, map[])));
    LiteralMatches("t", "t");
    assert !IsSpace("t"[0]) && !IsSpace("b"[0]) && "x" in parent.actions && "p" in parent.purposes;
    UnchangedAttenuation(names, parent, now, nonce);
    assert Attenuate(names, parent, o, now, nonce).Success?;
    GeneratorMeetsVerifier(names, parent, o, now, nonce);
  }

  /** `VerifyAttenuation` with everything but the delegation step known. */
  lemma VerifyParts(child: Capability, parent: Capability)
    requires UsableParent(parent) && SameOrigin(child, parent) && ScopeNarrowed(Matches, child, parent)
    requires LifetimeWithin(child, parent)
    requires LimitsTightened(Matches, child.constraints, parent.constraints)
    ensures VerifyAttenuation(child, parent) <==> DelegationStep(Matches, child, parent)
  {
  }

  /** The options that ask for `c`; `request` is the delegate's, where `c` hands over. */
  function OptionsFor(c: Capability, parent: Capability, request: Option<Request>): Options {
    Options(None, Some(c.actions), Some(c.target), Some(c.purposes), Some((c.expiresAt - c.notBefore) / MICROS),
            c.constraints.maxForce, c.constraints.maxVelocity, c.constraints.allowedZones,
            if c.delegateAgent == parent.delegateAgent then None else c.delegateAgent, request)
  }

  /** What the generator insists on and the verifier does not look at. */
  predicate WellFormedChild(c: Capability) {
    && (c.expiresAt - c.notBefore) % MICROS == 0 && MICROS <= c.expiresAt - c.notBefore <= 300 * MICROS
    && !Blank(c.target) && NonNegative(c.constraints.maxForce) && NonNegative(c.constraints.maxVelocity)
    && (c.constraints.allowedZones.Some? ==>
          c.constraints.allowedZones.value != [] && forall z :: z in c.constraints.allowedZones.value ==> !Blank(z))
  }

  /** A request of the new delegate's within the child's scope. */
  predicate DelegateRequest(c: Capability, request: Option<Request>) {
    && request.Some? && c.delegateAgent == Some(request.value.agent) && !Blank(request.value.agent)
    && Matches(c.target, request.value.target)
    && request.value.action in c.actions && request.value.purpose in c.purposes
  }

  lemma LimitsNarrowable(c: Capability, parent: Capability, request: Option<Request>)
    requires WellFormedChild(c) && LimitsTightened(Matches, c.constraints, parent.constraints)
    ensures NarrowConstraints(parent, OptionsFor(c, parent, request)) == Success(c.constraints)
  {
    if c.constraints.allowedZones.Some? && parent.constraints.allowedZones.Some? {
      forall z | z in c.constraints.allowedZones.value ensures MatchesAny(parent.constraints.allowedZones.value, z) {
        assert AnyMatch(Matches, parent.constraints.allowedZones.value, z);
      }
    }
  }

  lemma ScopeNarrowable(c: Capability, parent: Capability)
    requires UsableParent(parent) && WellFormedChild(c) && ScopeNarrowed(Matches, c, parent) && LifetimeWithin(c, parent)
    ensures NarrowTarget(Some(c.target), parent.target) == Success(c.target)
    ensures NarrowList(Some(c.actions), parent.actions) == Success(c.actions)
    ensures NarrowList(Some(c.purposes), parent.purposes) == Success(c.purposes)
    ensures NarrowTime(parent, Some((c.expiresAt - c.notBefore) / MICROS), c.notBefore) == Success((c.notBefore, c.expiresAt))
  {
    forall i | 0 <= i < |c.actions| ensures c.actions[i] != "" { assert c.actions[i] in parent.actions; }
    forall i | 0 <= i < |c.purposes| ensures c.purposes[i] != "" { assert c.purposes[i] in parent.purposes; }
  }

  /**
   And the generator refuses nothing the verifier accepts: every verified child that is
   well formed can be asked for, and comes back with the same scope, lifetime, limits and delegation.
   */
  lemma {:induction false} VerifierMeetsGenerator(names: Naming, c: Capability, parent: Capability, request: Option<Request>, nonce: string)
    requires VerifyAttenuation(c, parent) && WellFormedChild(c) && WellFormedParent(parent)
    requires c.delegateAgent != parent.delegateAgent ==> DelegateRequest(c, request)
    ensures var r := Attenuate(names, parent, OptionsFor(c, parent, request), c.notBefore, nonce);
      && r.Success? && SameOrigin(r.value, parent)
      && r.value.target == c.target && r.value.actions == c.actions && r.value.purposes == c.purposes
      && r.value.notBefore == c.notBefore && r.value.expiresAt == c.expiresAt && r.value.constraints == c.constraints
      && r.value.delegateAgent == c.delegateAgent && r.value.delegationDepth == c.delegationDepth
  {
    LimitsNarrowable(c, parent, request);
    ScopeNarrowable(c, parent);
    if c.delegateAgent != parent.delegateAgent && parent.delegateAllowlist.Some? && parent.delegateAllowlist.value != [] {
      assert AnyMatch(Matches, parent.delegateAllowlist.value, c.delegateAgent.value);
      assert MatchesAny(parent.delegateAllowlist.value, c.delegateAgent.value);
    }
  }

  // ---- the two verifiers ----

  predicate AllStarOnly(patterns: Option<seq<string>>) {
    patterns.Some? ==> forall p :: p in patterns.value ==> StarOnly(p)
  }

  /** The parent's patterns are literal characters and `*`. */
  predicate StarPatterns(parent: Capability) {
    StarOnly(parent.target) && AllStarOnly(parent.delegateAllowlist) && AllStarOnly(parent.constraints.allowedZones)
  }

  /** What is matched against them has no line breaks. */
  predicate OneLineValues(child: Capability) {
    && OneLine(child.target) && (child.delegateAgent.Some? ==> OneLine(child.delegateAgent.value))
    && (child.constraints.allowedZones.Some? ==> forall z :: z in child.constraints.allowedZones.value ==> OneLine(z))
  }

  lemma AnyMatchAgrees(patterns: seq<string>, value: string)
    requires AllStarOnly(Some(patterns)) && OneLine(value)
    ensures AnyMatch(JsMatches, patterns, value) <==> AnyMatch(Matches, patterns, value)
  {
    forall p | p in patterns ensures JsMatches(p, value) == Matches(p, value) { MatchersAgree(p, value); }
  }

  lemma DelegationAgrees(child: Capability, parent: Capability)
    requires StarPatterns(parent) && OneLineValues(child)
    ensures DelegationStep(JsMatches, child, parent) <==> DelegationStep(Matches, child, parent)
  {
    if parent.delegateAllowlist.Some? && child.delegateAgent.Some? {
      AnyMatchAgrees(parent.delegateAllowlist.value, child.delegateAgent.value);
    }
  }

  lemma LimitsAgree(child: Capability, parent: Capability)
    requires StarPatterns(parent) && OneLineValues(child)
    ensures LimitsTightened(JsMatches, child.constraints, parent.constraints)
        <==> LimitsTightened(Matches, child.constraints, parent.constraints)
  {
    if child.constraints.allowedZones.Some? && parent.constraints.allowedZones.Some? {
      forall z | z in child.constraints.allowedZones.value
        ensures AnyMatch(JsMatches, parent.constraints.allowedZones.value, z)
            <==> AnyMatch(Matches, parent.constraints.allowedZones.value, z)
      {
        AnyMatchAgrees(parent.constraints.allowedZones.value, z);
      }
    }
  }

  /** The capability with its lifetime as the browser reads it. */
  function InMilliseconds(c: Capability): Capability {
    c.(notBefore := Milliseconds(c.notBefore) * 1000, expiresAt := Milliseconds(c.expiresAt) * 1000)
  }

  /**
   On star-only patterns, one-line values and a scoped parent without blanks, the
   browser accepts exactly what Python would accept of the same two capabilities with
   their lifetimes cut to whole milliseconds, but for negative limits, which only it
   rejects. So it rejects nothing else that Python accepts, and the two agree wherever
   the cut does not decide.
   */
  lemma VerifiersAgree(child: Capability, parent: Capability)
    requires StarPatterns(parent) && OneLineValues(child)
    requires parent.Scoped() && !Blank(parent.target) && NonEmptyStrings(parent.actions) && NonEmptyStrings(parent.purposes)
    ensures JsVerifyAttenuation(child, parent) <==>
      && VerifyAttenuation(InMilliseconds(child), InMilliseconds(parent))
      && NonNegative(child.constraints.maxForce) && NonNegative(child.constraints.maxVelocity)
    ensures VerifyAttenuation(child, parent) ==> VerifyAttenuation(InMilliseconds(child), InMilliseconds(parent))
    ensures (JsLifetimeWithin(child, parent) <==> LifetimeWithin(child, parent)) ==>
      (VerifyAttenuation(InMilliseconds(child), InMilliseconds(parent)) <==> VerifyAttenuation(child, parent))
  {
    MatchersAgree(parent.target, child.target);
    DelegationAgrees(child, parent);
    LimitsAgree(child, parent);
    CutLifetimes(child, parent);
    if ScopeNarrowed(JsMatches, child, parent) || ScopeNarrowed(Matches, child, parent) {
      assert child.matchedPolicyIds[0] in parent.matchedPolicyIds;
    }
  }

  /** Nothing but the lifetime check depends on the cut. */
  lemma CutLifetimes(child: Capability, parent: Capability)
    ensures var c, p := InMilliseconds(child), InMilliseconds(parent);
      && (VerifyAttenuation(c, p) <==>
            && UsableParent(parent) && SameOrigin(child, parent) && ScopeNarrowed(Matches, child, parent)
            && DelegationStep(Matches, child, parent) && LimitsTightened(Matches, child.constraints, parent.constraints)
            && JsLifetimeWithin(child, parent))
    ensures LifetimeWithin(child, parent) ==> JsLifetimeWithin(child, parent)
  {
    var c, p := InMilliseconds(child), InMilliseconds(parent);
    assert DelegationStep(Matches, c, p) <==> DelegationStep(Matches, child, parent);
    assert LifetimeWithin(c, p) <==> JsLifetimeWithin(child, parent);
  }

  /**
   The two lifetime checks agree for every child exactly when the parent begins on a
   millisecond and ends on the last microsecond of one.
   */
  lemma LifetimeChecksAgree(parent: Capability)
    ensures (forall child :: JsLifetimeWithin(child, parent) <==> LifetimeWithin(child, parent)) <==>
      parent.notBefore % 1000 == 0 && parent.expiresAt % 1000 == 999
  {
    if parent.notBefore % 1000 != 0 {
      var early := parent.(notBefore := parent.notBefore - 1);
      assert JsLifetimeWithin(early, parent) && !LifetimeWithin(early, parent);
    }
    if parent.expiresAt % 1000 != 999 {
      var late := parent.(expiresAt := parent.expiresAt + 1);
      assert JsLifetimeWithin(late, parent) && !LifetimeWithin(late, parent);
    }
  }

  /** They agree on lifetimes of whole milliseconds. */
  lemma WholeLifetimesAgree(child: Capability, parent: Capability)
    requires child.notBefore % 1000 == 0 && child.expiresAt % 1000 == 0
    requires parent.notBefore % 1000 == 0 && parent.expiresAt % 1000 == 0
    ensures JsLifetimeWithin(child, parent) <==> LifetimeWithin(child, parent)
  {
  }

  /** A child that begins before its parent but in the same millisecond passes in the browser only. */
  lemma EarlyChildAccepted(child: Capability, parent: Capability)
    requires VerifyAttenuation(child, parent) && JsVerifyAttenuation(child, parent) && parent.notBefore % 1000 != 0
    ensures var early := child.(notBefore := parent.notBefore - 1);
      JsVerifyAttenuation(early, parent) && !VerifyAttenuation(early, parent)
  {
    var early := child.(notBefore := parent.notBefore - 1);
    assert Milliseconds(early.notBefore) == Milliseconds(parent.notBefore);
    assert DelegationStep(JsMatches, early, parent) <==> DelegationStep(JsMatches, child, parent);
  }

  /** A child that outlives its parent by less than the rest of a millisecond passes in the browser only. */
  lemma OutlivingChildAccepted(child: Capability, parent: Capability)
    requires VerifyAttenuation(child, parent) && JsVerifyAttenuation(child, parent) && parent.expiresAt % 1000 != 999
    ensures var late := child.(expiresAt := parent.expiresAt + 1);
      JsVerifyAttenuation(late, parent) && !VerifyAttenuation(late, parent)
  {
    var late := child.(expiresAt := parent.expiresAt + 1);
    assert Milliseconds(late.expiresAt) == Milliseconds(parent.expiresAt);
    assert DelegationStep(JsMatches, late, parent) <==> DelegationStep(JsMatches, child, parent);
  }

  /** One step of issuing: a root, or a child of some earlier capability. */
  datatype Issue =
    | Root(request: Request, decision: Decision, issue: IssueOptions, now: int, nonce: string)
    | Narrow(parent: nat, options: Options, now: int, nonce: string)

  /** Every capability `issued` came from `issue_scoped` or from attenuating an earlier one. */
  ghost predicate Reachable(names: Naming, issuer: string, steps: seq<Issue>, issued: seq<Capability>) {
    |steps| == |issued| &&
    forall i :: 0 <= i < |steps| ==>
      match steps[i]
      case Root(request, decision, issue, now, nonce) =>
        IssueScoped(names, issuer, request, decision, issue, now, nonce) == Success(issued[i])
      case Narrow(parent, options, now, nonce) =>
        parent < i && Attenuate(names, issued[parent], options, now, nonce) == Success(issued[i])
  }

  /** A delegated capability cannot delegate again; a reachable one has a root and the scoped form. */
  predicate ReachableShape(c: Capability) {
    (c.delegateAgent.Some? ==> !c.delegationAllowed) && c.Scoped()
  }

  lemma IssuedShape(names: Naming, issuer: string, request: Request, decision: Decision, o: IssueOptions, now: int, nonce: string)
    requires IssueScoped(names, issuer, request, decision, o, now, nonce).Success?
    ensures ReachableShape(IssueScoped(names, issuer, request, decision, o, now, nonce).value)
  {
  }

  lemma AttenuatedShape(names: Naming, parent: Capability, o: Options, now: int, nonce: string)
    requires ReachableShape(parent) && Attenuate(names, parent, o, now, nonce).Success?
    ensures ReachableShape(Attenuate(names, parent, o, now, nonce).value)
  {
    GeneratedAsAsked(names, parent, o, now, nonce);
    GeneratedDelegation(names, parent, o, now, nonce);
  }

  lemma {:induction false} ReachableCapabilities(names: Naming, issuer: string, steps: seq<Issue>, issued: seq<Capability>, i: nat)
    requires Reachable(names, issuer, steps, issued) && i < |issued|
    ensures ReachableShape(issued[i])
  {
    match steps[i]
    case Root(request, decision, issue, now, nonce) => IssuedShape(names, issuer, request, decision, issue, now, nonce);
    case Narrow(parent, options, now, nonce) =>
      ReachableCapabilities(names, issuer, steps, issued, parent);
      AttenuatedShape(names, issued[parent], options, now, nonce);
  }

  /** Whatever can be derived from a reachable parent passes the independent verifier. */
  lemma {:induction false} ReachableChildrenVerify(names: Naming, issuer: string, steps: seq<Issue>, issued: seq<Capability>, i: nat,
                                o: Options, now: int, nonce: string)
    requires Reachable(names, issuer, steps, issued) && i < |issued|
    ensures var r := Attenuate(names, issued[i], o, now, nonce); r.Success? ==> VerifyAttenuation(r.value, issued[i])
  {
    ReachableCapabilities(names, issuer, steps, issued, i);
    if Attenuate(names, issued[i], o, now, nonce).Success? {
      GeneratedDelegation(names, issued[i], o, now, nonce);
      GeneratorMeetsVerifier(names, issued[i], o, now, nonce);
    }
  }
}
