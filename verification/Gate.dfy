/**
 The action gate (gate.py): every check on a presented capability, then its
 one-time consumption. The gate compares lifetimes with the instant it is called
 at; the replay store evicts by clock readings of its own.
 */
module Gate {
  import opened Wrappers
  import opened Canonical
  import opened Crypto
  import opened Glob
  import opened Models
  import opened Capabilities
  import opened Attenuation
  import opened DelegationChain
  import opened Receipts
  import opened ReplayStores
  import opened Revocation

  type SignedCapability = Envelope<Capability>

  datatype GateError =
    | BadEnvelope(cause: EnvelopeError)
    | FieldsMismatch | UnsupportedVersion | WrongType | IssuerNotSigner | UntrustedIssuer | ForeignRequest
    | AgentMismatch | DelegateMismatch | TargetMismatch | ActionMismatch | PurposeMismatch
    | ParentNotAllowed | BadParentEnvelope | NotAnAttenuation
    | InvalidWindow | LifetimeTooLong | NotActiveYet | Expired
    | InvalidNonce | NoPolicy | InvalidPolicies | InvalidObligations | InvalidPolicyDigest
    | CapabilityRevoked | InconsistentId | Replay
    | InvalidField(field: FieldError)

  /** Violations `_validate_v2_fields` reports. */
  datatype FieldError =
    | ParentIdField | ForceField | VelocityField | ZonesField | TierField | MaxDepthField | DepthField | DepthExceeded
    | DelegateField | RootIdField | AllowlistField | ActionsField | PurposesField

  /** What a gate is configured with and does not change. */
  datatype Settings = Settings(
    keys: Signatures,
    names: Naming,
    render: Capability -> Json,
    trustedIssuers: set<string>)

  function FieldViolation(c: Capability): Option<FieldError> {
    if c.parentId == Some("") then Some(ParentIdField)
    else if !NonNegative(c.constraints.maxForce) then Some(ForceField)
    else if !NonNegative(c.constraints.maxVelocity) then Some(VelocityField)
    else if c.constraints.allowedZones.Some?
            && (c.constraints.allowedZones.value == [] || !NonEmptyStrings(c.constraints.allowedZones.value)) then
      Some(ZonesField)
    else if !(0 <= c.approvalTier <= 2) then Some(TierField)
    else if !(0 <= c.maxDelegationDepth <= 3) then Some(MaxDepthField)
    else if !(0 <= c.delegationDepth <= 3) then Some(DepthField)
    else if c.delegationAllowed && c.delegationDepth > c.maxDelegationDepth then Some(DepthExceeded)
    else if c.delegateAgent == Some("") then Some(DelegateField)
    else if c.rootId.None? || c.rootId.value == "" then Some(RootIdField)
    else if c.delegateAllowlist.Some? && !NonEmptyStrings(c.delegateAllowlist.value) then Some(AllowlistField)
    else if c.actions == [] || !NonEmptyStrings(c.actions) then Some(ActionsField)
    else if c.purposes == [] || !NonEmptyStrings(c.purposes) then Some(PurposesField)
    else None
  }

  function SchemaViolation(c: Capability): Option<GateError> {
    if c.version == "0.1" then if c.Shaped() then None else Some(FieldsMismatch)
    else if c.Scoped() then
      match FieldViolation(c)
      case Some(e) => Some(InvalidField(e))
      case None => None
    else Some(UnsupportedVersion)
  }

  /** The exact triple of a 0.1 capability, or the scope of a later one. */
  function ScopeViolation(c: Capability, r: Request): Option<GateError> {
    if !c.Scoped() then
      if c.agent != r.agent then Some(AgentMismatch)
      else if c.target != r.target then Some(TargetMismatch)
      else if c.actions != [r.action] then Some(ActionMismatch)
      else if c.purposes != [r.purpose] then Some(PurposeMismatch)
      else None
    else if c.delegateAgent.None? && c.agent != r.agent then Some(AgentMismatch)
    else if c.delegateAgent.Some? && r.agent != c.delegateAgent.value then Some(DelegateMismatch)
    else if !Matches(c.target, r.target) then Some(TargetMismatch)
    else if r.action !in c.actions then Some(ActionMismatch)
    else if r.purpose !in c.purposes then Some(PurposeMismatch)
    else None
  }

  /** A presented parent; only version 0.2 may present one. */
  function ParentViolation(s: Settings, c: Capability, parent: Option<SignedCapability>): Option<GateError> {
    if parent.None? then None
    else if c.version != "0.2" then Some(ParentNotAllowed)
    else if VerifyEnvelope(s.keys, s.render, parent.value).Failure? then Some(BadParentEnvelope)
    else if !VerifyAttenuation(c, parent.value.payload) then Some(NotAnAttenuation)
    else None
  }

  const MAX_LIFETIME: int := 300 * MICROS

  function WindowViolation(c: Capability, now: int): Option<GateError> {
    if c.notBefore < c.issuedAt || c.expiresAt <= c.notBefore then Some(InvalidWindow)
    else if c.expiresAt - c.notBefore > MAX_LIFETIME then Some(LifetimeTooLong)
    else if now < c.notBefore then Some(NotActiveYet)
    else if c.expiresAt <= now then Some(Expired)
    else None
  }

  function EvidenceViolation(c: Capability): Option<GateError> {
    if |c.nonce| < 20 then Some(InvalidNonce)
    else if c.matchedPolicyIds == [] then Some(NoPolicy)
    else if !NonEmptyStrings(c.matchedPolicyIds) then Some(InvalidPolicies)
    else if exists o :: o in c.obligations && !KnownObligation(o) then Some(InvalidObligations)
    else if !IsDigest(c.policyDigest) then Some(InvalidPolicyDigest)
    else None
  }

  /** Either the capability itself or the root of its chain is revoked. */
  predicate ChainRevoked(revoked: Revoked, c: Capability) {
    IsRevoked(revoked, Some(c.capabilityId)) || IsRevoked(revoked, c.rootId)
  }

  function IdentityViolation(s: Settings, revoked: Option<Revoked>, c: Capability): Option<GateError> {
    if revoked.Some? && ChainRevoked(revoked.value, c) then Some(CapabilityRevoked)
    else if c.capabilityId != s.names.capabilityId(c) then Some(InconsistentId)
    else None
  }

  function OriginViolation(s: Settings, e: SignedCapability, r: Request): Option<GateError> {
    if e.payload.typ != CAPABILITY_TYPE then Some(WrongType)
    else if e.payload.issuer != e.kid then Some(IssuerNotSigner)
    else if e.payload.issuer !in s.trustedIssuers then Some(UntrustedIssuer)
    else if e.payload.requestDigest != s.names.requestDigest(r) then Some(ForeignRequest)
    else None
  }

  function First(a: Option<GateError>, b: Option<GateError>): Option<GateError> {
    if a.Some? then a else b
  }

  /** Everything `authorize` checks before it consumes, in its order. */
  function Violation(s: Settings, revoked: Option<Revoked>, e: SignedCapability, r: Request, now: int,
                     parent: Option<SignedCapability>): Option<GateError>
  {
    match VerifyEnvelope(s.keys, s.render, e)
    case Failure(cause) => Some(BadEnvelope(cause))
    case Success(c) =>
      First(SchemaViolation(c),
      First(OriginViolation(s, e, r),
      First(ScopeViolation(c, r),
      First(ParentViolation(s, c, parent),
      First(WindowViolation(c, now),
      First(EvidenceViolation(c), IdentityViolation(s, revoked, c)))))))
  }

  function ConsumptionOf(c: Capability, clock: Clock): Consumption {
    Consumption(c.capabilityId, c.expiresAt, clock)
  }

  /** `authorize` as a function of the store's entries: the outcome, and the entries afterwards. */
  function Authorization(s: Settings, revoked: Option<Revoked>, entries: map<string, int>, e: SignedCapability, r: Request,
                         now: int, clock: Clock, parent: Option<SignedCapability>): Result<Verified, GateError>
  {
    match Violation(s, revoked, e, r, now, parent)
    case Some(error) => Failure(error)
    case None =>
      if Consumable(entries, ConsumptionOf(e.payload, clock)) then Success(Verified(e.payload, now)) else Failure(Replay)
  }

  function StoreAfter(s: Settings, revoked: Option<Revoked>, entries: map<string, int>, e: SignedCapability, r: Request,
                      now: int, clock: Clock, parent: Option<SignedCapability>): map<string, int>
  {
    if Violation(s, revoked, e, r, now, parent).Some? then entries else Consume(entries, ConsumptionOf(e.payload, clock))
  }

  /** What a caller may rely on once a capability has been authorized. */
  predicate Assured(s: Settings, revoked: Option<Revoked>, e: SignedCapability, r: Request, now: int,
                    parent: Option<SignedCapability>)
  {
    var c := e.payload;
    && s.keys.checks(e.alg, e.kid, s.render(c), e.signature) && c.issuer == e.kid && c.issuer in s.trustedIssuers
    && c.requestDigest == s.names.requestDigest(r) && c.capabilityId == s.names.capabilityId(c)
    && c.issuedAt <= c.notBefore <= now < c.expiresAt <= c.notBefore + MAX_LIFETIME
    && c.Shaped() && |c.nonce| >= 20 && c.matchedPolicyIds != []
    && (forall o :: o in c.obligations ==> KnownObligation(o))
    && r.agent == c.delegateAgent.GetOr(c.agent)
    && r.action in c.actions && r.purpose in c.purposes
    && (if c.Scoped() then Matches(c.target, r.target) else c.target == r.target)
    && (revoked.Some? ==> c.capabilityId !in revoked.value && (c.rootId.Some? ==> c.rootId.value !in revoked.value))
    && (parent.Some? ==> VerifyAttenuation(c, parent.value.payload))
  }

  lemma AuthorizedMeans(s: Settings, revoked: Option<Revoked>, e: SignedCapability, r: Request, now: int,
                        parent: Option<SignedCapability>)
    ensures Violation(s, revoked, e, r, now, parent).None? ==> Assured(s, revoked, e, r, now, parent)
  {
  }

  /** The members of a scoped capability are in their ranges. */
  predicate FieldsInRange(c: Capability) {
    && c.parentId != Some("") && c.delegateAgent != Some("") && c.rootId.Some? && c.rootId.value != ""
    && NonNegative(c.constraints.maxForce) && NonNegative(c.constraints.maxVelocity)
    && (c.constraints.allowedZones.Some? ==>
          c.constraints.allowedZones.value != [] && NonEmptyStrings(c.constraints.allowedZones.value))
    && 0 <= c.approvalTier <= 2 && DepthsInRange(c) && (c.delegationAllowed ==> c.delegationDepth <= c.maxDelegationDepth)
    && (c.delegateAllowlist.Some? ==> NonEmptyStrings(c.delegateAllowlist.value))
    && c.actions != [] && NonEmptyStrings(c.actions) && c.purposes != [] && NonEmptyStrings(c.purposes)
  }

  /** Signed by its trusted issuer, for this request and no other, under its own content id. */
  predicate Genuine(s: Settings, e: SignedCapability, r: Request) {
    && VerifyEnvelope(s.keys, s.render, e).Success?
    && e.payload.typ == CAPABILITY_TYPE && e.payload.issuer == e.kid && e.payload.issuer in s.trustedIssuers
    && e.payload.requestDigest == s.names.requestDigest(r) && e.payload.capabilityId == s.names.capabilityId(e.payload)
  }

  /** Of a known form, and it covers the request. */
  predicate Covers(c: Capability, r: Request) {
    if c.Scoped() then
      FieldsInRange(c) && r.agent == c.delegateAgent.GetOr(c.agent) && Admits(c, r)
    else
      && c.version == "0.1" && c.Shaped()
      && r.agent == c.agent && r.target == c.target && [r.action] == c.actions && [r.purpose] == c.purposes
  }

  predicate Live(c: Capability, now: int) {
    c.issuedAt <= c.notBefore <= now < c.expiresAt <= c.notBefore + MAX_LIFETIME
  }

  predicate BackedByPolicy(c: Capability) {
    && |c.nonce| >= 20 && c.matchedPolicyIds != [] && NonEmptyStrings(c.matchedPolicyIds)
    && (forall o :: o in c.obligations ==> KnownObligation(o)) && IsDigest(c.policyDigest)
  }

  /** A parent may come with version 0.2 only, and then the capability must attenuate it. */
  predicate ParentAttenuated(s: Settings, c: Capability, parent: Option<SignedCapability>) {
    parent.Some? ==>
      && c.version == "0.2" && VerifyEnvelope(s.keys, s.render, parent.value).Success?
      && VerifyAttenuation(c, parent.value.payload)
  }

  /** The gate finds nothing wrong exactly when all of this holds; no check masks another. */
  lemma AuthorizedIff(s: Settings, revoked: Option<Revoked>, e: SignedCapability, r: Request, now: int,
                      parent: Option<SignedCapability>)
    ensures Violation(s, revoked, e, r, now, parent).None? <==>
      && Genuine(s, e, r) && Covers(e.payload, r) && Live(e.payload, now) && BackedByPolicy(e.payload)
      && ParentAttenuated(s, e.payload, parent)
      && (revoked.Some? ==> !ChainRevoked(revoked.value, e.payload))
  {
    if VerifyEnvelope(s.keys, s.render, e).Success? {
      SchemaAndScope(e.payload, r);
      OtherChecks(e.payload, now);
    }
  }

  lemma SchemaAndScope(c: Capability, r: Request)
    ensures SchemaViolation(c).None? && ScopeViolation(c, r).None? <==> Covers(c, r)
  {
  }

  lemma OtherChecks(c: Capability, now: int)
    ensures WindowViolation(c, now).None? <==> Live(c, now)
    ensures EvidenceViolation(c).None? <==> BackedByPolicy(c)
  {
  }

  /** The gate's checks of target, action and purpose: exact for a 0.1 capability, by pattern and list for a scoped one. */
  predicate ScopeAdmits(c: Capability, r: Request) {
    if c.Scoped() then Admits(c, r) else c.target == r.target && c.actions == [r.action] && c.purposes == [r.purpose]
  }

  /**
   What the gate admits for the leaf of a verified chain it admits for the root too,
   exactly unless the root is unscoped and its target, read as a pattern on the way
   down, is not the request's target itself.
   */
  lemma LeafScopeWithinRoot(chain: seq<Capability>, r: Request)
    requires DelegationChain.Verified(chain) && SoundTargets(chain) && chain[0].Shaped()
    requires ScopeAdmits(chain[|chain| - 1], r)
    ensures ScopeAdmits(chain[0], r) <==> chain[0].Scoped() || chain[0].target == r.target
    ensures Literal(chain[0].target) ==> ScopeAdmits(chain[0], r)
  {
    var root := chain[0];
    if Literal(root.target) { LiteralMatches(root.target, r.target); }
    if |chain| > 1 {
      assert VerifyAttenuation(chain[|chain| - 1], chain[|chain| - 2]);
      LeafWithinRoot(chain, r);
    }
    if !root.Scoped() {
      assert root.actions == [root.actions[0]] && root.purposes == [root.purposes[0]];
    }
  }

  class ActionGate {
    const settings: Settings
    const store: InMemoryReplayStore
    const revocations: RevocationList?

    constructor (settings: Settings, store: InMemoryReplayStore, revocations: RevocationList?)
      ensures this.settings == settings && this.store == store && this.revocations == revocations
    {
      this.settings, this.store, this.revocations := settings, store, revocations;
    }

    function RevokedNow(): Option<Revoked>
      reads revocations
    {
      if revocations == null then None else Some(revocations.entries)
    }

    method Authorize(e: SignedCapability, r: Request, now: int, clock: Clock, parent: Option<SignedCapability>)
      returns (result: Result<Verified, GateError>)
      modifies store
      ensures result == Authorization(settings, old(RevokedNow()), old(store.entries), e, r, now, clock, parent)
      ensures store.entries == StoreAfter(settings, old(RevokedNow()), old(store.entries), e, r, now, clock, parent)
    {
      var violation := Violation(settings, RevokedNow(), e, r, now, parent);
      if violation.Some? { return Failure(violation.value); }
      var granted := store.ConsumeOnce(ConsumptionOf(e.payload, clock));
      if !granted { return Failure(Replay); }
      result := Success(Verified(e.payload, now));
    }
  }
}
