/**
 Capabilities (capability.py, and the payloads gate.py checks): the record, its
 JSON object, its content id, and the issuing of scoped root capabilities.

 A version 0.1 capability carries one `action` and one `purpose`; the record holds
 them as one-element lists, which is how the source itself reads such a parent.
 The members a 0.1 capability lacks hold the values the source defaults them to.
 */
module Capabilities {
  import opened Wrappers
  import opened Text
  import opened Canonical
  import opened Records
  import opened Models

  /** The physical limits a capability may state. */
  datatype Limits = Limits(maxForce: Option<int>, maxVelocity: Option<int>, allowedZones: Option<seq<string>>)

  const NO_LIMITS := Limits(None, None, None)

  datatype Capability = Capability(
    typ: string,
    version: string,
    issuer: string,
    agent: string,
    target: string,
    actions: seq<string>,
    purposes: seq<string>,
    requestDigest: string,
    policyDigest: string,
    matchedPolicyIds: seq<string>,
    obligations: seq<string>,
    issuedAt: int,
    notBefore: int,
    expiresAt: int,
    nonce: string,
    parentId: Option<string>,
    constraints: Limits,
    approvalTier: int,
    delegationAllowed: bool,
    maxDelegationDepth: int,
    delegateAgent: Option<string>,
    delegationDepth: int,
    delegateAllowlist: Option<seq<string>>,
    rootId: Option<string>,
    capabilityId: string)
  {
    predicate Scoped() {
      version == "0.2" || version == "1.0"
    }

    /** An unscoped capability has one action and purpose and none of the scoped members. */
    predicate Shaped() {
      Scoped() ||
      (&& |actions| == 1 && |purposes| == 1
       && parentId == None && constraints == NO_LIMITS && approvalTier == 0
       && !delegationAllowed && maxDelegationDepth == 0 && delegateAgent == None && delegationDepth == 0
       && delegateAllowlist == None && rootId == None)
    }

    /** `root_capability_id or capability_id` */
    function RootOf(): string {
      match rootId
      case Some(r) => if r != "" then r else capabilityId
      case None => capabilityId
    }
  }

  const CAPABILITY_TYPE: string := "kinegrant:PhysicalActionCapability"

  // ---- the JSON object ----

  function LimitsJson(l: Limits): Json {
    Obj(Fields(["allowed_zones", "max_velocity_mps", "max_force_newtons"],
               [match l.allowedZones case Some(z) => Some(Strings(z)) case None => None,
                match l.maxVelocity case Some(n) => Some(Num(n)) case None => None,
                match l.maxForce case Some(n) => Some(Num(n)) case None => None]))
  }

  lemma LimitsJsonInjective(a: Limits, b: Limits)
    requires LimitsJson(a) == LimitsJson(b)
    ensures a == b
  {
    var names := ["allowed_zones", "max_velocity_mps", "max_force_newtons"];
    var x := [match a.allowedZones case Some(z) => Some(Strings(z)) case None => None,
              match a.maxVelocity case Some(n) => Some(Num(n)) case None => None,
              match a.maxForce case Some(n) => Some(Num(n)) case None => None];
    var y := [match b.allowedZones case Some(z) => Some(Strings(z)) case None => None,
              match b.maxVelocity case Some(n) => Some(Num(n)) case None => None,
              match b.maxForce case Some(n) => Some(Num(n)) case None => None];
    FieldsInjective(names, x, y);
    assert x[0] == y[0] && x[1] == y[1] && x[2] == y[2];
    if a.allowedZones.Some? && b.allowedZones.Some? { StringsInjective(a.allowedZones.value, b.allowedZones.value); }
  }

  // Member names, grouped by length so that their distinctness is checked group by group.
  const SHORT_NAMES: seq<string> :=
    ["type", "version", "issuer", "agent", "target", "action", "actions", "purpose", "nonce"]
  const MIDDLE_NAMES: seq<string> :=
    ["purposes", "issued_at", "not_before", "expires_at", "obligations", "constraints"]
  const LONG_NAMES: seq<string> :=
    ["policy_digest", "approval_tier", "request_digest", "delegate_agent", "delegation_depth"]
  const LONGEST_NAMES: seq<string> :=
    ["matched_policy_ids", "delegation_allowed", "delegate_allowlist", "parent_capability_id", "max_delegation_depth"]

  lemma ShortNamesDistinct()
    ensures Distinct(SHORT_NAMES) && forall x :: x in SHORT_NAMES ==> |x| <= 7
  {
  }

  lemma MiddleNamesDistinct()
    ensures Distinct(MIDDLE_NAMES) && forall x :: x in MIDDLE_NAMES ==> 7 < |x| <= 11
  {
  }

  lemma LongNamesDistinct()
    ensures Distinct(LONG_NAMES) && forall x :: x in LONG_NAMES ==> 11 < |x| <= 16
  {
  }

  lemma LongestNamesDistinct()
    ensures Distinct(LONGEST_NAMES) && forall x :: x in LONGEST_NAMES ==> 16 < |x|
  {
  }

  lemma CapabilityNamesDistinct()
    ensures Distinct(SHORT_NAMES + MIDDLE_NAMES + LONG_NAMES + LONGEST_NAMES)
  {
    ShortNamesDistinct();
    MiddleNamesDistinct();
    LongNamesDistinct();
    LongestNamesDistinct();
    DistinctGroups(SHORT_NAMES, MIDDLE_NAMES, LONG_NAMES, LONGEST_NAMES);
  }

  lemma DistinctGroups(a: seq<string>, b: seq<string>, c: seq<string>, d: seq<string>)
    requires Distinct(a) && Distinct(b) && Distinct(c) && Distinct(d)
    requires (forall x :: x in a ==> |x| <= 7) && (forall x :: x in b ==> 7 < |x| <= 11)
    requires (forall x :: x in c ==> 11 < |x| <= 16) && (forall x :: x in d ==> 16 < |x|)
    ensures Distinct(a + b + c + d)
  {
    DistinctByLength(a, b, 7);
    DistinctByLength(a + b, c, 11);
    DistinctByLength(a + b + c, d, 16);
  }

  function If(c: bool, v: Json): Option<Json> {
    if c then Some(v) else None
  }

  function ShortValues(c: Capability): seq<Option<Json>>
    requires c.Shaped()
  {
    [Some(Str(c.typ)), Some(Str(c.version)), Some(Str(c.issuer)), Some(Str(c.agent)), Some(Str(c.target)),
     if c.Scoped() then None else Some(Str(c.actions[0])), If(c.Scoped(), Strings(c.actions)),
     if c.Scoped() then None else Some(Str(c.purposes[0])), Some(Str(c.nonce))]
  }

  function MiddleValues(c: Capability): seq<Option<Json>> {
    [If(c.Scoped(), Strings(c.purposes)), Some(Num(c.issuedAt)), Some(Num(c.notBefore)), Some(Num(c.expiresAt)),
     Some(Strings(c.obligations)), If(c.Scoped(), LimitsJson(c.constraints))]
  }

  function LongValues(c: Capability): seq<Option<Json>> {
    [Some(Str(c.policyDigest)), If(c.Scoped(), Num(c.approvalTier)), Some(Str(c.requestDigest)),
     If(c.Scoped(), OptStr(c.delegateAgent)), If(c.Scoped(), Num(c.delegationDepth))]
  }

  function LongestValues(c: Capability): seq<Option<Json>> {
    [Some(Strings(c.matchedPolicyIds)), If(c.Scoped(), Bool(c.delegationAllowed)),
     If(c.Scoped(), OptStrings(c.delegateAllowlist)), If(c.Scoped(), OptStr(c.parentId)),
     If(c.Scoped(), Num(c.maxDelegationDepth))]
  }

  /** The object the id is taken over: all members but `capability_id` and `root_capability_id`. */
  function IdBody(c: Capability): Json
    requires c.Shaped()
  {
    Obj(Fields(SHORT_NAMES + MIDDLE_NAMES + LONG_NAMES + LONGEST_NAMES,
               ShortValues(c) + MiddleValues(c) + LongValues(c) + LongestValues(c)))
  }

  /** The whole signed payload. */
  function PayloadJson(c: Capability): Json
    requires c.Shaped()
  {
    var body := IdBody(c).members["capability_id" := Str(c.capabilityId)];
    Obj(if c.Scoped() then body["root_capability_id" := OptStr(c.rootId)] else body)
  }

  function CapabilityContentId(hash: Hash, c: Capability): string
    requires c.Shaped()
  {
    ContentId(hash, "kinegrant:cap", IdBody(c))
  }

  lemma IdBodyGroups(a: Capability, b: Capability)
    requires a.Shaped() && b.Shaped() && IdBody(a) == IdBody(b)
    ensures ShortValues(a) == ShortValues(b) && MiddleValues(a) == MiddleValues(b)
    ensures LongValues(a) == LongValues(b) && LongestValues(a) == LongestValues(b)
  {
    CapabilityNamesDistinct();
    var x := ShortValues(a) + MiddleValues(a) + LongValues(a) + LongestValues(a);
    var y := ShortValues(b) + MiddleValues(b) + LongValues(b) + LongestValues(b);
    FieldsInjective(SHORT_NAMES + MIDDLE_NAMES + LONG_NAMES + LONGEST_NAMES, x, y);
    assert x[..9] == ShortValues(a) && y[..9] == ShortValues(b);
    assert x[9..15] == MiddleValues(a) && y[9..15] == MiddleValues(b);
    assert x[15..20] == LongValues(a) && y[15..20] == LongValues(b);
    assert x[20..] == LongestValues(a) && y[20..] == LongestValues(b);
  }

  lemma ShortValuesInjective(a: Capability, b: Capability)
    requires a.Shaped() && b.Shaped() && ShortValues(a) == ShortValues(b)
    ensures a.typ == b.typ && a.version == b.version && a.issuer == b.issuer && a.agent == b.agent
    ensures a.target == b.target && a.nonce == b.nonce && a.actions == b.actions
    ensures !a.Scoped() ==> a.purposes == b.purposes
  {
    var x, y := ShortValues(a), ShortValues(b);
    assert x[0] == y[0] && x[1] == y[1] && x[2] == y[2] && x[3] == y[3] && x[4] == y[4];
    assert x[5] == y[5] && x[6] == y[6] && x[7] == y[7] && x[8] == y[8];
    if a.Scoped() { StringsInjective(a.actions, b.actions); }
  }

  lemma OtherValuesInjective(a: Capability, b: Capability)
    requires a.Scoped() == b.Scoped() && MiddleValues(a) == MiddleValues(b)
    requires LongValues(a) == LongValues(b) && LongestValues(a) == LongestValues(b)
    ensures a.issuedAt == b.issuedAt && a.notBefore == b.notBefore && a.expiresAt == b.expiresAt
    ensures a.obligations == b.obligations && a.policyDigest == b.policyDigest
    ensures a.requestDigest == b.requestDigest && a.matchedPolicyIds == b.matchedPolicyIds
    ensures a.Scoped() ==>
      && a.purposes == b.purposes && a.constraints == b.constraints && a.approvalTier == b.approvalTier
      && a.delegateAgent == b.delegateAgent && a.delegationDepth == b.delegationDepth
      && a.delegationAllowed == b.delegationAllowed && a.delegateAllowlist == b.delegateAllowlist
      && a.parentId == b.parentId && a.maxDelegationDepth == b.maxDelegationDepth
  {
    var x, y := MiddleValues(a), MiddleValues(b);
    assert x[0] == y[0] && x[1] == y[1] && x[2] == y[2] && x[3] == y[3] && x[4] == y[4] && x[5] == y[5];
    x, y := LongValues(a), LongValues(b);
    assert x[0] == y[0] && x[1] == y[1] && x[2] == y[2] && x[3] == y[3] && x[4] == y[4];
    x, y := LongestValues(a), LongestValues(b);
    assert x[0] == y[0] && x[1] == y[1] && x[2] == y[2] && x[3] == y[3] && x[4] == y[4];
    StringsInjective(a.obligations, b.obligations);
    StringsInjective(a.matchedPolicyIds, b.matchedPolicyIds);
    if a.Scoped() {
      StringsInjective(a.purposes, b.purposes);
      LimitsJsonInjective(a.constraints, b.constraints);
      OptStringsInjective(a.delegateAllowlist, b.delegateAllowlist);
    }
  }

  lemma IdsNotInBody(c: Capability)
    requires c.Shaped()
    ensures "capability_id" !in IdBody(c).members && "root_capability_id" !in IdBody(c).members
  {
    FieldNames(SHORT_NAMES + MIDDLE_NAMES + LONG_NAMES + LONGEST_NAMES,
               ShortValues(c) + MiddleValues(c) + LongValues(c) + LongestValues(c));
    IdNamesApart("root_capability_id", "capability_id");
  }

  lemma CapabilityIdApart()
    ensures "capability_id" !in LONG_NAMES && |"capability_id"| == 13
  {
  }

  lemma RootIdApart()
    ensures "root_capability_id" !in LONGEST_NAMES && |"root_capability_id"| == 18
  {
  }

  /** A name that is in none of the groups, by its length or by comparison with one group. */
  lemma NotInGroups(x: string, a: seq<string>, b: seq<string>, c: seq<string>, d: seq<string>)
    requires (forall y :: y in a ==> |y| <= 7) && (forall y :: y in b ==> 7 < |y| <= 11)
    requires (forall y :: y in c ==> 11 < |y| <= 16) && (forall y :: y in d ==> 16 < |y|)
    requires 11 < |x| && (if |x| <= 16 then x !in c else x !in d)
    ensures x !in a + b + c + d
  {
  }

  lemma IdNamesApart(root: string, id: string)
    requires root == "root_capability_id" && id == "capability_id"
    ensures id !in SHORT_NAMES + MIDDLE_NAMES + LONG_NAMES + LONGEST_NAMES
    ensures root !in SHORT_NAMES + MIDDLE_NAMES + LONG_NAMES + LONGEST_NAMES
  {
    ShortNamesDistinct();
    MiddleNamesDistinct();
    LongNamesDistinct();
    LongestNamesDistinct();
    CapabilityIdApart();
    RootIdApart();
    NotInGroups(id, SHORT_NAMES, MIDDLE_NAMES, LONG_NAMES, LONGEST_NAMES);
    NotInGroups(root, SHORT_NAMES, MIDDLE_NAMES, LONG_NAMES, LONGEST_NAMES);
  }

  /** What is signed determines the capability, ids included. */
  lemma PayloadDetermines(a: Capability, b: Capability)
    requires a.Shaped() && b.Shaped() && PayloadJson(a) == PayloadJson(b)
    ensures a == b
  {
    var x, y := PayloadJson(a).members, PayloadJson(b).members;
    var ids := {"capability_id", "root_capability_id"};
    IdsNotInBody(a);
    IdsNotInBody(b);
    assert IdBody(a).members == x - ids && IdBody(b).members == y - ids;
    assert x["capability_id"] == y["capability_id"];
    IdBodyGroups(a, b);
    ShortValuesInjective(a, b);
    OtherValuesInjective(a, b);
    if a.Scoped() { assert x["root_capability_id"] == y["root_capability_id"]; }
  }

  /** A content id stands for one capability, up to the two members the id leaves out. */
  lemma ContentIdDetermines(hash: Hash, a: Capability, b: Capability)
    requires Injective(hash) && a.Shaped() && b.Shaped()
    requires CapabilityContentId(hash, a) == CapabilityContentId(hash, b)
    ensures a.(capabilityId := b.capabilityId, rootId := b.rootId) == b
  {
    ContentIdInjective(hash, "kinegrant:cap", IdBody(a), IdBody(b));
    IdBodyGroups(a, b);
    ShortValuesInjective(a, b);
    OtherValuesInjective(a, b);
  }

  // ---- names ----

  /** The two content-derived names the protocol compares: capability ids and request digests. */
  datatype Naming = Naming(capabilityId: Capability -> string, requestDigest: Request -> string)

  /** The names the source computes over a document hash. */
  function NamingOf(hash: Hash): Naming {
    Naming((c: Capability) => if c.Shaped() then CapabilityContentId(hash, c) else "", r => RequestDigest(hash, r))
  }

  /** Names tell capabilities apart, up to the two members the id leaves out, and requests. */
  ghost predicate Faithful(names: Naming) {
    && (forall a: Capability, b: Capability ::
          a.Shaped() && b.Shaped() && names.capabilityId(a) == names.capabilityId(b) ==>
            a.(capabilityId := b.capabilityId, rootId := b.rootId) == b)
    && (forall a, b :: names.requestDigest(a) == names.requestDigest(b) ==> a == b)
  }

  lemma NamingFaithful(hash: Hash)
    requires Injective(hash)
    ensures Faithful(NamingOf(hash))
  {
    var names := NamingOf(hash);
    forall a: Capability, b: Capability | a.Shaped() && b.Shaped() && names.capabilityId(a) == names.capabilityId(b)
      ensures a.(capabilityId := b.capabilityId, rootId := b.rootId) == b
    {
      ContentIdDetermines(hash, a, b);
    }
    forall a, b | names.requestDigest(a) == names.requestDigest(b) ensures a == b {
      RequestDigestInjective(hash, a, b);
    }
  }

  // ---- issuing a root ----

  datatype IssueError =
    | RequestDenied | ForeignDecision | InvalidTtl | InvalidApprovalTier | InvalidDelegationDepth | InvalidAllowlist
    | InvalidWireVersion | InvalidActions | InvalidPurposes | InvalidTarget

  /** The optional arguments of `issue_scoped`. */
  datatype IssueOptions = IssueOptions(
    ttlSeconds: int,
    actions: Option<seq<string>>,
    purposes: Option<seq<string>>,
    target: Option<string>,
    approvalTier: int,
    delegationAllowed: bool,
    maxDelegationDepth: int,
    delegateAllowlist: Option<seq<string>>,
    wireVersion: string)

  /** `given or default`, for a list and for a string. */
  function OrList(given: Option<seq<string>>, default: seq<string>): seq<string> {
    if given.Some? && given.value != [] then given.value else default
  }

  function OrString(given: Option<string>, default: string): string {
    if given.Some? && given.value != "" then given.value else default
  }

  predicate NonEmptyStrings(s: seq<string>) {
    forall i :: 0 <= i < |s| ==> s[i] != ""
  }

  function IssueScoped(names: Naming, issuer: string, request: Request, decision: Decision, o: IssueOptions,
                       now: int, nonce: string): Result<Capability, IssueError>
  {
    var actions := OrList(o.actions, [request.action]);
    var purposes := OrList(o.purposes, [request.purpose]);
    var target := OrString(o.target, request.target);
    if !decision.allowed then Failure(RequestDenied)
    else if decision.requestDigest != names.requestDigest(request) then Failure(ForeignDecision)
    else if !(1 <= o.ttlSeconds <= 300) then Failure(InvalidTtl)
    else if !(0 <= o.approvalTier <= 2) then Failure(InvalidApprovalTier)
    else if !(0 <= o.maxDelegationDepth <= 3) then Failure(InvalidDelegationDepth)
    else if o.delegateAllowlist.Some? && !NonEmptyStrings(o.delegateAllowlist.value) then
      Failure(InvalidAllowlist)
    else if o.wireVersion != "0.2" && o.wireVersion != "1.0" then Failure(InvalidWireVersion)
    else if !NonEmptyStrings(actions) then Failure(InvalidActions)
    else if !NonEmptyStrings(purposes) then Failure(InvalidPurposes)
    else if Blank(target) then Failure(InvalidTarget)
    else
      var body := Capability(
        CAPABILITY_TYPE, o.wireVersion, issuer, request.agent, target, actions, purposes,
        names.requestDigest(request), decision.policyDigest, decision.matchedPolicyIds, decision.obligations,
        now, now, now + o.ttlSeconds * MICROS, nonce,
        None, NO_LIMITS, o.approvalTier, o.delegationAllowed, o.maxDelegationDepth, None, 0,
        o.delegateAllowlist, None, "");
      var id := names.capabilityId(body);
      Success(body.(capabilityId := id, rootId := Some(id)))
  }
}
