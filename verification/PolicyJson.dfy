/** Policy snapshots and rules as JSON (models.py, policy.py), and the digests that name them. */
module PolicyJson {
  import opened Wrappers
  import opened Canonical
  import opened Records
  import opened Models
  import opened Policy
  import opened CacheLaws

  const CONSTRAINT_NAMES_A: seq<string> := ["not_after", "not_before", "max_risk_tier", "allowed_zones"]
  const CONSTRAINT_NAMES_B: seq<string> :=
    ["max_velocity_mps", "required_context", "max_force_newtons", "min_approval_tier", "requires_human_present"]

  function OptNum(n: Option<int>): Option<Json> {
    match n
    case Some(k) => Some(Num(k))
    case None => None
  }

  function ConstraintValuesA(c: Constraints): seq<Option<Json>> {
    [OptNum(c.notAfter), OptNum(c.notBefore), OptNum(c.maxRiskTier),
     match c.allowedZones case Some(z) => Some(Strings(z)) case None => None]
  }

  function ConstraintValuesB(c: Constraints): seq<Option<Json>> {
    [OptNum(c.maxVelocity),
     match c.requiredContext case Some(m) => Some(Obj(m)) case None => None,
     OptNum(c.maxForce), OptNum(c.minApprovalTier),
     match c.requiresHumanPresent case Some(b) => Some(Bool(b)) case None => None]
  }

  function ConstraintsJson(c: Constraints): Json {
    Obj(Fields(CONSTRAINT_NAMES_A + CONSTRAINT_NAMES_B, ConstraintValuesA(c) + ConstraintValuesB(c)))
  }

  lemma NamesADistinct()
    ensures Distinct(CONSTRAINT_NAMES_A) && forall x :: x in CONSTRAINT_NAMES_A ==> |x| <= 13
  {
  }

  lemma NamesBDistinct()
    ensures Distinct(CONSTRAINT_NAMES_B) && forall x :: x in CONSTRAINT_NAMES_B ==> 13 < |x|
  {
  }

  lemma ConstraintsJsonInjective(a: Constraints, b: Constraints)
    requires ConstraintsJson(a) == ConstraintsJson(b)
    ensures a == b
  {
    NamesADistinct();
    NamesBDistinct();
    DistinctByLength(CONSTRAINT_NAMES_A, CONSTRAINT_NAMES_B, 13);
    var x, y := ConstraintValuesA(a) + ConstraintValuesB(a), ConstraintValuesA(b) + ConstraintValuesB(b);
    FieldsInjective(CONSTRAINT_NAMES_A + CONSTRAINT_NAMES_B, x, y);
    assert x[..4] == ConstraintValuesA(a) && y[..4] == ConstraintValuesA(b);
    assert x[4..] == ConstraintValuesB(a) && y[4..] == ConstraintValuesB(b);
    ConstraintValuesInjective(a, b);
  }

  lemma ConstraintValuesInjective(a: Constraints, b: Constraints)
    requires ConstraintValuesA(a) == ConstraintValuesA(b) && ConstraintValuesB(a) == ConstraintValuesB(b)
    ensures a == b
  {
    var x, y := ConstraintValuesA(a), ConstraintValuesA(b);
    assert x[0] == y[0] && x[1] == y[1] && x[2] == y[2] && x[3] == y[3];
    x, y := ConstraintValuesB(a), ConstraintValuesB(b);
    assert x[0] == y[0] && x[1] == y[1] && x[2] == y[2] && x[3] == y[3] && x[4] == y[4];
    if a.allowedZones.Some? && b.allowedZones.Some? { StringsInjective(a.allowedZones.value, b.allowedZones.value); }
  }

  const RULE_NAMES_A: seq<string> := ["issuer", "target", "effect", "source", "actions"]
  const RULE_NAMES_B: seq<string> := ["subjects", "purposes", "priority", "policy_id", "constraints", "obligations"]

  function EffectName(e: Effect): string {
    match e
    case Allow => "allow"
    case Deny => "deny"
  }

  function RuleValuesA(rule: PolicyRule): seq<Option<Json>> {
    [Some(Str(rule.issuer)), Some(Str(rule.target)), Some(Str(EffectName(rule.effect))), Some(Obj(rule.source)),
     Some(Strings(rule.actions))]
  }

  function RuleValuesB(rule: PolicyRule): seq<Option<Json>> {
    [Some(Strings(rule.subjects)), Some(Strings(rule.purposes)), Some(Num(rule.priority)), Some(Str(rule.policyId)),
     Some(ConstraintsJson(rule.constraints)), Some(Strings(rule.obligations))]
  }

  /** `PolicyRule.to_dict` */
  function RuleJson(rule: PolicyRule): Json {
    Obj(Fields(RULE_NAMES_A + RULE_NAMES_B, RuleValuesA(rule) + RuleValuesB(rule)))
  }

  lemma RuleNamesADistinct()
    ensures Distinct(RULE_NAMES_A) && forall x :: x in RULE_NAMES_A ==> |x| <= 7
  {
  }

  lemma RuleNamesBDistinct()
    ensures Distinct(RULE_NAMES_B) && forall x :: x in RULE_NAMES_B ==> 7 < |x|
  {
  }

  lemma RuleJsonInjective(a: PolicyRule, b: PolicyRule)
    requires RuleJson(a) == RuleJson(b)
    ensures a == b
  {
    RuleNamesADistinct();
    RuleNamesBDistinct();
    DistinctByLength(RULE_NAMES_A, RULE_NAMES_B, 7);
    var x, y := RuleValuesA(a) + RuleValuesB(a), RuleValuesA(b) + RuleValuesB(b);
    FieldsInjective(RULE_NAMES_A + RULE_NAMES_B, x, y);
    assert x[..5] == RuleValuesA(a) && y[..5] == RuleValuesA(b);
    assert x[5..] == RuleValuesB(a) && y[5..] == RuleValuesB(b);
    RuleValuesInjective(a, b);
  }

  lemma RuleValuesInjective(a: PolicyRule, b: PolicyRule)
    requires RuleValuesA(a) == RuleValuesA(b) && RuleValuesB(a) == RuleValuesB(b)
    ensures a == b
  {
    var x, y := RuleValuesA(a), RuleValuesA(b);
    assert x[0] == y[0] && x[1] == y[1] && x[2] == y[2] && x[3] == y[3] && x[4] == y[4];
    x, y := RuleValuesB(a), RuleValuesB(b);
    assert x[0] == y[0] && x[1] == y[1] && x[2] == y[2] && x[3] == y[3] && x[4] == y[4] && x[5] == y[5];
    StringsInjective(a.actions, b.actions);
    StringsInjective(a.subjects, b.subjects);
    StringsInjective(a.purposes, b.purposes);
    StringsInjective(a.obligations, b.obligations);
    ConstraintsJsonInjective(a.constraints, b.constraints);
    assert |"allow"| != |"deny"|;
  }

  function RulesJson(rules: seq<PolicyRule>): Json {
    Arr(seq(|rules|, i requires 0 <= i < |rules| => RuleJson(rules[i])))
  }

  lemma RulesJsonInjective(a: seq<PolicyRule>, b: seq<PolicyRule>)
    requires RulesJson(a) == RulesJson(b)
    ensures a == b
  {
    var x, y := RulesJson(a).items, RulesJson(b).items;
    assert |a| == |x| == |b|;
    forall i | 0 <= i < |a| ensures a[i] == b[i] {
      assert x[i] == y[i];
      RuleJsonInjective(a[i], b[i]);
    }
  }

  function SnapshotJson(rules: seq<PolicyRule>, trusted: seq<string>): Json {
    Obj(map["rules" := RulesJson(rules), "trusted_policy_issuers" := Strings(trusted)])
  }

  /** The digests the engine and its cache compute over a document hash. */
  function PolicyNamingOf(hash: Hash): PolicyNaming {
    PolicyNaming((rules, trusted) => Digest(hash, SnapshotJson(rules, trusted)), r => RequestDigest(hash, r))
  }

  lemma PolicyNamingFaithful(hash: Hash)
    requires Injective(hash)
    ensures FaithfulPolicy(PolicyNamingOf(hash))
  {
    var names := PolicyNamingOf(hash);
    forall a, b, c, d | names.snapshot(a, b) == names.snapshot(c, d) ensures a == c && b == d {
      DigestInjective(hash, SnapshotJson(a, b), SnapshotJson(c, d));
      var x, y := SnapshotJson(a, b).members, SnapshotJson(c, d).members;
      assert x["rules"] == y["rules"] && x["trusted_policy_issuers"] == y["trusted_policy_issuers"];
      RulesJsonInjective(a, c);
      StringsInjective(b, d);
    }
    forall a, b | names.request(a) == names.request(b) ensures a == b { RequestDigestInjective(hash, a, b); }
  }
}
