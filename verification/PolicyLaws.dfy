/** Laws of policy evaluation: what a decision means, order independence, and monotonicity. */
module PolicyLaws {
  import opened Wrappers
  import opened Ordering
  import opened Text
  import opened Canonical
  import opened Lists
  import opened Models
  import opened Policy

  predicate Fresh(e: Engine, r: Request, now: int) {
    Known(e, r) && !FromFuture(e, r, now) && !Stale(e, r, now)
  }

  ghost predicate AppliesIn(e: Engine, r: Request, now: int, rule: PolicyRule) {
    rule in e.rules && Applier(e, r, now)(rule)
  }

  function Ranked(e: Engine, r: Request, now: int): seq<PolicyRule> {
    SortBy(Applicable(e, r, now), PriorityKey)
  }

  lemma SortedMembers(e: Engine, r: Request, now: int)
    ensures forall rule :: rule in Ranked(e, r, now) <==> AppliesIn(e, r, now, rule)
  {
    RankedBy(Applier(e, r, now), e.rules);
  }

  lemma {:induction false} RankedBy(p: PolicyRule -> bool, rules: seq<PolicyRule>)
    ensures forall rule :: rule in SortBy(Filter(p, rules), PriorityKey) <==> rule in rules && p(rule)
  {
    var applicable := Filter(p, rules);
    FilterMembers(p, rules);
    forall rule ensures rule in SortBy(applicable, PriorityKey) <==> rule in applicable {
      assert rule in SortBy(applicable, PriorityKey) <==> rule in multiset(SortBy(applicable, PriorityKey));
      assert rule in applicable <==> rule in multiset(applicable);
    }
  }

  /** Every stated limit is shown to be kept. */
  predicate WithinLimits(c: Constraints, context: map<string, Json>) {
    && !Violates(c.maxForce, Declared(context, "force_newtons")) && !Violates(c.maxVelocity, Declared(context, "velocity_mps"))
    && (c.allowedZones.Some? ==> InZone(c.allowedZones.value, context))
  }

  /** Some stated limit is broken or not shown to be kept, or the request is in a forbidden zone. */
  predicate BreaksLimit(c: Constraints, context: map<string, Json>) {
    || Violates(c.maxForce, Declared(context, "force_newtons")) || Violates(c.maxVelocity, Declared(context, "velocity_mps"))
    || (c.allowedZones.Some? && InZone(c.allowedZones.value, context))
  }

  /** Limits fail closed for both effects, whatever the order they are looked at in. */
  lemma ConstraintsMean(rule: PolicyRule, r: Request, now: int)
    ensures rule.effect.Allow? ==>
      (ConstraintsHold(rule, r, now) <==> CommonConditions(rule.constraints, r, now) && WithinLimits(rule.constraints, r.context))
    ensures rule.effect.Deny? ==>
      (ConstraintsHold(rule, r, now) <==>
         && CommonConditions(rule.constraints, r, now)
         && (Physical(rule.constraints) ==> BreaksLimit(rule.constraints, r.context)))
  {
  }

  // ---- what a decision means ----

  lemma {:induction false} TierAttained(rules: seq<PolicyRule>)
    ensures forall rule :: rule in rules && rule.effect.Allow? ==> TierOf(rule) <= RequiredTier(rules)
    ensures RequiredTier(rules) >= 0
    ensures RequiredTier(rules) > 0 ==>
      exists rule :: rule in rules && rule.effect.Allow? && TierOf(rule) == RequiredTier(rules)
  {
    if rules != [] {
      TierAttained(rules[1..]);
      assert forall rule :: rule in rules <==> rule == rules[0] || rule in rules[1..];
    }
  }

  /** Of the rules that satisfy `p`, some allows and none denies. */
  ghost predicate Granted(p: PolicyRule -> bool, rules: seq<PolicyRule>) {
    && (exists rule :: rule in rules && p(rule) && rule.effect.Allow?)
    && (forall rule :: rule in rules && p(rule) ==> rule.effect.Allow?)
  }

  lemma {:induction false} ResolutionAllows(p: PolicyRule -> bool, rules: seq<PolicyRule>, requestDigest: string, policyDigest: string)
    ensures Resolve(SortBy(Filter(p, rules), PriorityKey), requestDigest, policyDigest).allowed <==> Granted(p, rules)
  {
    RankedBy(p, rules);
    var sorted := SortBy(Filter(p, rules), PriorityKey);
    if sorted != [] { assert sorted[0] in sorted; }
  }

  lemma DecideResolves(names: PolicyNaming, e: Engine, r: Request, now: int, sorted: seq<PolicyRule>)
    requires sorted == Ranked(e, r, now)
    ensures Decide(names, e, r, now).allowed ==> Fresh(e, r, now)
    ensures Fresh(e, r, now) ==>
      Decide(names, e, r, now) == Resolve(sorted, names.request(r), SnapshotDigest(names, e.rules, e.trustedIssuers))
  {
  }

  lemma ResolveMatches(sorted: seq<PolicyRule>, requestDigest: string, policyDigest: string)
    ensures Resolve(sorted, requestDigest, policyDigest).matchedPolicyIds == PolicyIds(sorted)
  {
  }

  lemma {:induction false} DecideAllows(names: PolicyNaming, e: Engine, r: Request, now: int)
    ensures Decide(names, e, r, now).allowed <==> Fresh(e, r, now) && Granted(Applier(e, r, now), e.rules)
  {
    DecideResolves(names, e, r, now, Ranked(e, r, now));
    ResolutionAllows(Applier(e, r, now), e.rules, names.request(r), SnapshotDigest(names, e.rules, e.trustedIssuers));
  }

  lemma GrantedMeans(e: Engine, r: Request, now: int)
    ensures Granted(Applier(e, r, now), e.rules) <==>
      && (exists rule :: AppliesIn(e, r, now, rule) && rule.effect.Allow?)
      && (forall rule :: AppliesIn(e, r, now, rule) ==> rule.effect.Allow?)
  {
    var p := Applier(e, r, now);
    if rule :| rule in e.rules && p(rule) && rule.effect.Allow? { assert AppliesIn(e, r, now, rule); }
    if rule :| AppliesIn(e, r, now, rule) && rule.effect.Allow? { assert rule in e.rules && p(rule); }
    forall rule ensures AppliesIn(e, r, now, rule) <==> rule in e.rules && p(rule) {}
  }

  /** Deny overrides and default deny: allowed means fresh, some allow rule applies, and no deny rule does. */
  lemma {:induction false} AllowedMeans(names: PolicyNaming, e: Engine, r: Request, now: int)
    ensures Decide(names, e, r, now).allowed <==>
      && Fresh(e, r, now)
      && (exists rule :: AppliesIn(e, r, now, rule) && rule.effect.Allow?)
      && (forall rule :: AppliesIn(e, r, now, rule) ==> rule.effect.Allow?)
  {
    DecideAllows(names, e, r, now);
    GrantedMeans(e, r, now);
  }

  /** The matched ids are those of the applicable rules, by descending priority and then by id. */
  lemma MatchedMeans(names: PolicyNaming, e: Engine, r: Request, now: int)
    requires Fresh(e, r, now)
    ensures var sorted := Ranked(e, r, now);
      && Decide(names, e, r, now).matchedPolicyIds == PolicyIds(sorted)
      && multiset(sorted) == multiset(Applicable(e, r, now))
      && forall i, j :: 0 <= i < j < |sorted| ==>
           sorted[i].priority > sorted[j].priority
           || (sorted[i].priority == sorted[j].priority
               && LessEq(CodePoints(sorted[i].policyId), CodePoints(sorted[j].policyId)))
  {
    var sorted := Ranked(e, r, now);
    forall i, j | 0 <= i < j < |sorted|
      ensures sorted[i].priority > sorted[j].priority
              || (sorted[i].priority == sorted[j].priority
                  && LessEq(CodePoints(sorted[i].policyId), CodePoints(sorted[j].policyId)))
    {
      var x, y := PriorityKey(sorted[i]), PriorityKey(sorted[j]);
      assert LessEq(x, y);
      assert x[0] == -sorted[i].priority && y[0] == -sorted[j].priority;
      assert x[1..] == CodePoints(sorted[i].policyId) && y[1..] == CodePoints(sorted[j].policyId);
    }
  }

  /** Exactly the obligations of the applicable allow rules, and their highest tier. */
  ghost predicate Carries(d: Decision, e: Engine, r: Request, now: int) {
    && (forall o :: o in d.obligations <==> exists rule :: AppliesIn(e, r, now, rule) && o in rule.obligations)
    && (forall rule :: AppliesIn(e, r, now, rule) ==> TierOf(rule) <= d.requiredApprovalTier)
    && (d.requiredApprovalTier > 0 ==> exists rule :: AppliesIn(e, r, now, rule) && TierOf(rule) == d.requiredApprovalTier)
  }

  lemma {:induction false} AllowedCarries(names: PolicyNaming, e: Engine, r: Request, now: int)
    ensures Decide(names, e, r, now).allowed ==> Carries(Decide(names, e, r, now), e, r, now)
  {
    var d, sorted := Decide(names, e, r, now), Ranked(e, r, now);
    if d.allowed {
      AllowedMeans(names, e, r, now);
      SortedMembers(e, r, now);
      TierAttained(sorted);
      forall o ensures o in d.obligations <==> exists rule :: AppliesIn(e, r, now, rule) && o in rule.obligations {
        assert o in d.obligations <==> o in ObligationSet(sorted);
        if o in ObligationSet(sorted) {
          var rule :| rule in sorted && rule.effect.Allow? && o in rule.obligations;
          assert AppliesIn(e, r, now, rule);
        }
        if rule :| AppliesIn(e, r, now, rule) && o in rule.obligations {
          assert rule in sorted;
        }
      }
    }
  }

  // ---- order independence ----

  lemma {:induction false} UniqueKeys(rules: seq<PolicyRule>)
    requires UniqueIds(rules)
    ensures DistinctElements(rules, PriorityKey) && DistinctElements(rules, IdKey)
  {
    forall i, j | 0 <= i < j < |rules|
      ensures PriorityKey(rules[i]) != PriorityKey(rules[j]) && IdKey(rules[i]) != IdKey(rules[j])
    {
      if CodePoints(rules[i].policyId) == CodePoints(rules[j].policyId) {
        CodePointsInjective(rules[i].policyId, rules[j].policyId);
      }
      assert PriorityKey(rules[i])[1..] == CodePoints(rules[i].policyId);
      assert PriorityKey(rules[j])[1..] == CodePoints(rules[j].policyId);
    }
  }

  /** Permutations of a list with unique ids have unique ids. */
  lemma PermutedUnique(a: seq<PolicyRule>, b: seq<PolicyRule>)
    requires multiset(a) == multiset(b) && UniqueIds(a)
    ensures UniqueIds(b)
  {
    forall i, j | 0 <= i < j < |b| ensures b[i].policyId != b[j].policyId {
      if b[i].policyId == b[j].policyId {
        assert b[i] in multiset(a) && b[j] in multiset(a);
        var k :| 0 <= k < |a| && a[k] == b[i];
        var l :| 0 <= l < |a| && a[l] == b[j];
        assert k == l;
        TwiceInB(b, i, j);
        OnceInA(a, k);
      }
    }
  }

  lemma TwiceInB(b: seq<PolicyRule>, i: nat, j: nat)
    requires i < j < |b| && b[i] == b[j]
    ensures multiset(b)[b[i]] >= 2
  {
    assert b == b[..i] + [b[i]] + b[i + 1..j] + [b[j]] + b[j + 1..];
  }

  lemma OnceInA(a: seq<PolicyRule>, k: nat)
    requires UniqueIds(a) && k < |a|
    ensures multiset(a)[a[k]] == 1
  {
    assert a == a[..k] + [a[k]] + a[k + 1..];
    assert a[k] !in a[..k] && a[k] !in a[k + 1..];
  }

  /** Sorting by id or by priority does not see the order of the rules. */
  lemma {:induction false} SortForgetsOrder(a: seq<PolicyRule>, b: seq<PolicyRule>)
    requires multiset(a) == multiset(b) && UniqueIds(a)
    ensures SortBy(a, PriorityKey) == SortBy(b, PriorityKey) && SortBy(a, IdKey) == SortBy(b, IdKey)
  {
    SortedKeysDistinct(a, SortBy(a, PriorityKey));
    SortedKeysDistinct(a, SortBy(a, IdKey));
    SortedKeysDistinct(a, SortBy(b, PriorityKey));
    SortedKeysDistinct(a, SortBy(b, IdKey));
    SortedPermutationUnique(SortBy(a, PriorityKey), SortBy(b, PriorityKey), PriorityKey);
    SortedPermutationUnique(SortBy(a, IdKey), SortBy(b, IdKey), IdKey);
  }

  lemma SortedKeysDistinct(a: seq<PolicyRule>, s: seq<PolicyRule>)
    requires multiset(a) == multiset(s) && UniqueIds(a)
    ensures DistinctElements(s, PriorityKey) && DistinctElements(s, IdKey)
  {
    PermutedUnique(a, s);
    UniqueKeys(s);
  }

  lemma {:induction false} SnapshotIgnoresOrder(names: PolicyNaming, a: seq<PolicyRule>, b: seq<PolicyRule>, trusted: set<string>)
    requires multiset(a) == multiset(b) && UniqueIds(a)
    ensures SnapshotDigest(names, a, trusted) == SnapshotDigest(names, b, trusted)
  {
    SortForgetsOrder(a, b);
  }

  lemma {:induction false} FilteredOrderForgotten(p: PolicyRule -> bool, a: seq<PolicyRule>, b: seq<PolicyRule>)
    requires multiset(a) == multiset(b) && UniqueIds(a)
    ensures SortBy(Filter(p, a), PriorityKey) == SortBy(Filter(p, b), PriorityKey)
  {
    FilterPermutation(p, a, b);
    FilterDistinct(p, a, (rule: PolicyRule) => rule.policyId);
    SortForgetsOrder(Filter(p, a), Filter(p, b));
  }

  lemma SortedIgnoresOrder(e: Engine, permuted: seq<PolicyRule>, r: Request, now: int)
    requires UniqueIds(e.rules) && multiset(permuted) == multiset(e.rules)
    ensures Ranked(e.(rules := permuted), r, now) == Ranked(e, r, now)
  {
    AppliersAgree(e, e.(rules := permuted), r, now);
    FilteredOrderForgotten(Applier(e, r, now), e.rules, permuted);
  }

  lemma AppliersAgree(e: Engine, e': Engine, r: Request, now: int)
    requires e.trustedIssuers == e'.trustedIssuers
    ensures Applier(e, r, now) == Applier(e', r, now)
  {
  }

  /** The whole decision, digest included, is the same for every order of the rules. */
  lemma {:induction false} DecisionIgnoresOrder(names: PolicyNaming, e: Engine, permuted: seq<PolicyRule>, r: Request, now: int)
    requires UniqueIds(e.rules) && multiset(permuted) == multiset(e.rules)
    ensures Decide(names, e.(rules := permuted), r, now) == Decide(names, e, r, now)
  {
    SnapshotIgnoresOrder(names, e.rules, permuted, e.trustedIssuers);
    SortedIgnoresOrder(e, permuted, r, now);
  }

  // ---- monotonicity in the rules ----

  /** A rule that can only restrict: a deny, or an allow by an issuer nobody trusts. */
  predicate OnlyRestricts(e: Engine, rule: PolicyRule) {
    rule.effect.Deny? || rule.issuer !in e.trustedIssuers
  }

  /** What applied before still does, and what allows now allowed before. */
  lemma RestrictedApplies(e: Engine, more: seq<PolicyRule>, r: Request, now: int)
    requires forall rule :: rule in more ==> rule in e.rules || OnlyRestricts(e, rule)
    requires forall rule :: rule in e.rules ==> rule in more
    ensures forall rule :: AppliesIn(e, r, now, rule) ==> AppliesIn(e.(rules := more), r, now, rule)
    ensures forall rule :: AppliesIn(e.(rules := more), r, now, rule) && rule.effect.Allow? ==> AppliesIn(e, r, now, rule)
  {
  }

  /** Adding such rules, anywhere, never turns a denial into an allow. */
  lemma {:induction false} RestrictingNeverGrants(names: PolicyNaming, e: Engine, more: seq<PolicyRule>, r: Request, now: int)
    requires forall rule :: rule in more ==> rule in e.rules || OnlyRestricts(e, rule)
    requires forall rule :: rule in e.rules ==> rule in more
    ensures Decide(names, e.(rules := more), r, now).allowed ==> Decide(names, e, r, now).allowed
  {
    AllowedMeans(names, e.(rules := more), r, now);
    AllowedMeans(names, e, r, now);
    RestrictedApplies(e, more, r, now);
  }

  // ---- physical evidence ----

  const FORCE: string := "force_newtons"
  const VELOCITY: string := "velocity_mps"

  /** Lower or newly supplied evidence. */
  predicate NoWorse(declared: Option<int>, declared': Option<int>) {
    declared.None? || (declared'.Some? && declared'.value <= declared.value)
  }

  /** The same request but for lower, or newly supplied, force and velocity. */
  ghost predicate Gentler(r: Request, r': Request) {
    && r' == r.(context := r'.context)
    && (forall k :: k != FORCE && k != VELOCITY ==> Get(r.context, k) == Get(r'.context, k))
    && NoWorse(Declared(r.context, FORCE), Declared(r'.context, FORCE))
    && NoWorse(Declared(r.context, VELOCITY), Declared(r'.context, VELOCITY))
  }

  /** No rule compares the two evidence values with a required context. */
  ghost predicate EvidenceNotRequired(rules: seq<PolicyRule>) {
    forall rule :: rule in rules && rule.constraints.requiredContext.Some? ==>
      FORCE !in rule.constraints.requiredContext.value && VELOCITY !in rule.constraints.requiredContext.value
  }

  lemma GentlerConditions(rule: PolicyRule, r: Request, r': Request, now: int)
    requires Gentler(r, r')
    requires rule.constraints.requiredContext.Some? ==>
      FORCE !in rule.constraints.requiredContext.value && VELOCITY !in rule.constraints.requiredContext.value
    ensures CommonConditions(rule.constraints, r, now) == CommonConditions(rule.constraints, r', now)
    ensures rule.constraints.allowedZones.Some? ==>
      InZone(rule.constraints.allowedZones.value, r.context) == InZone(rule.constraints.allowedZones.value, r'.context)
  {
    assert Get(r.context, "risk_tier") == Get(r'.context, "risk_tier");
    assert Get(r.context, "human_present") == Get(r'.context, "human_present");
    assert Get(r.context, "zone") == Get(r'.context, "zone");
    if rule.constraints.requiredContext.Some? {
      var required := rule.constraints.requiredContext.value;
      forall k | k in required
        ensures ContextAgrees(required[k], Get(r.context, k)) == ContextAgrees(required[k], Get(r'.context, k))
      {
        assert Get(r.context, k) == Get(r'.context, k);
      }
    }
  }

  /** Gentler evidence can make an allow rule apply, and a deny rule stop applying, but not the reverse. */
  lemma GentlerApplies(e: Engine, rule: PolicyRule, r: Request, r': Request, now: int)
    requires Gentler(r, r') && rule in e.rules && EvidenceNotRequired(e.rules)
    ensures rule.effect.Allow? && Applier(e, r, now)(rule) ==> Applier(e, r', now)(rule)
    ensures rule.effect.Deny? && Applier(e, r', now)(rule) ==> Applier(e, r, now)(rule)
  {
    GentlerConditions(rule, r, r', now);
  }

  /** Allowed, with no fewer obligations and no lower tier. */
  predicate AllowsNoLess(d: Decision, d': Decision) {
    d'.allowed && (forall o :: o in d.obligations ==> o in d'.obligations) && d.requiredApprovalTier <= d'.requiredApprovalTier
  }

  /** So it never turns an allow into a deny, and can only add obligations or raise the tier. */
  lemma {:induction false} GentlerStaysAllowed(names: PolicyNaming, e: Engine, r: Request, r': Request, now: int)
    requires Gentler(r, r') && EvidenceNotRequired(e.rules)
    ensures Decide(names, e, r, now).allowed ==> AllowsNoLess(Decide(names, e, r, now), Decide(names, e, r', now))
  {
    if Decide(names, e, r, now).allowed {
      AllowedMeans(names, e, r, now);
      GentlerRules(e, r, r', now);
      AllowedMeans(names, e, r', now);
      AllowedCarries(names, e, r, now);
      AllowedCarries(names, e, r', now);
      CarriesMore(e, r, r', now, Decide(names, e, r, now), Decide(names, e, r', now));
      if Decide(names, e, r', now).requiredApprovalTier < 0 { TierAttained(Ranked(e, r', now)); }
    }
  }

  /** Every rule that applied still does, and no deny rule has begun to. */
  lemma GentlerRules(e: Engine, r: Request, r': Request, now: int)
    requires Gentler(r, r') && EvidenceNotRequired(e.rules)
    requires forall rule :: AppliesIn(e, r, now, rule) ==> rule.effect.Allow?
    ensures forall rule :: AppliesIn(e, r, now, rule) ==> AppliesIn(e, r', now, rule)
    ensures forall rule :: AppliesIn(e, r', now, rule) ==> rule.effect.Allow?
  {
    forall rule | rule in e.rules
      ensures AppliesIn(e, r, now, rule) ==> AppliesIn(e, r', now, rule)
      ensures AppliesIn(e, r', now, rule) ==> rule.effect.Allow?
    {
      GentlerApplies(e, rule, r, r', now);
      if AppliesIn(e, r', now, rule) && rule.effect.Deny? { assert AppliesIn(e, r, now, rule); }
    }
  }

  lemma CarriesMore(e: Engine, r: Request, r': Request, now: int, d: Decision, d': Decision)
    requires forall rule :: AppliesIn(e, r, now, rule) ==> AppliesIn(e, r', now, rule)
    requires Carries(d, e, r, now) && Carries(d', e, r', now)
    ensures forall o :: o in d.obligations ==> o in d'.obligations
    ensures d.requiredApprovalTier > 0 ==> d.requiredApprovalTier <= d'.requiredApprovalTier
  {
    forall o | o in d.obligations ensures o in d'.obligations {
      var rule :| AppliesIn(e, r, now, rule) && o in rule.obligations;
      assert AppliesIn(e, r', now, rule);
    }
  }

  /** A request allowed with a value left out is allowed with any value: force, velocity or both. */
  lemma {:induction false} OmittedMeansAnyValue(names: PolicyNaming, e: Engine, r: Request, now: int, force: int, velocity: int)
    requires EvidenceNotRequired(e.rules)
    ensures Decide(names, e, r, now).allowed && FORCE !in r.context ==>
      Decide(names, e, r.(context := r.context[FORCE := Num(force)]), now).allowed
    ensures Decide(names, e, r, now).allowed && VELOCITY !in r.context ==>
      Decide(names, e, r.(context := r.context[VELOCITY := Num(velocity)]), now).allowed
    ensures Decide(names, e, r, now).allowed && FORCE !in r.context && VELOCITY !in r.context ==>
      Decide(names, e, r.(context := r.context[FORCE := Num(force)][VELOCITY := Num(velocity)]), now).allowed
  {
    if FORCE !in r.context {
      GentlerStaysAllowed(names, e, r, r.(context := r.context[FORCE := Num(force)]), now);
    }
    if VELOCITY !in r.context {
      GentlerStaysAllowed(names, e, r, r.(context := r.context[VELOCITY := Num(velocity)]), now);
    }
    if FORCE !in r.context && VELOCITY !in r.context {
      GentlerStaysAllowed(names, e, r, r.(context := r.context[FORCE := Num(force)][VELOCITY := Num(velocity)]), now);
    }
  }
}
