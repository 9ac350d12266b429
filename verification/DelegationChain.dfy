/**
 Chains of verified attenuations of any length, in both implementations: what a
 leaf's checks admit lies inside the root's grant, and delegation happens once.
 */
module DelegationChain {
  import opened Wrappers
  import opened Text
  import opened Glob
  import opened Models
  import opened Capabilities
  import opened Attenuation

  const ANYTHING: Matcher := (pattern, value) => true

  /** What both verifiers establish of a child and its parent, but for lifetimes, which they read differently. */
  ghost predicate Link(child: Capability, parent: Capability) {
    SameOrigin(child, parent) && ScopeNarrowed(Matches, child, parent) && DelegationStep(ANYTHING, child, parent)
  }

  ghost predicate Linked(chain: seq<Capability>) {
    chain != [] && forall i :: 0 < i < |chain| ==> Link(chain[i], chain[i - 1])
  }

  /** A chain the Python verifier accepts link by link. */
  ghost predicate Verified(chain: seq<Capability>) {
    chain != [] && forall i :: 0 < i < |chain| ==> VerifyAttenuation(chain[i], chain[i - 1])
  }

  /** Every target is checked soundly against the one above it. */
  ghost predicate SoundTargets(chain: seq<Capability>) {
    forall i :: 0 < i < |chain| ==> SoundlyChecked(chain[i - 1].target, chain[i].target)
  }

  lemma DelegationStepWeakens(m: Matcher, child: Capability, parent: Capability)
    requires DelegationStep(m, child, parent)
    ensures DelegationStep(ANYTHING, child, parent)
  {
    if parent.delegateAllowlist.Some? && parent.delegateAllowlist.value != [] && child.delegateAgent != parent.delegateAgent {
      var p := parent.delegateAllowlist.value[0];
      assert ANYTHING(p, child.delegateAgent.value);
    }
  }

  lemma VerifiedIsLinked(chain: seq<Capability>)
    requires Verified(chain)
    ensures Linked(chain)
  {
    forall i | 0 < i < |chain| ensures Link(chain[i], chain[i - 1]) {
      DelegationStepWeakens(Matches, chain[i], chain[i - 1]);
    }
  }

  // ---- scope ----

  /** The gate's scope checks on a request, for a scoped capability. */
  predicate Admits(c: Capability, r: Request) {
    Matches(c.target, r.target) && r.action in c.actions && r.purpose in c.purposes
  }

  lemma LinkNarrows(child: Capability, parent: Capability, r: Request)
    requires ScopeNarrowed(Matches, child, parent)
    requires SoundlyChecked(parent.target, child.target)
    requires Admits(child, r)
    ensures Admits(parent, r)
  {
    if child.target != parent.target { SoundContainment(parent.target, child.target, r.target); }
  }

  lemma {:induction false} LinkedLeafAdmitted(chain: seq<Capability>, r: Request)
    requires Linked(chain) && SoundTargets(chain)
    requires Admits(chain[|chain| - 1], r)
    ensures Admits(chain[0], r)
    decreases |chain|
  {
    if |chain| > 1 {
      var rest := chain[..|chain| - 1];
      assert Link(chain[|chain| - 1], chain[|chain| - 2]);
      LinkNarrows(chain[|chain| - 1], chain[|chain| - 2], r);
      LinkedLeafAdmitted(rest, r);
    }
  }

  /** What every link copies or shrinks, from the root to any member of the chain. */
  ghost predicate Descends(c: Capability, root: Capability) {
    && c.issuer == root.issuer && c.agent == root.agent
    && c.policyDigest == root.policyDigest && c.approvalTier == root.approvalTier
    && c.delegateAllowlist == root.delegateAllowlist
    && Subset(c.matchedPolicyIds, root.matchedPolicyIds)
    && Subset(c.actions, root.actions) && Subset(c.purposes, root.purposes)
    && c.maxDelegationDepth <= root.maxDelegationDepth
    && (c.delegationAllowed ==> root.delegationAllowed)
  }

  lemma {:induction false} LinkedMembersDescend(chain: seq<Capability>, i: nat)
    requires Linked(chain) && i < |chain|
    ensures Descends(chain[i], chain[0])
  {
    if i > 0 {
      LinkedMembersDescend(chain, i - 1);
      assert Link(chain[i], chain[i - 1]);
    }
  }

  lemma {:induction false} LifetimesNest(chain: seq<Capability>, i: nat)
    requires Verified(chain) && i < |chain|
    ensures LifetimeWithin(chain[i], chain[0])
  {
    if i > 0 {
      LifetimesNest(chain, i - 1);
      assert VerifyAttenuation(chain[i], chain[i - 1]);
    }
  }

  /** Whatever the leaf of a verified chain admits the root admits, and the leaf lives within the root's lifetime. */
  lemma LeafWithinRoot(chain: seq<Capability>, r: Request)
    requires Verified(chain) && SoundTargets(chain)
    requires Admits(chain[|chain| - 1], r)
    ensures Admits(chain[0], r) && LifetimeWithin(chain[|chain| - 1], chain[0])
  {
    VerifiedIsLinked(chain);
    LinkedLeafAdmitted(chain, r);
    LifetimesNest(chain, |chain| - 1);
  }

  lemma MembersDescend(chain: seq<Capability>, i: nat)
    requires Verified(chain) && i < |chain|
    ensures Descends(chain[i], chain[0]) && LifetimeWithin(chain[i], chain[0])
  {
    VerifiedIsLinked(chain);
    LinkedMembersDescend(chain, i);
    LifetimesNest(chain, i);
  }

  // ---- root id ----

  /** Every descendant names the root, so revoking the root's id reaches all of them. */
  lemma {:induction false} LinkedRootIdKept(chain: seq<Capability>, i: nat)
    requires Linked(chain) && 0 < i < |chain| && chain[0].RootOf() != ""
    ensures chain[i].rootId == Some(chain[0].RootOf()) && chain[i].parentId == Some(chain[i - 1].capabilityId)
  {
    assert Link(chain[i], chain[i - 1]);
    if i > 1 { LinkedRootIdKept(chain, i - 1); }
  }

  lemma RootIdKept(chain: seq<Capability>, i: nat)
    requires Verified(chain) && 0 < i < |chain| && chain[0].RootOf() != ""
    ensures chain[i].rootId == Some(chain[0].RootOf()) && chain[i].parentId == Some(chain[i - 1].capabilityId)
  {
    VerifiedIsLinked(chain);
    LinkedRootIdKept(chain, i);
  }

  // ---- delegation ----

  /** The number of links at which the delegate changes. */
  ghost function Handovers(chain: seq<Capability>): nat {
    if |chain| < 2 then 0
    else
      var last := |chain| - 1;
      Handovers(chain[..last]) + if chain[last].delegateAgent != chain[last - 1].delegateAgent then 1 else 0
  }

  /** The depth at the leaf counts the changes of delegate, and after a change a delegate cannot delegate on. */
  ghost predicate HandedOverOnce(chain: seq<Capability>)
    requires chain != []
  {
    var root, leaf := chain[0], chain[|chain| - 1];
    && Handovers(chain) <= 1
    && leaf.delegationDepth == root.delegationDepth + Handovers(chain)
    && (Handovers(chain) == 1 ==> !leaf.delegationAllowed && root.delegationAllowed)
    && (Handovers(chain) == 0 ==> leaf.delegateAgent == root.delegateAgent && leaf.requestDigest == root.requestDigest)
  }

  lemma {:induction false} LinkedDelegatesOnce(chain: seq<Capability>)
    requires Linked(chain)
    ensures HandedOverOnce(chain)
    decreases |chain|
  {
    if |chain| > 1 {
      var last := |chain| - 1;
      LinkedDelegatesOnce(chain[..last]);
      LinkedMembersDescend(chain, last - 1);
      assert Link(chain[last], chain[last - 1]);
    }
  }

  lemma DelegatesOnce(chain: seq<Capability>)
    requires Verified(chain)
    ensures HandedOverOnce(chain)
  {
    VerifiedIsLinked(chain);
    LinkedDelegatesOnce(chain);
  }

  // ---- physical limits ----

  /** Limits shrink along a chain in which every link states them. */
  lemma {:induction false} StatedLimitsShrink(chain: seq<Capability>)
    requires Verified(chain)
    ensures (forall i :: 0 <= i < |chain| ==> chain[i].constraints.maxForce.Some?) ==>
      chain[|chain| - 1].constraints.maxForce.value <= chain[0].constraints.maxForce.value
    ensures (forall i :: 0 <= i < |chain| ==> chain[i].constraints.maxVelocity.Some?) ==>
      chain[|chain| - 1].constraints.maxVelocity.value <= chain[0].constraints.maxVelocity.value
    decreases |chain|
  {
    if |chain| > 1 {
      StatedLimitsShrink(chain[..|chain| - 1]);
      assert VerifyAttenuation(chain[|chain| - 1], chain[|chain| - 2]);
    }
  }

  /** The capability states its zones, in literal characters and `*`. */
  predicate StatesStarZones(c: Capability) {
    c.constraints.allowedZones.Some? && forall z :: z in c.constraints.allowedZones.value ==> StarOnly(z)
  }

  predicate AllowsZone(c: Capability, zone: string) {
    c.constraints.allowedZones.Some? && MatchesAny(c.constraints.allowedZones.value, zone)
  }

  lemma ZonesNarrow(child: Capability, parent: Capability, zone: string)
    requires StatesStarZones(child) && StatesStarZones(parent)
    requires LimitsTightened(Matches, child.constraints, parent.constraints)
    requires AllowsZone(child, zone)
    ensures AllowsZone(parent, zone)
  {
    var z :| z in child.constraints.allowedZones.value && Matches(z, zone);
    var p :| p in parent.constraints.allowedZones.value && Matches(p, z);
    Containment(p, z, zone);
  }

  /** A zone the leaf allows, the root allows, when every link states its zones. */
  lemma {:induction false} StatedZonesShrink(chain: seq<Capability>, zone: string)
    requires Verified(chain) && forall i :: 0 <= i < |chain| ==> StatesStarZones(chain[i])
    requires AllowsZone(chain[|chain| - 1], zone)
    ensures AllowsZone(chain[0], zone)
    decreases |chain|
  {
    if |chain| > 1 {
      assert VerifyAttenuation(chain[|chain| - 1], chain[|chain| - 2]);
      ZonesNarrow(chain[|chain| - 1], chain[|chain| - 2], zone);
      StatedZonesShrink(chain[..|chain| - 1], zone);
    }
  }

  /** Limits the generator takes from a caller whose parent states none. */
  predicate Acceptable(limits: Limits) {
    && NonNegative(limits.maxForce) && NonNegative(limits.maxVelocity)
    && (limits.allowedZones.Some? ==>
          limits.allowedZones.value != [] && forall z :: z in limits.allowedZones.value ==> !Blank(z))
  }

  function AskingFor(limits: Limits): Options {
    AS_IS.(maxForce := limits.maxForce, maxVelocity := limits.maxVelocity, allowedZones := limits.allowedZones)
  }

  /** Every limit of `limits` is one that `other` does not state. */
  predicate Unstated(limits: Limits, other: Limits) {
    && (limits.maxForce.Some? ==> other.maxForce.None?) && (limits.maxVelocity.Some? ==> other.maxVelocity.None?)
    && (limits.allowedZones.Some? ==> other.allowedZones.None?)
  }

  /**
   So `StatedLimitsShrink` and `StatedZonesShrink` need every link, limit by limit: below
   any root, a child derived without some limits, whatever others it states and however
   else it was narrowed or delegated, leads to a verified leaf with any values at all for
   the ones left out, while a second of its lifetime is left.
   */
  lemma DroppedLimitsCanRise(names: Naming, root: Capability, o: Options, limits: Limits, now: int, later: int, n: string, m: string)
    requires Acceptable(limits) && Unstated(limits, Limits(o.maxForce, o.maxVelocity, o.allowedZones))
    requires o.delegateAgent.Some? ==> o.delegateAgent != root.delegateAgent
    ensures var child := Attenuate(names, root, o, now, n);
      child.Success? && now <= later && later + MICROS <= child.value.expiresAt ==>
        var leaf := Attenuate(names, child.value, AskingFor(limits), later, m);
        leaf.Success? && Verified([root, child.value, leaf.value]) && leaf.value.constraints == limits
  {
    var r := Attenuate(names, root, o, now, n);
    if r.Success? && later + MICROS <= r.value.expiresAt && now <= later {
      var child := r.value;
      GeneratedAsAsked(names, root, o, now, n);
      GeneratedDelegation(names, root, o, now, n);
      GeneratorMeetsVerifier(names, root, o, now, n);
      LimitedAttenuation(names, child, limits, later, m);
      GeneratedAsAsked(names, child, AskingFor(limits), later, m);
      GeneratorMeetsVerifier(names, child, AskingFor(limits), later, m);
    }
  }

  /** Limits can be asked for wherever the parent does not state them. */
  lemma LimitedAttenuation(names: Naming, parent: Capability, limits: Limits, now: int, nonce: string)
    requires UsableParent(parent) && DepthsInRange(parent) && WellFormedParent(parent)
    requires Acceptable(limits) && Unstated(limits, parent.constraints)
    requires parent.notBefore <= now && now + MICROS <= parent.expiresAt
    ensures Attenuate(names, parent, AskingFor(limits), now, nonce).Success?
  {
    UnchangedAttenuation(names, parent, now, nonce);
  }

  // ---- the browser's chain verifier ----

  datatype ChainError =
    | EmptyChain | BrokenLink(position: nat) | WrongRequest | WrongAgent | WrongDelegate
    | WrongTarget | WrongAction | WrongPurpose

  /** The terminal checks of `verifyDelegationChain`. */
  function TerminalError(names: Naming, c: Capability, r: Request): Option<ChainError> {
    if c.requestDigest != names.requestDigest(r) then Some(WrongRequest)
    else if c.delegateAgent.None? && c.agent != r.agent then Some(WrongAgent)
    else if c.delegateAgent.Some? && r.agent != c.delegateAgent.value then Some(WrongDelegate)
    else if !JsMatches(c.target, r.target) then Some(WrongTarget)
    else if r.action !in c.actions then Some(WrongAction)
    else if r.purpose !in c.purposes then Some(WrongPurpose)
    else None
  }

  ghost predicate JsVerified(chain: seq<Capability>) {
    chain != [] && forall i :: 0 < i < |chain| ==> JsVerifyAttenuation(chain[i], chain[i - 1])
  }

  /** `verifyDelegationChain` over payloads whose envelopes, shapes and lifetimes have been checked. */
  method VerifyDelegationChain(names: Naming, payloads: seq<Capability>, request: Request)
    returns (error: Option<ChainError>)
    ensures error.None? <==>
      JsVerified(payloads) && TerminalError(names, payloads[|payloads| - 1], request).None?
    ensures error.Some? && error.value.BrokenLink? ==>
      var i := error.value.position;
      && 0 < i < |payloads| && !JsVerifyAttenuation(payloads[i], payloads[i - 1])
      && forall j :: 0 < j < i ==> JsVerifyAttenuation(payloads[j], payloads[j - 1])
  {
    if payloads == [] { return Some(EmptyChain); }
    for index := 1 to |payloads|
      invariant forall j :: 0 < j < index ==> JsVerifyAttenuation(payloads[j], payloads[j - 1])
    {
      if !JsVerifyAttenuation(payloads[index], payloads[index - 1]) { return Some(BrokenLink(index)); }
    }
    error := TerminalError(names, payloads[|payloads| - 1], request);
  }

  /** On soundly checked targets a link the browser accepts is a link in Python's sense. */
  lemma JsLinks(chain: seq<Capability>)
    requires JsVerified(chain) && SoundTargets(chain)
    ensures Linked(chain)
  {
    forall i | 0 < i < |chain| ensures Link(chain[i], chain[i - 1]) {
      var child, parent := chain[i], chain[i - 1];
      assert JsVerifyAttenuation(child, parent) && SoundlyChecked(parent.target, child.target);
      MatchersAgree(parent.target, child.target);
      DelegationStepWeakens(JsMatches, child, parent);
    }
  }

  /** The browser's lifetimes nest in whole milliseconds, whatever the length of the chain. */
  lemma {:induction false} JsLifetimesNest(chain: seq<Capability>, i: nat)
    requires JsVerified(chain) && i < |chain|
    ensures JsLifetimeWithin(chain[i], chain[0])
  {
    if i > 0 {
      JsLifetimesNest(chain, i - 1);
      assert JsVerifyAttenuation(chain[i], chain[i - 1]);
    }
  }

  /**
   What the browser accepts for a chain, the root's grant covers, by Python's matcher;
   and the leaf's lifetime exceeds the root's by less than a millisecond at either end.
   */
  lemma JsLeafWithinRoot(names: Naming, chain: seq<Capability>, r: Request)
    requires JsVerified(chain) && SoundTargets(chain) && StarOnly(chain[|chain| - 1].target)
    requires TerminalError(names, chain[|chain| - 1], r).None?
    ensures Admits(chain[0], r)
    ensures JsLifetimeWithin(chain[|chain| - 1], chain[0])
    ensures chain[0].notBefore < chain[|chain| - 1].notBefore + 1000 && chain[|chain| - 1].expiresAt < chain[0].expiresAt + 1000
  {
    JsLinks(chain);
    MatchersAgree(chain[|chain| - 1].target, r.target);
    LinkedLeafAdmitted(chain, r);
    JsLifetimesNest(chain, |chain| - 1);
  }
}
