/** The reference signer of policy bundles (policy_bundle.py): versions count up and link to their predecessor. */
module Authority {
  import opened Wrappers
  import opened Text
  import opened Crypto
  import opened Models
  import opened Policy
  import opened Registry

  /** The optional arguments of `publish`. */
  datatype Publication = Publication(
    version: Option<int>,
    previousDigest: Option<string>,
    notBefore: Option<int>,
    notAfter: Option<int>,
    ttlSeconds: Option<int>)

  datatype PublishError =
    | NoEnd | BlankId | BlankIssuer | NonPositiveVersion | BadPreviousDigest | EmptyRules | EmptyWindow

  function VersionOf(last: Option<Bundle>, p: Publication): int {
    match p.version
    case Some(v) => v
    case None => if last.Some? then last.value.version + 1 else 1
  }

  function PreviousOf(last: Option<Bundle>, p: Publication): Option<string> {
    if p.previousDigest.None? && last.Some? then Some(last.value.policyDigest) else p.previousDigest
  }

  function EndOf(p: Publication, now: int): Option<int> {
    match p.notAfter
    case Some(t) => Some(t)
    case None =>
      match p.ttlSeconds
      case Some(ttl) => Some(p.notBefore.GetOr(now) + ttl * MICROS)
      case None => None
  }

  /** `publish` on the last published body of the policy: the new body, or the error raised. */
  function NewBundle(k: Checks, bundleId: Bundle -> string, kid: string, policyId: string, rules: seq<PolicyRule>,
                     last: Option<Bundle>, p: Publication, now: int): Result<Bundle, PublishError>
  {
    var end := EndOf(p, now);
    var start := p.notBefore.GetOr(now);
    var previous := PreviousOf(last, p);
    if end.None? then Failure(NoEnd)
    else if Blank(policyId) then Failure(BlankId)
    else if Blank(kid) then Failure(BlankIssuer)
    else if VersionOf(last, p) < 1 then Failure(NonPositiveVersion)
    else if previous.Some? && !IsDigest(previous.value) then Failure(BadPreviousDigest)
    else if rules == [] then Failure(EmptyRules)
    else if end.value <= start then Failure(EmptyWindow)
    else
      var body := Bundle(BUNDLE_TYPE, "0.1", policyId, kid, VersionOf(last, p), previous, now, start, end.value, rules,
                         k.rulesDigest(rules), "");
      Success(body.(bundleId := bundleId(body)))
  }

  class PolicyAuthority {
    const checks: Checks
    const bundleId: Bundle -> string
    const kid: string
    var last: map<string, Bundle>

    constructor (checks: Checks, bundleId: Bundle -> string, kid: string)
      ensures this.checks == checks && this.bundleId == bundleId && this.kid == kid && last == map[]
    {
      this.checks, this.bundleId, this.kid := checks, bundleId, kid;
      last := map[];
    }

    function LastOf(policyId: string): Option<Bundle>
      reads this
    {
      if policyId in last then Some(last[policyId]) else None
    }

    method Publish(policyId: string, rules: seq<PolicyRule>, p: Publication, now: int)
      returns (r: Result<SignedBundle, PublishError>)
      modifies this
      ensures var b := NewBundle(checks, bundleId, kid, policyId, rules, old(LastOf(policyId)), p, now);
        && (r.Success? <==> b.Success?)
        && (r.Success? ==> r.value == SignEnvelope(checks.keys, checks.render, kid, b.value))
        && (r.Failure? ==> r.error == b.error)
        && last == if b.Success? then old(last)[policyId := b.value] else old(last)
    {
      var b := NewBundle(checks, bundleId, kid, policyId, rules, LastOf(policyId), p, now);
      match b {
        case Failure(error) => return Failure(error);
        case Success(body) =>
          last := last[policyId := body];
          r := Success(SignEnvelope(checks.keys, checks.render, kid, body));
      }
    }
  }

  /**
   A published version follows the last one exactly when the caller leaves the
   version open or names a higher one: an explicit version is not compared.
   */
  lemma PublishedVersion(k: Checks, bundleId: Bundle -> string, kid: string, policyId: string, rules: seq<PolicyRule>,
                         last: Bundle, p: Publication, now: int)
    requires NewBundle(k, bundleId, kid, policyId, rules, Some(last), p, now).Success?
    ensures var b := NewBundle(k, bundleId, kid, policyId, rules, Some(last), p, now).value;
      && (b.version > last.version <==> p.version.None? || p.version.value > last.version)
      && (p.version.None? ==> b.version == last.version + 1)
      && (p.previousDigest.None? ==> b.previousDigest == Some(last.policyDigest))
  {
  }

  /** Publishing over an explicit version can go back. */
  lemma PublishCanGoBack(k: Checks, bundleId: Bundle -> string, kid: string, rule: PolicyRule, last: Bundle, now: int)
    requires !Blank(kid) && last.version > 1 && IsDigest(last.policyDigest)
    ensures var b := NewBundle(k, bundleId, kid, "p", [rule], Some(last), Publication(Some(1), None, None, None, Some(60)), now);
      b.Success? && b.value.version < last.version
  {
    assert !IsSpace("p"[0]);
  }

  /** What is published verifies, throughout its window, wherever the signer is trusted. */
  lemma PublishedVerifies(k: Checks, bundleId: Bundle -> string, kid: string, policyId: string, rules: seq<PolicyRule>,
                          last: Option<Bundle>, p: Publication, now: int, trusted: set<string>, t: int)
    requires HoldsKey(k.keys, kid) && (trusted == {} || kid in trusted)
    requires forall i :: 0 <= i < |rules| ==> WellFormedRule(rules[i])
    requires NewBundle(k, bundleId, kid, policyId, rules, last, p, now).Success?
    ensures var b := NewBundle(k, bundleId, kid, policyId, rules, last, p, now).value;
      BundleViolation(k, SignEnvelope(k.keys, k.render, kid, b), OrNone(trusted), t).None? <==> InWindow(b, t)
  {
  }

  /** So a registry that has nothing newer and has not revoked it makes it current. */
  lemma PublishedBecomesCurrent(k: Checks, bundleId: Bundle -> string, kid: string, policyId: string, rules: seq<PolicyRule>,
                                last: Option<Bundle>, p: Publication, now: int, s: State, t: int)
    requires HoldsKey(k.keys, kid) && (s.trusted == {} || kid in s.trusted)
    requires forall i :: 0 <= i < |rules| ==> WellFormedRule(rules[i])
    requires NewBundle(k, bundleId, kid, policyId, rules, last, p, now).Success?
    requires var b := NewBundle(k, bundleId, kid, policyId, rules, last, p, now).value;
      && InWindow(b, t) && KeyOf(b) !in s.bundles && KeyOf(b) !in s.revocations
      && AtMost(CurrentVersion(s, policyId, t), Some(b.version))
    ensures var b := NewBundle(k, bundleId, kid, policyId, rules, last, p, now).value;
      CurrentVersion(Activated(k, s, SignEnvelope(k.keys, k.render, kid, b), t), policyId, t) == Some(b.version)
  {
    var b := NewBundle(k, bundleId, kid, policyId, rules, last, p, now).value;
    PublishedVerifies(k, bundleId, kid, policyId, rules, last, p, now, s.trusted, t);
    var s' := Activated(k, s, SignEnvelope(k.keys, k.render, kid, b), t);
    forall v ensures Candidate(s', policyId, v, t) <==> Candidate(s, policyId, v, t) || v == b.version {}
    CurrentUnique(s', policyId, t, CurrentVersion(s', policyId, t), Some(b.version));
  }
}
