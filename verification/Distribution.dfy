/**
 Fleet distribution: one verified policy bundle to many registries
 (policy_bundle.py), one verified revocation bundle to many gates (distribution.py),
 and the verifiers of the two reports.
 */
module Distribution {
  import opened Wrappers
  import opened Ordering
  import opened Text
  import opened Crypto
  import opened Canonical
  import opened Models
  import opened Registry
  import Revocation

  // ---- one registry ----

  datatype PolicyAck = PolicyAck(
    gateId: string, policyId: string, bundleId: string, applied: bool, before: Option<int>, after: Option<int>)

  datatype PolicyReport = PolicyReport(
    typ: string, schemaVersion: string, policyId: string, bundleId: string, bundleVersion: int, overallResult: string,
    registries: int, appliedTotal: int, alreadyTotal: int, acks: seq<PolicyAck>)

  const POLICY_REPORT: string := "kinegrant:PolicyDistributionReport"

  /** The gate already runs a version at least as new. */
  predicate UpToDate(s: State, b: Bundle, now: int) {
    AtMost(Some(b.version), CurrentVersion(s, b.policyId, now))
  }

  /** What distribution does to one registry. */
  function Distributed(k: Checks, s: State, e: SignedBundle, now: int): State {
    if UpToDate(s, e.payload, now) then s else Activated(k, s, e, now)
  }

  predicate Refuses(k: Checks, s: State, e: SignedBundle, now: int) {
    !UpToDate(s, e.payload, now) && ActivationError(k, s, e, now).Some?
  }

  predicate Later(a: Option<int>, b: int) {
    a.None? || a.value < b
  }

  /** The higher of a current version and the bundle's. */
  function Highest(a: Option<int>, b: int): Option<int> {
    if Later(a, b) then Some(b) else a
  }

  /**
   A registry that does not refuse ends at the higher of its current version and the
   bundle's, unless it has revoked that version: then its current version stays.
   */
  lemma DistributionReaches(k: Checks, s: State, e: SignedBundle, now: int)
    requires InWindow(e.payload, now) && !Refuses(k, s, e, now)
    ensures var b := e.payload; var t := Distributed(k, s, e, now);
      CurrentVersion(t, b.policyId, now) ==
        if KeyOf(b) in s.revocations then CurrentVersion(s, b.policyId, now)
        else Highest(CurrentVersion(s, b.policyId, now), b.version)
  {
    var b, t := e.payload, Distributed(k, s, e, now);
    var before := CurrentVersion(s, b.policyId, now);
    if !UpToDate(s, b, now) {
      forall v ensures Candidate(t, b.policyId, v, now) <==>
        Candidate(s, b.policyId, v, now) || (v == b.version && KeyOf(b) !in s.revocations)
      {
      }
      var expected := if KeyOf(b) in s.revocations then before else Highest(before, b.version);
      CurrentUnique(t, b.policyId, now, CurrentVersion(t, b.policyId, now), expected);
    }
  }

  /** Distributing again changes nothing. */
  lemma DistributionIdempotent(k: Checks, s: State, e: SignedBundle, now: int)
    requires !Refuses(k, s, e, now)
    ensures Distributed(k, Distributed(k, s, e, now), e, now) == Distributed(k, s, e, now)
    ensures !Refuses(k, Distributed(k, s, e, now), e, now)
  {
    var t := Distributed(k, s, e, now);
    if !UpToDate(s, e.payload, now) {
      assert t.bundles == t.bundles[KeyOf(e.payload) := e.payload];
    }
  }

  datatype DistributionError = BundleRejected(error: BundleError) | GateRefused(gateId: string, cause: BundleError)

  function GateOrder<T>(gates: map<string, T>): (r: seq<string>)
    ensures forall g :: g in r <==> g in gates
    ensures forall i, j :: 0 <= i < j < |r| ==> r[i] != r[j]
  {
    CodePointsDistinct(gates.Keys);
    var r := SortedSet(gates.Keys, CodePoints);
    assert forall i, j :: 0 <= i < j < |r| ==> r[i] != r[j] by {
      forall i, j | 0 <= i < j < |r| ensures r[i] != r[j] { LessIrreflexive(CodePoints(r[i])); }
    }
    r
  }

  // ---- visiting a fleet ----

  datatype Visit<+S, +A, +E> = Visited(state: S, ack: A) | Refused(error: E)

  /** How far a fleet run got: every gate of `done` visited, the others as they were. */
  ghost predicate VisitedAll<S, A, E(!new)>(step: (string, S) -> Visit<S, A, E>, before: map<string, S>, after: map<string, S>,
                                      done: seq<string>, acks: seq<A>)
  {
    && after.Keys == before.Keys && |acks| == |done|
    && (forall g :: g in done ==> g in before && step(g, before[g]).Visited? && after[g] == step(g, before[g]).state)
    && (forall g :: g in before && g !in done ==> after[g] == before[g])
    && (forall i :: 0 <= i < |done| ==> done[i] in before && step(done[i], before[done[i]]).Visited?
                                        && acks[i] == step(done[i], before[done[i]]).ack)
  }

  /** Gates are visited in the order given; the first that refuses ends the run, with the ones before it updated. */
  method VisitFleet<S, A, E(!new)>(step: (string, S) -> Visit<S, A, E>, order: seq<string>, gates: map<string, S>)
    returns (refusal: Option<(string, E)>, after: map<string, S>, acks: seq<A>)
    requires forall g :: g in order <==> g in gates
    requires forall i, j :: 0 <= i < j < |order| ==> order[i] != order[j]
    ensures refusal.None? ==> VisitedAll(step, gates, after, order, acks)
    ensures refusal.Some? ==>
      exists n :: 0 <= n < |order| && VisitedAll(step, gates, after, order[..n], acks)
        && refusal.value.0 == order[n] && step(order[n], gates[order[n]]) == Refused(refusal.value.1)
  {
    refusal, after, acks := None, gates, [];
    for i := 0 to |order|
      invariant VisitedAll(step, gates, after, order[..i], acks)
    {
      var gate := order[i];
      assert gate in gates && gate !in order[..i];
      match step(gate, after[gate]) {
        case Refused(error) => return Some((gate, error)), after, acks;
        case Visited(state, ack) =>
          after, acks := after[gate := state], acks + [ack];
          assert order[..i + 1] == order[..i] + [gate];
      }
    }
    assert order[..|order|] == order;
  }

  // ---- distributing a policy bundle ----

  function PolicyStep(k: Checks, e: SignedBundle, now: int): (string, State) -> Visit<State, PolicyAck, BundleError> {
    (gate: string, s: State) =>
      var b, before := e.payload, CurrentVersion(s, e.payload.policyId, now);
      if UpToDate(s, b, now) then Visited(s, PolicyAck(gate, b.policyId, b.bundleId, false, before, before))
      else
        match ActivationError(k, s, e, now)
        case Some(error) => Refused(error)
        case None =>
          var t := Activated(k, s, e, now);
          Visited(t, PolicyAck(gate, b.policyId, b.bundleId, true, before, CurrentVersion(t, b.policyId, now)))
  }

  /** What a visit does to a registry and acknowledges. */
  ghost predicate StepLaw(step: (string, State) -> Visit<State, PolicyAck, BundleError>, k: Checks, e: SignedBundle, now: int) {
    forall gate, s :: PolicyVisit(step(gate, s), k, e, now, gate, s)
  }

  ghost predicate PolicyVisit(v: Visit<State, PolicyAck, BundleError>, k: Checks, e: SignedBundle, now: int, gate: string, s: State) {
    && (v.Refused? <==> Refuses(k, s, e, now))
    && (v.Visited? ==>
          && v.state == Distributed(k, s, e, now)
          && v.ack == PolicyAck(gate, e.payload.policyId, e.payload.bundleId, !UpToDate(s, e.payload, now),
                                CurrentVersion(s, e.payload.policyId, now), CurrentVersion(v.state, e.payload.policyId, now)))
  }

  lemma PolicyStepLaw(k: Checks, e: SignedBundle, now: int)
    ensures StepLaw(PolicyStep(k, e, now), k, e, now)
  {
  }

  function CountApplied(acks: seq<PolicyAck>): int {
    if acks == [] then 0 else CountApplied(acks[..|acks| - 1]) + if acks[|acks| - 1].applied then 1 else 0
  }

  function ReportOf(b: Bundle, acks: seq<PolicyAck>): PolicyReport {
    PolicyReport(POLICY_REPORT, "0.1", b.policyId, b.bundleId, b.version, "PASS",
                 |acks|, CountApplied(acks), |acks| - CountApplied(acks), acks)
  }

  /** `PolicyDistributor.distribute` */
  method Distribute(k: Checks, trusted: set<string>, e: SignedBundle, registries: map<string, State>, now: int)
    returns (result: Result<PolicyReport, DistributionError>, after: map<string, State>)
    ensures BundleViolation(k, e, OrNone(trusted), now).Some? ==> result.Failure? && after == registries
    ensures result.Success? ==>
      && BundleViolation(k, e, OrNone(trusted), now).None?
      && VisitedAll(PolicyStep(k, e, now), registries, after, GateOrder(registries), result.value.acks)
      && result.value == ReportOf(e.payload, result.value.acks)
    ensures result.Failure? && result.error.GateRefused? ==>
      exists n, acks :: 0 <= n < |GateOrder(registries)| && result.error.gateId == GateOrder(registries)[n]
        && VisitedAll(PolicyStep(k, e, now), registries, after, GateOrder(registries)[..n], acks)
  {
    var violation := BundleViolation(k, e, OrNone(trusted), now);
    if violation.Some? { return Failure(BundleRejected(violation.value)), registries; }
    var refusal, acks;
    refusal, after, acks := VisitFleet(PolicyStep(k, e, now), GateOrder(registries), registries);
    if refusal.Some? { return Failure(GateRefused(refusal.value.0, refusal.value.1)), after; }
    result := Success(ReportOf(e.payload, acks));
  }

  /** What became of one gate of a finished run. */
  lemma VisitedGate<S, A, E(!new)>(step: (string, S) -> Visit<S, A, E>, before: map<string, S>, after: map<string, S>,
                                   order: seq<string>, acks: seq<A>, gate: string)
    requires VisitedAll(step, before, after, order, acks) && gate in before && gate in order
    ensures gate in after && step(gate, before[gate]).Visited? && after[gate] == step(gate, before[gate]).state
  {
  }

  /** `verify_policy_distribution_report` accepts: the bundle verifies, and the report matches it. */
  predicate PolicyReportVerifies(k: Checks, trusted: Option<set<string>>, r: PolicyReport, e: SignedBundle, now: int) {
    BundleViolation(k, e, trusted, now).None? && PolicyReportMatches(r, e.payload)
  }

  predicate PolicyReportMatches(r: PolicyReport, b: Bundle) {
    && r.typ == POLICY_REPORT && r.schemaVersion == "0.1" && r.overallResult == "PASS"
    && r.policyId == b.policyId && r.bundleId == b.bundleId && r.bundleVersion == b.version
    && r.acks != [] && (forall i :: 0 <= i < |r.acks| ==> AckVerifies(r.acks[i], b))
    && r.registries == |r.acks|
    && r.appliedTotal == CountApplied(r.acks) && r.alreadyTotal == |r.acks| - CountApplied(r.acks)
  }

  predicate AckVerifies(a: PolicyAck, b: Bundle) {
    a.gateId != "" && a.policyId == b.policyId && a.bundleId == b.bundleId
  }

  lemma MatchesIff(acks: seq<PolicyAck>, b: Bundle)
    ensures PolicyReportMatches(ReportOf(b, acks), b) <==>
      acks != [] && forall i :: 0 <= i < |acks| ==> AckVerifies(acks[i], b)
  {
  }

  lemma AcksVerify(acks: seq<PolicyAck>, b: Bundle, order: seq<string>)
    requires |acks| == |order| && forall i :: 0 <= i < |order| ==> (AckVerifies(acks[i], b) <==> order[i] != "")
    ensures (forall i :: 0 <= i < |acks| ==> AckVerifies(acks[i], b)) <==> "" !in order
  {
    if "" in order {
      var i :| 0 <= i < |order| && order[i] == "";
      assert !AckVerifies(acks[i], b);
    }
  }

  lemma AckNames(v: Visit<State, PolicyAck, BundleError>, k: Checks, e: SignedBundle, now: int, gate: string, s: State)
    requires PolicyVisit(v, k, e, now, gate, s) && v.Visited?
    ensures AckVerifies(v.ack, e.payload) <==> gate != ""
  {
  }

  /** The distributor's own report matches exactly when there is a gate and none has the empty id. */
  lemma {:induction false} OwnPolicyReportMatches(step: (string, State) -> Visit<State, PolicyAck, BundleError>, k: Checks, e: SignedBundle,
                               registries: map<string, State>, after: map<string, State>, now: int, acks: seq<PolicyAck>)
    requires StepLaw(step, k, e, now) && VisitedAll(step, registries, after, GateOrder(registries), acks)
    ensures PolicyReportMatches(ReportOf(e.payload, acks), e.payload) <==> registries != map[] && "" !in registries
  {
    var order := GateOrder(registries);
    MatchesIff(acks, e.payload);
    OrderNonEmpty(registries);
    forall i | 0 <= i < |acks| ensures AckVerifies(acks[i], e.payload) <==> order[i] != "" {
      AckNames(step(order[i], registries[order[i]]), k, e, now, order[i], registries[order[i]]);
    }
    AcksVerify(acks, e.payload, order);
  }

  lemma OrderNonEmpty<T>(gates: map<string, T>)
    ensures GateOrder(gates) == [] <==> gates == map[]
  {
    if gates != map[] {
      var g :| g in gates;
      assert g in GateOrder(gates);
    }
    if GateOrder(gates) != [] { assert GateOrder(gates)[0] in gates; }
  }

  /** The registry stands where the bundle puts it, and visiting it again leaves it there. */
  predicate Settled(k: Checks, e: SignedBundle, now: int, before: State, after: State) {
    && CurrentVersion(after, e.payload.policyId, now) ==
      (if KeyOf(e.payload) in before.revocations then CurrentVersion(before, e.payload.policyId, now)
       else Highest(CurrentVersion(before, e.payload.policyId, now), e.payload.version))
    && Distributed(k, after, e, now) == after
  }

  /** What one visit does to a registry, and that the next one leaves it. */
  lemma VisitSettles(v: Visit<State, PolicyAck, BundleError>, k: Checks, e: SignedBundle, now: int, gate: string, s: State)
    requires PolicyVisit(v, k, e, now, gate, s) && InWindow(e.payload, now) && v.Visited?
    ensures Settled(k, e, now, s, v.state)
  {
    DistributionReaches(k, s, e, now);
    DistributionIdempotent(k, s, e, now);
  }

  lemma {:induction false} FleetSettled(step: (string, State) -> Visit<State, PolicyAck, BundleError>, k: Checks, e: SignedBundle,
                     registries: map<string, State>, now: int, after: map<string, State>, acks: seq<PolicyAck>)
    requires StepLaw(step, k, e, now) && InWindow(e.payload, now)
    requires VisitedAll(step, registries, after, GateOrder(registries), acks)
    ensures forall g :: g in registries ==> g in after && Settled(k, e, now, registries[g], after[g])
    ensures PolicyReportMatches(ReportOf(e.payload, acks), e.payload) <==> registries != map[] && "" !in registries
  {
    forall g | g in registries ensures g in after && Settled(k, e, now, registries[g], after[g]) {
      assert g in GateOrder(registries);
      VisitedGate(step, registries, after, GateOrder(registries), acks, g);
      VisitSettles(step(g, registries[g]), k, e, now, g, registries[g]);
    }
    OwnPolicyReportMatches(step, k, e, registries, after, now, acks);
  }

  lemma VerifiedInWindow(k: Checks, e: SignedBundle, trusted: Option<set<string>>, now: int)
    requires BundleViolation(k, e, trusted, now).None?
    ensures InWindow(e.payload, now)
  {
  }

  /** All of it, for what `Distribute` returns on success. */
  lemma {:induction false} DistributionOutcome(k: Checks, trusted: set<string>, e: SignedBundle, registries: map<string, State>, now: int,
                            after: map<string, State>, acks: seq<PolicyAck>)
    requires BundleViolation(k, e, OrNone(trusted), now).None?
    requires VisitedAll(PolicyStep(k, e, now), registries, after, GateOrder(registries), acks)
    ensures forall g :: g in registries ==> g in after && Settled(k, e, now, registries[g], after[g])
    ensures PolicyReportVerifies(k, OrNone(trusted), ReportOf(e.payload, acks), e, now)
        <==> registries != map[] && "" !in registries
  {
    PolicyStepLaw(k, e, now);
    VerifiedInWindow(k, e, OrNone(trusted), now);
    FleetSettled(PolicyStep(k, e, now), k, e, registries, now, after, acks);
  }

  // ---- revocation bundles ----

  datatype RevocationBundle = RevocationBundle(
    typ: string, schemaVersion: string, issuer: string, version: int, previousDigest: Option<string>, issuedAt: int,
    revocations: seq<Revocation.RevocationEntry>, bundleId: string)

  type SignedRevocations = Envelope<RevocationBundle>

  const REVOCATION_BUNDLE: string := "kinegrant:RevocationBundle"
  const REVOCATION_REPORT: string := "kinegrant:RevocationDistributionReport"

  /** Signatures, the payload's JSON and its content id. */
  datatype RevocationChecks = RevocationChecks(
    keys: Signatures, render: RevocationBundle -> Json, bundleId: RevocationBundle -> string)

  /** `verify_revocation_bundle` raises nothing. */
  predicate RevocationBundleVerifies(k: RevocationChecks, e: SignedRevocations, trusted: Option<set<string>>, previous: Option<string>) {
    var b := e.payload;
    && VerifyEnvelope(k.keys, k.render, e).Success?
    && b.typ == REVOCATION_BUNDLE && b.schemaVersion == "0.1"
    && (trusted.Some? ==> b.issuer in trusted.value) && b.issuer == e.kid
    && b.version >= 1
    && (b.previousDigest.Some? ==> IsDigest(b.previousDigest.value))
    && (previous.Some? ==> b.previousDigest == previous)
    && b.bundleId == k.bundleId(b)
    && forall r :: r in b.revocations ==> ValidEntry(r)
  }

  predicate ValidEntry(r: Revocation.RevocationEntry) {
    r.capabilityId != "" && r.reason != Some("")
  }

  /** `build_revocation_bundle`; `None` for the errors it raises. */
  function BuildRevocationBundle(k: RevocationChecks, entries: seq<Revocation.RevocationEntry>, issuer: string, version: int,
                                 previousDigest: Option<string>, issuedAt: int): Option<RevocationBundle>
  {
    if version < 1 then None
    else if previousDigest.Some? && !IsDigest(previousDigest.value) then None
    else if issuer == "" then None
    else
      var body := RevocationBundle(REVOCATION_BUNDLE, "0.1", issuer, version, previousDigest, issuedAt, entries, "");
      Some(body.(bundleId := k.bundleId(body)))
  }

  /** The id is taken over the other members. */
  ghost predicate IdLeavesOutItself(k: RevocationChecks) {
    forall b: RevocationBundle, id: string :: k.bundleId(b.(bundleId := id)) == k.bundleId(b)
  }

  /** A bundle its issuer builds and signs verifies exactly where the issuer is trusted and the link is the expected one. */
  lemma BuiltBundleVerifies(k: RevocationChecks, entries: seq<Revocation.RevocationEntry>, issuer: string, version: int,
                            previousDigest: Option<string>, issuedAt: int, trusted: Option<set<string>>, previous: Option<string>)
    requires HoldsKey(k.keys, issuer) && IdLeavesOutItself(k)
    requires forall r :: r in entries ==> ValidEntry(r)
    requires BuildRevocationBundle(k, entries, issuer, version, previousDigest, issuedAt).Some?
    ensures var b := BuildRevocationBundle(k, entries, issuer, version, previousDigest, issuedAt).value;
      RevocationBundleVerifies(k, SignEnvelope(k.keys, k.render, issuer, b), trusted, previous) <==>
        (trusted.Some? ==> issuer in trusted.value) && (previous.Some? ==> previousDigest == previous)
  {
    var b := BuildRevocationBundle(k, entries, issuer, version, previousDigest, issuedAt).value;
    assert b == b.(bundleId := "").(bundleId := b.bundleId);
    assert k.bundleId(b.(bundleId := "").(bundleId := b.bundleId)) == k.bundleId(b.(bundleId := ""));
  }

  /** The ids of a bundle in the order its list holds them, each once. */
  function EntryIds(entries: seq<Revocation.RevocationEntry>): (ids: seq<string>)
    ensures forall x :: x in ids <==> exists r :: r in entries && r.capabilityId == x
    ensures forall i, j :: 0 <= i < j < |ids| ==> ids[i] != ids[j]
  {
    if entries == [] then []
    else
      var before := EntryIds(entries[..|entries| - 1]);
      var last := entries[|entries| - 1];
      assert entries == entries[..|entries| - 1] + [last];
      if last.capabilityId in before then before else before + [last.capabilityId]
  }

  datatype RevocationAck = RevocationAck(gateId: string, bundleId: string, applied: bool, added: int, already: int)

  datatype RevocationReport = RevocationReport(
    typ: string, schemaVersion: string, bundleId: string, bundleVersion: int, overallResult: string,
    gates: int, addedTotal: int, alreadyTotal: int, acks: seq<RevocationAck>)

  /** A gate's list with a bundle's revocations added; what it has already stays as it is. */
  function Absorbed<K, V>(gate: map<K, V>, bundle: map<K, V>): map<K, V> {
    bundle + gate
  }

  /** The gate's list after the entries of `done`. */
  ghost predicate AbsorbedPart<K(!new), V>(gate: map<K, V>, bundle: map<K, V>, done: set<K>, after: map<K, V>) {
    && done <= bundle.Keys
    && (forall x :: x in after <==> x in gate || x in done)
    && (forall x :: x in after ==> after[x] == if x in gate then gate[x] else bundle[x])
  }

  /** The counts after the entries of `done`. */
  ghost predicate Counted<K>(gate: set<K>, done: set<K>, added: int, already: int) {
    added == |done - gate| && already == |done * gate|
  }

  lemma CountPresent<K>(gate: set<K>, done: set<K>, added: int, already: int, id: K)
    requires Counted(gate, done, added, already) && id !in done && id in gate
    ensures Counted(gate, done + {id}, added, already + 1)
  {
    assert (done + {id}) - gate == done - gate;
    assert (done + {id}) * gate == done * gate + {id};
  }

  lemma CountNew<K>(gate: set<K>, done: set<K>, added: int, already: int, id: K)
    requires Counted(gate, done, added, already) && id !in done && id !in gate
    ensures Counted(gate, done + {id}, added + 1, already)
  {
    assert (done + {id}) - gate == (done - gate) + {id};
    assert (done + {id}) * gate == done * gate;
  }

  lemma CountsCoverBundle<K>(gate: set<K>, bundle: set<K>, added: int, already: int)
    requires Counted(gate, bundle, added, already)
    ensures added + already == |bundle|
  {
    assert bundle == (bundle - gate) + (bundle * gate);
  }

  lemma PartStep<K(!new), V>(gate: map<K, V>, bundle: map<K, V>, done: set<K>, after: map<K, V>, id: K)
    requires AbsorbedPart(gate, bundle, done, after) && id in bundle
    ensures id !in done ==> (id in after <==> id in gate)
    ensures AbsorbedPart(gate, bundle, done + {id}, if id in after then after else after[id := bundle[id]])
  {
  }

  lemma PartDone<K(!new), V>(gate: map<K, V>, bundle: map<K, V>, after: map<K, V>)
    requires AbsorbedPart(gate, bundle, bundle.Keys, after)
    ensures after == Absorbed(gate, bundle)
  {
  }

  /** The ids handled by the first `i` rounds. */
  ghost function Seen<K>(ids: seq<K>, i: nat): set<K>
    requires i <= |ids|
  {
    set x | x in ids[..i]
  }

  lemma SeenStep<K>(ids: seq<K>, i: nat)
    requires i < |ids| && forall i, j :: 0 <= i < j < |ids| ==> ids[i] != ids[j]
    ensures ids[i] !in Seen(ids, i) && Seen(ids, i + 1) == Seen(ids, i) + {ids[i]}
  {
    assert ids[..i + 1] == ids[..i] + [ids[i]];
  }

  lemma SeenAll<K(!new), V>(ids: seq<K>, bundle: map<K, V>)
    requires forall x :: x in ids <==> x in bundle
    ensures Seen(ids, |ids|) == bundle.Keys && |bundle| == |bundle.Keys|
  {
    assert ids[..|ids|] == ids;
  }

  /** The inner loop: one gate and all entries of the bundle. */
  method Absorb<K(==,!new), V>(gate: map<K, V>, ids: seq<K>, bundle: map<K, V>) returns (after: map<K, V>, added: int, already: int)
    requires forall x :: x in ids <==> x in bundle
    requires forall i, j :: 0 <= i < j < |ids| ==> ids[i] != ids[j]
    ensures after == Absorbed(gate, bundle)
    ensures added == |bundle.Keys - gate.Keys| && already == |bundle.Keys * gate.Keys| && added + already == |bundle|
  {
    after, added, already := gate, 0, 0;
    for i := 0 to |ids|
      invariant AbsorbedPart(gate, bundle, Seen(ids, i), after)
      invariant Counted(gate.Keys, Seen(ids, i), added, already)
    {
      var id := ids[i];
      assert id in ids;
      SeenStep(ids, i);
      PartStep(gate, bundle, Seen(ids, i), after, id);
      if id in after {
        CountPresent(gate.Keys, Seen(ids, i), added, already, id);
        already := already + 1;
      } else {
        CountNew(gate.Keys, Seen(ids, i), added, already, id);
        after := after[id := bundle[id]];
        added := added + 1;
      }
    }
    SeenAll(ids, bundle);
    PartDone(gate, bundle, after);
    CountsCoverBundle(gate.Keys, bundle.Keys, added, already);
  }

  function TotalAdded(acks: seq<RevocationAck>): int {
    if acks == [] then 0 else TotalAdded(acks[..|acks| - 1]) + acks[|acks| - 1].added
  }

  function TotalAlready(acks: seq<RevocationAck>): int {
    if acks == [] then 0 else TotalAlready(acks[..|acks| - 1]) + acks[|acks| - 1].already
  }

  ghost predicate GateAck(a: RevocationAck, gate: string, b: RevocationBundle, before: Revocation.Revoked, bundle: Revocation.Revoked) {
    && a.gateId == gate && a.bundleId == b.bundleId && a.applied
    && a.added == |bundle.Keys - before.Keys| && a.already == |bundle.Keys * before.Keys|
    && a.added + a.already == |bundle|
  }

  /** Every gate absorbed the bundle and acknowledged how much of it was new. */
  ghost predicate Propagated(b: RevocationBundle, bundle: Revocation.Revoked, order: seq<string>,
                             gates: map<string, Revocation.Revoked>, after: map<string, Revocation.Revoked>,
                             acks: seq<RevocationAck>)
  {
    && after.Keys == gates.Keys && |acks| == |order|
    && (forall g :: g in order ==> g in gates && after[g] == Absorbed(gates[g], bundle))
    && (forall g :: g in gates && g !in order ==> after[g] == gates[g])
    && (forall i :: 0 <= i < |order| ==> order[i] in gates && GateAck(acks[i], order[i], b, gates[order[i]], bundle))
  }

  lemma PropagatedStep(b: RevocationBundle, bundle: Revocation.Revoked, order: seq<string>,
                       gates: map<string, Revocation.Revoked>, after: map<string, Revocation.Revoked>,
                       acks: seq<RevocationAck>, gate: string, ack: RevocationAck)
    requires Propagated(b, bundle, order, gates, after, acks)
    requires gate in gates && gate !in order && GateAck(ack, gate, b, gates[gate], bundle)
    ensures Propagated(b, bundle, order + [gate], gates, after[gate := Absorbed(gates[gate], bundle)], acks + [ack])
  {
  }

  lemma NextGate(order: seq<string>, i: nat)
    requires i < |order| && forall i, j :: 0 <= i < j < |order| ==> order[i] != order[j]
    ensures order[i] in order && order[i] !in order[..i] && order[..i + 1] == order[..i] + [order[i]]
  {
  }

  /** The outer loop over the gates, in the order of their ids. */
  method Propagate(b: RevocationBundle, bundle: Revocation.Revoked, ids: seq<string>, order: seq<string>,
                   gates: map<string, Revocation.Revoked>)
    returns (after: map<string, Revocation.Revoked>, acks: seq<RevocationAck>)
    requires forall x :: x in ids <==> x in bundle
    requires forall i, j :: 0 <= i < j < |ids| ==> ids[i] != ids[j]
    requires forall g :: g in order <==> g in gates
    requires forall i, j :: 0 <= i < j < |order| ==> order[i] != order[j]
    ensures Propagated(b, bundle, order, gates, after, acks)
  {
    after, acks := gates, [];
    for i := 0 to |order|
      invariant Propagated(b, bundle, order[..i], gates, after, acks)
    {
      var gate := order[i];
      NextGate(order, i);
      var merged, added, already := Absorb(after[gate], ids, bundle);
      var ack := RevocationAck(gate, b.bundleId, true, added, already);
      PropagatedStep(b, bundle, order[..i], gates, after, acks, gate, ack);
      after, acks := after[gate := merged], acks + [ack];
    }
    assert order[..|order|] == order;
  }

  function RevocationReportOf(b: RevocationBundle, acks: seq<RevocationAck>): RevocationReport {
    RevocationReport(REVOCATION_REPORT, "0.1", b.bundleId, b.version, "PASS", |acks|, TotalAdded(acks), TotalAlready(acks), acks)
  }

  /** `RevocationDistributor.distribute`: nothing at all unless the bundle verifies, then every gate. */
  method DistributeRevocations(k: RevocationChecks, trusted: set<string>, previous: Option<string>, e: SignedRevocations,
                               gates: map<string, Revocation.Revoked>)
    returns (report: Option<RevocationReport>, after: map<string, Revocation.Revoked>)
    ensures report.Some? <==> RevocationBundleVerifies(k, e, OrNone(trusted), previous)
    ensures report.None? ==> after == gates
    ensures report.Some? ==>
      && report.value == RevocationReportOf(e.payload, report.value.acks)
      && Propagated(e.payload, Revocation.Merged(map[], e.payload.revocations), GateOrder(gates), gates, after,
                    report.value.acks)
  {
    after := gates;
    if !RevocationBundleVerifies(k, e, OrNone(trusted), previous) { return None, after; }
    var bundle := Revocation.Merged(map[], e.payload.revocations);
    var ids := EntryIds(e.payload.revocations);
    MergedIds(map[], e.payload.revocations);
    var acks;
    after, acks := Propagate(e.payload, bundle, ids, GateOrder(gates), gates);
    report := Some(RevocationReportOf(e.payload, acks));
  }

  /** The verifier of the report accepts the distributor's own, also for an empty fleet. */
  lemma {:induction false} OwnRevocationReportMatches(b: RevocationBundle, bundle: Revocation.Revoked, order: seq<string>,
                                   gates: map<string, Revocation.Revoked>, after: map<string, Revocation.Revoked>,
                                   acks: seq<RevocationAck>)
    requires Propagated(b, bundle, order, gates, after, acks)
    ensures RevocationReportMatches(RevocationReportOf(b, acks), b)
    ensures TotalAdded(acks) + TotalAlready(acks) == |order| * |bundle|
  {
    forall i | 0 <= i < |acks| ensures GateAck(acks[i], order[i], b, gates[order[i]], bundle) {}
    TotalsAddUp(acks, |bundle|);
  }

  lemma {:induction false} TotalsAddUp(acks: seq<RevocationAck>, size: nat)
    requires forall i :: 0 <= i < |acks| ==> acks[i].added + acks[i].already == size
    ensures TotalAdded(acks) + TotalAlready(acks) == |acks| * size
  {
    if acks != [] { TotalsAddUp(acks[..|acks| - 1], size); }
  }

  lemma {:induction false} MergedIds(start: Revocation.Revoked, entries: seq<Revocation.RevocationEntry>)
    ensures forall x :: x in Revocation.Merged(start, entries) <==>
      x in start || exists r :: r in entries && r.capabilityId == x
    decreases |entries|
  {
    if entries != [] {
      MergedIds(start[entries[0].capabilityId := entries[0]], entries[1..]);
      assert forall r :: r in entries <==> r == entries[0] || r in entries[1..];
    }
  }

  /** The part of `verify_distribution_report` that compares a report with a bundle. */
  predicate RevocationReportMatches(r: RevocationReport, b: RevocationBundle) {
    && r.typ == REVOCATION_REPORT && r.schemaVersion == "0.1" && r.overallResult == "PASS"
    && r.bundleId == b.bundleId && r.bundleVersion == b.version
    && (forall i :: 0 <= i < |r.acks| ==> r.acks[i].bundleId == b.bundleId && r.acks[i].applied)
    && r.gates == |r.acks| && r.addedTotal == TotalAdded(r.acks) && r.alreadyTotal == TotalAlready(r.acks)
  }

  /** `verify_distribution_report` accepts: the bundle verifies, whatever it links to, and the report matches it. */
  predicate RevocationReportVerifies(k: RevocationChecks, trusted: Option<set<string>>, r: RevocationReport, e: SignedRevocations) {
    RevocationBundleVerifies(k, e, trusted, None) && RevocationReportMatches(r, e.payload)
  }

  lemma LinkNotNeeded(k: RevocationChecks, e: SignedRevocations, trusted: Option<set<string>>, previous: Option<string>)
    requires RevocationBundleVerifies(k, e, trusted, previous)
    ensures RevocationBundleVerifies(k, e, trusted, None)
  {
  }

  /** Absorbing a bundle again adds nothing and finds every entry present. */
  lemma AbsorbIdempotent(gate: Revocation.Revoked, bundle: Revocation.Revoked)
    ensures Absorbed(Absorbed(gate, bundle), bundle) == Absorbed(gate, bundle)
    ensures bundle.Keys - Absorbed(gate, bundle).Keys == {}
    ensures bundle.Keys * Absorbed(gate, bundle).Keys == bundle.Keys
  {
  }

  /** The gate has every id of the bundle, and a second pass would add none. */
  ghost predicate CarriesAll(entries: seq<Revocation.RevocationEntry>, after: Revocation.Revoked) {
    && (forall r :: r in entries ==> r.capabilityId in after)
    && Absorbed(after, Revocation.Merged(map[], entries)) == after
  }

  lemma AbsorbedCarriesAll(entries: seq<Revocation.RevocationEntry>, gate: Revocation.Revoked)
    ensures CarriesAll(entries, Absorbed(gate, Revocation.Merged(map[], entries)))
  {
    var bundle := Revocation.Merged(map[], entries);
    MergedIds(map[], entries);
    forall r | r in entries ensures r.capabilityId in Absorbed(gate, bundle) { assert r.capabilityId in bundle; }
    AbsorbIdempotent(gate, bundle);
  }

  /** For what `DistributeRevocations` reports: it verifies, and every gate carries all of the bundle. */
  lemma RevocationOutcome(k: RevocationChecks, trusted: Option<set<string>>, previous: Option<string>, e: SignedRevocations,
                          order: seq<string>, gates: map<string, Revocation.Revoked>,
                          after: map<string, Revocation.Revoked>, acks: seq<RevocationAck>)
    requires RevocationBundleVerifies(k, e, trusted, previous) && forall g :: g in order <==> g in gates
    requires Propagated(e.payload, Revocation.Merged(map[], e.payload.revocations), order, gates, after, acks)
    ensures RevocationReportVerifies(k, trusted, RevocationReportOf(e.payload, acks), e)
    ensures forall g :: g in gates ==> g in after && CarriesAll(e.payload.revocations, after[g])
  {
    LinkNotNeeded(k, e, trusted, previous);
    OwnRevocationReportMatches(e.payload, Revocation.Merged(map[], e.payload.revocations), order, gates, after, acks);
    forall g | g in gates ensures g in after && CarriesAll(e.payload.revocations, after[g]) {
      assert g in order;
      AbsorbedCarriesAll(e.payload.revocations, gates[g]);
    }
  }
}
