/**
 Signed policy bundles and the registry that holds them (policy_bundle.py): many
 versions of many policies, of which the highest that is neither revoked nor out
 of its window is current.
 */
module Registry {
  import opened Wrappers
  import opened Text
  import opened Crypto
  import opened Canonical
  import opened Models
  import opened Policy

  datatype Bundle = Bundle(
    typ: string,
    schemaVersion: string,
    policyId: string,
    issuer: string,
    version: int,
    previousDigest: Option<string>,
    issuedAt: int,
    notBefore: int,
    notAfter: int,
    rules: seq<PolicyRule>,
    policyDigest: string,
    bundleId: string)

  type SignedBundle = Envelope<Bundle>

  datatype BundleError =
    | BadEnvelope | WrongType | UnsupportedVersion | UntrustedAuthority | IssuerNotSigner | BlankPolicyId
    | InvalidVersion | InvalidPreviousDigest | NoRules | DigestMismatch | InvalidRule | InvalidWindow | OutsideWindow
    | Conflict

  /** Signatures, the payload's JSON, and the digest of a list of rules. */
  datatype Checks = Checks(keys: Signatures, render: Bundle -> Json, rulesDigest: seq<PolicyRule> -> string)

  const BUNDLE_TYPE: string := "kinegrant:PolicyBundle"

  predicate NonBlankAll(s: seq<string>) {
    s != [] && forall i :: 0 <= i < |s| ==> !Blank(s[i])
  }

  /** What the constructor of a rule insists on. */
  predicate WellFormedRule(rule: PolicyRule) {
    && !Blank(rule.policyId) && !Blank(rule.issuer) && !Blank(rule.target)
    && NonBlankAll(rule.actions) && NonBlankAll(rule.subjects) && NonBlankAll(rule.purposes)
  }

  predicate InWindow(b: Bundle, now: int) {
    b.notBefore <= now < b.notAfter
  }

  /** `verify_policy_bundle`; an omitted trust set skips the authority check. */
  function BundleViolation(k: Checks, e: SignedBundle, trusted: Option<set<string>>, now: int): Option<BundleError> {
    var b := e.payload;
    if VerifyEnvelope(k.keys, k.render, e).Failure? then Some(BadEnvelope)
    else if b.typ != BUNDLE_TYPE then Some(WrongType)
    else if b.schemaVersion != "0.1" then Some(UnsupportedVersion)
    else if trusted.Some? && b.issuer !in trusted.value then Some(UntrustedAuthority)
    else if b.issuer != e.kid then Some(IssuerNotSigner)
    else if Blank(b.policyId) then Some(BlankPolicyId)
    else if b.version < 1 then Some(InvalidVersion)
    else if b.previousDigest.Some? && !IsDigest(b.previousDigest.value) then Some(InvalidPreviousDigest)
    else if b.rules == [] then Some(NoRules)
    else if b.policyDigest != k.rulesDigest(b.rules) then Some(DigestMismatch)
    else if exists i :: 0 <= i < |b.rules| && !WellFormedRule(b.rules[i]) then Some(InvalidRule)
    else if b.notAfter <= b.notBefore then Some(InvalidWindow)
    else if !InWindow(b, now) then Some(OutsideWindow)
    else None
  }

  /** `trusted or None`: an empty set is as good as none. */
  function OrNone(trusted: set<string>): Option<set<string>> {
    if trusted == {} then None else Some(trusted)
  }

  type Key = (string, int)

  function KeyOf(b: Bundle): Key {
    (b.policyId, b.version)
  }

  datatype PolicyRevocation = PolicyRevocation(policyId: string, version: int, reason: Option<string>, at: int)

  datatype State = State(trusted: set<string>, bundles: map<Key, Bundle>, revocations: map<Key, PolicyRevocation>)

  /** Every bundle is stored under its own policy and version. */
  ghost predicate WellKeyed(s: State) {
    forall k :: k in s.bundles ==> KeyOf(s.bundles[k]) == k
  }

  // ---- operations ----

  function ActivationError(k: Checks, s: State, e: SignedBundle, now: int): Option<BundleError> {
    var error := BundleViolation(k, e, OrNone(s.trusted), now);
    if error.Some? then error
    else if KeyOf(e.payload) in s.bundles && s.bundles[KeyOf(e.payload)] != e.payload then Some(Conflict)
    else None
  }

  function Activated(k: Checks, s: State, e: SignedBundle, now: int): State {
    if ActivationError(k, s, e, now).Some? then s
    else s.(bundles := s.bundles[KeyOf(e.payload) := e.payload])
  }

  predicate Revocable(policyId: string, version: int) {
    !Blank(policyId) && version >= 1
  }

  function RevokedState(s: State, r: PolicyRevocation): State {
    if Revocable(r.policyId, r.version) then s.(revocations := s.revocations[(r.policyId, r.version) := r]) else s
  }

  /** A version of a policy that may be current at an instant. */
  predicate Candidate(s: State, policyId: string, version: int, now: int) {
    (policyId, version) in s.bundles && (policyId, version) !in s.revocations && InWindow(s.bundles[(policyId, version)], now)
  }

  /** The highest candidate version, if there is one. */
  ghost predicate IsCurrent(s: State, policyId: string, now: int, version: Option<int>) {
    match version
    case None => forall v :: !Candidate(s, policyId, v, now)
    case Some(v) => Candidate(s, policyId, v, now) && forall w :: Candidate(s, policyId, w, now) ==> w <= v
  }

  lemma CurrentUnique(s: State, policyId: string, now: int, a: Option<int>, b: Option<int>)
    requires IsCurrent(s, policyId, now, a) && IsCurrent(s, policyId, now, b)
    ensures a == b
  {
  }

  class PolicyRegistry {
    const checks: Checks
    const trusted: set<string>
    var bundles: map<Key, Bundle>
    var revocations: map<Key, PolicyRevocation>

    function Value(): State
      reads this
    {
      State(trusted, bundles, revocations)
    }

    constructor (checks: Checks, trusted: set<string>)
      ensures this.checks == checks && Value() == State(trusted, map[], map[]) && WellKeyed(Value())
    {
      this.checks, this.trusted := checks, trusted;
      bundles, revocations := map[], map[];
    }

    method Activate(e: SignedBundle, now: int) returns (r: Result<Bundle, BundleError>)
      modifies this
      ensures Value() == Activated(checks, old(Value()), e, now)
      ensures r == match ActivationError(checks, old(Value()), e, now)
                   case Some(error) => Failure(error)
                   case None => Success(e.payload)
      ensures WellKeyed(old(Value())) ==> WellKeyed(Value())
    {
      var error := BundleViolation(checks, e, OrNone(trusted), now);
      if error.Some? { return Failure(error.value); }
      var key := KeyOf(e.payload);
      if key in bundles && bundles[key] != e.payload { return Failure(Conflict); }
      bundles := bundles[key := e.payload];
      r := Success(e.payload);
    }

    method Revoke(policyId: string, version: int, reason: Option<string>, at: int) returns (done: bool)
      modifies this
      ensures Value() == RevokedState(old(Value()), PolicyRevocation(policyId, version, reason, at))
      ensures done == Revocable(policyId, version)
    {
      done := Revocable(policyId, version);
      if done {
        revocations := revocations[(policyId, version) := PolicyRevocation(policyId, version, reason, at)];
      }
    }

    /** Collects the candidates and takes the highest. */
    method Current(policyId: string, now: int) returns (current: Option<Bundle>)
      requires WellKeyed(Value())
      ensures IsCurrent(Value(), policyId, now, if current.Some? then Some(current.value.version) else None)
      ensures current.Some? ==> (policyId, current.value.version) in bundles
                                && bundles[(policyId, current.value.version)] == current.value
    {
      current := None;
      var rest := bundles.Keys;
      while rest != {}
        invariant rest <= bundles.Keys
        invariant current.Some? ==>
          && Candidate(Value(), policyId, current.value.version, now)
          && bundles[(policyId, current.value.version)] == current.value
        invariant forall v :: Candidate(Value(), policyId, v, now) && (policyId, v) !in rest ==>
          current.Some? && v <= current.value.version
        decreases rest
      {
        var key :| key in rest;
        rest := rest - {key};
        if key.0 == policyId && key !in revocations && InWindow(bundles[key], now) {
          assert KeyOf(bundles[key]) == key;
          if current.None? || current.value.version < key.1 { current := Some(bundles[key]); }
        }
      }
    }
  }

  /** The versions of a policy that may be current. */
  function Candidates(s: State, policyId: string, now: int): set<int> {
    set k | k in s.bundles && k.0 == policyId && Candidate(s, policyId, k.1, now) :: k.1
  }

  lemma Member<T>(s: set<T>) returns (x: T)
    requires s != {}
    ensures x in s
  {
    x :| x in s;
  }

  lemma {:induction false} HighestExists(versions: set<int>)
    requires versions != {}
    ensures exists v :: v in versions && forall w :: w in versions ==> w <= v
    decreases versions
  {
    var v := Member(versions);
    if versions != {v} {
      assert versions == {v} + (versions - {v});
      HighestExists(versions - {v});
      var u :| u in versions - {v} && forall w :: w in versions - {v} ==> w <= u;
      var top := if u < v then v else u;
      assert top in versions && forall w :: w in versions ==> w <= top;
    }
  }

  /** The current version of the registry as a value. */
  function CurrentVersion(s: State, policyId: string, now: int): (v: Option<int>)
    ensures IsCurrent(s, policyId, now, v)
  {
    var versions := Candidates(s, policyId, now);
    assert forall v :: Candidate(s, policyId, v, now) ==> (policyId, v) in s.bundles && v in versions;
    if versions == {} then None
    else
      HighestExists(versions);
      var v :| v in versions && forall w :: w in versions ==> w <= v;
      Some(v)
  }

  // ---- activation never lowers, revocation never raises ----

  predicate AtMost(a: Option<int>, b: Option<int>) {
    a.Some? ==> b.Some? && a.value <= b.value
  }

  /** For every policy, at every instant, whether the activation succeeds or not. */
  lemma ActivationNeverLowers(k: Checks, s: State, e: SignedBundle, now: int, policyId: string, t: int)
    ensures AtMost(CurrentVersion(s, policyId, t), CurrentVersion(Activated(k, s, e, now), policyId, t))
  {
    var s' := Activated(k, s, e, now);
    var v := CurrentVersion(s, policyId, t);
    if v.Some? { assert Candidate(s', policyId, v.value, t); }
  }

  lemma RevocationNeverRaises(s: State, r: PolicyRevocation, policyId: string, t: int)
    ensures AtMost(CurrentVersion(RevokedState(s, r), policyId, t), CurrentVersion(s, policyId, t))
  {
    var v := CurrentVersion(RevokedState(s, r), policyId, t);
    if v.Some? { assert Candidate(s, policyId, v.value, t); }
  }

  // ---- convergence ----

  datatype Operation =
    | Activate(bundle: SignedBundle, now: int)
    | Revoke(revocation: PolicyRevocation)

  /** The operation is an activation whose bundle passes verification. */
  function Verifying(k: Checks, trusted: set<string>): Operation -> bool {
    (op: Operation) => op.Activate? && BundleViolation(k, op.bundle, OrNone(trusted), op.now).None?
  }

  /** One operation, given which activations pass verification. */
  function AppliedIf(ok: Operation -> bool, s: State, op: Operation): State {
    match op
    case Activate(e, now) =>
      var key := KeyOf(e.payload);
      if !ok(op) || (key in s.bundles && s.bundles[key] != e.payload) then s
      else s.(bundles := s.bundles[key := e.payload])
    case Revoke(r) => RevokedState(s, r)
  }

  lemma AppliedIsActivated(k: Checks, s: State, e: SignedBundle, now: int)
    ensures AppliedIf(Verifying(k, s.trusted), s, Activate(e, now)) == Activated(k, s, e, now)
  {
  }

  function RunIf(ok: Operation -> bool, s: State, ops: seq<Operation>): State {
    if ops == [] then s else AppliedIf(ok, RunIf(ok, s, ops[..|ops| - 1]), ops[|ops| - 1])
  }

  /** A run of activations and revocations on a registry. */
  function Run(k: Checks, s: State, ops: seq<Operation>): State {
    RunIf(Verifying(k, s.trusted), s, ops)
  }

  /** No two verified bundles, stored or to be activated, share a version and differ. */
  ghost predicate NonConflicting(ok: Operation -> bool, s: State, ops: seq<Operation>) {
    && (forall a, b ::
          a in ops && b in ops && a.Activate? && b.Activate? && ok(a) && ok(b)
          && KeyOf(a.bundle.payload) == KeyOf(b.bundle.payload)
          ==> a.bundle.payload == b.bundle.payload)
    && (forall a :: a in ops && a.Activate? && ok(a) && KeyOf(a.bundle.payload) in s.bundles ==>
          s.bundles[KeyOf(a.bundle.payload)] == a.bundle.payload)
  }

  /** Some operation brings exactly this bundle. */
  ghost predicate Brought(ok: Operation -> bool, ops: seq<Operation>, b: Bundle) {
    exists op :: op in ops && op.Activate? && ok(op) && op.bundle.payload == b
  }

  predicate Withdraws(op: Operation, key: Key) {
    && op.Revoke? && Revocable(op.revocation.policyId, op.revocation.version)
    && (op.revocation.policyId, op.revocation.version) == key
  }

  ghost predicate Withdrawn(ops: seq<Operation>, key: Key) {
    exists op :: op in ops && Withdraws(op, key)
  }

  /** The registry holds what it held and what was brought: the order of the operations is not in it. */
  ghost predicate HoldsBundles(ok: Operation -> bool, s: State, ops: seq<Operation>, t: State) {
    && (forall key :: key in t.bundles ==>
          (key in s.bundles && t.bundles[key] == s.bundles[key])
          || (KeyOf(t.bundles[key]) == key && Brought(ok, ops, t.bundles[key])))
    && (forall key :: key in s.bundles ==> key in t.bundles && t.bundles[key] == s.bundles[key])
    && (forall b :: Brought(ok, ops, b) ==> KeyOf(b) in t.bundles && t.bundles[KeyOf(b)] == b)
  }

  ghost predicate HoldsMarks(s: State, ops: seq<Operation>, t: State) {
    forall key :: key in t.revocations <==> key in s.revocations || Withdrawn(ops, key)
  }

  lemma BroughtStep(ok: Operation -> bool, ops: seq<Operation>, op: Operation, b: Bundle)
    ensures Brought(ok, ops + [op], b) <==>
      Brought(ok, ops, b) || (op.Activate? && ok(op) && op.bundle.payload == b)
  {
    assert forall x :: x in ops + [op] <==> x in ops || x == op;
  }

  lemma MarksStep(ok: Operation -> bool, s: State, ops: seq<Operation>, op: Operation, t: State)
    requires HoldsMarks(s, ops, t)
    ensures HoldsMarks(s, ops + [op], AppliedIf(ok, t, op))
  {
    forall key ensures Withdrawn(ops + [op], key) <==> Withdrawn(ops, key) || Withdraws(op, key) {
      assert forall x :: x in ops + [op] <==> x in ops || x == op;
    }
  }

  lemma BundlesStep(ok: Operation -> bool, s: State, ops: seq<Operation>, op: Operation, t: State)
    requires HoldsBundles(ok, s, ops, t) && NonConflicting(ok, s, ops + [op])
    ensures HoldsBundles(ok, s, ops + [op], AppliedIf(ok, t, op))
  {
    forall b ensures Brought(ok, ops + [op], b) <==>
      Brought(ok, ops, b) || (op.Activate? && ok(op) && op.bundle.payload == b)
    {
      BroughtStep(ok, ops, op, b);
    }
    if op.Activate? && ok(op) { StoredAgrees(ok, s, ops, op, t); }
  }

  /** What is stored under the version of a verified bundle, if anything, is that bundle. */
  lemma StoredAgrees(ok: Operation -> bool, s: State, ops: seq<Operation>, op: Operation, t: State)
    requires HoldsBundles(ok, s, ops, t) && NonConflicting(ok, s, ops + [op]) && op.Activate? && ok(op)
    ensures KeyOf(op.bundle.payload) in t.bundles ==> t.bundles[KeyOf(op.bundle.payload)] == op.bundle.payload
  {
    var key := KeyOf(op.bundle.payload);
    assert op in ops + [op];
    if key in t.bundles && !(key in s.bundles && t.bundles[key] == s.bundles[key]) {
      var earlier :| earlier in ops && earlier.Activate? && ok(earlier) && earlier.bundle.payload == t.bundles[key];
      assert earlier in ops + [op];
    }
  }

  lemma {:induction false} RunHolds(ok: Operation -> bool, s: State, ops: seq<Operation>)
    requires NonConflicting(ok, s, ops)
    ensures HoldsBundles(ok, s, ops, RunIf(ok, s, ops)) && HoldsMarks(s, ops, RunIf(ok, s, ops))
    decreases |ops|
  {
    if ops != [] {
      var before, last := ops[..|ops| - 1], ops[|ops| - 1];
      assert ops == before + [last];
      RunHolds(ok, s, before);
      BundlesStep(ok, s, before, last, RunIf(ok, s, before));
      MarksStep(ok, s, before, last, RunIf(ok, s, before));
    }
  }

  /**
   Two runs of the same non-conflicting operations, in any order and with any
   repetitions, end with the same bundles and the same revoked versions, and so with
   the same current version of every policy at every instant.
   */
  lemma Converges(k: Checks, s: State, a: seq<Operation>, b: seq<Operation>)
    requires NonConflicting(Verifying(k, s.trusted), s, a) && forall op :: op in a <==> op in b
    ensures Run(k, s, a).bundles == Run(k, s, b).bundles
    ensures Run(k, s, a).revocations.Keys == Run(k, s, b).revocations.Keys
    ensures forall p, t :: CurrentVersion(Run(k, s, a), p, t) == CurrentVersion(Run(k, s, b), p, t)
  {
    var ok := Verifying(k, s.trusted);
    RunHolds(ok, s, a);
    RunHolds(ok, s, b);
    SameHoldings(ok, s, a, b, Run(k, s, a), Run(k, s, b));
    forall p, t ensures CurrentVersion(Run(k, s, a), p, t) == CurrentVersion(Run(k, s, b), p, t) {
      SameCandidates(Run(k, s, a), Run(k, s, b), p, t);
    }
  }

  lemma HoldsWithin(ok: Operation -> bool, s: State, a: seq<Operation>, b: seq<Operation>, x: State, y: State)
    requires HoldsBundles(ok, s, a, x) && HoldsBundles(ok, s, b, y)
    requires forall op :: op in a ==> op in b
    ensures forall key :: key in x.bundles ==> key in y.bundles && x.bundles[key] == y.bundles[key]
  {
    forall key | key in x.bundles ensures key in y.bundles && x.bundles[key] == y.bundles[key] {
      if !(key in s.bundles && x.bundles[key] == s.bundles[key]) {
        var op :| op in a && op.Activate? && ok(op) && op.bundle.payload == x.bundles[key];
        assert Brought(ok, b, x.bundles[key]);
      }
    }
  }

  lemma SameHoldings(ok: Operation -> bool, s: State, a: seq<Operation>, b: seq<Operation>, x: State, y: State)
    requires HoldsBundles(ok, s, a, x) && HoldsBundles(ok, s, b, y) && HoldsMarks(s, a, x) && HoldsMarks(s, b, y)
    requires forall op :: op in a <==> op in b
    ensures x.bundles == y.bundles && x.revocations.Keys == y.revocations.Keys
  {
    HoldsWithin(ok, s, a, b, x, y);
    HoldsWithin(ok, s, b, a, y, x);
    forall key ensures Withdrawn(a, key) <==> Withdrawn(b, key) {
      if Withdrawn(a, key) { var op :| op in a && Withdraws(op, key); assert op in b; }
      if Withdrawn(b, key) { var op :| op in b && Withdraws(op, key); assert op in a; }
    }
  }

  lemma SameCandidates(x: State, y: State, policyId: string, now: int)
    requires x.bundles == y.bundles && x.revocations.Keys == y.revocations.Keys
    ensures CurrentVersion(x, policyId, now) == CurrentVersion(y, policyId, now)
  {
    forall v ensures Candidate(x, policyId, v, now) <==> Candidate(y, policyId, v, now) {
      assert (policyId, v) in x.revocations.Keys <==> (policyId, v) in y.revocations.Keys;
    }
    CurrentUnique(y, policyId, now, CurrentVersion(x, policyId, now), CurrentVersion(y, policyId, now));
  }

  // ---- the browser's running best ----

  /** The string the browser's revocation set holds for a version. */
  function RevocationName(policyId: string, version: int): string {
    policyId + ":" + NumberText(version)
  }

  /** The window as the browser reads it, at an instant in milliseconds. */
  predicate JsInWindow(b: Bundle, now: int) {
    Milliseconds(b.notBefore) <= now < Milliseconds(b.notAfter)
  }

  predicate Eligible(revoked: set<string>, now: int, b: Bundle) {
    RevocationName(b.policyId, b.version) !in revoked && JsInWindow(b, now)
  }

  /** The first of the highest eligible payloads. */
  ghost predicate IsBest(payloads: seq<Bundle>, revoked: set<string>, now: int, best: Option<Bundle>) {
    match best
    case None => forall b :: b in payloads ==> !Eligible(revoked, now, b)
    case Some(p) =>
      exists i :: 0 <= i < |payloads| && payloads[i] == p && Eligible(revoked, now, p)
        && (forall j :: 0 <= j < i && Eligible(revoked, now, payloads[j]) ==> payloads[j].version < p.version)
        && (forall j :: i < j < |payloads| && Eligible(revoked, now, payloads[j]) ==> payloads[j].version <= p.version)
  }

  lemma BestStep(payloads: seq<Bundle>, revoked: set<string>, now: int, best: Option<Bundle>, p: Bundle)
    requires IsBest(payloads, revoked, now, best)
    ensures var better := Eligible(revoked, now, p) && (best.None? || p.version > best.value.version);
      IsBest(payloads + [p], revoked, now, if better then Some(p) else best)
  {
    var more := payloads + [p];
    if Eligible(revoked, now, p) && (best.None? || p.version > best.value.version) {
      forall j | 0 <= j < |payloads| && Eligible(revoked, now, payloads[j]) ensures payloads[j].version < p.version {
        assert payloads[j] in payloads;
      }
      assert more[|payloads|] == p;
    } else if best.Some? {
      var i :| 0 <= i < |payloads| && payloads[i] == best.value && Eligible(revoked, now, best.value)
        && (forall j :: 0 <= j < i && Eligible(revoked, now, payloads[j]) ==> payloads[j].version < best.value.version)
        && (forall j :: i < j < |payloads| && Eligible(revoked, now, payloads[j]) ==> payloads[j].version <= best.value.version);
      assert more[i] == best.value;
    }
  }

  /** `currentPolicyVersion`, `now` in milliseconds: the best payload, or an error when one is malformed. */
  method CurrentPolicyVersion(payloads: seq<Bundle>, revoked: set<string>, now: int) returns (ok: bool, best: Option<Bundle>)
    ensures ok <==> forall b :: b in payloads ==> b.policyId != "" && b.version >= 1
    ensures ok ==> IsBest(payloads, revoked, now, best)
  {
    ok, best := true, None;
    for i := 0 to |payloads|
      invariant ok && forall b :: b in payloads[..i] ==> b.policyId != "" && b.version >= 1
      invariant IsBest(payloads[..i], revoked, now, best)
    {
      var payload := payloads[i];
      assert payload in payloads && payloads[..i + 1] == payloads[..i] + [payload];
      if payload.policyId == "" || payload.version < 1 { return false, None; }
      BestStep(payloads[..i], revoked, now, best, payload);
      if RevocationName(payload.policyId, payload.version) in revoked { continue; }
      if !JsInWindow(payload, now) { continue; }
      if best.None? || payload.version > best.value.version { best := Some(payload); }
    }
    assert payloads[..|payloads|] == payloads;
  }

  /** The two readings of a window agree at every instant exactly when it begins and ends on a millisecond. */
  lemma WindowsAgree(b: Bundle)
    requires b.notBefore < b.notAfter
    ensures (forall t :: JsInWindow(b, Milliseconds(t)) <==> InWindow(b, t)) <==>
      b.notBefore % 1000 == 0 && b.notAfter % 1000 == 0
  {
    if b.notBefore % 1000 != 0 {
      var t := if Milliseconds(b.notBefore) < Milliseconds(b.notAfter) then b.notBefore - 1 else b.notBefore;
      assert JsInWindow(b, Milliseconds(t)) != InWindow(b, t);
    } else if b.notAfter % 1000 != 0 {
      var t := b.notAfter - 1;
      assert JsInWindow(b, Milliseconds(t)) != InWindow(b, t);
    }
  }

  /** The last colon splits a text in one way. */
  lemma LastColon(p: string, a: string, q: string, b: string)
    requires ':' !in a && ':' !in b && p + (":" + a) == q + (":" + b)
    ensures p == q && a == b
  {
    var s := p + (":" + a);
    assert s[|p|] == ':' && s[|q|] == ':';
    assert forall i :: |p| < i < |s| ==> s[i] in a;
    assert forall i :: |q| < i < |s| ==> s[i] in b;
    assert |p| == |q|;
    assert p == s[..|p|] == q;
    assert a == s[|p| + 1..] == b;
  }

  /** A name stands for one version of one policy, also when the policy's id contains colons. */
  lemma RevocationNameInjective(p: string, v: int, q: string, w: int)
    requires v >= 1 && w >= 1 && RevocationName(p, v) == RevocationName(q, w)
    ensures p == q && v == w
  {
    DigitsShape(v);
    DigitsShape(w);
    var a, b := Digits(v), Digits(w);
    Associate(p, ":", a);
    Associate(q, ":", b);
    LastColon(p, a, q, b);
  }

  /** The payloads are the registry's bundles of one policy, and the names those of its revoked versions. */
  ghost predicate Lists(s: State, policyId: string, payloads: seq<Bundle>, revoked: set<string>) {
    && (forall b :: b in payloads <==> (policyId, b.version) in s.bundles && s.bundles[(policyId, b.version)] == b)
    && (forall key :: key in s.bundles ==> key.1 >= 1)
    && (forall name :: name in revoked <==> exists key :: key in s.revocations && RevocationName(key.0, key.1) == name)
    && (forall key :: key in s.revocations ==> key.1 >= 1)
  }

  /** The two readings of the windows agree at the instant, for every payload. */
  predicate WindowsReadAlike(payloads: seq<Bundle>, now: int) {
    forall b :: b in payloads ==> (JsInWindow(b, Milliseconds(now)) <==> InWindow(b, now))
  }

  /** The running best is the registry's current bundle, wherever the windows are read alike. */
  lemma RunningBestIsCurrent(s: State, policyId: string, payloads: seq<Bundle>, revoked: set<string>, now: int, best: Option<Bundle>)
    requires WellKeyed(s) && Lists(s, policyId, payloads, revoked) && WindowsReadAlike(payloads, now)
    requires IsBest(payloads, revoked, Milliseconds(now), best)
    ensures CurrentVersion(s, policyId, now) == if best.Some? then Some(best.value.version) else None
    ensures best.Some? ==> (policyId, best.value.version) in s.bundles && s.bundles[(policyId, best.value.version)] == best.value
  {
    var at := Milliseconds(now);
    if best.Some? { assert best.value in payloads; }
    forall v ensures Candidate(s, policyId, v, now) <==>
      (policyId, v) in s.bundles && s.bundles[(policyId, v)] in payloads && Eligible(revoked, at, s.bundles[(policyId, v)])
    {
      if (policyId, v) in s.bundles {
        assert KeyOf(s.bundles[(policyId, v)]) == (policyId, v);
        EligibleIffNotRevoked(s, policyId, v, revoked);
      }
    }
    var v := if best.Some? then Some(best.value.version) else None;
    CurrentUnique(s, policyId, now, CurrentVersion(s, policyId, now), v);
  }

  /** So it is at every instant when the windows begin and end on milliseconds. */
  lemma RunningBestOfWholeWindows(s: State, policyId: string, payloads: seq<Bundle>, revoked: set<string>, now: int, best: Option<Bundle>)
    requires WellKeyed(s) && Lists(s, policyId, payloads, revoked)
    requires forall b :: b in payloads ==> b.notBefore % 1000 == 0 && b.notAfter % 1000 == 0
    requires IsBest(payloads, revoked, Milliseconds(now), best)
    ensures CurrentVersion(s, policyId, now) == if best.Some? then Some(best.value.version) else None
  {
    RunningBestIsCurrent(s, policyId, payloads, revoked, now, best);
  }

  /**
   In the millisecond in which a newer version begins, but before it does, the browser
   already has the newer and the registry still the older.
   */
  lemma RunningBestRunsAhead(older: Bundle, next: Bundle, now: int)
    requires older.policyId == next.policyId && 1 <= older.version < next.version
    requires InWindow(older, now) && Milliseconds(now) < Milliseconds(older.notAfter)
    requires now < next.notBefore && Milliseconds(now) == Milliseconds(next.notBefore) < Milliseconds(next.notAfter)
    ensures var s := State({}, map[KeyOf(older) := older, KeyOf(next) := next], map[]);
      && WellKeyed(s) && Lists(s, older.policyId, [older, next], {})
      && CurrentVersion(s, older.policyId, now) == Some(older.version)
      && forall best :: IsBest([older, next], {}, Milliseconds(now), best) ==> best == Some(next)
  {
    var s := State({}, map[KeyOf(older) := older, KeyOf(next) := next], map[]);
    var payloads := [older, next];
    assert forall b :: b in payloads <==> b == older || b == next;
    assert IsCurrent(s, older.policyId, now, Some(older.version));
    CurrentUnique(s, older.policyId, now, CurrentVersion(s, older.policyId, now), Some(older.version));
    forall best | IsBest(payloads, {}, Milliseconds(now), best) ensures best == Some(next) {
      assert Eligible({}, Milliseconds(now), next) && payloads[1] == next && payloads[0] == older;
    }
  }

  lemma EligibleIffNotRevoked(s: State, policyId: string, version: int, revoked: set<string>)
    requires version >= 1
    requires forall name :: name in revoked <==> exists key :: key in s.revocations && RevocationName(key.0, key.1) == name
    requires forall key :: key in s.revocations ==> key.1 >= 1
    ensures RevocationName(policyId, version) in revoked <==> (policyId, version) in s.revocations
  {
    if RevocationName(policyId, version) in revoked {
      var key :| key in s.revocations && RevocationName(key.0, key.1) == RevocationName(policyId, version);
      RevocationNameInjective(key.0, key.1, policyId, version);
    }
    if (policyId, version) in s.revocations {
      var key := (policyId, version);
      assert RevocationName(key.0, key.1) == RevocationName(policyId, version);
    }
  }
}
