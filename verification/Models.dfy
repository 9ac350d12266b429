/** Action requests (models.py). Instants are whole microseconds, as Python's datetimes resolve them. */
module Models {
  import opened Canonical

  datatype Request = Request(
    requestId: string,
    agent: string,
    target: string,
    action: string,
    purpose: string,
    issuedAt: int,
    context: map<string, Json>)

  /** The obligation vocabulary (obligations.py). */
  predicate KnownObligation(s: string) {
    s == "emitActionReceipt" || s == "logAuditEvent" || s == "preserveEvidence"
  }

  /** `sha256:` and 64 lower-case hexadecimal digits. */
  predicate IsDigest(s: string) {
    |s| == 71 && "sha256:" <= s && forall i :: 7 <= i < 71 ==> '0' <= s[i] <= '9' || 'a' <= s[i] <= 'f'
  }

  const MICROS: int := 1_000_000

  /** An instant as the browser reads it: an ECMAScript time value is a whole number of milliseconds. */
  function Milliseconds(instant: int): int {
    instant / 1000
  }

  /** What the policy engine answers. */
  datatype Decision = Decision(
    allowed: bool,
    reason: string,
    requestDigest: string,
    policyDigest: string,
    matchedPolicyIds: seq<string>,
    obligations: seq<string>,
    requiredApprovalTier: int)

  function RequestJson(r: Request): Json {
    Obj(map["type" := Str("kinegrant:ActionRequest"), "version" := Str("0.1"),
            "request_id" := Str(r.requestId), "agent" := Str(r.agent), "target" := Str(r.target),
            "action" := Str(r.action), "purpose" := Str(r.purpose),
            "issued_at" := Num(r.issuedAt), "context" := Obj(r.context)])
  }

  function RequestDigest(hash: Hash, r: Request): string {
    Digest(hash, RequestJson(r))
  }

  /** A request digest stands for exactly one request. */
  lemma RequestDigestInjective(hash: Hash, a: Request, b: Request)
    requires Injective(hash) && RequestDigest(hash, a) == RequestDigest(hash, b)
    ensures a == b
  {
    DigestInjective(hash, RequestJson(a), RequestJson(b));
    var x, y := RequestJson(a).members, RequestJson(b).members;
    assert x["request_id"] == y["request_id"] && x["agent"] == y["agent"] && x["target"] == y["target"];
    assert x["action"] == y["action"] && x["purpose"] == y["purpose"];
    assert x["issued_at"] == y["issued_at"] && x["context"] == y["context"];
  }
}
