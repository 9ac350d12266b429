/**
 Signed envelopes (crypto.py). The signature schemes are library calls; what the
 model keeps is which algorithm names are accepted and that a signature either
 checks over the rendered payload or does not.
 */
module Crypto {
  import opened Wrappers
  import opened Canonical

  datatype EnvelopeError = UnsupportedAlgorithm | InvalidSignature

  datatype Envelope<+P> = Envelope(alg: string, kid: string, payload: P, signature: string)

  /** Whether a signature by `kid` under `alg` checks over a payload; and what a key holder produces. */
  datatype Signatures = Signatures(checks: (string, string, Json, string) -> bool, sign: (string, Json) -> string)

  function VerifyEnvelope<P>(keys: Signatures, render: P -> Json, e: Envelope<P>): Result<P, EnvelopeError> {
    if e.alg != "EdDSA" && e.alg != "ML-DSA-65" then Failure(UnsupportedAlgorithm)
    else if !keys.checks(e.alg, e.kid, render(e.payload), e.signature) then Failure(InvalidSignature)
    else Success(e.payload)
  }

  /** `sign_envelope` of the Ed25519 key pair named `kid`. */
  function SignEnvelope<P>(keys: Signatures, render: P -> Json, kid: string, payload: P): Envelope<P> {
    Envelope("EdDSA", kid, payload, keys.sign(kid, render(payload)))
  }

  /** What a key holder signs checks under its own key. */
  ghost predicate HoldsKey(keys: Signatures, kid: string) {
    forall payload :: keys.checks("EdDSA", kid, payload, keys.sign(kid, payload))
  }

  /** The whole envelope as JSON, as it is hashed into the next receipt. */
  function EnvelopeJson<P>(render: P -> Json, e: Envelope<P>): Json {
    Obj(map["alg" := Str(e.alg), "kid" := Str(e.kid), "payload" := render(e.payload), "signature" := Str(e.signature)])
  }

  lemma EnvelopeJsonInjective<P>(render: P -> Json, a: Envelope<P>, b: Envelope<P>)
    requires EnvelopeJson(render, a) == EnvelopeJson(render, b)
    ensures a.alg == b.alg && a.kid == b.kid && a.signature == b.signature && render(a.payload) == render(b.payload)
  {
    var x, y := EnvelopeJson(render, a).members, EnvelopeJson(render, b).members;
    assert x["alg"] == y["alg"] && x["kid"] == y["kid"] && x["payload"] == y["payload"];
    assert x["signature"] == y["signature"];
  }
}
