/** Obligation compliance (compliance.py): were a capability's obligations fulfilled by its receipt? */
module Compliance {
  import opened Wrappers
  import opened Canonical
  import opened Crypto
  import opened Models
  import opened Capabilities
  import opened Receipts

  datatype Verdict = Verdict(compliant: bool, results: seq<Outcome>, reason: Option<Why>)

  datatype Outcome = Outcome(obligation: string, failure: Option<Why>)

  /** Why an obligation, or the whole check, failed. */
  datatype Why =
    | InvalidCapability(cause: EnvelopeError) | InvalidReceiptChain | UnknownObligation | MissingReceipt
    | CommitmentMissing | ResultMissing | Pending(given: Option<string>) | Failed(given: Option<string>)

  /** Obligations a plain 0.1 receipt does not fulfil. */
  predicate NeedsCommitment(obligation: string) {
    obligation == "logAuditEvent" || obligation == "preserveEvidence"
  }

  // ---- what compliance means ----

  /** The first of `results` that is about `obligation`. */
  function ResultFor(results: seq<ObligationResult>, obligation: string): Option<ObligationResult> {
    if results == [] then None
    else if results[0].obligation == obligation then Some(results[0])
    else ResultFor(results[1..], obligation)
  }

  /** A receipt fulfils an obligation: it reports it satisfied, or it is a plain receipt and that was all that was owed. */
  predicate Fulfils(r: Receipt, obligation: string) {
    && KnownObligation(obligation)
    && match r.obligationResults
       case None => obligation == "emitActionReceipt"
       case Some(results) =>
         ResultFor(results, obligation).Some? && ResultFor(results, obligation).value.status == "satisfied"
  }

  /** The first receipt for a capability. */
  function ReceiptFor(entries: seq<Entry>, capabilityId: string): (r: Option<Receipt>)
    ensures r.Some? <==> HasReceipt(entries, capabilityId)
    ensures r.Some? ==> exists e :: e in entries && e.payload == r.value && r.value.capabilityId == capabilityId
  {
    if entries == [] then None
    else if entries[0].payload.capabilityId == capabilityId then
      assert entries[0] in entries;
      Some(entries[0].payload)
    else
      assert entries == [entries[0]] + entries[1..];
      ReceiptFor(entries[1..], capabilityId)
  }

  /** Fail-closed compliance. */
  ghost predicate Compliant(v: Verifier, render: Capability -> Json, e: Envelope<Capability>, entries: seq<Entry>) {
    && VerifyEnvelope(v.keys, render, e).Success?
    && (e.payload.obligations != [] ==>
          && ValidChain(v, entries)
          && ReceiptFor(entries, e.payload.capabilityId).Some?
          && forall o :: o in e.payload.obligations ==> Fulfils(ReceiptFor(entries, e.payload.capabilityId).value, o))
  }

  // ---- the check ----

  /** One obligation against the capability's receipt, if it has one. */
  function Assess(obligation: string, receipt: Option<Receipt>, found: Option<ObligationResult>): Option<Why> {
    if !KnownObligation(obligation) then Some(UnknownObligation)
    else if receipt.None? then Some(MissingReceipt)
    else if receipt.value.obligationResults.None? then
      if obligation == "emitActionReceipt" then None
      else if NeedsCommitment(obligation) then Some(CommitmentMissing)
      else Some(ResultMissing)
    else
      match found
      case None => Some(ResultMissing)
      case Some(item) =>
        if item.status == "satisfied" then None
        else if item.status == "pending" then Some(Pending(item.failureReason))
        else Some(Failed(item.failureReason))
  }

  method FindReceipt(v: Verifier, entries: seq<Entry>, capabilityId: string) returns (receipt: Option<Receipt>)
    requires ValidChain(v, entries)
    ensures receipt == ReceiptFor(entries, capabilityId)
  {
    for i := 0 to |entries|
      invariant ReceiptFor(entries, capabilityId) == ReceiptFor(entries[i..], capabilityId)
    {
      assert EntryFits(v, entries, i);
      var candidate := VerifyEnvelope(v.keys, ReceiptJson, entries[i]);
      if candidate.Failure? { continue; }
      if candidate.value.capabilityId == capabilityId { return Some(candidate.value); }
    }
    receipt := None;
  }

  method FindResult(results: seq<ObligationResult>, obligation: string) returns (found: Option<ObligationResult>)
    ensures found == ResultFor(results, obligation)
  {
    for i := 0 to |results|
      invariant ResultFor(results, obligation) == ResultFor(results[i..], obligation)
    {
      if results[i].obligation == obligation { return Some(results[i]); }
    }
    found := None;
  }

  function AssessAll(obligations: seq<string>, receipt: Option<Receipt>): (r: seq<Outcome>)
    ensures |r| == |obligations|
  {
    if obligations == [] then []
    else
      var found := if receipt.Some? && receipt.value.obligationResults.Some?
                   then ResultFor(receipt.value.obligationResults.value, obligations[0]) else None;
      [Outcome(obligations[0], Assess(obligations[0], receipt, found))] + AssessAll(obligations[1..], receipt)
  }

  /** The reason of the first outcome that failed. */
  function FirstFailure(results: seq<Outcome>): Option<Why> {
    if results == [] then None
    else if results[0].failure.Some? then results[0].failure
    else FirstFailure(results[1..])
  }

  ghost function Evaluated(v: Verifier, render: Capability -> Json, e: Envelope<Capability>, entries: seq<Entry>): Verdict {
    match VerifyEnvelope(v.keys, render, e)
    case Failure(cause) => Verdict(false, [], Some(InvalidCapability(cause)))
    case Success(c) =>
      if c.obligations == [] then Verdict(true, [], None)
      else if !ValidChain(v, entries) then
        Verdict(false, seq(|c.obligations|, i requires 0 <= i < |c.obligations| =>
                                              Outcome(c.obligations[i], Some(InvalidReceiptChain))),
                Some(InvalidReceiptChain))
      else
        var results := AssessAll(c.obligations, ReceiptFor(entries, c.capabilityId));
        Verdict(FirstFailure(results).None?, results, FirstFailure(results))
  }

  method Evaluate(v: Verifier, render: Capability -> Json, e: Envelope<Capability>, entries: seq<Entry>)
    returns (verdict: Verdict)
    ensures verdict == Evaluated(v, render, e, entries)
  {
    var verified := VerifyEnvelope(v.keys, render, e);
    if verified.Failure? { return Verdict(false, [], Some(InvalidCapability(verified.error))); }
    var c := verified.value;
    if c.obligations == [] { return Verdict(true, [], None); }
    var chainOk := VerifyReceiptChain(v, entries);
    if !chainOk {
      return Verdict(false, seq(|c.obligations|, i requires 0 <= i < |c.obligations| =>
                                                   Outcome(c.obligations[i], Some(InvalidReceiptChain))),
                     Some(InvalidReceiptChain));
    }
    var receipt := FindReceipt(v, entries, c.capabilityId);
    var results: seq<Outcome> := [];
    var reason: Option<Why> := None;
    for i := 0 to |c.obligations|
      invariant results + AssessAll(c.obligations[i..], receipt) == AssessAll(c.obligations, receipt)
      invariant reason == FirstFailure(results)
    {
      var found: Option<ObligationResult> := None;
      if receipt.Some? && receipt.value.obligationResults.Some? {
        found := FindResult(receipt.value.obligationResults.value, c.obligations[i]);
      }
      var outcome := Outcome(c.obligations[i], Assess(c.obligations[i], receipt, found));
      FirstFailureAppend(results, outcome);
      AssessStep(c.obligations, i, receipt, results);
      results := results + [outcome];
      if reason.None? { reason := outcome.failure; }
    }
    assert results == AssessAll(c.obligations, receipt);
    verdict := Verdict(reason.None?, results, reason);
  }

  lemma AssessStep(obligations: seq<string>, i: nat, receipt: Option<Receipt>, before: seq<Outcome>)
    requires i < |obligations|
    ensures before + AssessAll(obligations[i..], receipt)
         == before + [AssessAll(obligations[i..], receipt)[0]] + AssessAll(obligations[i + 1..], receipt)
  {
    assert obligations[i..][1..] == obligations[i + 1..];
  }

  lemma {:induction false} FirstFailureAppend(results: seq<Outcome>, o: Outcome)
    ensures FirstFailure(results + [o]) == if FirstFailure(results).Some? then FirstFailure(results) else o.failure
  {
    if results != [] {
      assert (results + [o])[1..] == results[1..] + [o];
      FirstFailureAppend(results[1..], o);
    }
  }

  predicate FulfilledBy(receipt: Option<Receipt>, obligation: string) {
    receipt.Some? && Fulfils(receipt.value, obligation)
  }

  lemma AssessMeans(obligations: seq<string>, receipt: Option<Receipt>)
    requires obligations != []
    ensures AssessAll(obligations, receipt)[0].failure.None? <==> FulfilledBy(receipt, obligations[0])
  {
  }

  lemma {:induction false} AllAssessed(obligations: seq<string>, receipt: Option<Receipt>)
    ensures FirstFailure(AssessAll(obligations, receipt)).None? <==>
      forall o :: o in obligations ==> FulfilledBy(receipt, o)
  {
    if obligations != [] {
      var first, rest := obligations[0], obligations[1..];
      AllAssessed(rest, receipt);
      AssessMeans(obligations, receipt);
      assert AssessAll(obligations, receipt)[1..] == AssessAll(rest, receipt);
      assert first in obligations;
      assert forall o :: o in obligations <==> o == first || o in rest;
    }
  }

  /** The verdict says compliant exactly when the obligations were fulfilled, and otherwise gives a reason. */
  lemma VerdictCharacterised(v: Verifier, render: Capability -> Json, e: Envelope<Capability>, entries: seq<Entry>)
    ensures Evaluated(v, render, e, entries).compliant <==> Compliant(v, render, e, entries)
    ensures Evaluated(v, render, e, entries).compliant <==> Evaluated(v, render, e, entries).reason.None?
  {
    AllAssessed(e.payload.obligations, ReceiptFor(entries, e.payload.capabilityId));
  }
}
