/**
 Action receipts (receipt.py): the append-only log, in which every receipt carries
 the digest of the one before it, and the verifier of such a chain.
 */
module Receipts {
  import opened Wrappers
  import opened Text
  import opened Canonical
  import opened Records
  import opened Crypto
  import opened Models
  import opened Capabilities

  datatype ObligationResult = ObligationResult(obligation: string, status: string, failureReason: Option<string>)

  /** What a receipt repeats of a scoped capability. */
  datatype Context = Context(approvalTier: int, constraints: Limits, parentId: Option<string>)

  datatype Receipt = Receipt(
    typ: string,
    version: string,
    executor: string,
    capabilityId: string,
    requestDigest: string,
    agent: string,
    target: string,
    action: string,
    purpose: string,
    result: string,
    startedAt: int,
    finishedAt: int,
    evidenceHash: Option<string>,
    previousHash: Option<string>,
    context: Option<Context>,
    obligationResults: Option<seq<ObligationResult>>,
    failureReason: Option<string>,
    receiptId: string)

  type Entry = Envelope<Receipt>

  const RECEIPT_TYPE: string := "kinegrant:PhysicalActionReceipt"

  // ---- the JSON object ----

  function ObligationResultJson(o: ObligationResult): Json {
    Obj(map["obligation" := Str(o.obligation), "status" := Str(o.status), "failure_reason" := OptStr(o.failureReason)])
  }

  function ObligationResultsJson(s: seq<ObligationResult>): Json {
    Arr(seq(|s|, i requires 0 <= i < |s| => ObligationResultJson(s[i])))
  }

  lemma ObligationResultsJsonInjective(a: seq<ObligationResult>, b: seq<ObligationResult>)
    requires ObligationResultsJson(a) == ObligationResultsJson(b)
    ensures a == b
  {
    var x, y := ObligationResultsJson(a).items, ObligationResultsJson(b).items;
    assert |a| == |x| == |b|;
    forall i | 0 <= i < |a| ensures a[i] == b[i] {
      assert x[i] == y[i];
      var p, q := ObligationResultJson(a[i]).members, ObligationResultJson(b[i]).members;
      assert p["obligation"] == q["obligation"] && p["status"] == q["status"];
      assert p["failure_reason"] == q["failure_reason"];
    }
  }

  const SHORT_NAMES: seq<string> := ["type", "agent", "target", "action", "result", "version", "purpose", "executor"]
  const MIDDLE_NAMES: seq<string> := ["started_at", "finished_at", "constraints", "capability_id", "evidence_hash"]
  const LONG_NAMES: seq<string> :=
    ["approval_tier", "request_digest", "failure_reason", "obligation_results", "parent_capability_id",
     "previous_receipt_hash"]

  lemma ReceiptNamesDistinct()
    ensures Distinct(SHORT_NAMES + MIDDLE_NAMES + LONG_NAMES)
  {
    ShortNamesDistinct();
    MiddleNamesDistinct();
    LongNamesDistinct();
    MiddleAndLongDisjoint();
    DistinctGroups(SHORT_NAMES, MIDDLE_NAMES, LONG_NAMES);
  }

  lemma ShortNamesDistinct()
    ensures Distinct(SHORT_NAMES) && forall x :: x in SHORT_NAMES ==> |x| <= 8
  {
  }

  lemma MiddleNamesDistinct()
    ensures Distinct(MIDDLE_NAMES) && forall x :: x in MIDDLE_NAMES ==> 8 < |x|
  {
  }

  lemma LongNamesDistinct()
    ensures Distinct(LONG_NAMES) && forall x :: x in LONG_NAMES ==> 8 < |x|
  {
  }

  lemma MiddleAndLongDisjoint()
    ensures forall x :: x in MIDDLE_NAMES ==> x !in LONG_NAMES
  {
  }

  lemma DistinctGroups(a: seq<string>, b: seq<string>, c: seq<string>)
    requires Distinct(a) && Distinct(b) && Distinct(c) && forall x :: x in b ==> x !in c
    requires (forall x :: x in a ==> |x| <= 8) && (forall x :: x in b ==> 8 < |x|) && (forall x :: x in c ==> 8 < |x|)
    ensures Distinct(a + b + c)
  {
    forall i, j | 0 <= i < j < |b + c| ensures (b + c)[i] != (b + c)[j] {
      if i < |b| <= j { assert (b + c)[i] in b && (b + c)[j] in c; }
    }
    DistinctByLength(a, b + c, 8);
    assert a + (b + c) == a + b + c;
  }

  function ShortValues(r: Receipt): seq<Option<Json>> {
    [Some(Str(r.typ)), Some(Str(r.agent)), Some(Str(r.target)), Some(Str(r.action)), Some(Str(r.result)),
     Some(Str(r.version)), Some(Str(r.purpose)), Some(Str(r.executor))]
  }

  function MiddleValues(r: Receipt): seq<Option<Json>> {
    [Some(Num(r.startedAt)), Some(Num(r.finishedAt)),
     match r.context case Some(c) => Some(LimitsJson(c.constraints)) case None => None,
     Some(Str(r.capabilityId)), Some(OptStr(r.evidenceHash))]
  }

  function LongValues(r: Receipt): seq<Option<Json>> {
    [match r.context case Some(c) => Some(Num(c.approvalTier)) case None => None,
     Some(Str(r.requestDigest)),
     match r.failureReason case Some(s) => Some(Str(s)) case None => None,
     match r.obligationResults case Some(s) => Some(ObligationResultsJson(s)) case None => None,
     match r.context case Some(c) => Some(OptStr(c.parentId)) case None => None,
     Some(OptStr(r.previousHash))]
  }

  /** The object the receipt id is taken over: all members but the id itself. */
  function BodyJson(r: Receipt): Json {
    Obj(Fields(SHORT_NAMES + MIDDLE_NAMES + LONG_NAMES, ShortValues(r) + MiddleValues(r) + LongValues(r)))
  }

  function ReceiptJson(r: Receipt): Json {
    Obj(BodyJson(r).members["receipt_id" := Str(r.receiptId)])
  }

  lemma ReceiptIdNotInBody(r: Receipt)
    ensures "receipt_id" !in BodyJson(r).members
  {
    FieldNames(SHORT_NAMES + MIDDLE_NAMES + LONG_NAMES, ShortValues(r) + MiddleValues(r) + LongValues(r));
    NoSuchName();
  }

  lemma NoSuchName()
    ensures "receipt_id" !in SHORT_NAMES + MIDDLE_NAMES + LONG_NAMES
  {
  }

  lemma ReceiptJsonInjective(a: Receipt, b: Receipt)
    requires ReceiptJson(a) == ReceiptJson(b)
    ensures a == b
  {
    var x, y := ReceiptJson(a).members, ReceiptJson(b).members;
    assert x["receipt_id"] == y["receipt_id"];
    ReceiptIdNotInBody(a);
    ReceiptIdNotInBody(b);
    assert BodyJson(a).members == x - {"receipt_id"} && BodyJson(b).members == y - {"receipt_id"};
    BodyGroups(a, b);
    GroupsInjective(a, b);
  }

  lemma BodyGroups(a: Receipt, b: Receipt)
    requires BodyJson(a).members == BodyJson(b).members
    ensures ShortValues(a) == ShortValues(b) && MiddleValues(a) == MiddleValues(b) && LongValues(a) == LongValues(b)
  {
    ReceiptNamesDistinct();
    var x := ShortValues(a) + MiddleValues(a) + LongValues(a);
    var y := ShortValues(b) + MiddleValues(b) + LongValues(b);
    FieldsInjective(SHORT_NAMES + MIDDLE_NAMES + LONG_NAMES, x, y);
    assert x[..8] == ShortValues(a) && y[..8] == ShortValues(b);
    assert x[8..13] == MiddleValues(a) && y[8..13] == MiddleValues(b);
    assert x[13..] == LongValues(a) && y[13..] == LongValues(b);
  }

  lemma GroupsInjective(a: Receipt, b: Receipt)
    requires ShortValues(a) == ShortValues(b) && MiddleValues(a) == MiddleValues(b) && LongValues(a) == LongValues(b)
    ensures a == b.(receiptId := a.receiptId)
  {
    var x, y := ShortValues(a), ShortValues(b);
    assert x[0] == y[0] && x[1] == y[1] && x[2] == y[2] && x[3] == y[3];
    assert x[4] == y[4] && x[5] == y[5] && x[6] == y[6] && x[7] == y[7];
    x, y := MiddleValues(a), MiddleValues(b);
    assert x[0] == y[0] && x[1] == y[1] && x[2] == y[2] && x[3] == y[3] && x[4] == y[4];
    x, y := LongValues(a), LongValues(b);
    assert x[0] == y[0] && x[1] == y[1] && x[2] == y[2] && x[3] == y[3] && x[4] == y[4] && x[5] == y[5];
    if a.context.Some? { LimitsJsonInjective(a.context.value.constraints, b.context.value.constraints); }
    if a.obligationResults.Some? {
      ObligationResultsJsonInjective(a.obligationResults.value, b.obligationResults.value);
    }
  }

  // ---- names ----

  /** The receipt id, which does not depend on the `receiptId` member, and the digest of a whole entry. */
  datatype ReceiptNaming = ReceiptNaming(receiptId: Receipt -> string, entryDigest: Entry -> string)

  function ReceiptNamingOf(hash: Hash): ReceiptNaming {
    ReceiptNaming(r => ContentId(hash, "kinegrant:receipt", BodyJson(r)),
                  e => Digest(hash, EnvelopeJson(ReceiptJson, e)))
  }

  ghost predicate FaithfulReceipts(names: ReceiptNaming) {
    && (forall a, b :: names.entryDigest(a) == names.entryDigest(b) ==> a == b)
    && (forall r: Receipt, id: string :: names.receiptId(r.(receiptId := id)) == names.receiptId(r))
  }

  lemma {:induction false} ReceiptNamingFaithful(hash: Hash)
    requires Injective(hash)
    ensures FaithfulReceipts(ReceiptNamingOf(hash))
  {
    var names := ReceiptNamingOf(hash);
    forall a, b | names.entryDigest(a) == names.entryDigest(b) ensures a == b {
      DigestInjective(hash, EnvelopeJson(ReceiptJson, a), EnvelopeJson(ReceiptJson, b));
      EnvelopeJsonInjective(ReceiptJson, a, b);
      ReceiptJsonInjective(a.payload, b.payload);
    }
  }

  // ---- validation ----

  predicate GivenReason(reason: Option<string>) {
    reason.Some? ==> !Blank(reason.value)
  }

  predicate ValidObligationResult(o: ObligationResult) {
    && KnownObligation(o.obligation)
    && (o.status == "satisfied" || o.status == "pending" || o.status == "failed")
    && GivenReason(o.failureReason)
    && (o.status == "failed" ==> o.failureReason.Some?)
  }

  /** `_validate_obligation_results` raises nothing. */
  predicate ValidObligationResults(results: Option<seq<ObligationResult>>) {
    results.Some? ==> results.value != [] && forall o :: o in results.value ==> ValidObligationResult(o)
  }

  /** `_validate_v10_receipt` */
  predicate ValidExtension(r: Receipt) {
    && (r.obligationResults.Some? || r.failureReason.Some?)
    && GivenReason(r.failureReason) && ValidObligationResults(r.obligationResults)
  }

  // ---- verification ----

  /** The verifier's surroundings: signatures, names, and the caller's optional trust and expectation sets. */
  datatype Verifier = Verifier(
    keys: Signatures,
    names: ReceiptNaming,
    trustedExecutors: Option<set<string>>,
    expectedIds: Option<set<string>>)

  /** The checks on one entry that do not look at its neighbours. */
  predicate EntryValid(v: Verifier, e: Entry) {
    var r := e.payload;
    && VerifyEnvelope(v.keys, ReceiptJson, e).Success?
    && r.typ == RECEIPT_TYPE && (r.version == "0.1" || (r.version == "1.0" && ValidExtension(r)))
    && r.executor == e.kid
    && (v.trustedExecutors.Some? ==> r.executor in v.trustedExecutors.value)
    && (v.expectedIds.Some? ==> r.capabilityId in v.expectedIds.value)
    && r.receiptId == v.names.receiptId(r)
  }

  function PreviousHash(v: Verifier, entries: seq<Entry>): Option<string> {
    if entries == [] then None else Some(v.names.entryDigest(entries[|entries| - 1]))
  }

  ghost predicate DistinctCapabilities(entries: seq<Entry>) {
    forall i, j :: 0 <= i < j < |entries| ==> entries[i].payload.capabilityId != entries[j].payload.capabilityId
  }

  /** The entry at `i` is valid and carries the digest of the one before it. */
  ghost predicate EntryFits(v: Verifier, entries: seq<Entry>, i: nat)
    requires i < |entries|
  {
    && EntryValid(v, entries[i])
    && entries[i].payload.previousHash == if i == 0 then None else Some(v.names.entryDigest(entries[i - 1]))
  }

  /** Every entry is valid, links to the one before it, and no capability has two receipts. */
  ghost predicate ValidChain(v: Verifier, entries: seq<Entry>) {
    (forall i :: 0 <= i < |entries| ==> EntryFits(v, entries, i)) && DistinctCapabilities(entries)
  }

  method VerifyReceiptChain(v: Verifier, entries: seq<Entry>) returns (ok: bool)
    ensures ok <==> ValidChain(v, entries)
  {
    var previous: Option<Entry> := None;
    var seen: set<string> := {};
    for i := 0 to |entries|
      invariant previous == if i == 0 then None else Some(entries[i - 1])
      invariant forall id :: id in seen <==> exists j :: 0 <= j < i && entries[j].payload.capabilityId == id
      invariant forall j :: 0 <= j < i ==> EntryFits(v, entries, j)
      invariant DistinctCapabilities(entries[..i])
    {
      var e := entries[i];
      var expected := if previous.Some? then Some(v.names.entryDigest(previous.value)) else None;
      if !EntryValid(v, e) || e.payload.previousHash != expected {
        assert !EntryFits(v, entries, i);
        return false;
      }
      if e.payload.capabilityId in seen { return false; }
      assert EntryFits(v, entries, i);
      seen := seen + {e.payload.capabilityId};
      previous := Some(e);
    }
    assert entries[..|entries|] == entries;
    ok := true;
  }

  lemma ChainExtends(v: Verifier, entries: seq<Entry>, e: Entry)
    requires ValidChain(v, entries) && EntryValid(v, e) && e.payload.previousHash == PreviousHash(v, entries)
    requires forall j :: 0 <= j < |entries| ==> entries[j].payload.capabilityId != e.payload.capabilityId
    ensures ValidChain(v, entries + [e])
  {
    var longer := entries + [e];
    forall i | 0 <= i < |longer| ensures EntryFits(v, longer, i) {
      if i < |entries| { assert EntryFits(v, entries, i); }
    }
  }

  lemma PrefixValid(v: Verifier, entries: seq<Entry>, n: nat)
    requires ValidChain(v, entries) && n <= |entries|
    ensures ValidChain(v, entries[..n])
  {
    forall i | 0 <= i < n ensures EntryFits(v, entries[..n], i) { assert EntryFits(v, entries, i); }
  }

  /** Equal entries have equal predecessors. */
  lemma PredecessorsAgree(v: Verifier, w: Verifier, a: seq<Entry>, b: seq<Entry>)
    requires FaithfulReceipts(v.names) && v.names == w.names
    requires ValidChain(v, a) && ValidChain(w, b)
    requires a != [] && b != [] && a[|a| - 1] == b[|b| - 1]
    ensures |a| == 1 <==> |b| == 1
    ensures |a| > 1 ==> a[|a| - 2] == b[|b| - 2]
  {
    assert EntryFits(v, a, |a| - 1);
    assert EntryFits(w, b, |b| - 1);
  }

  /** The last entry fixes the whole history: nothing before it can be edited, moved, added or dropped. */
  lemma {:induction false} LastEntryFixesChain(v: Verifier, w: Verifier, a: seq<Entry>, b: seq<Entry>)
    requires FaithfulReceipts(v.names) && v.names == w.names
    requires ValidChain(v, a) && ValidChain(w, b)
    requires a != [] && b != [] && a[|a| - 1] == b[|b| - 1]
    ensures a == b
    decreases |a|
  {
    PredecessorsAgree(v, w, a, b);
    var a', b' := a[..|a| - 1], b[..|b| - 1];
    if |a| > 1 {
      PrefixValid(v, a, |a| - 1);
      PrefixValid(w, b, |b| - 1);
      LastEntryFixesChain(v, w, a', b');
    } else {
      assert a' == b';
    }
    assert a == a' + [a[|a| - 1]] && b == b' + [b[|b| - 1]];
  }

  // ---- appending ----

  /** Claims of a capability a gate has verified and consumed. */
  datatype Verified = Verified(claims: Capability, authorizedAt: int)

  /** What the executor reports of one action. */
  datatype Report = Report(
    result: string,
    evidenceHash: Option<string>,
    startedAt: int,
    finishedAt: int,
    obligationResults: Option<seq<ObligationResult>>,
    failureReason: Option<string>)

  datatype ReceiptError =
    | InvalidResult | DuplicateReceipt | InvalidEvidenceHash | InvalidObligationResults | BlankFailureReason
    | FinishedBeforeStart | OutsideLifetime | RequestMissing

  predicate HasReceipt(entries: seq<Entry>, capabilityId: string) {
    exists e :: e in entries && e.payload.capabilityId == capabilityId
  }

  function ReportError(entries: seq<Entry>, c: Capability, report: Report, request: Option<Request>): Option<ReceiptError> {
    if report.result != "succeeded" && report.result != "failed" && report.result != "aborted" then Some(InvalidResult)
    else if HasReceipt(entries, c.capabilityId) then Some(DuplicateReceipt)
    else if report.evidenceHash.Some? && !IsDigest(report.evidenceHash.value) then Some(InvalidEvidenceHash)
    else if !ValidObligationResults(report.obligationResults) then Some(InvalidObligationResults)
    else if !GivenReason(report.failureReason) then Some(BlankFailureReason)
    else if report.finishedAt < report.startedAt then Some(FinishedBeforeStart)
    else if report.startedAt < c.notBefore || c.expiresAt <= report.startedAt then Some(OutsideLifetime)
    else if c.Scoped() && request.None? then Some(RequestMissing)
    else None
  }

  function ReceiptBody(names: ReceiptNaming, kid: string, entries: seq<Entry>, c: Capability, report: Report,
                       request: Option<Request>): Receipt
    requires c.Shaped() && (c.Scoped() ==> request.Some?)
  {
    var body := Receipt(
      RECEIPT_TYPE,
      if report.obligationResults.Some? || report.failureReason.Some? then "1.0" else "0.1",
      kid, c.capabilityId, c.requestDigest, c.agent, c.target,
      if c.Scoped() then request.value.action else c.actions[0],
      if c.Scoped() then request.value.purpose else c.purposes[0],
      report.result, report.startedAt, report.finishedAt, report.evidenceHash,
      if entries == [] then None else Some(names.entryDigest(entries[|entries| - 1])),
      if c.Scoped() then Some(Context(c.approvalTier, c.constraints, c.parentId)) else None,
      report.obligationResults, report.failureReason, "");
    body.(receiptId := names.receiptId(body))
  }

  /** `ReceiptLog.append` as a function of the entries so far: the new entry or the error raised. */
  function NewEntry(keys: Signatures, names: ReceiptNaming, kid: string, entries: seq<Entry>, c: Capability,
                    report: Report, request: Option<Request>): Result<Entry, ReceiptError>
    requires c.Shaped()
  {
    match ReportError(entries, c, report, request)
    case Some(e) => Failure(e)
    case None => Success(SignEnvelope(keys, ReceiptJson, kid, ReceiptBody(names, kid, entries, c, report, request)))
  }

  /** A report the log takes: about an unreceipted capability, started while it was active, and well formed. */
  predicate Reportable(entries: seq<Entry>, c: Capability, report: Report, request: Option<Request>) {
    && (report.result == "succeeded" || report.result == "failed" || report.result == "aborted")
    && !HasReceipt(entries, c.capabilityId)
    && (report.evidenceHash.Some? ==> IsDigest(report.evidenceHash.value))
    && ValidObligationResults(report.obligationResults) && GivenReason(report.failureReason)
    && c.notBefore <= report.startedAt < c.expiresAt && report.startedAt <= report.finishedAt
    && (c.Scoped() ==> request.Some?)
  }

  /** The log takes exactly the reportable, and the receipt repeats the capability, the report and the link. */
  lemma AppendMeans(v: Verifier, kid: string, entries: seq<Entry>, c: Capability, report: Report, request: Option<Request>)
    requires c.Shaped()
    ensures var e := NewEntry(v.keys, v.names, kid, entries, c, report, request);
      && (e.Success? <==> Reportable(entries, c, report, request))
      && (e.Success? ==>
            var p := e.value.payload;
            && e.value.kid == p.executor == kid && p.previousHash == PreviousHash(v, entries)
            && p.capabilityId == c.capabilityId && p.requestDigest == c.requestDigest
            && p.agent == c.agent && p.target == c.target && p.result == report.result
            && p.startedAt == report.startedAt && p.finishedAt == report.finishedAt
            && p.evidenceHash == report.evidenceHash && p.obligationResults == report.obligationResults
            && p.failureReason == report.failureReason
            && (p.version == "1.0" <==> p.obligationResults.Some? || p.failureReason.Some?)
            && (p.context.Some? <==> c.Scoped())
            && (c.Scoped() ==> p.action == request.value.action && p.purpose == request.value.purpose)
            && (!c.Scoped() ==> [p.action] == c.actions && [p.purpose] == c.purposes))
  {
    assert "1.0" != "0.1";
    if !c.Scoped() { assert c.actions == [c.actions[0]] && c.purposes == [c.purposes[0]]; }
  }

  /** Appending keeps the chain valid for that executor. */
  lemma AppendKeepsChain(v: Verifier, kid: string, entries: seq<Entry>, c: Capability, report: Report, request: Option<Request>)
    requires FaithfulReceipts(v.names) && HoldsKey(v.keys, kid) && c.Shaped()
    requires v.trustedExecutors.Some? ==> kid in v.trustedExecutors.value
    requires v.expectedIds.Some? ==> c.capabilityId in v.expectedIds.value
    requires ValidChain(v, entries)
    requires NewEntry(v.keys, v.names, kid, entries, c, report, request).Success?
    ensures ValidChain(v, entries + [NewEntry(v.keys, v.names, kid, entries, c, report, request).value])
  {
    var e := NewEntry(v.keys, v.names, kid, entries, c, report, request).value;
    var r := e.payload;
    assert r == r.(receiptId := "").(receiptId := r.receiptId);
    assert v.names.receiptId(r.(receiptId := "").(receiptId := r.receiptId)) == v.names.receiptId(r.(receiptId := ""));
    assert EntryValid(v, e);
    forall j | 0 <= j < |entries| ensures entries[j].payload.capabilityId != r.capabilityId {
      assert entries[j] in entries;
    }
    ChainExtends(v, entries, e);
  }

  class ReceiptLog {
    const keys: Signatures
    const names: ReceiptNaming
    const kid: string
    var entries: seq<Entry>

    constructor (keys: Signatures, names: ReceiptNaming, kid: string)
      ensures this.keys == keys && this.names == names && this.kid == kid && entries == []
    {
      this.keys, this.names, this.kid := keys, names, kid;
      entries := [];
    }

    method Append(verified: Verified, report: Report, request: Option<Request>) returns (r: Result<Entry, ReceiptError>)
      requires verified.claims.Shaped()
      modifies this
      ensures r == NewEntry(keys, names, kid, old(entries), verified.claims, report, request)
      ensures entries == if r.Success? then old(entries) + [r.value] else old(entries)
    {
      var c := verified.claims;
      var error := ReportError(entries, c, report, request);
      if error.Some? { return Failure(error.value); }
      var body := ReceiptBody(names, kid, entries, c, report, request);
      var envelope := SignEnvelope(keys, ReceiptJson, kid, body);
      entries := entries + [envelope];
      r := Success(envelope);
    }
  }
}
