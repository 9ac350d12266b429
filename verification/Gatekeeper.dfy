/**
 The whole action boundary (gatekeeper.py) as one step: sequence policy, revocation,
 gate with one-time consumption, actuator, receipt, obligation compliance, journal.
 */
module Gatekeeping {
  import opened Wrappers
  import opened Crypto
  import opened Models
  import opened Receipts
  import opened ReplayStores
  import opened Revocation
  import opened Gate
  import Sequence
  import Compliance

  /** What a gatekeeper is built from and does not change. */
  datatype Config = Config(
    settings: Settings,
    combinations: seq<Sequence.ForbiddenCombination>,
    receiptNames: ReceiptNaming,
    kid: string,
    trustedExecutors: set<string>)
  {
    function Verifier(): Verifier {
      Receipts.Verifier(settings.keys, receiptNames, Some(trustedExecutors), None)
    }
  }

  /** The four logs a step can change; `actuated` lists the actuator's calls. */
  datatype State = State(
    replay: map<string, int>,
    actuated: seq<Verified>,
    receipts: seq<Entry>,
    journal: seq<Sequence.JournalEntry>)

  const EMPTY: State := State(map[], [], [], [])

  /** One call: its arguments, the clock and revocation readings it meets, and how the actuator fares. */
  datatype Call = Call(
    capability: SignedCapability,
    request: Request,
    now: int,
    storeClock: Clock,
    parent: Option<SignedCapability>,
    report: Report,
    actuatorError: Option<string>,
    keeperRevoked: Option<Revoked>,
    gateRevoked: Option<Revoked>)

  datatype Stage = SequenceStage | RevocationStage | GateStage | ReceiptStage | ActuatorStage | ObligationStage | Complete

  datatype Reason =
    | ForbiddenCombination(ids: seq<string>)
    | InvalidCapability(cause: EnvelopeError)
    | RevokedCapability
    | GateDenied(gateError: GateError)
    | ReceiptFailed(receiptError: ReceiptError)
    | ActuatorFailed(text: string)
    | NotCompliant(why: Compliance.Why)

  datatype Outcome = Outcome(
    allowed: bool,
    stage: Stage,
    reason: Option<Reason>,
    capabilityId: Option<string>,
    receiptId: Option<string>,
    obligationCompliant: Option<bool>,
    journalRecorded: bool)

  function Denied(stage: Stage, reason: Reason): Outcome {
    Outcome(false, stage, Some(reason), None, None, None, false)
  }

  /** A denial before the gate, if there is one. */
  function Refusal(cfg: Config, journal: seq<Sequence.JournalEntry>, call: Call): Option<Outcome> {
    var verdict := Sequence.Evaluate(cfg.combinations, call.request, journal, call.now);
    if !verdict.allowed then Some(Denied(SequenceStage, ForbiddenCombination(verdict.matchedCombinationIds)))
    else if call.keeperRevoked.None? then None
    else
      match VerifyEnvelope(cfg.settings.keys, cfg.settings.render, call.capability)
      case Failure(cause) => Some(Denied(RevocationStage, InvalidCapability(cause)))
      case Success(c) =>
        if ChainRevoked(call.keeperRevoked.value, c) then Some(Denied(RevocationStage, RevokedCapability)) else None
  }

  /** `failure_reason or f"actuator failure: {...}"` */
  function FailureText(given: Option<string>, error: string): string {
    if given.Some? && given.value != "" then given.value else "actuator failure: " + error
  }

  /** What is reported to the receipt log, depending on how the actuator fared. */
  function Reported(call: Call): Report {
    match call.actuatorError
    case None => call.report.(failureReason := None)
    case Some(error) =>
      call.report.(result := "failed", obligationResults := None,
                   failureReason := Some(FailureText(call.report.failureReason, error)))
  }

  function Authorized(cfg: Config, replay: map<string, int>, call: Call): Result<Verified, GateError> {
    Authorization(cfg.settings, call.gateRevoked, replay, call.capability, call.request, call.now, call.storeClock, call.parent)
  }

  function ReplayAfter(cfg: Config, replay: map<string, int>, call: Call): map<string, int> {
    StoreAfter(cfg.settings, call.gateRevoked, replay, call.capability, call.request, call.now, call.storeClock, call.parent)
  }

  lemma AuthorizedIsShaped(cfg: Config, replay: map<string, int>, call: Call)
    requires Authorized(cfg, replay, call).Success?
    ensures Authorized(cfg, replay, call).value == Verified(call.capability.payload, call.now)
    ensures call.capability.payload.Shaped()
  {
    AuthorizedMeans(cfg.settings, call.gateRevoked, call.capability, call.request, call.now, call.parent);
  }

  function Receipted(cfg: Config, receipts: seq<Entry>, call: Call): Result<Entry, ReceiptError>
    requires call.capability.payload.Shaped()
  {
    NewEntry(cfg.settings.keys, cfg.receiptNames, cfg.kid, receipts, call.capability.payload, Reported(call), Some(call.request))
  }

  /** The outcome once a receipt has been appended. */
  function Final(call: Call, entry: Entry, verdict: Compliance.Verdict): Outcome {
    var compliant := verdict.compliant && call.actuatorError.None?;
    var stage := if call.actuatorError.Some? then ActuatorStage else if !verdict.compliant then ObligationStage else Complete;
    var reason :=
      if call.actuatorError.Some? then
        Some(ActuatorFailed(FailureText(call.report.failureReason, call.actuatorError.value)))
      else if !verdict.compliant then Some(NotCompliant(verdict.reason.GetOr(Compliance.ResultMissing)))
      else None;
    Outcome(compliant, stage, reason, Some(call.capability.payload.capabilityId), Some(entry.payload.receiptId),
            Some(verdict.compliant), compliant)
  }

  function Journaled(call: Call): Sequence.JournalEntry {
    Sequence.JournalEntry(call.request.action, call.request.target, call.now)
  }

  /** One `execute`: the new state and the outcome. */
  ghost function Step(cfg: Config, s: State, call: Call): (State, Outcome) {
    match Refusal(cfg, s.journal, call)
    case Some(outcome) => (s, outcome)
    case None =>
      var s1 := s.(replay := ReplayAfter(cfg, s.replay, call));
      match Authorized(cfg, s.replay, call)
      case Failure(error) => (s1, Denied(GateStage, GateDenied(error)))
      case Success(verified) =>
        AuthorizedIsShaped(cfg, s.replay, call);
        var s2 := s1.(actuated := s.actuated + [verified]);
        match Receipted(cfg, s.receipts, call)
        case Failure(cause) =>
          (s2, Denied(ReceiptStage, ReceiptFailed(cause)).(capabilityId := Some(call.capability.payload.capabilityId)))
        case Success(entry) =>
          var s3 := s2.(receipts := s.receipts + [entry]);
          var verdict := Compliance.Evaluated(cfg.Verifier(), cfg.settings.render, call.capability, s3.receipts);
          var outcome := Final(call, entry, verdict);
          (if outcome.allowed then s3.(journal := s.journal + [Journaled(call)]) else s3, outcome)
  }

  /** The device behind the gate: it either completes a call or raises. */
  class Actuator {
    var calls: seq<Verified>

    constructor ()
      ensures calls == []
    {
      calls := [];
    }

    method Act(verified: Verified, error: Option<string>) returns (failed: Option<string>)
      modifies this
      ensures calls == old(calls) + [verified] && failed == error
    {
      calls := calls + [verified];
      failed := error;
    }
  }

  class Gatekeeper {
    const gate: ActionGate
    const combinations: seq<Sequence.ForbiddenCombination>
    const journal: Sequence.ActionJournal
    const receiptLog: ReceiptLog
    const trustedExecutors: set<string>
    const revocations: RevocationList?
    const actuator: Actuator

    constructor (gate: ActionGate, combinations: seq<Sequence.ForbiddenCombination>, journal: Sequence.ActionJournal,
                 receiptLog: ReceiptLog, trustedExecutors: set<string>, revocations: RevocationList?, actuator: Actuator)
      ensures this.gate == gate && this.combinations == combinations && this.journal == journal
      ensures this.receiptLog == receiptLog && this.revocations == revocations && this.actuator == actuator
      ensures this.trustedExecutors == if trustedExecutors == {} then {receiptLog.kid} else trustedExecutors
    {
      this.gate, this.combinations, this.journal := gate, combinations, journal;
      this.receiptLog, this.revocations, this.actuator := receiptLog, revocations, actuator;
      this.trustedExecutors := if trustedExecutors == {} then {receiptLog.kid} else trustedExecutors;
    }

    function Configuration(): Config {
      Config(gate.settings, combinations, receiptLog.names, receiptLog.kid, trustedExecutors)
    }

    function Logs(): State
      reads gate.store, actuator, receiptLog, journal
    {
      State(gate.store.entries, actuator.calls, receiptLog.entries, journal.entries)
    }

    function RevokedNow(): Option<Revoked>
      reads revocations
    {
      if revocations == null then None else Some(revocations.entries)
    }

    method Execute(call: Call) returns (outcome: Outcome)
      requires receiptLog.keys == gate.settings.keys
      requires call.keeperRevoked == RevokedNow() && call.gateRevoked == gate.RevokedNow()
      modifies gate.store, actuator, receiptLog, journal
      ensures (Logs(), outcome) == Step(Configuration(), old(Logs()), call)
    {
      ghost var cfg, before := Configuration(), Logs();
      var verdict := Sequence.Evaluate(combinations, call.request, journal.entries, call.now);
      if !verdict.allowed { return Denied(SequenceStage, ForbiddenCombination(verdict.matchedCombinationIds)); }
      if revocations != null {
        var payload := VerifyEnvelope(gate.settings.keys, gate.settings.render, call.capability);
        if payload.Failure? { return Denied(RevocationStage, InvalidCapability(payload.error)); }
        if ChainRevoked(revocations.entries, payload.value) { return Denied(RevocationStage, RevokedCapability); }
      }
      var verified := gate.Authorize(call.capability, call.request, call.now, call.storeClock, call.parent);
      if verified.Failure? { return Denied(GateStage, GateDenied(verified.error)); }
      AuthorizedIsShaped(cfg, before.replay, call);
      var failed := actuator.Act(verified.value, call.actuatorError);
      var receipt := receiptLog.Append(verified.value, Reported(call), Some(call.request));
      if receipt.Failure? {
        return Denied(ReceiptStage, ReceiptFailed(receipt.error)).(capabilityId := Some(verified.value.claims.capabilityId));
      }
      var compliance := Compliance.Evaluate(Configuration().Verifier(), gate.settings.render, call.capability, receiptLog.entries);
      outcome := Final(call, receipt.value, compliance);
      if outcome.allowed {
        var entry := journal.Record(call.request.action, call.request.target, call.now);
      }
    }
  }
}
