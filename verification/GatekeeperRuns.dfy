/**
 What holds of every run of the boundary from empty logs, whatever is presented to
 it, in whatever order, at whatever clock readings.
 */
module GatekeeperRuns {
  import opened Wrappers
  import opened Receipts
  import opened ReplayStores
  import opened Gate
  import opened Gatekeeping
  import Compliance

  // ---- runs ----

  ghost function After(cfg: Config, calls: seq<Call>): State {
    if calls == [] then EMPTY
    else Step(cfg, After(cfg, calls[..|calls| - 1]), calls[|calls| - 1]).0
  }

  ghost function OutcomeAt(cfg: Config, calls: seq<Call>, i: nat): Outcome
    requires i < |calls|
  {
    Step(cfg, After(cfg, calls[..i]), calls[i]).1
  }

  ghost function Outcomes(cfg: Config, calls: seq<Call>): seq<Outcome> {
    seq(|calls|, i requires 0 <= i < |calls| => OutcomeAt(cfg, calls, i))
  }

  lemma {:induction false} RunStep(cfg: Config, calls: seq<Call>)
    requires calls != []
    ensures var last := |calls| - 1; var s := After(cfg, calls[..last]);
      && After(cfg, calls) == Step(cfg, s, calls[last]).0
      && Outcomes(cfg, calls) == Outcomes(cfg, calls[..last]) + [Step(cfg, s, calls[last]).1]
  {
    var last := |calls| - 1;
    forall i | 0 <= i < last ensures Outcomes(cfg, calls)[i] == Outcomes(cfg, calls[..last])[i] {
      OutcomePrefix(cfg, calls, last, i);
    }
  }

  lemma OutcomePrefix(cfg: Config, calls: seq<Call>, n: nat, i: nat)
    requires i < n <= |calls|
    ensures OutcomeAt(cfg, calls[..n], i) == OutcomeAt(cfg, calls, i)
  {
    assert calls[..n][..i] == calls[..i];
  }

  lemma AfterStep(cfg: Config, calls: seq<Call>, j: nat)
    requires 0 < j <= |calls|
    ensures After(cfg, calls[..j]) == Step(cfg, After(cfg, calls[..j - 1]), calls[j - 1]).0
  {
    assert calls[..j][..j - 1] == calls[..j - 1];
  }

  // ---- single steps ----

  /** The store call a step makes, if it gets as far as the store. */
  ghost function Consumptions1(cfg: Config, s: State, call: Call): seq<Consumption> {
    if Refusal(cfg, s.journal, call).None?
       && Violation(cfg.settings, call.gateRevoked, call.capability, call.request, call.now, call.parent).None?
    then [ConsumptionOf(call.capability.payload, call.storeClock)] else []
  }

  /** A denial at sequence, revocation or gate changes no actuator, receipt or journal state. */
  lemma EarlyDenialChangesNothing(cfg: Config, s: State, call: Call)
    ensures var (s', o) := Step(cfg, s, call);
      o.stage in {SequenceStage, RevocationStage, GateStage} ==>
        s'.actuated == s.actuated && s'.receipts == s.receipts && s'.journal == s.journal
    ensures var (s', o) := Step(cfg, s, call);
      o.stage in {SequenceStage, RevocationStage} ==> s' == s
  {
  }

  /** Allowed is stage `complete`, a denial has a reason, and only an allowed outcome is journaled. */
  lemma OutcomeConsistent(cfg: Config, s: State, call: Call)
    ensures var (s', o) := Step(cfg, s, call);
      && (o.allowed <==> o.stage == Complete)
      && (o.allowed <==> o.reason.None?)
      && (o.journalRecorded <==> o.allowed)
      && s'.journal == s.journal + (if o.allowed then [Journaled(call)] else [])
      && (o.allowed ==> o.receiptId.Some?)
  {
    var (s', o) := Step(cfg, s, call);
    if Refusal(cfg, s.journal, call).None? && Authorized(cfg, s.replay, call).Success? {
      AuthorizedIsShaped(cfg, s.replay, call);
      if Receipted(cfg, s.receipts, call).Success? {
        Compliance.VerdictCharacterised(cfg.Verifier(), cfg.settings.render, call.capability,
                                        s.receipts + [Receipted(cfg, s.receipts, call).value]);
      }
    }
  }

  /** The capability whose consumption was granted is the one that is actuated, and nothing else is. */
  lemma ActuatedIffGranted(cfg: Config, s: State, call: Call)
    ensures var s' := Step(cfg, s, call).0; var c := Consumptions1(cfg, s, call);
      && s'.replay == (if c == [] then s.replay else Consume(s.replay, c[0]))
      && s'.actuated == s.actuated
           + (if c != [] && Consumable(s.replay, c[0]) then [Verified(call.capability.payload, call.now)] else [])
  {
  }

  /** A receipt is appended only for the capability actuated in the same step, and its outcome names it. */
  lemma ReceiptStep(cfg: Config, s: State, call: Call)
    ensures var (s', o) := Step(cfg, s, call);
      if o.receiptId.None? then s'.receipts == s.receipts
      else
        && |s'.receipts| == |s.receipts| + 1 && s'.receipts[..|s.receipts|] == s.receipts
        && s'.actuated == s.actuated + [Verified(call.capability.payload, call.now)]
        && var r := s'.receipts[|s.receipts|].payload;
           && o.receiptId == Some(r.receiptId) && o.capabilityId == Some(r.capabilityId)
           && r.capabilityId == call.capability.payload.capabilityId
           && !HasReceipt(s.receipts, r.capabilityId)
  {
  }

  // ---- conservation over a run ----

  ghost function CountAllowed(outcomes: seq<Outcome>): nat {
    if outcomes == [] then 0
    else CountAllowed(outcomes[..|outcomes| - 1]) + if outcomes[|outcomes| - 1].allowed then 1 else 0
  }

  ghost function CountReceipted(outcomes: seq<Outcome>): nat {
    if outcomes == [] then 0
    else CountReceipted(outcomes[..|outcomes| - 1]) + if outcomes[|outcomes| - 1].receiptId.Some? then 1 else 0
  }

  /** All calls a run makes to the replay store, in order. */
  ghost function StoreCalls(cfg: Config, calls: seq<Call>): seq<Consumption> {
    if calls == [] then []
    else
      var last := |calls| - 1;
      StoreCalls(cfg, calls[..last]) + Consumptions1(cfg, After(cfg, calls[..last]), calls[last])
  }

  /** The ids the store granted, in order. */
  ghost function GrantedIds(events: seq<Consumption>): seq<string> {
    if events == [] then []
    else
      var last := |events| - 1;
      GrantedIds(events[..last]) + if Granted(events, last) then [events[last].id] else []
  }

  /** One more call to the store. */
  lemma GrantedStep(events: seq<Consumption>, e: Consumption)
    ensures Entries(events + [e]) == Consume(Entries(events), e)
    ensures GrantedIds(events + [e]) == GrantedIds(events) + if Consumable(Entries(events), e) then [e.id] else []
  {
    assert (events + [e])[..|events|] == events;
  }

  function Ids(actuated: seq<Verified>): seq<string> {
    if actuated == [] then [] else Ids(actuated[..|actuated| - 1]) + [actuated[|actuated| - 1].claims.capabilityId]
  }

  lemma IdsAppend(actuated: seq<Verified>, v: Verified)
    ensures Ids(actuated + [v]) == Ids(actuated) + [v.claims.capabilityId]
  {
    assert (actuated + [v])[..|actuated|] == actuated;
  }

  /** The store's entries are those of the run of its own calls, and the actuator ran exactly for its grants, in order. */
  lemma {:induction false} ActuationsAreGrants(cfg: Config, calls: seq<Call>)
    ensures After(cfg, calls).replay == Entries(StoreCalls(cfg, calls))
    ensures Ids(After(cfg, calls).actuated) == GrantedIds(StoreCalls(cfg, calls))
    decreases |calls|
  {
    if calls != [] {
      var last := |calls| - 1;
      var s := After(cfg, calls[..last]);
      ActuationsAreGrants(cfg, calls[..last]);
      ActuatedIffGranted(cfg, s, calls[last]);
      var before, c := StoreCalls(cfg, calls[..last]), Consumptions1(cfg, s, calls[last]);
      if c == [] {
        assert before + c == before;
      } else {
        assert c == [c[0]];
        GrantedStep(before, c[0]);
        IdsAppend(s.actuated, Verified(calls[last].capability.payload, calls[last].now));
      }
    }
  }

  ghost predicate ActuatedId(s: State, id: string) {
    exists v :: v in s.actuated && v.claims.capabilityId == id
  }

  /** Receipts are for distinct capabilities, all of them actuated. */
  ghost predicate ReceiptsBacked(s: State) {
    && |s.receipts| <= |s.actuated|
    && DistinctCapabilities(s.receipts)
    && forall e :: e in s.receipts ==> ActuatedId(s, e.payload.capabilityId)
  }

  lemma ReceiptsStayBacked(cfg: Config, s: State, call: Call)
    requires ReceiptsBacked(s)
    ensures ReceiptsBacked(Step(cfg, s, call).0)
  {
    var (s', o) := Step(cfg, s, call);
    ReceiptStep(cfg, s, call);
    ActuatedIffGranted(cfg, s, call);
    BackedExtends(s, s', Verified(call.capability.payload, call.now));
  }

  lemma BackedExtends(s: State, s': State, v: Verified)
    requires ReceiptsBacked(s) && s.actuated <= s'.actuated
    requires s'.receipts == s.receipts ||
      (&& s'.actuated == s.actuated + [v] && |s'.receipts| == |s.receipts| + 1
       && s'.receipts[..|s.receipts|] == s.receipts
       && s'.receipts[|s.receipts|].payload.capabilityId == v.claims.capabilityId
       && !HasReceipt(s.receipts, v.claims.capabilityId))
    ensures ReceiptsBacked(s')
  {
    ActuatedGrows(s, s');
    if s'.receipts != s.receipts {
      assert v in s'.actuated;
      assert s'.receipts == s.receipts + [s'.receipts[|s.receipts|]];
      forall j | 0 <= j < |s.receipts| ensures s.receipts[j].payload.capabilityId != v.claims.capabilityId {
        assert s.receipts[j] in s.receipts;
      }
    }
  }

  lemma CountsAppend(outcomes: seq<Outcome>, o: Outcome)
    ensures CountAllowed(outcomes + [o]) == CountAllowed(outcomes) + if o.allowed then 1 else 0
    ensures CountReceipted(outcomes + [o]) == CountReceipted(outcomes) + if o.receiptId.Some? then 1 else 0
  {
    assert (outcomes + [o])[..|outcomes|] == outcomes;
  }

  /** The counts agree: one journal entry per allowed outcome, one receipt per receipted one, receipts only for actuations. */
  lemma {:induction false} RunConserves(cfg: Config, calls: seq<Call>)
    ensures var s := After(cfg, calls); var outcomes := Outcomes(cfg, calls);
      && |s.journal| == CountAllowed(outcomes)
      && |s.receipts| == CountReceipted(outcomes)
      && CountAllowed(outcomes) <= |s.receipts| <= |s.actuated|
      && ReceiptsBacked(s)
    decreases |calls|
  {
    if calls != [] {
      var last := |calls| - 1;
      var s, call := After(cfg, calls[..last]), calls[last];
      RunConserves(cfg, calls[..last]);
      RunStep(cfg, calls);
      OutcomeConsistent(cfg, s, call);
      ReceiptStep(cfg, s, call);
      ReceiptsStayBacked(cfg, s, call);
      CountsAppend(Outcomes(cfg, calls[..last]), Step(cfg, s, call).1);
    }
  }

  lemma ActuatedGrows(s: State, s': State)
    requires s.actuated <= s'.actuated
    ensures forall id :: ActuatedId(s, id) ==> ActuatedId(s', id)
  {
    forall id | ActuatedId(s, id) ensures ActuatedId(s', id) {
      var v :| v in s.actuated && v.claims.capabilityId == id;
      assert v in s'.actuated;
    }
  }

  ghost predicate Grows(s: State, t: State) {
    s.actuated <= t.actuated && s.receipts <= t.receipts && s.journal <= t.journal
  }

  lemma StepGrows(cfg: Config, s: State, call: Call)
    ensures Grows(s, Step(cfg, s, call).0)
  {
    OutcomeConsistent(cfg, s, call);
    ReceiptStep(cfg, s, call);
    ActuatedIffGranted(cfg, s, call);
  }

  /** A run only ever adds to its logs. */
  lemma {:induction false} LogsGrow(cfg: Config, calls: seq<Call>, i: nat, j: nat)
    requires i <= j <= |calls|
    ensures Grows(After(cfg, calls[..i]), After(cfg, calls[..j]))
    decreases j - i
  {
    if i < j {
      LogsGrow(cfg, calls, i, j - 1);
      AfterStep(cfg, calls, j);
      StepGrows(cfg, After(cfg, calls[..j - 1]), calls[j - 1]);
    }
  }

  /** The outcome's receipt is in the log. */
  ghost predicate HasOwnReceipt(receipts: seq<Entry>, o: Outcome) {
    exists e :: e in receipts && o.receiptId == Some(e.payload.receiptId) && o.capabilityId == Some(e.payload.capabilityId)
  }

  lemma ReceiptKept(cfg: Config, calls: seq<Call>, i: nat, j: nat)
    requires i < j <= |calls| && OutcomeAt(cfg, calls, i).receiptId.Some?
    ensures HasOwnReceipt(After(cfg, calls[..j]).receipts, OutcomeAt(cfg, calls, i))
  {
    var s := After(cfg, calls[..i]);
    ReceiptStep(cfg, s, calls[i]);
    AfterStep(cfg, calls, i + 1);
    var e := After(cfg, calls[..i + 1]).receipts[|s.receipts|];
    LogsGrow(cfg, calls, i + 1, j);
    assert e in After(cfg, calls[..j]).receipts;
  }

  /** Every outcome with a receipt has its own in the final log. */
  lemma {:induction false} ReceiptsStay(cfg: Config, calls: seq<Call>, i: nat)
    requires i < |calls|
    ensures OutcomeAt(cfg, calls, i).receiptId.Some? ==> HasOwnReceipt(After(cfg, calls).receipts, OutcomeAt(cfg, calls, i))
  {
    assert calls[..|calls|] == calls;
    if OutcomeAt(cfg, calls, i).receiptId.Some? { ReceiptKept(cfg, calls, i, |calls|); }
  }

  /** And no two are for the same capability. */
  lemma {:induction false} ReceiptsAreOwn(cfg: Config, calls: seq<Call>, i: nat, j: nat)
    requires i < j < |calls|
    ensures OutcomeAt(cfg, calls, i).receiptId.Some? && OutcomeAt(cfg, calls, j).receiptId.Some? ==>
      OutcomeAt(cfg, calls, i).capabilityId != OutcomeAt(cfg, calls, j).capabilityId
  {
    if OutcomeAt(cfg, calls, i).receiptId.Some? && OutcomeAt(cfg, calls, j).receiptId.Some? {
      ReceiptKept(cfg, calls, i, j);
      ReceiptStep(cfg, After(cfg, calls[..j]), calls[j]);
    }
  }
}
