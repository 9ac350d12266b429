/** Safety of the boundary over whole runs: at most once, history, compliance, sequence policy and revocation. */
module BoundarySafety {
  import opened Wrappers
  import opened Crypto
  import opened Capabilities
  import opened Receipts
  import opened ReplayStores
  import opened Gate
  import opened Gatekeeping
  import opened GatekeeperRuns
  import opened DelegationChain
  import Sequence
  import Compliance

  // ---- at most once ----

  ghost predicate DistinctIds(ids: seq<string>) {
    forall i, j :: 0 <= i < j < |ids| ==> ids[i] != ids[j]
  }

  /** Every granted id of a prefix is an earlier granted call. */
  lemma {:induction false} GrantedIdHasCall(events: seq<Consumption>, id: string)
    requires id in GrantedIds(events)
    ensures exists i :: 0 <= i < |events| && Granted(events, i) && events[i].id == id
    decreases |events|
  {
    var last := |events| - 1;
    if id in GrantedIds(events[..last]) {
      GrantedIdHasCall(events[..last], id);
      var i :| 0 <= i < last && Granted(events[..last], i) && events[..last][i].id == id;
      GrantedInPrefix(events, last, i);
      assert Granted(events, i) && events[i].id == id;
    } else {
      assert Granted(events, last) && events[last].id == id;
    }
  }

  /** On a nondecreasing, timely store clock the granted ids are pairwise distinct. */
  lemma {:induction false} GrantedIdsDistinct(events: seq<Consumption>)
    requires NondecreasingClock(events) && ExpiryFixed(events) && InTime(events)
    ensures DistinctIds(GrantedIds(events))
    decreases |events|
  {
    if events != [] {
      var last := |events| - 1;
      GrantedIdsDistinct(events[..last]);
      if Granted(events, last) && events[last].id in GrantedIds(events[..last]) {
        GrantedIdHasCall(events[..last], events[last].id);
        var i :| 0 <= i < last && Granted(events[..last], i) && events[..last][i].id == events[last].id;
        GrantedInPrefix(events, last, i);
        AtMostOnce(events, i, last);
      }
    }
  }

  /** Every store call of a run is for a capability whose id is its content id. */
  ghost predicate FromCapability(names: Naming, e: Consumption) {
    exists c: Capability :: c.Shaped() && e.id == names.capabilityId(c) && e.expiresAt == c.expiresAt
  }

  lemma StoreCallIsGenuine(cfg: Config, s: State, call: Call)
    ensures forall e :: e in Consumptions1(cfg, s, call) ==> FromCapability(cfg.settings.names, e)
  {
    if Consumptions1(cfg, s, call) != [] {
      AuthorizedMeans(cfg.settings, call.gateRevoked, call.capability, call.request, call.now, call.parent);
      assert FromCapability(cfg.settings.names, ConsumptionOf(call.capability.payload, call.storeClock));
    }
  }

  lemma {:induction false} StoreCallsAreGenuine(cfg: Config, calls: seq<Call>)
    ensures forall e :: e in StoreCalls(cfg, calls) ==> FromCapability(cfg.settings.names, e)
    decreases |calls|
  {
    if calls != [] {
      StoreCallsAreGenuine(cfg, calls[..|calls| - 1]);
      StoreCallIsGenuine(cfg, After(cfg, calls[..|calls| - 1]), calls[|calls| - 1]);
    }
  }

  /** Because the id is a hash of the body, it fixes the expiry the store is given. */
  lemma StoreCallsFixExpiry(cfg: Config, calls: seq<Call>)
    requires Faithful(cfg.settings.names)
    ensures ExpiryFixed(StoreCalls(cfg, calls))
  {
    var events := StoreCalls(cfg, calls);
    StoreCallsAreGenuine(cfg, calls);
    forall i, j | 0 <= i < |events| && 0 <= j < |events| && events[i].id == events[j].id
      ensures events[i].expiresAt == events[j].expiresAt
    {
      assert events[i] in events && events[j] in events;
      GenuineCallsAgree(cfg.settings.names, events[i], events[j]);
    }
  }

  lemma GenuineCallsAgree(names: Naming, d: Consumption, e: Consumption)
    requires Faithful(names) && FromCapability(names, d) && FromCapability(names, e) && d.id == e.id
    ensures d.expiresAt == e.expiresAt
  {
    var a: Capability :| a.Shaped() && d.id == names.capabilityId(a) && d.expiresAt == a.expiresAt;
    var b: Capability :| b.Shaped() && e.id == names.capabilityId(b) && e.expiresAt == b.expiresAt;
    assert a.(capabilityId := b.capabilityId, rootId := b.rootId) == b;
  }

  /** No capability is actuated twice, in any run whose store clock is nondecreasing and never past a presented expiry. */
  lemma {:induction false} ActuatedAtMostOnce(cfg: Config, calls: seq<Call>)
    requires Faithful(cfg.settings.names)
    requires NondecreasingClock(StoreCalls(cfg, calls)) && InTime(StoreCalls(cfg, calls))
    ensures DistinctIds(Ids(After(cfg, calls).actuated))
  {
    ActuationsAreGrants(cfg, calls);
    StoreCallsFixExpiry(cfg, calls);
    GrantedIdsDistinct(StoreCalls(cfg, calls));
  }

  // ---- receipts and compliance ----

  /** The executor holds its key, is trusted, and receipts are named faithfully. */
  ghost predicate GenuineExecutor(cfg: Config) {
    HoldsKey(cfg.settings.keys, cfg.kid) && cfg.kid in cfg.trustedExecutors && FaithfulReceipts(cfg.receiptNames)
  }

  lemma {:induction false} StepKeepsChain(cfg: Config, s: State, call: Call)
    requires GenuineExecutor(cfg) && ValidChain(cfg.Verifier(), s.receipts)
    ensures ValidChain(cfg.Verifier(), Step(cfg, s, call).0.receipts)
  {
    if Refusal(cfg, s.journal, call).None? && Authorized(cfg, s.replay, call).Success? {
      AuthorizedIsShaped(cfg, s.replay, call);
      if Receipted(cfg, s.receipts, call).Success? {
        AppendKeepsChain(cfg.Verifier(), cfg.kid, s.receipts, call.capability.payload, Reported(call), Some(call.request));
      }
    }
  }

  /** The receipt log is a valid chain at every point of every run. */
  lemma {:induction false} ChainAlwaysValid(cfg: Config, calls: seq<Call>)
    requires GenuineExecutor(cfg)
    ensures ValidChain(cfg.Verifier(), After(cfg, calls).receipts)
    decreases |calls|
  {
    if calls != [] {
      ChainAlwaysValid(cfg, calls[..|calls| - 1]);
      StepKeepsChain(cfg, After(cfg, calls[..|calls| - 1]), calls[|calls| - 1]);
    }
  }

  /** An allowed outcome: the actuator completed, and the log as extended fulfils every obligation of the capability. */
  lemma {:induction false} AllowedMeansCompliant(cfg: Config, s: State, call: Call)
    requires Step(cfg, s, call).1.allowed
    ensures call.actuatorError.None?
    ensures Compliance.Compliant(cfg.Verifier(), cfg.settings.render, call.capability, Step(cfg, s, call).0.receipts)
  {
    AuthorizedIsShaped(cfg, s.replay, call);
    Compliance.VerdictCharacterised(cfg.Verifier(), cfg.settings.render, call.capability, Step(cfg, s, call).0.receipts);
  }

  /** Within a run the chain is never what an obligation fails for: only the capability's own receipt can be. */
  lemma NeverBlamesTheChain(cfg: Config, calls: seq<Call>, i: nat)
    requires GenuineExecutor(cfg) && i < |calls|
    ensures OutcomeAt(cfg, calls, i).reason != Some(NotCompliant(Compliance.InvalidReceiptChain))
  {
    var s, call := After(cfg, calls[..i]), calls[i];
    ChainAlwaysValid(cfg, calls[..i]);
    StepKeepsChain(cfg, s, call);
    if Refusal(cfg, s.journal, call).None? && Authorized(cfg, s.replay, call).Success? {
      AuthorizedIsShaped(cfg, s.replay, call);
      if Receipted(cfg, s.receipts, call).Success? {
        var entries := s.receipts + [Receipted(cfg, s.receipts, call).value];
        NoChainFailure(call.capability.payload.obligations,
                       Compliance.ReceiptFor(entries, call.capability.payload.capabilityId));
      }
    }
  }

  lemma {:induction false} NoChainFailure(obligations: seq<string>, receipt: Option<Receipt>)
    ensures Compliance.FirstFailure(Compliance.AssessAll(obligations, receipt)) != Some(Compliance.InvalidReceiptChain)
  {
    if obligations != [] {
      NoChainFailure(obligations[1..], receipt);
      var all := Compliance.AssessAll(obligations, receipt);
      assert all[1..] == Compliance.AssessAll(obligations[1..], receipt);
    }
  }

  // ---- sequence policy ----

  /** A complete windowless combination, at some point of a run. */
  ghost predicate CompletedBy(cfg: Config, calls: seq<Call>, i: nat, c: Sequence.ForbiddenCombination)
    requires i <= |calls|
  {
    && c in cfg.combinations && c.windowSeconds.None?
    && exists t :: Sequence.IsComplete(c, After(cfg, calls[..i]).journal, t)
  }

  lemma {:induction false} ForbiddenStep(cfg: Config, s: State, call: Call, c: Sequence.ForbiddenCombination)
    requires c in cfg.combinations && Sequence.Forbids(c, call.request, s.journal, call.now)
    ensures Step(cfg, s, call).1.stage == SequenceStage && Step(cfg, s, call).0 == s
  {
    Sequence.VerdictCharacterised(cfg.combinations, call.request, s.journal, call.now);
  }

  lemma StaysComplete(cfg: Config, calls: seq<Call>, i: nat, j: nat, c: Sequence.ForbiddenCombination, now: int)
    requires i <= j <= |calls| && CompletedBy(cfg, calls, i, c)
    ensures Sequence.IsComplete(c, After(cfg, calls[..j]).journal, now)
  {
    var a, b := After(cfg, calls[..i]).journal, After(cfg, calls[..j]).journal;
    var t :| Sequence.IsComplete(c, a, t);
    LogsGrow(cfg, calls, i, j);
    assert b == a + b[|a|..];
    Sequence.CompletenessPersists(c, a, b[|a|..], t, now);
  }

  /** Once complete, it refuses every request it denies, for the rest of the run and whatever the clock says. */
  lemma {:induction false} CompleteRefuses(cfg: Config, calls: seq<Call>, i: nat, j: nat, c: Sequence.ForbiddenCombination)
    requires i <= j < |calls| && CompletedBy(cfg, calls, i, c)
    requires Sequence.Denies(c, calls[j].request)
    ensures OutcomeAt(cfg, calls, j).stage == SequenceStage
    ensures Step(cfg, After(cfg, calls[..j]), calls[j]).0 == After(cfg, calls[..j])
  {
    StaysComplete(cfg, calls, i, j, c, calls[j].now);
    ForbiddenStep(cfg, After(cfg, calls[..j]), calls[j], c);
  }

  /** `after` continues `before` with entries that do not match the trigger; without a trigger, with nothing. */
  ghost predicate ContinuesClear(c: Sequence.ForbiddenCombination, before: seq<Sequence.JournalEntry>,
                                 after: seq<Sequence.JournalEntry>)
  {
    before <= after && forall k :: |before| <= k < |after| ==> ClearOf(c, after[k])
  }

  predicate ClearOf(c: Sequence.ForbiddenCombination, e: Sequence.JournalEntry) {
    c.trigger.Some? && !Sequence.PairMatches(c.trigger.value, e.action, e.target)
  }

  lemma UndeniedStep(cfg: Config, s: State, call: Call, c: Sequence.ForbiddenCombination)
    requires !Sequence.Denies(c, call.request)
    ensures ContinuesClear(c, s.journal, Step(cfg, s, call).0.journal)
  {
    OutcomeConsistent(cfg, s, call);
  }

  /** A complete combination keeps actions that match its trigger out of the journal. */
  lemma CompleteStep(cfg: Config, s: State, call: Call, c: Sequence.ForbiddenCombination)
    requires c in cfg.combinations && Sequence.IsComplete(c, s.journal, call.now)
    ensures ContinuesClear(c, s.journal, Step(cfg, s, call).0.journal)
  {
    if Sequence.Denies(c, call.request) { ForbiddenStep(cfg, s, call, c); }
    else { UndeniedStep(cfg, s, call, c); }
  }

  lemma {:induction false} NextStepClear(cfg: Config, calls: seq<Call>, i: nat, j: nat, c: Sequence.ForbiddenCombination)
    requires i < j <= |calls| && CompletedBy(cfg, calls, i, c)
    ensures ContinuesClear(c, After(cfg, calls[..j - 1]).journal, After(cfg, calls[..j]).journal)
  {
    AfterStep(cfg, calls, j);
    StaysComplete(cfg, calls, i, j - 1, c, calls[j - 1].now);
    CompleteStep(cfg, After(cfg, calls[..j - 1]), calls[j - 1], c);
  }

  /** No action matching its trigger is ever journaled again. */
  lemma {:induction false} TriggerNeverJournaledAgain(cfg: Config, calls: seq<Call>, i: nat, j: nat, c: Sequence.ForbiddenCombination)
    requires i <= j <= |calls| && CompletedBy(cfg, calls, i, c)
    ensures ContinuesClear(c, After(cfg, calls[..i]).journal, After(cfg, calls[..j]).journal)
    decreases j - i
  {
    if i < j {
      TriggerNeverJournaledAgain(cfg, calls, i, j - 1, c);
      NextStepClear(cfg, calls, i, j, c);
      ContinuesClearTransitive(c, After(cfg, calls[..i]).journal, After(cfg, calls[..j - 1]).journal,
                               After(cfg, calls[..j]).journal);
    }
  }

  lemma ContinuesClearTransitive(c: Sequence.ForbiddenCombination, x: seq<Sequence.JournalEntry>,
                                 y: seq<Sequence.JournalEntry>, z: seq<Sequence.JournalEntry>)
    requires ContinuesClear(c, x, y) && ContinuesClear(c, y, z)
    ensures ContinuesClear(c, x, z)
  {
    forall k | |x| <= k < |z| ensures ClearOf(c, z[k]) {
      if k < |y| { assert z[k] == y[k]; }
    }
  }

  /** Without a trigger the actuator is never called again. */
  lemma {:induction false} NoTriggerNoActuation(cfg: Config, calls: seq<Call>, i: nat, j: nat, c: Sequence.ForbiddenCombination)
    requires i <= j <= |calls| && CompletedBy(cfg, calls, i, c) && c.trigger.None?
    ensures After(cfg, calls[..j]) == After(cfg, calls[..i])
    decreases j - i
  {
    if i < j {
      NoTriggerNoActuation(cfg, calls, i, j - 1, c);
      NoTriggerStep(cfg, calls, i, j, c);
    }
  }

  lemma {:induction false} NoTriggerStep(cfg: Config, calls: seq<Call>, i: nat, j: nat, c: Sequence.ForbiddenCombination)
    requires i < j <= |calls| && CompletedBy(cfg, calls, i, c) && c.trigger.None?
    ensures After(cfg, calls[..j]) == After(cfg, calls[..j - 1])
  {
    AfterStep(cfg, calls, j);
    CompleteRefuses(cfg, calls, i, j - 1, c);
  }

  /**
   A denial by windowed combinations alone lifts: the same request, presented once those
   windows have passed every entry of the unchanged journal, passes the sequence check.
   */
  lemma WindowedDenialLifts(cfg: Config, s: State, call: Call, t: State, again: Call)
    requires t.journal == s.journal && again.request == call.request && call.now <= again.now
    requires forall c :: c in cfg.combinations && Sequence.Forbids(c, call.request, s.journal, call.now) ==>
      Sequence.ValidCombination(c) && Sequence.WindowPassed(c, s.journal, again.now)
    ensures Step(cfg, t, again).1.stage != SequenceStage
  {
    Sequence.WindowedDenialLifts(cfg.combinations, call.request, s.journal, call.now, again.now);
  }

  // ---- revocation ----

  predicate Sees(call: Call, id: string) {
    || (call.keeperRevoked.Some? && id in call.keeperRevoked.value)
    || (call.gateRevoked.Some? && id in call.gateRevoked.value)
  }

  /** A call that meets a revocation of the capability or of its root actuates nothing. */
  lemma RevokedIsNotActuated(cfg: Config, s: State, call: Call)
    requires Sees(call, call.capability.payload.capabilityId)
      || (call.capability.payload.rootId.Some? && Sees(call, call.capability.payload.rootId.value))
    ensures var (s', o) := Step(cfg, s, call);
      !o.allowed && s'.actuated == s.actuated && s'.receipts == s.receipts && s'.journal == s.journal
  {
    if Violation(cfg.settings, call.gateRevoked, call.capability, call.request, call.now, call.parent).None? {
      AuthorizedMeans(cfg.settings, call.gateRevoked, call.capability, call.request, call.now, call.parent);
    }
  }

  /** Revoking a root stops every member of every chain below it, however long. */
  lemma RevokedRootStopsDescendants(cfg: Config, s: State, call: Call, chain: seq<Capability>, i: nat)
    requires Linked(chain) && chain[0].RootOf() != "" && 0 < i < |chain|
    requires call.capability.payload == chain[i] && Sees(call, chain[0].RootOf())
    ensures var (s', o) := Step(cfg, s, call);
      !o.allowed && s'.actuated == s.actuated && s'.receipts == s.receipts && s'.journal == s.journal
  {
    LinkedRootIdKept(chain, i);
    RevokedIsNotActuated(cfg, s, call);
  }
}
