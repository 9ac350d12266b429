# KineGrant boundary, verified

A Dafny model of the protocol core of KineGrant: canonical documents and what is
hashed from them, capabilities and their attenuation, the action boundary from
gate to receipt and journal, and policy evaluation with its cache, analyzer,
registry and fleet distribution. Code that changes things in place is a class or
a method with loops, proved against a specification function; the laws are
lemmas about those functions, over all inputs, all runs and chains of any length.

`dafny verify dfyconfig.toml` checks the whole project.

## The four parts

**Documents.** `Canonical` prints JSON as the source does (RFC 8785, sections
3.2.2 and 3.2.3, with the source's own escape table) and has the parser that
inverts the printer. Equal bytes therefore mean equal values, and under a
collision-free SHA-256 so do equal digests and content ids. `Records`,
`Capabilities`, `Receipts`, `Models` and `PolicyJson` show that the records the
protocol hashes are determined by their JSON. Everything else works with the
resulting names (`Naming`, `ReceiptNaming`, `PolicyNaming`, `Hashing`) and only
assumes what is proved of them. On top are `Merkle` and the receipt chain.

**Capabilities.** `Capabilities` issues roots, `Attenuation` holds the generator,
Python's verifier and the browser's, `Glob` both pattern matchers, and
`DelegationChain` what follows for chains of any length.

**The boundary.** `ReplayStores`, `Gate`, `Sequence`, `Compliance`, `Receipts`
and `Revocation` are the pieces, `Gatekeeping.Gatekeeper.Execute` is the whole
step, `GatekeeperRuns` and `BoundarySafety` are what holds of every run from
empty logs. The clock is an input throughout: the gate's instant, the replay
store's own readings and the start and end a receipt is given are separate.
Both replay stores consume atomically, so at-most-once authorization holds for
any gates and threads over one store (`ManyGates`). The rest of `execute` is not
atomic in the source: what is proved of runs is about calls that do not overlap.

**Policy.** `Policy` evaluates, `PolicyLaws` says what a decision means and how it
changes with rules and evidence; `Caches` and `CacheLaws` are the bounded cache,
`Semantics` the analyzer and the explanation, `Registry`, `Authority` and
`Distribution` the versions, their signer and the fleet.

## Results that go against the documentation

The model follows the code. Where a promise fails, an input shows it and the exact
condition under which it holds is proved.

- A child's target is matched against the parent's pattern as a plain string. For a
  parent without character classes that is sound for all children without classes
  exactly when the parent has no `?` (`Glob.ContainmentOfPlainChildren`). A child
  with a class can escape further: `*b*` matches the pattern `[bc]`, which matches
  `c`. Over all children the check is sound exactly when the parent has no `?` and
  behind a star has only stars and then a final literal piece without `]`
  (`Glob.ContainmentOfAllChildren`, `Glob.ClassEscapes`).
- The verifier rejects one thing the generator returns: a second delegation to the
  agent that already is the delegate (`Attenuation.GeneratorMeetsVerifier`,
  `Attenuation.SecondDelegationRejected`). From parents that were issued or derived
  it cannot happen (`Attenuation.ReachableChildrenVerify`).
- Attenuation is described as strictly narrowing (src/kinegrant/attenuation.py:3-17),
  but a physical limit that one link does not state is gone below it, and may come
  back at any height, limit by limit (`DelegationChain.DroppedLimitsCanRise`); each
  shrinks where every link states it (`DelegationChain.StatedLimitsShrink`).
- The browser reads instants in whole milliseconds, Python writes microseconds. It
  can accept a child that exceeds its parent's lifetime within a millisecond; it does so
  for no child exactly when the parent begins on a millisecond and ends on the last
  microsecond of one (`Attenuation.LifetimeChecksAgree`, `Attenuation.EarlyChildAccepted`,
  `Attenuation.OutlivingChildAccepted`), and it
  reads a bundle's window as the registry does exactly when the window begins and
  ends on milliseconds (`Registry.WindowsAgree`, `Registry.RunningBestRunsAhead`).
- The browser's `*` stops at a line terminator and Python's does not: they agree on
  a value exactly when it has none (`Glob.MatchersAgreeExactly`).
- One-time consumption depends on the store's clock: a call is refused exactly while
  an earlier grant is outstanding (`ReplayStores.GrantCharacterised`), and past the
  presented expiry the same id is granted again (`ReplayStores.LateClockGrantsAgain`).
- A published policy version is called monotonic (src/kinegrant/policy_bundle.py:724);
  an explicit version is not compared with the last one (`Authority.PublishedVersion`,
  `Authority.PublishCanGoBack`).
- The analyzer says a shadowed allow can never win (src/kinegrant/semantics.py:141).
  It does not look at the deny's constraints: the claim holds of every allow the deny
  shadows exactly when the deny's constraints hold of every request at every instant
  (`Semantics.ReportedShadowHolds`, `Semantics.ReportTrueWhenVacuous`).
- Its negative containment verdicts can be wrong: for `*` against several stars, and
  for a literal pattern against a candidate whose classes leave nothing else, and in no
  other case (`Semantics.NegativeCoverWrongWhen`, `Semantics.NegativeCoverOfClass`).
- The verifier of policy reports rejects the distributor's own report exactly for an
  empty fleet and for a gate whose id is empty (`Distribution.OwnPolicyReportMatches`).

## Model

| member | source | states |
|---|---|---|
| Canonical.Decodes | src/kinegrant/canonical.py:63-85 | Parsing the printed form of any value, followed by the end of input or anything but a digit, yields that value and leaves what follows |
| Canonical.CharsDecode | src/kinegrant/canonical.py:11-28 | Every escaped string ends where its closing quote is and reads back as the string, U+2028 and U+2029 included |
| Canonical.NumberDecodes | src/kinegrant/canonical.py:31-56 | Integers of any size and sign read back |
| Canonical.TextInjective | src/kinegrant/canonical.py:63-85 | Equal text means equal values and equal continuation |
| Canonical.CanonicalJsonInjective | src/kinegrant/canonical.py:88-95 | Canonical bytes exist exactly for values with safe integers, and equal bytes mean equal values |
| Canonical.CanonicalHashInjective | src/kinegrant/canonical.py:88-103 | With a collision-free SHA-256, hashing canonical bytes tells all values apart |
| Canonical.DigestInjective | src/kinegrant/canonical.py:98-99 | Equal digests mean equal values |
| Canonical.ContentIdInjective | src/kinegrant/canonical.py:102-103 | Equal content ids of one kind mean equal bodies |
| Models.RequestDigestInjective | src/kinegrant/models.py:49-64 | A request digest stands for one request |
| Merkle.HashingSeparated | src/kinegrant/merkle.py:17-22 | Leaves, inner nodes and the pad never collide, and each fixes its parts |
| Merkle.PadToPowerOfTwo | src/kinegrant/merkle.py:25-29 | The least power of two not below the size |
| Merkle.BuildTree | src/kinegrant/merkle.py:32-40 | Layers of halving size, each the hashed pairs of the one below, over the leaves padded to the right; the root heads them |
| Merkle.SiblingInLayer | src/kinegrant/merkle.py:52-59 | Below the root the sibling position exists, so the fallback to the pad is never taken, and hashing with the sibling gives the parent |
| Merkle.MerkleProofs | src/kinegrant/merkle.py:43-61 | One proof for every field, carrying its value, and each proof verifies against the root |
| Merkle.FieldPath | src/kinegrant/merkle.py:50-60 | A path of one step per layer that leads from the leaf to the root |
| Merkle.VerifyField | src/kinegrant/merkle.py:64-80 | Accepts exactly when folding the path over the leaf gives the root; a step without a hash refuses |
| Merkle.ReachesLayer | src/kinegrant/merkle.py:64-80 | A fold that reaches a layer took as many steps as the layer is high and began at a leaf of the tree |
| Merkle.ProofsAreExact | src/kinegrant/merkle.py:64-80 | An accepted proof of any length is for a field the document holds with that value |
| Merkle.RootDeterminesDocument | src/kinegrant/merkle.py:43-61 | Two documents with one root are equal |
| Merkle.MerkleRedact | src/kinegrant/merkle.py:83-110 | Succeeds exactly for a non-empty list of known fields, reveals those with their values in that order, and its result verifies |
| Merkle.RedactionIsExact | src/kinegrant/merkle.py:113-128 | An accepted redaction of a document's root shows only what the document holds |
| Merkle.DisclosureIsExact | src/kinegrant/merkle.py:17-80 | The same for the source's own hashing, from collision freedom of SHA-256 alone |
| Receipts.ReceiptNamingFaithful | src/kinegrant/receipt.py:66-105 | The digest of a signed entry determines the entry, and a receipt id does not depend on itself |
| Receipts.VerifyReceiptChain | src/kinegrant/receipt.py:111-157 | True exactly when every entry is valid and carries the digest of the one before it, and no capability has two receipts |
| Receipts.AppendMeans | src/kinegrant/receipt.py:47-107 | A report is taken exactly when it is well formed, about an unreceipted capability and started in its lifetime; the receipt repeats capability, report and link |
| Receipts.AppendKeepsChain | src/kinegrant/receipt.py:31-108 | Appending keeps the chain valid for that executor |
| Receipts.LastEntryFixesChain | src/kinegrant/receipt.py:123-157 | Two valid chains with the same last entry are equal: no edit, reorder, insertion or dropped prefix survives |
| Receipts.ReceiptLog.Append | src/kinegrant/receipt.py:31-108 | Adds the new entry at the end, or raises and changes nothing |
| Glob.Containment | src/kinegrant/attenuation.py:351-353 | If a star-only parent matches a child pattern without classes as a string, it matches everything the child matches |
| Glob.ContainmentOfPlainChildren | src/kinegrant/attenuation.py:351-353 | For a parent without classes that holds of all children without classes exactly when it has no `?` |
| Glob.ContainmentOfAllChildren | src/kinegrant/attenuation.py:351-353 | Over all children, classes included, it holds exactly when the parent has no `?` and is open-ended: behind a star only stars and then a final literal piece without `]` |
| Glob.ClassEscapes | src/kinegrant/attenuation.py:351-353 | For every star-only parent that is not open-ended there are a child it matches and a value of the child that it does not match |
| Glob.MatchersAgree | verify/policy-bundle-verifier.js:90-97 | On star-only patterns the browser's matcher admits no more than Python's, and the same on one-line values |
| Glob.MatchersAgreeExactly | verify/policy-bundle-verifier.js:90-97 | On a value the two matchers agree for every star-only pattern exactly when the value has no line break |
| Capabilities.ContentIdDetermines | src/kinegrant/attenuation.py:34-40 | A capability id fixes every member but the id and the root id |
| Capabilities.PayloadDetermines | src/kinegrant/capability.py:107-145 | What is signed determines the capability, ids included |
| Capabilities.NamingFaithful | src/kinegrant/capability.py:14-21 | Ids and request digests computed over an injective hash tell capabilities and requests apart |
| Attenuation.FillLimits | src/kinegrant/attenuation.py:121-159 | The stated limits, each checked against the parent's, or the first error |
| Attenuation.AttenuateCapability | src/kinegrant/attenuation.py:162-315 | The first error, or a child with what was asked for, the delegation members of its case, limits within the parent's, which verifies exactly unless it is handed to the parent's own delegate |
| Attenuation.GeneratedAsAsked | src/kinegrant/attenuation.py:177-315 | A returned child has what was asked for, everything else as its parent, a lifetime of 1 to 300 seconds inside the parent's, and its own content id |
| Attenuation.GeneratedDelegation | src/kinegrant/attenuation.py:229-278 | Delegation members with and without a new delegate, including the delegate's request and the allowlist |
| Attenuation.UnchangedAttenuation | src/kinegrant/attenuation.py:102-118 | Asking for nothing narrower succeeds exactly while a whole second of the parent's lifetime is left |
| Attenuation.GeneratorMeetsVerifier | src/kinegrant/attenuation.py:318-448 | The verifier accepts what the generator returns, exactly unless it delegates to the parent's own delegate |
| Attenuation.SecondDelegationRejected | src/kinegrant/attenuation.py:388-392 | The exception occurs: a capability handed to its own delegate once more yields a child the verifier rejects |
| Attenuation.VerifierMeetsGenerator | src/kinegrant/attenuation.py:162-315 | Every well-formed child the verifier accepts can be generated, with the same scope, lifetime, limits and delegation |
| Attenuation.VerifiersAgree | verify/policy-bundle-verifier.js:1528-1673 | On star-only patterns, one-line values and scoped parents the browser accepts exactly what Python accepts of lifetimes cut to milliseconds, but for negative limits; it rejects nothing else that Python accepts |
| Attenuation.LifetimeChecksAgree | verify/policy-bundle-verifier.js:1628-1629 | The two lifetime checks agree for every child exactly when the parent begins on a millisecond and ends on the last microsecond of one |
| Attenuation.WholeLifetimesAgree | verify/policy-bundle-verifier.js:1628-1629 | They agree on lifetimes of whole milliseconds |
| Attenuation.EarlyChildAccepted | verify/policy-bundle-verifier.js:69-73 | A child that begins before its parent within a millisecond passes in the browser only |
| Attenuation.OutlivingChildAccepted | verify/policy-bundle-verifier.js:69-73 | So does a child that outlives its parent within a millisecond |
| Attenuation.ReachableCapabilities | src/kinegrant/capability.py:107-145 | Every capability issued or derived is scoped, and a delegated one cannot delegate on |
| Attenuation.ReachableChildrenVerify | src/kinegrant/capability.py:147-179 | Whatever is derived from an issued or derived capability passes the independent verifier |
| DelegationChain.LeafWithinRoot | src/kinegrant/attenuation.py:351-364 | In a verified chain of any length whose targets are checked soundly (star-only parents, open-ended where the child has a class), a request within the leaf's target pattern, actions and purposes is within the root's, and the leaf lives within the root's lifetime |
| Gate.LeafScopeWithinRoot | src/kinegrant/gate.py:153-178 | What the gate's own checks admit for the leaf of such a chain they admit for the root, exactly unless the root is a 0.1 capability whose target is not the request's own |
| DelegationChain.MembersDescend | src/kinegrant/attenuation.py:337-364 | Every member has the root's issuer, agent, policy digest, tier and allowlist, and policies, actions, purposes, lifetime and depth limit inside the root's |
| DelegationChain.RootIdKept | src/kinegrant/attenuation.py:331-336 | Every descendant names the root, and its own parent |
| DelegationChain.DelegatesOnce | src/kinegrant/attenuation.py:388-416 | The delegate changes at most once, depth counts the changes, and after a change nobody can delegate on |
| DelegationChain.StatedLimitsShrink | src/kinegrant/attenuation.py:427-437 | Force and velocity limits shrink along a chain in which every link states them |
| DelegationChain.StatedZonesShrink | src/kinegrant/attenuation.py:438-447 | A zone the leaf allows, the root allows, when every link states star-only zones |
| DelegationChain.DroppedLimitsCanRise | src/kinegrant/attenuation.py:427-447 | Below any root, a child derived without some of the limits, whatever others it states, leads to a verified leaf with any values at all for the ones left out |
| DelegationChain.VerifyDelegationChain | verify/policy-bundle-verifier.js:1675-1755 | Accepts exactly when every link verifies and the terminal capability fits the request; a broken link reported is the first |
| DelegationChain.JsLeafWithinRoot | verify/policy-bundle-verifier.js:1675-1755 | What the browser accepts for a chain with soundly checked targets, the root's grant covers by Python's matcher, and its lifetime but for less than a millisecond at either end |
| Revocation.RevocationList.constructor | src/kinegrant/revocation.py:62-65 | The entries by id, a later one replacing an earlier |
| Revocation.RevocationList.Revoke | src/kinegrant/revocation.py:71-80 | Adds or replaces exactly the entry of that id |
| ReplayStores.InMemoryReplayStore.ConsumeOnce | src/kinegrant/gate.py:33-41 | Evicts each entry that its own clock reading is past, then grants and records the id exactly if it is absent |
| ReplayStores.StoreHoldsOutstanding | src/kinegrant/gate.py:33-41 | On a nondecreasing clock the store holds exactly the grants whose expiry has not passed, despite eviction |
| ReplayStores.GrantCharacterised | src/kinegrant/gate.py:33-41 | A call is refused exactly while an earlier grant of its id is outstanding |
| ReplayStores.AtMostOnce | src/kinegrant/gate.py:59-79 | On a nondecreasing clock never past the presented expiry, with ids that fix the expiry, no id is granted twice |
| ReplayStores.LateClockGrantsAgain | src/kinegrant/gate.py:33-41 | Past the expiry the same id is granted again |
| Gate.AuthorizedIff | src/kinegrant/gate.py:129-232 | No violation exactly when the capability is genuine, covers the request, is live, is backed by policy, attenuates a presented parent and is not revoked |
| Gate.AuthorizedMeans | src/kinegrant/gate.py:129-239 | What a caller may rely on after authorization, for every version |
| Gate.ActionGate.Authorize | src/kinegrant/gate.py:129-239 | The first violation with the store untouched; else consumption decides, and the store is as one consumption leaves it |
| Sequence.ActionJournal.Record | src/kinegrant/sequence.py:63-72 | Appends exactly the entry |
| Sequence.ActionJournal.MatchesPair | src/kinegrant/sequence.py:74-96 | True exactly when some entry within the window matches both patterns |
| Sequence.VerdictCharacterised | src/kinegrant/sequence.py:184-202 | Allowed exactly when no combination is complete and denies the request; the ids are those of the ones that are |
| Sequence.CompletenessPersists | src/kinegrant/sequence.py:131-146 | A complete combination without window stays complete as the journal grows and time passes |
| Sequence.WindowedDenialLifts | src/kinegrant/sequence.py:83-96 | Once the windows of the combinations that deny a request have passed every entry, the request is allowed with the journal unchanged, whatever else the policy holds |
| Sequence.EdgeOfWindowCounts | src/kinegrant/sequence.py:83-96 | An entry exactly at the edge of the window still counts, a microsecond later it does not |
| Compliance.FindReceipt | src/kinegrant/compliance.py:92-101 | The first receipt for the capability |
| Compliance.FindResult | src/kinegrant/compliance.py:142-147 | The first result for the obligation |
| Compliance.Evaluate | src/kinegrant/compliance.py:62-180 | The verdict with one outcome per obligation and the reason of the first failure |
| Compliance.VerdictCharacterised | src/kinegrant/compliance.py:62-180 | Compliant exactly when the capability verifies and, if it has obligations, the chain is valid and the capability's receipt fulfils each; otherwise there is a reason |
| Gatekeeping.Gatekeeper.Execute | src/kinegrant/gatekeeper.py:81-181 | One call takes all four logs and the outcome through exactly one step |
| Gatekeeping.Gatekeeper.constructor | src/kinegrant/gatekeeper.py:58-79 | Without trusted executors, the log's own key is the trusted one |
| GatekeeperRuns.EarlyDenialChangesNothing | src/kinegrant/gatekeeper.py:94-126 | A denial at sequence, revocation or gate changes no actuator, receipt or journal state |
| GatekeeperRuns.OutcomeConsistent | src/kinegrant/gatekeeper.py:157-181 | Allowed is stage `complete`, every denial has a reason, and only allowed outcomes are journaled |
| GatekeeperRuns.ActuatedIffGranted | src/kinegrant/gatekeeper.py:118-133 | The actuator is called exactly for the capability whose consumption the store granted |
| GatekeeperRuns.ReceiptStep | src/kinegrant/gatekeeper.py:135-150 | A receipt is for the capability actuated in the same step and had none before; without one the log is unchanged |
| GatekeeperRuns.ActuationsAreGrants | src/kinegrant/gatekeeper.py:94-181 | Over a run, actuator calls are the store's grants, in order |
| GatekeeperRuns.RunConserves | src/kinegrant/gatekeeper.py:94-181 | Over a run, journal length is the number of allowed outcomes, receipts are those of receipted outcomes, at most as many as actuations, for distinct actuated capabilities |
| GatekeeperRuns.LogsGrow | src/kinegrant/gatekeeper.py:94-181 | A run only adds to actuations, receipts and journal |
| GatekeeperRuns.ReceiptsStay | src/kinegrant/gatekeeper.py:135-181 | Every receipted outcome, so every allowed one, has its receipt in the final log |
| GatekeeperRuns.ReceiptsAreOwn | src/kinegrant/receipt.py:47-48 | No two outcomes of a run have receipts for the same capability |
| BoundarySafety.StoreCallsFixExpiry | src/kinegrant/gate.py:227-239 | In a run the id given to the store fixes the expiry given with it |
| BoundarySafety.ActuatedAtMostOnce | src/kinegrant/gate.py:33-41 | No capability is actuated twice in any run whose store clock is nondecreasing and never past a presented expiry |
| BoundarySafety.ChainAlwaysValid | src/kinegrant/receipt.py:47-108 | The receipt log is a valid chain at every point of every run |
| BoundarySafety.AllowedMeansCompliant | src/kinegrant/gatekeeper.py:152-181 | An allowed outcome had a completing actuator and a log that fulfils every obligation |
| BoundarySafety.NeverBlamesTheChain | src/kinegrant/compliance.py:84-90 | In a run no outcome fails for an invalid receipt chain |
| BoundarySafety.CompleteRefuses | src/kinegrant/gatekeeper.py:96-102 | A complete combination without window refuses what it denies for the rest of the run, whatever the clock |
| BoundarySafety.TriggerNeverJournaledAgain | src/kinegrant/sequence.py:131-202 | From then on no action matching its trigger is journaled |
| BoundarySafety.NoTriggerNoActuation | src/kinegrant/sequence.py:148-154 | Without a trigger nothing changes ever again |
| BoundarySafety.WindowedDenialLifts | src/kinegrant/gatekeeper.py:96-102 | So the same request, presented later with the journal unchanged, passes the sequence check |
| ManyGates.AuthorizedAtMostOnce | src/kinegrant/gate.py:129-239 | No capability is authorized twice by any number of gates over one store, in any interleaving, under the clock conditions |
| ManyGates.StoreCallsFixExpiry | src/kinegrant/gate.py:231-239 | Whatever gate presents it, an id fixes the expiry the store is given |
| BoundarySafety.RevokedIsNotActuated | src/kinegrant/gatekeeper.py:104-126 | A call that meets a revocation of the capability or its root actuates, receipts and journals nothing |
| BoundarySafety.RevokedRootStopsDescendants | src/kinegrant/gate.py:227-231 | Revoking a root stops every member of every chain below it |
| Policy.PolicyEngine.Add | src/kinegrant/policy.py:166-173 | Adds all rules exactly when each is valid and no id is taken, else none |
| Policy.PolicyEngine.Evaluate | src/kinegrant/policy.py:182-248 | The decision of the rules at that instant |
| PolicyLaws.ConstraintsMean | src/kinegrant/policy.py:63-134 | Limits fail closed for both effects: an allow needs every one shown kept, a limited deny applies when one is broken, unshown or its zone entered |
| PolicyLaws.AllowedMeans | src/kinegrant/policy.py:182-248 | Allowed exactly when the request is fresh and known, some allow rule applies and no deny rule does |
| PolicyLaws.MatchedMeans | src/kinegrant/policy.py:212-213 | The matched ids are those of the applicable rules, by descending priority and then id |
| PolicyLaws.AllowedCarries | src/kinegrant/policy.py:235-248 | An allowed decision carries exactly the obligations of the applicable rules and their highest tier |
| PolicyLaws.DecisionIgnoresOrder | src/kinegrant/policy.py:175-248 | The whole decision, digest included, is the same for every permutation of the rules |
| PolicyLaws.RestrictingNeverGrants | src/kinegrant/policy.py:195-248 | Adding deny rules and untrusted allows never turns a denial into an allow |
| PolicyLaws.GentlerStaysAllowed | src/kinegrant/policy.py:91-134 | Lowering declared force or velocity keeps an allow and can only add obligations or raise the tier |
| PolicyLaws.OmittedMeansAnyValue | src/kinegrant/policy.py:91-134 | A request allowed with the value left out is allowed with any value |
| PolicyJson.RuleJsonInjective | src/kinegrant/models.py:97-110 | A rule's document determines the rule |
| PolicyJson.PolicyNamingFaithful | src/kinegrant/policy.py:175-180 | A policy digest fixes the sorted rules and the trusted issuers |
| Caches.CachedPolicyEngine.Clear | src/kinegrant/cache.py:39-44 | Empties the cache and the counters and takes over the current digest |
| Caches.CachedPolicyEngine.Evaluate | src/kinegrant/cache.py:46-63 | One lookup: dictionary, decision and counters afterwards |
| CacheLaws.ContentsAreRecent | src/kinegrant/cache.py:46-63 | After any run the keys in order are the most recently used cacheable ones since the last clear, never more than the capacity |
| CacheLaws.KeysCarryDigest | src/kinegrant/cache.py:46-51 | Every key carries the current policy digest |
| CacheLaws.EntriesWereGiven | src/kinegrant/cache.py:57-63 | Whatever is cached the engine answered earlier, without an explicit instant, for that key |
| CacheLaws.EqualKeysEqualAnswers | src/kinegrant/cache.py:51-52 | Equal keys mean equal requests and engines that answer alike at every instant |
| CacheLaws.EarlierAnswerStillHolds | src/kinegrant/policy.py:191-248 | Without time windows an earlier cacheable answer is the answer now exactly unless the request went stale in between |
| CacheLaws.HitIsEngineAnswer | src/kinegrant/cache.py:46-55 | A hit is an earlier answer for the same rules and request, and on a nondecreasing clock without time windows it is the answer now unless that is `stale_request` |
| Semantics.CoversIsSound | src/kinegrant/semantics.py:23-36 | A positive containment verdict is right for every value |
| Semantics.NegativeCoverWrongWhen | src/kinegrant/semantics.py:23-36 | A negative verdict is wrong exactly when the candidate is `*` and the pattern several stars, or the pattern is literal and the candidate, by its classes, matches nothing or nothing but the pattern |
| Semantics.NegativeCoverOfPlainCandidate | src/kinegrant/semantics.py:23-36 | Against candidates without classes only the first case is left |
| Semantics.NegativeCoverOfClass | src/kinegrant/semantics.py:23-36 | The second case occurs |
| Semantics.SetCovers | src/kinegrant/semantics.py:39-59 | Yes exactly when every candidate is covered by some pattern; otherwise the first uncovered candidate decides between no and unknown |
| Semantics.SetCoversIsSound | src/kinegrant/semantics.py:39-59 | Then every value a candidate matches some pattern matches |
| Semantics.Analyze | src/kinegrant/semantics.py:88-145 | The findings are exactly the ones true of the rules |
| Semantics.DenyAppliesThroughoutScope | src/kinegrant/policy.py:63-134 | A deny rule applies to everything in its scope at every instant exactly when its constraints are vacuous |
| Semantics.ShadowedNeverWins | src/kinegrant/semantics.py:122-144 | Where a shadowed allow applies a deny with vacuous constraints applies too, and the decision is a denial |
| Semantics.ReportedShadowHolds | src/kinegrant/semantics.py:122-144 | No request at any time is allowed with a reported rule matched, when the deny's constraints are vacuous |
| Semantics.ReportTrueWhenVacuous | src/kinegrant/semantics.py:122-144 | Every deny rule is reported against the allow of its own scope, and that the allow can never win is true exactly when the deny's constraints are vacuous |
| Semantics.Explain | src/kinegrant/semantics.py:148-194 | Every rule once, as applicable or with the first check it fails |
| Semantics.ExplanationAgrees | src/kinegrant/semantics.py:164-189 | The applicable rules are those of the decision whenever freshness and vocabulary checks pass |
| Registry.PolicyRegistry.Activate | src/kinegrant/policy_bundle.py:606-623 | Stores exactly a verified, non-conflicting bundle under its version, else raises and changes nothing |
| Registry.PolicyRegistry.Revoke | src/kinegrant/policy_bundle.py:648-667 | Marks exactly that version, unless the arguments are invalid |
| Registry.PolicyRegistry.Current | src/kinegrant/policy_bundle.py:625-646 | The bundle of the highest version that is neither revoked nor out of its window, or nothing |
| Registry.ActivationNeverLowers | src/kinegrant/policy_bundle.py:606-646 | Activation lowers no policy's current version at any time |
| Registry.RevocationNeverRaises | src/kinegrant/policy_bundle.py:625-667 | Revocation raises none |
| Registry.AppliedIsActivated | src/kinegrant/policy_bundle.py:606-623 | An activation in a run is the registry's activation |
| Registry.Converges | src/kinegrant/policy_bundle.py:606-667 | Any order, with any repetitions, of the same non-conflicting operations gives the same bundles, revoked versions and current versions at every time |
| Registry.CurrentPolicyVersion | verify/policy-bundle-verifier.js:260-278 | The first of the highest payloads eligible at that millisecond, nothing if none is, an error exactly when a payload is malformed |
| Registry.WindowsAgree | verify/policy-bundle-verifier.js:272-274 | The browser reads a window as the registry does, at every instant, exactly when it begins and ends on a millisecond |
| Registry.RevocationNameInjective | verify/policy-bundle-verifier.js:271-271 | The browser's revocation name stands for one version of one policy, colons in the id included |
| Registry.RunningBestIsCurrent | verify/policy-bundle-verifier.js:260-278 | Over a registry's bundles of one policy the running best is the registry's current bundle at every instant at which the windows are read alike |
| Registry.RunningBestOfWholeWindows | verify/policy-bundle-verifier.js:260-278 | So at every instant when the windows begin and end on milliseconds |
| Registry.RunningBestRunsAhead | verify/policy-bundle-verifier.js:260-278 | In the millisecond in which a newer version begins the browser can have it before the registry |
| Authority.PolicyAuthority.Publish | src/kinegrant/policy_bundle.py:734-769 | The signed new bundle, remembered as the last of its policy, or an error that changes nothing |
| Authority.PublishedVersion | src/kinegrant/policy_bundle.py:723-769 | The version goes up exactly when it is left open or named higher; left open it is the next one, and the link is to the last digest |
| Authority.PublishCanGoBack | src/kinegrant/policy_bundle.py:734-769 | An explicit version can be lower than the last |
| Authority.PublishedVerifies | src/kinegrant/policy_bundle.py:80-181 | What is published verifies where its signer is trusted, exactly within its window |
| Authority.PublishedBecomesCurrent | src/kinegrant/policy_bundle.py:606-646 | A registry with nothing newer that has not revoked it makes it current |
| Distribution.VisitFleet | src/kinegrant/policy_bundle.py:837-868 | Gates in order, up to the first that refuses; visited gates updated, the rest as they were |
| Distribution.Distribute | src/kinegrant/policy_bundle.py:822-881 | Touches no registry unless the bundle verifies; the report is that of the acknowledgements |
| Distribution.DistributionReaches | src/kinegrant/policy_bundle.py:837-868 | A registry that does not refuse ends at the higher of its version and the bundle's, unless it revoked that version: then it stays |
| Distribution.DistributionOutcome | src/kinegrant/policy_bundle.py:822-937 | On success that holds of every registry, a second pass changes nothing, and the report verifies exactly for a non-empty fleet without an empty id |
| Distribution.OwnPolicyReportMatches | src/kinegrant/policy_bundle.py:884-937 | When the distributor's own report matches its bundle |
| Distribution.BuiltBundleVerifies | src/kinegrant/revocation.py:112-198 | A built and signed revocation bundle verifies exactly where its issuer is trusted and its link is the expected one |
| Distribution.Absorb | src/kinegrant/distribution.py:70-79 | The gate's list with the new ids added and the known ones as they were; added plus already present is the size of the bundle |
| Distribution.Propagate | src/kinegrant/distribution.py:69-89 | Every gate absorbs the bundle and acknowledges its counts, in the order of the ids |
| Distribution.DistributeRevocations | src/kinegrant/distribution.py:55-104 | Changes nothing unless the bundle verifies, else every gate |
| Distribution.OwnRevocationReportMatches | src/kinegrant/distribution.py:107-172 | The report matches its bundle, also for no gates, and its totals add up to gates times bundle size |
| Distribution.RevocationOutcome | src/kinegrant/distribution.py:55-172 | The report verifies, every id of the bundle is revoked at every gate, and a second pass adds none |

## Modelling choices

- A document hash is a parameter. What is assumed of it is an explicit hypothesis
  (`CollisionFree`, `Injective`) and is used only through the naming records.
- A signature is a predicate on algorithm, key, rendered payload and signature
  text; `HoldsKey` says that a key holder's signatures check.
- Payloads are typed records. A version 0.1 capability holds its one action and
  purpose as one-element lists and the defaults the source uses for the members it lacks.
- Instants are integer microseconds, the resolution of Python's datetimes. They are
  rendered into the hashed documents as numbers, not as ISO text.
- Errors are constructors named after what is wrong; some neighbouring checks share one.
- Strings are sequences of Unicode scalar values, so lone surrogates do not occur.
- Python's `True == 1` is kept where it can show, in `required_context` and `risk_tier`.
- An empty set of trusted authorities is read as none given, as the source does,
  and then accepts any authority.

## Left out

- Ed25519, ML-DSA, base64url and key parsing: library calls behind the signature predicate.
- Floating-point numbers: limits, force and velocity are integers, and so are JSON numbers; printing floats needs shortest round-trip printing, which is not in the repository.
- Payloads of the wrong JSON type, or with unknown or missing members: records are typed, so the checks for them have no counterpart.
- Parents with `[...]` in containment: the matcher handles classes on both sides, the containment results are for parents without them.
- SQLite and its file: `consume_once` of both stores is the one atomic step of `ReplayStores`, with one clock reading for all entries in the one and one for each in the other.
- Restoring a persisted receipt chain: runs start from empty logs.
- Overlapping calls of `execute`: only the consumption is atomic in the source; two calls that overlap can both pass the sequence check, or link receipts to the same entry.
- Aliasing between gates of a fleet: registries and revocation lists of a fleet are values in a map, so one registry under two ids is not captured.
- Sharing inside the gatekeeper: gate, log and journal are separate objects, each with its own state; two gatekeepers over one journal are not modelled.
- The actuator's inside: it completes or raises, as the call says.
- Blank fields of an `ActionRequest` and the errors a journal entry could raise for them: requests are taken as constructed.
- `CapabilityIssuer.issue` and `issue_attenuated` as signers: a root of version 0.1 enters the results as an arbitrary parent.
- The `kg.action.*` vocabulary: `known` is a parameter.
- Semantics.Analyze: states which findings there are, not their order or texts.
- Semantics.Explain: states the applicable rules in order and the first failing check of each excluded one, not the texts.
- Compatibility warnings, conflict analysis, coverage and audit of policy bundles, ODRL export and serialisation of the registry: reports with easy claims.
- DelegationChain.VerifyDelegationChain: takes payloads whose envelopes, shapes, lifetimes and ids have been checked one by one, and compares links and the terminal capability with the request.
- Canonical.NumberDecodes: integers only; see floating-point numbers above.
- Attestation, checkpoints, sensor evidence, discovery, identity grammar, trusted clock and digest-only redaction: shape checks or short state.
- Demos, CLIs, fuzzing, red-team, model-checking and conformance harnesses: finite scenario lists or I/O.
