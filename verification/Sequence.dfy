/**
 Forbidden combinations (sequence.py): the journal of executed actions, and the
 policy that refuses a request once a combination of them is complete.
 */
module Sequence {
  import opened Wrappers
  import opened Glob
  import opened Models

  datatype JournalEntry = JournalEntry(action: string, target: string, at: int)

  datatype PatternPair = PatternPair(action: string, target: string)

  datatype ForbiddenCombination = ForbiddenCombination(
    combinationId: string,
    patterns: seq<PatternPair>,
    windowSeconds: Option<int>,
    trigger: Option<PatternPair>)

  datatype SequenceVerdict = SequenceVerdict(allowed: bool, matchedCombinationIds: seq<string>)

  /** What the constructors of a combination and of a policy insist on. */
  predicate ValidCombination(c: ForbiddenCombination) {
    c.patterns != [] && (c.windowSeconds.Some? ==> c.windowSeconds.value >= 1)
  }

  predicate PairMatches(p: PatternPair, action: string, target: string) {
    Matches(p.action, action) && Matches(p.target, target)
  }

  /** An entry no older than the window. */
  predicate Within(e: JournalEntry, now: int, windowSeconds: Option<int>) {
    windowSeconds.Some? ==> now - windowSeconds.value * MICROS <= e.at
  }

  predicate Observed(entries: seq<JournalEntry>, p: PatternPair, now: int, windowSeconds: Option<int>) {
    exists e :: e in entries && Within(e, now, windowSeconds) && PairMatches(p, e.action, e.target)
  }

  class ActionJournal {
    var entries: seq<JournalEntry>

    constructor ()
      ensures entries == []
    {
      entries := [];
    }

    method Record(action: string, target: string, at: int) returns (entry: JournalEntry)
      modifies this
      ensures entry == JournalEntry(action, target, at)
      ensures entries == old(entries) + [entry]
    {
      entry := JournalEntry(action, target, at);
      entries := entries + [entry];
    }

    method MatchesPair(p: PatternPair, now: int, windowSeconds: Option<int>) returns (found: bool)
      requires windowSeconds.Some? ==> windowSeconds.value >= 1
      ensures found == Observed(entries, p, now, windowSeconds)
    {
      for i := 0 to |entries|
        invariant forall j :: 0 <= j < i ==>
          !(Within(entries[j], now, windowSeconds) && PairMatches(p, entries[j].action, entries[j].target))
      {
        var e := entries[i];
        if windowSeconds.Some? && e.at < now - windowSeconds.value * MICROS { continue; }
        if PairMatches(p, e.action, e.target) { return true; }
      }
      found := false;
    }
  }

  predicate IsComplete(c: ForbiddenCombination, entries: seq<JournalEntry>, now: int) {
    forall p :: p in c.patterns ==> Observed(entries, p, now, c.windowSeconds)
  }

  predicate Denies(c: ForbiddenCombination, r: Request) {
    c.trigger.Some? ==> PairMatches(c.trigger.value, r.action, r.target)
  }

  predicate Forbids(c: ForbiddenCombination, r: Request, entries: seq<JournalEntry>, now: int) {
    IsComplete(c, entries, now) && Denies(c, r)
  }

  function MatchedIds(combinations: seq<ForbiddenCombination>, r: Request, entries: seq<JournalEntry>, now: int): seq<string> {
    if combinations == [] then []
    else (if Forbids(combinations[0], r, entries, now) then [combinations[0].combinationId] else [])
         + MatchedIds(combinations[1..], r, entries, now)
  }

  /** `SequencePolicy.evaluate` */
  function Evaluate(combinations: seq<ForbiddenCombination>, r: Request, entries: seq<JournalEntry>, now: int): SequenceVerdict {
    var matched := MatchedIds(combinations, r, entries, now);
    SequenceVerdict(matched == [], matched)
  }

  /** Allowed exactly when no combination is both complete and triggered; the ids name those that are. */
  lemma {:induction false} VerdictCharacterised(combinations: seq<ForbiddenCombination>, r: Request,
                                                entries: seq<JournalEntry>, now: int)
    ensures var v := Evaluate(combinations, r, entries, now);
      && (v.allowed <==> forall c :: c in combinations ==> !Forbids(c, r, entries, now))
      && (forall id :: id in v.matchedCombinationIds <==>
            exists c :: c in combinations && c.combinationId == id && Forbids(c, r, entries, now))
  {
    if combinations != [] {
      VerdictCharacterised(combinations[1..], r, entries, now);
      assert combinations == [combinations[0]] + combinations[1..];
    }
  }

  /** Without a window, a complete combination stays complete as the journal grows and time passes. */
  lemma CompletenessPersists(c: ForbiddenCombination, entries: seq<JournalEntry>, more: seq<JournalEntry>, now: int, later: int)
    requires c.windowSeconds.None? && IsComplete(c, entries, now)
    ensures IsComplete(c, entries + more, later)
  {
    forall p | p in c.patterns ensures Observed(entries + more, p, later, c.windowSeconds) {
      var e :| e in entries && Within(e, now, c.windowSeconds) && PairMatches(p, e.action, e.target);
      assert e in entries + more;
    }
  }

  /** A window that has passed every entry. */
  ghost predicate WindowPassed(c: ForbiddenCombination, entries: seq<JournalEntry>, now: int) {
    c.windowSeconds.Some? && forall e :: e in entries ==> e.at < now - c.windowSeconds.value * MICROS
  }

  /** With the journal unchanged, time completes nothing. */
  lemma CompletenessFades(c: ForbiddenCombination, entries: seq<JournalEntry>, now: int, later: int)
    requires now <= later && IsComplete(c, entries, later)
    ensures IsComplete(c, entries, now)
  {
    forall p | p in c.patterns ensures Observed(entries, p, now, c.windowSeconds) {
      var e :| e in entries && Within(e, later, c.windowSeconds) && PairMatches(p, e.action, e.target);
      assert Within(e, now, c.windowSeconds);
    }
  }

  /**
   A purely windowed denial lifts: once the windows of the combinations that deny the
   request have passed every entry, it is allowed, with the journal unchanged and
   whatever other combinations the policy holds.
   */
  lemma WindowedDenialLifts(combinations: seq<ForbiddenCombination>, r: Request, entries: seq<JournalEntry>, now: int, later: int)
    requires now <= later
    requires forall c :: c in combinations && Forbids(c, r, entries, now) ==>
      ValidCombination(c) && WindowPassed(c, entries, later)
    ensures Evaluate(combinations, r, entries, later).allowed
  {
    VerdictCharacterised(combinations, r, entries, later);
    forall c | c in combinations ensures !Forbids(c, r, entries, later) {
      if Forbids(c, r, entries, now) {
        assert !Observed(entries, c.patterns[0], later, c.windowSeconds);
      } else if IsComplete(c, entries, later) {
        CompletenessFades(c, entries, now, later);
      }
    }
  }

  /** And until then it holds: an entry exactly at the edge of the window still counts. */
  lemma EdgeOfWindowCounts(c: ForbiddenCombination, e: JournalEntry, p: PatternPair)
    requires c.windowSeconds.Some? && c.patterns == [p] && PairMatches(p, e.action, e.target)
    ensures IsComplete(c, [e], e.at + c.windowSeconds.value * MICROS)
    ensures !IsComplete(c, [e], e.at + c.windowSeconds.value * MICROS + 1)
  {
    assert Within(e, e.at + c.windowSeconds.value * MICROS, c.windowSeconds);
    assert p in c.patterns;
    assert !Observed([e], p, e.at + c.windowSeconds.value * MICROS + 1, c.windowSeconds);
  }
}
