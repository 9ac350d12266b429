/** Static policy analysis and decision explanation (semantics.py). */
module Semantics {
  import opened Wrappers
  import opened Canonical
  import opened Glob
  import opened Lists
  import opened Models
  import opened Policy
  import opened PolicyLaws

  /** `True`, `False` and `None` of the containment heuristic. */
  datatype Cover = Yes | No | Unknown

  function Covers(pattern: string, candidate: string): Cover {
    if pattern == "*" || pattern == candidate then Yes
    else if candidate == "*" then No
    else if Literal(pattern) then No
    else if Literal(candidate) then (if Matches(pattern, candidate) then Yes else No)
    else Unknown
  }

  /** A positive answer is right: every value of the candidate is a value of the pattern. */
  lemma CoversIsSound(pattern: string, candidate: string, value: string)
    requires Covers(pattern, candidate) == Yes && Matches(candidate, value)
    ensures Matches(pattern, value)
  {
    if pattern == "*" { StarMatches(value); }
    else if pattern != candidate { LiteralMatches(candidate, value); }
  }

  /** Every value of the candidate is a value of the pattern. */
  ghost predicate Contains(pattern: string, candidate: string) {
    forall value :: Matches(candidate, value) ==> Matches(pattern, value)
  }

  predicate OnlyStars(pattern: string) {
    forall i :: 0 <= i < |pattern| ==> pattern[i] == '*'
  }

  lemma {:induction false} OnlyStarsMatch(pattern: string, value: string)
    requires pattern != "" && OnlyStars(pattern)
    ensures Matches(pattern, value)
    decreases |pattern| + |value|
  {
    if |pattern| > 1 {
      OnlyStarsMatch(pattern[1..], value);
    } else {
      assert pattern == "*";
      StarMatches(value);
    }
  }

  /** A pattern that matches the empty value is all stars. */
  lemma {:induction false} MatchesEmptyMeans(pattern: string)
    requires Matches(pattern, "")
    ensures OnlyStars(pattern)
  {
    if pattern != "" {
      MatchesEmptyMeans(pattern[1..]);
      assert pattern == [pattern[0]] + pattern[1..];
    }
  }

  // ---- what a candidate can match ----

  /** Some class in it accepts no character, so it matches nothing. */
  ghost predicate Barren(candidate: string) {
    candidate != "" &&
    if candidate[0] == '[' && ClassEnd(candidate[1..]).Some? then
      var end := ClassEnd(candidate[1..]).value;
      (forall x :: !InClass(candidate[1..][..end], x)) || Barren(candidate[1..][end + 1..])
    else Barren(candidate[1..])
  }

  /** Character by character it can only be `text`: no wildcards, and classes that accept nothing else. */
  ghost predicate SpellsOnly(candidate: string, text: string) {
    if candidate == "" then text == ""
    else if candidate[0] == '*' || candidate[0] == '?' || text == "" then false
    else if candidate[0] == '[' && ClassEnd(candidate[1..]).Some? then
      var end := ClassEnd(candidate[1..]).value;
      (forall x :: InClass(candidate[1..][..end], x) ==> x == text[0]) && SpellsOnly(candidate[1..][end + 1..], text[1..])
    else candidate[0] == text[0] && SpellsOnly(candidate[1..], text[1..])
  }

  lemma {:induction false} BarrenMatchesNothing(candidate: string, value: string)
    requires Barren(candidate)
    ensures !Matches(candidate, value)
    decreases |candidate| + |value|
  {
    if candidate[0] == '[' && ClassEnd(candidate[1..]).Some? {
      var end := ClassEnd(candidate[1..]).value;
      if value != "" && Barren(candidate[1..][end + 1..]) { BarrenMatchesNothing(candidate[1..][end + 1..], value[1..]); }
    } else {
      BarrenMatchesNothing(candidate[1..], value);
      if value != "" {
        BarrenMatchesNothing(candidate, value[1..]);
        BarrenMatchesNothing(candidate[1..], value[1..]);
      }
    }
  }

  lemma {:induction false} SpellsIt(candidate: string, text: string, value: string)
    requires SpellsOnly(candidate, text) && Matches(candidate, value)
    ensures value == text
  {
    if candidate != "" {
      assert value == [value[0]] + value[1..] && text == [text[0]] + text[1..];
      if candidate[0] == '[' && ClassEnd(candidate[1..]).Some? {
        SpellsIt(candidate[1..][ClassEnd(candidate[1..]).value + 1..], text[1..], value[1..]);
      } else {
        SpellsIt(candidate[1..], text[1..], value[1..]);
      }
    }
  }

  /** One more character, where the front of the candidate takes it and the rest takes the value. */
  lemma Extended(candidate: string, x: char, value: string)
    requires candidate != "" && candidate[0] != '*'
    requires var t := candidate[1..];
      if candidate[0] == '?' then Matches(t, value)
      else if candidate[0] == '[' && ClassEnd(t).Some? then
        InClass(t[..ClassEnd(t).value], x) && Matches(t[ClassEnd(t).value + 1..], value)
      else x == candidate[0] && Matches(t, value)
    ensures Matches(candidate, [x] + value)
  {
    assert ([x] + value)[1..] == value;
  }

  lemma ExtendedByStar(candidate: string, x: char, value: string)
    requires candidate != "" && candidate[0] == '*' && Matches(candidate[1..], value)
    ensures Matches(candidate, value) && Matches(candidate, [x] + value)
  {
    assert ([x] + value)[1..] == value;
    StarStep(candidate, value);
    StarStep(candidate, [x] + value);
  }

  /** What the front of a candidate takes, and the candidate behind it. */
  lemma {:induction false} Sample(candidate: string) returns (value: string)
    requires !Barren(candidate)
    ensures Matches(candidate, value)
  {
    value := "";
    if candidate != "" {
      var t := candidate[1..];
      if candidate[0] == '[' && ClassEnd(t).Some? {
        var x :| InClass(t[..ClassEnd(t).value], x);
        value := Sample(t[ClassEnd(t).value + 1..]);
        Extended(candidate, x, value);
        value := [x] + value;
      } else {
        value := Sample(t);
        if candidate[0] == '*' { ExtendedByStar(candidate, 'a', value); }
        else {
          Extended(candidate, candidate[0], value);
          value := [candidate[0]] + value;
        }
      }
    }
  }

  lemma HeadsDiffer(x: char, y: char, value: string)
    ensures x != y ==> [x] + value != [y] + value
    ensures value != [x] + value
  {
    assert ([x] + value)[0] == x && ([y] + value)[0] == y;
    assert |[x] + value| == |value| + 1;
  }

  lemma TailsDiffer(x: char, value: string, text: string)
    requires text == "" || x != text[0] || value != text[1..]
    ensures [x] + value != text
  {
    assert ([x] + value)[0] == x && ([x] + value)[1..] == value;
  }

  /** A candidate that matches something and does not spell the text matches something else. */
  lemma {:induction false} SampleOther(candidate: string, text: string) returns (value: string)
    requires !Barren(candidate) && !SpellsOnly(candidate, text)
    ensures Matches(candidate, value) && value != text
  {
    if candidate == "" { return ""; }
    var t := candidate[1..];
    if candidate[0] == '*' || candidate[0] == '?' {
      var rest := Sample(t);
      HeadsDiffer('a', 'b', rest);
      if candidate[0] == '*' {
        ExtendedByStar(candidate, 'a', rest);
        value := if rest != text then rest else ['a'] + rest;
      } else {
        Extended(candidate, 'a', rest);
        Extended(candidate, 'b', rest);
        value := if ['a'] + rest != text then ['a'] + rest else ['b'] + rest;
      }
    } else {
      var isClass := candidate[0] == '[' && ClassEnd(t).Some?;
      var behind := if isClass then t[ClassEnd(t).value + 1..] else t;
      var x := SampleFront(candidate, text);
      var rest;
      if text != "" && x == text[0] { rest := SampleOther(behind, text[1..]); }
      else { rest := Sample(behind); }
      Extended(candidate, x, rest);
      TailsDiffer(x, rest, text);
      value := [x] + rest;
    }
  }

  /** A character the front takes; not the text's, unless the front takes no other. */
  lemma SampleFront(candidate: string, text: string) returns (x: char)
    requires candidate != "" && candidate[0] != '*' && candidate[0] != '?' && !Barren(candidate)
    ensures var t := candidate[1..];
      if candidate[0] == '[' && ClassEnd(t).Some? then
        && InClass(t[..ClassEnd(t).value], x)
        && (text != "" && x == text[0] ==> forall y :: InClass(t[..ClassEnd(t).value], y) ==> y == text[0])
      else x == candidate[0]
  {
    var t := candidate[1..];
    if candidate[0] == '[' && ClassEnd(t).Some? {
      x :| InClass(t[..ClassEnd(t).value], x);
      if text != "" && exists y :: InClass(t[..ClassEnd(t).value], y) && y != text[0] {
        x :| InClass(t[..ClassEnd(t).value], x) && x != text[0];
      }
    } else {
      x := candidate[0];
    }
  }

  lemma ContainsEverything(pattern: string)
    ensures Contains(pattern, "*") <==> pattern != "" && OnlyStars(pattern)
  {
    StarMatches("");
    StarMatches("a");
    if Contains(pattern, "*") {
      MatchesEmptyMeans(pattern);
      assert Matches(pattern, "a");
    }
    if pattern != "" && OnlyStars(pattern) {
      forall value ensures Matches(pattern, value) { OnlyStarsMatch(pattern, value); }
    }
  }

  /** A literal pattern contains exactly the candidates that match nothing or nothing but it. */
  lemma LiteralContains(pattern: string, candidate: string)
    requires Literal(pattern)
    ensures Contains(pattern, candidate) <==> Barren(candidate) || SpellsOnly(candidate, pattern)
  {
    if Barren(candidate) {
      forall value ensures !Matches(candidate, value) { BarrenMatchesNothing(candidate, value); }
    } else if SpellsOnly(candidate, pattern) {
      forall value | Matches(candidate, value) ensures Matches(pattern, value) {
        SpellsIt(candidate, pattern, value);
        LiteralMatches(pattern, value);
      }
    } else {
      var other := SampleOther(candidate, pattern);
      LiteralMatches(pattern, other);
    }
  }

  lemma StarSpellsNothing(pattern: string)
    ensures !Barren("*") && !SpellsOnly("*", pattern)
  {
    assert "*"[1..] == "";
  }

  /**
   A negative verdict is wrong in two cases and no others: the candidate is `*` and the
   pattern several stars, or the pattern is literal and the candidate, by its classes,
   matches nothing or nothing but the pattern.
   */
  lemma NegativeCoverWrongWhen(pattern: string, candidate: string)
    requires Covers(pattern, candidate) == No
    ensures Contains(pattern, candidate) <==>
      || (candidate == "*" && pattern != "" && OnlyStars(pattern))
      || (Literal(pattern) && (Barren(candidate) || SpellsOnly(candidate, pattern)))
  {
    if candidate == "*" {
      ContainsEverything(pattern);
      StarSpellsNothing(pattern);
    } else if Literal(pattern) {
      LiteralContains(pattern, candidate);
    } else {
      LiteralMatches(candidate, candidate);
    }
  }

  lemma {:induction false} PlainSpells(candidate: string, text: string)
    requires '[' !in candidate
    ensures !Barren(candidate) && (SpellsOnly(candidate, text) ==> candidate == text)
  {
    if candidate != "" {
      assert candidate[0] in candidate && candidate == [candidate[0]] + candidate[1..];
      PlainSpells(candidate[1..], if text == "" then "" else text[1..]);
      if text != "" { assert text == [text[0]] + text[1..]; }
    }
  }

  /** Against candidates without classes only the first case is left. */
  lemma NegativeCoverOfPlainCandidate(pattern: string, candidate: string)
    requires '[' !in candidate && Covers(pattern, candidate) == No
    ensures Contains(pattern, candidate) <==> candidate == "*" && pattern != "" && OnlyStars(pattern)
  {
    NegativeCoverWrongWhen(pattern, candidate);
    PlainSpells(candidate, pattern);
  }

  /** The second case occurs: `a` contains `[a]`. */
  lemma NegativeCoverOfClass()
    ensures Covers("a", "[a]") == No && Contains("a", "[a]")
  {
    forall value | Matches("[a]", value) ensures Matches("a", value) {
      FindFirst("a]", ']', 0, 1);
      assert "[a]"[1..] == "a]" && "a]"[..1] == "a" && "a]"[2..] == "" && "a"[1..] == "";
      assert ClassEnd("a]") == Some(1);
      assert InClass("a", value[0]) && Matches("", value[1..]);
      assert !InRanges("", value[0]);
      assert value[0] == 'a';
    }
  }

  predicate Covered(patterns: seq<string>, candidate: string) {
    exists p :: p in patterns && Covers(p, candidate) == Yes
  }

  /** Some pattern may cover the candidate, as far as the heuristic can tell. */
  predicate Undecided(patterns: seq<string>, candidate: string) {
    exists p :: p in patterns && Covers(p, candidate) == Unknown
  }

  predicate FirstUncovered(patterns: seq<string>, candidates: seq<string>, i: int) {
    0 <= i < |candidates| && !Covered(patterns, candidates[i]) && forall c :: c in candidates[..i] ==> Covered(patterns, c)
  }

  /** `_set_covers`: the first candidate not covered decides between no and unknown. */
  method SetCovers(patterns: seq<string>, candidates: seq<string>) returns (result: Cover)
    ensures result == Yes <==> "*" in patterns || forall c :: c in candidates ==> Covered(patterns, c)
    ensures result != Yes ==> exists i :: FirstUncovered(patterns, candidates, i)
                                          && (result == Unknown <==> Undecided(patterns, candidates[i]))
  {
    if "*" in patterns { return Yes; }
    for i := 0 to |candidates|
      invariant forall c :: c in candidates[..i] ==> Covered(patterns, c)
    {
      var candidate := candidates[i];
      var found, unknown := false, false;
      for j := 0 to |patterns|
        invariant !found ==> forall p :: p in patterns[..j] ==> Covers(p, candidate) != Yes
        invariant found ==> Covered(patterns, candidate)
        invariant unknown <==> Undecided(patterns[..j], candidate)
      {
        var verdict := Covers(patterns[j], candidate);
        if verdict == Yes {
          found := true;
          break;
        }
        if verdict == Unknown { unknown := true; }
      }
      assert patterns[..|patterns|] == patterns;
      assert found <==> Covered(patterns, candidate);
      if !found {
        assert candidate in candidates && FirstUncovered(patterns, candidates, i);
        return if unknown then Unknown else No;
      }
    }
    assert candidates[..|candidates|] == candidates;
    result := Yes;
  }

  /** `_set_covers(...) is True` */
  predicate SetCovered(patterns: seq<string>, candidates: seq<string>) {
    "*" in patterns || forall c :: c in candidates ==> Covered(patterns, c)
  }

  lemma SetCoversIsSound(patterns: seq<string>, candidates: seq<string>, value: string)
    requires SetCovered(patterns, candidates) && MatchesAny(candidates, value)
    ensures MatchesAny(patterns, value)
  {
    if "*" in patterns { StarMatches(value); }
    else {
      var c :| c in candidates && Matches(c, value);
      var p :| p in patterns && Covers(p, c) == Yes;
      CoversIsSound(p, c, value);
    }
  }

  // ---- the analyzer ----

  datatype Finding =
    | EmptyPolicy
    | UntrustedAllow(ruleId: string)
    | AllowAll(ruleId: string)
    | DenyShadowsAllow(ruleId: string, denyId: string)

  predicate EveryScope(rule: PolicyRule) {
    rule.actions == ["*"] && rule.subjects == ["*"] && rule.purposes == ["*"] && rule.target == "*"
  }

  predicate Shadows(deny: PolicyRule, allow: PolicyRule) {
    && deny.effect.Deny? && allow.effect.Allow? && deny.policyId != allow.policyId
    && Covers(deny.target, allow.target) == Yes
    && SetCovered(deny.actions, allow.actions)
    && SetCovered(deny.subjects, allow.subjects)
    && SetCovered(deny.purposes, allow.purposes)
  }

  ghost predicate Reported(rules: seq<PolicyRule>, trusted: set<string>, f: Finding) {
    match f
    case EmptyPolicy => rules == []
    case UntrustedAllow(id) => exists rule :: rule in rules && rule.policyId == id && rule.effect.Allow? && rule.issuer !in trusted
    case AllowAll(id) => exists rule :: rule in rules && rule.policyId == id && rule.effect.Allow? && EveryScope(rule)
    case DenyShadowsAllow(id, denyId) =>
      exists allow, deny ::
        allow in rules && deny in rules && allow.policyId == id && deny.policyId == denyId && Shadows(deny, allow)
  }

  method Analyze(rules: seq<PolicyRule>, trusted: set<string>) returns (findings: seq<Finding>)
    ensures forall f :: f in findings <==> Reported(rules, trusted, f)
  {
    if rules == [] { return [EmptyPolicy]; }
    var single := AnalyzeRules(rules, trusted);
    var pairs := AnalyzePairs(rules);
    findings := single + pairs;
    forall f ensures f in findings <==> Reported(rules, trusted, f) {
      assert f in findings <==> f in single || f in pairs;
    }
  }

  method AnalyzeRules(rules: seq<PolicyRule>, trusted: set<string>) returns (findings: seq<Finding>)
    requires rules != []
    ensures forall f :: f in findings <==> !f.DenyShadowsAllow? && Reported(rules, trusted, f)
  {
    findings := [];
    for i := 0 to |rules|
      invariant forall f :: f in findings <==> !f.DenyShadowsAllow? && !f.EmptyPolicy? && Reported(rules[..i], trusted, f)
    {
      var rule := rules[i];
      ghost var before := findings;
      if rule.effect.Allow? {
        if rule.issuer !in trusted {
          findings := findings + [UntrustedAllow(rule.policyId)];
        }
        if EveryScope(rule) {
          findings := findings + [AllowAll(rule.policyId)];
        }
      }
      forall f ensures f in findings <==> !f.DenyShadowsAllow? && !f.EmptyPolicy? && Reported(rules[..i + 1], trusted, f) {
        if !f.DenyShadowsAllow? && !f.EmptyPolicy? { RuleReported(rules, trusted, i, f); }
      }
    }
    assert rules[..|rules|] == rules;
  }

  lemma RuleReported(rules: seq<PolicyRule>, trusted: set<string>, i: nat, f: Finding)
    requires i < |rules| && !f.DenyShadowsAllow? && !f.EmptyPolicy?
    ensures Reported(rules[..i + 1], trusted, f) <==>
      || Reported(rules[..i], trusted, f)
      || (&& rules[i].effect.Allow? && f.ruleId == rules[i].policyId
          && (if f.UntrustedAllow? then rules[i].issuer !in trusted else EveryScope(rules[i])))
  {
    assert rules[..i + 1] == rules[..i] + [rules[i]];
  }

  method ShadowsPair(deny: PolicyRule, allow: PolicyRule) returns (shadows: bool)
    requires deny.effect.Deny? && allow.effect.Allow?
    ensures shadows == Shadows(deny, allow)
  {
    if allow.policyId == deny.policyId { return false; }
    var target := Covers(deny.target, allow.target);
    var actions := SetCovers(deny.actions, allow.actions);
    var subjects := SetCovers(deny.subjects, allow.subjects);
    var purposes := SetCovers(deny.purposes, allow.purposes);
    shadows := target == Yes && actions == Yes && subjects == Yes && purposes == Yes;
  }

  ghost predicate PairReported(allows: seq<PolicyRule>, denies: seq<PolicyRule>, f: Finding) {
    f.DenyShadowsAllow? &&
    exists allow, deny ::
      allow in allows && deny in denies && allow.policyId == f.ruleId && deny.policyId == f.denyId && Shadows(deny, allow)
  }

  method AnalyzePairs(rules: seq<PolicyRule>) returns (findings: seq<Finding>)
    ensures forall f :: f in findings <==> f.DenyShadowsAllow? && Reported(rules, {}, f)
  {
    var isAllow, isDeny := (rule: PolicyRule) => rule.effect.Allow?, (rule: PolicyRule) => rule.effect.Deny?;
    var allows := Collect(isAllow, rules);
    var denies := Collect(isDeny, rules);
    FilterMembers(isAllow, rules);
    FilterMembers(isDeny, rules);
    findings := [];
    for i := 0 to |allows|
      invariant forall f :: f in findings <==> PairReported(allows[..i], denies, f)
    {
      assert allows[i] in allows;
      var more := AnalyzeAllow(allows[i], denies);
      forall f ensures f in findings + more <==> PairReported(allows[..i + 1], denies, f) {
        assert f in findings + more <==> f in findings || f in more;
        AllowReported(allows, denies, i, f);
      }
      findings := findings + more;
    }
    assert allows[..|allows|] == allows;
    forall f ensures f in findings <==> f.DenyShadowsAllow? && Reported(rules, {}, f) {
      if PairReported(allows, denies, f) {
        var allow, deny :| allow in allows && deny in denies && allow.policyId == f.ruleId && deny.policyId == f.denyId
                           && Shadows(deny, allow);
        assert allow in rules && deny in rules;
      }
    }
  }

  lemma AllowReported(allows: seq<PolicyRule>, denies: seq<PolicyRule>, i: nat, f: Finding)
    requires i < |allows|
    ensures PairReported(allows[..i + 1], denies, f) <==>
      PairReported(allows[..i], denies, f) || PairReported([allows[i]], denies, f)
  {
    assert allows[..i + 1] == allows[..i] + [allows[i]];
  }

  /** The inner loop: every deny rule against one allow rule. */
  method AnalyzeAllow(allow: PolicyRule, denies: seq<PolicyRule>) returns (findings: seq<Finding>)
    requires allow.effect.Allow? && forall deny :: deny in denies ==> deny.effect.Deny?
    ensures forall f :: f in findings <==> PairReported([allow], denies, f)
  {
    findings := [];
    for j := 0 to |denies|
      invariant forall f :: f in findings <==> PairReported([allow], denies[..j], f)
    {
      assert denies[..j + 1] == denies[..j] + [denies[j]];
      assert denies[j] in denies;
      var shadows := ShadowsPair(denies[j], allow);
      if shadows {
        findings := findings + [DenyShadowsAllow(allow.policyId, denies[j].policyId)];
      }
      assert allow in [allow];
    }
    assert denies[..|denies|] == denies;
  }

  // ---- the verdicts are true of the evaluator ----

  /** Constraints that hold of every request at every instant. */
  predicate Vacuous(c: Constraints) {
    && c.notBefore.None? && c.notAfter.None? && (c.requiredContext.Some? ==> c.requiredContext.value == map[])
    && c.requiresHumanPresent != Some(true) && c.maxRiskTier.None? && !Physical(c)
  }

  lemma VacuousHolds(rule: PolicyRule, r: Request, now: int)
    requires rule.effect.Deny? && Vacuous(rule.constraints)
    ensures ConstraintsHold(rule, r, now)
  {
  }

  /** A number above every number among the values. */
  function Above(values: seq<Json>): int {
    if values == [] then 0
    else
      var rest := Above(values[1..]);
      match Normal(values[0])
      case Num(n) => if n >= rest then n + 1 else rest
      case _ => rest
  }

  lemma {:induction false} NotAmong(values: seq<Json>, v: Json)
    requires v in values
    ensures Normal(v).Num? ==> Normal(v).n < Above(values)
  {
    if v != values[0] { NotAmong(values[1..], v); }
    else if |values| > 1 && v in values[1..] { NotAmong(values[1..], v); }
  }

  /** A value that does not agree with what is expected. */
  function Unexpected(expected: Json): Json {
    Num(Above(if expected.Arr? then expected.items else [expected]))
  }

  lemma UnexpectedDisagrees(expected: Json)
    ensures !ContextAgrees(expected, Unexpected(expected))
  {
    var values := if expected.Arr? then expected.items else [expected];
    forall v | v in values ensures !PyEqual(Unexpected(expected), v) { NotAmong(values, v); }
  }

  /** The request of the same scope and the instant at which a deny rule that is not vacuous does not apply. */
  lemma Sidestep(deny: PolicyRule, r: Request) returns (aside: Request, now: int)
    requires deny.effect.Deny? && !Vacuous(deny.constraints)
    ensures aside == r.(context := aside.context) && !ConstraintsHold(deny, aside, now)
  {
    var c := deny.constraints;
    aside, now := r.(context := map[]), 0;
    if c.notBefore.Some? {
      now := c.notBefore.value - 1;
    } else if c.notAfter.Some? {
      now := c.notAfter.value;
    } else if c.requiredContext.Some? && c.requiredContext.value != map[] {
      var key :| key in c.requiredContext.value;
      aside := r.(context := map[key := Unexpected(c.requiredContext.value[key])]);
      UnexpectedDisagrees(c.requiredContext.value[key]);
      assert !RequiredContextHolds(c, aside.context);
    } else if c.requiresHumanPresent != Some(true) && c.maxRiskTier.None? {
      aside := r.(context := map["force_newtons" := Num(c.maxForce.GetOr(0)), "velocity_mps" := Num(c.maxVelocity.GetOr(0))]);
      WithinBothLimits(c, aside.context);
    }
    ConstraintsMean(deny, aside, now);
  }

  lemma WithinBothLimits(c: Constraints, context: map<string, Json>)
    requires context == map["force_newtons" := Num(c.maxForce.GetOr(0)), "velocity_mps" := Num(c.maxVelocity.GetOr(0))]
    ensures !BreaksLimit(c, context)
  {
    var f, v, z := "force_newtons", "velocity_mps", "zone";
    assert |f| == 13 && |v| == 12 && |z| == 4;
    assert Get(context, f) == Num(c.maxForce.GetOr(0)) && Get(context, v) == Num(c.maxVelocity.GetOr(0));
    assert Get(context, z) == Null;
  }

  /** A deny rule applies to everything in its scope, at every instant, exactly when its constraints are vacuous. */
  lemma DenyAppliesThroughoutScope(trusted: set<string>, deny: PolicyRule, some: Request)
    requires deny.effect.Deny? && InScope(deny, some)
    ensures (forall r, now :: InScope(deny, r) ==> Applies(trusted, deny, r, now)) <==> Vacuous(deny.constraints)
  {
    if Vacuous(deny.constraints) {
      forall r, now | InScope(deny, r) ensures Applies(trusted, deny, r, now) { VacuousHolds(deny, r, now); }
    } else {
      var aside, now := Sidestep(deny, some);
      assert InScope(deny, aside) && !Applies(trusted, deny, aside, now);
    }
  }

  lemma ShadowScope(deny: PolicyRule, allow: PolicyRule, r: Request)
    requires Shadows(deny, allow) && InScope(allow, r)
    ensures InScope(deny, r)
  {
    CoversIsSound(deny.target, allow.target, r.target);
    SetCoversIsSound(deny.actions, allow.actions, r.action);
    SetCoversIsSound(deny.subjects, allow.subjects, r.agent);
    SetCoversIsSound(deny.purposes, allow.purposes, r.purpose);
  }

  /** An allow rule shadowed by a deny rule with vacuous constraints is never matched by an allowed decision. */
  lemma {:induction false} ShadowedNeverWins(names: PolicyNaming, e: Engine, r: Request, now: int, allow: PolicyRule, deny: PolicyRule)
    requires allow in e.rules && deny in e.rules && Shadows(deny, allow) && Vacuous(deny.constraints)
    requires AppliesIn(e, r, now, allow)
    ensures AppliesIn(e, r, now, deny) && !Decide(names, e, r, now).allowed
  {
    ShadowScope(deny, allow, r);
    VacuousHolds(deny, r, now);
    assert AppliesIn(e, r, now, deny);
    AllowedMeans(names, e, r, now);
  }

  lemma AllowedMatches(names: PolicyNaming, e: Engine, r: Request, now: int)
    ensures Decide(names, e, r, now).allowed ==> Decide(names, e, r, now).matchedPolicyIds == PolicyIds(Ranked(e, r, now))
  {
    DecideResolves(names, e, r, now, Ranked(e, r, now));
    ResolveMatches(Ranked(e, r, now), names.request(r), SnapshotDigest(names, e.rules, e.trustedIssuers));
  }

  /** A rule with the id, among those that apply, is the shadowed one. */
  lemma ShadowedUnmatched(names: PolicyNaming, e: Engine, r: Request, now: int, sorted: seq<PolicyRule>, allow: PolicyRule, deny: PolicyRule)
    requires UniqueIds(e.rules) && allow in e.rules && deny in e.rules
    requires Shadows(deny, allow) && Vacuous(deny.constraints)
    requires forall rule :: rule in sorted <==> AppliesIn(e, r, now, rule)
    ensures Decide(names, e, r, now).allowed ==> allow.policyId !in PolicyIds(sorted)
  {
    if allow.policyId in PolicyIds(sorted) {
      var i :| 0 <= i < |sorted| && PolicyIds(sorted)[i] == allow.policyId;
      assert sorted[i] in sorted;
      SameIdSameRule(e.rules, sorted[i], allow);
      ShadowedNeverWins(names, e, r, now, allow, deny);
    }
  }

  /** So no request at any time is allowed with the reported rule among the matched ids. */
  lemma {:induction false} ReportedShadowHolds(names: PolicyNaming, e: Engine, r: Request, now: int, id: string, denyId: string)
    requires UniqueIds(e.rules) && Reported(e.rules, e.trustedIssuers, DenyShadowsAllow(id, denyId))
    requires forall rule :: rule in e.rules && rule.policyId == denyId ==> Vacuous(rule.constraints)
    ensures Decide(names, e, r, now).allowed ==> id !in Decide(names, e, r, now).matchedPolicyIds
  {
    var allow, deny :|
      allow in e.rules && deny in e.rules && allow.policyId == id && deny.policyId == denyId && Shadows(deny, allow);
    AllowedMatches(names, e, r, now);
    SortedMembers(e, r, now);
    ShadowedUnmatched(names, e, r, now, Ranked(e, r, now), allow, deny);
  }

  lemma SameIdSameRule(rules: seq<PolicyRule>, a: PolicyRule, b: PolicyRule)
    requires UniqueIds(rules) && a in rules && b in rules && a.policyId == b.policyId
    ensures a == b
  {
    var i :| 0 <= i < |rules| && rules[i] == a;
    var j :| 0 <= j < |rules| && rules[j] == b;
  }

  /** The unconditional allow rule of a deny rule's scope. */
  function AllowOf(deny: PolicyRule, id: string, issuer: string): PolicyRule {
    PolicyRule(id, issuer, deny.target, Allow, deny.actions, deny.subjects, deny.purposes, UNCONSTRAINED, [], 0, map[])
  }

  function JustThese(allow: PolicyRule, deny: PolicyRule): Engine {
    Engine([allow, deny], {allow.issuer}, 300 * MICROS, 0, false, {})
  }

  lemma SelfCovered(patterns: seq<string>)
    ensures SetCovered(patterns, patterns)
  {
    forall p | p in patterns ensures Covered(patterns, p) { assert Covers(p, p) == Yes; }
  }

  /**
   The analyzer reports every deny rule against the allow rule of the same scope. What it
   says, that the allow can never win, is true exactly when the deny's constraints are vacuous.
   */
  lemma ReportTrueWhenVacuous(names: PolicyNaming, deny: PolicyRule, id: string, issuer: string, some: Request)
    requires deny.effect.Deny? && InScope(deny, some) && id != deny.policyId
    ensures Shadows(deny, AllowOf(deny, id, issuer))
    ensures (forall r, now :: !Decide(names, JustThese(AllowOf(deny, id, issuer), deny), r, now).allowed)
        <==> Vacuous(deny.constraints)
  {
    var allow := AllowOf(deny, id, issuer);
    SelfCovered(deny.actions);
    SelfCovered(deny.subjects);
    SelfCovered(deny.purposes);
    var e := JustThese(allow, deny);
    if Vacuous(deny.constraints) {
      forall r, now ensures !Decide(names, e, r, now).allowed { NeverBoth(names, allow, deny, r, now); }
    } else {
      var aside, now := Sidestep(deny, some);
      var timely := aside.(issuedAt := now);
      SidestepWins(names, allow, deny, timely, now);
    }
  }

  lemma NeverBoth(names: PolicyNaming, allow: PolicyRule, deny: PolicyRule, r: Request, now: int)
    requires Shadows(deny, allow) && Vacuous(deny.constraints)
    ensures !Decide(names, JustThese(allow, deny), r, now).allowed
  {
    var e := JustThese(allow, deny);
    AllowedMeans(names, e, r, now);
    if rule :| AppliesIn(e, r, now, rule) && rule.effect.Allow? {
      assert rule == allow;
      ShadowedNeverWins(names, e, r, now, allow, deny);
    }
  }

  lemma SidestepWins(names: PolicyNaming, allow: PolicyRule, deny: PolicyRule, r: Request, now: int)
    requires allow.effect.Allow? && allow.constraints == UNCONSTRAINED && InScope(allow, r)
    requires deny.effect.Deny? && !ConstraintsHold(deny, r, now) && r.issuedAt == now
    ensures Decide(names, JustThese(allow, deny), r, now).allowed
  {
    var e := JustThese(allow, deny);
    assert AppliesIn(e, r, now, allow) && !AppliesIn(e, r, now, deny);
    LoneAllowWins(names, e, r, now, allow, deny);
  }

  lemma {:induction false} LoneAllowWins(names: PolicyNaming, e: Engine, r: Request, now: int, allow: PolicyRule, deny: PolicyRule)
    requires e.rules == [allow, deny] && allow.effect.Allow? && Fresh(e, r, now)
    requires AppliesIn(e, r, now, allow) && !AppliesIn(e, r, now, deny)
    ensures Decide(names, e, r, now).allowed
  {
    AllowedMeans(names, e, r, now);
  }

  // ---- explanation ----

  datatype Exclusion =
    | UntrustedIssuer | TargetMismatch | ActionMismatch | SubjectMismatch | PurposeMismatch | ConstraintsNotMet

  function WhyExcluded(e: Engine, r: Request, now: int, rule: PolicyRule): Option<Exclusion> {
    if rule.effect.Allow? && rule.issuer !in e.trustedIssuers then Some(UntrustedIssuer)
    else if !MatchesAny([rule.target], r.target) then Some(TargetMismatch)
    else if !MatchesAny(rule.actions, r.action) then Some(ActionMismatch)
    else if !MatchesAny(rule.subjects, r.agent) then Some(SubjectMismatch)
    else if !MatchesAny(rule.purposes, r.purpose) then Some(PurposeMismatch)
    else if !ConstraintsHold(rule, r, now) then Some(ConstraintsNotMet)
    else None
  }

  function Excluder(e: Engine, r: Request, now: int): PolicyRule -> Option<Exclusion> {
    rule => WhyExcluded(e, r, now, rule)
  }

  lemma ExcludedIffNotApplied(e: Engine, r: Request, now: int)
    ensures forall rule :: Excluder(e, r, now)(rule).None? <==> Applier(e, r, now)(rule)
  {
    forall rule ensures Excluder(e, r, now)(rule).None? <==> Applier(e, r, now)(rule) {
      assert rule.target in [rule.target];
    }
  }

  /** `explain_decision`: every rule, either as applicable or with the first check it fails. */
  method Explain(e: Engine, r: Request, now: int)
    returns (applicable: seq<PolicyRule>, excluded: seq<(PolicyRule, Exclusion)>)
    ensures applicable == Applicable(e, r, now)
    ensures |applicable| + |excluded| == |e.rules|
    ensures forall x :: x in excluded ==> x.0 in e.rules && Excluder(e, r, now)(x.0) == Some(x.1)
  {
    applicable, excluded := Partition(Excluder(e, r, now), e.rules);
    ExcludedIffNotApplied(e, r, now);
    FilterAgrees(Unobjected(Excluder(e, r, now)), Applier(e, r, now), e.rules);
  }

  /** The rules an explanation lists as applicable are those of the decision, whenever it gets as far as the rules. */
  lemma {:induction false} ExplanationAgrees(names: PolicyNaming, e: Engine, r: Request, now: int)
    requires Fresh(e, r, now)
    ensures multiset(PolicyIds(Applicable(e, r, now))) == multiset(Decide(names, e, r, now).matchedPolicyIds)
  {
    MatchedMeans(names, e, r, now);
    IdsOfPermutation(Applicable(e, r, now), Ranked(e, r, now));
  }

  lemma WithoutAt(s: seq<PolicyRule>, i: nat)
    requires i < |s|
    ensures multiset(s) == multiset{s[i]} + multiset(s[..i] + s[i + 1..])
    ensures multiset(PolicyIds(s)) == multiset{s[i].policyId} + multiset(PolicyIds(s[..i] + s[i + 1..]))
  {
    assert s == s[..i] + [s[i]] + s[i + 1..];
    var ids := PolicyIds(s);
    assert ids == ids[..i] + [ids[i]] + ids[i + 1..];
    assert PolicyIds(s[..i] + s[i + 1..]) == ids[..i] + ids[i + 1..];
  }

  lemma {:induction false} IdsOfPermutation(a: seq<PolicyRule>, b: seq<PolicyRule>)
    requires multiset(a) == multiset(b)
    ensures multiset(PolicyIds(a)) == multiset(PolicyIds(b))
    decreases |a|, 1
  {
    assert |multiset(a)| == |a| && |multiset(b)| == |b|;
    if a == [] {
      assert PolicyIds(a) == PolicyIds(b);
    } else {
      assert a[0] in multiset(b);
      var i :| 0 <= i < |b| && b[i] == a[0];
      IdsWithoutOne(a, b, 0, i);
    }
  }

  lemma {:induction false} IdsWithoutOne(a: seq<PolicyRule>, b: seq<PolicyRule>, i: nat, j: nat)
    requires i < |a| && j < |b| && a[i] == b[j] && multiset(a) == multiset(b)
    ensures multiset(PolicyIds(a)) == multiset(PolicyIds(b))
    decreases |a|, 0
  {
    var a', b' := a[..i] + a[i + 1..], b[..j] + b[j + 1..];
    WithoutAt(a, i);
    WithoutAt(b, j);
    Cancel(a[i], multiset(a'), multiset(b'));
    IdsOfPermutation(a', b');
  }

  lemma Cancel(x: PolicyRule, m: multiset<PolicyRule>, n: multiset<PolicyRule>)
    requires multiset{x} + m == multiset{x} + n
    ensures m == n
  {
    assert m == multiset{x} + m - multiset{x};
    assert n == multiset{x} + n - multiset{x};
  }
}
