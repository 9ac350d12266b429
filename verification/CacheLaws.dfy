/** What the cache holds after any run of lookups and clears, and what a hit is worth. */
module CacheLaws {
  import opened Wrappers
  import opened Ordering
  import opened Text
  import opened Models
  import opened Policy
  import opened PolicyLaws
  import opened Caches
  import Lists

  /** One use of the cache, with the engine as it is at that moment. */
  datatype Event =
    | Lookup(engine: Engine, request: Request, now: Option<int>, clock: int)
    | Reset(engine: Engine)

  /** Fixed for the life of a cache. */
  datatype Setup = Setup(names: PolicyNaming, capacity: nat, initial: Engine)

  function StepState(u: Setup, s: CacheState, e: Event): CacheState {
    match e
    case Lookup(engine, r, now, clock) => Evaluation(u.names, u.capacity, engine, s, r, now, clock).0
    case Reset(engine) => CacheState([], EngineDigest(u.names, engine))
  }

  function StateAfter(u: Setup, events: seq<Event>): CacheState {
    if events == [] then CacheState([], EngineDigest(u.names, u.initial))
    else StepState(u, StateAfter(u, events[..|events| - 1]), events[|events| - 1])
  }

  // ---- contents: the most recently used keys ----

  function Keys(entries: seq<Cached>): seq<Key> {
    seq(|entries|, i requires 0 <= i < |entries| => entries[i].key)
  }

  function Without(keys: seq<Key>, k: Key): seq<Key> {
    if keys == [] then [] else (if keys[0] == k then [] else [keys[0]]) + Without(keys[1..], k)
  }

  /** All keys ever used, by last use: the least recently used first. */
  function ByRecency(uses: seq<Key>): seq<Key> {
    if uses == [] then []
    else Without(ByRecency(uses[..|uses| - 1]), uses[|uses| - 1]) + [uses[|uses| - 1]]
  }

  /** A use: a hit, or a decision that goes into the cache. */
  predicate IsUse(u: Setup, s: CacheState, e: Event) {
    e.Lookup? &&
    (IsHit(u.names, e.engine, s, e.request, e.now)
     || Cacheable(e.now, Decide(u.names, e.engine, e.request, e.now.GetOr(e.clock))))
  }

  predicate ClearsFirst(u: Setup, s: CacheState, e: Event) {
    e.Reset? || EngineDigest(u.names, e.engine) != s.digest
  }

  function NewUses(u: Setup, s: CacheState, e: Event): seq<Key> {
    if IsUse(u, s, e) then [KeyFor(u.names, e.engine, e.request)] else []
  }

  function KeptUses(u: Setup, s: CacheState, e: Event, uses: seq<Key>): seq<Key> {
    if ClearsFirst(u, s, e) then [] else uses
  }

  /** The keys used since the cache was last cleared, explicitly or by a changed policy digest. */
  function UsesSinceClear(u: Setup, events: seq<Event>): seq<Key> {
    if events == [] then []
    else
      var last := events[|events| - 1];
      var s := StateAfter(u, events[..|events| - 1]);
      KeptUses(u, s, last, UsesSinceClear(u, events[..|events| - 1])) + NewUses(u, s, last)
  }

  lemma {:induction false} WithoutSplit(a: seq<Key>, b: seq<Key>, k: Key)
    ensures Without(a + b, k) == Without(a, k) + Without(b, k)
  {
    if a == [] { assert a + b == b; }
    else {
      assert (a + b)[1..] == a[1..] + b;
      WithoutSplit(a[1..], b, k);
    }
  }

  lemma {:induction false} WithoutAbsent(a: seq<Key>, k: Key)
    requires k !in a
    ensures Without(a, k) == a
  {
    if a != [] { WithoutAbsent(a[1..], k); assert a == [a[0]] + a[1..]; }
  }

  lemma {:induction false} WithoutMembers(a: seq<Key>, k: Key)
    ensures forall x :: x in Without(a, k) <==> x in a && x != k
    ensures |Without(a, k)| <= |a|
  {
    if a != [] {
      WithoutMembers(a[1..], k);
      assert forall x :: x in a <==> x == a[0] || x in a[1..];
    }
  }

  ghost predicate NoDuplicates(a: seq<Key>) {
    forall i, j :: 0 <= i < j < |a| ==> a[i] != a[j]
  }

  lemma {:induction false} WithoutNoDuplicates(a: seq<Key>, k: Key)
    requires NoDuplicates(a)
    ensures NoDuplicates(Without(a, k))
  {
    if a != [] {
      WithoutNoDuplicates(a[1..], k);
      WithoutMembers(a[1..], k);
      var rest := Without(a[1..], k);
      forall j | 0 <= j < |rest| ensures rest[j] != a[0] { assert rest[j] in rest; }
    }
  }

  lemma {:induction false} RecencyNoDuplicates(uses: seq<Key>)
    ensures NoDuplicates(ByRecency(uses))
  {
    if uses != [] {
      var before, k := ByRecency(uses[..|uses| - 1]), uses[|uses| - 1];
      RecencyNoDuplicates(uses[..|uses| - 1]);
      WithoutNoDuplicates(before, k);
      WithoutMembers(before, k);
      forall j | 0 <= j < |Without(before, k)| ensures Without(before, k)[j] != k {
        assert Without(before, k)[j] in Without(before, k);
      }
    }
  }

  lemma {:induction false} WithoutAt(a: seq<Key>, i: nat)
    requires i < |a| && NoDuplicates(a)
    ensures Without(a, a[i]) == a[..i] + a[i + 1..]
  {
    if i == 0 {
      assert a[0] !in a[1..];
      WithoutAbsent(a[1..], a[0]);
    } else {
      WithoutAt(a[1..], i - 1);
      assert a[..i] + a[i + 1..] == [a[0]] + (a[1..][..i - 1] + a[1..][i..]);
    }
  }

  /** Touching the key at `i` of the tail from `d`: the new tail is the old one without it, and then it. */
  lemma TouchTail(a: seq<Key>, d: nat, i: nat)
    requires NoDuplicates(a) && d + i < |a|
    ensures |Without(a, a[d + i]) + [a[d + i]]| == |a|
    ensures (Without(a, a[d + i]) + [a[d + i]])[d..] == Without(a[d..], a[d + i]) + [a[d + i]]
  {
    var k, tail := a[d + i], a[d..];
    assert tail[i] == k;
    TailNoDuplicates(a, d);
    WithoutAt(a, d + i);
    WithoutAt(tail, i);
    ShiftedTail(a, d, i, k, Without(a, k), Without(tail, k));
  }

  /** Touching a key that is among the last `n`: the last `n` are those without it, and then it. */
  lemma {:induction false} TouchPresent(a: seq<Key>, k: Key, n: nat)
    requires NoDuplicates(a) && k in LastN(a, n)
    ensures LastN(Without(a, k) + [k], n) == Without(LastN(a, n), k) + [k]
  {
    var d := if |a| <= n then 0 else |a| - n;
    var b := LastN(a, n);
    var i :| 0 <= i < |b| && b[i] == k;
    assert a[d + i] == k;
    TouchTail(a, d, i);
    SameLengthTail(a, Without(a, k) + [k], d, n);
  }

  lemma SameLengthTail(a: seq<Key>, b: seq<Key>, d: nat, n: nat)
    requires |a| == |b| && d == if |a| <= n then 0 else |a| - n
    ensures LastN(a, n) == a[d..] && LastN(b, n) == b[d..]
  {
  }

  lemma TailNoDuplicates(a: seq<Key>, d: nat)
    requires NoDuplicates(a) && d <= |a|
    ensures NoDuplicates(a[d..])
  {
  }

  lemma ShiftedTail(a: seq<Key>, d: nat, i: nat, k: Key, rest: seq<Key>, tail: seq<Key>)
    requires d + i < |a|
    requires rest == a[..d + i] + a[d + i + 1..] && tail == a[d..][..i] + a[d..][i + 1..]
    ensures |rest + [k]| == |a| && (rest + [k])[d..] == tail + [k]
  {
  }

  /** Touching any other key appends it, and may push the oldest out. */
  lemma {:induction false} TouchAbsent(a: seq<Key>, k: Key, n: nat)
    requires NoDuplicates(a) && k !in LastN(a, n)
    ensures LastN(Without(a, k) + [k], n) == LastN(LastN(a, n) + [k], n)
  {
    var b := LastN(a, n);
    WithoutAbsent(b, k);
    if |a| > n {
      var p := a[..|a| - n];
      assert a == p + b;
      TouchBehind(p, b, k, n);
    }
  }

  /** What lies before the last `n` keys does not show among them. */
  lemma TouchBehind(p: seq<Key>, b: seq<Key>, k: Key, n: nat)
    requires |b| == n && Without(b, k) == b
    ensures LastN(Without(p + b, k) + [k], n) == LastN(b + [k], n)
  {
    WithoutSplit(p, b, k);
    KeysAssociate(Without(p, k), b, [k]);
    LastOfLonger(Without(p, k), b + [k], n);
  }

  lemma KeysAssociate(a: seq<Key>, b: seq<Key>, c: seq<Key>)
    ensures a + b + c == a + (b + c)
  {
  }

  lemma LastOfLonger(p: seq<Key>, s: seq<Key>, n: nat)
    requires n <= |s|
    ensures LastN(p + s, n) == LastN(s, n)
  {
    if p == [] { assert p + s == s; }
    DropPrefix(p, s, |s| - n);
  }

  lemma DropPrefix(p: seq<Key>, s: seq<Key>, j: nat)
    requires j <= |s|
    ensures (p + s)[|p| + j..] == s[j..]
  {
  }

  lemma KeysOf(entries: seq<Cached>, i: nat)
    requires i < |entries| && NoDuplicates(Keys(entries))
    ensures Keys(MoveToEnd(entries, i)) == Without(Keys(entries), entries[i].key) + [entries[i].key]
  {
    var ks := Keys(entries);
    assert ks[i] == entries[i].key;
    WithoutAt(ks, i);
    assert Keys(MoveToEnd(entries, i)) == ks[..i] + ks[i + 1..] + [ks[i]];
  }

  lemma LastNDistinct(a: seq<Key>, n: nat)
    requires NoDuplicates(a)
    ensures NoDuplicates(LastN(a, n))
  {
  }

  lemma KeysLastN(entries: seq<Cached>, n: nat)
    ensures Keys(LastN(entries, n)) == LastN(Keys(entries), n)
  {
  }

  lemma KeysAppended(entries: seq<Cached>, c: Cached, n: nat)
    ensures Keys(LastN(entries + [c], n)) == LastN(Keys(entries) + [c.key], n)
  {
    KeysLastN(entries + [c], n);
    assert Keys(entries + [c]) == Keys(entries) + [c.key];
  }

  lemma RecencyStep(uses: seq<Key>, k: Key)
    ensures ByRecency(uses + [k]) == Without(ByRecency(uses), k) + [k]
  {
    assert (uses + [k])[..|uses|] == uses;
  }

  lemma HitKeys(base: seq<Cached>, i: nat, uses: seq<Key>, n: nat)
    requires Keys(base) == LastN(ByRecency(uses), n) && i < |base|
    ensures Keys(MoveToEnd(base, i)) == LastN(ByRecency(uses + [base[i].key]), n)
  {
    var key := base[i].key;
    assert Keys(base)[i] == key;
    RecencyNoDuplicates(uses);
    LastNDistinct(ByRecency(uses), n);
    RecencyStep(uses, key);
    TouchPresent(ByRecency(uses), key, n);
    KeysOf(base, i);
  }

  lemma MissKeys(base: seq<Cached>, c: Cached, uses: seq<Key>, n: nat)
    requires Keys(base) == LastN(ByRecency(uses), n) && c.key !in Keys(base)
    ensures Keys(LastN(base + [c], n)) == LastN(ByRecency(uses + [c.key]), n)
  {
    RecencyNoDuplicates(uses);
    RecencyStep(uses, c.key);
    TouchAbsent(ByRecency(uses), c.key, n);
    KeysAppended(base, c, n);
  }

  lemma NotFound(base: seq<Cached>, key: Key)
    requires Find(base, key).None?
    ensures key !in Keys(base)
  {
  }

  /** One lookup, on the keys. */
  lemma {:induction false} LookupKeys(u: Setup, s: CacheState, e: Event, uses: seq<Key>)
    requires e.Lookup? && Keys(Refreshed(u.names, e.engine, s)) == LastN(ByRecency(uses), u.capacity)
    ensures Keys(StepState(u, s, e).entries)
         == LastN(ByRecency(uses + NewUses(u, s, e)), u.capacity)
  {
    var base, key := Refreshed(u.names, e.engine, s), KeyFor(u.names, e.engine, e.request);
    if !IsUse(u, s, e) {
      assert uses + [] == uses;
    } else if IsHit(u.names, e.engine, s, e.request, e.now) {
      HitKeys(base, Find(base, key).value, uses, u.capacity);
    } else {
      NotFound(base, key);
      MissKeys(base, Cached(key, Decide(u.names, e.engine, e.request, e.now.GetOr(e.clock))), uses, u.capacity);
    }
  }

  lemma {:induction false} StepKeys(u: Setup, s: CacheState, e: Event, uses: seq<Key>)
    requires Keys(s.entries) == LastN(ByRecency(uses), u.capacity)
    ensures Keys(StepState(u, s, e).entries) == LastN(ByRecency(KeptUses(u, s, e, uses) + NewUses(u, s, e)), u.capacity)
  {
    var kept := KeptUses(u, s, e, uses);
    if e.Lookup? {
      if ClearsFirst(u, s, e) {
        assert Keys(Refreshed(u.names, e.engine, s)) == LastN(ByRecency(kept), u.capacity);
      }
      LookupKeys(u, s, e, kept);
    } else {
      assert kept + NewUses(u, s, e) == [];
    }
  }

  /** After any run, the keys in order are exactly the most recently used ones since the last clear. */
  lemma {:induction false} ContentsAreRecent(u: Setup, events: seq<Event>)
    ensures Keys(StateAfter(u, events).entries) == LastN(ByRecency(UsesSinceClear(u, events)), u.capacity)
    ensures |StateAfter(u, events).entries| <= u.capacity
    decreases |events|
  {
    if events != [] {
      var before := events[..|events| - 1];
      ContentsAreRecent(u, before);
      StepKeys(u, StateAfter(u, before), events[|events| - 1], UsesSinceClear(u, before));
    }
    assert |Keys(StateAfter(u, events).entries)| == |StateAfter(u, events).entries|;
  }

  /** Every key carries the digest the cache is filled under. */
  ghost predicate CarriesDigest(s: CacheState) {
    forall c :: c in s.entries ==> c.key.policy == s.digest
  }

  lemma {:induction false} StepCarriesDigest(u: Setup, s: CacheState, e: Event)
    requires CarriesDigest(s)
    ensures CarriesDigest(StepState(u, s, e)) && StepState(u, s, e).digest == EngineDigest(u.names, e.engine)
  {
    if e.Lookup? {
      var base, key := Refreshed(u.names, e.engine, s), KeyFor(u.names, e.engine, e.request);
      assert forall c :: c in base ==> c.key.policy == key.policy;
      if !IsHit(u.names, e.engine, s, e.request, e.now) {
        TrimmedMembers(base, Cached(key, Decide(u.names, e.engine, e.request, e.now.GetOr(e.clock))), u.capacity);
      }
    }
  }

  /** After any step that digest is the engine's current one. */
  lemma {:induction false} KeysCarryDigest(u: Setup, events: seq<Event>)
    ensures CarriesDigest(StateAfter(u, events))
    ensures events != [] ==> StateAfter(u, events).digest == EngineDigest(u.names, events[|events| - 1].engine)
    decreases |events|
  {
    if events != [] {
      KeysCarryDigest(u, events[..|events| - 1]);
      StepCarriesDigest(u, StateAfter(u, events[..|events| - 1]), events[|events| - 1]);
    }
  }

  // ---- what a hit is worth ----

  /** The engine gave this decision at that lookup. */
  ghost predicate Gave(u: Setup, e: Event, c: Cached) {
    && e.Lookup? && e.now.None?
    && c.key == KeyFor(u.names, e.engine, e.request)
    && c.decision == Decide(u.names, e.engine, e.request, e.clock)
    && c.decision.reason != "future_request"
  }

  ghost predicate GivenBefore(u: Setup, events: seq<Event>, c: Cached) {
    exists i :: 0 <= i < |events| && Gave(u, events[i], c)
  }

  lemma StepGiven(u: Setup, s: CacheState, e: Event, c: Cached)
    requires c in StepState(u, s, e).entries
    ensures c in s.entries || Gave(u, e, c)
  {
    if e.Lookup? {
      var base, key := Refreshed(u.names, e.engine, s), KeyFor(u.names, e.engine, e.request);
      if !IsHit(u.names, e.engine, s, e.request, e.now) {
        TrimmedMembers(base, Cached(key, Decide(u.names, e.engine, e.request, e.now.GetOr(e.clock))), u.capacity);
      }
    }
  }

  lemma TrimmedMembers(entries: seq<Cached>, c: Cached, n: nat)
    ensures forall x :: x in LastN(entries + [c], n) ==> x in entries || x == c
  {
  }

  /** Whatever the cache holds, the engine gave earlier, for the digests in the key. */
  lemma {:induction false} EntriesWereGiven(u: Setup, events: seq<Event>, c: Cached)
    ensures c in StateAfter(u, events).entries ==> GivenBefore(u, events, c)
    decreases |events|
  {
    if c in StateAfter(u, events).entries {
      var before, last := events[..|events| - 1], events[|events| - 1];
      StepGiven(u, StateAfter(u, before), last, c);
      if c in StateAfter(u, before).entries {
        EntriesWereGiven(u, before, c);
        var i :| 0 <= i < |before| && Gave(u, before[i], c);
        assert Gave(u, events[i], c);
      }
    }
  }

  /** Digests stand for the sorted rules, the trusted issuers and the request. */
  ghost predicate FaithfulPolicy(names: PolicyNaming) {
    && (forall a, b, c, d :: names.snapshot(a, b) == names.snapshot(c, d) ==> a == c && b == d)
    && (forall a, b :: names.request(a) == names.request(b) ==> a == b)
  }

  /** The settings a digest does not cover, which an engine keeps for life. */
  predicate SameSettings(e: Engine, f: Engine) {
    e == f.(rules := e.rules, trustedIssuers := e.trustedIssuers)
  }

  lemma EqualDigestsEqualPolicies(names: PolicyNaming, e: Engine, f: Engine)
    requires FaithfulPolicy(names) && EngineDigest(names, e) == EngineDigest(names, f)
    ensures multiset(e.rules) == multiset(f.rules) && e.trustedIssuers == f.trustedIssuers
  {
    CodePointsDistinct(e.trustedIssuers);
    CodePointsDistinct(f.trustedIssuers);
    var a, b := SortedSet(e.trustedIssuers, CodePoints), SortedSet(f.trustedIssuers, CodePoints);
    assert names.snapshot(SortBy(e.rules, IdKey), a) == names.snapshot(SortBy(f.rules, IdKey), b);
    assert SortBy(e.rules, IdKey) == SortBy(f.rules, IdKey) && a == b;
    assert multiset(e.rules) == multiset(SortBy(e.rules, IdKey)) == multiset(f.rules);
    forall x ensures x in e.trustedIssuers <==> x in f.trustedIssuers { assert x in a <==> x in b; }
  }

  /** Equal keys mean the engine would answer alike at every instant. */
  lemma {:induction false} EqualKeysEqualAnswers(names: PolicyNaming, e: Engine, f: Engine, r: Request, q: Request, now: int)
    requires FaithfulPolicy(names) && KeyFor(names, e, r) == KeyFor(names, f, q)
    requires SameSettings(e, f) && UniqueIds(f.rules)
    ensures r == q && Decide(names, e, r, now) == Decide(names, f, q, now)
  {
    EqualDigestsEqualPolicies(names, e, f);
    DecisionIgnoresOrder(names, f, e.rules, q, now);
    assert e == f.(rules := e.rules);
  }

  // ---- a hit against the engine's answer now ----

  ghost predicate NoTimeWindows(rules: seq<PolicyRule>) {
    forall rule :: rule in rules ==> rule.constraints.notBefore.None? && rule.constraints.notAfter.None?
  }

  /** Without time windows the rules that apply do not depend on the instant. */
  lemma ApplicableTimeless(e: Engine, r: Request, t: int, now: int)
    requires NoTimeWindows(e.rules)
    ensures Ranked(e, r, t) == Ranked(e, r, now)
  {
    forall rule | rule in e.rules ensures Applier(e, r, t)(rule) == Applier(e, r, now)(rule) {
      assert InTimeWindow(rule.constraints, t) && InTimeWindow(rule.constraints, now);
    }
    Lists.FilterAgrees(Applier(e, r, t), Applier(e, r, now), e.rules);
  }

  /**
   An earlier cacheable answer is the answer now exactly when the request has not
   gone stale in between.
   */
  lemma {:induction false} EarlierAnswerStillHolds(names: PolicyNaming, e: Engine, r: Request, t: int, now: int)
    requires NoTimeWindows(e.rules) && t <= now
    requires Decide(names, e, r, t).reason != "future_request"
    ensures Decide(names, e, r, t) == Decide(names, e, r, now)
        <==> (Known(e, r) && Stale(e, r, now) ==> Stale(e, r, t))
  {
    ApplicableTimeless(e, r, t, now);
    ReasonsTell(names, e, r, t);
    ReasonsTell(names, e, r, now);
  }

  lemma ReasonsTell(names: PolicyNaming, e: Engine, r: Request, now: int)
    ensures var d := Decide(names, e, r, now);
      && (d.reason == "future_request" <==> Known(e, r) && FromFuture(e, r, now))
      && (d.reason == "stale_request" <==> Known(e, r) && !FromFuture(e, r, now) && Stale(e, r, now))
  {
  }

  /** Clock readings of lookups without an explicit instant never go back. */
  ghost predicate NondecreasingReadings(events: seq<Event>, now: int) {
    forall i :: 0 <= i < |events| && events[i].Lookup? && events[i].now.None? ==> events[i].clock <= now
  }

  /** Every engine of the run has the settings of `e` and unique rule ids. */
  ghost predicate OneEngine(events: seq<Event>, e: Engine) {
    forall i :: 0 <= i < |events| && events[i].Lookup? ==> SameSettings(events[i].engine, e)
  }

  /**
   On a nondecreasing clock and without time-window rules, a hit is what the engine
   would answer now, unless it would now call the request stale. In every case it is
   an answer the engine gave earlier for the same request and the same rules.
   */
  lemma {:induction false} HitIsEngineAnswer(u: Setup, events: seq<Event>, e: Engine, r: Request, clock: int)
    requires FaithfulPolicy(u.names) && OneEngine(events, e) && UniqueIds(e.rules)
    requires IsHit(u.names, e, StateAfter(u, events), r, None)
    ensures var hit := Evaluation(u.names, u.capacity, e, StateAfter(u, events), r, None, clock).1;
      var answer := Decide(u.names, e, r, clock);
      && (exists i :: 0 <= i < |events| && events[i].Lookup? && events[i].request == r
                      && hit == Decide(u.names, e, r, events[i].clock))
      && (NondecreasingReadings(events, clock) && NoTimeWindows(e.rules) ==>
            hit == answer || answer.reason == "stale_request")
  {
    var s := StateAfter(u, events);
    var base, key := Refreshed(u.names, e, s), KeyFor(u.names, e, r);
    var c := base[Find(base, key).value];
    assert c in s.entries;
    EntriesWereGiven(u, events, c);
    var i :| 0 <= i < |events| && Gave(u, events[i], c);
    EqualKeysEqualAnswers(u.names, events[i].engine, e, events[i].request, r, events[i].clock);
    assert events[i].Lookup? && events[i].request == r && c.decision == Decide(u.names, e, r, events[i].clock);
    if NondecreasingReadings(events, clock) && NoTimeWindows(e.rules) {
      EarlierAnswerStillHolds(u.names, e, r, events[i].clock, clock);
      ReasonsTell(u.names, e, r, clock);
      ReasonsTell(u.names, e, r, events[i].clock);
    }
  }
}
