/**
 The bounded decision cache (cache.py): an ordered dictionary, oldest use first, in
 front of a policy engine whose rules and trusted issuers may change between calls.
 */
module Caches {
  import opened Wrappers
  import opened Models
  import opened Policy

  datatype Key = Key(policy: string, request: string)

  datatype Cached = Cached(key: Key, decision: Decision)

  /** The ordered dictionary and the digest it was filled under. */
  datatype CacheState = CacheState(entries: seq<Cached>, digest: string)

  function Find(entries: seq<Cached>, key: Key): (r: Option<nat>)
    ensures r.Some? ==> r.value < |entries| && entries[r.value].key == key
    ensures r.None? ==> forall i :: 0 <= i < |entries| ==> entries[i].key != key
  {
    if entries == [] then None
    else if entries[0].key == key then Some(0)
    else
      match Find(entries[1..], key)
      case Some(i) => Some(i + 1)
      case None => None
  }

  function MoveToEnd(entries: seq<Cached>, i: nat): seq<Cached>
    requires i < |entries|
  {
    entries[..i] + entries[i + 1..] + [entries[i]]
  }

  /** The most recently used `n` entries. */
  function LastN<T>(s: seq<T>, n: nat): seq<T> {
    if |s| <= n then s else s[|s| - n..]
  }

  function EngineDigest(names: PolicyNaming, e: Engine): string {
    SnapshotDigest(names, e.rules, e.trustedIssuers)
  }

  function KeyFor(names: PolicyNaming, e: Engine, r: Request): Key {
    Key(EngineDigest(names, e), names.request(r))
  }

  /** The dictionary after the digest check. */
  function Refreshed(names: PolicyNaming, e: Engine, s: CacheState): seq<Cached> {
    if EngineDigest(names, e) != s.digest then [] else s.entries
  }

  predicate IsHit(names: PolicyNaming, e: Engine, s: CacheState, r: Request, now: Option<int>) {
    now.None? && Find(Refreshed(names, e, s), KeyFor(names, e, r)).Some?
  }

  predicate Cacheable(now: Option<int>, d: Decision) {
    now.None? && d.reason != "future_request"
  }

  /** `CachedPolicyEngine.evaluate`: the new dictionary and the decision. `clock` is read when no `now` is given. */
  function Evaluation(names: PolicyNaming, capacity: nat, e: Engine, s: CacheState, r: Request, now: Option<int>, clock: int)
    : (CacheState, Decision)
  {
    var base, key := Refreshed(names, e, s), KeyFor(names, e, r);
    if IsHit(names, e, s, r, now) then
      var i := Find(base, key).value;
      (CacheState(MoveToEnd(base, i), key.policy), base[i].decision)
    else
      var d := Decide(names, e, r, now.GetOr(clock));
      (CacheState(if Cacheable(now, d) then LastN(base + [Cached(key, d)], capacity) else base, key.policy), d)
  }

  class CachedPolicyEngine {
    const engine: PolicyEngine
    const capacity: nat
    var cache: seq<Cached>
    var policyDigest: string
    var hits: nat
    var misses: nat

    function State(): CacheState
      reads this
    {
      CacheState(cache, policyDigest)
    }

    constructor (engine: PolicyEngine, capacity: nat)
      requires capacity >= 1
      ensures this.engine == engine && this.capacity == capacity
      ensures State() == CacheState([], EngineDigest(engine.names, engine.Value())) && hits == misses == 0
    {
      this.engine, this.capacity := engine, capacity;
      cache, hits, misses := [], 0, 0;
      policyDigest := EngineDigest(engine.names, engine.Value());
    }

    method Clear()
      modifies this
      ensures State() == CacheState([], EngineDigest(engine.names, engine.Value())) && hits == misses == 0
    {
      cache, hits, misses := [], 0, 0;
      policyDigest := EngineDigest(engine.names, engine.Value());
    }

    method Evaluate(r: Request, now: Option<int>, clock: int) returns (d: Decision)
      modifies this
      ensures (State(), d) == Evaluation(engine.names, capacity, engine.Value(), old(State()), r, now, clock)
      ensures var hit := IsHit(engine.names, engine.Value(), old(State()), r, now);
        hits == old(hits) + (if hit then 1 else 0) && misses == old(misses) + (if hit then 0 else 1)
    {
      var digest := EngineDigest(engine.names, engine.Value());
      if digest != policyDigest {
        cache := [];
        policyDigest := digest;
      }
      var key := Key(digest, engine.names.request(r));
      var found := Find(cache, key);
      if now.None? && found.Some? {
        hits := hits + 1;
        d := cache[found.value].decision;
        cache := MoveToEnd(cache, found.value);
        return;
      }
      misses := misses + 1;
      d := engine.Evaluate(r, now.GetOr(clock));
      if Cacheable(now, d) {
        cache := Trimmed(cache + [Cached(key, d)], capacity);
      }
    }
  }

  /** `popitem(last=False)` until the capacity is met. */
  method Trimmed(entries: seq<Cached>, capacity: nat) returns (r: seq<Cached>)
    ensures r == LastN(entries, capacity)
  {
    r := entries;
    while |r| > capacity
      invariant LastN(r, capacity) == LastN(entries, capacity)
      decreases |r|
    {
      r := r[1..];
    }
  }
}
