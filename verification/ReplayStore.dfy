/**
 One-time consumption (the replay stores of gate.py). Both stores do the same
 atomic step: evict what has expired by the store's own clock, then insert the id
 unless it is still there. Interleaved callers are therefore a sequence of steps.
 */
module ReplayStores {

  /**
   The readings of the store's clock during one call: the in-memory store takes one for
   every entry it looks at, the SQLite store a single one for all of them.
   */
  type Clock = string -> int

  /** One call of `consume_once` with the clock readings it meets. */
  datatype Consumption = Consumption(id: string, expiresAt: int, clock: Clock)

  /** Entries the step with these readings does not evict. */
  function Unexpired(entries: map<string, int>, clock: Clock): map<string, int> {
    map k | k in entries && clock(k) <= entries[k] :: entries[k]
  }

  predicate Consumable(entries: map<string, int>, c: Consumption) {
    c.id !in Unexpired(entries, c.clock)
  }

  function Consume(entries: map<string, int>, c: Consumption): map<string, int> {
    if Consumable(entries, c) then Unexpired(entries, c.clock)[c.id := c.expiresAt] else Unexpired(entries, c.clock)
  }

  class InMemoryReplayStore {
    var entries: map<string, int>

    constructor ()
      ensures entries == map[]
    {
      entries := map[];
    }

    method ConsumeOnce(c: Consumption) returns (granted: bool)
      modifies this
      ensures granted == Consumable(old(entries), c)
      ensures entries == Consume(old(entries), c)
    {
      var expired := set k | k in entries && entries[k] < c.clock(k);
      ghost var all := expired;
      while expired != {}
        invariant expired <= all
        invariant entries == old(entries) - (all - expired)
        decreases expired
      {
        var key :| key in expired;
        entries := entries - {key};
        expired := expired - {key};
      }
      assert entries == Unexpired(old(entries), c.clock);
      if c.id in entries { return false; }
      entries := entries[c.id := c.expiresAt];
      granted := true;
    }
  }

  // ---- runs ----

  /** The store after a run of calls from an empty store. */
  function Entries(events: seq<Consumption>): map<string, int> {
    if events == [] then map[] else Consume(Entries(events[..|events| - 1]), events[|events| - 1])
  }

  /** Whether the call at position `i` of a run is granted. */
  predicate Granted(events: seq<Consumption>, i: nat)
    requires i < |events|
  {
    Consumable(Entries(events[..i]), events[i])
  }

  /** No reading of a later call is before one of an earlier call. */
  ghost predicate NoEarlier(a: Clock, b: Clock) {
    forall k :: a(k) <= b(k)
  }

  ghost predicate NondecreasingClock(events: seq<Consumption>) {
    forall i, j :: 0 <= i < j < |events| ==> NoEarlier(events[i].clock, events[j].clock)
  }

  /** A granted call for `id` whose expiry has not passed at `t`. */
  ghost predicate Outstanding(events: seq<Consumption>, id: string, t: int) {
    exists i :: 0 <= i < |events| && Granted(events, i) && events[i].id == id && t <= events[i].expiresAt
  }

  lemma GrantedInPrefix(events: seq<Consumption>, n: nat, i: nat)
    requires i < n <= |events|
    ensures Granted(events[..n], i) <==> Granted(events, i)
  {
    assert events[..n][..i] == events[..i];
  }

  lemma OutstandingStep(events: seq<Consumption>, id: string, t: int)
    requires events != []
    ensures var last := |events| - 1;
      Outstanding(events, id, t) <==>
        Outstanding(events[..last], id, t)
        || (Granted(events, last) && events[last].id == id && t <= events[last].expiresAt)
  {
    var last := |events| - 1;
    if Outstanding(events, id, t) {
      var i :| 0 <= i < |events| && Granted(events, i) && events[i].id == id && t <= events[i].expiresAt;
      if i < last {
        GrantedInPrefix(events, last, i);
        assert Granted(events[..last], i) && events[..last][i].id == id;
      }
    }
    if Outstanding(events[..last], id, t) {
      var i :| 0 <= i < last && Granted(events[..last], i) && events[..last][i].id == id && t <= events[..last][i].expiresAt;
      GrantedInPrefix(events, last, i);
      assert Granted(events, i) && events[i].id == id;
    }
  }

  /** On a nondecreasing clock the store holds exactly the outstanding grants, despite eviction. */
  lemma {:induction false} StoreHoldsOutstanding(events: seq<Consumption>, id: string, t: Clock)
    requires NondecreasingClock(events)
    requires events != [] ==> NoEarlier(events[|events| - 1].clock, t)
    ensures id in Unexpired(Entries(events), t) <==> Outstanding(events, id, t(id))
    decreases |events|
  {
    if events != [] {
      var last := |events| - 1;
      var c := events[last];
      assert events[..last] != [] ==> NoEarlier(events[..last][last - 1].clock, c.clock);
      assert c.clock(id) <= t(id);
      assert events[..last] != [] ==> NoEarlier(events[..last][last - 1].clock, t) by {
        if events[..last] != [] {
          forall k ensures events[..last][last - 1].clock(k) <= t(k) {
            assert events[last - 1].clock(k) <= c.clock(k) && c.clock(k) <= t(k);
          }
        }
      }
      StoreHoldsOutstanding(events[..last], id, t);
      StoreHoldsOutstanding(events[..last], id, c.clock);
      OutstandingStep(events, id, t(id));
      if Outstanding(events[..last], id, t(id)) {
        var i :| 0 <= i < last && Granted(events[..last], i) && events[..last][i].id == id && t(id) <= events[..last][i].expiresAt;
        assert Outstanding(events[..last], id, c.clock(id));
      }
    }
  }

  /** A call is refused exactly while an earlier grant of the same id is outstanding at the store's clock. */
  lemma GrantCharacterised(events: seq<Consumption>, j: nat)
    requires NondecreasingClock(events) && j < |events|
    ensures Granted(events, j) <==> !Outstanding(events[..j], events[j].id, events[j].clock(events[j].id))
  {
    assert events[..j] != [] ==> NoEarlier(events[..j][j - 1].clock, events[j].clock);
    StoreHoldsOutstanding(events[..j], events[j].id, events[j].clock);
  }

  /** The id fixes the expiry, as a content id does. */
  ghost predicate ExpiryFixed(events: seq<Consumption>) {
    forall i, j :: 0 <= i < |events| && 0 <= j < |events| && events[i].id == events[j].id ==>
      events[i].expiresAt == events[j].expiresAt
  }

  /** No call looks at its own id's entry past the expiry it presents. */
  ghost predicate InTime(events: seq<Consumption>) {
    forall i :: 0 <= i < |events| ==> events[i].clock(events[i].id) <= events[i].expiresAt
  }

  /** At most once, for every interleaving: the same id is never granted twice. */
  lemma AtMostOnce(events: seq<Consumption>, i: nat, j: nat)
    requires NondecreasingClock(events) && ExpiryFixed(events) && InTime(events)
    requires i < j < |events| && events[i].id == events[j].id && Granted(events, i)
    ensures !Granted(events, j)
  {
    GrantCharacterised(events, j);
    GrantedInPrefix(events, j, i);
    assert events[..j][i] == events[i] && Granted(events[..j], i);
    assert Outstanding(events[..j], events[j].id, events[j].clock(events[j].id));
  }

  /** Without `InTime` the guarantee is lost: once the store's clock is past the expiry, the id is granted again. */
  lemma LateClockGrantsAgain(id: string, expiresAt: int, late: int)
    requires expiresAt < late
    ensures var events := [Consumption(id, expiresAt, _ => expiresAt), Consumption(id, expiresAt, _ => late)];
      NondecreasingClock(events) && ExpiryFixed(events) && Granted(events, 0) && Granted(events, 1)
  {
    var events := [Consumption(id, expiresAt, _ => expiresAt), Consumption(id, expiresAt, _ => late)];
    assert events[..0] == [] && events[..1] == [events[0]];
    assert [events[0]][..0] == [];
    assert Entries([events[0]]) == map[id := expiresAt];
  }
}
