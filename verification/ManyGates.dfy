/**
 Any number of gates over one replay store: their consumptions are atomic, so whatever
 else of their calls overlaps, the store sees them one after another.
 */
module ManyGates {
  import opened Wrappers
  import opened Models
  import opened Capabilities
  import opened ReplayStores
  import opened Revocation
  import opened Gate
  import GatekeeperRuns
  import BoundarySafety

  /** One call of some gate's `authorize`, in the order in which the calls reach the store. */
  datatype Presentation = Presentation(
    settings: Settings,
    revoked: Option<Revoked>,
    capability: SignedCapability,
    request: Request,
    now: int,
    clock: Clock,
    parent: Option<SignedCapability>)

  predicate ReachesStore(p: Presentation) {
    Violation(p.settings, p.revoked, p.capability, p.request, p.now, p.parent).None?
  }

  predicate AuthorizedOn(p: Presentation, entries: map<string, int>) {
    Authorization(p.settings, p.revoked, entries, p.capability, p.request, p.now, p.clock, p.parent).Success?
  }

  /** The store after all calls. */
  function Store(calls: seq<Presentation>): map<string, int> {
    if calls == [] then map[]
    else
      var p := calls[|calls| - 1];
      StoreAfter(p.settings, p.revoked, Store(calls[..|calls| - 1]), p.capability, p.request, p.now, p.clock, p.parent)
  }

  function StoreCall(p: Presentation): seq<Consumption> {
    if ReachesStore(p) then [ConsumptionOf(p.capability.payload, p.clock)] else []
  }

  function StoreCalls(calls: seq<Presentation>): seq<Consumption> {
    if calls == [] then [] else StoreCalls(calls[..|calls| - 1]) + StoreCall(calls[|calls| - 1])
  }

  function AuthorizedId(p: Presentation, entries: map<string, int>): seq<string> {
    if AuthorizedOn(p, entries) then [p.capability.payload.capabilityId] else []
  }

  /** The ids authorized, by whichever gate. */
  function AuthorizedIds(calls: seq<Presentation>): seq<string> {
    if calls == [] then []
    else AuthorizedIds(calls[..|calls| - 1]) + AuthorizedId(calls[|calls| - 1], Store(calls[..|calls| - 1]))
  }

  /** The store's entries and grants are those of its own calls. */
  lemma {:induction false} AuthorizedAreGranted(calls: seq<Presentation>)
    ensures Store(calls) == Entries(StoreCalls(calls))
    ensures AuthorizedIds(calls) == GatekeeperRuns.GrantedIds(StoreCalls(calls))
    decreases |calls|
  {
    if calls != [] {
      var before, p := calls[..|calls| - 1], calls[|calls| - 1];
      AuthorizedAreGranted(before);
      if ReachesStore(p) {
        GatekeeperRuns.GrantedStep(StoreCalls(before), ConsumptionOf(p.capability.payload, p.clock));
      } else {
        assert StoreCalls(before) + StoreCall(p) == StoreCalls(before);
      }
    }
  }

  /** All gates compute content ids alike. */
  ghost predicate SameNames(names: Naming, calls: seq<Presentation>) {
    forall i :: 0 <= i < |calls| ==> calls[i].settings.names == names
  }

  lemma {:induction false} StoreCallsAreGenuine(names: Naming, calls: seq<Presentation>)
    requires SameNames(names, calls)
    ensures forall e :: e in StoreCalls(calls) ==> BoundarySafety.FromCapability(names, e)
    decreases |calls|
  {
    if calls != [] {
      var p := calls[|calls| - 1];
      StoreCallsAreGenuine(names, calls[..|calls| - 1]);
      if ReachesStore(p) {
        AuthorizedMeans(p.settings, p.revoked, p.capability, p.request, p.now, p.parent);
        assert BoundarySafety.FromCapability(names, ConsumptionOf(p.capability.payload, p.clock));
      }
    }
  }

  /** Whatever gate presents it, an id fixes the expiry the store is given. */
  lemma StoreCallsFixExpiry(names: Naming, calls: seq<Presentation>)
    requires Faithful(names) && SameNames(names, calls)
    ensures ExpiryFixed(StoreCalls(calls))
  {
    var events := StoreCalls(calls);
    StoreCallsAreGenuine(names, calls);
    forall i, j | 0 <= i < |events| && 0 <= j < |events| && events[i].id == events[j].id
      ensures events[i].expiresAt == events[j].expiresAt
    {
      assert events[i] in events && events[j] in events;
      BoundarySafety.GenuineCallsAgree(names, events[i], events[j]);
    }
  }

  /** No capability is authorized twice, by any gates in any interleaving, on a nondecreasing clock in time. */
  lemma AuthorizedAtMostOnce(names: Naming, calls: seq<Presentation>)
    requires Faithful(names) && SameNames(names, calls)
    requires NondecreasingClock(StoreCalls(calls)) && InTime(StoreCalls(calls))
    ensures BoundarySafety.DistinctIds(AuthorizedIds(calls))
  {
    AuthorizedAreGranted(calls);
    StoreCallsFixExpiry(names, calls);
    BoundarySafety.GrantedIdsDistinct(StoreCalls(calls));
  }
}
