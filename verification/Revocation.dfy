/** The revocation list of revocation.py: revoked ids with reason and time. */
module Revocation {
  import opened Wrappers

  datatype RevocationEntry = RevocationEntry(capabilityId: string, reason: Option<string>, at: int)

  /** `RevocationList._entries` */
  type Revoked = map<string, RevocationEntry>

  predicate IsRevoked(revoked: Revoked, id: Option<string>) {
    id.Some? && id.value in revoked
  }

  class RevocationList {
    var entries: Revoked

    constructor (initial: seq<RevocationEntry>)
      ensures entries == Merged(map[], initial)
    {
      var found: Revoked := map[];
      for i := 0 to |initial|
        invariant Merged(found, initial[i..]) == Merged(map[], initial)
      {
        found := found[initial[i].capabilityId := initial[i]];
      }
      entries := found;
    }

    method Revoke(capabilityId: string, reason: Option<string>, at: int) returns (entry: RevocationEntry)
      requires capabilityId != "" && reason != Some("")
      modifies this
      ensures entry == RevocationEntry(capabilityId, reason, at)
      ensures entries == old(entries)[capabilityId := entry]
    {
      entry := RevocationEntry(capabilityId, reason, at);
      entries := entries[capabilityId := entry];
    }
  }

  /** Entries added one after another; a later entry for an id replaces an earlier one. */
  function Merged(revoked: Revoked, entries: seq<RevocationEntry>): Revoked
    decreases |entries|
  {
    if entries == [] then revoked
    else Merged(revoked[entries[0].capabilityId := entries[0]], entries[1..])
  }
}
