/** The registry of trusted issuers (src/trust.rs), as it lives in memory. */
module TrustStores {
  import opened Wrappers
  import opened Nodes
  import opened Numbers

  datatype TrustEntry = TrustEntry(displayName: string, addedAtUnix: I64, rateLimitPerMin: U32)

  type Registry = map<NodeId, TrustEntry>

  class TrustStore {
    var entries: Registry

    constructor ()
      ensures entries == map[]
    {
      entries := map[];
    }

    method AddAt(node: NodeId, entry: TrustEntry)
      modifies this
      ensures entries == old(entries)[node := entry]
    {
      entries := entries[node := entry];
    }

    method Remove(node: NodeId) returns (deleted: bool)
      modifies this
      ensures entries == old(entries) - {node}
      ensures deleted <==> node in old(entries)
    {
      deleted := node in entries;
      entries := entries - {node};
    }

    method Get(node: NodeId) returns (entry: Option<TrustEntry>)
      ensures entry.Some? <==> node in entries
      ensures entry.Some? ==> entry.value == entries[node]
    {
      entry := if node in entries then Some(entries[node]) else None;
    }

    method IsTrusted(node: NodeId) returns (trusted: bool)
      ensures trusted <==> node in entries
    {
      trusted := node in entries;
    }
  }
}
