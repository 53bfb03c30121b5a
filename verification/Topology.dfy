/** Hosts and the token ring. */
module Topology {
  import opened Seqs

  type Token = int

  /** A `Host` object. The cluster metadata keeps one object per address, so comparing
      objects and comparing addresses agree. */
  datatype Host = Host(address: string, datacenter: Option<string>, rack: Option<string>)

  type ReplicaMap = map<Token, seq<Host>>

  /** Python truth of an optional string. */
  predicate Truthy(s: Option<string>) { s.Some? && s.value != "" }

  predicate Located(h: Host) { Truthy(h.datacenter) && Truthy(h.rack) }

  /** Every ring token has an owner, as `rebuild_token_map` arranges. */
  predicate Owned(owner: map<Token, Host>, ring: seq<Token>) {
    forall k :: 0 <= k < |ring| ==> ring[k] in owner
  }

  /** The owners in ring order. */
  function Owners(owner: map<Token, Host>, ring: seq<Token>): (hosts: seq<Host>)
    requires Owned(owner, ring)
    ensures |hosts| == |ring|
    ensures forall k :: 0 <= k < |ring| ==> hosts[k] == owner[ring[k]]
  {
    seq(|ring|, k requires 0 <= k < |ring| => owner[ring[k]])
  }
}
