/** `SimpleStrategy.make_token_replica_map`: the next distinct owners around the ring. */
module SimpleStrategy {
  import opened Seqs
  import opened Topology

  /** The first rf distinct owners met clockwise from ring position i. */
  function NextOwners(rf: int, owners: seq<Host>, i: nat): seq<Host>
    requires i <= |owners|
  {
    Take(Dedup(Rotate(owners, i)), rf)
  }

  /** The map after the first n ring positions; a repeated token keeps its last list. */
  function MapAfter(rf: int, owners: seq<Host>, ring: seq<Token>, n: nat): ReplicaMap
    requires |owners| == |ring| && n <= |ring|
  {
    if n == 0 then map[]
    else MapAfter(rf, owners, ring, n - 1)[ring[n - 1] := NextOwners(rf, owners, n - 1)]
  }

  function ReplicaMapOf(rf: int, owner: map<Token, Host>, ring: seq<Token>): ReplicaMap
    requires Owned(owner, ring)
  {
    MapAfter(rf, Owners(owner, ring), ring, |ring|)
  }

  method MakeTokenReplicaMap(rf: int, owner: map<Token, Host>, ring: seq<Token>) returns (replicaMap: ReplicaMap)
    requires Owned(owner, ring)
    ensures replicaMap == ReplicaMapOf(rf, owner, ring)
  {
    ghost var owners := Owners(owner, ring);
    replicaMap := map[];
    for i := 0 to |ring|
      invariant replicaMap == MapAfter(rf, owners, ring, i)
    {
      var hosts := OwnersFrom(rf, owner, ring, i);
      replicaMap := replicaMap[ring[i] := hosts];
    }
  }

  /** The inner loop: walk on until there are enough distinct hosts or the ring is done. */
  method OwnersFrom(rf: int, owner: map<Token, Host>, ring: seq<Token>, i: nat) returns (hosts: seq<Host>)
    requires Owned(owner, ring) && i < |ring|
    ensures hosts == NextOwners(rf, Owners(owner, ring), i)
  {
    hide Dedup;
    ghost var walk := Rotate(Owners(owner, ring), i);
    var j := 0;
    hosts := [];
    DedupStep(walk, 0);
    while |hosts| < rf && j < |ring|
      invariant 0 <= j <= |ring|
      invariant hosts == Dedup(walk[..j])
      invariant |hosts| <= Max(rf, 0)
    {
      var host := owner[ring[(i + j) % |ring|]];
      RotateIndex(Owners(owner, ring), i, j);
      DedupStep(walk, j);
      if host !in hosts {
        hosts := hosts + [host];
      }
      j := j + 1;
    }
    DedupPrefix(walk, j);
    assert j == |ring| ==> walk[..j] == walk;
  }

  lemma DedupStep<T>(s: seq<T>, j: nat)
    ensures Dedup(s[..0]) == []
    ensures j < |s| ==> Dedup(s[..j + 1]) == if s[j] in Dedup(s[..j]) then Dedup(s[..j]) else Dedup(s[..j]) + [s[j]]
  {
    if j < |s| {
      assert s[..j + 1][..|s[..j + 1]| - 1] == s[..j];
    }
  }

  lemma {:induction false} DedupPrefix<T>(s: seq<T>, j: nat)
    requires j <= |s|
    ensures Dedup(s[..j]) <= Dedup(s)
  {
    if j < |s| {
      var front := s[..|s| - 1];
      DedupPrefix(front, j);
      assert front[..j] == s[..j];
    } else {
      assert s[..j] == s;
    }
  }

  lemma {:induction false} MapAfterAt(rf: int, owners: seq<Host>, ring: seq<Token>, n: nat, i: nat)
    requires |owners| == |ring| && i < n <= |ring| && Distinct(ring)
    ensures ring[i] in MapAfter(rf, owners, ring, n)
    ensures MapAfter(rf, owners, ring, n)[ring[i]] == NextOwners(rf, owners, i)
  {
    if i < n - 1 {
      MapAfterAt(rf, owners, ring, n - 1, i);
    }
  }

  lemma {:induction false} MapAfterKeys(rf: int, owners: seq<Host>, ring: seq<Token>, n: nat)
    requires |owners| == |ring| && n <= |ring|
    ensures MapAfter(rf, owners, ring, n).Keys == Elems(ring[..n])
  {
    if n > 0 {
      MapAfterKeys(rf, owners, ring, n - 1);
      assert ring[..n] == ring[..n - 1] + [ring[n - 1]];
      ElemsAppend(ring[..n - 1], ring[n - 1]);
    }
  }

  /** The replicas of a position are distinct hosts, as many as the factor asks for or the
      ring has, and no owner before the last of them on the walk is left out. */
  lemma NextOwnersFacts(rf: nat, owners: seq<Host>, i: nat)
    requires i <= |owners|
    ensures Distinct(NextOwners(rf, owners, i))
    ensures |NextOwners(rf, owners, i)| == Min(rf, |Elems(owners)|)
    ensures exists n :: 0 <= n <= |owners| && Elems(NextOwners(rf, owners, i)) == Elems(Rotate(owners, i)[..n])
  {
    var walk := Rotate(owners, i);
    DedupElems(walk);
    assert owners == owners[..i] + owners[i..];
    ElemsConcat(owners[..i], owners[i..]);
    ElemsConcat(owners[i..], owners[..i]);
    assert Elems(walk) == Elems(owners);
    assert |Dedup(walk)| == |Elems(owners)|;
    hide Dedup, Elems, Distinct;
    var n := DedupReaches(walk, Min(rf, |Elems(owners)|));
    DedupElems(walk[..n]);
    DedupPrefix(walk, n);
    assert Dedup(walk[..n]) == Dedup(walk)[..|Dedup(walk[..n])|];
    assert NextOwners(rf, owners, i) == Dedup(walk[..n]);
  }

  lemma {:induction false} DedupReaches<T>(s: seq<T>, k: nat) returns (n: nat)
    requires k <= |Dedup(s)|
    ensures n <= |s| && |Dedup(s[..n])| == k
  {
    if k == |Dedup(s)| {
      n := |s|;
      assert s[..n] == s;
    } else {
      n := DedupReaches(s[..|s| - 1], k);
      assert s[..|s| - 1][..n] == s[..n];
    }
  }
}
