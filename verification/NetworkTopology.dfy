/** `NetworkTopologyStrategy.make_token_replica_map`: the replica map of a keyspace that is
    replicated per datacenter. */
module NetworkTopology {
  import opened Seqs
  import opened Topology
  import opened RackSpread

  type Dc = Option<string>

  /** The owners that belong to a datacenter, in the given order. */
  function InDc(hosts: seq<Host>, dc: Dc): seq<Host> {
    if hosts == [] then []
    else
      var front, h := hosts[..|hosts| - 1], hosts[|hosts| - 1];
      if h.datacenter == dc then InDc(front, dc) + [h] else InDc(front, dc)
  }

  /** The naive scan: go once around the ring from position i and keep the datacenter's
      tokens. */
  function DcWalk(owners: seq<Host>, i: nat, dc: Dc): seq<Host>
    requires i <= |owners|
  {
    InDc(Rotate(owners, i), dc)
  }

  function DcRacks(owners: seq<Host>, dc: Dc): set<Dc> {
    set h | h in owners && h.datacenter == dc && Located(h) :: h.rack
  }

  function DcHosts(owners: seq<Host>, dc: Dc): set<Host> {
    set h | h in owners && h.datacenter == dc && Located(h)
  }

  /** The replication factors that count: `if rf > 0`. */
  function PositiveFactors(factors: map<string, int>): map<string, int> {
    map dc | dc in factors && factors[dc] > 0 :: factors[dc]
  }

  predicate Replicated(factors: map<string, int>, dc: Dc) {
    dc.Some? && dc.value in factors && factors[dc.value] > 0
  }

  /** What one datacenter adds to the replicas of ring position i. */
  function PlaceDc(replicas: seq<Host>, factors: map<string, int>, owners: seq<Host>, i: nat, dc: Dc): seq<Host>
    requires i <= |owners|
  {
    if Replicated(factors, dc) then
      VisitAll(Start(replicas, factors[dc.value]), DcWalk(owners, i, dc),
               |DcRacks(owners, dc)|, |DcHosts(owners, dc)|).replicas
    else replicas
  }

  function PlaceDcs(replicas: seq<Host>, factors: map<string, int>, owners: seq<Host>, i: nat, dcs: seq<Dc>): seq<Host>
    requires i <= |owners|
  {
    if dcs == [] then replicas
    else PlaceDc(PlaceDcs(replicas, factors, owners, i, dcs[..|dcs| - 1]), factors, owners, i, dcs[|dcs| - 1])
  }

  /** The datacenters in the order in which the ring first mentions them. */
  function DcOrder(owners: seq<Host>): seq<Dc> {
    if owners == [] then []
    else
      var front, dc := DcOrder(owners[..|owners| - 1]), owners[|owners| - 1].datacenter;
      if dc in front then front else front + [dc]
  }

  function Lookup(m: ReplicaMap, t: Token): seq<Host> {
    if t in m then m[t] else []
  }

  /** The map after the first n ring positions. A token that occurs twice in the ring has
      both turns append to one list. */
  function MapAfter(factors: map<string, int>, owners: seq<Host>, ring: seq<Token>, n: nat): ReplicaMap
    requires |owners| == |ring| && n <= |ring|
  {
    if n == 0 then map[]
    else
      var m := MapAfter(factors, owners, ring, n - 1);
      m[ring[n - 1] := PlaceDcs(Lookup(m, ring[n - 1]), factors, owners, n - 1, DcOrder(owners))]
  }

  function ReplicaMapOf(factors: map<string, int>, owner: map<Token, Host>, ring: seq<Token>): ReplicaMap
    requires Owned(owner, ring)
  {
    MapAfter(factors, Owners(owner, ring), ring, |ring|)
  }

  // -------------------------------------------------------------------- the algorithm

  /** The ring positions that belong to a datacenter, ascending. */
  function Offsets(owners: seq<Host>, dc: Dc): (offsets: seq<nat>)
    ensures forall k :: 0 <= k < |offsets| ==> offsets[k] < |owners|
  {
    if owners == [] then []
    else
      var front := Offsets(owners[..|owners| - 1], dc);
      if owners[|owners| - 1].datacenter == dc then front + [|owners| - 1] else front
  }

  function Index(m: map<Dc, nat>, dc: Dc): nat { if dc in m then m[dc] else 0 }

  /** No datacenter's index has passed the tokens at or after ring position i. */
  ghost predicate Behind(current: map<Dc, nat>, owners: seq<Host>, i: nat)
    requires i <= |owners|
  {
    forall dc :: Index(current, dc) <= |InDc(owners[..i], dc)|
  }

  method MakeTokenReplicaMap(factors: map<string, int>, owner: map<Token, Host>, ring: seq<Token>)
      returns (replicaMap: ReplicaMap)
    requires Owned(owner, ring)
    ensures replicaMap == ReplicaMapOf(factors, owner, ring)
  {
    hide Owners, PlaceDcs, DcOrder, Offsets, DcRacks, DcHosts, Behind;
    ghost var owners := Owners(owner, ring);
    var rfs := PositiveFactors(factors);
    var dcs, offsets, racks, hosts := GroupByDc(owner, ring);
    var current: map<Dc, nat> := map[];
    replicaMap := map[];
    BehindAtStart(owners);
    DcOrderLists(owners);
    for i := 0 to |ring|
      invariant replicaMap == MapAfter(factors, owners, ring, i)
      invariant Behind(current, owners, i)
    {
      var replicas;
      replicas, current := PlaceAtPosition(Lookup(replicaMap, ring[i]), factors, rfs, dcs, offsets, racks, hosts,
        current, owner, ring, i);
      replicaMap := replicaMap[ring[i] := replicas];
    }
  }

  lemma BehindAtStart(owners: seq<Host>)
    ensures Behind(map[], owners, 0)
  {
  }

  lemma BehindNext(current: map<Dc, nat>, owners: seq<Host>, i: nat)
    requires i < |owners| && Behind(current, owners, i)
    ensures Behind(current, owners, i + 1)
  {
    forall dc ensures Index(current, dc) <= |InDc(owners[..i + 1], dc)| {
      InDcMonotone(owners, dc, i);
    }
  }

  /** The loop over the datacenters for one ring position. */
  method PlaceAtPosition(start: seq<Host>, ghost factors: map<string, int>, rfs: map<string, int>, dcs: seq<Dc>,
                         offsets: map<Dc, seq<nat>>, racks: map<Dc, set<Dc>>, hosts: map<Dc, set<Host>>,
                         indexes: map<Dc, nat>, owner: map<Token, Host>, ring: seq<Token>, i: nat)
      returns (replicas: seq<Host>, current: map<Dc, nat>)
    requires Owned(owner, ring) && i < |ring| && rfs == PositiveFactors(factors)
    requires Grouped(Owners(owner, ring), offsets, racks, hosts)
    requires forall dc :: dc in dcs ==> Offsets(Owners(owner, ring), dc) != []
    requires Behind(indexes, Owners(owner, ring), i)
    ensures replicas == PlaceDcs(start, factors, Owners(owner, ring), i, dcs)
    ensures Behind(current, Owners(owner, ring), i + 1)
  {
    hide Owners, InDc, Offsets, DcRacks, DcHosts, DcWalk, Start, VisitAll;
    ghost var owners := Owners(owner, ring);
    replicas, current := start, indexes;
    for d := 0 to |dcs|
      invariant replicas == PlaceDcs(start, factors, owners, i, dcs[..d])
      invariant Behind(current, owners, i)
    {
      var dc := dcs[d];
      assert dcs[..d + 1][..|dcs[..d + 1]| - 1] == dcs[..d];
      if dc.Some? && dc.value in rfs {
        var index := AdvanceIndex(GetOr(offsets, dc, []), Index(current, dc), i, owners, dc);
        current := current[dc := index];
        replicas := PlaceInDc(replicas, rfs[dc.value], GetOr(offsets, dc, []), index, owner, ring,
                              |GetOr(racks, dc, {})|, |GetOr(hosts, dc, {})|, i, dc);
      }
    }
    assert dcs[..|dcs|] == dcs;
    BehindNext(current, owners, i);
  }

  lemma InDcMonotone(owners: seq<Host>, dc: Dc, i: nat)
    requires i < |owners|
    ensures |InDc(owners[..i], dc)| <= |InDc(owners[..i + 1], dc)|
  {
    assert owners[..i + 1][..|owners[..i + 1]| - 1] == owners[..i];
  }

  /** Reading a `defaultdict`. */
  function GetOr<K, V>(m: map<K, V>, k: K, default: V): V { if k in m then m[k] else default }

  ghost predicate Grouped(owners: seq<Host>, offsets: map<Dc, seq<nat>>, racks: map<Dc, set<Dc>>,
                          hosts: map<Dc, set<Host>>)
  {
    && (forall dc :: GetOr(offsets, dc, []) == Offsets(owners, dc))
    && (forall dc :: GetOr(racks, dc, {}) == DcRacks(owners, dc))
    && (forall dc :: GetOr(hosts, dc, {}) == DcHosts(owners, dc))
  }

  /** The first loop: the positions, racks and located hosts of every datacenter. */
  method GroupByDc(owner: map<Token, Host>, ring: seq<Token>)
      returns (dcs: seq<Dc>, offsets: map<Dc, seq<nat>>, racks: map<Dc, set<Dc>>, hosts: map<Dc, set<Host>>)
    requires Owned(owner, ring)
    ensures dcs == DcOrder(Owners(owner, ring))
    ensures Grouped(Owners(owner, ring), offsets, racks, hosts)
  {
    hide Owners, DcOrder, Offsets, DcRacks, DcHosts, Grouped;
    ghost var owners := Owners(owner, ring);
    dcs, offsets, racks, hosts := [], map[], map[], map[];
    GroupNone(owners);
    for i := 0 to |ring|
      invariant dcs == DcOrder(owners[..i])
      invariant Grouped(owners[..i], offsets, racks, hosts)
    {
      var host := owner[ring[i]];
      var dc := host.datacenter;
      GroupStep(owners, i, offsets, racks, hosts);
      if dc !in dcs {
        dcs := dcs + [dc];
      }
      offsets := offsets[dc := GetOr(offsets, dc, []) + [i]];
      if Truthy(dc) && Truthy(host.rack) {
        racks := racks[dc := GetOr(racks, dc, {}) + {host.rack}];
        hosts := hosts[dc := GetOr(hosts, dc, {}) + {host}];
      }
    }
    assert owners[..|ring|] == owners;
  }

  lemma GroupNone(owners: seq<Host>)
    ensures DcOrder(owners[..0]) == [] && Grouped(owners[..0], map[], map[], map[])
  {
  }

  lemma {:induction false} DcOrderLists(owners: seq<Host>)
    ensures Distinct(DcOrder(owners))
    ensures forall h :: h in owners ==> h.datacenter in DcOrder(owners)
    ensures forall dc :: dc in DcOrder(owners) ==> Offsets(owners, dc) != []
  {
    if owners != [] {
      DcOrderLists(owners[..|owners| - 1]);
    }
  }

  lemma GroupStep(owners: seq<Host>, i: nat, offsets: map<Dc, seq<nat>>, racks: map<Dc, set<Dc>>,
                  hosts: map<Dc, set<Host>>)
    requires i < |owners| && Grouped(owners[..i], offsets, racks, hosts)
    ensures DcOrder(owners[..i + 1]) ==
            if owners[i].datacenter in DcOrder(owners[..i]) then DcOrder(owners[..i])
            else DcOrder(owners[..i]) + [owners[i].datacenter]
    ensures var h, dc := owners[i], owners[i].datacenter;
            Grouped(owners[..i + 1], offsets[dc := GetOr(offsets, dc, []) + [i]],
                    if Located(h) then racks[dc := GetOr(racks, dc, {}) + {h.rack}] else racks,
                    if Located(h) then hosts[dc := GetOr(hosts, dc, {}) + {h}] else hosts)
  {
    hide GetOr, Offsets, DcRacks, DcHosts, DcOrder;
    DcOrderStep(owners, i);
    OffsetsStep(owners, i);
    GroupSets(owners, i);
    var h, d := owners[i], owners[i].datacenter;
    var offsets' := offsets[d := GetOr(offsets, d, []) + [i]];
    var racks' := if Located(h) then racks[d := GetOr(racks, d, {}) + {h.rack}] else racks;
    var hosts' := if Located(h) then hosts[d := GetOr(hosts, d, {}) + {h}] else hosts;
    forall dc
      ensures GetOr(offsets', dc, []) == Offsets(owners[..i + 1], dc)
      ensures GetOr(racks', dc, {}) == DcRacks(owners[..i + 1], dc)
      ensures GetOr(hosts', dc, {}) == DcHosts(owners[..i + 1], dc)
    {
      GetOrUpdate(offsets, d, GetOr(offsets, d, []) + [i], [], dc);
      GetOrUpdate(racks, d, GetOr(racks, d, {}) + {h.rack}, {}, dc);
      GetOrUpdate(hosts, d, GetOr(hosts, d, {}) + {h}, {}, dc);
    }
  }

  lemma DcOrderStep(owners: seq<Host>, i: nat)
    requires i < |owners|
    ensures DcOrder(owners[..i + 1]) ==
            if owners[i].datacenter in DcOrder(owners[..i]) then DcOrder(owners[..i])
            else DcOrder(owners[..i]) + [owners[i].datacenter]
  {
    assert owners[..i + 1][..i] == owners[..i];
  }

  lemma OffsetsStep(owners: seq<Host>, i: nat)
    requires i < |owners|
    ensures forall dc :: Offsets(owners[..i + 1], dc) ==
                         if owners[i].datacenter == dc then Offsets(owners[..i], dc) + [i] else Offsets(owners[..i], dc)
  {
    assert owners[..i + 1][..i] == owners[..i];
  }

  lemma GetOrUpdate<K, V>(m: map<K, V>, k: K, v: V, default: V, x: K)
    ensures GetOr(m[k := v], x, default) == if x == k then v else GetOr(m, x, default)
  {
  }

  lemma GroupSets(owners: seq<Host>, i: nat)
    requires i < |owners|
    ensures forall dc :: DcRacks(owners[..i + 1], dc) ==
                         if owners[i].datacenter == dc && Located(owners[i])
                         then DcRacks(owners[..i], dc) + {owners[i].rack} else DcRacks(owners[..i], dc)
    ensures forall dc :: DcHosts(owners[..i + 1], dc) ==
                         if owners[i].datacenter == dc && Located(owners[i])
                         then DcHosts(owners[..i], dc) + {owners[i]} else DcHosts(owners[..i], dc)
  {
    var v := owners[..i + 1];
    assert v == owners[..i] + [owners[i]];
    assert forall h :: h in v <==> h in owners[..i] || h == owners[i];
  }

  lemma {:induction false} NoTokens(owners: seq<Host>, dc: Dc)
    requires forall h :: h in owners ==> h.datacenter != dc
    ensures Offsets(owners, dc) == [] && DcRacks(owners, dc) == {} && DcHosts(owners, dc) == {}
    ensures InDc(owners, dc) == []
  {
    if owners != [] {
      NoTokens(owners[..|owners| - 1], dc);
    }
  }

  /** The running per-datacenter index: resume where the last ring position left it, and stop
      at the first of the datacenter's tokens at or after ring position i. */
  method AdvanceIndex(offsets: seq<nat>, from: nat, i: nat, ghost owners: seq<Host>, ghost dc: Dc) returns (index: nat)
    requires i <= |owners| && offsets == Offsets(owners, dc)
    requires from <= |InDc(owners[..i], dc)|
    ensures index == |InDc(owners[..i], dc)|
  {
    OffsetsSplit(owners, dc, i);
    index := from;
    while index < |offsets| && offsets[index] < i
      invariant index <= |InDc(owners[..i], dc)|
    {
      index := index + 1;
    }
  }

  /** The offsets list the datacenter's owners, those before ring position i first. */
  lemma {:induction false} OffsetsSplit(owners: seq<Host>, dc: Dc, i: nat)
    requires i <= |owners|
    ensures |Offsets(owners, dc)| == |InDc(owners, dc)|
    ensures |InDc(owners[..i], dc)| <= |InDc(owners, dc)|
    ensures forall k :: 0 <= k < |Offsets(owners, dc)| ==>
                        (Offsets(owners, dc)[k] < i <==> k < |InDc(owners[..i], dc)|)
    ensures forall k :: 0 <= k < |Offsets(owners, dc)| ==>
                        owners[Offsets(owners, dc)[k]] == InDc(owners, dc)[k]
  {
    if owners != [] {
      var front := owners[..|owners| - 1];
      if i == |owners| {
        OffsetsSplit(front, dc, |front|);
        assert owners[..i] == owners;
      } else {
        OffsetsSplit(front, dc, i);
        assert owners[..i] == front[..i];
      }
    }
  }

  /** Reading the offsets circularly from the running index is the naive scan. */
  lemma CycleIsWalk(owners: seq<Host>, dc: Dc, i: nat)
    requires i <= |owners|
    ensures |InDc(owners[..i], dc)| <= |InDc(owners, dc)|
    ensures Rotate(InDc(owners, dc), |InDc(owners[..i], dc)|) == DcWalk(owners, i, dc)
  {
    assert owners == owners[..i] + owners[i..];
    InDcConcat(owners[..i], owners[i..], dc);
    InDcConcat(owners[i..], owners[..i], dc);
  }

  lemma {:induction false} InDcConcat(s: seq<Host>, t: seq<Host>, dc: Dc)
    ensures InDc(s + t, dc) == InDc(s, dc) + InDc(t, dc)
  {
    if t == [] {
      assert s + t == s;
    } else {
      var front := t[..|t| - 1];
      InDcConcat(s, front, dc);
      assert (s + t)[..|s + t| - 1] == s + front;
    }
  }

  /** The loop over `islice(cycle(token_offsets), index, index + num_tokens)`. */
  method PlaceInDc(before: seq<Host>, rf: int, offsets: seq<nat>, index: nat, owner: map<Token, Host>, ring: seq<Token>,
                   rackCount: nat, hostCount: nat, ghost i: nat, ghost dc: Dc) returns (replicas: seq<Host>)
    requires Owned(owner, ring) && rf > 0 && i <= |ring|
    requires offsets == Offsets(Owners(owner, ring), dc) && offsets != []
    requires index == |InDc(Owners(owner, ring)[..i], dc)|
    ensures replicas == VisitAll(Start(before, rf), DcWalk(Owners(owner, ring), i, dc), rackCount, hostCount).replicas
  {
    hide Owners, InDc, Offsets, DcWalk, VisitAll;
    ghost var walk := DcWalk(Owners(owner, ring), i, dc);
    ghost var s0 := Start(before, rf);
    VisitNone(s0, walk, rackCount, hostCount);
    replicas := before;
    var remaining, placed, skipped: seq<Host>, racks: set<Dc> := rf, 0, [], {};
    WalkLength(owner, ring, dc, i);
    for k := 0 to |offsets|
      invariant Walk(replicas, remaining, placed, skipped, racks) == VisitAll(s0, walk[..k], rackCount, hostCount)
    {
      WalkAt(owner, ring, dc, i, index, k);
      var host := owner[ring[offsets[(index + k) % |offsets|]]];
      VisitStep(s0, walk, k, rackCount, hostCount);
      if remaining == 0 || placed == hostCount {
        DoneStays(s0, walk, k, rackCount, hostCount);
        return;
      }
      if host in replicas {
        continue;
      }
      if host.rack in racks && |racks| < rackCount {
        skipped := skipped + [host];
        continue;
      }
      replicas, remaining, placed, racks := replicas + [host], remaining - 1, placed + 1, racks + {host.rack};
      if |racks| == rackCount {
        replicas, remaining := AddSkipped(replicas, remaining, skipped);
        skipped := [];
      }
    }
    assert walk[..|offsets|] == walk;
  }

  lemma VisitNone(s: Walk, w: seq<Host>, rackCount: nat, hostCount: nat)
    requires s.remaining >= 0
    ensures VisitAll(s, w[..0], rackCount, hostCount) == s
  {
  }

  lemma VisitStep(s: Walk, w: seq<Host>, k: nat, rackCount: nat, hostCount: nat)
    requires s.remaining >= 0 && k < |w|
    ensures VisitAll(s, w[..k + 1], rackCount, hostCount) ==
            Visit(VisitAll(s, w[..k], rackCount, hostCount), w[k], rackCount, hostCount)
  {
    assert w[..k + 1][..|w[..k + 1]| - 1] == w[..k];
  }

  lemma WalkLength(owner: map<Token, Host>, ring: seq<Token>, dc: Dc, i: nat)
    requires Owned(owner, ring) && i <= |ring|
    ensures |DcWalk(Owners(owner, ring), i, dc)| == |Offsets(Owners(owner, ring), dc)|
  {
    CycleIsWalk(Owners(owner, ring), dc, i);
    OffsetsSplit(Owners(owner, ring), dc, i);
  }

  /** The k-th token that the circular slice yields is the k-th token of the naive scan. */
  lemma WalkAt(owner: map<Token, Host>, ring: seq<Token>, dc: Dc, i: nat, index: nat, k: nat)
    requires Owned(owner, ring) && i <= |ring| && k < |Offsets(Owners(owner, ring), dc)|
    requires index == |InDc(Owners(owner, ring)[..i], dc)|
    ensures |DcWalk(Owners(owner, ring), i, dc)| == |Offsets(Owners(owner, ring), dc)|
    ensures var offsets := Offsets(Owners(owner, ring), dc);
            0 <= (index + k) % |offsets| < |offsets| &&
            owner[ring[offsets[(index + k) % |offsets|]]] == DcWalk(Owners(owner, ring), i, dc)[k]
  {
    var owners := Owners(owner, ring);
    CycleIsWalk(owners, dc, i);
    OffsetsSplit(owners, dc, i);
    CycleStep(InDc(owners, dc), index, index + k);
  }

  lemma CycleStep(s: seq<Host>, index: nat, k: nat)
    requires s != [] && index <= |s| && index <= k < index + |s|
    ensures 0 <= k % |s| < |s| && Rotate(s, index)[k - index] == s[k % |s|]
  {
    OnceRound(k, |s|);
  }

  method AddSkipped(before: seq<Host>, places: int, skipped: seq<Host>) returns (replicas: seq<Host>, remaining: int)
    requires places >= 0
    ensures replicas == before + Take(skipped, places)
    ensures remaining == places - |Take(skipped, places)|
  {
    replicas, remaining := before, places;
    var k := 0;
    while k < |skipped| && remaining != 0
      invariant 0 <= k <= |skipped| && remaining == places - k >= 0
      invariant replicas == before + skipped[..k]
    {
      replicas := replicas + [skipped[k]];
      remaining := remaining - 1;
      k := k + 1;
    }
  }

  lemma {:induction false} DoneStays(s: Walk, w: seq<Host>, k: nat, rackCount: nat, hostCount: nat)
    requires s.remaining >= 0 && k <= |w|
    requires Done(VisitAll(s, w[..k], rackCount, hostCount), hostCount)
    ensures VisitAll(s, w, rackCount, hostCount) == VisitAll(s, w[..k], rackCount, hostCount)
    decreases |w|
  {
    if k == |w| {
      assert w[..k] == w;
    } else {
      var front := w[..|w| - 1];
      assert front[..k] == w[..k];
      DoneStays(s, front, k, rackCount, hostCount);
    }
  }

  // -------------------------------------------------------------------- what it means

  ghost predicate AllLocated(hosts: seq<Host>) {
    forall h :: h in hosts ==> Located(h)
  }

  lemma {:induction false} InDcElems(hosts: seq<Host>, dc: Dc)
    ensures forall h :: h in InDc(hosts, dc) <==> h in hosts && h.datacenter == dc
    ensures Distinct(hosts) ==> Distinct(InDc(hosts, dc))
  {
    if hosts != [] {
      InDcElems(hosts[..|hosts| - 1], dc);
    }
  }

  /** The walk meets every token of the datacenter once. */
  lemma WalkMeetsEveryToken(owners: seq<Host>, i: nat, dc: Dc)
    requires i <= |owners|
    ensures multiset(DcWalk(owners, i, dc)) == multiset(InDc(owners, dc))
    ensures Elems(DcWalk(owners, i, dc)) == Elems(InDc(owners, dc))
    ensures Distinct(owners) ==> Distinct(DcWalk(owners, i, dc))
  {
    hide InDc, DcWalk, Distinct, Elems;
    CycleIsWalk(owners, dc, i);
    InDcElems(owners, dc);
    var s, n := InDc(owners, dc), |InDc(owners[..i], dc)|;
    RotateKeeps(s[..n], s[n..]);
    assert s == s[..n] + s[n..];
  }

  lemma RotateKeeps(a: seq<Host>, b: seq<Host>)
    ensures multiset(b + a) == multiset(a + b) && Elems(b + a) == Elems(a + b)
    ensures Distinct(a + b) ==> Distinct(b + a)
  {
    ElemsConcat(a, b);
    ElemsConcat(b, a);
    hide Elems, Distinct;
    DistinctCardinality(a + b);
    DistinctCardinality(b + a);
  }

  lemma LocatedCounts(owners: seq<Host>, i: nat, dc: Dc)
    requires i <= |owners| && AllLocated(owners)
    ensures DcRacks(owners, dc) == Racks(DcWalk(owners, i, dc)) == Racks(InDc(owners, dc))
    ensures DcHosts(owners, dc) == Elems(DcWalk(owners, i, dc))
  {
    WalkMeetsEveryToken(owners, i, dc);
    InDcElems(owners, dc);
    var w, s := DcWalk(owners, i, dc), InDc(owners, dc);
    forall h ensures h in w <==> h in s { assert h in Elems(w) <==> h in Elems(s); }
    assert DcHosts(owners, dc) == Elems(s);
    assert DcRacks(owners, dc) == Racks(s);
    RacksMonotone(w, s);
    RacksMonotone(s, w);
  }

  /** Hosts of other datacenters already among the replicas change nothing. */
  lemma {:induction false} OthersDoNotMatter(before: seq<Host>, rf: nat, w: seq<Host>, rackCount: nat, hostCount: nat)
    requires forall h :: h in w ==> h !in before
    ensures var s, t := VisitAll(Start(before, rf), w, rackCount, hostCount),
            VisitAll(Start([], rf), w, rackCount, hostCount);
            s == t.(replicas := before + t.replicas)
  {
    hide Visit;
    if w != [] {
      var front, h := w[..|w| - 1], w[|w| - 1];
      OthersDoNotMatter(before, rf, front, rackCount, hostCount);
      OthersDoNotMatterOnce(before, VisitAll(Start([], rf), front, rackCount, hostCount), h, rackCount, hostCount);
    }
  }

  lemma OthersDoNotMatterOnce(before: seq<Host>, t: Walk, h: Host, rackCount: nat, hostCount: nat)
    requires h !in before && t.remaining >= 0
    ensures var t' := Visit(t, h, rackCount, hostCount);
            Visit(t.(replicas := before + t.replicas), h, rackCount, hostCount) == t'.(replicas := before + t'.replicas)
  {
  }

  /** What a datacenter contributes at a ring position. */
  function Contribution(factors: map<string, int>, owners: seq<Host>, i: nat, dc: Dc): seq<Host>
    requires i <= |owners|
  {
    if Replicated(factors, dc) then Share(DcWalk(owners, i, dc), factors[dc.value]) else []
  }

  lemma ContributionFromDc(factors: map<string, int>, owners: seq<Host>, i: nat, dc: Dc)
    requires i <= |owners|
    ensures forall h :: h in Contribution(factors, owners, i, dc) ==> h in owners && h.datacenter == dc
  {
    if Replicated(factors, dc) {
      var w := DcWalk(owners, i, dc);
      ShareBounds(w, factors[dc.value]);
      WalkMeetsEveryToken(owners, i, dc);
      InDcElems(owners, dc);
      forall h | h in Share(w, factors[dc.value]) ensures h in owners && h.datacenter == dc {
        assert h in Elems(Share(w, factors[dc.value]));
        assert h in Elems(InDc(owners, dc));
      }
    }
  }

  lemma PlaceDcAppends(before: seq<Host>, factors: map<string, int>, owners: seq<Host>, i: nat, dc: Dc)
    requires i <= |owners| && AllLocated(owners)
    requires forall h :: h in before ==> h.datacenter != dc
    ensures PlaceDc(before, factors, owners, i, dc) == before + Contribution(factors, owners, i, dc)
  {
    if Replicated(factors, dc) {
      var w := DcWalk(owners, i, dc);
      LocatedCounts(owners, i, dc);
      WalkMeetsEveryToken(owners, i, dc);
      InDcElems(owners, dc);
      forall h | h in w ensures h !in before {
        assert h in Elems(w);
        assert h in InDc(owners, dc);
      }
      OthersDoNotMatter(before, factors[dc.value], w, |Racks(w)|, |Elems(w)|);
    }
  }

  lemma AllInDc(hosts: seq<Host>, dc: Dc, other: Dc)
    requires forall h :: h in hosts ==> h.datacenter == dc
    ensures InDc(hosts, other) == if other == dc then hosts else []
  {
    if hosts != [] {
      AllInDc(hosts[..|hosts| - 1], dc, other);
      assert hosts == hosts[..|hosts| - 1] + [hosts[|hosts| - 1]];
    }
  }

  lemma InDcNothing(dc: Dc)
    ensures InDc([], dc) == []
  {
  }

  lemma {:induction false} PlaceDcsByDc(factors: map<string, int>, owners: seq<Host>, i: nat, dcs: seq<Dc>, dc: Dc)
    requires i <= |owners| && AllLocated(owners) && Distinct(dcs)
    ensures forall h :: h in PlaceDcs([], factors, owners, i, dcs) ==> h.datacenter in dcs
    ensures InDc(PlaceDcs([], factors, owners, i, dcs), dc) ==
            if dc in dcs then Contribution(factors, owners, i, dc) else []
  {
    hide Contribution, InDc, AllLocated, PlaceDc;
    if dcs == [] {
      InDcNothing(dc);
    } else {
      var front, last := dcs[..|dcs| - 1], dcs[|dcs| - 1];
      PlaceDcsByDc(factors, owners, i, front, dc);
      var before := PlaceDcs([], factors, owners, i, front);
      assert last !in front;
      PlaceDcAppends(before, factors, owners, i, last);
      var more := Contribution(factors, owners, i, last);
      ContributionFromDc(factors, owners, i, last);
      InDcConcat(before, more, dc);
      AllInDc(more, last, dc);
    }
  }

  lemma {:induction false} MapAfterAt(factors: map<string, int>, owners: seq<Host>, ring: seq<Token>, n: nat, i: nat)
    requires |owners| == |ring| && i < n <= |ring| && Distinct(ring)
    ensures ring[i] in MapAfter(factors, owners, ring, n)
    ensures MapAfter(factors, owners, ring, n)[ring[i]] == PlaceDcs([], factors, owners, i, DcOrder(owners))
  {
    if i == n - 1 {
      MapAfterKeys(factors, owners, ring, n - 1);
    } else {
      MapAfterAt(factors, owners, ring, n - 1, i);
    }
  }

  lemma {:induction false} MapAfterKeys(factors: map<string, int>, owners: seq<Host>, ring: seq<Token>, n: nat)
    requires |owners| == |ring| && n <= |ring|
    ensures MapAfter(factors, owners, ring, n).Keys == Elems(ring[..n])
  {
    if n > 0 {
      MapAfterKeys(factors, owners, ring, n - 1);
      assert ring[..n] == ring[..n - 1] + [ring[n - 1]];
      ElemsAppend(ring[..n - 1], ring[n - 1]);
    }
  }

  /** On a ring of distinct tokens whose owners all have a datacenter and a rack, the replicas
      of a datacenter at a ring position are those that the naive clockwise scan through that
      datacenter hands out, and datacenters without a positive factor have none. */
  lemma ReplicasByDc(factors: map<string, int>, owner: map<Token, Host>, ring: seq<Token>, i: nat, dc: Dc)
    requires Owned(owner, ring) && Distinct(ring) && i < |ring| && AllLocated(Owners(owner, ring))
    ensures ring[i] in ReplicaMapOf(factors, owner, ring)
    ensures InDc(ReplicaMapOf(factors, owner, ring)[ring[i]], dc) == Contribution(factors, Owners(owner, ring), i, dc)
  {
    hide Owners, MapAfter, PlaceDcs, Contribution, InDc, DcOrder, Distinct;
    var owners := Owners(owner, ring);
    MapAfterAt(factors, owners, ring, |ring|, i);
    DcOrderLists(owners);
    PlaceDcsByDc(factors, owners, i, DcOrder(owners), dc);
    if dc !in DcOrder(owners) {
      AbsentDc(factors, owners, i, dc);
    }
  }

  lemma AbsentDc(factors: map<string, int>, owners: seq<Host>, i: nat, dc: Dc)
    requires i <= |owners| && dc !in DcOrder(owners)
    ensures Contribution(factors, owners, i, dc) == []
  {
    hide DcOrder, DcWalk, InDc, Elems, Distinct, Share;
    DcOrderLists(owners);
    WalkMeetsEveryToken(owners, i, dc);
    NoTokens(owners, dc);
    NothingInCommon(DcWalk(owners, i, dc));
    NothingShared(if Replicated(factors, dc) then factors[dc.value] else 0);
  }

  lemma NothingInCommon(w: seq<Host>)
    requires multiset(w) == multiset([])
    ensures w == []
  {
    assert |w| == |multiset(w)|;
  }

  lemma NothingShared(rf: int)
    requires rf >= 0
    ensures Share([], rf) == []
  {
  }

  /** The promises of the strategy, datacenter by datacenter: how many replicas, on how many
      racks, and exactly when they are distinct hosts and as many as can be. */
  lemma ReplicasOfDatacenter(factors: map<string, int>, owner: map<Token, Host>, ring: seq<Token>, i: nat, name: string)
    requires Owned(owner, ring) && Distinct(ring) && i < |ring| && AllLocated(Owners(owner, ring))
    requires name in factors && factors[name] > 0
    ensures ring[i] in ReplicaMapOf(factors, owner, ring)
    ensures var owners, rf := Owners(owner, ring), factors[name];
            var mine := InDc(ReplicaMapOf(factors, owner, ring)[ring[i]], Some(name));
            var tokens := InDc(owners, Some(name));
            var walk := DcWalk(owners, i, Some(name));
            && |mine| <= rf
            && |Racks(mine)| == Min(rf, |Racks(tokens)|)
            && (Distinct(mine) <==> Distinct(Take(Spares(walk[..Cover(walk)]), rf - |Racks(walk)|)))
            && (|mine| == Min(rf, |Elems(tokens)|) <==> rf <= |Elems(tokens)| || Distinct(Spares(walk[..Cover(walk)])))
            && (Distinct(owners) ==> Distinct(mine) && |mine| == Min(rf, |tokens|))
  {
    hide Share, Racks, Spares, Cover, DcWalk, InDc, ReplicaMapOf, Distinct, Elems, AllLocated;
    var owners, rf, dc := Owners(owner, ring), factors[name], Some(name);
    var w := DcWalk(owners, i, dc);
    ReplicasByDc(factors, owner, ring, i, dc);
    ShareBounds(w, rf);
    ShareCoversRacks(w, rf);
    ShareDistinct(w, rf);
    ShareCount(w, rf);
    LocatedCounts(owners, i, dc);
    WalkMeetsEveryToken(owners, i, dc);
    assert |w| == |multiset(w)| == |multiset(InDc(owners, dc))| == |InDc(owners, dc)|;
    if Distinct(owners) {
      ShareWithOneTokenPerHost(w, rf);
    }
  }

  /** The shares of several datacenters, one after the other. */
  function Contributions(factors: map<string, int>, owners: seq<Host>, i: nat, dcs: seq<Dc>): seq<Host>
    requires i <= |owners|
  {
    if dcs == [] then []
    else Contributions(factors, owners, i, dcs[..|dcs| - 1]) + Contribution(factors, owners, i, dcs[|dcs| - 1])
  }

  lemma {:induction false} PlaceDcsConcatenates(factors: map<string, int>, owners: seq<Host>, i: nat, dcs: seq<Dc>)
    requires i <= |owners| && AllLocated(owners) && Distinct(dcs)
    ensures PlaceDcs([], factors, owners, i, dcs) == Contributions(factors, owners, i, dcs)
  {
    hide Contribution, AllLocated, PlaceDc;
    if dcs != [] {
      var front, last := dcs[..|dcs| - 1], dcs[|dcs| - 1];
      PlaceDcsConcatenates(factors, owners, i, front);
      PlaceDcsByDc(factors, owners, i, front, last);
      assert last !in front;
      PlaceDcAppends(PlaceDcs([], factors, owners, i, front), factors, owners, i, last);
    }
  }

  /** The whole list of a ring position: the datacenters' shares, in the order in which the ring first
      mentions the datacenters. */
  lemma ReplicasConcatenate(factors: map<string, int>, owner: map<Token, Host>, ring: seq<Token>, i: nat)
    requires Owned(owner, ring) && Distinct(ring) && i < |ring| && AllLocated(Owners(owner, ring))
    ensures ring[i] in ReplicaMapOf(factors, owner, ring)
    ensures var owners := Owners(owner, ring);
            ReplicaMapOf(factors, owner, ring)[ring[i]] == Contributions(factors, owners, i, DcOrder(owners))
  {
    hide Owners, MapAfter, PlaceDcs, Contribution, DcOrder, Distinct, Contributions;
    var owners := Owners(owner, ring);
    MapAfterAt(factors, owners, ring, |ring|, i);
    DcOrderLists(owners);
    PlaceDcsConcatenates(factors, owners, i, DcOrder(owners));
  }

  /** The datacenter's part of a list, counted. */
  lemma {:induction false} InDcCounts(hosts: seq<Host>, dc: Dc, h: Host)
    ensures multiset(InDc(hosts, dc))[h] == if h.datacenter == dc then multiset(hosts)[h] else 0
  {
    if hosts != [] {
      var front, last := hosts[..|hosts| - 1], hosts[|hosts| - 1];
      InDcCounts(front, dc, h);
      assert hosts == front + [last];
    }
  }

  /** Replicas are owners of tokens. */
  lemma ReplicasAreOwners(factors: map<string, int>, owner: map<Token, Host>, ring: seq<Token>, i: nat, h: Host)
    requires Owned(owner, ring) && Distinct(ring) && i < |ring| && AllLocated(Owners(owner, ring))
    requires ring[i] in ReplicaMapOf(factors, owner, ring) && h in ReplicaMapOf(factors, owner, ring)[ring[i]]
    ensures h in Owners(owner, ring)
  {
    hide ReplicaMapOf, InDc, Contribution;
    ReplicasByDc(factors, owner, ring, i, h.datacenter);
    InDcElems(ReplicaMapOf(factors, owner, ring)[ring[i]], h.datacenter);
    ContributionFromDc(factors, Owners(owner, ring), i, h.datacenter);
  }

  // --------------------------------------------------------------- a host that is listed twice

  const REPEAT_RING: seq<Token> := [0, 1, 2, 3]

  /** The second host owns two neighbouring tokens before the second rack is met. */
  function RepeatOwner(a: Host, b: Host, c: Host): map<Token, Host> {
    map[0 := a, 1 := b, 2 := b, 3 := c]
  }

  /** On this ring the finished map lists a host twice among the replicas of the first token. */
  lemma HostListedTwice(a: Host, b: Host, c: Host, dc: string)
    requires Located(a) && Located(b) && Located(c)
    requires a.datacenter == b.datacenter == c.datacenter == Some(dc)
    requires a != b && a.rack == b.rack && b.rack != c.rack
    ensures Owned(RepeatOwner(a, b, c), REPEAT_RING)
    ensures var m := ReplicaMapOf(map[dc := 4], RepeatOwner(a, b, c), REPEAT_RING);
            0 in m && m[0] == [a, c, b, b]
  {
    hide DcOrder, PlaceDcs, InDc, MapAfter, Share, DcWalk;
    var owner, factors := RepeatOwner(a, b, c), map[dc := 4];
    var owners := Owners(owner, REPEAT_RING);
    assert owners == [a, b, b, c];
    MapAfterAt(factors, owners, REPEAT_RING, 4, 0);
    DcOrderLists(owners);
    PlaceDcsByDc(factors, owners, 0, DcOrder(owners), Some(dc));
    OnlyOneDc(factors, owners, dc);
    ReplicasByDc(factors, owner, REPEAT_RING, 0, Some(dc));
    WalkOfOneDc(owners, dc);
    ShareCanRepeatAHost(a, b, c);
  }

  lemma OnlyOneDc(factors: map<string, int>, owners: seq<Host>, dc: string)
    requires AllLocated(owners) && forall h :: h in owners ==> h.datacenter == Some(dc)
    ensures var rs := PlaceDcs([], factors, owners, 0, DcOrder(owners)); InDc(rs, Some(dc)) == rs
  {
    hide DcOrder, PlaceDcs, InDc, AllLocated, Distinct;
    DcOrderLists(owners);
    DcsOfOne(owners, dc);
    var rs := PlaceDcs([], factors, owners, 0, DcOrder(owners));
    PlaceDcsByDc(factors, owners, 0, DcOrder(owners), Some(dc));
    AllInDc(rs, Some(dc), Some(dc));
  }

  lemma {:induction false} DcsOfOne(owners: seq<Host>, dc: string)
    requires forall h :: h in owners ==> h.datacenter == Some(dc)
    ensures forall other :: other in DcOrder(owners) ==> other == Some(dc)
  {
    if owners != [] { DcsOfOne(owners[..|owners| - 1], dc); }
  }

  lemma WalkOfOneDc(owners: seq<Host>, dc: string)
    requires forall h :: h in owners ==> h.datacenter == Some(dc)
    ensures DcWalk(owners, 0, Some(dc)) == owners
  {
    assert Rotate(owners, 0) == owners;
    AllInDc(owners, Some(dc), Some(dc));
  }
}
