/** `TokenMap` and the part of `Metadata` that keeps it: the lookup of a token's replicas
    and the lazily built replica map of each keyspace. */
module TokenMaps {
  import opened Seqs
  import opened Topology
  import SimpleStrategy
  import NetworkTopology
  import RackSpread

  datatype Strategy =
    | Simple(replicationFactor: int)
    | PerDatacenter(factors: map<string, int>)
    | Local
    | Unknown(name: string, options: map<string, string>)

  /** `KeyspaceMetadata`: the strategy is absent when it could not be created. */
  datatype Keyspace = Keyspace(name: string, strategy: Option<Strategy>)

  type Cache = map<string, Option<ReplicaMap>>

  /** The part of a token map that never changes: the sorted ring and the token owners. */
  datatype Ring = Ring(owner: map<Token, Host>, tokens: seq<Token>)

  predicate Sorted(tokens: seq<Token>) {
    forall i, j :: 0 <= i < j < |tokens| ==> tokens[i] <= tokens[j]
  }

  predicate ValidRing(r: Ring) {
    Owned(r.owner, r.tokens) && Sorted(r.tokens)
  }

  // --------------------------------------------------------------- without any cache

  /** `replica_map_for_keyspace`, computed afresh. */
  function FreshMap(r: Ring, strategy: Option<Strategy>): Option<ReplicaMap>
    requires ValidRing(r)
  {
    match strategy
    case None => None
    case Some(Simple(rf)) => Some(SimpleStrategy.ReplicaMapOf(rf, r.owner, r.tokens))
    case Some(PerDatacenter(factors)) => Some(NetworkTopology.ReplicaMapOf(factors, r.owner, r.tokens))
    case Some(Local) => Some(map[])
    case Some(Unknown(_, _)) => Some(map[])
  }

  /** The linear scan: how many ring tokens are at or before the given one. */
  function TokensUpTo(tokens: seq<Token>, token: Token): (n: nat)
    ensures n <= |tokens|
  {
    if tokens == [] || token < tokens[0] then 0 else 1 + TokensUpTo(tokens[1..], token)
  }

  /** The ring position that owns a token: the first ring token strictly after it, or the
      first of all when there is none. */
  function Position(tokens: seq<Token>, token: Token): (i: nat)
    requires tokens != []
    ensures i < |tokens|
  {
    var n := TokensUpTo(tokens, token);
    if n == |tokens| then 0 else n
  }

  function ReadMap(r: Ring, m: Option<ReplicaMap>, token: Token): seq<Host>
    requires ValidRing(r) && (m.Some? && m.value != map[] ==> r.tokens != [] && m.value.Keys == Elems(r.tokens))
  {
    if m.Some? && m.value != map[] then m.value[r.tokens[Position(r.tokens, token)]] else []
  }

  /** The replicas of a token, by building the keyspace's map on the spot. */
  function FreshReplicas(r: Ring, keyspaces: map<string, Keyspace>, name: string, token: Token): seq<Host>
    requires ValidRing(r)
  {
    if name in keyspaces then
      FreshMapKeys(r, keyspaces[name].strategy);
      ReadMap(r, FreshMap(r, keyspaces[name].strategy), token)
    else []
  }

  lemma FreshMapKeys(r: Ring, strategy: Option<Strategy>)
    requires ValidRing(r)
    ensures var m := FreshMap(r, strategy);
            m.Some? && m.value != map[] ==> r.tokens != [] && m.value.Keys == Elems(r.tokens)
  {
    var owners, n := Owners(r.owner, r.tokens), |r.tokens|;
    assert r.tokens[..n] == r.tokens;
    match strategy
    case Some(Simple(rf)) => SimpleStrategy.MapAfterKeys(rf, owners, r.tokens, n);
    case Some(PerDatacenter(factors)) => NetworkTopology.MapAfterKeys(factors, owners, r.tokens, n);
    case _ =>
  }

  /** Under a simple strategy the replicas of any token are the first distinct owners met
      clockwise from the least ring token strictly after it. */
  lemma SimpleLookup(r: Ring, keyspaces: map<string, Keyspace>, name: string, token: Token)
    requires ValidRing(r) && Distinct(r.tokens) && r.tokens != []
    requires name in keyspaces && keyspaces[name].strategy.Some? && keyspaces[name].strategy.value.Simple?
    ensures FreshReplicas(r, keyspaces, name, token) ==
            SimpleStrategy.NextOwners(keyspaces[name].strategy.value.replicationFactor, Owners(r.owner, r.tokens),
                                      Position(r.tokens, token))
  {
    var rf, i := keyspaces[name].strategy.value.replicationFactor, Position(r.tokens, token);
    SimpleStrategy.MapAfterAt(rf, Owners(r.owner, r.tokens), r.tokens, |r.tokens|, i);
    FreshMapKeys(r, keyspaces[name].strategy);
  }

  /** The owning position is the least ring token strictly after the given one. */
  lemma {:induction false} TokensUpToSplits(tokens: seq<Token>, token: Token)
    requires Sorted(tokens)
    ensures forall k :: 0 <= k < TokensUpTo(tokens, token) ==> tokens[k] <= token
    ensures forall k :: TokensUpTo(tokens, token) <= k < |tokens| ==> token < tokens[k]
  {
    if tokens != [] && tokens[0] <= token {
      TokensUpToSplits(tokens[1..], token);
      forall k | TokensUpTo(tokens, token) <= k < |tokens| ensures token < tokens[k] {
        assert tokens[k] == tokens[1..][k - 1];
      }
    } else if tokens != [] {
      forall k | 0 <= k < |tokens| ensures token < tokens[k] {
        assert k > 0 ==> tokens[0] <= tokens[k];
      }
    }
  }

  /** Under a simple strategy any token has as many replicas as the factor asks for or the ring has
      owners, all distinct: those met first clockwise from the least ring token strictly after it,
      or from the start of the ring when there is none. */
  lemma SimpleReplicas(r: Ring, keyspaces: map<string, Keyspace>, name: string, token: Token) returns (i: nat)
    requires ValidRing(r) && Distinct(r.tokens) && r.tokens != []
    requires name in keyspaces && keyspaces[name].strategy.Some? && keyspaces[name].strategy.value.Simple?
    ensures i < |r.tokens|
    ensures if exists t <- r.tokens :: token < t
            then token < r.tokens[i] && (forall t <- r.tokens :: token < t ==> r.tokens[i] <= t)
            else i == 0
    ensures var replicas := FreshReplicas(r, keyspaces, name, token);
            var rf, owners := Max(0, keyspaces[name].strategy.value.replicationFactor), Owners(r.owner, r.tokens);
            && Distinct(replicas) && |replicas| == Min(rf, |Elems(owners)|)
            && (exists n :: 0 <= n <= |owners| && Elems(replicas) == Elems(Rotate(owners, i)[..n]))
            && replicas <= Dedup(Rotate(owners, i))
  {
    hide FreshReplicas, Distinct, Elems, Dedup, TokensUpTo;
    var rf, owners := keyspaces[name].strategy.value.replicationFactor, Owners(r.owner, r.tokens);
    i := Position(r.tokens, token);
    LeastAfter(r.tokens, token);
    SimpleLookup(r, keyspaces, name, token);
    SimpleStrategy.NextOwnersFacts(Max(0, rf), owners, i);
    assert SimpleStrategy.NextOwners(rf, owners, i) == SimpleStrategy.NextOwners(Max(0, rf), owners, i);
  }

  /** And they come in the order in which the walk first meets them. */
  lemma SimpleReplicasInOrder(r: Ring, keyspaces: map<string, Keyspace>, name: string, token: Token)
    returns (i: nat, at: seq<nat>)
    requires ValidRing(r) && Distinct(r.tokens) && r.tokens != []
    requires name in keyspaces && keyspaces[name].strategy.Some? && keyspaces[name].strategy.value.Simple?
    ensures OwningPosition(r.tokens, token, i)
    ensures var replicas, walk := FreshReplicas(r, keyspaces, name, token), Rotate(Owners(r.owner, r.tokens), i);
            Embeds(replicas, walk, at) && forall k <- at :: walk[k] !in walk[..k]
  {
    hide FreshReplicas, Distinct, Dedup, TokensUpTo;
    var owners := Owners(r.owner, r.tokens);
    i := Position(r.tokens, token);
    LeastAfter(r.tokens, token);
    SimpleLookup(r, keyspaces, name, token);
    var walk := Rotate(owners, i);
    var all := DedupInOrder(walk);
    var replicas := FreshReplicas(r, keyspaces, name, token);
    at := all[..|replicas|];
  }

  lemma LeastAfter(tokens: seq<Token>, token: Token)
    requires Sorted(tokens) && tokens != []
    ensures var i := Position(tokens, token);
            if exists t <- tokens :: token < t
            then token < tokens[i] && (forall t <- tokens :: token < t ==> tokens[i] <= t)
            else i == 0
  {
    hide TokensUpTo;
    TokensUpToSplits(tokens, token);
    var n := TokensUpTo(tokens, token);
    if n < |tokens| {
      assert tokens[n] in tokens;
      forall t | t in tokens && token < t
        ensures tokens[n] <= t
      {
        var k :| 0 <= k < |tokens| && tokens[k] == t;
        assert n <= k;
      }
    }
  }

  /** The position of the least ring token strictly after the given one, or the first of all when
      there is none. */
  ghost predicate OwningPosition(tokens: seq<Token>, token: Token, i: nat) {
    && i < |tokens|
    && (if exists t <- tokens :: token < t
        then token < tokens[i] && (forall t <- tokens :: token < t ==> tokens[i] <= t)
        else i == 0)
  }

  predicate HasStrategy(keyspaces: map<string, Keyspace>, name: string) {
    name in keyspaces && keyspaces[name].strategy.Some?
  }

  /** A ring whose tokens differ and whose hosts all have a datacenter and a rack. */
  ghost predicate Regular(r: Ring) {
    ValidRing(r) && Distinct(r.tokens) && r.tokens != [] && NetworkTopology.AllLocated(Owners(r.owner, r.tokens))
  }

  /** What one datacenter owes a ring position: the first entries, as many as its factor, of the
      closed form on the clockwise walk through its tokens: one host per rack, then the hosts passed
      over, then the others. Nothing without a positive factor. */
  function Owes(r: Ring, factors: map<string, int>, i: nat, dc: Option<string>): seq<Host>
    requires ValidRing(r) && i <= |r.tokens|
  {
    if dc.Some? && dc.value in factors && factors[dc.value] > 0
    then Take(RackSpread.Order(NetworkTopology.DcWalk(Owners(r.owner, r.tokens), i, dc)), factors[dc.value])
    else []
  }

  lemma NetworkLookup(r: Ring, keyspaces: map<string, Keyspace>, name: string, token: Token)
    requires Regular(r) && HasStrategy(keyspaces, name) && keyspaces[name].strategy.value.PerDatacenter?
    ensures var factors, i := keyspaces[name].strategy.value.factors, Position(r.tokens, token);
            var m := NetworkTopology.ReplicaMapOf(factors, r.owner, r.tokens);
            r.tokens[i] in m && FreshReplicas(r, keyspaces, name, token) == m[r.tokens[i]]
  {
    hide NetworkTopology.ReplicaMapOf, NetworkTopology.AllLocated, Position, Distinct;
    var factors := keyspaces[name].strategy.value.factors;
    NetworkTopology.ReplicasByDc(factors, r.owner, r.tokens, Position(r.tokens, token), None);
    FreshMapKeys(r, keyspaces[name].strategy);
  }

  /** Under a strategy per datacenter, the replicas of any token that lie in a datacenter are what
      that datacenter owes the token's ring position; they lie on as many racks as the factor
      allows, and every replica is of a datacenter with a positive factor. */
  lemma NetworkReplicas(r: Ring, keyspaces: map<string, Keyspace>, name: string, token: Token, dc: string)
    returns (i: nat)
    requires Regular(r) && HasStrategy(keyspaces, name) && keyspaces[name].strategy.value.PerDatacenter?
    ensures OwningPosition(r.tokens, token, i) && i == Position(r.tokens, token)
    ensures var factors, owners := keyspaces[name].strategy.value.factors, Owners(r.owner, r.tokens);
            var replicas := FreshReplicas(r, keyspaces, name, token);
            var mine := NetworkTopology.InDc(replicas, Some(dc));
            && mine == Owes(r, factors, i, Some(dc))
            && (dc in factors && factors[dc] > 0 ==>
                  |RackSpread.Racks(mine)| ==
                  Min(factors[dc], |RackSpread.Racks(NetworkTopology.InDc(owners, Some(dc)))|))
            && (forall h <- replicas :: NetworkTopology.Replicated(factors, h.datacenter) && h in owners)
            && replicas == NetworkTopology.Contributions(factors, owners, i, NetworkTopology.DcOrder(owners))
  {
    hide FreshReplicas, NetworkTopology.ReplicaMapOf, NetworkTopology.InDc, NetworkTopology.AllLocated, Distinct,
      NetworkTopology.DcWalk, RackSpread.Order, RackSpread.Share, RackSpread.Racks, NetworkTopology.Contributions,
      NetworkTopology.DcOrder, Position;
    var factors, owners := keyspaces[name].strategy.value.factors, Owners(r.owner, r.tokens);
    i := Position(r.tokens, token);
    LeastAfter(r.tokens, token);
    NetworkLookup(r, keyspaces, name, token);
    var replicas := FreshReplicas(r, keyspaces, name, token);
    NetworkTopology.ReplicasConcatenate(factors, r.owner, r.tokens, i);
    SharedIsOwed(r, factors, i, Some(dc));
    if dc in factors && factors[dc] > 0 {
      NetworkTopology.ReplicasOfDatacenter(factors, r.owner, r.tokens, i, dc);
    }
    forall h <- replicas
      ensures NetworkTopology.Replicated(factors, h.datacenter) && h in owners
    {
      NetworkTopology.ReplicasAreOwners(factors, r.owner, r.tokens, i, h);
      SharedIsOwed(r, factors, i, h.datacenter);
      NetworkTopology.InDcElems(replicas, h.datacenter);
    }
  }

  lemma SharedIsOwed(r: Ring, factors: map<string, int>, i: nat, dc: Option<string>)
    requires Regular(r) && i < |r.tokens|
    ensures r.tokens[i] in NetworkTopology.ReplicaMapOf(factors, r.owner, r.tokens)
    ensures NetworkTopology.InDc(NetworkTopology.ReplicaMapOf(factors, r.owner, r.tokens)[r.tokens[i]], dc) ==
            Owes(r, factors, i, dc)
  {
    hide NetworkTopology.ReplicaMapOf, NetworkTopology.InDc, NetworkTopology.DcWalk, RackSpread.Order,
      RackSpread.Share;
    NetworkTopology.ReplicasByDc(factors, r.owner, r.tokens, i, dc);
    if NetworkTopology.Replicated(factors, dc) {
      RackSpread.ShareIsOrder(NetworkTopology.DcWalk(Owners(r.owner, r.tokens), i, dc), factors[dc.value]);
    }
  }

  /** A local strategy, an unknown one, none, and an unknown keyspace have no replicas. */
  lemma NoReplicas(r: Ring, keyspaces: map<string, Keyspace>, name: string, token: Token)
    requires ValidRing(r)
    requires HasStrategy(keyspaces, name) ==>
               keyspaces[name].strategy.value.Local? || keyspaces[name].strategy.value.Unknown?
    ensures FreshReplicas(r, keyspaces, name, token) == []
  {
  }

  /** `bisect_right`. */
  method BisectRight(tokens: seq<Token>, token: Token) returns (point: nat)
    requires Sorted(tokens)
    ensures point == TokensUpTo(tokens, token)
  {
    var lo, hi := 0, |tokens|;
    while lo < hi
      invariant 0 <= lo <= hi <= |tokens|
      invariant forall k :: 0 <= k < lo ==> tokens[k] <= token
      invariant forall k :: hi <= k < |tokens| ==> token < tokens[k]
    {
      var mid := (lo + hi) / 2;
      if token < tokens[mid] { hi := mid; } else { lo := mid + 1; }
    }
    point := lo;
    TokensUpToSplits(tokens, token);
    assert point < |tokens| ==> token < tokens[point];
    assert point > 0 ==> tokens[point - 1] <= token;
  }

  // ------------------------------------------------------------------- the cache as a value

  function Cached(cache: Cache, name: string): Option<ReplicaMap> {
    if name in cache then cache[name] else None
  }

  /** `rebuild_keyspace`. */
  function Rebuild(r: Ring, keyspaces: map<string, Keyspace>, cache: Cache, name: string, buildIfAbsent: bool): Cache
    requires ValidRing(r)
  {
    var current := Cached(cache, name);
    if (buildIfAbsent && current.None?) || (!buildIfAbsent && current.Some?) then
      if name in keyspaces then cache[name := FreshMap(r, keyspaces[name].strategy)] else cache
    else cache
  }

  /** What `Metadata` knows. Without a ring there is no token map and no cache. */
  datatype State = State(keyspaces: map<string, Keyspace>, ring: Option<Ring>, cache: Cache)

  ghost predicate WellFormed(s: State) {
    s.ring.Some? ==> ValidRing(s.ring.value)
  }

  /** `_keyspace_added` and `_keyspace_updated`. */
  function Refresh(s: State, name: string): State
    requires s.ring.Some? ==> ValidRing(s.ring.value)
  {
    if s.ring.Some? then s.(cache := Rebuild(s.ring.value, s.keyspaces, s.cache, name, false)) else s
  }

  /** `_update_keyspace`: an unchanged strategy leaves the cache alone. */
  function Update(s: State, ks: Keyspace): State
    requires s.ring.Some? ==> ValidRing(s.ring.value)
  {
    var s' := s.(keyspaces := s.keyspaces[ks.name := ks]);
    if ks.name in s.keyspaces && s.keyspaces[ks.name].strategy == ks.strategy then s'
    else Refresh(s', ks.name)
  }

  function Forget(s: State, names: set<string>): State {
    s.(cache := if s.ring.Some? then s.cache - names else s.cache)
  }

  /** `_drop_keyspace`. */
  function Drop(s: State, name: string): State {
    if name in s.keyspaces then Forget(s.(keyspaces := s.keyspaces - {name}), {name}) else s
  }

  /** The first loop of `_rebuild_all`. */
  function ReplaceAll(s: State, metas: seq<Keyspace>): (s': State)
    requires s.ring.Some? ==> ValidRing(s.ring.value)
    ensures s'.ring == s.ring
  {
    if metas == [] then s
    else
      var t, ks := ReplaceAll(s, metas[..|metas| - 1]), metas[|metas| - 1];
      Refresh(t.(keyspaces := t.keyspaces[ks.name := ks]), ks.name)
  }

  function Names(metas: seq<Keyspace>): set<string> {
    set ks | ks in metas :: ks.name
  }

  /** `_rebuild_all`: replace what the schema lists, drop what it does not. */
  function RebuildAll(s: State, metas: seq<Keyspace>): State
    requires s.ring.Some? ==> ValidRing(s.ring.value)
  {
    var t := ReplaceAll(s, metas);
    var gone := t.keyspaces.Keys - Names(metas);
    Forget(t.(keyspaces := t.keyspaces - gone), gone)
  }

  /** The effect of a lookup on the cache. */
  function Consult(s: State, name: string): State
    requires s.ring.Some? ==> ValidRing(s.ring.value)
  {
    if s.ring.Some? && Cached(s.cache, name).None? then
      s.(cache := Rebuild(s.ring.value, s.keyspaces, s.cache, name, true))
    else s
  }

  /** `get_replicas` hands out the cached list itself, and the caller may shuffle it in place. */
  function Reorder(cache: Cache, name: string, at: Token, order: seq<Host>): Cache {
    var m := Cached(cache, name);
    if m.Some? && at in m.value && multiset(order) == multiset(m.value[at])
    then cache[name := Some(m.value[at := order])] else cache
  }

  datatype Event =
    | SchemaRead(metas: seq<Keyspace>)
    | KeyspaceChanged(ks: Keyspace)
    | KeyspaceDropped(name: string)
    | TopologyRead(ring: Option<Ring>)
    | ReplicasAsked(name: string)
    | Reordered(name: string, at: Token, order: seq<Host>)

  predicate ValidEvent(e: Event) {
    e.TopologyRead? && e.ring.Some? ==> ValidRing(e.ring.value)
  }

  function Next(s: State, e: Event): (s': State)
    requires (s.ring.Some? ==> ValidRing(s.ring.value)) && ValidEvent(e)
    ensures s'.ring.Some? ==> ValidRing(s'.ring.value)
  {
    match e
    case SchemaRead(metas) => RebuildAll(s, metas)
    case KeyspaceChanged(ks) => Update(s, ks)
    case KeyspaceDropped(name) => Drop(s, name)
    case TopologyRead(ring) => State(s.keyspaces, ring, map[])
    case ReplicasAsked(name) => Consult(s, name)
    case Reordered(name, at, order) => s.(cache := Reorder(s.cache, name, at, order))
  }

  function Run(s: State, events: seq<Event>): (s': State)
    requires s.ring.Some? ==> ValidRing(s.ring.value)
    requires forall e :: e in events ==> ValidEvent(e)
    ensures s'.ring.Some? ==> ValidRing(s'.ring.value)
  {
    if events == [] then s else Next(Run(s, events[..|events| - 1]), events[|events| - 1])
  }

  const EMPTY := State(map[], None, map[])

  /** The same tokens, and for each the same replicas in some order. */
  ghost predicate SameReplicas(m: Option<ReplicaMap>, m': Option<ReplicaMap>) {
    && m.Some? == m'.Some?
    && (m.Some? ==>
          && m.value.Keys == m'.value.Keys
          && (forall t <- m.value :: multiset(m.value[t]) == multiset(m'.value[t])))
  }

  /** Every cached map belongs to a known keyspace and is, up to the order of each list, the map
      its current strategy gives. */
  ghost predicate Coherent(s: State) {
    && WellFormed(s)
    && (forall name :: name in s.cache && s.cache[name].Some? ==>
          && s.ring.Some?
          && name in s.keyspaces
          && SameReplicas(s.cache[name], FreshMap(s.ring.value, s.keyspaces[name].strategy)))
  }

  /** Coherent, with every list in the order in which it was built. */
  ghost predicate InOrder(s: State) {
    && Coherent(s)
    && (forall name :: name in s.cache && s.cache[name].Some? ==>
          s.cache[name] == FreshMap(s.ring.value, s.keyspaces[name].strategy))
  }

  lemma SameAsItself(r: Ring, strategy: Option<Strategy>)
    requires ValidRing(r)
    ensures SameReplicas(FreshMap(r, strategy), FreshMap(r, strategy))
  {
  }

  /** Replacing a keyspace and refreshing its map keeps the cache coherent. */
  lemma ReplaceCoherent(s: State, ks: Keyspace)
    requires Coherent(s)
    ensures Coherent(Refresh(s.(keyspaces := s.keyspaces[ks.name := ks]), ks.name))
    ensures InOrder(s) ==> InOrder(Refresh(s.(keyspaces := s.keyspaces[ks.name := ks]), ks.name))
  {
    hide FreshMap, SameReplicas;
    if s.ring.Some? { SameAsItself(s.ring.value, ks.strategy); }
  }

  lemma {:induction false} ReplaceAllCoherent(s: State, metas: seq<Keyspace>)
    requires Coherent(s)
    ensures Coherent(ReplaceAll(s, metas)) && (InOrder(s) ==> InOrder(ReplaceAll(s, metas)))
  {
    assert s.ring.Some? ==> ValidRing(s.ring.value);
    hide Coherent, InOrder, Refresh;
    if metas != [] {
      ReplaceAllCoherent(s, metas[..|metas| - 1]);
      ReplaceCoherent(ReplaceAll(s, metas[..|metas| - 1]), metas[|metas| - 1]);
    }
  }

  lemma ReorderSame(cache: Cache, name: string, at: Token, order: seq<Host>, other: string, built: Option<ReplicaMap>)
    requires SameReplicas(Cached(cache, other), built)
    ensures SameReplicas(Cached(Reorder(cache, name, at, order), other), built)
  {
  }

  lemma ReorderCoherent(s: State, name: string, at: Token, order: seq<Host>)
    requires Coherent(s)
    ensures Coherent(s.(cache := Reorder(s.cache, name, at, order)))
  {
    hide FreshMap;
  }

  lemma ConsultCoherent(s: State, name: string)
    requires Coherent(s)
    ensures Coherent(Consult(s, name)) && (InOrder(s) ==> InOrder(Consult(s, name)))
  {
    hide FreshMap, SameReplicas;
    if s.ring.Some? && name in s.keyspaces { SameAsItself(s.ring.value, s.keyspaces[name].strategy); }
  }

  lemma UpdateCoherent(s: State, ks: Keyspace)
    requires Coherent(s)
    ensures Coherent(Update(s, ks)) && (InOrder(s) ==> InOrder(Update(s, ks)))
  {
    hide FreshMap, SameReplicas;
    ReplaceCoherent(s, ks);
  }

  lemma NextCoherent(s: State, e: Event)
    requires Coherent(s) && ValidEvent(e)
    ensures Coherent(Next(s, e)) && (InOrder(s) && !e.Reordered? ==> InOrder(Next(s, e)))
  {
    hide FreshMap, SameReplicas;
    match e
    case SchemaRead(metas) => ReplaceAllCoherent(s, metas);
    case KeyspaceChanged(ks) => UpdateCoherent(s, ks);
    case ReplicasAsked(name) => ConsultCoherent(s, name);
    case Reordered(name, at, order) => ReorderCoherent(s, name, at, order);
    case _ =>
  }

  /** Coherence holds after every run of schema reads, keyspace changes, topology reads, lookups
      and shuffles, in any order; and the lists stay as built if nobody shuffles. */
  lemma {:induction false} AlwaysCoherent(s: State, events: seq<Event>)
    requires Coherent(s) && forall e :: e in events ==> ValidEvent(e)
    ensures Coherent(Run(s, events))
    ensures InOrder(s) && (forall e <- events :: !e.Reordered?) ==> InOrder(Run(s, events))
  {
    if events != [] {
      hide Coherent, InOrder, Next;
      assert s.ring.Some? ==> ValidRing(s.ring.value) by { WellFormedRing(s); }
      AlwaysCoherent(s, events[..|events| - 1]);
      NextCoherent(Run(s, events[..|events| - 1]), events[|events| - 1]);
    }
  }

  lemma WellFormedRing(s: State)
    requires Coherent(s)
    ensures s.ring.Some? ==> ValidRing(s.ring.value)
  {
  }

  // ---------------------------------------------------------------- what the metadata knows

  /** The last of the keyspaces with the given name. */
  function Listed(metas: seq<Keyspace>, name: string): Option<Keyspace> {
    if metas == [] then None
    else if metas[|metas| - 1].name == name then Some(metas[|metas| - 1])
    else Listed(metas[..|metas| - 1], name)
  }

  /** What an event says a keyspace is; most say nothing about it. */
  function Says(e: Event, name: string, otherwise: Option<Keyspace>): Option<Keyspace> {
    if e.SchemaRead? then Listed(e.metas, name)
    else if e.KeyspaceChanged? && e.ks.name == name then Some(e.ks)
    else if e.KeyspaceDropped? && e.name == name then None
    else otherwise
  }

  /** What the latest event about a keyspace says it is. */
  function LastWord(events: seq<Event>, name: string): Option<Keyspace> {
    if events == [] then None else Says(events[|events| - 1], name, LastWord(events[..|events| - 1], name))
  }

  /** The ring that was read last. */
  function LastRing(events: seq<Event>): Option<Ring> {
    if events == [] then None
    else if events[|events| - 1].TopologyRead? then events[|events| - 1].ring
    else LastRing(events[..|events| - 1])
  }

  function Known(s: State, name: string): Option<Keyspace> {
    if name in s.keyspaces then Some(s.keyspaces[name]) else None
  }

  lemma {:induction false} ReplaceAllKnows(s: State, metas: seq<Keyspace>, name: string)
    requires s.ring.Some? ==> ValidRing(s.ring.value)
    ensures Known(ReplaceAll(s, metas), name) ==
            if Listed(metas, name).Some? then Listed(metas, name) else Known(s, name)
    ensures name in Names(metas) <==> Listed(metas, name).Some?
  {
    if metas != [] {
      var front, ks := metas[..|metas| - 1], metas[|metas| - 1];
      ReplaceAllKnows(s, front, name);
      assert metas == front + [ks];
      assert Names(metas) == Names(front) + {ks.name} by { NamesAppend(front, ks); }
    }
  }

  lemma NamesAppend(metas: seq<Keyspace>, ks: Keyspace)
    ensures Names(metas + [ks]) == Names(metas) + {ks.name}
  {
    assert ks in metas + [ks];
    forall name ensures name in Names(metas + [ks]) <==> name in Names(metas) + {ks.name} {
      if name in Names(metas) {
        var x :| x in metas && x.name == name;
        assert x in metas + [ks];
      }
    }
  }

  lemma NextKnows(s: State, e: Event, name: string)
    requires WellFormed(s) && ValidEvent(e)
    ensures Known(Next(s, e), name) == Says(e, name, Known(s, name))
    ensures Next(s, e).ring == if e.TopologyRead? then e.ring else s.ring
  {
    hide FreshMap, Rebuild, Reorder;
    if e.SchemaRead? { ReplaceAllKnows(s, e.metas, name); }
  }

  /** After any run the metadata has each keyspace as the latest event about it left it, and the ring
      that was read last. */
  lemma {:induction false} KnowsTheLastWord(events: seq<Event>, name: string)
    requires forall e :: e in events ==> ValidEvent(e)
    ensures Known(Run(EMPTY, events), name) == LastWord(events, name)
    ensures Run(EMPTY, events).ring == LastRing(events)
  {
    hide Next, Known;
    if events == [] {
      assert Known(EMPTY, name) == None by { NothingKnown(name); }
    } else {
      KnowsTheLastWord(events[..|events| - 1], name);
      NextKnows(Run(EMPTY, events[..|events| - 1]), events[|events| - 1], name);
    }
  }

  lemma NothingKnown(name: string)
    ensures Known(EMPTY, name) == None
  {
  }

  /** The answer that `get_replicas` reads from its cache in a state. */
  function Answer(s: State, name: string, token: Token): seq<Host>
    requires s.ring.Some? ==> ValidRing(s.ring.value)
  {
    var m := Cached(Consult(s, name).cache, name);
    if s.ring.Some? && m.Some? && m.value != map[] && s.ring.value.tokens != [] &&
       s.ring.value.tokens[Position(s.ring.value.tokens, token)] in m.value
    then m.value[s.ring.value.tokens[Position(s.ring.value.tokens, token)]]
    else []
  }

  /** What building the map of the keyspace's current strategy on the current ring gives. */
  function FreshAnswer(s: State, name: string, token: Token): seq<Host>
    requires s.ring.Some? ==> ValidRing(s.ring.value)
  {
    if s.ring.Some? then FreshReplicas(s.ring.value, s.keyspaces, name, token) else []
  }

  /** The cache is invisible up to order: after any run, looking a token up gives the replicas that
      a fresh map would give, and in the same order if nobody has shuffled a list. */
  lemma CacheIsTransparent(events: seq<Event>, name: string, token: Token)
    requires forall e :: e in events ==> ValidEvent(e)
    ensures var s := Run(EMPTY, events);
            && multiset(Answer(s, name, token)) == multiset(FreshAnswer(s, name, token))
            && ((forall e <- events :: !e.Reordered?) ==> Answer(s, name, token) == FreshAnswer(s, name, token))
  {
    hide Answer, FreshAnswer;
    AlwaysCoherent(EMPTY, events);
    CoherentAnswer(Run(EMPTY, events), name, token);
  }

  lemma CoherentAnswer(s: State, name: string, token: Token)
    requires Coherent(s)
    ensures multiset(Answer(s, name, token)) == multiset(FreshAnswer(s, name, token))
    ensures InOrder(s) ==> Answer(s, name, token) == FreshAnswer(s, name, token)
  {
    ConsultCoherent(s, name);
    if s.ring.Some? && name in s.keyspaces {
      FreshMapKeys(s.ring.value, s.keyspaces[name].strategy);
      hide FreshMap;
      var m, built := Cached(Consult(s, name).cache, name), FreshMap(s.ring.value, s.keyspaces[name].strategy);
      assert SameReplicas(m, built);
      if m.Some? { assert m.value == map[] <==> m.value.Keys == {}; }
      if m.Some? { assert built.value == map[] <==> built.value.Keys == {}; }
    }
  }

  /** After any run, what a lookup answers under each strategy: up to order the first distinct owners
      from the token's position, or what each datacenter owes that position, or nothing. */
  lemma AnswersAfterAnyRun(events: seq<Event>, name: string, token: Token, dc: string) returns (i: nat)
    requires forall e :: e in events ==> ValidEvent(e)
    requires var s := Run(EMPTY, events); s.ring.Some? && Regular(s.ring.value) && HasStrategy(s.keyspaces, name)
    ensures var s := Run(EMPTY, events);
            var r, answer := s.ring.value, Answer(s, name, token);
            && OwningPosition(r.tokens, token, i)
            && (match s.keyspaces[name].strategy.value
                case Simple(rf) =>
                  multiset(answer) == multiset(SimpleStrategy.NextOwners(rf, Owners(r.owner, r.tokens), i))
                case PerDatacenter(factors) =>
                  && multiset(NetworkTopology.InDc(answer, Some(dc))) == multiset(Owes(r, factors, i, Some(dc)))
                  && (forall h <- answer :: NetworkTopology.Replicated(factors, h.datacenter))
                case _ => answer == [])
  {
    hide Answer, FreshAnswer, Run, Owes, NetworkTopology.InDc, NetworkTopology.AllLocated, Distinct,
      SimpleStrategy.NextOwners, Position, FreshReplicas;
    var s := Run(EMPTY, events);
    var r, answer := s.ring.value, Answer(s, name, token);
    CacheIsTransparent(events, name, token);
    FreshAnswerIs(s, name, token);
    var built := FreshReplicas(r, s.keyspaces, name, token);
    i := Position(r.tokens, token);
    LeastAfter(r.tokens, token);
    match s.keyspaces[name].strategy.value
    case Simple(rf) => SimpleLookup(r, s.keyspaces, name, token);
    case PerDatacenter(factors) =>
      var j := NetworkReplicas(r, s.keyspaces, name, token, dc);
      SameInDc(answer, built, Some(dc));
      forall h <- answer ensures NetworkTopology.Replicated(factors, h.datacenter) {
        assert h in multiset(answer);
        assert h in built;
      }
    case _ =>
      NoReplicas(r, s.keyspaces, name, token);
      assert |answer| == |multiset(answer)| == 0;
  }

  lemma FreshAnswerIs(s: State, name: string, token: Token)
    requires s.ring.Some? && ValidRing(s.ring.value)
    ensures FreshAnswer(s, name, token) == FreshReplicas(s.ring.value, s.keyspaces, name, token)
  {
  }

  lemma SameInDc(a: seq<Host>, b: seq<Host>, dc: Option<string>)
    requires multiset(a) == multiset(b)
    ensures multiset(NetworkTopology.InDc(a, dc)) == multiset(NetworkTopology.InDc(b, dc))
  {
    forall h: Host
      ensures multiset(NetworkTopology.InDc(a, dc))[h] == multiset(NetworkTopology.InDc(b, dc))[h]
    {
      NetworkTopology.InDcCounts(a, dc, h);
      NetworkTopology.InDcCounts(b, dc, h);
    }
  }

  // ------------------------------------------------------------------ when callers shuffle

  /** A ring of two tokens, and a keyspace whose replicas are both its hosts. */
  function TwoHosts(a: Host, b: Host): Ring { Ring(map[0 := a, 1 := b], [0, 1]) }

  function ShuffledRun(a: Host, b: Host): seq<Event> {
    [TopologyRead(Some(TwoHosts(a, b))), KeyspaceChanged(Keyspace("ks", Some(Simple(2)))), ReplicasAsked("ks"),
     Reordered("ks", 0, [b, a])]
  }

  lemma TwoNextOwners(a: Host, b: Host)
    requires a != b
    ensures SimpleStrategy.NextOwners(2, [a, b], 0) == [a, b]
  {
    assert Rotate([a, b], 0) == [a, b];
    assert [a, b][..1] == [a] && [a][..0] == [];
    assert Dedup([a]) == [a];
    assert Dedup([a, b]) == [a, b];
  }

  lemma BothAreReplicas(a: Host, b: Host)
    requires a != b
    ensures ValidRing(TwoHosts(a, b))
    ensures var m := FreshMap(TwoHosts(a, b), Some(Simple(2)));
            m.Some? && 0 in m.value && m.value[0] == [a, b] && m.value.Keys == {0, 1}
  {
    hide SimpleStrategy.MapAfter, SimpleStrategy.NextOwners;
    var r := TwoHosts(a, b);
    var owners := Owners(r.owner, r.tokens);
    assert owners == [a, b];
    TwoNextOwners(a, b);
    SimpleStrategy.MapAfterAt(2, owners, r.tokens, 2, 0);
    SimpleStrategy.MapAfterKeys(2, owners, r.tokens, 2);
    assert r.tokens[..2] == [0, 1];
  }

  /** One shuffle, and later lookups answer in its order. */
  lemma ShuffleShows(a: Host, b: Host)
    requires a != b
    ensures forall e <- ShuffledRun(a, b) :: ValidEvent(e)
    ensures var s := Run(EMPTY, ShuffledRun(a, b));
            Answer(s, "ks", 1) == [b, a] && FreshAnswer(s, "ks", 1) == [a, b]
  {
    BothAreReplicas(a, b);
    hide FreshMap, Run, Next, Answer, FreshAnswer;
    ShuffledState(a, b);
    ShuffledAnswers(a, b);
  }

  /** What the metadata is after one shuffle. */
  function Shuffled(a: Host, b: Host): State
    requires a != b
  {
    BothAreReplicas(a, b);
    var m := FreshMap(TwoHosts(a, b), Some(Simple(2)));
    State(map["ks" := Keyspace("ks", Some(Simple(2)))], Some(TwoHosts(a, b)),
      map["ks" := Some(m.value[0 := [b, a]])])
  }

  lemma ShuffledState(a: Host, b: Host)
    requires a != b
    ensures forall e <- ShuffledRun(a, b) :: ValidEvent(e)
    ensures Run(EMPTY, ShuffledRun(a, b)) == Shuffled(a, b)
  {
    hide FreshMap;
    BothAreReplicas(a, b);
    var events := ShuffledRun(a, b);
    var r, ks := TwoHosts(a, b), Keyspace("ks", Some(Simple(2)));
    var s2 := State(map["ks" := ks], Some(r), map[]);
    assert events[..3][..2] == events[..2] && events[..2][..1] == events[..1] && events[..1][..0] == [];
    assert Run(EMPTY, events[..1]) == State(map[], Some(r), map[]);
    assert Run(EMPTY, events[..2]) == s2;
    assert Run(EMPTY, events[..3]) == s2.(cache := map["ks" := FreshMap(r, Some(Simple(2)))]);
    assert multiset([b, a]) == multiset([a, b]);
  }

  lemma ShuffledAnswers(a: Host, b: Host)
    requires a != b
    ensures ValidRing(TwoHosts(a, b))
    ensures Answer(Shuffled(a, b), "ks", 1) == [b, a] && FreshAnswer(Shuffled(a, b), "ks", 1) == [a, b]
  {
    hide FreshMap;
    BothAreReplicas(a, b);
    assert TokensUpTo([0, 1], 1) == 1 + TokensUpTo([1], 1) && TokensUpTo([1], 1) == 1 + TokensUpTo([], 1);
    assert Position(TwoHosts(a, b).tokens, 1) == 0;
    FreshMapKeys(TwoHosts(a, b), Some(Simple(2)));
  }

  /** Runs of a driver whose token-aware policy shuffles replicas or does not. */
  predicate RunOf(shuffles: bool, events: seq<Event>) {
    forall e <- events :: ValidEvent(e) && (e.Reordered? ==> shuffles)
  }

  /** Every lookup of every run answers in the fresh order if and only if the policy does not
      shuffle. */
  lemma ExactExactlyWithoutShuffling(shuffles: bool)
    ensures !shuffles <==>
            forall events, name, token | RunOf(shuffles, events) ::
              Answer(Run(EMPTY, events), name, token) == FreshAnswer(Run(EMPTY, events), name, token)
  {
    hide Answer, FreshAnswer, Run;
    if shuffles {
      var a, b := Host("a", None, None), Host("b", None, None);
      ShuffleShows(a, b);
      assert RunOf(true, ShuffledRun(a, b));
      assert Answer(Run(EMPTY, ShuffledRun(a, b)), "ks", 1) != FreshAnswer(Run(EMPTY, ShuffledRun(a, b)), "ks", 1);
    } else {
      forall events, name, token | RunOf(shuffles, events)
        ensures Answer(Run(EMPTY, events), name, token) == FreshAnswer(Run(EMPTY, events), name, token)
      {
        CacheIsTransparent(events, name, token);
      }
    }
  }

  // ----------------------------------------------------------------------- the objects

  class TokenMap {
    const ring: Ring
    const metadata: Metadata
    var tokensToHostsByKs: Cache

    constructor (owner: map<Token, Host>, tokens: seq<Token>, metadata: Metadata)
      ensures ring == Ring(owner, tokens) && this.metadata == metadata && tokensToHostsByKs == map[]
    {
      this.ring := Ring(owner, tokens);
      this.metadata := metadata;
      this.tokensToHostsByKs := map[];
    }

    method ReplicaMapForKeyspace(ks: Keyspace) returns (m: Option<ReplicaMap>)
      requires ValidRing(ring)
      ensures m == FreshMap(ring, ks.strategy)
    {
      match ks.strategy
      case None => m := None;
      case Some(Simple(rf)) =>
        var replicas := SimpleStrategy.MakeTokenReplicaMap(rf, ring.owner, ring.tokens);
        m := Some(replicas);
      case Some(PerDatacenter(factors)) =>
        var replicas := NetworkTopology.MakeTokenReplicaMap(factors, ring.owner, ring.tokens);
        m := Some(replicas);
      case Some(Local) => m := Some(map[]);
      case Some(Unknown(_, _)) => m := Some(map[]);
    }

    method RebuildKeyspace(name: string, buildIfAbsent: bool)
      requires ValidRing(ring)
      modifies this`tokensToHostsByKs
      ensures tokensToHostsByKs == Rebuild(ring, metadata.keyspaces, old(tokensToHostsByKs), name, buildIfAbsent)
    {
      var current := Cached(tokensToHostsByKs, name);
      if (buildIfAbsent && current.None?) || (!buildIfAbsent && current.Some?) {
        if name in metadata.keyspaces {
          var m := ReplicaMapForKeyspace(metadata.keyspaces[name]);
          tokensToHostsByKs := tokensToHostsByKs[name := m];
        }
      }
    }

    method RemoveKeyspace(name: string)
      modifies this`tokensToHostsByKs
      ensures tokensToHostsByKs == old(tokensToHostsByKs) - {name}
    {
      tokensToHostsByKs := tokensToHostsByKs - {name};
    }

    ghost function Now(): State
      reads this, metadata
    {
      State(metadata.keyspaces, Some(ring), tokensToHostsByKs)
    }

    /** `get_replicas`: never fails, and answers with what is cached: the replicas of a fresh map,
        in its order unless a caller has shuffled them. */
    method GetReplicas(name: string, token: Token) returns (replicas: seq<Host>)
      requires Coherent(Now())
      modifies this`tokensToHostsByKs
      ensures tokensToHostsByKs == Consult(old(Now()), name).cache
      ensures replicas == Answer(old(Now()), name, token)
      ensures multiset(replicas) == multiset(FreshReplicas(ring, metadata.keyspaces, name, token))
      ensures old(InOrder(Now())) ==> replicas == FreshReplicas(ring, metadata.keyspaces, name, token)
    {
      hide FreshMap;
      CoherentAnswer(Now(), name, token);
      ConsultCoherent(Now(), name);
      var tokensToHosts := Cached(tokensToHostsByKs, name);
      if tokensToHosts.None? {
        RebuildKeyspace(name, true);
        tokensToHosts := Cached(tokensToHostsByKs, name);
      }
      replicas := [];
      if tokensToHosts.Some? && tokensToHosts.value != map[] {
        CachedKeys(Consult(old(Now()), name), name);
        var point := BisectRight(ring.tokens, token);
        if point == |ring.tokens| {
          replicas := tokensToHosts.value[ring.tokens[0]];
        } else {
          replicas := tokensToHosts.value[ring.tokens[point]];
        }
      }
    }

    /** What a caller's `shuffle` of the list it was given does to the cache. */
    method ShuffleHandedOut(name: string, at: Token, order: seq<Host>)
      requires Coherent(Now())
      modifies this`tokensToHostsByKs
      ensures Coherent(Now()) && tokensToHostsByKs == Reorder(old(tokensToHostsByKs), name, at, order)
    {
      hide FreshMap, SameReplicas;
      ReorderCoherent(Now(), name, at, order);
      if name in tokensToHostsByKs {
        var m := tokensToHostsByKs[name];
        if m.Some? && at in m.value && multiset(order) == multiset(m.value[at]) {
          tokensToHostsByKs := tokensToHostsByKs[name := Some(m.value[at := order])];
        }
      }
    }
  }

  /** A cached map that is not empty has the ring's tokens. */
  lemma CachedKeys(s: State, name: string)
    requires Coherent(s) && s.ring.Some? && Cached(s.cache, name).Some? && Cached(s.cache, name).value != map[]
    ensures s.ring.value.tokens != [] && Cached(s.cache, name).value.Keys == Elems(s.ring.value.tokens)
  {
    FreshMapKeys(s.ring.value, s.keyspaces[name].strategy);
    hide FreshMap;
    var m, built := s.cache[name], FreshMap(s.ring.value, s.keyspaces[name].strategy);
    assert SameReplicas(m, built);
    assert m.value == map[] <==> m.value.Keys == {};
    assert built.value == map[] <==> built.value.Keys == {};
  }

  class Metadata {
    var keyspaces: map<string, Keyspace>
    var tokenMap: TokenMap?

    constructor ()
      ensures tokenMap == null && Snapshot() == EMPTY
    {
      keyspaces, tokenMap := map[], null;
    }

    ghost function Snapshot(): State
      reads this, tokenMap
    {
      if tokenMap == null then State(keyspaces, None, map[])
      else State(keyspaces, Some(tokenMap.ring), tokenMap.tokensToHostsByKs)
    }

    ghost predicate Valid()
      reads this, tokenMap
    {
      (tokenMap != null ==> tokenMap.metadata == this) && Coherent(Snapshot())
    }

    /** `_keyspace_added` and `_keyspace_updated`. */
    method KeyspaceTouched(name: string)
      requires tokenMap != null ==> tokenMap.metadata == this && ValidRing(tokenMap.ring)
      modifies tokenMap
      ensures Snapshot() == Refresh(old(Snapshot()), name)
    {
      if tokenMap != null {
        tokenMap.RebuildKeyspace(name, false);
      }
    }

    method KeyspaceRemoved(name: string)
      modifies tokenMap
      ensures Snapshot() == Forget(old(Snapshot()), {name})
    {
      if tokenMap != null {
        tokenMap.RemoveKeyspace(name);
      }
    }

    method UpdateKeyspace(ks: Keyspace)
      requires Valid()
      modifies this`keyspaces, tokenMap
      ensures Valid() && Snapshot() == Next(old(Snapshot()), KeyspaceChanged(ks))
    {
      NextCoherent(Snapshot(), KeyspaceChanged(ks));
      hide FreshMap, SameReplicas;
      var previous := if ks.name in keyspaces then Some(keyspaces[ks.name]) else None;
      keyspaces := keyspaces[ks.name := ks];
      if previous.Some? {
        if previous.value.strategy != ks.strategy {
          KeyspaceTouched(ks.name);
        }
      } else {
        KeyspaceTouched(ks.name);
      }
    }

    method DropKeyspace(name: string)
      requires Valid()
      modifies this`keyspaces, tokenMap
      ensures Valid() && Snapshot() == Next(old(Snapshot()), KeyspaceDropped(name))
    {
      NextCoherent(Snapshot(), KeyspaceDropped(name));
      hide FreshMap, SameReplicas;
      if name in keyspaces {
        keyspaces := keyspaces - {name};
        KeyspaceRemoved(name);
      }
    }

    /** `_rebuild_all`. */
    method RebuildAllKeyspaces(metas: seq<Keyspace>)
      requires Valid()
      modifies this`keyspaces, tokenMap
      ensures Valid() && Snapshot() == Next(old(Snapshot()), SchemaRead(metas))
    {
      NextCoherent(Snapshot(), SchemaRead(metas));
      hide FreshMap, Coherent, ReplaceAll, Names;
      var currentKeyspaces := ReplaceKeyspaces(metas);
      var removed := keyspaces.Keys - currentKeyspaces;
      keyspaces := keyspaces - removed;
      ForgetKeyspaces(removed);
    }

    method ReplaceKeyspaces(metas: seq<Keyspace>) returns (names: set<string>)
      requires tokenMap != null ==> tokenMap.metadata == this && ValidRing(tokenMap.ring)
      modifies this`keyspaces, tokenMap
      ensures names == Names(metas) && Snapshot() == ReplaceAll(old(Snapshot()), metas)
    {
      hide Refresh;
      names := {};
      for i := 0 to |metas|
        invariant names == Names(metas[..i])
        invariant Snapshot() == ReplaceAll(old(Snapshot()), metas[..i])
      {
        var ks := metas[i];
        assert metas[..i + 1] == metas[..i] + [ks] && metas[..i + 1][..|metas[..i + 1]| - 1] == metas[..i];
        assert Names(metas[..i + 1]) == Names(metas[..i]) + {ks.name};
        names := names + {ks.name};
        keyspaces := keyspaces[ks.name := ks];
        KeyspaceTouched(ks.name);
      }
      assert metas[..|metas|] == metas;
    }

    method ForgetKeyspaces(removed: set<string>)
      modifies tokenMap
      ensures Snapshot() == Forget(old(Snapshot()), removed)
    {
      var done: set<string> := {};
      while removed - done != {}
        invariant done <= removed
        invariant Snapshot() == Forget(old(Snapshot()), done)
        decreases removed - done
      {
        var name :| name in removed - done;
        KeyspaceRemoved(name);
        done := done + {name};
      }
    }

    /** `rebuild_token_map`, once the partitioner's tokens have been read and sorted; no
        token class means no token map. */
    method RebuildTokenMap(ring: Option<Ring>)
      requires Valid() && (ring.Some? ==> ValidRing(ring.value))
      modifies this`tokenMap
      ensures Valid() && Snapshot() == Next(old(Snapshot()), TopologyRead(ring))
    {
      if ring.None? {
        tokenMap := null;
      } else {
        tokenMap := new TokenMap(ring.value.owner, ring.value.tokens, this);
      }
    }

    method GetReplicas(name: string, token: Token) returns (replicas: seq<Host>)
      requires Valid()
      modifies tokenMap
      ensures Valid() && Snapshot() == Next(old(Snapshot()), ReplicasAsked(name))
      ensures replicas == Answer(old(Snapshot()), name, token)
      ensures multiset(replicas) == multiset(FreshAnswer(Snapshot(), name, token))
      ensures old(InOrder(Snapshot())) ==> replicas == FreshAnswer(Snapshot(), name, token)
    {
      NextCoherent(Snapshot(), ReplicasAsked(name));
      CoherentAnswer(Snapshot(), name, token);
      hide FreshMap, SameReplicas, FreshReplicas;
      if tokenMap == null {
        return [];
      }
      replicas := tokenMap.GetReplicas(name, token);
    }
  }
}
