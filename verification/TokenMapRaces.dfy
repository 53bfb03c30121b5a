/** The token map under threads. Lookups and schema refreshes run on different threads; a rebuild
    holds the token map's lock, a removal does not, and an update writes the keyspace before it
    asks for the lock. Every step below is one read or write of shared state. */
module TokenMapRaces {
  import opened Seqs
  import opened Topology
  import opened TokenMaps

  /** Where the thread that holds the rebuild lock is inside `rebuild_keyspace`. */
  datatype Stage =
    | Checking
    | Wanted
    | Found
    | Built(m: Option<ReplicaMap>)

  /** The holder of the rebuild lock: a lookup, or the schema operation with the given number. */
  datatype Holder = Holder(name: string, schema: Option<int>, stage: Stage)

  /** A schema operation in progress. An update has read the strategy it replaces (none if the
      keyspace was unknown); a refresh has written the keyspace; a removal has taken the
      keyspaces out and still has their cached maps to take out. */
  datatype Operation =
    | Updating(ks: Keyspace, was: Option<Option<Strategy>>, always: bool)
    | Refreshing(name: string)
    | Removing(names: set<string>)

  datatype Threads = Threads(shared: State, operations: map<int, Operation>, holder: Option<Holder>)

  const START := Threads(EMPTY, map[], None)

  datatype Step =
    | UpdateReads(id: int, ks: Keyspace, always: bool)
    | UpdateWrites(id: int)
    | RefreshLocks(id: int)
    | LookupLocks(name: string)
    | HolderMoves
    | DropPops(id: int, name: string)
    | PurgeAssigns(id: int, names: set<string>)
    | CachePops(id: int, name: string)
    | RingReplaced(ring: Option<Ring>)
    | ListShuffled(name: string, at: Token, order: seq<Host>)

  predicate ValidStep(e: Step) {
    e.RingReplaced? && e.ring.Some? ==> ValidRing(e.ring.value)
  }

  function StrategyOf(keyspaces: map<string, Keyspace>, name: string): Option<Option<Strategy>> {
    if name in keyspaces then Some(keyspaces[name].strategy) else None
  }

  /** The lock is let go; a schema operation that held it is over. */
  function Release(s: Threads, h: Holder, cache: Cache): Threads {
    Threads(s.shared.(cache := cache), if h.schema.Some? then s.operations - {h.schema.value} else s.operations, None)
  }

  /** One read or write inside `rebuild_keyspace`. The keyspace is read twice; when it is gone at
      the second read the exception handler stores an empty map. */
  function Move(s: Threads, h: Holder): Threads
    requires s.shared.ring.Some? && ValidRing(s.shared.ring.value)
  {
    var cache, known := s.shared.cache, h.name in s.shared.keyspaces;
    match h.stage
    case Checking =>
      if Cached(cache, h.name).Some? == h.schema.Some? then s.(holder := Some(h.(stage := Wanted)))
      else Release(s, h, cache)
    case Wanted => if known then s.(holder := Some(h.(stage := Found))) else Release(s, h, cache)
    case Found =>
      if known then
        s.(holder := Some(h.(stage := Built(FreshMap(s.shared.ring.value, s.shared.keyspaces[h.name].strategy)))))
      else Release(s, h, cache[h.name := Some(map[])])
    case Built(m) => Release(s, h, cache[h.name := m])
  }

  function WriteKeyspace(s: Threads, id: int, ks: Keyspace, refresh: bool): Threads {
    s.(shared := s.shared.(keyspaces := s.shared.keyspaces[ks.name := ks]),
       operations := if refresh then s.operations[id := Refreshing(ks.name)] else s.operations - {id})
  }

  function TakeOut(s: Threads, id: int, gone: set<string>): Threads {
    if gone == {} then s
    else s.(shared := s.shared.(keyspaces := s.shared.keyspaces - gone),
            operations := s.operations[id := Removing(gone)])
  }

  function PopCache(s: Threads, id: int, names: set<string>, name: string): Threads {
    s.(shared := Forget(s.shared, {name}),
       operations := if names == {name} then s.operations - {id} else s.operations[id := Removing(names - {name})])
  }

  /** One step; a step that is not possible now changes nothing. */
  function Next(s: Threads, e: Step): (t: Threads)
    requires WellFormed(s.shared) && ValidStep(e)
    ensures WellFormed(t.shared)
  {
    match e
    case UpdateReads(id, ks, always) =>
      if id in s.operations then s
      else s.(operations := s.operations[id := Updating(ks, StrategyOf(s.shared.keyspaces, ks.name), always)])
    case UpdateWrites(id) =>
      if id in s.operations && s.operations[id].Updating? then
        var op := s.operations[id];
        WriteKeyspace(s, id, op.ks, op.always || op.was != Some(op.ks.strategy))
      else s
    case RefreshLocks(id) =>
      if id !in s.operations || !s.operations[id].Refreshing? then s
      else if s.shared.ring.None? then s.(operations := s.operations - {id})
      else if s.holder.None? then s.(holder := Some(Holder(s.operations[id].name, Some(id), Checking)))
      else s
    case LookupLocks(name) =>
      if s.shared.ring.Some? && s.holder.None? then s.(holder := Some(Holder(name, None, Checking))) else s
    case HolderMoves => if s.shared.ring.Some? && s.holder.Some? then Move(s, s.holder.value) else s
    case DropPops(id, name) => if id in s.operations then s else TakeOut(s, id, {name} * s.shared.keyspaces.Keys)
    case PurgeAssigns(id, names) => if id in s.operations then s else TakeOut(s, id, s.shared.keyspaces.Keys - names)
    case CachePops(id, name) =>
      if id in s.operations && s.operations[id].Removing? && name in s.operations[id].names
      then PopCache(s, id, s.operations[id].names, name) else s
    case RingReplaced(ring) =>
      var operations := if s.holder.Some? && s.holder.value.schema.Some?
                        then s.operations - {s.holder.value.schema.value} else s.operations;
      Threads(State(s.shared.keyspaces, ring, map[]), operations, None)
    case ListShuffled(name, at, order) =>
      s.(shared := s.shared.(cache := Reorder(s.shared.cache, name, at, order)))
  }

  ghost function Run(s: Threads, steps: seq<Step>): (r: Threads)
    requires WellFormed(s.shared) && forall e <- steps :: ValidStep(e)
    ensures WellFormed(r.shared)
  {
    if steps == [] then s else Next(Run(s, steps[..|steps| - 1]), steps[|steps| - 1])
  }

  // ---------------------------------------------------------------------- the invariant

  /** The map is, up to order, the one the keyspace's strategy gives now. */
  ghost predicate UpToDate(s: State, name: string, m: Option<ReplicaMap>)
    requires WellFormed(s)
  {
    s.ring.Some? && name in s.keyspaces && SameReplicas(m, FreshMap(s.ring.value, s.keyspaces[name].strategy))
  }

  predicate AwaitedBy(op: Operation, name: string) {
    op == Refreshing(name) || (op.Removing? && name in op.names)
  }

  /** Some operation in progress will refresh or remove the cached map of a keyspace. */
  ghost predicate Awaited(s: Threads, name: string) {
    exists id <- s.operations :: AwaitedBy(s.operations[id], name)
  }

  predicate OperationFits(s: State, op: Operation) {
    match op
    case Updating(ks, was, _) => was == StrategyOf(s.keyspaces, ks.name)
    case Refreshing(name) => name in s.keyspaces
    case Removing(names) => names !! s.keyspaces.Keys
  }

  ghost predicate HolderFits(s: Threads, h: Holder)
    requires WellFormed(s.shared)
  {
    && s.shared.ring.Some?
    && (match h.schema
        case Some(id) =>
          && id in s.operations && s.operations[id] == Refreshing(h.name)
          && (h.stage.Built? ==>
                h.name in s.shared.keyspaces &&
                h.stage.m == FreshMap(s.shared.ring.value, s.shared.keyspaces[h.name].strategy))
        case None =>
          && (h.stage.Found? ==> h.name in s.shared.keyspaces || Awaited(s, h.name))
          && (h.stage.Built? && h.stage.m.Some? ==> UpToDate(s.shared, h.name, h.stage.m) || Awaited(s, h.name)))
  }

  /** At most one schema operation at a time, and whatever is cached, or about to be, is up to
      date or awaits that operation. */
  ghost predicate Orderly(s: Threads) {
    && WellFormed(s.shared)
    && (s.shared.ring.None? ==> s.shared.cache == map[])
    && (forall i, j :: i in s.operations && j in s.operations ==> i == j)
    && (forall id <- s.operations :: OperationFits(s.shared, s.operations[id]))
    && (forall name <- s.shared.cache | s.shared.cache[name].Some? ::
          UpToDate(s.shared, name, s.shared.cache[name]) || Awaited(s, name))
    && (s.holder.Some? ==> HolderFits(s, s.holder.value))
  }

  /** A lookup has read this keyspace and will store a map for it. */
  predicate Carries(s: Threads, name: string) {
    && s.holder.Some? && s.holder.value.name == name
    && (s.holder.value.stage.Found? || (s.holder.value.stage.Built? && s.holder.value.stage.m.Some?))
  }

  /** What the driver would have to see to: schema operations do not overlap, and no cached map is
      removed while a rebuild of the same keyspace is between its read and its write. */
  predicate Tidy(s: Threads, e: Step) {
    match e
    case UpdateReads(_, _, _) => s.operations == map[]
    case DropPops(_, _) => s.operations == map[]
    case PurgeAssigns(_, _) => s.operations == map[]
    case CachePops(_, name) => !Carries(s, name)
    case _ => true
  }

  ghost predicate TidyRun(s: Threads, steps: seq<Step>)
    requires WellFormed(s.shared) && forall e <- steps :: ValidStep(e)
  {
    forall n :: 0 <= n < |steps| ==> Tidy(Run(s, steps[..n]), steps[n])
  }

  // ------------------------------------------------------------------- every step keeps it

  /** A step that leaves the operations alone leaves what they will see to alone. */
  lemma SameAwaited(s: Threads, t: Threads, name: string)
    requires s.operations == t.operations
    ensures Awaited(s, name) == Awaited(t, name)
  {
  }

  lemma WriteKeeps(s: Threads, id: int)
    requires Orderly(s) && id in s.operations && s.operations[id].Updating?
    ensures Orderly(Next(s, UpdateWrites(id)))
  {
    hide FreshMap, SameReplicas;
    var t, op := Next(s, UpdateWrites(id)), s.operations[id];
    var ks := op.ks;
    assert forall name :: !Awaited(s, name);
    if id in t.operations { assert AwaitedBy(t.operations[id], ks.name); }
    assert forall name | name != ks.name :: UpToDate(s.shared, name, Cached(s.shared.cache, name)) ==>
        UpToDate(t.shared, name, Cached(s.shared.cache, name));
  }

  lemma TakeOutKeeps(s: Threads, id: int, gone: set<string>)
    requires Orderly(s) && s.operations == map[] && gone <= s.shared.keyspaces.Keys
    ensures Orderly(TakeOut(s, id, gone))
  {
    hide FreshMap, SameReplicas;
    var t := TakeOut(s, id, gone);
    if gone != {} {
      assert forall name <- gone :: AwaitedBy(t.operations[id], name);
    }
  }

  /** Removing a cached map keeps the invariant exactly when no lookup carries a map for that
      keyspace; and if one does, its next write leaves the cache incoherent. */
  lemma PopKeepsExactly(s: Threads, id: int, name: string)
    requires Orderly(s) && id in s.operations && s.operations[id].Removing? && name in s.operations[id].names
    ensures var t := Next(s, CachePops(id, name));
            && WellFormed(t.shared)
            && (Orderly(t) <==> !Carries(s, name))
            && (Carries(s, name) ==> !Coherent(Next(t, HolderMoves).shared))
  {
    hide FreshMap, SameReplicas;
    var t, names := Next(s, CachePops(id, name)), s.operations[id].names;
    assert forall other <- names | other != name :: AwaitedBy(t.operations[id], other);
    assert !Awaited(t, name);
    assert OperationFits(s.shared, s.operations[id]);
  }

  /** Letting the lock go without a write keeps the invariant, for a lookup at any stage and for a
      refresh that found nothing cached. */
  lemma ReleaseKeeps(s: Threads)
    requires Orderly(s) && s.holder.Some?
    requires s.holder.value.schema.Some? ==> Cached(s.shared.cache, s.holder.value.name).None?
    ensures Orderly(Release(s, s.holder.value, s.shared.cache))
  {
    hide FreshMap, SameReplicas;
    var t := Release(s, s.holder.value, s.shared.cache);
    if s.holder.value.schema.None? {
      forall name ensures Awaited(s, name) == Awaited(t, name) { SameAwaited(s, t, name); }
    } else {
      assert forall name | name != s.holder.value.name :: !Awaited(s, name);
    }
  }

  /** Writing a map that is up to date, or that some operation will still see to, and letting go. */
  lemma StoreKeeps(s: Threads, m: Option<ReplicaMap>)
    requires Orderly(s) && s.holder.Some?
    requires var h := s.holder.value;
             m.Some? ==> UpToDate(s.shared, h.name, m) || (h.schema.None? && Awaited(s, h.name))
    ensures Orderly(Release(s, s.holder.value, s.shared.cache[s.holder.value.name := m]))
  {
    hide FreshMap, SameReplicas;
    var h := s.holder.value;
    var t := Release(s, h, s.shared.cache[h.name := m]);
    if h.schema.None? {
      forall name ensures Awaited(s, name) == Awaited(t, name) { SameAwaited(s, t, name); }
    } else {
      assert forall name | name != h.name :: !Awaited(s, name);
    }
    assert forall name | name in s.shared.cache :: UpToDate(s.shared, name, s.shared.cache[name]) ==>
        UpToDate(t.shared, name, s.shared.cache[name]);
  }

  lemma MoveKeeps(s: Threads)
    requires Orderly(s) && s.holder.Some?
    ensures Orderly(Next(s, HolderMoves))
  {
    var h := s.holder.value;
    StepsOn(s);
    hide FreshMap, SameReplicas, Orderly, Awaited;
    match h.stage
    case Checking => if Cached(s.shared.cache, h.name).Some? != h.schema.Some? { ReleaseKeeps(s); }
    case Wanted => if h.name !in s.shared.keyspaces { KnownToRefresh(s); ReleaseKeeps(s); }
    case Found =>
      if h.name !in s.shared.keyspaces { KnownToRefresh(s); StoreKeeps(s, Some(map[])); }
    case Built(m) =>
      BuiltIsFine(s);
      StoreKeeps(s, m);
  }

  /** The moves that write nothing and keep the lock. */
  lemma StepsOn(s: Threads)
    requires Orderly(s) && s.holder.Some?
    ensures WellFormed(s.shared) && s.shared.ring.Some?
    ensures var h := s.holder.value;
            && Orderly(s.(holder := Some(h.(stage := Wanted))))
            && (h.name in s.shared.keyspaces ==> Orderly(s.(holder := Some(h.(stage := Found)))))
            && (h.name in s.shared.keyspaces ==>
                  var m := FreshMap(s.shared.ring.value, s.shared.keyspaces[h.name].strategy);
                  Orderly(s.(holder := Some(h.(stage := Built(m))))))
  {
    hide FreshMap, SameReplicas;
    var h := s.holder.value;
    forall name, t: Threads | t.operations == s.operations
      ensures Awaited(s, name) == Awaited(t, name)
    {
      SameAwaited(s, t, name);
    }
    if h.name in s.shared.keyspaces { SameAsItself(s.shared.ring.value, s.shared.keyspaces[h.name].strategy); }
  }

  lemma KnownToRefresh(s: Threads)
    requires Orderly(s) && s.holder.Some?
    ensures var h := s.holder.value;
            && (h.schema.Some? ==> h.name in s.shared.keyspaces)
            && (h.stage.Found? && h.name !in s.shared.keyspaces ==> Awaited(s, h.name))
  {
    hide FreshMap, SameReplicas;
  }

  lemma BuiltIsFine(s: Threads)
    requires Orderly(s) && s.holder.Some? && s.holder.value.stage.Built?
    ensures WellFormed(s.shared)
    ensures var h := s.holder.value;
            h.stage.m.Some? ==> UpToDate(s.shared, h.name, h.stage.m) || (h.schema.None? && Awaited(s, h.name))
  {
    hide FreshMap, SameReplicas;
    var h := s.holder.value;
    if h.schema.Some? { SameAsItself(s.shared.ring.value, s.shared.keyspaces[h.name].strategy); }
  }

  lemma ShuffleKeeps(s: Threads, name: string, at: Token, order: seq<Host>)
    requires Orderly(s)
    ensures Orderly(Next(s, ListShuffled(name, at, order)))
  {
    hide FreshMap, SameReplicas;
    var t := Next(s, ListShuffled(name, at, order));
    forall other <- t.shared.cache | t.shared.cache[other].Some?
      ensures UpToDate(t.shared, other, t.shared.cache[other]) || Awaited(t, other)
    {
      SameAwaited(s, t, other);
      if UpToDate(s.shared, other, s.shared.cache[other]) {
        ReorderSame(s.shared.cache, name, at, order, other,
                    FreshMap(s.shared.ring.value, s.shared.keyspaces[other].strategy));
      }
    }
  }

  lemma NextKeeps(s: Threads, e: Step)
    requires Orderly(s) && ValidStep(e) && Tidy(s, e)
    ensures Orderly(Next(s, e))
  {
    hide FreshMap, SameReplicas;
    match e
    case UpdateWrites(id) => if id in s.operations && s.operations[id].Updating? { WriteKeeps(s, id); }
    case DropPops(id, name) => TakeOutKeeps(s, id, {name} * s.shared.keyspaces.Keys);
    case PurgeAssigns(id, names) => TakeOutKeeps(s, id, s.shared.keyspaces.Keys - names);
    case CachePops(id, name) =>
      if id in s.operations && s.operations[id].Removing? && name in s.operations[id].names {
        PopKeepsExactly(s, id, name);
      }
    case HolderMoves => if s.holder.Some? { MoveKeeps(s); }
    case ListShuffled(name, at, order) => ShuffleKeeps(s, name, at, order);
    case _ =>
  }

  /** Tidy interleavings of any number of lookups with schema operations keep the cache honest, and
      whenever no schema operation is in progress it is coherent. */
  lemma {:induction false} TidyRunsStayCoherent(steps: seq<Step>)
    requires (forall e <- steps :: ValidStep(e)) && TidyRun(START, steps)
    ensures var s := Run(START, steps); Orderly(s) && (s.operations == map[] ==> Coherent(s.shared))
  {
    if steps != [] {
      var init := steps[..|steps| - 1];
      assert forall n :: 0 <= n < |init| ==> init[..n] == steps[..n];
      TidyRunsStayCoherent(init);
      NextKeeps(Run(START, init), steps[|steps| - 1]);
    }
  }

  /** So a lookup that finds no schema operation in progress answers with the replicas of a fresh
      map, in some order. */
  lemma TidyLookupsAreRight(steps: seq<Step>, name: string, token: Token)
    requires (forall e <- steps :: ValidStep(e)) && TidyRun(START, steps)
    ensures var s := Run(START, steps);
            s.operations == map[] ==>
              multiset(Answer(s.shared, name, token)) == multiset(FreshAnswer(s.shared, name, token))
  {
    hide Answer, FreshAnswer, Coherent;
    TidyRunsStayCoherent(steps);
    if Run(START, steps).operations == map[] { CoherentAnswer(Run(START, steps).shared, name, token); }
  }

  // ------------------------------------------------------------- operations left undisturbed

  /** Nothing is in progress. */
  predicate Quiet(s: Threads) {
    s.operations == map[] && s.holder.None?
  }

  lemma {:induction false} RunStep(s: Threads, e: Step, rest: seq<Step>)
    requires WellFormed(s.shared) && ValidStep(e) && forall f <- rest :: ValidStep(f)
    ensures Run(s, [e] + rest) == Run(Next(s, e), rest)
  {
    hide Next;
    var steps := [e] + rest;
    if rest == [] {
      assert steps[..0] == [];
    } else {
      RunStep(s, e, rest[..|rest| - 1]);
      assert steps[..|steps| - 1] == [e] + rest[..|rest| - 1];
    }
  }

  const MOVES := [HolderMoves, HolderMoves, HolderMoves, HolderMoves]

  lemma FourMoves(s: Threads)
    requires WellFormed(s.shared)
    ensures Run(s, MOVES) ==
            Next(Next(Next(Next(s, HolderMoves), HolderMoves), HolderMoves), HolderMoves)
  {
    hide Next;
    var s1 := Next(s, HolderMoves);
    var s2 := Next(s1, HolderMoves);
    assert MOVES == [HolderMoves] + ([HolderMoves] + ([HolderMoves] + ([HolderMoves] + [])));
    RunStep(s, HolderMoves, [HolderMoves] + ([HolderMoves] + ([HolderMoves] + [])));
    RunStep(s1, HolderMoves, [HolderMoves] + ([HolderMoves] + []));
    RunStep(s2, HolderMoves, [HolderMoves] + []);
    RunStep(Next(s2, HolderMoves), HolderMoves, []);
  }

  /** A rebuild that nobody disturbs does what `Rebuild` says in one step. */
  lemma RebuildAlone(s: Threads)
    requires WellFormed(s.shared) && s.shared.ring.Some? && s.holder.Some? && s.holder.value.stage.Checking?
    ensures var h := s.holder.value;
            Run(s, MOVES) == Release(s, h, Rebuild(s.shared.ring.value, s.shared.keyspaces, s.shared.cache,
                                                   h.name, h.schema.None?))
  {
    hide FreshMap;
    FourMoves(s);
  }

  /** Undisturbed, a lookup, an update and a drop are the steps of the token map's own runs. */
  lemma LookupAlone(s: Threads, name: string)
    requires WellFormed(s.shared) && Quiet(s)
    ensures Run(s, [LookupLocks(name)] + MOVES) == s.(shared := Consult(s.shared, name))
  {
    hide FreshMap, Run;
    RunStep(s, LookupLocks(name), MOVES);
    if s.shared.ring.Some? { RebuildAlone(Next(s, LookupLocks(name))); } else { FourMoves(s); }
  }

  lemma UpdateAlone(s: Threads, id: int, ks: Keyspace)
    requires WellFormed(s.shared) && Quiet(s)
    ensures Run(s, [UpdateReads(id, ks, false)] + ([UpdateWrites(id)] + ([RefreshLocks(id)] + MOVES))) ==
            s.(shared := Update(s.shared, ks))
  {
    hide FreshMap, Run;
    var read := Next(s, UpdateReads(id, ks, false));
    var written := Next(read, UpdateWrites(id));
    var locked := Next(written, RefreshLocks(id));
    RunStep(s, UpdateReads(id, ks, false), [UpdateWrites(id)] + ([RefreshLocks(id)] + MOVES));
    RunStep(read, UpdateWrites(id), [RefreshLocks(id)] + MOVES);
    RunStep(written, RefreshLocks(id), MOVES);
    if locked.holder.Some? { RebuildAlone(locked); } else { FourMoves(locked); }
  }

  lemma DropAlone(s: Threads, id: int, name: string)
    requires WellFormed(s.shared) && Quiet(s)
    ensures Run(s, [DropPops(id, name)] + ([CachePops(id, name)] + [])) == s.(shared := Drop(s.shared, name))
  {
    hide Run;
    var popped := Next(s, DropPops(id, name));
    RunStep(s, DropPops(id, name), [CachePops(id, name)] + []);
    RunStep(popped, CachePops(id, name), []);
    RunNothing(Next(popped, CachePops(id, name)));
    assert {name} * s.shared.keyspaces.Keys == if name in s.shared.keyspaces then {name} else {};
    if name in s.shared.keyspaces { assert popped.operations == map[id := Removing({name})]; }
  }

  // -------------------------------------------------------------------- untidy interleavings

  /** A lookup has the lock and has built the map of a keyspace. */
  function Carrying(s: Threads, name: string, m: Option<ReplicaMap>): Threads {
    s.(holder := Some(Holder(name, None, Built(m))))
  }

  lemma LookupCarries(s: Threads, name: string, rest: seq<Step>)
    requires WellFormed(s.shared) && Quiet(s) && s.shared.ring.Some? && forall e <- rest :: ValidStep(e)
    requires name in s.shared.keyspaces && Cached(s.shared.cache, name).None?
    ensures var m := FreshMap(s.shared.ring.value, s.shared.keyspaces[name].strategy);
            Run(s, [LookupLocks(name)] + ([HolderMoves] + ([HolderMoves] + ([HolderMoves] + rest)))) ==
            Run(Carrying(s, name, m), rest)
  {
    hide FreshMap, Run;
    var s1 := s.(holder := Some(Holder(name, None, Checking)));
    var s2 := s.(holder := Some(Holder(name, None, Wanted)));
    var s3 := s.(holder := Some(Holder(name, None, Found)));
    RunStep(s, LookupLocks(name), [HolderMoves] + ([HolderMoves] + ([HolderMoves] + rest)));
    RunStep(s1, HolderMoves, [HolderMoves] + ([HolderMoves] + rest));
    RunStep(s2, HolderMoves, [HolderMoves] + rest);
    RunStep(s3, HolderMoves, rest);
  }

  /** Both pops of a drop land between a lookup's read and its write. */
  function DropInsideRebuild(id: int, name: string): seq<Step> {
    [LookupLocks(name)] + ([HolderMoves] + ([HolderMoves] + ([HolderMoves] +
    ([DropPops(id, name)] + ([CachePops(id, name)] + ([HolderMoves] + []))))))
  }

  /** From any quiet state, such a drop leaves the map of the dropped keyspace in the cache. */
  lemma DropInsideRebuildFails(s: Threads, id: int, name: string)
    requires WellFormed(s.shared) && Quiet(s) && s.shared.ring.Some?
    requires name in s.shared.keyspaces && Cached(s.shared.cache, name).None?
    requires s.shared.keyspaces[name].strategy.Some?
    ensures var t := Run(s, DropInsideRebuild(id, name));
            && Quiet(t) && name !in t.shared.keyspaces && !Coherent(t.shared)
            && Cached(t.shared.cache, name) == FreshMap(s.shared.ring.value, s.shared.keyspaces[name].strategy)
  {
    hide FreshMap, Run;
    var m := FreshMap(s.shared.ring.value, s.shared.keyspaces[name].strategy);
    StrategyGivesMap(s.shared.ring.value, s.shared.keyspaces[name].strategy);
    LookupCarries(s, name, [DropPops(id, name)] + ([CachePops(id, name)] + ([HolderMoves] + [])));
    var carrying := Carrying(s, name, m);
    var popped := TakeOut(carrying, id, {name});
    var gone := PopCache(popped, id, {name}, name);
    assert {name} * s.shared.keyspaces.Keys == {name};
    RunStep(carrying, DropPops(id, name), [CachePops(id, name)] + ([HolderMoves] + []));
    RunStep(popped, CachePops(id, name), [HolderMoves] + []);
    RunStep(gone, HolderMoves, []);
    RunNothing(Next(gone, HolderMoves));
  }

  lemma RunNothing(s: Threads)
    requires WellFormed(s.shared)
    ensures Run(s, []) == s
  {
  }

  lemma {:induction false} RunAppend(s: Threads, first: seq<Step>, second: seq<Step>)
    requires WellFormed(s.shared) && (forall e <- first :: ValidStep(e)) && (forall e <- second :: ValidStep(e))
    ensures Run(s, first + second) == Run(Run(s, first), second)
  {
    hide Next;
    if second == [] {
      assert first + second == first;
    } else {
      RunAppend(s, first, second[..|second| - 1]);
      assert (first + second)[..|first + second| - 1] == first + second[..|second| - 1];
    }
  }

  /** A refresh that holds a written keyspace to its end, undisturbed. */
  lemma RefreshAlone(s: Threads, id: int, name: string, rest: seq<Step>)
    requires WellFormed(s.shared) && s.shared.ring.Some? && s.holder.None? && forall e <- rest :: ValidStep(e)
    requires id in s.operations && s.operations[id] == Refreshing(name)
    ensures Run(s, [RefreshLocks(id)] + (MOVES + rest)) ==
            Run(s.(shared := Refresh(s.shared, name), operations := s.operations - {id}), rest)
  {
    hide FreshMap, Run;
    RunStep(s, RefreshLocks(id), MOVES + rest);
    RunAppend(Next(s, RefreshLocks(id)), MOVES, rest);
    RebuildAlone(Next(s, RefreshLocks(id)));
  }

  /** Two refreshes of one keyspace overlap: the second has read the old strategy, and writes it
      back after the first has installed and built a new one. */
  function UpdateInsideUpdate(i: int, j: int, ks: Keyspace, ks': Keyspace): seq<Step> {
    [UpdateReads(j, ks, false)] + ([UpdateReads(i, ks', false)] + ([UpdateWrites(i)] + ([RefreshLocks(i)] +
    (MOVES + ([UpdateWrites(j)] + [])))))
  }

  /** The second finds its strategy unchanged and refreshes nothing, so the new strategy's map
      stays in the cache under the old strategy. */
  lemma UpdateInsideUpdateFails(s: Threads, i: int, j: int, ks: Keyspace, ks': Keyspace)
    requires WellFormed(s.shared) && Quiet(s) && s.shared.ring.Some? && i != j && ks.name == ks'.name
    requires StrategyOf(s.shared.keyspaces, ks.name) == Some(ks.strategy)
    requires Cached(s.shared.cache, ks.name).Some? && ks'.strategy.Some?
    requires !SameReplicas(FreshMap(s.shared.ring.value, ks'.strategy), FreshMap(s.shared.ring.value, ks.strategy))
    ensures var t := Run(s, UpdateInsideUpdate(i, j, ks, ks'));
            && Quiet(t) && !Coherent(t.shared) && t.shared.keyspaces == s.shared.keyspaces[ks.name := ks]
            && Cached(t.shared.cache, ks.name) == FreshMap(s.shared.ring.value, ks'.strategy)
  {
    hide FreshMap, Run, SameReplicas;
    SameAsItself(s.shared.ring.value, ks.strategy);
    StrategyGivesMap(s.shared.ring.value, ks'.strategy);
    var s1 := Next(s, UpdateReads(j, ks, false));
    var s2 := Next(s1, UpdateReads(i, ks', false));
    var s3 := Next(s2, UpdateWrites(i));
    var s4 := s3.(shared := Refresh(s3.shared, ks.name), operations := s3.operations - {i});
    var last := [UpdateWrites(j)] + [];
    RunStep(s, UpdateReads(j, ks, false),
            [UpdateReads(i, ks', false)] + ([UpdateWrites(i)] + ([RefreshLocks(i)] + (MOVES + last))));
    RunStep(s1, UpdateReads(i, ks', false), [UpdateWrites(i)] + ([RefreshLocks(i)] + (MOVES + last)));
    RunStep(s2, UpdateWrites(i), [RefreshLocks(i)] + (MOVES + last));
    RefreshAlone(s3, i, ks.name, last);
    assert s4.operations == map[j := Updating(ks, Some(ks.strategy), false)];
    RunStep(s4, UpdateWrites(j), []);
    RunNothing(Next(s4, UpdateWrites(j)));
  }

  /** Every ring and every keyspace with a strategy have a run from the start that ends so. */
  lemma DropInsideRebuildHappens(r: Ring, ks: Keyspace) returns (steps: seq<Step>)
    requires ValidRing(r) && ks.strategy.Some?
    ensures (forall e <- steps :: ValidStep(e)) && Quiet(Run(START, steps)) && !Coherent(Run(START, steps).shared)
  {
    hide FreshMap, Run;
    var begin, end := [UpdateReads(0, ks, false)] + ([UpdateWrites(0)] + ([RefreshLocks(0)] + MOVES)),
        DropInsideRebuild(0, ks.name);
    steps := [RingReplaced(Some(r))] + (begin + end);
    var ringed := Next(START, RingReplaced(Some(r)));
    var known := ringed.(shared := Update(ringed.shared, ks));
    RunStep(START, RingReplaced(Some(r)), begin + end);
    RunAppend(ringed, begin, end);
    UpdateAlone(ringed, 0, ks);
    DropInsideRebuildFails(known, 0, ks.name);
  }

  lemma StrategyGivesMap(r: Ring, strategy: Option<Strategy>)
    requires ValidRing(r)
    ensures FreshMap(r, strategy).Some? == strategy.Some?
  {
  }
}
