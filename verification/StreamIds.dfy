/** The stream ids of one connection: `Connection.get_request_id`, the places that take and
    give back ids, and the `in_flight` count that is meant to keep the ids from running out.
    Every region that holds the connection's lock is one step; threads interleave freely
    between steps. The one call that is made without the lock is a single step here;
    StreamIdRaces takes it apart. */
module StreamIds {
  import opened Seqs

  /** What has become of an id that is not free. */
  datatype Stage =
    | Taken     // handed out, its request not yet registered by send_msg
    | Waiting   // in `_requests`
    | Answered  // popped from `_requests`, not yet put back

  /** `free` is the deque `request_ids`. `grants` counts the slots of set_keyspace_async that
      have no id yet, `unreturned` the finished requests that still count as in flight. */
  datatype State = State(maxId: int, free: seq<int>, highest: int, inFlight: int,
                         issued: map<int, Stage>, grants: nat, unreturned: nat, handshaking: bool)

  function UpTo(n: int): seq<int>
    requires n >= 0
  {
    seq(n, i => i)
  }

  /** `Connection.__init__`. */
  function Initial(protocolVersion: int, maxInFlight: nat): State {
    if protocolVersion >= 3 then
      var size := Min(300, maxInFlight);
      State(Min(maxInFlight - 1, 32767), UpTo(size), size - 1, 0, map[], 0, 0, true)
    else
      var maxId := Min(maxInFlight, 127);
      State(maxId, UpTo(maxId + 1), maxId, 0, map[], 0, 0, true)
  }

  /** `get_request_id`: nothing is the failed assertion. */
  function TakeId(s: State): Option<(int, State)> {
    if s.free != [] then Some((s.free[0], s.(free := s.free[1..])))
    else if s.highest + 1 <= s.maxId then Some((s.highest + 1, s.(highest := s.highest + 1)))
    else None
  }

  function Issue(s: State, stage: Stage): Option<State> {
    match TakeId(s)
    case None => None
    case Some((id, s')) => Some(s'.(issued := s'.issued[id := stage]))
  }

  function IssueMany(s: State, n: nat): Option<State>
    decreases n
  {
    if n == 0 then Some(s)
    else
      match Issue(s, Taken)
      case None => None
      case Some(s') => IssueMany(s', n - 1)
  }

  datatype Event =
    | HandshakeSend                 // an options, startup or credentials message
    | HandshakeDone
    | Borrow                        // HostConnection.borrow_connection
    | PoolBorrow                    // HostConnectionPool.borrow_connection, _wait_for_conn
    | Heartbeat                     // HeartbeatFuture.__init__
    | WaitForResponses(needed: nat) // one turn of wait_for_responses
    | Send(id: int)                 // send_msg registers the request
    | SetKeyspace                   // set_keyspace_async counts itself in
    | KeyspaceUnchanged             // and needs no request
    | KeyspaceTake                  // or takes its id
    | Response(id: int)             // process_msg pops the request
    | PutBack(id: int)              // process_msg gives the id back
    | Return                        // return_connection, got_response, the heartbeat thread

  /** One step; an event that cannot happen in a state leaves it alone. Nothing means that the
      assertion in get_request_id failed. */
  function Next(s: State, e: Event): Option<State> {
    match e
    case HandshakeSend => if s.handshaking && s.issued == map[] then Issue(s, Waiting) else Some(s)
    case HandshakeDone => if s.issued == map[] then Some(s.(handshaking := false)) else Some(s)
    case Borrow =>
      if !s.handshaking && s.inFlight <= s.maxId then Issue(s.(inFlight := s.inFlight + 1), Taken) else Some(s)
    case PoolBorrow =>
      if !s.handshaking && s.inFlight < s.maxId then Issue(s.(inFlight := s.inFlight + 1), Taken) else Some(s)
    case Heartbeat =>
      if !s.handshaking && s.inFlight <= s.maxId then Issue(s.(inFlight := s.inFlight + 1), Waiting) else Some(s)
    case WaitForResponses(needed) =>
      var available := Min(needed, s.maxId - s.inFlight + 1);
      if !s.handshaking && available >= 0 then IssueMany(s.(inFlight := s.inFlight + available), available) else Some(s)
    case Send(id) =>
      if id in s.issued && s.issued[id] == Taken then Some(s.(issued := s.issued[id := Waiting])) else Some(s)
    case SetKeyspace =>
      if !s.handshaking && s.inFlight < s.maxId then Some(s.(inFlight := s.inFlight + 1, grants := s.grants + 1))
        else Some(s)
    case KeyspaceUnchanged =>
      if s.grants > 0 then Some(s.(grants := s.grants - 1, unreturned := s.unreturned + 1)) else Some(s)
    case KeyspaceTake =>
      if s.grants > 0 then Issue(s.(grants := s.grants - 1), Taken) else Some(s)
    case Response(id) =>
      if id in s.issued && s.issued[id] == Waiting then Some(s.(issued := s.issued[id := Answered])) else Some(s)
    case PutBack(id) =>
      if id in s.issued && s.issued[id] == Answered then
        Some(s.(issued := s.issued - {id}, free := s.free + [id],
                unreturned := s.unreturned + if s.handshaking then 0 else 1))
      else Some(s)
    case Return =>
      if s.unreturned > 0 then Some(s.(unreturned := s.unreturned - 1, inFlight := s.inFlight - 1)) else Some(s)
  }

  function Run(s: State, events: seq<Event>): Option<State> {
    if events == [] then Some(s)
    else
      match Run(s, events[..|events| - 1])
      case None => None
      case Some(t) => Next(t, events[|events| - 1])
  }

  // ----------------------------------------------------------------------- the invariant

  /** Free and issued ids partition 0..highest. */
  ghost predicate Parts(free: seq<int>, ids: set<int>, highest: int, maxId: int) {
    && 0 <= highest <= maxId
    && Distinct(free)
    && Elems(free) !! ids
    && Elems(free) + ids == Elems(UpTo(highest + 1))
  }

  ghost predicate Partition(s: State) { Parts(s.free, s.issued.Keys, s.highest, s.maxId) }

  /** Every unit of in_flight is an issued id, a slot waiting for one, or a request that has
      given its id back and not yet been counted out. */
  ghost predicate Conserved(s: State) {
    if s.handshaking then s.inFlight == 0 && s.grants == 0 && s.unreturned == 0 && |s.issued| <= 1
    else s.inFlight == |s.issued| + s.grants + s.unreturned <= s.maxId + 1
  }

  ghost predicate Sound(s: State) { Partition(s) && Conserved(s) }

  lemma UpToFacts(n: nat)
    ensures Distinct(UpTo(n)) && |Elems(UpTo(n))| == n
    ensures forall i :: i in Elems(UpTo(n)) <==> 0 <= i < n
  {
    DistinctCardinality(UpTo(n));
    forall i ensures i in Elems(UpTo(n)) <==> 0 <= i < n {
      if 0 <= i < n { assert UpTo(n)[i] == i; }
    }
  }

  lemma CountIds(free: seq<int>, ids: set<int>, highest: int, maxId: int)
    requires Parts(free, ids, highest, maxId)
    ensures |free| + |ids| == highest + 1
  {
    UpToFacts(highest + 1);
    DistinctCardinality(free);
    hide Elems, UpTo, Distinct;
    assert |Elems(free) + ids| == |Elems(free)| + |ids|;
  }

  lemma SplitHead(free: seq<int>)
    requires free != [] && Distinct(free)
    ensures Distinct(free[1..]) && free[0] !in Elems(free[1..])
    ensures Elems(free) == {free[0]} + Elems(free[1..])
  {
    assert free == [free[0]] + free[1..];
    ElemsConcat([free[0]], free[1..]);
    assert Elems([free[0]]) == {free[0]};
  }

  lemma PopKeeps(free: seq<int>, ids: set<int>, highest: int, maxId: int)
    requires Parts(free, ids, highest, maxId) && free != []
    ensures Parts(free[1..], ids + {free[0]}, highest, maxId)
    ensures free[0] !in ids && 0 <= free[0] <= maxId
  {
    hide Elems, UpTo, Distinct;
    UpToFacts(highest + 1);
    SplitHead(free);
    assert free[0] in Elems(free) + ids;
  }

  lemma GrowKeeps(ids: set<int>, highest: int, maxId: int)
    requires Parts([], ids, highest, maxId) && highest < maxId
    ensures Parts([], ids + {highest + 1}, highest + 1, maxId)
    ensures highest + 1 !in ids
  {
    assert Elems<int>([]) == {};
    hide UpTo, Elems, Distinct;
    UpToFacts(highest + 1);
    UpToFacts(highest + 2);
    assert ids == Elems(UpTo(highest + 1));
    assert Elems(UpTo(highest + 2)) == Elems(UpTo(highest + 1)) + {highest + 1};
  }

  lemma PutBackKeeps(free: seq<int>, ids: set<int>, highest: int, maxId: int, id: int)
    requires Parts(free, ids, highest, maxId) && id in ids
    ensures Parts(free + [id], ids - {id}, highest, maxId)
  {
    ElemsAppend(free, id);
    assert id !in free by { assert id in free ==> id in Elems(free); }
    hide UpTo;
  }

  /** While fewer ids are issued than there may be, taking one succeeds, and the id taken was
      not issued. */
  lemma TakeIsFresh(s: State)
    requires Partition(s) && |s.issued| <= s.maxId
    ensures TakeId(s).Some?
    ensures 0 <= TakeId(s).value.0 <= s.maxId && TakeId(s).value.0 !in s.issued
    ensures var (id, t) := TakeId(s).value;
            t == s.(free := t.free, highest := t.highest) && Parts(t.free, t.issued.Keys + {id}, t.highest, t.maxId)
  {
    hide Parts;
    CountIds(s.free, s.issued.Keys, s.highest, s.maxId);
    HighestIsNatural(s.free, s.issued.Keys, s.highest, s.maxId);
    assert |s.issued| == |s.issued.Keys|;
    if s.free != [] {
      PopKeeps(s.free, s.issued.Keys, s.highest, s.maxId);
    } else {
      GrowKeeps(s.issued.Keys, s.highest, s.maxId);
    }
  }

  lemma HighestIsNatural(free: seq<int>, ids: set<int>, highest: int, maxId: int)
    requires Parts(free, ids, highest, maxId)
    ensures 0 <= highest
  {
  }

  lemma InsertCount<V>(m: map<int, V>, k: int, v: V)
    requires k !in m
    ensures m[k := v].Keys == m.Keys + {k} && |m[k := v]| == |m| + 1
  {
    assert m[k := v].Keys == m.Keys + {k};
  }

  lemma RemoveCount<V>(m: map<int, V>, k: int)
    requires k in m
    ensures (m - {k}).Keys == m.Keys - {k} && |m - {k}| == |m| - 1
  {
    assert (m - {k}).Keys == m.Keys - {k};
  }

  lemma UpdateCount<V>(m: map<int, V>, k: int, v: V)
    requires k in m
    ensures m[k := v].Keys == m.Keys && |m[k := v]| == |m|
  {
    assert m[k := v].Keys == m.Keys;
  }

  lemma IssueKeeps(s: State, stage: Stage)
    requires Partition(s) && |s.issued| <= s.maxId
    ensures Issue(s, stage).Some? && Partition(Issue(s, stage).value)
    ensures var s' := Issue(s, stage).value;
            && |s'.issued| == |s.issued| + 1
            && s' == s.(free := s'.free, highest := s'.highest, issued := s'.issued)
  {
    hide Parts, TakeId;
    TakeIsFresh(s);
    InsertCount(s.issued, TakeId(s).value.0, stage);
  }

  lemma {:induction false} IssueManyKeeps(s: State, n: nat)
    requires Partition(s) && |s.issued| + n <= s.maxId + 1
    ensures IssueMany(s, n).Some? && Partition(IssueMany(s, n).value)
    ensures var s' := IssueMany(s, n).value;
            && |s'.issued| == |s.issued| + n
            && s' == s.(free := s'.free, highest := s'.highest, issued := s'.issued)
    decreases n
  {
    hide Partition, Issue;
    if n > 0 {
      IssueKeeps(s, Taken);
      IssueManyKeeps(Issue(s, Taken).value, n - 1);
    }
  }

  lemma PutBackSound(s: State, id: int)
    requires Sound(s) && id in s.issued
    ensures Sound(s.(issued := s.issued - {id}, free := s.free + [id],
                     unreturned := s.unreturned + if s.handshaking then 0 else 1))
  {
    hide Parts;
    PutBackKeeps(s.free, s.issued.Keys, s.highest, s.maxId, id);
    RemoveCount(s.issued, id);
  }

  lemma StageKeeps(s: State, id: int, stage: Stage)
    requires Sound(s) && id in s.issued
    ensures Sound(s.(issued := s.issued[id := stage]))
  {
    hide Parts;
    UpdateCount(s.issued, id, stage);
  }

  /** A step that counts itself in and takes an id. */
  lemma AdmitSound(s: State, stage: Stage)
    requires Sound(s) && !s.handshaking && s.inFlight <= s.maxId
    ensures var t := s.(inFlight := s.inFlight + 1);
            && Issue(t, stage).Some? && Sound(Issue(t, stage).value)
            && TakeId(t).Some? && TakeId(t).value.0 !in s.issued
  {
    hide Parts, Issue, TakeId;
    IssueKeeps(s.(inFlight := s.inFlight + 1), stage);
    TakeIsFresh(s.(inFlight := s.inFlight + 1));
  }

  lemma HandshakeSound(s: State)
    requires Sound(s) && s.handshaking && s.issued == map[]
    ensures Issue(s, Waiting).Some? && Sound(Issue(s, Waiting).value)
  {
    assert 0 <= s.maxId;
    hide Parts, Issue;
    IssueKeeps(s, Waiting);
  }

  lemma KeyspaceTakeSound(s: State)
    requires Sound(s) && s.grants > 0
    ensures var t := s.(grants := s.grants - 1);
            && Issue(t, Taken).Some? && Sound(Issue(t, Taken).value)
            && TakeId(t).Some? && TakeId(t).value.0 !in s.issued
  {
    hide Parts, Issue, TakeId;
    IssueKeeps(s.(grants := s.grants - 1), Taken);
    TakeIsFresh(s.(grants := s.grants - 1));
  }

  /** The steps that only move counts. */
  lemma CountSound(s: State, e: Event)
    requires Sound(s)
    requires e.HandshakeDone? || e.SetKeyspace? || e.KeyspaceUnchanged? || e.Return?
    ensures Sound(Next(s, e).value)
  {
    assert 0 <= s.maxId;
    assert s.issued == map[] ==> |s.issued| == 0;
    hide Parts, Issue, IssueMany;
  }

  /** The asserted bound holds at every step, and every step keeps the invariant. */
  lemma StepSound(s: State, e: Event)
    requires Sound(s)
    ensures Next(s, e).Some? && Sound(Next(s, e).value)
  {
    hide Sound, Issue, IssueMany;
    match e
    case HandshakeSend => if s.handshaking && s.issued == map[] { HandshakeSound(s); }
    case Borrow => if !s.handshaking && s.inFlight <= s.maxId { AdmitSound(s, Taken); }
    case PoolBorrow => if !s.handshaking && s.inFlight < s.maxId { AdmitSound(s, Taken); }
    case Heartbeat => if !s.handshaking && s.inFlight <= s.maxId { AdmitSound(s, Waiting); }
    case WaitForResponses(needed) => WaitSound(s, needed);
    case KeyspaceTake => if s.grants > 0 { KeyspaceTakeSound(s); }
    case Send(id) => if id in s.issued { StageKeeps(s, id, Waiting); }
    case Response(id) => if id in s.issued { StageKeeps(s, id, Answered); }
    case PutBack(id) => if id in s.issued { PutBackSound(s, id); }
    case _ => CountSound(s, e);
  }

  lemma WaitRoom(s: State, needed: nat)
    requires Sound(s) && !s.handshaking
    ensures Partition(s) && 0 <= Min(needed, s.maxId - s.inFlight + 1)
    ensures |s.issued| + Min(needed, s.maxId - s.inFlight + 1) <= s.maxId + 1
  {
  }

  lemma WaitSound(s: State, needed: nat)
    requires Sound(s)
    ensures Next(s, WaitForResponses(needed)).Some? && Sound(Next(s, WaitForResponses(needed)).value)
  {
    hide Parts, IssueMany;
    var available := Min(needed, s.maxId - s.inFlight + 1);
    if !s.handshaking && available >= 0 {
      IssueManyKeeps(s.(inFlight := s.inFlight + available), available);
    }
  }

  lemma InitialSound(protocolVersion: int, maxInFlight: nat)
    requires maxInFlight > 0
    ensures Sound(Initial(protocolVersion, maxInFlight))
  {
    hide Parts, UpTo;
    var s := Initial(protocolVersion, maxInFlight);
    AllFree(s.highest, s.maxId);
    assert s.issued.Keys == {};
  }

  lemma AllFree(highest: int, maxId: int)
    requires 0 <= highest <= maxId
    ensures Parts(UpTo(highest + 1), {}, highest, maxId)
  {
    hide UpTo, Elems, Distinct;
    UpToFacts(highest + 1);
  }

  /** Over every interleaving, from the constructor on: the assertion in get_request_id never
      fails, free and issued ids partition 0..highest, and in_flight accounts for every issued
      id and never exceeds the number of ids. */
  lemma {:induction false} AlwaysSound(protocolVersion: int, maxInFlight: nat, events: seq<Event>)
    requires maxInFlight > 0
    ensures Run(Initial(protocolVersion, maxInFlight), events).Some?
    ensures Sound(Run(Initial(protocolVersion, maxInFlight), events).value)
  {
    hide Sound, Next;
    if events == [] {
      InitialSound(protocolVersion, maxInFlight);
    } else {
      AlwaysSound(protocolVersion, maxInFlight, events[..|events| - 1]);
      StepSound(Run(Initial(protocolVersion, maxInFlight), events[..|events| - 1]).value, events[|events| - 1]);
    }
  }

  // ----------------------------------------------------------------- a request from end to end

  /** The id that is taken next: the one that has been free the longest, or a new one. */
  function NextId(s: State): int { if s.free != [] then s.free[0] else s.highest + 1 }

  function FreeAfter(s: State): seq<int> { if s.free != [] then s.free[1..] else [] }

  function HighestAfter(s: State): int { if s.free != [] then s.highest else s.highest + 1 }

  /** Step after step. */
  function Steps(s: State, events: seq<Event>): Option<State>
    decreases |events|
  {
    if events == [] then Some(s)
    else match Next(s, events[0]) case None => None case Some(t) => Steps(t, events[1..])
  }

  /** What a request leaves behind: its id is free again, behind the others, and nothing else has
      changed but that the id may be a new one. */
  function Settled(s: State): State {
    s.(free := FreeAfter(s) + [NextId(s)], highest := HighestAfter(s))
  }

  lemma TakeNext(s: State)
    requires Sound(s) && !s.handshaking && s.inFlight <= s.maxId
    ensures TakeId(s).Some? && TakeId(s).value.0 == NextId(s) && NextId(s) !in s.issued
    ensures TakeId(s).value.1 ==
            s.(free := FreeAfter(s), highest := HighestAfter(s))
  {
    hide Parts;
    assert |s.issued| <= s.maxId;
    TakeIsFresh(s);
  }

  /** What happens to an id once it has been taken. */
  function AfterTake(id: int): seq<Event> {
    [Send(id)] + ([Response(id)] + ([PutBack(id)] + ([Return] + [])))
  }

  /** A taken id that is sent, answered and returned is free again. */
  lemma RestOfCycle(s: State, id: int)
    requires !s.handshaking && id !in s.issued
    ensures Steps(s.(issued := s.issued[id := Taken]), AfterTake(id)) ==
            Some(s.(free := s.free + [id], inFlight := s.inFlight - 1))
  {
    hide Steps;
    var taken, waiting := s.(issued := s.issued[id := Taken]), s.(issued := s.issued[id := Waiting]);
    var answered := s.(issued := s.issued[id := Answered]);
    assert taken.issued[id := Waiting] == waiting.issued && waiting.issued[id := Answered] == answered.issued;
    assert answered.issued - {id} == s.issued;
    StepFirst(taken, Send(id), [Response(id)] + ([PutBack(id)] + ([Return] + [])));
    StepFirst(waiting, Response(id), [PutBack(id)] + ([Return] + []));
    StepFirst(answered, PutBack(id), [Return] + []);
    StepFirst(s.(free := s.free + [id], unreturned := s.unreturned + 1), Return, []);
    StepsNone(s.(free := s.free + [id], inFlight := s.inFlight - 1));
  }

  /** An id is taken: the state with one more in flight. */
  function TakenIn(s: State): State {
    s.(inFlight := s.inFlight + 1, free := FreeAfter(s), highest := HighestAfter(s))
  }

  lemma BorrowTakes(s: State)
    requires Sound(s) && !s.handshaking && s.inFlight <= s.maxId
    ensures NextId(s) !in s.issued
    ensures Next(s, Borrow) == Some(TakenIn(s).(issued := s.issued[NextId(s) := Taken]))
  {
    hide Sound, TakeId;
    TakeNext(s);
    TakeIgnoresCount(s, s.(inFlight := s.inFlight + 1));
  }

  lemma KeyspaceTakes(s: State)
    requires Sound(s) && !s.handshaking && s.inFlight < s.maxId
    ensures NextId(s) !in s.issued
    ensures Next(s.(inFlight := s.inFlight + 1, grants := s.grants + 1), KeyspaceTake) ==
            Some(TakenIn(s).(issued := s.issued[NextId(s) := Taken]))
  {
    hide Sound, TakeId;
    TakeNext(s);
    TakeIgnoresCount(s, s.(inFlight := s.inFlight + 1));
  }

  lemma TakenSettles(s: State)
    requires !s.handshaking && NextId(s) !in s.issued
    ensures Steps(TakenIn(s).(issued := s.issued[NextId(s) := Taken]), AfterTake(NextId(s))) == Some(Settled(s))
  {
    hide Steps, AfterTake, NextId;
    RestOfCycle(TakenIn(s), NextId(s));
  }

  /** A request that is borrowed for, sent, answered and returned undoes itself. */
  lemma RequestCycle(s: State)
    requires Sound(s) && !s.handshaking && s.inFlight <= s.maxId
    ensures Steps(s, [Borrow] + AfterTake(NextId(s))) == Some(Settled(s))
  {
    hide Sound, Steps, Next, AfterTake, NextId, Settled, TakenIn;
    BorrowTakes(s);
    StepFirst(s, Borrow, AfterTake(NextId(s)));
    TakenSettles(s);
  }

  lemma TakeIgnoresCount(s: State, t: State)
    requires TakeId(s).Some? && t == s.(inFlight := t.inFlight, grants := t.grants)
    ensures TakeId(t).Some? && TakeId(t).value.0 == TakeId(s).value.0
    ensures TakeId(t).value.1 == TakeId(s).value.1.(inFlight := t.inFlight, grants := t.grants)
  {
  }

  lemma StepFirst(s: State, e: Event, rest: seq<Event>)
    ensures Steps(s, [e] + rest) == match Next(s, e) case None => None case Some(t) => Steps(t, rest)
  {
    assert ([e] + rest)[1..] == rest;
  }

  lemma StepsNone(s: State)
    ensures Steps(s, []) == Some(s)
  {
  }

  /** So does a change of keyspace, whether it needs a request or not. */
  lemma KeyspaceCycle(s: State)
    requires Sound(s) && !s.handshaking && s.inFlight < s.maxId
    ensures Steps(s, [SetKeyspace] + ([KeyspaceUnchanged] + ([Return] + []))) == Some(s)
    ensures Steps(s, [SetKeyspace] + ([KeyspaceTake] + AfterTake(NextId(s)))) == Some(Settled(s))
  {
    hide Sound, Steps, AfterTake, NextId, Settled, TakenIn, Issue, IssueMany, TakeId;
    var counted := s.(inFlight := s.inFlight + 1);
    var granted := counted.(grants := s.grants + 1);
    StepFirst(s, SetKeyspace, [KeyspaceUnchanged] + ([Return] + []));
    StepFirst(granted, KeyspaceUnchanged, [Return] + []);
    StepFirst(counted.(unreturned := s.unreturned + 1), Return, []);
    StepsNone(s);
    KeyspaceTakes(s);
    StepFirst(s, SetKeyspace, [KeyspaceTake] + AfterTake(NextId(s)));
    StepFirst(granted, KeyspaceTake, AfterTake(NextId(s)));
    TakenSettles(s);
  }

  // ------------------------------------------------------------------------------ capacity

  /** How many requests a connection can have in flight: the driver's limit, but no more than 32768
      ids, and 128 before version 3, where one more is allowed than asked for. */
  function Capacity(protocolVersion: int, maxInFlight: nat): nat {
    if protocolVersion >= 3 then Min(maxInFlight, 32768) else Min(maxInFlight, 127) + 1
  }

  function Repeat(n: nat): seq<Event> { if n == 0 then [] else Repeat(n - 1) + [Borrow] }

  /** The ids 0 to n - 1 are issued, in a connection that has just been opened. */
  ghost predicate FirstIssued(protocolVersion: int, maxInFlight: nat, s: State, n: nat) {
    var first := Initial(protocolVersion, maxInFlight);
    && !s.handshaking && s.inFlight == n && s.maxId == first.maxId && s.grants == 0 && s.unreturned == 0
    && s.issued.Keys == Elems(UpTo(n))
    && s.highest == Max(first.highest, n - 1)
    && s.free == seq(s.highest + 1 - n, i requires 0 <= i => n + i)
  }

  /** Borrowing over and over without returning hands out the ids 0, 1, 2 and so on, up to the
      capacity, and nothing after that. */
  lemma {:induction false} BorrowsCountUp(protocolVersion: int, maxInFlight: nat, n: nat)
    ensures var s := Run(Initial(protocolVersion, maxInFlight), [HandshakeDone] + Repeat(n));
            && s.Some?
            && FirstIssued(protocolVersion, maxInFlight, s.value, Min(n, Capacity(protocolVersion, maxInFlight)))
    decreases n
  {
    hide FirstIssued, Next, Initial, Run, Capacity;
    if n == 0 {
      HandshakeOnly(protocolVersion, maxInFlight);
    } else {
      BorrowsCountUp(protocolVersion, maxInFlight, n - 1);
      var events, first := [HandshakeDone] + Repeat(n - 1), Initial(protocolVersion, maxInFlight);
      assert [HandshakeDone] + Repeat(n) == events + [Borrow];
      RunMore(first, events, Borrow);
      OneMoreBorrow(protocolVersion, maxInFlight, Run(first, events).value,
                    Min(n - 1, Capacity(protocolVersion, maxInFlight)));
    }
  }

  lemma RunMore(s: State, events: seq<Event>, e: Event)
    requires Run(s, events).Some?
    ensures Run(s, events + [e]) == Next(Run(s, events).value, e)
  {
    assert (events + [e])[..|events|] == events;
  }

  lemma HandshakeOnly(protocolVersion: int, maxInFlight: nat)
    ensures var s := Run(Initial(protocolVersion, maxInFlight), [HandshakeDone] + Repeat(0));
            s.Some? && FirstIssued(protocolVersion, maxInFlight, s.value, 0)
  {
    var first := Initial(protocolVersion, maxInFlight);
    assert [HandshakeDone] + Repeat(0) == [] + [HandshakeDone];
    RunMore(first, [], HandshakeDone);
    assert Elems(UpTo(0)) == {};
  }

  lemma OneMoreBorrow(protocolVersion: int, maxInFlight: nat, s: State, k: nat)
    requires FirstIssued(protocolVersion, maxInFlight, s, k)
    requires k <= Capacity(protocolVersion, maxInFlight)
    ensures Next(s, Borrow).Some?
    ensures FirstIssued(protocolVersion, maxInFlight, Next(s, Borrow).value,
                        Min(k + 1, Capacity(protocolVersion, maxInFlight)))
  {
    var first := Initial(protocolVersion, maxInFlight);
    assert first.maxId + 1 == Capacity(protocolVersion, maxInFlight);
    if k < Capacity(protocolVersion, maxInFlight) {
      var t := Next(s, Borrow).value;
      UpToMore(k);
      assert t.free == seq(t.highest + 1 - (k + 1), i requires 0 <= i => k + 1 + i);
      assert t.issued.Keys == s.issued.Keys + {k};
    }
  }

  lemma UpToMore(n: nat)
    ensures Elems(UpTo(n + 1)) == Elems(UpTo(n)) + {n}
  {
    assert UpTo(n + 1) == UpTo(n) + [n];
    ElemsAppend(UpTo(n), n);
  }

  /** How many ids a step takes. */
  function Takes(s: State, e: Event): nat {
    match e
    case HandshakeSend => if s.handshaking && s.issued == map[] then 1 else 0
    case Borrow => if !s.handshaking && s.inFlight <= s.maxId then 1 else 0
    case PoolBorrow => if !s.handshaking && s.inFlight < s.maxId then 1 else 0
    case Heartbeat => if !s.handshaking && s.inFlight <= s.maxId then 1 else 0
    case WaitForResponses(needed) => if !s.handshaking then Max(Min(needed, s.maxId - s.inFlight + 1), 0) else 0
    case KeyspaceTake => if s.grants > 0 then 1 else 0
    case _ => 0
  }

  /** n more ids are held, and the holders of the others are left alone. */
  ghost predicate Added(issued: map<int, Stage>, issued': map<int, Stage>, n: nat) {
    && |issued'| == |issued| + n
    && (forall id :: id in issued ==> id in issued' && issued'[id] == issued[id])
  }

  /** No interleaving hands out an id that someone still holds: a step that takes n ids adds n
      ids to those held. */
  lemma NeverIssuedTwice(protocolVersion: int, maxInFlight: nat, events: seq<Event>, e: Event)
    requires maxInFlight > 0
    ensures Run(Initial(protocolVersion, maxInFlight), events).Some?
    ensures var s := Run(Initial(protocolVersion, maxInFlight), events).value;
            Takes(s, e) > 0 ==> Next(s, e).Some? && Added(s.issued, Next(s, e).value.issued, Takes(s, e))
  {
    hide Next, Sound, Takes, Added;
    AlwaysSound(protocolVersion, maxInFlight, events);
    var s := Run(Initial(protocolVersion, maxInFlight), events).value;
    if Takes(s, e) > 0 {
      RoomFor(s, e);
      TakesAreFresh(s, e);
    }
  }

  /** The in_flight checks leave room for the ids a step takes. */
  lemma RoomFor(s: State, e: Event)
    requires Sound(s) && Takes(s, e) > 0
    ensures Partition(s) && |s.issued| + Takes(s, e) <= s.maxId + 1
  {
    assert 0 <= s.maxId;
    assert s.issued == map[] ==> |s.issued| == 0;
    hide Parts;
  }

  lemma TakesAreFresh(s: State, e: Event)
    requires Partition(s) && Takes(s, e) > 0 && |s.issued| + Takes(s, e) <= s.maxId + 1
    ensures Next(s, e).Some? && Added(s.issued, Next(s, e).value.issued, Takes(s, e))
  {
    hide Parts, Issue, IssueMany, Added;
    match e
    case HandshakeSend => IssueAdds(s, Waiting);
    case Borrow => IssueAdds(s.(inFlight := s.inFlight + 1), Taken);
    case PoolBorrow => IssueAdds(s.(inFlight := s.inFlight + 1), Taken);
    case Heartbeat => IssueAdds(s.(inFlight := s.inFlight + 1), Waiting);
    case KeyspaceTake => IssueAdds(s.(grants := s.grants - 1), Taken);
    case WaitForResponses(needed) => ManyAdd(s.(inFlight := s.inFlight + Takes(s, e)), Takes(s, e));
  }

  lemma IssueAdds(s: State, stage: Stage)
    requires Partition(s) && |s.issued| <= s.maxId
    ensures Issue(s, stage).Some? && Added(s.issued, Issue(s, stage).value.issued, 1)
  {
    hide Parts, TakeId;
    TakeIsFresh(s);
    InsertCount(s.issued, TakeId(s).value.0, stage);
  }

  lemma {:induction false} ManyAdd(s: State, n: nat)
    requires Partition(s) && |s.issued| + n <= s.maxId + 1
    ensures IssueMany(s, n).Some? && Added(s.issued, IssueMany(s, n).value.issued, n)
    decreases n
  {
    hide Partition, Issue;
    if n > 0 {
      IssueKeeps(s, Taken);
      IssueAdds(s, Taken);
      ManyAdd(Issue(s, Taken).value, n - 1);
    }
  }

  // ------------------------------------------------------------------------- the object

  ghost predicate Registered(requests: set<int>, stages: map<int, Stage>) {
    forall id :: id in requests <==> id in stages && stages[id] == Waiting
  }

  lemma RegisteredUpdate(requests: set<int>, stages: map<int, Stage>, id: int, stage: Stage)
    requires Registered(requests, stages)
    ensures Registered(if stage == Waiting then requests + {id} else requests - {id}, stages[id := stage])
    ensures id !in requests && stage != Waiting ==> Registered(requests, stages[id := stage])
    ensures id !in requests ==> Registered(requests, stages - {id})
    ensures id !in stages ==> id !in requests
  {
    assert id !in requests ==> requests - {id} == requests;
  }

  lemma NotWaiting(requests: set<int>, stages: map<int, Stage>, id: int)
    requires Registered(requests, stages) && id in stages && stages[id] != Waiting
    ensures id !in requests
  {
  }

  /** The ids are distinct, nobody held them before, and they are held now, besides those that
      were held before. */
  ghost predicate FreshlyTaken(ids: seq<int>, before: map<int, Stage>, after: map<int, Stage>) {
    && Distinct(ids)
    && (forall id <- ids :: id !in before)
    && (forall id :: id in after <==> id in before || id in ids)
    && (forall id <- after :: after[id] == if id in before then before[id] else Taken)
  }

  lemma NoneTaken(stages: map<int, Stage>)
    ensures FreshlyTaken([], stages, stages)
  {
  }

  lemma OneMoreTaken(ids: seq<int>, before: map<int, Stage>, stages: map<int, Stage>, id: int)
    requires FreshlyTaken(ids, before, stages) && id !in stages
    ensures FreshlyTaken(ids + [id], before, stages[id := Taken])
  {
    assert forall x :: x in ids + [id] <==> x in ids || x == id;
    assert id !in ids;
  }

  /** The fields of `Connection` that the allocator uses. The ghost fields are the bookkeeping
      of the step machine. */
  class Connection {
    const maxRequestId: int
    var requestIds: seq<int>
    var highestRequestId: int
    var inFlight: int
    var requests: set<int>
    ghost var stages: map<int, Stage>
    ghost var grants: nat
    ghost var unreturned: nat
    ghost var handshaking: bool

    ghost function Snapshot(): State
      reads this
    {
      State(maxRequestId, requestIds, highestRequestId, inFlight, stages, grants, unreturned, handshaking)
    }

    /** `_requests` holds exactly the ids that await a response. */
    ghost predicate Valid()
      reads this
    {
      && Sound(Snapshot())
      && Registered(requests, stages)
    }

    constructor (protocolVersion: int, maxInFlight: nat)
      requires maxInFlight > 0
      ensures Valid() && Snapshot() == Initial(protocolVersion, maxInFlight)
    {
      hide Sound, UpTo;
      if protocolVersion >= 3 {
        maxRequestId := Min(maxInFlight - 1, 32767);
        var initialSize := Min(300, maxInFlight);
        requestIds, highestRequestId := UpTo(initialSize), initialSize - 1;
      } else {
        var maxId := Min(maxInFlight, 127);
        maxRequestId := maxId;
        requestIds, highestRequestId := UpTo(maxId + 1), maxId;
      }
      inFlight, requests := 0, {};
      stages, grants, unreturned, handshaking := map[], 0, 0, true;
      InitialSound(protocolVersion, maxInFlight);
    }

    /** The lock is held, or the call is the unlocked one taken as a single step. */
    method GetRequestId() returns (id: int)
      requires TakeId(Snapshot()).Some?
      modifies this`requestIds, this`highestRequestId
      ensures TakeId(old(Snapshot())) == Some((id, Snapshot()))
    {
      if requestIds != [] {
        id := requestIds[0];
        requestIds := requestIds[1..];
      } else {
        var newRequestId := highestRequestId + 1;
        assert newRequestId <= maxRequestId;
        highestRequestId := newRequestId;
        id := highestRequestId;
      }
    }

    /** `HostConnection.borrow_connection`: one turn of its loop. The pool is handed the
        connection only once the handshake is over. */
    method BorrowConnection() returns (id: Option<int>)
      requires Valid() && !handshaking
      modifies this
      ensures Valid() && Some(Snapshot()) == Next(old(Snapshot()), Borrow)
      ensures id.Some? <==> old(inFlight) <= maxRequestId
      ensures id.Some? ==> id.value !in old(stages) && id.value in stages && stages[id.value] == Taken
    {
      hide Sound, IssueMany, Registered, TakeId;
      id := None;
      if inFlight <= maxRequestId {
        AdmitSound(Snapshot(), Taken);
        inFlight := inFlight + 1;
        var taken := GetRequestId();
        RegisteredUpdate(requests, stages, taken, Taken);
        stages := stages[taken := Taken];
        id := Some(taken);
      }
    }

    /** `HostConnectionPool.borrow_connection` and `_wait_for_conn`: keeps one slot spare. */
    method PoolBorrowConnection() returns (id: Option<int>)
      requires Valid() && !handshaking
      modifies this
      ensures Valid() && Some(Snapshot()) == Next(old(Snapshot()), PoolBorrow)
      ensures id.Some? <==> old(inFlight) < maxRequestId
      ensures id.Some? ==> id.value !in old(stages) && id.value in stages && stages[id.value] == Taken
    {
      hide Parts, Issue, IssueMany, Registered;
      id := None;
      if inFlight < maxRequestId {
        id := BorrowConnection();
      }
    }

    /** `HeartbeatFuture.__init__`: counts, takes and sends under one lock. */
    method SendHeartbeat() returns (sent: bool)
      requires Valid() && !handshaking
      modifies this
      ensures Valid() && Some(Snapshot()) == Next(old(Snapshot()), Heartbeat)
      ensures sent == (old(inFlight) <= maxRequestId)
    {
      hide Sound, IssueMany, Registered, TakeId;
      sent := inFlight <= maxRequestId;
      if sent {
        AdmitSound(Snapshot(), Waiting);
        inFlight := inFlight + 1;
        var taken := GetRequestId();
        RegisteredUpdate(requests, stages, taken, Waiting);
        stages := stages[taken := Waiting];
        requests := requests + {taken};
      }
    }

    method TakeOne() returns (id: int)
      requires Partition(Snapshot()) && |stages| <= maxRequestId && Registered(requests, stages)
      modifies this`requestIds, this`highestRequestId, this`stages
      ensures Issue(old(Snapshot()), Taken) == Some(Snapshot()) && Registered(requests, stages)
      ensures id !in old(stages) && stages == old(stages)[id := Taken]
    {
      hide Parts, Registered, TakeId;
      TakeIsFresh(Snapshot());
      id := GetRequestId();
      RegisteredUpdate(requests, stages, id, Taken);
      stages := stages[id := Taken];
    }

    /** The locked region of `wait_for_responses`: as many ids as are needed and left. */
    method TakeForResponses(needed: nat) returns (ids: seq<int>)
      requires Valid() && !handshaking
      modifies this
      ensures Valid() && Some(Snapshot()) == Next(old(Snapshot()), WaitForResponses(needed))
      ensures |ids| == Min(needed, maxRequestId - old(inFlight) + 1)
      ensures FreshlyTaken(ids, old(stages), stages)
    {
      hide Sound, Parts, Registered, Issue, IssueMany, FreshlyTaken;
      WaitRoom(Snapshot(), needed);
      WaitSound(Snapshot(), needed);
      var available := Min(needed, maxRequestId - inFlight + 1);
      inFlight := inFlight + available;
      ids := TakeMany(available);
    }

    /** `[self.get_request_id() for _ in range(available)]`. */
    method TakeMany(available: nat) returns (ids: seq<int>)
      requires Partition(Snapshot()) && |stages| + available <= maxRequestId + 1 && Registered(requests, stages)
      modifies this`requestIds, this`highestRequestId, this`stages
      ensures IssueMany(old(Snapshot()), available) == Some(Snapshot()) && Registered(requests, stages)
      ensures |ids| == available && FreshlyTaken(ids, old(stages), stages)
    {
      hide Partition, Registered, Issue, FreshlyTaken;
      ids := [];
      NoneTaken(stages);
      while |ids| < available
        invariant |ids| <= available && FreshlyTaken(ids, old(stages), stages)
        invariant Partition(Snapshot()) && |stages| + (available - |ids|) <= maxRequestId + 1
        invariant IssueMany(Snapshot(), available - |ids|) == IssueMany(old(Snapshot()), available)
        invariant Registered(requests, stages)
      {
        IssueKeeps(Snapshot(), Taken);
        ghost var before := stages;
        var taken := TakeOne();
        OneMoreTaken(ids, old(stages), before, taken);
        ids := ids + [taken];
      }
    }

    /** `send_msg` registers the callback. */
    method SendMsg(id: int)
      requires Valid() && id in stages && stages[id] == Taken
      modifies this
      ensures Valid() && Some(Snapshot()) == Next(old(Snapshot()), Send(id))
    {
      hide Sound, Issue, IssueMany, Registered;
      StageKeeps(Snapshot(), id, Waiting);
      RegisteredUpdate(requests, stages, id, Waiting);
      requests := requests + {id};
      stages := stages[id := Waiting];
    }

    /** `set_keyspace_async`, one turn of its busy wait. */
    method ReserveForKeyspace() returns (admitted: bool)
      requires Valid() && !handshaking
      modifies this
      ensures Valid() && Some(Snapshot()) == Next(old(Snapshot()), SetKeyspace)
      ensures admitted == (old(inFlight) < maxRequestId)
    {
      hide Sound, Issue, IssueMany, Registered;
      CountSound(Snapshot(), SetKeyspace);
      admitted := inFlight < maxRequestId;
      if admitted {
        inFlight := inFlight + 1;
        grants := grants + 1;
      }
    }

    /** `set_keyspace_async`, when a USE query is needed. */
    method TakeForKeyspace() returns (id: int)
      requires Valid() && grants > 0
      modifies this
      ensures Valid() && Some(Snapshot()) == Next(old(Snapshot()), KeyspaceTake)
      ensures id !in old(stages) && id in stages && stages[id] == Taken
    {
      hide Sound, IssueMany, Registered, TakeId;
      KeyspaceTakeSound(Snapshot());
      grants := grants - 1;
      id := GetRequestId();
      RegisteredUpdate(requests, stages, id, Taken);
      stages := stages[id := Taken];
    }

    /** `process_msg`: pop the request; an unknown id is ignored. */
    method PopRequest(id: int) returns (known: bool)
      requires Valid()
      modifies this
      ensures Valid() && Some(Snapshot()) == Next(old(Snapshot()), Response(id))
      ensures known == (id in old(requests))
    {
      hide Sound, Issue, IssueMany;
      known := id in requests;
      if known {
        StageKeeps(Snapshot(), id, Answered);
        RegisteredUpdate(requests, stages, id, Answered);
        requests := requests - {id};
        stages := stages[id := Answered];
      }
    }

    /** `process_msg`: give the id back. */
    method PutBackId(id: int)
      requires Valid() && id in stages && stages[id] == Answered
      modifies this
      ensures Valid() && Some(Snapshot()) == Next(old(Snapshot()), PutBack(id))
    {
      hide Sound, Issue, IssueMany, Registered;
      PutBackSound(Snapshot(), id);
      NotWaiting(requests, stages, id);
      RegisteredUpdate(requests, stages, id, Answered);
      requestIds := requestIds + [id];
      stages := stages - {id};
      unreturned := unreturned + if handshaking then 0 else 1;
    }

    /** `return_connection`, `ResponseWaiter.got_response` and the heartbeat thread. */
    method ReturnConnection()
      requires Valid() && unreturned > 0
      modifies this
      ensures Valid() && Some(Snapshot()) == Next(old(Snapshot()), Return)
    {
      hide Sound, Issue, IssueMany, Registered;
      CountSound(Snapshot(), Return);
      inFlight := inFlight - 1;
      unreturned := unreturned - 1;
    }
  }
}
