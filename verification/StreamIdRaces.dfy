/** Stream ids at the grain of the interpreter's steps. `set_keyspace_async` calls
    `get_request_id` without the lock, so that its pop, its read, its write and its second read
    of `highest_request_id` interleave with every other thread, and with the same steps of the
    thread that holds the lock. */
module StreamIdRaces {
  import opened Seqs
  import opened StreamIds

  // ---------------------------------------------------------------------------- the machine

  /** Where a call of `get_request_id` stands that has found the deque empty. */
  datatype Growing =
    | ToRead           // highest_request_id is to be read
    | ToWrite(id: int) // one more than what was read is to be checked and written
    | ToReread         // highest_request_id is to be read again and returned

  /** `looking` counts the unlocked calls that are yet to pop the deque, and `growing` lists those
      that found it empty. The thread that holds the lock has `todo` ids to take, for requests at
      `stage`, and is `held` if it found the deque empty. `broken` records that the assertion
      failed, or that an id was handed out that somebody held. */
  datatype Fine = Fine(core: State, looking: nat, growing: seq<Growing>,
                       todo: nat, stage: Stage, held: Option<Growing>, broken: bool)

  function Begin(protocolVersion: int, maxInFlight: nat): Fine {
    Fine(Initial(protocolVersion, maxInFlight), 0, [], 0, Taken, None, false)
  }

  function Deal(f: Fine, id: int, stage: Stage): Fine {
    f.(core := f.core.(issued := f.core.issued[id := stage]), broken := f.broken || id in f.core.issued)
  }

  /** What one step of a call does: it moves on, it returns an id, or the assertion fails. */
  datatype Move = Goes(growing: Growing) | Gets(id: int) | Fails

  function Grow(core: State, g: Growing): (State, Move) {
    match g
    case ToRead => (core, Goes(ToWrite(core.highest + 1)))
    case ToWrite(id) => if id <= core.maxId then (core.(highest := id), Goes(ToReread)) else (core, Fails)
    case ToReread => (core, Gets(core.highest))
  }

  datatype FineEvent =
    | Plain(event: Event)        // a step of the coarse machine that takes no id after the handshake
    | Lock(event: Event)         // the lock is taken, and the request is counted in
    | Locked                     // one step of the thread that holds the lock
    | Call                       // set_keyspace_async calls get_request_id
    | Pop                        // an unlocked call pops the deque, or finds it empty
    | Unlocked(i: nat)           // one more step of an unlocked call that found it empty

  /** The handshake's own messages go out one at a time, before any other thread has the
      connection. */
  predicate TakesNothing(e: Event) {
    e.HandshakeSend? || e.HandshakeDone? || e.Send? || e.SetKeyspace? || e.KeyspaceUnchanged? || e.Response?
      || e.PutBack? || e.Return?
  }

  /** The regions that hold the lock while they change something. */
  predicate NeedsLock(e: Event) { e.SetKeyspace? || e.PutBack? || e.Return? }

  /** How many ids a locked region is admitted to take. */
  function Admitted(s: State, e: Event): nat {
    if e.Borrow? || e.PoolBorrow? || e.Heartbeat? || e.WaitForResponses? then Takes(s, e) else 0
  }

  function Step(f: Fine, e: FineEvent): Fine {
    match e
    case Plain(c) =>
      if !TakesNothing(c) || (NeedsLock(c) && f.todo != 0) then f
      else (match Next(f.core, c) case None => f.(broken := true) case Some(core) => f.(core := core))
    case Lock(c) =>
      if f.todo != 0 then f
      else
        f.(todo := Admitted(f.core, c), stage := if c.Heartbeat? then Waiting else Taken,
           core := f.core.(inFlight := f.core.inFlight + Admitted(f.core, c)))
    case Locked => if f.todo == 0 then f else LockedStep(f)
    case Call =>
      if f.core.grants == 0 then f else f.(core := f.core.(grants := f.core.grants - 1), looking := f.looking + 1)
    case Pop => if f.looking == 0 then f else PopStep(f)
    case Unlocked(i) => if i >= |f.growing| then f else UnlockedStep(f, i)
  }

  function LockedStep(f: Fine): Fine
    requires f.todo > 0
  {
    match f.held
    case None =>
      if f.core.free == [] then f.(held := Some(ToRead))
      else Deal(f.(core := f.core.(free := f.core.free[1..]), todo := f.todo - 1), f.core.free[0], f.stage)
    case Some(g) =>
      var (core, move) := Grow(f.core, g);
      match move
      case Goes(g') => f.(core := core, held := Some(g'))
      case Gets(id) => Deal(f.(core := core, todo := f.todo - 1, held := None), id, f.stage)
      case Fails => f.(broken := true)
  }

  function PopStep(f: Fine): Fine
    requires f.looking > 0
  {
    if f.core.free == [] then f.(looking := f.looking - 1, growing := f.growing + [ToRead])
    else Deal(f.(core := f.core.(free := f.core.free[1..]), looking := f.looking - 1), f.core.free[0], Taken)
  }

  function UnlockedStep(f: Fine, i: nat): Fine
    requires i < |f.growing|
  {
    var (core, move) := Grow(f.core, f.growing[i]);
    match move
    case Goes(g) => f.(core := core, growing := f.growing[i := g])
    case Gets(id) => Deal(f.(core := core, growing := f.growing[..i] + f.growing[i + 1..]), id, Taken)
    case Fails => f.(broken := true)
  }

  function RunFine(f: Fine, events: seq<FineEvent>): Fine
    decreases |events|
  {
    if events == [] then f else RunFine(Step(f, events[0]), events[1..])
  }

  // -------------------------------------------------------- sound when one id can be grown

  /** The call that has found the deque empty, if there is one. */
  function Grower(f: Fine): Option<Growing> {
    if f.growing != [] then Some(f.growing[0]) else f.held
  }

  /** The id that has been grown and not yet returned. */
  function Grown(f: Fine): set<int> {
    if Grower(f) == Some(ToReread) then {f.core.highest} else {}
  }

  /** At most one call has found the deque empty, and it grows the last id there is. */
  predicate OneGrower(f: Fine) {
    && f.core.highest >= f.core.maxId - 1
    && |f.growing| + (if f.held.Some? then 1 else 0) <= 1
    && (f.todo == 0 ==> f.held == None)
    && match Grower(f)
       case None => true
       case Some(ToRead) => f.core.highest == f.core.maxId - 1
       case Some(ToWrite(id)) => f.core.highest == f.core.maxId - 1 && id == f.core.maxId
       case Some(ToReread) => f.core.highest == f.core.maxId
  }

  /** Calls under way. */
  function Calls(f: Fine): nat { f.looking + |f.growing| + f.todo }

  /** Every unit of in_flight is an issued id, a slot or a call without one, or a request that has
      given its id back. */
  ghost predicate Counted(f: Fine) {
    if f.core.handshaking then Calls(f) == 0 && Conserved(f.core)
    else
      && f.core.inFlight == |f.core.issued| + f.core.grants + f.core.unreturned + Calls(f)
      && f.core.inFlight <= f.core.maxId + 1
  }

  /** Free, issued and grown ids partition 0..highest. */
  ghost predicate Divides(free: seq<int>, issued: map<int, Stage>, grown: set<int>, highest: int, maxId: int) {
    grown !! issued.Keys && Parts(free, issued.Keys + grown, highest, maxId)
  }

  ghost predicate Divided(f: Fine) {
    Divides(f.core.free, f.core.issued, Grown(f), f.core.highest, f.core.maxId)
  }

  /** Free and issued ids and the one being grown partition 0..highest, each unit of in_flight is
      accounted for, and nothing was handed out twice. */
  ghost predicate Intact(f: Fine) {
    !f.broken && OneGrower(f) && Counted(f) && Divided(f)
  }

  lemma CountDivided(free: seq<int>, issued: map<int, Stage>, grown: set<int>, highest: int, maxId: int)
    requires Divides(free, issued, grown, highest, maxId)
    ensures |free| + |issued| + |grown| == highest + 1 && 0 <= maxId
  {
    CountIds(free, issued.Keys + grown, highest, maxId);
    hide Parts;
    assert |issued| == |issued.Keys|;
    assert |issued.Keys + grown| == |issued.Keys| + |grown|;
  }

  lemma PopDivides(free: seq<int>, issued: map<int, Stage>, grown: set<int>, highest: int, maxId: int, stage: Stage)
    requires Divides(free, issued, grown, highest, maxId) && free != []
    ensures free[0] !in issued && |issued[free[0] := stage]| == |issued| + 1
    ensures Divides(free[1..], issued[free[0] := stage], grown, highest, maxId)
  {
    hide Parts;
    PopKeeps(free, issued.Keys + grown, highest, maxId);
    InsertCount(issued, free[0], stage);
    assert issued[free[0] := stage].Keys + grown == issued.Keys + grown + {free[0]};
  }

  lemma WriteDivides(free: seq<int>, issued: map<int, Stage>, highest: int, maxId: int)
    requires Divides(free, issued, {}, highest, maxId) && highest < maxId
    ensures Divides(free, issued, {highest + 1}, highest + 1, maxId)
  {
    hide Parts;
    assert issued.Keys + {} == issued.Keys;
    OneMore(free, issued.Keys, highest, maxId);
  }

  lemma OneMore(free: seq<int>, ids: set<int>, highest: int, maxId: int)
    requires Parts(free, ids, highest, maxId) && highest < maxId
    ensures highest + 1 !in ids && Parts(free, ids + {highest + 1}, highest + 1, maxId)
  {
    hide UpTo, Elems, Distinct;
    UpToFacts(highest + 1);
    UpToFacts(highest + 2);
    assert highest + 1 !in Elems(free) + ids;
    var upTo, all := Elems(UpTo(highest + 2)), Elems(free) + (ids + {highest + 1});
    forall i
      ensures i in upTo <==> i in all
    {
      assert i in Elems(UpTo(highest + 1)) <==> i in Elems(free) + ids;
    }
    assert upTo == all;
  }

  lemma RereadDivides(free: seq<int>, issued: map<int, Stage>, highest: int, maxId: int, stage: Stage)
    requires Divides(free, issued, {highest}, highest, maxId)
    ensures highest !in issued && |issued[highest := stage]| == |issued| + 1
    ensures Divides(free, issued[highest := stage], {}, highest, maxId)
  {
    hide Parts;
    assert highest in {highest};
    InsertCount(issued, highest, stage);
    assert issued[highest := stage].Keys + {} == issued.Keys + {highest};
  }

  lemma PutBackDivides(free: seq<int>, issued: map<int, Stage>, grown: set<int>, highest: int, maxId: int, id: int)
    requires Divides(free, issued, grown, highest, maxId) && id in issued
    ensures Divides(free + [id], issued - {id}, grown, highest, maxId) && |issued - {id}| == |issued| - 1
  {
    hide Parts;
    PutBackKeeps(free, issued.Keys + grown, highest, maxId, id);
    RemoveCount(issued, id);
    assert (issued - {id}).Keys + grown == issued.Keys + grown - {id};
  }

  lemma StageDivides(free: seq<int>, issued: map<int, Stage>, grown: set<int>, highest: int, maxId: int, id: int,
    stage: Stage)
    requires Divides(free, issued, grown, highest, maxId) && id in issued
    ensures Divides(free, issued[id := stage], grown, highest, maxId) && |issued[id := stage]| == |issued|
  {
    hide Parts;
    UpdateCount(issued, id, stage);
  }

  /** A call that looks finds the deque empty only if no other call has, and an id is left. */
  lemma LooksWithRoom(f: Fine)
    requires Intact(f) && (f.looking > 0 || (f.todo > 0 && f.held == None))
    ensures f.core.free == [] ==> Grower(f) == None && f.core.highest == f.core.maxId - 1
  {
    hide Divides;
    CountDivided(f.core.free, f.core.issued, Grown(f), f.core.highest, f.core.maxId);
  }

  lemma PopIntact(f: Fine)
    requires Intact(f) && f.looking > 0
    ensures Intact(PopStep(f))
  {
    hide Divides;
    LooksWithRoom(f);
    if f.core.free != [] {
      PopDivides(f.core.free, f.core.issued, Grown(f), f.core.highest, f.core.maxId, Taken);
    }
  }

  lemma UnlockedIntact(f: Fine, i: nat)
    requires Intact(f) && i < |f.growing|
    ensures Intact(UnlockedStep(f, i))
  {
    hide Divides;
    var g := f.growing[i];
    assert i == 0 && f.growing == [g] && f.held == None;
    match g
    case ToRead =>
    case ToWrite(_) => WriteDivides(f.core.free, f.core.issued, f.core.highest, f.core.maxId);
    case ToReread => RereadDivides(f.core.free, f.core.issued, f.core.highest, f.core.maxId, Taken);
  }

  lemma LockedLooks(f: Fine)
    requires Intact(f) && f.todo > 0 && f.held == None
    ensures Intact(LockedStep(f))
  {
    hide Divides;
    LooksWithRoom(f);
    if f.core.free != [] {
      PopDivides(f.core.free, f.core.issued, Grown(f), f.core.highest, f.core.maxId, f.stage);
    }
  }

  lemma LockedGrows(f: Fine)
    requires Intact(f) && f.todo > 0 && f.held.Some?
    ensures Intact(LockedStep(f))
  {
    hide Divides;
    assert f.growing == [];
    match f.held.value
    case ToRead =>
    case ToWrite(_) => WriteDivides(f.core.free, f.core.issued, f.core.highest, f.core.maxId);
    case ToReread => RereadDivides(f.core.free, f.core.issued, f.core.highest, f.core.maxId, f.stage);
  }

  lemma LockIntact(f: Fine, c: Event)
    requires Intact(f)
    ensures Intact(Step(f, Lock(c)))
  {
    hide Divides;
  }

  /** A coarse step that takes no id leaves the ids alone, or gives one back. */
  lemma PlainIntact(f: Fine, c: Event)
    requires Intact(f) && TakesNothing(c) && (NeedsLock(c) ==> f.todo == 0)
    ensures Intact(Step(f, Plain(c)))
  {
    match c
    case HandshakeSend => HandshakeIntact(f);
    case Send(id) => StageIntact(f, c, id);
    case Response(id) => StageIntact(f, c, id);
    case PutBack(id) => PutBackIntact(f, id);
    case _ => CountsIntact(f, c);
  }

  lemma StageIntact(f: Fine, c: Event, id: int)
    requires Intact(f) && (c == Send(id) || c == Response(id))
    ensures Intact(Step(f, Plain(c)))
  {
    hide Divides, Issue, IssueMany;
    if id in f.core.issued {
      var stage := if c.Send? then Waiting else Answered;
      StageDivides(f.core.free, f.core.issued, Grown(f), f.core.highest, f.core.maxId, id, stage);
    }
  }

  lemma PutBackIntact(f: Fine, id: int)
    requires Intact(f) && f.todo == 0
    ensures Intact(Step(f, Plain(PutBack(id))))
  {
    hide Divides, Issue, IssueMany;
    if id in f.core.issued {
      PutBackDivides(f.core.free, f.core.issued, Grown(f), f.core.highest, f.core.maxId, id);
    }
  }

  /** The steps that only move counts. */
  lemma CountsIntact(f: Fine, c: Event)
    requires Intact(f) && (NeedsLock(c) ==> f.todo == 0)
    requires c.HandshakeDone? || c.SetKeyspace? || c.KeyspaceUnchanged? || c.Return?
    ensures Intact(Step(f, Plain(c)))
  {
    hide Divides, Issue, IssueMany;
    CountDivided(f.core.free, f.core.issued, Grown(f), f.core.highest, f.core.maxId);
    assert f.core.issued == map[] ==> |f.core.issued| == 0;
  }

  lemma HandshakeIntact(f: Fine)
    requires Intact(f)
    ensures Intact(Step(f, Plain(HandshakeSend)))
  {
    hide Parts;
    if f.core.handshaking && f.core.issued == map[] {
      assert |f.core.issued| == 0 && |Grown(f)| == 0;
      CountDivided(f.core.free, f.core.issued, Grown(f), f.core.highest, f.core.maxId);
      HighestIsNatural(f.core.free, f.core.issued.Keys + Grown(f), f.core.highest, f.core.maxId);
      PopDivides(f.core.free, f.core.issued, Grown(f), f.core.highest, f.core.maxId, Waiting);
    }
  }

  lemma StepIntact(f: Fine, e: FineEvent)
    requires Intact(f)
    ensures Intact(Step(f, e))
  {
    hide Intact, LockedStep, PopStep, UnlockedStep, Next;
    match e
    case Plain(c) =>
      if TakesNothing(c) && (NeedsLock(c) ==> f.todo == 0) { PlainIntact(f, c); }
    case Lock(c) => LockIntact(f, c);
    case Locked => if f.todo > 0 { if f.held == None { LockedLooks(f); } else { LockedGrows(f); } }
    case Call => if f.core.grants > 0 { CallIntact(f); }
    case Pop => if f.looking > 0 { PopIntact(f); }
    case Unlocked(i) => if i < |f.growing| { UnlockedIntact(f, i); }
  }

  lemma CallIntact(f: Fine)
    requires Intact(f) && f.core.grants > 0
    ensures Intact(Step(f, Call))
  {
    hide Divides;
  }

  lemma {:induction false} RunIntact(f: Fine, events: seq<FineEvent>)
    requires Intact(f)
    ensures Intact(RunFine(f, events))
    decreases |events|
  {
    hide Intact, Step;
    if events != [] {
      StepIntact(f, events[0]);
      RunIntact(Step(f, events[0]), events[1..]);
    }
  }

  /** At most one id is left to grow. */
  predicate LittleToGrow(protocolVersion: int, maxInFlight: nat) { protocolVersion < 3 || maxInFlight <= 301 }

  lemma BeginIntact(protocolVersion: int, maxInFlight: nat)
    requires maxInFlight > 0 && LittleToGrow(protocolVersion, maxInFlight)
    ensures Intact(Begin(protocolVersion, maxInFlight))
  {
    hide Parts, UpTo;
    InitialSound(protocolVersion, maxInFlight);
    var f := Begin(protocolVersion, maxInFlight);
    assert f.core.issued.Keys + Grown(f) == f.core.issued.Keys;
  }

  // ------------------------------------------------------------------- broken otherwise

  /** The ids below k, just taken. */
  function Below(k: nat): map<int, Stage> {
    if k == 0 then map[] else Below(k - 1)[k - 1 := Taken]
  }

  lemma {:induction false} BelowHas(k: nat, id: int)
    ensures id in Below(k) <==> 0 <= id < k
  {
    if k > 0 { BelowHas(k - 1, id); }
  }

  /** The state after set_keyspace_async has counted itself in and k requests have borrowed. */
  function Filled(maxId: int, k: nat): Fine
    requires k <= 300
  {
    Fine(State(maxId, UpTo(300)[k..], 299, 1 + k, Below(k), 1, 0, false), 0, [], 0, Taken, None, false)
  }

  const BORROW: seq<FineEvent> := [Lock(Borrow), Locked]

  function Borrows(n: nat): seq<FineEvent> {
    if n == 0 then [] else BORROW + Borrows(n - 1)
  }

  lemma {:induction false} RunFineConcat(f: Fine, a: seq<FineEvent>, b: seq<FineEvent>)
    ensures RunFine(f, a + b) == RunFine(RunFine(f, a), b)
    decreases |a|
  {
    hide Step;
    if a == [] {
      assert a + b == b;
    } else {
      assert (a + b)[1..] == a[1..] + b;
      RunFineConcat(Step(f, a[0]), a[1..], b);
    }
  }

  lemma OneBorrow(maxId: int, k: nat)
    requires k < 300 && maxId >= 301
    ensures Step(Step(Filled(maxId, k), Lock(Borrow)), Locked) == Filled(maxId, k + 1)
  {
    assert UpTo(300)[k..][0] == k && UpTo(300)[k..][1..] == UpTo(300)[k + 1..];
    BelowHas(k, k);
  }

  lemma RunTwo(f: Fine, e: FineEvent, e': FineEvent)
    ensures RunFine(f, [e, e']) == Step(Step(f, e), e')
  {
    hide Step;
    assert [e, e'][1..] == [e'] && [e'][1..] == [];
    RunOne(f, [e, e']);
    RunOne(Step(f, e), [e']);
    RunNone(Step(Step(f, e), e'));
  }

  lemma RunNone(f: Fine)
    ensures RunFine(f, []) == f
  {
  }

  lemma RunOne(f: Fine, events: seq<FineEvent>)
    requires events != []
    ensures RunFine(f, events) == RunFine(Step(f, events[0]), events[1..])
  {
  }

  lemma {:induction false} FillUp(maxId: int, k: nat)
    requires k <= 300 && maxId >= 301
    ensures RunFine(Filled(maxId, k), Borrows(300 - k)) == Filled(maxId, 300)
    decreases 300 - k
  {
    hide Step, Filled;
    if k < 300 {
      RunFineConcat(Filled(maxId, k), BORROW, Borrows(300 - k - 1));
      RunTwo(Filled(maxId, k), Lock(Borrow), Locked);
      OneBorrow(maxId, k);
      FillUp(maxId, k + 1);
    }
  }

  /** The unlocked call finds the deque empty and reads; a borrow finds it empty and grows; the
      call writes what it had worked out, and both hold one id. */
  const READ_THEN_BORROW: seq<FineEvent> :=
    [Call, Pop, Unlocked(0), Lock(Borrow), Locked, Locked, Locked, Locked, Unlocked(0), Unlocked(0)]

  /** The unlocked call grows; a borrow grows once more; the call reads again, and both hold the
      higher id, and nobody the lower. */
  const WRITE_THEN_BORROW: seq<FineEvent> :=
    [Call, Pop, Unlocked(0), Unlocked(0), Lock(Borrow), Locked, Locked, Locked, Locked, Unlocked(0)]

  /** With 300 ids out, the call has come to its second look at highest_request_id. */
  function Pending(maxId: int, highest: int, g: Growing): Fine {
    Fine(State(maxId, [], highest, 301, Below(300), 0, 0, false), 0, [g], 0, Taken, None, false)
  }

  lemma CallLooks(maxId: int)
    requires maxId >= 301
    ensures Step(Step(Filled(maxId, 300), Call), Pop) == Pending(maxId, 299, ToRead)
  {
    assert UpTo(300)[300..] == [];
  }

  /** A borrow that finds the deque empty grows by one. */
  lemma BorrowGrows(maxId: int, highest: int, g: Growing)
    requires highest < maxId && 301 <= maxId && highest + 1 >= 300
    ensures var f := Step(Step(Step(Step(Step(Pending(maxId, highest, g), Lock(Borrow)), Locked), Locked), Locked),
            Locked);
            f == Pending(maxId, highest + 1, g).(core := f.core) &&
            f.core == Pending(maxId, highest + 1, g).core.(inFlight := 302, issued := Below(300)[highest + 1 := Taken])
  {
    BelowHas(300, highest + 1);
    var f0 := Pending(maxId, highest, g);
    var f1 := Step(f0, Lock(Borrow));
    assert f1 == f0.(todo := 1, core := f0.core.(inFlight := 302));
    var f2 := Step(f1, Locked);
    assert f2 == f1.(held := Some(ToRead));
    var f3 := Step(f2, Locked);
    assert f3 == f2.(held := Some(ToWrite(highest + 1)));
    var f4 := Step(f3, Locked);
    assert f4 == f3.(held := Some(ToReread), core := f3.core.(highest := highest + 1));
  }

  /** Both schedules hand out an id twice; the second also loses one for good. */
  lemma BothSchedulesBreak(maxId: int)
    requires maxId >= 301
    ensures RunFine(Filled(maxId, 300), READ_THEN_BORROW).broken
    ensures var f := RunFine(Filled(maxId, 300), WRITE_THEN_BORROW);
            f.broken && 300 < f.core.highest && 300 !in f.core.issued && 300 !in f.core.free
  {
    hide Step, Below;
    BelowHas(300, 300);
    CallLooks(maxId);
    UnlockedMoves(maxId);
    BorrowGrows(maxId, 299, ToWrite(300));
    BorrowGrows(maxId, 300, ToReread);
    ReadLast(maxId);
    WriteLast(maxId);
    RunTen(Filled(maxId, 300), READ_THEN_BORROW);
    RunTen(Filled(maxId, 300), WRITE_THEN_BORROW);
  }

  lemma UnlockedMoves(maxId: int)
    requires maxId >= 301
    ensures Step(Pending(maxId, 299, ToRead), Unlocked(0)) == Pending(maxId, 299, ToWrite(300))
    ensures Step(Pending(maxId, 299, ToWrite(300)), Unlocked(0)) == Pending(maxId, 300, ToReread)
  {
  }

  /** After the borrow: the call writes the id that the borrow holds, and returns it. */
  lemma ReadLast(maxId: int)
    requires maxId >= 301
    ensures forall f: Fine ::
              f.growing == [ToWrite(300)] && f.core.maxId == maxId && 300 in f.core.issued ==>
                Step(Step(f, Unlocked(0)), Unlocked(0)).broken
  {
  }

  lemma WriteLast(maxId: int)
    ensures forall f: Fine ::
              f.growing == [ToReread] && f.core.highest == 301 && 301 in f.core.issued ==>
                Step(f, Unlocked(0)).broken && Step(f, Unlocked(0)).core ==
                  f.core.(issued := f.core.issued[301 := Taken])
  {
  }

  lemma RunTen(f: Fine, e: seq<FineEvent>)
    requires |e| == 10
    ensures RunFine(f, e) ==
            Step(Step(Step(Step(Step(Step(Step(Step(Step(Step(f, e[0]), e[1]), e[2]), e[3]), e[4]), e[5]), e[6]),
              e[7]), e[8]), e[9])
  {
    hide Step;
    RunFive(f, e);
    var g := Step(Step(Step(Step(Step(f, e[0]), e[1]), e[2]), e[3]), e[4]);
    RunFive(g, e[5..]);
    assert e[5..][5..] == [];
    RunNone(Step(Step(Step(Step(Step(g, e[5]), e[6]), e[7]), e[8]), e[9]));
  }

  lemma RunFive(f: Fine, e: seq<FineEvent>)
    requires |e| >= 5
    ensures RunFine(f, e) == RunFine(Step(Step(Step(Step(Step(f, e[0]), e[1]), e[2]), e[3]), e[4]), e[5..])
  {
    hide Step;
    assert e[1..][1..] == e[2..] && e[2..][1..] == e[3..] && e[3..][1..] == e[4..] && e[4..][1..] == e[5..];
    RunOne(f, e);
    RunOne(Step(f, e[0]), e[1..]);
    RunOne(Step(Step(f, e[0]), e[1]), e[2..]);
    RunOne(Step(Step(Step(f, e[0]), e[1]), e[2]), e[3..]);
    RunOne(Step(Step(Step(Step(f, e[0]), e[1]), e[2]), e[3]), e[4..]);
  }

  /** From the constructor on. */
  const FILL: seq<FineEvent> := [Plain(HandshakeDone), Plain(SetKeyspace)]

  lemma Breaks(protocolVersion: int, maxInFlight: nat) returns (events: seq<FineEvent>)
    requires maxInFlight > 0 && !LittleToGrow(protocolVersion, maxInFlight)
    ensures RunFine(Begin(protocolVersion, maxInFlight), events).broken
  {
    hide Step, Borrows;
    var f := Begin(protocolVersion, maxInFlight);
    var maxId := f.core.maxId;
    events := FILL + (Borrows(300) + READ_THEN_BORROW);
    RunTwo(f, Plain(HandshakeDone), Plain(SetKeyspace));
    FirstSteps(protocolVersion, maxInFlight);
    RunFineConcat(f, FILL, Borrows(300) + READ_THEN_BORROW);
    RunFineConcat(Filled(maxId, 0), Borrows(300), READ_THEN_BORROW);
    FillUp(maxId, 0);
    BothSchedulesBreak(maxId);
  }

  lemma FirstSteps(protocolVersion: int, maxInFlight: nat)
    requires maxInFlight > 0 && !LittleToGrow(protocolVersion, maxInFlight)
    ensures var f := Begin(protocolVersion, maxInFlight);
            f.core.maxId >= 301 && Step(Step(f, Plain(HandshakeDone)), Plain(SetKeyspace)) == Filled(f.core.maxId, 0)
  {
    assert UpTo(300)[0..] == UpTo(300) && Below(0) == map[];
  }

  /** The allocator keeps its promise in every interleaving, down to the interpreter's steps, if
      and only if the protocol version is below 3 or at most 301 requests may be in flight: then
      at most one id is ever grown. */
  lemma SoundExactlyWhen(protocolVersion: int, maxInFlight: nat)
    requires maxInFlight > 0
    ensures LittleToGrow(protocolVersion, maxInFlight) <==>
            forall events :: !RunFine(Begin(protocolVersion, maxInFlight), events).broken
    ensures LittleToGrow(protocolVersion, maxInFlight) ==>
              forall events :: Intact(RunFine(Begin(protocolVersion, maxInFlight), events))
  {
    hide Begin, OneGrower, Counted, Divided;
    if LittleToGrow(protocolVersion, maxInFlight) {
      BeginIntact(protocolVersion, maxInFlight);
      forall events
        ensures Intact(RunFine(Begin(protocolVersion, maxInFlight), events))
      {
        RunIntact(Begin(protocolVersion, maxInFlight), events);
      }
    } else {
      var events := Breaks(protocolVersion, maxInFlight);
      assert RunFine(Begin(protocolVersion, maxInFlight), events).broken;
    }
  }

  // ------------------------------------------------------- the coarse machine is a schedule

  /** A state in which nobody is inside get_request_id. */
  function Quiet(core: State, stage: Stage): Fine { Fine(core, 0, [], 0, stage, None, false) }

  /** The thread that holds the lock takes one id, and nobody interferes. */
  lemma TakeAlone(f: Fine) returns (events: seq<FineEvent>)
    requires f.todo > 0 && f.held == None && !f.broken && Partition(f.core) && |f.core.issued| <= f.core.maxId
    ensures Issue(f.core, f.stage).Some?
    ensures RunFine(f, events) == f.(core := Issue(f.core, f.stage).value, todo := f.todo - 1)
  {
    hide Parts, RunFine;
    TakeIsFresh(f.core);
    if f.core.free != [] {
      events := [Locked];
      RunOne(f, events);
      assert events[1..] == [];
      RunNone(Step(f, Locked));
    } else {
      events := [Locked, Locked] + [Locked, Locked];
      var f1 := f.(held := Some(ToRead));
      var f2 := f1.(held := Some(ToWrite(f.core.highest + 1)));
      var f3 := f2.(held := Some(ToReread), core := f.core.(highest := f.core.highest + 1));
      assert Step(f, Locked) == f1 && Step(f1, Locked) == f2 && Step(f2, Locked) == f3;
      RunFineConcat(f, [Locked, Locked], [Locked, Locked]);
      RunTwo(f, Locked, Locked);
      RunTwo(f2, Locked, Locked);
    }
  }

  lemma {:induction false} TakeManyAlone(f: Fine) returns (events: seq<FineEvent>)
    requires f.held == None && !f.broken && f.stage == Taken
    requires Partition(f.core) && |f.core.issued| + f.todo <= f.core.maxId + 1
    ensures IssueMany(f.core, f.todo).Some?
    ensures RunFine(f, events) == f.(core := IssueMany(f.core, f.todo).value, todo := 0)
    decreases f.todo
  {
    hide Partition, Issue, RunFine, Step;
    if f.todo == 0 {
      events := [];
      RunNone(f);
    } else {
      IssueKeeps(f.core, Taken);
      var first := TakeAlone(f);
      var f' := f.(core := Issue(f.core, Taken).value, todo := f.todo - 1);
      var rest := TakeManyAlone(f');
      events := first + rest;
      RunFineConcat(f, first, rest);
    }
  }

  /** A locked region runs from end to end. */
  lemma RegionAlone(s: State, stage: Stage, e: Event) returns (events: seq<FineEvent>)
    requires Sound(s) && Takes(s, e) > 0 && (e.Borrow? || e.PoolBorrow? || e.Heartbeat? || e.WaitForResponses?)
    ensures Next(s, e).Some?
    ensures RunFine(Quiet(s, stage), events) == Quiet(Next(s, e).value, if e.Heartbeat? then Waiting else Taken)
  {
    hide Parts, RunFine, Issue, IssueMany, LockedStep;
    StepSound(s, e);
    RoomFor(s, e);
    var f := Step(Quiet(s, stage), Lock(e));
    assert Partition(f.core) && f.todo == Takes(s, e);
    var rest := [];
    if e.WaitForResponses? { rest := TakeManyAlone(f); } else { rest := TakeAlone(f); }
    events := [Lock(e)] + rest;
    assert events[1..] == rest;
    RunOne(Quiet(s, stage), events);
  }

  /** The unlocked call runs from end to end. */
  lemma CallAlone(s: State, stage: Stage) returns (events: seq<FineEvent>)
    requires Sound(s) && s.grants > 0
    ensures Next(s, KeyspaceTake).Some?
    ensures RunFine(Quiet(s, stage), events) == Quiet(Next(s, KeyspaceTake).value, stage)
  {
    hide Parts, RunFine, Step, Quiet;
    KeyspaceTakeSound(s);
    var f := Quiet(s, stage);
    RunTwo(f, Call, Pop);
    if s.free != [] {
      events := [Call, Pop];
      CallPops(s, stage);
    } else {
      events := [Call, Pop] + ([Unlocked(0), Unlocked(0)] + [Unlocked(0)]);
      CallGrows(s, stage);
      RunFineConcat(f, [Call, Pop], [Unlocked(0), Unlocked(0)] + [Unlocked(0)]);
      var f2 := Step(Step(f, Call), Pop);
      RunFineConcat(f2, [Unlocked(0), Unlocked(0)], [Unlocked(0)]);
      RunTwo(f2, Unlocked(0), Unlocked(0));
      var f4 := Step(Step(f2, Unlocked(0)), Unlocked(0));
      RunOne(f4, [Unlocked(0)]);
      assert [Unlocked(0)][1..] == [];
      RunNone(Step(f4, Unlocked(0)));
    }
  }

  lemma CallPops(s: State, stage: Stage)
    requires s.grants > 0 && s.free != [] && s.free[0] !in s.issued
    ensures Step(Step(Quiet(s, stage), Call), Pop) == Quiet(Next(s, KeyspaceTake).value, stage)
  {
  }

  lemma CallGrows(s: State, stage: Stage)
    requires s.grants > 0 && s.free == [] && s.highest < s.maxId && s.highest + 1 !in s.issued
    ensures Step(Step(Step(Step(Step(Quiet(s, stage), Call), Pop), Unlocked(0)), Unlocked(0)), Unlocked(0)) ==
            Quiet(Next(s, KeyspaceTake).value, stage)
  {
    hide Step, Next;
    var core := s.(grants := s.grants - 1);
    FindsEmpty(s, stage);
    GrowsAlone(core, stage);
    KeyspaceGrows(s);
  }

  lemma FindsEmpty(s: State, stage: Stage)
    requires s.grants > 0 && s.free == []
    ensures Step(Step(Quiet(s, stage), Call), Pop) ==
            Quiet(s.(grants := s.grants - 1), stage).(growing := [] + [ToRead])
  {
    hide Next, LockedStep, UnlockedStep;
    var f1 := Quiet(s.(grants := s.grants - 1), stage).(looking := 1);
    assert Step(Quiet(s, stage), Call) == f1;
  }

  lemma GrowsAlone(core: State, stage: Stage)
    requires core.highest < core.maxId && core.highest + 1 !in core.issued
    ensures var f := Quiet(core, stage).(growing := [] + [ToRead]);
            var id := core.highest + 1;
            Step(Step(Step(f, Unlocked(0)), Unlocked(0)), Unlocked(0)) ==
            Quiet(core.(highest := id, issued := core.issued[id := Taken]), stage)
  {
    hide Next, LockedStep, PopStep;
    var f2 := Quiet(core, stage).(growing := [] + [ToRead]);
    var f3 := f2.(growing := [ToWrite(core.highest + 1)]);
    var f4 := f3.(growing := [ToReread], core := core.(highest := core.highest + 1));
    assert Step(f2, Unlocked(0)) == f3;
    assert Step(f3, Unlocked(0)) == f4;
  }

  lemma KeyspaceGrows(s: State)
    requires s.grants > 0 && s.free == [] && s.highest < s.maxId
    ensures var id := s.highest + 1;
            Next(s, KeyspaceTake) ==
            Some(s.(grants := s.grants - 1, highest := id, issued := s.issued[id := Taken]))
  {
    hide IssueMany;
  }

  /** Every step of the coarse machine is what a run of fine steps does when nobody interferes. */
  lemma CoarseIsFine(s: State, stage: Stage, e: Event) returns (events: seq<FineEvent>, stage': Stage)
    requires Sound(s)
    ensures Next(s, e).Some? && RunFine(Quiet(s, stage), events) == Quiet(Next(s, e).value, stage')
  {
    hide Sound, RunFine;
    StepSound(s, e);
    events, stage' := [], stage;
    RunNone(Quiet(s, stage));
    if TakesNothing(e) {
      events := [Plain(e)];
      RunOne(Quiet(s, stage), events);
      assert events[1..] == [];
      RunNone(Step(Quiet(s, stage), Plain(e)));
    } else if e.KeyspaceTake? {
      if s.grants > 0 { events := CallAlone(s, stage); }
    } else if Takes(s, e) > 0 {
      events := RegionAlone(s, stage, e);
      stage' := if e.Heartbeat? then Waiting else Taken;
    } else {
      NothingTaken(s, e);
    }
  }

  lemma NothingTaken(s: State, e: Event)
    requires Sound(s) && Takes(s, e) == 0 && !TakesNothing(e) && !e.KeyspaceTake?
    ensures Next(s, e) == Some(s)
  {
    hide Parts;
  }

  lemma {:induction false} CoarseRunIsFine(protocolVersion: int, maxInFlight: nat, events: seq<Event>)
    returns (fine: seq<FineEvent>, stage: Stage)
    requires maxInFlight > 0
    ensures Run(Initial(protocolVersion, maxInFlight), events).Some?
    ensures RunFine(Begin(protocolVersion, maxInFlight), fine) ==
            Quiet(Run(Initial(protocolVersion, maxInFlight), events).value, stage)
  {
    hide Sound, RunFine, Next, Initial, Quiet;
    AlwaysSound(protocolVersion, maxInFlight, events);
    if events == [] {
      fine, stage := [], Taken;
      RunNone(Begin(protocolVersion, maxInFlight));
      BeginIsQuiet(protocolVersion, maxInFlight);
    } else {
      var front := events[..|events| - 1];
      AlwaysSound(protocolVersion, maxInFlight, front);
      var before, stage0 := CoarseRunIsFine(protocolVersion, maxInFlight, front);
      var s := Run(Initial(protocolVersion, maxInFlight), front).value;
      var last, stage1 := CoarseIsFine(s, stage0, events[|events| - 1]);
      fine, stage := before + last, stage1;
      RunFineConcat(Begin(protocolVersion, maxInFlight), before, last);
    }
  }

  lemma BeginIsQuiet(protocolVersion: int, maxInFlight: nat)
    ensures Begin(protocolVersion, maxInFlight) == Quiet(Initial(protocolVersion, maxInFlight), Taken)
  {
  }
}
