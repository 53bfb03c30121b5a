/** `execute_concurrent`: the window of outstanding statements that both executors keep, and
    the consumer that waits for their results. A region that holds the condition's lock is one
    step; completions, appends and the consumer interleave in any order. */
module ConcurrentExecution {
  import Seqs

  // ---------------------------------------------------------------------------- the state

  datatype ExecutionResult = ExecutionResult(success: bool, value: int)

  /** How `execute_async` treats a statement: it raises, it calls back before returning, or it
      leaves the callback to another thread. */
  datatype Mode = Raises | Inline | Later

  datatype Statement = Statement(mode: Mode, answer: ExecutionResult)

  /** ConcurrentExecutorGenResults or ConcurrentExecutorListResults. */
  datatype Kind = Generator | Listing

  /** The thread that reads the results. */
  datatype Phase = Ready | Waiting | Yielding | Finished

  type Entry = (nat, ExecutionResult)

  /** `position` is the statement iterator. `started` logs the calls of `execute_async`,
      `running` holds the statements whose result has not come in, and `arrived` those whose
      result is appended but not yet counted. */
  datatype State = State(
    position: nat, execCount: nat, execDepth: nat, current: nat, queue: seq<Entry>,
    phase: Phase, started: seq<nat>, running: set<nat>, arrived: set<nat>,
    delivered: seq<ExecutionResult>)

  const MAX_ERROR_RECURSION := 100

  const IDLE := State(0, 0, 0, 0, [], Ready, [], {}, {}, [])

  // ---------------------------------------------------------------------------- the steps

  /** `heappush`, on the queue listed by index. */
  function Insert(q: seq<Entry>, e: Entry): seq<Entry> {
    if q == [] || e.0 < q[0].0 then [e] + q else [q[0]] + Insert(q[1..], e)
  }

  function SortByIndex(q: seq<Entry>): seq<Entry> {
    if q == [] then [] else Insert(SortByIndex(q[1..]), q[0])
  }

  function ResultsOf(q: seq<Entry>): seq<ExecutionResult> {
    seq(|q|, i requires 0 <= i < |q| => q[i].1)
  }

  predicate CompletesInline(mode: Mode, depth: nat) {
    mode == Inline || (mode == Raises && depth < MAX_ERROR_RECURSION)
  }

  function Notify(s: State): State {
    if s.phase == Waiting then s.(phase := Ready) else s
  }

  function Start(s: State): State {
    s.(position := s.position + 1, execCount := s.execCount + 1, execDepth := s.execDepth + 1,
       started := s.started + [s.position], running := s.running + {s.position})
  }

  /** `_execute_next`, with the statement's own `_execute` and all that follows inside it. */
  function ExecuteNext(kind: Kind, st: seq<Statement>, s: State): (r: State)
    ensures r.execDepth == s.execDepth && s.position <= r.position
    decreases |st| - s.position, 0
  {
    if s.position >= |st| then s
    else
      var s1 := Start(s);
      var s2 := if CompletesInline(st[s.position].mode, s1.execDepth) then PutResult(kind, st, s1, s.position) else s1;
      s2.(execDepth := s2.execDepth - 1)
  }

  /** `_put_result` in one locked region. */
  function PutResult(kind: Kind, st: seq<Statement>, s: State, idx: nat): (r: State)
    requires idx < |st|
    ensures r.execDepth == s.execDepth && s.position <= r.position
    decreases |st| - s.position, 2
  {
    match kind
    case Generator => Notify(ExecuteNext(Generator, st, Push(st, s, idx)))
    case Listing => Count(st, Append(st, s, idx), idx)
  }

  function Push(st: seq<Statement>, s: State, idx: nat): State
    requires idx < |st|
  {
    s.(queue := Insert(s.queue, (idx, st[idx].answer)), running := s.running - {idx})
  }

  /** The part of the list executor's `_put_result` that needs no lock. */
  function Append(st: seq<Statement>, s: State, idx: nat): State
    requires idx < |st|
  {
    s.(queue := s.queue + [(idx, st[idx].answer)], running := s.running - {idx}, arrived := s.arrived + {idx})
  }

  function Tally(s: State, idx: nat): State {
    s.(arrived := s.arrived - {idx}, current := s.current + 1)
  }

  /** The part that holds it. */
  function Count(st: seq<Statement>, s: State, idx: nat): (r: State)
    ensures r.execDepth == s.execDepth && s.position <= r.position
    decreases |st| - s.position, 1
  {
    var s2 := ExecuteNext(Listing, st, Tally(s, idx));
    if s.position >= |st| && s2.current == s2.execCount then Notify(s2) else s2
  }

  /** The loop in `execute`. */
  function Launch(kind: Kind, st: seq<Statement>, concurrency: nat, s: State): State
    decreases concurrency
  {
    if concurrency == 0 || s.position >= |st| then s
    else Launch(kind, st, concurrency - 1, ExecuteNext(kind, st, s))
  }

  /** `heappop`, and the result handed to the caller. */
  function Consumed(s: State): State
    requires s.queue != []
  {
    s.(phase := Yielding, delivered := s.delivered + [s.queue[0].1], queue := s.queue[1..])
  }

  /** The reader up to its next wait, yield or return. */
  function Consume(kind: Kind, st: seq<Statement>, s: State): State {
    match kind
    case Generator =>
      if s.current >= s.execCount then s.(phase := Finished)
      else if s.queue == [] || s.queue[0].0 != s.current then s.(phase := Waiting)
      else Consumed(s)
    case Listing =>
      if s.current < s.execCount then s.(phase := Waiting)
      else s.(phase := Finished, delivered := ResultsOf(SortByIndex(s.queue)))
  }

  /** The reader returns from a yield. */
  function Resume(s: State): State {
    s.(phase := Ready, current := s.current + 1)
  }

  datatype Event = Complete(idx: nat) | Arrive(idx: nat) | Counted(idx: nat) | Read | Back

  predicate Enabled(kind: Kind, s: State, e: Event) {
    match e
    case Complete(idx) => kind == Generator && idx in s.running
    case Arrive(idx) => kind == Listing && idx in s.running
    case Counted(idx) => kind == Listing && idx in s.arrived
    case Read => s.phase == Ready
    case Back => kind == Generator && s.phase == Yielding
  }

  /** One step; an index outside the input changes nothing. */
  function Next(kind: Kind, st: seq<Statement>, s: State, e: Event): State {
    match e
    case Complete(idx) => if idx < |st| then PutResult(kind, st, s, idx) else s
    case Arrive(idx) => if idx < |st| then Append(st, s, idx) else s
    case Counted(idx) => Count(st, s, idx)
    case Read => Consume(kind, st, s)
    case Back => Resume(s)
  }

  predicate Possible(kind: Kind, st: seq<Statement>, s: State, events: seq<Event>)
    decreases |events|
  {
    events == [] || (Enabled(kind, s, events[0]) && Possible(kind, st, Next(kind, st, s, events[0]), events[1..]))
  }

  function Run(kind: Kind, st: seq<Statement>, s: State, events: seq<Event>): State
    decreases |events|
  {
    if events == [] then s else Run(kind, st, Next(kind, st, s, events[0]), events[1..])
  }

  // --------------------------------------------------------------------- the recursion limit

  /** The state in which `_put_result` goes on to the next statement. */
  function Answered(kind: Kind, st: seq<Statement>, s: State, idx: nat): State
    requires idx < |st|
  {
    if kind == Generator then Push(st, s, idx) else Tally(Append(st, s, idx), idx)
  }

  lemma AnswerGoesOn(kind: Kind, st: seq<Statement>, s: State, idx: nat)
    requires idx < |st|
    ensures PutResult(kind, st, s, idx).position == ExecuteNext(kind, st, Answered(kind, st, s, idx)).position
  {
    if kind == Listing {
      var a := Append(st, s, idx);
      assert Count(st, a, idx).position == ExecuteNext(Listing, st, Tally(a, idx)).position;
    }
  }

  /** Statements that raise are answered inside one another, but not more than 99 deep: one call of
      `_execute_next` starts as many of them as there is depth left below 100, and at least one. */
  lemma {:induction false} RecursionStops(kind: Kind, st: seq<Statement>, s: State)
    requires s.position < |st| && (forall i :: s.position <= i < |st| ==> st[i].mode == Raises)
    ensures ExecuteNext(kind, st, s).position ==
            Seqs.Min(|st|, s.position + Seqs.Max(1, 100 - s.execDepth))
    decreases |st| - s.position
  {
    var s1 := Start(s);
    if CompletesInline(st[s.position].mode, s1.execDepth) {
      var next := Answered(kind, st, s1, s.position);
      AnswerGoesOn(kind, st, s1, s.position);
      if next.position < |st| {
        RecursionStops(kind, st, next);
      } else {
        assert ExecuteNext(kind, st, next) == next;
      }
    }
  }

  // ------------------------------------------------------------------------- the invariant

  function Iota(n: nat): seq<nat> { seq(n, i => i) }

  predicate AtOrAfter(i: nat, lo: nat) { lo <= i }

  function Range(lo: nat, hi: nat): set<nat> { set i: nat | i < hi && AtOrAfter(i, lo) }

  function IndexSet(q: seq<Entry>): set<nat> { set e <- q :: e.0 }

  function Answers(st: seq<Statement>): seq<ExecutionResult> {
    seq(|st|, i requires 0 <= i < |st| => st[i].answer)
  }

  /** Every entry is the answer to its own statement. */
  predicate Truthful(st: seq<Statement>, q: seq<Entry>) {
    forall e <- q :: e.0 < |st| && e.1 == st[e.0].answer
  }

  predicate Increasing(q: seq<Entry>) {
    forall i, j :: 0 <= i < j < |q| ==> q[i].0 < q[j].0
  }

  predicate Apart(q: seq<Entry>) {
    forall i, j :: 0 <= i < j < |q| ==> q[i].0 != q[j].0
  }

  function Popped(kind: Kind, s: State): nat {
    if kind == Generator then |s.delivered| else 0
  }

  function Outstanding(s: State): nat { |s.running| + |s.arrived| }

  /** Statements start once each, in input order. */
  predicate InOrder(st: seq<Statement>, s: State) {
    s.position == s.execCount && s.position <= |st| && s.started == Iota(s.position)
  }

  /** Every started statement is either running or has its one result in the queue or behind
      the reader. */
  predicate Placed(kind: Kind, st: seq<Statement>, s: State) {
    && s.running !! IndexSet(s.queue)
    && s.running + IndexSet(s.queue) == Range(Popped(kind, s), s.position)
    && |s.running| + |s.queue| + Popped(kind, s) == s.position
    && Truthful(st, s.queue)
    && Apart(s.queue)
  }

  predicate Accounted(kind: Kind, st: seq<Statement>, s: State) {
    match kind
    case Generator =>
      && Increasing(s.queue) && s.arrived == {}
      && |s.delivered| == s.current + (if s.phase == Yielding then 1 else 0)
      && s.delivered <= Answers(st)
    case Listing =>
      && s.arrived <= IndexSet(s.queue) && |s.arrived| + s.current == |s.queue|
      && s.phase != Yielding
  }

  /** At most `w` statements are outstanding, and exactly `w` while the input lasts. */
  predicate Window(st: seq<Statement>, w: nat, s: State) {
    Outstanding(s) <= w && (s.position < |st| ==> Outstanding(s) == w)
  }

  predicate Sound(kind: Kind, st: seq<Statement>, w: nat, s: State) {
    InOrder(st, s) && Placed(kind, st, s) && Accounted(kind, st, s) && Window(st, w, s)
  }

  /** The reader waits only for something outstanding, and finishes only with everything. */
  predicate Patient(kind: Kind, st: seq<Statement>, s: State) {
    && (s.phase == Waiting ==> if kind == Generator then s.current in s.running else s.current < s.execCount)
    && (s.phase == Finished ==> s.position == |st| && Outstanding(s) == 0 && s.delivered == Answers(st))
  }

  // ------------------------------------------------------------------------ small facts

  lemma IndexSetHas(q: seq<Entry>, i: nat)
    ensures i in IndexSet(q) <==> exists k :: 0 <= k < |q| && q[k].0 == i
  {
    if i in IndexSet(q) {
      var e :| e in q && e.0 == i;
      var k :| 0 <= k < |q| && q[k] == e;
    }
  }

  lemma IndexSetConcat(p: seq<Entry>, q: seq<Entry>)
    ensures IndexSet(p + q) == IndexSet(p) + IndexSet(q)
  {
  }

  lemma IndexSetOne(e: Entry)
    ensures IndexSet([e]) == {e.0}
  {
    assert e in [e];
  }

  lemma {:induction false} InsertFacts(st: seq<Statement>, q: seq<Entry>, e: Entry)
    requires Truthful(st, q) && Truthful(st, [e])
    ensures IndexSet(Insert(q, e)) == IndexSet(q) + {e.0}
    ensures |Insert(q, e)| == |q| + 1
    ensures Truthful(st, Insert(q, e))
  {
    IndexSetOne(e);
    if q == [] || e.0 < q[0].0 {
      IndexSetConcat([e], q);
      assert forall x :: x in [e] + q ==> x in [e] || x in q;
    } else {
      assert q == [q[0]] + q[1..];
      IndexSetConcat([q[0]], q[1..]);
      InsertFacts(st, q[1..], e);
      IndexSetConcat([q[0]], Insert(q[1..], e));
      forall x | x in [q[0]] + Insert(q[1..], e)
        ensures x.0 < |st| && x.1 == st[x.0].answer
      {
        if x in [q[0]] { assert x in q; }
      }
    }
  }

  lemma {:induction false} InsertIncreasing(q: seq<Entry>, e: Entry)
    requires Increasing(q) && e.0 !in IndexSet(q)
    ensures Increasing(Insert(q, e))
    ensures forall x <- Insert(q, e) :: x in q || x == e
  {
    if q != [] && q[0].0 <= e.0 {
      var rest := Insert(q[1..], e);
      IndexSetConcat([q[0]], q[1..]);
      assert q == [q[0]] + q[1..];
      InsertIncreasing(q[1..], e);
      IndexSetHas(q, e.0);
      forall i | 0 <= i < |rest|
        ensures q[0].0 < rest[i].0
      {
        assert rest[i] in q[1..] || rest[i] == e;
        assert q[0].0 != e.0;
      }
    }
  }

  lemma IncreasingIsApart(q: seq<Entry>)
    requires Increasing(q)
    ensures Apart(q)
  {
  }

  lemma AppendApart(q: seq<Entry>, e: Entry)
    requires Apart(q) && e.0 !in IndexSet(q)
    ensures Apart(q + [e])
  {
    IndexSetHas(q, e.0);
  }

  lemma AppendFacts(st: seq<Statement>, q: seq<Entry>, e: Entry)
    requires Truthful(st, q) && Truthful(st, [e])
    ensures IndexSet(q + [e]) == IndexSet(q) + {e.0} && Truthful(st, q + [e])
  {
    IndexSetConcat(q, [e]);
    IndexSetOne(e);
    assert e in [e];
    assert forall x :: x in q + [e] ==> x in q || x in [e];
  }

  lemma OwnAnswer(st: seq<Statement>, idx: nat)
    requires idx < |st|
    ensures Truthful(st, [(idx, st[idx].answer)])
  {
    assert forall x :: x in [(idx, st[idx].answer)] ==> x == (idx, st[idx].answer);
  }

  // ------------------------------------------------------------- what each small step keeps

  lemma RangeEnds(lo: nat, hi: nat)
    requires lo <= hi
    ensures Range(lo, hi + 1) == Range(lo, hi) + {hi} && hi !in Range(lo, hi)
    ensures lo < hi ==> Range(lo, hi) == Range(lo + 1, hi) + {lo}
    ensures lo !in Range(lo + 1, hi)
  {
    assert AtOrAfter(hi, lo) && AtOrAfter(lo, lo) && !AtOrAfter(lo, lo + 1);
    forall i: nat
      ensures AtOrAfter(i, lo) <==> AtOrAfter(i, lo + 1) || i == lo
    {
    }
  }

  lemma MoveOver(from: set<nat>, into: set<nat>, idx: nat)
    requires from !! into && idx in from
    ensures (from - {idx}) !! (into + {idx}) && (from - {idx}) + (into + {idx}) == from + into
    ensures |from - {idx}| == |from| - 1 && idx !in into
  {
  }

  lemma StartPlaced(kind: Kind, st: seq<Statement>, s: State)
    requires Placed(kind, st, s)
    ensures Placed(kind, st, Start(s)) && |Start(s).running| == |s.running| + 1
  {
    hide Truthful, Apart, IndexSet, Range;
    RangeEnds(Popped(kind, s), s.position);
    AddOne(s.running, IndexSet(s.queue), Range(Popped(kind, s), s.position), s.position);
  }

  lemma AddOne(a: set<nat>, b: set<nat>, whole: set<nat>, x: nat)
    requires a !! b && a + b == whole && x !in whole
    ensures (a + {x}) !! b && (a + {x}) + b == whole + {x} && |a + {x}| == |a| + 1
  {
    assert x !in a && x !in b;
  }

  /** Starting a statement widens the window by one. */
  lemma StartKeeps(kind: Kind, st: seq<Statement>, w: nat, s: State)
    requires Sound(kind, st, w, s) && s.position < |st|
    ensures Sound(kind, st, w + 1, Start(s))
    ensures s.position in Start(s).running
  {
    hide Placed, Increasing, IndexSet, Answers, Iota;
    StartPlaced(kind, st, s);
    IotaGrows(s.position);
  }

  lemma IotaGrows(n: nat)
    ensures Iota(n + 1) == Iota(n) + [n]
  {
  }

  lemma PushPlaced(st: seq<Statement>, s: State, idx: nat)
    requires Placed(Generator, st, s) && Increasing(s.queue) && idx in s.running && idx < |st|
    ensures Placed(Generator, st, Push(st, s, idx)) && Increasing(Push(st, s, idx).queue)
    ensures |Push(st, s, idx).running| == |s.running| - 1
  {
    hide Truthful, Increasing, Apart, IndexSet, Range, Insert;
    var e := (idx, st[idx].answer);
    OwnAnswer(st, idx);
    InsertFacts(st, s.queue, e);
    MoveOver(s.running, IndexSet(s.queue), idx);
    InsertIncreasing(s.queue, e);
    IncreasingIsApart(Insert(s.queue, e));
  }

  /** Taking in a result narrows it. */
  lemma PushKeeps(st: seq<Statement>, w: nat, s: State, idx: nat)
    requires Sound(Generator, st, w + 1, s) && idx in s.running && idx < |st|
    ensures Sound(Generator, st, w, Push(st, s, idx))
  {
    hide Placed, Increasing, IndexSet, Answers, Insert, Iota;
    PushPlaced(st, s, idx);
  }

  lemma AppendPlaced(st: seq<Statement>, s: State, idx: nat)
    requires Placed(Listing, st, s) && idx in s.running && idx < |st|
    ensures Placed(Listing, st, Append(st, s, idx))
    ensures idx !in IndexSet(s.queue) && IndexSet(Append(st, s, idx).queue) == IndexSet(s.queue) + {idx}
    ensures |Append(st, s, idx).running| == |s.running| - 1
  {
    hide Truthful, Apart, IndexSet, Range;
    var e := (idx, st[idx].answer);
    OwnAnswer(st, idx);
    AppendFacts(st, s.queue, e);
    MoveOver(s.running, IndexSet(s.queue), idx);
    AppendApart(s.queue, e);
  }

  lemma AppendKeeps(st: seq<Statement>, w: nat, s: State, idx: nat)
    requires Sound(Listing, st, w, s) && idx in s.running && idx < |st|
    ensures Sound(Listing, st, w, Append(st, s, idx)) && idx in Append(st, s, idx).arrived
  {
    hide Placed, Increasing, IndexSet, Answers, Iota;
    AppendPlaced(st, s, idx);
    assert idx !in s.arrived;
  }

  lemma TallyKeeps(st: seq<Statement>, w: nat, s: State, idx: nat)
    requires Sound(Listing, st, w + 1, s) && idx in s.arrived
    ensures Sound(Listing, st, w, Tally(s, idx))
  {
    hide Truthful, Increasing, Apart, IndexSet, Answers;
  }

  lemma NotifyKeeps(kind: Kind, st: seq<Statement>, w: nat, s: State)
    requires Sound(kind, st, w, s)
    ensures Sound(kind, st, w, Notify(s))
  {
  }

  lemma DepthDoesNotMatter(kind: Kind, st: seq<Statement>, w: nat, s: State, depth: nat)
    requires Sound(kind, st, w, s)
    ensures Sound(kind, st, w, s.(execDepth := depth))
  {
  }

  lemma RunningWasStarted(kind: Kind, st: seq<Statement>, w: nat, s: State, idx: nat)
    requires Sound(kind, st, w, s)
    ensures idx in s.running ==> idx < s.position <= |st|
    ensures idx in s.arrived ==> idx < s.position <= |st|
  {
    hide Truthful, Increasing, Apart, IndexSet, Answers;
    if idx in s.running + IndexSet(s.queue) {
      assert idx in Range(Popped(kind, s), s.position);
    }
  }

  /** How a locked region may change the reader's side: it delivers nothing, counts forward, and
      leaves a waiting reader waiting or ready. */
  predicate Onward(s: State, s': State) {
    && s'.delivered == s.delivered && s.current <= s'.current
    && (s'.phase == s.phase || (s.phase == Waiting && s'.phase == Ready))
  }

  /** Results still to come in. */
  function Unanswered(st: seq<Statement>, s: State): int { |st| - s.position + |s.running| }

  /** However deep the inline completions nest, `_execute_next` adds one to the window unless
      the input is used up. */
  lemma {:induction false} ExecuteNextKeeps(kind: Kind, st: seq<Statement>, w: nat, s: State)
    requires Sound(kind, st, w, s)
    ensures Sound(kind, st, w + 1, ExecuteNext(kind, st, s))
    ensures Onward(s, ExecuteNext(kind, st, s))
    ensures Unanswered(st, ExecuteNext(kind, st, s)) <= Unanswered(st, s)
    ensures kind == Listing && s.position < |st| ==> ListPatient(ExecuteNext(kind, st, s))
    decreases |st| - s.position, 0
  {
    hide Placed, Accounted, Window, InOrder;
    if s.position >= |st| {
      WidenAtEnd(kind, st, w, s);
    } else {
      var idx, s1 := s.position, Start(s);
      StartKeeps(kind, st, w, s);
      StartUnanswered(kind, st, w, s);
      if CompletesInline(st[idx].mode, s1.execDepth) {
        PutResultKeeps(kind, st, w, s1, idx);
        var s2 := PutResult(kind, st, s1, idx);
        DepthDoesNotMatter(kind, st, w + 1, s2, s2.execDepth - 1);
      } else {
        DepthDoesNotMatter(kind, st, w + 1, s1, s1.execDepth - 1);
      }
    }
  }

  /** A waiting reader of the list executor has something left to wait for. */
  predicate ListPatient(s: State) { s.phase == Waiting ==> s.current < s.execCount }

  lemma WidenAtEnd(kind: Kind, st: seq<Statement>, w: nat, s: State)
    requires Sound(kind, st, w, s) && s.position >= |st|
    ensures Sound(kind, st, w + 1, s)
  {
  }

  lemma StartUnanswered(kind: Kind, st: seq<Statement>, w: nat, s: State)
    requires Sound(kind, st, w, s) && s.position < |st|
    ensures Unanswered(st, Start(s)) == Unanswered(st, s)
    ensures kind == Listing ==> Start(s).current < Start(s).execCount
  {
    hide Truthful, Increasing, Apart, IndexSet, Answers;
    assert s.position !in Range(Popped(kind, s), s.position);
  }

  lemma {:induction false} PutResultKeeps(kind: Kind, st: seq<Statement>, w: nat, s: State, idx: nat)
    requires Sound(kind, st, w + 1, s) && idx in s.running && idx < |st|
    ensures Sound(kind, st, w + 1, PutResult(kind, st, s, idx))
    ensures Onward(s, PutResult(kind, st, s, idx))
    ensures Unanswered(st, PutResult(kind, st, s, idx)) < Unanswered(st, s)
    ensures if kind == Listing then ListPatient(PutResult(kind, st, s, idx))
            else PutResult(kind, st, s, idx).phase != Waiting
    decreases |st| - s.position, 2
  {
    hide Placed, Accounted, Window, InOrder;
    match kind
    case Generator =>
      var s1 := Push(st, s, idx);
      PushKeeps(st, w, s, idx);
      ExecuteNextKeeps(Generator, st, w, s1);
      NotifyKeeps(Generator, st, w + 1, ExecuteNext(Generator, st, s1));
    case Listing =>
      AppendKeeps(st, w + 1, s, idx);
      CountKeeps(st, w, Append(st, s, idx), idx);
  }

  lemma {:induction false} CountKeeps(st: seq<Statement>, w: nat, s: State, idx: nat)
    requires Sound(Listing, st, w + 1, s) && idx in s.arrived
    ensures Sound(Listing, st, w + 1, Count(st, s, idx))
    ensures Onward(s, Count(st, s, idx))
    ensures Unanswered(st, Count(st, s, idx)) <= Unanswered(st, s)
    ensures ListPatient(Count(st, s, idx))
    decreases |st| - s.position, 1
  {
    hide Placed, Accounted, Window, InOrder;
    var s1 := Tally(s, idx);
    TallyKeeps(st, w, s, idx);
    ExecuteNextKeeps(Listing, st, w, s1);
    var s2 := ExecuteNext(Listing, st, s1);
    NotifyKeeps(Listing, st, w + 1, s2);
    CountedSoFar(st, w + 1, s2);
  }

  lemma CountedSoFar(st: seq<Statement>, w: nat, s: State)
    requires Sound(Listing, st, w, s)
    ensures s.current <= s.execCount
  {
  }

  // ------------------------------------------------------------------------ whole runs

  lemma {:induction false} LaunchKeeps(kind: Kind, st: seq<Statement>, w: nat, concurrency: nat, s: State)
    requires Sound(kind, st, w, s) && s.phase == Ready && s.delivered == []
    ensures Sound(kind, st, w + concurrency, Launch(kind, st, concurrency, s))
    ensures Launch(kind, st, concurrency, s).phase == Ready
    ensures Unanswered(st, Launch(kind, st, concurrency, s)) <= Unanswered(st, s)
    decreases concurrency
  {
    hide Placed, Accounted, InOrder;
    if concurrency != 0 && s.position < |st| {
      ExecuteNextKeeps(kind, st, w, s);
      LaunchKeeps(kind, st, w + 1, concurrency - 1, ExecuteNext(kind, st, s));
    }
  }

  lemma IdleIsSound(kind: Kind, st: seq<Statement>)
    ensures Sound(kind, st, 0, IDLE)
  {
    assert Range(0, 0) == {};
  }

  /** With nothing outstanding and the window at least one wide, the input is used up. */
  lemma NothingOutstanding(kind: Kind, st: seq<Statement>, w: nat, s: State)
    requires Sound(kind, st, w, s) && w >= 1 && Outstanding(s) == 0
    ensures s.position == |st|
  {
  }

  /** The generator's reader finds its next entry at the head, or else it is still running. */
  lemma HeadOrRunning(st: seq<Statement>, w: nat, s: State)
    requires Sound(Generator, st, w, s) && s.phase == Ready && s.current < s.execCount
    ensures if s.queue != [] && s.queue[0].0 == s.current then s.queue[0].1 == Answers(st)[s.current]
            else s.current in s.running
  {
    assert s.current in Range(Popped(Generator, s), s.position);
    assert s.current in s.running + IndexSet(s.queue);
    IndexSetHas(s.queue, s.current);
    if s.current in IndexSet(s.queue) {
      var k :| 0 <= k < |s.queue| && s.queue[k].0 == s.current;
      HeadIsLeast(st, w, s, k);
    }
    if s.queue != [] { assert s.queue[0] in s.queue; }
  }

  lemma HeadIsLeast(st: seq<Statement>, w: nat, s: State, k: nat)
    requires Sound(Generator, st, w, s) && k < |s.queue|
    ensures Popped(Generator, s) <= s.queue[0].0 <= s.queue[k].0
  {
    IndexSetHas(s.queue, s.queue[0].0);
    assert s.queue[0].0 in s.running + IndexSet(s.queue);
    assert s.queue[0].0 in Range(Popped(Generator, s), s.position);
  }

  lemma PopPlaced(st: seq<Statement>, s: State)
    requires Placed(Generator, st, s) && Increasing(s.queue) && s.queue != []
    requires s.queue[0].0 == |s.delivered| < s.position
    ensures Placed(Generator, st, Consumed(s)) && Increasing(Consumed(s).queue)
  {
    hide Truthful, Increasing, Apart, Range, IndexSet;
    PopFacts(st, s.queue);
    RangeEnds(|s.delivered|, s.position);
    DropOne(s.running, IndexSet(s.queue[1..]), Range(|s.delivered| + 1, s.position), |s.delivered|);
  }

  lemma DropOne(a: set<nat>, b: set<nat>, whole: set<nat>, x: nat)
    requires a !! (b + {x}) && x !in b && x !in whole && a + (b + {x}) == whole + {x}
    ensures a !! b && a + b == whole
  {
    assert x !in a;
    forall y: nat
      ensures y in a + b <==> y in whole
    {
      assert y in a + (b + {x}) <==> y in whole + {x};
    }
  }

  lemma PopKeeps(st: seq<Statement>, w: nat, s: State)
    requires Sound(Generator, st, w, s) && s.phase == Ready && s.current < s.execCount
    requires s.queue != [] && s.queue[0].0 == s.current
    ensures Sound(Generator, st, w, Consumed(s))
  {
    hide Placed, Increasing, IndexSet, Iota;
    HeadOrRunning(st, w, s);
    PopPlaced(st, s);
    assert s.delivered + [s.queue[0].1] <= Answers(st);
  }

  lemma PopFacts(st: seq<Statement>, q: seq<Entry>)
    requires q != [] && Truthful(st, q) && Increasing(q)
    ensures Truthful(st, q[1..]) && Increasing(q[1..]) && Apart(q[1..])
    ensures IndexSet(q) == IndexSet(q[1..]) + {q[0].0} && q[0].0 !in IndexSet(q[1..])
  {
    assert q == [q[0]] + q[1..];
    IndexSetConcat([q[0]], q[1..]);
    IndexSetOne(q[0]);
    IndexSetHas(q[1..], q[0].0);
    IncreasingIsApart(q[1..]);
  }

  lemma ConsumeGenerator(st: seq<Statement>, w: nat, s: State)
    requires Sound(Generator, st, w, s) && w >= 1 && s.phase == Ready
    ensures Sound(Generator, st, w, Consume(Generator, st, s)) && Patient(Generator, st, Consume(Generator, st, s))
  {
    if s.current >= s.execCount {
      GeneratorDone(st, w, s);
    } else {
      HeadOrRunning(st, w, s);
      if s.queue != [] && s.queue[0].0 == s.current {
        PopKeeps(st, w, s);
      }
    }
  }

  lemma GeneratorDone(st: seq<Statement>, w: nat, s: State)
    requires Sound(Generator, st, w, s) && w >= 1 && s.phase == Ready && s.current >= s.execCount
    ensures s.position == |st| && Outstanding(s) == 0 && s.delivered == Answers(st)
  {
    hide Truthful, Increasing, Apart, IndexSet;
    NothingOutstanding(Generator, st, w, s);
  }

  lemma {:induction false} SortFacts(st: seq<Statement>, q: seq<Entry>)
    requires Truthful(st, q) && Apart(q)
    ensures Increasing(SortByIndex(q)) && Truthful(st, SortByIndex(q))
    ensures IndexSet(SortByIndex(q)) == IndexSet(q) && |SortByIndex(q)| == |q|
  {
    if q != [] {
      assert q == [q[0]] + q[1..];
      IndexSetConcat([q[0]], q[1..]);
      IndexSetOne(q[0]);
      IndexSetHas(q[1..], q[0].0);
      SortFacts(st, q[1..]);
      assert Truthful(st, [q[0]]) by { assert q[0] in q; }
      InsertFacts(st, SortByIndex(q[1..]), q[0]);
      InsertIncreasing(SortByIndex(q[1..]), q[0]);
    }
  }

  /** An increasing list of `n` indices below `n` counts them off. */
  lemma {:induction false} IncreasingIsIota(q: seq<Entry>, k: nat)
    requires Increasing(q) && k < |q|
    requires forall e <- q :: e.0 < |q|
    ensures q[k].0 == k
  {
    AtLeast(q, k);
    AtMost(q, k);
  }

  lemma {:induction false} AtLeast(q: seq<Entry>, k: nat)
    requires Increasing(q) && k < |q|
    ensures q[k].0 >= k
  {
    if k > 0 { AtLeast(q, k - 1); }
  }

  lemma {:induction false} AtMost(q: seq<Entry>, k: nat)
    requires Increasing(q) && k < |q|
    requires forall e <- q :: e.0 < |q|
    ensures q[k].0 <= k
    decreases |q| - k
  {
    if k + 1 < |q| { AtMost(q, k + 1); } else { assert q[k] in q; }
  }

  lemma ConsumeListing(st: seq<Statement>, w: nat, s: State)
    requires Sound(Listing, st, w, s) && w >= 1 && s.phase == Ready
    ensures Sound(Listing, st, w, Consume(Listing, st, s)) && Patient(Listing, st, Consume(Listing, st, s))
  {
    hide Truthful, Increasing, Apart, IndexSet, SortByIndex, ResultsOf, Answers, Range, Iota;
    if s.current >= s.execCount {
      NothingOutstanding(Listing, st, w, s);
      SortedIsAnswers(st, s.queue);
    }
  }

  lemma SortedIsAnswers(st: seq<Statement>, q: seq<Entry>)
    requires Truthful(st, q) && Apart(q) && |q| == |st|
    ensures ResultsOf(SortByIndex(q)) == Answers(st)
  {
    SortFacts(st, q);
    var sorted := SortByIndex(q);
    forall k | 0 <= k < |sorted|
      ensures ResultsOf(sorted)[k] == Answers(st)[k]
    {
      IncreasingIsIota(sorted, k);
      assert sorted[k] in sorted;
    }
  }

  /** Weight of a phase: a reader that is ready has one more step to take. */
  function Weight(p: Phase): nat {
    match p case Ready => 1 case Yielding => 2 case Waiting => 0 case Finished => 0
  }

  /** Bounds the steps still to be taken. */
  function Measure(kind: Kind, st: seq<Statement>, s: State): int {
    3 * Unanswered(st, s) + 2 * |s.arrived| +
    2 * (if kind == Generator then |st| - |s.delivered| else 0) + Weight(s.phase)
  }

  /** Every step of every thread keeps the invariant and uses up some of the measure. */
  lemma StepKeeps(kind: Kind, st: seq<Statement>, w: nat, s: State, e: Event)
    requires Sound(kind, st, w, s) && Patient(kind, st, s) && w >= 1 && Enabled(kind, s, e)
    ensures Sound(kind, st, w, Next(kind, st, s, e)) && Patient(kind, st, Next(kind, st, s, e))
    ensures Measure(kind, st, Next(kind, st, s, e)) < Measure(kind, st, s)
  {
    match e
    case Complete(idx) =>
      CompleteKeeps(st, w, s, idx);
    case Arrive(idx) =>
      ArriveKeeps(st, w, s, idx);
    case Counted(idx) =>
      CountedKeeps(st, w, s, idx);
    case Read =>
      ReadKeeps(kind, st, w, s);
    case Back =>
      BackKeeps(st, w, s);
  }

  lemma SomethingRuns(kind: Kind, st: seq<Statement>, s: State)
    requires Patient(kind, st, s) && Outstanding(s) != 0
    ensures s.phase != Finished
  {
  }

  lemma CompleteKeeps(st: seq<Statement>, w: nat, s: State, idx: nat)
    requires Sound(Generator, st, w, s) && Patient(Generator, st, s) && w >= 1 && idx in s.running
    ensures var s' := Next(Generator, st, s, Complete(idx));
            && Sound(Generator, st, w, s') && Patient(Generator, st, s')
            && Measure(Generator, st, s') < Measure(Generator, st, s)
  {
    hide Sound, PutResult, Answers;
    RunningWasStarted(Generator, st, w, s, idx);
    PutResultKeeps(Generator, st, w - 1, s, idx);
    SomethingRuns(Generator, st, s);
    NothingArrives(st, w, s);
    NothingArrives(st, w, PutResult(Generator, st, s, idx));
  }

  lemma NothingArrives(st: seq<Statement>, w: nat, s: State)
    requires Sound(Generator, st, w, s)
    ensures s.arrived == {}
  {
  }

  lemma ArriveKeeps(st: seq<Statement>, w: nat, s: State, idx: nat)
    requires Sound(Listing, st, w, s) && Patient(Listing, st, s) && idx in s.running
    ensures var s' := Next(Listing, st, s, Arrive(idx));
            && Sound(Listing, st, w, s') && Patient(Listing, st, s')
            && Measure(Listing, st, s') < Measure(Listing, st, s)
  {
    hide Sound, Answers;
    RunningWasStarted(Listing, st, w, s, idx);
    AppendKeeps(st, w, s, idx);
    SomethingRuns(Listing, st, s);
  }

  lemma CountedKeeps(st: seq<Statement>, w: nat, s: State, idx: nat)
    requires Sound(Listing, st, w, s) && Patient(Listing, st, s) && w >= 1 && idx in s.arrived
    ensures var s' := Next(Listing, st, s, Counted(idx));
            && Sound(Listing, st, w, s') && Patient(Listing, st, s')
            && Measure(Listing, st, s') < Measure(Listing, st, s)
  {
    hide Sound, Count, Answers;
    CountKeeps(st, w - 1, s, idx);
    SomethingRuns(Listing, st, s);
    CountArrived(st, w, s, idx);
  }

  lemma {:induction false} ExecuteNextArrived(st: seq<Statement>, s: State)
    requires s.arrived !! Range(s.position, |st|)
    ensures ExecuteNext(Listing, st, s).arrived == s.arrived
    decreases |st| - s.position
  {
    if s.position < |st| {
      var idx, s1 := s.position, Start(s);
      assert idx in Range(s.position, |st|);
      if CompletesInline(st[idx].mode, s1.execDepth) {
        var s2 := Tally(Append(st, s1, idx), idx);
        assert s2.arrived == s.arrived;
        assert Range(s2.position, |st|) <= Range(s.position, |st|);
        ExecuteNextArrived(st, s2);
        assert PutResult(Listing, st, s1, idx).arrived == ExecuteNext(Listing, st, s2).arrived;
      }
    }
  }

  lemma CountArrived(st: seq<Statement>, w: nat, s: State, idx: nat)
    requires Sound(Listing, st, w, s) && idx in s.arrived
    ensures Count(st, s, idx).arrived == s.arrived - {idx}
  {
    hide Truthful, Increasing, Apart, IndexSet;
    assert s.arrived <= s.running + IndexSet(s.queue);
    assert s.arrived !! Range(s.position, |st|);
    ExecuteNextArrived(st, Tally(s, idx));
  }

  lemma ReadKeeps(kind: Kind, st: seq<Statement>, w: nat, s: State)
    requires Sound(kind, st, w, s) && Patient(kind, st, s) && w >= 1 && s.phase == Ready
    ensures var s' := Next(kind, st, s, Read);
            Sound(kind, st, w, s') && Patient(kind, st, s') && Measure(kind, st, s') < Measure(kind, st, s)
  {
    hide Sound, Patient, SortByIndex, ResultsOf;
    if kind == Generator { ConsumeGenerator(st, w, s); } else { ConsumeListing(st, w, s); }
  }

  lemma BackKeeps(st: seq<Statement>, w: nat, s: State)
    requires Sound(Generator, st, w, s) && Patient(Generator, st, s) && s.phase == Yielding
    ensures var s' := Next(Generator, st, s, Back);
            && Sound(Generator, st, w, s') && Patient(Generator, st, s')
            && Measure(Generator, st, s') < Measure(Generator, st, s)
  {
    hide Truthful, Increasing, Apart, IndexSet, Range, Iota, Answers;
  }

  lemma MeasureIsNatural(kind: Kind, st: seq<Statement>, w: nat, s: State)
    requires Sound(kind, st, w, s)
    ensures Measure(kind, st, s) >= 0
  {
    hide Truthful, Increasing, Apart, IndexSet;
  }

  lemma {:induction false} RunKeeps(kind: Kind, st: seq<Statement>, w: nat, s: State, events: seq<Event>)
    requires Sound(kind, st, w, s) && Patient(kind, st, s) && w >= 1 && Possible(kind, st, s, events)
    ensures Sound(kind, st, w, Run(kind, st, s, events)) && Patient(kind, st, Run(kind, st, s, events))
    ensures |events| <= Measure(kind, st, s)
    decreases |events|
  {
    hide Sound, Patient, Enabled, Next, Measure;
    MeasureIsNatural(kind, st, w, s);
    if events != [] {
      StepKeeps(kind, st, w, s, events[0]);
      RunKeeps(kind, st, w, Next(kind, st, s, events[0]), events[1..]);
    }
  }

  /** Where a run of `execute_concurrent` stands after the launch and the given steps. */
  function After(kind: Kind, st: seq<Statement>, concurrency: nat, events: seq<Event>): State {
    Run(kind, st, Launch(kind, st, concurrency, IDLE), events)
  }

  predicate PossibleRun(kind: Kind, st: seq<Statement>, concurrency: nat, events: seq<Event>) {
    Possible(kind, st, Launch(kind, st, concurrency, IDLE), events)
  }

  lemma Reachable(kind: Kind, st: seq<Statement>, concurrency: nat, events: seq<Event>)
    requires concurrency >= 1 && PossibleRun(kind, st, concurrency, events)
    ensures Sound(kind, st, concurrency, After(kind, st, concurrency, events))
    ensures Patient(kind, st, After(kind, st, concurrency, events))
    ensures |events| <= Measure(kind, st, Launch(kind, st, concurrency, IDLE))
  {
    IdleIsSound(kind, st);
    LaunchKeeps(kind, st, 0, concurrency, IDLE);
    RunKeeps(kind, st, concurrency, Launch(kind, st, concurrency, IDLE), events);
  }

  /** In every interleaving the statements start once each in input order, at most `concurrency`
      are outstanding, and the window is full for as long as the input lasts. */
  lemma StartsInOrderWithinTheWindow(kind: Kind, st: seq<Statement>, concurrency: nat, events: seq<Event>)
    requires concurrency >= 1 && PossibleRun(kind, st, concurrency, events)
    ensures var s := After(kind, st, concurrency, events);
            && s.started == Iota(s.execCount) && s.execCount <= |st|
            && Outstanding(s) <= concurrency
            && (s.execCount < |st| ==> Outstanding(s) == concurrency)
  {
    Reachable(kind, st, concurrency, events);
  }

  /** What the reader has been given so far is the answers to the first statements, in order;
      when it finishes, it has been given them all. */
  lemma DeliversInOrder(kind: Kind, st: seq<Statement>, concurrency: nat, events: seq<Event>)
    requires concurrency >= 1 && PossibleRun(kind, st, concurrency, events)
    ensures var s := After(kind, st, concurrency, events);
            && (kind == Generator ==> s.delivered <= Answers(st))
            && (s.phase == Finished ==> s.delivered == Answers(st) && s.started == Iota(|st|))
  {
    Reachable(kind, st, concurrency, events);
  }

  /** The reader waits only while some statement is outstanding; the generator's reader, only
      while the very statement it is at is running. */
  lemma WaitsOnlyForOutstanding(kind: Kind, st: seq<Statement>, concurrency: nat, events: seq<Event>)
    requires concurrency >= 1 && PossibleRun(kind, st, concurrency, events)
    ensures var s := After(kind, st, concurrency, events);
            s.phase == Waiting ==> Outstanding(s) >= 1 && (kind == Generator ==> s.current in s.running)
  {
    hide After, PossibleRun, Sound, Measure, Launch, Answers;
    Reachable(kind, st, concurrency, events);
    var s := After(kind, st, concurrency, events);
    if s.phase == Waiting { WaitingHasWork(kind, st, concurrency, s); }
  }

  /** No run goes on for ever, and one that cannot go on has delivered every result. */
  lemma EveryRunFinishes(kind: Kind, st: seq<Statement>, concurrency: nat, events: seq<Event>)
    requires concurrency >= 1 && PossibleRun(kind, st, concurrency, events)
    ensures |events| <= 5 * |st| + 1
    ensures var s := After(kind, st, concurrency, events);
            (forall e :: !Enabled(kind, s, e)) ==> s.phase == Finished && s.delivered == Answers(st)
  {
    hide After, PossibleRun, Sound, Patient, Measure, Launch, Enabled;
    Reachable(kind, st, concurrency, events);
    LaunchMeasure(kind, st, concurrency);
    var s := After(kind, st, concurrency, events);
    if forall e :: !Enabled(kind, s, e) {
      StuckIsDone(kind, st, concurrency, s);
    }
  }

  lemma StuckIsDone(kind: Kind, st: seq<Statement>, w: nat, s: State)
    requires Sound(kind, st, w, s) && Patient(kind, st, s) && (forall e :: !Enabled(kind, s, e))
    ensures s.phase == Finished && s.delivered == Answers(st)
  {
    YieldingIsGenerator(kind, st, w, s);
    hide Sound, Answers;
    assert !Enabled(kind, s, Read) && !Enabled(kind, s, Back);
    if s.phase == Waiting {
      WaitingHasWork(kind, st, w, s);
      SomethingCanHappen(kind, st, w, s);
    }
  }

  lemma YieldingIsGenerator(kind: Kind, st: seq<Statement>, w: nat, s: State)
    requires Sound(kind, st, w, s)
    ensures s.phase == Yielding ==> kind == Generator
  {
  }

  lemma WaitingHasWork(kind: Kind, st: seq<Statement>, w: nat, s: State)
    requires Sound(kind, st, w, s) && Patient(kind, st, s) && s.phase == Waiting
    ensures Outstanding(s) >= 1
  {
    hide Truthful, Increasing, Apart, IndexSet, Range, Iota, Answers;
    if kind == Generator {
      assert {s.current} <= s.running;
      Seqs.SubsetSize({s.current}, s.running);
    }
  }

  lemma SomethingCanHappen(kind: Kind, st: seq<Statement>, w: nat, s: State)
    requires Sound(kind, st, w, s) && Outstanding(s) >= 1
    ensures exists e :: Enabled(kind, s, e)
  {
    if s.running != {} {
      var idx :| idx in s.running;
      assert Enabled(kind, s, if kind == Generator then Complete(idx) else Arrive(idx));
    } else {
      var idx :| idx in s.arrived;
      assert Enabled(kind, s, Counted(idx));
    }
  }

  lemma LaunchMeasure(kind: Kind, st: seq<Statement>, concurrency: nat)
    ensures Measure(kind, st, Launch(kind, st, concurrency, IDLE)) <= 5 * |st| + 1
  {
    IdleIsSound(kind, st);
    LaunchKeeps(kind, st, 0, concurrency, IDLE);
    LaunchArrived(kind, st, concurrency, IDLE);
    hide Launch, Sound;
  }

  lemma {:induction false} LaunchArrived(kind: Kind, st: seq<Statement>, concurrency: nat, s: State)
    requires s.arrived == {}
    ensures Launch(kind, st, concurrency, s).arrived == {}
    decreases concurrency
  {
    if concurrency != 0 && s.position < |st| {
      if kind == Listing { ExecuteNextArrived(st, s); } else { GeneratorArrived(st, s); }
      LaunchArrived(kind, st, concurrency - 1, ExecuteNext(kind, st, s));
    }
  }

  lemma {:induction false} GeneratorArrived(st: seq<Statement>, s: State)
    ensures ExecuteNext(Generator, st, s).arrived == s.arrived
    decreases |st| - s.position
  {
    if s.position < |st| {
      GeneratorArrived(st, Push(st, Start(s), s.position));
    }
  }
}
