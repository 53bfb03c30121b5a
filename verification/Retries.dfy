/** A request's walk over its query plan: which host each attempt goes to, what the retry
    policies decide, and how the walk ends. */
module Retries {
  import opened Seqs
  import opened Topology

  // ---------------------------------------------------------------------- retry policies

  datatype WriteType = Simple | Batch | UnloggedBatch | Counter | BatchLog | Cas | View | Cdc

  /** What comes back for a request that was sent. */
  datatype Response =
    | Answer(value: int)
    | ReadTimeout(consistency: int, required: int, received: int, dataRetrieved: bool)
    | WriteTimeout(consistency: int, writeType: WriteType, required: int, received: int)
    | Unavailable(consistency: int, required: int, alive: int)
    | Overloaded
    | IsBootstrapping
    | ConnectionError
    | OtherError
    | UnexpectedMessage

  datatype Decision = RetrySameHost(level: int) | RetryNextHost(level: int) | Rethrow | Ignore

  datatype Policy = Default | Fallthrough | Downgrading

  /** `_pick_consistency`: levels ONE, TWO and THREE are 1, 2 and 3. */
  function PickConsistency(responses: int): Decision {
    if responses >= 3 then RetrySameHost(3)
    else if responses >= 2 then RetrySameHost(2)
    else if responses >= 1 then RetrySameHost(1)
    else Rethrow
  }

  function OnReadTimeout(p: Policy, r: Response, retryNum: nat): Decision
    requires r.ReadTimeout?
  {
    if p == Fallthrough || retryNum != 0 then Rethrow
    else if p == Default then
      if r.received >= r.required && !r.dataRetrieved then RetrySameHost(r.consistency) else Rethrow
    else if r.received < r.required then PickConsistency(r.received)
    else if !r.dataRetrieved then RetrySameHost(r.consistency)
    else Rethrow
  }

  function OnWriteTimeout(p: Policy, r: Response, retryNum: nat): Decision
    requires r.WriteTimeout?
  {
    if p == Fallthrough || retryNum != 0 then Rethrow
    else if p == Default then
      if r.writeType == BatchLog then RetrySameHost(r.consistency) else Rethrow
    else
      match r.writeType
      case Simple => if r.received > 0 then Ignore else Rethrow
      case Batch => if r.received > 0 then Ignore else Rethrow
      case Counter => if r.received > 0 then Ignore else Rethrow
      case UnloggedBatch => PickConsistency(r.received)
      case BatchLog => RetrySameHost(r.consistency)
      case _ => Rethrow
  }

  function OnUnavailable(p: Policy, r: Response, retryNum: nat): Decision
    requires r.Unavailable?
  {
    if p == Fallthrough || retryNum != 0 then Rethrow
    else if p == Default then RetryNextHost(r.consistency)
    else PickConsistency(r.alive)
  }

  predicate AsksPolicy(r: Response) { r.ReadTimeout? || r.WriteTimeout? || r.Unavailable? }

  function Decide(p: Policy, r: Response, retryNum: nat): Decision
    requires AsksPolicy(r)
  {
    match r
    case ReadTimeout(_, _, _, _) => OnReadTimeout(p, r, retryNum)
    case WriteTimeout(_, _, _, _) => OnWriteTimeout(p, r, retryNum)
    case _ => OnUnavailable(p, r, retryNum)
  }

  /** No built-in policy retries twice; the fall-through policy never does; the default policy
      keeps the level the server reported; the downgrading policy otherwise asks for no more
      replicas than responded, and ignores only a write that some replica holds. */
  lemma PolicyFacts(p: Policy, r: Response, retryNum: nat)
    requires AsksPolicy(r)
    ensures var d := Decide(p, r, retryNum);
            && (d.RetrySameHost? || d.RetryNextHost? ==> retryNum == 0 && p != Fallthrough)
            && ((p == Default && d.RetrySameHost?) || d.RetryNextHost? ==> d.level == r.consistency)
            && (d.RetrySameHost? && d.level != r.consistency ==>
                  1 <= d.level <= 3 && d.level <= (if r.Unavailable? then r.alive else r.received))
            && (d.Ignore? ==> p == Downgrading && r.WriteTimeout? && r.received > 0)
  {
  }

  predicate Retry(d: Decision) { d.RetrySameHost? || d.RetryNextHost? }

  /** The default policy, decision by decision: it retries once, after a read timeout when enough
      replicas responded but none with data, after a write timeout when the batch log timed out, and
      after an unavailable error, then on the next host; and it never ignores. */
  lemma DefaultDecides(r: Response, retryNum: nat)
    requires AsksPolicy(r)
    ensures var d := Decide(Default, r, retryNum);
            && (d.RetrySameHost? <==>
                  retryNum == 0 && ((r.ReadTimeout? && r.received >= r.required && !r.dataRetrieved) ||
                                    (r.WriteTimeout? && r.writeType == BatchLog)))
            && (d.RetryNextHost? <==> retryNum == 0 && r.Unavailable?)
            && (Retry(d) ==> d.level == r.consistency)
            && (!Retry(d) ==> d == Rethrow)
  {
  }

  /** The downgrading policy, decision by decision: it retries once and on the same host, at the
      level of as many replicas as are there but no higher than three, or at the same level when
      enough of them were there; it ignores a write that some replica holds, unless it is a batch log
      or an unlogged batch. */
  lemma DowngradingDecides(r: Response, retryNum: nat)
    requires AsksPolicy(r)
    ensures var d := Decide(Downgrading, r, retryNum);
            var there := if r.Unavailable? then r.alive else r.received;
            var lower := || r.Unavailable? || (r.ReadTimeout? && r.received < r.required)
                         || (r.WriteTimeout? && r.writeType == UnloggedBatch);
            var same := || (r.ReadTimeout? && r.received >= r.required && !r.dataRetrieved)
                        || (r.WriteTimeout? && r.writeType == BatchLog);
            && (d.RetrySameHost? <==> retryNum == 0 && ((lower && there >= 1) || same))
            && (d.RetrySameHost? ==> d.level == if lower then Min(3, there) else r.consistency)
            && !d.RetryNextHost?
            && (d.Ignore? <==> retryNum == 0 && r.WriteTimeout? && r.received > 0 &&
                               (r.writeType == Simple || r.writeType == Batch || r.writeType == Counter))
  {
  }

  lemma FallthroughDecides(r: Response, retryNum: nat)
    requires AsksPolicy(r)
    ensures Decide(Fallthrough, r, retryNum) == Rethrow
  {
  }

  // ---------------------------------------------------------------------- the request

  /** What `_query` meets: no pool, a pool that is shut down, no free connection, an exception
      while sending, or a request on its way. */
  datatype Attempt = NoPool | PoolShutdown | NoConnections | SendRaises | Sent

  /** The outcome of each successive call of `_query`. */
  type Env = nat -> Attempt

  datatype Failure = Unreachable(why: Attempt) | Reported(response: Response) | NoHostAvailable

  datatype Final = Result(value: Option<int>) | Raised(failure: Failure)

  /** A request is out, a retry task is queued, or the future is complete. */
  datatype Phase = Outstanding(host: Host) | Retrying(reuse: bool, host: Host) | Complete(final: Final)

  /** `unwritten` holds what the threads that handled a response have still to write into the errors:
      they do so last, after a retry has been queued or the future completed. `queried` and
      `answered` log what each `_query` met and which response each host gave. */
  datatype State = State(
    remaining: seq<Host>, retries: nat, errors: map<Host, Failure>, unwritten: seq<(Host, Failure)>,
    attempted: seq<Host>, level: int, tries: nat, phase: Phase, queried: seq<(Host, Attempt)>,
    answered: seq<(Host, Response)>)

  /** `_query`. */
  function Query(env: Env, s: State, host: Host): State {
    var s1 := s.(tries := s.tries + 1, queried := s.queried + [(host, env(s.tries))]);
    if env(s.tries) == Sent then s1.(attempted := s.attempted + [host], phase := Outstanding(host))
    else s1.(errors := s.errors[host := Unreachable(env(s.tries))])
  }

  /** `send_request`, which takes up the plan where it was left. */
  function SendRequest(env: Env, s: State): State
    decreases |s.remaining|
  {
    if s.remaining == [] then s.(phase := Complete(Raised(NoHostAvailable)))
    else
      var s1 := Query(env, s.(remaining := s.remaining[1..]), s.remaining[0]);
      if env(s.tries) == Sent then s1 else SendRequest(env, s1)
  }

  /** `_set_result`, for a request that is out. */
  function SetResult(p: Policy, s: State, r: Response): State
    requires s.phase.Outstanding?
  {
    Handle(p, s.(answered := s.answered + [(s.phase.host, r)]), r)
  }

  function Handle(p: Policy, s: State, r: Response): State
    requires s.phase.Outstanding?
  {
    var host := s.phase.host;
    match r
    case Answer(value) => s.(phase := Complete(Result(Some(value))))
    case Overloaded => s.(phase := Retrying(false, host))
    case IsBootstrapping => s.(phase := Retrying(false, host))
    case ConnectionError => s.(phase := Retrying(false, host))
    case OtherError => s.(phase := Complete(Raised(Reported(r))))
    case UnexpectedMessage => s.(phase := Complete(Raised(Reported(r))))
    case _ =>
      var s1 := s.(unwritten := s.unwritten + [(host, Reported(r))]);
      match Decide(p, r, s.retries)
      case RetrySameHost(level) => s1.(retries := s.retries + 1, level := level, phase := Retrying(true, host))
      case RetryNextHost(level) => s1.(retries := s.retries + 1, level := level, phase := Retrying(false, host))
      case Rethrow => s1.(phase := Complete(Raised(Reported(r))))
      case Ignore => s1.(phase := Complete(Result(None)))
  }

  /** `_retry_task`. */
  function RetryTask(env: Env, s: State): State
    requires s.phase.Retrying?
  {
    if !s.phase.reuse then SendRequest(env, s)
    else if env(s.tries) == Sent then Query(env, s, s.phase.host)
    else SendRequest(env, Query(env, s, s.phase.host))
  }

  function Begin(env: Env, plan: seq<Host>, level: int): State {
    SendRequest(env, State(plan, 0, map[], [], [], level, 0, Retrying(false, Host("", None, None)), [], []))
  }

  /** The last statement of a thread that put a response to the policy. */
  function WriteError(s: State): State
    requires s.unwritten != []
  {
    s.(errors := s.errors[s.unwritten[0].0 := s.unwritten[0].1], unwritten := s.unwritten[1..])
  }

  /** A response comes in, the executor runs the queued task, or a thread that handled a response
      gets round to writing the error down. */
  datatype Event = Respond(response: Response) | Task | Write

  predicate Enabled(s: State, e: Event) {
    match e
    case Respond(_) => s.phase.Outstanding?
    case Task => s.phase.Retrying?
    case Write => s.unwritten != []
  }

  function Next(env: Env, p: Policy, s: State, e: Event): State
    requires Enabled(s, e)
  {
    match e
    case Respond(r) => SetResult(p, s, r)
    case Task => RetryTask(env, s)
    case Write => WriteError(s)
  }

  predicate Possible(env: Env, p: Policy, s: State, events: seq<Event>)
    decreases |events|
  {
    events == [] || (Enabled(s, events[0]) && Possible(env, p, Next(env, p, s, events[0]), events[1..]))
  }

  function Run(env: Env, p: Policy, s: State, events: seq<Event>): State
    requires Possible(env, p, s, events)
    decreases |events|
  {
    if events == [] then s else Run(env, p, Next(env, p, s, events[0]), events[1..])
  }

  // ---------------------------------------------------------------------- the invariant

  function Front<T>(s: seq<T>): seq<T>
    requires s != []
  {
    s[..|s| - 1]
  }

  function Last<T>(s: seq<T>): T
    requires s != []
  {
    s[|s| - 1]
  }

  /** The attempts are hosts of the plan in plan order, with at most `spare` immediate repeats. */
  predicate Walks(plan: seq<Host>, attempts: seq<Host>, spare: nat)
    decreases |plan| + |attempts|
  {
    || (plan == [] && attempts == [])
    || (plan != [] && Walks(Front(plan), attempts, spare))
    || (plan != [] && attempts != [] && Last(plan) == Last(attempts) && Walks(Front(plan), Front(attempts), spare))
    || (spare > 0 && |attempts| >= 2 && Last(attempts) == Last(Front(attempts))
      && Walks(plan, Front(attempts), spare - 1))
  }

  /** The part of the plan already taken up. */
  function Used(plan: seq<Host>, s: State): seq<Host>
    requires |s.remaining| <= |plan|
  {
    plan[..|plan| - |s.remaining|]
  }

  predicate OnPlan(plan: seq<Host>, s: State) {
    |s.remaining| <= |plan| && s.remaining == plan[|plan| - |s.remaining|..]
  }

  /** The retry that was granted but not yet used. */
  function Owed(s: State): nat { if s.phase.Retrying? && s.phase.reuse then 1 else 0 }

  predicate Bounded(plan: seq<Host>, s: State) {
    && s.retries <= 1 && Owed(s) <= s.retries
    && s.tries + |s.remaining| + Owed(s) <= |plan| + s.retries
    && |s.attempted| <= s.tries
  }

  predicate AtLastHost(s: State) {
    s.phase.Complete? || (s.attempted != [] && Last(s.attempted) == s.phase.host)
  }

  /** Every host taken up was sent the request or has an error on record. */
  predicate Recorded(plan: seq<Host>, s: State)
    requires |s.remaining| <= |plan|
  {
    forall h <- Used(plan, s) :: h in s.attempted || h in s.errors
  }

  predicate Sound(plan: seq<Host>, s: State) {
    && OnPlan(plan, s) && Bounded(plan, s) && AtLastHost(s)
    && Walks(Used(plan, s), s.attempted, s.retries - Owed(s))
    && Recorded(plan, s)
    && (s.phase == Complete(Raised(NoHostAvailable)) ==> s.remaining == [])
  }

  lemma {:induction false} WalksWider(plan: seq<Host>, attempts: seq<Host>, spare: nat)
    requires Walks(plan, attempts, spare)
    ensures Walks(plan, attempts, spare + 1)
    decreases |plan| + |attempts|
  {
    if plan == [] && attempts == [] {
    } else if plan != [] && Walks(Front(plan), attempts, spare) {
      WalksWider(Front(plan), attempts, spare);
    } else if plan != [] && attempts != [] && Last(plan) == Last(attempts)
      && Walks(Front(plan), Front(attempts), spare) {
      WalksWider(Front(plan), Front(attempts), spare);
    } else {
      WalksWider(plan, Front(attempts), spare - 1);
    }
  }

  lemma WalksOn(plan: seq<Host>, attempts: seq<Host>, spare: nat, host: Host)
    requires Walks(plan, attempts, spare)
    ensures Walks(plan + [host], attempts, spare) && Walks(plan + [host], attempts + [host], spare)
    ensures attempts != [] && Last(attempts) == host ==> Walks(plan, attempts + [host], spare + 1)
  {
    assert Front(plan + [host]) == plan && Front(attempts + [host]) == attempts;
  }

  lemma UsedGrows(plan: seq<Host>, s: State)
    requires OnPlan(plan, s) && s.remaining != []
    ensures var s1 := s.(remaining := s.remaining[1..]);
            OnPlan(plan, s1) && Used(plan, s1) == Used(plan, s) + [s.remaining[0]]
  {
  }

  /** A queued task that is not owed a reuse, with the books in order. */
  predicate ReadyToSend(plan: seq<Host>, s: State) {
    && OnPlan(plan, s) && s.retries <= 1
    && s.tries + |s.remaining| <= |plan| + s.retries && |s.attempted| <= s.tries
    && Walks(Used(plan, s), s.attempted, s.retries)
    && Recorded(plan, s)
  }

  lemma RecordedGrows(plan: seq<Host>, s: State, s': State, host: Host)
    requires |s.remaining| <= |plan| && |s'.remaining| <= |plan| && Recorded(plan, s)
    requires Used(plan, s') == Used(plan, s) + [host]
    requires s'.errors.Keys >= s.errors.Keys && s.attempted <= s'.attempted
    requires host in s'.attempted || host in s'.errors
    ensures Recorded(plan, s')
  {
    forall h <- Used(plan, s')
      ensures h in s'.attempted || h in s'.errors
    {
      if h != host {
        assert h in Used(plan, s);
        if h in s.attempted { assert h in s'.attempted; }
      }
    }
  }

  lemma {:induction false} SendRequestKeeps(env: Env, plan: seq<Host>, s: State)
    requires ReadyToSend(plan, s)
    ensures Sound(plan, SendRequest(env, s)) && !SendRequest(env, s).phase.Retrying?
    ensures SendRequest(env, s).retries == s.retries
    ensures |SendRequest(env, s).remaining| <= |s.remaining|
    ensures SendRequest(env, s).phase.Outstanding? ==> |SendRequest(env, s).remaining| < |s.remaining|
    decreases |s.remaining|
  {
    hide Walks, Recorded;
    if s.remaining == [] {
      NothingLeft(env, plan, s);
    } else {
      var host := s.remaining[0];
      var s1 := Query(env, s.(remaining := s.remaining[1..]), host);
      UsedGrows(plan, s);
      WalksOn(Used(plan, s), s.attempted, s.retries, host);
      assert Used(plan, s1) == Used(plan, s) + [host];
      if env(s.tries) == Sent { assert host in s1.attempted; }
      RecordedGrows(plan, s, s1, host);
      if env(s.tries) != Sent {
        SendRequestKeeps(env, plan, s1);
      }
    }
  }

  lemma NothingLeft(env: Env, plan: seq<Host>, s: State)
    requires ReadyToSend(plan, s) && s.remaining == []
    ensures Sound(plan, SendRequest(env, s))
  {
    var s' := SendRequest(env, s);
    assert Used(plan, s') == Used(plan, s) == plan;
  }

  lemma RecordedStays(plan: seq<Host>, s: State, s': State)
    requires |s.remaining| <= |plan| && Recorded(plan, s) && s'.remaining == s.remaining
    requires s'.errors.Keys >= s.errors.Keys && s.attempted <= s'.attempted
    ensures Recorded(plan, s')
  {
    forall h <- Used(plan, s')
      ensures h in s'.attempted || h in s'.errors
    {
      assert h in Used(plan, s);
      if h in s.attempted { assert h in s'.attempted; }
    }
  }

  lemma RetryTaskKeeps(env: Env, plan: seq<Host>, s: State)
    requires Sound(plan, s) && s.phase.Retrying?
    ensures Sound(plan, RetryTask(env, s)) && RetryTask(env, s).retries == s.retries
    ensures !RetryTask(env, s).phase.Retrying?
    ensures RetryTask(env, s).phase.Outstanding? ==>
              |RetryTask(env, s).remaining| < |s.remaining| + Owed(s) && |RetryTask(env, s).remaining| <= |s.remaining|
    ensures |RetryTask(env, s).remaining| <= |s.remaining|
  {
    hide Walks, Recorded;
    var host := s.phase.host;
    if !s.phase.reuse {
      SendRequestKeeps(env, plan, s);
    } else {
      var s1 := Query(env, s, host);
      RecordedStays(plan, s, s1);
      WalksOn(Used(plan, s), s.attempted, s.retries - 1, host);
      if env(s.tries) != Sent {
        WalksWider(Used(plan, s), s.attempted, s.retries - 1);
        SendRequestKeeps(env, plan, s1);
      }
    }
  }

  lemma SetResultKeeps(p: Policy, plan: seq<Host>, s: State, r: Response)
    requires Sound(plan, s) && s.phase.Outstanding?
    ensures Sound(plan, SetResult(p, s, r)) && !SetResult(p, s, r).phase.Outstanding?
    ensures SetResult(p, s, r).remaining == s.remaining && s.retries <= SetResult(p, s, r).retries
    ensures || SetResult(p, s, r).retries == s.retries + Owed(SetResult(p, s, r))
            || SetResult(p, s, r).retries == s.retries + 1
    ensures p == Fallthrough ==> SetResult(p, s, r).retries == s.retries
  {
    hide Walks, Recorded, Decide;
    RecordedStays(plan, s, SetResult(p, s, r));
    if AsksPolicy(r) {
      PolicyFacts(p, r, s.retries);
      if Decide(p, r, s.retries).RetryNextHost? {
        WalksWider(Used(plan, s), s.attempted, s.retries);
      }
    }
  }

  /** Hosts left plus the retry not yet used. */
  function Measure(s: State): int {
    2 * |s.remaining| + 2 * (1 - s.retries) +
    (match s.phase
     case Outstanding(_) => 2
     case Retrying(reuse, _) => if reuse then 3 else 1
     case Complete(_) => 0)
  }

  lemma WriteErrorKeeps(plan: seq<Host>, s: State)
    requires Sound(plan, s) && s.unwritten != []
    ensures Sound(plan, WriteError(s))
  {
    hide Walks, Recorded;
    RecordedStays(plan, s, WriteError(s));
  }

  lemma {:induction false} QueuesNothing(env: Env, s: State)
    ensures SendRequest(env, s).unwritten == s.unwritten
    decreases |s.remaining|
  {
    if s.remaining != [] && env(s.tries) != Sent {
      QueuesNothing(env, Query(env, s.(remaining := s.remaining[1..]), s.remaining[0]));
    }
  }

  /** A step other than a write uses up hosts or the retry, and leaves at most one write to do. */
  lemma StepKeeps(env: Env, p: Policy, plan: seq<Host>, s: State, e: Event)
    requires Sound(plan, s) && Enabled(s, e)
    ensures Sound(plan, Next(env, p, s, e))
    ensures if e.Write? then Measure(Next(env, p, s, e)) == Measure(s) else Measure(Next(env, p, s, e)) < Measure(s)
    ensures |Next(env, p, s, e).unwritten| <= |s.unwritten| + (if e.Write? then -1 else if e.Respond? then 1 else 0)
    ensures p == Fallthrough ==> Next(env, p, s, e).retries == s.retries
  {
    match e
    case Respond(r) =>
      SetResultKeeps(p, plan, s, r);
      hide Sound, SetResult;
    case Task =>
      RetryTaskKeeps(env, plan, s);
      QueuesNothing(env, s);
      QueuesNothing(env, Query(env, s, s.phase.host));
      hide Sound, SendRequest;
    case Write =>
      WriteErrorKeeps(plan, s);
      hide Sound;
  }

  function WritesIn(events: seq<Event>): nat {
    if events == [] then 0 else (if events[0].Write? then 1 else 0) + WritesIn(events[1..])
  }

  lemma {:induction false} RunKeeps(env: Env, p: Policy, plan: seq<Host>, s: State, events: seq<Event>)
    requires Sound(plan, s) && Possible(env, p, s, events)
    ensures Sound(plan, Run(env, p, s, events)) && |events| - WritesIn(events) <= Measure(s)
    ensures |events| <= 2 * Measure(s) + |s.unwritten|
    ensures p == Fallthrough ==> Run(env, p, s, events).retries == s.retries
    decreases |events|
  {
    assert Measure(s) >= 0;
    if events != [] {
      hide Sound, Measure, Next;
      StepKeeps(env, p, plan, s, events[0]);
      RunKeeps(env, p, plan, Next(env, p, s, events[0]), events[1..]);
    }
  }

  lemma BeginIsSound(env: Env, plan: seq<Host>, level: int)
    ensures Sound(plan, Begin(env, plan, level)) && Begin(env, plan, level).retries == 0
    ensures Begin(env, plan, level).unwritten == []
    ensures Measure(Begin(env, plan, level)) <= 2 * |plan| + 2
  {
    var s := State(plan, 0, map[], [], [], level, 0, Retrying(false, Host("", None, None)), [], []);
    assert Used(plan, s) == [];
    SendRequestKeeps(env, plan, s);
    QueuesNothing(env, s);
    hide Sound, SendRequest, ReadyToSend;
  }

  predicate PossibleRun(env: Env, p: Policy, plan: seq<Host>, level: int, events: seq<Event>) {
    Possible(env, p, Begin(env, plan, level), events)
  }

  function After(env: Env, p: Policy, plan: seq<Host>, level: int, events: seq<Event>): State
    requires PossibleRun(env, p, plan, level, events)
  {
    Run(env, p, Begin(env, plan, level), events)
  }

  /** However hosts fail and whatever the servers answer, a request is tried at most once per
      host of the plan and once more; the hosts it was sent to are hosts of the plan in plan
      order, with at most one of them twice in a row, and none twice under the fall-through
      policy. */
  lemma AtMostOneRetry(env: Env, p: Policy, plan: seq<Host>, level: int, events: seq<Event>)
    requires PossibleRun(env, p, plan, level, events)
    ensures var s := After(env, p, plan, level, events);
            && |s.attempted| <= s.tries <= |plan| + (if p == Fallthrough then 0 else 1)
            && Walks(plan, s.attempted, if p == Fallthrough then 0 else 1)
  {
    BeginIsSound(env, plan, level);
    RunKeeps(env, p, plan, Begin(env, plan, level), events);
    var s := After(env, p, plan, level, events);
    var spare := s.retries - Owed(s);
    if spare == 0 && p != Fallthrough { WalksWider(Used(plan, s), s.attempted, 0); }
    WalksWholePlan(plan, |plan| - |s.remaining|, s.attempted, if p == Fallthrough then 0 else 1);
  }

  lemma {:induction false} WalksWholePlan(plan: seq<Host>, k: nat, attempts: seq<Host>, spare: nat)
    requires k <= |plan| && Walks(plan[..k], attempts, spare)
    ensures Walks(plan, attempts, spare)
    decreases |plan| - k
  {
    if k < |plan| {
      WalksOn(plan[..k], attempts, spare, plan[k]);
      assert plan[..k] + [plan[k]] == plan[..k + 1];
      WalksWholePlan(plan, k + 1, attempts, spare);
    } else {
      assert plan[..k] == plan;
    }
  }

  /** Every run is finite: besides the late writes it has at most two steps per host of the plan and
      two more. One that cannot go on has a result or an exception and all errors written, and as
      long as there is neither, something other than a write can happen. */
  lemma EveryRequestEnds(env: Env, p: Policy, plan: seq<Host>, level: int, events: seq<Event>)
    requires PossibleRun(env, p, plan, level, events)
    ensures |events| - WritesIn(events) <= 2 * |plan| + 2 && |events| <= 4 * |plan| + 4
    ensures var s := After(env, p, plan, level, events);
            && ((forall e :: !Enabled(s, e)) <==> s.phase.Complete? && s.unwritten == [])
            && ((forall e: Event | !e.Write? :: !Enabled(s, e)) <==> s.phase.Complete?)
  {
    BeginIsSound(env, plan, level);
    RunKeeps(env, p, plan, Begin(env, plan, level), events);
    var s := After(env, p, plan, level, events);
    if forall e: Event | !e.Write? :: !Enabled(s, e) {
      assert !Enabled(s, Task) && !Enabled(s, Respond(Overloaded));
    }
    if forall e :: !Enabled(s, e) {
      assert !Enabled(s, Write);
    }
  }

  /** `NoHostAvailable` means that every host of the plan was tried: it was sent the request, or
      the reason it could not be is on record. */
  lemma NoHostAvailableTriedAll(env: Env, p: Policy, plan: seq<Host>, level: int, events: seq<Event>, host: Host)
    requires PossibleRun(env, p, plan, level, events) && host in plan
    requires After(env, p, plan, level, events).phase == Complete(Raised(NoHostAvailable))
    ensures var s := After(env, p, plan, level, events);
            host in s.attempted || host in s.errors
  {
    BeginIsSound(env, plan, level);
    RunKeeps(env, p, plan, Begin(env, plan, level), events);
    var s := After(env, p, plan, level, events);
    assert Used(plan, s) == plan;
  }

  // ---------------------------------------------------------------- how the request ends

  /** The responses, without who gave them. */
  function Said(answered: seq<(Host, Response)>): (rs: seq<Response>)
    ensures |rs| == |answered| && forall i :: 0 <= i < |rs| ==> rs[i] == answered[i].1
  {
    seq(|answered|, i requires 0 <= i < |answered| => answered[i].1)
  }

  /** How many retries the policy has granted on these responses. */
  function Granted(p: Policy, rs: seq<Response>): nat
    decreases |rs|, 1
  {
    if rs == [] then 0
    else Granted(p, Front(rs)) + if AsksPolicy(Last(rs)) && Retry(LastDecision(p, rs)) then 1 else 0
  }

  /** What the policy said to the last of them. */
  function LastDecision(p: Policy, rs: seq<Response>): Decision
    requires rs != [] && AsksPolicy(Last(rs))
    decreases |rs|, 0
  {
    Decide(p, Last(rs), Granted(p, Front(rs)))
  }

  /** The level of the last retry that was granted, or the one the request came with. */
  function LevelAfter(p: Policy, level: int, rs: seq<Response>): int {
    if rs == [] then level
    else if AsksPolicy(Last(rs)) && Retry(LastDecision(p, rs)) then LastDecision(p, rs).level
    else LevelAfter(p, level, Front(rs))
  }

  /** The last response settles the request: it is an answer, an error that is nobody's to retry, or
      one that the policy rethrows or ignores. */
  predicate Settled(p: Policy, rs: seq<Response>) {
    && rs != []
    && !MovesOn(Last(rs))
    && (AsksPolicy(Last(rs)) ==> !Retry(LastDecision(p, rs)))
  }

  /** How a request ends whose last response settles it. */
  function Settlement(p: Policy, rs: seq<Response>): Final
    requires Settled(p, rs)
  {
    var r := Last(rs);
    if r.Answer? then Result(Some(r.value))
    else if AsksPolicy(r) && LastDecision(p, rs).Ignore? then Result(None)
    else Raised(Reported(r))
  }

  ghost predicate Accounted(p: Policy, level: int, s: State) {
    var rs := Said(s.answered);
    && s.retries == Granted(p, rs) && s.level == LevelAfter(p, level, rs)
    && (Settled(p, rs) ==> s.phase == Complete(Settlement(p, rs)))
    && (!Settled(p, rs) && s.phase.Complete? ==> s.phase.final == Raised(NoHostAvailable))
    && (s.phase.Retrying? && rs != [] ==>
          && s.phase.host == Last(s.answered).0
          && (s.phase.reuse <==> AsksPolicy(Last(rs)) && LastDecision(p, rs).RetrySameHost?))
  }

  lemma SaidMore(s: State, host: Host, r: Response)
    ensures var rs := Said(s.answered + [(host, r)]);
            rs != [] && Front(rs) == Said(s.answered) && Last(rs) == r
  {
  }

  lemma SetResultAccounted(p: Policy, level: int, s: State, r: Response)
    requires Accounted(p, level, s) && s.phase.Outstanding?
    ensures Accounted(p, level, SetResult(p, s, r))
  {
    hide Decide;
    SaidMore(s, s.phase.host, r);
    var rs := Said(s.answered + [(s.phase.host, r)]);
    if AsksPolicy(r) { assert LastDecision(p, rs) == Decide(p, r, s.retries); }
  }

  lemma {:induction false} SendRequestSays(env: Env, s: State)
    ensures var t := SendRequest(env, s);
            && t.answered == s.answered && t.retries == s.retries && t.level == s.level
            && (t.phase.Outstanding? || t.phase == Complete(Raised(NoHostAvailable)))
            && s.queried <= t.queried
            && (s.remaining != [] ==>
                  |t.queried| > |s.queried| && t.queried[|s.queried|] == (s.remaining[0], env(s.tries)))
    decreases |s.remaining|
  {
    if s.remaining != [] && env(s.tries) != Sent {
      SendRequestSays(env, Query(env, s.(remaining := s.remaining[1..]), s.remaining[0]));
    }
  }

  lemma RetryTaskAccounted(env: Env, p: Policy, level: int, s: State)
    requires Accounted(p, level, s) && s.phase.Retrying?
    ensures Accounted(p, level, RetryTask(env, s))
  {
    hide SendRequest, LastDecision, Granted, LevelAfter;
    SendRequestSays(env, s);
    SendRequestSays(env, Query(env, s, s.phase.host));
  }

  /** A retry on the same host tries that host first; any other goes on with the plan. */
  lemma RetryTries(env: Env, s: State)
    requires s.phase.Retrying? && (s.phase.reuse || s.remaining != [])
    ensures var t := RetryTask(env, s);
            |t.queried| > |s.queried| &&
            t.queried[|s.queried|] == (if s.phase.reuse then s.phase.host else s.remaining[0], env(s.tries))
  {
    hide SendRequest;
    SendRequestSays(env, s);
    SendRequestSays(env, Query(env, s, s.phase.host));
  }

  lemma {:induction false} RunAccounted(env: Env, p: Policy, level: int, s: State, events: seq<Event>)
    requires Accounted(p, level, s) && Possible(env, p, s, events)
    ensures Accounted(p, level, Run(env, p, s, events))
    decreases |events|
  {
    hide Accounted, SetResult, RetryTask;
    if events != [] {
      match events[0] {
        case Respond(r) => SetResultAccounted(p, level, s, r);
        case Task => RetryTaskAccounted(env, p, level, s);
        case Write => WriteAccounted(p, level, s);
      }
      RunAccounted(env, p, level, Next(env, p, s, events[0]), events[1..]);
    }
  }

  lemma WriteAccounted(p: Policy, level: int, s: State)
    requires Accounted(p, level, s) && s.unwritten != []
    ensures Accounted(p, level, WriteError(s))
  {
    hide LastDecision, Granted, LevelAfter;
  }

  lemma BeginAccounted(env: Env, p: Policy, plan: seq<Host>, level: int)
    ensures Accounted(p, level, Begin(env, plan, level))
  {
    hide SendRequest;
    SendRequestSays(env, State(plan, 0, map[], [], [], level, 0, Retrying(false, Host("", None, None)), [], []));
  }

  /** The future has the value v exactly when the last response was the answer v; no value exactly
      when it was a write timeout that the downgrading policy ignores; a server's error exactly when
      that was the last response and is rethrown, not retriable or unexpected; and it fails for want
      of hosts in all other cases, if it is complete at all. */
  ghost predicate EndsAsSaid(p: Policy, phase: Phase, rs: seq<Response>) {
    && (forall v :: phase == Complete(Result(Some(v))) <==> rs != [] && Last(rs) == Answer(v))
    && (phase == Complete(Result(None)) <==>
          && p == Downgrading && rs != [] && Last(rs).WriteTimeout? && Last(rs).received > 0
          && (Last(rs).writeType == Simple || Last(rs).writeType == Batch || Last(rs).writeType == Counter)
          && Granted(p, Front(rs)) == 0)
    && (forall r :: phase == Complete(Raised(Reported(r))) <==>
          && rs != [] && Last(rs) == r
          && (r.OtherError? || r.UnexpectedMessage? || (AsksPolicy(r) && LastDecision(p, rs) == Rethrow)))
    && (phase.Complete? ==>
          (phase.final == Raised(NoHostAvailable) <==>
             rs == [] || MovesOn(Last(rs)) || (AsksPolicy(Last(rs)) && Retry(LastDecision(p, rs)))))
  }

  lemma Ends(p: Policy, level: int, s: State)
    requires Accounted(p, level, s)
    ensures EndsAsSaid(p, s.phase, Said(s.answered))
  {
    hide Decide, Granted, LevelAfter;
    var rs := Said(s.answered);
    if rs != [] && AsksPolicy(Last(rs)) {
      DefaultDecides(Last(rs), Granted(p, Front(rs)));
      DowngradingDecides(Last(rs), Granted(p, Front(rs)));
      FallthroughDecides(Last(rs), Granted(p, Front(rs)));
    }
  }

  /** Whatever happens, the request ends as the last response says; the level is that of the last
      retry granted, or the one given. */
  lemma RequestOutcome(env: Env, p: Policy, plan: seq<Host>, level: int, events: seq<Event>)
    requires PossibleRun(env, p, plan, level, events)
    ensures var s := After(env, p, plan, level, events);
            var rs := Said(s.answered);
            EndsAsSaid(p, s.phase, rs) && s.level == LevelAfter(p, level, rs) && s.retries == Granted(p, rs)
  {
    hide Accounted, EndsAsSaid, Granted, LevelAfter, Said;
    BeginAccounted(env, p, plan, level);
    RunAccounted(env, p, level, Begin(env, plan, level), events);
    Ends(p, level, After(env, p, plan, level, events));
    Books(p, level, After(env, p, plan, level, events));
  }

  lemma Books(p: Policy, level: int, s: State)
    requires Accounted(p, level, s)
    ensures s.level == LevelAfter(p, level, Said(s.answered)) && s.retries == Granted(p, Said(s.answered))
  {
  }

  // ------------------------------------------------------------ what the errors name

  /** Some attempt to send the request to the host failed. */
  predicate Unsent(s: State, host: Host) {
    exists q <- s.queried :: q.0 == host && q.1 != Sent
  }

  /** Some response of the host was put to the retry policy. */
  predicate Asked(s: State, host: Host) {
    exists a <- s.answered :: a.0 == host && AsksPolicy(a.1)
  }

  /** The responses that make the request move on without a word to the policy. */
  predicate MovesOn(r: Response) { r.Overloaded? || r.IsBootstrapping? || r.ConnectionError? }

  /** The host has an error, written down or about to be. */
  predicate Named(s: State, host: Host) {
    host in s.errors || exists w <- s.unwritten :: w.0 == host
  }

  ghost predicate Explained(s: State) {
    forall h: Host :: Named(s, h) <==> Unsent(s, h) || Asked(s, h)
  }

  /** Until a response decides the request, every one was put to the policy or moved it on. */
  predicate Undecided(s: State) {
    (!s.phase.Complete? || s.phase.final == Raised(NoHostAvailable)) ==>
      forall a <- s.answered :: AsksPolicy(a.1) || MovesOn(a.1)
  }

  /** A host that was sent the request was queried. */
  predicate Logged(s: State) {
    forall h <- s.attempted :: (h, Sent) in s.queried
  }

  ghost predicate Told(s: State) { Explained(s) && Undecided(s) && Logged(s) }

  lemma QueryTold(env: Env, s: State, host: Host)
    requires Told(s) && !s.phase.Complete?
    ensures Told(Query(env, s, host)) && !Query(env, s, host).phase.Complete?
  {
    var s', q := Query(env, s, host), (host, env(s.tries));
    assert s'.queried[|s.queried|] == q;
    forall h: Host
      ensures Unsent(s', h) <==> Unsent(s, h) || (h == host && q.1 != Sent)
    {
      assert forall x :: x in s'.queried <==> x in s.queried || x == q;
      if Unsent(s, h) {
        var x :| x in s.queried && x.0 == h && x.1 != Sent;
        assert x in s'.queried;
      }
    }
    forall h: Host
      ensures Asked(s', h) <==> Asked(s, h)
    {
    }
  }

  lemma {:induction false} SendRequestTold(env: Env, s: State)
    requires Told(s) && !s.phase.Complete?
    ensures Told(SendRequest(env, s))
    decreases |s.remaining|
  {
    if s.remaining == [] {
      SameStory(s, SendRequest(env, s));
    } else {
      var s0 := s.(remaining := s.remaining[1..]);
      SameStory(s, s0);
      QueryTold(env, s0, s.remaining[0]);
      if env(s.tries) != Sent { SendRequestTold(env, Query(env, s0, s.remaining[0])); }
    }
  }

  /** What is told does not depend on the plan, the counts or the level. */
  lemma SameStory(s: State, s': State)
    requires Told(s) && !s.phase.Complete?
    requires s'.errors == s.errors && s'.unwritten == s.unwritten && s'.attempted == s.attempted
    requires s'.queried == s.queried && s'.answered == s.answered
    ensures Told(s')
  {
    forall h: Host
      ensures Unsent(s', h) <==> Unsent(s, h)
      ensures Asked(s', h) <==> Asked(s, h)
      ensures Named(s', h) <==> Named(s, h)
    {
    }
  }

  lemma WriteErrorTold(s: State)
    requires Told(s) && s.unwritten != []
    ensures Told(WriteError(s))
  {
    var s', w := WriteError(s), s.unwritten[0];
    assert forall x :: x in s.unwritten <==> x == w || x in s'.unwritten;
    forall h: Host
      ensures Named(s', h) <==> Named(s, h)
      ensures Unsent(s', h) <==> Unsent(s, h)
      ensures Asked(s', h) <==> Asked(s, h)
    {
      if h == w.0 { assert w in s.unwritten; }
    }
  }

  lemma SetResultTold(p: Policy, s: State, r: Response)
    requires Told(s) && s.phase.Outstanding?
    ensures Told(SetResult(p, s, r))
  {
    hide Decide;
    var s', a := SetResult(p, s, r), (s.phase.host, r);
    assert s'.answered == s.answered + [a] && s'.queried == s.queried;
    assert s'.answered[|s.answered|] == a;
    forall h: Host
      ensures Unsent(s', h) <==> Unsent(s, h)
      ensures Asked(s', h) <==> Asked(s, h) || (h == a.0 && AsksPolicy(r))
    {
      assert forall x :: x in s'.answered <==> x in s.answered || x == a;
      if Asked(s, h) {
        var x :| x in s.answered && x.0 == h && AsksPolicy(x.1);
        assert x in s'.answered;
      }
    }
  }

  lemma RetryTaskTold(env: Env, s: State)
    requires Told(s) && s.phase.Retrying?
    ensures Told(RetryTask(env, s))
  {
    hide Told, SendRequest, Query;
    if !s.phase.reuse {
      SendRequestTold(env, s);
    } else {
      QueryTold(env, s, s.phase.host);
      if env(s.tries) != Sent { SendRequestTold(env, Query(env, s, s.phase.host)); }
    }
  }

  lemma {:induction false} RunTold(env: Env, p: Policy, s: State, events: seq<Event>)
    requires Told(s) && Possible(env, p, s, events)
    ensures Told(Run(env, p, s, events))
    decreases |events|
  {
    hide Told, SetResult, RetryTask, WriteError;
    if events != [] {
      match events[0] {
        case Respond(r) => SetResultTold(p, s, r);
        case Task => RetryTaskTold(env, s);
        case Write => WriteErrorTold(s);
      }
      RunTold(env, p, Next(env, p, s, events[0]), events[1..]);
    }
  }

  lemma BeginTold(env: Env, plan: seq<Host>, level: int)
    ensures Told(Begin(env, plan, level))
  {
    SendRequestTold(env, State(plan, 0, map[], [], [], level, 0, Retrying(false, Host("", None, None)), [], []));
  }

  /** At any time the errors, with those about to be written, name exactly the hosts that could not
      be sent the request or whose response was put to the policy. So, when no host is left, a host
      of the plan is missing if and only if every attempt on it was sent and every response of it
      moved the request on: overloaded, bootstrapping, or a broken connection. */
  lemma ErrorsName(env: Env, p: Policy, plan: seq<Host>, level: int, events: seq<Event>, host: Host)
    requires PossibleRun(env, p, plan, level, events)
    ensures var s := After(env, p, plan, level, events);
            && (Named(s, host) <==> Unsent(s, host) || Asked(s, host))
            && (s.unwritten == [] ==> (Named(s, host) <==> host in s.errors))
            && (host in plan && s.phase == Complete(Raised(NoHostAvailable)) ==>
                  && (!Named(s, host) <==>
                        && (forall q <- s.queried :: q.0 == host ==> q.1 == Sent)
                        && (forall a <- s.answered :: a.0 == host ==> MovesOn(a.1)))
                  && (!Named(s, host) ==> (host, Sent) in s.queried))
  {
    BeginTold(env, plan, level);
    RunTold(env, p, Begin(env, plan, level), events);
    var s := After(env, p, plan, level, events);
    assert Explained(s) && Undecided(s) && Logged(s);
    if host in plan && s.phase == Complete(Raised(NoHostAvailable)) {
      NoHostAvailableTriedAll(env, p, plan, level, events, host);
    }
  }

  /** Once they are all written, the errors of a NoHostAvailable name every host of the plan exactly
      when each of them failed to be sent the request or had a response put to the policy. */
  lemma ErrorsNameEveryHost(env: Env, p: Policy, plan: seq<Host>, level: int, events: seq<Event>)
    requires PossibleRun(env, p, plan, level, events)
    requires After(env, p, plan, level, events).phase == Complete(Raised(NoHostAvailable))
    ensures var s := After(env, p, plan, level, events);
            var all := forall h <- plan :: (exists q <- s.queried :: q.0 == h && q.1 != Sent) ||
                                           (exists a <- s.answered :: a.0 == h && !MovesOn(a.1));
            && ((forall h <- plan :: Named(s, h)) <==> all)
            && (s.unwritten == [] ==> ((forall h <- plan :: h in s.errors) <==> all))
  {
    hide After, PossibleRun, Unsent, Asked;
    var s := After(env, p, plan, level, events);
    forall h <- plan
      ensures Named(s, h) <==> ((exists q <- s.queried :: q.0 == h && q.1 != Sent) ||
                                (exists a <- s.answered :: a.0 == h && !MovesOn(a.1)))
      ensures s.unwritten == [] ==> (Named(s, h) <==> h in s.errors)
    {
      ErrorsName(env, p, plan, level, events, h);
    }
  }

  /** The retry is queued before the error is written down, and may find no host left before that:
      the NoHostAvailable is raised with no error in it, and the error follows. */
  lemma ErrorWrittenLate(host: Host)
    ensures var env := (_: nat) => Sent;
            var r := Unavailable(1, 1, 0);
            var events := [Respond(r), Task];
            && PossibleRun(env, Default, [host], 1, events)
            && (var s := After(env, Default, [host], 1, events);
                s.phase == Complete(Raised(NoHostAvailable)) && s.errors == map[] &&
                s.unwritten == [(host, Reported(r))])
  {
    var env := (_: nat) => Sent;
    var events := [Respond(Unavailable(1, 1, 0)), Task];
    var s0 := Begin(env, [host], 1);
    assert s0.phase == Outstanding(host) && s0.remaining == [];
    var s1 := Next(env, Default, s0, events[0]);
    var s2 := Next(env, Default, s1, events[1]);
    assert events[1..] == [Task] && events[1..][1..] == [];
    assert Possible(env, Default, s2, []) && Possible(env, Default, s1, [Task]);
    assert Run(env, Default, s1, [Task]) == s2;
  }

  // ------------------------------------------------------------------ what the errors say

  /** The failure is one that the host met: what an attempt on it ran into, or a response of it that
      was put to the policy. */
  predicate Met(s: State, host: Host, f: Failure) {
    match f
    case Unreachable(why) => why != Sent && (host, why) in s.queried
    case Reported(r) => AsksPolicy(r) && (host, r) in s.answered
    case NoHostAvailable => false
  }

  ghost predicate AllMet(s: State) {
    && (forall h <- s.errors :: Met(s, h, s.errors[h]))
    && (forall w <- s.unwritten :: Met(s, w.0, w.1))
  }

  lemma MetLater(s: State, t: State, h: Host, f: Failure)
    requires Met(s, h, f) && s.queried <= t.queried && s.answered <= t.answered
    ensures Met(t, h, f)
  {
    assert forall x :: x in s.queried ==> x in t.queried;
    assert forall x :: x in s.answered ==> x in t.answered;
  }

  /** Nothing is written that was not met, when logs grow and only met failures are added. */
  lemma AllMetLater(s: State, t: State)
    requires AllMet(s) && s.queried <= t.queried && s.answered <= t.answered
    requires forall h <- t.errors :: (h in s.errors && t.errors[h] == s.errors[h]) || Met(t, h, t.errors[h])
    requires forall w <- t.unwritten :: w in s.unwritten || Met(t, w.0, w.1)
    ensures AllMet(t)
  {
    hide Met;
    forall h <- t.errors ensures Met(t, h, t.errors[h]) {
      if h in s.errors && t.errors[h] == s.errors[h] { MetLater(s, t, h, s.errors[h]); }
    }
    forall w <- t.unwritten ensures Met(t, w.0, w.1) {
      if w in s.unwritten { MetLater(s, t, w.0, w.1); }
    }
  }

  lemma QueryMet(env: Env, s: State, host: Host)
    requires AllMet(s)
    ensures AllMet(Query(env, s, host))
  {
    var t := Query(env, s, host);
    assert t.queried[|s.queried|] == (host, env(s.tries));
    if env(s.tries) != Sent { assert Met(t, host, Unreachable(env(s.tries))); }
    hide AllMet, Met;
    AllMetLater(s, t);
  }

  lemma {:induction false} SendRequestMet(env: Env, s: State)
    requires AllMet(s)
    ensures AllMet(SendRequest(env, s))
    decreases |s.remaining|
  {
    hide AllMet, Query;
    if s.remaining == [] {
      AllMetLater(s, SendRequest(env, s));
    } else {
      var s0 := s.(remaining := s.remaining[1..]);
      AllMetLater(s, s0);
      QueryMet(env, s0, s.remaining[0]);
      var s1 := Query(env, s0, s.remaining[0]);
      QueryShortens(env, s0, s.remaining[0]);
      if env(s.tries) != Sent { SendRequestMet(env, s1); }
    }
  }

  lemma QueryShortens(env: Env, s: State, host: Host)
    ensures Query(env, s, host).remaining == s.remaining
  {
  }

  lemma SetResultMet(p: Policy, s: State, r: Response)
    requires AllMet(s) && s.phase.Outstanding?
    ensures AllMet(SetResult(p, s, r))
  {
    hide Decide;
    var t := SetResult(p, s, r);
    assert t.answered[|s.answered|] == (s.phase.host, r);
    if AsksPolicy(r) { assert Met(t, s.phase.host, Reported(r)); }
    hide AllMet, Met;
    AllMetLater(s, t);
  }

  lemma RetryTaskMet(env: Env, s: State)
    requires AllMet(s) && s.phase.Retrying?
    ensures AllMet(RetryTask(env, s))
  {
    hide AllMet, SendRequest, Query;
    QueryMet(env, s, s.phase.host);
    SendRequestMet(env, s);
    SendRequestMet(env, Query(env, s, s.phase.host));
  }

  lemma WriteErrorMet(s: State)
    requires AllMet(s) && s.unwritten != []
    ensures AllMet(WriteError(s))
  {
    var t, w := WriteError(s), s.unwritten[0];
    assert w in s.unwritten;
    MetLater(s, t, w.0, w.1);
    hide Met;
    AllMetLater(s, t);
  }

  lemma {:induction false} RunMet(env: Env, p: Policy, s: State, events: seq<Event>)
    requires AllMet(s) && Possible(env, p, s, events)
    ensures AllMet(Run(env, p, s, events))
    decreases |events|
  {
    hide AllMet, SetResult, RetryTask, WriteError;
    if events != [] {
      match events[0] {
        case Respond(r) => SetResultMet(p, s, r);
        case Task => RetryTaskMet(env, s);
        case Write => WriteErrorMet(s);
      }
      RunMet(env, p, Next(env, p, s, events[0]), events[1..]);
    }
  }

  /** At any time the error recorded for a host is one it met: the reason why an attempt on it was not
      sent, or a response of it that was put to the policy. */
  lemma ErrorsAreTrue(env: Env, p: Policy, plan: seq<Host>, level: int, events: seq<Event>, host: Host)
    requires PossibleRun(env, p, plan, level, events)
    ensures var s := After(env, p, plan, level, events); host in s.errors ==> Met(s, host, s.errors[host])
  {
    hide SendRequest, Met, Run;
    SendRequestMet(env, State(plan, 0, map[], [], [], level, 0, Retrying(false, Host("", None, None)), [], []));
    RunMet(env, p, Begin(env, plan, level), events);
  }

  /** The record need not name a host that was sent the request and was overloaded. */
  lemma OverloadedIsNotRecorded(host: Host)
    ensures var env := (_: nat) => Sent;
            var events := [Respond(Overloaded), Task];
            && PossibleRun(env, Default, [host], 0, events)
            && After(env, Default, [host], 0, events).phase == Complete(Raised(NoHostAvailable))
            && host !in After(env, Default, [host], 0, events).errors
  {
    var env := (_: nat) => Sent;
    var events := [Respond(Overloaded), Task];
    var s0 := Begin(env, [host], 0);
    assert s0.phase == Outstanding(host) && s0.remaining == [];
    var s1 := Next(env, Default, s0, events[0]);
    var s2 := Next(env, Default, s1, events[1]);
    assert events[1..] == [Task] && events[1..][1..] == [];
    assert Possible(env, Default, s2, []) && Possible(env, Default, s1, [Task]);
    assert Run(env, Default, s1, [Task]) == s2;
  }
}
