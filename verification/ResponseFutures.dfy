/** The ResponseFuture object, updated in place: each method is the step of that name of the
    state machine in Retries. */
module ResponseFutures {
  import opened Seqs
  import opened Topology
  import opened Retries
  import Steps = Retries

  class ResponseFuture {
    const policy: Policy
    const env: Env
    ghost const plan: seq<Host>
    var queryPlan: seq<Host>
    var queryRetries: nat
    var errors: map<Host, Failure>

    /** What threads that have handled a response have still to write into `errors`. */
    var unwritten: seq<(Host, Failure)>
    var attemptedHosts: seq<Host>
    var consistencyLevel: int
    var tries: nat
    var phase: Phase

    ghost var queried: seq<(Host, Attempt)>
    ghost var answered: seq<(Host, Response)>

    ghost function Now(): State
      reads this
    {
      State(queryPlan, queryRetries, errors, unwritten, attemptedHosts, consistencyLevel, tries, phase, queried,
        answered)
    }

    ghost predicate Valid()
      reads this
    {
      Sound(plan, Now())
    }

    /** A new request, with its first host found. */
    constructor (policy: Policy, env: Env, plan: seq<Host>, level: int)
      ensures Valid() && this.policy == policy && this.env == env && this.plan == plan
      ensures Now() == Begin(env, plan, level)
    {
      this.policy, this.env, this.plan := policy, env, plan;
      queryPlan, queryRetries, errors, unwritten, attemptedHosts := plan, 0, map[], [], [];
      consistencyLevel, tries := level, 0;
      phase := Retrying(false, Host("", None, None));
      queried, answered := [], [];
      new;
      BeginIsSound(env, plan, level);
      SendRequest();
    }

    method Query(host: Host) returns (sent: bool)
      modifies this`errors, this`attemptedHosts, this`tries, this`phase, this`queried
      ensures Now() == Steps.Query(env, old(Now()), host)
      ensures sent == (env(old(tries)) == Sent)
    {
      var attempt := env(tries);
      queried := queried + [(host, attempt)];
      tries := tries + 1;
      if attempt == Sent {
        attemptedHosts := attemptedHosts + [host];
        phase := Outstanding(host);
        return true;
      }
      errors := errors[host := Unreachable(attempt)];
      sent := false;
    }

    method SendRequest()
      modifies this
      ensures Now() == Steps.SendRequest(env, old(Now()))
    {
      while queryPlan != []
        invariant Steps.SendRequest(env, Now()) == Steps.SendRequest(env, old(Now()))
        decreases |queryPlan|
      {
        var host := queryPlan[0];
        queryPlan := queryPlan[1..];
        var sent := Query(host);
        if sent {
          return;
        }
      }
      phase := Complete(Raised(NoHostAvailable));
    }

    /** `_set_result`, up to its last statement. */
    method SetResult(response: Response)
      requires Valid() && phase.Outstanding?
      modifies this
      ensures Valid() && Now() == Steps.SetResult(policy, old(Now()), response)
      ensures Measure(Now()) < old(Measure(Now()))
    {
      hide Sound, Decide, Measure;
      StepKeeps(env, policy, plan, Now(), Respond(response));
      var host := phase.host;
      answered := answered + [(host, response)];
      if response.Answer? {
        phase := Complete(Result(Some(response.value)));
      } else if AsksPolicy(response) {
        var retry := Decide(policy, response, queryRetries);
        if retry.RetrySameHost? || retry.RetryNextHost? {
          queryRetries := queryRetries + 1;
          consistencyLevel := retry.level;
          phase := Retrying(retry.RetrySameHost?, host);
        } else if retry.Rethrow? {
          phase := Complete(Raised(Reported(response)));
        } else {
          phase := Complete(Result(None));
        }
        unwritten := unwritten + [(host, Reported(response))];
      } else if response.Overloaded? || response.IsBootstrapping? || response.ConnectionError? {
        phase := Retrying(false, host);
      } else {
        phase := Complete(Raised(Reported(response)));
      }
    }

    /** The last statement of `_set_result`: other threads may have gone on with the request by then. */
    method FinishSetResult()
      requires Valid() && unwritten != []
      modifies this`errors, this`unwritten
      ensures Valid() && Now() == WriteError(old(Now()))
    {
      WriteErrorKeeps(plan, Now());
      var (host, failure) := unwritten[0];
      unwritten := unwritten[1..];
      errors := errors[host := failure];
    }

    method RetryTask()
      requires Valid() && phase.Retrying?
      modifies this
      ensures Valid() && Now() == Steps.RetryTask(env, old(Now()))
      ensures Measure(Now()) < old(Measure(Now()))
    {
      RetryTaskKeeps(env, plan, Now());
      StepKeeps(env, policy, plan, Now(), Task);
      if phase.reuse {
        var sent := Query(phase.host);
        if sent {
          return;
        }
      }
      SendRequest();
    }
  }

  /** Drives a request to its end: whatever the responses, the steps alternate until the future is
      complete, and the late writes come whenever they come. It ends as the last of the responses it
      was given says. */
  method Drive(policy: Policy, env: Env, plan: seq<Host>, level: int, responses: nat -> Response)
    returns (final: Final, attempted: seq<Host>, given: nat)
    ensures |attempted| <= |plan| + 1
    ensures policy == Fallthrough ==> |attempted| <= |plan|
    ensures EndsAsSaid(policy, Complete(final), seq(given, i requires 0 <= i => responses(i)))
  {
    hide Accounted, EndsAsSaid, Sound, Measure, Said, Steps.RetryTask, Begin, Decide;
    var f := new ResponseFuture(policy, env, plan, level);
    BeginIsSound(env, plan, level);
    BeginAccounted(env, policy, plan, level);
    given := 0;
    NothingGiven(env, plan, level, responses);
    while !f.phase.Complete?
      invariant f.Valid() && f.policy == policy && f.plan == plan && f.env == env
      invariant policy == Fallthrough ==> f.queryRetries == 0
      invariant Accounted(policy, level, f.Now())
      invariant Said(f.answered) == seq(given, i requires 0 <= i => responses(i))
      decreases Measure(f.Now()), |f.unwritten|
    {
      ghost var before := f.Now();
      MeasureIsNatural(plan, before);
      var late := *;
      if late && f.unwritten != [] {
        StepKeeps(env, policy, plan, before, Write);
        WriteAccounted(policy, level, before);
        f.FinishSetResult();
      } else if f.phase.Outstanding? {
        StepKeeps(env, policy, plan, before, Respond(responses(given)));
        SetResultAccounted(policy, level, before, responses(given));
        SaidNext(before, f.phase.host, responses, given);
        f.SetResult(responses(given));
        given := given + 1;
      } else {
        StepKeeps(env, policy, plan, before, Task);
        RetryTaskAccounted(env, policy, level, before);
        RetryTaskSaid(env, before);
        f.RetryTask();
      }
    }
    final, attempted := f.phase.final, f.attemptedHosts;
    Ends(policy, level, f.Now());
    AttemptsBounded(plan, f.Now());
  }

  lemma NothingGiven(env: Env, plan: seq<Host>, level: int, responses: nat -> Response)
    ensures Said(Begin(env, plan, level).answered) == seq(0, i requires 0 <= i => responses(i))
  {
    SendRequestSays(env, State(plan, 0, map[], [], [], level, 0, Retrying(false, Host("", None, None)), [], []));
  }

  lemma MeasureIsNatural(plan: seq<Host>, s: State)
    requires Sound(plan, s)
    ensures Measure(s) >= 0
  {
  }

  lemma SaidNext(s: State, host: Host, responses: nat -> Response, n: nat)
    requires Said(s.answered) == seq(n, i requires 0 <= i => responses(i))
    ensures Said(s.answered + [(host, responses(n))]) == seq(n + 1, i requires 0 <= i => responses(i))
  {
  }

  lemma RetryTaskSaid(env: Env, s: State)
    requires s.phase.Retrying?
    ensures Steps.RetryTask(env, s).answered == s.answered
  {
    SendRequestSays(env, s);
    SendRequestSays(env, Steps.Query(env, s, s.phase.host));
  }

  lemma AttemptsBounded(plan: seq<Host>, s: State)
    requires Sound(plan, s)
    ensures |s.attempted| <= |plan| + 1 && (s.retries == 0 ==> |s.attempted| <= |plan|)
  {
  }
}
