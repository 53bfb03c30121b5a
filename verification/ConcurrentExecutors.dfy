/** The executor object behind `execute_concurrent`, updated in place: each method is the step
    of that name of the state machine in ConcurrentExecution, and keeps its invariant. */
module ConcurrentExecutors {
  import opened Seqs
  import opened ConcurrentExecution
  import Steps = ConcurrentExecution

  class Executor {
    const kind: Kind
    const statements: seq<Statement>
    var position: nat
    var resultsQueue: seq<Entry>
    var current: nat
    var execCount: nat
    var execDepth: nat
    var phase: Phase
    var delivered: seq<ExecutionResult>
    var running: set<nat>
    var arrived: set<nat>

    ghost var started: seq<nat>
    ghost var window: nat

    ghost function Now(): State
      reads this
    {
      State(position, execCount, execDepth, current, resultsQueue, phase, started, running, arrived, delivered)
    }

    /** The invariant inside a locked region, where `w` statements may be outstanding. */
    ghost predicate Holds(w: nat)
      reads this
    {
      Sound(kind, statements, w, Now())
    }

    /** What every thread may rely on when it takes the lock: statements started once each in
        input order, the window full while the input lasts, every result in its place, and a
        reader that waits only for something outstanding. */
    ghost predicate Valid()
      reads this
    {
      window >= 1 && Holds(window) && Patient(kind, statements, Now())
    }

    constructor (kind: Kind, statements: seq<Statement>)
      ensures this.kind == kind && this.statements == statements && Now() == IDLE
    {
      this.kind, this.statements := kind, statements;
      position, execCount, execDepth, current := 0, 0, 0, 0;
      resultsQueue, phase, delivered := [], Ready, [];
      started, running, arrived, window := [], {}, {}, 0;
    }

    /** `execute`, up to the point where the results are read. */
    method Execute(concurrency: nat)
      requires Now() == IDLE && concurrency >= 1
      modifies this
      ensures Valid() && window == concurrency && phase == Ready
      ensures Now() == Launch(kind, statements, concurrency, IDLE)
    {
      hide Sound, Launch;
      IdleIsSound(kind, statements);
      LaunchKeeps(kind, statements, 0, concurrency, IDLE);
      window := concurrency;
      var n := 0;
      while n < concurrency
        invariant n <= concurrency && window == concurrency && phase == Ready && delivered == []
        invariant n < concurrency || position >= |statements| ==> Holds(n)
        invariant Launch(kind, statements, concurrency - n, Now()) == Launch(kind, statements, concurrency, IDLE)
      {
        LaunchStep(kind, statements, concurrency - n, Now());
        ExecuteNextKeeps(kind, statements, n, Now());
        var more := ExecuteNext(n);
        if !more {
          return;
        }
        n := n + 1;
      }
      LaunchStep(kind, statements, 0, Now());
    }

    /** `_execute_next`: one more statement may be outstanding afterwards. */
    method ExecuteNext(ghost w: nat) returns (more: bool)
      requires Holds(w)
      modifies this
      ensures Holds(w + 1) && window == old(window)
      ensures more == (old(position) < |statements|)
      ensures Now() == Steps.ExecuteNext(kind, statements, old(Now()))
      decreases |statements| - position, 0
    {
      hide Sound;
      ExecuteNextKeeps(kind, statements, w, Now());
      if position >= |statements| {
        return false;
      }
      var idx := position;
      position := position + 1;
      execCount := execCount + 1;
      ExecuteStatement(idx, w);
      more := true;
    }

    /** The state before the iterator handed out its last statement. */
    ghost function Rewound(): State
      requires position >= 1 && execCount >= 1
      reads this
    {
      Now().(position := position - 1, execCount := execCount - 1)
    }

    /** `_execute`: a statement that raises at too great a depth is left to another thread. */
    method ExecuteStatement(idx: nat, ghost w: nat)
      requires idx < |statements| && position == idx + 1 && execCount >= 1
      requires Sound(kind, statements, w, Rewound())
      modifies this
      ensures Holds(w + 1) && window == old(window)
      ensures Now() == Steps.ExecuteNext(kind, statements, old(Rewound()))
      decreases |statements| - position, 3
    {
      hide Sound, Steps.PutResult;
      ExecuteNextKeeps(kind, statements, w, Rewound());
      StartKeeps(kind, statements, w, Rewound());
      execDepth := execDepth + 1;
      started := started + [idx];
      running := running + {idx};
      assert Now() == Start(old(Rewound()));
      if statements[idx].mode == Inline {
        PutResult(idx, w);
      } else if statements[idx].mode == Raises && execDepth < MAX_ERROR_RECURSION {
        PutResult(idx, w);
      }
      execDepth := execDepth - 1;
    }

    /** `_put_result`, when one thread runs all of it: the window stays as wide as it was, and no
        reader is left waiting for nothing. */
    method PutResult(idx: nat, ghost w: nat)
      requires Holds(w + 1) && idx in running && idx < |statements|
      modifies this
      ensures Holds(w + 1) && window == old(window)
      ensures kind == Generator ==> phase != Waiting
      ensures phase == Waiting ==> current < execCount
      ensures Now() == Steps.PutResult(kind, statements, old(Now()), idx)
      decreases |statements| - position, 2
    {
      hide Sound;
      PutResultKeeps(kind, statements, w, Now(), idx);
      if kind == Generator {
        PushKeeps(statements, w, Now(), idx);
        resultsQueue := Insert(resultsQueue, (idx, statements[idx].answer));
        running := running - {idx};
        var _ := ExecuteNext(w);
        if phase == Waiting {
          phase := Ready;
        }
      } else {
        AppendResult(idx, w + 1);
        CountResult(idx, w);
      }
    }

    /** The append of the list executor, which takes no lock. */
    method AppendResult(idx: nat, ghost w: nat)
      requires kind == Listing && Holds(w) && idx in running && idx < |statements|
      modifies this`resultsQueue, this`running, this`arrived
      ensures Holds(w) && idx in arrived
      ensures old(Valid()) ==> Valid()
      ensures Now() == Append(statements, old(Now()), idx)
    {
      hide Sound;
      AppendKeeps(statements, w, Now(), idx);
      if Valid() { ArriveKeeps(statements, window, Now(), idx); }
      resultsQueue := resultsQueue + [(idx, statements[idx].answer)];
      running, arrived := running - {idx}, arrived + {idx};
    }

    /** The locked part of the list executor's `_put_result`. */
    method CountResult(idx: nat, ghost w: nat)
      requires kind == Listing && Holds(w + 1) && idx in arrived
      modifies this
      ensures Holds(w + 1) && window == old(window)
      ensures phase == Waiting ==> current < execCount
      ensures old(Valid()) ==> Valid()
      ensures Now() == Count(statements, old(Now()), idx)
      decreases |statements| - position, 1
    {
      hide Sound;
      CountKeeps(statements, w, Now(), idx);
      TallyKeeps(statements, w, Now(), idx);
      if Valid() { CountedKeeps(statements, window, Now(), idx); }
      arrived := arrived - {idx};
      current := current + 1;
      var more := ExecuteNext(w);
      if !more && current == execCount {
        if phase == Waiting {
          phase := Ready;
        }
      }
    }

    /** `_on_success` and `_on_error`: a statement's future completes on another thread. */
    method OnCompletion(idx: nat)
      requires Valid() && kind == Generator && idx in running
      modifies this
      ensures Valid() && kind == Generator && phase != Waiting && window == old(window)
      ensures Now() == Next(kind, statements, old(Now()), Complete(idx))
      ensures Measure(kind, statements, Now()) < old(Measure(kind, statements, Now()))
    {
      hide Sound, Measure, Steps.PutResult, Patient;
      RunningWasStarted(kind, statements, window, Now(), idx);
      StepKeeps(kind, statements, window, Now(), Complete(idx));
      PutResult(idx, window - 1);
    }

    /** `_results`, from where the lock is taken to where it is given up: the reader waits only
        for something outstanding, yields the answer to the statement it is at, and finishes only
        with every answer, in input order. */
    method ReadResults()
      requires Valid() && phase == Ready
      modifies this`phase, this`delivered, this`resultsQueue
      ensures Valid() && Now() == Consume(kind, statements, old(Now()))
      ensures phase == Waiting ==> running + arrived != {} && (kind == Generator ==> current in running)
      ensures phase == Yielding ==>
                current < |statements| && delivered == old(delivered) + [statements[current].answer]
      ensures phase == Finished ==> delivered == Answers(statements)
      ensures phase != Ready
      ensures Measure(kind, statements, Now()) < old(Measure(kind, statements, Now()))
    {
      hide Sound, Measure, Patient, SortByIndex, ResultsOf, Answers;
      ReadFacts(kind, statements, window, Now());
      if kind == Generator {
        if current >= execCount {
          phase := Finished;
        } else if resultsQueue == [] || resultsQueue[0].0 != current {
          phase := Waiting;
        } else {
          var (_, res) := resultsQueue[0];
          resultsQueue := resultsQueue[1..];
          delivered := delivered + [res];
          phase := Yielding;
        }
      } else if current < execCount {
        phase := Waiting;
      } else {
        var sorted := SortByIndex(resultsQueue);
        delivered := ResultsOf(sorted);
        phase := Finished;
      }
    }

    /** The reader comes back from a yield, and moves on to the next statement. */
    method ResumeReading()
      requires Valid() && kind == Generator && phase == Yielding
      modifies this`current, this`phase
      ensures Valid() && phase == Ready && |delivered| == current == old(current) + 1
      ensures Now() == Resume(old(Now()))
      ensures Measure(kind, statements, Now()) < old(Measure(kind, statements, Now()))
    {
      hide Sound, Measure, Patient;
      BackKeeps(statements, window, Now());
      YieldedOne(statements, window, Now());
      current := current + 1;
      phase := Ready;
    }

    /** Something happens on another thread: some outstanding statement completes, or its result
        is counted. */
    method OtherThread()
      requires Valid() && running + arrived != {}
      modifies this
      ensures Valid() && window == old(window)
      ensures Measure(kind, statements, Now()) < old(Measure(kind, statements, Now()))
    {
      hide Sound, Measure, Patient, Count, Append;
      var completes := *;
      if running != {} && (completes || arrived == {}) {
        var idx :| idx in running;
        RunningWasStarted(kind, statements, window, Now(), idx);
        if kind == Generator {
          OnCompletion(idx);
        } else {
          StepKeeps(kind, statements, window, Now(), Arrive(idx));
          AppendResult(idx, window);
        }
      } else {
        var idx :| idx in arrived;
        ArrivedIsListing(kind, statements, window, Now(), idx);
        StepKeeps(kind, statements, window, Now(), Counted(idx));
        CountResult(idx, window - 1);
      }
    }
  }

  lemma LaunchStep(kind: Kind, st: seq<Statement>, n: nat, s: State)
    ensures Launch(kind, st, 0, s) == s
    ensures s.position >= |st| ==> Launch(kind, st, n, s) == s
    ensures n > 0 && s.position < |st| ==>
              Launch(kind, st, n, s) == Launch(kind, st, n - 1, Steps.ExecuteNext(kind, st, s))
  {
  }

  lemma ReadWaits(kind: Kind, st: seq<Statement>, w: nat, s: State)
    requires Sound(kind, st, w, s) && Patient(kind, st, s)
    ensures s.phase == Waiting ==> s.running + s.arrived != {} && (kind == Generator ==> s.current in s.running)
  {
    hide Truthful, Increasing, Apart, IndexSet;
    assert s.running <= s.running + s.arrived && s.arrived <= s.running + s.arrived;
  }

  /** Everything a turn of the reader does. */
  lemma ReadFacts(kind: Kind, st: seq<Statement>, w: nat, s: State)
    requires Sound(kind, st, w, s) && Patient(kind, st, s) && w >= 1 && s.phase == Ready
    ensures var s' := Consume(kind, st, s);
            && Sound(kind, st, w, s') && Patient(kind, st, s') && Measure(kind, st, s') < Measure(kind, st, s)
            && (s'.phase == Waiting ==> s.running + s.arrived != {} && (kind == Generator ==> s.current in s.running))
            && (s'.phase == Yielding ==> s.current < |st| && s'.delivered == s.delivered + [st[s.current].answer])
            && (s'.phase == Finished ==> s'.delivered == Answers(st))
            && s'.phase != Ready
  {
    hide Sound, Measure, SortByIndex, ResultsOf, Answers;
    ReadKeeps(kind, st, w, s);
    ReadWaits(kind, st, w, Consume(kind, st, s));
    if kind == Generator { YieldsAnswer(st, w, s); }
  }

  lemma YieldsAnswer(st: seq<Statement>, w: nat, s: State)
    requires Sound(Generator, st, w, s) && s.phase == Ready
    ensures var s' := Consume(Generator, st, s);
            s'.phase == Yielding ==> s.current < |st| && s'.delivered == s.delivered + [st[s.current].answer]
  {
    hide Truthful, Increasing, Apart, IndexSet;
    if s.current < s.execCount { HeadOrRunning(st, w, s); }
  }

  lemma YieldedOne(st: seq<Statement>, w: nat, s: State)
    requires Sound(Generator, st, w, s) && s.phase == Yielding
    ensures |s.delivered| == s.current + 1
  {
  }

  lemma ArrivedIsListing(kind: Kind, st: seq<Statement>, w: nat, s: State, idx: nat)
    requires Sound(kind, st, w, s) && idx in s.arrived
    ensures kind == Listing
  {
  }

  /** `execute_concurrent`: nothing is the ValueError. Whichever statement completes next, and
      whenever the reader's turn comes, the results are the answers in input order. */
  method ExecuteConcurrent(kind: Kind, statements: seq<Statement>, concurrency: int)
    returns (results: Option<seq<ExecutionResult>>)
    ensures results == if concurrency <= 0 then None else Some(Answers(statements))
  {
    if concurrency <= 0 {
      return None;
    }
    if statements == [] {
      assert Answers(statements) == [];
      return Some([]);
    }
    var executor := new Executor(kind, statements);
    executor.Execute(concurrency);
    while executor.phase != Finished
      invariant executor.Valid() && executor.kind == kind && executor.statements == statements
      invariant fresh(executor)
      decreases Measure(kind, statements, executor.Now())
    {
      hide Sound, Measure;
      MeasureIsNatural(kind, statements, executor.window, executor.Now());
      YieldingIsGenerator(kind, statements, executor.window, executor.Now());
      ReadWaits(kind, statements, executor.window, executor.Now());
      var othersFirst := *;
      if executor.running + executor.arrived != {} && (executor.phase == Waiting || othersFirst) {
        executor.OtherThread();
      } else if executor.phase == Yielding {
        executor.ResumeReading();
      } else {
        executor.ReadResults();
      }
    }
    results := Some(executor.delivered);
  }
}
