/** The bounded concurrent probe runner: run_concurrent of crates/path-io/src/native/pacing.rs.

    Jobs are numbered 0..n. The environment decides when waits end, which worker has finished and with
    what outcome, whether cancellation is visible at a check, and whether a thread can be spawned. An
    event that does not fit the runner's position in its loops changes nothing. */
module PacedRunner {
  import opened Common

  datatype Error = Cancelled | Other(code: nat)

  datatype Outcome = Output | Failed(error: Error) | Panicked

  /** AwaitingSend: in wait_until. Polling: in the inner loop that collects finished workers. */
  datatype Position = AwaitingSend | Polling | Draining

  datatype Event =
    | WaitEnds(cancelled: bool)
    | Finishes(worker: nat, outcome: Outcome)
    | Polls(cancelled: bool, spawnFails: bool)

  datatype State = State(at: Position, spawned: nat, workers: seq<nat>, completed: seq<nat>, failure: Option<Error>)

  const PANIC := Other(0)
  const SPAWN_FAILED := Other(1)

  // ---------------------------------------------------------------------------------------
  // The runner
  // ---------------------------------------------------------------------------------------

  /** record_failure: the first failure, except that a real error replaces a cancellation. */
  function RecordFailure(failure: Option<Error>, error: Error): Option<Error> {
    if failure.None? || (failure.value == Cancelled && error != Cancelled) then Some(error) else failure
  }

  function Begin(n: nat): State {
    State(if n == 0 then Draining else AwaitingSend, 0, [], [], None)
  }

  function Collected(s: State, k: nat, outcome: Outcome): State
    requires k < |s.workers|
  {
    var t := s.(workers := Remove(s.workers, k));
    match outcome
    case Output => t.(completed := t.completed + [s.workers[k]])
    case Failed(error) => t.(failure := RecordFailure(t.failure, error))
    case Panicked => t.(failure := RecordFailure(t.failure, PANIC))
  }

  function Step(n: nat, max: nat, s: State, e: Event): State {
    match e
    case WaitEnds(cancelled) =>
      if s.at != AwaitingSend then s
      else if cancelled then s.(at := Draining, failure := RecordFailure(s.failure, Cancelled))
      else s.(at := Polling)
    case Finishes(k, outcome) =>
      if s.at == AwaitingSend || k >= |s.workers| then s else Collected(s, k, outcome)
    case Polls(cancelled, spawnFails) =>
      if s.at == AwaitingSend then s
      else if s.at == Draining then
        if s.workers != [] && cancelled && s.failure.None? then s.(failure := RecordFailure(s.failure, Cancelled))
        else s
      else if cancelled then s.(at := Draining, failure := RecordFailure(s.failure, Cancelled))
      else if s.failure.Some? then s.(at := Draining)
      else if |s.workers| >= max then s
      else if spawnFails then s.(at := Draining, failure := RecordFailure(s.failure, SPAWN_FAILED))
      else s.(at := if s.spawned + 1 == n then Draining else AwaitingSend,
              workers := s.workers + [s.spawned], spawned := s.spawned + 1)
  }

  function Run(n: nat, max: nat, events: seq<Event>): State {
    if events == [] then Begin(n)
    else Step(n, max, Run(n, max, events[..|events| - 1]), events[|events| - 1])
  }

  ghost predicate Follows(n: nat, max: nat, events: seq<Event>, trace: seq<State>, i: nat)
    requires i < |events| && |trace| == |events| + 1
  {
    trace[i + 1] == Step(n, max, trace[i], events[i])
  }

  /** The states before, between and after the events. */
  ghost predicate IsTrace(n: nat, max: nat, events: seq<Event>, trace: seq<State>) {
    && |trace| == |events| + 1
    && trace[0] == Begin(n)
    && forall i: nat {:trigger Follows(n, max, events, trace, i)} :: i < |events| ==> Follows(n, max, events, trace, i)
  }

  lemma {:induction false} TraceOf(n: nat, max: nat, events: seq<Event>) returns (trace: seq<State>)
    ensures IsTrace(n, max, events, trace) && trace[|events|] == Run(n, max, events)
  {
    if events == [] {
      trace := [Begin(n)];
    } else {
      var init := events[..|events| - 1];
      var before := TraceOf(n, max, init);
      trace := before + [Run(n, max, events)];
      forall i: nat | i < |events| ensures Follows(n, max, events, trace, i) {
        assert i < |init| ==> Follows(n, max, init, before, i);
      }
    }
  }

  /** Once the last worker is joined, no event has any effect. */
  lemma {:induction false} FinalState(n: nat, max: nat, events: seq<Event>, trace: seq<State>, i: nat)
    requires IsTrace(n, max, events, trace) && i <= |events| && trace[i].at == Draining && trace[i].workers == []
    ensures trace[|events|] == trace[i]
    decreases |events| - i
  {
    if i < |events| {
      assert Follows(n, max, events, trace, i);
      FinalState(n, max, events, trace, i + 1);
    }
  }

  /** How a loop over events ends: for lack of events, by leaving the job loop, or by going on to the
      next part of its body. */
  datatype Exit = NoMoreEvents | BreakJobs | Proceed

  class Runner {
    const jobs: nat
    const maxOutstanding: nat
    var spawned: nat
    var workers: seq<nat>
    var completed: seq<nat>
    var failure: Option<Error>

    function View(at: Position): State
      reads this
    {
      State(at, spawned, workers, completed, failure)
    }

    constructor (jobs: nat, maxOutstanding: nat)
      ensures this.jobs == jobs && this.maxOutstanding == maxOutstanding
      ensures View(if jobs == 0 then Draining else AwaitingSend) == Begin(jobs)
    {
      this.jobs := jobs;
      this.maxOutstanding := maxOutstanding;
      spawned, workers, completed, failure := 0, [], [], None;
    }

    method Fail(error: Error)
      modifies `failure
      ensures failure == RecordFailure(old(failure), error)
    {
      if failure.None? {
        failure := Some(error);
      } else if failure.value == Cancelled && error != Cancelled {
        failure := Some(error);
      }
    }

    method Collect(k: nat, outcome: Outcome)
      requires k < |workers|
      modifies `workers, `completed, `failure
      ensures forall at :: View(at) == Collected(old(View(at)), k, outcome)
    {
      var job := workers[k];
      workers := Remove(workers, k);
      match outcome
      case Output => completed := completed + [job];
      case Failed(error) => Fail(error);
      case Panicked => Fail(PANIC);
    }

    /** wait_until before a job. */
    method Await(events: seq<Event>, ghost trace: seq<State>, first: nat) returns (i: nat, exit: Exit)
      requires IsTrace(jobs, maxOutstanding, events, trace) && first <= |events|
      requires View(AwaitingSend) == trace[first]
      modifies `failure
      ensures first <= i <= |events| && (exit.NoMoreEvents? ==> i == |events|)
      ensures View(match exit case NoMoreEvents => AwaitingSend case BreakJobs => Draining case Proceed => Polling)
              == trace[i]
    {
      i := first;
      while i < |events|
        invariant first <= i <= |events| && View(AwaitingSend) == trace[i]
      {
        assert Follows(jobs, maxOutstanding, events, trace, i);
        var e := events[i];
        i := i + 1;
        if e.WaitEnds? {
          if e.cancelled {
            Fail(Cancelled);
            return i, BreakJobs;
          }
          return i, Proceed;
        }
      }
      exit := NoMoreEvents;
    }

    /** The polling loop: collects finished workers until the run is over or there is room for one more.
        In that last case event i, the check that found room, still has to spawn the worker. */
    method Poll(events: seq<Event>, ghost trace: seq<State>, first: nat) returns (i: nat, exit: Exit)
      requires IsTrace(jobs, maxOutstanding, events, trace) && first <= |events|
      requires View(Polling) == trace[first]
      modifies `workers, `completed, `failure
      ensures first <= i <= |events| && (exit.NoMoreEvents? ==> i == |events|)
      ensures View(if exit.BreakJobs? then Draining else Polling) == trace[i]
      ensures exit.Proceed? ==>
                i < |events| && events[i].Polls? && !events[i].cancelled && failure.None? && |workers| < maxOutstanding
    {
      i := first;
      while i < |events|
        invariant first <= i <= |events| && View(Polling) == trace[i]
      {
        assert Follows(jobs, maxOutstanding, events, trace, i);
        match events[i] {
          case WaitEnds(_) =>
          case Finishes(k, outcome) =>
            if k < |workers| {
              Collect(k, outcome);
            }
          case Polls(cancelled, _) =>
            if cancelled {
              Fail(Cancelled);
              return i + 1, BreakJobs;
            }
            if failure.Some? {
              return i + 1, BreakJobs;
            }
            if |workers| < maxOutstanding {
              return i, Proceed;
            }
        }
        i := i + 1;
      }
      exit := NoMoreEvents;
    }

    /** Spawning the worker of the current job. */
    method Spawn(fails: bool) returns (ok: bool)
      requires failure.None? && |workers| < maxOutstanding && spawned < jobs
      modifies `spawned, `workers, `failure
      ensures ok == !fails && spawned == old(spawned) + if ok then 1 else 0
      ensures View(if ok && spawned < jobs then AwaitingSend else Draining)
              == Step(jobs, maxOutstanding, old(View(Polling)), Polls(false, fails))
    {
      if fails {
        Fail(SPAWN_FAILED);
        return false;
      }
      workers := workers + [spawned];
      spawned := spawned + 1;
      ok := true;
    }

    /** The body of the job loop. */
    method NextJob(events: seq<Event>, ghost trace: seq<State>, first: nat) returns (i: nat, at: Position, exit: Exit)
      requires IsTrace(jobs, maxOutstanding, events, trace) && spawned < jobs && first <= |events|
      requires View(AwaitingSend) == trace[first]
      modifies this
      ensures first <= i <= |events| && View(at) == trace[i]
      ensures exit.NoMoreEvents? ==> i == |events|
      ensures exit.BreakJobs? ==> at == Draining
      ensures exit.Proceed? ==> spawned == old(spawned) + 1 && at == if spawned < jobs then AwaitingSend else Draining
    {
      i, exit := Await(events, trace, first);
      if !exit.Proceed? {
        at := if exit.BreakJobs? then Draining else AwaitingSend;
        return;
      }
      i, exit := Poll(events, trace, i);
      if !exit.Proceed? {
        at := if exit.BreakJobs? then Draining else Polling;
        return;
      }
      assert Follows(jobs, maxOutstanding, events, trace, i);
      var ok := Spawn(events[i].spawnFails);
      i := i + 1;
      at := if ok && spawned < jobs then AwaitingSend else Draining;
      exit := if ok then Proceed else BreakJobs;
    }

    /** for (owner, input) in jobs */
    method JobLoop(events: seq<Event>, ghost trace: seq<State>) returns (i: nat, at: Position)
      requires IsTrace(jobs, maxOutstanding, events, trace)
      requires spawned == 0 && View(if jobs == 0 then Draining else AwaitingSend) == Begin(jobs)
      modifies this
      ensures i <= |events| && View(at) == trace[i]
      ensures at != Draining ==> i == |events|
    {
      i := 0;
      at := if jobs == 0 then Draining else AwaitingSend;
      while spawned < jobs
        invariant i <= |events| && spawned <= jobs && at == if spawned < jobs then AwaitingSend else Draining
        invariant View(at) == trace[i]
        decreases jobs - spawned
      {
        var exit;
        i, at, exit := NextJob(events, trace, i);
        if !exit.Proceed? {
          return;
        }
      }
    }

    /** while !workers.is_empty() */
    method FinalLoop(events: seq<Event>, ghost trace: seq<State>, first: nat)
      requires IsTrace(jobs, maxOutstanding, events, trace) && first <= |events|
      requires View(Draining) == trace[first]
      modifies this
      ensures View(Draining) == trace[|events|]
    {
      var i := first;
      while i < |events| && workers != []
        invariant i <= |events| && View(Draining) == trace[i]
      {
        assert Follows(jobs, maxOutstanding, events, trace, i);
        match events[i] {
          case WaitEnds(_) =>
          case Finishes(k, outcome) =>
            if k < |workers| {
              Collect(k, outcome);
            }
          case Polls(cancelled, _) =>
            if cancelled && failure.None? {
              Fail(Cancelled);
            }
        }
        i := i + 1;
      }
      if i < |events| {
        FinalState(jobs, maxOutstanding, events, trace, i);
      }
    }
  }

  /** The job loop and then the loop that waits for the workers still running. */
  method RunConcurrent(n: nat, max: nat, events: seq<Event>) returns (s: State)
    ensures s == Run(n, max, events)
  {
    ghost var trace := TraceOf(n, max, events);
    var runner := new Runner(n, max);
    var i, at := runner.JobLoop(events, trace);
    if at == Draining {
      runner.FinalLoop(events, trace, i);
    }
    s := runner.View(at);
  }

  // ---------------------------------------------------------------------------------------
  // What an observer sees
  // ---------------------------------------------------------------------------------------

  datatype Join = Join(job: nat, outcome: Outcome)

  /** The joins of a run, in order. */
  function Joins(n: nat, max: nat, events: seq<Event>): seq<Join> {
    if events == [] then []
    else
      var init, e := events[..|events| - 1], events[|events| - 1];
      var s := Run(n, max, init);
      Joins(n, max, init)
      + JoinedBy(s, e)
  }

  /** The errors a run reports to record_failure, in order. */
  function Reported(n: nat, max: nat, events: seq<Event>): seq<Error> {
    if events == [] then []
    else
      var init, e := events[..|events| - 1], events[|events| - 1];
      Reported(n, max, init) + ReportedBy(n, max, Run(n, max, init), e)
  }

  function ReportedBy(n: nat, max: nat, s: State, e: Event): seq<Error> {
    match e
    case WaitEnds(cancelled) => if s.at == AwaitingSend && cancelled then [Cancelled] else []
    case Finishes(k, outcome) =>
      if s.at == AwaitingSend || k >= |s.workers| || outcome.Output? then []
      else [if outcome.Failed? then outcome.error else PANIC]
    case Polls(cancelled, spawnFails) =>
      if s.at == Draining then (if s.workers != [] && cancelled && s.failure.None? then [Cancelled] else [])
      else if s.at == Polling && cancelled then [Cancelled]
      else if s.at == Polling && s.failure.None? && |s.workers| < max && spawnFails then [SPAWN_FAILED]
      else []
  }

  function Jobs(joins: seq<Join>): seq<nat> {
    if joins == [] then [] else Jobs(joins[..|joins| - 1]) + [joins[|joins| - 1].job]
  }

  function Succeeded(joins: seq<Join>): seq<nat> {
    if joins == [] then []
    else Succeeded(joins[..|joins| - 1]) + if joins[|joins| - 1].outcome.Output? then [joins[|joins| - 1].job] else []
  }

  /** The first reported error that is not a cancellation; failing that, the cancellation. */
  function Verdict(errors: seq<Error>): Option<Error> {
    if errors == [] then None
    else if errors[0] != Cancelled then Some(errors[0])
    else
      var later := Verdict(errors[1..]);
      if later.Some? then later else Some(Cancelled)
  }

  lemma {:induction false} VerdictAppend(errors: seq<Error>, e: Error)
    ensures Verdict(errors + [e]) == RecordFailure(Verdict(errors), e)
  {
    if errors != [] {
      VerdictAppend(errors[1..], e);
      assert (errors + [e])[1..] == errors[1..] + [e];
    }
  }

  // ---------------------------------------------------------------------------------------
  // Every interleaving
  // ---------------------------------------------------------------------------------------

  function FirstJobs(n: nat): (jobs: seq<nat>)
    ensures |jobs| == n
  {
    if n == 0 then [] else FirstJobs(n - 1) + [n - 1]
  }

  lemma MoveOne(workers: seq<nat>, k: nat, joined: seq<nat>)
    requires k < |workers|
    ensures multiset(Remove(workers, k)) + multiset(joined + [workers[k]]) == multiset(workers) + multiset(joined)
  {
    assert workers == workers[..k] + [workers[k]] + workers[k + 1..];
    assert multiset(workers) == multiset(Remove(workers, k)) + multiset{workers[k]};
    assert multiset(joined + [workers[k]]) == multiset(joined) + multiset{workers[k]};
  }

  lemma AppendJoin(joins: seq<Join>, j: Join)
    ensures Jobs(joins + [j]) == Jobs(joins) + [j.job]
    ensures Succeeded(joins + [j]) == Succeeded(joins) + if j.outcome.Output? then [j.job] else []
  {
    assert (joins + [j])[..|joins|] == joins;
  }

  /** Jobs spawned so far are the first ones, each either outstanding or joined, exactly once. */
  ghost predicate Accounted(s: State, joins: seq<Join>) {
    && multiset(s.workers) + multiset(Jobs(joins)) == multiset(FirstJobs(s.spawned))
    && s.completed == Succeeded(joins)
  }

  ghost predicate Controlled(n: nat, max: nat, s: State, joins: seq<Join>, errors: seq<Error>) {
    && |s.workers| <= max
    && s.failure == Verdict(errors)
    && s.spawned <= n
    && (s.at != Draining ==> s.spawned < n)
    && (s.at == Draining && s.failure.None? ==> s.spawned == n)
    && (s.failure.None? ==> forall i :: 0 <= i < |joins| ==> joins[i].outcome.Output?)
  }

  lemma JoinAccounted(s: State, joins: seq<Join>, k: nat, outcome: Outcome)
    requires Accounted(s, joins) && k < |s.workers|
    ensures Accounted(Collected(s, k, outcome), joins + [Join(s.workers[k], outcome)])
  {
    MoveOne(s.workers, k, Jobs(joins));
    AppendJoin(joins, Join(s.workers[k], outcome));
    assert Succeeded(joins) + [] == Succeeded(joins);
  }

  lemma SpawnAccounted(s: State, joins: seq<Join>)
    requires Accounted(s, joins)
    ensures Accounted(s.(workers := s.workers + [s.spawned], spawned := s.spawned + 1), joins)
  {
    assert FirstJobs(s.spawned + 1) == FirstJobs(s.spawned) + [s.spawned];
  }

  /** What the event adds to the joins. */
  function JoinedBy(s: State, e: Event): seq<Join> {
    if e.Finishes? && s.at != AwaitingSend && e.worker < |s.workers| then [Join(s.workers[e.worker], e.outcome)] else []
  }

  /** Apart from joins, a step leaves workers, results and the spawn count alone or spawns one worker. */
  lemma StepShape(n: nat, max: nat, s: State, e: Event)
    requires JoinedBy(s, e) == []
    ensures var t := Step(n, max, s, e);
            t.completed == s.completed
            && ((t.workers == s.workers && t.spawned == s.spawned)
                || (t.workers == s.workers + [s.spawned] && t.spawned == s.spawned + 1))
  {
  }

  lemma StepAccounted(n: nat, max: nat, s: State, e: Event, joins: seq<Join>)
    requires Accounted(s, joins)
    ensures Accounted(Step(n, max, s, e), joins + JoinedBy(s, e))
  {
    if JoinedBy(s, e) != [] {
      JoinAccounted(s, joins, e.worker, e.outcome);
      assert Step(n, max, s, e) == Collected(s, e.worker, e.outcome);
    } else {
      StepShape(n, max, s, e);
      assert joins + JoinedBy(s, e) == joins;
      SpawnAccounted(s, joins);
    }
  }

  lemma StepControlled(n: nat, max: nat, s: State, e: Event, joins: seq<Join>, errors: seq<Error>)
    requires Controlled(n, max, s, joins, errors)
    ensures Controlled(n, max, Step(n, max, s, e), joins + JoinedBy(s, e), errors + ReportedBy(n, max, s, e))
  {
    var reported := ReportedBy(n, max, s, e);
    if reported == [] {
      assert errors + reported == errors;
    } else {
      VerdictAppend(errors, reported[0]);
      assert reported == [reported[0]];
    }
  }

  lemma {:induction false} ReachableAccounted(n: nat, max: nat, events: seq<Event>)
    ensures Accounted(Run(n, max, events), Joins(n, max, events))
  {
    if events != [] {
      var init := events[..|events| - 1];
      ReachableAccounted(n, max, init);
      StepAccounted(n, max, Run(n, max, init), events[|events| - 1], Joins(n, max, init));
    }
  }

  lemma {:induction false} ReachableControlled(n: nat, max: nat, events: seq<Event>)
    ensures Controlled(n, max, Run(n, max, events), Joins(n, max, events), Reported(n, max, events))
  {
    if events != [] {
      var init := events[..|events| - 1];
      ReachableControlled(n, max, init);
      StepControlled(n, max, Run(n, max, init), events[|events| - 1], Joins(n, max, init), Reported(n, max, init));
    }
  }

  /** In every interleaving the outstanding workers stay within the bound, the jobs spawned are a
      prefix of the jobs, each of them is outstanding or was joined exactly once, the results are the
      successful joins, and the failure is the first real error reported, or else a cancellation. */
  lemma RunnerBookkeeping(n: nat, max: nat, events: seq<Event>)
    ensures var s, joins := Run(n, max, events), Joins(n, max, events);
            && |s.workers| <= max && s.spawned <= n
            && multiset(s.workers) + multiset(Jobs(joins)) == multiset(FirstJobs(s.spawned))
            && s.completed == Succeeded(joins)
            && s.failure == Verdict(Reported(n, max, events))
  {
    ReachableAccounted(n, max, events);
    ReachableControlled(n, max, events);
  }

  /** A run that ends without a failure ran every job, and every job succeeded. */
  lemma NoFailureMeansAllSucceeded(n: nat, max: nat, events: seq<Event>)
    requires var s := Run(n, max, events); s.at == Draining && s.workers == [] && s.failure.None?
    ensures multiset(Run(n, max, events).completed) == multiset(FirstJobs(n))
  {
    ReachableAccounted(n, max, events);
    ReachableControlled(n, max, events);
    AllOutputs(Joins(n, max, events));
  }

  lemma {:induction false} AllOutputs(joins: seq<Join>)
    requires forall i :: 0 <= i < |joins| ==> joins[i].outcome.Output?
    ensures Succeeded(joins) == Jobs(joins)
  {
    if joins != [] {
      AllOutputs(joins[..|joins| - 1]);
    }
  }

  /** Once a failure is recorded, nothing more is spawned. */
  lemma {:induction false} NothingSpawnedAfterFailure(n: nat, max: nat, events: seq<Event>, k: nat)
    requires k <= |events| && Run(n, max, events[..k]).failure.Some?
    ensures Run(n, max, events).failure.Some?
    ensures Run(n, max, events).spawned == Run(n, max, events[..k]).spawned
    decreases |events|
  {
    if k == |events| {
      assert events[..k] == events;
    } else {
      var init := events[..|events| - 1];
      assert init[..k] == events[..k];
      NothingSpawnedAfterFailure(n, max, init, k);
    }
  }

  /** What an event adds to the spawned jobs: the next one, exactly when a check of the polling loop finds
      neither cancellation nor failure, and fewer workers than allowed. */
  lemma SpawnsExactlyWithRoom(n: nat, max: nat, events: seq<Event>, e: Event)
    ensures var s, t := Run(n, max, events), Run(n, max, events + [e]);
            var spawns := && s.at == Polling && e == Polls(false, false)
                          && s.failure.None? && |s.workers| < max;
            && t.spawned == s.spawned + (if spawns then 1 else 0)
            && (spawns ==> t.workers == s.workers + [s.spawned])
  {
    assert (events + [e])[..|events|] == events;
  }

  /** The runner when k jobs were started one by one, each finished before the next. */
  function OneByOne(n: nat, k: nat): State
    requires 0 < k <= n
  {
    State(if k == n then Draining else AwaitingSend, k, [k - 1], FirstJobs(k - 1), None)
  }

  lemma OneMoreEvent(n: nat, max: nat, events: seq<Event>, e: Event)
    ensures Run(n, max, events + [e]) == Step(n, max, Run(n, max, events), e)
  {
    assert (events + [e])[..|events|] == events;
  }

  lemma {:induction false} StartOneByOne(n: nat, max: nat, k: nat) returns (events: seq<Event>)
    requires 0 < k <= n && max > 0
    ensures Run(n, max, events) == OneByOne(n, k)
  {
    if k == 1 {
      events := [WaitEnds(false)];
      assert events == [] + [WaitEnds(false)];
      OneMoreEvent(n, max, [], WaitEnds(false));
      assert Run(n, max, []) == Begin(n);
    } else {
      var before := StartOneByOne(n, max, k - 1);
      OneMoreEvent(n, max, before, WaitEnds(false));
      events := before + [WaitEnds(false)];
      OneMoreEvent(n, max, events, Finishes(0, Output));
      events := events + [Finishes(0, Output)];
      assert Remove([k - 2], 0) == [];
      assert FirstJobs(k - 1) == FirstJobs(k - 2) + [k - 2];
    }
    OneMoreEvent(n, max, events, Polls(false, false));
    events := events + [Polls(false, false)];
    assert [] + [k - 1] == [k - 1];
  }

  /** Whatever the bound, there is a run that does every job, in order and without a failure. */
  lemma CanComplete(n: nat, max: nat) returns (events: seq<Event>)
    requires max > 0
    ensures Run(n, max, events) == State(Draining, n, [], FirstJobs(n), None)
  {
    if n == 0 {
      events := [];
    } else {
      events := StartOneByOne(n, max, n);
      OneMoreEvent(n, max, events, Finishes(0, Output));
      events := events + [Finishes(0, Output)];
      assert Remove([n - 1], 0) == [];
    }
  }

  // ---------------------------------------------------------------------------------------
  // The descriptor budget
  // ---------------------------------------------------------------------------------------

  const RESERVED_DESCRIPTORS := 64
  const DESCRIPTORS_PER_PROBE := 3

  /** The largest bound not above the request whose descriptors fit the limit, but at least one. */
  function ClampOutstanding(requested: nat, limit: Option<nat>): (r: nat)
    requires requested > 0
    ensures 1 <= r <= requested
    ensures limit.None? ==> r == requested
    ensures limit.Some? ==> r == 1 || r * 3 + 64 <= limit.value
    ensures limit.Some? && r < requested ==> (r + 1) * 3 + 64 > limit.value
  {
    if limit.None? then requested
    else
      var budget := Max(limit.value - RESERVED_DESCRIPTORS, 0) / DESCRIPTORS_PER_PROBE;
      Min(requested, Max(budget, 1))
  }
}
