/** Counting the measurements of a run: Execution::run and Execution::record of
    crates/runtime/src/execution.rs, over the plans of crates/throughput/src/plan.rs and the item lists
    of crates/path-trace/src/lib.rs and crates/path-basic/src/lib.rs.

    The environment is a sequence of turns; each measurement that is started, and each preflight check,
    takes one turn, and a turn may also find the run cancelled. */
module Execution {
  import opened Common
  import opened ThroughputPlan
  import PathPlans

  /** What happens when a measurement is attempted: the loss of a result, or an error. */
  datatype Outcome = Measured(loss: Option<real>, breaches: bool, failed: bool) | MeasurementError(cancelled: bool)

  /** `cancel`: the run is cancelled by now. `writeFails`: the record cannot be written. */
  datatype Turn = Turn(cancel: bool, outcome: Outcome, writeFails: bool)

  type Environment = nat -> Turn

  datatype Counters = Counters(turn: nat, cancelled: bool, completed: nat, failed: nat, skipped: nat, breaches: nat)

  /** Why a run, or a part of one, is over: to its end, because the loop saw the cancellation, or by an error. */
  datatype End = Finished | Interrupted | Stopped

  const NEW_RUN := Counters(0, false, 0, 0, 0, 0)

  /** A request: a throughput suite, a path plan with so many items, one tuning plan, or a workflow. */
  datatype Work =
    | Suite(tests: seq<TestSpec>, threshold: real)
    | Items(count: nat)
    | Tuning
    | Workflow(steps: seq<Work>)

  function Planned(w: Work): nat {
    match w
    case Suite(tests, _) => |tests|
    case Items(count) => count
    case Tuning => 1
    case Workflow(steps) => PlannedSteps(steps)
  }

  function PlannedSteps(steps: seq<Work>): nat {
    if steps == [] then 0 else PlannedSteps(steps[..|steps| - 1]) + Planned(steps[|steps| - 1])
  }

  // ---------------------------------------------------------------------------------------
  // One measurement
  // ---------------------------------------------------------------------------------------

  /** Whether the cancellation token is seen to be cancelled now; a token stays cancelled. */
  function Look(s: Counters, env: Environment): Counters {
    s.(cancelled := s.cancelled || env(s.turn).cancel)
  }

  /** record: the counters move before the file is written. */
  function Recorded(s: Counters, failed: bool): Counters {
    s.(completed := s.completed + 1, failed := s.failed + if failed then 1 else 0)
  }

  datatype Entry = Ran(test: TestSpec, loss: Option<real>) | Skipped(test: TestSpec)

  /** The suite loop before a test: counters, whether and how it ended, the saturated pairs and, for an
      observer, what happened to each test. */
  datatype Progress = Progress(
    s: Counters, end: Option<End>, saturated: set<(DscpClass, Direction)>, trace: seq<Entry>)

  predicate Reaches(loss: Option<real>, threshold: real) {
    loss.Some? && loss.value >= threshold
  }

  function SuiteStep(p: Progress, test: TestSpec, threshold: real, env: Environment): Progress {
    var s, pair := Look(p.s, env), (test.dscp, test.direction);
    if p.end.Some? then p
    else if s.cancelled then p.(s := s, end := Some(Interrupted))
    else if test.phase == UdpSaturation && pair in p.saturated then
      p.(s := s.(skipped := s.skipped + 1), trace := p.trace + [Skipped(test)])
    else
      var turn, t := env(s.turn), s.(turn := s.turn + 1);
      match turn.outcome
      case MeasurementError(cancelled) =>
        if cancelled then p.(s := t, end := Some(Stopped), trace := p.trace + [Ran(test, None)])
        else p.(s := Recorded(t, true), end := if turn.writeFails then Some(Stopped) else None,
                trace := p.trace + [Ran(test, None)])
      case Measured(loss, breaches, _) =>
        p.(s := Recorded(t, false).(breaches := t.breaches + if breaches then 1 else 0),
           end := if turn.writeFails then Some(Stopped) else None,
           saturated :=
             if test.phase == UdpSaturation && Reaches(loss, threshold) then p.saturated + {pair} else p.saturated,
           trace := p.trace + [Ran(test, loss)])
  }

  /** The loop after the first n tests. */
  function SuiteAfter(tests: seq<TestSpec>, n: nat, threshold: real, s: Counters, env: Environment): Progress
    requires n <= |tests|
  {
    if n == 0 then Progress(s, None, {}, [])
    else SuiteStep(SuiteAfter(tests, n - 1, threshold, s, env), tests[n - 1], threshold, env)
  }

  /** The path loops after n items. */
  function ItemsAfter(n: nat, s: Counters, env: Environment): (Counters, Option<End>) {
    if n == 0 then (s, None)
    else
      var (before, end) := ItemsAfter(n - 1, s, env);
      var t := Look(before, env);
      if end.Some? then (before, end)
      else if t.cancelled then (t, Some(Interrupted))
      else
        var turn := env(t.turn);
        (Recorded(t.(turn := t.turn + 1), !turn.outcome.Measured? || turn.outcome.failed),
         if turn.writeFails then Some(Stopped) else None)
  }

  function EndOf(end: Option<End>): End {
    if end.Some? then end.value else Finished
  }

  /** Execution::run, recursively over workflow steps. */
  function RunWork(w: Work, s0: Counters, env: Environment): (Counters, End)
    decreases w, 0
  {
    var s := Look(s0, env);
    if s.cancelled then (s, Stopped)
    else
      match w
      case Suite(tests, threshold) =>
        var preflight, t := env(s.turn), s.(turn := s.turn + 1);
        if preflight.outcome.MeasurementError? || preflight.writeFails then (t, Stopped)
        else var p := SuiteAfter(tests, |tests|, threshold, t, env); (p.s, EndOf(p.end))
      case Items(count) =>
        var (t, end) := ItemsAfter(count, s, env); (t, EndOf(end))
      case Tuning =>
        var turn, t := env(s.turn), s.(turn := s.turn + 1);
        if turn.outcome.MeasurementError? then (t, Stopped)
        else (Recorded(t, turn.outcome.failed), if turn.writeFails then Stopped else Finished)
      case Workflow(steps) => RunSteps(steps, s, env)
  }

  /** The steps run in order; an error ends the workflow, an interrupted step does not by itself. */
  function RunSteps(steps: seq<Work>, s: Counters, env: Environment): (Counters, End)
    decreases steps, 1
  {
    if steps == [] then (s, Finished)
    else
      var (t, end) := RunSteps(steps[..|steps| - 1], s, env);
      if end == Stopped then (t, Stopped) else RunWork(steps[|steps| - 1], t, env)
  }

  // ---------------------------------------------------------------------------------------
  // Conservation
  // ---------------------------------------------------------------------------------------

  function Accounted(s: Counters): nat {
    s.completed + s.skipped
  }

  /** After n of the suite's tests: every one accounted for while the loop goes on. */
  lemma {:induction false} SuiteConserves(tests: seq<TestSpec>, n: nat, threshold: real, s: Counters, env: Environment)
    requires n <= |tests|
    ensures var p := SuiteAfter(tests, n, threshold, s, env);
            && (p.end.None? ==> Accounted(p.s) == Accounted(s) + n)
            && Accounted(s) <= Accounted(p.s) <= Accounted(s) + n
            && (p.end == Some(Interrupted) ==> p.s.cancelled)
            && (p.end != Some(Finished))
            && (s.cancelled ==> p.s.cancelled)
            && p.s.failed - s.failed <= p.s.completed - s.completed && s.failed <= p.s.failed
  {
    if n > 0 {
      SuiteConserves(tests, n - 1, threshold, s, env);
    }
  }

  lemma {:induction false} ItemsConserve(n: nat, s: Counters, env: Environment)
    ensures var (t, end) := ItemsAfter(n, s, env);
            && (end.None? ==> Accounted(t) == Accounted(s) + n)
            && Accounted(s) <= Accounted(t) <= Accounted(s) + n
            && (end == Some(Interrupted) ==> t.cancelled)
            && end != Some(Finished)
            && (s.cancelled ==> t.cancelled)
            && t.failed - s.failed <= t.completed - s.completed && s.failed <= t.failed
            && t.skipped == s.skipped
  {
    if n > 0 {
      ItemsConserve(n - 1, s, env);
    }
  }

  /** What a part of a run with `planned` measurements does to the counters. */
  ghost predicate Conserves(s: Counters, t: Counters, end: End, planned: nat) {
    && Accounted(s) <= Accounted(t) <= Accounted(s) + planned
    && (end == Finished ==> Accounted(t) == Accounted(s) + planned)
    && (end == Interrupted ==> t.cancelled)
    && (s.cancelled ==> t.cancelled)
    && t.failed - s.failed <= t.completed - s.completed && s.failed <= t.failed
  }

  lemma {:induction false} WorkConserves(w: Work, s: Counters, env: Environment)
    ensures var (t, end) := RunWork(w, s, env); Conserves(s, t, end, Planned(w))
    decreases w, 0
  {
    var looked := Look(s, env);
    match w
    case Suite(tests, threshold) => SuiteConserves(tests, |tests|, threshold, looked.(turn := looked.turn + 1), env);
    case Items(count) => ItemsConserve(count, looked, env);
    case Tuning =>
    case Workflow(steps) =>
      if !looked.cancelled {
        StepsConserve(steps, looked, env);
      }
  }

  lemma {:induction false} StepsConserve(steps: seq<Work>, s: Counters, env: Environment)
    requires !s.cancelled
    ensures var (t, end) := RunSteps(steps, s, env); Conserves(s, t, end, PlannedSteps(steps))
    decreases steps, 1
  {
    if steps != [] {
      var init, last := steps[..|steps| - 1], steps[|steps| - 1];
      StepsConserve(init, s, env);
      var (t, end) := RunSteps(init, s, env);
      if end != Stopped {
        WorkConserves(last, t, env);
      }
    }
  }

  /** A run that is neither cancelled nor stopped by an error accounts for every planned measurement, and
      no run ever accounts for more, or fails more than it completes. */
  lemma RunConserves(w: Work, env: Environment)
    ensures var (t, end) := RunWork(w, NEW_RUN, env);
            && (end != Stopped && !t.cancelled ==> t.completed + t.skipped == Planned(w))
            && t.completed + t.skipped <= Planned(w)
            && t.failed <= t.completed
  {
    WorkConserves(w, NEW_RUN, env);
    ConservesFromNothing(RunWork(w, NEW_RUN, env).0, RunWork(w, NEW_RUN, env).1, Planned(w));
  }

  lemma ConservesFromNothing(t: Counters, end: End, planned: nat)
    requires Conserves(NEW_RUN, t, end, planned)
    ensures end != Stopped && !t.cancelled ==> t.completed + t.skipped == planned
    ensures t.completed + t.skipped <= planned && t.failed <= t.completed
  {
  }

  /** For a throughput suite the planned number is the plan's total. */
  lemma SuiteRunReachesPlannedTotal(c: Config, bidirectional: bool, env: Environment)
    requires MakePlan(c, bidirectional).Ok?
    ensures var p := MakePlan(c, bidirectional).value;
            var (t, end) := RunWork(Suite(AllTests(p), c.lossThreshold), NEW_RUN, env);
            end != Stopped && !t.cancelled ==> t.completed + t.skipped == p.totalTests
  {
    PlannedTestsAreValid(c, bidirectional);
    RunConserves(Suite(AllTests(MakePlan(c, bidirectional).value), c.lossThreshold), env);
  }

  /** For a path plan it is the plan's total, which build_plan makes the number of its items, and no item
      is ever skipped. */
  lemma PathRunReachesPlannedTotal(p: PathPlans.Plan, env: Environment)
    requires PathPlans.Counted(p)
    ensures var (t, end) := RunWork(Items(|PathPlans.Items(p)|), NEW_RUN, env);
            && (end != Stopped && !t.cancelled ==> t.completed == p.total)
            && t.completed <= p.total && t.skipped == 0
  {
    RunConserves(Items(|PathPlans.Items(p)|), env);
    ItemsConserve(|PathPlans.Items(p)|, Look(NEW_RUN, env), env);
  }

  // ---------------------------------------------------------------------------------------
  // What is counted
  // ---------------------------------------------------------------------------------------

  /** The turns from `first` to before `last` that have the property. */
  function TurnsWith(env: Environment, first: nat, last: nat, property: Turn -> bool): nat {
    if last <= first then 0
    else TurnsWith(env, first, last - 1, property) + if property(env(last - 1)) then 1 else 0
  }

  predicate TestFails(t: Turn) {
    t.outcome.MeasurementError? && !t.outcome.cancelled
  }

  predicate TestIsRecorded(t: Turn) {
    t.outcome.Measured? || !t.outcome.cancelled
  }

  predicate TestBreaches(t: Turn) {
    t.outcome.Measured? && t.outcome.breaches
  }

  /** Between s and t, each turn is a test attempted: it is completed unless it ends in a cancellation, failed
      if it ends in another error, and in breach if its result is. */
  ghost predicate CountsItsTurns(s: Counters, t: Counters, env: Environment) {
    && s.turn <= t.turn
    && t.completed == s.completed + TurnsWith(env, s.turn, t.turn, TestIsRecorded)
    && t.failed == s.failed + TurnsWith(env, s.turn, t.turn, TestFails)
    && t.breaches == s.breaches + TurnsWith(env, s.turn, t.turn, TestBreaches)
  }

  /** A step takes no turn and counts nothing, or takes one and counts it. */
  lemma StepCounts(p: Progress, test: TestSpec, threshold: real, env: Environment)
    ensures var (s, t, turn) := (p.s, SuiteStep(p, test, threshold, env).s, env(p.s.turn));
            || (t.turn == s.turn && t.completed == s.completed && t.failed == s.failed && t.breaches == s.breaches)
            || (&& t.turn == s.turn + 1
                && t.completed == s.completed + (if TestIsRecorded(turn) then 1 else 0)
                && t.failed == s.failed + (if TestFails(turn) then 1 else 0)
                && t.breaches == s.breaches + (if TestBreaches(turn) then 1 else 0))
  {
  }

  lemma {:induction false} SuiteCounts(tests: seq<TestSpec>, n: nat, threshold: real, s: Counters, env: Environment)
    requires n <= |tests|
    ensures CountsItsTurns(s, SuiteAfter(tests, n, threshold, s, env).s, env)
  {
    if n > 0 {
      SuiteCounts(tests, n - 1, threshold, s, env);
      StepCounts(SuiteAfter(tests, n - 1, threshold, s, env), tests[n - 1], threshold, env);
    }
  }

  function Attempts(trace: seq<Entry>): nat {
    if trace == [] then 0 else Attempts(trace[..|trace| - 1]) + if trace[|trace| - 1].Ran? then 1 else 0
  }

  function MeasuredLoss(t: Turn): Option<real> {
    if t.outcome.Measured? then t.outcome.loss else None
  }

  /** Entry i, if its test ran, has the loss that its turn measured. */
  predicate LossOfTurn(trace: seq<Entry>, i: nat, first: nat, env: Environment)
    requires i < |trace|
  {
    trace[i].Ran? ==> trace[i].loss == MeasuredLoss(env(first + Attempts(trace[..i])))
  }

  lemma AppendAttempt(trace: seq<Entry>, e: Entry, first: nat, env: Environment)
    requires forall i: nat {:trigger LossOfTurn(trace, i, first, env)} :: i < |trace| ==>
               LossOfTurn(trace, i, first, env)
    requires e.Ran? ==> e.loss == MeasuredLoss(env(first + Attempts(trace)))
    ensures Attempts(trace + [e]) == Attempts(trace) + if e.Ran? then 1 else 0
    ensures var more := trace + [e];
            forall i: nat {:trigger LossOfTurn(more, i, first, env)} :: i < |more| ==> LossOfTurn(more, i, first, env)
  {
    var more := trace + [e];
    assert more[..|trace|] == trace;
    forall i: nat | i < |more| ensures LossOfTurn(more, i, first, env) {
      if i < |trace| {
        assert LossOfTurn(trace, i, first, env);
        assert more[..i] == trace[..i];
      }
    }
  }

  /** Every entry has the loss of its turn, and the entries that ran are as many as the turns taken. */
  ghost predicate FollowsTurns(p: Progress, first: nat, env: Environment) {
    && p.s.turn == first + Attempts(p.trace)
    && forall i: nat {:trigger LossOfTurn(p.trace, i, first, env)} :: i < |p.trace| ==>
         LossOfTurn(p.trace, i, first, env)
  }

  /** A step adds at most one entry, and takes a turn exactly for one that ran, with the loss of that turn. */
  lemma StepAttempts(p: Progress, test: TestSpec, threshold: real, env: Environment)
    ensures var q := SuiteStep(p, test, threshold, env);
            || (q.trace == p.trace && q.s.turn == p.s.turn)
            || exists e :: && q.trace == p.trace + [e]
                           && q.s.turn == p.s.turn + (if e.Ran? then 1 else 0)
                           && (e.Ran? ==> e.loss == MeasuredLoss(env(p.s.turn)))
  {
    var q := SuiteStep(p, test, threshold, env);
    if q.trace != p.trace {
      var e := q.trace[|p.trace|];
      assert q.trace == p.trace + [e];
    }
  }

  /** The losses by which tests are skipped are those measured: the k-th test that ran took the k-th turn. */
  lemma {:induction false} SuiteTrace(tests: seq<TestSpec>, n: nat, threshold: real, s: Counters, env: Environment)
    requires n <= |tests|
    ensures FollowsTurns(SuiteAfter(tests, n, threshold, s, env), s.turn, env)
  {
    if n > 0 {
      var p := SuiteAfter(tests, n - 1, threshold, s, env);
      SuiteTrace(tests, n - 1, threshold, s, env);
      StepAttempts(p, tests[n - 1], threshold, env);
      var q := SuiteStep(p, tests[n - 1], threshold, env);
      if q.trace != p.trace {
        var e :| q.trace == p.trace + [e] && (e.Ran? ==> e.loss == MeasuredLoss(env(p.s.turn)))
                 && q.s.turn == p.s.turn + if e.Ran? then 1 else 0;
        AppendAttempt(p.trace, e, s.turn, env);
      }
    }
  }

  predicate ItemFails(t: Turn) {
    t.outcome.MeasurementError? || t.outcome.failed
  }

  /** Each path item attempted takes a turn and is completed, and failed if it errs or reaches nothing. */
  lemma {:induction false} ItemCounts(n: nat, s: Counters, env: Environment)
    ensures var t := ItemsAfter(n, s, env).0;
            && s.turn <= t.turn
            && t.completed == s.completed + (t.turn - s.turn)
            && t.failed == s.failed + TurnsWith(env, s.turn, t.turn, ItemFails)
  {
    if n > 0 {
      ItemCounts(n - 1, s, env);
    }
  }

  // ---------------------------------------------------------------------------------------
  // An undisturbed run
  // ---------------------------------------------------------------------------------------

  /** Nothing is cancelled, everything can be written, and every measurement yields a result without loss. */
  ghost predicate Calm(env: Environment) {
    forall i :: CalmTurn(env(i))
  }

  predicate CalmTurn(t: Turn) {
    !t.cancel && !t.writeFails && t.outcome.Measured? && t.outcome.loss == None
  }

  /** The part of a run that did `planned` more measurements, each of them completed. */
  ghost predicate AllDone(s: Counters, t: Counters, planned: nat) {
    t.completed == s.completed + planned && t.skipped == s.skipped && !t.cancelled
  }

  lemma {:induction false} CalmSuite(tests: seq<TestSpec>, n: nat, threshold: real, s: Counters, env: Environment)
    requires Calm(env) && !s.cancelled && n <= |tests|
    ensures var p := SuiteAfter(tests, n, threshold, s, env);
            AllDone(s, p.s, n) && p.end.None? && p.saturated == {}
  {
    if n > 0 {
      CalmSuite(tests, n - 1, threshold, s, env);
      assert CalmTurn(env(SuiteAfter(tests, n - 1, threshold, s, env).s.turn));
    }
  }

  lemma {:induction false} CalmItems(n: nat, s: Counters, env: Environment)
    requires Calm(env) && !s.cancelled
    ensures AllDone(s, ItemsAfter(n, s, env).0, n) && ItemsAfter(n, s, env).1.None?
  {
    if n > 0 {
      CalmItems(n - 1, s, env);
      assert CalmTurn(env(ItemsAfter(n - 1, s, env).0.turn));
    }
  }

  lemma {:induction false} CalmWork(w: Work, s: Counters, env: Environment)
    requires Calm(env) && !s.cancelled
    ensures AllDone(s, RunWork(w, s, env).0, Planned(w)) && RunWork(w, s, env).1 == Finished
    decreases w, 0
  {
    assert CalmTurn(env(s.turn));
    match w
    case Suite(tests, threshold) =>
      CalmSuite(tests, |tests|, threshold, s.(turn := s.turn + 1), env);
    case Items(count) => CalmItems(count, s, env);
    case Tuning =>
    case Workflow(steps) => CalmSteps(steps, s, env);
  }

  lemma {:induction false} CalmSteps(steps: seq<Work>, s: Counters, env: Environment)
    requires Calm(env) && !s.cancelled
    ensures AllDone(s, RunSteps(steps, s, env).0, PlannedSteps(steps)) && RunSteps(steps, s, env).1 == Finished
    decreases steps, 1
  {
    if steps != [] {
      var init, last := steps[..|steps| - 1], steps[|steps| - 1];
      CalmSteps(init, s, env);
      CalmWork(last, RunSteps(init, s, env).0, env);
    }
  }

  /** A run that nothing disturbs finishes, and completes every planned measurement. */
  lemma UndisturbedRunCompletes(w: Work, env: Environment)
    requires Calm(env)
    ensures var (t, end) := RunWork(w, NEW_RUN, env);
            end == Finished && t.completed == Planned(w) && t.skipped == 0
  {
    CalmWork(w, NEW_RUN, env);
  }

  // ---------------------------------------------------------------------------------------
  // Saturation
  // ---------------------------------------------------------------------------------------

  /** A saturation test of the pair that ran and reached the threshold. */
  predicate Saturates(e: Entry, dscp: DscpClass, direction: Direction, threshold: real) {
    && e.Ran? && e.test.phase == UdpSaturation
    && e.test.dscp == dscp && e.test.direction == direction && Reaches(e.loss, threshold)
  }

  /** There is one before position i of the trace. */
  predicate SaturatedBefore(trace: seq<Entry>, i: nat, dscp: DscpClass, direction: Direction, threshold: real)
    requires i <= |trace|
  {
    exists j :: 0 <= j < i && Saturates(trace[j], dscp, direction, threshold)
  }

  /** Entry i is a skip exactly if its pair is saturated before it. */
  predicate SkipsRightly(trace: seq<Entry>, i: nat, test: TestSpec, threshold: real)
    requires i < |trace|
  {
    trace[i].Skipped? <==>
      test.phase == UdpSaturation && SaturatedBefore(trace, i, test.dscp, test.direction, threshold)
  }

  ghost predicate SaturationOk(p: Progress, tests: seq<TestSpec>, threshold: real) {
    && |p.trace| <= |tests| && (p.end.None? ==> |p.trace| == |tests|)
    && (forall i :: 0 <= i < |p.trace| ==> p.trace[i].test == tests[i])
    && (forall i :: 0 <= i < |p.trace| ==> SkipsRightly(p.trace, i, tests[i], threshold))
    && (forall dscp, direction :: (dscp, direction) in p.saturated <==>
          SaturatedBefore(p.trace, |p.trace|, dscp, direction, threshold))
  }

  lemma TraceGrows(trace: seq<Entry>, e: Entry, threshold: real)
    ensures forall i, dscp, direction :: 0 <= i <= |trace| ==>
              SaturatedBefore(trace + [e], i, dscp, direction, threshold)
              == SaturatedBefore(trace, i, dscp, direction, threshold)
    ensures forall dscp, direction ::
              SaturatedBefore(trace + [e], |trace| + 1, dscp, direction, threshold)
              <==> SaturatedBefore(trace, |trace|, dscp, direction, threshold)
                   || Saturates(e, dscp, direction, threshold)
  {
    var more := trace + [e];
    assert forall j :: 0 <= j < |trace| ==> more[j] == trace[j];
    assert more[|trace|] == e;
    forall i, dscp, direction | 0 <= i <= |trace|
      ensures SaturatedBefore(more, i, dscp, direction, threshold)
           == SaturatedBefore(trace, i, dscp, direction, threshold)
    {
      if j :| 0 <= j < i && Saturates(more[j], dscp, direction, threshold) {
        assert Saturates(trace[j], dscp, direction, threshold);
      }
      if j :| 0 <= j < i && Saturates(trace[j], dscp, direction, threshold) {
        assert Saturates(more[j], dscp, direction, threshold);
      }
    }
    forall dscp, direction
      ensures SaturatedBefore(more, |more|, dscp, direction, threshold)
         <==> SaturatedBefore(trace, |trace|, dscp, direction, threshold) || Saturates(e, dscp, direction, threshold)
    {
      if j :| 0 <= j < |more| && Saturates(more[j], dscp, direction, threshold) {
        assert j < |trace| ==> Saturates(trace[j], dscp, direction, threshold);
      }
      if j :| 0 <= j < |trace| && Saturates(trace[j], dscp, direction, threshold) {
        assert Saturates(more[j], dscp, direction, threshold);
      }
      assert Saturates(e, dscp, direction, threshold) ==> Saturates(more[|trace|], dscp, direction, threshold);
    }
  }

  /** One step of the loop appends at most one entry, and that entry is for the test at hand. */
  lemma StepSaturation(p: Progress, tests: seq<TestSpec>, test: TestSpec, threshold: real, env: Environment)
    requires SaturationOk(p, tests, threshold)
    ensures SaturationOk(SuiteStep(p, test, threshold, env), tests + [test], threshold)
  {
    var q := SuiteStep(p, test, threshold, env);
    if q.trace != p.trace {
      var e := q.trace[|p.trace|];
      assert q.trace == p.trace + [e];
      TraceGrows(p.trace, e, threshold);
      assert p.end.None? && |p.trace| == |tests| && e.test == test;
    }
  }

  lemma {:induction false} SuiteSaturation(tests: seq<TestSpec>, n: nat, threshold: real, s: Counters, env: Environment)
    requires n <= |tests|
    ensures SaturationOk(SuiteAfter(tests, n, threshold, s, env), tests[..n], threshold)
  {
    if n > 0 {
      SuiteSaturation(tests, n - 1, threshold, s, env);
      StepSaturation(SuiteAfter(tests, n - 1, threshold, s, env), tests[..n - 1], tests[n - 1], threshold, env);
      assert tests[..n] == tests[..n - 1] + [tests[n - 1]];
    }
  }

  /** In every suite run the tests are taken in order, and a test is skipped exactly when it is a
      saturation test whose (DSCP, direction) pair reached the loss threshold earlier in the run. */
  lemma SkippedExactlyWhenSaturated(tests: seq<TestSpec>, threshold: real, s: Counters, env: Environment, i: nat)
    requires i < |SuiteAfter(tests, |tests|, threshold, s, env).trace|
    ensures var trace := SuiteAfter(tests, |tests|, threshold, s, env).trace;
            && |trace| <= |tests| && trace[i].test == tests[i]
            && (trace[i].Skipped? <==>
                  && tests[i].phase == UdpSaturation
                  && exists j :: 0 <= j < i && trace[j].Ran? && tests[j].phase == UdpSaturation
                       && tests[j].dscp == tests[i].dscp && tests[j].direction == tests[i].direction
                       && trace[j].loss.Some? && trace[j].loss.value >= threshold)
  {
    SuiteSaturation(tests, |tests|, threshold, s, env);
    assert tests[..|tests|] == tests;
    var trace := SuiteAfter(tests, |tests|, threshold, s, env).trace;
    assert SkipsRightly(trace, i, tests[i], threshold);
    if SaturatedBefore(trace, i, tests[i].dscp, tests[i].direction, threshold) {
      var j :| 0 <= j < i && Saturates(trace[j], tests[i].dscp, tests[i].direction, threshold);
      assert tests[j] == trace[j].test;
    }
    if j :| 0 <= j < i && trace[j].Ran? && tests[j].phase == UdpSaturation && tests[j].dscp == tests[i].dscp
            && tests[j].direction == tests[i].direction && trace[j].loss.Some? && trace[j].loss.value >= threshold {
      assert trace[j].test == tests[j];
      assert Saturates(trace[j], tests[i].dscp, tests[i].direction, threshold);
    }
  }

  // ---------------------------------------------------------------------------------------
  // The mutable execution
  // ---------------------------------------------------------------------------------------

  class Run {
    const env: Environment
    var turn: nat
    var cancelled: bool
    var completed: nat
    var failed: nat
    var skipped: nat
    var breaches: nat

    function View(): Counters
      reads this
    {
      Counters(turn, cancelled, completed, failed, skipped, breaches)
    }

    constructor (env: Environment)
      ensures this.env == env && View() == NEW_RUN
    {
      this.env := env;
      turn, cancelled, completed, failed, skipped, breaches := 0, false, 0, 0, 0, 0;
    }

    method IsCancelled() returns (r: bool)
      modifies `cancelled
      ensures View() == Look(old(View()), env) && r == cancelled
    {
      cancelled := cancelled || env(turn).cancel;
      r := cancelled;
    }

    method Attempt() returns (result: Turn)
      modifies `turn
      ensures result == env(old(turn)) && turn == old(turn) + 1
    {
      result := env(turn);
      turn := turn + 1;
    }

    /** Counts a measurement, then writes its record. */
    method Record(didFail: bool, writeFails: bool) returns (ok: bool)
      modifies `completed, `failed
      ensures View() == Recorded(old(View()), didFail) && ok == !writeFails
    {
      completed := completed + 1;
      if didFail {
        failed := failed + 1;
      }
      ok := !writeFails;
    }

    /** The body of the suite loop; `saturated` collects the pairs that reached the threshold. */
    method RunTest(test: TestSpec, threshold: real, ghost p: Progress, saturated: set<(DscpClass, Direction)>)
      returns (end: Option<End>, saturated': set<(DscpClass, Direction)>)
      requires p.end.None? && p.s == View() && p.saturated == saturated
      modifies this
      ensures var q := SuiteStep(p, test, threshold, env); View() == q.s && end == q.end && saturated' == q.saturated
    {
      saturated' := saturated;
      var stop := IsCancelled();
      if stop {
        end := Some(Interrupted);
        return;
      }
      if test.phase == UdpSaturation && (test.dscp, test.direction) in saturated {
        skipped := skipped + 1;
        end := None;
        return;
      }
      var result := Attempt();
      var didFail := result.outcome.MeasurementError?;
      match result.outcome {
        case MeasurementError(byCancellation) =>
          if byCancellation {
            end := Some(Stopped);
            return;
          }
        case Measured(loss, breached, _) =>
          if test.phase == UdpSaturation && Reaches(loss, threshold) {
            saturated' := saturated + {(test.dscp, test.direction)};
          }
          if breached {
            breaches := breaches + 1;
          }
      }
      var ok := Record(didFail, result.writeFails);
      end := if ok then None else Some(Stopped);
    }

    method RunSuite(tests: seq<TestSpec>, threshold: real) returns (end: End)
      modifies this
      ensures var p := SuiteAfter(tests, |tests|, threshold, old(View()), env); View() == p.s && end == EndOf(p.end)
    {
      var saturated: set<(DscpClass, Direction)> := {};
      ghost var start := View();
      for i := 0 to |tests|
        invariant var p := SuiteAfter(tests, i, threshold, start, env);
                  p.end.None? && p.s == View() && p.saturated == saturated
      {
        var over;
        over, saturated := RunTest(tests[i], threshold, SuiteAfter(tests, i, threshold, start, env), saturated);
        if over.Some? {
          EndedSuite(tests, i + 1, threshold, start, env);
          return over.value;
        }
      }
      end := Finished;
    }

    method RunItems(count: nat) returns (end: End)
      modifies this
      ensures var (s, e) := ItemsAfter(count, old(View()), env); View() == s && end == EndOf(e)
    {
      ghost var start := View();
      for i := 0 to count
        invariant ItemsAfter(i, start, env) == (View(), None)
      {
        ghost var after := ItemsAfter(i + 1, start, env);
        var stop := IsCancelled();
        if stop {
          EndedItems(count, i + 1, start, env);
          return Interrupted;
        }
        var result := Attempt();
        var ok := Record(!result.outcome.Measured? || result.outcome.failed, result.writeFails);
        if !ok {
          EndedItems(count, i + 1, start, env);
          return Stopped;
        }
      }
      end := Finished;
    }

    method Execute(w: Work) returns (end: End)
      modifies this
      ensures (View(), end) == RunWork(w, old(View()), env)
      decreases w, 0
    {
      var stop := IsCancelled();
      if stop {
        return Stopped;
      }
      match w
      case Suite(tests, threshold) =>
        var preflight := Attempt();
        if preflight.outcome.MeasurementError? || preflight.writeFails {
          return Stopped;
        }
        end := RunSuite(tests, threshold);
      case Items(count) => end := RunItems(count);
      case Tuning =>
        var result := Attempt();
        if result.outcome.MeasurementError? {
          return Stopped;
        }
        var ok := Record(result.outcome.failed, result.writeFails);
        end := if ok then Finished else Stopped;
      case Workflow(steps) => end := ExecuteSteps(steps);
    }

    method ExecuteSteps(steps: seq<Work>) returns (end: End)
      modifies this
      ensures (View(), end) == RunSteps(steps, old(View()), env)
      decreases steps, 1
    {
      ghost var start := View();
      end := Finished;
      for i := 0 to |steps|
        invariant end != Stopped && (View(), end) == RunSteps(steps[..i], start, env)
      {
        assert steps[..i + 1][..i] == steps[..i];
        end := Execute(steps[i]);
        if end == Stopped {
          StoppedSteps(steps, i + 1, start, env);
          return;
        }
      }
      assert steps[..|steps|] == steps;
    }
  }

  lemma {:induction false} EndedSuite(tests: seq<TestSpec>, n: nat, threshold: real, s: Counters, env: Environment)
    requires n <= |tests| && SuiteAfter(tests, n, threshold, s, env).end.Some?
    ensures SuiteAfter(tests, |tests|, threshold, s, env) == SuiteAfter(tests, n, threshold, s, env)
    decreases |tests| - n
  {
    if n < |tests| {
      EndedSuite(tests, n + 1, threshold, s, env);
    }
  }

  lemma {:induction false} EndedItems(count: nat, n: nat, s: Counters, env: Environment)
    requires n <= count && ItemsAfter(n, s, env).1.Some?
    ensures ItemsAfter(count, s, env) == ItemsAfter(n, s, env)
    decreases count - n
  {
    if n < count {
      EndedItems(count, n + 1, s, env);
    }
  }

  lemma {:induction false} StoppedSteps(steps: seq<Work>, n: nat, s: Counters, env: Environment)
    requires n <= |steps| && RunSteps(steps[..n], s, env).1 == Stopped
    ensures RunSteps(steps, s, env) == RunSteps(steps[..n], s, env)
    decreases |steps| - n
  {
    if n == |steps| {
      assert steps[..n] == steps;
    } else {
      assert steps[..n + 1][..n] == steps[..n];
      StoppedSteps(steps, n + 1, s, env);
    }
  }
}
