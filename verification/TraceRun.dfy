/** The trace event loop: execute_run_with_probe of crates/path-trace/src/lib.rs.

    A run is a sequence of events chosen by the environment: the scheduler's timer fires, one of
    the outstanding probes is joined, the run is cancelled, or a deadline passes. An event that
    is not enabled in the current state changes nothing, so every event sequence is a run. */
module TraceRun {
  import opened Common
  import opened CadenceModel

  const MAX_OUTSTANDING_PROBES := 512
  const MAX_FAILED_CYCLES := 3

  datatype Settings = Settings(cycles: nat, firstTtl: nat, maxHops: nat, interval: nat) {
    function Limits(): CadenceModel.Limits {
      CadenceModel.Limits(firstTtl, maxHops, interval)
    }

    /** What TraceSettings::validate has established before the loop starts. */
    ghost predicate Valid() {
      0 < cycles && 0 < firstTtl <= maxHops
    }
  }

  datatype Probe = Probe(cycle: nat, ttl: nat)

  datatype Stop = Cancelled | TimedOut | GraceExpired | FatalProbe | FailedCycles | TaskPanicked | ConcurrencyLimit

  datatype Phase = Looping | Draining(why: Stop) | Finished(why: Stop)

  /** Join events name the joined task by its position in the task set. */
  datatype Event =
    | Cancel
    | RunDeadline
    | GraceDeadline
    | JoinOk(task: nat, answered: bool, reached: bool)
    | JoinErr(task: nat, fatal: bool)
    | JoinPanic(task: nat)
    | Timer(now: nat)
    | ShutdownDeadline

  datatype Run = Run(
    phase: Phase,
    schedule: Schedule,
    tasks: seq<Probe>,
    pending: seq<nat>,
    completed: nat,
    destination: Option<nat>,
    known: seq<bool>,
    hadOk: seq<bool>,
    streak: nat)

  // ---------------------------------------------------------------------------------------
  // The steps of the loop
  // ---------------------------------------------------------------------------------------

  function Zeros(n: nat): (r: seq<nat>)
    ensures |r| == n && forall i :: 0 <= i < n ==> r[i] == 0
  {
    seq(n, _ => 0)
  }

  function Falses(n: nat): (r: seq<bool>)
    ensures |r| == n && forall i :: 0 <= i < n ==> !r[i]
  {
    seq(n, _ => false)
  }

  function Begin(cfg: Settings, start: nat): Run {
    Run(Looping, Start(cfg.Limits(), start), [], Zeros(cfg.cycles), 0, None,
        Falses(cfg.maxHops + 1), Falses(cfg.cycles), 0)
  }

  /** Which events the loop (or the drain after it) reacts to. */
  predicate Enabled(cfg: Settings, s: Run, e: Event) {
    match e
    case Cancel => s.phase.Looping?
    case RunDeadline => s.phase.Looping?
    case GraceDeadline => s.phase.Looping? && s.schedule.cycles == cfg.cycles
    case JoinOk(k, _, _) => !s.phase.Finished? && k < |s.tasks|
    case JoinErr(k, _) => !s.phase.Finished? && k < |s.tasks|
    case JoinPanic(k) => !s.phase.Finished? && k < |s.tasks|
    case Timer(now) => s.phase.Looping? && s.schedule.cycles < cfg.cycles && s.schedule.deadline <= now
    case ShutdownDeadline => s.phase.Draining? && s.tasks != []
  }

  /** A task was joined and delivered its result: `pending` and `completed_cycles`. */
  function Settle(s: Run, k: nat): Run
    requires k < |s.tasks| && s.tasks[k].cycle < |s.pending| && s.pending[s.tasks[k].cycle] > 0
  {
    var c := s.tasks[k].cycle;
    var pending := s.pending[c := s.pending[c] - 1];
    s.(tasks := Remove(s.tasks, k),
       pending := pending,
       completed := if c < s.schedule.cycles && pending[c] == 0 then s.completed + 1 else s.completed)
  }

  /** What keeps every index and subtraction of the loop body in range. */
  ghost predicate Typed(cfg: Settings, s: Run) {
    && cfg.Valid()
    && Fits(cfg.Limits(), s.schedule)
    && s.schedule.cycles <= cfg.cycles
    && |s.pending| == cfg.cycles == |s.hadOk|
    && |s.known| == cfg.maxHops + 1
    && (s.destination.Some? ==> cfg.firstTtl <= s.destination.value)
    && (forall k :: 0 <= k < |s.tasks| ==>
          && s.tasks[k].cycle < cfg.cycles
          && cfg.firstTtl <= s.tasks[k].ttl <= cfg.maxHops
          && s.pending[s.tasks[k].cycle] > 0)
  }

  function Step(cfg: Settings, s: Run, e: Event): Run
    requires Typed(cfg, s)
  {
    if !Enabled(cfg, s, e) then s else
    match e
    case Cancel => s.(phase := Draining(Cancelled))
    case RunDeadline => s.(phase := Draining(TimedOut))
    case GraceDeadline => s.(phase := Draining(GraceExpired))
    case JoinOk(k, answered, reached) =>
      if s.phase.Draining? then Settle(s, k) else JoinedOk(s, k, answered, reached)
    case JoinErr(k, fatal) =>
      if s.phase.Draining? then Settle(s, k) else JoinedErr(s, k, fatal)
    case JoinPanic(k) =>
      s.(tasks := Remove(s.tasks, k), phase := if s.phase.Looping? then Draining(TaskPanicked) else s.phase)
    case Timer(now) =>
      if |s.tasks| >= MAX_OUTSTANDING_PROBES then s.(phase := Draining(ConcurrencyLimit)) else Sent(cfg, s, now)
    case ShutdownDeadline => s.(phase := Finished(s.phase.why))
  }

  function JoinedOk(s: Run, k: nat, answered: bool, reached: bool): Run
    requires k < |s.tasks|
    requires s.tasks[k].cycle < |s.pending| == |s.hadOk| && s.pending[s.tasks[k].cycle] > 0
    requires s.tasks[k].ttl < |s.known|
  {
    var Probe(c, ttl) := s.tasks[k];
    var t := Settle(s, k);
    var finished := c < t.schedule.cycles && t.pending[c] == 0;
    t.(hadOk := t.hadOk[c := true],
       known := t.known[ttl := t.known[ttl] || answered],
       destination :=
         if !reached then t.destination
         else Some(if t.destination.Some? then Min(t.destination.value, ttl) else ttl),
       streak := if finished then 0 else t.streak)
  }

  function JoinedErr(s: Run, k: nat, fatal: bool): Run
    requires k < |s.tasks|
    requires s.tasks[k].cycle < |s.pending| == |s.hadOk| && s.pending[s.tasks[k].cycle] > 0
  {
    var c := s.tasks[k].cycle;
    var t := Settle(s, k);
    var finished := c < t.schedule.cycles && t.pending[c] == 0;
    if fatal then t.(phase := Draining(FatalProbe))
    else if !finished then t
    else if t.hadOk[c] then t.(streak := 0)
    else
      var streak := t.streak + 1;
      t.(streak := streak, phase := if streak >= MAX_FAILED_CYCLES then Draining(FailedCycles) else t.phase)
  }

  /** The timer arm: the probe at (cadence.cycles, cadence.ttl) goes out. */
  function Sent(cfg: Settings, s: Run, now: nat): Run
    requires Typed(cfg, s) && s.schedule.cycles < cfg.cycles
  {
    var c := s.schedule.cycles;
    s.(pending := s.pending[c := s.pending[c] + 1],
       tasks := s.tasks + [Probe(c, s.schedule.ttl)],
       schedule := Advance(cfg.Limits(), s.schedule, now, s.known, s.destination))
  }

  // ---------------------------------------------------------------------------------------
  // What an observer of the run sees: an append-only log
  // ---------------------------------------------------------------------------------------

  /** SentProbe's flag says whether the probe closed its cycle, i.e. whether the scheduler moved on.
      `answered`: the hop showed an address; `reached`: it was the destination. */
  datatype Entry =
    | SentProbe(probe: Probe, closes: bool)
    | Joined(probe: Probe, ok: bool, answered: bool, reached: bool)
    | Lost(probe: Probe)

  function Record(cfg: Settings, s: Run, e: Event): seq<Entry>
    requires Typed(cfg, s)
  {
    if !Enabled(cfg, s, e) then [] else
    match e
    case JoinOk(k, answered, reached) => [Joined(s.tasks[k], true, answered, reached)]
    case JoinErr(k, _) => [Joined(s.tasks[k], false, false, false)]
    case JoinPanic(k) => [Lost(s.tasks[k])]
    case Timer(now) =>
      if |s.tasks| >= MAX_OUTSTANDING_PROBES then []
      else
        var closes := Wraps(cfg.Limits(), s.schedule.ttl, s.known, s.destination);
        [SentProbe(Probe(s.schedule.cycles, s.schedule.ttl), closes)]
    case _ => []
  }

  /** Probes of cycle c sent and not yet joined, according to the log. */
  function Outstanding(log: seq<Entry>, c: nat): int {
    if log == [] then 0
    else
      var e := log[|log| - 1];
      Outstanding(log[..|log| - 1], c)
      + if e.SentProbe? && e.probe.cycle == c then 1
        else if e.Joined? && e.probe.cycle == c then -1
        else 0
  }

  ghost predicate Closed(log: seq<Entry>, c: nat) {
    exists i :: 0 <= i < |log| && log[i].SentProbe? && log[i].probe.cycle == c && log[i].closes
  }

  ghost predicate Answered(log: seq<Entry>, c: nat) {
    exists i :: 0 <= i < |log| && log[i].Joined? && log[i].probe.cycle == c && log[i].ok
  }

  /** A cycle is done when it was fully sent and every one of its probes was joined. */
  ghost predicate Done(log: seq<Entry>, c: nat) {
    Closed(log, c) && Outstanding(log, c) == 0
  }

  ghost function DoneCycles(log: seq<Entry>, n: nat): set<nat> {
    set c: nat | c < n && Done(log, c)
  }

  /** For each join that finished a cycle, in order: did any probe of that cycle succeed? */
  ghost function Verdicts(log: seq<Entry>): seq<bool> {
    if log == [] then []
    else
      var e := log[|log| - 1];
      Verdicts(log[..|log| - 1])
      + if e.Joined? && Done(log, e.probe.cycle) then [Answered(log, e.probe.cycle)] else []
  }

  /** Length of the trailing run of `false`. */
  function TrailingFailures(verdicts: seq<bool>): nat {
    if verdicts == [] || verdicts[|verdicts| - 1] then 0
    else 1 + TrailingFailures(verdicts[..|verdicts| - 1])
  }

  function SentProbes(log: seq<Entry>): seq<Probe> {
    if log == [] then []
    else
      var e := log[|log| - 1];
      SentProbes(log[..|log| - 1]) + if e.SentProbe? then [e.probe] else []
  }

  /** Each probe is followed by the next hop of the same cycle or by the first hop of the next cycle. */
  ghost predicate Sweeps(probes: seq<Probe>, first: nat, max: nat) {
    && (probes != [] ==> probes[0] == Probe(0, first))
    && (forall i :: 0 <= i < |probes| ==> first <= probes[i].ttl <= max)
    && (forall i :: 0 < i < |probes| ==>
          || probes[i] == Probe(probes[i - 1].cycle, probes[i - 1].ttl + 1)
          || probes[i] == Probe(probes[i - 1].cycle + 1, first))
  }

  /** Hop `ttl` has shown an address. */
  ghost predicate Seen(log: seq<Entry>, ttl: nat) {
    exists i :: 0 <= i < |log| && log[i].Joined? && log[i].answered && log[i].probe.ttl == ttl
  }

  /** The destination has answered a probe with this TTL. */
  ghost predicate Reached(log: seq<Entry>, ttl: nat) {
    exists i :: 0 <= i < |log| && log[i].Joined? && log[i].reached && log[i].probe.ttl == ttl
  }

  /** `destination` is the lowest TTL at which the destination has answered. */
  ghost predicate Nearest(log: seq<Entry>, destination: Option<nat>) {
    && (destination.Some? ==> Reached(log, destination.value))
    && (forall ttl: nat :: Reached(log, ttl) ==> destination.Some? && destination.value <= ttl)
  }

  ghost function Silent(log: seq<Entry>, first: nat, ttl: nat): set<nat> {
    set t: nat | first <= t < ttl && !Seen(log, t)
  }

  /** MTR's rule for ending a sweep: the destination is no farther, or more than 12 hops are silent, or
      the hop limit is reached. */
  ghost predicate EndsCycle(cfg: Settings, log: seq<Entry>, ttl: nat) {
    || (exists d: nat :: d <= ttl && Reached(log, d))
    || |Silent(log, cfg.firstTtl, ttl)| > 12
    || ttl == cfg.maxHops
  }

  /** If entry i is a sent probe, it closed its cycle exactly when the log before it gave a reason. */
  ghost predicate Explained(cfg: Settings, log: seq<Entry>, i: nat)
    requires i < |log|
  {
    log[i].SentProbe? ==> (log[i].closes <==> EndsCycle(cfg, log[..i], log[i].probe.ttl))
  }

  // ---------------------------------------------------------------------------------------
  // The inductive invariant
  // ---------------------------------------------------------------------------------------

  function TasksIn(tasks: seq<Probe>, c: nat): nat {
    if tasks == [] then 0
    else TasksIn(tasks[..|tasks| - 1], c) + if tasks[|tasks| - 1].cycle == c then 1 else 0
  }

  ghost function DrainedCycles(pending: seq<nat>, n: nat): set<nat>
    requires n <= |pending|
  {
    set c: nat | c < n && pending[c] == 0
  }

  /** `pending`, `completed_cycles` and the scheduler agree with the log. */
  ghost predicate Counts(cfg: Settings, s: Run, log: seq<Entry>) {
    && Typed(cfg, s)
    && |s.tasks| <= MAX_OUTSTANDING_PROBES
    && (forall c: nat :: c < cfg.cycles ==> s.pending[c] == Outstanding(log, c))
    && (forall c: nat :: c < cfg.cycles ==> TasksIn(s.tasks, c) <= s.pending[c])
    && (forall c: nat :: Closed(log, c) <==> c < s.schedule.cycles)
    && s.completed == |DrainedCycles(s.pending, s.schedule.cycles)|
  }

  /** The sent probes, followed by the one due next, sweep the hops in order. */
  ghost predicate Ordered(cfg: Settings, s: Run, log: seq<Entry>) {
    && Sweeps(SentProbes(log) + [Probe(s.schedule.cycles, s.schedule.ttl)], cfg.firstTtl, cfg.maxHops)
    && forall i :: 0 <= i < |SentProbes(log)| ==> SentProbes(log)[i].cycle < cfg.cycles
  }

  /** What only the running loop maintains: the drain ignores successes and streaks. */
  ghost predicate Judged(cfg: Settings, s: Run, log: seq<Entry>)
    requires |s.hadOk| == cfg.cycles
  {
    && (forall c: nat :: c < cfg.cycles ==> (s.hadOk[c] <==> Answered(log, c)))
    && s.streak == TrailingFailures(Verdicts(log)) < MAX_FAILED_CYCLES
  }

  /** What the running loop has learnt from replies. */
  ghost predicate Learned(cfg: Settings, s: Run, log: seq<Entry>)
    requires |s.known| == cfg.maxHops + 1
  {
    && (forall ttl: nat :: ttl <= cfg.maxHops ==> (s.known[ttl] <==> Seen(log, ttl)))
    && Nearest(log, s.destination)
  }

  ghost predicate Inv(cfg: Settings, s: Run, log: seq<Entry>) {
    && Counts(cfg, s, log)
    && Ordered(cfg, s, log)
    && (forall i: nat :: i < |log| ==> Explained(cfg, log, i))
    && (s.phase.Looping? ==> Judged(cfg, s, log) && Learned(cfg, s, log))
  }

  lemma {:induction false} RemoveTask(tasks: seq<Probe>, k: nat, c: nat)
    requires k < |tasks|
    ensures TasksIn(tasks, c) == TasksIn(Remove(tasks, k), c) + if tasks[k].cycle == c then 1 else 0
  {
    var init, rest := tasks[..|tasks| - 1], Remove(tasks, k);
    if k == |tasks| - 1 {
      assert rest == init;
    } else {
      RemoveTask(init, k, c);
      assert rest[..|rest| - 1] == Remove(init, k);
    }
  }

  lemma TaskCounted(tasks: seq<Probe>, k: nat)
    requires k < |tasks|
    ensures TasksIn(tasks, tasks[k].cycle) > 0
  {
    RemoveTask(tasks, k, tasks[k].cycle);
  }

  /** Tasks counted in `pending` keep it positive, so the next join cannot underflow. */
  lemma TasksArePending(pending: seq<nat>, tasks: seq<Probe>)
    requires forall k :: 0 <= k < |tasks| ==> tasks[k].cycle < |pending|
    requires forall c: nat :: c < |pending| ==> TasksIn(tasks, c) <= pending[c]
    ensures forall k :: 0 <= k < |tasks| ==> pending[tasks[k].cycle] > 0
  {
    forall k | 0 <= k < |tasks| ensures pending[tasks[k].cycle] > 0 {
      TaskCounted(tasks, k);
    }
  }

  lemma AppendEntry(log: seq<Entry>, e: Entry, c: nat)
    ensures Outstanding(log + [e], c) == Outstanding(log, c)
              + if e.SentProbe? && e.probe.cycle == c then 1
                else if e.Joined? && e.probe.cycle == c then -1 else 0
    ensures Closed(log + [e], c) <==> Closed(log, c) || (e.SentProbe? && e.probe.cycle == c && e.closes)
    ensures Answered(log + [e], c) <==> Answered(log, c) || (e.Joined? && e.probe.cycle == c && e.ok)
  {
    var more := log + [e];
    assert more[..|more| - 1] == log;
    assert more[|log|] == e;
    assert forall i :: 0 <= i < |log| ==> more[i] == log[i];
    if Closed(log, c) {
      var i :| 0 <= i < |log| && log[i].SentProbe? && log[i].probe.cycle == c && log[i].closes;
      assert more[i] == log[i];
    }
    if Answered(log, c) {
      var i :| 0 <= i < |log| && log[i].Joined? && log[i].probe.cycle == c && log[i].ok;
      assert more[i] == log[i];
    }
  }

  lemma AppendSeen(log: seq<Entry>, e: Entry, ttl: nat)
    ensures Seen(log + [e], ttl) <==> Seen(log, ttl) || (e.Joined? && e.answered && e.probe.ttl == ttl)
    ensures Reached(log + [e], ttl) <==> Reached(log, ttl) || (e.Joined? && e.reached && e.probe.ttl == ttl)
  {
    var more := log + [e];
    assert more[|log|] == e;
    assert forall i :: 0 <= i < |log| ==> more[i] == log[i];
    if Seen(log, ttl) {
      var i :| 0 <= i < |log| && log[i].Joined? && log[i].answered && log[i].probe.ttl == ttl;
      assert more[i] == log[i];
    }
    if Reached(log, ttl) {
      var i :| 0 <= i < |log| && log[i].Joined? && log[i].reached && log[i].probe.ttl == ttl;
      assert more[i] == log[i];
    }
  }

  lemma AppendExplained(cfg: Settings, log: seq<Entry>, e: Entry)
    requires forall i: nat :: i < |log| ==> Explained(cfg, log, i)
    requires e.SentProbe? ==> (e.closes <==> EndsCycle(cfg, log, e.probe.ttl))
    ensures forall i: nat :: i < |log + [e]| ==> Explained(cfg, log + [e], i)
  {
    var more := log + [e];
    forall i: nat | i < |more| ensures Explained(cfg, more, i) {
      assert more[..i] == log[..i];
      assert i == |log| ==> log[..i] == log;
      assert i < |log| ==> Explained(cfg, log, i);
    }
  }

  lemma AppendVerdict(log: seq<Entry>, e: Entry)
    ensures SentProbes(log + [e]) == SentProbes(log) + if e.SentProbe? then [e.probe] else []
    ensures Verdicts(log + [e]) == Verdicts(log)
              + if e.Joined? && Done(log + [e], e.probe.cycle) then [Answered(log + [e], e.probe.cycle)] else []
  {
    var more := log + [e];
    assert more[..|more| - 1] == log;
  }

  lemma AppendTrailing(verdicts: seq<bool>, v: bool)
    ensures TrailingFailures(verdicts + [v]) == if v then 0 else TrailingFailures(verdicts) + 1
  {
    assert (verdicts + [v])[..|verdicts|] == verdicts;
  }

  // ---------------------------------------------------------------------------------------
  // Every step keeps the invariant
  // ---------------------------------------------------------------------------------------

  /** Joining a task, in the loop or in the drain. */
  lemma SettlePending(cfg: Settings, s: Run, k: nat, e: Entry, log: seq<Entry>)
    requires Counts(cfg, s, log) && k < |s.tasks| && e.Joined? && e.probe == s.tasks[k]
    ensures var t, log' := Settle(s, k), log + [e];
            forall d: nat ::
              && (d < cfg.cycles ==> t.pending[d] == Outstanding(log', d) && TasksIn(t.tasks, d) <= t.pending[d])
              && (Closed(log', d) <==> d < t.schedule.cycles)
  {
    var t := Settle(s, k);
    forall d: nat
      ensures d < cfg.cycles ==> t.pending[d] == Outstanding(log + [e], d) && TasksIn(t.tasks, d) <= t.pending[d]
      ensures Closed(log + [e], d) <==> d < t.schedule.cycles
    {
      AppendEntry(log, e, d);
      RemoveTask(s.tasks, k, d);
    }
  }

  lemma SettleCompleted(s: Run, k: nat)
    requires k < |s.tasks| && s.tasks[k].cycle < |s.pending| && s.pending[s.tasks[k].cycle] > 0
    requires s.schedule.cycles <= |s.pending| && s.completed == |DrainedCycles(s.pending, s.schedule.cycles)|
    ensures var t := Settle(s, k); t.completed == |DrainedCycles(t.pending, t.schedule.cycles)|
  {
    var t, c, n := Settle(s, k), s.tasks[k].cycle, s.schedule.cycles;
    if c < n && t.pending[c] == 0 {
      assert DrainedCycles(t.pending, n) == DrainedCycles(s.pending, n) + {c};
    } else {
      assert DrainedCycles(t.pending, n) == DrainedCycles(s.pending, n);
    }
  }

  /** Joining a task, in the loop or in the drain. */
  lemma SettleCounts(cfg: Settings, s: Run, k: nat, e: Entry, log: seq<Entry>)
    requires Counts(cfg, s, log) && k < |s.tasks| && e.Joined? && e.probe == s.tasks[k]
    ensures Counts(cfg, Settle(s, k), log + [e])
    ensures var t := Settle(s, k); var c := s.tasks[k].cycle;
            Done(log + [e], c) <==> c < t.schedule.cycles && t.pending[c] == 0
  {
    var t := Settle(s, k);
    SettlePending(cfg, s, k, e, log);
    SettleCompleted(s, k);
    TasksArePending(t.pending, t.tasks);
  }

  lemma LostCounts(cfg: Settings, s: Run, k: nat, log: seq<Entry>)
    requires Counts(cfg, s, log) && k < |s.tasks|
    ensures Counts(cfg, s.(tasks := Remove(s.tasks, k)), log + [Lost(s.tasks[k])])
  {
    var t, e := s.(tasks := Remove(s.tasks, k)), Lost(s.tasks[k]);
    forall d: nat
      ensures Outstanding(log + [e], d) == Outstanding(log, d) && TasksIn(t.tasks, d) <= TasksIn(s.tasks, d)
      ensures Closed(log + [e], d) <==> Closed(log, d)
    {
      AppendEntry(log, e, d);
      RemoveTask(s.tasks, k, d);
    }
  }

  lemma SentCounts(cfg: Settings, s: Run, now: nat, log: seq<Entry>)
    requires Counts(cfg, s, log) && Enabled(cfg, s, Timer(now)) && |s.tasks| < MAX_OUTSTANDING_PROBES
    ensures Counts(cfg, Sent(cfg, s, now), log + Record(cfg, s, Timer(now)))
  {
    var t, e := Sent(cfg, s, now), Record(cfg, s, Timer(now))[0];
    var c := s.schedule.cycles;
    assert Record(cfg, s, Timer(now)) == [e];
    assert t.tasks[..|t.tasks| - 1] == s.tasks;
    forall d: nat
      ensures d < cfg.cycles ==> t.pending[d] == Outstanding(log + [e], d) && TasksIn(t.tasks, d) <= t.pending[d]
      ensures Closed(log + [e], d) <==> d < t.schedule.cycles
    {
      AppendEntry(log, e, d);
    }
    assert DrainedCycles(t.pending, t.schedule.cycles) == DrainedCycles(s.pending, s.schedule.cycles);
  }

  lemma SweepExtends(probes: seq<Probe>, due: Probe, next: Probe, first: nat, max: nat)
    requires Sweeps(probes + [due], first, max) && first <= next.ttl <= max
    requires next == Probe(due.cycle, due.ttl + 1) || next == Probe(due.cycle + 1, first)
    ensures Sweeps(probes + [due] + [next], first, max)
  {
    var more := probes + [due] + [next];
    assert forall i :: 0 <= i <= |probes| ==> more[i] == (probes + [due])[i];
    assert more[|probes| + 1] == next && more[|probes|] == due;
  }

  lemma SentOrdered(cfg: Settings, s: Run, now: nat, log: seq<Entry>)
    requires Counts(cfg, s, log) && Ordered(cfg, s, log)
    requires Enabled(cfg, s, Timer(now)) && |s.tasks| < MAX_OUTSTANDING_PROBES
    ensures Ordered(cfg, Sent(cfg, s, now), log + Record(cfg, s, Timer(now)))
  {
    var t, e := Sent(cfg, s, now), Record(cfg, s, Timer(now))[0];
    assert Record(cfg, s, Timer(now)) == [e];
    AppendVerdict(log, e);
    SweepExtends(SentProbes(log), e.probe, Probe(t.schedule.cycles, t.schedule.ttl), cfg.firstTtl, cfg.maxHops);
  }

  lemma JoinAnswered(s: Run, hadOk: seq<bool>, e: Entry, log: seq<Entry>)
    requires e.Joined? && e.probe.cycle < |s.hadOk|
    requires hadOk == if e.ok then s.hadOk[e.probe.cycle := true] else s.hadOk
    requires forall d: nat :: d < |s.hadOk| ==> (s.hadOk[d] <==> Answered(log, d))
    ensures forall d: nat :: d < |s.hadOk| ==> (hadOk[d] <==> Answered(log + [e], d))
  {
    forall d: nat | d < |s.hadOk| ensures hadOk[d] <==> Answered(log + [e], d) {
      AppendEntry(log, e, d);
    }
  }

  /** The verdict a join adds, if it finishes its cycle, and the streak after it. */
  lemma JoinVerdict(cfg: Settings, s: Run, k: nat, e: Entry, log: seq<Entry>)
    requires Counts(cfg, s, log) && k < |s.tasks| && e.Joined? && e.probe == s.tasks[k]
    ensures var t, c, log' := Settle(s, k), s.tasks[k].cycle, log + [e];
            TrailingFailures(Verdicts(log'))
            == if !(c < t.schedule.cycles && t.pending[c] == 0) then TrailingFailures(Verdicts(log))
               else if Answered(log', c) then 0 else TrailingFailures(Verdicts(log)) + 1
  {
    SettleCounts(cfg, s, k, e, log);
    AppendVerdict(log, e);
    AppendTrailing(Verdicts(log), Answered(log + [e], s.tasks[k].cycle));
    assert Verdicts(log) + [] == Verdicts(log);
  }

  lemma OkJudged(cfg: Settings, s: Run, k: nat, answered: bool, reached: bool, log: seq<Entry>)
    requires Counts(cfg, s, log) && Judged(cfg, s, log) && k < |s.tasks|
    ensures Judged(cfg, JoinedOk(s, k, answered, reached), log + [Joined(s.tasks[k], true, answered, reached)])
  {
    var e := Joined(s.tasks[k], true, answered, reached);
    JoinAnswered(s, JoinedOk(s, k, answered, reached).hadOk, e, log);
    JoinVerdict(cfg, s, k, e, log);
  }

  lemma ErrJudged(cfg: Settings, s: Run, k: nat, e: Entry, log: seq<Entry>)
    requires Counts(cfg, s, log) && s.phase.Looping? && Judged(cfg, s, log) && k < |s.tasks|
    requires e.Joined? && e.probe == s.tasks[k] && !e.ok
    ensures var t, log' := JoinedErr(s, k, false), log + [e];
            && (t.phase.Looping? ==> Judged(cfg, t, log'))
            && (t.phase == Draining(FailedCycles) <==> TrailingFailures(Verdicts(log')) == MAX_FAILED_CYCLES)
            && (t.phase.Looping? || t.phase == Draining(FailedCycles))
  {
    JoinAnswered(s, JoinedErr(s, k, false).hadOk, e, log);
    JoinVerdict(cfg, s, k, e, log);
  }

  /** A reply teaches the loop what it shows, and nothing else does. */
  lemma OkLearned(cfg: Settings, s: Run, k: nat, answered: bool, reached: bool, log: seq<Entry>)
    requires Typed(cfg, s) && Learned(cfg, s, log) && k < |s.tasks|
    ensures Learned(cfg, JoinedOk(s, k, answered, reached), log + [Joined(s.tasks[k], true, answered, reached)])
  {
    var t, e := JoinedOk(s, k, answered, reached), Joined(s.tasks[k], true, answered, reached);
    forall ttl: nat ensures ttl <= cfg.maxHops ==> (t.known[ttl] <==> Seen(log + [e], ttl)) {
      AppendSeen(log, e, ttl);
    }
    if t.destination.Some? {
      AppendSeen(log, e, t.destination.value);
    }
    forall ttl: nat | Reached(log + [e], ttl) ensures t.destination.Some? && t.destination.value <= ttl {
      AppendSeen(log, e, ttl);
    }
  }

  lemma QuietLearned(cfg: Settings, s: Run, t: Run, e: Entry, log: seq<Entry>)
    requires |s.known| == cfg.maxHops + 1 && Learned(cfg, s, log)
    requires t.known == s.known && t.destination == s.destination && (e.Joined? ==> !e.answered && !e.reached)
    ensures Learned(cfg, t, log + [e])
  {
    forall ttl: nat ensures Seen(log + [e], ttl) == Seen(log, ttl) && Reached(log + [e], ttl) == Reached(log, ttl) {
      AppendSeen(log, e, ttl);
    }
  }

  lemma {:induction false} UnknownIsSilent(known: seq<bool>, log: seq<Entry>, first: nat, ttl: nat)
    requires first <= ttl <= |known|
    requires forall t: nat :: t < |known| ==> (known[t] <==> Seen(log, t))
    ensures Unknown(known, first, ttl) == |Silent(log, first, ttl)|
  {
    if first < ttl {
      UnknownIsSilent(known, log, first, ttl - 1);
      assert Silent(log, first, ttl) == Silent(log, first, ttl - 1) + if known[ttl - 1] then {} else {ttl - 1};
    } else {
      assert Silent(log, first, ttl) == {};
    }
  }

  /** The scheduler wraps exactly when the log gives a reason to. */
  lemma WrapsForAReason(cfg: Settings, s: Run, log: seq<Entry>)
    requires Typed(cfg, s) && Learned(cfg, s, log)
    ensures Wraps(cfg.Limits(), s.schedule.ttl, s.known, s.destination) <==> EndsCycle(cfg, log, s.schedule.ttl)
  {
    UnknownIsSilent(s.known, log, cfg.firstTtl, s.schedule.ttl);
  }

  lemma QuietJudged(cfg: Settings, s: Run, entry: Entry, log: seq<Entry>)
    requires |s.hadOk| == cfg.cycles && Judged(cfg, s, log) && !entry.Joined?
    ensures Judged(cfg, s, log + [entry])
  {
    forall d: nat ensures Answered(log + [entry], d) <==> Answered(log, d) {
      AppendEntry(log, entry, d);
    }
    AppendVerdict(log, entry);
    assert Verdicts(log) + [] == Verdicts(log);
  }

  lemma JoinOrdered(cfg: Settings, s: Run, t: Run, entry: Entry, log: seq<Entry>)
    requires Ordered(cfg, s, log) && !entry.SentProbe? && t.schedule == s.schedule
    ensures Ordered(cfg, t, log + [entry])
  {
    AppendVerdict(log, entry);
    assert SentProbes(log) + [] == SentProbes(log);
  }

  lemma OkInLoop(cfg: Settings, s: Run, k: nat, answered: bool, reached: bool, log: seq<Entry>)
    requires Inv(cfg, s, log) && s.phase.Looping? && k < |s.tasks|
    ensures Inv(cfg, JoinedOk(s, k, answered, reached), log + [Joined(s.tasks[k], true, answered, reached)])
  {
    var t, entry := JoinedOk(s, k, answered, reached), Joined(s.tasks[k], true, answered, reached);
    SettleCounts(cfg, s, k, entry, log);
    JoinOrdered(cfg, s, t, entry, log);
    AppendExplained(cfg, log, entry);
    OkJudged(cfg, s, k, answered, reached, log);
    OkLearned(cfg, s, k, answered, reached, log);
    OkCounts(cfg, s, k, answered, reached, log + [entry]);
  }

  /** What a reply changes beside the counters. */
  lemma OkCounts(cfg: Settings, s: Run, k: nat, answered: bool, reached: bool, log: seq<Entry>)
    requires Typed(cfg, s) && k < |s.tasks| && Counts(cfg, Settle(s, k), log)
    ensures Counts(cfg, JoinedOk(s, k, answered, reached), log)
  {
  }

  lemma ErrInLoop(cfg: Settings, s: Run, k: nat, fatal: bool, entry: Entry, log: seq<Entry>)
    requires Inv(cfg, s, log) && s.phase.Looping? && k < |s.tasks|
    requires entry == Joined(s.tasks[k], false, false, false)
    ensures Inv(cfg, JoinedErr(s, k, fatal), log + [entry])
  {
    var t := JoinedErr(s, k, fatal);
    SettleCounts(cfg, s, k, entry, log);
    JoinOrdered(cfg, s, t, entry, log);
    AppendExplained(cfg, log, entry);
    if !fatal {
      ErrJudged(cfg, s, k, entry, log);
      QuietLearned(cfg, s, t, entry, log);
    }
  }

  lemma JoinInDrain(cfg: Settings, s: Run, k: nat, entry: Entry, log: seq<Entry>)
    requires Inv(cfg, s, log) && s.phase.Draining? && k < |s.tasks|
    requires entry.Joined? && entry.probe == s.tasks[k]
    ensures Inv(cfg, Settle(s, k), log + [entry])
  {
    SettleCounts(cfg, s, k, entry, log);
    JoinOrdered(cfg, s, Settle(s, k), entry, log);
    AppendExplained(cfg, log, entry);
  }

  lemma JoinKeepsInv(cfg: Settings, s: Run, e: Event, log: seq<Entry>)
    requires Inv(cfg, s, log) && Enabled(cfg, s, e) && (e.JoinOk? || e.JoinErr?)
    ensures Inv(cfg, Step(cfg, s, e), log + Record(cfg, s, e))
  {
    if s.phase.Draining? {
      JoinInDrain(cfg, s, e.task, Record(cfg, s, e)[0], log);
    } else if e.JoinOk? {
      OkInLoop(cfg, s, e.task, e.answered, e.reached, log);
    } else {
      ErrInLoop(cfg, s, e.task, e.fatal, Record(cfg, s, e)[0], log);
    }
  }

  lemma PanicKeepsInv(cfg: Settings, s: Run, e: Event, log: seq<Entry>)
    requires Inv(cfg, s, log) && Enabled(cfg, s, e) && e.JoinPanic?
    ensures Inv(cfg, Step(cfg, s, e), log + Record(cfg, s, e))
  {
    LostCounts(cfg, s, e.task, log);
    JoinOrdered(cfg, s, Step(cfg, s, e), Lost(s.tasks[e.task]), log);
    AppendExplained(cfg, log, Lost(s.tasks[e.task]));
  }

  lemma TimerKeepsInv(cfg: Settings, s: Run, e: Event, log: seq<Entry>)
    requires Inv(cfg, s, log) && Enabled(cfg, s, e) && e.Timer?
    ensures Inv(cfg, Step(cfg, s, e), log + Record(cfg, s, e))
  {
    if |s.tasks| < MAX_OUTSTANDING_PROBES {
      var entry := Record(cfg, s, e)[0];
      SentCounts(cfg, s, e.now, log);
      SentOrdered(cfg, s, e.now, log);
      WrapsForAReason(cfg, s, log);
      AppendExplained(cfg, log, entry);
      QuietJudged(cfg, s, entry, log);
      QuietLearned(cfg, s, Step(cfg, s, e), entry, log);
    } else {
      assert log + [] == log;
    }
  }

  lemma StepKeepsInv(cfg: Settings, s: Run, e: Event, log: seq<Entry>)
    requires Inv(cfg, s, log)
    ensures Inv(cfg, Step(cfg, s, e), log + Record(cfg, s, e))
  {
    if Enabled(cfg, s, e) && (e.JoinOk? || e.JoinErr?) {
      JoinKeepsInv(cfg, s, e, log);
    } else if Enabled(cfg, s, e) && e.JoinPanic? {
      PanicKeepsInv(cfg, s, e, log);
    } else if Enabled(cfg, s, e) && e.Timer? {
      TimerKeepsInv(cfg, s, e, log);
    } else {
      assert log + [] == log;
    }
  }

  lemma BeginInv(cfg: Settings, start: nat)
    requires cfg.Valid()
    ensures Inv(cfg, Begin(cfg, start), [])
  {
    assert [] + [Probe(0, cfg.firstTtl)] == [Probe(0, cfg.firstTtl)];
    assert DrainedCycles(Begin(cfg, start).pending, 0) == {};
  }

  // ---------------------------------------------------------------------------------------
  // Whole runs
  // ---------------------------------------------------------------------------------------

  datatype Observed = Observed(run: Run, log: seq<Entry>)

  /** The state and the log after a sequence of events. */
  ghost function Execute(cfg: Settings, start: nat, events: seq<Event>): Observed
    requires cfg.Valid()
    decreases |events|, 0
  {
    if events == [] then Observed(Begin(cfg, start), [])
    else
      var init, e := events[..|events| - 1], events[|events| - 1];
      var before := Execute(cfg, start, init);
      ReachableInv(cfg, start, init);
      Observed(Step(cfg, before.run, e), before.log + Record(cfg, before.run, e))
  }

  /** The invariant holds in every reachable state. */
  lemma {:induction false} ReachableInv(cfg: Settings, start: nat, events: seq<Event>)
    requires cfg.Valid()
    ensures Inv(cfg, Execute(cfg, start, events).run, Execute(cfg, start, events).log)
    decreases |events|, 1
  {
    if events == [] {
      BeginInv(cfg, start);
    } else {
      var init, e := events[..|events| - 1], events[|events| - 1];
      var before := Execute(cfg, start, init);
      ReachableInv(cfg, start, init);
      StepKeepsInv(cfg, before.run, e, before.log);
    }
  }

  /** In every interleaving, `completed_cycles` is the number of cycles that were fully sent and
      fully joined, each counted once, and it never exceeds the plan. */
  lemma CompletedCyclesAreDone(cfg: Settings, start: nat, events: seq<Event>)
    requires cfg.Valid()
    ensures var o := Execute(cfg, start, events);
            && o.run.completed == |DoneCycles(o.log, cfg.cycles)| <= o.run.schedule.cycles <= cfg.cycles
            && |o.run.tasks| <= 512
  {
    var o := Execute(cfg, start, events);
    ReachableInv(cfg, start, events);
    assert DoneCycles(o.log, cfg.cycles) == DrainedCycles(o.run.pending, o.run.schedule.cycles);
    DrainedAtMost(o.run.pending, o.run.schedule.cycles);
  }

  lemma {:induction false} DrainedAtMost(pending: seq<nat>, n: nat)
    requires n <= |pending|
    ensures |DrainedCycles(pending, n)| <= n
  {
    if n == 0 {
      assert DrainedCycles(pending, 0) == {};
    } else {
      DrainedAtMost(pending, n - 1);
      assert DrainedCycles(pending, n) ==
             DrainedCycles(pending, n - 1) + if pending[n - 1] == 0 then {n - 1} else {};
    }
  }

  /** While the loop runs, the streak is the trailing run of finished cycles in which every probe
      failed, and it is below the limit. */
  lemma StreakIsTrailingFailures(cfg: Settings, start: nat, events: seq<Event>)
    requires cfg.Valid()
    ensures var o := Execute(cfg, start, events);
            o.run.phase.Looping? ==> o.run.streak == TrailingFailures(Verdicts(o.log)) < 3
  {
    ReachableInv(cfg, start, events);
  }

  /** However replies arrive, a probe closes its cycle exactly when, before it was sent, the destination
      had answered at no larger TTL, more than 12 of the hops before it were silent, or it is at the hop
      limit; and while the loop runs it knows the nearest TTL at which the destination answered. */
  lemma CyclesEndForAReason(cfg: Settings, start: nat, events: seq<Event>)
    requires cfg.Valid()
    ensures var o := Execute(cfg, start, events);
            && (forall i: nat :: i < |o.log| && o.log[i].SentProbe? ==>
                  (o.log[i].closes <==> EndsCycle(cfg, o.log[..i], o.log[i].probe.ttl)))
            && (o.run.phase.Looping? ==> Nearest(o.log, o.run.destination))
  {
    ReachableInv(cfg, start, events);
    var o := Execute(cfg, start, events);
    forall i: nat | i < |o.log| && o.log[i].SentProbe?
      ensures o.log[i].closes <==> EndsCycle(cfg, o.log[..i], o.log[i].probe.ttl)
    {
      assert Explained(cfg, o.log, i);
    }
  }

  lemma OnlyErrorsCountAsFailures(cfg: Settings, s: Run, e: Event)
    requires Typed(cfg, s) && s.phase.Looping? && Step(cfg, s, e).phase == Draining(FailedCycles)
    ensures Enabled(cfg, s, e) && e.JoinErr? && !e.fatal
  {
  }

  lemma ThirdFailure(cfg: Settings, s: Run, e: Event, log: seq<Entry>)
    requires Inv(cfg, s, log) && s.phase.Looping? && Enabled(cfg, s, e) && e.JoinErr? && !e.fatal
    ensures Step(cfg, s, e).phase == Draining(FailedCycles) <==>
            TrailingFailures(Verdicts(log + Record(cfg, s, e))) == 3
  {
    ErrJudged(cfg, s, e.task, Record(cfg, s, e)[0], log);
    assert Step(cfg, s, e) == JoinedErr(s, e.task, false);
    assert Record(cfg, s, e) == [Record(cfg, s, e)[0]];
  }

  /** The loop gives up on failed cycles exactly at the join that completes the third one in a row. */
  lemma StopsAtThirdFailedCycle(cfg: Settings, start: nat, events: seq<Event>, e: Event)
    requires cfg.Valid()
    requires Execute(cfg, start, events).run.phase.Looping?
    ensures var before, after := Execute(cfg, start, events), Execute(cfg, start, events + [e]);
            after.run.phase == Draining(FailedCycles) <==>
              && Enabled(cfg, before.run, e) && e.JoinErr? && !e.fatal
              && TrailingFailures(Verdicts(after.log)) == 3
  {
    var Observed(s, log) := Execute(cfg, start, events);
    ReachableInv(cfg, start, events);
    assert (events + [e])[..|events|] == events;
    if Step(cfg, s, e).phase == Draining(FailedCycles) {
      OnlyErrorsCountAsFailures(cfg, s, e);
    }
    if Enabled(cfg, s, e) && e.JoinErr? && !e.fatal {
      ThirdFailure(cfg, s, e, log);
    }
  }

  // ---------------------------------------------------------------------------------------
  // Stopping and sending
  // ---------------------------------------------------------------------------------------

  /** The event that makes a looping run stop for this reason. `after` is the log with the event. */
  ghost predicate StopsFor(cfg: Settings, before: Observed, e: Event, after: seq<Entry>, why: Stop) {
    var s := before.run;
    match why
    case Cancelled => e == Cancel
    case TimedOut => e == RunDeadline
    case GraceExpired => e == GraceDeadline && forall c: nat :: c < cfg.cycles ==> Closed(before.log, c)
    case FatalProbe => e.JoinErr? && e.fatal && e.task < |s.tasks|
    case FailedCycles =>
      e.JoinErr? && !e.fatal && e.task < |s.tasks| && TrailingFailures(Verdicts(after)) == 3
    case TaskPanicked => e.JoinPanic? && e.task < |s.tasks|
    case ConcurrencyLimit =>
      && e.Timer? && s.schedule.deadline <= e.now && |s.tasks| == 512
      && exists c: nat :: c < cfg.cycles && !Closed(before.log, c)
  }

  lemma Continued(cfg: Settings, start: nat, events: seq<Event>, e: Event)
    requires cfg.Valid()
    ensures var before, after := Execute(cfg, start, events), Execute(cfg, start, events + [e]);
            && Inv(cfg, before.run, before.log)
            && after == Observed(Step(cfg, before.run, e), before.log + Record(cfg, before.run, e))
  {
    ReachableInv(cfg, start, events);
    assert (events + [e])[..|events|] == events;
  }

  /** The cycles that are not closed are those the scheduler has yet to finish. */
  lemma AllClosed(cfg: Settings, s: Run, log: seq<Entry>)
    requires Counts(cfg, s, log)
    ensures (forall c: nat :: c < cfg.cycles ==> Closed(log, c)) <==> s.schedule.cycles == cfg.cycles
    ensures (exists c: nat :: c < cfg.cycles && !Closed(log, c)) <==> s.schedule.cycles < cfg.cycles
  {
    if s.schedule.cycles < cfg.cycles {
      assert !Closed(log, s.schedule.cycles);
    }
  }

  lemma StepStopsFor(cfg: Settings, s: Run, log: seq<Entry>, e: Event, why: Stop)
    requires Inv(cfg, s, log) && s.phase.Looping?
    ensures Step(cfg, s, e).phase == Draining(why)
            <==> StopsFor(cfg, Observed(s, log), e, log + Record(cfg, s, e), why)
    ensures !Step(cfg, s, e).phase.Finished?
  {
    AllClosed(cfg, s, log);
    if Enabled(cfg, s, e) && e.JoinErr? && !e.fatal {
      ThirdFailure(cfg, s, e, log);
      OnlyFailedCycles(s, e.task);
    }
  }

  lemma OnlyFailedCycles(s: Run, k: nat)
    requires k < |s.tasks| && s.tasks[k].cycle < |s.pending| == |s.hadOk| && s.pending[s.tasks[k].cycle] > 0
    requires s.phase.Looping?
    ensures JoinedErr(s, k, false).phase in {Looping, Draining(FailedCycles)}
  {
  }

  /** A looping run leaves the loop for a reason if and only if the event is the one that gives it. */
  lemma StopsExactlyFor(cfg: Settings, start: nat, events: seq<Event>, e: Event, why: Stop)
    requires cfg.Valid() && Execute(cfg, start, events).run.phase.Looping?
    ensures var before, after := Execute(cfg, start, events), Execute(cfg, start, events + [e]);
            && (after.run.phase == Draining(why) <==> StopsFor(cfg, before, e, after.log, why))
            && (after.run.phase.Looping? || after.run.phase.Draining?)
  {
    Continued(cfg, start, events, e);
    var before := Execute(cfg, start, events);
    StepStopsFor(cfg, before.run, before.log, e, why);
  }

  /** The timer of a looping run is due, cycles are left, and fewer than 512 probes are outstanding. */
  ghost predicate Sends(cfg: Settings, s: Run, e: Event) {
    && s.phase.Looping? && e.Timer? && s.schedule.deadline <= e.now
    && s.schedule.cycles < cfg.cycles && |s.tasks| < 512
  }

  lemma StepSends(cfg: Settings, s: Run, e: Event)
    requires Typed(cfg, s)
    ensures Sends(cfg, s, e) ==>
              && Step(cfg, s, e) == Sent(cfg, s, e.now)
              && Record(cfg, s, e) == [SentProbe(Probe(s.schedule.cycles, s.schedule.ttl),
                                                 Wraps(cfg.Limits(), s.schedule.ttl, s.known, s.destination))]
    ensures !Sends(cfg, s, e) ==>
              && Step(cfg, s, e).schedule == s.schedule
              && (Record(cfg, s, e) == []
                  || (|Record(cfg, s, e)| == 1 && !Record(cfg, s, e)[0].SentProbe?))
  {
  }

  lemma LogSends(log: seq<Entry>, entries: seq<Entry>)
    requires |entries| <= 1
    ensures SentProbes(log + entries)
            == SentProbes(log) + if entries != [] && entries[0].SentProbe? then [entries[0].probe] else []
  {
    if entries == [] {
      assert log + entries == log;
    } else {
      assert entries == [entries[0]];
      AppendVerdict(log, entries[0]);
    }
  }

  /** The gap is one host's share of the interval, up to the nanoseconds the division drops. */
  ghost predicate Share(interval: nat, hosts: nat, gap: int) {
    hosts > 0 && gap >= 0 && hosts * gap <= interval < hosts * gap + hosts
  }

  lemma SentShares(cfg: Settings, s: Run, now: nat)
    requires Typed(cfg, s) && s.schedule.cycles < cfg.cycles
    ensures var next := Sent(cfg, s, now).schedule; Share(cfg.interval, next.hosts, next.deadline - now)
  {
    NextDeadlineFollowsTheSend(cfg.Limits(), s.schedule, now, s.known, s.destination);
  }

  /** What an event adds to the sent probes: a probe leaves exactly when it is due; it is the one the
      schedule names, and the next one is due one host's share of the interval after it. */
  ghost predicate SendsWhenDue(cfg: Settings, before: Observed, e: Event, after: Observed) {
    var due, next := before.run.schedule, after.run.schedule;
    if Sends(cfg, before.run, e) then
      && SentProbes(after.log) == SentProbes(before.log) + [Probe(due.cycles, due.ttl)]
      && Share(cfg.interval, next.hosts, next.deadline - e.now)
    else SentProbes(after.log) == SentProbes(before.log) && next == due
  }

  lemma StepSendsWhenDue(cfg: Settings, s: Run, log: seq<Entry>, e: Event)
    requires Typed(cfg, s)
    ensures SendsWhenDue(cfg, Observed(s, log), e, Observed(Step(cfg, s, e), log + Record(cfg, s, e)))
  {
    StepSends(cfg, s, e);
    LogSends(log, Record(cfg, s, e));
    if Sends(cfg, s, e) {
      SentShares(cfg, s, e.now);
    }
  }

  lemma SendsExactlyWhenDue(cfg: Settings, start: nat, events: seq<Event>, e: Event)
    requires cfg.Valid()
    ensures SendsWhenDue(cfg, Execute(cfg, start, events), e, Execute(cfg, start, events + [e]))
  {
    Continued(cfg, start, events, e);
    var before := Execute(cfg, start, events);
    StepSendsWhenDue(cfg, before.run, before.log, e);
  }

  /** The reason for which a run has stopped. */
  function Why(phase: Phase): Option<Stop> {
    match phase
    case Looping => None
    case Draining(why) => Some(why)
    case Finished(why) => Some(why)
  }

  lemma StepStaysStopped(cfg: Settings, s: Run, e: Event)
    requires Typed(cfg, s) && !s.phase.Looping?
    ensures Why(Step(cfg, s, e).phase) == Why(s.phase) && !Step(cfg, s, e).phase.Looping?
    ensures !Sends(cfg, s, e)
  {
  }

  /** Once a run has stopped it stays stopped for that reason, and whatever happens then sends no probe. */
  lemma {:induction false} StoppedForGood(cfg: Settings, start: nat, events: seq<Event>, more: seq<Event>)
    requires cfg.Valid() && !Execute(cfg, start, events).run.phase.Looping?
    ensures var before, after := Execute(cfg, start, events), Execute(cfg, start, events + more);
            && !after.run.phase.Looping? && Why(after.run.phase) == Why(before.run.phase)
            && SentProbes(after.log) == SentProbes(before.log)
    decreases |more|
  {
    if more == [] {
      assert events + more == events;
    } else {
      var init, e := more[..|more| - 1], more[|more| - 1];
      StoppedForGood(cfg, start, events, init);
      assert events + more == (events + init) + [e];
      OneMoreEvent(cfg, start, events + init, e);
    }
  }

  lemma OneMoreEvent(cfg: Settings, start: nat, events: seq<Event>, e: Event)
    requires cfg.Valid() && !Execute(cfg, start, events).run.phase.Looping?
    ensures var before, after := Execute(cfg, start, events), Execute(cfg, start, events + [e]);
            && !after.run.phase.Looping? && Why(after.run.phase) == Why(before.run.phase)
            && SentProbes(after.log) == SentProbes(before.log)
  {
    Continued(cfg, start, events, e);
    StepStaysStopped(cfg, Execute(cfg, start, events).run, e);
    SendsExactlyWhenDue(cfg, start, events, e);
  }

  /** The drain ends with the last join or at its deadline. */
  lemma DrainEnds(cfg: Settings, start: nat, events: seq<Event>)
    requires cfg.Valid() && !Execute(cfg, start, events).run.phase.Looping?
    ensures Over(Execute(cfg, start, events + [ShutdownDeadline]).run)
  {
    Continued(cfg, start, events, ShutdownDeadline);
  }

  // ---------------------------------------------------------------------------------------
  // The outstanding probes
  // ---------------------------------------------------------------------------------------

  /** The probes whose tasks were joined or lost. */
  function Ended(log: seq<Entry>): seq<Probe> {
    if log == [] then []
    else
      var e := log[|log| - 1];
      Ended(log[..|log| - 1]) + if e.SentProbe? then [] else [e.probe]
  }

  lemma AppendEnded(log: seq<Entry>, e: Entry)
    ensures Ended(log + [e]) == Ended(log) + if e.SentProbe? then [] else [e.probe]
  {
    assert (log + [e])[..|log|] == log;
  }

  /** Every sent probe is either outstanding or has ended, exactly once. */
  ghost predicate Accounted(s: Run, log: seq<Entry>) {
    multiset(s.tasks) + multiset(Ended(log)) == multiset(SentProbes(log))
  }

  lemma TaskEnds(tasks: seq<Probe>, k: nat, ended: seq<Probe>)
    requires k < |tasks|
    ensures multiset(Remove(tasks, k)) + multiset(ended + [tasks[k]]) == multiset(tasks) + multiset(ended)
  {
    assert tasks == tasks[..k] + [tasks[k]] + tasks[k + 1..];
    assert multiset(tasks) == multiset(Remove(tasks, k)) + multiset{tasks[k]};
    assert multiset(ended + [tasks[k]]) == multiset(ended) + multiset{tasks[k]};
  }

  /** What an event does to the tasks is what it records. */
  lemma StepTasks(cfg: Settings, s: Run, e: Event)
    requires Typed(cfg, s)
    ensures var t, entries := Step(cfg, s, e), Record(cfg, s, e);
            || (entries == [] && t.tasks == s.tasks)
            || (|entries| == 1 && entries[0].SentProbe? && t.tasks == s.tasks + [entries[0].probe])
            || (&& |entries| == 1 && !entries[0].SentProbe?
                && exists k: nat :: k < |s.tasks| && entries[0].probe == s.tasks[k] && t.tasks == Remove(s.tasks, k))
  {
    StepSends(cfg, s, e);
    if Enabled(cfg, s, e) && (e.JoinOk? || e.JoinErr? || e.JoinPanic?) {
      assert Record(cfg, s, e)[0].probe == s.tasks[e.task];
      assert Step(cfg, s, e).tasks == Remove(s.tasks, e.task);
    }
  }

  lemma StepAccounts(cfg: Settings, s: Run, e: Event, log: seq<Entry>)
    requires Typed(cfg, s) && Accounted(s, log)
    ensures Accounted(Step(cfg, s, e), log + Record(cfg, s, e))
  {
    StepTasks(cfg, s, e);
    TasksAccount(s, Step(cfg, s, e), log, Record(cfg, s, e));
  }

  lemma TasksAccount(s: Run, t: Run, log: seq<Entry>, entries: seq<Entry>)
    requires Accounted(s, log)
    requires || (entries == [] && t.tasks == s.tasks)
             || (|entries| == 1 && entries[0].SentProbe? && t.tasks == s.tasks + [entries[0].probe])
             || (&& |entries| == 1 && !entries[0].SentProbe?
                 && exists k: nat :: k < |s.tasks| && entries[0].probe == s.tasks[k] && t.tasks == Remove(s.tasks, k))
    ensures Accounted(t, log + entries)
  {
    LogSends(log, entries);
    if entries == [] {
      assert log + entries == log;
    } else {
      assert entries == [entries[0]];
      AppendEnded(log, entries[0]);
      assert Ended(log) + [] == Ended(log) && SentProbes(log) + [] == SentProbes(log);
      if !entries[0].SentProbe? {
        var k: nat :| k < |s.tasks| && entries[0].probe == s.tasks[k] && t.tasks == Remove(s.tasks, k);
        TaskEnds(s.tasks, k, Ended(log));
      }
    }
  }

  /** In every run the outstanding tasks are exactly the sent probes that were neither joined nor lost. */
  lemma {:induction false} TasksAreOutstanding(cfg: Settings, start: nat, events: seq<Event>)
    requires cfg.Valid()
    ensures var o := Execute(cfg, start, events);
            multiset(o.run.tasks) + multiset(Ended(o.log)) == multiset(SentProbes(o.log))
  {
    if events != [] {
      var init, e := events[..|events| - 1], events[|events| - 1];
      TasksAreOutstanding(cfg, start, init);
      Continued(cfg, start, init, e);
      assert events == init + [e];
      StepAccounts(cfg, Execute(cfg, start, init).run, e, Execute(cfg, start, init).log);
    }
  }

  // ---------------------------------------------------------------------------------------
  // The loop itself
  // ---------------------------------------------------------------------------------------

  ghost predicate Follows(cfg: Settings, events: seq<Event>, trace: seq<Run>, i: nat)
    requires i < |events| && |trace| == |events| + 1
  {
    Typed(cfg, trace[i]) && trace[i + 1] == Step(cfg, trace[i], events[i])
  }

  /** The states before, between and after the events. */
  ghost predicate IsTrace(cfg: Settings, start: nat, events: seq<Event>, trace: seq<Run>) {
    && |trace| == |events| + 1
    && trace[0] == Begin(cfg, start)
    && forall i: nat {:trigger Follows(cfg, events, trace, i)} :: i < |events| ==> Follows(cfg, events, trace, i)
  }

  lemma {:induction false} TraceOf(cfg: Settings, start: nat, events: seq<Event>) returns (trace: seq<Run>)
    requires cfg.Valid()
    ensures IsTrace(cfg, start, events, trace) && trace[|events|] == Execute(cfg, start, events).run
  {
    if events == [] {
      trace := [Begin(cfg, start)];
    } else {
      var init := events[..|events| - 1];
      var before := TraceOf(cfg, start, init);
      ReachableInv(cfg, start, init);
      trace := before + [Execute(cfg, start, events).run];
      forall i: nat | i < |events| ensures Follows(cfg, events, trace, i) {
        assert i < |init| ==> Follows(cfg, init, before, i);
      }
    }
  }

  predicate Over(s: Run) {
    s.phase.Finished? || (s.phase.Draining? && s.tasks == [])
  }

  /** Once the drain has nothing left to wait for, no event has any effect. */
  lemma {:induction false} FinalState(cfg: Settings, start: nat, events: seq<Event>, trace: seq<Run>, n: nat)
    requires IsTrace(cfg, start, events, trace) && n <= |events| && Over(trace[n])
    ensures trace[|events|] == trace[n]
    decreases |events| - n
  {
    if n < |events| {
      assert Follows(cfg, events, trace, n);
      FinalState(cfg, start, events, trace, n + 1);
    }
  }

  /** The probe loop and the drain that follows it, over the mutable state the source keeps. */
  class Loop {
    const cfg: Settings
    const cadence: Cadence
    const pending: array<nat>
    const known: array<bool>
    const hadOk: array<bool>
    var tasks: seq<Probe>
    var completed: nat
    var destination: Option<nat>
    var streak: nat

    function View(phase: Phase): Run
      reads this, cadence, pending, known, hadOk
    {
      Run(phase, cadence.View(), tasks, pending[..], completed, destination, known[..], hadOk[..], streak)
    }

    ghost predicate Separate() {
      known != hadOk && cadence.limits == cfg.Limits()
    }

    constructor (cfg: Settings, start: nat)
      requires cfg.Valid()
      ensures this.cfg == cfg && Separate() && View(Looping) == Begin(cfg, start)
      ensures fresh(this) && fresh(cadence) && fresh(pending) && fresh(known) && fresh(hadOk)
    {
      this.cfg := cfg;
      cadence := new Cadence(start, cfg.Limits());
      pending := new nat[cfg.cycles](_ => 0);
      known := new bool[cfg.maxHops + 1](_ => false);
      hadOk := new bool[cfg.cycles](_ => false);
      tasks, completed, destination, streak := [], 0, None, 0;
      new;
      assert pending[..] == Zeros(cfg.cycles);
      assert known[..] == Falses(cfg.maxHops + 1);
      assert hadOk[..] == Falses(cfg.cycles);
    }

    method Take(k: nat, phase: Phase) returns (probe: Probe, finished: bool)
      requires Separate() && Typed(cfg, View(phase)) && k < |tasks|
      modifies this, pending
      ensures View(phase) == Settle(old(View(phase)), k)
      ensures probe == old(tasks[k])
      ensures finished <==> probe.cycle < cadence.cycles && pending[probe.cycle] == 0
    {
      probe := tasks[k];
      tasks := Remove(tasks, k);
      pending[probe.cycle] := pending[probe.cycle] - 1;
      finished := probe.cycle < cadence.cycles && pending[probe.cycle] == 0;
      if finished {
        completed := completed + 1;
      }
    }

    method Success(k: nat, answered: bool, reached: bool)
      requires Separate() && Typed(cfg, View(Looping)) && k < |tasks|
      modifies this, pending, known, hadOk
      ensures View(Looping) == JoinedOk(old(View(Looping)), k, answered, reached)
    {
      var probe, finished := Take(k, Looping);
      hadOk[probe.cycle] := true;
      known[probe.ttl] := known[probe.ttl] || answered;
      if reached {
        destination := Some(if destination.Some? then Min(destination.value, probe.ttl) else probe.ttl);
      }
      if finished {
        streak := 0;
      }
    }

    method Failure(k: nat, fatal: bool) returns (stop: Option<Stop>)
      requires Separate() && Typed(cfg, View(Looping)) && k < |tasks|
      modifies this, pending
      ensures View(if stop.Some? then Draining(stop.value) else Looping) == JoinedErr(old(View(Looping)), k, fatal)
    {
      var probe, finished := Take(k, Looping);
      stop := None;
      if fatal {
        return Some(FatalProbe);
      }
      if finished && !hadOk[probe.cycle] {
        streak := streak + 1;
        if streak >= MAX_FAILED_CYCLES {
          return Some(FailedCycles);
        }
      }
      if finished && hadOk[probe.cycle] {
        streak := 0;
      }
    }

    method Send(now: nat)
      requires Separate() && Typed(cfg, View(Looping)) && cadence.cycles < cfg.cycles
      modifies this, cadence, pending
      ensures View(Looping) == Sent(cfg, old(View(Looping)), now)
    {
      var cycle := cadence.cycles;
      pending[cycle] := pending[cycle] + 1;
      tasks := tasks + [Probe(cycle, cadence.ttl)];
      cadence.Dispatched(now, known, destination);
    }

    /** One pass through the select of the probe loop. */
    method React(e: Event) returns (stop: Option<Stop>)
      requires Separate() && Typed(cfg, View(Looping))
      modifies this, cadence, pending, known, hadOk
      ensures View(if stop.Some? then Draining(stop.value) else Looping) == Step(cfg, old(View(Looping)), e)
    {
      stop := None;
      match e
      case Cancel => stop := Some(Cancelled);
      case RunDeadline => stop := Some(TimedOut);
      case GraceDeadline =>
        if cadence.cycles == cfg.cycles {
          stop := Some(GraceExpired);
        }
      case JoinOk(k, answered, reached) =>
        if k < |tasks| {
          Success(k, answered, reached);
        }
      case JoinErr(k, fatal) =>
        if k < |tasks| {
          stop := Failure(k, fatal);
        }
      case JoinPanic(k) =>
        if k < |tasks| {
          tasks := Remove(tasks, k);
          stop := Some(TaskPanicked);
        }
      case Timer(now) =>
        if cadence.cycles < cfg.cycles && cadence.deadline <= now {
          if |tasks| >= MAX_OUTSTANDING_PROBES {
            stop := Some(ConcurrencyLimit);
          } else {
            Send(now);
          }
        }
      case ShutdownDeadline =>
    }

    /** One turn of the drain loop; `aborted` says that the remaining tasks were abandoned. */
    method Drain(why: Stop, e: Event) returns (aborted: bool)
      requires Separate() && Typed(cfg, View(Draining(why))) && tasks != []
      modifies this, pending
      ensures View(if aborted then Finished(why) else Draining(why)) == Step(cfg, old(View(Draining(why))), e)
    {
      aborted := false;
      match e
      case JoinOk(k, _, _) =>
        if k < |tasks| {
          var _, _ := Take(k, Draining(why));
        }
      case JoinErr(k, _) =>
        if k < |tasks| {
          var _, _ := Take(k, Draining(why));
        }
      case JoinPanic(k) =>
        if k < |tasks| {
          tasks := Remove(tasks, k);
        }
      case ShutdownDeadline => aborted := true;
      case _ =>
    }
  }

  /** The probe loop, up to the event at which it stops or runs out of events. */
  method ProbeLoop(loop: Loop, start: nat, events: seq<Event>, ghost trace: seq<Run>)
    returns (stop: Option<Stop>, i: nat)
    requires loop.Separate() && IsTrace(loop.cfg, start, events, trace) && loop.View(Looping) == trace[0]
    modifies loop, loop.cadence, loop.pending, loop.known, loop.hadOk
    ensures i <= |events| && (stop.None? ==> i == |events|)
    ensures loop.View(if stop.Some? then Draining(stop.value) else Looping) == trace[i]
  {
    i := 0;
    stop := None;
    while i < |events| && stop.None?
      invariant i <= |events|
      invariant loop.View(if stop.Some? then Draining(stop.value) else Looping) == trace[i]
    {
      assert Follows(loop.cfg, events, trace, i);
      stop := loop.React(events[i]);
      i := i + 1;
    }
  }

  /** The drain loop over the remaining events. */
  method DrainLoop(loop: Loop, start: nat, why: Stop, events: seq<Event>, ghost trace: seq<Run>, first: nat)
    returns (aborted: bool)
    requires loop.Separate() && IsTrace(loop.cfg, start, events, trace) && first <= |events|
    requires loop.View(Draining(why)) == trace[first]
    modifies loop, loop.pending
    ensures loop.View(if aborted then Finished(why) else Draining(why)) == trace[|events|]
  {
    var i := first;
    aborted := false;
    while i < |events| && loop.tasks != [] && !aborted
      invariant i <= |events|
      invariant loop.View(if aborted then Finished(why) else Draining(why)) == trace[i]
    {
      assert Follows(loop.cfg, events, trace, i);
      aborted := loop.Drain(why, events[i]);
      i := i + 1;
    }
    if i < |events| {
      FinalState(loop.cfg, start, events, trace, i);
    }
  }

  /** Runs the loop over the environment's events and then the drain over the rest of them. */
  method ExecuteRun(cfg: Settings, start: nat, events: seq<Event>) returns (r: Run)
    requires cfg.Valid()
    ensures r == Execute(cfg, start, events).run
  {
    ghost var trace := TraceOf(cfg, start, events);
    var loop := new Loop(cfg, start);
    var stop, i := ProbeLoop(loop, start, events, trace);
    if stop.None? {
      return loop.View(Looping);
    }
    var aborted := DrainLoop(loop, start, stop.value, events, trace, i);
    r := loop.View(if aborted then Finished(stop.value) else Draining(stop.value));
  }
}
