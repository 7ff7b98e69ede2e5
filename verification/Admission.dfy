/** Admission of privileged operations: AdmissionState and ActiveRunGuard of crates/helper/src/server.rs
    under the one-permit semaphore of Service in crates/helper/src/platform/linux.rs.

    Run ids and operations are numbers; an operation's number stands for its cancellation token.
    Instants are nanoseconds, read under the admission lock. */
module Admission {
  import opened Common

  const PENDING_CANCELLATION_TTL := 300_000_000_000
  const MAX_PENDING_CANCELLATIONS := 1024

  datatype Error = Quarantined | Cancelled | Busy

  // ---------------------------------------------------------------------------------------
  // The admission lock's critical sections
  // ---------------------------------------------------------------------------------------

  /** `active` maps a run to the operation executing it; `tokens` are the cancelled operations. */
  datatype State = State(active: map<nat, nat>, pending: map<nat, nat>, quarantined: bool, tokens: set<nat>)

  function Unexpired(pending: map<nat, nat>, now: nat): map<nat, nat> {
    map run | run in pending && pending[run] > now :: pending[run]
  }

  function Admitted(s: State, op: nat, run: nat, now: nat): (State, Result<(), Error>) {
    var t := s.(pending := Unexpired(s.pending, now));
    if t.quarantined then (t, Err(Quarantined))
    else if run in t.pending then (t.(pending := t.pending - {run}, tokens := t.tokens + {op}), Err(Cancelled))
    else if t.active != map[] then (t, Err(Busy))
    else (t.(active := t.active[run := op]), Ok(()))
  }

  function RunCancelled(s: State, run: nat, now: nat): (State, bool) {
    var t := s.(pending := Unexpired(s.pending, now));
    if run in t.active then (t.(tokens := t.tokens + {t.active[run]}), true)
    else if |t.pending| >= MAX_PENDING_CANCELLATIONS then (t.(quarantined := true), false)
    else (t.(pending := t.pending[run := now + PENDING_CANCELLATION_TTL]), false)
  }

  /** The first critical section of ActiveRunGuard::complete. */
  function GuardCompleted(s: State, run: nat): State {
    s.(active := s.active - {run})
  }

  /** The guard's Drop, which also runs when complete() returns. */
  function GuardDropped(s: State, op: nat, run: nat, finished: bool): State {
    s.(tokens := s.tokens + {op}, active := s.active - {run}, quarantined := s.quarantined || !finished)
  }

  class AdmissionState {
    var active: map<nat, nat>
    var pending: map<nat, nat>
    var quarantined: bool
    var tokens: set<nat>

    function View(): State
      reads this
    {
      State(active, pending, quarantined, tokens)
    }

    constructor ()
      ensures View() == State(map[], map[], false, {})
    {
      active, pending, quarantined, tokens := map[], map[], false, {};
    }

    method Admit(op: nat, run: nat, now: nat) returns (r: Result<(), Error>)
      modifies this
      ensures (View(), r) == Admitted(old(View()), op, run, now)
    {
      pending := Unexpired(pending, now);
      if quarantined {
        return Err(Quarantined);
      }
      if run in pending {
        pending := pending - {run};
        tokens := tokens + {op};
        return Err(Cancelled);
      }
      if active != map[] {
        return Err(Busy);
      }
      active := active[run := op];
      r := Ok(());
    }

    method CancelRun(run: nat, now: nat) returns (wasActive: bool)
      modifies this
      ensures (View(), wasActive) == RunCancelled(old(View()), run, now)
    {
      pending := Unexpired(pending, now);
      if run in active {
        tokens := tokens + {active[run]};
        return true;
      }
      if |pending| >= MAX_PENDING_CANCELLATIONS {
        quarantined := true;
        return false;
      }
      pending := pending[run := now + PENDING_CANCELLATION_TTL];
      wasActive := false;
    }

    method Complete(run: nat)
      modifies this
      ensures View() == GuardCompleted(old(View()), run)
    {
      active := active - {run};
    }

    method DropGuard(op: nat, run: nat, finished: bool)
      modifies this
      ensures View() == GuardDropped(old(View()), op, run, finished)
    {
      tokens := tokens + {op};
      active := active - {run};
      if !finished {
        quarantined := true;
      }
    }
  }

  // ---------------------------------------------------------------------------------------
  // The Linux service
  // ---------------------------------------------------------------------------------------

  /** Arrived: holds the permit, not yet admitted. Executing: its guard is live. Completed: complete()
      has left its critical section and the guard's Drop has not run. Released: the guard is gone
      and only the permit is still held. */
  datatype Phase = Arrived | Executing(run: nat) | Completed(run: nat) | Released

  datatype Service = Service(
    state: State, permits: nat, removal: bool, operations: map<nat, Phase>, next: nat, clock: nat)

  const INITIAL := Service(State(map[], map[], false, {}), 1, false, map[], 0, 0)

  datatype Event =
    | CancelRun(run: nat, now: nat)
    | PrepareRemoval
    | AbortRemoval
    | Arrive
    | Reject(op: nat)
    | Admit(op: nat, run: nat, now: nat)
    | Complete(op: nat)
    | DropCompleted(op: nat)
    | Abandon(op: nat)
    | Release(op: nat)

  /** Which events can happen; requests are always answered, the others follow an operation's life. */
  predicate Enabled(s: Service, e: Event) {
    match e
    case CancelRun(_, now) => s.clock <= now
    case Reject(op) => op in s.operations && s.operations[op].Arrived?
    case Admit(op, _, now) => op in s.operations && s.operations[op].Arrived? && s.clock <= now
    case Complete(op) => op in s.operations && s.operations[op].Executing?
    case Abandon(op) => op in s.operations && s.operations[op].Executing?
    case DropCompleted(op) => op in s.operations && s.operations[op].Completed?
    case Release(op) => op in s.operations && s.operations[op].Released?
    case _ => true
  }

  function Step(s: Service, e: Event): Service {
    if !Enabled(s, e) then s else
    match e
    case CancelRun(run, now) => s.(state := RunCancelled(s.state, run, now).0, clock := now)
    case PrepareRemoval =>
      if !s.removal && s.permits > 0 then s.(removal := true, permits := s.permits - 1) else s
    case AbortRemoval =>
      if s.removal then s.(removal := false, permits := s.permits + 1) else s
    case Arrive =>
      if s.permits > 0
      then s.(permits := s.permits - 1, operations := s.operations[s.next := Arrived], next := s.next + 1)
      else s
    case Reject(op) => s.(operations := s.operations[op := Released])
    case Admit(op, run, now) =>
      var (state, r) := Admitted(s.state, op, run, now);
      s.(state := state, clock := now,
         operations := s.operations[op := if r.Ok? then Executing(run) else Released])
    case Complete(op) =>
      var run := s.operations[op].run;
      s.(state := GuardCompleted(s.state, run), operations := s.operations[op := Completed(run)])
    case DropCompleted(op) =>
      s.(state := GuardDropped(s.state, op, s.operations[op].run, true), operations := s.operations[op := Released])
    case Abandon(op) =>
      s.(state := GuardDropped(s.state, op, s.operations[op].run, false), operations := s.operations[op := Released])
    case Release(op) => s.(operations := s.operations - {op}, permits := s.permits + 1)
  }

  function Run(s: Service, events: seq<Event>): Service
    decreases |events|
  {
    if events == [] then s else Run(Step(s, events[0]), events[1..])
  }

  /** The service object. `operations` are the handler futures in flight, each of which owns its permit
      until it returns or is dropped. */
  class LinuxService {
    const admission: AdmissionState
    var permits: nat
    var removal: bool
    var operations: map<nat, Phase>
    var next: nat
    var clock: nat

    function View(): Service
      reads this, admission
    {
      Service(admission.View(), permits, removal, operations, next, clock)
    }

    constructor ()
      ensures View() == INITIAL && fresh(admission)
    {
      admission := new AdmissionState();
      permits, removal, operations, next, clock := 1, false, map[], 0, 0;
    }

    /** Message::CancelRun */
    method CancelRun(run: nat, now: nat) returns (wasActive: bool)
      requires Enabled(View(), Event.CancelRun(run, now))
      modifies this, admission
      ensures View() == Step(old(View()), Event.CancelRun(run, now))
      ensures wasActive == RunCancelled(old(View()).state, run, now).1
    {
      wasActive := admission.CancelRun(run, now);
      clock := now;
    }

    /** Message::PrepareRemoval */
    method Prepare() returns (prepared: bool)
      modifies this
      ensures View() == Step(old(View()), PrepareRemoval) && prepared == removal
    {
      if !removal {
        if permits == 0 {
          return false;
        }
        permits := permits - 1;
        removal := true;
      }
      prepared := true;
    }

    /** Message::AbortRemoval */
    method Abort() returns (released: bool)
      modifies this
      ensures View() == Step(old(View()), AbortRemoval) && released == old(removal)
    {
      released := removal;
      if removal {
        removal := false;
        permits := permits + 1;
      }
    }

    /** Message::Operation, up to the permit. */
    method TryAcquire() returns (op: Option<nat>)
      modifies this
      ensures View() == Step(old(View()), Arrive)
      ensures op == if old(permits) > 0 then Some(old(next)) else None
    {
      if permits == 0 {
        return None;
      }
      permits := permits - 1;
      op := Some(next);
      operations := operations[next := Arrived];
      next := next + 1;
    }

    /** HelperServer::handle up to admit. */
    method Admit(op: nat, run: nat, now: nat) returns (r: Result<(), Error>)
      requires Enabled(View(), Event.Admit(op, run, now))
      modifies this, admission
      ensures View() == Step(old(View()), Event.Admit(op, run, now))
      ensures r == Admitted(old(View()).state, op, run, now).1
    {
      r := admission.Admit(op, run, now);
      clock := now;
      operations := operations[op := if r.Ok? then Executing(run) else Released];
    }

    /** The end of an execution: complete(), its drop, or a drop without it. */
    method Finish(op: nat, e: Event)
      requires Enabled(View(), e)
      requires e == Event.Complete(op) || e == DropCompleted(op) || e == Abandon(op)
      modifies this, admission
      ensures View() == Step(old(View()), e)
    {
      var run := operations[op].run;
      if e.Complete? {
        admission.Complete(run);
        operations := operations[op := Completed(run)];
      } else {
        admission.DropGuard(op, run, e.DropCompleted?);
        operations := operations[op := Released];
      }
    }

    /** The handler returns and its permit is dropped. */
    method Release(op: nat)
      requires Enabled(View(), Event.Release(op))
      modifies this
      ensures View() == Step(old(View()), Event.Release(op))
    {
      operations := operations - {op};
      permits := permits + 1;
    }

    method React(e: Event)
      modifies this, admission
      ensures View() == Step(old(View()), e)
    {
      if !Enabled(View(), e) {
        return;
      }
      match e
      case CancelRun(run, now) => var _ := CancelRun(run, now);
      case PrepareRemoval => var _ := Prepare();
      case AbortRemoval => var _ := Abort();
      case Arrive => var _ := TryAcquire();
      case Reject(op) => operations := operations[op := Released];
      case Admit(op, run, now) => var _ := Admit(op, run, now);
      case Release(op) => Release(op);
      case Complete(op) => Finish(op, e);
      case DropCompleted(op) => Finish(op, e);
      case Abandon(op) => Finish(op, e);
    }
  }

  /** The service follows the transition system through every sequence of events. */
  method Serve(events: seq<Event>) returns (s: Service)
    ensures s == Run(INITIAL, events)
  {
    var service := new LinuxService();
    var i := 0;
    while i < |events|
      invariant i <= |events| && fresh(service) && fresh(service.admission)
      invariant Run(service.View(), events[i..]) == Run(INITIAL, events)
    {
      assert events[i..][0] == events[i] && events[i..][1..] == events[i + 1..];
      service.React(events[i]);
      i := i + 1;
    }
    s := service.View();
  }

  // ---------------------------------------------------------------------------------------
  // Invariants of every run
  // ---------------------------------------------------------------------------------------

  /** One permit in all: free, held by a removal reservation, or held by the operation in flight. */
  ghost predicate OnePermit(s: Service) {
    s.permits + (if s.removal then 1 else 0) + |s.operations| == 1
  }

  /** `active` holds exactly the run of the operation whose guard is live. */
  ghost predicate ActiveIsExecuting(s: Service) {
    && (forall run :: run in s.state.active ==>
          s.state.active[run] in s.operations && s.operations[s.state.active[run]] == Executing(run))
    && (forall op :: op in s.operations && s.operations[op].Executing? ==>
          s.operations[op].run in s.state.active && s.state.active[s.operations[op].run] == op)
  }

  ghost predicate Inv(s: Service) {
    && OnePermit(s)
    && ActiveIsExecuting(s)
    && (forall op :: op in s.operations ==> op < s.next)
    && |s.state.pending| <= MAX_PENDING_CANCELLATIONS
  }

  lemma OnlyOperation(s: Service, op: nat)
    requires OnePermit(s) && op in s.operations
    ensures s.operations.Keys == {op} && s.permits == 0 && !s.removal
  {
    assert |s.operations.Keys| == |s.operations|;
    assert s.operations.Keys == {op} + (s.operations.Keys - {op});
  }

  lemma FewerPending(pending: map<nat, nat>, now: nat)
    ensures |Unexpired(pending, now)| <= |pending|
  {
    var kept := Unexpired(pending, now);
    assert kept.Keys <= pending.Keys;
    assert pending.Keys == kept.Keys + (pending.Keys - kept.Keys);
    assert |kept.Keys| == |kept| && |pending.Keys| == |pending|;
  }

  /** The operation `op` moves on inside the service: the permit count is not touched. */
  lemma SameOperations(s: Service, op: nat, phase: Phase)
    requires OnePermit(s) && op in s.operations
    ensures |s.operations[op := phase]| == |s.operations|
  {
    assert s.operations[op := phase].Keys == s.operations.Keys;
    assert |s.operations[op := phase].Keys| == |s.operations.Keys|;
  }

  /** Requests that do not touch the operation in flight. */
  lemma RequestKeepsInv(s: Service, e: Event)
    requires Inv(s) && (e.CancelRun? || e.PrepareRemoval? || e.AbortRemoval? || e.Arrive?)
    ensures Inv(Step(s, e))
  {
    if e.CancelRun? {
      FewerPending(s.state.pending, e.now);
    }
  }

  lemma FewerWithout(pending: map<nat, nat>, run: nat)
    ensures |pending - {run}| <= |pending|
  {
    if run in pending {
      assert (pending - {run}).Keys == pending.Keys - {run};
      assert |(pending - {run}).Keys| == |pending - {run}| && |pending.Keys| == |pending|;
    } else {
      assert pending - {run} == pending;
    }
  }

  /** While an operation waits to be admitted nothing is active. */
  lemma NothingActive(s: Service, op: nat)
    requires Inv(s) && op in s.operations && !s.operations[op].Executing?
    ensures s.state.active == map[]
  {
    OnlyOperation(s, op);
    assert forall run :: run in s.state.active ==> s.state.active[run] in s.operations;
  }

  lemma AdmitKeepsInv(s: Service, e: Event)
    requires Inv(s) && Enabled(s, e) && e.Admit?
    ensures Inv(Step(s, e))
    ensures s.state.active == map[]
  {
    NothingActive(s, e.op);
    OnlyOperation(s, e.op);
    SameOperations(s, e.op, Step(s, e).operations[e.op]);
    FewerPending(s.state.pending, e.now);
    FewerWithout(Unexpired(s.state.pending, e.now), e.run);
  }

  /** Reject, complete, either drop of the guard, and the release of the permit. */
  lemma ProgressKeepsInv(s: Service, e: Event)
    requires Inv(s) && Enabled(s, e)
    requires e.Reject? || e.Complete? || e.DropCompleted? || e.Abandon? || e.Release?
    ensures Inv(Step(s, e))
  {
    OnlyOperation(s, e.op);
    var t := Step(s, e);
    if e.Release? {
      assert t.operations.Keys == {};
    } else {
      SameOperations(s, e.op, t.operations[e.op]);
    }
    assert forall run :: run in s.state.active ==> s.state.active[run] == e.op;
  }

  lemma StepKeepsInv(s: Service, e: Event)
    requires Inv(s)
    ensures Inv(Step(s, e))
  {
    if Enabled(s, e) {
      match e
      case Admit(_, _, _) => AdmitKeepsInv(s, e);
      case CancelRun(_, _) => RequestKeepsInv(s, e);
      case PrepareRemoval => RequestKeepsInv(s, e);
      case AbortRemoval => RequestKeepsInv(s, e);
      case Arrive => RequestKeepsInv(s, e);
      case _ => ProgressKeepsInv(s, e);
    }
  }

  lemma {:induction false} RunKeepsInv(s: Service, events: seq<Event>)
    requires Inv(s)
    ensures Inv(Run(s, events))
    decreases |events|
  {
    if events != [] {
      StepKeepsInv(s, events[0]);
      RunKeepsInv(Step(s, events[0]), events[1..]);
    }
  }

  /** Some operation is executing the run. */
  ghost predicate IsExecuting(s: Service, run: nat) {
    exists op :: op in s.operations && s.operations[op] == Executing(run)
  }

  /** In every run of the service, free permits, removal reservations and operations in flight add up
      to one, and `active` holds exactly the run being executed, if any. */
  lemma PermitConservation(events: seq<Event>)
    ensures var s := Run(INITIAL, events);
            && s.permits + (if s.removal then 1 else 0) + |s.operations| == 1
            && (forall run :: run in s.state.active <==> IsExecuting(s, run))
            && |s.state.active| <= 1
  {
    RunKeepsInv(INITIAL, events);
    var s := Run(INITIAL, events);
    forall run ensures run in s.state.active <==> IsExecuting(s, run) {
      if run in s.state.active {
        assert s.operations[s.state.active[run]] == Executing(run);
      }
    }
    if run :| run in s.state.active {
      var op := s.state.active[run];
      OnlyOperation(s, op);
      assert s.state.active.Keys == {run} by {
        forall other | other in s.state.active ensures other == run {
          assert s.state.active[other] in s.operations;
        }
      }
      assert |s.state.active.Keys| == |s.state.active|;
    } else {
      assert s.state.active == map[];
    }
  }

  /** The second removal, by the guard's Drop after complete(), never takes away another operation's
      entry: while the guard waits to be dropped, `active` is empty and no other operation can start. */
  lemma DropAfterCompleteIsHarmless(events: seq<Event>, op: nat)
    requires Enabled(Run(INITIAL, events), DropCompleted(op))
    ensures var s := Run(INITIAL, events);
            && s.state.active == map[] == Step(s, DropCompleted(op)).state.active
            && Step(s, DropCompleted(op)).state.quarantined == s.state.quarantined
            && Step(s, Arrive) == s
  {
    RunKeepsInv(INITIAL, events);
    var s := Run(INITIAL, events);
    assert forall run :: run in s.state.active ==> s.state.active[run] in s.operations;
    OnlyOperation(s, op);
  }

  /** Without the permit it would: a second admission of the run between complete() and Drop loses
      its entry, and a third operation is then admitted beside it. */
  lemma DropWithoutPermitEvicts()
    ensures var start := State(map[], map[], false, {});
            var second := Admitted(GuardCompleted(Admitted(start, 1, 9, 0).0, 9), 2, 9, 0);
            var third := Admitted(GuardDropped(second.0, 1, 9, true), 3, 8, 0);
            second.1.Ok? && third.1.Ok?
  {
    var start := State(map[], map[], false, {});
    assert map[][9 := 1] - {9} == map[];
    assert map[][9 := 2] - {9} == map[];
  }

  /** On Linux the lock's own busy check never decides: the permit has already refused. */
  lemma NeverBusy(events: seq<Event>, op: nat, run: nat, now: nat)
    requires Enabled(Run(INITIAL, events), Admit(op, run, now))
    ensures Admitted(Run(INITIAL, events).state, op, run, now).1 != Err(Busy)
  {
    RunKeepsInv(INITIAL, events);
    AdmitKeepsInv(Run(INITIAL, events), Admit(op, run, now));
  }

  // ---------------------------------------------------------------------------------------
  // An undisturbed operation, and removal
  // ---------------------------------------------------------------------------------------

  lemma NothingInFlight(s: Service)
    requires Inv(s) && s.permits > 0
    ensures s.permits == 1 && !s.removal && s.operations == map[] && s.state.active == map[]
  {
    assert forall run :: run in s.state.active ==> s.state.active[run] in s.operations;
  }

  /** From an idle service that is not quarantined, an operation whose run was not cancelled gets the permit,
      is admitted, executes as the one active run, and leaves the service idle again. */
  lemma OperationLifecycle(events: seq<Event>, run: nat, now: nat)
    requires var s := Run(INITIAL, events);
             && s.permits > 0 && !s.state.quarantined && s.clock <= now
             && !(run in s.state.pending && now < s.state.pending[run])
    ensures var s := Run(INITIAL, events);
            var op := s.next;
            var arrived := Step(s, Arrive);
            var admitted := Step(arrived, Event.Admit(op, run, now));
            var completed := Step(admitted, Event.Complete(op));
            var dropped := Step(completed, DropCompleted(op));
            var released := Step(dropped, Event.Release(op));
            && arrived.permits == 0 && arrived.operations == map[op := Arrived]
            && admitted.operations == map[op := Executing(run)] && admitted.state.active == map[run := op]
            && completed.state.active == map[] && !completed.state.quarantined
            && op in dropped.state.tokens && !dropped.state.quarantined
            && released.permits == 1 && released.operations == map[] && released.state.active == map[]
  {
    RunKeepsInv(INITIAL, events);
    var s := Run(INITIAL, events);
    var op := s.next;
    NothingInFlight(s);
    ArriveIdle(s);
    var arrived := Step(s, Arrive);
    AdmitAlone(arrived, op, run, now);
    var admitted := Step(arrived, Event.Admit(op, run, now));
    CompleteAlone(admitted, op, run);
    var completed := Step(admitted, Event.Complete(op));
    DropAlone(completed, op, run);
    ReleaseAlone(Step(completed, DropCompleted(op)), op);
  }

  lemma ArriveIdle(s: Service)
    requires s.permits == 1 && s.operations == map[]
    ensures Step(s, Arrive) == s.(permits := 0, operations := map[s.next := Arrived], next := s.next + 1)
  {
  }

  lemma AdmitAlone(s: Service, op: nat, run: nat, now: nat)
    requires s.operations == map[op := Arrived] && s.state.active == map[]
    requires !s.state.quarantined && s.clock <= now && !(run in s.state.pending && now < s.state.pending[run])
    ensures var t := Step(s, Event.Admit(op, run, now));
            && t.operations == map[op := Executing(run)] && t.state.active == map[run := op]
            && !t.state.quarantined && t.permits == s.permits
  {
  }

  lemma CompleteAlone(s: Service, op: nat, run: nat)
    requires s.operations == map[op := Executing(run)] && s.state.active == map[run := op] && !s.state.quarantined
    ensures var t := Step(s, Event.Complete(op));
            && t.operations == map[op := Completed(run)] && t.state.active == map[]
            && !t.state.quarantined && t.permits == s.permits
  {
    assert map[run := op] - {run} == map[];
  }

  lemma DropAlone(s: Service, op: nat, run: nat)
    requires s.operations == map[op := Completed(run)] && s.state.active == map[] && !s.state.quarantined
    ensures var t := Step(s, DropCompleted(op));
            && t.operations == map[op := Released] && t.state.active == map[] && op in t.state.tokens
            && !t.state.quarantined && t.permits == s.permits
  {
    assert s.state.active - {run} == map[];
  }

  lemma ReleaseAlone(s: Service, op: nat)
    requires s.operations == map[op := Released]
    ensures Step(s, Event.Release(op)) == s.(operations := map[], permits := s.permits + 1)
  {
    assert map[op := Released] - {op} == map[];
  }

  /** Removal can be prepared exactly if nothing is in flight; it then keeps operations out until it is
      aborted, which restores the service. Nothing else is there to abort. */
  lemma RemovalLifecycle(events: seq<Event>)
    ensures var s := Run(INITIAL, events);
            var prepared := Step(s, PrepareRemoval);
            && (prepared.removal <==> s.operations == map[])
            && (prepared.removal ==>
                  && Step(prepared, Arrive) == prepared && Step(prepared, PrepareRemoval) == prepared
                  && Step(prepared, AbortRemoval) == s.(removal := false, permits := 1))
            && (!prepared.removal ==> prepared == s)
            && (!s.removal ==> Step(s, AbortRemoval) == s)
  {
    RunKeepsInv(INITIAL, events);
    var s := Run(INITIAL, events);
    assert |s.operations| == 0 <==> s.operations == map[];
  }

  // ---------------------------------------------------------------------------------------
  // Quarantine
  // ---------------------------------------------------------------------------------------

  /** A cancellation quarantines the service exactly if it has nowhere to go: its run is not executing, and
      1024 cancellations are pending. */
  lemma CancelQuarantines(s: Service, run: nat, now: nat)
    requires Enabled(s, CancelRun(run, now))
    ensures Step(s, CancelRun(run, now)).state.quarantined <==>
            || s.state.quarantined
            || (run !in s.state.active && |map r | r in s.state.pending && now < s.state.pending[r] :: 0| >= 1024)
  {
    var kept, counted := Unexpired(s.state.pending, now), map r | r in s.state.pending && now < s.state.pending[r] :: 0;
    assert kept.Keys == counted.Keys;
    assert |kept| == |kept.Keys| && |counted| == |counted.Keys|;
  }

  lemma QuarantineIsAbsorbing(s: Service, events: seq<Event>)
    requires s.state.quarantined
    ensures Run(s, events).state.quarantined
    decreases |events|
  {
    if events != [] {
      QuarantineIsAbsorbing(Step(s, events[0]), events[1..]);
    }
  }

  /** An operation whose future is dropped unfinished blocks every later admission. */
  lemma AbandonBlocksAdmission(s: Service, op: nat, events: seq<Event>, later: nat, run: nat, now: nat)
    requires Enabled(s, Abandon(op))
    ensures Admitted(Run(Step(s, Abandon(op)), events).state, later, run, now).1 == Err(Quarantined)
    ensures op in Step(s, Abandon(op)).state.tokens
  {
    QuarantineIsAbsorbing(Step(s, Abandon(op)), events);
  }

  // ---------------------------------------------------------------------------------------
  // Cancellation
  // ---------------------------------------------------------------------------------------

  predicate Attempts(s: Service, e: Event, run: nat) {
    Enabled(s, e) && e.Admit? && e.run == run
  }

  /** No event of the list is an admission of the run. */
  predicate NoAttempt(s: Service, events: seq<Event>, run: nat)
    decreases |events|
  {
    events == [] || (!Attempts(s, events[0], run) && NoAttempt(Step(s, events[0]), events[1..], run))
  }

  /** The cancellation of `run` is still in force: recorded until `until` at least, or moot. */
  ghost predicate Held(s: Service, run: nat, until: nat) {
    until <= s.clock + PENDING_CANCELLATION_TTL && (
    || s.state.quarantined
    || until <= s.clock
    || (run in s.state.pending && until <= s.state.pending[run] && run !in s.state.active))
  }

  lemma StepHolds(s: Service, e: Event, run: nat, until: nat)
    requires Inv(s) && Held(s, run, until) && !Attempts(s, e, run)
    ensures Held(Step(s, e), run, until)
  {
  }

  lemma {:induction false} RunHolds(s: Service, events: seq<Event>, run: nat, until: nat)
    requires Inv(s) && Held(s, run, until) && NoAttempt(s, events, run)
    ensures Held(Run(s, events), run, until)
    decreases |events|
  {
    if events != [] {
      StepHolds(s, events[0], run, until);
      StepKeepsInv(s, events[0]);
      RunHolds(Step(s, events[0]), events[1..], run, until);
    }
  }

  lemma HeldRefuses(s: Service, op: nat, run: nat, now: nat, until: nat)
    requires Held(s, run, until) && Enabled(s, Event.Admit(op, run, now)) && now < until
    ensures Admitted(s.state, op, run, now).1 == Err(if s.state.quarantined then Quarantined else Cancelled)
    ensures !Step(s, Event.Admit(op, run, now)).operations[op].Executing?
    ensures !s.state.quarantined ==> op in Step(s, Event.Admit(op, run, now)).state.tokens
  {
  }

  /** A run cancelled before it is admitted stays cancelled for 300 s: whatever happens in between, its
      next admission in that time is refused, as cancelled unless the helper is quarantined. */
  lemma CancelledRunIsRefused(before: seq<Event>, run: nat, now: nat, between: seq<Event>, op: nat, later: nat)
    requires var s := Run(INITIAL, before);
             && Enabled(s, CancelRun(run, now)) && run !in s.state.active
             && NoAttempt(Step(s, CancelRun(run, now)), between, run)
    requires var t := Run(Step(Run(INITIAL, before), CancelRun(run, now)), between);
             Enabled(t, Admit(op, run, later)) && later < now + 300 * 1_000_000_000
    ensures var t := Run(Step(Run(INITIAL, before), CancelRun(run, now)), between);
            && Admitted(t.state, op, run, later).1 == Err(if t.state.quarantined then Quarantined else Cancelled)
            && !Step(t, Admit(op, run, later)).operations[op].Executing?
            && (!t.state.quarantined ==> op in Step(t, Admit(op, run, later)).state.tokens)
  {
    var s, until := Run(INITIAL, before), now + PENDING_CANCELLATION_TTL;
    RunKeepsInv(INITIAL, before);
    CancelHolds(s, run, now);
    RunHolds(Step(s, CancelRun(run, now)), between, run, until);
    HeldRefuses(Run(Step(s, CancelRun(run, now)), between), op, run, later, until);
  }

  lemma CancelHolds(s: Service, run: nat, now: nat)
    requires Inv(s) && Enabled(s, CancelRun(run, now)) && run !in s.state.active
    ensures Inv(Step(s, CancelRun(run, now)))
    ensures Held(Step(s, CancelRun(run, now)), run, now + PENDING_CANCELLATION_TTL)
  {
    StepKeepsInv(s, CancelRun(run, now));
  }

  /** The cancellation of `run` recorded until `until` is one of the events. */
  ghost predicate CancelledBy(events: seq<Event>, run: nat, until: nat) {
    exists i :: 0 <= i < |events| && events[i].CancelRun? && events[i].run == run
      && until == events[i].now + 300 * 1_000_000_000
  }

  lemma StepCause(s: Service, e: Event, run: nat)
    requires run in Step(s, e).state.pending
    ensures var until := Step(s, e).state.pending[run];
            || (run in s.state.pending && s.state.pending[run] == until)
            || (e.CancelRun? && e.run == run && until == e.now + PENDING_CANCELLATION_TTL)
  {
  }

  lemma {:induction false} PendingHasCause(s: Service, events: seq<Event>, run: nat)
    requires run in Run(s, events).state.pending
    ensures var until := Run(s, events).state.pending[run];
            (run in s.state.pending && s.state.pending[run] == until) || CancelledBy(events, run, until)
    decreases |events|
  {
    if events != [] {
      var t, until := Step(s, events[0]), Run(s, events).state.pending[run];
      PendingHasCause(t, events[1..], run);
      if CancelledBy(events[1..], run, until) {
        var i :| 0 <= i < |events| - 1 && events[1..][i].CancelRun? && events[1..][i].run == run
          && until == events[1..][i].now + 300 * 1_000_000_000;
        assert events[i + 1] == events[1..][i];
      } else {
        StepCause(s, events[0], run);
        if !(run in s.state.pending && s.state.pending[run] == until) {
          assert events[0].CancelRun? && events[0].run == run;
        }
      }
    }
  }

  /** An admission is refused as cancelled only if the run was cancelled less than 300 s before. */
  lemma OnlyRecentCancelsRefuse(events: seq<Event>, op: nat, run: nat, now: nat)
    requires Admitted(Run(INITIAL, events).state, op, run, now).1 == Err(Cancelled)
    ensures exists i :: 0 <= i < |events| && events[i].CancelRun? && events[i].run == run
              && now < events[i].now + 300 * 1_000_000_000
  {
    PendingHasCause(INITIAL, events, run);
  }

  /** cancel_run reports true exactly when the run is executing, and then cancels its token. */
  lemma CancelReachesTheExecutingRun(events: seq<Event>, run: nat, now: nat)
    requires Enabled(Run(INITIAL, events), CancelRun(run, now))
    ensures var s := Run(INITIAL, events);
            && (RunCancelled(s.state, run, now).1 <==> IsExecuting(s, run))
            && (forall op :: op in s.operations && s.operations[op] == Executing(run) ==>
                  op in Step(s, CancelRun(run, now)).state.tokens)
  {
    RunKeepsInv(INITIAL, events);
    var s := Run(INITIAL, events);
    if op :| op in s.operations && s.operations[op] == Executing(run) {
      assert run in s.state.active && s.state.active[run] == op;
    }
    if run in s.state.active {
      assert s.operations[s.state.active[run]] == Executing(run);
    }
  }
}
