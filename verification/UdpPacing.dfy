/** The pacing schedule of udp_send in crates/throughput/src/protocol/data.rs.
    Instants and durations are nanoseconds. */
module UdpPacing {
  import opened Common

  const PACER_MAX_BACKLOG := 10_000_000

  datatype Error = IntervalIsZero

  /** How late the timer fires, how long the send takes, and whether the end of the test cuts it off. */
  datatype Lag = Lag(delay: nat, busy: nat, cut: bool)

  function Backlog(interval: nat): nat {
    Max(interval, PACER_MAX_BACKLOG)
  }

  function NextDeadline(deadline: nat, interval: nat, now: nat): nat {
    var next := deadline + interval;
    if now - next > Backlog(interval) then now else next
  }

  /** The sender's clock, the deadline of its next packet, the last sequence number it used, and the
      instants of all packets sent so far. */
  datatype Sender = Sender(now: nat, deadline: nat, sequence: nat, sent: seq<nat>, over: bool)

  function Begin(origin: nat): Sender {
    Sender(origin, origin, 0, [], false)
  }

  function Send(s: Sender, interval: nat, end: nat, lag: Lag): Sender {
    var at := Max(s.now, Min(s.deadline, end)) + lag.delay;
    if s.over then s
    else if at >= end then s.(now := at, over := true)
    else if at + lag.busy >= end && lag.cut then s.(now := end, sequence := s.sequence + 1, over := true)
    else
      var after := at + lag.busy;
      Sender(after, NextDeadline(s.deadline, interval, after), s.sequence + 1, s.sent + [at], false)
  }

  function SendAll(origin: nat, interval: nat, end: nat, lags: seq<Lag>): Sender {
    if lags == [] then Begin(origin)
    else Send(SendAll(origin, interval, end, lags[..|lags| - 1]), interval, end, lags[|lags| - 1])
  }

  lemma NextSend(origin: nat, interval: nat, end: nat, lags: seq<Lag>, i: nat)
    requires i < |lags|
    ensures SendAll(origin, interval, end, lags[..i + 1])
            == Send(SendAll(origin, interval, end, lags[..i]), interval, end, lags[i])
  {
    assert lags[..i + 1][..i] == lags[..i];
  }

  lemma {:induction false} OverIsFinal(origin: nat, interval: nat, end: nat, lags: seq<Lag>, n: nat)
    requires n <= |lags| && (n == |lags| || SendAll(origin, interval, end, lags[..n]).over)
    ensures SendAll(origin, interval, end, lags) == SendAll(origin, interval, end, lags[..n])
    decreases |lags| - n
  {
    if n == |lags| {
      assert lags[..n] == lags;
    } else {
      NextSend(origin, interval, end, lags, n);
      OverIsFinal(origin, interval, end, lags, n + 1);
    }
  }

  /** The body of the send loop: wait for the deadline or the end, send, and set the next deadline. */
  method Turn(s: Sender, interval: nat, end: nat, lag: Lag)
    returns (now: nat, deadline: nat, sequence: nat, sent: seq<nat>, over: bool)
    requires !s.over
    ensures Sender(now, deadline, sequence, sent, over) == Send(s, interval, end, lag)
  {
    deadline, sequence, sent, over := s.deadline, s.sequence, s.sent, true;
    now := Max(s.now, Min(deadline, end)) + lag.delay;
    if now >= end {
      return;
    }
    sequence := sequence + 1;
    if now + lag.busy >= end && lag.cut {
      now := end;
      return;
    }
    sent := sent + [now];
    now := now + lag.busy;
    deadline := NextDeadline(deadline, interval, now);
    over := false;
  }

  /** The send loop; `sent` collects the instants at which packets leave. */
  method UdpSendLoop(origin: nat, interval: nat, end: nat, lags: seq<Lag>)
    returns (r: Result<nat, Error>, sent: seq<nat>)
    ensures r.Err? <==> interval == 0
    ensures r.Ok? ==> r.value == SendAll(origin, interval, end, lags).sequence
    ensures r.Ok? ==> sent == SendAll(origin, interval, end, lags).sent
  {
    sent := [];
    if interval == 0 {
      return Err(IntervalIsZero), sent;
    }
    var now: nat, deadline: nat, sequence: nat, over := origin, origin, 0, false;
    var i := 0;
    while i < |lags| && !over
      invariant i <= |lags|
      invariant SendAll(origin, interval, end, lags[..i]) == Sender(now, deadline, sequence, sent, over)
    {
      NextSend(origin, interval, end, lags, i);
      now, deadline, sequence, sent, over := Turn(Sender(now, deadline, sequence, sent, false), interval, end, lags[i]);
      i := i + 1;
    }
    OverIsFinal(origin, interval, end, lags, i);
    r := Ok(sequence);
  }

  // ---------------------------------------------------------------------------------------
  // Rate and burst bounds
  // ---------------------------------------------------------------------------------------

  /** The deadlines in force for each send, followed by the deadline of the next one. */
  function Deadlines(origin: nat, interval: nat, end: nat, lags: seq<Lag>): seq<nat> {
    if lags == [] then [origin]
    else
      var init := lags[..|lags| - 1];
      var before := SendAll(origin, interval, end, init);
      var after := SendAll(origin, interval, end, lags);
      Deadlines(origin, interval, end, init) + if |after.sent| > |before.sent| then [after.deadline] else []
  }

  /** Deadline k is at least one interval after the one before it. */
  ghost predicate Apart(due: seq<nat>, interval: nat, k: nat) {
    0 < k < |due| ==> due[k - 1] + interval <= due[k]
  }

  /** Send k is not early, and at most one backlog later than the deadline that follows its own. */
  ghost predicate OnTime(due: seq<nat>, sent: seq<nat>, interval: nat, k: nat) {
    k < |sent| && k + 1 < |due| ==> due[k] <= sent[k] <= due[k + 1] + Backlog(interval)
  }

  ghost predicate Paced(due: seq<nat>, sent: seq<nat>, origin: nat, interval: nat) {
    && |due| == |sent| + 1 && due[0] == origin
    && (forall k: nat :: Apart(due, interval, k))
    && (forall k: nat :: OnTime(due, sent, interval, k))
  }

  /** What one send does to the schedule. */
  lemma SendPaces(s: Sender, interval: nat, end: nat, lag: Lag)
    ensures var t := Send(s, interval, end, lag);
            || (t.sent == s.sent && t.deadline == s.deadline)
            || (exists at :: t.sent == s.sent + [at] && s.deadline <= at <= t.deadline + Backlog(interval)
                             && s.deadline + interval <= t.deadline)
  {
    var at := Max(s.now, Min(s.deadline, end)) + lag.delay;
    assert !s.over && at < end ==> s.deadline <= at;
    if Send(s, interval, end, lag).sent != s.sent {
      assert Send(s, interval, end, lag).sent == s.sent + [at];
    }
  }

  lemma PacedAppend(due: seq<nat>, sent: seq<nat>, origin: nat, interval: nat, at: nat, next: nat)
    requires Paced(due, sent, origin, interval)
    requires due[|due| - 1] <= at <= next + Backlog(interval) && due[|due| - 1] + interval <= next
    ensures Paced(due + [next], sent + [at], origin, interval)
  {
    forall k: nat
      ensures Apart(due + [next], interval, k) && OnTime(due + [next], sent + [at], interval, k)
    {
      assert Apart(due, interval, k) && OnTime(due, sent, interval, k);
    }
  }

  lemma {:induction false} RunIsPaced(origin: nat, interval: nat, end: nat, lags: seq<Lag>)
    ensures var s := SendAll(origin, interval, end, lags);
            var due := Deadlines(origin, interval, end, lags);
            Paced(due, s.sent, origin, interval) && due[|due| - 1] == s.deadline
  {
    if lags != [] {
      var init := lags[..|lags| - 1];
      RunIsPaced(origin, interval, end, init);
      var s, t := SendAll(origin, interval, end, init), SendAll(origin, interval, end, lags);
      var due := Deadlines(origin, interval, end, init);
      SendPaces(s, interval, end, lags[|lags| - 1]);
      if t.sent == s.sent {
        assert due + [] == due;
      } else {
        PacedAppend(due, s.sent, origin, interval, t.sent[|s.sent|], t.deadline);
      }
    }
  }

  /** n intervals. */
  function Span(n: nat, interval: nat): nat {
    if n == 0 then 0 else Span(n - 1, interval) + interval
  }

  lemma {:induction false} SpanIsProduct(n: nat, interval: nat)
    ensures Span(n, interval) == n * interval
  {
    if n > 0 {
      SpanIsProduct(n - 1, interval);
      assert n * interval == (n - 1) * interval + interval;
    }
  }

  lemma {:induction false} DeadlinesApart(due: seq<nat>, interval: nat, i: nat, n: nat)
    requires i + n < |due|
    requires forall k: nat :: Apart(due, interval, k)
    ensures due[i] + Span(n, interval) <= due[i + n]
    decreases n
  {
    if n > 0 {
      DeadlinesApart(due, interval, i, n - 1);
      assert Apart(due, interval, i + n);
    }
  }

  /** In any timing, packet k never leaves before origin + k * interval. */
  lemma NeverAheadOfRate(origin: nat, interval: nat, end: nat, lags: seq<Lag>, k: nat)
    requires k < |SendAll(origin, interval, end, lags).sent|
    ensures origin + k * interval <= SendAll(origin, interval, end, lags).sent[k]
  {
    RunIsPaced(origin, interval, end, lags);
    var due, sent := Deadlines(origin, interval, end, lags), SendAll(origin, interval, end, lags).sent;
    DeadlinesApart(due, interval, 0, k);
    assert OnTime(due, sent, interval, k);
    SpanIsProduct(k, interval);
  }

  lemma DivideBound(m: int, x: nat, d: nat)
    requires d > 0 && m * d <= x
    ensures m <= x / d
  {
    var q := x / d;
    assert x == q * d + x % d;
    assert (q + 1) * d == q * d + d;
    if q + 1 <= m {
      ProductOrder(q + 1, m, d);
      assert false;
    }
  }

  lemma PacedBurst(due: seq<nat>, sent: seq<nat>, origin: nat, interval: nat, first: nat, count: nat)
    requires Paced(due, sent, origin, interval) && count > 1 && first + count <= |sent|
    ensures Span(count - 2, interval) <= sent[first + count - 1] - sent[first] + Backlog(interval)
  {
    DeadlinesApart(due, interval, first + 1, count - 2);
    assert OnTime(due, sent, interval, first);
    assert OnTime(due, sent, interval, first + count - 1);
  }

  lemma SpanBound(n: nat, interval: nat, room: nat)
    requires interval > 0 && Span(n, interval) <= room
    ensures n <= room / interval
  {
    SpanIsProduct(n, interval);
    DivideBound(n, room, interval);
  }

  /** In any timing, any `count` consecutive packets that fit in a window of the given length are at
      most (length + max(interval, 10 ms)) / interval + 2: a stall never causes an unbounded burst. */
  lemma BurstBound(origin: nat, interval: nat, end: nat, lags: seq<Lag>, first: nat, count: nat, length: nat)
    requires interval > 0 && count > 0
    requires first + count <= |SendAll(origin, interval, end, lags).sent|
    requires var sent := SendAll(origin, interval, end, lags).sent;
             sent[first + count - 1] <= sent[first] + length
    ensures count <= (length + Backlog(interval)) / interval + 2
  {
    RunIsPaced(origin, interval, end, lags);
    var sent := SendAll(origin, interval, end, lags).sent;
    if count > 1 {
      PacedBurst(Deadlines(origin, interval, end, lags), sent, origin, interval, first, count);
      SpanBound(count - 2, interval, length + Backlog(interval));
    } else {
      SpanBound(0, interval, length + Backlog(interval));
    }
  }

  /** Packets leave in order and before the end; only the packet that the end cuts off takes a
      sequence number without being sent. */
  lemma {:induction false} SendTimes(origin: nat, interval: nat, end: nat, lags: seq<Lag>)
    ensures var s := SendAll(origin, interval, end, lags);
            && (forall k :: 0 <= k < |s.sent| ==> s.sent[k] <= s.now && s.sent[k] < end)
            && (forall j, k :: 0 <= j <= k < |s.sent| ==> s.sent[j] <= s.sent[k])
            && |s.sent| <= s.sequence <= |s.sent| + (if s.over then 1 else 0)
  {
    if lags != [] {
      SendTimes(origin, interval, end, lags[..|lags| - 1]);
    }
  }

  // ---------------------------------------------------------------------------------------
  // The exact schedule
  // ---------------------------------------------------------------------------------------

  /** When the sender is free for packet k: at the origin, or when the send before it has finished. */
  function Free(origin: nat, lags: seq<Lag>, sent: seq<nat>, k: nat): nat
    requires k <= |sent| <= |lags|
  {
    if k == 0 then origin else sent[k - 1] + lags[k - 1].busy
  }

  /** Packet k leaves as soon as the sender is free and its deadline has come, plus the delay of the timer.
      The next deadline is one interval later, except that it is reset to the clock exactly if the send
      finishes more than max(interval, 10 ms) behind that. */
  ghost predicate Exact(origin: nat, interval: nat, lags: seq<Lag>, due: seq<nat>, sent: seq<nat>, k: nat)
    requires k < |sent| <= |lags| && |due| == |sent| + 1
  {
    var finished := sent[k] + lags[k].busy;
    && sent[k] == Max(Free(origin, lags, sent, k), due[k]) + lags[k].delay
    && due[k + 1] == if finished > due[k] + interval + Max(interval, 10_000_000) then finished else due[k] + interval
  }

  /** The end of the test comes before the next packet leaves, or cuts its send off. */
  ghost predicate EndComes(origin: nat, end: nat, lags: seq<Lag>, due: seq<nat>, sent: seq<nat>)
    requires |sent| < |lags| && |due| == |sent| + 1
  {
    var n := |sent|;
    var at := Max(Free(origin, lags, sent, n), due[n]) + lags[n].delay;
    at >= end || (at + lags[n].busy >= end && lags[n].cut)
  }

  ghost predicate Scheduled(origin: nat, interval: nat, end: nat, lags: seq<Lag>, due: seq<nat>, s: Sender) {
    && |due| == |s.sent| + 1 && due[0] == origin && due[|s.sent|] == s.deadline
    && |s.sent| <= |lags|
    && (forall k: nat {:trigger Exact(origin, interval, lags, due, s.sent, k)} :: k < |s.sent| ==>
          Exact(origin, interval, lags, due, s.sent, k))
    && (if s.over then |s.sent| < |lags| && EndComes(origin, end, lags, due, s.sent)
        else |s.sent| == |lags| && s.now == Free(origin, lags, s.sent, |s.sent|))
  }

  lemma SendIsScheduled(origin: nat, interval: nat, end: nat, init: seq<Lag>, lag: Lag, due: seq<nat>, s: Sender)
    requires Scheduled(origin, interval, end, init, due, s)
    ensures var t := Send(s, interval, end, lag);
            Scheduled(origin, interval, end, init + [lag], if |t.sent| > |s.sent| then due + [t.deadline] else due, t)
  {
    var t, lags := Send(s, interval, end, lag), init + [lag];
    var later := if |t.sent| > |s.sent| then due + [t.deadline] else due;
    forall k: nat | k < |t.sent| ensures Exact(origin, interval, lags, later, t.sent, k) {
      if k < |s.sent| {
        assert Exact(origin, interval, init, due, s.sent, k);
        assert k > 0 ==> lags[k - 1] == init[k - 1];
      }
    }
  }

  /** In any timing the sends and deadlines follow this schedule, and the run is over exactly when the end
      has come. */
  lemma {:induction false} ScheduleIsExact(origin: nat, interval: nat, end: nat, lags: seq<Lag>)
    ensures Scheduled(origin, interval, end, lags, Deadlines(origin, interval, end, lags),
                      SendAll(origin, interval, end, lags))
  {
    if lags != [] {
      var init, lag := lags[..|lags| - 1], lags[|lags| - 1];
      ScheduleIsExact(origin, interval, end, init);
      SendIsScheduled(origin, interval, end, init, lag, Deadlines(origin, interval, end, init),
                      SendAll(origin, interval, end, init));
      assert init + [lag] == lags;
      assert Deadlines(origin, interval, end, init) + [] == Deadlines(origin, interval, end, init);
    }
  }

  lemma {:induction false} DeadlineUnmoved(
    origin: nat, interval: nat, end: nat, lags: seq<Lag>, due: seq<nat>, s: Sender, n: nat)
    requires Scheduled(origin, interval, end, lags, due, s) && n <= |s.sent|
    requires forall k :: 0 <= k < n ==>
               s.sent[k] + lags[k].busy <= origin + Span(k + 1, interval) + Max(interval, 10_000_000)
    ensures due[n] == origin + Span(n, interval)
  {
    if n > 0 {
      DeadlineUnmoved(origin, interval, end, lags, due, s, n - 1);
      assert Exact(origin, interval, lags, due, s.sent, n - 1);
    }
  }

  /** Lags within the backlog are made up for: while no send finishes more than max(interval, 10 ms) behind
      the deadline that follows its own, deadline n is exactly origin + n * interval, and packet n leaves
      then or as soon as the sender is free. */
  lemma BacklogIsMadeUp(origin: nat, interval: nat, end: nat, lags: seq<Lag>, n: nat)
    requires var sent := SendAll(origin, interval, end, lags).sent;
             n < |sent| && |sent| <= |lags|
             && forall k :: 0 <= k < n ==>
                  sent[k] + lags[k].busy <= origin + (k + 1) * interval + Max(interval, 10_000_000)
    ensures var sent := SendAll(origin, interval, end, lags).sent;
            && |Deadlines(origin, interval, end, lags)| == |sent| + 1
            && Deadlines(origin, interval, end, lags)[n] == origin + n * interval
            && sent[n] == Max(Free(origin, lags, sent, n), origin + n * interval) + lags[n].delay
  {
    var s, due := SendAll(origin, interval, end, lags), Deadlines(origin, interval, end, lags);
    ScheduleIsExact(origin, interval, end, lags);
    forall k | 0 <= k < n
      ensures s.sent[k] + lags[k].busy <= origin + Span(k + 1, interval) + Max(interval, 10_000_000)
    {
      SpanIsProduct(k + 1, interval);
    }
    DeadlineUnmoved(origin, interval, end, lags, due, s, n);
    SpanIsProduct(n, interval);
    assert Exact(origin, interval, lags, due, s.sent, n);
  }

  lemma {:induction false} Punctual(
    origin: nat, interval: nat, end: nat, lags: seq<Lag>, due: seq<nat>, s: Sender, n: nat)
    requires Scheduled(origin, interval, end, lags, due, s) && n <= |s.sent|
    requires forall i :: 0 <= i < |lags| ==> lags[i].delay == 0 == lags[i].busy
    ensures due[n] == origin + Span(n, interval) && Free(origin, lags, s.sent, n) <= due[n]
    ensures n < |s.sent| ==> s.sent[n] == origin + Span(n, interval)
  {
    if n > 0 {
      Punctual(origin, interval, end, lags, due, s, n - 1);
      assert Exact(origin, interval, lags, due, s.sent, n - 1);
    }
    if n < |s.sent| {
      assert Exact(origin, interval, lags, due, s.sent, n);
    }
  }

  /** Without delay and busy time packet k leaves exactly at origin + k * interval, as many as there are
      turns, and only the end of the test stops them. */
  lemma UndisturbedRate(origin: nat, interval: nat, end: nat, lags: seq<Lag>)
    requires forall i :: 0 <= i < |lags| ==> lags[i].delay == 0 == lags[i].busy
    ensures var s := SendAll(origin, interval, end, lags);
            && (forall k: nat :: k < |s.sent| ==> s.sent[k] == origin + k * interval)
            && (if s.over then end <= origin + |s.sent| * interval else |s.sent| == |lags|)
  {
    var s, due := SendAll(origin, interval, end, lags), Deadlines(origin, interval, end, lags);
    ScheduleIsExact(origin, interval, end, lags);
    forall k: nat | k < |s.sent| ensures s.sent[k] == origin + k * interval {
      Punctual(origin, interval, end, lags, due, s, k);
      SpanIsProduct(k, interval);
    }
    Punctual(origin, interval, end, lags, due, s, |s.sent|);
    SpanIsProduct(|s.sent|, interval);
  }
}
