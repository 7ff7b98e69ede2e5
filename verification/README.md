# Network Lantern: verified core

A Dafny model of the decision logic of Network Lantern, a network-measurement tool written in Rust, with
proofs about it. One file per component; `dafny verify dfyconfig.toml` checks all of them.

| file | component |
|---|---|
| `Cadence.dfy`, `TraceRun.dfy`, `TracePorts.dfy` | the trace scheduler, its event loop, and the identity of its probes |
| `UdpReceive.dfy`, `UdpPacing.dfy`, `TestResults.dfy` | UDP loss and jitter accounting, the pacer, and the figures of a test |
| `Replay.dfy`, `Admission.dfy` | the privileged helper: replay protection and admission |
| `ThroughputPlan.dfy`, `PlanContents.dfy`, `Execution.dfy`, `PathPlans.dfy`, `TuningPlans.dfy` | planning, and counting what a run did |
| `HopStatistics.dfy` | streaming statistics of a hop |
| `Checksum.dfy`, `Packet.dfy`, `PacketParsing.dfy` | building probes and recognising replies to them |
| `PacedRunner.dfy`, `Paging.dfy`, `DnsNames.dfy` | the bounded probe runner, report pages, DNS names |
| `Common.dfy` | option and result types |

How the models are built:

- Code that updates state is a class or a method with a loop. Its contract ties the new state to a function of
  the old one, and the properties are proved about that function, over every input or every run.
- Concurrent code is a transition system. The environment chooses the events: which timer fires, which worker
  finishes, what the clock says. An event that does not fit the state changes nothing, so every event sequence
  is a run and a property of all sequences is a property of all interleavings. `select!` takes the first ready
  branch in order; the models let any enabled event come first, which covers that and more.
- The properties of a run are stated over a log that only grows, or over the inputs, never over the counters
  whose correctness is in question.
- Time is an integer number of nanoseconds supplied by the environment. `f64` is `real`.

Where the code falls short of what one would expect of it:

- Replay protection leaves 30 s minus 999,999 ns between `verify` and `accept`, not 30 s, because both wall-clock
  readings are truncated to milliseconds (`ReplayFreeIffSlack`; on every clock, `SlackIsTight` gives a run that
  accepts a frame twice for every longer wait).
- The locally measured UDP loss can exceed 100 % when the `u64` sum of the packets of several receiving streams
  wraps around in a build without overflow checks. Two datagrams suffice (`WrappedLossExample`).
  `LocalLossOfARun` says exactly which runs are affected, and `LocalLossInRangeIff` which packet counts are.
  UDP tests of a plan have one stream and are not affected (`PlannedLossInRange`).
- A JSON report page is empty although more rows follow exactly when not even one row fits beside the metadata
  (`ReadPage`); `ReadStuckReport` reads such a report.

## Model

| member | source | states |
|---|---|---|
| CadenceModel.Advance | crates/path-trace/src/cadence.rs:26-41 | the next TTL is the next hop of the cycle or the first hop of the next one, always within the limits; the hop limit ends a cycle; the host estimate is never 0 |
| CadenceModel.NextDeadlineFollowsTheSend | crates/path-trace/src/cadence.rs:42-44 | the next probe is due one host's share of the interval after the actual send: late probes are not made up for, and `hosts` gaps fill the interval |
| CadenceModel.EstimateCountsTheSweep | crates/path-trace/src/cadence.rs:31-38 | at the end of a cycle the estimate is the number of hops up to the destination, or of all hops swept; it never exceeds the sweep |
| CadenceModel.Cadence.constructor | crates/path-trace/src/cadence.rs:15-25 | a new scheduler starts at the first hop of cycle 0, within its limits |
| CadenceModel.Cadence.Dispatched | crates/path-trace/src/cadence.rs:26-45 | the in-place update, with its count of silent hops, is the step `Advance` |
| TraceRun.StepKeepsInv | crates/path-trace/src/lib.rs:460-574 | every event keeps: `pending` equals the probes sent and not joined, every task is counted (no underflow), the closed cycles are those below `cadence.cycles`, counters and streak agree with the log, and hops are swept in order |
| TraceRun.ReachableInv | crates/path-trace/src/lib.rs:460-612 | that invariant holds after every event sequence, drain included |
| TraceRun.CompletedCyclesAreDone | crates/path-trace/src/lib.rs:484-489 | in every interleaving `completed_cycles` is the number of cycles fully sent and fully joined, each counted once, and at most 512 probes are outstanding |
| TraceRun.StreakIsTrailingFailures | crates/path-trace/src/lib.rs:486-511 | while the loop runs, `failed_cycle_streak` is the trailing run of finished cycles without a successful probe, and it is below 3 |
| TraceRun.StopsAtThirdFailedCycle | crates/path-trace/src/lib.rs:500-509 | the loop gives up on failed cycles exactly at the join that completes the third one in a row |
| TraceRun.StopsExactlyFor | crates/path-trace/src/lib.rs:460-536 | a looping run leaves the loop for a reason if and only if the next event gives it: a cancellation, the run deadline, the grace deadline with every cycle sent, a fatal error or a panic of an outstanding task, the third failed cycle in a row, or a due timer at 512 outstanding probes with probes left to send |
| TraceRun.StoppedForGood | crates/path-trace/src/lib.rs:463-575 | a run that has stopped stays stopped for its reason, and no later events send a probe |
| TraceRun.SendsExactlyWhenDue | crates/path-trace/src/lib.rs:517-534 | an event sends a probe exactly when it is a timer past the deadline of a looping run with cycles left and room; it is the probe the schedule names, and the next is due one host's share of the interval later |
| TraceRun.TasksAreOutstanding | crates/path-trace/src/lib.rs:480-575 | in every run the probes sent are, with multiplicity, the outstanding ones and those that were joined or lost |
| TraceRun.DrainEnds | crates/path-trace/src/lib.rs:539-575 | whatever is still outstanding, the shutdown deadline ends the drain |
| TraceRun.CyclesEndForAReason | crates/path-trace/src/lib.rs:490-530 | a probe closes its cycle exactly when, by the replies before it, the destination had answered at no larger TTL, more than 12 earlier hops were silent, or it is at the hop limit; the destination bound is the lowest TTL that reached it |
| TraceRun.Loop.constructor | crates/path-trace/src/lib.rs:433-458 | the loop's variables start as the initial state of the transition system |
| TraceRun.Loop.Take | crates/path-trace/src/lib.rs:483-489 | joining a task updates `pending` and `completed_cycles` and reports whether it finished its cycle |
| TraceRun.Loop.Success | crates/path-trace/src/lib.rs:486-494 | the branch for a probe result is the step `JoinedOk` |
| TraceRun.Loop.Failure | crates/path-trace/src/lib.rs:496-511 | the branch for a probe error, with fatal errors and the third failed cycle, is the step `JoinedErr` |
| TraceRun.Loop.Send | crates/path-trace/src/lib.rs:524-530 | the timer branch is the step `Sent` |
| TraceRun.Loop.React | crates/path-trace/src/lib.rs:461-536 | one pass through the `select!`, with every reason to stop, is one step |
| TraceRun.Loop.Drain | crates/path-trace/src/lib.rs:540-575 | one turn of the drain is one step |
| TraceRun.FinalState | crates/path-trace/src/lib.rs:540-575 | once nothing is left to drain, no event has any effect |
| TraceRun.ProbeLoop | crates/path-trace/src/lib.rs:460-536 | the loop over the mutable state reaches the state of the transition system and stops where it stops |
| TraceRun.DrainLoop | crates/path-trace/src/lib.rs:539-575 | the same for the drain |
| TraceRun.ExecuteRun | crates/path-trace/src/lib.rs:433-575 | loop and drain together refine the transition system on every event sequence |
| TracePorts.ScheduleOfARun | crates/path-trace/src/lib.rs:517-534 | however replies arrive, each cycle is a contiguous run of TTLs from the first hop, no probe is repeated, and a run sends at most cycles × (max − first + 1) probes |
| TracePorts.OrdinalsIncrease | crates/path-trace/src/lib.rs:732-735 | probe ordinals grow strictly along the schedule |
| TracePorts.UdpValidationIsExact | crates/path-trace/src/lib.rs:208-224 | UDP settings pass validation if and only if every (cycle, TTL) of the run has a port at or above the base without overflow |
| TracePorts.PortOfProbe | crates/path-io/src/native.rs:217-240 | for validated settings the remainder, the subtraction, the `u16` cast and the addition of the TTL cancel out: the port is base + ordinal |
| TracePorts.UdpPortsAreDistinct | crates/path-trace/src/lib.rs:414-419 | in every run of a validated UDP trace, after the round changed the settings, no port is rejected and no two probes share one |
| UdpReceive.RingAgrees | crates/throughput/src/protocol/data.rs:180-189 | within the window the 65,536-slot ring answers "seen before?" exactly as a set of all accepted numbers does |
| UdpReceive.AcceptRepresents | crates/throughput/src/protocol/data.rs:190-192 | overwriting a slot keeps ring, counters and set in agreement |
| UdpReceive.DatagramStats.constructor | crates/throughput/src/protocol/data.rs:157-167 | a new record is empty above its baseline |
| UdpReceive.DatagramStats.AfterOmission | crates/throughput/src/protocol/data.rs:168-172 | the measured record starts at the whole run's highest number and inherits only its transit time |
| UdpReceive.DatagramStats.Observe | crates/throughput/src/protocol/data.rs:173-199 | one datagram changes the record as it changes the unbounded one; an error changes nothing |
| UdpReceive.DatagramStats.Store | crates/throughput/src/protocol/data.rs:189-198 | accepting a number updates every field as the unbounded record does |
| UdpReceive.DatagramStats.Expected | crates/throughput/src/protocol/data.rs:200-202 | the number of sequence numbers in (baseline, highest] |
| UdpReceive.DatagramStats.Lost | crates/throughput/src/protocol/data.rs:203-205 | the number of those never seen; the saturating subtraction never saturates |
| UdpReceive.Measure | crates/throughput/src/protocol/data.rs:235-238 | the measured record is created at the first datagram past the warm-up, and then observes it |
| UdpReceive.Handle | crates/throughput/src/protocol/data.rs:221-240 | one received datagram, short ones and bad timestamps included, over two rings that share nothing |
| UdpReceive.Count | crates/throughput/src/protocol/data.rs:240 | the whole-run record observes the datagram and the measured one stays as it is |
| UdpReceive.Conclude | crates/throughput/src/protocol/data.rs:244-252 | the reported figures are sizes of sets of sequence numbers |
| UdpReceive.UdpReceiveLoop | crates/throughput/src/protocol/data.rs:214-252 | the receive loop reports what the reference reports for every datagram sequence, errors included |
| UdpReceive.WholeRunCounts | crates/throughput/src/protocol/data.rs:250-251 | for every error-free run: the accepted numbers are exactly those received, highest is the largest, and the wire loss is exactly the count of smaller numbers never received |
| UdpReceive.MeasuredIsTheTail | crates/throughput/src/protocol/data.rs:235-240 | after the warm-up both records share the highest number, and the measured set is the whole-run set above its baseline |
| UdpReceive.MeasuredBytes | crates/throughput/src/protocol/data.rs:186-192 | the reported bytes count each measured datagram once, however often it arrives |
| UdpReceive.FiguresAreOrdered | crates/throughput/src/protocol/data.rs:246-251 | errors ≤ packets ≤ wire packets, and errors ≤ wire errors ≤ wire packets |
| UdpReceive.ReportedCounts | crates/throughput/src/protocol/data.rs:246-247 | in every run errors and distinct arrivals add up to the packets, and a receiver that reports packets has received one |
| UdpReceive.ReportableIff | crates/throughput/src/protocol/data.rs:207-252 | a receiver can report exactly the counters with fewer errors than packets, or none of either; every such pair has a run |
| UdpReceive.ClockOffsetCancels | crates/throughput/src/protocol/data.rs:193-197 | a constant offset between the two clocks changes no reported figure (section 6.4.1 of RFC 3550) |
| UdpReceive.JitterWithinSpread | crates/throughput/src/protocol/data.rs:193-197 | jitter is never negative and never exceeds the spread of the transit times |
| UdpReceive.ReportedJitter | crates/throughput/src/protocol/data.rs:193-252 | in every error-free run the reported jitter is Σ |tᵢ − tᵢ₋₁| × (15/16)ⁿ⁻ⁱ / 16 over the transit times of the first arrivals after the warm-up, preceded by the last one of the warm-up; the measured record begins with the first datagram after the warm-up, above the largest number of the warm-up |
| UdpReceive.WholeRunJitter | crates/throughput/src/protocol/data.rs:193-197 | the same estimate for the whole-run record, over all first arrivals |
| UdpReceive.SucceedsIff | crates/throughput/src/protocol/data.rs:173-240 | a run is free of errors if and only if no datagram has a bad timestamp or number 0, or lies 65,536 or more below the largest number before it |
| UdpReceive.FailsWith | crates/throughput/src/protocol/data.rs:173-240 | a failing run reports what is wrong with its first bad datagram |
| UdpPacing.Turn | crates/throughput/src/protocol/data.rs:109-139 | one pass of the send loop, with its three ways to end, is one step of the schedule |
| UdpPacing.UdpSendLoop | crates/throughput/src/protocol/data.rs:99-144 | the send loop, the packet cut off by the end included, is the schedule reasoned about; only a zero interval fails |
| UdpPacing.RunIsPaced | crates/throughput/src/protocol/data.rs:11-20 | in every timing deadlines are at least one interval apart, and no send is early or later than its backlog allows |
| UdpPacing.NeverAheadOfRate | crates/throughput/src/protocol/data.rs:103-140 | packet k never leaves before origin + k × interval |
| UdpPacing.BurstBound | crates/throughput/src/protocol/data.rs:13-20 | packets within a window of length L number at most (L + max(interval, 10 ms)) / interval + 2, whatever stalls |
| UdpPacing.SendTimes | crates/throughput/src/protocol/data.rs:109-144 | packets leave in order and before the end, and the reported sequence counts at most one packet more than were sent |
| UdpPacing.ScheduleIsExact | crates/throughput/src/protocol/data.rs:13-20 | in any timing a packet leaves at its deadline or as soon as the sender is free, the next deadline is one interval on unless the send ran more than max(interval, 10 ms) behind that, when it is the clock, and the run is over exactly when the end has come |
| UdpPacing.BacklogIsMadeUp | crates/throughput/src/protocol/data.rs:13-20 | lags within the backlog are made up for: until one exceeds it, deadline n is exactly origin + n × interval |
| UdpPacing.UndisturbedRate | crates/throughput/src/protocol/data.rs:103-140 | without delay and busy time packet k leaves exactly at origin + k × interval, and only the end of the test stops the sender |
| TestResults.DistinctIds | crates/throughput/src/protocol.rs:496-499 | the ids given to streams are pairwise different |
| TestResults.IdsSkipTwo | crates/throughput/src/protocol.rs:496-499 | n streams have the ids 1, 3, 4, … n + 1 |
| TestResults.AddStream | crates/throughput/src/protocol/metrics.rs:22-53 | the body of the loop accepts exactly the well-formed streams with a new known id whose counters still fit, and adds them up |
| TestResults.PassesIff | crates/throughput/src/protocol/metrics.rs:21-54 | checking stream by stream against the ids and sums so far is checking the whole list |
| TestResults.ReadPeer | crates/throughput/src/protocol/metrics.rs:15-56 | the loop accepts exactly the peer results whose streams are well formed and have distinct known ids and whose sums fit a `u64`, and returns those sums |
| TestResults.AcceptedPeerCoversEveryStream | crates/throughput/src/protocol/metrics.rs:15-26 | an accepted peer result reports every local stream exactly once |
| TestResults.LossIsPercentage | crates/throughput/src/protocol/metrics.rs:182-203 | a loss is reported exactly if there were packets, and it is the errors in per cent of them |
| TestResults.RateIsBits | crates/throughput/src/protocol/metrics.rs:36 | a rate times its duration is the number of bits |
| TestResults.LossInRange | crates/throughput/src/protocol/metrics.rs:184-185 | a loss percentage lies in 0..100 if and only if there are no packets or no more errors than packets |
| TestResults.LocalLossOfARun | crates/throughput/src/protocol/metrics.rs:167-185 | for whatever the local receivers get, the loss computed from their reports is a percentage if and only if the `u64` packet sum is 0 or at least the number of distinct arrivals modulo 2^64 |
| TestResults.SingleReceiverLossInRange | crates/throughput/src/protocol/metrics.rs:167-185 | with one receiver it always is |
| TestResults.LocalLossInRangeIff | crates/throughput/src/protocol/metrics.rs:167-180 | receivers with given `u64` packet counts report a percentage for every error count they can report if and only if the packet sum does not wrap, or wraps to 0 or to the largest value |
| TestResults.WrappedLossExample | crates/throughput/src/protocol/metrics.rs:167-180 | two receivers with one datagram each, and a reported loss of (2^64 − 1) × 100 % |
| TestResults.ReportedLossInRangeIff | crates/throughput/src/protocol/metrics.rs:158-205 | the loss of an accepted UDP result is a percentage if and only if it is the peer's or the local packet sum covers what arrived |
| TestResults.PlannedLossInRange | crates/throughput/src/protocol/metrics.rs:158-205 | every UDP test of a plan reports a loss within 0..100, whatever its receiver gets and its peer sends |
| Replay.VerifiesIff | crates/helper/src/protocol.rs:234-274 | a frame verifies if and only if it is authentic, at most 1 MiB long, and its issue time is at most 30 s ahead of and 5 min behind the milliseconds of a readable clock |
| Replay.AcceptedIff | crates/helper/src/server.rs:94-98 | in every run a frame is accepted if and only if it verifies, no frame accepted in the last 6 minutes had its nonce, and fewer than 4096 nonces are that young |
| Replay.AnswerOf | crates/helper/src/server.rs:94-98 | what every frame of every run is answered, with each error and the order of the checks |
| Replay.AcceptedIsAuthentic | crates/helper/src/protocol.rs:241-250 | whatever a run accepts is authentic and was inside its window |
| Replay.WindowBound | crates/helper/src/protocol.rs:234-243 | two successful verifications of a frame are at most 5 min 30 s plus one truncated millisecond apart |
| Replay.ExpireDropsTheOld | crates/helper/src/protocol.rs:300-311 | expiry keeps queue and map consistent and drops exactly the entries older than the cutoff |
| Replay.ReplayCache.Accept | crates/helper/src/protocol.rs:300-324 | the loop over queue and map computes that expiry and then accepts, refuses as replay, or refuses for capacity, keeping the cache duplicate-free and ordered by time |
| Replay.ReachableCache | crates/helper/src/protocol.rs:287-324 | in every run the cache is sound, within capacity, and remembers every accepted nonce that is not older than the TTL |
| Replay.NotAcceptedAgain | crates/helper/src/server.rs:94-98 | an accepted frame is refused from then on, forever, if frames wait at most the slack between `verify` and `accept` |
| Replay.SlackIsTight | crates/helper/src/protocol.rs:13-17 | for every larger slack, and whatever the offset between the clocks, there is a run that accepts one frame twice |
| Replay.ReplayFreeIffSlackAt | crates/helper/src/server.rs:94-98 | on a given clock no frame is accepted twice in any run if and only if the slack is at most 30 s − 999,999 ns |
| Replay.ReplayFreeIffSlack | crates/helper/src/server.rs:94-98 | the same for all clocks together |
| Admission.AdmissionState.Admit | crates/helper/src/server.rs:122-153 | the critical section of `admit`, with its order of checks |
| Admission.AdmissionState.CancelRun | crates/helper/src/server.rs:155-175 | the critical section of `cancel_run`, which quarantines when too many cancellations are pending |
| Admission.AdmissionState.Complete | crates/helper/src/server.rs:50-58 | `complete` removes the run and leaves the rest to the guard's drop |
| Admission.AdmissionState.DropGuard | crates/helper/src/server.rs:61-71 | dropping a guard cancels its token, removes the run, and quarantines if it was not completed |
| Admission.LinuxService.constructor | crates/helper/src/platform/linux.rs:440-444 | a new service has its one permit free and nothing in flight |
| Admission.LinuxService.CancelRun | crates/helper/src/platform/linux.rs:456-458 | the request is one step, and answers whether the run was executing |
| Admission.LinuxService.Prepare | crates/helper/src/platform/linux.rs:459-473 | the request is one step: removal is prepared exactly if it already was or the permit was free |
| Admission.LinuxService.Abort | crates/helper/src/platform/linux.rs:474-482 | the request is one step, and answers whether a reservation was released |
| Admission.LinuxService.TryAcquire | crates/helper/src/platform/linux.rs:483-486 | the arrival of an operation is one step, and succeeds exactly if the permit is free |
| Admission.LinuxService.Admit | crates/helper/src/server.rs:102-103 | admission under the permit is one step |
| Admission.LinuxService.Finish | crates/helper/src/server.rs:49-71 | `complete`, the drop after it, and a drop without it are one step each |
| Admission.LinuxService.Release | crates/helper/src/platform/linux.rs:484-489 | the end of a handler gives its permit back |
| Admission.LinuxService.React | crates/helper/src/platform/linux.rs:445-491 | every event over the mutable service is the step of the transition system |
| Admission.Serve | crates/helper/src/platform/linux.rs:440-491 | so the service follows it through every sequence of events |
| Admission.StepKeepsInv | crates/helper/src/platform/linux.rs:440-491 | every request and every step of an operation keeps permit conservation and the meaning of `active` |
| Admission.PermitConservation | crates/helper/src/platform/linux.rs:440-491 | in every run free permits, removal reservation and operations in flight add up to 1, and `active` holds exactly the executing run |
| Admission.OperationLifecycle | crates/helper/src/platform/linux.rs:483-489 | in every run, when the permit is free and nothing stands against it, an operation gets the permit, is admitted, executes as the one active run, and leaves the service idle again |
| Admission.RemovalLifecycle | crates/helper/src/platform/linux.rs:459-482 | in every run removal can be prepared exactly if nothing is in flight; it keeps operations out until it is aborted, which gives the permit back; nothing else can be aborted |
| Admission.DropAfterCompleteIsHarmless | crates/helper/src/server.rs:49-71 | between `complete` and the later drop nothing can start, so the second removal takes away no other operation's entry |
| Admission.DropWithoutPermitEvicts | crates/helper/src/server.rs:49-71 | without the outer permit it would, and a second operation would be admitted |
| Admission.NeverBusy | crates/helper/src/server.rs:140-144 | under the permit the "another operation is active" answer of `admit` never occurs |
| Admission.QuarantineIsAbsorbing | crates/helper/src/server.rs:131-135 | nothing lifts the quarantine |
| Admission.AbandonBlocksAdmission | crates/helper/src/server.rs:61-71 | an operation dropped unfinished makes every later admission fail |
| Admission.CancelledRunIsRefused | crates/helper/src/server.rs:136-139 | a run cancelled before it started is refused at its next admission within 300 s, whatever happens in between |
| Admission.OnlyRecentCancelsRefuse | crates/helper/src/server.rs:136-139 | an admission is refused as cancelled only if its run was cancelled less than 300 s before |
| Admission.CancelQuarantines | crates/helper/src/server.rs:163-174 | a cancellation quarantines exactly if its run is not executing and 1024 cancellations are still pending |
| Admission.CancelReachesTheExecutingRun | crates/helper/src/server.rs:163-166 | `cancel_run` returns true exactly for the executing run, and then its token is cancelled |
| ThroughputPlan.RateIsExact | crates/throughput/src/plan.rs:340-343 | no saturation rate is clipped by `u64` arithmetic or exceeds `udp_max_bps` |
| ThroughputPlan.TotalIsClosedForm | crates/throughput/src/plan.rs:62-92 | the closed-form count is the size of the nested DSCP × (TCP matrix, fixed UDP, saturation) product |
| PlanContents.PlanHasExactly | crates/throughput/src/plan.rs:62-110 | a plan contains a test if and only if the configuration asks for it: single-test mode, the TCP matrix, the fixed UDP tests, and, for each DSCP class and both directions, every rate udp_start + k × udp_step ≤ udp_max with k < 1000 |
| PlanContents.RampIsOrdered | crates/throughput/src/plan.rs:335-357 | within a DSCP class the saturation rates ascend by one step at a time from the start rate, each sent and then received |
| PlanContents.BudgetIsExact | crates/throughput/src/plan.rs:93-100 | a valid configuration is refused exactly if it sets a budget other than 0 that its tests exceed, with both numbers |
| ThroughputPlan.PlannedTestsAreValid | crates/throughput/src/protocol.rs:878-913 | every test of a valid plan passes the independent spec check, ids are 1..total, UDP tests have one stream in one direction, saturation rates are at most `udp_max_bps` |
| ThroughputPlan.TestPlanIter.constructor | crates/throughput/src/plan.rs:47-60 | a new iterator has the whole product before it |
| ThroughputPlan.TestPlanIter.SizeHint | crates/throughput/src/plan.rs:367-371 | the hint is exact at every step |
| ThroughputPlan.TestPlanIter.CarryTcp | crates/throughput/src/plan.rs:302-310 | the carry from the window counter into the stream and direction counters |
| ThroughputPlan.TestPlanIter.NextTcp | crates/throughput/src/plan.rs:292-311 | the TCP branch emits the first case left and leaves exactly the others |
| ThroughputPlan.TestPlanIter.NextFixed | crates/throughput/src/plan.rs:318-330 | the same for the fixed UDP branch |
| ThroughputPlan.TestPlanIter.NextRate | crates/throughput/src/plan.rs:335-357 | the same for the saturation branch |
| ThroughputPlan.TestPlanIter.NextInClass | crates/throughput/src/plan.rs:281-357 | within a DSCP class no case is skipped between the stages |
| ThroughputPlan.TestPlanIter.NextSingle | crates/throughput/src/plan.rs:264-283 | single-test mode emits one test |
| ThroughputPlan.TestPlanIter.NextClass | crates/throughput/src/plan.rs:359-362 | moving to the next DSCP class skips no case |
| ThroughputPlan.TestPlanIter.NextInSuite | crates/throughput/src/plan.rs:284-365 | the loop over the classes emits the next case, or nothing once all were emitted |
| ThroughputPlan.TestPlanIter.Next | crates/throughput/src/plan.rs:262-366 | each call emits the next test of the product, or nothing once all were emitted |
| ThroughputPlan.Drain | crates/throughput/src/plan.rs:262-366 | from any reachable counters the iterator terminates and emits exactly what is left |
| ThroughputPlan.Collect | crates/throughput/src/plan.rs:259-372 | run to its end, the iterator yields the nested product in order, as many tests as planned |
| HopStatistics.Moments.Record | crates/path-trace/src/aggregate.rs:18-34 | the in-place update is one step of the recurrence |
| HopStatistics.WelfordStep | crates/path-trace/src/aggregate.rs:26-29 | one step keeps: mean × n is the sum, and m2 is the sum of squares minus mean × sum |
| HopStatistics.StreamingEqualsBatch | crates/path-io/src/lib.rs:111-151 | for every sample list the streaming figures (counts, loss, last, mean, min, max, variance) are those of the two-pass batch form |
| HopStatistics.BatchLoss | crates/path-io/src/lib.rs:139-143 | the loss is the percentage of the samples not cancelled that have no reply |
| HopStatistics.BatchExtremes | crates/path-io/src/lib.rs:144-147 | best and worst are the smallest and largest reply time, and last is the last |
| HopStatistics.BatchMeans | crates/path-io/src/lib.rs:125-134 | average and variance are means over the replies, of their times and of the squared deviations |
| HopStatistics.RespondersStep | crates/path-trace/src/aggregate.rs:65-71 | despite the 64-entry cap each retained responder summarises exactly its own samples |
| HopStatistics.StacksStep | crates/path-trace/src/aggregate.rs:72-78 | the retained stacks are distinct stacks of the samples, and complete while fewer than 64 |
| HopStatistics.HopAccumulator.constructor | crates/path-trace/src/aggregate.rs:55-61 | an empty accumulator |
| HopStatistics.HopAccumulator.Retain | crates/path-trace/src/aggregate.rs:65-78 | responders, stacks and the `limited` flag after one sample |
| HopStatistics.HopAccumulator.Record | crates/path-trace/src/aggregate.rs:63-79 | keeps the invariant, in which `limited` says exactly whether a responder or a stack was turned away |
| HopStatistics.HopAccumulator.Finish | crates/path-trace/src/aggregate.rs:80-113 | the report has the batch figures of all samples and of each retained responder, in address order |
| HopStatistics.Dominant | crates/path-trace/src/aggregate.rs:85-95 | the reported address has the most samples of all retained ones, and is the lowest of those |
| HopStatistics.ReportResponders | crates/path-trace/src/aggregate.rs:103-110 | one entry per retained address, in ascending order, with the batch figures of its samples |
| Checksum.FoldedAdd | crates/packet/src/lib.rs:188-199 | folding early or late gives the same sum |
| Checksum.Carry | crates/packet/src/lib.rs:194-197 | the carry loop computes the fold, which depends only on the total modulo 65535 and on whether it is 0 |
| Checksum.AddWord | crates/packet/src/lib.rs:188-198 | one round of the loop folds a word into the sum; the 32-bit accumulator never wraps |
| Checksum.InternetChecksum | crates/packet/src/lib.rs:186-200 | the loop over words, an odd last byte included, computes the complement of the folded total (RFC 1071) |
| Checksum.PutWord | crates/packet/src/lib.rs:203-235 | filling a zeroed, aligned field adds its value to the word total |
| Checksum.ChecksumVerifies | crates/packet/src/lib.rs:186-235 | a message with its checksum filled in has checksum 0, for every message and field position |
| Packet.BuildIcmpV4Echo | crates/packet/src/lib.rs:202-212 | the built request has type 8, its identifier, its sequence number and its payload in their places, and verifies |
| Packet.BuildIcmpV6Echo | crates/packet/src/lib.rs:214-235 | layout of the built request; it verifies under its pseudo-header (section 8.1 of RFC 8200) |
| Packet.WriteSegment | crates/packet/src/lib.rs:293-299 | the buffer writes produce the SYN segment and touch nothing before it |
| Packet.BuildTcpSynV4 | crates/packet/src/lib.rs:277-305 | the in-place builder produces the packet `SynV4` |
| Packet.BuildTcpSynV6 | crates/packet/src/lib.rs:307-329 | the in-place builder produces the packet `SynV6` |
| Packet.SynV4Verifies | crates/packet/src/lib.rs:277-305 | header checksum and TCP checksum of every built IPv4 SYN verify |
| Packet.SynV6Verifies | crates/packet/src/lib.rs:307-329 | the TCP checksum of every built IPv6 SYN verifies |
| Packet.SynV4Layout | crates/packet/src/lib.rs:277-305 | every field of a built IPv4 SYN, with the hop limit, traffic class and don't-fragment flag of its specification |
| Packet.SynV6Layout | crates/packet/src/lib.rs:307-329 | the same for IPv6 |
| Packet.PseudoV4Layout | crates/packet/src/lib.rs:243-248 | the pseudo-header has the fields of section 3.1 of RFC 9293 |
| Packet.PseudoV6Layout | crates/packet/src/lib.rs:258-263 | the pseudo-header has the fields of section 8.1 of RFC 8200 |
| PacketParsing.WalkExtensions | crates/packet/src/lib.rs:606-645 | the loop over extension headers is the recursive traversal, step limit and truncation errors included |
| PacketParsing.WalkEncoded | crates/packet/src/lib.rs:606-645 | the traversal finds the transport behind every well-formed chain of fewer than 16 headers and refuses every longer one (section 4 of RFC 8200) |
| PacketParsing.LongChainIsRefused | crates/packet/src/lib.rs:606-645 | behind sixteen or more extension headers nothing is found |
| PacketParsing.LaterFragmentIsRefused | crates/packet/src/lib.rs:606-645 | nor behind the header of a fragment that is not the first |
| PacketParsing.StripCarried | crates/packet/src/lib.rs:434-476 | bare messages and messages behind an IPv4 header of any length or an IPv6 header with any admissible chain are found |
| PacketParsing.QuotedSynV4 | crates/packet/src/lib.rs:478-527 | the IP header and 8 bytes of a built SYN, with hop limit and header checksum rewritten, parse back to its key |
| PacketParsing.QuotedSynV6 | crates/packet/src/lib.rs:478-527 | the same for IPv6 |
| PacketParsing.QuotedSynIsRecognised | crates/packet/src/lib.rs:143-170 | a Time Exceeded message quoting a built SYN correlates with exactly the TCP keys of its family and ports that have no sequence number or its own |
| PacketParsing.EchoReplyIsRecognised | crates/packet/src/lib.rs:384-432 | an echo reply correlates with exactly the ICMP keys of its family with its identifier and sequence number |
| PacketParsing.QuotedEchoIsRecognised | crates/packet/src/lib.rs:478-527 | an error message of any kind quoting an echo request, behind any admissible headers, correlates with exactly the request's key |
| PacketParsing.QuotedUdpIsRecognised | crates/packet/src/lib.rs:478-527 | an error message that quotes a UDP datagram correlates with exactly the UDP key of its family, source port and destination port |
| PacketParsing.ReportedFields | crates/packet/src/lib.rs:404-431 | code, next-hop MTU and source of a reply are those of its fields; only fragmentation-needed and Packet Too Big errors have an MTU |
| PacedRunner.Runner.Collect | crates/path-io/src/native/pacing.rs:212-231 | joining a worker removes it and records its output or its failure |
| PacedRunner.Runner.Await | crates/path-io/src/native/pacing.rs:93-96 | waiting for the next send ends in the polling loop or, cancelled, outside the job loop |
| PacedRunner.Runner.Poll | crates/path-io/src/native/pacing.rs:97-121 | the polling loop collects finished workers until the run is cancelled, has failed, or has room for one more |
| PacedRunner.Runner.Spawn | crates/path-io/src/native/pacing.rs:123-141 | spawning the worker of a job, or recording that it failed |
| PacedRunner.Runner.NextJob | crates/path-io/src/native/pacing.rs:93-143 | the body of the job loop |
| PacedRunner.Runner.JobLoop | crates/path-io/src/native/pacing.rs:92-144 | the job loop follows the transition system and leaves it where the source does |
| PacedRunner.Runner.FinalLoop | crates/path-io/src/native/pacing.rs:146-162 | so does the loop that waits for the workers still running |
| PacedRunner.FinalState | crates/path-io/src/native/pacing.rs:146-162 | once the last worker is joined no event has any effect |
| PacedRunner.RunConcurrent | crates/path-io/src/native/pacing.rs:86-166 | the three loops together refine the transition system on every event sequence |
| PacedRunner.VerdictAppend | crates/path-io/src/native/pacing.rs:233-244 | `record_failure` keeps the first error that is not a cancellation, or else the cancellation |
| PacedRunner.RunnerBookkeeping | crates/path-io/src/native/pacing.rs:69-166 | in every interleaving: at most `max_outstanding` workers, a prefix of the jobs spawned, each joined once or outstanding, the results are the successful joins, the failure is the first real error |
| PacedRunner.SpawnsExactlyWithRoom | crates/path-io/src/native/pacing.rs:97-141 | an event spawns the next job exactly when the polling loop finds neither cancellation nor failure, and room for a worker |
| PacedRunner.CanComplete | crates/path-io/src/native/pacing.rs:86-166 | for every number of jobs and every bound there is a run that does all of them |
| PacedRunner.NoFailureMeansAllSucceeded | crates/path-io/src/native/pacing.rs:69-166 | a run that ends without a failure ran every job, and every job succeeded |
| PacedRunner.NothingSpawnedAfterFailure | crates/path-io/src/native/pacing.rs:110-119 | nothing is spawned once a failure is recorded |
| PacedRunner.ClampOutstanding | crates/path-io/src/native/pacing.rs:169-181 | the largest bound, at least 1 and at most the request, whose descriptors fit the limit |
| Paging.BoundedPage | crates/runtime/src/reports/paging.rs:13-49 | the page with the most rows that fits 1 MiB, or an error exactly when not even the empty page fits |
| Paging.CollectRows | crates/runtime/src/reports/paging.rs:93-120 | the row loop retains a contiguous run of rows from the offset, never empty if there is one |
| Paging.ReadPage | crates/runtime/src/reports/paging.rs:62-123 | a page holds exactly the rows from `offset` to `next_offset`, advances if and only if one row fits beside the metadata, and fails only for a bad limit or when not even the empty page fits |
| Paging.ReadStuckReport | crates/runtime/src/reports/paging.rs:62-123 | a report whose only page is empty although a row follows |
| Paging.ScanCsv | crates/runtime/src/reports/csv_file.rs:118-144 | the single pass retains a contiguous run of rows from the offset and fails only on oversized rows |
| Paging.ReadCsvPage | crates/runtime/src/reports/csv_file.rs:118-147 | a CSV page is exact and always advances |
| Paging.FollowJson | crates/runtime/src/reports/paging.rs:62-123 | following `next_offset` from 0 terminates and yields each row once, in order, whenever there is room for one row |
| Paging.FollowCsv | crates/runtime/src/reports/csv_file.rs:118-147 | for CSV reports within the row limits this always holds |
| Paging.SmallMetadataLeavesRoom | crates/runtime/src/reports/paging.rs:13-49 | there is room for one row whenever the metadata leaves the space of one largest row |
| DnsNames.BuildQuery | crates/path-trace/src/dns.rs:201-216 | a query is built exactly for names whose labels have 1 to 63 bytes, with the layout of section 4.1 of RFC 1035 |
| DnsNames.ReadNameLoop | crates/path-trace/src/dns.rs:284-318 | the loop with its bounded recursion terminates on every byte string and computes the recursive reading |
| DnsNames.ReadName | crates/path-trace/src/dns.rs:284-318 | a successful reading ends behind where it began and within the message |
| DnsNames.ReadEncoded | crates/path-trace/src/dns.rs:284-318 | encoded labels read back as themselves, followed by whatever stands behind them |
| DnsNames.QueryRoundTrip | crates/path-trace/src/dns.rs:201-216 | reading at offset 12 of a query returns its name and the offset of its type field, and so does skipping |
| DnsNames.QueryLayout | crates/path-trace/src/dns.rs:202-214 | the fixed fields of every query: transaction, recursion desired, one question and no records, type and class |
| DnsNames.CompressedName | crates/path-trace/src/dns.rs:295-304 | a compressed name is its own labels and then the name its pointer leads to (section 4.1.4 of RFC 1035) |
| DnsNames.CyclesAreRefused | crates/path-trace/src/dns.rs:284-287 | names that lead into each other through pointers, whatever labels stand before the pointers, are refused as a loop |
| DnsNames.ChainLimit | crates/path-trace/src/dns.rs:284-304 | a chain of pointers to a name is followed if and only if it has at most 16 of them |
| DnsNames.LabelLoopIsRefused | crates/path-trace/src/dns.rs:295-304 | the ordinary loop of a label and a pointer back to it |
| TuningPlans.RetainApps | crates/tuning/src/plan.rs:16-20 | the two `retain` passes keep the first occurrence of every nonempty path |
| TuningPlans.NormalisedIsFixpoint | crates/tuning/src/plan.rs:11-20 | sorting and removing duplicates keeps a configuration valid and changes nothing the second time |
| TuningPlans.HelperAcceptsExactlyProducedPlans | crates/helper/src/protocol.rs:172-178 | the helper's canonicality check accepts a plan if and only if planning can produce it |
| TuningPlans.PlannedPortsAreTheRequestedOnes | crates/tuning/src/plan.rs:14-35 | a plan reconciles each requested port once, in ascending order |
| TuningPlans.BackupComesFirst | crates/tuning/src/plan.rs:22-71 | in every plan nothing changes the machine before the backup is written and verified, nothing is restored before the backup is validated and staged, and only the action that asks for it does either |
| TuningPlans.AppliedSteps | crates/tuning/src/plan.rs:24-57 | which optional steps a plan that applies settings has, with the power plan that the measured profile implies |
| TuningPlans.MutatingPlans | crates/tuning/src/plan.rs:70-78 | a plan changes something, and needs the helper, exactly if it is neither a check nor a dry run |
| TuningPlans.PlansAreBounded | crates/tuning/src/plan.rs:11-20 | every plan has a DSCP value of at most 63, at most 100 nonzero ports, and at most 100 different paths, which are those requested |
| PathPlans.BuildPlan | crates/path-trace/src/lib.rs:277-345 | the checked count of a plan equals the number of its items; it fails exactly for empty dimensions, an invalid host, no items, or overflow |
| PathPlans.ItemsAreValid | crates/path-trace/src/lib.rs:277-297 | every item has a valid host and a round that applies to its type |
| PathPlans.ItemsAreExactly | crates/path-trace/src/lib.rs:277-297 | a plan has exactly the combinations of its rounds, its types and the hosts of the type's family, without TCP in the MTU 1400 round |
| Execution.Run.RunTest | crates/runtime/src/execution.rs:395-440 | the body of the suite loop is one step |
| Execution.Run.RunSuite | crates/runtime/src/execution.rs:393-441 | the suite loop, with its set of saturated pairs, is the fold over the tests |
| Execution.Run.RunItems | crates/runtime/src/execution.rs:450-513 | the path loops are the fold over the items |
| Execution.Run.Execute | crates/runtime/src/execution.rs:360-562 | a whole request, workflows with nested requests included, over the mutable counters |
| Execution.RunConserves | crates/runtime/src/execution.rs:360-562 | a run neither cancelled nor stopped by an error ends with completed + skipped equal to the planned count; no run accounts for more or fails more than it completes |
| Execution.SuiteRunReachesPlannedTotal | crates/throughput/src/plan.rs:88-92 | for a throughput suite that count is the plan's `total_tests` |
| Execution.PathRunReachesPlannedTotal | crates/runtime/src/execution.rs:443-514 | for a path plan it is the plan's `total_items`, and no item is skipped |
| Execution.UndisturbedRunCompletes | crates/runtime/src/execution.rs:360-562 | a run that nothing disturbs finishes and completes every planned measurement |
| Execution.SuiteCounts | crates/runtime/src/execution.rs:395-440 | completed, failed and in breach are the numbers of attempted tests that were recorded, that ended in an error, and whose result was in breach |
| Execution.ItemCounts | crates/runtime/src/execution.rs:450-513 | the same for path items |
| Execution.SuiteTrace | crates/runtime/src/execution.rs:395-440 | the loss by which a test saturates its pair is the one measured in its own turn |
| Execution.SkippedExactlyWhenSaturated | crates/runtime/src/execution.rs:393-421 | a test is skipped if and only if it is a saturation test whose (DSCP, direction) pair reached the loss threshold earlier in the run |

## Left out

- TraceRun: sample recording, error texts, the final status and DNS enrichment after the drain; they do not influence the counters. `HopStatistics` covers the samples.
- TracePorts: uniqueness of ICMP (identifier, sequence) and TCP (port, sequence) pairs, which the derivations in crates/path-io/src/native.rs do not guarantee for large ordinals.
- UdpPacing: the sender's `bytes` and `packets` after the warm-up, and the rounding of the interval from `f64`; the interval is an input.
- UdpReceive: decoding the 16 header bytes; a datagram is given by its fields.
- TestResults: the local byte and rate figures of `build_result`, jitter selection, and JSON access; a missing or ill-typed field is `None`.
- Replay.NotAcceptedAgain: assumes that wall and monotonic clock advance together (a constant offset) and that frames are listed in the order in which they take the cache's lock; HMAC and the peer check are inputs.
- Replay.AcceptedIff: assumes the same order of frames, and so does `AnswerOf`.
- Replay.SlackIsTight: for clocks that stay within the range of `i64` milliseconds during the run; beyond it nothing is accepted.
- Admission: the checks of `handle` before admission (one event, after which the permit is released), lock poisoning, the `Status` message, the cleanup timeout (it appears as an operation dropped unfinished), and cancellation of a token because its client disconnected.
- ThroughputPlan: `estimated_test_seconds`, the IP version, and JSON layering of configurations.
- HopStatistics: floating-point rounding and the square root (the variance is compared); the responders' `Moments` are values in a map, so that their update in place is not modelled; the flattened label list of a hop.
- UdpReceive.MeasuredIsTheTail: assumes that the instants read during a run never go back, as `tokio::time::Instant` promises.
- UdpReceive.ReportedJitter: assumes the same; the jitter of the whole run (`WholeRunJitter`) does not depend on it.
- Packet: the builders' `Vec` capacity and the checksum of UDP datagrams, which the kernel fills in.
- PacketParsing: MPLS extension objects (RFC 4950) and `parse_tcp_response`.
- PacedRunner: `run_sequential`, the spacing of sends in `wait_until`, and querying the descriptor limit.
- Paging: JSON and CSV syntax; a row is its content and the size of its JSON text, and reading a file never changes it between pages.
- Paging.FollowJson: assumes room for one row beside the metadata at every offset; `ReadPage` says exactly what happens otherwise.
- DnsNames: `String::from_utf8_lossy` is a parameter that must leave valid labels alone for the round trips; `parse_response` and sockets.
- TuningPlans: `Path::components` in validation, which on the paths that pass the other checks finds nothing that the search for `..` does not; lossy conversion of paths that are not Unicode.
- PathPlans: warnings, and the basic plan of crates/path-basic/src/lib.rs, whose fold is the same without the round filter.
- Execution: warnings, degraded counts, exit codes, the files themselves (a write may fail), and the replacement of the target by its address after preflight.
- Sockets, polling, transports of other platforms, credentials, system services, the desktop application and logging.
- Statistics of `measure_hops_with_probe`, saved reports other than pages, and the tuning backup.
