/** The probe schedule of a whole trace run and the UDP ports that identify its probes:
    TraceSettings validation, probe ordinals and the port arithmetic of udp_trace_probe_scoped. */
module TracePorts {
  import opened Common
  import opened TraceRun
  import PathPlans

  const U16_MAX := 65535
  const U32_MAX := 0xFFFF_FFFF

  // ---------------------------------------------------------------------------------------
  // The schedule
  // ---------------------------------------------------------------------------------------

  /** The identity of a probe within its run. */
  function Ordinal(maxHops: nat, probe: Probe): nat {
    probe.cycle * (maxHops + 1) + probe.ttl
  }

  lemma NextOrdinal(first: nat, max: nat, p: Probe, q: Probe)
    requires first <= p.ttl <= max
    requires q == Probe(p.cycle, p.ttl + 1) || (q == Probe(p.cycle + 1, first) && 0 < first)
    ensures Ordinal(max, p) < Ordinal(max, q)
  {
    assert (p.cycle + 1) * (max + 1) == p.cycle * (max + 1) + max + 1;
  }

  /** Ordinals grow along the schedule, so no (cycle, TTL) pair is ever sent twice. */
  lemma {:induction false} OrdinalsIncrease(probes: seq<Probe>, first: nat, max: nat, i: nat, j: nat)
    requires Sweeps(probes, first, max) && 0 < first
    requires i < j < |probes|
    ensures Ordinal(max, probes[i]) < Ordinal(max, probes[j])
    decreases j
  {
    NextOrdinal(first, max, probes[j - 1], probes[j]);
    if i < j - 1 {
      OrdinalsIncrease(probes, first, max, i, j - 1);
    }
  }

  /** Position of a probe if every cycle swept all hops: an upper bound on its real position. */
  function Slot(first: nat, max: nat, probe: Probe): int {
    probe.cycle * (max - first + 1) + probe.ttl - first
  }

  lemma {:induction false} PositionAtMostSlot(probes: seq<Probe>, first: nat, max: nat, i: nat)
    requires Sweeps(probes, first, max) && i < |probes|
    ensures i <= Slot(first, max, probes[i])
  {
    if i == 0 {
      assert 0 * (max - first + 1) == 0;
    } else {
      PositionAtMostSlot(probes, first, max, i - 1);
      var p := probes[i - 1];
      assert (p.cycle + 1) * (max - first + 1) == p.cycle * (max - first + 1) + max - first + 1;
    }
  }

  /** Every hop of a cycle is preceded by the hop before it: a cycle's TTLs are a contiguous run. */
  predicate Contiguous(probes: seq<Probe>, first: nat) {
    forall i :: 0 <= i < |probes| && first < probes[i].ttl ==>
      0 < i && probes[i - 1] == Probe(probes[i].cycle, probes[i].ttl - 1)
  }

  lemma ReachableSchedule(cfg: Settings, start: nat, events: seq<Event>)
    requires cfg.Valid()
    ensures var probes := SentProbes(Execute(cfg, start, events).log);
            && Sweeps(probes, cfg.firstTtl, cfg.maxHops)
            && (forall i :: 0 <= i < |probes| ==> probes[i].cycle < cfg.cycles)
    ensures Execute(cfg, start, events).run.schedule.hosts >= 1
  {
    ReachableInv(cfg, start, events);
    var o := Execute(cfg, start, events);
    var probes, next := SentProbes(o.log), Probe(o.run.schedule.cycles, o.run.schedule.ttl);
    DropLast(probes, next, cfg.firstTtl, cfg.maxHops);
  }

  lemma DropLast(probes: seq<Probe>, next: Probe, first: nat, max: nat)
    requires Sweeps(probes + [next], first, max)
    ensures Sweeps(probes, first, max)
  {
    assert forall i :: 0 <= i < |probes| ==> (probes + [next])[i] == probes[i];
  }

  lemma SweepLength(probes: seq<Probe>, cycles: nat, first: nat, max: nat)
    requires Sweeps(probes, first, max) && first <= max
    requires forall i :: 0 <= i < |probes| ==> probes[i].cycle < cycles
    ensures |probes| <= cycles * (max - first + 1)
  {
    var width := max - first + 1;
    if probes == [] {
      ProductOrder(0, cycles, width);
    } else {
      var last := probes[|probes| - 1];
      PositionAtMostSlot(probes, first, max, |probes| - 1);
      assert last.cycle * width + width == (last.cycle + 1) * width;
      ProductOrder(last.cycle + 1, cycles, width);
    }
  }

  lemma NoRepeats(probes: seq<Probe>, first: nat, max: nat)
    requires Sweeps(probes, first, max) && 0 < first
    ensures forall i, j :: 0 <= i < j < |probes| ==> probes[i] != probes[j]
  {
    forall i, j | 0 <= i < j < |probes| ensures probes[i] != probes[j] {
      OrdinalsIncrease(probes, first, max, i, j);
    }
  }

  lemma ContiguousSweeps(probes: seq<Probe>, first: nat, max: nat)
    requires Sweeps(probes, first, max)
    ensures Contiguous(probes, first)
  {
  }

  /** However replies arrive, each cycle is a contiguous TTL run from the first hop, no probe is
      repeated, and a run sends at most cycles * (max - first + 1) probes. */
  lemma ScheduleOfARun(cfg: Settings, start: nat, events: seq<Event>)
    requires cfg.Valid()
    ensures var probes := SentProbes(Execute(cfg, start, events).log);
            && Sweeps(probes, cfg.firstTtl, cfg.maxHops)
            && Contiguous(probes, cfg.firstTtl)
            && |probes| <= cfg.cycles * (cfg.maxHops - cfg.firstTtl + 1)
            && (forall i, j :: 0 <= i < j < |probes| ==> probes[i] != probes[j])
            && (forall i :: 0 <= i < |probes| ==> probes[i].cycle < cfg.cycles)
    ensures Execute(cfg, start, events).run.schedule.hosts >= 1
  {
    ReachableSchedule(cfg, start, events);
    SweepFacts(SentProbes(Execute(cfg, start, events).log), cfg.cycles, cfg.firstTtl, cfg.maxHops);
  }

  lemma SweepFacts(probes: seq<Probe>, cycles: nat, first: nat, max: nat)
    requires Sweeps(probes, first, max) && 0 < first <= max
    requires forall i :: 0 <= i < |probes| ==> probes[i].cycle < cycles
    ensures Contiguous(probes, first) && |probes| <= cycles * (max - first + 1)
    ensures forall i, j :: 0 <= i < j < |probes| ==> probes[i] != probes[j]
  {
    SweepLength(probes, cycles, first, max);
    NoRepeats(probes, first, max);
    ContiguousSweeps(probes, first, max);
  }

  // ---------------------------------------------------------------------------------------
  // Settings
  // ---------------------------------------------------------------------------------------

  datatype ProbeKind = Icmp | Udp | Tcp

  /** Durations are nanoseconds. */
  datatype TraceSettings = TraceSettings(
    cycles: nat, interval: nat, runTimeout: nat, probeTimeout: nat, maxHops: nat, firstTtl: nat,
    packetSize: nat, tcpPort: nat, udpBasePort: nat, dnsTimeout: nat)
  {
    /** The ranges of the u16 and u8 fields. */
    predicate Typed() {
      cycles <= U16_MAX && maxHops < 256 && firstTtl < 256 && tcpPort <= U16_MAX && udpBasePort <= U16_MAX
    }

    function ForRun(): Settings {
      Settings(cycles, firstTtl, maxHops, interval)
    }
  }

  datatype PlanError = InvalidPlan

  const SECOND := 1_000_000_000

  function Validate(t: TraceSettings): Result<(), PlanError> {
    if t.cycles > 10000 || t.interval > 60 * SECOND || t.runTimeout > 86400 * SECOND
       || t.probeTimeout > 300 * SECOND || t.dnsTimeout > 300 * SECOND || t.packetSize > 65535 then Err(InvalidPlan)
    else if t.cycles == 0 || t.maxHops == 0 || t.firstTtl == 0 then Err(InvalidPlan)
    else if t.firstTtl > t.maxHops then Err(InvalidPlan)
    else if t.interval == 0 || t.runTimeout == 0 || t.probeTimeout == 0 || t.dnsTimeout == 0 then Err(InvalidPlan)
    else if t.packetSize < 64 || t.tcpPort == 0 || t.udpBasePort == 0 then Err(InvalidPlan)
    else Ok(())
  }

  function ValidateForType(t: TraceSettings, kind: ProbeKind): Result<(), PlanError>
    requires t.Typed()
  {
    if Validate(t).Err? then Validate(t)
    else if !kind.Udp? then Ok(())
    else
      var available := U16_MAX - t.udpBasePort + 1;
      var product := (t.cycles - 1) * (t.maxHops + 1);
      if product > U32_MAX || product + t.maxHops > U32_MAX then Err(InvalidPlan)
      else if product + t.maxHops >= available then Err(InvalidPlan)
      else Ok(())
  }

  function Apply(round: PathPlans.Round, t: TraceSettings): TraceSettings {
    match round
    case Mtu1400 => t.(packetSize := 1400)
    case Ttl10 => t.(maxHops := 10)
    case Ttl64 => t.(maxHops := 64)
    case FirstTtl3 => t.(firstTtl := 3)
    case Timeout5 => t.(probeTimeout := 5 * SECOND)
    case _ => t
  }

  /** execute_run_with_probe validates the given settings and the ones the round turns them into. */
  function Configure(round: PathPlans.Round, t: TraceSettings, kind: ProbeKind): Result<TraceSettings, PlanError>
    requires t.Typed()
  {
    if ValidateForType(t, kind).Err? then Err(InvalidPlan)
    else if ValidateForType(Apply(round, t), kind).Err? then Err(InvalidPlan)
    else Ok(Apply(round, t))
  }

  // ---------------------------------------------------------------------------------------
  // Ports
  // ---------------------------------------------------------------------------------------

  /** The port a UDP probe is finally sent to: udp_trace_probe_scoped folds the ordinal into the
      ports above the base, hands the port minus the TTL to udp_trace_scoped as a u16, and that
      function adds the TTL back with a checked addition. */
  function DestinationPort(base: nat, ordinal: nat, ttl: nat): Result<nat, PlanError>
    requires base <= U16_MAX
  {
    var available := U16_MAX - base + 1;
    var port := base + ordinal % available;
    if port <= ttl then Err(InvalidPlan)
    else
      var adjusted := (port - ttl) % (U16_MAX + 1);
      if adjusted + ttl > U16_MAX then Err(InvalidPlan) else Ok(adjusted + ttl)
  }

  lemma OrdinalAtMost(cycles: nat, maxHops: nat, probe: Probe)
    requires probe.cycle < cycles && probe.ttl <= maxHops
    ensures Ordinal(maxHops, probe) <= Ordinal(maxHops, Probe(cycles - 1, maxHops))
  {
    ProductOrder(probe.cycle, cycles - 1, maxHops + 1);
  }

  /** UDP validation accepts bounded settings exactly when every possible probe of the run has a
      port of its own above the base. */
  lemma UdpValidationIsExact(t: TraceSettings)
    requires t.Typed() && Validate(t).Ok?
    ensures ValidateForType(t, Udp).Ok? <==>
            forall probe: Probe :: probe.cycle < t.cycles && probe.ttl <= t.maxHops ==>
              t.udpBasePort + Ordinal(t.maxHops, probe) <= U16_MAX
  {
    var last := Probe(t.cycles - 1, t.maxHops);
    if ValidateForType(t, Udp).Ok? {
      forall probe: Probe | probe.cycle < t.cycles && probe.ttl <= t.maxHops
        ensures t.udpBasePort + Ordinal(t.maxHops, probe) <= U16_MAX
      {
        OrdinalAtMost(t.cycles, t.maxHops, probe);
      }
    } else {
      assert Ordinal(t.maxHops, last) == (t.cycles - 1) * (t.maxHops + 1) + t.maxHops;
      assert !(t.udpBasePort + Ordinal(t.maxHops, last) <= U16_MAX);
    }
  }

  lemma DirectPort(base: nat, ordinal: nat, ttl: nat)
    requires 0 < base && base + ordinal <= U16_MAX && ttl <= ordinal
    ensures DestinationPort(base, ordinal, ttl) == Ok(base + ordinal)
  {
    var available := U16_MAX - base + 1;
    assert ordinal % available == ordinal by { SmallRemainder(ordinal, available); }
  }

  lemma SmallRemainder(a: nat, n: nat)
    requires a < n
    ensures a % n == a
  {
  }

  lemma PortOfProbe(t: TraceSettings, probe: Probe)
    requires t.Typed() && ValidateForType(t, Udp).Ok?
    requires probe.cycle < t.cycles && t.firstTtl <= probe.ttl <= t.maxHops
    ensures DestinationPort(t.udpBasePort, Ordinal(t.maxHops, probe), probe.ttl)
            == Ok(t.udpBasePort + Ordinal(t.maxHops, probe))
  {
    OrdinalAtMost(t.cycles, t.maxHops, probe);
    ProductOrder(0, probe.cycle, t.maxHops + 1);
    DirectPort(t.udpBasePort, Ordinal(t.maxHops, probe), probe.ttl);
  }

  /** The port of a probe of a run with these settings. */
  function PortOf(t: TraceSettings, probe: Probe): Result<nat, PlanError>
    requires t.Typed()
  {
    DestinationPort(t.udpBasePort, Ordinal(t.maxHops, probe), probe.ttl)
  }

  lemma PortsOfSweep(t: TraceSettings, probes: seq<Probe>, i: nat, j: nat)
    requires t.Typed() && ValidateForType(t, Udp).Ok?
    requires Sweeps(probes, t.firstTtl, t.maxHops) && i < j < |probes|
    requires forall k :: 0 <= k < |probes| ==> probes[k].cycle < t.cycles
    ensures PortOf(t, probes[i]).Ok? && PortOf(t, probes[j]).Ok? && PortOf(t, probes[i]) != PortOf(t, probes[j])
  {
    PortOfProbe(t, probes[i]);
    PortOfProbe(t, probes[j]);
    OrdinalsIncrease(probes, t.firstTtl, t.maxHops, i, j);
  }

  lemma ConfiguredIsValid(round: PathPlans.Round, given: TraceSettings)
    requires given.Typed() && Configure(round, given, Udp).Ok?
    ensures var t := Configure(round, given, Udp).value;
            t.Typed() && ValidateForType(t, Udp).Ok? && t.ForRun().Valid()
  {
  }

  /** In every run of a validated UDP trace, no probe's port is rejected or wraps, and no two probes
      share a destination port. */
  lemma UdpPortsAreDistinct(round: PathPlans.Round, given: TraceSettings, start: nat, events: seq<Event>)
    requires given.Typed() && Configure(round, given, Udp).Ok?
    ensures var t := Configure(round, given, Udp).value;
            && t.Typed() && t.ForRun().Valid()
            && var probes := SentProbes(Execute(t.ForRun(), start, events).log);
               && (forall i :: 0 <= i < |probes| ==> PortOf(t, probes[i]).Ok?)
               && (forall i, j :: 0 <= i < j < |probes| ==> PortOf(t, probes[i]) != PortOf(t, probes[j]))
  {
    ConfiguredIsValid(round, given);
    var t := Configure(round, given, Udp).value;
    var probes := SentProbes(Execute(t.ForRun(), start, events).log);
    ScheduleOfARun(t.ForRun(), start, events);
    forall i | 0 <= i < |probes| ensures PortOf(t, probes[i]).Ok? {
      PortOfProbe(t, probes[i]);
    }
    forall i, j | 0 <= i < j < |probes| ensures PortOf(t, probes[i]) != PortOf(t, probes[j]) {
      PortsOfSweep(t, probes, i, j);
    }
  }
}
