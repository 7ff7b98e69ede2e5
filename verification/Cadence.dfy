/** The adaptive interval-per-host scheduler of crates/path-trace/src/cadence.rs.
    Instants and durations are nanoseconds. */
module CadenceModel {
  import opened Common

  datatype Limits = Limits(firstTtl: nat, maxTtl: nat, interval: nat)

  /** The mutable part of a scheduler: which probe comes next, and when. */
  datatype Schedule = Schedule(cycles: nat, ttl: nat, hosts: nat, deadline: nat)

  ghost predicate Fits(limits: Limits, s: Schedule) {
    limits.firstTtl <= s.ttl <= limits.maxTtl && 1 <= s.hosts
  }

  function Start(limits: Limits, start: nat): Schedule {
    Schedule(0, limits.firstTtl, 10, start + limits.interval / 10)
  }

  /** How many of the hops first..ttl-1 have never answered. */
  function Unknown(known: seq<bool>, first: nat, ttl: nat): nat
    requires first <= ttl <= |known|
  {
    if first == ttl then 0
    else (if known[ttl - 1] then 0 else 1) + Unknown(known, first, ttl - 1)
  }

  /** Whether the probe just sent is the last one of its cycle. */
  predicate Wraps(limits: Limits, ttl: nat, known: seq<bool>, destination: Option<nat>)
    requires limits.firstTtl <= ttl <= limits.maxTtl < |known|
  {
    || (destination.Some? && destination.value <= ttl)
    || Unknown(known, limits.firstTtl, ttl) > 12
    || ttl == limits.maxTtl
  }

  /** The pause before the next probe. */
  function Gap(interval: nat, hosts: nat): nat
    requires hosts > 0
  {
    interval / hosts
  }

  /** The schedule after the probe at s.ttl went out at `now`. */
  function Advance(limits: Limits, s: Schedule, now: nat, known: seq<bool>, destination: Option<nat>): (r: Schedule)
    requires Fits(limits, s) && limits.maxTtl < |known|
    requires destination.Some? ==> limits.firstTtl <= destination.value
    ensures Fits(limits, r)
    ensures r.cycles == s.cycles ==> r.ttl == s.ttl + 1
    ensures r.cycles != s.cycles ==> r.cycles == s.cycles + 1 && r.ttl == limits.firstTtl
    ensures s.ttl == limits.maxTtl ==> r.cycles == s.cycles + 1
  {
    var wraps := Wraps(limits, s.ttl, known, destination);
    var hosts :=
      if wraps then Min(if destination.Some? then destination.value else s.ttl, s.ttl) - limits.firstTtl + 1
      else s.hosts;
    Schedule(
      if wraps then s.cycles + 1 else s.cycles,
      if wraps then limits.firstTtl else s.ttl + 1,
      hosts,
      now + Gap(limits.interval, hosts))
  }

  /** The next probe is due one host's share of the interval after this one was really sent: a late
      probe moves the deadline and is never made up for, and `hosts` such gaps fill the interval up to
      the nanoseconds the division drops. */
  lemma NextDeadlineFollowsTheSend(limits: Limits, s: Schedule, now: nat, known: seq<bool>, destination: Option<nat>)
    requires Fits(limits, s) && limits.maxTtl < |known|
    requires destination.Some? ==> limits.firstTtl <= destination.value
    ensures var r := Advance(limits, s, now, known, destination);
            && now <= r.deadline
            && r.hosts * (r.deadline - now) <= limits.interval < r.hosts * (r.deadline - now) + r.hosts
  {
    var hosts := Advance(limits, s, now, known, destination).hosts;
    Division(limits.interval, hosts);
  }

  lemma Division(interval: nat, hosts: nat)
    requires hosts > 0
    ensures hosts * Gap(interval, hosts) <= interval < hosts * Gap(interval, hosts) + hosts
  {
    assert interval == hosts * (interval / hosts) + interval % hosts;
  }

  /** When a cycle ends, the host estimate is the number of hops from the first one to the nearest
      answer of the destination, or all those swept; it never exceeds the sweep. */
  lemma EstimateCountsTheSweep(limits: Limits, s: Schedule, now: nat, known: seq<bool>, destination: Option<nat>)
    requires Fits(limits, s) && limits.maxTtl < |known|
    requires destination.Some? ==> limits.firstTtl <= destination.value
    ensures var r, swept := Advance(limits, s, now, known, destination), s.ttl - limits.firstTtl + 1;
            && (r.cycles == s.cycles ==> r.hosts == s.hosts)
            && (r.cycles != s.cycles ==> 1 <= r.hosts <= swept)
            && (r.cycles != s.cycles && r.hosts < swept ==> destination == Some(limits.firstTtl + r.hosts - 1))
            && (r.cycles != s.cycles && r.hosts == swept ==> destination.None? || s.ttl <= destination.value)
  {
    var wraps := Wraps(limits, s.ttl, known, destination);
    assert Advance(limits, s, now, known, destination).cycles != s.cycles <==> wraps;
  }

  class Cadence {
    const limits: Limits
    var cycles: nat
    var ttl: nat
    var deadline: nat
    var estimatedHosts: nat

    function View(): Schedule
      reads this
    {
      Schedule(cycles, ttl, estimatedHosts, deadline)
    }

    constructor (start: nat, limits: Limits)
      requires limits.firstTtl <= limits.maxTtl
      ensures this.limits == limits
      ensures View() == Start(limits, start) && Fits(limits, View())
      ensures cycles == 0 && ttl == limits.firstTtl && estimatedHosts == 10
      ensures deadline == start + limits.interval / 10
    {
      this.limits := limits;
      cycles := 0;
      ttl := limits.firstTtl;
      deadline := start + limits.interval / 10;
      estimatedHosts := 10;
    }

    method Dispatched(now: nat, known: array<bool>, destination: Option<nat>)
      requires Fits(limits, View()) && limits.maxTtl < known.Length
      requires destination.Some? ==> limits.firstTtl <= destination.value
      modifies this
      ensures View() == Advance(limits, old(View()), now, known[..], destination)
    {
      var unknown := 0;
      for hop := limits.firstTtl to ttl
        invariant unknown == Unknown(known[..], limits.firstTtl, hop)
      {
        if !known[hop] {
          unknown := unknown + 1;
        }
      }
      if (destination.Some? && destination.value <= ttl) || unknown > 12 || ttl == limits.maxTtl {
        var bound := if destination.Some? then destination.value else ttl;
        estimatedHosts := Min(bound, ttl) - limits.firstTtl + 1;
        cycles := cycles + 1;
        ttl := limits.firstTtl;
      } else {
        ttl := ttl + 1;
      }
      deadline := now + Gap(limits.interval, estimatedHosts);
    }
  }
}
