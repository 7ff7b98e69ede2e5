/** The item lists of path runs: TracePlan of crates/path-trace/src/lib.rs and BasicPlan of
    crates/path-basic/src/lib.rs. `validHost` stands for the host syntax check of path-io. */
module PathPlans {
  import opened Common

  datatype Family = Ipv4 | Ipv6

  datatype Round = Standard | Mtu1400 | TosCs5 | TosAf11 | Ttl10 | Ttl64 | FirstTtl3 | Timeout5

  datatype Protocol = Icmp | Udp | Tcp | Mpls | As

  datatype TraceType = TraceType(protocol: Protocol, family: Family)

  datatype Item = Item(round: Round, kind: TraceType, host: string)

  datatype Plan = Plan(rounds: seq<Round>, types: seq<TraceType>, ipv4: seq<string>, ipv6: seq<string>, total: nat)

  datatype Error = InvalidPlan

  /** TCP SYN probes have a fixed size, so the MTU1400 round does not apply to them. */
  predicate Applies(round: Round, kind: TraceType) {
    !(round == Mtu1400 && kind.protocol == Tcp)
  }

  function Hosts(p: Plan, kind: TraceType): seq<string> {
    if kind.family == Ipv4 then p.ipv4 else p.ipv6
  }

  /** for host in hosts */
  function HostItems(round: Round, kind: TraceType, hosts: seq<string>): seq<Item> {
    seq(|hosts|, i requires 0 <= i < |hosts| => Item(round, kind, hosts[i]))
  }

  /** for kind in types[..n] */
  function TypeItems(p: Plan, round: Round, n: nat): seq<Item>
    requires n <= |p.types|
  {
    if n == 0 then []
    else
      var kind := p.types[n - 1];
      TypeItems(p, round, n - 1) + if Applies(round, kind) then HostItems(round, kind, Hosts(p, kind)) else []
  }

  /** for round in rounds[..n] */
  function RoundItems(p: Plan, n: nat): seq<Item>
    requires n <= |p.rounds|
  {
    if n == 0 then [] else RoundItems(p, n - 1) + TypeItems(p, p.rounds[n - 1], |p.types|)
  }

  function Items(p: Plan): seq<Item> {
    RoundItems(p, |p.rounds|)
  }

  /** The recorded total is the number of items, and fits its u64 field. */
  predicate Counted(p: Plan) {
    p.total == |Items(p)| && p.total <= U64_MAX
  }

  /** build_plan: the nested fold counts with checked u64 additions. */
  method BuildPlan(
    rounds: seq<Round>, types: seq<TraceType>, ipv4: seq<string>, ipv6: seq<string>, validHost: string -> bool)
    returns (r: Result<Plan, Error>)
    ensures r.Ok? ==>
              && r.value == Plan(rounds, types, ipv4, ipv6, r.value.total)
              && Counted(r.value) && r.value.total > 0
              && forall item :: item in Items(r.value) ==> validHost(item.host) && Applies(item.round, item.kind)
    ensures r.Err? <==>
            var n := |Items(Plan(rounds, types, ipv4, ipv6, 0))|;
            || rounds == [] || types == []
            || (exists host :: host in ipv4 + ipv6 && !validHost(host))
            || n == 0 || n > U64_MAX
  {
    ghost var p := Plan(rounds, types, ipv4, ipv6, 0);
    if rounds == [] || types == [] {
      return Err(InvalidPlan);
    }
    var hosts := ipv4 + ipv6;
    for i := 0 to |hosts|
      invariant forall j :: 0 <= j < i ==> validHost(hosts[j])
    {
      if !validHost(hosts[i]) {
        assert hosts[i] in hosts;
        return Err(InvalidPlan);
      }
    }
    var total: nat := 0;
    for i := 0 to |rounds|
      invariant total == |RoundItems(p, i)| <= U64_MAX
    {
      for j := 0 to |types|
        invariant total == |RoundItems(p, i)| + |TypeItems(p, rounds[i], j)| <= U64_MAX
      {
        if Applies(rounds[i], types[j]) {
          var more := if types[j].family == Ipv4 then |ipv4| else |ipv6|;
          if total + more > U64_MAX {
            TooMany(p, i, j + 1);
            return Err(InvalidPlan);
          }
          total := total + more;
        }
      }
    }
    if total == 0 {
      return Err(InvalidPlan);
    }
    var plan := Plan(rounds, types, ipv4, ipv6, total);
    SameItems(p, plan, |rounds|);
    ItemsAreValid(plan, |rounds|, validHost);
    r := Ok(plan);
  }

  /** A partial count never exceeds the full one. */
  lemma {:induction false} TooMany(p: Plan, i: nat, j: nat)
    requires i < |p.rounds| && j <= |p.types|
    ensures |RoundItems(p, i)| + |TypeItems(p, p.rounds[i], j)| <= |Items(p)|
    decreases |p.rounds| - i, |p.types| - j
  {
    if j < |p.types| {
      TooMany(p, i, j + 1);
    } else if i + 1 < |p.rounds| {
      TooMany(p, i + 1, 0);
    }
  }

  /** The recorded total does not influence the items. */
  lemma {:induction false} SameTypeItems(p: Plan, q: Plan, round: Round, n: nat)
    requires n <= |p.types| && q == p.(total := q.total)
    ensures TypeItems(p, round, n) == TypeItems(q, round, n)
  {
    if n > 0 {
      SameTypeItems(p, q, round, n - 1);
    }
  }

  lemma {:induction false} SameItems(p: Plan, q: Plan, n: nat)
    requires n <= |p.rounds| && q == p.(total := q.total)
    ensures RoundItems(p, n) == RoundItems(q, n)
  {
    if n > 0 {
      SameItems(p, q, n - 1);
      SameTypeItems(p, q, p.rounds[n - 1], |p.types|);
    }
  }

  lemma {:induction false} TypeItemsHave(p: Plan, round: Round, n: nat, item: Item)
    requires n <= |p.types|
    ensures item in TypeItems(p, round, n)
            <==> && item.round == round && item.kind in p.types[..n] && Applies(round, item.kind)
                 && item.host in Hosts(p, item.kind)
  {
    if n > 0 {
      var kind := p.types[n - 1];
      TypeItemsHave(p, round, n - 1, item);
      assert p.types[..n] == p.types[..n - 1] + [kind];
      HostItemsHave(round, kind, Hosts(p, kind), item);
    }
  }

  lemma HostItemsHave(round: Round, kind: TraceType, hosts: seq<string>, item: Item)
    ensures item in HostItems(round, kind, hosts) <==> item.round == round && item.kind == kind && item.host in hosts
  {
    if item.round == round && item.kind == kind && item.host in hosts {
      var i :| 0 <= i < |hosts| && hosts[i] == item.host;
      assert HostItems(round, kind, hosts)[i] == item;
    }
  }

  lemma {:induction false} RoundItemsHave(p: Plan, n: nat, item: Item)
    requires n <= |p.rounds|
    ensures item in RoundItems(p, n)
            <==> && item.round in p.rounds[..n] && item.kind in p.types && Applies(item.round, item.kind)
                 && item.host in Hosts(p, item.kind)
  {
    if n > 0 {
      RoundItemsHave(p, n - 1, item);
      TypeItemsHave(p, p.rounds[n - 1], |p.types|, item);
      assert p.rounds[..n] == p.rounds[..n - 1] + [p.rounds[n - 1]];
      assert p.types[..|p.types|] == p.types;
    }
  }

  /** A plan has exactly the items of its rounds, its types and the hosts of the type's family, without TCP
      probes in the MTU1400 round. */
  lemma ItemsAreExactly(p: Plan, item: Item)
    ensures item in Items(p)
            <==> && item.round in p.rounds && item.kind in p.types
                 && !(item.round == Mtu1400 && item.kind.protocol == Tcp)
                 && item.host in (match item.kind.family case Ipv4 => p.ipv4 case Ipv6 => p.ipv6)
  {
    RoundItemsHave(p, |p.rounds|, item);
    assert p.rounds[..|p.rounds|] == p.rounds;
  }

  ghost predicate Valid(item: Item, validHost: string -> bool) {
    validHost(item.host) && Applies(item.round, item.kind)
  }

  lemma {:induction false} TypeItemsAreValid(p: Plan, round: Round, n: nat, validHost: string -> bool)
    requires n <= |p.types| && forall host :: host in p.ipv4 + p.ipv6 ==> validHost(host)
    ensures forall item :: item in TypeItems(p, round, n) ==> Valid(item, validHost)
  {
    if n > 0 {
      TypeItemsAreValid(p, round, n - 1, validHost);
      var hosts := Hosts(p, p.types[n - 1]);
      forall i | 0 <= i < |hosts| ensures validHost(hosts[i]) {
        assert hosts[i] in p.ipv4 + p.ipv6;
      }
    }
  }

  lemma {:induction false} ItemsAreValid(p: Plan, n: nat, validHost: string -> bool)
    requires n <= |p.rounds| && forall host :: host in p.ipv4 + p.ipv6 ==> validHost(host)
    ensures forall item :: item in RoundItems(p, n) ==> Valid(item, validHost)
  {
    if n > 0 {
      ItemsAreValid(p, n - 1, validHost);
      TypeItemsAreValid(p, p.rounds[n - 1], |p.types|, validHost);
    }
  }
}
