/** Test planning: plan, validate and the resumable TestPlanIter of crates/throughput/src/plan.rs,
    and validate_spec of crates/throughput/src/protocol.rs. */
module ThroughputPlan {
  import opened Common

  const MAX_UDP_RATE_BPS := 10_000_000_000
  const MAX_SATURATION_STEPS := 1000

  datatype Protocol = Tcp | Udp | Both

  datatype Direction = Tx | Rx | Bidirectional

  datatype TestPhase = TcpMatrix | UdpFixed | UdpSaturation | Single

  datatype DscpClass =
    | CS0 | CS1 | CS2 | CS3 | CS4 | AF11 | AF12 | AF13 | AF21 | AF22 | AF23
    | AF31 | AF32 | AF33 | AF41 | AF42 | AF43 | CS5 | CS6 | CS7 | EF
  {
    function Tos(): nat {
      match this
      case CS0 => 0   case CS1 => 32  case CS2 => 64  case CS3 => 96   case CS4 => 128
      case AF11 => 40 case AF12 => 48 case AF13 => 56 case AF21 => 72  case AF22 => 80  case AF23 => 88
      case AF31 => 104 case AF32 => 112 case AF33 => 120 case AF41 => 136 case AF42 => 144 case AF43 => 152
      case CS5 => 160 case CS6 => 192 case CS7 => 224 case EF => 184
    }
  }

  /** The parts of SuiteConfig that planning reads. */
  datatype Config = Config(
    target: string, port: nat, duration: nat, omit: nat, protocol: Protocol, singleTest: bool,
    udpStart: nat, udpMax: nat, udpStep: nat, lossThreshold: real,
    streams: seq<nat>, windows: seq<Option<nat>>, dscps: seq<DscpClass>, mtus: seq<nat>,
    maxTotal: Option<nat>, maxRetries: nat, connectTimeout: nat, controlTimeout: nat, maxJson: nat)

  datatype TestSpec = TestSpec(
    id: nat, target: string, port: nat, protocol: Protocol, direction: Direction, dscp: DscpClass, tos: nat,
    streams: nat, window: Option<nat>, rate: Option<nat>, duration: nat, omit: nat, phase: TestPhase)

  datatype PlanError = Validation | BudgetExceeded(planned: nat, maximum: nat)

  datatype Plan = Plan(config: Config, bidirectional: bool, totalTests: nat)

  // ---------------------------------------------------------------------------------------
  // Validation
  // ---------------------------------------------------------------------------------------

  const MAX_CLIENT_TIMEOUT_MS := 300_000

  predicate Whitespace(c: char) {
    var n := c as int;
    9 <= n <= 13 || n == 0x20 || n == 0x85 || n == 0xA0 || n == 0x1680 || 0x2000 <= n <= 0x200A
    || n == 0x2028 || n == 0x2029 || n == 0x202F || n == 0x205F || n == 0x3000
  }

  predicate Control(c: char) {
    c as int < 0x20 || 0x7F <= c as int <= 0x9F
  }

  predicate Forbidden(c: char) {
    Whitespace(c) || Control(c) || c in "/\\;&|`$"
  }

  function Utf8Length(s: string): nat {
    if s == "" then 0
    else
      var n := s[|s| - 1] as int;
      Utf8Length(s[..|s| - 1]) + if n < 0x80 then 1 else if n < 0x800 then 2 else if n < 0x10000 then 3 else 4
  }

  predicate ValidConfig(c: Config) {
    && c.target != "" && Utf8Length(c.target) <= 253 && (forall i :: 0 <= i < |c.target| ==> !Forbidden(c.target[i]))
    && c.port != 0
    && 1 <= c.duration <= 3600
    && (c.maxTotal.Some? ==> c.maxTotal.value <= 1_000_000)
    && c.omit <= 60
    && 1 <= |c.mtus| <= 128 && (forall i :: 0 <= i < |c.mtus| ==> 1 <= c.mtus[i] <= 65500)
    && c.dscps != []
    && 1 <= |c.streams| <= 128 && (forall i :: 0 <= i < |c.streams| ==> 1 <= c.streams[i] <= 128)
    && 1 <= |c.windows| <= 128
    && c.udpStart != 0 && c.udpStep != 0
    && c.udpStart <= MAX_UDP_RATE_BPS && c.udpMax <= MAX_UDP_RATE_BPS && c.udpStep <= MAX_UDP_RATE_BPS
    && 0.0 <= c.lossThreshold <= 100.0
    && c.maxRetries <= 5
    && |c.dscps| <= 21
    && 1 <= c.connectTimeout <= MAX_CLIENT_TIMEOUT_MS && 1 <= c.controlTimeout <= MAX_CLIENT_TIMEOUT_MS
    && 2 <= c.maxJson <= 1024 * 1024
  }

  /** The independent check of a concrete test; `trim` leaves nothing of an all-whitespace target. */
  predicate ValidSpec(s: TestSpec) {
    && s.id != 0
    && (exists i :: 0 <= i < |s.target| && !Whitespace(s.target[i]))
    && Utf8Length(s.target) <= 253
    && (forall i :: 0 <= i < |s.target| ==> !Forbidden(s.target[i]))
    && s.port != 0
    && 1 <= s.duration <= 3600
    && s.omit <= 60
    && 1 <= s.streams <= 128
    && s.tos == s.dscp.Tos()
    && s.protocol != Both
    && (s.protocol == Udp ==> s.rate.Some? && 1 <= s.rate.value <= 10_000_000_000)
  }

  // ---------------------------------------------------------------------------------------
  // The plan
  // ---------------------------------------------------------------------------------------

  function Directions(bidirectional: bool): seq<Direction> {
    if bidirectional then [Tx, Rx, Bidirectional] else [Tx, Rx]
  }

  /** The number of saturation rates, for configurations that have any. */
  function Steps(c: Config): nat
    requires c.udpStep != 0 && c.udpStart < c.udpMax
  {
    Min((c.udpMax - c.udpStart) / c.udpStep + 1, MAX_SATURATION_STEPS)
  }

  function SaturationSteps(c: Config): nat
    requires c.udpStep != 0
  {
    if c.protocol == Tcp || c.singleTest || c.udpMax <= c.udpStart then 0 else Steps(c)
  }

  function TotalTests(c: Config, bidirectional: bool): nat
    requires c.udpStep != 0
  {
    var directions := if bidirectional then 3 else 2;
    var tcpPerDscp := if c.protocol == Udp || c.singleTest then 0 else directions * |c.streams| * |c.windows|;
    var udpPerDscp := if c.protocol == Tcp || c.singleTest then 0 else 2 + 2 * SaturationSteps(c);
    if c.singleTest then 1 else |c.dscps| * (tcpPerDscp + udpPerDscp)
  }

  function MakePlan(c: Config, bidirectional: bool): Result<Plan, PlanError> {
    if !ValidConfig(c) then Err(Validation)
    else
      var total := TotalTests(c, bidirectional);
      if c.maxTotal.Some? && c.maxTotal.value != 0 && total > c.maxTotal.value
      then Err(BudgetExceeded(total, c.maxTotal.value))
      else Ok(Plan(c, bidirectional, total))
  }

  // ---------------------------------------------------------------------------------------
  // The reference: nested loops over the configuration
  // ---------------------------------------------------------------------------------------

  /** A test without its id and the settings all tests share. */
  datatype Case = Case(
    protocol: Protocol, direction: Direction, dscp: DscpClass, streams: nat, window: Option<nat>, rate: Option<nat>,
    phase: TestPhase)

  /** A list of cases in the order of their tests. */
  datatype Cases = Done | Then(head: Case, tail: Cases) {
    function Length(): nat {
      if Done? then 0 else 1 + tail.Length()
    }
  }

  // Each function below is one loop of the nest: the cases its remaining iterations produce,
  // followed by `rest`.

  /** for window in windows[w..] */
  function WindowCases(c: Config, dscp: DscpClass, d: Direction, streams: nat, w: nat, rest: Cases): Cases
    requires w <= |c.windows|
    decreases |c.windows| - w
  {
    if w == |c.windows| then rest
    else Then(Case(Tcp, d, dscp, streams, c.windows[w], None, TcpMatrix), WindowCases(c, dscp, d, streams, w + 1, rest))
  }

  /** for stream count in streams[s..] { for window in windows } */
  function StreamCases(c: Config, dscp: DscpClass, d: Direction, s: nat, rest: Cases): Cases
    requires s <= |c.streams|
    decreases |c.streams| - s
  {
    if s == |c.streams| then rest
    else WindowCases(c, dscp, d, c.streams[s], 0, StreamCases(c, dscp, d, s + 1, rest))
  }

  /** for direction in directions[i..] { for stream count in streams { for window in windows } } */
  function TcpCases(c: Config, dscp: DscpClass, directions: seq<Direction>, i: nat, rest: Cases): Cases
    requires i <= |directions|
    decreases |directions| - i
  {
    if i == |directions| then rest
    else StreamCases(c, dscp, directions[i], 0, TcpCases(c, dscp, directions, i + 1, rest))
  }

  /** for direction in [Tx, Rx][i..], at the start rate */
  function FixedCases(c: Config, dscp: DscpClass, i: nat, rest: Cases): Cases
    requires i <= 2
    decreases 2 - i
  {
    if i == 2 then rest
    else Then(Case(Udp, [Tx, Rx][i], dscp, 1, None, Some(c.udpStart), UdpFixed), FixedCases(c, dscp, i + 1, rest))
  }

  /** for direction in [Tx, Rx][i..], at the given saturation rate */
  function RateCases(dscp: DscpClass, rate: nat, i: nat, rest: Cases): Cases
    requires i <= 2
    decreases 2 - i
  {
    if i == 2 then rest
    else Then(Case(Udp, [Tx, Rx][i], dscp, 1, None, Some(rate), UdpSaturation), RateCases(dscp, rate, i + 1, rest))
  }

  /** for step in k..n { for direction in [Tx, Rx] } */
  function SaturationCases(c: Config, dscp: DscpClass, k: nat, n: nat, rest: Cases): Cases
    requires k <= n
    decreases n - k
  {
    if k == n then rest else RateCases(dscp, c.udpStart + c.udpStep * k, 0, SaturationCases(c, dscp, k + 1, n, rest))
  }

  /** What bounds the loops: the configured lists, the directions and the number of saturation steps. */
  datatype Nest = Nest(c: Config, directions: seq<Direction>, steps: nat)

  function NestOf(c: Config, bidirectional: bool): Nest
    requires c.udpStep != 0
  {
    Nest(c, Directions(bidirectional), SaturationSteps(c))
  }

  /** The fixed UDP tests, then the saturation ramp. */
  function UdpCases(n: Nest, dscp: DscpClass, rest: Cases): Cases {
    var saturation := SaturationCases(n.c, dscp, 0, n.steps, rest);
    if n.c.protocol == Tcp then saturation else FixedCases(n.c, dscp, 0, saturation)
  }

  /** The TCP matrix, then the UDP tests. */
  function DscpCases(n: Nest, dscp: DscpClass, rest: Cases): Cases {
    var udp := UdpCases(n, dscp, rest);
    if n.c.protocol == Udp then udp else TcpCases(n.c, dscp, n.directions, 0, udp)
  }

  /** for dscp in dscps[i..] */
  function SuiteCases(n: Nest, i: nat): Cases
    requires i <= |n.c.dscps|
    decreases |n.c.dscps| - i
  {
    if i == |n.c.dscps| then Done else DscpCases(n, n.c.dscps[i], SuiteCases(n, i + 1))
  }

  function SingleCase(c: Config): Case
    requires c.dscps != []
  {
    var protocol := if c.protocol == Udp then Udp else Tcp;
    Case(protocol, Tx, c.dscps[0], 1, None, if protocol == Udp then Some(c.udpStart) else None, Single)
  }

  function AllCases(c: Config, bidirectional: bool): Cases
    requires c.udpStep != 0 && c.dscps != []
  {
    if c.singleTest then Then(SingleCase(c), Done) else SuiteCases(NestOf(c, bidirectional), 0)
  }

  function SpecOf(c: Config, case_: Case, id: nat): TestSpec {
    TestSpec(id, c.target, c.port, case_.protocol, case_.direction, case_.dscp, case_.dscp.Tos(),
             case_.streams, case_.window, case_.rate, c.duration, c.omit, case_.phase)
  }

  /** The cases as specs with consecutive ids. */
  function Numbered(c: Config, cases: Cases, first: nat): seq<TestSpec> {
    if cases.Done? then [] else [SpecOf(c, cases.head, first)] + Numbered(c, cases.tail, first + 1)
  }

  /** The tests a plan stands for. */
  function AllTests(p: Plan): seq<TestSpec>
    requires p.config.udpStep != 0 && p.config.dscps != []
  {
    Numbered(p.config, AllCases(p.config, p.bidirectional), 1)
  }

  // ---------------------------------------------------------------------------------------
  // The resumable iterator
  // ---------------------------------------------------------------------------------------

  /** The counters of TestPlanIter, apart from the next id. */
  datatype Cursor = Cursor(
    dscp: nat, stage: nat, direction: nat, stream: nat, window: nat, step: nat, emittedSingle: bool)

  const FIRST := Cursor(0, 0, 0, 0, 0, 0, false)

  ghost predicate InTcp(n: Nest, k: Cursor) {
    && k.step == 0
    && k.direction <= |n.directions| && k.stream < |n.c.streams| && k.window < |n.c.windows|
    && (k.direction == |n.directions| || n.c.protocol == Udp || k.dscp == |n.c.dscps| ==>
          k.stream == 0 && k.window == 0)
    && (n.c.protocol == Udp || k.dscp == |n.c.dscps| ==> k.direction == 0)
  }

  /** What the iterator needs of a validated configuration. */
  ghost predicate Shaped(n: Nest) {
    n.c.streams != [] && n.c.windows != [] && n.c.dscps != [] && n.directions != []
  }

  /** The counter combinations the iterator reaches. */
  ghost predicate CursorOk(n: Nest, k: Cursor) {
    && Shaped(n)
    && k.dscp <= |n.c.dscps| && k.stage <= 2
    && (k.stage == 0 ==> InTcp(n, k))
    && (k.stage > 0 ==> k.dscp < |n.c.dscps| && k.stream == 0 && k.window == 0)
    && (k.stage == 1 ==> k.direction <= 2 && k.step == 0)
    && (k.stage == 2 ==> k.direction < 2 && k.step <= n.steps && (k.step == n.steps ==> k.direction == 0))
  }

  /** What the counters leave to emit of a TCP matrix, followed by `rest`. */
  ghost function TcpFrom(n: Nest, dscp: DscpClass, i: nat, s: nat, w: nat, rest: Cases): Cases
    requires i <= |n.directions| && s < |n.c.streams| && w < |n.c.windows|
  {
    if i == |n.directions| then rest
    else WindowCases(n.c, dscp, n.directions[i], n.c.streams[s], w,
           StreamCases(n.c, dscp, n.directions[i], s + 1, TcpCases(n.c, dscp, n.directions, i + 1, rest)))
  }

  /** What the counters leave to emit of the saturation ramp, followed by `rest`. */
  ghost function RampFrom(n: Nest, dscp: DscpClass, direction: nat, step: nat, rest: Cases): Cases
    requires direction <= 2 && step <= n.steps
  {
    if step == n.steps then rest
    else
      RateCases(dscp, n.c.udpStart + n.c.udpStep * step, direction,
                SaturationCases(n.c, dscp, step + 1, n.steps, rest))
  }

  /** What the counters leave to emit of the current DSCP class, followed by `rest`. */
  ghost function BlockRest(n: Nest, k: Cursor, rest: Cases): Cases
    requires CursorOk(n, k) && k.dscp < |n.c.dscps|
  {
    var dscp := n.c.dscps[k.dscp];
    if k.stage == 2 then RampFrom(n, dscp, k.direction, k.step, rest)
    else if k.stage == 1 then
      var saturation := SaturationCases(n.c, dscp, 0, n.steps, rest);
      if n.c.protocol == Tcp then saturation else FixedCases(n.c, dscp, k.direction, saturation)
    else
      var udp := UdpCases(n, dscp, rest);
      if n.c.protocol == Udp then udp else TcpFrom(n, dscp, k.direction, k.stream, k.window, udp)
  }

  /** The cases still to be emitted. */
  ghost function Rest(n: Nest, k: Cursor): Cases
    requires CursorOk(n, k)
  {
    if n.c.singleTest then (if k.emittedSingle then Done else Then(SingleCase(n.c), Done))
    else if k.dscp == |n.c.dscps| then Done
    else BlockRest(n, k, SuiteCases(n, k.dscp + 1))
  }

  lemma TcpFromStart(n: Nest, dscp: DscpClass, i: nat, rest: Cases)
    requires Shaped(n) && i <= |n.directions|
    ensures TcpFrom(n, dscp, i, 0, 0, rest) == TcpCases(n.c, dscp, n.directions, i, rest)
  {
    if i < |n.directions| {
      var later := TcpCases(n.c, dscp, n.directions, i + 1, rest);
      assert StreamCases(n.c, dscp, n.directions[i], 0, later)
          == WindowCases(n.c, dscp, n.directions[i], n.c.streams[0], 0,
                         StreamCases(n.c, dscp, n.directions[i], 1, later));
    }
  }

  lemma RampFromStart(n: Nest, dscp: DscpClass, step: nat, rest: Cases)
    requires step <= n.steps
    ensures RampFrom(n, dscp, 0, step, rest) == SaturationCases(n.c, dscp, step, n.steps, rest)
  {
  }

  lemma FreshBlock(n: Nest, k: Cursor, rest: Cases)
    requires CursorOk(n, k) && k.dscp < |n.c.dscps|
    requires k == FIRST.(dscp := k.dscp, emittedSingle := k.emittedSingle)
    ensures BlockRest(n, k, rest) == DscpCases(n, n.c.dscps[k.dscp], rest)
  {
    TcpFromStart(n, n.c.dscps[k.dscp], 0, UdpCases(n, n.c.dscps[k.dscp], rest));
  }

  /** A new iterator has the whole nested product before it. */
  lemma FirstRest(n: Nest)
    requires Shaped(n)
    ensures CursorOk(n, FIRST)
    ensures Rest(n, FIRST) == if n.c.singleTest then Then(SingleCase(n.c), Done) else SuiteCases(n, 0)
  {
    FreshBlock(n, FIRST, SuiteCases(n, 1));
  }

  /** A finished DSCP class hands over to the next one. */
  lemma NextDscp(n: Nest, k: Cursor)
    requires CursorOk(n, k) && !n.c.singleTest && k.dscp < |n.c.dscps| && k.stage == 2 && k.step == n.steps
    ensures var next := FIRST.(dscp := k.dscp + 1, emittedSingle := k.emittedSingle);
            CursorOk(n, next) && Rest(n, next) == Rest(n, k)
  {
    var next := FIRST.(dscp := k.dscp + 1, emittedSingle := k.emittedSingle);
    if next.dscp < |n.c.dscps| {
      FreshBlock(n, next, SuiteCases(n, next.dscp + 1));
    }
  }

  /** Leaving the TCP matrix, and leaving the fixed tests, skips no case. */
  lemma NextStage(n: Nest, k: Cursor)
    requires CursorOk(n, k) && !n.c.singleTest && k.dscp < |n.c.dscps| && k.stage < 2
    requires k.stage == 0 ==> n.c.protocol == Udp || k.direction == |n.directions|
    requires k.stage == 1 ==> n.c.protocol == Tcp || k.direction == 2
    ensures var next := k.(stage := k.stage + 1, direction := 0);
            CursorOk(n, next) && Rest(n, next) == Rest(n, k)
  {
    RampFromStart(n, n.c.dscps[k.dscp], 0, SuiteCases(n, k.dscp + 1));
  }

  // ---------------------------------------------------------------------------------------
  // Each emitted case is the head of what is left
  // ---------------------------------------------------------------------------------------

  /** The window, stream and direction counters after a TCP case. */
  function AfterTcp(n: Nest, k: Cursor): Cursor {
    if k.window + 1 < |n.c.windows| then k.(window := k.window + 1)
    else if k.stream + 1 < |n.c.streams| then k.(window := 0, stream := k.stream + 1)
    else k.(window := 0, stream := 0, direction := k.direction + 1)
  }

  function AfterRate(k: Cursor): Cursor {
    if k.direction + 1 == 2 then k.(direction := 0, step := k.step + 1) else k.(direction := k.direction + 1)
  }

  lemma WindowPops(n: Nest, dscp: DscpClass, i: nat, s: nat, w: nat, rest: Cases)
    requires Shaped(n) && i < |n.directions| && s < |n.c.streams| && w < |n.c.windows|
    ensures TcpFrom(n, dscp, i, s, w, rest)
            == Then(Case(Tcp, n.directions[i], dscp, n.c.streams[s], n.c.windows[w], None, TcpMatrix),
                 if w + 1 < |n.c.windows| then TcpFrom(n, dscp, i, s, w + 1, rest)
                 else if s + 1 < |n.c.streams| then TcpFrom(n, dscp, i, s + 1, 0, rest)
                 else TcpFrom(n, dscp, i + 1, 0, 0, rest))
  {
    var d := n.directions[i];
    var later := TcpCases(n.c, dscp, n.directions, i + 1, rest);
    var streams := StreamCases(n.c, dscp, d, s + 1, later);
    if w + 1 == |n.c.windows| {
      assert WindowCases(n.c, dscp, d, n.c.streams[s], w + 1, streams) == streams;
      if s + 1 == |n.c.streams| {
        TcpFromStart(n, dscp, i + 1, rest);
      }
    }
  }

  /** The case at the cursor's counters is the first of the rest, and AfterTcp steps past it. */
  lemma TcpPops(n: Nest, k: Cursor)
    requires CursorOk(n, k) && !n.c.singleTest && k.dscp < |n.c.dscps|
    requires k.stage == 0 && n.c.protocol != Udp && k.direction < |n.directions|
    ensures CursorOk(n, AfterTcp(n, k))
    ensures Rest(n, k)
            == Then(Case(Tcp, n.directions[k.direction], n.c.dscps[k.dscp], n.c.streams[k.stream],
                         n.c.windows[k.window], None, TcpMatrix),
                    Rest(n, AfterTcp(n, k)))
  {
    var dscp := n.c.dscps[k.dscp];
    WindowPops(n, dscp, k.direction, k.stream, k.window, UdpCases(n, dscp, SuiteCases(n, k.dscp + 1)));
  }

  lemma FixedPops(n: Nest, k: Cursor)
    requires CursorOk(n, k) && !n.c.singleTest && k.dscp < |n.c.dscps|
    requires k.stage == 1 && n.c.protocol != Tcp && k.direction < 2
    ensures CursorOk(n, k.(direction := k.direction + 1))
    ensures Rest(n, k)
            == Then(Case(Udp, [Tx, Rx][k.direction], n.c.dscps[k.dscp], 1, None, Some(n.c.udpStart), UdpFixed),
                    Rest(n, k.(direction := k.direction + 1)))
  {
  }

  lemma RampPops(n: Nest, dscp: DscpClass, direction: nat, step: nat, rest: Cases)
    requires direction < 2 && step < n.steps
    ensures RampFrom(n, dscp, direction, step, rest)
            == Then(Case(Udp, [Tx, Rx][direction], dscp, 1, None, Some(n.c.udpStart + n.c.udpStep * step),
                         UdpSaturation),
                    if direction + 1 == 2 then RampFrom(n, dscp, 0, step + 1, rest)
                    else RampFrom(n, dscp, direction + 1, step, rest))
  {
    var rate := n.c.udpStart + n.c.udpStep * step;
    var later := SaturationCases(n.c, dscp, step + 1, n.steps, rest);
    assert RateCases(dscp, rate, 2, later) == later;
    RampFromStart(n, dscp, step + 1, rest);
  }

  lemma RatePops(n: Nest, k: Cursor)
    requires CursorOk(n, k) && !n.c.singleTest && k.dscp < |n.c.dscps| && k.stage == 2 && k.step < n.steps
    ensures CursorOk(n, AfterRate(k))
    ensures Rest(n, k)
            == Then(Case(Udp, [Tx, Rx][k.direction], n.c.dscps[k.dscp], 1, None,
                         Some(n.c.udpStart + n.c.udpStep * k.step), UdpSaturation),
                    Rest(n, AfterRate(k)))
  {
    RampPops(n, n.c.dscps[k.dscp], k.direction, k.step, SuiteCases(n, k.dscp + 1));
  }

  /** The rate of a saturation step, as the iterator computes it on u64. */
  function RateAt(c: Config, step: nat): nat {
    SaturatingAdd(c.udpStart, SaturatingMul(c.udpStep, step))
  }

  /** Within the planned steps no u64 operation saturates, and no rate exceeds the configured maximum. */
  lemma RateIsExact(c: Config, step: nat)
    requires c.udpStep != 0 && c.udpMax <= MAX_UDP_RATE_BPS && step < SaturationSteps(c)
    ensures RateAt(c, step) == c.udpStart + c.udpStep * step <= c.udpMax
  {
    var span := c.udpMax - c.udpStart;
    var q := span / c.udpStep;
    assert q * c.udpStep <= span;
    assert step <= q;
    ProductOrder(step, q, c.udpStep);
  }

  // ---------------------------------------------------------------------------------------
  // The closed-form count
  // ---------------------------------------------------------------------------------------

  lemma {:induction false} WindowCount(c: Config, dscp: DscpClass, d: Direction, streams: nat, w: nat, rest: Cases)
    requires w <= |c.windows|
    ensures WindowCases(c, dscp, d, streams, w, rest).Length() == |c.windows| - w + rest.Length()
    decreases |c.windows| - w
  {
    if w < |c.windows| {
      WindowCount(c, dscp, d, streams, w + 1, rest);
    }
  }

  lemma OneMore(n: nat, per: nat)
    requires n > 0
    ensures n * per == (n - 1) * per + per
  {
  }

  lemma {:induction false} StreamCount(c: Config, dscp: DscpClass, d: Direction, s: nat, rest: Cases)
    requires s <= |c.streams|
    ensures StreamCases(c, dscp, d, s, rest).Length() == (|c.streams| - s) * |c.windows| + rest.Length()
    decreases |c.streams| - s
  {
    if s < |c.streams| {
      StreamCount(c, dscp, d, s + 1, rest);
      WindowCount(c, dscp, d, c.streams[s], 0, StreamCases(c, dscp, d, s + 1, rest));
      OneMore(|c.streams| - s, |c.windows|);
    }
  }

  lemma {:induction false} TcpCount(
    c: Config, dscp: DscpClass, directions: seq<Direction>, i: nat, rest: Cases, per: nat)
    requires i <= |directions| && per == |c.streams| * |c.windows|
    ensures TcpCases(c, dscp, directions, i, rest).Length() == (|directions| - i) * per + rest.Length()
    decreases |directions| - i
  {
    if i < |directions| {
      TcpCount(c, dscp, directions, i + 1, rest, per);
      StreamCount(c, dscp, directions[i], 0, TcpCases(c, dscp, directions, i + 1, rest));
      OneMore(|directions| - i, per);
    }
  }

  lemma RateCount(dscp: DscpClass, rate: nat, rest: Cases)
    ensures RateCases(dscp, rate, 0, rest).Length() == 2 + rest.Length()
  {
    assert RateCases(dscp, rate, 1, rest).Length() == 1 + RateCases(dscp, rate, 2, rest).Length();
  }

  lemma FixedCount(c: Config, dscp: DscpClass, rest: Cases)
    ensures FixedCases(c, dscp, 0, rest).Length() == 2 + rest.Length()
  {
    assert FixedCases(c, dscp, 1, rest).Length() == 1 + FixedCases(c, dscp, 2, rest).Length();
  }

  lemma {:induction false} SaturationCount(c: Config, dscp: DscpClass, k: nat, n: nat, rest: Cases)
    requires k <= n
    ensures SaturationCases(c, dscp, k, n, rest).Length() == 2 * (n - k) + rest.Length()
    decreases n - k
  {
    if k < n {
      SaturationCount(c, dscp, k + 1, n, rest);
      RateCount(dscp, c.udpStart + c.udpStep * k, SaturationCases(c, dscp, k + 1, n, rest));
    }
  }

  /** How many cases one DSCP class has. */
  function PerDscp(n: Nest): nat {
    (if n.c.protocol == Udp then 0 else |n.directions| * (|n.c.streams| * |n.c.windows|))
    + (if n.c.protocol == Tcp then 0 else 2) + 2 * n.steps
  }

  lemma DscpCount(n: Nest, dscp: DscpClass, rest: Cases)
    ensures DscpCases(n, dscp, rest).Length() == PerDscp(n) + rest.Length()
  {
    SaturationCount(n.c, dscp, 0, n.steps, rest);
    FixedCount(n.c, dscp, SaturationCases(n.c, dscp, 0, n.steps, rest));
    TcpCount(n.c, dscp, n.directions, 0, UdpCases(n, dscp, rest), |n.c.streams| * |n.c.windows|);
  }

  lemma {:induction false} SuiteCount(n: Nest, i: nat, per: nat)
    requires i <= |n.c.dscps| && per == PerDscp(n)
    ensures SuiteCases(n, i).Length() == (|n.c.dscps| - i) * per
    decreases |n.c.dscps| - i
  {
    if i < |n.c.dscps| {
      SuiteCount(n, i + 1, per);
      DscpCount(n, n.c.dscps[i], SuiteCases(n, i + 1));
      OneMore(|n.c.dscps| - i, per);
    }
  }

  lemma PerDscpClosedForm(c: Config, bidirectional: bool)
    requires c.udpStep != 0 && !c.singleTest
    ensures TotalTests(c, bidirectional) == |c.dscps| * PerDscp(NestOf(c, bidirectional))
  {
    var d, s, w := |Directions(bidirectional)|, |c.streams|, |c.windows|;
    assert d * (s * w) == d * s * w;
    assert c.protocol == Tcp ==> SaturationSteps(c) == 0;
  }

  /** The planned total is the size of the nested product. */
  lemma TotalIsClosedForm(c: Config, bidirectional: bool)
    requires c.udpStep != 0 && c.dscps != []
    ensures AllCases(c, bidirectional).Length() == TotalTests(c, bidirectional)
  {
    if !c.singleTest {
      var n := NestOf(c, bidirectional);
      SuiteCount(n, 0, PerDscp(n));
      PerDscpClosedForm(c, bidirectional);
    }
  }

  // ---------------------------------------------------------------------------------------
  // Every case yields a valid spec
  // ---------------------------------------------------------------------------------------

  predicate CaseOk(c: Config, x: Case) {
    && 1 <= x.streams <= 128
    && x.protocol != Both
    && (x.protocol == Udp ==>
          && x.streams == 1 && x.direction != Bidirectional
          && x.rate.Some? && 1 <= x.rate.value <= MAX_UDP_RATE_BPS)
    && (x.phase == UdpSaturation ==> x.rate.Some? && c.udpStart <= x.rate.value <= c.udpMax)
  }

  predicate AllOk(c: Config, cases: Cases) {
    cases.Then? ==> CaseOk(c, cases.head) && AllOk(c, cases.tail)
  }

  lemma {:induction false} WindowsOk(c: Config, dscp: DscpClass, d: Direction, streams: nat, w: nat, rest: Cases)
    requires w <= |c.windows| && 1 <= streams <= 128 && AllOk(c, rest)
    ensures AllOk(c, WindowCases(c, dscp, d, streams, w, rest))
    decreases |c.windows| - w
  {
    if w < |c.windows| {
      WindowsOk(c, dscp, d, streams, w + 1, rest);
    }
  }

  lemma {:induction false} StreamsOk(c: Config, dscp: DscpClass, d: Direction, s: nat, rest: Cases)
    requires s <= |c.streams| && AllOk(c, rest)
    requires forall i :: 0 <= i < |c.streams| ==> 1 <= c.streams[i] <= 128
    ensures AllOk(c, StreamCases(c, dscp, d, s, rest))
    decreases |c.streams| - s
  {
    if s < |c.streams| {
      StreamsOk(c, dscp, d, s + 1, rest);
      WindowsOk(c, dscp, d, c.streams[s], 0, StreamCases(c, dscp, d, s + 1, rest));
    }
  }

  lemma {:induction false} TcpOk(c: Config, dscp: DscpClass, directions: seq<Direction>, i: nat, rest: Cases)
    requires i <= |directions| && AllOk(c, rest)
    requires forall j :: 0 <= j < |c.streams| ==> 1 <= c.streams[j] <= 128
    ensures AllOk(c, TcpCases(c, dscp, directions, i, rest))
    decreases |directions| - i
  {
    if i < |directions| {
      TcpOk(c, dscp, directions, i + 1, rest);
      StreamsOk(c, dscp, directions[i], 0, TcpCases(c, dscp, directions, i + 1, rest));
    }
  }

  ghost predicate RatesOk(c: Config) {
    1 <= c.udpStart <= MAX_UDP_RATE_BPS && c.udpMax <= MAX_UDP_RATE_BPS && 1 <= c.udpStep
  }

  lemma {:induction false} RampOk(c: Config, dscp: DscpClass, k: nat, n: nat, rest: Cases)
    requires k <= n && RatesOk(c) && n == SaturationSteps(c) && AllOk(c, rest)
    ensures AllOk(c, SaturationCases(c, dscp, k, n, rest))
    decreases n - k
  {
    if k < n {
      RampOk(c, dscp, k + 1, n, rest);
      RateIsExact(c, k);
      RatePairOk(c, dscp, c.udpStart + c.udpStep * k, SaturationCases(c, dscp, k + 1, n, rest));
    }
  }

  lemma RatePairOk(c: Config, dscp: DscpClass, rate: nat, rest: Cases)
    requires RatesOk(c) && c.udpStart <= rate <= c.udpMax && AllOk(c, rest)
    ensures AllOk(c, RateCases(dscp, rate, 0, rest))
  {
    assert AllOk(c, RateCases(dscp, rate, 2, rest));
    assert AllOk(c, RateCases(dscp, rate, 1, rest));
  }

  lemma FixedPairOk(c: Config, dscp: DscpClass, rest: Cases)
    requires RatesOk(c) && AllOk(c, rest)
    ensures AllOk(c, FixedCases(c, dscp, 0, rest))
  {
    assert AllOk(c, FixedCases(c, dscp, 2, rest));
    assert AllOk(c, FixedCases(c, dscp, 1, rest));
  }

  lemma {:induction false} SuiteOk(n: Nest, i: nat)
    requires i <= |n.c.dscps| && RatesOk(n.c) && n.steps == SaturationSteps(n.c)
    requires forall j :: 0 <= j < |n.c.streams| ==> 1 <= n.c.streams[j] <= 128
    ensures AllOk(n.c, SuiteCases(n, i))
    decreases |n.c.dscps| - i
  {
    if i < |n.c.dscps| {
      SuiteOk(n, i + 1);
      var dscp, rest := n.c.dscps[i], SuiteCases(n, i + 1);
      RampOk(n.c, dscp, 0, n.steps, rest);
      FixedPairOk(n.c, dscp, SaturationCases(n.c, dscp, 0, n.steps, rest));
      TcpOk(n.c, dscp, n.directions, 0, UdpCases(n, dscp, rest));
    }
  }

  lemma {:induction false} SpecsOk(c: Config, cases: Cases, first: nat)
    requires ValidConfig(c) && AllOk(c, cases) && first >= 1
    ensures var specs := Numbered(c, cases, first);
            && |specs| == cases.Length()
            && forall i :: 0 <= i < |specs| ==>
                 && ValidSpec(specs[i]) && specs[i].id == first + i
                 && (specs[i].protocol == Udp ==> specs[i].streams == 1 && specs[i].direction != Bidirectional)
                 && (specs[i].phase == UdpSaturation ==> specs[i].rate.Some? && specs[i].rate.value <= c.udpMax)
    decreases cases
  {
    if cases.Then? {
      SpecsOk(c, cases.tail, first + 1);
      assert !Whitespace(c.target[0]) by { assert !Forbidden(c.target[0]); }
    }
  }

  /** Every test of a plan passes the independent check of concrete tests, ids run from 1 to the
      planned total, UDP tests have one stream in one direction, and no saturation rate exceeds the
      configured maximum. */
  lemma PlannedTestsAreValid(c: Config, bidirectional: bool)
    requires MakePlan(c, bidirectional).Ok?
    ensures var p := MakePlan(c, bidirectional).value;
            && |AllTests(p)| == p.totalTests
            && forall i :: 0 <= i < |AllTests(p)| ==>
                 && ValidSpec(AllTests(p)[i]) && AllTests(p)[i].id == i + 1
                 && (AllTests(p)[i].protocol == Udp ==>
                       AllTests(p)[i].streams == 1 && AllTests(p)[i].direction != Bidirectional)
                 && (AllTests(p)[i].phase == UdpSaturation ==>
                       AllTests(p)[i].rate.Some? && AllTests(p)[i].rate.value <= c.udpMax)
  {
    var cases := AllCases(c, bidirectional);
    if !c.singleTest {
      SuiteOk(NestOf(c, bidirectional), 0);
    }
    assert AllOk(c, cases);
    SpecsOk(c, cases, 1);
    TotalIsClosedForm(c, bidirectional);
  }

  // ---------------------------------------------------------------------------------------
  // The iterator itself
  // ---------------------------------------------------------------------------------------

  class TestPlanIter {
    const plan: Plan
    ghost const nest: Nest
    var nextId: nat
    var dscp: nat
    var stage: nat
    var direction: nat
    var stream: nat
    var window: nat
    var saturationStep: nat
    var emittedSingle: bool

    function View(): Cursor
      reads this
    {
      Cursor(dscp, stage, direction, stream, window, saturationStep, emittedSingle)
    }

    /** The loops the counters run through are those of the plan. */
    ghost predicate Loops() {
      && plan.config.udpStep != 0 && plan.config.udpMax <= MAX_UDP_RATE_BPS
      && nest == NestOf(plan.config, plan.bidirectional)
    }

    ghost predicate Valid()
      reads this
    {
      CursorOk(nest, View()) && nest.c == plan.config && nest.directions == Directions(plan.bidirectional)
    }

    ghost function Remaining(): Cases
      requires Valid()
      reads this
    {
      Rest(nest, View())
    }

    /** The ids given out and the cases left add up to the planned total. */
    ghost predicate Exact()
      requires Valid()
      reads this
    {
      1 <= nextId && nextId - 1 + Remaining().Length() == plan.totalTests
    }

    constructor (plan: Plan)
      requires ValidConfig(plan.config)
      ensures this.plan == plan && Valid() && Loops() && nextId == 1
      ensures Remaining() == AllCases(plan.config, plan.bidirectional)
      ensures plan.totalTests == TotalTests(plan.config, plan.bidirectional) ==> Exact()
    {
      this.plan := plan;
      nest := NestOf(plan.config, plan.bidirectional);
      nextId, dscp, stage, direction, stream, window, saturationStep, emittedSingle := 1, 0, 0, 0, 0, 0, 0, false;
      new;
      FirstRest(nest);
      TotalIsClosedForm(plan.config, plan.bidirectional);
    }

    /** Exact at every step, not only a bound. */
    method SizeHint() returns (n: nat)
      requires Valid() && Exact()
      ensures n == Remaining().Length()
    {
      n := Max(plan.totalTests - (nextId - 1), 0);
    }

    method Emit(case_: Case) returns (spec: TestSpec)
      modifies this`nextId
      ensures spec == SpecOf(plan.config, case_, old(nextId)) && nextId == old(nextId) + 1
    {
      spec := SpecOf(plan.config, case_, nextId);
      nextId := nextId + 1;
    }

    method NextTcp() returns (spec: TestSpec)
      requires Valid() && !plan.config.singleTest && dscp < |plan.config.dscps|
      requires stage == 0 && plan.config.protocol != Udp && direction < |Directions(plan.bidirectional)|
      modifies this
      ensures Valid() && nextId == old(nextId) + 1 && old(Remaining()).Then?
      ensures spec == SpecOf(plan.config, old(Remaining()).head, old(nextId)) && Remaining() == old(Remaining()).tail
    {
      ghost var before := View();
      TcpPops(nest, before);
      spec := Emit(Case(Tcp, Directions(plan.bidirectional)[direction], plan.config.dscps[dscp],
                        plan.config.streams[stream], plan.config.windows[window], None, TcpMatrix));
      CarryTcp();
    }

    /** The window counter, with its carry into the stream and direction counters. */
    method CarryTcp()
      requires window < |nest.c.windows| && stream < |nest.c.streams| && nest.c == plan.config
      modifies `window, `stream, `direction
      ensures View() == AfterTcp(nest, old(View()))
    {
      window := window + 1;
      if window == |plan.config.windows| {
        window := 0;
        stream := stream + 1;
        if stream == |plan.config.streams| {
          stream := 0;
          direction := direction + 1;
        }
      }
    }

    method NextFixed() returns (spec: TestSpec)
      requires Valid() && !plan.config.singleTest && dscp < |plan.config.dscps|
      requires stage == 1 && plan.config.protocol != Tcp && direction < 2
      modifies this
      ensures Valid() && nextId == old(nextId) + 1 && old(Remaining()).Then?
      ensures spec == SpecOf(plan.config, old(Remaining()).head, old(nextId)) && Remaining() == old(Remaining()).tail
    {
      FixedPops(nest, View());
      spec := Emit(Case(Udp, [Tx, Rx][direction], plan.config.dscps[dscp], 1, None, Some(plan.config.udpStart),
                        UdpFixed));
      direction := direction + 1;
    }

    method NextRate() returns (spec: TestSpec)
      requires Valid() && Loops() && !plan.config.singleTest && dscp < |plan.config.dscps|
      requires stage == 2 && saturationStep < nest.steps
      modifies this
      ensures Valid() && nextId == old(nextId) + 1 && old(Remaining()).Then?
      ensures spec == SpecOf(plan.config, old(Remaining()).head, old(nextId)) && Remaining() == old(Remaining()).tail
    {
      RatePops(nest, View());
      RateIsExact(plan.config, saturationStep);
      var d := [Tx, Rx][direction];
      var rate := RateAt(plan.config, saturationStep);
      direction := direction + 1;
      if direction == 2 {
        direction := 0;
        saturationStep := saturationStep + 1;
      }
      spec := Emit(Case(Udp, d, plan.config.dscps[dscp], 1, None, Some(rate), UdpSaturation));
    }

    method AdvanceStage()
      requires Valid() && !plan.config.singleTest && dscp < |plan.config.dscps| && stage < 2
      requires stage == 0 ==> plan.config.protocol == Udp || direction == |nest.directions|
      requires stage == 1 ==> plan.config.protocol == Tcp || direction == 2
      modifies this
      ensures Valid() && nextId == old(nextId) && Remaining() == old(Remaining())
      ensures View() == old(View()).(stage := old(stage) + 1, direction := 0)
    {
      NextStage(nest, View());
      stage, direction := stage + 1, 0;
    }

    /** The body of the loop over DSCP classes: the next test of the current class, if it has one. */
    method NextInClass() returns (r: Option<TestSpec>)
      requires Valid() && Loops() && !plan.config.singleTest && dscp < |plan.config.dscps|
      modifies this
      ensures Valid()
      ensures r.Some? ==>
                && old(Remaining()).Then?
                && r == Some(SpecOf(plan.config, old(Remaining()).head, old(nextId)))
                && Remaining() == old(Remaining()).tail && nextId == old(nextId) + 1
      ensures r.None? ==>
                && Remaining() == old(Remaining()) && nextId == old(nextId)
                && dscp == old(dscp) && stage == 2 && saturationStep == nest.steps
                && emittedSingle == old(emittedSingle)
    {
      if stage == 0 && plan.config.protocol != Udp && direction < |Directions(plan.bidirectional)| {
        var spec := NextTcp();
        return Some(spec);
      }
      if stage == 0 {
        AdvanceStage();
      }
      if stage == 1 && plan.config.protocol != Tcp && direction < 2 {
        var spec := NextFixed();
        return Some(spec);
      }
      if stage == 1 {
        AdvanceStage();
      }
      if plan.config.protocol != Tcp && plan.config.udpMax > plan.config.udpStart
         && saturationStep < Steps(plan.config) {
        var spec := NextRate();
        return Some(spec);
      }
      r := None;
    }

    method NextSingle() returns (r: Option<TestSpec>)
      requires Valid() && plan.config.singleTest
      modifies this
      ensures Valid()
      ensures old(Remaining()).Done? ==> r == None && Remaining().Done? && nextId == old(nextId)
      ensures old(Remaining()).Then? ==>
                && r == Some(SpecOf(plan.config, old(Remaining()).head, old(nextId)))
                && Remaining() == old(Remaining()).tail && nextId == old(nextId) + 1
    {
      if emittedSingle {
        return None;
      }
      emittedSingle := true;
      var single := Emit(SingleCase(plan.config));
      r := Some(single);
    }

    /** On to the next DSCP class. */
    method NextClass()
      requires Valid() && !plan.config.singleTest && dscp < |plan.config.dscps|
      requires stage == 2 && saturationStep == nest.steps
      modifies this
      ensures Valid() && nextId == old(nextId) && dscp == old(dscp) + 1
      ensures Remaining() == old(Remaining())
    {
      NextDscp(nest, View());
      dscp := dscp + 1;
      stage, direction, saturationStep := 0, 0, 0;
    }

    /** The loop over DSCP classes. */
    method NextInSuite() returns (r: Option<TestSpec>)
      requires Valid() && Loops() && !plan.config.singleTest
      modifies this
      ensures Valid()
      ensures old(Remaining()).Done? ==> r == None && Remaining().Done? && nextId == old(nextId)
      ensures old(Remaining()).Then? ==>
                && r == Some(SpecOf(plan.config, old(Remaining()).head, old(nextId)))
                && Remaining() == old(Remaining()).tail && nextId == old(nextId) + 1
    {
      while dscp < |plan.config.dscps|
        invariant Valid() && nextId == old(nextId)
        invariant Remaining() == old(Remaining())
        decreases |plan.config.dscps| - dscp
      {
        r := NextInClass();
        if r.Some? {
          return;
        }
        NextClass();
      }
      r := None;
    }

    /** Emits the next test of the nested product, or nothing once all have been emitted. */
    method Next() returns (r: Option<TestSpec>)
      requires Valid() && Loops()
      modifies this
      ensures Valid()
      ensures old(Remaining()).Done? ==> r == None && Remaining().Done? && nextId == old(nextId)
      ensures old(Remaining()).Then? ==>
                && r == Some(SpecOf(plan.config, old(Remaining()).head, old(nextId)))
                && Remaining() == old(Remaining()).tail && nextId == old(nextId) + 1
      ensures old(Exact()) ==> Exact()
    {
      if plan.config.singleTest {
        r := NextSingle();
      } else {
        r := NextInSuite();
      }
    }
  }

  lemma NumberedSplit(c: Config, cases: Cases, first: nat)
    requires cases.Then?
    ensures Numbered(c, cases, first) == [SpecOf(c, cases.head, first)] + Numbered(c, cases.tail, first + 1)
  {
  }

  /** The tests an iterator still emits are those its counters leave, numbered on from its next id. */
  method Drain(it: TestPlanIter) returns (specs: seq<TestSpec>)
    requires it.Valid() && it.Loops()
    modifies it
    ensures specs == Numbered(it.plan.config, old(it.Remaining()), old(it.nextId))
  {
    specs := [];
    ghost var all := Numbered(it.plan.config, it.Remaining(), it.nextId);
    var r := None;
    while true
      invariant it.Valid()
      invariant all == specs + Numbered(it.plan.config, it.Remaining(), it.nextId)
      decreases it.Remaining().Length()
    {
      ghost var before, id := it.Remaining(), it.nextId;
      r := it.Next();
      if r.None? {
        return;
      }
      NumberedSplit(it.plan.config, before, id);
      specs := specs + [r.value];
    }
  }

  /** Running the iterator to its end yields the plan's tests in order, as many as planned. */
  method Collect(c: Config, bidirectional: bool, plan: Plan) returns (specs: seq<TestSpec>)
    requires MakePlan(c, bidirectional) == Ok(plan)
    ensures specs == AllTests(plan) && |specs| == plan.totalTests
  {
    PlannedTestsAreValid(c, bidirectional);
    var it := new TestPlanIter(plan);
    specs := Drain(it);
  }
}
