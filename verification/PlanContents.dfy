/** What a throughput plan contains, in terms of its configuration alone: crates/throughput/src/plan.rs. */
module PlanContents {
  import opened Common
  import opened ThroughputPlan

  // ---------------------------------------------------------------------------------------
  // Exactly which tests a plan has
  // ---------------------------------------------------------------------------------------

  predicate TcpPlanned(c: Config, bidirectional: bool, x: Case) {
    && c.protocol != Udp && x.protocol == Tcp && x.phase == TcpMatrix && x.rate == None
    && (x.direction == Bidirectional ==> bidirectional)
    && x.streams in c.streams && x.window in c.windows
  }

  predicate UdpCase(x: Case) {
    x.protocol == Udp && x.direction != Bidirectional && x.streams == 1 && x.window == None
  }

  predicate FixedPlanned(c: Config, x: Case) {
    c.protocol != Tcp && UdpCase(x) && x.phase == UdpFixed && x.rate == Some(c.udpStart)
  }

  ghost predicate RampPlanned(c: Config, x: Case) {
    && c.protocol != Tcp && UdpCase(x) && x.phase == UdpSaturation
    && c.udpStart < c.udpMax && x.rate.Some? && x.rate.value <= c.udpMax
    && exists k: nat :: k < 1000 && x.rate.value == c.udpStart + k * c.udpStep
  }

  /** What the configuration asks for, test by test. */
  ghost predicate Planned(c: Config, bidirectional: bool, x: Case) {
    if c.singleTest then
      && c.dscps != [] && x.dscp == c.dscps[0] && x.direction == Tx
      && x.streams == 1 && x.window == None && x.phase == Single
      && (if c.protocol == Udp then x.protocol == Udp && x.rate == Some(c.udpStart)
          else x.protocol == Tcp && x.rate == None)
    else x.dscp in c.dscps && (TcpPlanned(c, bidirectional, x) || FixedPlanned(c, x) || RampPlanned(c, x))
  }

  predicate Has(cases: Cases, x: Case) {
    cases.Then? && (cases.head == x || Has(cases.tail, x))
  }

  lemma Tail<T>(s: seq<T>, i: nat, x: T)
    requires i < |s|
    ensures x in s[i..] <==> x == s[i] || x in s[i + 1..]
  {
    assert s[i..] == [s[i]] + s[i + 1..];
  }

  /** A TCP matrix case, whatever its window. */
  predicate TcpOf(x: Case, dscp: DscpClass, d: Direction, streams: nat) {
    x == Case(Tcp, d, dscp, streams, x.window, None, TcpMatrix)
  }

  lemma {:induction false} WindowHas(
    c: Config, dscp: DscpClass, d: Direction, streams: nat, w: nat, rest: Cases, x: Case)
    requires w <= |c.windows|
    ensures Has(WindowCases(c, dscp, d, streams, w, rest), x)
            <==> Has(rest, x) || (TcpOf(x, dscp, d, streams) && x.window in c.windows[w..])
    decreases |c.windows| - w
  {
    if w < |c.windows| {
      WindowHas(c, dscp, d, streams, w + 1, rest, x);
      Tail(c.windows, w, x.window);
    }
  }

  lemma {:induction false} StreamHas(c: Config, dscp: DscpClass, d: Direction, s: nat, rest: Cases, x: Case)
    requires s <= |c.streams|
    ensures Has(StreamCases(c, dscp, d, s, rest), x)
            <==> Has(rest, x) || (TcpOf(x, dscp, d, x.streams) && x.streams in c.streams[s..] && x.window in c.windows)
    decreases |c.streams| - s
  {
    if s < |c.streams| {
      StreamHas(c, dscp, d, s + 1, rest, x);
      WindowHas(c, dscp, d, c.streams[s], 0, StreamCases(c, dscp, d, s + 1, rest), x);
      Tail(c.streams, s, x.streams);
      assert c.windows[0..] == c.windows;
    }
  }

  lemma {:induction false} TcpHas(
    c: Config, dscp: DscpClass, directions: seq<Direction>, i: nat, rest: Cases, x: Case)
    requires i <= |directions|
    ensures Has(TcpCases(c, dscp, directions, i, rest), x)
            <==> Has(rest, x) || (&& TcpOf(x, dscp, x.direction, x.streams) && x.direction in directions[i..]
                                  && x.streams in c.streams && x.window in c.windows)
    decreases |directions| - i
  {
    if i < |directions| {
      TcpHas(c, dscp, directions, i + 1, rest, x);
      StreamHas(c, dscp, directions[i], 0, TcpCases(c, dscp, directions, i + 1, rest), x);
      Tail(directions, i, x.direction);
      assert c.streams[0..] == c.streams;
    }
  }

  predicate UdpOf(x: Case, dscp: DscpClass, rate: nat, phase: TestPhase) {
    x.direction != Bidirectional && x == Case(Udp, x.direction, dscp, 1, None, Some(rate), phase)
  }

  lemma FixedHas(c: Config, dscp: DscpClass, rest: Cases, x: Case)
    ensures Has(FixedCases(c, dscp, 0, rest), x) <==> Has(rest, x) || UdpOf(x, dscp, c.udpStart, UdpFixed)
  {
    assert FixedCases(c, dscp, 2, rest) == rest;
    assert FixedCases(c, dscp, 1, rest).tail == rest;
  }

  lemma RateHas(dscp: DscpClass, rate: nat, rest: Cases, x: Case)
    ensures Has(RateCases(dscp, rate, 0, rest), x) <==> Has(rest, x) || UdpOf(x, dscp, rate, UdpSaturation)
  {
    assert RateCases(dscp, rate, 2, rest) == rest;
    assert RateCases(dscp, rate, 1, rest).tail == rest;
  }

  /** The case is the saturation test of step j. */
  predicate StepOf(c: Config, x: Case, dscp: DscpClass, j: nat) {
    UdpOf(x, dscp, c.udpStart + c.udpStep * j, UdpSaturation)
  }

  lemma {:induction false} SaturationHas(c: Config, dscp: DscpClass, k: nat, n: nat, rest: Cases, x: Case)
    requires k <= n
    ensures Has(SaturationCases(c, dscp, k, n, rest), x)
            <==> Has(rest, x) || exists j: nat :: k <= j < n && StepOf(c, x, dscp, j)
    decreases n - k
  {
    if k < n {
      SaturationHas(c, dscp, k + 1, n, rest, x);
      RateHas(dscp, c.udpStart + c.udpStep * k, SaturationCases(c, dscp, k + 1, n, rest), x);
      assert StepOf(c, x, dscp, k) <==> UdpOf(x, dscp, c.udpStart + c.udpStep * k, UdpSaturation);
    }
  }

  /** The steps taken are those whose rate is within the maximum, up to a thousand. */
  lemma StepIff(c: Config, j: nat)
    requires c.udpStep != 0 && c.protocol != Tcp && !c.singleTest
    ensures j < SaturationSteps(c) <==> c.udpStart < c.udpMax && j < 1000 && c.udpStart + c.udpStep * j <= c.udpMax
  {
    if c.udpStart < c.udpMax {
      var span := c.udpMax - c.udpStart;
      var q := span / c.udpStep;
      assert span == q * c.udpStep + span % c.udpStep;
      if j <= q {
        ProductOrder(j, q, c.udpStep);
      } else {
        ProductOrder(q + 1, j, c.udpStep);
        assert (q + 1) * c.udpStep == q * c.udpStep + c.udpStep;
      }
    }
  }

  lemma RampHas(c: Config, dscp: DscpClass, rest: Cases, x: Case)
    requires c.udpStep != 0 && !c.singleTest
    ensures Has(SaturationCases(c, dscp, 0, SaturationSteps(c), rest), x)
            <==> Has(rest, x) || (x.dscp == dscp && RampPlanned(c, x))
  {
    SaturationHas(c, dscp, 0, SaturationSteps(c), rest, x);
    if j: nat :| j < SaturationSteps(c) && StepOf(c, x, dscp, j) {
      StepIff(c, j);
      assert x.rate.value == c.udpStart + j * c.udpStep;
    }
    if x.dscp == dscp && RampPlanned(c, x) {
      var k: nat :| k < 1000 && x.rate.value == c.udpStart + k * c.udpStep;
      StepIff(c, k);
      assert StepOf(c, x, dscp, k);
    }
  }

  lemma DscpHas(c: Config, bidirectional: bool, dscp: DscpClass, rest: Cases, x: Case)
    requires c.udpStep != 0 && !c.singleTest
    ensures Has(DscpCases(NestOf(c, bidirectional), dscp, rest), x)
            <==> Has(rest, x)
                 || (x.dscp == dscp && (TcpPlanned(c, bidirectional, x) || FixedPlanned(c, x) || RampPlanned(c, x)))
  {
    var n := NestOf(c, bidirectional);
    var saturation := SaturationCases(c, dscp, 0, n.steps, rest);
    RampHas(c, dscp, rest, x);
    FixedHas(c, dscp, saturation, x);
    TcpHas(c, dscp, n.directions, 0, UdpCases(n, dscp, rest), x);
    assert n.directions[0..] == n.directions;
    assert x.direction in n.directions <==> (x.direction == Bidirectional ==> bidirectional);
  }

  lemma {:induction false} SuiteHas(c: Config, bidirectional: bool, i: nat, x: Case)
    requires c.udpStep != 0 && !c.singleTest && i <= |c.dscps|
    ensures Has(SuiteCases(NestOf(c, bidirectional), i), x)
            <==> && x.dscp in c.dscps[i..]
                 && (TcpPlanned(c, bidirectional, x) || FixedPlanned(c, x) || RampPlanned(c, x))
    decreases |c.dscps| - i
  {
    if i < |c.dscps| {
      SuiteHas(c, bidirectional, i + 1, x);
      DscpHas(c, bidirectional, c.dscps[i], SuiteCases(NestOf(c, bidirectional), i + 1), x);
      Tail(c.dscps, i, x.dscp);
    }
  }

  lemma CasesAreThePlanned(c: Config, bidirectional: bool, x: Case)
    requires c.udpStep != 0 && c.dscps != []
    ensures Has(AllCases(c, bidirectional), x) <==> Planned(c, bidirectional, x)
  {
    if !c.singleTest {
      SuiteHas(c, bidirectional, 0, x);
      assert c.dscps[0..] == c.dscps;
    }
  }

  /** A test apart from its id and the settings all tests share. */
  function CaseOf(t: TestSpec): Case {
    Case(t.protocol, t.direction, t.dscp, t.streams, t.window, t.rate, t.phase)
  }

  predicate SharesSettings(c: Config, t: TestSpec) {
    && t.target == c.target && t.port == c.port && t.duration == c.duration && t.omit == c.omit
    && t.tos == t.dscp.Tos()
  }

  /** A test with these settings is among the tests, under whatever id. */
  ghost predicate Among(tests: seq<TestSpec>, t: TestSpec) {
    exists i :: 0 <= i < |tests| && tests[i].(id := t.id) == t
  }

  lemma {:induction false} NumberedAmong(c: Config, cases: Cases, first: nat, t: TestSpec)
    ensures Among(Numbered(c, cases, first), t) <==> SharesSettings(c, t) && Has(cases, CaseOf(t))
    decreases cases
  {
    if cases.Then? {
      var tests, rest := Numbered(c, cases, first), Numbered(c, cases.tail, first + 1);
      NumberedAmong(c, cases.tail, first + 1, t);
      assert tests == [SpecOf(c, cases.head, first)] + rest;
      assert tests[0].(id := t.id) == t <==> SharesSettings(c, t) && cases.head == CaseOf(t);
      if Among(rest, t) {
        var i :| 0 <= i < |rest| && rest[i].(id := t.id) == t;
        assert tests[i + 1].(id := t.id) == t;
      }
      if i :| 0 < i < |tests| && tests[i].(id := t.id) == t {
        assert rest[i - 1].(id := t.id) == t;
      }
    }
  }

  /** A plan has exactly the tests that its configuration asks for: the TCP matrix, the fixed UDP tests, and
      for each DSCP class and direction the rates start + k * step up to the maximum, at most a thousand. */
  lemma PlanHasExactly(c: Config, bidirectional: bool, t: TestSpec)
    requires MakePlan(c, bidirectional).Ok?
    ensures Among(AllTests(MakePlan(c, bidirectional).value), t)
            <==> SharesSettings(c, t) && Planned(c, bidirectional, CaseOf(t))
  {
    NumberedAmong(c, AllCases(c, bidirectional), 1, t);
    CasesAreThePlanned(c, bidirectional, CaseOf(t));
  }

  // ---------------------------------------------------------------------------------------
  // The order of the ramp
  // ---------------------------------------------------------------------------------------

  /** How a saturation test follows the test before it: first Tx at the start rate, then Rx at the same rate,
      then Tx one step higher. */
  predicate Ascends(c: Config, before: Option<Case>, x: Case) {
    x.phase == UdpSaturation ==>
      && x.rate.Some?
      && if before.Some? && before.value.phase == UdpSaturation then
           && x.dscp == before.value.dscp && before.value.rate.Some?
           && (if before.value.direction == Tx then x.direction == Rx && x.rate == before.value.rate
               else x.direction == Tx && x.rate.value == before.value.rate.value + c.udpStep)
         else x.direction == Tx && x.rate.value == c.udpStart
  }

  predicate AllAscend(c: Config, before: Option<Case>, cases: Cases)
    decreases cases
  {
    cases.Done? || (Ascends(c, before, cases.head) && AllAscend(c, Some(cases.head), cases.tail))
  }

  /** Nothing that could be taken for the continuation of a ramp. */
  predicate StartsAfresh(cases: Cases) {
    cases.Done? || cases.head.phase != UdpSaturation
  }

  lemma AfreshAfterAnything(c: Config, before: Option<Case>, other: Option<Case>, cases: Cases)
    requires StartsAfresh(cases) && AllAscend(c, before, cases)
    ensures AllAscend(c, other, cases)
  {
  }

  lemma {:induction false} WindowsAscend(
    c: Config, dscp: DscpClass, d: Direction, streams: nat, w: nat, rest: Cases, before: Option<Case>)
    requires w <= |c.windows| && (forall b: Option<Case> :: NotRamp(b) ==> AllAscend(c, b, rest)) && NotRamp(before)
    ensures AllAscend(c, before, WindowCases(c, dscp, d, streams, w, rest))
    decreases |c.windows| - w
  {
    if w < |c.windows| {
      var x := Case(Tcp, d, dscp, streams, c.windows[w], None, TcpMatrix);
      WindowsAscend(c, dscp, d, streams, w + 1, rest, Some(x));
    }
  }

  predicate NotRamp(before: Option<Case>) {
    before.Some? ==> before.value.phase != UdpSaturation
  }

  lemma {:induction false} StreamsAscend(
    c: Config, dscp: DscpClass, d: Direction, s: nat, rest: Cases, before: Option<Case>)
    requires s <= |c.streams| && (forall b: Option<Case> :: NotRamp(b) ==> AllAscend(c, b, rest)) && NotRamp(before)
    ensures AllAscend(c, before, StreamCases(c, dscp, d, s, rest))
    decreases |c.streams| - s
  {
    if s < |c.streams| {
      var later := StreamCases(c, dscp, d, s + 1, rest);
      forall b: Option<Case> | NotRamp(b) ensures AllAscend(c, b, later) {
        StreamsAscend(c, dscp, d, s + 1, rest, b);
      }
      WindowsAscend(c, dscp, d, c.streams[s], 0, later, before);
    }
  }

  lemma {:induction false} TcpAscends(
    c: Config, dscp: DscpClass, directions: seq<Direction>, i: nat, rest: Cases, before: Option<Case>)
    requires i <= |directions| && (forall b: Option<Case> :: NotRamp(b) ==> AllAscend(c, b, rest)) && NotRamp(before)
    ensures AllAscend(c, before, TcpCases(c, dscp, directions, i, rest))
    decreases |directions| - i
  {
    if i < |directions| {
      var later := TcpCases(c, dscp, directions, i + 1, rest);
      forall b: Option<Case> | NotRamp(b) ensures AllAscend(c, b, later) {
        TcpAscends(c, dscp, directions, i + 1, rest, b);
      }
      StreamsAscend(c, dscp, directions[i], 0, later, before);
    }
  }

  /** The ramp from step k on, after step k - 1 or at its start. */
  lemma {:induction false} RampAscends(
    c: Config, dscp: DscpClass, k: nat, n: nat, rest: Cases, before: Option<Case>)
    requires k <= n && StartsAfresh(rest) && AllAscend(c, None, rest)
    requires if k == 0 then NotRamp(before)
             else before == Some(Case(Udp, Rx, dscp, 1, None, Some(c.udpStart + c.udpStep * (k - 1)), UdpSaturation))
    ensures AllAscend(c, before, SaturationCases(c, dscp, k, n, rest))
    decreases n - k
  {
    if k == n {
      AfreshAfterAnything(c, None, before, rest);
    } else {
      var rate := c.udpStart + c.udpStep * k;
      var tx := Case(Udp, Tx, dscp, 1, None, Some(rate), UdpSaturation);
      var rx := tx.(direction := Rx);
      var later := SaturationCases(c, dscp, k + 1, n, rest);
      RampAscends(c, dscp, k + 1, n, rest, Some(rx));
      OneStepUp(c, k);
      assert RateCases(dscp, rate, 2, later) == later;
      assert RateCases(dscp, rate, 1, later) == Then(rx, later);
      assert RateCases(dscp, rate, 0, later) == Then(tx, Then(rx, later));
    }
  }

  lemma OneStepUp(c: Config, k: nat)
    ensures k > 0 ==> c.udpStep * k == c.udpStep * (k - 1) + c.udpStep
    ensures c.udpStep * 0 == 0
  {
  }

  lemma FixedAscends(c: Config, dscp: DscpClass, rest: Cases, before: Option<Case>)
    requires forall b: Option<Case> :: NotRamp(b) ==> AllAscend(c, b, rest)
    ensures AllAscend(c, before, FixedCases(c, dscp, 0, rest)) && StartsAfresh(FixedCases(c, dscp, 0, rest))
  {
    assert FixedCases(c, dscp, 2, rest) == rest;
    assert FixedCases(c, dscp, 1, rest).tail == rest;
  }

  lemma TcpStartsAfresh(n: Nest, dscp: DscpClass, i: nat, rest: Cases)
    requires i <= |n.directions| && n.c.streams != [] && n.c.windows != [] && StartsAfresh(rest)
    ensures StartsAfresh(TcpCases(n.c, dscp, n.directions, i, rest))
  {
    if i < |n.directions| {
      var d := n.directions[i];
      var later := TcpCases(n.c, dscp, n.directions, i + 1, rest);
      assert StreamCases(n.c, dscp, d, 0, later)
          == WindowCases(n.c, dscp, d, n.c.streams[0], 0, StreamCases(n.c, dscp, d, 1, later));
    }
  }

  lemma DscpAscends(n: Nest, dscp: DscpClass, rest: Cases)
    requires n.steps > 0 ==> n.c.protocol != Tcp
    requires n.c.streams != [] && n.c.windows != []
    requires StartsAfresh(rest) && AllAscend(n.c, None, rest)
    ensures AllAscend(n.c, None, DscpCases(n, dscp, rest)) && StartsAfresh(DscpCases(n, dscp, rest))
  {
    var c, saturation, udp := n.c, SaturationCases(n.c, dscp, 0, n.steps, rest), UdpCases(n, dscp, rest);
    forall b: Option<Case> | NotRamp(b) ensures AllAscend(c, b, saturation) {
      RampAscends(c, dscp, 0, n.steps, rest, b);
    }
    forall b: Option<Case> | NotRamp(b) ensures AllAscend(c, b, udp) && StartsAfresh(udp) {
      FixedAscends(c, dscp, saturation, b);
    }
    assert NotRamp(None);
    TcpAscends(c, dscp, n.directions, 0, udp, None);
    TcpStartsAfresh(n, dscp, 0, udp);
  }

  lemma {:induction false} SuiteAscends(n: Nest, i: nat)
    requires i <= |n.c.dscps| && (n.steps > 0 ==> n.c.protocol != Tcp)
    requires n.c.streams != [] && n.c.windows != []
    ensures AllAscend(n.c, None, SuiteCases(n, i)) && StartsAfresh(SuiteCases(n, i))
    decreases |n.c.dscps| - i
  {
    if i < |n.c.dscps| {
      SuiteAscends(n, i + 1);
      DscpAscends(n, n.c.dscps[i], SuiteCases(n, i + 1));
    }
  }

  lemma {:induction false} NumberedAscends(c: Config, cases: Cases, first: nat, before: Option<Case>, i: nat)
    requires AllAscend(c, before, cases) && i < |Numbered(c, cases, first)|
    ensures var tests := Numbered(c, cases, first);
            Ascends(c, if i == 0 then before else Some(CaseOf(tests[i - 1])), CaseOf(tests[i]))
    decreases cases
  {
    if i > 0 {
      NumberedAscends(c, cases.tail, first + 1, Some(cases.head), i - 1);
    }
  }

  /** In the order of the tests the rates of a DSCP class ascend step by step from the start rate, each rate
      first sent and then received. */
  lemma RampIsOrdered(c: Config, bidirectional: bool, i: nat)
    requires MakePlan(c, bidirectional).Ok? && i < |AllTests(MakePlan(c, bidirectional).value)|
    ensures var tests := AllTests(MakePlan(c, bidirectional).value);
            Ascends(c, if i == 0 then None else Some(CaseOf(tests[i - 1])), CaseOf(tests[i]))
  {
    if !c.singleTest {
      SuiteAscends(NestOf(c, bidirectional), 0);
    }
    assert AllAscend(c, None, AllCases(c, bidirectional));
    NumberedAscends(c, AllCases(c, bidirectional), 1, None, i);
  }

  // ---------------------------------------------------------------------------------------
  // The budget
  // ---------------------------------------------------------------------------------------

  lemma {:induction false} NumberedLength(c: Config, cases: Cases, first: nat)
    ensures |Numbered(c, cases, first)| == cases.Length()
    decreases cases
  {
    if cases.Then? {
      NumberedLength(c, cases.tail, first + 1);
    }
  }

  /** A valid configuration is planned unless it sets a budget, other than zero, that its tests exceed; the
      error then names both numbers. */
  lemma BudgetIsExact(c: Config, bidirectional: bool)
    requires ValidConfig(c)
    ensures var n := |AllTests(Plan(c, bidirectional, 0))|;
            MakePlan(c, bidirectional)
            == if c.maxTotal.Some? && 0 < c.maxTotal.value < n then Err(BudgetExceeded(n, c.maxTotal.value))
               else Ok(Plan(c, bidirectional, n))
  {
    NumberedLength(c, AllCases(c, bidirectional), 1);
    TotalIsClosedForm(c, bidirectional);
  }
}
