/** Matching the peer's result to the local streams and computing the reported figures:
    crates/throughput/src/protocol/metrics.rs and the stream ids of run_data. */
module TestResults {
  import opened Common
  import opened ThroughputPlan
  import UdpReceive

  /** A stream object of the peer's JSON; a field that is missing or of the wrong type is None. */
  datatype PeerStream = PeerStream(
    id: Option<u64>, bytes: Option<u64>, start: Option<real>, end: Option<real>, retransmits: Option<int>,
    packets: Option<u64>, errors: Option<u64>, jitter: Option<real>)

  datatype StreamOutcome = StreamOutcome(
    id: nat, sender: bool, bytes: nat, packets: nat, errors: nat, jitter: real, duration: real)

  datatype Error = Malformed

  // ---------------------------------------------------------------------------------------
  // Stream ids
  // ---------------------------------------------------------------------------------------

  /** The id the peer's implementation gives to the stream opened at `index`. */
  function StreamId(index: nat): nat {
    if index == 0 then 1 else index + 2
  }

  function LocalIds(outcomes: seq<StreamOutcome>): set<nat> {
    set o | o in outcomes :: o.id
  }

  /** run_data sorts the finished streams by id. */
  ghost predicate NumberedByRunData(outcomes: seq<StreamOutcome>) {
    forall i :: 0 <= i < |outcomes| ==> outcomes[i].id == StreamId(i)
  }

  lemma {:induction false} DistinctIds(outcomes: seq<StreamOutcome>)
    requires NumberedByRunData(outcomes)
    ensures |LocalIds(outcomes)| == |outcomes|
  {
    if outcomes != [] {
      var init, last := outcomes[..|outcomes| - 1], outcomes[|outcomes| - 1];
      DistinctIds(init);
      assert LocalIds(outcomes) == LocalIds(init) + {last.id} by {
        assert outcomes == init + [last];
      }
      assert last.id !in LocalIds(init);
    }
  }

  /** The ids skip 2, as those of the peer's implementation do. */
  lemma {:induction false} IdsSkipTwo(outcomes: seq<StreamOutcome>)
    requires NumberedByRunData(outcomes)
    ensures forall id: nat :: id in LocalIds(outcomes) <==> 1 <= id <= |outcomes| + 1 && id != 2 && outcomes != []
  {
    forall id: nat ensures id in LocalIds(outcomes) <==> 1 <= id <= |outcomes| + 1 && id != 2 && outcomes != [] {
      if 1 <= id <= |outcomes| + 1 && id != 2 && outcomes != [] {
        var i := if id == 1 then 0 else id - 2;
        assert outcomes[i] in outcomes && outcomes[i].id == id;
      }
    }
  }

  // ---------------------------------------------------------------------------------------
  // The peer's streams
  // ---------------------------------------------------------------------------------------

  /** A number() field: present, finite and not negative. */
  predicate Number(x: Option<real>) {
    x.Some? && x.value >= 0.0
  }

  predicate StreamOk(protocol: Protocol, s: PeerStream) {
    && s.id.Some? && s.bytes.Some?
    && Number(s.start) && Number(s.end) && s.start.value < s.end.value
    && (protocol.Udp? ==>
          s.packets.Some? && s.errors.Some? && s.errors.value <= s.packets.value && Number(s.jitter))
  }

  ghost predicate AllOk(protocol: Protocol, streams: seq<PeerStream>) {
    forall i :: 0 <= i < |streams| ==> StreamOk(protocol, streams[i])
  }

  function Bytes(streams: seq<PeerStream>): nat {
    if streams == [] then 0
    else Bytes(streams[..|streams| - 1])
         + if streams[|streams| - 1].bytes.Some? then streams[|streams| - 1].bytes.value else 0
  }

  function Mbps(bytes: nat, seconds: real): real
    requires seconds > 0.0
  {
    bytes as real * 8.0 / seconds / 1000000.0
  }

  function StreamRate(s: PeerStream): real {
    if s.bytes.Some? && Number(s.start) && Number(s.end) && s.start.value < s.end.value
    then Mbps(s.bytes.value, s.end.value - s.start.value) else 0.0
  }

  function Rate(streams: seq<PeerStream>): real {
    if streams == [] then 0.0
    else Rate(streams[..|streams| - 1]) + StreamRate(streams[|streams| - 1])
  }

  /** The sum of the counters that are not negative; None when the peer supplied no such counter. */
  function Retransmits(streams: seq<PeerStream>): Option<nat> {
    if streams == [] then None
    else
      var s, before := streams[|streams| - 1], Retransmits(streams[..|streams| - 1]);
      if s.retransmits.None? || s.retransmits.value < 0 then before
      else Some((if before.Some? then before.value else 0) + s.retransmits.value)
  }

  ghost predicate DistinctKnownIds(streams: seq<PeerStream>, local: set<nat>) {
    && (forall i :: 0 <= i < |streams| ==> streams[i].id.Some? && streams[i].id.value in local)
    && (forall i, j :: 0 <= i < j < |streams| ==> streams[i].id != streams[j].id)
  }

  /** Exactly the peer results the stream loop of build_result accepts. */
  ghost predicate PeerAccepted(protocol: Protocol, outcomes: seq<StreamOutcome>, streams: seq<PeerStream>) {
    && |streams| == |outcomes|
    && AllOk(protocol, streams)
    && DistinctKnownIds(streams, LocalIds(outcomes))
    && Fits(TotalsOf(streams))
  }

  function PeerIds(streams: seq<PeerStream>): set<nat> {
    set s | s in streams && s.id.Some? :: s.id.value
  }

  /** What build_result has gathered from the streams before this one. */
  datatype Totals = Totals(ids: set<nat>, bytes: nat, rate: real, retransmits: Option<nat>)

  function TotalsOf(streams: seq<PeerStream>): Totals {
    Totals(PeerIds(streams), Bytes(streams), Rate(streams), Retransmits(streams))
  }

  ghost predicate Fits(t: Totals) {
    t.bytes <= U64_MAX && (t.retransmits.Some? ==> t.retransmits.value <= U64_MAX)
  }

  /** The totals after one more stream. */
  function Added(t: Totals, s: PeerStream): Totals
    requires s.id.Some? && s.bytes.Some?
  {
    Totals(t.ids + {s.id.value}, t.bytes + s.bytes.value, t.rate + StreamRate(s),
           if s.retransmits.None? || s.retransmits.value < 0 then t.retransmits
           else Some((if t.retransmits.Some? then t.retransmits.value else 0) + s.retransmits.value))
  }

  ghost predicate Acceptable(protocol: Protocol, local: set<nat>, t: Totals, s: PeerStream) {
    StreamOk(protocol, s) && s.id.value in local && s.id.value !in t.ids && Fits(Added(t, s))
  }

  lemma AddedTotals(init: seq<PeerStream>, s: PeerStream)
    requires s.id.Some? && s.bytes.Some?
    ensures TotalsOf(init + [s]) == Added(TotalsOf(init), s)
  {
    assert (init + [s])[..|init|] == init;
    assert PeerIds(init + [s]) == PeerIds(init) + {s.id.value};
  }

  /** Ids seen so far are those of the streams so far. */
  lemma FreshId(streams: seq<PeerStream>, id: nat)
    ensures id in PeerIds(streams) <==> exists i :: 0 <= i < |streams| && streams[i].id == Some(id)
  {
    if id in PeerIds(streams) {
      var s :| s in streams && s.id == Some(id);
      assert exists i :: 0 <= i < |streams| && streams[i] == s;
    }
  }

  lemma DistinctAppend(init: seq<PeerStream>, s: PeerStream, local: set<nat>)
    requires s.id.Some?
    ensures DistinctKnownIds(init + [s], local)
            <==> DistinctKnownIds(init, local) && s.id.value in local && s.id.value !in PeerIds(init)
  {
    var more := init + [s];
    assert forall i :: 0 <= i < |init| ==> more[i] == init[i];
    assert more[|init|] == s;
    FreshId(init, s.id.value);
  }

  lemma AllOkAppend(protocol: Protocol, init: seq<PeerStream>, s: PeerStream)
    ensures AllOk(protocol, init + [s]) <==> AllOk(protocol, init) && StreamOk(protocol, s)
  {
    var more := init + [s];
    assert forall i :: 0 <= i < |init| ==> more[i] == init[i];
    assert more[|init|] == s;
  }

  /** The loop gets past all of these streams. */
  ghost predicate Passes(protocol: Protocol, local: set<nat>, streams: seq<PeerStream>) {
    || streams == []
    || (&& Passes(protocol, local, streams[..|streams| - 1])
        && Acceptable(protocol, local, TotalsOf(streams[..|streams| - 1]), streams[|streams| - 1]))
  }

  /** Checking stream by stream is checking all of them. */
  lemma {:induction false} PassesIff(protocol: Protocol, local: set<nat>, streams: seq<PeerStream>)
    ensures Passes(protocol, local, streams)
            <==> AllOk(protocol, streams) && DistinctKnownIds(streams, local) && Fits(TotalsOf(streams))
  {
    if streams != [] {
      var init, s := streams[..|streams| - 1], streams[|streams| - 1];
      assert streams == init + [s];
      PassesIff(protocol, local, init);
      AllOkAppend(protocol, init, s);
      if StreamOk(protocol, s) {
        AddedTotals(init, s);
        DistinctAppend(init, s, local);
      }
    }
  }

  lemma {:induction false} StuckAt(protocol: Protocol, local: set<nat>, streams: seq<PeerStream>, i: nat)
    requires i < |streams| && !Acceptable(protocol, local, TotalsOf(streams[..i]), streams[i])
    ensures !Passes(protocol, local, streams)
    decreases |streams|
  {
    var init := streams[..|streams| - 1];
    if i < |init| {
      assert init[..i] == streams[..i];
      StuckAt(protocol, local, init, i);
    }
  }

  /** The body of the stream loop. */
  method AddStream(protocol: Protocol, local: set<nat>, t: Totals, s: PeerStream) returns (r: Result<Totals, Error>)
    requires Fits(t)
    ensures r.Ok? <==> Acceptable(protocol, local, t, s)
    ensures r.Ok? ==> r.value == Added(t, s)
  {
    if s.id.None? || s.id.value in t.ids || s.id.value !in local {
      return Err(Malformed);
    }
    if s.bytes.None? || t.bytes + s.bytes.value > U64_MAX {
      return Err(Malformed);
    }
    if !Number(s.start) || !Number(s.end) || s.end.value <= s.start.value {
      return Err(Malformed);
    }
    var rate := t.rate + Mbps(s.bytes.value, s.end.value - s.start.value);
    var retransmits := t.retransmits;
    if s.retransmits.Some? && s.retransmits.value >= 0 {
      var sum: nat := (if retransmits.Some? then retransmits.value else 0) + s.retransmits.value;
      if sum > U64_MAX {
        return Err(Malformed);
      }
      retransmits := Some(sum);
    }
    if protocol.Udp? {
      if s.packets.None? || s.errors.None? || s.errors.value > s.packets.value || !Number(s.jitter) {
        return Err(Malformed);
      }
    }
    r := Ok(Totals(t.ids + {s.id.value}, t.bytes + s.bytes.value, rate, retransmits));
  }

  /** The stream loop: it accepts exactly the well-formed peer results, and sums them. */
  method ReadPeer(protocol: Protocol, outcomes: seq<StreamOutcome>, streams: seq<PeerStream>)
    returns (r: Result<(nat, real, Option<nat>), Error>)
    ensures r.Ok? <==> PeerAccepted(protocol, outcomes, streams)
    ensures r.Ok? ==> r.value == (Bytes(streams), Rate(streams), Retransmits(streams))
  {
    if |streams| != |outcomes| {
      return Err(Malformed);
    }
    var local := LocalIds(outcomes);
    var totals := Totals({}, 0, 0.0, None);
    PassesIff(protocol, local, streams);
    var i := 0;
    while i < |streams|
      invariant i <= |streams| && Fits(totals)
      invariant Passes(protocol, local, streams[..i]) && totals == TotalsOf(streams[..i])
    {
      var added := AddStream(protocol, local, totals, streams[i]);
      if added.Err? {
        StuckAt(protocol, local, streams, i);
        return Err(Malformed);
      }
      NextPrefix(protocol, local, streams, i);
      totals := added.value;
      i := i + 1;
    }
    assert streams[..i] == streams;
    r := Ok((totals.bytes, totals.rate, totals.retransmits));
  }

  lemma NextPrefix(protocol: Protocol, local: set<nat>, streams: seq<PeerStream>, i: nat)
    requires i < |streams| && Passes(protocol, local, streams[..i])
    requires Acceptable(protocol, local, TotalsOf(streams[..i]), streams[i])
    ensures Passes(protocol, local, streams[..i + 1])
    ensures TotalsOf(streams[..i + 1]) == Added(TotalsOf(streams[..i]), streams[i])
  {
    var more := streams[..i + 1];
    assert more == streams[..i] + [streams[i]] && more[..i] == streams[..i];
    AddedTotals(streams[..i], streams[i]);
  }

  lemma {:induction false} PeerIdCount(streams: seq<PeerStream>, local: set<nat>)
    requires DistinctKnownIds(streams, local)
    ensures |PeerIds(streams)| == |streams| && PeerIds(streams) <= local
  {
    if streams != [] {
      var init, last := streams[..|streams| - 1], streams[|streams| - 1];
      PeerIdCount(init, local);
      assert streams == init + [last];
      assert last.id.Some? && last.id.value in local by { assert last == streams[|streams| - 1]; }
      assert PeerIds(streams) == PeerIds(init) + {last.id.value};
      assert forall k :: 0 <= k < |init| ==> init[k].id == streams[k].id != last.id;
      assert last.id.value !in PeerIds(init);
    }
  }

  lemma EqualBySize(a: set<nat>, b: set<nat>)
    requires a <= b && |a| == |b|
    ensures a == b
  {
    assert b == a + (b - a);
  }

  /** An accepted peer result reports each stream of the test exactly once: the checks for unknown and
      duplicate ids, with the count check, force the two id sets to be equal. */
  lemma AcceptedPeerCoversEveryStream(protocol: Protocol, outcomes: seq<StreamOutcome>, streams: seq<PeerStream>)
    requires NumberedByRunData(outcomes) && PeerAccepted(protocol, outcomes, streams)
    ensures PeerIds(streams) == LocalIds(outcomes)
    ensures forall o :: o in outcomes ==> exists i :: 0 <= i < |streams| && streams[i].id == Some(o.id)
  {
    DistinctIds(outcomes);
    PeerIdCount(streams, LocalIds(outcomes));
    EqualBySize(PeerIds(streams), LocalIds(outcomes));
    forall o | o in outcomes
      ensures exists i :: 0 <= i < |streams| && streams[i].id == Some(o.id)
    {
      assert o.id in PeerIds(streams);
    }
  }

  // ---------------------------------------------------------------------------------------
  // Loss
  // ---------------------------------------------------------------------------------------

  function Sum(xs: seq<nat>): nat {
    if xs == [] then 0 else Sum(xs[..|xs| - 1]) + xs[|xs| - 1]
  }

  /** `sum::<u64>()` in a build without overflow checks. */
  function WrappingSum(xs: seq<nat>): nat {
    if xs == [] then 0 else (WrappingSum(xs[..|xs| - 1]) + xs[|xs| - 1]) % U64_RANGE
  }

  function LossPct(packets: nat, errors: nat): Option<real> {
    if packets > 0 then Some(errors as real * 100.0 / packets as real) else None
  }

  /** A loss is reported exactly if there were packets, and is the errors in per cent of them. */
  lemma LossIsPercentage(packets: nat, errors: nat)
    ensures LossPct(packets, errors).Some? <==> packets > 0
    ensures packets > 0 ==> LossPct(packets, errors).value * packets as real == 100.0 * errors as real
  {
  }

  /** The rate times the duration is the number of bits. */
  lemma RateIsBits(bytes: nat, seconds: real)
    requires seconds > 0.0
    ensures Mbps(bytes, seconds) * 1000000.0 * seconds == 8.0 * bytes as real
  {
    var perSecond := bytes as real * 8.0 / seconds;
    assert perSecond * seconds == bytes as real * 8.0;
    assert Mbps(bytes, seconds) * 1000000.0 == perSecond;
  }

  predicate InRange(loss: Option<real>) {
    loss.Some? ==> 0.0 <= loss.value <= 100.0
  }

  ghost predicate ErrorsWithin(packets: seq<nat>, errors: seq<nat>) {
    |errors| == |packets| && forall i :: 0 <= i < |packets| ==> errors[i] <= packets[i]
  }

  lemma LossInRange(packets: nat, errors: nat)
    ensures InRange(LossPct(packets, errors)) <==> packets == 0 || errors <= packets
  {
    if packets > 0 {
      var p, e := packets as real, errors as real;
      var loss := e * 100.0 / p;
      assert loss * p == e * 100.0;
      if errors <= packets {
        RealQuotient(loss, p, e * 100.0, 100.0);
      } else {
        RealQuotientAbove(loss, p, e * 100.0, 100.0);
      }
    }
  }

  lemma RealQuotient(q: real, p: real, x: real, bound: real)
    requires p > 0.0 && q * p == x && 0.0 <= x <= bound * p
    ensures 0.0 <= q <= bound
  {
  }

  lemma RealQuotientAbove(q: real, p: real, x: real, bound: real)
    requires p > 0.0 && q * p == x && bound * p < x
    ensures bound < q
  {
  }

  lemma {:induction false} SumsOrdered(packets: seq<nat>, errors: seq<nat>)
    requires ErrorsWithin(packets, errors)
    ensures Sum(errors) <= Sum(packets)
  {
    if packets != [] {
      SumsOrdered(packets[..|packets| - 1], errors[..|errors| - 1]);
    }
  }

  lemma {:induction false} WrapsOnce(xs: seq<nat>)
    ensures WrappingSum(xs) == Sum(xs) % U64_RANGE
  {
    if xs != [] {
      var before, last := xs[..|xs| - 1], xs[|xs| - 1];
      WrapsOnce(before);
      assert (Sum(before) % U64_RANGE + last) % U64_RANGE == (Sum(before) + last) % U64_RANGE;
    }
  }

  /** The loss of the local receivers: errors and packets of all receiving streams, summed as u64. */
  function LocalLoss(packets: seq<nat>, errors: seq<nat>): Option<real> {
    LossPct(WrappingSum(packets), WrappingSum(errors))
  }

  lemma LocalLossInRange(packets: seq<nat>, errors: seq<nat>)
    ensures InRange(LocalLoss(packets, errors))
            <==> Sum(packets) % U64_RANGE == 0 || Sum(errors) % U64_RANGE <= Sum(packets) % U64_RANGE
  {
    WrapsOnce(packets);
    WrapsOnce(errors);
    LossInRange(WrappingSum(packets), WrappingSum(errors));
  }

  // ---------------------------------------------------------------------------------------
  // The loss of what was really received
  // ---------------------------------------------------------------------------------------

  /** What one UDP receiver gets during a test. */
  datatype Reception = Reception(datagrams: seq<UdpReceive.Datagram>, omitEnd: int) {
    function Outcome(): Result<UdpReceive.Records, UdpReceive.Error> {
      UdpReceive.ReceiveAll(datagrams, omitEnd)
    }
  }

  ghost predicate AllSucceed(receptions: seq<Reception>) {
    forall i :: 0 <= i < |receptions| ==> receptions[i].Outcome().Ok?
  }

  /** The counters the receivers report. */
  ghost function Packets(receptions: seq<Reception>): seq<nat>
    requires AllSucceed(receptions)
  {
    seq(|receptions|, i requires 0 <= i < |receptions| => UdpReceive.Report(receptions[i].Outcome().value).packets)
  }

  ghost function Errors(receptions: seq<Reception>): seq<nat>
    requires AllSucceed(receptions)
  {
    seq(|receptions|, i requires 0 <= i < |receptions| => UdpReceive.Report(receptions[i].Outcome().value).errors)
  }

  /** How many different datagrams all the receivers got. */
  ghost function Arrived(receptions: seq<Reception>): nat
    requires AllSucceed(receptions)
  {
    if receptions == [] then 0
    else
      Arrived(receptions[..|receptions| - 1])
      + UdpReceive.Distinct(receptions[|receptions| - 1].Outcome().value)
  }

  lemma {:induction false} LostOrArrived(receptions: seq<Reception>)
    requires AllSucceed(receptions)
    ensures Sum(Packets(receptions)) == Sum(Errors(receptions)) + Arrived(receptions)
  {
    if receptions != [] {
      var init, last := receptions[..|receptions| - 1], receptions[|receptions| - 1];
      LostOrArrived(init);
      UdpReceive.ReportedCounts(last.datagrams, last.omitEnd);
      CountersOfPrefix(receptions);
    }
  }

  lemma CountersOfPrefix(receptions: seq<Reception>)
    requires receptions != [] && AllSucceed(receptions)
    ensures var n := |receptions| - 1;
            && Packets(receptions)[..n] == Packets(receptions[..n])
            && Errors(receptions)[..n] == Errors(receptions[..n])
  {
  }

  /** Modular subtraction. */
  lemma ErrorsModulo(errors: nat, arrived: nat)
    ensures var w, v := (errors + arrived) % U64_RANGE, arrived % U64_RANGE;
            errors % U64_RANGE == if v <= w then w - v else w - v + U64_RANGE
  {
    var q, r := errors / U64_RANGE, arrived / U64_RANGE;
    var e, v := errors % U64_RANGE, arrived % U64_RANGE;
    assert errors + arrived == (q + r) * U64_RANGE + (e + v);
    if e + v < U64_RANGE {
      Residue(q + r, e + v);
    } else {
      Residue(q + r + 1, e + v - U64_RANGE);
    }
  }

  /** No more lost than sent, as u64, or no fewer sent than arrived: the same thing. */
  lemma CoversArrivals(packets: nat, errors: nat, arrived: nat)
    requires packets == errors + arrived
    ensures errors % U64_RANGE <= packets % U64_RANGE <==> arrived % U64_RANGE <= packets % U64_RANGE
  {
    ErrorsModulo(errors, arrived);
  }

  lemma Residue(q: nat, r: nat)
    requires r < U64_RANGE
    ensures (q * U64_RANGE + r) % U64_RANGE == r
  {
  }

  /** Exactly when the loss that a test computes from its local receivers is a percentage: when the
      packet sum, as a u64, is zero or covers the datagrams that arrived. */
  lemma LocalLossOfARun(receptions: seq<Reception>)
    requires AllSucceed(receptions)
    ensures var sum := Sum(Packets(receptions)) % U64_RANGE;
            InRange(LocalLoss(Packets(receptions), Errors(receptions)))
            <==> sum == 0 || Arrived(receptions) % U64_RANGE <= sum
  {
    LocalLossInRange(Packets(receptions), Errors(receptions));
    LostOrArrived(receptions);
    CoversArrivals(Sum(Packets(receptions)), Sum(Errors(receptions)), Arrived(receptions));
  }

  lemma SmallRemainder(x: nat)
    requires x < U64_RANGE
    ensures x % U64_RANGE == x
  {
  }

  /** Without a wrap-around the loss is a percentage. */
  lemma UnwrappedLossInRange(receptions: seq<Reception>)
    requires AllSucceed(receptions) && Sum(Packets(receptions)) <= U64_MAX
    ensures InRange(LocalLoss(Packets(receptions), Errors(receptions)))
  {
    LostOrArrived(receptions);
    SmallRemainder(Sum(Packets(receptions)));
    SmallRemainder(Arrived(receptions));
    LocalLossOfARun(receptions);
  }

  /** With one receiver there is nothing to wrap around, whatever it receives. */
  lemma SingleReceiverLossInRange(receptions: seq<Reception>)
    requires AllSucceed(receptions) && |receptions| <= 1
    ensures InRange(LocalLoss(Packets(receptions), Errors(receptions)))
  {
    if receptions != [] {
      UdpReceive.ReportedCounts(receptions[0].datagrams, receptions[0].omitEnd);
      OneElement(Packets(receptions));
    }
    UnwrappedLossInRange(receptions);
  }

  /** Two receivers, one datagram each, and a reported loss far above 100 %. */
  lemma WrappedLossExample()
    ensures var receptions := [Reception([UdpReceive.Numbered(U64_MAX)], 0), Reception([UdpReceive.Numbered(2)], 0)];
            && AllSucceed(receptions)
            && LocalLoss(Packets(receptions), Errors(receptions)) == Some(U64_MAX as real * 100.0)
  {
    var receptions := [Reception([UdpReceive.Numbered(U64_MAX)], 0), Reception([UdpReceive.Numbered(2)], 0)];
    OneDatagram(U64_MAX);
    OneDatagram(2);
    PairCounters(receptions[0], receptions[1], U64_MAX, U64_MAX - 1, 2, 1);
    WrappedPair();
  }

  lemma PairCounters(a: Reception, b: Reception, packetsA: nat, errorsA: nat, packetsB: nat, errorsB: nat)
    requires UdpReceive.Reports(a.datagrams, a.omitEnd, packetsA, errorsA)
    requires UdpReceive.Reports(b.datagrams, b.omitEnd, packetsB, errorsB)
    ensures AllSucceed([a, b])
    ensures Packets([a, b]) == [packetsA, packetsB] && Errors([a, b]) == [errorsA, errorsB]
  {
  }

  lemma WrappedPair()
    ensures LocalLoss([U64_MAX, 2], [U64_MAX - 1, 1]) == Some(U64_MAX as real * 100.0)
  {
    WrappingPair(U64_MAX, 2);
    WrappingPair(U64_MAX - 1, 1);
  }

  lemma OneDatagram(sequence: u64)
    requires sequence > 0
    ensures UdpReceive.Reports([UdpReceive.Numbered(sequence)], 0, sequence, sequence - 1)
  {
    UdpReceive.JumpReports(sequence, sequence - 1);
    assert UdpReceive.Burst(0) + [UdpReceive.Numbered(sequence)] == [UdpReceive.Numbered(sequence)];
  }

  lemma WrappingPair(a: u64, b: u64)
    ensures WrappingSum([a, b]) == (a + b) % U64_RANGE
  {
    assert [a, b][..1] == [a] && [a][..0] == [];
    assert WrappingSum([a]) == a;
  }

  // ---------------------------------------------------------------------------------------
  // For which packet counts the loss is always a percentage
  // ---------------------------------------------------------------------------------------

  ghost predicate AllReportable(packets: seq<u64>, errors: seq<nat>) {
    |errors| == |packets| && forall i :: 0 <= i < |packets| ==> UdpReceive.Reportable(packets[i], errors[i])
  }

  /** What the u64 sum of the packets must be for no reportable errors to exceed it. */
  predicate SumSafe(packets: seq<nat>) {
    Sum(packets) < U64_RANGE || Sum(packets) % U64_RANGE == 0 || Sum(packets) % U64_RANGE == U64_MAX
  }

  /** The most errors that receivers with these packet counts can report. */
  function MostErrors(packets: seq<u64>): nat {
    if packets == [] then 0
    else
      var last := packets[|packets| - 1];
      MostErrors(packets[..|packets| - 1]) + if last > 0 then last - 1 else 0
  }

  lemma {:induction false} MostErrorsBound(packets: seq<u64>)
    ensures Sum(packets) <= MostErrors(packets) + |packets|
  {
    if packets != [] {
      MostErrorsBound(packets[..|packets| - 1]);
    }
  }

  /** Fewer errors than packets, or none at all. */
  ghost predicate AllPossible(packets: seq<u64>, errors: seq<nat>) {
    && |errors| == |packets|
    && forall i :: 0 <= i < |packets| ==> errors[i] < packets[i] || (errors[i] == 0 == packets[i])
  }

  lemma PossibleIsReportable(packets: seq<u64>, errors: seq<nat>)
    requires AllPossible(packets, errors)
    ensures AllReportable(packets, errors)
  {
    forall i | 0 <= i < |packets| ensures UdpReceive.Reportable(packets[i], errors[i]) {
      UdpReceive.ReportableIff(packets[i], errors[i]);
    }
  }

  /** Every total up to that is the sum of some possible error counts. */
  lemma {:induction false} SpreadErrors(packets: seq<u64>, total: nat) returns (errors: seq<nat>)
    requires total <= MostErrors(packets)
    ensures AllPossible(packets, errors) && Sum(errors) == total
  {
    if packets == [] {
      errors := [];
    } else {
      var last := packets[|packets| - 1];
      var here := Min(if last > 0 then last - 1 else 0, total);
      var init := SpreadErrors(packets[..|packets| - 1], total - here);
      errors := init + [here];
      assert errors[..|init|] == init;
    }
  }

  lemma ReportableWithin(packets: seq<u64>, errors: seq<nat>)
    requires AllReportable(packets, errors)
    ensures ErrorsWithin(packets, errors)
  {
    forall i | 0 <= i < |packets| ensures errors[i] <= packets[i] {
      UdpReceive.ReportableIff(packets[i], errors[i]);
    }
  }

  lemma SafeSumInRange(packets: seq<u64>, errors: seq<nat>)
    requires SumSafe(packets) && AllReportable(packets, errors)
    ensures InRange(LocalLoss(packets, errors))
  {
    LocalLossInRange(packets, errors);
    ReportableWithin(packets, errors);
    SumsOrdered(packets, errors);
    if Sum(packets) < U64_RANGE {
      SmallRemainder(Sum(packets));
      SmallRemainder(Sum(errors));
    }
  }

  lemma WrappedSum(total: nat)
    requires total >= U64_RANGE
    ensures total % U64_RANGE + U64_RANGE <= total
  {
  }

  lemma RoomForMore(packets: seq<u64>)
    requires !SumSafe(packets) && |packets| < U64_MAX
    ensures Sum(packets) % U64_RANGE + 1 <= MostErrors(packets)
  {
    MostErrorsBound(packets);
    WrappedSum(Sum(packets));
  }

  lemma OneTooMany(packets: seq<nat>, errors: seq<nat>)
    requires !SumSafe(packets) && Sum(errors) == Sum(packets) % U64_RANGE + 1
    ensures !InRange(LocalLoss(packets, errors))
  {
    SmallRemainder(Sum(errors));
    LocalLossInRange(packets, errors);
  }

  lemma UnsafeSumOutOfRange(packets: seq<u64>) returns (errors: seq<nat>)
    requires !SumSafe(packets) && |packets| < U64_MAX
    ensures AllReportable(packets, errors) && !InRange(LocalLoss(packets, errors))
  {
    RoomForMore(packets);
    errors := SpreadErrors(packets, Sum(packets) % U64_RANGE + 1);
    PossibleIsReportable(packets, errors);
    OneTooMany(packets, errors);
  }

  /** Receivers with these packet counts report a percentage, whatever they lost, exactly when the u64
      sum of the counts does not wrap around, or wraps to zero or to the largest u64. A Rust vector
      has fewer than 2^64 - 1 elements. */
  lemma LocalLossInRangeIff(packets: seq<u64>)
    requires |packets| < U64_MAX
    ensures (forall errors :: AllReportable(packets, errors) ==> InRange(LocalLoss(packets, errors)))
       <==> SumSafe(packets)
  {
    if SumSafe(packets) {
      forall errors | AllReportable(packets, errors) ensures InRange(LocalLoss(packets, errors)) {
        SafeSumInRange(packets, errors);
      }
    } else {
      var errors := UnsafeSumOutOfRange(packets);
    }
  }

  // ---------------------------------------------------------------------------------------
  // The reported loss of an accepted result
  // ---------------------------------------------------------------------------------------

  function ReceiverPackets(outcomes: seq<StreamOutcome>): seq<nat> {
    if outcomes == [] then []
    else
      var o := outcomes[|outcomes| - 1];
      ReceiverPackets(outcomes[..|outcomes| - 1]) + if o.sender then [] else [o.packets]
  }

  function ReceiverErrors(outcomes: seq<StreamOutcome>): seq<nat> {
    if outcomes == [] then []
    else
      var o := outcomes[|outcomes| - 1];
      ReceiverErrors(outcomes[..|outcomes| - 1]) + if o.sender then [] else [o.errors]
  }

  function PeerPackets(streams: seq<PeerStream>): (r: seq<nat>)
    requires forall s :: s in streams ==> s.packets.Some?
    ensures |r| == |streams|
  {
    seq(|streams|, i requires 0 <= i < |streams| => streams[i].packets.value)
  }

  function PeerErrors(streams: seq<PeerStream>): (r: seq<nat>)
    requires forall s :: s in streams ==> s.errors.Some?
    ensures |r| == |streams|
  {
    seq(|streams|, i requires 0 <= i < |streams| => streams[i].errors.value)
  }

  /** udp_metrics: a receiving test trusts its own counters, a sending test the peer's. */
  function UdpLoss(direction: Direction, outcomes: seq<StreamOutcome>, streams: seq<PeerStream>)
    : Result<Option<real>, Error>
    requires forall s :: s in streams ==> s.packets.Some? && s.errors.Some?
  {
    if direction != Tx then Ok(LocalLoss(ReceiverPackets(outcomes), ReceiverErrors(outcomes)))
    else if Sum(PeerPackets(streams)) > U64_MAX || Sum(PeerErrors(streams)) > U64_MAX then Err(Malformed)
    else Ok(LossPct(Sum(PeerPackets(streams)), Sum(PeerErrors(streams))))
  }

  /** The local receivers' counters are those of what they received. */
  ghost predicate FromReceivers(outcomes: seq<StreamOutcome>, receptions: seq<Reception>) {
    && AllSucceed(receptions)
    && ReceiverPackets(outcomes) == Packets(receptions)
    && ReceiverErrors(outcomes) == Errors(receptions)
  }

  /** Exactly when the loss of an accepted UDP result is a percentage: always when it is the peer's, and
      from local receivers when the u64 packet sum is zero or covers what arrived. */
  lemma ReportedLossInRangeIff(
    direction: Direction, outcomes: seq<StreamOutcome>, streams: seq<PeerStream>, receptions: seq<Reception>)
    requires PeerAccepted(Udp, outcomes, streams) && FromReceivers(outcomes, receptions)
    requires UdpLoss(direction, outcomes, streams).Ok?
    ensures var sum := Sum(Packets(receptions)) % U64_RANGE;
            InRange(UdpLoss(direction, outcomes, streams).value)
            <==> direction == Tx || sum == 0 || Arrived(receptions) % U64_RANGE <= sum
  {
    if direction == Tx {
      SumsOrdered(PeerPackets(streams), PeerErrors(streams));
      LossInRange(Sum(PeerPackets(streams)), Sum(PeerErrors(streams)));
    } else {
      LocalLossOfARun(receptions);
    }
  }

  lemma {:induction false} ReceiverCount(outcomes: seq<StreamOutcome>)
    ensures |ReceiverPackets(outcomes)| <= |outcomes|
  {
    if outcomes != [] {
      ReceiverCount(outcomes[..|outcomes| - 1]);
    }
  }

  lemma OneElement(xs: seq<nat>)
    requires |xs| == 1
    ensures Sum(xs) == xs[0]
  {
    assert xs[..0] == [];
  }

  /** Every UDP test of a plan reports a loss, and it is a percentage: such a test has one stream. */
  lemma PlannedLossInRange(
    c: Config, bidirectional: bool, test: TestSpec, outcomes: seq<StreamOutcome>, streams: seq<PeerStream>,
    receptions: seq<Reception>)
    requires MakePlan(c, bidirectional).Ok? && test in AllTests(MakePlan(c, bidirectional).value)
    requires test.protocol == Udp
    requires |outcomes| == test.streams
    requires PeerAccepted(Udp, outcomes, streams) && FromReceivers(outcomes, receptions)
    ensures UdpLoss(test.direction, outcomes, streams).Ok?
    ensures InRange(UdpLoss(test.direction, outcomes, streams).value)
  {
    PlannedTestsAreValid(c, bidirectional);
    assert test.streams == 1;
    if test.direction == Tx {
      OneElement(PeerPackets(streams));
      OneElement(PeerErrors(streams));
      ReportedLossInRangeIff(test.direction, outcomes, streams, receptions);
    } else {
      ReceiverCount(outcomes);
      assert |receptions| == |Packets(receptions)|;
      SingleReceiverLossInRange(receptions);
    }
  }
}
