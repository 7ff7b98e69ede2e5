/** Hop statistics: the streaming Moments and HopAccumulator of crates/path-trace/src/aggregate.rs
    against the batch Statistics::from_samples of crates/path-io/src/lib.rs. Milliseconds are reals,
    and the variance stands for the standard deviation. */
module HopStatistics {
  import opened Common

  datatype Status = Reply | TimeExceeded | Unreachable | Timeout | Cancelled

  /** An address is its rank in the order of IpAddr; an MPLS stack is a list of labels. */
  datatype Sample = Sample(hop: Option<nat>, elapsed: Option<real>, status: Status, mpls: seq<nat>)

  datatype Statistics = Statistics(
    sent: nat, received: nat, cancelled: nat, lossPercent: real,
    last: Option<real>, average: Option<real>, best: Option<real>, worst: Option<real>, variance: Option<real>)

  // ---------------------------------------------------------------------------------------
  // The batch form
  // ---------------------------------------------------------------------------------------

  function Values(samples: seq<Sample>): (values: seq<real>)
    ensures |values| <= |samples|
  {
    if samples == [] then []
    else
      var s := samples[|samples| - 1];
      Values(samples[..|samples| - 1]) + if s.status != Cancelled && s.elapsed.Some? then [s.elapsed.value] else []
  }

  function CancelledCount(samples: seq<Sample>): (n: nat)
    ensures n + |Values(samples)| <= |samples|
  {
    if samples == [] then 0
    else CancelledCount(samples[..|samples| - 1]) + if samples[|samples| - 1].status == Cancelled then 1 else 0
  }

  function Sum(values: seq<real>): real {
    if values == [] then 0.0 else Sum(values[..|values| - 1]) + values[|values| - 1]
  }

  /** The sum of the squared distances to `mean`. */
  function Deviations(values: seq<real>, mean: real): real {
    if values == [] then 0.0
    else Deviations(values[..|values| - 1], mean) + Square(values[|values| - 1] - mean)
  }

  function Square(x: real): real {
    x * x
  }

  function Least(values: seq<real>): Option<real> {
    if values == [] then None
    else
      var before, v := Least(values[..|values| - 1]), values[|values| - 1];
      Some(if before.Some? && before.value < v then before.value else v)
  }

  function Greatest(values: seq<real>): Option<real> {
    if values == [] then None
    else
      var before, v := Greatest(values[..|values| - 1]), values[|values| - 1];
      Some(if before.Some? && before.value > v then before.value else v)
  }

  function Loss(finalized: nat, received: nat): real {
    if finalized == 0 then 0.0 else 100.0 * (finalized - received) as real / finalized as real
  }

  function FromSamples(samples: seq<Sample>): Statistics {
    var values, cancelled := Values(samples), CancelledCount(samples);
    var n := |values|;
    var average := if n == 0 then None else Some(Sum(values) / n as real);
    Statistics(
      |samples|, n, cancelled, Loss(|samples| - cancelled, n),
      if n == 0 then None else Some(values[n - 1]),
      average,
      Least(values),
      Greatest(values),
      if n == 0 then None else Some(Deviations(values, average.value) / n as real))
  }

  // What the batch figures mean

  /** Samples that ended without a reply. */
  function Unanswered(samples: seq<Sample>): nat {
    if samples == [] then 0
    else
      var s := samples[|samples| - 1];
      Unanswered(samples[..|samples| - 1]) + if s.status != Cancelled && s.elapsed.None? then 1 else 0
  }

  lemma {:induction false} SamplesAddUp(samples: seq<Sample>)
    ensures |Values(samples)| + Unanswered(samples) + CancelledCount(samples) == |samples|
  {
    if samples != [] {
      SamplesAddUp(samples[..|samples| - 1]);
    }
  }

  predicate AtMostAll(v: real, values: seq<real>) {
    forall i :: 0 <= i < |values| ==> v <= values[i]
  }

  predicate AtLeastAll(v: real, values: seq<real>) {
    forall i :: 0 <= i < |values| ==> v >= values[i]
  }

  lemma {:induction false} ExtremesAreExtreme(values: seq<real>)
    ensures Least(values).Some? <==> values != []
    ensures Greatest(values).Some? <==> values != []
    ensures values != [] ==> Least(values).value in values && AtMostAll(Least(values).value, values)
    ensures values != [] ==> Greatest(values).value in values && AtLeastAll(Greatest(values).value, values)
  {
    if values != [] {
      var init := values[..|values| - 1];
      ExtremesAreExtreme(init);
      assert values == init + [values[|values| - 1]];
    }
  }

  /** `loss` is what percentage `part` is of `whole`; of nothing it is 0. */
  predicate PercentOf(loss: real, part: nat, whole: nat) {
    if whole == 0 then loss == 0.0 else loss * whole as real == 100.0 * part as real
  }

  lemma LossIsPercent(finished: nat, received: nat, unanswered: nat)
    requires finished == received + unanswered
    ensures PercentOf(Loss(finished, received), unanswered, finished)
  {
    if finished > 0 {
      Quotient(100.0 * unanswered as real, finished as real);
    }
  }

  lemma Quotient(x: real, n: real)
    requires n > 0.0
    ensures x / n * n == x
  {
  }

  lemma ReportedLoss(samples: seq<Sample>)
    ensures FromSamples(samples).lossPercent == Loss(|samples| - CancelledCount(samples), |Values(samples)|)
  {
  }

  lemma LossOfSamples(samples: seq<Sample>)
    ensures PercentOf(Loss(|samples| - CancelledCount(samples), |Values(samples)|), Unanswered(samples),
                      |samples| - CancelledCount(samples))
  {
    SamplesAddUp(samples);
    LossIsPercent(|samples| - CancelledCount(samples), |Values(samples)|, Unanswered(samples));
  }

  /** The loss is the percentage of finished samples without a reply. */
  lemma BatchLoss(samples: seq<Sample>)
    ensures PercentOf(FromSamples(samples).lossPercent, Unanswered(samples), |samples| - CancelledCount(samples))
  {
    ReportedLoss(samples);
    LossOfSamples(samples);
  }

  /** Best and worst are the extremes of the replies. */
  lemma BatchExtremes(samples: seq<Sample>)
    ensures var f, values := FromSamples(samples), Values(samples);
            if values == [] then f.best.None? && f.worst.None? && f.last.None?
            else
              && f.best.Some? && f.best.value in values && AtMostAll(f.best.value, values)
              && f.worst.Some? && f.worst.value in values && AtLeastAll(f.worst.value, values)
              && f.last == Some(values[|values| - 1])
  {
    ExtremesAreExtreme(Values(samples));
  }

  predicate MeanOf(mean: real, total: real, n: nat) {
    mean * n as real == total
  }

  lemma QuotientIsMean(total: real, n: nat)
    requires n > 0
    ensures MeanOf(total / n as real, total, n)
  {
    Quotient(total, n as real);
  }

  /** Average and variance are means over the replies. */
  lemma BatchMeans(samples: seq<Sample>)
    ensures var f, values := FromSamples(samples), Values(samples);
            if values == [] then f.average.None? && f.variance.None?
            else
              && f.average.Some? && MeanOf(f.average.value, Sum(values), |values|)
              && f.variance.Some? && MeanOf(f.variance.value, Deviations(values, f.average.value), |values|)
  {
    var values := Values(samples);
    if values != [] {
      QuotientIsMean(Sum(values), |values|);
      QuotientIsMean(Deviations(values, Sum(values) / |values| as real), |values|);
    }
  }

  // ---------------------------------------------------------------------------------------
  // The streaming form
  // ---------------------------------------------------------------------------------------

  datatype Tally = Tally(
    sent: nat, received: nat, cancelled: nat, mean: real, m2: real,
    last: Option<real>, best: Option<real>, worst: Option<real>)

  const EMPTY := Tally(0, 0, 0, 0.0, 0.0, None, None, None)

  /** The mean and m2 after the n-th value x. */
  function Updated(mean: real, m2: real, n: nat, x: real): (real, real)
    requires n > 0
  {
    var delta := x - mean;
    var next := mean + delta / n as real;
    (next, m2 + Times(delta, x - next))
  }

  /** A name for products, so that equal factors visibly give equal products. */
  function Times(a: real, b: real): real {
    a * b
  }

  function Recorded(m: Tally, s: Sample): Tally {
    var t := m.(sent := m.sent + 1);
    if s.status == Cancelled then t.(cancelled := m.cancelled + 1)
    else if s.elapsed.None? then t
    else
      var value, received := s.elapsed.value, m.received + 1;
      var (mean, m2) := Updated(m.mean, m.m2, received, value);
      t.(received := received, mean := mean, m2 := m2, last := Some(value),
         best := Some(if m.best.Some? && m.best.value < value then m.best.value else value),
         worst := Some(if m.worst.Some? && m.worst.value > value then m.worst.value else value))
  }

  predicate Counted(m: Tally) {
    m.received + m.cancelled <= m.sent
  }

  /** What Moments::finish reports. */
  function Figures(m: Tally): Statistics
    requires Counted(m)
  {
    Statistics(
      m.sent, m.received, m.cancelled, Loss(m.sent - m.cancelled, m.received), m.last,
      if m.received > 0 then Some(m.mean) else None, m.best, m.worst,
      if m.received > 0 then Some((if m.m2 > 0.0 then m.m2 else 0.0) / m.received as real) else None)
  }

  class Moments {
    var sent: nat
    var received: nat
    var cancelled: nat
    var mean: real
    var m2: real
    var last: Option<real>
    var best: Option<real>
    var worst: Option<real>

    function View(): Tally
      reads this
    {
      Tally(sent, received, cancelled, mean, m2, last, best, worst)
    }

    constructor ()
      ensures View() == EMPTY
    {
      sent, received, cancelled, mean, m2, last, best, worst := 0, 0, 0, 0.0, 0.0, None, None, None;
    }

    /** The recurrence itself; `received` already counts the value. */
    method Welford(value: real) returns (nextMean: real, nextM2: real)
      requires received > 0
      ensures (nextMean, nextM2) == Updated(mean, m2, received, value)
    {
      var delta := value - mean;
      nextMean := mean + delta / received as real;
      nextM2 := m2 + delta * (value - nextMean);
      assert delta * (value - nextMean) == Times(delta, value - nextMean);
    }

    method Record(s: Sample)
      modifies this
      ensures View() == Recorded(old(View()), s)
    {
      sent := sent + 1;
      if s.status == Cancelled {
        cancelled := cancelled + 1;
      }
      if s.status != Cancelled && s.elapsed.Some? {
        var value := s.elapsed.value;
        received := received + 1;
        mean, m2 := Welford(value);
        last := Some(value);
        best := Some(if best.Some? && best.value < value then best.value else value);
        worst := Some(if worst.Some? && worst.value > value then worst.value else value);
      }
    }
  }

  // ---------------------------------------------------------------------------------------
  // Welford's recurrence computes the batch figures
  // ---------------------------------------------------------------------------------------

  function Squares(values: seq<real>): real {
    if values == [] then 0.0
    else Squares(values[..|values| - 1]) + Square(values[|values| - 1])
  }

  lemma SquareOfDifference(v: real, mean: real)
    ensures Square(v - mean) == Square(v) - 2.0 * (mean * v) + mean * mean
    ensures Square(v - mean) >= 0.0
  {
    var d := v - mean;
    assert Square(d) == d * d && Square(v) == v * v;
    assert d * d == d * v - d * mean;
    assert d * v == v * v - mean * v;
    assert d * mean == mean * v - mean * mean;
    assert d * d >= 0.0;
  }

  lemma ProductOfSum(mean: real, a: real, b: real)
    ensures mean * (a + b) == mean * a + mean * b
  {
  }

  lemma OneMore(n: nat, x: real)
    ensures (n + 1) as real * x == n as real * x + x
  {
  }

  /** `d` is the sum of squared deviations of n values with square sum `q` and sum `s`. */
  ghost predicate Expands(n: nat, q: real, s: real, mean: real, d: real) {
    d == q - 2.0 * (mean * s) + n as real * (mean * mean) && d >= 0.0
  }

  lemma ExpandNothing(mean: real)
    ensures Expands(0, 0.0, 0.0, mean, 0.0)
  {
  }

  lemma ExpandStep(n: nat, q: real, s: real, v: real, mean: real, d: real)
    requires Expands(n, q, s, mean, d)
    ensures Expands(n + 1, q + Square(v), s + v, mean, d + Square(v - mean))
  {
    SquareOfDifference(v, mean);
    ProductOfSum(mean, s, v);
    OneMore(n, mean * mean);
  }

  /** The two-pass sum of squared deviations in terms of the plain sums. */
  lemma {:induction false} DeviationsExpand(values: seq<real>, mean: real)
    ensures Expands(|values|, Squares(values), Sum(values), mean, Deviations(values, mean))
  {
    if values == [] {
      ExpandNothing(mean);
    } else {
      var init, v := values[..|values| - 1], values[|values| - 1];
      DeviationsExpand(init, mean);
      ExpandStep(|init|, Squares(init), Sum(init), v, mean, Deviations(init, mean));
    }
  }

  /** The streaming state after these values: its mean is their average, and its m2 the sum of the
      squares minus the mean times the sum. */
  ghost predicate Running(values: seq<real>, mean: real, m2: real) {
    RunningSums(|values|, Squares(values), Sum(values), mean, m2) && (values == [] ==> mean == 0.0)
  }

  ghost predicate RunningSums(n: nat, q: real, s: real, mean: real, m2: real) {
    n as real * mean == s && m2 == q - mean * s
  }

  lemma RunningDeviations(values: seq<real>, mean: real, m2: real)
    requires Running(values, mean, m2)
    ensures m2 == Deviations(values, mean) >= 0.0
  {
    DeviationsExpand(values, mean);
    DeviationsOfMean(|values|, Squares(values), Sum(values), mean, m2, Deviations(values, mean));
  }

  lemma RunningAverage(values: seq<real>, mean: real, m2: real)
    requires Running(values, mean, m2) && values != []
    ensures mean == Sum(values) / |values| as real
  {
    QuotientOf(|values| as real, mean, Sum(values));
  }

  /** Around the average itself the expansion collapses. */
  lemma DeviationsOfMean(n: nat, q: real, s: real, mean: real, m2: real, d: real)
    requires Expands(n, q, s, mean, d) && RunningSums(n, q, s, mean, m2)
    ensures m2 == d && d >= 0.0
  {
    assert n as real * (mean * mean) == (n as real * mean) * mean;
  }

  lemma QuotientOf(n: real, q: real, x: real)
    requires n > 0.0 && n * q == x
    ensures x / n == q
  {
  }

  /** One step of Welford's recurrence. */
  lemma WelfordStep(values: seq<real>, mean: real, m2: real, x: real)
    requires Running(values, mean, m2)
    ensures var (next, m2') := Updated(mean, m2, |values| + 1, x); Running(values + [x], next, m2')
  {
    var more := values + [x];
    assert more[..|values|] == values;
    var n := |more| as real;
    var step := (x - mean) / n;
    var next := mean + step;
    var s := Sum(values);
    assert n * step == x - mean;
    assert n * next == n * mean + n * step;
    assert n * mean == |values| as real * mean + mean;
    assert n * next == s + x;
    WelfordAlgebra(n, mean, next, s, x);
  }

  lemma WelfordAlgebra(n: real, mean: real, mean': real, s: real, x: real)
    requires n * mean - mean == s && n * mean' == s + x
    ensures (x - mean) * (x - mean') - mean * s == x * x - mean' * (s + x)
  {
    assert (x - mean) * (x - mean') == x * x - x * mean' - mean * x + mean * mean';
    assert mean' * (s + x) == mean' * s + mean' * x;
    assert mean' * s == n * (mean * mean') - mean * mean' by {
      assert mean' * s == mean' * (n * mean) - mean' * mean;
      assert mean' * (n * mean) == n * (mean * mean');
    }
    assert n * (mean * mean') == mean * (s + x) by {
      assert mean * (n * mean') == n * (mean * mean');
    }
    assert mean * (s + x) == mean * s + mean * x;
  }

  /** The streaming state after a list of samples. */
  function RecordAll(samples: seq<Sample>): Tally {
    if samples == [] then EMPTY else Recorded(RecordAll(samples[..|samples| - 1]), samples[|samples| - 1])
  }

  lemma RecordAllAppend(samples: seq<Sample>, s: Sample)
    ensures RecordAll(samples + [s]) == Recorded(RecordAll(samples), s)
  {
    assert (samples + [s])[..|samples|] == samples;
  }

  lemma {:induction false} StreamedMoments(samples: seq<Sample>)
    ensures var m, values := RecordAll(samples), Values(samples);
            m.received == |values| && Running(values, m.mean, m.m2)
  {
    if samples != [] {
      var init, s := samples[..|samples| - 1], samples[|samples| - 1];
      StreamedMoments(init);
      if s.status != Cancelled && s.elapsed.Some? {
        var m := RecordAll(init);
        WelfordStep(Values(init), m.mean, m.m2, s.elapsed.value);
      } else {
        assert Values(init) + [] == Values(init);
      }
    }
  }

  lemma {:induction false} StreamedCounts(samples: seq<Sample>)
    ensures var m, values := RecordAll(samples), Values(samples);
            && m.sent == |samples| && m.received == |values| && m.cancelled == CancelledCount(samples)
            && m.last == (if values == [] then None else Some(values[|values| - 1]))
            && m.best == Least(values) && m.worst == Greatest(values)
  {
    if samples != [] {
      StreamedCounts(samples[..|samples| - 1]);
      AppendExtremes(Values(samples[..|samples| - 1]), samples[|samples| - 1]);
    }
  }

  lemma AppendExtremes(values: seq<real>, s: Sample)
    ensures s.elapsed.Some? ==>
              var x, more := s.elapsed.value, values + [s.elapsed.value];
              && Least(more) == Some(if Least(values).Some? && Least(values).value < x then Least(values).value else x)
              && Greatest(more)
                 == Some(if Greatest(values).Some? && Greatest(values).value > x then Greatest(values).value else x)
              && more[|more| - 1] == x
    ensures values + [] == values
  {
    if s.elapsed.Some? {
      assert (values + [s.elapsed.value])[..|values|] == values;
    }
  }

  /** For every sample list the streaming recurrence gives the batch counts, loss, last, mean, minimum,
      maximum and variance. */
  lemma StreamingEqualsBatch(samples: seq<Sample>)
    ensures Counted(RecordAll(samples))
    ensures Figures(RecordAll(samples)) == FromSamples(samples)
  {
    StreamedCounts(samples);
    StreamedMoments(samples);
    RunningDeviations(Values(samples), RecordAll(samples).mean, RecordAll(samples).m2);
    if Values(samples) != [] {
      RunningAverage(Values(samples), RecordAll(samples).mean, RecordAll(samples).m2);
    }
  }

  // ---------------------------------------------------------------------------------------
  // One hop and its responders
  // ---------------------------------------------------------------------------------------

  const RETAINED := 64

  /** The samples that one address answered. */
  function ByHop(samples: seq<Sample>, address: nat): seq<Sample> {
    if samples == [] then []
    else
      var s := samples[|samples| - 1];
      ByHop(samples[..|samples| - 1], address) + if s.hop == Some(address) then [s] else []
  }

  lemma ByHopAppend(samples: seq<Sample>, s: Sample, address: nat)
    ensures ByHop(samples + [s], address) == ByHop(samples, address) + if s.hop == Some(address) then [s] else []
  {
    assert (samples + [s])[..|samples|] == samples;
  }

  ghost predicate HopsKept(responders: map<nat, Tally>, samples: seq<Sample>) {
    forall k :: 0 <= k < |samples| && samples[k].hop.Some? ==> samples[k].hop.value in responders
  }

  ghost predicate StacksKept(stacks: seq<seq<nat>>, samples: seq<Sample>) {
    forall k :: 0 <= k < |samples| && samples[k].mpls != [] ==> samples[k].mpls in stacks
  }

  lemma {:induction false} NoSamples(samples: seq<Sample>, address: nat)
    requires forall k :: 0 <= k < |samples| ==> samples[k].hop != Some(address)
    ensures ByHop(samples, address) == []
  {
    if samples != [] {
      assert samples[|samples| - 1].hop != Some(address);
      NoSamples(samples[..|samples| - 1], address);
    }
  }

  /** Each retained responder summarises exactly its own samples, although the table is bounded: an
      address can only be turned away once the table is full, and the table never shrinks. */
  ghost predicate RespondersOk(responders: map<nat, Tally>, samples: seq<Sample>) {
    && |responders| <= 64
    && (forall a :: a in responders ==> responders[a] == RecordAll(ByHop(samples, a)))
    && (|responders| < 64 ==> HopsKept(responders, samples))
  }

  /** The retained stacks are distinct stacks of the samples. */
  ghost predicate StacksOk(stacks: seq<seq<nat>>, samples: seq<Sample>) {
    && |stacks| <= 64
    && (forall i, j :: 0 <= i < j < |stacks| ==> stacks[i] != stacks[j])
    && (forall i :: 0 <= i < |stacks| ==> stacks[i] != [] && exists s :: s in samples && s.mpls == stacks[i])
    && (|stacks| < 64 ==> StacksKept(stacks, samples))
  }

  function Responders(responders: map<nat, Tally>, s: Sample): map<nat, Tally> {
    if s.hop.Some? && (|responders| < RETAINED || s.hop.value in responders)
    then responders[s.hop.value := Recorded(if s.hop.value in responders then responders[s.hop.value] else EMPTY, s)]
    else responders
  }

  function Stacks(stacks: seq<seq<nat>>, s: Sample): seq<seq<nat>> {
    if s.mpls != [] && s.mpls !in stacks && |stacks| < RETAINED then stacks + [s.mpls] else stacks
  }

  lemma RespondersStep(responders: map<nat, Tally>, samples: seq<Sample>, s: Sample)
    requires RespondersOk(responders, samples)
    ensures RespondersOk(Responders(responders, s), samples + [s])
    ensures HopsKept(Responders(responders, s), samples + [s]) <==>
            HopsKept(responders, samples) && (s.hop.Some? ==> s.hop.value in Responders(responders, s))
  {
    var after, more := Responders(responders, s), samples + [s];
    assert forall k :: 0 <= k < |samples| ==> more[k] == samples[k];
    assert more[|samples|] == s;
    RespondersSize(responders, s);
    forall a | a in after ensures after[a] == RecordAll(ByHop(more, a)) {
      ByHopAppend(samples, s, a);
      if a !in responders {
        NoSamples(samples, a);
      }
      if s.hop == Some(a) {
        RecordAllAppend(ByHop(samples, a), s);
      } else {
        assert ByHop(samples, a) + [] == ByHop(samples, a);
      }
    }
  }

  lemma RespondersSize(responders: map<nat, Tally>, s: Sample)
    requires |responders| <= RETAINED
    ensures var after := Responders(responders, s);
            && responders.Keys <= after.Keys
            && |responders| <= |after| <= RETAINED
            && (|| after.Keys == responders.Keys
                || (s.hop.Some? && after.Keys == responders.Keys + {s.hop.value} && |responders| < RETAINED))
  {
    var after := Responders(responders, s);
    assert |after.Keys| == |after| && |responders.Keys| == |responders|;
    if s.hop.Some? && s.hop.value in after {
      assert after.Keys == responders.Keys + {s.hop.value};
    }
  }

  lemma StacksStep(stacks: seq<seq<nat>>, samples: seq<Sample>, s: Sample)
    requires StacksOk(stacks, samples)
    ensures StacksOk(Stacks(stacks, s), samples + [s])
    ensures StacksKept(Stacks(stacks, s), samples + [s]) <==>
            StacksKept(stacks, samples) && (s.mpls != [] ==> s.mpls in Stacks(stacks, s))
  {
    var after, more := Stacks(stacks, s), samples + [s];
    assert forall k :: 0 <= k < |samples| ==> more[k] == samples[k];
    assert more[|samples|] == s;
    assert forall t :: t in samples ==> t in more;
    assert s in more;
  }

  datatype Responder = Responder(address: nat, statistics: Statistics)

  datatype Hop = Hop(address: Option<nat>, stacks: seq<seq<nat>>, responders: seq<Responder>, statistics: Statistics)

  class HopAccumulator {
    const totals: Moments
    var responders: map<nat, Tally>
    var stacks: seq<seq<nat>>
    var limited: bool
    ghost var samples: seq<Sample>

    ghost predicate Valid()
      reads this, totals
    {
      && totals.View() == RecordAll(samples)
      && RespondersOk(responders, samples)
      && StacksOk(stacks, samples)
      && (limited <==> !(HopsKept(responders, samples) && StacksKept(stacks, samples)))
    }

    constructor ()
      ensures Valid() && samples == [] && fresh(totals)
    {
      totals := new Moments();
      responders, stacks, limited, samples := map[], [], false, [];
    }

    method Retain(s: Sample)
      requires |responders| <= RETAINED && |stacks| <= RETAINED
      modifies `responders, `stacks, `limited
      ensures responders == Responders(old(responders), s) && stacks == Stacks(old(stacks), s)
      ensures limited <==>
                || old(limited)
                || (s.hop.Some? && s.hop.value !in responders)
                || (s.mpls != [] && s.mpls !in stacks)
    {
      if s.hop.Some? {
        var address := s.hop.value;
        if |responders| < RETAINED || address in responders {
          var before := if address in responders then responders[address] else EMPTY;
          responders := responders[address := Recorded(before, s)];
        } else {
          limited := true;
        }
      }
      if s.mpls != [] && s.mpls !in stacks {
        if |stacks| < RETAINED {
          stacks := stacks + [s.mpls];
        } else {
          limited := true;
        }
      }
    }

    method Record(s: Sample)
      requires Valid()
      modifies this, totals
      ensures Valid() && samples == old(samples) + [s]
      ensures responders == Responders(old(responders), s) && stacks == Stacks(old(stacks), s)
    {
      RecordAllAppend(samples, s);
      RespondersStep(responders, samples, s);
      StacksStep(stacks, samples, s);
      totals.Record(s);
      Retain(s);
      samples := samples + [s];
    }

    /** The reported hop: batch statistics of all samples, batch statistics of each retained responder's
        samples in address order, and the responder with the most samples, lowest address on ties. */
    method Finish() returns (hop: Option<Hop>)
      requires Valid()
      ensures hop.None? <==> samples == []
      ensures hop.Some? ==>
                && hop.value.statistics == FromSamples(samples)
                && hop.value.stacks == stacks
                && (hop.value.address.None? <==> responders == map[])
                && (hop.value.address.Some? ==> Dominates(responders, hop.value.address.value))
                && Reports(hop.value.responders, responders, samples)
    {
      StreamingEqualsBatch(samples);
      StreamedCounts(samples);
      if totals.sent == 0 {
        return None;
      }
      var best := Dominant(responders);
      var reported := ReportResponders(responders, samples);
      hop := Some(Hop(best, stacks, reported, Figures(totals.View())));
    }
  }

  /** The fold over the responders in address order that keeps the first maximum. */
  method Dominant(responders: map<nat, Tally>) returns (best: Option<nat>)
    ensures best.None? <==> responders == map[]
    ensures best.Some? ==> Dominates(responders, best.value)
  {
    var keys := Ascending(responders.Keys);
    forall i | 0 <= i < |keys| ensures keys[i] in responders {
      assert keys[i] in keys;
    }
    best := None;
    ghost var at := 0;
    for i := 0 to |keys|
      invariant best.None? <==> i == 0
      invariant best.Some? ==> at < i && best.value == keys[at]
      invariant best.Some? ==> forall j :: 0 <= j < i ==> Beats(responders, best.value, keys[j])
    {
      if best.None? || responders[keys[i]].sent > responders[best.value].sent {
        best, at := Some(keys[i]), i;
      }
    }
    BeatsEveryKey(responders, keys, best);
  }

  lemma BeatsEveryKey(responders: map<nat, Tally>, keys: seq<nat>, best: Option<nat>)
    requires forall a :: a in keys <==> a in responders
    requires best.None? <==> keys == []
    requires best.Some? ==> best.value in responders
    requires best.Some? ==> forall j :: 0 <= j < |keys| ==> Beats(responders, best.value, keys[j])
    ensures best.None? <==> responders == map[]
    ensures best.Some? ==> Dominates(responders, best.value)
  {
    if best.Some? {
      forall b | b in responders ensures Beats(responders, best.value, b) {
        var j :| 0 <= j < |keys| && keys[j] == b;
      }
    } else {
      assert forall a :: a in responders ==> a in keys;
    }
  }

  /** A retained responder's streaming figures are the batch figures of its samples. */
  lemma ResponderFigures(responders: map<nat, Tally>, samples: seq<Sample>, address: nat)
    requires RespondersOk(responders, samples) && address in responders
    ensures Counted(responders[address])
    ensures Figures(responders[address]) == FromSamples(ByHop(samples, address))
  {
    StreamingEqualsBatch(ByHop(samples, address));
  }

  lemma ReportsEveryKey(reported: seq<Responder>, keys: seq<nat>, responders: map<nat, Tally>)
    requires forall a :: a in keys <==> a in responders
    requires |reported| == |keys| && forall i :: 0 <= i < |keys| ==> reported[i].address == keys[i]
    ensures forall a :: a in responders <==> exists i :: 0 <= i < |reported| && reported[i].address == a
  {
    forall a ensures a in responders <==> exists i :: 0 <= i < |reported| && reported[i].address == a {
      if a in responders {
        var i :| 0 <= i < |keys| && keys[i] == a;
        assert reported[i].address == a;
      } else {
        assert a !in keys;
      }
    }
  }

  /** The responders mapped to their figures, in the order of the keys. */
  function Mapped(responders: map<nat, Tally>, keys: seq<nat>): (reported: seq<Responder>)
    requires forall i :: 0 <= i < |keys| ==> keys[i] in responders && Counted(responders[keys[i]])
    ensures |reported| == |keys|
    ensures forall i :: 0 <= i < |keys| ==> reported[i] == Responder(keys[i], Figures(responders[keys[i]]))
  {
    seq(|keys|, i requires 0 <= i < |keys| => Responder(keys[i], Figures(responders[keys[i]])))
  }

  method ReportResponders(responders: map<nat, Tally>, ghost samples: seq<Sample>) returns (reported: seq<Responder>)
    requires RespondersOk(responders, samples)
    ensures Reports(reported, responders, samples)
  {
    var keys := Ascending(responders.Keys);
    forall i | 0 <= i < |keys| ensures keys[i] in responders && Counted(responders[keys[i]]) {
      assert keys[i] in keys;
      ResponderFigures(responders, samples, keys[i]);
    }
    reported := Mapped(responders, keys);
    forall i | 0 <= i < |reported|
      ensures reported[i].statistics == FromSamples(ByHop(samples, reported[i].address))
    {
      ResponderFigures(responders, samples, keys[i]);
    }
    ReportsEveryKey(reported, keys, responders);
  }

  ghost predicate Beats(responders: map<nat, Tally>, a: nat, b: nat) {
    && a in responders && b in responders
    && (responders[b].sent < responders[a].sent || (responders[b].sent == responders[a].sent && a <= b))
  }

  ghost predicate Dominates(responders: map<nat, Tally>, address: nat) {
    address in responders && forall b :: b in responders ==> Beats(responders, address, b)
  }

  /** One entry per retained address, in ascending order, with the batch figures of its samples. */
  ghost predicate Reports(reported: seq<Responder>, responders: map<nat, Tally>, samples: seq<Sample>) {
    && (forall i, j :: 0 <= i < j < |reported| ==> reported[i].address < reported[j].address)
    && (forall a :: a in responders <==> exists i :: 0 <= i < |reported| && reported[i].address == a)
    && (forall i :: 0 <= i < |reported| ==> reported[i].statistics == FromSamples(ByHop(samples, reported[i].address)))
  }

  predicate IsLeast(m: nat, s: set<nat>) {
    m in s && forall x :: x in s ==> m <= x
  }

  lemma {:induction false} HasLeast(s: set<nat>) returns (m: nat)
    requires s != {}
    ensures IsLeast(m, s)
  {
    var y :| y in s;
    if s == {y} {
      m := y;
    } else {
      var below := HasLeast(s - {y});
      m := Min(below, y);
      assert s == (s - {y}) + {y};
    }
  }

  /** The keys of a BTreeMap, in iteration order. */
  function Ascending(s: set<nat>): (keys: seq<nat>)
    ensures forall x :: x in keys <==> x in s
    ensures forall i, j :: 0 <= i < j < |keys| ==> keys[i] < keys[j]
  {
    if s == {} then []
    else
      assert exists m :: IsLeast(m, s) by { var m := HasLeast(s); }
      var m :| m in s && IsLeast(m, s);
      [m] + Ascending(s - {m})
  }
}
