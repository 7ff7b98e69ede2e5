/** UDP loss and jitter accounting: DatagramStats and the bookkeeping of udp_receive in
    crates/throughput/src/protocol/data.rs. */
module UdpReceive {
  import opened Common

  const REORDER_WINDOW := 65536

  datatype Error = SequenceZero | ReorderingExceedsWindow | InvalidTimestamp

  // ---------------------------------------------------------------------------------------
  // The reference: an unbounded set of sequence numbers
  // ---------------------------------------------------------------------------------------

  /** A loss record that simply remembers every sequence number above its baseline. */
  datatype Record = Record(baseline: nat, highest: nat, seen: set<nat>, bytes: nat, prior: Option<real>, jitter: real)

  function Abs(x: real): real {
    if x < 0.0 then -x else x
  }

  function Empty(baseline: nat): Record {
    Record(baseline, baseline, {}, 0, None, 0.0)
  }

  function Restarted(all: Record): Record {
    Empty(all.highest).(prior := all.prior)
  }

  /** The interarrival jitter estimator of section 6.4.1 of RFC 3550. */
  function NextJitter(r: Record, transit: real): real {
    if r.prior.None? then r.jitter else r.jitter + (Abs(transit - r.prior.value) - r.jitter) / 16.0
  }

  function Accept(r: Record, sequence: nat, bytes: nat, transit: real): Record {
    Record(r.baseline, Max(r.highest, sequence), r.seen + {sequence},
           SaturatingAdd(r.bytes, bytes), Some(transit), NextJitter(r, transit))
  }

  function Observed(r: Record, sequence: nat, bytes: nat, transit: real): Result<Record, Error> {
    if sequence == 0 then Err(SequenceZero)
    else if sequence <= r.baseline then Ok(r)
    else if r.highest - sequence >= REORDER_WINDOW then Err(ReorderingExceedsWindow)
    else if sequence in r.seen then Ok(r)
    else Ok(Accept(r, sequence, bytes, transit))
  }

  ghost predicate Consistent(r: Record) {
    && (forall q :: q in r.seen ==> r.baseline < q <= r.highest)
    && (r.highest == r.baseline || r.highest in r.seen)
  }

  ghost function Interval(low: nat, high: nat): (numbers: set<nat>)
    ensures forall q :: q in numbers <==> low < q <= high
    ensures |numbers| == Max(high - low, 0)
  {
    if high <= low then {} else Interval(low, high - 1) + {high}
  }

  /** The sequence numbers a sender must have used and that never arrived. */
  ghost function Missing(r: Record): set<nat> {
    Interval(r.baseline, r.highest) - r.seen
  }

  lemma MissingSize(r: Record)
    requires Consistent(r)
    ensures |Missing(r)| == r.highest - r.baseline - |r.seen|
  {
    assert Interval(r.baseline, r.highest) == Missing(r) + r.seen;
  }

  // ---------------------------------------------------------------------------------------
  // The implementation: a ring of 65536 slots
  // ---------------------------------------------------------------------------------------

  function Slot(sequence: nat): (slot: nat)
    ensures slot < REORDER_WINDOW
  {
    sequence % REORDER_WINDOW
  }

  lemma SameSlot(a: nat, b: nat)
    requires b <= a < b + REORDER_WINDOW && Slot(a) == Slot(b)
    ensures a == b
  {
  }

  /** The slot's value is the newest accepted number that belongs there, or zero. */
  ghost predicate Newest(value: nat, slot: nat, accepted: set<nat>) {
    && (value != 0 ==> value in accepted && Slot(value) == slot)
    && (forall q :: q in accepted && Slot(q) == slot ==> q <= value)
  }

  ghost predicate RingOf(ring: seq<nat>, accepted: set<nat>) {
    && |ring| == REORDER_WINDOW
    && (forall slot {:trigger Newest(ring[slot], slot, accepted)} :: 0 <= slot < REORDER_WINDOW ==>
          Newest(ring[slot], slot, accepted))
  }

  /** Inside the window, the ring answers "seen before?" exactly as the unbounded set does, and a
      slot to be overwritten never holds a newer number. */
  lemma RingAgrees(ring: seq<nat>, r: Record, sequence: nat)
    requires RingOf(ring, r.seen) && Consistent(r)
    requires r.baseline < sequence && r.highest - sequence < REORDER_WINDOW
    ensures ring[Slot(sequence)] == sequence <==> sequence in r.seen
    ensures ring[Slot(sequence)] <= sequence
  {
    var slot := Slot(sequence);
    assert Newest(ring[slot], slot, r.seen);
    if ring[slot] >= sequence {
      SameSlot(ring[slot], sequence);
    }
  }

  lemma RingInsert(ring: seq<nat>, accepted: set<nat>, sequence: nat)
    requires RingOf(ring, accepted) && ring[Slot(sequence)] <= sequence
    ensures RingOf(ring[Slot(sequence) := sequence], accepted + {sequence})
  {
    var updated := ring[Slot(sequence) := sequence];
    forall slot | 0 <= slot < REORDER_WINDOW ensures Newest(updated[slot], slot, accepted + {sequence}) {
      assert Newest(ring[slot], slot, accepted);
    }
  }

  /** What the fields of a DatagramStats must satisfy to stand for the record `r`. */
  ghost predicate Represents(ring: seq<nat>, unique: nat, r: Record) {
    RingOf(ring, r.seen) && Consistent(r) && unique == |r.seen|
  }

  lemma AcceptRepresents(ring: seq<nat>, unique: nat, r: Record, sequence: nat, bytes: nat, transit: real)
    requires Represents(ring, unique, r)
    requires r.baseline < sequence && r.highest - sequence < REORDER_WINDOW && sequence !in r.seen
    ensures Represents(ring[Slot(sequence) := sequence], unique + 1, Accept(r, sequence, bytes, transit))
  {
    RingAgrees(ring, r, sequence);
    RingInsert(ring, r.seen, sequence);
  }

  class DatagramStats {
    const baseline: nat
    var highest: nat
    var unique: nat
    const seen: array<nat>
    var bytes: nat
    var prior: Option<real>
    var jitter: real
    /** Every sequence number ever accepted; the ring only keeps the newest of each slot. */
    ghost var accepted: set<nat>

    ghost function View(): Record
      reads this
    {
      Record(baseline, highest, accepted, bytes, prior, jitter)
    }

    ghost predicate Valid()
      reads this, seen
    {
      Represents(seen[..], unique, View())
    }

    constructor (baseline: nat)
      ensures Valid() && fresh(this) && fresh(seen)
      ensures View() == Empty(baseline)
    {
      this.baseline := baseline;
      highest := baseline;
      unique := 0;
      seen := new nat[REORDER_WINDOW](_ => 0);
      bytes, prior, jitter, accepted := 0, None, 0.0, {};
    }

    constructor AfterOmission(all: DatagramStats)
      requires all.Valid()
      ensures Valid() && fresh(this) && fresh(seen)
      ensures View() == Restarted(all.View())
    {
      baseline := all.highest;
      highest := all.highest;
      unique := 0;
      seen := new nat[REORDER_WINDOW](_ => 0);
      bytes, prior, jitter, accepted := 0, all.prior, 0.0, {};
    }

    method Observe(sequence: nat, size: nat, arrival: real, sent: real) returns (r: Result<(), Error>)
      requires Valid()
      modifies this, seen
      ensures Valid()
      ensures match Observed(old(View()), sequence, size, arrival - sent)
              case Ok(next) => r == Ok(()) && View() == next
              case Err(error) => r == Err(error) && View() == old(View())
    {
      if sequence == 0 {
        return Err(SequenceZero);
      }
      if sequence <= baseline {
        return Ok(());
      }
      if highest - sequence >= REORDER_WINDOW {
        return Err(ReorderingExceedsWindow);
      }
      RingAgrees(seen[..], View(), sequence);
      if seen[Slot(sequence)] == sequence {
        return Ok(());
      }
      Store(sequence, size, arrival - sent);
      return Ok(());
    }

    method Store(sequence: nat, size: nat, transit: real)
      requires Valid()
      requires baseline < sequence && highest - sequence < REORDER_WINDOW && sequence !in accepted
      modifies this, seen
      ensures Valid() && View() == Accept(old(View()), sequence, size, transit)
    {
      AcceptRepresents(seen[..], unique, View(), sequence, size, transit);
      seen[Slot(sequence)] := sequence;
      assert seen[..] == old(seen[..])[Slot(sequence) := sequence];
      accepted := accepted + {sequence};
      highest := Max(highest, sequence);
      unique := unique + 1;
      bytes := SaturatingAdd(bytes, size);
      if prior.Some? {
        jitter := jitter + (Abs(transit - prior.value) - jitter) / 16.0;
      }
      prior := Some(transit);
      assert View() == Accept(old(View()), sequence, size, transit);
    }

    method Expected() returns (n: nat)
      requires Valid()
      ensures n == |Interval(baseline, highest)|
    {
      n := highest - baseline;
    }

    /** The subtraction that the source saturates never does. */
    method Lost() returns (n: nat)
      requires Valid()
      ensures n == |Missing(View())| && n == highest - baseline - unique
    {
      MissingSize(View());
      n := Max(highest - baseline - unique, 0);
    }
  }

  // ---------------------------------------------------------------------------------------
  // Any sequence of datagrams
  // ---------------------------------------------------------------------------------------

  /** One received datagram: its size, header fields, arrival time and the instant of the check
      against the end of the omitted warm-up. */
  datatype Datagram = Datagram(size: nat, seconds: nat, micros: nat, sequence: u64, arrival: real, now: int) {
    function Sent(): real {
      seconds as real + micros as real / 1000000.0
    }

    function Transit(): real {
      arrival - Sent()
    }
  }

  /** The record of the whole run, and the record of the part after the warm-up. */
  datatype Records = Records(all: Record, measured: Option<Record>)

  function Receive(b: Records, d: Datagram, omitEnd: int): Result<Records, Error> {
    if d.size < 16 then Ok(b)
    else if d.micros >= 1_000_000 then Err(InvalidTimestamp)
    else if d.now >= omitEnd then
      match Measured(b, d)
      case Err(e) => Err(e)
      case Ok(m) => ReceiveAnyway(b.all, Some(m), d)
    else ReceiveAnyway(b.all, b.measured, d)
  }

  /** The measured record, started from the whole-run one if need be, with one more datagram. */
  function Measured(b: Records, d: Datagram): Result<Record, Error> {
    Observed(if b.measured.Some? then b.measured.value else Restarted(b.all), d.sequence, d.size, d.Transit())
  }

  function ReceiveAnyway(all: Record, measured: Option<Record>, d: Datagram): Result<Records, Error> {
    match Observed(all, d.sequence, d.size, d.Transit())
    case Err(e) => Err(e)
    case Ok(a) => Ok(Records(a, measured))
  }

  function ReceiveAll(ds: seq<Datagram>, omitEnd: int): Result<Records, Error> {
    if ds == [] then Ok(Records(Empty(0), None))
    else
      match ReceiveAll(ds[..|ds| - 1], omitEnd)
      case Err(e) => Err(e)
      case Ok(b) => Receive(b, ds[|ds| - 1], omitEnd)
  }

  /** The figures udp_receive reports. */
  datatype Outcome = Outcome(bytes: nat, packets: nat, errors: nat, jitter: real, wirePackets: nat, wireErrors: nat)

  ghost function Report(b: Records): Outcome {
    var m := if b.measured.Some? then b.measured.value else Empty(b.all.highest);
    Outcome(m.bytes, |Interval(m.baseline, m.highest)|, |Missing(m)|, m.jitter, b.all.highest, |Missing(b.all)|)
  }

  lemma FailureIsFinal(ds: seq<Datagram>, omitEnd: int, n: nat)
    requires n <= |ds| && ReceiveAll(ds[..n], omitEnd).Err?
    ensures ReceiveAll(ds, omitEnd) == ReceiveAll(ds[..n], omitEnd)
    decreases |ds| - n
  {
    if n == |ds| {
      assert ds[..n] == ds;
    } else {
      assert ds[..n + 1][..n] == ds[..n];
      FailureIsFinal(ds, omitEnd, n + 1);
    }
  }

  ghost predicate Apart(all: DatagramStats, measured: DatagramStats?) {
    measured != null ==> measured != all && measured.seen != all.seen
  }

  ghost function View(all: DatagramStats, measured: DatagramStats?): Records
    reads all, measured
  {
    Records(all.View(), if measured == null then None else Some(measured.View()))
  }

  /** The measured record, started from the whole-run one at the first datagram past the warm-up. */
  method Measure(all: DatagramStats, measured: DatagramStats?, d: Datagram)
    returns (r: Result<(), Error>, later: DatagramStats)
    requires all.Valid() && Apart(all, measured) && (measured != null ==> measured.Valid())
    modifies measured, if measured == null then {} else {measured.seen}
    ensures Apart(all, later) && later.Valid()
    ensures later == measured || (measured == null && fresh(later) && fresh(later.seen))
    ensures match Measured(old(View(all, measured)), d)
            case Ok(next) => r == Ok(()) && later.View() == next
            case Err(error) => r == Err(error)
  {
    if measured == null {
      later := new DatagramStats.AfterOmission(all);
    } else {
      later := measured;
    }
    r := later.Observe(d.sequence, d.size, d.arrival, d.Sent());
  }

  /** One datagram, over the two rings. */
  method Handle(all: DatagramStats, measured: DatagramStats?, d: Datagram, omitEnd: int)
    returns (r: Result<(), Error>, later: DatagramStats?)
    requires all.Valid() && Apart(all, measured) && (measured != null ==> measured.Valid())
    modifies all, all.seen, measured, if measured == null then {} else {measured.seen}
    ensures all.Valid() && Apart(all, later) && (later != null ==> later.Valid())
    ensures later == measured || (measured == null && fresh(later) && fresh(later.seen))
    ensures match Receive(old(View(all, measured)), d, omitEnd)
            case Ok(next) => r == Ok(()) && View(all, later) == next
            case Err(error) => r == Err(error)
  {
    later := measured;
    r := Ok(());
    if d.size < 16 {
      return;
    }
    if d.micros >= 1_000_000 {
      r := Err(InvalidTimestamp);
      return;
    }
    if d.now >= omitEnd {
      r, later := Measure(all, measured, d);
      if r.Err? {
        return;
      }
    }
    r := Count(all, later, d);
  }

  /** The whole-run record observes the datagram; the measured one, a different object, stays. */
  method Count(all: DatagramStats, measured: DatagramStats?, d: Datagram) returns (r: Result<(), Error>)
    requires all.Valid() && Apart(all, measured) && (measured != null ==> measured.Valid())
    modifies all, all.seen
    ensures all.Valid() && (measured != null ==> measured.Valid())
    ensures match ReceiveAnyway(old(all.View()), old(View(all, measured)).measured, d)
            case Ok(next) => r == Ok(()) && View(all, measured) == next
            case Err(error) => r == Err(error)
  {
    r := all.Observe(d.sequence, d.size, d.arrival, d.Sent());
  }

  /** The figures after the last datagram; without a measured one they are those of an empty record. */
  method Conclude(all: DatagramStats, measured: DatagramStats?) returns (o: Outcome)
    requires all.Valid() && (measured != null ==> measured.Valid())
    ensures o == Report(View(all, measured))
  {
    var last := measured;
    if last == null {
      last := new DatagramStats(all.highest);
    }
    var packets := last.Expected();
    var errors := last.Lost();
    var wireErrors := all.Lost();
    o := Outcome(last.bytes, packets, errors, last.jitter, all.highest, wireErrors);
  }

  /** The receive loop over the rings reports what the reference reports, errors included. */
  method UdpReceiveLoop(ds: seq<Datagram>, omitEnd: int) returns (r: Result<Outcome, Error>)
    ensures match ReceiveAll(ds, omitEnd)
            case Ok(b) => r == Ok(Report(b))
            case Err(e) => r == Err(e)
  {
    var all := new DatagramStats(0);
    var measured: DatagramStats? := null;
    var i := 0;
    while i < |ds|
      invariant i <= |ds|
      invariant all.Valid() && fresh(all) && fresh(all.seen) && Apart(all, measured)
      invariant measured != null ==> measured.Valid() && fresh(measured) && fresh(measured.seen)
      invariant ReceiveAll(ds[..i], omitEnd) == Ok(View(all, measured))
    {
      assert ds[..i + 1][..i] == ds[..i];
      var handled: Result<(), Error>;
      handled, measured := Handle(all, measured, ds[i], omitEnd);
      if handled.Err? {
        FailureIsFinal(ds, omitEnd, i + 1);
        return Err(handled.error);
      }
      i := i + 1;
    }
    assert ds[..i] == ds;
    var outcome := Conclude(all, measured);
    r := Ok(outcome);
  }

  // ---------------------------------------------------------------------------------------
  // What the figures mean
  // ---------------------------------------------------------------------------------------

  /** The instants of a run never go back. */
  ghost predicate NonDecreasing(ds: seq<Datagram>) {
    forall i, j :: 0 <= i <= j < |ds| ==> ds[i].now <= ds[j].now
  }

  /** Every sequence number received in a datagram long enough to carry one. */
  ghost function Received(ds: seq<Datagram>): set<nat> {
    set d | d in ds && d.size >= 16 :: d.sequence
  }

  ghost predicate Largest(m: nat, numbers: set<nat>) {
    (m == 0 || m in numbers) && forall q :: q in numbers ==> q <= m
  }

  lemma ReceivedAppend(ds: seq<Datagram>, d: Datagram)
    ensures Received(ds + [d]) == Received(ds) + if d.size >= 16 then {d.sequence} else {}
  {
  }

  /** The record `r` has seen exactly `numbers`. */
  ghost predicate Counts(r: Record, numbers: set<nat>) {
    Consistent(r) && r.baseline == 0 && r.seen == numbers && Largest(r.highest, numbers)
  }

  lemma ObservedCounts(r: Record, numbers: set<nat>, d: Datagram)
    requires Counts(r, numbers) && Observed(r, d.sequence, d.size, d.Transit()).Ok?
    ensures Counts(Observed(r, d.sequence, d.size, d.Transit()).value, numbers + {d.sequence})
  {
    if d.sequence in numbers {
      assert numbers + {d.sequence} == numbers;
    }
  }

  lemma ReceiveObserves(b: Records, d: Datagram, omitEnd: int)
    requires Receive(b, d, omitEnd).Ok?
    ensures var next := Receive(b, d, omitEnd).value;
            if d.size < 16 then next == b
            else Observed(b.all, d.sequence, d.size, d.Transit()) == Ok(next.all)
    ensures var next := Receive(b, d, omitEnd).value;
            next.measured == b.measured
            || (&& next.measured.Some?
                && Measured(b, d) == Ok(next.measured.value))
  {
  }

  lemma {:induction false} SeesWhatArrives(ds: seq<Datagram>, omitEnd: int)
    requires ReceiveAll(ds, omitEnd).Ok?
    ensures Counts(ReceiveAll(ds, omitEnd).value.all, Received(ds))
  {
    if ds != [] {
      var init, d := ds[..|ds| - 1], ds[|ds| - 1];
      SeesWhatArrives(init, omitEnd);
      assert ds == init + [d];
      ReceivedAppend(init, d);
      var b := ReceiveAll(init, omitEnd).value;
      ReceiveObserves(b, d, omitEnd);
      if d.size >= 16 {
        ObservedCounts(b.all, Received(init), d);
      }
    }
  }

  /** Whole-run accounting: an error-free run has seen exactly the received numbers, the highest is
      their maximum, and the reported loss is the count of smaller numbers never received. */
  lemma WholeRunCounts(ds: seq<Datagram>, omitEnd: int)
    requires ReceiveAll(ds, omitEnd).Ok?
    ensures var b := ReceiveAll(ds, omitEnd).value;
            && b.all.seen == Received(ds)
            && Largest(b.all.highest, Received(ds))
            && Report(b).wireErrors == |Interval(0, b.all.highest) - Received(ds)|
            && Report(b).wireErrors == Report(b).wirePackets - |Received(ds)|
  {
    SeesWhatArrives(ds, omitEnd);
    MissingSize(ReceiveAll(ds, omitEnd).value.all);
  }

  /** Once the warm-up is over both records move together. */
  ghost predicate Together(b: Records) {
    && Consistent(b.all) && b.all.baseline == 0
    && (b.measured.Some? ==>
          var m := b.measured.value;
          && Consistent(m)
          && m.highest == b.all.highest
          && m.seen == set q | q in b.all.seen && m.baseline < q)
  }

  lemma ReceiveTogether(b: Records, d: Datagram, omitEnd: int)
    requires Together(b) && Receive(b, d, omitEnd).Ok?
    requires b.measured.Some? ==> omitEnd <= d.now
    ensures Together(Receive(b, d, omitEnd).value)
  {
  }

  /** After the warm-up the measured record has the same highest number as the whole run, and it has
      seen exactly the whole run's numbers above its own baseline. */
  lemma {:induction false} MeasuredIsTheTail(ds: seq<Datagram>, omitEnd: int)
    requires NonDecreasing(ds) && ReceiveAll(ds, omitEnd).Ok?
    ensures Together(ReceiveAll(ds, omitEnd).value)
    ensures ReceiveAll(ds, omitEnd).value.measured.Some? ==> ds != [] && omitEnd <= ds[|ds| - 1].now
  {
    if ds != [] {
      var init := ds[..|ds| - 1];
      MeasuredIsTheTail(init, omitEnd);
      ReceiveTogether(ReceiveAll(init, omitEnd).value, ds[|ds| - 1], omitEnd);
    }
  }

  /** The order of the reported counters: losses never exceed packets, and the measured figures
      never exceed the whole-run ones. */
  lemma FiguresAreOrdered(ds: seq<Datagram>, omitEnd: int)
    requires NonDecreasing(ds) && ReceiveAll(ds, omitEnd).Ok?
    ensures var o := Report(ReceiveAll(ds, omitEnd).value);
            && o.errors <= o.packets <= o.wirePackets
            && o.errors <= o.wireErrors <= o.wirePackets
  {
    MeasuredIsTheTail(ds, omitEnd);
    var b := ReceiveAll(ds, omitEnd).value;
    var m := if b.measured.Some? then b.measured.value else Empty(b.all.highest);
    MissingSize(m);
    MissingSize(b.all);
    assert Missing(m) <= Missing(b.all);
    SubsetSize(Missing(m), Missing(b.all));
  }

  lemma {:induction false} SubsetSize(a: set<nat>, b: set<nat>)
    requires a <= b
    ensures |a| <= |b|
  {
    assert b == a + (b - a);
  }

  // ---------------------------------------------------------------------------------------
  // Which counters a receiver can report
  // ---------------------------------------------------------------------------------------

  lemma {:induction false} RecordsAreConsistent(ds: seq<Datagram>, omitEnd: int)
    requires ReceiveAll(ds, omitEnd).Ok?
    ensures var b := ReceiveAll(ds, omitEnd).value;
            Real(b.all) && (b.measured.Some? ==> Real(b.measured.value))
  {
    if ds != [] {
      var init, d := ds[..|ds| - 1], ds[|ds| - 1];
      RecordsAreConsistent(init, omitEnd);
      var b := ReceiveAll(init, omitEnd).value;
      ReceiveObserves(b, d, omitEnd);
      if d.size >= 16 {
        ObservedIsReal(b.all, d);
      }
      if Measured(b, d).Ok? {
        ObservedIsReal(if b.measured.Some? then b.measured.value else Restarted(b.all), d);
      }
    }
  }

  /** A record of u64 sequence numbers. */
  ghost predicate Real(r: Record) {
    Consistent(r) && r.highest <= U64_MAX
  }

  lemma ObservedIsReal(r: Record, d: Datagram)
    requires Real(r) && Observed(r, d.sequence, d.size, d.Transit()).Ok?
    ensures Real(Observed(r, d.sequence, d.size, d.Transit()).value)
  {
  }

  /** How many different sequence numbers the reported figures rest on. */
  ghost function Distinct(b: Records): nat {
    if b.measured.Some? then |b.measured.value.seen| else 0
  }

  /** A receiver that reports packets has received at least one, so it never reports them all as lost. */
  lemma ReportedCounts(ds: seq<Datagram>, omitEnd: int)
    requires ReceiveAll(ds, omitEnd).Ok?
    ensures var b := ReceiveAll(ds, omitEnd).value;
            var o := Report(b);
            && o.packets <= U64_MAX
            && o.errors + Distinct(b) == o.packets
            && (o.packets > 0 ==> Distinct(b) > 0)
  {
    RecordsAreConsistent(ds, omitEnd);
    var b := ReceiveAll(ds, omitEnd).value;
    var m := if b.measured.Some? then b.measured.value else Empty(b.all.highest);
    MissingSize(m);
    if m.highest > m.baseline {
      assert m.seen == {m.highest} + (m.seen - {m.highest});
    }
  }

  ghost predicate Reports(ds: seq<Datagram>, omitEnd: int, packets: nat, errors: nat) {
    && NonDecreasing(ds)
    && ReceiveAll(ds, omitEnd).Ok?
    && Report(ReceiveAll(ds, omitEnd).value).packets == packets
    && Report(ReceiveAll(ds, omitEnd).value).errors == errors
  }

  /** Some sequence of datagrams makes a receiver report these counters. */
  ghost predicate Reportable(packets: nat, errors: nat) {
    exists ds, omitEnd :: Reports(ds, omitEnd, packets, errors)
  }

  /** A run without warm-up that has seen exactly these numbers. */
  ghost predicate Plain(b: Records, seen: set<nat>, highest: nat) {
    && b.all.baseline == 0 && b.all.seen == seen && b.all.highest == highest
    && (if b.measured.None? then seen == {} && highest == 0
        else b.measured.value.baseline == 0 && b.measured.value.seen == seen && b.measured.value.highest == highest)
  }

  function Numbered(sequence: u64): Datagram {
    Datagram(16, 0, 0, sequence, 0.0, 0)
  }

  lemma PlainReceives(b: Records, seen: set<nat>, highest: nat, sequence: u64)
    requires Plain(b, seen, highest) && highest < sequence && forall q :: q in seen ==> q <= highest
    ensures Receive(b, Numbered(sequence), 0).Ok?
    ensures Plain(Receive(b, Numbered(sequence), 0).value, seen + {sequence}, sequence)
  {
  }

  /** The datagrams 1 to n, without gaps. */
  function Burst(n: u64): (ds: seq<Datagram>)
    ensures forall i :: 0 <= i < |ds| ==> ds[i].now == 0
  {
    if n == 0 then [] else Burst(n - 1) + [Numbered(n)]
  }

  lemma {:induction false} BurstIsSeen(n: u64)
    ensures ReceiveAll(Burst(n), 0).Ok? && Plain(ReceiveAll(Burst(n), 0).value, Interval(0, n), n)
  {
    if n > 0 {
      BurstIsSeen(n - 1);
      assert Burst(n)[..|Burst(n)| - 1] == Burst(n - 1);
      PlainReceives(ReceiveAll(Burst(n - 1), 0).value, Interval(0, n - 1), n - 1, n);
    }
  }

  /** A burst and then a jump to `packets` loses everything in between. */
  lemma JumpReports(packets: u64, errors: nat)
    requires errors < packets
    ensures Reports(Burst(packets - errors - 1) + [Numbered(packets)], 0, packets, errors)
  {
    var n := packets - errors - 1;
    var ds := Burst(n) + [Numbered(packets)];
    BurstIsSeen(n);
    assert ds[..|ds| - 1] == Burst(n);
    PlainReceives(ReceiveAll(Burst(n), 0).value, Interval(0, n), n, packets);
    var b := ReceiveAll(ds, 0).value;
    assert Distinct(b) == n + 1;
    ReportedCounts(ds, 0);
  }

  /** Exactly the counters a receiver can report: both zero, or fewer errors than packets. */
  lemma ReportableIff(packets: nat, errors: nat)
    ensures Reportable(packets, errors) <==>
            packets <= U64_MAX && (errors < packets || (packets == 0 && errors == 0))
  {
    if Reportable(packets, errors) {
      var ds, omitEnd :| Reports(ds, omitEnd, packets, errors);
      ReportedCounts(ds, omitEnd);
    } else if errors < packets <= U64_MAX {
      JumpReports(packets, errors);
    } else if packets == 0 && errors == 0 {
      assert Reports([], 0, 0, 0);
    }
  }

  // ---------------------------------------------------------------------------------------
  // Bytes
  // ---------------------------------------------------------------------------------------

  /** The bytes of the datagrams past the warm-up whose number is above the baseline and arrives for
      the first time. */
  ghost function Credited(ds: seq<Datagram>, omitEnd: int, baseline: nat): nat {
    if ds == [] then 0
    else
      var init, d := ds[..|ds| - 1], ds[|ds| - 1];
      Credited(init, omitEnd, baseline)
      + if d.size >= 16 && omitEnd <= d.now && baseline < d.sequence && d.sequence !in Received(init) then d.size else 0
  }

  lemma {:induction false} NothingCredited(ds: seq<Datagram>, omitEnd: int, baseline: nat)
    requires ReceiveAll(ds, omitEnd).Ok? && ReceiveAll(ds, omitEnd).value.measured.None?
    ensures Credited(ds, omitEnd, baseline) == 0
  {
    if ds != [] {
      NothingCredited(ds[..|ds| - 1], omitEnd, baseline);
    }
  }

  ghost predicate BytesCredited(b: Records, ds: seq<Datagram>, omitEnd: int) {
    b.measured.Some? ==>
      b.measured.value.bytes == Min(Credited(ds, omitEnd, b.measured.value.baseline), U64_MAX)
  }

  lemma ReceiveCredits(b: Records, init: seq<Datagram>, d: Datagram, omitEnd: int)
    requires Together(b) && Counts(b.all, Received(init)) && Receive(b, d, omitEnd).Ok?
    requires BytesCredited(b, init, omitEnd)
    requires b.measured.None? ==> forall baseline: nat :: Credited(init, omitEnd, baseline) == 0
    ensures BytesCredited(Receive(b, d, omitEnd).value, init + [d], omitEnd)
  {
    var m := if b.measured.Some? then b.measured.value else Restarted(b.all);
    assert (init + [d])[..|init|] == init;
    assert m.bytes == Min(Credited(init, omitEnd, m.baseline), U64_MAX);
    assert m.baseline < d.sequence ==> (d.sequence in m.seen <==> d.sequence in Received(init));
  }

  /** The reported bytes count every measured datagram once, however often it arrives. */
  lemma {:induction false} MeasuredBytes(ds: seq<Datagram>, omitEnd: int)
    requires NonDecreasing(ds) && ReceiveAll(ds, omitEnd).Ok?
    ensures BytesCredited(ReceiveAll(ds, omitEnd).value, ds, omitEnd)
  {
    if ds != [] {
      var init, d := ds[..|ds| - 1], ds[|ds| - 1];
      var b := ReceiveAll(init, omitEnd).value;
      MeasuredBytes(init, omitEnd);
      MeasuredIsTheTail(init, omitEnd);
      SeesWhatArrives(init, omitEnd);
      if b.measured.None? {
        forall baseline: nat ensures Credited(init, omitEnd, baseline) == 0 {
          NothingCredited(init, omitEnd, baseline);
        }
      }
      assert ds == init + [d];
      ReceiveCredits(b, init, d, omitEnd);
    }
  }

  // ---------------------------------------------------------------------------------------
  // Jitter
  // ---------------------------------------------------------------------------------------

  // The estimator, in closed form

  /** (15/16)^k */
  function Decay(k: nat): real {
    if k == 0 then 1.0 else Decay(k - 1) * 15.0 / 16.0
  }

  /** The first i differences of consecutive transit times, difference j weighted with (15/16)^(n-j) / 16. */
  function WeightedDifferences(ts: seq<real>, i: nat, n: nat): real
    requires i < |ts| && i <= n
  {
    if i == 0 then 0.0
    else WeightedDifferences(ts, i - 1, n) + Abs(ts[i] - ts[i - 1]) * Decay(n - i) / 16.0
  }

  /** The sum over i >= 1 of |t_i - t_(i-1)| * (15/16)^(n-i) / 16, for transit times t_0 to t_n. */
  function Smoothed(ts: seq<real>): real {
    if ts == [] then 0.0 else WeightedDifferences(ts, |ts| - 1, |ts| - 1)
  }

  lemma {:induction false} OlderDecay(ts: seq<real>, more: seq<real>, i: nat, n: nat)
    requires i < |ts| <= |more| && i <= n && forall k :: 0 <= k < |ts| ==> more[k] == ts[k]
    ensures WeightedDifferences(more, i, n + 1) == WeightedDifferences(ts, i, n) * 15.0 / 16.0
  {
    if i > 0 {
      OlderDecay(ts, more, i - 1, n);
      Distribute(WeightedDifferences(ts, i - 1, n), Abs(ts[i] - ts[i - 1]), Decay(n - i));
    }
  }

  lemma Distribute(sum: real, d: real, w: real)
    ensures sum * 15.0 / 16.0 + d * (w * 15.0 / 16.0) / 16.0 == (sum + d * w / 16.0) * 15.0 / 16.0
  {
    assert d * (w * 15.0 / 16.0) == d * w * 15.0 / 16.0;
  }

  /** One more transit time moves the estimate a sixteenth of the way. */
  lemma SmoothedAppend(ts: seq<real>, t: real)
    ensures Smoothed(ts + [t])
            == if ts == [] then 0.0 else Smoothed(ts) + (Abs(t - ts[|ts| - 1]) - Smoothed(ts)) / 16.0
  {
    if ts != [] {
      var n := |ts| - 1;
      OlderDecay(ts, ts + [t], n, n);
    }
  }

  /** The record's estimate is that of these transit times, the last of which it remembers. */
  ghost predicate Estimates(r: Record, ts: seq<real>) {
    r.jitter == Smoothed(ts) && r.prior == if ts == [] then None else Some(ts[|ts| - 1])
  }

  lemma AcceptEstimates(r: Record, ts: seq<real>, d: Datagram)
    requires Estimates(r, ts)
    ensures Estimates(Accept(r, d.sequence, d.size, d.Transit()), ts + [d.Transit()])
  {
    SmoothedAppend(ts, d.Transit());
  }

  // What each record's estimate rests on

  /** A datagram long enough to be read. */
  predicate Readable(d: Datagram) {
    d.size >= 16
  }

  /** The transit times of the first arrivals. */
  ghost function Transits(ds: seq<Datagram>): seq<real> {
    if ds == [] then []
    else
      var init, d := ds[..|ds| - 1], ds[|ds| - 1];
      Transits(init) + if Readable(d) && d.sequence !in Received(init) then [d.Transit()] else []
  }

  /** The largest sequence number received. */
  function Top(ds: seq<Datagram>): nat {
    if ds == [] then 0
    else
      var d := ds[|ds| - 1];
      if Readable(d) then Max(Top(ds[..|ds| - 1]), d.sequence) else Top(ds[..|ds| - 1])
  }

  /** How many datagrams come before the first readable one past the warm-up. */
  function WarmUp(ds: seq<Datagram>, omitEnd: int): (n: nat)
    ensures n <= |ds|
    ensures forall i :: 0 <= i < n ==> !(Readable(ds[i]) && omitEnd <= ds[i].now)
    ensures n < |ds| ==> Readable(ds[n]) && omitEnd <= ds[n].now
  {
    if ds == [] then 0
    else
      var init, d := ds[..|ds| - 1], ds[|ds| - 1];
      var n := WarmUp(init, omitEnd);
      if n < |init| then n else if Readable(d) && omitEnd <= d.now then |init| else |ds|
  }

  function LastOf(ts: seq<real>): seq<real> {
    if ts == [] then [] else [ts[|ts| - 1]]
  }

  /** The last transit time accepted during the warm-up, if any, and those of the first arrivals after it
      whose number is above the largest of the warm-up. */
  ghost function MeasuredTransits(ds: seq<Datagram>, omitEnd: int): seq<real> {
    var n := WarmUp(ds, omitEnd);
    if n == |ds| then []
    else
      var init, d := ds[..|ds| - 1], ds[|ds| - 1];
      var first := n == |init|;
      (if first then LastOf(Transits(init)) else MeasuredTransits(init, omitEnd))
      + if Readable(d) && Top(ds[..n]) < d.sequence && d.sequence !in Received(init) then [d.Transit()] else []
  }

  lemma {:induction false} TopIsLargest(ds: seq<Datagram>)
    ensures Largest(Top(ds), Received(ds))
  {
    if ds != [] {
      var init, d := ds[..|ds| - 1], ds[|ds| - 1];
      TopIsLargest(init);
      assert ds == init + [d];
      ReceivedAppend(init, d);
    }
  }

  lemma UniqueLargest(a: nat, b: nat, numbers: set<nat>)
    requires Largest(a, numbers) && Largest(b, numbers)
    ensures a == b
  {
  }

  lemma HighestIsTop(ds: seq<Datagram>, omitEnd: int)
    requires ReceiveAll(ds, omitEnd).Ok?
    ensures Counts(ReceiveAll(ds, omitEnd).value.all, Received(ds))
    ensures ReceiveAll(ds, omitEnd).value.all.highest == Top(ds)
  {
    SeesWhatArrives(ds, omitEnd);
    TopIsLargest(ds);
    UniqueLargest(Top(ds), ReceiveAll(ds, omitEnd).value.all.highest, Received(ds));
  }

  /** The whole-run jitter is the estimate over the transit times of all first arrivals. */
  lemma {:induction false} WholeRunJitter(ds: seq<Datagram>, omitEnd: int)
    requires ReceiveAll(ds, omitEnd).Ok?
    ensures Estimates(ReceiveAll(ds, omitEnd).value.all, Transits(ds))
  {
    if ds != [] {
      var init, d := ds[..|ds| - 1], ds[|ds| - 1];
      var b := ReceiveAll(init, omitEnd).value;
      WholeRunJitter(init, omitEnd);
      HighestIsTop(init, omitEnd);
      ReceiveObserves(b, d, omitEnd);
      assert Transits(init) + [] == Transits(init);
      if Readable(d) {
        AcceptEstimates(b.all, Transits(init), d);
      }
    }
  }

  /** What the records are once the measured one may have begun. */
  ghost predicate MeasuredFrom(b: Records, ds: seq<Datagram>, omitEnd: int) {
    var n := WarmUp(ds, omitEnd);
    && (b.measured.Some? <==> n < |ds|)
    && (b.measured.Some? ==>
          && b.measured.value.baseline == Top(ds[..n])
          && Estimates(b.measured.value, MeasuredTransits(ds, omitEnd)))
  }

  lemma FirstMeasured(b: Records, ts: seq<real>)
    requires Estimates(b.all, ts)
    ensures Estimates(Restarted(b.all), LastOf(ts))
  {
  }

  lemma MeasuredEstimates(m: Record, ts: seq<real>, numbers: set<nat>, d: Datagram)
    requires Estimates(m, ts) && m.seen == set q | q in numbers && m.baseline < q
    requires Observed(m, d.sequence, d.size, d.Transit()).Ok?
    ensures Estimates(Observed(m, d.sequence, d.size, d.Transit()).value,
                      ts + if m.baseline < d.sequence && d.sequence !in numbers then [d.Transit()] else [])
    ensures Observed(m, d.sequence, d.size, d.Transit()).value.baseline == m.baseline
  {
    assert ts + [] == ts;
    AcceptEstimates(m, ts, d);
  }

  lemma MeasuredStep(b: Records, init: seq<Datagram>, d: Datagram, omitEnd: int)
    requires Together(b) && Counts(b.all, Received(init)) && b.all.highest == Top(init)
    requires Estimates(b.all, Transits(init)) && MeasuredFrom(b, init, omitEnd)
    requires Receive(b, d, omitEnd).Ok? && (b.measured.Some? ==> omitEnd <= d.now)
    ensures MeasuredFrom(Receive(b, d, omitEnd).value, init + [d], omitEnd)
  {
    var ds, next := init + [d], Receive(b, d, omitEnd).value;
    assert ds[..|init|] == init;
    assert b.measured.Some? ==> ds[..WarmUp(init, omitEnd)] == init[..WarmUp(init, omitEnd)];
    FirstMeasured(b, Transits(init));
    if Readable(d) && omitEnd <= d.now {
      var m := if b.measured.Some? then b.measured.value else Restarted(b.all);
      var ts := if b.measured.Some? then MeasuredTransits(init, omitEnd) else LastOf(Transits(init));
      assert m.seen == set q | q in Received(init) && m.baseline < q;
      MeasuredEstimates(m, ts, Received(init), d);
    } else if b.measured.Some? {
      assert MeasuredTransits(init, omitEnd) + [] == MeasuredTransits(init, omitEnd);
    }
  }

  lemma {:induction false} MeasuredJitter(ds: seq<Datagram>, omitEnd: int)
    requires NonDecreasing(ds) && ReceiveAll(ds, omitEnd).Ok?
    ensures MeasuredFrom(ReceiveAll(ds, omitEnd).value, ds, omitEnd)
  {
    if ds != [] {
      var init, d := ds[..|ds| - 1], ds[|ds| - 1];
      MeasuredJitter(init, omitEnd);
      MeasuredIsTheTail(init, omitEnd);
      HighestIsTop(init, omitEnd);
      WholeRunJitter(init, omitEnd);
      assert ds == init + [d];
      MeasuredStep(ReceiveAll(init, omitEnd).value, init, d, omitEnd);
    }
  }

  /** The measured record begins with the first readable datagram past the warm-up, above the largest
      number of the warm-up, and the reported jitter is the closed form over its transit times. */
  lemma ReportedJitter(ds: seq<Datagram>, omitEnd: int)
    requires NonDecreasing(ds) && ReceiveAll(ds, omitEnd).Ok?
    ensures var b, n := ReceiveAll(ds, omitEnd).value, WarmUp(ds, omitEnd);
            && Report(b).jitter == Smoothed(MeasuredTransits(ds, omitEnd))
            && (b.measured.Some? <==> n < |ds|)
            && (b.measured.Some? ==> b.measured.value.baseline == Top(ds[..n]))
            && b.all.jitter == Smoothed(Transits(ds))
  {
    MeasuredJitter(ds, omitEnd);
    WholeRunJitter(ds, omitEnd);
  }

  // ---------------------------------------------------------------------------------------
  // Exactly which runs fail
  // ---------------------------------------------------------------------------------------

  /** Datagram i is readable only if its timestamp is one, and its number neither zero nor 65,536 or more
      behind the largest number before it. */
  predicate Tolerable(ds: seq<Datagram>, i: nat)
    requires i < |ds|
  {
    Readable(ds[i]) ==> ds[i].micros < 1_000_000 && 0 < ds[i].sequence && Top(ds[..i]) < ds[i].sequence + 65_536
  }

  lemma {:induction false} MeasuredBelow(ds: seq<Datagram>, omitEnd: int)
    requires ReceiveAll(ds, omitEnd).Ok?
    ensures var b := ReceiveAll(ds, omitEnd).value;
            b.all.baseline == 0 && (b.measured.Some? ==> b.measured.value.highest <= b.all.highest)
  {
    if ds != [] {
      var init, d := ds[..|ds| - 1], ds[|ds| - 1];
      MeasuredBelow(init, omitEnd);
      RecordsAreConsistent(init, omitEnd);
      BelowStep(ReceiveAll(init, omitEnd).value, d, omitEnd);
    }
  }

  lemma BelowStep(b: Records, d: Datagram, omitEnd: int)
    requires Consistent(b.all) && (b.measured.Some? ==> b.measured.value.highest <= b.all.highest)
    requires Receive(b, d, omitEnd).Ok?
    ensures var next := Receive(b, d, omitEnd).value;
            && next.all.baseline == b.all.baseline
            && (next.measured.Some? ==> next.measured.value.highest <= next.all.highest)
  {
  }

  /** What is wrong with a datagram that is not tolerable. */
  function Fault(d: Datagram): Error {
    if d.micros >= 1_000_000 then InvalidTimestamp
    else if d.sequence == 0 then SequenceZero
    else ReorderingExceedsWindow
  }

  lemma ReceivesIff(b: Records, d: Datagram, omitEnd: int)
    requires b.all.baseline == 0 && (b.measured.Some? ==> b.measured.value.highest <= b.all.highest)
    ensures Receive(b, d, omitEnd).Ok? <==>
            (Readable(d) ==> d.micros < 1_000_000 && 0 < d.sequence && b.all.highest < d.sequence + 65_536)
    ensures Receive(b, d, omitEnd).Err? ==> Receive(b, d, omitEnd).error == Fault(d)
  {
  }

  /** A run fails with what is wrong with its first intolerable datagram. */
  lemma FailsWith(ds: seq<Datagram>, omitEnd: int, i: nat)
    requires i < |ds| && !Tolerable(ds, i) && forall j :: 0 <= j < i ==> Tolerable(ds, j)
    ensures ReceiveAll(ds, omitEnd) == Err(Fault(ds[i]))
  {
    var init, upTo := ds[..i], ds[..i + 1];
    forall j | 0 <= j < i ensures Tolerable(init, j) {
      assert init[..j] == ds[..j];
      assert Tolerable(ds, j);
    }
    SucceedsIff(init, omitEnd);
    MeasuredBelow(init, omitEnd);
    HighestIsTop(init, omitEnd);
    ReceivesIff(ReceiveAll(init, omitEnd).value, ds[i], omitEnd);
    assert upTo[..i] == init;
    FailureIsFinal(ds, omitEnd, i + 1);
  }

  /** A run is free of errors if and only if every datagram is tolerable. */
  lemma {:induction false} SucceedsIff(ds: seq<Datagram>, omitEnd: int)
    ensures ReceiveAll(ds, omitEnd).Ok? <==> forall i :: 0 <= i < |ds| ==> Tolerable(ds, i)
  {
    if ds != [] {
      var n := |ds| - 1;
      var init := ds[..n];
      SucceedsIff(init, omitEnd);
      forall i | 0 <= i < n ensures Tolerable(init, i) == Tolerable(ds, i) {
        assert init[..i] == ds[..i];
      }
      assert (forall i :: 0 <= i < |ds| ==> Tolerable(ds, i))
        <==> (forall i :: 0 <= i < n ==> Tolerable(init, i)) && Tolerable(ds, n);
      if ReceiveAll(init, omitEnd).Ok? {
        MeasuredBelow(init, omitEnd);
        HighestIsTop(init, omitEnd);
        ReceivesIff(ReceiveAll(init, omitEnd).value, ds[n], omitEnd);
      }
    }
  }

  // ---------------------------------------------------------------------------------------
  // Bounds on the jitter
  // ---------------------------------------------------------------------------------------

  function Shift(d: Datagram, offset: real): Datagram {
    d.(arrival := d.arrival + offset)
  }

  function ShiftAll(ds: seq<Datagram>, offset: real): (r: seq<Datagram>)
    ensures |r| == |ds|
  {
    seq(|ds|, i requires 0 <= i < |ds| => Shift(ds[i], offset))
  }

  /** The same record, on a receiver clock that is ahead by `offset`. */
  function ShiftRecord(r: Record, offset: real): Record {
    r.(prior := if r.prior.Some? then Some(r.prior.value + offset) else None)
  }

  function ShiftRecords(b: Records, offset: real): Records {
    Records(ShiftRecord(b.all, offset),
            if b.measured.Some? then Some(ShiftRecord(b.measured.value, offset)) else None)
  }

  lemma ObservedShift(r: Record, sequence: nat, bytes: nat, transit: real, offset: real)
    ensures Observed(ShiftRecord(r, offset), sequence, bytes, transit + offset)
            == match Observed(r, sequence, bytes, transit)
               case Ok(next) => Ok(ShiftRecord(next, offset))
               case Err(e) => Err(e)
  {
    if r.prior.Some? {
      assert (transit + offset) - (r.prior.value + offset) == transit - r.prior.value;
    }
  }

  /** Sender and receiver clocks need not agree: a constant offset between them changes no figure. */
  lemma {:induction false} ClockOffsetCancels(ds: seq<Datagram>, omitEnd: int, offset: real)
    ensures ReceiveAll(ShiftAll(ds, offset), omitEnd)
            == match ReceiveAll(ds, omitEnd)
               case Ok(b) => Ok(ShiftRecords(b, offset))
               case Err(e) => Err(e)
    ensures ReceiveAll(ds, omitEnd).Ok? ==>
              Report(ReceiveAll(ShiftAll(ds, offset), omitEnd).value) == Report(ReceiveAll(ds, omitEnd).value)
  {
    if ds != [] {
      var init, d := ds[..|ds| - 1], ds[|ds| - 1];
      var shifted := ShiftAll(ds, offset);
      ClockOffsetCancels(init, omitEnd, offset);
      assert shifted[..|ds| - 1] == ShiftAll(init, offset);
      if ReceiveAll(init, omitEnd).Ok? {
        ReceiveShift(ReceiveAll(init, omitEnd).value, d, omitEnd, offset);
      }
    }
  }

  lemma ReceiveShift(b: Records, d: Datagram, omitEnd: int, offset: real)
    ensures Receive(ShiftRecords(b, offset), Shift(d, offset), omitEnd)
            == match Receive(b, d, omitEnd)
               case Ok(next) => Ok(ShiftRecords(next, offset))
               case Err(e) => Err(e)
  {
    var m := if b.measured.Some? then b.measured.value else Restarted(b.all);
    assert Shift(d, offset).Transit() == d.Transit() + offset;
    ObservedShift(m, d.sequence, d.size, d.Transit(), offset);
    ObservedShift(b.all, d.sequence, d.size, d.Transit(), offset);
  }

  ghost predicate JitterWithin(r: Record, low: real, high: real) {
    0.0 <= r.jitter <= high - low && (r.prior.Some? ==> low <= r.prior.value <= high)
  }

  lemma ObservedJitter(r: Record, d: Datagram, low: real, high: real)
    requires JitterWithin(r, low, high) && low <= d.Transit() <= high
    requires Observed(r, d.sequence, d.size, d.Transit()).Ok?
    ensures JitterWithin(Observed(r, d.sequence, d.size, d.Transit()).value, low, high)
  {
    var step := NextJitter(r, d.Transit());
    if r.prior.Some? {
      assert 0.0 <= Abs(d.Transit() - r.prior.value) <= high - low;
      assert step == r.jitter * 15.0 / 16.0 + Abs(d.Transit() - r.prior.value) / 16.0;
    }
    assert 0.0 <= step <= high - low;
  }

  /** Jitter is never negative and never exceeds the spread of the transit times. */
  lemma {:induction false} JitterWithinSpread(ds: seq<Datagram>, omitEnd: int, low: real, high: real)
    requires low <= high && ReceiveAll(ds, omitEnd).Ok?
    requires forall i :: 0 <= i < |ds| ==> low <= ds[i].Transit() <= high
    ensures var b := ReceiveAll(ds, omitEnd).value;
            JitterWithin(b.all, low, high) && (b.measured.Some? ==> JitterWithin(b.measured.value, low, high))
    ensures 0.0 <= Report(ReceiveAll(ds, omitEnd).value).jitter <= high - low
  {
    if ds != [] {
      var init, d := ds[..|ds| - 1], ds[|ds| - 1];
      JitterWithinSpread(init, omitEnd, low, high);
      var b := ReceiveAll(init, omitEnd).value;
      var m := if b.measured.Some? then b.measured.value else Restarted(b.all);
      ReceiveObserves(b, d, omitEnd);
      if Observed(b.all, d.sequence, d.size, d.Transit()).Ok? {
        ObservedJitter(b.all, d, low, high);
      }
      if Observed(m, d.sequence, d.size, d.Transit()).Ok? {
        ObservedJitter(m, d, low, high);
      }
    }
  }
}
