/** Replay protection of the privileged helper: the time window of `verify` and the nonce cache in
    crates/helper/src/protocol.rs, in the order HelperServer::handle applies them.

    The monotonic clock counts nanoseconds. The wall clock runs ahead of it by a constant offset and
    is read in whole milliseconds. */
module Replay {
  import opened Common

  const MAX_FRAME_BYTES := 1024 * 1024
  const MAX_NONCES := 4096
  const MS := 1_000_000
  const FRAME_VALIDITY_MS := 5 * 60 * 1000
  const CLOCK_SKEW_MS := 30 * 1000
  const NONCE_TTL := 6 * 60 * 1000 * MS
  const I64_MAX := 0x7FFF_FFFF_FFFF_FFFF
  const I64_MIN := -0x8000_0000_0000_0000

  type i64 = x: int | I64_MIN <= x <= I64_MAX

  datatype Error = Protocol | Authentication | Replayed

  /** A signed frame; `authentic` says whether its authenticator verifies under the helper's secret. */
  datatype Frame = Frame(nonce: nat, issuedMs: i64, size: nat, body: nat, authentic: bool)

  // ---------------------------------------------------------------------------------------
  // The time window
  // ---------------------------------------------------------------------------------------

  function SaturatingSubI64(a: int, b: int): int {
    Max(a - b, I64_MIN)
  }

  function SaturatingAddI64(a: int, b: int): int {
    Min(a + b, I64_MAX)
  }

  /** `wall` is nanoseconds since the Unix epoch; before the epoch, or past the range of i64
      milliseconds, the clock cannot be read. */
  function Verify(wall: int, frame: Frame): Result<(), Error> {
    if frame.size > MAX_FRAME_BYTES then Err(Protocol)
    else if wall < 0 || wall / MS > I64_MAX then Err(Authentication)
    else
      var now := wall / MS;
      var earliest, latest := SaturatingSubI64(now, FRAME_VALIDITY_MS), SaturatingAddI64(now, CLOCK_SKEW_MS);
      if frame.issuedMs < earliest || frame.issuedMs > latest then Err(Authentication)
      else if !frame.authentic then Err(Authentication)
      else Ok(())
  }

  /** Exactly the frames that verification lets through: authentic, at most 1 MiB, and no more than 30 s
      ahead of a readable clock or 5 min behind it. */
  lemma VerifiesIff(wall: int, frame: Frame)
    ensures Verify(wall, frame).Ok? <==>
            && frame.authentic
            && frame.size <= 1024 * 1024
            && 0 <= wall && wall / 1_000_000 <= I64_MAX
            && frame.issuedMs - 30_000 <= wall / 1_000_000 <= frame.issuedMs + 300_000
  {
    assert FRAME_VALIDITY_MS == 300_000 && CLOCK_SKEW_MS == 30_000;
  }

  /** Two successful verifications of one frame are at most 5 min + 30 s apart, plus the part of a
      millisecond that both readings of the clock truncate. */
  lemma WindowBound(first: int, second: int, frame: Frame)
    requires Verify(first, frame).Ok? && Verify(second, frame).Ok?
    ensures second - first <= (FRAME_VALIDITY_MS + CLOCK_SKEW_MS) * MS + MS - 1
  {
  }

  // ---------------------------------------------------------------------------------------
  // The nonce cache
  // ---------------------------------------------------------------------------------------

  datatype Cache = Cache(entries: map<nat, nat>, order: seq<nat>)

  /** The queue is free of duplicates, holds exactly the map's keys, and is ordered by time. */
  ghost predicate Sound(c: Cache) {
    && (forall nonce :: nonce in c.order <==> nonce in c.entries)
    && (forall i, j :: 0 <= i <= j < |c.order| ==> Queued(c, i, j))
  }

  /** Position i of the queue comes before position j: another nonce, and not a later one. */
  ghost predicate Queued(c: Cache, i: nat, j: nat)
    requires i <= j < |c.order|
  {
    && (i < j ==> c.order[i] != c.order[j])
    && c.order[i] in c.entries && c.order[j] in c.entries
    && c.entries[c.order[i]] <= c.entries[c.order[j]]
  }

  function ExpiryCutoff(now: nat): Option<nat> {
    if now < NONCE_TTL then None else Some(now - NONCE_TTL)
  }

  /** The longest prefix of the queue that is older than the cutoff is dropped. */
  function Expire(c: Cache, cutoff: nat): Cache
    decreases |c.order|
  {
    if c.order != [] && c.order[0] in c.entries && c.entries[c.order[0]] < cutoff
    then Expire(Cache(c.entries - {c.order[0]}, c.order[1..]), cutoff)
    else c
  }

  function Expired(c: Cache, now: nat): Cache {
    if ExpiryCutoff(now).Some? then Expire(c, ExpiryCutoff(now).value) else c
  }

  /** `checked` and `stored` are the two instants that one accept reads. */
  function Admit(c: Cache, nonce: nat, checked: nat, stored: nat): (Cache, Result<(), Error>) {
    var live := Expired(c, checked);
    if nonce in live.entries then (live, Err(Replayed))
    else if |live.entries| >= MAX_NONCES then (live, Err(Protocol))
    else (Cache(live.entries[nonce := stored], live.order + [nonce]), Ok(()))
  }

  function Pop(c: Cache): Cache
    requires c.order != []
  {
    Cache(c.entries - {c.order[0]}, c.order[1..])
  }

  lemma PopSound(c: Cache)
    requires Sound(c) && c.order != []
    ensures Sound(Pop(c))
  {
    var next := Pop(c);
    forall nonce ensures nonce in next.order <==> nonce in next.entries {
      PopKeys(c, nonce);
    }
    forall i, j | 0 <= i <= j < |next.order| ensures Queued(next, i, j) {
      assert Queued(c, i + 1, j + 1) && Queued(c, 0, i + 1) && Queued(c, 0, j + 1);
    }
  }

  lemma PopKeys(c: Cache, nonce: nat)
    requires Sound(c) && c.order != []
    ensures nonce in Pop(c).order <==> nonce in Pop(c).entries
  {
    if nonce in c.order {
      var i :| 0 <= i < |c.order| && c.order[i] == nonce;
      if i > 0 {
        assert c.order[1..][i - 1] == nonce;
        assert Queued(c, 0, i);
      } else {
        forall k | 0 <= k < |c.order| - 1 ensures c.order[1..][k] != nonce {
          assert Queued(c, 0, k + 1);
        }
      }
    }
  }

  lemma PopEntries(c: Cache, cutoff: nat)
    requires c.order != [] && c.order[0] in c.entries && c.entries[c.order[0]] < cutoff
    ensures forall nonce :: nonce in Pop(c).entries ==> nonce in c.entries && Pop(c).entries[nonce] == c.entries[nonce]
    ensures forall nonce :: nonce in c.entries && cutoff <= c.entries[nonce] ==> nonce in Pop(c).entries
  {
  }

  lemma PushSound(c: Cache, nonce: nat, stored: nat)
    requires Sound(c) && nonce !in c.entries
    requires forall n :: n in c.entries ==> c.entries[n] <= stored
    ensures Sound(Cache(c.entries[nonce := stored], c.order + [nonce]))
  {
    var next := Cache(c.entries[nonce := stored], c.order + [nonce]);
    forall i, j | 0 <= i <= j < |next.order| ensures Queued(next, i, j) {
      if j < |c.order| {
        assert Queued(c, i, j);
      } else if i < j {
        assert Queued(c, i, i);
      }
    }
  }

  lemma FrontIsOldest(c: Cache, nonce: nat)
    requires Sound(c) && nonce in c.entries
    ensures c.order != [] && c.order[0] in c.entries && c.entries[c.order[0]] <= c.entries[nonce]
  {
    var i :| 0 <= i < |c.order| && c.order[i] == nonce;
    assert Queued(c, 0, i);
  }

  /** `live` is the cache without the entries older than the cutoff. */
  ghost predicate Without(live: Cache, c: Cache, cutoff: nat) {
    && (forall nonce :: nonce in live.entries <==> nonce in c.entries && cutoff <= c.entries[nonce])
    && (forall nonce :: nonce in live.entries ==> live.entries[nonce] == c.entries[nonce])
  }

  lemma PopWithout(live: Cache, c: Cache, cutoff: nat)
    requires c.order != [] && c.order[0] in c.entries && c.entries[c.order[0]] < cutoff
    requires Without(live, Pop(c), cutoff)
    ensures Without(live, c, cutoff)
  {
    PopEntries(c, cutoff);
  }

  lemma NothingExpired(c: Cache, cutoff: nat)
    requires Sound(c) && !(c.order != [] && c.order[0] in c.entries && c.entries[c.order[0]] < cutoff)
    ensures Without(c, c, cutoff)
  {
    forall nonce | nonce in c.entries ensures cutoff <= c.entries[nonce] {
      FrontIsOldest(c, nonce);
    }
  }

  /** Expiry keeps the cache sound and drops exactly the entries older than the cutoff. */
  lemma {:induction false} ExpireDropsTheOld(c: Cache, cutoff: nat)
    requires Sound(c)
    ensures Sound(Expire(c, cutoff)) && Without(Expire(c, cutoff), c, cutoff)
    decreases |c.order|
  {
    if c.order != [] && c.order[0] in c.entries && c.entries[c.order[0]] < cutoff {
      PopSound(c);
      ExpireDropsTheOld(Pop(c), cutoff);
      PopWithout(Expire(c, cutoff), c, cutoff);
    } else {
      NothingExpired(c, cutoff);
    }
  }

  class ReplayCache {
    var entries: map<nat, nat>
    var order: seq<nat>

    function View(): Cache
      reads this
    {
      Cache(entries, order)
    }

    constructor ()
      ensures View() == Cache(map[], []) && Sound(View())
    {
      entries, order := map[], [];
    }

    method Accept(nonce: nat, checked: nat, stored: nat) returns (r: Result<(), Error>)
      requires Sound(View()) && checked <= stored
      requires forall n :: n in entries ==> entries[n] <= stored
      modifies this
      ensures (View(), r) == Admit(old(View()), nonce, checked, stored)
      ensures Sound(View())
    {
      AdmitSound(View(), nonce, checked, stored);
      var cutoff := ExpiryCutoff(checked);
      ghost var target := Expired(View(), checked);
      if cutoff.Some? {
        while order != [] && order[0] in entries && entries[order[0]] < cutoff.value
          invariant Expire(View(), cutoff.value) == target
          decreases |order|
        {
          var key := order[0];
          order := order[1..];
          entries := entries - {key};
        }
      }
      assert View() == target;
      if nonce in entries {
        return Err(Replayed);
      }
      if |entries| >= MAX_NONCES {
        return Err(Protocol);
      }
      entries := entries[nonce := stored];
      order := order + [nonce];
      r := Ok(());
    }
  }

  // ---------------------------------------------------------------------------------------
  // Whole runs
  // ---------------------------------------------------------------------------------------

  /** One frame handled: the monotonic instants of its verification and of the two readings inside
      accept. Frames are listed in the order in which they take the cache's lock. */
  datatype Attempt = Attempt(frame: Frame, verified: nat, checked: nat, stored: nat)

  /** The clock is monotonic, and no frame waits longer than `slack` between verify and accept. */
  ghost predicate Timely(attempts: seq<Attempt>, slack: nat) {
    && (forall i :: 0 <= i < |attempts| ==>
          attempts[i].verified <= attempts[i].checked <= attempts[i].stored
          && attempts[i].checked <= attempts[i].verified + slack)
    && (forall i, j :: 0 <= i < j < |attempts| ==> attempts[i].stored <= attempts[j].checked)
  }

  function HandleFrame(offset: int, c: Cache, a: Attempt): (Cache, Result<(), Error>) {
    var verdict := Verify(a.verified + offset, a.frame);
    if verdict.Err? then (c, verdict) else Admit(c, a.frame.nonce, a.checked, a.stored)
  }

  function CacheAfter(offset: int, attempts: seq<Attempt>): Cache {
    if attempts == [] then Cache(map[], [])
    else HandleFrame(offset, CacheAfter(offset, attempts[..|attempts| - 1]), attempts[|attempts| - 1]).0
  }

  predicate Accepted(offset: int, attempts: seq<Attempt>, i: nat)
    requires i < |attempts|
  {
    HandleFrame(offset, CacheAfter(offset, attempts[..i]), attempts[i]).1.Ok?
  }

  /** No signed frame is accepted twice. */
  ghost predicate ReplayFree(offset: int, attempts: seq<Attempt>) {
    forall i, j :: 0 <= i < j < |attempts| && Accepted(offset, attempts, i) && Accepted(offset, attempts, j) ==>
      attempts[i].frame != attempts[j].frame
  }

  /** An accepted nonce is remembered from its acceptance on, or older than the TTL at time `now`. */
  ghost predicate Remembered(c: Cache, a: Attempt, now: nat) {
    || (a.frame.nonce in c.entries && a.stored <= c.entries[a.frame.nonce])
    || a.stored + NONCE_TTL < now
  }

  ghost predicate CacheInv(offset: int, attempts: seq<Attempt>, c: Cache) {
    && Sound(c)
    && |c.entries| <= MAX_NONCES
    && (forall nonce :: nonce in c.entries ==> attempts != [] && c.entries[nonce] <= attempts[|attempts| - 1].stored)
    && (forall i :: 0 <= i < |attempts| && Accepted(offset, attempts, i) ==>
          Remembered(c, attempts[i], attempts[|attempts| - 1].checked))
  }

  lemma AcceptedPrefix(offset: int, attempts: seq<Attempt>, n: nat, i: nat)
    requires i < n <= |attempts|
    ensures Accepted(offset, attempts[..n], i) == Accepted(offset, attempts, i)
  {
    assert attempts[..n][..i] == attempts[..i];
  }

  lemma ExpireRemembers(c: Cache, a: Attempt, before: nat, now: nat)
    requires Sound(c) && Remembered(c, a, before) && before <= now
    ensures Remembered(Expired(c, now), a, now) && Sound(Expired(c, now))
    ensures forall nonce :: nonce in Expired(c, now).entries ==>
              nonce in c.entries && Expired(c, now).entries[nonce] == c.entries[nonce]
  {
    if ExpiryCutoff(now).Some? {
      ExpireDropsTheOld(c, ExpiryCutoff(now).value);
    }
  }

  lemma ExpireKeepsSound(c: Cache, now: nat)
    requires Sound(c)
    ensures var live := Expired(c, now);
            Sound(live) && live.entries.Keys <= c.entries.Keys
            && (forall nonce :: nonce in live.entries ==> live.entries[nonce] == c.entries[nonce])
  {
    if ExpiryCutoff(now).Some? {
      ExpireDropsTheOld(c, ExpiryCutoff(now).value);
    }
  }

  lemma {:induction false} FewerEntries(a: map<nat, nat>, b: map<nat, nat>)
    requires a.Keys <= b.Keys
    ensures |a| <= |b|
  {
    assert b.Keys == a.Keys + (b.Keys - a.Keys);
    assert |a| == |a.Keys| && |b| == |b.Keys|;
  }

  lemma AdmitSound(c: Cache, nonce: nat, checked: nat, stored: nat)
    requires Sound(c)
    requires forall n :: n in c.entries ==> c.entries[n] <= stored
    ensures var next := Admit(c, nonce, checked, stored).0;
            && Sound(next) && (|c.entries| <= MAX_NONCES ==> |next.entries| <= MAX_NONCES)
            && (forall n :: n in next.entries ==> next.entries[n] <= stored)
  {
    var live := Expired(c, checked);
    ExpireKeepsSound(c, checked);
    FewerEntries(live.entries, c.entries);
    if nonce !in live.entries {
      PushSound(live, nonce, stored);
    }
  }

  lemma AdmitRemembers(c: Cache, nonce: nat, checked: nat, stored: nat, a: Attempt, before: nat)
    requires Sound(c) && Remembered(c, a, before) && before <= checked && a.stored <= stored
    ensures Remembered(Admit(c, nonce, checked, stored).0, a, checked)
  {
    ExpireRemembers(c, a, before, checked);
  }

  lemma NextCache(offset: int, attempts: seq<Attempt>)
    requires attempts != []
    ensures CacheAfter(offset, attempts)
            == HandleFrame(offset, CacheAfter(offset, attempts[..|attempts| - 1]), attempts[|attempts| - 1]).0
  {
  }

  /** One more attempt keeps the cache invariant. */
  lemma HandleKeepsCache(offset: int, init: seq<Attempt>, c: Cache, last: Attempt, next: Cache)
    requires CacheInv(offset, init, c) && next == HandleFrame(offset, c, last).0
    requires c == CacheAfter(offset, init)
    requires last.checked <= last.stored && (init != [] ==> init[|init| - 1].stored <= last.checked)
    requires forall i :: 0 <= i < |init| ==> init[i].checked <= init[i].stored <= last.stored
    ensures CacheInv(offset, init + [last], next)
  {
    var attempts, n := init + [last], |init|;
    assert attempts[..n] == init && attempts[n] == last;
    AdmitSound(c, last.frame.nonce, last.checked, last.stored);
    forall i | 0 <= i < |attempts| && Accepted(offset, attempts, i)
      ensures Remembered(next, attempts[i], last.checked)
    {
      if i < n {
        AcceptedPrefix(offset, attempts, n, i);
        assert Remembered(c, init[i], init[n - 1].checked);
        AdmitRemembers(c, last.frame.nonce, last.checked, last.stored, init[i], init[n - 1].checked);
      }
    }
  }

  lemma {:induction false} ReachableCache(offset: int, attempts: seq<Attempt>, slack: nat)
    requires Timely(attempts, slack)
    ensures CacheInv(offset, attempts, CacheAfter(offset, attempts))
  {
    if attempts != [] {
      var init, last := attempts[..|attempts| - 1], attempts[|attempts| - 1];
      assert Timely(init, slack);
      ReachableCache(offset, init, slack);
      NextCache(offset, attempts);
      assert attempts == init + [last];
      forall i | 0 <= i < |init| ensures init[i].checked <= init[i].stored <= last.stored {
        assert attempts[i].stored <= attempts[|init|].checked;
      }
      HandleKeepsCache(offset, init, CacheAfter(offset, init), last, CacheAfter(offset, attempts));
    }
  }

  /** The longest wait between verify and accept that the constants leave room for: 6 min minus the
      validity window, the clock skew and the truncated part of a millisecond. */
  const MAX_SLACK: nat := NONCE_TTL - (FRAME_VALIDITY_MS + CLOCK_SKEW_MS) * MS - (MS - 1)

  /** A remembered frame is refused: its nonce is still cached, or its window has closed. */
  lemma RememberedIsRefused(offset: int, c: Cache, a: Attempt, b: Attempt, before: nat)
    requires Sound(c) && Remembered(c, a, before) && before <= b.checked
    requires a.frame == b.frame && Verify(a.verified + offset, a.frame).Ok?
    requires a.verified <= a.stored && b.checked <= b.verified + MAX_SLACK
    ensures HandleFrame(offset, c, b).1.Err?
  {
    ExpireRemembers(c, a, before, b.checked);
    if Verify(b.verified + offset, b.frame).Ok? {
      WindowBound(a.verified + offset, b.verified + offset, a.frame);
    }
  }

  lemma RemembersAccepted(offset: int, attempts: seq<Attempt>, slack: nat, i: nat)
    requires Timely(attempts, slack) && i < |attempts| && Accepted(offset, attempts, i)
    ensures Sound(CacheAfter(offset, attempts))
    ensures Remembered(CacheAfter(offset, attempts), attempts[i], attempts[|attempts| - 1].checked)
  {
    ReachableCache(offset, attempts, slack);
  }

  lemma NotAcceptedAgain(offset: int, attempts: seq<Attempt>, slack: nat, i: nat, j: nat)
    requires Timely(attempts, slack) && slack <= MAX_SLACK
    requires i < j < |attempts| && attempts[i].frame == attempts[j].frame
    requires Accepted(offset, attempts, i)
    ensures !Accepted(offset, attempts, j)
  {
    var init := attempts[..j];
    assert Timely(init, slack);
    AcceptedPrefix(offset, attempts, j, i);
    RemembersAccepted(offset, init, slack, i);
    assert init[j - 1] == attempts[j - 1] && init[i] == attempts[i];
    RememberedIsRefused(offset, CacheAfter(offset, init), attempts[i], attempts[j], init[j - 1].checked);
  }

  // ---------------------------------------------------------------------------------------
  // Exactly which attempts are accepted
  // ---------------------------------------------------------------------------------------

  /** Attempt j is one of the first n, was accepted, and its nonce is not older than the TTL at `now`. */
  ghost predicate Live(offset: int, attempts: seq<Attempt>, n: nat, now: nat, j: nat)
    requires n <= |attempts|
  {
    j < n && Accepted(offset, attempts, j) && now <= attempts[j].stored + 6 * 60 * 1_000_000_000
  }

  /** The nonces that an attempt at `now` is checked against. */
  ghost function LiveNonces(offset: int, attempts: seq<Attempt>, n: nat, now: nat): set<nat>
    requires n <= |attempts|
  {
    set j: nat | j < n && Live(offset, attempts, n, now, j) :: attempts[j].frame.nonce
  }

  /** Every entry stems from an accepted attempt. */
  ghost predicate Origin(offset: int, attempts: seq<Attempt>, nonce: nat, stored: nat) {
    exists j: nat :: j < |attempts| && Accepted(offset, attempts, j)
      && attempts[j].frame.nonce == nonce && attempts[j].stored == stored
  }

  lemma OriginGrows(offset: int, init: seq<Attempt>, last: Attempt, nonce: nat, stored: nat)
    requires Origin(offset, init, nonce, stored)
    ensures Origin(offset, init + [last], nonce, stored)
  {
    var j: nat :| j < |init| && Accepted(offset, init, j) && init[j].frame.nonce == nonce && init[j].stored == stored;
    assert (init + [last])[..|init|] == init;
    AcceptedPrefix(offset, init + [last], |init|, j);
  }

  lemma ExpiredEntries(c: Cache, now: nat)
    requires Sound(c)
    ensures var live := Expired(c, now).entries;
            && (forall nonce :: nonce in live <==> nonce in c.entries && now <= c.entries[nonce] + NONCE_TTL)
            && (forall nonce :: nonce in live ==> live[nonce] == c.entries[nonce])
  {
    if ExpiryCutoff(now).Some? {
      ExpireDropsTheOld(c, ExpiryCutoff(now).value);
    }
  }

  /** What one frame adds to the cache, and what it may drop. */
  lemma HandleEntries(offset: int, c: Cache, a: Attempt, nonce: nat)
    requires Sound(c) && nonce in HandleFrame(offset, c, a).0.entries
    ensures var (next, r) := HandleFrame(offset, c, a);
            || (r.Ok? && nonce == a.frame.nonce && next.entries[nonce] == a.stored)
            || (nonce in c.entries && next.entries[nonce] == c.entries[nonce])
  {
    ExpiredEntries(c, a.checked);
  }

  lemma HandleOrigin(offset: int, init: seq<Attempt>, c: Cache, last: Attempt, nonce: nat)
    requires Sound(c) && c == CacheAfter(offset, init)
    requires forall n :: n in c.entries ==> Origin(offset, init, n, c.entries[n])
    requires var next := HandleFrame(offset, c, last).0; nonce in next.entries
    ensures Origin(offset, init + [last], nonce, HandleFrame(offset, c, last).0.entries[nonce])
  {
    HandleEntries(offset, c, last, nonce);
    if nonce in c.entries && HandleFrame(offset, c, last).0.entries[nonce] == c.entries[nonce] {
      OriginGrows(offset, init, last, nonce, c.entries[nonce]);
    } else {
      var attempts := init + [last];
      assert attempts[..|init|] == init && attempts[|init|] == last;
      assert Accepted(offset, attempts, |init|);
    }
  }

  lemma {:induction false} EntriesHaveOrigins(offset: int, attempts: seq<Attempt>, slack: nat, nonce: nat)
    requires Timely(attempts, slack) && nonce in CacheAfter(offset, attempts).entries
    ensures Origin(offset, attempts, nonce, CacheAfter(offset, attempts).entries[nonce])
  {
    if attempts != [] {
      var init, last := attempts[..|attempts| - 1], attempts[|attempts| - 1];
      var c := CacheAfter(offset, init);
      assert Timely(init, slack) && attempts == init + [last];
      ReachableCache(offset, init, slack);
      forall n | n in c.entries ensures Origin(offset, init, n, c.entries[n]) {
        EntriesHaveOrigins(offset, init, slack, n);
      }
      NextCache(offset, attempts);
      HandleOrigin(offset, init, c, last, nonce);
    }
  }

  /** The cache that attempt i finds, after expiry, holds exactly the live nonces. */
  lemma CacheIsLive(offset: int, attempts: seq<Attempt>, slack: nat, i: nat, nonce: nat)
    requires Timely(attempts, slack) && i < |attempts|
    ensures nonce in Expired(CacheAfter(offset, attempts[..i]), attempts[i].checked).entries
            <==> nonce in LiveNonces(offset, attempts, i, attempts[i].checked)
  {
    var init, now := attempts[..i], attempts[i].checked;
    var c := CacheAfter(offset, init);
    assert Timely(init, slack);
    ReachableCache(offset, init, slack);
    ExpiredEntries(c, now);
    if nonce in Expired(c, now).entries {
      EntriesHaveOrigins(offset, init, slack, nonce);
      var j: nat :| j < i && Accepted(offset, init, j)
        && init[j].frame.nonce == nonce && init[j].stored == c.entries[nonce];
      AcceptedPrefix(offset, attempts, i, j);
      assert Live(offset, attempts, i, now, j);
    }
    if nonce in LiveNonces(offset, attempts, i, now) {
      var j: nat :| j < i && Live(offset, attempts, i, now, j) && attempts[j].frame.nonce == nonce;
      AcceptedPrefix(offset, attempts, i, j);
      assert Remembered(c, init[j], init[i - 1].checked);
      assert attempts[i - 1].stored <= now && attempts[i - 1].checked <= attempts[i - 1].stored;
    }
  }

  /** In every run an attempt is accepted if and only if its frame verifies at its instant, no attempt
      accepted in the last 6 minutes had its nonce, and fewer than 4096 nonces are that young. */
  lemma AcceptedIff(offset: int, attempts: seq<Attempt>, slack: nat, i: nat)
    requires Timely(attempts, slack) && i < |attempts|
    ensures var a, live := attempts[i], LiveNonces(offset, attempts, i, attempts[i].checked);
            Accepted(offset, attempts, i) <==>
            Verify(a.verified + offset, a.frame).Ok? && a.frame.nonce !in live && |live| < 4096
  {
    var a, live := attempts[i], LiveNonces(offset, attempts, i, attempts[i].checked);
    var cached := Expired(CacheAfter(offset, attempts[..i]), a.checked).entries;
    forall nonce ensures nonce in cached.Keys <==> nonce in live {
      CacheIsLive(offset, attempts, slack, i, nonce);
    }
    assert cached.Keys == live;
    assert |cached| == |cached.Keys|;
  }

  /** What each attempt is answered, in the order of the checks. */
  lemma AnswerOf(offset: int, attempts: seq<Attempt>, slack: nat, i: nat)
    requires Timely(attempts, slack) && i < |attempts|
    ensures var a, live := attempts[i], LiveNonces(offset, attempts, i, attempts[i].checked);
            HandleFrame(offset, CacheAfter(offset, attempts[..i]), a).1
            == if a.frame.size > 1024 * 1024 then Err(Protocol)
               else if Verify(a.verified + offset, a.frame).Err? then Err(Authentication)
               else if a.frame.nonce in live then Err(Replayed)
               else if |live| >= 4096 then Err(Protocol)
               else Ok(())
  {
    AcceptedIff(offset, attempts, slack, i);
    CacheIsLive(offset, attempts, slack, i, attempts[i].frame.nonce);
  }

  /** Whatever is accepted is authentic and was inside its window. */
  lemma AcceptedIsAuthentic(offset: int, attempts: seq<Attempt>, i: nat)
    requires i < |attempts| && Accepted(offset, attempts, i)
    ensures var f, now := attempts[i].frame, (attempts[i].verified + offset) / 1_000_000;
            f.authentic && f.issuedMs - 30_000 <= now <= f.issuedMs + 300_000
  {
    VerifiesIff(attempts[i].verified + offset, attempts[i].frame);
  }

  // ---------------------------------------------------------------------------------------
  // Exactly how much slack there is
  // ---------------------------------------------------------------------------------------

  /** The wall clock can still be read, and its bounds computed, this long after the first instant. */
  const MAX_OFFSET: int := (I64_MAX - FRAME_VALIDITY_MS - 2 * CLOCK_SKEW_MS) * MS

  /** An instant at which a wall clock ahead by `offset` shows a whole number of milliseconds. */
  function Aligned(offset: int): (t: nat)
    ensures t + offset >= 0 && (t + offset) % MS == 0 && t + offset <= Max(offset, 0) + MS
  {
    if offset <= 0 then -offset else (MS - offset % MS) % MS
  }

  /** The frame signed 30 s ahead of a wall clock that shows `wall`. */
  function Ahead(wall: int): Frame
    requires 0 <= wall <= MAX_OFFSET + MS
  {
    Frame(7, wall / MS + CLOCK_SKEW_MS, 0, 0, true)
  }

  /** It passes now, and still at the last instant of its window. */
  lemma PassesTwice(wall: int)
    requires 0 <= wall <= MAX_OFFSET + MS && wall % MS == 0
    ensures Verify(wall, Ahead(wall)).Ok?
    ensures Verify(wall + (FRAME_VALIDITY_MS + CLOCK_SKEW_MS) * MS + MS - 1, Ahead(wall)).Ok?
  {
    var again := wall + (FRAME_VALIDITY_MS + CLOCK_SKEW_MS) * MS + MS - 1;
    assert wall == wall / MS * MS;
    assert again / MS == wall / MS + FRAME_VALIDITY_MS + CLOCK_SKEW_MS;
  }

  lemma FirstAttempt(offset: int, attempts: seq<Attempt>)
    requires attempts != [] && Verify(attempts[0].verified + offset, attempts[0].frame).Ok?
    ensures Accepted(offset, attempts, 0)
    ensures CacheAfter(offset, attempts[..1])
            == Cache(map[attempts[0].frame.nonce := attempts[0].stored], [attempts[0].frame.nonce])
  {
    var a := attempts[0];
    assert attempts[..1][..0] == [] && attempts[..0] == [];
    assert Expired(Cache(map[], []), a.checked) == Cache(map[], []);
    assert [] + [a.frame.nonce] == [a.frame.nonce];
  }

  /** A nonce that is all the cache holds, and too old, is admitted again. */
  lemma ForgottenIsAdmitted(nonce: nat, first: nat, checked: nat, stored: nat)
    requires first + NONCE_TTL < checked
    ensures Admit(Cache(map[nonce := first], [nonce]), nonce, checked, stored).1.Ok?
  {
    var c := Cache(map[nonce := first], [nonce]);
    assert c.order[1..] == [] && c.entries - {nonce} == map[];
    assert Expire(c, checked - NONCE_TTL) == Cache(map[], []);
  }

  /** On every clock: a frame signed 30 s ahead of it, verified again at the last instant of its window
      and then delayed by more than the slack, is accepted twice. */
  lemma SlackIsTight(offset: int, slack: nat) returns (attempts: seq<Attempt>)
    requires slack > MAX_SLACK && offset <= MAX_OFFSET
    ensures Timely(attempts, slack) && !ReplayFree(offset, attempts)
  {
    var t := Aligned(offset);
    var frame := Ahead(t + offset);
    var again := t + (FRAME_VALIDITY_MS + CLOCK_SKEW_MS) * MS + MS - 1;
    var late := again + slack;
    attempts := [Attempt(frame, t, t, t), Attempt(frame, again, late, late)];
    PassesTwice(t + offset);
    FirstAttempt(offset, attempts);
    ForgottenIsAdmitted(7, t, late, late);
    assert Accepted(offset, attempts, 1);
  }

  /** For every clock that can be read throughout, exactly how long a verified frame may wait for the
      cache without opening the replay window. */
  lemma ReplayFreeIffSlackAt(offset: int, slack: nat)
    requires offset <= MAX_OFFSET
    ensures (forall attempts :: Timely(attempts, slack) ==> ReplayFree(offset, attempts))
            <==> slack <= 30_000_000_000 - 999_999
  {
    if slack <= MAX_SLACK {
      forall attempts: seq<Attempt> | Timely(attempts, slack) ensures ReplayFree(offset, attempts) {
        EnoughSlack(offset, attempts, slack);
      }
    } else {
      var attempts := SlackIsTight(offset, slack);
    }
  }

  lemma EnoughSlack(offset: int, attempts: seq<Attempt>, slack: nat)
    requires slack <= MAX_SLACK && Timely(attempts, slack)
    ensures ReplayFree(offset, attempts)
  {
    forall i, j | 0 <= i < j < |attempts| && Accepted(offset, attempts, i) && Accepted(offset, attempts, j)
      ensures attempts[i].frame != attempts[j].frame
    {
      if attempts[i].frame == attempts[j].frame {
        NotAcceptedAgain(offset, attempts, slack, i, j);
        assert false;
      }
    }
  }

  /** Exactly how long a verified frame may wait for the cache, whatever the clocks show. */
  lemma ReplayFreeIffSlack(slack: nat)
    ensures (forall offset, attempts :: Timely(attempts, slack) ==> ReplayFree(offset, attempts))
       <==> slack <= 30_000_000_000 - 999_999
  {
    if slack <= MAX_SLACK {
      forall offset: int, attempts: seq<Attempt> | Timely(attempts, slack) ensures ReplayFree(offset, attempts) {
        EnoughSlack(offset, attempts, slack);
      }
    } else {
      var attempts := SlackIsTight(0, slack);
    }
  }
}
