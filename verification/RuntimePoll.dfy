/**
 The runtime poll loop (internal/agent/conn/polling.go): failure counter, reachability tracker,
 and what reaches the sample buffer and the panel.
 */
module RuntimePoll {
  import opened Wrappers
  import opened GoNumbers

  // Instants in nanoseconds; the zero time.Time is its own instant.
  type Instant = int
  const ZERO_TIME: Instant := -62_135_596_800_000_000_000

  const SECOND: int := 1_000_000_000
  const TELEMT_UNREACHABLE_THRESHOLD: int := 30_000_000_000
  const MAX_POLL_BACKOFF: int := 300_000_000_000
  const TWO_TO_64: int := 0x1_0000_0000_0000_0000

  datatype Sample = Sample(observedAt: Instant, snapshot: string)

  /** One poll: when, and the snapshot that was built, or None when that failed. */
  datatype Poll = Poll(observedAt: Instant, snapshot: Option<string>)

  /** An unreachable snapshot that was handed to the telemetry channel. */
  datatype Unreachable = Unreachable(observedAt: Instant, since: Instant)

  // ---------------------------------------------------------------- what a history of polls amounts to

  // The length of the unbroken streak of failures at the end.
  function Streak(polls: seq<Poll>): (n: nat)
    ensures n <= |polls|
    ensures forall i :: |polls| - n <= i < |polls| ==> polls[i].snapshot.None?
    ensures n < |polls| ==> polls[|polls| - n - 1].snapshot.Some?
  {
    if polls == [] || polls[|polls| - 1].snapshot.Some? then 0
    else 1 + Streak(polls[..|polls| - 1])
  }

  function StreakStart(polls: seq<Poll>): Instant {
    if Streak(polls) == 0 then ZERO_TIME else polls[|polls| - Streak(polls)].observedAt
  }

  function Samples(polls: seq<Poll>): seq<Sample> {
    if polls == [] then []
    else
      var last := polls[|polls| - 1];
      Samples(polls[..|polls| - 1]) +
      (match last.snapshot case Some(s) => [Sample(last.observedAt, s)] case None => [])
  }

  // A failed poll at least 30 seconds into its streak reports the outage.
  predicate ReportsOutage(polls: seq<Poll>) {
    polls != [] && Streak(polls) > 0
    && polls[|polls| - 1].observedAt - StreakStart(polls) >= TELEMT_UNREACHABLE_THRESHOLD
  }

  function Outages(polls: seq<Poll>): seq<Unreachable> {
    if polls == [] then []
    else
      Outages(polls[..|polls| - 1]) +
      (if ReportsOutage(polls) then [Unreachable(polls[|polls| - 1].observedAt, StreakStart(polls))] else [])
  }

  lemma StreakStartStays(polls: seq<Poll>, p: Poll)
    requires p.snapshot.None?
    ensures Streak(polls + [p]) == Streak(polls) + 1
    ensures StreakStart(polls + [p]) == (if Streak(polls) == 0 then p.observedAt else StreakStart(polls))
  {
    assert (polls + [p])[..|polls|] == polls;
  }

  // ---------------------------------------------------------------- the loop's state

  class RuntimePoller {
    var consecutiveFailures: nat
    var firstFailureAt: Instant
    var pushed: seq<Sample>
    var attempted: seq<Unreachable>

    constructor ()
      ensures InStep([])
    {
      consecutiveFailures, firstFailureAt := 0, ZERO_TIME;
      pushed, attempted := [], [];
    }

    // The fields say about a history exactly what the functions above say.
    predicate InStep(polls: seq<Poll>)
      reads this
    {
      && consecutiveFailures == Streak(polls)
      && firstFailureAt == StreakStart(polls)
      && pushed == Samples(polls)
      && attempted == Outages(polls)
    }

    method PerformRuntimePoll(p: Poll, ghost history: seq<Poll>)
      requires InStep(history)
      requires p.observedAt != ZERO_TIME && forall i :: 0 <= i < |history| ==> history[i].observedAt != ZERO_TIME
      modifies this
      ensures InStep(history + [p])
    {
      ghost var all := history + [p];
      assert all[..|history|] == history;
      if p.snapshot.None? {
        StreakStartStays(history, p);
        consecutiveFailures := consecutiveFailures + 1;
        if firstFailureAt == ZERO_TIME {
          firstFailureAt := p.observedAt;
        }
        if Saturate(p.observedAt - firstFailureAt) >= TELEMT_UNREACHABLE_THRESHOLD {
          attempted := attempted + [Unreachable(p.observedAt, firstFailureAt)];
        }
        return;
      }
      consecutiveFailures := 0;
      firstFailureAt := ZERO_TIME;
      pushed := pushed + [Sample(p.observedAt, p.snapshot.value)];
    }

    // runRuntimePollLoop over the polls that happen until the context is done.
    method RunRuntimePollLoop(polls: seq<Poll>)
      requires InStep([])
      requires forall i :: 0 <= i < |polls| ==> polls[i].observedAt != ZERO_TIME
      modifies this
      ensures InStep(polls)
    {
      for i := 0 to |polls|
        invariant InStep(polls[..i])
      {
        assert polls[..i + 1] == polls[..i] + [polls[i]];
        PerformRuntimePoll(polls[i], polls[..i]);
      }
      assert polls[..|polls|] == polls;
    }
  }

  // ---------------------------------------------------------------- consequences

  // u reports, at poll `at`, the streak of failures that began at poll `first`.
  predicate DatesStreak(polls: seq<Poll>, u: Unreachable, first: int, at: int) {
    && 0 <= first <= at < |polls|
    && u == Unreachable(polls[at].observedAt, polls[first].observedAt)
    && (forall i :: first <= i <= at ==> polls[i].snapshot.None?)
    && (first > 0 ==> polls[first - 1].snapshot.Some?)
    && u.observedAt - u.since >= 30 * SECOND
  }

  // Every reported outage dates from the first failure of the streak it was noticed in, at least 30 seconds later.
  lemma {:induction false} OutageDatesFromFirstFailure(polls: seq<Poll>, k: nat)
    requires k < |Outages(polls)|
    ensures exists first, at :: DatesStreak(polls, Outages(polls)[k], first, at)
  {
    var (before, n) := (polls[..|polls| - 1], |polls| - 1);
    if k < |Outages(before)| {
      OutageDatesFromFirstFailure(before, k);
      var first, at :| DatesStreak(before, Outages(before)[k], first, at);
      assert DatesStreak(polls, Outages(polls)[k], first, at);
    } else {
      assert DatesStreak(polls, Outages(polls)[k], |polls| - Streak(polls), n);
    }
  }

  // And no such poll is passed over.
  lemma {:induction false} LateFailureIsReported(polls: seq<Poll>, n: nat)
    requires n < |polls| && ReportsOutage(polls[..n + 1])
    ensures Unreachable(polls[n].observedAt, StreakStart(polls[..n + 1])) in Outages(polls)
  {
    if n == |polls| - 1 {
      assert polls[..n + 1] == polls;
    } else {
      var before := polls[..|polls| - 1];
      assert before[..n + 1] == polls[..n + 1];
      LateFailureIsReported(before, n);
    }
  }

  // Nor is one reported within the first 30 seconds.
  lemma EarlyFailureIsNotReported(polls: seq<Poll>)
    requires polls != [] && polls[|polls| - 1].observedAt - StreakStart(polls) < 30 * SECOND
    ensures Outages(polls) == Outages(polls[..|polls| - 1])
  {
  }

  function Successes(polls: seq<Poll>): nat {
    if polls == [] then 0 else Successes(polls[1..]) + (if polls[0].snapshot.Some? then 1 else 0)
  }

  lemma {:induction false} SuccessesSnoc(polls: seq<Poll>, p: Poll)
    ensures Successes(polls + [p]) == Successes(polls) + (if p.snapshot.Some? then 1 else 0)
  {
    if polls == [] {
      assert [] + [p] == [p] && [p][1..] == [];
    } else {
      SuccessesSnoc(polls[1..], p);
      assert (polls + [p])[1..] == polls[1..] + [p];
    }
  }

  // The samples that are pushed are the successful polls and no others, in order, with their times.
  lemma {:induction false} SamplesAreSuccesses(polls: seq<Poll>)
    ensures |Samples(polls)| == Successes(polls)
    ensures forall i :: 0 <= i < |polls| && polls[i].snapshot.Some? ==>
              Successes(polls[..i]) < |Samples(polls)|
              && Samples(polls)[Successes(polls[..i])] == Sample(polls[i].observedAt, polls[i].snapshot.value)
  {
    if polls != [] {
      var (before, n) := (polls[..|polls| - 1], |polls| - 1);
      SamplesAreSuccesses(before);
      SuccessesSnoc(before, polls[n]);
      assert before + [polls[n]] == polls;
      forall i | 0 <= i < n && polls[i].snapshot.Some?
        ensures Successes(polls[..i]) < |Samples(before)|
             && Samples(before)[Successes(polls[..i])] == Sample(polls[i].observedAt, polls[i].snapshot.value)
      {
        assert before[..i] == polls[..i] && before[i] == polls[i];
      }
    }
  }

  // ---------------------------------------------------------------- the next delay

  // steady is the interval the agent would use without failures.
  function NextRuntimePollDelay(steady: int, interval: int, consecutiveFailures: nat): int {
    if consecutiveFailures > 0 then
      var backoff := Wrap64(consecutiveFailures * interval);
      if backoff > MAX_POLL_BACKOFF then MAX_POLL_BACKOFF else backoff
    else steady
  }

  // After a poll that succeeded, and before the first one, the loop keeps its steady pace.
  lemma SteadyAfterSuccess(polls: seq<Poll>, steady: int, interval: int)
    requires polls == [] || polls[|polls| - 1].snapshot.Some?
    ensures NextRuntimePollDelay(steady, interval, Streak(polls)) == steady
  {
  }

  lemma WrappedProduct(n: nat)
    ensures var low := n % TWO_TO_64;
            Wrap64(n) == if low <= MAX_INT64 then low else low - TWO_TO_64
  {
    var low := n % TWO_TO_64;
    assert n == n / TWO_TO_64 * TWO_TO_64 + low;
    assert n + 0x8000_0000_0000_0000 == n / TWO_TO_64 * TWO_TO_64 + (low + 0x8000_0000_0000_0000);
    ModOfShifted(n / TWO_TO_64, low + 0x8000_0000_0000_0000);
  }

  lemma ModOfShifted(q: nat, r: nat)
    requires r < 2 * TWO_TO_64
    ensures (q * TWO_TO_64 + r) % TWO_TO_64 == if r < TWO_TO_64 then r else r - TWO_TO_64
  {
    var (q', r') := if r < TWO_TO_64 then (q, r) else (q + 1, r - TWO_TO_64);
    assert q * TWO_TO_64 + r == q' * TWO_TO_64 + r';
  }

  // The delay grows with the failures up to five minutes exactly while the product fits 64 bits, or wraps
  // to something that is still five minutes or more; it is a wait at all exactly while its low half is positive.
  lemma BackoffProportionalIff(steady: int, interval: int, consecutiveFailures: nat)
    requires 0 < interval && 0 < consecutiveFailures
    ensures var (n, delay) := (consecutiveFailures * interval, NextRuntimePollDelay(steady, interval, consecutiveFailures));
            && (delay == (if n <= 300 * SECOND then n else 300 * SECOND)
                <==> n <= MAX_INT64 || 300 * SECOND <= n % TWO_TO_64 <= MAX_INT64)
            && (delay > 0 <==> 1 <= n % TWO_TO_64 <= MAX_INT64)
  {
    var n := consecutiveFailures * interval;
    assert n > 0;
    WrappedProduct(n);
  }

  // The product is computed in 64 bits: with a poll interval of 30 days the delay is negative at the
  // 3,559th failure, which the five-minute cap lets come within two weeks.
  lemma BackoffOverflows(steady: int)
    ensures var interval := 720 * 3600 * SECOND;
            && NextRuntimePollDelay(steady, interval, 3_559) < 0
            && (forall k :: 0 < k < 3_559 ==> NextRuntimePollDelay(steady, interval, k) == MAX_POLL_BACKOFF)
            && 3_558 * MAX_POLL_BACKOFF < 14 * 24 * 3600 * SECOND
  {
    var interval := 720 * 3600 * SECOND;
    WrappedProduct(3_559 * interval);
    forall k | 0 < k < 3_559
      ensures NextRuntimePollDelay(steady, interval, k) == MAX_POLL_BACKOFF
    {
      BackoffProportionalIff(steady, interval, k);
    }
  }
}
