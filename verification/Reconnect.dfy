/**
 The reconnect loop's backoff (internal/agent/conn/reconnect.go): the delay of one attempt and
 the attempt counter over whole runs of the loop.
 */
module Reconnect {
  import opened Wrappers
  import opened GoNumbers

  const SECOND: int := 1_000_000_000
  const BASE_DELAY: int := SECOND
  const MAX_DELAY: int := 45 * SECOND

  function Pow2(n: nat): nat {
    if n == 0 then 1 else 2 * Pow2(n - 1)
  }

  function Min(a: int, b: int): int {
    if a < b then a else b
  }

  // ---------------------------------------------------------------- the delay of one attempt

  function Clamped(attempt: Int64): (k: Int64)
    ensures k >= 1
  {
    if attempt < 1 then 1 else attempt
  }

  // reconnectBaseDelay << min(attempt-1, 6), still in 64 bits.
  function Shifted(attempt: Int64): Int64 {
    var shift := Min(Clamped(attempt) - 1, 6);
    ShiftFits(shift);
    BASE_DELAY * Pow2(shift)
  }

  lemma ShiftFits(shift: nat)
    requires shift <= 6
    ensures 1 <= Pow2(shift) <= 64
  {
    assert Pow2(6) == 64 * Pow2(0);
    Pow2Monotone(shift, 6);
  }

  lemma {:induction false} Pow2Monotone(a: nat, b: nat)
    requires a <= b
    ensures 1 <= Pow2(a) <= Pow2(b)
    decreases b
  {
    if a < b {
      Pow2Monotone(a, b - 1);
    } else if a > 0 {
      Pow2Monotone(a - 1, a - 1);
    }
  }

  function Ceiling(attempt: Int64): Int64 {
    if Shifted(attempt) > MAX_DELAY then MAX_DELAY else Shifted(attempt)
  }

  // The bound handed to rand.Int64N, which panics unless it is positive.
  function JitterBound(attempt: Int64): Int64 {
    CeilingFacts(attempt);
    Ceiling(attempt) / 2 + 1
  }

  function ReconnectDelay(attempt: Int64, draw: int): int
    requires 0 <= draw < JitterBound(attempt)
  {
    Ceiling(attempt) / 2 + draw
  }

  lemma CeilingFacts(attempt: Int64)
    ensures BASE_DELAY <= Ceiling(attempt) <= MAX_DELAY
    ensures Ceiling(attempt) == Min(BASE_DELAY * Pow2(Min(Clamped(attempt) - 1, 6)), MAX_DELAY)
  {
    ShiftFits(Min(Clamped(attempt) - 1, 6));
  }

  // For every attempt and every draw: a positive jitter bound and a wait between half the ceiling and the ceiling.
  lemma DelayWithinBounds(attempt: Int64, draw: int)
    requires 0 <= draw < JitterBound(attempt)
    ensures 0 < JitterBound(attempt)
    ensures Ceiling(attempt) / 2 <= ReconnectDelay(attempt, draw) <= Ceiling(attempt)
    ensures BASE_DELAY / 2 <= ReconnectDelay(attempt, draw) <= MAX_DELAY
  {
    CeilingFacts(attempt);
  }

  // Every wait of that range comes from exactly one draw, so a uniform draw is a uniform wait.
  lemma EveryWaitFromOneDraw(attempt: Int64, wait: int)
    ensures Ceiling(attempt) / 2 <= wait <= Ceiling(attempt)
       <==> exists draw :: 0 <= draw < JitterBound(attempt) && ReconnectDelay(attempt, draw) == wait
    ensures forall d, e :: 0 <= d < JitterBound(attempt) && 0 <= e < JitterBound(attempt) && d != e ==>
              ReconnectDelay(attempt, d) != ReconnectDelay(attempt, e)
  {
    CeilingFacts(attempt);
    var draw := wait - Ceiling(attempt) / 2;
    if Ceiling(attempt) / 2 <= wait <= Ceiling(attempt) {
      assert Ceiling(attempt) % 2 == 0;
      assert 0 <= draw < JitterBound(attempt) && ReconnectDelay(attempt, draw) == wait;
    }
  }

  lemma CeilingMonotone(a: Int64, b: Int64)
    requires a <= b
    ensures Ceiling(a) <= Ceiling(b)
  {
    var (x, y) := (Min(Clamped(a) - 1, 6), Min(Clamped(b) - 1, 6));
    Pow2Monotone(x, y);
    CeilingFacts(a);
    CeilingFacts(b);
  }

  // ---------------------------------------------------------------- the loop

  datatype End = CleanEnd | RefreshedEnd | ErrorEnd(revoked: bool)

  /**
   How one iteration goes: the step that ends it, and whether the supervisor context is done
   once that step failed. A backoff wait that the supervisor cuts short leaves the loop like the
   check at the top of the next iteration would, so it is an iteration ShutdownAtTop.
   */
  datatype Iteration =
    | ShutdownAtTop
    | RecoveryFails(shutdown: bool)
    | RenewalFails(revoked: bool, shutdown: bool)
    | Connects(end: End, shutdown: bool)

  datatype Exit = Revoked | Shutdown

  predicate Succeeds(it: Iteration) {
    it.Connects? && (it.end.CleanEnd? || it.end.RefreshedEnd?)
  }

  // The iteration after which the loop is left, and with what.
  function Leaves(it: Iteration): Option<Exit> {
    match it
    case ShutdownAtTop => Some(Shutdown)
    case RecoveryFails(shutdown) => if shutdown then Some(Shutdown) else None
    case RenewalFails(revoked, shutdown) => if revoked then Some(Revoked) else if shutdown then Some(Shutdown) else None
    case Connects(end, shutdown) =>
      if Succeeds(it) then None else if end.revoked then Some(Revoked) else if shutdown then Some(Shutdown) else None
  }

  // A renewal or a connection that fails because the agent was revoked.
  predicate RevokedIn(it: Iteration) {
    it == RenewalFails(true, false) || it == RenewalFails(true, true)
    || it == Connects(ErrorEnd(true), false) || it == Connects(ErrorEnd(true), true)
  }

  // A failure that the supervisor's shutdown goes with, or a shutdown before the iteration.
  predicate ShutDownIn(it: Iteration) {
    it == ShutdownAtTop || it == RecoveryFails(true)
    || it == RenewalFails(false, true) || it == Connects(ErrorEnd(false), true)
  }

  // Failures since the last connection that ended well.
  function FailuresInARow(its: seq<Iteration>): (n: nat)
    ensures n <= |its|
    ensures forall i :: |its| - n <= i < |its| ==> !Succeeds(its[i])
    ensures n < |its| ==> Succeeds(its[|its| - n - 1])
  {
    if its == [] || Succeeds(its[|its| - 1]) then 0
    else 1 + FailuresInARow(its[..|its| - 1])
  }

  // The attempt numbers whose delays are waited out, one for each failed iteration.
  function Attempts(its: seq<Iteration>): seq<int> {
    if its == [] then []
    else
      Attempts(its[..|its| - 1]) + (if Succeeds(its[|its| - 1]) then [] else [FailuresInARow(its)])
  }

  // Runs the loop over the iterations that happen; it stops early when one of them leaves it.
  method Run(its: seq<Iteration>) returns (waits: seq<int>, reconnectAttempt: nat, done: nat, exit: Option<Exit>)
    ensures done <= |its| && forall i :: 0 <= i < done ==> Leaves(its[i]).None?
    ensures exit == (if done < |its| then Leaves(its[done]) else None) && (done < |its| ==> exit.Some?)
    // The first revoked or shut-down iteration is the last one, and its reason is what the loop returns.
    ensures forall i :: 0 <= i < done ==> !RevokedIn(its[i]) && !ShutDownIn(its[i])
    ensures exit == Some(Revoked) <==> done < |its| && RevokedIn(its[done])
    ensures exit == Some(Shutdown) <==> done < |its| && ShutDownIn(its[done])
    ensures reconnectAttempt == FailuresInARow(its[..done])
    ensures waits == Attempts(its[..done])
  {
    waits, reconnectAttempt, done, exit := [], 0, 0, None;
    while done < |its|
      invariant done <= |its| && forall i :: 0 <= i < done ==> Leaves(its[i]).None?
      invariant exit.None?
      invariant reconnectAttempt == FailuresInARow(its[..done])
      invariant waits == Attempts(its[..done])
    {
      assert its[..done + 1][..|its[..done + 1]| - 1] == its[..done];
      match its[done] {
        case ShutdownAtTop =>
          return waits, reconnectAttempt, done, Some(Shutdown);
        case RecoveryFails(shutdown) =>
          if shutdown {
            return waits, reconnectAttempt, done, Some(Shutdown);
          }
        case RenewalFails(revoked, shutdown) =>
          if revoked {
            return waits, reconnectAttempt, done, Some(Revoked);
          }
          if shutdown {
            return waits, reconnectAttempt, done, Some(Shutdown);
          }
        case Connects(end, shutdown) =>
          if end.CleanEnd? || end.RefreshedEnd? {
            reconnectAttempt := 0;
            done := done + 1;
            continue;
          }
          if end.revoked {
            return waits, reconnectAttempt, done, Some(Revoked);
          }
          if shutdown {
            return waits, reconnectAttempt, done, Some(Shutdown);
          }
      }
      reconnectAttempt := reconnectAttempt + 1;
      waits := waits + [reconnectAttempt];
      done := done + 1;
    }
  }

  // The k-th failure in a row waits at most min(2^min(k-1,6), 45) seconds and at least half of that.
  lemma {:induction false} KthFailureWaits(its: seq<Iteration>, k: Int64, draw: int)
    requires k == FailuresInARow(its) > 0
    requires 0 <= draw < JitterBound(k)
    ensures Attempts(its) != [] && Attempts(its)[|Attempts(its)| - 1] == k
    ensures var c := Min(SECOND * Pow2(Min(k - 1, 6)), 45 * SECOND);
            c / 2 <= ReconnectDelay(k, draw) <= c
  {
    CeilingFacts(k);
    DelayWithinBounds(k, draw);
  }
}
