/**
 How one connection's main loop ends (internal/agent/conn/connection.go, runConnectionMainLoop)
 while pumps report errors with sendErrorAndCancel and others cancel the connection.
 */
module MainLoop {
  import opened Wrappers

  datatype Outcome =
    | Clean                 // nil: the reconnect loop starts its backoff anew
    | Failed(error: string)
    | CredentialsRefreshed

  datatype Phase =
    | Selecting             // the loop's select
    | SawDone               // the Done case won: the inner select with a default is next
    | Renewing              // an in-stream renewal is under way
    | Returned(outcome: Outcome)

  /** The one-element error buffer, the connection context, and the loop. */
  datatype Conn = Conn(
    queued: Option<string>,
    done: bool,
    doneByError: bool,      // the cancel that made the context done came from sendErrorAndCancel
    reporting: nat,         // goroutines between sendError and their cancelConnection
    phase: Phase)

  datatype Step =
    | SendError(error: string)   // sendError: a non-blocking send to the buffer
    | CancelAfterError           // ... and the cancelConnection that follows it
    | CancelElsewhere            // a transport switch, the stream watcher, the supervisor
    | LoopSeesDone | LoopTakesError
    | InnerTakesError | InnerDefault
    | RefreshNotDue | RenewalStarts | RenewalFails | RenewalSucceeds

  function Start(): Conn {
    Conn(None, false, false, 0, Selecting)
  }

  predicate Enabled(s: Conn, step: Step) {
    match step
    case SendError(_) => true
    case CancelAfterError => s.reporting > 0
    case CancelElsewhere => true
    case LoopSeesDone => s.phase.Selecting? && s.done
    case LoopTakesError => s.phase.Selecting? && s.queued.Some?
    case InnerTakesError => s.phase.SawDone? && s.queued.Some?
    case InnerDefault => s.phase.SawDone? && s.queued.None?
    case RefreshNotDue => s.phase.Selecting?
    case RenewalStarts => s.phase.Selecting?
    case RenewalFails => s.phase.Renewing?
    case RenewalSucceeds => s.phase.Renewing?
  }

  function Apply(s: Conn, step: Step): Conn
    requires Enabled(s, step)
  {
    match step
    case SendError(e) => s.(queued := if s.queued.None? then Some(e) else s.queued, reporting := s.reporting + 1)
    case CancelAfterError => s.(reporting := s.reporting - 1, done := true, doneByError := s.doneByError || !s.done)
    case CancelElsewhere => s.(done := true)
    case LoopSeesDone => s.(phase := SawDone)
    case LoopTakesError => s.(phase := Returned(Failed(s.queued.value)), queued := None, done := true)
    case InnerTakesError => s.(phase := Returned(Failed(s.queued.value)), queued := None)
    case InnerDefault => s.(phase := Returned(Clean))
    case RefreshNotDue => s
    case RenewalStarts => s.(phase := Renewing)
    case RenewalFails => s.(phase := Selecting)
    case RenewalSucceeds => s.(phase := Returned(CredentialsRefreshed), done := true)
  }

  predicate IsRun(s: Conn, steps: seq<Step>)
    decreases steps
  {
    steps == [] || (Enabled(s, steps[0]) && IsRun(Apply(s, steps[0]), steps[1..]))
  }

  function After(s: Conn, steps: seq<Step>): Conn
    requires IsRun(s, steps)
    decreases steps
  {
    if steps == [] then s else After(Apply(s, steps[0]), steps[1..])
  }

  // ---------------------------------------------------------------- an error is not taken for a clean end

  // Until the loop returns, an error that was reported is still in the buffer.
  predicate ErrorKept(s: Conn) {
    && (!s.phase.Returned? && s.reporting > 0 ==> s.queued.Some?)
    && (!s.phase.Returned? && s.doneByError ==> s.queued.Some?)
    && (s.phase.SawDone? || s.phase == Returned(Clean) ==> s.done)
  }

  // An error that is in the buffer while the loop still runs stays there until the loop takes it.
  lemma {:induction false} ReportedErrorReturned(s: Conn, steps: seq<Step>)
    requires IsRun(s, steps) && !s.phase.Returned? && s.queued.Some?
    ensures var t := After(s, steps);
            (!t.phase.Returned? ==> t.queued == s.queued) && t.phase != Returned(Clean)
    decreases steps
  {
    if steps != [] {
      var t := Apply(s, steps[0]);
      if t.phase.Returned? {
        ReturnedStays(t, steps[1..]);
      } else {
        ReportedErrorReturned(t, steps[1..]);
      }
    }
  }

  lemma {:induction false} ReturnedStays(s: Conn, steps: seq<Step>)
    requires IsRun(s, steps) && s.phase.Returned?
    ensures After(s, steps).phase == s.phase
    ensures s.done ==> After(s, steps).doneByError == s.doneByError
    decreases steps
  {
    if steps != [] {
      ReturnedStays(Apply(s, steps[0]), steps[1..]);
    }
  }

  lemma {:induction false} CleanMeansNotByError(s: Conn, steps: seq<Step>)
    requires IsRun(s, steps) && ErrorKept(s)
    requires s.phase == Returned(Clean) ==> !s.doneByError
    ensures After(s, steps).phase == Returned(Clean) ==> !After(s, steps).doneByError
    decreases steps
  {
    if steps != [] {
      CleanMeansNotByError(Apply(s, steps[0]), steps[1..]);
    }
  }

  // If the connection ended through sendErrorAndCancel, the loop does not return nil,
  // whichever ready case its selects pick.
  lemma ErrorCancelNeverClean(steps: seq<Step>)
    requires IsRun(Start(), steps) && After(Start(), steps).doneByError
    ensures After(Start(), steps).phase != Returned(Clean)
  {
    CleanMeansNotByError(Start(), steps);
  }

  predicate Reports(steps: seq<Step>) {
    exists i :: 0 <= i < |steps| && steps[i].SendError?
  }

  // Exactly: the loop that looks at the buffer after Done returns nil iff nobody has reported an error so far.
  lemma {:induction false} BufferRemembers(s: Conn, steps: seq<Step>)
    requires IsRun(s, steps) && !After(s, steps).phase.Returned?
    ensures After(s, steps).queued.Some? <==> s.queued.Some? || Reports(steps)
    decreases steps
  {
    if steps != [] {
      var t := Apply(s, steps[0]);
      if t.phase.Returned? {
        ReturnedStays(t, steps[1..]);
      }
      BufferRemembers(t, steps[1..]);
      assert Reports(steps) <==> steps[0].SendError? || Reports(steps[1..]) by {
        if i :| 0 <= i < |steps| && steps[i].SendError? {
          assert i > 0 ==> steps[1..][i - 1] == steps[i];
        }
        if i :| 0 <= i < |steps[1..]| && steps[1..][i].SendError? {
          assert steps[i + 1] == steps[1..][i];
        }
      }
    }
  }

  lemma CleanIffNothingReported(steps: seq<Step>, last: Step)
    requires IsRun(Start(), steps) && After(Start(), steps).phase.SawDone?
    requires last.InnerTakesError? || last.InnerDefault?
    ensures Enabled(After(Start(), steps), last) ==>
              (Apply(After(Start(), steps), last).phase == Returned(Clean) <==> !Reports(steps))
    ensures Enabled(After(Start(), steps), InnerTakesError) || Enabled(After(Start(), steps), InnerDefault)
  {
    BufferRemembers(Start(), steps);
  }

  // ---------------------------------------------------------------- what the loop returns, exactly

  // The error of the first report; later ones find the buffer full.
  function FirstReport(steps: seq<Step>): Option<string> {
    if steps == [] then None
    else if steps[0].SendError? then Some(steps[0].error)
    else FirstReport(steps[1..])
  }

  predicate Cancels(step: Step) {
    step.CancelAfterError? || step.CancelElsewhere?
  }

  lemma {:induction false} BufferHoldsFirst(s: Conn, steps: seq<Step>)
    requires IsRun(s, steps) && !After(s, steps).phase.Returned?
    ensures After(s, steps).queued == (if s.queued.Some? then s.queued else FirstReport(steps))
    decreases steps
  {
    if steps != [] {
      var t := Apply(s, steps[0]);
      if t.phase.Returned? {
        ReturnedStays(t, steps[1..]);
      }
      BufferHoldsFirst(t, steps[1..]);
    }
  }

  // A context that is done has been cancelled, before the loop returns at any rate.
  lemma {:induction false} DoneWasCancelled(s: Conn, steps: seq<Step>)
    requires IsRun(s, steps) && !After(s, steps).phase.Returned? && After(s, steps).done
    ensures s.done || exists i :: 0 <= i < |steps| && Cancels(steps[i])
    decreases steps
  {
    if steps != [] && !s.done && !Cancels(steps[0]) {
      var t := Apply(s, steps[0]);
      if t.phase.Returned? {
        ReturnedStays(t, steps[1..]);
      }
      DoneWasCancelled(t, steps[1..]);
      var i :| 0 <= i < |steps[1..]| && Cancels(steps[1..][i]);
      assert Cancels(steps[i + 1]);
    }
  }

  // The loop returned at step n, with what that step stands for: the first error that was reported, a
  // renewal, or nil after a cancel and without any report.
  predicate ReturnedAt(steps: seq<Step>, n: nat, outcome: Outcome) {
    && n < |steps|
    && match steps[n]
       case LoopTakesError => FirstReport(steps[..n]).Some? && outcome == Failed(FirstReport(steps[..n]).value)
       case InnerTakesError => FirstReport(steps[..n]).Some? && outcome == Failed(FirstReport(steps[..n]).value)
       case RenewalSucceeds => outcome == CredentialsRefreshed
       case InnerDefault =>
         outcome == Clean && FirstReport(steps[..n]).None? && exists i :: 0 <= i < n && Cancels(steps[i])
       case _ => false
  }

  lemma {:induction false} OutcomeExplained(steps: seq<Step>)
    requires IsRun(Start(), steps) && After(Start(), steps).phase.Returned?
    ensures exists n :: 0 <= n < |steps| && ReturnedAt(steps, n, After(Start(), steps).phase.outcome)
    ensures After(Start(), steps).done
  {
    var n := |steps| - 1;
    var before := steps[..n];
    SplitRun(Start(), steps, n);
    var s := After(Start(), before);
    var step := steps[n];
    assert steps[n..] == [step];
    if s.phase.Returned? {
      OutcomeExplained(before);
      var m :| 0 <= m < |before| && ReturnedAt(before, m, s.phase.outcome);
      assert steps[..m] == before[..m];
      assert ReturnedAt(steps, m, s.phase.outcome);
    } else {
      BufferHoldsFirst(Start(), before);
      SawDoneMeansDone(Start(), before);
      if step.InnerDefault? {
        DoneWasCancelled(Start(), before);
        var i :| 0 <= i < |before| && Cancels(before[i]);
        assert Cancels(steps[i]);
      }
      assert ReturnedAt(steps, n, Apply(s, step).phase.outcome);
    }
  }

  lemma {:induction false} SawDoneMeansDone(s: Conn, steps: seq<Step>)
    requires IsRun(s, steps) && (s.phase.SawDone? ==> s.done)
    ensures After(s, steps).phase.SawDone? ==> After(s, steps).done
    decreases steps
  {
    if steps != [] {
      SawDoneMeansDone(Apply(s, steps[0]), steps[1..]);
    }
  }

  lemma {:induction false} SplitRun(s: Conn, steps: seq<Step>, n: nat)
    requires IsRun(s, steps) && n <= |steps|
    ensures IsRun(s, steps[..n]) && IsRun(After(s, steps[..n]), steps[n..])
    ensures After(s, steps) == After(After(s, steps[..n]), steps[n..])
    decreases steps
  {
    if n > 0 {
      SplitRun(Apply(s, steps[0]), steps[1..], n - 1);
      assert steps[..n][1..] == steps[1..][..n - 1] && steps[n..] == steps[1..][n - 1..];
    } else {
      assert steps[0..] == steps;
    }
  }

  // So a renewal is reported only when one succeeded, and an error that was reported is never a success.
  lemma RefreshedOnlyAfterRenewal(steps: seq<Step>)
    requires IsRun(Start(), steps) && After(Start(), steps).phase == Returned(CredentialsRefreshed)
    ensures exists n :: 0 <= n < |steps| && steps[n].RenewalSucceeds?
  {
    OutcomeExplained(steps);
    var n :| 0 <= n < |steps| && ReturnedAt(steps, n, CredentialsRefreshed);
  }
}
