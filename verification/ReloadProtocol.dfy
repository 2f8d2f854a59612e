/**
 Why no transport switch is lost (internal/agent/conn/connection.go, TransportReload and streamWG, with
 reconnect.go and cmd/agent/runtime.go): switch handlers write the disk and then raise the flag, the
 reconnect loop clears the flag and then reads the disk, and a connection's handlers are joined before
 the next iteration begins.
 */
module ReloadProtocol {
  datatype Phase =
    | Top       // takePending is next
    | Taken     // the flag was cleared, the load is next
    | Checked   // between the check of the flag and the workers of the next connection
    | Connected // workers run, switch handlers among them

  /** What the state file holds: the transport fields, and certificate and key. */
  datatype Bundle<T, C> = Bundle(transport: T, cert: C)

  /**
   `disk` is the state file and `mem` the loop's copy. `writers` counts switch handlers between their disk write and
   SetPending; `behind` says that a load or a patch of the loop failed and none succeeded since.
   */
  datatype State<T, C> = State(disk: Bundle<T, C>, mem: Bundle<T, C>, pending: bool, writers: nat, phase: Phase, behind: bool)

  datatype Step<T, C> =
    | Write(x: T)               // a handler's atomic update of the disk
    | SetPending                // ... and the flag it raises
    | TakeTrue | TakeFalse      // takePending
    | LoadOk | LoadFails
    | Patch(x: T, diskOk: bool) // the loop changes its copy and patches the disk: revert, confirm
    | Renew(cert: C)            // before connecting: the loop takes over the bundle the update returned
    | RenewInStream(cert: C)    // the connection's own renewal, which ends the connection
    | Connect | Retry           // the workers start, or the iteration fails before that
    | Disconnect                // the wait group is drained and the connection returns

  function Start<T, C>(x: T, c: C): State<T, C> {
    State(Bundle(x, c), Bundle(x, c), false, 0, Top, false)
  }

  // `joined`: the wait group holds the loop back until every handler is through. Without it a handler
  // could outlive its connection.
  predicate Enabled<T, C>(s: State<T, C>, step: Step<T, C>, joined: bool) {
    match step
    case Write(_) => s.phase.Connected? || !joined
    case SetPending => s.writers > 0
    case TakeTrue => s.phase.Top? && s.pending
    case TakeFalse => s.phase.Top? && !s.pending
    case LoadOk => s.phase.Taken?
    case LoadFails => s.phase.Taken?
    case Patch(_, _) => s.phase.Checked?
    case Renew(_) => s.phase.Checked?
    case RenewInStream(_) => s.phase.Connected?
    case Connect => s.phase.Checked?
    case Retry => s.phase.Checked?
    case Disconnect => s.phase.Connected? && (joined ==> s.writers == 0)
  }

  function Apply<T, C>(s: State<T, C>, step: Step<T, C>, joined: bool): State<T, C>
    requires Enabled(s, step, joined)
  {
    match step
    case Write(x) => s.(disk := s.disk.(transport := x), writers := s.writers + 1)
    case SetPending => s.(pending := true, writers := s.writers - 1)
    case TakeTrue => s.(pending := false, phase := Taken)
    case TakeFalse => s.(phase := Checked)
    case LoadOk => s.(mem := s.disk, phase := Checked, behind := false)
    case LoadFails => s.(phase := Checked, behind := true)
    case Patch(x, diskOk) =>
      var patched := s.(mem := s.mem.(transport := x));
      if diskOk then patched.(disk := s.disk.(transport := x)) else patched.(behind := true)
    case Renew(cert) =>
      var disk := s.disk.(cert := cert);
      s.(disk := disk, mem := disk, behind := false)
    case RenewInStream(cert) => s.(disk := s.disk.(cert := cert)) // runConnection returns the old copy
    case Connect => s.(phase := Connected)
    case Retry => s.(phase := Top)
    case Disconnect => s.(phase := Top)
  }

  predicate IsRun<T, C>(s: State<T, C>, steps: seq<Step<T, C>>, joined: bool)
    decreases steps
  {
    steps == [] || (Enabled(s, steps[0], joined) && IsRun(Apply(s, steps[0], joined), steps[1..], joined))
  }

  function After<T, C>(s: State<T, C>, steps: seq<Step<T, C>>, joined: bool): State<T, C>
    requires IsRun(s, steps, joined)
    decreases steps
  {
    if steps == [] then s else After(Apply(s, steps[0], joined), steps[1..], joined)
  }

  // ---------------------------------------------------------------- no switch is lost

  predicate SameTransport<T(==), C>(s: State<T, C>) {
    s.mem.transport == s.disk.transport
  }

  // The transport in memory can only differ from the disk while somebody is going to make up for it.
  predicate Covered<T(==), C(==)>(s: State<T, C>) {
    s.behind || SameTransport(s) || s.pending || s.writers > 0 || s.phase.Taken?
  }

  // With the join, no handler and no raised flag is left when the loop works on its copy.
  predicate Alone<T, C>(s: State<T, C>) {
    && (s.writers > 0 ==> s.phase.Connected?)
    && (s.pending ==> s.phase.Connected? || s.phase.Top?)
  }

  lemma {:induction false} RunKeepsCovered<T, C>(s: State<T, C>, steps: seq<Step<T, C>>, joined: bool)
    requires IsRun(s, steps, joined) && Covered(s)
    ensures Covered(After(s, steps, joined))
    decreases steps
  {
    if steps != [] {
      RunKeepsCovered(Apply(s, steps[0], joined), steps[1..], joined);
    }
  }

  lemma {:induction false} RunKeepsAlone<T, C>(s: State<T, C>, steps: seq<Step<T, C>>)
    requires IsRun(s, steps, true) && Alone(s)
    ensures Alone(After(s, steps, true))
    decreases steps
  {
    if steps != [] {
      RunKeepsAlone(Apply(s, steps[0], true), steps[1..]);
    }
  }

  // Even if handlers were not joined: whenever takePending returns false and the loop's last I/O
  // succeeded, memory equals the disk, or a handler is between its write and its SetPending.
  lemma NoSwitchLost<T, C>(x: T, c: C, steps: seq<Step<T, C>>, joined: bool)
    requires IsRun(Start(x, c), steps, joined)
    ensures var s := After(Start(x, c), steps, joined);
            Enabled(s, TakeFalse, joined) && !s.behind ==> SameTransport(s) || (s.writers > 0 && !joined)
  {
    RunKeepsCovered(Start(x, c), steps, joined);
    if joined {
      RunKeepsAlone(Start(x, c), steps);
    }
  }

  // What a revert or a confirmation replaces is a copy the loop has loaded, so no switch is overwritten.
  lemma PatchReplacesLoadedCopy<T, C>(x: T, c: C, steps: seq<Step<T, C>>, y: T, diskOk: bool)
    requires IsRun(Start(x, c), steps, true)
    ensures var s := After(Start(x, c), steps, true);
            Enabled(s, Patch(y, diskOk), true) && !s.behind ==> SameTransport(s) && s.writers == 0 && !s.pending
  {
    RunKeepsCovered(Start(x, c), steps, true);
    RunKeepsAlone(Start(x, c), steps);
  }

  // `behind` is set by nothing but a load or a patch that failed.
  lemma {:induction false} BehindOnlyAfterFailure<T, C>(s: State<T, C>, steps: seq<Step<T, C>>, joined: bool)
    requires IsRun(s, steps, joined) && After(s, steps, joined).behind
    ensures s.behind || exists i :: 0 <= i < |steps| && (steps[i].LoadFails? || (steps[i].Patch? && !steps[i].diskOk))
    decreases steps
  {
    if steps != [] {
      BehindOnlyAfterFailure(Apply(s, steps[0], joined), steps[1..], joined);
      if i :| 0 <= i < |steps[1..]| && (steps[1..][i].LoadFails? || (steps[1..][i].Patch? && !steps[1..][i].diskOk)) {
        assert steps[i + 1] == steps[1..][i];
      }
    }
  }

  // ---------------------------------------------------------------- which switch is held

  // What the last handler wrote; x when none did.
  function Wanted<T, C>(x: T, steps: seq<Step<T, C>>): T {
    if steps == [] then x
    else Wanted(if steps[0].Write? then steps[0].x else x, steps[1..])
  }

  // No patch of the loop reached the disk after the last switch did.
  predicate Undisturbed<T, C>(steps: seq<Step<T, C>>, sofar: bool) {
    if steps == [] then sofar
    else if steps[0].Write? then Undisturbed(steps[1..], true)
    else Undisturbed(steps[1..], sofar && !(steps[0].Patch? && steps[0].diskOk))
  }

  lemma {:induction false} DiskHoldsLastWritten<T, C>(s: State<T, C>, x: T, sofar: bool, steps: seq<Step<T, C>>, joined: bool)
    requires IsRun(s, steps, joined) && (sofar ==> s.disk.transport == x)
    ensures Undisturbed(steps, sofar) ==> After(s, steps, joined).disk.transport == Wanted(x, steps)
    decreases steps
  {
    if steps != [] {
      var step := steps[0];
      var x' := if step.Write? then step.x else x;
      var sofar' := step.Write? || (sofar && !(step.Patch? && step.diskOk));
      DiskHoldsLastWritten(Apply(s, step, joined), x', sofar', steps[1..], joined);
    }
  }

  // Then the loop that finds the flag down holds the very switch that was requested last.
  lemma LatestSwitchHeld<T, C>(x: T, c: C, steps: seq<Step<T, C>>)
    requires IsRun(Start(x, c), steps, true) && Undisturbed(steps, true)
    ensures var s := After(Start(x, c), steps, true);
            Enabled(s, TakeFalse, true) && !s.behind ==> s.mem.transport == Wanted(x, steps)
  {
    NoSwitchLost(x, c, steps, true);
    DiskHoldsLastWritten(Start(x, c), x, true, steps, true);
  }

  // ---------------------------------------------------------------- a load that fails

  // One pass of the loop over a raised flag: however many switches raised it, memory holds the disk
  // afterwards exactly when the load succeeded, or there was nothing to load.
  lemma PassHoldsDiskIff<T, C>(x: T, c: C, steps: seq<Step<T, C>>, load: Step<T, C>)
    requires IsRun(Start(x, c), steps, true) && Enabled(After(Start(x, c), steps, true), TakeTrue, true)
    requires load.LoadOk? || load.LoadFails?
    ensures var s := After(Start(x, c), steps, true);
            var t := Apply(Apply(s, TakeTrue, true), load, true);
            (SameTransport(t) <==> load.LoadOk? || SameTransport(s)) && (load.LoadOk? ==> t.mem == t.disk) && t.disk == s.disk && !t.pending && t.writers == 0
  {
    RunKeepsAlone(Start(x, c), steps);
  }

  // Nothing but these changes what memory or disk hold.
  predicate MakesUp<T, C>(step: Step<T, C>) {
    step.Write? || step.Patch? || step.Renew?
  }

  // A switch that a failed load passed over stays lost: no flag is up, so nothing loads it until the next
  // switch, patch or renewal.
  lemma {:induction false} PassedOverStays<T, C>(s: State<T, C>, steps: seq<Step<T, C>>, joined: bool)
    requires IsRun(s, steps, joined) && !s.pending && s.writers == 0 && !s.phase.Taken?
    requires forall i :: 0 <= i < |steps| ==> !MakesUp(steps[i])
    ensures var t := After(s, steps, joined);
            t.mem.transport == s.mem.transport && t.disk.transport == s.disk.transport && !t.pending && t.writers == 0 && !t.phase.Taken?
    decreases steps
  {
    if steps != [] {
      PassedOverStays(Apply(s, steps[0], joined), steps[1..], joined);
    }
  }

  lemma RunCons<T, C>(s: State<T, C>, step: Step<T, C>, rest: seq<Step<T, C>>, joined: bool)
    requires Enabled(s, step, joined) && IsRun(Apply(s, step, joined), rest, joined)
    ensures IsRun(s, [step] + rest, joined) && After(s, [step] + rest, joined) == After(Apply(s, step, joined), rest, joined)
  {
    assert ([step] + rest)[1..] == rest;
  }

  // A run that ends so.
  lemma FailedLoadLosesSwitch<T, C>(x: T, y: T, c: C)
    requires x != y
    ensures var steps := [TakeFalse, Connect, Write(y), SetPending, Disconnect, TakeTrue, LoadFails, Retry];
            IsRun(Start(x, c), steps, true)
            && var s := After(Start(x, c), steps, true); Enabled(s, TakeFalse, true) && s.mem.transport == x && s.disk.transport == y
  {
    var steps: seq<Step<T, C>> := [TakeFalse, Connect, Write(y), SetPending, Disconnect, TakeTrue, LoadFails, Retry];
    var s0: State<T, C> := Start(x, c);
    var s1 := Apply(s0, TakeFalse, true);
    var s2 := Apply(s1, Connect, true);
    var s3 := Apply(s2, Write(y), true);
    var s4 := Apply(s3, SetPending, true);
    var s5 := Apply(s4, Disconnect, true);
    var s6 := Apply(s5, TakeTrue, true);
    var s7 := Apply(s6, LoadFails, true);
    RunCons(s7, Retry, [], true);
    RunCons(s6, LoadFails, [Retry], true);
    RunCons(s5, TakeTrue, [LoadFails, Retry], true);
    RunCons(s4, Disconnect, [TakeTrue, LoadFails, Retry], true);
    RunCons(s3, SetPending, [Disconnect, TakeTrue, LoadFails, Retry], true);
    RunCons(s2, Write(y), [SetPending, Disconnect, TakeTrue, LoadFails, Retry], true);
    RunCons(s1, Connect, [Write(y), SetPending, Disconnect, TakeTrue, LoadFails, Retry], true);
    RunCons(s0, TakeFalse, [Connect, Write(y), SetPending, Disconnect, TakeTrue, LoadFails, Retry], true);
    assert steps == [TakeFalse] + [Connect, Write(y), SetPending, Disconnect, TakeTrue, LoadFails, Retry];
  }

  // ---------------------------------------------------------------- renewals

  predicate NoLoad<T, C>(steps: seq<Step<T, C>>) {
    forall i :: 0 <= i < |steps| ==> !steps[i].LoadOk? && !steps[i].Renew?
  }

  lemma {:induction false} CertStaysWithoutLoad<T, C>(s: State<T, C>, steps: seq<Step<T, C>>, joined: bool)
    requires IsRun(s, steps, joined) && NoLoad(steps)
    ensures After(s, steps, joined).mem.cert == s.mem.cert
    decreases steps
  {
    if steps != [] {
      CertStaysWithoutLoad(Apply(s, steps[0], joined), steps[1..], joined);
    }
  }

  // A renewed certificate is what the loop goes on with, until it loads or renews again, exactly when the
  // renewal was made before connecting (or brought the certificate the loop had already).
  lemma RenewalHeldIff<T, C>(x: T, c: C, steps: seq<Step<T, C>>, renewal: Step<T, C>, rest: seq<Step<T, C>>)
    requires renewal.Renew? || renewal.RenewInStream?
    requires IsRun(Start(x, c), steps, true) && Enabled(After(Start(x, c), steps, true), renewal, true)
    requires IsRun(Apply(After(Start(x, c), steps, true), renewal, true), rest, true) && NoLoad(rest)
    ensures var s := After(Start(x, c), steps, true);
            var t := After(Apply(s, renewal, true), rest, true);
            t.mem.cert == renewal.cert <==> renewal.Renew? || s.mem.cert == renewal.cert
  {
    CertStaysWithoutLoad(Apply(After(Start(x, c), steps, true), renewal, true), rest, true);
  }

  // A run in which all I/O succeeds and the loop is back at its top with the old certificate.
  lemma InStreamRenewalNotTakenOver<T, C>(x: T, c: C, d: C)
    requires c != d
    ensures var steps := [TakeFalse, Connect, RenewInStream(d), Disconnect];
            IsRun(Start(x, c), steps, true)
            && var s := After(Start(x, c), steps, true);
               Enabled(s, TakeFalse, true) && !s.behind && s.mem.cert == c && s.disk.cert == d
  {
    var steps: seq<Step<T, C>> := [TakeFalse, Connect, RenewInStream(d), Disconnect];
    var s0: State<T, C> := Start(x, c);
    var s1 := Apply(s0, TakeFalse, true);
    var s2 := Apply(s1, Connect, true);
    var s3 := Apply(s2, RenewInStream(d), true);
    RunCons(s3, Disconnect, [], true);
    RunCons(s2, RenewInStream(d), [Disconnect], true);
    RunCons(s1, Connect, [RenewInStream(d), Disconnect], true);
    RunCons(s0, TakeFalse, [Connect, RenewInStream(d), Disconnect], true);
    assert steps == [TakeFalse] + [Connect, RenewInStream(d), Disconnect];
  }

  // ---------------------------------------------------------------- why handlers are joined

  // A handler that outlived its connection could have its switch overwritten by a patch of the loop, and
  // the reload would bring back the patch. This run needs a wait group that does not wait.
  lemma WithoutJoinPatchOverwritesSwitch<T, C>(x: T, y: T, c: C)
    requires x != y
    ensures var steps := [TakeFalse, Write(y), Patch(x, true), SetPending, Retry, TakeTrue, LoadOk, Retry];
            IsRun(Start(x, c), steps, false) && !IsRun(Start(x, c), steps, true)
            && var s := After(Start(x, c), steps, false);
               Enabled(s, TakeFalse, false) && !s.behind && s.writers == 0 && s.mem.transport != Wanted(x, steps)
  {
    var steps: seq<Step<T, C>> := [TakeFalse, Write(y), Patch(x, true), SetPending, Retry, TakeTrue, LoadOk, Retry];
    var s0: State<T, C> := Start(x, c);
    var s1 := Apply(s0, TakeFalse, false);
    var s2 := Apply(s1, Write(y), false);
    var s3 := Apply(s2, Patch(x, true), false);
    var s4 := Apply(s3, SetPending, false);
    var s5 := Apply(s4, Retry, false);
    var s6 := Apply(s5, TakeTrue, false);
    var s7 := Apply(s6, LoadOk, false);
    RunCons(s7, Retry, [], false);
    RunCons(s6, LoadOk, [Retry], false);
    RunCons(s5, TakeTrue, [LoadOk, Retry], false);
    RunCons(s4, Retry, [TakeTrue, LoadOk, Retry], false);
    RunCons(s3, SetPending, [Retry, TakeTrue, LoadOk, Retry], false);
    RunCons(s2, Patch(x, true), [SetPending, Retry, TakeTrue, LoadOk, Retry], false);
    RunCons(s1, Write(y), [Patch(x, true), SetPending, Retry, TakeTrue, LoadOk, Retry], false);
    RunCons(s0, TakeFalse, [Write(y), Patch(x, true), SetPending, Retry, TakeTrue, LoadOk, Retry], false);
    assert steps == [TakeFalse] + [Write(y), Patch(x, true), SetPending, Retry, TakeTrue, LoadOk, Retry];
    assert !Enabled(s1, Write(y), true);
    assert Wanted(x, steps) == Wanted(x, steps[1..]) == Wanted(y, steps[1..][1..]) == y;
  }
}
