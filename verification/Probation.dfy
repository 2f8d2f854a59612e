/**
 Transport-switch probation over whole runs: the copy in memory, the copy on disk, and every
 interleaving of switches, reverts, confirmations, reloads and unrelated writers.
 */
module Probation {
  import opened Wrappers
  import opened TransportSwitch

  datatype World = World(mem: Bundle, disk: Bundle)

  datatype Op =
    | Switch(mode: string, listenAddr: string, panelURL: string, now: int, diskOk: bool)
    | TryRevert(window: Duration, now: int, diskOk: bool)
    | Confirm(diskOk: bool)
    | Reload
    | OtherWrite(endpoint: string, serverName: string, identity: seq<string>)

  function Apply(w: World, op: Op): World {
    match op
    case Switch(mode, listenAddr, panelURL, now, diskOk) =>
      if diskOk then w.(disk := Switched(w.disk, mode, listenAddr, panelURL, now)) else w
    case TryRevert(window, now, diskOk) =>
      if !Due(w.mem, window, now) then w
      else
        var mem := Reverted(w.mem);
        World(mem, if diskOk then PatchTransport(w.disk, mem) else w.disk)
    case Confirm(diskOk) =>
      if w.mem == Confirmed(w.mem) then w
      else World(Confirmed(w.mem), if diskOk then Confirmed(w.disk) else w.disk)
    case Reload => w.(mem := w.disk)
    case OtherWrite(endpoint, serverName, identity) =>
      w.(disk := w.disk.(endpoint := endpoint, serverName := serverName, identity := identity))
  }

  function After(w: World, ops: seq<Op>): World {
    if ops == [] then w else Apply(After(w, ops[..|ops| - 1]), ops[|ops| - 1])
  }

  // ---------------------------------------------------------------- the invariant

  // A snapshot and a timestamp always come together, and the snapshot is of another mode.
  predicate ProbationOk(b: Bundle) {
    && (b.prev.Some? <==> b.switchedAt != 0)
    && (b.prev.Some? ==> b.prev.value.mode != b.mode)
  }

  // A switch of mode breaks it exactly when the clock stands at the epoch, where the timestamp means
  // "no probation".
  lemma SwitchKeepsProbationOkIff(b: Bundle, mode: string, listenAddr: string, panelURL: string, now: int)
    requires ProbationOk(b)
    ensures ProbationOk(Switched(b, mode, listenAddr, panelURL, now)) <==> b.mode == mode || now != 0
  {
  }

  predicate BothOk(w: World) {
    ProbationOk(w.mem) && ProbationOk(w.disk)
  }

  predicate ClockOk(w: World, op: Op) {
    op.Switch? && op.diskOk ==> w.disk.mode == op.mode || op.now != 0
  }

  lemma StepKeepsProbationIff(w: World, op: Op)
    requires BothOk(w)
    ensures BothOk(Apply(w, op)) <==> ClockOk(w, op)
  {
  }

  // In memory and on disk, at every point of a run, exactly when no switch of mode happens at the epoch.
  lemma {:induction false} RunKeepsProbationIff(w: World, ops: seq<Op>)
    requires BothOk(w)
    ensures (forall n :: 0 <= n <= |ops| ==> BothOk(After(w, ops[..n])))
       <==> (forall n :: 0 <= n < |ops| ==> ClockOk(After(w, ops[..n]), ops[n]))
  {
    if forall n :: 0 <= n < |ops| ==> ClockOk(After(w, ops[..n]), ops[n]) {
      forall n | 0 <= n <= |ops|
        ensures BothOk(After(w, ops[..n]))
      {
        ProbationOkUpTo(w, ops, n);
      }
    }
    if forall n :: 0 <= n <= |ops| ==> BothOk(After(w, ops[..n])) {
      forall n | 0 <= n < |ops|
        ensures ClockOk(After(w, ops[..n]), ops[n])
      {
        assert ops[..n + 1][..n] == ops[..n];
        assert BothOk(After(w, ops[..n])) && BothOk(After(w, ops[..n + 1]));
        StepKeepsProbationIff(After(w, ops[..n]), ops[n]);
      }
    }
  }

  lemma {:induction false} ProbationOkUpTo(w: World, ops: seq<Op>, n: nat)
    requires BothOk(w) && n <= |ops|
    requires forall i :: 0 <= i < n ==> ClockOk(After(w, ops[..i]), ops[i])
    ensures BothOk(After(w, ops[..n]))
  {
    if n > 0 {
      ProbationOkUpTo(w, ops, n - 1);
      assert ops[..n][..n - 1] == ops[..n - 1];
      StepKeepsProbationIff(After(w, ops[..n - 1]), ops[n - 1]);
    }
  }

  // So in every run whose clock never stands at the epoch.
  lemma ProbationOkInEveryRun(w: World, ops: seq<Op>)
    requires BothOk(w) && forall i :: 0 <= i < |ops| && ops[i].Switch? ==> ops[i].now != 0
    ensures BothOk(After(w, ops))
  {
    ProbationOkUpTo(w, ops, |ops|);
    assert ops[..|ops|] == ops;
  }

  // A switch at the epoch leaves a snapshot that no revert restores, at whatever time it is tried: its
  // probation never runs out.
  lemma {:induction false} EpochClockBreaksProbation(b: Bundle, mode: string, ops: seq<Op>)
    requires b.mode != mode && forall i :: 0 <= i < |ops| ==> ops[i].TryRevert? || ops[i].Reload?
    ensures var switched := Switched(b, mode, "", "", 0);
            After(World(switched, switched), ops) == World(switched, switched) && !ProbationOk(switched)
  {
    if ops != [] {
      EpochClockBreaksProbation(b, mode, ops[..|ops| - 1]);
    }
  }

  // ---------------------------------------------------------------- revert exactness

  // Nothing that ends the probation of a switch to `mode` at second `at`.
  predicate Quiet(op: Op, mode: string, at: int, window: Duration) {
    match op
    case Switch(m, _, _, _, _) => m == mode
    case TryRevert(w, now, _) => w == window && now < at * NANOS + Window(window)
    case Confirm(_) => false
    case _ => true
  }

  predicate AllQuiet(ops: seq<Op>, mode: string, at: int, window: Duration) {
    forall i :: 0 <= i < |ops| ==> Quiet(ops[i], mode, at, window)
  }

  predicate Armed(b: Bundle, before: Bundle, mode: string, at: int) {
    b.mode == mode && b.prev == Some(SnapshotOf(before)) && b.switchedAt == at
  }

  // A same-mode update keeps the snapshot and its timestamp, and reverts before the deadline do nothing.
  lemma QuietKeepsArmed(w: World, op: Op, before: Bundle, mode: string, at: int, window: Duration)
    requires Quiet(op, mode, at, window)
    requires Armed(w.mem, before, mode, at) && Armed(w.disk, before, mode, at)
    ensures Armed(Apply(w, op).mem, before, mode, at) && Armed(Apply(w, op).disk, before, mode, at)
    ensures op.TryRevert? ==> Apply(w, op) == w
  {
  }

  lemma {:induction false} QuietRunKeepsArmed(w: World, ops: seq<Op>, before: Bundle, mode: string, at: int, window: Duration)
    requires AllQuiet(ops, mode, at, window)
    requires Armed(w.mem, before, mode, at) && Armed(w.disk, before, mode, at)
    ensures Armed(After(w, ops).mem, before, mode, at) && Armed(After(w, ops).disk, before, mode, at)
  {
    if ops != [] {
      QuietRunKeepsArmed(w, ops[..|ops| - 1], before, mode, at, window);
    }
  }

  // After a switch, its reload and any quiet run, the revert at or past the deadline restores the
  // transport from before the switch; on disk it leaves every other field to its writers.
  lemma RevertRestoresExactly(before: Bundle, mode: string, listenAddr: string, panelURL: string, at: int,
                              ops: seq<Op>, window: Duration, now: int, diskOk: bool)
    requires mode != before.mode && at > 0
    requires AllQuiet(ops, mode, at, window)
    requires now >= at * NANOS + Window(window)
    ensures var switched := Switched(before, mode, listenAddr, panelURL, at);
            var late := After(World(switched, switched), ops);
            var end := Apply(late, TryRevert(window, now, diskOk));
            && end.mem.mode == before.mode && end.mem.listenAddr == before.listenAddr
            && end.mem.endpoint == (if before.endpoint != "" then before.endpoint else late.mem.endpoint)
            && end.mem.serverName == (if before.serverName != "" then before.serverName else late.mem.serverName)
            && end.mem.prev == None && end.mem.switchedAt == 0
            && (!diskOk ==> end.disk == late.disk)
            && (diskOk ==> end.disk.mode == end.mem.mode && end.disk.listenAddr == end.mem.listenAddr
                           && end.disk.endpoint == end.mem.endpoint && end.disk.serverName == end.mem.serverName
                           && end.disk.prev == None && end.disk.switchedAt == 0)
            && end.disk.panelURL == late.disk.panelURL && end.disk.identity == late.disk.identity
  {
    var switched := Switched(before, mode, listenAddr, panelURL, at);
    QuietRunKeepsArmed(World(switched, switched), ops, before, mode, at, window);
  }

  predicate NoOtherEndpoint(ops: seq<Op>, before: Bundle) {
    forall i :: 0 <= i < |ops| && ops[i].OtherWrite? ==>
      ops[i].endpoint == before.endpoint && ops[i].serverName == before.serverName
  }

  lemma {:induction false} EndpointUntouched(w: World, ops: seq<Op>, before: Bundle, mode: string, at: int, window: Duration)
    requires AllQuiet(ops, mode, at, window) && NoOtherEndpoint(ops, before)
    requires Armed(w.mem, before, mode, at) && Armed(w.disk, before, mode, at)
    requires w.mem.endpoint == w.disk.endpoint == before.endpoint
    requires w.mem.serverName == w.disk.serverName == before.serverName
    ensures After(w, ops).mem.endpoint == After(w, ops).disk.endpoint == before.endpoint
    ensures After(w, ops).mem.serverName == After(w, ops).disk.serverName == before.serverName
  {
    if ops != [] {
      EndpointUntouched(w, ops[..|ops| - 1], before, mode, at, window);
      QuietRunKeepsArmed(w, ops[..|ops| - 1], before, mode, at, window);
    }
  }

  // When nobody else moved the dial target, the revert restores all four fields, empty ones included.
  lemma RevertRestoresAllFour(before: Bundle, mode: string, listenAddr: string, panelURL: string, at: int,
                              ops: seq<Op>, window: Duration, now: int, diskOk: bool)
    requires mode != before.mode && at > 0
    requires AllQuiet(ops, mode, at, window) && NoOtherEndpoint(ops, before)
    requires now >= at * NANOS + Window(window)
    ensures var switched := Switched(before, mode, listenAddr, panelURL, at);
            SnapshotOf(Apply(After(World(switched, switched), ops), TryRevert(window, now, diskOk)).mem) == SnapshotOf(before)
  {
    var switched := Switched(before, mode, listenAddr, panelURL, at);
    RevertRestoresExactly(before, mode, listenAddr, panelURL, at, ops, window, now, diskOk);
    EndpointUntouched(World(switched, switched), ops, before, mode, at, window);
  }

  // ---------------------------------------------------------------- a confirmed switch

  predicate Settled(b: Bundle, mode: string, listenAddr: string) {
    b.mode == mode && b.listenAddr == listenAddr && b.prev == None && b.switchedAt == 0
  }

  predicate NoSwitch(ops: seq<Op>) {
    forall i :: 0 <= i < |ops| ==> !ops[i].Switch?
  }

  // After a switch, its reload and a confirmation that reached the disk: until the next switch neither a
  // revert, at whatever time, nor a reload or another writer moves mode and listen address again.
  lemma {:induction false} ConfirmedSwitchStays(before: Bundle, mode: string, listenAddr: string, panelURL: string, at: int, ops: seq<Op>)
    requires NoSwitch(ops)
    ensures var switched := Switched(before, mode, listenAddr, panelURL, at);
            var end := After(World(switched, switched), [Confirm(true)] + ops);
            Settled(end.mem, mode, listenAddr) && Settled(end.disk, mode, listenAddr)
  {
    var switched := Switched(before, mode, listenAddr, panelURL, at);
    var all := [Confirm(true)] + ops;
    if ops == [] {
      assert all[..0] == [];
    } else {
      ConfirmedSwitchStays(before, mode, listenAddr, panelURL, at, ops[..|ops| - 1]);
      assert all[..|all| - 1] == [Confirm(true)] + ops[..|ops| - 1];
    }
  }

  // Without another writer the dial target stays as well, on disk and in memory.
  lemma {:induction false} ConfirmedTargetStays(w: World, ops: seq<Op>)
    requires forall i :: 0 <= i < |ops| ==> ops[i].TryRevert? || ops[i].Reload? || ops[i].Confirm?
    requires w.mem == w.disk && w.mem.prev == None && w.mem.switchedAt == 0
    ensures After(w, ops) == w
  {
    if ops != [] {
      ConfirmedTargetStays(w, ops[..|ops| - 1]);
    }
  }

  // When the confirmation did not reach the disk, a later load brings the probation back: the confirmed
  // switch is reverted once the window is over.
  lemma ConfirmedSwitchStaysIff(before: Bundle, mode: string, listenAddr: string, panelURL: string, at: int,
                                confirmOk: bool, window: Duration, now: int, revertOk: bool)
    requires mode != before.mode && at != 0 && now >= at * NANOS + Window(window)
    ensures var switched := Switched(before, mode, listenAddr, panelURL, at);
            var ops := [Confirm(confirmOk), Reload, TryRevert(window, now, revertOk)];
            After(World(switched, switched), ops).mem.mode == mode <==> confirmOk
  {
    var switched := Switched(before, mode, listenAddr, panelURL, at);
    var ops := [Confirm(confirmOk), Reload, TryRevert(window, now, revertOk)];
    var w := World(switched, switched);
    var (one, two) := ([Confirm(confirmOk)], [Confirm(confirmOk), Reload]);
    assert one[..0] == [] && two[..1] == one && ops[..2] == two;
    assert After(w, one) == Apply(w, Confirm(confirmOk));
    assert After(w, two) == Apply(After(w, one), Reload);
  }
}
