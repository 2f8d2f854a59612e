/**
 Teardown of one connection (internal/agent/conn/connection.go, runConnection): the goroutines
 joined by streamWG, the two contexts, and the bridge that cancels the dial context once the
 connection context is done. Schedules are infinite; a select picks any ready case.
 */
module Teardown {
  datatype Kind = InboundPump | OutboundPump | JobWorker | PollingWorker | EventsPusher | ClientDataHandler

  datatype Phase =
    | AtSelect    // in a select that has a connectionCtx.Done() case
    | Busy        // in a call that returns: a stream send, an agent operation, routing one message
    | AtSend      // in a select between connectionCtx.Done() and a channel send
    | InRecv      // in stream.Recv()
    | AtSemaphore // the inbound pump waits for a client-data slot or connectionCtx.Done()
    | Exited

  datatype Worker = Worker(kind: Kind, phase: Phase)

  datatype Runner =
    | Calling   // the initial messages or a renewal, under the connection context or a timeout
    | Selecting // the main loop's select
    | Waiting   // the deferred streamWG.Wait

  datatype Conn = Conn(
    connDone: bool,       // connectionCtx
    dialDone: bool,       // dialCtx
    runner: Runner,
    workers: seq<Worker>, // the inbound pump first
    wg: nat)              // the wait group's counter

  // The phases a goroutine of each kind goes through.
  predicate Allowed(w: Worker) {
    w.phase == Exited ||
    match w.kind
    case InboundPump => w.phase in {InRecv, Busy, AtSemaphore}
    case JobWorker => w.phase in {AtSelect, Busy, AtSend}
    case ClientDataHandler => w.phase in {Busy, AtSend}
    case _ => w.phase in {AtSelect, Busy}
  }

  // Where a context that is done lets the goroutine leave.
  predicate ExitCase(s: Conn, phase: Phase) {
    match phase
    case AtSelect => s.connDone
    case AtSend => s.connDone
    case AtSemaphore => s.connDone
    case InRecv => s.dialDone // the transport's promise: Recv fails once dialCtx is done
    case _ => false
  }

  predicate Moves(s: Conn, kind: Kind, from: Phase, to: Phase) {
    || (to == Exited && ExitCase(s, from))
    || (match kind
        case InboundPump =>
          || (from == InRecv && !s.dialDone && to in {Busy, AtSemaphore, Exited})
          || (from == Busy && to == InRecv)
        case OutboundPump => (from == AtSelect && to == Busy) || (from == Busy && to in {AtSelect, Exited})
        case JobWorker => (from == AtSelect && to == Busy) || (from == Busy && to == AtSend) || (from == AtSend && to == AtSelect)
        case ClientDataHandler => (from == Busy && to == AtSend) || (from == AtSend && to == Exited)
        case _ => (from == AtSelect && to == Busy) || (from == Busy && to == AtSelect))
  }

  // A stream error is reported with sendErrorAndCancel.
  predicate ReportsError(kind: Kind, from: Phase, to: Phase) {
    to == Exited && ((kind == OutboundPump && from == Busy) || (kind == InboundPump && from == InRecv))
  }

  function MoveWorker(s: Conn, k: nat, to: Phase): Conn
    requires k < |s.workers|
  {
    var w := s.workers[k];
    s.(workers := s.workers[k := w.(phase := to)],
       wg := if to == Exited && s.wg > 0 then s.wg - 1 else s.wg,
       connDone := s.connDone || ReportsError(w.kind, w.phase, to))
  }

  predicate WorkerStep(s: Conn, t: Conn, k: nat, to: Phase) {
    && k < |s.workers| && s.workers[k].phase != Exited
    && Moves(s, s.workers[k].kind, s.workers[k].phase, to)
    && t == MoveWorker(s, k, to)
  }

  // The inbound pump got a slot: it starts a handler and goes back to Recv.
  predicate SpawnStep(s: Conn, t: Conn) {
    && s.workers != [] && s.workers[0] == Worker(InboundPump, AtSemaphore)
    && t == s.(workers := s.workers[0 := Worker(InboundPump, InRecv)] + [Worker(ClientDataHandler, Busy)], wg := s.wg + 1)
  }

  predicate StartStep(s: Conn, t: Conn) {
    && !s.runner.Waiting?
    && t.workers != [] && t == s.(workers := s.workers + [t.workers[|t.workers| - 1]], wg := s.wg + 1)
    && t.workers[|t.workers| - 1] in {Worker(JobWorker, AtSelect), Worker(OutboundPump, AtSelect),
                                      Worker(PollingWorker, AtSelect), Worker(EventsPusher, AtSelect)}
  }

  predicate BridgeEnabled(s: Conn) {
    s.connDone && !s.dialDone
  }

  // The runner returns by cancelling the connection and waiting: after a call that failed, a renewal or an
  // error that was reported, and in the main loop's select once the connection is done.
  predicate RunnerStep(s: Conn, t: Conn) {
    || (s.runner.Calling? && t == s.(runner := Selecting))
    || (s.runner.Selecting? && t == s.(runner := Calling))
    || (!s.runner.Waiting? && t == s.(connDone := true, runner := Waiting))
  }

  ghost predicate Next(s: Conn, t: Conn, bridged: bool) {
    || t == s
    || t == s.(connDone := true)                 // a transport switch, the stream's end
    || t == s.(connDone := true, dialDone := true) // the supervisor stops
    || t == s.(dialDone := true)                 // the deadline of a probation
    || RunnerStep(s, t)
    || (bridged && BridgeEnabled(s) && t == s.(dialDone := true))
    || StartStep(s, t)
    || SpawnStep(s, t)
    || exists k: nat, to :: WorkerStep(s, t, k, to)
  }

  // ---------------------------------------------------------------- the counter counts

  function Live(workers: seq<Worker>): nat {
    if workers == [] then 0
    else (if workers[|workers| - 1].phase == Exited then 0 else 1) + Live(workers[..|workers| - 1])
  }

  ghost predicate Valid(s: Conn) {
    && s.wg == Live(s.workers)
    && (s.runner.Waiting? ==> s.connDone)
    && s.workers != [] && s.workers[0].kind == InboundPump
    && (forall k :: 0 < k < |s.workers| ==> s.workers[k].kind != InboundPump)
    && (forall k :: 0 <= k < |s.workers| ==> Allowed(s.workers[k]))
  }

  function Fresh(): Conn {
    Conn(false, false, Calling, [Worker(InboundPump, InRecv)], 1)
  }

  lemma {:induction false} LiveUpdate(workers: seq<Worker>, k: nat, w: Worker)
    requires k < |workers| && workers[k].phase != Exited
    ensures Live(workers[k := w]) == Live(workers) - (if w.phase == Exited then 1 else 0)
  {
    var last := |workers| - 1;
    if k < last {
      LiveUpdate(workers[..last], k, w);
      assert workers[k := w][..last] == workers[..last][k := w];
    } else {
      assert workers[k := w][..last] == workers[..last];
    }
  }

  lemma LiveSnoc(workers: seq<Worker>, w: Worker)
    ensures Live(workers + [w]) == Live(workers) + (if w.phase == Exited then 0 else 1)
  {
    assert (workers + [w])[..|workers|] == workers;
  }

  lemma WorkerStepKeepsValid(s: Conn, t: Conn, k: nat, to: Phase)
    requires Valid(s) && WorkerStep(s, t, k, to)
    ensures Valid(t)
  {
    LiveUpdate(s.workers, k, s.workers[k].(phase := to));
    LivePositive(s.workers, k);
    assert Allowed(t.workers[k]);
  }

  lemma SpawnKeepsValid(s: Conn, t: Conn)
    requires Valid(s) && SpawnStep(s, t)
    ensures Valid(t)
  {
    LiveUpdate(s.workers, 0, Worker(InboundPump, InRecv));
    LiveSnoc(s.workers[0 := Worker(InboundPump, InRecv)], Worker(ClientDataHandler, Busy));
  }

  lemma StartKeepsValid(s: Conn, t: Conn)
    requires Valid(s) && StartStep(s, t)
    ensures Valid(t)
  {
    LiveSnoc(s.workers, t.workers[|t.workers| - 1]);
  }

  // The counter is exactly the number of goroutines that have not exited, in every reachable state.
  lemma NextKeepsValid(s: Conn, t: Conn, bridged: bool)
    requires Valid(s) && Next(s, t, bridged)
    ensures Valid(t)
  {
    if SpawnStep(s, t) {
      SpawnKeepsValid(s, t);
    } else if StartStep(s, t) {
      StartKeepsValid(s, t);
    } else if k: nat, to :| WorkerStep(s, t, k, to) {
      WorkerStepKeepsValid(s, t, k, to);
    }
  }

  lemma {:induction false} LivePositive(workers: seq<Worker>, k: nat)
    requires k < |workers| && workers[k].phase != Exited
    ensures Live(workers) > 0
  {
    if k < |workers| - 1 {
      LivePositive(workers[..|workers| - 1], k);
    }
  }

  lemma {:induction false} NoneLive(workers: seq<Worker>)
    requires forall k :: 0 <= k < |workers| ==> workers[k].phase == Exited
    ensures Live(workers) == 0
  {
    if workers != [] {
      NoneLive(workers[..|workers| - 1]);
    }
  }

  // ---------------------------------------------------------------- schedules and fairness

  type Schedule = nat -> Conn

  ghost predicate StepAt(run: Schedule, i: nat, bridged: bool) {
    Next(run(i), run(i + 1), bridged)
  }

  predicate IsBusy(s: Conn, k: nat) {
    k < |s.workers| && s.workers[k].phase == Busy
  }

  predicate HasExited(s: Conn, k: nat) {
    k < |s.workers| && s.workers[k].phase == Exited
  }

  predicate CanExit(s: Conn, k: nat) {
    k < |s.workers| && ExitCase(s, s.workers[k].phase)
  }

  ghost predicate ExitsAt(run: Schedule, k: nat, i: nat) {
    !HasExited(run(i), k) && HasExited(run(i + 1), k)
  }

  ghost predicate ReturnsAfter(run: Schedule, i: nat, k: nat) {
    exists j: nat :: i <= j && !IsBusy(run(j), k)
  }

  // A call that runs under cancelled contexts returns.
  ghost predicate CallsReturn(run: Schedule) {
    forall i: nat, k: nat :: run(i).dialDone ==> ReturnsAfter(run, i, k)
  }

  ghost predicate BridgeIdleAfter(run: Schedule, i: nat) {
    exists j: nat :: i <= j && !BridgeEnabled(run(j))
  }

  // The bridge goroutine is not kept waiting for ever when it has something to do.
  ghost predicate BridgeRuns(run: Schedule) {
    forall i: nat :: BridgeIdleAfter(run, i)
  }

  ghost predicate CanExitAfter(run: Schedule, i: nat, k: nat) {
    exists j: nat :: i <= j && CanExit(run(j), k)
  }

  ghost predicate CanExitAgainAndAgain(run: Schedule, k: nat) {
    forall i: nat :: CanExitAfter(run, i, k)
  }

  ghost predicate EverExits(run: Schedule, k: nat) {
    exists j: nat :: ExitsAt(run, k, j)
  }

  // A select whose Done case is ready again and again takes it eventually.
  ghost predicate SelectsAreFair(run: Schedule) {
    forall k: nat :: CanExitAgainAndAgain(run, k) ==> EverExits(run, k)
  }

  ghost predicate RunnerIdleAfter(run: Schedule, i: nat) {
    exists j: nat :: i <= j && !run(j).runner.Calling?
  }

  // The runner's calls return as well.
  ghost predicate RunnerCallsReturn(run: Schedule) {
    forall i: nat :: RunnerIdleAfter(run, i)
  }

  predicate RunnerCanLeave(s: Conn) {
    s.runner.Selecting? && s.connDone
  }

  ghost predicate RunnerCanLeaveAfter(run: Schedule, i: nat) {
    exists j: nat :: i <= j && RunnerCanLeave(run(j))
  }

  ghost predicate WaitsSomeTime(run: Schedule) {
    exists j: nat :: run(j).runner.Waiting?
  }

  // And so does its select take the Done case eventually.
  ghost predicate RunnerIsFair(run: Schedule) {
    (forall i: nat :: RunnerCanLeaveAfter(run, i)) ==> WaitsSomeTime(run)
  }

  ghost predicate Execution(run: Schedule, bridged: bool) {
    Valid(run(0)) && forall i: nat :: StepAt(run, i, bridged)
  }

  ghost predicate FairSchedule(run: Schedule, bridged: bool) {
    && Execution(run, bridged)
    && CallsReturn(run) && SelectsAreFair(run) && RunnerCallsReturn(run) && RunnerIsFair(run)
    && (bridged ==> BridgeRuns(run))
  }

  // ---------------------------------------------------------------- what persists

  // Contexts stay done, exited goroutines stay so, and no goroutine disappears or changes its kind.
  ghost predicate Later(s: Conn, t: Conn) {
    && (s.connDone ==> t.connDone) && (s.dialDone ==> t.dialDone) && (s.runner.Waiting? ==> t.runner.Waiting?)
    && |s.workers| <= |t.workers|
    && (forall k: nat :: HasExited(s, k) ==> HasExited(t, k))
    && (s.runner.Waiting? && HasExited(s, 0) ==> |s.workers| == |t.workers|)
  }

  lemma NextIsLater(s: Conn, t: Conn, bridged: bool)
    requires Valid(s) && Next(s, t, bridged)
    ensures Later(s, t)
  {
  }

  // The ranking: with the runner waiting and the inbound pump gone, the counter never rises, and it
  // falls exactly when a goroutine leaves.
  lemma CounterOnlyFalls(s: Conn, t: Conn, bridged: bool)
    requires Valid(s) && Next(s, t, bridged) && s.runner.Waiting? && HasExited(s, 0)
    ensures t.wg <= s.wg
    ensures t.wg < s.wg <==> exists k: nat :: !HasExited(s, k) && HasExited(t, k)
  {
    if k: nat, to :| WorkerStep(s, t, k, to) {
      LivePositive(s.workers, k);
      assert forall i: nat :: i != k ==> (HasExited(t, i) <==> HasExited(s, i));
      assert to == Exited ==> !HasExited(s, k) && HasExited(t, k);
    }
  }

  lemma {:induction false} RunIsLater(run: Schedule, bridged: bool, i: nat, j: nat)
    requires Execution(run, bridged) && i <= j
    ensures Valid(run(i)) && Valid(run(j)) && Later(run(i), run(j))
    decreases j
  {
    if j > 0 {
      RunIsLater(run, bridged, if i < j then i else j - 1, j - 1);
      assert StepAt(run, j - 1, bridged);
      NextKeepsValid(run(j - 1), run(j), bridged);
      NextIsLater(run(j - 1), run(j), bridged);
    }
  }

  // ---------------------------------------------------------------- a failed stream ends the connection

  predicate IsPump(w: Worker) {
    w.kind == InboundPump || w.kind == OutboundPump
  }

  ghost predicate PumpExitCancels(s: Conn) {
    forall k :: 0 <= k < |s.workers| && IsPump(s.workers[k]) && s.workers[k].phase == Exited ==> s.connDone
  }

  lemma NextKeepsPumpExitCancels(s: Conn, t: Conn, bridged: bool)
    requires Valid(s) && Next(s, t, bridged) && PumpExitCancels(s)
    ensures PumpExitCancels(t)
  {
    if k: nat, to :| WorkerStep(s, t, k, to) {
      assert Allowed(s.workers[k]);
      assert IsPump(s.workers[k]) && to == Exited ==> t.connDone;
    }
  }

  // Once a pump has gone, because Recv or Send failed or because the connection was done, it is done.
  lemma {:induction false} ExitedPumpMeansDone(run: Schedule, bridged: bool, i: nat, k: nat)
    requires Execution(run, bridged) && run(0) == Fresh()
    requires k < |run(i).workers| && IsPump(run(i).workers[k]) && run(i).workers[k].phase == Exited
    ensures run(i).connDone
  {
    RunKeepsPumpExitCancels(run, bridged, i);
  }

  lemma {:induction false} RunKeepsPumpExitCancels(run: Schedule, bridged: bool, i: nat)
    requires Execution(run, bridged) && run(0) == Fresh()
    ensures PumpExitCancels(run(i))
  {
    if i > 0 {
      RunKeepsPumpExitCancels(run, bridged, i - 1);
      RunIsLater(run, bridged, 0, i - 1);
      assert StepAt(run, i - 1, bridged);
      NextKeepsPumpExitCancels(run(i - 1), run(i), bridged);
    }
  }

  // ---------------------------------------------------------------- termination

  // Every live goroutine can be made to leave from here on.
  ghost predicate ShutDown(s: Conn) {
    s.runner.Waiting? && s.dialDone
  }

  lemma RunnerWaits(run: Schedule) returns (w: nat)
    requires FairSchedule(run, true) && run(0).connDone
    ensures run(w).runner.Waiting?
  {
    if forall i: nat :: !run(i).runner.Waiting? {
      forall i: nat
        ensures RunnerCanLeaveAfter(run, i)
      {
        assert RunnerIdleAfter(run, i);
        var j: nat :| i <= j && !run(j).runner.Calling?;
        RunIsLater(run, true, 0, j);
        assert RunnerCanLeave(run(j));
      }
    }
    w :| run(w).runner.Waiting?;
  }

  lemma DialIsCancelled(run: Schedule) returns (d: nat)
    requires FairSchedule(run, true) && run(0).connDone
    ensures ShutDown(run(d))
  {
    var w := RunnerWaits(run);
    assert BridgeIdleAfter(run, w);
    d :| w <= d && !BridgeEnabled(run(d));
    RunIsLater(run, true, 0, d);
    RunIsLater(run, true, w, d);
  }

  // Once both contexts are done, every goroutine that is not in a call can leave.
  lemma IdleCanExit(s: Conn, k: nat)
    requires Valid(s) && s.connDone && s.dialDone && k < |s.workers|
    requires !IsBusy(s, k) && !HasExited(s, k)
    ensures CanExit(s, k)
  {
    assert Allowed(s.workers[k]);
  }

  lemma LiveCanExitAgain(run: Schedule, d: nat, k: nat, i: nat)
    requires Execution(run, true) && CallsReturn(run)
    requires ShutDown(run(d)) && k < |run(d).workers|
    requires forall e: nat :: d <= e ==> !HasExited(run(e), k)
    ensures CanExitAfter(run, i, k)
  {
    var m := if i < d then d else i;
    RunIsLater(run, true, d, m);
    assert ReturnsAfter(run, m, k);
    var j: nat :| m <= j && !IsBusy(run(j), k);
    RunIsLater(run, true, d, j);
    IdleCanExit(run(j), k);
  }

  lemma WorkerExits(run: Schedule, d: nat, k: nat) returns (e: nat)
    requires Execution(run, true) && CallsReturn(run) && SelectsAreFair(run)
    requires ShutDown(run(d)) && k < |run(d).workers|
    ensures d <= e && HasExited(run(e), k)
  {
    if forall i: nat :: d <= i ==> !HasExited(run(i), k) {
      forall i: nat
        ensures CanExitAfter(run, i, k)
      {
        LiveCanExitAgain(run, d, k, i);
      }
      assert CanExitAgainAndAgain(run, k);
      assert EverExits(run, k);
      var j: nat :| ExitsAt(run, k, j);
      RunIsLater(run, true, j + 1, j + 1 + d);
    }
    e :| d <= e && HasExited(run(e), k);
  }

  lemma {:induction false} FirstWorkersExit(run: Schedule, d: nat, n: nat) returns (e: nat)
    requires Execution(run, true) && CallsReturn(run) && SelectsAreFair(run)
    requires ShutDown(run(d)) && n <= |run(d).workers|
    ensures d <= e && forall k: nat :: k < n ==> HasExited(run(e), k)
  {
    if n == 0 {
      return d;
    }
    var e1 := FirstWorkersExit(run, d, n - 1);
    RunIsLater(run, true, d, e1);
    e := WorkerExits(run, e1, n - 1);
    RunIsLater(run, true, e1, e);
  }

  // However the connection context was cancelled, every fair schedule reaches the deferred Wait and
  // drains the wait group for good.
  lemma TeardownTerminates(run: Schedule) returns (e: nat)
    requires FairSchedule(run, true) && run(0).connDone
    ensures forall j: nat :: e <= j ==> run(j).runner.Waiting? && run(j).wg == 0
  {
    var d := DialIsCancelled(run);
    RunIsLater(run, true, d, d);
    // The inbound pump first: nothing starts a goroutine after it has exited.
    var p := WorkerExits(run, d, 0);
    RunIsLater(run, true, d, p);
    e := FirstWorkersExit(run, p, |run(p).workers|);
    forall j: nat | e <= j
      ensures run(j).runner.Waiting? && run(j).wg == 0
    {
      RunIsLater(run, true, p, j);
      RunIsLater(run, true, e, j);
      forall k | 0 <= k < |run(j).workers|
        ensures run(j).workers[k].phase == Exited
      {
        assert HasExited(run(e), k);
        assert HasExited(run(j), k);
      }
      NoneLive(run(j).workers);
    }
  }

  // ---------------------------------------------------------------- why the bridge is there

  ghost predicate MayHang(s: Conn) {
    exists run: Schedule :: run(0) == s && FairSchedule(run, false) && forall i: nat :: run(i).runner.Waiting? && run(i).wg > 0
  }

  // Without the bridge a schedule may keep the inbound pump in Recv for ever, fairly.
  lemma WithoutBridgeWaitCanHang(s: Conn)
    requires Valid(s) && s.runner.Waiting? && !s.dialDone && s.workers[0].phase == InRecv
    requires forall k :: 0 < k < |s.workers| ==> s.workers[k].phase == Exited
    ensures MayHang(s)
  {
    var run: Schedule := _ => s;
    assert forall i: nat :: StepAt(run, i, false);
    forall k: nat
      ensures !CanExitAgainAndAgain(run, k)
    {
      assert !CanExit(s, k);
      assert !CanExitAfter(run, 0, k);
    }
    forall i: nat
      ensures RunnerIdleAfter(run, i)
    {
      assert !run(i).runner.Calling?;
    }
    assert run(0).runner.Waiting?;
    LivePositive(s.workers, 0);
    assert FairSchedule(run, false);
  }

  // A connection gets there in one step: its main loop returns while the inbound pump is in Recv.
  lemma FreshConnectionMayHang()
    ensures Valid(Fresh())
    ensures exists s :: Next(Fresh(), s, false) && MayHang(s)
  {
    var s := Fresh().(connDone := true, runner := Waiting);
    assert Next(Fresh(), s, false);
    NextKeepsValid(Fresh(), s, false);
    WithoutBridgeWaitCanHang(s);
  }
}
