/**
 The outbound side of a connection (internal/agent/conn/outbound.go): bounded channels with
 non-blocking producers, and the pump goroutine that prefers critical messages.
 */
module OutboundPump {
  // ---------------------------------------------------------------- bounded channels

  /** A buffered Go channel seen by its producers. */
  class BoundedChannel<T> {
    const capacity: nat
    var queue: seq<T>

    constructor (capacity: nat)
      ensures this.capacity == capacity && queue == []
    {
      this.capacity := capacity;
      queue := [];
    }

    // enqueueOutboundMessage: never blocks. The context may become done between the check and the
    // select, and a select with two ready cases takes either (pickSend).
    method Enqueue(message: T, doneAtCheck: bool, doneAtSelect: bool, pickSend: bool) returns (accepted: bool)
      modifies this`queue
      ensures queue == (if accepted then old(queue) + [message] else old(queue))
      ensures |old(queue)| <= capacity ==> |queue| <= capacity
      ensures accepted <==> !doneAtCheck && |old(queue)| < capacity && (!doneAtSelect || pickSend)
    {
      if doneAtCheck {
        return false;
      }
      var room := |queue| < capacity;
      if doneAtSelect && (!room || !pickSend) {
        return false;
      }
      if !room {
        return false;
      }
      queue := queue + [message];
      accepted := true;
    }
  }

  // ---------------------------------------------------------------- the pump as a state machine

  const CRITICAL_CAPACITY: nat := 32
  const TELEMETRY_CAPACITY: nat := 64

  datatype Message<T> = Message(critical: bool, body: T)

  datatype Phase<T> =
    | Outer                       // at the first select, which has a default case
    | Inner                       // at the second select, which waits
    | Sending(message: Message<T>)
    | Stopped
    | Failed(message: Message<T>) // the send of this message returned an error

  datatype Pump<T> = Pump(
    phase: Phase<T>,
    done: bool,
    critical: seq<T>,
    telemetry: seq<T>,
    acceptedCritical: seq<T>,
    acceptedTelemetry: seq<T>,
    sent: seq<Message<T>>)

  datatype Step<T> =
    | EnqueueCritical(body: T)
    | EnqueueTelemetry(body: T)
    | Cancel
    | OuterDone | OuterCritical | OuterDefault
    | InnerDone | InnerCritical | InnerTelemetry
    | SendOk | SendError

  function NewPump<T>(): Pump<T> {
    Pump(Outer, false, [], [], [], [], [])
  }

  // A select may take any ready case; its default case only when no other is ready.
  predicate Enabled<T>(s: Pump<T>, step: Step<T>) {
    match step
    case EnqueueCritical(_) => |s.critical| < CRITICAL_CAPACITY
    case EnqueueTelemetry(_) => |s.telemetry| < TELEMETRY_CAPACITY
    case Cancel => true
    case OuterDone => s.phase.Outer? && s.done
    case OuterCritical => s.phase.Outer? && |s.critical| > 0
    case OuterDefault => s.phase.Outer? && !s.done && |s.critical| == 0
    case InnerDone => s.phase.Inner? && s.done
    case InnerCritical => s.phase.Inner? && |s.critical| > 0
    case InnerTelemetry => s.phase.Inner? && |s.telemetry| > 0
    case SendOk => s.phase.Sending?
    case SendError => s.phase.Sending?
  }

  function Apply<T>(s: Pump<T>, step: Step<T>): Pump<T>
    requires Enabled(s, step)
  {
    match step
    case EnqueueCritical(b) => s.(critical := s.critical + [b], acceptedCritical := s.acceptedCritical + [b])
    case EnqueueTelemetry(b) => s.(telemetry := s.telemetry + [b], acceptedTelemetry := s.acceptedTelemetry + [b])
    case Cancel => s.(done := true)
    case OuterDone => s.(phase := Stopped)
    case OuterCritical => s.(phase := Sending(Message(true, s.critical[0])), critical := s.critical[1..])
    case OuterDefault => s.(phase := Inner)
    case InnerDone => s.(phase := Stopped)
    case InnerCritical => s.(phase := Sending(Message(true, s.critical[0])), critical := s.critical[1..])
    case InnerTelemetry => s.(phase := Sending(Message(false, s.telemetry[0])), telemetry := s.telemetry[1..])
    case SendOk => s.(phase := Outer, sent := s.sent + [s.phase.message])
    case SendError => s.(phase := Failed(s.phase.message), done := true)
  }

  predicate IsRun<T>(s: Pump<T>, steps: seq<Step<T>>)
    decreases steps
  {
    steps == [] || (Enabled(s, steps[0]) && IsRun(Apply(s, steps[0]), steps[1..]))
  }

  function After<T>(s: Pump<T>, steps: seq<Step<T>>): Pump<T>
    requires IsRun(s, steps)
    decreases steps
  {
    if steps == [] then s else After(Apply(s, steps[0]), steps[1..])
  }

  // ---------------------------------------------------------------- conservation, in order

  function Bodies<T>(ms: seq<Message<T>>, critical: bool): seq<T> {
    if ms == [] then []
    else
      var last := ms[|ms| - 1];
      Bodies(ms[..|ms| - 1], critical) + (if last.critical == critical then [last.body] else [])
  }

  function InHand<T>(phase: Phase<T>, critical: bool): seq<T> {
    match phase
    case Sending(m) => if m.critical == critical then [m.body] else []
    case Failed(m) => if m.critical == critical then [m.body] else []
    case _ => []
  }

  // Per channel, what was accepted is what was sent, then what is in hand, then what is queued.
  ghost predicate Conserved<T>(s: Pump<T>) {
    && s.acceptedCritical == Bodies(s.sent, true) + InHand(s.phase, true) + s.critical
    && s.acceptedTelemetry == Bodies(s.sent, false) + InHand(s.phase, false) + s.telemetry
    && |s.critical| <= CRITICAL_CAPACITY && |s.telemetry| <= TELEMETRY_CAPACITY
  }

  lemma BodiesSnoc<T>(ms: seq<Message<T>>, m: Message<T>, critical: bool)
    ensures Bodies(ms + [m], critical) == Bodies(ms, critical) + (if m.critical == critical then [m.body] else [])
  {
    assert (ms + [m])[..|ms|] == ms;
  }

  lemma Enqueued<T>(sent: seq<T>, hand: seq<T>, queue: seq<T>, body: T)
    ensures sent + hand + queue + [body] == sent + hand + (queue + [body])
  {
  }

  lemma Taken<T>(sent: seq<T>, queue: seq<T>)
    requires queue != []
    ensures sent + [] + queue == sent + [queue[0]] + queue[1..]
  {
  }

  lemma Delivered<T>(sent: seq<T>, hand: seq<T>, queue: seq<T>)
    ensures sent + hand + queue == (sent + hand) + [] + queue
  {
  }

  lemma SendOkKeepsConserved<T>(s: Pump<T>)
    requires Conserved(s) && Enabled(s, SendOk)
    ensures Conserved(Apply(s, SendOk))
  {
    BodiesSnoc(s.sent, s.phase.message, true);
    BodiesSnoc(s.sent, s.phase.message, false);
    Delivered(Bodies(s.sent, true), InHand(s.phase, true), s.critical);
    Delivered(Bodies(s.sent, false), InHand(s.phase, false), s.telemetry);
  }

  lemma TakeKeepsConserved<T>(s: Pump<T>, step: Step<T>)
    requires Conserved(s) && Enabled(s, step)
    requires step.OuterCritical? || step.InnerCritical? || step.InnerTelemetry?
    ensures Conserved(Apply(s, step))
  {
    if step.InnerTelemetry? {
      Taken(Bodies(s.sent, false), s.telemetry);
    } else {
      Taken(Bodies(s.sent, true), s.critical);
    }
  }

  lemma ApplyKeepsConserved<T>(s: Pump<T>, step: Step<T>)
    requires Conserved(s) && Enabled(s, step)
    ensures Conserved(Apply(s, step))
  {
    match step
    case EnqueueCritical(b) => Enqueued(Bodies(s.sent, true), InHand(s.phase, true), s.critical, b);
    case EnqueueTelemetry(b) => Enqueued(Bodies(s.sent, false), InHand(s.phase, false), s.telemetry, b);
    case SendOk => SendOkKeepsConserved(s);
    case OuterCritical => TakeKeepsConserved(s, step);
    case InnerCritical => TakeKeepsConserved(s, step);
    case InnerTelemetry => TakeKeepsConserved(s, step);
    case _ =>
  }

  lemma {:induction false} RunKeepsConserved<T>(s: Pump<T>, steps: seq<Step<T>>)
    requires Conserved(s) && IsRun(s, steps)
    ensures Conserved(After(s, steps))
    decreases steps
  {
    if steps != [] {
      ApplyKeepsConserved(s, steps[0]);
      RunKeepsConserved(Apply(s, steps[0]), steps[1..]);
    }
  }

  // Nothing is lost, repeated or reordered within a channel, in every run of every schedule.
  lemma FifoInEveryRun<T>(steps: seq<Step<T>>)
    requires IsRun(NewPump(), steps)
    ensures Conserved(After(NewPump(), steps))
    // The channels hold 32 and 64 messages, and take one exactly while there is room.
    ensures var s := After(NewPump(), steps);
            && |s.critical| <= 32 && |s.telemetry| <= 64
            && forall b :: (Enabled(s, EnqueueCritical(b)) <==> |s.critical| < 32)
                        && (Enabled(s, EnqueueTelemetry(b)) <==> |s.telemetry| < 64)
  {
    RunKeepsConserved(NewPump(), steps);
  }

  // ---------------------------------------------------------------- the end of the pump

  // What leaves the pump for good: a Done case, or a send that fails.
  predicate Ends<T>(step: Step<T>) {
    step.OuterDone? || step.InnerDone? || step.SendError?
  }

  predicate HasEnded<T>(s: Pump<T>) {
    s.phase.Stopped? || s.phase.Failed?
  }

  // Nothing is taken from a channel any more: what is queued stays, behind it what is still accepted.
  lemma {:induction false} EndedPumpTakesNothing<T>(s: Pump<T>, steps: seq<Step<T>>)
    requires IsRun(s, steps) && HasEnded(s)
    ensures var t := After(s, steps);
            && t.phase == s.phase && t.sent == s.sent
            && s.critical <= t.critical && s.telemetry <= t.telemetry
            && CriticalTakes(steps) == 0 && TelemetryTakes(steps) == 0
    decreases steps
  {
    if steps != [] {
      EndedPumpTakesNothing(Apply(s, steps[0]), steps[1..]);
    }
  }

  // A pump that takes its Done case, or whose send fails, takes and sends nothing more; it does so only
  // when the connection is done, and a failed send makes it so.
  lemma DoneEndsPump<T>(s: Pump<T>, step: Step<T>, rest: seq<Step<T>>)
    requires Enabled(s, step) && Ends(step) && IsRun(Apply(s, step), rest)
    ensures var t := After(Apply(s, step), rest);
            && t.sent == s.sent && s.critical <= t.critical && s.telemetry <= t.telemetry
            && CriticalTakes(rest) == 0 && TelemetryTakes(rest) == 0
            && (step.SendError? ==> t.phase == Failed(s.phase.message))
    ensures (step.SendError? || s.done) && Apply(s, step).done
  {
    EndedPumpTakesNothing(Apply(s, step), rest);
  }

  // ---------------------------------------------------------------- bounded overtaking

  function CriticalTakes<T>(steps: seq<Step<T>>): nat {
    if steps == [] then 0
    else (if steps[0].OuterCritical? || steps[0].InnerCritical? then 1 else 0) + CriticalTakes(steps[1..])
  }

  function TelemetryTakes<T>(steps: seq<Step<T>>): nat {
    if steps == [] then 0
    else (if steps[0].InnerTelemetry? then 1 else 0) + TelemetryTakes(steps[1..])
  }

  // While the critical message at this position of its queue has not been taken, at most one telemetry
  // message is taken, and none unless the pump was already at its second select.
  lemma {:induction false} AtMostOneOvertakes<T>(s: Pump<T>, position: nat, steps: seq<Step<T>>)
    requires IsRun(s, steps) && position < |s.critical|
    requires CriticalTakes(steps) <= position
    ensures TelemetryTakes(steps) <= (if s.phase.Inner? then 1 else 0)
    decreases steps
  {
    if steps != [] {
      var taken := steps[0].OuterCritical? || steps[0].InnerCritical?;
      AtMostOneOvertakes(Apply(s, steps[0]), if taken then position - 1 else position, steps[1..]);
    }
  }

  // The message itself is the one taken next once that many were taken before it.
  lemma {:induction false} StillQueued<T>(s: Pump<T>, position: nat, steps: seq<Step<T>>)
    requires IsRun(s, steps) && position < |s.critical| && CriticalTakes(steps) <= position
    ensures position - CriticalTakes(steps) < |After(s, steps).critical|
    ensures After(s, steps).critical[position - CriticalTakes(steps)] == s.critical[position]
    decreases steps
  {
    if steps != [] {
      var taken := steps[0].OuterCritical? || steps[0].InnerCritical?;
      StillQueued(Apply(s, steps[0]), if taken then position - 1 else position, steps[1..]);
    }
  }

  // The bound is reached: a critical message that arrives while the pump waits can be overtaken once.
  lemma OneOvertakingHappens<T>(telemetry: T, critical: T)
    ensures var steps := [OuterDefault, EnqueueTelemetry(telemetry), EnqueueCritical(critical), InnerTelemetry];
            IsRun(NewPump(), steps) && After(NewPump(), steps).phase == Sending(Message(false, telemetry))
            && After(NewPump(), steps).critical == [critical]
  {
    var s0: Pump<T> := NewPump();
    var s1 := Apply(s0, OuterDefault);
    var s2 := Apply(s1, EnqueueTelemetry(telemetry));
    var s3 := Apply(s2, EnqueueCritical(critical));
    RunCons(s3, InnerTelemetry, []);
    RunCons(s2, EnqueueCritical(critical), [InnerTelemetry]);
    RunCons(s1, EnqueueTelemetry(telemetry), [EnqueueCritical(critical), InnerTelemetry]);
    RunCons(s0, OuterDefault, [EnqueueTelemetry(telemetry), EnqueueCritical(critical), InnerTelemetry]);
    var steps: seq<Step<T>> := [OuterDefault, EnqueueTelemetry(telemetry), EnqueueCritical(critical), InnerTelemetry];
    assert steps == [OuterDefault] + [EnqueueTelemetry(telemetry), EnqueueCritical(critical), InnerTelemetry];
  }

  lemma RunCons<T>(s: Pump<T>, step: Step<T>, rest: seq<Step<T>>)
    requires Enabled(s, step) && IsRun(Apply(s, step), rest)
    ensures IsRun(s, [step] + rest) && After(s, [step] + rest) == After(Apply(s, step), rest)
  {
    assert ([step] + rest)[1..] == rest;
  }
}
