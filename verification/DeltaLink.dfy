/**
 Delta-gated reporting, end to end: an agent that hashes a section on every poll and sends the body
 only when the hash changed, a ring from which only the newest sample is uploaded, and a panel that
 keeps the last body it was sent. The content-hash gates of the agent
 (internal/agent/runtime/diagnostics_gate.go) are instances.

 T is the reported body and zero its zero value, which a message without a body carries.
 */
module DeltaLink {
  import opened Wrappers

  ghost predicate SoundDigest<T(!new)>(digest: T -> string) {
    (forall b :: digest(b) != "") && (forall b, c :: digest(b) == digest(c) ==> b == c)
  }

  datatype Message<T> = Message(hash: string, body: T)

  // The agent: the hash always, the body only when the hash is not the last one.
  function NextMessage<T>(digest: T -> string, zero: T, lastHash: string, body: T): Message<T> {
    var hash := digest(body);
    Message(hash, if hash == lastHash then zero else body)
  }

  // The panel: a hash with a zero body means "unchanged"; a blank hash overwrites.
  function Receive<T(==)>(zero: T, held: T, m: Message<T>): T {
    if m.hash != "" && m.body == zero then held else m.body
  }

  datatype Op<T> =
    | Poll(body: T)  // the runtime poll asks the gate; its sample becomes the newest one
    | Upload         // the panel receives the newest sample
    | Drop           // the upload is refused, or the connection and its ring end
    | Send(body: T)  // a snapshot that bypasses the ring: the initial one, or the one after a job
    | Reset          // the agent forgets the last hash
    | CacheLoss      // the panel loses what it holds
    | Unreachable    // a blank report that also resets the gate

  /** The gate's field, the newest sample not yet uploaded, and what the panel holds. */
  datatype Link<T> = Link(lastHash: string, sample: Option<Message<T>>, held: T)

  function Apply<T(==)>(digest: T -> string, zero: T, s: Link<T>, op: Op<T>): Link<T> {
    match op
    case Poll(b) => s.(lastHash := digest(b), sample := Some(NextMessage(digest, zero, s.lastHash, b)))
    case Upload => s.(sample := None, held := if s.sample.Some? then Receive(zero, s.held, s.sample.value) else s.held)
    case Drop => s.(sample := None)
    case Send(b) => s.(lastHash := digest(b), held := Receive(zero, s.held, NextMessage(digest, zero, s.lastHash, b)))
    case Reset => s.(lastHash := "")
    case CacheLoss => s.(held := zero)
    case Unreachable => s.(lastHash := "", held := Receive(zero, s.held, Message("", zero)))
  }

  function RunFrom<T(==)>(digest: T -> string, zero: T, s: Link<T>, ops: seq<Op<T>>): Link<T> {
    if ops == [] then s
    else Apply(digest, zero, RunFrom(digest, zero, s, ops[..|ops| - 1]), ops[|ops| - 1])
  }

  function Run<T(==)>(digest: T -> string, zero: T, ops: seq<Op<T>>): Link<T> {
    RunFrom(digest, zero, Link("", None, zero), ops)
  }

  lemma RunSnoc<T>(digest: T -> string, zero: T, s: Link<T>, ops: seq<Op<T>>, op: Op<T>)
    ensures RunFrom(digest, zero, s, ops + [op]) == Apply(digest, zero, RunFrom(digest, zero, s, ops), op)
  {
    assert (ops + [op])[..|ops|] == ops;
  }

  lemma {:induction false} RunAppend<T>(digest: T -> string, zero: T, s: Link<T>, a: seq<Op<T>>, b: seq<Op<T>>)
    ensures RunFrom(digest, zero, s, a + b) == RunFrom(digest, zero, RunFrom(digest, zero, s, a), b)
  {
    if b == [] {
      assert a + b == a;
    } else {
      RunAppend(digest, zero, s, a, b[..|b| - 1]);
      assert (a + b)[..|a + b| - 1] == a + b[..|b| - 1];
    }
  }

  // ---------------------------------------------------------------- the link without hashes

  /** A body, and whether it differed from the one the gate was asked for before. */
  datatype Noted<T> = Noted(body: T, changed: bool)

  /** What the gate was asked for last since its reset, the newest sample, and what the panel carries. */
  datatype Trace<T> = Trace(asked: Option<T>, sample: Option<Noted<T>>, carried: T)

  function Note<T(==)>(t: Trace<T>, body: T): Noted<T> {
    Noted(body, t.asked != Some(body))
  }

  function Carry<T(==)>(zero: T, carried: T, n: Noted<T>): T {
    if n.changed && n.body != zero then n.body else carried
  }

  // What op brings to the panel.
  function Delivery<T(==)>(t: Trace<T>, op: Op<T>): Option<Noted<T>> {
    match op
    case Upload => t.sample
    case Send(b) => Some(Note(t, b))
    case _ => None
  }

  function Advance<T(==)>(zero: T, t: Trace<T>, op: Op<T>): Trace<T> {
    var delivered := Delivery(t, op);
    var carried := if delivered.Some? then Carry(zero, t.carried, delivered.value) else t.carried;
    match op
    case Poll(b) => t.(asked := Some(b), sample := Some(Note(t, b)))
    case Upload => t.(sample := None, carried := carried)
    case Drop => t.(sample := None)
    case Send(b) => t.(asked := Some(b), carried := carried)
    case Reset => t.(asked := None)
    case CacheLoss => t.(carried := zero)
    case Unreachable => t.(asked := None, carried := zero)
  }

  function TraceOf<T(==)>(zero: T, ops: seq<Op<T>>): Trace<T> {
    if ops == [] then Trace(None, None, zero)
    else Advance(zero, TraceOf(zero, ops[..|ops| - 1]), ops[|ops| - 1])
  }

  function HashOf<T>(digest: T -> string, asked: Option<T>): string {
    if asked.Some? then digest(asked.value) else ""
  }

  ghost predicate Follows<T(!new)>(digest: T -> string, zero: T, s: Link<T>, t: Trace<T>) {
    && s.lastHash == HashOf(digest, t.asked)
    && s.held == t.carried
    && s.sample == (if t.sample.None? then None
                    else Some(Message(digest(t.sample.value.body), if t.sample.value.changed then t.sample.value.body else zero)))
  }

  // In every run, whatever is dropped, lost, reset or sent past the ring.
  lemma {:induction false} LinkFollowsTrace<T(!new)>(digest: T -> string, zero: T, ops: seq<Op<T>>)
    requires SoundDigest(digest)
    ensures Follows(digest, zero, Run(digest, zero, ops), TraceOf(zero, ops))
  {
    if ops != [] {
      LinkFollowsTrace(digest, zero, ops[..|ops| - 1]);
      StepFollows(digest, zero, Run(digest, zero, ops[..|ops| - 1]), TraceOf(zero, ops[..|ops| - 1]), ops[|ops| - 1]);
    }
  }

  lemma StepFollows<T(!new)>(digest: T -> string, zero: T, s: Link<T>, t: Trace<T>, op: Op<T>)
    requires SoundDigest(digest) && Follows(digest, zero, s, t)
    ensures Follows(digest, zero, Apply(digest, zero, s, op), Advance(zero, t, op))
  {
    match op
    case Poll(b) => assert digest(b) != "";
    case Send(b) => assert digest(b) != "";
    case Upload =>
      if t.sample.Some? {
        assert digest(t.sample.value.body) != "";
      }
    case _ =>
  }

  // A body that is delivered is the one the panel then holds, exactly when the panel held it already or
  // it is not the zero body and the gate had not been asked for it just before.
  lemma DeliveryReachesPanelIff<T(!new)>(digest: T -> string, zero: T, ops: seq<Op<T>>, op: Op<T>)
    requires SoundDigest(digest) && Delivery(TraceOf(zero, ops), op).Some?
    ensures var d := Delivery(TraceOf(zero, ops), op).value;
            Run(digest, zero, ops + [op]).held == d.body
            <==> d.body == Run(digest, zero, ops).held || (d.changed && d.body != zero)
  {
    LinkFollowsTrace(digest, zero, ops);
    LinkFollowsTrace(digest, zero, ops + [op]);
    assert (ops + [op])[..|ops|] == ops;
  }

  // ---------------------------------------------------------------- against always sending

  /** The reference: every snapshot carries its body, and a delivered one overwrites what the panel holds. */
  datatype Plain<T> = Plain(sample: Option<T>, held: T)

  function AlwaysSend<T>(zero: T, ops: seq<Op<T>>): Plain<T> {
    if ops == [] then Plain(None, zero)
    else
      var p := AlwaysSend(zero, ops[..|ops| - 1]);
      match ops[|ops| - 1]
      case Poll(b) => p.(sample := Some(b))
      case Upload => Plain(None, if p.sample.Some? then p.sample.value else p.held)
      case Drop => p.(sample := None)
      case Send(b) => p.(held := b)
      case Reset => p
      case CacheLoss => p.(held := zero)
      case Unreachable => p.(held := zero)
  }

  // What op brings is what the panel would hold anyway, or comes with its body.
  predicate DeliveredWell<T(==)>(zero: T, ops: seq<Op<T>>, op: Op<T>) {
    var d := Delivery(TraceOf(zero, ops), op);
    d.Some? ==> d.value.body == AlwaysSend(zero, ops).held || (d.value.changed && d.value.body != zero)
  }

  ghost predicate Agrees<T(!new)>(digest: T -> string, zero: T, ops: seq<Op<T>>) {
    Run(digest, zero, ops).held == AlwaysSend(zero, ops).held
  }

  lemma {:induction false} SameSamples<T>(zero: T, ops: seq<Op<T>>)
    ensures var (n, p) := (TraceOf(zero, ops).sample, AlwaysSend(zero, ops).sample);
            (n.Some? <==> p.Some?) && (n.Some? ==> n.value.body == p.value)
  {
    if ops != [] {
      SameSamples(zero, ops[..|ops| - 1]);
    }
  }

  lemma AgreesStep<T(!new)>(digest: T -> string, zero: T, ops: seq<Op<T>>, op: Op<T>)
    requires SoundDigest(digest) && Agrees(digest, zero, ops)
    ensures Agrees(digest, zero, ops + [op]) <==> DeliveredWell(zero, ops, op)
  {
    LinkFollowsTrace(digest, zero, ops);
    LinkFollowsTrace(digest, zero, ops + [op]);
    SameSamples(zero, ops);
    assert (ops + [op])[..|ops|] == ops;
  }

  // A run agrees with always-send at every point exactly when each of its deliveries is of that kind.
  lemma {:induction false} GatedEqualsAlwaysSendIff<T(!new)>(digest: T -> string, zero: T, ops: seq<Op<T>>)
    requires SoundDigest(digest)
    ensures (forall n :: 0 <= n <= |ops| ==> Agrees(digest, zero, ops[..n]))
       <==> (forall n :: 0 <= n < |ops| ==> DeliveredWell(zero, ops[..n], ops[n]))
  {
    if forall n :: 0 <= n < |ops| ==> DeliveredWell(zero, ops[..n], ops[n]) {
      forall n | 0 <= n <= |ops|
        ensures Agrees(digest, zero, ops[..n])
      {
        AgreesUpTo(digest, zero, ops, n);
      }
    }
    if forall n :: 0 <= n <= |ops| ==> Agrees(digest, zero, ops[..n]) {
      forall n | 0 <= n < |ops|
        ensures DeliveredWell(zero, ops[..n], ops[n])
      {
        assert ops[..n + 1] == ops[..n] + [ops[n]];
        assert Agrees(digest, zero, ops[..n]) && Agrees(digest, zero, ops[..n + 1]);
        AgreesStep(digest, zero, ops[..n], ops[n]);
      }
    }
  }

  lemma {:induction false} AgreesUpTo<T(!new)>(digest: T -> string, zero: T, ops: seq<Op<T>>, n: nat)
    requires SoundDigest(digest) && n <= |ops|
    requires forall i :: 0 <= i < n ==> DeliveredWell(zero, ops[..i], ops[i])
    ensures Agrees(digest, zero, ops[..n])
  {
    if n > 0 {
      AgreesUpTo(digest, zero, ops, n - 1);
      assert ops[..n] == ops[..n - 1] + [ops[n - 1]];
      AgreesStep(digest, zero, ops[..n - 1], ops[n - 1]);
    }
  }

  // ---------------------------------------------------------------- runs without loss

  predicate Pending<T(==)>(zero: T, ops: seq<Op<T>>) {
    TraceOf(zero, ops).sample.Some?
  }

  // The panel lost its copy and the agent has not been reset since.
  predicate Owed<T>(ops: seq<Op<T>>) {
    if ops == [] then false
    else
      match ops[|ops| - 1]
      case CacheLoss => true
      case Reset => false
      case Unreachable => false
      case _ => Owed(ops[..|ops| - 1])
  }

  // Every poll is uploaded before anything else is reported, nothing is dropped, no body is the zero
  // body, and every loss of the panel's copy is followed by a reset before the next report.
  predicate Lossless<T(==)>(zero: T, ops: seq<Op<T>>) {
    ops == [] ||
    (var before := ops[..|ops| - 1];
     && Lossless(zero, before)
     && match ops[|ops| - 1]
        case Poll(b) => b != zero && !Owed(before) && !Pending(zero, before)
        case Send(b) => b != zero && !Owed(before) && !Pending(zero, before)
        case CacheLoss => !Pending(zero, before)
        case Unreachable => !Pending(zero, before)
        case Drop => false
        case _ => true)
  }

  lemma {:induction false} GatedRefinesAlwaysSend<T(!new)>(digest: T -> string, zero: T, ops: seq<Op<T>>)
    requires SoundDigest(digest) && Lossless(zero, ops)
    ensures Agrees(digest, zero, ops)
    ensures var t := TraceOf(zero, ops);
            && (t.sample.Some? ==> t.sample.value.body != zero && (t.sample.value.changed || t.sample.value.body == t.carried))
            && (t.asked.Some? && !Owed(ops) ==> t.asked.value == if t.sample.Some? then t.sample.value.body else t.carried)
  {
    if ops != [] {
      var before := ops[..|ops| - 1];
      GatedRefinesAlwaysSend(digest, zero, before);
      LinkFollowsTrace(digest, zero, before);
      AgreesStep(digest, zero, before, ops[|ops| - 1]);
      assert before + [ops[|ops| - 1]] == ops;
    }
  }

  // ---------------------------------------------------------------- what is lost, and for how long

  // Further polls, sends and uploads of the same body.
  predicate Repeats<T(==)>(ops: seq<Op<T>>, body: T) {
    forall i :: 0 <= i < |ops| ==> ops[i] in {Poll(body), Send(body), Upload, Drop}
  }

  // The gate remembers a body that the panel did not get: no number of further reports brings it.
  lemma {:induction false} LostStaysLost<T>(digest: T -> string, zero: T, s: Link<T>, body: T, ops: seq<Op<T>>)
    requires digest(body) != "" && Repeats(ops, body)
    requires s.lastHash == digest(body) && (s.sample.None? || s.sample == Some(Message(digest(body), zero)))
    ensures var t := RunFrom(digest, zero, s, ops);
            && t.held == s.held && t.lastHash == digest(body)
            && (t.sample.None? || t.sample == Some(Message(digest(body), zero)))
  {
    if ops != [] {
      LostStaysLost(digest, zero, s, body, ops[..|ops| - 1]);
    }
  }

  // The body changes in an earlier poll of an interval: the panel keeps the old one.
  lemma DroppedChangeIsLost<T(!new)>(digest: T -> string, zero: T, a: T, b: T, ops: seq<Op<T>>)
    requires SoundDigest(digest) && a != zero && a != b && Repeats(ops, b)
    ensures Run(digest, zero, [Poll(a), Upload, Poll(b), Poll(b), Upload] + ops).held == a
  {
    var s0: Link<T> := Link("", None, zero);
    var s := Link(digest(b), None, a);
    var start := [Poll(a), Upload, Poll(b), Poll(b), Upload];
    assert start == [] + [Poll(a)] + [Upload] + [Poll(b)] + [Poll(b)] + [Upload];
    assert digest(a) != "" && digest(b) != "";
    RunSnoc(digest, zero, s0, [], Poll(a));
    RunSnoc(digest, zero, s0, [] + [Poll(a)], Upload);
    RunSnoc(digest, zero, s0, [] + [Poll(a)] + [Upload], Poll(b));
    RunSnoc(digest, zero, s0, [] + [Poll(a)] + [Upload] + [Poll(b)], Poll(b));
    RunSnoc(digest, zero, s0, [] + [Poll(a)] + [Upload] + [Poll(b)] + [Poll(b)], Upload);
    assert RunFrom(digest, zero, s0, start) == s;
    RunAppend(digest, zero, s0, start, ops);
    LostStaysLost(digest, zero, s, b, ops);
  }

  // A snapshot sent past the ring is overwritten by the older sample that was still in it.
  lemma OlderSampleOverwrites<T(!new)>(digest: T -> string, zero: T, b: T, c: T, ops: seq<Op<T>>)
    requires SoundDigest(digest) && b != zero && b != c && Repeats(ops, c)
    ensures Run(digest, zero, [Poll(b), Send(c), Upload] + ops).held == b
  {
    var s0: Link<T> := Link("", None, zero);
    var s := Link(digest(c), None, b);
    var start := [Poll(b), Send(c), Upload];
    assert start == [] + [Poll(b)] + [Send(c)] + [Upload];
    assert digest(b) != "" && digest(c) != "";
    RunSnoc(digest, zero, s0, [], Poll(b));
    RunSnoc(digest, zero, s0, [] + [Poll(b)], Send(c));
    RunSnoc(digest, zero, s0, [] + [Poll(b)] + [Send(c)], Upload);
    assert RunFrom(digest, zero, s0, start) == s;
    RunAppend(digest, zero, s0, start, ops);
    LostStaysLost(digest, zero, s, c, ops);
  }

  // A report of the zero body leaves the old body in place.
  lemma ZeroBodyIsLost<T(!new)>(digest: T -> string, zero: T, body: T, ops: seq<Op<T>>)
    requires SoundDigest(digest) && body != zero && Repeats(ops, zero)
    ensures Run(digest, zero, [Send(body), Send(zero)] + ops).held == body
  {
    var s0: Link<T> := Link("", None, zero);
    var s := Link(digest(zero), None, body);
    var start := [Send(body), Send(zero)];
    assert start == [] + [Send(body)] + [Send(zero)];
    assert digest(body) != "" && digest(zero) != "";
    RunSnoc(digest, zero, s0, [], Send(body));
    RunSnoc(digest, zero, s0, [] + [Send(body)], Send(zero));
    assert RunFrom(digest, zero, s0, start) == s;
    RunAppend(digest, zero, s0, start, ops);
    LostStaysLost(digest, zero, s, zero, ops);
  }

  // ---------------------------------------------------------------- upload intervals

  function Polls<T>(bodies: seq<T>): (ops: seq<Op<T>>)
    ensures |ops| == |bodies|
  {
    seq(|bodies|, i requires 0 <= i < |bodies| => Poll(bodies[i]))
  }

  // The polls of one interval and its upload.
  function IntervalOps<T>(bodies: seq<T>): seq<Op<T>> {
    Polls(bodies) + [Upload]
  }

  // The hash the gate remembers when the last of these bodies is polled.
  function HashBeforeLast<T>(digest: T -> string, lastHash: string, bodies: seq<T>): string
    requires bodies != []
  {
    if |bodies| == 1 then lastHash else digest(bodies[|bodies| - 2])
  }

  lemma {:induction false} AfterPolls<T>(digest: T -> string, zero: T, s: Link<T>, bodies: seq<T>)
    requires bodies != []
    ensures var (t, b) := (RunFrom(digest, zero, s, Polls(bodies)), bodies[|bodies| - 1]);
            && t.lastHash == digest(b) && t.held == s.held
            && t.sample == Some(NextMessage(digest, zero, HashBeforeLast(digest, s.lastHash, bodies), b))
  {
    var before := bodies[..|bodies| - 1];
    assert Polls(bodies) == Polls(before) + [Poll(bodies[|bodies| - 1])];
    RunSnoc(digest, zero, s, Polls(before), Poll(bodies[|bodies| - 1]));
    if before != [] {
      AfterPolls(digest, zero, s, before);
    }
  }

  // Whatever gate and panel start from: after the interval the panel holds the newest body exactly when
  // it held it before, or when that body is not the zero body and the last poll was the one to change it.
  lemma UploadKeepsBodyIff<T>(digest: T -> string, zero: T, s: Link<T>, bodies: seq<T>)
    requires bodies != [] && digest(bodies[|bodies| - 1]) != ""
    ensures var (t, b) := (RunFrom(digest, zero, s, IntervalOps(bodies)), bodies[|bodies| - 1]);
            && (t.held == b <==> b == s.held || (b != zero && digest(b) != HashBeforeLast(digest, s.lastHash, bodies)))
            && (t.held == b || t.held == s.held) && t.lastHash == digest(b) && t.sample == None
  {
    AfterPolls(digest, zero, s, bodies);
    RunSnoc(digest, zero, s, Polls(bodies), Upload);
  }

  /** An interval's polls; `reset` says that the gate was reset before them. */
  datatype Interval<T> = Interval(reset: bool, bodies: seq<T>)

  function OpsOf<T>(interval: Interval<T>): seq<Op<T>> {
    (if interval.reset then [Reset] else []) + IntervalOps(interval.bodies)
  }

  function AllOps<T>(intervals: seq<Interval<T>>): seq<Op<T>> {
    if intervals == [] then [] else AllOps(intervals[..|intervals| - 1]) + OpsOf(intervals[|intervals| - 1])
  }

  /** The newest body polled since the last reset, and the body the panel carries. */
  datatype Kept<T> = Kept(asked: Option<T>, carried: T)

  // Only a body that the last poll of the interval changed, and that is not the zero body, is carried.
  function KeepInterval<T(==)>(zero: T, k: Kept<T>, interval: Interval<T>): Kept<T> {
    var asked := if interval.reset then None else k.asked;
    if interval.bodies == [] then k.(asked := asked)
    else
      var n := |interval.bodies| - 1;
      var before := if n > 0 then Some(interval.bodies[n - 1]) else asked;
      var b := interval.bodies[n];
      Kept(Some(b), if b != zero && before != Some(b) then b else k.carried)
  }

  function KeptAfter<T(==)>(zero: T, intervals: seq<Interval<T>>): Kept<T> {
    if intervals == [] then Kept(None, zero)
    else KeepInterval(zero, KeptAfter(zero, intervals[..|intervals| - 1]), intervals[|intervals| - 1])
  }

  lemma PollsAndUpload<T(!new)>(digest: T -> string, zero: T, asked: Option<T>, carried: T, bodies: seq<T>)
    requires SoundDigest(digest)
    ensures var k := KeepInterval(zero, Kept(asked, carried), Interval(false, bodies));
            RunFrom(digest, zero, Link(HashOf(digest, asked), None, carried), IntervalOps(bodies))
            == Link(HashOf(digest, k.asked), None, k.carried)
  {
    var s := Link(HashOf(digest, asked), None, carried);
    if bodies == [] {
      RunSnoc(digest, zero, s, Polls(bodies), Upload);
    } else {
      var n := |bodies| - 1;
      var before := if n > 0 then Some(bodies[n - 1]) else asked;
      assert digest(bodies[n]) != "";
      assert HashBeforeLast(digest, s.lastHash, bodies) == HashOf(digest, before);
      AfterPolls(digest, zero, s, bodies);
      RunSnoc(digest, zero, s, Polls(bodies), Upload);
    }
  }

  lemma OneInterval<T(!new)>(digest: T -> string, zero: T, k: Kept<T>, interval: Interval<T>)
    requires SoundDigest(digest)
    ensures var k' := KeepInterval(zero, k, interval);
            RunFrom(digest, zero, Link(HashOf(digest, k.asked), None, k.carried), OpsOf(interval))
            == Link(HashOf(digest, k'.asked), None, k'.carried)
  {
    var s := Link(HashOf(digest, k.asked), None, k.carried);
    var first: seq<Op<T>> := if interval.reset then [Reset] else [];
    var asked := if interval.reset then None else k.asked;
    RunSnoc(digest, zero, s, [], Reset);
    assert RunFrom(digest, zero, s, first) == Link(HashOf(digest, asked), None, k.carried);
    RunAppend(digest, zero, s, first, IntervalOps(interval.bodies));
    PollsAndUpload(digest, zero, asked, k.carried, interval.bodies);
  }

  // Folded over any number of intervals, resets included.
  lemma {:induction false} PanelAfterIntervals<T(!new)>(digest: T -> string, zero: T, intervals: seq<Interval<T>>)
    requires SoundDigest(digest)
    ensures var k := KeptAfter(zero, intervals);
            Run(digest, zero, AllOps(intervals)) == Link(HashOf(digest, k.asked), None, k.carried)
  {
    if intervals != [] {
      var (before, last) := (intervals[..|intervals| - 1], intervals[|intervals| - 1]);
      PanelAfterIntervals(digest, zero, before);
      RunAppend(digest, zero, Link("", None, zero), AllOps(before), OpsOf(last));
      OneInterval(digest, zero, KeptAfter(zero, before), last);
    }
  }
}
