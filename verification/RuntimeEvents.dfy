/**
 The runtime-event ring and its pusher (internal/agent/runtimeevents/buffer.go and
 internal/agent/conn/runtime_events_pusher.go). Ring and cursor live as long as the process;
 connections come and go.
 */
module RuntimeEvents {
  datatype Event = Event(seqNo: nat, message: string)

  const BATCH_CAP: nat := 50

  type Capacity = c: nat | c > 0 witness 1

  /**
   The process-level state, what the panel side has accepted, and the batch list a flush in
   progress still has to send. `log` holds every message ever appended.
   */
  datatype Hub = Hub(
    capacity: Capacity,
    log: seq<string>,
    items: seq<Event>,
    lastSeq: nat,
    cursor: nat,
    accepted: seq<seq<Event>>,
    pending: seq<Event>)

  datatype Step =
    | Append(message: string)
    | Drain    // a flush reads the ring
    | SendOk   // its next batch is accepted
    | GiveUp   // its next batch is refused, or the connection is gone

  function Clamp(capacity: int): Capacity {
    if capacity <= 0 then 1 else capacity
  }

  function NewHub(capacity: int): Hub {
    Hub(Clamp(capacity), [], [], 0, 0, [], [])
  }

  function After(items: seq<Event>, afterSeq: nat): (r: seq<Event>)
    ensures |r| <= |items|
  {
    if items == [] then []
    else if items[0].seqNo > afterSeq then [items[0]] + After(items[1..], afterSeq)
    else After(items[1..], afterSeq)
  }

  function Batch(pending: seq<Event>): seq<Event> {
    if |pending| <= BATCH_CAP then pending else pending[..BATCH_CAP]
  }

  function Next(h: Hub, step: Step): Hub {
    match step
    case Append(message) =>
      var ev := Event(h.lastSeq + 1, message);
      var kept := if |h.items| >= h.capacity then h.items[1..] else h.items;
      h.(log := h.log + [message], lastSeq := h.lastSeq + 1, items := kept + [ev])
    case Drain => h.(pending := After(h.items, h.cursor))
    case SendOk =>
      if h.pending == [] then h
      else
        var batch := Batch(h.pending);
        h.(accepted := h.accepted + [batch], cursor := batch[|batch| - 1].seqNo, pending := h.pending[|batch|..])
    case GiveUp => h.(pending := [])
  }

  function Run(h: Hub, steps: seq<Step>): Hub
    decreases steps
  {
    if steps == [] then h else Run(Next(h, steps[0]), steps[1..])
  }

  // ---------------------------------------------------------------- what every run keeps

  function Flat(batches: seq<seq<Event>>): seq<Event> {
    if batches == [] then [] else Flat(batches[..|batches| - 1]) + batches[|batches| - 1]
  }

  // How many of the oldest events the ring no longer holds.
  function Evicted(h: Hub): int {
    h.lastSeq - |h.items|
  }

  // Events numbered without a gap, carrying the messages that were appended under those numbers.
  predicate Contiguous(es: seq<Event>, log: seq<string>) {
    forall i :: 0 <= i < |es| ==> es[i].seqNo == es[0].seqNo + i && 1 <= es[i].seqNo <= |log| && es[i].message == log[es[i].seqNo - 1]
  }

  predicate RingOk(h: Hub) {
    && |h.items| <= h.capacity && |h.log| == h.lastSeq && |h.items| <= h.lastSeq
    && (Evicted(h) > 0 ==> |h.items| == h.capacity)
    && Contiguous(h.items, h.log)
    && (h.items != [] ==> h.items[0].seqNo == Evicted(h) + 1)
  }

  predicate PendingOk(h: Hub) {
    && Contiguous(h.pending, h.log)
    && (h.pending != [] ==>
          h.cursor < h.pending[0].seqNo && (h.pending[0].seqNo == h.cursor + 1 || h.pending[0].seqNo <= Evicted(h) + 1))
  }

  predicate Authentic(es: seq<Event>, log: seq<string>) {
    forall i :: 0 <= i < |es| ==> 1 <= es[i].seqNo <= |log| && es[i].message == log[es[i].seqNo - 1]
  }

  predicate StrictlyIncreasing(es: seq<Event>) {
    forall i, j :: 0 <= i < j < |es| ==> es[i].seqNo < es[j].seqNo
  }

  ghost predicate Holds(es: seq<Event>, n: int) {
    exists i :: 0 <= i < |es| && es[i].seqNo == n
  }

  predicate BatchSizesOk(batches: seq<seq<Event>>) {
    forall b :: 0 <= b < |batches| ==> 1 <= |batches[b]| <= BATCH_CAP
  }

  // Numbers up to the cursor that were never accepted belong to evicted events.
  ghost predicate OnlyEvictedSkipped(flat: seq<Event>, cursor: int, evicted: int) {
    forall n :: 1 <= n <= cursor && !Holds(flat, n) ==> n <= evicted
  }

  function LastNumber(flat: seq<Event>): nat {
    if flat == [] then 0 else flat[|flat| - 1].seqNo
  }

  // What has been accepted: batches of 1 to 50, nothing twice, nothing made up; the cursor is the last
  // accepted number, and whatever it passed over without acceptance had been evicted.
  ghost predicate AcceptedOk(h: Hub) {
    var flat := Flat(h.accepted);
    && BatchSizesOk(h.accepted)
    && StrictlyIncreasing(flat)
    && Authentic(flat, h.log)
    && h.cursor == LastNumber(flat)
    && OnlyEvictedSkipped(flat, h.cursor, Evicted(h))
  }

  ghost predicate Inv(h: Hub) {
    RingOk(h) && PendingOk(h) && AcceptedOk(h) && h.cursor <= h.lastSeq
  }

  lemma {:induction false} AfterIsSuffix(items: seq<Event>, log: seq<string>, afterSeq: nat)
    requires Contiguous(items, log)
    ensures var r := After(items, afterSeq);
            && r == items[|items| - |r|..]
            && (r != [] ==> r[0].seqNo > afterSeq && (|r| == |items| || r[0].seqNo == afterSeq + 1))
  {
    if items != [] {
      AfterIsSuffix(items[1..], log, afterSeq);
      if items[0].seqNo > afterSeq && |items| > 1 {
        assert items[1].seqNo > afterSeq + 1;
        if After(items[1..], afterSeq) == [] {
          AfterOfLarger(items[1..], afterSeq);
        }
      }
    }
  }

  lemma AfterOfLarger(items: seq<Event>, afterSeq: nat)
    requires items != [] && items[0].seqNo > afterSeq
    ensures After(items, afterSeq) != []
  {
  }

  lemma FlatSnoc(batches: seq<seq<Event>>, batch: seq<Event>)
    ensures Flat(batches + [batch]) == Flat(batches) + batch
  {
    assert (batches + [batch])[..|batches|] == batches;
  }

  lemma IncreasingConcat(flat: seq<Event>, batch: seq<Event>, log: seq<string>)
    requires StrictlyIncreasing(flat) && Authentic(flat, log)
    requires batch != [] && Contiguous(batch, log) && LastNumber(flat) < batch[0].seqNo
    ensures StrictlyIncreasing(flat + batch) && Authentic(flat + batch, log)
  {
    var all := flat + batch;
    forall i, j | 0 <= i < j < |all|
      ensures all[i].seqNo < all[j].seqNo
    {
      if i < |flat| <= j {
        assert flat[i].seqNo <= LastNumber(flat) && all[j] == batch[j - |flat|];
      }
    }
  }

  lemma HoldsConcat(flat: seq<Event>, batch: seq<Event>, n: int)
    requires Holds(flat, n) || Holds(batch, n)
    ensures Holds(flat + batch, n)
  {
    if Holds(flat, n) {
      var i :| 0 <= i < |flat| && flat[i].seqNo == n;
      assert (flat + batch)[i].seqNo == n;
    } else {
      var i :| 0 <= i < |batch| && batch[i].seqNo == n;
      assert (flat + batch)[|flat| + i].seqNo == n;
    }
  }

  lemma SkippedConcat(flat: seq<Event>, batch: seq<Event>, log: seq<string>, cursor: int, evicted: int)
    requires OnlyEvictedSkipped(flat, cursor, evicted)
    requires batch != [] && Contiguous(batch, log)
    requires batch[0].seqNo == cursor + 1 || batch[0].seqNo <= evicted + 1
    ensures OnlyEvictedSkipped(flat + batch, batch[|batch| - 1].seqNo, evicted)
  {
    forall n | 1 <= n <= batch[|batch| - 1].seqNo && !Holds(flat + batch, n)
      ensures n <= evicted
    {
      if Holds(flat, n) {
        HoldsConcat(flat, batch, n);
      }
      if n >= batch[0].seqNo {
        assert batch[n - batch[0].seqNo].seqNo == n;
        HoldsConcat(flat, batch, n);
      }
    }
  }

  lemma SendOkKeepsAccepted(h: Hub)
    requires AcceptedOk(h) && PendingOk(h) && h.pending != []
    ensures AcceptedOk(Next(h, SendOk))
  {
    var batch := Batch(h.pending);
    var flat := Flat(h.accepted);
    FlatSnoc(h.accepted, batch);
    SliceContiguous(h.pending, h.log, 0, |batch|);
    assert batch == h.pending[0..|batch|];
    IncreasingConcat(flat, batch, h.log);
    SkippedConcat(flat, batch, h.log, h.cursor, Evicted(h));
    BatchSizesSnoc(h.accepted, batch);
    assert LastNumber(flat + batch) == batch[|batch| - 1].seqNo;
  }

  lemma BatchSizesSnoc(batches: seq<seq<Event>>, batch: seq<Event>)
    requires BatchSizesOk(batches) && 1 <= |batch| <= BATCH_CAP
    ensures BatchSizesOk(batches + [batch])
  {
  }

  lemma SendOkKeepsInv(h: Hub)
    requires Inv(h) && h.pending != []
    ensures Inv(Next(h, SendOk))
  {
    SendOkKeepsAccepted(h);
    SendOkKeepsPending(h);
  }

  lemma SendOkKeepsPending(h: Hub)
    requires PendingOk(h) && h.pending != []
    ensures PendingOk(Next(h, SendOk))
  {
    var (p, q) := (h.pending, Next(h, SendOk).pending);
    var k := |Batch(p)|;
    assert forall i :: 0 <= i < |q| ==> q[i] == p[i + k];
    assert q != [] ==> p[k].seqNo == p[k - 1].seqNo + 1;
  }

  lemma AppendKeepsRing(h: Hub, message: string)
    requires RingOk(h)
    ensures RingOk(Next(h, Append(message))) && Evicted(h) <= Evicted(Next(h, Append(message)))
  {
    var h' := Next(h, Append(message));
    var shift := if |h.items| >= h.capacity then 1 else 0;
    assert forall i :: 0 <= i < |h'.items| - 1 ==> h'.items[i] == h.items[i + shift];
  }

  lemma LongerLog(es: seq<Event>, log: seq<string>, message: string)
    ensures Contiguous(es, log) ==> Contiguous(es, log + [message])
    ensures Authentic(es, log) ==> Authentic(es, log + [message])
  {
  }

  lemma AppendKeepsInv(h: Hub, message: string)
    requires Inv(h)
    ensures Inv(Next(h, Append(message)))
  {
    AppendKeepsRing(h, message);
    LongerLog(h.pending, h.log, message);
    LongerLog(Flat(h.accepted), h.log, message);
  }

  lemma SliceContiguous(es: seq<Event>, log: seq<string>, lo: nat, hi: nat)
    requires Contiguous(es, log) && lo <= hi <= |es|
    ensures Contiguous(es[lo..hi], log)
    ensures lo < hi ==> es[lo..hi][0].seqNo == es[0].seqNo + lo
  {
    assert forall i :: 0 <= i < hi - lo ==> es[lo..hi][i] == es[lo + i];
  }

  lemma DrainKeepsPending(h: Hub)
    requires RingOk(h)
    ensures PendingOk(Next(h, Drain))
  {
    AfterIsSuffix(h.items, h.log, h.cursor);
    var lo := |h.items| - |After(h.items, h.cursor)|;
    SliceContiguous(h.items, h.log, lo, |h.items|);
    assert h.items[lo..] == h.items[lo..|h.items|];
  }

  lemma DrainKeepsInv(h: Hub)
    requires Inv(h)
    ensures Inv(Next(h, Drain))
  {
    DrainKeepsPending(h);
  }

  lemma NextKeepsInv(h: Hub, step: Step)
    requires Inv(h)
    ensures Inv(Next(h, step))
  {
    match step
    case Append(message) => AppendKeepsInv(h, message);
    case Drain => DrainKeepsInv(h);
    case SendOk => if h.pending != [] { SendOkKeepsInv(h); }
    case GiveUp =>
  }

  // Every run of appends, evictions, flushes that succeed or fail anywhere, and reconnects.
  lemma {:induction false} RunKeepsInv(h: Hub, steps: seq<Step>)
    requires Inv(h)
    ensures Inv(Run(h, steps))
    decreases steps
  {
    if steps != [] {
      NextKeepsInv(h, steps[0]);
      RunKeepsInv(Next(h, steps[0]), steps[1..]);
    }
  }

  lemma AcceptedInEveryRun(capacity: int, steps: seq<Step>)
    ensures AcceptedOk(Run(NewHub(capacity), steps))
  {
    RunKeepsInv(NewHub(capacity), steps);
  }

  // ---------------------------------------------------------------- one whole flush

  // sendOk(i) is the result of the i-th send of this flush.
  function FlushFrom(h: Hub, i: nat, sendOk: nat -> bool): Hub
    decreases |h.pending|
  {
    if h.pending == [] then h
    else if sendOk(i) then FlushFrom(Next(h, SendOk), i + 1, sendOk)
    else Next(h, GiveUp)
  }

  function Flushed(h: Hub, sendOk: nat -> bool): Hub {
    FlushFrom(Next(h, Drain), 0, sendOk)
  }

  lemma FlushedKeepsInv(h: Hub, sendOk: nat -> bool)
    requires Inv(h)
    ensures Inv(Flushed(h, sendOk)) && Flushed(h, sendOk).pending == []
  {
    NextKeepsInv(h, Drain);
    FlushKeepsInv(Next(h, Drain), 0, sendOk);
  }

  lemma {:induction false} FlushKeepsInv(h: Hub, i: nat, sendOk: nat -> bool)
    requires Inv(h)
    ensures Inv(FlushFrom(h, i, sendOk)) && FlushFrom(h, i, sendOk).pending == []
    decreases |h.pending|
  {
    if h.pending != [] {
      SendOkKeepsInv(h);
      if sendOk(i) {
        FlushKeepsInv(Next(h, SendOk), i + 1, sendOk);
      }
    }
  }

  // A flush whose sends all succeed leaves nothing in the ring that the panel lacks.
  lemma {:induction false} FullFlushCatchesUp(h: Hub, i: nat, sendOk: nat -> bool)
    requires forall j: nat :: sendOk(j)
    requires h.pending == [] ==> h.cursor == h.lastSeq
    requires h.pending != [] ==> h.pending[|h.pending| - 1].seqNo == h.lastSeq
    ensures FlushFrom(h, i, sendOk).cursor == h.lastSeq
    decreases |h.pending|
  {
    if h.pending != [] {
      FullFlushCatchesUp(Next(h, SendOk), i + 1, sendOk);
    }
  }

  lemma SuccessfulFlushDeliversRing(h: Hub, sendOk: nat -> bool)
    requires Inv(h) && forall j: nat :: sendOk(j)
    ensures Flushed(h, sendOk).cursor == h.lastSeq
    ensures forall n :: Evicted(h) < n <= h.lastSeq ==> Holds(Flat(Flushed(h, sendOk).accepted), n)
  {
    var d := Next(h, Drain);
    NextKeepsInv(h, Drain);
    DrainReachesEnd(h);
    FullFlushCatchesUp(d, 0, sendOk);
    FlushKeepsInv(d, 0, sendOk);
    FlushKeepsRing(d, 0, sendOk);
    UpToCursorDelivered(Flushed(h, sendOk));
  }

  lemma DrainReachesEnd(h: Hub)
    requires RingOk(h) && h.cursor <= h.lastSeq
    requires h.items == [] ==> h.lastSeq == 0
    ensures var d := Next(h, Drain);
            if d.pending == [] then d.cursor == d.lastSeq else d.pending[|d.pending| - 1].seqNo == d.lastSeq
  {
    AfterIsSuffix(h.items, h.log, h.cursor);
    var r := After(h.items, h.cursor);
    if h.items != [] {
      assert h.items[|h.items| - 1].seqNo == h.lastSeq;
      if r == [] {
        LastNotAfter(h.items, h.cursor);
      }
    }
  }

  lemma UpToCursorDelivered(h: Hub)
    requires AcceptedOk(h) && h.cursor == h.lastSeq
    ensures forall n :: Evicted(h) < n <= h.lastSeq && 1 <= n ==> Holds(Flat(h.accepted), n)
  {
  }

  lemma {:induction false} LastNotAfter(items: seq<Event>, afterSeq: nat)
    requires items != [] && After(items, afterSeq) == []
    ensures items[|items| - 1].seqNo <= afterSeq
  {
    if |items| > 1 {
      LastNotAfter(items[1..], afterSeq);
    }
  }

  lemma {:induction false} FlushKeepsRing(h: Hub, i: nat, sendOk: nat -> bool)
    ensures var f := FlushFrom(h, i, sendOk);
            f.log == h.log && f.items == h.items && f.lastSeq == h.lastSeq && f.capacity == h.capacity
    decreases |h.pending|
  {
    if h.pending != [] && sendOk(i) {
      FlushKeepsRing(Next(h, SendOk), i + 1, sendOk);
    }
  }

  // ---------------------------------------------------------------- the frames of a flush

  // The j-th frame: fifty events, and what is left of them in the last one.
  function Frame(pending: seq<Event>, j: nat): seq<Event>
    requires 50 * j <= |pending|
  {
    if 50 * j + 50 <= |pending| then pending[50 * j..50 * j + 50] else pending[50 * j..]
  }

  function FramesOf(pending: seq<Event>): nat {
    (|pending| + 49) / 50
  }

  lemma FrameBehind(pending: seq<Event>, j: nat)
    requires 50 * (j + 1) <= |pending|
    ensures Frame(pending[50..], j) == Frame(pending, j + 1)
  {
  }

  // The flush stopped after m frames: every one before was sent well, and the next one was not or there is none.
  ghost predicate StopsAfter(h: Hub, i: nat, sendOk: nat -> bool, m: nat) {
    && m <= FramesOf(h.pending)
    && (forall j :: i <= j < i + m ==> sendOk(j))
    && (m < FramesOf(h.pending) ==> !sendOk(i + m))
  }

  // Then just those frames are accepted, behind what was accepted before, and the cursor is their last number.
  ghost predicate AcceptsFrames(h: Hub, f: Hub, m: nat)
    requires m <= FramesOf(h.pending)
  {
    && |f.accepted| == |h.accepted| + m && h.accepted <= f.accepted
    && (forall j :: 0 <= j < m ==> f.accepted[|h.accepted| + j] == Frame(h.pending, j))
    && f.cursor == (if m == 0 then h.cursor
                    else if 50 * m <= |h.pending| then h.pending[50 * m - 1].seqNo
                    else h.pending[|h.pending| - 1].seqNo)
  }

  lemma OneFrame(h: Hub)
    requires h.pending != []
    ensures var h' := Next(h, SendOk);
            && AcceptsFrames(h, h', 1)
            && h'.pending == (if |h.pending| <= 50 then [] else h.pending[50..])
            && h'.accepted == h.accepted + [Frame(h.pending, 0)]
  {
  }

  lemma {:induction false} FlushSendsFrames(h: Hub, i: nat, sendOk: nat -> bool) returns (m: nat)
    ensures StopsAfter(h, i, sendOk, m) && AcceptsFrames(h, FlushFrom(h, i, sendOk), m)
    decreases |h.pending|
  {
    if h.pending == [] || !sendOk(i) {
      m := 0;
    } else {
      var h' := Next(h, SendOk);
      OneFrame(h);
      var m' := FlushSendsFrames(h', i + 1, sendOk);
      m := m' + 1;
      if |h.pending| > 50 {
        assert FramesOf(h.pending) == FramesOf(h'.pending) + 1;
        FramesBehind(h, h', FlushFrom(h, i, sendOk), m');
      }
    }
  }

  lemma FramesBehind(h: Hub, h': Hub, f: Hub, m: nat)
    requires |h.pending| > 50 && h'.pending == h.pending[50..] && h'.accepted == h.accepted + [Frame(h.pending, 0)]
    requires h'.cursor == h.pending[49].seqNo
    requires m <= FramesOf(h'.pending) && AcceptsFrames(h', f, m)
    ensures m + 1 <= FramesOf(h.pending) && AcceptsFrames(h, f, m + 1)
  {
    forall j | 0 <= j < m + 1
      ensures f.accepted[|h.accepted| + j] == Frame(h.pending, j)
    {
      if j == 0 {
        assert f.accepted[|h.accepted|] == h'.accepted[|h.accepted|];
      } else {
        assert f.accepted[|h'.accepted| + (j - 1)] == Frame(h'.pending, j - 1);
        FrameBehind(h.pending, j - 1);
      }
    }
  }

  // A whole flush: frames of fifty, only the last may be shorter, up to the first refused one; if none is
  // refused it takes (n + 49) / 50 sends to bring the n pending events.
  lemma FlushedInFrames(h: Hub, sendOk: nat -> bool) returns (m: nat)
    ensures var p := After(h.items, h.cursor);
            && m <= (|p| + 49) / 50
            && (forall j :: 0 <= j < m ==> sendOk(j)) && (m < (|p| + 49) / 50 ==> !sendOk(m))
            && |Flushed(h, sendOk).accepted| == |h.accepted| + m
            && (forall j :: 0 <= j < m ==>
                  Flushed(h, sendOk).accepted[|h.accepted| + j] == Frame(p, j))
            && Flushed(h, sendOk).cursor == (if m == 0 then h.cursor
                                             else if 50 * m <= |p| then p[50 * m - 1].seqNo
                                             else p[|p| - 1].seqNo)
  {
    m := FlushSendsFrames(Next(h, Drain), 0, sendOk);
  }

  // ---------------------------------------------------------------- the object

  /** Ring, sequence counter and cursor, with the accepted batches recorded on the side. */
  class EventRing {
    const capacity: Capacity
    var items: seq<Event>
    var lastSeq: nat
    var cursor: nat
    ghost var log: seq<string>
    ghost var accepted: seq<seq<Event>>

    ghost function View(): Hub
      reads this
    {
      Hub(capacity, log, items, lastSeq, cursor, accepted, [])
    }

    constructor (capacity: int)
      ensures View() == NewHub(capacity) && this.capacity == (if capacity <= 0 then 1 else capacity)
    {
      this.capacity := Clamp(capacity);
      items, lastSeq, cursor := [], 0, 0;
      log, accepted := [], [];
    }

    method Append(message: string)
      modifies this
      ensures View() == Next(old(View()), Step.Append(message))
    {
      lastSeq := lastSeq + 1;
      var ev := Event(lastSeq, message);
      if |items| >= capacity {
        items := items[1..];
      }
      items := items + [ev];
      log := log + [message];
    }

    method DrainAfter(afterSeq: nat) returns (out: seq<Event>)
      ensures out == After(items, afterSeq)
    {
      out := [];
      for i := 0 to |items|
        invariant out + After(items[i..], afterSeq) == After(items, afterSeq)
      {
        assert items[i..][1..] == items[i + 1..];
        if items[i].seqNo > afterSeq {
          out := out + [items[i]];
        }
      }
      assert out + [] == out;
    }

    // One flush by the pusher of whichever connection is live.
    method Flush(done: bool, sendOk: nat -> bool)
      modifies this`cursor, this`accepted
      ensures View() == (if done then old(View()) else Flushed(old(View()), sendOk))
    {
      if done {
        return;
      }
      var pending := DrainAfter(cursor);
      ghost var h := View().(pending := pending);
      var start, sends := 0, 0;
      while start < |pending|
        invariant 0 <= start <= |pending|
        invariant FlushFrom(View().(pending := pending[start..]), sends, sendOk) == FlushFrom(h, 0, sendOk)
        decreases |pending| - start
      {
        var end := start + BATCH_CAP;
        if end > |pending| {
          end := |pending|;
        }
        var batch := pending[start..end];
        assert Batch(pending[start..]) == batch && pending[start..][|batch|..] == pending[end..];
        if !sendOk(sends) {
          return;
        }
        cursor := batch[|batch| - 1].seqNo;
        accepted := accepted + [batch];
        start, sends := end, sends + 1;
      }
    }
  }
}
