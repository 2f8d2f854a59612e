/**
 Upload intervals, put together from their parts: every poll asks the content-hash gate and pushes
 its sample (internal/agent/conn/polling.go), the upload forwards the newest sample
 (internal/agent/runtime/ring_buffer.go), and the panel carries forward.
 */
module UploadInterval {
  import opened Wrappers
  import opened DeltaLink
  import opened DeltaGate
  import opened SampleRing

  // The panel's side of one upload; an empty ring uploads nothing.
  method Upload(ring: RuntimeRingBuffer<Message<seq<Field>>>, zero: seq<Field>, held: seq<Field>) returns (after: seq<Field>)
    requires ring.Valid()
    modifies ring, ring.samples
    ensures ring.Valid() && ring.count == 0
    ensures after == (if old(ring.count) == 0 then held else Receive(zero, held, old(ring.Contents()[ring.count - 1])))
  {
    var newest, drained := ring.DrainNewest();
    after := if drained == 0 then held else Receive(zero, held, newest);
  }

  // One interval, from whatever the gate remembers and the panel holds, is the run of its polls and its
  // upload: how many samples the ring had room for does not matter.
  method RunUploadInterval(gate: ContentHashGate, ring: RuntimeRingBuffer<Message<seq<Field>>>, zero: seq<Field>,
                           held: seq<Field>, polls: seq<seq<Field>>) returns (after: seq<Field>)
    requires ring.Valid() && ring.count == 0
    modifies gate, ring, ring.samples
    ensures ring.Valid() && ring.count == 0
    ensures Link(gate.lastHash, None, after)
         == RunFrom(TupleDigest(gate.sha), zero, Link(old(gate.lastHash), None, held), IntervalOps(polls))
  {
    ghost var digest := TupleDigest(gate.sha);
    ghost var start := Link(gate.lastHash, None, held);
    for i := 0 to |polls|
      invariant ring.Valid() && (ring.count == 0 <==> i == 0)
      invariant RunFrom(digest, zero, start, Polls(polls[..i]))
             == Link(gate.lastHash, if i == 0 then None else Some(ring.Contents()[ring.count - 1]), held)
    {
      assert Polls(polls[..i + 1]) == Polls(polls[..i]) + [Op.Poll(polls[i])];
      RunSnoc(digest, zero, start, Polls(polls[..i]), Op.Poll(polls[i]));
      var m := Report(gate, zero, polls[i]);
      ring.Push(m);
    }
    assert polls[..|polls|] == polls;
    RunSnoc(digest, zero, start, Polls(polls), Op.Upload);
    after := Upload(ring, zero, held);
  }

  // Any number of intervals, some of which begin with a reset of the gate.
  method RunUploadIntervals(gate: ContentHashGate, ring: RuntimeRingBuffer<Message<seq<Field>>>, zero: seq<Field>,
                            held: seq<Field>, intervals: seq<Interval<seq<Field>>>) returns (after: seq<Field>)
    requires ring.Valid() && ring.count == 0
    modifies gate, ring, ring.samples
    ensures ring.Valid() && ring.count == 0
    ensures Link(gate.lastHash, None, after)
         == RunFrom(TupleDigest(gate.sha), zero, Link(old(gate.lastHash), None, held), AllOps(intervals))
    // From a new gate and an empty panel: the panel holds the body of the last interval whose last poll
    // brought a change, and what earlier polls of an interval brought is lost.
    ensures SoundHash(gate.sha) && old(gate.lastHash) == "" && held == zero ==> after == KeptAfter(zero, intervals).carried
  {
    ghost var digest := TupleDigest(gate.sha);
    ghost var start := Link(gate.lastHash, None, held);
    after := held;
    for i := 0 to |intervals|
      invariant ring.Valid() && ring.count == 0
      invariant Link(gate.lastHash, None, after) == RunFrom(digest, zero, start, AllOps(intervals[..i]))
    {
      ghost var s := Link(gate.lastHash, None, after);
      ghost var first: seq<Op<seq<Field>>> := if intervals[i].reset then [Op.Reset] else [];
      assert intervals[..i + 1][..i] == intervals[..i];
      RunAppend(digest, zero, start, AllOps(intervals[..i]), OpsOf(intervals[i]));
      RunAppend(digest, zero, s, first, IntervalOps(intervals[i].bodies));
      RunSnoc(digest, zero, s, [], Op.Reset);
      if intervals[i].reset {
        gate.Reset();
      }
      assert RunFrom(digest, zero, s, first) == Link(gate.lastHash, None, after);
      after := RunUploadInterval(gate, ring, zero, after, intervals[i].bodies);
    }
    assert intervals[..|intervals|] == intervals;
    if SoundHash(gate.sha) {
      TupleDigestIsSound(gate.sha);
      PanelAfterIntervals(digest, zero, intervals);
    }
  }
}
