/**
 The ring of poll samples between two uploads (internal/agent/runtime/ring_buffer.go): fixed
 storage written in place, read out oldest first.
 */
module SampleRing {
  // Where index x of a buffer of n slots lies once it has gone round at most once.
  function Around(x: nat, n: nat): (slot: nat)
    requires x < 2 * n
    ensures slot < n
  {
    if x < n then x else x - n
  }

  method Modulo(x: nat, n: nat) returns (r: nat)
    requires x < 2 * n
    ensures r == Around(x, n)
  {
    r := x % n;
  }

  // The slot of the i-th oldest of `count` entries that end just before `head`.
  function Slot(n: nat, head: nat, count: nat, i: nat): (slot: nat)
    requires head < n && i < count <= n
    ensures slot < n
  {
    Around(Around(head + n - count, n) + i, n)
  }

  // The entries, oldest first.
  function Ordered<T>(storage: seq<T>, head: nat, count: nat): (r: seq<T>)
    requires head < |storage| && count <= |storage|
    ensures |r| == count
    ensures forall i :: 0 <= i < count ==> r[i] == storage[Slot(|storage|, head, count, i)]
  {
    seq(count, i requires 0 <= i < count => storage[Slot(|storage|, head, count, i)])
  }

  lemma PushWithRoom<T>(storage: seq<T>, head: nat, count: nat, sample: T)
    requires head < |storage| && count < |storage|
    ensures Ordered(storage[head := sample], Around(head + 1, |storage|), count + 1) == Ordered(storage, head, count) + [sample]
  {
    var n := |storage|;
    var (was, now) := (Ordered(storage, head, count), Ordered(storage[head := sample], Around(head + 1, n), count + 1));
    forall i | 0 <= i < count
      ensures now[i] == was[i]
    {
      assert Slot(n, Around(head + 1, n), count + 1, i) == Slot(n, head, count, i) != head;
    }
    assert Slot(n, Around(head + 1, n), count + 1, count) == head;
  }

  lemma PushWhenFull<T>(storage: seq<T>, head: nat, sample: T)
    requires head < |storage|
    ensures Ordered(storage[head := sample], Around(head + 1, |storage|), |storage|)
         == Ordered(storage, head, |storage|)[1..] + [sample]
  {
    var n := |storage|;
    var (was, now) := (Ordered(storage, head, n), Ordered(storage[head := sample], Around(head + 1, n), n));
    forall i | 0 <= i < n - 1
      ensures now[i] == was[i + 1]
    {
      assert Slot(n, Around(head + 1, n), n, i) == Slot(n, head, n, i + 1) != head;
    }
    assert Slot(n, Around(head + 1, n), n, n - 1) == head;
  }

  class RuntimeRingBuffer<T> {
    const zero: T
    const samples: array<T>
    var head: nat    // index of the next write
    var count: nat   // number of valid entries
    var dropped: nat

    predicate Valid()
      reads this
    {
      head < samples.Length && count <= samples.Length
    }

    function Contents(): (s: seq<T>)
      reads this, samples
      requires Valid()
    {
      Ordered(samples[..], head, count)
    }

    constructor (capacity: nat, zero: T)
      requires capacity > 0
      ensures Valid() && fresh(samples) && samples.Length == capacity && this.zero == zero
      ensures Contents() == [] && dropped == 0
    {
      this.zero := zero;
      samples := new T[capacity](_ => zero);
      head, count, dropped := 0, 0, 0;
    }

    // The newest sample goes in; a full ring loses its oldest one and counts it.
    method Push(sample: T)
      requires Valid()
      modifies this, samples
      ensures Valid()
      ensures old(count) < samples.Length ==> Contents() == old(Contents()) + [sample] && dropped == old(dropped)
      ensures old(count) == samples.Length ==> Contents() == old(Contents())[1..] + [sample] && dropped == old(dropped) + 1
    {
      ghost var before := samples[..];
      if count < samples.Length {
        PushWithRoom(before, head, count, sample);
      } else {
        PushWhenFull(before, head, sample);
      }
      samples[head] := sample;
      assert samples[..] == before[head := sample];
      head := Modulo(head + 1, samples.Length);
      if count < samples.Length {
        count := count + 1;
      } else {
        dropped := dropped + 1;
      }
    }

    // Oldest first; the ring is empty afterwards and every slot is zeroed.
    method SnapshotOrdered() returns (out: seq<T>)
      requires Valid()
      modifies this`head, this`count, samples
      ensures Valid() && out == old(Contents()) && count == 0
      ensures out != [] ==> forall i :: 0 <= i < samples.Length ==> samples[i] == zero
    {
      out := [];
      if count == 0 {
        return;
      }
      ghost var storage := samples[..];
      var start := Modulo(head + samples.Length - count, samples.Length);
      for i := 0 to count
        invariant head == old(head) && count == old(count) && samples[..] == storage
        invariant out == Ordered(storage, head, count)[..i]
      {
        var slot := Modulo(start + i, samples.Length);
        out := out + [samples[slot]];
      }
      for i := 0 to samples.Length
        modifies samples
        invariant head == old(head) && count == old(count)
        invariant forall j :: 0 <= j < i ==> samples[j] == zero
      {
        samples[i] := zero;
      }
      head, count := 0, 0;
    }

    // The base of the aggregated snapshot is the sample that was pushed last; the rest only feed averages.
    method DrainNewest() returns (newest: T, drained: nat)
      requires Valid()
      modifies this`head, this`count, samples
      ensures Valid() && count == 0 && drained == old(count)
      ensures drained > 0 ==> newest == old(Contents())[drained - 1]
    {
      var out := SnapshotOrdered();
      drained := |out|;
      newest := if drained > 0 then out[drained - 1] else zero;
    }
  }
}
