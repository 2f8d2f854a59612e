/**
 The observed-config reporter (internal/agent/runtime/observed_config.go): the canonical hash on
 every call, the canonical text only when the hash changed. And its link to the panel, which differs
 from the other gated sections: the panel passes over the instances of a partial snapshot although
 the reporter has recorded their hash, keeps the hash next to the text, and takes no instances from
 an unreachable, usage or address snapshot (internal/controlplane/server/agent_snapshot.go).
 */
module ObservedConfig {
  import opened Wrappers
  import opened Json
  import opened ConfigCanon

  type Config = Option<seq<Entry>> // nil or a map

  function Text(m: Config): string {
    CanonicalBytes(Sections(m))
  }

  class ObservedConfigReporter {
    const sha: string -> string
    var lastHash: string

    constructor (sha: string -> string)
      ensures this.sha == sha && lastHash == ""
    {
      this.sha := sha;
      lastHash := "";
    }

    method Next(sections: Config) returns (hash: string, json: string)
      modifies this`lastHash
      ensures hash == Hash(sha, sections) && lastHash == hash
      ensures json == (if hash == old(lastHash) then "" else Text(sections))
      // A body that is sent is the very text whose hash goes with it.
      ensures json != "" ==> sha(json) == hash
    {
      hash := Hash(sha, sections);
      if hash == lastHash {
        return hash, "";
      }
      lastHash := hash;
      var current := sections;
      if current.None? {
        current := Some([]);
      }
      json := CanonicalBytes(GoMap(current.value));
    }

    method Reset()
      modifies this`lastHash
      ensures lastHash == ""
    {
      lastHash := "";
    }

    // The config part of one runtime snapshot; reading the config may fail, and then the gate is not asked.
    method Report(reading: Reading, partial: bool) returns (snapshot: Snapshot)
      modifies this`lastHash
      ensures snapshot == SnapshotOf(sha, old(lastHash), reading, partial)
      ensures lastHash == HashAfter(sha, old(lastHash), reading)
    {
      var hash, json := "", "";
      if reading.Read? {
        hash, json := Next(reading.sections);
      }
      snapshot := Snapshot(hash, json, partial);
    }
  }

  // Canonical text is never empty, so it cannot be mistaken for "unchanged".
  lemma CanonicalBytesNotEmpty(v: GoValue)
    ensures CanonicalBytes(v) != ""
  {
    if Supported(v) {
      PrintStarts(Canonicalize(v));
    }
  }

  // ---------------------------------------------------------------- the link to the panel

  datatype Reading = Read(sections: Config) | ReadFails

  datatype Snapshot = Snapshot(hash: string, json: string, partial: bool)

  function SnapshotOf(sha: string -> string, lastHash: string, reading: Reading, partial: bool): Snapshot {
    match reading
    case ReadFails => Snapshot("", "", partial)
    case Read(m) => Snapshot(Hash(sha, m), if Hash(sha, m) == lastHash then "" else Text(m), partial)
  }

  function HashAfter(sha: string -> string, lastHash: string, reading: Reading): string {
    if reading.Read? then Hash(sha, reading.sections) else lastHash
  }

  datatype Step =
    | Poll(reading: Reading, partial: bool) // its sample becomes the newest one in the ring
    | Upload                                // the panel receives the newest sample
    | Drop                                  // the upload is refused, or the connection and its ring end
    | Send(reading: Reading, partial: bool) // the initial snapshot, or the one after a job
    | Reset
    | PanelRestart                          // the panel's store of instances is empty
    | NoInstances                           // an unreachable, usage or address snapshot

  /** The reporter's field, the newest sample not yet uploaded, and hash and text in the panel's store. */
  datatype Link = Link(lastHash: string, sample: Option<Snapshot>, hash: string, text: string)

  // applyAgentSnapshot: a snapshot without a text keeps the text and replaces the hash.
  function Commit(s: Link, snapshot: Snapshot): Link {
    if snapshot.partial then s
    else s.(hash := snapshot.hash, text := if snapshot.json == "" then s.text else snapshot.json)
  }

  function Apply(sha: string -> string, s: Link, step: Step): Link {
    match step
    case Poll(reading, partial) =>
      s.(lastHash := HashAfter(sha, s.lastHash, reading), sample := Some(SnapshotOf(sha, s.lastHash, reading, partial)))
    case Upload => if s.sample.None? then s else Commit(s, s.sample.value).(sample := None)
    case Drop => s.(sample := None)
    case Send(reading, partial) =>
      Commit(s, SnapshotOf(sha, s.lastHash, reading, partial)).(lastHash := HashAfter(sha, s.lastHash, reading))
    case Reset => s.(lastHash := "")
    case PanelRestart => s.(hash := "", text := "")
    case NoInstances => s
  }

  function RunFrom(sha: string -> string, s: Link, steps: seq<Step>): Link {
    if steps == [] then s
    else Apply(sha, RunFrom(sha, s, steps[..|steps| - 1]), steps[|steps| - 1])
  }

  function Run(sha: string -> string, steps: seq<Step>): Link {
    RunFrom(sha, Link("", None, "", ""), steps)
  }

  // The held text hashes to the hash that is held with it; an empty hash says nothing about the text.
  predicate Matching(sha: string -> string, s: Link) {
    s.hash != "" ==> sha(s.text) == s.hash
  }

  // ---------------------------------------------------------------- what the link depends on

  /** A text that was read, and whether it differed from the one read before. */
  datatype Noted = Noted(text: Option<string>, changed: bool, partial: bool)

  /** The text read last since the reset, and the newest sample. */
  datatype Trace = Trace(asked: Option<string>, sample: Option<Noted>)

  function Note(t: Trace, reading: Reading, partial: bool): Noted {
    match reading
    case ReadFails => Noted(None, false, partial)
    case Read(m) => Noted(Some(Text(m)), t.asked != Some(Text(m)), partial)
  }

  function AskedAfter(t: Trace, reading: Reading): Option<string> {
    if reading.Read? then Some(Text(reading.sections)) else t.asked
  }

  function TraceOf(steps: seq<Step>): Trace {
    if steps == [] then Trace(None, None)
    else
      var t := TraceOf(steps[..|steps| - 1]);
      match steps[|steps| - 1]
      case Poll(reading, partial) => Trace(AskedAfter(t, reading), Some(Note(t, reading, partial)))
      case Upload => t.(sample := None)
      case Drop => t.(sample := None)
      case Send(reading, _) => t.(asked := AskedAfter(t, reading))
      case Reset => t.(asked := None)
      case _ => t
  }

  // What step brings to the panel's store, if anything.
  function Delivery(t: Trace, step: Step): Option<Noted> {
    match step
    case Upload => if t.sample.Some? && !t.sample.value.partial then t.sample else None
    case Send(reading, partial) => if partial then None else Some(Note(t, reading, partial))
    case _ => None
  }

  ghost predicate SoundDigest(sha: string -> string) {
    (forall t :: sha(t) != "") && Injective(sha)
  }

  predicate SampleFollows(sha: string -> string, snapshot: Snapshot, n: Noted) {
    && snapshot.partial == n.partial
    && snapshot.hash == (if n.text.Some? then sha(n.text.value) else "")
    && snapshot.json == (if n.text.Some? && n.changed then n.text.value else "")
    && n.text != Some("")
  }

  predicate Follows(sha: string -> string, s: Link, t: Trace) {
    && s.lastHash == (if t.asked.Some? then sha(t.asked.value) else "")
    && (s.sample.Some? <==> t.sample.Some?)
    && (s.sample.Some? ==> SampleFollows(sha, s.sample.value, t.sample.value))
  }

  lemma ReadingFollows(sha: string -> string, s: Link, t: Trace, reading: Reading, partial: bool)
    requires SoundDigest(sha) && Follows(sha, s, t)
    ensures SampleFollows(sha, SnapshotOf(sha, s.lastHash, reading, partial), Note(t, reading, partial))
    ensures HashAfter(sha, s.lastHash, reading)
         == (if AskedAfter(t, reading).Some? then sha(AskedAfter(t, reading).value) else "")
  {
    if reading.Read? {
      CanonicalBytesNotEmpty(Sections(reading.sections));
      assert sha(Text(reading.sections)) != "";
    }
  }

  lemma {:induction false} LinkFollowsTrace(sha: string -> string, steps: seq<Step>)
    requires SoundDigest(sha)
    ensures Follows(sha, Run(sha, steps), TraceOf(steps))
  {
    if steps != [] {
      var (before, step) := (steps[..|steps| - 1], steps[|steps| - 1]);
      LinkFollowsTrace(sha, before);
      if step.Poll? || step.Send? {
        ReadingFollows(sha, Run(sha, before), TraceOf(before), step.reading, step.partial);
      }
    }
  }

  // A text is delivered well when it differed from the text read before it, or the panel holds it already.
  predicate DeliveredWell(sha: string -> string, steps: seq<Step>, step: Step) {
    var d := Delivery(TraceOf(steps), step);
    d.Some? && d.value.text.Some? ==> d.value.changed || Run(sha, steps).text == d.value.text.value
  }

  // What one step does to hash and text.
  lemma StepEffect(sha: string -> string, steps: seq<Step>, step: Step)
    requires SoundDigest(sha)
    ensures var (d, s, s') := (Delivery(TraceOf(steps), step), Run(sha, steps), Run(sha, steps + [step]));
            if step.PanelRestart? then s'.hash == "" && s'.text == ""
            else if d.None? then s'.hash == s.hash && s'.text == s.text
            else s'.hash == (if d.value.text.Some? then sha(d.value.text.value) else "")
                 && s'.text == (if d.value.text.Some? && d.value.changed then d.value.text.value else s.text)
  {
    LinkFollowsTrace(sha, steps);
    assert (steps + [step])[..|steps|] == steps;
    if step.Send? {
      ReadingFollows(sha, Run(sha, steps), TraceOf(steps), step.reading, step.partial);
    }
  }

  // A sample is uploaded once at most, and not at all once it was dropped.
  lemma SampleIsTakenOnce(sha: string -> string, steps: seq<Step>, step: Step)
    requires step.Upload? || step.Drop?
    ensures Run(sha, steps + [step]).sample == None
    ensures Run(sha, steps + [step] + [Upload]) == Run(sha, steps + [step])
  {
    assert (steps + [step])[..|steps|] == steps;
    assert (steps + [step] + [Upload])[..|steps| + 1] == steps + [step];
  }

  lemma MatchingStep(sha: string -> string, steps: seq<Step>, step: Step)
    requires SoundDigest(sha) && Matching(sha, Run(sha, steps))
    ensures Matching(sha, Run(sha, steps + [step])) <==> DeliveredWell(sha, steps, step)
  {
    StepEffect(sha, steps, step);
    var d := Delivery(TraceOf(steps), step);
    if d.Some? && d.value.text.Some? {
      assert sha(d.value.text.value) != "";
    }
  }

  lemma {:induction false} MatchingUpTo(sha: string -> string, steps: seq<Step>, n: nat)
    requires SoundDigest(sha) && n <= |steps|
    requires forall i :: 0 <= i < n ==> DeliveredWell(sha, steps[..i], steps[i])
    ensures Matching(sha, Run(sha, steps[..n]))
  {
    if n > 0 {
      MatchingUpTo(sha, steps, n - 1);
      assert steps[..n] == steps[..n - 1] + [steps[n - 1]];
      MatchingStep(sha, steps[..n - 1], steps[n - 1]);
    }
  }

  // The panel's text has the reported hash at every point of a run exactly when every text was delivered
  // well: a change that a partial snapshot, a superseded sample or a dropped upload took is not made up for.
  lemma {:induction false} AlwaysMatchingIff(sha: string -> string, steps: seq<Step>)
    requires SoundDigest(sha)
    ensures (forall n :: 0 <= n <= |steps| ==> Matching(sha, Run(sha, steps[..n])))
       <==> (forall n :: 0 <= n < |steps| ==> DeliveredWell(sha, steps[..n], steps[n]))
  {
    if forall n :: 0 <= n < |steps| ==> DeliveredWell(sha, steps[..n], steps[n]) {
      forall n | 0 <= n <= |steps|
        ensures Matching(sha, Run(sha, steps[..n]))
      {
        MatchingUpTo(sha, steps, n);
      }
    }
    if forall n :: 0 <= n <= |steps| ==> Matching(sha, Run(sha, steps[..n])) {
      forall n | 0 <= n < |steps|
        ensures DeliveredWell(sha, steps[..n], steps[n])
      {
        assert steps[..n + 1] == steps[..n] + [steps[n]];
        assert Matching(sha, Run(sha, steps[..n])) && Matching(sha, Run(sha, steps[..n + 1]));
        MatchingStep(sha, steps[..n], steps[n]);
      }
    }
  }

  // After any run: a config that is delivered reaches the panel, to be read back as the very config the
  // agent observed, exactly when it differed from the one read before or the panel held its text already.
  lemma ReceiverHoldsReportedConfigIff(sha: string -> string, steps: seq<Step>, step: Step, m: Config)
    requires SoundDigest(sha) && WellFormed(Sections(m))
    requires Delivery(TraceOf(steps), step).Some? && Delivery(TraceOf(steps), step).value.text == Some(Text(m))
    ensures var s := Run(sha, steps + [step]);
            && s.hash == Hash(sha, m)
            && (sha(s.text) == s.hash <==>
                  Delivery(TraceOf(steps), step).value.changed || Run(sha, steps).text == Text(m))
            && (sha(s.text) == s.hash ==>
                  ReadValue(s.text).Some? && ReadValue(s.text).value.1 == ""
                  && JsonOf(ReadValue(s.text).value.0) == JsonOf(Sections(m)))
  {
    StepEffect(sha, steps, step);
    CanonicalBytesReadBack(Sections(m));
  }

  // ---------------------------------------------------------------- runs without loss

  predicate Owed(steps: seq<Step>) {
    if steps == [] then false
    else
      match steps[|steps| - 1]
      case PanelRestart => true
      case Reset => false
      case _ => Owed(steps[..|steps| - 1])
  }

  // Every snapshot is whole and reaches the panel before the next one is made, and every restart of the
  // panel is followed by a reset before the next snapshot.
  predicate Lossless(steps: seq<Step>) {
    steps == [] ||
    (var before := steps[..|steps| - 1];
     && Lossless(before)
     && match steps[|steps| - 1]
        case Poll(_, partial) => !partial && !Owed(before) && TraceOf(before).sample.None?
        case Send(_, partial) => !partial && !Owed(before) && TraceOf(before).sample.None?
        case PanelRestart => TraceOf(before).sample.None?
        case Drop => false
        case _ => true)
  }

  // What the panel holds is then always the text with the hash it was told.
  lemma {:induction false} LosslessKeepsMatching(sha: string -> string, steps: seq<Step>)
    requires SoundDigest(sha) && Lossless(steps)
    ensures var (s, t) := (Run(sha, steps), TraceOf(steps));
            && Matching(sha, s)
            && (t.sample.Some? ==> !t.sample.value.partial)
            && (t.sample.Some? && t.sample.value.text.Some? ==> t.sample.value.changed || t.sample.value.text.value == s.text)
            && (t.asked.Some? && !Owed(steps) ==>
                  t.asked.value == if t.sample.Some? && t.sample.value.text.Some? then t.sample.value.text.value else s.text)
  {
    if steps != [] {
      var (before, step) := (steps[..|steps| - 1], steps[|steps| - 1]);
      LosslessKeepsMatching(sha, before);
      assert steps == before + [step];
      MatchingStep(sha, before, step);
      StepEffect(sha, before, step);
    }
  }

  // ---------------------------------------------------------------- what is lost, and for how long

  // Further whole snapshots of the same config, and whatever brings no config.
  predicate Repeat(step: Step, m: Config) {
    match step
    case Poll(reading, partial) => reading == Read(m) && !partial
    case Send(reading, partial) => reading == Read(m) && !partial
    case Reset => false
    case PanelRestart => false
    case _ => true
  }

  predicate Repeats(steps: seq<Step>, m: Config) {
    forall i :: 0 <= i < |steps| ==> Repeat(steps[i], m)
  }

  // The reporter remembers the config, and no sample in the ring carries its text.
  predicate Lost(sha: string -> string, s: Link, m: Config) {
    s.lastHash == Hash(sha, m) && (s.sample.None? || s.sample == Some(Snapshot(Hash(sha, m), "", false)))
  }

  lemma LostStep(sha: string -> string, s: Link, m: Config, step: Step)
    requires Lost(sha, s, m) && Repeat(step, m)
    ensures var t := Apply(sha, s, step);
            Lost(sha, t, m) && t.text == s.text && (t.hash == s.hash || t.hash == Hash(sha, m))
  {
  }

  // Then no further report of it brings it.
  lemma {:induction false} LostStaysLost(sha: string -> string, s: Link, m: Config, steps: seq<Step>)
    requires Repeats(steps, m) && Lost(sha, s, m)
    ensures var t := RunFrom(sha, s, steps);
            Lost(sha, t, m) && t.text == s.text && (t.hash == s.hash || t.hash == Hash(sha, m))
  {
    if steps != [] {
      LostStaysLost(sha, s, m, steps[..|steps| - 1]);
      LostStep(sha, RunFrom(sha, s, steps[..|steps| - 1]), m, steps[|steps| - 1]);
    }
  }

  lemma {:induction false} RunAppend(sha: string -> string, s: Link, a: seq<Step>, b: seq<Step>)
    ensures RunFrom(sha, s, a + b) == RunFrom(sha, RunFrom(sha, s, a), b)
  {
    if b == [] {
      assert a + b == a;
    } else {
      RunAppend(sha, s, a, b[..|b| - 1]);
      assert (a + b)[..|a + b| - 1] == a + b[..|b| - 1];
    }
  }

  // A config that changes in a partial snapshot never reaches the panel: from the next whole snapshot on,
  // the panel shows the new hash beside the old text.
  lemma PartialChangeIsLost(sha: string -> string, a: Config, b: Config, steps: seq<Step>)
    requires SoundDigest(sha) && Repeats(steps, b) && Text(a) != Text(b)
    ensures var s := Run(sha, [Send(Read(a), false), Send(Read(b), true), Send(Read(b), false)] + steps);
            s.text == Text(a) && s.hash == Hash(sha, b) && !Matching(sha, s)
  {
    var first := [Send(Read(a), false), Send(Read(b), true), Send(Read(b), false)];
    var start := Link("", None, "", "");
    var s := Link(Hash(sha, b), None, Hash(sha, b), Text(a));
    CanonicalBytesNotEmpty(Sections(a));
    assert sha(Text(a)) != "" && sha(Text(b)) != "";
    assert first[..2][..1] == first[..1] && first[..1][..0] == [];
    assert RunFrom(sha, start, first[..1]) == Link(Hash(sha, a), None, Hash(sha, a), Text(a));
    assert RunFrom(sha, start, first[..2]) == Link(Hash(sha, b), None, Hash(sha, a), Text(a));
    assert RunFrom(sha, start, first) == s;
    RunAppend(sha, start, first, steps);
    LostStaysLost(sha, s, b, steps);
  }
}
