/**
 The hash of one audit event (internal/controlplane/audit/hashchain/hashchain.go), and the
 contract the chain verifier relies on.
 */
module HashChain {
  import opened Wrappers
  import opened JsonText
  import opened Json
  import opened ConfigCanon

  datatype Record = Record(
    id: string,
    actorID: string,
    action: string,
    targetID: string,
    createdAt: int, // nanoseconds
    details: Option<seq<Entry>>) // nil or a map

  /** The library calls of ComputeEventHash: hex SHA-256 and the RFC 3339 rendering of an instant. */
  datatype Hashing = Hashing(sha: string -> string, stamp: int -> string)

  ghost predicate Sound(h: Hashing) {
    && Injective(h.sha)
    && Injective(h.stamp)
    && forall t :: IsHex(h.sha(t))
  }

  // Not empty, lower case: what hex.EncodeToString yields for a digest.
  predicate IsHex(s: string) {
    s != [] && forall i :: 0 <= i < |s| ==> IsDigit(s[i]) || 'a' <= s[i] <= 'f'
  }

  // ---------------------------------------------------------------- the hash of one event

  const UNIT_SEPARATOR: char := 0x1f as char

  function RecordEntries(h: Hashing, r: Record): seq<Entry> {
    [Entry("id", GoString(r.id))] +
    ([Entry("actor_id", GoString(r.actorID))] +
    ([Entry("action", GoString(r.action))] +
    ([Entry("target_id", GoString(r.targetID))] +
    ([Entry("created_at", GoString(h.stamp(r.createdAt)))] +
    ([Entry("details", Sections(r.details))] + [])))))
  }

  predicate WellFormedRecord(r: Record) {
    WellFormed(Sections(r.details))
  }

  predicate Hashable(r: Record) {
    Supported(Sections(r.details))
  }

  function Payload(h: Hashing, prev: string, r: Record): string
    requires Hashable(r)
  {
    EntriesFacts(h, r);
    prev + [UNIT_SEPARATOR] + Print(Canonicalize(GoMap(RecordEntries(h, r))))
  }

  function ComputeEventHash(h: Hashing, prev: string, r: Record): Option<string> {
    if Hashable(r) then Some(h.sha(Payload(h, prev, r))) else None
  }

  // The same event: nil details are the empty map, and map order does not matter.
  predicate SameRecord(r: Record, s: Record) {
    && r.id == s.id && r.actorID == s.actorID && r.action == s.action
    && r.targetID == s.targetID && r.createdAt == s.createdAt
    && JsonOf(Sections(r.details)) == JsonOf(Sections(s.details))
  }

  lemma ConsFacts(e: Entry, es: seq<Entry>)
    ensures Keys([e] + es) == {e.key} + Keys(es)
    ensures SupportedEntries([e] + es) <==> Supported(e.value) && SupportedEntries(es)
    ensures WellFormedEntries([e] + es) <==> e.key !in Keys(es) && WellFormed(e.value) && WellFormedEntries(es)
    ensures SupportedEntries([e] + es) ==> MeaningOfEntries([e] + es) == MeaningOfEntries(es)[e.key := Meaning(e.value)]
  {
    assert ([e] + es)[1..] == es;
  }

  lemma EntriesFacts(h: Hashing, r: Record)
    ensures SupportedEntries(RecordEntries(h, r)) <==> Hashable(r)
    ensures WellFormedEntries(RecordEntries(h, r)) <==> WellFormedRecord(r)
    ensures Hashable(r) ==> MeaningOfEntries(RecordEntries(h, r)) == map[
      "details" := Meaning(Sections(r.details)),
      "created_at" := JString(h.stamp(r.createdAt)),
      "target_id" := JString(r.targetID),
      "action" := JString(r.action),
      "actor_id" := JString(r.actorID),
      "id" := JString(r.id)]
  {
    var e6 := [Entry("details", Sections(r.details))] + [];
    var e5 := [Entry("created_at", GoString(h.stamp(r.createdAt)))] + e6;
    var e4 := [Entry("target_id", GoString(r.targetID))] + e5;
    var e3 := [Entry("action", GoString(r.action))] + e4;
    var e2 := [Entry("actor_id", GoString(r.actorID))] + e3;
    ConsFacts(Entry("details", Sections(r.details)), []);
    ConsFacts(Entry("created_at", GoString(h.stamp(r.createdAt))), e6);
    ConsFacts(Entry("target_id", GoString(r.targetID)), e5);
    ConsFacts(Entry("action", GoString(r.action)), e4);
    ConsFacts(Entry("actor_id", GoString(r.actorID)), e3);
    ConsFacts(Entry("id", GoString(r.id)), e2);
  }

  lemma MembersOf(h: Hashing, r: Record)
    requires Hashable(r) && SupportedEntries(RecordEntries(h, r))
    ensures var m := MeaningOfEntries(RecordEntries(h, r));
            && m.Keys == {"id", "actor_id", "action", "target_id", "created_at", "details"}
            && m["id"] == JString(r.id) && m["actor_id"] == JString(r.actorID) && m["action"] == JString(r.action)
            && m["target_id"] == JString(r.targetID) && m["created_at"] == JString(h.stamp(r.createdAt))
            && m["details"] == Meaning(Sections(r.details))
  {
    EntriesFacts(h, r);
  }

  lemma SameMembersSameRecord(h: Hashing, r: Record, s: Record)
    requires Injective(h.stamp) && Hashable(r) && Hashable(s)
    requires SupportedEntries(RecordEntries(h, r)) && SupportedEntries(RecordEntries(h, s))
    ensures MeaningOfEntries(RecordEntries(h, r)) == MeaningOfEntries(RecordEntries(h, s)) <==> SameRecord(r, s)
  {
    MembersOf(h, r);
    MembersOf(h, s);
    var (m, n) := (MeaningOfEntries(RecordEntries(h, r)), MeaningOfEntries(RecordEntries(h, s)));
    if SameRecord(r, s) {
      assert forall k :: k in m.Keys ==> m[k] == n[k];
    } else {
      assert m["id"] != n["id"] || m["actor_id"] != n["actor_id"] || m["action"] != n["action"]
          || m["target_id"] != n["target_id"] || m["created_at"] != n["created_at"] || m["details"] != n["details"];
    }
  }

  // The last separator splits the payload, because the JSON text holds no control character.
  lemma SplitAtSeparator(p: string, t: string, q: string, u: string)
    requires NoControl(t) && NoControl(u)
    requires p + [UNIT_SEPARATOR] + t == q + [UNIT_SEPARATOR] + u
    ensures p == q && t == u
  {
    var x := p + [UNIT_SEPARATOR] + t;
    var y := q + [UNIT_SEPARATOR] + u;
    assert x[|p|] == UNIT_SEPARATOR && y[|q|] == UNIT_SEPARATOR;
    assert forall i :: |p| < i < |x| ==> x[i] == t[i - |p| - 1] >= ' ';
    assert forall i :: |q| < i < |y| ==> y[i] == u[i - |q| - 1] >= ' ';
    assert |p| == |q|;
    assert p == x[..|p|] && q == y[..|q|];
    assert t == x[|p| + 1..] && u == y[|q| + 1..];
  }

  // Neither the link to the past nor any field of the event can change without changing the hash.
  lemma EventHashInjective(h: Hashing, prev: string, r: Record, prev': string, s: Record)
    requires Sound(h) && WellFormedRecord(r) && WellFormedRecord(s)
    requires Hashable(r) && Hashable(s)
    ensures ComputeEventHash(h, prev, r) == ComputeEventHash(h, prev', s) <==> prev == prev' && SameRecord(r, s)
  {
    var (v, w) := (GoMap(RecordEntries(h, r)), GoMap(RecordEntries(h, s)));
    EntriesFacts(h, r);
    EntriesFacts(h, s);
    PrintIsSafe(Canonicalize(v));
    PrintIsSafe(Canonicalize(w));
    CanonicalBytesEqualIffSameJson(v, w);
    SameMembersSameRecord(h, r, s);
    if ComputeEventHash(h, prev, r) == ComputeEventHash(h, prev', s) {
      assert Payload(h, prev, r) == Payload(h, prev', s);
      SplitAtSeparator(prev, CanonicalBytes(v), prev', CanonicalBytes(w));
    }
  }

  // The event as JSON: six members under their names.
  function EventJson(h: Hashing, r: Record): Json {
    JObject(map[
      "details" := JsonOf(Sections(r.details)),
      "created_at" := JString(h.stamp(r.createdAt)),
      "target_id" := JString(r.targetID),
      "action" := JString(r.action),
      "actor_id" := JString(r.actorID),
      "id" := JString(r.id)])
  }

  lemma EventMeaning(h: Hashing, r: Record)
    requires Hashable(r)
    ensures JsonOf(GoMap(RecordEntries(h, r))) == EventJson(h, r)
  {
    EntriesFacts(h, r);
  }

  lemma SplitPayload(prev: string, t: string)
    ensures var p := prev + [UNIT_SEPARATOR] + t;
            |prev| < |p| && p[..|prev|] == prev && p[|prev|] as int == 0x1f && p[|prev| + 1..] == t
  {
  }

  // What is hashed: the previous hash, the byte 0x1f, and a text with sorted keys that reads back to the event.
  lemma PayloadReadsBack(h: Hashing, prev: string, r: Record)
    requires WellFormedRecord(r) && Hashable(r)
    ensures ComputeEventHash(h, prev, r) == Some(h.sha(Payload(h, prev, r)))
    ensures var (t, n) := (Payload(h, prev, r), |prev|);
            && n < |t| && t[..n] == prev && t[n] as int == 0x1f
            && ReadValue(t[n + 1..]).Some?
            && var (w, rest) := ReadValue(t[n + 1..]).value;
               rest == "" && Supported(w) && Canonical(w) && Meaning(w) == EventJson(h, r)
  {
    var v := GoMap(RecordEntries(h, r));
    EventMeaning(h, r);
    EntriesFacts(h, r);
    CanonicalBytesReadBack(v);
    SplitPayload(prev, CanonicalBytes(v));
  }

  // ---------------------------------------------------------------- as a contract

  type EventHash = (string, Record) -> Option<string>

  // A hash is a digest in hex, so never empty.
  ghost predicate HexEventHash(compute: EventHash) {
    forall p, r :: compute(p, r).Some? ==> IsHex(compute(p, r).value)
  }

  // And the two arguments can be recovered from it.
  ghost predicate SoundEventHash(compute: EventHash) {
    && HexEventHash(compute)
    && (forall p, r, q, s ::
          compute(p, r).Some? && compute(p, r) == compute(q, s) && WellFormedRecord(r) && WellFormedRecord(s) ==>
            p == q && SameRecord(r, s))
  }

  function Computing(h: Hashing): EventHash {
    (prev: string, r: Record) => ComputeEventHash(h, prev, r)
  }

  // ComputeEventHash meets the contract whenever the digest is injective.
  lemma ComputingIsSound(h: Hashing)
    requires Sound(h)
    ensures SoundEventHash(Computing(h))
  {
    forall p, r, q, s | ComputeEventHash(h, p, r).Some? && ComputeEventHash(h, p, r) == ComputeEventHash(h, q, s)
        && WellFormedRecord(r) && WellFormedRecord(s)
      ensures p == q && SameRecord(r, s)
    {
      EventHashInjective(h, p, r, q, s);
    }
  }
}
