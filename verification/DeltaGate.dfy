/**
 The content-hash gate (internal/agent/runtime/diagnostics_gate.go): the byte stream it hashes,
 and the gate as an object.
 */
module DeltaGate {
  import opened Wrappers
  import opened DeltaLink
  import opened Sequences

  newtype Byte = x: int | 0 <= x < 256

  // A Go string: bytes, and never as long as 2^63 of them.
  type Field = f: seq<Byte> | |f| < 0x8000_0000_0000_0000 witness []

  // ---------------------------------------------------------------- the hashed stream

  // binary.BigEndian: the width low bytes of n, most significant first.
  function BigEndian(n: nat, width: nat): (bytes: seq<Byte>)
    ensures |bytes| == width
  {
    if width == 0 then [] else BigEndian(n / 256, width - 1) + [(n % 256) as Byte]
  }

  function FromBigEndian(bytes: seq<Byte>): nat {
    if bytes == [] then 0
    else FromBigEndian(bytes[..|bytes| - 1]) * 256 + bytes[|bytes| - 1] as int
  }

  function Range(width: nat): (r: nat)
    ensures r > 0
  {
    if width == 0 then 1 else 256 * Range(width - 1)
  }

  lemma {:induction false} BigEndianRoundTrip(n: nat, width: nat)
    requires n < Range(width)
    ensures FromBigEndian(BigEndian(n, width)) == n
  {
    if width > 0 {
      assert n / 256 < Range(width - 1);
      BigEndianRoundTrip(n / 256, width - 1);
      var bytes := BigEndian(n, width);
      assert bytes[..|bytes| - 1] == BigEndian(n / 256, width - 1);
    }
  }

  // Byte i of eight has weight 256 to the power of 7 - i: the most significant one comes first.
  lemma {:induction false} BigEndianBytes(n: nat, width: nat, i: nat)
    requires i < width
    ensures BigEndian(n, width)[i] as int == n / Range(width - 1 - i) % 256
  {
    if i < width - 1 {
      BigEndianBytes(n / 256, width - 1, i);
      DivideTwice(n, Range(width - 2 - i));
    } else {
      assert Range(0) == 1;
    }
  }

  lemma DivideTwice(n: nat, m: nat)
    requires m > 0
    ensures n / 256 / m == n / (256 * m)
  {
    var (q, r) := (n / 256, n % 256);
    var (p, t) := (q / m, q % m);
    assert n == 256 * q + r && q == m * p + t;
    assert n == (256 * m) * p + (256 * t + r);
    assert 256 * t + r < 256 * m;
    QuotientUnique(n, 256 * m, p, 256 * t + r);
  }

  lemma QuotientUnique(n: int, d: int, p: int, r: int)
    requires 0 <= r < d && n == d * p + r
    ensures n / d == p
  {
    var k := n / d - p;
    assert d * k == r - n % d;
    assert k >= 1 ==> d * k >= d;
    assert k <= -1 ==> d * k <= -d;
  }

  lemma LengthFits(f: Field)
    ensures |f| < Range(8)
  {
    assert Range(8) == 256 * 256 * 256 * 256 * Range(4);
    assert Range(4) == 256 * 256 * 256 * 256 * Range(0);
  }

  // An 8-byte length in front of every field.
  function Stream(fields: seq<Field>): seq<Byte> {
    if fields == [] then [] else BigEndian(|fields[0]|, 8) + fields[0] + Stream(fields[1..])
  }

  function Decode(bytes: seq<Byte>): Option<seq<seq<Byte>>>
    decreases |bytes|
  {
    if bytes == [] then Some([])
    else if |bytes| < 8 then None
    else
      var n := FromBigEndian(bytes[..8]);
      if |bytes| - 8 < n then None
      else
        match Decode(bytes[8 + n..])
        case None => None
        case Some(rest) => Some([bytes[8..8 + n]] + rest)
  }

  lemma {:induction false} DecodeStream(fields: seq<Field>)
    ensures Decode(Stream(fields)) == Some(fields)
  {
    if fields != [] {
      var head := BigEndian(|fields[0]|, 8);
      var bytes := Stream(fields);
      LengthFits(fields[0]);
      BigEndianRoundTrip(|fields[0]|, 8);
      assert bytes[..8] == head;
      assert bytes[8..8 + |fields[0]|] == fields[0];
      assert bytes[8 + |fields[0]|..] == Stream(fields[1..]);
      DecodeStream(fields[1..]);
      assert [fields[0]] + fields[1..] == fields;
    }
  }

  // Field boundaries cannot be moved without changing the stream.
  lemma StreamInjective(a: seq<Field>, b: seq<Field>)
    ensures Stream(a) == Stream(b) <==> a == b
  {
    DecodeStream(a);
    DecodeStream(b);
  }

  // ---------------------------------------------------------------- the gate

  // What the digest is fed, field by field.
  method WriteFields(fields: seq<Field>) returns (written: seq<Byte>)
    ensures written == Stream(fields)
  {
    written := [];
    for i := 0 to |fields|
      invariant written + Stream(fields[i..]) == Stream(fields)
    {
      assert fields[i..][1..] == fields[i + 1..];
      RegroupFour(written, BigEndian(|fields[i]|, 8), fields[i], Stream(fields[i + 1..]));
      written := written + BigEndian(|fields[i]|, 8);
      written := written + fields[i];
    }
    assert written + [] == written;
  }

  class ContentHashGate {
    const sha: seq<Byte> -> string
    var lastHash: string

    constructor (sha: seq<Byte> -> string)
      ensures this.sha == sha && lastHash == ""
    {
      this.sha := sha;
      lastHash := "";
    }

    method Next(fields: seq<Field>) returns (hash: string, sendBody: bool)
      modifies this`lastHash
      ensures hash == sha(Stream(fields))
      ensures sendBody <==> hash != old(lastHash)
      ensures lastHash == hash
    {
      var written := WriteFields(fields);
      hash := sha(written);
      if hash == lastHash {
        return hash, false;
      }
      lastHash := hash;
      sendBody := true;
    }

    method Reset()
      modifies this`lastHash
      ensures lastHash == ""
    {
      lastHash := "";
    }
  }

  // ---------------------------------------------------------------- as a delta link

  function TupleDigest(sha: seq<Byte> -> string): seq<Field> -> string {
    fields => sha(Stream(fields))
  }

  ghost predicate SoundHash(sha: seq<Byte> -> string) {
    (forall b :: sha(b) != "") && (forall b, c :: sha(b) == sha(c) ==> b == c)
  }

  // Field tuples of any number of fields meet the contract of the delta link.
  lemma TupleDigestIsSound(sha: seq<Byte> -> string)
    requires SoundHash(sha)
    ensures SoundDigest(TupleDigest(sha))
  {
    var digest := TupleDigest(sha);
    assert forall a :: digest(a) == sha(Stream(a));
    forall a, b | digest(a) == digest(b)
      ensures a == b
    {
      StreamInjective(a, b);
    }
  }

  // A section's tuple that a snapshot brings is the one the panel then holds, exactly when the panel held
  // it already, or the gate was asked for another one just before and it is not the zero tuple.
  lemma SectionReachesPanelIff(sha: seq<Byte> -> string, zero: seq<Field>, ops: seq<Op<seq<Field>>>, op: Op<seq<Field>>)
    requires SoundHash(sha) && Delivery(TraceOf(zero, ops), op).Some?
    ensures var (digest, d) := (TupleDigest(sha), Delivery(TraceOf(zero, ops), op).value);
            Run(digest, zero, ops + [op]).held == d.body
            <==> d.body == Run(digest, zero, ops).held || (d.changed && d.body != zero)
  {
    TupleDigestIsSound(sha);
    DeliveryReachesPanelIff(TupleDigest(sha), zero, ops, op);
  }

  const BLANK_DIAGNOSTICS: seq<Field> := [[], [], [], [], [], [], [], []]

  // Diagnostics that become all empty never reach the panel, however often they are reported.
  lemma BlankDiagnosticsAreLost(sha: seq<Byte> -> string, fields: seq<Field>, ops: seq<Op<seq<Field>>>)
    requires SoundHash(sha) && fields != BLANK_DIAGNOSTICS && Repeats(ops, BLANK_DIAGNOSTICS)
    ensures Run(TupleDigest(sha), BLANK_DIAGNOSTICS, [Send(fields), Send(BLANK_DIAGNOSTICS)] + ops).held == fields
  {
    TupleDigestIsSound(sha);
    ZeroBodyIsLost(TupleDigest(sha), BLANK_DIAGNOSTICS, fields, ops);
  }

  // What a snapshot carries of a gated section: the gate object takes the agent's side of the delta link.
  method Report(gate: ContentHashGate, zero: seq<Field>, fields: seq<Field>) returns (m: Message<seq<Field>>)
    modifies gate`lastHash
    ensures m == NextMessage(TupleDigest(gate.sha), zero, old(gate.lastHash), fields)
    ensures gate.lastHash == TupleDigest(gate.sha)(fields)
  {
    var hash, sendBody := gate.Next(fields);
    m := Message(hash, if sendBody then fields else zero);
  }
}
