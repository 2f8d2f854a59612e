/**
 The chain verifier of cmd/control-plane/verify_audit_chain.go: exactly what it accepts, and
 why an accepted table is tamper evident.
 */
module AuditChain {
  import opened Wrappers
  import opened HashChain
  import opened Sequences

  datatype Row = Row(record: Record, prevHash: string, eventHash: string)

  // ---------------------------------------------------------------- what a consistent chain is

  function Lower(c: char): char {
    if 'A' <= c <= 'Z' then (c as int + 32) as char else c
  }

  // strings.EqualFold against a hex digest: no letter outside ASCII folds to a hex digit.
  predicate EqualFold(s: string, t: string) {
    |s| == |t| && forall i :: 0 <= i < |s| ==> Lower(s[i]) == Lower(t[i])
  }

  lemma EqualFoldOfHex(s: string, t: string)
    requires IsHex(s) && IsHex(t) && EqualFold(s, t)
    ensures s == t
  {
    assert forall i :: 0 <= i < |s| ==> Lower(s[i]) == s[i] && Lower(t[i]) == t[i];
    assert forall i :: 0 <= i < |s| ==> s[i] == t[i];
  }

  predicate LegacyRow(row: Row) {
    row.prevHash == "" && row.eventHash == ""
  }

  function LastHash(rows: seq<Row>): string {
    if rows == [] then "" else rows[|rows| - 1].eventHash
  }

  // The hash row i has to point back to; empty for the first row and after a row without hashes.
  function HashBefore(rows: seq<Row>, i: nat): string
    requires i < |rows|
  {
    LastHash(rows[..i])
  }

  predicate Linked(compute: EventHash, row: Row, prev: string) {
    && row.prevHash == prev
    && compute(prev, row.record).Some?
    && EqualFold(row.eventHash, compute(prev, row.record).value)
  }

  predicate LinkedAt(compute: EventHash, rows: seq<Row>, i: nat)
    requires i < |rows|
  {
    Linked(compute, rows[i], HashBefore(rows, i))
  }

  // Rows before k carry no hashes; from row k on every row is linked to the one before it.
  predicate ConsistentFrom(compute: EventHash, rows: seq<Row>, k: nat) {
    && k <= |rows|
    && (forall i :: 0 <= i < k ==> LegacyRow(rows[i]))
    && (forall i :: k <= i < |rows| ==> LinkedAt(compute, rows, i))
  }

  predicate Consistent(compute: EventHash, rows: seq<Row>) {
    exists k :: 0 <= k <= |rows| && ConsistentFrom(compute, rows, k)
  }

  lemma LinkedHasHash(compute: EventHash, row: Row, prev: string)
    requires HexEventHash(compute) && Linked(compute, row, prev)
    ensures row.eventHash != "" && !LegacyRow(row)
  {
  }

  // A chained row is not a legacy row, so a row without hashes is never skipped once the chain started.
  lemma ChainedRowHasHash(compute: EventHash, rows: seq<Row>, k: nat, i: nat)
    requires HexEventHash(compute) && ConsistentFrom(compute, rows, k) && k <= i < |rows|
    ensures rows[i].eventHash != "" && !LegacyRow(rows[i])
  {
    assert LinkedAt(compute, rows, i);
    LinkedHasHash(compute, rows[i], HashBefore(rows, i));
  }

  lemma ChainStartUnique(compute: EventHash, rows: seq<Row>, k: nat, j: nat)
    requires HexEventHash(compute) && ConsistentFrom(compute, rows, k) && ConsistentFrom(compute, rows, j)
    ensures k == j
  {
    if k < j {
      ChainedRowHasHash(compute, rows, k, k);
    } else if j < k {
      ChainedRowHasHash(compute, rows, j, j);
    }
  }

  // ---------------------------------------------------------------- the verifier

  datatype Verdict =
    | ConsistentChain(skippedGenesis: nat)
    | PrevHashMismatch(position: nat)
    | HashComputeFailed(position: nat)
    | EventHashMismatch(position: nat)

  // The walk so far: no hash seen yet, or a chain that started at row k.
  ghost predicate Walked(compute: EventHash, done: seq<Row>, prev: string, k: nat) {
    && ConsistentFrom(compute, done, k)
    && prev == LastHash(done)
    && (prev == "" <==> k == |done|)
  }

  predicate Skipped(prev: string, row: Row) {
    prev == "" && LegacyRow(row)
  }

  lemma ExtendWalk(compute: EventHash, done: seq<Row>, row: Row, prev: string, k: nat)
    requires HexEventHash(compute) && Walked(compute, done, prev, k)
    ensures Skipped(prev, row) ==> Walked(compute, done + [row], "", k + 1)
    ensures !Skipped(prev, row) && Linked(compute, row, prev) ==> Walked(compute, done + [row], row.eventHash, k)
  {
    var all := done + [row];
    SamePrefix(done, row);
    if Linked(compute, row, prev) {
      LinkedHasHash(compute, row, prev);
    }
  }

  lemma SamePrefix(done: seq<Row>, row: Row)
    ensures forall i :: 0 <= i < |done| ==> (done + [row])[i] == done[i] && HashBefore(done + [row], i) == HashBefore(done, i)
    ensures forall compute, i :: 0 <= i < |done| ==> (LinkedAt(compute, done + [row], i) <==> LinkedAt(compute, done, i))
    ensures HashBefore(done + [row], |done|) == LastHash(done)
  {
    assert forall i :: 0 <= i <= |done| ==> (done + [row])[..i] == done[..i];
    assert done[..|done|] == done;
  }

  lemma CannotExtend(compute: EventHash, done: seq<Row>, row: Row, prev: string, k: nat)
    requires HexEventHash(compute) && Walked(compute, done, prev, k)
    requires !Skipped(prev, row) && !Linked(compute, row, prev)
    ensures !Consistent(compute, done + [row])
  {
    SamePrefix(done, row);
    var all := done + [row];
    forall j | 0 <= j <= |all|
      ensures !ConsistentFrom(compute, all, j)
    {
      if j <= |done| {
        assert LinkedAt(compute, all, |done|) <==> Linked(compute, row, prev);
      } else if forall i :: 0 <= i < |done| ==> LegacyRow(done[i]) {
        ChainStartUnique(compute, done, k, |done|);
        assert all[|done|] == row;
      } else {
        assert !forall i :: 0 <= i < |done| ==> LegacyRow(all[i]);
      }
    }
  }

  lemma ConsistentPrefix(compute: EventHash, rows: seq<Row>, n: nat)
    requires n <= |rows| && Consistent(compute, rows)
    ensures Consistent(compute, rows[..n])
  {
    var k :| 0 <= k <= |rows| && ConsistentFrom(compute, rows, k);
    forall i | 0 <= i < n
      ensures LinkedAt(compute, rows[..n], i) <==> LinkedAt(compute, rows, i)
    {
      assert rows[..n][..i] == rows[..i];
    }
    assert ConsistentFrom(compute, rows[..n], if k <= n then k else n);
  }

  lemma NotConsistent(compute: EventHash, rows: seq<Row>, n: nat)
    requires n <= |rows| && !Consistent(compute, rows[..n])
    ensures !Consistent(compute, rows)
  {
    if Consistent(compute, rows) {
      ConsistentPrefix(compute, rows, n);
    }
  }

  // Why a row that ends the walk is refused: the link first, then the hash.
  function Reason(compute: EventHash, rows: seq<Row>, i: nat): Verdict
    requires i < |rows|
  {
    if rows[i].prevHash != HashBefore(rows, i) then PrevHashMismatch(i)
    else if compute(HashBefore(rows, i), rows[i].record).None? then HashComputeFailed(i)
    else EventHashMismatch(i)
  }

  method VerifyAuditChainRows(compute: EventHash, rows: seq<Row>) returns (verdict: Verdict)
    requires HexEventHash(compute)
    ensures verdict.ConsistentChain? <==> Consistent(compute, rows)
    ensures verdict.ConsistentChain? ==> ConsistentFrom(compute, rows, verdict.skippedGenesis)
    // Otherwise the verdict names the first row at which the chain breaks, and why.
    ensures !verdict.ConsistentChain? ==>
              verdict.position < |rows|
              && Consistent(compute, rows[..verdict.position])
              && !Consistent(compute, rows[..verdict.position + 1])
              && verdict == Reason(compute, rows, verdict.position)
    // A row that does not point back to the last hash, then one without a computed hash, then one with another hash.
    ensures var before := if !verdict.ConsistentChain? then LastHash(rows[..verdict.position]) else "";
            && (verdict.PrevHashMismatch? ==> rows[verdict.position].prevHash != before)
            && (verdict.HashComputeFailed? || verdict.EventHashMismatch? ==> rows[verdict.position].prevHash == before)
            && (verdict.HashComputeFailed? ==> compute(before, rows[verdict.position].record).None?)
            && (verdict.EventHashMismatch? ==>
                  compute(before, rows[verdict.position].record).Some?
                  && !EqualFold(rows[verdict.position].eventHash, compute(before, rows[verdict.position].record).value))
  {
    var prev := "";
    var skippedGenesis := 0;
    for i := 0 to |rows|
      invariant skippedGenesis <= i
      invariant Walked(compute, rows[..i], prev, skippedGenesis)
    {
      var row := rows[i];
      assert rows[..i + 1] == rows[..i] + [row];
      ExtendWalk(compute, rows[..i], row, prev, skippedGenesis);
      if prev == "" && row.prevHash == "" && row.eventHash == "" {
        skippedGenesis := skippedGenesis + 1;
        continue;
      }
      if !Linked(compute, row, prev) {
        CannotExtend(compute, rows[..i], row, prev, skippedGenesis);
        NotConsistent(compute, rows, i + 1);
      }
      if row.prevHash != prev {
        return PrevHashMismatch(i);
      }
      var recomputed := compute(prev, row.record);
      if recomputed.None? {
        return HashComputeFailed(i);
      }
      if !EqualFold(row.eventHash, recomputed.value) {
        return EventHashMismatch(i);
      }
      prev := row.eventHash;
    }
    assert rows[..|rows|] == rows;
    verdict := ConsistentChain(skippedGenesis);
  }

  // ---------------------------------------------------------------- tamper evidence

  ghost predicate SameLink(a: Row, b: Row) {
    a.prevHash == b.prevHash && SameRecord(a.record, b.record)
  }

  lemma LinkedRowsAgree(compute: EventHash, a: Row, prev: string, b: Row, prev': string)
    requires SoundEventHash(compute) && WellFormedRecord(a.record) && WellFormedRecord(b.record)
    requires Linked(compute, a, prev) && Linked(compute, b, prev') && EqualFold(a.eventHash, b.eventHash)
    ensures prev == prev' && SameLink(a, b)
  {
    var (x, y) := (compute(prev, a.record).value, compute(prev', b.record).value);
    EqualFoldOfHex(x, y);
  }

  ghost predicate WellFormedRows(rows: seq<Row>) {
    forall i :: 0 <= i < |rows| ==> WellFormedRecord(rows[i].record)
  }

  // One step back: linked rows whose hashes agree up to case point back to the same hash.
  lemma {:induction false} AgreeBackFrom(compute: EventHash, a: seq<Row>, k: nat, b: seq<Row>, j: nat, x: nat, y: nat)
    requires SoundEventHash(compute) && WellFormedRows(a) && WellFormedRows(b)
    requires ConsistentFrom(compute, a, k) && ConsistentFrom(compute, b, j)
    requires k <= x < |a| && j <= y < |b| && |a| - x == |b| - y
    requires EqualFold(LastHash(a), LastHash(b))
    ensures AgreeAt(a, x, b, y)
    decreases |a| - x
  {
    if x < |a| - 1 {
      AgreeBackFrom(compute, a, k, b, j, x + 1, y + 1);
      HashBeforeNext(a, x);
      HashBeforeNext(b, y);
    }
    assert LinkedAt(compute, a, x) && LinkedAt(compute, b, y);
    EqualFoldReflexive(a[x].eventHash);
    LinkedRowsAgree(compute, a[x], HashBefore(a, x), b[y], HashBefore(b, y));
  }

  ghost predicate AgreeAt(a: seq<Row>, x: nat, b: seq<Row>, y: nat) {
    && x < |a| && y < |b|
    && SameLink(a[x], b[y])
    && HashBefore(a, x) == HashBefore(b, y)
    && (x < |a| - 1 ==> a[x].eventHash == b[y].eventHash)
  }

  lemma HashBeforeNext(rows: seq<Row>, i: nat)
    requires i + 1 < |rows|
    ensures HashBefore(rows, i + 1) == rows[i].eventHash
  {
  }

  lemma EqualFoldReflexive(s: string)
    ensures EqualFold(s, s)
  {
  }

  // In a consistent table exactly the first chained row points back to nothing.
  lemma OnlyStartIsEmpty(compute: EventHash, rows: seq<Row>, k: nat)
    requires HexEventHash(compute) && ConsistentFrom(compute, rows, k)
    ensures LastHash(rows) == "" <==> k == |rows|
    ensures forall i :: k <= i < |rows| ==> (HashBefore(rows, i) == "" <==> i == k)
  {
    forall i | k <= i <= |rows|
      ensures LastHash(rows[..i]) == "" <==> i == k
    {
      if i > k {
        ChainedRowHasHash(compute, rows, k, i - 1);
      }
    }
    assert rows[..|rows|] == rows;
  }

  lemma NotLonger(compute: EventHash, a: seq<Row>, k: nat, b: seq<Row>, j: nat)
    requires SoundEventHash(compute) && WellFormedRows(a) && WellFormedRows(b)
    requires ConsistentFrom(compute, a, k) && ConsistentFrom(compute, b, j)
    requires EqualFold(LastHash(a), LastHash(b))
    ensures |a| - k <= |b| - j
  {
    OnlyStartIsEmpty(compute, a, k);
    OnlyStartIsEmpty(compute, b, j);
    if k < |a| && j < |b| && |a| - k > |b| - j {
      AgreeBackFrom(compute, a, k, b, j, |a| - (|b| - j), j);
    }
  }

  // Two accepted tables whose last hashes agree up to case hold the same events in their chained parts;
  // only the rows without hashes in front can differ.
  lemma TamperEvidence(compute: EventHash, a: seq<Row>, k: nat, b: seq<Row>, j: nat)
    requires SoundEventHash(compute) && WellFormedRows(a) && WellFormedRows(b)
    requires ConsistentFrom(compute, a, k) && ConsistentFrom(compute, b, j)
    requires EqualFold(LastHash(a), LastHash(b))
    ensures |a| - k == |b| - j
    ensures forall x, y :: k <= x < |a| && j <= y < |b| && |a| - x == |b| - y ==> AgreeAt(a, x, b, y)
  {
    assert EqualFold(LastHash(b), LastHash(a));
    NotLonger(compute, a, k, b, j);
    NotLonger(compute, b, j, a, k);
    forall x, y | k <= x < |a| && j <= y < |b| && |a| - x == |b| - y
      ensures AgreeAt(a, x, b, y)
    {
      AgreeBackFrom(compute, a, k, b, j, x, y);
    }
  }

  // ---------------------------------------------------------------- letter case

  function Upper(s: string): string {
    if s == [] then [] else [if 'a' <= s[0] <= 'f' then (s[0] as int - 32) as char else s[0]] + Upper(s[1..])
  }

  lemma {:induction false} UpperEqualFold(s: string)
    requires forall i :: 0 <= i < |s| ==> '0' <= s[i] <= '9' || 'a' <= s[i] <= 'f'
    ensures EqualFold(Upper(s), s)
  {
    if s != [] {
      UpperEqualFold(s[1..]);
      var u := Upper(s);
      assert Lower(u[0]) == Lower(s[0]);
      assert forall i :: 1 <= i < |s| ==> u[i] == Upper(s[1..])[i - 1] && s[i] == s[1..][i - 1];
    }
  }

  // A last hash that is stored in upper case is accepted as well.
  lemma UpperCaseHashAccepted(compute: EventHash, rows: seq<Row>, r: Record)
    requires HexEventHash(compute) && Consistent(compute, rows) && compute(LastHash(rows), r).Some?
    ensures Consistent(compute, rows + [Row(r, LastHash(rows), Upper(compute(LastHash(rows), r).value))])
  {
    var hash := compute(LastHash(rows), r).value;
    var row := Row(r, LastHash(rows), Upper(hash));
    var k :| 0 <= k <= |rows| && ConsistentFrom(compute, rows, k);
    UpperEqualFold(hash);
    OnlyStartIsEmpty(compute, rows, k);
    ExtendWalk(compute, rows, row, LastHash(rows), k);
    assert ConsistentFrom(compute, rows + [row], k);
  }

  // ---------------------------------------------------------------- retention

  // Cutting rows off the front leaves an acceptable table exactly when the cut stays within the rows
  // without hashes, or takes everything.
  lemma CutConsistentIff(compute: EventHash, rows: seq<Row>, k: nat, n: nat)
    requires HexEventHash(compute) && ConsistentFrom(compute, rows, k) && n <= |rows|
    ensures Consistent(compute, rows[n..]) <==> n <= k || n == |rows|
  {
    var rest := rows[n..];
    if n == |rows| {
      assert ConsistentFrom(compute, rest, 0);
    } else if n <= k {
      forall i | k - n <= i < |rest|
        ensures LinkedAt(compute, rest, i)
      {
        assert LinkedAt(compute, rows, i + n);
        assert i > 0 ==> rest[..i][i - 1] == rows[..i + n][i + n - 1];
        OnlyStartIsEmpty(compute, rows, k);
      }
      assert ConsistentFrom(compute, rest, k - n);
    } else {
      OnlyStartIsEmpty(compute, rows, k);
      assert LinkedAt(compute, rows, n);
      assert rest[0] == rows[n] && HashBefore(rest, 0) == "";
      forall j | 0 <= j <= |rest|
        ensures !ConsistentFrom(compute, rest, j)
      {
        assert j > 0 ==> !LegacyRow(rest[0]);
        assert j == 0 ==> !LinkedAt(compute, rest, 0);
      }
    }
  }

  // ---------------------------------------------------------------- order

  predicate DistinctHashes(rows: seq<Row>, k: nat) {
    forall i, j :: k <= i < j < |rows| ==> rows[i].eventHash != rows[j].eventHash
  }

  // A row of the chain is known by the hash it points back to.
  lemma FollowerUnique(compute: EventHash, rows: seq<Row>, k: nat, i: nat, row: Row)
    requires HexEventHash(compute) && ConsistentFrom(compute, rows, k) && DistinctHashes(rows, k)
    requires k <= i < |rows| && row in rows && !LegacyRow(row) && row.prevHash == HashBefore(rows, i)
    ensures row == rows[i]
  {
    var m :| 0 <= m < |rows| && rows[m] == row;
    assert LinkedAt(compute, rows, m) && LinkedAt(compute, rows, i);
    OnlyStartIsEmpty(compute, rows, k);
    if m > k && i > k {
      HashBeforeNext(rows, m - 1);
      HashBeforeNext(rows, i - 1);
    }
  }

  // The i-th chained row of a consistent reordering is the i-th chained row.
  lemma {:induction false} ReorderedAt(compute: EventHash, rows: seq<Row>, k: nat, t: seq<Row>, j: nat, i: nat)
    requires HexEventHash(compute) && ConsistentFrom(compute, rows, k) && DistinctHashes(rows, k)
    requires ConsistentFrom(compute, t, j) && multiset(t) == multiset(rows) && j + i < |t|
    ensures k + i < |rows| && t[j + i] == rows[k + i]
  {
    assert LinkedAt(compute, t, j + i);
    ChainedRowHasHash(compute, t, j, j + i);
    assert t[j + i] in multiset(t);
    if i == 0 {
      OnlyStartIsEmpty(compute, t, j);
      OnlyStartIsEmpty(compute, rows, k);
      var m :| 0 <= m < |rows| && rows[m] == t[j];
    } else {
      ReorderedAt(compute, rows, k, t, j, i - 1);
      HashBeforeNext(t, j + i - 1);
      HasFollower(compute, rows, k, k + i - 1, t[j + i]);
      HashBeforeNext(rows, k + i - 1);
    }
    FollowerUnique(compute, rows, k, k + i, t[j + i]);
  }

  // A row that points back to the i-th row follows it, so that the i-th is not the last.
  lemma HasFollower(compute: EventHash, rows: seq<Row>, k: nat, i: nat, row: Row)
    requires HexEventHash(compute) && ConsistentFrom(compute, rows, k) && DistinctHashes(rows, k)
    requires k <= i < |rows| && row in rows && !LegacyRow(row) && row.prevHash == rows[i].eventHash
    ensures i + 1 < |rows|
  {
    var m :| 0 <= m < |rows| && rows[m] == row;
    assert LinkedAt(compute, rows, m);
    ChainedRowHasHash(compute, rows, k, i);
    OnlyStartIsEmpty(compute, rows, k);
    assert m > k;
    HashBeforeNext(rows, m - 1);
  }

  // As many chained rows, because none is left over.
  lemma ReorderedStart(compute: EventHash, rows: seq<Row>, k: nat, t: seq<Row>, j: nat)
    requires HexEventHash(compute) && ConsistentFrom(compute, rows, k) && DistinctHashes(rows, k)
    requires ConsistentFrom(compute, t, j) && multiset(t) == multiset(rows)
    ensures j == k
  {
    assert |t| == |multiset(t)| == |rows|;
    if j < k {
      ReorderedAt(compute, rows, k, t, j, |t| - 1 - j);
    }
    if k < j {
      var last := rows[|rows| - 1];
      ChainedRowHasHash(compute, rows, k, |rows| - 1);
      assert last in multiset(t);
      var m :| 0 <= m < |t| && t[m] == last;
      ReorderedAt(compute, rows, k, t, j, m - j);
    }
  }

  // The verifier accepts the same rows in another order exactly when the chained ones come in the same order.
  lemma ReorderingConsistentIff(compute: EventHash, rows: seq<Row>, k: nat, t: seq<Row>)
    requires HexEventHash(compute) && ConsistentFrom(compute, rows, k) && DistinctHashes(rows, k)
    requires multiset(t) == multiset(rows)
    ensures |t| == |rows| && (Consistent(compute, t) <==> t[k..] == rows[k..])
  {
    assert |t| == |multiset(t)| == |rows|;
    if Consistent(compute, t) {
      var j :| 0 <= j <= |t| && ConsistentFrom(compute, t, j);
      ReorderedStart(compute, rows, k, t, j);
      forall i | k <= i < |t|
        ensures t[i] == rows[i]
      {
        ReorderedAt(compute, rows, k, t, k, i - k);
      }
    }
    if t[k..] == rows[k..] {
      SameChainConsistent(compute, rows, k, t);
    }
  }

  lemma SameChainConsistent(compute: EventHash, rows: seq<Row>, k: nat, t: seq<Row>)
    requires HexEventHash(compute) && ConsistentFrom(compute, rows, k)
    requires |t| == |rows| && multiset(t) == multiset(rows) && t[k..] == rows[k..]
    ensures ConsistentFrom(compute, t, k)
  {
    forall i | 0 <= i < k
      ensures LegacyRow(t[i])
    {
      SamePermutedPrefix(t, rows, k);
      assert t[..k][i] == t[i] && t[..k][i] in multiset(rows[..k]);
    }
    forall i | k <= i < |t|
      ensures LinkedAt(compute, t, i)
    {
      assert t[i] == t[k..][i - k] == rows[i];
      assert LinkedAt(compute, rows, i);
      if i > k {
        assert t[i - 1] == t[k..][i - 1 - k] == rows[i - 1];
        HashBeforeNext(t, i - 1);
        HashBeforeNext(rows, i - 1);
      } else {
        OnlyStartIsEmpty(compute, rows, k);
        assert i > 0 ==> t[..i][i - 1] == t[i - 1];
      }
    }
  }
}
