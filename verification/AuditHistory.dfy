/**
 The audit table over whole histories of the panel: what the producer chains
 (internal/controlplane/server/audit_hash_chain.go, audit_trail.go), what the store takes, refuses or
 loses, what retention deletes, and what a restart reads back. The verifier reads the table in
 (created_at, id) order, whatever order the rows were produced in.
 */
module AuditHistory {
  import opened Wrappers
  import opened HashChain
  import opened AuditChain
  import opened AuditCollect
  import opened Sequences
  import ConfigCanon

  // ---------------------------------------------------------------- the table in key order

  predicate Ascending(rows: seq<Row>) {
    forall i, j :: 0 <= i < j < |rows| ==> Before(rows[i].record, rows[j].record)
  }

  predicate IdFree(rows: seq<Row>, id: string) {
    forall i :: 0 <= i < |rows| ==> rows[i].record.id != id
  }

  lemma {:induction false} ListingIsNewestFirst(rows: seq<Row>)
    requires Ascending(rows)
    ensures NewestFirst(Reverse(rows)) && Reverse(Reverse(rows)) == rows
  {
    if rows != [] {
      var (last, front) := (rows[|rows| - 1], rows[..|rows| - 1]);
      var listing := Reverse(rows);
      assert listing[0] == last;
      assert listing[1..] == Reverse(front) by {
        assert forall i :: 0 <= i < |front| ==> listing[1..][i] == rows[|front| - 1 - i] == Reverse(front)[i];
      }
      ListingIsNewestFirst(front);
      forall i | 1 <= i < |listing|
        ensures Before(listing[i].record, listing[0].record)
      {
        assert listing[i] == rows[|rows| - 1 - i];
      }
    }
  }

  // ---------------------------------------------------------------- retention

  // PruneAuditEvents deletes what was created before the cutoff.
  function Pruned(rows: seq<Row>, cutoff: int): seq<Row> {
    if rows == [] then []
    else (if rows[0].record.createdAt < cutoff then [] else [rows[0]]) + Pruned(rows[1..], cutoff)
  }

  predicate TimesAscend(rows: seq<Row>) {
    forall i, j :: 0 <= i < j < |rows| ==> rows[i].record.createdAt <= rows[j].record.createdAt
  }

  lemma AscendingTimes(rows: seq<Row>)
    requires Ascending(rows)
    ensures TimesAscend(rows)
  {
    forall i, j | 0 <= i < j < |rows|
      ensures rows[i].record.createdAt <= rows[j].record.createdAt
    {
      assert Before(rows[i].record, rows[j].record);
    }
  }

  lemma {:induction false} PrunedAt(rows: seq<Row>, cutoff: int, n: nat)
    requires n <= |rows|
    requires forall i :: 0 <= i < |rows| ==> (rows[i].record.createdAt >= cutoff <==> n <= i)
    ensures Pruned(rows, cutoff) == rows[n..]
  {
    if rows != [] {
      PrunedAt(rows[1..], cutoff, if n > 0 then n - 1 else 0);
      if n == 0 {
        assert [rows[0]] + rows[1..] == rows;
      }
    }
  }

  // It deletes a prefix of the table.
  lemma PrunedIsSuffix(rows: seq<Row>, cutoff: int) returns (n: nat)
    requires TimesAscend(rows)
    ensures n <= |rows| && Pruned(rows, cutoff) == rows[n..]
    ensures forall i :: 0 <= i < |rows| ==> (rows[i].record.createdAt >= cutoff <==> n <= i)
  {
    n := 0;
    while n < |rows| && rows[n].record.createdAt < cutoff
      invariant n <= |rows| && forall i :: 0 <= i < n ==> rows[i].record.createdAt < cutoff
    {
      n := n + 1;
    }
    assert forall i :: n < i < |rows| ==> rows[n].record.createdAt <= rows[i].record.createdAt;
    PrunedAt(rows, cutoff, n);
  }

  // After retention has run, the verifier accepts what is left of an accepted table exactly when no row
  // with a hash was deleted, or every row was.
  lemma RetentionConsistentIff(compute: EventHash, rows: seq<Row>, cutoff: int)
    requires HexEventHash(compute) && TimesAscend(rows) && Consistent(compute, rows)
    ensures Consistent(compute, Pruned(rows, cutoff)) <==> RetentionOk(rows, cutoff)
  {
    var k :| 0 <= k <= |rows| && ConsistentFrom(compute, rows, k);
    var n := PrunedIsSuffix(rows, cutoff);
    CutConsistentIff(compute, rows, k, n);
    forall i | 0 <= i < |rows|
      ensures rows[i].eventHash != "" <==> k <= i
    {
      if k <= i {
        ChainedRowHasHash(compute, rows, k, i);
      }
    }
    if k < n < |rows| {
      assert rows[k].eventHash != "" && rows[k].record.createdAt < cutoff && rows[n].record.createdAt >= cutoff;
    }
  }

  predicate RetentionOk(rows: seq<Row>, cutoff: int) {
    || (forall i :: 0 <= i < |rows| && rows[i].eventHash != "" ==> rows[i].record.createdAt >= cutoff)
    || (forall i :: 0 <= i < |rows| ==> rows[i].record.createdAt < cutoff)
  }

  // ---------------------------------------------------------------- the producer and its store

  /** The stored rows in key order, and the hash the next row links to. */
  datatype Ledger = Ledger(rows: seq<Row>, tail: string)

  datatype Step =
    | Append(record: Record, storeOk: bool) // storeOk: the insert, or that of its batch, goes through
    | Retention(cutoff: int)
    | Restart                               // the tail is read back from the newest row

  // Details that cannot be hashed cannot be encoded for the store either, and an id is a primary key.
  predicate Stored(compute: EventHash, l: Ledger, r: Record, storeOk: bool) {
    storeOk && compute(l.tail, r).Some? && IdFree(l.rows, r.id)
  }

  function Apply(compute: EventHash, l: Ledger, step: Step): Ledger {
    match step
    case Append(r, storeOk) =>
      var hash := compute(l.tail, r);
      Ledger(if Stored(compute, l, r, storeOk) then InsertRow(Row(r, l.tail, hash.value), l.rows) else l.rows,
             if hash.Some? then hash.value else l.tail)
    case Retention(cutoff) => l.(rows := Pruned(l.rows, cutoff))
    case Restart => l.(tail := LastHash(l.rows))
  }

  function After(compute: EventHash, start: Ledger, steps: seq<Step>): Ledger {
    if steps == [] then start
    else Apply(compute, After(compute, start, steps[..|steps| - 1]), steps[|steps| - 1])
  }

  /** The panel: its tail in memory and the audit_events table. */
  class AuditTrail {
    var auditChainTail: string
    var events: seq<Row>

    ghost function View(): Ledger
      reads this
    {
      Ledger(events, auditChainTail)
    }

    constructor (events: seq<Row>)
      ensures View() == Ledger(events, LastHash(events))
    {
      this.events := events;
      auditChainTail := LastHash(events);
    }

    // Both hashes stay empty when the hash cannot be computed.
    method ChainAuditRecordLocked(compute: EventHash, r: Record) returns (row: Row)
      modifies this`auditChainTail
      ensures row == match compute(old(auditChainTail), r)
                     case None => Row(r, "", "")
                     case Some(hash) => Row(r, old(auditChainTail), hash)
      ensures auditChainTail == (if compute(old(auditChainTail), r).Some? then row.eventHash else old(auditChainTail))
    {
      row := Row(r, "", "");
      var hash := compute(auditChainTail, r);
      if hash.None? {
        return;
      }
      row := row.(prevHash := auditChainTail, eventHash := hash.value);
      auditChainTail := hash.value;
    }

    // The tail moves on before the store has answered.
    method AppendAudit(compute: EventHash, r: Record, storeOk: bool)
      requires HexEventHash(compute)
      modifies this
      ensures View() == Apply(compute, old(View()), Append(r, storeOk))
    {
      var row := ChainAuditRecordLocked(compute, r);
      if storeOk && row.eventHash != "" && IdFree(events, r.id) {
        events := InsertRow(row, events);
      }
    }

    method PruneAuditEvents(cutoff: int)
      modifies this
      ensures View() == Ledger(Pruned(old(events), cutoff), old(auditChainTail))
    {
      events := Pruned(events, cutoff);
    }

    method RestoreAuditSeq()
      modifies this
      ensures View() == Ledger(old(events), LastHash(old(events)))
    {
      auditChainTail := LastHash(events);
    }
  }

  // ---------------------------------------------------------------- when the table stays acceptable

  // Hashes never run in a circle.
  ghost predicate Acyclic(compute: EventHash, rank: string -> nat) {
    forall p, r :: compute(p, r).Some? ==> rank(compute(p, r).value) > rank(p)
  }

  // The tail is ahead of the newest row: the row it belongs to was lost, or retention took every row.
  predicate Ahead(compute: EventHash, start: Ledger, steps: seq<Step>) {
    if steps == [] then false
    else
      var before := steps[..|steps| - 1];
      var l := After(compute, start, before);
      match steps[|steps| - 1]
      case Append(r, storeOk) =>
        if compute(l.tail, r).None? then Ahead(compute, start, before) else !Stored(compute, l, r, storeOk)
      case Retention(cutoff) => Ahead(compute, start, before) || (Pruned(l.rows, cutoff) == [] && LastHash(l.rows) != "")
      case Restart => false
  }

  predicate NewestRecord(rows: seq<Row>, r: Record) {
    forall i :: 0 <= i < |rows| ==> Before(rows[i].record, r)
  }

  // A row that is stored comes after all others in (created_at, id) order, and the tail is not ahead;
  // retention spares every row with a hash, or takes all rows.
  predicate StepOk(compute: EventHash, l: Ledger, ahead: bool, step: Step) {
    match step
    case Append(r, storeOk) => Stored(compute, l, r, storeOk) ==> !ahead && NewestRecord(l.rows, r)
    case Retention(cutoff) => RetentionOk(l.rows, cutoff)
    case Restart => true
  }

  ghost predicate Good(compute: EventHash, rank: string -> nat, l: Ledger, ahead: bool) {
    && Ascending(l.rows)
    && Consistent(compute, l.rows)
    && (!ahead ==> l.tail == LastHash(l.rows))
    && (ahead ==> l.tail != "" && (LastHash(l.rows) == "" || rank(l.tail) > rank(LastHash(l.rows))))
  }

  // A row behind the last one is accepted exactly when it links to it.
  lemma RowAppendedIff(compute: EventHash, rows: seq<Row>, row: Row)
    requires HexEventHash(compute) && Consistent(compute, rows)
    requires compute(row.prevHash, row.record) == Some(row.eventHash)
    ensures Consistent(compute, rows + [row]) <==> row.prevHash == LastHash(rows)
  {
    var k :| 0 <= k <= |rows| && ConsistentFrom(compute, rows, k);
    OnlyStartIsEmpty(compute, rows, k);
    ExtendWalk(compute, rows, row, LastHash(rows), k);
    if Linked(compute, row, LastHash(rows)) {
      assert ConsistentFrom(compute, rows + [row], k);
    } else {
      CannotExtend(compute, rows, row, LastHash(rows), k);
    }
  }

  lemma {:induction false} InsertAt(row: Row, rows: seq<Row>, p: nat)
    requires p <= |rows| && (p < |rows| ==> !Before(rows[p].record, row.record))
    requires forall i :: 0 <= i < p ==> Before(rows[i].record, row.record)
    ensures InsertRow(row, rows) == rows[..p] + ([row] + rows[p..])
  {
    if p > 0 {
      InsertAt(row, rows[1..], p - 1);
      assert rows[1..][p - 1..] == rows[p..];
      assert rows[..p] == [rows[0]] + rows[1..][..p - 1];
    }
  }

  lemma InsertSplits(row: Row, rows: seq<Row>) returns (p: nat)
    requires !NewestRecord(rows, row.record)
    ensures p < |rows| && InsertRow(row, rows) == rows[..p] + ([row] + rows[p..])
    ensures !Before(rows[p].record, row.record) && forall i :: 0 <= i < p ==> Before(rows[i].record, row.record)
  {
    p := 0;
    while p < |rows| && Before(rows[p].record, row.record)
      invariant p <= |rows| && forall i :: 0 <= i < p ==> Before(rows[i].record, row.record)
    {
      p := p + 1;
    }
    InsertAt(row, rows, p);
  }

  lemma BeforeTotal(a: Record, b: Record)
    requires a.id != b.id
    ensures Before(a, b) || Before(b, a)
  {
    ConfigCanon.LeTotal(a.id, b.id);
  }

  lemma BeforeTransitive(a: Record, b: Record, c: Record)
    requires Before(a, b) && Before(b, c)
    ensures Before(a, c)
  {
    if a.createdAt == b.createdAt && b.createdAt == c.createdAt {
      ConfigCanon.LeTransitive(a.id, b.id, c.id);
      if a.id == c.id {
        ConfigCanon.LeAntisymmetric(a.id, b.id);
      }
    }
  }

  lemma InsertKeepsAscending(row: Row, rows: seq<Row>)
    requires Ascending(rows) && IdFree(rows, row.record.id)
    ensures Ascending(InsertRow(row, rows))
  {
    if NewestRecord(rows, row.record) {
      InsertNewest(row, rows);
    } else {
      var p := InsertSplits(row, rows);
      forall j | p <= j < |rows|
        ensures Before(row.record, rows[j].record)
      {
        BeforeTotal(row.record, rows[p].record);
        if p < j {
          BeforeTransitive(row.record, rows[p].record, rows[j].record);
        }
      }
      var before := (a: Row, b: Row) => Before(a.record, b.record);
      assert OrderedBy(rows, before);
      InsertedOrdered(rows, row, p, before);
      assert OrderedBy(InsertRow(row, rows), before);
    }
  }

  // Whatever happens, the table is in key order.
  lemma {:induction false} RunKeepsAscending(compute: EventHash, start: Ledger, steps: seq<Step>)
    requires Ascending(start.rows)
    ensures Ascending(After(compute, start, steps).rows)
  {
    if steps != [] {
      var l := After(compute, start, steps[..|steps| - 1]);
      RunKeepsAscending(compute, start, steps[..|steps| - 1]);
      match steps[|steps| - 1]
      case Append(r, storeOk) =>
        if Stored(compute, l, r, storeOk) {
          InsertKeepsAscending(Row(r, l.tail, compute(l.tail, r).value), l.rows);
        }
      case Retention(cutoff) =>
        AscendingTimes(l.rows);
        var n := PrunedIsSuffix(l.rows, cutoff);
      case Restart =>
    }
  }

  // A row that sorts before a stored one is refused: the row behind it does not link to it.
  lemma MiddleRowRefused(compute: EventHash, rank: string -> nat, rows: seq<Row>, p: nat, row: Row)
    requires HexEventHash(compute) && Acyclic(compute, rank) && Consistent(compute, rows) && p < |rows|
    requires compute(row.prevHash, row.record) == Some(row.eventHash)
    ensures !Consistent(compute, rows[..p] + ([row] + rows[p..]))
  {
    var t := rows[..p] + ([row] + rows[p..]);
    assert t[p] == row && t[p + 1] == rows[p] && t[..p] == rows[..p];
    var k :| 0 <= k <= |rows| && ConsistentFrom(compute, rows, k);
    HashBeforeNext(t, p);
    assert LinkedAt(compute, t, p + 1) ==> rows[p].prevHash == row.eventHash;
    assert LinkedAt(compute, t, p) ==> row.prevHash == HashBefore(rows, p);
    assert k <= p ==> LinkedAt(compute, rows, p);
    assert !LinkedAt(compute, t, p) || !LinkedAt(compute, t, p + 1);
    assert !LegacyRow(t[p]);
    assert forall j :: 0 <= j <= |t| ==> !ConsistentFrom(compute, t, j);
  }

  lemma AppendStep(compute: EventHash, rank: string -> nat, l: Ledger, ahead: bool, r: Record, storeOk: bool)
    requires HexEventHash(compute) && Acyclic(compute, rank) && Good(compute, rank, l, ahead)
    ensures var l' := Apply(compute, l, Append(r, storeOk));
            && (Consistent(compute, l'.rows) <==> StepOk(compute, l, ahead, Append(r, storeOk)))
            && (Consistent(compute, l'.rows) ==> Good(compute, rank, l',
                  if compute(l.tail, r).None? then ahead else !Stored(compute, l, r, storeOk)))
  {
    if Stored(compute, l, r, storeOk) {
      var row := Row(r, l.tail, compute(l.tail, r).value);
      if NewestRecord(l.rows, r) {
        InsertNewest(row, l.rows);
        RowAppendedIff(compute, l.rows, row);
      } else {
        var p := InsertSplits(row, l.rows);
        MiddleRowRefused(compute, rank, l.rows, p, row);
      }
    } else if compute(l.tail, r).Some? {
      assert IsHex(compute(l.tail, r).value);
    }
  }

  lemma RetentionStep(compute: EventHash, rank: string -> nat, l: Ledger, ahead: bool, cutoff: int)
    requires HexEventHash(compute) && Good(compute, rank, l, ahead)
    ensures var l' := Apply(compute, l, Retention(cutoff));
            && (Consistent(compute, l'.rows) <==> StepOk(compute, l, ahead, Retention(cutoff)))
            && (Consistent(compute, l'.rows) ==> Good(compute, rank, l',
                  ahead || (l'.rows == [] && LastHash(l.rows) != "")))
  {
    AscendingTimes(l.rows);
    RetentionConsistentIff(compute, l.rows, cutoff);
    var n := PrunedIsSuffix(l.rows, cutoff);
    SuffixKeeps(l.rows, n);
  }

  lemma SuffixKeeps(rows: seq<Row>, n: nat)
    requires Ascending(rows) && n <= |rows|
    ensures Ascending(rows[n..]) && (n < |rows| ==> LastHash(rows[n..]) == LastHash(rows))
  {
  }

  lemma GoodStep(compute: EventHash, rank: string -> nat, start: Ledger, steps: seq<Step>, step: Step)
    requires HexEventHash(compute) && Acyclic(compute, rank)
    requires Good(compute, rank, After(compute, start, steps), Ahead(compute, start, steps))
    ensures var l := After(compute, start, steps + [step]);
            && (Consistent(compute, l.rows) <==> StepOk(compute, After(compute, start, steps), Ahead(compute, start, steps), step))
            && (Consistent(compute, l.rows) ==> Good(compute, rank, l, Ahead(compute, start, steps + [step])))
  {
    var (l, ahead) := (After(compute, start, steps), Ahead(compute, start, steps));
    assert (steps + [step])[..|steps|] == steps;
    match step
    case Append(r, storeOk) => AppendStep(compute, rank, l, ahead, r, storeOk);
    case Retention(cutoff) => RetentionStep(compute, rank, l, ahead, cutoff);
    case Restart =>
  }

  predicate OkAt(compute: EventHash, start: Ledger, steps: seq<Step>, n: nat)
    requires n < |steps|
  {
    StepOk(compute, After(compute, start, steps[..n]), Ahead(compute, start, steps[..n]), steps[n])
  }

  ghost predicate ConsistentAt(compute: EventHash, start: Ledger, steps: seq<Step>, n: nat)
    requires n <= |steps|
  {
    Consistent(compute, After(compute, start, steps[..n]).rows)
  }

  ghost predicate GoodAfter(compute: EventHash, rank: string -> nat, start: Ledger, steps: seq<Step>) {
    Good(compute, rank, After(compute, start, steps), Ahead(compute, start, steps))
  }

  lemma GoodExtends(compute: EventHash, rank: string -> nat, start: Ledger, steps: seq<Step>, n: nat)
    requires HexEventHash(compute) && Acyclic(compute, rank) && n < |steps|
    requires GoodAfter(compute, rank, start, steps[..n])
    ensures OkAt(compute, start, steps, n) <==> ConsistentAt(compute, start, steps, n + 1)
    ensures OkAt(compute, start, steps, n) ==> GoodAfter(compute, rank, start, steps[..n + 1])
  {
    assert steps[..n + 1] == steps[..n] + [steps[n]];
    GoodStep(compute, rank, start, steps[..n], steps[n]);
  }

  lemma {:induction false} GoodUpTo(compute: EventHash, rank: string -> nat, start: Ledger, steps: seq<Step>, n: nat)
    requires HexEventHash(compute) && Acyclic(compute, rank) && Good(compute, rank, start, false) && n <= |steps|
    requires forall i :: 0 <= i < n ==> OkAt(compute, start, steps, i) || ConsistentAt(compute, start, steps, i + 1)
    ensures GoodAfter(compute, rank, start, steps[..n])
  {
    if n > 0 {
      GoodUpTo(compute, rank, start, steps, n - 1);
      GoodExtends(compute, rank, start, steps, n - 1);
    }
  }

  // From an accepted table, whatever is appended, lost, deleted and restarted: the verifier accepts the
  // table at every point exactly when every stored row was the newest by key behind a tail that was not
  // ahead, and no retention cut into the chain.
  lemma {:induction false} AcceptedThroughoutIff(compute: EventHash, rank: string -> nat, start: Ledger, steps: seq<Step>)
    requires HexEventHash(compute) && Acyclic(compute, rank)
    requires Ascending(start.rows) && Consistent(compute, start.rows) && start.tail == LastHash(start.rows)
    ensures (forall n :: 0 <= n <= |steps| ==> ConsistentAt(compute, start, steps, n))
       <==> (forall n :: 0 <= n < |steps| ==> OkAt(compute, start, steps, n))
  {
    if forall n :: 0 <= n < |steps| ==> OkAt(compute, start, steps, n) {
      forall n | 0 <= n <= |steps|
        ensures ConsistentAt(compute, start, steps, n)
      {
        GoodUpTo(compute, rank, start, steps, n);
      }
    }
    if forall n :: 0 <= n <= |steps| ==> ConsistentAt(compute, start, steps, n) {
      forall n | 0 <= n < |steps|
        ensures OkAt(compute, start, steps, n)
      {
        GoodUpTo(compute, rank, start, steps, n);
        assert ConsistentAt(compute, start, steps, n + 1);
        GoodExtends(compute, rank, start, steps, n);
      }
    }
  }

  // And the command reports so: it lists the table newest first and sorts it back.
  method VerifyTrail(compute: EventHash, trail: AuditTrail, pageSize: int, maxRows: int)
      returns (r: Result<Verdict, CollectError>)
    requires HexEventHash(compute) && Ascending(trail.events)
    ensures r.Ok? <==> |trail.events| < (if maxRows <= 0 then 200_000 else maxRows)
    ensures r.Ok? ==> (r.value.ConsistentChain? <==> Consistent(compute, trail.events))
  {
    ListingIsNewestFirst(trail.events);
    r := RunVerifyAuditChain(compute, Reverse(trail.events), pageSize, maxRows);
  }

  // ---------------------------------------------------------------- histories the verifier refuses

  ghost predicate Hashes(compute: EventHash, r: Record) {
    forall p :: compute(p, r).Some?
  }

  const EMPTY: Ledger := Ledger([], "")

  lemma FirstAppend(compute: EventHash, rank: string -> nat, a: Record)
    requires HexEventHash(compute) && Acyclic(compute, rank) && Hashes(compute, a)
    ensures var l := After(compute, EMPTY, [Append(a, true)]);
            && l == Ledger([Row(a, "", compute("", a).value)], compute("", a).value)
            && Good(compute, rank, l, false) && !Ahead(compute, EMPTY, [Append(a, true)])
  {
    assert [Append(a, true)][..0] == [];
    assert ConsistentFrom(compute, [], 0);
    GoodStep(compute, rank, EMPTY, [], Append(a, true));
    assert [] + [Append(a, true)] == [Append(a, true)];
  }

  // The clock steps back between two events, or the id of the second sorts first within a second.
  lemma OutOfOrderIsRefused(compute: EventHash, rank: string -> nat, a: Record, b: Record)
    requires HexEventHash(compute) && Acyclic(compute, rank) && Hashes(compute, a) && Hashes(compute, b)
    requires a.id != b.id && Before(b, a)
    ensures !Consistent(compute, After(compute, EMPTY, [Append(a, true), Append(b, true)]).rows)
  {
    FirstAppend(compute, rank, a);
    GoodStep(compute, rank, EMPTY, [Append(a, true)], Append(b, true));
    BeforeIrreflexive(b, a);
    assert [Append(a, true)] + [Append(b, true)] == [Append(a, true), Append(b, true)];
  }

  // Ids are padded to seven digits, so the ten-millionth one sorts before the one it follows.
  lemma TenMillionthSortsFirst(a: Record, b: Record)
    requires a.id == "audit-9999999" && b.id == "audit-10000000" && a.createdAt == b.createdAt
    ensures Before(b, a)
  {
    SharedPrefix("audit-", "10000000", "9999999");
    assert b.id == "audit-" + "10000000" && a.id == "audit-" + "9999999";
  }

  lemma {:induction false} SharedPrefix(p: string, x: string, y: string)
    ensures ConfigCanon.Le(p + x, p + y) <==> ConfigCanon.Le(x, y)
  {
    if p == [] {
      assert p + x == x && p + y == y;
    } else {
      SharedPrefix(p[1..], x, y);
      assert (p + x)[1..] == p[1..] + x && (p + y)[1..] == p[1..] + y;
    }
  }

  // An event that is hashed but not stored: the next one is refused, unless the panel restarts in between.
  lemma LostRowBreaksChainUntilRestart(compute: EventHash, rank: string -> nat, a: Record, b: Record, c: Record)
    requires HexEventHash(compute) && Acyclic(compute, rank)
    requires Hashes(compute, a) && Hashes(compute, b) && Hashes(compute, c)
    requires Before(a, c) && a.id != c.id
    ensures !Consistent(compute, After(compute, EMPTY, [Append(a, true), Append(b, false), Append(c, true)]).rows)
    ensures Consistent(compute, After(compute, EMPTY, [Append(a, true), Append(b, false), Restart, Append(c, true)]).rows)
  {
    var (one, two) := ([Append(a, true)], [Append(a, true), Append(b, false)]);
    var three := [Append(a, true), Append(b, false), Restart];
    FirstAppend(compute, rank, a);
    assert two == one + [Append(b, false)] && three == two + [Restart] && two[..1] == one && three[..2] == two;
    GoodStep(compute, rank, EMPTY, one, Append(b, false));
    GoodStep(compute, rank, EMPTY, two, Append(c, true));
    assert two + [Append(c, true)] == [Append(a, true), Append(b, false), Append(c, true)];
    GoodStep(compute, rank, EMPTY, two, Restart);
    GoodStep(compute, rank, EMPTY, three, Append(c, true));
    assert three + [Append(c, true)] == [Append(a, true), Append(b, false), Restart, Append(c, true)];
  }

  // Retention that deletes the first of two chained rows.
  lemma RetentionBreaksChain(compute: EventHash, rank: string -> nat, a: Record, b: Record)
    requires HexEventHash(compute) && Acyclic(compute, rank) && Hashes(compute, a) && Hashes(compute, b)
    requires a.createdAt < b.createdAt && a.id != b.id
    ensures !Consistent(compute, After(compute, EMPTY, [Append(a, true), Append(b, true), Retention(b.createdAt)]).rows)
  {
    var one := [Append(a, true)];
    var two := one + [Append(b, true)];
    FirstAppend(compute, rank, a);
    assert two[..1] == one;
    GoodStep(compute, rank, EMPTY, one, Append(b, true));
    var l := After(compute, EMPTY, two);
    InsertNewest(Row(b, compute("", a).value, compute(compute("", a).value, b).value), After(compute, EMPTY, one).rows);
    assert l.rows[0].record == a && l.rows[1].record == b && l.rows[0].eventHash != "";
    GoodStep(compute, rank, EMPTY, two, Retention(b.createdAt));
    assert two + [Retention(b.createdAt)] == [Append(a, true), Append(b, true), Retention(b.createdAt)];
  }

  // Retention that deletes every row: the next event is refused.
  lemma RetentionOfAllBreaksNext(compute: EventHash, rank: string -> nat, a: Record, b: Record)
    requires HexEventHash(compute) && Acyclic(compute, rank) && Hashes(compute, a) && Hashes(compute, b)
    requires a.createdAt < b.createdAt
    ensures Consistent(compute, After(compute, EMPTY, [Append(a, true), Retention(b.createdAt)]).rows)
    ensures !Consistent(compute, After(compute, EMPTY, [Append(a, true), Retention(b.createdAt), Append(b, true)]).rows)
  {
    var one := [Append(a, true)];
    var cut := one + [Retention(b.createdAt)];
    FirstAppend(compute, rank, a);
    assert cut[..1] == one;
    var l := After(compute, EMPTY, one);
    AscendingTimes(l.rows);
    var n := PrunedIsSuffix(l.rows, b.createdAt);
    assert l.rows[0].record == a && n == 1;
    assert After(compute, EMPTY, cut) == Ledger([], l.tail);
    assert ConsistentFrom(compute, [], 0) && cut == [Append(a, true), Retention(b.createdAt)];
    GoodStep(compute, rank, EMPTY, one, Retention(b.createdAt));
    assert Ahead(compute, EMPTY, cut);
    GoodStep(compute, rank, EMPTY, cut, Append(b, true));
    assert cut + [Append(b, true)] == [Append(a, true), Retention(b.createdAt), Append(b, true)];
  }
}
