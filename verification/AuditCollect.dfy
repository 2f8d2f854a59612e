/**
 Reading the audit table for the verifier: newest-first pages are collected and sorted into
 ascending order (cmd/control-plane/verify_audit_chain.go, collectAuditChainAscending).
 */
module AuditCollect {
  import opened Wrappers
  import opened Sequences
  import opened HashChain
  import opened AuditChain
  import ConfigCanon

  // (created_at, id) order.
  predicate Before(a: Record, b: Record) {
    a.createdAt < b.createdAt || (a.createdAt == b.createdAt && ConfigCanon.Le(a.id, b.id) && a.id != b.id)
  }

  // The order in which the store lists the table: newest first, no key twice.
  predicate NewestFirst(table: seq<Row>) {
    table == [] || ((forall i :: 1 <= i < |table| ==> Before(table[i].record, table[0].record)) && NewestFirst(table[1..]))
  }

  // ---------------------------------------------------------------- one page

  const DEFAULT_CURSOR_PAGE_SIZE: int := 100
  const MAX_CURSOR_PAGE_SIZE: int := 500

  function NormalizeCursorLimit(limit: int): (n: nat)
    ensures 1 <= n <= MAX_CURSOR_PAGE_SIZE
    ensures 1 <= limit <= 500 ==> n == limit
    ensures (limit <= 0 ==> n == 100) && (limit > 500 ==> n == 500)
  {
    if limit <= 0 then DEFAULT_CURSOR_PAGE_SIZE
    else if limit > MAX_CURSOR_PAGE_SIZE then MAX_CURSOR_PAGE_SIZE
    else limit
  }

  // The rows whose key is before the cursor; no cursor means all of them.
  function RowsAfter(table: seq<Row>, cursor: Option<Record>): seq<Row> {
    if table == [] || cursor.None? || Before(table[0].record, cursor.value) then table
    else RowsAfter(table[1..], cursor)
  }

  // A page of at most `limit` rows, and the key of its last row when more rows follow.
  function ListAuditEventsCursor(table: seq<Row>, limit: int, cursor: Option<Record>): (seq<Row>, Option<Record>) {
    var rest := RowsAfter(table, cursor);
    var n := NormalizeCursorLimit(limit);
    if |rest| > n then (rest[..n], Some(rest[n - 1].record)) else (rest, None)
  }

  lemma {:induction false} BeforeIrreflexive(a: Record, b: Record)
    requires Before(a, b)
    ensures !Before(b, a)
  {
    if a.createdAt == b.createdAt && ConfigCanon.Le(b.id, a.id) {
      ConfigCanon.LeAntisymmetric(a.id, b.id);
    }
  }

  // Asking for what follows the n-th row yields exactly the rows after it.
  lemma {:induction false} RowsAfterNth(table: seq<Row>, n: nat)
    requires NewestFirst(table) && n < |table|
    ensures RowsAfter(table, Some(table[n].record)) == table[n + 1..]
  {
    if n == 0 {
      if |table| > 1 {
        assert table[1..][0] == table[1];
      }
    } else {
      BeforeIrreflexive(table[n].record, table[0].record);
      RowsAfterNth(table[1..], n - 1);
      assert table[1..][n..] == table[n + 1..];
    }
  }

  // A page that is not the last is full.
  lemma PagesAreFull(table: seq<Row>, limit: int, cursor: Option<Record>)
    ensures var (page, next) := ListAuditEventsCursor(table, limit, cursor);
            var size := if limit <= 0 then 100 else if limit > 500 then 500 else limit;
            |page| <= size && (next.Some? ==> |page| == size) && (|page| < size ==> next.None?)
  {
  }

  // A page takes up where the pages before it ended.
  lemma PageContinues(table: seq<Row>, taken: nat, limit: int, cursor: Option<Record>)
    requires NewestFirst(table) && taken <= |table| && RowsAfter(table, cursor) == table[taken..]
    ensures var (page, next) := ListAuditEventsCursor(table, limit, cursor);
            && taken + |page| <= |table|
            && table[..taken] + page == table[..taken + |page|]
            && (next.None? ==> taken + |page| == |table|)
            && (next.Some? ==> |page| > 0 && RowsAfter(table, next) == table[taken + |page|..])
  {
    var (rest, n) := (table[taken..], NormalizeCursorLimit(limit));
    if |rest| > n {
      TakeMore(table, taken, n);
      RowsAfterNth(table, taken + n - 1);
      assert rest[n - 1] == table[taken + n - 1];
    } else {
      TakeMore(table, taken, |rest|);
      assert rest[..|rest|] == rest;
    }
  }

  // ---------------------------------------------------------------- sorting

  // sort.SliceStable on (created_at, id).
  function InsertRow(row: Row, rows: seq<Row>): seq<Row> {
    if rows == [] || !Before(rows[0].record, row.record) then [row] + rows
    else [rows[0]] + InsertRow(row, rows[1..])
  }

  function SortAscending(rows: seq<Row>): seq<Row> {
    if rows == [] then [] else InsertRow(rows[0], SortAscending(rows[1..]))
  }

  function Reverse(rows: seq<Row>): (r: seq<Row>)
    ensures |r| == |rows|
    ensures forall i :: 0 <= i < |rows| ==> r[i] == rows[|rows| - 1 - i]
  {
    if rows == [] then [] else Reverse(rows[1..]) + [rows[0]]
  }

  lemma {:induction false} InsertNewest(row: Row, rows: seq<Row>)
    requires forall i :: 0 <= i < |rows| ==> Before(rows[i].record, row.record)
    ensures InsertRow(row, rows) == rows + [row]
  {
    if rows != [] {
      InsertNewest(row, rows[1..]);
      assert rows == [rows[0]] + rows[1..];
    }
  }

  lemma {:induction false} SortReverses(table: seq<Row>)
    requires NewestFirst(table)
    ensures SortAscending(table) == Reverse(table)
  {
    if table != [] {
      SortReverses(table[1..]);
      InsertNewest(table[0], Reverse(table[1..]));
    }
  }

  // ---------------------------------------------------------------- the walk over all pages

  datatype CollectError = TooManyRows

  // Page boundaries lose no row and repeat none: the result is the table, oldest row first,
  // or an error exactly when the table reaches the cap.
  method CollectAuditChainAscending(table: seq<Row>, pageSize: int, maxRows: int) returns (r: Result<seq<Row>, CollectError>)
    requires NewestFirst(table)
    ensures r.Ok? <==> |table| < (if maxRows <= 0 then 200_000 else maxRows)
    ensures r.Ok? ==> r.value == Reverse(table)
  {
    var limit := if pageSize <= 0 then 1000 else pageSize;
    var cap := if maxRows <= 0 then 200_000 else maxRows;
    var all: seq<Row> := [];
    var cursor: Option<Record> := None;
    while true
      invariant |all| <= |table| && all == table[..|all|]
      invariant RowsAfter(table, cursor) == table[|all|..]
      invariant |all| < cap
      decreases |table| - |all|
    {
      PageContinues(table, |all|, limit, cursor);
      var (page, next) := ListAuditEventsCursor(table, limit, cursor);
      all := all + page;
      if |all| >= cap {
        return Err(TooManyRows);
      }
      if next.None? {
        assert all == table;
        break;
      }
      cursor := next;
      limit := NormalizeCursorLimit(limit);
    }
    SortReverses(all);
    r := Ok(SortAscending(all));
  }

  // The whole command: a clean verdict exactly when the stored table, read oldest first, is consistent.
  method RunVerifyAuditChain(compute: EventHash, table: seq<Row>, pageSize: int, maxRows: int)
      returns (r: Result<Verdict, CollectError>)
    requires HexEventHash(compute) && NewestFirst(table)
    ensures r.Ok? <==> |table| < (if maxRows <= 0 then 200_000 else maxRows)
    ensures r.Ok? ==> (r.value.ConsistentChain? <==> Consistent(compute, Reverse(table)))
  {
    var rows := CollectAuditChainAscending(table, pageSize, maxRows);
    if rows.Err? {
      return Err(rows.error);
    }
    var verdict := VerifyAuditChainRows(compute, rows.value);
    r := Ok(verdict);
  }
}
