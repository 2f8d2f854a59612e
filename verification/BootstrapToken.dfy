/**
 The bootstrap token columns of the agents table and the guarded updates on them
 (internal/dbsqlc/transport.sql.go). Every update is atomic, so an interleaving of
 enrollments is a sequence of updates.
 */
module BootstrapToken {
  import opened Wrappers

  datatype BootstrapState = Pending | Active | Expired | Revoked

  datatype AgentRow = AgentRow(
    transportMode: string,
    dialAddress: Option<string>,
    state: BootstrapState,
    tokenHash: Option<string>,
    expiresAt: Option<int>)

  // ---------------------------------------------------------------- the updates of one row

  predicate Claimable(row: AgentRow) {
    row.state == Pending
  }

  predicate Revertible(row: AgentRow) {
    row.state == Active && row.tokenHash.Some?
  }

  function SetToken(row: AgentRow, hash: string, expiresAt: Option<int>): AgentRow {
    row.(state := Pending, tokenHash := Some(hash), expiresAt := expiresAt)
  }

  function Consume(row: AgentRow): AgentRow {
    if Claimable(row) then row.(state := Active) else row
  }

  function Revert(row: AgentRow): AgentRow {
    if Revertible(row) then row.(state := Pending) else row
  }

  function Clear(row: AgentRow): AgentRow {
    row.(state := Active, tokenHash := None, expiresAt := None)
  }

  function Expire(row: AgentRow): AgentRow {
    row.(state := Expired, tokenHash := None)
  }

  function SwitchMode(row: AgentRow, mode: string, dialAddress: Option<string>): AgentRow {
    row.(transportMode := mode, dialAddress := dialAddress)
  }

  /** The agents table, changed row by row. */
  class AgentsTable {
    var rows: map<string, AgentRow>

    constructor ()
      ensures rows == map[]
    {
      rows := map[];
    }

    // An UPDATE ... WHERE id = $1: nothing happens when there is no such row.
    ghost function Updated(before: map<string, AgentRow>, id: string, row: AgentRow -> AgentRow): map<string, AgentRow> {
      if id in before then before[id := row(before[id])] else before
    }

    method SetAgentBootstrapToken(id: string, hash: string, expiresAt: Option<int>)
      modifies this
      ensures rows == Updated(old(rows), id, r => SetToken(r, hash, expiresAt))
    {
      if id in rows {
        rows := rows[id := SetToken(rows[id], hash, expiresAt)];
      }
    }

    // The number of affected rows tells the winner from the losers.
    method ConsumeAgentBootstrapToken(id: string) returns (affected: int)
      modifies this
      ensures rows == Updated(old(rows), id, Consume)
      ensures affected == (if id in old(rows) && Claimable(old(rows)[id]) then 1 else 0)
    {
      affected := 0;
      if id in rows && rows[id].state == Pending {
        rows := rows[id := rows[id].(state := Active)];
        affected := 1;
      }
    }

    method RevertAgentBootstrapConsumed(id: string)
      modifies this
      ensures rows == Updated(old(rows), id, Revert)
    {
      if id in rows && rows[id].state == Active && rows[id].tokenHash.Some? {
        rows := rows[id := rows[id].(state := Pending)];
      }
    }

    method ClearAgentBootstrapToken(id: string)
      modifies this
      ensures rows == Updated(old(rows), id, Clear)
    {
      if id in rows {
        rows := rows[id := rows[id].(state := Active, tokenHash := None, expiresAt := None)];
      }
    }

    method ExpireAgentBootstrapToken(id: string)
      modifies this
      ensures rows == Updated(old(rows), id, Expire)
    {
      if id in rows {
        rows := rows[id := rows[id].(state := Expired, tokenHash := None)];
      }
    }
  }

  // ---------------------------------------------------------------- any interleaving

  datatype Update =
    | Set(hash: string, expiresAt: Option<int>)
    | DoConsume
    | DoRevert
    | DoClear
    | DoExpire
    | DoSwitchMode(mode: string, dialAddress: Option<string>)

  function Apply(row: AgentRow, u: Update): AgentRow {
    match u
    case Set(hash, expiresAt) => SetToken(row, hash, expiresAt)
    case DoConsume => Consume(row)
    case DoRevert => Revert(row)
    case DoClear => Clear(row)
    case DoExpire => Expire(row)
    case DoSwitchMode(mode, dialAddress) => SwitchMode(row, mode, dialAddress)
  }

  function After(row: AgentRow, us: seq<Update>): AgentRow {
    if us == [] then row else Apply(After(row, us[..|us| - 1]), us[|us| - 1])
  }

  // Enrollments that claimed the token, and claims that were given back, while us ran.
  function Claims(row: AgentRow, us: seq<Update>): nat {
    if us == [] then 0
    else
      var before := us[..|us| - 1];
      Claims(row, before) + (if us[|us| - 1].DoConsume? && Claimable(After(row, before)) then 1 else 0)
  }

  function GivenBack(row: AgentRow, us: seq<Update>): nat {
    if us == [] then 0
    else
      var before := us[..|us| - 1];
      GivenBack(row, before) + (if us[|us| - 1].DoRevert? && Revertible(After(row, before)) then 1 else 0)
  }

  predicate NoSet(us: seq<Update>) {
    forall i :: 0 <= i < |us| ==> !us[i].Set?
  }

  predicate Closed(us: seq<Update>) {
    exists i :: 0 <= i < |us| && (us[i].DoClear? || us[i].DoExpire?)
  }

  lemma ClosedSnoc(us: seq<Update>, u: Update)
    ensures Closed(us + [u]) <==> Closed(us) || u.DoClear? || u.DoExpire?
  {
    if Closed(us) {
      var i :| 0 <= i < |us| && (us[i].DoClear? || us[i].DoExpire?);
      assert (us + [u])[i] == us[i];
    }
    assert (us + [u])[|us|] == u;
  }

  // Since the latest Set: claims outnumber what was given back by at most one; the token is claimed
  // and still revertible exactly when that one claim is open and nobody cleared or expired the token.
  lemma {:induction false} SinceLatestSet(row: AgentRow, hash: string, expiresAt: Option<int>, us: seq<Update>)
    requires NoSet(us)
    ensures var start := SetToken(row, hash, expiresAt);
            var net := Claims(start, us) - GivenBack(start, us);
            var now := After(start, us);
            && 0 <= net <= 1
            && (Revertible(now) <==> net == 1 && !Closed(us))
            && (now.state == Pending <==> net == 0 && !Closed(us))
            && (now.tokenHash == if Closed(us) then None else Some(hash))
            && (Closed(us) ==> now.state in {Active, Expired})
  {
    if us != [] {
      var (before, last) := (us[..|us| - 1], us[|us| - 1]);
      assert us == before + [last];
      SinceLatestSet(row, hash, expiresAt, before);
      ClosedSnoc(before, last);
    }
  }

  // The last update that closed the token.
  function LastClosing(us: seq<Update>): Option<Update> {
    if us == [] then None
    else
      var last := us[|us| - 1];
      if last.DoClear? || last.DoExpire? then Some(last) else LastClosing(us[..|us| - 1])
  }

  function LastSwitchMode(us: seq<Update>): Option<(string, Option<string>)> {
    if us == [] then None
    else
      var last := us[|us| - 1];
      if last.DoSwitchMode? then Some((last.mode, last.dialAddress)) else LastSwitchMode(us[..|us| - 1])
  }

  // What the columns of the row say since the latest Set: a closed token leaves the agent active exactly
  // when it was cleared last, and expired when it was expired last; the expiry stays until a clear; mode
  // and address are those of the last switch; nothing revokes the row.
  lemma {:induction false} ColumnsSinceLatestSet(row: AgentRow, hash: string, expiresAt: Option<int>, us: seq<Update>)
    requires NoSet(us)
    ensures var now := After(SetToken(row, hash, expiresAt), us);
            && (Closed(us) <==> LastClosing(us).Some?)
            && (LastClosing(us) == Some(DoClear) ==> now.state == Active)
            && (LastClosing(us) == Some(DoExpire) ==> now.state == Expired)
            && now.state != Revoked
            && now.expiresAt == (if DoClear in us then None else expiresAt)
            && now.transportMode == (if LastSwitchMode(us).Some? then LastSwitchMode(us).value.0 else row.transportMode)
            && now.dialAddress == (if LastSwitchMode(us).Some? then LastSwitchMode(us).value.1 else row.dialAddress)
    ensures LastClosing(us) in {None, Some(DoClear), Some(DoExpire)}
  {
    if us != [] {
      var (before, last) := (us[..|us| - 1], us[|us| - 1]);
      assert us == before + [last];
      ColumnsSinceLatestSet(row, hash, expiresAt, before);
      SinceLatestSet(row, hash, expiresAt, before);
      ClosedSnoc(before, last);
      assert DoClear in us <==> DoClear in before || last == DoClear;
    }
  }

  // An enrollment that claims the token and completes leaves the agent active, without token and expiry.
  lemma CompletedEnrollment(row: AgentRow, hash: string, expiresAt: Option<int>)
    ensures var now := After(SetToken(row, hash, expiresAt), [DoConsume, DoClear]);
            now.state == Active && now.tokenHash == None && now.expiresAt == None
  {
    var us := [DoConsume, DoClear];
    assert us[1].DoClear?;
    ColumnsSinceLatestSet(row, hash, expiresAt, us);
    SinceLatestSet(row, hash, expiresAt, us);
  }

  // A closed token stays closed: no later claim wins and no later give-back has an effect.
  lemma {:induction false} ClosedTokenStaysClosed(row: AgentRow, hash: string, expiresAt: Option<int>, us: seq<Update>, vs: seq<Update>)
    requires NoSet(us) && NoSet(vs) && Closed(us)
    ensures var start := SetToken(row, hash, expiresAt);
            && Claims(start, us + vs) == Claims(start, us)
            && GivenBack(start, us + vs) == GivenBack(start, us)
            && After(start, us + vs).tokenHash == None
  {
    var all := us + vs;
    if vs == [] {
      assert all == us;
      SinceLatestSet(row, hash, expiresAt, us);
    } else {
      ClosedTokenStaysClosed(row, hash, expiresAt, us, vs[..|vs| - 1]);
      var before := us + vs[..|vs| - 1];
      assert all[..|all| - 1] == before;
      assert Closed(before) by {
        var i :| 0 <= i < |us| && (us[i].DoClear? || us[i].DoExpire?);
        assert before[i] == us[i];
      }
      SinceLatestSet(row, hash, expiresAt, before);
      var i :| 0 <= i < |us| && (us[i].DoClear? || us[i].DoExpire?);
      assert all[i] == us[i];
      SinceLatestSet(row, hash, expiresAt, all);
    }
  }

  // Counting alone does not tell: after a completed enrollment one claim is open for ever, and the
  // token is gone.
  lemma ClaimedAndCleared(row: AgentRow, hash: string, expiresAt: Option<int>)
    ensures var start := SetToken(row, hash, expiresAt);
            var us := [DoConsume, DoClear];
            Claims(start, us) - GivenBack(start, us) == 1 && !Revertible(After(start, us))
  {
    var start := SetToken(row, hash, expiresAt);
    var (one, two) := ([DoConsume], [DoConsume, DoClear]);
    assert two[..|two| - 1] == one && one[..|one| - 1] == [];
    assert Claims(start, one) == 1 && GivenBack(start, one) == 0;
    assert Claims(start, two) == 1 && GivenBack(start, two) == 0;
  }

  // A pending row has a hash, whatever happens to it.
  lemma {:induction false} PendingHasHash(row: AgentRow, us: seq<Update>)
    requires row.state == Pending ==> row.tokenHash.Some?
    ensures After(row, us).state == Pending ==> After(row, us).tokenHash.Some?
  {
    if us != [] {
      PendingHasHash(row, us[..|us| - 1]);
    }
  }
}
