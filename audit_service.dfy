/**
  The operations of the audit service over the database value: logging an
  action into the open row of the caller's day, reading a user's actions back
  for a time range, and dropping expired monthly tables.

  An action list's JSON length is a parameter `jsonLen`; the clock (`now`)
  and the fresh row id are parameters too.
 */
module AuditService {
  import opened Common
  import opened Time
  import opened Models
  import opened Store
  import opened Errors
  import opened Audit
  import Sorting

  // ---------------------------------------------------------------------------
  // Rotation

  /**
    `should_rotate_row`: start a new row when the open one already holds 50
    actions, or when appending would make its JSON longer than 1 MiB.
   */
  function ShouldRotateRow(actions: seq<AuditAction>, newAction: AuditAction,
                           jsonLen: seq<AuditAction> -> nat): (rotate: bool)
    ensures !rotate ==>
      |actions + [newAction]| <= MaxActionsPerRow && jsonLen(actions + [newAction]) <= MaxRowJsonBytes
    ensures rotate ==>
      |actions| >= MaxActionsPerRow || (|actions| < MaxActionsPerRow && jsonLen(actions + [newAction]) > MaxRowJsonBytes)
  {
    if |actions| >= MaxActionsPerRow then true
    else jsonLen(actions + [newAction]) > MaxRowJsonBytes
  }

  // ---------------------------------------------------------------------------
  // Row invariants

  /** The rows of one user's day. */
  predicate RowOf(row: AuditLog, userId: string, date: string) {
    row.userId == userId && row.sessionDate == date
  }

  /**
    What rotation guarantees of a row written by the service: it parses, holds
    1 to 50 actions, and unless it is a fresh singleton its JSON fits in 1 MiB.
   */
  predicate RowBounded(row: AuditLog, jsonLen: seq<AuditAction> -> nat) {
    row.actions.Actions?
    && 1 <= |row.actions.list| <= MaxActionsPerRow
    && (|row.actions.list| == 1 || jsonLen(row.actions.list) <= MaxRowJsonBytes)
  }

  predicate TableBounded(rows: seq<AuditLog>, jsonLen: seq<AuditAction> -> nat) {
    forall i :: 0 <= i < |rows| ==> RowBounded(rows[i], jsonLen)
  }

  predicate AllBounded(db: Db, jsonLen: seq<AuditAction> -> nat) {
    forall t :: t in db.audit ==> TableBounded(db.audit[t], jsonLen)
  }

  /** Every action of a row was taken in the month that names its table. */
  predicate RowSharded(row: AuditLog, table: string) {
    forall x :: x in Decode(row.actions) ==> 1 <= x.timestamp.month <= 12 && TableOf(x.timestamp) == table
  }

  predicate TableSharded(rows: seq<AuditLog>, table: string) {
    forall i :: 0 <= i < |rows| ==> RowSharded(rows[i], table)
  }

  /** The monthly sharding: every stored action lies in the table of its own month. */
  predicate Sharded(db: Db) {
    forall t :: t in db.audit ==> TableSharded(db.audit[t], t)
  }

  /** The number of actions stored for one user's day. */
  function ActionCount(rows: seq<AuditLog>, userId: string, date: string): nat {
    if rows == [] then 0
    else
      var last := rows[|rows| - 1];
      ActionCount(rows[..|rows| - 1], userId, date) + (if RowOf(last, userId, date) then |Decode(last.actions)| else 0)
  }

  /** The number of rows stored for one user's day. */
  function RowCount(rows: seq<AuditLog>, userId: string, date: string): nat {
    if rows == [] then 0
    else RowCount(rows[..|rows| - 1], userId, date) + (if RowOf(rows[|rows| - 1], userId, date) then 1 else 0)
  }

  /** Bounded rows hold at most 50 actions each. */
  lemma {:induction false} ActionCountBound(rows: seq<AuditLog>, userId: string, date: string,
                                            jsonLen: seq<AuditAction> -> nat)
    requires TableBounded(rows, jsonLen)
    ensures ActionCount(rows, userId, date) <= MaxActionsPerRow * RowCount(rows, userId, date)
  {
    if rows != [] {
      ActionCountBound(rows[..|rows| - 1], userId, date, jsonLen);
    }
  }

  /** More than 50 actions for one user's day are spread over at least two rows. */
  lemma ManyActionsNeedManyRows(rows: seq<AuditLog>, userId: string, date: string,
                                jsonLen: seq<AuditAction> -> nat)
    requires TableBounded(rows, jsonLen)
    requires ActionCount(rows, userId, date) > MaxActionsPerRow
    ensures RowCount(rows, userId, date) >= 2
  {
    ActionCountBound(rows, userId, date, jsonLen);
  }

  /** Replacing one row changes the count by the difference of the two rows' contributions. */
  lemma {:induction false} ActionCountReplace(rows: seq<AuditLog>, i: nat, row: AuditLog, userId: string, date: string)
    requires i < |rows|
    requires RowOf(rows[i], userId, date) && RowOf(row, userId, date)
    ensures ActionCount(rows[i := row], userId, date) + |Decode(rows[i].actions)|
      == ActionCount(rows, userId, date) + |Decode(row.actions)|
  {
    var n := |rows|;
    if i < n - 1 {
      assert rows[i := row][..n - 1] == rows[..n - 1][i := row];
      ActionCountReplace(rows[..n - 1], i, row, userId, date);
    } else {
      assert rows[i := row][..n - 1] == rows[..n - 1];
    }
  }

  lemma ActionCountAppend(rows: seq<AuditLog>, row: AuditLog, userId: string, date: string)
    ensures ActionCount(rows + [row], userId, date)
      == ActionCount(rows, userId, date) + (if RowOf(row, userId, date) then |Decode(row.actions)| else 0)
  {
    assert (rows + [row])[..|rows|] == rows;
  }

  // ---------------------------------------------------------------------------
  // Table creation and the open row

  /** `ensure_audit_table_exists`: `CREATE TABLE IF NOT EXISTS`, an existing table is left as it is. */
  function EnsureAuditTable(audit: map<string, seq<AuditLog>>, table: string): (r: map<string, seq<AuditLog>>)
    ensures table in r && r.Keys == audit.Keys + {table}
    ensures forall t :: t in audit ==> r[t] == audit[t]
    ensures table !in audit ==> r[table] == []
  {
    if table in audit then audit else audit[table := []]
  }

  /** Creating a table twice is the same as creating it once. */
  lemma EnsureAuditTableIdempotent(audit: map<string, seq<AuditLog>>, table: string)
    ensures EnsureAuditTable(EnsureAuditTable(audit, table), table) == EnsureAuditTable(audit, table)
  {
  }

  /**
    The row `SELECT … WHERE user_id = ? AND session_date = ? ORDER BY
    updated_at DESC LIMIT 1` returns: a row of the user's day with the latest
    update time, the first in table order among rows updated at that instant.
   */
  function OpenRow(rows: seq<AuditLog>, userId: string, date: string): (r: Option<nat>)
    ensures r.Some? ==> r.value < |rows| && RowOf(rows[r.value], userId, date)
    ensures r.Some? ==> forall j :: 0 <= j < |rows| && RowOf(rows[j], userId, date) ==>
      Le(rows[j].updatedAt, rows[r.value].updatedAt)
    ensures r.Some? ==> forall j :: 0 <= j < r.value && RowOf(rows[j], userId, date) ==>
      Lt(rows[j].updatedAt, rows[r.value].updatedAt)
    ensures r.None? <==> forall j :: 0 <= j < |rows| ==> !RowOf(rows[j], userId, date)
  {
    if rows == [] then None
    else
      var n := |rows| - 1;
      var r := OpenRow(rows[..n], userId, date);
      var last := rows[n];
      assert forall j :: 0 <= j < n ==> rows[j] == rows[..n][j];
      if RowOf(last, userId, date) && (r.None? || Lt(rows[r.value].updatedAt, last.updatedAt)) then
        assert forall j :: 0 <= j < n && RowOf(rows[j], userId, date) ==> Lt(rows[j].updatedAt, last.updatedAt) by {
          forall j | 0 <= j < n && RowOf(rows[j], userId, date)
            ensures Lt(rows[j].updatedAt, last.updatedAt)
          {
            LeTotalOrder(rows[j].updatedAt, rows[r.value].updatedAt, last.updatedAt);
          }
        }
        Some(n)
      else
        assert r.Some? && RowOf(last, userId, date) ==> Le(last.updatedAt, rows[r.value].updatedAt) by {
          if r.Some? {
            LeTotalOrder(last.updatedAt, rows[r.value].updatedAt, last.updatedAt);
          }
        }
        r
  }

  // ---------------------------------------------------------------------------
  // Writing rows

  /** The rows of `table`, or none when it does not exist. */
  function RowsOf(audit: map<string, seq<AuditLog>>, table: string): seq<AuditLog> {
    if table in audit then audit[table] else []
  }

  /**
    `create_new_audit_row`: insert a row holding just `a`, created and updated
    `now`. The engine refuses it when the table is missing, when no user has
    that id (the foreign key) or when the row id is taken (the primary key).
   */
  method CreateNewAuditRow(db: Db, userId: string, sessionDate: string, a: AuditAction, table: string,
                           freshId: string, now: DateTime)
    returns (db': Db, r: Result<()>)
    ensures r.Ok? <==> table in db.audit && HasUser(db, userId) && !HasRowId(db.audit[table], freshId)
    ensures r.Err? ==> r.error.Database? && db' == db
    ensures r.Ok? ==> db' == db.(audit := db.audit[table := db.audit[table]
      + [AuditLog(freshId, userId, sessionDate, Actions([a]), now, now)]])
  {
    var log := NewAuditLog(freshId, userId, sessionDate, now);
    if table !in db.audit {
      return db, Err(Database("no such table: " + table));
    }
    if UserById(db, userId).None? {
      return db, Err(Database("FOREIGN KEY constraint failed"));
    }
    var rows := db.audit[table];
    var k := 0;
    while k < |rows|
      invariant k <= |rows|
      invariant forall j :: 0 <= j < k ==> rows[j].id != log.id
    {
      if rows[k].id == log.id {
        return db, Err(Database("UNIQUE constraint failed: " + table + ".id"));
      }
      k := k + 1;
    }
    var row := log.(actions := Actions([a]));
    db' := db.(audit := db.audit[table := rows + [row]]);
    r := Ok(());
  }

  /** `UPDATE … SET actions = ?, updated_at = ? WHERE id = ?`. */
  method UpdateRowById(rows: seq<AuditLog>, id: string, acts: seq<AuditAction>, now: DateTime)
    returns (rows': seq<AuditLog>)
    ensures |rows'| == |rows|
    ensures forall j :: 0 <= j < |rows| ==>
      rows'[j] == if rows[j].id == id then rows[j].(actions := Actions(acts), updatedAt := now) else rows[j]
  {
    rows' := [];
    var k := 0;
    while k < |rows|
      invariant k <= |rows| && |rows'| == k
      invariant forall j :: 0 <= j < k ==>
        rows'[j] == if rows[j].id == id then rows[j].(actions := Actions(acts), updatedAt := now) else rows[j]
    {
      var row := rows[k];
      if row.id == id {
        row := row.(actions := Actions(acts), updatedAt := now);
      }
      rows' := rows' + [row];
      k := k + 1;
    }
  }

  /**
    `rows'` is `rows` with the row at `i` given the actions `acts` and the
    update time `now`; every other row is untouched.
   */
  predicate AppendedAt(rows: seq<AuditLog>, rows': seq<AuditLog>, i: int, acts: seq<AuditAction>, now: DateTime) {
    0 <= i < |rows| && rows' == AppendedRows(rows, i, acts, now)
  }

  /**
    When `log_action` succeeds: the open row of the action's day takes the
    action without rotating, or else a fresh row can be inserted (its user
    exists and its id is not taken).
   */
  predicate LogSucceeds(db: Db, userId: string, a: AuditAction, freshId: string, jsonLen: seq<AuditAction> -> nat)
    requires Valid(a.timestamp)
  {
    var rows := RowsOf(db.audit, TableOf(a.timestamp));
    var open := OpenRow(rows, userId, DateStr(a.timestamp));
    (open.Some? && !ShouldRotateRow(Decode(rows[open.value].actions), a, jsonLen))
    || (HasUser(db, userId) && !HasRowId(rows, freshId))
  }

  /**
    `log_action`: make sure this month's table exists, then append the action
    to the open row of the caller's day, or insert a new row when there is
    none or it has to rotate. The table persists even when the insert fails.
    The database satisfies its primary keys beforehand, as the engine
    guarantees of every state.
   */
  method LogAction(db: Db, userId: string, action: string, resourceId: Option<string>, details: Option<string>,
                   now: DateTime, freshId: string, jsonLen: seq<AuditAction> -> nat)
    returns (db': Db, r: Result<()>)
    requires Valid(now) && WellFormed(db)
    ensures db'.users == db.users && db'.revocations == db.revocations
    ensures db'.audit.Keys == db.audit.Keys + {TableOf(now)}
    ensures forall t :: t in db.audit && t != TableOf(now) ==> db'.audit[t] == db.audit[t]
    ensures WellFormed(db')
    ensures AllBounded(db, jsonLen) ==> AllBounded(db', jsonLen)
    ensures Sharded(db) ==> Sharded(db')
    ensures
      var rows, rows', date := RowsOf(db.audit, TableOf(now)), db'.audit[TableOf(now)], DateStr(now);
      var a := NewAuditAction(action, resourceId, details, now);
      var open := OpenRow(rows, userId, date);
      if open.Some? && !ShouldRotateRow(Decode(rows[open.value].actions), a, jsonLen) then
        r.Ok? && AppendedAt(rows, rows', open.value, Decode(rows[open.value].actions) + [a], now)
      else if HasUser(db, userId) && !HasRowId(rows, freshId) then
        r.Ok? && rows' == rows + [AuditLog(freshId, userId, date, Actions([a]), now, now)]
      else
        r.Err? && r.error.Database? && rows' == rows
    ensures r.Ok? ==>
      ActionCount(db'.audit[TableOf(now)], userId, DateStr(now))
      == ActionCount(RowsOf(db.audit, TableOf(now)), userId, DateStr(now)) + 1
    ensures r.Ok? <==> LogSucceeds(db, userId, NewAuditAction(action, resourceId, details, now), freshId, jsonLen)
  {
    var sessionDate := DateStr(now);
    var a := NewAuditAction(action, resourceId, details, now);
    var table := TableName(now.year, now.month);
    var db1 := db.(audit := EnsureAuditTable(db.audit, table));
    var rows := db1.audit[table];
    var open := OpenRow(rows, userId, sessionDate);
    if open.Some? {
      var acts := Decode(rows[open.value].actions);
      if !ShouldRotateRow(acts, a, jsonLen) {
        db' := AppendToRow(db1, table, open.value, acts + [a], now);
        r := Ok(());
        AppendKeepsInvariants(db, db1, db', table, open.value, userId, a, now, jsonLen);
        return;
      }
    }
    db', r := CreateNewAuditRow(db1, userId, sessionDate, a, table, freshId, now);
    if r.Ok? {
      InsertKeepsInvariants(db, db1, db', table, userId, sessionDate, a, freshId, now, jsonLen);
      InsertChangesOneTable(db, db1, db', table, userId, sessionDate, a, freshId, now);
    }
  }

  /** The user's row for the action's day, in the action's month table, ends with the action. */
  predicate Recorded(db: Db, userId: string, a: AuditAction)
    requires Valid(a.timestamp)
  {
    var t := TableOf(a.timestamp);
    t in db.audit
    && exists i ::
         0 <= i < |db.audit[t]| && RowOf(db.audit[t][i], userId, DateStr(a.timestamp))
         && Decode(db.audit[t][i].actions) != []
         && Decode(db.audit[t][i].actions)[|Decode(db.audit[t][i].actions)| - 1] == a
  }

  /** A call that `log_action` reports as successful has recorded its action, in either branch. */
  lemma LoggedActionRecorded(db: Db, db': Db, userId: string, a: AuditAction, freshId: string,
                             jsonLen: seq<AuditAction> -> nat)
    requires Valid(a.timestamp) && TableOf(a.timestamp) in db'.audit
    requires var now := a.timestamp;
      var rows, rows', date := RowsOf(db.audit, TableOf(now)), db'.audit[TableOf(now)], DateStr(now);
      var open := OpenRow(rows, userId, date);
      if open.Some? && !ShouldRotateRow(Decode(rows[open.value].actions), a, jsonLen) then
        AppendedAt(rows, rows', open.value, Decode(rows[open.value].actions) + [a], now)
      else
        rows' == rows + [AuditLog(freshId, userId, date, Actions([a]), now, now)]
    ensures Recorded(db', userId, a)
  {
    var now := a.timestamp;
    var rows, rows', date := RowsOf(db.audit, TableOf(now)), db'.audit[TableOf(now)], DateStr(now);
    var open := OpenRow(rows, userId, date);
    if open.Some? && !ShouldRotateRow(Decode(rows[open.value].actions), a, jsonLen) {
      var acts := Decode(rows'[open.value].actions);
      assert acts == Decode(rows[open.value].actions) + [a];
      assert acts[|acts| - 1] == a;
    } else {
      assert rows'[|rows|].actions == Actions([a]);
    }
  }

  /** The append branch: rewrite the open row at `i` through the update by id. */
  method AppendToRow(db: Db, table: string, i: nat, acts: seq<AuditAction>, now: DateTime) returns (db': Db)
    requires table in db.audit && i < |db.audit[table]| && UniqueRowIds(db.audit[table])
    ensures db' == db.(audit := db.audit[table := AppendedRows(db.audit[table], i, acts, now)])
  {
    var rows := db.audit[table];
    var rows' := UpdateRowById(rows, rows[i].id, acts, now);
    AppendTouchesOneRow(rows, rows', i, acts, now);
    db' := db.(audit := db.audit[table := rows']);
  }

  /** With unique ids, the update by id touches exactly the open row. */
  lemma AppendTouchesOneRow(rows: seq<AuditLog>, rows': seq<AuditLog>, i: nat, acts: seq<AuditAction>, now: DateTime)
    requires i < |rows| && UniqueRowIds(rows) && |rows'| == |rows|
    requires forall j :: 0 <= j < |rows| ==>
      rows'[j] == if rows[j].id == rows[i].id then rows[j].(actions := Actions(acts), updatedAt := now) else rows[j]
    ensures AppendedAt(rows, rows', i, acts, now)
  {
    forall j | 0 <= j < |rows| && j != i ensures rows[j].id != rows[i].id {
      if j < i {
        assert rows[j].id != rows[i].id;
      } else {
        assert rows[i].id != rows[j].id;
      }
    }
  }

  /** Appending to the open row keeps ids unique, rows bounded and actions in their month's table. */
  lemma AppendKeepsInvariants(db: Db, db1: Db, db': Db, table: string, i: nat, userId: string, a: AuditAction,
                              now: DateTime, jsonLen: seq<AuditAction> -> nat)
    requires Valid(now) && table == TableOf(now) && WellFormed(db) && a.timestamp == now
    requires db1 == db.(audit := EnsureAuditTable(db.audit, table))
    requires i < |db1.audit[table]|
    requires var rows, acts := db1.audit[table], Decode(db1.audit[table][i].actions);
      !ShouldRotateRow(acts, a, jsonLen)
      && db' == db1.(audit := db1.audit[table := AppendedRows(rows, i, acts + [a], now)])
    requires RowOf(db1.audit[table][i], userId, DateStr(now))
    ensures db'.users == db.users && db'.revocations == db.revocations
    ensures db'.audit.Keys == db.audit.Keys + {table}
    ensures forall t :: t in db.audit && t != table ==> db'.audit[t] == db.audit[t]
    ensures WellFormed(db')
    ensures AllBounded(db, jsonLen) ==> AllBounded(db', jsonLen)
    ensures Sharded(db) ==> Sharded(db')
    ensures ActionCount(db'.audit[table], userId, DateStr(now)) == ActionCount(db1.audit[table], userId, DateStr(now)) + 1
  {
    var rows := db1.audit[table];
    var rows' := db'.audit[table];
    ActionCountReplace(rows, i, rows'[i], userId, DateStr(now));
    assert UniqueRowIds(rows);
    assert UniqueRowIds(rows') by {
      forall j, k | 0 <= j < k < |rows'| ensures rows'[j].id != rows'[k].id {
        assert rows'[j].id == rows[j].id && rows'[k].id == rows[k].id;
      }
    }
    if Sharded(db) {
      assert TableSharded(rows, table);
      assert RowSharded(rows'[i], table) by {
        forall x | x in Decode(rows'[i].actions) ensures 1 <= x.timestamp.month <= 12 && TableOf(x.timestamp) == table {
          assert x in Decode(rows[i].actions) + [a];
          if x != a {
            assert RowSharded(rows[i], table);
          }
        }
      }
      assert TableSharded(rows', table);
    }
  }

  function AppendedRows(rows: seq<AuditLog>, i: nat, acts: seq<AuditAction>, now: DateTime): seq<AuditLog>
    requires i < |rows|
  {
    rows[i := rows[i].(actions := Actions(acts), updatedAt := now)]
  }

  /** An insert touches only its own table, where the user's day gains exactly the one action. */
  lemma InsertChangesOneTable(db: Db, db1: Db, db': Db, table: string, userId: string, date: string,
                              a: AuditAction, freshId: string, now: DateTime)
    requires db1 == db.(audit := EnsureAuditTable(db.audit, table))
    requires db' == db1.(audit := db1.audit[table := db1.audit[table] + [AuditLog(freshId, userId, date, Actions([a]), now, now)]])
    ensures db'.users == db.users && db'.revocations == db.revocations
    ensures db'.audit.Keys == db.audit.Keys + {table}
    ensures forall t :: t in db.audit && t != table ==> db'.audit[t] == db.audit[t]
    ensures ActionCount(db'.audit[table], userId, date) == ActionCount(db1.audit[table], userId, date) + 1
  {
    var row := AuditLog(freshId, userId, date, Actions([a]), now, now);
    var m := EnsureAuditTable(db.audit, table);
    assert db'.audit == m[table := m[table] + [row]];
    forall t | t in db.audit && t != table ensures db'.audit[t] == db.audit[t] {
      assert m[t] == db.audit[t];
    }
    ActionCountAppend(m[table], row, userId, date);
  }

  /** Inserting a fresh singleton row keeps ids unique, rows bounded and actions in their month's table. */
  lemma InsertKeepsInvariants(db: Db, db1: Db, db': Db, table: string, userId: string, date: string,
                              a: AuditAction, freshId: string, now: DateTime, jsonLen: seq<AuditAction> -> nat)
    requires Valid(now) && table == TableOf(now) && WellFormed(db) && a.timestamp == now
    requires db1 == db.(audit := EnsureAuditTable(db.audit, table))
    requires !HasRowId(db1.audit[table], freshId)
    requires db' == db1.(audit := db1.audit[table := db1.audit[table] + [AuditLog(freshId, userId, date, Actions([a]), now, now)]])
    ensures WellFormed(db')
    ensures AllBounded(db, jsonLen) ==> AllBounded(db', jsonLen)
    ensures Sharded(db) ==> Sharded(db')
  {
    var rows := db1.audit[table];
    var rows' := db'.audit[table];
    assert UniqueRowIds(rows') by {
      assert UniqueRowIds(rows);
      forall j, k | 0 <= j < k < |rows'| ensures rows'[j].id != rows'[k].id {
        if k == |rows| {
          assert rows'[j] == rows[j];
        } else {
          assert rows'[j] == rows[j] && rows'[k] == rows[k];
        }
      }
    }
    if AllBounded(db, jsonLen) {
      assert TableBounded(rows', jsonLen) by {
        assert TableBounded(rows, jsonLen);
        assert forall j :: 0 <= j < |rows| ==> rows'[j] == rows[j];
      }
    }
    if Sharded(db) {
      assert TableSharded(rows', table) by {
        assert TableSharded(rows, table);
        assert forall j :: 0 <= j < |rows| ==> rows'[j] == rows[j];
      }
    }
  }

  // ---------------------------------------------------------------------------
  // Range queries

  /** `start <= t && t <= end`, the BETWEEN of SQL and the action filter alike. */
  predicate InWindow(t: DateTime, start: DateTime, end: DateTime) {
    Le(start, t) && Le(t, end)
  }

  /**
    The row filter of the query: the user's rows and, when `byCreated`, only
    those created inside the window (the query as written filters by creation).
   */
  predicate RowKept(row: AuditLog, userId: string, start: DateTime, end: DateTime, byCreated: bool) {
    row.userId == userId && (byCreated ==> InWindow(row.createdAt, start, end))
  }

  predicate CreatedLe(a: AuditLog, b: AuditLog) {
    Le(a.createdAt, b.createdAt)
  }

  /** The comparator of `sort_by(|a, b| a.timestamp.cmp(&b.timestamp))`. */
  predicate ActionLe(a: AuditAction, b: AuditAction) {
    Le(a.timestamp, b.timestamp)
  }

  lemma CreatedLeTotal()
    ensures Sorting.TotalPreorder(CreatedLe)
  {
    forall a: AuditLog, b: AuditLog, c: AuditLog ensures CreatedLe(a, b) || CreatedLe(b, a)
      ensures CreatedLe(a, b) && CreatedLe(b, c) ==> CreatedLe(a, c)
    {
      LeTotalOrder(a.createdAt, b.createdAt, c.createdAt);
    }
  }

  lemma ActionLeTotal()
    ensures Sorting.TotalPreorder(ActionLe)
  {
    forall a: AuditAction, b: AuditAction, c: AuditAction ensures ActionLe(a, b) || ActionLe(b, a)
      ensures ActionLe(a, b) && ActionLe(b, c) ==> ActionLe(a, c)
    {
      LeTotalOrder(a.timestamp, b.timestamp, c.timestamp);
    }
  }

  /** The rows the filter keeps, in table order. */
  function KeptRows(rows: seq<AuditLog>, userId: string, start: DateTime, end: DateTime, byCreated: bool)
    : (kept: seq<AuditLog>)
    ensures forall row :: row in kept <==> row in rows && RowKept(row, userId, start, end, byCreated)
  {
    if rows == [] then []
    else
      var init, last := rows[..|rows| - 1], rows[|rows| - 1];
      assert rows == init + [last];
      KeptRows(init, userId, start, end, byCreated)
        + (if RowKept(last, userId, start, end, byCreated) then [last] else [])
  }

  /** `SELECT … WHERE … ORDER BY created_at`: the kept rows, ordered by creation time. */
  function SelectRows(rows: seq<AuditLog>, userId: string, start: DateTime, end: DateTime, byCreated: bool)
    : (selected: seq<AuditLog>)
    ensures forall row :: row in selected <==> row in rows && RowKept(row, userId, start, end, byCreated)
    ensures Sorting.Sorted(selected, CreatedLe)
  {
    var kept := KeptRows(rows, userId, start, end, byCreated);
    CreatedLeTotal();
    Sorting.SortBySortedPermutation(kept, CreatedLe);
    assert forall row :: row in Sorting.SortBy(kept, CreatedLe) <==> row in multiset(kept);
    Sorting.SortBy(kept, CreatedLe)
  }

  /** The actions of a row list that lie in the window, in order. */
  function WindowActions(acts: seq<AuditAction>, start: DateTime, end: DateTime): (w: seq<AuditAction>)
    ensures forall x :: x in w <==> x in acts && InWindow(x.timestamp, start, end)
  {
    if acts == [] then []
    else
      var init, last := acts[..|acts| - 1], acts[|acts| - 1];
      assert acts == init + [last];
      WindowActions(init, start, end) + (if InWindow(last.timestamp, start, end) then [last] else [])
  }

  /** The in-window actions of each row in turn, each row's actions decoded as the query does. */
  function RowsActions(logs: seq<AuditLog>, start: DateTime, end: DateTime): seq<AuditAction> {
    if logs == [] then []
    else
      RowsActions(logs[..|logs| - 1], start, end) + WindowActions(Decode(logs[|logs| - 1].actions), start, end)
  }

  /** The actions collected from one table: none when it does not exist. */
  function TableActions(db: Db, name: string, userId: string, start: DateTime, end: DateTime,
                        byCreated: bool): seq<AuditAction>
  {
    if name in db.audit then RowsActions(SelectRows(db.audit[name], userId, start, end, byCreated), start, end)
    else []
  }

  /** The actions collected from each listed table in turn; tables that do not exist are skipped. */
  function TablesActions(db: Db, names: seq<string>, userId: string, start: DateTime, end: DateTime,
                         byCreated: bool): seq<AuditAction>
  {
    if names == [] then []
    else
      TablesActions(db, names[..|names| - 1], userId, start, end, byCreated)
        + TableActions(db, names[|names| - 1], userId, start, end, byCreated)
  }

  /** A row list contributes exactly the in-window actions of its rows. */
  lemma {:induction false} InRowsActions(logs: seq<AuditLog>, start: DateTime, end: DateTime, x: AuditAction)
    ensures x in RowsActions(logs, start, end) <==>
      InWindow(x.timestamp, start, end) && exists row :: row in logs && x in Decode(row.actions)
  {
    if logs != [] {
      var init, last := logs[..|logs| - 1], logs[|logs| - 1];
      InRowsActions(init, start, end, x);
      assert logs == init + [last];
      if x in Decode(last.actions) && InWindow(x.timestamp, start, end) {
        assert x in WindowActions(Decode(last.actions), start, end);
      }
      if exists row :: row in logs && x in Decode(row.actions) {
        var row :| row in logs && x in Decode(row.actions);
        if row != last {
          assert row in init;
        }
      }
    }
  }

  /** The table `name` exists and one of its kept rows holds `x`. */
  predicate TableHolds(db: Db, name: string, userId: string, start: DateTime, end: DateTime, byCreated: bool,
                       x: AuditAction)
  {
    name in db.audit
    && exists row :: row in db.audit[name] && RowKept(row, userId, start, end, byCreated) && x in Decode(row.actions)
  }

  /** One table contributes exactly the in-window actions of its kept rows. */
  lemma InTableActions(db: Db, name: string, userId: string, start: DateTime, end: DateTime, byCreated: bool,
                       x: AuditAction)
    ensures x in TableActions(db, name, userId, start, end, byCreated) <==>
      InWindow(x.timestamp, start, end) && TableHolds(db, name, userId, start, end, byCreated, x)
  {
    if name in db.audit {
      var selected := SelectRows(db.audit[name], userId, start, end, byCreated);
      InRowsActions(selected, start, end, x);
      if TableHolds(db, name, userId, start, end, byCreated, x) {
        var row :| row in db.audit[name] && RowKept(row, userId, start, end, byCreated) && x in Decode(row.actions);
        assert row in selected;
      }
    }
  }

  /**
    An action is collected exactly when it lies in the window and some kept row
    of an existing listed table holds it.
   */
  lemma {:induction false} InTablesActions(db: Db, names: seq<string>, userId: string, start: DateTime,
                                           end: DateTime, byCreated: bool, x: AuditAction)
    ensures x in TablesActions(db, names, userId, start, end, byCreated) <==>
      InWindow(x.timestamp, start, end)
      && exists k :: 0 <= k < |names| && TableHolds(db, names[k], userId, start, end, byCreated, x)
  {
    if names != [] {
      var init, last := names[..|names| - 1], names[|names| - 1];
      InTablesActions(db, init, userId, start, end, byCreated, x);
      InTableActions(db, last, userId, start, end, byCreated, x);
      SomeTableHoldsSplit(db, names, userId, start, end, byCreated, x);
    }
  }

  /** Some listed table holds `x` exactly when one of all but the last does, or the last does. */
  lemma SomeTableHoldsSplit(db: Db, names: seq<string>, userId: string, start: DateTime, end: DateTime,
                            byCreated: bool, x: AuditAction)
    requires names != []
    ensures var init := names[..|names| - 1];
      (exists k :: 0 <= k < |names| && TableHolds(db, names[k], userId, start, end, byCreated, x))
      <==> (exists k :: 0 <= k < |init| && TableHolds(db, init[k], userId, start, end, byCreated, x))
           || TableHolds(db, names[|names| - 1], userId, start, end, byCreated, x)
  {
    var init := names[..|names| - 1];
    if exists k :: 0 <= k < |names| && TableHolds(db, names[k], userId, start, end, byCreated, x) {
      var k :| 0 <= k < |names| && TableHolds(db, names[k], userId, start, end, byCreated, x);
      if k < |init| {
        assert init[k] == names[k];
      }
    }
    if exists k :: 0 <= k < |init| && TableHolds(db, init[k], userId, start, end, byCreated, x) {
      var k :| 0 <= k < |init| && TableHolds(db, init[k], userId, start, end, byCreated, x);
      assert names[k] == init[k];
    }
  }

  /** What `get_user_audit_logs` returns, as written: the collected actions stably sorted by timestamp. */
  function QueryResult(db: Db, userId: string, start: DateTime, end: DateTime): seq<AuditAction> {
    Sorting.SortBy(TablesActions(db, MonthTables(start, WalkCount(start, end)), userId, start, end, true), ActionLe)
  }

  /**
    `get_user_audit_logs`: list the range's tables, skip those that do not
    exist, select the user's rows created in the window, collect their actions
    whose timestamps lie in the window, and sort by timestamp.
   */
  method GetUserAuditLogs(db: Db, userId: string, start: DateTime, end: DateTime)
    returns (r: Outcome<seq<AuditAction>>)
    requires Valid(start) && Valid(end) && InYearRange(start.year) && InYearRange(end.year)
    ensures r.Panicked? <==> !PanicFree(start, end)
    ensures r.Returned? ==> r.result == Ok(QueryResult(db, userId, start, end))
  {
    var names := GetTableNamesForRange(start, end);
    if names.None? {
      return Panicked;
    }
    var tables := names.value;
    var all: seq<AuditAction> := [];
    for i := 0 to |tables|
      invariant all == TablesActions(db, tables[..i], userId, start, end, true)
    {
      assert tables[..i + 1][..i] == tables[..i];
      var table := tables[i];
      if table in db.audit {
        var logs := SelectRows(db.audit[table], userId, start, end, true);
        var found := CollectRows(logs, start, end);
        all := all + found;
      }
    }
    assert tables[..|tables|] == tables;
    all := Sorting.SortBy(all, ActionLe);
    r := Returned(Ok(all));
  }

  /** The loops over the rows: each row's decoded actions in turn. */
  method CollectRows(logs: seq<AuditLog>, start: DateTime, end: DateTime) returns (found: seq<AuditAction>)
    ensures found == RowsActions(logs, start, end)
  {
    found := [];
    for j := 0 to |logs|
      invariant found == RowsActions(logs[..j], start, end)
    {
      assert logs[..j + 1][..j] == logs[..j];
      var kept := CollectWindow(Decode(logs[j].actions), start, end);
      found := found + kept;
    }
    assert logs[..|logs|] == logs;
  }

  /** The innermost loop: the row's actions whose timestamps lie inside the window, in order. */
  method CollectWindow(acts: seq<AuditAction>, start: DateTime, end: DateTime) returns (kept: seq<AuditAction>)
    ensures kept == WindowActions(acts, start, end)
  {
    kept := [];
    for k := 0 to |acts|
      invariant kept == WindowActions(acts[..k], start, end)
    {
      assert acts[..k + 1][..k] == acts[..k];
      if Le(start, acts[k].timestamp) && Le(acts[k].timestamp, end) {
        kept := kept + [acts[k]];
      }
    }
    assert acts[..|acts|] == acts;
  }

  /** The result is sorted by timestamp and holds every collected action exactly as often. */
  lemma QuerySortedPermutation(db: Db, userId: string, start: DateTime, end: DateTime)
    ensures Sorting.Sorted(QueryResult(db, userId, start, end), ActionLe)
    ensures multiset(QueryResult(db, userId, start, end))
      == multiset(TablesActions(db, MonthTables(start, WalkCount(start, end)), userId, start, end, true))
  {
    ActionLeTotal();
    Sorting.SortBySortedPermutation(TablesActions(db, MonthTables(start, WalkCount(start, end)), userId, start, end, true), ActionLe);
  }

  /** Actions with equal timestamps keep the order in which they were collected. */
  lemma QueryStable(db: Db, userId: string, start: DateTime, end: DateTime, y: AuditAction)
    ensures Sorting.Ties(QueryResult(db, userId, start, end), y, ActionLe)
      == Sorting.Ties(TablesActions(db, MonthTables(start, WalkCount(start, end)), userId, start, end, true), y, ActionLe)
  {
    ActionLeTotal();
    Sorting.SortByStable(TablesActions(db, MonthTables(start, WalkCount(start, end)), userId, start, end, true), y, ActionLe);
  }

  /**
    What the query as written returns: the actions in the window held by a
    row of the user created in the window, in a listed table that exists.
   */
  lemma QueryMembers(db: Db, userId: string, start: DateTime, end: DateTime, x: AuditAction)
    ensures var names := MonthTables(start, WalkCount(start, end));
      x in QueryResult(db, userId, start, end) <==>
      InWindow(x.timestamp, start, end)
      && exists k, row :: 0 <= k < |names| && names[k] in db.audit && row in db.audit[names[k]]
                          && row.userId == userId && InWindow(row.createdAt, start, end) && x in Decode(row.actions)
  {
    var names := MonthTables(start, WalkCount(start, end));
    QuerySortedPermutation(db, userId, start, end);
    assert x in QueryResult(db, userId, start, end) <==> x in multiset(TablesActions(db, names, userId, start, end, true));
    InTablesActions(db, names, userId, start, end, true, x);
  }

  // ---------------------------------------------------------------------------
  // Corrected range query

  /** The intended query: every month of the range, rows of the user whatever their creation time. */
  function CorrectedQuery(db: Db, userId: string, start: DateTime, end: DateTime): seq<AuditAction> {
    Sorting.SortBy(TablesActions(db, MonthSpan(start, end), userId, start, end, false), ActionLe)
  }

  /**
    On a sharded database the corrected query returns exactly the user's
    stored actions whose timestamps lie in the window.
   */
  lemma CorrectedQueryExact(db: Db, userId: string, start: DateTime, end: DateTime, x: AuditAction)
    requires Valid(start) && Valid(end) && Sharded(db)
    ensures x in CorrectedQuery(db, userId, start, end) <==>
      InWindow(x.timestamp, start, end)
      && exists t, row :: t in db.audit && row in db.audit[t] && row.userId == userId && x in Decode(row.actions)
  {
    var names := MonthSpan(start, end);
    var collected := TablesActions(db, names, userId, start, end, false);
    ActionLeTotal();
    Sorting.SortBySortedPermutation(collected, ActionLe);
    assert x in CorrectedQuery(db, userId, start, end) <==> x in multiset(collected);
    InTablesActions(db, names, userId, start, end, false, x);
    if InWindow(x.timestamp, start, end)
      && exists t, row :: t in db.audit && row in db.audit[t] && row.userId == userId && x in Decode(row.actions)
    {
      var t, row :| t in db.audit && row in db.audit[t] && row.userId == userId && x in Decode(row.actions);
      var i :| 0 <= i < |db.audit[t]| && db.audit[t][i] == row;
      assert RowSharded(db.audit[t][i], t);
      MonthSpanCovers(start, end, x.timestamp);
      var k :| 0 <= k < |names| && names[k] == TableOf(x.timestamp);
      assert RowKept(row, userId, start, end, false);
    }
  }

  /** A row created before the window, with an action appended inside it: the query as written misses that action. */
  lemma MissedActionExample()
    ensures var x := AuditAction(DateTime(2024, 1, 20, 0), "login", None, None);
      var row := AuditLog("r1", "u1", "2024-01-10", Actions([x]), DateTime(2024, 1, 10, 0), DateTime(2024, 1, 20, 0));
      var db := Db([], [], map[TableName(2024, 1) := [row]]);
      x !in QueryResult(db, "u1", DateTime(2024, 1, 15, 0), DateTime(2024, 1, 31, 0))
  {
    var x := AuditAction(DateTime(2024, 1, 20, 0), "login", None, None);
    var row := AuditLog("r1", "u1", "2024-01-10", Actions([x]), DateTime(2024, 1, 10, 0), DateTime(2024, 1, 20, 0));
    var db := Db([], [], map[TableName(2024, 1) := [row]]);
    var start, end := DateTime(2024, 1, 15, 0), DateTime(2024, 1, 31, 0);
    assert !InWindow(row.createdAt, start, end);
    assert forall t, r :: t in db.audit && r in db.audit[t] ==> r == row;
    QueryMembers(db, "u1", start, end, x);
  }

  /** The corrected query returns the action of the same example. */
  lemma MissedActionFoundWhenCorrected()
    ensures var x := AuditAction(DateTime(2024, 1, 20, 0), "login", None, None);
      var row := AuditLog("r1", "u1", "2024-01-10", Actions([x]), DateTime(2024, 1, 10, 0), DateTime(2024, 1, 20, 0));
      var db := Db([], [], map[TableName(2024, 1) := [row]]);
      x in CorrectedQuery(db, "u1", DateTime(2024, 1, 15, 0), DateTime(2024, 1, 31, 0))
  {
    var x := AuditAction(DateTime(2024, 1, 20, 0), "login", None, None);
    var row := AuditLog("r1", "u1", "2024-01-10", Actions([x]), DateTime(2024, 1, 10, 0), DateTime(2024, 1, 20, 0));
    var table := TableName(2024, 1);
    var db := Db([], [], map[table := [row]]);
    SingleRowSharded(x, row, table);
    assert row in db.audit[table];
    CorrectedQueryFinds(db, "u1", DateTime(2024, 1, 15, 0), DateTime(2024, 1, 31, 0), table, row, x);
  }

  lemma CorrectedQueryFinds(db: Db, userId: string, start: DateTime, end: DateTime, t: string, row: AuditLog,
                            x: AuditAction)
    requires Valid(start) && Valid(end) && Sharded(db)
    requires t in db.audit && row in db.audit[t] && row.userId == userId && x in Decode(row.actions)
    requires InWindow(x.timestamp, start, end)
    ensures x in CorrectedQuery(db, userId, start, end)
  {
    CorrectedQueryExact(db, userId, start, end, x);
  }

  lemma SingleRowSharded(x: AuditAction, row: AuditLog, table: string)
    requires row.actions == Actions([x]) && 1 <= x.timestamp.month <= 12 && table == TableOf(x.timestamp)
    ensures Sharded(Db([], [], map[table := [row]]))
  {
    assert RowSharded(row, table);
  }

  // ---------------------------------------------------------------------------
  // Retention

  /** The retention rule: the name parses to a month that began before `cutoff`. */
  predicate Expired(name: string, cutoff: DateTime) {
    var d := ParseTableDate(name);
    d.Some? && Lt(d.value, cutoff)
  }

  /** The audit tables after dropping every expired name among `dropped`; a name not present is a no-op (`IF EXISTS`). */
  function AfterDrops(audit: map<string, seq<AuditLog>>, dropped: seq<string>, cutoff: DateTime)
    : map<string, seq<AuditLog>>
  {
    map t | t in audit && !(t in dropped && Expired(t, cutoff)) :: audit[t]
  }

  /** Dropping one more listed name removes it when it is expired, and changes nothing otherwise. */
  lemma AfterDropsStep(audit: map<string, seq<AuditLog>>, dropped: seq<string>, t: string, cutoff: DateTime)
    ensures AfterDrops(audit, dropped + [t], cutoff)
         == if Expired(t, cutoff) then AfterDrops(audit, dropped, cutoff) - {t} else AfterDrops(audit, dropped, cutoff)
  {
  }

  /**
    The drop loop of `cleanup_old_audit_tables`: each listed name in turn,
    dropping the expired ones, until a drop fails.
   */
  method DropExpiredTables(audit: map<string, seq<AuditLog>>, names: seq<string>, cutoff: DateTime,
                           dropFailure: string -> Option<string>)
    returns (audit': map<string, seq<AuditLog>>, r: Result<()>)
    ensures r.Ok? <==> forall j :: 0 <= j < |names| && Expired(names[j], cutoff) ==> dropFailure(names[j]).None?
    ensures r.Ok? ==> audit' == AfterDrops(audit, names, cutoff)
    ensures r.Err? ==>
      exists i :: 0 <= i < |names|
        && Expired(names[i], cutoff) && dropFailure(names[i]).Some?
        && r.error == Database(dropFailure(names[i]).value)
        && (forall j :: 0 <= j < i && Expired(names[j], cutoff) ==> dropFailure(names[j]).None?)
        && names[i] !in names[..i]
        && audit' == AfterDrops(audit, names[..i], cutoff)
  {
    audit' := audit;
    var i := 0;
    while i < |names|
      invariant 0 <= i <= |names|
      invariant audit' == AfterDrops(audit, names[..i], cutoff)
      invariant forall j :: 0 <= j < i && Expired(names[j], cutoff) ==> dropFailure(names[j]).None?
    {
      var t := names[i];
      var date := ParseTableDate(t);
      if date.Some? && Lt(date.value, cutoff) {
        if dropFailure(t).Some? {
          assert t !in names[..i];
          return audit', Err(Database(dropFailure(t).value));
        }
        audit' := audit' - {t};
      }
      AfterDropsStep(audit, names[..i], t, cutoff);
      assert names[..i + 1] == names[..i] + [t];
      i := i + 1;
    }
    assert names[..i] == names;
    r := Ok(());
  }

  /**
    `cleanup_old_audit_tables`: with the cutoff 90 days before `now`, walk
    the listed audit table names in order and drop each one that parses to a
    month that began before the cutoff; names that do not parse are kept.
    The listing query may fail (`listFailure`), and so may each drop
    (`dropFailure`); the first failure ends the run with a Database error,
    keeping the drops already made. Subtracting the 90 days panics when the
    cutoff leaves chrono's range.
   */
  method CleanupOldAuditTables(db: Db, now: DateTime, listFailure: Option<string>, names: seq<string>,
                               dropFailure: string -> Option<string>)
    returns (db': Db, r: Outcome<()>)
    requires Valid(now)
    ensures db'.users == db.users && db'.revocations == db.revocations
    ensures var cutoff := SubDays(now, RetentionDays);
      && (r.Panicked? <==> !InYearRange(cutoff.year))
      && (r.Panicked? ==> db' == db)
      && (InYearRange(cutoff.year) && listFailure.Some? ==> r == Returned(Err(Database(listFailure.value))) && db' == db)
      && (r == Returned(Ok(())) <==>
            InYearRange(cutoff.year) && listFailure.None?
            && forall j :: 0 <= j < |names| && Expired(names[j], cutoff) ==> dropFailure(names[j]).None?)
      && (r == Returned(Ok(())) ==> db'.audit == AfterDrops(db.audit, names, cutoff))
      && (r.Returned? && r.result.Err? && listFailure.None? ==>
            exists i :: 0 <= i < |names|
              && Expired(names[i], cutoff) && dropFailure(names[i]).Some?
              && r.result.error == Database(dropFailure(names[i]).value)
              && (forall j :: 0 <= j < i && Expired(names[j], cutoff) ==> dropFailure(names[j]).None?)
              && names[i] !in names[..i]
              && db'.audit == AfterDrops(db.audit, names[..i], cutoff))
  {
    var cutoff := SubDays(now, RetentionDays);
    if !InYearRange(cutoff.year) {
      return db, Panicked;
    }
    if listFailure.Some? {
      return db, Returned(Err(Database(listFailure.value)));
    }
    var audit', dropped := DropExpiredTables(db.audit, names, cutoff, dropFailure);
    db' := db.(audit := audit');
    if dropped.Ok? {
      r := Returned(Ok(()));
    } else {
      r := Returned(dropped);
    }
  }

  /**
    When the listing names exactly the stored tables, a cleanup that runs to
    the end keeps exactly the tables that are not expired.
   */
  lemma FullListingKeepsUnexpired(audit: map<string, seq<AuditLog>>, names: seq<string>, cutoff: DateTime)
    requires forall t :: t in audit <==> t in names
    ensures AfterDrops(audit, names, cutoff) == map t | t in audit && !Expired(t, cutoff) :: audit[t]
    ensures forall t :: t in AfterDrops(audit, names, cutoff) <==> t in audit && !Expired(t, cutoff)
  {
  }

  /** For a month's own table the rule reads: the month's first midnight is before the cutoff. */
  lemma ExpiredTableName(year: int, month: nat, cutoff: DateTime)
    requires InYearRange(year) && 1 <= month <= 12
    ensures Expired(TableName(year, month), cutoff) <==> Lt(DateTime(year, month, 1, 0), cutoff)
  {
    ParseTableNameRoundTrip(year, month);
  }

  /**
    Cleanup never drops the current month's table: that month began at most
    31 days ago, well after the 90-day cutoff. So the table `log_action`
    writes to survives a cleanup run at the same instant.
   */
  lemma CurrentTableSurvivesCleanup(now: DateTime)
    requires Valid(now) && InYearRange(now.year)
    ensures !Expired(TableOf(now), SubDays(now, RetentionDays))
  {
    var first := DateTime(now.year, now.month, 1, 0);
    ExpiredTableName(now.year, now.month, SubDays(now, RetentionDays));
    var back := now.day - 1;
    SubDaysWithinMonth(now, back);
    var startOfDay := SubDays(now, back);
    SubDaysAdd(startOfDay, 1, RetentionDays - back - 1);
    SubDaysAdd(now, back, RetentionDays - back);
    assert SubDays(startOfDay, 1) == PrevDay(startOfDay);
    assert Lt(PrevDay(startOfDay), first);
    var cutoff := SubDays(now, RetentionDays);
    assert Le(cutoff, SubDays(startOfDay, 1));
    LeTotalOrder(cutoff, SubDays(startOfDay, 1), first);
  }
}
