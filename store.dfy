/**
  The SQLite database the services share, as a value: the `users` and
  `revocations` tables as row sequences (in table order, which decides which
  row a `fetch_optional` returns), and the monthly audit tables as a map from
  table name to row sequence. The primary keys and the foreign key from audit
  rows to users are the constraints the engine enforces.
 */
module Store {
  import opened Common
  import opened Models

  datatype Db = Db(users: seq<User>, revocations: seq<Revocation>, audit: map<string, seq<AuditLog>>)

  /** The first user, in table order, that `matches` accepts (`fetch_optional`). */
  function FirstUser(users: seq<User>, matches: User -> bool): (r: Option<User>)
    ensures r.Some? ==> r.value in users && matches(r.value)
    ensures r.None? <==> forall i :: 0 <= i < |users| ==> !matches(users[i])
  {
    if users == [] then None
    else if matches(users[0]) then Some(users[0])
    else
      var r := FirstUser(users[1..], matches);
      assert forall i :: 1 <= i < |users| ==> users[i] == users[1..][i - 1];
      r
  }

  function UserById(db: Db, id: string): (r: Option<User>)
    ensures r.Some? ==> r.value in db.users && r.value.id == id
    ensures r.None? <==> forall i :: 0 <= i < |db.users| ==> db.users[i].id != id
  {
    FirstUser(db.users, (u: User) => u.id == id)
  }

  predicate HasUser(db: Db, id: string) {
    exists i :: 0 <= i < |db.users| && db.users[i].id == id
  }

  predicate UniqueRowIds(rows: seq<AuditLog>) {
    forall i, j :: 0 <= i < j < |rows| ==> rows[i].id != rows[j].id
  }

  predicate HasRowId(rows: seq<AuditLog>, id: string) {
    exists i :: 0 <= i < |rows| && rows[i].id == id
  }

  /** What the primary keys guarantee: row ids are unique within each audit table. */
  predicate WellFormed(db: Db) {
    forall t :: t in db.audit ==> UniqueRowIds(db.audit[t])
  }
}
