/** The `users` table of the SQLite database, with the constraints of its
    `CREATE TABLE` statement: an AUTOINCREMENT primary key, and UNIQUE
    username and email columns. */
module Users {
  import opened Values

  /** One row of `users`. `phone` is the only nullable column; `createdAt`
      is filled by its DEFAULT CURRENT_TIMESTAMP. */
  datatype Row = Row(
    id: nat,
    username: string,
    email: string,
    password: string,
    fullName: string,
    phone: Option<string>,
    createdAt: string)

  /** `WHERE username = ? OR email = ?` as register binds it. */
  predicate Taken(rows: seq<Row>, username: string, email: string)
  {
    exists r :: r in rows && (r.username == username || r.email == email)
  }

  /** `WHERE username = ? OR email = ?` as login binds it: one identifier for both. */
  predicate MatchesIdentifier(r: Row, identifier: string)
  {
    r.username == identifier || r.email == identifier
  }

  /** The table's constraints: ids positive, increasing in insertion order and
      at most the AUTOINCREMENT counter; no two rows share a username or an email. */
  ghost predicate TableInvariant(rows: seq<Row>, lastId: nat)
  {
    && (forall i :: 0 <= i < |rows| ==> 1 <= rows[i].id <= lastId)
    && (forall i, j :: 0 <= i < j < |rows| ==>
          rows[i].id < rows[j].id
          && rows[i].username != rows[j].username
          && rows[i].email != rows[j].email)
  }

  /** `WHERE id = ?`: the first row with that id, if any. */
  function FindById(rows: seq<Row>, id: int): (found: Option<Row>)
    ensures found.Some? ==> found.value in rows && found.value.id == id
    ensures found.None? <==> forall r :: r in rows ==> r.id != id
  {
    if rows == [] then None
    else if rows[0].id == id then Some(rows[0])
    else FindById(rows[1..], id)
  }

  /** In a table that keeps its invariant the primary key names one row. */
  lemma FindByIdIsUnique(rows: seq<Row>, lastId: nat, k: nat)
    requires TableInvariant(rows, lastId)
    requires k < |rows|
    ensures FindById(rows, rows[k].id) == Some(rows[k])
  {
  }

  /** The uniqueness constraints do not make a login lookup unique: one row's
      username may be another row's email, and both then match. */
  lemma LoginLookupMayMatchTwoRows() returns (rows: seq<Row>)
    ensures TableInvariant(rows, 2) && |rows| == 2
    ensures MatchesIdentifier(rows[0], "bob") && MatchesIdentifier(rows[1], "bob")
  {
    rows := [Row(1, "alice", "bob", "h1", "Alice", None, "t1"),
             Row(2, "bob", "b@x.com", "h2", "Bob", None, "t2")];
  }

  /** Appending a row under a fresh id whose username and email are both free keeps the invariant. */
  lemma AppendKeepsInvariant(rows: seq<Row>, lastId: nat, row: Row)
    requires TableInvariant(rows, lastId)
    requires !Taken(rows, row.username, row.email)
    requires row.id == lastId + 1
    ensures TableInvariant(rows + [row], lastId + 1)
  {
  }

  /** The users table: its rows in rowid order and the AUTOINCREMENT counter
      (the table's entry in `sqlite_sequence`). */
  class UserTable {
    var rows: seq<Row>
    var lastId: nat

    ghost predicate Valid()
      reads this
    {
      TableInvariant(rows, lastId)
    }

    /** `CREATE TABLE IF NOT EXISTS users` on a fresh database. */
    constructor ()
      ensures Valid() && rows == [] && lastId == 0
    {
      rows := [];
      lastId := 0;
    }

    /** `INSERT INTO users (...) VALUES (...)`. The statement fails when
        `ioFault` (a storage error) holds or a UNIQUE constraint is violated,
        and then leaves the table and the counter as they were; otherwise it
        appends one row under the next AUTOINCREMENT id and returns that id
        (`this.lastID`). */
    method Insert(username: string, email: string, password: string, fullName: string,
                  phone: Option<string>, createdAt: string, ioFault: bool)
      returns (id: Option<nat>)
      requires Valid()
      modifies this
      ensures Valid()
      ensures id.None? <==> ioFault || Taken(old(rows), username, email)
      ensures id.None? ==> rows == old(rows) && lastId == old(lastId)
      ensures id.Some? ==>
        && id.value == old(lastId) + 1
        && lastId == id.value
        && rows == old(rows) + [Row(id.value, username, email, password, fullName, phone, createdAt)]
        && forall r :: r in old(rows) ==> r.id < id.value
    {
      if ioFault || Taken(rows, username, email) {
        return None;
      }
      var row := Row(lastId + 1, username, email, password, fullName, phone, createdAt);
      AppendKeepsInvariant(rows, lastId, row);
      rows := rows + [row];
      lastId := lastId + 1;
      id := Some(lastId);
    }
  }
}
