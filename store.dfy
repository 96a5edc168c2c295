/**
 * The database the repositories talk to through database/sql: a Postgres `users`
 * table and the cursor a query returns. Any call may fail for reasons outside the
 * program (connection loss, driver errors), so every failure point is a
 * nondeterministic choice; what a call does when it succeeds is fixed by the
 * statement it runs.
 */
module Store {
  import opened Wrappers
  import opened Entity
  import opened Statements

  /** Why `QueryRow(...).Scan` failed: sql.ErrNoRows, or any other failure with its text. */
  datatype RowError = NoRows | Failed(detail: string)

  /** A `*sql.Rows` cursor over the rows a query produced. */
  class Rows {
    /** The rows of the result, in the order the store sends them. */
    const all: seq<User>
    /** How many rows `Next` has moved onto; the current row is `all[pos - 1]`. */
    var pos: nat
    /** The failure that ended the iteration early, which `rows.Err()` reports. */
    var err: Option<string>

    ghost predicate Valid()
      reads this
    {
      pos <= |all|
    }

    constructor (all: seq<User>)
      ensures this.all == all && pos == 0 && err == None && Valid()
    {
      this.all := all;
      pos := 0;
      err := None;
    }

    /**
     * rows.Next: moves onto the next row and answers true, or answers false at the
     * end of the result or when fetching fails (which `err` then records). The fetch
     * that would find the end of the result can fail too, so an error may be recorded
     * after the last row, and on an empty result.
     */
    method Next() returns (more: bool)
      requires Valid()
      modifies this
      ensures Valid()
      ensures more ==> old(err) == None && err == None && old(pos) < |all| && pos == old(pos) + 1
      ensures !more ==> pos == old(pos)
      ensures !more && old(pos) < |all| ==> err.Some?
      ensures old(err).Some? ==> !more && err == old(err)
    {
      if err.None? {
        var fails: bool := *;
        if fails {
          var detail: string := *;
          err := Some(detail);
          more := false;
        } else if pos < |all| {
          pos := pos + 1;
          more := true;
        } else {
          more := false;
        }
      } else {
        more := false;
      }
    }

    /** rows.Scan into a fresh user: the current row, unless the driver fails to convert it. */
    method Scan() returns (r: Result<User, string>)
      requires Valid() && 0 < pos
      ensures r.Success? ==> r.value == all[pos - 1]
    {
      var fails: bool := *;
      if fails {
        var detail: string := *;
        r := Failure(detail);
      } else {
        r := Success(all[pos - 1]);
      }
    }
  }

  /**
   * The `*sql.DB` handle together with the table it reaches. `log` records, in order,
   * every statement the program sent, so that a contract can say which statements an
   * operation ran and that an operation touched the store not at all.
   */
  class Db {
    var users: Table
    ghost var log: seq<Statement>

    constructor (users: Table)
      ensures this.users == users && log == []
    {
      this.users := users;
      log := [];
    }

    /** db.Query(retrieveAllUsers): a fresh cursor over every row, or a failure. */
    method Query() returns (r: Result<Rows, string>)
      modifies this`log
      ensures log == old(log) + [RetrieveAllUsers]
      ensures r.Success? ==> fresh(r.value) && r.value.Valid() && r.value.pos == 0 && r.value.err == None
      ensures r.Success? ==> IsListing(r.value.all, users)
    {
      log := log + [RetrieveAllUsers];
      var fails: bool := *;
      if fails {
        var detail: string := *;
        return Failure(detail);
      }
      ListingExists(users);
      var listing: seq<User> :| IsListing(listing, users);
      var rows := new Rows(listing);
      r := Success(rows);
    }

    /**
     * db.QueryRow(retrieveOneById, id).Scan: the row under `key`, sql.ErrNoRows when
     * there is none, or some other failure.
     */
    method QueryRowById(key: Uuid) returns (r: Result<User, RowError>)
      modifies this`log
      ensures log == old(log) + [RetrieveOneById(key)]
      ensures r.Success? ==> SelectById(users, key) == Some(r.value)
      ensures r == Failure(NoRows) ==> SelectById(users, key) == None
    {
      log := log + [RetrieveOneById(key)];
      var fails: bool := *;
      if fails {
        var detail: string := *;
        return Failure(Failed(detail));
      }
      var row := SelectById(users, key);
      r := if row.Some? then Success(row.value) else Failure(NoRows);
    }

    /**
     * db.Exec of a data-changing statement: on success the statement's effect is applied
     * and the affected-row count held for `RowsAffected`; on failure nothing changes.
     */
    method Exec(s: Statement) returns (r: Result<nat, string>)
      requires s.CreateUser? || s.DeleteUser? || s.UpdateUser?
      modifies this
      ensures log == old(log) + [s]
      ensures r.Success? ==> Executed(old(users), s, ExecResult(users, r.value))
      ensures r.Failure? ==> users == old(users)
    {
      log := log + [s];
      var fails: bool := *;
      var detail: string := *;
      if fails {
        return Failure(detail);
      }
      var e: ExecResult;
      match s {
        case CreateUser(name) =>
          if exists key: Uuid :: key !in users {
            var key: Uuid :| key !in users;
            e := InsertName(users, name, key);
          } else {
            // every identifier is taken: the key constraint rejects the row
            return Failure(detail);
          }
        case DeleteUser(key) =>
          e := DeleteById(users, key);
        case UpdateUser(name, key) =>
          e := UpdateById(users, name, key);
      }
      users := e.table;
      r := Success(e.rowsAffected);
    }

    /** result.RowsAffected(): the count Exec held, unless the driver cannot report it. */
    method RowsAffected(count: nat) returns (r: Result<nat, string>)
      ensures r.Success? ==> r.value == count
    {
      var fails: bool := *;
      if fails {
        var detail: string := *;
        r := Failure(detail);
      } else {
        r := Success(count);
      }
    }
  }
}
