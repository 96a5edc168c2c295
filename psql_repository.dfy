/**
 * PSQLRepository (internal/repository/psql/psql_repository.go): the draft that mints
 * version-1 identifiers and checks the generator's error.
 */
module PsqlRepository {
  import opened Wrappers
  import opened Entity
  import opened Statements
  import opened Store
  import opened Outcomes

  class PSQLRepository {
    const db: Db
    /** uuid.Parse. */
    const parse: Parser
    /** The identifiers uuid.NewUUID has handed out to this repository, oldest first. */
    ghost var minted: seq<Uuid>

    /** NewPSQLRepository. */
    constructor (db: Db, parse: Parser)
      ensures this.db == db && this.parse == parse && minted == []
    {
      this.db := db;
      this.parse := parse;
      minted := [];
    }

    /**
     * uuid.NewUUID: a time-based identifier, or uuid.Nil alongside an error when the
     * library cannot read the clock or node.
     */
    method NewUUID() returns (id: Uuid, err: Option<string>)
      modifies this`minted
      ensures err.None? ==> minted == old(minted) + [id]
      ensures err.Some? ==> id == Nil && minted == old(minted)
    {
      var fails: bool := *;
      if fails {
        var detail: string := *;
        id, err := Nil, Some(detail);
      } else {
        id := *;
        err := None;
        minted := minted + [id];
      }
    }

    /** Get: runs the unfiltered query and copies out every row it yields. */
    method Get() returns (r: Result<seq<User>, RepoError>)
      modifies db`log
      ensures db.log == old(db.log) + [RetrieveAllUsers]
      ensures GetOutcome(db.users, r)
    {
      var q := db.Query();
      if q.Failure? {
        return Failure(StorageError(QueryExecution, q.error));
      }
      var rows := q.value;
      var users: seq<User> := [];
      var more := rows.Next();
      while more
        invariant db.log == old(db.log) + [RetrieveAllUsers]
        invariant IsListing(rows.all, db.users)
        invariant rows.Valid()
        invariant |users| + (if more then 1 else 0) == rows.pos
        invariant users == rows.all[..|users|]
        invariant more ==> rows.err == None
        invariant !more && rows.err == None ==> rows.pos == |rows.all|
        decreases |rows.all| - |users|
      {
        var scanned := rows.Scan();
        if scanned.Failure? {
          return Failure(StorageError(RowScan, scanned.error));
        }
        users := users + [scanned.value];
        more := rows.Next();
      }
      if rows.err.Some? {
        return Failure(StorageError(RowsIteration, rows.err.value));
      }
      assert users == rows.all[..|rows.all|] == rows.all;
      r := Success(users);
    }

    /** GetOneById: validates the id, then looks up the single row under it. */
    method GetOneById(id: string) returns (r: Result<User, RepoError>)
      modifies db`log
      ensures db.log == old(db.log) + (if parse(id).Success? then [RetrieveOneById(parse(id).value)] else [])
      ensures GetOneByIdOutcome(parse, db.users, id, r)
    {
      var parsed := parse(id);
      if parsed.Failure? {
        return Failure(InvalidId(parsed.error));
      }
      var row := db.QueryRowById(parsed.value);
      if row.Failure? {
        if row.error.NoRows? {
          return Failure(NotFound(id));
        }
        return Failure(StorageError(Retrieval, row.error.detail));
      }
      r := Success(row.value);
    }

    /**
     * Create: overwrites the caller's id with a fresh version-1 identifier (`user'` is
     * the caller's struct afterwards) and inserts the name. A generator failure leaves
     * uuid.Nil in the struct and stops before the store is touched.
     */
    method Create(user: User) returns (user': User, r: Outcome<RepoError>)
      modifies this`minted, db
      ensures user'.name == user.name
      ensures r == Fail(GenerationFailed) ==>
        user'.id == Nil && minted == old(minted) && db.users == old(db.users) && db.log == old(db.log)
      ensures r != Fail(GenerationFailed) ==>
        && minted == old(minted) + [user'.id]
        && db.log == old(db.log) + [CreateUser(user.name)]
        && InsertOutcome(old(db.users), user.name, r, db.users)
    {
      var id, err := NewUUID();
      user' := user.(id := id);
      if err.Some? {
        return user', Fail(GenerationFailed);
      }
      var res := db.Exec(CreateUser(user.name));
      if res.Failure? {
        return user', Fail(StorageError(Insertion, res.error));
      }
      r := Pass;
    }

    /** Delete: validates the id, deletes, and reports zero affected rows as not-found. */
    method Delete(id: string) returns (r: Outcome<RepoError>)
      modifies db
      ensures db.log == old(db.log) + (if parse(id).Success? then [DeleteUser(parse(id).value)] else [])
      ensures DeleteOutcome(parse, old(db.users), id, r, db.users)
    {
      var parsed := parse(id);
      if parsed.Failure? {
        return Fail(InvalidId(parsed.error));
      }
      var res := db.Exec(DeleteUser(parsed.value));
      if res.Failure? {
        return Fail(StorageError(DeleteExecution, res.error));
      }
      var affected := db.RowsAffected(res.value);
      if affected.Failure? {
        return Fail(StorageError(RowsAffectedCount, affected.error));
      }
      if affected.value == 0 {
        return Fail(NotFound(id));
      }
      r := Pass;
    }

    /**
     * Update: validates the path id and writes `user.name` to the row under it;
     * `user.id` is not used. Zero affected rows is not-found.
     */
    method Update(id: string, user: User) returns (r: Outcome<RepoError>)
      modifies db
      ensures db.log == old(db.log) + (if parse(id).Success? then [UpdateUser(user.name, parse(id).value)] else [])
      ensures UpdateOutcome(parse, old(db.users), id, user.name, r, db.users)
    {
      var parsed := parse(id);
      if parsed.Failure? {
        return Fail(InvalidId(parsed.error));
      }
      var res := db.Exec(UpdateUser(user.name, parsed.value));
      if res.Failure? {
        return Fail(StorageError(UpdateExecution, res.error));
      }
      var affected := db.RowsAffected(res.value);
      if affected.Failure? {
        return Fail(StorageError(RowsAffectedCount, affected.error));
      }
      if affected.value == 0 {
        return Fail(NotFound(id));
      }
      r := Pass;
    }
  }
}
