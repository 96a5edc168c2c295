/**
 * The SQL of internal/repository/psql/psql_consts.go, as what each statement does to
 * the `users` table. The table is keyed by `id`, so every `WHERE id = $n` filter
 * selects at most one row.
 */
module Statements {
  import opened Wrappers
  import opened Entity

  /** The five statements with the parameters the repositories bind to them. */
  datatype Statement =
    | RetrieveAllUsers                      // SELECT id, name FROM users
    | RetrieveOneById(id: Uuid)             // SELECT id, name FROM users WHERE id = $1
    | CreateUser(name: string)              // INSERT INTO users (name) VALUES ($1)
    | DeleteUser(id: Uuid)                  // DELETE FROM users WHERE id = $1
    | UpdateUser(name: string, id: Uuid)    // UPDATE users SET name = $1 WHERE id = $2

  /** The table after a data-changing statement, and the count `RowsAffected` reports. */
  datatype ExecResult = ExecResult(table: Table, rowsAffected: nat)

  /** The keys of the rows that `WHERE id = key` selects. */
  function Where(t: Table, key: Uuid): (keys: set<Uuid>)
    ensures keys <= t.Keys
    ensures forall k | k in keys :: k == key
    ensures keys == {} <==> key !in t
    ensures |keys| <= 1
  {
    var keys := set k | k in t && k == key;
    assert keys == if key in t then {key} else {};
    keys
  }

  /** `SELECT id, name FROM users`: every row, unfiltered. */
  function SelectAll(t: Table): (rows: set<User>)
    ensures forall u :: u in rows <==> u.id in t && t[u.id] == u.name
  {
    set k | k in t :: User(k, t[k])
  }

  /** The unfiltered query yields exactly one row per key of the table. */
  lemma {:induction false} SelectAllSize(t: Table)
    ensures |SelectAll(t)| == |t|
  {
    if t != map[] {
      var k :| k in t;
      var rest := t - {k};
      SelectAllSize(rest);
      assert SelectAll(t) == SelectAll(rest) + {User(k, t[k])};
      assert User(k, t[k]) !in SelectAll(rest);
      assert t.Keys == rest.Keys + {k};
    }
  }

  /**
   * `users` is what the unfiltered query yields in the store's own order: every row of
   * `t` exactly once, in no promised order.
   */
  predicate IsListing(users: seq<User>, t: Table) {
    multiset(users) == multiset(SelectAll(t))
  }

  /** Some order of the rows exists, so the store always has a listing to hand out. */
  lemma {:induction false} ListingExists(t: Table)
    ensures exists users :: IsListing(users, t)
  {
    var users := Enumerate(SelectAll(t));
    assert IsListing(users, t);
  }

  /** A sequence holding each element of `s` once. */
  lemma {:induction false} Enumerate(s: set<User>) returns (xs: seq<User>)
    ensures multiset(xs) == multiset(s)
  {
    if s == {} {
      xs := [];
    } else {
      var u :| u in s;
      var rest := Enumerate(s - {u});
      xs := [u] + rest;
      assert s == (s - {u}) + {u};
    }
  }

  /**
   * What a listing promises: one entry per row, each entry a row of the table with its
   * stored name, no key twice, and every key present; on an empty table it is empty.
   */
  lemma ListingFacts(users: seq<User>, t: Table)
    requires IsListing(users, t)
    ensures |users| == |t|
    ensures forall i | 0 <= i < |users| :: users[i].id in t && t[users[i].id] == users[i].name
    ensures forall i, j | 0 <= i < j < |users| :: users[i].id != users[j].id
    ensures forall k | k in t :: exists i | 0 <= i < |users| :: users[i] == User(k, t[k])
    ensures t == map[] ==> users == []
  {
    SelectAllSize(t);
    assert |users| == |multiset(users)| == |multiset(SelectAll(t))| == |t|;
    forall i | 0 <= i < |users|
      ensures users[i] in SelectAll(t)
    {
      assert users[i] in multiset(users);
    }
    forall i, j | 0 <= i < j < |users|
      ensures users[i].id != users[j].id
    {
      if users[i] == users[j] {
        TwiceCounted(users, i, j);
      }
    }
    forall k | k in t
      ensures exists i | 0 <= i < |users| :: users[i] == User(k, t[k])
    {
      assert User(k, t[k]) in multiset(SelectAll(t));
      assert User(k, t[k]) in users;
    }
  }

  /** An element standing at two positions is counted at least twice. */
  lemma TwiceCounted(xs: seq<User>, i: nat, j: nat)
    requires i < j < |xs| && xs[i] == xs[j]
    ensures multiset(xs)[xs[i]] >= 2
  {
    assert xs == xs[..j] + xs[j..];
    assert xs[i] in xs[..j];
    assert xs[j] in xs[j..];
    assert multiset(xs) == multiset(xs[..j]) + multiset(xs[j..]);
  }

  /** `SELECT id, name FROM users WHERE id = $1`: the unfiltered result cut down to one key. */
  function SelectById(t: Table, key: Uuid): (row: Option<User>)
    ensures row.Some? <==> Where(t, key) != {}
    ensures row.Some? ==> row.value.id == key && row.value in SelectAll(t)
    ensures forall u | u in SelectAll(t) && u.id == key :: row == Some(u)
  {
    if key in t then Some(User(key, t[key])) else None
  }

  /**
   * `INSERT INTO users (name) VALUES ($1)`: the statement names no id, so the row is
   * stored under a key the store chooses (`key`), one not already in use.
   */
  function InsertName(t: Table, name: string, key: Uuid): (e: ExecResult)
    requires key !in t
    ensures e.table.Keys == t.Keys + {key}
    ensures e.table[key] == name
    ensures forall k | k in t :: e.table[k] == t[k]
    ensures e.rowsAffected == |e.table| - |t| == 1
  {
    ExecResult(t[key := name], 1)
  }

  /**
   * `INSERT INTO users (id, name) VALUES ($1, $2)`: the insert Create evidently intends,
   * storing the row under the identifier the program minted. A key already in use is
   * refused by the table's key constraint.
   */
  function InsertUser(t: Table, u: User): (r: Option<ExecResult>)
    ensures r.Some? <==> u.id !in t
    ensures r.Some? ==> SelectById(r.value.table, u.id) == Some(u)
    ensures r.Some? ==> forall k | k in t :: k in r.value.table && r.value.table[k] == t[k]
  {
    if u.id in t then None else Some(InsertName(t, u.name, u.id))
  }

  /** `DELETE FROM users WHERE id = $1`: the filtered rows go, the rest stay as they were. */
  function DeleteById(t: Table, key: Uuid): (e: ExecResult)
    ensures e.table.Keys == t.Keys - Where(t, key)
    ensures forall k | k in e.table :: e.table[k] == t[k]
    ensures e.rowsAffected == |Where(t, key)| == |t| - |e.table|
  {
    if key in t then
      assert (t - {key}).Keys == t.Keys - {key};
      ExecResult(t - {key}, 1)
    else
      ExecResult(t, 0)
  }

  /** `UPDATE users SET name = $1 WHERE id = $2`: only the filtered row's name changes. */
  function UpdateById(t: Table, name: string, key: Uuid): (e: ExecResult)
    ensures e.table.Keys == t.Keys
    ensures forall k | k in t :: e.table[k] == if k in Where(t, key) then name else t[k]
    ensures e.rowsAffected == |Where(t, key)|
  {
    if key in t then ExecResult(t[key := name], 1) else ExecResult(t, 0)
  }

  /** Whether `e` is a possible effect of executing the data-changing statement `s` on `t`. */
  ghost predicate Executed(t: Table, s: Statement, e: ExecResult) {
    match s
    case CreateUser(name) => exists key: Uuid :: key !in t && e == InsertName(t, name, key)
    case DeleteUser(key) => e == DeleteById(t, key)
    case UpdateUser(name, key) => e == UpdateById(t, name, key)
    case _ => false
  }

  /** A data-changing statement reports zero affected rows exactly when its filter matched nothing. */
  lemma NoRowsAffectedIffAbsent(t: Table, s: Statement, e: ExecResult)
    requires s.DeleteUser? || s.UpdateUser?
    requires Executed(t, s, e)
    ensures e.rowsAffected == 0 <==> s.id !in t
    ensures e.rowsAffected == 0 ==> e.table == t
  {
  }
}
