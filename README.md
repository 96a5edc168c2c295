# Users service: repository and controller

This project models the data-access core of the Users service: a directory of user
records (`id`, `name`) kept in a Postgres table `users`. Two near-identical drafts of
the repository reach the table through five SQL statements: `PSQLRepository` in
`internal/repository/psql/psql_repository.go` and `Repository` in
`internal/repository/psql/repository.go`. In front of them sits a controller that
passes results through and wraps errors.

## Layout

- `wrappers.dfy`, module `Wrappers`: `Option`, `Result` (Go's `(T, error)`) and `Outcome` (a bare `error`).
- `entity.dfy`, module `Entity`: the 128-bit `Uuid`, `Nil`, the `User` record, the `Table` (`map<Uuid, string>`) and the `Parser` type standing for `uuid.Parse`.
- `statements.dfy`, module `Statements`: each statement of `psql_consts.go` as a pure function on the table.
  - The unfiltered select is a set of rows.
  - The by-id select is a lookup.
  - The insert adds a row under a key the store chooses.
  - Delete removes a key and update replaces a value.
  - `IsListing` says that a sequence is the select's result in some order.
- `store.dfy`, module `Store`: the `*sql.DB` handle as a class `Db`.
  - It holds the `users` table and a ghost log of the statements sent to it.
  - The `*sql.Rows` cursor is a class `Rows`.
  - Every call into the store may fail nondeterministically. A call that succeeds does what its statement says.
- `outcomes.dfy`, module `Outcomes`: the error values the repositories build, their text, and one predicate per operation.
  - Each predicate relates the table before, the result, and the table after.
  - Both drafts are proved against these predicates.
  - The rules the source promises are lemmas about them.
- `psql_repository.dfy`, module `PsqlRepository`: class `PSQLRepository`.
- `repository.dfy`, module `RepositoryDraft`: class `Repository`.
- `controller.dfy`, module `Controller`: the controller's five operations as functions of the result the repository returned.
- `properties.dfy`, module `Properties`: properties across several calls, the controller over the repository outcomes, and the Create finding.

Each repository method is imperative, as in the source:
- `Get` walks the cursor with a `Next`/`Scan` loop and appends.
- `Create` overwrites the caller's id.
- `Delete` and `Update` change the table and branch on the affected-row count.

Each method's `ensures` ties the result and the new table to the outcome predicate. It also states exactly which statements the method sent, so a malformed id provably reaches the store not at all.

## Model

| member | source | states |
|---|---|---|
| Statements.Where | internal/repository/psql/psql_consts.go:5-8 | `WHERE id = $n` selects only rows of the table with that key, at most one, and none exactly when the key is absent |
| Statements.SelectAll | internal/repository/psql/psql_consts.go:4 | the list query yields a user exactly when the table holds that name under that id; there is no filter |
| Statements.SelectAllSize | internal/repository/psql/psql_consts.go:4 | the list query yields exactly as many rows as the table has keys |
| Statements.ListingExists | internal/repository/psql/psql_consts.go:4 | the rows of any table can be sent in some order, so a successful query always has a cursor to return |
| Statements.ListingFacts | internal/repository/psql/psql_consts.go:4 | a listing has one entry per row, each entry a row with its stored name, no id twice, every key present, and it is empty for an empty table |
| Statements.SelectById | internal/repository/psql/psql_consts.go:5 | the by-id query returns a row exactly when the filter matches; that row has the key asked for and is the one row of the full select with that id |
| Statements.InsertName | internal/repository/psql/psql_consts.go:6 | the insert names no id: the row goes under a key the store chose, previously unused; all other rows stay; one row is affected |
| Statements.InsertUser | internal/repository/psql/psql_consts.go:6 | corrected insert carrying the id: it succeeds exactly when the id is unused, afterwards the by-id query finds that user, and other rows stay |
| Statements.DeleteById | internal/repository/psql/psql_consts.go:7 | delete removes exactly the filtered keys; remaining rows keep their names; rows affected equals both the filter's match count and the number of rows removed |
| Statements.UpdateById | internal/repository/psql/psql_consts.go:8 | update keeps the key set; only the filtered row takes the new name; rows affected equals the filter's match count |
| Statements.NoRowsAffectedIffAbsent | internal/repository/psql/psql_consts.go:7-8 | for delete and update, zero affected rows happens exactly when the id is not in the table, and then the table is unchanged |
| Store.Rows.Next | internal/repository/psql/psql_repository.go:49 | `rows.Next` advances one row and reports true, or reports false; false before the end means an error is recorded for `rows.Err`, and the fetch that finds the end may record one too, also on an empty result |
| Store.Rows.Scan | internal/repository/psql/psql_repository.go:51 | a successful scan yields the current row |
| Store.Db.Query | internal/repository/psql/psql_repository.go:42 | the list query is logged; on success it returns a fresh cursor at its start whose rows are a listing of the table |
| Store.Db.QueryRowById | internal/repository/psql/psql_repository.go:71 | the by-id query is logged; success returns the row under the key; `sql.ErrNoRows` only when there is no such row |
| Store.Db.Exec | internal/repository/psql/psql_repository.go:99 | the statement is logged; on success the table becomes the statement's effect with its affected-row count; on failure the table is unchanged |
| Store.Db.RowsAffected | internal/repository/psql/psql_repository.go:104 | a successful `RowsAffected` reports the count the statement produced |
| Outcomes.StagePrefix | internal/repository/psql/psql_repository.go:44-129 | the text before `%v` of each storage error, as the source formats it (repository.go uses the same texts); none begins the way an invalid-id, not-found or generation message begins |
| Outcomes.Message | internal/repository/psql/psql_repository.go:44-133 | the text of every error the repositories build with `fmt.Errorf`, as the source formats it (repository.go uses the same texts); its first two characters announce its kind |
| Outcomes.GetOutcome | internal/repository/psql/psql_repository.go:39-62 | a Get result is a listing of the table, or a query, scan or iteration error with no list |
| Outcomes.GetOneByIdOutcome | internal/repository/psql/psql_repository.go:64-79 | a malformed id gives invalid-id with the parser's text; otherwise the result is the row under the parsed key, not-found naming the id as given when there is no such row, or a retrieval error |
| Outcomes.InsertOutcome | internal/repository/psql/psql_repository.go:87-91 | a successful insert adds the name under a store-chosen key that was unused before; a failure is an insert error with the table unchanged |
| Outcomes.DeleteOutcome | internal/repository/psql/psql_repository.go:94-114 | a malformed id gives invalid-id with no change; success removes the row under the parsed key, which was present; not-found means the key was absent and nothing changed; an exec failure changes nothing; a rows-affected failure comes after the delete took effect |
| Outcomes.UpdateOutcome | internal/repository/psql/psql_repository.go:116-137 | as for Delete, but success replaces the name under the parsed key with the body's name |
| Outcomes.MessageDeterminesKind | internal/repository/psql/psql_repository.go:64-76 | two repository errors with the same text are of the same kind (invalid id, not found, storage, generation), and two not-found texts name the same id |
| Outcomes.GetListsEveryRow | internal/repository/psql/psql_repository.go:39-62 | a successful Get returns one entry per row, every row with its name, and an empty list (not an error) for an empty table |
| Outcomes.GetOneByIdFindsPresentRow | internal/repository/psql/psql_repository.go:64-79 | GetOneById succeeds only with the stored row under the parsed id; an absent id yields not-found or a storage error; a malformed id yields invalid-id |
| Outcomes.DeleteRemovesExactlyOneRow | internal/repository/psql/psql_repository.go:99-113 | a successful Delete removes the row under the path id and no other; the table shrinks by one and all other names are unchanged |
| Outcomes.DeleteRejectionKeepsTable | internal/repository/psql/psql_repository.go:94-111 | an invalid-id or not-found Delete leaves the table unchanged; not-found happens exactly when the parsed id is absent |
| Outcomes.UpdateChangesOnlyThatName | internal/repository/psql/psql_repository.go:116-136 | a successful Update keeps the key set, stores the body's name under the path id and changes no other row |
| Outcomes.UpdateRejectionKeepsTable | internal/repository/psql/psql_repository.go:116-134 | an invalid-id or not-found Update leaves the table unchanged; not-found happens exactly when the parsed id is absent |
| PsqlRepository.PSQLRepository.NewUUID | internal/repository/psql/psql_repository.go:83 | the generator yields a new identifier and records it, or fails and yields `uuid.Nil` |
| PsqlRepository.PSQLRepository.Get | internal/repository/psql/psql_repository.go:39-62 | sends only the list query; returns a listing of the table, or a query, scan or iteration error with no partial list |
| PsqlRepository.PSQLRepository.GetOneById | internal/repository/psql/psql_repository.go:64-79 | a malformed id fails with invalid-id and sends nothing; otherwise sends the by-id query and returns the row, not-found, or a retrieval error |
| PsqlRepository.PSQLRepository.Create | internal/repository/psql/psql_repository.go:81-92 | the caller's id is replaced by the generated one and the name kept; a generator failure leaves `Nil` and sends nothing; otherwise sends the name-only insert, and success adds the name under a fresh store-chosen key |
| PsqlRepository.PSQLRepository.Delete | internal/repository/psql/psql_repository.go:94-114 | a malformed id sends nothing; otherwise sends one delete; zero affected rows is not-found with the table unchanged; success removes exactly that row |
| PsqlRepository.PSQLRepository.Update | internal/repository/psql/psql_repository.go:116-137 | a malformed id sends nothing; otherwise sends one update with the body's name and the path id; zero affected rows is not-found with no change; success renames that row only |
| RepositoryDraft.Repository.NewRandom | internal/repository/psql/repository.go:72 | the generator yields a new identifier and records it, or fails and yields `uuid.Nil` |
| RepositoryDraft.Repository.Get | internal/repository/psql/repository.go:29-52 | sends only the list query; returns a listing of the table, or a query, scan or iteration error with no partial list |
| RepositoryDraft.Repository.GetOneById | internal/repository/psql/repository.go:54-69 | a malformed id fails with invalid-id and sends nothing; otherwise returns the row, not-found, or a retrieval error |
| RepositoryDraft.Repository.Create | internal/repository/psql/repository.go:71-78 | the caller's id is always replaced, by a new identifier or by `Nil` when the ignored generator error occurred; the name-only insert is always sent; success adds the name under a fresh store-chosen key, and failure is an insert error with no change |
| RepositoryDraft.Repository.Delete | internal/repository/psql/repository.go:80-100 | a malformed id sends nothing; zero affected rows is not-found with the table unchanged; success removes exactly that row |
| RepositoryDraft.Repository.Update | internal/repository/psql/repository.go:102-123 | a malformed id sends nothing; zero affected rows is not-found with no change; success renames only the row under the path id |
| Controller.Wrap | internal/controller/controller.go:20 | a wrapped error's text ends with the repository error's text |
| Controller.WrapWithId | internal/controller/controller.go:28 | a wrapped error's text contains the id and ends with the repository error's text, which starts right after the fixed text, the id and ": " |
| Controller.WrapKeepsMessage | internal/controller/controller.go:20 | two wrapped texts with the same context are equal only when the repository messages are |
| Controller.WrapWithIdKeepsMessage | internal/controller/controller.go:28 | two wrapped texts with the same context and id are equal only when the repository messages are |
| Controller.GetKeepsKind | internal/controller/controller.go:18-21 | the text of a Get failure determines the kind of the repository error behind it |
| Controller.GetOneByIdKeepsKind | internal/controller/controller.go:26-29 | the text of a GetOneById failure determines the kind of the repository error, so not-found stays distinguishable, and for not-found, the id |
| Controller.CreateKeepsKind | internal/controller/controller.go:34-37 | the text of a Create failure determines the kind of the repository error |
| Controller.DeleteKeepsKind | internal/controller/controller.go:42-45 | the text of a Delete failure determines the kind of the repository error, and for not-found, the id |
| Controller.UpdateKeepsKind | internal/controller/controller.go:50-53 | the text of an Update failure determines the kind of the repository error, and for not-found, the id |
| Controller.Get | internal/controller/controller.go:17-23 | succeeds exactly when the repository did, with the same list; a failure is never swallowed and keeps the repository's text |
| Controller.GetOneById | internal/controller/controller.go:25-31 | succeeds exactly when the repository did, with the same user; a failure's text contains the id and ends with the repository's text |
| Controller.Create | internal/controller/controller.go:33-39 | returns nil exactly when the repository's Create did; a failure keeps the repository's text |
| Controller.Delete | internal/controller/controller.go:41-47 | returns nil exactly when the repository's Delete did; a failure's text contains the id and the repository's text |
| Controller.Update | internal/controller/controller.go:49-55 | returns nil exactly when the repository's Update did; a failure's text contains the id and the repository's text |
| Properties.ControllerGetOverRepository | internal/controller/controller.go:17-23 | over any repository Get result, a controller success lists every row once, and nothing for an empty table |
| Properties.ControllerGetOneByIdOverRepository | internal/controller/controller.go:25-31 | over any repository result, a controller success is the stored row; a failure names the id and ends with the not-found or invalid-UUID text |
| Properties.ControllerDeleteOverRepository | internal/controller/controller.go:41-47 | a controller Delete success means exactly the row under the id was removed; a not-found or invalid-id failure means no change |
| Properties.ControllerUpdateOverRepository | internal/controller/controller.go:49-55 | a controller Update success means the row under the id now holds the body's name; a not-found or invalid-id failure means no change |
| Properties.DeleteTwice | internal/repository/psql/psql_repository.go:99-111 | after a successful Delete, a second Delete of the same id never succeeds and changes nothing |
| Properties.UpdateThenGetOneById | internal/repository/psql/psql_repository.go:116-136 | after a successful Update, GetOneById of that id returns the new name or a storage error, never not-found |
| Properties.CreateOnEmptyThenGet | internal/repository/psql/psql_repository.go:87 | one successful Create on an empty table, then Get, lists exactly one user: the created name under the store's key |
| Properties.CreatedIdNotStored | internal/repository/psql/psql_repository.go:83-87 | a Create can succeed while GetOneById of the id it returned cannot find the row |
| Properties.CorrectedCreateRoundTrip | internal/repository/psql/psql_consts.go:6 | with the id-carrying insert, GetOneById of the minted id returns the created user or a storage error, never not-found |

## Findings

| source | as written | input that shows it | evidently intended | confidence | as-written member | corrected member |
|---|---|---|---|---|---|---|
| internal/repository/psql/psql_consts.go:6 | `INSERT INTO users (name) VALUES ($1)` binds only the name. The id that Create mints and assigns to `user.Id` (psql_repository.go:83, repository.go:72) is never stored. The handler returns that unstored id to the client (internal/handler/handler.go:101-104). | Start from an empty table and create "Alice". The generator mints id 1 and the store keys the row under 2. GetOneById on the text of id 1 then cannot return the row. | `INSERT INTO users (id, name) VALUES ($1, $2)` with the minted id bound, so the returned id addresses the row | high (not executed) | Properties.CreatedIdNotStored | Properties.CorrectedCreateRoundTrip |

The repository classes keep the insert as written, because they model the code. The corrected statement is `Statements.InsertUser`. `Properties.CorrectedCreateRoundTrip` proves the round trip for it over the same `GetOneById` outcome that both classes are verified against.

## Where the code departs from the intended contract

- Create does not mint the stored identifier; see Findings. No Create/GetOneById round trip is claimed for the code.
- The controller wraps with `fmt.Errorf` and `%v`, not `%w`.
  - Its errors are therefore new values holding only text. A caller cannot branch on the repository's error with `errors.Is`.
  - What survives is the text. `Controller.*` proves that the repository's message is the tail of every wrapped error.
  - `Outcomes.MessageDeterminesKind` proves that that message determines the error's kind.
  - `Controller.GetKeepsKind`, `GetOneByIdKeepsKind`, `CreateKeepsKind`, `DeleteKeepsKind` and `UpdateKeepsKind` combine the two. The wrapped text of a failure determines the kind of the repository error behind it.
  - The model therefore gives errors as strings above the repository.
- Nothing in the code guarantees that identifiers are unique. Create never stores the minted identifier, and the generators are trusted rather than checked. The model records minted identifiers in a ghost `minted` sequence and proves nothing about their distinctness.

## Left out

- `uuid.Parse`, `uuid.NewUUID` and `uuid.NewRandom` are library code, not part of this model.
  - The parser is a constructor parameter (`Parser`).
  - The generators are nondeterministic and yield `uuid.Nil` alongside their error, which is what the library returns with an error.
- Postgres converts the bound id string to its `uuid` type itself. The model uses the same parsed key. Where Postgres would reject a string that `uuid.Parse` accepts, the outcome is a storage failure, which the model already allows at every store call.
- Storage failures carry library error text; the model keeps it as an opaque `detail` string.
- `PsqlRepository.PSQLRepository.NewUUID`: does not model the version-1 layout, time ordering or uniqueness, because the generator is library code.
- `RepositoryDraft.Repository.NewRandom`: does not model randomness or uniqueness, for the same reason.
- `Connect` (psql_repository.go:22-30) and internal/repository/psql/connect_psql_db.go are `sql.Open` I/O and are not part of this model. So are `NewPSQLRepository` and `NewRepository` beyond their fields, and the unused `cfg` field.
- The `ctx` parameters are never used by the code. The model leaves them out and has no cancellation.
- `defer rows.Close()` has no effect the model can observe and is left out.
- Concurrency and the connection pool are left out. Each operation runs as one atomic step on the table.
- The `*entity.UserEntity` pointers are modelled as `User` values.
  - Create returns the caller's struct as it is afterwards (`user'`), instead of writing through a shared pointer.
  - Get and GetOneById return fresh rows, so no aliasing is lost there.
- `Store.Db.Exec` is stated for the three data-changing statements only, the only ones the code executes.
- Go's `nil` slice for an empty result is the empty sequence.
- The controller is modelled over the result the repository returned. That each controller operation calls its repository operation exactly once, with the same id and user, is expressed by each controller function taking exactly one such result.
- interfaces.UserRepository (internal/models/interfaces/repository.go:7-13) has no `ctx` parameters. The two drafts return `interfaces.Repository`, which is not part of this model. The controller model does not depend on that mismatch.
- The HTTP handler, server start-up and shutdown, configuration, logging, middleware and cmd/main.go are glue around the core and are not part of this model.
