/**
 * What the repository operations may report, shared by the two drafts
 * (internal/repository/psql/psql_repository.go and repository.go): the errors they
 * build with fmt.Errorf, the text of those errors, and for each operation the
 * relation between the table before, the result, and the table after.
 */
module Outcomes {
  import opened Wrappers
  import opened Entity
  import opened Statements

  /** The storage step whose failure an error reports. */
  datatype Stage =
    | QueryExecution       // "query execution error: %v"
    | RowScan              // "row scan error: %v"
    | RowsIteration        // "rows iteration error: %v"
    | Retrieval            // "error retrieving user: %v"
    | Insertion            // "could not insert user: %v"
    | DeleteExecution      // "error executing delete query: %v"
    | UpdateExecution      // "error executing update query: %v"
    | RowsAffectedCount    // "error retrieving rows affected count: %v"

  /** The errors the repositories return. */
  datatype RepoError =
    | InvalidId(detail: string)                    // "invalid UUID: %v"
    | NotFound(id: string)                         // "no user found with id: %s"
    | StorageError(stage: Stage, detail: string)   // one of the Stage texts
    | GenerationFailed                             // "cannot generate v1 uuid"

  /** The kinds a caller must be able to tell apart. */
  datatype Kind = Invalid | Missing | Storage | Generation

  function KindOf(e: RepoError): Kind {
    match e
    case InvalidId(_) => Invalid
    case NotFound(_) => Missing
    case StorageError(_, _) => Storage
    case GenerationFailed => Generation
  }

  /** The text before `%v` in a storage error; none opens like another kind's message. */
  function StagePrefix(s: Stage): (p: string)
    ensures |p| >= 2 && p[0] != 'i' && p[0] != 'n' && (p[0] == 'c' ==> p[1] == 'o')
  {
    match s
    case QueryExecution => "query execution error: "
    case RowScan => "row scan error: "
    case RowsIteration => "rows iteration error: "
    case Retrieval => "error retrieving user: "
    case Insertion => "could not insert user: "
    case DeleteExecution => "error executing delete query: "
    case UpdateExecution => "error executing update query: "
    case RowsAffectedCount => "error retrieving rows affected count: "
  }

  /** err.Error(): the text fmt.Errorf builds; `%v` of a library error is its `detail`. */
  function Message(e: RepoError): (m: string)
    ensures |m| >= 2 && KindOfLead(m[0], m[1]) == KindOf(e)
  {
    match e
    case InvalidId(d) => "invalid UUID: " + d
    case NotFound(id) => "no user found with id: " + id
    case StorageError(s, d) => StagePrefix(s) + d
    case GenerationFailed => "cannot generate v1 uuid"
  }

  /**
   * The errors are plain fmt.Errorf values, so their text is all a caller has; it is
   * enough: two errors with the same text are of the same kind (their first two
   * characters already differ between kinds), and a not-found text names its id.
   */
  lemma {:induction false} MessageDeterminesKind(e1: RepoError, e2: RepoError)
    requires Message(e1) == Message(e2)
    ensures KindOf(e1) == KindOf(e2)
    ensures e1.NotFound? && e2.NotFound? ==> e1.id == e2.id
  {
    var m := Message(e1);
    if e1.NotFound? && e2.NotFound? {
      var p := "no user found with id: ";
      assert e1.id == m[|p|..] == e2.id;
    }
  }

  /** The kind a message's first two characters announce. */
  function KindOfLead(c0: char, c1: char): Kind {
    if c0 == 'i' then Invalid
    else if c0 == 'n' then Missing
    else if c0 == 'c' && c1 == 'a' then Generation
    else Storage
  }

  /** Get: every row in the store's order, or a storage failure and no partial list. */
  ghost predicate GetOutcome(t: Table, r: Result<seq<User>, RepoError>) {
    match r
    case Success(users) => IsListing(users, t)
    case Failure(e) => e.StorageError? && e.stage in {QueryExecution, RowScan, RowsIteration}
  }

  /**
   * GetOneById: a malformed id is rejected with the parser's text; otherwise the row
   * under the parsed key, not-found (naming the id as given) when there is none, or a
   * retrieval failure.
   */
  ghost predicate GetOneByIdOutcome(parse: Parser, t: Table, id: string, r: Result<User, RepoError>) {
    match parse(id)
    case Failure(d) => r == Failure(InvalidId(d))
    case Success(key) =>
      match r
      case Success(u) => SelectById(t, key) == Some(u)
      case Failure(NotFound(i)) => i == id && SelectById(t, key) == None
      case Failure(StorageError(stage, _)) => stage == Retrieval
      case Failure(_) => false
  }

  /**
   * The INSERT of a Create: on success one new row holding `name` under a key the store
   * chose, not one in use before; on failure an insertion error and no change.
   */
  ghost predicate InsertOutcome(t: Table, name: string, r: Outcome<RepoError>, t': Table) {
    match r
    case Pass => exists key: Uuid :: key !in t && t' == InsertName(t, name, key).table
    case Fail(e) => e.StorageError? && e.stage == Insertion && t' == t
  }

  /**
   * Delete: a malformed id is rejected with no change; zero affected rows is
   * not-found with no change; success removes the row under the parsed key. A failure
   * of the statement leaves the table as it was, a failure to read the affected-row
   * count comes after the row is already gone.
   */
  ghost predicate DeleteOutcome(parse: Parser, t: Table, id: string, r: Outcome<RepoError>, t': Table) {
    match parse(id)
    case Failure(d) => r == Fail(InvalidId(d)) && t' == t
    case Success(key) =>
      match r
      case Pass => key in t && t' == DeleteById(t, key).table
      case Fail(NotFound(i)) => i == id && key !in t && t' == t
      case Fail(StorageError(DeleteExecution, _)) => t' == t
      case Fail(StorageError(RowsAffectedCount, _)) => t' == DeleteById(t, key).table
      case Fail(_) => false
  }

  /**
   * Update: as Delete, but success replaces the name under the parsed key by `name`
   * (the body's name; its id plays no part).
   */
  ghost predicate UpdateOutcome(parse: Parser, t: Table, id: string, name: string, r: Outcome<RepoError>, t': Table) {
    match parse(id)
    case Failure(d) => r == Fail(InvalidId(d)) && t' == t
    case Success(key) =>
      match r
      case Pass => key in t && t' == UpdateById(t, name, key).table
      case Fail(NotFound(i)) => i == id && key !in t && t' == t
      case Fail(StorageError(UpdateExecution, _)) => t' == t
      case Fail(StorageError(RowsAffectedCount, _)) => t' == UpdateById(t, name, key).table
      case Fail(_) => false
  }

  /** Get lists each row once with its name, every row, and nothing on an empty table. */
  lemma GetListsEveryRow(t: Table, r: Result<seq<User>, RepoError>)
    requires GetOutcome(t, r) && r.Success?
    ensures |r.value| == |t|
    ensures forall k | k in t :: exists i | 0 <= i < |r.value| :: r.value[i] == User(k, t[k])
    ensures forall i | 0 <= i < |r.value| :: r.value[i] in SelectAll(t)
    ensures t == map[] ==> r.value == []
  {
    ListingFacts(r.value, t);
  }

  /** GetOneById finds the user exactly when the parsed key is in the table. */
  lemma GetOneByIdFindsPresentRow(parse: Parser, t: Table, id: string, r: Result<User, RepoError>)
    requires GetOneByIdOutcome(parse, t, id, r)
    ensures r.Success? ==> parse(id).Success? && parse(id).value in t && r.value == User(parse(id).value, t[parse(id).value])
    ensures parse(id).Success? && parse(id).value !in t ==> r.Failure? && KindOf(r.error) in {Missing, Storage}
    ensures parse(id).Failure? ==> r.Failure? && KindOf(r.error) == Invalid
  {
  }

  /** Delete removes one row, the one under the path id, and changes no other row. */
  lemma DeleteRemovesExactlyOneRow(parse: Parser, t: Table, id: string, r: Outcome<RepoError>, t': Table)
    requires DeleteOutcome(parse, t, id, r, t') && r.Pass?
    ensures parse(id).Success? && parse(id).value in t
    ensures t'.Keys == t.Keys - {parse(id).value}
    ensures |t'| == |t| - 1
    ensures forall k | k in t' :: t'[k] == t[k]
  {
  }

  /** A malformed id or an absent row leaves the table exactly as it was. */
  lemma DeleteRejectionKeepsTable(parse: Parser, t: Table, id: string, r: Outcome<RepoError>, t': Table)
    requires DeleteOutcome(parse, t, id, r, t')
    requires r.Fail? && KindOf(r.error) in {Invalid, Missing}
    ensures t' == t
    ensures KindOf(r.error) == Missing <==> parse(id).Success? && parse(id).value !in t
  {
  }

  /** Update writes the body's name under the path id and changes nothing else. */
  lemma UpdateChangesOnlyThatName(parse: Parser, t: Table, id: string, name: string, r: Outcome<RepoError>, t': Table)
    requires UpdateOutcome(parse, t, id, name, r, t') && r.Pass?
    ensures parse(id).Success? && parse(id).value in t
    ensures t'.Keys == t.Keys && t'[parse(id).value] == name
    ensures forall k | k in t && k != parse(id).value :: t'[k] == t[k]
  {
  }

  /** A malformed id or an absent row leaves the table exactly as it was. */
  lemma UpdateRejectionKeepsTable(parse: Parser, t: Table, id: string, name: string, r: Outcome<RepoError>, t': Table)
    requires UpdateOutcome(parse, t, id, name, r, t')
    requires r.Fail? && KindOf(r.error) in {Invalid, Missing}
    ensures t' == t
    ensures KindOf(r.error) == Missing <==> parse(id).Success? && parse(id).value !in t
  {
  }
}
