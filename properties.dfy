/**
 * Properties that span several calls: what the controller reports over what a
 * repository may return, sequences of repository operations, and the insert that
 * does not store the identifier Create hands back.
 */
module Properties {
  import opened Wrappers
  import opened Entity
  import opened Statements
  import opened Outcomes
  import Controller

  /** Over any result Get may return, the controller lists every row once, and nothing for an empty table. */
  lemma ControllerGetOverRepository(t: Table, r: Result<seq<User>, RepoError>)
    requires GetOutcome(t, r)
    ensures Controller.Get(r).Success? ==> |Controller.Get(r).value| == |t|
    ensures Controller.Get(r).Success? ==>
      forall k | k in t :: exists i | 0 <= i < |Controller.Get(r).value| :: Controller.Get(r).value[i] == User(k, t[k])
    ensures Controller.Get(r).Success? && t == map[] ==> Controller.Get(r).value == []
  {
    if r.Success? {
      GetListsEveryRow(t, r);
    }
  }

  /**
   * Over any result GetOneById may return, the controller hands back the stored row, or
   * an error that names the id and ends with the repository's message: not-found for an
   * absent row, invalid-UUID for a malformed id.
   */
  lemma ControllerGetOneByIdOverRepository(parse: Parser, t: Table, id: string, r: Result<User, RepoError>)
    requires GetOneByIdOutcome(parse, t, id, r)
    ensures var c := Controller.GetOneById(id, r);
      && (c.Success? ==> parse(id).Success? && parse(id).value in t && c.value == User(parse(id).value, t[parse(id).value]))
      && (c.Failure? ==> Controller.Contains(c.error, id))
      && (r == Failure(NotFound(id)) ==> Controller.EndsWith(c.error, "no user found with id: " + id))
      && (parse(id).Failure? ==> Controller.EndsWith(c.error, "invalid UUID: " + parse(id).error))
  {
  }

  /** When the controller's Delete reports success, exactly the row under the id is gone. */
  lemma ControllerDeleteOverRepository(parse: Parser, t: Table, id: string, r: Outcome<RepoError>, t': Table)
    requires DeleteOutcome(parse, t, id, r, t')
    ensures Controller.Delete(id, r).Pass? ==>
      parse(id).Success? && parse(id).value in t && t'.Keys == t.Keys - {parse(id).value}
    ensures Controller.Delete(id, r).Fail? && KindOf(r.error) != Storage ==> t' == t
  {
  }

  /** When the controller's Update reports success, the name under the id is the body's name. */
  lemma ControllerUpdateOverRepository(parse: Parser, t: Table, id: string, name: string, r: Outcome<RepoError>, t': Table)
    requires UpdateOutcome(parse, t, id, name, r, t')
    ensures Controller.Update(id, r).Pass? ==>
      parse(id).Success? && parse(id).value in t' && t'[parse(id).value] == name
    ensures Controller.Update(id, r).Fail? && KindOf(r.error) != Storage ==> t' == t
  {
  }

  /** Deleting the same id twice: the second call never succeeds and changes nothing. */
  lemma DeleteTwice(parse: Parser, t0: Table, id: string, t1: Table, r2: Outcome<RepoError>, t2: Table)
    requires DeleteOutcome(parse, t0, id, Pass, t1)
    requires DeleteOutcome(parse, t1, id, r2, t2)
    ensures r2.Fail? && KindOf(r2.error) in {Missing, Storage}
    ensures t2 == t1
  {
  }

  /** After a successful Update, GetOneById finds the new name (or fails in the store, never not-found). */
  lemma UpdateThenGetOneById(parse: Parser, t0: Table, id: string, name: string, t1: Table, r: Result<User, RepoError>)
    requires UpdateOutcome(parse, t0, id, name, Pass, t1)
    requires GetOneByIdOutcome(parse, t1, id, r)
    ensures r.Success? ==> r.value == User(parse(id).value, name)
    ensures r.Failure? ==> KindOf(r.error) == Storage
  {
  }

  /**
   * One successful Create on an empty table, then Get: a list of one user with that
   * name, stored under whatever key the store chose.
   */
  lemma CreateOnEmptyThenGet(name: string, t1: Table, r: Result<seq<User>, RepoError>)
    requires InsertOutcome(map[], name, Pass, t1)
    requires GetOutcome(t1, r) && r.Success?
    ensures |r.value| == 1
    ensures r.value[0].name == name && r.value[0].id in t1
  {
    var empty: Table := map[];
    var key: Uuid :| key !in empty && t1 == InsertName(empty, name, key).table;
    assert t1 == map[key := name];
    GetListsEveryRow(t1, r);
    assert t1.Keys == {key};
  }

  /**
   * As written, the insert names no id, so Create can succeed while the identifier it
   * returned finds nothing: with the minted id 1 and the store's key 2, GetOneById on
   * the text of id 1 cannot succeed.
   */
  lemma CreatedIdNotStored(parse: Parser, text: string, r: Result<User, RepoError>)
    requires parse(text) == Success(1)
    requires GetOneByIdOutcome(parse, map[2 := "Alice"], text, r)
    ensures InsertOutcome(map[], "Alice", Pass, map[2 := "Alice"])
    ensures r.Failure?
  {
  }

  /**
   * With the intended insert, the round trip holds: GetOneById on the text of the
   * minted id finds the created user, or fails in the store, and never reports it missing.
   */
  lemma CorrectedCreateRoundTrip(parse: Parser, t: Table, u: User, text: string, r: Result<User, RepoError>)
    requires InsertUser(t, u).Some?
    requires parse(text) == Success(u.id)
    requires GetOneByIdOutcome(parse, InsertUser(t, u).value.table, text, r)
    ensures r.Success? ==> r.value == u
    ensures r.Failure? ==> KindOf(r.error) == Storage
  {
  }
}
