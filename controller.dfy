/**
 * Controller (internal/controller/controller.go): each operation calls the repository
 * operation of the same name once, with the same arguments, passes a success through
 * untouched and wraps a failure with fmt.Errorf. The repository behind it is any
 * implementation of interfaces.UserRepository, so each operation here is a function
 * of the result the repository returned; the repository models in this project say
 * which results those can be.
 */
module Controller {
  import opened Wrappers
  import opened Entity
  import opened Outcomes

  /** `s` ends with `suffix`. */
  predicate EndsWith(s: string, suffix: string) {
    |suffix| <= |s| && s[|s| - |suffix|..] == suffix
  }

  /** `part` occurs in `s` starting at index `i`. */
  predicate OccursAt(s: string, part: string, i: nat) {
    i + |part| <= |s| && s[i..i + |part|] == part
  }

  /** `part` occurs somewhere in `s`. */
  predicate Contains(s: string, part: string) {
    exists i: nat | i <= |s| :: OccursAt(s, part, i)
  }

  /**
   * fmt.Errorf(context + "%v", err). The verb is `%v`, not `%w`, so the result is a
   * new error holding only text: the repository's message survives as its tail.
   */
  function Wrap(context: string, e: RepoError): (m: string)
    ensures EndsWith(m, Message(e))
    ensures |m| == |context| + |Message(e)|
  {
    var m := context + Message(e);
    assert m[|m| - |Message(e)|..] == Message(e);
    m
  }

  /** fmt.Errorf(head + "%s: %v", id, err): the id is quoted, then the repository's message. */
  function WrapWithId(head: string, id: string, e: RepoError): (m: string)
    ensures Contains(m, id)
    ensures EndsWith(m, Message(e))
    ensures |m| == |head| + |id| + 2 + |Message(e)|
  {
    var m := head + id + ": " + Message(e);
    assert OccursAt(m, id, |head|) by {
      assert m[|head|..|head| + |id|] == id;
    }
    assert m[|m| - |Message(e)|..] == Message(e);
    m
  }

  /** Controller.Get: the repository's list unchanged, or no list and a wrapped error. */
  function Get(r: Result<seq<User>, RepoError>): (c: Result<seq<User>, string>)
    ensures c.Success? <==> r.Success?
    ensures c.Success? ==> c.value == r.value
    ensures c.Failure? ==> EndsWith(c.error, Message(r.error))
  {
    match r
    case Success(users) => Success(users)
    case Failure(e) => Failure(Wrap("error retrieving users: ", e))
  }

  /** Controller.GetOneById: the repository's user unchanged, or an error naming the id. */
  function GetOneById(id: string, r: Result<User, RepoError>): (c: Result<User, string>)
    ensures c.Success? <==> r.Success?
    ensures c.Success? ==> c.value == r.value
    ensures c.Failure? ==> Contains(c.error, id) && EndsWith(c.error, Message(r.error))
  {
    match r
    case Success(user) => Success(user)
    case Failure(e) => Failure(WrapWithId("error retrieving user with id ", id, e))
  }

  /**
   * Controller.Create: nil exactly when the repository's Create returned nil. The user
   * struct is the caller's own, handed on by pointer, so the identifier the repository
   * wrote into it reaches the caller unchanged.
   */
  function Create(r: Outcome<RepoError>): (c: Outcome<string>)
    ensures c.Pass? <==> r.Pass?
    ensures c.Fail? ==> EndsWith(c.error, Message(r.error))
  {
    match r
    case Pass => Pass
    case Fail(e) => Fail(Wrap("error creating user: ", e))
  }

  /** Controller.Delete: nil exactly when the repository's Delete returned nil. */
  function Delete(id: string, r: Outcome<RepoError>): (c: Outcome<string>)
    ensures c.Pass? <==> r.Pass?
    ensures c.Fail? ==> Contains(c.error, id) && EndsWith(c.error, Message(r.error))
  {
    match r
    case Pass => Pass
    case Fail(e) => Fail(WrapWithId("error deleting user with id ", id, e))
  }

  /** Controller.Update: nil exactly when the repository's Update returned nil. */
  function Update(id: string, r: Outcome<RepoError>): (c: Outcome<string>)
    ensures c.Pass? <==> r.Pass?
    ensures c.Fail? ==> Contains(c.error, id) && EndsWith(c.error, Message(r.error))
  {
    match r
    case Pass => Pass
    case Fail(e) => Fail(WrapWithId("error updating user with id ", id, e))
  }

  /** Two wrapped texts built with the same context are equal only if the repository messages are. */
  lemma {:induction false} WrapKeepsMessage(context: string, e1: RepoError, e2: RepoError)
    requires Wrap(context, e1) == Wrap(context, e2)
    ensures Message(e1) == Message(e2)
  {
    var m := Wrap(context, e1);
    assert |Message(e1)| == |Message(e2)|;
    assert Message(e1) == m[|m| - |Message(e1)|..] == Message(e2);
  }

  /** Two wrapped texts built with the same context and id are equal only if the repository messages are. */
  lemma {:induction false} WrapWithIdKeepsMessage(head: string, id: string, e1: RepoError, e2: RepoError)
    requires WrapWithId(head, id, e1) == WrapWithId(head, id, e2)
    ensures Message(e1) == Message(e2)
  {
    var m := WrapWithId(head, id, e1);
    assert |Message(e1)| == |Message(e2)|;
    assert Message(e1) == m[|m| - |Message(e1)|..] == Message(e2);
  }

  /**
   * The wrapped text of a Get failure determines the kind of the repository error:
   * a caller can still tell a storage failure from any other.
   */
  lemma GetKeepsKind(e1: RepoError, e2: RepoError)
    requires Get(Failure(e1)) == Get(Failure(e2))
    ensures KindOf(e1) == KindOf(e2)
  {
    WrapKeepsMessage("error retrieving users: ", e1, e2);
    MessageDeterminesKind(e1, e2);
  }

  /**
   * The wrapped text of a GetOneById failure determines the kind of the repository
   * error, so not-found stays distinguishable from invalid-id and storage failures.
   */
  lemma GetOneByIdKeepsKind(id: string, e1: RepoError, e2: RepoError)
    requires GetOneById(id, Failure(e1)) == GetOneById(id, Failure(e2))
    ensures KindOf(e1) == KindOf(e2)
    ensures e1.NotFound? && e2.NotFound? ==> e1.id == e2.id
  {
    WrapWithIdKeepsMessage("error retrieving user with id ", id, e1, e2);
    MessageDeterminesKind(e1, e2);
  }

  /** The wrapped text of a Create failure determines the kind of the repository error. */
  lemma CreateKeepsKind(e1: RepoError, e2: RepoError)
    requires Create(Fail(e1)) == Create(Fail(e2))
    ensures KindOf(e1) == KindOf(e2)
  {
    WrapKeepsMessage("error creating user: ", e1, e2);
    MessageDeterminesKind(e1, e2);
  }

  /** The wrapped text of a Delete failure determines the kind of the repository error. */
  lemma DeleteKeepsKind(id: string, e1: RepoError, e2: RepoError)
    requires Delete(id, Fail(e1)) == Delete(id, Fail(e2))
    ensures KindOf(e1) == KindOf(e2)
    ensures e1.NotFound? && e2.NotFound? ==> e1.id == e2.id
  {
    WrapWithIdKeepsMessage("error deleting user with id ", id, e1, e2);
    MessageDeterminesKind(e1, e2);
  }

  /** The wrapped text of an Update failure determines the kind of the repository error. */
  lemma UpdateKeepsKind(id: string, e1: RepoError, e2: RepoError)
    requires Update(id, Fail(e1)) == Update(id, Fail(e2))
    ensures KindOf(e1) == KindOf(e2)
    ensures e1.NotFound? && e2.NotFound? ==> e1.id == e2.id
  {
    WrapWithIdKeepsMessage("error updating user with id ", id, e1, e2);
    MessageDeterminesKind(e1, e2);
  }
}
