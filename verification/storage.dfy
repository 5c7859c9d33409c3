/**
 * The browser's local storage as the client uses it: a map from key to a
 * stored value. The JSON text of a stored value is not modelled; a value is
 * kept as what it was serialised from.
 */
module Storage {
  import opened Wrappers

  /** A quiz result as the history stores it: the owner's email and the rest of the result. */
  datatype QuizResult<X> = QuizResult(email: string, data: X)

  /** What one key may hold. */
  datatype Stored<U, X> = UserJson(user: U) | HistoryJson(results: seq<QuizResult<X>>) | Text(text: string)

  type LocalStorage<U, X> = map<string, Stored<U, X>>

  const UserStorageKey := "taste_quiz_user"
  const ResultsStorageKey := "taste_quiz_results"

  /** `saveUser`: the user's JSON under the user key. */
  function SaveUser<U, X>(ls: LocalStorage<U, X>, user: U): (r: LocalStorage<U, X>)
    ensures r.Keys == ls.Keys + {UserStorageKey}
    ensures forall k :: k in ls && k != UserStorageKey ==> r[k] == ls[k]
  {
    ls[UserStorageKey := UserJson(user)]
  }

  /** `getUser`: the stored user, or `None` when the key is empty. */
  function GetUser<U, X>(ls: LocalStorage<U, X>): (r: Option<U>)
    ensures r.Some? ==> UserStorageKey in ls && ls[UserStorageKey] == UserJson(r.value)
    ensures UserStorageKey !in ls ==> r.None?
  {
    if UserStorageKey in ls && ls[UserStorageKey].UserJson? then Some(ls[UserStorageKey].user) else None
  }

  /** A saved user reads back, whatever else is stored. */
  lemma SaveUserReadsBack<U, X>(ls: LocalStorage<U, X>, user: U)
    ensures GetUser(SaveUser(ls, user)) == Some(user)
  {
  }

  /** The history list, `[]` when nothing is stored. */
  function History<U, X>(ls: LocalStorage<U, X>): seq<QuizResult<X>> {
    if ResultsStorageKey in ls && ls[ResultsStorageKey].HistoryJson? then ls[ResultsStorageKey].results else []
  }

  /** `saveQuizResult`: the result appended to the history; no other key changes. */
  function SaveQuizResult<U, X>(ls: LocalStorage<U, X>, result: QuizResult<X>): (r: LocalStorage<U, X>)
    ensures History(r) == History(ls) + [result]
    ensures r.Keys == ls.Keys + {ResultsStorageKey}
    ensures forall k :: k in ls && k != ResultsStorageKey ==> r[k] == ls[k]
  {
    ls[ResultsStorageKey := HistoryJson(History(ls) + [result])]
  }

  /** The last result in `results` that belongs to `email`. */
  function LastFor<X>(results: seq<QuizResult<X>>, email: string): (r: Option<QuizResult<X>>)
    ensures r.None? <==> forall i :: 0 <= i < |results| ==> results[i].email != email
    ensures r.Some? ==> r.value.email == email && r.value in results
    decreases |results|
  {
    if results == [] then None
    else if results[|results| - 1].email == email then Some(results[|results| - 1])
    else
      var init := results[..|results| - 1];
      assert forall i :: 0 <= i < |init| ==> init[i] == results[i];
      assert results == init + [results[|results| - 1]];
      LastFor(init, email)
  }

  /** The result found sits after every other result of that email. */
  lemma {:induction false} LastForIsLast<X>(results: seq<QuizResult<X>>, email: string) returns (i: nat)
    requires LastFor(results, email).Some?
    ensures i < |results| && results[i] == LastFor(results, email).value
    ensures forall j :: i < j < |results| ==> results[j].email != email
    decreases |results|
  {
    if results[|results| - 1].email == email {
      i := |results| - 1;
    } else {
      var init := results[..|results| - 1];
      i := LastForIsLast(init, email);
    }
  }

  /** `getLatestResult(email)`: the last result saved for that email, or `None`. */
  function GetLatestResult<U, X>(ls: LocalStorage<U, X>, email: string): (r: Option<QuizResult<X>>)
    ensures r.None? <==> forall i :: 0 <= i < |History(ls)| ==> History(ls)[i].email != email
    ensures r.Some? ==> r.value.email == email && r.value in History(ls)
  {
    LastFor(History(ls), email)
  }

  /**
   * A saved result is the latest for its email, and saving one leaves the
   * latest result of every other email as it was.
   */
  lemma SaveThenLatest<U, X>(ls: LocalStorage<U, X>, result: QuizResult<X>, other: string)
    requires other != result.email
    ensures GetLatestResult(SaveQuizResult(ls, result), result.email) == Some(result)
    ensures GetLatestResult(SaveQuizResult(ls, result), other) == GetLatestResult(ls, other)
  {
    var h := History(ls) + [result];
    assert h[..|h| - 1] == History(ls);
  }

  /** `clearAuth`: the user key is removed; everything else stays. */
  function ClearAuth<U, X>(ls: LocalStorage<U, X>): (r: LocalStorage<U, X>)
    ensures UserStorageKey !in r
    ensures r.Keys == ls.Keys - {UserStorageKey}
    ensures forall k :: k in r ==> r[k] == ls[k]
  {
    ls - {UserStorageKey}
  }

  /** Signing out forgets the user but keeps every quiz result. */
  lemma ClearAuthKeepsHistory<U, X>(ls: LocalStorage<U, X>, email: string)
    ensures GetUser(ClearAuth(ls)).None?
    ensures History(ClearAuth(ls)) == History(ls)
    ensures GetLatestResult(ClearAuth(ls), email) == GetLatestResult(ls, email)
  {
  }
}
