/**
 * The client's session: the signed-in user's id kept in local storage
 * under "mimy_user_id", and the current user held in memory. A page load
 * starts with no current user; `InitUser` restores it from the stored id.
 */
module Session {
  import opened Wrappers
  import opened Text
  import opened Js
  import opened Storage

  /**
   * A user row as the server returns it (`SELECT *`), with its own
   * `profileImage` column; `birthDate` is the `birth_date` column and `rest`
   * stands for the columns the client never reads.
   */
  datatype ServerUser<X> = ServerUser(id: int, email: string, nickname: Option<string>, bio: Option<string>,
                                      photo: Option<string>, profileImage: Option<string>, birthDate: Option<string>,
                                      gender: Option<string>, rest: X)

  /**
   * The client's user: the server row spread into it, then the two
   * client-named properties. `profileImage` replaces the row's own
   * `profileImage` property; `birthDate` is a property the row lacks. The
   * gender is the server row's own field.
   */
  datatype ClientUser<X> = ClientUser(server: ServerUser<X>, profileImage: Option<string>, birthDate: Option<string>)

  /** The session: local storage and the module's `currentUser`. */
  datatype Session<U, Q, X> = Session(ls: LocalStorage<U, Q>, current: Option<ClientUser<X>>)

  const UserIdKey := "mimy_user_id"

  /** The transformation `login` and `initUser` apply to a server row. */
  function FromServer<X>(u: ServerUser<X>): (c: ClientUser<X>)
    ensures c.server == u && c.profileImage == u.photo && c.birthDate == u.birthDate
  {
    ClientUser(u, u.photo, u.birthDate)
  }

  /** The stored id as text; `""` when nothing (or something else) is stored. */
  function StoredIdText<U, Q>(ls: LocalStorage<U, Q>): string {
    if UserIdKey in ls && ls[UserIdKey].Text? then ls[UserIdKey].text else ""
  }

  /**
   * `Number(localStorage.getItem(USER_KEY))`: no entry reads as 0, the
   * stored text as the integer it spells, and `None` is NaN.
   */
  function StoredId<U, Q>(ls: LocalStorage<U, Q>): Option<int> {
    if UserIdKey !in ls then Some(0)
    else if ls[UserIdKey].Text? then ParseInt(ls[UserIdKey].text)
    else None
  }

  /**
   * `login`, once the server has answered with the found or created user:
   * the id is stored and the transformed user becomes the current one.
   */
  function Login<U, Q, X>(st: Session<U, Q, X>, user: ServerUser<X>): (r: (Session<U, Q, X>, ClientUser<X>))
    ensures r.1 == FromServer(user) && r.0.current == Some(r.1)
    ensures r.0.ls.Keys == st.ls.Keys + {UserIdKey}
    ensures forall k :: k in st.ls && k != UserIdKey ==> r.0.ls[k] == st.ls[k]
    ensures StoredId(r.0.ls) == Some(user.id)
  {
    ParseIntToString(user.id);
    (Session(st.ls[UserIdKey := Text(IntToString(user.id))], Some(FromServer(user))), FromServer(user))
  }

  /**
   * `initUser`. With no stored id there is no request and no user (the
   * third component says whether the server was asked). `fetched` is the
   * server's answer, `None` when the request failed: the stored id is then
   * dropped.
   */
  function InitUser<U, Q, X>(st: Session<U, Q, X>, fetched: Option<ServerUser<X>>): (r: (Session<U, Q, X>, Option<ClientUser<X>>, bool))
    ensures r.2 <==> StoredIdText(st.ls) != ""
    ensures !r.2 ==> r.0 == st && r.1.None?
    ensures r.2 && fetched.None? ==> r.1.None? && r.0 == st.(ls := st.ls - {UserIdKey})
    ensures r.2 && fetched.Some? ==> r.1 == Some(FromServer(fetched.value)) && r.0 == st.(current := r.1)
    ensures r.0.ls.Keys <= st.ls.Keys
  {
    if StoredIdText(st.ls) == "" then (st, None, false)
    else match fetched
      case None => (st.(ls := st.ls - {UserIdKey}), None, true)
      case Some(u) => (st.(current := Some(FromServer(u))), Some(FromServer(u)), true)
  }

  /** The fields `saveUser` sends: nickname, bio, photo, birth_date and gender. */
  datatype UserUpdate = UserUpdate(nickname: Option<string>, bio: Option<string>, photo: Option<string>,
                                   birthDate: Option<string>, gender: Option<string>)

  /**
   * `saveUser(user)`: nothing without a current user. Otherwise the update
   * is sent for the stored id, and the server's row is spread over the
   * current user: every row column, `profileImage` included, replaces the
   * current value, while `birthDate`, which the row lacks, stays. `updated`
   * is `None` when the request failed, which leaves the session as it was.
   */
  function SaveUser<U, Q, X>(st: Session<U, Q, X>, user: ClientUser<X>, updated: Option<ServerUser<X>>)
    : (r: (Session<U, Q, X>, Option<(Option<int>, UserUpdate)>))
    ensures st.current.None? <==> r.1.None?
    ensures r.1.Some? ==> r.1.value.0 == StoredId(st.ls)
    ensures r.1.Some? ==> r.1.value.1.photo == user.profileImage && r.1.value.1.birthDate == user.birthDate
    ensures r.0.ls == st.ls
    ensures st.current.None? || updated.None? ==> r.0 == st
    ensures st.current.Some? && updated.Some? ==>
      r.0.current == Some(st.current.value.(server := updated.value, profileImage := updated.value.profileImage))
  {
    match st.current
    case None => (st, None)
    case Some(current) =>
      var payload := UserUpdate(user.server.nickname, user.server.bio, user.profileImage, user.birthDate, user.server.gender);
      match updated
      case None => (st, Some((StoredId(st.ls), payload)))
      case Some(row) => (st.(current := Some(current.(server := row, profileImage := row.profileImage))), Some((StoredId(st.ls), payload)))
  }

  /**
   * After a save, the current user carries the server's row, and its
   * `profileImage` is the row's `profileImage` column (the spread overwrites
   * it; `photo` is not re-read into it); only `birthDate` keeps its earlier
   * value.
   */
  lemma SaveSpreadsServerRow<U, Q, X>(st: Session<U, Q, X>, user: ClientUser<X>, row: ServerUser<X>)
    requires st.current.Some?
    ensures var c := SaveUser(st, user, Some(row)).0.current.value;
      && c.server == row
      && c.profileImage == row.profileImage
      && c.birthDate == st.current.value.birthDate
  {
  }

  /**
   * The user a save leaves in memory and the one a reload of the same row
   * restores share the row; their pictures agree exactly when the row's
   * `profileImage` column equals its `photo`, and their birth dates when
   * the earlier `birthDate` equals the row's `birth_date`.
   */
  lemma SaveThenReload<U, Q, X>(st: Session<U, Q, X>, user: ClientUser<X>, row: ServerUser<X>)
    requires st.current.Some?
    ensures var saved := SaveUser(st, user, Some(row)).0.current.value;
      var reloaded := FromServer(row);
      && saved.server == reloaded.server
      && (saved.profileImage == reloaded.profileImage <==> row.profileImage == row.photo)
      && (saved.birthDate == reloaded.birthDate <==> st.current.value.birthDate == row.birthDate)
  {
  }

  /** `getUser`: the current user. */
  function GetUser<U, Q, X>(st: Session<U, Q, X>): Option<ClientUser<X>> {
    st.current
  }

  const NoUserMessage := "No user logged in"

  /** `saveQuizResult`: the request is made for a truthy stored id, and otherwise it throws. */
  function SaveQuizResult<U, Q, X>(st: Session<U, Q, X>): (r: Result<int, string>)
    ensures r.Success? <==> Truthy(StoredId(st.ls))
    ensures r.Success? ==> Some(r.value) == StoredId(st.ls) && r.value != 0
    ensures r.Failure? ==> r.error == NoUserMessage
  {
    if Truthy(StoredId(st.ls)) then Success(StoredId(st.ls).value) else Failure(NoUserMessage)
  }

  /**
   * `getLatestResult`: the server's answer for a truthy stored id, and
   * `None` with no request otherwise. The second component says whether
   * the server was asked.
   */
  function GetLatestResult<U, Q, X, R>(st: Session<U, Q, X>, reply: Option<R>): (r: (Option<R>, bool))
    ensures r.1 <==> Truthy(StoredId(st.ls))
    ensures r.0 == (if r.1 then reply else None)
  {
    if Truthy(StoredId(st.ls)) then (reply, true) else (None, false)
  }

  /** `logout` (and `clearAuth`): the stored id and the current user are dropped. */
  function Logout<U, Q, X>(st: Session<U, Q, X>): (r: Session<U, Q, X>)
    ensures UserIdKey !in r.ls && r.current.None?
    ensures r.ls.Keys == st.ls.Keys - {UserIdKey}
    ensures forall k :: k in r.ls ==> r.ls[k] == st.ls[k]
  {
    Session(st.ls - {UserIdKey}, None)
  }

  /**
   * After `login`, a page reload restores the same user from the stored id,
   * and the quiz-result calls go to that user's id.
   */
  lemma LoginThenRestore<U, Q, X, R>(st: Session<U, Q, X>, user: ServerUser<X>, reply: Option<R>)
    requires user.id != 0
    ensures var reloaded: Session<U, Q, X> := Session(Login(st, user).0.ls, None);
      && InitUser(reloaded, Some(user)).1 == Some(FromServer(user))
      && InitUser(reloaded, Some(user)).2
      && SaveQuizResult(reloaded) == Success(user.id)
      && GetLatestResult(reloaded, reply) == (reply, true)
  {
    var reloaded: Session<U, Q, X> := Session(Login(st, user).0.ls, None);
    assert StoredIdText(reloaded.ls) == IntToString(user.id);
  }

  /**
   * After logout nothing is known: no current user, no latest result and no
   * request for it, a quiz save throws, and a reload restores nobody
   * without asking the server.
   */
  lemma LogoutForgets<U, Q, X, R>(st: Session<U, Q, X>, reply: Option<R>, fetched: Option<ServerUser<X>>)
    ensures var out := Logout(st);
      && GetUser(out).None?
      && GetLatestResult(out, reply) == (None, false)
      && SaveQuizResult(out) == Failure(NoUserMessage)
      && InitUser(out, fetched) == (out, None, false)
  {
  }

  /** A failed restore signs out for good: the next reload asks nothing. */
  lemma FailedRestoreForgetsId<U, Q, X>(st: Session<U, Q, X>, fetched: Option<ServerUser<X>>)
    ensures var after := InitUser(st, None).0;
      InitUser(after, fetched) == (after, None, false)
  {
  }
}
