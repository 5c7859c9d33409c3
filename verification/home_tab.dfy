/**
 * The home feed's infinite scroll: the first load, the "load more" guard,
 * how a received page joins the list, and when the list stops asking for
 * more. The server's answer for page `p` is the window of 15 reviews at
 * offset `(p - 1) * 15` of the feed order, as `getFeed` computes it.
 */
module HomeTab {
  import opened Wrappers
  import opened Js
  import ReviewController
  import opened ReviewList
  import Storage
  import Session

  /** The feed's state: the reviews shown, the last page asked for, and two flags. */
  datatype Feed<T> = Feed(items: seq<T>, page: nat, hasMore: bool, loading: bool)

  /** The state at mount: nothing shown, page 1, more to come, loading. */
  function Start<T>(): Feed<T> {
    Feed([], 1, true, true)
  }

  /**
   * `fetchFeed(userId, pageNum)` once the answer is in: page 1 replaces the
   * list and any other page is appended; a page shorter than 15 ends the
   * scrolling for good. `None` is a request that threw; it changes nothing.
   */
  function ReceivePage<T>(s: Feed<T>, pageNum: int, data: Option<seq<T>>): (r: Feed<T>)
    ensures data.None? ==> r == s
    ensures data.Some? && pageNum == 1 ==> r.items == data.value
    ensures data.Some? && pageNum != 1 ==> r.items == s.items + data.value
    ensures data.Some? ==> (r.hasMore <==> s.hasMore && |data.value| >= ReviewController.FeedLimit)
    ensures r.page == s.page && r.loading == s.loading
  {
    match data
    case None => s
    case Some(page) =>
      var items := if pageNum == 1 then page else s.items + page;
      s.(items := items, hasMore := s.hasMore && |page| >= ReviewController.FeedLimit)
  }

  /**
   * `handleLoadMore`: only when not loading, with more to come and a
   * (truthy) user id, the page number moves on and that page is requested
   * (the second component).
   */
  function LoadMore<T>(s: Feed<T>, userId: Option<int>): (r: (Feed<T>, Option<nat>))
    ensures r.1.Some? <==> !s.loading && s.hasMore && Truthy(userId)
    ensures r.1.Some? ==> r.1.value == s.page + 1 && r.0 == s.(page := s.page + 1)
    ensures r.1.None? ==> r.0 == s
  {
    if !s.loading && s.hasMore && Truthy(userId) then (s.(page := s.page + 1), Some(s.page + 1))
    else (s, None)
  }

  /** Once a short page has arrived, nothing asks for more. */
  lemma ExhaustedStaysExhausted<T>(s: Feed<T>, pageNum: int, data: Option<seq<T>>, userId: Option<int>)
    requires !s.hasMore
    ensures !ReceivePage(s, pageNum, data).hasMore
    ensures LoadMore(s, userId).1.None?
  {
  }

  /** What the server answers for page `p`. */
  function ServerPage<T>(all: seq<T>, p: nat): seq<T>
    requires p >= 1
  {
    ReviewController.Window(all, (p - 1) * ReviewController.FeedLimit)
  }

  /**
   * One "load more" answered by the server, with the handler reading the
   * current page: the component as intended. As written the observer keeps
   * an older handler; see `ScrollAsWritten`.
   */
  function Scroll<T>(s: Feed<T>, all: seq<T>, userId: Option<int>): Feed<T> {
    var (next, request) := LoadMore(s, userId);
    match request
    case None => next
    case Some(p) => ReceivePage(next, p, Some(ServerPage(all, p)))
  }

  /** `k` loads in a row. */
  function ScrollTimes<T>(s: Feed<T>, all: seq<T>, userId: Option<int>, k: nat): Feed<T>
    decreases k
  {
    if k == 0 then s else ScrollTimes(Scroll(s, all, userId), all, userId, k - 1)
  }

  /**
   * The feed as the page's intersection observer sees it. The observer's
   * callback calls the `handleLoadMore` of the render in which its effect
   * last ran, and that effect re-runs only when `hasMore` or `loading`
   * changes, so the callback's page number is `handlerPage`, not the
   * current one. `hasMore` and `loading` it always sees current: a change
   * to either re-runs the effect.
   */
  datatype Observed<T> = Observed(feed: Feed<T>, handlerPage: nat)

  /** The effect re-runs, picking up the current page, exactly when `hasMore` or `loading` changed. */
  function Rerun<T>(before: Feed<T>, after: Feed<T>, handlerPage: nat): (r: Observed<T>)
    ensures r.feed == after
    ensures (after.hasMore == before.hasMore && after.loading == before.loading) ==> r.handlerPage == handlerPage
    ensures (after.hasMore != before.hasMore || after.loading != before.loading) ==> r.handlerPage == after.page
  {
    if after.hasMore != before.hasMore || after.loading != before.loading then Observed(after, after.page)
    else Observed(after, handlerPage)
  }

  /**
   * The observer after the first load: its effect ran when `loading` went
   * false, and the first load never moves the page, so the handler holds
   * the page the load left.
   */
  function Mounted<T>(feed: Feed<T>): (r: Observed<T>)
    ensures r.feed == feed && r.handlerPage == feed.page
  {
    Observed(feed, feed.page)
  }

  /**
   * One intersection as written: the callback checks `hasMore` and runs the
   * captured handler, which asks for `handlerPage + 1`, sets the page to it,
   * and receives the server's answer; then the effect re-runs if that
   * answer ended the scrolling.
   */
  function ScrollAsWritten<T>(o: Observed<T>, all: seq<T>, userId: Option<int>): (r: Observed<T>)
    ensures !o.feed.hasMore ==> r == o
  {
    if !o.feed.hasMore then o
    else
      var (next, request) := LoadMore(o.feed.(page := o.handlerPage), userId);
      match request
      case None => o
      case Some(p) => Rerun(o.feed, ReceivePage(next, p, Some(ServerPage(all, p))), o.handlerPage)
  }

  /** `k` intersections in a row, as written. */
  function ScrollTimesAsWritten<T>(o: Observed<T>, all: seq<T>, userId: Option<int>, k: nat): Observed<T>
    decreases k
  {
    if k == 0 then o else ScrollTimesAsWritten(ScrollAsWritten(o, all, userId), all, userId, k - 1)
  }

  /**
   * The stale handler is the only difference: while the handler's page is
   * the current one, an intersection as written does what `Scroll` does.
   */
  lemma FreshHandlerScrolls<T>(o: Observed<T>, all: seq<T>, userId: Option<int>)
    requires o.handlerPage == o.feed.page
    ensures ScrollAsWritten(o, all, userId).feed == Scroll(o.feed, all, userId)
  {
  }

  /** `w` repeated `k` times. */
  function Repeat<T>(w: seq<T>, k: nat): (r: seq<T>)
    ensures |r| == k * |w|
  {
    if k == 0 then [] else Repeat(w, k - 1) + w
  }

  /**
   * As written, with the corrected first load and a feed of at least 30
   * reviews, page 2 is asked for again at every intersection: after `k`
   * of them the list is page 1 followed by `k` copies of page 2, and the
   * component still asks for more.
   */
  lemma {:induction false} StaleHandlerRepeatsPageTwo<T>(ks: seq<Keyword>, all: seq<T>, userId: int, k: nat)
    requires userId != 0 && |all| >= 2 * ReviewController.FeedLimit
    ensures var o := ScrollTimesAsWritten(Mounted(Init(Some(ks), Some(userId), Some(ServerPage(all, 1))).feed), all, Some(userId), k);
      && o.feed.items == ServerPage(all, 1) + Repeat(ServerPage(all, 2), k)
      && o.feed.hasMore && o.handlerPage == 1
  {
    var o0 := Mounted(Init(Some(ks), Some(userId), Some(ServerPage(all, 1))).feed);
    assert |ServerPage(all, 1)| == ReviewController.FeedLimit;
    assert o0 == Observed(Feed(ServerPage(all, 1), 1, true, false), 1);
    assert ServerPage(all, 1) + Repeat(ServerPage(all, 2), 0) == ServerPage(all, 1);
    RepeatPageTwo(all, userId, k, 0);
  }

  /** From `j` copies of page 2 on, `k` more intersections add `k` more copies. */
  lemma {:induction false} RepeatPageTwo<T>(all: seq<T>, userId: int, k: nat, j: nat)
    requires userId != 0 && |all| >= 2 * ReviewController.FeedLimit
    ensures var start := Observed(Feed(ServerPage(all, 1) + Repeat(ServerPage(all, 2), j), if j == 0 then 1 else 2, true, false), 1);
      ScrollTimesAsWritten(start, all, Some(userId), k)
        == Observed(Feed(ServerPage(all, 1) + Repeat(ServerPage(all, 2), j + k), if j + k == 0 then 1 else 2, true, false), 1)
    decreases k
  {
    if k > 0 {
      var w := ServerPage(all, 2);
      var items := ServerPage(all, 1) + Repeat(w, j);
      StaleHandlerStep(items, if j == 0 then 1 else 2, all, userId);
      assert items + w == ServerPage(all, 1) + Repeat(w, j + 1);
      RepeatPageTwo(all, userId, k - 1, j + 1);
    }
  }

  /** With the handler stuck at page 1 and page 2 full, an intersection appends page 2 and changes no flag. */
  lemma StaleHandlerStep<T>(items: seq<T>, page: nat, all: seq<T>, userId: int)
    requires userId != 0 && |all| >= 2 * ReviewController.FeedLimit
    ensures ScrollAsWritten(Observed(Feed(items, page, true, false), 1), all, Some(userId))
         == Observed(Feed(items + ServerPage(all, 2), 2, true, false), 1)
  {
    assert |ServerPage(all, 2)| == ReviewController.FeedLimit;
  }

  /**
   * The key the first load reads the signed-in user from. The session keeps
   * the user id under `Session.UserIdKey` ("mimy_user_id") instead.
   */
  const StoredUserKey := "mimy_user"

  /**
   * What the first load leaves behind: the feed, the keyword map, and the
   * feed request made, as (user, page).
   */
  datatype Loaded<T, I> = Loaded(feed: Feed<T>, keywords: map<string, string>, request: Option<(I, nat)>)

  /**
   * The first load as written: the keywords are fetched first (a failure
   * there skips everything else); then only when `StoredUserKey` holds a
   * user is page 1 requested, with that user's email in place of the id.
   */
  function InitAsWritten<T>(keywords: Option<seq<Keyword>>, storedEmail: Option<string>, data: Option<seq<T>>): (r: Loaded<T, string>)
    ensures !r.feed.loading && r.feed.page == 1
    ensures r.request.Some? <==> keywords.Some? && storedEmail.Some?
    ensures r.request.Some? ==> r.request.value == (storedEmail.value, 1) && r.feed == ReceivePage(Start<T>(), 1, data).(loading := false)
    ensures r.request.None? ==> r.feed == Start<T>().(loading := false)
    ensures keywords.Some? ==> r.keywords == KeywordMap(keywords.value)
  {
    match keywords
    case None => Loaded(Start().(loading := false), map[], None)
    case Some(ks) =>
      match storedEmail
      case None => Loaded(Start().(loading := false), KeywordMap(ks), None)
      case Some(email) => Loaded(ReceivePage(Start(), 1, data).(loading := false), KeywordMap(ks), Some((email, 1)))
  }

  /** Every write the client makes to local storage. */
  datatype StorageWrite<U, Q, X> =
    | SaveStoredUser(user: U)
    | SaveStoredResult(result: Storage.QuizResult<Q>)
    | ClearStoredUser
    | SignIn(row: Session.ServerUser<X>)
    | Restore(fetched: Option<Session.ServerUser<X>>)
    | SignOut
    | SaveProfile(profile: Session.ClientUser<X>, updated: Option<Session.ServerUser<X>>)

  function ApplyWrite<U, Q, X>(st: Session.Session<U, Q, X>, w: StorageWrite<U, Q, X>): Session.Session<U, Q, X> {
    match w
    case SaveStoredUser(u) => st.(ls := Storage.SaveUser(st.ls, u))
    case SaveStoredResult(r) => st.(ls := Storage.SaveQuizResult(st.ls, r))
    case ClearStoredUser => st.(ls := Storage.ClearAuth(st.ls))
    case SignIn(row) => Session.Login(st, row).0
    case Restore(fetched) => Session.InitUser(st, fetched).0
    case SignOut => Session.Logout(st)
    case SaveProfile(user, row) => Session.SaveUser(st, user, row).0
  }

  function ApplyWrites<U, Q, X>(st: Session.Session<U, Q, X>, ws: seq<StorageWrite<U, Q, X>>): Session.Session<U, Q, X>
    decreases |ws|
  {
    if ws == [] then st else ApplyWrites(ApplyWrite(st, ws[0]), ws[1..])
  }

  /**
   * No write the client makes ever puts anything under `StoredUserKey`: a
   * storage that starts without it never holds it, so the first load as
   * written always takes its no-user branch.
   */
  lemma {:induction false} NothingWritesStoredUserKey<U, Q, X>(st: Session.Session<U, Q, X>, ws: seq<StorageWrite<U, Q, X>>)
    requires StoredUserKey !in st.ls
    ensures StoredUserKey !in ApplyWrites(st, ws).ls
    decreases |ws|
  {
    if ws != [] {
      assert StoredUserKey !in ApplyWrite(st, ws[0]).ls;
      NothingWritesStoredUserKey(ApplyWrite(st, ws[0]), ws[1..]);
    }
  }

  /**
   * As written, when no user is stored under that key, the first load
   * requests nothing and the first intersection asks for page 2: the newest
   * 15 reviews are never shown, and a feed of at most 15 reviews stays empty.
   */
  lemma AsWrittenSkipsFirstPage<T>(ks: seq<Keyword>, all: seq<T>, userId: int, k: nat)
    requires userId != 0
    ensures var first := ScrollAsWritten(Mounted(InitAsWritten<T>(Some(ks), None, None).feed), all, Some(userId));
      first.feed.items == ServerPage(all, 2)
    ensures |all| <= ReviewController.FeedLimit ==>
      ScrollTimesAsWritten(Mounted(InitAsWritten<T>(Some(ks), None, None).feed), all, Some(userId), k).feed.items == []
  {
    if |all| <= ReviewController.FeedLimit {
      AsWrittenStaysEmpty(ks, all, userId, k);
    }
  }

  lemma {:induction false} AsWrittenStaysEmpty<T>(ks: seq<Keyword>, all: seq<T>, userId: int, k: nat)
    requires userId != 0 && |all| <= ReviewController.FeedLimit
    ensures ScrollTimesAsWritten(Mounted(InitAsWritten<T>(Some(ks), None, None).feed), all, Some(userId), k).feed.items == []
  {
    var o0 := Mounted(InitAsWritten<T>(Some(ks), None, None).feed);
    if k > 0 {
      var o1 := ScrollAsWritten(o0, all, Some(userId));
      assert o1.feed == Feed([], 2, false, false);
      EmptyExhausted(o1, all, userId, k - 1);
    }
  }

  lemma {:induction false} EmptyExhausted<T>(o: Observed<T>, all: seq<T>, userId: int, k: nat)
    requires !o.feed.hasMore
    ensures ScrollTimesAsWritten(o, all, Some(userId), k) == o
    decreases k
  {
    if k > 0 {
      EmptyExhausted(o, all, userId, k - 1);
    }
  }

  /**
   * The corrected first load: after the keywords, page 1 for the signed-in
   * user's id, whenever there is one.
   */
  function Init<T>(keywords: Option<seq<Keyword>>, userId: Option<int>, data: Option<seq<T>>): (r: Loaded<T, int>)
    ensures !r.feed.loading && r.feed.page == 1
    ensures r.request.Some? <==> keywords.Some? && Truthy(userId)
    ensures r.request.Some? ==> r.request.value == (userId.value, 1) && r.feed == ReceivePage(Start<T>(), 1, data).(loading := false)
    ensures r.request.None? ==> r.feed == Start<T>().(loading := false)
    ensures keywords.Some? ==> r.keywords == KeywordMap(keywords.value)
  {
    match keywords
    case None => Loaded(Start().(loading := false), map[], None)
    case Some(ks) =>
      if Truthy(userId) then Loaded(ReceivePage(Start(), 1, data).(loading := false), KeywordMap(ks), Some((userId.value, 1)))
      else Loaded(Start().(loading := false), KeywordMap(ks), None)
  }

  /**
   * What the list holds between scrolls: every window up to the current
   * page, and when scrolling has stopped those windows reach the end.
   */
  predicate ShowsWindows<T(==)>(s: Feed<T>, all: seq<T>) {
    && !s.loading && s.page >= 1
    && s.items == ReviewController.FirstWindows(all, s.page)
    && (!s.hasMore ==> s.page * ReviewController.FeedLimit >= |all|)
  }

  lemma InitShowsWindows<T>(ks: seq<Keyword>, all: seq<T>, userId: int)
    requires userId != 0
    ensures ShowsWindows(Init(Some(ks), Some(userId), Some(ServerPage(all, 1))).feed, all)
  {
    assert ReviewController.FirstWindows(all, 1) == [] + ServerPage(all, 1);
  }

  lemma ScrollShowsWindows<T>(s: Feed<T>, all: seq<T>, userId: int)
    requires userId != 0 && ShowsWindows(s, all)
    ensures ShowsWindows(Scroll(s, all, Some(userId)), all)
  {
    if s.hasMore {
      var w := ServerPage(all, s.page + 1);
      assert s.page * ReviewController.FeedLimit == (s.page + 1 - 1) * ReviewController.FeedLimit;
      assert ReviewController.FirstWindows(all, s.page + 1) == s.items + w;
    }
  }

  lemma {:induction false} ScrollTimesShowsWindows<T>(s: Feed<T>, all: seq<T>, userId: int, k: nat)
    requires userId != 0 && ShowsWindows(s, all)
    ensures ShowsWindows(ScrollTimes(s, all, Some(userId), k), all)
    decreases k
  {
    if k > 0 {
      ScrollShowsWindows(s, all, userId);
      ScrollTimesShowsWindows(Scroll(s, all, Some(userId)), all, userId, k - 1);
    }
  }

  /**
   * With the corrected first load, after any number of scrolls the list is
   * the start of the feed order with nothing skipped, and once scrolling has
   * stopped it is the whole feed.
   */
  lemma ScrollShowsFeedPrefix<T>(ks: seq<Keyword>, all: seq<T>, userId: int, k: nat)
    requires userId != 0
    ensures var s := ScrollTimes(Init(Some(ks), Some(userId), Some(ServerPage(all, 1))).feed, all, Some(userId), k);
      && |s.items| <= |all| && s.items == all[..|s.items|]
      && (!s.hasMore ==> s.items == all)
  {
    var s0 := Init(Some(ks), Some(userId), Some(ServerPage(all, 1))).feed;
    InitShowsWindows(ks, all, userId);
    ScrollTimesShowsWindows(s0, all, userId, k);
    var s := ScrollTimes(s0, all, Some(userId), k);
    ReviewController.WindowsTile(all, s.page);
  }
}
