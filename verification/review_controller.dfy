/**
 * The server's review controller over an in-memory picture of its SQLite
 * tables: `reviews` as a sequence of rows with an auto-increment counter,
 * the `rankings` index as a map keyed by (email, category) — the table's
 * UNIQUE(email, category) key — `likes` as a set of (user, review) pairs —
 * its UNIQUE(user_id, review_id) key — and `comments` as a sequence of rows.
 *
 * Each handler is a function from the tables and the request to the new
 * tables and the reply. Only the columns the handlers write or filter on
 * are kept.
 */
module ReviewController {
  import opened Wrappers
  import opened Arrays
  import opened Text
  import opened Js
  import opened Http
  import RankingEngine

  type RankingItem = RankingEngine.RankingItem

  /** A row of `reviews`. `rank` and `visitCount` are nullable columns. */
  datatype ReviewRow = ReviewRow(
    id: nat,
    email: string,
    establishmentName: string,
    category: string,
    rank: Option<int>,
    visitCount: Option<int>,
    createdAt: int)

  /** The `reviews` table and its AUTOINCREMENT counter. */
  datatype Reviews = Reviews(rows: seq<ReviewRow>, nextId: nat)

  /** Every id is below the counter and no two rows share one. */
  predicate ValidReviews(t: Reviews) {
    && (forall i :: 0 <= i < |t.rows| ==> t.rows[i].id < t.nextId)
    && (forall i, j :: 0 <= i < j < |t.rows| ==> t.rows[i].id != t.rows[j].id)
  }

  /** The request body fields of a create or an update; `None` is `undefined` or `null`. */
  datatype ReviewBody = ReviewBody(
    email: string,
    establishmentName: string,
    category: string,
    rank: Option<int>,
    visitCount: Option<int>)

  /** `rank || null`: a missing rank and a rank of 0 are both stored as NULL. */
  function StoredRank(rank: Option<int>): Option<int> {
    if Truthy(rank) then rank else None
  }

  /**
   * `createReview`: inserts one row under the next id and answers with that
   * id. A falsy rank is stored as NULL and a falsy visit count as 1.
   */
  function CreateReview(t: Reviews, body: ReviewBody, createdAt: int): (r: (Reviews, nat))
    requires ValidReviews(t)
    ensures ValidReviews(r.0)
    ensures |r.0.rows| == |t.rows| + 1 && r.0.rows[..|t.rows|] == t.rows
    ensures forall i :: 0 <= i < |t.rows| ==> t.rows[i].id != r.1
    ensures var row := r.0.rows[|t.rows|];
      && row.id == r.1
      && row.email == body.email && row.establishmentName == body.establishmentName
      && row.category == body.category
      && (row.rank.Some? <==> Truthy(body.rank))
      && (row.rank.Some? ==> row.rank == body.rank)
      && (Truthy(body.visitCount) ==> row.visitCount == body.visitCount)
      && (!Truthy(body.visitCount) ==> row.visitCount == Some(1))
  {
    var row := ReviewRow(t.nextId, body.email, body.establishmentName, body.category,
                         StoredRank(body.rank), Some(Or(body.visitCount, 1)), createdAt);
    (Reviews(t.rows + [row], t.nextId + 1), t.nextId)
  }

  /**
   * `updateReview`: overwrites the editable columns of the row with the
   * given id (email and creation time are not editable). The rank is stored
   * as `rank || null`, but the visit count is stored as sent, so a missing
   * one becomes NULL. The reply is a success whether or not a row matched.
   */
  function UpdateReview(t: Reviews, id: nat, body: ReviewBody): (r: (Reviews, Status))
    ensures r.1 == Ok
    ensures r.0.nextId == t.nextId && |r.0.rows| == |t.rows|
    ensures forall i :: 0 <= i < |t.rows| && t.rows[i].id != id ==> r.0.rows[i] == t.rows[i]
    ensures forall i :: 0 <= i < |t.rows| && t.rows[i].id == id ==>
      var row := r.0.rows[i];
      && row.id == id && row.email == t.rows[i].email && row.createdAt == t.rows[i].createdAt
      && row.establishmentName == body.establishmentName && row.category == body.category
      && (row.rank.Some? <==> Truthy(body.rank))
      && (row.rank.Some? ==> row.rank == body.rank)
      && row.visitCount == body.visitCount
  {
    var rows := seq(|t.rows|, i requires 0 <= i < |t.rows| =>
      if t.rows[i].id == id then
        t.rows[i].(establishmentName := body.establishmentName, category := body.category,
                   rank := StoredRank(body.rank), visitCount := body.visitCount)
      else t.rows[i]);
    (Reviews(rows, t.nextId), Ok)
  }

  /** An update keeps the table's ids valid. */
  lemma UpdateReviewKeepsIds(t: Reviews, id: nat, body: ReviewBody)
    requires ValidReviews(t)
    ensures ValidReviews(UpdateReview(t, id, body).0)
  {
  }

  // ---------------------------------------------------------------------------
  // updateRankings: the rankings index and the rank column of `reviews`
  // ---------------------------------------------------------------------------

  /** The category under which the absolute ranking is saved; it matches reviews of every category. */
  const Global := "GLOBAL"

  /** The `rankings` table: one JSON list per (email, category). */
  type RankingIndex = map<(string, string), seq<RankingItem>>

  /** Whether the UPDATE statement for `item` selects `row`. */
  predicate Selects(email: string, category: string, item: RankingItem, row: ReviewRow) {
    && row.email == email
    && row.establishmentName == item.establishmentName
    && (category == Global || row.category == category)
  }

  /** One `UPDATE reviews SET rank = ? WHERE …` statement. */
  function UpdateRank(rows: seq<ReviewRow>, email: string, category: string, item: RankingItem): (r: seq<ReviewRow>)
    ensures |r| == |rows|
    ensures forall i :: 0 <= i < |rows| ==> r[i].(rank := rows[i].rank) == rows[i]
  {
    seq(|rows|, i requires 0 <= i < |rows| =>
      if Selects(email, category, item, rows[i]) then rows[i].(rank := Some(item.rank)) else rows[i])
  }

  /**
   * The rows after the first `n` statements of the loop have run, in order;
   * a statement whose index is in `failing` reports an error and changes
   * nothing.
   */
  function SyncRanks(rows: seq<ReviewRow>, email: string, category: string,
                     items: seq<RankingItem>, failing: set<nat>, n: nat): (r: seq<ReviewRow>)
    requires n <= |items|
    ensures |r| == |rows|
    ensures forall i :: 0 <= i < |rows| ==> r[i].(rank := rows[i].rank) == rows[i]
  {
    if n == 0 then rows
    else
      var before := SyncRanks(rows, email, category, items, failing, n - 1);
      if n - 1 in failing then before else UpdateRank(before, email, category, items[n - 1])
  }

  /** Statement `j` ran and selected `row`. */
  predicate Applies(row: ReviewRow, email: string, category: string,
                    items: seq<RankingItem>, failing: set<nat>, j: nat)
    requires j < |items|
  {
    j !in failing && Selects(email, category, items[j], row)
  }

  /**
   * `updateRankings`: upserts the index entry of (email, category) unless
   * that statement fails, then runs one UPDATE per item. Both kinds of
   * statement failure are only logged: the reply is always a success.
   */
  function UpdateRankings(t: Reviews, index: RankingIndex, email: string, category: string,
                          items: seq<RankingItem>, indexFails: bool, failing: set<nat>): (r: (Reviews, RankingIndex, Status))
    ensures r.2 == Ok
    ensures r.0.nextId == t.nextId && |r.0.rows| == |t.rows|
    ensures forall i :: 0 <= i < |t.rows| ==> r.0.rows[i].(rank := t.rows[i].rank) == t.rows[i]
    ensures !indexFails ==> (email, category) in r.1 && r.1[(email, category)] == items
    ensures indexFails ==> r.1 == index
    ensures forall k :: k in index && k != (email, category) ==> k in r.1 && r.1[k] == index[k]
    ensures forall k :: k in r.1 ==> k in index || k == (email, category)
  {
    var rows := SyncRanks(t.rows, email, category, items, failing, |items|);
    var index' := if indexFails then index else index[(email, category) := items];
    (Reviews(rows, t.nextId), index', Ok)
  }

  /**
   * The loop's end state row by row: a row keeps its rank when no statement
   * that ran selected it, and otherwise holds the rank of the last such
   * statement.
   */
  lemma {:induction false} SyncRanksPointwise(rows: seq<ReviewRow>, email: string, category: string,
                                              items: seq<RankingItem>, failing: set<nat>, n: nat, i: nat)
    requires n <= |items| && i < |rows|
    ensures var row := SyncRanks(rows, email, category, items, failing, n)[i];
      && row.(rank := rows[i].rank) == rows[i]
      && ((forall j :: 0 <= j < n ==> !Applies(rows[i], email, category, items, failing, j)) ==> row.rank == rows[i].rank)
      && (forall j :: 0 <= j < n && Applies(rows[i], email, category, items, failing, j)
                      && (forall k :: j < k < n ==> !Applies(rows[i], email, category, items, failing, k))
                      ==> row.rank == Some(items[j].rank))
  {
    if n > 0 {
      SyncRanksPointwise(rows, email, category, items, failing, n - 1, i);
      SyncRanksStep(rows, email, category, items, failing, n, i);
    }
  }

  /** Statement `n - 1` sets row `i`'s rank exactly when it applies to that row. */
  lemma SyncRanksStep(rows: seq<ReviewRow>, email: string, category: string,
                      items: seq<RankingItem>, failing: set<nat>, n: nat, i: nat)
    requires 0 < n <= |items| && i < |rows|
    ensures var before := SyncRanks(rows, email, category, items, failing, n - 1)[i];
      SyncRanks(rows, email, category, items, failing, n)[i]
        == if Applies(rows[i], email, category, items, failing, n - 1)
           then before.(rank := Some(items[n - 1].rank)) else before
  {
    var before := SyncRanks(rows, email, category, items, failing, n - 1);
    assert Selects(email, category, items[n - 1], before[i]) == Selects(email, category, items[n - 1], rows[i]);
  }

  /**
   * With the 'GLOBAL' category, a row of the user whose establishment is
   * named by exactly one item gets that item's rank, whatever the row's
   * category, provided that item's statement ran.
   */
  lemma GlobalSyncIgnoresCategory(t: Reviews, index: RankingIndex, email: string,
                                  items: seq<RankingItem>, indexFails: bool, failing: set<nat>, i: nat, j: nat)
    requires i < |t.rows| && j < |items| && j !in failing
    requires t.rows[i].email == email && t.rows[i].establishmentName == items[j].establishmentName
    requires forall k :: 0 <= k < |items| && k != j ==> items[k].establishmentName != items[j].establishmentName
    ensures UpdateRankings(t, index, email, Global, items, indexFails, failing).0.rows[i].rank == Some(items[j].rank)
  {
    SyncRanksPointwise(t.rows, email, Global, items, failing, |items|, i);
    assert Applies(t.rows[i], email, Global, items, failing, j);
  }

  /**
   * With any other category, a row is changed only if it belongs to the
   * user, has that category and is named by an item; every other row keeps
   * its rank.
   */
  lemma CategorySyncLeavesOtherRows(t: Reviews, index: RankingIndex, email: string, category: string,
                                    items: seq<RankingItem>, indexFails: bool, failing: set<nat>, i: nat)
    requires i < |t.rows|
    requires
      || t.rows[i].email != email
      || (category != Global && t.rows[i].category != category)
      || (forall k :: 0 <= k < |items| ==> items[k].establishmentName != t.rows[i].establishmentName)
    ensures UpdateRankings(t, index, email, category, items, indexFails, failing).0.rows[i] == t.rows[i]
  {
    SyncRanksPointwise(t.rows, email, category, items, failing, |items|, i);
  }

  // ---------------------------------------------------------------------------
  // toggleLike
  // ---------------------------------------------------------------------------

  datatype Like = Like(userId: int, reviewId: int)

  /** `SELECT COUNT(*) FROM likes WHERE review_id = ?`. */
  function LikesOf(likes: set<Like>, reviewId: int): set<Like> {
    set l | l in likes && l.reviewId == reviewId
  }

  datatype LikeStatus = LikeStatus(liked: bool, count: nat)

  /**
   * `toggleLike`: a falsy user id is refused with 400. Otherwise an existing
   * like of that user on that review is deleted and the reply says
   * `liked: false`, and a missing one is inserted with `liked: true`; the
   * count is the review's number of likes afterwards.
   */
  function ToggleLike(likes: set<Like>, userId: Option<int>, reviewId: int): (r: (set<Like>, Result<LikeStatus, Status>))
    ensures !Truthy(userId) ==> r.0 == likes && r.1 == Failure(BadRequest)
    ensures Truthy(userId) ==>
      var l := Like(userId.value, reviewId);
      && r.1.Success?
      && (r.1.value.liked <==> l !in likes)
      && (l in r.0 <==> r.1.value.liked)
      && r.0 - {l} == likes - {l}
      && r.1.value.count == |LikesOf(r.0, reviewId)|
  {
    if !Truthy(userId) then (likes, Failure(BadRequest))
    else
      var l := Like(userId.value, reviewId);
      var likes' := if l in likes then likes - {l} else likes + {l};
      (likes', Success(LikeStatus(l !in likes, |LikesOf(likes', reviewId)|)))
  }

  /** Toggling the same like twice restores the like set. */
  lemma ToggleLikeTwice(likes: set<Like>, userId: Option<int>, reviewId: int)
    ensures ToggleLike(ToggleLike(likes, userId, reviewId).0, userId, reviewId).0 == likes
  {
  }

  /** A toggle moves the review's count by exactly one, up when liking and down when unliking. */
  lemma ToggleLikeCount(likes: set<Like>, userId: Option<int>, reviewId: int)
    requires Truthy(userId)
    ensures var s := ToggleLike(likes, userId, reviewId).1.value;
      s.count == |LikesOf(likes, reviewId)| + (if s.liked then 1 else -1)
  {
    var l := Like(userId.value, reviewId);
    var likes' := ToggleLike(likes, userId, reviewId).0;
    if l in likes {
      assert LikesOf(likes, reviewId) == LikesOf(likes', reviewId) + {l};
    } else {
      assert LikesOf(likes', reviewId) == LikesOf(likes, reviewId) + {l};
    }
  }

  // ---------------------------------------------------------------------------
  // getFeed paging
  // ---------------------------------------------------------------------------

  const FeedLimit := 15

  /** `parseInt(req.query.page) || 1`: a missing, unparsable or zero page is page 1. */
  function PageNumber(query: Option<string>): (page: int)
    ensures page != 0
  {
    match query
    case None => 1
    case Some(q) => Or(ParseInt(q), 1)
  }

  /** `(page - 1) * limit`, with SQLite treating a negative OFFSET as 0. */
  function FeedOffset(page: int): (offset: nat)
    ensures page >= 1 ==> offset == (page - 1) * FeedLimit
    ensures page < 1 ==> offset == 0
  {
    if page <= 1 then 0 else (page - 1) * FeedLimit
  }

  /** `ORDER BY r.created_at DESC`: newest first, ties in insertion order. */
  function NewestFirst(r: ReviewRow): int {
    -r.createdAt
  }

  /** The inner join with `users`: only reviews whose author has an account are in the feed. */
  function HasAuthor(users: set<string>): ReviewRow -> bool {
    (r: ReviewRow) => r.email in users
  }

  /** Every review the feed can show, in feed order. */
  function FeedOrder(rows: seq<ReviewRow>, users: set<string>): seq<ReviewRow> {
    SortBy(Filter(rows, HasAuthor(users)), NewestFirst)
  }

  /** `LIMIT 15 OFFSET offset`. */
  function Window<T>(all: seq<T>, offset: nat): (page: seq<T>)
    ensures |page| <= FeedLimit
    ensures offset >= |all| ==> page == []
    ensures offset < |all| ==> offset + |page| <= |all| && page == all[offset..offset + |page|]
    ensures |page| < FeedLimit ==> offset + |page| >= |all|
  {
    if offset >= |all| then []
    else if offset + FeedLimit <= |all| then all[offset..offset + FeedLimit]
    else all[offset..]
  }

  /** `getFeed`: the window of the feed order that the page number selects. */
  function GetFeed(rows: seq<ReviewRow>, users: set<string>, query: Option<string>): (page: seq<ReviewRow>)
    ensures |page| <= FeedLimit
  {
    Window(FeedOrder(rows, users), FeedOffset(PageNumber(query)))
  }

  /** The page number the client sends as `String(page)` is read back as that page. */
  lemma PageNumberReadsClientPage(page: int)
    requires page != 0
    ensures PageNumber(Some(IntToString(page))) == page
  {
    ParseIntToString(page);
  }

  /** The concatenation of pages 1 to `k` as the client requests them. */
  function FirstPages(rows: seq<ReviewRow>, users: set<string>, k: nat): seq<ReviewRow> {
    if k == 0 then [] else FirstPages(rows, users, k - 1) + GetFeed(rows, users, Some(IntToString(k)))
  }

  /** The concatenation of the first `k` windows of 15. */
  function FirstWindows<T>(all: seq<T>, k: nat): seq<T> {
    if k == 0 then [] else FirstWindows(all, k - 1) + Window(all, (k - 1) * FeedLimit)
  }

  /** The windows at offsets 0, 15, 30, … tile the sequence. */
  lemma {:induction false} WindowsTile<T>(all: seq<T>, k: nat)
    ensures var n := if k * FeedLimit <= |all| then k * FeedLimit else |all|;
      FirstWindows(all, k) == all[..n]
  {
    if k > 0 {
      var before := (k - 1) * FeedLimit;
      assert k * FeedLimit == before + FeedLimit;
      WindowsTile(all, k - 1);
      var m := if before <= |all| then before else |all|;
      var n := if before + FeedLimit <= |all| then before + FeedLimit else |all|;
      assert Window(all, before) == all[m..n];
      assert all[..m] + all[m..n] == all[..n];
    }
  }

  lemma {:induction false} FirstPagesAreWindows(rows: seq<ReviewRow>, users: set<string>, k: nat)
    ensures FirstPages(rows, users, k) == FirstWindows(FeedOrder(rows, users), k)
  {
    if k > 0 {
      FirstPagesAreWindows(rows, users, k - 1);
      PageNumberReadsClientPage(k);
    }
  }

  /**
   * Pages 1, 2, … tile the feed: the first `k` pages, concatenated, are the
   * first `15 k` reviews of the feed order (or all of them).
   */
  lemma FeedPagesTile(rows: seq<ReviewRow>, users: set<string>, k: nat)
    ensures var all := FeedOrder(rows, users);
      var n := if k * FeedLimit <= |all| then k * FeedLimit else |all|;
      FirstPages(rows, users, k) == all[..n]
  {
    FirstPagesAreWindows(rows, users, k);
    WindowsTile(FeedOrder(rows, users), k);
  }

  // ---------------------------------------------------------------------------
  // deleteComment
  // ---------------------------------------------------------------------------

  datatype Comment = Comment(id: nat, reviewId: int, userId: int, text: string)

  /** `WHERE id = ? AND user_id = ?`; a missing user id binds NULL, which matches nothing. */
  predicate Deletes(commentId: nat, userId: Option<int>, c: Comment) {
    c.id == commentId && userId == Some(c.userId)
  }

  function Survives(commentId: nat, userId: Option<int>): Comment -> bool {
    (c: Comment) => !Deletes(commentId, userId, c)
  }

  /**
   * `deleteComment`: removes the comment only when both its id and its
   * author match, and answers 404 when nothing was removed.
   */
  function DeleteComment(comments: seq<Comment>, commentId: nat, userId: Option<int>): (r: (seq<Comment>, Status))
    ensures r.1 == NotFound <==> forall i :: 0 <= i < |comments| ==> !Deletes(commentId, userId, comments[i])
    ensures r.1 == NotFound || r.1 == Ok
    ensures forall i :: 0 <= i < |r.0| ==> !Deletes(commentId, userId, r.0[i])
  {
    var kept := Filter(comments, Survives(commentId, userId));
    if |kept| == |comments| then
      FilterKeepsAllCount(comments, Survives(commentId, userId));
      (kept, NotFound)
    else
      FilterDropsOne(comments, Survives(commentId, userId));
      (kept, Ok)
  }

  /** The filter keeps its whole input exactly when every element passes. */
  lemma {:induction false} FilterKeepsAllCount<T>(s: seq<T>, p: T -> bool)
    requires |Filter(s, p)| == |s|
    ensures forall i :: 0 <= i < |s| ==> p(s[i])
  {
    if s != [] {
      FilterKeepsAllCount(s[1..], p);
      assert forall i :: 1 <= i < |s| ==> s[i] == s[1..][i - 1];
    }
  }

  /** If the filter drops something, some element fails the predicate. */
  lemma FilterDropsOne<T>(s: seq<T>, p: T -> bool)
    requires |Filter(s, p)| < |s|
    ensures exists i :: 0 <= i < |s| && !p(s[i])
  {
    if forall i :: 0 <= i < |s| ==> p(s[i]) {
      FilterKeepsAll(s, p);
    }
  }

  /**
   * A delete removes only the matching comment: every other comment is
   * still there, and no comment appears that was not there before. Without
   * a user id nothing is ever removed.
   */
  lemma DeleteCommentKeepsOthers(comments: seq<Comment>, commentId: nat, userId: Option<int>)
    ensures var r := DeleteComment(comments, commentId, userId).0;
      && (forall i :: 0 <= i < |comments| && !Deletes(commentId, userId, comments[i]) ==> comments[i] in r)
      && (forall c :: c in r ==> c in comments)
      && (userId.None? ==> r == comments)
  {
    var p := Survives(commentId, userId);
    forall i | 0 <= i < |comments| && !Deletes(commentId, userId, comments[i]) {
      FilterKeeps(comments, p, i);
    }
    forall c | c in Filter(comments, p) {
      FilterMember(comments, p, c);
    }
    if userId.None? {
      FilterKeepsAll(comments, p);
    }
  }
}
