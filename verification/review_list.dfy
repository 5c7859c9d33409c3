/**
 * The per-review updates the feed and the profile's review list apply
 * after a like toggle or a new comment: only the review whose id prints
 * the same as the event's id changes.
 */
module ReviewList {
  import opened Wrappers
  import opened Text
  import opened Js
  import ReviewController

  /** A review as a list shows it; `other` stands for every field these updates leave alone. */
  datatype ListedReview<T> = ListedReview(id: int, isLiked: bool, likeCount: int, commentCount: int, other: T)

  /** `String(r.id) === String(reviewId)`. */
  predicate SameId(a: int, b: int) {
    IntToString(a) == IntToString(b)
  }

  /** Comparing the printed ids is comparing the ids. */
  lemma SameIdIsEquality(a: int, b: int)
    ensures SameId(a, b) <==> a == b
  {
    if SameId(a, b) {
      IntToStringInjective(a, b);
    }
  }

  /** The server's like state written into the review with that id. */
  function SetLike<T>(reviews: seq<ListedReview<T>>, reviewId: int, status: ReviewController.LikeStatus): (r: seq<ListedReview<T>>)
    ensures |r| == |reviews|
    ensures forall i :: 0 <= i < |r| ==> r[i].id == reviews[i].id && r[i].other == reviews[i].other && r[i].commentCount == reviews[i].commentCount
    ensures forall i :: 0 <= i < |r| && reviews[i].id != reviewId ==> r[i] == reviews[i]
    ensures forall i :: 0 <= i < |r| && reviews[i].id == reviewId ==> r[i].isLiked == status.liked && r[i].likeCount == status.count
  {
    forall i | 0 <= i < |reviews| {
      SameIdIsEquality(reviews[i].id, reviewId);
    }
    seq(|reviews|, i requires 0 <= i < |reviews| =>
      if SameId(reviews[i].id, reviewId) then reviews[i].(isLiked := status.liked, likeCount := status.count) else reviews[i])
  }

  /** `handleCommentAdded`: the new count written into the review with that id. */
  function SetCommentCount<T>(reviews: seq<ListedReview<T>>, reviewId: int, newCount: int): (r: seq<ListedReview<T>>)
    ensures |r| == |reviews|
    ensures forall i :: 0 <= i < |r| && reviews[i].id != reviewId ==> r[i] == reviews[i]
    ensures forall i :: 0 <= i < |r| && reviews[i].id == reviewId ==> r[i] == reviews[i].(commentCount := newCount)
  {
    forall i | 0 <= i < |reviews| {
      SameIdIsEquality(reviews[i].id, reviewId);
    }
    seq(|reviews|, i requires 0 <= i < |reviews| =>
      if SameId(reviews[i].id, reviewId) then reviews[i].(commentCount := newCount) else reviews[i])
  }

  /** Updates for different reviews do not interfere, and repeating one changes nothing more. */
  lemma UpdatesCommute<T>(reviews: seq<ListedReview<T>>, a: int, b: int, status: ReviewController.LikeStatus, n: int)
    ensures SetCommentCount(SetLike(reviews, a, status), b, n) == SetLike(SetCommentCount(reviews, b, n), a, status)
    ensures SetLike(SetLike(reviews, a, status), a, status) == SetLike(reviews, a, status)
    ensures SetCommentCount(SetCommentCount(reviews, b, n), b, n) == SetCommentCount(reviews, b, n)
  {
  }

  /**
   * `handleLikeToggle`: without a (truthy) user id nothing is sent and
   * nothing changes; a failed request changes nothing; otherwise the reply
   * is written into the review. The second component says whether the
   * request was sent.
   */
  function HandleLikeToggle<T>(reviews: seq<ListedReview<T>>, userId: Option<int>, reviewId: int,
                               reply: Option<ReviewController.LikeStatus>): (r: (seq<ListedReview<T>>, bool))
    ensures r.1 <==> Truthy(userId)
    ensures !r.1 || reply.None? ==> r.0 == reviews
    ensures r.1 && reply.Some? ==> r.0 == SetLike(reviews, reviewId, reply.value)
  {
    if !Truthy(userId) then (reviews, false)
    else match reply
      case None => (reviews, true)
      case Some(status) => (SetLike(reviews, reviewId, status), true)
  }

  /**
   * After a toggle answered by the server, the list agrees with the server's
   * like table: the review shows whether this user now likes it and how
   * many likes it has.
   */
  lemma ToggleAgreesWithServer<T>(reviews: seq<ListedReview<T>>, likes: set<ReviewController.Like>, userId: int, reviewId: int, i: nat)
    requires userId != 0
    requires i < |reviews| && reviews[i].id == reviewId
    ensures var server := ReviewController.ToggleLike(likes, Some(userId), reviewId);
      var shown := HandleLikeToggle(reviews, Some(userId), reviewId, Some(server.1.value)).0;
      && (shown[i].isLiked <==> ReviewController.Like(userId, reviewId) in server.0)
      && shown[i].likeCount == |ReviewController.LikesOf(server.0, reviewId)|
  {
  }

  /** A keyword as the keywords endpoint lists it. */
  datatype Keyword = Keyword(code: string, text: string)

  /**
   * The code-to-text map both tabs build by writing the keywords in list
   * order, so a later entry for a code overwrites an earlier one.
   */
  function KeywordMap(ks: seq<Keyword>): (m: map<string, string>)
    ensures m.Keys == set i | 0 <= i < |ks| :: ks[i].code
    decreases |ks|
  {
    if ks == [] then map[]
    else
      var init := ks[..|ks| - 1];
      var rest := KeywordMap(init);
      assert forall i :: 0 <= i < |init| ==> init[i] == ks[i];
      rest[ks[|ks| - 1].code := ks[|ks| - 1].text]
  }

  /** A code maps to the text of its last entry in the list. */
  lemma {:induction false} KeywordMapLastWins(ks: seq<Keyword>, i: nat)
    requires i < |ks|
    requires forall j :: i < j < |ks| ==> ks[j].code != ks[i].code
    ensures ks[i].code in KeywordMap(ks) && KeywordMap(ks)[ks[i].code] == ks[i].text
    decreases |ks|
  {
    if i < |ks| - 1 {
      var init := ks[..|ks| - 1];
      KeywordMapLastWins(init, i);
    }
  }
}
