/**
 * The review card's logic: the English ordinal suffix shown after a rank,
 * the guards that decide whether the rank badge and the "read more" button
 * appear, and the optimistic like button.
 */
module ReviewCard {
  import opened Wrappers
  import opened Text
  import opened Js

  /** `["th", "st", "nd", "rd"][i]`, `undefined` outside the array. */
  function Suffixes(i: int): Option<string> {
    if i == 0 then Some("th")
    else if i == 1 then Some("st")
    else if i == 2 then Some("nd")
    else if i == 3 then Some("rd")
    else None
  }

  /**
   * `getOrdinalSuffix(n)`: with `v = n % 100`, the suffix at index
   * `(v - 20) % 10`, else the one at index `v`, else "th". Both remainders
   * truncate toward zero; every suffix is a non-empty string, so only a
   * missing entry falls through.
   */
  function OrdinalSuffix(n: int): (s: string)
    ensures s in {"th", "st", "nd", "rd"}
  {
    var v := Rem(n, 100);
    match Suffixes(Rem(v - 20, 10))
    case Some(s) => s
    case None =>
      match Suffixes(v)
      case Some(s) => s
      case None => "th"
  }

  /** The English rule: 11th, 12th, 13th; otherwise 1st, 2nd, 3rd by the last digit; otherwise th. */
  function EnglishOrdinal(n: nat): string {
    if n % 100 == 11 || n % 100 == 12 || n % 100 == 13 then "th"
    else if n % 10 == 1 then "st"
    else if n % 10 == 2 then "nd"
    else if n % 10 == 3 then "rd"
    else "th"
  }

  /** For every rank that can be shown (any natural number) the card prints the English suffix. */
  lemma OrdinalSuffixIsEnglish(n: nat)
    ensures OrdinalSuffix(n) == EnglishOrdinal(n)
  {
    var v := n % 100;
    assert Rem(n, 100) == v;
    assert n % 10 == v % 10;
    if v >= 20 {
      assert Rem(v - 20, 10) == v % 10;
    } else {
      assert Rem(v - 20, 10) == -((20 - v) % 10);
    }
  }

  /** The suffix depends only on the last two digits (as the truncating `%` computes them). */
  lemma OrdinalSuffixLastTwoDigits(n: int)
    ensures OrdinalSuffix(n) == OrdinalSuffix(Rem(n, 100))
  {
    var v := Rem(n, 100);
    assert Rem(v, 100) == v;
  }

  /** A negative number always gets "th": both lookups land on a negative index or on index 0. */
  lemma OrdinalSuffixOfNegative(n: int)
    requires n < 0
    ensures OrdinalSuffix(n) == "th"
  {
  }

  /**
   * The badge after the visit date: `rank && rank > 0`, with the suffix only
   * for an English interface.
   */
  function RankBadge(rank: Option<int>, language: string): (badge: Option<(int, string)>)
    ensures badge.Some? <==> rank.Some? && rank.value > 0
    ensures badge.Some? ==> badge.value.0 == rank.value
    ensures badge.Some? && !StartsWith(language, "en") ==> badge.value.1 == ""
    ensures badge.Some? && StartsWith(language, "en") ==> badge.value.1 in {"st", "nd", "rd", "th"}
  {
    if Truthy(rank) && rank.value > 0 then
      Some((rank.value, if StartsWith(language, "en") then OrdinalSuffix(rank.value) else ""))
    else None
  }

  /** The "read more" button: a text longer than 100 characters, not yet expanded. */
  predicate ShowsReadMore(text: Option<string>, isExpanded: bool) {
    NonEmpty(text) && |text.value| > 100 && !isExpanded
  }

  /** Expanding hides the button for good, and short texts never show it. */
  lemma ReadMoreGuard(text: Option<string>, isExpanded: bool)
    ensures ShowsReadMore(text, isExpanded) ==> !ShowsReadMore(text, true)
    ensures text.Some? && |text.value| <= 100 ==> !ShowsReadMore(text, isExpanded)
    ensures ShowsReadMore(text, isExpanded) <==> text.Some? && |text.value| > 100 && !isExpanded
  {
  }

  /** The heart button's state: liked or not, and the count shown. */
  datatype LikeState = LikeState(isLiked: bool, count: int)

  /** The state a card starts from: `review.isLiked || false` and `review.likeCount || 0`. */
  function InitialLike(isLiked: Option<bool>, likeCount: Option<int>): (s: LikeState)
    ensures s.isLiked <==> isLiked == Some(true)
    ensures s.count == (if likeCount.Some? then likeCount.value else 0)
  {
    LikeState(isLiked == Some(true), Or(likeCount, 0))
  }

  /**
   * A press of the heart: the flag flips, the count goes up by one when
   * becoming liked and down by one otherwise; the new pair is also what is
   * reported to the parent.
   */
  function ToggleLike(s: LikeState): (t: LikeState)
    ensures t.isLiked != s.isLiked
    ensures t.isLiked ==> t.count == s.count + 1
    ensures !t.isLiked ==> t.count == s.count - 1
  {
    var liked := !s.isLiked;
    LikeState(liked, if liked then s.count + 1 else s.count - 1)
  }

  /** Two presses restore both the flag and the count. */
  lemma ToggleLikeTwice(s: LikeState)
    ensures ToggleLike(ToggleLike(s)) == s
  {
  }
}
