/**
 * The personal ranking engine: three pure functions over one user's reviews.
 *
 * - `GetRankRange` splits the reviews into the liked, normal and disliked
 *   bands of the absolute ranking and returns the band of a satisfaction tier.
 * - `GetComparisonTarget` picks one existing review for a head-to-head
 *   comparison: the previous visit's rank holder, else the best review of the
 *   same category and tier, else the most recent review of the same tier.
 * - `RecalculateAbsoluteRankings` deduplicates establishments, inserts the
 *   moving one at `newRank` and renumbers everything 1..N.
 *
 * A rank is `rank || 9999` wherever the source sorts by it, so an absent rank
 * and a rank of 0 both sort as 9999. The source's sorts are stable, so ties
 * keep input order (see module Arrays).
 */
module RankingEngine {
  import opened Wrappers
  import opened Arrays

  datatype Satisfaction = Liked | Normal | Disliked

  /**
   * One review as the client receives it from the server. `rank` is None for
   * SQL NULL; `visitDate` is an abstract day number (later days are larger).
   */
  datatype Review = Review(
    id: string,
    email: string,
    establishmentName: string,
    category: string,
    shopId: Option<string>,
    satisfaction: Satisfaction,
    rank: Option<int>,
    visitDate: int)

  /** The review being written (`formData`); a new review has no id yet. */
  datatype Draft = Draft(
    id: Option<string>,
    establishmentName: string,
    category: string,
    shopId: Option<string>,
    satisfaction: Satisfaction)

  /** The sort key given to a review without a usable rank. */
  const UnrankedKey := 9999

  /** `rank || 9999`. */
  function RankKey(rank: Option<int>): int {
    if rank.Some? && rank.value != 0 then rank.value else UnrankedKey
  }

  function ReviewKey(r: Review): int {
    RankKey(r.rank)
  }

  // ---------------------------------------------------------------------
  // getRankRange
  // ---------------------------------------------------------------------

  /** A half-open band `[start, end)` of absolute ranks. */
  datatype RankRange = RankRange(start: int, end: int)

  function SatisfactionIs(s: Satisfaction): Review -> bool {
    (r: Review) => r.satisfaction == s
  }

  /** The number of reviews of the tier `s`. */
  function Count(rs: seq<Review>, s: Satisfaction): nat {
    |Filter(rs, SatisfactionIs(s))|
  }

  /**
   * The band of tier `s`: liked reviews come first, then normal ones, then
   * disliked ones; `end` is one past the last occupied rank of the band.
   */
  function GetRankRange(all: seq<Review>, s: Satisfaction): (r: RankRange)
    ensures s == Liked ==> r == RankRange(1, Count(all, Liked) + 1)
    ensures s == Normal ==> r == RankRange(Count(all, Liked) + 1, Count(all, Liked) + Count(all, Normal) + 1)
    ensures s == Disliked ==>
      r == RankRange(Count(all, Liked) + Count(all, Normal) + 1, Count(all, Liked) + Count(all, Normal) + Count(all, Disliked) + 1)
  {
    var liked := SortedTier(all, Liked);
    var normal := SortedTier(all, Normal);
    var disliked := SortedTier(all, Disliked);
    if s == Liked then RankRange(1, |liked| + 1)
    else if s == Normal then
      var start := |liked| + 1;
      RankRange(start, start + |normal|)
    else
      var start := |liked| + |normal| + 1;
      RankRange(start, start + |disliked|)
  }

  /** The reviews of tier `s`, ascending by rank: sorting keeps every one of them. */
  function SortedTier(all: seq<Review>, s: Satisfaction): (r: seq<Review>)
    ensures |r| == Count(all, s)
  {
    SortFilterCount(all, ReviewKey, SatisfactionIs(s));
    Filter(SortBy(all, ReviewKey), SatisfactionIs(s))
  }

  /** Every review belongs to exactly one of the three tiers. */
  lemma {:induction false} CountsPartition(rs: seq<Review>)
    ensures Count(rs, Liked) + Count(rs, Normal) + Count(rs, Disliked) == |rs|
  {
    if rs != [] {
      CountsPartition(rs[1..]);
    }
  }

  /**
   * The three bands tile `[1, |all| + 1)` in the fixed order liked, normal,
   * disliked: each band is well formed and ends where the next one starts.
   */
  lemma RankRangeBands(all: seq<Review>)
    ensures GetRankRange(all, Liked).start == 1
    ensures GetRankRange(all, Liked).end == GetRankRange(all, Normal).start
    ensures GetRankRange(all, Normal).end == GetRankRange(all, Disliked).start
    ensures GetRankRange(all, Disliked).end == |all| + 1
    ensures forall s :: 1 <= GetRankRange(all, s).start <= GetRankRange(all, s).end
  {
    CountsPartition(all);
  }

  /** With no reviews every band is `{1, 1}`. */
  lemma RankRangeOfNothing(s: Satisfaction)
    ensures GetRankRange([], s) == RankRange(1, 1)
  {
  }

  function Satisfactions(rs: seq<Review>): (r: seq<Satisfaction>)
    ensures |r| == |rs|
    ensures forall i :: 0 <= i < |rs| ==> r[i] == rs[i].satisfaction
  {
    if rs == [] then [] else [rs[0].satisfaction] + Satisfactions(rs[1..])
  }

  lemma {:induction false} CountIsMultiplicity(rs: seq<Review>, s: Satisfaction)
    ensures Count(rs, s) == multiset(Satisfactions(rs))[s]
  {
    if rs != [] {
      CountIsMultiplicity(rs[1..], s);
      assert Satisfactions(rs) == [rs[0].satisfaction] + Satisfactions(rs[1..]);
    }
  }

  /**
   * The bands depend only on how many reviews each tier has: reordering the
   * reviews, or changing their ranks, names or categories, changes nothing.
   */
  lemma RankRangeIgnoresOrderAndRanks(a: seq<Review>, b: seq<Review>, s: Satisfaction)
    requires multiset(Satisfactions(a)) == multiset(Satisfactions(b))
    ensures GetRankRange(a, s) == GetRankRange(b, s)
  {
    CountIsMultiplicity(a, Liked);
    CountIsMultiplicity(b, Liked);
    CountIsMultiplicity(a, Normal);
    CountIsMultiplicity(b, Normal);
    CountIsMultiplicity(a, Disliked);
    CountIsMultiplicity(b, Disliked);
  }

  // ---------------------------------------------------------------------
  // getComparisonTarget
  // ---------------------------------------------------------------------

  datatype TargetKind = RepeatVisit | SimilarCategory | Recent

  /** The review chosen for the comparison, and why it was chosen. */
  datatype ComparisonTarget = ComparisonTarget(source: Review, kind: TargetKind) {
    function establishmentName(): string { source.establishmentName }
    /** `rank!` in the source: the chosen review may in fact be unranked. */
    function rank(): Option<int> { source.rank }
    function category(): string { source.category }
  }

  /** `r.id !== targetReview.id`; a draft without an id excludes nothing. */
  function IdIsNot(id: Option<string>): Review -> bool {
    (r: Review) => id.None? || r.id != id.value
  }

  /** The candidates: every review except the one being edited. */
  function Others(all: seq<Review>, id: Option<string>): seq<Review> {
    Filter(all, IdIsNot(id))
  }

  /** `r.rank === rank`, with SQL NULL as None. */
  function RankIs(rank: Option<int>): Review -> bool {
    (r: Review) => r.rank == rank
  }

  function SimilarTo(d: Draft): Review -> bool {
    (r: Review) => r.category == d.category && r.satisfaction == d.satisfaction
  }

  /** Sort key of "most recent visit first". */
  function LatestFirst(r: Review): int {
    -r.visitDate
  }

  /** Some candidate holds exactly the previous visit's rank. */
  predicate RepeatVisitExists(others: seq<Review>, previousRank: Option<int>) {
    previousRank.Some? && exists i :: 0 <= i < |others| && others[i].rank == previousRank
  }

  /** `i` is the first position of `s` whose review satisfies `p`. */
  predicate EarliestWith(s: seq<Review>, i: int, p: Review -> bool) {
    0 <= i < |s| && p(s[i]) && forall j :: 0 <= j < i ==> !p(s[j])
  }

  /**
   * The comparison target for `draft`, given the rank of the user's previous
   * visit to the same establishment (None when there is none). Its
   * properties are stated tier by tier in the lemmas below.
   */
  function GetComparisonTarget(draft: Draft, all: seq<Review>, previousRank: Option<int>): Option<ComparisonTarget> {
    var others := Others(all, draft.id);
    var repeat := if previousRank.Some? then FindIndex(others, RankIs(previousRank)) else None;
    var similar := Filter(others, SimilarTo(draft));
    var sameTier := Filter(others, SatisfactionIs(draft.satisfaction));
    if repeat.Some? then Some(ComparisonTarget(others[repeat.value], RepeatVisit))
    else if |similar| > 0 then Some(ComparisonTarget(SortBy(similar, ReviewKey)[0], SimilarCategory))
    else if |sameTier| > 0 then Some(ComparisonTarget(SortBy(sameTier, LatestFirst)[0], Recent))
    else None
  }

  /**
   * The target is always one of the user's reviews other than the one being
   * edited, and outside a repeat visit it shares the draft's tier.
   */
  lemma ComparisonTargetIsCandidate(draft: Draft, all: seq<Review>, previousRank: Option<int>)
    ensures var r := GetComparisonTarget(draft, all, previousRank);
      r.Some? ==>
        && r.value.source in all
        && (draft.id.Some? ==> r.value.source.id != draft.id.value)
        && (r.value.kind != RepeatVisit ==> r.value.source.satisfaction == draft.satisfaction)
        && (r.value.kind == SimilarCategory ==> r.value.source.category == draft.category)
  {
    var r := GetComparisonTarget(draft, all, previousRank);
    var others := Others(all, draft.id);
    var similar := Filter(others, SimilarTo(draft));
    var sameTier := Filter(others, SatisfactionIs(draft.satisfaction));
    if r.Some? {
      var x := r.value.source;
      match r.value.kind
      case RepeatVisit =>
        FilterMember(all, IdIsNot(draft.id), x);
      case SimilarCategory =>
        SortMember(similar, ReviewKey, 0);
        FilterMember(others, SimilarTo(draft), x);
        FilterMember(all, IdIsNot(draft.id), x);
      case Recent =>
        SortMember(sameTier, LatestFirst, 0);
        FilterMember(others, SatisfactionIs(draft.satisfaction), x);
        FilterMember(all, IdIsNot(draft.id), x);
    }
  }

  /**
   * Tier 1: when some candidate holds exactly the previous visit's rank, the
   * target is the first such candidate, whatever its category or tier.
   */
  lemma ComparisonTargetRepeatVisit(draft: Draft, all: seq<Review>, previousRank: Option<int>)
    requires RepeatVisitExists(Others(all, draft.id), previousRank)
    ensures var r := GetComparisonTarget(draft, all, previousRank);
      var others := Others(all, draft.id);
      && r.Some? && r.value.kind == RepeatVisit
      && exists i :: EarliestWith(others, i, RankIs(previousRank)) && r.value.source == others[i]
  {
    var others := Others(all, draft.id);
    var repeat := FindIndex(others, RankIs(previousRank));
    var k :| 0 <= k < |others| && others[k].rank == previousRank;
    assert RankIs(previousRank)(others[k]);
    assert EarliestWith(others, repeat.value, RankIs(previousRank));
  }

  /**
   * Tier 2: otherwise, the best-ranked candidate of the same category and
   * tier (an unranked one counts as 9999), the earliest among equals.
   */
  lemma ComparisonTargetSimilarCategory(draft: Draft, all: seq<Review>, previousRank: Option<int>)
    requires !RepeatVisitExists(Others(all, draft.id), previousRank)
    requires |Filter(Others(all, draft.id), SimilarTo(draft))| > 0
    ensures var similar := Filter(Others(all, draft.id), SimilarTo(draft));
      GetComparisonTarget(draft, all, previousRank)
        == Some(ComparisonTarget(similar[FirstMinIndex(similar, ReviewKey)], SimilarCategory))
  {
    var others := Others(all, draft.id);
    NoRepeatVisit(others, previousRank);
    SortHeadIsFirstMin(Filter(others, SimilarTo(draft)), ReviewKey);
  }

  /**
   * Tier 3: otherwise, the most recently visited candidate of the same tier,
   * the earliest among equals.
   */
  lemma ComparisonTargetRecent(draft: Draft, all: seq<Review>, previousRank: Option<int>)
    requires !RepeatVisitExists(Others(all, draft.id), previousRank)
    requires |Filter(Others(all, draft.id), SimilarTo(draft))| == 0
    requires |Filter(Others(all, draft.id), SatisfactionIs(draft.satisfaction))| > 0
    ensures var sameTier := Filter(Others(all, draft.id), SatisfactionIs(draft.satisfaction));
      GetComparisonTarget(draft, all, previousRank)
        == Some(ComparisonTarget(sameTier[FirstMinIndex(sameTier, LatestFirst)], Recent))
  {
    var others := Others(all, draft.id);
    NoRepeatVisit(others, previousRank);
    SortHeadIsFirstMin(Filter(others, SatisfactionIs(draft.satisfaction)), LatestFirst);
  }

  /** There is no target exactly when there is no repeat visit and no other review of the same tier. */
  lemma ComparisonTargetNone(draft: Draft, all: seq<Review>, previousRank: Option<int>)
    ensures var others := Others(all, draft.id);
      var noTier := !RepeatVisitExists(others, previousRank) && |Filter(others, SatisfactionIs(draft.satisfaction))| == 0;
      GetComparisonTarget(draft, all, previousRank).None? <==> noTier
  {
    var others := Others(all, draft.id);
    var similar := Filter(others, SimilarTo(draft));
    if RepeatVisitExists(others, previousRank) {
      ComparisonTargetRepeatVisit(draft, all, previousRank);
    } else {
      NoRepeatVisit(others, previousRank);
      if |similar| > 0 {
        assert SatisfactionIs(draft.satisfaction)(similar[0]);
        FilterMember(others, SimilarTo(draft), similar[0]);
        var k :| 0 <= k < |others| && others[k] == similar[0];
        FilterKeeps(others, SatisfactionIs(draft.satisfaction), k);
      }
    }
  }

  /** Without a repeat visit, the first tier finds nothing. */
  lemma NoRepeatVisit(others: seq<Review>, previousRank: Option<int>)
    requires !RepeatVisitExists(others, previousRank)
    ensures previousRank.None? || FindIndex(others, RankIs(previousRank)).None?
  {
  }

  /**
   * The engine exactly as called by the review wizard, which passes
   * `previousVisit?.rank`: absent when there was no previous visit
   * (outer None), JSON `null` when the previous visit is unranked
   * (Some(None)), or a number. For `null` the source's `r.rank === null`
   * picks the first unranked candidate, of any establishment, as the
   * "repeat visit".
   */
  function GetComparisonTargetAsWritten(draft: Draft, all: seq<Review>, previousRank: Option<Option<int>>): (r: Option<ComparisonTarget>)
    ensures previousRank != Some(None) ==>
      r == GetComparisonTarget(draft, all, if previousRank.Some? then previousRank.value else None)
    ensures previousRank == Some(None) && r.Some? && r.value.kind == RepeatVisit ==> r.value.source.rank.None?
  {
    match previousRank
    case Some(None) =>
      var others := Others(all, draft.id);
      var unranked := FindIndex(others, RankIs(None));
      if unranked.Some? then Some(ComparisonTarget(others[unranked.value], RepeatVisit))
      else GetComparisonTarget(draft, all, None)
    case Some(Some(p)) => GetComparisonTarget(draft, all, Some(p))
    case None => GetComparisonTarget(draft, all, None)
  }

  /** Without a previous rank the first tier never applies. */
  lemma NoPreviousRankNoRepeatVisit(draft: Draft, all: seq<Review>)
    ensures var r := GetComparisonTarget(draft, all, None);
      r.Some? ==> r.value.kind != RepeatVisit
  {
  }

  /** A new review has no id, so every review is a candidate. */
  lemma NewDraftSeesEveryReview(all: seq<Review>)
    ensures Others(all, None) == all
  {
    FilterKeepsAll(all, IdIsNot(None));
  }

  /**
   * The wizard's call as written, on a repeat visit to an unranked "Cafe A"
   * while an unranked "Noodle B" review exists: the as-written engine offers
   * "Noodle B", a disliked noodle shop, as the previous visit.
   */
  lemma UnrankedPreviousVisitPicksAnotherShop()
    ensures var noodle := Review("2", "u@x", "Noodle B", "noodle", None, Disliked, None, 1);
      var cafe := Review("1", "u@x", "Cafe A", "cafe", None, Liked, None, 2);
      var draft := Draft(None, "Cafe A", "cafe", None, Liked);
      GetComparisonTargetAsWritten(draft, [noodle, cafe], Some(None)) == Some(ComparisonTarget(noodle, RepeatVisit))
  {
    var noodle := Review("2", "u@x", "Noodle B", "noodle", None, Disliked, None, 1);
    var cafe := Review("1", "u@x", "Cafe A", "cafe", None, Liked, None, 2);
    NewDraftSeesEveryReview([noodle, cafe]);
    assert FindIndex([noodle, cafe], RankIs(None)) == Some(0);
  }

  /**
   * The same visit with the null rank treated as "no previous rank": the
   * engine offers "Cafe A" itself, the only liked cafe.
   */
  lemma UnrankedPreviousVisitCorrected()
    ensures var noodle := Review("2", "u@x", "Noodle B", "noodle", None, Disliked, None, 1);
      var cafe := Review("1", "u@x", "Cafe A", "cafe", None, Liked, None, 2);
      var draft := Draft(None, "Cafe A", "cafe", None, Liked);
      GetComparisonTarget(draft, [noodle, cafe], None) == Some(ComparisonTarget(cafe, SimilarCategory))
  {
    var noodle := Review("2", "u@x", "Noodle B", "noodle", None, Disliked, None, 1);
    var cafe := Review("1", "u@x", "Cafe A", "cafe", None, Liked, None, 2);
    var draft := Draft(None, "Cafe A", "cafe", None, Liked);
    var all := [noodle, cafe];
    NewDraftSeesEveryReview(all);
    assert Filter(all, SimilarTo(draft)) == [cafe] by {
      assert !SimilarTo(draft)(noodle) && SimilarTo(draft)(cafe);
      assert all[1..] == [cafe];
      assert [cafe][1..] == [];
      assert Filter([cafe], SimilarTo(draft)) == [cafe] + Filter([], SimilarTo(draft));
    }
    assert SortBy([cafe], ReviewKey) == [cafe];
  }

  // ---------------------------------------------------------------------
  // recalculateAbsoluteRankings
  // ---------------------------------------------------------------------

  /** `{ establishmentName, rank }`: one entry of a ranking. */
  datatype RankingItem = RankingItem(establishmentName: string, rank: int)

  /** `allReviews.map(r => r.establishmentName)`. */
  function Names(rs: seq<Review>): (r: seq<string>)
    ensures |r| == |rs|
    ensures forall i :: 0 <= i < |rs| ==> r[i] == rs[i].establishmentName
  {
    if rs == [] then [] else [rs[0].establishmentName] + Names(rs[1..])
  }

  /**
   * `Array.from(new Set(names))`: every name once, in order of first
   * occurrence.
   */
  function Dedup(s: seq<string>): (r: seq<string>)
    ensures Distinct(r)
    ensures forall x :: x in r <==> x in s
    ensures forall i, j :: 0 <= i < j < |r| ==> IndexOf(s, r[i]) < IndexOf(s, r[j])
  {
    if s == [] then []
    else
      var init := s[..|s| - 1];
      var last := s[|s| - 1];
      var d := Dedup(init);
      assert s == init + [last];
      assert forall x :: x in init ==> IndexOf(s, x) == IndexOf(init, x) by {
        forall x | x in init ensures IndexOf(s, x) == IndexOf(init, x) {
          IndexOfExtend(init, [last], x);
        }
      }
      if last in d then d
      else
        assert IndexOf(s, last) == |s| - 1 by {
          IndexOfAfterPrefix(init, [], last);
          assert init + [last] + [] == s;
        }
        d + [last]
  }

  lemma {:induction false} DedupDistinct(s: seq<string>)
    requires Distinct(s)
    ensures Dedup(s) == s
  {
    if s != [] {
      var init := s[..|s| - 1];
      DedupDistinct(init);
      assert s[|s| - 1] !in init;
    }
  }

  function NameIs(n: string): Review -> bool {
    (r: Review) => r.establishmentName == n
  }

  function NameIsNot(n: string): string -> bool {
    (x: string) => x != n
  }

  /** `allReviews.find(r => r.establishmentName === n)?.rank || 9999`. */
  function NameKey(all: seq<Review>, n: string): int {
    match Find(all, NameIs(n))
    case Some(r) => ReviewKey(r)
    case None => UnrankedKey
  }

  function NameKeyIn(all: seq<Review>): string -> int {
    (n: string) => NameKey(all, n)
  }

  /**
   * The establishments other than the moving one, each once, ascending by
   * the rank of its first review (stable: equal keys keep first-occurrence
   * order).
   */
  function SortedOthers(all: seq<Review>, moving: string): (others: seq<string>)
    ensures Distinct(others)
    ensures moving !in others
    ensures forall n :: n in others <==> n in Names(all) && n != moving
    ensures SortedBy(others, NameKeyIn(all))
    ensures forall k :: KeyGroup(others, NameKeyIn(all), k)
                     == KeyGroup(Filter(Dedup(Names(all)), NameIsNot(moving)), NameKeyIn(all), k)
  {
    var unique := Filter(Dedup(Names(all)), NameIsNot(moving));
    UniqueOthers(all, moving);
    SortSameElements(unique, NameKeyIn(all));
    SortBy(unique, NameKeyIn(all))
  }

  /** The deduplicated names without the moving one: distinct, and exactly the other names. */
  lemma UniqueOthers(all: seq<Review>, moving: string)
    ensures var unique := Filter(Dedup(Names(all)), NameIsNot(moving));
      && Distinct(unique)
      && forall n :: n in unique <==> n in Names(all) && n != moving
  {
    var d := Dedup(Names(all));
    var unique := Filter(d, NameIsNot(moving));
    FilterDistinct(d, NameIsNot(moving));
    forall n ensures n in unique <==> n in Names(all) && n != moving {
      if n in Names(all) && n != moving {
        FilterKeeps(d, NameIsNot(moving), IndexOf(d, n));
      }
      if n in unique {
        FilterMember(d, NameIsNot(moving), n);
      }
    }
  }

  /** Where the moving establishment lands (0-based): at `newRank` when it is a valid position, else last. */
  function Position(others: seq<string>, newRank: int): (pos: nat)
    ensures pos <= |others|
    ensures 1 <= newRank <= |others| ==> pos == newRank - 1
    ensures !(1 <= newRank <= |others|) ==> pos == |others|
  {
    if 1 <= newRank <= |others| then newRank - 1 else |others|
  }

  /** `others` with `moving` spliced in at position `pos`. */
  function Splice(others: seq<string>, pos: nat, moving: string): (r: seq<string>)
    requires pos <= |others|
    ensures |r| == |others| + 1 && r[pos] == moving
    ensures forall i :: 0 <= i < pos ==> r[i] == others[i]
    ensures forall i :: pos < i < |r| ==> r[i] == others[i - 1]
  {
    others[..pos] + [moving] + others[pos..]
  }

  /** Splicing a new name into distinct names keeps them distinct. */
  lemma SpliceDistinct(others: seq<string>, pos: nat, moving: string)
    requires pos <= |others| && Distinct(others) && moving !in others
    ensures Distinct(Splice(others, pos, moving))
  {
    var r := Splice(others, pos, moving);
    forall i, j | 0 <= i < j < |r| ensures r[i] != r[j] {
      if i == pos {
        assert r[j] == others[j - 1];
      } else if j == pos {
        assert r[i] == others[i];
      } else {
        var i' := if i < pos then i else i - 1;
        var j' := if j < pos then j else j - 1;
        assert r[i] == others[i'] && r[j] == others[j'] && i' < j';
      }
    }
  }

  /** Splicing adds exactly the new name. */
  lemma SpliceMembers(others: seq<string>, pos: nat, moving: string)
    requires pos <= |others|
    ensures forall n :: n in Splice(others, pos, moving) <==> n in others || n == moving
  {
    var r := Splice(others, pos, moving);
    forall n ensures n in r <==> n in others || n == moving {
      if n in others {
        var k := IndexOf(others, n);
        if k < pos { assert r[k] == n; } else { assert r[k + 1] == n; }
      }
      if n in r && n != moving {
        var k :| 0 <= k < |r| && r[k] == n;
        if k < pos { assert others[k] == n; } else { assert others[k - 1] == n; }
      }
    }
  }

  lemma NoneRemoved(a: seq<string>, moving: string)
    requires moving !in a
    ensures Filter(a, NameIsNot(moving)) == a
  {
    assert forall i :: 0 <= i < |a| ==> NameIsNot(moving)(a[i]);
    FilterKeepsAll(a, NameIsNot(moving));
  }

  lemma OnlyOneRemoved(moving: string)
    ensures Filter([moving], NameIsNot(moving)) == []
  {
    assert !NameIsNot(moving)(moving);
    assert [moving][1..] == [];
  }

  lemma RemoveBetween(a: seq<string>, b: seq<string>, moving: string)
    requires moving !in a && moving !in b
    ensures Filter(a + [moving] + b, NameIsNot(moving)) == a + b
  {
    var p := NameIsNot(moving);
    FilterConcat(a + [moving], b, p);
    FilterConcat(a, [moving], p);
    OnlyOneRemoved(moving);
    NoneRemoved(a, moving);
    NoneRemoved(b, moving);
  }

  /** Removing the spliced-in name gives back the names it was spliced into. */
  lemma SpliceRemove(others: seq<string>, pos: nat, moving: string)
    requires pos <= |others| && moving !in others
    ensures Filter(Splice(others, pos, moving), NameIsNot(moving)) == others
  {
    var a, b := others[..pos], others[pos..];
    assert a + b == others;
    assert moving !in a && moving !in b;
    RemoveBetween(a, b, moving);
  }

  lemma SpliceSnoc(others: seq<string>, i: nat, pos: nat, moving: string)
    requires pos <= i < |others|
    ensures Splice(others[..i + 1], pos, moving) == Splice(others[..i], pos, moving) + [others[i]]
  {
  }

  /** `names` numbered 1..N in order. */
  function Number(names: seq<string>): (r: seq<RankingItem>)
    ensures |r| == |names|
    ensures forall i :: 0 <= i < |r| ==> r[i] == RankingItem(names[i], i + 1)
  {
    seq(|names|, i requires 0 <= i < |names| => RankingItem(names[i], i + 1))
  }

  lemma NumberSnoc(names: seq<string>, x: string)
    ensures Number(names + [x]) == Number(names) + [RankingItem(x, |names| + 1)]
  {
  }

  function ItemNames(items: seq<RankingItem>): (r: seq<string>)
    ensures |r| == |items|
    ensures forall i :: 0 <= i < |items| ==> r[i] == items[i].establishmentName
  {
    seq(|items|, i requires 0 <= i < |items| => items[i].establishmentName)
  }

  /**
   * The new absolute ranking: the other establishments in rank order with
   * the moving one inserted at position `newRank` (last when `newRank` is
   * not between 1 and the number of others), renumbered 1..N.
   */
  function RecalculateAbsoluteRankings(all: seq<Review>, moving: string, newRank: int): (r: seq<RankingItem>)
    ensures var others := SortedOthers(all, moving);
      var pos := if 1 <= newRank <= |others| then newRank - 1 else |others|;
      && |r| == |others| + 1
      && (forall i :: 0 <= i < |r| ==> r[i].rank == i + 1)
      && r[pos].establishmentName == moving
      && (forall i :: 0 <= i < pos ==> r[i].establishmentName == others[i])
      && (forall i :: pos < i < |r| ==> r[i].establishmentName == others[i - 1])
  {
    var others := SortedOthers(all, moving);
    Number(Splice(others, Position(others, newRank), moving))
  }

  /**
   * The source's loop: walk the sorted others, emit the moving
   * establishment just before position `newRank`, and append it at the end
   * if it was never emitted. It produces exactly the ranking above.
   */
  method RecalculateByWalk(all: seq<Review>, moving: string, newRank: int) returns (result: seq<RankingItem>)
    ensures result == RecalculateAbsoluteRankings(all, moving, newRank)
  {
    var others := SortedOthers(all, moving);
    result := Walk(others, moving, newRank);
  }

  method Walk(others: seq<string>, moving: string, newRank: int) returns (result: seq<RankingItem>)
    ensures result == Number(Splice(others, Position(others, newRank), moving))
  {
    result := [];
    var inserted := false;
    ghost var emitted: seq<string> := [];
    var i := 0;
    while i < |others|
      invariant 0 <= i <= |others|
      invariant inserted <==> 1 <= newRank <= i
      invariant inserted ==> emitted == Splice(others[..i], newRank - 1, moving)
      invariant !inserted ==> emitted == others[..i]
      invariant result == Number(emitted)
    {
      if i + 1 == newRank {
        NumberSnoc(emitted, moving);
        result := result + [RankingItem(moving, |result| + 1)];
        emitted := emitted + [moving];
        inserted := true;
      }
      if inserted {
        SpliceSnoc(others, i, newRank - 1, moving);
      } else {
        assert others[..i + 1] == others[..i] + [others[i]];
      }
      NumberSnoc(emitted, others[i]);
      result := result + [RankingItem(others[i], |result| + 1)];
      emitted := emitted + [others[i]];
      i := i + 1;
    }
    if !inserted {
      NumberSnoc(emitted, moving);
      result := result + [RankingItem(moving, |result| + 1)];
      emitted := emitted + [moving];
    }
    assert others[..|others|] == others;
  }

  /**
   * Contiguity and coverage: the ranks are exactly 1..N, every establishment
   * of the input and the moving one appear, each exactly once, and nothing
   * else appears.
   */
  lemma RecalculateCoversEveryEstablishment(all: seq<Review>, moving: string, newRank: int)
    ensures var r := RecalculateAbsoluteRankings(all, moving, newRank);
      && Distinct(ItemNames(r))
      && (forall n :: n in ItemNames(r) <==> n in Names(all) || n == moving)
      && (forall i :: 0 <= i < |r| ==> r[i].rank == i + 1)
  {
    var others := SortedOthers(all, moving);
    var names := Splice(others, Position(others, newRank), moving);
    SpliceDistinct(others, Position(others, newRank), moving);
    SpliceMembers(others, Position(others, newRank), moving);
    assert ItemNames(Number(names)) == names;
  }

  /** `items` read back as review rows, as the server stores them. */
  function AsReviews(items: seq<RankingItem>, email: string): (rs: seq<Review>)
    ensures |rs| == |items|
    ensures forall i :: 0 <= i < |items| ==>
      rs[i].establishmentName == items[i].establishmentName && rs[i].rank == Some(items[i].rank)
  {
    seq(|items|, i requires 0 <= i < |items| =>
      Review("", email, items[i].establishmentName, "", None, Liked, Some(items[i].rank), 0))
  }

  /** In rows with distinct names ranked 1..N, the name at position `q` is keyed q + 1. */
  lemma FindInDistinct(rows: seq<Review>, names: seq<string>, q: int)
    requires names == Names(rows) && Distinct(names) && 0 <= q < |rows|
    requires forall i :: 0 <= i < |rows| ==> rows[i].rank == Some(i + 1)
    ensures NameKey(rows, names[q]) == q + 1
  {
    var idx := FindIndex(rows, NameIs(names[q]));
    assert NameIs(names[q])(rows[q]);
    assert idx.Some?;
    assert names[idx.value] == names[q];
  }

  /** Read back as rows, a numbered ranking of distinct names sorts to the names minus the moving one, unchanged. */
  lemma SortedOthersOfRanking(others: seq<string>, pos: nat, moving: string, email: string)
    requires pos <= |others| && Distinct(others) && moving !in others
    ensures SortedOthers(AsReviews(Number(Splice(others, pos, moving)), email), moving) == others
  {
    var names := Splice(others, pos, moving);
    var rows := AsReviews(Number(names), email);
    RankingRowsDedup(others, pos, moving, email);
    RankingRowsSorted(others, pos, moving, email);
    SortedOthersUnfold(rows, moving, names, others);
  }

  lemma RankingRowsDedup(others: seq<string>, pos: nat, moving: string, email: string)
    requires pos <= |others| && Distinct(others) && moving !in others
    ensures var names := Splice(others, pos, moving);
      && Dedup(Names(AsReviews(Number(names), email))) == names
      && Filter(names, NameIsNot(moving)) == others
  {
    var names := Splice(others, pos, moving);
    SpliceDistinct(others, pos, moving);
    RankingRows(names, email);
    DedupDistinct(names);
    SpliceRemove(others, pos, moving);
  }

  lemma RankingRowsSorted(others: seq<string>, pos: nat, moving: string, email: string)
    requires pos <= |others| && Distinct(others) && moving !in others
    ensures var rows := AsReviews(Number(Splice(others, pos, moving)), email);
      SortBy(others, NameKeyIn(rows)) == others
  {
    var names := Splice(others, pos, moving);
    var rows := AsReviews(Number(names), email);
    assert SortedBy(others, NameKeyIn(rows)) by {
      SpliceDistinct(others, pos, moving);
      RankingRows(names, email);
      OthersKeepTheirOrder(others, pos, moving, names, rows);
    }
    SortSortedIsIdentity(others, NameKeyIn(rows));
  }

  lemma SortedOthersUnfold(rows: seq<Review>, moving: string, names: seq<string>, others: seq<string>)
    requires Dedup(Names(rows)) == names
    requires Filter(names, NameIsNot(moving)) == others
    requires SortBy(others, NameKeyIn(rows)) == others
    ensures SortedOthers(rows, moving) == others
  {
  }

  /** A numbered ranking read back as rows: the same names, each keyed by its rank. */
  lemma RankingRows(names: seq<string>, email: string)
    requires Distinct(names)
    ensures var rows := AsReviews(Number(names), email);
      && Names(rows) == names
      && forall q :: 0 <= q < |names| ==> NameKey(rows, names[q]) == q + 1
  {
    var rows := AsReviews(Number(names), email);
    assert Names(rows) == names;
    forall q | 0 <= q < |names| ensures NameKey(rows, names[q]) == q + 1 {
      FindInDistinct(rows, names, q);
    }
  }

  /** Around the spliced-in name, the other names keep ascending keys. */
  lemma OthersKeepTheirOrder(others: seq<string>, pos: nat, moving: string, names: seq<string>, rows: seq<Review>)
    requires pos <= |others| && names == Splice(others, pos, moving)
    requires forall q :: 0 <= q < |names| ==> NameKey(rows, names[q]) == q + 1
    ensures SortedBy(others, NameKeyIn(rows))
  {
    forall j | 0 <= j < |others| ensures NameKeyIn(rows)(others[j]) == (if j < pos then j + 1 else j + 2) {
      if j < pos {
        assert names[j] == others[j];
      } else {
        assert names[j + 1] == others[j];
      }
    }
  }

  /**
   * Renumbering is idempotent: recalculating from the ranking's own rows,
   * with the moving establishment at the rank it was just given, returns
   * the identical ranking.
   */
  lemma RecalculateIdempotent(all: seq<Review>, moving: string, newRank: int, email: string, placedAt: int)
    requires RankingItem(moving, placedAt) in RecalculateAbsoluteRankings(all, moving, newRank)
    ensures var out := RecalculateAbsoluteRankings(all, moving, newRank);
      RecalculateAbsoluteRankings(AsReviews(out, email), moving, placedAt) == out
  {
    var out := RecalculateAbsoluteRankings(all, moving, newRank);
    var others := SortedOthers(all, moving);
    var pos := Position(others, newRank);
    var names := Splice(others, pos, moving);
    SpliceDistinct(others, pos, moving);
    assert placedAt == pos + 1 by {
      var k :| 0 <= k < |out| && out[k] == RankingItem(moving, placedAt);
      assert names[k] == moving;
    }
    SortedOthersOfRanking(others, pos, moving, email);
  }
}
