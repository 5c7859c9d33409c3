/**
 * The review wizard: a five-step form (search, satisfaction, content,
 * keywords, ranking) that ends by submitting the review, and, for liked
 * reviews, by placing it in the user's absolute ranking through a
 * head-to-head comparison with one existing review.
 *
 * The network is abstracted: the user's reviews arrive as a parameter
 * (None when the request threw), uploaded image URLs arrive as a
 * parameter, and a submission is described by the values it sends.
 */
module ReviewFlow {
  import opened Wrappers
  import opened Arrays
  import opened RankingEngine
  import opened Js
  import ReviewService

  datatype Step = SearchStep | SatisfactionStep | ContentStep | KeywordsStep | RankingStep

  /**
   * The wizard's form. `id` is the edited review's id (None for a new
   * review); `satisfaction` is None only when an edited review had none.
   */
  datatype Form = Form(
    id: Option<string>,
    establishmentName: string,
    category: string,
    shopId: Option<string>,
    satisfaction: Option<Satisfaction>,
    rank: Option<int>,
    keywords: seq<string>)

  /** The alert shown when a step refuses to advance. */
  datatype Alert = SelectSatisfaction | UploadPhoto | EnterInfo

  /** What pressing "next" does. */
  datatype Next =
    | GoTo(step: Step)
    | Refuse(alert: Alert)
    | StartRankingCheck
    | Submit(finalRank: Option<int>)

  // ---------------------------------------------------------------------
  // nextStep / prevStep
  // ---------------------------------------------------------------------

  /** `nextStep`, given the number of images currently attached. */
  function NextStep(step: Step, form: Form, imageCount: nat): Next {
    match step
    case SearchStep => GoTo(SatisfactionStep)
    case SatisfactionStep =>
      if form.satisfaction.None? then Refuse(SelectSatisfaction) else GoTo(ContentStep)
    case ContentStep =>
      if imageCount == 0 then Refuse(UploadPhoto)
      else if form.establishmentName == "" || form.category == "" then Refuse(EnterInfo)
      else GoTo(KeywordsStep)
    case KeywordsStep =>
      if form.satisfaction == Some(Liked) then StartRankingCheck else Submit(None)
    case RankingStep => GoTo(RankingStep)
  }

  /** `prevStep`. */
  function PrevStep(step: Step): Step {
    match step
    case SearchStep => SearchStep
    case SatisfactionStep => SearchStep
    case ContentStep => SatisfactionStep
    case KeywordsStep => ContentStep
    case RankingStep => KeywordsStep
  }

  /** The step shown after pressing "next" (a refusal, a check or a submission leaves it unchanged). */
  function StepAfterNext(step: Step, next: Next): Step {
    if next.GoTo? then next.step else step
  }

  /**
   * The forward guards: the satisfaction step needs a satisfaction, the
   * content step at least one image and a non-empty name and category; a
   * refused step is left unchanged.
   */
  lemma NextStepGuards(step: Step, form: Form, imageCount: nat)
    ensures step == SatisfactionStep ==>
      (NextStep(step, form, imageCount).Refuse? <==> form.satisfaction.None?)
    ensures step == ContentStep ==>
      (NextStep(step, form, imageCount).Refuse? <==>
        imageCount == 0 || form.establishmentName == "" || form.category == "")
    ensures NextStep(step, form, imageCount).Refuse? ==>
      StepAfterNext(step, NextStep(step, form, imageCount)) == step
    ensures NextStep(step, form, imageCount).Refuse? ==> step == SatisfactionStep || step == ContentStep
  {
  }

  /** "Back" undoes every forward move of "next". */
  lemma PrevUndoesNext(step: Step, form: Form, imageCount: nat)
    ensures var next := NextStep(step, form, imageCount);
      next.GoTo? && next.step != step ==> PrevStep(next.step) == step
    ensures PrevStep(RankingStep) == KeywordsStep
    ensures PrevStep(SearchStep) == SearchStep
  {
  }

  /**
   * Only liked reviews go through the ranking check; every other tier is
   * submitted at once, without a final rank.
   */
  lemma OnlyLikedReviewsAreRanked(form: Form, imageCount: nat)
    ensures NextStep(KeywordsStep, form, imageCount) == StartRankingCheck <==> form.satisfaction == Some(Liked)
    ensures form.satisfaction != Some(Liked) ==> NextStep(KeywordsStep, form, imageCount) == Submit(None)
  {
  }

  // ---------------------------------------------------------------------
  // checkRanking
  // ---------------------------------------------------------------------

  /** `formData.shopId && ...`: a present, non-empty shop id. */
  predicate HasShopId(shopId: Option<string>) {
    shopId.Some? && shopId.value != ""
  }

  /** A review of the same place: same shop id (when the form has one) or same name. */
  function SameVisit(form: Form): Review -> bool {
    (r: Review) => (HasShopId(form.shopId) && r.shopId == form.shopId) || r.establishmentName == form.establishmentName
  }

  /** The reviews of the same place, in input order. */
  function Visits(form: Form, reviews: seq<Review>): seq<Review> {
    Filter(reviews, SameVisit(form))
  }

  /** The review of the same place with the latest visit date (the earliest such in input among ties). */
  function PreviousVisit(form: Form, reviews: seq<Review>): Option<Review> {
    var visits := Visits(form, reviews);
    if |visits| == 0 then None else Some(SortBy(visits, LatestFirst)[0])
  }

  /** The previous visit is a review of the same place that no other such review postdates. */
  lemma PreviousVisitIsLatest(form: Form, reviews: seq<Review>)
    ensures var p := PreviousVisit(form, reviews);
      && (p.None? <==> forall i :: 0 <= i < |reviews| ==> !SameVisit(form)(reviews[i]))
      && (p.Some? ==> p.value in reviews && SameVisit(form)(p.value))
      && (p.Some? ==> forall i :: 0 <= i < |reviews| && SameVisit(form)(reviews[i]) ==>
            reviews[i].visitDate <= p.value.visitDate)
  {
    var visits := Visits(form, reviews);
    var p := PreviousVisit(form, reviews);
    forall i | 0 <= i < |reviews| && SameVisit(form)(reviews[i]) ensures |visits| > 0 {
      FilterKeeps(reviews, SameVisit(form), i);
    }
    if |visits| > 0 {
      SortHeadIsFirstMin(visits, LatestFirst);
      var k := FirstMinIndex(visits, LatestFirst);
      FilterMember(reviews, SameVisit(form), visits[k]);
      forall i | 0 <= i < |reviews| && SameVisit(form)(reviews[i])
        ensures reviews[i].visitDate <= p.value.visitDate
      {
        FilterKeeps(reviews, SameVisit(form), i);
        var j :| 0 <= j < |visits| && visits[j] == reviews[i];
        assert LatestFirst(visits[k]) <= LatestFirst(visits[j]);
      }
    }
  }

  /**
   * The rank passed to the engine: the previous visit's rank, with an
   * unranked previous visit treated as no previous rank (see
   * `PreviousRankAsWritten`).
   */
  function PreviousRank(form: Form, reviews: seq<Review>): Option<int> {
    match PreviousVisit(form, reviews)
    case Some(r) => r.rank
    case None => None
  }

  /**
   * `previousVisit?.rank` as the wizard passes it: absent without a previous
   * visit, `null` (Some(None)) for an unranked one.
   */
  function PreviousRankAsWritten(form: Form, reviews: seq<Review>): Option<Option<int>> {
    match PreviousVisit(form, reviews)
    case Some(r) => Some(r.rank)
    case None => None
  }

  /** The two readings differ only when the previous visit is unranked. */
  lemma PreviousRankReadings(form: Form, reviews: seq<Review>)
    requires form.satisfaction.Some?
    ensures PreviousRankAsWritten(form, reviews) != Some(None) ==>
      GetComparisonTargetAsWritten(DraftOf(form), reviews, PreviousRankAsWritten(form, reviews))
        == GetComparisonTarget(DraftOf(form), reviews, PreviousRank(form, reviews))
  {
  }

  /** The form as the engine sees it. */
  function DraftOf(form: Form): Draft
    requires form.satisfaction.Some?
  {
    Draft(form.id, form.establishmentName, form.category, form.shopId, form.satisfaction.value)
  }

  /** The outcome of `checkRanking`. */
  datatype RankingCheck =
    | Compare(target: ComparisonTarget, range: RankRange)
    | SubmitAt(finalRank: Option<int>)

  /** The outcome of a ranking check once the reviews are fetched and a target is (or is not) found. */
  function CheckOutcome(form: Form, reviews: seq<Review>, target: Option<ComparisonTarget>): RankingCheck
    requires form.satisfaction.Some?
  {
    var range := GetRankRange(reviews, form.satisfaction.value);
    if target.Some? then Compare(target.value, range) else SubmitAt(Some(range.end))
  }

  /**
   * `checkRanking` as written, given the user's reviews (None when fetching
   * them threw): `previousVisit?.rank` goes to the engine unchanged, so an
   * unranked previous visit passes `null`. It enters the ranking step with a
   * comparison target, or submits at the end of the tier's band when there
   * is no target, or submits unranked on failure.
   */
  function CheckRanking(form: Form, fetched: Option<seq<Review>>): RankingCheck
    requires form.satisfaction.Some?
  {
    match fetched
    case None => SubmitAt(None)
    case Some(reviews) =>
      CheckOutcome(form, reviews, GetComparisonTargetAsWritten(DraftOf(form), reviews, PreviousRankAsWritten(form, reviews)))
  }

  /**
   * `checkRanking` with an unranked previous visit passed as no previous
   * rank, so that the engine's repeat-visit tier only matches a real rank.
   */
  function CheckRankingCorrected(form: Form, fetched: Option<seq<Review>>): RankingCheck
    requires form.satisfaction.Some?
  {
    match fetched
    case None => SubmitAt(None)
    case Some(reviews) =>
      CheckOutcome(form, reviews, GetComparisonTarget(DraftOf(form), reviews, PreviousRank(form, reviews)))
  }

  /** The step shown after the ranking check. */
  function StepAfterCheck(step: Step, check: RankingCheck): Step {
    if check.Compare? then RankingStep else step
  }

  /**
   * Without a comparison target the review is submitted at the end of its
   * tier's band (a positive rank, so the ranking is recalculated) and the
   * ranking step is never entered; with one, the ranking step is entered.
   * A failed fetch submits unranked.
   */
  lemma CheckRankingOutcome(form: Form, reviews: seq<Review>)
    requires form.satisfaction.Some?
    ensures var check := CheckRanking(form, Some(reviews));
      var target := GetComparisonTargetAsWritten(DraftOf(form), reviews, PreviousRankAsWritten(form, reviews));
      && (target.None? ==>
            check == SubmitAt(Some(GetRankRange(reviews, form.satisfaction.value).end))
            && check.finalRank.value >= 1
            && StepAfterCheck(KeywordsStep, check) == KeywordsStep)
      && (target.Some? ==>
            check == Compare(target.value, GetRankRange(reviews, form.satisfaction.value))
            && StepAfterCheck(KeywordsStep, check) == RankingStep)
    ensures CheckRanking(form, None) == SubmitAt(None)
  {
    RankRangeBands(reviews);
  }

  /** The same outcomes for the corrected check, with the corrected target. */
  lemma CheckRankingCorrectedOutcome(form: Form, reviews: seq<Review>)
    requires form.satisfaction.Some?
    ensures var check := CheckRankingCorrected(form, Some(reviews));
      var target := GetComparisonTarget(DraftOf(form), reviews, PreviousRank(form, reviews));
      && (target.None? ==>
            check == SubmitAt(Some(GetRankRange(reviews, form.satisfaction.value).end))
            && check.finalRank.value >= 1)
      && (target.Some? ==> check == Compare(target.value, GetRankRange(reviews, form.satisfaction.value)))
    ensures CheckRankingCorrected(form, None) == SubmitAt(None)
  {
    RankRangeBands(reviews);
  }

  /**
   * The written and the corrected check agree unless the previous visit is
   * unranked.
   */
  lemma CheckRankingAgreesUnlessUnranked(form: Form, fetched: Option<seq<Review>>)
    requires form.satisfaction.Some?
    requires fetched.Some? ==> PreviousRankAsWritten(form, fetched.value) != Some(None)
    ensures CheckRanking(form, fetched) == CheckRankingCorrected(form, fetched)
  {
    if fetched.Some? {
      PreviousRankReadings(form, fetched.value);
    }
  }

  /**
   * The wizard on a second visit to an unranked "Cafe A", with an unranked
   * disliked "Noodle B" review on record: as written it asks the user to
   * compare the cafe against "Noodle B" as a repeat visit; corrected, it
   * compares against the earlier "Cafe A" review.
   */
  lemma CheckRankingUnrankedRepeatVisit()
    ensures var noodle := Review("2", "u@x", "Noodle B", "noodle", None, Disliked, None, 1);
      var cafe := Review("1", "u@x", "Cafe A", "cafe", None, Liked, None, 2);
      var form := Form(None, "Cafe A", "cafe", None, Some(Liked), None, []);
      var range := GetRankRange([noodle, cafe], Liked);
      && CheckRanking(form, Some([noodle, cafe])) == Compare(ComparisonTarget(noodle, RepeatVisit), range)
      && CheckRankingCorrected(form, Some([noodle, cafe])) == Compare(ComparisonTarget(cafe, SimilarCategory), range)
  {
    var noodle := Review("2", "u@x", "Noodle B", "noodle", None, Disliked, None, 1);
    var cafe := Review("1", "u@x", "Cafe A", "cafe", None, Liked, None, 2);
    var form := Form(None, "Cafe A", "cafe", None, Some(Liked), None, []);
    var all := [noodle, cafe];
    assert Visits(form, all) == [cafe] by {
      assert !SameVisit(form)(noodle) && SameVisit(form)(cafe);
      assert all[1..] == [cafe];
      assert [cafe][1..] == [];
      assert Filter([cafe], SameVisit(form)) == [cafe] + Filter([], SameVisit(form));
    }
    assert SortBy([cafe], LatestFirst) == [cafe];
    assert PreviousRankAsWritten(form, all) == Some(None);
    assert PreviousRank(form, all) == None;
    UnrankedPreviousVisitPicksAnotherShop();
    UnrankedPreviousVisitCorrected();
  }

  // ---------------------------------------------------------------------
  // handleRankingComparison
  // ---------------------------------------------------------------------

  /** JavaScript `rank + 1` where `rank` may be `null` (which adds as 0). */
  function JsPlusOne(rank: Option<int>): int {
    rank.GetOr(0) + 1
  }

  /**
   * `handleRankingComparison`: None when there is no target (nothing is
   * submitted), otherwise the final rank submitted.
   */
  function HandleRankingComparison(target: Option<ComparisonTarget>, isBetter: bool): Option<Option<int>> {
    match target
    case None => None
    case Some(t) => if isBetter then Some(t.rank()) else Some(Some(JsPlusOne(t.rank())))
  }

  /**
   * "Better" takes the target's rank and "worse" the rank just below it;
   * without a target nothing is submitted.
   */
  lemma RankingComparisonResolves(target: Option<ComparisonTarget>)
    ensures target.None? ==> HandleRankingComparison(target, true).None? && HandleRankingComparison(target, false).None?
    ensures target.Some? && target.value.rank().Some? ==>
      && HandleRankingComparison(target, true) == Some(target.value.rank())
      && HandleRankingComparison(target, false) == Some(Some(target.value.rank().value + 1))
    ensures target.Some? && target.value.rank().None? ==>
      HandleRankingComparison(target, false) == Some(Some(1))
  {
  }

  // ---------------------------------------------------------------------
  // submitReview
  // ---------------------------------------------------------------------

  /** An attached image: a URL, and whether it is a newly picked file still to upload. */
  datatype ImageItem = ImageItem(url: string, hasFile: bool)

  /** The most images a review keeps. */
  const MaxImages := 20

  /** Appending picked images, keeping at most the first 20. */
  function AddImages(prev: seq<ImageItem>, added: seq<ImageItem>): (r: seq<ImageItem>)
    ensures |r| == if |prev| + |added| <= MaxImages then |prev| + |added| else MaxImages
    ensures forall i :: 0 <= i < |r| ==> r[i] == (prev + added)[i]
  {
    var all := prev + added;
    if |all| <= MaxImages then all else all[..MaxImages]
  }

  /** Adding images in two batches keeps what adding them in one batch keeps. */
  lemma AddImagesTwice(prev: seq<ImageItem>, a: seq<ImageItem>, b: seq<ImageItem>)
    ensures AddImages(AddImages(prev, a), b) == AddImages(prev, a + b)
  {
    assert prev + (a + b) == (prev + a) + b;
    if |prev + a| > MaxImages {
      assert AddImages(prev, a) + b == (prev + a)[..MaxImages] + b;
      assert (AddImages(prev, a) + b)[..MaxImages] == (prev + a + b)[..MaxImages];
    }
  }

  function HasFile(item: ImageItem): bool {
    item.hasFile
  }

  /** The files `submitReview` uploads: those of the items holding a newly picked file, in order. */
  function NewFiles(items: seq<ImageItem>): (files: seq<string>)
    ensures |files| == |Filter(items, HasFile)|
  {
    var picked := Filter(items, HasFile);
    seq(|picked|, i requires 0 <= i < |picked| => picked[i].url)
  }

  /** The number of new files among the first `i` items. */
  function FilesBefore(items: seq<ImageItem>, i: nat): nat
    requires i <= |items|
  {
    |Filter(items[..i], HasFile)|
  }

  /**
   * The URL stored for item `i`: an existing image keeps its URL; the k-th new
   * file takes the k-th uploaded URL, or none (`undefined`) if the upload
   * returned fewer URLs.
   */
  function FinalUrl(items: seq<ImageItem>, uploaded: seq<string>, i: nat): Option<string>
    requires i < |items|
  {
    var k := FilesBefore(items, i);
    if !items[i].hasFile then Some(items[i].url)
    else if k < |uploaded| then Some(uploaded[k])
    else None
  }

  lemma FilesBeforeStep(items: seq<ImageItem>, i: nat)
    requires i < |items|
    ensures FilesBefore(items, i + 1) == FilesBefore(items, i) + (if items[i].hasFile then 1 else 0)
  {
    assert items[..i + 1] == items[..i] + [items[i]];
    FilterConcat(items[..i], [items[i]], HasFile);
    assert [items[i]][1..] == [];
  }

  /**
   * The merge as the source walks it: one pass over the items with a
   * running index into the uploaded URLs.
   */
  method MergeImageUrls(items: seq<ImageItem>, uploaded: seq<string>) returns (urls: seq<Option<string>>)
    ensures |urls| == |items|
    ensures forall i :: 0 <= i < |items| ==> urls[i] == FinalUrl(items, uploaded, i)
  {
    urls := [];
    var uploadIdx := 0;
    for i := 0 to |items|
      invariant |urls| == i
      invariant uploadIdx == FilesBefore(items, i)
      invariant forall j :: 0 <= j < i ==> urls[j] == FinalUrl(items, uploaded, j)
    {
      FilesBeforeStep(items, i);
      if items[i].hasFile {
        urls := urls + [if uploadIdx < |uploaded| then Some(uploaded[uploadIdx]) else None];
        uploadIdx := uploadIdx + 1;
      } else {
        urls := urls + [Some(items[i].url)];
      }
    }
  }

  /**
   * When the upload returns one URL per new file, every item gets a URL,
   * existing images keep theirs, and the uploaded URLs are used in order,
   * each exactly once.
   */
  /** The k-th uploaded URL is stored for some new file. */
  predicate UploadUsed(items: seq<ImageItem>, uploaded: seq<string>, k: nat)
    requires k < |uploaded|
  {
    exists i :: 0 <= i < |items| && items[i].hasFile && FinalUrl(items, uploaded, i) == Some(uploaded[k])
  }

  lemma MergeUsesEveryUpload(items: seq<ImageItem>, uploaded: seq<string>)
    requires |uploaded| == |Filter(items, HasFile)|
    ensures forall i :: 0 <= i < |items| ==> FinalUrl(items, uploaded, i).Some?
    ensures forall i :: 0 <= i < |items| && !items[i].hasFile ==> FinalUrl(items, uploaded, i) == Some(items[i].url)
    ensures forall k :: 0 <= k < |uploaded| ==> UploadUsed(items, uploaded, k)
  {
    forall i | 0 <= i < |items| && items[i].hasFile ensures FilesBefore(items, i) < |uploaded| {
      FilesBeforeMonotone(items, i + 1, |items|);
      FilesBeforeStep(items, i);
      assert items[..|items|] == items;
    }
    forall k | 0 <= k < |uploaded| ensures UploadUsed(items, uploaded, k) {
      assert items[..|items|] == items;
      var i := FileNumbered(items, k, |items|);
      assert FinalUrl(items, uploaded, i) == Some(uploaded[k]);
    }
  }

  /**
   * The upload and the merge fit together: the upload asks the server
   * exactly when some item holds a new file, and when the server returns
   * one URL per file, the merge gives every item a URL and uses each
   * returned URL.
   */
  lemma UploadFeedsMerge(items: seq<ImageItem>, urls: seq<string>)
    requires |urls| == |Filter(items, HasFile)|
    ensures var call := ReviewService.UploadImages(NewFiles(items), Some(urls));
      && (call.sent <==> exists i :: 0 <= i < |items| && items[i].hasFile)
      && call.result == Success(urls)
      && (forall i :: 0 <= i < |items| ==> FinalUrl(items, urls, i).Some?)
      && (forall k :: 0 <= k < |urls| ==> UploadUsed(items, urls, k))
  {
    if exists i :: 0 <= i < |items| && items[i].hasFile {
      var i :| 0 <= i < |items| && items[i].hasFile;
      FilterKeeps(items, HasFile, i);
    }
    if Filter(items, HasFile) != [] {
      FilterMember(items, HasFile, Filter(items, HasFile)[0]);
    }
    MergeUsesEveryUpload(items, urls);
  }

  lemma {:induction false} FilesBeforeMonotone(items: seq<ImageItem>, i: nat, j: nat)
    requires i <= j <= |items|
    ensures FilesBefore(items, i) <= FilesBefore(items, j)
    decreases j - i
  {
    if i < j {
      FilesBeforeStep(items, i);
      FilesBeforeMonotone(items, i + 1, j);
    }
  }

  /** Among the first `n` items, the file that is the k-th one (0-based). */
  lemma {:induction false} FileNumbered(items: seq<ImageItem>, k: nat, n: nat) returns (i: nat)
    requires n <= |items| && k < FilesBefore(items, n)
    ensures i < n && items[i].hasFile && FilesBefore(items, i) == k
  {
    FilesBeforeStep(items, n - 1);
    if items[n - 1].hasFile && FilesBefore(items, n - 1) == k {
      i := n - 1;
    } else {
      i := FileNumbered(items, k, n - 1);
    }
  }

  /** `visitCount`: the earlier reviews of the same place, plus this one when it is new. */
  function VisitCount(form: Form, existing: seq<Review>, isEditMode: bool): nat {
    |Visits(form, existing)| + (if isEditMode then 0 else 1)
  }

  /** A new review counts itself; an edited one is already among the existing reviews. */
  lemma VisitCountCountsThisVisit(form: Form, existing: seq<Review>)
    ensures VisitCount(form, existing, false) == VisitCount(form, existing, true) + 1
    ensures VisitCount(form, existing, false) >= 1
    ensures VisitCount(form, existing, true) <= |existing|
    ensures (forall i :: 0 <= i < |existing| ==> !SameVisit(form)(existing[i])) ==>
      VisitCount(form, existing, false) == 1
  {
    if forall i :: 0 <= i < |existing| ==> !SameVisit(form)(existing[i]) {
      NothingKept(existing, SameVisit(form));
    }
  }

  lemma {:induction false} NothingKept<T>(s: seq<T>, p: T -> bool)
    requires forall i :: 0 <= i < |s| ==> !p(s[i])
    ensures Filter(s, p) == []
  {
    if s != [] {
      NothingKept(s[1..], p);
    }
  }

  /** What `submitReview` sends. */
  datatype Submission = Submission(
    rank: Option<int>,
    visitCount: nat,
    images: seq<Option<string>>,
    globalRankings: Option<seq<RankingItem>>)

  /**
   * `submitReview(finalRank)`: the review's rank is `finalRank || formData.rank`,
   * and only a truthy final rank triggers the absolute recalculation, saved
   * under the 'GLOBAL' category.
   */
  function SubmitReview(form: Form, existing: seq<Review>, isEditMode: bool,
                        items: seq<ImageItem>, uploaded: seq<string>, finalRank: Option<int>): Submission
  {
    Submission(
      if Truthy(finalRank) then finalRank else form.rank,
      VisitCount(form, existing, isEditMode),
      seq(|items|, i requires 0 <= i < |items| => FinalUrl(items, uploaded, i)),
      if Truthy(finalRank) then Some(RecalculateAbsoluteRankings(existing, form.establishmentName, finalRank.value))
      else None)
  }

  /**
   * An unranked submission keeps the form's rank and leaves the ranking
   * alone; a ranked one stores the final rank and recalculates the ranking
   * with this place at that rank (or last when the rank is past the end).
   */
  lemma SubmitReviewRanking(form: Form, existing: seq<Review>, isEditMode: bool,
                            items: seq<ImageItem>, uploaded: seq<string>, finalRank: Option<int>)
    ensures var s := SubmitReview(form, existing, isEditMode, items, uploaded, finalRank);
      && |s.images| == |items|
      && (!Truthy(finalRank) ==> s.rank == form.rank && s.globalRankings.None?)
      && (Truthy(finalRank) ==> s.rank == finalRank && s.globalRankings.Some?)
      && (Truthy(finalRank) ==>
            var others := SortedOthers(existing, form.establishmentName);
            1 <= finalRank.value <= |others| ==>
              s.globalRankings.value[finalRank.value - 1] == RankingItem(form.establishmentName, finalRank.value))
  {
  }

  /**
   * How `submitReview` ends. Its try block reads the existing reviews when
   * none are loaded, uploads the new files, saves or updates the review and,
   * for a truthy final rank, posts the 'GLOBAL' rankings; the first of these
   * that throws ends it with the save-failure alert, and only when none
   * throws does `onComplete` run.
   */
  datatype SubmitEnd =
    | NothingSent                      // reading the reviews or uploading the files threw
    | SaveFailed(sent: Submission)     // the review was sent and its save or update threw
    | RankingsFailed(sent: Submission) // the review was saved; posting the rankings threw
    | Completed(sent: Submission)      // everything went through; `onComplete` runs

  /** The 'GLOBAL' rankings posted on the way to this end, if any. */
  function RankingsPosted(e: SubmitEnd): Option<seq<RankingItem>> {
    match e
    case RankingsFailed(s) => s.globalRankings
    case Completed(s) => s.globalRankings
    case _ => None
  }

  /**
   * `submitReview(finalRank)` with each request's outcome as a parameter:
   * `existing` is `None` when the review list had to be fetched and the
   * fetch threw; `upload` is the server's answer to the upload (`None`: it
   * threw), consulted only when there are new files; `saved` is whether the
   * save or update succeeded; `rankingsPosted` whether the rankings request
   * went out without throwing.
   */
  function SubmitFlow(form: Form, existing: Option<seq<Review>>, isEditMode: bool, items: seq<ImageItem>,
                      upload: Option<seq<string>>, saved: bool, rankingsPosted: bool, finalRank: Option<int>): (r: SubmitEnd)
    ensures r.NothingSent? <==> existing.None? || (NewFiles(items) != [] && upload.None?)
    ensures r.Completed? <==>
      (existing.Some? && (NewFiles(items) == [] || upload.Some?) && saved && (Truthy(finalRank) ==> rankingsPosted))
    ensures !r.NothingSent? ==>
      r.sent == SubmitReview(form, existing.value, isEditMode, items, if NewFiles(items) == [] then [] else upload.value, finalRank)
    ensures RankingsPosted(r).Some? ==> saved && Truthy(finalRank)
    ensures r.RankingsFailed? ==> saved && Truthy(finalRank) && !rankingsPosted
  {
    match existing
    case None => NothingSent
    case Some(reviews) =>
      match ReviewService.UploadImages(NewFiles(items), upload).result
      case Failure(_) => NothingSent
      case Success(urls) =>
        var sent := SubmitReview(form, reviews, isEditMode, items, urls, finalRank);
        if !saved then SaveFailed(sent)
        else if sent.globalRankings.Some? && !rankingsPosted then RankingsFailed(sent)
        else Completed(sent)
  }

  /**
   * A failed upload or a failed save ends the submission with nothing
   * recalculated and without `onComplete`; when everything succeeds, a
   * truthy final rank posts the recalculated ranking and a falsy one posts
   * nothing.
   */
  lemma SubmitFlowFailures(form: Form, existing: seq<Review>, isEditMode: bool, items: seq<ImageItem>,
                           upload: Option<seq<string>>, saved: bool, rankingsPosted: bool, finalRank: Option<int>)
    ensures var r := SubmitFlow(form, Some(existing), isEditMode, items, upload, saved, rankingsPosted, finalRank);
      && (((NewFiles(items) != [] && upload.None?) || !saved) ==> !r.Completed? && RankingsPosted(r).None?)
      && (r.Completed? ==>
            RankingsPosted(r) == if Truthy(finalRank)
              then Some(RecalculateAbsoluteRankings(existing, form.establishmentName, finalRank.value))
              else None)
  {
  }

  /** A non-liked review, once past the keywords step, never touches the ranking. */
  lemma NonLikedNeverRecalculates(form: Form, imageCount: nat, existing: seq<Review>, isEditMode: bool,
                                  items: seq<ImageItem>, uploaded: seq<string>,
                                  fetched: Option<seq<Review>>, upload: Option<seq<string>>, saved: bool, posted: bool)
    requires form.satisfaction != Some(Liked)
    ensures var next := NextStep(KeywordsStep, form, imageCount);
      && next.Submit?
      && SubmitReview(form, existing, isEditMode, items, uploaded, next.finalRank).globalRankings.None?
      && RankingsPosted(SubmitFlow(form, fetched, isEditMode, items, upload, saved, posted, next.finalRank)).None?
  {
  }

  // ---------------------------------------------------------------------
  // keyword toggle
  // ---------------------------------------------------------------------

  function KeywordIsNot(code: string): string -> bool {
    (k: string) => k != code
  }

  /** Clicking a keyword chip: remove it if selected, else append it. */
  function ToggleKeyword(keywords: seq<string>, code: string): seq<string> {
    if code in keywords then Filter(keywords, KeywordIsNot(code)) else keywords + [code]
  }

  /** A toggle flips the clicked keyword's selection and leaves every other keyword's. */
  lemma ToggleKeywordFlips(keywords: seq<string>, code: string, other: string)
    requires other != code
    ensures code in ToggleKeyword(keywords, code) <==> code !in keywords
    ensures other in ToggleKeyword(keywords, code) <==> other in keywords
  {
    var p := KeywordIsNot(code);
    if code in keywords {
      var r := Filter(keywords, p);
      assert code !in r by {
        if code in r { FilterMember(keywords, p, code); }
      }
      if other in keywords {
        FilterKeeps(keywords, p, IndexOf(keywords, other));
      }
      if other in r {
        FilterMember(keywords, p, other);
      }
    }
  }

  /** Selecting a keyword and clicking it again restores the selection exactly. */
  lemma ToggleKeywordTwice(keywords: seq<string>, code: string)
    requires code !in keywords
    ensures ToggleKeyword(ToggleKeyword(keywords, code), code) == keywords
  {
    var p := KeywordIsNot(code);
    FilterConcat(keywords, [code], p);
    assert Filter([code], p) == [] by {
      assert [code][1..] == [];
    }
    FilterKeepsAll(keywords, p);
  }
}
