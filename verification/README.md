# mimy: a Dafny model of the review, ranking and taste-quiz core

mimy is a restaurant-review app. A user signs in by email and takes a taste
quiz. The quiz's seven axis sums are rounded and matched against a seed table
of clusters. The user then writes reviews of shops. Each review carries a
satisfaction (liked, normal or disliked) and, for a liked shop, an absolute
rank among the user's establishments. The rank is found by comparing the new
shop against one earlier review. The app also shows a paged feed of everyone's
reviews, with likes and comments, and lets users keep a list of saved shops.

This project models that core as pure Dafny functions over immutable data:

- the ranking engine:
  - the rank range of each satisfaction tier;
  - the choice of the review to compare against;
  - the recalculation of the absolute ranking after a shop is placed;
- the review wizard's client logic: steps, image merge, the ranking check and the submit;
- the review, ranking, like, feed and comment endpoints over an in-memory picture of their tables;
- the seed-file parsers (TSV match table, CSV cluster table) and cluster matching;
- the user service and user endpoints;
- the client's local-storage session and storage service;
- the quiz, onboarding, profile-edit and settings screens;
- the home feed's infinite scroll and the per-review list updates;
- the shop search, explore sample and "my list" endpoints;
- the top-level screen routing.

Server tables are sequences (row order) or sets and maps (where a UNIQUE
constraint makes them so). The outcome of a request that can fail is a
parameter (a `Result`, an `Option` or a flag); so are the clock,
`Math.random`, `ORDER BY RANDOM()` and the quiz's question list. A request
that throws is told apart from one whose non-OK reply the client reads as an
empty answer. JavaScript's truthiness,
`||`, truncating `%` and `parseInt` are written out in the modules `Js` and
`Text`.

One module corresponds to one source file or component. Shared pieces:
- `Wrappers`: `Option` and `Result`.
- `Js`: truthiness, `||` and truncating remainder.
- `Text`: trim, split, join, lower-casing, `parseInt` and integer printing.
- `Arrays`: filter, find, index-of, and a stable insertion sort with its permutation and stability lemmas.
- `Http`: the status codes.

## Model

| member | source | states |
|---|---|---|
| RankingEngine.GetRankRange | src/utils/rankingEngine.ts:17-33 | liked reviews take ranks 1..L, normal ones follow, disliked ones come last; each band's width is that tier's review count |
| RankingEngine.RankRangeBands | src/utils/rankingEngine.ts:24-31 | the three bands are adjacent, start at 1, and together end at the number of reviews plus one |
| RankingEngine.RankRangeOfNothing | src/utils/rankingEngine.ts:24-31 | with no reviews every tier's range is the single slot [1, 1) |
| RankingEngine.RankRangeIgnoresOrderAndRanks | src/utils/rankingEngine.ts:18-22 | the ranges depend only on the multiset of satisfactions: reordering reviews or changing their ranks leaves them unchanged |
| RankingEngine.ComparisonTargetIsCandidate | src/utils/rankingEngine.ts:38-101 | a target is always one of the given reviews and never the draft itself; unless it is a repeat visit it shares the draft's tier, and a similar-category target also shares its category |
| RankingEngine.ComparisonTargetRepeatVisit | src/utils/rankingEngine.ts:49-58 | when another review holds the previous visit's rank, that review is chosen as a repeat visit |
| RankingEngine.ComparisonTargetSimilarCategory | src/utils/rankingEngine.ts:62-79 | otherwise, among reviews of the same category and tier, the best ranked (unranked counted as 9999) comes first, earliest in list order among ties |
| RankingEngine.ComparisonTargetRecent | src/utils/rankingEngine.ts:83-98 | otherwise the latest-visited review of the same tier is chosen, the earliest in list order among equal dates |
| RankingEngine.ComparisonTargetNone | src/utils/rankingEngine.ts:100 | there is no target exactly when no other review shares the draft's tier and no repeat visit exists |
| RankingEngine.GetComparisonTargetAsWritten | src/utils/rankingEngine.ts:49-58 | with a `null` previous rank the repeat-visit test matches any unranked review; otherwise it behaves as the corrected engine |
| RankingEngine.UnrankedPreviousVisitPicksAnotherShop | src/components/ReviewFlow.tsx:213-217 | on a history of an unranked disliked "Noodle B" review and an unranked liked "Cafe A" review, a new liked "Cafe A" draft whose previous visit reads as `null` is compared against "Noodle B", another shop in another tier |
| RankingEngine.UnrankedPreviousVisitCorrected | src/utils/rankingEngine.ts:49-58 | on the same history the corrected engine skips the repeat-visit tier and compares against the earlier "Cafe A" review as a same-category match |
| RankingEngine.Dedup | src/utils/rankingEngine.ts:116 | `new Set` keeps each name once, exactly the names present, in order of first appearance |
| RankingEngine.SortedOthers | src/utils/rankingEngine.ts:116-124 | the other establishments are distinct, exclude the moving one, and are ordered by the rank of each name's first review in the list (an unranked first review counting as 9999); names with equal keys keep their first-occurrence order |
| RankingEngine.Position | src/utils/rankingEngine.ts:129-139 | a new rank in 1..n inserts before the shop at that rank; any other rank appends at the end |
| RankingEngine.RecalculateAbsoluteRankings | src/utils/rankingEngine.ts:107-142 | the result numbers 1..n+1 the other establishments in order with the moving one spliced in at its position |
| RankingEngine.RecalculateByWalk | src/utils/rankingEngine.ts:129-139 | the loop of `recalculateAbsoluteRankings`, which counts ranks while walking the others and appends the moving shop if it was not placed, computes the same ranking |
| RankingEngine.Walk | src/utils/rankingEngine.ts:129-139 | the loop's invariant: the items emitted so far are the numbered prefix of the spliced list |
| RankingEngine.RecalculateCoversEveryEstablishment | src/utils/rankingEngine.ts:107-142 | every establishment the user reviewed appears exactly once in the new ranking, and nothing else does |
| RankingEngine.RecalculateIdempotent | src/utils/rankingEngine.ts:107-142 | recomputing from the rows the ranking produced, with the moving shop at its new place, yields the same ranking |
| ReviewFlow.NextStepGuards | src/components/ReviewFlow.tsx:137-164 | "next" is refused exactly on the satisfaction step without a choice and on the content step without an image, a name or a category; a refused "next" stays on its step |
| ReviewFlow.PrevUndoesNext | src/components/ReviewFlow.tsx:166-171 | "back" returns to the step an accepted "next" came from; the first step has no step before it |
| ReviewFlow.OnlyLikedReviewsAreRanked | src/components/ReviewFlow.tsx:157-163 | the keyword step starts the ranking check if and only if the review is "liked", and submits without a rank otherwise |
| ReviewFlow.PreviousVisitIsLatest | src/components/ReviewFlow.tsx:206-208 | the previous visit is a review of the same shop with the greatest visit date |
| ReviewFlow.PreviousRankReadings | src/components/ReviewFlow.tsx:213-217 | the as-written previous rank and the corrected one agree except for an unranked previous visit, which as written reads as `null` |
| ReviewFlow.CheckRankingOutcome | src/components/ReviewFlow.tsx:200-230 | `checkRanking` as written, which hands `previousVisit?.rank` (`null` for an unranked visit) to the engine: with the engine's target the flow moves to the comparison step with the tier's range; without one it submits at the end of the draft's tier range, a rank of at least 1; a fetch that throws submits unranked, while a non-OK reply reads as no reviews and submits at the end of the range |
| ReviewFlow.CheckRankingCorrectedOutcome | src/components/ReviewFlow.tsx:200-230 | the same outcomes for the corrected check, which passes an unranked previous visit as no previous rank |
| ReviewFlow.CheckRankingAgreesUnlessUnranked | src/components/ReviewFlow.tsx:206-217 | the written and the corrected check reach the same outcome whenever there is no previous visit or it is ranked, and when the fetch fails |
| ReviewFlow.CheckRankingUnrankedRepeatVisit | src/components/ReviewFlow.tsx:213-217 | on a history of an unranked disliked "Noodle B" and an unranked liked "Cafe A", a new liked "Cafe A" review is compared, as written, against "Noodle B" as a repeat visit, and, corrected, against the earlier "Cafe A" review |
| ReviewFlow.RankingComparisonResolves | src/components/ReviewFlow.tsx:309-321 | "better" submits the target's rank and "worse" one below it, with an unranked target counted as `null + 1 = 1` |
| ReviewFlow.AddImages | src/components/ReviewFlow.tsx:133 | new images are appended and the list is cut to the first 20 |
| ReviewFlow.AddImagesTwice | src/components/ReviewFlow.tsx:133 | adding images in two batches keeps exactly what adding them in one batch keeps |
| ReviewFlow.MergeImageUrls | src/components/ReviewFlow.tsx:248-254 | each image with a file takes the next uploaded URL in order; each image without one keeps its URL |
| ReviewFlow.MergeUsesEveryUpload | src/components/ReviewFlow.tsx:248-254 | when the upload returns one URL per file, every image gets a URL and every uploaded URL is used |
| ReviewFlow.NewFiles | src/components/ReviewFlow.tsx:241 | one file is uploaded per image item that holds a newly picked file |
| ReviewFlow.UploadFeedsMerge | src/components/ReviewFlow.tsx:241-254 | the upload asks the server exactly when some item holds a new file, returns the server's URLs, and, with one URL per file, the merge gives every item a URL and uses each returned URL |
| ReviewFlow.VisitCountCountsThisVisit | src/components/ReviewFlow.tsx:236-239 | a new review counts itself as one more visit than an edit does; a first visit counts 1 |
| ReviewFlow.SubmitReviewRanking | src/components/ReviewFlow.tsx:272-298 | on the path where every request succeeds (`SubmitFlow` covers failures): a truthy final rank becomes the review's rank and triggers a global recalculation that places the shop at that rank; a falsy one keeps the form's rank and recalculates nothing; every image gets a URL slot |
| ReviewFlow.NonLikedNeverRecalculates | src/components/ReviewFlow.tsx:283-298 | a review that is not "liked" never reaches the ranking recalculation, whatever its requests answer |
| ReviewFlow.SubmitFlow | src/components/ReviewFlow.tsx:232-307 | the submission ends at the first request that throws (the review fetch, the upload, the save or update, the rankings post) with the failure alert and without `onComplete`; it completes exactly when none throws; the review sent is the one `SubmitReview` builds from the uploaded URLs; rankings are posted only after a successful save and for a truthy final rank |
| ReviewFlow.SubmitFlowFailures | src/components/ReviewFlow.tsx:244-303 | a failed upload or a failed save never completes and posts no rankings; a completed submission posts the recalculated ranking exactly when the final rank is truthy |
| ReviewFlow.ToggleKeywordFlips | src/components/ReviewFlow.tsx:554 | toggling a keyword flips its presence and leaves every other keyword as it was |
| ReviewFlow.ToggleKeywordTwice | src/components/ReviewFlow.tsx:554 | toggling an absent keyword twice restores the list |
| ReviewController.CreateReview | server/controllers/reviewController.ts:5-29 | one row is added under a fresh id and the table's ids stay unique; a falsy rank is stored as NULL and a falsy visit count as 1 |
| ReviewController.UpdateReview | server/controllers/reviewController.ts:147-180 | only the rows with that id change, and only in their editable columns; a falsy rank is stored as NULL but the visit count as sent; the reply is success even when no row matched |
| ReviewController.UpdateReviewKeepsIds | server/controllers/reviewController.ts:154-167 | an update keeps the table's ids unique and below the counter |
| ReviewController.UpdateRank | server/controllers/reviewController.ts:129-140 | one sync statement changes at most the rank column of any row |
| ReviewController.SyncRanks | server/controllers/reviewController.ts:129-141 | the sync loop changes only rank columns and keeps the table's size |
| ReviewController.UpdateRankings | server/controllers/reviewController.ts:107-145 | the (email, category) index entry is replaced, unless its write fails, and no other entry changes; the reviews keep everything but ranks; the reply is always success |
| ReviewController.SyncRanksPointwise | server/controllers/reviewController.ts:129-141 | a row's final rank is that of the last applied ranking item that selects it, or its old rank when none does; nothing else in the row changes |
| ReviewController.GlobalSyncIgnoresCategory | server/controllers/reviewController.ts:130-136 | for the global category, a row of that email and name takes the item's rank whatever the row's category |
| ReviewController.CategorySyncLeavesOtherRows | server/controllers/reviewController.ts:130-136 | for a named category, rows of other categories or other users are untouched |
| ReviewController.ToggleLike | server/controllers/reviewController.ts:258-281 | no user id is a 400; otherwise the like is added when absent or removed when present, and the reply is the new state and the review's like count |
| ReviewController.ToggleLikeTwice | server/controllers/reviewController.ts:264-279 | two toggles restore the likes table |
| ReviewController.ToggleLikeCount | server/controllers/reviewController.ts:323-328 | the count replied changes by exactly one, up on a like and down on an unlike |
| ReviewController.PageNumber | server/controllers/reviewController.ts:184 | the page is never 0: a missing or unreadable page is 1 |
| ReviewController.FeedOffset | server/controllers/reviewController.ts:185-186 | page p reads from offset (p-1)*15; an offset that would be negative behaves as 0 |
| ReviewController.Window | server/controllers/reviewController.ts:201-202 | a page is the contiguous slice of at most 15 rows at the offset; a short page reaches the end of the feed |
| ReviewController.GetFeed | server/controllers/reviewController.ts:182-203 | a feed page holds at most 15 reviews |
| ReviewController.PageNumberReadsClientPage | server/controllers/reviewController.ts:184 | a non-zero page number the client prints is read back as itself |
| ReviewController.WindowsTile | server/controllers/reviewController.ts:185-202 | pages 1..k joined are the first k*15 rows of the order, with no row skipped or repeated |
| ReviewController.FeedPagesTile | server/controllers/reviewController.ts:182-203 | the same tiling holds for the feed order itself: newest first, only reviews whose author exists |
| ReviewController.DeleteComment | server/controllers/reviewController.ts:311-320 | 404 exactly when no comment has that id and that author; afterwards no such comment remains |
| ReviewController.DeleteCommentKeepsOthers | server/controllers/reviewController.ts:315-318 | every comment the request does not match survives, nothing new appears, and a request without a user id deletes nothing |
| ReviewService.GetRankings | src/services/reviewService.ts:35-39 | a failed request reads as no rankings; otherwise the server's lists |
| ReviewService.UpdateRankings | src/services/reviewService.ts:41-56 | when no list has the category, the shop is saved alone at rank 1 |
| ReviewService.UpdateRankingsExistingCategory | src/services/reviewService.ts:48-53 | for a listed category the saved list is the old one with the shop appended, or nothing when it is already there |
| ReviewService.UpdateRankingsSettles | src/services/reviewService.ts:41-56 | running the same update on the lists as saved saves nothing more |
| ReviewService.UpdateRankingsKeepsNumbering | src/services/reviewService.ts:48-53 | a list numbered 1..n stays numbered 1..n+1 after a new shop is appended |
| ReviewService.UpdateCategoryOrder | src/services/reviewService.ts:67-73 | the saved items carry the names in the given order with ranks 1..n |
| ReviewService.CategoryOrderRoundTrip | src/services/reviewService.ts:67-73 | saving the names of a list numbered 1..n saves that list back |
| ReviewService.UploadImages | src/services/reviewService.ts:75-91 | no files sends nothing and gives []; a failed upload throws; otherwise the server's URLs |
| ReviewService.SearchShops | src/services/reviewService.ts:93-98 | an empty query sends nothing; a failed request reads as []; otherwise the server's shops |
| ReviewService.SearchShowsServerRows | src/services/reviewService.ts:93-98 | the client asks the server exactly when the search endpoint reads the table, and shows exactly the rows the endpoint answers |
| ClusterService.ClusterKey | server/services/clusterService.ts:17 | the key splits on ',' into seven parts that parse back as the axis values, in axis order, with null read as 0 |
| ClusterService.ClusterKeyInjective | server/services/clusterService.ts:17 | two profiles share a key exactly when they agree on all seven axes |
| ClusterService.NullAxisIsZero | server/services/clusterService.ts:17 | a null axis is keyed as 0, and fields outside the seven axes do not affect the key |
| ClusterService.MatchLineReadsBack | server/utils/fileParser.ts:10-16 | the match-file line written for a profile's key is parsed back into exactly that key and cluster id |
| ClusterService.ClusterById | server/services/dataService.ts:30-36 | the intended lookup: the cluster found belongs to a row with that id, and there is none exactly when no row has it (as written the call throws; see Findings) |
| ClusterService.MatchCluster | server/services/clusterService.ts:16-35 | "not found for this profile" exactly when the key is missing from the map; "info not found" when its id has no row; otherwise that row's cluster |
| ClusterService.MatchClusterFindsFirstRow | server/services/clusterService.ts:16-35 | the cluster returned is the first row for the mapped id, and profiles equal on all axes get the same cluster |
| ClusterController.MatchClusterReply | server/controllers/clusterController.ts:5-24 | a missing profile is a 400; a key absent from the match map is a 404 whatever the cluster lookup would do, since the lookup is never reached; a match file that cannot be read, a lookup that throws and a missing cluster row are 500s; success carries the cluster |
| ClusterController.StatusExplainsFailure | server/controllers/clusterController.ts:14-21 | once the match file is read, 404 means exactly that the profile's key has no match line, and 500 that the key matched but the lookup threw or found no cluster row |
| ClusterController.MatchClusterReplyAsWritten | server/services/dataService.ts:30-36 | with the lookup as written (it always throws) no reply is a success |
| ClusterController.AsWrittenNeverMatches | server/services/clusterService.ts:20-34 | as written a profile whose key is matched and whose cluster row exists gets a 500, where the working lookup answers that row |
| ClusterController.AllClustersReply | server/controllers/clusterController.ts:26-35 | the listing answers every row of the clusters table, or a 500 "Failed to load clusters" when reading it throws |
| FileParser.LineEntry | server/utils/fileParser.ts:7-16 | a line yields an entry only when it has a tab-separated, non-blank first part and a second part that parses as an integer |
| FileParser.ParseTSV | server/utils/fileParser.ts:1-21 | the map's keys are exactly those yielded by some data line after the header |
| FileParser.ParseTSVLastLineWins | server/utils/fileParser.ts:15 | for a key yielded by several lines, the value is that of the last such line; the header never contributes |
| FileParser.DataLastWins | server/utils/fileParser.ts:6-18 | dropping the header entry keeps the last-wins reading of the data entries |
| FileParser.LineEntryReadsWrittenLine | server/utils/fileParser.ts:10-16 | a written `key<TAB>value` line with a clean key reads back as that entry |
| FileParser.ParseCSVLine | server/utils/fileParser.ts:23-50 | the line is split into trimmed fields, with quoting honoured |
| FileParser.ScanCount | server/utils/fileParser.ts:32-49 | the number of fields is one more than the number of commas met outside quotes |
| FileParser.QuoteFreeSeparators | server/utils/fileParser.ts:41-49 | a line without quotes has one field more than it has commas |
| FileParser.ParseCSVLineReadsQuotedFields | server/utils/fileParser.ts:32-39 | quoted fields joined by commas read back as the trimmed originals: commas inside quotes stay, and a doubled quote is one quote |
| FileParser.Column | server/utils/fileParser.ts:62-64 | a column is the value under the last header of that name, '' when the line is short, and undefined when no header has the name |
| FileParser.ParseRecord | server/utils/fileParser.ts:62-74 | a record's fields are its columns, each with its default when missing or empty |
| FileParser.ParseCSV | server/utils/fileParser.ts:52-78 | fewer than two lines give no records; otherwise one record per data line, in order |
| FileParser.MissingColumnDefaults | server/utils/fileParser.ts:66-73 | a record whose line lacks a column takes that column's default |
| UserStore.Kept | server/services/userService.ts:55 | no entry left for the SET clause is id, email or created_at, and the clause is empty exactly when every key is one of those |
| UserStore.UpdateStatement | server/services/userService.ts:53-70 | nothing to set gives no statement; otherwise the statement lists the kept keys and binds their values and then the id |
| UserStore.PlaceholdersMatchValues | server/services/userService.ts:56-60 | the statement has one '?' per bound value |
| UserStore.StatementCount | server/services/userService.ts:58-60 | the fixed text around the clause adds exactly the id's placeholder |
| UserStore.ColumnOf | server/services/userService.ts:58 | a SET key names the column it spells up to ASCII case, as SQLite resolves identifiers; a key that spells none names nothing |
| UserStore.ColumnOfIgnoresCase | server/services/userService.ts:58 | lower-casing a key first names the same column |
| UserStore.ProtectedColumnSpelled | server/services/userService.ts:55 | a key names id, email or created_at only when it spells that column in some case |
| UserStore.SetValueNone | server/services/userService.ts:58-62 | the statement leaves a column alone exactly when no settable key names it |
| UserStore.SetValueRightmost | server/services/userService.ts:58-62 | of several keys naming one column, the rightmost one's value is the one written |
| UserStore.SetFieldsReads | server/services/userService.ts:58-62 | after the SET, each named column other than id and email holds its rightmost value, and every other column keeps its old value |
| UserStore.SetRow | server/services/userService.ts:58-62 | the id takes only a non-negative integer, a number sent as email is stored as its text, and id and email stay as they were unless some key names them |
| UserStore.SetRowTwice | server/services/userService.ts:58-62 | applying the same SET to the row it produced changes nothing |
| UserStore.InsertedFields | server/services/userService.ts:36-46 | a created row reads back with name and photo as inserted, created_at from the clock, defaultRankingVisibility 'public', and every other column NULL |
| UserStore.UpdateUser | server/services/userService.ts:53-70 | nothing to set resolves undefined without touching the table; a settable key naming no column in any case fails; a failure changes nothing; otherwise only the row with that id gets the SET, the table keeps unique ids and emails, and the row is read back by the id requested |
| UserStore.UpdateUserReadsBack | server/services/userService.ts:62-67 | when no key names id or email in any case, the returned user is the updated row with id and email unchanged, each named column holding its rightmost value and the others their old ones |
| UserStore.UpdateUserIdempotent | server/services/userService.ts:53-70 | sending the same update twice leaves the table as one update did |
| UserStore.EmailVariantBypassesProtection | server/services/userService.ts:55 | a body `{"Email": "b@x"}` passes the case-sensitive filter and rewrites the user's email |
| UserStore.IdVariantMovesTheUser | server/services/userService.ts:55 | a body `{"ID": 7}` moves the user to id 7, the read-back by the old id finds nothing, and the counter moves past 7 |
| UserStore.CorrectedNeverNamesKeys | server/services/userService.ts:55 | once keys spelling id or email in any case are dropped, no key names either column |
| UserStore.UpdateUserCorrectedKeepsKeys | server/services/userService.ts:53-70 | with the filter ignoring case, an update keeps every id, email and the counter whatever is sent, and returns the updated row when it sets something |
| UserStore.Latest | server/services/userService.ts:93 | the latest row is the user's row with the greatest creation time; there is none only when the user has no row |
| UserStore.SavedResultIsLatest | server/services/userService.ts:72-83 | a result saved later than all of the user's others becomes the latest |
| UserStore.GetLatestResult | server/services/userService.ts:85-128 | null without a quiz row; otherwise the latest row's profile with the fresh cluster row for its id, or the saved snapshot when that lookup fails or finds nothing |
| UserController.FindByEmail | server/services/userService.ts:19-26 | the user found has the email asked for, and none is found only when no row has it |
| UserController.LoginUser | server/controllers/userController.ts:5-22 | no email is a 400; a known email returns its row unchanged; an unknown one inserts a row under the next id with the name (default 'User') and photo (default ''), the clock's created_at and the 'public' visibility default, and returns it |
| UserController.LoginTwice | server/controllers/userController.ts:12-14 | logging in again with the same email returns the same user and inserts nothing |
| UserController.GetUser | server/controllers/userController.ts:24-38 | an unknown id is a 404; a known one comes back with its latest quiz result |
| UserController.LoggedInUserIsFound | server/controllers/userController.ts:24-38 | a user who just logged in is found by id |
| Quiz.HandleAnswer | src/screens/QuizScreen.tsx:20-28 | the answer is stored under the current question's id; the last answer hands the full map, itself included, to the result step |
| Quiz.AnswerAllCollects | src/screens/QuizScreen.tsx:20-28 | answering every remaining question hands over, exactly once and at the last question, a map holding each answer under its question's id |
| Quiz.AnswersKeepEarlier | src/screens/QuizScreen.tsx:20-24 | later answers never overwrite an earlier question's answer |
| Quiz.NoAnswersSumToZero | src/screens/QuizScreen.tsx:34-39 | with no answers every axis sums to 0 |
| Quiz.AnswerMovesOwnAxis | src/screens/QuizScreen.tsx:34-39 | answering a question changes only its own axis's sum |
| Quiz.AxisSumConcat | src/screens/QuizScreen.tsx:34-39 | the sum over two question lists is the sum of their sums |
| Quiz.RoundThird | src/screens/QuizScreen.tsx:40-43 | `Math.round(sum / 3)` is within a half of sum/3, with halves rounding up |
| Quiz.RoundThirdUnique | src/screens/QuizScreen.tsx:40-43 | it is the only integer that is |
| Quiz.QuizProfile | src/screens/QuizScreen.tsx:40-43 | every axis of the profile is the rounded third of that axis's sum |
| Quiz.ProfileKeyListsRoundedSums | src/screens/QuizScreen.tsx:40-46 | the cluster key of the quiz profile lists the seven rounded sums in axis order |
| Quiz.ProcessResult | src/screens/QuizScreen.tsx:30-64 | the quiz completes exactly when both the match and the save succeed, and then with the matched cluster and the rounded profile (as written the match always fails; see Findings) |
| Onboarding.MatchesNicknamePattern | src/screens/OnboardingFlow.tsx:87-95 | a non-empty string matches exactly when every character is a letter, digit, '.', '_' or '-' |
| Onboarding.ValidateNickname | src/screens/OnboardingFlow.tsx:87-95 | the empty nickname is accepted; any other is accepted exactly when it matches the pattern |
| Onboarding.NicknameConcat | src/screens/OnboardingFlow.tsx:87-95 | a concatenation is valid exactly when both halves are |
| Onboarding.ValidNicknameIsTrimmed | src/screens/OnboardingFlow.tsx:59 | a valid nickname has no whitespace, so trimming leaves it alone and only "" is blank |
| Onboarding.Pad2 | src/screens/OnboardingFlow.tsx:65-67 | padding yields at least two characters and ends with the original text |
| Onboarding.Pad2Facts | src/screens/OnboardingFlow.tsx:65-67 | padding adds only zeros, so no '.', and padding twice is padding once |
| Onboarding.CombineBirthDate | src/screens/OnboardingFlow.tsx:65-67 | all three fields filled give "Y.MM.DD"; any field empty gives "" |
| Onboarding.FillBirthDate | src/screens/OnboardingFlow.tsx:41-47 | a stored date with exactly three '.'-separated parts fills the three fields; anything else leaves them "" |
| Onboarding.BirthDateReadBack | src/screens/OnboardingFlow.tsx:41-47 | a saved date of dot-free fields reads back as the year and the padded month and day |
| Onboarding.BirthDateRoundTrip | src/screens/OnboardingFlow.tsx:41-67 | saving what was read back stores the same string |
| Onboarding.ChangeNickname | src/screens/OnboardingFlow.tsx:97-101 | the typed value is kept and its error is set exactly when it is invalid |
| Onboarding.HandleNext | src/screens/OnboardingFlow.tsx:53-85 | steps 1-2 advance; step 3 advances only with a non-blank nickname without error; step 4 saves the profile when there is a user and advances unless that save failed; nothing but the step changes |
| Onboarding.HandleBack | src/screens/OnboardingFlow.tsx:103-107 | one step back, never below step 1 |
| Onboarding.HandleSkipQuiz | src/screens/OnboardingFlow.tsx:109-121 | a latest result shows it at step 6; no result, or a failed fetch, completes onboarding |
| Onboarding.BackUndoesNext | src/screens/OnboardingFlow.tsx:53-107 | every forward move among steps 1-4 is undone by one "back" |
| Onboarding.StepsStayInRange | src/screens/OnboardingFlow.tsx:53-121 | the wizard never leaves steps 1-6 |
| Onboarding.EditedNicknameDecidesStep3 | src/screens/OnboardingFlow.tsx:59 | at step 3 an edited nickname that is non-empty and valid advances, and an invalid one stays |
| ProfileEdit.HandleSave | src/components/ProfileEditModal.tsx:69-97 | no user id or an invalid nickname skips the save; a failed picture upload sends nothing; otherwise the update carries the nickname, the bio and the new or the stored picture, and the server's answer becomes the user |
| ProfileEdit.TextOnlySaveKeepsPicture | src/components/ProfileEditModal.tsx:75-86 | without a new picture the stored picture is sent back unchanged |
| ProfileEdit.SaveGateIsTheOnboardingRule | src/components/ProfileEditModal.tsx:29-37 | the editor accepts exactly the nicknames onboarding accepts |
| Settings.Clamp | src/components/SettingsModal.tsx:86 | the limit sent is within [1, 99], equal to the input when it already is |
| Settings.ClampIdempotentMonotone | src/components/SettingsModal.tsx:86 | clamping twice is clamping once, and the clamp keeps order |
| Settings.SentLimit | src/components/SettingsModal.tsx:85-93 | a number is sent clamped; NaN is sent as NaN |
| Settings.Decrement | src/components/SettingsModal.tsx:139 | "-" always sends a limit within [1, 99] |
| Settings.Increment | src/components/SettingsModal.tsx:159 | "+" always sends a limit within [1, 99] |
| Settings.ButtonsStep | src/components/SettingsModal.tsx:139-159 | the buttons move the limit by one inside [1, 99], saturate at the ends, undo each other away from the ends, and start from 10 when no limit is set |
| Settings.FieldLimit | src/components/SettingsModal.tsx:149-152 | an empty field means 1, anything else is read by `parseInt` |
| Settings.FieldSendsTypedLimit | src/components/SettingsModal.tsx:149-152 | typing a limit in range sends exactly that limit |
| Settings.ChooseVisibility | src/components/SettingsModal.tsx:103-114 | choosing "partial" without a limit also sends the limit 10; any other choice sends only the visibility |
| Settings.PartialAlwaysHasLimit | src/components/SettingsModal.tsx:105-109 | after choosing "partial" the user has a limit, and an existing one is kept |
| ReviewCard.OrdinalSuffix | src/components/ReviewCard.tsx:16-20 | the suffix is one of "th", "st", "nd", "rd" |
| ReviewCard.OrdinalSuffixIsEnglish | src/components/ReviewCard.tsx:16-20 | for every natural number the suffix is the English one: 11th-13th, otherwise by the last digit |
| ReviewCard.OrdinalSuffixLastTwoDigits | src/components/ReviewCard.tsx:16-20 | the suffix depends only on the last two digits |
| ReviewCard.OrdinalSuffixOfNegative | src/components/ReviewCard.tsx:16-20 | a negative number always gets "th" |
| ReviewCard.RankBadge | src/components/ReviewCard.tsx:52-58 | a badge appears exactly for a positive rank, with the suffix only in English |
| ReviewCard.ReadMoreGuard | src/components/ReviewCard.tsx:85 | expanding hides the button, and texts of at most 100 characters never show it |
| ReviewCard.InitialLike | src/components/ReviewCard.tsx:25-26 | a card starts liked only when the review says it is liked, with the review's like count or 0 |
| ReviewCard.ToggleLike | src/components/ReviewCard.tsx:186-191 | a press flips the flag and moves the count by one in the same direction |
| ReviewCard.ToggleLikeTwice | src/components/ReviewCard.tsx:186-191 | two presses restore the flag and the count |
| I18n.FirstFilled | src/utils/i18nUtils.ts:14 | a JavaScript or-chain ending in '' gives the first filled-in value, '' exactly when none is, and never a value outside the chain |
| I18n.LocalizedShopName | src/utils/i18nUtils.ts:3-15 | no item gives ''; a language starting with ko, en or ja (ignoring case) takes its own name field when filled in; otherwise the first filled-in of shopName, shopNameKo, shopNameEn, shopNameJp and establishmentName, else '' |
| I18n.RepeatedFallbackIsRedundant | src/utils/i18nUtils.ts:14 | the second `shopName` at the end of the fallback chain never changes its result |
| I18n.LocalizedShopDetail | src/utils/i18nUtils.ts:17-27 | the same rule over detailKo, detailEn and detailJp, falling back in that order, else '' |
| I18n.LocalizedTextIsOwnField | src/utils/i18nUtils.ts:3-27 | the name and the detail shown are always one of the item's own fields, or '' |
| I18n.LanguageCaseIgnored | src/utils/i18nUtils.ts:6-10 | "EN-us" selects the English name when it is filled in |
| I18n.LocaleIgnoresCase | src/utils/i18nUtils.ts:6 | lower-casing the language first selects the same locale |
| ReviewList.SameIdIsEquality | src/screens/main/HomeTab.tsx:99-104 | comparing printed ids is comparing the ids |
| ReviewList.SetLike | src/screens/main/HomeTab.tsx:99-104 | only the review with that id changes, and it takes the server's liked flag and count |
| ReviewList.SetCommentCount | src/screens/main/HomeTab.tsx:110-117 | only the review with that id changes, and it takes the new comment count |
| ReviewList.UpdatesCommute | src/screens/main/ProfileTab.tsx:62-84 | updates for different reviews commute, and repeating one changes nothing more |
| ReviewList.HandleLikeToggle | src/screens/main/HomeTab.tsx:93-108 | without a user id nothing is sent or changed; a failed request changes nothing; otherwise the reply is written into the review |
| ReviewList.ToggleAgreesWithServer | src/screens/main/ProfileTab.tsx:62-75 | after an answered toggle the review shows whether the user now likes it and the server's like count |
| ReviewList.KeywordMap | src/screens/main/ProfileTab.tsx:48-50 | the map's codes are exactly the listed keywords' codes |
| ReviewList.KeywordMapLastWins | src/screens/main/HomeTab.tsx:26-29 | a code maps to the text of its last entry in the list |
| HomeTab.ReceivePage | src/screens/main/HomeTab.tsx:46-58 | page 1 replaces the list, other pages append; a page shorter than 15 stops scrolling; a request that throws changes nothing, while a non-OK reply is an empty page (clearing the list on page 1 and stopping the scrolling) |
| HomeTab.LoadMore | src/screens/main/HomeTab.tsx:60-67 | the next page is requested exactly when not loading, with more to come and a user id |
| HomeTab.ExhaustedStaysExhausted | src/screens/main/HomeTab.tsx:60-67 | once a short page arrived, nothing asks for more |
| HomeTab.InitAsWritten | src/screens/main/HomeTab.tsx:21-44 | a keyword failure requests nothing; otherwise page 1 is requested only when 'mimy_user' holds a user, and with its email as the id |
| HomeTab.NothingWritesStoredUserKey | src/screens/main/HomeTab.tsx:31-35 | no storage write the client makes ever creates 'mimy_user' |
| HomeTab.AsWrittenSkipsFirstPage | src/screens/main/HomeTab.tsx:31-35 | as written the first intersection shows page 2, and a feed of at most 15 reviews stays empty however often one scrolls |
| HomeTab.Init | src/screens/main/HomeTab.tsx:21-44 | the corrected first load requests page 1 for the signed-in user's id exactly when the keywords loaded and there is a user |
| HomeTab.Rerun | src/screens/main/HomeTab.tsx:72-91 | the observer's handler picks up the current page exactly when `hasMore` or `loading` changed, and otherwise keeps the page it had |
| HomeTab.Mounted | src/screens/main/HomeTab.tsx:21-91 | after the first load the observer's handler holds the page that load left |
| HomeTab.ScrollAsWritten | src/screens/main/HomeTab.tsx:60-91 | an intersection does nothing once scrolling has stopped; otherwise the captured handler asks for the page after its own |
| HomeTab.FreshHandlerScrolls | src/screens/main/HomeTab.tsx:60-91 | while the handler's page is the current one, an intersection as written equals the intended scroll |
| HomeTab.StaleHandlerRepeatsPageTwo | src/screens/main/HomeTab.tsx:72-91 | with a feed of 30 or more reviews, after k intersections the list is page 1 followed by k copies of page 2, and scrolling never stops |
| HomeTab.ScrollShowsWindows | src/screens/main/HomeTab.tsx:46-67 | for the intended component, whose handler reads the current page, a scroll keeps the list equal to the first pages of the feed, reaching its end once scrolling stops |
| HomeTab.ScrollShowsFeedPrefix | src/screens/main/HomeTab.tsx:46-67 | with the corrected first load and a handler that reads the current page, after any number of scrolls the list is a prefix of the feed with nothing skipped, and the whole feed once scrolling stops |
| Storage.SaveUser | src/services/storage.ts:7-9 | the user key is set and every other key is unchanged |
| Storage.GetUser | src/services/storage.ts:11-14 | a user is found only when stored under the user key |
| Storage.SaveUserReadsBack | src/services/storage.ts:7-14 | a saved user reads back |
| Storage.SaveQuizResult | src/services/storage.ts:16-20 | the history gains the result at its end and no other key changes |
| Storage.LastFor | src/services/storage.ts:22-26 | none exactly when no result has the email; otherwise a result of that email from the history |
| Storage.LastForIsLast | src/services/storage.ts:22-26 | no later result in the history has that email |
| Storage.GetLatestResult | src/services/storage.ts:22-26 | the latest result is a stored one of that email, and there is none only when the email has none |
| Storage.SaveThenLatest | src/services/storage.ts:16-26 | a saved result becomes the latest for its email and leaves every other email's latest as it was |
| Storage.ClearAuth | src/services/storage.ts:28-30 | the user key is removed and every other key kept |
| Storage.ClearAuthKeepsHistory | src/services/storage.ts:28-30 | signing out forgets the user but keeps every quiz result |
| Session.FromServer | src/services/userService.ts:13-19 | the client user is the server row plus profileImage from photo and birthDate from birth_date |
| Session.Login | src/services/userService.ts:9-21 | the user's id is stored so that it reads back as that id, the transformed user becomes current, and no other key changes |
| Session.InitUser | src/services/userService.ts:24-41 | no stored id asks nothing; a failed fetch drops the id; a fetched user becomes current |
| Session.SaveUser | src/services/userService.ts:43-53 | nothing without a current user; otherwise the update goes to the stored id with the client's picture and birth date, and the server's row, its profileImage column included, is spread over the current user |
| Session.SaveSpreadsServerRow | src/services/userService.ts:52 | after a save, the current user's profileImage is the row's profileImage column, not its photo; only birthDate, which the row lacks, keeps its earlier value |
| Session.SaveThenReload | src/services/userService.ts:29-52 | the user a save leaves and the one a reload of the same row restores share the row; their pictures agree exactly when the row's profileImage equals its photo, their birth dates exactly when the earlier birthDate equals the row's birth_date |
| Session.SaveQuizResult | src/services/userService.ts:59-63 | the save is made exactly when the stored id is truthy, and throws "No user logged in" otherwise |
| Session.GetLatestResult | src/services/userService.ts:65-70 | the server is asked exactly when the stored id is truthy, and the answer is none otherwise |
| Session.Logout | src/services/userService.ts:72-79 | the stored id and the current user are dropped; other keys are kept |
| Session.LoginThenRestore | src/services/userService.ts:9-41 | after login a reload restores the same user and sends quiz calls to that user's id |
| Session.LogoutForgets | src/services/userService.ts:72-79 | after logout there is no user, no latest result, a quiz save throws, and a reload asks nothing |
| Session.FailedRestoreForgetsId | src/services/userService.ts:36-40 | after a failed restore the next reload asks nothing |
| ShopController.SearchShops | server/controllers/shopController.ts:4-27 | an empty query reads nothing and gives []; otherwise at most 20 shops, each with the query in one of its names |
| ShopController.SearchFindsEveryMatch | server/controllers/shopController.ts:11-19 | when fewer than 20 shops are found, every matching shop is among them |
| ShopController.SearchFindsOnlyTableRows | server/controllers/shopController.ts:11-19 | every shop found is a table row whose name holds the query |
| ShopController.ExploreShops | server/controllers/shopController.ts:29-39 | the sample has min(20, table size) shops, drawn without repetition from the table |
| ShopController.AddToMyList | server/controllers/shopController.ts:59-73 | 409 with "Shop already in MyList" exactly when the pair is saved already; otherwise the pair is added |
| ShopController.RemoveFromMyList | server/controllers/shopController.ts:75-85 | the pair is gone and the reply is success whether or not it was there |
| ShopController.MyListIsASet | server/db/database.ts:194-201 | saving twice conflicts, removing a new pair restores the list, removing is idempotent, and other pairs are untouched |
| App.Route | src/App.tsx:39-44 | the main screen exactly when onboarding is complete and the latest result has a cluster; onboarding otherwise |
| App.Initialize | src/App.tsx:21-51 | no restored user, or a failed result fetch, lands on the splash screen; otherwise the route; loading ends |
| App.LoginSuccess | src/App.tsx:57-69 | the same routing after a login; a failed result fetch leaves the step as it was |
| App.RestoreAndLoginAgree | src/App.tsx:21-69 | a restored session and a fresh login send the same user to the same screen |
| App.Handle | src/App.tsx:53-100 | each screen event sets its step; logout forgets the user; quiz completion records the cluster |
| App.Shown | src/App.tsx:109-121 | nothing shows while loading; the quiz and main screens need a user and the result screen a quiz result |
| App.LogoutThenReload | src/App.tsx:88-92 | after logout the login screen shows, and a reload lands on the splash screen |
| App.QuizResultIsShown | src/App.tsx:79-82 | a finished quiz always shows its result screen |

## Left out

- Database errors: the 500 replies of the SQLite callbacks are not modelled, except where a failure is a parameter (the rankings index write, the sync statements, the cluster lookup).
- Floating point: `parseFloat` of the cluster CSV's numeric columns, NaN arithmetic and the image optimizer are out of scope; the CSV record keeps only its text columns.
- Search matching: `LIKE '%q%'` is modelled as a plain substring test; SQLite's ASCII case folding and the `%` and `_` wildcards inside the query are not modelled.
- Unicode: strings are sequences of characters with no normalisation or case folding beyond ASCII.
- Update keys: the user update's keys come from the request body unvalidated; the model resolves each key to a column ignoring ASCII case and fails the statement for a key that names no column, as SQLite does, without modelling SQL injection through a key.
- UserStore.SetRow: SQLite stores a negative id and a NULL email, which this model's rows cannot hold; the model fails such an update with its own error. A text id that SQLite's integer affinity would convert ("7") is treated as a datatype mismatch.
- Row order: SQLite's order for rows that tie under `ORDER BY` is modelled as table order.
- Concurrency: the rankings index write and the rank sync run in one `db.serialize`; interleavings with other requests are not modelled.
- Nondeterminism: the network, timers, `Date`, `Math.random` and `ORDER BY RANDOM()` are parameters.
- Quiz data: the question list and the answer-to-score table are parameters; their contents are data.
- Local storage: the JSON serialisation of stored values is not modelled, and a history key holding a non-array reads as empty.
- getMyList: its join and ordering are not modelled; only adding and removing pairs are.
- Id parsing: `Number(...)` of the stored id is modelled by `parseInt`; the two agree on every id the app writes.
- NULL emails: SQLite lets several NULL emails into a UNIQUE column; the my-list model takes emails as strings.
- The feed observer: the browser's IntersectionObserver is not modelled; an intersection of the sentinel is one call of the observer's callback, and each request is answered before the next intersection.
- UI: the comment modal, the login screen and rendering are left out.
- ProfileTab fetching: the "my list" tab's fetch is not modelled, nor a keyword request that fails there (the whole fetch is then caught).
- Upload controller: the server's file storage is not modelled; the client's upload call is.
- RankingEngine.GetComparisonTarget: its contract is stated as the lemmas ComparisonTarget* (one per tier) rather than as ensures.
- ReviewController.GetFeed: the comment preview (the first two comments per review) and the like and comment counts are not modelled; the page is rows only.

## Findings

| source | as written | input that shows it | evidently intended | confidence | as-written member | corrected member |
|---|---|---|---|---|---|---|
| src/components/ReviewFlow.tsx:213-217 | the previous visit's rank is passed as `previousVisit?.rank`, which is `null` for an unranked visit; the engine then matches `r.rank === null` and takes any unranked review as the repeat visit; `ReviewFlow.CheckRanking` makes this call as written, `ReviewFlow.CheckRankingCorrected` the corrected one | reviews [unranked disliked "Noodle B", unranked liked "Cafe A"] and a new liked "Cafe A" draft: the previous visit's rank is `null`, and "Noodle B", another shop in another tier, is offered as the repeat visit | an unranked previous visit should skip the repeat-visit tier | not executed; high | RankingEngine.UnrankedPreviousVisitPicksAnotherShop | RankingEngine.UnrankedPreviousVisitCorrected |
| src/screens/main/HomeTab.tsx:31-35 | the first load reads the user from 'mimy_user', which nothing writes (the session keeps 'mimy_user_id'), so page 1 is never requested and the first scroll asks for page 2 | a signed-in user and a feed of 10 reviews: the list stays empty after any number of scrolls | the first load should request page 1 for the signed-in user's id | not executed; medium | HomeTab.AsWrittenSkipsFirstPage | HomeTab.ScrollShowsFeedPrefix |
| server/services/userService.ts:55 | the keys kept out of the SET clause are compared case-sensitively (`k !== 'email'`), but SQLite resolves column names ignoring ASCII case | a body `{"Email": "b@x"}` rewrites the user's email; `{"ID": 7}` moves the user to id 7, and the read-back by the old id returns nothing | id, email and created_at should never be updated, whatever the case of the key | not executed; high | UserStore.EmailVariantBypassesProtection | UserStore.UpdateUserCorrectedKeepsKeys |
| src/screens/main/HomeTab.tsx:72-91 | the observer's effect depends on `[observerTarget, hasMore, loading]` but not on `page`, so its callback keeps the `handleLoadMore` of the render in which `page` was 1; every intersection sets the page to 2 and appends page 2 again | a signed-in user, the first load fixed, and a feed of 30 or more reviews: after k intersections the list is page 1 followed by k copies of page 2, and scrolling never stops | each intersection should ask for the page after the last one received | not executed; high | HomeTab.StaleHandlerRepeatsPageTwo | HomeTab.ScrollShowsFeedPrefix |
| server/services/dataService.ts:30-36 | `getClusterById` calls `db.execute`, but `db` is the sqlite3 `Database` opened at server/db/database.ts:20, which has no `execute` method, so every lookup throws and `matchCluster` answers 500 | any profile whose key is in the match map, with its cluster row in the table: the reply is 500 "Failed to match cluster", and the quiz never completes | the lookup should select the row with that `cluster_id` and return it | not executed; high | ClusterController.AsWrittenNeverMatches | ClusterService.MatchClusterFindsFirstRow |
