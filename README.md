# Flashcards: SM-2 scheduling, decks, storage and analytics, modelled in Dafny

The modelled program is a browser flashcard trainer for coding exercises covered by this model:

- Each card carries SM-2 scheduling fields: repetitions, interval, easiness and the next review date.
- The user picks a deck of due cards by unit, difficulty and favorites, then rates each card from 0 to 5.
- Each rating re-schedules the card with SM-2, logs a review event and awards experience points. Points raise levels and unlock badges.
- An analytics page counts ratings per quality and cards attempted per unit.
- A build script merges the per-unit JSON card files into one catalog.

The Dafny project models these parts:

| file | models |
|---|---|
| `wrappers.dfy` | `Option`, `Min`, `Max` |
| `seqs.dfy` | `Filter` (JavaScript `Array.prototype.filter`), `Distinct` (`[...new Set(xs)]`), subsequences, duplicates |
| `catalog.dfy` | the card record, ids that are numbers or strings, `String(id)` |
| `sm2.dfy` | `applySM2` of `src/utils/sm2.js` |
| `game.dfy` | the level thresholds and the game record |
| `storage.dfy` | every operation of `src/utils/storage.js`, as a `Store` class over in-memory collections |
| `app.dfy` | the due set, the daily streak, deck navigation and the level progress bar of `src/App.jsx` |
| `configform.dfy` | the deck builder of `src/components/ConfigForm.jsx` |
| `flashcard.dfy` | the study card of `src/components/Flashcard.jsx`, including the rating step |
| `analytics.dfy` | the quality histogram and per-unit table of `src/components/Analytics.jsx` |
| `mergedata.dfy` | `scripts/mergeData.js` |

Modelling choices:

- Easiness is a `real`, so SM-2 arithmetic is exact. `Math.round` is `floor(x + 0.5)`.
- Dates are whole day numbers. "Today" is a parameter, and "yesterday" is today minus one.
- A card id is `NumId(int)` or `StrId(string)`. This keeps visible the places where the program compares a raw id with its string form.
- Firestore documents and collections are fields of `Storage.Store`: `cards` (the per-card documents keyed by the id's string), `favorites`, `user` (the game record) and `history`.
- Where a component updates local state step by step, it is a class with `modifies` clauses: the app screen and the study card.

Three facts about the code that shape the deck builder:

- The "favorites only" toggle in ConfigForm does not replace the unit and difficulty filters. It narrows the pool, and the filters still apply (`src/components/ConfigForm.jsx:21-24`).
- The deck builder is given the due cards, not the whole catalog (`src/App.jsx:37-40`).
- `handleSubmit` does not clamp the deck size: `slice(0, count)` counts a negative end from the back, so a count of -k drops the last k cards. The count input carries `min="1"` and `max={filtered.length}` without `noValidate`, so the browser refuses to submit a count outside 1..n (`src/components/ConfigForm.jsx:48-58`).

## Model

| member | source | states |
|---|---|---|
| Sm2.Round | src/utils/sm2.js:20 | `Math.round` of a value: the integer within half a unit of it, rounding halves up |
| Sm2.ApplySM2 | src/utils/sm2.js:7-39 | a rating below 3 restarts the card at interval 1; otherwise repetitions grow by one; easiness never falls below 1.3; the next review is today plus the new interval; the card's other fields are kept |
| Sm2.SuccessInterval | src/utils/sm2.js:13-21 | after a passing rating the interval is 1 on the first repetition, 6 on the second, then the old interval times easiness, rounded |
| Sm2.EasinessUpdate | src/utils/sm2.js:24-27 | the new easiness is the larger of 1.3 and the old easiness plus the quality's delta |
| Sm2.EasinessDeltaTable | src/utils/sm2.js:26 | the easiness deltas for ratings 5..0 are +0.1, 0, -0.14, -0.32, -0.54, -0.8 |
| Sm2.EasinessDeltaMonotone | src/utils/sm2.js:26 | a better rating never gives a smaller delta (for ratings up to 5) |
| Sm2.EasinessMonotoneInQuality | src/utils/sm2.js:24-27 | a better rating never leaves a card with lower easiness |
| Sm2.QualityFourKeepsEasiness | src/utils/sm2.js:24-27 | a rating of 4 leaves a valid easiness unchanged |
| Sm2.GrownInterval | src/utils/sm2.js:20 | with easiness at least 1.3, the rounded product interval × easiness is at least the old interval and at least 1 |
| Sm2.ApplyPreservesValid | src/utils/sm2.js:7-39 | a schedule with repetitions >= 0, interval >= 1 and easiness >= 1.3 stays so after any rating |
| Sm2.NextReviewAfterToday | src/utils/sm2.js:29-31 | from a valid schedule the next review always falls after today |
| Sm2.SuccessNeverShortens | src/utils/sm2.js:19-21 | from a valid schedule, from the third passing repetition on, the interval never shrinks |
| Game.Threshold | src/utils/game.js:4 | `LEVEL_THRESHOLDS[i]` is defined exactly for 0 <= i < 5 and is then the table entry (undefined otherwise) |
| Catalog.DigitChar | src/utils/storage.js:193 | a digit below 10 maps to the decimal digit character of that value |
| Catalog.NatToString | src/utils/storage.js:193 | `String(n)` of a natural number is a non-empty digit string with no leading zero |
| Catalog.NatToStringRoundTrip | src/utils/storage.js:193 | reading back the digits of `String(n)` gives n |
| Catalog.SignFirst | src/utils/storage.js:193 | `String(i)` starts with `-` exactly when i is negative |
| Catalog.IntToStringInjective | src/utils/storage.js:193 | distinct integers have distinct `String` forms, so string keys identify numeric ids |
| Storage.MergeMeta | src/utils/storage.js:119-123 | `setDoc` with merge: a patched field takes the patch's value, an absent field keeps the stored one |
| Storage.MergeLaws | src/utils/storage.js:119-123 | merging is associative, the empty document is an identity on either side, and re-applying a patch changes nothing |
| Storage.StoredOrEmpty | src/utils/storage.js:109-114 | a missing card document reads as the empty document |
| Storage.ResetRecord | src/utils/storage.js:34-45 | a reset writes the catalog's repetitions, interval, easiness and next review, and the catalog's notes or '' |
| Storage.MergeResetRecord | src/utils/storage.js:48-57 | a merge of a reset record overwrites every stored field |
| Storage.DefaultsKeys | src/utils/storage.js:34-45 | the defaults map has a key exactly for each in-scope catalog card's id string |
| Storage.DefaultsValue | src/utils/storage.js:34-45 | with unique ids, an in-scope card's key maps to that card's reset record |
| Storage.BuildDefaults | src/utils/storage.js:34-45 | the loop that builds the defaults map yields exactly `DefaultsFor` |
| Storage.ResetStored | src/utils/storage.js:48-57 | resetting keeps exactly the stored keys: only cards that already have a document are written |
| Storage.ResetUnitEffect | src/utils/storage.js:28-58 | with unique ids, after a unit reset a stored card of that unit holds its reset record and every other stored card is unchanged |
| Storage.AsIds | src/utils/storage.js:146-153 | the stored favorites list holds the strings written, in order |
| Storage.AsIdsFilter | src/utils/storage.js:146-148 | removing an id from the stored list matches removing its string |
| Storage.AsIdsBack | src/utils/storage.js:146-153 | reading the stored string ids back with `String` gives the same strings |
| Storage.AsIdsMember | src/utils/storage.js:146 | the stored list holds a string id exactly when the string list holds it |
| Storage.ToggleStrings | src/utils/storage.js:139-155 | toggling removes the id when present and appends it otherwise |
| Storage.ToggleKeepsOthers | src/utils/storage.js:139-155 | a toggle leaves every other favorite in order, and flips the toggled one's membership |
| Storage.FilterFilterSame | src/utils/storage.js:147 | removing an id twice is removing it once |
| Storage.ToggleTwice | src/utils/storage.js:139-155 | toggling twice restores a duplicate-free list when the id was absent; when present, the id moves to the end; the multiset is always restored |
| Storage.FilterAllKept | src/utils/storage.js:147 | removing an absent id leaves the list as it is |
| Storage.FilterRemovesOne | src/utils/storage.js:147 | in a duplicate-free list, removing a present id removes exactly one element |
| Storage.LoadGame | src/utils/storage.js:161-174 | each missing field of the user document takes its default (xp 0, level 1, streak 0, no last date, no badges); present fields are taken as stored |
| Storage.SaveGame | src/utils/storage.js:179-184 | what is saved reads back as the same game record |
| Storage.Store.constructor | src/utils/storage.js:96-104 | a new user has no card documents, no favorites list, no user document and no history |
| Storage.Store.LoadAllMeta | src/utils/storage.js:96-104 | returns every stored card document by key |
| Storage.Store.LoadCardMeta | src/utils/storage.js:109-114 | returns a card's document, or the empty one if there is none |
| Storage.Store.SaveCardMeta | src/utils/storage.js:119-123 | merges the patch into the card's document (created if missing) and changes nothing else |
| Storage.Store.LoadFavorites | src/utils/storage.js:128-133 | returns the stored list, or an empty list when the document is missing |
| Storage.Store.ToggleFavorite | src/utils/storage.js:139-155 | toggles `String(cardId)`, stores and returns the new list, and changes nothing else |
| Storage.Store.LoadGameMeta | src/utils/storage.js:161-174 | returns the user document with each missing field defaulted |
| Storage.Store.SaveGameMeta | src/utils/storage.js:179-184 | writes the game record to the user document and changes nothing else |
| Storage.Store.LogReviewEvent | src/utils/storage.js:189-197 | appends one event with `String(cardId)`, the quality and the timestamp, and changes nothing else |
| Storage.Store.LoadReviewHistory | src/utils/storage.js:202-208 | returns exactly the logged events, each as often as it was logged |
| Storage.Store.ResetUnitSM2 | src/utils/storage.js:28-58 | stored cards of the unit get their reset record; all other documents and collections are unchanged |
| Storage.Store.ResetAllSM2 | src/utils/storage.js:63-84 | succeeds exactly when every stored key is a catalog card, and then resets every stored card; on failure each stored card is either reset or untouched; keys never change |
| App.DueCards | src/App.jsx:35-40 | the due set never has more cards than the catalog |
| App.DueCardsSelection | src/App.jsx:35-40 | the due set is the catalog, in order, keeping exactly the cards whose stored next review (or, failing that, the catalog's) is on or before today; with unique ids it has no duplicates |
| App.FutureStoredDateExcludes | src/App.jsx:38-39 | any stored next review after today keeps a card out of today's due set, whatever its catalog date |
| App.UnreviewedCardDue | src/App.jsx:38-39 | a card with no document is due when the catalog's date has come |
| App.StreakStep | src/App.jsx:17-32 | the same day leaves the record alone; the day after the last one extends the streak; any other day restarts it at 1; xp and level never change |
| App.UpdateStreakOnMount | src/App.jsx:17-32 | computes the streak step and saves exactly when the last date is not today |
| App.StreakBadge | src/App.jsx:26-27 | `streak-7` is held afterwards exactly when it was held before or the streak just reached 7; it is appended at most once; badges stay duplicate-free |
| App.StreakIdempotent | src/App.jsx:20 | mounting twice on one day is mounting once |
| App.StreakConsecutiveDays | src/App.jsx:20-24 | mounting on two consecutive days raises the streak by one |
| App.NavigationStaysInDeck | src/App.jsx:52-53 | from a card of the deck, next and previous stay in the deck and stop at either end |
| App.ProgressPct | src/App.jsx:57-61 | the progress share never exceeds 100 |
| App.ShareBounds | src/App.jsx:60-61 | a floor of a proper fraction times 100 lies in 0..99 |
| App.ProgressWithinBar | src/App.jsx:57-61 | for a record whose level matches its xp, the bar is within 0..100, and below 100 before the top level |
| App.AppScreen.constructor | src/App.jsx:43-45 | the app starts on the config view with an empty deck and no card selected |
| App.AppScreen.HandleStart | src/App.jsx:47-51 | starting shows the chosen deck from its first card in the study view |
| App.AppScreen.HandleNext | src/App.jsx:52 | moves to `min(v + 1, length - 1)`; deck and view unchanged |
| App.AppScreen.HandlePrev | src/App.jsx:53 | moves to `max(v - 1, 0)`; deck and view unchanged |
| ConfigForm.UnitsOf | src/components/ConfigForm.jsx:7 | `data.map(c => c.unit)`: one unit per card, in order |
| ConfigForm.UnitsListing | src/components/ConfigForm.jsx:7 | the unit list has no duplicates, holds exactly the units of the data, and lists them in order of first appearance |
| ConfigForm.InitialSelectionCoversData | src/components/ConfigForm.jsx:9 | initially every card's unit is selected |
| ConfigForm.ToggleFlipsOne | src/components/ConfigForm.jsx:12-17 | toggling flips the item's membership and no other |
| ConfigForm.ToggleTwice | src/components/ConfigForm.jsx:12-17 | toggling an item twice restores the selection |
| ConfigForm.FilteredSelection | src/components/ConfigForm.jsx:20-24 | the filtered pool is a subsequence of the data holding exactly the cards of a selected unit and difficulty, and, when favorites only, a favorite |
| ConfigForm.FavoritesNarrowPool | src/components/ConfigForm.jsx:21-24 | "favorites only" narrows the pool: it is the unfiltered pool's favorites, a subsequence of it |
| ConfigForm.SubsequenceTransitive | src/components/ConfigForm.jsx:21-24 | a subsequence of a subsequence is a subsequence |
| ConfigForm.AsWrittenAgreesOnStringIds | src/components/ConfigForm.jsx:21 | when every id is a string, the as-written favorite test agrees with the corrected one |
| ConfigForm.NumericFavoriteMissed | src/components/ConfigForm.jsx:21 | a favorite with numeric id 3 (stored as "3") is dropped as written and kept when corrected |
| ConfigForm.SlicePrefix | src/components/ConfigForm.jsx:29 | `slice(0, end)` is a prefix of length `min(end, n)`, or `max(n + end, 0)` for a negative end |
| ConfigForm.HandleSubmit | src/components/ConfigForm.jsx:26-30 | the deck is taken from a permutation of the pool: for count >= 0 it has `min(count, n)` cards, all from the pool, no card more often than in the pool, no duplicates if the pool has none, and the whole pool when count >= n |
| ConfigForm.Submit | src/components/ConfigForm.jsx:43-45 | an empty pool shows the "no cards" message instead of a deck; otherwise the deck is as from `HandleSubmit` and non-empty when count >= 1 |
| Flashcard.EffectiveStateFields | src/components/Flashcard.jsx:50-54 | each shown field is the stored value when there is one, else the catalog card's; notes fall back to the card's notes, then '' |
| Flashcard.UnstoredAndResetShowCatalog | src/components/Flashcard.jsx:35-54 | a card with no document, and a card just reset, show exactly the catalog's state |
| Flashcard.SavedMeta | src/components/Flashcard.jsx:120 | the document saved after a rating carries all four SM-2 results and the notes |
| Flashcard.ReloadAfterRating | src/components/Flashcard.jsx:120 | reopening a rated card shows the SM-2 result and the notes, whatever was stored before |
| Flashcard.RatedCardLeavesDueSet | src/components/Flashcard.jsx:115-120 | after a rating from a valid state and its save, the card is not in the same day's due set |
| Flashcard.NotesPatchOnlyNotes | src/components/Flashcard.jsx:152-155 | saving notes changes the notes field of the document and nothing else |
| Flashcard.Reward | src/components/Flashcard.jsx:126-136 | +15 xp for a rating of 4 or 5, +10 otherwise; the level rises by one exactly when the next threshold exists and is reached, and then `level-N` is appended; streak and last date unchanged |
| Flashcard.NoLevelBeyondTable | src/components/Flashcard.jsx:131 | past the last threshold (Infinity) the level never rises, and it never passes the table |
| Flashcard.RewardKeepsLevelMatch | src/components/Flashcard.jsx:126-136 | a record whose level matches its xp still does after a review |
| Flashcard.RewardedRecordFitsBar | src/App.jsx:57-61 | the default record matches its level, and for a record whose level matches its xp, the header's share after a reward is within 0..100 |
| Flashcard.AwardReview | src/components/Flashcard.jsx:126-136 | the in-place update of the loaded record computes `Reward` |
| Flashcard.RatingInAppNeverAdvances | src/App.jsx:137-143 | as written, rating a card inside the app leaves its solution state as it was and never moves on |
| Flashcard.FinishRating | src/components/Flashcard.jsx:145-149 | corrected (see Findings): the solution closes and the next card comes, and with the callback present it agrees with the code |
| Flashcard.CardScreen.constructor | src/components/Flashcard.jsx:35-41 | a new card view shows the catalog's state, solution hidden, not a favorite |
| Flashcard.CardScreen.ApplyStored | src/components/Flashcard.jsx:44-55 | the loaded document sets the shown state to the stored-or-catalog fields |
| Flashcard.CardScreen.LoadFavoriteStatus | src/components/Flashcard.jsx:64-72 | the star is lit exactly when the stored list holds the card's id as a string |
| Flashcard.CardScreen.HandleToggleFav | src/components/Flashcard.jsx:102-110 | the star shows whether the id is in the toggled list; cards, user and history are unchanged |
| Flashcard.CardScreen.RateRecall | src/components/Flashcard.jsx:113-150 | the view shows the SM-2 result; the card's document merges that result with the notes; one event is logged; the game record saved is the reward of the loaded one; with `onUpdateGameMeta` passed, the solution closes and the deck advances; without it (as the app renders the card) the solution state and the app's index stay as they were |
| Flashcard.CardScreen.OnChangeNotes | src/components/Flashcard.jsx:152-155 | the notes show the text and only the notes field is merged into the document |
| Analytics.QualityCounts | src/components/Analytics.jsx:43-46 | six bars, one per label, bar q counting the events of quality q |
| Analytics.SumOfSixBars | src/components/Analytics.jsx:43-46 | the bars' total is the sum of the six per-quality counts |
| Analytics.BarsAndUnratedCoverHistory | src/components/Analytics.jsx:43-46 | the six counts plus the events rated outside 0..5 make up the whole history |
| Analytics.NoUnrated | src/components/Analytics.jsx:45 | no event is left uncounted exactly when every quality is within 0..5 |
| Analytics.QualityCountsCoverHistory | src/components/Analytics.jsx:43-46 | the bars never count more than the history, and count all of it exactly when every quality is within 0..5 |
| Analytics.AttemptedExactly | src/components/Analytics.jsx:61 | a card is attempted exactly when some event's `String(cardId)` equals its `String(id)` |
| Analytics.LoggedCardIsAttempted | src/components/Analytics.jsx:61 | logging a review of a card makes it attempted and leaves every card with another id string as it was |
| Analytics.AttemptedWithinTotal | src/components/Analytics.jsx:63-70 | a unit's attempted count never exceeds its card count |
| Analytics.AbsentUnitCountsZero | src/components/Analytics.jsx:63-70 | a unit no card carries counts zero cards and zero attempts |
| Analytics.RowsFor | src/components/Analytics.jsx:71-75 | one row per listed unit, in order |
| Analytics.UnitRowsOnePerUnit | src/components/Analytics.jsx:63-75 | the table has one row per distinct unit of the catalog and no other |
| Analytics.UnitRowsSplitUnits | src/components/Analytics.jsx:63-75 | each row's attempted and unattempted are non-negative and add up to the unit's card count |
| Analytics.OccursOnce | src/components/Analytics.jsx:63-70 | a unit listed once in a duplicate-free list is counted once |
| Analytics.OccursNot | src/components/Analytics.jsx:63-70 | an unlisted unit is counted zero times |
| Analytics.UnitSumEmpty | src/components/Analytics.jsx:63-70 | an empty catalog totals zero |
| Analytics.UnitSumExtend | src/components/Analytics.jsx:63-70 | one more card adds one to its unit's count |
| Analytics.UnitSumCoversCatalog | src/components/Analytics.jsx:63-70 | over a duplicate-free unit list covering the catalog, the unit counts total the catalog's size |
| Analytics.RowTotalsAreUnitSum | src/components/Analytics.jsx:71-75 | the rows' totals are the unit counts' total |
| Analytics.UnitTotalsCoverCatalog | src/components/Analytics.jsx:63-75 | the table's attempted and unattempted add up to the number of cards |
| Analytics.CountsExtend | src/components/Analytics.jsx:68-69 | one more card adds one to its unit's total, and one to its attempted count when its id was reviewed |
| Analytics.DistinctExtend | src/components/Analytics.jsx:65-66 | a unit seen for the first time is appended to the key order, otherwise the order stays |
| Analytics.UnlistedUnitEmpty | src/components/Analytics.jsx:65-66 | a unit not yet a key has no cards counted |
| Analytics.TallyStep | src/components/Analytics.jsx:64-70 | one `forEach` step keeps the map in step with the counts of the cards seen so far |
| Analytics.TallyRowsAreUnitRows | src/components/Analytics.jsx:71-75 | once every card is tallied, the map's rows in key order are the table |
| Analytics.PerUnit | src/components/Analytics.jsx:61-75 | the loop over the catalog computes exactly the per-unit table |
| MergeData.SplitOn | scripts/mergeData.js:14 | `split` gives at least one piece and no piece holds the separator |
| MergeData.SplitJoin | scripts/mergeData.js:14 | joining the pieces with the separator gives back the string |
| MergeData.SplitWithoutSeparator | scripts/mergeData.js:14 | a string without the separator splits into itself |
| MergeData.TrimStartFacts | scripts/mergeData.js:14 | leading trim drops only white space and leaves a suffix starting with a non-space |
| MergeData.TrimEndFacts | scripts/mergeData.js:14 | trailing trim drops only white space and leaves a prefix ending with a non-space |
| MergeData.TrimIsSlice | scripts/mergeData.js:14 | `trim` is a slice with only white space cut off either side |
| MergeData.TrimEdges | scripts/mergeData.js:14 | a trimmed name starts and ends with a non-space, and trimming again changes nothing |
| MergeData.FindExcludeArg | scripts/mergeData.js:12 | an argument starting with `--exclude=` is found exactly when one exists, and it is from argv |
| MergeData.FindExcludeArgFirst | scripts/mergeData.js:12 | the argument found is the first one starting with `--exclude=`: no earlier argument starts with it |
| MergeData.TrimAll | scripts/mergeData.js:14 | each name trimmed, in order |
| MergeData.TrimmedPieceShape | scripts/mergeData.js:14 | a comma-free piece trims to a comma-free name without edge spaces |
| MergeData.SliceLacks | scripts/mergeData.js:14 | a slice of a string without a character lacks it too |
| MergeData.TrimAllShape | scripts/mergeData.js:14 | trimming comma-free pieces gives comma-free names without edge spaces |
| MergeData.ExcludeListHasValue | scripts/mergeData.js:14 | `--exclude=...` splits on `=` into at least two parts, the second being the text after the flag up to the next `=` |
| MergeData.SplitPrefix | scripts/mergeData.js:14 | splitting `name=rest` on `=` gives name, then rest's pieces |
| MergeData.ExcludesShape | scripts/mergeData.js:12-15 | without the flag nothing is excluded; every excluded name is comma-free with no edge space |
| MergeData.UnitName | scripts/mergeData.js:20 | the base name of a unit file is the file name without `.json`, and starts with `unit` |
| MergeData.SelectedFiles | scripts/mergeData.js:18-22 | a file is merged exactly when it matches `unit<digits>.json` and its base name is not excluded; the merged files keep the directory order |
| MergeData.OutputNeverMerged | scripts/mergeData.js:18-22 | neither the output `flashcards.json` nor `unit.json` is ever an input |
| MergeData.ArrayElementsAppend | scripts/mergeData.js:24-33 | the elements of two file lists are their concatenation |
| MergeData.ArrayLengthsMatch | scripts/mergeData.js:24-33 | the merged count is the sum of the arrays' lengths |
| MergeData.ConcatenatedIsArrayElements | scripts/mergeData.js:24-33 | the merge succeeds exactly when every file parses, and then holds the array files' elements, in order |
| MergeData.MergedLength | scripts/mergeData.js:24-33 | when every file parses, the merged catalog's size is the sum of the arrays' lengths |
| MergeData.AllParseAppend | scripts/mergeData.js:27 | two file lists parse exactly when each does |
| MergeData.NonArrayAddsNothing | scripts/mergeData.js:28-31 | a file that parses to something other than an array is skipped without effect |
| MergeData.MergeFiles | scripts/mergeData.js:24-33 | the loop computes exactly `Concatenated` |
| MergeData.MalformedAborts | scripts/mergeData.js:27 | a file that fails to parse aborts the merge |
| MergeData.Merge | scripts/mergeData.js:6-33 | the script merges exactly the selected unit files, with the parsed excludes |
| MergeData.ExcludedUnitIgnored | scripts/mergeData.js:18-22 | adding an excluded unit file to the directory changes nothing |
| Seqs.Filter | src/App.jsx:37 | the filtered list is no longer than the input and every element satisfies the test |
| Seqs.FilterMembership | src/App.jsx:37 | an element is kept exactly when it is in the input and passes the test |
| Seqs.FilterIsSubsequence | src/App.jsx:37 | filtering keeps the input's order |
| Seqs.FilterAppend | src/components/Analytics.jsx:45 | filtering distributes over concatenation |
| Seqs.FilterCommutes | src/components/ConfigForm.jsx:21-24 | two filters commute |
| Seqs.FilterCongruent | src/components/ConfigForm.jsx:21-24 | tests that agree on the input filter it alike |
| Seqs.FilterNoDup | src/App.jsx:37 | filtering a duplicate-free list leaves it duplicate-free |
| Seqs.DistinctMembership | src/components/ConfigForm.jsx:7 | `[...new Set(xs)]` holds exactly the elements of xs |
| Seqs.DistinctNoDup | src/components/ConfigForm.jsx:7 | `[...new Set(xs)]` has no duplicates |
| Seqs.DistinctFirstOccurrenceOrder | src/components/ConfigForm.jsx:7 | `[...new Set(xs)]` lists elements in order of their first occurrence in xs |
| Seqs.DistinctInFirstOccurrenceOrder | src/components/ConfigForm.jsx:7 | the same, for the whole list |
| Seqs.PermutationNoDup | src/components/ConfigForm.jsx:28 | a permutation of a duplicate-free list is duplicate-free |
| Storage.DefaultsFor | src/utils/storage.js:34-45 | definition of the defaults map (also storage.js:69-78 with no unit); DefaultsKeys and DefaultsValue state it |
| Storage.ToggleIds | src/utils/storage.js:143-152 | definition of the toggled string list; ToggleStrings, ToggleKeepsOthers and ToggleTwice state it |
| Sm2.EasinessDelta | src/utils/sm2.js:26 | definition of the easiness delta; EasinessDeltaTable and EasinessDeltaMonotone state it |
| Catalog.IntToString | src/utils/storage.js:193 | definition of `String` on integers; SignFirst and IntToStringInjective state it |
| Catalog.IdString | src/utils/storage.js:144 | definition of `String(id)`; IntToStringInjective states it for numeric ids |
| App.EffectiveNextReview | src/App.jsx:38 | definition of the stored date or the catalog's; DueCardsSelection states it |
| App.IsDue | src/App.jsx:38-39 | definition of the due test; DueCardsSelection, FutureStoredDateExcludes and UnreviewedCardDue state it |
| App.NextIndex | src/App.jsx:52 | definition of `min(v + 1, length - 1)`; NavigationStaysInDeck states it |
| App.PrevIndex | src/App.jsx:53 | definition of `max(v - 1, 0)`; NavigationStaysInDeck states it |
| ConfigForm.Units | src/components/ConfigForm.jsx:7 | definition of the unit list; UnitsListing states it |
| ConfigForm.Toggle | src/components/ConfigForm.jsx:12-17 | definition of the set toggle; ToggleFlipsOne and ToggleTwice state it |
| ConfigForm.FilteredAsWritten | src/components/ConfigForm.jsx:20-24 | definition of the pool as written (raw id against string favorites); AsWrittenAgreesOnStringIds and NumericFavoriteMissed state it |
| ConfigForm.Filtered | src/components/ConfigForm.jsx:20-24 | definition of the pool with `String(c.id)` compared; FilteredSelection and FavoritesNarrowPool state it |
| Flashcard.EffectiveState | src/components/Flashcard.jsx:50-54 | definition of the shown state; EffectiveStateFields states it |
| Flashcard.NotesPatch | src/components/Flashcard.jsx:154 | definition of the notes-only patch; NotesPatchOnlyNotes states it |
| Flashcard.FinishRatingAsWritten | src/components/Flashcard.jsx:145-149 | definition of the ending as written; RatingInAppNeverAdvances states it, and FinishRating agrees with it when the callback is passed |
| Analytics.CountQuality | src/components/Analytics.jsx:45 | definition of one bar's count; QualityCountsCoverHistory states it |
| Analytics.AttemptedIds | src/components/Analytics.jsx:61 | definition of the attempted set; AttemptedExactly and LoggedCardIsAttempted state it |
| Analytics.UnitRows | src/components/Analytics.jsx:63-75 | definition of the per-unit table; UnitRowsOnePerUnit, UnitRowsSplitUnits and UnitTotalsCoverCatalog state it |
| MergeData.Trim | scripts/mergeData.js:14 | definition of `trim`; TrimIsSlice and TrimEdges state it |
| MergeData.ParseExcludes | scripts/mergeData.js:12-15 | definition of the excluded names; ExcludesShape states it |
| MergeData.SelectUnitFiles | scripts/mergeData.js:18-22 | definition of the file filter; SelectedFiles and OutputNeverMerged state it |
| MergeData.Concatenated | scripts/mergeData.js:24-33 | definition of the merge; ConcatenatedIsArrayElements, NonArrayAddsNothing and MalformedAborts state it |
| Seqs.Distinct | src/components/ConfigForm.jsx:7 | definition of `[...new Set(xs)]`; DistinctMembership, DistinctNoDup and DistinctInFirstOccurrenceOrder state it |

## Left out

- Firestore, authentication and browser-local storage are not modelled as services. `Storage.Store` holds the per-card documents, favorites, user document and history in memory. The signed-in user is implicit, and `src/firebase.js` and `src/contexts/AuthContext.jsx` are not part of this model.
- App.jsx reads and saves the streak and header record through `src/utils/game.js`, a browser-local copy. Flashcard.jsx rewards xp in the Firestore user document through `storage.js`. The model keeps both as `GameMeta` values: `App.UpdateStreakOnMount` and `App.ProgressPct` take the loaded record as a parameter. It does not capture that the two records are never synchronised. The `JSON.parse(...) || default` read of `game.js` is also not modelled field by field.
- Promises and ordering: the service calls are awaited in sequence in the model. Nothing interleaves with them, and a rejected call is not modelled (the error toasts, `console.error`, the `catch` that sets `{}`).
- Storage.Store.ResetAllSM2: does not model the concurrent `Promise.all` writes. When a stored key has no catalog card (the code's `defaults[id]` is then undefined), the model only says that some stored cards have been reset and the rest are untouched.
- App.jsx calls `loadAllMeta()` without awaiting it (`src/App.jsx:35`). `meta` is then a Promise, `meta[card.id]` is undefined, and every card falls back to its catalog date. `App.DueCards` takes the awaited map as an input, so it describes the due set once the call is awaited; as written, the stored dates are never consulted.
- ConfigForm calls `loadFavorites()` without awaiting it (`src/components/ConfigForm.jsx:20`). `new Set(...)` of a Promise throws a TypeError, because a Promise is not iterable, so the form as written throws on every render. `ConfigForm.Filtered` and `ConfigForm.FilteredAsWritten` take the awaited favorites as an input and describe the form once that call is awaited.
- Storage.Store.LoadFavorites: a favorites document without an `ids` field is not modelled. The code then returns undefined, and `toggleFavorite` throws on it. The store's `favorites` is either missing (`None`) or a list, and the code itself always writes the `ids` field.
- Dates: the clock is a parameter, and a date is a day number. The `toISOString().slice(0, 10)` strings, the time zone and the string comparison of dates are not modelled. Neither is the `||` fallback of `src/App.jsx:38` for an empty-string date: an absent stored date is the only fallback.
- Floating point: easiness, the progress share and `Math.round` are computed over exact reals.
- Randomness: the `Math.random` comparator sort is modelled as an arbitrary permutation, so its bias is not modelled. The fact that it sorts `filtered` in place is not modelled either.
- ConfigForm.HandleSubmit: states the deck's size and contents but not which permutation was drawn.
- Storage.Store.LoadReviewHistory: states that the same events come back, but not the descending timestamp order of the query.
- Analytics.PerUnit: rows come in the order units first appear. `Object.values` would list integer-like unit names first, in numeric order, and that is not modelled.
- Number formatting: `String(id)` is modelled for integers. Non-integer and exponent-notation numbers are not.
- The count input's HTML `min`/`max` attributes are not modelled (`src/components/ConfigForm.jsx:53-60`). The browser's form validation refuses to submit a count outside 1..n, so the default count of 5 cannot be submitted when fewer than five cards match. `ConfigForm.HandleSubmit` and `ConfigForm.Submit` accept any integer count, as the handler itself does.
- The analytics seven-day chart (`src/components/Analytics.jsx:48-58`) depends on the clock and the date string format, so it is not modelled.
- Rendering is not modelled: views, styles, toasts, the code editor, the solution text, the loading placeholders, `Profile.jsx`, `Badges.jsx` and `main.jsx`.
- mergeData.js: reading the directory and files, writing `flashcards.json`, the log lines and the exit code are not modelled. JSON parsing is abstract: each file reads as an array of cards, some other JSON value, or malformed text. `basename` is applied only to names already matching `unit<digits>.json`.
- MergeData.ExcludesShape: states the shape of the excluded names. It does not work the `--exclude=unit2,unit5` example through to concrete names.

## Findings

| source | as written | input that shows it | evidently intended | confidence | as-written member | corrected member |
|---|---|---|---|---|---|---|
| src/components/Flashcard.jsx:145 with src/App.jsx:137-143 | `rateRecall` calls `onUpdateGameMeta(gm)` before closing the solution and calling `onNext()`, but App renders the card without that prop, so the call throws a TypeError | any rating of any card in the study view | the solution closes and the next card is shown after the saves | high (not executed) | Flashcard.FinishRatingAsWritten, Flashcard.RatingInAppNeverAdvances, Flashcard.CardScreen.RateRecall | Flashcard.FinishRating |
| src/components/ConfigForm.jsx:21 | the favorite test is `favSet.has(c.id)` on the raw id, while favorites are stored as strings (`src/utils/storage.js:146-153`) | a card with numeric id 3, favorited (stored as "3"), with "favorites only" on | compare `String(c.id)`, as Flashcard.jsx:68 does | medium: depends on the catalog using numeric ids, and applies once the `loadFavorites()` call on line 20 is awaited (not executed) | ConfigForm.FilteredAsWritten, ConfigForm.NumericFavoriteMissed | ConfigForm.Filtered, ConfigForm.FilteredSelection |
