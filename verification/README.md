# Zanjir: a verified model of the word-chain backend

Zanjir is a Persian word-chain game. This project models the state its backend keeps in SQL tables, Redis keys and
in-memory maps, and proves what those operations promise each other over every input and every run. Check it with
`dafny verify dfyconfig.toml`.

## What is modelled

- **Words and the dictionary** (`Words`, `Overlay`, `Dictionary`, `WordPick`, `Export`, `WordReview`, `WordActions`,
  `WordServing`, `WordDesk`). A word is a sequence of code points. The admin's actions become override rows with rising sequence
  numbers; a service mirrors the rows, pushes them into a copy-on-write overlay, and serves them as a paged delta that
  every app copy follows. The move validator, the hint finder and the AI's picker are three views of one notion of
  legal word, and a release folds the overlay back into the bundled list.
- **Analytics** (`Calendar`, `Partitions`, `Rollups`, `RollupRuns`, `RollupHistory`, `Lookback`, `Ingest`,
  `Summaries`, `AnalyticsStore`, `Funnel`). Late events with clamped clocks go into monthly partitions, a maintenance
  job rebuilds days over a lookback and drops old partitions. `history` is the ghost list of all events ever stored;
  the rollup rows are any function `f` of a day's events, and `Summarise` is the one the service uses. The funnel query
  is a chain of joins that keeps one time per step.
- **Matchmaking and admin sessions** (`Matchmaking`, `MatchmakingRuns`, `MatchmakingOrder`, `MatchmakingJoins`,
  `MatchmakingWitnesses`, `AdminSessions`, `AdminLogins`). Two protocols whose steps interleave: calls that wait on a channel while a
  background pass works through the queue it read, and keys and index sets with two different expiries.
- **Coins** (`Economy`, `Ledger`, `CoinStore`, `DailyRetry`, `Payout`, `PayoutRuns`). Balances, rewards, store tokens, power-ups, premium
  time, the paid daily retry with its rollback, and the payout that is run until it succeeds.
- **Rules with a plain meaning** (`DailyChain`, `Streak`, `StreakRuns`, `Leaderboard`, `Levels`).

## How to read it

Each SQL statement or transaction, each Redis command or pipeline, and each section under a mutex is one step, and in
the runs other requests may come in between: `Join` registers and then pushes, `Cancel` closes the waiter, reads the
queue and removes an entry, a matchmaking pass reads the queue once and then removes, opens and tells one command at a
time, an ingest request reads its clock and stores later, the maintenance job makes each partition, rebuilds each day
and drops each partition in a statement of its own, a login compares the password and opens its session later,
revoke-all reads the index and deletes later, an override row is committed before it is applied, a payout inserts
reward by reward, an upload reads a player's stats and writes them later.

Some operations the source makes of several statements are one step here. Using a power-up takes an item or, in a
second statement, the coins. `Authenticate` reads the key and the account and then moves the expiry; a call that has
read its key can still be answered after a revoke-all, and the theorems are about calls that begin after it. A board is
read and then filtered by the banned players looked up. The daily attempt and retry operations run one at a time, each
with its failures as parameters.

A method that runs alone (`ProcessQueue`, `Cancel`, `RunDailyPass`, `ApproveWord`, `SetWord`, `RecordGamePlayed`) is
proved to be its steps with nothing in between (`MatchmakingRuns.UndisturbedPass`, `MatchmakingRuns.UndisturbedCancel`,
`Lookback.UndisturbedPass`, `WordDesk.UndisturbedApproval`, `WordDesk.UndisturbedEdit`, `StreakRuns.UndisturbedUpload`).

Code that changes state in place is a class (`Overlay.Engine`, `Dictionary.Service`, `WordDesk.WordStore`,
`WordDesk.WordSuggestionService`, `WordDesk.AdminWordService`, `AnalyticsStore.Store`,
`Matchmaking.MatchmakingService`, `AdminSessions.AdminAuthService`, `CoinStore.Store`, `DailyRetry.DailyService`,
`Payout.PayoutService`, `Streak.StreakService`) or a method over an array (`Leaderboard.FilterInPlace`); each method is
proved against a function of the old state, and the lemmas are about those functions. Ghost fields (`history`,
`seen`, `issued`, `used`, `charged`, `applied`, `paid`, `played`, `log`) are read by no operation. Times are integers
in nanoseconds and days are Iran days. Random draws, tokens and failures are parameters, and rooms are numbered in order
of creation.

## Promises that do not hold as stated

Each is stated as a lemma, in most cases with the exact condition under which the promise holds, and an input that
breaks it.

- A delta page keeps an app in step only if rows arrive in rising order: `Apply` has no guard on the number
  (`Dictionary.ApplyKeepsSyncExactly`). A database restore goes unnoticed once the server has caught up with the app's
  cursor (`Dictionary.RestoreCanBeMissed`, `Dictionary.RefreshConvergesExactly`).
- `ApplyOverrides` is safe for readers, as its comment says, but not for two writers: one batch can be lost
  (`Overlay.RacingWriterIsLostExactly`). The coupling of rows and overlay is proved for applies that do not overlap.
- A row is applied after its commit, so two admins' rows can arrive in the other order: the service then serves an
  older row than the table holds, and apps can miss one (`WordServing.ServesTheTableExactly`,
  `WordServing.ValidityFollowsTheLogExactly`, `WordServing.ApplyingKeepsAppsExactly`,
  `WordServing.SecondAdminIsOvertaken`).
- Blocking a word for the AI makes a word nobody knew valid (`WordServing.AIBlockKeepsValidityExactly`).
- The daily rows equal history only for batches stored in time. A request reads its clock, and clamps by it, before it
  stores: on one Iran day it may accept an event seven days old, and if the next day's pass comes before the commit, no
  pass ever counts that event (`Lookback.SlowRequestIsLost`, `RollupHistory.LateEventIsNeverCounted`). A batch is safe
  whatever it holds if and only if the oldest day its clock lets in is at most seven days before the last pass that
  began (`RollupHistory.StoringIsSafeExactly`); storing on the Iran day of the clock is enough
  (`RollupHistory.PromptRunsAreTimely`). `RollupHistory.RollupsEqualHistory` is what then holds.
- A day's rows count what was stored when the day was last rebuilt, also after a pass: an event stored while the pass
  is at work on later days shows on the next day (`RollupHistory.DayIsExactExactly`).
- Eight days of lookback cover a pass every day and a batch stored before it; they cover neither a skipped day nor a
  slow request (`Lookback.LookbackIsExact`).
- A client that sends a stored batch again does no harm only if its clocks were believed both times: an event whose
  clock was replaced is stored twice (`Ingest.ResendIsHarmlessExactly`).
- The user column of a day's active rows depends on the order of the events when an install named two users
  (`Summaries.UserColumnIgnoresOrderExactly`).
- Joining is safe exactly when nothing of the user is left: no call, no queue entry, no cancel that has still to read
  the queue, and no result on its way (`MatchmakingJoins.JoinIsSafeExactly`); `Join` looks at the waiter alone.
  Otherwise a user can be queued twice and paired with themselves, be sent to a room that is not theirs, or lose their
  waiter or their place (`MatchmakingWitnesses`).
- A cancel during a pass that has read the user's entry leaves the other player in a room nobody joins
  (`MatchmakingWitnesses.CancelDuringAPassLeavesAPlayerAlone`, `MatchmakingJoins.TellReachesExactly`).
- A login between the two commands of a revoke-all leaves a session the next revoke-all cannot find
  (`AdminSessions.SweepDeleteKeepsInvExactly`). After a password change a session opened for the old password is let
  in exactly if its login had compared the password, and not opened its session, when the revoke-all read the index
  (`AdminLogins.OldPasswordEscapesExactly`).
- A retry whose rollback fails gives a free attempt (`DailyRetry.RetryIsAllOrNothingExactly`); an attempt whose row
  failed after its match was stored can never be uploaded again (`DailyRetry.FailedInsertLosesTheAttempt`,
  `DailyRetry.RepeatStoresExactly`).
- A payout that is repeated until it succeeds pays each reward once, but a new reward whose announcement is lost is
  never announced (`Payout.PayoutConverges`). When the board grows between two runs, each player keeps the prize of the
  board that paid first: a place can be paid twice, and another not at all (`PayoutRuns.CleanRunPaysExactly`,
  `PayoutRuns.GrowingBoardPaysTwoFirstPrizes`).
- The AI's word is refused after a word of nothing but ZWNJs (`WordPick.AIPickAgreesWithTheRules`).
- A funnel step repeated twice in a row loses nobody (`Funnel.RepeatedStepLosesNobody`).
- An honest daily game is turned down when it runs over 200 words, as the app has no word limit, or when a word but
  the last ends in a ZWNJ, as the app links on that code unit (`DailyChain.HonestPlayIsAcceptedExactly`).
- The streak is the run of days played exactly when no day of that run was uploaded after a later date
  (`Streak.StreakIsTheRunExactly`), and a milestone reached twice on one server date is paid once
  (`Streak.RewardsAreTheMilestones`).
- Two uploads of one player that overlap can move last-played back (`StreakRuns.OverlapMovesLastPlayedBack`). A write
  comes out as if the upload had run alone exactly if the streak it computed is still the one to compute, or its day
  was counted with that streak meanwhile (`StreakRuns.WritesAsAloneExactly`).
- More than 20 banned players on top can leave a board short (`Leaderboard.ReadIsCompleteExactly`), and a player's own
  rank counts the banned above (`Leaderboard.OwnRankExceedsBoardRank`).
- The level loop is right below 4611685936800078000 XP and from there on wraps (`Levels.LevelIsRightExactly`).

The comment on `firstLetter` (backend/internal/engine/validator.go:59) says it returns 0 for an empty word; decoding
an empty string yields U+FFFD, and the model follows the code. No rule can tell: an empty word is too short before its
first letter is asked for.

## Model

| member | source | states |
|---|---|---|
| Words.LastLetterIsTheLastNonZwnj | backend/internal/engine/validator.go:47-57 | the link letter is the last code point that is not a ZWNJ once trailing spaces are cut, and 0 exactly when there is none |
| Words.LinkLetterIsNeverZwnj | backend/internal/engine/validator.go:50-57 | a ZWNJ is never a link letter |
| Words.TrimSpaceCutsTheEnds | backend/internal/engine/validator.go:69-70 | normalising cuts whitespace at both ends, nothing else, and leaves none there |
| Words.WellFormedIsTrimmed | backend/internal/engine/validator.go:69-77 | a word of letters and ZWNJs is not changed by normalising |
| Words.AlphabetExactly | backend/internal/engine/validator.go:26-45 | a code point is a letter exactly if it is one of the 37 listed, a space exactly if it is one of the 25 Unicode spaces, and allowed in a word exactly if it is a letter or a ZWNJ |
| Words.TrimmedIsUnique | backend/internal/engine/validator.go:69-70 | a word surrounded by any whitespace normalises to the word |
| Words.VerdictExactly | backend/internal/engine/validator.go:68-102 | the verdict on a move with any whitespace around the word: each of the six answers exactly when its rule is the first broken, and accepted exactly when none is |
| Overlay.LaterEntriesWin | backend/internal/engine/dictionary.go:48-75 | after any batch the last entry for a word decides its validity and its AI block, other words keep theirs, and added and removed stay disjoint |
| Overlay.ApplyAllConcat | backend/internal/engine/dictionary.go:50-75 | applying two batches one after the other is applying them as one |
| Overlay.RacingWriterIsLostExactly | backend/internal/engine/dictionary.go:50-75 | when the second of two writers loaded its snapshot before the first stored, answers about a word differ from the serial ones exactly when only the first changed it and asked for something new |
| Overlay.SwappedWritersAgreeExactly | backend/internal/service/dictionary.go:64-79 | two batches published in the other order than their rows agree about a word exactly when one does not touch it or both end alike |
| Overlay.Snapshot.constructor | backend/internal/engine/dictionary.go:26-32 | a snapshot holds the three sets it was made from |
| Overlay.Engine.constructor | backend/internal/engine/dictionary.go:36-46 | the base list is the lines trimmed, blank ones left out, and the first overlay is empty |
| Overlay.BundledExactly | backend/internal/engine/dictionary.go:36-46 | a word is bundled exactly if it is not empty and some line is the word with whitespace around it |
| Overlay.Engine.ApplyOverrides | backend/internal/engine/dictionary.go:48-75 | the live contents become the old ones with the batch applied, in a new snapshot; a snapshot loaded before keeps its contents |
| Overlay.Engine.IsValid | backend/internal/engine/dictionary.go:85-97 | true exactly for the currently valid words |
| Overlay.Engine.IsAIBlocked | backend/internal/engine/dictionary.go:99-103 | true exactly for the words blocked for the AI |
| Overlay.Engine.EachWord | backend/internal/engine/dictionary.go:111-130 | visits exactly the valid words, each once, whatever the map order |
| Dictionary.RisingBatchKeepsServer | backend/internal/service/dictionary.go:64-79 | a batch that continues the sequence keeps numbers distinct and positive, and max is the number of some row |
| Dictionary.PendingIsUnique | backend/internal/service/dictionary.go:90-96 | the pending rows are the rows above the cursor in rising order, and no other list is |
| Dictionary.PageCursor | backend/internal/service/dictionary.go:82-108 | the cursor of a page never falls below where it started, covers every row when more is false, and stays at or below max without a reset |
| Dictionary.PageIsCutExactly | backend/internal/service/dictionary.go:82-108 | a page holds the first 5000 rows above its start, says whether there are more, starts over exactly for a cursor above max, and the last one returns max itself |
| Dictionary.PageCarries | backend/internal/service/dictionary.go:82-108 | a page carries exactly the rows between its start and the cursor it returns |
| Dictionary.PageLookup | backend/internal/service/dictionary.go:25-34 | what one page does to an app's cache, word by word, with and without a reset |
| Dictionary.PageKeepsSyncExactly | backend/internal/service/dictionary.go:81-108 | after a page every row up to the cursor is cached with its state exactly when that held before or the page starts over |
| Dictionary.LastPageIsComplete | backend/internal/service/dictionary.go:25-34 | after a page with more = false, being in step means holding exactly the server's rows |
| Dictionary.PageShrinksPending | backend/internal/service/dictionary.go:97-103 | a full page takes exactly its rows off the list still pending |
| Dictionary.RefreshConvergesExactly | client/lib/core/services/dictionary_delta_service.dart:85-121 | paging ends after as many pages as the pending rows need, with exactly the server's rows if and only if the copy was in step or ahead of the server |
| Dictionary.ShortRefreshProgress | client/lib/core/services/dictionary_delta_service.dart:93-113 | a refresh stopped by the page limit has taken that many full pages and stays in step |
| Dictionary.RisingBatchKeepsSync | backend/internal/service/dictionary.go:64-79 | rows numbered above max disturb no copy |
| Dictionary.EveryRunStaysInSync | backend/internal/service/dictionary.go:64-108 | in every interleaving of rising applies and polls, each row at or below the app's cursor is cached with its state |
| Dictionary.LastStepActs | backend/internal/service/dictionary.go:64-108 | in every run an apply changes the server only, and a poll the app only, by the page for its cursor |
| Dictionary.DeltaConverges | backend/internal/service/dictionary.go:25-34 | in every such run from scratch, a page with more = false leaves the app with the server's rows |
| Dictionary.ApplyKeepsSyncExactly | backend/internal/service/dictionary.go:70-74 | one applied row keeps every copy in step exactly when it is numbered above max or repeats its word's state |
| Dictionary.RestoreCanBeMissed | backend/internal/service/dictionary.go:87-89 | a restored server that has caught up with an app's cursor never sends it a reset, and no number of pages repairs the copy |
| Dictionary.ApplyKeepsCoupling | backend/internal/service/dictionary.go:64-79 | after any batches a word is valid as its row says, or as the base list has it without one, and blocked as its row says |
| Dictionary.CaughtUpAppAgreesWithServer | client/lib/core/services/dictionary_service.dart:58-72 | an app that holds the server's rows has the same valid and the same blocked words |
| Dictionary.Service.constructor | backend/internal/service/dictionary.go:49-51 | starts without rows |
| Dictionary.Service.Apply | backend/internal/service/dictionary.go:63-79 | rows, max and overlay all become the old ones with the batch applied |
| Dictionary.Service.CollectPending | backend/internal/service/dictionary.go:90-96 | collects and sorts the pending rows, in any map order |
| Dictionary.Service.GetDelta | backend/internal/service/dictionary.go:81-108 | answers the page of the cursor |
| Dictionary.Service.AllOverrides | backend/internal/service/dictionary.go:110-120 | lists every row once, in rising order |
| WordPick.SuggestWord | backend/internal/engine/dictionary.go:136-159 | returns an unused valid word on the letter, of three letters or more whenever one exists, and "" only when no word is left |
| WordPick.HintAgreesWithTheRules | backend/internal/engine/dictionary.go:136-159 | a hint is a move ValidateMove accepts, is missing exactly when no move is, and is long exactly when a long move exists |
| WordPick.LessIsStrictTotal | backend/internal/engine/ai_words.go:55-65 | the tie-break order on words is a strict total order |
| WordPick.LongestIsUnique | backend/internal/engine/ai_words.go:55-65 | the longest word of a set, ties broken by that order, is one word whatever order the set is visited in |
| WordPick.LongestIn | backend/internal/engine/ai_words.go:55-65 | returns the longest word of the list with the least tie-break |
| WordPick.SelectAIWord | backend/internal/engine/ai_words.go:19-53 | returns an unused, unblocked word on the letter of the minimum length, "" exactly when there is none, and a trap word exactly when the draw asks for one and one exists |
| WordPick.TrapsEndOnRareLetters | backend/internal/engine/ai_words.go:19-34 | a word is a trap exactly if its link letter is one of five rare ones |
| WordPick.AIPickAgreesWithTheRules | backend/internal/engine/ai_words.go:19-53 | the AI's word is an accepted move unless the previous word has no letter to link on, and is never a blocked word |
| WordPick.AIPickCanBeRefused | backend/internal/engine/ai_words.go:19-34 | with a word of ZWNJs in the dictionary the AI's word can be refused |
| Export.ExportDescribes | backend/internal/service/admin_words.go:428-445 | the export lists exactly the present words outside the base, the absent ones inside it and the blocked ones, under the server's highest number |
| Export.MakeExport | backend/internal/service/admin_words.go:427-445 | the loop over the rows produces such an export |
| Export.FoldedListIsTheLiveDictionary | backend/internal/service/admin_words.go:419-445 | the base plus Added minus Removed is exactly the set of valid words, and the blocks are the live ones |
| Export.ReleaseChangesNoAnswer | backend/internal/service/admin_words.go:419-445 | shipping the folded list with the overlay kept, or cut down to its blocks, changes no answer |
| Export.OldAndNewAppsAgree | backend/internal/service/admin_words.go:419-445 | apps on the old and on the folded list have the same words under the same delta |
| WordReview.ReviewsAreKept | backend/internal/repository/words.go:137-188 | in every run a suggestion's counter is the number of its distinct reports, and a reward exists, once a word, exactly for the earliest signed-in reporter of an approved addition |
| WordReview.ReviewedIsFinal | backend/internal/repository/words.go:357-448 | no run changes a reviewed suggestion, its counter or its reports |
| WordReview.ProperExactly | backend/internal/service/admin_words.go:326-331 | a trimmed word passes the check of reports and edits exactly when it is made of letters and ZWNJs and has 2 to 30 code points |
| WordReview.OnlyProperWords | backend/internal/service/word_suggestions.go:67-77 | in every run suggestions and override rows name only such words |
| WordActions.ReportActsExactly | backend/internal/repository/words.go:137-188 | a report is taken exactly if the topic was not reviewed; it then waits, and counts if this reporter had not reported it; nothing else changes |
| WordActions.EditActs | backend/internal/repository/words.go:80-113 | each action writes its row: add makes present and keeps the block, remove makes absent and unblocks, block and unblock keep presence; a fresh row starts present and unblocked; other rows stay |
| WordActions.ApprovalActsExactly | backend/internal/repository/words.go:357-426 | an approval is done exactly if the suggestion waits and the outcome goes with its kind; an addition then becomes present, a removal absent or blocked for the AI, as logged; each refusal has its reason and changes nothing |
| WordActions.ApprovalRewardsExactly | backend/internal/repository/words.go:398-420 | a done approval of an addition rewards its first signed-in reporter, once, and no other approval rewards anybody |
| WordActions.RejectionActsExactly | backend/internal/repository/words.go:428-448 | a rejection is done exactly if the suggestion waits; it then is rejected, and nothing else changes |
| WordActions.LastStepActs | backend/internal/repository/words.go:80-448 | in every run the last report, review, edit, application, undone transaction or restart acts on what the ones before it left, and a refused one not at all |
| WordServing.CommitIsYoungest | backend/internal/repository/words.go:80-113 | a committed row is younger than every row that was applied or is on its way, the upsert being one statement |
| WordServing.OverridesAreKept | backend/internal/repository/words.go:80-113 | in every interleaving of reviews, edits, their applications, undone transactions and restarts each field of a row is decided by the last action that touches it, and every row of the table was applied or still will be |
| WordServing.ServedIsTheLast | backend/internal/service/dictionary.go:64-79 | the service serves, for each word, the row applied last |
| WordServing.YoungestIsTheTables | backend/internal/service/admin_words.go:226-230 | once no row of a word is on its way, the youngest applied is the table's |
| WordServing.ServesTheTableExactly | backend/internal/service/admin_words.go:339-343 | with no row on its way the service serves the table if and only if for every word the row applied last is the youngest |
| WordServing.InOrderServes | backend/internal/service/admin_words.go:339-343 | when the rows of each word are applied in the order they were committed and none is on its way, the service serves the table |
| WordServing.RestartServesTheTable | backend/internal/service/dictionary.go:53-61 | loading the rows oldest first into an empty service rebuilds the table, whatever was served before |
| WordServing.ValidityFollowsTheLogExactly | backend/internal/service/admin_words.go:212-352 | in every run, once no row of a word is on its way, its answers are those of its last add or remove, and of its last remove, block or unblock, if and only if the row applied last says the same as the youngest |
| WordServing.ApplyingKeepsAppsExactly | backend/internal/service/dictionary.go:64-79 | applying one row keeps every app in step exactly if it is numbered above all before, or repeats the state its word has under a lower number |
| WordServing.SecondAdminIsOvertaken | backend/internal/service/admin_words.go:339-343 | one admin adds a word, another removes it, the second row is applied first: the removed word is served |
| WordServing.AIBlockKeepsValidityExactly | backend/internal/repository/words.go:80-106 | a block or unblock leaves validity alone exactly unless the word has no row and is not in the base list |
| WordServing.DictionaryStaysWellFormed | backend/internal/service/admin_words.go:212-352 | a well-formed base list stays a well-formed dictionary in every run, as the hint and the AI require |
| WordDesk.WordStore.constructor | backend/internal/repository/words.go:37-37 | starts with empty tables |
| WordDesk.WordStore.UpsertOverride | backend/internal/repository/words.go:80-113 | writes the row with the fields the action sets, the others kept, under the next number |
| WordDesk.WordStore.SubmitReport | backend/internal/repository/words.go:137-188 | counts a reporter once a word and refuses a reviewed word |
| WordDesk.WordStore.EarliestAccount | backend/internal/repository/words.go:402-409 | finds the first report of the topic made by an account |
| WordDesk.WordStore.ApproveSuggestion | backend/internal/repository/words.go:357-426 | reviews, writes the override and rewards the first reporter in one transaction, or refuses and changes nothing |
| WordDesk.WordStore.RejectSuggestion | backend/internal/repository/words.go:428-448 | rejects a pending suggestion, or says why not |
| WordDesk.WordSuggestionService.SubmitWord | backend/internal/service/word_suggestions.go:64-129 | trims, then refuses in order the improper word or reporter, the addition the dictionary has or an admin rejected, the removal without reason, of an unknown or of a blocked word, and the reporter over the caps; records the rest |
| WordDesk.RefusalsAreAnswered | backend/internal/service/word_suggestions.go:68-117 | which reports go through, and for which exact reason each other is turned away |
| WordDesk.AdminWordService.ApplyRowNow | backend/internal/service/admin_words.go:230-230 | hands one committed row to the dictionary and takes it off the rows on their way |
| WordDesk.AdminWordService.ApproveWord | backend/internal/service/admin_words.go:212-242 | undisturbed, refuses a bad note, approves in the store and applies the row: an approved addition then is a valid word, a removed one is none, and a blocked one is kept from the AI |
| WordDesk.AdminWordService.RejectWord | backend/internal/service/admin_words.go:244-256 | refuses a bad note, or rejects in the store |
| WordDesk.AdminWordService.SetWord | backend/internal/service/admin_words.go:318-349 | undisturbed, refuses a missing reason, trims, refuses exactly the improper words, and writes and applies the override of the others: the live dictionary then has, lacks, blocks or unblocks the word as the action says |
| WordDesk.UndisturbedApproval | backend/internal/service/admin_words.go:226-230 | an approval with nothing in between is its commit and its application |
| WordDesk.UndisturbedEdit | backend/internal/service/admin_words.go:339-343 | an edit with nothing in between is its commit and its application; a missing reason or an improper word is refused for that, and a refusal changes nothing |
| WordDesk.UndisturbedRejection | backend/internal/service/admin_words.go:245-256 | a rejection is that of the store, or refused for its note |
| WordDesk.AdminWordService.ReviewOne | backend/internal/service/admin_words.go:281-287 | approves without an outcome, or rejects |
| WordDesk.AdminWordService.BulkRound | backend/internal/service/admin_words.go:281-297 | one round lists the topic with its reason exactly when it failed |
| WordDesk.AdminWordService.Bulk | backend/internal/service/admin_words.go:270-299 | refuses no or more than 100 suggestions and unknown actions; otherwise takes the suggestions one by one, each in the state the ones before it left, and lists the failed ones with their reason |
| WordDesk.BulkReviewsEverything | backend/internal/service/admin_words.go:270-299 | whatever fails, with a proper note every named suggestion that waited is reviewed afterwards as the action says, unless it is a removal to be approved, and no other is; with a bad note nothing happens |
| Calendar.IranDayIsItsInterval | backend/internal/config/timezone.go:1-14 | an instant is on an Iran day exactly when it lies between the day's start and the next day's |
| Calendar.DayShift | backend/internal/config/timezone.go:1-14 | k days later is k Iran days later |
| Calendar.IranMidnight | backend/internal/config/timezone.go:5-14 | Iran's midnight is 20:30 UTC of the day before, all year |
| Calendar.MonthIsUnique | backend/internal/repository/analytics.go:123-128 | an instant is in one month |
| Calendar.MonthLength | backend/internal/repository/analytics.go:123-128 | a month lasts 28 to 31 days |
| Calendar.DaysInTheMonths | backend/internal/repository/analytics.go:125-129 | the lengths of the twelve months, February after the Gregorian rule |
| Calendar.YearStartsByTheFormula | backend/internal/repository/analytics.go:125-129 | each year begins where the classical count of leap years says |
| Calendar.AddMonthsKeepsTheDay | backend/internal/service/analytics.go:236-236 | months away is the same time of the same day of the month, or up to three days into the next month when that day is missing |
| Calendar.SixMonthsBack | backend/internal/service/analytics.go:236-236 | the retention cutoff is at least 168 days back, overflowing dates included |
| Partitions.ExpiredNames | backend/internal/repository/analytics.go:146-189 | finds exactly the partitions whose month has ended by the cutoff |
| Partitions.ExpiredExactly | backend/internal/repository/analytics.go:171-174 | a partition has expired exactly if every instant of its month lies before the cutoff |
| Partitions.MonthsAreInARow | backend/internal/repository/analytics.go:134-136 | the partitions made are n months in a row |
| Rollups.ClampStaysInTheWindow | backend/internal/service/analytics.go:159-163 | a clamped clock is at most seven days back and five minutes ahead, and at most seven Iran days back |
| Rollups.ClockIsTakenExactly | backend/internal/service/analytics.go:159-163 | the device's clock is taken exactly if it is a date at most a week old and at most five minutes fast, else the server's |
| Rollups.AcceptedInWindow | backend/internal/service/analytics.go:116-186 | every accepted event is at most seven days back and five minutes ahead of the server's clock, at most seven Iran days back, and carries the caller's install |
| Rollups.InsertKeepsAgreement | backend/internal/repository/analytics.go:46-105 | whatever a batch holds, the raw table and the whole history keep agreeing about all events from a time on: they see the same conflicts |
| Rollups.AcceptedReachesBack | backend/internal/service/analytics.go:159-163 | no accepted event lies before the first whole millisecond its clock lets in |
| Rollups.AcceptedInOrder | backend/internal/service/analytics.go:127-137 | the accepted events are exactly the well-formed inputs, in order, under the caller's install at their clamped time |
| Rollups.BatchIsStoredOnce | backend/internal/repository/analytics.go:58-83 | a stored batch leaves one row a key, a row for each of its keys, and the rows before it as they were |
| Rollups.BatchIsStoredWhole | backend/internal/repository/analytics.go:46-105 | a batch is stored whole, or not at all when a row has no partition |
| Rollups.SpanIsAttained | backend/internal/repository/analytics.go:56-67 | the span of a batch ends at two of its events |
| Rollups.WidenHoldsBoth | backend/internal/repository/analytics.go:85-97 | an install's span grows to hold the batch's, and no further; other installs keep theirs |
| Rollups.DayHasExactly | backend/internal/repository/analytics.go:195-197 | a day has exactly the stored events whose Iran day it is |
| Rollups.DropsExactly | backend/internal/repository/analytics.go:147-189 | retention drops exactly the partitions wholly before the cutoff, with their events, and no rollup rows |
| Rollups.PassLeavesExactly | backend/internal/service/analytics.go:231-239 | a pass leaves exactly the partitions that reach into the last six months, gives the eight days before today fresh rows, and keeps all other rows |
| RollupRuns.RebuildIsExact | backend/internal/repository/analytics.go:191-244 | a day the job rebuilds gets the rows of all events ever stored, though most raw events are gone |
| RollupRuns.StoreKeepsInv | backend/internal/repository/analytics.go:46-105 | a stored batch keeps every row counting what it counted, the raw events from the retention on, and the spans of the installs |
| RollupRuns.DropKeepsInv | backend/internal/repository/analytics.go:182-187 | dropping an expired partition loses no event of a day that is rebuilt again |
| RollupRuns.FailuresOnlyForget | backend/internal/service/analytics.go:116-247 | in every run a failing request leaves all but itself as it was, and a failing job all it has done so far |
| RollupRuns.EveryRunCountsWhatItSaw | backend/internal/service/analytics.go:116-247 | in every interleaving of requests between clock and insert, of every statement of the job, and of failures, the rows of each day are a recomputation over history as it was when the day was last rebuilt, and each full pass rebuilt its days after it began |
| RollupHistory.DayIsExactExactly | backend/internal/repository/analytics.go:191-193 | in every run a day's rows equal a recomputation over all of history exactly if no event of the day was stored since it was last rebuilt |
| RollupHistory.StoreKeepsSettled | backend/internal/service/analytics.go:127-139 | a batch stored in time changes no day that every later pass has behind it |
| RollupHistory.StepKeepsSettled | backend/internal/service/analytics.go:222-247 | each statement keeps the days no later pass reaches equal to history, if each day has a pass that begins and batches are stored in time |
| RollupHistory.PassCatchesUp | backend/internal/service/analytics.go:222-247 | after a full pass every finished day counts all that was stored before the pass began, and all of history if nothing was stored since |
| RollupHistory.TimelyRunsStaySettled | backend/internal/scheduler/scheduler.go:105-126 | in every interleaving in which each day has a pass that begins and batches are stored in time, the days no later pass reaches equal history |
| RollupHistory.RollupsEqualHistory | backend/internal/service/analytics.go:222-247 | in every run from the launch in which each day has a pass that begins and each batch is stored in time: days no later pass reaches have the rows of all events ever stored, every finished day counts all stored before the last full pass began, and equals history if nothing was stored since |
| RollupHistory.PromptRunsAreTimely | backend/internal/service/analytics.go:127-139 | storing each batch on the Iran day its clock was read is in time |
| RollupHistory.StoringIsSafeExactly | backend/internal/service/analytics.go:127-139 | a batch clamped at a clock and stored now is safe, whatever it holds and whatever follows in time, if and only if the oldest day that clock lets in is at most seven days before the day of the last pass that began |
| RollupHistory.LateEventIsNeverCounted | backend/internal/service/analytics.go:231-235 | an event stored for a day that every later pass has behind it is counted in no later run, punctual or not |
| Rollups.ReachExactly | backend/internal/config/config.go:212-217 | the window reaches back seven Iran days, six in the last part of a millisecond of a day |
| Lookback.UndisturbedPass | backend/internal/service/analytics.go:231-246 | the rebuilds, drops and the flag with nothing in between are the whole pass |
| Lookback.LookbackSuffices | backend/internal/config/config.go:212-217 | a lookback of the days in reach plus the days from the request's clock to the next pass loses no batch |
| Lookback.ShortLookbackLosesEvents | backend/internal/config/config.go:212-217 | with a lookback shorter than the days in reach plus those from the clock to the pass, the oldest event the clock lets in is lost |
| Lookback.LookbackIsExact | backend/internal/config/config.go:212-217 | no batch is lost if and only if the lookback covers the days in reach plus the days from the request's clock, over the store, to the next pass |
| Lookback.SlowRequestIsLost | backend/internal/service/analytics.go:127-139 | from any state in order, a request that reads its clock on one Iran day and commits after the next day's pass stores an event no later run counts, although every pass is punctual |
| Ingest.IngestFitsExactly | backend/internal/repository/analytics.go:130-144 | every acceptable batch finds its partitions exactly when the months at both ends of the window exist |
| Ingest.ServedBatchFits | backend/internal/service/analytics.go:205-208 | the three months made at one time hold every batch whose clock lies between a week after the first begins and five minutes before the last ends, whenever it is stored |
| Ingest.RetentionKeepsEnsuredPartitions | backend/internal/repository/analytics.go:146-189 | no retention pass in that time drops one of them |
| Ingest.FourWeeksServe | backend/internal/service/analytics.go:205-208 | clocks from three weeks before to four weeks after that time, less five minutes, always do |
| Ingest.ServedRunsFit | backend/internal/scheduler/scheduler.go:97-126 | in every interleaving no batch is turned away for want of a partition, if the partitions made last serve its clock |
| Ingest.InsertsNothingExactly | backend/internal/repository/analytics.go:42-105 | a batch is stored without effect exactly when each of its rows is there already |
| Ingest.ResendIsHarmlessExactly | backend/internal/repository/analytics.go:42-45 | a stored batch sent again at another time adds nothing exactly if every event had its clock inside the window both times |
| Ingest.ResentClamplessEventIsStoredTwice | backend/internal/repository/analytics.go:42-45 | an event without a clock, sent twice, is stored twice |
| Summaries.ActiveRows | backend/internal/repository/analytics.go:212-215 | an install is active exactly if it sent an event, with as many as it sent |
| Summaries.CountRows | backend/internal/repository/analytics.go:216-219 | a name has a row exactly if it occurs, with how often and from how many different installs |
| Summaries.ScreenRows | backend/internal/repository/analytics.go:220-228 | a screen has a row exactly if it is named and was viewed, with how often and how long in all |
| Summaries.SessionRows | backend/internal/repository/analytics.go:229-233 | there is a row of sessions exactly if one ended, with how many and how long in all |
| Summaries.SummaryIgnoresOrder | backend/internal/repository/analytics.go:191-244 | a day's counted rows depend on which events are stored, not on their order |
| Summaries.SummariseCountsEvents | backend/internal/repository/analytics.go:191-244 | more events always show in the day's rows |
| Summaries.UserColumnIgnoresOrderExactly | backend/internal/repository/analytics.go:212-215 | the user of an active row is the same in every order of the events exactly if the install named at most one user |
| AnalyticsStore.Store.constructor | backend/internal/repository/analytics.go:19-21 | starts empty |
| AnalyticsStore.Store.InsertEvents | backend/internal/repository/analytics.go:46-105 | stores the batch without duplicates and widens the install's span, or stores nothing when a row has no partition |
| AnalyticsStore.Store.EnsureAnalyticsPartitions | backend/internal/repository/analytics.go:130-144 | afterwards the months from the previous one to `ahead` months on exist |
| AnalyticsStore.Store.DropOldPartitions | backend/internal/repository/analytics.go:146-189 | drops exactly the expired partitions with their events |
| AnalyticsStore.Store.RollupAnalyticsDay | backend/internal/repository/analytics.go:191-244 | replaces one day's rows by those of its stored events |
| AnalyticsStore.Store.RebuildLookback | backend/internal/service/analytics.go:231-235 | rebuilds the lookback days, oldest first |
| AnalyticsStore.Store.RunDailyPass | backend/internal/service/analytics.go:222-247 | does nothing when the day's flag is set; otherwise rebuilds the lookback days, drops old partitions and sets the flag |
| Funnel.EarliestIsTheMinimum | backend/internal/repository/admin_analytics.go:161-193 | a step's time is the minimum over its events in the window at or after the previous one |
| Funnel.GreedyIsEarliest | backend/internal/repository/admin_analytics.go:161-193 | no ordered chain of events finishes before the time the query keeps |
| Funnel.GreedyIsExact | backend/internal/repository/admin_analytics.go:155-193 | an install is counted at step k exactly when events for steps 1 to k exist in the window in order |
| Funnel.AnalyticsFunnel | backend/internal/repository/admin_analytics.go:155-193 | the k-th count is the number of installs with such a chain |
| Funnel.StepsOnlyLose | backend/internal/repository/admin_analytics.go:161-193 | every install that completes the steps completes all but the last |
| Funnel.RepeatedStepLosesNobody | backend/internal/repository/admin_analytics.go:161-193 | a step equal to the one before it counts the same installs |
| Funnel.CountsNeverIncrease | backend/internal/service/admin_analytics.go:190-228 | counts never increase from an earlier step to a later one |
| Funnel.ShareOfAPart | backend/internal/service/admin_analytics.go:217-226 | a step's share is the fraction of a part in its whole, between 0 and 1, and 0 without a whole |
| Funnel.BuildRows | backend/internal/service/admin_analytics.go:212-227 | rows carry the counts in order with their shares of the first and of the previous step |
| Funnel.FunnelReport | backend/internal/service/admin_analytics.go:198-228 | refuses exactly the bad requests and otherwise reports the exact counts over the last days up to today |
| Matchmaking.PassCreatesRooms | backend/internal/service/matchmaking.go:149-223 | undisturbed, from any queue, fresh entries are paired with their neighbours in order of arrival, then every stale one gets an AI room |
| Matchmaking.PassLeavesOneAtMost | backend/internal/service/matchmaking.go:149-223 | undisturbed, what leaves the queue is exactly what got a room; undecodable elements and the last of an odd number of fresh entries stay |
| Matchmaking.PairsAreNeighbours | backend/internal/service/matchmaking.go:184-187 | the k-th room is for the entries 2k and 2k + 1 in order of arrival |
| Matchmaking.RoomsOfAQueue | backend/internal/service/matchmaking.go:163-222 | the rooms of a queue by position: entries that waited less than 30 seconds in pairs in order of arrival, then an AI room on its difficulty, easy by default, for each that waited longer, in order |
| Matchmaking.AIRoomsAreForTheWaitingExactly | backend/internal/service/matchmaking.go:172-222 | an entry gets an AI room exactly if it is queued and has waited 30 seconds, and no pair holds such an entry |
| Matchmaking.FirstEntryIsTheEarliest | backend/internal/service/matchmaking.go:126-135 | what a cancel finds is the user's earliest entry |
| Matchmaking.PlayersOfThePass | backend/internal/service/matchmaking.go:163-222 | the players of a pass are every decoded element of the queue it read, as often as it was queued, but for the leftover |
| Matchmaking.MatchmakingService.constructor | backend/internal/service/matchmaking.go:52-61 | starts idle |
| Matchmaking.MatchmakingService.JoinStart | backend/internal/service/matchmaking.go:71-82 | registers the call, unless the user already has a waiter |
| Matchmaking.MatchmakingService.Enqueue | backend/internal/service/matchmaking.go:90-94 | pushes the entry of a registered call |
| Matchmaking.MatchmakingService.Finish | backend/internal/service/matchmaking.go:84-110 | the deferred cleanup deletes the user's waiter, whichever call registered it |
| Matchmaking.MatchmakingService.Cancel | backend/internal/service/matchmaking.go:112-137 | undisturbed, closes and removes the waiter and removes the user's first entry |
| Matchmaking.MatchmakingService.Send | backend/internal/service/matchmaking.go:225-236 | fills an empty channel once; a full one or a missing waiter drops the result |
| Matchmaking.MatchmakingService.MatchPair | backend/internal/service/matchmaking.go:185-199 | the five commands of a pair in order: remove, remove, open, tell, tell |
| Matchmaking.MatchmakingService.FallBack | backend/internal/service/matchmaking.go:202-222 | removes the entry, opens an AI room on its difficulty, and tells the player if the AI got in |
| Matchmaking.MatchmakingService.PairFresh | backend/internal/service/matchmaking.go:184-199 | the pairing loop runs the rounds of the pairs and leaves the later rounds as planned |
| Matchmaking.MatchmakingService.FallBackAll | backend/internal/service/matchmaking.go:201-222 | the fallback loop runs the rounds of the stale entries |
| Matchmaking.MatchmakingService.ProcessQueue | backend/internal/service/matchmaking.go:149-223 | undisturbed, the loops amount to the commands planned from the queue read |
| Matchmaking.FindUser | backend/internal/service/matchmaking.go:126-135 | finds the user's first entry in the queue |
| Matchmaking.SplitQueue | backend/internal/service/matchmaking.go:163-182 | splits the decodable entries into fresh and stale, in order |
| MatchmakingRuns.RoomsAreThoseRead | backend/internal/service/matchmaking.go:149-223 | in every interleaving of all commands a run opens exactly the rooms of the queues its passes read, neighbours in order of arrival and then the stale |
| MatchmakingRuns.WaitingGetTheirAIRoomExactly | backend/internal/service/matchmaking.go:152-222 | when a pass reads the queue, exactly the entries it finds that have waited 30 seconds are promised an AI room, beside those promised before |
| MatchmakingRuns.PromisedAIRoomsStay | backend/internal/service/matchmaking.go:200-222 | no later step of any request or pass takes a promised AI room away |
| MatchmakingRuns.QueueIsInOrderOfArrival | backend/internal/service/matchmaking.go:90-94 | in every interleaving the queue is what is left of the pushes, in their order |
| MatchmakingOrder.NewsIsTrue | backend/internal/service/matchmaking.go:184-222 | in every interleaving whoever is sent to a room finds it open, it is a room of theirs, an AI is in it exactly if they were told so, and nobody in an open room is still queued |
| MatchmakingRuns.AtMostOneResult | backend/internal/service/matchmaking.go:225-236 | in every run from any state a call that was sent a result is never sent another |
| MatchmakingRuns.EveryRunIsTidy | backend/internal/service/matchmaking.go:63-236 | in every interleaving no entry is queued twice, a placed entry still queued is about to be removed, the pass removes only placed ones, and every waiter belongs to a live call of its user |
| MatchmakingRuns.EveryEntryGetsOneRoom | backend/internal/service/matchmaking.go:149-223 | in every interleaving an entry gets at most one room and one place in it |
| MatchmakingRuns.UndisturbedPass | backend/internal/service/matchmaking.go:149-223 | reading the queue and running the planned commands with nothing in between is the whole pass |
| MatchmakingRuns.UndisturbedCancel | backend/internal/service/matchmaking.go:112-137 | the three commands of a cancel with nothing in between are the whole cancel |
| MatchmakingJoins.StepKeepsInv | backend/internal/service/matchmaking.go:63-236 | every command of every request and of the pass keeps queue, waiters, calls, results and rooms consistent, if users join only when nothing of theirs is left |
| MatchmakingJoins.ClearRunsAreSafe | backend/internal/service/matchmaking.go:63-236 | in every such run nobody is queued twice or paired with themselves, nobody is sent to a room that is not theirs, and no call that was not cancelled loses its waiter or its place |
| MatchmakingJoins.EveryCallIsServed | backend/internal/service/matchmaking.go:63-236 | between passes of such a run a call nobody cancelled is still queued, or holds the number of the room its entry is in, or its AI could not enter |
| MatchmakingJoins.TellReachesExactly | backend/internal/service/matchmaking.go:225-236 | a result on its way reaches a call it is for exactly if that user still has a waiter |
| MatchmakingJoins.JoinIsSafeExactly | backend/internal/service/matchmaking.go:76-82 | a user without a waiter joins safely, whatever follows, if and only if no call, no queue entry, no unread cancel and no unsent result of theirs is left |
| MatchmakingJoins.EarlierCallDrops | backend/internal/service/matchmaking.go:84-88 | with a call of theirs still to end, its cleanup deletes the new waiter |
| MatchmakingJoins.EarlierEntryDoubles | backend/internal/service/matchmaking.go:90-94 | with an entry of theirs still queued, the new one is the second |
| MatchmakingJoins.EarlierCancelRobs | backend/internal/service/matchmaking.go:122-135 | with a cancel of theirs still to read the queue, it removes the new entry |
| MatchmakingJoins.EarlierResultMisleads | backend/internal/service/matchmaking.go:197-198 | with a result for them on its way, the new call is sent to a room its entry is not in |
| MatchmakingWitnesses.CancelBeforeThePushStrandsTheEntry | backend/internal/service/matchmaking.go:76-94 | a cancel between registration and push leaves an entry in the queue without a call |
| MatchmakingWitnesses.LateCleanupDropsTheNewWaiter | backend/internal/service/matchmaking.go:84-88 | a cancelled call that ends late removes the waiter of the user's next call |
| MatchmakingWitnesses.CancelDuringAPassLeavesAPlayerAlone | backend/internal/service/matchmaking.go:152-198 | a cancel after the pass read the queue: the room is opened, one player is told, the other never is |
| MatchmakingWitnesses.JoinDuringAPassPairsAUserWithThemselves | backend/internal/service/matchmaking.go:152-198 | a cancel and a new join during a pass end with the user queued twice and paired with themselves, though every call ended by a result or a cancel |
| MatchmakingWitnesses.AbandonedEntryPairsAUserWithThemselves | backend/internal/service/matchmaking.go:105-109 | an abandoned call's entry and the next call's are paired with each other |
| AdminSessions.AuthenticatesExactly | backend/internal/service/admin_auth.go:230-269 | a token authenticates exactly when its session is unexpired and inside the cap and its account is active, and gets the account's current role |
| AdminSessions.AuthenticateSlides | backend/internal/service/admin_auth.go:263-268 | a granted call moves the expiry to the idle timeout or the cap, whichever comes first, and nothing else |
| AdminSessions.LoginKeepsInv | backend/internal/service/admin_auth.go:209-228 | a new session is in its admin's index, which outlives it |
| AdminSessions.LoginIsLetInExactly | backend/internal/service/admin_auth.go:209-269 | an unused session is let in exactly until the idle timeout or the cap, with its account active, and a login changes the answer to no other token |
| AdminSessions.ListLapsesExactly | backend/internal/service/admin_auth.go:221-223 | an admin's list holds a new session until its cap |
| AdminSessions.RevokeKeepsInv | backend/internal/service/admin_auth.go:271-283 | a revoked token is dead, and every other usable one stays findable |
| AdminSessions.RevokeEndsOne | backend/internal/service/admin_auth.go:276-283 | a revoked token has no session and is on no list of its admin |
| AdminSessions.RevokeSparesOthers | backend/internal/service/admin_auth.go:276-283 | every other session stays stored, listed and answered as it was |
| AdminSessions.LastStepTakesEffect | backend/internal/service/admin_auth.go:158-360 | in every run a login stores its session, a request slides the one it is let in by or ends the one it is refused, a logout ends its own, a revoke-all reads its admin's list and later ends exactly that, and no step does more |
| AdminSessions.SweepDeleteKeepsInvExactly | backend/internal/service/admin_auth.go:285-299 | the delete of a revoke-all keeps usable sessions findable exactly when none of that admin appeared since the read |
| AdminSessions.NoTokenOutlivesTheCap | backend/internal/service/admin_auth.go:249-253 | in every run, however often it slides, a token is refused from its creation plus the cap on |
| AdminSessions.DeadStaysDead | backend/internal/service/admin_auth.go:233-269 | a token that cannot authenticate never can again |
| AdminSessions.RevokeAllIsComplete | backend/internal/service/admin_auth.go:285-299 | whatever happens between its two commands and after, no session from before a revoke-all ever authenticates again |
| AdminSessions.RevokeAllEndsWhatItRead | backend/internal/service/admin_auth.go:285-299 | a finished revoke-all has ended exactly the sessions it read and emptied the list |
| AdminSessions.RevokeAllSparesOthers | backend/internal/service/admin_auth.go:285-299 | no other admin's session or list is touched by it |
| AdminSessions.SparedSessionLivesOn | backend/internal/service/admin_auth.go:209-299 | a usable session of an active account goes on being let in through any steps but its own logout, a revoke-all of its admin, its account's end, its expiry and its cap |
| AdminSessions.ApartRunsAreQuiet | backend/internal/service/admin_auth.go:209-299 | in every run in which no admin logs in between the two commands of a revoke-all of theirs, every usable session is in its admin's unexpired index |
| AdminSessions.LoginDuringRevokeAllEscapesTheNext | backend/internal/service/admin_auth.go:286-298 | a login inside a revoke-all leaves a session the next one does not find |
| AdminLogins.ComparesExactly | backend/internal/service/admin_auth.go:158-161 | a login goes on exactly with the password that is set, for an account that is not disabled |
| AdminLogins.LoginIsSpent | backend/internal/service/admin_auth.go:158-171 | a compared password opens one session, of its admin |
| AdminLogins.LastStepActs | backend/internal/service/admin_auth.go:158-171 | in every run a right password leaves a login pending until it opens its session or gives up, and a password change changes that password alone |
| AdminLogins.NothingEscapes | backend/internal/service/admin_auth.go:343-360 | with no login between comparing the old password and opening its session, no session opened for it is let in after the revoke-all that follows the change, whatever happens in between and after |
| AdminLogins.PendingLoginEscapes | backend/internal/service/admin_auth.go:158-163 | with one, it opens its session while the revoke-all holds its list, and is let in |
| AdminLogins.OldPasswordEscapesExactly | backend/internal/service/admin_auth.go:343-360 | after a password change a session opened for the old password is let in, in some run that does not set it back, if and only if such a login was pending when the revoke-all read the index |
| AdminSessions.AdminAuthService.constructor | backend/internal/service/admin_auth.go:101-114 | starts without sessions |
| AdminSessions.AdminAuthService.OpenSession | backend/internal/service/admin_auth.go:209-228 | stores the session and its index entry in one pipeline |
| AdminSessions.AdminAuthService.RevokeSession | backend/internal/service/admin_auth.go:276-283 | deletes the session and its index entry |
| AdminSessions.AdminAuthService.Check | backend/internal/service/admin_auth.go:230-269 | answers and slides, or revokes a session past its cap or of an inactive account |
| AdminSessions.AdminAuthService.RevokeAll | backend/internal/service/admin_auth.go:285-299 | undisturbed, ends every session of the admin |
| AdminSessions.AdminAuthService.SetDisabled | backend/internal/service/admin_auth.go:362-375 | sets the account's flag, and disabling leaves none of its sessions usable |
| Ledger.DoneExactly | backend/internal/repository/user.go:261-401 | each operation is done exactly if what it asks for is there: the user, the coins, an unused token, a new reward key, an unclaimed reward, an owned item |
| Ledger.CoinsAreConserved | backend/internal/repository/user.go:261-289 | in every run a balance is what it was plus the amounts of the done awards, adjustments, claims and credits, by their own arguments, minus what was spent and paid for power-ups |
| Ledger.RowsBackTheCoins | backend/internal/repository/user.go:380-401 | the coins of claimed rewards and redeemed tokens grow by exactly what done claims and credits move |
| Ledger.StepTouchesOnly | backend/internal/repository/user.go:261-401 | an operation touches its own user and its own tables only |
| Ledger.CreditPaysOnceExactly | backend/internal/repository/purchases.go:24-65 | a coin pack is credited exactly if its token is unused, the user exists and the sum fits: the balance rises by its coins, nobody else moves, the row names user and coins; each refusal has its reason |
| Ledger.PremiumMovesTheEnd | backend/internal/repository/purchases.go:67-105 | a delivery moves the user's end of premium, and the token's row, to the later of what it was and what was delivered, and nothing else |
| Ledger.AdminsMoveThePremium | backend/internal/repository/admin_users.go:423-450 | an extension adds its days of 24 hours to what is left of premium, or to now; a revocation ends it; nothing else moves |
| Ledger.CreateAddsOneExactly | backend/internal/repository/user.go:340-354 | a reward is added exactly if the user exists and has none of that kind and reference, unclaimed and worth its coins |
| Ledger.PricesAreListed | backend/internal/config/config.go:256-268 | the four power-ups and their prices |
| Ledger.RefusalsTellWhy | backend/internal/repository/user.go:272-289 | which refusal an award, a purchase, an adjustment, a claim and a use are answered with |
| Economy.RunsKeepInv | backend/internal/repository/user.go:261-289 | in every run balances stay between 0 and the column's range, and no token or reward key is duplicated |
| Economy.FailureChangesNothing | backend/internal/repository/purchases.go:24-105 | an operation that reports no success changed no table |
| Economy.RewardPaysAtMostOnce | backend/internal/repository/user.go:380-401 | in every run a reward is paid at most once |
| Economy.ClaimPaysTheOwner | backend/internal/repository/user.go:380-401 | a claim pays its owner exactly the reward's coins and nobody else anything |
| Economy.TokenStaysRedeemed | backend/internal/repository/purchases.go:24-66 | a redeemed token stays redeemed, by the same user |
| Economy.TokenPaysAtMostOnce | backend/internal/repository/purchases.go:24-66 | in every run a token credits coins at most once |
| Economy.PremiumOnlyMovesForward | backend/internal/repository/purchases.go:68-105 | in every run without a revoke the end of premium never moves back |
| Economy.PremiumUntilIsBounded | backend/internal/service/purchases.go:87-101 | a delivery is worth thirty days from the purchase, three days from now if that is later, and thirty days from now if the purchase claims to be in the future |
| Economy.UseItemPaysExactlyOnce | backend/internal/service/powerup.go:42-74 | a use takes one item or the price, never both, and nothing when it fails |
| CoinStore.Store.AwardCoins | backend/internal/repository/user.go:261-270 | adds to the balance; a missing user is no error |
| CoinStore.Store.SpendCoins | backend/internal/repository/user.go:272-289 | takes the amount exactly when the balance covers it |
| CoinStore.Store.CreateInboxReward | backend/internal/repository/user.go:340-354 | adds the reward once a user, kind and reference |
| CoinStore.Store.ClaimReward | backend/internal/repository/user.go:380-401 | marks and pays in one statement |
| CoinStore.Store.RedeemCoins | backend/internal/repository/purchases.go:24-66 | the token's row and the credit, or neither |
| CoinStore.Store.RedeemPremium | backend/internal/repository/purchases.go:68-105 | the token's row and the later of the two ends, unless another user owns the token |
| CoinStore.Store.Deliver | backend/internal/service/purchases.go:71-111 | coins once a token; premium at least the reverify window ahead |
| CoinStore.Store.TakeOne | backend/internal/repository/powerup.go:67-85 | takes one item exactly when there is one |
| CoinStore.Store.UsePowerup | backend/internal/service/powerup.go:42-74 | inventory first, coins second, and reports the coins that left the balance |
| CoinStore.Store.AdminAdjust | backend/internal/repository/admin_users.go:394-422 | moves the balance by the delta unless it would fall below zero |
| CoinStore.Store.AdminExtend | backend/internal/repository/admin_users.go:424-438 | adds days to the end of premium, or to now when it has lapsed |
| CoinStore.Store.AdminRevoke | backend/internal/repository/admin_users.go:440-450 | ends premium |
| DailyRetry.CountTellsTheRows | backend/internal/service/game.go:64-82 | the number of attempt rows tells which attempts exist |
| DailyRetry.LastStepActs | backend/internal/service/game.go:64-140 | in every run the last upload, retry or coin operation acts on what the ones before it left |
| DailyRetry.RetryAnswersExactly | backend/internal/service/daily.go:132-169 | a retry is paid exactly by a player with a first attempt, no second, no retry that day, and 25 coins; it takes 25 and marks the day; every other is told why and keeps what it had |
| DailyRetry.UploadAnswersExactly | backend/internal/service/game.go:88-140 | what an upload is answered and which attempt it stores, in every case |
| DailyRetry.RetryIsAllOrNothingExactly | backend/internal/service/daily.go:132-169 | a retry charges and records, or changes nothing, exactly unless its rollback fails where one is needed |
| DailyRetry.RunsKeepInv | backend/internal/service/daily.go:132-169 | the numbering and the charges hold in every run of uploads, retries and coin operations without a failed rollback |
| DailyRetry.AttemptsAreNumberedAndPaid | backend/internal/service/game.go:64-140 | in every such run attempts are numbered 1 to n, n at most 2, and the second was charged for exactly once |
| DailyRetry.FailedRollbackGivesAFreeAttempt | backend/internal/service/daily.go:155-165 | with a failed rollback the second attempt is free |
| DailyRetry.UploadStoresAtMostOnce | backend/internal/service/game.go:84-140 | in every run an upload stores at most one attempt, however often it is sent, and none once its match is there |
| DailyRetry.FailedInsertLosesTheAttempt | backend/internal/service/game.go:132-140 | an upload whose attempt row failed after its match was stored is answered as existing from then on, and no run ever stores its attempt |
| DailyRetry.RepeatStoresExactly | backend/internal/service/game.go:88-140 | sending an upload again after any run of others stores it exactly if it was neither stored nor found existing nor failed at its attempt row, its chain is good, and an attempt is left by then |
| DailyRetry.DailyService.constructor | backend/internal/service/daily.go:49-66 | starts without attempts |
| DailyRetry.DailyService.BuyRetry | backend/internal/service/daily.go:132-169 | records, charges, and takes the record back when the charge fails |
| DailyRetry.DailyService.SubmitDaily | backend/internal/service/game.go:88-140 | the daily path of an upload, with its outcomes in order, and what each of its three writes leaves behind when it fails |
| Payout.DuesAreDistinct | backend/internal/service/daily.go:252-261 | a board owes a player each kind of reward at most once |
| Payout.DuesAreTheCompetitionRanks | backend/internal/repository/daily.go:186-216 | every finisher is owed the completion reward, and a prize exactly when fewer than three did strictly better, ties sharing it |
| Payout.RunsStayBetween | backend/internal/service/daily.go:225-267 | after any runs with any faults the inbox holds only rows from before and rows owed, each announced at most as often as it was added, and exactly so if no announcement was lost |
| Payout.CleanRunPaysEverything | backend/internal/service/daily.go:225-267 | from any such state a run whose inserts succeed ends with exactly the rows owed |
| Payout.PayoutConverges | backend/internal/service/daily.go:225-267 | any runs with any faults, ended by one whose inserts succeed, leave the rows of a single clean run, each announced at most once, and exactly once if no announcement was lost |
| Payout.FailingRunPaysNothing | backend/internal/service/daily.go:225-267 | the last run pays on top of the ones before it, and a run whose inserts all fail pays nothing |
| PayoutRuns.EveryRunPaysOnce | backend/internal/service/daily.go:225-267 | in every interleaving of payout runs on any boards with claims, purchases, other rewards, faults and crashes, each player has at most one amount of each kind for the date, decided by the board whose insert went through first, owed on it, never changed, and announced at most once |
| PayoutRuns.CleanRunPaysExactly | backend/internal/service/daily.go:225-267 | when a run has ended whose inserts all went through, everyone its board owes has a row of each kind, and it pays what that board owes exactly if the board that paid it owed the same |
| PayoutRuns.CompletionIsAlwaysPaid | backend/internal/service/daily.go:252-255 | after such a run every finisher on its board has the completion reward |
| PayoutRuns.LastStepActs | backend/internal/service/daily.go:225-267 | in every run a payout starts only when none is at work, an insert adds the row it owes and announces it if it is the first and does not fail, a crash forgets what was left to pay, and a coin operation leaves the payout alone |
| PayoutRuns.GrowingBoardPaysTwoFirstPrizes | backend/internal/service/daily.go:252-261 | a board that grows between two runs pays two first prizes and no second |
| Payout.PayoutService.constructor | backend/internal/service/daily.go:49-66 | starts with nothing announced |
| Payout.PayoutService.AwardReward | backend/internal/service/daily.go:238-250 | creates the row if it is missing and announces it only then, unless the announcement is lost |
| Payout.PayoutService.PayRow | backend/internal/service/daily.go:252-261 | pays what one row of the board is owed |
| Payout.PayoutService.RunDailyPayout | backend/internal/service/daily.go:229-267 | pays the whole board and reports a failure exactly if one insert failed |
| DailyChain.TurnBoundIsTight | backend/internal/service/daily_chain.go:17-29 | a word's bound is the most its turn can score in the app, and is reached |
| DailyChain.ScoreAtHalfSeconds | backend/internal/engine/scorer.go:16-30 | ten a letter, two a second left, five a letter more after three words in a row, all twice for seven letters: exactly so at every half second |
| DailyChain.SlowerScoresNoMore | backend/internal/engine/scorer.go:19-22 | in between a slower turn never scores more |
| DailyChain.BoundOfOneWord | backend/internal/service/daily_chain.go:17-29 | a word's bound in numbers |
| DailyChain.BoundsAddUp | backend/internal/service/daily_chain.go:48-66 | a chain's bound is the sum of the bounds of its words |
| DailyChain.ValidateDailyChain | backend/internal/service/daily_chain.go:31-71 | accepts exactly the linked, duplicate-free chains of at most 200 valid words from the start letter with a score between 0 and the sum of the bounds; every refusal has its exact reason, and a word refused is the first that breaks a rule |
| DailyChain.PlayedChain | client/lib/features/game/bloc/game_bloc.dart:306-411 | a game played in the app keeps the app's rules, and its score is between 0 and the server's bound |
| DailyChain.TurnIsScoredExactly | client/lib/features/game/bloc/game_bloc.dart:306-411 | a turn adds an accepted word and its score, which counts the words since the last continue, or changes neither chain nor score |
| DailyChain.LinkLettersAgreeExactly | client/lib/features/game/bloc/game_bloc.dart:405-405 | app and server link on the same letter exactly unless the word ends in a ZWNJ |
| DailyChain.HonestPlayIsAcceptedExactly | client/lib/features/game/bloc/game_bloc.dart:306-411 | an honest upload passes the check exactly when it is within the cap and no word but the last ends in a ZWNJ |
| DailyChain.TrailingZwnjIsTurnedDown | client/lib/features/game/bloc/game_bloc.dart:311-314 | an honest upload with such a word is turned down |
| DailyChain.LongHonestPlayIsTurnedDown | backend/internal/service/daily_chain.go:40-42 | the app can play a chain over the cap |
| Streak.StreakIsTheBlock | backend/internal/service/streak.go:63-78 | after any uploads one after the other, in any order, last-played is the latest date, and the streak is the length of the unbroken block of counted dates ending there |
| Streak.LongestIsTheMaximum | backend/internal/repository/stats.go:100-117 | the longest streak is the maximum over all prefixes of the uploads |
| Streak.SortedUploadsAllCount | backend/internal/service/streak.go:63-78 | uploads in date order all count |
| Streak.StreakIsTheRunExactly | backend/internal/service/streak.go:63-78 | the streak is the run of days played up to the latest date exactly when no day of that run came in after a later date |
| Streak.LateUploadIsLost | backend/internal/service/streak.go:70-72 | three days in a row uploaded out of order count as one |
| Streak.MilestonesEarnTheLargest | backend/internal/service/streak.go:101-116 | a streak earns the largest of the prizes its divisors 30, 7 and 3 may earn, and none it may not |
| Streak.RewardsAreTheMilestones | backend/internal/service/streak.go:80-116 | over any history of uploads one after the other a reward exists exactly when some upload moved the streak to that milestone on that server date and its insert went through, worth what the milestone pays |
| Streak.SameDayMilestoneIsPaidOnce | backend/internal/service/streak.go:85-93 | two streaks reaching a milestone on one server date are paid once |
| Streak.StreakService.RecordGamePlayed | backend/internal/service/streak.go:30-61 | undisturbed, records the upload for its user and nobody else; a failing statement on the stats leaves everything as it was |
| StreakRuns.LongestNeverFalls | backend/internal/repository/stats.go:100-116 | in every interleaving of reads and writes of uploads the longest streak never falls and covers the current one |
| StreakRuns.LastStepActs | backend/internal/service/streak.go:36-57 | in every run only a write changes the stats, and a request is written or fails once |
| StreakRuns.WritesAsAloneExactly | backend/internal/service/streak.go:36-57 | a write comes out as if the upload had run alone exactly if the streak it computed is the one it would compute now, or its day was counted with that streak meanwhile |
| StreakRuns.StreakIsTheBlockInRuns | backend/internal/service/streak.go:30-61 | in every interleaving whose writes come out so, last-played is the latest date and the streak the unbroken block ending there |
| StreakRuns.OverlapMovesLastPlayedBack | backend/internal/service/streak.go:36-57 | two uploads read the same stats; the later date is written first, and last-played is the earlier one |
| Leaderboard.FilterInPlace | backend/internal/service/leaderboard.go:140-148 | the filter over the shared array keeps exactly the rows of players who are not banned, in order |
| Leaderboard.CleanKeepsExactly | backend/internal/service/leaderboard.go:140-148 | filtering loses and duplicates no row |
| Leaderboard.ReadMembers | backend/internal/service/leaderboard.go:122-151 | fetches with the margin, filters and cuts |
| Leaderboard.GetTopN | backend/internal/service/leaderboard.go:120-177 | the entries are those rows, ranked from 1 |
| Leaderboard.ReadIsAPrefix | backend/internal/service/leaderboard.go:122-151 | a read is always a prefix of the true ranking with the banned removed |
| Leaderboard.ReadIsCompleteExactly | backend/internal/service/leaderboard.go:19-21 | a read is the first n of the clean ranking exactly when at most 20 of the fetched rows are banned or nobody below is left to show |
| Leaderboard.TooManyBannedHideAPlayer | backend/internal/service/leaderboard.go:19-21 | with 21 banned players on top a board of one comes out empty |
| Leaderboard.LinesShowTheRanking | backend/internal/service/leaderboard.go:165-174 | the k-th line shown is the k-th player of the clean ranking with rank k + 1, score and name |
| Leaderboard.PlayerRankIsThePosition | backend/internal/service/leaderboard.go:179-194 | a player's rank is their position in the set, 0 when they are not in it |
| Leaderboard.OwnRankExceedsBoardRank | backend/internal/service/leaderboard.go:179-194 | a player's own rank exceeds the rank on the board by the number of banned players above |
| Levels.StepIsExact | backend/internal/config/config.go:270-281 | the step from a level to the next is exactly 1000 times the level, and the first is free |
| Levels.LevelIsMonotone | backend/internal/config/config.go:283-290 | a total has one level, and more XP never means a lower one |
| Levels.ProductFitsExactly | backend/internal/config/config.go:275-281 | the int64 product is right exactly up to level 96038388 and turns negative at the next |
| Levels.HalfOfTheProduct | backend/internal/config/config.go:275-281 | beyond that the result is half of the low 64 bits of the product, negative or not |
| Levels.LevelIsRightExactly | backend/internal/config/config.go:283-290 | where the loop stops it has found the level exactly when the total is below that level's XP |
| Levels.LoopNeverStops | backend/internal/config/config.go:283-290 | from 2^62 on the loop's condition never becomes false |
| Levels.LevelFromXP | backend/internal/config/config.go:283-290 | below that bound, 4·10^18 included, the loop ends with the level and no product wraps |

## Left out

- The WebSocket room (backend/internal/ws/room.go is not part of this model): live turns, continues, entry fees and the pot.
- HTTP handlers, the admin panel, push and SMS, receipts, passwords and tokens as cryptography: "receipt accepted" and fresh tokens are inputs.
- Overlapping applies: `Dictionary.Service.Apply` runs alone; what two writers at once do to the overlay is stated in `Overlay`, and the lock on the rows is not modelled.
- Matchmaking: the entry-fee check, the hub behind a room, and a push that Redis stores although it answers with an error. Entries carry the nanosecond they were made, and the model takes no two to be alike. There is one queue, as the source has one mode.
- Admin sessions: login throttling, the cached answer of Enabled, and the rounding of Redis expiries.
- AdminSessions.AdminAuthService.Check: the read of the key, the read of the account and the move of the expiry are one step.
- Analytics: the cleaning of properties and rate limits.
- AnalyticsStore.Store.InsertEvents: the user, platform and version columns of the install row, which keep the newest value given.
- AnalyticsStore.Store.RollupAnalyticsDay: the four statements are one function of the day's events; `Summaries.Summarise` is all their columns but the medians and the users, and the users are `Summaries.UserColumn`.
- Summaries.SummariseCountsEvents: likewise for the summary without medians and users.
- Ingest.ResendIsHarmlessExactly: the events of the batch carry identifiers of their own that the table has not seen, and the two server clocks differ.
- A redis flag that expires, as it does after three days: a pass is asked for on its own day. A flag that cannot be set ends the job like any failure.
- A second maintenance job: one server runs it, and starts none while one is at work. The job lists the partitions to drop once; the model looks again before each drop, and finds the same.
- Funnel.ShareOfAPart: percentages are reals, the source's are floats.
- DailyChain.TurnBoundIsTight: response times are reals, the source's and the app's are doubles.
- DailyChain.HonestPlayIsAcceptedExactly: the app and the server check against one dictionary; an app whose delta is behind can play a word the server does not know.
- Lookback.LookbackSuffices: stated for lookbacks up to 160 days, below the 168 days that six months of retention always leave.
- Lookback.LookbackIsExact: the direction that finds a lost event needs the window's oldest month present; the other direction, `Lookback.LookbackSuffices`, does not.
- RollupHistory.StoringIsSafeExactly: likewise for the direction that finds a lost event.
- Levels.LevelFromXP: totals from 4611685936800078000 on, where the loop runs past the level or never ends, are covered by the lemmas and not by the method.
- Streak.RewardsAreTheMilestones: stated for uploads one after the other; `StreakRuns` is about the stats, and a write gives the reward of the streak it computed.
- WordDesk.WordStore.ApproveSuggestion: reports have an order of creation, so two reports never share a timestamp.
- WordDesk.AdminWordService.SetWord: an unknown action is a type error of the model, where the source answers with one.
- WordServing.CommitIsYoungest: an upsert that takes its number from the sequence and then waits for the lock of its row.
- PayoutRuns.EveryRunPaysOnce: two payouts of one date at once; the scheduler runs them one after the other.
- Notes and reasons beyond whether they pass their check, reviewers, the audit log of a review, how the daily caps on reports are counted, and the tally of missed words.
- Leaderboard.GetTopN: avatars.
- The app's live word set after a reset keeps words of the dropped cache until the next start; the model follows the cache.
- The weekly reset and friends' and all-time boards: lists over the same reads.
- Dashboards, retention tables, forecasts and paging of lists.
