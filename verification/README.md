# Survey platform: a model in Dafny

The repository is a survey platform: people answer each other's surveys, collect
points on a weekly leaderboard and win weekly rewards; surveys are drafted (with an
assistant, FormMate), published, answered and evaluated.  This project models the parts
of it whose behaviour is more than a lookup, and proves what those parts are for.

| files | what they model |
|---|---|
| Calendar, KstDate, KstWeek | the calendar under `Date.UTC` (ECMA-262, section 21.4.1), Korean date strings, weekly buckets with an exception table |
| Ranking, Rewards, Lottery | competition ranking, tie groups, the Fisher-Yates draw, reward slots |
| Settlement, FrozenWeek, WeekRace | the five-step weekly settlement with several admins and stale reads; scores of a settled week, with whole and with overlapping requests |
| Ledger | sessions, answers, scores and the response counter under racing submits, saves and exclusions |
| DraftLock, FormMate, ChangeLog | the version lock on a survey row; the edit log with apply, revert and the stored normal form; the status of proposed changes under racing requests |
| Answers, Publish, Results, ResultMeaning, DailyTrend | the answer validators, the publish validator, the results computed from accepted answers, and what these say of the sessions |
| Teams, JoinRace, LeaderRace | team membership and what a withdrawal does to it; joins that race, and removals, changes of leader and disbandings that race |
| Cursor, Paging | the list cursor and following it |
| Retention | the daily purge and the re-registration check |
| Options, Survey | shared values: optional values, question types, trimming, sorting by order number |

A request is a read step followed by one atomic commit guarded as the `where` clause of
its update says, and invariants are proved over every interleaving (Settlement, Ledger,
DraftLock, ChangeLog).  Where the program checks a limit outside the commit, whole
requests are atomic (FrozenWeek, Teams, Retention); WeekRace, JoinRace and LeaderRace take
exclusions, submissions and the requests on a team apart and give the exact condition
under which a race does no harm.  Tables are maps or sequences in class fields; the unique
constraints of prisma/schema.prisma are part of the invariants.  The random source, the
clock, new ids and hashes are parameters.

## Where the code does less than it says

Each of these is proved; the model follows the code.

- `Date.UTC` reads the years 0 to 99 as 1900 to 1999, so date strings of these years are
  refused and their weeks are not the right ones (`Calendar.EarlyYearsAreMoved`,
  `KstWeek.PlainMondayIsMonday`); `addDaysToKstDateString` prints years before 1000
  without their zeros (`KstDate.AddDaysRoundTrip`, `KstDate.YearsLoseTheirZeros`).
- The comment on a draft's deadline (src/survey/dto/update-survey-draft.dto.ts:38-39) says
  that the date is checked to be real; only its pattern is.  A deadline is shown as it was
  set exactly when it is a valid date (`KstDate.DeadlineIsShownExactly`), and any other
  runs on to another day (`KstDate.ImpossibleDeadlineRunsOn`).
- A draft that an admin removes and restores is recruiting without a publication time,
  and only such a survey is (`DraftLock.UnpublishedWasRemovedAsDraft`).  These surveys
  come first in the list, and when they fill the first page the list ends there
  (`Paging.FollowingShowsAll`, `Paging.UndatedSurveyEndsTheList`).
- The version guard of `updateDraft` and `applyChanges` does not look at the status: a
  client can change a published survey exactly by sending a version later than the one it
  read (`DraftLock.GuessedVersionExactly`).
- `publish` is guarded by the status alone: it publishes what it checked exactly when no
  write landed in between (`DraftLock.PublishIsCleanExactly`).  `deleteDraft` and
  `moveToTeam` are not guarded at all: a published survey is safe from them exactly when
  none that saw the draft is under way (`DraftLock.PublishedIsKeptExactly`,
  `DraftLock.PublishedIsOwnedExactly`).
- `saveAnswers` checks the session outside its transaction: submitted answers stand
  exactly when no save of the session was under way (`Ledger.SubmittedAnswersStand`,
  `Ledger.SubmissionKeepsItsAnswers`).
- `assertWeekAdjustable` is checked outside the transaction, and `submit` takes its time
  stamp outside its own: the scores of a confirmed week stand exactly when no such request
  for the week was under way (`WeekRace.ConfirmedWeekIsFrozenExactly`).
- The ranking is computed anew for the last settlement step.  Without a change of scores
  or accounts every slot is filled (`Settlement.UnchangedRankingFillsEverySlot`); with one,
  exactly when as many lottery winners have left the contested group as there are fewer
  places (`Settlement.FinalCommitFillsExactly`), which a suspended winner upsets
  (`Settlement.SuspendedWinnerLeavesSlotEmpty`).
- An account that is both admin and staff can win but is not shown on the board
  (`Ranking.BoardMatchesEligibleRanking`, `Ranking.AdminOnStaffIsNotShown`).
- FormMate keeps a question as it was when the change was proposed, and nothing compares
  that with the question when the change is applied.  Apply and revert restore the survey
  exactly when the questions were not edited in between
  (`FormMate.ApplyThenRevertRestoresSurvey`); otherwise the edit is lost
  (`FormMate.StaleSnapshotLosesEdit`).
- `applyChanges` checks the status of a change outside its transaction.  The version guard
  makes up for it for clients that send versions they have seen
  (`ChangeLog.EachChangeIsAppliedOnce`), and exactly for them
  (`ChangeLog.GuessedVersionWritesAgainExactly`).
- A question whose text was blank cannot be put back by a revert
  (`FormMate.RevertibleExactlyWhenNotBlank`).
- A single choice with a blank option id passes as unanswered but is counted as an
  answer (`Results.SingleChoiceConserves`, `Results.BlankChoiceIsCountedNowhere`).
- Publishing does not check minScale and maxScale; only because the editor always writes
  1 and 5 can every published survey be answered (`Publish.PublishableCanBeAnswered`,
  `Publish.SavedSurveyCanBeAnswered`).
- Joining counts members and teams before it inserts: the limits hold over racing joins
  exactly when those about to join still fit (`JoinRace.MemberLimitKeptExactly`,
  `JoinRace.TeamLimitKeptExactly`).
- Removing members, changing the leader and disbanding check before they write as well: the
  leader is a member exactly when whoever leads or is about to lead is a member and not
  about to leave (`LeaderRace.LeaderStaysExactly`), and a disbanded team is empty exactly
  when nobody was about to join it (`LeaderRace.DisbandedStaysEmptyExactly`).

## Model

| member | source | states |
|---|---|---|
| `Calendar.UtcRoundTripIsRealDate` | src/common/utils/kst-date.util.ts:15-21 | the three getter comparisons of isValidKstDateString succeed if and only if the numbers name a real date outside the years 0 to 99 |
| `Calendar.MakeDayOfFromDay` | src/common/utils/kst-date.util.ts:52-56 | reading year, month and day off any day number and making the day again gives the number back (ECMA-262, section 21.4.1) |
| `Calendar.FromDayOfMakeDay` | src/common/utils/kst-date.util.ts:16-20 | every real date is read back from the day it makes |
| `Calendar.DayOrderIsDateOrder` | src/common/utils/kst-date.util.ts:32-35 | day numbers of real dates are ordered exactly as the dates are |
| `Calendar.EarlyYearsAreMoved` | src/common/utils/kst-date.util.ts:16-20 | a real date of the years 0 to 99 never survives Date.UTC and the getters |
| `KstDate.ValidityIsRealDate` | src/common/utils/kst-date.util.ts:11-22 | a string is accepted if and only if it has the date form and spells a real date after the year 99 |
| `KstDate.PartsOfIsoDate` | src/common/utils/kst-date.util.ts:38-40 | the text written for a real date of a four-digit year has the date form and is read back as that date |
| `KstDate.IsoDateOfParts` | src/common/utils/kst-date.util.ts:15-15 | a date string of a real date is what its numbers print |
| `KstDate.DateOfInstant` | src/common/utils/kst-date.util.ts:38-40 | an instant is shown as date `s` if and only if it lies between the start and the end of that Korean day |
| `KstDate.DayBounds` | src/common/utils/kst-date.util.ts:26-30 | start and end of a day both show its date, and the next day starts one millisecond after the end |
| `KstDate.KoreanMidnight` | src/common/utils/kst-date.util.ts:26-35 | a Korean day begins nine hours before the day in UTC and lasts 24 hours |
| `KstDate.LongYearText` | src/common/utils/kst-date.util.ts:38-40 | outside the years 0 to 9999 the first ten characters are a sign, the year in six digits and the month |
| `KstDate.AddDaysShifts` | src/common/utils/kst-date.util.ts:50-57 | adding days gives a valid date string if and only if the shifted day has a four-digit year, and then it is the date that many days away |
| `KstDate.AddDaysRoundTrip` | src/common/utils/kst-date.util.ts:50-57 | adding n and then -n days gives the date back if and only if its year is at least 1000, as long as both results are dates |
| `KstDate.YearsLoseTheirZeros` | src/common/utils/kst-date.util.ts:50-57 | one day added to 31 December 999 and taken away again does not give the date back |
| `KstDate.StringOrderIsDateOrder` | src/common/utils/kst-date.util.ts:33-35 | string order on date strings is calendar order |
| `KstDate.DeadlineIsShownExactly` | src/survey/survey.service.ts:118-123 | for every string of the date form: the stored deadline is shown as that string if and only if it is a valid date |
| `KstDate.DeadlineChecksAgree` | src/response/response.service.ts:316-321 | for every string of the date form: up to the year 9999 a response passes the deadline check if and only if its Korean date is not after the date the deadline is shown as; publishing draws the same line if and only if the deadline's year is at most 9999 |
| `KstDate.ImpossibleDeadlineRunsOn` | src/survey/dto/update-survey-draft.dto.ts:38-45 | 31 February 2026 has the form a deadline is checked for and is no date; it is shown as 3 March and takes responses until that day is over |
| `KstWeek.PlainMondayIsMonday` | src/common/utils/kst-date.util.ts:76-84 | plainKstMonday is the Monday on or before the instant if and only if the instant lies outside the years 0 to 99 |
| `KstWeek.WeekStartMeaning` | src/common/utils/kst-date.util.ts:90-99 | the key of an instant is the Monday of its week, or the next Monday when that week's extension reaches back to the instant |
| `KstWeek.WeekRangesPartitionTime` | src/common/utils/kst-date.util.ts:90-119 | for any table of distinct Monday keys with 0 to 6 extra days: an instant lies in the range of a key if and only if the key is the one it is counted under |
| `KstWeek.WeekRangesAbut` | src/common/utils/kst-date.util.ts:114-119 | ranges are never empty and each begins where the previous one ends |
| `KstWeek.WeekStartIsMonotone` | src/common/utils/kst-date.util.ts:90-99 | a later instant is never counted under an earlier key |
| `KstWeek.WeekStartIsIdempotent` | src/common/utils/kst-date.util.ts:90-99 | a key is counted under itself |
| `KstWeek.WeekStartIsMondayKey` | src/common/utils/kst-date.util.ts:90-99 | every key is a Monday at 00:00 Korean time |
| `KstWeek.ShippedTableIsGood` | src/common/utils/kst-date.util.ts:72-74 | the shipped exception table satisfies what the other lemmas ask of a table |
| `KstWeek.WeekLengths` | src/common/utils/kst-date.util.ts:67-74 | every week starts at its key and lasts seven days, apart from the one of 5 October 2026, which starts a day early and lasts eight, and the one before it, which lasts six |
| `KstWeek.ExtendedWeekHasEightDays` | src/common/utils/kst-date.util.ts:67-74 | an instant is counted in the week of 5 October 2026 if and only if it lies between the start of 4 October and the end of 11 October |
| `KstWeek.WeekNameRoundTrip` | src/admin/admin-ranking.util.ts:102-109 | the name of a week parses back to the key of that week, extended weeks included |
| `Lottery.PickLotteryWinners` | src/admin/admin-ranking.util.ts:74-85 | the in-place loop computes the first `count` entries of the shuffle its random choices describe |
| `Lottery.ShuffleIsBijective` | src/admin/admin-ranking.util.ts:79-83 | on distinct members the shuffle maps choice vectors one-to-one onto the orders of the group, so every order comes from exactly one vector |
| `Lottery.ChoicesReach` | src/admin/admin-ranking.util.ts:80-83 | every reordering is produced by its choice vector |
| `Lottery.ChoicesAreUnique` | src/admin/admin-ranking.util.ts:80-83 | no other choice vector produces it |
| `Lottery.WinnersAreDistinctMembers` | src/admin/admin-ranking.util.ts:84-84 | the winners are min(count, n) distinct members of the group |
| `Lottery.LotteryIsFair` | src/admin/admin-ranking.util.ts:72-85 | any two members win under equally many choice vectors: exchanging them pairs the vectors off, whatever the number of winners |
| `Ranking.RankSorted` | src/admin/admin-ranking.util.ts:30-38 | the pass with rank and prevPoints gives each row of an ordered list one more than the number of rows with strictly more points |
| `Ranking.RankRows` | src/admin/admin-ranking.util.ts:24-39 | the rows come out by points from the most down, and with as many points by the time of the last award from the earliest on |
| `Ranking.RankMeaning` | src/admin/admin-ranking.util.ts:22-39 | every row appears once, with one more than the number of rows that have strictly more points; more points come first, and as many in the order they were reached |
| `Ranking.TiesKeepTheirOrder` | src/admin/admin-ranking.util.ts:25-29 | rows that agree in points and time keep the order in which they came |
| `Ranking.WeeklyRanking` | src/admin/admin-rewards.service.ts:136-155 | the loop over the grouped scores keeps the groups of known users with points, and ranks them |
| `Ranking.PublicBoard` | src/leaderboard/leaderboard.service.ts:154-194 | the board filters, sorts, cuts and then ranks: at most 50 rows, in order of points and then of time |
| `Ranking.BoardMeaning` | src/leaderboard/leaderboard.service.ts:154-194 | each row shown is the points of an active account outside the staff; whoever of these is missing has no more points than anybody on a full board, nor as many reached earlier |
| `Ranking.VisibleRowsArePublic` | src/leaderboard/leaderboard.service.ts:162-176 | the rows it keeps are the public ones among the rows of the admin ranking |
| `Ranking.CutKeepsRanks` | src/leaderboard/leaderboard.service.ts:183-194 | ranking after the cut gives the rows that are left the ranks they have in the whole list |
| `Ranking.BoardMatchesEligibleRanking` | src/leaderboard/leaderboard.service.ts:165-194 | the public board equals the first rows of the eligible ranking if and only if none of these rows belongs to an account that is both admin and staff |
| `Ranking.AdminOnStaffIsNotShown` | src/leaderboard/leaderboard.service.ts:165-194 | one active account that is admin and staff: the admins' eligible ranking holds it, the board is empty |
| `Ranking.SubmissionRankIsBoardRank` | src/response/response.service.ts:270-287 | the rank shown after a submission is the user's rank in the admin ranking of the same groups |
| `Ranking.RankIsShownExactly` | src/response/response.service.ts:277-282 | a rank is shown if and only if the user has points in the week |
| `Ranking.FilterOfSort` | src/admin/admin-rewards.service.ts:158-166 | dropping rows before or after the stable sort leaves the same list |
| `Rewards.GroupTies` | src/admin/admin-ranking.util.ts:48-56 | the loop splits the ranking into its maximal runs of equal rank |
| `Rewards.ResolveRewardWinners` | src/admin/admin-ranking.util.ts:44-70 | whole tie groups are cleared from the top while they fit; the first that does not fit is contested for the places left |
| `Rewards.ResolutionIsUnique` | src/admin/admin-ranking.util.ts:44-70 | no other split of a ranking meets that description |
| `Rewards.RankIsPosition` | src/admin/admin-ranking.util.ts:30-38 | the rank of a tie group is the position it begins at |
| `Rewards.TopRanksAreClearOrContested` | src/admin/admin-ranking.util.ts:44-70 | the cleared and contested rows are exactly the rows whose rank is within the limit |
| `Rewards.ClearedAndContestedExactly` | src/admin/admin-ranking.util.ts:44-70 | by points alone: a row is cleared if and only if the rows with at least as many points fit the places, and contested if and only if those with more leave places but those with at least as many do not fit |
| `Rewards.SettlementOrder` | src/admin/admin-ranking.util.ts:89-99 | whatever winner list is on record: slots run from 1 without gaps, more points first and as many in the order they were reached, and nobody outside has strictly more points than a winner |
| `Rewards.FullExactlyWhenDrawFits` | src/admin/admin-ranking.util.ts:89-99 | all min(limit, n) slots are filled if and only if as many recorded winners are still contestants as there are places left, that is, if as many have departed as there are fewer places than winners |
| `Rewards.SettlementIsFull` | src/admin/admin-ranking.util.ts:24-99 | rank, resolve, draw and assign together give exactly min(limit, n) winners |
| `Rewards.EligibleRankingIsRanking` | src/admin/admin-rewards.service.ts:136-168 | the eligible ranking of a week's groups lists no user twice, in board order, with competition ranks |
| `Rewards.EveryRankingIsRead` | src/admin/admin-rewards.service.ts:136-168 | every such list of eligible accounts with points is the eligible ranking of some groups and accounts |
| `Settlement.WeekTables.Advance` | src/admin/admin-rewards.service.ts:318-419 | the transaction of advance, write by write with its rollbacks, computes the state change of the model and commits under exactly the stated condition |
| `Settlement.WeekTables.CreateRewards` | src/admin/admin-rewards.service.ts:397-410 | the batch insert skips a slot or user that already has a row |
| `Settlement.InsertRewardsMeaning` | src/admin/admin-rewards.service.ts:391-409 | rows that are there stay, new ones are as given and unsent, no user gets a second row, and a row is left out only for a slot or a user that has one |
| `Settlement.WeekTables.MarkSent` | src/admin/admin-rewards.service.ts:461-487 | the guarded update writes the given record if and only if there is none, and changes nothing else |
| `Settlement.SentRecordStands` | src/admin/admin-rewards.service.ts:461-487 | the record a request gives is the one stored, and it stays over every later run |
| `Settlement.UndisturbedSend` | src/admin/admin-rewards.service.ts:461-487 | recording a sending with nothing in between is its transaction once the week is at its last step and the slot has a row, and nothing before |
| `Settlement.PresentReadsGoThrough` | src/admin/admin-rewards.service.ts:318-409 | a request that read the rows as they are takes the week one step on if and only if there are participants, a step is left and, before the last, a lottery where somebody is contested; otherwise it changes nothing |
| `Settlement.StepKeepsInvariant` | src/admin/admin-rewards.service.ts:318-487 | with several admins and stale reads: the step moves by at most one, a lottery is written only by the commit from 3 to 4, rewards only by the commit from 4 to 5 |
| `Settlement.ComputedRankingIsAdmissible` | src/admin/admin-rewards.service.ts:136-168 | the rankings the runs let scores change to include every eligible ranking computed from a week's groups and accounts |
| `Settlement.RunKeepsInvariant` | src/admin/admin-rewards.service.ts:318-487 | this holds over every run, and the step never goes down or beyond 5 |
| `Settlement.StepCountsAdvances` | src/admin/admin-rewards.service.ts:346-356 | the step is one more than the number of committed advances, so none is skipped or repeated |
| `Settlement.DecisionsStand` | src/admin/admin-rewards.service.ts:318-487 | over every run a lottery and a reward row, once written, stay as they are, sent records included |
| `Settlement.EachSlotIsSentOnce` | src/admin/admin-rewards.service.ts:461-487 | over every run as many sends commit as slots become sent |
| `Settlement.LotteryOnRecordIsFair` | src/admin/admin-rewards.service.ts:356-376 | over every run the lottery on record is a draw among the contested group of a ranking: its distinct winners are as many as the places that ranking left |
| `Settlement.LotteryChanges` | src/admin/admin-rewards.service.ts:356-376 | a lottery is only ever written by a commit, as such a draw from the ranking that commit had read |
| `Settlement.FinalCommitWritesSettlement` | src/admin/admin-rewards.service.ts:391-410 | the commit from 4 to 5 writes one row per slot of its settlement, from slot 1 without gaps and without skipped duplicates |
| `Settlement.FinalCommitFillsExactly` | src/admin/admin-rewards.service.ts:329-410 | that commit fills exactly the slots 1 to min(3, n) if and only if nobody is contested or as many winners on record have left the contested group as there are now fewer places than winners |
| `Settlement.UnchangedRankingFillsEverySlot` | src/admin/admin-rewards.service.ts:318-419 | over every run from the start in which scores and accounts do not change, the rewards of a week at step 5 fill exactly the slots 1 to min(3, n) |
| `Settlement.SuspendedWinnerLeavesSlotEmpty` | src/admin/admin-rewards.service.ts:329-410 | a run from the start: five users tie, the lottery draws three, one of them is suspended, and the last commit rewards two of the four who are left |
| `Ledger.Tables.Submit` | src/response/response.service.ts:187-243 | a submit that commits leaves the session submitted at its time with exactly the answers sent, one more response and a score of one point for the user in the week of that time; one that loses the race changes nothing, and no other session's answers ever change |
| `Ledger.Tables.ReplaceAnswers` | src/response/response.service.ts:205-227 | deleting the answers that are not in the snapshot and upserting the others leaves exactly the snapshot |
| `Ledger.Tables.SaveAnswers` | src/response/response.service.ts:130-145 | the autosave transaction leaves exactly the sent answers, and every other session's as they were |
| `Ledger.Tables.Exclude` | src/admin/admin-surveys.service.ts:297-320 | an exclusion that commits marks the session, revokes its score if that was not done before and lowers the counter by one; otherwise nothing changes, and answers never do |
| `Ledger.StartIsUnique` | src/response/response.service.ts:75-100 | starting a session keeps one session per survey and user |
| `Ledger.StartStores` | src/response/response.service.ts:64-100 | a session in progress is stored if and only if the survey is there and its user has none for it, and nothing else is touched |
| `Ledger.WholeRequests` | src/response/response.service.ts:64-100 | a survey starts with no response, and a session starts whole |
| `Ledger.UndisturbedSubmit` | src/response/response.service.ts:153-243 | a submit with nothing in between is its transaction if the session is the user's and open, and nothing otherwise |
| `Ledger.UndisturbedExclude` | src/admin/admin-surveys.service.ts:277-320 | an exclusion with nothing in between is its transaction if the session is submitted and not excluded, and nothing otherwise |
| `Ledger.UndisturbedSave` | src/response/response.service.ts:102-148 | an autosave with nothing in between is its transaction if the session is open, and nothing otherwise |
| `Ledger.StepKeepsInvariant` | src/response/response.service.ts:153-262 | every step of every request keeps counter, sessions and scores in agreement |
| `Ledger.LedgerStaysBalanced` | src/response/response.service.ts:153-262 | over every interleaving: responseCount is the number of submitted, not excluded sessions; each submitted session has one 1-point score under the week of its submission; a score is revoked if and only if its session is excluded |
| `Ledger.PointsMatchResponses` | src/response/response.service.ts:204-262 | from the first survey on, over every interleaving: the books balance, and the points that are not revoked are as many as the response counts of all surveys together |
| `Ledger.EachSessionIsSubmittedOnce` | src/response/response.service.ts:187-200 | over every run as many submits commit as sessions become submitted |
| `Ledger.LosingSubmitChangesNothing` | src/response/response.service.ts:246-262 | a submit that loses the race changes nothing and reports the points of the winner |
| `Ledger.SubmittedAnswersStand` | src/response/response.service.ts:102-148 | the answers of a submitted session stay as they are over every run if and only if no save that read the session before is still under way |
| `Ledger.AnswersAreLastWritten` | src/response/response.service.ts:102-227 | over every run a session holds the answers of the last submit or save of it that committed |
| `Ledger.LateWritesAreSaves` | src/response/response.service.ts:102-148 | after a submission only saves that read the session before it write its answers |
| `Ledger.SubmissionKeepsItsAnswers` | src/response/response.service.ts:187-227 | a submit that commits leaves the session submitted with the answers it sent; they stay over every run if and only if no save that read the session before is under way, and otherwise until the last such save that commits |
| `Ledger.SubmittedStep` | src/response/response.service.ts:102-148 | no event but the commit of such a save changes submitted answers, and no new one gets under way |
| `Ledger.RacingSaveReplacesSubmittedAnswers` | src/response/response.service.ts:108-145 | a save reads, the session is submitted, and the save replaces the submitted answers, because saveAnswers checks the session outside its transaction |
| `FrozenWeek.EndedWeekGetsNoScore` | src/response/response.service.ts:184-185 | no submission from now on is counted in a week that has ended |
| `FrozenWeek.ExcludeExactly` | src/admin/admin-rewards.service.ts:193-202 | an exclusion goes through if and only if the session is submitted, not excluded, and the week of its score is at step 1 or 2 |
| `FrozenWeek.AdvanceExactly` | src/admin/admin-rewards.service.ts:318-345 | a week is advanced if and only if its name is a date, its range has passed and a step is left |
| `FrozenWeek.WholeRequests` | src/response/response.service.ts:184-202 | the other whole requests: a week starts at step 1, the clock moves forward, a submission carries the present time |
| `FrozenWeek.RunInTurn` | src/admin/admin-rewards.service.ts:318-345 | a run takes its requests one after the other |
| `FrozenWeek.ConfirmedWeekKeepsScores` | src/admin/admin-rewards.service.ts:193-202 | one request leaves the scores of a week at step 3 or later as they are |
| `FrozenWeek.ConfirmedWeekIsFrozen` | src/admin/admin-surveys.service.ts:276-320 | over every run of whole requests on a clock that does not go back, once a week is at step 3 none of its scores changes |
| `WeekRace.ConfirmedWeekIsFrozenExactly` | src/admin/admin-surveys.service.ts:285-320 | with overlapping requests: once a week is at step 3 its scores stay over every run if and only if no submission stamped in it and no exclusion of one of its scores is under way |
| `WeekRace.ScoresStep` | src/admin/admin-surveys.service.ts:285-320 | without such a request no event changes a score of the week |
| `WeekRace.NothingComesLate` | src/response/response.service.ts:184-200 | and no new one gets under way |
| `WeekRace.UndisturbedIsWhole` | src/admin/admin-surveys.service.ts:277-320 | a submission or exclusion that nothing comes between is the whole one |
| `WeekRace.RacingExclusionChangesConfirmedWeek` | src/admin/admin-surveys.service.ts:285-297 | an exclusion is checked at step 2, the week moves to step 3, and the exclusion revokes one of its scores |
| `DraftLock.SurveyRow.CommitEdit` | src/survey/survey.service.ts:129-150 | the guarded update of updateDraft and applyChanges, with its rollback, replaces the questions if and only if the version is the one sent and the new list is accepted |
| `DraftLock.SurveyRow.CommitPublish` | src/survey/survey.service.ts:222-229 | publishing is guarded by the status alone |
| `DraftLock.SurveyRow.CommitMoveToTeam` | src/survey/survey.service.ts:377-384 | moving a draft to a team is not guarded and moves the version on |
| `DraftLock.SurveyRow.CloseSurvey` | src/mypage/mypage.service.ts:161-169 | closing changes a recruiting survey only |
| `DraftLock.SurveyRow.ArchiveSurvey` | src/mypage/mypage.service.ts:195-203 | archiving and its inverse change closed and archived surveys only |
| `DraftLock.EveryWriteBumps` | src/survey/survey.service.ts:101-257 | every write to the modelled columns, by any request, moves the version on by one |
| `DraftLock.RunKeepsInvariant` | src/survey/survey.service.ts:101-257 | over every interleaving a waiting request has read the present row or an older version of it |
| `DraftLock.NoLostUpdate` | src/survey/formmate/formmate.service.ts:271-282 | a committed edit was computed from exactly the row it overwrites, which was a draft |
| `DraftLock.EditWritesExactly` | src/survey/survey.service.ts:106-150 | a finishing edit writes if and only if the version is the one sent and its questions are accepted: the new title or else the old one, these questions, one version more, and status, owner and publication time as they were |
| `DraftLock.RetitleWritesExactly` | src/survey/formmate/formmate.service.ts:196-212 | a title from FormMate is stored if and only if the version is the one read, and nothing else changes |
| `DraftLock.StatusRequestsWrite` | src/survey/survey.service.ts:222-229 | what publishing, moving, deleting, removing and restoring leave of every column; a restored survey is closed if its deadline has passed and recruits otherwise |
| `DraftLock.ReadsAreAdmitted` | src/survey/survey.service.ts:106-112 | a request gets under way if and only if it reads the present row as a draft, or, for an admin's removal and restore, as not removed and as removed |
| `DraftLock.UpdatesLeaveStatus` | src/mypage/mypage.service.ts:161-203 | the status each direct update leaves: closing, archiving, disbanding, withdrawing |
| `DraftLock.WithdrawalClosesSurveys` | src/user/user.service.ts:417-437 | a user who withdraws is left with no recruiting survey and no draft |
| `DraftLock.PublishedQuestionsAreFrozen` | src/survey/survey.service.ts:106-150 | over every interleaving with publish, move, disband, withdraw, close, archive, remove and restore, a survey that has left DRAFT never returns to it and neither its title nor its questions change, if clients send versions they have read |
| `DraftLock.GuessedVersionExactly` | src/survey/survey.service.ts:129-133 | an edit can land on a survey that has left DRAFT if and only if its client sent a version later than the one it read |
| `DraftLock.PublishesWhatItValidated` | src/survey/survey.service.ts:197-229 | a publish that goes through makes public exactly what it validated if and only if the row still has the version it read |
| `DraftLock.VersionCountsWrites` | src/survey/survey.service.ts:101-257 | over every run the version grows by the number of writes |
| `DraftLock.PublishIsCleanExactly` | src/survey/survey.service.ts:197-229 | from reading to finishing, a publish goes through with what it validated if and only if no write landed in between |
| `DraftLock.RacingEditIsPublishedUnchecked` | src/survey/survey.service.ts:197-229 | an edit that commits between the check and the update is published unchecked |
| `DraftLock.StatusFollowsLifecycle` | src/survey/survey.service.ts:101-257 | whatever a request does, even with a guessed version, the status moves along its life cycle, never back to DRAFT, and only publishing a draft sets a publication time |
| `DraftLock.PublicationTimeStands` | src/survey/survey.service.ts:222-229 | once a survey is out of DRAFT no run changes its publication time, which the list is ordered by |
| `DraftLock.RestoredDraftHasNoPublicationTime` | src/admin/admin-surveys.service.ts:219-262 | a restored survey recruits without a publication time if and only if the removed row had none and its deadline has not passed |
| `DraftLock.UnpublishedWasRemovedAsDraft` | src/admin/admin-surveys.service.ts:162-262 | over every run from a draft, a survey out of DRAFT has no publication time if and only if it was removed as a draft |
| `DraftLock.OutsideDraftStep` | src/survey/survey.service.ts:174-195 | a survey outside DRAFT is deleted, or changes hands, if and only if a deletion or move that saw it as a draft finishes |
| `DraftLock.PublishedIsKeptExactly` | src/survey/survey.service.ts:174-195 | over every run it is never deleted if and only if no such deletion is under way |
| `DraftLock.PublishedIsOwnedExactly` | src/survey/survey.service.ts:362-388 | over every run it keeps its owner if and only if no such move to another team is under way |
| `DraftLock.RacingDeleteTakesPublished` | src/survey/survey.service.ts:174-195 | a deletion that read the draft before it was published deletes the published survey |
| `FormMate.QuestionTable.ReplaceSurveyQuestions` | src/survey/survey.service.ts:547-612 | an unknown id is reported before anything is deleted, a key that comes twice violates its constraint and rolls back; otherwise, and only then, the table holds the new questions, numbered from 1 |
| `FormMate.SavedQuestion` | src/survey/survey.service.ts:566-601 | every column of a saved question: number, key, type, text, required unless said otherwise, selection bounds for multiple choice only, 1 to 5 and both labels for scales only |
| `FormMate.SavedOptions` | src/survey/survey.service.ts:602-612 | single and multiple choice questions keep the text of every option in order, only single choice an "other" option, and the remaining types have none |
| `FormMate.LoadedQuestion` | src/survey/formmate/formmate.service.ts:53-69 | every field of what is read back of a saved question, whatever order the rows come in |
| `FormMate.UnchangedExactlyWhenComplete` | src/survey/formmate/formmate.service.ts:53-69 | a draft comes back unchanged if and only if it has an id, says whether it is required, and has the fields of its type and no others |
| `FormMate.LoadOfStore` | src/survey/formmate/formmate.service.ts:53-69 | loading what was stored gives the saved drafts in their order, whatever order the rows come back in |
| `FormMate.StoreOfLoad` | src/survey/survey.service.ts:547-612 | storing what was loaded from stored questions writes the same questions back |
| `FormMate.NormalizeIsIdempotent` | src/survey/survey.service.ts:547-612 | saving and reloading twice is the same as once |
| `FormMate.CheckBatch` | src/survey/formmate/formmate.service.ts:255-265 | a batch is turned down if and only if one of its changes cannot be merged |
| `FormMate.MergeableExactly` | src/survey/formmate/formmate-change.validator.ts:24-74 | a change can be merged if and only if it has a target, unless it adds a question, and content of a creatable type with a text that is not only spaces, and options where the type has them, unless it drops one |
| `FormMate.MergeMeaning` | src/survey/formmate/formmate.service.ts:397-452 | an added or restored question comes last, a dropped one goes, an updated one stays in its place, each with the content's fields under the target's id |
| `FormMate.AppliedChangeRecordsKey` | src/survey/formmate/formmate.service.ts:322-346 | the key of an added question is recorded in both columns of its change, and nothing else changes |
| `FormMate.ApplyBatch` | src/survey/formmate/formmate.service.ts:280-313 | the loop applies the changes in turn, collects the ids that may be stored and records the key of every added question |
| `FormMate.BatchIsAccepted` | src/survey/formmate/formmate.service.ts:280-319 | a batch with distinct targets leaves distinct ids that replaceSurveyQuestions knows |
| `FormMate.BatchIsStored` | src/survey/formmate/formmate.service.ts:280-319 | so what a batch makes of the questions is stored, with distinct keys |
| `FormMate.LookupOfOps` | src/survey/formmate/formmate.service.ts:397-452 | changes with distinct keys act on their own question only, each as if alone |
| `FormMate.OtherKeysAreKept` | src/survey/formmate/formmate.service.ts:397-452 | a question no change is about holds what it held after apply and revert |
| `FormMate.RevertedKeyHoldsSnapshot` | src/survey/formmate/formmate.service.ts:280-319 | apply, save, reload, revert, save and reload leaves every reverted key with the snapshot of its change, however old; only an update of a question that is gone puts nothing back |
| `FormMate.RevertUndoesApply` | src/survey/formmate/formmate.service.ts:280-319 | this restores every question under its key, in whatever order the changes are reverted, if and only if every undo puts back what was stored before the batch |
| `FormMate.UndeletedQuestionsKeepOrder` | src/survey/formmate/formmate.service.ts:397-452 | the questions neither added nor deleted keep their order |
| `FormMate.StayingPairsKeepOrder` | src/survey/formmate/formmate.service.ts:397-452 | no two questions that stay are exchanged by apply and revert |
| `FormMate.RevertibleExactlyWhenNotBlank` | src/survey/formmate/formmate.service.ts:372-395 | an applied change can be reverted if and only if it added a question or the text it overwrote was not blank |
| `FormMate.ApplyThenRevertRestoresSurvey` | src/survey/formmate/formmate.service.ts:231-370 | the whole round trip on stored rows restores every question under its key if and only if every question changed was still as it was when its change was proposed; the questions that stayed keep their order in any case |
| `FormMate.BothBatchesAreStored` | src/survey/formmate/formmate.service.ts:280-346 | both times the resulting questions have ids replaceSurveyQuestions knows and distinct keys, and the applied changes can be reverted in any order |
| `FormMate.StaleSnapshotLosesEdit` | src/survey/formmate/formmate.service.ts:150-170 | a question edited between proposal and apply: the change is applied and reverted, and the text before the edit is back |
| `ChangeLog.StepMovesChange` | src/survey/formmate/formmate.service.ts:244-279 | while clients send versions they have seen, a commit finds each change it applies pending and each change it reverts applied, and nothing else changes a status |
| `ChangeLog.EventsWrite` | src/survey/formmate/formmate.service.ts:231-346 | a request notes the version it reads, goes on if its changes are there and fit, and at its end marks them and raises the version exactly if that is the one it sent and its questions can be stored |
| `ChangeLog.EachChangeIsAppliedOnce` | src/survey/formmate/formmate.service.ts:244-346 | over every interleaving of reads, checks, commits, proposals and other writes by such clients, a change is applied as often as its status says, so once at most, and likewise reverted |
| `ChangeLog.GuessedVersionWritesAgainExactly` | src/survey/formmate/formmate.service.ts:272-279 | a request whose check has just passed can come to write a change whose status has moved on if and only if it sent a version later than the present one |
| `ChangeLog.GuessingClientAppliesTwice` | src/survey/formmate/formmate.service.ts:244-346 | two clients check one pending change at the same time, and the one that sent the next version applies it a second time |
| `Answers.ValidateSubmittedAnswers` | src/response/response-answer.validator.ts:140-167 | the two loops report exactly the listed violations, in order, and none if and only if the submission may be stored |
| `Answers.ValidateAnswerValues` | src/response/response-answer.validator.ts:174-190 | the loop over the answers reports none if and only if every answer to a known question is blank or valid |
| `Answers.SubmittedErrorsMeaning` | src/response/response-answer.validator.ts:140-167 | no errors if and only if only known questions are answered, every answer is blank or a valid value of its question, and no required one is blank |
| `Answers.AnswerValueMeaning` | src/response/response-answer.validator.ts:40-132 | the check of one value passes if and only if the value is one the question can store, said without the check |
| `Answers.BlankAnswerMeaning` | src/response/response-answer.validator.ts:19-38 | an answer counts as blank if and only if it is missing, null, not of the kind the question takes, empty or only spaces |
| `Answers.ValueErrorsAreReported` | src/response/response-answer.validator.ts:40-135 | the errors reported for a value are exactly what is wrong with it, with the question's number and limits |
| `Answers.SubmissionErrorsAreReported` | src/response/response-answer.validator.ts:140-168 | the errors reported for a submission are exactly its unknown questions, the required answers it leaves blank and what is wrong with its values |
| `Answers.SubmissionErrorsInOrder` | src/response/response-answer.validator.ts:140-168 | unknown questions come first, as they were sent, and then the questions in turn, each with one error or with a repeated option and then the number of options |
| `Answers.DraftErrorsAreReported` | src/response/response-answer.validator.ts:174-193 | the draft check reports exactly what is wrong with the values given |
| `Survey.TrimMeaning` | src/response/response-answer.validator.ts:96-110 | trimming takes away the spaces at both ends and nothing else |
| `Survey.SpacesByNumber` | src/response/response-answer.validator.ts:37-37 | the characters trimmed are the white space and line terminators of section 12 of ECMA-262 |
| `Answers.SetSizeMeansDistinct` | src/response/response-answer.validator.ts:68-70 | comparing the size of the set with the length finds exactly the repeated values |
| `Answers.ValidatorsAgree` | src/response/response-answer.validator.ts:140-190 | for distinct keys, a submission is accepted if and only if the draft check accepts it, all keys are known and no required question is blank |
| `Answers.SameScaleWarningMeaning` | src/response/response-answer.validator.ts:195-206 | the warning is set if and only if at least three scale questions are answered and all with the same score |
| `Publish.ValidatePublishableSurvey` | src/survey/survey-publish.validator.ts:22-134 | the nested loops report exactly the listed problems, in order, and none if and only if the survey is publishable |
| `Publish.PublishProblemsMeaning` | src/survey/survey-publish.validator.ts:22-134 | no problems if and only if title, question count, every question, target and deadline meet the stated limits |
| `Publish.PublishProblemsAreReported` | src/survey/survey-publish.validator.ts:22-134 | the errors reported are exactly what keeps the survey from being published, each with the right question and option |
| `Publish.PublishProblemsInOrder` | src/survey/survey-publish.validator.ts:22-134 | the errors come in the order of the checks, question by question and option by option, and none comes twice |
| `Publish.PastDeadlineMeaning` | src/survey/survey-publish.validator.ts:127-131 | a deadline of the years 0 to 9999 is reported as past if and only if its Korean day is before today |
| `Publish.OneEtcMeaning` | src/survey/survey-publish.validator.ts:79-84 | the count of "other" options is at most one if and only if no two options are |
| `Publish.PublishableCanBeAnswered` | src/survey/survey-publish.validator.ts:22-134 | a publishable survey has an accepted submission (with `all`, one that answers everything) if and only if no scale that must be answered has minScale above maxScale |
| `Publish.SavedSurveyCanBeAnswered` | src/survey/survey.service.ts:547-612 | every publishable survey whose questions were written by the editor can be answered in full |
| `Publish.AskedAsStored` | src/survey/survey.service.ts:566-612 | respondents see every column of a question and its options as it is stored |
| `Results.CountChoices` | src/result/result.service.ts:236-244 | the loop counts every chosen id and lists the masked texts of the "other" option |
| `Results.CountSelections` | src/result/result.service.ts:269-274 | the nested loops count every selected id |
| `Results.BuildQuestionResult` | src/result/result.service.ts:212-336 | the result of a question holds how often each option, score or text occurs among its answers |
| `ResultMeaning.ScaleCountsMeaning` | src/result/result.service.ts:295-312 | the count of score k is the number of sessions that answered k |
| `ResultMeaning.AverageMeaning` | src/result/result.service.ts:296-304 | the average is the whole number of tenths nearest to the sum of all scores over their number, and 0 without an answer |
| `ResultMeaning.ChoiceRowsMeaning` | src/result/result.service.ts:231-262 | single choice: the rows are the options in order of their number with their own texts, each with the number of sessions that chose it and its share of the answers |
| `ResultMeaning.SelectionRowsMeaning` | src/result/result.service.ts:265-294 | multiple choice: likewise, with the number of sessions that have the option among their selections |
| `ResultMeaning.OtherTextsMeaning` | src/result/result.service.ts:236-244 | the texts listed are, session by session, the masked and trimmed texts of those who chose the "other" option and wrote one |
| `ResultMeaning.TextsMeaning` | src/result/result.service.ts:318-335 | each text is listed as often as there are sessions whose trimmed and masked answer it is |
| `Results.AnsweredMatchesValidator` | src/result/result.service.ts:216-221 | an answer is counted if and only if the submission check took it for one, but for single choices with a blank option id |
| `Results.SingleChoiceConserves` | src/result/result.service.ts:231-263 | option counts add up to the answers the submission check saw, and to the reported count if and only if no blank option id is stored; answered and unanswered are all sessions |
| `Results.BlankChoiceIsCountedNowhere` | src/result/result.service.ts:231-263 | one accepted submission whose option id is a space: one response is reported and no option is chosen |
| `Results.EtcAnswersMatchCount` | src/result/result.service.ts:237-244 | as many texts are listed as the "other" option was chosen |
| `Results.MultiChoiceConserves` | src/result/result.service.ts:265-293 | no option is counted more often than there are answers, and the counts add up to between min and max for each answer |
| `Results.ScaleConserves` | src/result/result.service.ts:295-315 | the counts of 1 to 5 add up to the answers and the rounded average lies between 1 and 5, or is 0 without answers |
| `Results.RequiredIsAnsweredByAll` | src/result/result.service.ts:212-336 | a required question has no unanswered session |
| `DailyTrend.BuildDailyTrend` | src/result/result.service.ts:198-210 | one point for each day with a submission, in date order, with its count |
| `DailyTrend.TrendAddsUp` | src/result/result.service.ts:198-210 | the counts add up to the submitted sessions |
| `DailyTrend.DayCountIsWithinDay` | src/result/result.service.ts:201-205 | the count of a date is the number of submissions between the start and the end of that Korean day |
| `Teams.TeamTables.Create` | src/team/team.service.ts:40-57 | creating a team, with its refusals in order |
| `Teams.TeamTables.Join` | src/team/team.service.ts:122-161 | joining, with its refusals in order |
| `Teams.TeamTables.Remove` | src/team/team.service.ts:164-190 | leaving and being removed, with the refusals in order |
| `Teams.TeamTables.Transfer` | src/team/team.service.ts:193-215 | handing the leadership over to a member |
| `Teams.CreateExactly` | src/team/team.service.ts:40-58 | creating takes an active user in at most two teams, who then leads the new team as its only member; each refusal for its own reason |
| `Teams.JoinExactly` | src/team/team.service.ts:112-161 | joining takes an active user in at most two teams, an invitation to a team that is not disbanded, at most five members and no membership yet; each refusal for its own reason, and changing nothing |
| `Teams.RemoveExactly` | src/team/team.service.ts:164-190 | members who do not lead leave by themselves and leaders put others out; each refusal for its own reason, and changing nothing |
| `Teams.LeaderRequestsExactly` | src/team/team.service.ts:193-247 | only the leader of a team that is not disbanded hands it to a member, or ends it and its memberships |
| `Teams.WithdrawRefusedExactly` | src/user/user.service.ts:367-373 | an account can be withdrawn if and only if it exists and is not withdrawn |
| `Teams.StatusChangesAlone` | src/user/user.service.ts:366-373 | signing up, verifying, restricting and releasing change one account that is not withdrawn, and no team |
| `Teams.TeamTables.Disband` | src/team/team.service.ts:224-247 | disbanding marks the team and deletes its memberships |
| `Teams.TeamTables.HandOverTeams` | src/user/user.service.ts:380-412 | the loop gives every team the user leads to the member who joined first, or disbands it, and touches no other team |
| `Teams.TeamTables.Withdraw` | src/user/user.service.ts:366-415 | withdrawing hands the teams over, deletes the memberships and closes the account |
| `Teams.FirstOther` | src/user/user.service.ts:385-388 | the query finds an earliest-joined other member if there is one |
| `Teams.StepKeepsInvariant` | src/team/team.service.ts:40-247 | every request keeps: active teams have 1 to 6 members and their leader among them, disbanded ones none, nobody is in more than 3 active teams, and withdrawn users are in none |
| `Teams.RunKeepsInvariant` | src/team/team.service.ts:40-247 | this holds over every run of requests |
| `Teams.TeamsKeepTheirLimits` | src/team/team.service.ts:40-247 | so from before the first team on: every active team has 1 to 6 members and is led by one of them, nobody is in more than three, and no member of a team is withdrawn |
| `Teams.WithdrawKeepsInv` | src/user/user.service.ts:379-415 | after withdrawing the user leads no team and belongs to none |
| `Teams.WithdrawnNeverReturns` | src/user/user.service.ts:366-415 | and this stays so over every later run |
| `Teams.WithdrawalSuccession` | src/user/user.service.ts:384-412 | the leadership passes to an earliest-joined remaining member, a team of one is disbanded, and everything else about the teams stays |
| `Teams.MembershipsChangeByRight` | src/team/team.service.ts:122-190 | a membership begins only by the user's own request and ends only by the user's or the leader's; a leader's own ends only by disbanding or withdrawing |
| `Teams.LeadershipChangesByRight` | src/team/team.service.ts:193-228 | only the leader's own transfer, disbanding or withdrawal changes who leads a team or ends it |
| `JoinRace.UndisturbedJoinIsAtomic` | src/team/team.service.ts:122-161 | a join whose count and insert nothing comes between is the atomic join |
| `JoinRace.MemberLimitKeptExactly` | src/team/team.service.ts:137-145 | with joins taken apart, a team stays at six over every run of inserts if and only if its members and the users about to join are at most six |
| `JoinRace.TeamLimitKeptExactly` | src/team/team.service.ts:256-263 | a user stays in at most three active teams over every run of inserts if and only if the user's teams and those about to be joined are at most three |
| `JoinRace.RacingJoinsOverfill` | src/team/team.service.ts:137-145 | two joins that would each be let in alone count before either inserts, and fill a team to seven |
| `JoinRace.RacingJoinsExceedTeams` | src/team/team.service.ts:133-145 | a user in two teams who joins two more at once ends up in four |
| `LeaderRace.UndisturbedIsAtomic` | src/team/team.service.ts:164-247 | a removal, a change of leader or a disbanding whose check and write nothing comes between is the atomic one |
| `LeaderRace.UndisturbedJoinIsAtomic` | src/team/team.service.ts:122-161 | a join that nothing comes between is the atomic one |
| `LeaderRace.WithdrawalIsWhole` | src/user/user.service.ts:366-415 | a withdrawal takes place whole, and only of an account that is there and not withdrawn |
| `LeaderRace.LeaderStaysExactly` | src/team/team.service.ts:164-215 | with checks and writes taken apart: in whatever order the waiting requests write, an active team is led by a member if and only if its leader and everyone about to lead are members and none of them is about to leave |
| `LeaderRace.StepKeepsSafeExactly` | src/team/team.service.ts:164-215 | an event keeps this condition if and only if it is not a removal or withdrawal of somebody about to lead, and lets nobody lead who is about to leave |
| `LeaderRace.LeaderStaysOverRuns` | src/team/team.service.ts:164-215 | over every run of checks, writes and withdrawals without such a conflict the leader is a member |
| `LeaderRace.RacingLeaveLosesLeader` | src/team/team.service.ts:192-215 | leadership handed to a member who leaves meanwhile: each request alone goes through, together they leave the team to somebody outside it |
| `LeaderRace.DisbandedStaysEmptyExactly` | src/team/team.service.ts:122-161 | in whatever order the waiting requests write, a disbanded team has no members if and only if nobody is about to join one that is disbanded or about to be |
| `Cursor.DecodeInvertsEncode` | src/survey/survey-cursor.util.ts:11-32 | decoding inverts encoding if and only if the id is not empty and holds no bar |
| `Cursor.DecodedExactly` | src/survey/survey-cursor.util.ts:18-32 | a cursor is read as a position if and only if it is what is written for it, or that with another bar and anything after it |
| `Cursor.IsoTimeIsReadBack` | src/survey/survey-cursor.util.ts:16-17 | the ISO time of an instant is parsed back to it |
| `Paging.CursorContinues` | src/survey/survey.service.ts:281-287 | the cursor made from a row leaves exactly the rows that follow it |
| `Paging.NewestFirst` | src/survey/survey.service.ts:289-293 | the list shows surveys without a publication time first, then the latest published, and those published together from the greatest id down |
| `Paging.RowsAfterExactly` | src/survey/survey.service.ts:281-287 | a cursor keeps exactly the rows published before its position, or together with it with a smaller id |
| `Paging.CursorLeavesTail` | src/survey/survey.service.ts:281-287 | any cursor, from whatever list, leaves a tail of the list |
| `Paging.PageContinues` | src/survey/survey.service.ts:289-318 | a page shows the next rows, and its cursor leaves the others |
| `Paging.FollowingShowsAll` | src/survey/survey.service.ts:281-318 | following nextCursor with any limits terminates and shows no survey twice; it shows every survey, in order, if and only if the first page holds everything or ends at a row with a publication time; otherwise it stops after the first page |
| `Paging.UndatedSurveyEndsTheList` | src/survey/survey.service.ts:281-318 | a survey without a publication time and a dated one, on pages of one: only the first is ever shown |
| `Paging.PublishedSurveysAreAllShown` | src/survey/survey.service.ts:281-318 | while every recruiting survey has a publication time nothing is missed |
| `Retention.RetentionTables.DeleteWhere` | src/retention/retention.service.ts:371-385 | deletes exactly the due rows, and nothing in a dry run; before, affected and after are the counts it reports |
| `Retention.RetentionTables.PurgeSurveyResponses` | src/retention/retention.service.ts:157-210 | answers, proposed changes and messages of surveys past their purge date go, nothing in a dry run; surveys stay; the seven counts are as reported |
| `Retention.RetentionTables.RunOnce` | src/retention/retention.service.ts:86-152 | the first instance to claim a Korean date runs every job that is not disabled, each on its own tables, with the counts each reports, whichever jobs fail before or after dealing with their rows; a second one is skipped and changes nothing |
| `Retention.PurgedCount` | src/retention/retention.service.ts:371-385 | the rows deleted and the rows left are all rows |
| `Retention.LaterBatchCatchesUp` | src/retention/retention.service.ts:90-92 | a day without a batch does no harm: the next one leaves the same rows |
| `Retention.BatchKeeps` | src/retention/retention.service.ts:157-368 | what a job keeps, row by row: nothing of surveys past their purge date but the surveys, unverified accounts for 7 days, withdrawn emails for 30, everything else for 365 |
| `Retention.BatchLeavesAlone` | src/retention/retention.service.ts:127-145 | a dry run, a job that is switched off and one that fails before deleting leave every table as it is |
| `Retention.ReportMeaning` | src/retention/retention.service.ts:157-210 | what each job reports: for survey-purge the surveys, answers, messages and proposed changes past the purge date before and after, otherwise the rows that were due by days, were dealt with and are left |
| `Retention.OutcomeMeaning` | src/retention/retention.service.ts:127-145 | a job's outcome is that it is switched off, else that it failed, else its report |
| `Retention.RepliesExactly` | src/auth/auth.service.ts:45-65 | signing up and changing the address are refused exactly for an address in use and for one that withdrew within 30 days by either hash, in this order; verifying and withdrawing exactly without an account |
| `Retention.EventsWrite` | src/user/user.service.ts:366-475 | a refused request writes nothing; otherwise signing up, verifying, changing the address and withdrawing write their rows and no others |
| `Retention.BatchWrites` | src/retention/retention.service.ts:86-152 | a batch leaves each table as its job does; without the purge only the withdrawn emails differ |
| `Retention.UnpurgedHashesStay` | src/user/user.service.ts:350-362 | without the purge no hash is ever lost, so the comparison is with a table that keeps them all |
| `Retention.RepliesInTurn` | src/user/user.service.ts:350-362 | the replies compared are those of every event in turn |
| `Retention.PurgeIsInvisible` | src/user/user.service.ts:350-362 | over every run of sign-ups, verifications, email changes, withdrawals and batches on a clock that does not go back, every reply is the one given if withdrawn emails were never purged, and so is every later check |
| `Retention.BlockedMeansRecentWithdrawal` | src/user/user.service.ts:350-362 | starting without stored hashes, an email is blocked if and only if an account with the same normalized email withdrew less than 30 days ago, whatever batches ran |

## Left out

- Controllers, guards, decorators, filters and module wiring: single-branch glue.
- Prisma and PostgreSQL themselves: replaced by maps with unique constraints, guarded updates and atomic transactions; `groupBy` results and joined users are given as rows.
- Mail, Gemini calls, bcrypt, JWT, HMAC, base64url, image and chart rendering: calls into foreign code or presentation.
- Notifications, audit logs, warning counts, masking rules, admin listings and renaming: lookups and texts that add only easy members.
- `computePointsToNext`, `weekRangeLabel`, `formatKstDateTime`, `copySurvey`: formatting or copying without further state.
- Instants beyond the range of a JavaScript Date (8.64e15 ms): days and milliseconds are unbounded integers.
- Strings are sequences of characters, not UTF-16 code units, so a character outside the basic plane counts once towards a length limit.
- Lottery.LotteryIsFair: counts choice vectors; that the random source returns each number below its bound equally often is a property of that source.
- Ranking.SubmissionRankIsBoardRank: the points and latest award of each user are given; how the database sums score rows is not modelled.
- Settlement.WeekTables.MarkSent: a reward row is named by its week and slot, not by an id of its own, and the coupon text is only recorded.
- Ledger.StartIsUnique: the eligibility checks of `assertCanRespond` are not part of the ledger; KstDate models its deadline check.
- DraftLock.EveryWriteBumps: the response counter, which submissions and exclusions write on the survey row without moving the version, is in Ledger and not in this row.
- DraftLock.SurveyRow.CommitPublish: any validation is allowed before it, so the lock does not depend on what is validated; Publish models the validation by itself.
- FormMate.QuestionTable.ReplaceSurveyQuestions: the primary keys of rows are not modelled; questions are told apart by their stable key, options by their order number.
- FormMate.ApplyThenRevertRestoresSurvey: the changes of a batch are about distinct questions, as otherwise their snapshots overlap; nothing writes the survey between apply and revert.
- ChangeLog.EachChangeIsAppliedOnce: the content of a change and the question list are in FormMate; here a commit says whether the list can be stored.
- Answers.ValidateAnswerValues: an `etcText` that is not a string makes the program throw; this is recorded as a missing text, which refuses the answer as well.
- Answers.ValidatorsAgree: keys that JavaScript objects inherit (such as "constructor") are taken for absent; stable keys are UUIDs.
- Results.BuildQuestionResult: numbers are reals without rounding errors, and the order of text answers (by random row id) is left open.
- Results.ScaleConserves: asks that the scale of the question lies within 1 to 5, which is what the editor writes.
- DailyTrend.BuildDailyTrend: `localeCompare` is the code order, with which it agrees on date strings.
- Paging.FollowingShowsAll: the list does not change while it is followed, and ids are ordered by character code; the order in which the database returns rows is given.
- Cursor.DecodeInvertsEncode: of the formats `new Date` reads only the one `toISOString` writes, for the years 0 to 9999.
- JoinRace.MemberLimitKeptExactly: the runs are of joins only; other requests between count and insert are in LeaderRace, which does not count members.
- LeaderRace.LeaderStaysOverRuns: withdrawing an account is whole, as it reads inside its transaction; creating teams is left out.
- Teams.TeamTables.Disband: the drafts of the team are moved in DraftLock, not here; invite tokens and names are left out.
- Teams.TeamTables.Withdraw: the surveys, profile and email hash of the account belong to DraftLock and Retention.
- Retention.RetentionTables.DeleteWhere: a job is known by the rows that are still to be dealt with and their time stamps; what scrubbing writes into a row is not modelled.
- Retention.PurgeIsInvisible: nickname checks, passwords and the accounts with special records that the cleanup of unverified accounts spares are left out.
