# Verified model of the family backend

This project models the stateful core of the backend in Dafny and proves what that core is for:
the double-entry ledger and the reports folded from it, recurrence arithmetic, the outbox lease
queue, the request idempotency protocol, time-zone resolution, the bounded calendar merge, keyset
paging, and the formation of families. `dafny verify dfyconfig.toml` checks all of it.

## How the model is laid out

- Each database table is a map or sequence of rows. A service that writes rows is a class whose
  methods are proved equal to a function of the old tables; the theorems are about that function
  and about whole runs of it.
- A run is any finite sequence of events. An event is one database statement or one transaction,
  so interleavings of workers, retries and requests are all runs, and an event that is not enabled
  changes nothing. Theorems quantify over every run.
- A guarded `updateMany` is a compare-and-set, a unique index is a refusal of the insert, and the
  clock, configuration values and provider outcomes are parameters.
- Dates are day numbers with the civil calendar of ECMA-262 (MakeDay, section 21.4.1); a time zone
  is an offset function with at most one change.

| File | Content |
|---|---|
| `Basics.dfy`, `Sorting.dfy` | options and results, sums and cancelling pairs, stable sorting and merging, string order |
| `Ledger.dfy`, `LedgerRuns.dfy`, `LedgerTheorems.dfy`, `LedgerRequests.dfy` | the finance tables and commands, their interleaved runs and invariant, what follows in every run, and what requests get |
| `Reports.dfy`, `Analytics.dfy` | expense statistics, monthly summary, cash flow, balances and forecasts |
| `CivilCalendar.dfy`, `Recurrence.dfy`, `Forecasts.dfy` | dates, schedules, recurring payments and their forecast rows |
| `Outbox.dfy` | the lease queue |
| `CanonicalJson.dfy`, `Idempotency.dfy` | the hashed text of a request and the reservation protocol |
| `Zones.dfy`, `QuietHours.dfy`, `LocalDate.dfy` | local time, quiet windows, local days and event status |
| `CalendarMerge.dfy`, `Messenger.dfy`, `Families.dfy` | the calendar projection, message pages, invitations |

## Where the code does less than one might expect

Each of these is a theorem with a concrete run or value, next to the exact condition under which
the expected property does hold.

- `LedgerTheorems.SecondContributionMovesMark`: `contribute` decides from the goal as it was read
  before the insert and writes the achievement date without a guard, so two contributions in flight
  can both set it. `MarkMovesExactly` says when a mark moves, `AchievementIsEarned` what still holds.
- `LedgerTheorems.FullGoalStaysUnmarked`: two contributions that overlap do not see each other's
  entries, so a goal they fill only together is not marked. `CommitMarksExactly` says when a commit
  marks its goal, and `UninterleavedMarksExactly` that nothing is missed when nothing interleaves.
- `Outbox.LateFailureRevivesDelivered`: `fail` writes without a status guard, so a worker that
  outlives its lease can put a delivered event back in the queue. `FailureSettlesExactly` is the guard
  the write lacks, and `OnlyFailuresUnsettle` says that no other statement needs one.
- `Outbox.DeferralIsOvertaken`: the claiming update repeats the status it read but not the due date, so of two
  workers that chose one event the second can claim it right after the first deferred it. `ClaimsExactly`
  is what a claim needs, and `EarlyClaimsAreContended` says that an untouched event is never claimed early.
- `Idempotency.LoserReplaysExpired`: of two requests that read the same expired record, the one
  that loses the reclaim answers with the expired response. `ExpiredReplayExactly` says that this is
  the only way; a plain read never does it (`ReadsReplayUnexpired`).
- `Idempotency.LateCompletionIsReplayed` and `LateFailureLetsTwoRun`: a reclaimed record keeps its id, so a
  handler that outlives its reservation completes or deletes the record of the next one.
  `SoundnessBreaksExactly` says when an event does such damage, and `SoundUntilSpoiled` that nothing else
  does, however long handlers take.
- `CanonicalJson.TieExample`: a locale comparison ties canonically equivalent keys, and then the text
  depends on the order of the fields. `OrderShowsExactlyOnTies` and `CanonicalExactlyWithoutTies` say
  that it does so only then.
- `CanonicalJson.InfinityPrintsAsNull`: a number too large for a double is printed as null, so two
  different bodies have one hash.
- `Forecasts.GuessedVersionLosesForecast`: an update that names a version it has not read can leave
  a recurring payment without a forecast row. `UpdateLosesForecast` is the exact condition.
- `Forecasts.MovedBackPaymentStopsThePass`: an update keeps the forecast of a reminder already sent, so a
  payment moved back by a period meets it again; the unique violation is not caught, and until the old
  date every scheduler pass that selects the payment stops there. `BlockedSometimeExactly` is the exact
  condition on the tables, `UpdateLeavesRowAhead` on the update, and `PassesNeverStop` says that without
  such an update no pass of any run stops.
- `LocalDate.JumpAtMidnightStartsEarly`: where clocks jump at local midnight the computed start of the day
  is an hour early, on the date before. `StartIsRightWhenClear`: two corrections find the start of a local
  day exactly when midnight is clear of the zone's change of offset.
- `Reports.ReversalNamesTheLine`: a member's line carries the name of whoever posted the row that opens it,
  which is the wrong one when that is somebody else's reversal. `NameIsAuthorsExactly` says when, and
  `UnboundedNamesAreRight` that it takes a period that leaves the expense out.
- `LocalDate.FarYearIsMisread`: date keys are compared as strings with unpadded years, so a confirmed
  event in the year 10000 is shown as completed. `KeysCompareExactly` and `StatusFollowsDays` say for
  which years the comparison is right.
- `QuietHours.JumpOverWindowEnd`: the search fails when the clock change that swallows the end of
  the window also crosses local midnight (`JumpToMidnightThrows`), and otherwise answers with the jump,
  which is allowed exactly when it does not land in the window again; `JumpIntoNextWindow` is an input
  where it does.
- `QuietHours.RepeatedHourAnswersInThePast`: in an hour that clocks show twice the answer can lie
  before the question. `AllowedIsLeastExactly` is the exact condition.
- `Messenger.ForwardCursorReadsAgain`: the page cursor is the oldest item in both directions, so
  following it forward reads all but one message of each page again. The comment in the source
  says this only of `beforeId`. `NextCursorForwardExactly` says when the walk is right.
- `Families.LeavingTogetherStaysActive`: the two members of a family that leave at once each still
  count the other, and the empty family stays active. `EmptiedIsArchivedExactly` says when it is
  archived.
- `Families.LateAnswerIsAccepted`: only the sweep before an answer looks at the clock, so an invitation can
  be answered after its expiry. `LateAnswerExactly` says when, and `ExpiredExactly` which invitations are
  expired.
- `Families.StaleInvitationComesBack`: accepting a public invitation leaves the private ones the
  two parties had sent pending; they are refused while the sender is in a family and become
  acceptable again when the sender leaves it. `RespondLeavesPrivate` is the exact condition.

## Model

| member | source | states |
|---|---|---|
| Ledger.LedgerDatabase.Persist | src/modules/finance/ledger-commands.service.ts:197-241 | The ledger row, its entries, the command row and the goal mark are written together or not at all; it clashes exactly when the key or the reversed transaction is already taken |
| Ledger.LedgerDatabase.Execute | src/modules/finance/ledger-commands.service.ts:42-195 | A whole command: refusals in the source's order, replay of a known key, otherwise one balanced transaction, with the replay after a conflict |
| Ledger.FindCommand | src/modules/finance/ledger-commands.service.ts:243-252 | The lookup finds a row of that user, scope and key, or there is none |
| Ledger.Negated | src/modules/finance/ledger-commands.service.ts:135-138 | A reversal's entries have the same wallets and opposite amounts |
| LedgerRuns.DraftIsOk | src/modules/finance/ledger-commands.service.ts:53-83 | Every draft that passes the checks balances in one currency shared by its wallets, stays in range, and fits its category or the row it reverses |
| LedgerRuns.CommitKeepsStore | src/modules/finance/ledger-commands.service.ts:197-241 | A commit whose unique indexes do not clash keeps the whole ledger invariant and only extends the store |
| LedgerRuns.AdministerKeepsStore | src/modules/finance/wallets.service.ts:82-180 | Wallet, category and goal administration, a goal's new target included, keeps the invariant: a wallet's currency, family and owner and a category's kind are never rewritten |
| LedgerRuns.StepKeepsSystem | src/modules/finance/ledger-commands.service.ts:48-87 | Every event of every interleaving of commands keeps the invariant of store and pending calls |
| LedgerRuns.RunIsOk | src/modules/finance/ledger-commands.service.ts:42-229 | The invariant of store and calls holds in every run: balanced rows in one currency, unique keys, single reversals, category kinds that match |
| LedgerRuns.RunOnlyExtends | src/modules/finance/ledger-commands.service.ts:213-229 | Ledger and command rows are append-only over any continuation of any run, wallets and goals keep what entries rely on, and an achieved goal stays achieved |
| LedgerTheorems.OneTransactionPerKey | src/modules/finance/ledger-commands.service.ts:243-266 | Over every interleaving of retries, calls answered under one user, scope and key got one transaction for one request |
| LedgerTheorems.KeyIsNeverRebound | src/modules/finance/ledger-commands.service.ts:249-250 | Once a key is bound, no later call with another request under it is answered with a transaction |
| LedgerTheorems.HandleIsSixEvents | src/modules/finance/ledger-commands.service.ts:152-195 | With nothing interleaved the six events of a call amount to the whole command, and the unique indexes never fire |
| LedgerTheorems.RetriesReplay | src/modules/finance/ledger-commands.service.ts:243-252 | A posted command asked again is answered with the same transaction and posts nothing; another request under its key, if only its note or date text differs, is refused |
| LedgerTheorems.PostingMovesBalances | src/modules/finance/ledger-commands.service.ts:179-190 | A command that posts moves each wallet's balance by exactly what was asked of it; any other answer changes nothing |
| LedgerTheorems.OnlyManagedWalletsMove | src/modules/finance/ledger-commands.service.ts:269-275 | In every run every entry of every row is in a wallet of the row's family that its author manages |
| LedgerTheorems.ReversingRestoresBalances | src/modules/finance/ledger-commands.service.ts:128-139 | Reversing a command brings every wallet's balance back to what it was before it |
| LedgerTheorems.ReversalsAreExact | src/modules/finance/ledger-commands.service.ts:103-139 | In every run a transaction is reversed at most once, by an exact inverse posted later, and no reversal is reversed |
| LedgerTheorems.MeasureIsLive | src/modules/finance/ledger-commands.service.ts:128-139 | Any measure that a reversal negates totals to its value over the unreversed transactions |
| LedgerTheorems.BalanceIsLive | src/modules/finance/financial-goals.service.ts:220-224 | Every wallet balance is the sum of its unreversed transactions |
| LedgerTheorems.ReversalIsAsVisible | src/modules/finance/ledger-history.service.ts:57-77 | A viewer sees a transaction exactly when they see its reversal |
| LedgerTheorems.ViewIsLive | src/modules/finance/ledger-history.service.ts:63-76 | Reversed pairs net to zero in every viewer's view, in every currency |
| LedgerTheorems.MoneyIsConserved | src/modules/finance/ledger-commands.service.ts:186-189 | In every run and currency the wallets and the outside world together hold zero |
| LedgerTheorems.CommitMovesTheTotal | src/modules/finance/financial-goals.service.ts:198-213 | Transfers and contributions and their reversals keep the wallet total; income and expense move it by the signed amount |
| LedgerTheorems.AmountsFit | src/modules/finance/ledger-commands.service.ts:277-281 | Every stored amount is non-zero and it and its negation fit a signed 64-bit column |
| LedgerTheorems.AchievementIsEarned | src/modules/finance/financial-goals.service.ts:176-226 | In every run a goal marked achieved was full by a target it had: what was committed when some contribution to it was inserted, with that contribution on top, reached the target; and it stays achieved |
| LedgerTheorems.OnlyFillingMarks | src/modules/finance/financial-goals.service.ts:225-226 | An event writes a goal's achievement date if and only if it commits a contribution to it that decided to mark it |
| LedgerTheorems.CommitMarksExactly | src/modules/finance/financial-goals.service.ts:176-226 | A contribution that commits marks its goal if and only if its checks read the goal as not achieved and the rows committed at its insert with its own reach the target as it was read |
| LedgerTheorems.MarkMovesExactly | src/modules/finance/financial-goals.service.ts:176-226 | An event moves an existing achievement date if and only if it commits a contribution that decided to mark the goal, having read it as not achieved, and on another instant |
| LedgerTheorems.UninterleavedMarksExactly | src/modules/finance/financial-goals.service.ts:220-226 | With nothing interleaved a mark never moves, and a contribution that posts leaves its goal achieved if and only if it was or its balance reaches its target |
| LedgerTheorems.SecondContributionMovesMark | src/modules/finance/financial-goals.service.ts:176-226 | A run in which two contributions under different keys both set the mark |
| LedgerTheorems.FullGoalStaysUnmarked | src/modules/finance/financial-goals.service.ts:220-226 | A run in which two overlapping contributions fill a goal together and leave it unmarked |
| LedgerRequests.RowsAreAskedFor | src/modules/finance/ledger-commands.service.ts:179-190 | In every run each row has the author, family, kind, category, wallets and signed amounts that the request stored with it asked for, or the reversed row's negated, under that request's key; its date is the one asked for, and without one the clock of that call's checks |
| LedgerRequests.RacesAreAnswered | src/modules/finance/ledger-commands.service.ts:254-267 | In every run a call whose insert clashed gets the transaction of its key for the same request, KeyReused for another, and otherwise AlreadyReversed, its row having been reversed; there is no other clash |
| LedgerRequests.PostsExactly | src/modules/finance/ledger-commands.service.ts:53-139 | With nothing interleaved a request appends a row if and only if its key is free and the rules on wallets, category, currency, goal or reversed row admit it, the rules written out |
| LedgerRequests.RefusalsExactly | src/modules/finance/ledger-commands.service.ts:53-139 | Which refusal a request under a free key gets: already reversed, not fitting, or not found, each if and only if its condition holds |
| LedgerRequests.SeenExactly | src/modules/finance/ledger-history.service.ts:57-77 | In every run a user sees a row if and only if it is their family's and each of its wallets is the family's, their own, or shown to them as a partner |
| LedgerRequests.OpensExactly | src/modules/finance/wallets.service.ts:23-53 | A wallet is opened if and only if its type, visibility and the caller's role fit, owned by the caller exactly when personal |
| LedgerRequests.WalletsChangeExactly | src/modules/finance/wallets.service.ts:82-188 | A wallet is changed, archived or restored if and only if the caller manages it, the version fits and, to archive, no active goal saves in it |
| Reports.Collect | src/modules/finance/expense-statistics.service.ts:54-87 | The nested fold over the rows equals the fold of the postings they stand for |
| Reports.ExpenseStatistics | src/modules/finance/expense-statistics.service.ts:51-112 | Every total, member total and category total of the report is the sum of the postings it should count, with no line missing or added, and each line is named after whoever posted the row that opens it |
| Reports.TotalsAgree | src/modules/finance/expense-statistics.service.ts:70-86 | For every range the grand total is the sum of the member totals and each of those the sum of its category totals |
| Reports.StatisticsAreUnreversedExpenses | src/modules/finance/expense-statistics.service.ts:55-69 | Without bounds, an author's, category's and currency's figure is the sum of that author's unreversed expenses, whoever posted the reversal |
| Reports.StatisticsAreCounted | src/modules/finance/expense-statistics.service.ts:54-86 | In every run and for any range each figure is the sum of the amounts of the author's expenses less the amounts that reversals took back |
| Reports.QueryRangeIsDays | src/modules/finance/expense-statistics.service.ts:114-126 | The range holds exactly the instants of the days asked for, first and last included, and is refused exactly when they are in the wrong order |
| Reports.NameIsAuthorsExactly | src/modules/finance/expense-statistics.service.ts:66-76 | A member's line carries the member's name if and only if the member posted the row that opens it |
| Reports.UnboundedNamesAreRight | src/modules/finance/expense-statistics.service.ts:55-76 | In every run a report without bounds names every line rightly |
| Reports.ReversalNamesTheLine | src/modules/finance/expense-statistics.service.ts:71-76 | A period that starts between an expense and somebody else's reversal of it, for which the name is wrong |
| Reports.FinancialSummary | src/modules/finance/financial-summary.service.ts:52-94 | Each category's amount per currency is the signed total of its visible rows of the month, and each budget's remainder is its limit less that |
| Reports.SummaryIsCounted | src/modules/finance/financial-summary.service.ts:52-65 | In every run, for categories of either kind and any range: the amount is that of the visible incomes or expenses less what visible reversals took back |
| Reports.UnboundedSummaryIsLive | src/modules/finance/financial-summary.service.ts:52-65 | Without bounds it is the sum of the visible unreversed ones, hence never negative |
| Reports.StatisticsMatchSummary | src/modules/finance/financial-summary.service.ts:52-65 | For every expense category, currency and range the statistics summed over members equal the summary's actual plus what the summary hides, which is nothing for a caller who sees every wallet |
| Analytics.CashFlow | src/modules/finance/financial-analytics.service.ts:72-79 | Every month and currency bucket holds as income the amounts above zero of exactly its rows and as expense those below, negated |
| Analytics.BucketSides | src/modules/finance/financial-analytics.service.ts:166-178 | In every run a bucket's income is the amounts of the month's visible incomes and reversed expenses, its expense those of the visible expenses and reversed incomes |
| Analytics.Mandatory | src/modules/finance/financial-analytics.service.ts:81-91 | Every month and currency bucket holds the planned occurrences that fall in it, the income ones and the expense ones apart |
| Analytics.Balances | src/modules/finance/financial-analytics.service.ts:102-109 | The balance per currency is the total of the caller's visible entries |
| Analytics.BalanceForecast | src/modules/finance/financial-analytics.service.ts:92-140 | Planned income and planned expense are each the amounts of their payments once per occurrence in the window, and the projected balance is the current one plus the one less the other |
| Analytics.BucketIsAMonth | src/modules/finance/financial-analytics.service.ts:115-117 | The listed months tile the period: bucket `i` is exactly the interval between consecutive month starts |
| Analytics.CashFlowAddsUp | src/modules/finance/financial-analytics.service.ts:112-127 | In every run the listed months' net flows add up to what visible transactions of the period put into wallets |
| Analytics.BalancesAreUnreversed | src/modules/finance/financial-analytics.service.ts:63-69 | In every run the balance shown is the sum of the unreversed transactions the caller sees |
| Analytics.PlannedMonth | src/modules/finance/financial-analytics.service.ts:84-91 | A month's planned payments are the schedule's occurrences in that month, none lost or doubled at a boundary |
| Analytics.PlannedSides | src/modules/finance/financial-analytics.service.ts:81-91 | In each listed month planned income and expense are the amounts of the income and of the expense payments times their occurrences in that month |
| Analytics.SchedulerDoesNotMoveTheForecast | src/modules/finance/financial-analytics.service.ts:92-99 | Either side of a later window's forecast is the same whether or not the scheduler has advanced any of the due payments |
| CivilCalendar.MonthStartIsClosedForm | src/modules/finance/recurring-payments.service.ts:392 | Month lengths added up from the epoch give the closed form of ECMA-262 |
| CivilCalendar.DateRoundTrip | src/common/notifications/quiet-hours.service.ts:58-67 | Day numbers and valid civil dates correspond one to one |
| CivilCalendar.AddMonthsLandsOn | src/modules/finance/financial-analytics.service.ts:162 | Adding months keeps the day of the month when it exists and otherwise spills the missing days into the next month |
| Recurrence.StepAdvances | src/modules/finance/financial-analytics.service.ts:159-164 | One step moves by exactly seven days an interval weekly, and by at least 28 days an interval monthly |
| Recurrence.MonthlyStepLandsOn | src/modules/finance/recurring-payments.service.ts:388-393 | A monthly step lands on the same day `interval` months later, or spills the missing days into the month after, and keeps the time of day |
| Recurrence.MonthlyOrbit | src/modules/finance/financial-analytics.service.ts:159-164 | From a day of at most 28, point n of a monthly orbit is that day and time n times `interval` months on |
| Recurrence.OneOccurrencePerInterval | src/modules/finance/financial-analytics.service.ts:144-157 | From its due date on such a payment occurs exactly once in every `interval` whole months |
| Recurrence.Occurrences | src/modules/finance/financial-analytics.service.ts:144-157 | The two loops end and compute the occurrences of the window |
| Recurrence.OccurrencesAreExact | src/modules/finance/financial-analytics.service.ts:149-156 | The occurrences are strictly increasing and are exactly the points of the payment's orbit in the window |
| Recurrence.OccurrencesSplit | src/modules/finance/financial-analytics.service.ts:151-155 | Occurrences of adjacent windows concatenate |
| Recurrence.NextDueAt | src/modules/finance/recurring-payments.service.ts:386-396 | The do-while loop ends at the first orbit point after both the old date and now |
| Recurrence.AdvancedIsLeast | src/modules/finance/recurring-payments.service.ts:388-395 | The advanced date is the least point of the orbit later than both the old date and now |
| Recurrence.AdvancingKeepsForecasts | src/modules/finance/recurring-payments.service.ts:257-269 | Advancing leaves the occurrences of every later window unchanged if and only if the payment was due |
| Recurrence.NthIsProgression | src/modules/tasks/task-routines.service.ts:323-329 | Daily and weekly schedules are arithmetic progressions |
| Recurrence.AdvancedIsUnique | src/modules/tasks/task-routines.service.ts:276-284 | For daily and weekly schedules the next run is the only progression point in (now, now + step] |
| Forecasts.AdvancesAreUnique | src/modules/finance/recurring-payments.service.ts:270-290 | Each version of each payment is advanced at most once by any number of workers and yields exactly one forecast |
| Forecasts.UpdateLosesForecast | src/modules/finance/recurring-payments.service.ts:155-184 | An update leaves every payment with its forecast if and only if it is not a reminder-only change let through on a due date it had not read |
| Forecasts.HonestUpdateKeepsForecast | src/modules/finance/recurring-payments.service.ts:155-157 | An update that names no version, or none beyond the one it read, never loses the forecast |
| Forecasts.UpdatesExactly | src/modules/finance/recurring-payments.service.ts:155-184 | When an update goes through, which fields and which forecasts it writes, and that it writes nothing otherwise |
| Forecasts.RemindsExactly | src/common/maintenance/maintenance.service.ts:183-206 | A reminder is claimed if and only if its time has come, nobody claimed it and its payment is active |
| Forecasts.ForecastsTrackSchedules | src/modules/finance/recurring-payments.service.ts:155-184 | After any run in which updates name no version beyond the one read, every payment has a forecast for its next due date |
| Forecasts.RemindersAreTimely | src/modules/finance/recurring-payments.service.ts:383-385 | After any such run every payment's forecast reminds exactly its offset in minutes before the due date |
| Forecasts.GuessedVersionLosesForecast | src/modules/finance/recurring-payments.service.ts:156 | A concrete run in which a guessed version loses the forecast |
| Forecasts.BlockedSometimeExactly | src/modules/finance/recurring-payments.service.ts:257-294 | An active payment is due and blocked at some time if and only if a forecast of it stands at a later date of its schedule |
| Forecasts.BlockedUntilItsDate | src/modules/finance/recurring-payments.service.ts:268-290 | A blocked payment stays blocked, pass after pass, until the clock reaches the date it is blocked on |
| Forecasts.UpdateLeavesRowAhead | src/modules/finance/recurring-payments.service.ts:155-184 | An update leaves a forecast dated after its payment if and only if it moves the payment behind a reminder already sent, or re-creates a later date it had read on a version it had not |
| Forecasts.PassesNeverStop | src/modules/finance/recurring-payments.service.ts:257-294 | In every run without such an update no payment is ever blocked |
| Forecasts.MovedBackPaymentStopsThePass | src/modules/finance/recurring-payments.service.ts:173-184 | A concrete run with guessed versions excluded: a payment moved back a week after its reminder is blocked at every moment of that week |
| Forecasts.PaymentDatabase.Update | src/modules/finance/recurring-payments.service.ts:123-198 | The update's effect on payment and forecast rows, rolled back when the new forecast clashes |
| Forecasts.PaymentDatabase.Advance | src/modules/finance/recurring-payments.service.ts:269-290 | The compare-and-set advance and the forecast it inserts |
| Forecasts.PaymentDatabase.GenerateDueForecasts | src/modules/finance/recurring-payments.service.ts:257-294 | A pass serves the selected payments up to the first blocked one and stops there, that is, it fails if and only if one of them is blocked; each served payment moves to its next date and gets that date's forecast, and nothing else changes |
| Outbox.DelaysAreBounded | src/common/outbox/outbox.service.ts:270 | Retry delays never shrink from one attempt to the next and stay between two and sixty seconds |
| Outbox.DelaysDouble | src/common/outbox/outbox.service.ts:270 | The first retry waits two seconds, each of the next four twice as long as the one before, and from the sixth on sixty seconds |
| Outbox.LocksAndAttempts | src/common/outbox/outbox.service.ts:265-282 | In every run an event is PROCESSING exactly when locked and FAILED exactly when its attempts are used up |
| Outbox.ClaimsAreSpaced | src/common/outbox/outbox.service.ts:137-164 | In every run two claims of one event with no release between them are at least the lock timeout apart |
| Outbox.LeasedRunsSettle | src/common/outbox/outbox.service.ts:166-284 | When every delivery ends within its lease, one worker at a time holds an event, DELIVERED and FAILED are final and attempts only grow |
| Outbox.OutcomesTakeEffect | src/common/outbox/outbox.service.ts:231-283 | Within its lease a worker's outcome takes effect: delivered, deferred to its time, or the remaining attempts fall by one |
| Outbox.FailureSettlesExactly | src/common/outbox/outbox.service.ts:265-283 | The write of `fail` undoes nothing if and only if the row is not final and has no attempt beyond the one being recorded, or the write changes nothing |
| Outbox.OnlyFailuresUnsettle | src/common/outbox/outbox.service.ts:137-263 | Every other event keeps final rows final and never lowers an attempt count, lease or no lease |
| Outbox.LateFailureRevivesDelivered | src/common/outbox/outbox.service.ts:266-282 | Without the lease a concrete run takes a delivered event back to PENDING |
| Outbox.OutboxTable.ClaimNext | src/common/outbox/outbox.service.ts:137-164 | It claims the oldest eligible event and nothing else, or there is none |
| Outbox.OutboxTable.Settle | src/common/outbox/outbox.service.ts:231-282 | The row after a delivery, a deferral or a failure: each takes effect only while the event is PROCESSING, releases it, and only a failure costs an attempt |
| Outbox.OutboxTable.ProcessAvailable | src/common/outbox/outbox.service.ts:94-103 | For a worker by itself, whatever its clock reads at each turn: a pass that stops early found nothing eligible, every event eligible in its time is delivered or left eligible, no other is touched, and when outcomes last each delivery takes one event out of the eligible set |
| Outbox.ChoosesExactly | src/common/outbox/outbox.service.ts:137-151 | A free worker chooses an event if and only if it is due or its lock has run out, and none such was created earlier |
| Outbox.ClaimsExactly | src/common/outbox/outbox.service.ts:152-162 | A claim succeeds if and only if the event has the status it was chosen with and, if locked, its lock had run out; what it writes |
| Outbox.EarlyClaimsAreContended | src/common/outbox/outbox.service.ts:140-162 | In every run a pending event is claimed before it is due only if another worker wrote it after it was chosen |
| Outbox.DeferralIsOvertaken | src/common/outbox/outbox.service.ts:152-162 | A run in which an event deferred to any later time is claimed at once by a second worker |
| Outbox.LostClaimsAreContended | src/common/outbox/outbox.service.ts:137-164 | With any number of workers a chosen event is claimed unless its row was claimed or released after it was chosen |
| Outbox.ChoiceExistsExactly | src/common/outbox/outbox.service.ts:137-151 | A free worker finds an event to choose if and only if one is eligible |
| CanonicalJson.TextsReadBack | src/common/idempotency/idempotency.interceptor.ts:20-29 | Every canonical text is JSON that reads back, by the grammar of RFC 8259, as a value with the meaning of the one printed, non-finite numbers and an absent body read as null |
| CanonicalJson.EqualTextsMeanTheSame | src/common/idempotency/idempotency.interceptor.ts:20-29 | Equal texts come only from values that are equal up to key order once non-finite numbers are read as null, whatever the key comparison does |
| CanonicalJson.CanonicalTextIsTheMeaning | src/common/idempotency/idempotency.interceptor.ts:20-29 | For any strict weak key order and a value none of whose objects holds two tied keys, another value prints like it if and only if both are equal up to key order and non-finite numbers read as null |
| CanonicalJson.OrderShowsExactlyOnTies | src/common/idempotency/idempotency.interceptor.ts:23-25 | All orderings of an object's fields print alike if and only if no two of its keys are tied |
| CanonicalJson.CanonicalExactlyWithoutTies | src/common/idempotency/idempotency.interceptor.ts:20-29 | Every value with the reading of a given one prints like it if and only if no object inside the given one holds tied keys |
| CanonicalJson.TieExample | src/common/idempotency/idempotency.interceptor.ts:23-25 | Two equal objects that print differently under a comparison that ties only the two spellings of one accented letter |
| CanonicalJson.CollationIsStrictWeak | src/common/idempotency/idempotency.interceptor.ts:24 | That comparison is a strict weak order and ties those two keys and no others |
| CanonicalJson.InfinityPrintsAsNull | src/common/idempotency/idempotency.interceptor.ts:27-29 | Two different bodies, one with a number too large for a double and one with null, have one text |
| Idempotency.HandlersExclude | src/common/idempotency/idempotency.interceptor.ts:65-103 | When handlers that end do so within their reservation, at most one runs per key and it owns the record it will complete or delete, processes that die included |
| Idempotency.CompletedIsReplayed | src/common/idempotency/idempotency.interceptor.ts:65-83 | While a completed record is unexpired no handler runs for its key, and readers get the stored response or, with another hash, a refusal |
| Idempotency.RecordsLastADay | src/common/idempotency/idempotency.interceptor.ts:111-143 | In every run a record expires exactly 24 hours after the arrival of a request with its key and hash |
| Idempotency.ReplaysAreGenuine | src/common/idempotency/idempotency.interceptor.ts:72-78 | Every replayed response was produced by a handler for the same key and hash, as long as no late handler has spoiled a reclaimed record |
| Idempotency.SoundnessBreaksExactly | src/common/idempotency/idempotency.interceptor.ts:85-103 | An event breaks the reservation (one live handler per key, owning its record, genuine responses) if and only if it is the end of a handler whose record, under the same id, is by then a live handler's, or another request's that never had this response |
| Idempotency.SoundUntilSpoiled | src/common/idempotency/idempotency.interceptor.ts:85-146 | In every run without such an end, however long handlers take, the reservation stays sound |
| Idempotency.PromptSpoilsNothing | src/common/idempotency/idempotency.interceptor.ts:85-103 | Handlers that end within their reservation never do this |
| Idempotency.LateCompletionIsReplayed | src/common/idempotency/idempotency.interceptor.ts:96-103 | A concrete run in which a retry is answered with the response of another request |
| Idempotency.LateFailureLetsTwoRun | src/common/idempotency/idempotency.interceptor.ts:88-91 | A concrete run in which two live handlers of one key run at once |
| Idempotency.ReadsReplayUnexpired | src/common/idempotency/idempotency.interceptor.ts:126-146 | A read answers with a stored response if and only if the record has the same hash, is completed and is unexpired |
| Idempotency.ExpiredReplayExactly | src/common/idempotency/idempotency.interceptor.ts:126-146 | In every run any other replay is by a reclaim that finds the record it saw gone or renewed, and that replay is of the expired response it saw |
| Idempotency.LoserReplaysExpired | src/common/idempotency/idempotency.interceptor.ts:126-146 | A concrete run in which the request that loses the reclaim replays the expired response |
| Idempotency.IdempotencyTable.Reserve | src/common/idempotency/idempotency.interceptor.ts:110-147 | A reservation is made exactly when the key is free or expired |
| Idempotency.IdempotencyTable.Intercept | src/common/idempotency/idempotency.interceptor.ts:38-108 | A failed handler leaves no record, a successful one is stored for replay, and a taken key is not executed |
| QuietHours.LocalTimeToInstant | src/common/notifications/quiet-hours.service.ts:90-125 | The correction loop and the scan compute the resolved instant |
| QuietHours.NextAllowedAt | src/common/notifications/quiet-hours.service.ts:19-51 | The service's answer is now when the preference is off, lacks a bound or has equal ones, now outside the quiet minutes, and otherwise the resolved end of the window |
| QuietHours.QuietMinutesExactly | src/common/notifications/quiet-hours.service.ts:24-42 | No minute is quiet when the preference is off, lacks a bound or has equal ones; otherwise exactly those counted from the start up to the end around midnight |
| QuietHours.OccurringIsFound | src/common/notifications/quiet-hours.service.ts:97-111 | When the local time occurs the corrections find it, and when it occurs twice it is exact which of the two they find |
| QuietHours.SkippedResolvesToJump | src/common/notifications/quiet-hours.service.ts:113-124 | When a jump of at most three hours swallows the local time, the corrections fail and the scan returns exactly the jump, or nothing if it lands on another date |
| QuietHours.AllowedIsLeast | src/common/notifications/quiet-hours.service.ts:33-50 | When clocks never go back the answer is the least instant from now on outside the quiet window, and asking again changes nothing |
| QuietHours.AllowedIsLeastExactly | src/common/notifications/quiet-hours.service.ts:33-50 | For a change of offset in either direction the answer is that least instant if and only if the change does not come between the question and the answer in a way that repeats local time |
| QuietHours.RepeatedHourAnswersInThePast | src/common/notifications/quiet-hours.service.ts:97-111 | A concrete zone and window in which the answer lies before the question |
| QuietHours.ConstantOffset | src/common/notifications/quiet-hours.service.ts:19-51 | The same for every constant whole-minute offset, with no other condition |
| QuietHours.JumpOverWindowEnd | src/common/notifications/quiet-hours.service.ts:113-124 | When the jump swallows the end of the window, everything before it is quiet and delivery resumes exactly at it unless it lands on another date; the jump is outside the window, and is its own answer, if and only if its local minute is |
| QuietHours.JumpIntoNextWindow | src/common/notifications/quiet-hours.service.ts:113-124 | A concrete zone and window in which the answer is quiet again |
| QuietHours.JumpToMidnightThrows | src/common/notifications/quiet-hours.service.ts:113-124 | A concrete zone and window for which the search finds nothing |
| LocalDate.StartIsRightWhenClear | src/modules/family-events/local-date.ts:23-32 | The computed start splits earlier from later local dates if and only if midnight is clear of the change of offset |
| LocalDate.JumpAtMidnightStartsEarly | src/modules/family-events/local-date.ts:23-32 | A zone that jumps at local midnight, where the computed start lies on the date before |
| LocalDate.DistantChangeIsClear | src/modules/family-events/local-date.ts:23-32 | A change farther from local midnight than its own size leaves it clear |
| LocalDate.RangeHoldsItsDates | src/modules/family-events/local-date.ts:23-32 | The instants between two computed starts are exactly those shown on the dates in between |
| LocalDate.KeysFollowDays | src/modules/family-events/family-event-status.ts:11-20 | For two days of the years from 1 on, keys compare as the days do if and only if neither year's digits run past the other's shorter ones |
| LocalDate.KeysCompareExactly | src/modules/family-events/family-event-status.ts:11-20 | The same for two dates: exactly for which years string order differs from date order; different dates have different keys |
| LocalDate.FourDigitYearsAgree | src/modules/family-events/family-event-status.ts:11-20 | Two years of four digits are never misordered |
| LocalDate.StatusFollowsDays | src/modules/family-events/family-event-status.ts:22-40 | A confirmed event's status says whether its day is past, today or to come if and only if the two years are not misordered |
| LocalDate.UndecidedSaysSo | src/modules/family-events/family-event-status.ts:28-33 | PROPOSED and REJECTED are shown exactly for undecided and rejected events |
| LocalDate.FarYearIsMisread | src/modules/family-events/family-event-status.ts:34-39 | A confirmed event of the year 10000 is COMPLETED in 2026 |
| LocalDate.DayBoundariesAgree | src/modules/family-events/family-event-status.ts:11-20 | In the years from 1 on a date's key is shown exactly between its computed start and the next date's |
| LocalDate.ConfirmedIsTrichotomy | src/modules/family-events/family-event-status.ts:22-40 | A confirmed event is COMPLETED, EVENT_DAY or CONFIRMED as it lies before, inside or after today's computed interval if and only if the two years are not misordered |
| CalendarMerge.ProjectionIsFirst500 | src/modules/calendar/calendar.service.ts:28-115 | Cutting each source at 501 before merging still gives the first 500 of everything, and the truncation flag is exact, if the database's order of ties agrees with the comparison at the cut |
| CalendarMerge.ProjectionIsFirst500Exactly | src/modules/calendar/calendar.service.ts:28-115 | A range of 1 to 93 days is answered and no other; however the database orders its rows, the truncation flag is exact, and the entries are the first 500 of everything if and only if no row left out by a query ranks before the 500th of those fetched |
| CalendarMerge.RangeIsDates | src/modules/calendar/calendar.service.ts:26-33 | The queries range over exactly the entries whose local date lies in the asked interval |
| CalendarMerge.TimesAreRightWhateverTheTies | src/modules/calendar/calendar.service.ts:99-103 | Even if the database orders ties differently, the start times shown are those of the first 500 |
| Sorting.CutSourcesAgree | src/modules/calendar/calendar.service.ts:68-109 | For any limit and preorder, cutting three sources first does not change the cut of their sorted union, if each cut keeps the least rows |
| Sorting.SortIsPermutation | src/modules/calendar/calendar.service.ts:99-103 | The stable sort keeps every element, whatever the comparison |
| Sorting.SortSorts | src/modules/calendar/calendar.service.ts:99-103 | Under a total preorder the stable sort orders its elements |
| Messenger.PagesAreSlices | src/modules/messenger/messenger.service.ts:173-206 | A `beforeId` or cursorless query answers with the slice of the history that ends at the cursor |
| Messenger.PageAfter | src/modules/messenger/messenger.service.ts:180-200 | An `afterId` query answers with the slice of the history that starts behind the cursor |
| Messenger.BadCursorsAreRefused | src/modules/messenger/messenger.service.ts:168-178 | Unknown cursors and two cursors at once are refused |
| Messenger.WalkVisitsHistoryOnce | src/modules/messenger/messenger.service.ts:192-206 | Following `nextCursor` back ends, also at exact multiples, and returns the whole history, each message once |
| Messenger.ForwardWalkVisitsRest | src/modules/messenger/messenger.service.ts:180-206 | Walking forward from the last item of each page ends after the least number of pages that hold the rest, and returns all that follows a message, each once |
| Messenger.ForwardCursorReadsAgain | src/modules/messenger/messenger.service.ts:204-205 | Following `nextCursor` forward reads all but one message of each page again |
| Messenger.NextCursorForwardExactly | src/modules/messenger/messenger.service.ts:180-206 | Following `nextCursor` forward ends, and returns each message once if and only if the page size is one or what follows does not fill a page |
| Messenger.UnreadIsTheRest | src/modules/messenger/messenger.service.ts:501-518 | The counter is the number of undeleted messages from others after the mark, or in all without one |
| Messenger.UnreadMatchesPages | src/modules/messenger/messenger.service.ts:297-307 | The pages past a message exist, and after reading up to it the counter equals what they show from others |
| Messenger.ConversationStore.MarkRead | src/modules/messenger/messenger.service.ts:297-307 | The caller's mark moves to the message, nothing else changes, and an unknown message is refused |
| Families.InvitationsAreSound | src/modules/families/family-invitations.service.ts:68-82 | In every run a pending public invitation is between two users outside any family and unique for the pair, a private one is used once exactly when accepted, and no family exceeds two |
| Families.AnswersAreFinal | src/modules/families/family-invitations.service.ts:486-492 | From any point of any run on, answered invitations keep their answer and families only lose members |
| Families.InvitesExactly | src/modules/families/family-invitations.service.ts:41-85 | An invitation is created if and only if two different active users are outside any family and neither has invited the other, and what is written |
| Families.InvitesPrivatelyExactly | src/modules/families/family-invitations.service.ts:104-170 | The same for an address, with the cooldown, and exactly which earlier invitations are replaced |
| Families.AcceptsPrivatelyExactly | src/modules/families/family-invitations.service.ts:210-246 | In every sound state who may accept a private invitation and which refusal others get |
| Families.RespondsExactly | src/modules/families/family-invitations.service.ts:431-460 | In every sound state who may answer a public invitation and which refusal others get |
| Families.AcceptsPrivatelyWrites | src/modules/families/family-invitations.service.ts:248-297 | What a private acceptance writes: the family, two members, the used invitation and the cancellation of exactly the pending ones that concern the two, and nothing else |
| Families.RespondsWrites | src/modules/families/family-invitations.service.ts:454-492 | What an answer to a public invitation writes, private ones being left alone |
| Families.WithdrawsExactly | src/modules/families/family-invitations.service.ts:336-347 | Who may withdraw or revoke an invitation and which refusal others get |
| Families.PublicAnswersAreAuthorised | src/modules/families/family-invitations.service.ts:400-452 | A public invitation leaves PENDING only by its recipient's answer, its sender's withdrawal, its expiry, or a party entering a family |
| Families.PrivateAnswersAreAuthorised | src/modules/families/family-invitations.service.ts:220-246 | A private invitation is accepted only by another active account with the address it names, which is recorded, and cancelled only by its sender, by a newer one to the address, or by an acceptance that concerns its sender or address |
| Families.RevokedIsNeverAccepted | src/modules/families/family-invitations.service.ts:336-358 | After a successful revocation no continuation of any run accepts the invitation |
| Families.WithdrawnIsNeverAnswered | src/modules/families/family-invitations.service.ts:400-429 | After a successful withdrawal or rejection no continuation of any run answers it |
| Families.ExpiredExactly | src/modules/families/family-invitations.service.ts:527-539 | In every run an invitation of either kind is expired if and only if some sweep found it pending past its expiry |
| Families.LateAnswerExactly | src/modules/families/family-invitations.service.ts:436-492 | An untouched public invitation can be answered, at whatever time, if and only if no sweep has run at or after its expiry |
| Families.LateAnswerIsAccepted | src/modules/families/family-invitations.service.ts:436-450 | A concrete invitation that a sweep just before its expiry leaves open and one at its expiry closes |
| Families.FamiliesStartWithTwo | src/modules/families/family-invitations.service.ts:248-254 | A new family has exactly two members, neither of whom was in one |
| Families.FamiliesAreAcceptances | src/modules/families/family-invitations.service.ts:282-297 | In every run there are as many families as accepted invitations of both kinds |
| Families.LeavesExactly | src/modules/families/families.service.ts:118-121 | A leave starts if and only if the user is in an active family and not leaving already, with the number of others |
| Families.LeavingShrinks | src/modules/families/families.service.ts:118-132 | The commit of a leave removes exactly one member, keeps the invariant and finds no pending public invitation to cancel |
| Families.LeavingAlone | src/modules/families/families.service.ts:118-132 | With no other leave in progress, leaving archives the family if and only if it is empty |
| Families.EmptiedIsArchivedExactly | src/modules/families/families.service.ts:120-126 | The commit that empties a family leaves it archived if and only if its count saw no other member, or it was archived |
| Families.EmptyFamiliesAreArchived | src/modules/families/families.service.ts:119-127 | In every run in which two members of one family are never leaving at once, an empty family is archived |
| Families.LeavingTogetherStaysActive | src/modules/families/families.service.ts:119-127 | A concrete run in which both members leave at once and the empty family stays active |
| Families.RespondLeavesPrivate | src/modules/families/family-invitations.service.ts:454-484 | A public acceptance leaves no private invitation from a family member pending if and only if neither party had one |
| Families.AcceptPrivateClears | src/modules/families/family-invitations.service.ts:258-280 | A private acceptance leaves none |
| Families.StaleInvitationComesBack | src/modules/families/family-invitations.service.ts:473-483 | A concrete run in which a left-over private invitation becomes acceptable again |
| Families.FamilyDatabase.CreateInvitation | src/modules/families/family-invitations.service.ts:41-85 | Refusals in the source's order, otherwise one new pending row, and the invariant is kept |
| Families.FamilyDatabase.AcceptPrivateInvitation | src/modules/families/family-invitations.service.ts:210-306 | The whole transaction or nothing, the invariant is kept, and the new family has exactly the sender and the caller |
| Families.FamilyDatabase.RespondToInvitation | src/modules/families/family-invitations.service.ts:431-502 | The whole answer or nothing, the invariant is kept, and the new family has exactly the sender and the recipient |
| Families.FamilyDatabase.LeaveFamily | src/modules/families/families.service.ts:118-143 | With nothing interleaved the membership is removed, the invariant is kept, and the family is archived if and only if it is empty |

## Left out

- Hashes: SHA-256 of a request is the request itself, that is, an injective function; a private
  invitation is known by its token hash.
- Titles, names, audit rows, notifications and localized texts carry no property here. What else a
  ledger request hashes (the note, how the date is spelled) is one opaque text in the request. Report
  lines have no display order.
- Row order: queries without `orderBy` are folded in insertion order; the proved totals do not
  depend on it.
- Reports.UnboundedNamesAreRight: relies on that order; a database that returned a reversal before its
  expense could show the wrong name without bounds too, as Reports.NameIsAuthorsExactly tells.
- Memberships, roles and goal and wallet reads made before a transaction are parameters or part of
  its snapshot; staleness between such a read and its transaction is modelled where an event is
  split (ledger commands, recurring payments, outbox, idempotency, leaving a family) and nowhere else.
- Analytics.Balances and the other reports read one snapshot; concurrent writes during a report are
  not modelled.
- LedgerRuns.AdministerKeepsStore: does not model who created a category, a goal's title or the expected
  versions of goals and categories; any member may archive a category, which only adds behaviours.
- Outbox.OutboxTable.ProcessAvailable: one worker by itself, so that no claim is lost;
  LostClaimsAreContended and the run theorems cover several workers.
- Outbox.ClaimsAreSpaced: all workers share one clock, so skew between machines is not modelled.
- Families.InvitationsAreSound: cancelling and expiring are single atomic steps, a leave reads the
  membership, deletes it and counts in one and commits in another, and archiving by hand, restoring
  or dissolving a family and deleting an account are not modelled.
- QuietHours.AllowedIsLeastExactly: a zone has at most one change of offset.
- QuietHours.SkippedResolvesToJump: jumps of at most three hours, which is what the scan covers.
- LocalDate.ConfirmedIsTrichotomy: years from 1 on; Date.UTC's reading of the years 0 to 99 as 1900
  to 1999 and eras before year 1 are not modelled.
- CivilCalendar.AddMonthsLandsOn: dates are unbounded; the limit of the Date type and the signed
  six-digit years of ISO strings are not modelled.
- Offsets are whole minutes for quiet hours and whole seconds for local dates, and the time-zone
  database is not modelled.
- CanonicalJson.CanonicalTextIsTheMeaning: a finite number is the text it prints as, so that minus zero
  is zero, and the locale comparison of keys is a parameter.
- CalendarMerge.ProjectionIsFirst500: requires that the database breaks the ties between equal start
  times at its cut as the locale comparison of ids does; ProjectionIsFirst500Exactly does without, and
  that both orders agree on UUID text is not part of the model.
- Messenger.WalkVisitsHistoryOnce: the history does not change during the walk, and ids compare by
  code units, as UUID text does; membership of the conversation is taken as checked.
- Idempotency: a missing key, a malformed key and an anonymous caller are answered before the
  protocol starts.
- Providers (e-mail, push, Telegram), object storage, authentication, throttling and the
  maintenance jobs are not modelled: an outcome of theirs is a parameter.
- Budgets and categories as editable rows, tasks, shopping, meals, meetings, wishes and wellbeing are
  guarded updates of single rows and would only add easy members.
