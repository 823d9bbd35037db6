# Verified model of the EnvForge API core

This project models the parts of the EnvForge API server (`apps/api/src`) whose correctness depends on
state, order or arithmetic, and proves what they promise. Code that the server writes as in-place
updates (the calendar search, the task queue, the cache, code tables, session rows, counting and
scanning loops) is written as classes and methods with loops here, each proved against a
specification function. What interleaves at `await` points is a transition system: a state, an event
for each stretch of code between two awaits, and theorems about every run (`IsRun`). Expressions,
parsers and codecs are functions with lemmas. Time is an integer number of milliseconds that never
runs backwards.

Five groups:

1. **Cron** (`Calendar`, `CronSyntax`, `CronSearch`, `Scheduler`). The Gregorian calendar of ECMA-262
   section 21.4.1 with setter overflow, the five-field grammar, the jumping search proved equal to a
   minute-by-minute scan within 1700 iterations, and whole runs of the scheduler.
2. **Queues** (`TaskQueue`, `TaskRuns`, `EmailQueue`). One drain per connection, first in first out,
   exact positions, statuses that agree with the queue; mails conserved and attempts bounded.
3. **Storage** (`Store`, `Pagination`, `Moderation`, `RetryQueue`). The promise-chain lock and the cache
   under every update, keyset paging, the moderation state machine with its search index, and the two
   retry queues.
4. **Accounts** (`EmailCodes`, `Sessions`, `Base64`, `ResetToken`, `SecretBox`). Bounded guesses, sessions
   that reach full access only when earned, recovery codes that always add up, and the codecs of
   RFC 4648 sections 4 and 5.
5. **Transformations** (`FormValues`, `Redaction`, `MigrationLabels`). Conditional form fields, secret
   redaction as a framed edit, and labels printed by one module and read back by three.

`Text` holds the JavaScript string operations the others share. Theorems about runs are stated over events and
stored fields; lemmas named `...ByFields`, `...Exactly` or `...Meaning` say what the shared helpers decide without
naming them.

Where code and documentation differ, the model follows the code:

- day-of-month and day-of-week must both admit a day (`cron.ts:138-146`), unlike classic cron;
- `verifyCode` never answers "already used", because used rows are filtered out first
  (`auth/email-codes.ts:87-94`);
- a process stop between launching a scheduled run and writing the next slot makes that slot fire again
  unless the schedule is rewritten before a tick finds it due; the initialisation at the next start
  rewrites an enabled one, but `startScheduler` starts that and the first tick without waiting for either
  (`scheduler.ts:28-38`, `Scheduler.SlotRepeatsIffNotRewritten`);
- a plain read may fill the cache after an update has finished; an update that loads while that entry is
  fresh starts from the old document (`Store.SerialIffNoStaleLoad`);
- stopping the email timer strands mail that is queued with no drain active and no one-shot drain due,
  until more mail is queued or the timer starts again (`EmailQueue.StrandedIff`); a playbook run never
  looks at its cancel flag;
- a form condition that reads a later conditional field can give another outcome when the result is
  submitted again (`FormValues.FixedPointExactly`);
- a private key written on one line opens a block that only a later line can end, so the rest of the file
  may be dropped (`Redaction.TailIsLostIff`);
- hiding a comment after reports leaves its search rows in place until a sync of one of its entries
  succeeds or it is deleted (`Moderation.ReportHidesIndexedIff`, `Moderation.HiddenRowsStayUntilCleared`),
  and re-indexing a comment can add a second row for it, because the search table has no unique key: the
  index is a sequence here;
- the exporter's `shellWord` drops `@` and `/`, the dry run's keeps them, so the two name different units
  for instance services (`MigrationLabels.ServiceSurvives`);
- enrolment-required sessions are never issued by the login code as it stands (`auth/local.ts:264`); the
  model lets a login demand enrolment, so the statements cover both.

## Model

| member | source | states |
|---|---|---|
| Calendar.YearIsUnique | apps/api/src/cron.ts:104-136 | the year a `Date` reports for a day is the only one whose days contain it |
| Calendar.MonthIsUnique | apps/api/src/cron.ts:104-136 | likewise for the month, so calendar fields are determined by the time value |
| Calendar.WeekDaysCycle | apps/api/src/cron.ts:144 | 1 January 1970 is a Thursday, week days run from 0 to 6 and each follows the one before |
| Calendar.EpochIsDayZero | apps/api/src/cron.ts:138-146 | day 0 is 1 January 1970 in year, month and date |
| Calendar.MonthLengths | apps/api/src/cron.ts:117-122 | every month has its 28, 29, 30 or 31 days, leap years by the rules of four, hundred and four hundred |
| Calendar.MakeDayMeetsStandard | apps/api/src/cron.ts:117-127 | the overflowing day of setUTCMonth and setUTCDate satisfies the defining condition of MakeDay in ECMA-262 |
| Calendar.MonthOverflow | apps/api/src/cron.ts:117-122 | one month past the first of a day's month is the next first, also from December and into short months |
| Calendar.MonthsGrow | apps/api/src/cron.ts:113-135 | months never run backwards and each takes at least 28 days, the measure behind the search bound |
| Calendar.UtcDate.SetUTCMonth | apps/api/src/cron.ts:117-122 | a month that holds the date is what the getters then return; year, date and clock stay; overflow is the day MakeDay gives |
| Calendar.UtcDate.SetUTCDate | apps/api/src/cron.ts:117-127 | a date the month holds is what the getter then returns; year, month and clock stay; overflow is the day MakeDay gives |
| Calendar.UtcDate.SetUTCHours | apps/api/src/cron.ts:117-127 | clock fields in range are what the getters then return, on the same day |
| Calendar.UtcDate.SetUTCHour | apps/api/src/cron.ts:128-132 | an hour in range is what the getter returns, on the same day; 24 is midnight of the next day; minutes and below stay |
| Calendar.UtcDate.SetUTCMinutes | apps/api/src/cron.ts:128-132 | fields in range are what the getters return; day and hour stay |
| Calendar.UtcDate.SetUTCMinute | apps/api/src/cron.ts:133 | a minute in range is what the getter returns; 60 is the next full hour; seconds and milliseconds stay |
| Calendar.UtcDate.SetUTCSeconds | apps/api/src/cron.ts:107-109 | seconds and milliseconds are set; day, hour and minute stay |
| CronSyntax.PieceRange | apps/api/src/cron.ts:53-85 | an accepted piece is a non-empty range inside the field's bounds with a positive step |
| CronSyntax.RangeSetMeaning | apps/api/src/cron.ts:86-88 | stepping through a range yields exactly lo, lo + step, ... up to hi |
| CronSyntax.AddSteps | apps/api/src/cron.ts:86-88 | the inner loop adds exactly the stepped values to the set |
| CronSyntax.ParseField | apps/api/src/cron.ts:50-91 | the loops over pieces compute the field's meaning or the leftmost error |
| CronSyntax.FieldMeaning | apps/api/src/cron.ts:50-91 | a field is accepted iff every piece is, and then is exactly the union of the stepped ranges, non-empty and in bounds |
| CronSyntax.PrintedItemParses | apps/api/src/cron.ts:53-85 | every documented form of a piece is read back as the range it denotes |
| CronSyntax.PrintedFieldParses | apps/api/src/cron.ts:50-91 | a printed list of pieces is read back as exactly the union of what they denote |
| CronSyntax.WordsJoin | apps/api/src/cron.ts:38-41 | words joined by single blanks are the fields the splitter finds |
| CronSyntax.ParsedIsWellFormed | apps/api/src/cron.ts:37-48 | every parsed expression has five non-empty sets within their bounds |
| CronSyntax.FailsAtFirst | apps/api/src/cron.ts:37-48 | which error an expression gets: its number of words unless five, else the first failing field and its error |
| CronSyntax.PrintedCronParses | apps/api/src/cron.ts:37-48 | a whole expression in the documented grammar parses to exactly what its items denote |
| CronSearch.ScanIsEarliest | apps/api/src/cron.ts:104-136 | the minute scan finds the earliest whole matching minute after a start, or none in the window |
| CronSearch.EarliestIsUnique | apps/api/src/cron.ts:104-136 | there is at most one such answer, so the specification fixes the result |
| CronSearch.EarliestByFields | apps/api/src/cron.ts:138-146 | the earliest match said by the five calendar fields alone: all five in their sets, and no earlier minute with all five |
| CronSearch.RestOfMonthFails | apps/api/src/cron.ts:117-122 | when the month is not admitted no minute up to the next first of month matches |
| CronSearch.RestOfDayFails | apps/api/src/cron.ts:123-127 | when the day is not admitted no minute up to midnight matches |
| CronSearch.RestOfHourFails | apps/api/src/cron.ts:128-132 | when the hour is not admitted no minute up to the next hour matches |
| CronSearch.Advance | apps/api/src/cron.ts:114-134 | one loop iteration moves strictly forward, skips no match and is charged to exactly one counter |
| CronSearch.SearchLimit | apps/api/src/cron.ts:111-135 | months, days, 48 hour jumps and 120 minute steps bound the loop below 1700 iterations |
| CronSearch.Search | apps/api/src/cron.ts:104-136 | the jumping search returns what the plain minute scan returns, in at most 1700 iterations |
| CronSearch.NextRunAfter | apps/api/src/cron.ts:104-146 | fails iff the expression does not parse; else minute, hour, date, month and week day of the answer each lie in their own set, it lies after `from` and within 1464 days, and no earlier whole minute has all five; none iff no minute of the window has |
| Scheduler.NextIsEarliest | apps/api/src/scheduler.ts:130-141 | the slot computed for an accepted expression is its earliest match in the window |
| Scheduler.ScheduleStore.InitializeNextRunTimes | apps/api/src/scheduler.ts:130-141 | the startup loop gives a slot to exactly the enabled schedules that need one and touches no other |
| Scheduler.ScheduleStore.DueAt | apps/api/src/scheduler.ts:143-172 | a tick's snapshot holds exactly the stored schedules that are enabled and whose slot is no later than the tick, each once |
| Scheduler.ScheduleStore.Settle | apps/api/src/scheduler.ts:174-254 | settling writes status, run time and next slot of that schedule only |
| Scheduler.SnapshotIsExact | apps/api/src/scheduler.ts:143-172 | in every run a tick's snapshot holds exactly the stored schedules that are enabled with a slot no later than the tick, each once |
| Scheduler.FiredWasEnabled | apps/api/src/scheduler.ts:143-172 | every fire belongs to a schedule its tick found stored, enabled and due, with that slot and expression |
| Scheduler.TickFiresItsSnapshot | apps/api/src/scheduler.ts:143-172 | an uninterrupted tick works through its snapshot: what it has fired, then what is left, is the snapshot in order |
| Scheduler.InitialiseMeaning | apps/api/src/scheduler.ts:130-141 | initialising gives exactly the enabled schedules without a future slot their earliest match after now and changes nothing else |
| Scheduler.SettleMeaning | apps/api/src/scheduler.ts:174-254 | a settlement writes run time, status and the earliest match after now into its schedule and touches no other |
| Scheduler.EditMeaning | apps/api/src/routes.ts:2612-2650 | an edit changes what the request names; only a new expression brings a new slot, its earliest match after now |
| Scheduler.CreateMeaning | apps/api/src/routes.ts:2577-2610 | a created schedule is stored under a new id with the earliest match of its expression |
| Scheduler.StepKeepsInv | apps/api/src/scheduler.ts:130-254 | every step of ticks, routes, process stops and starts keeps the scheduler invariant |
| Scheduler.SlotsStrictlyIncrease | apps/api/src/scheduler.ts:143-254 | slots strictly increase between fires with a rewrite in between, and there always is one unless a process stop cuts a fire off |
| Scheduler.NoMatchIsSkipped | apps/api/src/scheduler.ts:143-254 | for a schedule whose fires are never cut off, each fired slot is the earliest match after a write later than all earlier fires, and a settling write settles the fire just before |
| Scheduler.SettleLeavesEarliest | apps/api/src/scheduler.ts:174-254 | after a fire the next slot is the earliest match of the current expression, whatever was edited in between |
| Scheduler.StoredSlotIsEarliest | apps/api/src/routes.ts:2577-2650 | in every state each stored slot is the earliest match after its last write, so no slot means no match in the window |
| Scheduler.SlotRepeatsIffNotRewritten | apps/api/src/scheduler.ts:130-254 | process stops included: fired slots never decrease, and a later fire repeats a slot iff nothing rewrote the schedule between the two snapshots |
| Scheduler.WriteStaysIff | apps/api/src/scheduler.ts:130-254 | a schedule keeps its stored slot exactly as long as no settlement, new expression, initialisation or deletion rewrites it |
| Scheduler.InitialiseMovesOn | apps/api/src/scheduler.ts:130-141 | after a stop during a fire, the initialisation at the next start moves an enabled schedule beyond the slot just fired |
| Scheduler.CrashRefires | apps/api/src/scheduler.ts:143-254 | a repetition is reachable: create, tick, launch, stop, tick, launch are all enabled and fire one slot twice |
| Scheduler.FiredSlotIsEarliest | apps/api/src/scheduler.ts:143-254 | every fired slot is the earliest match after the write that produced it, never fired early |
| TaskQueue.SpliceIsWithout | apps/api/src/task-queue.ts:82-92 | splicing at the found index removes exactly that entry |
| TaskQueue.Queue.DrainLoop | apps/api/src/task-queue.ts:40-67 | the drain's stretch between awaits skips flagged heads, starts the next one or ends the drain |
| TaskQueue.Queue.EnqueueTask | apps/api/src/task-queue.ts:29-38 | returns the number of tasks ahead, appends, and starts a drain iff none is active |
| TaskQueue.Queue.Resume | apps/api/src/task-queue.ts:40-67 | the drain goes on after a task has ended |
| TaskQueue.Queue.CancelQueuedTask | apps/api/src/task-queue.ts:82-92 | removes a waiting entry and flags it; anything else is left alone |
| TaskQueue.FlaggedHeadIsDropped | apps/api/src/task-queue.ts:50-54 | in any state a flagged head is dropped with its flag and the drain does what it would have done without it |
| TaskQueue.StartsFirstUnflagged | apps/api/src/task-queue.ts:44-58 | the drain starts the first unflagged entry, or ends with none left |
| TaskRuns.StepKeepsInv | apps/api/src/executor.ts:60-283 | enqueue, finish, resume and cancel, in any interleaving, keep queue, drains and statuses consistent |
| TaskRuns.OneRunningPerConnection | apps/api/src/task-queue.ts:40-67 | at most one task per connection is between start and end |
| TaskRuns.NoLostWakeUp | apps/api/src/task-queue.ts:29-67 | a non-empty queue always has an active drain that will look at it again |
| TaskRuns.StartOrderIsEnqueueOrder | apps/api/src/task-queue.ts:29-92 | started then waiting tasks are the enqueued ones in order minus the cancelled; enqueued = waiting + started + cancelled |
| TaskRuns.SkipNeverTaken | apps/api/src/task-queue.ts:50-54 | with distinct ids no waiting entry is flagged, so the skip branch is dead |
| TaskRuns.StatusAgreesWithQueue | apps/api/src/executor.ts:96-165 | queued iff waiting, running iff a drain awaits it, cancelled while queued means never started |
| TaskRuns.TerminalStatusIsFinal | apps/api/src/executor.ts:203-283 | succeeded, failed and cancelled tasks keep their status for ever |
| TaskRuns.EndsAsItsRunSays | apps/api/src/executor.ts:83-283 | succeeded iff its run went fine and it was no flagged batch at its end; failed iff its run threw, or went wrong without a flagged batch; cancelled iff cancelled while waiting, or a flagged batch whose run did not throw |
| TaskRuns.FlagMeaning | apps/api/src/executor.ts:203-283 | a cancel flag is up iff some cancellation raised it and no end of a batch's run has lowered it since |
| TaskRuns.PositionCountsAhead | apps/api/src/task-queue.ts:29-38 | the returned position counts the running task and those waiting |
| TaskRuns.PositionIsExact | apps/api/src/task-queue.ts:28-54 | an uncancelled entry starts right after exactly the uncancelled tasks that were ahead, and nothing enqueued later starts first |
| EmailQueue.DeliverItem | apps/api/src/email/queue.ts:155-227 | the retry loop stops at the first success or after three attempts, with the documented pauses |
| EmailQueue.BoundedAppend | apps/api/src/email/queue.ts:229-252 | trimming the log as one goes keeps the same last 200 entries |
| EmailQueue.MailsAreConserved | apps/api/src/email/queue.ts:67-153 | accepted = closed, in delivery, queued, in order, with at most one drain |
| EmailQueue.AttemptsAreBounded | apps/api/src/email/queue.ts:155-252 | in every run a mail is handed to the transport at most three times, its log entry counts exactly those calls and closes it as the retry loop prescribes; the log is the last 200 closings |
| EmailQueue.LogIsRecent | apps/api/src/email/queue.ts:229-252 | the stored log is all closings or exactly the last two hundred |
| EmailQueue.StepCloses | apps/api/src/email/queue.ts:155-227 | a mail is closed with the transport's last word and its number of calls, when that is yes or the third no; a failed call otherwise only leads to a pause and one more attempt |
| EmailQueue.StepTakes | apps/api/src/email/queue.ts:67-153 | queueing asks for one drain unless the timer is on, and every drain takes the first mail or ends, handing it over once or printing it without SMTP |
| EmailQueue.NoLostWakeUp | apps/api/src/email/queue.ts:114-153 | something is due to empty a non-empty queue in every run whose timer stops miss the stranding guard or are followed by queueing or a start |
| EmailQueue.StrandedIff | apps/api/src/email/queue.ts:114-153 | queued mail has no wake-up coming iff the timer was stopped with mail queued, no drain active and no one-shot drain due, and nothing was queued or started since |
| EmailQueue.StopStrands | apps/api/src/email/queue.ts:123-127 | stranding is reachable: start the timer, queue a mail, stop the timer |
| Store.Mutex.Acquire | apps/api/src/runtime-store.ts:635-648 | each call gets its own gate and awaits the chain of all earlier ones |
| Store.Mutex.Release | apps/api/src/runtime-store.ts:635-648 | after it, a caller may go on iff every earlier holder but this one had released |
| Store.ChainResolved | apps/api/src/runtime-store.ts:635-648 | a chained promise is resolved iff every earlier gate is open |
| Store.Mutex.EntersAfterAllEarlier | apps/api/src/runtime-store.ts:635-648 | a caller may go on iff every earlier holder has released |
| Store.SafeJsonStore.Read | apps/api/src/db-store.ts:21-40 | a fresh cache answers, else the row is fetched and cached; a coherent store reads its row and stays coherent |
| Store.LoadIsRead | apps/api/src/db-store.ts:21-40 | in a run an update loads, and leaves cached, exactly what a read of the cached store gives on the same row, cache and clock: the cached document while younger than the time limit, else the row |
| Store.FetchAndFill | apps/api/src/db-store.ts:21-40 | a reader goes to the database iff nothing young enough is cached, takes the row as it is and caches that later |
| Store.StoredAndCached | apps/api/src/db-store.ts:42-70 | among the other steps only an update's insert changes the row, its refresh caches the same document with the current time, and invalidating empties the cache |
| Store.SafeJsonStore.Write | apps/api/src/db-store.ts:42-64 | whatever was cached, every later reader is given what was written |
| Store.SafeJsonStore.Invalidate | apps/api/src/db-store.ts:67-70 | whatever was cached, every later reader is given the stored row |
| Store.SerialDecide | apps/api/src/runtime-store.ts:667-677 | deciding one more update applies its callback once to the serial result so far |
| Store.MutualExclusion | apps/api/src/runtime-store.ts:667-677 | update callbacks never overlap and enter in acquire order |
| Store.UpdatesAreSerial | apps/api/src/runtime-store.ts:652-677 | without stale loads the stored document is the sequential composition of the callbacks in acquire order |
| Store.CallbackSeesLatest | apps/api/src/runtime-store.ts:667-677 | without stale loads a callback is given the document still current when it runs |
| Store.SerialIffNoStaleLoad | apps/api/src/runtime-store.ts:652-677 | with readers filling the cache at any time, all updates load the serial result so far iff none loads while the cache is fresh and differs from the stored row |
| Store.StaleFillLosesUpdate | apps/api/src/db-store.ts:21-40 | a stale load is reachable through enabled steps: fetch, update, fill, update lose the first update |
| Store.CurrentFillsSuffice | apps/api/src/db-store.ts:21-40 | if readers fill the cache only with the current row, no update ever loads a stale document |
| Pagination.LessIsTotal | apps/api/src/runtime-store.ts:809-864 | the string order of the query is total and strict |
| Pagination.LessMeaning | apps/api/src/runtime-store.ts:828-832 | the string order: a proper prefix is less, else the first differing character decides |
| Pagination.KeyOrder | apps/api/src/runtime-store.ts:809-864 | the cursor condition on (created_at, id) is a strict total order |
| Pagination.QueryMeaning | apps/api/src/runtime-store.ts:809-864 | the query lists exactly the kept rows below the cursor, strictly descending |
| Pagination.ListingByColumns | apps/api/src/runtime-store.ts:828-832 | rows come newest first: later creation time first, equal times by the larger id; with a cursor exactly the kept rows older than it by the same two columns |
| Pagination.DescendingIsUnique | apps/api/src/runtime-store.ts:809-864 | there is only one such listing |
| Pagination.RestOfQuery | apps/api/src/runtime-store.ts:809-864 | restarting below the last row of a page yields exactly what the page left out |
| Pagination.PageMeaning | apps/api/src/runtime-store.ts:1229-1269 | everything a page leaves out lies below its next cursor |
| Pagination.PagesJoinToListing | apps/api/src/runtime-store.ts:809-864 | for every table and page size the pages end and join to exactly the sorted, filtered listing |
| Pagination.ScanIsExact | apps/api/src/runtime-store.ts:1391-1455 | with changes between pages no row appears twice and every row listed throughout appears |
| Pagination.CommentPageIsSafe | apps/api/src/runtime-store.ts:809-864 | an entry's page shows exactly comments of that entry that are public and undeleted, told by the columns, and keeps every page promise |
| Pagination.InboxPageIsOwn | apps/api/src/runtime-store.ts:1229-1269 | an inbox page shows exactly the user's own messages, told by the columns, and keeps every page promise |
| Pagination.SuggestionPageMatches | apps/api/src/runtime-store.ts:1391-1455 | a page of suggestions shows exactly those of the author and status asked for, an empty filter admitting all, and keeps every page promise |
| Pagination.InboxScanIsExact | apps/api/src/runtime-store.ts:1229-1269 | an inbox read while it changes shows no message twice and every message there throughout |
| Pagination.SuggestionScanIsExact | apps/api/src/runtime-store.ts:1391-1455 | the same for suggestions |
| Moderation.EscapeIsSafeAndLossless | apps/api/src/runtime-store.ts:736-743 | escaped text opens no markup and unescapes to the original |
| Moderation.StoredTextIsSafe | apps/api/src/runtime-store.ts:747-807 | in every run every stored comment and index row is free of markup characters and unescapes to the trimmed text submitted for it |
| Moderation.ReportByColumns | apps/api/src/runtime-store.ts:902-960 | a first report by this user is stored, and hides and flags the comment iff more than five of its reports are then pending; nothing else changes |
| Moderation.ResolveByColumns | apps/api/src/runtime-store.ts:988-1035 | deleting marks the comment and clears its index rows, keeping makes it public and queues one sync due at once; no other comment changes |
| Moderation.SyncByColumns | apps/api/src/runtime-store.ts:1037-1097 | a successful sync indexes the comment's text if it is public and undeleted and clears its rows otherwise; a failed one leaves the index alone |
| Moderation.StepKeepsInv | apps/api/src/runtime-store.ts:747-1097 | add, report, resolve and sync keep index and queue in step |
| Moderation.PublicCommentsAreCovered | apps/api/src/runtime-store.ts:747-1097 | every public undeleted comment is indexed, has an entry the worker will still take up, or one given up after exactly five attempts |
| Moderation.GivenUpIsNeverDue | apps/api/src/runtime-store.ts:1037-1097 | an entry given up is never taken up again |
| Moderation.SyncQueueKeepsDiscipline | apps/api/src/runtime-store.ts:1037-1097 | in the search-index queue pending means 0 attempts, retry 1 to 4, dead-letter exactly 5, at least 780 seconds after the first failure; at most five calls |
| Moderation.IndexIsFaithful | apps/api/src/runtime-store.ts:1037-1097 | every index row shows the current text of an existing, undeleted comment |
| Moderation.DeletedIsForEver | apps/api/src/runtime-store.ts:988-1035 | a deleted comment is never listed nor indexed again, also after a later "keep" |
| Moderation.SixReportsHide | apps/api/src/runtime-store.ts:902-960 | more than five pending reports hide a comment, five do not, and a repeated report does not count |
| Moderation.ReportHidesIndexedIff | apps/api/src/runtime-store.ts:902-960 | a report leaves a listed comment hidden yet indexed iff it brings the pending reports above five and the comment was indexed |
| Moderation.HiddenRowsStayUntilCleared | apps/api/src/runtime-store.ts:988-1097 | a hidden comment's index rows stay exactly until a successful sync of one of its entries or its deletion, and none comes back while it is hidden |
| Moderation.HiddenYetIndexed | apps/api/src/runtime-store.ts:747-1097 | such a state is reachable: add, sync, six reports by six users |
| RetryQueue.NotificationQueue.SelectDue | apps/api/src/runtime-store.ts:1136-1146 | selects distinct due rows, all of them unless the limit cuts off |
| RetryQueue.NotificationQueue.ProcessBatch | apps/api/src/runtime-store.ts:1148-1196 | the batch loop applies each result to the table in turn |
| RetryQueue.ProcessAllMeaning | apps/api/src/runtime-store.ts:1136-1197 | each row is updated from exactly its own result and the rest stay |
| RetryQueue.ProcessedByFields | apps/api/src/runtime-store.ts:1166-1196 | the k-th failure puts an item off by exactly 5, 25, 125 and 625 seconds, the fifth gives it up; success ends it |
| RetryQueue.StepByFields | apps/api/src/runtime-store.ts:1118-1197 | in every run a new item is due at once, and each processing follows that schedule and touches that item alone |
| RetryQueue.StatusTellsAttempts | apps/api/src/runtime-store.ts:1136-1197 | pending 0, retry 1 to 4, dead-letter exactly 5 attempts; at most five sender calls |
| RetryQueue.DeadLetterTakesTime | apps/api/src/runtime-store.ts:1136-1197 | dead-lettering comes at least 780 seconds after the first failure |
| EmailCodes.KeptMembers | apps/api/src/auth/email-codes.ts:173-187 | pruning keeps exactly unused unexpired codes and those used within 24 hours |
| EmailCodes.CleanupKeeps | apps/api/src/auth/email-codes.ts:134-143 | the periodic clean-up keeps exactly the unexpired codes, used or not, in their order |
| EmailCodes.CodeTable.PruneExpiredInPlace | apps/api/src/auth/email-codes.ts:173-187 | the backward splicing loop yields the kept codes in order |
| EmailCodes.CodeTable.IssueVerificationCode | apps/api/src/auth/email-codes.ts:37-71 | appends an unused code without attempts for this address, purpose and hash that expires ten minutes after its issue, and prunes |
| EmailCodes.Freshest | apps/api/src/auth/email-codes.ts:87-94 | the unused matching code with the latest expiry, first one on ties |
| EmailCodes.VerdictByFields | apps/api/src/auth/email-codes.ts:87-128 | by fields: not found iff no code is open, else the latest-expiring open code decides by expiry, attempts and hash |
| EmailCodes.ChangeByFields | apps/api/src/auth/email-codes.ts:96-128 | only that code changes: a wrong guess counts one attempt, success and lock-out mark it used, expiry changes nothing |
| EmailCodes.VerifiedIsOwn | apps/api/src/auth/email-codes.ts:73-128 | who is verified, when nothing is found, and that other addresses and purposes keep their codes |
| EmailCodes.CodeTable.VerifyCode | apps/api/src/auth/email-codes.ts:73-128 | prunes and decides; a verified code had the submitted address, purpose and hash, was unused and unexpired; nothing found iff no unused unexpired code of that address and purpose; no code of another address or purpose changes |
| EmailCodes.GuessesAreBounded | apps/api/src/auth/email-codes.ts:73-128 | in every run the wrong guesses a code absorbs are at most five and its successes at most one, counted over the verifications themselves |
| EmailCodes.UnusedHasAttemptsLeft | apps/api/src/auth/email-codes.ts:103-120 | an unused code has had fewer than five attempts, and its counter is exact |
| EmailCodes.VerdictIsDecided | apps/api/src/auth/email-codes.ts:73-128 | when a verification of a run answers not found, expired, wrong code, too many attempts and verified, said by the fields of the chosen code; "already used" is never among them |
| EmailCodes.UsedIsNeverSelected | apps/api/src/auth/email-codes.ts:87-94 | no verification touches a used code |
| Sessions.AuthTables.RotateSession | apps/api/src/auth/session.ts:141-164 | the splice and push: old row out, full row for the same user in, or nothing |
| Sessions.RotationIsLocal | apps/api/src/auth/session.ts:141-164 | rotation retires the old token, grants the new one to the same user and changes no other token's answer |
| Sessions.AuthTables.CleanupExpiredIntermediateSessions | apps/api/src/auth/login-2fa.ts:136-147 | what is left are exactly the full sessions and the restricted ones still running, and the dropped ones are counted |
| Sessions.AuthTables.GenerateRecoveryCodes | apps/api/src/auth/totp.ts:204-210 | the loop makes eight codes, each accepted later by its stored hash |
| Sessions.AuthTables.Confirm | apps/api/src/auth/totp.ts:203-225 | turns 2FA on with eight fresh hashes; an unknown user is left alone |
| Sessions.AuthTables.RegenerateRecoveryCodes | apps/api/src/auth/totp.ts:292-311 | replaces all hashes iff 2FA is on |
| Sessions.AuthTables.Disable | apps/api/src/auth/totp.ts:274-286 | afterwards no second factor of this user is accepted, and other users keep theirs |
| Sessions.AuthTables.ConsumeRecoveryCode | apps/api/src/auth/totp.ts:249-264 | splices out the first matching hash iff 2FA is on |
| Sessions.SpentIsGone | apps/api/src/auth/totp.ts:249-264 | exactly one hash goes, and a code that was there once cannot be used again |
| Sessions.SpentIffAccepted | apps/api/src/auth/login-2fa.ts:96-106 | a recovery code is spent iff the login goes on |
| Sessions.SpellingDoesNotMatter | apps/api/src/auth/totp.ts:105-110 | hyphens and letter case do not change what is hashed |
| Sessions.PrintedIsRecognised | apps/api/src/auth/login-2fa.ts:57-59 | a printed code is taken for a recovery code and hashes as its sixteen symbols |
| Sessions.StepKeepsInv | apps/api/src/auth/local.ts:235-324 | logins, second factors, rotations and sweeps keep sessions and their origins consistent |
| Sessions.SweptMembers | apps/api/src/auth/local.ts:276-278 | the login, revocation and cleanup filters drop exactly the sessions they name |
| Sessions.SweepsExactly | apps/api/src/auth/local.ts:276-278 | which sessions each sweep keeps: the unexpired, those of other users, the full ones and those still running |
| Sessions.LoginWriteMeaning | apps/api/src/auth/local.ts:266-324 | a login drops expired rows and adds one session: full if the account it read had 2FA off, else pending for five minutes, or waiting for enrolment for fifteen |
| Sessions.SecondFactorMeaning | apps/api/src/auth/login-2fa.ts:96-108 | a call passes iff the account has 2FA on and the code is valid or stored, and an accepted recovery code is spent; no session changes |
| Sessions.SixDigitsAreTotp | apps/api/src/auth/login-2fa.ts:96-108 | a code is checked as a time-based one iff it is exactly six digits, even where it could be a recovery code |
| Sessions.RecoveryShapeExactly | apps/api/src/auth/login-2fa.ts:57-59 | exactly which codes are taken for recovery codes: letters and the digits 2 to 7 in groups joined by single hyphens, the first of at least four, unless six digits |
| Sessions.OpenedExactly | apps/api/src/auth/login-2fa.ts:84-93 | a second-factor call opens, for that user, iff the token names a live pending session of a known user |
| Sessions.EnrolmentOpensExactly | apps/api/src/routes.ts:1248-1254 | an enrolment call opens, for that user, iff the token names a live session of a known user that demands enrolment |
| Sessions.CallsOpenOnLiveSessions | apps/api/src/auth/login-2fa.ts:84-93 | in every run a call that checks a code or confirms an enrolment was opened on a limited session then alive |
| Sessions.ResolvesExactly | apps/api/src/auth/session.ts:116-131 | by default a web token resolves to a user iff it names that user's live full session; restricted sessions never do |
| Sessions.ApiResolvesExactly | apps/api/src/auth/session.ts:101-114 | an API token resolves to a user iff the first row under its hash is that user's, has no expiry or a later one, and the user is known |
| Sessions.UpgradedAtMostOnce | apps/api/src/auth/login-2fa.ts:75-129 | each limited session yields at most one full session, however calls race |
| Sessions.FullAccessIsEarned | apps/api/src/auth/session.ts:94-132 | a token resolves by default only after registration, a login with 2FA off, or a second factor accepted for the same user by the rotating call |
| Sessions.FullAccessByFields | apps/api/src/auth/session.ts:94-132 | the same told by the stored fields: a registration, a login that read 2FA off, a valid time-based or stored recovery code given while 2FA was on, or a confirmed enrolment |
| Sessions.GoodFactorGetsIn | apps/api/src/auth/login-2fa.ts:75-129 | conversely a valid code on a live pending session, then rotated, leaves a token that resolves to that user and retires the old one |
| Sessions.LimitedSessionsAreShort | apps/api/src/auth/session.ts:39-46 | in every run a pending session has at most five minutes left and an enrolment session at most fifteen |
| Sessions.RetiredTokenIsAnonymous | apps/api/src/auth/session.ts:94-164 | an upgraded token resolves to no session, whatever the route allows |
| Sessions.RecoveryCodesAreConserved | apps/api/src/auth/totp.ts:192-311 | codes left plus codes consumed since the last confirm or regenerate make eight while 2FA is on |
| Base64.UnpackSextets | apps/api/src/auth/password-reset.ts:293-305 | unpacking six-bit groups undoes packing |
| Base64.SextetsUnpack | apps/api/src/auth/password-reset.ts:293-305 | packing undoes unpacking iff no surplus bits are set |
| Base64.DecodeEncode | apps/api/src/crypto.ts:59-95 | base64 decoding undoes encoding, padding included |
| Base64.EncodingOrder | apps/api/src/crypto.ts:59-95 | sextets carry the bits of their bytes in order, the alphabet is that of RFC 4648 and padding fills the last group of four |
| Base64.DecoderAccepts | apps/api/src/auth/password-reset.ts:297-305 | the strict decoder accepts exactly non-empty alphabet texts of possible length |
| Base64.UrlRoundTrip | apps/api/src/auth/password-reset.ts:293-305 | `fromBase64url` undoes `base64url` for every non-empty byte string; no dot is produced |
| Base64.UrlCanonical | apps/api/src/auth/password-reset.ts:293-305 | re-encoding an accepted text gives it back iff it is canonical |
| ResetToken.VerifySigned | apps/api/src/auth/password-reset.ts:249-291 | a signed token verifies to the same id and time |
| ResetToken.AcceptedExactly | apps/api/src/auth/password-reset.ts:257-291 | exactly which tokens are accepted, and with which payload |
| SecretBox.DecryptEncrypt | apps/api/src/crypto.ts:59-95 | decryption undoes encryption through the offsets, empty text included |
| SecretBox.DecryptOpensExactly | apps/api/src/crypto.ts:74-95 | exactly which stored values decrypt to a text |
| FormValues.ValidateAndNormalise | apps/api/src/catalog-vars-schema.ts:272-306 | the two passes compute the specified values and errors |
| FormValues.KeptValuesAreValid | apps/api/src/catalog-vars-schema.ts:272-360 | only schema keys survive, errors mark exactly visible invalid fields, kept values pass validation |
| FormValues.KeptValueComesFrom | apps/api/src/catalog-vars-schema.ts:278-292 | a kept value is what was submitted, else the default, else a generated password, else nothing |
| FormValues.KeptByFields | apps/api/src/catalog-vars-schema.ts:294-304 | a field without a condition is kept; one that compares an earlier field with a text is kept iff that field was kept with an equal value, or the reverse if negated |
| FormValues.AcceptsExactly | apps/api/src/catalog-vars-schema.ts:308-350 | exactly which values each of the six types of field accepts, and blanks iff the field is optional |
| FormValues.RejectsExactly | apps/api/src/catalog-vars-schema.ts:308-350 | which error a rejected value gets |
| FormValues.SameDecisions | apps/api/src/catalog-vars-schema.ts:288-304 | inputs that agree on what is shown take the same decisions, if no read ahead tells them apart |
| FormValues.NormalisedIsFixedPoint | apps/api/src/catalog-vars-schema.ts:272-306 | when every condition reads an earlier field, a name outside the schema or a field without a condition, normalising again changes nothing |
| FormValues.FixedPointExactly | apps/api/src/catalog-vars-schema.ts:272-306 | for any schema and submission: normalising again changes nothing iff no condition that reads ahead is decided differently by what a dropped field falls back to |
| FormValues.LookingAheadCanBreak | apps/api/src/catalog-vars-schema.ts:272-306 | reading ahead can break the fixed point: a schema and a submission where it does |
| FormValues.ConditionParses | apps/api/src/catalog-vars-schema.ts:362-380 | every documented condition is read as written |
| FormValues.HiddenUnlessEqual | apps/api/src/catalog-vars-schema.ts:362-380 | a condition on a bare or quoted text hides its field unless the variable loosely equals that text, or if it does when negated |
| FormValues.HiddenUnlessTruth | apps/api/src/catalog-vars-schema.ts:362-380 | a condition on `true` or `false` holds iff the variable is that truth value or converts to 1 or 0 |
| FormValues.HiddenUnlessNumber | apps/api/src/catalog-vars-schema.ts:362-380 | a condition on any written number holds iff the variable converts to that number |
| FormValues.NumericExactly | apps/api/src/catalog-vars-schema.ts:367-370 | a right-hand side is a number iff it is digits with an optional sign and an optional fraction |
| FormValues.BlankRightSide | apps/api/src/catalog-vars-schema.ts:362-364 | a right-hand side of nothing but blanks is the last one that ends no line, and none without such |
| FormValues.PortAcceptsExactly | apps/api/src/catalog-vars-schema.ts:308-360 | a port accepts exactly whole numbers from 1 to 65535, and blanks when optional |
| FormValues.GeneratePassword | apps/api/src/catalog-vars-schema.ts:383-390 | one alphabet character per random byte |
| Redaction.ScanAndRedact | apps/api/src/sensitive-scan.ts:151-237 | the flagged scanning loop computes the specified lines and hits |
| Redaction.BlockMeaning | apps/api/src/sensitive-scan.ts:163-182 | a line is inside a key block iff an earlier line opens one and no line in between ends it |
| Redaction.TailIsLostIff | apps/api/src/sensitive-scan.ts:163-182 | a key block swallows the rest of the file iff no later line but perhaps the last ends it |
| Redaction.OutputIsFramed | apps/api/src/sensitive-scan.ts:151-237 | output lines come in order from exactly the lines outside blocks |
| Redaction.LineKeepsItsFrame | apps/api/src/sensitive-scan.ts:171-230 | a surviving line is unchanged, the one block line, or differs only in its value span |
| Redaction.TagIsPlaceholder | apps/api/src/sensitive-scan.ts:133-146 | a tag counts as a placeholder, so replacing always changes the line |
| Redaction.PlaceholderExactly | apps/api/src/sensitive-scan.ts:133-146 | exactly which values are worth hiding: long enough, no common placeholder, irregular, not in angle brackets and no variable reference |
| Redaction.SecretsAreReplaced | apps/api/src/sensitive-scan.ts:184-230 | a line is edited by a rule iff it is ordinary and that is the first single-line rule to find a value worth hiding, which then gives way to the rule's tag |
| Redaction.MarkersExactly | apps/api/src/sensitive-scan.ts:163-171 | exactly which lines open or end a key block |
| Redaction.CommentsExactly | apps/api/src/sensitive-scan.ts:184-188 | exactly which lines are comments |
| Redaction.WrittenLinesSplit | apps/api/src/sensitive-scan.ts:153 | lines ended by line feeds, with or without carriage returns, are read back as the lines written |
| Redaction.ReportedIffChanged | apps/api/src/sensitive-scan.ts:171-230 | outside blocks a line is reported iff it was changed |
| Redaction.HitsDescribeEdits | apps/api/src/sensitive-scan.ts:171-227 | every hit describes one edit, in strictly increasing line order |
| Redaction.EditsAreReported | apps/api/src/sensitive-scan.ts:171-227 | every edit has its hit |
| Redaction.NoKeyHeaderSurvives | apps/api/src/sensitive-scan.ts:163-230 | no output line contains a private-key header |
| Redaction.RedactedTextSplitsBack | apps/api/src/sensitive-scan.ts:233-236 | the joined text splits back into exactly the output lines |
| Redaction.CleanFileIsUntouched | apps/api/src/sensitive-scan.ts:151-237 | a file without hits comes back unchanged, up to carriage returns |
| MigrationLabels.RecommendedActions | apps/api/src/migration-classifier.ts:196-210 | the pushing loops print exactly the rule's intents in order |
| MigrationLabels.KindsSurvive | apps/api/src/migration-classifier.ts:212-221 | every printable label is classified back to the intended kind |
| MigrationLabels.ReadBack | apps/api/src/migration-dry-run.ts:109-112 | what is read after the first colon is the trimmed command |
| MigrationLabels.ValidationSurvives | apps/api/src/migration-verify.ts:58-71 | dry run, verification and exporters get the exact command iff it is trimmed and non-empty |
| MigrationLabels.ServiceSurvives | apps/api/src/migration-exporter.ts:110-118 | every reader gets the trimmed service name, or none if it is blank; the two `shellWord`s agree iff it has no `@` or `/` |
| MigrationLabels.InstallNameSurvives | apps/api/src/migration-exporter.ts:92-99 | the exporter gets the display name back iff it does not start with a blank |
| MigrationLabels.InstallNameExactly | apps/api/src/migration-exporter.ts:92-93 | the fixed words are cut in any letter case but only before a blank; any other label is taken whole |
| MigrationLabels.ExportsByFields | apps/api/src/migration-exporter.ts:91-160 | what the exporters emit for an action by its kind, label and own command |
| MigrationLabels.InstallCommandIsExact | apps/api/src/migration-dry-run.ts:97-107 | a source:name id is cut at its first colon, colons in the name included |
| MigrationLabels.InstallersBySource | apps/api/src/migration-dry-run.ts:97-107 | the installer text of each package source, apt for any other and for ids without a colon; an empty name falls back to the item's own |
| MigrationLabels.InstallStepUsesId | apps/api/src/migration-dry-run.ts:50-57 | an install step runs the installer for the id of its item, not for its display name |
| MigrationLabels.WordsKeepSafeCharacters | apps/api/src/migration-dry-run.ts:114-116 | exactly which characters the two `shellWord`s keep, one by one and in order |
| MigrationLabels.LabelTexts | apps/api/src/migration-classifier.ts:203-208 | the sentences that carry a name or a command |
| MigrationLabels.PrintedStepsAreRunnable | apps/api/src/migration-dry-run.ts:39-95 | printed plans have no blocked step, and exactly which steps would run |
| MigrationLabels.BuildDryRun | apps/api/src/migration-dry-run.ts:26-37 | the counting loop counts each status, and the counts add up to the total |
| MigrationLabels.StepIdInjective | apps/api/src/migration-dry-run.ts:39-47 | a step id determines its item and its position |
| MigrationLabels.StepsAreDistinct | apps/api/src/migration-dry-run.ts:26-47 | distinct item ids give distinct step ids |
| MigrationLabels.ChecksForItem | apps/api/src/migration-verify.ts:37-56 | the pushing loop yields the item's checks, with a manual one iff no command check exists |
| MigrationLabels.CheckIdInjective | apps/api/src/migration-verify.ts:58-87 | a check id determines item, kind of check and suffix |
| MigrationLabels.ChecksAreDistinct | apps/api/src/migration-verify.ts:25-87 | distinct item ids give distinct check ids |
| MigrationLabels.EveryItemIsChecked | apps/api/src/migration-verify.ts:37-56 | every item has a command check or the manual fallback |
| MigrationLabels.ChecksByFields | apps/api/src/migration-verify.ts:58-87 | an action's check: its label's command, else its own; required for validations, recommended for services, manual without one |
| MigrationLabels.FallbackExactly | apps/api/src/migration-verify.ts:37-56 | the manual check is there iff no check of the item runs a command, recommended for managed software |
| MigrationLabels.PlanIsExact | apps/api/src/migration-classifier.ts:88-103 | a plan holds exactly the candidates that are not ignored, excluded or skipped |
| MigrationLabels.PlanIsFilter | apps/api/src/migration-classifier.ts:88-103 | a plan is built candidate by candidate in order, one item per wanted one, carrying its id, name, class, decision and labels |
| MigrationLabels.PlanKeepsDistinct | apps/api/src/migration-classifier.ts:88-103 | distinct candidates make distinct items |

## Left out

- Scheduler.SlotsStrictlyIncrease: ticks of one process are taken not to overlap, as the timer code assumes; the order in which a tick visits due schedules is arbitrary.
- CronSyntax.ParseField: error texts are reduced to their kind.
- Calendar.MakeDayMeetsStandard: time values are unbounded; the limit of 8.64e15 milliseconds is not modelled.
- TaskRuns.StatusAgreesWithQueue: `healTaskStates`, which marks stored running and queued tasks as failed after a restart, is one filter over rows; history writes, webhooks and subscribers are not modelled either.
- EmailQueue.LogIsRecent: mails refused by the rate limit never reach the queue; the log entries written for them are not modelled.
- Store.UpdatesAreSerial: for an update, a store read and its cache fill are one step; there are no store errors; callbacks throw only before changing anything, and a callback changing its document in place does not show in the cached object before the write; normalising a loaded document and its JSON round trip are taken as the identity.
- Pagination.PagesJoinToListing: page size 0, where the code fails on an empty page, and the like counts joined to comments are not modelled.
- Moderation.PublicCommentsAreCovered: each SQL transaction is one step and there is one worker.
- RetryQueue.StatusTellsAttempts: one worker at a time; the senders themselves are parameters.
- RetryQueue.ProcessedByFields: a sent notification's row also gets the time it was sent in `next_retry_at`, which no query reads again; both queues share one success here, which leaves that column alone.
- EmailCodes.GuessesAreBounded: code generation and SHA-256 are parameters; two codes with one hash count as the same guess.
- Sessions.FullAccessIsEarned: passwords, OAuth and the time-based code check are parameters; random tokens are assumed never to repeat; pending enrolment rows and their ten-minute limit are not modelled, so a confirmation may come at any time; API tokens are only resolved, not issued.
- Base64.DecodeEncode: malformed base64 is modelled as skipping characters outside the alphabet, not the runtime's handling of text after padding.
- ResetToken.VerifySigned: JSON and HMAC are parameters with a round-trip and a non-empty-output assumption; requesting, confirming and cleaning up reset rows are left out.
- SecretBox.DecryptEncrypt: AES-GCM and UTF-8 are parameters that undo themselves; key loading is left out.
- FormValues.ConditionParses: pattern fields and number parsing go through an engine parameter; schema loading and `validateSchema` are left out.
- Redaction.LineKeepsItsFrame: the regular expressions of the single-line rules are parameters under the contract that a match is prefix, value and suffix in place; private-key markers, comments and placeholders are modelled exactly. Which secrets the rules recognise is not stated.
- MigrationLabels.BuildDryRun: fixed reason texts, sudo flags of steps and the severity totals of the verification preview are not modelled; confidence scoring, sorting and the Markdown and JSON exports are left out.
- Strings are sequences of Unicode characters; JavaScript counts UTF-16 units, which differs only in lengths outside the basic plane. Case folding covers ASCII letters.
- SSH, remote commands, probing, the playbook engine, OAuth state, email rate limiting and templates, the web client and static catalog data are not part of this model.
