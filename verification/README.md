# A verified model of the crew bus

The bus lets coding agents work on one code base together: they claim tasks under leases, take
advisory locks, post and read messages, ask each other questions and wait for the answers, and have
webhooks called about all of it. Its state is a Postgres database that several server processes share,
so most of what it promises is about interleavings: of statements whose `now()` is older than their
commit, of transactions that lock rows, of waiting calls that listen to a lossy event stream.

This project models that protocol in Dafny and proves what it promises over every input, every run or
every reachable state.

- Tables are maps, sequences and sets; one SQL statement or transaction is one guarded step.
- What a server object or a function does by changing state step by step is a class or a method with
  loops (`TaskStore`, `LockTable`, `OutboxTables`, `RateLimiter`, `MailTables`, `TeamStorage`, `Hook`,
  `SendBatch`, `WaitForUpdates`, `AwaitAnswer`, `ListAgents`). Each is proved against specification
  functions, mostly the very steps the run theorems are about, so those theorems are about what the
  methods do.
- What guards and filters admit and what statements write is said twice: once as the functions the run
  theorems are about, and once in columns, characters, seconds and counts, with a lemma that the two agree.
- Choices the database or the network makes (which of two equally old tasks, what commits when, how
  long a POST takes, where a grace window ends) are parameters or relations, never fixed.
- Callers are `Auth` values: a team, an agent and a session label; the shared session is `""`.
  Instants are integers in microseconds; only the rate limiter uses reals, in seconds.

| module | what it covers |
|---|---|
| Tasks, TaskRuns, TaskStores | the task pool: leases, completion, dependencies, draining |
| Locks | advisory locks |
| SkipLocked, ClaimPolicies | transactions that claim rows with SKIP LOCKED, and the bus's two uses of it |
| Scheduler, Outbox, OutboxStores | webhook deliveries: triggers, claims, the bounded sender, retries, retention |
| Dispatchers, LateSends | all replicas at work on one outbox: single flight derived from the sender, and when it fails |
| Messages, Waiting, WaitTools, Asking, Updating | messages, events, the rules that must agree, the two waiting calls, and each of them as a whole |
| Sessions, Reading, MailStores | session labels, addresses, read cursors, posting and reading |
| Limiter, LimiterRuns | the token-bucket rate limiter |
| Quota, QuotaStores | the attachment quota and pruning |
| Presence | folding presence rows into a list of agents |
| StopHook | the stop hook's bounded memory |
| Base, Text | shared vocabulary and ASCII strings |

## Where the code and its documentation differ

The model follows the code. Each difference is stated as a theorem or an explicit boundary of one.

- `complete_task` checks neither the holder nor the dependencies (`src/store/tasks.rs:658-673`). So
  a lease excludes other grants, not other completions: `LeaseExclusion` ends at anybody's completion.
  `AnotherSessionCompletes` and `BlockedTasksComplete` show both.
- `create_task` inserts the task and its dependency rows in separate statements
  (`src/store/tasks.rs:227-251`). `AClaimInTheGapIsPossible` gives the run in which the task is taken in
  between; `DependenciesAreFinishedFirst` is the exact condition under which nobody jumps the queue.
- The listing of locks and the guard of `acquire_lock` disagree at the very instant of expiry
  (`src/store/locks.rs:88`, `:207`): `UnlistedButRefused`. A takeover without a purpose also inherits
  the former holder's (`src/store/locks.rs:77`), which `Locks.Upserted` keeps.
- The answer to a refused claim or lock comes from a second statement with a clock of its own
  (`src/store/tasks.rs:429-434`, `src/store/locks.rs:103-139`). It may say that a refused task is open, or held
  by the caller itself, or by a session whose lease is over: `RefusalsAreHonest` and
  `UntouchedRefusalsAreHonest` are exact, and `ReleasedMeanwhile`, `ClaimedByItselfMeanwhile` and
  `LapsedMeanwhile` are the interleavings. `RefusedLocksAreExplained`, `ExpiredMeanwhile` and
  `RefusedReleasesAreExplained` are the same for locks.
- `mark_sent` and `mark_failed` look at nothing but the row's id (`src/webhooks.rs:95-148`). Finality of
  a delivery is a matter of timing. `Dispatchers` derives it from how replicas send, whenever the lag of a
  claim and four sends fit into the 60-second hold, and `FinalityNeedsFourSendsToFit` shows that it fails
  otherwise.
- The 600-second cap on the backoff is never reached (`src/webhooks.rs:116`): `CapIsNeverReached`.
- A read with `only_new` that hits its limit skips the older unread messages for good
  (`src/store/messaging.rs:596-677`): `EverythingIsReadUnlessCutOff` is an if-and-only-if, and
  `ACutOffReadSkips` names a message every cut-off read loses.
- The grace window excludes a caller's own messages by agent, the wait itself by session
  (`src/tools/events.rs:310-325`): `GraceIsNarrower`, and `TheGraceWindowDropsSiblings` for an input.
- `find_answer` promises the explicit reply, else the first direct message, but puts a reply to some
  other message before a plain one (`src/store/messaging.rs:444-445`, `:467`):
  `AnswerMeetsItsDocumentation` gives the exact condition, `APlainAnswerIsPassedOver` an input for every ask.
- `attach_to_message` checks the quota and inserts in separate statements
  (`src/store/attachments.rs:198-199`): `QuotaHoldsExactly` says when the limit is kept, `RacingAttachments`
  and `TheRaceExists` are the runs in which it is not.
- A message deleted while an upload holds the team's row lock makes room for its later files, so an upload
  may commit that did not fit at its first check (`src/store/messaging.rs:423-434`):
  `UploadsAreAllOrNothing` is exact about it, `DeletionsMakeRoom` is such a run.
- `prune` promises counts that are measured rather than estimated (`src/store/quota.rs:110-112`), but
  measures the freed bytes in an earlier statement. `TheMeasureIsExact` is the exact condition;
  `ALateAttachmentIsNotReported` and `TwoPrunesReportTwice` break it, one in each direction.
- The limiter reads its clock before it takes the mutex (`src/ratelimit.rs:82-83`). Its theorems are about
  requests that reach the map in time order; `AnEarlyStampRefillsTwice` shows what happens to others, and
  `WindowBoundOutOfOrder` bounds it.

## Model

| member | source | states |
|---|---|---|
| Tasks.LeaseSecs | src/store/tasks.rs:379-381 | a lease is between 30 seconds and a day, whatever was asked for; TaskRuns.LeasesInSeconds says which |
| Tasks.InvHoldsInitially | src/store/tasks.rs:243-251 | the pool invariant holds of the empty tables |
| Tasks.RowUpdateKeepsInv | src/store/tasks.rs:383-418 | overwriting a task row keeps the invariant as long as a claimed row has holder, session and lease |
| Tasks.InvIsKept | src/store/tasks.rs:201-251 | every statement keeps it: dependencies point to earlier tasks of the same team, so no cycles; every claimed task has a lease |
| TaskStores.NormalizeKey | src/store/tasks.rs:139-148 | an accepted key is trimmed, non-empty and at most 128 long; such keys are fixed points; everything else is an Invalid error |
| TaskStores.TaskStore.CreateTask | src/store/tasks.rs:162-255 | success exactly when nothing is wrong, otherwise the first thing wrong: key, title, description, metadata, an existing task, too many or bad dependencies; a success adds an open task with exactly the listed dependencies, as a run of one INSERT per row; a failure writes nothing |
| TaskStores.TaskStore.CheckCreate | src/store/tasks.rs:163-225 | the checks in their order, those of the fields included, before anything is written; then the dependencies without duplicates |
| TaskStores.TaskStore.ResolveDeps | src/store/tasks.rs:201-223 | the dependency keys resolve in order, and the first bad one decides the error |
| TaskStores.Dedup | src/store/tasks.rs:224-225 | the same elements, each once |
| TaskStores.TaskStore.InsertDeps | src/store/tasks.rs:243-251 | one statement per dependency, which together write exactly the dependencies of the new task |
| TaskStores.TaskStore.TryClaim | src/store/tasks.rs:378-418 | the table changes by exactly one Claim step, and it reports a claim exactly when that step grants it; a bad key or a refusal changes nothing |
| TaskStores.TaskStore.AnswerClaim | src/store/tasks.rs:420-450 | tells the caller the row as it is by then, or that there is none; the explanation of a refusal is honest, at every `now()`, exactly if the row it reads would be refused as well |
| TaskStores.RefusalsAreHonest | src/store/tasks.rs:420-484 | the explanation of a refusal is read by a second statement; it is honest (unfinished dependencies, another session whose lease is running, or a finished task) if and only if the state it is read from would have refused the claim as well |
| TaskStores.UntouchedRefusalsAreHonest | src/store/tasks.rs:420-484 | the second statement has a clock of its own: if nobody wrote the row in between, the explanation is honest if and only if the task is blocked by then, or finished, or the lease of the other session still runs at that clock |
| TaskStores.LapsedMeanwhile | src/store/tasks.rs:429-434 | if the lease runs out between the two clocks, the refused caller is told of a holder whose lease is over, although it could claim the task by then |
| TaskStores.ReleasedMeanwhile | src/store/tasks.rs:420-434 | if the holder releases the task in between, the refused caller is told that it is open |
| TaskStores.ClaimedByItselfMeanwhile | src/store/tasks.rs:429-434 | if another call of the same session claims the lapsed task in between, the caller is told that it is held by itself |
| TaskStores.TaskStore.ClaimNextTask | src/store/tasks.rs:508-575 | hands out an oldest available, unblocked task of the team, and answers none only when there is none |
| TaskStores.TaskStore.RenewLease | src/store/tasks.rs:577-610 | extends the lease exactly for the claiming session, expired or not, and keeps the claim time; a conflict changes nothing |
| TaskStores.TaskStore.ReleaseTask | src/store/tasks.rs:612-645 | reopens the task exactly for the claiming session, clearing holder and lease |
| TaskStores.TaskStore.CompleteTask | src/store/tasks.rs:647-688 | finishes any unfinished task of the team, whoever asks, with the trimmed result; a bad key, an oversized result, a missing or a finished task give the matching error and change nothing |
| TaskStores.CheckedResult | src/store/tasks.rs:653-656 | a result is accepted exactly up to 64 KiB, and stored trimmed |
| TaskStores.RunsCompose | src/store/tasks.rs:227-251 | a run of committed statements extended by one more is a run |
| TaskStores.CreatesInNumbers | src/store/tasks.rs:162-225 | create_task succeeds exactly with a key of 1 to 128 bytes not taken, a title that is not blank and at most 512, a description up to 64 KiB, metadata up to 16 KiB, and at most 32 dependencies that are other tasks of the team; a conflict is exactly a taken key |
| TaskStores.TheFirstBadEntryDecides | src/store/tasks.rs:201-223 | of the dependencies the first that is refused decides the error: not found for a key that names no task of the team, else invalid |
| TaskStores.DependenciesAreNamed | src/store/tasks.rs:201-223 | the dependencies written are the tasks that were named |
| TaskRuns.GrantMeansHolding | src/store/tasks.rs:383-418 | whoever is told until when it has a task holds it until exactly then |
| TaskRuns.HoldingPersists | src/store/tasks.rs:392-408 | no statement takes a held task from its holder, other than a takeover whose `now()` is past the lease |
| TaskRuns.NobodyElseWhileHeld | src/store/tasks.rs:392-408 | over any run, a task held until some instant is granted to another session only after it, unless given up or granted anew |
| TaskRuns.LeaseExclusion | src/store/tasks.rs:383-418 | once a session was told the task is its own until an instant, nobody else is granted it by a statement committing by then, unless it released it, somebody completed it or it was granted anew; statement clocks may lag arbitrarily behind commits |
| TaskRuns.FinishedIsFinal | src/store/tasks.rs:658-673 | a finished task keeps its row, result included, for ever and is never granted again |
| TaskRuns.AnotherSessionCompletes | src/store/tasks.rs:658-673 | any session of the team finishes a task whose lease is running, and the holder has lost it |
| TaskRuns.BlockedTasksComplete | src/store/tasks.rs:658-673 | a task is finished ahead of the dependencies it waits for |
| TaskRuns.OrderIsKept | src/store/tasks.rs:394-408 | one step: claimed tasks have finished dependencies, except for claims made before the dependency row was written |
| TaskRuns.OnlyEarlyClaimsJumpTheQueue | src/store/tasks.rs:227-251 | in every reachable state a claimed task with an unfinished dependency was claimed between its INSERT and that dependency's INSERT, while the dependency was unfinished |
| TaskRuns.DependenciesAreFinishedFirst | src/store/tasks.rs:522-529 | exactly: all dependencies of every claimed task, written or not, are finished in every state of a run if and only if each claim of a task whose dependency rows are still to be written found those dependencies finished |
| TaskRuns.OneStepIsInOrder | src/store/tasks.rs:394-408 | the same of one statement: it breaks the order exactly by such a claim |
| TaskRuns.WithoutAGapDependenciesAreFinishedFirst | src/store/tasks.rs:227-251 | with create_task as one step no claim falls into the gap, and the order is kept |
| TaskRuns.DependenciesFromTheStart | src/store/tasks.rs:227-251 | from the empty tables: the pool invariant, no claim ahead of its dependencies but those in the gap, and the same if-and-only-if |
| TaskRuns.AClaimInTheGapIsPossible | src/store/tasks.rs:227-251 | for any two callers of a team, a run from the empty tables in which one claims the other's task in that gap |
| TaskRuns.NextNeverAnswersNone | src/store/tasks.rs:517-551 | no deadlock: with all leases lapsed and something unfinished, claim_next_task answers with an unfinished task |
| TaskRuns.RoundFinishesOne | src/store/tasks.rs:658-673 | claiming the next task and completing it finishes that task and no other |
| TaskRuns.PoolDrains | src/store/tasks.rs:517-551 | as many rounds as there are unfinished tasks finish exactly those, none is answered none, each is handed out after its dependencies |
| TaskRuns.LeasesInSeconds | src/store/tasks.rs:379-381 | claims, by key or next, and renewals last 900 seconds if nothing was asked for, else what was asked for, at least 30 seconds and at most a day; the caller is told the instant the row says |
| TaskRuns.ClaimsWriteTheHolder | src/store/tasks.rs:383-418 | a grant writes holder, session and claim time of exactly that row, and no other column or row |
| TaskRuns.HoldersWriteTheirRow | src/store/tasks.rs:577-645 | the claiming session renews, which moves the lease alone, and releases, which clears every trace of the claim |
| TaskRuns.OthersDoNotWrite | src/store/tasks.rs:577-645 | for everybody else both do nothing |
| TaskRuns.CompletionsWriteTheResult | src/store/tasks.rs:658-673 | a completion writes status and result of an open or claimed task and ends its lease; on any other it does nothing |
| TaskRuns.ClaimsInColumns | src/store/tasks.rs:383-418 | a claim is granted exactly on a task whose dependencies are done or cancelled, and that is open, or whose lease is over, or that this very session has claimed |
| TaskRuns.NextInColumns | src/store/tasks.rs:517-551 | claim_next hands out exactly a task of the team that is open or lapsed, has its dependencies done and was created no later than any other such; and none exactly if there is none |
| TaskRuns.InsertsInColumns | src/store/tasks.rs:227-242 | a new task is open, nobody's and created now, with its dependency rows still to be written |
| TaskRuns.DependencyRowsInColumns | src/store/tasks.rs:243-251 | each dependency row is written once; if the creator dies the rest is not written |
| TaskRuns.CreationIsForGood | src/store/tasks.rs:517-535 | no run changes when a task was created, so the order claim_next goes by is fixed |
| TaskRuns.GivingUpIsLosing | src/store/tasks.rs:612-673 | the releases and completions that end a lease in the exclusion theorem are exactly the statements after which the task is no longer claimed |
| Locks.NormalizeName | src/store/locks.rs:13-22 | accepts exactly what is non-empty and at most 128 long once trimmed, and returns it trimmed and in lower case |
| Locks.LockTable.TryAcquire | src/store/locks.rs:57-101 | acquires, takes over or extends exactly when the lock is free, expired or this session's own; otherwise the table stays as it was |
| Locks.LockTable.AnswerAcquire | src/store/locks.rs:103-140 | reports the outcome with the row as it is by then, which may be none; it names another holder of an unexpired lock, at every `now()`, exactly if acquiring would be refused as well |
| Locks.RefusedLocksAreExplained | src/store/locks.rs:103-140 | with a later clock: a refusal names another holder whose lock has not expired if and only if the table it is read from would refuse as well; if the row was not written in between, exactly until the lock expires |
| Locks.ExpiredMeanwhile | src/store/locks.rs:103-140 | if the lock expires between the two clocks, the caller is refused a lock it could acquire by then |
| Locks.ReleasedMeanwhile | src/store/locks.rs:116-139 | if the holder releases it in between, the caller is refused a lock that nobody holds |
| Locks.LockTable.TryRelease | src/store/locks.rs:143-163 | deletes the row exactly for the holding session, expired or not; otherwise nothing changes |
| Locks.LockTable.AnswerRelease | src/store/locks.rs:165-203 | after a DELETE without effect, a conflict exactly when the lock is listed by then; the holder it names is another session exactly unless this one could release the lock by then |
| Locks.RefusedReleasesAreExplained | src/store/locks.rs:165-203 | that conflict names another session, unless this very session acquired the lock between the two statements |
| Locks.UnlistedButRefused | src/store/locks.rs:205-216 | an unlisted lock is refused to another session only at the very instant it expires; a listed one always |
| Locks.HeldOrTakenLate | src/store/locks.rs:69-101 | between a grant and a later event the row is as granted, or was taken by a statement clocked after its expiry |
| Locks.LockExclusion | src/store/locks.rs:69-101 | over any run nobody else acquires a lock by the expiry told to its holder, unless that session released or re-acquired it |
| Locks.AcquiresInColumns | src/store/locks.rs:69-101 | a lock is to be had exactly if it is free, has expired, or is this session's own |
| Locks.LocksInSeconds | src/store/locks.rs:62-101 | it is held for five minutes, or as long as asked for between five seconds and a day, since now or since it was first acquired; the row names holder and session, and other locks stay |
| Locks.ReleasesInColumns | src/store/locks.rs:143-163 | a release takes the row of the session that holds it, and does nothing else |
| Locks.EventsWriteTheRow | src/store/locks.rs:57-163 | the events of a run that count as acquiring or releasing a lock are exactly those that write its row |
| SkipLocked.InvIsKept | src/store/tasks.rs:517-551 | no step of interleaved claiming transactions locks a row twice |
| SkipLocked.BatchesAreDisjoint | src/webhooks.rs:59-84 | in every reachable state the rows claimed by transactions in flight are pairwise disjoint |
| SkipLocked.NoneOnlyWhenAllLocked | src/store/tasks.rs:517-551 | an empty selection is possible exactly when every eligible row is locked by a transaction in flight |
| SkipLocked.StaysSpokenFor | src/store/tasks.rs:531-551 | a selected row stays locked, then out of reach for its hold, through every step that neither aborts the claim nor rewrites the row |
| SkipLocked.NotHandedOutTwice | src/store/tasks.rs:531-551 | a row handed out is selected again only by a claim that started more than the hold later |
| SkipLocked.ConcurrentClaimsDiffer | src/webhooks.rs:56-84 | the same between any two claims of a run, whichever transactions lie between them |
| SkipLocked.SkipsWhatIsLocked | src/store/tasks.rs:517-535 | a SELECT passes over exactly the rows in the batch of a transaction that has not ended |
| SkipLocked.EndsReleaseTheRows | src/store/tasks.rs:531-551 | a transaction that ends has its rows no longer; a commit writes exactly these |
| ClaimPolicies.TaskPolicyIsSound | src/store/tasks.rs:517-551 | a claimed task is ineligible for at least the minimum lease |
| ClaimPolicies.ClaimNextCallsDiffer | src/store/tasks.rs:506-551 | concurrent claim_next_task calls receive different tasks, whatever is written to the task in between that leaves it finished or leased for the minimum lease |
| ClaimPolicies.RenewalsAndCompletionsKeepTheLease | src/store/tasks.rs:577-688 | renewing and completing are such writes, whoever makes them and whatever lease is asked for |
| ClaimPolicies.DeliveryPolicyIsSound | src/webhooks.rs:71-75 | a claimed delivery is not due for 60 seconds |
| ClaimPolicies.DispatchersGetDisjointBatches | src/webhooks.rs:54-148 | any number of dispatchers receive disjoint batches: claims less than the hold apart share no row, unless a write in between made one due again |
| ClaimPolicies.UnlockedSelectIsTheAtomicClaim | src/store/tasks.rs:517-535 | with nothing locked, the locking selection allows exactly the answers of the atomic claim_next step |
| ClaimPolicies.UnlockedBatchIsTheAtomicClaim | src/webhooks.rs:59-69 | with nothing locked, it selects exactly the batches of the atomic delivery claim |
| Scheduler.SendBatch | src/webhooks.rs:150-193 | at most eight jobs run at once, in order; job k starts by floor(k/8) longest durations, so a batch of 32 is over within four |
| Scheduler.Refill | src/webhooks.rs:156-185 | spawning while there is room keeps the schedule and ends with eight running or nothing queued |
| Scheduler.EarliestIsSoonEnough | src/webhooks.rs:155-192 | of eight running jobs the first to finish does so before the next job's latest start |
| Scheduler.BatchEndsInTime | src/webhooks.rs:28-33 | every send of a scheduled batch of at most 32 ends within four longest durations |
| Outbox.CapIsNeverReached | src/webhooks.rs:114-116 | the backoff never exceeds 256 seconds, nor 32 before the last attempt, so the 600-second cap is dead |
| Outbox.BackoffDoubles | src/webhooks.rs:114-116 | retries wait two seconds, then twice as long each time |
| Outbox.NotInFlight | src/webhooks.rs:59-84 | a claimable row has no worker, when the budget is below the hold |
| Outbox.SingleFlightIsKept | src/webhooks.rs:59-148 | in runs whose outcomes are recorded within a budget below the hold, every step keeps: one worker per row, its row untouched since the claim; Dispatchers derives that budget |
| Outbox.FinishedRowsAreLeftAlone | src/webhooks.rs:95-148 | a sent or failed row has no worker whose outcome could overwrite it |
| Outbox.OneWorkerPerRow | src/webhooks.rs:56-84 | over any such run no row is ever being sent by two workers; Dispatchers.NoRowIsInFlightTwice is the same of replicas nobody hurries |
| Outbox.RowsNeverComeBack | migrations/0005_webhook_outbox.sql:44-66 | a removed row is never recreated |
| Outbox.FinalIsFinal | src/webhooks.rs:95-148 | sent and failed are absorbing over any such run, although the statements that record outcomes are unguarded; Dispatchers.SentAndFailedAreFinal is the same of replicas nobody hurries |
| Outbox.HooksExistIsKept | migrations/0005_webhook_outbox.sql:44-66 | every delivery row has its webhook in every run, so the join of a claim with webhooks drops no row |
| Outbox.FinalityNeedsTheBound | src/webhooks.rs:71-75 | a sent row can become pending again exactly when outcomes may be recorded as late as the 60-second hold; then even in runs whose claims take the first due rows in order, from a table whose rows have their webhooks |
| Outbox.AccountIsKept | src/webhooks.rs:113-134 | every step keeps: claims at most six plus unrecorded outcomes, and pending rows due within 60 seconds of their last update |
| Outbox.ClaimsAreBounded | src/webhooks.rs:113-134 | the same in every reachable state |
| Outbox.AttemptsCountClaims | src/webhooks.rs:70-75 | the attempts column counts the claims of the row, and nothing else changes it |
| Outbox.RowsLeaveOnlyFinishedOrWithTheirHook | src/webhooks.rs:195-208 | a row disappears only as a sent row older than a day, a failed row older than a week, or with its webhook |
| Outbox.OneRowPerMatchingHook | migrations/0005_webhook_outbox.sql:44-73 | a change adds exactly one row per matching enabled hook and touches no other; nothing is announced exactly for direct messages, status-preserving task updates and lock updates |
| Outbox.RowsAreAdded | migrations/0005_webhook_outbox.sql:44-66 | an announcement adds one row per enabled hook that subscribes to it, pending, never attempted and due at once, and leaves every other row as it was |
| Outbox.QueuedForItsTeam | migrations/0005_webhook_outbox.sql:44-66 | a change of a team is queued exactly for that team's enabled webhooks that subscribe to its kind and, for a message, have no channel filter or its channel; each row is pending and due at once |
| Outbox.OthersAreSilent | migrations/0005_webhook_outbox.sql:68-179 | direct messages, status-preserving updates and lock updates change nothing |
| Outbox.BatchesInNumbers | src/webhooks.rs:59-69 | a batch has at most 32 rows, pending and due; a due row is left out only if 32 others were due earlier, or as early with a smaller id |
| Outbox.ClaimsInSeconds | src/webhooks.rs:70-75 | a claimed row has one attempt more and is out of reach for sixty seconds, the others are as they were |
| Outbox.RetriesInSeconds | src/webhooks.rs:113-134 | a failed attempt is retried after 2, 4, 8, 16 or 32 seconds; the sixth, or a permanent refusal, is final |
| Outbox.OutcomesWriteTheirRow | src/webhooks.rs:95-148 | an outcome writes one row, and success only its status and time |
| Outbox.RetentionInSeconds | src/webhooks.rs:195-208 | pruning deletes exactly sent rows older than a day and failed ones older than a week |
| Outbox.StatementsAreSteps | src/webhooks.rs:59-148 | whatever a statement may do now is a step of the model, within any budget |
| OutboxStores.OutboxTables.OnMessageInsert | migrations/0005_webhook_outbox.sql:68-97 | the message trigger is the Commit step, and a direct message enqueues nothing |
| OutboxStores.OutboxTables.OnTaskWrite | migrations/0005_webhook_outbox.sql:99-128 | the task trigger is the Commit step, and a status-preserving update enqueues nothing |
| OutboxStores.OutboxTables.OnLockInsertOrDelete | migrations/0005_webhook_outbox.sql:130-163 | the lock trigger is the Commit step for inserts and deletes |
| OutboxStores.OutboxTables.OnNoteWrite | migrations/0005_webhook_outbox.sql:165-179 | the note trigger is the Commit step |
| OutboxStores.OutboxTables.Claim | src/webhooks.rs:59-84 | claims up to 32 due rows, those due longest first and the older row first among equals, all of them if fewer; attempts go up by one and the rows are held for 60 seconds |
| OutboxStores.OutboxTables.MarkSent | src/webhooks.rs:95-109 | writes sent to that row, whatever its status |
| OutboxStores.OutboxTables.MarkFailed | src/webhooks.rs:113-148 | parks the row exactly when its attempts are used or the refusal is permanent, else makes it due again within 32 seconds |
| OutboxStores.OutboxTables.Prune | src/webhooks.rs:195-208 | deletes exactly the aged finished rows, never a pending one |
| OutboxStores.ChooseBatch | src/webhooks.rs:62-69 | an ordered, limited selection: full or everything due, and nothing left out comes before anything chosen in the order by due time and id |
| OutboxStores.FirstDue | src/webhooks.rs:66 | the least of some rows in the order by due time and id |
| OutboxStores.SendClaimed | src/webhooks.rs:215-247 | all outcomes of a round are in within the claim's lag plus four longest sends, which meets the bound of the Outbox theorems whenever that is under 60 seconds |
| Dispatchers.FullSenderMovesOn | src/webhooks.rs:155-185 | with eight jobs running, time cannot pass the instant at which the next job is due to start: one of the eight belongs to an earlier wave and ends by then |
| Dispatchers.TickKeepsRound | src/webhooks.rs:150-193 | passing time keeps a round on schedule, although the clock is bounded by each running job alone |
| Dispatchers.NothingIsLate | src/webhooks.rs:215-237 | every job of a claimed batch, queued or running, is over within the lag plus four longest sends of the claim |
| Dispatchers.ClaimsNothingInFlight | src/webhooks.rs:59-84 | no claim takes a row in flight at any replica |
| Dispatchers.InvIsKept | src/webhooks.rs:59-193 | every step of any number of replicas keeps the rounds on schedule, no row in flight twice, and each row in flight as its claim left it |
| Dispatchers.StepIsInTime | src/webhooks.rs:59-193 | every step of the replicas is a run of Outbox within the budget, which loses, row by row, exactly the outcomes the step loses |
| Dispatchers.EveryRunIsInTime | src/webhooks.rs:215-237 | so is every run: that outcomes are recorded in time is a consequence of how replicas send, and the lost outcomes are those of failed jobs and crashes |
| Dispatchers.JobsStartInTime | src/webhooks.rs:150-193 | in every reachable state job k of a batch was started by floor(k/8) longest sends after the claim's answer |
| Dispatchers.NoRowIsInFlightTwice | src/webhooks.rs:54-84 | single flight: if a claim's lag and four sends fit into the hold, no reachable state has a row in flight twice, at one replica or at two |
| Dispatchers.SentAndFailedAreFinal | src/webhooks.rs:95-148 | then sent and failed are final, from every reachable state, for any number of replicas |
| Dispatchers.ClaimsAreBounded | src/webhooks.rs:113-134 | the claims of a row over any run are at most six plus the outcomes for that row that the run lost, by failed jobs or by crashes with the row in flight |
| Dispatchers.SixClaimsAtMost | src/webhooks.rs:113-134 | in a run without crashes and failed bookkeeping no row is claimed a seventh time |
| Dispatchers.AttemptsAreClaims | src/webhooks.rs:70-75 | over any run the attempts column of a row grows by the number of its claims, from zero for a new row |
| Dispatchers.EveryClaimIsAStep | src/webhooks.rs:215-237 | a free replica can claim whatever the claim statement may take, in any order |
| Dispatchers.RoundsEnd | src/webhooks.rs:186-237 | a round ends exactly when all its jobs are over, and the replica is free again |
| LateSends.FinalityNeedsFourSendsToFit | src/webhooks.rs:28-84 | exactly: replicas can make a sent row pending again if and only if the lag and four sends take as long as the 60-second hold; where they do, by a run whose every claim takes the first due rows in order, from rows with their webhooks |
| LateSends.LateSendsUnsend | src/webhooks.rs:150-193 | that run: 25 rows claimed at once, 24 sent in three full waves of eight; the 25th job is overtaken by another replica, for which its row is the only one due |
| Messages.BacklogVersusWake | src/tools/events.rs:64-114 | everything counted as backlog would end the wait; the only other messages that end it are direct messages of a sibling session to somebody else |
| Messages.GraceIsNarrower | src/tools/events.rs:318-330 | what the grace window adds would end the wait on its own; it misses exactly the sibling sessions' messages |
| Messages.MessagesWakeTheirReaders | src/events.rs:85-104 | a message wakes the sessions of its team that want messages, but not the one that sent it: in a channel those that watch it or all channels, or everybody if announced; a direct one those it is addressed to and its sender's other sessions |
| Messages.ChangesWakeTheTeam | src/events.rs:85-104 | a task, lock or note event wakes exactly the sessions of its team that asked for its kind or for none |
| Messages.OtherTeamsNeverWake | src/events.rs:86-88 | no event of another team wakes anybody |
| Messages.BacklogInColumns | src/tools/events.rs:64-96 | the backlog is what others posted in the watched channels, announced, or sent to this session or all of them |
| Messages.FindAnswer | src/store/messaging.rs:446-478 | none exactly when no row qualifies, else a qualifying row that no other precedes in the query's order; AnswersInColumns says which rows qualify |
| Messages.AnswersInColumns | src/store/messaging.rs:460-469 | what is returned is a later message of the agent that was asked, to the asking session or to all of that agent's, and from the session that was asked if one was; and nothing is returned exactly if the table has none |
| Messages.AnswersAreRanked | src/store/messaging.rs:467-468 | replies to the question come first, then replies to anything else, then plain messages, each oldest first |
| Messages.AsksWakeOnAnswers | src/tools/messaging.rs:374-382 | the wait looks again exactly for later messages of the agent that was asked to this session, whichever session of it sent them |
| Messages.QuestionsInColumns | src/store/messaging.rs:482-515 | a resume is checked against the question's id, sender, sending session and address |
| Messages.AnswersWake | src/tools/messaging.rs:374-382 | every row the answer query accepts passes the event filter; the question is neither |
| Messages.LaterPostsAppend | src/store/messaging.rs:460-469 | later posts replace an answer only by one of a strictly better rank |
| Messages.ExplicitRepliesAreFinal | src/store/messaging.rs:460-469 | an explicit reply once returned is returned for ever |
| Messages.AnswerMeetsItsDocumentation | src/store/messaging.rs:444-469 | the documented answer is returned exactly when it is not the case that, without any explicit reply, a plain message precedes a reply to something else |
| Messages.APlainAnswerIsPassedOver | src/store/messaging.rs:460-469 | for every ask, two messages of which the documentation promises the first and the query returns the second |
| Messages.ResumeIsTheSameAsk | src/store/messaging.rs:482-515 | a resume is accepted exactly from the asking session to the same address, and then searches the same rows |
| Messages.ResumeFindsTheSameAnswer | src/store/messaging.rs:482-515 | an accepted resume finds the answer the original call would |
| Waiting.InvIsKept | src/tools/events.rs:254-333 | every step keeps: while blocked, no message the check would count is behind the receiver |
| Waiting.NoLostWakeup | src/tools/events.rs:254-333 | in every reachable state a committed unread message is about to be checked, unconsumed by the receiver, or the call is over |
| Waiting.PublishedMessagesWake | src/tools/events.rs:281-316 | once published, a counted message wakes the call after at most as many receives as events precede it |
| Waiting.BothWatchesAreSound | src/tools/messaging.rs:374-382 | both waiting calls only count messages whose events wake them |
| Waiting.UpdatesAreNotMissed | src/tools/events.rs:254-333 | wait_for_updates never sleeps past a backlog message |
| Waiting.AnswersAreNotMissed | src/tools/messaging.rs:292-389 | ask_agent never sleeps past an acceptable answer |
| Waiting.ReceivesInFields | src/events.rs:117-132 | a receive takes the next event and wakes if it should; more than 256 behind it is told so, which always wakes, and goes on with the last 256 |
| Waiting.TheCheckInFields | src/tools/events.rs:262-279 | the check counts exactly the committed messages beyond the cursor of that instant |
| WaitTools.GraceReportsOnlyWakes | src/tools/events.rs:318-330 | everything the grace window reports was received and would have ended the wait |
| WaitTools.OnlyWakesAreReported | src/tools/events.rs:281-332 | every reported event was received and passes the wake filter; a lag is reported only if there was one |
| WaitTools.TheGraceWindowDropsSiblings | src/tools/events.rs:310-330 | what a sibling session announces ends the wait if it comes first, and is dropped in the grace window of something else |
| WaitTools.TimeoutMeansNothingHappened | src/tools/events.rs:281-332 | if anything received ends the wait and yet nothing is reported, the deadline or the end of the stream came first |
| WaitTools.WaitForUpdates | src/tools/events.rs:254-343 | reports the backlog at once; else exactly the first receive that ends the wait, if its description succeeds, together with the described part of the grace batch after it, a lag as a re-check, and nothing on a deadline or closed stream; woke exactly when something is reported |
| WaitTools.ChangesAreReported | src/tools/events.rs:299-316 | a task, lock or note event that comes first is what the call reports if it is the team's and of a kind that was asked for; otherwise it is as if it had not come |
| WaitTools.MessagesAreReported | src/tools/events.rs:299-316 | so is a message for this session; what cannot be described is passed over |
| WaitTools.OtherTeamsAreNotReported | src/tools/events.rs:299-303 | an event of another team never ends a wait and is never reported |
| WaitTools.GraceInOrder | src/tools/events.rs:318-330 | the grace window reports, in order, exactly the described events that would wake and are not the agent's own messages |
| WaitTools.LagsAreReported | src/tools/events.rs:283-297 | a lag is reported as such, and a deadline or the end of the stream as nothing |
| WaitTools.AwaitAnswer | src/tools/messaging.rs:340-421 | returns what the first successful check finds, where the checks are one at the start, one per wake or lag before the stream ends, and a last look; what it returns is an answer in the columns' own terms |
| WaitTools.AwaitWake | src/tools/messaging.rs:364-389 | receives up to and including the next wake, or to the end without one |
| WaitTools.NoneMeansNoCheckFoundOne | src/tools/messaging.rs:391-418 | giving up means that every check found nothing |
| WaitTools.AnswersComeFromTheTables | src/tools/messaging.rs:340-421 | what is returned is an answer that one of the tables looked at holds |
| Asking.OneCheckPerWakeup | src/tools/messaging.rs:340-389 | along a run the call checks once, and once more per receive that wakes it |
| Asking.CommittedAnswersAreReturned | src/tools/messaging.rs:340-421 | fed with any run of its receiver and the database, ask_agent returns an answer whenever one is committed by its last look, and never anything else |
| Asking.ItFinishesWhenACheckFindsOne | src/tools/messaging.rs:340-389 | the call ends by itself, before the deadline, exactly when one of its checks finds an answer |
| Asking.PublishedAnswersEndTheCall | src/tools/messaging.rs:364-389 | once the event of an answer is published, a blocked call that keeps receiving checks again after at most as many receives as events precede it, and that check ends it |
| Updating.CommittedBacklogIsReported | src/tools/events.rs:254-279 | fed with any run of the database and its receiver, wait_for_updates reports a backlog message committed by its check at once, with the number of such messages |
| Updating.ItReportsWhenItFinishes | src/tools/events.rs:254-343 | it reports something exactly when the run finishes, by a backlog or an event that ends the wait, and nothing exactly when the deadline comes first |
| Updating.PublishedBacklogEndsTheCall | src/tools/events.rs:281-316 | a backlog message committed later ends the wait after at most as many receives as events precede its own |
| Updating.NothingIsReportedOfNothingReceived | src/tools/events.rs:281-343 | if it comes back with nothing, every message that is backlog by then is still ahead of its receiver |
| Sessions.NormalizeSession | src/auth.rs:58-99 | accepted labels satisfy the grammar: trimmed, lower case, printable ASCII, at most 64, no slash, no template characters |
| Sessions.CheckLabel | src/auth.rs:58-99 | the chain of refusals accepts exactly the short labels of printable ASCII without slash or template characters, the empty one included |
| Sessions.LabelsAreFixedPoints | src/auth.rs:58-99 | accepts exactly the labels up to spacing and case, and returns them unchanged |
| Sessions.LabelsInCharacters | src/auth.rs:58-99 | a label is accepted exactly if it is at most 64 characters between 32 and 126 once trimmed and lowered, none a slash, dollar or brace |
| Sessions.ParseAddress | src/store/messaging.rs:166-192 | a parsed session is a non-empty label, a parsed agent has no slash |
| Sessions.AddressRoundTrip | src/store/messaging.rs:166-192 | printing an agent and session and parsing gives them back |
| Sessions.ParsedAddressesAreStable | src/store/messaging.rs:166-192 | parsing is a projection |
| Sessions.CursorKeysAreInjective | src/store/messaging.rs:216-240 | for slash-free bases, cursor keys are equal exactly for equal base, session and view |
| Text.CheckText | src/store/mod.rs:50-67 | accepted exactly when the raw value is within the limit, and then trimmed |
| Text.TrimCutsSpaces | src/store/mod.rs:59 | trimming cuts the white space at both ends and nothing more |
| Text.LowerInLetters | src/auth.rs:59 | each capital becomes its small letter, and everything else stays |
| Reading.ReadCatchesUp | src/store/messaging.rs:582-677 | a read returns the newest unread messages in ascending order, moves the cursor over all of them, and leaves nothing unread |
| Reading.NothingIsReadTwice | src/store/messaging.rs:582-677 | over any run of posts and reads the cursor never decreases, and what is returned is visible and strictly ascending |
| Reading.EverythingIsReadUnlessCutOff | src/store/messaging.rs:623-677 | the pages together are exactly the visible messages up to the cursor if and only if no read was cut off by its limit |
| Reading.PagesInColumns | src/store/messaging.rs:596-655 | a page holds exactly what the scope shows beyond the cursor, or the newest part of it if it is full: everything of the team that is in a channel or the agent's own, the inbox, or one channel |
| Reading.CursorsMoveToTheLast | src/store/messaging.rs:660-677 | a read stores the id of its last message, if any, and nothing else |
| Reading.ACutOffReadSkips | src/store/messaging.rs:596-677 | whenever a read is cut off, the oldest unread message is skipped for good: no later read of any run returns it |
| Reading.BaseKeysDiffer | src/store/messaging.rs:530-534 | different scopes have different base keys |
| Reading.CursorsAreSeparate | src/store/messaging.rs:529-536 | two readers share a cursor exactly when session, scope and view are the same |
| Reading.KeysAreSpelled | src/store/messaging.rs:216-240 | the keys under which cursors are stored |
| Reading.ReadersDoNotInterfere | src/store/messaging.rs:575-580 | a read leaves the cursor, unread messages and next page of every other reader as they were |
| Reading.InboxReadClearsTheCount | src/store/mod.rs:113-130 | the unread count, up to the limit, is what the next inbox read returns, and that read brings it to zero |
| Reading.ReadingClearsTheBacklog | src/tools/events.rs:64-96 | while there is a backlog a read of everything returns something, and after it there is none, cut off or not |
| MailStores.MailTables.Resolve | src/store/messaging.rs:294-375 | an agent target is what the address names, and never the calling session itself; a channel target is a channel of the team; not-found only for a name that was given |
| MailStores.ChannelsAreOneSpelling | src/store/mod.rs:18-20 | a channel has one name, with or without the hash, in any case and with spaces around |
| MailStores.MailTables.ChannelTargets | src/store/messaging.rs:294-330 | a channel target is the team's channel of that name, however spelled, or not found |
| MailStores.MailTables.DefaultTargets | src/store/messaging.rs:294-330 | with neither channel nor agent it is the channel named like the session, if both exist |
| MailStores.MailTables.AgentTargets | src/store/messaging.rs:331-375 | an address is an agent of the team with one session or all, never the sending session itself |
| MailStores.MailTables.PostsInNumbers | src/store/messaging.rs:263-396 | a post is accepted exactly if its body is not blank and at most a mebibyte, it is no announcement to an agent, its target resolves, the message it replies to is the team's, and its metadata is at most 16 KiB |
| MailStores.RowsInColumns | src/store/messaging.rs:397-422 | the columns of the posted row; the shared session is stored as none |
| MailStores.AsksPostTheirQuestion | src/tools/messaging.rs:292-339 | what ask_agent posts is the question its resume is checked against |
| MailStores.MailTables.PostMessage | src/store/messaging.rs:263-440 | the first problem, oversized metadata among them, decides the error and nothing is written; without one exactly the resolved row is appended, with a new, larger id, never an announcement to a person and never to the sending session itself |
| MailStores.MailTables.Exists | src/store/messaging.rs:377-386 | whether the team has that message |
| MailStores.NewestFirst | src/store/messaging.rs:599-655 | the backward scan finds exactly the newest page of what is unread, reversed |
| MailStores.Reversed | src/store/messaging.rs:658-659 | the rows in the opposite order |
| MailStores.LatestOf | src/store/messaging.rs:661 | the largest id of a page, or the old cursor |
| MailStores.MailTables.ReadMessages | src/store/messaging.rs:568-685 | returns the newest page and its truncation flag, and changes exactly the reader's own cursor, and that only for an only_new read |
| Limiter.EveryRateIsProper | src/ratelimit.rs:61-78 | for every accepted rate ten minutes of refill are at least the burst, with equality exactly at one per minute |
| Limiter.RateLimiter.constructor | src/ratelimit.rs:61-78 | a new limiter tracks nobody and has the configured rate and burst |
| Limiter.RateLimiter.CheckKey | src/ratelimit.rs:81-140 | answers and changes state as the step function, never tracks more than 10000 keys, and keeps the bucket invariant |
| Limiter.RateLimiter.SweepIfDue | src/ratelimit.rs:91-100 | every 512th request drops exactly the buckets idle for ten minutes |
| Limiter.RateLimiter.Spend | src/ratelimit.rs:122-139 | refills the bucket up to now and takes a whole token out of it, or none and says how long to wait |
| Limiter.RoomKeepsLevels | src/ratelimit.rs:91-120 | both sweeps together leave every key's level unchanged at every later time |
| Limiter.CheckByLevel | src/ratelimit.rs:126-139 | unless refused for tracking room, a key is admitted exactly with a whole token and pays it; no other key's level changes; only full keys are refused for room, and WhenTrackingIsFull says when |
| Limiter.RefusalCostsNothing | src/ratelimit.rs:126-139 | a refused request leaves its key's level as it was, at every later time |
| LimiterRuns.SameLevelsAreKept | src/ratelimit.rs:91-128 | one request: the limiter and one that never forgets stay indistinguishable |
| LimiterRuns.EvictionIsInvisible | src/ratelimit.rs:91-128 | on time-ordered requests every tracked one gets the answer of a limiter that never evicts |
| LimiterRuns.FreshLimiterNeverForgets | src/ratelimit.rs:22-32 | the same from the start, for every rate; AFreshLimiterAdmitsTheBurst says what is admitted |
| LimiterRuns.WhenTrackingIsFull | src/ratelimit.rs:91-120 | a request is refused for lack of room exactly if its key is not tracked and 10000 other buckets were used less than ten minutes ago |
| LimiterRuns.OneRequest | src/ratelimit.rs:106-139 | any other request is admitted exactly if the key has a whole token, a new key having the burst, and takes it |
| LimiterRuns.AVolleySpendsTheTokens | src/ratelimit.rs:106-139 | of requests at one instant exactly as many are admitted as the key has whole tokens, and the rest is throttled |
| LimiterRuns.AFreshLimiterAdmitsTheBurst | src/ratelimit.rs:61-78 | on a fresh limiter these are a tenth of the rate per minute, and at least ten |
| LimiterRuns.WaitsInSeconds | src/ratelimit.rs:135-139 | a throttled request is told the least whole number of seconds, at least one, that refills what is missing |
| LimiterRuns.SweepsInNumbers | src/ratelimit.rs:91-100 | every 512th request forgets exactly what was not used for ten minutes |
| LimiterRuns.AdmissionsArePaidFor | src/ratelimit.rs:126-133 | admissions of a run are covered by the initial level plus the refill |
| LimiterRuns.WindowBound | src/ratelimit.rs:126-133 | any window admits at most the burst plus the rate times its length, per key |
| LimiterRuns.WindowsAreTheRun | src/ratelimit.rs:81-140 | the answers of a run are those of its windows in order |
| LimiterRuns.ProbesCostNothing | src/ratelimit.rs:126-139 | requests without an admission for a key leave its level alone |
| LimiterRuns.RetryAfterIsHonest | src/ratelimit.rs:135-139 | a request sent any time from the advertised seconds on, within the ten minutes before eviction, is admitted, whatever unadmitted probes come between; one sent a second earlier than advertised, or before, is throttled |
| LimiterRuns.WaitIsAtMostAMinute | src/ratelimit.rs:61-78 | for every accepted rate the advertised wait is between one second and a minute, so the advertised instant lies in that range |
| LimiterRuns.AnEmptyBucketWaitsAMinute | src/ratelimit.rs:135-139 | the minute is reached at one request per minute |
| LimiterRuns.RunKeepsRecent | src/ratelimit.rs:91-120 | a bucket used less than ten minutes ago survives every sweep of a run |
| LimiterRuns.AnEarlyStampRefillsTwice | src/ratelimit.rs:82-83 | a request stamped before its bucket's last use hands out that refill twice |
| LimiterRuns.AdmissionsOutOfOrder | src/ratelimit.rs:82-133 | whatever the order of the stamps, admissions are covered by the initial level and the refill of all the jumps ahead |
| LimiterRuns.WindowBoundOutOfOrder | src/ratelimit.rs:82-133 | so any window of any run admits at most the burst plus the rate times its length and the sum of its backward jumps |
| Quota.DeletingFrees | src/store/quota.rs:142-152 | usage after the cascade plus the measured bytes is the usage before |
| Quota.CascadeIsExact | src/store/quota.rs:185-193 | the cascade deletes the files of the pruned messages and no other |
| Quota.QuotaIsKept | src/store/quota.rs:60-95 | every step of interleaved uploads, attachments and deletions keeps stored bytes within the limit, except the INSERT of an attach_to_message whose check would fail by then, which breaks it |
| Quota.QuotaHoldsExactly | src/store/attachments.rs:135-199 | over every run, with attach_to_message too: stored bytes stay within the limit if and only if every such attachment still fits when it inserts |
| Quota.QuotaHolds | src/store/attachments.rs:135-157 | without attach_to_message, stored bytes are within the limit after every interleaving of posts, task uploads, aborts and deletions |
| Quota.ExactIsKept | src/store/attachments.rs:72-98 | one step, deletions included: an upload knows the usage it started from and what was freed since, and the outcomes so far are right |
| Quota.UploadsAreAllOrNothing | src/store/messaging.rs:397-434 | with deletions at any time: an upload with files commits if and only if, for every k, the usage at its first check, less what was freed before its k-th check, plus its first k+1 files fits; else it is refused and leaves nothing |
| Quota.WhatFitsCommits | src/store/messaging.rs:397-434 | what fits as a whole at the first check commits; and only that, if nothing was deleted meanwhile |
| Quota.DeletionsMakeRoom | src/store/messaging.rs:423-434 | the run in which a message deleted between two inserts lets an upload commit that did not fit at its first check |
| Quota.BytesAreConserved | src/store/messaging.rs:397-434 | over every run, bytes stored plus bytes freed are the bytes stored at first plus those committed by uploads and attachments; refused and aborted ones leave nothing |
| Quota.OutcomesAreLogged | src/store/messaging.rs:397-434 | every upload that ends other than by an abort is accounted for: committed with all its files, or refused with none |
| Quota.InsertsStepByStep | src/store/messaging.rs:423-426 | each file is checked against the committed files and the upload's own, under the lock |
| Quota.AttachesStepByStep | src/store/attachments.rs:198-199 | the check of an attachment lets it go on exactly if its file fits by then |
| Quota.RunsToItsEnd | src/store/messaging.rs:423-434 | an upload left to itself, inserting its files one by one and committing, leaves all of them exactly when they all fit, and none otherwise |
| Quota.DeletionsOverlap | src/store/quota.rs:185-193 | what two deletions free splits into what each frees of the files present at its turn |
| Quota.TheMeasureIsExact | src/store/quota.rs:140-209 | whatever other transactions do between measuring and deleting, prune reports what it frees if and only if they committed as many bytes onto the pruned messages as they deleted from them |
| Quota.ALateAttachmentIsNotReported | src/store/quota.rs:142-193 | a file attached in between is freed but not reported |
| Quota.TwoPrunesReportTwice | src/store/quota.rs:142-193 | what another prune deletes in between is reported by both |
| Quota.RacingAttachments | src/store/attachments.rs:165-200 | two calls that both take and lose the lock, both sum and then both insert are a run in every state in which both checks pass; it breaks the limit exactly when the files do not both fit |
| Quota.TheRaceExists | src/store/attachments.rs:165-200 | for every positive limit some run from a state within it exceeds it |
| QuotaStores.TeamStorage.CheckQuota | src/store/quota.rs:66-95 | refuses exactly when the bytes seen plus the incoming ones exceed the limit |
| QuotaStores.TeamStorage.InsertAll | src/store/messaging.rs:423-426 | checking and inserting one by one succeeds exactly when all files fit together |
| QuotaStores.TeamStorage.Post | src/store/messaging.rs:397-434 | the message and all its files appear exactly when the files fit together, or nothing changes |
| QuotaStores.PostIsARun | src/store/messaging.rs:397-434 | that outcome is that of the transaction left to itself in the interleaving model |
| QuotaStores.TeamStorage.AttachToTask | src/store/attachments.rs:109-163 | adds the file exactly when the task exists, has fewer than eight files, and the file fits; otherwise nothing changes and the error says which |
| QuotaStores.CountsInNumbers | src/store/attachments.rs:124-128 | the cap counts the files of that owner |
| QuotaStores.DeleteBefore | src/store/quota.rs:156-182 | deletes exactly the rows older than the cutoff and counts them |
| QuotaStores.TeamStorage.Prune | src/store/quota.rs:117-209 | accepts 1 to i32::MAX days; removes exactly what is older and reports exactly that, usage dropping by the freed bytes; a dry run reports the same and changes nothing |
| Presence.Fold | src/store/presence.rs:178-218 | one pass over grouped rows gives one entry per agent with all of its rows in order, the first row leading |
| Presence.ListAgents | src/store/presence.rs:178-240 | the result is the group-by listing, online first then by name, and counts the agents with a live session |
| Presence.SortedRowsAreGrouped | src/store/presence.rs:168-171 | the query's ORDER BY gives what the fold relies on |
| Presence.ListingIsUnique | src/store/presence.rs:178-240 | that listing is determined by the rows |
| Presence.LeadTellsWhetherOnline | src/store/presence.rs:168-171 | with live sessions first, the lead session is live exactly when the agent is online |
| Presence.Sorted | src/store/presence.rs:233-235 | an ordered permutation, online first and then by name |
| Presence.InsertionSorts | src/store/presence.rs:233-235 | putting an entry before everything greater keeps order and entries |
| Presence.OnlineMeansALiveRow | src/store/presence.rs:200-206 | an entry is online exactly when one of its rows is live |
| Presence.EntriesInColumns | src/store/presence.rs:178-218 | an entry has the fields of its agent's first row, is online if any row is, and lists one session per row in order unless there is only one; a lapsed session is offline, the shared one has no name |
| Presence.ListedInOrder | src/store/presence.rs:233-235 | whoever is online comes before whoever is not, and each group goes by name |
| Presence.NamesInOrder | src/store/presence.rs:233-235 | names compare by their first difference, a beginning before what it begins |
| StopHook.Hook.QuestionsOf | plugin/scripts/stop-drain.sh:57-74 | the questions and the answered ids of the feed |
| StopHook.SortedIds | plugin/scripts/stop-drain.sh:92 | the elements of a set in increasing order |
| StopHook.Hook.NewestIds | plugin/scripts/stop-drain.sh:101 | the 200 largest ids |
| StopHook.Hook.Stop | plugin/scripts/stop-drain.sh:55-105 | raises the oldest question neither answered nor raised, and remembers it |
| StopHook.LargestIsUnique | plugin/scripts/stop-drain.sh:101 | being the 200 largest leaves no choice |
| StopHook.RaisingAgrees | plugin/scripts/stop-drain.sh:98-101 | an id the bound drops has left the 50-message window |
| StopHook.TheBoundIsInvisible | plugin/scripts/stop-drain.sh:31-32 | on every run the bounded guard raises exactly what an unbounded one would |
| StopHook.NoQuestionIsRaisedTwice | plugin/scripts/stop-drain.sh:76-92 | no question is raised twice, although the guard is bounded |
| StopHook.RaisedWasNeverAnswered | plugin/scripts/stop-drain.sh:68-74 | a raised question was never answered, however old the answer |
| StopHook.StopsDrain | plugin/scripts/stop-drain.sh:91-96 | without new messages repeated stops raise every pending question in increasing order, then nothing |
| StopHook.StopsInFields | plugin/scripts/stop-drain.sh:57-92 | a stop raises the oldest direct question by somebody else in the newest fifty messages that this agent has not answered in them and that was not raised before, and none exactly if there is none |
| StopHook.MemoryInNumbers | plugin/scripts/stop-drain.sh:98-101 | what is remembered are the 200 largest ids raised |

## Left out

- Task descriptions and metadata beyond their checks, the task event log, and the row re-read that forms a
  response (`src/store/tasks.rs:253-254`): they carry no protocol state. A metadata value is the number of
  bytes it serialises to.
- Operator SQL, agent and token administration, cancelling a task and deleting an agent: no function of
  the modelled files does it; `Cancelled` is kept as a status because the guards mention it.
- Message ids that become visible out of order: the cursor, answer and hook theorems require ascending
  ids, as a sequence under one writer gives.
- Message deletion by prune in the cursor, answer and hook theorems; it is part of the quota theorems.
- TaskStores.TaskStore.CreateTask: another insert of the same key between the look-up and the INSERT; it fails on the
  unique constraint as a database error, and database errors are left out.
- TaskRuns.DependenciesAreFinishedFirst, TaskRuns.OnlyEarlyClaimsJumpTheQueue: statements are atomic. In the source the
  NOT EXISTS of a claim reads the snapshot its statement began with, and the INSERT of a dependency row does not wait
  for the claim, so a claim that begins in the gap may commit after that INSERT; it counts as one in the gap here.
- Dispatchers.SentAndFailedAreFinal: how long a claim's answer (`lag`) and a send with its bookkeeping (`longest`) may
  take are parameters; the source fixes only the 5-second client timeout. A claim that is never answered is a crash.
- Outbox.SingleFlightIsKept, Outbox.OneWorkerPerRow, Outbox.FinalIsFinal: take the budget as a guard of the clock;
  Dispatchers has no such guard and derives them for replicas.
- Scheduler.SendBatch: a panicking delivery task counts as one that ends without an outcome; the payload and the
  HTTP exchange are only a duration.
- OutboxStores.OutboxTables.Claim: ids are pairs of a change and a hook, so rows of one change are ordered by hook,
  where the database numbers them in the order the trigger inserts them.
- The dispatcher's idle wait and its ten-minute prune clock (`src/webhooks.rs:228-260`): only delay.
- Waiting.NoLostWakeup: LISTEN reconnects of the database listener are excluded: a lost connection
  loses events for everybody.
- WaitTools.WaitForUpdates: what `describe` says (`src/tools/events.rs:117-198`), the suggestion texts and the
  direct-message count are not modelled; the 150 milliseconds of the grace window are a count of receives.
- Updating.ItReportsWhenItFinishes: every event of the run is described.
- WaitTools.AwaitAnswer, Asking.CommittedAnswersAreReturned: database errors end the call and are not modelled.
- MailStores.MailTables.Resolve: the roster reported as `delivered_to` is left out.
- Error wording is left out everywhere.
- MailStores.MailTables.PostMessage: posts without attachments; the transaction with them, and its refusal by the quota,
  is QuotaStores.TeamStorage.Post.
- QuotaStores.TeamStorage.Post: attachments of a post are byte counts; names, types, content and the cap of eight
  attachments (checked outside the inserting transaction) are left out.
- QuotaStores.TeamStorage.AttachToTask: nothing comes between counting the task's files and inserting one; in the source
  the count is outside the transaction.
- QuotaStores.TeamStorage.Prune: its statements follow each other undisturbed; Quota.TheMeasureIsExact is about what
  happens between them.
- Quota.QuotaHoldsExactly: the INSERT of an attachment to a message deleted meanwhile fails in the source and is allowed
  here.
- Presence.ListAgents: requires the rows of one agent to be adjacent, which is the query's ORDER BY; the LEFT JOIN
  and the `online_only` filter happen before. The heartbeat upsert only overwrites one row.
- StopHook.Hook.Stop: an unreadable or unwritable state file, and the text handed to the session, are left out.
- LimiterRuns.EvictionIsInvisible, LimiterRuns.WindowBound: reals instead of floating point, and requests in the order
  of their stamps; LimiterRuns.WindowBoundOutOfOrder does without that order.
- Sessions.LabelsAreFixedPoints: strings are ASCII; Unicode case folding and byte lengths of other characters are
  left out.
- HTTP and MCP transport, command line, hashing, tokens, full-text search, digests, notes, dashboards and
  packaging: input, output or independent of the protocol.
