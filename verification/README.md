# Verified models of Mail Otter's state machines, scanners and pagers

Mail Otter summarizes mail, proposes actions on it and keeps an audit trail.  Most of its hard behaviour sits
between `await`s: several Workers act on the same D1 rows, each statement is atomic and nothing else is.  This
project models that behaviour in Dafny and proves what it guarantees, over every interleaving, every crash
point, every table and every text.

How the models are built:

- **State machines.** A run is a list of events.  An event whose guard is false changes nothing, so a theorem
  about all event lists is a theorem about all interleavings.  A D1 table is a map of rows, one SQL statement is
  one event, an awaited call is cut into separate events before and after it.  Clocks are integers that never go
  back.
- **DAOs and services that change state** are classes whose methods run the source's steps in place.  Each is
  proved equal to the function that the state machine uses for the same statement.
- **Scanners and pagers** are methods with the source's loops, proved against functions of the position; lemmas
  then compare those functions with an independent definition: a grammar, a sorted union, a round trip.
- Where a promise of the code or its comments is false, a lemma gives a concrete run or input, and another the
  condition under which it holds, as an if-and-only-if where the rows below say so.

| file | what it models |
|---|---|
| `Wrappers.dfy`, `Positions.dfy` | optional values; strings at a position of a longer string |
| `ExclusiveChain.dfy`, `TokenRotation.dfy` | the promise chain that serializes OAuth2 refreshes, and rotating refresh tokens (section 6 of RFC 6749) on top of it |
| `EmailActionTable.dfy`, `ActionLifecycle.dfy`, `ActionStability.dfy`, `ActionPruning.dfy` | the action table's SQL statements; concurrent executors with snoozes, schedules, sweeps and the retention of messages; what can still happen to a scheduled or an ended action; and batch pruning |
| `MessageLease.dfy`, `QueueDispatch.dfy`, `SummaryReply.dfy` | the claim on a processed message, queue dispatch, and the resumable Outlook reply |
| `Keyset.dfy`, `AuditLog.dfy`, `ActivityFeed.dfy` | keyset pages, the audit log, and the merged three-source feed with its export |
| `PdfLiteral.dfy`, `PdfEscapes.dfy`, `PdfText.dfy` | PDF literal strings, their escapes, and text extraction (sections 7.3.4.2 and 9.4.3 of ISO 32000-1) |
| `ChainScanner.dfy`, `ArgumentSplit.dfy`, `ChainRewrite.dfy`, `ChainLoop.dfy`, `ChainComments.dfy` | the codemod's delimiter scanners, its argument split, its in-place rewriting and loop, and what becomes of comments |
| `Digest.dfy`, `ChangeEmail.dfy` | the once-a-day digest window, and the ordered address-change statements |

## Where the code and its own words disagree

The models follow the code.

- `EmailActionPruningTask` says its two phases work on disjoint rows.  Old pending rows are in both
  (`ActionPruning.SweepsOverlap`); the total is still right, because a swept row is no longer old.
- `claimRetry` says it pins the `updated_at` the caller saw.  The parameter is not bound, so a claim can win
  on a row that changed meanwhile (`MessageLease.ClaimWinsAfterChange`); the lease is proved from the WHERE clause as it
  is.
- `executeAction` can turn `succeeded` into `failed` when its bookkeeping throws
  (`ActionStability.SuccessMayBecomeFailure`; exactly when: `ActionStability.TerminalIsFinalIff`), and an executor
  with an old snapshot can expire a row that has been rescheduled since
  (`ActionStability.StaleExecutorExpiresScheduledRow`; exactly when: `ActionStability.EarlyExpiryIff`).
- A scheduled action goes with its message when that is pruned, whatever its own window
  (`ActionStability.ScheduledActionGoesWithMessage`); `ActionStability.RetentionDecides` says exactly when it does not.
- The activity feed's tiebreakers are per source, so rows of two sources that share a timestamp can be skipped at a
  page boundary; `ActivityFeed.PageAccounting` says which rows are lost on each page.
- The duplicate test of the dispatcher accepts any error text with `exists` in it
  (`QueueDispatch.MisleadingFaultLosesMessage`); `QueueDispatch.NoMessageLostIff` says that nothing else loses a message.
- A retried Outlook reply relies on what a search shows.  `SummaryReply.OneReplyOneCopyIff` says which attempts double
  a reply or a copy; that Sent Items alone are shown is not enough (`SummaryReply.InboxLagSendsTwice`).
- `scan_call` adds 2 to a failed search for the end of a block comment and goes on at position 1: it can run for
  ever or end in front of the call (`ChainScanner.LostScans`; exactly when it ends: `ChainScanner.ScanEndsIff`).  And
  it returns the end of the text for a call that runs into a line comment there (`ChainScanner.RanOffIff`).
- The codemod puts a query on one line without regard to line comments in it, which then swallow the rest of the call
  (`ChainRewrite.CommentSwallowsCall`); `ChainComments.RewritingIsCallIff` says when the rewriting is a call again.
- `unescapePdfString` misreads an escaped backslash in front of a bare `n`, `r`, `t` or parenthesis, and leaves
  `\b`, `\f`, octal codes, escaped line breaks, unknown escapes and bare carriage returns as they are; it gives every
  other literal string its meaning (`PdfEscapes.UnescapeIsExact`, `PdfEscapes.EveryStringIsUnits`).
- A digest whose send time is after 23:50 can be missed (`Digest.OnceADayIffBeforeTenToMidnight`).  A mark written
  after midnight suppresses the next day (`Digest.MarkAfterMidnightSkipsADay`), and with regular ticks nothing else
  does (`Digest.SkippedIffMarkedAhead`).

## Model

| member | source | states |
|---|---|---|
| ExclusiveChain.OAuth2TokenRefreshWorker.RunExclusive | apps/background/src/OAuth2TokenRefreshWorker.ts:98-109 | the synchronous part of `runExclusive` is exactly the arrival step: it waits on the tail if there is one and starts at once if not, and becomes the tail |
| ExclusiveChain.OAuth2TokenRefreshWorker.OnFinally | apps/background/src/OAuth2TokenRefreshWorker.ts:104-108 | the callback clears the tail exactly when it is still its own promise |
| ExclusiveChain.StepKeepsInv | apps/background/src/OAuth2TokenRefreshWorker.ts:98-109 | every turn of the event loop keeps the chain's shape: starts are a prefix of the arrivals and only the last can be unsettled |
| ExclusiveChain.MutualExclusion | apps/background/src/OAuth2TokenRefreshWorker.ts:78-109 | over every interleaving at most one operation runs, operations start in arrival order, and the tail is empty exactly when the newest promise has run its callback, which implies everything has settled |
| ExclusiveChain.NoFailureBlocks | apps/background/src/OAuth2TokenRefreshWorker.ts:100-102 | failure or success, each start or settlement lowers the turns owed by one, and while any are owed some operation can move |
| TokenRotation.ConnectedApplicationDAO.GetById | packages/backend-data/src/dao/ConnectedApplicationDAO.ts:234-236 | reads the stored row or nothing |
| TokenRotation.ConnectedApplicationDAO.UpdateOAuth2RefreshToken | packages/backend-data/src/dao/ConnectedApplicationDAO.ts:234-247 | replaces only the refresh token of that one row, and nothing for a missing or non-OAuth2 application |
| TokenRotation.RefreshAccessToken | apps/background/src/OAuth2TokenRefreshWorker.ts:111-148 | secret, cache, row, provider, write-back and store in this order: the provider is asked only for a connected OAuth2 row and moves on only when that row's token is the current one, the row takes the new token unless the reply has none or the write fails without effect, and the refresh succeeds from the cache or when every await does; run alone it leaves what its events do |
| TokenRotation.CallsFollowConnectedReads | apps/background/src/OAuth2TokenRefreshWorker.ts:199-201 | over every run, each call to the provider comes after a read of that application's row that found it connected and with the token presented |
| TokenRotation.StepKeepsInv | apps/background/src/OAuth2TokenRefreshWorker.ts:111-148 | every event of the refresh protocol keeps: an unlost application's row holds the provider's token unless its write is in flight |
| TokenRotation.StepLosesIff | apps/background/src/OAuth2TokenRefreshWorker.ts:133-147 | one event makes an application's rotation lost if and only if it is an undelivered reply with a new token or a failing write of a token other than the row's |
| TokenRotation.LostIff | apps/background/src/OAuth2TokenRefreshWorker.ts:111-148 | after any run a rotation is lost if and only if the run has such an event |
| TokenRotation.StoredTokenIsCurrent | apps/background/src/OAuth2TokenRefreshWorker.ts:111-148 | in every run, outside a call-to-write window, the stored token is the provider's current one if and only if the run has no such event for the application; and then every call for it presented the current token |
| TokenRotation.ExclusiveRotationIsSafe | apps/background/src/OAuth2TokenRefreshWorker.ts:111-148 | if no event of the run loses a rotation, every provider call of every run presents the current token and every idle row agrees with the provider |
| TokenRotation.LostRotationIsFinal | apps/background/src/OAuth2TokenRefreshWorker.ts:136-143 | after a lost rotation every later call for that application is rejected, until it is authorized anew |
| TokenRotation.FailedWriteLosesRotation | apps/background/src/OAuth2TokenRefreshWorker.ts:140-142 | one failed write after a rotation does lose it |
| EmailActionTable.EmailActionDAO.Create | packages/backend-data/src/dao/EmailActionDAO.ts:33-62 | adds a pending row under a new id and changes nothing under a taken one |
| EmailActionTable.EmailActionDAO.ClaimForExecution | packages/backend-data/src/dao/EmailActionDAO.ts:116-123 | wins if and only if the row is there, pending and before its expiry, and then sets it executing; any other row stays |
| EmailActionTable.EmailActionDAO.UpdateStatus | packages/backend-data/src/dao/EmailActionDAO.ts:125-140 | sets status and time of that row, whatever the status was, and of no other |
| EmailActionTable.EmailActionDAO.SnoozeAction | packages/backend-data/src/dao/EmailActionDAO.ts:177-184 | only a pending row changes; it takes the snooze, and its expiry becomes the later of the two |
| EmailActionTable.EmailActionDAO.ScheduleAction | packages/backend-data/src/dao/EmailActionDAO.ts:195-202 | only a pending row changes; it takes the schedule, and its expiry becomes the later of the two |
| EmailActionTable.EmailActionDAO.CancelSnooze | packages/backend-data/src/dao/EmailActionDAO.ts:186-193 | takes the snooze of a pending row off and leaves its expiry |
| EmailActionTable.EmailActionDAO.CancelSchedule | packages/backend-data/src/dao/EmailActionDAO.ts:204-211 | takes the schedule of a pending row off and leaves its expiry |
| EmailActionTable.EmailActionDAO.ExpirePendingActions | packages/backend-data/src/dao/EmailActionDAO.ts:142-148 | expires some `limit` of the pending rows at or past their expiry, or all when fewer, counts them, and changes no other row |
| EmailActionTable.EmailActionDAO.DeleteOlderThan | packages/backend-data/src/dao/EmailActionQueries.ts:97-104 | deletes some `limit` of the rows last written before the cutoff and not executing, or all when fewer, counts them, and changes no other row |
| EmailActionTable.EmailActionDAO.DeleteByProcessedMessageId | packages/backend-data/src/dao/EmailActionDAO.ts:150-156 | a row goes if and only if it is pending and of that message, and the count is their number |
| EmailActionTable.SelectLimit | packages/backend-data/src/dao/EmailActionDAO.ts:142-148 | a subselect with LIMIT returns a subset of the eligible rows of exactly the size it must have |
| ActionLifecycle.ExecuteAction | packages/backend-services/src/action/ActionExecutionService.ts:68-125 | the handler starts if and only if the snapshot is open and not overdue and the claim is won and acknowledged; an overdue snapshot expires the row; a row whose claim took effect ends failed when anything after it threw and that could be written, and otherwise succeeded when that could; and run alone it does exactly what its turns do one after another, however each await ends |
| ActionLifecycle.RunHandler | packages/backend-services/src/action/ActionExecutionService.ts:101-121 | what the try block makes of the row, from the won claim on, and that it refines the executor's turns |
| ActionLifecycle.RecordSuccess | packages/backend-services/src/action/ActionExecutionService.ts:103-110 | a failing success mark or record falls into the catch block, which then decides the status |
| ActionLifecycle.RecordFailure | packages/backend-services/src/action/ActionExecutionService.ts:111-121 | the catch block marks the row failed unless that write fails without effect |
| ActionLifecycle.SnoozeAction | packages/backend-services/src/action/ActionSchedulingService.ts:24-42 | a snooze is accepted if and only if the row is pending and the time lies within the next 30 days; the row then takes it and an expiry at least a day later; a refusal changes nothing; and the change is what the two steps in the state machine make |
| ActionLifecycle.ScheduleAction | packages/backend-services/src/action/ActionSchedulingService.ts:44-70 | the same for schedules, with an hour, and only for rows of automatic action types |
| ActionLifecycle.AskIff | packages/backend-services/src/action/ActionSchedulingService.ts:24-70 | in the state machine too, a request is accepted if and only if its row is pending, its time lies within the next 30 days and a schedule is for an automatic action type |
| ActionLifecycle.OnlyAutoIsScheduled | packages/backend-services/src/action/ActionSchedulingService.ts:58-60 | in every reachable state, whatever interleaved, a row that is scheduled is of an automatic action type |
| ActionLifecycle.StepKeepsClaimInv | packages/backend-services/src/action/ActionExecutionService.ts:68-125 | every turn keeps: a pending row has no claim and an executor at its handler owns the only one |
| ActionLifecycle.HandlerStartsAtMostOnce | packages/backend-services/src/action/ActionExecutionService.ts:68-125 | over every interleaving of executors with stale snapshots, requests, sweeps, message retention, deletions and crashes, no action's handler starts twice |
| ActionLifecycle.PendingNeverReturns | packages/backend-data/src/dao/EmailActionDAO.ts:116-156 | an action that left `pending`, or was deleted, is never pending again |
| ActionLifecycle.EndedNeverDue | packages/backend-data/src/dao/EmailActionDAO.ts:213-219 | whatever happens afterwards, an action that left `pending` never passes the filter of the due list |
| ActionLifecycle.StepKeepsTimeInv | packages/backend-services/src/action/ActionSchedulingService.ts:24-70 | every turn keeps each expiry past the snooze and schedule buffers and each instant within 30 days of the last write |
| ActionLifecycle.ExpiryClearsBuffers | packages/backend-services/src/action/ActionSchedulingService.ts:15-17 | in every reachable state the expiry is at least an hour past the schedule and a day past the snooze |
| ActionLifecycle.ExpiryNeverDecreases | packages/backend-data/src/dao/EmailActionDAO.ts:177-202 | over any run a row's expiry only moves later |
| ActionLifecycle.ScheduledWindow | packages/backend-data/src/dao/EmailActionDAO.ts:213-219 | until the hour after the later of schedule and snooze ends, a pending row is safe from the expiry sweep and from retention of 31 days or more, is claimable, and passes the filter of the due list exactly from that instant on |
| ActionStability.ScheduledActionSurvives | packages/backend-services/src/action/ActionSchedulingService.ts:44-101 | over any run that ends inside the window, in which nobody acts on the action and whose message is kept as long, its row is unchanged, claimable, and passes the due filter once the window has begun |
| ActionStability.RetentionDecides | migrations/0021_squash.sql:245 | the row lasts through every such run if and only if the retention of its message, counted from its final mark or from now, does not end before the window does |
| ActionStability.ScheduledActionGoesWithMessage | apps/background/src/scheduled/ProcessedMessagePruningTask.ts:8-20 | with default settings, a reachable pending action scheduled for day 95 is deleted with its message before its window ends, although nobody acts on it |
| ActionStability.TurnOverwrites | packages/backend-services/src/action/ActionExecutionService.ts:85-121 | a turn changes the status of an ended action if and only if it is an executor's mark of another status that takes effect |
| ActionStability.TerminalStatusStays | packages/backend-services/src/action/ActionExecutionService.ts:68-125 | over any run an ended action keeps its status if and only if no such mark takes effect on it |
| ActionStability.TerminalIsFinalIff | packages/backend-services/src/action/ActionExecutionService.ts:68-125 | a terminal status is final in every run from here on if and only if no executor threatens it: none entered with an unfinished snapshot, none is before or at its handler or success mark, and none is about to record or mark otherwise |
| ActionStability.TurnExpires | packages/backend-services/src/action/ActionExecutionService.ts:85-86 | before the deadline a turn expires an action if and only if it is an executor's expiry mark that takes effect |
| ActionStability.ExpiredEarlyIff | packages/backend-services/src/action/ActionExecutionService.ts:85-86 | over any run that ends before the deadline, requests included, an action expires if and only if such a mark takes effect |
| ActionStability.EarlyExpiryIff | packages/backend-services/src/action/ActionExecutionService.ts:68-99 | some run expires a pending scheduled action before its window has ended if and only if one of its executors is at its expiry mark or entered with an unfinished snapshot whose deadline comes before that |
| ActionStability.OnlyStaleExecutorsExpire | packages/backend-services/src/action/ActionExecutionService.ts:85-86 | in every reachable state an executor at its expiry mark entered with an unfinished snapshot whose deadline is past |
| ActionStability.SuccessMayBecomeFailure | packages/backend-services/src/action/ActionExecutionService.ts:103-113 | terminal statuses are not absorbing: a run in which succeeded becomes failed |
| ActionStability.StaleExecutorExpiresScheduledRow | packages/backend-services/src/action/ActionExecutionService.ts:85-86 | a run in which a stale snapshot expires a rescheduled row before its window |
| ActionPruning.PruneBatch | apps/background/src/scheduled/EmailActionPruningTask.ts:17-22 | one batch expires and deletes disjoint parts of the eligible rows, its count is their sum, a short batch means nothing is left, and a batch with work does some |
| ActionPruning.PruneInBatches | packages/backend-data/src/utils/RepositoryHelper.ts:12-23 | at any positive batch size the loop ends; no row past its expiry is left pending, and no succeeded, failed, expired or pending row last written more than the retention days ago is left; every row written since and not past its expiry is there unchanged, and no executing row is deleted; the total is the size of the union of the two sets |
| ActionPruning.PrunedRows | packages/backend-services/src/action/ActionMaintenanceService.ts:16-20 | row by row, what a complete run leaves at a retention of so many days |
| ActionPruning.PruneIsEvents | packages/backend-services/src/action/ActionMaintenanceService.ts:10-21 | what the loop leaves is what the sweep and prune events of the action life cycle leave, which compute the cutoff themselves |
| ActionPruning.PrunedWork | packages/backend-services/src/action/ActionMaintenanceService.ts:10-21 | what is left after part of the work is exactly the rest of it |
| ActionPruning.PrunedTwice | packages/backend-data/src/utils/RepositoryHelper.ts:18-21 | two batches add up to one and share no row |
| ActionPruning.ExpireShrinksWork | packages/backend-data/src/dao/EmailActionDAO.ts:142-148 | expiring rows takes exactly those rows out of both sets |
| ActionPruning.DeleteShrinksWork | packages/backend-data/src/dao/EmailActionQueries.ts:97-104 | deleting rows takes exactly those rows out of both sets |
| ActionPruning.SweepsOverlap | apps/background/src/scheduled/EmailActionPruningTask.ts:13-15 | the two row sets are not disjoint, for any cutoff |
| MessageLease.ProcessedMessageDAO.TryStart | packages/backend-data/src/dao/ProcessedMessageDAO.ts:25-74 | run alone, starts if and only if no other row of the same application holds the fingerprint, and the message is new, or a retry is allowed and its row is in error, or has been processing for 900 seconds; and the row it writes |
| MessageLease.ProcessedMessageDAO.UpdateStatus | packages/backend-data/src/dao/ProcessedMessageDAO.ts:168-180 | sets status and time of that row only, whatever the status was |
| MessageLease.SoloIsTryStart | packages/backend-data/src/dao/ProcessedMessageDAO.ts:25-74 | a worker's separate statements, run without interruption, claim on exactly these conditions and leave the table that the whole method leaves |
| MessageLease.ClaimableIff | packages/backend-data/src/dao/ProcessedMessageDAO.ts:195 | the guards of the insert and of the retry together, in the terms of the table |
| MessageLease.OtherApplicationsDoNotMatter | migrations/0021_squash.sql:299 | tables that agree on the rows of one application let the same of its messages be claimed |
| MessageLease.StepKeepsLeaseInv | packages/backend-data/src/dao/ProcessedMessageDAO.ts:222-247 | every statement of every worker keeps each message's history legal and in agreement with its row |
| MessageLease.LeaseHolds | packages/backend-data/src/dao/ProcessedMessageDAO.ts:222-247 | over every interleaving of the split `tryStart`, claims with no mark between them lie at least 900 seconds apart each, and a claim never directly follows a summary or a skip |
| MessageLease.OneRowPerFingerprint | packages/backend-data/src/dao/ProcessedMessageDAO.ts:56-65 | no two messages of an application ever hold one fingerprint |
| MessageLease.StepKeepsPromptInv | packages/backend-data/src/dao/ProcessedMessageDAO.ts:76-86 | with prompt workers, whoever may still mark a message holds its newest claim |
| MessageLease.PromptWorkersAlternate | packages/backend-data/src/dao/ProcessedMessageDAO.ts:22-86 | if every worker marks once and within 900 seconds, each mark answers the claim right before it, a message is summarized once until pruned, the row shows the last mark, and at most one worker may mark it |
| MessageLease.FinalMarkIff | packages/backend-data/src/dao/ProcessedMessageDAO.ts:76-86 | while each claim is marked at most once, a summary or a skip stays the last word on its message until that is pruned, in every run from here on, if and only if nobody holds an unanswered claim on it |
| MessageLease.LateMarkSummarizesTwice | packages/backend-data/src/dao/ProcessedMessageDAO.ts:76-78 | a late mark does summarize a message twice |
| MessageLease.ClaimWinsAfterChange | packages/backend-data/src/dao/ProcessedMessageDAO.ts:222-247 | a run in which the row's `updated_at` moves between a worker's read and its claim, and the claim still wins |
| QueueDispatch.OnQueue | apps/background/src/EmailEventsDispatcherWorker.ts:21-54 | in whatever order the fallback's creates take effect and settle, every message is settled once: retried if and only if the batch and its own create failed and that error does not read like a duplicate; the ids that exist afterwards are the old ones, those the batch got to, and those of the creates that worked or took effect; and no message is acked without its instance if and only if every failure that reads like a duplicate was of an instance that is there in the end |
| QueueDispatch.LooksDuplicateIff | apps/background/src/EmailEventsDispatcherWorker.ts:61-64 | an error reads like a duplicate if and only if `duplicate` or `exists` stands somewhere in it, each letter in either case |
| QueueDispatch.CreateEach | apps/background/src/EmailEventsDispatcherWorker.ts:39-53 | the fallback alone, its creates and settlements interleaved in any way |
| QueueDispatch.EmailProcessingWorkflow.CreateBatch | apps/background/src/EmailEventsDispatcherWorker.ts:31-37 | a batch creates missing instances only, all of them when it succeeds and those it reached when it fails |
| QueueDispatch.EmailProcessingWorkflow.Create | apps/background/src/EmailEventsDispatcherWorker.ts:41-51 | creates the instance if it is missing, reports that it exists if not, or fails with or without effect |
| QueueDispatch.NoInstanceTwice | apps/background/src/EmailEventsDispatcherWorker.ts:21-59 | over any run of deliveries, partial failures, crashes and redeliveries, whatever the failures say, no instance is created twice |
| QueueDispatch.StepBackedIff | apps/background/src/EmailEventsDispatcherWorker.ts:41-51 | one turn leaves a message about to be acked without its instance if and only if it is a create whose failure misleads |
| QueueDispatch.NoMessageLostIff | apps/background/src/EmailEventsDispatcherWorker.ts:21-64 | over any run no message is acked without its instance, now or by the next ack, if and only if no failure reads like a duplicate of an instance that is not there |
| QueueDispatch.MisleadingFaultLosesMessage | apps/background/src/EmailEventsDispatcherWorker.ts:61-64 | a fault that only mentions `exists` gets a message acknowledged without an instance |
| SummaryReply.OutlookClient.SendSelfSummaryReply | packages/provider-clients/src/OutlookProviderUtil.ts:226-288 | the method with its early returns leaves the mailbox that the attempt function gives, wherever it stops |
| SummaryReply.AttemptIff | packages/provider-clients/src/OutlookProviderUtil.ts:226-288 | from any mailbox, an attempt sends a reply if and only if both searches pass and find nothing and the send takes effect, adds an inbox copy if and only if the inbox shows none and a reply is shown or sent and found by four polls and the copy takes effect, and completes if and only if nothing on that way fails |
| SummaryReply.SentAfterIff | packages/provider-clients/src/OutlookProviderUtil.ts:235-258 | what an attempt leaves in Sent Items: one reply goes if it was found there and its copy is in the inbox or was just made, and a reply just sent stays unless it was copied and deleted |
| SummaryReply.OutlookClient.FindSentSummaryMessage | packages/provider-clients/src/OutlookProviderUtil.ts:305-317 | the poll loop finds the reply if and only if it shows up within four polls |
| SummaryReply.OutlookClient.FindSummaryMessageInFolder | packages/provider-clients/src/OutlookProviderUtil.ts:290-299 | the first message of the folder that the index shows |
| SummaryReply.OutlookClient.CopyThenDelete | packages/provider-clients/src/OutlookProviderUtil.ts:247-249 | the common tail of a first and of a resumed attempt: one more inbox copy unless the copy fails, and the reply gone only after it completed |
| SummaryReply.OutlookClient.DeleteMessage | packages/provider-clients/src/OutlookProviderUtil.ts:416-424 | removes the copy, an absent one counting as removed |
| SummaryReply.AttemptDoublesIff | packages/provider-clients/src/OutlookProviderUtil.ts:226-288 | from a mailbox in order, an attempt sends a second reply if and only if one is out, both searches pass and show nothing, and the send takes effect; it makes a second inbox copy if and only if one is there and not shown, a reply in Sent Items is shown or found by the polls, and the copy takes effect |
| SummaryReply.SafeViewIff | packages/provider-clients/src/OutlookProviderUtil.ts:226-288 | what the searches show is safe, however the calls then end, if and only if they show an inbox copy that exists and, while there is none, a sent reply that exists |
| SummaryReply.CompletedAttempt | packages/provider-clients/src/OutlookProviderUtil.ts:226-288 | an attempt that completes in safe view leaves one reply and one inbox copy, and nothing in Sent Items unless a leftover there was not shown |
| SummaryReply.OneReplyOneCopyIff | packages/provider-clients/src/OutlookProviderUtil.ts:226-317 | over any number of attempts stopped anywhere, there is never more than one reply and one inbox copy if and only if no attempt doubles them in one of these ways |
| SummaryReply.OneReplyOneCopy | packages/provider-clients/src/OutlookProviderUtil.ts:226-317 | with a safe view whenever an attempt begins, over any number of attempts stopped anywhere at most one reply is sent and one inbox copy exists |
| SummaryReply.UndisturbedAttemptCompletes | packages/provider-clients/src/OutlookProviderUtil.ts:226-288 | from every mailbox in order and safely shown an attempt without failures completes |
| SummaryReply.LaggingIndexSendsTwice | packages/provider-clients/src/OutlookProviderUtil.ts:245-258 | with a lagging index two replies are sent |
| SummaryReply.InboxLagSendsTwice | packages/provider-clients/src/OutlookProviderUtil.ts:235-258 | with Sent Items always shown, a copy that the index still hides gets a second reply after a delete that took effect |
| Keyset.Select | packages/backend-data/src/dao/ContextAuditLogDAO.ts:120-123 | ORDER BY and LIMIT give the first rows of the sorted result |
| Keyset.List | packages/backend-data/src/dao/ProcessedMessageDAO.ts:265-299 | for any requested limit: the rows the cursor admits, newest first and the larger id first, as many as the limit clamped to 1 and the cap with a cursor to the last, or fewer and none left out |
| Keyset.PageIsNextRows | packages/backend-data/src/dao/ContextAuditLogDAO.ts:101-129 | a page is the next rows in order, a cursor comes exactly when more remain, and it leaves what was left less the page |
| Keyset.CursorsOnlyAdvance | packages/backend-data/src/dao/ContextAuditLogDAO.ts:105-119 | a later cursor admits only rows the earlier one did and only rows older than the page between them |
| Keyset.DrainIsExact | packages/backend-data/src/dao/ProcessedMessageDAO.ts:265-299 | draining while rows come and go, with any page sizes and any ties, is strictly in order, repeats nothing, invents nothing, and has every row that was there throughout |
| Keyset.StillTableDrainsSorted | packages/backend-data/src/dao/ContextAuditLogDAO.ts:101-129 | a table that stands still is drained in a bounded number of requests and comes out as the sorted table |
| Keyset.TopAgrees | packages/backend-data/src/dao/ActivityDAO.ts:62-67 | two result sets agree on their first `n` rows when each row missing from the smaller has `n` of its rows in front |
| Keyset.OrderedIsSorted | packages/backend-data/src/dao/ActivityDAO.ts:82-84 | an ordered list is determined by its elements |
| AuditLog.ContextAuditLogDAO.InsertAuditLogs | packages/backend-data/src/dao/ContextAuditLogDAO.ts:70-99 | every input is stored once and in order under one timestamp, no statement has more than 100 parameters, and no fewer statements would do |
| AuditLog.ContextAuditLogDAO.ListAuditLogs | packages/backend-data/src/dao/ContextAuditLogDAO.ts:101-129 | the page holds rows of that document only, at most 100, and all of them when there is neither a cursor to start from nor one to go on |
| AuditLog.ChunkFillsStatement | packages/backend-data/src/dao/ContextAuditLogDAO.ts:24-34 | nine rows fit the cap and ten do not |
| AuditLog.LogDrainsExactly | packages/backend-data/src/dao/ContextAuditLogDAO.ts:60-129 | draining one document's log while batches are appended and rows deleted gives each row present throughout, in order and once, although whole batches share a timestamp |
| ActivityFeed.Merge | packages/backend-data/src/dao/ActivityDAO.ts:62-64 | flattening and sorting the three results gives the sorted union of their rows |
| ActivityFeed.FetchSuffices | packages/backend-data/src/dao/ActivityDAO.ts:43-60 | fetching `limit + 1` rows of each source loses nothing of the first `limit + 1` of the union |
| ActivityFeed.ActivityDAO.ListForUser | packages/backend-data/src/dao/ActivityDAO.ts:42-73 | the page holds rows of the sources asked for, of all three if none is, that the cursor admits; as many as the limit clamped to 1 and 100 with a cursor, or all of them without; and it is the page cut from all that is left, in order |
| ActivityFeed.RestIsAsked | packages/backend-data/src/dao/ActivityDAO.ts:47-60 | what is left to list are the rows of the sources asked for, of all three if none is, behind the cursor |
| ActivityFeed.PageIsNextEntries | packages/backend-data/src/dao/ActivityDAO.ts:42-73 | a page is the first `limit` of the remaining rows of the sorted union, with a cursor if and only if more remain |
| ActivityFeed.LastIdsAreLast | packages/backend-data/src/dao/ActivityDAO.ts:236-256 | the cursor holds, for each source on the page and no other, the id of that source's last entry |
| ActivityFeed.PageAccounting | packages/backend-data/src/dao/ActivityDAO.ts:96-112 | what the next cursor leaves is what was left, less the page, less exactly the rows shut out at the shared boundary timestamp; none when no two sources share one |
| ActivityFeed.DrainNeverRepeats | packages/backend-data/src/dao/ActivityDAO.ts:42-112 | with any ties and changing tables a drain is in time order and repeats nothing |
| ActivityFeed.DrainMissesNoEntry | packages/backend-data/src/dao/ActivityDAO.ts:42-112 | without shared timestamps a row that is there at every request is in the drain |
| ActivityFeed.StillDrainIsSortedUnion | packages/backend-data/src/dao/ActivityDAO.ts:42-112 | without shared timestamps the drain of standing tables is the sorted union, entry for entry |
| ActivityFeed.DrainGivesWhatIsAsked | packages/backend-data/src/dao/ActivityDAO.ts:47-60 | if no timestamp is in two sources, an entry is in the feed read at any page size if and only if it is in the tables and of a source asked for, of any if none is |
| ActivityFeed.CompleteIffNoSharedTimestamps | packages/backend-data/src/dao/ActivityDAO.ts:30-32 | the feed is complete at every page size if and only if no timestamp is shared by two of the sources asked for |
| ActivityFeed.ExportActivity | packages/backend-services/src/activity/ActivityService.ts:54-84 | over tables that others change between its requests, the do/while loop gives what at most a hundred pages of a hundred hold, and whether a cursor is left over |
| ActivityFeed.ExportIsDrain | packages/backend-services/src/activity/ActivityService.ts:64-84 | the file is the drain with pages of a hundred, truncated if and only if that drain does not finish |
| ActivityFeed.ExportNeverRepeats | packages/backend-services/src/activity/ActivityService.ts:64-74 | the file is in time order and repeats nothing, whatever timestamps are shared and however the tables change meanwhile |
| ActivityFeed.ExportMissesNoEntry | packages/backend-services/src/activity/ActivityService.ts:64-84 | without shared timestamps a file that is not truncated holds every row that is there at every request |
| ActivityFeed.ExportIsPrefix | packages/backend-services/src/activity/ActivityService.ts:64-84 | without shared timestamps and writes meanwhile the file is the first entries of the sorted union, truncated if and only if there are more |
| ActivityFeed.ExportBound | packages/backend-services/src/activity/ActivityService.ts:21-31 | that is the first 10,000 entries |
| PdfLiteral.LoopPassesBody | packages/backend-services/src/drive/DriveDocumentUtil.ts:24-42 | the reading loop runs over every balanced body and leaves it at the depth at which it entered |
| PdfLiteral.LoopReadsBodies | packages/backend-services/src/drive/DriveDocumentUtil.ts:24-42 | what the loop has read when it stops is one balanced body for each parenthesis open where it started |
| PdfLiteral.LoopFindsLiteral | packages/backend-services/src/drive/DriveDocumentUtil.ts:19-44 | the loop stops at a position if and only if a literal string of section 7.3.4.2 ends there, so at most one starts at any place |
| PdfLiteral.ReadPdfString | packages/backend-services/src/drive/DriveDocumentUtil.ts:19-44 | returns the content and end of the one literal string at `i`, and -1 if and only if there is none |
| PdfEscapes.UnescapeIsExact | packages/backend-services/src/drive/DriveDocumentUtil.ts:7-14 | the five replacements give a literal string its meaning, over the whole escape table, if and only if no escaped backslash stands directly before a bare `n`, `r`, `t` or parenthesis and there is no `\b`, `\f`, octal code, escaped line break, unknown escape or bare carriage return |
| PdfEscapes.EveryStringIsUnits | packages/backend-services/src/drive/DriveDocumentUtil.ts:7-14 | every string that does not end in the middle of an escape is a sequence of such units, each carriage return a part of a line break |
| PdfEscapes.UnescapeYieldsOutcome | packages/backend-services/src/drive/DriveDocumentUtil.ts:7-14 | what the five replacements make of any literal string, unit by unit |
| PdfEscapes.UnescapeUndoesEscape | packages/backend-services/src/drive/DriveDocumentUtil.ts:7-14 | unescaping undoes escaping of backslashes and parentheses if and only if no backslash of the text is directly followed by `n`, `r` or `t` |
| PdfEscapes.BackslashNIsMisread | packages/backend-services/src/drive/DriveDocumentUtil.ts:9-12 | an escaped backslash and an n come back as a backslash and a newline |
| PdfEscapes.UnknownEscapesStay | packages/backend-services/src/drive/DriveDocumentUtil.ts:7-14 | a `\b` and the octal code of an A come back as they were written |
| PdfText.ReadTjArray | packages/backend-services/src/drive/DriveDocumentUtil.ts:49-66 | the strings of the array and a position past its start and within the text, or -1 |
| PdfText.SkipWs | packages/backend-services/src/drive/DriveDocumentUtil.ts:68-72 | the first position that is not PDF white space |
| PdfText.CollectTj | packages/backend-services/src/drive/DriveDocumentUtil.ts:117-127 | adds the string shown, unless blank, and always moves on within the text |
| PdfText.CollectTjArray | packages/backend-services/src/drive/DriveDocumentUtil.ts:129-141 | adds the strings shown that are not blank, and always moves on within the text |
| PdfText.ExtractTextFromPdf | packages/backend-services/src/drive/DriveDocumentUtil.ts:95-115 | the scan ends on every text and joins what its steps collect |
| PdfText.ItemsRead | packages/backend-services/src/drive/DriveDocumentUtil.ts:49-66 | an array of strings and numbers is read as its strings, in order |
| PdfText.ItemsAreItems | packages/backend-services/src/drive/DriveDocumentUtil.ts:49-66 | and whatever the item loop reads is strings with other characters between them, and a closing bracket |
| PdfText.ArrayIff | packages/backend-services/src/drive/DriveDocumentUtil.ts:49-66 | the loop ends at a position with these strings if and only if an array with them ends there |
| PdfText.StringIsShownIff | packages/backend-services/src/drive/DriveDocumentUtil.ts:117-127 | a literal string is collected, unescaped and unless blank, if and only if `Tj` follows it after white space and no longer word; and where the scan goes on |
| PdfText.NoStringIsPassed | packages/backend-services/src/drive/DriveDocumentUtil.ts:117-119 | a parenthesis that opens no literal string is stepped over |
| PdfText.ArrayIsShownIff | packages/backend-services/src/drive/DriveDocumentUtil.ts:129-141 | the strings of an array are collected if and only if `TJ` follows it in the same way |
| PdfText.NoArrayIsPassed | packages/backend-services/src/drive/DriveDocumentUtil.ts:129-131 | a bracket that opens no array is stepped over |
| PdfText.ScanFindsContents | packages/backend-services/src/drive/DriveDocumentUtil.ts:95-141 | the scan of a document of filler, `Tj` and `TJ` operators finds the strings it shows, in order, and nothing else |
| PdfText.ExtractionGivesTexts | packages/backend-services/src/drive/DriveDocumentUtil.ts:95-141 | round trip: a document showing given texts in any mix of operators and filler gives back the nonblank ones joined by spaces and trimmed |
| PdfText.JoinPlacesTexts | packages/backend-services/src/drive/DriveDocumentUtil.ts:113 | joining puts every text at its place with one space between each and the next, and nothing else |
| PdfText.TrimCutsSpace | packages/backend-services/src/drive/DriveDocumentUtil.ts:113 | trimming takes space off both ends and leaves none there |
| PdfText.TrimEmpty | packages/backend-services/src/drive/DriveDocumentUtil.ts:112-123 | the test for emptiness after trimming is a test for blankness |
| ChainScanner.SkipString | scripts/rewrite-base-dao.py:57-72 | the loop, recursing into holes, computes the scan function and ends |
| ChainScanner.ScanBraced | scripts/rewrite-base-dao.py:75-92 | the loop, recursing into strings, computes the scan function and ends |
| ChainScanner.ScanCall | scripts/rewrite-base-dao.py:24-54 | on every text on which the loop ends it returns what its turns lead to, and where it meets no unclosed block comment that is what the scan function says |
| ChainScanner.PassesString | scripts/rewrite-base-dao.py:57-72 | every string literal of the grammar, holes and all, is passed as a whole |
| ChainScanner.PassesBraces | scripts/rewrite-base-dao.py:75-92 | every braced body is passed at its depth, whatever its strings hold |
| ChainScanner.PassesCall | scripts/rewrite-base-dao.py:34-53 | every call body with its strings, parentheses and comments is passed at its depth |
| ChainScanner.ReadsCall | scripts/rewrite-base-dao.py:34-53 | what the scan has read when it stops is one well-formed body for each parenthesis open where it started |
| ChainScanner.SkipStringIsExact | scripts/rewrite-base-dao.py:57-72 | ends at `n` if and only if a string literal stands there up to `n` |
| ChainScanner.ScanBracedIsExact | scripts/rewrite-base-dao.py:75-92 | finds a brace if and only if it is the one that closes the first |
| ChainScanner.ScanCallIsExact | scripts/rewrite-base-dao.py:24-54 | ends behind a closing parenthesis if and only if a call of the grammar ends there: the first position where every code-level parenthesis is closed again |
| ChainScanner.NotLost | scripts/rewrite-base-dao.py:44-46 | when every block comment is closed no scan meets an unclosed one |
| ChainScanner.RanOffIff | scripts/rewrite-base-dao.py:39-43 | the scan returns the end of the text for a call that is not closed if and only if what stands there leaves a parenthesis open and ends in a line comment |
| ChainScanner.TurnIsScan | scripts/rewrite-base-dao.py:34-54 | away from unclosed comments each turn of the raw loop is a step of the scan |
| ChainScanner.LostShifts | scripts/rewrite-base-dao.py:34-54 | a scan that meets an unclosed block comment does so from deeper down too, with the same change of depth, and from higher up unless a parenthesis closes the call first |
| ChainScanner.ScanEndsIff | scripts/rewrite-base-dao.py:24-54 | the raw loop ends if and only if the scan meets no unclosed block comment, or the scan from position 1 at the depth it then has meets none or meets one at a smaller depth |
| ChainScanner.LoopResultIsScan | scripts/rewrite-base-dao.py:24-54 | a scan that meets no unclosed block comment is what the raw loop does |
| ChainScanner.OutcomeIsResult | scripts/rewrite-base-dao.py:24-54 | the raw loop ends exactly when scanning again from position 1 at ever smaller depths does, and where that does |
| ChainScanner.LostScans | scripts/rewrite-base-dao.py:44-46 | three texts with an unclosed comment: the loop stays at one place, ends in front of the call, or goes ever deeper |
| ArgumentSplit.SplitArgs | scripts/rewrite-base-dao.py:95-123 | the stripped segments, a blank last one left out, or the error of an unterminated string |
| ArgumentSplit.SplitIsExact | scripts/rewrite-base-dao.py:95-123 | the segments are the one way to write the list as pieces without a top-level comma, balanced but for the last, joined by commas |
| ArgumentSplit.SplitGivesArguments | scripts/rewrite-base-dao.py:95-123 | arguments of characters, string literals and bracketed groups, joined by commas, are split into exactly these: a comma in a string or in brackets does not split |
| ArgumentSplit.PassesExpr | scripts/rewrite-base-dao.py:108-112 | such an argument leaves the bracket depth as it was, wherever it stands |
| ArgumentSplit.StripCutsSpace | scripts/rewrite-base-dao.py:114-120 | stripping takes space off both ends and leaves none there |
| ChainLoop.ReadChain | scripts/rewrite-base-dao.py:134-154 | one turn of the loop, up to the bind call, wherever the scan of the query ends |
| ChainLoop.ReadBind | scripts/rewrite-base-dao.py:148-157 | one turn, the bind call and its split, wherever that scan ends |
| ChainLoop.ReadVerb | scripts/rewrite-base-dao.py:159-199 | one turn, from the verb to the replacement |
| ChainLoop.StripResultsThen | scripts/rewrite-base-dao.py:204-220 | where the text goes on behind a chain, wherever the scan of its call ends |
| ChainLoop.Rewrite | scripts/rewrite-base-dao.py:126-201 | on every text on which the loop over the changing text ends, a scan that gets lost included, it gives what the loop's turns lead to |
| ChainLoop.TurnIsDecision | scripts/rewrite-base-dao.py:134-199 | where no scan gets lost, a turn of the loop is the decision about the chain there |
| ChainLoop.RewriteIsExact | scripts/rewrite-base-dao.py:126-201 | on a text on which no scan gets lost the loop ends, with the rewritten text and count or the error |
| ChainRewrite.ClosedTextIsRewritten | scripts/rewrite-base-dao.py:126-201 | when every block comment is closed the loop never goes astray |
| ChainRewrite.ChainFound | scripts/rewrite-base-dao.py:134-199 | what one turn replaces is a chain of two balanced calls, one of the verbs `all`, `first`, `run` and `batch`, an optional type argument and envelope, and its replacement is built from those parts |
| ChainRewrite.ChainIsRewritten | scripts/rewrite-base-dao.py:134-199 | the converse: wherever such a chain, with any of these four verbs, stands, one turn replaces it by its rewriting |
| ChainRewrite.VerbsAreWords | scripts/rewrite-base-dao.py:21 | the verbs tried are these four words |
| ChainRewrite.ThenStands | scripts/rewrite-base-dao.py:204-220 | a `.then(...)` behind a chain goes with it if and only if its body mentions `results` |
| ChainRewrite.NoThen | scripts/rewrite-base-dao.py:211-214 | without one the rest of the text is handed back untouched |
| ChainRewrite.ContainsIff | scripts/rewrite-base-dao.py:211-218 | the test for `results` is whether the word stands anywhere in the body |
| ChainRewrite.LoopRewritesChain | scripts/rewrite-base-dao.py:129-199 | when the loop comes to a chain it puts the rewriting in its place, counts it and goes on behind it |
| ChainRewrite.SmallestIsRewritten | scripts/rewrite-base-dao.py:2-4 | the smallest chain becomes `this.all(s, [a])` |
| ChainRewrite.OnlyChainsChange | scripts/rewrite-base-dao.py:126-201 | text and result are the same list of pieces but for the chains, each chain is rewritten, and the count is their number; a piece that is kept holds no `this.database`, and one that is stepped over is `this.database` with the calls of its `prepare` and `bind` |
| ChainRewrite.FlattenKeepsWords | scripts/rewrite-base-dao.py:183-187 | the query keeps its words in order and apart; only commas at its end are dropped |
| ChainRewrite.FlattenIsOneLine | scripts/rewrite-base-dao.py:184-187 | the flattened query has no line break |
| ChainRewrite.CommentSwallowsCall | scripts/rewrite-base-dao.py:183-198 | a line comment in a query swallows what follows once the query is on one line, so that the rewritten text is no call |
| ChainComments.RewritingIsCallIff | scripts/rewrite-base-dao.py:157-198 | for a chain without a line comment in its argument list: if there is none in its query either, the rewriting is a call again; and if the arguments stay on one line, it is one only then |
| ChainComments.OneLineArgumentsIff | scripts/rewrite-base-dao.py:157-198 | when the argument list has no line break, the rewriting is a call again if and only if the scan of the query meets no line comment |
| ChainComments.RewrittenHasCall | scripts/rewrite-base-dao.py:187-190 | that call is what stands behind the verb and type argument in the rewriting of the chain |
| ChainRewrite.ArgumentsKeepBindings | scripts/rewrite-base-dao.py:157-189 | the arguments keep every visible character in order, except one comma behind the last |
| Digest.NormalizedIsTime | packages/backend-services/src/digest/DigestConfigService.ts:103-107 | the stored send time is a time of day: the one given when it is one, otherwise 08:00; normalizing twice changes nothing |
| Digest.TimeIff | packages/backend-services/src/digest/DigestConfigService.ts:103-107 | a time of day is two digits up to 23, a colon and two digits up to 59 |
| Digest.DigestConfigService.SaveConfig | packages/backend-services/src/digest/DigestConfigService.ts:43-53 | stores the setting and the normalized time and keeps the last mark |
| Digest.DigestConfigService.MarkSent | packages/backend-services/src/digest/DigestConfigService.ts:55-58 | changes the mark only |
| Digest.DigestConfigService.IsDueToSend | packages/backend-services/src/digest/DigestConfigService.ts:60-101 | due if and only if enabled, within ten minutes from the send time, and not marked on this local day |
| Digest.DigestConfigService.BuildAndSend | packages/backend-services/src/digest/DigestService.ts:83-108 | sends if and only if there are content and a recipient and the send works; marks what it sent and what had no content; changes nothing else |
| Digest.DigestConfigService.HandleTick | apps/background/src/scheduled/ScheduledDigestTask.ts:55-76 | one tick is the step of the run |
| Digest.AtMostOnce | packages/backend-services/src/digest/DigestConfigService.ts:87-98 | at most one digest a local day, over any ticks, failures and changes of settings, if sent digests are marked on the day they started |
| Digest.SwitchedOffSendsNone | packages/backend-services/src/digest/DigestConfigService.ts:62 | while it is switched off, no run of ticks sends a digest on any day |
| Digest.SentOnceIff | packages/backend-services/src/digest/DigestConfigService.ts:87-98 | after a digest was sent, no run that follows sends another on that local day if and only if it was marked, and on that day |
| Digest.LostMarkSendsTwice | packages/backend-services/src/digest/DigestService.ts:106-107 | a digest that is sent and not marked is sent again |
| Digest.ExactlyOnce | packages/backend-services/src/digest/DigestConfigService.ts:80-98 | with steady ticks and a send time of 23:50 or earlier, exactly one digest on every local day the run covers |
| Digest.LateWindowIsMissed | packages/backend-services/src/digest/DigestConfigService.ts:81-83 | for every later send time, ticks ten minutes apart that miss the day |
| Digest.OnceADayIffBeforeTenToMidnight | packages/backend-services/src/digest/DigestConfigService.ts:80-83 | once a day, for all such runs, if and only if the send time is 23:50 or earlier |
| Digest.SkippedIffMarkedAhead | packages/backend-services/src/digest/DigestConfigService.ts:80-98 | with a send time of 23:50 or earlier and ticks at most ten minutes apart, each marked at some time before the next, a covered local day gets exactly one digest, or none if and only if the digest of an earlier day is marked on it |
| Digest.MarkAfterMidnightSkipsADay | packages/backend-services/src/digest/DigestConfigService.ts:87-97 | a mark written after midnight keeps the next day's digest from being sent |
| ChangeEmail.Database.Run | scripts/change-email.ts:206-288 | which arguments, accounts and addresses are refused without a change and in which way, which account is meant, and what a run that reaches the first `n` statements leaves |
| ChangeEmail.Database.ClaimAddress | scripts/change-email.ts:260-261 | the first statement gives the address to the account, verified |
| ChangeEmail.Database.MoveAddress | scripts/change-email.ts:262 | the second changes only that account's current address, and fails exactly on the unique index |
| ChangeEmail.Database.RevokeOthers | scripts/change-email.ts:263 | the third revokes the account's other addresses and no one else's |
| ChangeEmail.EveryPrefixIsSound | scripts/change-email.ts:252-264 | after every prefix each account's current address is a verified one of its own, no other account lost a verified address, anchors are unchanged, the unique index is met, and the account can sign in |
| ChangeEmail.EndsWithOneAddress | scripts/change-email.ts:259-264 | at the end the new address is current and the only verified one |
| ChangeEmail.RunningAgainCompletes | scripts/change-email.ts:43-46 | a second run, from any cut-off point, passes the guard and ends in the same database |
| ChangeEmail.NewAddressNamesAccount | scripts/change-email.ts:43-46 | afterwards the new address resolves to this account and no other |
| ChangeEmail.GuardIsExact | scripts/change-email.ts:233-250 | the guard refuses exactly the runs that would take a verified address from another account |
| ChangeEmail.RevokingFirstLocksOut | scripts/change-email.ts:27-36 | revoking first leaves the account without a verified address, unless it already owned the new one |
| ChangeEmail.AcceptedHasNoQuote | scripts/change-email.ts:146-159 | a value that passes the allow-list has no quote in it |
| ChangeEmail.PlainEmailIff | scripts/change-email.ts:151-154 | an address is accepted if and only if it is a nonempty local part, one `@` and a nonempty domain, each of the listed characters |
| ChangeEmail.TokenIff | scripts/change-email.ts:156-159 | an id is accepted if and only if it is nonempty and of the listed characters |

## Left out

- HTTP routes, the web client, HTML rendering, translations, configuration and wiring: no deep property.
- Encryption, hashing, cursor encoding, `Intl`, Vectorize and Workers AI: encryption is the identity, hashes are injective, cursors are decoded records, the hour of a day runs from 0 to 23.
- Credential writes outside the token worker (`updateForUser`, `exchangeCode`): excluded by hypothesis; eviction of the worker is not modelled.
- TokenRotation.ExclusiveRotationIsSafe: assumes that no event loses a rotation; `LostIff` says which events do.
- The provider's side of a refresh is one atomic step; access tokens and the KV cache's contents are not modelled.
- Columns that no modelled decision reads: results, error texts, thread ids, execution records, timestamps of address rows.
- `listActionsForUser` and its (`updated_at`, `created_at`) key, sync status and counts: the key is not unique and rows move, so there is no exactly-once claim.
- The counters of `executeScheduledActions` and its limit of 50 rows a run.
- ActionLifecycle.ScheduledWindow: the order and the limit of the due list are not part of it.
- ActionStability.ScheduledActionSurvives: assumes that no executor's claim or mark, request or cleanup takes effect on the action; `EarlyExpiryIff` says exactly which executors can expire it early.
- ActionPruning.PruneBatch: both sweeps share one clock reading, where the code reads the clock for each.
- ActionPruning.PruneInBatches: all batches share one clock reading, likewise.
- ActionLifecycle reads the clock in the same step as the statement that stores it; MessageLease does not.
- MessageLease drops the provider column: an application has one provider, so the fingerprint key says the same.
- MessageLease.PromptWorkersAlternate: assumes one mark per claim, less than 900 seconds after it; `LateMarkSummarizesTwice` shows why, and `FinalMarkIff` says exactly when a mark is final.
- SummaryReply.OneReplyOneCopy: assumes a safe view whenever an attempt begins; `OneReplyOneCopyIff` says exactly what is needed.  Delivery of the reply to the sink address is not modelled, nor is an index that still shows a deleted message.
- Ids stand for their rank in a collation that SQL and the merge comparator share, and are unique per source and timestamp.
- The user scope and filters of lists: a list pages over whatever set of rows they leave.
- `extractText` for plain text, `buildIndexedText` and truncation: no deep property; the PDF text is modelled after UTF-8 decoding, with one character per code point.
- PdfText.ExtractionGivesTexts: texts with a backslash directly in front of `n`, `r` or `t` are outside the round trip, because `UnescapeUndoesEscape` shows that exactly those do not survive.
- The kinds of exception of the codemod (assertion, index, value) are one error; file handling and `main` are not modelled.
- ChainScanner.ScanCall: is called only on texts on which the loop ends, which `ScanEndsIff` describes.
- ChainLoop.Rewrite: says nothing about when the loop ends on a text on which a scan gets lost; otherwise it ends (`RewriteIsExact`).
- ChainComments.RewritingIsCallIff: line comments in the argument list, and line breaks in it behind a comment in the query, are outside it.
- Daylight saving, manual sends and ticks of one application that overlap in time: the digest assumes a fixed offset and that a tick's mark is written before the next tick.
- Digest.ExactlyOnce: assumes that every due send succeeds and is marked on its own local day.
- The argument parser of the address script, its report, and the wrangler process; a statement takes effect or not as a whole.
- Drive and OneDrive change listing and the document index: their guarantees do not hold as documented and depend on remote paging.
