# Reliability layer of the compliance hub: model and proofs

The backend drives its business workflows by events. A change is written to a table and queued in an outbox, a dispatcher
publishes it, a saga engine reacts by running workflow steps and undoing them on failure, clients page through the
results, encryption keys are rotated under the running system, and caches, locks, breakers and limits keep it all stable.
This project models that layer in Dafny and proves what each part keeps over every run.

`dafny verify dfyconfig.toml` checks everything. The files:

| file | models |
|---|---|
| `timed_cache.dfy` | the in-memory cache with lazy expiry |
| `event_dedup.dfy` | the ring that drops repeated events |
| `saga_model.dfy` | what one event and one sweep do to the engine's state, as functions |
| `saga_engine.dfy` | the engine object, each method proved against those functions |
| `saga_trace.dfy` | the histories an instance may have, and the invariant of every run |
| `saga_recent.dfy`, `business_search.dfy` | the list of recent summaries over runs, and when a search is out of date |
| `saga_reports.dfy` | which input each line of a history comes from, and what one delivery or one sweep lists |
| `saga_events.dfy` | which events move an instance; two sweepers; a delivery cut off |
| `saga_runs.dfy` | timely sweeps, second copies, properties carried from steps to runs |
| `business_sagas.dfy`, `business_steps.dfy`, `business_lives.dfy` | the four registered workflows over their tables, step by step, from first event to last, and failing on the way |
| `business_runs.dfy`, `business_turns.dfy` | the compliance workflow inside the engine, alone and among other writers |
| `keyset_order.dfy`, `pagination.dfy`, `pagination_walk.dfy` | one page, and whole walks over a fixed or changing table |
| `pagination_request.dfy` | what a page shows, refuses and counts, in the words of the request |
| `crypto_ring.dfy`, `reencrypt.dfy` | versioned ciphertext, dual read, in-place migration |
| `resilience.dfy`, `lock.dfy` | retries, circuit breaker, token lock |
| `outbox.dfy`, `outbox_runs.dfy`, `outbox_batches.dfy`, `outbox_guarded.dfy` | the outbox dispatcher; runs of several dispatchers through key rotations; batches, their reports, progress and duration; polls behind the breaker |
| `rate_limit.dfy`, `repository.dfy` | two clients of the cache: request counter and cache-aside reads |
| `audit_diff.dfy`, `permissions.dfy` | redacted field diffs, the permission table |
| `wrappers.dfy`, `clock.dfy` | optional and failing results, time units |

How the model stands to the code:

- Objects with fields are classes; their methods are proved against functions on values, and the theorems about runs are
  proved of those functions. Time, database failures, bus refusals, random tokens and nonces are parameters, so every
  theorem holds for all of them. Integers are unbounded; no counter of the code comes near its width.
- One call of the engine, the dispatcher, the repository or the rate limiter is one atomic step, as if calls came one at a
  time. The code runs a goroutine per delivery and makes only the claim of a new instance atomic; the part after a missed
  load is therefore also a step of its own (`Race`). The outbox runs also have any number of dispatchers that read their
  batches and then serve the copies, each delivery with its record one step (`Fetch`, `Serve`); the runs of
  `business_turns.dfy` also have commits of other writers. The limiter reads and writes its counter in two cache calls,
  so `NoWindowExceedsLimit` holds for requests of a client that do not overlap. A step reads the clock once, except that
  the dispatcher's clock moves by the pauses of its retries.
- Cryptography (AES-GCM, sections 7.1 and 7.2 of NIST SP 800-38D), base64 (section 4 of RFC 4648) and the key fingerprint
  are abstract functions with the assumptions of `CryptoRing.Sound`; a witness shows they can be met. The name-based
  UUID of a saga (section 5.5 of RFC 9562) is taken as injective.

Where the code and its comments differ, the model follows the code (paths below `backend/internal`):

- `saga/sagas.go:233` says only created actions are rolled back; a found one is removed too (`RollbackRemovesForeignAction`).
- `saga/saga.go:360` says the latest state per saga is kept; with a status filter an older one can be shown
  (`FilteredIsLatestExactly`, `StaleSearchRun`).
- `saga/saga.go:311-313` says only the holder of a lock on the state key can reap; `sweepOnce` takes none, and two sweepers
  can compensate one instance twice (`TwoSweepersExactly`).
- `resilience/resilience.go:83-85` promises a single trial call; half-open admits every call until one reports
  (`SingleTrialExactly`, `TwoTrials`).
- `outbox/outbox.go:162-164` says runs release the lock well before it expires; a poll surely does only with up to 42
  readable rows (`BatchFitsLockExactly`, `RefusedBatch`).
- `server/middleware.go:102-103` speaks of requests per minute; the counter is a burst counter (`PerMinuteExactly`,
  `SpacedRequestsRefused`).

## Model

| member | source | states |
|---|---|---|
| TimedCache.MemoryCache.Get | backend/internal/cache/memory.go:24-37 | A read returns the value unless it lapsed strictly before now, and removes exactly the entry it found lapsed. |
| TimedCache.MemoryCache.Set | backend/internal/cache/memory.go:39-48 | A write replaces the entry; a non-positive lifetime means it never expires. |
| TimedCache.MemoryCache.SetNX | backend/internal/cache/memory.go:50-62 | The claim succeeds exactly when the key is absent or at or past its expiry, and otherwise changes nothing. |
| TimedCache.MemoryCache.TTL | backend/internal/cache/memory.go:71-86 | The remaining lifetime is positive, zero for entries without expiry, and missing from the expiry instant on. |
| TimedCache.MemoryCache.Keys | backend/internal/cache/memory.go:93-103 | Every raw key that matches is listed once, lapsed ones included. |
| TimedCache.TrailingPatternIsGlob | backend/internal/cache/memory.go:105-117 | Patterns without a star and with one trailing star match as globs: exactly the text, exactly the prefix. |
| TimedCache.LeadingPatternIsGlob | backend/internal/cache/memory.go:105-117 | So do patterns with a leading star, with or without a trailing one. |
| TimedCache.InnerStarIsLiteral | backend/internal/cache/memory.go:117 | A star inside a pattern is taken literally, unlike in a glob. |
| TimedCache.LookupAfterPut | backend/internal/cache/memory.go:24-48 | A written value is read until its expiry instant and not after, and other keys are unaffected. |
| TimedCache.PurgeInvisible | backend/internal/cache/memory.go:24-37 | No later read can tell whether the lazy delete happened. |
| TimedCache.ReadersDisagreeExactlyAtExpiry | backend/internal/cache/memory.go:24-62 | A key is readable and claimable at once exactly at its expiry instant. |
| TimedCache.OneWinner | backend/internal/cache/memory.go:50-62 | Of any sequence of claims on a vacant key only the first wins until its entry expires. |
| SagaEngine.Engine.SeenEvent | backend/internal/saga/saga.go:401-424 | The two containers move together exactly as the abstract ring does; a known ID changes nothing. |
| EventDedup.AdmitConsistent | backend/internal/saga/saga.go:401-424 | Order list and map hold the same IDs, without repeats, at most 4096, after every delivery. |
| EventDedup.RemembersWithinWindow | backend/internal/saga/saga.go:204-210 | While held, an ID is dropped on every redelivery within ten minutes and fewer than 4096 younger IDs. |
| EventDedup.RedeliveryDropped | backend/internal/saga/saga.go:388-424 | An admitted event is never processed again within ten minutes and fewer than 4096 other admitted events. |
| EventDedup.ForgottenAfterCap | backend/internal/saga/saga.go:417-420 | The bound is tight: 4096 other admissions always make the ID new again. |
| EventDedup.StaleIsForgotten | backend/internal/saga/saga.go:204-210 | And tight in time: while the clock does not run backwards, no ID older than ten minutes is held once a new one is admitted. |
| SagaRuns.SecondCopyDoesNothing | backend/internal/saga/saga.go:384-398 | The dispatcher's copy of an event already handled leaves the whole engine state, tables included, unchanged. |
| SagaEngine.Engine.constructor | backend/internal/saga/saga.go:240-258 | A new engine has empty ring, summaries and counters and a 24 h timeout. |
| SagaEngine.Engine.LoadKey | backend/internal/saga/saga.go:172-184 | Loading yields the unexpired stored instance and drops a lapsed one. |
| SagaEngine.Engine.FailSaga | backend/internal/saga/saga.go:524-550 | Failing runs the registered compensators from the failed step down to 0 in that order, removes the state key, counts and lists the failure. |
| SagaEngine.Engine.RememberSummary | backend/internal/saga/saga.go:552-559 | The list keeps the newest 100 summaries. |
| SagaEngine.Engine.RunSteps | backend/internal/saga/saga.go:469-500 | The loop advances through triggered steps, storing each, and ends waiting, failed or completed as specified. |
| SagaEngine.Engine.CompleteSaga | backend/internal/saga/saga.go:489-500 | Completion removes the state key, counts and lists the instance. |
| SagaEngine.Engine.ClaimAndRun | backend/internal/saga/saga.go:451-500 | The winner of the claim starts and runs the instance; the loser changes nothing. |
| SagaEngine.Engine.HandleDefinition | backend/internal/saga/saga.go:426-501 | One definition's reaction to an event, from load to completion, on the whole state. |
| SagaEngine.Engine.HandleEvent | backend/internal/saga/saga.go:388-398 | An event without ID or already seen changes nothing; any other is routed to every subscribing definition in order. |
| SagaEngine.Engine.SweepOnce | backend/internal/saga/saga.go:314-336 | A sweep visits every stored key and fails exactly the active instances that made no progress for the timeout. |
| SagaEngine.Engine.Stats | backend/internal/saga/saga.go:262-266 | The three counters are reported as they stand. |
| SagaEngine.Engine.Search | backend/internal/saga/saga.go:349-372 | The result is, newest first, each saga's newest entry that passes the filters, as many as the limit allows. |
| SagaEngine.PicksDistinctSagas | backend/internal/saga/saga.go:355-371 | No saga is listed twice. |
| SagaEngine.SearchInWords | backend/internal/saga/saga.go:348-372 | Every listed entry passes the filters, newest first and at most the limit (100 unless 1 to 100 was asked for); a saga with a passing entry is left out only when the limit is reached. |
| SagaModel.Find | backend/internal/saga/saga.go:339-346 | A type is resolved to a definition of that type if there is one. |
| SagaModel.UndoFrame | backend/internal/saga/saga.go:525-533 | Compensators touch neither the stored states nor the counters. |
| SagaModel.ReapKeepsSweepable | backend/internal/saga/saga.go:320-335 | Reaping never makes a later index into the steps unsafe and changes no other stored instance. |
| SagaTrace.InitialInv | backend/internal/saga/saga.go:240-258 | The initial state satisfies the invariant. |
| SagaTrace.InvSweepable | backend/internal/saga/saga.go:333 | In every invariant state the step index used by a sweep is in range. |
| SagaTrace.ApplyKeepsInv | backend/internal/saga/saga.go:388-550 | Every delivery, raced delivery and sweep keeps the invariant on stored instances, counters and histories. |
| SagaTrace.EveryRunAccounted | backend/internal/saga/saga.go:426-501 | After any run each instance's history is finished lives and at most a live one: actions 0..k-1 in order, each once, then live, completed with k all the steps, failed or timed out at k with the compensators of k..0 once each, or expired; and started = completed + failed + stored + expired. |
| SagaRuns.StoredStepSweepableExactly | backend/internal/saga/saga.go:482-493 | Storing an advanced instance leaves the store safe to sweep exactly if a step is still to come. |
| SagaRuns.TimelySweepsLoseNothing | backend/internal/saga/saga.go:57 | With sweeps at most state TTL minus timeout apart no instance ever expires, so started = completed + failed + stored. |
| SagaRuns.SweepTimely | backend/internal/saga/saga.go:314-336 | A sweep of unexpired instances loses none and leaves listed ones only if they progressed within the timeout. |
| SagaReports.SweepSparesExactly | backend/internal/saga/saga.go:314-336 | In every state a run can reach, a sweep ends a stored, unexpired instance if and only if it lists it and the instance made no progress for the timeout; otherwise entry and history are exactly as before. |
| SagaRuns.RunKeeps | backend/internal/saga/saga.go:426-550 | Whatever every action and compensator keeps of the outside world, every run of the engine keeps. |
| SagaRecent.RunTruthful | backend/internal/saga/saga.go:552-559 | Over every run the newest listed summary of an instance has the status it is really in, and of a stored one is exactly its stored state. |
| SagaRecent.LastSummaryTellsEnd | backend/internal/saga/saga.go:489-550 | Over every run the newest listed summary of an instance that is gone tells its end: given up, at the step, with the error and at the instant of the failure; completed, at the number of its steps, without error, at that instant; and in both cases when that life began. |
| SagaReports.FailedSummaryExplained | backend/internal/saga/saga.go:474-477 | Over every run a failure shown as the newest of an instance was brought about by an input at the instant shown: a sweep that listed it, with the timeout as error, or an event that triggered the action of the step shown, with exactly the error that action reported. |
| SagaReports.FailureIsListed | backend/internal/saga/saga.go:524-550 | From any state a run can reach, an event whose action reports an error removes the instance and lists it as failed at that step, with that error, from then. |
| SagaReports.FirstFailureIsListed | backend/internal/saga/saga.go:451-478 | So does the first action of a fresh instance, listed at step 0. |
| SagaReports.CompletionIsListed | backend/internal/saga/saga.go:489-500 | An event that makes the last action succeed removes the instance, leaves the tables as that action left them, and lists the instance as completed, then. |
| SagaReports.ProgressIsListed | backend/internal/saga/saga.go:479-487 | Before the last step it stays stored for another week, one step on, with the payload the action left, and is listed so. |
| SagaReports.UndoInOrder | backend/internal/saga/saga.go:524-533 | A rollback goes from the failed step down to the first, each compensator working on the tables and payload that the one above it left. |
| SagaRecent.SearchShowsStoredState | backend/internal/saga/saga.go:348-372 | Over every run, a search without a status filter shows each stored instance it lists as active, at its step, without an error, with its times. |
| SagaRecent.FilteredIsLatestExactly | backend/internal/saga/saga.go:357-370 | Over every run, what a search filtered by status lists is the saga's latest state if and only if the saga is really in that status: active, if still stored or last expired; completed or failed, if not stored and its last life ended so. |
| SagaRecent.ActiveIsLatestExactly | backend/internal/saga/saga.go:365-367 | Under timely sweeps the condition for the active filter is that the saga is still stored. |
| BusinessSearch.LifeCompletes | backend/internal/saga/sagas.go:276-311 | The created and then the completed event of any live corrective action start its workflow and finish it, leaving three active summaries and a completed one. |
| BusinessSearch.StaleSearchRun | backend/internal/saga/saga.go:360 | The failing input: after that run a search for active workflows lists the finished one, alone and out of date, contrary to the comment on the line. |
| SagaEvents.EventIdleExactly | backend/internal/saga/saga.go:384-398 | A new event changes nothing but the ring, which now holds its ID, if and only if every definition ignores it. |
| SagaEvents.EventMovesExactly | backend/internal/saga/saga.go:469-500 | A new event moves the stored instance it names to a higher step or to its end if it triggers the awaited step, and otherwise leaves entry and history alone. |
| SagaEvents.EarlyEventIsSpent | backend/internal/saga/saga.go:388-424 | An early event only enters the ring; after any run within window and cap that brings the instance to the step it would trigger, its copy changes nothing while the same event under a new ID would move the instance. |
| SagaEvents.TwoSweepersExactly | backend/internal/saga/saga.go:309-335 | A second sweeper compensates and counts a timed-out instance again if and only if it loaded the instance before the first removed it. |
| SagaEvents.CutOffExactly | backend/internal/saga/saga.go:482-493 | A delivery cut off after its last store leaves the state of the whole delivery, or, exactly if the whole delivery would have completed the instance, a store that is not safe to sweep. |
| BusinessSagas.StatusRule | backend/internal/saga/sagas.go:103-117 | Non-compliant exactly once the due date passed without a review since, with the reason that fits; time never restores compliance, a review does. |
| BusinessSagas.EvaluateSettles | backend/internal/saga/sagas.go:54-62 | After a successful evaluate, judging the row again at that time would not flip it. |
| BusinessSagas.EvaluateEndsExactly | backend/internal/saga/sagas.go:44-75 | How evaluate ends, exactly: it cannot load the row, or passes over a draft or archived one, or fails to write a flipped status, or to queue a due alert, in this order; otherwise it succeeds. |
| BusinessSteps.EvaluateRecords | backend/internal/saga/sagas.go:49-64 | A successful evaluate records the reason, the status judged, whether that is a change and exactly then the status before; of a draft or archived row only that it was passed over. |
| BusinessSagas.EvaluateAlertsExactly | backend/internal/saga/sagas.go:67-75 | Exactly one alert with the new status is queued if evaluate succeeds and flipped the status or the row is new, otherwise none. |
| BusinessSagas.RegisteredDistinct | backend/internal/saga/saga.go:251-256 | The four registered workflows have distinct types. |
| BusinessSagas.EvaluatePayload | backend/internal/saga/sagas.go:44-75 | The evaluate step records the earlier status exactly when it is about to flip it, and flips only that row. |
| BusinessSagas.UndoEvaluateExactly | backend/internal/saga/sagas.go:76-82 | The compensator restores the recorded status exactly when evaluate flipped it, the row exists and the write succeeds. |
| BusinessSteps.UndoEvaluateReports | backend/internal/saga/sagas.go:76-82 | Over any payload the compensator writes back a recorded status that is neither empty nor the one judged, and fails exactly if that write does. |
| BusinessSagas.FailureRestoresStatus | backend/internal/saga/sagas.go:76-82 | An instance carrying what evaluate left that fails ends with the row's status from before evaluate if and only if evaluate had left it alone or the compensating write succeeds; no other row changes. |
| BusinessRuns.FailingDeliveryRestores | backend/internal/saga/saga.go:474-477 | A delivery whose evaluate step fails at any database call leaves no instance and one more failure, and restores the row's status exactly if evaluate had left it alone or the compensating write goes through (an empty status is never written back). |
| BusinessRuns.ApplyStep | backend/internal/saga/saga.go:384-501 | After any one input a stored compliance instance and its row are as they were, or that input claimed the free key of the very row, ran evaluate and stored what it left. |
| BusinessTurns.EngineOnlyIsRun | backend/internal/saga/saga.go:384-501 | Without other writers the runs with turns are the runs of the engine. |
| BusinessTurns.StoredInstanceHasOrigin | backend/internal/saga/saga.go:451-488 | In every run in which others write the tables too, a stored compliance instance was claimed by one turn, holds what evaluate left over the tables of that moment, and has stayed as it was since; and while no other writer touches the status of its row, the row has the status evaluate left. |
| BusinessRuns.ReapExactly | backend/internal/saga/saga.go:325-335 | Timing such an instance out writes the earlier status back exactly if evaluate flipped it, it was not empty, the row still exists and the write succeeds, whatever others made of the row; nothing else changes. |
| BusinessRuns.ReapRestores | backend/internal/saga/saga.go:325-335 | So without other writers of the status it is restored exactly if evaluate had left it alone or the write goes through. |
| BusinessTurns.TimeoutRestoresStatus | backend/internal/saga/saga.go:314-336 | After any run, whatever others wrote, a sweep over a healthy database that times a compliance instance out writes back the status from just before its claim exactly if evaluate had flipped it and it was not empty; so if no other writer touched the status since, the row ends with that status exactly if it was not empty. |
| BusinessSagas.DetectNeverDuplicates | backend/internal/saga/sagas.go:187-219 | Detect adds a corrective action only to a violation without a live one, and then exactly one, open. |
| BusinessSagas.RunsNeverDuplicateActions | backend/internal/saga/sagas.go:195-213 | In no run of the engine does a violation get two live corrective actions. |
| BusinessSagas.ResolveMeaning | backend/internal/saga/sagas.go:245-263 | Resolve completes one live open corrective action of the violation or changes none. |
| BusinessSagas.DetectRecords | backend/internal/saga/sagas.go:187-219 | Whatever calls fail, a detect that succeeds leaves the violation tracked and records the first live action tracking it; one that fails records none and changes no action. |
| BusinessSagas.TrackExactly | backend/internal/saga/sagas.go:195-218 | Tracking succeeds exactly if the lookup goes through and the violation is tracked already or the insert goes through; then an untracked one gets one open action, and its event is queued exactly if that insert goes through. |
| BusinessSagas.DetectExactly | backend/internal/saga/sagas.go:187-219 | Detect succeeds exactly if moreover the violation loads, with the same effect; otherwise actions and outbox are unchanged. |
| BusinessSteps.DetectErrors | backend/internal/saga/sagas.go:187-213 | A detect that fails reports the first thing that went wrong. |
| BusinessSagas.ResolveSucceedsExactly | backend/internal/saga/sagas.go:245-263 | Resolve succeeds exactly if the lookup goes through and the violation has no live open action or the write goes through. |
| BusinessSagas.ResolveExactly | backend/internal/saga/sagas.go:245-263 | On success exactly the first live open action is completed, now, and one event for it is queued exactly if that insert goes through; on failure, or with no such action, actions and outbox are unchanged. |
| BusinessSteps.ResolveErrors | backend/internal/saga/sagas.go:245-259 | So does resolve, and in every case it has recorded when it ran. |
| BusinessSteps.AuditStepExactly | backend/internal/saga/sagas.go:134-170 | An audit step fails exactly if the row is gone or cannot be read, recording nothing; otherwise it records its own instant of the row. |
| BusinessSteps.AssignExactly | backend/internal/saga/sagas.go:288-296 | Assigning fails exactly if no live action has the id or it cannot be read; otherwise owner and due date of that action are recorded. |
| BusinessSagas.RollbackExactly | backend/internal/saga/sagas.go:220-238 | Over any later tables the rollback soft-deletes exactly the action that tracked the violation after detect, if it is still live and open and both calls go through, and touches no other. |
| BusinessSagas.RollbackOfLiveTables | backend/internal/saga/sagas.go:187-238 | With nobody else writing, an action created by detect and one found meet the same end. |
| BusinessSagas.RollbackRemovesForeignAction | backend/internal/saga/sagas.go:233 | An action opened by an officer beforehand is removed by the rollback, contrary to the comment on the line. |
| BusinessSagas.WorkflowsStepOnce | backend/internal/saga/sagas.go:36-310 | One event moves any of the four workflows by at most one step. |
| BusinessLives.ComplianceLife | backend/internal/saga/sagas.go:36-101 | A created or updated compliance and its alert: the row gets the status of the rule, the alert is queued exactly if the status flipped or the row is new, and the workflow is listed as completed. |
| BusinessLives.ViolationLife | backend/internal/saga/sagas.go:179-270 | A violation without a live action, detected and resolved: one action is opened and completed, both of its events are queued, and the workflow is listed as completed. |
| BusinessLives.AuditLife | backend/internal/saga/sagas.go:122-173 | An audit scheduled, started and completed: each event records its own instant of the row, and a scheduling event of another status starts nothing. |
| BusinessLives.AuditFails | backend/internal/saga/sagas.go:148-170 | An audit whose row cannot be loaded when its start or completion comes is listed as failed at that very step, with the reason. |
| BusinessLives.ViolationRollback | backend/internal/saga/sagas.go:220-263 | A violation is detected, others change the tables as they like, its resolve fails: the workflow is listed as failed at resolve with the reason, and of all corrective actions exactly the one that tracked the violation after detect is soft-deleted, if still live and open and the rollback's two calls go through. |
| Pagination.ApplyFilters | backend/internal/pagination/pagination.go:126-139 | The filter loop keeps exactly the rows passing every filter, in any order of the filters, or rejects an unknown column. |
| Pagination.Narrow | backend/internal/pagination/pagination.go:126-157 | Filters and date range together keep exactly the rows asked for; unknown columns are rejected, filters first. |
| Pagination.Seek | backend/internal/pagination/pagination.go:172-189 | A cursor keeps exactly the rows past it in (sort value, id) order; undecodable, mismatching and null cursors are rejected. |
| Pagination.BuildSummary | backend/internal/pagination/pagination.go:328-357 | The total counts the filtered rows and each group its rows. |
| Pagination.ReadSort | backend/internal/pagination/pagination.go:105-124 | Newest first by default; unknown columns and directions are rejected. |
| Pagination.Fetch | backend/internal/pagination/pagination.go:191-224 | One row more than the limit decides whether a next page exists; the next cursor is that of the last row shown. |
| Pagination.Apply | backend/internal/pagination/pagination.go:91-229 | A whole request yields the specified page or the first error in the code's order. |
| PaginationRequest.RefusedExactly | backend/internal/pagination/pagination.go:91-190 | A request is refused exactly for the first of these: unknown sort column, a direction that is neither asc, desc nor empty, unknown filter, date or summary column, and a malformed, mismatching or null cursor. |
| PaginationRequest.ServedInWords | backend/internal/pagination/pagination.go:91-229 | Every page served holds the first rows, in the order of the request's own words, among those its filters and dates ask for past the cursor; it says exactly whether more are due and where the next page begins; and its summary counts all rows asked for, on whatever page. |
| PaginationRequest.AscendingItems | backend/internal/pagination/pagination.go:115-119 | For asc the cells of the named column never decrease from item to item. |
| PaginationRequest.DescendingItems | backend/internal/pagination/pagination.go:105-124 | For desc, no direction and no sort they never increase, by creation time when no column is named. |
| PaginationRequest.ItemsById | backend/internal/pagination/pagination.go:192-199 | Sorting by the id itself puts the items in strict order of their ids. |
| KeysetOrder.OrderBySorted | backend/internal/pagination/pagination.go:192-199 | With unique ids, ordering by value and id is strict. |
| KeysetOrder.SortedUnique | backend/internal/pagination/pagination.go:192-199 | A set of rows has one listing in that order. |
| PaginationWalk.RemainingIsSuffix | backend/internal/pagination/pagination.go:184-199 | The rows past the cursor of row j are exactly the rows after row j. |
| PaginationWalk.WalkIsTurns | backend/internal/pagination/pagination.go:170-224 | A valid walk never fails, whatever happens to the table between pages. |
| PaginationWalk.SlicesMeaning | backend/internal/pagination/pagination.go:97-103 | The k-th slice holds rows k * limit up to (k + 1) * limit. |
| PaginationWalk.UnchangedWalk | backend/internal/pagination/pagination.go:170-224 | Over an unchanged table, following the next cursor ends, page k is the k-th limit-sized slice, and the pages together are the filtered rows in order, each once. |
| PaginationRequest.WalkInWords | backend/internal/pagination/pagination.go:170-224 | The pages of such a walk, one after another, list exactly the rows asked for, each once, in the order the request names. |
| PaginationWalk.ChangingWalk | backend/internal/pagination/pagination.go:172-209 | With rows inserted, deleted and changed between pages, a row present throughout with unchanged sort value and filters is returned at most once, and exactly once by a finished walk. |
| PaginationWalk.NextCursorWorksExactly | backend/internal/pagination/pagination.go:290-293 | A next cursor is accepted exactly if the last row's sort value is not null. |
| PaginationWalk.GroupsPartition | backend/internal/pagination/pagination.go:343-355 | The group counts add up to the rows with a non-null summary column. |
| CryptoRing.FindEntry | backend/internal/crypto/crypto.go:302-312 | An id resolves to an entry with that id, or no entry has it. |
| CryptoRing.Setup | backend/internal/crypto/crypto.go:183-197 | A ring is built exactly when every key has 32 bytes, in the given order, each entry under its key's fingerprint. |
| CryptoRing.EncryptThenDecrypt | backend/internal/crypto/crypto.go:218-259 | What one ring encrypts, every ring holding that key decrypts to the same plaintext. |
| CryptoRing.PlaintextReadsAsItself | backend/internal/crypto/crypto.go:240-242 | A value without the prefix reads as itself under every ring. |
| CryptoRing.ReadsExactly | backend/internal/crypto/crypto.go:236-284 | A value reads as a text if and only if it is that very text without the prefix, or names a key of the ring that opens it to the text, or is legacy and the first key that opens it does so. |
| CryptoRing.LegacyReadableExactly | backend/internal/crypto/crypto.go:261-281 | A legacy value is read exactly by the rings that hold its key, whatever keys are tried first. |
| CryptoRing.RetiredKeyRefused | backend/internal/crypto/crypto.go:255-258 | A versioned value whose key left the ring is refused by name. |
| CryptoRing.VersionedRefused | backend/internal/crypto/crypto.go:244-259 | A versioned value is refused, in this order, for a missing second colon, text that is not base64, an unknown key id, and text that the key of that id does not open. |
| CryptoRing.LegacyRefused | backend/internal/crypto/crypto.go:261-284 | A legacy value is refused if it is not base64 or no key opens it, and any other prefixed value as unrecognized. |
| CryptoRing.RotatedRingExists | backend/internal/crypto/crypto.go:183-197 | Over primitives that meet the assumptions, any two keys make a ring as setup makes it. |
| Reencrypt.NextBatch | backend/internal/reencrypt/reencrypt.go:95-102 | The page query returns the first rows, by id, of those matching and past the last id. |
| Reencrypt.ValuesOf | backend/internal/reencrypt/reencrypt.go:157-166 | The second query's values line up with the ids by position. |
| Reencrypt.RestIsUnvisited | backend/internal/reencrypt/reencrypt.go:86-89 | Although rows are rewritten under their own filter, the rows still selected are exactly those not yet visited. |
| Reencrypt.Migrator.RewriteOutbox | backend/internal/reencrypt/reencrypt.go:106-120 | A page is processed row by row; unreadable rows are skipped; every update goes through, or the first that failed stops the run. |
| Reencrypt.Migrator.MigrateOutbox | backend/internal/reencrypt/reencrypt.go:90-126 | Each matching row is visited once in id order, the table is the old one with the visited rows re-encrypted, the count is the rows rewritten; the run visits all and reports success unless a database call it made failed. |
| Reencrypt.Migrator.RewriteColumn | backend/internal/reencrypt/reencrypt.go:167-183 | The same for one page of an encrypted column. |
| Reencrypt.Migrator.MigrateColumn | backend/internal/reencrypt/reencrypt.go:135-190 | The same as for the outbox over a text column read by two queries, either of which may fail. |
| Reencrypt.ReencryptStringMeaning | backend/internal/reencrypt/reencrypt.go:217-233 | One pass keeps a readable value's plaintext, now under the current key alone, leaves others byte-identical, and a second pass would change nothing. |
| Reencrypt.ReadsNeverBreak | backend/internal/reencrypt/reencrypt.go:135-190 | At every moment of a run over a column every row reads as before under the full ring. |
| Reencrypt.RotateMigrateRetire | backend/internal/reencrypt/reencrypt.go:135-190 | After a complete run every readable column value decrypts to the same plaintext with only the new key; unreadable and plaintext values are byte-identical, and plaintext reads as itself with the new key alone. |
| Reencrypt.SecondRunChangesNothing | backend/internal/reencrypt/reencrypt.go:135-190 | A second complete run over a column rewrites no row. |
| Reencrypt.OutboxRotateMigrateRetire | backend/internal/reencrypt/reencrypt.go:90-126 | After a complete run every readable payload decrypts to the same plaintext with only the new key, every other payload is byte-identical, plaintext payloads read as their own text with the new key alone, and the count is the payloads rewritten. |
| Reencrypt.OutboxReadsNeverBreak | backend/internal/reencrypt/reencrypt.go:90-126 | At every moment of a run over the outbox, failed or not, every payload reads as before. |
| Reencrypt.OutboxSecondRunChangesNothing | backend/internal/reencrypt/reencrypt.go:195-223 | A second complete run over the outbox rewrites no payload. |
| Resilience.Do | backend/internal/resilience/resilience.go:32-64 | Calls stop at the first success, a cancelled pause or the last attempt, returning nil, the context's error or the last error; the total pause is that of the jittered backoff. |
| Resilience.WaitIsCappedDoubling | backend/internal/resilience/resilience.go:58-61 | The pause after attempt i is the initial wait doubled i times, up to the ceiling. |
| Resilience.JitterWithinPercentage | backend/internal/resilience/resilience.go:66-72 | A drawn pause lies within the jitter percentage around the plain one. |
| Resilience.JitterReachesAll | backend/internal/resilience/resilience.go:66-72 | And every pause in that range is drawn by some random number. |
| Resilience.EventuallyExactly | backend/internal/resilience/resilience.go:44-62 | The calls end in success exactly if some attempt within the limit succeeds and no pause before it is cancelled. |
| Resilience.CircuitBreaker.Allow | backend/internal/resilience/resilience.go:111-125 | A call is refused exactly while open and cooling down; the first later one half-opens. |
| Resilience.CircuitBreaker.Success | backend/internal/resilience/resilience.go:128-135 | A success resets the counter and closes a half-open circuit. |
| Resilience.CircuitBreaker.Failure | backend/internal/resilience/resilience.go:138-160 | A failure counts, and opens a half-open circuit or a closed one at the threshold. |
| Resilience.CircuitBreaker.Execute | backend/internal/resilience/resilience.go:170-184 | A call runs, once or with the retry policy, only if allowed, and its outcome is recorded when it is over. |
| Resilience.CounterIsTrailingFailures | backend/internal/resilience/resilience.go:128-160 | In every history the counter is the current run of failures, below the threshold while closed. |
| Resilience.OpenRefusesForCooldown | backend/internal/resilience/resilience.go:111-125 | From an opening until the cooldown has passed every call is refused, whatever is reported. |
| Resilience.OpensExactly | backend/internal/resilience/resilience.go:138-160 | The circuit opens exactly on a failure that ends a trial or completes a run of threshold failures, and the cooldown counts from that failure. |
| Resilience.HalfOpenAdmitsAll | backend/internal/resilience/resilience.go:111-125 | A half-open circuit admits every call until the first report. |
| Resilience.SingleTrialExactly | backend/internal/resilience/resilience.go:83-85 | Over every history, the period that an admitted call half-opens admits that call alone if and only if the next thing to happen is a report; otherwise it admits every call that asks before one. |
| Resilience.TwoTrials | backend/internal/resilience/resilience.go:83-85 | The failing input: after threshold failures and the cooldown, two calls that ask in turn are both admitted. |
| TokenLock.MemoryLock.TryAcquire | backend/internal/lock/lock.go:97-112 | The lock is taken exactly if free or run out, with the new token and deadline. |
| TokenLock.MemoryLock.Release | backend/internal/lock/lock.go:114-122 | Only the token that holds the key frees it. |
| TokenLock.HoldsUntilDeadline | backend/internal/lock/lock.go:97-122 | Until its deadline an unreleased winner is who the lock says holds the key. |
| TokenLock.OverlapOnlyAfterDeadline | backend/internal/lock/lock.go:34-41 | Two bodies on one key overlap only if the earlier has outlived its lifetime. |
| TokenLock.OneUnexpiredHolder | backend/internal/lock/lock.go:97-112 | At any moment at most one unreleased winner of a key is inside its lifetime. |
| TokenLock.FreeExactly | backend/internal/lock/lock.go:97-122 | After any run a key is free if and only if every winner of it has given it back or is past its deadline. |
| TokenLock.StaleReleaseHarmless | backend/internal/lock/lock.go:114-122 | The late release of a holder that was taken over frees nothing. |
| Outbox.Dispatcher.Enqueue | backend/internal/outbox/outbox.go:34-55 | A failed insert queues and publishes nothing; otherwise the row is stored encrypted and the fast publish carries the same id. |
| Outbox.Dispatcher.Deliver | backend/internal/outbox/outbox.go:208-230 | A row is delivered exactly if its payload decrypts and one of the attempts succeeds, with the decrypted payload, after the pauses of the attempts made. |
| Outbox.PlainRowDelivers | backend/internal/outbox/outbox.go:208-230 | A row whose payload was never encrypted is delivered exactly if one of four attempts is accepted before a cancelled pause, and what goes out is its own text. |
| Outbox.Dispatcher.MarkPublished | backend/internal/outbox/outbox.go:232-234 | The row is marked unless the update is lost. |
| Outbox.Dispatcher.RecordFailure | backend/internal/outbox/outbox.go:236-243 | The attempt is counted and the row buried from the cap on, each unless its update is lost. |
| Outbox.Dispatcher.DeadLetter | backend/internal/outbox/outbox.go:247-253 | Burying marks the row published with an error text. |
| Outbox.Dispatcher.Process | backend/internal/outbox/outbox.go:191-204 | One row's turn: delivery, breaker, record and counter together. |
| Outbox.Dispatcher.DispatchBatch | backend/internal/outbox/outbox.go:177-206 | The first pending rows by age, at most the batch size, are processed one after another, each begun when the one before is over; a crash cuts the batch short. |
| Outbox.Dispatcher.DispatchOnce | backend/internal/outbox/outbox.go:165-175 | Nothing happens without the lock; with it a batch runs exactly if the breaker allows, and the lock is given back when the batch's pauses are over. |
| OutboxBatches.FirstPendingExactly | backend/internal/outbox/outbox.go:180-186 | A batch is exactly the pending rows with fewer than the batch size pending rows before them, in order. |
| OutboxBatches.TurnLeaves | backend/internal/outbox/outbox.go:191-253 | A turn whose writes land takes at most 700 ms of pauses and leaves the row published at its end, or one attempt on with the error, or, at the cap, dead-lettered at its end. |
| OutboxBatches.ProcessRowsEffect | backend/internal/outbox/outbox.go:191-205 | Every row of a batch leaves the queue or is one attempt nearer the cap; no other row changes. |
| OutboxRuns.NothingLeavesUndelivered | backend/internal/outbox/outbox.go:70-253 | In every run, from any unencrypted rows of an earlier version on, with bus failures, lost updates, crashes, any number of dispatchers serving copies however old, and keys rotated, migrated and retired in between, every row stays readable as its submission, left the queue only after the bus accepted its id, subject, type, original payload and time or after the cap of failed rounds, and is dead-lettered only after the latter; and the bus took only submitted events. |
| OutboxRuns.OldRowsGoOutAsStored | backend/internal/outbox/outbox.go:209-217 | In such a run an unencrypted row's payload is never touched, whatever the bus took under its id is its own stored text, and it leaves the queue only so or after the cap of failed rounds. |
| OutboxRuns.UndisturbedIsPoll | backend/internal/outbox/outbox.go:177-206 | A dispatcher that reads its batch and serves the copies with nobody between does exactly what one poll does. |
| OutboxRuns.BothDeliver | backend/internal/outbox/outbox.go:191-204 | Two dispatchers that have read the same row both publish it, even if the first one's mark was written. |
| OutboxRuns.FastThenDispatched | backend/internal/outbox/outbox.go:34-41 | In any run an event that the bus took when it was queued stays pending and is taken again, under the same id and otherwise the same, when a dispatcher delivers its row. |
| OutboxRuns.MigrateIsARun | backend/internal/reencrypt/reencrypt.go:90-126 | The migration step of these runs is a run of the outbox migration as its contract describes it. |
| OutboxRuns.RotateMigrateRetireRun | backend/internal/crypto/crypto.go:321-355 | In any run, rotating to a new key, migrating through and retiring leaves that key alone in the ring, every encrypted payload changed, sealed with it and still its submission, and every unencrypted one untouched. |
| OutboxBatches.OutboxDrains | backend/internal/outbox/outbox.go:177-206 | The cap times q complete batches empty an outbox of at most q batch sizes of pending rows, whatever the bus does. |
| OutboxBatches.DrainsWithinBound | backend/internal/outbox/outbox.go:236-243 | So maxAttempts * ceil(n / batchSize) batches empty an outbox of n pending rows. |
| OutboxGuarded.GuardedRows | backend/internal/outbox/outbox.go:165-175 | Behind the breaker the table goes through exactly the batches that were let through. |
| OutboxGuarded.SpacedAllAdmitted | backend/internal/outbox/outbox.go:167-168 | Polls that come at least the cooldown after the pauses of the one before are all let through. |
| OutboxGuarded.GuardedDrains | backend/internal/outbox/outbox.go:102-104 | So the drain bound holds behind the breaker for polls so far apart, whatever the bus does and however often the circuit opens. |
| OutboxGuarded.AdmittedDrain | backend/internal/outbox/outbox.go:102-104 | And in any timing once so many polls have been let through. |
| OutboxBatches.BatchFitsLockExactly | backend/internal/outbox/outbox.go:162-164 | In every state, the next poll pauses no longer than the lock's 30 s, whatever the bus does, if and only if at most 42 of the rows it takes can be decrypted. |
| OutboxBatches.RefusedBatch | backend/internal/outbox/outbox.go:106-113 | The failing input: 43 queued events are one batch, and if the bus refuses them all the poll pauses 30.1 s. |
| OutboxBatches.SecondDispatcherEntersExactly | backend/internal/lock/lock.go:34-41 | While a poll is running another dispatcher can take its lock at some moment if and only if the batch pauses longer than the lock lives. |
| OutboxBatches.BatchReports | backend/internal/outbox/outbox.go:191-204 | A batch takes one turn per row reached, in order; the breaker sees exactly their outcomes and the counter rises by the events the bus took. |
| RateLimit.Limiter.Handle | backend/internal/server/middleware.go:108-123 | A request is admitted exactly if the cached count allows one more, and only then is the count stored for another minute. |
| RateLimit.CounterIsBurst | backend/internal/server/middleware.go:111-121 | The count a request finds is the length of the client's burst of admitted requests each within a minute of the last. |
| RateLimit.AdmittedExactly | backend/internal/server/middleware.go:117-121 | A request is admitted if and only if that burst is shorter than the limit; after more than a minute without an admitted request it always is. |
| RateLimit.TextCountsAsNothing | backend/internal/server/middleware.go:111-116 | Text that is no number under a client's key counts as nothing: in every run exactly the same requests are admitted as without it. |
| RateLimit.NoWindowExceedsLimit | backend/internal/server/middleware.go:102-103 | No window of a minute holds more than the limit of one client's admitted requests. |
| RateLimit.SteadyClientIsCutOff | backend/internal/server/middleware.go:121 | If no two consecutive admitted requests of a client lie more than a minute apart, there are at most the limit of them. |
| RateLimit.CutOffUntilSilence | backend/internal/server/middleware.go:117-121 | Once a burst has used up the limit every request up to a minute after its last admitted one is refused, and the first one later is admitted, because refused requests renew nothing. |
| RateLimit.PerMinuteExactly | backend/internal/server/middleware.go:102-103 | The limiter decides as a limit per minute would if and only if the burst is not used up or its last limit requests lie within the minute; otherwise it refuses what such a limit admits. |
| RateLimit.SpacedRequestsRefused | backend/internal/server/middleware.go:102-103 | The failing input, for every limit of two or more: one request every 59 s is refused once the limit is reached, although at most two fall in any minute. |
| AuditDiff.RedactTree | backend/internal/auditlog/auditlog.go:83-99 | The walk replaces every value under a sensitive key at any depth and nothing else. |
| AuditDiff.RedactCleans | backend/internal/auditlog/auditlog.go:83-99 | No secret survives, a tree without secrets is unchanged, and redacting twice is redacting once. |
| AuditDiff.SensitiveExactly | backend/internal/auditlog/auditlog.go:60-81 | A key is sensitive if and only if one of the listed words is spelled somewhere in it, in either case and with a hyphen for an underscore. |
| AuditDiff.ClientSecretIsSpare | backend/internal/auditlog/auditlog.go:60-68 | Fourteen of the fifteen words decide: a key that contains client_secret contains secret. |
| AuditDiff.RedactForgetsExactlySecrets | backend/internal/auditlog/auditlog.go:50-99 | Two trees redact alike if and only if they agree everywhere but under sensitive keys. |
| AuditDiff.ReadMap | backend/internal/auditlog/auditlog.go:189-202 | Anything but an object counts as an empty snapshot; an object is redacted. |
| AuditDiff.Union | backend/internal/auditlog/auditlog.go:204-213 | The union holds the keys of both. |
| AuditDiff.Diff | backend/internal/auditlog/auditlog.go:157-185 | A field is listed exactly if it is no system column and its values, null when missing, differ. |
| AuditDiff.DiffIsPatch | backend/internal/auditlog/auditlog.go:157-185 | The after sides turn the earlier snapshot into the later one and the before sides turn it back. |
| AuditDiff.NoChangeIsSpare | backend/internal/auditlog/auditlog.go:168-182 | Leaving out any listed change misses the later snapshot. |
| AuditDiff.DiffNeverShowsSecrets | backend/internal/auditlog/auditlog.go:187-188 | Histories that differ only in secrets give the same diff, so a change of secrets alone is not listed. |
| Permissions.Extract | backend/internal/permissions/permissions.go:90-110 | The manifest has one entry per method and path first registered on a path that is not excluded, and no other, in order of first registration. |
| Permissions.ManifestInWords | backend/internal/permissions/permissions.go:90-128 | The manifest has an entry exactly for the method and path of each first registration outside the swagger pages, metrics and health, under the name of its path. |
| Permissions.PermissionTable.Upsert | backend/internal/permissions/permissions.go:134-189 | One route's row is inserted, replaced if soft-deleted, updated in place or left alone; other rows and live ids stay. |
| Permissions.PermissionTable.Prune | backend/internal/permissions/permissions.go:191-201 | Exactly the rows of routes not in the manifest are deleted. |
| Permissions.PermissionTable.DeleteAll | backend/internal/permissions/permissions.go:202-211 | An empty manifest empties the table. |
| Permissions.PermissionTable.StorePermissions | backend/internal/permissions/permissions.go:133-213 | Afterwards the table mirrors the manifest, rows that were live and stay keep their ids, and a mirroring table is not written to. |
| Permissions.MirrorIsBijection | backend/internal/permissions/permissions.go:130-132 | Every row of a mirroring table shows one route of the manifest, field by field, every route is shown by exactly one row, and there are as many rows as routes. |
| Repository.Repo.Insert | backend/internal/repository/crud.go:47-53 | A successful insert stores the row and drops the cache entry; a failed one changes nothing. |
| Repository.Repo.Fetch | backend/internal/repository/crud.go:57-80 | A readable entry is served; otherwise the live row is returned and cached, or not-found reported. |
| Repository.Repo.Save | backend/internal/repository/crud.go:101-107 | A full update stores the row and drops the entry. |
| Repository.Repo.Patch | backend/internal/repository/crud.go:111-122 | A partial update changes a live row and drops the entry, or reports not-found. |
| Repository.Repo.Remove | backend/internal/repository/crud.go:125-136 | A delete soft-deletes a live row and drops the entry, or reports not-found. |
| Repository.RunCoherent | backend/internal/repository/crud.go:47-140 | Over any run every cache entry is the JSON text of the current live row. |
| Repository.ReadsAgreeWithTable | backend/internal/repository/crud.go:57-80 | A read yields the current live row up to what JSON keeps, never a deleted or older one; not-found only of rows not live. |
| Repository.ReadsFollowWrites | backend/internal/repository/crud.go:47-140 | After any run of calls a read over a healthy database is determined by the successful writes of that id among the calls: the value last written, or what JSON keeps of it, and not-found if none was written or it was deleted. |
| Repository.DeletedIsNotFound | backend/internal/repository/crud.go:125-136 | A deleted row is not found until a full update writes it again, however often it is created, patched, deleted or read in between. |
| Repository.WrittenIsRead | backend/internal/repository/crud.go:47-122 | What a create of a new id, a full update or a partial update has written is what is read, up to what JSON keeps, until the next write of that id. |
| Repository.ServedFromCache | backend/internal/repository/crud.go:60-78 | A row read once is served for 15 minutes without the database, however often it is read and whatever fails, unless that row is successfully written. |
| Repository.LapsedIsNotServed | backend/internal/repository/crud.go:60-78 | And no longer: after 15 minutes a read goes to the database again, and fails if that does. |
| Repository.LateFillCoherentExactly | backend/internal/repository/crud.go:67-78 | If a read's cache fill is delayed past other calls, the cache stays coherent exactly if the row is still live with the same JSON text. |

## Left out

- Interleavings inside one delivery, sweep, batch, repository call or rate-limited request, except the claim race, the late
  cache fill, a second sweeper, a delivery cut off, and dispatchers that interleave row by row.
- Liveness of sagas: an event that comes before its step is spent (`EarlyEventIsSpent`), so nothing promises completion.
- Crashes between the last stored step and the removal of a saga's state key inside runs (`CutOffExactly` says what one would
  break), and the audit entries the engine writes.
- Redis, NATS and the corrupt-state branch of `loadKey`: the cache model stores values, never fails, and `claim`'s
  fail-open branch is unreachable in it.
- Null sort columns in walks: the code refuses their cursors (`NextCursorWorksExactly`), and SQL drops such rows.
- Cursor coercion of floating-point values, time parsing and the base64 and JSON of cursors: an encoded cursor is an exact
  round trip over integer sort values.
- SQL and GORM: tables are sequences or maps with filter, sort and take; the sort field resolved by reflection is the sort
  column. The dispatcher's `created_at` order is the order of insertion, with no ties.
- The rounding of the jitter factor, which is a percentage here, the time a publish itself takes, the breaker's
  state-change callback, the polling loop, metrics and logging.
- The migrator's own lock (`Run`), `ParseKey`, replicas that run with different rings (a restart with another ring drops
  the rows every dispatcher holds), and legacy `enc:v1` rows in the
  outbox runs (single values are covered by `LegacyReadableExactly` and `OutboxRotateMigrateRetire`).
- `Record`, its truncation of actor and user agent, and `marshalJSON`; key names are lower-cased as ASCII text.
- Database failures inside `storePermissions`: a run that fails part-way is not modelled; the next successful run starts
  from any table with unique routes. `formatRouteName` is a parameter.
- Writers that bypass the repository, its `List`, `Paginate` and `Sort`, and a table whose commit is reported as failed.
- The audit, violation and corrective-action steps beyond what they read and record: titles and entity snapshots.
- HTTP handlers, WebSocket hub, bus matching, configuration, role seeding, analytics and the whole frontend.
