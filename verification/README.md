# Verification of the reconciliation engine

A Dafny model of a payment reconciliation system, with proofs. Three sources (merchant, gateway,
bank) report the same payment through a stream that may deliver a message more than once; the
matcher collects the reports of a transaction in a window and writes one verdict when the window
is complete or its deadline passes. Its state lies in six places: the `windows` map in memory, the
`window:*` checkpoints, the `sources:*` sets, the `deadlines` and `incident_escalations` sorted
sets, the `dedup:event:*` claims, and three SQL tables. Two smaller protocols meet it: the
ingestor's idempotency key and the incident lifecycle that the API gateway shares with the
matcher's escalation timer.

`dafny verify dfyconfig.toml` verifies everything.

## How it is organised

| file | content |
|---|---|
| `Model.dfy` | events, windows, `check_invariants`, `build_details` |
| `Store.dfy` | what Redis and Postgres hold, and the effect of each command |
| `Matcher.dfy` | the handlers as sequences of effects in source order; steps and runs of the engine |
| `Cells.dfy` | one transaction's share of the state (a cell); every step acts on one cell alone |
| `Coherence.dfy` | the joint invariant of the six places, and what each close reports |
| `Streaming.dfy` | streaming equals batch, in any order |
| `Sessions.dfy` | how a window begins, what keeps while it is open, what each event adds |
| `Columns.dfy`, `Notifications.dfy` | what a row keeps from its first insert; what subscribers are told |
| `Conservation.dfy`, `Verdicts.dfy` | counting events and closed windows over whole runs |
| `Faults.dfy`, `Recovery.dfy` | redelivery, failures at every command, crashes, restarts and repairs |
| `Leftovers.dfy`, `PendingRows.dfy` | which failures leave sources without a window; exactly when a pending row has none |
| `Recorded.dfy` | rows before reports |
| `Timer.dfy`, `Incidents.dfy`, `Lifecycle.dfy`, `Escalations.dfy` | timer passes; incidents over runs, what their columns record, and when they are raised |
| `Expiry.dfy`, `Schedule.dfy`, `DedupWindow.dfy` | keys with a time to live refine keys without, under a punctual timer; how long they last |
| `Claiming.dfy`, `EarlyPops.dfy` | any number of workers popping one sorted set; when they return an id too early |
| `Ingestor.dfy`, `KeyExpiry.dfy`, `Handler.dfy` | validation and the idempotency key, as interleavings and as a method; what expiry costs |
| `EndToEnd.dfy` | from the ingestor's stream to the matcher's verdict |
| `Latency.dfy` | the bounded list of samples and its percentiles |
| `StoreClients.dfy`, `Engine.dfy` | the stores, the HTTP handlers and the engine as objects, proved to perform exactly the effects and steps above |
| `Consumer.dfy`, `TimerWorker.dfy` | the loops that drive the engine: one batch of the stream, one turn of the timer |

The objects update their maps one command at a time, as the source does, and every store command
may fail. The one-command methods of `StoreClients.dfy` have the effect that `Store.dfy` gives the
command, or none, and each store counts its commands that failed. Each method of the engine is
proved to perform the effects that `Matcher.dfy` lists for it or, if it fails, those before the
command that failed: it returns an error exactly when one command was added to that count. So if
no command fails, every call completes and every pass runs to its end, and if the metrics commands
get through as well, every step is clean. In this way handling an event, handling a timeout and a
pass whose pop succeeds are runs of `Matcher.Step`, and the lemmas about runs apply to them. Two
methods are not such runs: `RestoreFromRedis`, which is `Faults.Restarted`, and a pop that fails
half-way, which is `Faults.PopLost`.

## Granularity and assumptions

- Each `handle_event` and each `handle_timeout` is one step. Popping a deadline and handling the
  popped id are separate steps; `popped` holds the ids in between, so events and other timeouts
  can interleave there.
- A call may stop at any `?`, having performed the effects before it. In-memory updates and the two
  metrics commands, whose errors are ignored, cannot stop a call. "Clean" steps are those in which
  no command failed.
- A call reads the clock once. Measured durations and the iteration order of a hash map are
  arbitrary inputs (`Env`).
- `expected_sources_count` is 3 (matcher/src/config.rs:76-78). Where a statement is about one
  transaction among others, an event id belongs to one transaction, since the claim's key holds
  neither. The results on timer passes ask for a positive timeout, those on expiry for a clock that
  does not go back; no other result does.
- Integers that matter are 64 bits wide; subtraction wraps as in a release build (`Model.Sub64`).
- An incident's id is its position in insertion order. Cells list incidents without ids.
- In the ingestor every store command of every request is a step of its own. `holder` and
  `Message.key` are bookkeeping for the statements and influence nothing.

## Where the code falls short of what it says

Each is a theorem with the exact condition; most come with a concrete instance.

- The consumer logs that a failed message "will be retried" (matcher/src/stream.rs:81-83). It is
  left unacknowledged, but the loop only reads new messages, and even a redelivery would do
  nothing unless the claim itself was what failed: `Faults.RetryIsLostIff`.
- The statistic `active_windows` (matcher/src/store.rs:413) counts events, not windows. It is right
  exactly when every claimed event opened a window of its own that is still open:
  `Conservation.ActiveWindowsStatIff`; two events of one transaction count twice:
  `Conservation.StatCountsEvents`.
- `is_matched` ignores the currency (matcher/src/model.rs:244-281): all rows of a mismatched window
  are flagged as matched exactly when only the currencies differ: `Model.FlagsMissCurrency`; one
  such window: `Model.CurrencyFlaggedAsMatched`.
- A matched window balances exactly if the gateway's subtraction did not wrap around:
  `Model.MatchedBalances`; one that does not: `Model.WrappedMatch`. Events that the ingestor accepts
  never wrap: `Ingestor.AcceptedWindowsBalance`.
- Restarting keeps the joint invariant exactly when no window's deadline is popped and not yet
  handled: `Faults.RestartKeepsInvIff`. Otherwise the restored window is closed by nothing but its
  missing events: `Faults.PopThenRestartOrphans`, `Faults.OrphanStaysOpen`.
- Failures can leave a pending row without a window. `PendingRows.StepAloneIff` says exactly when, for
  every step of every run: an unclaimed event of a registered source of a transaction without a window
  gets past the row's upsert, or the timeout of an open window with a pending row fails at the row's
  upsert; and only an unclaimed event of a source that is not registered ends it, by opening a window.
  Registered sources without a window come from a timeout of an open window failing at any command, an
  event failing in its cleanup, or an event without a window failing right after its source was added,
  and from nothing else (`Leftovers.StepLeavesIff`, `Leftovers.PendingAloneAfterStepIff`); in every run
  without those failures a pending row has a window (`Leftovers.PendingMeansOpen`). Two runs:
  `PendingRows.DuplicateThenFailedTimeout`, where the row is alone at once, and
  `Leftovers.FailedCleanupReopensTheRow`, where the next event leaves it so.
- A pop that fails half-way leaves a window that no timer pass will see, exactly if it removed that
  window's deadline and no earlier pop of it is outstanding: `Faults.LostPopOrphansIff`.
- A worker can return an id that is not due at its clock, exactly if between its snapshot and its
  removal of the id the id was inserted anew, the last time with a later score:
  `EarlyPops.EarlyPopIff`; one run in `Claiming.LaterDeadlinePoppedEarly`.
- A request that reads nothing after losing SETNX, because GET failed or the key was deleted in
  between, goes on without the key (services/ingestor/handler.go:108-124). From then on two appends
  for one key are possible, exactly unless the key's holder failed and could not delete it:
  `Ingestor.FallThroughAppendsTwiceIff`; a whole run in `Ingestor.FailureAppendsTwice`.
- After a key expires, two appends are possible, exactly unless its holder failed, could not delete it
  and nobody was about to read it: `KeyExpiry.ExpiryAppendsTwiceIff`.

## Model

| member | source | states |
|---|---|---|
| Model.CompleteMeansAllThree | matcher/src/model.rs:75-91 | a window counts as complete exactly when all three sources are present, exactly when no source is missing; the missing sources are the complement, in the order merchant, gateway, bank |
| Model.CheckersAgree | matcher/src/model.rs:145-293 | on every complete window the verdict is Matched iff no detail row has a mismatch reason; a mismatch has one or two findings, a currency finding stands alone, and each kind of finding corresponds to one row's reason |
| Model.FlagsMissCurrency | matcher/src/model.rs:237-290 | all rows of a mismatched window are flagged as matched exactly when the currencies differ and nothing else does |
| Model.CurrencyFlaggedAsMatched | matcher/src/model.rs:237-290 | three reports that differ in the bank's currency alone: a mismatch whose rows are all flagged as matched |
| Model.MatchedBalances | matcher/src/model.rs:177-209 | a matched window satisfies merchant amount = bank amount + gateway fee, exactly when the subtraction did not leave the 64-bit range |
| Model.WrappedMatch | matcher/src/model.rs:192-209 | a matched window that does not balance |
| Matcher.StopIndexIsFirst | matcher/src/matcher.rs:59-163 | a failing call stops at the first fallible command from the given position on, and completes if there is none |
| Cells.StepOnCell | matcher/src/matcher.rs:59-291 | every step, failing or not, moves its own transaction's window, source set, checkpoint, deadline, row, details and incidents by a function of those alone and leaves every other transaction's as they are; claims grow by at most its own event id |
| Cells.Projection | matcher/src/matcher.rs:59-319 | deleting all other transactions' steps from any run, failures included, leaves one transaction's window, source set, checkpoint, deadline, popped count, row, details and the incidents inserted for it unchanged, modulo incident ids |
| Coherence.StepKeepsInv | matcher/src/matcher.rs:59-291 | every step without failures keeps the joint invariant |
| Coherence.RunKeepsInv | matcher/src/matcher.rs:59-319 | so does every run |
| Coherence.JointInvariant | matcher/src/matcher.rs:77-156 | after every failure-free run: checkpoints = windows; source sets = keys of the windows' events, one or two of them, each under its own source and transaction; each deadline is first seen + timeout of an open window; each window has a deadline or is popped; a pending row has a window; incidents and details have a row |
| Coherence.CloseReport | matcher/src/matcher.rs:184-289 | a close writes a matched row and no incident, a mismatch row and one or two findings, or a degraded row and one incident naming exactly the sources that had not reported; the first two only on an event, the last only on a timeout |
| Coherence.CloseDetails | matcher/src/model.rs:212-293 | a step that closes a window writes one row for each source that had reported, and no other: its own figures; an expected amount exactly if the counterpart has reported, which is the counterpart's amount, or for the bank what is left of the gateway's after its fee; an expected fee of 0 for the merchant alone; a flag that says whether expected and actual agree; and the reason, on incomplete windows too |
| Coherence.CloseFindings | matcher/src/model.rs:145-210 | the event that completes a window finds each kind of mismatch exactly if its check fails on the three events, the currency alone if currencies differ, amounts before fees; it is a match exactly if nothing is found |
| Coherence.TimeoutDetails | matcher/src/matcher.rs:273-274 | a timeout of an open window writes such rows |
| Streaming.SessionFollows | matcher/src/matcher.rs:104-140 | while a session is open, the window holds exactly the first event of each source since it opened |
| Streaming.StreamingEqualsBatch | matcher/src/matcher.rs:104-222 | the step that delivers the third source's first event writes the status, detail rows and incidents that reconciling the three first events at once gives, whatever else happened in between, and clears every trace of the window |
| Streaming.OrderDoesNotMatter | matcher/src/matcher.rs:104-222 | two sessions with the same first events report the same, whatever the order and company they arrived in |
| Streaming.EveryOrderReportsTheBatch | matcher/src/matcher.rs:104-222 | every permutation of three fresh events of the three sources reports the batch verdict on them |
| Sessions.StepSpan | matcher/src/model.rs:65-73 | whatever fails: only an event opens a window, which is first seen when the event arrives and due the configured timeout later; no step changes either while the window stays open |
| Sessions.OpenSinceArrival | matcher/src/matcher.rs:104-113 | in every run, with any failures, an open window was opened by an event of the run and has been open ever since, first seen at that event's arrival and due the configured timeout after it |
| Sessions.ProgressOnly | matcher/src/matcher.rs:104-156 | an event that starts or continues a window adds itself to window, sources and checkpoint, queues the deadline if it opened the window, and writes no row, detail or incident |
| Sessions.DuplicateOnly | matcher/src/matcher.rs:77-101 | a repeated source adds one duplicate incident of severity 1 that names it and makes the row pending; window, checkpoint, sources, deadline and details stay |
| Sessions.RowHoldsTheTime | matcher/src/matcher.rs:135-193 | the time in the row of a completed window is the sum of the times of the three first events and of the verdict |
| Sessions.DegradedHoldsNone | matcher/src/matcher.rs:269-271 | the row of a degraded window holds no time |
| Columns.ColumnsNeverChange | matcher/src/store.rs:42-45 | between any two points of any run, with any failures, a row's currency, type and merchant stay what they were |
| Columns.RowIsCreatedWith | matcher/src/matcher.rs:172-183 | whatever step creates a row, failing or not, gives it the columns of the duplicate, of the merchant's event if the window is complete, or of some event of the window, with the merchant's id if the merchant has reported |
| Notifications.EventAnnounced | matcher/src/matcher.rs:119-152 | an event sends one notification for a window it opens, one if it leaves its new source's window open, one for a match, one for each incident, and no other |
| Notifications.TimeoutAnnounced | matcher/src/matcher.rs:365-387 | a timeout sends one for its incident, and no other |
| Conservation.EventsAreConserved | matcher/src/matcher.rs:64-101 | after every failure-free run: claimed events = duplicate incidents + events of degraded windows + 3 x (matched + mismatched closes) + events in open windows; the counter of processed events equals the number of claims |
| Conservation.StepKeepsBalance | matcher/src/matcher.rs:59-289 | every failure-free step keeps that balance |
| Verdicts.StepCounts | matcher/src/matcher.rs:201-222 | a failure-free step counts a match exactly if it closes a window as matched, and a mismatch exactly if it closes one as mismatched |
| Verdicts.CountersCountCloses | matcher/src/store.rs:360-370 | after every failure-free run the two counters are the numbers of windows closed as matched and as mismatched |
| Verdicts.ActiveWindowsStatIs | matcher/src/store.rs:413 | the statistic is the number of duplicates, events of degraded windows and events in open windows, and two for each matched or mismatched window |
| Conservation.ActiveWindowsStatIff | matcher/src/store.rs:413 | exactly when the statistic equals the number of open windows |
| Conservation.StatCountsEvents | matcher/src/store.rs:413 | two events of one transaction: the statistic is 2, with one window |
| Faults.RedeliveryIsStutter | matcher/src/matcher.rs:64-71 | a run, with any failures, ends in the same state as the run without the redeliveries of claimed ids |
| Faults.RetryIsLostIff | matcher/src/stream.rs:68-84 | retrying a failed delivery does nothing exactly when the claim was not what failed |
| Faults.NoStrandedWindow | matcher/src/matcher.rs:119-246 | whatever command fails in whatever call, a window in memory that holds an event has its deadline queued or popped and not handled |
| Faults.TimeoutFinalises | matcher/src/matcher.rs:233-246 | a complete window left behind by a failed finalisation gets the batch verdict on its events from its timeout and leaves no trace |
| Recovery.FailedFinalisationIsRepaired | matcher/src/matcher.rs:131-139 | if the third source's event fails anywhere between storing the window and cleaning it up, the complete window stays in memory with its deadline queued or popped, and its timeout reports the batch verdict on the three events |
| Faults.RestoreIsExact | matcher/src/matcher.rs:41-49 | between failure-free steps, restoring gives back exactly the windows in memory, whatever order and repetition SCAN returns |
| Faults.RestoreHolds | matcher/src/store.rs:215-244 | inserting scanned windows yields exactly the scanned keys with their checkpoints, however often each was returned |
| Faults.RestartKeepsInvIff | matcher/src/matcher.rs:41-49 | a restart keeps the joint invariant exactly when every open window's deadline is still queued |
| Recovery.RestartKeepsQueuedIff | matcher/src/matcher.rs:322-329 | a restart keeps every open incident of severity 1 queued exactly if none of them is only in the hands of an escalation pass |
| Faults.CrashDuringDelivery | matcher/src/matcher.rs:64-132 | after a crash at any point of handle_event, every window that a restart restores has its deadline queued and its sources within the registered set |
| Faults.OrphanStaysOpen | matcher/src/matcher.rs:231-319 | a window with no deadline, queued or popped, stays open in every failure-free run in which one of its missing sources is silent |
| Faults.PopThenRestartOrphans | matcher/src/store.rs:252-267 | a restart between pop and timeout makes such a window |
| Faults.LostPopOrphansIff | matcher/src/store.rs:252-267 | after a pop that fails half-way, an open window has neither a queued nor a popped deadline exactly if its deadline was removed and no earlier pop of it is outstanding |
| Leftovers.StepLeavesIff | matcher/src/matcher.rs:77-396 | while sources are registered exactly with a window, a step leaves sources without a window exactly if it is a timeout of an open window failing anywhere, an event failing in the cleanup after the window is removed, or an event without a window failing right after its source is added; every other step keeps sources, window and pending row together |
| Leftovers.PendingMeansOpen | matcher/src/matcher.rs:79-101 | in every run without those failures, whatever else fails, a pending row has an open window |
| Leftovers.PendingAloneAfterStepIff | matcher/src/matcher.rs:79-396 | after such a run, one step and then one event leave a pending row without a window exactly if the step is one of those failures and the event's source is one it left behind |
| PendingRows.CellAloneIff | matcher/src/matcher.rs:59-291 | in any state of a transaction and for any failure: after a step the row is pending without a window exactly if it was so before and the step is not an unclaimed event of an unregistered source that gets past registering it, or it was not and the step is an unclaimed event of a registered source without a window that gets past the row's upsert, or a popped timeout of an open window whose row is pending and that fails at the row's upsert |
| PendingRows.StepAloneIff | matcher/src/matcher.rs:59-319 | the same for every transaction at every step of every run |
| PendingRows.SoundAloneIff | matcher/src/matcher.rs:231-271 | while sources are registered exactly with a window, the only such step is that timeout |
| PendingRows.DuplicateThenFailedTimeout | matcher/src/matcher.rs:233-271 | first event, duplicate, pop, timeout failing at its first command: the row is pending and has no window |
| Leftovers.FailedCleanupReopensTheRow | matcher/src/matcher.rs:390-396 | a timeout failing at its last command, then an event of a seen source: a pending row with no window, checkpoint or deadline |
| Recorded.ReportsHaveRows | matcher/src/matcher.rs:79-289 | in every run, with any failures, every detail row and every incident belongs to a transaction with a row |
| Timer.PassLeavesNothingDue | matcher/src/matcher.rs:294-319 | when a failure-free pass started at `now` returns, no open window has a deadline at or before `now`, with events arbitrarily interleaved |
| Incidents.LifecycleOnlyMovesForward | api-gateway/handlers/incidents.go:68-78 | between any two points of any run, with any failures and in every interleaving: no incident disappears, its status only moves forward, its severity is 1 or 2 and rises only while it is open, no timestamp that is set changes, and a resolved row is final |
| Lifecycle.StampIffHappened | api-gateway/handlers/resolve.go:17-28 | after every run, an incident carries an acknowledged, resolved or escalated timestamp exactly when the run contains that transition at that time, met in a state that allows it |
| Lifecycle.RowRecordsTheRun | matcher/src/store.rs:96-126 | severity 2 exactly if the run escalated it while open; resolved exactly if the run resolved it; acknowledged exactly if the run acknowledged it while open and did not resolve it; open otherwise |
| Incidents.OpenIncidentsAreQueued | matcher/src/matcher.rs:365-387 | without failures every open incident of severity 1 is queued for escalation or popped |
| Incidents.EscalationPassLeavesNothingDue | matcher/src/matcher.rs:322-362 | after a failure-free escalation pass started at `now`, every open incident of severity 1 is queued for later than `now` |
| Escalations.NewIncidentsQueued | matcher/src/matcher.rs:365-373 | every incident that a failure-free step inserts is queued for that step's clock plus the configured delay, and no other score changes |
| Escalations.NoneTakenEarly | matcher/src/store.rs:281-293 | what a pass takes out of the queue was created at least the configured delay before |
| Escalations.RaisedInTime | matcher/src/matcher.rs:322-362 | a failure-free escalation pass that starts at least the configured delay after an incident's creation leaves it acknowledged, resolved or raised |
| Expiry.PurgeKeeps | matcher/src/store.rs:183-195 | while the timer keeps up, expiry removes no checkpoint or source set of an open window, and no claim inside its dedup window |
| Expiry.StepRefines | matcher/src/store.rs:302-313 | one step on the expiring store refines the step on the store without expiry |
| Expiry.RunRefines | matcher/src/store.rs:169-195 | so does every timely run |
| Schedule.PunctualMeansPrompt | matcher/src/timer.rs:16-27 | if within `slack` of every deadline a timer pass starts and returns, no open window is ever older than its deadline plus `slack` |
| Schedule.ExpiryNeverShows | matcher/src/store.rs:183-313 | with such a timer and timeout + slack < 30 s, at every time the expiring store equals the one without expiry, save for claims whose dedup window is over |
| DedupWindow.ClaimedIffAccepted | matcher/src/store.rs:169-181 | after every failure-free run, at every time, an event id is claimed exactly if it was last accepted less than the dedup window ago |
| DedupWindow.IgnoredIffRecent | matcher/src/matcher.rs:64-71 | an event is ignored exactly if its id was accepted less than the dedup window ago, and handled otherwise |
| DedupWindow.KeptThirtyAndSixtySeconds | matcher/src/store.rs:183-195 | without a further event, a checkpoint is there exactly for 30 seconds after the last event of its window, and its set of sources for 60 |
| Claiming.ReturnsNeverExceedInsertions | matcher/src/store.rs:252-267 | however any number of workers interleave: insertions of an id = returns + removals + the entry still there |
| Claiming.EscalationsClaimedOnce | matcher/src/store.rs:281-293 | each escalation id is returned by at most one worker, at most once, only if expired at that worker's clock; every id seen is returned exactly once when all have finished |
| Claiming.LaterDeadlinePoppedEarly | matcher/src/store.rs:252-267 | a run in which a worker returns a deadline that is not due at its clock |
| EarlyPops.EarlyPopIff | matcher/src/store.rs:252-267 | in every run: the score of the k-th id a worker returns is later than its clock exactly if, between its snapshot and the removal, the id was inserted anew and the last time with a later score |
| EarlyPops.EveryReturnObtained | matcher/src/store.rs:252-267 | every returned id was removed by the returning worker, after its snapshot, so the condition applies to all of them |
| EarlyPops.OnlyDueReturned | matcher/src/store.rs:252-267 | a run in which no id is put off like that returns only due ids |
| Ingestor.ValidIff | services/ingestor/handler.go:206-273 | the chain of checks accepts exactly the well-formed events, and every accepted event decodes in the matcher |
| Ingestor.FirstViolationReported | services/ingestor/handler.go:206-273 | the caller is told the first thing that is wrong with the event, in the order of the checks |
| Ingestor.AcceptedMeansQueued | services/ingestor/handler.go:97-203 | in every interleaving with every failure: each 202 names an id already in the stream, and every stream message has its row and passed validation |
| Ingestor.AcceptedWindowsBalance | services/ingestor/handler.go:232-238 | on validated amounts neither subtraction of the check leaves the 64-bit range, and Matched iff currencies agree, merchant = gateway and merchant = bank + fee |
| Ingestor.OneAppendUnlessFallThrough | services/ingestor/handler.go:93-203 | with any failures, as long as no request reads an empty key and no key expires but one whose holder answered 500 without deleting it: at most one append per key, and every 202 for it carries the appended id |
| Ingestor.OneAppendPerKey | services/ingestor/handler.go:93-203 | for any number of concurrent requests with no failure and within 24 hours: at most one append per key and one id in every 202 |
| Ingestor.FallThroughAppendsTwiceIff | services/ingestor/handler.go:108-124 | once a request has read an empty key, failure-free commands can follow that append twice, exactly unless the key's holder answered 500 without deleting the key |
| Ingestor.FailureAppendsTwice | services/ingestor/handler.go:108-159 | one failed INSERT and three requests: two appends under one key |
| KeyExpiry.ExpiryAppendsTwiceIff | services/ingestor/handler.go:97-203 | after a key expires, failure-free commands can append twice under it, exactly unless its holder answered 500 without deleting it and no request was about to read it |
| EndToEnd.StreamIsReconciled | matcher/src/stream.rs:43-86 | whatever happened at the ingestor: when the matcher, without failures, consumes messages of its stream and one of them completes a session, the report is the batch's, and the status is matched exactly if currencies agree, merchant amount = gateway amount and merchant amount = bank amount + gateway fee |
| Latency.KeepsTheNewest | matcher/src/store.rs:348-352 | after any number of recordings the list is the newest min(n, 1000) samples, newest first |
| Latency.SortIsUnique | matcher/src/store.rs:380-386 | any two ascending arrangements of the same samples are the same list |
| Latency.CalcLatency | api-gateway/handlers/matcher_stats.go:73-97 | from the list as read, the Go code selects exactly the matcher's p50 and p99 of the numbers in it, whatever sort is used; zeros if there are none |
| Latency.PercentilesAgree | matcher/src/store.rs:388-396 | the clamp never acts; p50 and p99 are samples, p50 <= p99, and each is the least value that more than half, or more than 99 percent, of the samples do not exceed |
| StoreClients.RedisStore.TryClaimEvent | matcher/src/store.rs:169-181 | true exactly for an unclaimed id, which then is claimed; unchanged on failure |
| StoreClients.RedisStore.TryRegisterSource | matcher/src/store.rs:302-313 | true exactly for a source not in the set, which then is; a failing EXPIRE leaves the member added |
| StoreClients.RedisStore.Expired | matcher/src/store.rs:252-254 | exactly the members due at `now`, each once |
| StoreClients.RedisStore.PopExpiredDeadlines | matcher/src/store.rs:252-267 | returns exactly the due ids, each once, and removes just those; a failure half-way loses only due ids |
| StoreClients.RedisStore.PopExpiredEscalations | matcher/src/store.rs:281-293 | the same for escalations |
| StoreClients.RedisStore.LoadAllWindows | matcher/src/store.rs:215-244 | succeeds exactly if every SCAN got through, with exactly the checkpoints whose key was in some batch and whose GET went through once, whatever the order and repetition |
| StoreClients.PostgresStore.UpsertTransaction | matcher/src/store.rs:29-57 | a new row is inserted as given; an existing one keeps currency, type and merchant and gets the new status and time; other rows stay; unchanged on failure |
| StoreClients.PostgresStore.CreateIncident | matcher/src/store.rs:96-111 | an open row is appended and its id returned |
| StoreClients.PostgresStore.EscalateIncident | matcher/src/store.rs:113-126 | true exactly when an open row of lower severity was raised |
| StoreClients.IncidentHandlers.AcknowledgeIncident | api-gateway/handlers/incidents.go:62-79 | 200 exactly when an open incident became acknowledged; 500 exactly when the command failed; 409 and 500 change nothing |
| StoreClients.IncidentHandlers.ResolveIncident | api-gateway/handlers/resolve.go:11-29 | 200 exactly when an open or acknowledged incident became resolved; 500 exactly when the command failed; 409 and 500 change nothing |
| Engine.MatchingEngine.RestoreFromRedis | matcher/src/matcher.rs:41-49 | succeeds exactly if every SCAN got through; memory then becomes exactly the checkpoints that were scanned and fetched, and otherwise stays empty |
| Engine.MatchingEngine.PersistIncident | matcher/src/matcher.rs:365-387 | performs the listed effects, or those before the command that failed; it returns an error exactly if one did |
| Engine.MatchingEngine.CleanupWindow | matcher/src/matcher.rs:390-396 | performs the four removals, or those before the command that failed; it returns an error exactly if one did |
| Engine.MatchingEngine.FinalizeWindow | matcher/src/matcher.rs:167-227 | performs the effects of a finalisation, or those before the command that failed; it returns an error exactly if one did |
| Engine.MatchingEngine.UpsertReconciliationDetails | matcher/src/store.rs:59-94 | performs one upsert for each row in order, or those before the one that failed; it returns an error exactly if one did |
| Engine.MatchingEngine.PersistAll | matcher/src/matcher.rs:217-222 | persists every incident in order, or performs the effects before the command that failed; it returns an error exactly if one did |
| Engine.MatchingEngine.ReportVerdict | matcher/src/matcher.rs:201-223 | performs the effects of a match or of a mismatch as the verdict says, or those before the command that failed; it returns an error exactly if one did |
| Engine.MatchingEngine.DegradeWindow | matcher/src/matcher.rs:247-289 | performs the effects of a timeout on an incomplete window, or those before the command that failed; it returns an error exactly if one did |
| Engine.MatchingEngine.OpenWindow | matcher/src/matcher.rs:104-129 | opens a window and queues its deadline if there is none, or performs the effects before the command that failed; it returns an error exactly if one did |
| Engine.MatchingEngine.HoldWindow | matcher/src/matcher.rs:131-132 | the window is in memory, and in its checkpoint unless the save failed, which is exactly when it returns an error |
| Engine.MatchingEngine.Conclude | matcher/src/matcher.rs:135-156 | finalises a complete window and checkpoints an incomplete one, or performs the effects before the command that failed; it returns an error exactly if one did |
| Engine.MatchingEngine.JoinWindow | matcher/src/matcher.rs:104-162 | the whole of handle_event for a source's first event, or its effects before the command that failed; it returns an error exactly if one did |
| Engine.MatchingEngine.ReportDuplicate | matcher/src/matcher.rs:79-101 | the whole of handle_event for a repeated source, or its effects before the command that failed; it returns an error exactly if one did |
| Engine.MatchingEngine.HandleEvent | matcher/src/matcher.rs:59-163 | is one `Deliver` step, stopped exactly if it returns an error, exactly if a command failed |
| Engine.MatchingEngine.HandleTimeout | matcher/src/matcher.rs:231-291 | is one `Timeout` step, stopped exactly if it returns an error, exactly if a command failed |
| Engine.MatchingEngine.RunPool | matcher/src/matcher.rs:302-317 | at most 50 calls in flight; every popped id is handled exactly once, in whatever order they end; as many calls stop as commands failed |
| Engine.MatchingEngine.RunEscalationPool | matcher/src/matcher.rs:330-360 | at most 50 updates in flight; every popped incident is handled exactly once; as many updates are lost as commands failed |
| Engine.MatchingEngine.ProcessExpiredWindows | matcher/src/matcher.rs:294-319 | a run that pops exactly the due ids and handles each exactly once, with as many calls stopped as commands failed; an error means that the pop failed, and touches nothing but due deadlines |
| Engine.MatchingEngine.ProcessExpiredEscalations | matcher/src/matcher.rs:322-362 | a run that pops exactly the due incidents and handles each exactly once, with as many updates lost as commands failed; an error means that the pop failed, and touches nothing but due escalations |
| TimerWorker.PassDone | matcher/src/matcher.rs:294-319 | such a run, if failure-free, leaves no window due at `now` |
| TimerWorker.EscalationPassDone | matcher/src/matcher.rs:322-362 | a failure-free escalation pass leaves no open incident of severity 1 due at `now` |
| TimerWorker.Turn | matcher/src/timer.rs:16-27 | one turn of the loop: a successful failure-free window pass leaves no window due at its clock, a successful failure-free escalation pass no incident due at its own, even if the window pass failed; nothing stays popped; every pass or call that did not complete is matched by a failed command, so without failures both passes run and every step is clean |
| Engine.PopsRun | matcher/src/store.rs:252-267 | popping the ids of a snapshot one by one removes exactly them and makes exactly them outstanding |
| Consumer.StreamConsumer.ProcessEntry | matcher/src/stream.rs:45-84 | an entry without payload or that does not parse changes nothing, any other is one step, stopped exactly if a command failed; it is acknowledged exactly if it did not stop and the acknowledgement got through |
| Consumer.StreamConsumer.ProcessBatch | matcher/src/stream.rs:43-86 | the batch is the run of its parsable messages in order, and all complete exactly if no command failed; exactly the entries that did not stop and whose acknowledgement got through are acknowledged; across all batches, an acknowledged parsable message has its event id claimed |
| Handler.IngestHandler.Enqueue | services/ingestor/handler.go:127-203 | 202 exactly if INSERT and XADD get through, and then one append; otherwise 500 and the key deleted, if DEL gets through |
| Handler.IngestHandler.ClaimKey | services/ingestor/handler.go:97-124 | SETNX and GET: 500 if SETNX fails; the stored answer if the key is taken and read; otherwise the request goes on, with the key claimed if it was free |
| Handler.IngestHandler.HandleEvent | services/ingestor/handler.go:61-204 | a request running alone is a run of its own protocol steps; validity, what is stored under the key and which commands get through determine the reply, the key and the stream; whoever is accepted has its id in the stream |

## Left out

- Connections, migrations, configuration loading, health endpoints, logging, HTTP and WebSocket plumbing, list endpoints and pagination.
- JSON and UUID parsing, which are taken to round-trip; a message is parsable or not. A checkpoint that does not parse is skipped by the matcher; the model has none.
- Interleaving at every `await` between an event and a timeout of the same transaction: each call is one step. For `handle_event` and `handle_timeout` overlapping on one transaction nothing is claimed.
- The endless loops of `stream::run` and `timer::run` are modelled one batch and one turn at a time.
- Commands that take effect although the client sees an error: a failed command has done nothing.
- A pop that fails half-way is not a step of `Matcher.Step`; its contract and `Faults.LostPopOrphansIff` describe it.
- Pub/sub payloads, `sources_seen` included: the model knows that a notification is sent, not what it says, and leaves out the one about an escalation.
- Descriptions of incidents, beyond which sources a missing-source incident names.
- `last_seen` keys, per-source counters, and the expiry of the event counter after an hour. Of `record_event_processed` only the counter of events is modelled.
- Floating-point averages, success percentages and division to milliseconds.
- Cells.Projection: an incident's status, severity, timestamps and place in the escalation queue are not part of a transaction's share; `Lifecycle` and `Incidents` speak of those.
- Row metadata (currency, type, merchant) is modelled with the first insert's values kept, but the order-independence lemmas speak of status, details and incidents only.
- Currencies are strings of one character per byte.
- Conservation.ActiveWindowsStatIff: speaks of the counters without their expiry, because the hourly reset of one of them is not modelled.
- Handler.IngestHandler.HandleEvent: one request alone; interleavings of requests are the subject of module Ingestor.
- Emulators, the scenario generator, the frontend and the read-only `api/` service.
