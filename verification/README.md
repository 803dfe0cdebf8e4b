# Staminads protocols, modelled and proved

Staminads is a web-analytics engine: a browser SDK measures sessions and re-sends them, an ingestion API
buffers events per workspace and writes them to ClickHouse, and services around the tables migrate, export,
stitch, synchronise and cache. This project models the parts of it that carry state over time, and proves what
holds over every run of them. `dafny verify dfyconfig.toml` checks everything.

Where the source changes fields step by step there are two layers: a transition system on values, over which runs
are quantified, and a class with the source's fields whose methods are proved to make exactly those transitions.
An asynchronous method is split at its `await`s, so a run is any interleaving of the pieces.

| part | modules |
|---|---|
| event buffer | `Events`, `BufferProtocol` (transitions and runs), `EventBuffer` (the class) |
| ingestion | `Tokens` (deduplication tokens), `EventsTable` (max version per key), `SdkSession` (the SDK's cumulative action list), `Ingestion` (the handler, end to end), `GoalsTable` and `SessionsTable` (the tables fed by materialized views) |
| heartbeat | `Tiers`, `Heartbeat` (timed transitions and runs), `Tracking` (heartbeat and action list together), `HeartbeatSdk` (the class) |
| migrations | `V11Rebuild` (table rebuild with crashes), `MigrationsRunner` (restarts) |
| memberships | `Members` |
| export | `Export` (keyset pagination), `Journey` (its bounded consumer) |
| identity | `Stitch` |
| Search Console | `GscSync` (paged pull with retries, sync), `GscRepository` (window replacement, reads, histories) |
| analytics | `CacheProtocol` (transitions and runs), `AnalyticsCache` (the class), `Funnel` |

## Where the code and its comments part ways

Each of these is a theorem here, with the exact condition.

- A buffer can hold events with no timer armed and no insert running. The comment in
  `api/src/events/event-buffer.service.ts:178-180` names that danger, but only the failure path re-arms the timer:
  a flush that is asked for during an insert spends the timer, and a successful insert does not arm a new one
  (`BufferProtocol.StrandedExactly`, `BufferProtocol.SuccessCanStrand`). It cannot happen on runs where no flush is
  asked for while an insert of the same workspace is running (`BufferProtocol.OverlapFreeRunsStayArmed`).
- The retention cap is described as a hard upper bound on a workspace's buffer
  (`api/src/events/event-buffer.service.ts:8-16`). It is enforced when an insert fails; while one runs, any number of
  events can wait (`BufferProtocol.WaitingQueueIsUnbounded`). `BufferProtocol.OverBoundExactly` says when a queue goes
  beyond the cap and when it comes back.
- Shutdown logs a complete final flush, but the flush of a workspace with an insert running returns at once: what waits
  behind that insert is never sent (`BufferProtocol.ShutdownLosesExactly`).
- The V11 rebuild keeps the data through any crashes, but not always the engine: after a crash between EXCHANGE and
  DROP the next attempt fills the old plain table and swaps it back. The replacing engine is reached exactly when
  the number of such crashes is even (`V11Rebuild.ReplacingExactlyAfterEvenSwaps`).
- Migration 13 is registered while the code version is 12, so this build never runs it (`MigrationsRunner.V13NeverRuns`).
- Losing focus releases the current page: `flushOnce` finalises it, and the next page entry finds no current page. What
  is spent on the page after a blur and a focus is measured by the heartbeat but reported by no page
  (`Tracking.BlurLosesTheRest`). `Tracking.DisciplinedDurationsExactly` says exactly when page durations add up to the
  session time, and `Tracking.DurationsAreActiveTimeMinusLosses` what is missing otherwise, on every run.
- A tab that is closed without a departure leaves its page current in session storage; after a reload that page reports
  0, whatever it reported before (`Tracking.ReloadForgetsTheCurrentPage`).
- A pause does not keep the heartbeat stopped: `reset()`, and a navigation that resets the heartbeat, start it without
  looking at `isPaused`, and time counts (`Heartbeat.CountsWhilePausedExactly`, `Heartbeat.ResetCountsWhilePaused`).
- The ping bound of the heartbeat needs that it is resumed only when inactive. Focus events on a visible page resume it
  while it is active, each leaves one more timer behind, and any number of pings fits into ten seconds
  (`Heartbeat.ResumingWhileActiveUnboundsPings`). On any run, five seconds hold at most one ping more than there were
  such resumes (`Heartbeat.PingsInFiveSeconds`).
- `validateTiers` sorts, then puts a tier at zero in front whenever the first threshold is not zero: with a negative
  threshold the result is out of order (`Tiers.ValidatedIsSortedExactly`).
- Two goals with the same name in the same millisecond share a token and collapse into one row
  (`SdkSession.KeysRepeatExactly`, `Ingestion.OneRowPerActionExactly`).
- Two payloads of a session stamped in the same millisecond do not commute unless they agree
  (`EventsTable.DeliveriesCommuteExactly`).
- A goal that is sent again keeps its token, and is one row of `events`, but `goals` is keyed by the corrected timestamp:
  there it is one row for each different clock correction its payloads were given (`GoalsTable.GoalShowsOncePerCorrection`).
  `sessions` is keyed by the corrected creation time, with the same effect (`SessionsTable.SessionShowsOncePerCorrection`).
- Two tabs of one session number their pages separately, both from 1, so their rows collide
  (`SdkSession.TabsCollideExactly`).
- The scheduler calls the Search Console sync idempotent. Repeating a window is (`GscRepository.RepeatingChangesNoRead`),
  but the window moves by a day each day: a sync that empties its window and fails to fill it loses the oldest day for
  good (`GscSync.RollingWindowLosesADay`). `GscSync.SecondSyncHidesExactly` says when a later sync hides an earlier one.
- A backfill during a running query leaves a cached entry that no later backfill clears
  (`CacheProtocol.LateWriteEscapesBackfills`); `CacheProtocol.OrphansExactly` names the two steps that do it, and
  `CacheProtocol.QuietBackfillClears` the runs on which it cannot happen.
- A funnel step reads 100 percent although visits were lost, as long as they are at most one in 20 000
  (`Funnel.StepReadsHundredExactly`, `Funnel.HundredHidesALoss`).

## Model

| member | source | states |
|---|---|---|
| BufferProtocol.EveryRunKeepsInv | api/src/events/event-buffer.service.ts:58-192 | on every interleaving of adds, timer fires, flush calls, insert successes and failures: one insert per workspace, queues sorted by workspace, events conserved, drop counter right |
| BufferProtocol.EveryRunConserves | api/src/events/event-buffer.service.ts:58-192 | from the empty buffer, for each workspace: resolved events, then the batch in flight, then the queue are the accepted events in order; the counter is the number of dropped events; at most one insert each |
| BufferProtocol.FailedFlushKeepsNewest | api/src/events/event-buffer.service.ts:159-192 | a failed flush leaves the longest suffix of failed batch and newer events within the cap, counts the rest as dropped, arms a timer, and touches no other workspace |
| BufferProtocol.StrandedExactly | api/src/events/event-buffer.service.ts:133-192 | a queue waits with no timer and no insert after a step if and only if an insert just succeeded beside a queue without timer, or it waited already and no flush call or threshold woke it |
| BufferProtocol.SuccessCanStrand | api/src/events/event-buffer.service.ts:133-158 | a run of five steps from the empty buffer that strands an event |
| BufferProtocol.OverlapFreeRunsStayArmed | api/src/events/event-buffer.service.ts:58-158 | on every run where no flush is asked for during an insert of the same workspace, a non-empty queue always has a timer |
| BufferProtocol.OverBoundExactly | api/src/events/event-buffer.service.ts:8-76 | a queue is beyond cap and size threshold after a step if and only if an add during a running insert took it there, or it was and the step did not relieve it |
| BufferProtocol.InsertHoldsTheQueue | api/src/events/event-buffer.service.ts:133-143 | while an insert runs, any events added to its workspace pile up in order, none sent or dropped |
| BufferProtocol.WaitingQueueIsUnbounded | api/src/events/event-buffer.service.ts:133-143 | for every cap and n, a run from the empty buffer that leaves n events waiting |
| BufferProtocol.ShutdownLosesExactly | api/src/events/event-buffer.service.ts:42-56 | shutdown sends exactly the queues of workspaces with no insert running; with all inserts succeeding, the others stay unsent and without a timer |
| EventBuffer.RegroupKeepsEachWorkspace | api/src/events/event-buffer.service.ts:78-96 | regrouping a batch keeps every workspace's events, all and in order |
| EventBuffer.CollectGroups | api/src/events/event-buffer.service.ts:79-87 | after the grouping loop the map holds each workspace's events, its keys in order of first appearance |
| EventBuffer.GroupByWorkspace | api/src/events/event-buffer.service.ts:79-91 | one group per workspace, in order of first appearance, each the filtered batch |
| EventBuffer.BatchIsAccepted | api/src/events/event-buffer.service.ts:78-96 | an awaited batch is accepted up to and including the event whose flush throws, which leaves that workspace with a timer and no insert running |
| EventBuffer.AddInTwoParts | api/src/events/event-buffer.service.ts:91-95 | adding a concatenation is adding its parts one after the other unless the first throws |
| EventBuffer.FirstSeenInOrder | api/src/events/event-buffer.service.ts:79-91 | of two groups, the workspace of the earlier one occurs in the batch before any event of the later one |
| EventBuffer.BatchIsRun | api/src/events/event-buffer.service.ts:78-96 | whatever inserts succeed, an awaited batch is a run of the protocol that accepts its events in order, each insert that it starts ending as the database answers |
| EventBuffer.BatchIsClean | api/src/events/event-buffer.service.ts:145-158 | a batch that does not throw drops nothing, every event that left the buffer was inserted, and a workspace below 500 events with no insert running stays below |
| EventBuffer.StartsExactly | api/src/events/event-buffer.service.ts:68-75 | an added event starts an insert if and only if it makes the queue reach 500 and none is running |
| EventBuffer.EventBufferService.constructor | api/src/events/event-buffer.service.ts:31-35 | starts empty; the cap is the configured positive integer or 50 000 |
| EventBuffer.EventBufferService.StartFlushTimer | api/src/events/event-buffer.service.ts:110-123 | afterwards the workspace has a timer, others are unchanged |
| EventBuffer.EventBufferService.StopFlushTimer | api/src/events/event-buffer.service.ts:125-131 | afterwards the workspace has no timer, others are unchanged |
| EventBuffer.EventBufferService.Flush | api/src/events/event-buffer.service.ts:133-154 | up to the insert, the flush makes the transition of the protocol and keeps its invariant; says what is sent |
| EventBuffer.EventBufferService.Requeue | api/src/events/event-buffer.service.ts:159-183 | a failed batch goes in front, the oldest beyond the cap are dropped and counted, a timer is armed unless nothing is left |
| EventBuffer.EventBufferService.FinishFlush | api/src/events/event-buffer.service.ts:155-191 | after the insert, success or failure makes the transition of the protocol and keeps its invariant |
| EventBuffer.EventBufferService.FlushSucceeded | api/src/events/event-buffer.service.ts:155-158 | the whole new state after a successful insert |
| EventBuffer.EventBufferService.FlushFailed | api/src/events/event-buffer.service.ts:159-191 | the whole new state after a failed insert |
| EventBuffer.EventBufferService.OnModuleDestroy | api/src/events/event-buffer.service.ts:42-56 | up to the inserts: all timers stopped, each workspace flushed |
| EventBuffer.EventBufferService.Add | api/src/events/event-buffer.service.ts:58-76 | up to the insert, adding makes the transition of the protocol and keeps its invariant |
| EventBuffer.EventBufferService.AddAndWait | api/src/events/event-buffer.service.ts:58-76 | an awaited add is a run of one added event and, if it starts an insert, its outcome; it throws exactly if the insert failed, and then a timer is armed; otherwise nothing is dropped or put back |
| EventBuffer.EventBufferService.AddGroup | api/src/events/event-buffer.service.ts:92-94 | one workspace's events are added one after the other until one throws |
| EventBuffer.EventBufferService.AddGroups | api/src/events/event-buffer.service.ts:91-95 | the groups are added as their concatenation, until one throws |
| EventBuffer.EventBufferService.AddBatch | api/src/events/event-buffer.service.ts:78-96 | the whole new state, for any pattern of insert failures, as a run of the protocol over the accepted events; without a throw all are accepted, none dropped or put back, and queues below 500 stay below |
| Tokens.DecodeToken | api/src/events/session-payload.handler.ts:527-529 | a token gives back its page number, or its goal name and timestamp even when the name holds underscores and digits |
| Tokens.TokenInjective | api/src/events/session-payload.handler.ts:558-561 | within a session two actions have the same token if and only if they have the same key; pages and goals never clash |
| Tokens.TokenExamples | api/src/events/session-payload.handler.ts:527-561 | tokens written out: page 12, a goal with an underscore in its name, a negative timestamp |
| EventsTable.FinalFromDeliveries | api/src/database/schemas.ts:431-433 | a deduplicated read of a key is the row of a delivery with the highest version that has the key |
| EventsTable.FinalIsLastOfHighest | api/src/database/schemas.ts:431-433 | of the rows with a key, a read returns the last inserted among those of the highest version |
| EventsTable.TableConverges | api/src/database/schemas.ts:431-433 | deliveries in any order and repetition, with versions that identify them, give the same table |
| EventsTable.DeliveriesCommuteExactly | api/src/events/session-payload.handler.ts:119-120 | two deliveries commute if and only if their versions differ or they agree on every shared key |
| EventsTable.KeysOnlyGrow | api/src/database/schemas.ts:431-433 | no later delivery removes a key |
| EventsTable.NewestCoveringWins | api/src/database/schemas.ts:431-433 | the newest delivery, when it covers a key, is all that a read of the key shows |
| EventsTable.CountKeys | api/src/database/schemas.ts:431-433 | the read has as many rows as were inserted if and only if no key repeats |
| SdkSession.StepExtendsKeys | sdk/src/core/session-state.ts:85-252 | every call keeps pages numbered increasingly and only appends to the announced keys |
| SdkSession.SnapshotsAreCumulative | sdk/src/core/session-state.ts:85-298 | on every run, from a new session or a restored one, an earlier payload's keys are a prefix of a later one's |
| SdkSession.RunRecords | sdk/src/core/session-state.ts:85-187 | on every run the list records the page entries and goals called for, in order, each with its own path, name, value, properties and time, up to the limit of 1000 |
| SdkSession.EveryGoalNamesItsPage | sdk/src/core/session-state.ts:142-187 | on every run each goal carries path and number of the page entered last before it, or the root path and number 1 |
| SdkSession.EntryOpensAPage | sdk/src/core/session-state.ts:85-123 | the page entered has its path and the next number, starts at zero at that time and is current |
| SdkSession.EntryClosesTheCurrentPage | sdk/src/core/session-state.ts:85-123 | entering a page gives the current one its focus time and exit time and rewrites nothing else |
| SdkSession.RefreshByColumns | sdk/src/core/session-state.ts:191-252 | a payload or a departure writes focus time and exit time of the current page only; a departure releases it |
| SdkSession.ScrollIsTheLargest | sdk/src/core/session-state.ts:125-138 | after any scroll readings the current page has the largest of them, kept within 0 and 100, and no other action changed |
| SdkSession.KeysRepeatExactly | sdk/src/core/session-state.ts:142-187 | on every run, from a new session or a restored one, two actions of one list share a key if and only if one goal name occurs twice in one millisecond |
| SdkSession.TabsCollideExactly | sdk/src/core/session-state.ts:276-328 | two tabs that share a session id but not a list collide on exactly the pages that both have reached, and on goals reached in both in the same millisecond |
| SdkSession.SessionState.constructor | sdk/src/core/session-state.ts:35-48 | starts without actions and without a current page |
| SdkSession.SessionState.Restore | sdk/src/core/session-state.ts:276-298 | the list becomes the stored one, if there is one |
| SdkSession.SessionState.GetNextPageNumber | sdk/src/core/session-state.ts:317-328 | one more than every page number so far |
| SdkSession.SessionState.FinalizeCurrentPageDuration | sdk/src/core/session-state.ts:306-315 | writes focus time and exit time on the current page, and nothing else |
| SdkSession.SessionState.AddPageview | sdk/src/core/session-state.ts:85-123 | the whole new state, and that it stays valid |
| SdkSession.SessionState.AddGoal | sdk/src/core/session-state.ts:142-187 | the whole new state, valid; refuses exactly at the limit of 1000 actions |
| SdkSession.SessionState.UpdateScroll | sdk/src/core/session-state.ts:125-138 | the whole new state, valid: the clamped maximum on the current page |
| SdkSession.SessionState.BuildPayload | sdk/src/core/session-state.ts:191-236 | the payload holds all actions, the current page updated first |
| SdkSession.SessionState.FinalizeForUnload | sdk/src/core/session-state.ts:240-252 | the current page is updated and then released |
| Ingestion.DeliveryHoldsItsKeys | api/src/events/session-payload.handler.ts:119-166 | a payload's rows carry one version and hold exactly the keys of its actions |
| Ingestion.RowTellsItsAction | api/src/events/session-payload.handler.ts:487-577 | every row gives back its action: read column by column and with the correction undone it is the action sent, a missing value 0 and missing properties empty; a page row has the path of the last page before it |
| Ingestion.RowTellsItsPayload | api/src/events/session-payload.handler.ts:487-525 | every row has the workspace, session, version and arrival time of its payload, its corrected creation and update times, and the derived columns as filtered |
| Ingestion.SkewIsZeroExactly | api/src/events/session-payload.handler.ts:652-680 | times are corrected if and only if the client says when it sent and is off by more than the tolerance, and then its send time becomes the arrival time |
| Ingestion.OneRowPerActionExactly | api/src/events/session-payload.handler.ts:140-158 | a payload yields one table row per action if and only if no two actions share a key |
| Ingestion.LastSnapshotWins | sdk/src/sdk.ts:755-776 | payloads of any SDK run, from a new or a restored list, received in any order and repetition, re-queued ones included: if one of the latest snapshot arrives with the highest version, a read of the session is exactly that payload |
| Ingestion.LastSnapshotShowsItsPages | api/src/events/session-payload.handler.ts:533-549 | in that case the read of each page shows path, number, duration, scroll depth and corrected times of that snapshot, and the path of the page before |
| Ingestion.SnapshotIsKnown | sdk/src/core/session-state.ts:85-187 | the SDK sends no action of an unknown type |
| Ingestion.SnapshotShowsExactly | sdk/src/transport/sender.ts:96-137 | whatever is queued and sent late: an action is read as a given snapshot has it if and only if no receipt with a higher version holds the action |
| Ingestion.CorrectionBoundsTheError | api/src/events/session-payload.handler.ts:652-680 | for any client clock offset and latency a corrected timestamp is off by at most the tolerance around the latency |
| GoalsTable.GoalShowsOncePerCorrection | api/src/database/schemas.ts:777-868 | after any receipts of a session, one SDK goal is exactly as many rows of `goals` as its receipts were given different clock corrections |
| GoalsTable.GoalShowsOnceExactly | api/src/database/schemas.ts:777-779 | a received goal is one row of `goals` if and only if all its receipts were given the same correction |
| GoalsTable.GoalTimestampStableExactly | api/src/events/session-payload.handler.ts:553-576 | two sends of a goal have the same token always, and the same corrected timestamp if and only if they were given the same correction, inside the tolerance or not |
| SessionsTable.SessionShowsOncePerCorrection | api/src/database/schemas.ts:517-530 | payloads inserted one by one: a session is exactly as many rows of `sessions` as its payloads were given different corrections |
| SessionsTable.SessionShowsOnceExactly | api/src/database/schemas.ts:517-530 | it is one row if and only if all its payloads were given the same correction |
| Ingestion.DeserializeAction | api/src/events/session-payload.handler.ts:487-577 | the row of one action: read back with the correction undone, it is the action; token from the SDK timestamp |
| Ingestion.DeserializeActions | api/src/events/session-payload.handler.ts:140-158 | one row per action in order, each pageview with the path of the one before; an unknown type rejects the payload |
| Ingestion.ApplyFilters | api/src/events/session-payload.handler.ts:160-166 | every row is filtered once, none moved |
| Ingestion.BuildRows | api/src/events/session-payload.handler.ts:119-166 | accepted if and only if all action types are known, and then the rows of the payload |
| Ingestion.RegroupOneWorkspace | api/src/events/session-payload.handler.ts:168-169 | a payload's rows reach the buffer in their own order |
| Ingestion.Handle | api/src/events/session-payload.handler.ts:50-170 | which payloads are dropped, rejected or ingested, and the buffer's whole new state in each case |
| Tiers.ValidatedIsUsable | sdk/src/sdk.ts:710-739 | for any list, normalised tiers start at zero and have no interval below 5000 ms |
| Tiers.ValidatedKeepsTiers | sdk/src/sdk.ts:710-739 | normalisation keeps every configured tier with its threshold, each interval raised to 5000 or left missing, and adds none but the default first one |
| Tiers.DefaultTiersApply | sdk/src/sdk.ts:710-713 | without a configuration: 10, 20 and 30 seconds on a desktop, 7, 14 and 21 on a mobile device, from 0, 3 and 5 minutes of active time on |
| Tiers.SortPermutes | sdk/src/sdk.ts:715-716 | sorting keeps every tier |
| Tiers.SortSorts | sdk/src/sdk.ts:715-716 | sorting orders tiers by threshold |
| Tiers.ValidatedIsSortedExactly | sdk/src/sdk.ts:710-739 | normalised tiers are in order if and only if no threshold is negative |
| Tiers.TierIsGreatestReached | sdk/src/sdk.ts:634-654 | the early-exit scan finds the greatest threshold reached |
| Tiers.TierIndexGrows | sdk/src/sdk.ts:634-654 | the tier never goes down as active time grows |
| Tiers.GetCurrentTier | sdk/src/sdk.ts:634-654 | the loop computes that tier |
| Heartbeat.EveryRunAccounts | sdk/src/sdk.ts:295-370 | on every run of events with a clock that does not go back, measured time plus thrown-away time is active time, for the session and for pages |
| Heartbeat.MeasuredTimeIsActiveTimeMinusLosses | sdk/src/sdk.ts:402-705 | from start, on every run: session and page time never exceed the active time, and are exact if and only if nothing was thrown away |
| Heartbeat.EveryDisciplinedRunIsPaced | sdk/src/sdk.ts:439-705 | while it is resumed only when inactive and not reset: one timer at most, and each ping with 5000 ms of its own, for any usable tiers |
| Heartbeat.TierNeverFalls | sdk/src/sdk.ts:486-541 | on such runs, with tiers in order, the tier index never falls and never runs ahead of the active time |
| Heartbeat.PingsAreBounded | sdk/src/sdk.ts:486-629 | on such runs at most ceil(maxDuration / 5000) pings, and then no timer is left |
| Heartbeat.DisciplinedTimeIsExact | sdk/src/sdk.ts:575-705 | on such runs what the focus getter reports at page entries plus what it reports now is the session time, which is the active time |
| Heartbeat.PingsInFiveSeconds | sdk/src/sdk.ts:466-541 | on any run at all, the armed timers, and the pings in any five seconds, are at most one more than the resumes so far that found the heartbeat active |
| Heartbeat.NextPingIsDue | sdk/src/sdk.ts:486-541 | after any run, disciplined or not, an active heartbeat on a visible page, not paused, has its next ping armed one interval of the current tier after the last one, and firing it pings |
| Heartbeat.NextPingFollowsTheTier | sdk/src/sdk.ts:486-541 | after any run, with tiers in order: the armed ping is due at the last one plus the interval, for this kind of device, of the last tier whose threshold the active time of that ping had reached |
| Heartbeat.FirstPingOfEachDevice | sdk/src/sdk.ts:659-665 | with the default settings the first ping comes after 10 seconds on a desktop and after 7 on a mobile device |
| Heartbeat.PingRecordsTheTier | sdk/src/sdk.ts:513-540 | a ping records its time and the tier that applies to the active time of the ping |
| Heartbeat.EndsOnlyAtTheLimit | sdk/src/sdk.ts:486-511 | after any run, a heartbeat that has ended for good is at its maximum duration or in a tier without an interval for the device |
| Heartbeat.FlagsFollowEvents | sdk/src/sdk.ts:295-306 | only the tab changes visibility, only a pause and its end change the pause |
| Heartbeat.ReturnsStart | sdk/src/sdk.ts:295-342 | a return starts the heartbeat if and only if it is neither paused nor at the end, and otherwise changes nothing but visibility |
| Heartbeat.CountsWhilePausedExactly | sdk/src/sdk.ts:964-1013 | time counts during a pause after a step if and only if a session reset or a resetting navigation just started it, or it counted before and was not stopped |
| Heartbeat.ResetCountsWhilePaused | sdk/src/sdk.ts:985-1013 | the runs: after a pause and a reset, all the time that follows counts |
| Heartbeat.ResumingWhileActiveUnboundsPings | sdk/src/sdk.ts:466-481 | with the default settings, for every n there is a run with n pings in ten seconds |
| Tracking.EveryRunAccounts | sdk/src/sdk.ts:295-434 | on every interleaving of handlers, page entries, goals and sends, what a payload's pages report plus what is lost is the active time of the session |
| Tracking.DurationsAreActiveTimeMinusLosses | sdk/src/sdk.ts:372-434 | over one session, on every run from a new or restored list: what pages report beyond what they reported before is the active time minus the losses, exact if and only if no step throws page time away and the reload did not |
| Tracking.ReloadForgetsTheCurrentPage | sdk/src/sdk.ts:230-237 | a restored page that was still current reports 0, and the list as much less |
| Tracking.DisciplinedDurationsExactly | sdk/src/sdk.ts:575-705 | resumed only when inactive and not reset: the page durations grow by the session time, less what a reload took, if and only if no active time passes while no page is current and no entry is refused to a page with time on it |
| Tracking.BlurLosesTheRest | sdk/src/sdk.ts:321-324 | the failing runs, disciplined and with the default settings (valid by `Heartbeat.DefaultsAreValid`): a page opened at 0, blurred, focused and left reports only the time before the blur |
| Tracking.ListSettles | sdk/src/core/session-state.ts:240-315 | which signals settle the current page, with what duration, and whether a page is current afterwards |
| Tracking.SignalRecords | sdk/src/sdk.ts:402-421 | a signal adds to the list the page that it enters or the goal that it tracks, at its time, unless the list is full, and nothing else |
| Tracking.DepartureReadsThePage | sdk/src/sdk.ts:372-398 | a departure gives the current page its scroll depth, focus time and exit time and releases it; the next one in a row changes nothing |
| Tracking.PayloadReadsThePage | sdk/src/sdk.ts:560-570 | a ping, a goal or a debounced send refreshes the current page, and it stays current |
| Tracking.EntryReadsThePage | sdk/src/sdk.ts:402-421 | a page entry first gives the page before it its scroll depth, focus time and exit time |
| Tracking.OneReadPerDeparture | sdk/src/sdk.ts:295-398 | of two departures in a row only the first reads the page; a return makes the next one read again |
| Tracking.PageTimer | sdk/src/sdk.ts:687-705 | how each signal changes the page timer |
| HeartbeatSdk.StaminadsSDK.constructor | sdk/src/sdk.ts:121-252 | normalised tiers, maximum duration raised to a minute unless unlimited, the stored list restored, the first page entered, the heartbeat started, in a visible tab or a hidden one |
| HeartbeatSdk.StaminadsSDK.StopHeartbeat | sdk/src/sdk.ts:575-593 | the whole new state: running time moves to the accumulated one if asked, the named timer is cleared |
| HeartbeatSdk.StaminadsSDK.GetTotalActiveMs | sdk/src/sdk.ts:598-604 | accumulated plus running time |
| HeartbeatSdk.StaminadsSDK.GetPageActiveMs | sdk/src/sdk.ts:698-705 | accumulated plus running page time |
| HeartbeatSdk.StaminadsSDK.CheckAndUpdateMaxDuration | sdk/src/sdk.ts:609-629 | true if and only if a limit is set and reached, and then recorded |
| HeartbeatSdk.StaminadsSDK.GetCurrentInterval | sdk/src/sdk.ts:659-665 | with tiers in order, the interval of the last tier reached: the mobile one on a mobile device, the desktop one otherwise |
| HeartbeatSdk.StaminadsSDK.ScheduleNextHeartbeat | sdk/src/sdk.ts:486-541 | the whole new state: stop at the limit or a null interval, else one more timer with drift compensation |
| HeartbeatSdk.StaminadsSDK.StartHeartbeat | sdk/src/sdk.ts:439-461 | the whole new state |
| HeartbeatSdk.StaminadsSDK.ResumeHeartbeat | sdk/src/sdk.ts:466-481 | the whole new state; the previous timer is not cleared |
| HeartbeatSdk.StaminadsSDK.ResetHeartbeatState | sdk/src/sdk.ts:670-682 | the whole new state |
| HeartbeatSdk.StaminadsSDK.ResetPageActiveTime | sdk/src/sdk.ts:687-691 | page time restarts, session time stays |
| HeartbeatSdk.StaminadsSDK.SendPayload | sdk/src/sdk.ts:760-776 | the current page is refreshed with the focus getter's value |
| HeartbeatSdk.StaminadsSDK.SendPingEvent | sdk/src/sdk.ts:560-570 | scroll first, then a payload |
| HeartbeatSdk.StaminadsSDK.FlushOnce | sdk/src/sdk.ts:372-398 | once per departure: the current page gets its duration and is released |
| HeartbeatSdk.StaminadsSDK.EnterPage | sdk/src/sdk.ts:402-421 | the page entry reads the focus getter, then the page timer restarts |
| HeartbeatSdk.StaminadsSDK.OnTimeout | sdk/src/sdk.ts:513-540 | the timer callback: pings if and only if active, visible and not paused, with a payload, then schedules the next |
| HeartbeatSdk.StaminadsSDK.OnVisibilityChange | sdk/src/sdk.ts:295-306 | the whole new state of heartbeat, action list and `flushed` |
| HeartbeatSdk.StaminadsSDK.OnFocus | sdk/src/sdk.ts:311-342 | the whole new state of heartbeat, action list and `flushed`; lifecycle resume does the same |
| HeartbeatSdk.StaminadsSDK.OnBlur | sdk/src/sdk.ts:321-332 | the whole new state, the current page released; freeze does the same |
| HeartbeatSdk.StaminadsSDK.OnUnload | sdk/src/sdk.ts:347-349 | the current page is released, the heartbeat goes on |
| HeartbeatSdk.StaminadsSDK.OnNavigation | sdk/src/sdk.ts:402-434 | the whole new state: page entry, page timer, and the heartbeat if it is reset |
| HeartbeatSdk.StaminadsSDK.TrackPageView | sdk/src/sdk.ts:865-888 | the whole new state: page entry and page timer |
| HeartbeatSdk.StaminadsSDK.TrackGoal | sdk/src/sdk.ts:893-911 | the goal is added if there is room, and a payload built |
| HeartbeatSdk.StaminadsSDK.DebouncedSend | sdk/src/sdk.ts:744-753 | a payload is built |
| HeartbeatSdk.StaminadsSDK.Pause | sdk/src/sdk.ts:964-968 | the whole new state; the page stays current |
| HeartbeatSdk.StaminadsSDK.ResumeTracking | sdk/src/sdk.ts:973-980 | the whole new state; the page stays current and its timer restarts |
| HeartbeatSdk.StaminadsSDK.ResetSession | sdk/src/sdk.ts:985-1013 | the whole new state: a new action list with its first page, a fresh heartbeat |
| V11Rebuild.EveryHistoryPreserves | api/src/migrations/v11-workspaces-replacing-migration.ts:48-105 | through any number of attempts crashing anywhere, no id appears or is lost, and what is freshest was freshest before |
| V11Rebuild.EveryHistoryShowsTheSameRows | api/src/migrations/v11-workspaces-replacing-migration.ts:79-105 | without two versions at one instant, the freshest row of every workspace is the very same |
| V11Rebuild.CompletedAttempt | api/src/migrations/v11-workspaces-replacing-migration.ts:53-105 | a completed attempt leaves one row per id, and the replacing engine if and only if no plain table was left over |
| V11Rebuild.StopsLeave | api/src/migrations/v11-workspaces-replacing-migration.ts:48-105 | where an attempt crashed says what it left: the live table changes at the EXCHANGE only, and the copy is a prefix of the query |
| V11Rebuild.EnginesAlternate | api/src/migrations/v11-workspaces-replacing-migration.ts:94-105 | over any crashes, which engine is in place is the parity of those between EXCHANGE and DROP |
| V11Rebuild.ReplacingExactlyAfterEvenSwaps | api/src/migrations/v11-workspaces-replacing-migration.ts:94-105 | the first completed attempt leaves the replacing engine if and only if that number is even |
| V11Rebuild.ReplacingStays | api/src/migrations/v11-workspaces-replacing-migration.ts:53-105 | once in place with no plain leftover, the replacing engine survives any history |
| V11Rebuild.SystemDatabase.constructor | api/src/migrations/v11-workspaces-replacing-migration.ts:37-48 | starts with the table alone |
| V11Rebuild.SystemDatabase.CreateIfNotExists | api/src/migrations/v11-workspaces-replacing-migration.ts:53-71 | an empty replacing table unless one exists |
| V11Rebuild.SystemDatabase.Truncate | api/src/migrations/v11-workspaces-replacing-migration.ts:73-77 | the replacement is emptied and keeps its engine |
| V11Rebuild.SystemDatabase.InsertIntoV11 | api/src/migrations/v11-workspaces-replacing-migration.ts:79-92 | the copied rows are appended |
| V11Rebuild.SystemDatabase.MigrateSystem | api/src/migrations/v11-workspaces-replacing-migration.ts:48-110 | the five commands up to any crash point leave the state of the crash model |
| MigrationsRunner.EveryHistoryKeepsInv | api/src/migrations/migrations.service.ts:51-125 | over any starts the version never falls, rises by at most one per start, and attempts are in order |
| MigrationsRunner.StoredVersionIsTrue | api/src/migrations/migrations.service.ts:67-121 | every migration up to the stored version was carried out in full on the workspaces listed then; none beyond the next was begun |
| MigrationsRunner.SmoothStartsReachCode | api/src/migrations/migrations.service.ts:83-117 | failure-free starts, one per missing version, reach the code version, which then serves and stays |
| MigrationsRunner.V13NeverRuns | api/src/version.ts:2 | migration 13 is registered but no history begins it |
| MigrationsRunner.SystemThenWorkspaces | api/src/migrations/migrations.service.ts:270-297 | the system is migrated once and first, each workspace as often as it is listed, for exactly the versions that have such a part |
| MigrationsRunner.WorkspacesInOrder | api/src/migrations/migrations.service.ts:284-297 | workspaces are migrated in the order of the list |
| MigrationsRunner.RecordedVersionsAreMigrated | api/src/migrations/migrations.service.ts:51-125 | over any history, every recorded version migrated the system if it has to, and each workspace listed then as often as it is listed |
| MigrationsRunner.OutcomeTellsVersion | api/src/migrations/migrations.service.ts:51-125 | a start serves only at version 12, restarts only for a held lock or one version more, and throws without having moved the version |
| MigrationsRunner.ServesExactlyAtCode | api/src/migrations/migrations.service.ts:51-125 | over any history, with the lock free, a start serves if and only if the stored version is the code version, and throws if and only if some work fails |
| MigrationsRunner.Runner.constructor | api/src/migrations/migrations.service.ts:29-45 | starts from the stored version |
| MigrationsRunner.Runner.EnsureSystemDatabaseWithRetry | api/src/migrations/migrations.service.ts:134-155 | succeeds if and only if the database answers within the configured attempts |
| MigrationsRunner.Runner.ExecuteMigration | api/src/migrations/migrations.service.ts:270-297 | with a failure at any piece of work, exactly the pieces before it are done, in order |
| MigrationsRunner.Runner.Run | api/src/migrations/migrations.service.ts:51-125 | the new store and the outcome of one start, for every environment, a failing version write included |
| Members.EveryRunKeepsAnOwner | api/src/members/members.service.ts:143-391 | a workspace with an owner keeps one over any sequence of operations by anyone |
| Members.EveryRunRaisesNone | api/src/members/members.service.ts:143-391 | as long as everyone acts below owner with rank at most some limit, nobody reaches the limit and nobody above it is touched |
| Members.OwnersAreOutOfReach | api/src/members/members.service.ts:156-274 | over any run of admins, editors, viewers and API keys the owner set stays exactly the same |
| Members.UpdateRoleAcceptedExactly | api/src/members/members.service.ts:147-182 | a role change is accepted if and only if the member is strictly below and the role strictly below, or owner granted by owner |
| Members.UpdateRoleKeepsOwners | api/src/common/permissions.ts:50-71 | an accepted role change never demotes an owner |
| Members.RemovedExactly | api/src/members/members.service.ts:231-292 | a removal takes away exactly the member named, if and only if someone else of higher rank asks, or an owner does and another owner is left |
| Members.LeftExactly | api/src/members/members.service.ts:303-335 | leaving takes away exactly that membership, unless it is the last owner |
| Members.TransferAcceptedExactly | api/src/members/members.service.ts:341-385 | ownership moves if and only if an owner names another member |
| Members.TransferKeepsTheNumber | api/src/members/members.service.ts:341-433 | the old owner becomes an admin, the new one an owner, all others stay; the number of owners stays, or falls by one if the new one was an owner |
| Members.MembersService.constructor | api/src/members/members.service.ts:52-61 | holds the given tables |
| Members.MembersService.CountOwners | api/src/members/members.service.ts:439-448 | the number of owners |
| Members.MembersService.UpdateMemberRole | api/src/members/members.service.ts:143-223 | the new table and the outcome in every case; an unknown user is reported after the write |
| Members.MembersService.RemoveMember | api/src/members/members.service.ts:231-292 | the new table and the outcome in every case |
| Members.MembersService.LeaveWorkspace | api/src/members/members.service.ts:303-335 | the new table and the outcome in every case |
| Members.MembersService.Transfer | api/src/members/members.service.ts:341-433 | the new table and the outcome in every case; once accepted the old owner is an admin, the new one an owner, all others as before; an unknown user is reported after the write |
| Export.GetUserEvents | api/src/export/export.service.ts:22-189 | refused if and only if the cursor is malformed or there is neither cursor nor since; else a prefix of the matching events within the limit, `has_more` if and only if something is missing, the cursor at its last row |
| Export.NextPageContinues | api/src/export/export.service.ts:53-82 | the cursor of any row of the answer selects exactly the rows after it |
| Export.DrainSelects | api/src/export/export.service.ts:157-188 | following the cursor with any positive limit, or none, terminates and concatenates to the answer |
| Export.DrainReturnsAll | api/src/export/export.service.ts:53-188 | the pages together are every matching event, once, in (updated_at, id) order |
| Export.DrainByColumns | api/src/export/export.service.ts:53-120 | which events these are: identified, of the user asked for, not after `until`, and from `since` on or beyond the cursor |
| Journey.CollectJourney | api/src/admin-platform/admin-platform.service.ts:727-783 | for every cap and pattern of failed reads a prefix of the journey, with a shortfall only at a page whose read failed; without failures its exact length and flag, and for every cap from 1 to 50 000 the first min(cap, total) events with `truncated` set if and only if there are more |
| Journey.PageOfJourney | api/src/admin-platform/admin-platform.service.ts:748-775 | the page requested after n events holds the next ones and the cursor of its last |
| Journey.AppendSteps | api/src/admin-platform/admin-platform.service.ts:770-772 | every row becomes one step, in order, with all its columns |
| Journey.JourneyShowsRows | api/src/admin-platform/admin-platform.service.ts:786-802 | each step shows its row column by column, with the name and value of a goal only for a goal |
| Journey.ReadPage | api/src/admin-platform/admin-platform.service.ts:750-772 | one more page: the next events projected, and where to go on |
| Stitch.FirstTouchIsBest | api/src/events/identity-stitch.service.ts:195-270 | the session chosen is the earliest mapped one under the most reliable key that has any; none if and only if no key has one |
| Stitch.IdentifiedIsLatest | api/src/events/identity-stitch.service.ts:169-187 | the identified session is the user's most recent one, if any |
| Stitch.StitchedRow | api/src/events/identity-stitch.service.ts:277-346 | after a stitch the row of the user has in its last-touch columns the latest session, in its first-touch columns an earliest session of the same visitor from a real channel under the method returned, not later; the rows of the user carry that first channel and group |
| Stitch.NothingIsFound | api/src/events/identity-stitch.service.ts:121-145 | nothing is written only if the user has no session, or no key leads to a session from a real channel |
| Stitch.StitchKeepsRows | api/src/events/identity-stitch.service.ts:277-346 | rows, their order and all other columns are kept, other users' rows and attributions untouched |
| Stitch.ResolveIgnoresFirstTouch | api/src/events/identity-stitch.service.ts:169-270 | what a stitch writes does not depend on the columns that stitches write |
| Stitch.StitchIsIdempotent | api/src/events/identity-stitch.service.ts:121-166 | stitching again changes nothing but the time of the attribution row |
| Stitch.StitchesCommute | api/src/events/identity-stitch.service.ts:121-166 | stitching two users gives the same tables in either order |
| Stitch.IdentityStitchService.constructor | api/src/events/identity-stitch.service.ts:81-87 | holds the given tables and an empty recency map |
| Stitch.IdentityStitchService.Denormalize | api/src/events/identity-stitch.service.ts:329-346 | the two columns are written on exactly the user's rows |
| Stitch.IdentityStitchService.StitchUser | api/src/events/identity-stitch.service.ts:121-166 | the new tables; with a method returned, which sessions the first-touch and last-touch columns show and which channel all rows of the user carry; without one, that there was nothing to tell |
| Stitch.IdentityStitchService.EvictExpired | api/src/events/identity-stitch.service.ts:348-354 | below 1000 entries nothing goes, else exactly the expired ones |
| Stitch.IdentityStitchService.ScheduleStitch | api/src/events/identity-stitch.service.ts:94-114 | starts if and only if no recent entry exists; a failure is forgotten, a success remembered for the TTL |
| GscSync.QuerySearchAnalytics | api/src/gsc/gsc-sync.service.ts:105-175 | for every pattern of responses: rows if and only if each needed page is served within three attempts, then the first min(total, pageSize·maxPages) in order; else the final status of the first page that is not; at most 3·maxPages requests |
| GscSync.GivesUpExactly | api/src/gsc/gsc-sync.service.ts:136-171 | a page is served if and only if it has no final error |
| GscSync.WhatIsRetried | api/src/gsc/gsc-sync.service.ts:136-171 | responses written out: throttling and server errors are retried twice, other errors end the pull at once |
| GscSync.ParseRow | api/src/gsc/gsc-sync.service.ts:283-311 | kept if and only if date, query and page are present and non-empty; every column, counts rounded to the nearest |
| GscSync.ParsedInOrder | api/src/gsc/gsc-sync.service.ts:200-224 | the stored rows are the complete ones among those sent, each once, in order |
| GscSync.ParsedInWindowExactly | api/src/gsc/gsc-sync.service.ts:200-224 | parsed rows lie in the window if and only if every complete row is of a day asked for |
| GscSync.GscSyncService.constructor | api/src/gsc/gsc-sync.service.ts:64-68 | holds the repository |
| GscSync.GscSyncService.SyncType | api/src/gsc/gsc-sync.service.ts:212-240 | one search type: all rows stored, or an error that leaves the window as it was or with whole chunks; no read of another property or type changes |
| GscSync.GscSyncService.SyncProperty | api/src/gsc/gsc-sync.service.ts:180-244 | the whole new table, the count and the errors, for every pattern of failures; no read of another property, or of a search type that is not pulled, changes |
| GscSync.SmoothSyncStores | api/src/gsc/gsc-sync.service.ts:210-231 | after a sync without failures each window holds exactly its rows and the rest of the table is unchanged |
| GscSync.SmoothSyncReads | api/src/gsc/gsc-sync.service.ts:210-231 | after a sync without failures every day asked for reads as sent, for each search type, and lists up to 50 000 rows are stored in full |
| GscSync.ErrorsAreTheFailures | api/src/gsc/gsc-sync.service.ts:233-240 | the errors name exactly the search types that failed |
| GscSync.SyncKeepsOthers | api/src/gsc/gsc-sync.service.ts:180-244 | however it ended, a sync changes no read of another property, or of a search type that it does not pull |
| GscSync.SecondSyncHidesExactly | api/src/gsc/gsc-sync.service.ts:190-241 | for any two syncs over any days, however they ended: the reads are as if the first had never run if and only if, for each search type, what the second does not reach the first left as it was |
| GscSync.SyncHealsAnyFailure | api/src/gsc/gsc-sync.service.ts:190-241 | after a sync that failed in any way, one without failures over the same or more days leaves the reads as if the first had never run |
| GscSync.RollingWindowLosesADay | api/src/gsc/gsc-sync.scheduler.ts:27-37 | the failing run: with seven rolling days, a sync that empties its window and fails loses the oldest day, and the next one does not restore it |
| GscSync.NextSyncRepairs | api/src/gsc/gsc-sync.service.ts:210-241 | the same for any second sync that reaches every window, over days that cover the first |
| GscRepository.ReplacedWindow | api/src/gsc/gsc.repository.ts:160-207 | the window holds exactly the given rows, everything outside it is unchanged |
| GscRepository.ReplacedReads | api/src/gsc/gsc-query.service.ts:118-136 | after a replacement a deduplicated read returns the stored row, nothing for an emptied day, or what it returned before |
| GscRepository.ReplacementByColumns | api/src/gsc/gsc.repository.ts:165-207 | a read of another property, another search type, or a day that is out of range and not sent is as before; a day in range reads as sent |
| GscRepository.ReadByColumns | api/src/gsc/gsc-query.service.ts:118-136 | a read returns the last row that agrees with the key in its seven columns |
| GscRepository.ReplacedRows | api/src/gsc/gsc.repository.ts:165-207 | row by row: rows of another property, another search type or out of range stay as often as they were, the range holds the new rows |
| GscRepository.RepeatingChangesNoRead | api/src/gsc/gsc.repository.ts:160-164 | repeating a replacement changes no read, whatever its rows |
| GscRepository.ReplacementHidesExactly | api/src/gsc/gsc.repository.ts:165-207 | for two windows: the reads are as if only the later replacement had run if and only if the earlier one changed no read that the later does not decide |
| GscRepository.SameWindowHidesExactly | api/src/gsc/gsc.repository.ts:165-207 | for one window: an earlier row outside it shows unless it was there before or a later row has its key |
| GscRepository.LastChangeDecides | api/src/gsc/gsc.repository.ts:165-207 | over any history of replacements with moving windows, a read returns what the last one that reached the key stored |
| GscRepository.GscRepository.ReplaceDailyWindow | api/src/gsc/gsc.repository.ts:165-207 | with a failure at any chunk of 1000: the window emptied and the chunks before it inserted; reads of other properties and search types are as before |
| CacheProtocol.EveryRunIsSingleFlight | api/src/analytics/analytics.service.ts:105-139 | on every interleaving at most one execution per key, exactly for the pending keys, and tracked keys within the cap |
| CacheProtocol.EveryRunAccounts | api/src/analytics/analytics.service.ts:105-139 | on every interleaving each query of a key hits or misses, each miss joins an execution or starts one, and nothing else starts one: a hit never reaches the database |
| CacheProtocol.TrackedAreTheNewest | api/src/analytics/analytics.service.ts:847-861 | the tracked keys are the newest within the cap in order of insertion, the others are on their way out, and a key already tracked keeps its place |
| CacheProtocol.OrphansExactly | api/src/analytics/analytics.service.ts:847-877 | an entry becomes unreachable for backfills if and only if it is written late or tracked during a sweep, and stays so until it expires or is asked for again |
| CacheProtocol.QuietBackfillClears | api/src/analytics/analytics.service.ts:866-877 | where no eviction or backfill overlaps a query in progress: no such entry, and a backfill that ends leaves nothing cached but evictions under way |
| CacheProtocol.QuietRunsStayCalm | api/src/analytics/analytics.service.ts:105-139 | on those runs what is in use is tracked, and what is cached is tracked or about to be deleted |
| CacheProtocol.LateWriteEscapesBackfills | api/src/analytics/analytics.service.ts:124-138 | a run of nine steps whose late write the next backfill does not see |
| AnalyticsCache.AnalyticsService.constructor | api/src/analytics/analytics.service.ts:85-103 | starts empty; the cap is the configured positive integer or 10 000 |
| AnalyticsCache.AnalyticsService.TrackCacheKey | api/src/analytics/analytics.service.ts:847-861 | the new tracked keys and the evicted one, oldest first |
| AnalyticsCache.AnalyticsService.QueryArrives | api/src/analytics/analytics.service.ts:105-117 | makes the transition of the run model |
| AnalyticsCache.AnalyticsService.QueryLooks | api/src/analytics/analytics.service.ts:116-118 | a hit ends the call, a miss goes on |
| AnalyticsCache.AnalyticsService.QueryProceeds | api/src/analytics/analytics.service.ts:120-138 | starts an execution if and only if none of that key is running |
| AnalyticsCache.AnalyticsService.StoreResult | api/src/analytics/analytics.service.ts:126-131 | makes the transition of the run model |
| AnalyticsCache.AnalyticsService.ForgetPending | api/src/analytics/analytics.service.ts:132-135 | afterwards no execution of the key is left |
| AnalyticsCache.AnalyticsService.BackfillCompleted | api/src/analytics/analytics.service.ts:867-871 | the keys to delete are the tracked ones |
| AnalyticsCache.AnalyticsService.BackfillEnds | api/src/analytics/analytics.service.ts:872-872 | the workspace is forgotten with what was tracked meanwhile |
| Funnel.DropoffsCoverTheLoss | api/src/analytics/analytics.service.ts:622-651 | for any counts the drop-offs sum to at least entered minus last, with equality if and only if no step exceeds the one before |
| Funnel.VisitsNarrow | api/src/analytics/lib/funnel-builder.ts:76-88 | counts of visits by level never rise from step to step |
| Funnel.FunnelOfVisits | api/src/analytics/analytics.service.ts:570-651 | for any visits: drop-offs add up to the loss, every rate lies in [0,100], conversion from the start never rises, and the overall rate is the last one |
| Funnel.StepOfVisits | api/src/analytics/analytics.service.ts:613-651 | each step by its columns, for any visits: label, count and value of those that reached it, and both conversions within 0.005 of the exact percentage |
| Funnel.RateBounds | api/src/analytics/analytics.service.ts:42-44 | a rate is within 0.005 of the exact percentage, at most 100 and at least 100 exactly under integer conditions on the counts |
| Funnel.StepReadsHundredExactly | api/src/analytics/analytics.service.ts:634-640 | for any visits a step reads 100 if and only if it lost at most one in 20 000, and 0 when nobody reached the step before |
| Funnel.HundredHidesALoss | api/src/analytics/analytics.service.ts:634-640 | the failing input: 20 000 visits of which one is lost read 100 |
| Funnel.NarrowingRates | api/src/analytics/analytics.service.ts:570-574 | in a funnel that narrows every rate lies in [0,100], conversion from the start never rises, and the overall rate is the last one |

## Left out

- EventBuffer.EventBufferService.AddBatch: its contract is for a call without interleaved callers; with them, `BufferProtocol` speaks of every interleaving of the single adds it consists of.
- Ingestion.Handle: the domain check, the workspace lookup and its cache, geo and channel derivation are parameters (their outcome, and the columns they fill); activation, webhooks and stitching after the batch are not part of it.
- Ingestion.ApplyFilters: a filter is any function that rewrites derived columns; it is assumed not to rewrite the session, the token, the version or the columns of the action.
- EventsTable.TableConverges: ClickHouse merges, day partitions, the seven-day TTL and asynchronous mutations are not modelled; a deduplicated read is the row of highest version, the last inserted on a tie.
- GoalsTable.GoalShowsOncePerCorrection: counts the keys one goal is stored under; another goal of the session with the same name and corrected timestamp would share the row.
- Tracking.EveryRunAccounts: every handler runs at one instant; coming back from the back-forward cache also reloads the list from session storage, which is modelled at start-up only.
- HeartbeatSdk.StaminadsSDK.OnTimeout: `isTracking` is true once initialised and not modelled; drift logging is left out.
- HeartbeatSdk.StaminadsSDK.constructor: the payload sent after start is a send of the run model.
- HeartbeatSdk.StaminadsSDK.SendPayload: persisting the list, what the server answers, retries and the offline queue are left out; `Ingestion` allows any order and repetition of what is sent.
- Tokens.DecodeToken: page numbers and timestamps are whole numbers, as the SDK produces them.
- MigrationsRunner.StoredVersionIsTrue: starts at version 4 or above, since migration 4 deletes the stored version and the workspace table; a failing lock release is left out.
- MigrationsRunner.Runner.Run: one instance; the lock is a check followed by an insert, which does not exclude a second instance, so only "held or not" is modelled.
- Members.EveryRunKeepsAnOwner: each operation is one atomic step; counting owners and deleting are two queries in the source, and concurrent calls between them are not modelled.
- Members.MembersService.RemoveMember: revoking login sessions and audit records are left out.
- Export.DrainReturnsAll: the table is fixed while it is read; the base64 JSON encoding of a cursor is either a position or malformed.
- Stitch.StitchIsIdempotent: equal creation times are resolved by table order, in the same way each time; the clock of `updated_at` does not go back.
- Stitch.IdentityStitchService.StitchUser: the cache invalidation it emits is left out; `CacheProtocol` allows it at any time.
- Stitch.IdentityStitchService.ScheduleStitch: the stitch it starts ends before the next call; the keys are users of one workspace.
- GscSync.QuerySearchAnalytics: the remote list does not change during the pull; waiting times, and a response whose body cannot be read, are left out.
- GscSync.GscSyncService.SyncProperty: token refresh, date arithmetic and the synchronisation stamp are left out.
- GscRepository.ReplacedReads: the insertion stamp that deduplication compares is the order of insertion: the clock of the database does not go back.
- CacheProtocol.EveryRunIsSingleFlight: cache keys are taken as given; that different queries hash to different keys is not modelled, nor is the comparison of times to live.
- Funnel.RateBounds: rates are exact rationals; floating-point rounding is left out.
- Funnel.FunnelOfVisits: a visit comes with the level it reached; how the database finds that level in a time window is not modelled.
- `flushAll` of the buffer: a sequence of the flush steps already covered by every run.
- EventBuffer.EventBufferService.OnModuleDestroy: a failing insert during shutdown is the failing insert of every run.
- SessionsTable.SessionShowsOncePerCorrection: rows of two payloads that reach the database in one insert become one row, under the creation time of either.
- Controllers, guards, validation of request bodies, OAuth, mail, console, PWA, deployment scripts: plumbing without state of its own.
- Provisioning, score weights, paywall lookups and static marketing tables: one-branch facts.
- Query and funnel SQL builders, date presets, gap filling: text generation, not part of this model.
