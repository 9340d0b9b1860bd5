# Verified model of the in-and-out sync engine

In-and-out copies records from remote systems into PostgreSQL source tables, keeps them current from paged
listings and webhooks, and writes changes back. The logic that must survive restarts, reordering and
concurrency is bookkeeping over tables and in-memory maps. This project models that bookkeeping and proves what
it guarantees, over all inputs and whole runs. Where a guarantee one would expect is not met by the code, the
model keeps the code as it is and states exactly when the guarantee holds.

`dafny verify dfyconfig.toml` checks everything (Dafny 4.11).

## How the project is organised

| file | component |
|---|---|
| `Ordering.dfy`, `Wrappers.dfy` | the order of Python strings, sorting, optional values |
| `Graph.dfy`, `CycleCheck.dfy`, `DependencyGraph.dfy` | connector dependencies: walks and cycles, the depth-first check, Kahn's sort |
| `EventBuffer.dfy`, `EventBufferRuns.dfy`, `EventBufferContents.dfy` | the reorder buffer: the class, its behaviour over runs, and which of repeated arrivals it holds |
| `ComponentGate.dfy`, `GateCycles.dfy` | the check, lock, re-check gate against the schema-manager; one replica's cycle among the others |
| `SourceTable.dfy`, `BatchRows.dfy`, `BatchEquivalence.dfy` | source rows, the single-record and the batch write path, what batches do to rows, and when the two paths agree |
| `SyncEngine.dfy`, `SyncRuns.dfy` | the page loop, and what a run does |
| `ScanMeaning.dfy`, `PageChunks.dfy`, `RunEnding.dfy` | what a run makes of each record and of the cursor, how a page is cut into batches, where a run starts, its checkpoints, and each row at its end |
| `CrashResume.dfy`, `WindowLoss.dfy` | crashes and resuming; which records a stopped run loses, and that they stay lost |
| `CursorWindow.dfy`, `WindowCycles.dfy` | the arithmetic of windowed incremental cycles, and which records a series of completed ones reaches |
| `Webhooks.dfy`, `WebhookOrdering.dfy` | webhook deduplication, routing and the stale-event filter; the filter as a register |
| `WebhookOutcomes.dfy` | what becomes of any single event: response, row, sequence value |
| `WebhookRoutes.dfy`, `WebhookRuns.dfy` | sequenced events of several routes into one row, and the handler's runs |
| `RateLimiter.dfy` | the sliding-window limiter |
| `WritebackDeadLetter.dfy`, `DeadLetterRows.dfy` | moving writeback rows to the dead-letter table and replaying them; what that makes of each row and letter |
| `SchemaDiff.dfy`, `SchemaMigration.dfy` | printing schema differences and parsing them back into DDL |
| `Pagination.dfy` | cursor, offset, page-number and keyset walks |

Code that changes state is a class whose methods are proved equal to a function of the old state; the theorems
are lemmas about runs of that function. SQL rows are maps and sequences, the clock and every outcome of the
network or of a failing statement is a parameter, and a crash is stopping between two commits. SHA-256 over the
key-sorted JSON of a record is taken to be injective.

## Main results

- **No record is lost, without a cursor window.** Whatever attempts were killed or failed, after whichever page
  commit, with or without a saved checkpoint, once an attempt runs to its end every record of a cursor-sorted
  source has a row or a dead letter (`CrashResume.NothingIsLost`). The source's order of cursors is an arbitrary
  relation: the proof rests on the resume point being the cursor of a committed record, never on the engine
  comparing cursors as text.
- **With a cursor window, exactly when.** A run with a window stores the end of the window with its first page, so
  one that is stopped later can pass records over. The point from which the next run starts, checkpoint or
  watermark, stays at or before every unsettled record if and only if every attempt was a safe one: killed with a
  checkpoint saved; or having stored the end of its window, with each record it asked for and did not get to settled
  or at or beyond that end; or having stored a cursor; or having stored nothing, with no unsettled record before the
  watermark it found (`CrashResume.HistoryResumableIff`, `SafeAttemptsLoseNothing`, `WindowLoss.NextAttemptAsksIff`).
  A completed run settles its whole window only from such a point (`CompletedSettlesAllIff`). `WindowLosesRecord` is a history that loses a record, by the
  window without checkpoints, and by using a checkpoint up with them; `PassedOverForGood` says that it does not come
  back.
- **Which records windowed cycles reach.** However many cycles run to their end, more than there are windows before a
  record that is older than the clock: it is ever settled if and only if none of these windows is empty (`WindowCycles.EverSettledIff`); so all are when no gap between
  neighbours is wider than a window (`NoGapAllReached`), and after an empty window nothing changes any more
  (`StuckForGood`).
- **Full runs converge**, on both write paths. `SyncRuns.FullRunLiveIds`, `SecondRunChangesNothing`,
  `TombstoneSafety`, `FetchedIsErroredPlusSeen`, and `SinglePathCounts` on the single-record path.
- **Batching is invisible, with one exact exception.** `BatchEquivalence.BatchSizeIndependence`; what a batch of mixed
  columns writes is `BatchRows.BulkUpsertDecides`.
- **Each record is judged by itself.** Whatever the pages, dead letters, writes, counters, cursor and checkpoint are
  those of the records taken one by one (`ScanMeaning.ScanMeans`, `RunMeans`, `WatermarkIsGreatest`,
  `RunEnding.CheckpointIs`), and the end of a run touches exactly the rows that have disappeared (`FinishDecides`).
- **Two cycle checks are one.** Kahn's sort refuses exactly the graphs in which the depth-first check finds a
  cycle; its result is the lexicographically least valid order and its error names exactly the connectors from
  which a cycle is reachable (`DependencyGraph.SortPost`, `SortRaisesIffHasCycle`).
- **The reorder buffer reassembles.** `EventBufferRuns.OrderIndependence`, `UnforcedRunGapFree`, `RunValid`; and over
  any run it releases each event at most once and in order exactly when every forced call is an ordered one
  (`ReleasedOnceInOrderIff`).
- **The schema barrier holds** in every interleaving of any number of replicas (`ComponentGate.BarrierHolds`), and an
  undisturbed replica does work when it may (`GateCycles.CycleIsWorkCycle`).
- **Every webhook event has one outcome**, decided by its id, its route, the configuration, the route's last sequence
  value and its payload (`WebhookOutcomes.ResponseIff`, `StoredRow`, `Remembered`).
- **The stale filter is a last-writer-wins register**, and converges exactly when one arrival beats all that differ
  from it, whatever is repeated or tied (`WebhookOrdering.OrderIrrelevantIff`, `WebhookRuns.HubLastWriterWins`). Several
  routes into one row, failing writes included, converge exactly when all events that can be the last to write store
  the same payload and, where it can happen that none writes, the row has that version already
  (`WebhookRuns.HubOrdersAgreeIff`, for routes whose unbeaten sequence values beat the others, as comparable ones do).
- **The limiter keeps its promise** (`RateLimiter.AllowedIff`, `AdmissionsAreSpaced`, `WaitingIsEnough`).
- **A replay call restores exactly the rows it should**, each with the action of the first letter that frees it
  (`DeadLetterRows.ReplayDecides`, `SelectedIff`, `ReplayRequeues`).
- **No dead letter is stranded** over any interleaving of moves and replays exactly when every move is a safe one
  (`WritebackDeadLetter.NoStrandedLettersIff`, `FullReplayFreesAllIff`), and each letter is replayed at most once when
  every replay call starts safely, which is also necessary (`AtMostOnceWhenSafe`, `StartSafeIff`).
- **Diff and migration.** For any two schemas the migrated table has exactly the new columns, with pruning, if and only
  if the names of added and removed columns can be captured and the change lines that are misread leave the new
  columns alone (`SchemaMigration.PrunedMigrationIff`); without pruning `UnprunedMigrationIff`. The names of a report
  are read back exactly when it is readable (`ReadsBackIff`), which is enough for the table
  (`MigrationReachesNewSchema`) and not needed (`UnreadableCanMigrate`).
- **Every walk reassembles the list** (`Pagination.FollowCursors`, `OffsetWalkCompleteIff`, `KeysetEndsIff`).

## Where the code does less than one expects

- A tombstone empties `data` but keeps `_raw_hash`; when the same record comes back, the equal-hash branch
  clears the flag without restoring `data`. GOAL.md, requirement 47, promises the same final table state after
  re-processing; that holds for replays (`SyncRuns.ReplayIsIdempotent`), but a revived row stays empty
  (`RowEqualsRecordIff`, `RevivedRowStaysEmpty`).
- The batch UPDATE does not touch `_deleted`, so it differs from the single-record path exactly on tombstoned rows.
- A gate whose second read of `component_state` raises, or whose unlock statement fails, after a refusal or at the
  end of a cycle, keeps the shared lock (`ComponentGate.WorkCycle`), and the schema-manager waits until that session
  ends (`LeakBlocksManager`).
- With a `cursor_window` a page commit stores the end of the window, ahead of the records still to come. A saved
  checkpoint makes up for it once: the run that picks it up uses it up, and if that run is stopped before it commits
  anything, the end of the window is all that is left (`WindowLoss.WindowLosesRecord`).
- `buffer_event` documents "in sequence order"; a forced call appends the current event after the flushed ones
  whatever its number, so the list can be out of order (`ForcedReleaseInOrderIff`), the expected sequence can move
  backwards (`ExpectedFallsBackIff`), and an event can be released twice (`ForcedCallCanRepeat`); exactly when over
  whole runs is `ReleasedOnceInOrderIff`.
- The age bound of the reorder buffer needs a positive timeout (`PromptReleaseIff`).
- A webhook records its event id and sequence value before the upsert. After a failed upsert the same event is stored
  at its next delivery exactly when it has neither an event id nor a place in the filter
  (`WebhookRuns.FailedWriteIsLostIff`), and after other events exactly when it has no event id and the filter lets it
  through (`RedeliveryStoresIff`). Sequences of two routes into one row are not ordered against each other
  (`WebhookRoutes.LaterRouteWins`); mixed numeric and textual sequences can form a circle
  (`WebhookOrdering.MixedValuesDisagree`).
- `retry_after` is one second more than needed exactly when the remaining time is a whole number of seconds.
- Two overlapping replay calls can replay one letter twice (`OverlappingReplaysRepeat`). A row fetched while it is
  marked `dead_lettered` and brought back by a replay is moved under that action when it fails, and cannot be brought
  back any more (`StaleMoveStrands`).
- A change of a column's type is taken for a new or removed column when the name ends with "added column " or
  "removed column ", or the printed types announce a column themselves, which for plain types means that the
  old one ends so; and an empty name is not read back (`ReadsBackIff`, `SearchPlainTypes`, `MisreadTypeChange`).
- A windowed cycle that sees no record does not advance the watermark (`CursorWindow.CatchUp`), so the records behind an
  empty window are never reached (`WindowCycles.StuckForGood`); and a watermark
  ahead of the clock is moved back by a cycle that does (`BackwardsIff`).
- An offset walk stops early when the server's pages are shorter than the client's page size
  (`OffsetWalkCompleteIff`); a keyset walk over sorted keys ends exactly when pages hold more than one record or no key
  is empty (`KeysetEndsIff`).

## Model

| member | source | states |
|---|---|---|
| CycleCheck.Dfs.Visit | engine/src/inandout/config/connector.py:92-103 | A hit means a real cycle; otherwise the grey set is restored and every black name reaches no cycle. |
| CycleCheck.HasCycle | engine/src/inandout/config/connector.py:88-105 | True if and only if the graph has a closed dependency path. |
| Graph.ReachesCycleStep | engine/src/inandout/config/connector.py:92-103 | A name reaches a cycle exactly when one of its loaded dependencies does. |
| Graph.StuckReachesCycle | engine/src/inandout/config/dependency_graph.py:66-70 | In a set of names each of which depends on a name of the set, every name reaches a cycle (pigeonhole on a walk). |
| DependencyGraph.CountEdges | engine/src/inandout/config/dependency_graph.py:38-47 | In-degrees count dependency entries with repetitions, and `dependents` is the transposed graph with the same multiplicities. |
| DependencyGraph.CountEdgesOf | engine/src/inandout/config/dependency_graph.py:42-47 | One connector's list adds exactly its loaded entries to the count and to the transposed graph. |
| DependencyGraph.SortedNames | engine/src/inandout/config/dependency_graph.py:50-52 | A sorted list without repetitions of exactly the given names. |
| DependencyGraph.Decrement | engine/src/inandout/config/dependency_graph.py:60-63 | Each listed dependent loses as much as it is listed; the queue keeps holding exactly the unplaced names with nothing pending, once each. |
| DependencyGraph.Release | engine/src/inandout/config/dependency_graph.py:57-64 | Placing the queue's head re-establishes the in-degree invariant for the names still unplaced, and the queue is sorted. |
| DependencyGraph.QueueIsReady | engine/src/inandout/config/dependency_graph.py:55-58 | Under that invariant the queue holds exactly the ready names, the alphabetically first in front. |
| DependencyGraph.Kahn | engine/src/inandout/config/dependency_graph.py:36-64 | Ends with nothing ready, after always placing the alphabetically first ready name and only names that reach no cycle. |
| DependencyGraph.GreedyIsLeast | engine/src/inandout/config/dependency_graph.py:49-64 | A complete order that always takes the first ready name is lexicographically least among all topological orders. |
| DependencyGraph.StuckIffReachesCycle | engine/src/inandout/config/dependency_graph.py:66-70 | The names left with pending dependencies are exactly those from which a cycle is reachable. |
| DependencyGraph.StuckSet | engine/src/inandout/config/dependency_graph.py:66-73 | When not all names were placed, the graph is cyclic and the reported set is the names that reach a cycle. |
| DependencyGraph.AllPlaced | engine/src/inandout/config/dependency_graph.py:66-75 | When all were placed, the graph has no cycle and the order is the least topological one. |
| DependencyGraph.TopologicalSort | engine/src/inandout/config/dependency_graph.py:7-75 | Returns the last config of every name once, dependencies first, in the least such order, if the graph has no cycle; otherwise raises with exactly the names that reach one, sorted. |
| DependencyGraph.SortRaisesIffHasCycle | engine/src/inandout/config/dependency_graph.py:66-75 | The sort refuses a configuration exactly when the depth-first check finds a cycle in the same graph. |
| EventBuffer.Buffer.constructor | engine/src/inandout/ingestion/event_buffer.py:24-32 | Every entity starts with nothing buffered and 0 expected. |
| EventBuffer.Buffer.BufferEvent | engine/src/inandout/ingestion/event_buffer.py:34-134 | The call's result and the entity's new state are those of the step function, and no other entity changes. |
| EventBuffer.Buffer.ReleaseAll | engine/src/inandout/ingestion/event_buffer.py:56-84 | Eviction and timeout empty the buffer in key order, append the current event and expect its successor. |
| EventBuffer.Buffer.AcceptExpected | engine/src/inandout/ingestion/event_buffer.py:89-104 | An expected event releases itself and the gap-free run behind it; the stamp goes when the buffer is empty. |
| EventBuffer.Buffer.ReleaseConsecutive | engine/src/inandout/ingestion/event_buffer.py:94-98 | The draining loop takes out exactly the consecutive run that starts at the expected sequence. |
| EventBuffer.Buffer.PopExpected | engine/src/inandout/ingestion/event_buffer.py:96-98 | One turn of that loop removes the expected event, returns its payload and expects the next. |
| EventBuffer.Buffer.FlushBuffer | engine/src/inandout/ingestion/event_buffer.py:136-154 | Returns all payloads in key order and leaves the buffer empty, the stamp cleared if anything was there. |
| EventBuffer.SortedKeysIncreasing | engine/src/inandout/ingestion/event_buffer.py:141-143 | The flush order is strictly increasing in the sequence number. |
| EventBufferRuns.DrainSpec | engine/src/inandout/ingestion/event_buffer.py:94-98 | What draining releases is the payloads of next, next+1, .. up to the first gap; all else stays. |
| EventBufferRuns.StepValid | engine/src/inandout/ingestion/event_buffer.py:52-134 | One call keeps: buffered sequences ahead of the expected one, size bound, stamp present exactly when something is buffered, stamp at or before every buffered arrival. |
| EventBufferRuns.RunValid | engine/src/inandout/ingestion/event_buffer.py:52-154 | These invariants hold after every run with a monotone clock, evictions and timeouts included. |
| EventBufferRuns.PromptReleaseIff | engine/src/inandout/ingestion/event_buffer.py:70-84 | After every call nothing buffered is as old as the timeout, in all runs, if and only if the timeout is positive or nothing may be buffered. |
| EventBufferRuns.UnforcedRunGapFree | engine/src/inandout/ingestion/event_buffer.py:86-134 | Without eviction or timeout, late and repeated arrivals included: exactly 0..next-1 have been released, in order, once each; next is the least sequence not arrived; every later arrival is still held. |
| EventBufferRuns.SmallPromptRunUnforced | engine/src/inandout/ingestion/event_buffer.py:55-71 | At most max_size events within the timeout never force a release. |
| EventBufferContents.UnforcedRunLatest | engine/src/inandout/ingestion/event_buffer.py:89-134 | In such runs, repeated arrivals included: what is held for a sequence is its latest arrival, payload and time; what was released is the latest payload come by the event that completed the sequences up to it. |
| EventBufferRuns.OrderIndependence | engine/src/inandout/ingestion/event_buffer.py:34-134 | Every arrival order of 0..n-1 returns the payloads in sequence order, each once, and ends empty expecting n. |
| EventBufferRuns.ForcedRelease | engine/src/inandout/ingestion/event_buffer.py:55-84 | A forced call returns everything buffered in strictly increasing sequence, then the current event. |
| EventBufferRuns.ForcedReleaseInOrderIff | engine/src/inandout/ingestion/event_buffer.py:49-84 | The returned list is in sequence order exactly when the current event is beyond everything buffered. |
| EventBufferRuns.ExpectedFallsBackIff | engine/src/inandout/ingestion/event_buffer.py:67-84 | The expected sequence decreases exactly on a forced call with a late event. |
| EventBufferRuns.StepSequencesMatch | engine/src/inandout/ingestion/event_buffer.py:64-104 | The sequence numbers ascribed to a call are, position by position, those of the payloads it returns. |
| EventBufferRuns.ReleasedOnceInOrderIff | engine/src/inandout/ingestion/event_buffer.py:55-104 | In every run the released sequence numbers are strictly increasing if and only if every forced call comes with an event beyond everything buffered and, once something has been released, not before the expected one. |
| EventBufferRuns.ForcedCallCanRepeat | engine/src/inandout/ingestion/event_buffer.py:70-84 | A run that breaks it: with a positive timeout and room, one event is released twice. |
| ComponentGate.CycleContext.Enter | engine/src/inandout/postgres/component_gate.py:95-125 | Allowed exactly when both reads saw a working state, holding one lock then and none otherwise; an exception after the acquire, from the second read or from the unlock of a refusal, leaves the lock held. |
| ComponentGate.CycleContext.Exit | engine/src/inandout/postgres/component_gate.py:127-143 | Gives the lock back exactly once, unless the unlock statement fails. |
| ComponentGate.WorkCycle | engine/src/inandout/postgres/component_gate.py:95-143 | The body runs exactly when both reads saw a working state; a lock is left behind exactly when the first read saw one and the second read raises or the unlock statement fails, be it after a refusal or at the end. |
| ComponentGate.RunBalanced | engine/src/inandout/postgres/component_gate.py:95-143 | In every reachable state each replica holds one lock while between acquire and release, plus its leaked ones, and none beside the exclusive lock. |
| ComponentGate.ExclusiveMeansNobodyWorks | engine/src/inandout/postgres/component_gate.py:3-6 | While the schema-manager holds the exclusive lock no replica is in an allowed cycle. |
| ComponentGate.BarrierHolds | engine/src/inandout/postgres/component_gate.py:102-125 | Once it has held the lock with desired stopped, none works for as long as desired stays stopped, even after the lock is released. |
| ComponentGate.FirstCheckGoesStale | engine/src/inandout/postgres/component_gate.py:109-114 | After that barrier a replica can still come to hold the shared lock on the strength of its first check, so the re-check is needed. |
| ComponentGate.ManagerCanProceedIff | engine/src/inandout/postgres/component_gate.py:3-6 | The exclusive lock can be taken exactly when it is free, no replica is between acquire and release and none has leaked a lock. |
| ComponentGate.LeakBlocksManager | engine/src/inandout/postgres/component_gate.py:112-142 | A leaked lock, whichever of the three ways it was leaked, keeps the exclusive lock out of reach until that replica's sessions end. |
| GateCycles.CycleIsWorkCycle | engine/src/inandout/postgres/component_gate.py:95-143 | From any world with the exclusive lock free, an idle replica's steps make one cycle as `WorkCycle` says: it works exactly when both reads saw a working state, and ends idle with its locks and exactly those leaked, the others as they were. |
| SourceTable.UpsertRecord | engine/src/inandout/ingestion/engine.py:1827-1875 | The new table, the counts and the resurrection flag of the single-record path. |
| SourceTable.UpsertAllKeys | engine/src/inandout/ingestion/engine.py:976-984 | A run of upserts adds exactly the ids it mentions and leaves every other row as it was. |
| SourceTable.UpsertAllRow | engine/src/inandout/ingestion/engine.py:1852-1875 | With distinct ids each record ends in a live row with its hash, over the old data if the hash was already there and over its own otherwise. |
| SourceTable.CollectColumns | engine/src/inandout/postgres/bulk_upsert.py:62-69 | The columns of a batch are the union of those of its records. |
| SourceTable.Partition | engine/src/inandout/postgres/bulk_upsert.py:104-114 | Records without a stored hash are to be inserted, those with another hash updated, in order. |
| SourceTable.BulkUpsertRecords | engine/src/inandout/postgres/bulk_upsert.py:53-190 | The new table and the counts: hashes read at the start, insert, then updates one by one. |
| BatchRows.BulkAllGrows | engine/src/inandout/postgres/bulk_upsert.py:119-181 | Whatever the columns and the batch size, a page adds exactly the ids it mentions, as live rows, and neither makes nor clears a tombstone. |
| BatchRows.BulkAllCarries | engine/src/inandout/postgres/bulk_upsert.py:104-181 | With distinct ids every record ends with a row of its hash, and rows not mentioned stay as they were. |
| BatchRows.BulkAllNoop | engine/src/inandout/postgres/bulk_upsert.py:107-114 | Records whose rows already carry their hashes are not written again. |
| BatchRows.BulkUpsertDecides | engine/src/inandout/postgres/bulk_upsert.py:119-181 | For any table and any batch with distinct ids, uniform or not: an equal hash leaves the row alone; otherwise every column of any record of the batch holds the record's value, NULL if the record lacks it, other columns hold what they held, and the tombstone flag stays, or is off in a new row. |
| BatchRows.BulkUpsertCounts | engine/src/inandout/postgres/bulk_upsert.py:104-190 | Inserted counts the records without a row, updated those whose row has another hash. |
| PageChunks.PageIsChunks | engine/src/inandout/ingestion/engine.py:965-1038 | A page on the batch path is written in batches of exactly the configured size, and one of what is left. |
| PageChunks.PageWrites | engine/src/inandout/ingestion/engine.py:965-984 | Batches are used exactly for a single-column key and a size of at least two; else a page is upserted record by record. |
| BatchEquivalence.BatchIsItsSteps | engine/src/inandout/postgres/bulk_upsert.py:74-181 | For distinct keys and uniform columns a batch equals handling its records one after the other, tombstone flags left alone. |
| BatchEquivalence.FeedIsSteps | engine/src/inandout/ingestion/engine.py:965-974 | At every moment the buffer holds the last records and all before them have been written, whatever the batch size. |
| BatchEquivalence.ChunksAreSteps | engine/src/inandout/ingestion/engine.py:1032-1038 | After the last flush any chunking has written the same as one step per record. |
| BatchEquivalence.StepsAgainstUpserts | engine/src/inandout/ingestion/engine.py:1809-1875 | Batch steps and single upserts count the same, and write the same rows when no record meets a tombstone. |
| BatchEquivalence.BatchSizeIndependence | engine/src/inandout/ingestion/engine.py:965-984 | Any batch size gives the single-record path's counts, and its rows if and only if no record meets a tombstoned row. |
| SyncEngine.SyncRun.constructor | engine/src/inandout/ingestion/engine.py:686-756 | The run starts from the newest interrupted checkpoint's cursor if it has one, else from the stored watermark, and takes that run out of the interrupted ones. |
| RunEnding.BeginDecides | engine/src/inandout/ingestion/engine.py:712-756 | With checkpoints switched on the newest interrupted run is picked up, and only that one, and its cursor, if any, replaces the watermark; otherwise nothing is picked up. |
| SyncEngine.SyncRun.FlushBuffer | engine/src/inandout/ingestion/engine.py:1464-1467 | One bulk upsert of the buffer, its counts added, the buffer emptied, nothing else changed. |
| SyncEngine.SyncRun.UpsertOne | engine/src/inandout/ingestion/engine.py:976-984 | One upsert, its counts added, nothing else changed. |
| SyncEngine.SyncRun.WriteRecord | engine/src/inandout/ingestion/engine.py:965-984 | Table, counts and buffer stand where handing over one more record leaves them. |
| SyncEngine.SyncRun.WriteRest | engine/src/inandout/ingestion/engine.py:1032-1038 | After the page's last flush the rows and counts are those of the chosen write path over the whole page. |
| SyncEngine.SyncRun.ProcessItem | engine/src/inandout/ingestion/engine.py:888-1030 | One record: dead-lettered, skipped as a repetition, or accepted, with its counters and cursor. |
| SyncEngine.SyncRun.AcceptRecord | engine/src/inandout/ingestion/engine.py:960-1030 | A first occurrence is written, remembered and offered to the running cursor maximum. |
| SyncEngine.SyncRun.ProcessItems | engine/src/inandout/ingestion/engine.py:888-1030 | All records of a page, in order, over the ids already met in the run. |
| SyncEngine.SyncRun.StoreWatermark | engine/src/inandout/ingestion/engine.py:1040-1048 | The end of the window if there is one, else the greatest cursor, is stored unless it is missing or empty. |
| SyncEngine.SyncRun.FinishPage | engine/src/inandout/ingestion/engine.py:1032-1048 | The page's last flush and its watermark complete the commit. |
| SyncEngine.SyncRun.ProcessPage | engine/src/inandout/ingestion/engine.py:796-1048 | One turn of the page loop is one commit of rows, dead letters, counters and watermark together. |
| SyncEngine.SyncRun.Checkpoint | engine/src/inandout/ingestion/engine.py:1059-1068 | The checkpoint row changes only on a non-empty page whose number is a multiple of the interval, to the run's cursor. |
| SyncEngine.SyncRun.ProcessPages | engine/src/inandout/ingestion/engine.py:796-1068 | The loop's state after all pages is the fold of page commits and checkpoints. |
| SyncEngine.SyncRun.Complete | engine/src/inandout/ingestion/engine.py:1070-1118 | Drift aborts before the tombstone pass; the pass runs only when the run started from scratch and saw something. |
| SyncEngine.SyncRun.TombstoneMissing | engine/src/inandout/ingestion/engine.py:1618-1693 | Tombstones exactly the missing live ids, none if they are more than half, only the confirmed ones when deletions are verified. |
| SyncRuns.ScanAppend | engine/src/inandout/ingestion/engine.py:888-1030 | Scanning two stretches of records one after the other is scanning them together. |
| SyncRuns.PagesInClosedForm | engine/src/inandout/ingestion/engine.py:796-1048 | Counters, seen ids, dead letters and the watermark, window end or greatest cursor, depend only on the records, not on how they are paged; on the single-record path the table too. |
| ScanMeaning.IdIs | engine/src/inandout/ingestion/engine.py:1793-1806 | A record has an id exactly when every key field is there and not null: the texts of the fields with colons between them. |
| ScanMeaning.ScanMeans | engine/src/inandout/ingestion/engine.py:888-962 | Each record counts once: the dead letters are those of the rejected records in order, with their error class; the accepted ones are the first occurrences in order; the rest are repetitions. |
| ScanMeaning.RunMeans | engine/src/inandout/ingestion/engine.py:796-962 | Over any pages the dead letters, seen ids, errored and fetched counts are those of the records judged so. |
| ScanMeaning.WatermarkIsGreatest | engine/src/inandout/ingestion/engine.py:1023-1048 | Over any pages the run's cursor is the greatest text among the cursors of the first occurrences; without a window it is stored unless missing or empty, with one the end of the window is, if there was any record. |
| RunEnding.CheckpointIs | engine/src/inandout/ingestion/engine.py:1059-1068 | The checkpoint is the run's cursor after the last non-empty page whose number is a multiple of the interval; without such a page there is none. |
| SyncRuns.FetchedIsErroredPlusSeen | engine/src/inandout/ingestion/engine.py:796-962 | After any pages, fetched = errored + number of distinct ids seen. |
| SyncRuns.UpsertCounts | engine/src/inandout/ingestion/engine.py:1809-1875 | Inserted counts the ids the table lacked, updated those whose hash differed, and with the unchanged ones they make up all records. |
| SyncRuns.SinglePathCounts | engine/src/inandout/ingestion/engine.py:960-984 | Seen = inserted + updated + unchanged, each counted against the table before the run. |
| SyncRuns.RowsAfterPages | engine/src/inandout/ingestion/engine.py:976-984 | After the page loop every seen id has a live row with its record's hash, and the live ids are those before plus those seen. |
| SyncRuns.TombstonePass | engine/src/inandout/ingestion/engine.py:1631-1693 | The pass takes only unseen live ids, and never more of them than were seen. |
| SyncRuns.LiveAfterPages | engine/src/inandout/ingestion/engine.py:965-1038 | After the page loop the ids live are those before plus those seen, except that the batch path revives no tombstone. |
| SyncRuns.TombstoneSafety | engine/src/inandout/ingestion/engine.py:1070-1118 | On either write path the end of a run touches no row of a seen id, tombstones at most as many ids as were seen, and none when the run drifted or did not start from scratch. |
| RunEnding.FinishDecides | engine/src/inandout/ingestion/engine.py:1070-1118 | A run aborts exactly when its count has shrunk by more than the percentage against a last count above the minimum; one that completed a full listing empties and marks exactly the live rows not seen, if they are at most half, and confirmed where deletions are, and counts them; every other row and run leaves rows as they were. |
| SyncRuns.FullRunLiveIds | engine/src/inandout/ingestion/engine.py:1113-1118 | On either write path, after a completed full run exactly the ids shown by it are live plus those spared by the ratio guard or the deletion check. |
| SyncRuns.RowEqualsRecordIff | engine/src/inandout/ingestion/engine.py:1866-1875 | A row equals the record seen exactly when it did not already carry that hash over other data. |
| SyncRuns.RevivedRowStaysEmpty | engine/src/inandout/ingestion/engine.py:1684-1692 | A tombstoned row revived by its unchanged record stays empty however often the record comes back. |
| SyncRuns.ReplayIsIdempotent | engine/src/inandout/ingestion/engine.py:1809-1875 | Re-processing records after a crash ends in the same table as processing them once. |
| SyncRuns.RunCarries | engine/src/inandout/ingestion/engine.py:960-1038 | On either write path every record accepted in a run ends with a row of its hash. |
| SyncRuns.PagesNoop | engine/src/inandout/ingestion/engine.py:960-1038 | A page loop over records whose rows already carry their hashes writes nothing. |
| SyncRuns.SecondRunChangesNothing | engine/src/inandout/ingestion/engine.py:888-1118 | A second full run over the same records, however paged and on either write path, inserts, updates and tombstones nothing. |
| CrashResume.WatermarkIsACursor | engine/src/inandout/ingestion/engine.py:1023-1030 | The running maximum is always the cursor of some record processed. |
| CrashResume.RunCursors | engine/src/inandout/ingestion/engine.py:1023-1068 | The run's greatest cursor and its checkpoint are cursors of records whose pages have been committed. |
| CrashResume.AttemptWatermark | engine/src/inandout/ingestion/engine.py:1040-1048 | The watermark an attempt leaves: the end of its window if any page had records; without a window the cursor of a committed record if some accepted one has a cursor that is not empty; else the old one. |
| CrashResume.NextResumePoint | engine/src/inandout/ingestion/engine.py:712-756 | The next run starts from the checkpoint this attempt leaves, if that has a cursor, and else from the stored watermark: the checkpoint the attempt itself picked up is used up, however it ends. |
| CrashResume.ScanSettles | engine/src/inandout/ingestion/engine.py:908-962 | Every record scanned is dead-lettered, or its id is among the accepted ones. |
| CrashResume.PagesKeys | engine/src/inandout/ingestion/engine.py:965-1038 | On either write path the ids with a row are exactly those that had one and those accepted. |
| CrashResume.BeyondProcessed | engine/src/inandout/ingestion/engine.py:788-796 | A record of the listing not yet reached lies at or beyond the cursor of every processed one. |
| CrashResume.UnreachedIsBeyond | engine/src/inandout/transport/http.py:312-322 | A record an attempt did not get to lies at or beyond the records it committed; one outside its window also lies at or beyond the end of the window. |
| CrashResume.AttemptKeepsResumableIff | engine/src/inandout/ingestion/engine.py:712-756 | If the resume point is at or before every unsettled record, this survives an attempt, killed, failed or completed, if and only if the attempt left a checkpoint with a cursor; or stored the end of its window, and each record it asked for and did not get to is settled or at or beyond that end; or stored a cursor; or stored nothing, and no unsettled record is before the watermark it found. |
| CrashResume.CompletedSettles | engine/src/inandout/ingestion/engine.py:796-1118 | If the resume point is at or before every unsettled record, a completed attempt settles every record that is not beyond its window. |
| CrashResume.HistoryResumableIff | engine/src/inandout/postgres/checkpoint.py:12-43 | Over any number of killed, failed and completed attempts, with or without windows and checkpoints, the resume point stays at or before every unsettled record if and only if every attempt was safe in that sense. |
| CrashResume.SafeAttemptsLoseNothing | engine/src/inandout/ingestion/engine.py:636-1068 | After safe attempts a completed one leaves every source record with a row or a dead letter, except those beyond its own window. |
| CrashResume.NoWindowIsSafe | engine/src/inandout/ingestion/engine.py:1040-1068 | Attempts without a window are safe however they end, and the stored watermark, too, stays at or before every unsettled record. |
| CrashResume.NothingIsLost | engine/src/inandout/ingestion/engine.py:712-1068 | The case without a cursor window: after any history of stopped attempts a completed one leaves every source record with a row or a dead letter. |
| CrashResume.EverythingIsCurrent | engine/src/inandout/postgres/watermark.py:43-64 | The same case on the single-record path, with one version per id: each row is then live and carries its record's hash. |
| WindowLoss.NextAttemptAsksIff | engine/src/inandout/ingestion/engine.py:712-756 | With or without a checkpoint, the next attempt, if it has no bound of its own, asks for every unsettled record if and only if this one was safe. |
| WindowLoss.SettledAfterIff | engine/src/inandout/ingestion/engine.py:888-1038 | After any attempt exactly those records are settled that were before or that it dead-lettered or accepted by id. |
| WindowLoss.CompletedSettlesAllIff | engine/src/inandout/ingestion/engine.py:788-1068 | If records share no id and no dead letter: a completed attempt leaves every record of its window settled if and only if its resume point was at or before those that were not. |
| WindowLoss.PassedOverIff | engine/src/inandout/ingestion/engine.py:712-756 | A record that both the watermark and the resume point are beyond is not asked for, and stays so if and only if the attempt does not store the end of a window that is not beyond it. |
| WindowLoss.PassedOverForGood | engine/src/inandout/ingestion/engine.py:636-756 | Over a history, with or without checkpoints, of records that share no id and no dead letter: such a record, if not settled, is never asked for again and never settled as long as no such window is stored. |
| WindowLoss.WindowLosesRecord | engine/src/inandout/ingestion/engine.py:741-749 | A history of two records and four attempts whose last attempt runs to its end while the second record is passed over and unsettled; without checkpoints the windowed attempt loses it, with them the run that uses the checkpoint up. |
| CursorWindow.Poller.Poll | engine/src/inandout/ingestion/engine.py:636-684 | A cycle stores the end of its window if some page had records, and otherwise nothing. |
| CursorWindow.BackwardsIff | engine/src/inandout/ingestion/engine.py:661-661 | The watermark moves back exactly when a window is stored although it was ahead of the clock, and forward by at most one window. |
| CursorWindow.NeverPastTheClock | engine/src/inandout/ingestion/engine.py:636-684 | Started at or before the clock, it never decreases and never passes the clock. |
| CursorWindow.WindowsCover | engine/src/inandout/ingestion/engine.py:661-673 | Every instant between the first and the last watermark lies in a stored window. |
| CursorWindow.WindowsDisjoint | engine/src/inandout/ingestion/engine.py:661-673 | And in only one. |
| CursorWindow.CatchUp | engine/src/inandout/ingestion/engine.py:1040-1048 | After m productive cycles it has moved m windows or reached the first clock reading; unproductive cycles do not move it. |
| WindowCycles.CycleAsks | engine/src/inandout/transport/http.py:312-322 | A completed cycle asks for exactly the records between the watermark and the end of its window, or from the watermark on if there is no parameter for the end. |
| WindowCycles.CycleAdvances | engine/src/inandout/ingestion/engine.py:1040-1048 | Its watermark moves as the window arithmetic says, and not at all if it asked for nothing. |
| WindowCycles.StuckForGood | engine/src/inandout/ingestion/engine.py:636-684 | Once there is no record within a window from the watermark, no later cycle changes rows, dead letters, checkpoint or watermark, whatever the clock. |
| WindowCycles.EverAskedIff | engine/src/inandout/ingestion/engine.py:636-1048 | With more cycles than windows before it, a record older than the clock is ever asked for if and only if none of the windows before it is empty, or the source is not told where they end. |
| WindowCycles.EverSettledIff | engine/src/inandout/ingestion/engine.py:636-1048 | And, if not settled at the start and records share no id and no dead letter, it is ever settled under exactly the same condition. |
| WindowCycles.NoGapAllReached | engine/src/inandout/ingestion/engine.py:661-661 | It is asked for in the cycle of its window when neither the start and the first record nor any two neighbours are further apart than a window. |
| Webhooks.SecondLookupAgrees | engine/src/inandout/ingestion/webhooks.py:291-304 | The second search, which also asks for the datatype, finds the route that decided the datatype. |
| Webhooks.Handler.FindRoute | engine/src/inandout/ingestion/webhooks.py:203-225 | The two loops together return the first route whose text is a prefix of the discriminator. |
| Webhooks.Handler.FilterEvent | engine/src/inandout/ingestion/webhooks.py:388-484 | A stamped event with an id is let through exactly if it is not stale on its route, and is then remembered. |
| Webhooks.Handler.StoreEvent | engine/src/inandout/ingestion/webhooks.py:562-612 | The upsert of the payload, marked on a delete route, with its three responses. |
| Webhooks.Handler.HandleEvent | engine/src/inandout/ingestion/webhooks.py:242-605 | One event's response and its effect on the seen ids, the stored sequences and the rows. |
| WebhookOutcomes.UnroutedResponse | engine/src/inandout/ingestion/webhooks.py:250-275 | An event no route takes is a duplicate, rejected or discarded as configured, and changes neither table nor sequence values. |
| WebhookOutcomes.ResponseIff | engine/src/inandout/ingestion/webhooks.py:229-612 | For any hub and any event with a first matching route, each of the seven responses exactly when. Stored: new, for a configured datatype, bringing data or a deletion, not overtaken on its route if it is sequenced, with an id in the payload, and the write not failing. |
| WebhookOutcomes.StoredRow | engine/src/inandout/ingestion/webhooks.py:562-600 | A stored event leaves a live row with the payload's hash, over the old data if the hash was there and over its own otherwise, counts as inserted or updated accordingly, and touches no other row or table. |
| WebhookOutcomes.NothingStored | engine/src/inandout/ingestion/webhooks.py:250-612 | Any other event leaves all tables as they were. |
| WebhookOutcomes.Remembered | engine/src/inandout/ingestion/webhooks.py:229-484 | A sequence value is stored exactly for an admitted event that has one, even if its write fails; every event id is remembered. |
| WebhookOrdering.NewestWins | engine/src/inandout/ingestion/webhooks.py:443-459 | An arrival newer than every other is what the register ends with, in any order. |
| WebhookOrdering.OrderIrrelevantIff | engine/src/inandout/ingestion/webhooks.py:443-482 | For any arrivals, repeated and tied values included: every arrival order leaves the same value exactly when some arrival is newer than all that differ from it. |
| WebhookOrdering.ComparableHasNewest | engine/src/inandout/ingestion/webhooks.py:445-448 | Distinct values that all parse as numbers, or none of which does, have such an arrival. |
| WebhookOrdering.LetInIncreasing | engine/src/inandout/ingestion/webhooks.py:443-482 | Over a whole run of comparable values every one let through is greater than all let through before it. |
| WebhookOrdering.MixedValuesDisagree | engine/src/inandout/ingestion/webhooks.py:445-448 | Values of mixed kind can end differently in two orders. |
| WebhookRoutes.RowIsLastWritten | engine/src/inandout/ingestion/webhooks.py:388-605 | Over any run by any number of routes the row carries the hash of the last event written, and its payload if and only if it was not a hollow row written only with payloads of the hash it had. |
| WebhookRoutes.WinnerStays | engine/src/inandout/ingestion/webhooks.py:443-482 | From its arrival on the newest event of a route keeps the route's stored sequence, and nothing more of the route is let in. |
| WebhookRoutes.LastWriterWins | engine/src/inandout/ingestion/webhooks.py:388-605 | A route with a newest event ends with its sequence, and the row is that event's if and only if its write succeeded and no other route wrote after it. |
| WebhookRoutes.RouteIsRegister | engine/src/inandout/ingestion/webhooks.py:443-482 | On a single route the stored sequence is the register's. |
| WebhookRoutes.FirstTop | engine/src/inandout/ingestion/webhooks.py:399-403 | If on every route the unbeaten values beat the others, the first of them to arrive is let in and nothing of its route after it. |
| WebhookRoutes.RoutesAgreeIff | engine/src/inandout/ingestion/webhooks.py:399-403 | On such routes, failing writes and tied values included: every arrival order leaves the same version in the row if and only if all arrivals that can be the last to write store one payload, and the row has it already where it can happen that none writes. |
| WebhookRoutes.OneKindIsRanked | engine/src/inandout/ingestion/webhooks.py:399-403 | Routes are such when their values all parse as numbers or none does, repeated or not. |
| WebhookRoutes.LaterRouteWins | engine/src/inandout/ingestion/webhooks.py:399-403 | Of two events on two routes the later arrival wins, in either order. |
| WebhookRuns.StepOnRow | engine/src/inandout/ingestion/webhooks.py:388-605 | A new event for a row: discarded without a trace if stale, else its sequence is stored and, unless the write fails, its payload upserted. |
| WebhookRuns.RunIsRoutes | engine/src/inandout/ingestion/webhooks.py:242-605 | The handler does to one row and its sequences what the filters of the routes do. |
| WebhookRuns.HubRowIsLastWritten | engine/src/inandout/ingestion/webhooks.py:388-605 | The handler's row is that of the last event written, with the payload exactly unless it was kept hollow. |
| WebhookRuns.HubLastWriterWins | engine/src/inandout/ingestion/webhooks.py:388-605 | Whatever the arrival order a route ends with its newest sequence, and on the only route a successful newest event ends in the row. |
| WebhookRuns.HubRunsConverge | engine/src/inandout/ingestion/webhooks.py:445-484 | With distinct comparable sequences on a single route there is a newest event, so every order converges to it. |
| WebhookRuns.StoredValueOnlyAdvances | engine/src/inandout/ingestion/webhooks.py:443-484 | No event of any kind replaces a stored sequence by one that is not newer. |
| WebhookRuns.RedeliveryChangesNothing | engine/src/inandout/ingestion/webhooks.py:242-264 | An event whose id was delivered before changes nothing, however much happened in between. |
| WebhookRuns.RedeliveryStoresIff | engine/src/inandout/ingestion/webhooks.py:243-482 | After a failed upsert and any other events, the same event is stored if and only if it has no event id and the filter, where it applies, lets it through. |
| WebhookRuns.FailedWriteIsLostIff | engine/src/inandout/ingestion/webhooks.py:243-482 | At once, it is stored if and only if it has neither an event id nor a place in the filter; else it is discarded and the tables stay as they are. |
| WebhookRuns.HubOrdersAgreeIff | engine/src/inandout/ingestion/webhooks.py:399-403 | The same for the handler, on routes whose unbeaten sequence values beat the others. |
| RateLimiter.Limiter.CheckRate | engine/src/inandout/ingestion/webhook_server.py:93-105 | Prunes, decides and computes the delay for one address, all others untouched. |
| RateLimiter.AllowedIff | engine/src/inandout/ingestion/webhook_server.py:95-106 | For any remembered list: admitted if and only if fewer than `limit` entries are later than 60 seconds ago; those and the admission are kept; only a refusal carries advice. |
| RateLimiter.WindowIsRecentLog | engine/src/inandout/ingestion/webhook_server.py:95-105 | The stored list is the full log of admissions cut to the last 60 seconds, never longer than the limit. |
| RateLimiter.AdmissionsAreSpaced | engine/src/inandout/ingestion/webhook_server.py:99-104 | The (i+limit)-th admission comes at least 60 seconds after the i-th, in every run. |
| RateLimiter.AdmittedAgainIff | engine/src/inandout/ingestion/webhook_server.py:96-105 | A refused client is admitted again exactly once its oldest remembered admission is 60 seconds old. |
| RateLimiter.RetryAfterBounds | engine/src/inandout/ingestion/webhook_server.py:101-103 | The delay advised with a refusal is 1 to 61 seconds (status 429 is section 4 of RFC 6585, Retry-After section 10.2.3 of RFC 9110) and exceeds the remaining time by at most one, which fixes it; it is least exactly when the remaining time is not a whole number. |
| RateLimiter.WaitingIsEnough | engine/src/inandout/ingestion/webhook_server.py:166-183 | A refused client that waits the advised time, without competing requests, is admitted. |
| WritebackDeadLetter.Tables.MoveToDeadLetter | engine/src/inandout/deadletter/writeback.py:71-136 | A committed move adds one letter and marks the matching rows; a declining policy or a failing statement changes nothing. |
| DeadLetterRows.MoveDecides | engine/src/inandout/deadletter/writeback.py:91-112 | A move marks every row with the id or cluster id but those with nothing to do, leaves all others alone and adds one letter. |
| WritebackDeadLetter.Tables.ReplayRow | engine/src/inandout/deadletter/writeback.py:245-266 | One committed turn marks the letter requeued and gives its rows their action back. |
| WritebackDeadLetter.Tables.ReplayRows | engine/src/inandout/deadletter/writeback.py:200-293 | The call works off the oldest replayable letters in order, skipping declined and counting failed ones. |
| WritebackDeadLetter.SelectsOldest | engine/src/inandout/deadletter/writeback.py:204-212 | A replayable letter is left out of a replay call only when the limit is used up by older ones. |
| DeadLetterRows.SelectedIff | engine/src/inandout/deadletter/writeback.py:204-212 | A letter is selected if and only if it is not requeued, was so fewer than three times, and fewer than `limit` older ones are such. |
| DeadLetterRows.ReplayDecides | engine/src/inandout/deadletter/writeback.py:216-275 | Under any verdicts: a row that was not dead-lettered ends as it was; a dead-lettered one ends with the action of the first committed letter that matches it and whose action is not 'dead_lettered', 'update' for an empty one, and stays as it was if there is none. |
| DeadLetterRows.ReplayCounts | engine/src/inandout/deadletter/writeback.py:276-293 | The two counts returned are those of the committed and of the failed turns. |
| DeadLetterRows.ReplayRequeues | engine/src/inandout/deadletter/writeback.py:247-255 | Exactly the letters whose turns commit are requeued, once more than before. |
| WritebackDeadLetter.MoveStrandsNoneIff | engine/src/inandout/deadletter/writeback.py:91-112 | If every dead-lettered row has a letter that brings it back, this survives a move if and only if the action is not 'dead_lettered' or every row newly marked has such a letter. |
| WritebackDeadLetter.ReplayStrandsNone | engine/src/inandout/deadletter/writeback.py:247-266 | It always survives a replay of any letter. |
| WritebackDeadLetter.NoStrandedLettersIff | engine/src/inandout/deadletter/writeback.py:91-112 | Over any interleaving of moves and overlapping replays it holds throughout if and only if every move was such a one. |
| WritebackDeadLetter.StaleMoveStrands | engine/src/inandout/writeback/engine.py:1913-1937 | A run in which a row fetched while marked, brought back by a replay and moved under 'dead_lettered' is stranded. |
| WritebackDeadLetter.MoveThenReplay | engine/src/inandout/deadletter/writeback.py:237-265 | A move followed by the replay of its letter restores the rows exactly when the letter's action was the action of all of them. |
| WritebackDeadLetter.ImproperMoveStrands | engine/src/inandout/deadletter/writeback.py:91-112 | A move under 'dead_lettered' leaves a marked row without a replayable letter. |
| WritebackDeadLetter.TurnsUnmark | engine/src/inandout/deadletter/writeback.py:216-275 | Committed turns leave a row dead-lettered exactly when it was and none of their letters gives it another action. |
| WritebackDeadLetter.FullReplayFreesAllIff | engine/src/inandout/deadletter/writeback.py:200-275 | One replay call that reaches every letter brings every dead-lettered row back if and only if none was stranded. |
| WritebackDeadLetter.OnceStepIff | engine/src/inandout/deadletter/writeback.py:204-212 | Pending lists being disjoint and not requeued survives a step if and only if a starting call selects no letter that another call has still to reach. |
| WritebackDeadLetter.AtMostOnceWhenSafe | engine/src/inandout/deadletter/writeback.py:204-266 | In every run whose calls start so, each letter is replayed at most once. |
| WritebackDeadLetter.StartSafeIff | engine/src/inandout/deadletter/writeback.py:204-266 | A start is safe if and only if the calls then under way cannot go on in a way that requeues a letter twice. |
| WritebackDeadLetter.OverlappingReplaysRepeat | engine/src/inandout/deadletter/writeback.py:247-255 | Two overlapping calls can replay the only letter twice. |
| SchemaDiff.DiffSchemas | engine/src/inandout/schema_registry/local.py:38-69 | The lines for added, removed and changed columns, in this order. |
| SchemaDiff.NamesAre | engine/src/inandout/schema_registry/local.py:40-44 | Each column name is looked at once, in the order of first occurrence. |
| SchemaMigration.ReportInOrder | engine/src/inandout/schema_registry/local.py:45-69 | The report announces the added columns, then the removed ones, each in their order, then the changes. |
| SchemaDiff.ReprReadsBack | engine/src/inandout/schema_registry/local.py:60-63 | A printed type stands for the type it was printed from; it is delimited by double quotes exactly if it has single ones and no double ones. |
| SchemaDiff.DiffEmptyIff | engine/src/inandout/schema_registry/local.py:42-69 | The report is empty exactly when both schemas give every name the same type and nullability. |
| SchemaDiff.ChangesSay | engine/src/inandout/schema_registry/local.py:60-69 | A change line begins with its column's name and ends with the old and the new value, in this order. |
| SchemaMigration.Relation.Migrate | engine/src/inandout/postgres/schema_migration.py:45-91 | Every line is searched for the two patterns and applied; the statements executed are returned in order, and type changes change no column. |
| SchemaMigration.ExecutedAccounts | engine/src/inandout/postgres/schema_migration.py:45-91 | The statements returned are the whole of what was done to the columns. |
| SchemaMigration.SearchStep | engine/src/inandout/postgres/schema_migration.py:12-14 | The leftmost match of a pattern sits at the first quote exactly when the text before it ends with the keyword and a group follows. |
| SchemaMigration.SearchTypeChange | engine/src/inandout/schema_registry/local.py:60-63 | What a type-change line is taken for, whatever the types: nothing, unless the name ends with a keyword or the printed types announce a column. |
| SchemaMigration.SearchPlainTypes | engine/src/inandout/schema_registry/local.py:60-63 | For types without quotes, backslashes and control characters they do exactly when the old type ends with a keyword. |
| SchemaMigration.ReadsBackIff | engine/src/inandout/postgres/schema_migration.py:48-53 | For names without quotes, whatever the types, the migration reads back exactly the added and removed names if and only if none is empty and no type change is confusing. |
| SchemaMigration.LinesDecide | engine/src/inandout/postgres/schema_migration.py:45-91 | With pruning the last line read as being about a column decides whether it is there, without pruning any line that adds it; only names that are not empty and have no quote are ever read. |
| SchemaMigration.PrunedMigrationIff | engine/src/inandout/postgres/schema_migration.py:53-79 | For any two schemas: with pruning exactly the new columns are reached if and only if the names of added and removed columns are not empty and have no quote, and the last change line read as being about a column adds it exactly if it is a new column. |
| SchemaMigration.UnprunedMigrationIff | engine/src/inandout/postgres/schema_migration.py:53-61 | Without pruning the union is reached if and only if the names of added columns are such, and no line for a removed or changed column is read as adding one that is in neither schema. |
| SchemaMigration.MigrationReachesNewSchema | engine/src/inandout/postgres/schema_migration.py:53-79 | A readable report is enough for both. |
| SchemaMigration.UnreadableCanMigrate | engine/src/inandout/postgres/schema_migration.py:53-61 | It is not needed: a misread type change does no harm when the column it adds is there. |
| SchemaMigration.MisreadTypeChange | engine/src/inandout/postgres/schema_migration.py:53-61 | A concrete family of type changes that adds a column called " type changed: ". |
| Pagination.ParseInvertsDigits | engine/src/inandout/stubs/generic.py:307-308 | Reading a printed offset gives the offset back. |
| Pagination.ParseIntInverts | engine/src/inandout/stubs/generic.py:307-308 | So does reading a printed negative one. |
| Pagination.CursorOffsetDecides | engine/src/inandout/stubs/generic.py:302-310 | A cursor of digits behind no dash or one is a number of that sign, behind more it raises, and anything else starts over. |
| Pagination.NegativeSlice | engine/src/inandout/stubs/generic.py:353-355 | The page from a negative offset on, within the list, across its end and from before its beginning. |
| Pagination.Server.List | engine/src/inandout/stubs/generic.py:302-373 | The page at the cursor's offset, negative ones counting from the end, and the cursor of the next one; a text with several dashes raises; stored cursors always agree with parsing their text. |
| Pagination.RequestPage | engine/src/inandout/transport/http.py:373-394 | A request with the cursor for an offset returns the page at that offset and the cursor for the next, if there is one. |
| Pagination.FollowCursors | engine/src/inandout/transport/http.py:360-394 | The client's loop sees the pages of the list in order and ends. |
| Pagination.CursorWalkComplete | engine/src/inandout/stubs/generic.py:353-373 | These pages concatenate to the list. |
| Pagination.CursorWalkLength | engine/src/inandout/stubs/generic.py:353-355 | There are max(1, ceil(n / size)) of them. |
| Pagination.PageNumbersAreOffsets | simulator/src/inandout_simulator/route_builder.py:486-502 | The page-number walk and the offset walk see the same pages. |
| Pagination.OffsetWalkIsCursorWalk | engine/src/inandout/transport/http.py:396-422 | With equal page sizes the offset walk is the cursor walk, plus one empty page if the last one was full. |
| Pagination.OffsetWalkCompleteIff | engine/src/inandout/transport/http.py:420-422 | The offset walk returns the whole list exactly when the server's pages are not shorter than the client's, or one holds everything. |
| Pagination.BeyondIsTail | simulator/src/inandout_simulator/route_builder.py:514-519 | Filtering strictly sorted keys by one of them leaves exactly those behind it. |
| Pagination.RequestKeys | simulator/src/inandout_simulator/route_builder.py:504-525 | A keyset request after a prefix of the keys returns the next page. |
| Pagination.FollowKeys | engine/src/inandout/transport/http.py:473-514 | The keyset walk over strictly sorted keys sees the same pages as the offset walk. |
| Pagination.FetchAllKeys | engine/src/inandout/transport/http.py:473-514 | So it returns every key, in order. |
| Pagination.EmptyKeyRestarts | simulator/src/inandout_simulator/route_builder.py:514-519 | With one record per page and an empty first key the walk never ends. |
| Pagination.KeysetEndsIff | engine/src/inandout/transport/http.py:473-514 | A keyset walk over strictly sorted keys comes to an end if and only if pages hold more than one record or no key is empty, and then has returned every key in order. |

## Left out

- CrashResume.EverythingIsCurrent: it is the case without a cursor window; it states that the row is live with the record's hash, not that its data equals the record, because a revived row keeps empty data (`SyncRuns.RowEqualsRecordIff`); it is limited to the single-record path because the batch path leaves tombstones.
- CrashResume.NothingIsLost: it is the case without a cursor window, the other being `SafeAttemptsLoseNothing`; the source is fixed during the history and the quality verdict is part of a record, so rules that compare a record with earlier ones of the same run are not modelled.
- SyncEngine.SyncRun.WriteRecord: with batching switched on and a composite key the engine buffers and upserts the buffer at the flush; the model upserts at once, which leaves the same rows when the page is committed.
- ComponentGate.WorkCycle: a failing unlock is taken to leave the session alive; when the session itself ended the lock is gone, which the state machine has as its Crash step. Connections and the pool are not modelled.
- EventBuffer.Buffer.BufferEvent: the reads of `defaultdict` that create empty entries are not visible in the modelled state.
- WritebackDeadLetter.Tables.ReplayRows: the verdict of the policy and of each transaction is a parameter; the policy's own counters are not modelled.
- Webhooks.Handler.HandleEvent: a notification only answers; the fetch or sync it triggers is not modelled. The fail-open branches for missing bookkeeping tables and the fallback to the source table when there is no per-route table are left out.
- WindowLoss.WindowLosesRecord: the end of a window is a parameter of the attempt; the arithmetic that gives it is in `CursorWindow`, and the two are joined in `WindowCycles`.
- WindowCycles.EverAskedIff: cursors and clock are real numbers; the rounding of floating-point sums and the printing of ISO timestamps are not modelled.
- WebhookRuns.HubOrdersAgreeIff: compares versions by hash; a hollow row keeps its data as `HubRowIsLastWritten` says. Routes on which sequence values go round in a circle (`MixedValuesDisagree`) are not covered. The routes of a run have no stored sequence at its start.
- RateLimiter.WaitingIsEnough: clock readings are reals, so rounding of floating-point seconds is not modelled; the per-connector limiter is the same code.
- SchemaMigration.ReadsBackIff: names with quotes, which the pattern cannot capture, are not covered; the theorems on the migrated table cover them.
- SchemaDiff.DiffSchemas: `repr` of a type is modelled for ASCII; characters beyond it are taken to be printable.
- Pagination.Server.List: cursor texts with non-ASCII digits, the URL-template cursors and a page-size parameter sent by the client are not modelled.
- Pagination.FollowKeys: keys are the records; a record without the key field, where the client stops, is not modelled.
- The layout of a source row: the single-record path keeps a record as JSON in one column, the batch path writes one column per field; the model identifies the two.
- Hash collisions of SHA-256, and distinct composite keys that join to the same text with ':' being one id.
- Expression primary keys, field mapping, exclusions, timestamp normalisation: a record enters the model as they leave it.
- The branch of the single-record upsert for a concurrent insert between its SELECT and its INSERT.
- The history table, lineage, linked objects, the reconciliation pass, orphan-column handling, detail fetches for id lists and bulk export.
- `records_committed_so_far`, which re-adds running totals on every page and decides nothing.
- The sync lock and its heartbeat, which do not exclude a second run over a whole sync.
- The reorder strategy of the webhook handler, whose call goes to a method the ingestion engine does not have; the buffer is modelled on its own.
- The webhook debouncer, whose delivery under interleaving is not last-write-wins.
- Link-header paging, which both simulators serve from offset 0 every time.
- Failing dead-letter and checkpoint writes, which the engine swallows.
- HTTP, SQL text, DDL execution, connection pools, metrics, logging, alerting, REST routes, authentication and configuration parsing.
