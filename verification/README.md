# GeoTrace application core: a verified model

This project models the stateful core of the GeoTrace application (the modules under `src/app`) and
proves what its parts promise together. It is written in Dafny 4.11. `dafny verify dfyconfig.toml`
checks all of it.

| file | models |
|---|---|
| `DayFetchQueue.dfy`, `DayFetchQueueProperties.dfy`, `DayFetchQueueDays.dfy` | the queue of days a fetch worker downloads, with its backfill and coverage counts |
| `EnvironmentStorage.dfy` | the age-based prune of the day archives and the run of one delete |
| `AssociationBatches.dfy`, `AssociationBatchesProperties.dfy`, `AssociationRegistry.dfy`, `CandidateOrder.dfy`, `AssociationLogs.dfy` | the protocol that releases loaded logs once the recordings that arrived with them are loaded |
| `TrackTable.dfy`, `TrackPurge.dfy`, `TrackPurgeProperties.dfy`, `ShelfSweep.dfy`, `Shelving.dfy` | deleting, shelving and sweeping the tracks of stored recordings |
| `HistoryWorker.dfy`, `WorkerAnswers.dfy` | the worker thread that owns the recordings database |
| `ContextSpan.dfy`, `ContextLine.dfy`, `ContextLineProperties.dfy`, `ContextLineShape.dfy` | the cached context lines and the span they are sampled over |
| `RetryBackoff.dfy` | the three retries with saturating counters |
| `HistorySort.dfy`, `HistoryKeys.dfy`, `FixPositions.dfy`, `StableSort.dfy` | the order of the History list and the search for the nearest fix |
| `Common.dfy` | shared vocabulary |

An object the program updates in place is a class whose methods update its fields. Each method is
proved to take the object's value where a function on values takes it, and the lemmas about runs are
about those functions. A part that Rust's ownership keeps from being shared (the pending backfill,
the two coverage maps, a stored recording) is a value in a field of its owner. Threads that share
atomics or channels are a state machine whose steps are the single accesses.

What a caller, a clock, the network or a file would supply is a parameter: the answer of the refresh
rule per day, the outcome of a read, the time of a frame, whether the store accepts a write, and what
the archive holds.

## Where the code and its documentation differ

- `day_fetch_queue.rs:20-22` promises that every queued day stays in `requested` and that a day does not
  go out again before a host change. `forget_pruned_days` releases covered days that wait or went out,
  and the next request queues them again. `PromiseKeptExactly` and `PromiseHoldsExactly` say when the
  promise is kept, `PrunedDayGoesOutAgain` gives a run that breaks it, and `DispatchBound` and
  `DispatchBoundIsReached` say what holds instead.
- `day_fetch_queue.rs:121-125` promises that a later backfill queues the cancelled days again. After a
  host change the day in flight can wait for the new host as well, and a cancel that takes it off the
  queue keeps it requested. `RestartQueuesTheCancelledDaysExactly` gives the condition, and
  `RestartAfterAHostChangeMissesADay` a run.
- `context_line.rs:161-167` drops the cached days when the positions changed since the last resolve. A
  forget clears the source they are compared with (`context_line.rs:132-136`), so positions that change
  before the next resolve go unnoticed and the line, whose samples are documented to be read at the
  positions of its source (`context_line.rs:103-105`), keeps samples read at the old ones.
  `FreshAfterAForgetExactly` gives the condition, and `ForgetHidesAPositionChange` a run.
- `history_db.rs:588-595` ends the worker on a thread of its own. It also drops the response receiver,
  which ends the worker at its next response, with requests still waiting in the channel.
  `DroppedReceiverLosesRequestsExactly` says when none is lost, and `DroppedReceiverLosesARequest` gives
  a run that loses one.
- `history_db.rs:871-872` returns the number of tracks a delete of shelved tracks removed. A sweep of every
  recording that fails at one of them keeps the earlier ones swept, and `history_db.rs:790-793` answers
  with a count of 0 over the changed database. `FailedWriteChangesNothingExactly` says when a failed
  write changed nothing, and `FailedSweepReportsNothing` gives a database where it did.

## Model

| member | source | states |
|---|---|---|
| `DayFetchQueueProperties.DispatchBound` | src/app/day_fetch_queue.rs:20-22 | Between two host changes a day goes out, or still waits, at most once more than prunes covering it were applied, over every run of requests, backfills, cancels, dispatches and reports |
| `DayFetchQueueProperties.DispatchBoundSinceHostChange` | src/app/day_fetch_queue.rs:210-218 | The same bound counted from any host change on, whatever led to it and whatever day was in flight across it |
| `DayFetchQueueProperties.DispatchBoundIsReached` | src/app/day_fetch_queue.rs:226-239 | The bound is tight: for every number of prunes a run exists on which one day goes out once more than that |
| `DayFetchQueueProperties.NextSpendsCredit` | src/app/day_fetch_queue.rs:68-136 | Waiting copies of a day plus one while it is not requested: only a prune covering the day adds to this credit, and each dispatch uses one up |
| `DayFetchQueueProperties.OncePerHostWithoutPrunes` | src/app/day_fetch_queue.rs:20-22 | Without prunes the queue never holds a day twice, every day goes out at most once a host, and a waiting day has not gone out |
| `DayFetchQueueProperties.PromiseKeptExactly` | src/app/day_fetch_queue.rs:20-22 | The documented promise (no day waits twice, every queued day stays requested, a day that went out to the host stays requested and waits nowhere) is kept by every operation, except by a prune exactly when it covers a day that waits or went out to the host and is not in flight |
| `DayFetchQueueProperties.PromiseHoldsExactly` | src/app/day_fetch_queue.rs:20-22 | Over every run from the empty queue, across host changes, the promise holds throughout exactly when every prune meets that condition at the moment it is applied |
| `DayFetchQueueProperties.PromiseMeansOnce` | src/app/day_fetch_queue.rs:20-22 | The promise holds in a state exactly when no run without prunes and host changes hands out a day that went out to the host already, or a day twice |
| `DayFetchQueueProperties.OncePerHostUnderTheGuards` | src/app/day_fetch_queue.rs:20-22 | In a run whose prunes meet the condition every stretch without a host change hands a day out at most once, and not at all when it went out to that host before the stretch |
| `DayFetchQueueProperties.CreditIsSpent` | src/app/day_fetch_queue.rs:68-136 | From any state some run without prunes and host changes hands a day out as often as its credit allows, so the credit is the exact maximum |
| `DayFetchQueueProperties.PrunedDayGoesOutAgain` | src/app/day_fetch_queue.rs:226-239 | A run with nothing waiting at its prune and no host change in which a day that was fetched is released and goes out a second time |
| `DayFetchQueueProperties.QueuePromiseKeptExactly` | src/app/day_fetch_queue.rs:20-22 | In any state, whatever went out, the queue stays duplicate-free and requested under every operation, except a prune exactly when it covers a waiting day that is not in flight |
| `DayFetchQueueProperties.InFlightStaysApartExactly` | src/app/day_fetch_queue.rs:220-233 | The day in flight stays requested and waits nowhere under every operation, except a host change while a day is in flight |
| `DayFetchQueueProperties.SecondCopyExactly` | src/app/day_fetch_queue.rs:226-239 | After a prune a request queues a day a second time exactly when the day still waits, the prune covers it and it is not in flight |
| `DayFetchQueueProperties.PrunedDayStartsOverExactly` | src/app/day_fetch_queue.rs:220-233 | A request after a prune queues a day exactly when it was never requested or the prune covers it and it is not in flight; its failures are gone and its counts awaited |
| `DayFetchQueueProperties.RequestsAreIdempotent` | src/app/day_fetch_queue.rs:39-90 | A second request with the same answer queues nothing, reports no second failure and moves no count |
| `DayFetchQueueProperties.RunKeepsConsistent` | src/app/day_fetch_queue.rs:93-136 | In every reachable state pending backfill days are queued or in flight, a running backfill has one, its total covers them, and no day is counted both as recording and as background day |
| `DayFetchQueueProperties.ReachableStatesAreConsistent` | src/app/day_fetch_status.rs:45-63 | The same from the empty queue |
| `DayFetchQueueProperties.CancelFreesOnlyWaitingDays` | src/app/day_fetch_queue.rs:121-136 | A cancel frees only days that wait and are not in flight, takes every pending day off the queue and leaves all other days alone |
| `DayFetchQueueProperties.CancelNeverFreesADispatchedDay` | src/app/day_fetch_queue.rs:121-136 | After any run without prunes or host changes, a cancel frees no day that already went out to the host, whichever backfill days it drops |
| `DayFetchQueueProperties.RestartQueuesTheCancelledDaysExactly` | src/app/day_fetch_queue.rs:121-136 | From any state a backfill over a range with the days a cancel took off the queue queues all of them again exactly when none of them is in flight as well under a request that still stands |
| `DayFetchQueueProperties.RestartAfterAHostChangeMissesADay` | src/app/day_fetch_queue.rs:121-136 | A run from the empty queue that breaks the documented restart: the day in flight over a host change is backfilled, cancelled and not queued again |
| `DayFetchQueueProperties.RestartQueuesTheSameDaysExactly` | src/app/day_fetch_queue.rs:121-136 | A backfill cancelled and started again at once leaves the same queue in the same order exactly when the days it queued hold neither the day in flight nor a day that was queued already |
| `DayFetchQueueProperties.RoundServesTheFront` | src/app/day_fetch_queue.rs:188-208 | One dispatch and report serve the front day, retire it from the backfill and end the backfill exactly with its last pending day |
| `DayFetchQueueProperties.DrainServesInOrder` | src/app/day_fetch_queue.rs:188-208 | After n rounds the first n queued days are gone, the backfill waits on exactly its days behind them, and its total is unchanged |
| `DayFetchQueueProperties.RoundAdvancesDone` | src/app/backfill.rs:47-67 | Over one round progress never falls, stays below the total while the backfill runs, and the round that ends it was one short of the total |
| `DayFetchQueueProperties.DoneNeverFalls` | src/app/backfill.rs:47-67 | Over every run of requests, prunes, dispatches and reports a backfill waits on exactly its days that did not report, ends with the last of them, and its progress never falls |
| `DayFetchQueueProperties.EveryBackfillEnds` | src/app/backfill.rs:61-67 | From any reachable state the backfill is over once the day in flight and every queued day were served |
| `DayFetchQueueDays.OneDayAtATime` | src/app/day_fetch_queue.rs:39-239 | Every operation does to every single day what a small machine of that day does: its request, its copies in the queue, its part in the backfill, its failures and its archive state depend on no other day, but for whose turn a dispatch is |
| `DayFetchQueueDays.CountFollowsItsOwnEvents` | src/app/day_fetch_status.rs:25-63 | Over every run the archive state counted for a day is what its own requests, arrivals and prunes say, the last one deciding |
| `DayFetchQueueDays.RequestExactly` | src/app/day_fetch_queue.rs:39-90 | For either kind of request and each answer: what is queued, requested and reported, once a host, and the archive state counted; a background request of a recording day changes nothing |
| `DayFetchQueueDays.QueueGrowsAtTheBack` | src/app/day_fetch_queue.rs:93-136 | Days are queued at the back and those that wait keep their order |
| `DayFetchQueueDays.BackfillCountsItsDays` | src/app/backfill.rs:39-67 | Over every run the total of a backfill is the number of days it had to fetch, its progress the number of them that reported, and it runs exactly while one has not |
| `DayFetchQueues.AdmittedExactly` | src/app/day_fetch_queue.rs:93-118 | A backfill queues exactly the days that were not requested and need a fetch, each once |
| `DayFetchQueues.AdmittedInOrder` | src/app/day_fetch_queue.rs:93-118 | and in the order in which they were given |
| `DayFetchQueues.DaysAdmittedAppends` | src/app/day_fetch_queue.rs:99-113 | The loop that asks the refresh rule day by day leaves the queue, the requested days, the failures and the pending days of that closed form |
| `DayFetchQueues.DayFetchQueue.StartBackfill` | src/app/day_fetch_queue.rs:93-119 | The method leaves the state of the closed form and returns the total of the backfill it starts |
| `DayFetchQueues.DayFetchQueue.CancelBackfill` | src/app/day_fetch_queue.rs:121-136 | The loop over the pending days releases all of them but the day in flight |
| `DayFetchQueues.DayFetchQueue.RequestRecordingDay` | src/app/day_fetch_queue.rs:39-47 | Counts the day for a recording and takes it out of the background days |
| `DayFetchQueues.DayFetchQueue.RequestBackgroundDay` | src/app/day_fetch_queue.rs:49-63 | Leaves a day a recording spans alone |
| `DayFetchQueues.DayFetchQueue.QueueCountedDay` | src/app/day_fetch_queue.rs:65-90 | Queues under the refresh rule; an unreadable archive is reported once |
| `DayFetchQueues.DayFetchQueue.TakeNextDay` | src/app/day_fetch_queue.rs:186-195 | Hands out the front day only while none is in flight |
| `DayFetchQueues.DayFetchQueue.FinishDay` | src/app/day_fetch_queue.rs:197-208 | Retires the day and ends the backfill with its last one |
| `DayFetchQueues.DayFetchQueue.ForgetHost` | src/app/day_fetch_queue.rs:210-218 | Drops queue, requests, failures and backfill, and keeps the day in flight and both coverage maps |
| `DayFetchQueues.DayFetchQueue.ForgetPrunedDays` | src/app/day_fetch_queue.rs:220-233 | Releases the covered days but the one in flight, without touching the queue |
| `DayFetchQueues.DayFetchQueue.MarkArchived` | src/app/day_fetch_status.rs:35-41 | Marks a day only in the counts that hold it |
| `EnvironmentStorage.AutoPruneSparesCountedDays` | src/app/environment_storage.rs:450-480 | A day any queue counted when an auto-prune was made loses neither its archive state nor its request when the prune is applied, also after any run of operations in between |
| `EnvironmentStorage.AutoPruneKeepsCoverage` | src/app/environment_storage.rs:86-98 | Applied to the queues it was made for, an auto-prune changes neither coverage map |
| `EnvironmentStorage.AutoPruneKeepsThePromiseExactly` | src/app/environment_storage.rs:86-98 | An auto-prune keeps the session promise exactly when no uncounted day that waits or went out, such as a backfilled day, is older than its cutoff without being in flight |
| `EnvironmentStorage.AutoPruneCoversExactly` | src/app/environment_storage.rs:91-98 | An auto-prune exists exactly with an age configured, and covers a day exactly when it is before that age and before every day any queue counts |
| `EnvironmentStorage.AutoPruneStartsExactly` | src/app/environment_storage.rs:465-480 | It starts exactly when it is on, none is running and some archived day is such a day |
| `EnvironmentStorage.CountedDaysStay` | src/app/day_fetch_queue.rs:157-169 | A counted day stays counted over every run, though it can move from the background to the recording days |
| `EnvironmentStorage.Prune` | src/app/environment_storage.rs:338-369 | One report per covered archive in order; those before the first rejection report the days they removed or the failure, the rest are skipped with that one rejection |
| `AssociationBatchesProperties.LiveTokensKeepTheirBatch` | src/app/association_batches.rs:150-163 | Under every interleaving from the start no registration panics, a batch with a live token is registered, reported batches have no recording work left and carry one candidate list |
| `AssociationBatchesProperties.NextKeepsInv` | src/app/association_batches.rs:166-189 | Every atomic access of every thread keeps the invariant that ties counters, tokens, registry, the reads of the call under way and the reports |
| `AssociationBatchesProperties.DropsNeverUnderflow` | src/app/association_batches.rs:106-124 | A dropped arrival always finds its counter above zero |
| `AssociationBatchesProperties.CandidatesAreFinal` | src/app/association_batches.rs:47-51 | Once the submission closed and every minted recording arrival was dropped, the candidate list of the batch never changes again |
| `AssociationBatchesProperties.NextCallRemovesSpentBatches` | src/app/association_batches.rs:182-187 | A batch with no live token, a closed submission and no pending log is gone after the next call, however tokens are dropped between its reads |
| `AssociationBatchesProperties.OnlySpentBatchesAreRemoved` | src/app/association_batches.rs:182-187 | No step removes a batch that a live token or a retained log still needs |
| `AssociationBatchesProperties.NextCallReportsCompletedBatches` | src/app/association_batches.rs:166-181 | The next call reports every pending log of a batch whose recording work is over, with its final candidates |
| `AssociationBatchesProperties.ReadyOfExactly` | src/app/association_batches.rs:178-180 | A batch is reported for exactly the pending logs it holds |
| `AssociationBatchesProperties.CallsReturn` | src/app/association_batches.rs:166-189 | A call ends after boundedly many of its own accesses, whatever the other threads do |
| `CandidateOrder.CompletionOrderDoesNotMatter` | src/app/association_batches.rs:69-79 | The candidate list is the same for every order of completion when an ordinal belongs to one arrival |
| `CandidateOrder.OrdinalsDecideInARun` | src/app/association_batches.rs:27-36 | which holds in every run that registers no recording arrival twice |
| `CandidateOrder.ReportsAreTheRegistrations` | src/app/association_batches.rs:157-181 | Under every interleaving a registered batch holds what was registered for it, and every report carries the list of the candidates its submission began with and all arrivals ever registered for it |
| `CandidateOrder.RunsReportOneList` | src/app/association_batches.rs:69-79 | Two runs that begin a batch alike and register the same arrivals, each once, report one list for it, whatever the order of completion and the interleaving |
| `CandidateOrder.CandidateListExactly` | src/app/association_batches.rs:69-79 | The list is the initial candidates, then each newly arrived recording once by the smallest ordinal it arrived under, none missing |
| `CandidateOrder.TwoRegistrationsOfOneArrivalDepend` | src/app/association_batches.rs:157-163 | One arrival registered for two recordings makes the list depend on the order of completion |
| `AssociationLogs.OnlyRegisteredLogsAreReported` | src/app/association_batches.rs:150-181 | Under every interleaving a reported log was registered for the reported batch and listed as pending by a call |
| `AssociationLogs.RegisteredLogsAreKept` | src/app/association_batches.rs:150-175 | Under every interleaving a log that was registered, and listed by every call since, is held by its batch, which is still registered |
| `AssociationLogs.KeptLogsAreReported` | src/app/association_batches.rs:166-181 | Once its recording work is over, the next call that lists such a log reports it with the list of all that the run registered for its batch |
| `AssociationLogs.RunKeepsLogsOnce` | src/app/association_batches.rs:150-155 | A batch holds a log once, however often it is registered |
| `AssociationLogs.ReportsFollowThePendingList` | src/app/association_batches.rs:176-180 | The reports of a batch follow the pending list, in its order |
| `AssociationLogs.TokensAreTheMintedOnes` | src/app/association_batches.rs:26-51 | Under every interleaving the tokens of a batch are those its own steps minted, numbered in order, and did not drop, and its counters count them |
| `AssociationBatchesProperties.PanicsExactly` | src/app/association_batches.rs:203-216 | A step panics exactly when it registers for a batch that is gone |
| `AssociationBatchesProtocol.CollectCandidates` | src/app/association_batches.rs:69-79 | The loop over the sorted arrivals computes that list |
| `AssociationRegistry.AssociationBatches.ReadyLogs` | src/app/association_batches.rs:166-189 | The two loops do what the accesses of the protocol do with no token used between them, and return the reports added |
| `AssociationRegistry.AssociationBatches.BeginSubmission` | src/app/association_batches.rs:127-148 | Registers a fresh batch under a new id |
| `AssociationRegistry.AssociationBatches.Recording` | src/app/association_batches.rs:27-36 | Mints a recording arrival with the next ordinal |
| `AssociationRegistry.AssociationBatches.DropRecording` | src/app/association_batches.rs:106-111 | Counts a dropped recording arrival down |
| `AssociationRegistry.AssociationBatches.DropSubmission` | src/app/association_batches.rs:47-51 | Closes the submission |
| `AssociationRegistry.AssociationBatches.RegisterRecording` | src/app/association_batches.rs:157-163 | Appends the arrival to its batch, or panics without one |
| `AssociationRegistry.AssociationBatches.RegisterLog` | src/app/association_batches.rs:150-155 | Adds a log to its batch once, or panics without one |
| `TrackPurgeProperties.RunKeepsRows` | src/app/history_db.rs:926-1027 | Over any run of deletes, shelves, unshelves and sweeps, accepted or not, the row count and the tiling stay, tombstones stay empty and deleted, and every surviving row denotes the points it first denoted |
| `TrackTable.PurgedRows` | src/app/history_db.rs:975-1019 | A purge keeps the table tiling and every kept row on exactly its points, and turns the dropped rows into empty tombstones |
| `TrackTable.PurgesCompose` | src/app/history_db.rs:953-1019 | Purging rows in two requests gives the points and the table of purging them in one |
| `TrackTable.PurgesCommute` | src/app/history_db.rs:953-1019 | Purges commute |
| `TrackTable.PurgeRemovesTheDroppedLengths` | src/app/history_db.rs:968-984 | A purge removes as many points as the dropped rows denoted |
| `TrackTable.SameRowsSameRecording` | src/app/history_db.rs:932-937 | A tiling recording is determined by the states and the points of its rows |
| `TrackTable.CursorIsTheCompactedLength` | src/app/history_db.rs:996-1019 | Over a tiling table the cursor stands where the compacted points of the rows before it end |
| `TrackTable.CursorReproducesTilingRowsExactly` | src/app/history_db.rs:996-1019 | With nothing dropped the cursor reproduces the table exactly where every row tiles |
| `TrackTable.GappedTablesAreMisread` | src/app/history_db.rs:996-1019 | Over a table with a gap a purge makes a surviving row denote other points |
| `TrackPurgeProperties.AcceptedDeletesCompose` | src/app/history_db.rs:944-1027 | Two accepted deletes that leave a track equal one accepted delete of all their rows |
| `TrackPurgeProperties.DeleteIsRejectedExactly` | src/app/history_db.rs:939-963 | A delete is rejected exactly for a row past the table, a tombstone or a failing store, changes nothing then, and removes the recording exactly when no track survives |
| `Shelving.DeleteDropsExactlyTheRows` | src/app/history_db.rs:944-1027 | An accepted delete turns exactly the requested rows into tombstones, keeps every other row on its points and every other recording; a failing store changes nothing |
| `Shelving.RejectionNamesTheRow` | src/app/history_db.rs:950-963 | A rejected delete names the first requested row that holds no track, and whether it is past the table |
| `Shelving.ShelveSetsExactlyTheRows` | src/app/history_db.rs:763-776 | A shelve or unshelve sets exactly the requested rows that hold a track and keeps all ranges, points and other recordings; a failing store changes nothing |
| `Shelving.UnshelveUndoesShelveExactly` | src/app/history_db.rs:763-776 | Unshelving the rows of a shelve restores the database exactly when none of them was shelved before |
| `Shelving.ShelvesSetTheLast` | src/app/history_db.rs:763-776 | After any run of shelves and unshelves a row has the state the last accepted one that names it set |
| `Shelving.SweepDeletesTheLastShelved` | src/app/history_db.rs:871-914 | After any such run a sweep deletes exactly the rows last set to shelved, and the recording exactly when no live row is left |
| `Shelving.OneRecordingIsSwept` | src/app/history_db.rs:873-879 | A delete of the shelved tracks of one recording touches that one alone, and fails for one that is not stored |
| `TrackPurgeProperties.FirstUnusableExactly` | src/app/history_db.rs:950-963 | The error names the first requested row that holds no track |
| `TrackPurge.Recordings.PurgeTracksWithStored` | src/app/history_db.rs:944-1027 | The method leaves the database of that specification |
| `TrackPurge.ShiftTable` | src/app/history_db.rs:996-1015 | The cursor loop computes the shifted table |
| `TrackPurge.Recordings.PurgeShelvedTracks` | src/app/history_db.rs:871-892 | One recording, or every listed one, is swept as specified; a listing that fails changes nothing |
| `TrackPurge.Recordings.SweepListed` | src/app/history_db.rs:879-891 | The loop that skips recordings listed with no shelved track leaves and counts what visiting all of them would, and ends at the first that fails |
| `TrackPurge.Recordings.PurgeTheShelvedTracksOf` | src/app/history_db.rs:894-914 | Sweeps one recording by the table stored now |
| `ShelfSweep.SweepExactly` | src/app/history_db.rs:871-914 | A successful sweep returns the number of shelved rows in scope, leaves each recording in scope swept and touches no other |
| `ShelfSweep.SweepKeepsLiveRows` | src/app/history_db.rs:894-914 | A swept recording has no shelved row, keeps every live row on its points, and is removed exactly when it had shelved rows and no live one |
| `ShelfSweep.SweptExactly` | src/app/history_db.rs:894-914 | Sweeping one recording succeeds with its shelved row count or changes nothing |
| `ShelfSweep.SweepIsIdempotent` | src/app/history_db.rs:871-892 | A second sweep over what is left changes nothing and returns 0 |
| `ShelfSweep.FailedSweepKeepsItsPrefix` | src/app/history_db.rs:880-891 | A sweep fails exactly at the first listed recording with shelved rows that the store rejects, and leaves the recordings before it swept and the rest as they were |
| `ShelfSweep.SweepChangesNothingExactly` | src/app/history_db.rs:880-891 | A sweep, failed or not, leaves the database alone exactly when no recording listed before the failing one holds a shelved row |
| `ShelfSweep.EveryRecordingIsSwept` | src/app/history_db.rs:871-892 | A successful sweep of every recording leaves exactly the swept recordings, none with a shelved row |
| `HistoryWorker.WorkerAnswersInOrder` | src/app/history_db.rs:629-649 | In every run requests are handled in send order, each with one response while the receiver lives, and the database is the fold of the handled requests |
| `HistoryWorker.ShutdownHandlesEverything` | src/app/history_db.rs:582-586 | Once the worker ended with the receiver alive, as shutdown waits for, every request sent was handled and answered |
| `HistoryWorker.DroppedReceiverLosesRequestsExactly` | src/app/history_db.rs:588-613 | With the receiver dropped as well, everything sent is handled exactly when at most one request was still waiting |
| `HistoryWorker.ShutdownReturns` | src/app/history_db.rs:582-614 | Once the requests are closed a worker that has not ended has a step to take, and takes at most one for each waiting request and one more |
| `HistoryWorker.ClosingEndsTheSending` | src/app/history_db.rs:608-614 | Closing the requests ends the sending for good and takes nothing that was sent |
| `WorkerAnswers.ReadsAndRejectionsAreAnswered` | src/app/history_db.rs:651-675 | A read answers what is stored, a rejected write is handed back with its reason, and neither touches the database |
| `WorkerAnswers.ShelvesAreAnswered` | src/app/history_db.rs:763-776 | A shelve or unshelve answers with the rows requested and whether it was done |
| `WorkerAnswers.DeletesAreAnswered` | src/app/history_db.rs:777-784 | A delete of tracks answers with the rows requested and the reason it was rejected |
| `WorkerAnswers.SweepsAreAnswered` | src/app/history_db.rs:785-794 | A delete of shelved tracks answers with the number deleted, or with 0 and the reason where it failed |
| `WorkerAnswers.RecordingDeletesAreAnswered` | src/app/history_db.rs:795-802 | A delete of recordings removes exactly the requested ones, or those before it was given up, and says so |
| `HistoryWorker.FailedWriteChangesNothingExactly` | src/app/history_db.rs:757-805 | A failed write leaves the database alone, except a sweep of every recording exactly when a recording listed before the failing one holds a shelved row, and a delete of several exactly when it removed one first |
| `HistoryWorker.DbIsTheAcceptedWrites` | src/app/history_db.rs:651-675 | The database is the one a sequence of accepted writes leaves: those of the run, and for each sweep or delete of several recordings that failed an accepted one of the recordings it was done with |
| `HistoryWorker.FailedSweepReportsNothing` | src/app/history_db.rs:785-794 | Two recordings with one shelved track each, the store failing at the second: the first lost its track and the response counts 0 |
| `HistoryWorker.DroppedReceiverLosesARequest` | src/app/history_db.rs:588-613 | A run from the start that loses one: two requests are sent, both channels are closed, and the worker ends after the first |
| `HistoryWorker.WorkerLoop` | src/app/history_db.rs:629-649 | The loop handles the requests in order and stops after the first response it cannot send |
| `HistoryWorker.HandleWriteRequest` | src/app/history_db.rs:757-805 | Each write on tracks and recordings, over one recording or every listed one, runs its database operation and reports its count and result |
| `ContextLineProperties.ResolveIsFresh` | src/app/context_line.rs:155-196 | After any run in which every resolve notices changed positions, a resolve over days whose archive changes were forgotten returns the line fresh reads would give |
| `ContextLineProperties.RunKeepsAgreement` | src/app/context_line.rs:132-196 | Archive changes, forgets, prunes and resolves keep cached days, positions and line in agreement |
| `ContextLineProperties.FreshAfterAForgetExactly` | src/app/context_line.rs:132-167 | With nothing resolved, as after a forget, the resolved line is fresh for every archive exactly when the positions are those of the cached days or no listed day is cached |
| `ContextLineProperties.ForgetHidesAPositionChange` | src/app/context_line.rs:161-167 | A run from the empty cache with a stale line: a day is forgotten, the positions change, and the next resolve keeps the other day as it was read at the old positions |
| `ContextLineProperties.ReadsBalanceDrops` | src/app/context_line.rs:173-178 | Over any run a day is read exactly as often as it was dropped, plus once while it is cached |
| `ContextLineProperties.ForgettingNothingKeepsTheLine` | src/app/context_line.rs:140-146 | A forget that drops nothing leaves the cache, and the next equal source reads nothing |
| `ContextLineProperties.ForgetsExactly` | src/app/context_line.rs:130-146 | A forget drops exactly the day or the covered days, and with any of them the resolved source |
| `ContextLine.ContextSampleCache.Resolve` | src/app/context_line.rs:155-196 | Leaves the resolved state, hands back the same line object exactly when the source is unchanged, and returns the days it read in order |
| `ContextLine.ContextSampleCache.Forget` | src/app/context_line.rs:130-136 | Drops a cached day and the resolved source with it |
| `ContextLine.ContextSampleCache.ForgetPrunedDays` | src/app/context_line.rs:138-146 | Drops the covered days, and the resolved source only if there were any |
| `ContextLine.NewDaysExactly` | src/app/context_line.rs:173-178 | A resolve reads exactly the archived days it holds nothing for, each once |
| `ContextLineShape.LineShape` | src/app/context_line.rs:170-192 | The line is the samples of the non-empty days in order, with one gap on the day after a non-empty day exactly when the next non-empty day comes later, and no other gap |
| `ContextLineShape.LineIsOrderedInTime` | src/app/context_line.rs:148-154 | With ordered days and gaps at midnight the whole line is strictly ordered in time |
| `ContextSpan.SpanContainsTheView` | src/app/context_line.rs:26-42 | The span contains both end days of the view in either endpoint order, also clamped at the ends of the calendar |
| `ContextSpan.SpanIsWholeBuckets` | src/app/context_line.rs:67-88 | The span ends on bucket boundaries inside the calendar and is at most 5/4 of the view |
| `ContextSpan.SameBucketsSameSpan` | src/app/context_line.rs:199-202 | Two views of as many days whose ends fall in the same buckets have one span |
| `ContextSpan.SpanIsTight` | src/app/context_line.rs:67-88 | Each end of the span lies less than a bucket outside the view |
| `ContextSpan.BucketIsAnEighth` | src/app/context_line.rs:36-38 | A bucket is an eighth of the days of the view, rounded down, and at least a day |
| `ContextSpan.DayAtExactly` | src/app/context_line.rs:49-65 | A second falls into its day counted from 1970, and into the first or last day of the years -262143 to 262142 outside them |
| `ContextSpan.DayAtIsMonotone` | src/app/context_line.rs:49-65 | Days follow the seconds and land on the ends of the calendar outside it |
| `RetryBackoff.MarkIntervalExactly` | src/app/instance_wait.rs:255-261 | The interval before attempt n is min(30 s, 250 ms times 2 to the n-20) for every n, also past the saturated count |
| `RetryBackoff.MarkIntervalNeverFalls` | src/app/instance_wait.rs:251-261 | The interval never falls and stays between its two ends |
| `RetryBackoff.AttemptsAreBounded` | src/app/instance_wait.rs:639-663 | Whenever frames run, at most 26 + T/30 s attempts are made within T of the start |
| `RetryBackoff.PollExactly` | src/app/instance_wait.rs:263-271 | A frame attempts and restarts the interval exactly once it has passed, and otherwise changes nothing and waits for the rest of it |
| `RetryBackoff.EveryDueAttemptIsMade` | src/app/instance_wait.rs:649-662 | Frames at the due times make every attempt, so none is later than its interval demands |
| `RetryBackoff.BackgroundMarkRetry.Poll` | src/app/instance_wait.rs:649-651 | A frame attempts exactly when no time is left |
| `RetryBackoff.RereadIsDueExactly` | src/app/day_index_read_retry.rs:29-36 | A re-read is due exactly while the last read found the file held, and min(10 s, 250 ms times 2 to the f-8) after it for f held reads in a row |
| `RetryBackoff.DayIndexReadRetry.RecordRead` | src/app/day_index_read_retry.rs:51-84 | Counts held reads in a row and forgets them on any other outcome |
| `RetryBackoff.WaitEndsExactly` | src/app/instance_wait.rs:148-182 | The wait gives up exactly when the last 20 retries all failed to open the lock file, with the cause of the last |
| `RetryBackoff.DataDirectoryWait.OutcomeOfAFreshRead` | src/app/instance_wait.rs:155-182 | Counts unusable lock files in a row, and starts over when another instance holds the directory |
| `HistorySort.SortedListIsCanonical` | src/app/history.rs:381-397 | With unique references the sorted list is one ordered permutation of the entries, whatever order they were listed in |
| `HistoryKeys.SortedByTheKeys` | src/app/history.rs:302-397 | The list goes by the key of its column, growing or falling with the direction (shown name in lower case, time range with an absent one smallest, or amount), and within a key by identity and group name |
| `HistoryKeys.ColumnComparesKeys` | src/app/history.rs:302-319 | Each column compares its own key |
| `HistorySort.ReversalKeepsTies` | src/app/history.rs:381-397 | Reversing the direction reverses entries whose column values differ and keeps the order of tied ones |
| `HistorySort.CompareIsATotalPreorder` | src/app/history.rs:302-319 | The comparison by column, direction and reference is a total preorder |
| `HistorySort.CompareIsCoherent` | src/app/history.rs:386-407 | It is antisymmetric and transitive, and equal only for one reference |
| `HistorySort.Apply` | src/app/history.rs:386-397 | Leaves the slice a permutation of itself in which no entry is greater than a later one, and the one canonical order where references are unique |
| `FixPositions.FixPositionTimeline.NearestPosition` | src/app/fix_positions.rs:49-69 | The binary search returns the position of a fix nearest in time, the earlier one on a tie, and nothing exactly without fixes |
| `FixPositions.FixPositionTimeline.PartitionPoint` | src/app/fix_positions.rs:54 | The number of fixes before the time |
| `FixPositions.NearestOfAllFixes` | src/app/fix_positions.rs:29-47 | The answer is about every loaded fix |
| `FixPositions.AllFixesExactly` | src/app/fix_positions.rs:30-44 | A fix is loaded exactly when a placed track of some file holds it |

## Left out

- User interface: all drawing, dialogs, toasts, window sizing and hover text.
- Stores and formats: HDF5, the pending-writes registry, the instance lock and the `.gtd` encoding. A
  stored recording is its point sequence and its track table; markers, channels and satellite reports
  carried through a re-encode are not modelled.
- Transports, wire parsing, thread spawning, logging and wall-clock reads.
- Weak memory orders: the atomics of a batch are read and written in one interleaved order.
- Counts shown for a coverage map (`ArchivedDayCount`), `DayFetchStatus` and the backfill's fraction:
  single expressions over the modelled state.
- The mirrors of archived days that the schedulers keep beside the queue: message timing lets them
  differ from the archive while a delete and a fetch overlap.
- `DayFetchQueueProperties.DispatchBound`: a run reports only the day in flight, as the fetch worker does.
  The repository's unit tests also report days no worker took.
- `HistoryWorker.HandleWriteRequest`: models the four writes on tracks and recordings. Renames,
  attached logs, snap runs, UI state and the size-based auto-prune are not part of this model. A delete of
  several recordings may be given up after any number of references, which covers a store that removes
  them one by one and one that replaces its file at once.
- `TrackPurge.Recordings.SetTracksShelved`: a store that fails to write one recording leaves it as it was,
  here and in every other write to one recording. The native backend unlinks the old track table before
  it writes the new one (`crates/gt-history-backend-sys/src/copy.rs:897-901`), so a failure between the two
  would lose the table.
- `TrackPurge.Recordings.PurgeShelvedTracks`: takes the order in which the store lists its recordings as
  a parameter, since the order of the groups in the file is the backend's. A stored recording
  always reads back: a read that fails is not part of this model.
- Clicks on the History list's headers, which pick the column and direction it is sorted by.
- `HistorySort.Apply`: the library's sort is a stable insertion sort here. The properties hold for
  every ordered permutation.
- `FixPositions.FixPositionTimeline.NearestPosition`: which of several fixes of one second it returns
  is left open, as the library's unstable sort leaves it. The second of a time is an integer.
- `ContextSpan.DayAtIsMonotone`: takes a plot coordinate as an integer number of seconds. The
  saturating cast from a float is not modelled.
- `MapSyncedPlotRangeCache` and the key of `FixPositions::timeline`: an ordinary memo, and a key that
  does not determine its contents.
- Settings, command line, the C header, civil dates, colour conversion, estimates and formatting.
