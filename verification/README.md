# Backup storage, orchestrator and listings: a verified model

This Dafny project models the parts of the backup product whose correctness depends on
several calls, or several components, working together, and proves what holds over every
run of them:

- **The write-once store.** `BlobStore` turns each restic request that michael serves into
  its separate storage calls (conditional put, hash comparison, compensating delete; head,
  then delete), each an atomic step, with any number of requests in flight. `BlobSafety`
  proves content addressing and write-once durability over every interleaving;
  `StoredBytes` proves what the stored-bytes counter conserves; `Michael` holds the storage
  client and the handlers as objects and ties each handler to the step model.
- **The WORM protocol.** `WormProtocol` puts the token issuer in front of that store: the
  one-way flag, tokens that carry it, their expiry, and the moment from which durability
  applies end to end.
- **Tasks and schedules.** `RunningTasks` is the task table with its abort controllers.
  `TaskLifecycle` gives backup, prune, forget, restore and schedule runs as program counters
  that advance only at awaits, each of which may fail. `TaskSafety` proves table soundness
  and mutual exclusion, `TaskOutcomes` how operations end, `TaskEntries` what the table
  shows of them, `ServedAlone` where undisturbed ones get; `ScheduleRuns`,
  `ScheduleCancellation` and `ScheduleCrashes` prove the properties of a schedule run, of its
  cancellation and of its end, `RunHistory` those of history rows and of the client that
  follows them.
- **Indexes and views against a simple specification.** `ScheduleOrdering` and `Schedules`
  (order by substring position, links, cron registry), `RepositoryList` (local/remote join),
  `Pagination`, `HistoryPages` and `BucketStats` (cursor and marker traversals), `Metrics`
  (metrics row against its log).
- **The sampled log.** `SampledLog` proves an amortised bound on what the writer lets through.

SHA-256 is an arbitrary function; a conditional put fails when the key exists
(section 13.1.2 of RFC 9110); tokens are refused from their expiry on (section 4.1.4 of
RFC 7519); JSON strings follow sections 5 and 7 of RFC 8259 and UUIDs section 4 of RFC 9562.
Every list of events is a run: an event that cannot happen in a state changes nothing.

## Where the code is weaker than it looks

Each of these is a proved lemma, beside the condition under which the property does hold.

- A WORM flag that is on stays on **if and only if** no customer request is between its
  check and a write that clears the flag or deletes the row (`WormIsPermanentIff`); the
  check and the write are separate statements.
- A lock can be lost under write-once tokens: the clean-up after a checksum mismatch may
  run after the wrong lock was deleted and a good one stored
  (`LateCleanupCanRemoveAGoodLock`). Any stored blob is safe while no deletion of it is
  admitted **if and only if** no request in flight owes a clean-up at its key or is
  already deleting it (`BlobIsSafeIff`).
- Where a clean-up fails in a write-once repository, the wrong bytes stay under that name
  for good and the right content is refused from then on (`FailedCleanUpIsPermanent`).
- The stored-bytes counter is right after a run **if and only if** the differences between
  what its deletions and late clean-ups expected and what they removed add up to nothing
  (`CounterIsRightIff`). Only an admitted deletion that overlaps another request on its key
  can disturb it (`StoredBytesConservation`), in a write-once repository only a lock's
  (`WriteOnceCounterIsExact`); two overlapping deletions of one config take its size off
  twice (`OverlappingDeletionsMiscount`). Bytes left by a failed clean-up are never counted.
- `canStart` excludes nobody between a check and its `startTask`: admitted operations
  exclude each other **if and only if** at most one has passed `canStart` (`ExclusionIff`;
  `TwoCallsBothAdmitted`, `RestoreOpensTheDoor`).
- Of two overlapping runs of a schedule, one can throw twice in `updateTask` and skip
  `endTask` (`CrashIsReachable`, `CrashNeedsOverlap`). Without new ticks or restores under
  its key a run never does **if and only if** it awaits a child whose promise never settles,
  or its entry is there and nobody else under the key is on the way to an `endTask`
  (`NeverCrashesIff`).
- Cancelling a schedule run aborts a backup it has started **if and only if** that backup
  had already called `startTask` (`CancelAbortsExactlyStarted`).
- The row of a refused create has no cron job until the next bootstrap: updating it throws
  with everything written, removing it throws with row and links gone. The registry mirrors
  the rows **if and only if** no such row is left (`MirrorIff`).
- The metrics history traversal omits exactly the rows that follow a page's last row within
  that row's millisecond (`HistoryTraversal`): it is complete **if and only if** no page
  boundary lies inside a millisecond (`CompleteIff`), and complete for every page size
  **if and only if** no two rows share one (`EveryLimitIff`).
- A client that loads run rows and replays later events holds the stored rows **if and only
  if** no run was between its insertion and its `RunCreate` at load time (such a run is
  listed twice) and no run still unfinished was marked by a bootstrap since (it is listed as
  Incomplete, because a bootstrap publishes nothing) (`ClientHoldsStoredRowsIff`).
- A metrics row can show a success after its last backup (`SuccessAfterBackup`). It never
  will **if and only if** it does not now and every failed backup still to be upserted ended
  no earlier than the success shown and than every success still to be upserted
  (`StaysInOrderIff`).
- With submissions in flight the metrics row ends as the projection of its log in every order
  **if and only if**, column by column, they agree among themselves and with what is
  written (`ConvergesIff`; `OverlappingSubmissionsDiverge`); a failed append leaves the row
  ahead of the log (`RowIsProjectionIff`).

## Model

| member | source | states |
|---|---|---|
| BlobSafety.BlobsAreNamedByTheirHash | packages/michael/internal/storage/s3.go:144-185 | in every run from an empty store, write-once or not, once no upload owes a clean-up and no clean-up has failed, every blob's type is legal and its hash is its name |
| BlobSafety.ContentAddressedRun | packages/michael/internal/handlers/blob.go:78-135 | at every moment an object under a wrong name is owned by an upload in flight or was left by a failed clean-up, and every key is one the routes can produce |
| BlobSafety.ContentAddressedStep | packages/michael/internal/storage/s3.go:148-182 | each single storage call keeps that invariant |
| BlobSafety.WriteOnceDurability | packages/michael/internal/handlers/blob.go:78-135 | under every interleaving in which later requests on a repository are write-once, the config and every good non-lock blob keep exactly their bytes |
| BlobSafety.WriteOnceStep | packages/michael/internal/storage/s3.go:144-185 | one call keeps the invariant behind it: every owed clean-up still owns the wrong object it put, each at a place of its own |
| BlobSafety.AcknowledgedUploadIsPermanent | packages/michael/internal/handlers/config.go:45-64 | an upload answered 200 in a write-once repository hit a free key and is there with the bytes sent after any later run |
| BlobSafety.DrainedIsWriteOnce | packages/michael/internal/handlers/blob.go:106-114 | with no old-authority request in flight and no clean-up owed, durability applies from this state on |
| BlobSafety.LateCleanupCanRemoveAGoodLock | packages/michael/internal/storage/s3.go:175-182 | a write-once run in which a correct lock disappears, for every name and every pair of a right and a wrong content |
| BlobSafety.BlobIsSafeIff | packages/michael/internal/handlers/blob.go:106-135 | a stored blob, lock or not, write-once or not, keeps its bytes in every continuation that admits no deletion of it exactly when no request in flight owes a clean-up at its key or is already deleting it |
| BlobSafety.LeftoverIsPermanent | packages/michael/internal/storage/s3.go:160-182 | wrong bytes under a protected name that nobody in flight will remove stay there through every write-once continuation, and every upload to that name, the right content included, is answered 403 |
| BlobSafety.FailedCleanUpIsPermanent | packages/michael/internal/storage/s3.go:175-182 | that is the case from the moment a clean-up fails |
| BlobSafety.TargetReachable | packages/michael/internal/handlers/server.go:90-110 | an admitted request addresses a legal key; no blob upload addresses the config; a write-once deletion addresses a lock |
| BlobStore.BlobKeyParts | packages/michael/internal/handlers/blob.go:80-82 | type and name can be read back from an object key, and no blob key is the config's |
| BlobStore.ArrivalIff | packages/michael/internal/handlers/server.go:90-110 | a request is let in, with its token's authority, exactly when it names the token's repository and a legal route and is no deletion that write-once forbids; it is answered 403 in that last case, 400 in the others, and nothing stored changes |
| StoredBytes.StoredBytesConservation | packages/michael/internal/handlers/blob.go:83-100 | after every run from an empty store in which no admitted deletion in the bucket overlaps another request on its key, however uploads, other keys and other buckets interleave, the counter summed over users, plus bytes failed clean-ups left, is the bytes stored plus the bytes of overwritten configs |
| StoredBytes.Accounting | packages/michael/internal/handlers/blob.go:83-135 | over every interleaving: up to what requests in flight owe, a run moves the gap by exactly the sum, over accepted deletions and late clean-ups, of the size expected minus the size removed |
| StoredBytes.CounterIsRightIff | packages/michael/internal/handlers/config.go:45-93 | after any run from an empty store the counter is right exactly when those mistakes add up to nothing |
| StoredBytes.WriteOnceCounterIsExact | packages/michael/internal/handlers/config.go:45-64 | in a write-once repository nothing is overwritten and only locks are deleted: if no lock's deletion overlaps another request on the lock, the counter is the stored bytes up to failed clean-ups |
| StoredBytes.BalancedRun | packages/michael/internal/handlers/blob.go:116-132 | from any state in which no deletion in the bucket shares its key, such a run mistakes nothing and leaves the gap between counter and truth unchanged, apart from objects pending clean-ups owe |
| StoredBytes.NothingOverwritten | packages/michael/internal/handlers/config.go:48-53 | write-once requests never overwrite, under every interleaving |
| StoredBytes.ServeConserves | packages/michael/internal/handlers/config.go:67-93 | one request served alone, whichever of its storage calls fail, is answered and changes the gap in no bucket |
| StoredBytes.OverlappingDeletionsMiscount | packages/michael/internal/handlers/config.go:75-90 | two deletions that both measured a config before either removed it leave the counter short by its size |
| Michael.S3Storage.PutObject | packages/michael/internal/storage/s3.go:144-185 | which of the four outcomes occurs, and what each leaves stored: the old object, the new one, or nothing after a mismatch |
| Michael.S3Storage.HeadObject | packages/michael/internal/storage/s3.go:98-110 | the size of an existing object, nothing otherwise |
| Michael.S3Storage.DeleteObject | packages/michael/internal/storage/s3.go:230-239 | removes the object or changes nothing; deleting an absent key succeeds |
| Michael.Server.SaveBlob | packages/michael/internal/handlers/blob.go:78-103 | store, counter and status are those of the step model served alone and the gap of every bucket is unchanged; the four answers, what each leaves stored, and that a 200 alone is counted, on the caller's account |
| Michael.Server.DeleteBlob | packages/michael/internal/handlers/blob.go:106-135 | 403 exactly for a write-once token on a type other than locks; otherwise 200 exactly when the object is there and storage accepts both calls, and then that object is gone and its size off the caller's account; as in the step model served alone |
| Michael.Server.SaveConfig | packages/michael/internal/handlers/config.go:45-64 | as `SaveBlob`, conditional exactly when write-once and without a hash to match |
| Michael.Server.DeleteConfig | packages/michael/internal/handlers/config.go:67-93 | as `DeleteBlob`, 403 exactly for a write-once token |
| Michael.SaveServed | packages/michael/internal/handlers/blob.go:83-102 | in the step model an upload served alone ends, for every authority, legal type and legal name, in 500, 403, 200 or 400 under the same exact conditions, with the same objects and counts |
| Michael.DeleteServed | packages/michael/internal/handlers/blob.go:111-134 | in the step model a deletion served alone is answered, for every authority, legal type and legal name, 403 exactly when the token is write-once and the type not locks, and 200 exactly when it removes the object |
| WormProtocol.WormEndToEnd | packages/yucca-api/src/services/repository.service.ts:35-71 | once a repository has been write-once for a token lifetime and old requests have drained, in every continuation the flag is on, only write-once tokens are accepted for it, and the config and all good non-lock blobs keep their bytes |
| WormProtocol.WormIsPermanentIff | packages/yucca-api/src/services/repository.service.ts:35-43 | a flag that is on stays on in every continuation exactly when no request that read the row before is about to clear it or delete the row |
| WormProtocol.CommittedRun | packages/yucca-api/src/services/repository.service.ts:64-71 | from such a state the row exists and is write-once in every run |
| WormProtocol.SealedRun | packages/yucca-api/src/services/repository.service.ts:45-62 | no token without writeOnce is signed any more, and those already signed end by the deadline |
| WormProtocol.SoundRun | packages/yucca-api/src/app.module.ts:27-31 | no token ever outlives the configured lifetime counted from now |
| WormProtocol.SwitchedOverRun | packages/michael/internal/auth/auth.go:42-61 | past the deadline every admitted request on the repository is write-once and durability holds, in every run |
| WormProtocol.SignedWithin | packages/yucca-api/src/services/repository.service.ts:48-52 | a token lives for the lifetime less at most two fractions of a second, and never longer |
| WormProtocol.ServedAtOnce | packages/yucca-api/src/services/repository.service.ts:22-71 | a customer call with no other in between does nothing for anybody but the owner; the owner's switches the flag on and never off, removes the row exactly when the flag is off, or yields a token which michael accepts at every moment of its lifetime and which lets requests in with exactly the user, the repository and the row's flag |
| WormProtocol.NewRepositoryOpens | packages/yucca-api/src/services/repository.service.ts:45-62 | from every reachable state: the first token a creator asks for opens the repository with the flag it was created with |
| WormProtocol.OnlyOwnersAct | packages/yucca-api/src/services/repository.service.ts:22-43 | in every run a repository's tokens are its owner's, its owner never changes, and only the write of a request of the owner changes or removes its row |
| WormProtocol.RepositoryService.Get | packages/yucca-api/src/services/repository.service.ts:22-29 | the row, or not found, or not the caller's |
| WormProtocol.RepositoryService.Update | packages/yucca-api/src/services/repository.service.ts:35-43 | succeeds exactly for the owner unless it would switch the flag off; the row then has the flag given, or the old one; every flag that was on is still on |
| WormProtocol.RepositoryService.Delete | packages/yucca-api/src/services/repository.service.ts:64-71 | succeeds exactly for the owner of a repository whose flag is off, and removes that row alone |
| WormProtocol.RepositoryService.CreateUrl | packages/yucca-api/src/services/repository.service.ts:45-62 | the owner, and nobody else, gets a token with the caller, the repository, the row's flag and one lifetime to run, less at most two fractions of a second |
| RunningTasks.RunningTasksRepository.StartTask | packages/yucca-sdk/orchestration-api/src/repositories/runningTasks.repository.ts:17-37 | replaces entry and controller of the key and listens to a signal that has not fired |
| RunningTasks.RunningTasksRepository.UpdateTask | packages/yucca-sdk/orchestration-api/src/repositories/runningTasks.repository.ts:39-55 | throws, changing nothing, exactly when there is no entry; otherwise only the entry's list changes |
| RunningTasks.RunningTasksRepository.EndTask | packages/yucca-sdk/orchestration-api/src/repositories/runningTasks.repository.ts:57-64 | removes entry and controller of the key, whoever created them |
| RunningTasks.RunningTasksRepository.CancelTask | packages/yucca-sdk/orchestration-api/src/repositories/runningTasks.repository.ts:66-73 | aborts the key's controller and all that listen to it, or throws when there is none |
| TaskSafety.TableSoundness | packages/yucca-sdk/orchestration-api/src/services/schedule.service.ts:108-134 | over all interleavings, overlapping restores and crashed schedule runs included, both maps have the same keys, each entry's last starter is live, and with nothing live both are empty |
| TaskSafety.SoundStep | packages/yucca-sdk/orchestration-api/src/services/repository.service.ts:483-503 | each step between two awaits keeps the table sound |
| TaskSafety.MutualExclusion | packages/yucca-sdk/orchestration-api/src/services/repository.service.ts:574-616 | without restores on a repository, and if nobody passes `canStart` inside another's window, at most one backup, prune or forget on it runs |
| TaskSafety.ExclusionIff | packages/yucca-sdk/orchestration-api/src/services/repository.service.ts:444-484 | the operations already admitted exclude each other, whatever their awaits do, exactly when at most one has passed `canStart` |
| TaskSafety.TwoCallsBothAdmitted | packages/yucca-sdk/orchestration-api/src/services/repository.service.ts:444-484 | two guarded calls in a row on a free repository always break exclusion |
| TaskSafety.RestoreOpensTheDoor | packages/yucca-sdk/orchestration-api/src/services/repository.service.ts:786-841 | a restore that ends beside a running operation lets the next call in next to it |
| ScheduleRuns.RegularRun | packages/yucca-sdk/orchestration-api/src/services/schedule.service.ts:108-134 | in every run each schedule run's children fill its slots from the left, settled slots record how the child ended, and the rest is Incomplete |
| ScheduleRuns.ChildrenNeverOverlap | packages/yucca-sdk/orchestration-api/src/services/schedule.service.ts:117-132 | of two backups started by one schedule run at least one is over |
| TaskOutcomes.HowOperationsEnd | packages/yucca-sdk/orchestration-api/src/services/repository.service.ts:483-503 | in every run, told by its events: a task has resolved exactly when an await succeeded between its `startTask` and `endTask`, and rejected exactly when one threw there or just before; a call has thrown exactly when its key had an entry or a read failed, and never settles exactly when its run could not be logged |
| TaskOutcomes.FinalStatus | packages/yucca-sdk/orchestration-api/src/services/schedule.service.ts:110-134 | the final list is a settled prefix, Complete in exactly the slots whose backup resolved in that sense and Failed in the others, then Incomplete, non-empty only after a cancellation |
| TaskEntries.EntriesTell | packages/yucca-sdk/orchestration-api/src/repositories/runningTasks.repository.ts:17-55 | in every run every entry tells its key, the type of its last starter, and only a list that is up to date, that of a schedule run in its loop; the only such run under its key is shown with its own repositories and statuses |
| ServedAlone.ScheduleAlone | packages/yucca-sdk/orchestration-api/src/services/schedule.service.ts:81-134 | from every reachable state: a tick left alone backs up every repository of the schedule in list order, records how each backup ended, and leaves no entry; an empty schedule does nothing |
| ServedAlone.OperationAlone | packages/yucca-sdk/orchestration-api/src/services/repository.service.ts:574-616 | a call left alone has no entry for exactly its number of awaits, then has it, and loses it with the next await, succeed or throw |
| ServedAlone.GoesOnIff | packages/yucca-sdk/orchestration-api/src/services/schedule.service.ts:122-132 | in every run a schedule run in its loop goes on exactly when its child's admission, or then its task, has been decided |
| ServedAlone.TickFailsEarly | packages/yucca-sdk/orchestration-api/src/services/schedule.service.ts:81-98 | a tick that cannot read the schedule or note its run starts nothing and leaves no entry |
| ScheduleCancellation.CancelledStartsNoMore | packages/yucca-sdk/orchestration-api/src/services/schedule.service.ts:117-120 | once its signal has fired a run starts no further backup |
| ScheduleCancellation.CancelAbortsExactlyStarted | packages/yucca-sdk/orchestration-api/src/repositories/runningTasks.repository.ts:17-37 | in every run: when a schedule run is cancelled, a backup it has started is aborted, then and in every continuation without a cancellation under its own key, exactly when that backup had called `startTask` |
| ScheduleCancellation.CancelByStage | packages/yucca-sdk/orchestration-api/src/repositories/runningTasks.repository.ts:66-73 | so of the backups not over, exactly those between `startTask` and `endTask` are aborted |
| ScheduleCancellation.RememberedRun | packages/yucca-sdk/orchestration-api/src/repositories/runningTasks.repository.ts:24-29 | in every run a controller listens or is aborted only after its `startTask`, and a child that started before its run's signal fired listens to it |
| ScheduleCrashes.NeverCrashesIff | packages/yucca-sdk/orchestration-api/src/services/schedule.service.ts:117-134 | in every reachable state: a schedule run in its loop never skips its `endTask`, as long as no restore and no further tick under its key begins, exactly when it awaits a child whose promise never settles, or its entry is there and nobody else under its key is on the way to an `endTask` |
| ScheduleCrashes.CrashIsReachable | packages/yucca-sdk/orchestration-api/src/services/schedule.service.ts:81-134 | for every schedule with a repository a run from nothing, two overlapping ticks of which each starts its first child, ends with `updateTask` throwing twice |
| ScheduleCrashes.CrashNeedsOverlap | packages/yucca-sdk/orchestration-api/src/services/schedule.service.ts:122-134 | in every run, a schedule run crashes only if at some moment of its loop another operation was live under its key |
| ScheduleOrdering.SubstringOrderIsListOrder | packages/yucca-sdk/orchestration-api/src/repositories/schedule.repository.ts:28-35 | sorting links by position in the JSON of a list of UUIDs gives the unlisted ids as they came, then the listed ones in list order |
| ScheduleOrdering.OccurrencesAligned | packages/yucca-sdk/orchestration-api/src/services/schedule.service.ts:233 | a UUID occurs in that JSON exactly at 2+39i for the positions i that hold it |
| ScheduleOrdering.IndexOfUuid | packages/yucca-sdk/orchestration-api/src/repositories/schedule.repository.ts:34 | `indexOf` is 2+39 times the first list position, or -1 |
| ScheduleOrdering.ReadBackIsTheList | packages/yucca-sdk/orchestration-api/src/repositories/schedule.repository.ts:15-36 | with links to exactly the listed ids, the list itself when duplicate-free, its first occurrences otherwise |
| ScheduleOrdering.ReadBackAfterRemoval | packages/yucca-sdk/orchestration-api/src/repositories/schedule.repository.ts:15-36 | after links have disappeared, the remaining ids in list order |
| ScheduleOrdering.SortIsStable | packages/yucca-sdk/orchestration-api/src/repositories/schedule.repository.ts:34 | the sort used orders by key and keeps the order of equal keys |
| ScheduleOrdering.StableSortUnique | packages/yucca-sdk/orchestration-api/src/repositories/schedule.repository.ts:34 | two stable sorts of the same rows are equal, so the result does not depend on the algorithm |
| ScheduleOrdering.EscapeRoundTrip | packages/yucca-sdk/orchestration-api/src/services/schedule.service.ts:233 | every string, of whatever characters, can be read back from between the quotes of its JSON |
| Schedules.ReadFromList | packages/yucca-sdk/orchestration-api/src/repositories/schedule.repository.ts:15-36 | however the database orders the links, a stored list of UUIDs that are exactly the links reads back as itself |
| Schedules.ScheduleRepository.Get | packages/yucca-sdk/orchestration-api/src/repositories/schedule.repository.ts:15-36 | the row with some enumeration of its links sorted by position, or not found |
| Schedules.ScheduleRepository.GetRepositoryIds | packages/yucca-sdk/orchestration-api/src/repositories/schedule.repository.ts:55-63 | each linked repository once, in no particular order |
| Schedules.ScheduleRepository.UpdateSchedule | packages/yucca-sdk/orchestration-api/src/repositories/schedule.repository.ts:65-67 | every column given is stored, every column left out and every other row keeps its value; without the row it throws and changes nothing |
| Schedules.ScheduleService.ApplyScheduleUpdate | packages/yucca-sdk/orchestration-api/src/services/schedule.service.ts:205-255 | from every tracked state: a completed update stores and answers each column given and keeps each left out, its job has the answered expression and runs unless paused, the links are the set of the list and the list is read back; on a row without a job it throws with all of that written; one that fails earlier keeps the rows and has at most added links |
| Schedules.ScheduleService.Relink | packages/yucca-sdk/orchestration-api/src/services/schedule.service.ts:209-231 | adding and removing the differences turns the links into the set of the list, and always succeeds for a duplicate-free list of known repositories |
| Schedules.ScheduleService.MirrorIff | packages/yucca-sdk/orchestration-api/src/services/schedule.service.ts:40-79 | the registry mirrors the rows exactly when no row of a refused create is left since the last bootstrap |
| Schedules.ScheduleRepository.UpdateAndGet | packages/yucca-sdk/orchestration-api/src/services/schedule.service.ts:236-238 | the answer shows each column given, the old value of each left out, and the stored list itself |
| Schedules.ScheduleService.AddLinks | packages/yucca-sdk/orchestration-api/src/services/schedule.service.ts:225-227 | for an existing row, completes exactly for distinct known repositories not yet linked; otherwise part of them is linked |
| Schedules.ScheduleService.Save | packages/yucca-sdk/orchestration-api/src/services/schedule.service.ts:233-250 | completes exactly when the row exists and has a job; row, answer and job have each column given and keep each left out; the list is read back |
| Schedules.ScheduleService.Bootstrap | packages/yucca-sdk/orchestration-api/src/services/schedule.service.ts:40-50 | whatever the rows have been replaced by, registry, known jobs and rows coincide again, with expression and running state |
| Schedules.ScheduleService.CreateSchedule | packages/yucca-sdk/orchestration-api/src/services/schedule.service.ts:153-188 | succeeds exactly for distinct known repositories, with a running job of the given expression; refused, it leaves the row, some links and no job; either way the jobs stay those of all other rows |
| Schedules.ScheduleService.RemoveSchedule | packages/yucca-sdk/orchestration-api/src/services/schedule.service.ts:257-275 | removes row, links and job, never a managed schedule's; without a job it throws after row and links are gone |
| Schedules.ScheduleService.UpdateCronJob | packages/yucca-sdk/orchestration-api/src/services/schedule.service.ts:70-79 | the job has the new expression and runs unless paused; an unknown job throws |
| RunHistory.RunsAreExact | packages/yucca-sdk/orchestration-api/src/repositories/runHistory.repository.ts:36-103 | in every run, database faults and bootstraps included, status and callbacks of every call are exactly what its body and its final update imply |
| RunHistory.FinalIsForever | packages/yucca-sdk/orchestration-api/src/repositories/runHistory.repository.ts:71-97 | after its final update a row never changes |
| RunHistory.NothingIncompleteAfterBootstrap | packages/yucca-sdk/orchestration-api/src/repositories/runHistory.repository.ts:201-207 | right after bootstrap exactly the Incomplete rows have become Failed, without an end, and all others are untouched |
| RunHistory.ClientHoldsStoredRowsIff | packages/yucca-sdk/orchestration-ui/src/lib/services/runHistory.service.ts:39-73 | a client that loads the rows and replays later events, bootstraps included, ends with the stored rows, each once, exactly when no run was between insertion and `RunCreate` at load time and no run still unfinished was marked by a bootstrap since |
| RunHistory.FollowIsReplay | packages/yucca-sdk/orchestration-ui/src/lib/services/runHistory.service.ts:39-73 | reducing each event as it is published equals replaying the log of events since the load |
| RunHistory.ReplayUnaffected | packages/yucca-sdk/orchestration-ui/src/lib/services/runHistory.service.ts:39-73 | events never create a list that was not loaded nor touch another repository's |
| RunHistory.RunHistoryRepository.CreateLog | packages/yucca-sdk/orchestration-api/src/repositories/runHistory.repository.ts:36-103 | one call served alone is the model's run of it and keeps every call exact: which callbacks fire, what is published, how the row ends for each outcome of body and updates, and that no other row changes |
| RunHistory.RunHistoryRepository.Conclude | packages/yucca-sdk/orchestration-api/src/repositories/runHistory.repository.ts:83-97 | Complete exactly when body and update succeed, Incomplete exactly when no update gets through, a second callback exactly after a failed update of a success |
| RunHistory.RunHistoryRepository.Finalize | packages/yucca-sdk/orchestration-api/src/repositories/runHistory.repository.ts:71-81 | only that row changes, and a client that patches the old row with the event holds the new one |
| RunHistory.RunHistoryRepository.MarkIncompleteAsFailed | packages/yucca-sdk/orchestration-api/src/repositories/runHistory.repository.ts:201-207 | every Incomplete row becomes Failed, all others stay, and every call stays exact |
| SampledLog.WritesAreBounded | packages/yucca-sdk/orchestration-api/src/utils/restic.ts:19-40 | the status events below 100% in the stream number at most 1 + elapsed seconds + 100 times the total variation of progress |
| SampledLog.BoundFrom | packages/yucca-sdk/orchestration-api/src/utils/restic.ts:28-36 | from a written event on, every further status event below 100% in the stream is paid for by a second or a hundredth of movement |
| SampledLog.StreamSamples | packages/yucca-sdk/orchestration-api/src/utils/restic.ts:19-40 | for every list of events: the stream holds, unchanged and in order, all events but those met while it was not writable and the statuses below 100% near the last status event in it, and nothing else |
| SampledLog.DroppedIsCloseToLastWritten | packages/yucca-sdk/orchestration-api/src/utils/restic.ts:28-32 | what a writable stream lacks is a status below 100% within 1000 ms and 0.01 of the last status event in it |
| SampledLog.OthersAreKeptInOrder | packages/yucca-sdk/orchestration-api/src/utils/restic.ts:19-40 | all other events and all status events at 100% or more come out, in order |
| SampledLog.SampledLogWriter.Write | packages/yucca-sdk/orchestration-api/src/utils/restic.ts:23-39 | appends the event or leaves stream and variables alone, the latter exactly for an unwritable stream or a status below 100% within 1000 ms and 0.01 of the variables; as in the model |
| Pagination.KeysetStability | packages/yucca-admin-api/src/repositories/repository.repository.ts:30-45 | whatever is inserted or deleted between pages, ids come out strictly ascending, each was in a table seen, and every row present throughout comes out once the last page is reached |
| Pagination.FixedTableIsListedWhole | packages/yucca-admin-api/src/repositories/user.repository.ts:12-22 | over a fixed table the traversal ends within one page per row plus one and yields, ascending, exactly the rows of the owner asked for |
| Pagination.PageShape | packages/yucca-admin-api/src/utils/pagination.ts:12-16 | a page holds the smallest ids beyond the cursor, as many as the limit allows; its cursor is its last id; it has one exactly when something is left |
| Pagination.LimitZeroListsNothing | packages/yucca-admin-api/src/utils/pagination.ts:12-16 | a limit of 0 ends the traversal at once with nothing |
| HistoryPages.HistoryTraversal | packages/yucca-api/src/repositories/repositoryMetricsHistory.repository.ts:16-28 | the traversal ends, strictly descends, and omits exactly the rows that follow a page's last row within its millisecond |
| HistoryPages.CompleteIff | packages/yucca-api/src/repositories/repositoryMetricsHistory.repository.ts:16-28 | for every table and every limit of at least 1 it yields every row exactly when no page boundary lies inside a millisecond |
| HistoryPages.EveryLimitIff | packages/yucca-api/src/repositories/repositoryMetricsHistory.repository.ts:16-28 | every limit yields every row exactly when no two rows share a millisecond |
| HistoryPages.CompleteWhenMillisecondsDiffer | packages/yucca-api/src/repositories/repositoryMetricsHistory.repository.ts:16-28 | the case of the first in which there is no shared millisecond at all |
| HistoryPages.SameMillisecondIsLost | packages/yucca-api/src/utils/pagination.ts:12-19 | of any two neighbouring rows in one millisecond the second is missing, after all rows up to the first, when a page ends between them |
| HistoryPages.PageShape | packages/yucca-api/src/utils/pagination.ts:12-19 | for a limit of at least 1 a page never throws, is descending, as long as the limit allows, and has a cursor, its last row's, exactly when something is left |
| HistoryPages.LimitZeroThrowsIff | packages/yucca-api/src/utils/pagination.ts:12-19 | a limit of 0 throws exactly when there is a row to list |
| BucketStats.GetBucketStatsStream | packages/yucca-metrics-worker/src/repositories/rgw.repository.ts:31-55 | for any page size of at least 1 the marker-paged stream ends and yields exactly the bulk listing |
| BucketStats.GetBucketStats | packages/yucca-metrics-worker/src/repositories/rgw.repository.ts:19-29 | the generator's loop yields the bulk listing |
| BucketStats.AllStatsDescribe | packages/yucca-metrics-worker/src/repositories/rgw.repository.ts:22-28 | that listing has every bucket once, in order, with its number of objects and their actual size, a missing one as zero |
| BucketStats.RequestIsNextPage | packages/yucca-metrics-worker/src/repositories/rgw.repository.ts:35-53 | the request after the last bucket seen returns exactly the next buckets, at most a page of them, and a short page is the last |
| RepositoryList.GetRepositories | packages/yucca-sdk/orchestration-api/src/services/repository.service.ts:137-225 | the loops over the mutable record compute the join expression |
| RepositoryList.JoinPromises | packages/yucca-sdk/orchestration-api/src/services/repository.service.ts:137-225 | fails exactly when a local row names an unknown backend; otherwise every local row once, in order, then every unclaimed listed pair once, as last reported, in the order of backends and listings; length is local + listed - matched |
| RepositoryList.ListedPairIsOnlineOnce | packages/yucca-sdk/orchestration-api/src/services/repository.service.ts:162-220 | each pair listed by a reachable backend is in exactly one online entry |
| RepositoryList.LocalEntryDescribes | packages/yucca-sdk/orchestration-api/src/services/repository.service.ts:162-204 | a local entry carries its backend's type, its policy and its paths in table order, and is online exactly when its pair is listed and no earlier row claimed it, with the name and flag listed last |
| RepositoryList.TailShape | packages/yucca-sdk/orchestration-api/src/services/repository.service.ts:206-220 | the remaining entries are online, without configuration, and are the unclaimed listed pairs, each once |
| RepositoryList.OnlineTakesOne | packages/yucca-sdk/orchestration-api/src/services/repository.service.ts:172-187 | each online local row uses up exactly one listed pair |
| RepositoryList.JoinLocal | packages/yucca-sdk/orchestration-api/src/services/repository.service.ts:162-204 | deleting from the record row by row leaves what no row so far has claimed |
| RepositoryList.ListRemotes | packages/yucca-sdk/orchestration-api/src/services/repository.service.ts:144-156 | the record holds, per backend, each listed id once with the value listed last, and nothing for a backend that throws |
| Metrics.MetricsService.Submit | packages/yucca-api/src/services/metrics.service.ts:50-99 | refused submissions change nothing; a failed upsert changes nothing and a failed append leaves the row ahead, as in the model; a completed one brings its columns of its repository in step with the history and no other |
| Metrics.MetricsService.SubmitBackupStart | packages/yucca-api/src/services/metrics.service.ts:50-61 | the owner's sets the last start in row and log, nothing else; refusals and failures of either statement as in the code |
| Metrics.MetricsService.SubmitBackupEnd | packages/yucca-api/src/services/metrics.service.ts:63-87 | the owner's sets last backup and duration, and the last success to the same moment exactly for a success, in row and log, nothing else |
| Metrics.MetricsService.SubmitRepositorySize | packages/yucca-api/src/services/metrics.service.ts:89-99 | the owner's sets the size in row and log, nothing else |
| Metrics.ProjectionStep | packages/yucca-api/src/services/metrics.service.ts:63-80 | the partial upsert applied to the projection is the projection of the extended log, and other repositories are untouched |
| Metrics.RowIsProjectionIff | packages/yucca-api/src/services/metrics.service.ts:50-99 | in every run, overlaps and failures included, the row is the projection of the history exactly when every column's last upserted value is its last appended one |
| Metrics.ConvergesIff | packages/yucca-api/src/services/metrics.service.ts:56-58 | in every reachable state: the row ends as the projection in every order of the statements in flight exactly when, column by column, the submissions in flight agree among themselves and with what is written |
| Metrics.RowIsProjection | packages/yucca-api/src/services/metrics.service.ts:50-99 | in every run in which no two submissions of a common column of the repository overlap and none of its statements fails, whatever happens to other repositories, its row is the projection of the history once none of its submissions is in flight |
| Metrics.StaysInOrderIff | packages/yucca-api/src/services/metrics.service.ts:63-80 | in every state: the repository's row goes on showing no success after its last backup, whatever becomes of the submissions in flight, exactly when it shows none now and every failed backup still to be upserted ended no earlier than the success shown and than every success still to be upserted |
| Metrics.SuccessAfterBackup | packages/yucca-api/src/services/metrics.service.ts:63-80 | for any two times, a run in which the failure that ended first is upserted last leaves a row with a success after its last backup |
| Metrics.RowSuccessNotAfterBackup | packages/yucca-api/src/services/metrics.service.ts:69-80 | in every run in which the repository's backups end one after another by a clock that does not go back, failures and other repositories included, its row never shows a success after its last backup |
| Metrics.SuccessNotAfterBackup | packages/yucca-api/src/services/metrics.service.ts:69-80 | a log in which one repository's backup times ascend implies a row of it in which the last success never exceeds the last backup |
| Metrics.OverlappingSubmissionsDiverge | packages/yucca-api/src/services/metrics.service.ts:89-96 | for any two different sizes submitted for one repository and both in flight, some completion leaves a row that is not the projection |
| Metrics.MetricsService.SaveRow | packages/yucca-api/src/repositories/repositoryMetrics.repository.ts:11-18 | inserts with size 0 by default or sets the given columns only |

## Left out

- packages/restic-api: an earlier version of michael; modelling it would repeat the write-once store.
- HTTP routing, JWT signatures, base64 and header parsing, S3, Postgres, SQLite, restic, OIDC and the device flow: foreign code, present only as contracts (atomic conditional put, idempotent delete, keys and foreign keys, expiry check, unforgeable tokens). A token whose claims michael cannot parse is a token that is never presented.
- Chunked uploads: a put is accepted only when the announced length is the body's length, so an unknown length fails.
- Michael without metrics: the counter is always on.
- Repository creation and deletion in michael, and reads of blobs and config: they change no object. Creation only makes a missing bucket (until then storage calls on it fail), deletion is not implemented.
- Blob listing: it reads one page from the store, whose completeness that code does not decide.
- Admin override of the write-once flag and admin repository deletion: outside the customer protocol and excluded as steps.
- Clock skew between the token issuer and michael: both read one clock.
- Restore of the orchestrator database and migrations: SQL over whatever schema is found. `Bootstrap` is proved for any rows the tables may hold afterwards.
- TaskLifecycle awaits: where the code awaits only under a condition, or several times in a row, the model has one await that may fail; this keeps every order of the table's calls. The settling of a task promise is the same step as its `endTask`.
- Log ids in task entries: the model's operations start their tasks without one; the table itself takes it.
- runSchedule as a loop: it is a program counter in the interleaving model, since its properties are about what runs between its awaits.
- Cron expressions: taken as valid. For one the cron library rejects, `createCronJob` throws after it has added the id to the known jobs and before it has registered one; the model's `Registered` then fails, and the next bootstrap throws when it deletes the job that was never registered. An update with such an expression throws with row and links written.
- Schedules.ScheduleService.ApplyScheduleUpdate: an update without any field is modelled as setting nothing; whether the query builder accepts it is foreign code.
- The order of repositories right after createSchedule: the stored ordering is empty, so it is the database's.
- The Immich guard on schedule updates and the reconciliation of path rows (repository updates, Immich sync): set differences that would only add easy members.
- Run history rows removed with their repository, log files, and the byte-level log stream.
- Local metrics in the repository list entries, integer-like or inherited property names as record keys.
- SampledLog: percentages are reals; rounding of binary floats at the 0.01 threshold is not modelled.
- A gateway asked for zero entries per page: the page size is at least 1.
- Telemetry, gauges, structured logs and metric attributes.
- The user interface apart from the two run-history reducers.
- Deployment files and the benchmark script.
