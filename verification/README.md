# Protocol models of the backend

This project models the concurrent protocols at the heart of the backend and proves what they
guarantee: the tombstoned cache, the upload lifecycle, post-commit dispatch, the mail and audit
outboxes, the Redis lock, user offboarding, audit and user pagination, and three smaller cores (the
rejection-burst window, canonical JSON equality and the generated-region rewriter).

Each protocol is a state and a total step function `Apply`: one step is one Redis command (or
`MULTI`), one SQL statement or transaction, one storage or provider call, or one JavaScript run
between two awaits. An event that is not enabled changes nothing, so `Exec` over an arbitrary
sequence of events ranges over every interleaving, every crash and every clock. Theorems quantify
over all such sequences. Where a guarantee depends on timing or on the environment, the theorem is
an "exactly when": it holds in every run if and only if a stated condition on the configuration
holds, and a concrete run shows the failure otherwise. Operations that the code performs in place
are also given as classes whose methods are proved against the functions the protocol uses. Beside
what every run keeps, each protocol has theorems on what it brings about: after any history, the
steps of one job that nothing disturbs leave exactly a stated state, for every outcome of its checks.

| module | subject |
|---|---|
| `TombstoneCache` | read, populate and invalidate one expiring key |
| `RedisLock` | `SET NX EX` lock with nonce-guarded release |
| `RejectionBurst` | the unhandled-rejection window counter |
| `UploadQuota` | pending-upload reservations under two advisory locks |
| `UploadPublish`, `UploadEffects` | confirmation, sweeping and publication of pending objects, and what each job does |
| `UploadSweep` | keyset offboarding sweep with bounded fan-out |
| `CommitDispatch`, `DispatchProtocol`, `DispatchEffects` | the durable task list, alone and interleaved, and what each flush does |
| `OnCommitPool` | the in-memory flush and its shared-cursor workers |
| `MailOutbox`, `MailDelivery` | the mail outbox, alone and under workers and sweepers |
| `AuditOutbox`, `AuditDrains` | the audit outbox, alone and under concurrent drains |
| `UserOffboarding` | the resumable user-deletion sequence |
| `AuditPages`, `AuditWalk` | filtered keyset pages and whole walks over changing tables |
| `AuditCursors` | filter fingerprints and chains of requests |
| `UserPages` | the user list and its walks |
| `CanonicalJson`, `JsonText`, `JsonEquality` | `canonical`, `JSON.stringify` and `deepEqual` |
| `GeneratedRegion` | `rewriteRegion` and `generateDocs` |
| `StrictSort`, `Prelude` | shared vocabulary |

## What the proofs found

- **Audit pagination.** A cursor keeps only milliseconds of a microsecond timestamp and compares
  with `<`. It hides a later row exactly when both lie in one millisecond and the later row is not
  created on that millisecond with a smaller id (`AuditWalk.SkipsExactlyWhen`). Whatever is inserted
  and deleted between the pages and whatever page sizes the requests ask for, every matching row that
  stays is listed exactly when no matching row's cursor hides a later one
  (`AuditWalk.ChangingWalkCompleteExactlyWhen`). The comments promise more.
- **Audit cursors.** The fingerprint covers the dates as written, so a cursor is refused by a request
  that spells the same instant differently (`AuditCursors.OtherSpellingIsRefused`).
- **User list.** The same truncation in ascending order lets rows of the boundary's millisecond
  through again. The comment promises only that the cursor's own row is not repeated, and that holds;
  other rows are. No user is listed twice exactly when no matching user but the last lets an earlier
  one through its cursor (`UserPages.NothingRepeatsExactlyWhen`). Walks whose pages hold at least
  `limit` rows end and list every user that matches throughout, over users of whom at most `m` share a
  millisecond, exactly when `m` is at most `limit`; otherwise a walk can alternate between two cursors
  forever (`UserPages.WalkCompletesExactlyWhenPagesHoldMillisecond`).
- **Commit dispatch.** The acknowledgement reads `LLEN` and deletes the list in a later command. A
  task appended in between is lost. The list is durable in every run exactly when appends precede
  the request's flush and follow each other within the recovery age
  (`DispatchProtocol.DurableExactlyWhenQuiet`).
- **Upload sweeper.** It checks the header but copies without the ETag, so its safety rests on the
  presigned URL having expired (`UploadPublish.FinalObjectsVerifiedExactlyWhenPinned`).
- **Audit drain.** The attempt cap compares the already incremented counter plus one, so a row is
  given up after `maxAttempts - 1` claims although the setting is documented as the number of
  attempts (`AuditDrains.PendingAttemptsExactly`).
- **Mail delivery.** Marking a row sent is inside the worker's `try`. When that update takes effect but
  its reply is lost, a delivered row ends FAILED exactly if the attempt was the final one
  (`MailDelivery.LostReplyFailsExactlyOnFinalAttempt`).
- **`deepEqual`.** A `__proto__` member is assigned to the prototype and ignored
  (`JsonEquality.DeepEqualIsEqualityExactlyWhen`).
- **User offboarding.** The branch that re-reads a user whose marking failed never lets a run
  through, because the re-read hides deleted rows (`UserOffboarding.EveryRunFollowsScript`).
- **Offboarding sweep.** It ends on all tables that gain at most `k` of the owner's rows past the
  cursor between two reads exactly when `k` is less than a page (`UploadSweep.SweepEndsExactlyWhen`).
  The final soft-delete hides rows whose object was never passed to deletion: a confirmation that
  moves a row to its final key after its page was read leaves the published object behind
  (`UploadSweep.ConfirmedMeanwhileKeepsObject`). Every hidden row's key was passed, over all sweeps
  with at most `k` rows that were not there under their key in every snapshot, exactly when `k` is
  zero (`UploadSweep.AllPassedExactlyWhenNoneLate`).

## Model

| member | source | states |
|---|---|---|
| `TombstoneCache.CacheKey.Read` | src/infrastructure/cache/redis-tombstone-cache.util.ts:24-38 | an absent, expired, empty or tombstone text and a Redis error are all misses; anything else is returned verbatim |
| `TombstoneCache.CacheKey.Populate` | src/infrastructure/cache/redis-tombstone-cache.util.ts:53-65 | `SET NX`: the text is stored with its TTL exactly when the TTL is positive, Redis answers and no live entry, tombstone included, is there; otherwise the key stays |
| `TombstoneCache.CacheKey.Invalidate` | src/infrastructure/cache/redis-tombstone-cache.util.ts:95-105 | the key becomes a tombstone unconditionally; a Redis error leaves it |
| `TombstoneCache.ConsistentAlways` | src/infrastructure/cache/redis-tombstone-cache.util.ts:24-105 | in every interleaving every stored population and outstanding reader holds a committed version with its exact text, and no entry outlives its TTL |
| `TombstoneCache.FreshAlways` | src/infrastructure/cache/redis-tombstone-cache.util.ts:24-105 | when the tombstone outlives the populate delay, in every run a reader with a superseded version finds the key occupied until it may no longer populate, so hits are fresh |
| `TombstoneCache.FreshnessExactlyWhenTombstoneOutlivesDelay` | src/infrastructure/cache/redis-tombstone-cache.util.ts:24-105 | in every run no hit is older than a write whose invalidation landed, if and only if the tombstone TTL strictly exceeds the populate delay |
| `TombstoneCache.StaleRunIsStale` | src/infrastructure/cache/redis-tombstone-cache.util.ts:53-65 | the run that serves a superseded value when the tombstone lapses before the populate |
| `TombstoneCache.StalenessBoundIsExact` | src/infrastructure/cache/redis-tombstone-cache.util.ts:53-105 | even with every invalidation lost, a served value was the committed one less than `bound` ago in every run, if and only if `bound` is at least delay plus populate TTL |
| `TombstoneCache.MissesExactlyWhen` | src/infrastructure/cache/redis-tombstone-cache.util.ts:24-38 | after any history a reader goes to the database exactly when the key is absent, expired, empty or a tombstone, or Redis fails |
| `TombstoneCache.ReadThroughServes` | src/infrastructure/cache/redis-tombstone-cache.util.ts:24-65 | from every state a miss, load and populate on a free key make the latest committed text the answer for the whole TTL, unless that text is empty or the tombstone |
| `TombstoneCache.InvalidationHides` | src/infrastructure/cache/redis-tombstone-cache.util.ts:95-105 | once an invalidation lands every read misses for the least tombstone TTL, whatever readers and other writers do in any continuation |
| `RedisLock.Server.SetNx` | src/infrastructure/cache/redis-lock.util.ts:63 | acquires exactly when there is no hold or it has expired, then with the nonce and the full TTL; otherwise the key stays |
| `RedisLock.Server.ReleaseIfHeld` | src/infrastructure/cache/redis-lock.util.ts:6-7 | deletes the key if and only if it holds, unexpired, the caller's nonce; otherwise the key stays |
| `RedisLock.AcquireLoop` | src/infrastructure/cache/redis-lock.util.ts:57-76 | succeeds exactly on the attempt that finds the key free, gives up only past the deadline, and retries only while the polls made fit in the wait |
| `RedisLock.NoncesAlwaysUnique` | src/infrastructure/cache/redis-lock.util.ts:58-64 | in every run live nonces are distinct and no waiter's nonce is in the key |
| `RedisLock.ReleaseNeverRemovesAnother` | src/infrastructure/cache/redis-lock.util.ts:6-87 | in every run a release leaves every other client's lock in place, even after its own TTL lapsed |
| `RedisLock.OwnersAlwaysHold` | src/infrastructure/cache/redis-lock.util.ts:63-87 | in every run, whatever the section lengths, a client that acquired owns the key until its TTL has passed |
| `RedisLock.ReleaseFreesExactlyWithinTtl` | src/infrastructure/cache/redis-lock.util.ts:78-87 | in every run a release that reaches Redis frees the key if and only if it comes within the TTL of its acquisition; later it changes nothing |
| `RedisLock.ReleasedLockIsAcquirable` | src/infrastructure/cache/redis-lock.util.ts:62-87 | after such a release any waiter's next attempt, at the same instant, acquires with its own nonce and a full TTL |
| `RedisLock.LeavingKeepsKey` | src/infrastructure/cache/redis-lock.util.ts:74-87 | a release that fails in Redis, a client that gives up and one that crashes leave the key as it is |
| `RedisLock.ExclusionExactlyWhenSectionsFitTtl` | src/infrastructure/cache/redis-lock.util.ts:53-87 | no two critical sections overlap in any run, if and only if every section ends strictly within its TTL |
| `RedisLock.LapsedLockIsAcquirable` | src/infrastructure/cache/redis-lock.util.ts:53-75 | however its holder ended, and even while a stalled one still runs, a lock can be acquired once a TTL has passed |
| `RejectionBurst.Handler.Handle` | src/infrastructure/observability/unhandled-rejection.handler.ts:43-73 | the closure's window after one call and whether that call exits |
| `RejectionBurst.Drive` | src/infrastructure/observability/unhandled-rejection.handler.ts:43-73 | the first exiting call of a whole run, or none |
| `RejectionBurst.ExitMeansBurst` | src/infrastructure/observability/unhandled-rejection.handler.ts:43-73 | an exit means the last 20 rejections lie within 60 s |
| `RejectionBurst.SpanBound` | src/infrastructure/observability/unhandled-rejection.handler.ts:43-73 | at most 37 rejections fit in a 60 s span without an exit |
| `RejectionBurst.BoundIsAttained` | src/infrastructure/observability/unhandled-rejection.handler.ts:43-73 | a run of 37 rejections in one span without an exit |
| `RejectionBurst.BurstThresholdIsTight` | src/infrastructure/observability/unhandled-rejection.handler.ts:43-73 | `n` rejections can pass within 60 s without an exit if and only if `n` is at most 37 |
| `UploadQuota.Uploads.Reserve` | src/domains/upload/upload.service.ts:254-325 | a reservation succeeds exactly when both counts (PENDING rows that are not deleted, of the organization and of the user in that scope) are below their caps, inserts exactly one PENDING row, and otherwise changes nothing and names the exceeded quota with its count |
| `UploadQuota.LocksAlwaysOk` | src/domains/upload/upload.repository.ts:170-188 | in every run no two open reservations hold the same lock |
| `UploadQuota.QuotaNeverExceeded` | src/domains/upload/upload.service.ts:235-325 | in every interleaving no organization has more committed pending rows than its cap, and no user more than the user cap in one scope |
| `UploadQuota.WaitsForIsAcyclic` | src/domains/upload/upload.service.ts:254-263 | chains of waiting transactions have no repetition and at most three members |
| `UploadQuota.SomeReservationCanStep` | src/domains/upload/upload.service.ts:254-263 | from every open reservation a chain of waits ends at one that can run its next statement |
| `UploadQuota.StepMakesProgress` | src/domains/upload/upload.service.ts:254-325 | a statement moves its own reservation forward or ends it, and touches no other |
| `UploadQuota.CommitIsReservation` | src/domains/upload/upload.service.ts:254-325 | in every interleaving a commit inserts, at a fresh id, exactly one PENDING row of its own user and organization, at a moment when both counts are below their caps: it is the reservation run by itself |
| `UploadQuota.ReservationExactly` | src/domains/upload/upload.service.ts:254-325 | from every state in which its locks are free, a reservation left alone adds exactly its own PENDING row if both counts are below their caps, and otherwise leaves everything as it was |
| `UploadQuota.EndedRowFreesItsPlace` | src/domains/upload/upload.repository.ts:190-225 | a row that is confirmed, failed, deleted or removed leaves the counts of its organization and user, and no other row does |
| `UploadPublish.StripUndoesBuild` | src/domains/upload/upload.constants.ts:147-159 | stripping undoes building, building undoes stripping on pending keys, and stripping changes exactly the pending keys |
| `UploadPublish.Bucket.Copy` | src/domains/upload/upload.service.ts:670-717 | the target gets the source's bytes under the given type exactly when the source exists and matches the ETag, if one is given; otherwise nothing changes |
| `UploadPublish.Bucket.Publish` | src/domains/upload/upload.service.ts:670-729 | an undisturbed publication succeeds exactly for acceptable bytes, puts them (sanitized for an SVG) verified at the target and touches nothing else; a failed one changes nothing |
| `UploadPublish.UploadedRowsAlwaysFinal` | src/domains/upload/upload.repository.ts:153-160 | in every run an UPLOADED row refers to a published final key, never to a pending key |
| `UploadEffects.ConfirmationExactly` | src/domains/upload/upload.service.ts:574-661 | after any history an undisturbed confirmation of a PENDING row leaves it UPLOADED at its final key, the object to serve there (sanitized for an SVG) and the pending object gone, if the object has the declared size and reported type and passes its check; otherwise the row FAILED; nothing else changes |
| `UploadEffects.UploadIsServedExactlyWhenAccepted` | src/domains/upload/upload.service.ts:574-729 | reserve, put and confirm, after any history: the put bytes are served at the final key by an UPLOADED row if and only if they are accepted, and otherwise the row is FAILED and nothing is served |
| `UploadEffects.LegacyRowIsRefused` | src/domains/upload/upload.service.ts:600-622 | a row created without a pending key is FAILED by its confirmation, whatever lies at its key |
| `UploadEffects.SweepExactly` | src/domains/upload/workers/upload-pending-sweep.processor.ts:77-248 | after any history the undisturbed sweep of an old PENDING row fails SVGs, rows without pending key and unaccepted objects, deletes the row of a missing object, and confirms the others |
| `UploadEffects.MarkTakesEffect` | src/domains/upload/upload.repository.ts:153-160 | in every run a job that has published marks its row UPLOADED at the key without the prefix exactly when the row is not deleted and, for the sweeper, still PENDING; otherwise no row changes |
| `UploadEffects.RejectTakesEffect` | src/domains/upload/upload.repository.ts:139-146 | in every run a rejected job fails its row, a deleted one only for the sweeper, and ends |
| `UploadEffects.TakesUpExactly` | src/domains/upload/upload.service.ts:588-595 | in every run a confirmation takes up exactly a live PENDING row, and a sweep one that is also older than its age |
| `UploadEffects.SweepMovesOn` | src/domains/upload/workers/upload-pending-sweep.processor.ts:116-128 | in every run the sweeper leaves the row of a copy that failed as it is |
| `UploadEffects.ReplacedObjectIsRefused` | src/domains/upload/upload.service.ts:684-704 | in every run a pinned copy whose object has gone or changed publishes nothing, and the row is then FAILED |
| `UploadPublish.AlwaysSafe` | src/domains/upload/upload.service.ts:574-729 | under the pinning condition, in every run every job past its check can only write verified bytes |
| `UploadPublish.UnpinnedRunFails` | src/domains/upload/upload.service.ts:670-717 | without an ETag the client's late write is published unverified |
| `UploadPublish.LateWriteRunFails` | src/domains/upload/workers/upload-pending-sweep.processor.ts:77-187 | a write during a sweep is published unverified when the presigned URL outlives the sweep age |
| `UploadPublish.FinalObjectsVerifiedExactlyWhenPinned` | src/domains/upload/upload.service.ts:528-729 | every object ever at an issued final key is verified in every run, if and only if storage always returns ETags and the write window ends by the sweep age |
| `UploadSweep.PageIs` | src/domains/upload/upload.repository.ts:237-283 | a page holds exactly the owner's active rows past the cursor up to its last row, or all of them when short, in id order |
| `UploadSweep.SweepAscends` | src/domains/upload/upload.service.ts:802-834 | ids increase strictly across all pages, whatever changes between reads |
| `UploadSweep.SweptExactlyWhenCovered` | src/domains/upload/upload.service.ts:802-834 | a row's key is passed to deletion if and only if the row is active in the snapshot whose page covers its id |
| `UploadSweep.PersistentRowSweptOnce` | src/domains/upload/upload.service.ts:802-834 | a row that stays active and unchanged is passed to deletion exactly once |
| `UploadSweep.KeysAt` | src/domains/upload/upload.service.ts:822-825 | the keys handed to deletion are the keys of the rows, one for each, in order |
| `UploadSweep.DeletedKeysExactly` | src/domains/upload/upload.service.ts:802-834 | a key is passed to deletion if and only if some row of the owner carries it undeleted in the snapshot whose page covers that row |
| `UploadSweep.PersistentKeyDeleted` | src/domains/upload/upload.service.ts:802-834 | the key of a row that is undeleted and unchanged in every snapshot is passed to deletion, at the one position that stems from that row |
| `UploadSweep.SweepEnds` | src/domains/upload/upload.service.ts:808-830 | when at most `k` rows of the owner, fewer than a page, become active past the cursor between two reads, the sweep ends, and each full page took `500 - k` off the rows found at first |
| `UploadSweep.SweepEndsExactlyWhen` | src/domains/upload/upload.service.ts:808-830 | every sweep under that insert rate ends, if and only if `k` is less than a page |
| `UploadSweep.HiddenWithObjectExactlyWhen` | src/domains/upload/upload.service.ts:831-834 | row by row: a row that the final soft-delete hides never had its key passed to deletion, if and only if the snapshot covering it did not hold it active under that key |
| `UploadSweep.ConfirmedMeanwhileKeepsObject` | src/domains/upload/upload.service.ts:802-834 | the run in which a confirmation re-keys a row after its page was read: the row is hidden and its published object was never passed to deletion |
| `UploadSweep.AllPassedExactlyWhenNoneLate` | src/domains/upload/upload.service.ts:802-834 | over all sweeps with at most `k` hidden rows that some snapshot did not hold active under their key, every hidden row's key was passed to deletion, if and only if `k` is zero |
| `UploadSweep.EndlessInserts` | src/domains/upload/upload.service.ts:808-830 | a table that grows by a page before every read never yields a short page |
| `UploadSweep.DeleteObjects` | src/domains/upload/upload.service.ts:837-857 | the chunks in flight together are the consecutive runs of ten keys, the last one shorter |
| `UploadSweep.SoftDeleteAll` | src/domains/upload/upload.repository.ts:285-301 | every active row of the owner is marked deleted, the others stay, and the count is that of the marked rows |
| `UploadSweep.TombstoneAll` | src/domains/upload/upload.service.ts:802-906 | for every sweep that ends, the loop passes to deletion exactly one key per swept row, that row's own, in order and in bounded chunks; then exactly the owner's undeleted rows, read off their columns, become deleted, and their number is returned |
| `UploadSweep.NothingStaysActive` | src/domains/upload/upload.repository.ts:285-301 | the soft-delete leaves no active row of the owner, and repeats as the identity |
| `CommitDispatch.EventBus.Schedule` | src/core/events/event-bus.ts:277-300 | a stored task joins the end of its request's list, indexed at the present time, and the request is marked; a missing request id or a thrown append queues it in memory, also when the append took effect |
| `CommitDispatch.EventBus.Acknowledge` | src/infrastructure/queue/commit-dispatch/commit-dispatch.store.ts:123-139 | one equal entry leaves its own list, and an emptied list leaves the recovery index |
| `CommitDispatch.EventBus.FlushDurable` | src/core/events/event-bus.ts:111-131 | the marker goes; each task that succeeds is executed in order and acknowledged, each that fails stays listed; other requests are untouched |
| `CommitDispatch.EventBus.ClearMarker` | src/core/events/event-bus.ts:168-170 | only the marker goes |
| `CommitDispatch.EventBus.DiscardOnRollback` | src/core/events/event-bus.ts:185-192 | marker and list go, or only the marker when the purge fails |
| `CommitDispatch.WithoutRemovesOne` | src/infrastructure/queue/commit-dispatch/commit-dispatch.store.ts:134 | `LREM 1` removes exactly one equal entry, or nothing |
| `CommitDispatch.FlushConserves` | src/core/events/event-bus.ts:115-131 | an uninterrupted flush conserves tasks: listed before is listed after plus succeeded; the request leaves the index exactly when all succeeded |
| `CommitDispatch.WithoutRemovesFirst` | src/infrastructure/queue/commit-dispatch/commit-dispatch.store.ts:134 | `LREM 1` removes the first equal entry and keeps the order of the others |
| `CommitDispatch.SucceededInOrder` | src/core/events/event-bus.ts:115-131 | whichever tasks succeed, a flush executes them in the order of the list |
| `CommitDispatch.FlushExecutesInOrder` | src/core/events/event-bus.ts:111-131 | tasks scheduled in an order are listed and executed in that order, and nothing is left when all succeed |
| `DispatchProtocol.AcknowledgedHasSucceeded` | src/core/events/event-bus.ts:117-122 | in every run appended tasks are exactly the listed, removed and dropped ones, and no task was removed more often than it succeeded |
| `DispatchProtocol.AlwaysDurable` | src/infrastructure/queue/commit-dispatch/commit-dispatch.store.ts:31-139 | under the append discipline, in every run with any crashes, every appended task of a request not rolled back is listed and indexed, or has succeeded |
| `DispatchProtocol.DurableExactlyWhenQuiet` | src/infrastructure/queue/commit-dispatch/commit-dispatch.store.ts:31-191 | that holds in every run if and only if appends precede the flush and are less than the recovery age apart |
| `DispatchProtocol.RaceLoses` | src/infrastructure/queue/commit-dispatch/commit-dispatch.store.ts:134-138 | a task appended between `LLEN` and `DEL` is lost |
| `DispatchProtocol.PassDrains` | src/infrastructure/queue/commit-dispatch/commit-dispatch-recovery.processor.ts:42-61 | a pass in which no command throws executes exactly the list it read, removes each task, and takes the request out of the list and the recovery index |
| `DispatchProtocol.SweepRecovers` | src/infrastructure/queue/commit-dispatch/commit-dispatch-recovery.processor.ts:35-71 | from every reachable state of an indexed request, whatever crashed, waiting and that sweep leave every appended task executed and the request gone from list and index |
| `DispatchProtocol.UnindexedIsDone` | src/infrastructure/queue/commit-dispatch/commit-dispatch.store.ts:179-191 | in every run a request that the sweeper cannot find has nothing listed and every appended task executed |
| `DispatchEffects.FlushExactly` | src/core/events/event-bus.ts:111-131 | after any history and whichever tasks succeed, the undisturbed flush of a marked request leaves list, index entry and executed tasks exactly as the bus's own method does: a failed task stays and the pass goes on |
| `DispatchEffects.ThrowGoesOn` | src/core/events/event-bus.ts:118-126 | in every run a command that throws without effect after its task executed leaves the task listed, and the pass goes on |
| `DispatchEffects.ThrowingRemovalGoesOn` | src/core/events/event-bus.ts:118-126 | in every run a removal that takes effect although it throws takes the entry out, and the pass goes on |
| `DispatchEffects.RollbackDiscards` | src/core/events/event-bus.ts:185-192 | a rolled-back request whose purge goes through has nothing left to flush or to recover |
| `DispatchEffects.ClearedMarkerIsNotFlushed` | src/core/events/event-bus.ts:168-170 | a request whose marker is cleared is not flushed and keeps its tasks |
| `OnCommitPool.StartedOnceAndBounded` | src/core/events/event-bus.ts:133-155 | in every schedule tasks start in order and at most once, at most `min(n, limit)` run at a time, and tasks queued meanwhile stay queued in order |
| `OnCommitPool.WorkConserving` | src/core/events/event-bus.ts:140-154 | with no worker between tasks, exactly `min(limit, unsettled)` tasks run |
| `OnCommitPool.CompleteExactlyWhenWorkers` | src/core/events/event-bus.ts:153-154 | a flush that returns has settled every task it took, in every schedule, if and only if the limit is positive or there was no task |
| `OnCommitPool.StepUsesUp` | src/core/events/event-bus.ts:141-152 | every step of an unfinished worker lowers the remaining work by one, and it never goes below zero |
| `OnCommitPool.Pool.Step` | src/core/events/event-bus.ts:141-152 | one worker's run to its next await is one step of the protocol |
| `OnCommitPool.OnCommitQueue.OnCommit` | src/core/events/event-bus.ts:102-104 | the task joins the end of the queue |
| `OnCommitPool.OnCommitQueue.Flush` | src/core/events/event-bus.ts:133-155 | under any scheduler the flush ends after `2n + min(n, 8)` steps with every task settled as it ended, and the queue holds what arrived meanwhile |
| `MailOutbox.Outbox.Insert` | src/infrastructure/mail/mail-outbox.repository.ts:44-80 | a taken key yields the row that has it and inserts nothing (an empty taken key throws); otherwise, and always without a key, one pending row is added |
| `MailOutbox.Outbox.TryClaim` | src/infrastructure/mail/mail-outbox.repository.ts:95-122 | a pending row becomes sending and nothing else changes; a sending, sent, failed or missing one is refused with that reason |
| `MailOutbox.Outbox.ReclaimStale` | src/infrastructure/mail/mail-outbox.repository.ts:125-154 | at most `limit` of the oldest sending rows from before the cutoff return to pending with their bodies, all of them if they fit, and no other row changes |
| `MailOutbox.Outbox.Finish` | src/infrastructure/mail/mail-outbox.repository.ts:174-223 | the terminal updates set sent or failed whatever the status was, empty the body, and change no other row |
| `MailOutbox.Outbox.Release` | src/infrastructure/mail/mail-outbox.repository.ts:226-231 | returns exactly a sending row to pending |
| `MailDelivery.RowsAlwaysOk` | src/infrastructure/mail/mail-outbox.repository.ts:95-231 | in every run a pending or sending row keeps its original body, a terminal one is scrubbed, and claims exceed returns by one exactly while the row is sending and by at most one after |
| `MailDelivery.FinishedForever` | src/infrastructure/mail/mail-outbox.repository.ts:174-223 | a sent or failed row stays terminal and scrubbed and is never claimed again, in every continuation |
| `MailDelivery.SendsBoundedByReturns` | src/infrastructure/mail/workers/mail.processor.ts:110-235 | in every run a row is emailed and claimed at most once more than it was returned to pending |
| `MailDelivery.EmailsCarryOriginalBody` | src/infrastructure/mail/workers/mail.processor.ts:123-197 | although the row is read before the claim, every email carries the body the row was inserted with |
| `MailDelivery.SentOnlyAfterItsEmail` | src/infrastructure/mail/workers/mail.processor.ts:185-201 | in every run a sent row has been emailed, with the body it was inserted with |
| `MailDelivery.MarkedSentIsRefused` | src/infrastructure/mail/mail-outbox.repository.ts:174-203 | in every run a `markMailOutboxSent` that takes effect leaves its row sent and scrubbed, a claim is then refused as already sent, and no later one succeeds |
| `MailDelivery.DeliveryExactly` | src/infrastructure/mail/workers/mail.processor.ts:110-212 | after any history a worker left alone whose email is delivered leaves the pending row sent and scrubbed and one email with its body |
| `MailDelivery.FailureExactly` | src/infrastructure/mail/workers/mail.processor.ts:210-217 | after any history a worker left alone whose provider call throws leaves the row failed and scrubbed on a terminal attempt (the final one, with the circuit closed), and pending with its body on any other |
| `MailDelivery.LostReplyFailsExactlyOnFinalAttempt` | src/infrastructure/mail/workers/mail.processor.ts:200-217 | a delivered row whose marking takes effect but throws ends failed if and only if the attempt was terminal, and sent otherwise |
| `MailDelivery.RefusedWorkerChangesNothing` | src/infrastructure/mail/workers/mail.processor.ts:135-172 | a worker whose row is in flight, sent or failed changes nothing |
| `MailDelivery.InsertExactly` | src/infrastructure/mail/mail-outbox.repository.ts:44-80 | a new row is pending with its body, with nothing claimed or sent |
| `MailDelivery.SweepReturnsStaleRows` | src/infrastructure/mail/mail-outbox.repository.ts:125-154 | after any history an undisturbed reclaim returns exactly its stale rows to pending, with their bodies |
| `MailDelivery.ExclusiveExactlyWhenRunsFit` | src/infrastructure/mail/mail-outbox.repository.ts:95-154 | no two workers ever deliver the same row at once, if and only if every worker ends before its claim counts as stale |
| `MailDelivery.LongRunOverlaps` | src/infrastructure/mail/mail-outbox.repository.ts:125-154 | the run in which a reclaimed row is delivered by two workers |
| `AuditOutbox.Store.Claim` | src/domains/audit/audit-outbox.repository.ts:97-127 | exactly the claimed rows have their `attempt_count` increased by one |
| `AuditOutbox.Store.DrainRow` | src/domains/audit/workers/audit-outbox-drain.processor.ts:210-287 | success exactly for a resolved and inserted row, transient exactly for a resolved one whose insert failed with the counter plus one below the cap; any other row is marked failed |
| `AuditOutbox.Store.MarkProcessed` | src/domains/audit/audit-outbox.repository.ts:130-140 | exactly the given rows become processed |
| `AuditOutbox.Store.Drain` | src/domains/audit/workers/audit-outbox-drain.processor.ts:309-380 | every claimed row is counted and ends processed, failed or pending by its own resolution and insert; the log gains exactly one entry for each insert; all other rows stay; the counters add up to the batch |
| `AuditDrains.ClaimsAreDisjoint` | src/domains/audit/audit-outbox.repository.ts:97-127 | in every run, whatever claimable rows each claim returns, open claims hold at most `limit` pending rows, without repetition, and share none |
| `AuditDrains.LoggedExactlyOnce` | src/domains/audit/audit-outbox.repository.ts:130-248 | in every run the log holds exactly one entry with the staged payload for each staged row that is processed or gone, and no other |
| `AuditDrains.UnresolvableFailsAtOnce` | src/domains/audit/workers/audit-outbox-drain.processor.ts:219-227 | in every run a row that never resolves is failed by its first committed claim, and is never logged, retried or pruned |
| `AuditDrains.DrainExactly` | src/domains/audit/workers/audit-outbox-drain.processor.ts:309-380 | after any history and whatever other drains are open, a drain left alone leaves, row by row and entry by entry, what the job run by itself leaves |
| `AuditDrains.StageExactly` | src/domains/audit/audit-outbox.repository.ts:55-75 | a staged row is pending with its payload |
| `AuditDrains.PruneExactly` | src/domains/audit/audit-outbox.repository.ts:229-246 | an undisturbed prune removes exactly the processed rows it found |
| `AuditDrains.AttemptsAreCommittedClaims` | src/domains/audit/audit-outbox.repository.ts:107-122 | in every run `attempt_count` equals the committed claims of the row and respects the claim cap |
| `AuditDrains.PendingAttemptsExactly` | src/domains/audit/workers/audit-outbox-drain.processor.ts:267-286 | a row can be pending after `n` committed claims if and only if `n` is zero or `n + 1` is below `maxAttempts` |
| `UserOffboarding.UserService.SoftDeleteWithOffboarding` | src/domains/user/user.service.ts:181-257 | a deleted user is not found; a user who owns any organization is refused exactly when the services and the ownership port are wired; every other user ends with all five kinds of data empty (when the services are wired) and both timestamps at the present time; a refusal changes nothing |
| `UserOffboarding.EveryRunFollowsScript` | src/domains/user/user.service.ts:203-257 | in every interleaving each run does a prefix of mark, five effects in order, delete; there is at most one deletion and it follows the marking; the re-read branch never lets a run through |
| `UserOffboarding.DeletedByWholeScript` | src/domains/user/user.service.ts:245-255 | a deleted user has one run that did the whole script |
| `UserOffboarding.DeletedForever` | src/domains/user/user.repository.ts:334-356 | once set, both timestamps never change, in every continuation |
| `UserOffboarding.RefusedLeavesNoTrace` | src/domains/user/user.service.ts:207-215 | with services and port wired, a run whose check finds an owned organization changes nothing then, and never marks, empties or deletes anything in any continuation |
| `UserOffboarding.StatementsTakeEffect` | src/domains/user/user.service.ts:221-255 | in every interleaving marking and deletion write the present time to their own column, and each effect empties its own kind of data and no other |
| `UserOffboarding.StraightRunExactly` | src/domains/user/user.service.ts:181-257 | from every state with an undeleted user a run left alone leaves exactly what the service's own method promises, the refusal included |
| `UserOffboarding.DeletedUserIsNotFound` | src/domains/user/user.service.ts:185-186 | no run starts for a deleted user |
| `UserOffboarding.EffectsLast` | src/domains/user/user.service.ts:245-249 | after any history, under any interleaving of runs, crashes and ticks, once a new run has performed its first `k` effects the first `k` kinds of data are empty and stay so |
| `UserOffboarding.DeletionLeavesNoData` | src/domains/user/user.service.ts:245-255 | a deletion by a new run, under any such interleaving, leaves what one uninterrupted run leaves: all five kinds of data empty |
| `UserOffboarding.WholeRunDeletes` | src/domains/user/user.service.ts:181-257 | a new run that is not refused and takes all its steps, however others interleave and overtake it, leaves the user deleted |
| `UserOffboarding.ResumeCompletesExactlyWhenNotRefused` | src/domains/user/user.service.ts:593-595 | wherever earlier runs crashed or stalled and however new runs interleave, once a new one has taken all its steps the user is not deleted if and only if services and port are wired and the user owns an organization; then nothing has changed, otherwise the data is that of an uninterrupted run |
| `UserOffboarding.ResumeConverges` | src/domains/user/user.service.ts:229-257 | deletions after any two histories, crashed or not, under any interleavings of runs, leave the same data up to timestamps |
| `AuditPages.BuildFilterConditions` | src/domains/audit/audit.repository.ts:41-63 | the pushed conditions hold of a row exactly when the row matches the filters |
| `AuditPages.AuditLog.Select` | src/domains/audit/audit.repository.ts:116-131 | the statement returns the first rows of the sorted listing of matching rows past the cursor |
| `AuditPages.AuditLog.FindWithFilters` | src/domains/audit/audit.repository.ts:91-146 | refused exactly for a cursor with another fingerprint; otherwise the first `limit` rows of the listing, a next cursor of the last one exactly when more remain, and the number of matching rows up to 10 000 when asked for |
| `AuditPages.ListedExactly` | src/domains/audit/audit.repository.ts:41-63 | the listing holds exactly the rows that differ from no given organization, actor, resource, action or time bound and lie past the cursor |
| `AuditWalk.ListedInOrder` | src/domains/audit/audit.repository.ts:126-131 | the latest row comes first, and among rows of one microsecond the one with the greatest id |
| `AuditPages.AuditLog.CountWithCap` | src/infrastructure/database/utils/capped-count.util.ts:26-37 | the number of matching rows, cursor ignored, or the cap if there are more |
| `AuditCursors.TextInjective` | src/domains/audit/audit.repository.ts:29-39 | the JSON text that is digested determines the normalized filters |
| `AuditCursors.CursorIsBoundToItsFilters` | src/domains/audit/audit.repository.ts:97-114 | with a collision-free digest a cursor is refused if and only if the request's filters, with `undefined`, `null` and omission identified, are written differently from those it was minted under |
| `AuditCursors.SelectsExactly` | src/domains/audit/audit.repository.ts:41-63 | what a request selects, read off its filters as written: a given value must agree, a given date bounds by its instant, `undefined` and `null` select nothing away |
| `AuditCursors.OtherSpellingIsRefused` | src/domains/audit/audit.repository.ts:29-63 | two spellings of one instant select the same rows and refuse each other's cursors |
| `AuditCursors.NextRefusedExactlyWhen` | src/domains/audit/audit.repository.ts:97-146 | in every chain of requests that pass the previous page's cursor, the next one is refused if and only if its filters are written differently from the previous one's |
| `AuditCursors.ChainNeverMixesFilters` | src/domains/audit/audit.repository.ts:91-146 | when a request of such a chain is answered, all requests so far carried the same filters, and its page holds only rows that match the first request's |
| `AuditWalk.WalkLiesAfter` | src/shared/utils/http/pagination.util.ts:268-286 | everything a walk lists matches the filters and lies after its starting cursor |
| `AuditWalk.WalkIsStrictlyDescending` | src/domains/audit/audit.repository.ts:91-146 | over any sequence of table snapshots and page sizes a walk lists strictly descending rows, so none twice |
| `AuditWalk.ListedExactlyWhenNotSkipped` | src/shared/utils/http/pagination.util.ts:268-286 | a matching row that stays is listed if and only if no page boundary's truncated cursor skips it |
| `AuditWalk.ChangingWalkCompleteExactlyWhen` | src/domains/audit/audit.repository.ts:91-146 | over rows from any universe with distinct ids, whatever is inserted and deleted between pages and however the page size changes, every matching row that stays is listed, if and only if no matching row's cursor hides a later matching row of the universe |
| `AuditWalk.SkipsExactlyWhen` | src/shared/utils/http/pagination.util.ts:268-286 | a cursor hides a later row if and only if both lie in one millisecond and the later row is not created on it with a smaller id |
| `AuditWalk.StaticWalkCompleteExactlyWhen` | src/shared/utils/http/pagination.util.ts:179-195 | on an unchanging table all page sizes, fixed or changing, list every matching row, if and only if the cursors separate all neighbours |
| `AuditWalk.MicrosecondNeighbourIsMissed` | src/shared/utils/http/pagination.util.ts:179-195 | of two rows a microsecond apart, read one per page, one is never listed |
| `UserPages.Users.FindMany` | src/domains/user/user.repository.ts:257-307 | a page is the front of the sorted listing of the users that match status and search and satisfy the cursor condition, with a next cursor exactly when more remain, and the capped total of all matching users when asked for |
| `UserPages.ListedExactly` | src/domains/user/user.repository.ts:257-280 | the listing holds exactly the users that are not deleted, agree with a given status and search, and lie past the cursor |
| `UserPages.ListedInOrder` | src/domains/user/user.repository.ts:283-288 | the earliest user comes first, and among users of one microsecond the one with the least id |
| `UserPages.RepeatsShareMillisecond` | src/shared/utils/http/pagination.util.ts:223-241 | what a cursor lets through although it does not come later lies in the cursor's own millisecond and is not its own row |
| `UserPages.CoversStep` | src/domains/user/user.repository.ts:274-299 | whatever changes between pages, every page keeps it so that all users that match throughout, in whatever versions, up to the cursor's row, have been listed |
| `UserPages.StuckPageIsCrowded` | src/shared/utils/http/pagination.util.ts:223-241 | a page that ends no later than it started means more matching users in one millisecond than the page holds |
| `UserPages.CompletesWhenSparse` | src/domains/user/user.repository.ts:257-307 | over changing tables whose matching users per millisecond fit in every page the walk ends and has listed every user that matched throughout |
| `UserPages.CrowdedWalk` | src/shared/utils/http/pagination.util.ts:223-241 | with one more, the walk alternates between two cursors for ever |
| `UserPages.WalkCompletesExactlyWhenPagesHoldMillisecond` | src/domains/user/user.repository.ts:257-307 | over all changing tables drawn from versions of users of whom at most `m` matching ones share a millisecond, and all walks whose pages hold at least `limit` rows, walks end and list every user that matches throughout, if and only if `m` is at most `limit` |
| `UserPages.LetThroughIsListedTwice` | src/shared/utils/http/pagination.util.ts:223-241 | a user let through by a later one's cursor is listed twice, with the page size that puts that later one at the end of a page |
| `UserPages.NothingRepeatsExactlyWhen` | src/shared/utils/http/pagination.util.ts:223-241 | on an unchanging table no user is listed twice, for all page sizes, if and only if no matching user but the last lets an earlier one through its cursor |
| `UserPages.NothingRepeatsWhileChangingExactlyWhen` | src/shared/utils/http/pagination.util.ts:223-241 | the same over all tables that draw versions of users from one universe and change between pages: no user is listed twice in any versions |
| `UserPages.TwinIsListedTwice` | src/shared/utils/http/pagination.util.ts:223-241 | three users and pages of two that list the first one twice |
| `CanonicalJson.CanonicalValue` | tooling/agent-os/generate.ts:152-161 | the recursive sort computes the canonical form |
| `CanonicalJson.CanonicalArray` | tooling/agent-os/generate.ts:153 | item by item, in order |
| `CanonicalJson.CanonicalObject` | tooling/agent-os/generate.ts:154-159 | filling keys in sorted order, with JavaScript's index-first property order and the `__proto__` setter, gives the canonical members |
| `CanonicalJson.CanonicalMembersKept` | tooling/agent-os/generate.ts:156-157 | exactly the members other than `__proto__` remain, each with its canonical value |
| `CanonicalJson.CanonicalMembersSorted` | tooling/agent-os/generate.ts:156-157 | canonical members are in strict property order |
| `CanonicalJson.IndexExactly` | tooling/agent-os/generate.ts:156-157 | the integer-like keys are exactly the numerals without leading zeros up to 2^32 - 2 |
| `CanonicalJson.EnumerationOrder` | tooling/agent-os/generate.ts:156-157 | property order lists integer-like keys first by numeric value, then the others by code unit |
| `CanonicalJson.AssignOwnSorts` | tooling/agent-os/generate.ts:157 | assigning a key larger in string order keeps the object in property order and adds just that member |
| `JsonText.PrintInjective` | tooling/agent-os/generate.ts:162-163 | different well-formed values print differently |
| `JsonEquality.CanonicalMeaning` | tooling/agent-os/generate.ts:152-161 | the canonical form means the same unordered value, without `__proto__` members |
| `JsonEquality.CanonicalUnique` | tooling/agent-os/generate.ts:152-161 | canonical values with the same meaning are identical |
| `JsonEquality.CanonicalExactly` | tooling/agent-os/generate.ts:152-161 | canonical forms coincide if and only if the values are equal up to member order at every depth |
| `JsonEquality.CanonicalIdempotent` | tooling/agent-os/generate.ts:152-161 | canonicalizing twice is canonicalizing once |
| `JsonEquality.DeepEqualDecides` | tooling/agent-os/generate.ts:162-163 | `deepEqual` holds if and only if its arguments, without `__proto__` members, are equal up to member order (section 4 of RFC 8259) |
| `JsonEquality.DeepEqualIsEqualityExactlyWhen` | tooling/agent-os/generate.ts:152-163 | it is equality up to member order against every `__proto__`-free value, if and only if its first argument is `__proto__`-free |
| `JsonEquality.ProtoMemberIsIgnored` | tooling/agent-os/generate.ts:157 | an object with a `__proto__` member equals the empty one |
| `GeneratedRegion.IndexOf` | tooling/agent-os/generate-docs.ts:112-113 | the first occurrence, or -1 |
| `GeneratedRegion.RewriteRegion` | tooling/agent-os/generate-docs.ts:111-119 | the region between the first markers is replaced; missing or reversed markers throw |
| `GeneratedRegion.RewrittenExactly` | tooling/agent-os/generate-docs.ts:111-119 | from the first START and END markers: the text through START, the body on lines of its own, the text from END; END before START is an error |
| `GeneratedRegion.MissingMarkerIsRefused` | tooling/agent-os/generate-docs.ts:114-116 | a text without one of the markers is an error |
| `GeneratedRegion.StartStays` | tooling/agent-os/generate-docs.ts:111-119 | the START marker is found where it was |
| `GeneratedRegion.EndMoves` | tooling/agent-os/generate-docs.ts:111-119 | the END marker is found after the body, or inside it if the body has one |
| `GeneratedRegion.OutsideIsKept` | tooling/agent-os/generate-docs.ts:111-119 | text outside the region is kept verbatim, the text inside becomes the body, and the result has a region again |
| `GeneratedRegion.RewriteIsIdempotentExactlyWhen` | tooling/agent-os/generate-docs.ts:111-119 | a second rewrite with the same body is the identity if and only if the body has no END marker |
| `GeneratedRegion.DocTree.GenerateDocs` | tooling/agent-os/generate-docs.ts:254-268 | a run stops at the first document without markers; a write run rewrites those before it, a check run changes nothing and reports exactly the documents whose rewrite differs |
| `GeneratedRegion.WriteThenCheckIsClean` | tooling/agent-os/generate-docs.ts:254-268 | a check after a completed write reports no drift if and only if no body has an END marker |

## Left out

- Fastify wiring, routes, DTOs, serializers, OpenAPI, logging and metrics: no effect on the modelled state.
- Stripe, Resend, the S3 SDK, ioredis and Drizzle: only the atomic effect of each call used by a core is modelled.
- SHA-256 and ETags are taken to be collision-free; the magic-byte tables and the SVG sanitizer are arbitrary functions.
- The HEAD length check of a confirmation is not pinned to the object version that is copied, so under interference no claim is made about lengths of published objects.
- The 24-hour TTL of the durable task list and poison entries that fail validation: within the list's lifetime and for valid tasks only.
- What a task execution does internally, and delivery exactly once: only at-least-once is claimed.
- Truncation of error texts, `last_error`, and the telemetry queries of the audit outbox.
- MailDelivery.SendsBoundedByReturns: counts calls that reached the provider; the provider's own idempotency key is not modelled.
- Avatar cleanup after the soft-delete. Sessions, uploads and other data that users or other services add while a run is between its effects may survive it: what a deletion leaves is stated for continuations in which only offboarding runs act.
- Concurrent confirms of one upload may move its status from UPLOADED to FAILED, because that marker is not guarded; no forward-only claim is made.
- The text of the user list's pattern match: an arbitrary predicate.
- The instant that a date text names is an arbitrary function of the text, a cursor's own date is represented by its milliseconds, and the base64 encoding of cursors by the payload.
- Strings are sequences of Unicode scalar values: the UTF-16 order of characters outside the basic plane, lone surrogates, and the number texts of -0 and infinities are not modelled.
- Login, MFA, OAuth, sessions, billing, notifications, and the tooling around processes and files: outside these cores.
