# Coordination protocols of the mail service, modelled and proved

The service receives mail over SMTP, stores it in SQLite and files, and serves it over HTTP.
Most of its risk is in small in-process protocols: actors with bounded queues, caches that
race with commits, limiters with two orders, retention that must not be undone by recovery.
This project models those protocols as state machines over atomic steps (one region under a
lock, one stretch of event-loop code without a suspension point, or one writer transaction)
and proves what every run of them keeps. Where the source updates an object in place there
is also a class with the same fields, whose methods are proved to perform exactly the steps
of the state machine; loops carry their invariants.

A run is any sequence of enabled steps; the adversary chooses the interleaving, the moment of
every cancellation, timeout, failure and crash, and all values that come from outside (times,
pages read, identities, new identifiers).

`dafny verify dfyconfig.toml` checks everything.

| file | about |
|---|---|
| `Admission.dfy` | slots, waiter deque and grants, shared by both database actors |
| `ReadPool.dfy`, `ReadPoolLife.dfy`, `ReadPoolActor.dfy` | the SQLite read pool: admission, dispatch, pause, resume, close, worker failure |
| `Writer.dfy`, `WriterLife.dfy`, `WriterActor.dfy` | the single writer: bounded queue, lazy worker, STOP protocol |
| `Retention.dfy`, `Resurrection.dfy` | expiry batches, file tombstones, file garbage collection, clear-all, manifest replay |
| `KeyCache.dfy`, `KeyCacheService.dfy` | epoch-guarded authentication and usage-policy caches |
| `Globs.dfy`, `Networks.dfy`, `Delegation.dfy` | mailbox patterns, IP networks, containment of API-key policies |
| `SmtpLimiter.dfy`, `SmtpConnections.dfy` | the sliding-window connection limiter |
| `TokenBucket.dfy` | the per-key rate limit |
| `LiveStream.dfy`, `LiveFeed.dfy` | the live event ring and its resumable consumer |
| `OutboxTailer.dfy`, `MailboxTailer.dfy` | the outbox tailer that feeds the ring |
| `ParseQueue.dfy`, `ParseQueueLife.dfy`, `ParseQueueService.dfy` | parse reservations, waiting callers, workers, stopping |
| `Credentials.dfy` | administrators, passwords and sessions |
| `PendingScan.dfy` | the keyset scan for pending messages |
| `MaintenanceGate.dfy` | mail accepts against maintenance |
| `Utf8Preview.dfy` | bounded previews of stored text |
| `Seqs.dfy`, `OrderedDict.dfy` | options, counting, and insertion-ordered dictionaries |

## What does not hold of the code

Each of these is a lemma with a concrete run or input, beside the exact condition under which
the property does hold.

- Read pool, tokens: a `close()` from another thread while `start()` is creating threads is
  overwritten by `start()`, and later requests queue up behind STOP. It is the only step after
  which that can happen (`ReadPool.DisturbedStart`, `ReadPool.CloseDuringStartIsTheHazard`).
- Read pool, admission: a worker that fails while `start()` is running is overwritten in the
  same way. The pool is open, every dispatch is refused without granting the slot to a waiter,
  and a submission can wait beside free capacity. Work conservation holds from the opening on
  exactly when no worker has failed by then (`ReadPool.EarlyFailureStrands`,
  `ReadPool.ConservingIffNoEarlyFailure`). If all workers had stopped by then, the pool never
  reaches its closed state (`ReadPool.NeverCloses`).
- Token bucket: the clock is read before the lock, so stamps can arrive out of order; a late
  stamp moves the refill time back and time is credited again. The promised bound is broken by
  a run of five calls, and it tolerates no delay at all: it holds for all runs whose stamps are
  late by at most d exactly for d = 0 (`TokenBucket.LateStampOvergrants`,
  `TokenBucket.BoundIffInOrder`).
- Delegation: the mailbox check looks scopes up as listed, while delegation lets a write scope
  stand for its read scope, so an accepted child can read where its principal is refused. This
  cannot happen exactly when the principal lists the read scope of each of its write scopes, or
  no child with a mailbox grant can be accepted for it at all: a malformed network, an expiry
  that does not parse, or no domain granted (`Delegation.ChildReadsMore`,
  `Delegation.MailboxAccessExact`).
- Delegation: an expiry without a time zone is always due at authentication but is compared as
  UTC when a child is checked; exactly a principal with such an expiry and a child with a zoned
  one lets the child outlive it (`Delegation.ExpiryExact`). A principal that acts is never in
  that state.
- Parse queue: a start that creates workers while a stop is still waiting lets that stop
  complete with a task reserved and running. It is the only operation that does; a start that
  finds workers is harmless (`ParseQueue.OverlappingStartKeepsReservation`,
  `ParseQueue.StartDuringStopIsTheHazard`).
- Outbox tailer: a database restored in place is noticed exactly when the high-water mark, at
  the moment the first page after the restore is read, is below the cursor. A mark that was
  below it when the restore happened is not enough: commits before the page can lift it again.
  A restore that is not noticed leaves the restored rows at or below the cursor, and rows
  committed after it up to the cursor, unannounced in that generation
  (`OutboxTailer.UnnoticedRestore`, `OutboxTailer.OvertakenRestore`,
  `OutboxTailer.RestoreNoticedIff`).
- Clear-all: its transaction drops the tombstones together with the messages, and the receipts
  are moved away only afterwards. If the pass ends in between, by a crash or a cancellation,
  the next recovery inserts removed messages again. This is the only way a removed message
  returns, and it happens exactly when the receipt of a message that the transaction has
  removed, or will when it runs, is still on disk (`Resurrection.CutOffClear`,
  `Resurrection.CutOffClearIsTheHazard`).
- Maintenance gate: giving the gate back and leaving an accept wait for a lock and can be
  cancelled there. The gate can open again exactly when no maintenance was cut off like that,
  and a maintenance body can run again exactly when no maintenance and no accept was
  (`MaintenanceGate.OpensIffNoneStranded`, `MaintenanceGate.MaintainsIffNoneLost`).

## Model

| member | source | states |
|---|---|---|
| `Admission.Conservation` | app/db/read_pool.py:387-470 | the outstanding counter is the number of submissions that own a slot, between zero and capacity |
| `Admission.OwnersSplit` | app/db/read_pool.py:341-429 | owners are exactly the granted waiters, the undispatched holders, the queued and the running requests |
| `Admission.ZeroMeansNoOwner` | app/db/read_pool.py:516-523 | the counter is zero exactly when nobody owns a slot, so the underflow check cannot fire |
| `Admission.GrantInv` | app/db/read_pool.py:448-459 | a grant pass keeps the books, changes a submission only from waiting to granted, and from a gate where nobody waits behind a shut door ends work-conserving |
| `Admission.ArriveInv` | app/db/read_pool.py:387-404 | an arrival is admitted exactly when a slot is free, refused exactly when slots and waiter list are full, and touches no earlier submission |
| `Admission.ArriveCore` | app/db/read_pool.py:387-404 | an arrival keeps the books on any gate, work-conserving or not, and at most grants earlier submissions |
| `Admission.CancelInv` | app/db/read_pool.py:461-470 | leaving admission gives a granted slot back, withdraws a waiting record and leaves anything else alone |
| `Admission.ReleaseInv` | app/db/read_pool.py:516-523 | a release returns one slot and hands it on in arrival order |
| `Admission.ShutInv` | app/db/read_pool.py:256-276 | shutting rejects every waiting record and touches no slot |
| `Admission.Slots.GrantWaiters` | app/db/read_pool.py:448-459 | the loop performs the grant pass and reports whom it granted |
| `Admission.Slots.DiscardInactive` | app/db/read_pool.py:444-446 | the loop drops exactly the records at the front that no longer wait |
| `Admission.Slots.CountWaiting` | app/db/read_pool.py:395-399 | counting the deque counts everybody who waits |
| `Admission.Slots.Acquire` | app/db/read_pool.py:387-412 | the locked part of acquiring capacity performs the arrival |
| `Admission.Slots.CancelAdmission` | app/db/writer.py:246-258 | cancelling performs the cancellation step and the grant pass after it |
| `Admission.Slots.ReleaseCapacity` | app/db/writer.py:302-311 | releasing returns the slot and grants waiters |
| `Admission.Slots.RejectWaiters` | app/db/read_pool.py:300-312 | the loop rejects every record that waits and empties the deque |
| `ReadPool.LifecycleTokens` | app/db/read_pool.py:247-317 | in every run, worker failures at any time included, no request sits behind a STOP, no PAUSE shares a queue with a request, and paused means no slot out, empty queues and closed connections |
| `ReadPool.SlotConservation` | app/db/read_pool.py:341-429 | in every run the counter is granted plus held plus queued plus running, within capacity, and each slot is given back once |
| `ReadPool.AdmissionOrder` | app/db/read_pool.py:387-470 | in every run slots go out in arrival order and the waiter list is bounded; a pool not opened after a failure is full or has nobody waiting while open, and has nobody waiting otherwise |
| `ReadPool.ShutdownCompletes` | app/db/read_pool.py:525-572 | once STOP went out and start is over, every worker has a bounded number of own steps left, can take one until it has stopped, and when all have stopped the pool is closed |
| `ReadPool.RunWork` | app/db/read_pool.py:537-572 | over any run the own steps of a worker are bounded by a measure of its queue, its activity and the tokens still to come |
| `ReadPool.NeverCloses` | app/db/read_pool.py:221-222 | a pool opened after all its workers had stopped never closes |
| `ReadPool.CloseSendsStop` | app/db/read_pool.py:525-535 | a close with nothing owned has sent STOP |
| `ReadPool.RunInv` | app/db/read_pool.py:184-317 | every undisturbed run keeps the pool invariant |
| `ReadPool.FailInv` | app/db/read_pool.py:738-759 | a worker failure, first or later, during start or after it, keeps the invariant while it shuts admission and stops the others |
| `ReadPool.DrainInv` | app/db/read_pool.py:725-736 | failing the rest of a queue returns each slot once |
| `ReadPool.AckInv` | app/db/read_pool.py:715-723 | an acknowledged PAUSE keeps the invariant; the last one completes the pause |
| `ReadPool.DisturbedStart` | app/db/read_pool.py:184-222 | a close during start leads to a request behind STOP |
| `ReadPool.CloseDuringStartIsTheHazard` | app/db/read_pool.py:184-317 | a step is safe for all undisturbed continuations exactly when it is not a close while start creates its threads |
| `ReadPool.ConservingIffNoEarlyFailure` | app/db/read_pool.py:355-370 | after start opens the pool, every continuation is work-conserving exactly when no worker has failed by then |
| `ReadPool.EarlyFailureStrands` | app/db/read_pool.py:738-756 | in a pool of any size a failure during start leads to an open pool with a submission waiting beside free capacity |
| `ReadPoolLife.PauseBegins` | app/db/read_pool.py:247-276 | a pause leaves the pool pausing, rejects exactly the waiting submissions, touches no slot, and sends PAUSE behind every queue exactly when nothing is owned |
| `ReadPoolLife.PauseCompletes` | app/db/read_pool.py:247-276 | in every run after a pause of an open pool, without close, failure or resume, each worker takes a bounded number of steps and can take one while it has something to do, and the pool is paused exactly when every worker has acknowledged, and then quiet |
| `ReadPoolLife.ResumeReopens` | app/db/read_pool.py:278-293 | resuming a paused pool gives an open one with every worker idle, unacknowledged and with an empty queue, and no PAUSE pending |
| `ReadPoolLife.ResumedServes` | app/db/read_pool.py:278-293 | the next submission then gets a slot at once and its request is alone in the queue it is dispatched to |
| `ReadPoolLife.CloseBegins` | app/db/read_pool.py:295-317 | a close shuts admission for good, rejects exactly the waiting submissions, and sends STOP behind every queue exactly when nothing is owned and none went out; before start it closes at once |
| `ReadPoolLife.FailureCloses` | app/db/read_pool.py:738-759 | the first failed worker closes the pool: waiting submissions are rejected, STOP goes to every other worker, its own queue is left to be failed |
| `ReadPoolLife.CloseCompletes` | app/db/read_pool.py:525-572 | in every run after a close or a first failure each worker takes a bounded number of steps, can take one once nothing is owned until it has stopped, and the pool is closed exactly when every worker has stopped |
| `ReadPoolLife.RunLeft` | app/db/read_pool.py:537-572 | while admission is shut the own steps of a worker are bounded by its queue, its activity, the tokens to come and the submissions not dispatched yet |
| `ReadPoolLife.DispatchIs` | app/db/read_pool.py:355-370 | an accepted request goes behind the queue of the worker whose turn it is, a refused one gives its slot back |
| `ReadPoolLife.GrantIs` | app/db/read_pool.py:405-420 | a grant is consumed by its coroutine, or taken back when its future was settled already; otherwise delivering it changes nothing |
| `ReadPoolLife.WithdrawIs` | app/db/read_pool.py:461-470 | a waiter that gives up leaves, one that was granted a slot gives it back, and nobody else is touched but waiters granted in turn |
| `ReadPoolLife.TakeIs` | app/db/read_pool.py:537-572 | a worker takes the front of its queue: it serves a request, closes for a PAUSE, leaves at a STOP |
| `ReadPoolLife.FinishIs` | app/db/read_pool.py:516-523 | a request that is through gives its slot back and its worker is idle, or drains its queue after a failure |
| `ReadPoolLife.ServedInOrder` | app/db/read_pool.py:355-370 | in every run requests go to the workers in turn, and each worker takes them in the order of dispatch |
| `ReadPoolLife.StartIs` | app/db/read_pool.py:184-222 | start goes from new over starting to open; a thread that cannot be created stops the ones there are and leaves the pool closed and failed |
| `ReadPoolActor.SQLiteReadPool.PauseAndDrain` | app/db/read_pool.py:247-276 | an open pool is pausing afterwards with its waiters rejected, by the pause request of the state machine; any other is left alone |
| `ReadPoolActor.SQLiteReadPool.Resume` | app/db/read_pool.py:278-293 | the method performs the resume step |
| `ReadPoolActor.SQLiteReadPool.Close` | app/db/read_pool.py:295-317 | the method performs the close request |
| `ReadPoolActor.SQLiteReadPool.AdvanceLifecycle` | app/db/read_pool.py:525-535 | PAUSE or STOP goes to every queue exactly when nothing is outstanding and it is due |
| `ReadPoolActor.SQLiteReadPool.BeginStart` | app/db/read_pool.py:187-194 | the first locked region of start performs the step from new to starting, or answers as the source does |
| `ReadPoolActor.SQLiteReadPool.FinishStart` | app/db/read_pool.py:221-222 | the last locked region of start opens the pool whatever the state became |
| `ReadPoolActor.SQLiteReadPool.Acquire` | app/db/read_pool.py:387-412 | the method performs a submission |
| `ReadPoolActor.SQLiteReadPool.CancelAdmission` | app/db/read_pool.py:461-470 | the method performs a withdrawal |
| `ReadPoolActor.SQLiteReadPool.ReleaseCapacity` | app/db/read_pool.py:516-523 | the method returns a slot and advances the lifecycle |
| `ReadPoolActor.SQLiteReadPool.DeliverAdmissionGrant` | app/db/read_pool.py:480-493 | a grant delivered to a settled future gives its slot back |
| `ReadPoolActor.SQLiteReadPool.DispatchRequest` | app/db/read_pool.py:355-370 | round-robin dispatch, or refusal with the slot given back once the pool has failed or closed |
| `ReadPoolActor.SQLiteReadPool.AcknowledgePause` | app/db/read_pool.py:715-723 | the method performs the acknowledgement |
| `ReadPoolActor.SQLiteReadPool.BeginWorkerFailure` | app/db/read_pool.py:738-759 | the method performs the failure step |
| `ReadPoolActor.SQLiteReadPool.FailWorkerQueue` | app/db/read_pool.py:725-736 | the loop is a run of drain steps that ends with an empty queue |
| `ReadPoolActor.SQLiteReadPool.WorkerStopped` | app/db/read_pool.py:761-783 | the method performs the exit step; the last worker closes the pool |
| `Writer.PutsNeverFull` | app/db/writer.py:131-168 | in every run no put that does not wait finds the bounded queue full |
| `Writer.StopOnce` | app/db/writer.py:302-321 | STOP is put at most once, only after every owned request is resolved, alone in the queue |
| `Writer.SlotConservation` | app/db/writer.py:131-206 | the counter is granted plus held plus queued plus running, within capacity, and each slot is given back once |
| `Writer.AdmissionOrder` | app/db/writer.py:170-258 | work conservation, arrival order and the waiter bound in every run |
| `WriterLife.CloseBegins` | app/db/writer.py:97-125 | a close rejects exactly the waiting submissions, and with nothing owned decides the STOP, or is done at once if no worker was started |
| `WriterLife.CloseCompletes` | app/db/writer.py:97-125 | in every run after a close nobody else enters, the worker takes a bounded number of steps, one is possible while anything is queued, running or nothing owned, and the writer is closed exactly when its worker has left or never was started |
| `WriterLife.DispatchIs` | app/db/writer.py:131-163 | an accepted request goes behind the queue, a refused one gives its slot back |
| `WriterLife.CallerIs` | app/db/writer.py:246-285 | a grant is consumed, withdrawn, or taken back from a settled future; a withdrawn waiter just leaves |
| `WriterLife.WorkerIs` | app/db/writer.py:323-346 | the worker serves the front of the queue and gives the slot back when it is through; at STOP it leaves and the writer is closed |
| `WriterLife.SubmitIs` | app/db/writer.py:170-192 | a submission gets a slot, waits or is refused by what is free, and the first one starts the worker; a thread that cannot start closes the writer |
| `WriterLife.FirstInFirstOut` | app/db/writer.py:323-346 | in every run what has begun to execute, followed by what is queued, is what was dispatched, in that order |
| `WriterActor.DatabaseWriter.Close` | app/db/writer.py:97-125 | the method performs the close request and decides the STOP |
| `WriterActor.DatabaseWriter.DecideStop` | app/db/writer.py:313-321 | STOP is decided exactly when closing with nothing outstanding and not decided before |
| `WriterActor.DatabaseWriter.PutStop` | app/db/writer.py:302-311 | the decided STOP is put once |
| `WriterActor.DatabaseWriter.Acquire` | app/db/writer.py:170-192 | the method performs a submission |
| `WriterActor.DatabaseWriter.CancelAdmission` | app/db/writer.py:246-258 | the method performs a withdrawal |
| `WriterActor.DatabaseWriter.ReleaseCapacity` | app/db/writer.py:302-311 | the method returns a slot, grants waiters and decides the STOP |
| `WriterActor.DatabaseWriter.DispatchRequest` | app/db/writer.py:146-163 | dispatch into an open writer, refusal and release otherwise |
| `Retention.PathsDisjoint` | app/ingest/storage.py:64-90 | files of different messages never share a path |
| `Retention.OnlyManifest` | app/ingest/storage.py:333-335 | the only file of a message under manifests/ is its receipt |
| `Retention.RetentionCommit` | app/runtime.py:892-961 | a message goes exactly when its last delivery leaves in this batch; raw file, receipt, bodies and attachments are all tombstoned in that step, no surviving message's path is, nothing else is, and it was drained from the parser |
| `Retention.OrphanIff` | app/runtime.py:1104-1153 | orphans are exactly the messages whose every delivery was confirmed for removal |
| `Retention.DeliveriesLeaving` | app/runtime.py:892-918 | a delivery leaves exactly when it is in the batch, still expired by now and with the status of the snapshot |
| `Retention.LeavesIff` | app/runtime.py:795-918 | from snapshot to commit: a delivery leaves exactly when it had expired by now in both, fewer than limit expired ones came before it by expiry and id, and its status did not change |
| `Retention.BatchIs` | app/runtime.py:812-819 | the batch holds exactly the first limit expired deliveries by expiry and id |
| `Retention.CandidatesIs` | app/runtime.py:820-855 | the parser is drained of exactly the messages whose every delivery was selected |
| `Retention.BatchExists` | app/runtime.py:812-819 | every snapshot has such a batch |
| `Retention.TextOrderIs` | app/runtime.py:818-818 | ids are compared as text: at the first difference, or by the end of the shorter |
| `Resurrection.NoResurrection` | app/runtime.py:443-477 | in every run in which no clear-all is cut off with a receipt exposed, a message removed by retention or clear-all is never inserted again, and while its manifest is on disk its tombstone stands or clear-all still holds the lock |
| `Resurrection.RunInv` | app/runtime.py:1749-1789 | every interleaving of accept, retention, garbage collection, clear-all, recovery, cancellation and crash without such a cut-off keeps the invariant behind it |
| `Resurrection.CutOffClearIsTheHazard` | app/runtime.py:340-352 | from any state of a run a step leads to the return of a removed message exactly when it ends a clear-all whose transaction is queued or done while the receipt of a message settled by then is on disk |
| `Resurrection.CutOffClear` | app/runtime.py:2096-2108 | for any message a run in which clear-all removes it and a crash, or a cancellation, before the receipts are moved brings it back |
| `Resurrection.ExecuteClear` | app/runtime.py:2096-2108 | emptying the tables keeps the invariant, under the lock of its pass or behind a cancelled one that exposes nothing |
| `Resurrection.InsertInv` | app/runtime.py:4003-4027 | inserting the receipt of a message that was never removed keeps the invariant, by replay or accept |
| `Resurrection.UnlinkInv` | app/runtime.py:1840-1870 | unlinking a path keeps the invariant, under the lock, by a thread that outlived its cancelled pass, or as part of clear-all: the tombstone stands until its own transaction drops it, and a failed unlink is no step |
| `Resurrection.StoreIs` | app/runtime.py:4003-4027 | an accept always stores its message and every row it carries; a replay does unless raw file or receipt is tombstoned, and then changes nothing; what was there stays as it is |
| `Resurrection.MessageStays` | app/runtime.py:443-477 | in every run a stored message stays as it is until retention or clear-all removes it |
| `Resurrection.GarbageGoes` | app/runtime.py:1840-1870 | a garbage-collection pass can unlink any tombstoned file and drop its tombstone, touching nothing else |
| `Resurrection.RetentionRuns` | app/runtime.py:443-477 | an undisturbed retention pass applies its batch and gives the lock back |
| `Resurrection.ClearRuns` | app/runtime.py:340-352 | an undisturbed clear-all leaves no message, no tombstone and no receipt |
| `Resurrection.CutOffIs` | app/runtime.py:340-377 | a cancelled pass drops the lock but neither what it queued nor what its threads have in hand; a crash drops all of it and nothing on disk |
| `KeyCache.CacheCoherence` | app/auth/api_keys.py:903-957 | in every run a cached record differs from the key's row only while a mutation of that key is between commit and invalidation |
| `KeyCache.ServedFresh` | app/auth/api_keys.py:941-957 | in every run each part of a served record was read within the last two seconds |
| `KeyCache.StaysServed` | app/auth/api_keys.py:941-957 | in every run a cached record is served until it expires, its key is invalidated, another record takes its name, or 4096 other entries may be younger |
| `KeyCache.PolicyStaysServed` | app/auth/api_keys.py:1059-1070 | the same for a cached usage policy |
| `KeyCache.ServeIs` | app/auth/api_keys.py:941-957 | a hit changes no entry and makes its record the last to be dropped; a dead entry is dropped alone; the others keep their order |
| `KeyCache.ServePolicyIs` | app/auth/api_keys.py:1059-1070 | the same for usage policies |
| `KeyCache.StoreIs` | app/auth/api_keys.py:903-939 | a load stores its record, until two seconds after its start, exactly when no invalidation struck meanwhile and the grants are not per domain |
| `KeyCache.StoreIsPolicy` | app/auth/api_keys.py:924-938 | it stores the key's policy for as long and drops the policies that had expired when it began |
| `KeyCache.PolicyStoreIs` | app/auth/api_keys.py:1072-1092 | a policy load stores for two seconds exactly when no invalidation struck meanwhile |
| `KeyCache.LoadFills` | app/auth/api_keys.py:903-939 | an undisturbed load reads the row as it is and the record is served from then on |
| `KeyCache.PolicyLoadFills` | app/auth/api_keys.py:751-770 | an undisturbed policy load reads the current policy and serves it |
| `KeyCache.MutationVisible` | app/auth/api_keys.py:1094-1104 | a mutation is in the table at once and after its invalidation nothing of the key is cached, and everything else still is |
| `KeyCache.OutsideIs` | app/auth/api_keys.py:924-928 | time, new keys and deleted domains go by the caches, which is why keys with grants per domain are not cached |
| `KeyCacheService.ApiKeyCaches.CachedRecord` | app/auth/api_keys.py:941-957 | a hit exactly for a live entry, which stays with all others and becomes the youngest; a dead entry goes, alone |
| `KeyCacheService.ApiKeyCaches.CachedUsagePolicy` | app/auth/api_keys.py:1059-1070 | the lookup of a policy: hit exactly if live, nothing else dropped |
| `KeyCacheService.ApiKeyCaches.StoreAuthentication` | app/auth/api_keys.py:913-938 | the locked region that stores a load, purge and eviction loops included |
| `KeyCacheService.ApiKeyCaches.EvictAuth` | app/auth/api_keys.py:920-924 | the loop drops the oldest records down to the bound |
| `KeyCacheService.ApiKeyCaches.InvalidateKey` | app/auth/api_keys.py:1094-1107 | bumps the epoch and removes every entry of the key and nothing else |
| `KeyCacheService.ApiKeyCaches.StoreUsagePolicy` | app/auth/api_keys.py:1072-1092 | stores a policy only under the epoch it was loaded in |
| `Globs.MatchesIffInLanguage` | app/auth/permissions.py:191-196 | the point check decides exactly the language of a `*` and `?` pattern |
| `Globs.LiteralMatchesItself` | app/auth/permissions.py:301-310 | a bracket-free literal matches only itself |
| `Globs.NormalizeMailboxPatterns` | app/auth/api_keys.py:1182-1205 | accepts exactly lists of at most 100 well-formed patterns and returns the stripped patterns without repeats, in the order of first occurrence |
| `Globs.WellFormedIff` | app/auth/api_keys.py:1188-1200 | a pattern is accepted exactly with one @ between two parts, at most 320 characters, no control character and no bracket |
| `Globs.StripIs` | app/auth/api_keys.py:1188-1188 | stripping takes exactly the white space off both ends |
| `Networks.SubnetIffAllAddresses` | app/auth/permissions.py:233-240 | comparing end points decides inclusion of all addresses |
| `Networks.ContainsIffBetween` | app/auth/api_keys.py:1304-1311 | masking an address decides whether it lies between the end points |
| `Networks.ContainsIffPrefix` | app/auth/permissions.py:220-240 | an address of 32 or 128 bits is in a network exactly when it agrees with it in the bits of the prefix |
| `Delegation.RequestIpAllowed` | app/auth/api_keys.py:1281-1311 | the ordered search decides the client rule, malformed entries included |
| `Delegation.ApiKeyIsWithinPrincipal` | app/auth/permissions.py:259-311 | the early-exit procedure computes the containment relation |
| `Delegation.EffectiveIsHasScope` | app/auth/permissions.py:267-274 | the effective scope set is exactly what the write-implies-read rule grants |
| `Delegation.ScopesExact` | app/auth/api_keys.py:394-400 | scope containment accepts exactly when every scope the child holds by the rule the principal holds |
| `Delegation.DomainsExact` | app/auth/permissions.py:276-294 | domain containment is exact for every known mode |
| `Delegation.PatternsExact` | app/auth/permissions.py:296-311 | pattern containment is exact for children made of literal addresses |
| `Delegation.WildcardChildRefused` | app/auth/permissions.py:304-308 | a contained wildcard child that is refused all the same |
| `Delegation.CidrsExact` | app/auth/permissions.py:230-240 | network containment is exact under a principal with one network |
| `Delegation.ExpiryExact` | app/auth/permissions.py:242-250 | an accepted child stays within the principal's lifetime exactly unless the principal's expiry has no zone and the child's has one |
| `Delegation.MailboxAccessExact` | app/auth/permissions.py:326-348 | where any accepted child with known scopes passes the mailbox check its principal passes it, exactly when the principal lists the read scope of each of its write scopes or no child with a mailbox grant can be accepted for it |
| `Delegation.ChildReadsMore` | app/auth/permissions.py:326-348 | an accepted child that passes the mailbox check where its principal fails it |
| `Delegation.DelegationSound` | app/auth/permissions.py:199-311 | every request an accepted child admits, at any time, its principal admits; the rate is bounded too |
| `Delegation.WithinExact` | app/auth/permissions.py:199-311 | with known modes, at most one network of the principal and literal addresses a child is accepted if and only if it gets no more than its principal in any dimension |
| `Delegation.ExpiryDecided` | app/auth/permissions.py:242-250 | the expiry check accepts exactly a child that expires no later; between zoned timestamps in whole seconds that is being due whenever the principal is |
| `Delegation.RateDecided` | app/auth/permissions.py:205-215 | the rate check accepts exactly a valid rate that lets no more calls through |
| `Delegation.AdmitsIff` | app/auth/api_keys.py:880-901 | what a key admits, by instants, address ranges, listed scopes and the language of its patterns |
| `Delegation.AuthenticatesIff` | app/auth/api_keys.py:880-901 | authentication alone: the transport is allowed, the key not due, and a known address admitted |
| `Delegation.WithinTransitive` | app/auth/permissions.py:259-311 | acceptance composes |
| `Delegation.ChainSound` | app/auth/permissions.py:259-311 | the last key of any chain of delegations stays within the first principal |
| `SmtpLimiter.RefinesNaive` | app/runtime.py:1979-2020 | in every run the rate verdict for an address never forgotten is that of a limiter over all times at which it opened a session, and both other verdicts are decided by the open sessions |
| `SmtpLimiter.RegisterInv` | app/runtime.py:1979-2020 | one attempt keeps the invariant, judges by the remembered history, and keeps the table within capacity |
| `SmtpLimiter.ActiveInEveryRun` | app/runtime.py:1979-2020 | in every run the open sessions are exactly those accepted and not released since, and an attempt is refused for their number exactly when it is not one of them and they have reached a positive limit |
| `SmtpLimiter.LimitInEveryRun` | app/runtime.py:1984-1986 | under a fixed positive limit there are never more open sessions than it allows |
| `SmtpLimiter.HotStays` | app/runtime.py:1995-2005 | an address that keeps trying is not forgotten before 1024 other attempts have come since its last, refused ones of its own included |
| `SmtpLimiter.AttemptRefreshes` | app/runtime.py:2002-2005 | an attempt that reaches the rate rule makes its address the most recently used, accepted or not |
| `SmtpLimiter.TablesInEveryRun` | app/runtime.py:1990-2017 | both orders hold the same addresses, expiry is sorted by last accepted time, the table is bounded |
| `SmtpLimiter.CapacityInEveryRun` | app/runtime.py:2036-2041 | with a fixed connection limit the table stays within the capacity it configures in every run |
| `SmtpLimiter.EvictStaleExact` | app/runtime.py:2022-2034 | expiry removes exactly the fully stale windows |
| `SmtpLimiter.ForgetsOnlyWhenFull` | app/runtime.py:1995-2001 | nobody loses a live window unless live windows fill the table |
| `SmtpLimiter.SteadyIsLegal` | app/runtime.py:1988-1993 | with a fixed window length a non-decreasing clock is all the other results need |
| `SmtpConnections.ConnectionTable.EvictStaleWindows` | app/runtime.py:2022-2034 | the loop performs the expiry |
| `SmtpConnections.ConnectionTable.EvictOldest` | app/runtime.py:1997-1999 | the loop makes room in both orders |
| `SmtpConnections.ConnectionTable.TrimWindow` | app/runtime.py:2006-2007 | the loop drops exactly the stale front of a window |
| `SmtpConnections.ConnectionTable.RegisterConnection` | app/runtime.py:1979-2020 | the method performs the attempt, verdict included |
| `SmtpConnections.ConnectionTable.ReleaseConnection` | app/runtime.py:2043-2045 | releases the session and says whether it was known |
| `TokenBucket.AfterSound` | app/auth/api_keys.py:782-800 | tokens stay between zero and the rate over any run |
| `TokenBucket.IntervalBound` | app/auth/api_keys.py:779-800 | with ordered stamps t seconds grant at most R + R t / 60 calls |
| `TokenBucket.StretchBound` | app/auth/api_keys.py:779-800 | in any order the bound holds for the credited time |
| `TokenBucket.CreditedIffOrdered` | app/auth/api_keys.py:789-794 | credited time is at least elapsed time, and equal exactly for ordered stamps |
| `TokenBucket.LateStampOvergrants` | app/auth/api_keys.py:779-800 | five calls within 60 seconds at rate 1 get three grants, one more than the bound |
| `TokenBucket.BoundIffInOrder` | app/auth/api_keys.py:779-800 | the bound holds for all runs whose stamps are late by at most d exactly for d = 0 |
| `TokenBucket.LateOverruns` | app/auth/api_keys.py:779-800 | for any delay there is a run with stamps late by it that gets more than R + R t / 60 grants |
| `TokenBucket.SpacedNeverRefused` | app/auth/api_keys.py:782-800 | calls at least 60 / R seconds apart are all granted |
| `TokenBucket.BurstExact` | app/auth/api_keys.py:782-800 | a burst is granted exactly the whole tokens there are: R for a key without a bucket, what R tokens a minute have added since for one with |
| `TokenBucket.BucketKept` | app/auth/api_keys.py:796-802 | a bucket is lost only after 65536 further calls, or when its key is dropped or unlimited; until then the key is limited as if alone |
| `TokenBucket.UseRefreshes` | app/auth/api_keys.py:796-800 | a call, granted or not, makes its key's bucket the youngest |
| `TokenBucket.TableSize` | app/auth/api_keys.py:801-802 | the table never holds more than 65536 buckets |
| `TokenBucket.TableBound` | app/auth/api_keys.py:779-804 | in the shared LRU table a key gets at most a full bucket, one more per loss of it, and its credited time |
| `TokenBucket.TableActsPerKey` | app/auth/api_keys.py:781-804 | the table limits every key as if it were alone, up to losses of its bucket |
| `TokenBucket.UsageBuckets.RecordUse` | app/auth/api_keys.py:779-804 | the method performs one call, eviction loop included |
| `LiveStream.PublishOk` | app/smtp/live_state.py:16-21 | the ring stays the latest events of its generation, numbered without a hole |
| `LiveStream.RunInv` | app/smtp/live_state.py:16-86 | in every interleaving of publish, clear and consumer steps the ring stays contiguous up to the latest event and the consumer sound |
| `LiveStream.WindowExact` | app/smtp/live_state.py:37-80 | a window without a gap is exactly (cursor, latest], with a gap it is all that is stored, the latest max events; each reason is reported exactly in its case |
| `LiveStream.GapIs` | app/http/live.py:146-167 | a gap record names the lost cursor, the reason, and where the consumer goes on: in front of the oldest event there is |
| `LiveStream.DueIs` | app/http/live.py:60-79 | what is due is one record for every event of this process, as it is, and for every committed delivery, renamed |
| `LiveStream.BeginIs` | app/http/live.py:99-110 | a cursor of the current generation is resumed, from zero if it is negative; anything else replays |
| `LiveStream.ExactlyOnce` | app/http/live.py:90-187 | in every run, at every record since the last gap, every event that is to be shown was shown once, in order, with its payload and strictly increasing cursors |
| `LiveStream.PollCatchesUp` | app/http/live.py:146-187 | a poll brings the consumer to the latest event and extends the segment unless it reports a gap |
| `LiveStream.StepIs` | app/smtp/live_state.py:16-86 | a publish adds to the ring's own generation, a clear empties the ring under a renewed one with its numbering started again, neither touches the consumer; a consumer step leaves the ring alone and brings the consumer to the latest event, or to zero when a replay has nothing to show |
| `LiveStream.ReplayIs` | app/http/live.py:112-144 | the initial replay is one record for every event in the ring that is to be shown, and a mark if the latest is not; with nothing to show the stream starts at zero |
| `LiveStream.ReplayOk` | app/http/live.py:112-144 | the initial replay shows everything the ring holds |
| `LiveStream.ResumeSeamless` | app/http/live.py:99-109 | what was shown up to any record plus what a consumer resumed there shows is exactly what was due |
| `LiveStream.BeginAtCursor` | app/http/live.py:99-109 | a cursor of the current generation resumes at its record |
| `LiveFeed.LiveState.PublishEvent` | app/smtp/live_state.py:16-21 | the method performs the publish |
| `LiveFeed.LiveState.SelectSince` | app/smtp/live_state.py:70-76 | the filter keeps exactly the later events, in order |
| `LiveFeed.LiveState.SnapshotStreamWindow` | app/smtp/live_state.py:37-80 | the method computes the window |
| `LiveFeed.LiveState.ClearEvents` | app/smtp/live_state.py:82-86 | the method empties the ring under a new generation |
| `LiveFeed.YieldBatch` | app/http/live.py:168-185 | the loop yields the shown events and the closing cursor mark |
| `LiveFeed.LiveConsumer.PollOnce` | app/http/live.py:146-187 | one turn of the loop performs the poll, gap record first |
| `OutboxTailer.ExactlyOnce` | app/runtime.py:715-783 | in every run, with polls abandoned at any point and mail cleared between polls, every row of the followed outbox from the start up to the cursor was read once in id order, the active ones were published, and no poll loads more than eight pages |
| `OutboxTailer.AppendOnlyRun` | app/runtime.py:715-783 | without replacement, restore or clear-all there is one generation and the cursor never moves back, however many polls are abandoned |
| `OutboxTailer.PageProgress` | app/runtime.py:742-782 | a page passes all its rows, stale ones too, and a poll that stops early has read everything |
| `OutboxTailer.PageExact` | app/runtime.py:728-783 | an undisturbed page takes the next 512 rows or all there are, publishes those with a delivery in order, and the poll goes on exactly if the page was full and not the eighth |
| `OutboxTailer.ClearedThenSeen` | app/runtime.py:351-358 | after clear-all the next committed row is announced by the next poll, alone, in a fresh generation |
| `OutboxTailer.OutsideIs` | app/runtime.py:715-783 | commits, removals, replacements, restores and abandoned polls leave the tailer where it is |
| `OutboxTailer.AbsorbIs` | app/runtime.py:745-779 | rows are published in order if active, and the cursor always ends at the last |
| `OutboxTailer.ReplacedRestarts` | app/runtime.py:719-721 | a replaced file restarts from zero in a fresh generation |
| `OutboxTailer.ForeignPageRestarts` | app/runtime.py:728-740 | a page is discarded for a restart exactly when the file changed around it or its high-water mark is below the cursor, and exactly then re-aligns a tailer that follows an exchanged outbox |
| `OutboxTailer.RestoreNoticedIff` | app/runtime.py:736-740 | after a restore in place at any point of a poll, with commits and abandoned polls in between, the first page read and finished notices it exactly when the high-water mark as that page is read is below the cursor; otherwise the generation lasts until a further exchange and no row at or below the cursor is announced any more |
| `OutboxTailer.PageNoticesIff` | app/runtime.py:728-740 | a page of an exchanged outbox re-aligns the tailer under a new generation exactly when the mark read with it is below the cursor |
| `OutboxTailer.SteadyRun` | app/runtime.py:715-783 | a tailer on the current file and not ahead of its mark begins anew only after a further exchange |
| `OutboxTailer.NeverGoesBack` | app/runtime.py:715-783 | in all runs, restores included, a generation publishes nothing at or below its cursor any more |
| `OutboxTailer.UnnoticedRestore` | app/runtime.py:736-740 | a run in which a row of a restored outbox is passed over |
| `OutboxTailer.OvertakenRestore` | app/runtime.py:676-687 | a run in which the mark is below the cursor at the restore, a commit lifts it before the page is read, and the committed row is passed over |
| `MailboxTailer.EventTailer.ResetStream` | app/runtime.py:656-662 | the method performs the reset |
| `MailboxTailer.EventTailer.PublishRows` | app/runtime.py:745-779 | the loop publishes the active rows and moves the cursor over all |
| `MailboxTailer.EventTailer.PublishPending` | app/runtime.py:715-783 | the polling loop makes of its observations what the page steps make of them, on at most eight pages |
| `MailboxTailer.PollIsRun` | app/runtime.py:715-783 | the loop, fed with what any run of check, load and finish steps observes, ends with the tailer and page count of that run |
| `MailboxTailer.TurnIsStep` | app/runtime.py:719-782 | one page of a run, with anything happening outside in between, is one turn of the loop |
| `ParseQueue.ReservationsConserved` | app/ingest/queue.py:111-130 | in every run the reserved ids are exactly the queued and running ones, without repeats, and both counters are their count and total within the budgets |
| `ParseQueue.BlockedLacksCapacity` | app/ingest/queue.py:132-150 | in every run a blocked caller whose event was not set since lacks capacity |
| `ParseQueue.RemovePendingInv` | app/ingest/queue.py:158-174 | removing keeps the order of what remains and every reservation of it |
| `ParseQueue.CompletedStopLeavesNothing` | app/ingest/queue.py:49-78 | as long as no start creates workers during a stop, every stop that completes, also one that finds no workers, leaves nothing reserved |
| `ParseQueue.StartDuringStopIsTheHazard` | app/ingest/queue.py:42-78 | exactly a start that creates workers while a stop is in progress lets a later stop complete with something reserved |
| `ParseQueue.StartDuringStop` | app/ingest/queue.py:42-47 | from any state with a stop in progress and no known workers, a start leads to a completed stop with a running task |
| `ParseQueue.OverlappingStartKeepsReservation` | app/ingest/queue.py:42-78 | a run in which an overlapping start leaves a reservation behind a completed stop |
| `ParseQueue.FinishInv` | app/ingest/queue.py:183-199 | a worker that is through, failed or cancelled releases its task once, without underflow |
| `ParseQueueLife.TryPutExact` | app/ingest/queue.py:111-130 | a task is enqueued at once exactly when its id is not held and one more task of its size is within both budgets |
| `ParseQueueLife.CallExact` | app/ingest/queue.py:132-150 | a waiting caller is answered yes exactly when its task fits, no exactly when the id is held, and waits otherwise |
| `ParseQueueLife.WakeExact` | app/ingest/queue.py:132-150 | a signalled caller is answered in the same way |
| `ParseQueueLife.FinishExact` | app/ingest/queue.py:183-199 | a finished task frees its id and its share of both budgets and signals everybody who waits |
| `ParseQueueLife.TakeExact` | app/ingest/queue.py:183-191 | an idle worker takes the front of the queue, and ends at a sentinel |
| `ParseQueueLife.FirstInFirstOut` | app/ingest/queue.py:111-199 | as long as nothing is removed or discarded, tasks begin in the order in which they were taken in |
| `ParseQueueLife.RemoveExact` | app/ingest/queue.py:158-174 | a removal takes exactly the named queued tasks and their reservations; the rest keeps its order |
| `ParseQueueLife.StartExact` | app/ingest/queue.py:42-47 | a start without known workers creates n idle ones and knows exactly those; otherwise it does nothing |
| `ParseQueueLife.StopBeginExact` | app/ingest/queue.py:49-70 | a stop waits for the known workers and puts one sentinel for each behind what is queued, or behind nothing |
| `ParseQueueLife.StopEndExact` | app/ingest/queue.py:70-78 | a stop that completes empties the queue; what still runs stays reserved |
| `ParseQueueLife.StopMovesOn` | app/ingest/queue.py:49-78 | in every disciplined run a worker that a stop waits for is done or can move on, and once all are done the stop can complete |
| `ParseQueueLife.LeavingExact` | app/ingest/queue.py:66-78 | a caller that gives up, an idle worker that is cancelled and a stop that is given up change nothing else |
| `ParseQueueService.TaskQueue.TryEnqueueTask` | app/ingest/queue.py:111-130 | enqueues exactly what is admissible |
| `ParseQueueService.TaskQueue.EnqueueTurn` | app/ingest/queue.py:132-150 | one turn of the waiting loop |
| `ParseQueueService.TaskQueue.ReleaseTask` | app/ingest/queue.py:219-227 | gives a reservation back and sets the event |
| `ParseQueueService.TaskQueue.RemovePendingTasks` | app/ingest/queue.py:158-174 | the loop performs the removal and counts it |
| `ParseQueueService.TaskQueue.DiscardContents` | app/ingest/queue.py:229-237 | the loop releases everything queued |
| `ParseQueueService.TaskQueue.TakeTask` | app/ingest/queue.py:185-189 | a worker takes the front, or ends at a sentinel |
| `ParseQueueService.TaskQueue.FinishTask` | app/ingest/queue.py:192-199 | the method performs the release of a running task |
| `Credentials.CredentialInvariant` | app/auth/sessions.py:537-691 | in every reachable state an unrevoked session belongs to an active administrator and was made under the current hash or made the latest change |
| `Credentials.SuperadminRemains` | app/auth/sessions.py:1001-1022 | once an active superadmin exists, every later state has one |
| `Credentials.BootstrapLasts` | app/auth/sessions.py:330-359 | a bootstrapped system always has an active superadmin |
| `Credentials.SeveredForGood` | app/auth/sessions.py:973-999 | a session that a deactivation, deletion, password change, reset or revocation was meant to end is never accepted again |
| `Credentials.ProofUsedUp` | app/auth/sessions.py:561-587 | after a change of password the proof it was made with changes nothing and opens no session in every later state until a transaction writes the former hash back; right after that it is good exactly if the administrator is active |
| `Credentials.UpdateIs` | app/auth/sessions.py:247-279 | an update is refused exactly without authorization, for nobody, or when it would give up the last active superadmin; otherwise it changes that administrator alone, and a deactivation revokes exactly his sessions |
| `Credentials.DeleteIs` | app/auth/sessions.py:290-326 | a deletion is refused in the same cases and otherwise removes the administrator and exactly his sessions |
| `Credentials.ChangeIs` | app/auth/sessions.py:537-587 | a change of password is refused exactly for an unusable acting session or a proof that is not current, and otherwise revokes exactly the other sessions |
| `Credentials.ResetIs` | app/auth/sessions.py:604-630 | a reset changes the hash of an existing administrator and revokes exactly his sessions |
| `Credentials.CreateIs` | app/auth/sessions.py:161-216 | a new administrator gets a number never used before; the first one of an empty table is an active superadmin |
| `Credentials.SessionIs` | app/auth/sessions.py:649-691 | a session is opened exactly for an active administrator whose proof is current, and is usable until its expiry |
| `Credentials.RevokeIs` | app/auth/sessions.py:785-828 | revocation revokes exactly the sessions named |
| `Credentials.UsableIff` | app/auth/sessions.py:705-777 | a session is accepted before its expiry unless revoked or of an inactive administrator |
| `Credentials.AdminStore.SuperadminWouldRemain` | app/auth/sessions.py:1001-1022 | the guard allows exactly what leaves another active superadmin |
| `Credentials.AdminStore.Update` | app/auth/sessions.py:247-279 | the update transaction keeps the invariant and an active superadmin, and a deactivation leaves no session open |
| `Credentials.AdminStore.Delete` | app/auth/sessions.py:290-326 | the deletion keeps the invariant and an active superadmin, and leaves no session of the administrator |
| `Credentials.AdminStore.Change` | app/auth/sessions.py:537-587 | the password change keeps the invariant and leaves at most the acting session open |
| `Credentials.AdminStore.Reset` | app/auth/sessions.py:604-630 | the reset keeps the invariant and leaves no session open |
| `Credentials.AdminStore.Open` | app/auth/sessions.py:649-691 | a new session, for an active administrator whose proof is current, is usable until it expires; no other session changes |
| `PendingScan.PendingScanFair` | app/runtime.py:2754-2808 | from any cursor a message that stays pending is returned within ceil(n / limit) + 1 calls |
| `PendingScan.ScanProgress` | app/runtime.py:2767-2808 | each call returns the message or shortens its bound, across the wrap-around |
| `PendingScan.LowestIs` | app/runtime.py:2782-2792 | a page is the first rows in order and nothing before its last row is missing |
| `PendingScan.ScanIs` | app/runtime.py:2754-2808 | a call returns the oldest pending messages behind the cursor, or from the start when there are none, and moves the cursor to the last of them |
| `MaintenanceGate.MutualExclusion` | app/runtime.py:386-416 | while a maintenance body runs no accept is in progress and no other body runs |
| `MaintenanceGate.CancelledBeginReopens` | app/runtime.py:391-397 | cancelling a begin that waits for accepts reopens the gate and wakes everybody |
| `MaintenanceGate.HeldIff` | app/runtime.py:386-416 | the gate is held exactly while one maintenance drains, runs, or was cut off before giving it back |
| `MaintenanceGate.NoLostWakeup` | app/runtime.py:387-416 | a suspended caller that cannot be woken waits for something that is still so |
| `MaintenanceGate.AcceptPasses` | app/runtime.py:404-416 | an accept enters an open gate and waits at a held one; the last to leave wakes everybody who waits |
| `MaintenanceGate.MaintenanceEnds` | app/runtime.py:399-402 | the end of a maintenance body reopens the gate and wakes everybody who waits |
| `MaintenanceGate.OpensIffNoneStranded` | app/runtime.py:399-402 | from a reachable state the gate can open again exactly when no maintenance was cut off before giving it back |
| `MaintenanceGate.MaintainsIffNoneLost` | app/runtime.py:386-416 | from a reachable state a maintenance body can run exactly when neither a maintenance nor an accept was cut off before leaving |
| `MaintenanceGate.MailGate.Begin` | app/runtime.py:386-397 | the method performs the begin up to its next suspension |
| `MaintenanceGate.MailGate.EndMaintenance` | app/runtime.py:399-402 | the method reopens the gate and notifies |
| `MaintenanceGate.MailGate.EnterAccept` | app/runtime.py:404-408 | the method counts an accept in, or waits |
| `MaintenanceGate.MailGate.LeaveAccept` | app/runtime.py:410-416 | the method counts an accept out without underflow |
| `Utf8Preview.PreviewRoundTrip` | app/ingest/storage.py:106-134 | the preview is the longest whole-character prefix within the cap, at most three bytes short when cut, and the whole body with the flag down exactly when it fits |
| `Utf8Preview.DecodeCut` | app/ingest/storage.py:130-132 | decoding the first k bytes of an encoding yields the longest prefix of whole characters |
| `Utf8Preview.DecodeEncode` | app/ingest/storage.py:76-84 | decoding undoes encoding |
| `Utf8Preview.StandardForm` | app/ingest/storage.py:76-84 | a character is written with the bytes of the table in section 3 of RFC 3629 |
| `Utf8Preview.CharIffEncoded` | app/ingest/storage.py:130-132 | the decoder yields a character exactly where its encoding stands |
| `Utf8Preview.DroppedIs` | app/ingest/storage.py:130-132 | it drops what no encoding begins with: one byte, or as much as is the start of some character |
| `Utf8Preview.PreviewCases` | app/ingest/storage.py:106-134 | no path gives an empty preview, a cap below one is refused, and the flag says whether there is more |

## Left out

- SQL text, pragmas, threads, futures and file descriptors: tables are maps, statements and locked regions are atomic steps.
- Writer catastrophic actor failure (app/db/writer.py:347-394): a request that was already released can be failed again there, so exactly-once release is not claimed for it.
- Read pool: creating and joining threads are steps of the state machine only, not methods of the class; exceptions that dispatch guards against but that an unbounded queue cannot raise are not steps.
- Admission deadlines: a timeout is a withdrawal at any moment, the clock that decides it is not modelled.
- Retention: rehoming a mailbox between snapshot and commit is excluded, and mailbox summary counts are not modelled; the alternation of garbage-collection batches and its liveness are not modelled.
- Clear-all: the other directories it moves, its compaction of the database and its maintenance lease with the ingest daemon; a transaction that is rolled back is no step; a thread that still moves receipts after a cancellation takes those that were there then, one at a time.
- Manifest contents and the scan order of recovery: `app/ingest/recovery.py` is not part of this model; replay is one transaction under the mail-store lock for any manifest found on disk.
- Usage-policy cache freshness: its lifetime starts when a policy is stored, not when it was read, so `KeyCache.ServedFresh` is about authentication records only.
- Delegation: legacy credentials, which skip the domain and mailbox grants; JSON and CIDR text parsing; malformed entries are values of the model. Bracket expressions are excluded by the pattern normaliser, so the glob model has none. Agreement with SQLite's own GLOB is not modelled.
- Delegation completeness: with wildcards, or with several parent networks, containment is sufficient but not necessary; the exact cases are stated as such.
- Live stream: parsing of cursor text, the field-by-field renaming of delivery payloads, and the database history shown when the ring has nothing to show.
- Outbox tailer: the fields of a published event besides its id; a clear-all that fails between its transaction and the reset of the cursor (app/runtime.py:343-358).
- Parse queue: `drain()` and the join counter, whose transient counts permit an early wake-up; `wait_until_not_active`.
- Credentials: who may act is a parameter of each transaction; password hashing, login-failure windows and the password worker pool are not modelled.
- PendingScan.PendingScanFair: times and ids are numbers with the order of the stored text; the page size is any positive number.
- Persistence of usage stamps, audit logs, metrics, HTTP routes, templates, settings, DNS and MIME parsing: plumbing around these protocols.
