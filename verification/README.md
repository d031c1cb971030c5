# Verified model of the authentication toolkit's stateful core

This project models, in Dafny, the parts of the toolkit that keep state across calls or must agree with each other
across packages, and proves what they promise.

- **Attempt guard** (`attempt_*.dfy`, `expiration_heap.dfy`, `memory_attempt_guard.dfy`): the map of failure times, the
  heap that indexes it and the two calls as objects with in-place updates; a plain log of failures as the specification;
  and the proof that callers cannot tell them apart.
- **Outbox** (`outbox_*.dfy`): each SQL statement as one atomic step on a map of rows; runs of statements; workers as
  program counters inside `runOnce` between whose steps anything else may happen, crashes and lost answers included; the
  store as an object; and `runOnce` once more as the loop it is, with a trace of what it did.
- **Challenges** (`challenge*.dfy`): the read and the guarded update as two steps, the in-memory operation as one, any
  number of callers interleaved, and core's check of the answer.
- **Credentials** (`credential*.dfy`, `authenticate.dfy`): the table, the in-memory index, the guarded updates, and
  `authenticate` with arbitrary statements of others between its reads and writes.
- **Stored values** (`secrets*.dfy`, `delivery_*.dfy`, `outbox_content.dfy`, `outbox_messages.dfy`,
  `poison_messages.dfy`): the secret serializer and reviver, the two delivery validators, and whether what was enqueued
  can be read again.
- **Side effects** (`effects_*.dfy`): splitting by policy, the two dispatchers, core's check and the merge.
- **Crypto framing** (`bytes.dfy`, `hmac_framing.dfy`, `sealing.dfy`, `random_strings.dfy`): HMAC framing, base64url
  (section 5 of RFC 4648), sealed text and random strings, around abstract primitives.

Code that changes things step by step is modelled by classes and methods with loops, each proved against a function that
says what it computes; the lemmas are about those functions. What the outside world answers (clocks, transports, sealers,
other sessions, which rows a statement picks) is a parameter that may be anything.

## Where the code does less than one would expect

Each of these is a lemma with a concrete input, or an exact condition.

- A delivery message whose data has a top-level field `type` equal to `protected-value` or `sealed-secret` passes the
  store's validator and is written, but its row cannot be read back: enqueue answers `STORE_UNAVAILABLE` although, outside
  a transaction, the row stays, and a claim that leases it fails for every row leased with it
  (`OutboxMessages.ReachesTheWorkerExactly`, and `PoisonMessages.PoisonIsKeptAndLeased` at a concrete message).
- Core rejects the store's answer to a failed attempt when the clock is behind the challenge's creation, because the
  updated record then looks invalid (`Challenges.CoreCheckPassesExactly`, `Challenges.ClockBehindCreationIsRejected`).
  Likewise an authentication that replaces material under such a clock succeeds and leaves a credential core will not read
  (`Authentication.ReplacedStaysUsableExactly`, `Authentication.EarlyClockLocksOut`).
- Consuming a failed challenge past its expiry answers `expired` and rewrites the row in the in-memory store, and answers
  `version-conflict` and leaves it in the Postgres one (`Challenges.AloneTheFormsAgree`,
  `Challenges.FailedPastExpiryDiffers`).
- A credential update that failed can be reported as `STORE_UNAVAILABLE` although nothing was unavailable, exactly when it
  asked for a version the credential had not reached yet, or for a credential that did not exist yet
  (`Credentials.MisreportedExactly`, `Credentials.MisreportedFailureExists`); a version its caller has read is safe.
- `undefined` itself is serialized but cannot be revived (`Secrets.RoundTrip`, `Secrets.UndefinedIsLost`).
- An enqueue whose inputs cross, one bearing the id of a row stored under another's key, is answered as unavailable after
  its rows were written (`OutboxEnqueue.AnswerIsUsableExactly`, `PoisonMessages.CrossedEnqueue`).
- The HMAC value bound of 5,242,880 bytes is never reached, since the conversion to bytes already stops at 5,000,000
  (`HmacFraming.ValueLimitNeverDecides`, `HmacFraming.ValueBetweenTheLimits`).

## Model

| member | source | states |
|---|---|---|
| AttemptRefinement.GuardAnswersAsTheLog | packages/guard-memory/src/guard/create-memory-attempt-guard.ts:24-83 | Under a clock that never goes back, every sequence of calls gets from the pruned, bounded map the answers of a plain log of counted failures that forgets nothing but what the guard promises to forget. |
| AttemptReplay.Replay | packages/guard-memory/src/guard/create-memory-attempt-guard.ts:17-83 | A new guard object, driven through any sequence of calls under such a clock, returns the answers of that log: pruning, heap, eviction and all. |
| AttemptRefinement.CallRefines | packages/guard-memory/src/guard/create-memory-attempt-guard.ts:53-83 | Each failure, success or question keeps the map equal to a view of the log: same keys in the same order, and per key the last maxFailures live times. |
| AttemptRefinement.AnswerRefines | packages/guard-memory/src/guard/create-memory-attempt-guard.ts:34-48 | Allow, deny and the seconds to wait computed from the map are those computed from the log. |
| AttemptLog.FirstFinalIsOldest | packages/guard-memory/src/guard/create-memory-attempt-guard.ts:165-169 | The key given up at capacity is the one whose latest counted failure is the oldest of all live keys. |
| AttemptWaiting.DeniedExactlyUntil | packages/guard-memory/src/guard/create-memory-attempt-guard.ts:34-48 | With no call in between, a denied key stays denied up to, and not at, the moment its blocking failure leaves the window. |
| AttemptWaiting.RetryAfterIsExact | packages/guard-memory/src/guard/create-memory-attempt-guard.ts:36-46 | Waiting the returned seconds is enough; coming one second earlier is not. |
| AttemptWaiting.WaitingIsEnough | packages/guard-memory/src/guard/create-memory-attempt-guard.ts:36-46 | It stays enough whatever other callers do in between, capacity evictions included. |
| ExpirationHeap.RootIsLeast | packages/guard-memory/src/guard/create-memory-attempt-guard.ts:112-113 | In heap order the first entry is due before every other. |
| ExpirationHeap.Heap.Push | packages/guard-memory/src/guard/create-memory-attempt-guard.ts:135-145 | Adds one entry, keeps every other and the heap order. |
| ExpirationHeap.Heap.Pop | packages/guard-memory/src/guard/create-memory-attempt-guard.ts:147-163 | Removes the first entry and nothing else, keeps the heap order; an empty heap answers nothing. |
| MemoryGuard.DueEntryPruned | packages/guard-memory/src/guard/create-memory-attempt-guard.ts:112-124 | Handling a due entry keeps every key indexed at exactly its first time plus the window, does not change what pruning will leave, and leaves strictly fewer expired keys. |
| MemoryGuard.StaleEntryPopped | packages/guard-memory/src/guard/create-memory-attempt-guard.ts:115-116 | Dropping an entry that no longer matches its key loses no entry any key needs. |
| MemoryGuard.MemoryAttemptGuard.PruneExpired | packages/guard-memory/src/guard/create-memory-attempt-guard.ts:106-125 | For any clock: terminates with every list cut to its live times, no expired key left, the index intact and the heap no larger. |
| MemoryGuard.MemoryAttemptGuard.BeforeAttempt | packages/guard-memory/src/guard/create-memory-attempt-guard.ts:25-52 | Answers from the pruned map; an invalid input or clock is an error that changes nothing it should not. |
| MemoryGuard.MemoryAttemptGuard.AfterAttempt | packages/guard-memory/src/guard/create-memory-attempt-guard.ts:53-83 | The new map is the pruned one with one key removed or one failure counted; keys stay within maxKeys and the heap within four times that. |
| MemoryGuard.MemoryAttemptGuard.CountFailure | packages/guard-memory/src/guard/create-memory-attempt-guard.ts:68-78 | Evicts only at capacity, moves the key to the end, keeps its last maxFailures times and indexes it. |
| MemoryGuard.MemoryAttemptGuard.RebuildExpirations | packages/guard-memory/src/guard/create-memory-attempt-guard.ts:127-133 | A heap with one current entry for each key, no more entries than keys. |
| OutboxInvariants.StatementKeepsInv | packages/store-postgres/src/store/outbox.ts:127-300 | Every statement keeps: pending has no attempts, failed some but fewer than allowed, claimed fewer than allowed; exactly claimed rows hold a lease, one issued for them; leases issued for a row account for its attempts and never exceed its maxAttempts. |
| OutboxRuns.RowStep | packages/store-postgres/src/store/outbox.ts:127-300 | Every statement but a renewal that changes a row in any column strictly lowers 2*(max - attempts) plus one when waiting; dispatched and dead rows are only ever removed, and only by cleanup. |
| OutboxRuns.MovesAreBounded | packages/store-postgres/src/store/outbox.ts:127-300 | In any run a row changes status or attempts at most 2*maxAttempts + 1 times. |
| OutboxRuns.ClaimsAreBounded | packages/store-postgres/src/store/outbox.ts:169-189 | In any run a row is claimed at most maxAttempts times. |
| OutboxRuns.ReleasedOnce | packages/store-postgres/src/store/outbox.ts:130-278 | In any run, under any clocks, at most one mark, reclaim or expiry ends a given lease. |
| OutboxRuns.UseAfterReleaseFails | packages/store-postgres/src/store/outbox.ts:201-278 | Afterwards every renewal and mark under that lease changes nothing. |
| OutboxRuns.StatementKeepsUniqueKeys | packages/store-postgres/src/schema/postgres-schema.ts:229-231 | At most one row per tenant and idempotency key, after every statement. |
| OutboxStore.PostgresOutboxStore.ClaimBatch | packages/store-postgres/src/store/outbox.ts:127-199 | Three statements, with anything other sessions run between them; every row leased is then held by the caller and has not expired; the answer holds them all, read back, exactly unless the data of one poses as a secret: then it is STORE_UNAVAILABLE for all, and all stay leased; invalid input touches nothing. |
| OutboxStore.PostgresOutboxStore.RenewLease | packages/store-postgres/src/store/outbox.ts:201-235 | Extends the lease exactly when the caller holds it and it has not run out, and then returns the stored lease; otherwise nothing changes. |
| OutboxStore.PostgresOutboxStore.MarkDispatched | packages/store-postgres/src/store/outbox.ts:237-252 | Succeeds exactly for the holder of a live lease and then releases the row as dispatched. |
| OutboxStore.PostgresOutboxStore.MarkFailed | packages/store-postgres/src/store/outbox.ts:254-278 | Succeeds exactly for the holder of a live lease who gives a safe reason; one attempt more; dead when told so or out of attempts, else failed until the retry time. |
| OutboxStore.PostgresOutboxStore.CleanupTerminal | packages/store-postgres/src/store/outbox.ts:280-300 | Removes only settled rows of the asked statuses that are old enough, within the limit, and says how many; invalid input touches nothing. |
| OutboxEnqueue.UpsertsExactly | packages/store-postgres/src/store/outbox.ts:81-100 | The statement succeeds exactly when, before it, every input finds its key taken or its id free and its attempt bound fits 32 bits. |
| OutboxEnqueue.AnswerIsUsableExactly | packages/store-postgres/src/store/outbox.ts:97-108 | The joined row count equals the batch size exactly when no input bears the id of a row stored, before the call, under another input's key; then answer i is the row of input i. |
| OutboxEnqueue.UpsertAllFacts | packages/store-postgres/src/store/outbox.ts:81-96 | Each input got a row of its own or the row that already had its key; rows that were there are unchanged; nothing else appears. |
| OutboxStore.PostgresOutboxStore.CheckBatch | packages/store-postgres/src/store/outbox.ts:41-77 | The loop over two sets of joined key texts accepts exactly batches without repeated ids or keys that serialize within the payload limit. |
| OutboxStore.KeyTextIsInjective | packages/store-postgres/src/store/outbox.ts:42-46 | Joining tenant and id with a zero character is unambiguous because stored texts contain none. |
| OutboxStore.PostgresOutboxStore.EnqueueBatch | packages/store-postgres/src/store/outbox.ts:25-117 | Told from the batch and the table before it: refused without a trace exactly when not acceptable or not upsertable; else written, and answered position by position with the rows read back, exactly unless it crosses or a row it resolves to has data that poses: then it is written and STORE_UNAVAILABLE. |
| OutboxStore.PostgresOutboxStore.Enqueue | packages/store-postgres/src/store/outbox.ts:120-124 | One message: the row created or collided with, read back, exactly unless its data poses; a batch of one never crosses. |
| PoisonMessages.CrossedEnqueue | packages/store-postgres/src/store/outbox.ts:97-108 | Two messages stored under their own keys, then enqueued again with the keys exchanged: the answer is STORE_UNAVAILABLE. |
| OutboxSafety.ActionKeepsInv | packages/outbox-worker/src/worker/create-outbox-worker.ts:65-256 | The joint invariant of table and workers survives every step: a statement of any worker, an answer lost or refused, a crash, a cleanup, an enqueue. |
| OutboxDelivery.OkReportAddsUp | packages/outbox-worker/src/worker/create-outbox-worker.ts:248-257 | A run that reports ok has claimed = dispatched + failed, in every interleaving. |
| OutboxDelivery.EachLeaseSendsOnce | packages/outbox-worker/src/worker/create-outbox-worker.ts:205-217 | No lease is used for two sends. |
| OutboxDelivery.SendsAreBounded | packages/outbox-worker/src/worker/create-outbox-worker.ts:205-217 | Over any interleaving, crashes and reclaims included, a row is handed to the transport at most maxAttempts times. |
| OutboxDelivery.DispatchedWasAccepted | packages/outbox-worker/src/worker/create-outbox-worker.ts:210-230 | A row is dispatched only after the transport accepted it under a lease issued for that row. |
| OutboxClock.SendHoldsTheRow | packages/outbox-worker/src/worker/create-outbox-worker.ts:178-217 | On one clock that never goes back, when a send starts the row is claimed under the sender's own lease and neither lease nor message has expired. |
| OutboxClock.OneSenderPerMessage | packages/outbox-worker/src/worker/create-outbox-worker.ts:178-217 | Two workers are never sending one message while both leases live. |
| OutboxRunOnce.WorkerRun.RunOnce | packages/outbox-worker/src/worker/create-outbox-worker.ts:65-256 | The loop against collaborators that answer anything: every event of its trace is the one the answers so far call for; it is ok exactly when no claim, renewal or mark was refused and no message dropped; ok counts are the marks made, one for each claim; and it must be ok when the store answered as it should with leases that outlast the run. |
| OutboxRunOnce.CleanRunIsUntroubled | packages/outbox-worker/src/worker/create-outbox-worker.ts:65-256 | Claims of distinct well formed messages, renewals and marks answered as they should leave nothing to report, whatever sealer and transport say. |
| OutboxRunOnce.NoLeaseSendsTwice | packages/outbox-worker/src/worker/create-outbox-worker.ts:96-101 | In an orderly trace no message is sent twice under one lease, though the store may hand it out again. |
| OutboxRunOnce.OrderlyMeansEveryEventJustified | packages/outbox-worker/src/worker/create-outbox-worker.ts:65-246 | In an orderly trace every event is called for by the events before it and the answers in force: a send of the message this iteration claimed, right after its second renewal; a dispatch mark only after acceptance; a failure for good exactly when the message had expired before it was sent, else for one retry delay. |
| OutboxRunOnce.WorkerRun.CurrentTime | packages/outbox-worker/src/worker/create-outbox-worker.ts:48-55 | The reading is never before the previous one, and otherwise start plus elapsed, within the date range. |
| OutboxRunOnce.WorkerRun.RenewMessageLease | packages/outbox-worker/src/worker/create-outbox-worker.ts:261-307 | A renewal counts only when it repeats lease and worker and ends after now. |
| OutboxRunOnce.WorkerRun.Open | packages/outbox-worker/src/worker/create-outbox-worker.ts:125-145 | After the first renewal an expired message is failed for good and a lease that has run out ends the iteration; otherwise it is unsealed and processing goes on, every step recorded as one the answers call for. |
| OutboxRunOnce.WorkerRun.Hand | packages/outbox-worker/src/worker/create-outbox-worker.ts:190-245 | After the second renewal the same two ways out; otherwise it is sent, and marked dispatched or failed as the transport answered. |
| ChallengeRuns.CallsAreAtomic | packages/store-postgres/src/store/challenges.ts:51-103 | In any interleaving, the step that answers a call is one atomic operation of the in-memory form at that moment, exactly unless it consumes a failed challenge past its expiry. |
| ChallengeRuns.ConsumedAtMostOnce | packages/store-postgres/src/store/challenges.ts:80-103 | At most one caller is told 'consumed', and the stored attempts are the failures recorded since creation. |
| ChallengeRuns.ConsumedOnlyWhenAllowed | packages/store-postgres/src/store/challenges.ts:80-103 | Who is told 'consumed' read a pending challenge, not expired by the time given, with failures to spare and never consumed before, and updated that very row. |
| ChallengeRuns.SettledForGood | packages/store-postgres/src/store/helpers.ts:32-42 | Once consumed, failed or expired, a challenge never changes again and nothing more is counted against it. |
| ChallengeRuns.CoreAcceptsEveryAnswer | packages/core/src/validation/store.ts:197-241 | Every answer core can get to a failed attempt it asked to record passes its check, exactly when it is a conflict or the clock is not behind the challenge's creation. |
| Challenges.UpdateIsAtOnce | packages/store-postgres/src/store/challenges.ts:51-103 | A planned update, whenever it runs, is the atomic operation at that moment, exactly outside the failed-past-expiry case. |
| Challenges.AloneTheFormsAgree | packages/testkit/src/stores/challenges.ts:31-111 | Without interference both stores give the same answer and row, exactly outside that case, where one leaves the row and reports a conflict and the other writes and reports an expiry. |
| Challenges.FailedPastExpiryDiffers | packages/store-postgres/src/store/challenges.ts:86-93 | A concrete challenge on which the two stores differ. |
| Challenges.CoreCheckPassesExactly | packages/core/src/validation/store.ts:197-223 | For a remembered pending challenge the answer is a conflict exactly when the version moved, and passes exactly when it is one or the clock is not behind the creation. |
| Challenges.ClockBehindCreationIsRejected | packages/core/src/validation/store.ts:141-163 | A concrete answer the store gives and core rejects. |
| Challenges.StatementsKeepMemory | packages/store-postgres/src/store/helpers.ts:32-42 | Whatever runs in between, a row still at the version that was read is the row that was read. |
| ChallengeStores.PostgresChallenges.RecordFailedAttempt | packages/store-postgres/src/store/challenges.ts:51-79 | With arbitrary statements between its read and its update, the method is the atomic operation at one of the two moments. |
| ChallengeStores.PostgresChallenges.ConsumePending | packages/store-postgres/src/store/challenges.ts:80-103 | The same, and in the failed-past-expiry case nothing is written and the answer is a conflict. |
| ChallengeStores.MemoryChallenges.RecordFailedAttempt | packages/testkit/src/stores/challenges.ts:31-73 | One write of the map gives what read and guarded update give without interference. |
| ChallengeStores.MemoryChallenges.ConsumePending | packages/testkit/src/stores/challenges.ts:74-111 | The same outside the failed-past-expiry case, where the row becomes expired. |
| ChallengeStores.MemoryChallenges.CleanupExpired | packages/testkit/src/stores/challenges.ts:112-136 | Expires due challenges of the tenant in insertion order up to the limit, counts them, and leaves none due when the limit was not reached. |
| ChallengeStores.CleanupLimit | packages/store-postgres/src/store/helpers.ts:11-17 | A limit is accepted exactly when absent or from 1 to 1000. |
| Authentication.Authenticator.Authenticate | packages/core/src/operations/authenticate.ts:57-284 | Succeeds exactly when everything outside permits it, the method accepts the material, and the very same active credential is what the transaction reads again and replaces, whatever ran in between; a failed call leaves nothing of its own. |
| Authentication.Authenticator.Persist | packages/core/src/operations/authenticate.ts:286-348 | Checking ids, status and version is checking that the credential is unchanged; new material goes under the next version of exactly that row. |
| Authentication.ReplacedStaysUsableExactly | packages/core/src/operations/authenticate.ts:328-348 | After a replacement the next call can verify the credential exactly when the clock was not behind its creation. |
| Authentication.EarlyClockLocksOut | packages/core/src/operations/authenticate.ts:328-348 | A concrete table, identity and call under a clock behind the credential's creation: the call succeeds and no credential can be verified after it. |
| Credentials.SameVersionIsSameCredential | packages/store-postgres/src/store/credentials.ts:48-86 | Over any run of statements, equal version means equal credential of the same owner. |
| Credentials.OneChangePerVersion | packages/store-postgres/src/store/credentials.ts:48-86 | Two changes guarded by one version of a credential cannot both take effect. |
| Credentials.AloneTheFormsAgree | packages/testkit/src/stores/credentials.ts:58-104 | Without interference the guarded update and its classifying read are the atomic change. |
| Credentials.MisreportedExactly | packages/store-postgres/src/store/credentials.ts:90-110 | Told from the table before a failed update, whatever others may then run: its explanation can differ from what the atomic change would say exactly when the credential was at a lower version than the one asked for, or was absent and could still be created. |
| Credentials.ReadVersionsAreExplained | packages/store-postgres/src/store/credentials.ts:90-110 | An update guarded by a version its caller once read is always explained as the atomic change would be. |
| Credentials.MisreportedFailureExists | packages/store-postgres/src/store/credentials.ts:90-110 | A concrete update of a version not reached yet, answered STORE_UNAVAILABLE although the change would apply by then. |
| Credentials.FailureIsClassifiedExactly | packages/store-postgres/src/store/credentials.ts:90-110 | At the classifying read itself the report is right exactly when the change still does not apply. |
| Credentials.StatementKeepsTable | packages/store-postgres/src/schema/postgres-schema.ts:53-63 | Every statement keeps one credential per identity and method, stored under its own id. |
| CredentialStores.MemoryCredentials.Create | packages/testkit/src/stores/credentials.ts:20-43 | Creates exactly when valid, owned, and neither id nor identity and method are taken; the index keeps agreeing with the table. |
| CredentialStores.MemoryCredentials.FindForIdentity | packages/testkit/src/stores/credentials.ts:49-57 | Two lookups through the index find what a search of the whole table would. |
| CredentialStores.MemoryCredentials.Change | packages/testkit/src/stores/credentials.ts:58-104 | Material and status changes store and answer what the guarded update does, and keep the index. |
| CredentialStores.PostgresCredentials.Change | packages/store-postgres/src/store/credentials.ts:48-110 | With arbitrary statements before the classifying read, a success is the atomic change and a failure is explained exactly. |
| Secrets.RoundTrip | packages/store-postgres/src/serialization/secrets.ts:17-189 | What the serializer accepts comes back within the reviver's own budgets as the tree minus undefined fields, exactly when it is not itself undefined and no plain object in it has a stored secret's type name. |
| Secrets.UndefinedIsLost | packages/store-postgres/src/serialization/secrets.ts:17-126 | The value undefined is serialized as itself, and reviving it fails. |
| Secrets.ComesBack | packages/store-postgres/src/serialization/secrets.ts:17-189 | At every depth, for trees that do not pose, reviving spends no more nodes and characters than serializing did. |
| Secrets.CameBack | packages/store-postgres/src/serialization/secrets.ts:128-167 | A tree that comes back unchanged has no plain object posing as a secret. |
| SecretsTraversal.Traversal.Serialize | packages/store-postgres/src/serialization/secrets.ts:17-106 | The traversal with its shared counters accepts exactly the trees that pass every local check and fit what is left of the budgets, and spends exactly their cost. |
| SecretsTraversal.Traversal.ReviveValue | packages/store-postgres/src/serialization/secrets.ts:108-183 | The same for reading. |
| SecretsTraversal.Traversal.ConsumeCharacters | packages/store-postgres/src/serialization/secrets.ts:185-189 | Accepts a text exactly within its own limit and what is left of the shared one. |
| SecretsTraversal.StoreAndLoad | packages/store-postgres/src/serialization/secrets.ts:17-183 | Both traversals in turn, each with its own budgets, give the round trip. |
| OutboxMessages.ReachesTheWorkerExactly | packages/store-postgres/src/store/outbox.ts:304-343 | After any statements run on an empty table with arguments the store's validators accepted, a claimed row reaches the worker as the message that was enqueued, minus undefined fields, exactly when its data has no top-level type saying 'protected-value' or 'sealed-secret'. |
| OutboxMessages.ReadOnceIsNeverPoison | packages/store-postgres/src/store/outbox.ts:109-116 | A row that could be read back at any time, as an answered enqueue does, reaches the worker from every later claim of it. |
| OutboxMessages.ReadExactly | packages/store-postgres/src/store/outbox.ts:304-343 | Of any stored row: read back as it is minus undefined fields, or, exactly when its data poses, not at all. |
| OutboxMessages.StatementKeepsStored | packages/store-postgres/src/store/outbox-validation.ts:30-58 | Every statement with validated arguments keeps each row one the store's validator accepts and its serializer can write. |
| PoisonMessages.PoisonIsKeptAndLeased | packages/store-postgres/src/store/outbox.ts:25-199 | A good and a posing message through the store: the first is answered, the second is stored under STORE_UNAVAILABLE, and claiming both answers STORE_UNAVAILABLE and leaves both leased. |
| OutboxContent.PurposeNamesTheMessage | packages/store-postgres/src/store/outbox-validation.ts:60-62 | The JSON text secrets are sealed for determines tenant and message, quotes and backslashes in them included. |
| OutboxContent.PurposeIsSafe | packages/store-postgres/src/store/outbox-validation.ts:36-37 | For valid ids that text is safe and within 4096 characters, so its own check refuses nothing. |
| DeliveryData.StoreAcceptsLess | packages/outbox-worker/src/delivery/validation.ts:18-153 | Every message the store's validator accepts the worker's accepts, though they count nodes, depth and characters differently. |
| DeliveryData.StrictJsonIsJson | packages/outbox-worker/src/shared/json.ts:13-36 | The store's JSON check at some depth implies the worker's at that depth or above. |
| DeliveryData.OnlyDataPoses | packages/store-postgres/src/store/outbox-validation.ts:117-213 | In an accepted message nothing but the top level of its data can pose as a secret. |
| DeliveryData.PosingDataIsLost | packages/store-postgres/src/serialization/secrets.ts:128-167 | Data that poses is read back as a secret or not at all, and is then no longer delivery data. |
| DeliveryData.StrippedMessage | packages/store-postgres/src/store/outbox-validation.ts:126-138 | Dropping undefined fields keeps a message acceptable to the store. |
| DeliveryValidation.JsonTraversal.IsJsonValue | packages/store-postgres/src/store/outbox-validation.ts:181-202 | The traversal with shared counters accepts exactly JSON within what is left of the budgets. |
| DeliveryValidation.CheckStoredData | packages/store-postgres/src/store/outbox-validation.ts:140-160 | One budget for keys, values and ciphertexts accepts exactly data whose totals fit. |
| DeliveryValidation.CheckClaimedData | packages/outbox-worker/src/delivery/validation.ts:73-136 | Two passes with separate budgets accept exactly data whose totals fit theirs. |
| DeliveryValidation.CheckJsonObject | packages/outbox-worker/src/shared/json.ts:5-11 | Each side's object check, entered at its own depth and count. |
| EffectsDispatch.MergedCoversExactly | packages/core/src/effects/dispatch.ts:30-128 | After the required half succeeded, the merged report places every original index exactly once, exactly unless the best-effort half was dropped, and never reports a required effect as failed. |
| EffectsDispatch.RemappedCovers | packages/core/src/effects/dispatch.ts:118-135 | A report that covers the selected effects covers, mapped back, exactly their original indexes. |
| EffectsDispatch.RemapPermutation | packages/core/src/effects/dispatch.ts:130-135 | Mapping a permutation through the index list gives each listed index once. |
| EffectsDispatch.SelectionsPartition | packages/core/src/effects/dispatch.ts:106-108 | The two selections have every index exactly once between them. |
| EffectsDispatch.MergePlaces | packages/core/src/effects/dispatch.ts:30-43 | Merging places what the two halves place, as often as they do. |
| EffectsDispatch.CheckIndexes | packages/core/src/effects/dispatch.ts:220-229 | The loop with its set accepts exactly the lists that have each index once. |
| EffectsDispatch.CheckDispatchResult | packages/core/src/effects/dispatch.ts:208-231 | Accepts exactly reports that cover the effects and fail only best-effort ones. |
| EffectsDispatchers.SyncDispatch | packages/effects-sync-delivery/src/dispatcher/create-sync-delivery-effects.ts:34-111 | Ok exactly when the effects are few enough, every required one is well formed, in time and accepted, and no clock reading goes back; the report then passes core's check and dispatches exactly the deliverable effects accepted in time, in order. |
| EffectsDispatchers.OutboxDispatch | packages/effects-outbox/src/dispatcher/create-outbox-effects-dispatcher.ts:47-226 | Ok exactly when the effects are few enough, the transaction covers the outbox, every required one is prepared, stored in time and acknowledged, no clock reading goes back and no best-effort batch ends the dispatch; the report passes core's check and defers exactly what was written and acknowledged, which inside a transaction is all that was written. |
| EffectsDispatchers.EnqueueBestEffort | packages/effects-outbox/src/dispatcher/create-outbox-effects-dispatcher.ts:181-217 | A refused or wrongly acknowledged best-effort batch fails its effects outside a transaction and ends the dispatch inside one; a bad clock after the acknowledgement ends it either way. |
| EffectsDispatchers.Prepare | packages/effects-outbox/src/dispatcher/create-outbox-effects-dispatcher.ts:65-142 | Each effect is prepared or failed, once, and prepared exactly when well formed, named, sealed and in time; it ends the dispatch exactly at a bad clock or a required effect that is not. |
| EffectsDispatchers.Clock.CurrentTime | packages/effects-outbox/src/dispatcher/create-outbox-effects-dispatcher.ts:231-256 | A reading counts exactly when it is a time not before the last one. |
| HmacFraming.FramingIsInjective | packages/crypto-node/src/provider/create-node-crypto-provider.ts:141-187 | Within the code's bounds different contexts or values are never hashed as the same bytes. |
| HmacFraming.FrameComesBack | packages/crypto-node/src/provider/create-node-crypto-provider.ts:175-180 | A reader recovers whether there was a context, its bytes and the value. |
| HmacFraming.OnlyFramesAreRead | packages/crypto-node/src/provider/create-node-crypto-provider.ts:175-180 | The reader accepts nothing but frames. |
| HmacFraming.LengthComesBack | packages/crypto-node/src/provider/create-node-crypto-provider.ts:183-187 | Four big-endian bytes give the length back, below 2^32. |
| HmacFraming.MaterialOf | packages/crypto-node/src/provider/create-node-crypto-provider.ts:141-160 | Accepted exactly when key, value and context pass the conversion's and their own limits, and then with the bytes given; all within what four length bytes can hold. |
| HmacFraming.ValueLimitNeverDecides | packages/crypto-node/src/shared/encoding.ts:17-26 | The limit of 5,242,880 bytes on a value decides nothing: any limit from the conversion's 5,000,000 on gives the same answers. |
| HmacFraming.ValueBetweenTheLimits | packages/crypto-node/src/shared/encoding.ts:17-26 | A value of 5,000,001 bytes is within the documented limit and refused. |
| HmacFraming.HmacDigest | packages/crypto-node/src/provider/create-node-crypto-provider.ts:162-181 | Feeding the hash part by part hashes exactly the frame, new or legacy. |
| RandomStrings.EveryCharacterEquallyLikely | packages/crypto-node/src/provider/create-node-crypto-provider.ts:54-59 | Every character has the same number of accepted bytes, and the limit is the largest that allows it. |
| RandomStrings.RandomSecretString | packages/crypto-node/src/provider/create-node-crypto-provider.ts:36-64 | The string is the first characters drawn from the random bytes, however they were batched. |
| Bytes.DecodeEncode | packages/crypto-node/src/sealing/create-node-secret-sealer.ts:99-101 | Unpadded base64url reads back the bytes it wrote. |
| Bytes.EncodedLength | packages/crypto-node/src/sealing/create-node-secret-sealer.ts:49 | n bytes take the least whole number of characters at four for three. |
| Bytes.CanonicalExactly | packages/crypto-node/src/sealing/create-node-secret-sealer.ts:117-120 | The parts accepted are exactly the encodings of at least one byte. |
| Sealing.UnsealsExactlyUntilExpiry | packages/crypto-node/src/sealing/create-node-secret-sealer.ts:27-113 | What was sealed is unsealed as the same value, exactly until it expires. |
| Sealing.SealsExactly | packages/crypto-node/src/sealing/create-node-secret-sealer.ts:27-60 | Sealing succeeds exactly on a safe purpose, a real or absent expiry and a value of at most 3,749,969 bytes; the text limit refuses nothing more. |
| Sealing.SizeLimitIsTight | packages/crypto-node/src/sealing/create-node-secret-sealer.ts:15-16 | The text of a value fits in 5,000,000 characters exactly up to that size: one byte more would not. |
| Sealing.JoinedSplits | packages/crypto-node/src/sealing/create-node-secret-sealer.ts:94-102 | The text splits at its dots into the same three canonical parts. |
| Sealing.AadIsInjective | packages/crypto-node/src/sealing/create-node-secret-sealer.ts:142-144 | The associated data fixes both purpose and expiry. |

## Left out

- The order in which a statement picks rows (`order by`, `skip locked`): a statement may pick any set of eligible rows
  within its limit, which covers every order.
- Postgres itself: planning, isolation below one statement, jsonb's reordering of object keys and of numbers, 32-bit
  version columns.
- Failing connections: in the store object every statement runs and its answer arrives; a statement that is refused or
  whose answer is lost is a step of `OutboxWorkers`.
- How long a JSON text is: an enqueued message comes with the lengths of its two texts.
- OutboxRunOnce.WorkerRun.RunOnce: runs alone against arbitrary answers; interleaving is in `OutboxWorkers`, whose
  workers are values, not objects.
- Shared references inside a value: a tree is a finite value, so the cycle check of the traversals never fires; the keys
  of an object are assumed distinct where that matters.
- Objects that are not plain: dates, functions, raw secrets and ill-formed secret objects are one leaf every check
  refuses; prototypes, accessors and frozen snapshots are not modelled, nor is a custom secret factory.
- Dates are always valid ones, and a message's keys and the name of its policy are one flag of the input.
- Authentication.Authenticator.Authenticate: attempt bookkeeping, sessions, effects and the account are answers from
  outside; a rollback undoes the one credential the call replaced.
- RandomStrings.RandomSecretString: the source draws batches for as long as it needs; here they are given and the result
  is absent when they do not suffice.
- Text is a sequence of characters, where the source counts UTF-16 units; UTF-8, ISO dates, HMAC, AES-GCM and random
  sources are abstract, with the laws they are used for stated as requirements.
- The key of an attempt is one text; how it is put together from the input is not modelled.
- Structural equality stands for core's fingerprints.
- Dispatch items carry an index and a reason; their constant type and optional details are not modelled. An effect whose
  policy is neither of the two known ones counts as required, which is how the dispatchers treat it.
- Account, identity and session stores, begin and the rest of complete, PBKDF2, transports, carriers, sinks and scripts:
  they would add easier members only.
