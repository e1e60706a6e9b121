# Redgres, modelled and proved in Dafny

Redgres is a console for one PostgreSQL server and one Redis server. This project models the
parts of it that have real state or a real format, and proves what they promise.

The largest part is the **duplicate-database job**. A request queues an operation together
with its resource locks; a poller clones the database over some twenty separate statements,
undoes them when one fails, and records the end. The process can die between any two
statements, and on restart `Reconcile` has to bring every half-finished job to a terminal
state by looking at what is left in PostgreSQL.

| files | what they hold |
|---|---|
| `Operations`, `OperationStore` | the operations table with its locks as a value, the runs of it, and the store class with `Reconcile` |
| `Catalog`, `Scripts`, `ScriptProofs`, `Verdicts`, `DropProofs`, `PostgresService` | PostgreSQL and the vault as state; the statement sequences of create, duplicate, undo and drop as automata; what holds under every schedule of failures; which jobs are served and which error any other meets; the service methods, each proved to be one run of its automaton |
| `Saga`, `SagaProofs`, `SagaRecovery` | store, catalog and process together, with crashes, restarts and other clients; its invariant; crash recovery |
| `SagaTransfer`, `SagaFailure`, `SagaWitness` | what `succeeded` says about the ownership transfer and `failed` about what is left, told by the history of the run; runs that show the surprising cases |
| `Membership` | temporary role memberships during the ownership transfer of a clone |
| `ServiceLocks` | truncate, drop and duplicate as interleaved threads over three mutexes |
| `Lockout`, `LockoutLaw` | the login back-off over a sliding window: bounds of every wait, and the exact wait after the failures let through |
| `Base64`, `Fernet` | vault tokens |
| `JsonStrings`, `JsonWalker` | the two guards in front of the backup manifest's JSON decoder |
| `Texts`, `Decimals`, `EnvFile`, `AuditPaging`, `PasswordHash` | env-file rewriters, audit cursor and paging, password hash text |
| `RedisPresets`, `RedisAcl`, `RedisService` | Redis ACL lines: written, parsed back, and the service calls in between |

How the model stands to the code:

- Objects that update fields in place are classes with the same fields; loops are loops. Where
  a method is long it is split into the helper methods named below, in the order of the source.
- A call to PostgreSQL, the vault or SQLite either has its whole effect or fails without one.
  Which calls fail is a parameter, so each theorem speaks of every schedule of failures.
- Clock values, random bytes, the block cipher, the MAC and the password KDF are parameters.
  The theorems know only that cipher and its inverse undo each other and how long outputs are.
- All times are whole nanoseconds.

What the proofs brought to light:

- `failed` written by the poller does not always mean that nothing is left. Errors of the kinds
  conflict, field, in progress, not found and protected are not compensated a second time, and
  the undo inside `Duplicate` swallows its own errors. The role stays if and only if the source
  was found gone at one of the two isolation checks and one of the undo's calls from its DROP
  DATABASE on failed; the clone stays if and only if that DROP failed
  (`SagaFailure.PollerFailureLeavesIff`). `SagaWitness.FailsWithCloneLeft` is a run from the
  first start to a failed row with clone and role there and the locks released.
- `succeeded` after a restart means that clone, role and vault row exist: Reconcile looks for
  nothing else. A job ends so if and only if all three were there at the crash and it was not
  being compensated (`SagaRecovery.CrashRecovery`). The vault row is written before the ownership
  transfer, so the clone's objects are where the transfer puts them if and only if it had run
  before the crash or there was nothing to move (`SagaTransfer.RecoveredTransferIff`). A crash
  just before the transfer gives a success without it (`SagaWitness.SucceedsUntransferred`), and
  a crash just after `Duplicate` refused the job gives a success too
  (`SagaWitness.RefusedJobSucceeds`). When the poller itself writes `succeeded` the transfer has
  always run (`SagaTransfer.SuccessIsTransferredIff`).
- The ownership transfer can depend on the order in which the catalog lists objects
  (`Membership.OrderMatters`). It succeeds in every order if and only if the session has or may
  take each owner, and no two owners that it must take are members of one another without
  inheriting (`Membership.EveryOrderSucceedsIff`).
- A permissions update of a Redis user keeps its first on/off flag, while reading obeys the last;
  `RedisAcl.UpdateKeepsEnabledIff` says when the two agree, and `RedisAcl.UpdateMayFlipEnabled`
  shows a line, `user u on off`, whose disabled user an update enables.
- The secret-name check of the manifest walker never decides anything: no allowed field name is
  on the list (`JsonWalker.AllowedIsNotSecret`).
- Text behind the last argon2 parameter of a hash is ignored (`PasswordHash.TrailingTextIsIgnored`).

## Model

| member | source | states |
|---|---|---|
| Operations.EveryRunKeepsLedger | internal/operations/store.go:74-149 | in every run of inserts, transitions and prunes each lock row has one holder whose operation exists, a live operation holds exactly the locks it was inserted with, and a terminal one holds none unless it is indeterminate and got there with KeepLocks |
| Operations.LiveOperationsAreDisjoint | internal/operations/store.go:114-149 | two live operations never hold a common resource |
| Operations.LegalEdgeRises | internal/operations/store.go:580-593 | every legal edge raises the status rank |
| Operations.EdgesAre | internal/operations/store.go:580-593 | an operation's life has exactly twelve edges |
| Operations.InsertAnswers | internal/operations/store.go:74-149 | the error of an insertion, in the order of the checks; nothing is written on any of them, and otherwise there is one queued row more with its defaults, holding exactly the locks asked for |
| Operations.TransitionAnswers | internal/operations/store.go:409-495 | the error of a transition, in order; otherwise its row alone changes, field by field as stated, and its locks go exactly if it has ended without KeepLocks |
| Operations.StepRaisesRank | internal/operations/store.go:409-495 | a call leaves an operation's status or moves it along a legal edge |
| Operations.AtMostFourStatusChanges | internal/operations/store.go:409-495 | an operation changes status at most four times, less the rank it starts from, in any run that keeps its row |
| Operations.EveryRunIsWellFormed | internal/operations/store.go:604-644 | in every run, whatever times callers give, finished_at is set exactly on terminal rows and on rows that some change gave an explicit finish time, a success has a result, a queued row has not started, and only failed or indeterminate rows carry an error |
| Operations.OrderIsUnique | internal/operations/store.go:323-326 | the prune query, by finish time and id with the unfinished first, has one answer: two lists of the same ids in its order are equal |
| Operations.OverflowIsOldest | internal/operations/store.go:320-357 | the overflow prune deletes terminal rows only, as many as exceed the limit, all older than those kept |
| Operations.PruneKeepsTheLive | internal/operations/store.go:299-357 | a prune leaves no expired row and no more terminal rows than the limit, drops no live row, and drops a lock only with its operation |
| Operations.PruneDropsOnly | internal/operations/store.go:299-357 | a pruned row had ended, and either more than thirty days ago or no later than each of the ten thousand ended rows that stay |
| Operations.PruneLeavesNone | internal/operations/store.go:299-357 | after a prune no ended row is older than thirty days and at most ten thousand have ended |
| Operations.PruneIsIdempotent | internal/operations/store.go:299-357 | pruning twice at one instant is pruning once |
| Operations.ResultFromAnyRowOrder | internal/operations/store.go:396-407 | from the lock rows of a job, in whatever order they come, the enqueued triple is rebuilt |
| OperationStore.EndIsFinal | internal/operations/store.go:155-297 | what Reconcile makes of an unfinished row is terminal, and a queued row is left alone |
| OperationStore.ProbeDecidesEnd | internal/operations/store.go:197-297 | the end of a running or interrupted row for every answer of the probe: no probe, a failed or an undecided one end it indeterminate, each with its error; no clone and no role ends it failed whatever the compensator says; all three pieces succeed; anything else is the compensator's, failed and released if it succeeds, indeterminate with the locks kept if not |
| OperationStore.CompensatorDecidesEnd | internal/operations/store.go:169-185 | a row found compensating is compensated again and ends failed, or indeterminate with its locks kept |
| OperationStore.ReconcileIsComplete | internal/operations/store.go:155-195 | after a successful Reconcile nothing is running, compensating or interrupted, and queued rows are untouched |
| OperationStore.SecondReconcileChangesNothing | internal/operations/store.go:155-195 | a second Reconcile at the same time changes nothing, whatever its probe and compensator answer |
| OperationStore.RecoveredResultIsTheJob | internal/operations/store.go:236-260 | a recovered operation succeeds exactly when the probe found all three pieces, with the enqueued triple as its result |
| OperationStore.ReleasesUnlessUndoFailed | internal/operations/store.go:273-297 | locks outlive Reconcile exactly on operations that end indeterminate because their compensation failed |
| OperationStore.MarkedThenSettled | internal/operations/store.go:155-168 | marking the running operations interrupted first does not change where any of them ends |
| OperationStore.Store.InsertQueued | internal/operations/store.go:74-149 | the new table and the error are those of an atomic insert: refused on a held lock, and then nothing is written |
| OperationStore.Store.Transition | internal/operations/store.go:409-495 | the new table and the error are those of one legal edge; being in the target status already is success; a storage error writes nothing |
| OperationStore.Store.IdsByStatus | internal/operations/store.go:359-374 | lists exactly the operations of a status, each once |
| OperationStore.Store.LocksFor | internal/operations/store.go:376-394 | lists exactly the lock rows of an operation, each once |
| OperationStore.Store.FinishCompensation | internal/operations/store.go:273-297 | ends a compensating operation failed, or indeterminate with its locks kept, as the compensator decides |
| OperationStore.Store.ResolveInterrupted | internal/operations/store.go:197-271 | brings one interrupted operation to its end, the one that ProbeDecidesEnd describes, releasing its locks or keeping them with it, and no other row changes |
| OperationStore.Store.PruneTerminal | internal/operations/store.go:299-357 | the new table is the prune of the old one, or the old one after a storage error |
| OperationStore.Store.Reconcile | internal/operations/store.go:155-195 | on success every unfinished row is at the end that its probe and compensator decide, every other row is as it was, and the table is pruned; the only error is a storage error |
| ScriptProofs.OtherNamesUntouched | internal/postgresadmin/duplicate.go:432-514 | at every crash point and under every schedule of failures create, duplicate and their undo change nothing but their own database, role, its grants and its vault row |
| ScriptProofs.StepKeepsOwned | internal/postgresadmin/create.go:358-378 | every database keeps an existing owner, and a role is removed only when it owns no database |
| ScriptProofs.OwnersAlwaysExist | internal/postgresadmin/drop.go:57-108 | the same at every crash point of create, duplicate, drop and both compensators |
| ScriptProofs.DupStepTracks | internal/postgresadmin/duplicate.go:450-506 | the flags createdRole, createdDB and insertedVault say exactly what is in the catalog, and what an undo can leave has one of six shapes |
| ScriptProofs.CompStepTracks | internal/postgresadmin/worker.go:24-78 | every step of CompensateDuplicate keeps the leftovers within the six shapes |
| ScriptProofs.CompensationCleans | internal/postgresadmin/worker.go:24-78 | from any of the six shapes CompensateDuplicate, no call failing, ends well with neither clone nor role left |
| ScriptProofs.AllOrNothing | internal/postgresadmin/duplicate.go:432-514 | create and duplicate end with role, database and vault row added to an otherwise unchanged catalog, or with an error; if no undo call failed the catalog is then exactly the old one, and otherwise what is left has one of the six shapes |
| PostgresService.Service.PrepareDuplicate | internal/postgresadmin/duplicate.go:365-430 | the checks before a job, without effect. They pass only if the names are valid, free and not the policy's, there is a vault key, and the source takes connections, is no template and belongs to another login role that is no superuser and not the policy's; when no call fails the answer is the job's verdict |
| Verdicts.FaultFreeRunIsVerdict | internal/postgresadmin/duplicate.go:365-514 | duplicate and create without a failing call serve every job that nothing is wrong with, and give every other job the error of the first thing wrong |
| Verdicts.SuccessMeansFree | internal/postgresadmin/create.go:108-189 | success means that the names were free, whatever calls failed |
| Verdicts.HandedOver | internal/postgresadmin/duplicate.go:501-503 | the transfer hands over every object but those of superusers and of the policy's roles |
| PostgresService.Service.CompensateCreate | internal/postgresadmin/create.go:191-206 | undoes what the flags say, newest first, and swallows errors |
| PostgresService.Service.Duplicate | internal/postgresadmin/duplicate.go:432-514 | is one run of its automaton; succeeds only for a job that nothing is wrong with and then with exactly the three pieces and the admin's grant added, leaves the catalog as it was when its undo met no failure, and without a failing call answers the verdict |
| PostgresService.Service.Create | internal/postgresadmin/create.go:108-189 | the same for create |
| PostgresService.Service.CompensateDuplicate | internal/postgresadmin/worker.go:24-78 | is one run of its automaton, and succeeds exactly when that ends well |
| PostgresService.Service.Drop | internal/postgresadmin/drop.go:31-108 | for every schedule of failing calls the answer says exactly what is left: all as before; or all but the database; or, when its owner owned nothing else, all but database, role and role grants, with or without the vault row; and each answer is given exactly when the calls that cause it failed |
| DropProofs.DropAnswers | internal/postgresadmin/drop.go:31-108 | dropped exactly when the name is valid, the database takes connections, is no template and neither it nor its owner is the policy's, and no call up to DROP DATABASE failed; the owner dropped exactly when it owned nothing else and no later call failed; and which error every other outcome has |
| DropProofs.DropLeaves | internal/postgresadmin/drop.go:57-108 | under every schedule of failures the answer fits the catalog left: refused is unchanged, RoleDropFailed leaves role and vault row, VaultDeleteFailed leaves the vault row alone, and nothing else ever changes |
| DropProofs.DropStopsInFourWays | internal/postgresadmin/drop.go:57-108 | wherever the process dies, the catalog is the one before, or without the database, then without the owner that owned nothing else, then without its vault row |
| SagaProofs.StepKeepsInv | internal/postgresadmin/worker.go:82-177 | every enqueue, poll, compensation, crash, restart, recovery step and foreign change keeps the invariant of the whole system |
| SagaProofs.DecidesAsTheStore | internal/operations/store.go:208-271 | what the machine does with the pieces that a probe found is what the store's Reconcile does for the same answers |
| SagaProofs.ReasonIs | internal/postgresadmin/worker.go:189-220 | the code of each error; a failed row says that PostgreSQL is unavailable exactly when its error is of a compensated kind |
| SagaRecovery.EveryRunKeepsInv | cmd/redgres/main.go:86-99 | the invariant holds in every reachable state |
| SagaRecovery.LeftoversHaveSixShapes | internal/postgresadmin/create.go:191-206 | wherever processes died, what a live job has left is nothing, R, RD, RDV, RV or V, its database belongs to its role, and every database has an owner |
| SagaRecovery.LiveNamesAreDisjoint | internal/httpapi/postgres_duplicate_routes.go:107-111 | two live jobs never share a source, target or role |
| SagaRecovery.OnlyFinishingEnds | internal/operations/store.go:409-495 | an operation becomes terminal only by the last transition of the poller or of Reconcile |
| SagaRecovery.SuccessIsComplete | internal/postgresadmin/worker.go:102-146 | succeeded is written only with clone, role and vault row present and the enqueued triple as result |
| SagaRecovery.RecoveredFailureIsClean | internal/operations/store.go:197-297 | failed written by Reconcile: neither clone nor role is left |
| SagaRecovery.PollerFailureKeepsTally | internal/postgresadmin/worker.go:148-187 | failed written by the poller: after an error of a compensated kind neither clone nor role is left, after any other exactly what the undo inside Duplicate could not remove |
| SagaFailure.ErrorKind | internal/postgresadmin/worker.go:179-187 | once anything was made, an error is of a kind that is not compensated exactly when an isolation check found the source gone |
| SagaFailure.ShapeStep | internal/postgresadmin/create.go:191-206 | the undo as a fold over its failed calls: the clone stays exactly when its DROP failed, the role exactly when that or a later call failed |
| SagaFailure.PollerFailureLeavesIff | internal/postgresadmin/worker.go:148-187 | in every run from the first start, when the poller writes failed: the role is left exactly when the source was found gone at an isolation check and a call of the undo from its DROP DATABASE on failed, the clone exactly when that DROP failed |
| SagaWitness.FailsWithCloneLeft | internal/postgresadmin/worker.go:148-187 | for every clonable request there is a run from the first start to a failed row without locks while clone and role exist |
| SagaRecovery.NothingUnfinishedAtPrune | internal/operations/store.go:155-195 | when Reconcile comes to its prune no operation is running, compensating or interrupted |
| SagaRecovery.Recover | internal/operations/store.go:155-195 | with no further failure Reconcile terminates, from every point of it, at its prune |
| SagaRecovery.CrashRecovery | internal/operations/store.go:155-297 | die in any reachable state and restart: Reconcile, meeting no failure, ends each unfinished job succeeded, with the enqueued result and its clone as at the crash, exactly when it was running or interrupted with all three pieces there, and otherwise failed with neither clone nor role left; it changes no other operation |
| SagaRecovery.RecoveryAmidOthers | internal/operations/store.go:155-297 | the same end for each job when other clients act and requests arrive between any two steps of Reconcile |
| SagaTransfer.EveryRunFits | internal/postgresadmin/duplicate.go:474-514 | in every run the objects of a live job's clone are the source's at the time of the copy, handed over exactly if the transfer ran |
| SagaTransfer.SuccessIsTransferredIff | internal/postgresadmin/worker.go:122-146 | when succeeded is written, by whomever, the objects are where the transfer puts them exactly when it ran or nothing was to move; it always ran when the poller writes it |
| SagaTransfer.RecoveredTransferIff | internal/operations/store.go:236-260 | after a crash anywhere and a recovery the clone of a successful job is transferred exactly when the transfer ran before the crash or nothing was to move |
| SagaTransfer.CrashStageDecides | internal/postgresadmin/duplicate.go:495-511 | a crash in the forward part: the job will succeed exactly from the transfer on, and is transferred exactly after it |
| SagaWitness.SucceedsUntransferred | internal/postgresadmin/duplicate.go:501-506 | for every clonable request with something to move there is a run that dies before the transfer and ends succeeded with the objects still as in the source |
| SagaWitness.RefusedJobSucceeds | internal/postgresadmin/duplicate.go:508-511 | for every clonable request there is a run in which Duplicate has refused the job, the process dies before the undo, and the job ends succeeded |
| Membership.EnsureKeepsBalance | internal/postgresadmin/duplicate.go:311-339 | after ensure the grants are the start grants plus one new, distinct temporary grant per owner taken, no owner is granted twice or had a grant before, and the session may use the owner |
| Membership.TransferSucceedsIff | internal/postgresadmin/duplicate.go:311-339 | for any grants at the start and any listing, the ensure calls succeed exactly when the session is the admin's and each owner is usable, is reached by inheritance through an earlier owner that had to be taken, or may be taken and is no member-target of one |
| Membership.EveryOrderSucceedsIff | internal/postgresadmin/duplicate.go:311-339 | all listing orders succeed exactly when the session has or may take each owner and every membership among the owners it must take inherits |
| Membership.OrderMatters | internal/postgresadmin/duplicate.go:326-328 | with a grant that does not inherit one order of two owners succeeds and the other is refused |
| Membership.MembershipManager.Ensure | internal/postgresadmin/duplicate.go:311-339 | does what the balance lemmas speak of, or changes nothing and reports a fault or a refusal |
| Membership.MembershipManager.Release | internal/postgresadmin/duplicate.go:341-360 | success restores the start grants exactly; no grant of the start is ever revoked, even when a revoke fails |
| Membership.MembershipManager.TransferKind | internal/postgresadmin/duplicate.go:662-702 | hands over the listed objects of one kind, skipping those the policy keeps, and no ALTER is refused |
| Membership.TransferCloneOwnership | internal/postgresadmin/duplicate.go:596-660 | all or nothing: every object but those of superusers and of the policy's roles goes to the new owner, or none does; grants end as they began, the session has USAGE at every ALTER, and it succeeds exactly when no statement fails and every ensure is granted |
| ServiceLocks.LockMaps.LockTruncate | internal/postgresadmin/truncate.go:52-69 | enters exactly when the database is neither truncated nor dropped, and says which |
| ServiceLocks.LockMaps.LockDrop | internal/postgresadmin/drop.go:110-127 | the same for drop |
| ServiceLocks.LockMaps.TryLockDuplicate | internal/postgresadmin/duplicate.go:531-547 | takes the three keys together, exactly when none of them is taken |
| ServiceLocks.LockMaps.UnlockTruncate | internal/postgresadmin/truncate.go:71-75 | removes the database's own entry and nothing else |
| ServiceLocks.LockMaps.UnlockDrop | internal/postgresadmin/drop.go:129-133 | the same for drop |
| ServiceLocks.LockMaps.UnlockDuplicate | internal/postgresadmin/duplicate.go:549-555 | removes the job's own three keys |
| ServiceLocks.EveryRunKeepsInv | internal/postgresadmin/truncate.go:52-75 | in every interleaving each mutex is held by the thread whose place says so, and the maps hold exactly the entries of the threads in their regions |
| ServiceLocks.RegionsExclude | internal/postgresadmin/drop.go:110-133 | no database is truncated and dropped at once or twice at once, and two duplicates share no source, target or role |
| ServiceLocks.EntryHasOneOwner | internal/postgresadmin/duplicate.go:527-555 | each map entry belongs to exactly one thread |
| ServiceLocks.MapAccessIsExclusive | internal/postgresadmin/truncate.go:71-75 | although leaving takes one mutex only, no two threads are ever at an access to the same map |
| ServiceLocks.NeverDeadlocks | internal/postgresadmin/truncate.go:53-57 | while a call is unfinished some thread can move |
| ServiceLocks.EveryScheduleEnds | internal/postgresadmin/truncate.go:52-75 | no schedule of moving threads is longer than their remaining steps |
| ServiceLocks.EveryCallCanFinish | internal/postgresadmin/truncate.go:52-75 | from every reachable state all calls can finish, and then the maps are empty and the mutexes free |
| Lockout.EveryRunIsBounded | internal/auth/security.go:127-244 | for every sequence of reserved failures, successes and clears on a clock that does not go back, one user and address never count more than 14 failures in a window, no wait exceeds 512 s, and the product fits an int64 |
| LockoutLaw.WaitIsRest | internal/auth/security.go:127-244 | after any run of calls, and a stretch of fewer than a thousand that does not reset the pair: the next attempt waits until 2^(n-5) seconds from the last of the n failures that the stretch let through in the last quarter of an hour, and not at all for n below five, or longer if older failures count too |
| LockoutLaw.FirstLockouts | internal/auth/security.go:127-244 | a pair without a history waits exactly so long |
| Lockout.FailedAttemptBound | internal/auth/security.go:195-244 | the same for every table that keeps the invariant |
| Lockout.FifteenNeedMoreThanTheWindow | internal/auth/security.go:225-244 | fifteen spaced failures take longer than the window |
| Lockout.DelayFitsIff | internal/auth/security.go:229-236 | 2^n seconds fit an int64 exactly for n up to 33 |
| Lockout.InsertKeepsInv | internal/auth/security.go:164-181 | expiry, insertion and the eviction of the oldest rows keep the spacing of every user's failures |
| Lockout.ScanCounts | internal/auth/security.go:195-224 | the loop counts the failures in the window and remembers the last |
| Lockout.AttemptStore.LockoutRemaining | internal/auth/security.go:195-244 | the wait that follows from the rows in the window |
| Lockout.AttemptStore.ReserveFailure | internal/auth/security.go:127-144 | refuses with the wait of its window, at most 512 s, and writes nothing, or adds one failure; no row of the last quarter of an hour is lost unless a thousand newer ones push it out; at most 14 count afterwards |
| Lockout.AttemptStore.RecordSuccess | internal/auth/security.go:146-162 | the pair's failures are gone, the success is recorded, and no other row of the last quarter of an hour is lost unless a thousand newer ones push it out |
| Lockout.AttemptStore.ClearFailures | internal/auth/security.go:183-189 | the rows that stay are exactly those that are no failures of the pair |
| Base64.RoundTrip | internal/secrets/fernet.go:107-117 | what was encoded is decoded, in both alphabets, with or without padding |
| Base64.DecodeIff | internal/secrets/fernet.go:107-117 | a text is read as some bytes exactly when, line breaks aside, it is their text but for the unused bits of its last digit |
| Base64.DigitsAreTheNumber | internal/secrets/fernet.go:107-117 | four digits are the 24-bit number of their three bytes |
| Base64.TestVectors | internal/secrets/fernet.go:107-117 | vectors of section 10 of RFC 4648 and the digits in which the alphabets differ |
| Fernet.Pad | internal/secrets/fernet.go:119-127 | the buffer followed by one to size bytes, each its count |
| Fernet.Unpad | internal/secrets/fernet.go:129-143 | succeeds with p exactly when the buffer is the padding of p |
| Fernet.CbcDecryptsWhatItEncrypts | internal/secrets/fernet.go:49-50 | CBC decryption undoes CBC encryption over any invertible block cipher |
| Fernet.CbcEncryptsWhatItDecrypts | internal/secrets/fernet.go:97-98 | and the other way round |
| Fernet.CbcEncryptsBlocks | internal/secrets/fernet.go:49-50 | each ciphertext block enciphers its plaintext block, XORed bit by bit with the ciphertext block before it or with the IV |
| Fernet.CbcDecryptsBlocks | internal/secrets/fernet.go:97-98 | each plaintext block is the deciphered block, XORed bit by bit with the ciphertext block before it or with the IV |
| Fernet.XorBlockIsXor | internal/secrets/fernet.go:49-50 | a bit of the exclusive or is set exactly when the two bits differ; XorIsUnique says that this leaves one block |
| Fernet.TokenLayout | internal/secrets/fernet.go:34-61 | a token is the version, eight bytes of seconds with the highest first, the IV, the padded plaintext chained under the last half of the key, and a MAC of all that under the first half |
| Fernet.UnpaddedIsDecoded | internal/secrets/fernet.go:107-117 | keys and tokens are read without their padding too |
| Fernet.Encrypt | internal/secrets/fernet.go:34-61 | fails exactly on an unusable key or missing randomness; otherwise returns the base64 text of the token that TokenLayout describes |
| Fernet.Decrypt | internal/secrets/fernet.go:65-105 | accepts exactly the texts that decode to a token made under the key, for some time and IV, and returns its plaintext |
| Fernet.DecryptOpensWhatEncryptMade | internal/secrets/fernet.go:34-105 | the token of p opens to p and to nothing else, for every plaintext, key, time and IV |
| JsonStrings.HexUnit | internal/backup/parse.go:318-337 | reads exactly four hexadecimal digits, or refuses |
| JsonStrings.SkipEscape | internal/backup/parse.go:284-313 | accepts exactly the escapes of the grammar, surrogates paired, and steps over them |
| JsonStrings.StrictStrings | internal/backup/parse.go:266-316 | accepts exactly the byte sequences that split into non-quote bytes and well-formed strings; no index is out of range |
| JsonWalker.AllowedIsNotSecret | internal/backup/parse.go:192-197 | an allowed field name is never a secret name |
| JsonWalker.AllowedFieldsAre | internal/backup/parse.go:225-257 | the allowed fields under each field |
| JsonWalker.Walk | internal/backup/parse.go:161-223 | consumes the tokens and the budget that its specification says, and terminates |
| JsonWalker.WalkIsExact | internal/backup/parse.go:161-223 | a walk accepts and ends at a position exactly when the tokens up to there are those of one JSON tree within depth, budget, artifact count, allowed and distinct field names |
| JsonWalker.FitsIsShallow | internal/backup/parse.go:161-164 | an accepted tree is nested at most 32 deep |
| JsonWalker.ValidateBounds | internal/backup/parse.go:148-159 | accepts exactly the token streams of one such tree and nothing behind it |
| EnvFile.RewriteEnv | internal/config/persist_bootstrap.go:70-124 | the loop of both rewriters computes the specified text |
| EnvFile.FileIsItsLines | internal/config/persist_bootstrap.go:70-80 | a file is read as its lines, however they end and with or without an end behind the last; EveryTextIsLines says that every text is such a file |
| EnvFile.KeyOfIff | internal/config/persist_bootstrap.go:126-136 | the key of a line is what stands before the first equals sign of its trimmed text, unless that is empty or a comment |
| EnvFile.AssignedOnce | internal/config/persist_bootstrap.go:80-118 | after a rewrite each managed key is assigned by exactly one line, `key=value` with the new value, and every other key by the lines it had |
| EnvFile.BootstrapSays | internal/config/persist_bootstrap.go:70-124 | after bootstrap was closed the file assigns the empty bootstrap address, secure cookies and the origin, once each |
| EnvFile.ToolsSay | internal/config/persist_tool_urls.go:46-91 | after the tool URLs were stored the file assigns them, once each |
| EnvFile.OthersAreKept | internal/config/persist_bootstrap.go:82-109 | comments, blank lines and other settings stay, in order |
| EnvFile.RewriteIsIdempotent | internal/config/persist_bootstrap.go:70-124 | rewriting again with the same values changes nothing |
| EnvFile.LineHasItsKey | internal/config/persist_bootstrap.go:126-136 | a written line is read back as an assignment of its key |
| EnvFile.RewritersCommute | internal/config/persist_tool_urls.go:46-91 | both rewriters in either order leave every key with the same assignments |
| AuditPaging.CursorRoundTrip | internal/httpapi/audit_routes.go:61-94 | every positive id survives encoding and decoding |
| AuditPaging.AcceptedCursorIsCanonical | internal/httpapi/audit_routes.go:69-94 | a cursor is accepted for an id exactly when it is short and decodes to that id's one canonical payload |
| AuditPaging.Store.List | internal/audit/list.go:61-111 | the newest rows below the bound, newest first: as many as asked for, or 50 unless that is 1 to 500, with has_more exactly when there are more |
| AuditPaging.PagingIsComplete | internal/httpapi/audit_routes.go:29-59 | following next_cursor yields every event that was there at the first page exactly once, newest first, whatever limits are asked for and whatever is inserted meanwhile |
| Texts.SplitUndoesJoin | internal/auth/password.go:142-143 | fields without the separator are found again |
| Texts.SplitIff | internal/auth/password.go:142-143 | the fields of a text are the separator-free texts that it joins |
| Texts.TrimSpaceIff | internal/redisadmin/validate.go:33-34 | trimming takes off the blanks at both ends and nothing else |
| Decimals.DecimalIff | internal/httpapi/audit_routes.go:61-63 | a number's text is the one text of digits of its value without a zero in front |
| PasswordHash.HashRoundTrip | internal/auth/password.go:129-169 | decode reads what encode printed: same numbers, same bytes, lengths taken from the bytes |
| PasswordHash.HashText | internal/auth/password.go:129-140 | the printed text, field by field |
| PasswordHash.DecodeHashIff | internal/auth/password.go:142-169 | a text is read exactly when it has six fields with algorithm and version in their places, three numbers in the fourth and base64 in the last two, and then as those |
| PasswordHash.VerifyAcceptsWhatHashMade | internal/auth/password.go:79-101 | a printed hash is never invalid and verifies exactly the passwords with the same derived key, its own among them |
| PasswordHash.TrailingTextIsIgnored | internal/auth/password.go:153-156 | text behind the parameters changes nothing |
| PasswordHash.HashWithParams | internal/auth/password.go:79-89 | refuses exactly zero parameters and missing randomness; otherwise the printed text is read back with the given parameters and verifies exactly the passwords that derive the same key, the hashed one among them |
| RedisPresets.EqualSetIsSetEquality | internal/redisadmin/presets.go:237-249 | comparing the sorted lists is equality of the sets of normalized names |
| RedisPresets.SortUnique | internal/redisadmin/presets.go:219-235 | the normalized names, each once, in ascending order |
| RedisPresets.EqualSet | internal/redisadmin/presets.go:237-249 | true exactly for equal sets of normalized names |
| RedisPresets.PresetIsInferred | internal/redisadmin/presets.go:189-205 | each of the five presets is inferred back from its own commands |
| RedisAcl.ParseLine | internal/redisadmin/acl.go:36-124 | the loop over the fields computes the specified user |
| RedisAcl.ParseMeans | internal/redisadmin/acl.go:36-124 | a user is enabled if the last flag is on, has the first key pattern and the commands added, and exact rules exactly when every field is known, at most one is a pattern and one -@all, and there are at most 256 commands |
| RedisAcl.FlagEdit | internal/redisadmin/memory.go:95-122 | switching a user on or off leaves one kind of flag and every other field, passwords among them |
| RedisAcl.PasswordEdit | internal/redisadmin/memory.go:124-147 | a new password is the only one left, and every other field stays |
| RedisAcl.GrantEdit | internal/redisadmin/memory.go:149-183 | an update of the permissions keeps the passwords |
| RedisAcl.MemoryClient.ACLSetUser | internal/redisadmin/memory.go:61-93 | the lines become those of the merge that the rules call for, or stay on an error |
| RedisAcl.MemoryClient.MergeGrants | internal/redisadmin/memory.go:149-183 | rewrites the first line of the user exactly when the rules are a permissions update |
| RedisAcl.SetEnabledChangesOnlyEnabled | internal/redisadmin/memory.go:95-122 | on every line of a user an on or off rule changes the parsed user in its enabled bit only |
| RedisAcl.RotateChangesNothing | internal/redisadmin/memory.go:124-147 | on every line of a user a password reset changes nothing in the parsed user |
| RedisAcl.UpdateIsRecognized | internal/redisadmin/service.go:248-254 | the rules built for an update are recognized as one, with its pattern and commands |
| RedisAcl.UpdateGivesWhatWasAsked | internal/redisadmin/memory.go:149-216 | the updated line parses to exactly the requested pattern and commands, the preset they amount to and exact rules |
| RedisAcl.UpdateKeepsEnabledIff | internal/redisadmin/memory.go:162-172 | the update keeps the enabled bit exactly when the first and the last flag of the line agree |
| RedisAcl.UpdateMayFlipEnabled | internal/redisadmin/memory.go:162-172 | the user of the line `user u on off` is read as disabled, and as enabled after any permissions update |
| RedisService.Service.LoadUsers | internal/redisadmin/service.go:323-344 | the users of the lines that parse, in their order, or the list error |
| RedisService.Service.GetUser | internal/redisadmin/service.go:209-220 | the user of the name's first line, or not found |
| RedisService.Service.UpdatePermissions | internal/redisadmin/service.go:222-254 | the errors in their order, nothing written on any of them; on success the user read back has the pattern that was asked for and exactly the commands that were requested, only its line changed, and its passwords stay |
| RedisService.NormalizePrefixIff | internal/redisadmin/validate.go:32-53 | the pattern is p:* exactly when the input, blanks around it aside, is p with nothing, `:`, `:*` or `::*` behind it, p being 2 to 80 lower-case letters, digits, `_`, `:` and `-` with a letter or digit at both ends; every other input is refused |
| RedisService.ResolveUpdateIff | internal/redisadmin/presets.go:103-187 | the commands of a request, in ascending order, are those of its preset, or for a custom one those it writes, all of them offered by some preset; every other request is refused |
| RedisService.ResolveUpdateError | internal/redisadmin/presets.go:103-187 | the error of a refused request |
| RedisService.ProtectedIff | internal/redisadmin/acl.go:25-34 | protected are the three built-in names and the admin's, in whatever case |
| RedisService.InferPresetIff | internal/redisadmin/presets.go:189-205 | a user's commands are read as a preset exactly when they are its own |
| RedisService.Service.SetEnabled | internal/redisadmin/service.go:256-275 | the same for the enabled bit; of the line only flags change |
| RedisService.Service.RotateUser | internal/redisadmin/service.go:277-300 | the same for a new password: it is the only one in the line afterwards, all other fields stay, and the user read back is the old one |
| RedisService.OthersReadAsBefore | internal/redisadmin/memory.go:149-183 | a call that rewrites one user's line leaves every other user as read before |
| RedisService.AskedPresetIsReadBack | internal/redisadmin/presets.go:150-205 | a named preset that was granted is the preset that is read back |

## Left out

- HTTP handlers, sessions, cookies, the web pages, DNS, TLS, certificates, OAuth, search and status pages: they carry requests to the parts modelled here.
- Secret-shaped text filters of the operation store (`unsafeResultValue` and its kin) and of audit metadata: substring heuristics; valid identifiers pass those on results.
- Operation ids are numbers below 2^128: the 32 hexadecimal digits sort as the numbers do.
- Sub-second text order of timestamps: times are integers, so the order of texts and of times agree.
- The HTTP request handler's checks appear as the condition under which `Saga` enqueues; the names it takes are then new and other clients leave reserved names alone while the job lives.
- The poller is one goroutine: a queued operation is claimed by one worker only, because a transition to a status already reached succeeds.
- runQueuedDuplicate, failQueuedDuplicate and DuplicateState are steps of the machine in `Saga`, not methods, because the process may stop between any two of their calls.
- The names of the invalid fields that a failed row's error carries beside its code and message.
- Audit records written by the poller, and the lookup of the queued rows that are skipped for lack of names.
- A failed probe ends an operation indeterminate with its locks released, as the code does; nothing is proved about what such an operation has left.
- PostgreSQL's own refusal to drop a role that still owns objects: the code asks first, and the model lets the statement succeed. Session termination has no effect in the model.
- The catalog's effects are taken from the SQL; the in-memory PostgreSQL double of the tests is not modelled.
- Create takes no operation lock; its theorem speaks of a run that nobody interferes with.
- Listing order of catalog objects is arbitrary; an ALTER TABLE that also moves indexes is seen as moving the table only.
- IPLockoutRemaining counts an address over all users, Record inserts without asking, and the reauthentication calls use the same table under prefixed names.
- SagaRecovery.CrashRecovery: other clients change nothing between the restart and the end of Reconcile; with them at work the same ends are reached (`RecoveryAmidOthers`), and what is there is stated at the moment each end is written (`SuccessIsComplete`, `RecoveredFailureIsClean`).
- SagaTransfer.SuccessIsTransferredIff: other clients do not reassign objects inside the clone while its job lives; the same for the other theorems about the clone's objects.
- RedisService.Service.LoadUsers: without the sort by name.
- The lockout clock does not go back: with a clock that does, rows could expire early.
- ServiceLocks.RegionsExclude: says nothing of a drop of a database that is being duplicated, because the drop lock and the duplicate lock are independent in the code.
- The byte contents of SQLite, AES, HMAC, SHA-256 and argon2: abstract functions with the laws stated.
- JSON syntax itself: the walker sees the tokens that the decoder yields before its end or first error.
- ToLower and ToUpper act on ASCII letters.
- RedisService.Service.GetUser: takes the first line of a name, while the code sorts users by name first; the two differ only when two lines carry one name, and then the sort is not stable.
- Redis lines written by create: the in-memory client keeps the word `reset`, which parses as limited.
- Real Redis is not modelled; the in-memory client is what the service's updates are read against.
- classifyRedisError, ListUsers, DeleteUser and CreateUser: short mappings or single list updates.
- ValidatePassword and user names: length checks.
