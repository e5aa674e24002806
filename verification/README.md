# A verified model of the governance package

This project models the tamper-evident audit log of `codeatelier_governance` and the stateful guards
around it, and proves what they keep over every run: any interleaving, any failure, any number of steps.

A MAC is a free constructor over the key and the whole payload, and a payload contains the MAC of the row it
links back to. That an adversary cannot make MACs is the hypothesis "every MAC under the secret in the list
sits in the honest log". An `await` is a step boundary; a lock or a transaction is explicit state. Dollars
are reals, times are integers (seconds of the poll schedule: reals), UUIDs are natural numbers.

| module | what it models |
|---|---|
| `Records`, `Ledger` | rows, MACs, honest logs, and the segment theorem behind all verifiers |
| `ChainVerifier` | `verify_chain_records`, `verify_chain`, `trace_session_chain` |
| `SessionLinkage` | the compliance report's window check over many sessions |
| `PostgresStore` | the optimistic insert of any number of workers, refining an atomic append |
| `KeyRotation`, `ChainDatabase` | the key registry, the rotation transaction, the rotation-aware verifier |
| `MemoryStore` | the in-memory audit store: three indexes, eviction, two-step chain inserts |
| `JsonlStore`, `DrainRetry` | the fallback file and buffer, and replaying them under failures |
| `OutageRuns` | `AuditModule._log_unsafe` through outages, recoveries and replays |
| `BatchingWriter` | the buffered writer with overlapping flushes |
| `CostStore`, `CostModule`, `SoftCeiling`, `BudgetAlert` | counters, the budget gate, its overshoot, the threshold alert |
| `StreamReconcile` | token accounting of streamed calls |
| `GatesStore`, `GatesModule`, `WaitFor`, `Tokens` | approval requests, tokens, polling |
| `LoopDetector` | the pruned sliding window, on any clock and under any change of policy |
| `Sanitizer` | the escape pipeline for metadata |

Objects that the program updates in place are classes whose methods are proved against specification
functions; protocols with several actors are state machines whose runs are sequences of states and steps.
A failure that the environment may inject (an outage, a raising hook, a failed read) is a parameter.
A class method's contract holds at every call, so an invariant it keeps holds over every run of calls.

## Where the code and its documentation differ

The model follows the code; each point is a lemma or a contract below.

- `BatchingWriter` says it never silently drops. A requeue that finds too little room does (`RequeueDropsEvent`), so
  does the default fallback when it is overfilled (`EvictionDropsEvent`), and a flush cancelled by `close`; nothing
  else does (`AllKeptIff`, `KeptIff`, `VanishedIff`).
- The budget gate's documentation bounds the overshoot by (N-1) calls; for dollars, which are not projected, it
  is N calls (`CeilingHolds`, `BoundIsReached`, `DocumentedBoundIff`).
- `verify_chain()` without a session id is documented to check the whole store; it fails on any honest store
  that holds two sessions (`WholeStoreCheckPassesIff`, `TwoSessionsFailTheWholeCheck`).
- The rotation's documented last step retires the outgoing key at the marker; the code retires it one later,
  which is what makes the windows partition the sequence numbers (`RotateChainKey`).
- A rotation marker links to the globally last row, so the per-session check of the compliance report survives
  a rotation only if the marker's session wrote last (`FirstMarkerKeepsLinkageIff`, `OwnSessionMarkerBreaksLinkage`).
- The Ed25519 signature columns lie outside the MAC (`SignatureColumnsAreNotChecked`).
- The fallback file drops `model` and the signature, so replayed rows that had a model no longer verify
  (`FileRoundTripVerifiesIff`, `ModelDoesNotSurviveTheFile`); and once anything was replayed from the file the primary is no longer one linked
  chain, which the markers announce but the verifier still reports (`DrainAccepts`).
- A failed drain is documented to be retried. On a target whose primary key rejects duplicates, a drain of more
  than 1000 file rows that fails after its first batch can never succeed again, nor can one whose commit lost its
  acknowledgement (`CanGetStuckIff`, `CanGetStuckAcknowledgedIff`, `StuckForever`).
- A drain that returns normally is documented to have emptied the fallback. Once a write error has made the store
  give up the file system, rows already in the file stay there unread (`FiledRowsDeliveredIff`).
- A stream proxy that is collected before its spawned reconciliation runs is charged the projection only
  (`SpawnedReconcileIff`).
- A failed replay is documented to be retried by the next successful log; it is only retried at the next
  recovery from an outage (`FailedReplayIsNotRetried`; `LogUnsafe` says exactly when rows still wait).
- `write_batch` in raise mode speaks of an all-or-nothing contract; rows before the refused one stay
  (`RefusedBatchLeavesPrefix`, with the exact condition in `AllOrNothingIff`).
- Different sessions are documented never to block each other; in Postgres two sessions share a lock if their
  UUIDs share the first eight bytes (`LockKeyCollidesIff`, `SessionsShareALock`).
- Sets are documented to be sanitised as lists; they are returned as they are (`SanitizedIsCleanIff`). Dictionary
  keys are not sanitised either (`KeysAreLeftAlone`, `SetsAndKeysKeepControls`).
- `wait_for` documents that a local verdict always wins; one committed after a tick's local read does not, and the
  answer then differs from the store (`PlatformAnswerMayDisagree`, `PlatformAnswerAgreesIff`).

## Model

| member | source | states |
|---|---|---|
| `Ledger.SessionIsChain` | src/codeatelier_governance/audit/store.py:144-164 | whatever order sessions interleave in, each session of a log written under session locks is a genesis-rooted, linked chain of valid rows whose row i is exactly i links deep |
| `Ledger.RowStandsAtDepth` | src/codeatelier_governance/audit/store.py:144-164 | a row's MAC alone determines its position within its session |
| `Ledger.ValidRowIsHonest` | src/codeatelier_governance/audit/chain.py:51-108 | one valid row of an unforged list equals (signature columns aside) the row of its own session at its own depth |
| `Ledger.LinkKeepsSession` | src/codeatelier_governance/audit/module.py:707-714 | one valid link keeps the session and deepens by one, although session ids are never compared |
| `Ledger.LinkedListIsSegment` | src/codeatelier_governance/audit/module.py:663-716 | valid MACs and linkage confine an unforged list to one contiguous stretch of one session |
| `Ledger.SegmentVerifies` | src/codeatelier_governance/audit/module.py:753-866 | conversely every stretch verifies; it is genesis-rooted exactly if it starts at index 0, and its first MAC reveals session and position |
| `Ledger.ChainsMakeHonestLog` | src/codeatelier_governance/audit/store.py:144-164 | a table all of whose sessions are chains is one that sequential locked appends can produce |
| `ChainVerifier.MacPass` | src/codeatelier_governance/audit/module.py:699-705 | the MAC loop finds the first row that does not verify, or none |
| `ChainVerifier.LinkagePass` | src/codeatelier_governance/audit/module.py:707-714 | the linkage loop finds the first broken link, or none |
| `ChainVerifier.ForkPass` | src/codeatelier_governance/audit/module.py:611-624 | the `seen_prev` loop finds two rows with equal `prev_hash` exactly if there are any, and names the pair |
| `ChainVerifier.VerifyChainRecords` | src/codeatelier_governance/audit/module.py:663-716 | accepts exactly the genesis-rooted, valid, linked lists; each error is raised exactly when it should be, in the code's order, at the first offending row |
| `ChainVerifier.VerifyChain` | src/codeatelier_governance/audit/module.py:753-866 | accepts if and only if the bounds are not reversed, every event asked for (both ends included, negative bounds from the end) verifies and links to the one before, and a range from the head starts at genesis; which error is raised when |
| `ChainVerifier.WindowInRange` | src/codeatelier_governance/audit/module.py:829-832 | for bounds within the list the slice is `events[a..b + 1]`: the upper bound is included |
| `ChainVerifier.WindowIsRange` | src/codeatelier_governance/audit/module.py:829-832 | the slice holds exactly the events asked for, in order, for any bounds: negative, over-long or missing |
| `ChainVerifier.TraceSessionChain` | src/codeatelier_governance/audit/module.py:587-645 | accepts exactly the lists the other verifier accepts, although it also runs a fork check and checks in another order |
| `ChainVerifier.DepthIsIndex` | src/codeatelier_governance/audit/module.py:663-716 | in an accepted list the row at index i is i links deep |
| `ChainVerifier.ForkFreedomIsImplied` | src/codeatelier_governance/audit/module.py:604-645 | any list passing the genesis, MAC and linkage checks has pairwise distinct `prev_hash` values |
| `ChainVerifier.AcceptedIffPrefix` | src/codeatelier_governance/audit/module.py:663-716 | prefix theorem: an unforged list is accepted if and only if it is empty or a prefix of one session's history |
| `ChainVerifier.WindowAcceptedIffSegment` | src/codeatelier_governance/audit/module.py:753-866 | a slice starting past the head is accepted if and only if it is a contiguous stretch of one session's history |
| `ChainVerifier.HonestWindowPasses` | src/codeatelier_governance/audit/module.py:753-866 | every slice of an untouched session passes, for every pair of bounds including negative ones |
| `ChainVerifier.SegmentIsUnique` | src/codeatelier_governance/audit/module.py:663-716 | a non-empty accepted stretch belongs to one session, at one place |
| `ChainVerifier.SignatureColumnsAreNotChecked` | src/codeatelier_governance/audit/chain.py:51-108 | changes confined to the Ed25519 columns never change the verdict |
| `SessionLinkage.GroupBySession` | src/codeatelier_governance/compliance/report.py:713-718 | one pass groups the rows by session, in order |
| `SessionLinkage.CheckPerSessionLinkage` | src/codeatelier_governance/compliance/report.py:687-732 | reports no error exactly if every session in the window is linked (and genesis-rooted when asserted); an error names a session that is not |
| `SessionLinkage.RunChainVerificationInMemory` | src/codeatelier_governance/compliance/report.py:505-545 | the in-memory branch: three outcomes, each exactly when; without bounds it checks the newest 1000 rows, or all of them and then genesis too; with bounds it asserts genesis exactly for a start of 0 or none |
| `SessionLinkage.WindowVerifiedIffSegments` | src/codeatelier_governance/compliance/report.py:687-732 | window theorem: an unforged window passes if and only if every session's rows in it are one contiguous stretch (prefix if genesis is asserted) of that session's history |
| `SessionLinkage.HonestWindowsPass` | src/codeatelier_governance/compliance/report.py:687-732 | every contiguous window of an arbitrarily interleaved honest log passes, with genesis asserted when it starts at the head |
| `SessionLinkage.InteriorDeletionIsCaught` | src/codeatelier_governance/compliance/report.py:687-732 | deleting a row between two kept rows of its session is caught, whatever else was deleted or reordered |
| `SessionLinkage.DepthFollowsTableOrder` | src/codeatelier_governance/compliance/report.py:713-732 | within a session, table order and link depth agree |
| `PostgresStore.LockKeyCollidesIff` | src/codeatelier_governance/audit/postgres_store.py:73-83 | the advisory lock key is a signed 64-bit integer that two sessions share if and only if their UUIDs share the first eight bytes |
| `PostgresStore.SessionsShareALock` | src/codeatelier_governance/audit/postgres_store.py:73-83 | the inputs: any two session UUIDs that differ in their last eight bytes only |
| `PostgresStore.StepRefinesAppend` | src/codeatelier_governance/audit/postgres_store.py:193-242 | refinement: every step of every worker leaves the committed sessions alone, or appends exactly one row built on the session's newest hash, behind all its rows in `chain_seq` order |
| `PostgresStore.StepKeepsInv` | src/codeatelier_governance/audit/postgres_store.py:193-242 | every step keeps lock exclusion, worker obligations and chained sessions |
| `PostgresStore.StepKeepsExclusion` | src/codeatelier_governance/audit/postgres_store.py:220-242 | two workers never hold the lock of one session at once |
| `PostgresStore.CommitStep` | src/codeatelier_governance/audit/postgres_store.py:225-242 | a commit appends to its session the event handed in, valid, under an id of its own and linked to the session's newest hash, although sessions commit out of `chain_seq` order and rollbacks leave gaps |
| `PostgresStore.CommittedAreHandedIn` | src/codeatelier_governance/audit/postgres_store.py:172-249 | in any run every row of the table is an event handed in, changed in nothing but its id and its link, also when it was rebuilt |
| `PostgresStore.OtherStepsKeepSessions` | src/codeatelier_governance/audit/postgres_store.py:193-242 | no other step changes any committed session |
| `PostgresStore.RunKeepsInv` | src/codeatelier_governance/audit/postgres_store.py:193-242 | the invariant holds after any interleaving of any number of workers, with failures anywhere |
| `PostgresStore.TableSessions` | src/codeatelier_governance/audit/postgres_store.py:350-367 | reading the table in `chain_seq` order and filtering by session are the same as reading the session in `chain_seq` order |
| `PostgresStore.EveryInterleavingIsHonest` | src/codeatelier_governance/audit/postgres_store.py:172-249 | after any interleaving the committed table is an honest log, so the prefix and window theorems apply to it |
| `KeyRotation.SelectionIsLatest` | src/codeatelier_governance/audit/keys.py:202-224 | the lookup returns the covering version with the latest activation, and none exactly if none covers |
| `KeyRotation.SortKeepsSelection` | src/codeatelier_governance/audit/chain.py:323-327 | sorting the registry first never changes the selected version, ties included |
| `KeyRotation.ResolveKey` | src/codeatelier_governance/audit/keys.py:117-189 | resolved material always has the requested fingerprint |
| `KeyRotation.CheckRowMeaning` | src/codeatelier_governance/audit/chain.py:326-390 | a row is skipped exactly if a key it needs cannot be resolved, and otherwise verified exactly if it carries its window's MAC (a marker: that MAC, and the different next key's in `hmac_next`, over the same columns) |
| `KeyRotation.MarkerVerifiedIff` | src/codeatelier_governance/audit/chain.py:219-244 | a marker whose keys resolve is verified if and only if it carries both MACs, and failed otherwise, with the outgoing key's alone too |
| `KeyRotation.VerifyChainWithRotation` | src/codeatelier_governance/audit/chain.py:283-414 | counts add up; "ok" if and only if every row's keys resolve and every row carries its MAC, a marker both; "failed" if and only if a resolvable row does not |
| `ChainDatabase.AuditDatabase.Append` | src/codeatelier_governance/audit/postgres_store.py:204-242 | an append under the newest key, linked to its session's newest row whatever key that carries, keeps every invariant, with sequence gaps |
| `ChainDatabase.AuditDatabase.FindUnretired` | src/codeatelier_governance/audit/rotation.py:85-101 | finds an unretired version with the fingerprint exactly if there is one |
| `ChainDatabase.AuditDatabase.RotateChainKey` | src/codeatelier_governance/audit/rotation.py:44-190 | the rotation transaction: exactly which calls are refused, what a refused call leaves (a sequence gap if the incoming key was registered), and the new table, marker and registry in full |
| `ChainDatabase.RotationKeepsWindows` | src/codeatelier_governance/audit/rotation.py:163-190 | registering at N+1 and retiring at N+1 keeps the windows consecutive with one open |
| `ChainDatabase.RotationKeepsRows` | src/codeatelier_governance/audit/rotation.py:174-190 | retiring a key takes no existing row out of its window |
| `ChainDatabase.OnlyTheLastIsUnretired` | src/codeatelier_governance/audit/rotation.py:85-101 | exactly one version is unretired, and it is the writers' |
| `ChainDatabase.WindowsPartition` | src/codeatelier_governance/audit/keys.py:202-224 | every sequence number from the first activation on lies in exactly one window |
| `ChainDatabase.LookupFindsWindow` | src/codeatelier_governance/audit/keys.py:202-224 | the lookup finds that window's key, even across back-to-back rotations |
| `ChainDatabase.MarkerLookup` | src/codeatelier_governance/audit/keys.py:202-224 | from the number after a marker the lookup finds the incoming key, which differs from the outgoing one |
| `ChainDatabase.SoundRowMatches` | src/codeatelier_governance/audit/chain.py:326-390 | every row of every run matches the registry, a marker at N under the outgoing key and under the key found at N+1 |
| `ChainDatabase.EveryRunVerifies` | src/codeatelier_governance/audit/chain.py:283-414 | each row of any run matches the registry, and can be checked once every registered key resolves |
| `ChainDatabase.AuditDatabase.Verify` | src/codeatelier_governance/audit/chain.py:283-414 | verifying what any run of appends and rotations left never reports a failure, whatever keys are mounted, and reports "ok" if and only if every row's keys resolve, in particular once every registered key does |
| `ChainDatabase.WriterMatchesIff` | src/codeatelier_governance/audit/module.py:110-118 | a writer's row matches the registry if and only if it was written under the newest registered key: running modules must switch at the marker |
| `ChainDatabase.MarkerKeepsLinkageIff` | src/codeatelier_governance/audit/rotation.py:107-114 | a marker links to the globally last row: per-session linkage survives it if and only if that row carries the newest hash of the marker's own session |
| `ChainDatabase.FirstMarkerKeepsLinkageIff` | src/codeatelier_governance/audit/rotation.py:107-114 | on an honest log the first rotation keeps the report's per-session check passing if and only if the marker's session wrote last (or the log is empty) |
| `ChainDatabase.OwnSessionMarkerBreaksLinkage` | src/codeatelier_governance/audit/rotation.py:107-114 | the input: one row, and a marker behind it in a session of its own |
| `MemoryStore.InMemoryAuditStore.PopOldest` | src/codeatelier_governance/audit/store.py:205-232 | evicting one row updates all three indexes to describe the log without its oldest row |
| `MemoryStore.InMemoryAuditStore.EnforceCapBeforeAppend` | src/codeatelier_governance/audit/store.py:186-235 | the cap loop leaves room for one, refuses in raise mode without change, and keeps evicted + kept constant |
| `MemoryStore.InMemoryAuditStore.Append` | src/codeatelier_governance/audit/store.py:157-164 | an append into room extends the one sequence the three indexes describe and counts one insertion; the cap is kept |
| `MemoryStore.InMemoryAuditStore.BeginInsert` | src/codeatelier_governance/audit/store.py:144-156 | the first half of a chain insert reads the session's newest hash |
| `MemoryStore.InMemoryAuditStore.FinishInsert` | src/codeatelier_governance/audit/store.py:144-164 | the second half: what the store holds afterwards in every cap mode, never more than a cap of at least one, with evicted = inserted - kept; buckets stay linked even if evictions and other inserts ran in between |
| `MemoryStore.InMemoryAuditStore.WriteBatch` | src/codeatelier_governance/audit/store.py:166-184 | equals the pure batch function: known ids are skipped, the first refusal ends the batch; the insertions it counts are the rows it appended, and evicted = inserted - kept and the cap hold afterwards |
| `MemoryStore.DeliverAppendsNewRows` | src/codeatelier_governance/audit/store.py:169-184 | delivery skips the ids it knows, also from earlier in the batch, and appends the rest in order |
| `MemoryStore.RaiseModeBatch` | src/codeatelier_governance/audit/store.py:169-204 | in raise mode a batch is delivered up to the cap and refused at the first new row beyond it |
| `MemoryStore.RaiseModeAppends` | src/codeatelier_governance/audit/store.py:169-204 | in raise mode the rows a batch appends are those the store has more afterwards: nothing is evicted |
| `MemoryStore.AllOrNothingIff` | src/codeatelier_governance/audit/store.py:169-184 | a raise-mode batch is stored whole or not at all if and only if the store was full already or has room for all its new rows |
| `MemoryStore.RefusedBatchLeavesPrefix` | src/codeatelier_governance/audit/store.py:169-184 | the input: two new rows, room for one; the first stays stored |
| `MemoryStore.EvictModeBatch` | src/codeatelier_governance/audit/store.py:169-235 | in evict mode new rows push the oldest out: all are appended, and the newest `max_events` of all of them stay |
| `MemoryStore.InMemoryAuditStore.GetSessionEvents` | src/codeatelier_governance/audit/store.py:302-306 | returns the session's rows in insertion order |
| `MemoryStore.InMemoryAuditStore.VerifyNotTruncated` | src/codeatelier_governance/audit/store.py:256-276 | succeeds if and only if everything ever inserted is still there |
| `MemoryStore.IndexAppend` | src/codeatelier_governance/audit/store.py:157-164 | index agreement under append |
| `MemoryStore.IndexPopOldest` | src/codeatelier_governance/audit/store.py:205-232 | index agreement under eviction |
| `MemoryStore.EvictionsKeepLinks` | src/codeatelier_governance/audit/store.py:186-235 | evicting any number of oldest rows keeps each bucket linked, and keeps true what lock holders have read |
| `MemoryStore.ChainInsertKeepsLinks` | src/codeatelier_governance/audit/store.py:144-164 | appending a row built on the hash its lock holder read keeps every bucket linked |
| `MemoryStore.FinishKeepsLinks` | src/codeatelier_governance/audit/store.py:144-235 | the same through eviction, refusal and a cap below one |
| `MemoryStore.RaiseModeIsHonest` | src/codeatelier_governance/audit/store.py:144-235 | in raise mode a store filled by chain inserts is an honest log |
| `MemoryStore.InMemoryAuditStore.ListAllRecords` | src/codeatelier_governance/audit/module.py:718-738 | returns every session's rows, session after session in order of first use |
| `MemoryStore.GroupingKeepsSessions` | src/codeatelier_governance/audit/module.py:807-816 | the grouped list holds each session's rows in order |
| `MemoryStore.GroupedIsHonest` | src/codeatelier_governance/audit/module.py:807-816 | the grouped list of an honest log is an honest log, so the prefix and window theorems apply to it |
| `MemoryStore.GroupedWindowPasses` | src/codeatelier_governance/compliance/report.py:505-545 | every contiguous window of the grouped list of an honest store passes the report's check |
| `MemoryStore.WholeStoreCheckPassesIff` | src/codeatelier_governance/audit/module.py:781-866 | `verify_chain()` without a session id, which checks the grouped list as one chain, passes on an honest store if and only if it holds at most one session |
| `MemoryStore.TwoSessionsFailTheWholeCheck` | src/codeatelier_governance/audit/module.py:781-866 | the input: the first rows of two sessions |
| `JsonlStore.FileRoundTripVerifiesIff` | src/codeatelier_governance/audit/jsonl_store.py:336-374 | a row read back from the file verifies if and only if it had no model; its links survive |
| `JsonlStore.ModelDoesNotSurviveTheFile` | src/codeatelier_governance/audit/jsonl_store.py:336-374 | the input: any event logged with a model |
| `JsonlStore.JsonlFallbackStore.ScanLastHmac` | src/codeatelier_governance/audit/jsonl_store.py:290-315 | the scan finds the session's newest hash, memory buffer over file |
| `JsonlStore.ScanFindsNewest` | src/codeatelier_governance/audit/jsonl_store.py:290-315 | a scan of rows finds the hash of the session's last row by position, and nothing if it has none |
| `JsonlStore.JsonlFallbackStore.Append` | src/codeatelier_governance/audit/jsonl_store.py:247-288 | a file-system error switches to memory for good and loses no row; one raised after the line was written leaves that row in the file as well |
| `JsonlStore.JsonlFallbackStore.InsertWithChainLock` | src/codeatelier_governance/audit/jsonl_store.py:82-98 | each row is built on the fallback's own newest hash, which becomes the next one's |
| `JsonlStore.JsonlFallbackStore.DrainTo` | src/codeatelier_governance/audit/jsonl_store.py:160-241 | equals sending the buffer, then the file, in batches of 1000; exactly what is left where when a batch fails; the file is not read once the file system is given up |
| `JsonlStore.JsonlFallbackStore.DrainMemory` | src/codeatelier_governance/audit/jsonl_store.py:174-195 | the buffer loop equals cutting it into batches of 1000; the failed batch and all after it stay buffered |
| `JsonlStore.JsonlFallbackStore.DrainFile` | src/codeatelier_governance/audit/jsonl_store.py:202-232 | the line-by-line batching equals cutting the file into batches of 1000 |
| `JsonlStore.RaiseModeWriteIsACall` | src/codeatelier_governance/audit/store.py:169-184 | a raise-mode store that fills up fails like the model's failing call: a prefix of the batch is stored |
| `DrainRetry.DeliverExtends` | src/codeatelier_governance/audit/store.py:169-184 | re-sending from the start to an id-idempotent target extends what it holds and repeats nothing |
| `DrainRetry.SendAllDelivers` | src/codeatelier_governance/audit/jsonl_store.py:174-232 | however a send fails, what reached the target is a number of leading rows, no fewer than are gone from the source |
| `DrainRetry.DrainStep` | src/codeatelier_governance/audit/jsonl_store.py:160-241 | a drain keeps the invariant however it fails; when it succeeds the target holds every buffered row once, in order, and while the file system is in use every filed row too |
| `DrainRetry.FiledRowsDeliveredIff` | src/codeatelier_governance/audit/jsonl_store.py:197-201 | after a drain that returned normally the target holds the filed rows if and only if the file system is still in use or it held them before |
| `DrainRetry.FiledRowIsStranded` | src/codeatelier_governance/audit/jsonl_store.py:197-201 | the input: one row filed, one write error, and a drain that succeeds without the filed row |
| `DrainRetry.RunKeepsInv` | src/codeatelier_governance/audit/jsonl_store.py:160-241 | over any run of logs, inserts and failing drains the target holds a prefix of each source, each row once, in order |
| `DrainRetry.NoRowVanishes` | src/codeatelier_governance/audit/jsonl_store.py:160-241 | no row ever vanishes from both sides; the line a torn write left in the file belongs to a buffered row |
| `DrainRetry.FailedSecondBatch` | src/codeatelier_governance/audit/jsonl_store.py:202-232 | the input: a file of more than one batch whose second batch fails leaves the first in the target and in the file |
| `DrainRetry.CanGetStuckIff` | src/codeatelier_governance/audit/jsonl_store.py:202-232 | on a target whose primary key rejects duplicates, some failure leaves an untouched file stuck if and only if the file has rows: the acknowledgement of a commit may be lost |
| `DrainRetry.CanGetStuckAcknowledgedIff` | src/codeatelier_governance/audit/jsonl_store.py:202-232 | while no acknowledgement is lost, if and only if the file takes more than one batch |
| `DrainRetry.LostAcknowledgement` | src/codeatelier_governance/audit/jsonl_store.py:202-232 | the input: the first batch is committed, its acknowledgement lost; the rows are in the target and still in the file |
| `DrainRetry.StuckForever` | src/codeatelier_governance/audit/jsonl_store.py:202-232 | a stuck file stays stuck, whatever is logged, inserted or drained later |
| `DrainRetry.StuckDrain` | src/codeatelier_governance/audit/jsonl_store.py:202-232 | every later drain of a stuck file fails |
| `DrainRetry.OneBatchIsAllOrNothing` | src/codeatelier_governance/audit/jsonl_store.py:174-232 | a source of at most 1000 rows is sent as a whole or not at all, unless its one call fails having stored some |
| `OutageRuns.AuditModule.InsertPrimary` | src/codeatelier_governance/audit/module.py:399-507 | an event on the primary is built on its newest hash; an outage changes nothing |
| `OutageRuns.AuditModule.InsertFallback` | src/codeatelier_governance/audit/module.py:521-535 | a marker, or an event behind one, extends the fallback's own chain |
| `OutageRuns.AuditModule.MaybeDrainFallback` | src/codeatelier_governance/audit/module.py:337-358 | moves all pending rows behind the primary's, or none |
| `OutageRuns.AuditModule.Recover` | src/codeatelier_governance/audit/module.py:496-507 | the session stops being degraded exactly if the recovery marker reached the primary; then the primary gains exactly one marker, linked to its newest hash, and behind it the replayed rows if the replay works; otherwise nothing changes |
| `OutageRuns.AuditModule.LogToFallback` | src/codeatelier_governance/audit/module.py:508-535 | the fallback gains the event, behind exactly one marker if it is the first of the outage |
| `OutageRuns.AuditModule.LogUnsafe` | src/codeatelier_governance/audit/module.py:388-535 | everything a call writes: one marker for a recovery that reached the primary, one before the first event of an outage, none else, then the event, each at its place, and replayed rows between; over any number of outages and failed drains each accepted row is stored exactly once and every unlinked primary row is a `chain.degraded_start` row |
| `OutageRuns.PrimaryLogged` | src/codeatelier_governance/audit/module.py:496-507 | a recovery, if any, and the event on the primary add up to that |
| `OutageRuns.FallbackLogged` | src/codeatelier_governance/audit/module.py:496-535 | so do a recovery, if any, and the event on the fallback |
| `OutageRuns.AuditModule.FailedReplayIsNotRetried` | src/codeatelier_governance/audit/module.py:337-358 | the input: after a recovery whose replay failed, any number of successful calls leave the rows waiting |
| `OutageRuns.PrimaryAccepts` | src/codeatelier_governance/audit/module.py:388-535 | a primary insert keeps the outage invariant |
| `OutageRuns.FallbackAccepts` | src/codeatelier_governance/audit/module.py:508-535 | a fallback insert keeps the outage invariant |
| `OutageRuns.DrainAccepts` | src/codeatelier_governance/audit/module.py:337-358 | a drain keeps it; with a file, the primary is fully linked if and only if nothing was ever replayed |
| `BatchingWriter.StoreAllNew` | src/codeatelier_governance/audit/store.py:166-235 | a batch of new events written to the default ring evicts exactly if it exceeds the cap |
| `BatchingWriter.StepKeepsInv` | src/codeatelier_governance/audit/store.py:376-462 | every step keeps the buffer within its bound and every event's copies balanced |
| `BatchingWriter.RunKeepsInv` | src/codeatelier_governance/audit/store.py:376-462 | conservation over every interleaving of enqueues and overlapping flushes with failing, partial and timed-out writes |
| `BatchingWriter.RequeueCuts` | src/codeatelier_governance/audit/store.py:459-462 | a requeue gives up exactly max(0, batch - space) events |
| `BatchingWriter.VanishedIff` | src/codeatelier_governance/audit/store.py:376-480 | in any run, with partial writes too, an accepted event is held nowhere if and only if some step gave up its last copy |
| `BatchingWriter.LastCopyIsDropped` | src/codeatelier_governance/audit/store.py:376-480 | only a cut requeue, a cancelled flush or an eviction from the fallback can do that |
| `BatchingWriter.AllKeptIff` | src/codeatelier_governance/audit/store.py:312-480 | general form, whatever failing or timed-out writes stored: if the events taken are all different, each is held somewhere if and only if no step met its losing guard: a requeue without room for an event or a cancelled flush, with no copy in either store, or an eviction with no copy in the primary or on its way |
| `BatchingWriter.StepGivesUp` | src/codeatelier_governance/audit/store.py:312-480 | step by step: the last copy is lost exactly under that guard, and an event never has two copies on their way |
| `BatchingWriter.RingKeepsNewest` | src/codeatelier_governance/audit/store.py:169-235 | the eviction guard spelled out: of new rows the newest that fit stay, the others are the ones dropped |
| `BatchingWriter.KeptIff` | src/codeatelier_governance/audit/store.py:312-350 | with all-or-nothing writes every accepted event is held (then exactly once) if and only if no requeue found too little room, no flush was cancelled and the ring was never overfilled |
| `BatchingWriter.RequeueDropsEvent` | src/codeatelier_governance/audit/store.py:312-324 | the documented "nothing is ever silently dropped" fails: a run whose requeue loses an accepted event |
| `BatchingWriter.EvictionDropsEvent` | src/codeatelier_governance/audit/store.py:338-350 | and one whose default fallback evicts an accepted event during a stalled flush |
| `BatchingWriter.Writer.Enqueue` | src/codeatelier_governance/audit/store.py:376-401 | accepts exactly when open and either there is room or the spill works; the event goes behind the buffer if there is room, else to the fallback; a refused call changes nothing |
| `BatchingWriter.Writer.TakeBatch` | src/codeatelier_governance/audit/store.py:425-430 | a flush takes the whole buffer |
| `BatchingWriter.Writer.RequeueBatch` | src/codeatelier_governance/audit/store.py:456-462 | puts back what fits and no more |
| `CostStore.InMemoryCostStore.Track` | src/codeatelier_governance/cost/store.py:90-121 | the session, agent and model counters equal the sums over everything ever tracked, each day's from its rollover on, even with late clock readings |
| `CostStore.InMemoryCostStore.GetSessionUsage` | src/codeatelier_governance/cost/store.py:136-142 | the session's total over the whole history |
| `CostStore.InMemoryCostStore.GetAgentDailyUsage` | src/codeatelier_governance/cost/store.py:144-154 | the newest day's total if the clock is not past it, else zero |
| `CostStore.DailyTotalIsToday` | src/codeatelier_governance/cost/store.py:144-154 | on a clock that never goes back that is exactly what the agent tracked that UTC day |
| `CostStore.DayHolds` | src/codeatelier_governance/cost/store.py:18-19 | a day is the 86400 seconds from a UTC midnight, before the epoch too |
| `CostStore.TrackedToday` | src/codeatelier_governance/cost/store.py:108-113 | whatever the clock did before, a call's amount lands on top of the total its own clock reads |
| `CostStore.InMemoryCostStore.GetSessionStartTime` | src/codeatelier_governance/cost/store.py:156-162 | when the session was first tracked: the time of its first entry in the history |
| `CostStore.FirstTrackedIsFirst` | src/codeatelier_governance/cost/store.py:90-134 | the first tracking time is that of the first entry of the scope by position |
| `CostStore.AddKeepsAgreement` | src/codeatelier_governance/cost/store.py:108-113 | the day-rollover rule keeps a counter equal to its day's total |
| `CostStore.DuringIsOn` | src/codeatelier_governance/cost/store.py:99-121 | with an ordered clock, counting since rollover and counting by date agree |
| `CostModule.BreachIsFirstOver` | src/codeatelier_governance/cost/module.py:658-689 | the chain of comparisons names the first cap that is over, and none exactly if none is |
| `CostModule.WithinCapsIff` | src/codeatelier_governance/cost/module.py:658-720 | within the caps means five comparisons: dollars, tokens plus projection and seconds each at most their cap |
| `CostModule.Module.CheckOrRaise` | src/codeatelier_governance/cost/module.py:540-757 | a call is allowed exactly if everything ever tracked leaves every cap unbroken (or no policy, or fail-open on a failed read); a denial names the first broken cap |
| `CostModule.Module.MaybeFireBudgetAlert` | src/codeatelier_governance/cost/module.py:383-459 | sends exactly if enabled, configured, not yet sent that day, and cap times percent lies above the dollars before and not above those now |
| `BudgetAlert.ThresholdIsPercentage` | src/codeatelier_governance/cost/module.py:425-427 | the threshold is the given percentage of the cap |
| `CostModule.Module.Track` | src/codeatelier_governance/cost/module.py:329-381 | rejects negative amounts, records the rest once, and alerts exactly if this call takes the day from below the threshold to it |
| `CostModule.Module.Reconcile` | src/codeatelier_governance/cost/module.py:461-519 | adds exactly the excess of each dimension to the session's totals, never refunds, touches no other session, nothing if the store fails; alerts exactly as `track` of the excess would, marking the day as alerted |
| `SoftCeiling.ModuleGates` | src/codeatelier_governance/cost/module.py:654-689 | the module's four counter caps admit calls exactly as the gate of the run model |
| `SoftCeiling.RunKeepsInv` | src/codeatelier_governance/cost/module.py:558-562 | in any run, even if every call under way tracks all it may, the bound holds; day rollover included |
| `SoftCeiling.CeilingHolds` | src/codeatelier_governance/cost/postgres_store.py:226-234 | tokens never exceed cap + (N-1)C, dollars never cap + NC, with at most N calls under way of at most C each |
| `SoftCeiling.OneAtATime` | src/codeatelier_governance/cost/module.py:547-551 | one call at a time never takes a token counter over its cap |
| `SoftCeiling.BoundIsReached` | src/codeatelier_governance/cost/module.py:558-562 | both bounds are attained, for every cap a call fits under |
| `SoftCeiling.DocumentedBoundIff` | src/codeatelier_governance/cost/module.py:558-562 | the documented overshoot of (N-1) calls bounds every run if and only if the counter is checked with a projection, or calls cost nothing |
| `BudgetAlert.AlertDedup.MarkIfUnfired` | src/codeatelier_governance/cost/webhook.py:218-229 | true for the first caller of a key only |
| `BudgetAlert.AtMostOneSend` | src/codeatelier_governance/cost/module.py:416-437 | in every interleaving of concurrent `track` calls, whatever fails, at most one send is attempted |
| `BudgetAlert.StepKeepsCrossing` | src/codeatelier_governance/cost/module.py:356-381 | whenever the total has reached the threshold, the alert was sent or some call under way will cross |
| `BudgetAlert.ExactlyOnce` | src/codeatelier_governance/cost/module.py:416-437 | with working reads, once all calls have finished exactly one alert was sent if the day reached a positive threshold, and none otherwise |
| `BudgetAlert.SentIff` | src/codeatelier_governance/cost/module.py:352-437 | whatever reads and adds fail: once all calls have finished, one alert was sent if some call read the day below the threshold before its add and at or above it after, else none |
| `BudgetAlert.SilencedForGood` | src/codeatelier_governance/cost/module.py:352-437 | with the day at the threshold, nothing sent and no reading from below under way, no continuation ever sends that day |
| `BudgetAlert.FailedReadLosesTheAlert` | src/codeatelier_governance/cost/module.py:352-361 | one failed read can lead there |
| `StreamReconcile.ReconcilingProxy.OnChunk` | src/codeatelier_governance/integrations/openai_wrap.py:563-568 | counts the chunk and keeps the last usage any chunk carried |
| `StreamReconcile.ReconcilingProxy.constructor` | src/codeatelier_governance/integrations/openai_wrap.py:204-301 | the projection tracked at the start: a positive `max_tokens`, else a positive default, else nothing |
| `StreamReconcile.ReconcilingProxy.RunReconcile` | src/codeatelier_governance/integrations/openai_wrap.py:390-448 | the first call past the flag brings the tracked tokens to the charge for what was seen, if its write works; later ones change nothing |
| `StreamReconcile.ReconcilingProxy.EndIteration` | src/codeatelier_governance/integrations/openai_wrap.py:559-617 | reconciles at once, or spawns when it cannot |
| `StreamReconcile.ReconcilingProxy.RunSpawned` | src/codeatelier_governance/integrations/openai_wrap.py:604-612 | a spawned reconciliation runs like any other, later |
| `StreamReconcile.ReconcilingProxy.Finalize` | src/codeatelier_governance/integrations/openai_wrap.py:470-496 | collection closes the flag and tracks nothing |
| `StreamReconcile.AppendEvent` | src/codeatelier_governance/integrations/openai_wrap.py:532-541 | at most one reconciliation counts: the first settling event decides |
| `StreamReconcile.NeverLessThanProjected` | src/codeatelier_governance/integrations/openai_wrap.py:390-448 | a stream is never charged less than its projection |
| `StreamReconcile.ChargeInNumbers` | src/codeatelier_governance/integrations/openai_wrap.py:390-448 | the charge in numbers: the reported total, or eight tokens a chunk for a torn stream without one, and never less than the projection |
| `StreamReconcile.ExtractedFields` | src/codeatelier_governance/integrations/openai_wrap.py:348-372 | a usage block is kept as it is, a missing total being computed if both parts are there; an empty one counts as none |
| `StreamReconcile.LastUsageIsLast` | src/codeatelier_governance/integrations/openai_wrap.py:556-610 | the usage kept is that of the last chunk that carried any, by position |
| `StreamReconcile.ChunksSeenCounts` | src/codeatelier_governance/integrations/openai_wrap.py:563-565 | the chunk counter is the number of chunk events |
| `StreamReconcile.LaterEventsDoNotMatter` | src/codeatelier_governance/integrations/openai_wrap.py:532-541 | nothing after the first settling event changes the charge |
| `StreamReconcile.CollectionForfeitsUsage` | src/codeatelier_governance/integrations/openai_wrap.py:470-496 | a proxy collected before its reconciliation ran is charged the projection, whatever was reported |
| `StreamReconcile.SpawnedReconcileIff` | src/codeatelier_governance/integrations/openai_wrap.py:592-617 | a spawned reconciliation charges the reported usage if and only if it runs before the proxy is collected and its write works, or there is nothing to add |
| `LoopDetector.LoopModule.RecordCall` | src/codeatelier_governance/loop/module.py:76-148 | on any clock and after any change of policy: a call is flagged if and only if the whole unpruned history, less the calls pruned though they lie in the window, holds more than `max_calls` calls of the tool; the detection names the tool, that number and whether to raise |
| `LoopDetector.LoopModule.RecordUnderLock` | src/codeatelier_governance/loop/module.py:124-143 | pruning and the 24-hour cleanup leave exactly what the history's cutoffs leave |
| `LoopDetector.KeptOrPruned` | src/codeatelier_governance/loop/module.py:124-143 | every recorded call is kept or pruned, and counts once |
| `LoopDetector.RecordingStaysSteady` | src/codeatelier_governance/loop/module.py:124-143 | on a clock that never goes back, pruning and cleanup of any session take only calls before every window to come |
| `LoopDetector.SteadyCountsAreExact` | src/codeatelier_governance/loop/module.py:124-148 | then, while no window is widened, every count is over the whole unpruned history |
| `LoopDetector.RegisteringStaysSteady` | src/codeatelier_governance/loop/module.py:72-74 | new agents and narrower windows keep it so |
| `LoopDetector.PrunedIff` | src/codeatelier_governance/loop/module.py:124-143 | on such a clock the pruned calls are those before some cutoff used so far |
| `LoopDetector.ExactIffNoCallInGap` | src/codeatelier_governance/loop/module.py:72-74 | after any change of windows every tool's count is exact if and only if no call of the history lies in the window but before a cutoff used so far |
| `LoopDetector.WideningLosesCalls` | src/codeatelier_governance/loop/module.py:72-74 | the input: a widened window undercounts |
| `LoopDetector.LoopModule.Register` | src/codeatelier_governance/loop/module.py:72-74 | a policy is replaced; what is kept does not change |
| `LoopDetector.LoopModule.Check` | src/codeatelier_governance/loop/module.py:235-258 | names a tool over its limit by the whole history if and only if there is one |
| `LoopDetector.CountPerTool` | src/codeatelier_governance/loop/module.py:246-250 | the per-tool counts of one pass |
| `LoopDetector.CallsInWindowCounts` | src/codeatelier_governance/loop/module.py:143-144 | a count is the number of positions holding a call of the tool at or after the cutoff |
| `GatesStore.InMemoryGatesStore.InsertPending` | src/codeatelier_governance/gates/store.py:123-125 | pending and resolved stay disjoint if and only if the id is fresh |
| `GatesStore.InMemoryGatesStore.Resolve` | src/codeatelier_governance/gates/store.py:134-162 | resolves a pending request once, with its hook; a refused call or a raising hook changes nothing |
| `GatesStore.InMemoryGatesStore.GetResolution` | src/codeatelier_governance/gates/store.py:164-169 | an answer belongs to a request no longer pending whose hook completed with that resolution; no answer means the request is open, and a resolve would be let through, or unknown |
| `GatesStore.InMemoryGatesStore.HasGrantedApproval` | src/codeatelier_governance/gates/store.py:171-196 | true if and only if some resolved request of the agent was granted and has not expired |
| `GatesStore.RunKeepsInv` | src/codeatelier_governance/gates/store.py:134-162 | in every interleaving, resolves of different requests overlapping, pending and resolved stay apart, and every visible resolution has had its matching hook completed |
| `GatesStore.ResolvedForGood` | src/codeatelier_governance/gates/store.py:134-162 | a resolution once visible never changes |
| `GatesStore.ResolvedByCommit` | src/codeatelier_governance/gates/store.py:134-162 | a request not yet resolved is resolved later, as v, if and only if a commit of v came in between |
| `GatesStore.OpenUntilResolved` | src/codeatelier_governance/gates/module.py:358-432 | a request stays resolvable until a resolution is committed, however many hooks or commits fail |
| `GatesStore.HooksAreExact` | src/codeatelier_governance/gates/module.py:386-415 | hooks run once per resolution, plus once for each commit rolled back after its hook |
| `GatesModule.IssuedTokenAdmitsIff` | src/codeatelier_governance/gates/module.py:358-384 | a pending request's token resolves it if and only if it has not expired (and, in the legacy format, before the sunset) |
| `GatesModule.SingleUse` | src/codeatelier_governance/gates/module.py:350-434 | over any run: once a request is resolved, no token of any key or format resolves it at any later point and time; one that parses is refused as already used |
| `GatesModule.Module.OpenRequest` | src/codeatelier_governance/gates/module.py:258-343 | what is stored and minted; a zero lifetime means the default; the returned token works exactly until it expires |
| `GatesModule.Module.ResolveByToken` | src/codeatelier_governance/gates/module.py:345-432 | resolves exactly the request the token admits, whose stored action hash is the token's; a differing hash is refused as such and resolves nothing; every failure leaves the store unchanged and the token retryable |
| `GatesModule.Module.SyncPlatformResolution` | src/codeatelier_governance/gates/module.py:605-685 | mirrors a verdict only onto a pending request; failures are swallowed without effect |
| `WaitFor.Run` | src/codeatelier_governance/gates/module.py:456-603 | the loop stops at the first tick that sees a verdict or ends past the deadline: granted and denied if it saw that verdict, timed out if it saw none and its end is not before the deadline |
| `WaitFor.FirstDecisionIff` | src/codeatelier_governance/gates/module.py:497-603 | each outcome exactly when, in terms of what the ticks see: in particular a time-out if and only if no tick so far saw a verdict and this one is the first to end past the deadline |
| `WaitFor.AnswerIsFinal` | src/codeatelier_governance/gates/module.py:497-603 | an answer stands: however the trace goes on, the loop gives this answer at this tick and no other |
| `WaitFor.AnsweredOnlyBy` | src/codeatelier_governance/gates/module.py:497-579 | beside any run of the store: an answer is the store's resolution, for good, or a platform verdict polled in a tick whose local read failed or found none; no earlier read saw any resolution |
| `WaitFor.BackoffIsLadder` | src/codeatelier_governance/gates/module.py:533-556 | the backoff after f failures in a row is 2, 4, 8, then 10 seconds |
| `WaitFor.PollSpacing` | src/codeatelier_governance/gates/module.py:533-572 | polls are never closer than 1.5 s, nor than the ladder's rung less the jitter, nor than 60 s from the fifth failure on |
| `WaitFor.HealthyPollIsPrompt` | src/codeatelier_governance/gates/module.py:119-129 | a healthy platform is polled again by the first tick 2.5 s later |
| `WaitFor.PollIsPrompt` | src/codeatelier_governance/gates/module.py:533-572 | after any number of failures the platform is polled again by the first tick past the ladder's rung and the jitter, ten seconds at most, a minute from the fifth failure on |
| `WaitFor.FirstTickPolls` | src/codeatelier_governance/gates/module.py:488-491 | the first tick polls at once |
| `WaitFor.SyncRecordsIff` | src/codeatelier_governance/gates/module.py:605-685 | after mirroring a verdict, other requests being resolved in between, the store records it if and only if the mirror found the request pending, its hook completed and its commit went through, or the store had resolved the same way first |
| `WaitFor.PlatformAnswerAgreesIff` | src/codeatelier_governance/gates/module.py:567-579 | an answer taken from the platform at a tick, mirrored after that tick's local read, agrees with the store if and only if the mirror committed, or another commit of the same verdict came between that read and the mirror, or the mirror failed and one came later |
| `WaitFor.PlatformAnswerMayDisagree` | src/codeatelier_governance/gates/module.py:663-679 | the input: a denial gets in between a tick's local read and the mirror |
| `Tokens.SplitToken` | src/codeatelier_governance/gates/tokens.py:203-210 | the parser cuts body and MAC where the printer joined them |
| `Tokens.FormatsDiffer` | src/codeatelier_governance/gates/tokens.py:144-156 | the two formats are never confused |
| `Tokens.FieldsRoundTripIff` | src/codeatelier_governance/gates/tokens.py:287-307 | a minted body's fields read back if and only if the action hash has no colon and the token is unexpired, with any number of colons in the time |
| `Tokens.ParseMinted` | src/codeatelier_governance/gates/tokens.py:159-307 | what parsing does to any minted token under any current key |
| `Tokens.RoundTripIff` | src/codeatelier_governance/gates/tokens.py:117-307 | parsing a minted token returns its request if and only if the action hash has no colon, it is unexpired, and (legacy) the sunset has not passed |
| `Tokens.OldTokenParses` | src/codeatelier_governance/gates/tokens.py:217-236 | a tagged token minted under an old key parses if and only if its prefix resolves to a key whose MAC matches; the other outcomes are told apart |
| `Tokens.MountedKeyOpensOldTokens` | src/codeatelier_governance/gates/tokens.py:77-114 | after a rotation: exactly what must be mounted for an old token to open |
| `Tokens.AcceptedTokenIsSigned` | src/codeatelier_governance/gates/tokens.py:284-288 | every accepted token is a body signed by the current key or by a key carrying the prefix it names |
| `Sanitizer.EscapeIsOnePass` | src/codeatelier_governance/audit/sanitization.py:53-64 | the four replacements and the strip equal one per-character escape |
| `Sanitizer.SanitizedIsClean` | src/codeatelier_governance/audit/sanitization.py:42-65 | no C0 control or DEL in the result, at most twice the cap long |
| `Sanitizer.UnescapeRecovers` | src/codeatelier_governance/audit/sanitization.py:53-64 | reading the escapes back loses only the stripped characters |
| `Sanitizer.SanitizedReadsBack` | src/codeatelier_governance/audit/sanitization.py:42-65 | what can be read back is the normalised text, cut to its first `max_len` characters, less the stripped ones |
| `Sanitizer.RoundTripIff` | src/codeatelier_governance/audit/sanitization.py:42-65 | normalised text is recovered if and only if it is within the cap and has no stripped character |
| `Sanitizer.EachTextIsSanitised` | src/codeatelier_governance/audit/sanitization.py:68-84 | in a structure each text becomes its sanitised self, in its place; shape, keys, scalars and sets stay as they are |
| `Sanitizer.SanitizedIsCleanIff` | src/codeatelier_governance/audit/sanitization.py:68-84 | every text below comes out clean if and only if no set hid an unclean one, since sets are returned as they are |
| `Sanitizer.KeysAreLeftAlone` | src/codeatelier_governance/audit/sanitization.py:78-79 | dictionary keys are clean afterwards if and only if they were before |
| `Sanitizer.SetsAndKeysKeepControls` | src/codeatelier_governance/audit/sanitization.py:68-84 | the inputs: a tab in a set, and a tab in a key |

## Left out

- OutageRuns.AuditModule.LogUnsafe: stated for one session with sequential calls, a fallback that succeeds, a file system that stays up or down, and drains that are all or nothing; a primary call that raises is taken to have written nothing; one session's recovery drains every session's rows and clears their cached heads, so the marker claim does not hold across sessions.
- ChainDatabase.AuditDatabase.Append: takes writers to switch to the incoming key at the marker, although a rotation leaves a running module's secret unchanged; `WriterMatchesIff` says what happens to a writer that does not.
- ChainDatabase.AuditDatabase.constructor: assumes a bootstrap key version active from the first row on; nothing in the repository inserts one.
- ChainDatabase.AuditDatabase.RotateChainKey: modelled as one atomic step without an advisory lock; a rotation racing with inserts is not modelled.
- PostgresStore.EveryInterleavingIsHonest: excludes `write_batch` and rotations, which take no session lock; modelled on values as a state machine, not as a class, because its state is shared by many workers.
- ChainVerifier.AcceptedIffPrefix: holds up to the signature columns, which no MAC covers.
- WaitFor.Run: follows a trace of ticks; that the loop keeps ticking and real random jitter are left out, jitter keeps its bounds.
- GatesStore.RunKeepsInv: request ids are assumed fresh, as `uuid4` draws are.
- BudgetAlert.ExactlyOnce: one process and one UTC day; the dedup set does not survive a restart.
- SoftCeiling.CeilingHolds: a reconciliation that adds more than its call's projection is outside the hypothesis.
- StreamReconcile.ReconcilingProxy.RunReconcile: tokens only; the dollar estimate from the price table is left out, and the write of the projection at the start is assumed to succeed.
- CostModule.Module.Track: one clock reading serves the whole call; `track_usage`, pricing and policy persistence are left out.
- Tokens.RoundTripIff: HMAC, fingerprints, UUID and ISO-8601 texts are parameters with the properties of `World.IsSane`.
- BatchingWriter.RunKeepsInv: the timer, the batch-size trigger and the flush event only decide when a flush starts and are left out; the primary is what was written to it, whatever it does with duplicates.
- OutageRuns.AuditModule.InsertFallback: the file system does not fail during the run; `DrainRetry` covers that.
- OutageRuns.AuditModule.MaybeDrainFallback: a replay works or fails as a whole; `DrainRetry` covers replays that fail in between.
- OutageRuns.AuditModule.constructor: a run starts from an empty primary and an empty fallback.
- MemoryStore.InMemoryAuditStore.FinishInsert: event ids are assumed fresh, as the builder's `uuid4` draws are; `stats`, `count` and single-event reads are left out.
- GatesModule.Module.OpenRequest: the request id is a parameter assumed fresh; the audit row and the platform forward, which cannot fail the call, are left out.
- CostModule.Module.CheckOrRaise: the store's reads are one step here and separate steps in the run models.
- LoopDetector.LoopModule.RecordCall: case folding of tool names is a parameter; the audit row of a detection is left out.
- Marker MACs do not cover the `model`, `input_hash` and `output_hash` columns; the model has them empty, as the rotation writes them.
- SQL text, engines, pools, migrations and schema checks: tables are sequences and maps with the stated atomicity.
- SHA-256, HMAC and Ed25519 internals, canonical JSON bytes, Unicode normalisation, secret-strength checks.
- HTTP delivery and the SSRF check, the platform client, OpenTelemetry export, logging, environment variables, the CLI and its own chain check.
- `trace` and `get_chain`, which follow parent links; the corrections, presence and scope modules; a halted agent is a boolean parameter.
- JSONL file rotation at the size cap and unparsable lines.
- The Postgres variants of the cost, gates and loop stores beyond what the run models above cover; the Anthropic and LangChain wrappers.
- Placeholder records written when even the fallback fails, subscribers, payload hashing and Article 12 sections.
