# RESCS in Dafny: uploads, records, files, rate limiting and SQL filters

RESCS stores JSON records and binary files for many owners. This project models its state-heavy core
and proves what its documentation and tests rely on. `dafny verify dfyconfig.toml` checks all of it.

| file | what it holds |
|---|---|
| `Prelude`, `Sorting`, `Totals`, `Domain` | byte strings, results, sorted sequences, sums over maps; rows, expiry, tags, content etags |
| `ObjectStore` | the in-memory blob store, and the strings its chunk keys render to |
| `UploadLayout` | one session's chunks: the walk that meters and assembles them, the sweep that deletes them |
| `UploadProtocol` | one session under every interleaving of finalize, chunk puts, cancel, clean-up and stale writes |
| `UploadRaces`, `UploadMeter` | which sessions are safe under racing chunk puts when no checksum is declared; `received_bytes` under racing puts |
| `UploadSteps`, `Uploads`, `UploadOutcomes`, `UploadRuns` | the upload service call by call: steps on values, the class that performs them, what they come to by field, runs |
| `MemoryStore`, `RecordService`, `RecordOutcomes` | the generic in-memory repository; the record service and what each call comes to by field |
| `RecordRuns`, `RecordHistory`, `RecordClashes` | what every run of record calls keeps, and the runs its side conditions exclude |
| `RecordRaces`, `RecordWrites` | racing record creates, and racing conditional writes, step by step |
| `Pages`, `RecordQueries` | sorted, paginated listings; in-memory and SQL filters on the same rows |
| `FileRepository`, `FileService`, `FileOutcomes`, `FileProtocol` | quotas and row/blob agreement; the file service call by call, and by field; racing creators step by step |
| `RateLimiter`, `LruBoundary`, `RateRequests`, `RateRetry` | the sliding window with its LRU map against the complete log; how many other keys it stands; admission by header and bucket; Retry-After |
| `LikePatterns`, `LikeFolds` | LIKE escaping and tag matching on JSON text; the same on backends that fold case |

Services and repositories are classes whose methods carry the loops and branches of the source. Each
method is proved equal to a step function on values (`CreateStep`, `PutStep`, `FinalizeStep`, `Step`,
...), and the properties are proved of those functions over all inputs and all runs. What each step
answers and stores is stated once more in terms of columns, offsets and bytes alone, without the step's
own helpers (the `Outcomes` modules). Where calls race,
the protocol is a state machine: a run is any sequence of atomic actions, and an action that is not
enabled does nothing, so a statement about all sequences covers every interleaving.

Conventions. SHA-256 is a function parameter; it is injective only where a contract says so. Ids are
fresh, as `uuid4` makes them. Time is a natural number, a real in the limiter. One call reads the clock
once; in the state machines every check reads it separately and may use a stale value. Chunk keys are
pairs of session and offset (`ChunkKeys` proves that the strings tell them apart).

## Main results

- Uploads, every interleaving: one finalize wins (`SingleWinner`); it publishes exactly the upload if
  and only if no offset accepts two lengths (`UncheckedFidelityIff`, `RowSizesAgreeIff`), or whenever its
  digest was declared (`ChecksumPublishesD`); the meter under racing puts (`NeverAheadIff`, `ExactAtRestIff`).
- Uploads, every run of calls: meters and files agree (`MetersAndFilesHold`); exact outcomes of finalize
  and of the chunk sweep (`FinalizeIff`, `SweepCharacterised`).
- Records: version, creation time and etag on every run (`RunHistory`, `RunEtags`), and under racing
  writes exactly while no write is stale (`StepKeepsVersionsIff`, `GuardHoldsAtWrite`); the two indexes
  and exactly which step unsettles them (`RunIndex`, `UpdateClashIff`, `RaceIndex`, `StepKeepsIff`,
  `StepKeepsIdemIff`); the quota under races and exactly which rewrite breaks it (`RecordsBounded`,
  `QuotaHoldsAtRest`, `RewriteAtRestIff`).
- Files: rows and blobs under every run and every race (`RunSound`, `RowsAndBlobsAtRest`); both quotas
  at rest and exactly which restore breaks them (`FilesBounded`, `BytesBounded`, `QuotasHoldAtRest`,
  `RestoreAtRestIff`); streaming equals creating (`CreateStream`).
- What every call answers and stores, by field: `FinalizeChecksumIff`, `PutAnswers`, `PutStores`,
  `CreateStores`, `CreateAnswers`, `UpdateStores`, and the exact clean-ups (`CleanupExpired`).
- Rate limiter: admission by header and bucket over runs of requests (`RequestAdmittedIff`), the bound in
  every window (`WindowBound`), and the exact number of other clients up to which it holds (`BoundaryIff`).
- SQL filters, for every case fold LIKE may have: what they select (`SqlSelectsFolded`), and exactly
  which prefixes and tag queries select what the in-memory backend does (`PrefixExactIff`,
  `TagExactIff`, `BackendsAgree`); pages join to the one listing (`PagesPartition`).

## Findings

Where the code does not do what its documentation or a reader would expect:

- A finalize that wins the compare-and-set and then fails before the blob write (a missing chunk,
  governance, a storage error) leaves the session in "finalizing" for good. `docs/uploads.md:21` says
  it returns to "active"; the code does that only on the three paths that roll back
  (`RetryIffReopened`, `DeadForGood`, `FinalizeIff`; runs: `IncompleteFinalize`, `NeverRetried`,
  `MissingChunkKills`).
- The existence check and the write of a chunk are separate. Two puts of one offset with different
  lengths, each carrying the right bytes, can race so that a finalize without a declared checksum
  publishes something longer than the upload, under a row that says total_size
  (`UncheckedFidelityIff`, `RowSizesAgreeIff`; run: `Misassembles`).
- Racing puts count and write `received_bytes` in any order, so at rest it can be behind the chunks
  stored, and, where an offset accepts two lengths, ahead of them (`ExactAtRestIff`, `NeverAheadIff`;
  runs: `StaleAtRest`, `RunsAhead`). The next put to run alone repairs it (`PutAloneMeters`).
- `_cleanup_chunks` leaves chunks that start inside another chunk, and only those (`CleanedLeaves`; run:
  `CancelLeavesChunk`).
- An update may move a record onto another live record's key, and a put with another row's idempotency
  key fails after it has replaced the row (`KeyMoveMakesTwo`, `FailedPutHasWritten`). While the other
  row keeps the key, every update, delete and restore of that row reports a conflict and writes all the
  same (`ConflictIffTaken`, `FailedDeleteHasDeleted`).
- If-Match is checked when a record is read, and the write that follows is unconditional: two updates
  held to one etag can both succeed, the second overwriting the first (`StepKeepsVersionsIff`,
  `GuardHoldsAtWrite`; run: `LostUpdate`).
- A record create looks its key up, drops a dead occupant and inserts under separate locks, so two of
  them over a tombstone can leave two live rows under one key (`StepKeepsIff`; run: `StaleDropHappens`).
- Restoring a file or a record, and a put that changes a record's owner, check no quota. Limits hold at
  rest while each of these finds room when it is made (`QuotasHoldAtRest`, `QuotaHoldsAtRest`), and one
  that does not breaks them (`RestoreAtRestIff`, `RestoreQuotaIff`, `RewriteAtRestIff`, `PutQuotaIff`);
  under any limit some run goes over it (`RestoreExceedsQuota` for files and for records,
  `PutExceedsQuota`).
- A client among MAX_TRACKED_KEYS others or more can be evicted within its window and exceed its limit
  (`EvictedForgets`, `BoundaryIff`).
- Retry-After is rounded down, so a client that waits exactly that long and more than a second is rejected
  again unless its wait was a whole number of seconds (`RetryAdmittedIff`).
- The key-prefix and tag filters use LIKE, which on the default SQLite database
  (`src/rescs/config.py:38`; nothing sets `case_sensitive_like`) folds ASCII case, so there prefix "A"
  selects key "a" and tag "A" selects lists with "a", which the in-memory repository does not: the two
  agree exactly on prefixes and tags without letters (`PrefixExactIff`, `TagExactIff`, `LowerFold`; run:
  `SqliteSelectsOtherCase`).
- On every SQL backend the tag query `, ` selects every list of two or more tags, and one like
  `a", "b` the lists with those neighbours (`TagFilterSelects`, `CaseSensitiveExactIff`).
- `normalize_tags` keeps a tag that is empty after stripping, once, although its comment says such tags
  are dropped (`src/rescs/domain.py:28-30`); validation then refuses the whole list (`BlankTagKept`,
  `BlankTagRefuses`).
- `docs/uploads.md:22` calls the cross-process status update not implemented; the code has a conditional
  update. `SingleWinner` is about the in-memory repository, one process and one shared session object,
  and rests on that update alone, not on the lock. It says nothing across processes: in the SQL
  repository a chunk put merges the whole row it read (`src/rescs/repositories/sqlalchemy_.py:576-583`),
  which can write "active" back after another process has moved the status.

## Model

| member | source | states |
|---|---|---|
| UploadProtocol.SingleWinner | src/rescs/services/uploads.py:250-405 | over every interleaving at most one finalize of a session ever succeeds and at most one of its rows exists at any time; while the status reads "active" there is neither a row nor a call past the compare-and-set |
| UploadProtocol.StepKeepsAlone | src/rescs/repositories/memory.py:485-495 | the inductive invariant: every atomic step keeps at most one call past the compare-and-set, and rows only for that call |
| UploadProtocol.ClosedForGood | src/rescs/services/uploads.py:392-405 | a finalize that has succeeded is not undone by any later step |
| UploadProtocol.PublishesD | src/rescs/services/uploads.py:188-208 | if accepted chunks are slices of D and every offset on the walk is sent one length, every published file is D, and its row has the size and digest of D, under any interleaving, order, overlap or repetition |
| UploadProtocol.RunFidelity | src/rescs/services/uploads.py:282-348 | the invariant behind it, for slices of D and, by length alone, for any bytes: layouts tile total_size by the walk, buffers are prefixes of what the layout joins to, and stored blobs and row sizes are those of the whole |
| UploadProtocol.ChecksumPublishesD | src/rescs/services/uploads.py:319-332 | whatever the puts carried, a published blob has the digest its row states, and it is D when the session declared D's digest and the digest has no collision with D |
| UploadProtocol.RetryIffReopened | src/rescs/services/uploads.py:266-391 | a winning finalize that raises leaves the session active exactly when it went through a roll-back that writes "active"; otherwise the session is dead |
| UploadProtocol.DeadForGood | src/rescs/services/uploads.py:252-256 | a dead session never gets another call past the compare-and-set |
| UploadRaces.MissingChunkKills | src/rescs/services/uploads.py:282-297 | a reachable run, one finalize with a chunk missing, that ends with the session dead |
| UploadRaces.UncheckedFidelityIff | src/rescs/services/uploads.py:186-208 | without a checksum, every run whose puts carry slices of D publishes nothing but D, size included, if and only if no multiple of chunk_size accepts both chunk_size and the whole remainder as a length |
| UploadRaces.RowSizesAgreeIff | src/rescs/services/uploads.py:333-348 | without a checksum, the size in every published row is that of its blob on every run, whatever bytes the puts carry, if and only if the same condition holds |
| UploadRaces.Misassembles | src/rescs/services/uploads.py:200-208 | for every other session, a run of right chunks that publishes a file that is not D under a row with another size |
| UploadRaces.LaysOut | src/rescs/services/uploads.py:283-293 | undisturbed, the layout actions of the protocol compute the layout function |
| UploadRaces.Streams | src/rescs/services/uploads.py:303-308 | undisturbed, the streaming actions read the chunks of the layout in order |
| UploadLayout.MeterIsWalk | src/rescs/services/uploads.py:225-241 | received_bytes is the length of the contiguous walk from 0, at most total_size, and equals it exactly when the layout check passes |
| UploadMeter.NeverAheadIff | src/rescs/services/uploads.py:208-241 | on every run of racing puts received_bytes is at most what finalize would assemble, if and only if no offset on the walk accepts two lengths; the same condition for the runs at rest alone |
| UploadMeter.ExactAtRestIff | src/rescs/services/uploads.py:208-241 | whenever no put is in flight received_bytes equals the walk, on every run of racing puts, if and only if the upload has at most one byte |
| UploadMeter.PutAloneMeters | src/rescs/services/uploads.py:208-213 | from any state, a put that runs alone leaves received_bytes exact, however stale it was |
| UploadMeter.StaleAtRest | src/rescs/services/uploads.py:208-213 | for every upload of two bytes or more, a run at rest whose meter reads 0 while the walk has bytes |
| UploadMeter.RunsAhead | src/rescs/services/uploads.py:200-213 | for every session with two lengths at an offset, a run at rest whose meter reads total_size while finalize would find less |
| UploadLayout.LayoutIffComplete | src/rescs/services/uploads.py:282-297 | the layout loop succeeds exactly when the walk reaches total_size, and what it streams is the walk's bytes |
| UploadLayout.LayoutIsWalk | src/rescs/services/uploads.py:282-308 | an accepted layout streams exactly total_size bytes, those of the walk |
| UploadLayout.PutExtends | src/rescs/services/uploads.py:208-211 | a chunk at a free offset only extends the assembled prefix |
| UploadLayout.Fidelity | src/rescs/services/uploads.py:282-312 | chunks that are slices of D, in any order and overlap, assemble to D |
| UploadLayout.AlignedUploadFinalizes | src/rescs/services/uploads.py:186-195 | once every multiple of chunk_size has a chunk the walk reaches exactly total_size, whatever else is stored |
| UploadLayout.SweptIff | src/rescs/services/uploads.py:440-457 | a chunk within reach is deleted exactly when it does not start inside a deleted one |
| UploadLayout.SweepCharacterised | src/rescs/services/uploads.py:432-457 | every survivor of a sweep starts inside a deleted chunk, and the sweep deletes everything if and only if no chunk starts inside another |
| UploadSteps.FinalizeIff | src/rescs/services/uploads.py:250-405 | alone, finalize succeeds exactly when the session is active, unexpired and complete, governance agrees and the checksum does not refuse (FinalizeChecksumIff says when that is); a failure stores nothing and leaves the session active only when the checksum alone refused |
| UploadOutcomes.FinalizeChecksumIff | src/rescs/services/uploads.py:319-332 | an open, complete session that governance accepts is published if and only if it declares no checksum, an empty one, or one that equals the digest of the assembled bytes character by character but for ASCII case; else the call is refused as invalid and nothing changes |
| UploadOutcomes.StoredMoves | src/rescs/services/uploads.py:319-332 | under every interleaving, the same comparison moves a stored blob on to the insert, or to its roll-back |
| UploadOutcomes.FinalizePublishes | src/rescs/services/uploads.py:333-350 | a successful finalize stores the assembled bytes and one row that has, column by column, the session's file name, type, owner, metadata, tags and size; the session is gone |
| UploadRuns.IncompleteFinalize | src/rescs/services/uploads.py:252-297 | begin, then finalize before any chunk: the status is left "finalizing" |
| UploadRuns.NeverRetried | src/rescs/services/uploads.py:252-297 | whatever is called after that, chunks of the whole upload included, the status stays "finalizing" and every finalize fails |
| UploadSteps.FinalizePublishesD | src/rescs/services/uploads.py:282-348 | alone, a successful finalize of slices of D publishes D under a row with D's size and digest |
| UploadSteps.FinalizeKeeps | src/rescs/services/uploads.py:392-405 | finalize keeps file rows and blobs in bijection and every remaining session's meter exact |
| UploadSteps.PutKeeps | src/rescs/services/uploads.py:182-215 | a chunk put keeps every session's meter exact, lowers none and changes no assembled byte, of this session or another |
| UploadOutcomes.PutAnswers | src/rescs/services/uploads.py:182-215 | a put answers Ok only if its bytes are what is stored at its offset afterwards; for an open session and a fitting chunk, exactly when the offset was free or held these bytes; other bytes there are a conflict, and no refusal stores anything |
| UploadOutcomes.PutTwice | src/rescs/services/uploads.py:200-205 | the same put twice answers Ok twice, and the second changes nothing |
| UploadSteps.CancelKeeps | src/rescs/services/uploads.py:418-430 | a cancel touches no file and no other session |
| UploadSteps.CleanedLeaves | src/rescs/services/uploads.py:432-457 | after clean-up a session keeps a chunk exactly when it starts inside a deleted one; none remains if and only if no chunk starts inside another |
| UploadRuns.CancelLeavesChunk | src/rescs/services/uploads.py:418-457 | begin, put at 0, put at 1 inside it, cancel: the session is gone and the chunk at 1 remains |
| UploadSteps.SweepAllRemoves | src/rescs/services/uploads.py:496-508 | sweeping sessions removes them and chunks of theirs, and nothing else |
| UploadSteps.CleanupSessions | src/rescs/repositories/memory.py:503-510 | sweeping the listed sessions removes up to `limit` that are active and past their time, the earliest first, all of them if there are fewer |
| Uploads.CountReceived | src/rescs/services/uploads.py:225-241 | the metering loop computes the received count of the walk |
| Uploads.BuildLayout | src/rescs/services/uploads.py:282-297 | the layout loop computes the layout function, its refusals included |
| Uploads.StreamToFile | src/rescs/services/uploads.py:301-319 | re-cut, digested and joined, the chunks of the layout become one blob with the digest of their concatenation |
| Uploads.AdvanceProbe | src/rescs/services/uploads.py:459-494 | the probe returns the least stored offset of this session past the given one, or none |
| Uploads.CleanupChunks | src/rescs/services/uploads.py:432-457 | the probing loop terminates, is never stopped by its empty-probe counter, and removes exactly the swept chunks of this session |
| Uploads.UploadService.Create | src/rescs/services/uploads.py:120-168 | creates the session of SessionFields, or refuses with its error |
| UploadOutcomes.SessionFields | src/rescs/services/uploads.py:120-168 | a session is refused for sizes out of bounds or tags not accepted, in that order, and has else every field the request gave, checksum included, open for a day |
| Uploads.UploadService.Get | src/rescs/services/uploads.py:170-180 | returns open sessions only, and marks an active one past its time as expired |
| UploadOutcomes.LapsedMarks | src/rescs/services/uploads.py:170-180 | reading a session marks it expired exactly when it is active and past its time, and changes nothing else |
| Uploads.UploadService.PutChunk | src/rescs/services/uploads.py:182-215 | performs the put step; PutAnswers and PutTwice say what that is by offset and bytes |
| Uploads.UploadService.Finalize | src/rescs/services/uploads.py:243-405 | performs the finalize step on sessions, rows and blobs, clean-up included; FinalizeChecksumIff and FinalizePublishes say what that is by digest and by column |
| Uploads.UploadService.Cancel | src/rescs/services/uploads.py:418-430 | sweeps and removes the session |
| Uploads.UploadService.CleanupExpired | src/rescs/services/uploads.py:496-508 | removes up to `limit` sessions that are active and past their time, the earliest first, all of them if there are fewer, with chunks of theirs and no other blob; every other session stays as it is |
| Uploads.UploadSessions.CompareAndSetStatus | src/rescs/repositories/memory.py:485-495 | moves the status exactly when it is the expected one |
| UploadRuns.MetersAndFilesHold | src/rescs/services/uploads.py:199-241 | after every run of session and file calls, one call at a time, file rows and blobs are in bijection with matching size and digest, and each meter is the length of the prefix finalize would assemble, full exactly when the layout passes (racing puts: UploadMeter) |
| UploadRuns.MeterNeverFalls | src/rescs/services/uploads.py:208-213 | one call at a time, while a session exists no call of any service lowers its meter or changes its assembled prefix (racing puts: UploadMeter) |
| ObjectStore.MemoryObjectStore.PutStream | src/rescs/storage/memory.py:35-36 | the stored blob is the concatenation of the pieces |
| ObjectStore.MemoryObjectStore.GetStream | src/rescs/storage/memory.py:38-48 | the pieces concatenate to the blob, all full but the last, none empty |
| ChunkKeys.PrefixSelectsSession | src/rescs/services/uploads.py:459-494 | the listing prefix finds exactly one session's chunk keys, and the offset parses back from the key |
| ChunkKeys.RenderInjective | src/rescs/services/uploads.py:39-40 | distinct keys have distinct strings, so no chunk overwrites another chunk or a file |
| MemoryStore.InMemoryStore.Create | src/rescs/repositories/memory.py:35-56 | inserts into the three maps, or refuses and changes nothing |
| MemoryStore.InMemoryStore.Update | src/rescs/repositories/memory.py:58-76 | writes row and slot, releases the row's other slots, and only then checks the idempotency key |
| MemoryStore.InMemoryStore.Delete | src/rescs/repositories/memory.py:78-89 | removes the row and every index entry that points to it |
| MemoryStore.UpdateKeepsIdemIff | src/rescs/repositories/memory.py:58-76 | an update succeeds exactly when its key is not another row's, and leaves the key index in agreement with a scan exactly when, besides, the row gives up no key it held |
| MemoryStore.DeleteKeepsIdem | src/rescs/repositories/memory.py:78-89 | a delete keeps the key index in agreement and frees the row's key |
| MemoryStore.AtMostOneHolder | src/rescs/repositories/memory.py:46-55 | at most one stored row, live or not, holds an idempotency key |
| RecordService.RecordService.Create | src/rescs/services/records.py:158-213 | performs the create step: replay, reclaim, quota, insert, post-check |
| RecordOutcomes.ValidatedIff | src/rescs/services/records.py:158-163 | content is valid exactly if its tags are accepted, its metadata within the limit and its expiry ahead, and refused for the first of these that fails |
| RecordOutcomes.CreateStores | src/rescs/services/records.py:158-213 | a valid create replays the live row that holds its key, is refused, or stores one new row with every column the payload gave, found by its pair; of the other rows it removes at most expired ones that held the pair or the key |
| RecordOutcomes.CreateAnswers | src/rescs/services/records.py:164-213 | a valid create conflicts with a tombstone's key, replays a live row's, and is else refused by the quota exactly if the owner's live rows fill it, then by the pair exactly if a live row has it |
| RecordOutcomes.OccupantReclaimed | src/rescs/services/records.py:139-143 | an expired row under the pair does not survive a create that succeeds |
| RecordService.RecordService.Put | src/rescs/services/records.py:215-257 | performs the put step: precondition, replacement or create; PutStores and PutCreates say what that is by column |
| RecordOutcomes.PutStores | src/rescs/services/records.py:215-257 | a put over a live row is refused by a wrong If-Match or invalid content and changes nothing; else it stores, and returns unless the key index objects, the payload's value, metadata, owner, tags, pair and expiry under the old id and creation time, one version on, and reading the pair gives that row |
| RecordOutcomes.PutCreates | src/rescs/services/records.py:225-233 | a put that finds no live row is a create, unless it names one by If-Match |
| RecordService.RecordService.Update | src/rescs/services/records.py:268-325 | performs the update step, with its order of refusals |
| RecordOutcomes.UpdateStores | src/rescs/services/records.py:268-325 | an update stores what the patch gives and keeps what it does not, column by column; no live row, a wrong If-Match, an empty patch and invalid content refuse it, in that order |
| RecordService.RecordService.Delete | src/rescs/services/records.py:327-361 | performs the delete step: a tombstone one version on |
| RecordOutcomes.DeleteStores | src/rescs/services/records.py:327-361 | a delete changes version and times only, and no read by key finds the row; refused without a live row or by a wrong If-Match |
| RecordService.RecordService.Restore | src/rescs/services/records.py:363-411 | performs the restore step, refused while another live row has the pair |
| RecordOutcomes.RestoreStores | src/rescs/services/records.py:363-411 | a restore changes version and times only, and reading the pair gives the row unless it has expired; with the refusals in order |
| RecordService.RecordService.Purge | src/rescs/services/records.py:413-429 | performs the purge step |
| RecordOutcomes.PurgeRemoves | src/rescs/services/records.py:413-429 | a purge removes the row, live or not, and exactly the index entries that point to it; a wrong If-Match refuses it |
| RecordService.RecordService.CleanupExpired | src/rescs/services/records.py:607-624 | removes up to `limit` rows whose expires_at is at or before now, the earliest first (by id where equal), all of them if there are fewer; every other row stays as it is |
| Pages.FirstOfListing | src/rescs/repositories/memory.py:231-239 | of the matching rows a limited listing has the first by time and id, all of them if there are fewer |
| Pages.CleanupRunsOut | src/rescs/repositories/memory.py:231-239 | removing the listed rows removes up to `limit` whose expires_at is at or before now, the earliest first, all of them if there are fewer, and no other row |
| RecordRuns.RunIndex | src/rescs/repositories/memory.py:140-165 | after every run in which no update's key move lands on a live row, at any later clock reading, the natural-key index agrees with a scan |
| RecordRuns.IndexIsScan | src/rescs/repositories/memory.py:155-159 | where it agrees, the lookup returns exactly the live row a scan finds, and at most one live row has a pair |
| RecordRuns.UpdateClashIff | src/rescs/repositories/memory.py:63-67 | a successful update breaks the index if and only if its key move lands on another live row |
| RecordRaces.StepKeepsIff | src/rescs/repositories/memory.py:140-144 | with the reclaim, lookup, drop and insert of a create as separate actions, a step keeps the natural-key index in agreement with a scan if and only if it neither drops a slot a live row took since the lookup nor rewrites a row onto a live row's pair |
| RecordRaces.RaceIndex | src/rescs/repositories/memory.py:140-159 | so under every interleaving without such a step the index is the scan and at most one live row has a pair |
| RecordRaces.StaleDropHappens | src/rescs/repositories/memory.py:140-144 | under any limit: a record is created and deleted, two creates of its pair by two owners race over the tombstone and succeed, and at rest two live rows have the pair |
| RecordRaces.StepKeepsIdemIff | src/rescs/repositories/memory.py:58-89 | under the same actions a step keeps the key index in agreement with a scan if and only if it does not rewrite a row with another row's key or without the key it holds |
| RecordRaces.RaceIdem | src/rescs/repositories/memory.py:46-89 | so under every interleaving without such a step at most one stored row holds an idempotency key |
| RecordRuns.ConflictIffLive | src/rescs/services/records.py:177-195 | a create with an unused key conflicts if and only if a live row has the pair; tombstones and expired rows never block it |
| RecordRuns.RunIdem | src/rescs/repositories/memory.py:46-89 | after every run whose puts bring no other row's key, the key index is the scan over all rows |
| RecordRuns.FailedPutIff | src/rescs/repositories/memory.py:68-74 | a put to a live row conflicts, and unsettles the key index, exactly when it brings another row's key to a row without one; the row is replaced either way |
| RecordRuns.ReplayReturnsHolder | src/rescs/services/records.py:164-176 | a replayed key returns its live row and changes nothing, a tombstone refuses it, and a purge frees it |
| RecordRuns.PostCheckQuietAlone | src/rescs/services/records.py:196-213 | without races the post-write quota check takes nothing back |
| RecordRuns.RestoreQuotaIff | src/rescs/services/records.py:363-411 | a restore that is not refused keeps the record limit if and only if the record has expired or its owner was below the limit |
| RecordRuns.PutQuotaIff | src/rescs/services/records.py:215-257 | a put that replaces a record keeps its new owner within the limit if and only if it was the owner before or was below the limit |
| RecordRuns.IntendedIsWritten | src/rescs/services/records.py:215-411 | a put, update, delete or restore whose guards pass is one repository update of the next version; refused by a guard it changes nothing |
| RecordRaces.RecordsBounded | src/rescs/services/records.py:178-213 | under any interleaving an owner's live rows past the recount exceed the record limit by at most the rewrites that brought it a live row, which check no quota |
| RecordRaces.QuotaHoldsAtRest | src/rescs/services/records.py:178-213 | where every rewrite that brings the owner a live row finds it below the limit, the limit holds of all the owner's live records whenever no create is in flight, however the creators raced |
| RecordRaces.RewriteAtRestIff | src/rescs/services/records.py:363-411 | from there one more rewrite keeps the limit if and only if it brings the owner no live row or finds it below the limit |
| RecordRaces.RestoreExceedsQuota | src/rescs/services/records.py:363-411 | under any limit: a reachable state at rest and within it, and a restore that succeeds and goes over it |
| RecordRaces.PutExceedsQuota | src/rescs/services/records.py:215-257 | under any limit: the same for a put that changes the owner |
| RecordHistory.RunHistory | src/rescs/services/records.py:237-251 | on every run, failed calls included, a stored row's version is one plus the writes made to its id, those that then report a conflict among them, and its creation time is that of the call that brought the id |
| RecordHistory.CreatedAtNeverChanges | src/rescs/services/records.py:237-251 | on every run a row's creation time is the same whenever the row is there |
| RecordHistory.WrittenAreSuccesses | src/rescs/services/records.py:237-251 | where no put brings another row's key, those writes are the calls that succeeded |
| RecordHistory.RunEtags | src/rescs/services/records.py:303-317 | on every run, failed calls included, every stored row's etag is the content etag of its current value, metadata and tags |
| RecordHistory.ConflictIffTaken | src/rescs/services/records.py:237-325 | a put, update, delete or restore whose guards have passed reports a conflict if and only if the index gives its row's key to another row, and has written the row either way |
| RecordWrites.StepKeepsVersionsIff | src/rescs/services/records.py:268-325 | with read and write as separate actions, a step keeps every version one plus the writes to its row if and only if it is no write to a row that has changed version since it was read |
| RecordWrites.RaceVersions | src/rescs/services/records.py:268-325 | so under every interleaving without such a write versions count the writes |
| RecordWrites.GuardHoldsAtWrite | src/rescs/services/records.py:268-325 | and such a write lands on the very row that was read, so the stored etag still is the one If-Match named |
| RecordWrites.LostUpdate | src/rescs/services/records.py:268-325 | a reachable run: two updates held to one etag both succeed, the second overwrites the first, and after two writes the version is 2 |
| RecordHistory.RestoreIff | src/rescs/services/records.py:363-411 | a tombstone comes back exactly when no other live row has its pair, changed only in version and times |
| RecordHistory.DeleteThenRestore | src/rescs/services/records.py:340-405 | delete then restore gives the same content two versions on |
| RecordClashes.KeyMoveMakesTwo | src/rescs/repositories/memory.py:63-67 | a run after which two live rows share a pair and the index finds the mover |
| RecordClashes.FailedPutHasWritten | src/rescs/repositories/memory.py:62-74 | a run in which a put reports a conflict and has replaced the row |
| RecordClashes.FailedDeleteHasDeleted | src/rescs/repositories/memory.py:62-74 | a run in which a delete reports a conflict and has deleted the row; once the other holder of the key is purged it succeeds |
| Domain.NormalizeTags | src/rescs/domain.py:25-40 | the loop keeps the stripped tags, first occurrences only, in order |
| Domain.StripTrims | src/rescs/domain.py:25-40 | stripping takes blanks off both ends of a tag and leaves none there |
| Domain.DedupeInOrder | src/rescs/domain.py:25-40 | the tags kept stay in the order in which they first occur |
| Domain.AcceptedIff | src/rescs/domain.py:43-57 | accepted are up to 50 tags of 1 to 64 letters, digits, dots, underscores and dashes |
| Domain.LiveWhen | src/rescs/domain.py:94-97 | a row that is not deleted is live exactly before its expiry, and always without one |
| Domain.BlankTagKept | src/rescs/domain.py:25-57 | a normalised list holds an empty tag if and only if some tag is blank, and validation then refuses the whole list |
| Domain.BlankTagRefuses | src/rescs/domain.py:25-57 | one blank beside a good tag turns an accepted list into a refused one |
| Domain.AcceptedAreStored | src/rescs/domain.py:25-57 | a list that is normalised and accepted has valid, distinct tags, at most 50 |
| Domain.NormalizeIdempotent | src/rescs/domain.py:25-40 | normalising a normalised list changes nothing |
| Domain.ContentEtagIdentity | src/rescs/etag.py:16-30 | the etag identifies value, metadata and the multiset of tags: tag order never changes it |
| Domain.StringLeIff | src/rescs/etag.py:16-30 | the order tags are sorted by is the dictionary's |
| FileRepository.FileEtagIdentity | src/rescs/etag.py:33-36 | the file etag identifies digest and size |
| Pages.Page | src/rescs/repositories/memory.py:116-129 | a page is the slice of the one sorted listing of the matching rows, and total is its length |
| Pages.ListingUnique | src/rescs/repositories/memory.py:116-125 | a query has one listing, so pages of separate calls fit together |
| Pages.PagesPartition | src/rescs/repositories/memory.py:125 | the pages at offsets 0, L, 2L, ... concatenate to the listing |
| RecordQueries.List | src/rescs/repositories/memory.py:173-212 | the in-memory list returns that page and total for its filter |
| RecordQueries.MemorySelects | src/rescs/repositories/memory.py:173-212 | which rows a filter selects, by column: bounds include their start and exclude their end, all query tags are present, tombstones and expired rows are left out unless asked for |
| RecordQueries.WindowsSplit | src/rescs/repositories/memory.py:173-212 | adjacent time windows split a listing: every row is in one of them and none in both |
| RecordQueries.WalkVisitsMatches | src/rescs/repositories/memory.py:209-212 | walking the pages visits exactly the matching rows, each once, in update order |
| RecordQueries.BackendsAgree | src/rescs/repositories/sqlalchemy_.py:183-202 | on any backend the SQL filter chain selects the rows the in-memory predicate selects, for a prefix without letters of two cases under its fold and exact query tags; PrefixExactIff and TagExactIff say the others are wrong |
| RecordQueries.SqlSelectsFolded | src/rescs/repositories/sqlalchemy_.py:183-202 | on any backend the SQL filter chain selects, for valid query tags, what the in-memory predicate would select with key, prefix and tags folded |
| RecordQueries.CaseSensitiveAgrees | src/rescs/repositories/sqlalchemy_.py:183-202 | on a backend that compares case: for any prefix and any query tags that are no seams |
| LikePatterns.EscapeIsOnePass | src/rescs/repositories/sqlalchemy_.py:41-45 | the three replacements equal one pass over the characters |
| LikePatterns.PrefixFilterExact | src/rescs/repositories/sqlalchemy_.py:186-189 | where LIKE compares case, the prefix pattern matches exactly the strings with that prefix, wildcards included; the ground for every fold |
| LikePatterns.SearchFilterExact | src/rescs/repositories/sqlalchemy_.py:255-279 | where LIKE compares case, the search pattern matches exactly the strings that contain the query, wildcards included; the ground for `ilike` |
| LikeFolds.PrefixFilterFolds | src/rescs/repositories/sqlalchemy_.py:186-189 | under any case fold, SQLite's among them, the prefix filter is `startswith` on folded prefix and key |
| LikeFolds.PrefixExactIff | src/rescs/repositories/sqlalchemy_.py:186-189 | under any fold, it is `startswith` itself on every stored key if and only if no character of the prefix has another case, or the prefix is longer than a key |
| LikeFolds.SearchIgnoresCase | src/rescs/repositories/sqlalchemy_.py:255-279 | under any one fold that keeps `%`, `_` and the backslash apart, `ilike` with that pattern is containment of the folded query in the folded text |
| LikePatterns.TagFilterSelects | src/rescs/repositories/sqlalchemy_.py:30-38 | where LIKE compares case, for every query: the tag pattern selects exactly the lists the query can be read off across elements; without quotes in it, those that hold it, or have two elements if it is the separator |
| LikeFolds.TagFilterFolds | src/rescs/repositories/sqlalchemy_.py:30-38 | under any fold, the tag filter selects the lists the folded query can be read off once folded; for a valid tag, those that hold it in some case |
| LikeFolds.TagExactIff | src/rescs/repositories/sqlalchemy_.py:30-38 | under any fold and for every query, quotes included: the filter is list membership on every stored list if and only if the query is no seam and, if it is a valid tag, has no letter of two cases; a seam is `, ` or a text with quotes that names valid elements in a row that can be spelled apart, few enough to fit |
| LikeFolds.CaseSensitiveExactIff | src/rescs/repositories/sqlalchemy_.py:30-38 | where LIKE compares case: exact if and only if the query is neither `, ` nor a text with quotes that names valid distinct elements in a row; every valid tag is exact |
| LikeFolds.LowerFold | src/rescs/config.py:38 | the fold of the default backend: exactly the ASCII letters have another case, so exactly the texts without letters are exact prefixes and tags |
| LikeFolds.SqliteSelectsOtherCase | src/rescs/repositories/sqlalchemy_.py:30-38 | under it the prefix "A" selects the key "a", and the tag "A" a list that holds only "a" |
| RecordQueries.TagFiltersAreSubset | src/rescs/repositories/sqlalchemy_.py:192-193 | under any fold the chained tag filters are the in-memory subset test, for exact query tags |
| FileRepository.CheckGovernance | src/rescs/services/files.py:96-124 | the loops over live rows decide size, metadata, count and bytes in the source's order |
| FileOutcomes.LimitsCount | src/rescs/services/files.py:96-124 | the limits count exactly the owner's files that are not deleted and not past their expiry, by size |
| FileOutcomes.GovernanceIff | src/rescs/services/files.py:96-124 | too large exactly if the bytes or the metadata are; else over quota exactly if count or bytes, this file included, would be over their limits |
| FileRepository.Recount | src/rescs/services/files.py:143-158 | the recount says whether the owner is over a limit |
| FileRepository.RecountQuietAlone | src/rescs/services/files.py:143-168 | after a passed pre-check and nothing in between the recount never fires |
| FileService.FileService.Create | src/rescs/services/files.py:172-234 | performs the create step on rows and blobs and keeps them in agreement |
| FileService.FileService.CreateStream | src/rescs/services/files.py:236-326 | streaming any pieces comes to exactly what create does with their concatenation, refusals included |
| FileService.FileService.Bounded | src/rescs/services/files.py:276-288 | the running size stops the stream exactly when the whole content is over the limit |
| FileService.FileService.EnforcePostWriteQuota | src/rescs/services/files.py:143-168 | over quota, row and blob are both deleted and the call refused; otherwise nothing changes |
| FileService.FileService.Download | src/rescs/services/files.py:334-357 | returns the live row with its bytes, or the source's error |
| FileOutcomes.DownloadIff | src/rescs/services/files.py:334-357 | a download gives the row and bytes of a live file exactly if its bytes are stored and have its digest |
| FileService.FileService.DownloadStream | src/rescs/services/files.py:359-399 | read to its end, the stream gives the same bytes in full slices and fails on the same mismatch |
| FileService.FileService.Delete | src/rescs/services/files.py:401-446 | a tombstone one version on; the blob stays |
| FileOutcomes.DeleteStores | src/rescs/services/files.py:401-446 | a delete changes version and times only and keeps every blob; refused without a live file or by a wrong If-Match |
| FileService.FileService.Restore | src/rescs/services/files.py:448-504 | revives a tombstone whose blob is there |
| FileOutcomes.RestoreStores | src/rescs/services/files.py:448-504 | a restore changes version and times only; with the refusals in order, of which a missing blob is none |
| FileService.FileService.Purge | src/rescs/services/files.py:506-542 | removes row and blob |
| FileOutcomes.PurgeRemoves | src/rescs/services/files.py:506-542 | a purge removes exactly the row and its blob, live or not; a wrong If-Match refuses it |
| FileService.FileService.CleanupExpired | src/rescs/services/files.py:594-606 | removes up to `limit` files whose expires_at is at or before now, the earliest first, all of them if there are fewer, each with its blob; every other row and blob stays as it is |
| FileService.CreateOutcome | src/rescs/services/files.py:185-231 | alone, a create that is not answered by replay or refused by governance stores exactly the bytes sent under the row it returns |
| FileOutcomes.CreateStores | src/rescs/services/files.py:172-234 | a valid create replays the live file that holds its key, is refused, or stores exactly these bytes under one new row with every column the payload gave; of the other files it removes at most an expired one that held its key |
| FileService.ReplayReturnsHolder | src/rescs/services/files.py:185-197 | a replayed key returns its live file, and conflicts exactly when a tombstone holds the key |
| FileService.RollBackUndoes | src/rescs/services/files.py:159-168 | deleting the row just inserted restores rows and key index |
| FileService.DeleteThenRestore | src/rescs/services/files.py:401-504 | delete then restore gives the same file two versions on, its blob untouched |
| FileService.RestoreQuotaIff | src/rescs/services/files.py:448-504 | call by call: a restore keeps its owner within the limits if and only if the file has expired or there was room for it |
| FileService.RunSound | src/rescs/services/files.py:172-542 | after every run of calls, successful or refused, rows and blobs are in bijection by id, and a download of a live file returns its stored bytes, with the size and digest of its row |
| FileService.SoundDownload | src/rescs/services/files.py:334-357 | where rows and blobs agree, a download of a live file returns the stored bytes, as many as the row says |
| FileProtocol.FilesBounded | src/rescs/services/files.py:143-168 | under any interleaving of creators, deletes, restores, purges and clock ticks, live rows past the count check exceed the file limit by at most the restores made |
| FileProtocol.BytesBounded | src/rescs/services/uploads.py:363-391 | the same for bytes of rows past both checks |
| FileProtocol.QuotasHoldAtRest | src/rescs/services/files.py:143-168 | where every restore of the owner's files finds room when it is made, both limits hold of all the owner's live rows whenever no call is in flight, however the creators raced |
| FileProtocol.RestoreAtRestIff | src/rescs/services/files.py:448-504 | from there one more restore keeps both limits if and only if the file is no tombstone of the owner, has expired, or finds room |
| FileProtocol.RestoreStepIff | src/rescs/services/files.py:448-504 | in any state within the limits, in flight calls or not, a restore stays within them if and only if it fits |
| FileProtocol.RestoreExceedsQuota | src/rescs/services/files.py:448-504 | under any limit, on files or bytes: a run at rest over the limit: fill it, delete a file, upload another, restore the first |
| FileProtocol.RowsAndBlobsAtRest | src/rescs/services/files.py:172-357 | whenever no call is in flight, rows and blobs of all racing creators are in bijection and each blob has its row's digest; its size is the row's for every create and create_stream, and for a finalize exactly when what it streamed came to total_size |
| RateLimiter.RateLimitMiddleware.Dispatch | src/rescs/rate_limit.py:39-82 | performs the step on the map under the tracking key and limit of the request, and gives its verdict; unlimited requests change nothing (by header and bucket: RequestAdmittedIff) |
| RateLimiter.LimitIs | src/rescs/rate_limit.py:24-53 | which requests are limited, and by which setting: by path prefix and verb |
| RateLimiter.TrackingKeyIff | src/rescs/rate_limit.py:24-54 | two requests share a window if and only if they have the same X-API-Key, or stand-in for none, and the same bucket |
| RateRequests.RequestAdmittedIff | src/rescs/rate_limit.py:39-82 | on every run of `Dispatch`, a limited request whose client is not crowded out is admitted if and only if fewer than its limit of requests with its header and bucket were admitted in the last 60 seconds |
| RateRequests.UnlimitedPasses | src/rescs/rate_limit.py:42-52 | a request without a limit passes and leaves the map as it was |
| RateLimiter.KeyFixesLimit | src/rescs/rate_limit.py:24-54 | requests that share a tracking key share a limit |
| RateLimiter.AdmitsAsFullLog | src/rescs/rate_limit.py:55-77 | a request whose key was never evicted within its window is admitted exactly when the complete log of admissions has fewer than `limit` in the last 60 seconds |
| RateLimiter.LruInvariant | src/rescs/rate_limit.py:56-66 | the map keeps keys by last use, and a dropped key has seen at least MAX_TRACKED_KEYS others since |
| RateLimiter.TrackedIff | src/rescs/rate_limit.py:56-66 | a key is in the map if and only if it was used and has seen fewer than MAX_TRACKED_KEYS others since |
| LruBoundary.EvictedForgets | src/rescs/rate_limit.py:56-77 | a request whose key has seen that many others is admitted, whatever was admitted before |
| RateLimiter.WindowBound | src/rescs/rate_limit.py:55-77 | no set of instants spanning less than 60 seconds holds more than `limit` admissions of such a key |
| LruBoundary.BoundaryIff | src/rescs/rate_limit.py:55-77 | for every m: a client with at most m other keys between its close requests is held to its limit on every trace, if and only if m < MAX_TRACKED_KEYS |
| RateLimiter.HalfOpenIntervalsBounded | src/rescs/rate_limit.py:67-77 | so both kinds of half-open 60-second interval hold at most `limit` |
| RateLimiter.RunBounds | src/rescs/rate_limit.py:63-77 | on every run, evicting or not, deques stay sorted and within their limit and the map within its bound |
| RateLimiter.RetryAfterBounds | src/rescs/rate_limit.py:69-75 | every Retry-After lies in 1..60 |
| RateRetry.RetryAfterIs | src/rescs/rate_limit.py:69-75 | a rejected request that is not crowded out is told the whole seconds until its oldest counted admission leaves the window, or one |
| RateRetry.RetryAdmittedIff | src/rescs/rate_limit.py:67-77 | the client's next request, made exactly then, is admitted if and only if what it had to wait for was no more than a second or a whole number of them: the wait is rounded down |

## Left out

- Routers, middleware wiring, exception handlers, logging, health, the contract endpoint and the backup script: I/O with no state of their own.
- Audit writes, API keys, owner locking and bulk operations' per-item results: they never change the state modelled here.
- SQLAlchemy sessions, ORM and migrations, and the local-disk and S3 stores: the in-memory repository and store are the reference behaviour; of the SQL repository only the filters are modelled. In particular the SQL whole-row merge of a session and its arbitrary `find_occupant` are not.
- TTL resolution beyond "expires_at must be in the future": the maximum TTL and `ttl_seconds` are simple arithmetic on the clock.
- Pagination clamping and `search` over JSON text.
- Malformed chunk keys in a listing: only keys the services write are in the store.
- Storage failures in the sequential services; the upload protocol allows an exception at every action between the compare-and-set and the blob write, and takes roll-back deletes to succeed.
- `updated_at` of an upload session, `deleted_by` of a tombstone, the X-RateLimit headers, and the digest of the rate-limit key, which is taken to be collision-free.
- Uploads.UploadService.Finalize: publishes through the file service's insert-recount-roll-back method, of which the source keeps a second copy; the losers of its compare-and-set are in UploadProtocol.
- UploadProtocol.PublishesD: lets every finalize fail at any point, so it does not say that some finalize succeeds; nothing in the code promises that to racing callers.
- UploadRuns.MetersAndFilesHold: one call at a time; what racing puts do to the meter is in UploadMeter, which has the puts of one open session only.
- UploadRuns.MeterNeverFalls: one call at a time, as above.
- RecordQueries.BackendsAgree: not said of prefixes and query tags that are not exact, where the filter alone is wrong (PrefixExactIff, TagExactIff); the JSON text of a list is taken to use the separator `, `.
- LikePatterns.PrefixFilterExact: for a LIKE that compares case; LikeFolds has the others. The same holds of LikePatterns.SearchFilterExact and LikePatterns.TagFilterSelects.
- LikeFolds.SearchIgnoresCase: one fold, character by character, on both sides; that SQLite folds ASCII only and `str.lower` all of Unicode, changing lengths for a few characters, is not modelled.
- Domain.AcceptedIff: said of lists as they are validated, stripped first; taken alone, the pattern's `$` would also let a newline at the end pass.
- RecordRaces.RaceIndex: a put, update, delete or restore is one rewrite of any content; the reads behind it are interleaved in RecordWrites.
- RecordWrites.RaceVersions: a create is one action; its own interleavings are in RecordRaces.
