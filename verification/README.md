# Verified models of the Snowflake connector for Python

This project models six parts of the Snowflake connector for Python in which several
operations share state or in which arithmetic and encodings have to fit together, and proves
what those parts are relied on for. `dafny verify dfyconfig.toml` checks all of it.

| files | part |
|---|---|
| `Transfer`, `TransferSafety`, `TransferProgress`, `TransferOutcomes`, `TransferChunks` (over `Sums`) | the parallel file transfer: three thread pools, two condition variables, shared counters |
| `CrlSearch`, `CrlTheorems`, `CrlValidator`, `CrlCache` | the certificate path search of the CRL validator, its verdict memo and its two-layer CRL cache |
| `FileCache`, `FileCacheRuns` | the cache of expiring entries that processes share through a file |
| `QueryContext`, `QueryContextRounds`, `QueryContextHeld` | the query context cache and its merge rounds |
| `Encryption`, `EncryptionStreams` | client-side encryption of files in chunks |
| `SqlLiteral`, `CsvUpload`, `Timestamp`, `Backoff` | printers and decoders for bound values, and the backoff generators |

`Options` holds the option type they share.

## The main results

**File transfer.** A step is one critical section or one hand-over from a queue to a worker;
a run is any interleaving. Every reachable state satisfies one invariant (`RunSafe`), from
which no waiting worker is stranded and the chunk counter is exact and bounded
(`NoStrandedWaiter`). A rank decreases with every step, so no run is longer than the initial
rank (`RunsAreFinite`), and every run that cannot continue has completed every file exactly
once (`MaximalRunsComplete`, `CompletedOnce`). This needs every file to come to at least one
chunk. The condition is exact: the main thread returns in every maximal run if and only if
every file has a chunk (`CompletionIffEveryFileHasChunks`), because a file with none passes
the gate and nothing ever calls back for it. Preparation gives every download a chunk, and every
upload but an empty file that is to be sent in chunks under a threshold that is not positive;
`PlannedTransfersComplete` carries the condition over to what preparation is given. The pools are
sized at least one, as their constructor demands. How a file ends is told from the steps of its run
alone (`CountersCountSteps`, `CompletedStatus`): it is uploaded or downloaded if and only if it was
prepared and no chunk of it called back with a failure. Two facts that a reader of the code may not
expect come out of it: a skipped upload runs no finish action, and a download whose postprocessing raises
after all its chunks arrived keeps the status DOWNLOADED.

**Certificate paths.** The search with its visited set, result list and verdict memo, all
updated in place, is proved to compute a recursive search without memo (`Validator.ValidateChain`,
`MemoIsTransparent`), and that search is characterised by paths in the sense of sections 6.1
and 6.3 of RFC 5280: UNREVOKED if and only if a clean path with pairwise distinct issuer names
exists (`UnrevokedIffCleanPath`), REVOKED if and only if every walk of the search, dead ends
included, is blocked by a revoked certificate (`RevokedIffEveryWalkBlocked`). The tempting
converse, that REVOKED follows once every path to an anchor is revoked, is false:
`DeadEndSiblingIsError` gives the chain. These two need the verdict on a certificate not to
depend on which verified issuer is asked. Without that assumption, for any life of the
validator, the verdicts recorded in the memo decide every answer: UNREVOKED if and only if a path is
recorded as unrevoked throughout, REVOKED if and only if every walk meets a recorded revoked
certificate (`VerdictsAreRecorded`).

**Shared cache file.** In every run of any number of processes, an unexpired entry of the file
is still there later, or one with a later expiry is (`NoLostUpdate`, `FileEntriesSurvive`). An
update from another cache that does not ask for newer entries only, which is the default, can
break this. `UnconditionalUpdateCovers` says exactly when, for any process in order: the next save
keeps the file's entries if and only if the process loads a newer file first or the update puts
nothing that expires earlier over an unexpired entry of the file. Under that condition the runs
include it; `UnconditionalUpdateLoses` is an input outside of it. What is set is got back until it
expires, in the same process and through the file in another one (`SetThenGet`,
`SetThenGetElsewhere`).

**Query context cache.** For every input, malformed rounds included, the id map and the sorted
set index each other after every call that does not raise (`QueryContextCache.DeserializeJsonDict`).
For rounds with distinct ids and priorities nothing raises while merging, and the priority index is
exact afterwards if and only if no added element ends up on a kept element's priority
(`RoundExactIffNoClash`); `ClashIffDisplaces` finds the entry of the round that causes it. The
promise that such a round raises nothing is false: `UnmatchedMoveRaises` is an input.
`RoundRaisesIffClashBeyond` gives the exact condition: the call raises if and only if an added and a
kept element share a priority and more than `capacity` elements have a priority number up to theirs.
It returns with an exact cache if and only if nothing clashed (`RoundReturnsExactIffNoClash`), and
when it raises, the sorted set still lists an element the id map has lost (`TrimRaisesBroken`).
What a round leaves is told from timestamps and priorities alone (`RoundHolds`): of a cached and a
sent entry for one id the later one is held (`LaterEntryWins`). That the timestamp held for an id
never goes back is false (`TimestampGoesBack`); it does if and only if an earlier entry is sent
after another one has taken the cached element's place (`TimestampGoesBackIff`).

**Encryption.** Over any block permutation, in the CBC mode of section 6.2 of NIST SP 800-38A
with the padding of section 6.3 of RFC 5652, decrypting what was encrypted returns the input
for every input, every chunk size that is a multiple of the block size and every read size on
the decrypting side (`RoundTrip`). The ciphertext is stated byte by byte (`EncryptStream`,
`CbcEncryptsBlocks`). What is decrypted is stated exactly for every input and every
pair of sizes, so `ReturnsIffWholeChunks` can show the condition on the chunk size to be exact.

**Bound values.** A literal lexer recovers every escaped string (`LiteralRoundTrip`, with the
one case it cannot) and a reader every other value and lists of strings (`ValueReadsBack`,
`ListReadsBack`), the CSV files of a bulk upload read back as the original rows
(`UploadReadsBack`, with the exact condition, which for a reader of the line breaks of section 2 of
RFC 4180 also bars an unquoted carriage return at the end of a row), and the two timestamp
decoders round down and agree (`MicrosecondsFloor`, `DecodersAgree`).

## Model

| member | source | states |
|---|---|---|
| TransferSafety.InitSafe | src/snowflake/connector/file_transfer_agent.py:454-481 | the state before anything is submitted satisfies the invariant |
| TransferSafety.PreparedSafe | src/snowflake/connector/file_transfer_agent.py:489-506 | a preparation that fails, is skipped or succeeds keeps the invariant: a failed one has run its finish action once and ends in ERROR, a skipped one has run none |
| TransferSafety.GateOpenSafe | src/snowflake/connector/file_transfer_agent.py:514-543 | passing the gate submits all chunks of the file and keeps the invariant, including that nobody waits un-notified at an open gate |
| TransferSafety.GateClosedSafe | src/snowflake/connector/file_transfer_agent.py:508-513 | going to wait at a closed gate keeps the invariant |
| TransferSafety.ReleaseSafe | src/snowflake/connector/file_transfer_agent.py:556-558 | the first critical section of the chunk callback keeps the invariant whichever waiter it wakes |
| TransferSafety.CountSafe | src/snowflake/connector/file_transfer_agent.py:560-591 | counting a chunk keeps the invariant; only the last count finishes the upload or queues the postprocessing (which counter it adds to is stated by TransferOutcomes.CountersCountSteps) |
| TransferSafety.FinishPostSafe | src/snowflake/connector/file_transfer_agent.py:593-608 | completing the postprocessing of a download, successful or not, keeps the invariant |
| TransferSafety.TestSafe | src/snowflake/connector/file_transfer_agent.py:686-694 | the main thread waits only while a file is outstanding and returns only when none is |
| TransferSafety.StepSafe | src/snowflake/connector/file_transfer_agent.py:483-694 | every enabled step keeps the whole invariant: file stages, counters, waiters, queue bound |
| TransferSafety.RunSafe | src/snowflake/connector/file_transfer_agent.py:454-696 | the invariant holds after every interleaving |
| TransferSafety.NoStrandedWaiter | src/snowflake/connector/file_transfer_agent.py:508-558 | in every reachable state a worker waiting at an open gate has another notified worker beside it, the main thread never waits with all files completed, chunks_in_queue equals submitted minus called back and stays within 2*max_concurrency plus one file's chunks |
| TransferProgress.StepDescends | src/snowflake/connector/file_transfer_agent.py:483-694 | every step lowers the remaining work, or keeps it and lowers the number of pending wake-ups |
| TransferProgress.RunsAreFinite | src/snowflake/connector/file_transfer_agent.py:454-696 | the length of a run plus the rank left is at most the initial rank |
| TransferProgress.NeverStuck | src/snowflake/connector/file_transfer_agent.py:508-694 | with at least one chunk per file some step is enabled in every invariant state before the main thread returns |
| TransferProgress.MaximalRunsComplete | src/snowflake/connector/file_transfer_agent.py:483-694 | every run that cannot continue ends with num_files_completed equal to num_total_files, an empty queue and every file settled |
| TransferProgress.Continue | src/snowflake/connector/file_transfer_agent.py:454-696 | every run extends to a maximal one |
| TransferProgress.InertIsFinal | src/snowflake/connector/file_transfer_agent.py:483-694 | a file of which no queue and no worker holds anything is left alone by every step of every thread |
| TransferProgress.HungForever | src/snowflake/connector/file_transfer_agent.py:514-591 | once a file without chunks passed the gate, no continuation completes it or lets the main thread return |
| TransferProgress.CompletionIffEveryFileHasChunks | src/snowflake/connector/file_transfer_agent.py:514-694 | the main thread returns in every maximal run if and only if every file comes to at least one chunk |
| TransferProgress.CompletedOnce | src/snowflake/connector/file_transfer_agent.py:483-608 | the completion counter is the number of files done, and a file that is done stays as it is: finish action, counters and status are those of its final form |
| TransferProgress.DoneIsFinal | src/snowflake/connector/file_transfer_agent.py:483-608 | no step touches a completed file |
| TransferOutcomes.CountersCountSteps | src/snowflake/connector/file_transfer_agent.py:545-608 | in every run, successful_transfers is the number of chunk callbacks with success, failed_transfers the number of those with a failure plus one if the postprocessing raised; a preparation and a postprocessing happen at most once, and what is recorded of them is what the run holds |
| TransferOutcomes.CompletedStatus | src/snowflake/connector/storage_client.py:253-267 | a completed file has the status its run calls for: ERROR if preparation failed, skipped if skipped, else uploaded or downloaded if and only if no chunk callback reported a failure; all its chunks called back |
| TransferChunks.UploadChunks | src/snowflake/connector/storage_client.py:240-243 | one chunk, or just as many as cover the file when it is chunked and reaches the threshold; at least one exactly if the file is not empty, its threshold is positive or it is not chunked |
| TransferChunks.DownloadChunks | src/snowflake/connector/storage_client.py:363-370 | one chunk, or just as many as cover the file when it is chunked and above the threshold; always at least one |
| TransferChunks.ChunksPartition | src/snowflake/connector/storage_client.py:376-381 | when the chunks cover the file, every byte lies in exactly one of them and none starts behind the end |
| TransferChunks.PlannedTransfersComplete | src/snowflake/connector/storage_client.py:224-251 | for files prepared this way, the main thread returns in every maximal run if and only if no upload holds an empty chunked file under a threshold that is not positive |
| TransferChunks.ChunkSize | src/snowflake/connector/file_transfer_agent.py:189-208 | raises exactly above the largest object size; otherwise the file fits into the largest number of parts of that size, and the size is at least the smallest part |
| TransferChunks.PartsWithinLimit | src/snowflake/connector/file_transfer_agent.py:189-208 | the file itself stays within the number of parts; padded by encryption it needs too many if and only if it has at least ten thousand default chunks and its size is a multiple of ten thousand |
| TransferChunks.EncryptedPartsExceedLimit | src/snowflake/connector/file_transfer_agent.py:189-208 | a file of exactly the largest number of default chunks needs one part more once encrypted |
| CrlSearch.Issuers | src/snowflake/connector/crl.py:340-352 | the candidates for a name are exactly the CA certificates of the chain within their validity that carry it as subject |
| CrlSearch.TrustedIssuer | src/snowflake/connector/crl.py:423-430 | an answer is a trusted certificate of the right name whose signature verifies; no answer means there is none |
| CrlSearch.FirstError | src/snowflake/connector/crl.py:396-404 | an ERROR result is found whenever there is one |
| CrlTheorems.ExploreMeans | src/snowflake/connector/crl.py:374-394 | trying the issuers finds one with an unrevoked way up, or collects exactly the verdicts of the verified issuers that are not ignored |
| CrlTheorems.IgnoredIffCyclic | src/snowflake/connector/crl.py:353-372 | the search answers None exactly on a cut cycle, and never at the top |
| CrlTheorems.UnrevokedHasCleanWalk | src/snowflake/connector/crl.py:355-394 | an UNREVOKED answer comes with a walk to an anchor on which every judged certificate is unrevoked, whatever the verdicts depend on |
| CrlTheorems.RevokedBlocksWalk | src/snowflake/connector/crl.py:374-412 | after a REVOKED answer every walk of the search holds a revoked certificate |
| CrlTheorems.CleanPathUnrevoked | src/snowflake/connector/crl.py:355-394 | a path with distinct issuer names, on which every verified issuer gives UNREVOKED, makes the search answer UNREVOKED |
| CrlTheorems.AllBlockedRevoked | src/snowflake/connector/crl.py:374-412 | if every walk is blocked by a certificate that every verified issuer gives REVOKED, the answer is REVOKED |
| CrlTheorems.WalkIsSimplePath | src/snowflake/connector/crl.py:355-372 | a walk of the search that ends at an anchor is a path with distinct issuer names |
| CrlTheorems.SimplePathHasWalk | src/snowflake/connector/crl.py:355-372 | a path with distinct issuer names starts with a walk of the search to an anchor |
| CrlTheorems.UnrevokedIffCleanPath | src/snowflake/connector/crl.py:353-430 | with issuer-independent verdicts, UNREVOKED if and only if some signature-verified path with distinct issuer names reaches an anchor with every non-anchor certificate unrevoked |
| CrlTheorems.RevokedIffEveryWalkBlocked | src/snowflake/connector/crl.py:353-430 | with issuer-independent verdicts, REVOKED if and only if every walk, dead ends included, holds a revoked certificate |
| CrlTheorems.RevokedMeansEveryPathRevoked | src/snowflake/connector/crl.py:353-414 | after REVOKED every path to an anchor contains a revoked certificate |
| CrlTheorems.DeadEndSiblingIsError | src/snowflake/connector/crl.py:396-409 | the converse fails: a chain with a path to an anchor, where every such path holds a revoked certificate and the answer is ERROR because of a dead-end sibling issuer |
| CrlValidator.SearchCongruence | src/snowflake/connector/crl.py:364-394 | the search depends only on verdicts about issuers whose signature verified |
| CrlValidator.MemoIsTransparent | src/snowflake/connector/crl.py:485-493 | with issuer-independent verdicts a search over any recorded memo equals the memo-free one |
| CrlValidator.VerdictsAreRecorded | src/snowflake/connector/crl.py:364-414 | whatever the verdicts depend on, UNREVOKED if and only if a path to an anchor is recorded as unrevoked throughout, REVOKED if and only if every walk, dead ends included, meets a certificate recorded as revoked; then so does every path |
| CrlValidator.BuildIndex | src/snowflake/connector/crl.py:340-352 | the subject index holds for every name exactly its candidate issuers, in chain order |
| CrlValidator.Validator.constructor | src/snowflake/connector/crl.py:191-221 | a new validator has an empty memo |
| CrlValidator.Validator.CheckCertificate | src/snowflake/connector/crl.py:495-523 | REVOKED if and only if one distribution point says so, ERROR if and only if all are in error, none as configured, short-lived UNREVOKED |
| CrlValidator.Validator.CheckWithMemo | src/snowflake/connector/crl.py:485-493 | the first verdict on a certificate is recorded and never changed, and only verdicts against a verified issuer are |
| CrlValidator.Validator.ValidateChain | src/snowflake/connector/crl.py:317-414 | the recorded verdicts decide the answer, both ways; with issuer-independent verdicts it is the memo-free search's; an expired start is ERROR |
| CrlValidator.Validator.ValidateCertificateChain | src/snowflake/connector/crl.py:291-315 | disabled accepts; enabled accepts if and only if a path is recorded clean; advisory refuses if and only if every walk is recorded blocked; the same decision by the memo-free search for issuer-independent verdicts |
| CrlValidator.Validator.ValidateAll | src/snowflake/connector/crl.py:291-315 | over any sequence of chains the shared memo only grows, the verdicts recorded at the end decide every answer, both ways, and every verdict equals the memo-free one for issuer-independent verdicts |
| CrlValidator.ChainSearch.Traverse | src/snowflake/connector/crl.py:355-372 | the visited set is restored on every return, the memo only grows, and the result is that of the recursive search for this and every later memo |
| CrlValidator.ChainSearch.TryIssuers | src/snowflake/connector/crl.py:374-412 | the loop over the candidate issuers, with its early exit, gives the recursive search's verdict |
| CrlValidator.ChainSearch.Judge | src/snowflake/connector/crl.py:396-412 | the conclusion drawn from the collected results is the recursive search's, with the verdict on the certificate itself looked up only where the code does |
| CrlCache.CacheManager.Get | src/snowflake/connector/crl_cache.py:448-471 | answers from memory, else from file; the answer is in memory afterwards |
| CrlCache.CacheManager.Put | src/snowflake/connector/crl_cache.py:473-486 | every layer in use holds the entry and is otherwise as before |
| CrlCache.CacheManager.CleanMemory | src/snowflake/connector/crl_cache.py:171-191 | keeps exactly the entries whose next update is not over and that are cached for no longer than the validity time |
| CrlCache.CacheManager.CleanFile | src/snowflake/connector/crl_cache.py:388-420 | keeps exactly the entries younger than the removal delay |
| CrlCache.CacheManager.Check | src/snowflake/connector/crl.py:693-727 | in terms of times alone: a good entry in sight is the answer and nothing is downloaded; otherwise a good download is the answer, and stored in every layer in use, if and only if it is newer than what is in sight, which else stays the answer; no good download, no answer; the answer is never older than what was in sight or downloaded |
| CrlCache.StepAgrees | src/snowflake/connector/crl.py:697-727 | memory and file keep agreeing on every URL both hold |
| CrlCache.StepNoOlder | src/snowflake/connector/crl.py:636-662 | one operation never makes the visible CRL of a URL older |
| CrlCache.RunsNeverGoBack | src/snowflake/connector/crl_cache.py:448-486 | over any run of checks, lookups and clean-ups, while a URL stays in a layer its visible CRL's last update never decreases |
| FileCache.DictFileCache.constructor | src/snowflake/connector/cache.py:383-461 | a new cache starts from the file's unexpired entries and is not dirty |
| FileCache.DictFileCache.ClearExpired | src/snowflake/connector/cache.py:294-308 | exactly the expired entries go, and the dirty flag is set exactly if some did |
| FileCache.DictFileCache.UpdateFrom | src/snowflake/connector/cache.py:212-258 | afterwards holds exactly what is unexpired on either side, the other cache's entry where both hold one, or with newer-only the one that expires later |
| FileCache.DictFileCache.UpdateItems | src/snowflake/connector/cache.py:212-258 | every item is held with one lifetime from now, besides what was unexpired |
| FileCache.DictFileCache.Load | src/snowflake/connector/cache.py:505-529 | afterwards holds exactly what is unexpired in memory or file, the one that expires later, the file's on a tie |
| FileCache.DictFileCache.LoadIfShould | src/snowflake/connector/cache.py:631-662 | loads exactly when the file is newer than what was last loaded |
| FileCache.DictFileCache.GetItem | src/snowflake/connector/cache.py:463-494 | the unexpired value of memory, else of a file newer than the last load, else nothing; then the key is gone |
| FileCache.DictFileCache.SetItem | src/snowflake/connector/cache.py:110-124 | the value is held with one lifetime, and is in a file that was written, unless the file already holds an entry that expires no earlier; without a save nothing else changes |
| FileCache.SetThenGet | src/snowflake/connector/cache.py:81-124 | what was set is got back until it expires, saved or not |
| FileCache.SetThenGetElsewhere | src/snowflake/connector/cache.py:463-529 | another process that has not loaded the file since gets what one has set and saved, unless it holds an unexpired entry itself |
| FileCache.DictFileCache.Save | src/snowflake/connector/cache.py:547-611 | writes exactly if the lock is held and it is forced, dirty or something has expired; then file and memory hold the same, merged with a newer file if asked |
| FileCache.LoadIsLatestUnion | src/snowflake/connector/cache.py:505-529 | a load yields the union of the unexpired entries of memory and file, each with the later expiry, the file's on a tie |
| FileCache.DirtyIffFileLacks | src/snowflake/connector/cache.py:505-529 | after a load the cache is dirty if and only if the file lacked something memory knew |
| FileCacheRuns.SavedOk | src/snowflake/connector/cache.py:547-611 | a save leaves a file that covers the one before, and a process in step with it |
| FileCacheRuns.StepOk | src/snowflake/connector/cache.py:463-662 | any operation of any process, unconditional updates that keep the file's entries included, keeps every process in order and covers the file |
| FileCacheRuns.NoLostUpdate | src/snowflake/connector/cache.py:110-124 | between any two moments of any run, the later file holds every entry of the earlier one that is still unexpired, or one expiring later |
| FileCacheRuns.FileEntriesSurvive | src/snowflake/connector/cache.py:547-585 | the same from no file and no process on; the recorded size is the number of entries in every process and in the file; a clean process holds nothing the file does not |
| FileCacheRuns.UnconditionalUpdateCovers | src/snowflake/connector/cache.py:260-281 | for any process in order: an update that is not restricted to newer entries, then saved at any later time, keeps the file's entries if and only if a newer file is loaded before the save or each unexpired entry of the file it overwrites is the same or expires earlier |
| FileCacheRuns.UnconditionalUpdateLoses | src/snowflake/connector/cache.py:260-281 | a process in step with the file whose unconditional update and save lose an unexpired entry |
| QueryContext.QueryContextCache.AddQce | src/snowflake/connector/_query_context_cache.py:73-80 | new state of the id map, the round's priority map and both parts of the sorted set |
| QueryContext.QueryContextCache.RemoveQce | src/snowflake/connector/_query_context_cache.py:82-85 | succeeds exactly if both maps hold the keys and the sorted set the element, first of its priority; the state after it, raised or not |
| QueryContext.QueryContextCache.InsertQce | src/snowflake/connector/_query_context_cache.py:106-121 | id hit, priority hit or newcomer, when the removal raises, and the state after it, raised or not (which of two entries is held is stated by QueryContextHeld.LaterEntryWins) |
| QueryContext.QueryContextCache.TrimCache | src/snowflake/connector/_query_context_cache.py:123-131 | drops last elements until the capacity is met, or raises; the state after it, raised or not |
| QueryContext.QueryContextCache.MergeEntries | src/snowflake/connector/_query_context_cache.py:197-262 | the merging part of a round, with every type check that raises; the state after it, raised or not |
| QueryContext.ReadMeans | src/snowflake/connector/_query_context_cache.py:227-254 | an entry is refused exactly if a field has the wrong type, and is otherwise taken over field by field |
| QueryContext.QueryContextCache.DeserializeJsonDict | src/snowflake/connector/_query_context_cache.py:186-269 | for every input and every cache, also one an earlier exception left broken: the state after it and whether it raises, the size within capacity, nothing left by no data or a failed merge; from a cache whose id map and sorted set index each other, they do so again after a call that returns and do not after one that raises |
| QueryContext.BisectLeft | src/snowflake/connector/_query_context_cache.py:37-42 | the first position whose priority is not below the one sought |
| QueryContext.TreeAddMeans | src/snowflake/connector/_query_context_cache.py:73-80 | adding puts the element after those of its priority, keeps order and distinct ids, and adds nothing else |
| QueryContext.RemovedTree | src/snowflake/connector/_query_context_cache.py:82-85 | removing a position keeps order and distinct ids and removes nothing else |
| QueryContext.InsertIndexed | src/snowflake/connector/_query_context_cache.py:106-121 | an insertion that does not raise keeps id map and sorted set indexing each other |
| QueryContext.MergeIndexed | src/snowflake/connector/_query_context_cache.py:94-121 | so does a whole merge |
| QueryContext.TrimIndexed | src/snowflake/connector/_query_context_cache.py:123-131 | so does trimming, which meets the capacity |
| QueryContext.TrimRaisesBroken | src/snowflake/connector/_query_context_cache.py:123-131 | an exception that escapes from trimming leaves an element in the sorted set that the id map has lost |
| QueryContextRounds.InsertAdvances | src/snowflake/connector/_query_context_cache.py:106-121 | within a round one insertion raises nothing and replaces the kept element of its id, or else that of its priority |
| QueryContextRounds.RoundAdvances | src/snowflake/connector/_query_context_cache.py:106-121 | the whole round follows the account by kept and added elements |
| QueryContextRounds.RoundExactIffNoClash | src/snowflake/connector/_query_context_cache.py:94-121 | a round of distinct ids and priorities raises nothing, leaves exactly the kept and the added elements, and restores the exact priority index if and only if no two of them share a priority |
| QueryContextRounds.ClashIffDisplaces | src/snowflake/connector/_query_context_cache.py:106-121 | priorities end up shared if and only if, on the simple account of the round, some entry supersedes the cached element of its id and takes the priority of another element kept until then that no entry of the round supersedes |
| QueryContextRounds.MovesTogetherNoClash | src/snowflake/connector/_query_context_cache.py:106-121 | moving an id onto another's priority only together with that other id is enough |
| QueryContextRounds.TrimKeepsSmallest | src/snowflake/connector/_query_context_cache.py:123-131 | trimming an exact cache raises nothing and keeps the first `capacity` elements |
| QueryContextRounds.TrimmedSmallest | src/snowflake/connector/_query_context_cache.py:123-131 | what is kept are precisely the elements with the smallest priority numbers |
| QueryContextRounds.TrimRaisesIffPaired | src/snowflake/connector/_query_context_cache.py:123-131 | trimming a merged cache raises if and only if, at or behind the capacity, an element has the priority of the one before it; otherwise the first `capacity` elements stay |
| QueryContextRounds.WholeRound | src/snowflake/connector/_query_context_cache.py:186-269 | a round without a clash raises nothing, and leaves the exact cache of the smallest priorities among kept and added |
| QueryContextRounds.WellFormedRound | src/snowflake/connector/_query_context_cache.py:186-269 | the same for every round that moves ids only together |
| QueryContextRounds.RoundRaisesIffClashBeyond | src/snowflake/connector/_query_context_cache.py:186-269 | a round of distinct ids and priorities raises if and only if an added and a kept element share a priority and more than `capacity` elements have a priority number up to theirs |
| QueryContextRounds.RoundReturnsExactIffNoClash | src/snowflake/connector/_query_context_cache.py:186-269 | it returns with an exact index if and only if no added element shares a priority with a kept one |
| QueryContextHeld.KeptIffNotEvicted | src/snowflake/connector/_query_context_cache.py:106-121 | a cached element that no entry supersedes stays until an entry for an id that is not or no longer cached takes its priority |
| QueryContextHeld.AddedIffTaken | src/snowflake/connector/_query_context_cache.py:106-121 | an entry ends up in the cache if and only if its id is new, it is later than the cached one or as late with another priority, or the cached one has lost its place |
| QueryContextHeld.RoundHolds | src/snowflake/connector/_query_context_cache.py:186-269 | a round of distinct ids and priorities leaves an exact cache if and only if no two elements to be held share a priority; it then holds these, the smallest priority numbers up to the capacity |
| QueryContextHeld.LaterEntryWins | src/snowflake/connector/_query_context_cache.py:107-114 | for an id cached and sent, the sent entry is held if later, or as late with another priority, and the cached one otherwise if no other entry has its priority, both unless the cache is full of smaller priority numbers |
| QueryContextHeld.NewAndUnsent | src/snowflake/connector/_query_context_cache.py:115-121 | a new id is held, and a cached one that is neither sent nor displaced stays, unless the cache is full of smaller priority numbers |
| QueryContextHeld.TimestampGoesBackIff | src/snowflake/connector/_query_context_cache.py:106-131 | the timestamp held for an id goes back over a round that keeps the id if and only if the round sends an earlier one after another entry has taken the cached element's place |
| QueryContextHeld.TimestampGoesBack | src/snowflake/connector/_query_context_cache.py:106-131 | a round of distinct ids and priorities after which an id is held with an earlier timestamp |
| QueryContextRounds.ReplayChangesNothing | src/snowflake/connector/_query_context_cache.py:150-269 | replaying the cache's own entries, contexts unwrapped, changes nothing |
| QueryContextRounds.ReloadRebuilds | src/snowflake/connector/_query_context_cache.py:150-269 | loading them into an empty cache rebuilds all four structures |
| QueryContextRounds.WrappedReplayIffNoContext | src/snowflake/connector/_query_context_cache.py:150-269 | replaying the wrapped form as serialised keeps the cache if no element has a context and empties it otherwise |
| QueryContextRounds.UnmatchedMoveRaises | src/snowflake/connector/_query_context_cache.py:107-131 | a round of distinct ids and priorities on an exact cache whose unmatched move makes trimming raise |
| Encryption.PadMeans | src/snowflake/connector/compat.py:109-116 | padding fills to the next whole block, never by zero bytes, and every byte of it is its length |
| Encryption.UnpadPad | src/snowflake/connector/compat.py:57-62 | removing the padding returns the value |
| Encryption.CbcInverse | src/snowflake/connector/encryption_util.py:77-79 | CBC decryption inverts CBC encryption over any block permutation |
| Encryption.CbcEncryptConcat | src/snowflake/connector/encryption_util.py:81-92 | encrypting in two parts chains through the last cipher block |
| Encryption.CbcDecryptConcat | src/snowflake/connector/encryption_util.py:173-185 | decrypting in two parts chains through the last block read |
| Encryption.CbcEncryptsBlocks | src/snowflake/connector/encryption_util.py:77-92 | every cipher block is the encryption of the plain block, each byte combined by exclusive or with the cipher block before it, with the initial vector first |
| Encryption.CbcDecryptsBlocks | src/snowflake/connector/encryption_util.py:170-180 | every plain block is the decryption of its cipher block, combined with the cipher block before it, with the initial vector first |
| Encryption.EcbInverse | src/snowflake/connector/encryption_util.py:94-99 | ECB decryption inverts ECB encryption |
| Encryption.EcbEncryptsBlocks | src/snowflake/connector/encryption_util.py:94-99 | every block of the wrapped key is encrypted on its own |
| Encryption.Encryptor.Update | src/snowflake/connector/encryption_util.py:89-92 | puts out the whole blocks of what is pending and new, and keeps the rest |
| Encryption.Decryptor.Update | src/snowflake/connector/encryption_util.py:178-180 | likewise for decryption |
| EncryptionStreams.FramesArePadding | src/snowflake/connector/encryption_util.py:81-91 | what the loop feeds to the encryptor is the padded input, for chunks of whole blocks or a single chunk |
| EncryptionStreams.EncryptLoop | src/snowflake/connector/encryption_util.py:81-89 | every chunk, padded if ragged, is fed once and in order, and the flag says whether a closing block of padding is missing |
| EncryptionStreams.EncryptBody | src/snowflake/connector/encryption_util.py:77-92 | the loop puts out the CBC encryption of exactly those bytes, for every chunk size |
| EncryptionStreams.EncryptStream | src/snowflake/connector/encryption_util.py:47-111 | for whole-block chunks or a single chunk, every block of the ciphertext by its bytes, and its length; every block of the wrapped file key; for any chunk size the encryption of the bytes fed |
| EncryptionStreams.DecryptLoop | src/snowflake/connector/encryption_util.py:173-180 | every piece but the last is written, in order, and where the last one starts |
| EncryptionStreams.DecryptBody | src/snowflake/connector/encryption_util.py:170-185 | raises exactly on input that ends within a block; otherwise what is written is the plaintext, by its bytes, without its padding, for any positive read size |
| EncryptionStreams.WrittenDropsPadding | src/snowflake/connector/encryption_util.py:182-184 | what is written is the plaintext without its padding whenever its last byte is a padding length, and its length for any last byte |
| EncryptionStreams.DecryptStream | src/snowflake/connector/encryption_util.py:149-185 | the same behind the unwrapped file key, with the lengths that raise |
| EncryptionStreams.KeyRoundTrip | src/snowflake/connector/encryption_util.py:94-99 | the wrapped file key comes back for every key |
| EncryptionStreams.RoundTrip | src/snowflake/connector/encryption_util.py:81-185 | exactly what comes out for all sizes; the input for whole-block chunks or a single chunk, every master key and file key and any positive read size; something else for ragged chunks unless the input goes on with the padding byte |
| EncryptionStreams.RaggedChunkMisplacesPadding | src/snowflake/connector/encryption_util.py:86-88 | a ragged chunk that is not the last puts padding before the rest of the input |
| EncryptionStreams.RaggedChunksLose | src/snowflake/connector/encryption_util.py:86-88 | with ragged chunks an input that does not go on with the padding byte of the first chunk does not come back |
| EncryptionStreams.ReturnsIffWholeChunks | src/snowflake/connector/encryption_util.py:81-91 | for any read size, what is written equals the input for all inputs of a length if and only if the chunk size is a multiple of the block size or the length fits one chunk |
| SqlLiteral.EscapeIsSimultaneous | src/snowflake/connector/converter.py:722-732 | the four successive replacements equal one mapping of each character |
| SqlLiteral.LiteralRoundTrip | src/snowflake/connector/converter.py:722-748 | the lexer reads the quoted escaped string back and stops behind it, except exactly when quotes also escape by doubling and a quote follows |
| SqlLiteral.ValueReadsBack | src/snowflake/connector/converter.py:735-748 | null, truth values, numbers, binary values and strings are read back from their literals |
| SqlLiteral.ListReadsBack | src/snowflake/connector/converter.py:735-737 | a list of quoted strings is read back item by item |
| CsvUpload.WriteRows | src/snowflake/connector/connection.py:2055-2062 | one line of text per row |
| CsvUpload.FieldRoundTrip | src/snowflake/connector/converter.py:751-766 | every field parses back, also where a backslash escapes in fields without quotes, NULL and the empty string told apart, but for a carriage return that an unquoted field loses to a two-character line break |
| CsvUpload.QuotedIff | src/snowflake/connector/converter.py:751-766 | a value is quoted exactly if it is empty or holds a quote, a comma, a newline or a backslash |
| CsvUpload.RowRoundTrip | src/snowflake/connector/connection.py:2055-2062 | a row parses back whatever follows it |
| CsvUpload.ReadBackIffReadable | src/snowflake/connector/connection.py:2055-2062 | a file parses back to exactly its rows if and only if no row is without fields and, for a reader of two-character line breaks, none ends in an unquoted carriage return |
| CsvUpload.FillFile | src/snowflake/connector/bind_upload_agent.py:73-78 | takes rows while the buffer size is not reached and no further |
| CsvUpload.Upload | src/snowflake/connector/bind_upload_agent.py:69-89 | the files partition the rows in order, no row is split, every file but the last reaches the buffer size, and each name is its end row |
| CsvUpload.NamesIncrease | src/snowflake/connector/bind_upload_agent.py:69-89 | file names increase, so they are distinct |
| CsvUpload.UploadReadsBack | src/snowflake/connector/bind_upload_agent.py:69-89 | parsing the files in order returns every row as a reader sees it, so the original rows under exactly the same condition; names are distinct |
| CsvUpload.BulkBind | src/snowflake/connector/bind_upload_agent.py:59-89 | rows written and batched read back as the original under exactly that condition, for every reader |
| Timestamp.Decoded | src/snowflake/connector/converter.py:769-794 | the text of a timestamp splits into its sign, seconds and fraction |
| Timestamp.MicrosecondsFloor | src/snowflake/connector/converter.py:769-794 | seconds and microseconds combine to the floor of the value in microseconds, negatives included; the seconds are the whole part with its sign, and the microseconds have the same sign and stay within one second |
| Timestamp.AdjustedNanos | src/snowflake/connector/converter.py:133-143 | the other decoder yields the nanoseconds within the second, complemented for negatives |
| Timestamp.DecodersAgree | src/snowflake/connector/converter.py:133-143 | total microseconds modulo a million equal the nanoseconds divided by a thousand |
| Backoff.MixedBackoff.Next | src/snowflake/connector/backoff_policies.py:55-75 | the capped half, toward zero, of twice the current sleep or the exponential term plus or minus the current sleep; it is the value of the run of choices that the bounds speak of |
| Backoff.MixedBackoffBounds | src/snowflake/connector/backoff_policies.py:55-75 | every value of every run lies in [0, max(base, cap)] if and only if the settings are among four listed kinds, factor at least two among them |
| Backoff.NegativeRun | src/snowflake/connector/backoff_policies.py:55-75 | for all other settings a run that yields a negative sleep |
| Backoff.ExponentialBackoff.Next | src/snowflake/connector/backoff_policies.py:130-141 | after n turns the sleep is the one of the closed form; the jittered draw lies below it, and raises exactly if it is negative |
| Backoff.NeverRaisesIff | src/snowflake/connector/backoff_policies.py:130-141 | no sleep is negative, so no draw raises, if and only if the factor is not negative or the base is zero |
| Backoff.ExponentialClosedForm | src/snowflake/connector/backoff_policies.py:130-141 | after the first yield the sleep is min(cap, base*factor^n) |

## Left out

The source's own state and loops are kept as classes, methods and loops, with these exceptions.

- The transfer callbacks and condition variables are a step relation over values rather than methods on shared objects, because the results are about all interleavings of threads. Submitting all chunks of a file is one step, as it happens under one lock; a waiter wakes only when notified.
- In the transfer, callbacks that raise, the option that reraises work errors in the main thread, progress bars and the per-client local storage overrides of the finish actions are not modelled.
- Of a file's finish action only its count and the status it leaves are modelled, not digests, decryption and file moves.
- Signatures, validity dates, short lifetimes, CRL parsing, matching of the issuing distribution point and each distribution point's outcome are fixed functions during one life of a validator.
- The file layer of the CRL cache is a map that always succeeds in writing; permissions, locks between processes and unreadable files are not modelled.
- The cache file is one cell, a load or save one step, although the code can give the file lock back inside a load; the clock never repeats a reading and all processes use one lifetime. Deleting, clearing and saving without loading are not among the operations of a run, since they lose entries on purpose; an unconditional update is, under the condition above.
- Hit, miss and expiration counters of the cache telemetry are not modelled; its size is.
- The sorted set library is modelled by the list and the set it keeps, with the order in which its operations change them.
- AES is any family of block permutations; base64, the material description and the random generators are parameters or absent, and a key of a length AES does not take is not rejected.
- Text is a sequence of characters: each stands for one byte of UTF-8 where sizes are compared with the buffer size.
- The conversion of Python values to bindings before escaping, and the upload of a file to its stage with its error handling, are not modelled.
- Float rounding in the timestamp decoder, the chunk counts and the backoff generators is replaced by exact arithmetic; the numbers involved stay below the point where they differ for timestamps of up to nine fraction digits.
- Outside the model: time zones, numpy, pandas and Arrow conversions, the linear and constant backoffs, HTTP, TLS, OCSP, authentication, cursors, configuration and the requests of the cloud storage clients.
