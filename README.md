# elrond-go block-processing core in Dafny

This project models parts of an Elrond node and proves properties about them:

- **The block tracker's header store** (`baseBlockTrack`): headers received per shard and per nonce. The model covers:
  - adding and cleaning up headers;
  - the nonce-sorted and per-nonce queries;
  - the round-robin merge of the shards' longest chains;
  - the round and nonce checks of a new header against the rounder and the final header;
  - the stuck-shard test.
- **The smart-contract-result preprocessor** (`smartContractResults`), with its per-block map from result hash to result and shard pair. The model covers:
  - which miniblocks of a block body are processed, saved, checked for missing results and restored;
  - processing a block and a single miniblock under a time budget;
  - bookkeeping for results that are missing and requested;
  - counting restored results.
- **The transaction cache's monitoring counters** (`txcache/monitoring.go`). The model covers:
  - the four additions and removals counters, one per kind, each reset by the end of an eviction or of a selection;
  - the consistency predicate `fine` of `diagnose`.
- **The base of the intermediate-results post-processors** (`basePostProcess`). The model covers:
  - saving the results to storage;
  - marshalling a list of them;
  - filtering the results finished inside the shard;
  - verifying a received miniblock against the one created for its receiver shard.
- **The test doubles of the node package.** The model covers:
  - the hex address converter, a parser and serialiser with a round trip;
  - the multi-shard coordinator, including its communication-channel names.
- **The logger's fixed-width message padding.**

Collaborators the modelled code calls but does not define become parameters of the functions and methods. These are:
- the notarizers;
- the block processor's longest-chain computation;
- the data pools and storers;
- the marshaller and the hasher;
- the smart-contract processor;
- the gas handler;
- the preprocessor base's helpers.

Go's `haveTime()` becomes a function from "how many times it was consulted so far" to a boolean. A Go `range` over a map becomes a loop that picks any remaining key, so no iteration order is assumed. Go's fixed-width integers are written out where they matter: the `int64` conversions and subtractions of the round and nonce checks, and the `uint32` truncation in `diagnose`.

Modules, one per source file, plus shared types:
- `Common` (`common.dfy`): options, results, fixed-width integers, errors, miniblocks.
- `BlockTrack` (`block_track.dfy`)
- `SmartContractResults` (`smart_contract_results.dfy`)
- `TxCacheMonitoring` (`tx_cache_monitoring.dfy`)
- `PostProcess` (`post_process.dfy`)
- `AddressConverter` (`address_converter.dfy`)
- `ShardCoordinatorMock` (`shard_coordinator_mock.dfy`)
- `LogConverters` (`log_converters.dfy`)

## Model

| member | source | states |
|---|---|---|
| BlockTrack.AddedHeader | process/track/baseBlockTrack.go:94-118 | adding a header creates the shard's map if absent. A hash already present at that shard and nonce changes nothing. Otherwise exactly one header info is appended at that shard and nonce, and every other shard and nonce is unchanged |
| BlockTrack.AddedHeaderKeepsWellFiled | process/track/baseBlockTrack.go:94-118 | after an addition, every header still sits under its own shard and nonce, and hashes stay distinct at each shard and nonce |
| BlockTrack.AddedHeaderIdempotent | process/track/baseBlockTrack.go:111-115 | adding the same header and hash twice gives the same store as adding it once |
| BlockTrack.BaseBlockTrack.AddHeader | process/track/baseBlockTrack.go:94-118 | a nil header leaves the store unchanged. Otherwise the store becomes `AddedHeader` of the old store, and well-filedness is preserved |
| BlockTrack.CleanedBehind | process/track/baseBlockTrack.go:160-178 | nonce 0 or an untracked shard changes nothing. Other shards are untouched. In the shard, exactly the nonces at or above the given one survive, with their headers |
| BlockTrack.CleanedBehindKeepsWellFiled | process/track/baseBlockTrack.go:160-178 | cleaning up preserves the store's invariant |
| BlockTrack.BaseBlockTrack.CleanupTrackedHeadersBehindNonce | process/track/baseBlockTrack.go:160-178 | the loop that deletes nonces below the bound leaves the store equal to `CleanedBehind` of the old one |
| BlockTrack.BaseBlockTrack.CleanupHeadersBehindNonce | process/track/baseBlockTrack.go:144-158 | the self shard is cleaned behind the self-notarized nonce, and any other shard behind the cross-notarized nonce |
| BlockTrack.BaseBlockTrack.RestoreTrackedHeadersToGenesis | process/track/baseBlockTrack.go:493-497 | the store is emptied |
| BlockTrack.SortByNonce | process/track/baseBlockTrack.go:416-420 | the sort the query applies is a permutation of its input |
| BlockTrack.SortByNonceSorted | process/track/baseBlockTrack.go:416-420 | the sort's result is in non-decreasing nonce order |
| BlockTrack.InsertByNonceSorted | process/track/baseBlockTrack.go:416-420 | inserting into a nonce-sorted list keeps it sorted |
| BlockTrack.NoDuplicatesPermutation | process/track/baseBlockTrack.go:416-420 | a permutation of a list without repetitions has none |
| BlockTrack.CollectFromNonce | process/track/baseBlockTrack.go:406-414 | the map loop gathers exactly the headers tracked at a nonce not below the bound, with none twice |
| BlockTrack.SortedFromNonce | process/track/baseBlockTrack.go:406-420 | gathering then sorting gives exactly the tracked headers from the nonce on, once each, nonce-sorted and all of the queried shard |
| BlockTrack.SplitInfos | process/track/baseBlockTrack.go:422-430 | the headers and hashes lists are index-aligned with the header infos |
| BlockTrack.BaseBlockTrack.SortHeadersFromNonce | process/track/baseBlockTrack.go:397-431 | an untracked shard gives nothing. Otherwise the result is every tracked header of the shard at a nonce not below the bound, and only those. Each appears once, with its own hash, in non-decreasing nonce order |
| BlockTrack.BaseBlockTrack.GetTrackedHeadersWithNonce | process/track/baseBlockTrack.go:434-457 | the headers and hashes tracked at exactly that shard and nonce, in insertion order; nothing when either is absent |
| BlockTrack.AppendRound | process/track/baseBlockTrack.go:225-234 | one round of the merge appends element i of every chain long enough to have one, in shard order, after the earlier rounds |
| BlockTrack.ComputeLongestShardsChainsFromLastNotarized | process/track/baseBlockTrack.go:198-238 | an error from the last notarized headers is returned with empty results. Otherwise every shard's chain appears in the per-shard map. The merged list has the total length and holds element i of chain s at `Position(s, i)` |
| BlockTrack.PositionsOrdered | process/track/baseBlockTrack.go:224-235 | element i of every chain precedes element i+1 of any chain, and within a round shards appear in increasing order |
| BlockTrack.SumCappedIsTotal | process/track/baseBlockTrack.go:207-235 | running as many rounds as the longest chain covers every element of every chain |
| BlockTrack.RowsLengthIsSumCapped | process/track/baseBlockTrack.go:224-235 | the first r rounds hold, over all chains, min(length, r) elements each |
| BlockTrack.CheckBlockAgainstRounder | process/track/baseBlockTrack.go:281-295 | a nil header is `ErrNilHeaderHandler`. Otherwise, with int64 values, the header is rejected with `ErrHigherRoundInBlock` exactly when its round exceeds the rounder's index plus one |
| BlockTrack.CheckBlockAgainstFinal | process/track/baseBlockTrack.go:298-341 | a nil header and a notarizer error are reported. A lower round, a lower nonce, and a nonce gap larger than the round gap each give their own error, and the header is accepted exactly when none of them holds |
| BlockTrack.IsShardStuck | process/track/baseBlockTrack.go:460-464 | a shard is stuck exactly when the block balancer counts at least the maximum number of pending miniblocks for it |
| BlockTrack.IsShardStuckOwnCount | process/track/baseBlockTrack.go:460-464 | only the queried shard's pending count decides; the other shards' counts play no part |
| SmartContractResults.ProcessedHereBlocks | process/block/preprocess/smartContractResults.go:201-212 | the processing filter keeps no more miniblocks than the body has |
| SmartContractResults.ProcessedHereBlocksMembers | process/block/preprocess/smartContractResults.go:201-212 | a miniblock is processed exactly when it is in the body, holds results, is addressed to this shard and comes from another |
| SmartContractResults.ScrBlocksFromOtherShards | process/block/preprocess/smartContractResults.go:322-332 | the missing-results filter keeps no more miniblocks than the body has |
| SmartContractResults.ScrBlocksFromOtherShardsMembers | process/block/preprocess/smartContractResults.go:322-332 | a miniblock is checked for missing results exactly when it is in the body, holds results and comes from another shard |
| SmartContractResults.ProcessedHereWithinFromOtherShards | process/block/preprocess/smartContractResults.go:201-212 | every miniblock the processing filter keeps is also kept by the missing-results filter |
| SmartContractResults.ProcessedHereBlocksAppend | process/block/preprocess/smartContractResults.go:201-212 | the processing filter distributes over concatenation of bodies |
| SmartContractResults.ScrBlocksFromOtherShardsAppend | process/block/preprocess/smartContractResults.go:322-332 | the missing-results filter distributes over concatenation of bodies |
| SmartContractResults.ProcessHashes | process/block/preprocess/smartContractResults.go:214-242 | the results map keeps its keys. On success every hash of the miniblock is present as a result and is re-tagged with the miniblock's shards, and other hashes are untouched |
| SmartContractResults.ProcessBody | process/block/preprocess/smartContractResults.go:195-245 | on success every relevant miniblock had all its results present; keys are never added or removed |
| SmartContractResults.ProcessBodyOnlyRelevant | process/block/preprocess/smartContractResults.go:201-212 | processing a body equals processing only its relevant miniblocks |
| SmartContractResults.ProcessHashesMissing | process/block/preprocess/smartContractResults.go:219-226 | with unlimited time and a processor that never fails, a miniblock fails with `ErrMissingTransaction` exactly when one of its hashes has no result |
| SmartContractResults.ProcessBodyMissing | process/block/preprocess/smartContractResults.go:195-245 | with unlimited time and a processor that never fails, a body fails with `ErrMissingTransaction` exactly when one of its relevant miniblocks lists a hash without a result, and succeeds otherwise |
| SmartContractResults.ScrPreprocessor.ProcessBlockTransactions | process/block/preprocess/smartContractResults.go:195-245 | the error and the new map are those of `ProcessBody` on the old map |
| SmartContractResults.HashesOutcome | process/block/preprocess/smartContractResults.go:214-242 | what the hash loop reports is its first failing check with the number of time checks made, or no error after one check per hash |
| SmartContractResults.ProcessHashesOutcome | process/block/preprocess/smartContractResults.go:214-242 | the shard re-tagging along the loop changes neither its error nor its time checks: both are `HashesOutcome` on the map it started from |
| SmartContractResults.ProcessHashesStopAt | process/block/preprocess/smartContractResults.go:214-242 | the loop stops at the first hash that finds no time, no result, a result of another type or a processor error; every hash before it passes all four checks |
| SmartContractResults.HashesOutcomeAtStop | process/block/preprocess/smartContractResults.go:214-242 | the loop's error is the stop hash's failure, after one time check per hash up to and including it; with no stop, no error after one check per hash |
| SmartContractResults.ProcessHashesStops | process/block/preprocess/smartContractResults.go:214-242 | the same for `ProcessHashes` itself: it fails exactly at the stop with `ErrTimeIsOut`, `ErrMissingTransaction`, `ErrWrongTypeAssertion` or the processor's error, whichever that hash's check found |
| SmartContractResults.ProcessHashesTimeChecks | process/block/preprocess/smartContractResults.go:215-218 | a non-empty miniblock with no time left fails with `ErrTimeIsOut`; a clean one made one time check per hash and each found time |
| SmartContractResults.ProcessBodyAppend | process/block/preprocess/smartContractResults.go:201-243 | processing a + b processes a, stops at its error, and otherwise continues with b from the map and time checks a left |
| SmartContractResults.ProcessBodyIdle | process/block/preprocess/smartContractResults.go:201-212 | a body without a relevant miniblock holding hashes succeeds and changes nothing |
| SmartContractResults.ProcessBodyOutOfTime | process/block/preprocess/smartContractResults.go:214-218 | with no time left at all, a body fails with `ErrTimeIsOut` exactly when it has a relevant miniblock with hashes, and the map is unchanged |
| SmartContractResults.ProcessBodyTimeOutAtFirstWork | process/block/preprocess/smartContractResults.go:201-218 | when time has run out by the first relevant miniblock with hashes, the body fails with `ErrTimeIsOut` |
| SmartContractResults.ScrPreprocessor.ProcessMiniBlockHashes | process/block/preprocess/smartContractResults.go:214-242 | the inner loop over one miniblock's hashes computes `ProcessHashes` |
| SmartContractResults.SaveBody | process/block/preprocess/smartContractResults.go:248-268 | saving succeeds exactly when every relevant miniblock's results are saved; a failure is one of theirs |
| SmartContractResults.SaveBodyOnlyRelevant | process/block/preprocess/smartContractResults.go:249-259 | saving a body equals saving only its relevant miniblocks |
| SmartContractResults.ScrPreprocessor.SaveTxBlockToStorage | process/block/preprocess/smartContractResults.go:248-268 | the loop returns `SaveBody` |
| SmartContractResults.ScrPreprocessor.CreateBlockStarted | process/block/preprocess/smartContractResults.go:281-288 | the map is emptied and the missing count reset |
| SmartContractResults.ScrPreprocessor.IsDataPrepared | process/block/preprocess/smartContractResults.go:114-130 | with results requested, the wait's outcome is returned and the missing count reset; with none, nothing happens |
| SmartContractResults.ScrPreprocessor.SetMissingSCResultsForShard | process/block/preprocess/smartContractResults.go:313-318 | every hash of the list is marked missing with no result, sent from the shard to the list's receiver. Other entries stay |
| SmartContractResults.LastListing | process/block/preprocess/smartContractResults.go:296-300 | for one sender shard's lists, the index of the last list naming a hash, or -1: that list names it and no later one does |
| SmartContractResults.ScrPreprocessor.SetMissingForShard | process/block/preprocess/smartContractResults.go:297-299 | after one sender shard's lists are marked, a hash has an entry exactly when it had one or a list names it. A named hash carries no result and the shard pair of the last list naming it. Other entries stay |
| SmartContractResults.ScrPreprocessor.RequestShard | process/block/preprocess/smartContractResults.go:304-307 | for one sender shard, the number counted is the number of hashes over its lists. The requests are exactly one per list, in the lists' order: request j goes to that shard for list j's hashes |
| SmartContractResults.ShardMarkedStep | process/block/preprocess/smartContractResults.go:297-299 | marking one more list extends what the earlier lists marked, with the new list overriding them for the hashes it names |
| SmartContractResults.LastListingListed | process/block/preprocess/smartContractResults.go:297-299 | a hash has a last listing exactly when some list of the shard names it |
| SmartContractResults.ScrPreprocessor.MarkAllMissing | process/block/preprocess/smartContractResults.go:296-300 | after the first pass, a hash has an entry exactly when it had one or some shard lists it as missing. A listed hash carries no result and the pair of a shard and list naming it. Other entries and the missing count stay |
| SmartContractResults.ScrPreprocessor.ScrBlocksToCheck | process/block/preprocess/smartContractResults.go:322-332 | the loop returns `ScrBlocksFromOtherShards` |
| SmartContractResults.ScrPreprocessor.RequestMissing | process/block/preprocess/smartContractResults.go:303-308 | the number requested is the total number of missing hashes over all shards. As many requests go out as there are reported lists, and a request is made exactly when some shard reports that list |
| SmartContractResults.ListCountRemove | process/block/preprocess/smartContractResults.go:303-308 | the number of reported lists splits into one shard's share and the rest |
| SmartContractResults.TotalMissingRemove | process/block/preprocess/smartContractResults.go:303-308 | the total of missing hashes splits into one shard's share and the rest |
| SmartContractResults.ScrPreprocessor.RequestBlockTransactions | process/block/preprocess/smartContractResults.go:291-311 | the number returned is the total of missing hashes reported for the result miniblocks from other shards. As many requests go out as there are reported lists, and a request is made exactly when some shard reports that list. A hash has an entry exactly when it had one or is reported missing; a reported hash carries no result and the pair of a shard and list naming it; other entries, and the missing count, are those of the report |
| SmartContractResults.ScrsFrom | process/block/preprocess/smartContractResults.go:404-438 | on success one result per hash, taken from the cache in order; any failure is a timeout, a missing result or a wrong type |
| SmartContractResults.ScrsFromOk | process/block/preprocess/smartContractResults.go:404-438 | fetching succeeds exactly when each step had time and found a result of the right type |
| SmartContractResults.FetchScrs | process/block/preprocess/smartContractResults.go:416-435 | the loop computes `ScrsFrom` |
| SmartContractResults.ScrPreprocessor.GetAllScrsFromMiniBlock | process/block/preprocess/smartContractResults.go:404-438 | a missing pool is `ErrNilUTxDataPool`; otherwise the result of `ScrsFrom` on the miniblock's hashes |
| SmartContractResults.GasFrom | process/block/preprocess/smartContractResults.go:478-496 | the gas loop succeeds exactly when every step had time and the gas handler accepted the result |
| SmartContractResults.RunGas | process/block/preprocess/smartContractResults.go:478-496 | the loop computes `GasFrom` |
| SmartContractResults.ProcessFrom | process/block/preprocess/smartContractResults.go:498-507 | the processing loop succeeds exactly when every step had time and the processor accepted the result |
| SmartContractResults.RunProcessing | process/block/preprocess/smartContractResults.go:498-507 | the loop computes `ProcessFrom` |
| SmartContractResults.MiniBlockErrorNone | process/block/preprocess/smartContractResults.go:452-518 | a miniblock is processed without error exactly when it is of the result type and the pool exists. Time must remain at each of the three passes' steps, and every hash must be in the cache as a result that the gas handler and the processor accept |
| SmartContractResults.ScrPreprocessor.ProcessMiniBlock | process/block/preprocess/smartContractResults.go:452-518 | the error is `MiniBlockError`. On error the map is unchanged. On success every hash is recorded with its result and the miniblock's shards, and other entries stay. The hashes handed to the gas rollback are the intended `GasRollback`; on every outcome but `ErrTimeIsOut` they are also those of the code as written, `GasRollbackAsWritten` |
| SmartContractResults.GasStopAt | process/block/preprocess/smartContractResults.go:478-496 | the gas loop stops at the first step without time or with a gas error, or at the end exactly when it succeeds. Every step before the stop had time and no error, and the stop's cause is the loop's error |
| SmartContractResults.ProcessStopAt | process/block/preprocess/smartContractResults.go:498-507 | the same for the processing loop |
| SmartContractResults.GasCharged | process/block/preprocess/smartContractResults.go:466-496 | the hashes whose gas was counted form a prefix of the miniblock's hashes |
| SmartContractResults.GasRollbackAsWritten | process/block/preprocess/smartContractResults.go:468-473 | the deferred rollback as written happens only for a miniblock that fails |
| SmartContractResults.GasRollbackComplete | process/block/preprocess/smartContractResults.go:468-473 | with the intended rollback, a failing miniblock either had no gas counted or has exactly its counted hashes rolled back, and a successful one has nothing rolled back |
| SmartContractResults.GasRollbackAsWrittenDiffersOnTimeOut | process/block/preprocess/smartContractResults.go:478-501 | the code as written departs from the intended rollback only on `ErrTimeIsOut`, and then it rolls back nothing |
| SmartContractResults.GasRollbackAsWrittenMissesTimeOut | process/block/preprocess/smartContractResults.go:498-501 | a one-result miniblock that runs out of time in the processing loop fails with `ErrTimeIsOut` and keeps its hash's gas counted. The code as written rolls nothing back, while the intended rollback removes that hash |
| SmartContractResults.ScrPreprocessor.RecordScrs | process/block/preprocess/smartContractResults.go:509-515 | the results are recorded under their hashes with the miniblock's shards |
| SmartContractResults.ScrHashCountAppend | process/block/preprocess/smartContractResults.go:153-189 | the restored count is additive over bodies |
| SmartContractResults.ScrHashCountOtherTypes | process/block/preprocess/smartContractResults.go:155-157 | a body without result miniblocks restores nothing |
| SmartContractResults.UnmarshalAll | process/block/preprocess/smartContractResults.go:171-179 | restoring a miniblock's results succeeds exactly when each of them unmarshals; a failure is one of theirs |
| SmartContractResults.ScrPreprocessor.RestoreTxBlockIntoPools | process/block/preprocess/smartContractResults.go:144-192 | a missing miniblock pool is `ErrNilMiniBlockPool` with nothing restored. Otherwise success happens exactly when every result miniblock can be restored, and the count is then the number of their hashes. On a failure at miniblock i, the count is that of the miniblocks before i |
| SmartContractResults.NotInPool | process/block/preprocess/smartContractResults.go:386-398 | the missing hashes are no more than the miniblock's hashes |
| SmartContractResults.NotInPoolMembers | process/block/preprocess/smartContractResults.go:386-398 | a hash is reported missing exactly when the miniblock lists it and the pool does not hold it |
| SmartContractResults.MissingScrs | process/block/preprocess/smartContractResults.go:381-401 | a miniblock of another type has none missing, and a result miniblock has no more missing than it lists |
| SmartContractResults.MissingScrsMembers | process/block/preprocess/smartContractResults.go:381-401 | a hash is missing exactly when the miniblock holds results, lists the hash, and the pool does not hold it |
| SmartContractResults.ScrPreprocessor.ComputeMissingScrsForMiniBlock | process/block/preprocess/smartContractResults.go:381-401 | the loop returns `MissingScrs` |
| SmartContractResults.ScrPreprocessor.RequestTransactionsForMiniBlock | process/block/preprocess/smartContractResults.go:367-378 | a nil miniblock requests nothing. Otherwise the count is the number of missing results, and a request for them goes to the sender shard exactly when there are any |
| SmartContractResults.ScrPreprocessor.GetAllCurrentUsedTxs | process/block/preprocess/smartContractResults.go:531-540 | every recorded hash with its result, and nothing else |
| SmartContractResults.HashCountFront | process/block/preprocess/smartContractResults.go:303-308 | the count of hashes in a list of lists takes the first list then the rest |
| SmartContractResults.MarkedMissingStep | process/block/preprocess/smartContractResults.go:296-300 | marking one more shard's lists keeps the invariant of the first pass over the shards |
| TxCacheMonitoring.Step | storage/txcache/monitoring.go:11-62 | an addition or a removal adds one to its between-selections counter, and to its during-eviction counter exactly when an eviction is in progress. The end of an eviction zeroes the eviction counters, the end of a selection the selection counters. Nothing else changes |
| TxCacheMonitoring.RunCounts | storage/txcache/monitoring.go:11-62 | from zero, each counter equals the number of its events since the last reset of its kind |
| TxCacheMonitoring.CountSince | storage/txcache/monitoring.go:11-62 | the number of counted events since the last reset is at most the number of events |
| TxCacheMonitoring.TxCache.MonitorTxAddition | storage/txcache/monitoring.go:11-17 | the counters become `Step` of an addition, during an eviction exactly when one is in progress |
| TxCacheMonitoring.TxCache.MonitorTxRemoval | storage/txcache/monitoring.go:19-25 | the counters become `Step` of a removal, during an eviction exactly when one is in progress |
| TxCacheMonitoring.TxCache.MonitorEvictionEnd | storage/txcache/monitoring.go:35-43 | reports the eviction counters' old values and zeroes them |
| TxCacheMonitoring.TxCache.MonitorSelectionEnd | storage/txcache/monitoring.go:53-62 | reports the selection counters' old values and zeroes them |
| TxCacheMonitoring.ToUint32 | storage/txcache/monitoring.go:104 | the `uint32` conversion keeps values in range and is otherwise congruent modulo 2^32 |
| TxCacheMonitoring.Fine | storage/txcache/monitoring.go:114-117 | a fine diagnosis has the sender key counts agreeing and the transaction counts agreeing. With a sender count in `uint32` range it is fine exactly when all counts agree |
| TxCacheMonitoring.FineTruncatesSenderCount | storage/txcache/monitoring.go:104 | a sender count of 2^32 against empty structures is still reported fine, because of the truncation |
| PostProcess.Kept | process/block/postprocess/basePostProcess.go:79-85 | every kept hash has an entry holding a result, and no more hashes are kept than listed |
| PostProcess.KeptMembers | process/block/postprocess/basePostProcess.go:79-85 | a hash is kept exactly when it is listed and its entry holds a result |
| PostProcess.MarshalizedData | process/block/postprocess/basePostProcess.go:75-94 | any failure is `ErrMarshalWithoutSuccess`, and on success there is one buffer per kept hash |
| PostProcess.MarshalizedDataValues | process/block/postprocess/basePostProcess.go:86-92 | on success, buffer i is the marshalled result of the i-th kept hash |
| PostProcess.MarshalizedDataOk | process/block/postprocess/basePostProcess.go:86-92 | marshalling succeeds exactly when every kept result marshals |
| PostProcess.MarshalizedDataPrefix | process/block/postprocess/basePostProcess.go:75-94 | if marshalling a list succeeds, marshalling each of its prefixes succeeds |
| PostProcess.BasePostProcessor.CreateMarshalizedData | process/block/postprocess/basePostProcess.go:75-94 | the loop returns `MarshalizedData` on the current map |
| PostProcess.VerifyMiniBlock | process/block/postprocess/basePostProcess.go:115-136 | no created miniblock for the receiver gives `ErrNilMiniBlocks`, and a hashing error, of the created miniblock first and then of the received one, is passed on. Otherwise `ErrMiniBlockHashMismatch` is returned exactly when the hashes differ, and no error exactly when they agree |
| PostProcess.VerifyMiniBlockIdentical | process/block/postprocess/basePostProcess.go:115-136 | with a hasher that tells miniblocks apart, a miniblock verifies exactly when it equals the one created for its receiver |
| PostProcess.BasePostProcessor.CreateBlockStarted | process/block/postprocess/basePostProcess.go:67-72 | the results map is emptied and the created miniblock forgotten |
| PostProcess.BasePostProcessor.SaveCurrentIntermediateTxToStorage | process/block/postprocess/basePostProcess.go:43-64 | success happens exactly when every result is present and marshals. Each is then stored under the hash of its buffer, and every write is of such a buffer. A failed write does not stop the loop |
| PostProcess.BasePostProcessor.GetAllCurrentFinishedTxs | process/block/postprocess/basePostProcess.go:97-113 | exactly the results sent from this shard to itself, with their transactions |
| PostProcess.BasePostProcessor.GetCreatedInShardMiniBlock | process/block/postprocess/basePostProcess.go:139-148 | nothing when no miniblock was created; otherwise a miniblock equal to it |
| AddressConverter.CreateAddressFromPublicKeyBytes | node/mock/addressConverterFake.go:26-36 | never fails. A key that fits is kept whole; a longer key is cut to its last `addressLen` bytes |
| AddressConverter.PrepareAddressBytes | node/mock/addressConverterFake.go:71-73 | the identity, without error |
| AddressConverter.EncodeToString | node/mock/addressConverterFake.go:39-41 | two lowercase hex digits per byte |
| AddressConverter.DecodeHex | node/mock/addressConverterFake.go:60-65 | decoding succeeds exactly on an even-length string of hex digits, giving half as many bytes. Otherwise it reports the first non-digit, or the odd length when every character is a digit |
| AddressConverter.DecodeEncode | node/mock/addressConverterFake.go:39-68 | decoding the encoder's output gives back the bytes |
| AddressConverter.EncodeDecode | node/mock/addressConverterFake.go:39-68 | encoding whatever decodes gives the input string lower-cased |
| AddressConverter.ConvertToHex | node/mock/addressConverterFake.go:39-41 | never fails: the prefix followed by 2·len lowercase hex digits |
| AddressConverter.CreateAddressFromHex | node/mock/addressConverterFake.go:44-68 | after lower-casing and removing a leading prefix, a length other than 2·`addressLen` is `ErrWrongSize`. Success happens exactly when the rest are hex digits, and gives `addressLen` bytes. Other failures name an offending character |
| AddressConverter.ConvertRoundTrip | node/mock/addressConverterFake.go:39-68 | reading back the hex of an address of the configured length gives the address |
| AddressConverter.CreateAddressFromHexIgnoresCase | node/mock/addressConverterFake.go:46-47 | an input and its lower-cased form read the same |
| AddressConverter.CreateAddressFromHexPrefixOptional | node/mock/addressConverterFake.go:49-52 | the prefix is optional: adding it in front of an input without it reads the same |
| ShardCoordinatorMock.Decimal | node/mock/multipleShardsCoordinatorMock.go:55-65 | the `%d` writing of a number: at least one digit, all digits, no leading zero |
| ShardCoordinatorMock.ParseDecimalOfDecimal | node/mock/multipleShardsCoordinatorMock.go:55-65 | the decimal writing reads back as the number |
| ShardCoordinatorMock.DecimalInjective | node/mock/multipleShardsCoordinatorMock.go:55-65 | different numbers have different writings |
| ShardCoordinatorMock.ChannelIdentifier | node/mock/multipleShardsCoordinatorMock.go:55-65 | towards itself a shard's channel is `_` and its number. Otherwise it is `_lo_hi`, where lo < hi are the two shards |
| ShardCoordinatorMock.CommunicationIdentifierSymmetric | node/mock/multipleShardsCoordinatorMock.go:60-64 | a shard a names its channel to b the same way b names its channel to a |
| ShardCoordinatorMock.SplitPair | node/mock/multipleShardsCoordinatorMock.go:60-64 | a `_x_y` name determines its two numbers |
| ShardCoordinatorMock.SingleIsNotPair | node/mock/multipleShardsCoordinatorMock.go:55-65 | no single-shard name equals a two-shard name |
| ShardCoordinatorMock.CommunicationIdentifierInjective | node/mock/multipleShardsCoordinatorMock.go:55-65 | equal channel names mean the same pair of shards, so distinct channels never share a name |
| ShardCoordinatorMock.MultipleShardsCoordinatorMock.constructor | node/mock/multipleShardsCoordinatorMock.go:16-18 | the given shard count, shard 0 and no callback |
| ShardCoordinatorMock.MultipleShardsCoordinatorMock.ComputeId | node/mock/multipleShardsCoordinatorMock.go:26-31 | without a callback, the current shard; with one, its answer |
| ShardCoordinatorMock.MultipleShardsCoordinatorMock.SameShard | node/mock/multipleShardsCoordinatorMock.go:44-46 | always true |
| ShardCoordinatorMock.MultipleShardsCoordinatorMock.SetNoShards | node/mock/multipleShardsCoordinatorMock.go:49-51 | afterwards `NumberOfShards` reports the new count; the current shard and the callback stay |
| ShardCoordinatorMock.MultipleShardsCoordinatorMock.SetSelfId | node/mock/multipleShardsCoordinatorMock.go:39-41 | returns no error and changes nothing |
| ShardCoordinatorMock.MultipleShardsCoordinatorMock.CommunicationIdentifier | node/mock/multipleShardsCoordinatorMock.go:55-65 | the identifier is the single-shard name exactly when the destination is the current shard |
| LogConverters.Spaces | logger/commonConverters.go:22 | n spaces |
| LogConverters.FormatMessage | logger/commonConverters.go:16-23 | the result starts with the message, is max(len, 40) long, and everything after the message is a space |
| LogConverters.FormatMessageIdempotent | logger/commonConverters.go:16-23 | padding a padded message changes nothing |
| LogConverters.TrimRightSpaces | logger/commonConverters.go:16-23 | a prefix of the string that does not end in a space |
| LogConverters.TrimRightSpacesPadded | logger/commonConverters.go:22 | appending spaces does not change what remains after trimming trailing spaces |
| LogConverters.FormatMessageReadsTheSame | logger/commonConverters.go:16-23 | padding adds only blanks: with trailing spaces ignored, the padded message equals the message |

## Left out

- Logging is not modelled. This covers log calls, `displayTrackedHeaders*`, the eviction journal's `display`, `displaySendersHistogram`, the stop-watch timings of the cache and the logger's `displayTime`. They produce no state the modelled code reads.
- Concurrency is not modelled. This covers the mutexes, the channel and wait of `waitForScrHashes`, the detached `go cache.diagnose()` and the received-header callbacks. Each modelled operation runs alone.
- Data pools, storers, the marshaller, the hasher, the smart-contract processor, the gas handler, the notarizers and the block processor become function parameters. Their own behaviour is not part of this model.
- The preprocessor base's shared helpers (`computeExistingAndMissing`, `saveTxsToStorage`, `createMarshalizedData`) are not part of this model. They are parameters, and `CreateMarshalizedData` of the result preprocessor, which only delegates to one of them, is not modelled.
- `RemoveTxBlockFromPools` and `CreateAndProcessMiniBlocks` of the result preprocessor are not modelled. The first only delegates to the base's pool removal, and the second does nothing and returns an empty list.
- SmartContractResults.ProcessedHereBlocks: the filter keeps its input's order, but its contract and the lemma beside it state which elements are kept, not their order.
- SmartContractResults.ScrBlocksFromOtherShards: the filter keeps its input's order, but its contract and the lemma beside it state which elements are kept, not their order.
- SmartContractResults.NotInPool: the filter keeps its input's order, but its contract and the lemma beside it state which elements are kept, not their order.
- PostProcess.Kept: the filter keeps its input's order, but its contract and the lemma beside it state which elements are kept, not their order.
- SmartContractResults.ScrPreprocessor.MarkAllMissing: Go visits the shards of a map in no fixed order, so when two shards list the same hash the model states only that the entry carries the pair of one shard and list naming it.
- SmartContractResults.ScrPreprocessor.ProcessMiniBlock: the gas handler's own state is not modelled. The method returns the hashes it hands to the handler's rollback, and the per-shard gas totals the gas loop accumulates are left to the handler.
- SmartContractResults.ScrPreprocessor.ProcessMiniBlock: the rollback it returns is the evidently intended one. The code as written rolls back nothing on `ErrTimeIsOut`, as the Findings table shows; the method states the as-written rollback for every other outcome.
- SmartContractResults.ProcessBody: its own contract states the success case and the kept keys. Its failures are stated through the miniblock loop (`ProcessHashesStops`) and the lemmas beside it: `ProcessBodyAppend`, `ProcessBodyIdle`, `ProcessBodyOutOfTime`, `ProcessBodyTimeOutAtFirstWork` and `ProcessBodyMissing`.
- SmartContractResults.ScrPreprocessor.RequestMissing: Go visits the shards of a map in no fixed order, so the order of the requests across shards is not stated. Their number, their membership and the count are stated.
- SmartContractResults.ScrPreprocessor.RequestBlockTransactions: the order of the requests across shards is not stated, for the same reason as for `RequestMissing`.
- BlockTrack.ComputeLongestShardsChainsFromLastNotarized: each chain element is a header with its hash (`HeaderInfo`), so the per-shard map holds those pairs where Go's holds headers only. The header and hash lists of each chain are taken to have equal lengths. A hash list shorter than its header list would make the Go code index past its end at process/track/baseBlockTrack.go:230, and that panic is not modelled.
- SmartContractResults.ScrPreprocessor.RestoreTxBlockIntoPools: the writes into the result pool and the miniblock pool are not modelled. The contract covers the errors and the count, not the pools' new contents.
- SmartContractResults.ScrPreprocessor.GetAllScrsFromMiniBlock: the hashes it returns are the miniblock's own hash list, unchanged.
- Miniblock types other than the smart-contract-result type are not told apart, because `data/block` is not part of this model.
- BlockTrack.IsShardStuck: the block balancer's pending count and `process.MaxNumPendingMiniBlocks` are parameters.
- BlockTrack.BaseBlockTrack.SortHeadersFromNonce: the library sort is not stable, so the order among headers of equal nonce is not stated.
- BlockTrack.CheckBlockAgainstRounder: the accept-or-reject iff is stated for rounds below 2^63. The int64 wrap-around beyond that is computed in the body but not characterised.
- BlockTrack.CheckBlockAgainstFinal: the error cases are characterised for rounds and nonces below 2^63. The wrap-around beyond that is computed in the body but not characterised.
- TxCacheMonitoring.Step: the increments are stated below the int64 maximum. The wrap-around at the maximum is computed in the body but not characterised.
- TxCacheMonitoring.Fine: the backing maps' counts, keys, sorted keys and snapshot enter only as numbers. The chunked maps are not part of this model.
- The eviction journal is modelled only as the value a new cache holds. The eviction code that fills it is not part of this model.
- The cache's `monitorEvictionStart`, `monitorSelectionStart` and `onRemoveTxInconsistency` only log or start a timer, so they are not modelled.
- Strings are sequences of one-byte characters. `strings.ToLower` is modelled on the ASCII letters only, and `len` counts characters. Multi-byte UTF-8 text, whose lower-casing may change its byte length, is not modelled.
- AddressConverter.AddressConverterFake: `addressLen` is a natural number. A negative length makes the Go code panic, and that is not modelled.
- The `IsInterfaceNil` methods and the `AddressLen`, `SelfId` and `NumberOfShards` getters are plain field reads, so they carry no contract.

## Findings

| source | as written | input that shows it | evidently intended | confidence | as-written member | corrected member |
|---|---|---|---|---|---|---|
| process/block/preprocess/smartContractResults.go:468-501 | The deferred gas rollback of `ProcessMiniBlock` fires only when the local `err` is non-nil. The two `return process.ErrTimeIsOut` statements do not assign `err`, so a time-out in either loop keeps the gas of the hashes already counted | One smart-contract-result miniblock with one hash that is in the store. The gas handler and the processor accept everything. `haveTime` answers yes twice, then no. The result is `ErrTimeIsOut`, the hash's gas was counted, and nothing is rolled back | Every failure after the gas loop has started rolls back the counted hashes, time-outs included | medium, not executed | SmartContractResults.GasRollbackAsWrittenMissesTimeOut | SmartContractResults.GasRollbackComplete |
