# A hash index for processing-in-memory hardware: model and proofs

The repository keeps key-to-value indexes in the memories of many small processors (DPUs). The host hashes each
key to one of 64 DPUs, sends every DPU its part of a batch, starts them, and for a lookup collects the answers by
their position in the batch. On a DPU a master tasklet and sixteen slaves run the batch: the slaves cut it into
slices and work on a chained hash table in flat memory at the same time, under a pool of bucket mutexes, an
allocator mutex and a mutex for the shared result list, between two barriers.

The project models this from the bottom up.

* `util`, `words`, `mixing`, `entries`, `index_layout`, `linear_alloc`: word arithmetic, bits of words, the host's mixing
  step, keys and entries, how the index space is cut into slots, and the bump allocator.
* `bucket_spec`, `chain_heap`, `index_ops`, `primary_index`, `index_runs`: a bucket as a list of records, flat memory
  with well-formed chains, what the operations promise, the index storage as a class whose methods are the sequential
  operations, and what runs of them amount to: a table from slots and keys to values and metadata.
* `interleavings`, `tasklets`: one launch as a step system. Every read, write, lock, unlock, allocator
  field update and result write is a step of its own, and any tasklet may take the next step. `tasklet_invariant`
  says what holds in every reachable state; `tasklet_frames`, `tasklet_steps`, `tasklet_locks`, `tasklet_commits`,
  `tasklet_effects`, `tasklet_results` and `tasklet_runs` prove it step by step. Between the two writes of an insert
  the head points at an unwritten entry; the invariant therefore speaks of the memory with such half-done inserts
  undone, and says where the real memory differs from it.
* `tasklet_theorems`, `tasklet_progress`, `tasklet_termination`, `tasklet_space`, `batches`: the launch as its caller
  sees it. Unlocked chains are well formed, phases do not overlap, nothing deadlocks, every run is bounded, space is
  used as needed, and the final state is that of a sequential execution of the batch.
* `create_launch`: the launch that creates an index, a step system of its own; `tasklet_layout`: entries never overlap
  and leave the space of later indexes alone, which is what a create after batches needs.
* `routing`, `pull_merge`, `dpu_set`, `history`: the host's hash, package builders, pull and merge, and the end-to-end
  result for batches: in any history of insert, delete and lookup calls that keeps keys distinct, fits its packages into
  the push buffers and starts with space for its inserts, every lookup fills the caller's array with what one
  key-to-value map holds.
* `creation`, `service`: the same from power-on and with creates at any time, by whatever ids: the DPUs serve a list of
  created ids with a map from ids and keys to values.
* `bitmap`, `block_alloc`: the bitmap behind a 32-word write-back window and the block allocator on it.
* `coo`: coordinate lists with ordered addition and one-pass subtraction.
* `index_manager`: the host's assignment of index ids to sets of DPUs.

Some promises of the code hold only under conditions, and the project states them exactly. An insert that finds no
space loses the records behind its bucket's head (`PlacedKeepsAll`, `LostValues`, `InsertCountsIff`). A full push
package reaches 8 bytes into the DPU's result list (`FullPackageReachesResults`). A pull with more than 8189 results
on some DPU leaves old results in place, and the lookup is then not right for every array (`PullDeliversIffAllFit`,
`LookupRightIffListsFit`, `TwoCommandsGoWrong`). The bitmap's space computation looks at the word count where its
comment, the total storage size of the bits, asks for the bit count (`ReservedHoldsBitsIff`,
`ReservedHoldsWindowsIff`), so in some regions the block allocator accepts, its bitmap lies over its blocks
(`BitsClearOfBlocksIff`, `WindowsClearOfBlocksIff`, `BitsUnderBlockZero`, `WindowUnderBlockZero`). The full flag of an
empty bitmap says it is not full (`FullIff`). A create that fails still books a slot (`CreateRun`, `MappedAreEarly`,
`RepeatedCreatesExhaust`). Subtraction undoes addition whenever the second list is sorted; the first need not be
(`UndoesEveryAdditionIffSorted`).

What the proofs rely on: mutual exclusion of a mutex, the meaning of a barrier, exact transfers between host and DPU,
and single steps for the memory accesses listed in `tasklets` and `create_launch`. The map from buckets to mutexes of
the pool is any fixed function of the bucket.

## Model

| member | source | states |
|---|---|---|
| `Util.NextPower` | util/util.c:10-22 | the result is the least power of two not below the argument, or 2^31 when there is none |
| `Util.Align8` | util/util.c:3-8 | the result is a multiple of 8, not below the argument and less than 8 above it |
| `Util.MaskIsMod` | dpu/sto/primary_index_dpu.c:108 | masking with a power of two minus one is reduction modulo that power, for every word |
| `Util.BlocksBalanced` | util/util.h:6-12 | any two blocks differ in size by at most one element |
| `Util.BlocksPartition` | util/util.h:6-12 | every index below n lies in exactly one of the p blocks |
| `Util.BlocksCover` | dpu/ops/op_primary_index_insert.c:33-50 | the slaves' slices, in rank order, are the batch: no element is left out or handled twice |
| `Util.BlockLowInNumbers` | util/util.h:6-12 | a block begins at its rank's share of n, rounded down |
| `Util.BlockProductFits` | util/util.h:6-12 | the macros' products stay below 2^32 for every batch that fits a push buffer |
| `Entries.WramMemcpy` | dpu/sto/primary_index_dpu.c:5-12 | the key replaces the first bytes of the buffer, a terminator 0 the next one, and later bytes stay |
| `Entries.KeyCompare` | dpu/sto/primary_index_dpu.c:23-37 | true exactly when length and bytes agree |
| `Entries.HashBytes` | dpu/sto/primary_index_dpu.c:14-21 | the loop computes the 32-bit fold by 33 from any seed |
| `Entries.HashIsPolynomial` | dpu/sto/primary_index_dpu.c:14-21 | the hash is, modulo 2^32, the seed times 33 to the key's length plus the bytes as digits to base 33 |
| `Entries.LocalBucketInNumbers` | dpu/sto/primary_index_dpu.c:66-68 | a key's bucket is that polynomial with seed 3917, modulo the number of buckets |
| `Entries.MaskedHashIsLocalBucket` | dpu/sto/primary_index_dpu.c:66-68 | hash masked by sizemask is hash modulo the number of buckets |
| `BucketSpec.InsertHits` | dpu/sto/primary_index_dpu.c:106-140 | an insert adds one value to its key and none to any other key |
| `BucketSpec.RemoveHits` | dpu/sto/primary_index_dpu.c:142-185 | a delete takes exactly the looked-up value from its key once, and nothing from other keys |
| `BucketSpec.HitsPresent` | dpu/sto/primary_index_dpu.c:187-214 | a key is found exactly when it has a value |
| `BucketSpec.LookupMeaning` | dpu/sto/primary_index_dpu.c:187-214 | a key with one value is reported with that value, a key with none with 0 |
| `ChainHeap.ReachedOnce` | dpu/sto/primary_index_dpu.c:106-287 | no entry is reached twice, from one head or from two |
| `ChainHeap.OnlyHeadsEmpty` | dpu/sto/primary_index_dpu.c:106-287 | an entry with key_len 0 is a head without successor |
| `ChainHeap.FillHead` | dpu/sto/primary_index_dpu.c:115-122 | writing into an empty head keeps all chains well formed and adds the record |
| `ChainHeap.InsertSecond` | dpu/sto/primary_index_dpu.c:125-135 | the two writes behind the head keep all chains well formed and put the record second |
| `ChainHeap.EmptyHead` | dpu/sto/primary_index_dpu.c:151-161 | emptying a lone head keeps all chains well formed and removes its record |
| `ChainHeap.CopyToHead` | dpu/sto/primary_index_dpu.c:155-160 | copying the second entry over the head removes exactly the first record and keeps the order of the rest |
| `ChainHeap.SpliceOut` | dpu/sto/primary_index_dpu.c:166-176 | rewriting the predecessor's link removes exactly that record and keeps the order of the rest |
| `ChainHeap.CutAfterHead` | dpu/sto/primary_index_dpu.c:126-135 | without a node the bucket is cut down to its head |
| `ChainHeap.Overwrite` | dpu/sto/primary_index_dpu.c:216-226 | overwriting value and metadata changes one record and no chain |
| `ChainHeap.ContentsAreRecs` | dpu/sto/primary_index_dpu.c:195-207 | following links visits exactly the chain, so memory alone determines the records of every bucket |
| `IndexLayout.Pow2FloorIsLargest` | dpu/sto/primary_index_dpu.c:67 | the number of buckets is the largest power of two that fits a slot |
| `IndexLayout.SizeBuckets` | dpu/sto/primary_index_dpu.c:67 | halving the next power above n + 1 gives that largest power, for every size with an entry per slot |
| `IndexLayout.SlotsDisjoint` | dpu/sto/primary_index_dpu.c:67-69 | bucket arrays of different slots never overlap |
| `IndexLayout.SlotsInside` | dpu/sto/primary_index_dpu.c:67-69 | the bucket arrays of all 32 slots lie inside the space |
| `IndexLayout.ActualSpace` | dpu/sto/mram_memory.h:15-17 | the space really set aside meets the layout's demands and gives 8192 buckets an index |
| `IndexLayout.ActualSlots` | dpu/sto/primary_index_dpu.c:69 | in that space slot s begins at 0x2000000 + 0x80000 * s |
| `LinearAlloc.LinearAllocator.constructor` | dpu/sto/linear_mram_alloc.c:3-12 | a fresh allocator owns its whole region |
| `LinearAlloc.LinearAllocator.Reset` | dpu/sto/linear_mram_alloc.c:14-18 | everything is available again |
| `LinearAlloc.LinearAllocator.Alloc` | dpu/sto/linear_mram_alloc.c:20-37 | a fresh range past everything handed out, rounded to 8 bytes, or NULL and no change exactly when it does not fit |
| `LinearAlloc.LinearAllocator.Free` | dpu/sto/linear_mram_alloc.c:39-41 | freeing changes nothing |
| `PrimaryIndex.CountsChanged` | dpu/sto/primary_index_dpu.c:137 | a change of one bucket with the same change of used keeps every index's count right, modulo 2^32 |
| `PrimaryIndex.PlacedKeepsAll` | dpu/sto/primary_index_dpu.c:106-140 | an insert adds its value and nothing else exactly when its bucket was empty or a node was left; otherwise records are lost |
| `PrimaryIndex.LostValues` | dpu/sto/primary_index_dpu.c:125-135 | an insert that finds no node into a bucket of two records loses its own value and that of the other key |
| `PrimaryIndex.PrimaryIndexStore.constructor` | dpu/sto/primary_index_dpu.c:49-57 | an empty space satisfies the storage invariant |
| `PrimaryIndex.PrimaryIndexStore.InitBuckets` | dpu/sto/primary_index_dpu.c:75-90 | one slave clears exactly its block of the bucket array |
| `PrimaryIndex.PrimaryIndexStore.ClearBuckets` | dpu/ops/op_primary_index_create.c:8-15 | all slaves' blocks, cleared one slave after the other, are exactly the bucket array; `CreateLaunch.CreateEnds` has the same for every interleaving |
| `PrimaryIndex.PrimaryIndexStore.Create` | dpu/sto/primary_index_dpu.c:59-90 | a new index gets the next slot, in the real space 0x80000 bytes and 8192 buckets further, with all buckets empty and leaves the others alone, or there were 32 and nothing changes; record counts stay right |
| `PrimaryIndex.PrimaryIndexStore.NewCounts` | dpu/sto/primary_index_dpu.c:70 | a new index starting with used 0 is counted right and disturbs no other count |
| `PrimaryIndex.PrimaryIndexStore.Insert` | dpu/sto/primary_index_dpu.c:106-140 | exactly one bucket changes, as Placed says: the record goes second, or, when a node is needed and none is left, the records behind the head are lost; the storage invariant is kept; used grows by one and stays the number of records unless records are lost |
| `PrimaryIndex.PrimaryIndexStore.Delete` | dpu/sto/primary_index_dpu.c:142-185 | OK exactly when the key is present; then its first record, and only that, is removed, and used stays the number of records; the storage invariant is kept |
| `PrimaryIndex.PrimaryIndexStore.Seek` | dpu/sto/primary_index_dpu.c:164-177 | the walk behind the head ends, at the first match with its predecessor exactly when there is one |
| `PrimaryIndex.PrimaryIndexStore.SpliceKey` | dpu/sto/primary_index_dpu.c:162-178 | the first match behind the head is removed, if there is one |
| `PrimaryIndex.PrimaryIndexStore.Scan` | dpu/sto/primary_index_dpu.c:192-211 | the walk ends at the first entry for the key, or NULL exactly when there is none |
| `PrimaryIndex.PrimaryIndexStore.Lookup` | dpu/sto/primary_index_dpu.c:187-214 | not NULL exactly when the key is present, and then the entry holds the value of its first record |
| `PrimaryIndex.PrimaryIndexStore.GetOrInsert` | dpu/sto/primary_index_dpu.c:228-287 | NULL exactly when the key was absent; then its bucket changes as Placed says: the record is added, or, when a node is needed and none is left, the records behind the head are lost; otherwise the key's entry and no change at all |
| `PrimaryIndex.PrimaryIndexStore.UpdateWithEntryAddr` | dpu/sto/primary_index_dpu.c:216-226 | value and metadata of one record change, nothing else; through a key's entry this is the update of the key; the storage invariant is kept |
| `PrimaryIndex.PrimaryIndexStore.Check` | dpu/sto/primary_index_dpu.c:92-104 | the slot of the first index created under the id, or none |
| `IndexRuns.InsertCountsIff` | dpu/sto/primary_index_dpu.c:137 | used stays the number of records exactly when the bucket was empty or a node was left |
| `IndexRuns.DeleteCounts` | dpu/sto/primary_index_dpu.c:179-182 | used stays the number of records under every delete |
| `IndexRuns.UniqueIsOnce` | dpu/sto/primary_index_dpu.c:66-68 | with every record in its home bucket, keys unique in each bucket are keys unique in each index |
| `IndexRuns.RunKeepsKeysOnce` | dpu/sto/primary_index_dpu.c:216-287 | in every run of get-or-insert, update and delete each key stays once in its index, across all buckets, even when space runs out |
| `IndexRuns.StepRefines` | dpu/sto/primary_index_dpu.c:216-287 | one operation does to the index what it means for a table of keys: put if absent, overwrite, remove; get-or-insert answers NULL exactly when the table lacked the key |
| `IndexRuns.RunRefinesTable` | dpu/sto/primary_index_dpu.c:216-287 | after every run that finds room for its nodes the indexes hold exactly the table its operations amount to, and every answer of get-or-insert in it was NULL exactly when the table lacked the key at that moment |
| `IndexRuns.AddressesStay` | dpu/sto/primary_index_dpu.c:216-287 | in every run of get-or-insert and update with room, an entry address once obtained stays that of its key, so an update through it changes that key |
| `IndexRuns.StoreIsSnap` | dpu/sto/primary_index_dpu.c:49-57 | the storage invariant gives what such runs start from |
| `IndexRuns.NoRecordsIsEmptyTable` | dpu/sto/primary_index_dpu.c:59-90 | indexes without records hold the empty table |
| `Interleavings.LogPermutesBatch` | dpu/ops/op_primary_index_insert.c:33-50 | a log in which every tasklet wrote its slice is a permutation of the batch |
| `TaskletCommits.LinkStep` | dpu/sto/primary_index_dpu.c:128 | the write that links the head to a node not yet written keeps the launch invariant |
| `TaskletEffects.InsertHeadStep` | dpu/sto/primary_index_dpu.c:115-122 | filling an empty head keeps the launch invariant, in which the element's insert now belongs to the log and the records |
| `TaskletEffects.InsertNodeStep` | dpu/sto/primary_index_dpu.c:131-135 | the write of the node keeps the launch invariant, in which the insert is now done, whatever others did since the link |
| `TaskletEffects.DeleteHeadStep` | dpu/sto/primary_index_dpu.c:151-161 | emptying a lone head, or finding no key in it, keeps the launch invariant, in which the delete is now done |
| `TaskletEffects.DeleteCopyStep` | dpu/sto/primary_index_dpu.c:155-160 | copying the successor over the head keeps the launch invariant, in which the delete is now done |
| `TaskletEffects.DeleteSpliceStep` | dpu/sto/primary_index_dpu.c:164-177 | splicing out, or reaching the chain's end, keeps the launch invariant, in which the delete is now done |
| `TaskletResults.FetchStep` | dpu/ops/op_primary_index_lookup.c:51-63 | reading the value after the mutex is given back keeps the launch invariant: the cached answer is the right one |
| `TaskletResults.FlushWriteStep` | dpu/ops/cache.c:5 | writing a block behind the counted results keeps the launch invariant: counted results stay, the block waits |
| `TaskletResults.FlushCountStep` | dpu/ops/cache.c:6 | counting the block keeps the launch invariant: the shared list grows by exactly the tasklet's cached answers |
| `TaskletRuns.StepKeepsInv` | dpu/main.c:26-104 | any micro-step of any tasklet keeps the launch invariant: chains, locks, nodes, log, results, phases |
| `TaskletTheorems.SettledChains` | dpu/sto/primary_index_dpu.c:113-138 | in every reachable state the chain of every bucket not between its two insert writes is well formed |
| `TaskletTheorems.FinalLog` | dpu/ops/op_primary_index_insert.c:31-51 | a finished insert or delete batch has taken effect as a permutation of the batch that keeps each slice's order |
| `TaskletTheorems.FinalResults` | dpu/ops/op_primary_index_lookup.c:38-92 | after a lookup batch result_size is the batch count and the shared list is a permutation of the answers |
| `TaskletTheorems.FinalUnknown` | dpu/ops/op_primary_index_lookup.c:38-92 | a batch on an id that does not exist changes nothing and reports nothing |
| `TaskletProgress.NoDeadlock` | dpu/sto/global_mutex.c:11-39 | in every state of every run either all is done or some tasklet can step |
| `TaskletProgress.UnlockedChains` | dpu/sto/primary_index_dpu.c:113-138 | in every state of every run a bucket whose mutex is free has a well-formed chain holding the effects so far |
| `TaskletProgress.PhasesInRuns` | dpu/main.c:26-104 | no slave works before the master has prepared, and the master merges only after all slices are dealt with |
| `TaskletProgress.LookupAccounting` | dpu/ops/op_primary_index_lookup.c:38-87 | flushed plus cached results of each tasklet answer exactly the elements it has dealt with, in every state, and never more than 16 are cached |
| `TaskletProgress.FlushesAtSixteen` | dpu/ops/op_primary_index_lookup.c:64-76 | a tasklet goes on to flush exactly when it has cached its sixteenth answer |
| `TaskletTermination.StepDecreases` | dpu/main.c:26-104 | every micro-step lowers a measure of the work left, so no tasklet loops forever |
| `TaskletTermination.EveryRunIsBounded` | dpu/main.c:26-104 | every run has at most 30 steps per element, and one per entry in memory for a lookup or a delete, 6 per slave and 5 of the master, under every schedule |
| `TaskletTermination.LaunchFinishes` | dpu/main.c:26-104 | every launch that is ready has a run to its end |
| `TaskletSpace.SpaceUsed` | dpu/sto/linear_mram_alloc.c:20-37 | in every state of every run at most a node of 40 bytes per inserted element has been taken, and none by deletes and lookups |
| `TaskletLayout.StepKeepsSpread` | dpu/sto/linear_mram_alloc.c:20-37 | every micro-step keeps entries and nodes apart and out of the space of later indexes |
| `TaskletLayout.EntriesStayApart` | dpu/sto/linear_mram_alloc.c:20-37 | in every state of every run entries do not overlap, end below the allocator's next address and leave the space of later indexes alone |
| `Batches.Serialised` | dpu/ops/op_primary_index_insert.c:31-51 | every finished launch is a sequential execution of its batch in an order that keeps each slice's order |
| `Batches.InsertBatch` | dpu/ops/op_primary_index_insert.c:31-51 | under every interleaving an insert batch adds exactly its values to the keys of its index and touches no other bucket |
| `Batches.DeleteBatch` | dpu/ops/op_primary_index_delete.c:17-52 | under every interleaving a delete batch removes one value per request, as far as there are any |
| `Batches.DeleteBatchOnMap` | dpu/ops/op_primary_index_delete.c:17-52 | with distinct keys a delete batch removes exactly the keys it names, even those named twice |
| `Batches.LookupBatch` | dpu/ops/op_primary_index_lookup.c:19-92 | under every interleaving a lookup batch answers every element once and changes no values |
| `Batches.AnswerMeaning` | dpu/ops/op_primary_index_lookup.c:51-63 | an answer is one of the values stored under the key, or 0 for a key without values |
| `Routing.HashFunction` | host/dpu_push.c:3-20 | the loop and the mixing step compute the routed DPU's hash, and undoing the mixing gives the key's polynomial in 33 with seed 5381 |
| `Mixing.MixingUndone` | host/dpu_push.c:3-12 | an explicit function undoes the mixing step from either side, so it loses nothing |
| `Routing.RouteInNumbers` | host/dpu_push.c:117-119 | a key goes to the DPU that the one word whose mixing undone is its polynomial gives modulo 64 |
| `Routing.PushCapacityInBytes` | util/push_package.c:24-38 | a push buffer of 2 MB holds 87380 elements of 24 bytes behind its two headers and no more |
| `Routing.FullPackageReachesResults` | util/push_package.h:8-40 | a package ends before the DPU's result list unless it is full; a full one reaches 8 bytes into it |
| `Routing.PackageIsStableSelection` | host/dpu_push.c:117-132 | a package holds exactly the elements routed to its DPU, in batch order |
| `Routing.EveryElementOnce` | host/dpu_push.c:117-132 | every batch position is in the package of exactly one DPU |
| `Routing.PackagesPermuteBatch` | host/dpu_push.c:117-132 | all packages together are a permutation of the batch |
| `Routing.LookupKeyIdsIncrease` | host/dpu_push.c:226-232 | key_ids strictly increase inside a lookup package |
| `Routing.PushInfo.BuildInsert` | host/dpu_push.c:80-133 | every DPU's package is its part of the batch with the values |
| `Routing.PushInfo.BuildDelete` | host/dpu_push.c:135-187 | every DPU's package is its part of the batch |
| `Routing.PushInfo.BuildLookup` | host/dpu_push.c:189-244 | every DPU's package is its part of the batch with batch positions as key_ids |
| `PullMerge.PullDeliversIffAllFit` | host/dpu_pull.c:63-88 | a pull delivers the DPUs' results, whatever the buffers held, exactly when every list fits a buffer's capacity |
| `PullMerge.CapacityInBytes` | host/dpu_pull.c:26 | the capacity is the number of 16-byte results that fit 131072 bytes behind 32 bytes of metadata and a header of 16 |
| `PullMerge.PullDeliversIffBytesFit` | host/dpu_pull.c:63-88 | a pull delivers exactly when every list fits 131072 bytes in that layout |
| `PullMerge.TransferredPart` | host/dpu_pull.c:76-88 | when the lists fit, every buffer gets its DPU's count and first results, as many as the longest list has or all there are, within 131072 bytes |
| `PullMerge.ScatterAt` | host/dpu_pull.c:98-110 | a row answered with one value holds it, a row nobody answered is untouched |
| `PullMerge.AllResultsAt` | host/dpu_pull.c:98-110 | a DPU's results are written behind all those of the DPUs before it, in the order of its list |
| `PullMerge.ScatterLast` | host/dpu_pull.c:98-110 | of several results for a row the last one decides |
| `PullMerge.PullInfo.PullMetadatas` | host/dpu_pull.c:45-52 | the host knows every DPU's result_size |
| `PullMerge.PullInfo.PullResults` | host/dpu_pull.c:63-88 | when every list fits 131072 bytes behind metadata and header the buffers hold the lists, and otherwise what they held before |
| `PullMerge.PullInfo.MergeResults` | host/dpu_pull.c:98-110 | the nested loops write every counted result of every DPU to its row, in DPU order |
| `DpuSet.CallEffect` | host/primary_index_host.c:12-107 | an insert, delete or lookup call whose packages fit their push buffers does to every key of every index what its batch says, across 64 DPUs |
| `DpuSet.PackageKeepsArgs` | host/dpu_push.c:117-132 | the package of a key's DPU says about the key exactly what the batch says |
| `DpuSet.SentPackagesFitDpu` | host/dpu_push.c:80-244 | a package that fits its push buffer fits the DPU: its answers fit the result list and the slicing products stay below 2^32 |
| `DpuSet.StoreIsDpu` | dpu/main.c:15-24 | the sequential storage invariant is what a launch needs |
| `DpuSet.EmptyIndexHasNoValues` | dpu/ops/op_primary_index_create.c:3-15 | an index fresh from its create holds no value under any key |
| `CreateLaunch.AnyInterleavingClears` | dpu/ops/op_primary_index_create.c:3-15 | under every interleaving of the slaves' writes the bucket array ends up as clearing it from end to end leaves it |
| `CreateLaunch.CreateStepKeepsInv` | dpu/main.c:58-101 | every micro-step of the master and the slaves of a create launch keeps its invariant: phases, the registered index, and each slave's block cleared entry by entry |
| `CreateLaunch.CreateProgress` | dpu/main.c:58-101 | in every reachable state of a create launch all is done or some tasklet can step |
| `CreateLaunch.CreateEnds` | dpu/ops/op_primary_index_create.c:3-15 | every finished create launch has registered the index, or not when all 32 slots were taken, and cleared exactly its buckets, whatever the interleaving |
| `CreateLaunch.EveryCreateIsBounded` | dpu/main.c:58-101 | every run of a create launch has at most a step per bucket, four per slave and five of the master |
| `CreateLaunch.CreateFinishes` | dpu/main.c:58-101 | every create launch can be run to its end |
| `Creation.CreateInStore` | dpu/sto/primary_index_dpu.c:59-90 | the store's sequential create leaves the unit that Creates describes |
| `Creation.CreateRunCreates` | dpu/ops/op_primary_index_create.c:3-15 | every finished create launch leaves such a unit, or changes nothing when all slots are taken |
| `Creation.NoIndexesIsEmptyMap` | dpu/main.c:15-24 | 64 DPUs without indexes are what histories start from and hold the empty map |
| `Creation.CreateKeepsMap` | dpu/ops/op_primary_index_create.c:3-15 | creating an id on every DPU, new or not, leaves the stored map as it is and makes the id known |
| `Creation.FreshIndexIsEmptyMap` | dpu/ops/op_primary_index_create.c:3-15 | 64 DPUs with one index fresh from its create are what histories start from and hold the empty map |
| `DpuSet.CallFinishes` | host/primary_index_host.c:12-107 | every call whose packages fit their push buffers and that the DPUs have space for can be executed to its end, by 16 slaves on every DPU |
| `History.EffectOnMap` | host/primary_index_host.c:12-107 | a call that keeps keys distinct does to the stored values what it means for the map |
| `History.CallRefines` | host/primary_index_host.c:12-107 | a call keeps the DPUs holding exactly the map and takes no more space than a node per inserted element |
| `History.HistoryRefinesMap` | host/primary_index_host.c:12-107 | after any history of calls that keeps keys distinct, whose packages fit their push buffers and that starts with space for its inserts, the DPUs hold exactly the key-to-value map, under all interleavings |
| `History.LookupReturnsMap` | host/primary_index_host.c:74-107 | when every DPU's list fits a pull buffer, pulling and merging sets every vals[i] to the map's value for keys[i], or 0 |
| `History.LookupRightIffListsFit` | host/primary_index_host.c:74-107 | a lookup call gives the map's values, whatever the result buffers and the array held before, exactly when every DPU's list fits a pull buffer |
| `History.TooManyAnswers` | host/dpu_pull.c:63-73 | a lookup of one key 8190 times can be built and its answers do not fit |
| `History.LookupGoesWrong` | host/primary_index_host.c:74-107 | that call runs to its end and, with empty result buffers, leaves a wrong array |
| `History.EveryLookupIsRight` | host/primary_index_host.c:74-107 | in any history of calls whose packages fit their push buffers every lookup whose lists fit the pull buffers fills vals with what the map holds at that moment |
| `Service.UnknownCall` | dpu/ops/op_primary_index_lookup.c:38-92 | a call on an id no DPU knows changes nothing and reports nothing |
| `Service.PowerOn` | dpu/main.c:15-24 | DPUs just switched on serve the empty catalog |
| `Service.CommandFinishes` | host/primary_index_host.c:3-107 | every create, and every call the host can build and the DPUs have space for, can be carried out |
| `Service.ServiceRefinesCatalog` | host/primary_index_host.c:3-107 | after any history of creates and calls, with repeated ids, full slots and unknown ids among them, the DPUs hold exactly the list of created ids and the map under them, under all interleavings |
| `Service.EveryAnswerIsRight` | host/primary_index_host.c:3-107 | in any such history every lookup whose lists fit fills vals with what the map holds at that moment, and leaves it alone for an id never created |
| `Service.TwoCommandsGoWrong` | host/primary_index_host.c:3-107 | from power-on a create and one lookup of one key 8190 times are such a history, and the array comes back wrong |
| `Service.ServedSlots` | dpu/sto/primary_index_dpu.c:67-69 | in the real space the s-th index has 8192 buckets of 40 bytes, one after the other from 0x2000000 + 0x80000 * s |
| `Service.ThirtyTwoCreates` | dpu/sto/primary_index_dpu.c:59-73 | from power-on 32 creates succeed, whatever their ids, and every further one changes nothing on any DPU |
| `Words.OneBit` | dpu/sto/bitmap.c:100-133 | or-ing a mask sets one bit and and-ing its complement clears one bit of a word, and nothing else |
| `Words.BitIsDigit` | dpu/sto/bitmap.c:88-92 | bit k of a word, as masking tests it, is the word's k-th binary digit |
| `Bitmap.BitInNumbers` | dpu/sto/bitmap.c:72-92 | bit i of a bitmap is digit i % 32 of word i / 32 |
| `Bitmap.MapSizeInNumbers` | dpu/sto/bitmap.c:38-42 | the map's words hold all the bits and none is superfluous |
| `Bitmap.ReservedHoldsBitsIff` | dpu/sto/bitmap.c:8-21 | the space computed holds all bits exactly when the bits fill their words or the whole words do not fill their windows |
| `Bitmap.ReservedHoldsWindowsIff` | dpu/sto/bitmap.c:8-21 | the space computed covers every 32-word write-back exactly when there are bits and less than a word of the last window is unused |
| `Bitmap.ExtentsInNumbers` | dpu/sto/bitmap.c:44-53 | clearing writes whole buffers of 16 words and the window moves in steps of 32, over no more words than the bits take rounded up |
| `Bitmap.BitmapDpu.Init` | dpu/sto/bitmap.c:23-55 | all bits are clear and the head is fresh, or the size is refused and nothing changes; the words demanded are those of whole 16-word buffers, which clearing writes |
| `Bitmap.BitmapCache.constructor` | dpu/sto/bitmap.c:57-66 | a fresh cache shows the bitmap's own words, with right head fields after an initialization |
| `Bitmap.BitmapCache.Hit` | dpu/sto/bitmap.c:72-86 | moving the window never changes the combined view, whatever was modified |
| `Bitmap.BitmapCache.Test` | dpu/sto/bitmap.c:88-92 | the bit of the combined view, which stays |
| `Bitmap.BitmapCache.Set` | dpu/sto/bitmap.c:94-121 | exactly bit i of the combined view becomes 1; first_avail is the least clear bit and full is right afterwards; an index out of range is an error without effect |
| `Bitmap.BitmapCache.Rescan` | dpu/sto/bitmap.c:106-119 | the scan across window moves finds the least clear bit or none |
| `Bitmap.BitmapCache.Clear` | dpu/sto/bitmap.c:123-142 | exactly bit i becomes 0, with first_avail and full right; an error exactly for an index out of range or a clear bit |
| `Bitmap.BitmapCache.Save` | dpu/sto/bitmap.c:144-150 | the bitmap's own words become the combined view |
| `Bitmap.BitmapCache.SaveAndReload` | dpu/sto/bitmap.c:57-150 | save followed by init reproduces head and view |
| `Bitmap.BitmapCache.FullIff` | dpu/sto/bitmap.c:23-142 | in every state of a cache, from its initialization on, the full flag tells whether a bit is clear exactly when the bitmap has a bit |
| `BlockAlloc.PlanFits` | dpu/sto/block_mram_alloc.c:7-17 | every accepted region holds the rounded bitmap and all its blocks, and the subtraction never wraps |
| `BlockAlloc.RefusedIff` | dpu/sto/block_mram_alloc.c:9-14 | a region is refused exactly when it has less than 24 bytes |
| `BlockAlloc.PlanInNumbers` | dpu/sto/block_mram_alloc.c:15-17 | an accepted region begins with the header of 24 bytes and the reserved words in pairs, and then has as many blocks as fit |
| `BlockAlloc.BitsClearOfBlocksIff` | dpu/sto/block_mram_alloc.c:4-24 | the words of all blocks' bits lie before the first block exactly when they are no more than the words reserved, rounded up to pairs |
| `BlockAlloc.WindowsClearOfBlocksIff` | dpu/sto/block_mram_alloc.c:4-24 | every word a window write-back touches lies before the first block exactly when the words of whole windows are no more than the words reserved, rounded up to pairs |
| `BlockAlloc.BitsUnderBlockZero` | dpu/sto/block_mram_alloc.c:4-24 | 65920 bytes in blocks of 64 are accepted with the word of the last three blocks' bits in block 0 |
| `BlockAlloc.WindowUnderBlockZero` | dpu/sto/block_mram_alloc.c:4-24 | 40000 bytes in blocks of 64 are accepted with all bits before block 0 but a window reaching into it |
| `BlockAlloc.BlockIdInvertsAddr` | dpu/sto/block_mram_alloc.c:65-76 | every address inside a block has that block's id |
| `BlockAlloc.BeforeTheBlocks` | dpu/sto/block_mram_alloc.c:73-76 | an address before the first block has no block's id |
| `BlockAlloc.BlocksApart` | dpu/sto/block_mram_alloc.c:65-71 | blocks are disjoint address ranges |
| `BlockAlloc.NoLiveBlockTwice` | dpu/sto/block_mram_alloc.c:31-63 | in every run a block handed out twice was freed in between |
| `BlockAlloc.BlockAllocator.constructor` | dpu/sto/block_mram_alloc.c:4-24 | for every region of at least 24 bytes whose bitmap windows lie before its blocks: all blocks, of the requested size rounded up to a power of two, are free and avail is their number; when the bitmap refuses that many blocks the allocator works on whatever bitmap lay there |
| `BlockAlloc.BlockAllocator.Alloc` | dpu/sto/block_mram_alloc.c:31-44 | the lowest free block, or NULL exactly when none is free; avail stays the number of clear bits |
| `BlockAlloc.BlockAllocator.BlockFree` | dpu/sto/block_mram_alloc.c:54-63 | a used block becomes free; a repeated free or a foreign id changes nothing |
| `BlockAlloc.BlockAllocator.Free` | dpu/sto/block_mram_alloc.c:46-52 | frees the block the address lies in, if it is used |
| `Coo.SumKeepsElements` | util/coo_matrix.c:280-316 | addition keeps every element of both lists |
| `Coo.SumSorted` | util/coo_matrix.c:280-316 | the sum of lists sorted by row and then column is sorted by row and then column |
| `Coo.SumInRowOrder` | util/coo_matrix.c:280-316 | when neighbours of both lists are in row order, and in column order within a row, so are any two elements of the sum |
| `Coo.SumContains` | util/coo_matrix.c:280-316 | both lists are subsequences of their sum |
| `Coo.GreedyDropsAllIff` | util/coo_matrix.c:318-331 | the one-pass subtraction drops all of A exactly when A is a subsequence of B |
| `Coo.GreedyDropsLongest` | util/coo_matrix.c:318-331 | the pass drops the longest beginning of A that is a subsequence of B |
| `Coo.DifferenceKeeps` | util/coo_matrix.c:318-331 | everything else of B stays, in its order |
| `Coo.DifferenceOfBeginning` | util/coo_matrix.c:318-331 | whether an element stays is decided when the pass comes to it |
| `Coo.SubtractionUndoesAddition` | util/coo_matrix.c:280-331 | sub(A, add(A, B)) is B element by element, for every A and every sorted B |
| `Coo.UndoesEveryAdditionIffSorted` | util/coo_matrix.c:280-331 | sub undoes the addition of every A exactly for sorted B |
| `Coo.CooMatrix.Insert` | util/coo_matrix.c:101-111 | the element is appended, or the buffer is full and nothing changes |
| `Coo.Add` | util/coo_matrix.c:280-316 | the loops compute the ordered sum, cut to the 32-bit sum of the capacities; nothing is cut when that sum does not wrap around, and for sorted matrices the result's rows, and columns within rows, ascend |
| `Coo.Sub` | util/coo_matrix.c:318-331 | the loop computes the one-pass difference |
| `Coo.Merge` | util/coo_matrix.c:235-278 | the concatenation of all lists that are there, in a buffer of exactly their size |
| `Coo.JoinedAt` | util/coo_matrix.c:257-275 | element k of list i lies behind all elements of the lists before it |
| `IndexManager.MapBucketInNumbers` | host/hash_map.c:3-16 | the bucket is the mixed key reduced, the mixed key being the one word that the inverse takes to the key |
| `IndexManager.HashMap.constructor` | host/hash_map.c:25-37 | a new map is empty: as many unlinked, unused entries as the next power of two |
| `IndexManager.HashMap.Find` | host/hash_map.c:69-86 | the walk along the linked entries gives the key's entry, or null exactly when the map lacks the key |
| `IndexManager.HashMap.Insert` | host/hash_map.c:39-68 | insert-if-absent: an error exactly for a key that is there; otherwise the inline entry is filled or a new one linked behind it, and used counts the keys |
| `IndexManager.DpuSetApply` | host/dpu_set_pool.c:48-67 | the first set below 16 indexes is booked, or none has room |
| `IndexManager.CreateKeepsOk` | host/dpu_index_manager.c:14-34 | every create keeps the counts right, maps at most the new id, and leaves the sets of all other ids alone |
| `IndexManager.CreateSucceedsIff` | host/dpu_index_manager.c:14-34 | a create succeeds exactly when a set has room and the id is new; the global limit of 64 never decides |
| `IndexManager.CreateRun` | host/dpu_index_manager.c:14-34 | after any run of creates every one has booked a slot, successful or not, until all 64 are gone |
| `IndexManager.SetsFillInOrder` | host/dpu_set_pool.c:48-67 | after n creates, of whatever ids, the four sets have booked 16 each one after the other |
| `IndexManager.MappedAreEarly` | host/dpu_index_manager.c:14-34 | after any run of creates the ids mapped are those among the first 64 creates |
| `IndexManager.RepeatedCreatesExhaust` | host/dpu_index_manager.c:20-31 | after 64 creates, of whatever ids, no further one succeeds; when all were of one id, that id alone is mapped |
| `IndexManager.SlotsSuffice` | host/dpu_set_pool.c:54-59 | after any run of creates a set has at most half as many ids as its DPUs have slots |
| `IndexManager.IdsStay` | host/dpu_index_manager.c:14-34 | in any run of creates an id that is mapped once keeps its set for ever |
| `IndexManager.Manager.CreateIndex` | host/dpu_index_manager.c:14-34 | booking, mapping and counting happen as one create says |
| `IndexManager.Manager.CountersAgree` | host/dpu_index_manager.c:14-34 | the map's used, the global count and the number of ids mapped agree and are at most 64 |
| `IndexManager.Manager.GetDpuSet` | host/dpu_index_manager.c:36-47 | the set of an id, or none |

## Left out

- `TaskletRuns.StepKeepsInv`: says nothing about an index's `used` field, because the code changes it under per-bucket mutexes only and concurrent changes can be lost; `IndexRuns.InsertCountsIff` and `IndexRuns.DeleteCounts` give its value for one caller at a time.
- `Batches.InsertBatch`: covers launches with enough allocator space for the whole slice of the DPU; what an insert without space does is stated for one caller at a time.
- `Batches.LookupBatch`: with several records under one key it reports the first in its bucket's chain; which one that is depends on the interleaving of earlier inserts. A lookup package of 87380 elements reaches into the result list (`Routing.FullPackageReachesResults`), which overwrites its last key_id; its answers fit no pull buffer.
- `TaskletTheorems.FinalResults`: the DPU's result list has no upper limit of its own in the model; `DpuSet.SentPackagesFitDpu` shows that no call reaches it, and the host's limit of 8189 is in `PullMerge`.
- `PrimaryIndex.PrimaryIndexStore.UpdateWithEntryAddr`: one caller at a time, because the code reads the entry before it takes the bucket's mutex.
- `PrimaryIndex.PrimaryIndexStore.ClearBuckets`: the method runs the slaves one after the other; every other order of their steps is in `CreateLaunch`.
- `Routing.PushInfo.BuildInsert`: requires that every package fits its push buffer; the code writes past the buffer otherwise, so `DpuSet.CallEffect`, `DpuSet.CallFinishes` and the theorems of `History` and `Service` speak of calls whose packages fit. Keys of one batch may have different lengths in the model, one common length in the code.
- `Bitmap.BitmapDpu.Init`: the bitmap's words are an array of at least the words that clearing, or for a cache its windows, touch; a bitmap that lies over other data is not modelled, only exactly when a block allocator's does.
- `BlockAlloc.BlockAllocator.constructor`: requires a bitmap whose windows lie before the blocks, where the code does not check, because the class keeps the bitmap's words apart from the blocks; `BlockAlloc.WindowsClearOfBlocksIff` is the exact condition.
- `Coo.Merge`: requires that the first list is there when there is one, because the code reads its type.
- Calls that race with a create that has not returned: the manager publishes an id before its DPUs know it; a call that comes first finds an unknown id (`Service.UnknownCall`).
- The distribution quality of the hashes; what they compute is in `Routing.RouteInNumbers`, `Entries.LocalBucketInNumbers` and `IndexManager.MapBucketInNumbers`.
- The mutex, barrier, sequential reader and transfer implementations of the hardware's library.
- The byte layout of packages and buffers, including the size computed for create packages.
- The `_v1` wrappers, which look up the set of an id and make the call.
- Timers, logging, dumps, self-checks of the repository, random disordering, iterators and failures of malloc.
