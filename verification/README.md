# Verified core of the ArangoDB enterprise components

This project models the parts of the repository whose correctness rests on an algorithm or a
protocol rather than on plumbing, and proves what they promise. Each module stands for one
component; code that changes state step by step is a class or a method with loops, proved equal to
a function of its inputs or its old state, and the promises are lemmas about those functions and
about all runs. Code that several threads execute at once is a state machine whose steps are what
one thread does between two points at which others may run.

- **Top-k search** (`ScoreHeap`, `WandSearch`, `SharedSearch`, `TopKPlan`). A min-heap in an array keeps the k best
  scores; an iterator skips documents whose upper bound is below the k-th best; a plan rewrite
  switches this on for a limit over a descending BM25 sort over a view. The result of the query is
  that of brute force, for every ranking that puts higher scores first, whatever its tie-break - also
  when the iterators of several segments feed one heap, in any interleaving.
- **Replication, target side** (`ReplicationApplier`, `StaleEntries`). Messages that are lost, repeated and
  reordered, and writes that fail, leave every shard with exactly a prefix of its source. With
  writes that never fail the final state depends only on the set of messages delivered.
- **MinHash** (`Words`, `MinHash`). Arithmetic on 64- and 128-bit words computes a linear permutation of
  the field of 2^61 - 1 elements, and the estimate is the fraction of permutations whose minimiser
  is shared.
- **Encryption at arbitrary offsets** (`CtrCipher`). The cipher stream implements counter mode
  (section 6.5 of NIST SP 800-38A) with the standard incrementing function (Appendix B.1), and a
  chunk transformed at any offset is a slice of the whole file.
- **Parallel index build** (`KeySpace`, `IndexFill`, `ThreadPool`, `BuildLifecycle`). How often the
  parts of a split key range cover each key, what is inserted under any interleaving, what the
  worker pool guarantees, and what a build has done by the time its index is swapped in.
- **Replication, source side** (`WalTailer`, `TailLoop`, `SequenceNumbers`, `Text`, `Checkpoint`).
  Tailers split the write-ahead log, batches lose nothing, numbers are handed out once, and progress
  saved as text is read back.
- **Audit log and backup manifest** (`AuditLog`, `BackupManifest`). A producer/writer protocol that
  keeps the log's order and loses nothing before a stop, and a hand-written JSON printer and parser
  that are inverse to each other.

## Where the code does less than it seems to

Each of these is stated as a lemma that gives the exact condition, and the code is modelled as it is.

- A view keeps the heap size of the matching limit visited last. Any other reader of that view loses
  documents if it asks for more: a limit whose size and offset together exceed the heap
  (`TopKPlan.HeapSizeIff`), or a reader with no limit at all (`TopKPlan.UnlimitedReaderIff`).
  `TopKPlan.SharedView` builds such plans from nodes; `TopKPlan.RewriteKeepsResult` covers whole plans.
- Interpolating a key byte by byte is not monotone: for some ranges the split points descend, and a
  key is then covered twice, or covered although it is outside the range. Exactly which ranges, in
  terms of the two bounds, is `KeySpace.CoversOnceIff`, and for the index `IndexFill.FillsOnceInputs`;
  `KeySpace.DescendingSplits` is an example. No key of the range is ever missed.
- With zero threads a fill reports success and inserts nothing: `IndexFill.CoversIffThreads`.
- Nothing stops the owner from swapping while a fill is still running. The swap then publishes an
  unfinished index, and a late failure of the fill turns a completed build into a failed one. In every
  run this is so exactly when a fill call is running at the swap: `BuildLifecycle.SwapIsFilledIff`,
  `BuildLifecycle.CompleteStaysIff`; `BuildLifecycle.PrematureSwapThenFailure` is such a run.
- The applier's buffer is documented to hold out-of-order messages. After a failed drain, a message
  delivered again is written while its earlier copy stays buffered, for good. Over every run the buffer
  is tight exactly when no such write happened (`StaleEntries.RunIsTightIff`), which takes a failed
  drain (`StaleEntries.StaleNeedsFailedDrain`) and does occur (`StaleEntries.StaleIsReachable`).
- The checkpoint and manifest texts do not escape: `Checkpoint.RoundTripIff` and
  `BackupManifest.RoundTripIff` say which values survive.

## Model

| member | source | states |
|---|---|---|
| ScoreHeap.KLargestIsBest | Enterprise/IResearch/IResearchOptimizeTopK.cpp:62-67 | what "the k largest scores seen" means: a part of the scores of size min(k, seen), with nothing left out that beats something kept |
| ScoreHeap.KLargestStep | Enterprise/IResearch/IResearchOptimizeTopK.cpp:82-96 | the update rule is right: one more score joins, displaces exactly the k-th best, or changes nothing |
| ScoreHeap.ThresholdIsLeastKept | Enterprise/IResearch/IResearchOptimizeTopK.cpp:98-103 | the threshold of a full heap is kept and is the least score kept |
| ScoreHeap.ThresholdNeverFalls | Enterprise/IResearch/IResearchOptimizeTopK.cpp:121-127 | for non-negative scores the threshold never decreases, over any continuation |
| ScoreHeap.TopIsLeast | Enterprise/IResearch/IResearchOptimizeTopK.cpp:65-67 | the front of a min-heap is its smallest element |
| ScoreHeap.PushHeap | Enterprise/IResearch/IResearchOptimizeTopK.cpp:84-86 | sifting up restores the heap, permutes the elements and touches nothing behind them |
| ScoreHeap.PopHeap | Enterprise/IResearch/IResearchOptimizeTopK.cpp:89-90 | the least score moves behind a heap of the others; nothing is lost |
| ScoreHeap.SiftDown | Enterprise/IResearch/IResearchOptimizeTopK.cpp:90 | a heap whose top may be too large becomes a heap of the same elements |
| ScoreHeap.ReplaceTop | Enterprise/IResearch/IResearchOptimizeTopK.cpp:89-93 | the three heap calls exchange the least score for the new one and leave a heap |
| ScoreHeap.ScoreThresholdManager.constructor | Enterprise/IResearch/IResearchOptimizeTopK.cpp:78-80 | an empty manager of capacity k |
| ScoreHeap.ScoreThresholdManager.AddScore | Enterprise/IResearch/IResearchOptimizeTopK.cpp:82-96 | after any run the array is a min-heap of exactly the k largest scores seen; the answer says whether the score got in |
| ScoreHeap.ScoreThresholdManager.GetThreshold | Enterprise/IResearch/IResearchOptimizeTopK.cpp:98-103 | the k-th largest score seen, zero before k |
| ScoreHeap.ScoreThresholdManager.Reset | Enterprise/IResearch/IResearchOptimizeTopK.cpp:109 | back to having seen nothing |
| WandSearch.SortedIsUnique | Enterprise/IResearch/IResearchOptimizeTopK.cpp:22-26 | with a total tie-break there is only one sorted result, so "the top k" is well defined |
| WandSearch.ScoresOfSort | Enterprise/IResearch/IResearchOptimizeTopK.cpp:82-96 | ranking the documents ranks their scores, so the heap's threshold speaks about documents |
| WandSearch.SkippedIsBeaten | Enterprise/IResearch/IResearchOptimizeTopK.cpp:138-150 | a document whose bound is below the threshold is beaten by k documents already returned |
| WandSearch.ReturnedKeepsTop | Enterprise/IResearch/IResearchOptimizeTopK.cpp:138-173 | the first k of the returned documents are the first k of all, by induction over the scan |
| WandSearch.WandIsExact | Enterprise/IResearch/IResearchOptimizeTopK.cpp:22-26 | exact top-k: any sorted arrangement of the returned documents has the first k of any sorted arrangement of all |
| WandSearch.WandIterator.Next | Enterprise/IResearch/IResearchOptimizeTopK.cpp:138-150 | stops at the first document that can compete, passes only such that cannot, and counts them |
| WandSearch.WandIterator.Score | Enterprise/IResearch/IResearchOptimizeTopK.cpp:167-173 | returns the document's score and feeds it to the manager once |
| WandSearch.WandIterator.Seek | Enterprise/IResearch/IResearchOptimizeTopK.cpp:154-165 | moves forward, passing only documents before the target or unable to compete; zero when none is left; only what was passed after the seek counts as skipped |
| WandSearch.Search | tests/unit/IResearchOptimizeTopKTest.cpp:306-309 | one score call per returned document hands out exactly the documents of the specification, and the skip count is what was withheld |
| TopKPlan.ExecuteView | Enterprise/IResearch/IResearchOptimizeTopK.cpp:193-199 | the view's output is that of the wrapped scan when the annotation is on and of the plain scan otherwise |
| SharedSearch.ScoredIsBelow | Enterprise/IResearch/IResearchOptimizeTopK.cpp:167-173 | documents handed out and not scored yet could only raise the threshold, so skipping by it stays safe |
| SharedSearch.HandedOutIff | Enterprise/IResearch/IResearchOptimizeTopK.cpp:138-150 | looking at a document moves its iterator by one, and hands it out if and only if its bound reaches the threshold of what was scored so far |
| SharedSearch.ScoredOnce | Enterprise/IResearch/IResearchOptimizeTopK.cpp:167-173 | scoring a document handed out feeds its score to the manager once |
| SharedSearch.EveryRunIsExact | Enterprise/IResearch/IResearchOptimizeTopK.cpp:138-173 | with several iterators feeding one manager, in any interleaving of looking and scoring, the first k of the documents handed out are those of all looked at |
| SharedSearch.EveryRunIsTracked | Enterprise/IResearch/IResearchOptimizeTopK.cpp:138-150 | what was looked at is exactly the part of each segment behind its iterator |
| SharedSearch.SharedManagerIsExact | Enterprise/IResearch/IResearchOptimizeTopK.cpp:193-199 | exact top-k over all segments wrapped by one context, once they are exhausted |
| TopKPlan.AnnotatingKeepsResult | Enterprise/IResearch/IResearchOptimizeTopK.cpp:257-296 | a plan's result is unchanged when views read by a limit through a BM25 sort are annotated widely enough for limit and offset, anywhere in the plan |
| TopKPlan.HeapSizeIff | Enterprise/IResearch/IResearchOptimizeTopK.cpp:289-291 | an annotated view gives a limit with any offset, over a BM25 sort or none, its exact result on all documents if and only if its heap is off or holds offset and limit together |
| TopKPlan.UnlimitedReaderIff | Enterprise/IResearch/IResearchOptimizeTopK.cpp:193-199 | a reader of the view with no limit is exact on all documents if and only if the heap is off |
| TopKPlan.IsBM25Exactly | Enterprise/IResearch/IResearchOptimizeTopK.cpp:211-217 | the search in the lower-cased path accepts exactly the paths that hold the letters b and m, in either case, and 25 behind them |
| TopKPlan.ValidSortExactly | Enterprise/IResearch/IResearchOptimizeTopK.cpp:221-236 | a sort is accepted exactly if it has a first element, which names BM25 and is not ascending |
| TopKPlan.ChecksFindPattern | Enterprise/IResearch/IResearchOptimizeTopK.cpp:262-287 | the checks pass exactly for a limit above zero with no offset over such a sort over a view |
| TopKPlan.PatternIs | Enterprise/IResearch/IResearchOptimizeTopK.cpp:211-287 | that pattern written out in the fields of the three nodes and the characters of the attribute path |
| TopKPlan.AscendingLoses | Enterprise/IResearch/IResearchOptimizeTopK.cpp:232-234 | why the direction matters: for any ranking that puts lower scores first, a limit annotated with its own size loses its result on some admissible documents |
| TopKPlan.MatchCountIs | Enterprise/IResearch/IResearchOptimizeTopK.cpp:259-295 | the count returned is the number of list positions that match |
| TopKPlan.LastLimitIs | Enterprise/IResearch/IResearchOptimizeTopK.cpp:289-291 | the heap size is the limit of the last matching node that reads the view |
| TopKPlan.OptimizeTopKPatterns | Enterprise/IResearch/IResearchOptimizeTopK.cpp:257-296 | enables the view of every matching limit, sizes it by the last such limit in the list, touches no other view, and counts the matches |
| TopKPlan.LastLimitInPlan | Enterprise/IResearch/IResearchOptimizeTopK.cpp:261-293 | a view no other plan reads gets the limit two nodes above it |
| TopKPlan.RewriteKeepsResult | Enterprise/IResearch/IResearchOptimizeTopK.cpp:257-296 | the in-place rewrite keeps the result of every plan whose annotated views end up wide enough for the limit above them |
| TopKPlan.UnsharedFits | Enterprise/IResearch/IResearchOptimizeTopK.cpp:282-291 | a plan whose views no other plan reads always meets that condition |
| TopKPlan.OptimizePlan | Enterprise/IResearch/IResearchOptimizeTopK.cpp:257-296 | running the rewrite over the nodes leaves the plan's result as it was |
| TopKPlan.SharedView | Enterprise/IResearch/IResearchOptimizeTopK.cpp:261-293 | two limit nodes over one view, rewritten: the first plan keeps its result on telling documents if and only if the heap of the last limit is wide enough for it |
| ReplicationApplier.RunIsSafe | Enterprise/Replication/ReplicationApplier.cpp:42-84 | under any loss, repetition, reordering and write failure: the writes of a shard are source messages 1..lastApplied in order and once each, satellites get none, buffers hold source messages only, and totalApplied is the sum of lastApplied |
| ReplicationApplier.WritesAreSource | Enterprise/Replication/ReplicationApplier.cpp:42-137 | in every run shard s has lastApplied[s] writes, and the i-th has collection s and the operation, payload and key of the i-th source message |
| ReplicationApplier.WritesOfIsFilter | Enterprise/Replication/ReplicationApplier.cpp:69-70 | the writes of a shard are all the successful writes to its collection |
| ReplicationApplier.SatellitesAreNotWritten | Enterprise/Replication/ReplicationApplier.cpp:43-47 | no write of any run goes to a satellite shard |
| ReplicationApplier.SatellitesAreCounted | Enterprise/Replication/ReplicationApplier.cpp:44-47 | with writes that never fail, the skip total is the number of satellite messages delivered, alone or in batches |
| ReplicationApplier.SkippedOrBuffered | Enterprise/Replication/ReplicationApplier.cpp:43-67 | a satellite message, a repetition and an early arrival change their one total or buffer slot, return 0, and do nothing else |
| ReplicationApplier.NextIsWritten | Enterprise/Replication/ReplicationApplier.cpp:69-83 | the next message is attempted: a failure returns the callback's code and records nothing; a success is logged with the message's fields |
| ReplicationApplier.BatchStopsAtError | Enterprise/Replication/ReplicationApplier.cpp:27-33 | a batch is applied message by message up to and with the first that returns an error |
| ReplicationApplier.RunSettles | Enterprise/Replication/ReplicationApplier.cpp:42-137 | with writes that never fail, lastApplied is the largest n with 1..n delivered and the buffer holds exactly the delivered sequences above it |
| ReplicationApplier.RunsConverge | Enterprise/Replication/ReplicationApplier.cpp:42-137 | runs that deliver the same messages, in any order, grouping and repetition, end in the same sequence and buffer |
| ReplicationApplier.RedeliveryCatchesUp | Enterprise/Replication/ReplicationApplier.cpp:23-35 | whatever went wrong before, delivering the first n messages once writes succeed brings the shard to at least n |
| StaleEntries.StaleEntryExactly | Enterprise/Replication/ReplicationApplier.cpp:61-83 | after a delivery a written message lies in the buffer exactly if one did before or the delivery wrote a message whose copy is buffered |
| StaleEntries.StaleRiskIff | Enterprise/Replication/ReplicationApplier.cpp:61-83 | what a caller can tell before a delivery: no answer of the callback makes an entry stale if and only if it is not the next message with its copy buffered |
| StaleEntries.RunIsTightIff | Enterprise/Replication/ReplicationApplier.cpp:42-137 | over every run the buffer holds only messages ahead of lastApplied if and only if no step wrote a message whose copy was buffered |
| StaleEntries.DrainLeavesWaiting | Enterprise/Replication/ReplicationApplier.cpp:112-130 | after a drain the next message is still buffered exactly if a write failed |
| StaleEntries.StaleNeedsFailedDrain | Enterprise/Replication/ReplicationApplier.cpp:102-137 | over every run the next message lies in the buffer, and a buffered message is written, only after a drain write has failed |
| StaleEntries.StaleIsReachable | Enterprise/Replication/ReplicationApplier.cpp:61-130 | a run of three deliveries and one failed write that ends with message 2 written and buffered |
| ReplicationApplier.Applier.ApplyMessage | Enterprise/Replication/ReplicationApplier.cpp:42-84 | state and return code are those of the specification in every branch; a failed write returns the callback's code, and each skip raises its own total by one |
| ReplicationApplier.Applier.WriteMessage | Enterprise/Replication/ReplicationApplier.cpp:69-78 | the callback is handed the shard, operation, payload and key of the message; the write is recorded exactly if it reports success |
| ReplicationApplier.Applier.WriteBuffered | Enterprise/Replication/ReplicationApplier.cpp:119-129 | the callback is handed the fields of the next buffered message, which is then recorded and erased, or nothing changes but the attempt |
| ReplicationApplier.Applier.DrainTurn | Enterprise/Replication/ReplicationApplier.cpp:113-129 | one turn writes the next buffered message or leaves the loop without visible effect |
| ReplicationApplier.Applier.DrainBuffered | Enterprise/Replication/ReplicationApplier.cpp:102-137 | drains the gap-free run behind lastApplied and returns how many it wrote |
| ReplicationApplier.Applier.ApplyBatchOf | Enterprise/Replication/ReplicationApplier.cpp:23-35 | applies messages up to the first write error and returns the number written, drained ones included |
| ReplicationApplier.Applier.LastAppliedSequence | Enterprise/Replication/ReplicationApplier.cpp:86-91 | zero for a shard never seen |
| MinHash.FoldReduces | Enterprise/Aql/MinHashFunctions.cpp:23-40 | low bits plus high bits with one conditional subtraction is the residue, and fits in 64 bits |
| MinHash.PermutationHashIsLinear | Enterprise/Aql/MinHashFunctions.cpp:43-50 | for every 64-bit x and valid seed the result is (a*x + b) mod 2^61 - 1 |
| MinHash.MulModReduces | Enterprise/Aql/MinHashFunctions.cpp:23-30 | the 128-bit multiplication and reduction is multiplication in the field |
| MinHash.PrimeDividesFactor | Enterprise/Aql/MinHashFunctions.cpp:21-30 | Euclid's lemma, for any prime modulus |
| MinHash.PermutationHashIsInjective | Enterprise/Aql/MinHashFunctions.cpp:43-50 | if the modulus is prime, a permutation separates all residues |
| MinHash.ComputeBaseHash | Enterprise/Aql/MinHashFunctions.cpp:12-19 | the loop computes 64-bit FNV-1a from the seeded offset basis |
| MinHash.HashOfNothing | Enterprise/Aql/MinHashFunctions.cpp:13 | no bytes hash to the offset basis combined with the seed |
| MinHash.HashOfOneMore | Enterprise/Aql/MinHashFunctions.cpp:14-17 | one more byte is combined into the word, and the word multiplied |
| Words.XorBit | Enterprise/Aql/MinHashFunctions.cpp:13-15 | a bit of an exclusive or is set exactly where the two words differ |
| Words.XorIsInjective | Enterprise/Aql/MinHashFunctions.cpp:15 | exclusive or with a fixed word loses nothing |
| MinHash.MultiplierInverts | Enterprise/Aql/MinHashFunctions.cpp:16 | multiplying by the odd constant modulo 2^64 is undone by multiplying by its inverse |
| MinHash.RoundIsInjective | Enterprise/Aql/MinHashFunctions.cpp:14-17 | a round loses nothing of the hash and nothing of the byte |
| MinHash.OneByteShows | Enterprise/Aql/MinHashFunctions.cpp:12-19 | elements that differ in one byte have different base hashes, under every seed |
| MinHash.IndexBytesRecombine | Enterprise/Aql/MinHashFunctions.cpp:62-65 | the four bytes hashed are those of the index, least significant first |
| MinHash.IndicesAreToldApart | Enterprise/Aql/MinHashFunctions.cpp:60-66 | indices that differ in one byte get different base hashes, from which their seeds are made |
| MinHash.GeneratePermutationSeeds | Enterprise/Aql/MinHashFunctions.cpp:56-72 | k seeds: the i-th is made of the two base hashes of the four bytes of i, reduced to 1 <= a < p and 0 <= b < p |
| MinHash.LowerMinimums | Enterprise/Aql/MinHashFunctions.cpp:85-90 | every slot becomes the lesser of itself and its hash |
| MinHash.Generator.AddElement | Enterprise/Aql/MinHashFunctions.cpp:81-91 | the slots are the minima over all elements added so far: each becomes the lesser of itself and the permutation of the base hash |
| MinHash.Generator.Finalize | Enterprise/Aql/MinHashFunctions.cpp:93-95 | returns the signature of what was added |
| MinHash.Generator.Reset | Enterprise/Aql/MinHashFunctions.cpp:97-100 | back to the signature of nothing |
| MinHash.SlotMinIsMinimum | Enterprise/Aql/MinHashFunctions.cpp:81-91 | a slot is a lower bound of the elements' hashes that one of them attains |
| MinHash.SignatureIgnoresOrder | Enterprise/Aql/MinHashFunctions.cpp:81-95 | signatures of lists with the same elements are equal: order and repeats do not matter |
| MinHash.SignatureOfUnion | Enterprise/Aql/MinHashFunctions.cpp:81-95 | the signature of a union is the pointwise minimum |
| MinHash.MinimiserExists | Enterprise/Aql/MinHashFunctions.cpp:81-91 | a permutation has a minimiser over a non-empty set, and only one if base hashes differ mod p |
| MinHash.SlotsAgreeExactly | Enterprise/Aql/MinHashFunctions.cpp:104-116 | a slot of two signatures agrees if and only if the minimiser over both sets lies in both |
| MinHash.EstimateJaccard | Enterprise/Aql/MinHashFunctions.cpp:104-116 | the number of positions that agree over the length; zero for empty or unequal lengths |
| MinHash.MatchesAreCounted | Enterprise/Aql/MinHashFunctions.cpp:109-114 | the matches counted are the positions at which the signatures agree |
| MinHash.EstimateCountsSharedMinimisers | Enterprise/Aql/MinHashFunctions.cpp:104-116 | the MinHash theorem: the estimate is the fraction of permutations whose minimiser is shared |
| MinHash.SameSetsEstimateOne | Enterprise/Aql/MinHashFunctions.cpp:104-116 | equal sets are estimated at 1 |
| MinHash.DisjointSetsEstimateZero | Enterprise/Aql/MinHashFunctions.cpp:104-116 | disjoint sets are estimated at 0 |
| CtrCipher.CounterCountsMod128Bits | Enterprise/RocksDBEngine/EncryptionProvider.cpp:62-73 | adding to a counter block is addition mod 2^128 of its big-endian value |
| CtrCipher.AddBlockIndex | Enterprise/RocksDBEngine/EncryptionProvider.cpp:67-73 | the byte-wise loop with its carry performs that addition in place, for every block and index |
| CtrCipher.AddByte | Enterprise/RocksDBEngine/EncryptionProvider.cpp:70-72 | one turn of the loop keeps counter plus pending carry |
| CtrCipher.CtrModeIsPointwise | Enterprise/RocksDBEngine/EncryptionProvider.cpp:104-108 | counter mode block by block is the combination of each byte with the key stream byte at its position |
| CtrCipher.EvpContext.EncryptUpdate | Enterprise/RocksDBEngine/EncryptionProvider.cpp:92-108 | a context of counter block and bytes used goes on where the last call stopped |
| CtrCipher.CtrCipherStream.CtrTransform | Enterprise/RocksDBEngine/EncryptionProvider.cpp:48-116 | counter set-up, mid-block skip and in-place exclusive or give the data combined with the key stream from the offset on: byte i with byte (offset + i) mod 16 of the cipher of counter iv + (offset + i) / 16 |
| CtrCipher.CtrCipherStream.Encrypt | Enterprise/RocksDBEngine/EncryptionProvider.cpp:37-40 | the transformation at the offset |
| CtrCipher.CtrCipherStream.Decrypt | Enterprise/RocksDBEngine/EncryptionProvider.cpp:42-46 | the same transformation |
| CtrCipher.ChunkIsSlice | Enterprise/RocksDBEngine/EncryptionProvider.cpp:48-116 | random access: a chunk transformed at its offset is the matching slice of the whole file in counter mode |
| CtrCipher.AdjacentCallsCompose | Enterprise/RocksDBEngine/EncryptionProvider.cpp:48-116 | two adjacent calls are one call on the concatenation |
| CtrCipher.DecryptUndoesEncrypt | Enterprise/RocksDBEngine/EncryptionProvider.cpp:42-46 | decrypting at an offset undoes encrypting at it |
| CtrCipher.ReadBackAnywhere | Enterprise/RocksDBEngine/EncryptionProvider.cpp:37-46 | any part read back from an encrypted file is that part of the plaintext |
| KeySpace.InterpolateKey | Enterprise/RocksDBEngine/KeySpacePartitioner.cpp:13-47 | the loops blend the padded bytes and trim trailing zeros down to one byte |
| KeySpace.InterpolateByteIs | Enterprise/RocksDBEngine/KeySpacePartitioner.cpp:32-36 | a blended byte is i/n of the way from the one to the other, rounded down |
| KeySpace.BoundedSplitIs | Enterprise/RocksDBEngine/KeySpacePartitioner.cpp:13-47 | a split point of a bounded range lies part of the way from byte to byte, both bounds padded with zeros, and ends in no zero unless it is one byte |
| KeySpace.UnboundedSplitIs | Enterprise/RocksDBEngine/KeySpacePartitioner.cpp:74-80 | a split point of an unbounded range is lower and one byte, i/n of the way to 255 |
| KeySpace.SplitPoints | Enterprise/RocksDBEngine/KeySpacePartitioner.cpp:68-84 | one split point per inner boundary, by appended byte when the range is unbounded and by interpolation otherwise |
| KeySpace.PartitionKeys | Enterprise/RocksDBEngine/KeySpacePartitioner.cpp:51-99 | adjacent ranges between the bounds; none for no partitions or an empty range |
| KeySpace.NoPartsIff | Enterprise/RocksDBEngine/KeySpacePartitioner.cpp:55-62 | there are no parts if and only if none are asked for or upper is given and not above lower |
| KeySpace.PartIs | Enterprise/RocksDBEngine/KeySpacePartitioner.cpp:86-96 | else there are n, the first from lower, the last to upper, each beginning at the split point that ends the one before |
| KeySpace.HitsExactly | Enterprise/RocksDBEngine/KeySpacePartitioner.cpp:51-99 | how many parts hold a key: one if it is in the range, plus one for each descent of the bounds past it |
| KeySpace.ExactlyOnceIff | Enterprise/RocksDBEngine/KeySpacePartitioner.cpp:51-99 | for a given number of parts they cover every key of the range exactly once and no other if and only if the bounds are sorted |
| KeySpace.BoundsAreSorted | Enterprise/RocksDBEngine/KeySpacePartitioner.cpp:72-84 | bounds are sorted when the range is unbounded, or when zero-padded upper is byte-wise at least lower and lower, unless a single byte, ends in no NUL |
| KeySpace.FallingByteDescends | Enterprise/RocksDBEngine/KeySpacePartitioner.cpp:31-37 | where a byte of upper is below lower's, 256 parts begin with a descent |
| KeySpace.TrailingZeroDescends | Enterprise/RocksDBEngine/KeySpacePartitioner.cpp:41-44 | where lower ends in a NUL that is not its only byte, 256 parts begin with a descent |
| KeySpace.SortedForAllIff | Enterprise/RocksDBEngine/KeySpacePartitioner.cpp:13-84 | the bounds are sorted for every number of parts if and only if that condition on the inputs holds |
| KeySpace.CoversOnceIff | Enterprise/RocksDBEngine/KeySpacePartitioner.cpp:51-99 | any number of parts covers each key of the range exactly once and no other if and only if that condition on the inputs holds |
| KeySpace.DescendingSplits | Enterprise/RocksDBEngine/KeySpacePartitioner.cpp:31-42 | a range whose parts cover one key twice, and one key outside it once |
| IndexFill.RunTask | Enterprise/RocksDBEngine/RocksDBBuilderIndexEE.cpp:50-75 | a task succeeds if and only if the snapshot opens and the index takes every insertion; it has then inserted its range in key order, and otherwise a prefix of it |
| IndexFill.FailureIsFinal | Enterprise/RocksDBEngine/RocksDBBuilderIndexEE.cpp:86-101 | a failing task fails wherever it stands, and no further step of any task makes the build succeed |
| IndexFill.LogIsInserted | Enterprise/RocksDBEngine/RocksDBBuilderIndexEE.cpp:48-96 | under any interleaving the index holds what the tasks have inserted, counting repeats |
| IndexFill.FillInsertsExactly | Enterprise/RocksDBEngine/RocksDBBuilderIndexEE.cpp:34-105 | after success each snapshot entry was inserted once if in range, plus once per descent of the bounds past it, and nothing else |
| IndexFill.FillMissesNothing | Enterprise/RocksDBEngine/RocksDBBuilderIndexEE.cpp:34-105 | after success every snapshot key of the range was inserted at least once |
| IndexFill.FillInsertsOnce | Enterprise/RocksDBEngine/RocksDBBuilderIndexEE.cpp:34-105 | exactly the keys of the range, exactly once, when the range is unbounded above or upper dominates lower |
| IndexFill.AllCanSucceed | Enterprise/RocksDBEngine/RocksDBBuilderIndexEE.cpp:86-104 | every fill has an interleaving in which all tasks succeed |
| IndexFill.FillsOnceIff | Enterprise/RocksDBEngine/RocksDBBuilderIndexEE.cpp:34-105 | for a given number of threads, every successful fill of every snapshot inserts the range exactly once if and only if the range is empty or its bounds are sorted |
| IndexFill.FillsOnceInputs | Enterprise/RocksDBEngine/RocksDBBuilderIndexEE.cpp:34-105 | with any number of threads that is so if and only if the range is empty or unbounded above, or upper dominates lower |
| IndexFill.CoversIffThreads | Enterprise/RocksDBEngine/RocksDBBuilderIndexEE.cpp:34-42 | a fill that reports success covers the range if and only if there is a thread or no key to cover |
| BuildLifecycle.ChangelogBuffer.Append | Enterprise/RocksDBEngine/ChangelogBuffer.cpp:25-37 | an entry is accepted at the end if and only if all sizes then stay within the budget |
| BuildLifecycle.TotalSizeSnoc | Enterprise/RocksDBEngine/ChangelogBuffer.cpp:10-23 | an entry is charged 105 bytes and the capacities of its three strings |
| BuildLifecycle.ChangelogBuffer.Clear | Enterprise/RocksDBEngine/ChangelogBuffer.cpp:57-61 | empties the buffer and its account |
| BuildLifecycle.EveryRunIsWellKept | Enterprise/RocksDBEngine/RocksDBBuilderIndexEE.cpp:98-162 | in every run of calls: at most one swap, only after every accepted write was applied in order and once, memory within budget |
| BuildLifecycle.AcceptedIff | Enterprise/RocksDBEngine/RocksDBBuilderIndexEE.cpp:107-118 | in every run a write is accepted, as the last, if and only if the mode is on, the build is filling and the budget is kept; a refused one leaves no trace |
| BuildLifecycle.PhaseIsEntered | Enterprise/RocksDBEngine/RocksDBBuilderIndexEE.cpp:28-162 | in every run, the one call and the one phase from which each phase is entered |
| BuildLifecycle.EffectsAre | Enterprise/RocksDBEngine/RocksDBBuilderIndexEE.cpp:98-162 | in every run, exactly which calls run the swap, apply writes and clear them, and begin and end a fill |
| BuildLifecycle.BuildKeepsItsWrites | Enterprise/RocksDBEngine/RocksDBBuilderIndexEE.cpp:107-162 | nothing is lost: writes made during a build that fit the budget are all applied in order before the swap, and the build completes |
| BuildLifecycle.SwapIsFilledIff | Enterprise/RocksDBEngine/RocksDBBuilderIndexEE.cpp:146-161 | in every run the swap publishes a filled index if and only if no fill call is running when it is made |
| BuildLifecycle.CompleteStaysIff | Enterprise/RocksDBEngine/RocksDBBuilderIndexEE.cpp:98-161 | in every run a completed build stays completed whatever is called if and only if no fill call is running |
| BuildLifecycle.FinishedStays | Enterprise/RocksDBEngine/RocksDBBuilderIndexEE.cpp:98-162 | a failed build, and a completed one with no fill running, keep their outcome through all further calls |
| BuildLifecycle.OrderlySwap | Enterprise/RocksDBEngine/RocksDBBuilderIndexEE.cpp:103-162 | if no swap is asked for while a fill runs, the swap follows a successful fill and a full apply, and a finished build keeps its outcome |
| BuildLifecycle.PrematureSwapThenFailure | Enterprise/RocksDBEngine/RocksDBBuilderIndexEE.cpp:98-101 | a run that ends failed although its swap callback has run |
| BuildLifecycle.Builder.StartFill | Enterprise/RocksDBEngine/RocksDBBuilderIndexEE.cpp:28-32 | begins a build if and only if the builder is idle, and changes nothing otherwise |
| BuildLifecycle.Builder.FinishFill | Enterprise/RocksDBEngine/RocksDBBuilderIndexEE.cpp:98-104 | a failed fill fails the build, whatever its state has become |
| BuildLifecycle.Builder.Buffer | Enterprise/RocksDBEngine/RocksDBBuilderIndexEE.cpp:107-118 | accepts a write if and only if the mode is on, the build is filling and all sizes stay within budget; an accepted entry is last in the changelog, a refused one changes nothing |
| BuildLifecycle.Builder.Apply | Enterprise/RocksDBEngine/RocksDBBuilderIndexEE.cpp:120-144 | applies the accepted writes in order up to the first refusal; clears them and moves on if there is none, keeps them and fails the build otherwise |
| BuildLifecycle.Builder.Swap | Enterprise/RocksDBEngine/RocksDBBuilderIndexEE.cpp:146-162 | calls back once, only after the changelog was applied; an exception fails the build |
| ThreadPool.EveryRunIsSound | Enterprise/RocksDBEngine/IndexBuilderThreadPool.cpp:20-65 | in every interleaving accepted tasks are taken once each in acceptance order, and each is run by one worker or was run |
| ThreadPool.ShutdownIff | Enterprise/RocksDBEngine/IndexBuilderThreadPool.cpp:67-70 | the pool is shut down if and only if shutdown was called |
| ThreadPool.SubmittedIff | Enterprise/RocksDBEngine/IndexBuilderThreadPool.cpp:46-65 | a submission that runs through is accepted, as the last, if and only if the pool is not shut down; one interrupted by a shutdown between its checks is refused |
| ThreadPool.WorkersSettle | Enterprise/RocksDBEngine/IndexBuilderThreadPool.cpp:20-44 | from every reachable state of a pool with a worker, steps of the workers alone empty it, and make all of them return if it is shut down |
| ThreadPool.AcceptedCanAllRun | Enterprise/RocksDBEngine/IndexBuilderThreadPool.cpp:20-87 | after such steps exactly the accepted tasks were run, each once |
| ThreadPool.ReturnedWorkerClosesPool | Enterprise/RocksDBEngine/IndexBuilderThreadPool.cpp:30-60 | once a worker has returned the queue stays empty and no submission is accepted |
| ThreadPool.AllReturnedMeansAllDone | Enterprise/RocksDBEngine/IndexBuilderThreadPool.cpp:67-87 | when all workers of a pool that has some have returned, executed equals accepted, and neither changes any more |
| WalTailer.ComputeShardIndex | Enterprise/Sharding/ShardingStrategyEE.cpp:24-35 | 32-bit FNV-1a of the key, modulo the number of shards |
| WalTailer.HashOfOneMore | Enterprise/Sharding/ShardingStrategyEE.cpp:24-35 | one more key byte is combined into the word, and the word multiplied modulo 2^32 |
| WalTailer.Tailer.IsSatelliteEntry | Enterprise/Replication/ShardWALTailer.cpp:69-84 | the cached answer is the resolver's; unknown collections are not satellites and are not cached |
| WalTailer.Tailer.BelongsToShard | Enterprise/Replication/ShardWALTailer.cpp:61-67 | the key's shard is this one, or there is only one |
| WalTailer.Tailer.Examine | Enterprise/Replication/ShardWALTailer.cpp:24-36 | yields the entries of the shard and records every entry's sequence |
| WalTailer.Tailer.Poll | Enterprise/Replication/ShardWALTailer.cpp:18-42 | returns, in order, the non-satellite entries of its shard in exactly the stretch it examined; it ends at the end of the log, with maxEntries found, or when it has seen all it gets to see, and no later |
| WalTailer.SelectedMembers | Enterprise/Replication/ShardWALTailer.cpp:28-32 | what a tailer yields of a stretch: its entries that are no satellites and whose key belongs to the shard |
| WalTailer.Tailer.SeekTo | Enterprise/Replication/ShardWALTailer.cpp:44-47 | stands before the first entry that reaches the sequence, all before it being smaller |
| WalTailer.TailerYieldsItsPart | Enterprise/Replication/ShardWALTailer.cpp:18-47 | with any chunk sizes and restarts at the last processed sequence plus one, a tailer yields its part of the log once and in order |
| WalTailer.Tailer.ExamineNext | Enterprise/Replication/ShardWALTailer.cpp:24-38 | one turn of the polling loop examines the current entry and moves past it |
| WalTailer.TailersSplitTheLog | Enterprise/Replication/ShardWALTailer.cpp:61-84 | the N tailers' parts are disjoint and together are exactly the non-satellite entries |
| WalTailer.TailersDeliverTheLog | Enterprise/Replication/ShardWALTailer.cpp:18-47 | N tailers, each with its own polls and restarts, have at the end of the log yielded exactly the non-satellite entries between them, each by its owner only and in log order |
| WalTailer.PollMoves | Enterprise/Replication/ShardWALTailer.cpp:22-39 | a poll with room for an entry and something to see moves on |
| WalTailer.PollsReachEnd | Enterprise/Replication/ShardWALTailer.cpp:18-47 | as many such polls as there are entries, with any restarts and other polls between them, bring a tailer to the end of the log |
| WalTailer.EnoughPollsDeliver | Enterprise/Replication/ShardWALTailer.cpp:18-47 | so N tailers that each make enough of them deliver the log between them |
| TailLoop.MessageBatcher.Add | Enterprise/Replication/MessageBatcher.cpp:17-24 | seals when the batch is full, with exactly batchSize entries and the provider's next number |
| TailLoop.MessageBatcher.Flush | Enterprise/Replication/MessageBatcher.cpp:26-31 | seals what is pending, if anything |
| TailLoop.MessageBatcher.Seal | Enterprise/Replication/MessageBatcher.cpp:41-55 | moves all pending entries into the batch and calls the provider once |
| TailLoop.AddAll | Enterprise/Replication/DC2DCReplicator.cpp:158-167 | batches plus pending grow by exactly the entries polled, and every batch handed on is full |
| TailLoop.Turn | Enterprise/Replication/DC2DCReplicator.cpp:155-175 | one turn keeps the account of what was polled; a partial batch is handed on only when the poll was empty, and then nothing stays pending |
| TailLoop.TurnsReachEnd | Enterprise/Replication/DC2DCReplicator.cpp:147-176 | with as many turns as there are entries left the loop gets to the end of the log |
| TailLoop.ShardTailLoop | Enterprise/Replication/DC2DCReplicator.cpp:147-182 | over any run the batches hold exactly what was polled, in order, with what was pending at shutdown; none is empty or exceeds batchSize, and the i-th has the provider's i-th number |
| SequenceNumbers.NumbersAreOneToM | Enterprise/Replication/SequenceNumberGenerator.cpp:6-43 | with probe, emplace and add as separate steps of any threads, the m numbers issued for a shard are exactly 1..m in the order of the adds |
| SequenceNumbers.CallReturnsNext | Enterprise/Replication/SequenceNumberGenerator.cpp:6-43 | a call that runs through returns the number behind the last one issued for its shard, wherever the other threads stand |
| SequenceNumbers.NoNumberTwice | Enterprise/Replication/SequenceNumberGenerator.cpp:6-11 | of two numbers issued for a shard the later is the larger |
| Checkpoint.Save | Enterprise/Replication/ReplicationCheckpoint.cpp:13-27 | the printing loop produces the text of the state for the map's iteration order |
| Checkpoint.TextIs | Enterprise/Replication/ReplicationCheckpoint.cpp:16-27 | the head and the end of the text, character by character |
| Checkpoint.LineIs | Enterprise/Replication/ReplicationCheckpoint.cpp:19-25 | each line of it, character by character |
| Checkpoint.ScanText | Enterprise/Replication/ReplicationCheckpoint.cpp:66-136 | the parser's loops compute the specified parse, errors included |
| Checkpoint.MissingIff | Enterprise/Replication/ReplicationCheckpoint.cpp:70-74 | the missing-key error is given if and only if the quoted word stands nowhere in the text |
| Checkpoint.MalformedIff | Enterprise/Replication/ReplicationCheckpoint.cpp:76-83 | the malformed-object error is given if and only if no brace follows the first such word; else the entries start behind the first brace |
| Checkpoint.KeyIsMissing | Enterprise/Replication/ReplicationCheckpoint.cpp:85-93 | no further quote ends the entries, and a quote without a partner is an error |
| Checkpoint.KeyIs | Enterprise/Replication/ReplicationCheckpoint.cpp:85-95 | a key is what stands between the next two quotes |
| Checkpoint.ColonIsMissing | Enterprise/Replication/ReplicationCheckpoint.cpp:97-107 | no colon behind a key, or a closing brace before it, ends the entries |
| Checkpoint.NumberIs | Enterprise/Replication/ReplicationCheckpoint.cpp:109-134 | behind colon and blanks: no digit is an error, digits of more than 64 bits are another, and others are the sequence |
| Checkpoint.EntriesAreTaken | Enterprise/Replication/ReplicationCheckpoint.cpp:84-139 | the entries before the end are put into the state one by one; the first error is the answer instead |
| Checkpoint.LastEntryCounts | Enterprise/Replication/ReplicationCheckpoint.cpp:134 | of several entries for one shard the last one counts |
| Checkpoint.ReplicationCheckpoint.Load | Enterprise/Replication/ReplicationCheckpoint.cpp:52-140 | replaces the tracker's state by the parse; a missing file and every failure leave it unchanged |
| Checkpoint.ParsesLines | Enterprise/Replication/ReplicationCheckpoint.cpp:82-136 | every printed line is read back in order, up to the closing brace |
| Checkpoint.SavedTextLoads | Enterprise/Replication/ReplicationCheckpoint.cpp:16-139 | loading the text saved for any finite map restores exactly that map, for every iteration order |
| Checkpoint.LoadedIdsHaveNoQuote | Enterprise/Replication/ReplicationCheckpoint.cpp:85-95 | no text whatever yields a shard id with a double quote |
| Checkpoint.RoundTripIff | Enterprise/Replication/ReplicationCheckpoint.cpp:16-139 | the round trip holds if and only if no shard id holds a double quote |
| AuditLog.EveryRunIsFifo | Enterprise/Audit/AuditLogger.cpp:44-111 | in every reachable state the events written, then the rest of the batch, then the buffer are the events logged, in order |
| AuditLog.LoggedAreLogCalls | Enterprise/Audit/AuditLogger.cpp:44-50 | the events logged in a run are those of its log calls, all of them, in order |
| AuditLog.StartedIff | Enterprise/Audit/AuditLogger.cpp:52-55 | the writer has started if and only if start was called |
| AuditLog.StopIsTaken | Enterprise/Audit/AuditLogger.cpp:57-63 | stop ends the running of a started logger and does nothing before start |
| AuditLog.RunningMoves | Enterprise/Audit/AuditLogger.cpp:52-58 | only start and stop change whether a logger runs |
| AuditLog.RunningWriterCatchesUp | Enterprise/Audit/AuditLogger.cpp:65-95 | while the logger runs, the writer left to itself gets everything logged so far written, in order |
| AuditLog.StopWritesEverythingBefore | Enterprise/Audit/AuditLogger.cpp:57-111 | when stop returns after start, every event logged before stop was called has been written, in order |
| AuditLog.WriterProgresses | Enterprise/Audit/AuditLogger.cpp:87-110 | every move of the writer after a stop lessens the moves it has left |
| AuditLog.StoppedWriterEnds | Enterprise/Audit/AuditLogger.cpp:57-63 | the writer of a stopped logger ends if nobody logs any more, so the join returns |
| BackupManifest.PrintJson | Enterprise/RocksDBEngine/RocksDBHotBackup.cpp:19-39 | the stream operations produce the specified text |
| BackupManifest.JsonIs | Enterprise/RocksDBEngine/RocksDBHotBackup.cpp:19-39 | the text, line by line and field by field |
| BackupManifest.ItemsAreSeparated | Enterprise/RocksDBEngine/RocksDBHotBackup.cpp:29-36 | a list is its quoted names in brackets, a comma and a blank between them |
| BackupManifest.PrintList | Enterprise/RocksDBEngine/RocksDBHotBackup.cpp:29-36 | the loop prints the quoted names, separated, in brackets |
| BackupManifest.ExtractStringField | Enterprise/RocksDBEngine/RocksDBHotBackup.cpp:46-59 | the text from the field's first marker to the next quote, or nothing |
| BackupManifest.ExtractUint64Field | Enterprise/RocksDBEngine/RocksDBHotBackup.cpp:66-83 | the run of digits behind the marker as a 64-bit number, zero if there is none, an exception if it does not fit |
| BackupManifest.ExtractBoolField | Enterprise/RocksDBEngine/RocksDBHotBackup.cpp:85-93 | whether the word true stands behind the marker |
| BackupManifest.ExtractStringArray | Enterprise/RocksDBEngine/RocksDBHotBackup.cpp:95-126 | the quoted texts between the marker and the next bracket |
| BackupManifest.ValueOfIs | Enterprise/RocksDBEngine/RocksDBHotBackup.cpp:46-53 | a value begins behind the first place of the text that reads the quoted field name, a colon, a blank and its opening |
| BackupManifest.ValueIsMissingIff | Enterprise/RocksDBEngine/RocksDBHotBackup.cpp:46-52 | and is missing if and only if the text reads that nowhere |
| BackupManifest.HasFieldIff | Enterprise/RocksDBEngine/RocksDBHotBackup.cpp:61-64 | a field is there if and only if its quoted name stands somewhere in the text |
| BackupManifest.StringIs | Enterprise/RocksDBEngine/RocksDBHotBackup.cpp:53-59 | on any text, a string reaches to the next quote and is empty without one |
| BackupManifest.NumberIs | Enterprise/RocksDBEngine/RocksDBHotBackup.cpp:73-82 | on any text, a number is the value of the digits there, zero for none, out of range beyond 64 bits |
| BackupManifest.BoolIs | Enterprise/RocksDBEngine/RocksDBHotBackup.cpp:91-92 | on any text, a boolean is true if and only if the word stands there |
| BackupManifest.ListIs | Enterprise/RocksDBEngine/RocksDBHotBackup.cpp:103-108 | on any text, a list reaches to the next bracket and is empty without one |
| BackupManifest.ItemsAre | Enterprise/RocksDBEngine/RocksDBHotBackup.cpp:111-124 | its items stand between pairs of quotes, and a quote without a partner ends it |
| BackupManifest.MissingIs | Enterprise/RocksDBEngine/RocksDBHotBackup.cpp:50-52 | what a missing field extracts to |
| BackupManifest.Record.Print | Enterprise/RocksDBEngine/RocksDBHotBackup.cpp:19-39 | a manifest object prints as its value does |
| BackupManifest.Record.Assign | Enterprise/RocksDBEngine/RocksDBHotBackup.cpp:143-149 | the fields in order; a number out of range leaves the later ones as they were |
| BackupManifest.Record.Parse | Enterprise/RocksDBEngine/RocksDBHotBackup.cpp:130-159 | the status, message included, and every field of the output object, in each of the seven outcomes |
| BackupManifest.FindsField | Enterprise/RocksDBEngine/RocksDBHotBackup.cpp:46-53 | in any rendered list of fields, the first occurrence of a field's marker is the structural one, whatever the values before it |
| BackupManifest.PrintedIsParsed | Enterprise/RocksDBEngine/RocksDBHotBackup.cpp:19-159 | parsing the printed text gives the manifest back, whatever the output held before |
| BackupManifest.ParsedIsPrintable | Enterprise/RocksDBEngine/RocksDBHotBackup.cpp:130-159 | whatever text is parsed with success, the manifest is one the format can carry |
| BackupManifest.RoundTripIff | Enterprise/RocksDBEngine/RocksDBHotBackup.cpp:19-159 | the round trip holds if and only if no string holds a double quote, no name a bracket, and id and timestamp are not empty |
| BackupManifest.ReprintIsStable | Enterprise/RocksDBEngine/RocksDBHotBackup.cpp:130-159 | printing what was parsed and parsing again changes nothing |

## Left out

- Floating point: scores are reals, and the fractions of the key-space split and the Jaccard quotient are exact; rounding and NaN are not modelled.
- That a sort whose first path names BM25, highest first, ranks by score is an assumption of the plan lemmas.
- SharedSearch.SharedManagerIsExact: the shared iterators are a state machine on values; the scanning loop `WandSearch.Search` is proved for one iterator with a manager of its own.
- WandSearch.Search: is about callers that score each returned document once; a caller that scores twice feeds the heap twice and is promised nothing.
- ReplicationApplier.Applier.ApplyMessage: counters are unbounded naturals; the wrap of 64-bit totals is not modelled, that of sequence numbers is.
- The write callback is a sequence of return codes, without effect when it fails; the mutex makes each call of the applier atomic.
- The conversion of a batch into messages for the applier: the repository has none, so the channel carries numbered messages.
- MinHash: that 2^61 - 1 is prime is a hypothesis of the lemmas that need it, and the bytes of a seed's index are in little-endian order.
- The AES block function is an uninterpreted function from counter blocks to 16 bytes; OpenSSL errors, key handling and the random generation of initial vectors are left out.
- CtrCipher.CtrCipherStream.CtrTransform: takes at most 2^31 - 1 bytes a call, as the cast to a signed 32-bit length does.
- `KeySpacePartitioner::computeSplitPoints`: the build does not use it.
- IndexFill.RunTask: one task is imperative; all tasks together are a state machine on values, and a task that stops for any reason is one failing step.
- ThreadPool.WorkersSettle: says that the workers can finish, not that they will; the shutdown flag is set without the mutex, so that sleeping workers wake up is not claimed.
- BuildLifecycle.Builder.Buffer: one atomic step; in the source the state is read before the append, so a write can slip in while the changelog is applied.
- BuildLifecycle.ChangelogBuffer.Append: string capacities are given numbers, and the memory account is an unbounded natural.
- SequenceNumbers.NumbersAreOneToM: without `reset`, and without the wrap of a 64-bit counter.
- AuditLog.StopWritesEverythingBefore: one stop after one start; outputs, formatting and the writer's wake-up times are not modelled.
- Lag records, timestamps of batches and the sleep between polls in `shardTailLoop`.
- WalTailer.Tailer.Poll: stopping a tailer from another thread is a bound on how many entries a poll gets to see.
- Files, renames, clocks and threads as objects of the operating system; a checkpoint file is its text, or absent.
- Sockets, TLS, LDAP, remote copies, REST handlers, program options, masking, smart keys, satellite predicates, round robin and framing: wrappers, or code that would add only easy members.
