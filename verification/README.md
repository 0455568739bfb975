# Bootcamp exercises: a verified model

This project models the bootcamp repository's programs with the hardest promises and proves those promises.

* **Blockchain files (day 4, with the day 1 reader's rule).** A chain of blocks is validated, written in chunks with a
  balance map after each and a header of offsets, read back by one thread per chunk, and stitched by hash. The
  sequential reader is the specification. `Ledger`, `Supply`, `Codec`, `BalanceMapCodec` and `Blocks` model
  transactions, balances, the binary formats and the mutable block object; `Reading` and `SequentialReader` the
  sequential readers; `Layout` and `ChainWriter` the writer; `Indexed`, `Stitching`, `IndexedTheorem`, `ChunkReader`, `Relink` and
  `IndexedReader` the stitching reader; `ThreadRuns` its threads under every schedule; `WriterReader`,
  `FileRewriter` and `GeneratorReader` put writer, rewriting program or generator and reader together. `Generator` is
  the chain generator.
* **Shared memory.** `BlockHash` is the mutex-guarded block hasher, `FindMax` the partitioned maximum, `ThreadManager`
  the table of threads.
* **Array algorithms.** `Matrix` is the tiled multiplication and `MergeSort` the tiled merge sort.

Objects that the programs update in place are classes with the same fields, loops are loops with invariants, and every
such method is tied to a function or predicate on values about which the lemmas speak. What such a function computes is
also stated without it: in numbers (`ChainWriter.ChunkEndsAre`, `BlockHash.WordAt`, `Codec.TxnFields`), field by field
(`Ledger.BlockValidIff`, `Ledger.BlockPayment`), by laws (`Matrix.ProductAssociates`) or over whole runs
(`ThreadManager.LaunchRunsGiven`). Concurrent programs are step
systems or methods that choose arbitrarily which thread moves next.

Choices of the model, and what a reader may not expect:

* SHA-256 and RSA verification are arbitrary functions (`Crypto`). Where block hashes must be distinct and non-zero this
  is a hypothesis on the blocks at hand (`LinkedSegment`, `DistinctHashes`, `NoZeroDigest`).
* A file is a sequence of bytes. A map that a program iterates in hash or pointer order is visited in any order.
* Amounts are 64-bit and wrap; `Supply` proves that on chains the readers accept they never do. The length of a chain
  is at most 2^32, the range of its field.
* Assertions of the programs are proved where the caller can be shown to meet them (the writer's positions, the
  generator's balances, the thread manager's slots). Otherwise they are preconditions: at least two chunks for the
  writer, at most 32 chunks for the stitching reader, 1 to 64 threads for the searches, which the programs check.
* Some promises hold only under a condition, which is proved to be exact:
  * The stitching reader agrees with the sequential one only if the map stored after an empty chunk repeats the one
    before, because that map is never checked but is the start of the next chunk (`IndexedTheorem.IndexedIffSequential`;
    `IndexedTheorem.EmptyChunkSmuggles` has a file).
  * The tiled multiplication is right for all matrices only if the tile size divides the size
    (`Matrix.TiledIsRightIff`).
  * The slices of the parallel maximum lie in the array only if there are no more threads than elements
    (`FindMax.SlicesInBoundsIff`; `FindMax.MoreThreadsThanElements` has numbers).
  * The writer's assertion on the number of offsets needs at least as many blocks as chunks
    (`ChainWriter.EnoughEndsIff`).
  * The two block readers differ on more than 64 transactions and on sizes out of range
    (`Codec.StreamReadsWhatBufferReads`, `Codec.BufferReadsWhatStreamReads`; `Codec.ManyTxnsSplitReaders` and
    `Codec.BigKeySplitsReaders` have buffers).
  * The thread manager numbers its threads 0, 1, 2, ... only as long as `wait()` finds nothing running
    (`ThreadManager.CreationsCount`; `ThreadManager.NumberUsedAgain` has a run).
* The generator works for one and for 3 to 64 transactions a block. With two it can miss a change address
  (`Generator.TwoTransactionsFail`), with more than 64 it can fill a block beyond what the writer takes
  (`Generator.ManyTransactionsFail`), and with none it takes a remainder by zero.
* The generator's own amounts may fall behind the balances, because change is assigned where the ledger adds
  (`Generator.TrackingCanFallBehind`). They never exceed them, which is what its assertions need.
* A slot of the thread manager that was joined by `wait(tid)` is lost for good (`ThreadManager.StuckForever`).
* The block hasher reads four bytes at a time but counts in steps of eight, so only the first half of each block enters
  its hash (`BlockHash.UnreadBytesIgnored`). A change of one word that is read changes the hash when the mixing step is
  injective (`BlockHash.OneReadWordMatters`), a change of two need not (`BlockHash.TwoWordsCancel`).

## Model

| member | source | states |
|---|---|---|
| `IndexedTheorem.IndexedIffSequential` | day4/challenge-problems/src/readindexed.cpp:203-269 | for every hash-linked chain in chunks of which only the first must hold a block: the stitched report has the full length and the maps after empty chunks repeat the ones before, if and only if the sequential reader accepts every block and every stored map equals its balances there up to zero entries; a report of the full length is always that of the last block |
| `IndexedTheorem.ReportedIffChunksSound` | day4/challenge-problems/src/readindexed.cpp:85-137 | what the reader decides: the full length is reported if and only if each chunk that holds a block is valid from the map stored before it and ends in the map stored after it, up to zeros |
| `IndexedTheorem.EmptyChunkSmuggles` | day4/challenge-problems/src/readindexed.cpp:85-92 | a file of two blocks with an empty chunk between them, whose map holds money no block paid: it is reported whole, and the sequential reader disagrees |
| `IndexedTheorem.SoundIffChunksSound` | day4/challenge-problems/src/readindexed.cpp:85-137 | stored maps are right in sequence if and only if the chunks are sound one by one and the maps after empty chunks repeat the ones before |
| `IndexedTheorem.EmptyChunkSound` | day4/challenge-problems/src/readindexed.cpp:91-136 | after an empty chunk the map is right exactly when it repeats the one before it, which the reader does not check |
| `IndexedReader.ReadIndexed` | day4/challenge-problems/src/readindexed.cpp:146-269 | the whole reader on objects: it prints the last hash with the full length exactly when every chunk that holds a block is sound, and with the condition on empty chunks that is the sequential verdict of `IndexedIffSequential`; "invalid" is printed exactly when some head names no tail or no chunk left a tail; anything else printed is a longest stitched tail |
| `ThreadRuns.EveryScheduleReportsIff` | day4/challenge-problems/src/readindexed.cpp:203-269 | the equivalence of `IndexedIffSequential` for the heads and tails that any complete interleaving of the chunk threads leaves |
| `WriterReader.RewriteThenRead` | day4/challenge-problems/src/rewritechain.cpp:10-104 | a valid chain rewritten into 2 to 32 chunks and read back prints the tip's hash and length, and so does the sequential reader on the same blocks |
| `FileRewriter.RewriteFileThenRead` | day4/challenge-problems/src/rewritechain.cpp:106-172 | from file to file: the file of a valid linked chain, read by the rewriting program, rewritten and read by the stitching reader, gives the line the sequential reader prints for the file |
| `FileRewriter.ReadFile` | day4/challenge-problems/src/rewritechain.cpp:138-165 | the reading loop leaves the last block on the objects of all the others, with their balances and lengths, and its assertion holds |
| `FileRewriter.ReadForRewrite` | day4/challenge-problems/src/rewritechain.cpp:142-161 | one round: the block enters the map before and after its validation, and is linked to the block below |
| `FileRewriter.ReadIsRewritable` | day4/challenge-problems/src/rewritechain.cpp:166-170 | what the loop leaves meets the assertions of the writer |
| `WriterReader.EveryScheduleReportsRewritten` | day4/challenge-problems/src/readindexed.cpp:112-137 | over the writer's chunks of a valid chain every complete interleaving finds all heads and reports the last block with the full length, as the sequential reader does |
| `WriterReader.RewrittenChainAgrees` | day4/challenge-problems/src/rewritechain.cpp:77-99 | a written file is in the indexed format for the chunks it was cut into, those chunks put together are the chain, and sequential reader and stored maps agree |
| `WriterReader.SequentialReportsWhole` | day4/challenge-problems/src/readchain.cpp:44-63 | on a valid linked chain the sequential reader reports the last block and the number of blocks |
| `WriterReader.CutIsChunked` | day4/challenge-problems/src/rewritechain.cpp:36-43 | the chunks of the writer are non-empty and in order are the chain |
| `WriterReader.CutIsSound` | day4/challenge-problems/src/rewritechain.cpp:89-99 | each map stored after a chunk is that of the sequential run up to there |
| `IndexedTheorem.ReportIsSound` | day4/challenge-problems/src/readindexed.cpp:244-269 | a report of the full length implies that every chunk that holds a block is sound, and names the last block of the chain |
| `IndexedTheorem.SoundIsReported` | day4/challenge-problems/src/readindexed.cpp:244-269 | sound chunks lead to a report of the last block with the full length |
| `IndexedTheorem.LengthBound` | day4/challenge-problems/src/readindexed.cpp:252-262 | no stitched length exceeds the position of its block in the chain, and it reaches that position only if its chunk is valid up to it and all chunks below are sound |
| `IndexedTheorem.SoundLength` | day4/challenge-problems/src/readindexed.cpp:252-262 | with sound chunks the stitched length of every block is its position in the chain |
| `IndexedTheorem.SoundTail` | day4/challenge-problems/src/readindexed.cpp:129-136 | a sound chunk that holds a block leaves its last block as tail and, unless it is the first chunk, its first block as head |
| `IndexedTheorem.SoundHeadsFound` | day4/challenge-problems/src/readindexed.cpp:244-253 | with sound chunks every head finds the tail it names |
| `IndexedTheorem.AllAcceptedIff` | day4/challenge-problems/src/readchain.cpp:44-58 | the sequential reader accepts all blocks of a linked segment if and only if the segment is valid from empty balances, and then accepts them as one chain |
| `IndexedTheorem.SoundIffSequentialAgrees` | day4/challenge-problems/src/readindexed.cpp:85-92 | stored maps that are right in sequence are the same as sequential acceptance with right maps |
| `IndexedTheorem.TailBefore` | day4/challenge-problems/src/readindexed.cpp:244-251 | a tail named by the first block of a chunk is the last block of the nearest chunk below that holds one |
| `Stitching.SamePlace` | day4/challenge-problems/src/readindexed.cpp:129-132 | a block hash names one place in the chunked chain |
| `Stitching.ChunkLinked` | day4/challenge-problems/src/readindexed.cpp:99-110 | each chunk is itself hash-linked and its first block names the last block of the nearest chunk below that holds one |
| `Indexed.AcceptedOnSegment` | day4/challenge-problems/src/readindexed.cpp:100-128 | whatever a chunk accepts is one of its blocks, linked to nothing, to the made-up block or to the block just before it |
| `Indexed.ValidSegmentAccepted` | day4/challenge-problems/src/readindexed.cpp:100-128 | a segment that is valid from its start balances is accepted block for block |
| `Indexed.ChainNoLonger` | day4/challenge-problems/src/readindexed.cpp:100-128 | the chain of an accepted block cannot be longer than the blocks read up to it |
| `Indexed.AllAcceptedIsValid` | day4/challenge-problems/src/readchain.cpp:44-58 | if all blocks of a linked segment are accepted the segment is valid |
| `ChunkReader.ReadChunk` | day4/challenge-problems/src/readindexed.cpp:75-137 | the objects made stand for the accepted blocks of the chunk; the shared set gets exactly the first accepted non-coinbase object, the shared map exactly the last accepted one if its balances match the stored map; the returned length is that tail's or 0 |
| `ChunkReader.ReadChunkBlocks` | day4/challenge-problems/src/readindexed.cpp:94-128 | the block loop of a chunk: parsed blocks, their links, the tip and the head are those of the value-level run |
| `ChunkReader.AddHead` | day4/challenge-problems/src/readindexed.cpp:114-119 | the first accepted block enters the set of heads unless it is a coinbase block |
| `ChunkReader.Shared.constructor` | day4/challenge-problems/src/readindexed.cpp:178-180 | heads and tails start empty |
| `IndexedReader.ReadAllChunks` | day4/challenge-problems/src/readindexed.cpp:203-240 | after all chunks the objects, heads and tails are those of the separate chunk runs, and no object of one chunk is linked into another |
| `IndexedReader.ReadOneChunk` | day4/challenge-problems/src/readindexed.cpp:203-217 | one more chunk keeps what is known of the chunks before it |
| `IndexedReader.NoCycle` | day4/challenge-problems/src/readindexed.cpp:244-253 | relinking cannot close a cycle: a head names only a tail of a lower chunk, however many empty ones lie between |
| `IndexedReader.HeadsFoundIff` | day4/challenge-problems/src/readindexed.cpp:244-253 | the head objects find their tail objects exactly when the head values do |
| `IndexedReader.ChunkDecodes` | day4/challenge-problems/src/readindexed.cpp:85-97 | each header entry leads to the bytes of its chunk and of its map |
| `Relink.RelinkHeads` | day4/challenge-problems/src/readindexed.cpp:243-253 | the loop over the heads: every head is put on the tail it names, and the verdict is that all of them found one |
| `Relink.ChooseTip` | day4/challenge-problems/src/readindexed.cpp:255-263 | lengths are recomputed for all tails in any order and a longest one is chosen; numbers given before are not disturbed |
| `Relink.Renumber` | day4/challenge-problems/src/readindexed.cpp:257-258 | renumbering one chain leaves the number of a tip found before |
| `Relink.PathDown` | day4/challenge-problems/src/blockchain.cpp:249-257 | from every object the links lead down to a bottom block, so the recursion of `recompute_length` ends, and the stitched length counts that path |
| `Relink.PathUnique` | day4/challenge-problems/src/blockchain.cpp:249-257 | there is one path down from a block |
| `ThreadRuns.RunInv` | day4/challenge-problems/src/readindexed.cpp:112-136 | in every reachable state: mutual exclusion, each thread's own state is that of its chunk run alone, and heads and tails hold exactly what the threads past their insertions put there |
| `ThreadRuns.EveryScheduleAgrees` | day4/challenge-problems/src/readindexed.cpp:112-136 | all complete schedules end with the same heads and tails, those of the separate chunk runs |
| `ThreadRuns.RunsAreBounded` | day4/challenge-problems/src/readindexed.cpp:100-136 | no schedule has more steps than one a block and eight a chunk, nor than four a block and five a chunk |
| `ThreadRuns.SomeThreadCanMove` | day4/challenge-problems/src/readindexed.cpp:115-133 | until all threads have finished one of them can move: no deadlock |
| `ThreadRuns.StepShares` | day4/challenge-problems/src/readindexed.cpp:115-133 | each step keeps the account of what the shared set and map hold |
| `ThreadRuns.ChunksHaveDistinctTails` | day4/challenge-problems/src/readindexed.cpp:129-132 | two chunks of one linked chain never write the same key of the shared map |
| `ChainWriter.RewriteChain` | day4/challenge-problems/src/rewritechain.cpp:10-104 | the bytes written are the header of offsets, then each chunk followed by the balances of its last block; with q = length / chunks, chunk c is the blocks from q c up to q (c + 1), and the last chunk all from q (chunks - 1) on |
| `ChainWriter.TrackBack` | day4/challenge-problems/src/rewritechain.cpp:15-34 | both passes end and give the tip's ancestors root first, as many as `length` says |
| `ChainWriter.MapSuccessors` | day4/challenge-problems/src/rewritechain.cpp:15-24 | the map built downwards sends every ancestor to its successor and has `length` entries |
| `ChainWriter.FollowSuccessors` | day4/challenge-problems/src/rewritechain.cpp:27-34 | walking the map upwards lists the chain from the bottom |
| `ChainWriter.ComputeChunkEnds` | day4/challenge-problems/src/rewritechain.cpp:36-43 | with q = n / chunks > 0 the ends are the last block and the numbers one below q, 2 q, ..., (chunks - 1) q; with more chunks than blocks they are 2^32 - 1, by wrap-around, and the last block |
| `ChainWriter.ChunkEndsAre` | day4/challenge-problems/src/rewritechain.cpp:36-43 | in numbers: e is a chunk end if and only if it is the last block, or e + 1 is q, 2 q, ... or (chunks - 1) q |
| `ChainWriter.ChunkEndsWrapped` | day4/challenge-problems/src/rewritechain.cpp:37-43 | with fewer blocks than chunks only 2^32 - 1 and the last block are chunk ends |
| `ChainWriter.WrittenEvenly` | day4/challenge-problems/src/rewritechain.cpp:51-64 | every chunk but the last has exactly length / chunks blocks, in chain order, the last one has the rest, and the map after each is that of its last block |
| `ChainWriter.EnoughEndsIff` | day4/challenge-problems/src/rewritechain.cpp:66-68 | the assertions on the number of offsets hold if and only if there are at least as many blocks as chunks |
| `ChainWriter.TooManyChunks` | day4/challenge-problems/src/rewritechain.cpp:37-43 | with more chunks than blocks all chunk ends but the last wrap out of range |
| `ChainWriter.EndsChunk` | day4/challenge-problems/src/rewritechain.cpp:53-63 | inside a chunk only its last block is a chunk end |
| `ChainWriter.EndsCount` | day4/challenge-problems/src/rewritechain.cpp:37-43 | the chunk ends of a large enough chain are as many as the chunks |
| `ChainWriter.ComputeOffsets` | day4/challenge-problems/src/rewritechain.cpp:45-64 | the first pass computes each chunk's offset, map offset and map size from sizes alone |
| `ChainWriter.WriteFile` | day4/challenge-problems/src/rewritechain.cpp:80-99 | the second pass writes exactly the laid out file, and the stream position at each map is the offset computed for it |
| `ChainWriter.MapLandsAt` | day4/challenge-problems/src/rewritechain.cpp:94-95 | the bytes before a map end where the first pass put that map |
| `ChainWriter.CutAt` | day4/challenge-problems/src/rewritechain.cpp:51-64 | chunk c holds the blocks from (n / chunks) c up to (n / chunks) (c + 1), the last one up to n, and is not empty |
| `ChainWriter.MapsAt` | day4/challenge-problems/src/rewritechain.cpp:93-97 | the map after chunk c is that of the block before the next boundary |
| `Layout.OffsetsTile` | day4/challenge-problems/src/rewritechain.cpp:49-64 | chunks and maps tile the file from the end of the header to its end, without gap or overlap |
| `Layout.FileIsIndexed` | day4/challenge-problems/src/rewritechain.cpp:77-99 | every header entry of a written file leads to its chunk and its map, as the reader will decode them |
| `Layout.HeaderRoundTrip` | day4/challenge-problems/src/readindexed.cpp:37-73 | the extracted header is the one written, and its size is the bytes it took |
| `Layout.HeaderFields` | day4/challenge-problems/src/readindexed.cpp:37-73 | the place of each number of the header: the count, all chunk offsets, all map offsets, all map sizes |
| `Layout.WriteParsedHeader` | day4/challenge-problems/src/readindexed.cpp:37-73 | a header that was extracted writes back to the bytes it was taken from |
| `Layout.ExtractHeader` | day4/challenge-problems/src/readindexed.cpp:37-73 | failure or a header of three vectors of equal length that fit in the data |
| `Layout.HeaderAt` | day4/challenge-problems/src/rewritechain.cpp:53-60 | the entries of the header are the chunk offset, map offset and map size |
| `Layout.BodyBytesSize` | day4/challenge-problems/src/rewritechain.cpp:49-64 | the sizes added up by the first pass are the lengths of the bytes |
| `SequentialReader.ReadChain` | day4/challenge-problems/src/readchain.cpp:41-63 | the line printed is the hash and length of the block accepted last, or "invalid" when none was, for every byte buffer |
| `SequentialReader.ReadChainLongest` | day1/readchain.cpp:41-68 | the line printed is that of the first accepted block of maximum length |
| `SequentialReader.ReadNext` | day4/challenge-problems/src/readchain.cpp:45-50 | a parsed block is linked to the latest accepted block of the hash it names and accepted exactly if it validates |
| `Reading.LongestTipIsFirstMaximum` | day1/readchain.cpp:48-55 | the day 1 tip is the first accepted block of maximum length |
| `Reading.ReadKeepsInvariant` | day1/readchain.cpp:43-63 | at every point of the scan each accepted block sits on blocks accepted earlier, its length counts its chain, and its balances are those of validating that chain from scratch |
| `Reading.AcceptKeepsInvariant` | day4/challenge-problems/src/readchain.cpp:47-50 | accepting or ignoring one block keeps that invariant |
| `Reading.AcceptedWereSigned` | day4/challenge-problems/src/transaction.cpp:67-114 | whatever the file holds, in an accepted block every transaction has an amount, the address of its key as source, the digest of its fields as hash and a signature its key verifies, and the block's hash is the digest of its parts |
| `Reading.AcceptedWereValidated` | day4/challenge-problems/src/readchain.cpp:44-50 | each accepted block was validated from the balances of the block it is linked to |
| `Reading.LatestIsLast` | day4/challenge-problems/src/readchain.cpp:47-50 | the map holds for each hash the block of it that was accepted last |
| `Reading.AcceptedSupply` | day4/challenge-problems/src/transaction.cpp:126-140 | every accepted block holds at most 100 per block of its chain, exactly that unless some transaction pays itself, and no 64-bit sum wrapped |
| `Ledger.BalanceMapsEqual` | day4/challenge-problems/src/readindexed.cpp:32-35 | true exactly when the two maps give every address the same amount, absent counting as zero |
| `Ledger.IncludedIn` | day4/challenge-problems/src/readindexed.cpp:11-30 | true exactly when every entry of the first map has the same amount in the second, absent counting as zero |
| `Ledger.SameMoneyEquivalence` | day4/challenge-problems/src/readindexed.cpp:32-35 | the relation is reflexive, symmetric and transitive |
| `Ledger.ValidateCongruence` | day4/challenge-problems/src/blockchain.cpp:56-95 | validation from maps equal up to zeros has the same verdict and ends in maps equal up to zeros |
| `Ledger.ChainCongruence` | day4/challenge-problems/src/blockchain.cpp:56-95 | the same for whole chains |
| `Ledger.RunTxnsCongruence` | day4/challenge-problems/src/blockchain.cpp:65-77 | the same for the transaction loop |
| `Ledger.UpdateCongruence` | day4/challenge-problems/src/transaction.cpp:126-140 | the same for one update |
| `Ledger.AvailabilityCongruence` | day4/challenge-problems/src/transaction.cpp:116-124 | the availability test respects equality up to zeros if and only if the amount is not 0, which is why the check on the amount matters |
| `Ledger.ChainRunSplit` | day4/challenge-problems/src/blockchain.cpp:114-121 | validating a chain is validating its first part and then the rest from the balances reached |
| `Ledger.ChainRunPrefix` | day4/challenge-problems/src/blockchain.cpp:114-121 | every prefix of a valid chain is valid |
| `Ledger.BlockValidIff` | day4/challenge-problems/src/blockchain.cpp:56-95 | a block is valid if and only if its hash is the digest of its parts, and each transaction has an amount, the address of its key as source, the digest of its fields as hash, a signature its key verifies, and is covered by what those before it left |
| `Ledger.RunTxnsIff` | day4/challenge-problems/src/blockchain.cpp:65-77 | the transaction loop succeeds if and only if each transaction is valid and covered by what those before it left |
| `Ledger.BlockPayment` | day4/challenge-problems/src/transaction.cpp:126-140 | each payment of a valid block is covered, clears its source and adds amount and change, modulo 2^64, at the two other addresses, and touches no other |
| `Ledger.BlockReward` | day4/challenge-problems/src/blockchain.cpp:78-79 | the payments start from the balances given, and 100 is added to the reward address after the last |
| `Ledger.UpdateAt` | day4/challenge-problems/src/transaction.cpp:126-140 | address for address, what one update leaves |
| `Ledger.TxHashesAt` | day4/challenge-problems/src/blockchain.cpp:38-41 | hash i of the transactions is at byte 32 i of what is hashed |
| `Supply.BoundedSupply` | day4/challenge-problems/src/blockchain.cpp:56-95 | rewards paid are held or were burned: total plus burned is 100 per block, and every 64-bit addition on the way is exact |
| `Supply.SupplyIsFullIff` | day4/challenge-problems/src/transaction.cpp:126-140 | the balances sum to 100 per block if and only if no transaction of the chain pays its amount or a non-zero change to its own source |
| `Supply.UpdateTotal` | day4/challenge-problems/src/transaction.cpp:126-140 | one update keeps the total up to what it burns by erasing the source last |
| `Supply.UpdateErasesFirst` | day4/challenge-problems/src/transaction.cpp:126-140 | erasing the source last is erasing it first and dropping the credits to it |
| `Supply.SmallTotalFits` | day4/challenge-problems/src/transaction.cpp:133-135 | neither addition wraps when twice the total fits 64 bits |
| `Supply.RunTxnsTotal` | day4/challenge-problems/src/blockchain.cpp:65-77 | the transaction loop keeps the total up to what is burned, with exact additions |
| `Supply.BurnedIffPaysItself` | day4/challenge-problems/src/transaction.cpp:126-140 | money is burned exactly when some transaction pays its own source |
| `Blocks.Block.constructor` | day4/challenge-problems/src/blockchain.cpp:6-12 | an empty coinbase block of length 1 |
| `Blocks.Block.After` | day4/challenge-problems/src/blockchain.cpp:14-21 | a block on top of another: its length, hash link and balances |
| `Blocks.Block.IsCoinbase` | day4/challenge-problems/src/blockchain.cpp:23-33 | true exactly for the all-zero predecessor hash |
| `Blocks.Block.ComputeBlockHash` | day4/challenge-problems/src/blockchain.cpp:35-49 | the digest is over the hashes of the transactions in order, the reward address and the predecessor hash |
| `Blocks.Block.SetHash` | day4/challenge-problems/src/blockchain.cpp:51-54 | the stored hash becomes the digest |
| `Blocks.Block.Validate` | day4/challenge-problems/src/blockchain.cpp:56-95 | verdict and final balances are those of validating from the predecessor's balances, and the flag records the verdict; after a true verdict the hash is the digest of all parts, and each transaction has an amount, the address of its key as source, the digest of its fields as hash, and a signature its key verifies |
| `Blocks.Block.AddTransaction` | day4/challenge-problems/src/blockchain.cpp:97-112 | a checked transaction is added and spent if and only if it has an amount, the address of its key as source, the digest of its fields as hash, a signature its key verifies, and is covered; an unchecked one is added without spending |
| `Blocks.Block.ResetBalances` | day4/challenge-problems/src/blockchain.cpp:114-121 | balances become the predecessor's, or none |
| `Blocks.Block.SetPrevBlock` | day4/challenge-problems/src/blockchain.h:62-68 | link, length and balances; a null link keeps the length |
| `Blocks.Block.Size` | day4/challenge-problems/src/blockchain.cpp:123-133 | the size of the block's bytes |
| `Blocks.Block.Write` | day4/challenge-problems/src/blockchain.cpp:135-151 | the bytes appended are the block's |
| `Blocks.Block.Read` | day4/challenge-problems/src/blockchain.cpp:192-247 | for every buffer and size: 0 exactly when parsing fails, else the bytes consumed, all fields, the link found in the map, and the length that follows from it |
| `Blocks.Block.ReadHeader` | day4/challenge-problems/src/blockchain.cpp:203-219 | count, reward address and both hashes come from their fixed places |
| `Blocks.Block.ReadTxns` | day4/challenge-problems/src/blockchain.cpp:221-232 | the transaction loop ends for every count, negative ones included, and never reads past the size given |
| `Blocks.Block.RecomputeLength` | day4/challenge-problems/src/blockchain.cpp:249-257 | the recursion ends and numbers the chain from 1 at the bottom |
| `Blocks.PathDistinct` | day4/challenge-problems/src/blockchain.cpp:249-257 | the blocks of a chain are distinct objects |
| `Codec.ParseBlockWritten` | day4/challenge-problems/src/blockchain.cpp:192-247 | the buffer reader recovers every field of a written block and takes exactly its bytes, whatever follows |
| `Codec.StreamBlockWritten` | day4/challenge-problems/src/blockchain.cpp:153-190 | the stream reader does too |
| `Codec.ParseChainWritten` | day4/challenge-problems/src/readchain.cpp:44-58 | the outer loop over concatenated blocks recovers exactly the list |
| `Codec.WriteParsedChain` | day4/challenge-problems/src/readchain.cpp:44-62 | whatever the buffer holds, the blocks read are those it starts with, up to the first place where no block parses |
| `Codec.TxnFields` | day4/challenge-problems/src/transaction.cpp:150-171 | the place of each field of a written transaction: key size, signature size, amount, key, source, destination, change, hash, signature |
| `Codec.BlockFields` | day4/challenge-problems/src/blockchain.cpp:135-151 | the place of each part of a written block: count, reward address, predecessor hash, hash, transactions |
| `Codec.OneAfterTheOther` | day4/challenge-problems/src/blockchain.cpp:147-149 | transactions, and blocks, are written one after the other |
| `Codec.WriteParsedBlock` | day4/challenge-problems/src/blockchain.cpp:192-247 | writing what the buffer reader accepted gives back the bytes it took |
| `Codec.ParseBlock` | day4/challenge-problems/src/blockchain.cpp:192-247 | every parse is failure or consumes between the header and all of the buffer, and the result is within the readers' limits |
| `Codec.ParseTxn` | day4/challenge-problems/src/transaction.cpp:205-263 | failure, or a transaction whose size is the bytes consumed, inside the buffer |
| `Codec.ParseTxns` | day4/challenge-problems/src/blockchain.cpp:221-232 | as many transactions as counted, inside the buffer |
| `Codec.NegativeCountFails` | day4/challenge-problems/src/blockchain.cpp:222-228 | a negative transaction count never yields a block |
| `Codec.ParseTxnWritten` | day4/challenge-problems/src/transaction.cpp:150-171 | the buffer reader recovers a written transaction |
| `Codec.ParseTxnsWritten` | day4/challenge-problems/src/blockchain.cpp:147-149 | and a written list of them |
| `Codec.WriteParsedTxn` | day4/challenge-problems/src/transaction.cpp:205-263 | writing a parsed transaction gives back its bytes |
| `Codec.WriteParsedTxns` | day4/challenge-problems/src/blockchain.cpp:221-232 | and a parsed list of them |
| `Codec.StreamReadsWhatBufferReads` | day4/challenge-problems/src/blockchain.cpp:153-190 | on a block the buffer reader accepts the stream reader agrees if its count is at most 64, and fails if it is more |
| `Codec.ManyTxnsSplitReaders` | day4/challenge-problems/src/blockchain.cpp:160-162 | every readable block of more than 64 transactions is read back by the buffer reader and rejected by the stream reader |
| `Codec.BigKeySplitsReaders` | day4/challenge-problems/src/transaction.cpp:182-185 | a buffer with one transaction that announces a key of 1024 bytes: the stream reader takes it for a block, the buffer reader rejects it |
| `Codec.BufferReadsWhatStreamReads` | day4/challenge-problems/src/transaction.cpp:182-203 | on a block the stream reader accepts the buffer reader agrees if and only if every size in it is in range: the stream reader goes on after an out-of-range size |
| `Codec.TxnReadersAgreeIff` | day4/challenge-problems/src/transaction.cpp:173-263 | the two transaction loops agree when all sizes are in range, and else the buffer reader fails |
| `BalanceMapCodec.MapRoundTrip` | day4/challenge-problems/src/blockchain.cpp:291-308 | reading a written map gives the same map if and only if it has fewer than 2^32 entries |
| `BalanceMapCodec.MapFields` | day4/challenge-problems/src/blockchain.cpp:259-270 | the place of each number of a written map: the count, then 32 bytes of address and 8 of amount for each entry in key order |
| `BalanceMapCodec.LastEntryCounts` | day4/challenge-problems/src/blockchain.cpp:291-308 | whatever the bytes are, an address gets the amount of its last entry |
| `BalanceMapCodec.NoEntryNoKey` | day4/challenge-problems/src/blockchain.cpp:291-308 | and an address without entry is not in the map |
| `BalanceMapCodec.MapBytesInjective` | day4/challenge-problems/src/blockchain.cpp:259-270 | within that count equal maps and only equal maps have equal bytes |
| `BalanceMapCodec.WriteBalanceMap` | day4/challenge-problems/src/blockchain.cpp:259-270 | the bytes appended are the count, cut to 32 bits, and the entries in key order |
| `BalanceMapCodec.ReadBalanceMap` | day4/challenge-problems/src/blockchain.cpp:291-308 | the map built entry by entry from the bytes at an offset |
| `BalanceMapCodec.MapBytes` | day4/challenge-problems/src/blockchain.h:108-111 | a written map takes exactly `balance_map_size` bytes |
| `BalanceMapCodec.ReadMapWritten` | day4/challenge-problems/src/blockchain.cpp:291-308 | reading a written map of any size gives its first entries up to the 32-bit count |
| `BalanceMapCodec.SortedKeys` | day4/challenge-problems/src/crypto.cpp:47-58 | the key order visits every key once |
| `BalanceMapCodec.IncreasingUnique` | day4/challenge-problems/src/crypto.cpp:47-58 | there is one increasing enumeration of a key set |
| `BalanceMapCodec.LeastExists` | day4/challenge-problems/src/crypto.cpp:47-58 | every non-empty key set has one least key |
| `Bytes.HashEqual` | day4/challenge-problems/src/crypto.cpp:36-45 | the byte loop decides equality |
| `Bytes.Encode32Bytes` | day4/challenge-problems/src/blockchain.cpp:135-151 | a 32-bit number is written as four bytes, the lowest first |
| `Bytes.Decode32Value` | day4/challenge-problems/src/blockchain.cpp:203-219 | and read back as their sum |
| `Bytes.Decode64Value` | day4/challenge-problems/src/transaction.cpp:205-263 | eight bytes are two 32-bit numbers, the lower one first |
| `Bytes.HashLess` | day4/challenge-problems/src/crypto.cpp:47-58 | true exactly if at the first place where the hashes differ the first one has the smaller byte |
| `Bytes.LexLessIff` | day4/challenge-problems/src/crypto.cpp:47-58 | the recursive order says just that |
| `Bytes.LexTrichotomy` | day4/challenge-problems/src/crypto.cpp:47-58 | exactly one of less, equal, greater |
| `Bytes.LexTransitive` | day4/challenge-problems/src/crypto.cpp:47-58 | the order is transitive |
| `GeneratorReader.GenerateThenRead` | day4/challenge-problems/src/genchain.cpp:162-187 | a generated file read by the sequential reader reports the last block with the full length unless two hashes collide |
| `GeneratorReader.LinkedFileIsReadWhole` | day4/challenge-problems/src/readchain.cpp:41-63 | the file of any valid hash-linked chain of distinct hashes is read back whole |
| `Generator.CreateChainAndWrite` | day4/challenge-problems/src/genchain.cpp:75-160 | for one or for 3 to 64 transactions a block no assertion fails and the bytes are those of a valid hash-linked chain of the length asked for |
| `Generator.TwoTransactionsFail` | day4/challenge-problems/src/genchain.cpp:84-124 | with two transactions a block the first rounds of some run end at the assertion that a change address was found |
| `Generator.ManyTransactionsFail` | day4/challenge-problems/src/genchain.cpp:101-156 | with more than 64 transactions a block some run makes a block of which the writer rejects the number of transactions |
| `Generator.KeepPaying` | day4/challenge-problems/src/genchain.cpp:101-147 | payments that stay away from the reward address can go on for as many rounds as asked |
| `Generator.PayingKeepsTracking` | day4/challenge-problems/src/genchain.cpp:125-138 | although change is assigned and not added, after a payment every tracked amount still is at most the balance, the payment was covered and nothing wraps |
| `Generator.PaymentTracked` | day4/challenge-problems/src/genchain.cpp:132-143 | after the payment each tracked amount is still at most the balance |
| `Generator.TrackingCanFallBehind` | day4/challenge-problems/src/genchain.cpp:135-136 | a concrete payment after which the tracked amount is below the balance, so the invariant is only an inequality |
| `Generator.RewardKeepsTracking` | day4/challenge-problems/src/genchain.cpp:158-158 | crediting the reward on both sides keeps it |
| `Generator.FindSpendable` | day4/challenge-problems/src/genchain.cpp:43-51 | an entry with money that is not the reward address, or none exists |
| `Generator.EnsureMinUtxos` | day4/challenge-problems/src/genchain.cpp:66-73 | there are enough entries, old ones are untouched, new ones are empty and under fresh addresses, so the assertion holds |
| `Generator.PickPayment` | day4/challenge-problems/src/genchain.cpp:104-127 | something can be spent exactly if an address other than the reward's has money; then both assertions hold exactly if there are three entries, and sender, receiver and change are distinct |
| `Generator.FindOther` | day4/challenge-problems/src/genchain.cpp:108-124 | an entry other than the two given, or none exists |
| `Generator.Pay` | day4/challenge-problems/src/genchain.cpp:129-146 | a payment is accepted by the block and settled, and the invariants are kept |
| `Generator.MoveAmounts` | day4/challenge-problems/src/genchain.cpp:133-143 | receiver and change address hold what they are paid, and the spent entry is gone |
| `Generator.PaidAmounts` | day4/challenge-problems/src/genchain.cpp:133-143 | amount by amount: the receiver gains, the change is assigned, the source is gone, the rest is as it was |
| `Generator.AddOneTxn` | day4/challenge-problems/src/genchain.cpp:102-147 | one round: the transaction is accepted and the invariants are kept |
| `Generator.FillBlock` | day4/challenge-problems/src/genchain.cpp:101-147 | the transaction loop of one block keeps the invariants and the limit of transactions |
| `Generator.Finish` | day4/challenge-problems/src/genchain.cpp:148-150 | the finished block is no coinbase block and validates to the balances tracked while it was built |
| `Generator.CloseBlock` | day4/challenge-problems/src/genchain.cpp:148-158 | the finished block extends the chain and its reward is still covered by the balances |
| `Generator.StartBlock` | day4/challenge-problems/src/genchain.cpp:92-99 | a block starts from the balances of the chain so far |
| `Generator.NextBlock` | day4/challenge-problems/src/genchain.cpp:83-158 | one round of the block loop extends the valid chain |
| `Generator.CreatedTxnIsValid` | day4/challenge-problems/src/genchain.cpp:53-64 | a created transaction of a non-zero amount validates and is within the writer's limits |
| `Matrix.TiledRefinesSimple` | bday5/challenge-problems/matrix.c:35-76 | when the tile size divides the size both functions leave the same matrix, for any addition and multiplication |
| `Matrix.TiledIsRightIff` | bday5/challenge-problems/matrix.c:35-76 | over the integers the tiled function leaves the product for all inputs if and only if the tile size divides the size |
| `Matrix.Multiply` | bday5/challenge-problems/matrix.c:10-32 | every cell is the sum of all products, added from the left; that this is the matrix product is `DotByPlaces`, `IdentityTimes` and `ProductAssociates` |
| `Matrix.CellByPlace` | bday5/challenge-problems/matrix.c:5-7 | row p and column q is the element at p size + q |
| `Matrix.DotByPlaces` | bday5/challenge-problems/matrix.c:22-27 | with raw places: the sum over no products is 0, and product n adds a[i size + n] times b[n size + j] |
| `Matrix.IdentityTimes` | bday5/challenge-problems/matrix.c:10-32 | what the function leaves for the identity and b is b |
| `Matrix.ProductAssociates` | bday5/challenge-problems/matrix.c:10-32 | (a b) c and a (b c) are the same for whatever the function leaves |
| `Matrix.MultiplyTiled` | bday5/challenge-problems/matrix.c:35-76 | cells inside the whole tiles are the sums of as many products as the tiles cover, all others are as before |
| `Matrix.AddTile` | bday5/challenge-problems/matrix.c:60-68 | the sums of a tile are carried on over the next products in order |
| `Matrix.AddProducts` | bday5/challenge-problems/matrix.c:64-66 | the innermost loop adds products to one cell in order and touches no other |
| `Matrix.ZeroTile` | bday5/challenge-problems/matrix.c:55-59 | only the cells of the tile are cleared |
| `Matrix.WrongLastCell` | bday5/challenge-problems/matrix.c:50-72 | when the tile size does not divide the size some input is multiplied wrongly |
| `Matrix.IndexInjective` | bday5/challenge-problems/matrix.c:5-7 | row-major indices of different cells differ |
| `MergeSort.Sort2D` | bday5/challenge-problems/mergesort.c:102-124 | for every positive tile size the elements end up sorted and stably permuted |
| `MergeSort.Sort` | bday5/challenge-problems/mergesort.c:82-96 | the range is sorted stably in place and nothing else changes |
| `MergeSort.Merge` | bday5/challenge-problems/mergesort.c:10-78 | two adjacent ranges become their merge in place and nothing else changes |
| `MergeSort.MergeBoth` | bday5/challenge-problems/mergesort.c:37-54 | the first loop places elements as the merge does until one side is used up |
| `MergeSort.CopyRest` | bday5/challenge-problems/mergesort.c:56-72 | the other loops complete the merge |
| `MergeSort.SortTiles` | bday5/challenge-problems/mergesort.c:108-114 | every tile, the short last one included, is sorted stably |
| `MergeSort.MergeTiles` | bday5/challenge-problems/mergesort.c:117-123 | merging the front with one tile after another sorts the whole |
| `MergeSort.MergedIsSorted` | bday5/challenge-problems/mergesort.c:41-72 | the merge of sorted sequences is sorted |
| `MergeSort.MergedIsStable` | bday5/challenge-problems/mergesort.c:41-72 | the merge is a stable permutation: of equal elements those on the left come first |
| `MergeSort.StableIsPermutation` | bday5/challenge-problems/mergesort.c:102-124 | a stable rearrangement has the same elements |
| `MergeSort.StableSortUnique` | bday5/challenge-problems/mergesort.c:102-124 | there is only one sorted stable rearrangement |
| `MergeSort.TileSizeDoesNotMatter` | bday5/challenge-problems/mergesort.c:102-124 | all tile sizes, and plain merge sort, give the same result |
| `MergeSort.TilesCover` | bday5/challenge-problems/mergesort.c:106-113 | the tiles cover the elements and none is empty |
| `BlockHash.EveryScheduleHashes` | day3/practice-exercises/block_hash.c:33-56 | every complete run of any number of threads leaves in place k the hash of the words read from byte 256 k on, whatever was in the memory before |
| `BlockHash.RunInv` | day3/practice-exercises/block_hash.c:38-54 | in every reachable state the two shared pointers are in step, one thread at a time is in the critical section, no block is held twice or forgotten, and no write left the array |
| `BlockHash.GivenOutInOrder` | day3/practice-exercises/block_hash.c:43-46 | in every run the blocks are given out in order, each once |
| `BlockHash.RunLength` | day3/practice-exercises/block_hash.c:38-56 | no run is longer than eight steps a block and three a thread, and the runs of that length are exactly the complete ones |
| `BlockHash.SomeThreadCanMove` | day3/practice-exercises/block_hash.c:38-48 | no deadlock |
| `BlockHash.FinishedIsHashed` | day3/practice-exercises/block_hash.c:40-42 | when all threads have seen the end every block was given out and hashed |
| `BlockHash.StepIsTame` | day3/practice-exercises/block_hash.c:50-50 | no step writes outside the array of hashes |
| `BlockHash.StepLosesNothing` | day3/practice-exercises/block_hash.c:43-50 | a block given out is held by a thread or hashed |
| `BlockHash.StepHeldOnce` | day3/practice-exercises/block_hash.c:43-46 | no block is held by two threads |
| `BlockHash.StepClaims` | day3/practice-exercises/block_hash.c:43-46 | each step keeps the pointers in step as seen from the critical section |
| `BlockHash.CalculateHash` | day3/practice-exercises/block_hash.c:17-31 | the hash mixes the words of the block in order from 0, for the one list of words that `IsWordsRead` describes in numbers: four bytes each, the lowest first, at most 32, while eight bytes are left |
| `BlockHash.WordAt` | day3/practice-exercises/block_hash.c:26-28 | the unsigned number of four bytes, the lowest first |
| `BlockHash.HashedWords` | day3/practice-exercises/block_hash.c:23-30 | exactly one list of words is what the numbers describe, and the hash is over that list |
| `BlockHash.MixesInOrder` | day3/practice-exercises/block_hash.c:17-31 | nothing mixed is 0, and each word is mixed into what those before it gave |
| `BlockHash.ReadBytesMatter` | day3/practice-exercises/block_hash.c:24-28 | data that differ in a byte that is read differ in the word that byte is in |
| `BlockHash.OneWordMatters` | day3/practice-exercises/block_hash.c:17-31 | with a step that is injective in each argument, changing one word changes the hash |
| `BlockHash.OneReadWordMatters` | day3/practice-exercises/block_hash.c:24-28 | with such a step, data that differ in one word that is read, and nowhere else, have different hashes |
| `BlockHash.TwoWordsCancel` | day3/practice-exercises/block_hash.c:17-31 | two changed words can cancel out even with such a step, so one word is as far as it goes |
| `BlockHash.WordsRead` | day3/practice-exercises/block_hash.c:21-29 | a word of four bytes as long as eight are left, at most 32 of them, so at most half a block |
| `BlockHash.UnreadBytesIgnored` | day3/practice-exercises/block_hash.c:21-29 | bytes that are not read do not change the hash: the second half of each block and the end of the last one |
| `BlockHash.BlockInRange` | day3/practice-exercises/block_hash.c:101-103 | a block starts inside the data exactly if it is below the number of hashes |
| `FindMax.FindBoth` | day3/practice-exercises/find_max_parallel.c:107-154 | the parallel and the serial search find the same value at the same place, unless a thread reads outside the array, which happens exactly with more threads than elements |
| `FindMax.FindMaxParallel` | day3/practice-exercises/find_max_parallel.c:107-140 | under every interleaving of the threads' loop turns the result is the first largest value of the array; the only other outcome is a first read outside it, exactly with more threads than elements |
| `FindMax.FindMaxSerial` | day3/practice-exercises/find_max_parallel.c:34-47 | the first place of the largest value |
| `FindMax.ThreadParam.Step` | day3/practice-exercises/find_max_parallel.c:55-63 | one turn of a thread's loop keeps the first largest value of the part it has seen |
| `FindMax.StartThreads` | day3/practice-exercises/find_max_parallel.c:107-123 | each thread gets its slice: elements / threads elements, the first one the residue as well, each starting after the one before; the position after the last slice is the end of the array; a slice starts outside exactly with more threads than elements |
| `FindMax.SlicedEvenly` | day3/practice-exercises/find_max_parallel.c:107-122 | the slices in numbers |
| `FindMax.CombineAll` | day3/practice-exercises/find_max_parallel.c:127-140 | waiting and combining gives the first largest value, whatever the others do meanwhile |
| `FindMax.Join` | day3/practice-exercises/find_max_parallel.c:128-130 | a joined thread has the first largest value of its slice, whatever the others did meanwhile |
| `FindMax.SlicesCover` | day3/practice-exercises/find_max_parallel.c:125-125 | the assertion on the position after the last slice holds for every number of threads |
| `FindMax.SlicesInBoundsIff` | day3/practice-exercises/find_max_parallel.c:55-57 | the first read of every thread is inside the array if and only if there are no more threads than elements |
| `FindMax.MoreThreadsThanElements` | day3/practice-exercises/find_max_parallel.c:107-118 | two elements and three threads: the second thread reads past the end |
| `FindMax.Combine` | day3/practice-exercises/find_max_parallel.c:131-138 | replacing the maximum only by a strictly larger one keeps the first place |
| `FindMax.FirstMaxUnique` | day3/practice-exercises/find_max_parallel.c:34-47 | there is one first place of the largest value |
| `ThreadManager.RunKeeps` | day4/challenge-problems/src/os.cpp:201-278 | in every run that respects the assertions a running slot is used and has its function, every started thread runs in one slot or was joined, and none was joined twice |
| `ThreadManager.JoinedOnceInTheEnd` | day4/challenge-problems/src/os.cpp:280-287 | after the destructor every thread ever started was joined exactly once |
| `ThreadManager.WaitAllJoins` | day4/challenge-problems/src/os.cpp:267-278 | `wait()` joins whatever still runs |
| `ThreadManager.CreationsCount` | day4/challenge-problems/src/os.cpp:201-230 | in a run, and in each of its beginnings, the next creation returns the number of creations so far, or -1 once that is the number of slots, if and only if every `wait()` of the run was made when no slot was running |
| `ThreadManager.LaunchRunsGiven` | day4/challenge-problems/src/os.cpp:232-251 | in every run a launch of tid starts one thread, with the function and argument of the last creation that returned tid |
| `ThreadManager.SlotHoldsGiven` | day4/challenge-problems/src/os.cpp:212-230 | in every run a slot that has a function has what its last creation was given |
| `ThreadManager.StartedStays` | day4/challenge-problems/src/os.cpp:232-251 | only launches start threads, and nothing changes what an earlier one started |
| `ThreadManager.NumberUsedAgain` | day4/challenge-problems/src/os.cpp:267-278 | create, launch, `wait()`: the next creation returns 0 again |
| `ThreadManager.FreesUsedSlot` | day4/challenge-problems/src/os.cpp:267-278 | a `wait()` that joins anything makes the next number one that was given before |
| `ThreadManager.StuckForever` | day4/challenge-problems/src/os.cpp:253-265 | a slot joined by `wait(tid)` is never changed, handed out or launched again in any later run |
| `ThreadManager.WaitMakesStuck` | day4/challenge-problems/src/os.cpp:253-265 | `wait(tid)` leaves the slot used, without function |
| `ThreadManager.WaitedFromSlots` | day4/challenge-problems/src/os.cpp:267-278 | `wait()` frees exactly the slots of running threads |
| `ThreadManager.ApplyKeeps` | day4/challenge-problems/src/os.cpp:212-278 | each operation keeps the invariant |
| `ThreadManager.Manager.constructor` | day4/challenge-problems/src/os.cpp:164-181 | all slots free |
| `ThreadManager.Manager.FindFreeThread` | day4/challenge-problems/src/os.cpp:201-210 | the first unused slot |
| `ThreadManager.Manager.Create` | day4/challenge-problems/src/os.cpp:212-230 | the first unused slot gets the function and argument given and is used, and every other slot is as before; -1 exactly if all are used |
| `ThreadManager.Manager.Launch` | day4/challenge-problems/src/os.cpp:232-251 | one thread is started, with the function and argument of the slot, and its handle is kept there |
| `ThreadManager.Manager.Wait` | day4/challenge-problems/src/os.cpp:253-265 | the thread of the slot is joined once; the slot stays used, without function |
| `ThreadManager.Manager.WaitAll` | day4/challenge-problems/src/os.cpp:267-278 | the loop joins and frees the running slots, and its assertion holds |
| `ThreadManager.RunChunkThreads` | day4/challenge-problems/src/readindexed.cpp:203-242 | creation i returns i, thread i runs the chunk reader on the data of chunk i, and each thread is joined once |

## Left out

- IndexedReader.ReadIndexed: files whose first chunk is empty; their coinbase block is put on a made-up predecessor, so it is dropped or the assertion in `is_coinbase` fails.
- IndexedReader.ReadAllChunks: reads the chunks in the order of creation; that every interleaving of the threads gives the same heads and tails is proved on values in `ThreadRuns`.
- Codec.StreamBlockWritten: the stream readers are modelled on values only, as functions of the bytes left in the stream; the buffer readers are methods of the block object.
- BlockHash.CalculateHash: the floating-point mixing step is an arbitrary function on 32-bit values.
- Matrix.MultiplyTiled: matrices that share memory with the result, and `int` overflow of the index arithmetic, are not modelled.
- MergeSort.Sort2D: `int` overflow of sizes and a failing `malloc` are not modelled; keys are totally ordered, so no NaN.
- FindMax.FindMaxParallel: interleavings are of whole loop turns, which only touch the thread's own record; what a read outside the array returns is not modelled, the run ends there.
- Generator.CreateChainAndWrite: the counts of transactions for which an assertion can fail are excluded (see above); `rand()` is an arbitrary choice; distinct keys are assumed to have distinct, writable addresses and keys.
- Transactions are values: the `valid` flag a transaction keeps is the cached verdict of its validation, and two blocks sharing one transaction object are not told apart.
- Block counts, lengths and loop counters are unbounded naturals; their 32-bit wrap needs more than 2^32 blocks or transactions.
- The stream form of `read_balance_map`, which no program of day 4 calls on a path modelled here.
- FileRewriter.ReadFile: only files of valid linked chains; the program also links blocks that failed validation.
- The day 1 and day 3 copies of blocks and transactions: the day 1 tip rule is modelled over the day 4 classes; the day 3 chunk reader compares maps in one direction only.
- Forking, the attacking thread and the secure mode of the stitching reader and the thread manager (stacks, keys, the character device), and kernel modules.
- `osinstream_t`: memory mapping and its locked file position.
- File and terminal input and output, argument parsing, timing, and failures of `mmap`, `malloc` or `pthread_create`.
- `sort2D_OPT`, whose body is empty, the LLVM passes, and the remaining practice exercises: nothing hard to prove.
