/** Writer and reader together: a rewritten valid chain is read back whole, exactly as the sequential reader does. */
module WriterReader {
  import opened Wrappers
  import opened Bytes
  import opened Ledger
  import opened Layout
  import opened Reading
  import opened Indexed
  import opened Stitching
  import opened IndexedTheorem
  import opened Blocks
  import opened SequentialReader
  import opened ChainWriter
  import opened IndexedReader
  import ThreadManager
  import ThreadRuns

  /** The chain is valid in sequence and each block holds the balances of the chain up to it. */
  ghost predicate ValidChain(cr: Crypto, blocks: seq<BlockData>, balances: seq<Balances>) {
    && LinkedChain(blocks) && |balances| == |blocks| && ChainRun(cr, map[], blocks).ok
    && forall k :: 0 <= k < |blocks| ==> balances[k] == ChainRun(cr, map[], blocks[..k + 1]).balances
  }

  lemma {:induction false} FlattenCut(blocks: seq<BlockData>, chunks: nat, m: nat)
    requires 0 < chunks <= |blocks| && m <= chunks
    ensures Boundary(|blocks|, chunks, m) <= |blocks|
    ensures Flatten(CutUpTo(blocks, chunks, m)) == blocks[..Boundary(|blocks|, chunks, m)]
    decreases m
  {
    hide Boundary;
    BoundariesGrow(|blocks|, chunks, m, chunks);
    if m == 0 {
      BoundaryStep(|blocks|, chunks, 0);
    } else {
      FlattenCut(blocks, chunks, m - 1);
      BoundaryStep(|blocks|, chunks, m - 1);
      var cut := CutUpTo(blocks, chunks, m);
      assert cut[..m - 1] == CutUpTo(blocks, chunks, m - 1);
    }
  }

  lemma {:induction false} CutPrefix(blocks: seq<BlockData>, chunks: nat, c: nat, m: nat)
    requires 0 < chunks <= |blocks| && c <= m <= chunks
    ensures CutUpTo(blocks, chunks, m)[..c] == CutUpTo(blocks, chunks, c)
    decreases m
  {
    hide Boundary;
    if c < m {
      CutPrefix(blocks, chunks, c, m - 1);
    }
  }

  lemma CutIsChunked(cr: Crypto, blocks: seq<BlockData>, balances: seq<Balances>, chunks: nat)
    requires ValidChain(cr, blocks, balances) && 0 < chunks <= |blocks|
    ensures Flatten(CutUpTo(blocks, chunks, chunks)) == blocks
    ensures ChunkedChain(CutUpTo(blocks, chunks, chunks), MapsUpTo(balances, chunks, chunks))
    ensures forall c :: 0 <= c < chunks ==> CutUpTo(blocks, chunks, chunks)[c] != []
  {
    hide LinkedChain, ChainRun, CutUpTo, MapsUpTo, Flatten;
    FlattenCut(blocks, chunks, chunks);
    assert Boundary(|blocks|, chunks, chunks) == |blocks|;
    assert blocks[..|blocks|] == blocks;
    forall c | 0 <= c < chunks ensures CutUpTo(blocks, chunks, chunks)[c] != [] {
      CutAt(blocks, chunks, chunks, c);
    }
  }

  /** Cut anywhere, a valid chain with its own balances is sound at every chunk. */
  lemma {:induction false} CutIsSound(cr: Crypto, blocks: seq<BlockData>, balances: seq<Balances>, chunks: nat, m: nat)
    requires ValidChain(cr, blocks, balances) && 0 < chunks <= |blocks| && m <= chunks
    ensures SoundUpTo(cr, CutUpTo(blocks, chunks, chunks), MapsUpTo(balances, chunks, chunks), m)
    decreases m
  {
    hide LinkedChain, ChainRun, CutUpTo, MapsUpTo, Flatten, Boundary;
    if m > 0 {
      CutIsSound(cr, blocks, balances, chunks, m - 1);
      CutPrefix(blocks, chunks, m, chunks);
      FlattenCut(blocks, chunks, m);
      MapsAt(balances, chunks, chunks, m - 1);
      ChainRunPrefix(cr, map[], blocks, Boundary(|blocks|, chunks, m));
      var b := balances[Boundary(|blocks|, chunks, m) - 1];
      SameMoneyEquivalence(b, b, b);
    }
  }

  /** The sequential reader's line for a valid chain: its last block and its number of blocks. */
  lemma SequentialReportsWhole(cr: Crypto, blocks: seq<BlockData>)
    requires LinkedChain(blocks) && ChainRun(cr, map[], blocks).ok
    ensures ReportOf(LastTip(ReadBlocks(cr, None, blocks).accepted)) == Tip(blocks[|blocks| - 1].blkHash, |blocks|)
  {
    hide LinkedSegment, ChainRun, FullNode, ReadBlocks;
    AllAcceptedIff(cr, blocks);
    FullNodeLength(cr, blocks, |blocks| - 1);
    FullNodeBlock(cr, blocks, |blocks| - 1);
  }

  lemma FullNodeBlock(cr: Crypto, seg: seq<BlockData>, k: nat)
    requires k < |seg|
    ensures FullNode(cr, None, seg, k).blk == seg[k]
  {
  }

  /** A rewritten valid chain is an indexed file on which the stitching reader and the sequential reader agree. */
  lemma RewrittenChainAgrees(cr: Crypto, blocks: seq<BlockData>, balances: seq<Balances>, chunks: nat)
    requires ValidChain(cr, blocks, balances) && 0 < chunks <= |blocks|
    requires var cut, maps := CutUpTo(blocks, chunks, chunks), MapsUpTo(balances, chunks, chunks);
             Storable(cut, maps) && FitsOffsets(cut, maps) && forall m :: m in maps ==> |m| < UINT32_LIMIT
    ensures var cut, maps := CutUpTo(blocks, chunks, chunks), MapsUpTo(balances, chunks, chunks);
            && IndexedFile(FileBytes(cut, maps), cut, maps) && ChunkedChain(cut, maps) && Flatten(cut) == blocks
            && SequentialAgrees(cr, cut, maps)
  {
    hide ChainRun, CutUpTo, MapsUpTo, Flatten, Storable, FitsOffsets, IndexedFile, FileBytes, LinkedChain,
         SequentialAgrees, SoundUpTo;
    var cut, maps := CutUpTo(blocks, chunks, chunks), MapsUpTo(balances, chunks, chunks);
    CutIsChunked(cr, blocks, balances, chunks);
    CutIsSound(cr, blocks, balances, chunks, chunks);
    SoundIffSequentialAgrees(cr, cut, maps);
    FileIsIndexed(cut, maps);
  }

  /**
   * Every complete run of the chunk threads over a rewritten valid chain finds all heads and reports the last block and
   * the full length, as the sequential reader does.
   */
  lemma EveryScheduleReportsRewritten(cr: Crypto, blocks: seq<BlockData>, balances: seq<Balances>, chunks: nat,
                                      schedule: seq<nat>)
    requires ValidChain(cr, blocks, balances) && 0 < chunks <= |blocks|
    requires var jobs := ThreadRuns.JobsOf(CutUpTo(blocks, chunks, chunks), MapsUpTo(balances, chunks, chunks));
             && ThreadRuns.WorldAfter(cr, jobs, schedule).Some?
             && ThreadRuns.AllFinished(ThreadRuns.WorldAfter(cr, jobs, schedule).value)
    ensures var jobs := ThreadRuns.JobsOf(CutUpTo(blocks, chunks, chunks), MapsUpTo(balances, chunks, chunks));
            && blocks != []
            && ThreadRuns.WorldReports(ThreadRuns.WorldAfter(cr, jobs, schedule).value, chunks,
                                       blocks[|blocks| - 1].blkHash, |blocks|)
            && ReportOf(LastTip(ReadBlocks(cr, None, blocks).accepted)) == Tip(blocks[|blocks| - 1].blkHash, |blocks|)
  {
    hide ChainRun, CutUpTo, MapsUpTo, Flatten, LinkedChain, SequentialAgrees, SoundUpTo, ThreadRuns.WorldAfter,
         ThreadRuns.WorldReports, ThreadRuns.AllFinished, ReportOf, LastTip, ReadBlocks;
    var cut, maps := CutUpTo(blocks, chunks, chunks), MapsUpTo(balances, chunks, chunks);
    CutIsChunked(cr, blocks, balances, chunks);
    CutIsSound(cr, blocks, balances, chunks, chunks);
    SoundIffSequentialAgrees(cr, cut, maps);
    ThreadRuns.EveryScheduleReportsIff(cr, cut, maps, schedule);
    SequentialReportsWhole(cr, blocks);
  }

  /** What the writer's assertions ask for, together with a valid chain whose maps fit the 32-bit counts. */
  ghost predicate Rewritable(cr: Crypto, tip: Block, chunks: nat, path: seq<Block>)
    reads path
  {
    && IsPath(path) && path[|path| - 1] == tip && tip.length == |path| && 1 < chunks <= |path|
    && Cuts(path, chunks, ChunksOf(path, chunks), MapsOf(path, chunks))
    && (forall b :: b in path ==> |b.balances| < UINT32_LIMIT)
    && ValidChain(cr, Datas(path), AllBalances(path))
  }

  lemma RewritableAgrees(cr: Crypto, tip: Block, chunks: nat, path: seq<Block>)
    requires Rewritable(cr, tip, chunks, path)
    ensures var cut, maps := ChunksOf(path, chunks), MapsOf(path, chunks);
            && Storable(cut, maps) && FitsOffsets(cut, maps)
            && IndexedFile(FileBytes(cut, maps), cut, maps) && ChunkedChain(cut, maps) && Flatten(cut) == Datas(path)
            && SequentialAgrees(cr, cut, maps)
    ensures |ChunksOf(path, chunks)| == chunks
    ensures Tip(tip.blkHash, tip.length) == ReportOf(LastTip(ReadBlocks(cr, None, Datas(path)).accepted))
    ensures Datas(path)[|path| - 1].blkHash == tip.blkHash && tip.length == |Datas(path)|
  {
    hide Cuts, ValidChain, IsPath, IndexedFile, ChunkedChain, SequentialAgrees, Flatten, FileBytes, CutUpTo, MapsUpTo;
    CutSizes(path, chunks, ChunksOf(path, chunks), MapsOf(path, chunks));
    SmallMaps(path, chunks);
    RewrittenChainAgrees(cr, Datas(path), AllBalances(path), chunks);
    ValidParts(cr, Datas(path), AllBalances(path));
    SequentialReportsWhole(cr, Datas(path));
  }

  /**
   * The chain from `tip` down, rewritten into chunks and read back: the stitching reader prints the tip and its length,
   * and so does the sequential reader on the same blocks.
   */
  method RewriteThenRead(cr: Crypto, tip: Block, chunks: nat, ghost path: seq<Block>) returns (indexed: Report)
    requires Rewritable(cr, tip, chunks, path) && chunks <= ThreadManager.MAX_THREADS
    ensures indexed == Tip(tip.blkHash, tip.length)
    ensures indexed == ReportOf(LastTip(ReadBlocks(cr, None, Datas(path)).accepted))
  {
    hide Cuts, ValidChain, IndexedFile, ChunkedChain, SequentialAgrees, Flatten, FileBytes, ChunksOf, MapsOf,
         Reports, AllHeadsFound, Storable, FitsOffsets, Tails, ChunkOuts, ReportOf, LastTip, ReadBlocks;
    RewritableAgrees(cr, tip, chunks, path);
    var file := RewriteChain(tip, chunks, path);
    indexed := ReadIndexed(cr, file, ChunksOf(path, chunks), MapsOf(path, chunks));
  }

  lemma ValidParts(cr: Crypto, blocks: seq<BlockData>, balances: seq<Balances>)
    requires ValidChain(cr, blocks, balances)
    ensures LinkedChain(blocks) && ChainRun(cr, map[], blocks).ok
  {
  }

  lemma SmallMaps(path: seq<Block>, chunks: nat)
    requires 0 < chunks <= |path| && forall b :: b in path ==> |b.balances| < UINT32_LIMIT
    ensures forall m :: m in MapsUpTo(AllBalances(path), chunks, chunks) ==> |m| < UINT32_LIMIT
  {
    hide MapsUpTo, Boundary;
    var maps := MapsUpTo(AllBalances(path), chunks, chunks);
    forall c | 0 <= c < chunks ensures |maps[c]| < UINT32_LIMIT {
      MapsAt(AllBalances(path), chunks, chunks, c);
    }
  }
}
