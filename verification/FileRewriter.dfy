/** The rewriting program from file to file: its reading loop, the writer, and the stitching reader on the result. */
module FileRewriter {
  import opened Bytes
  import opened Ledger
  import opened Codec
  import opened Layout
  import opened Reading
  import opened Indexed
  import opened Blocks
  import opened SequentialReader
  import opened ChainWriter
  import opened WriterReader
  import ThreadManager

  function BalancesUpTo(cr: Crypto, blocks: seq<BlockData>, n: nat): (ms: seq<Balances>)
    requires n <= |blocks|
    ensures |ms| == n && forall k :: 0 <= k < n ==> ms[k] == ChainRun(cr, map[], blocks[..k + 1]).balances
  {
    if n == 0 then [] else BalancesUpTo(cr, blocks, n - 1) + [ChainRun(cr, map[], blocks[..n]).balances]
  }

  /** Object `b` is block `j` of the chain: its fields, its link to the object below, its length and its balances. */
  ghost predicate BuiltAt(cr: Crypto, blocks: seq<BlockData>, path: seq<Block>, j: nat)
    requires j < |path| <= |blocks|
    reads path
  {
    && path[j].Data() == blocks[j] && path[j].length == j + 1
    && path[j].balances == ChainRun(cr, map[], blocks[..j + 1]).balances
    && path[j].prevBlock == if j == 0 then null else path[j - 1]
  }

  /** The objects read so far, and the map through which the next one is linked. */
  ghost predicate Built(cr: Crypto, blocks: seq<BlockData>, path: seq<Block>, bmap: map<Hash, Block>)
    reads path
  {
    && |path| <= |blocks|
    && (forall j :: 0 <= j < |path| ==> BuiltAt(cr, blocks, path, j))
    && (forall j :: 0 <= j < |path| ==> blocks[j].blkHash in bmap && bmap[blocks[j].blkHash] == path[j])
    && (forall b :: b in bmap.Values ==> b in path)
  }

  /** The bytes from `pos` on are the blocks still to come. */
  ghost predicate StillToRead(data: seq<byte>, pos: nat, blocks: seq<BlockData>, i: nat) {
    pos <= |data| && i <= |blocks| && AllReadable(blocks[i..]) && data[pos..] == ChainBytes(blocks[i..])
  }

  lemma NextToRead(data: seq<byte>, pos: nat, blocks: seq<BlockData>, i: nat)
    requires StillToRead(data, pos, blocks, i)
    ensures pos <= |data| && (i == |blocks| <==> pos == |data|)
    ensures i < |blocks| ==> ParseBlock(data[pos..|data|]) == Codec.Read(blocks[i], BlockSize(blocks[i]))
                             && StillToRead(data, pos + BlockSize(blocks[i]), blocks, i + 1)
  {
    hide ParseBlock, BlockBytes, BlockReadable;
    assert data[pos..|data|] == data[pos..];
    if i < |blocks| {
      var b, rest := blocks[i], ChainBytes(blocks[i + 1..]);
      assert blocks[i..][1..] == blocks[i + 1..] && b in blocks[i..];
      ParseBlockWritten(b, rest);
      Peel(BlockBytes(b), rest);
      assert data[pos + BlockSize(b)..] == data[pos..][BlockSize(b)..];
    }
  }

  lemma AtEnd(data: seq<byte>, pos: nat, blocks: seq<BlockData>, i: nat)
    requires StillToRead(data, pos, blocks, i)
    ensures pos <= |data| && (i == |blocks| <==> pos == |data|)
  {
    NextToRead(data, pos, blocks, i);
  }

  /** The link that is found for the next block of a chain is the object of the block below. */
  lemma LinkIsBelow(cr: Crypto, blocks: seq<BlockData>, path: seq<Block>, bmap: map<Hash, Block>)
    requires LinkedChain(blocks) && Built(cr, blocks, path, bmap) && |path| < |blocks|
    ensures var i := |path|;
            && (i == 0 ==> blocks[i].prevHash == ZERO_HASH)
            && (i > 0 ==> blocks[i].prevHash != ZERO_HASH && blocks[i].prevHash in bmap
                          && bmap[blocks[i].prevHash] == path[i - 1] && path[i - 1].length == i
                          && path[i - 1].balances == ChainRun(cr, map[], blocks[..i]).balances)
  {
    hide Zeros, ChainRun;
    assert |path| > 0 ==> BuiltAt(cr, blocks, path, |path| - 1);
  }

  /** One more object on top. */
  lemma BuiltMore(cr: Crypto, blocks: seq<BlockData>, path: seq<Block>, bmap: map<Hash, Block>, b: Block)
    requires LinkedChain(blocks) && Built(cr, blocks, path, bmap) && |path| < |blocks| && b !in path
    requires BuiltAt(cr, blocks, path + [b], |path|)
    ensures Built(cr, blocks, path + [b], bmap[blocks[|path|].blkHash := b])
  {
    hide ChainRun, Zeros;
    var more, bmap' := path + [b], bmap[blocks[|path|].blkHash := b];
    forall j | 0 <= j < |more|
      ensures BuiltAt(cr, blocks, more, j) && blocks[j].blkHash in bmap' && bmap'[blocks[j].blkHash] == more[j]
    {
      if j < |path| {
        assert BuiltAt(cr, blocks, path, j) && blocks[j].blkHash != blocks[|path|].blkHash;
      }
    }
  }

  lemma ValidOnTop(cr: Crypto, blocks: seq<BlockData>, i: nat)
    requires i < |blocks| && ChainRun(cr, map[], blocks).ok
    ensures var below := ChainRun(cr, map[], blocks[..i]).balances;
            ValidateBlock(cr, blocks[i], below) == Run(ChainRun(cr, map[], blocks[..i + 1]).balances, true)
    ensures ChainRun(cr, map[], blocks[..0]).balances == map[]
  {
    hide ValidateBlock;
    ChainRunPrefix(cr, map[], blocks, i);
    ChainRunPrefix(cr, map[], blocks, i + 1);
    assert blocks[..i + 1][..i] == blocks[..i];
  }

  /** One round of the reading loop: the block enters the map before it is validated, and again when it is valid. */
  method ReadForRewrite(cr: Crypto, data: seq<byte>, pos: nat, before: map<Hash, Block>, ghost blocks: seq<BlockData>,
                        ghost path: seq<Block>)
    returns (blk: Block, size: nat, bmap: map<Hash, Block>)
    requires LinkedChain(blocks) && ChainRun(cr, map[], blocks).ok && Built(cr, blocks, path, before)
    requires StillToRead(data, pos, blocks, |path|) && |path| < |blocks|
    ensures fresh(blk) && size > 0 && (|path| == 0 <==> blk.prevBlock == null)
    ensures StillToRead(data, pos + size, blocks, |path| + 1)
    ensures Built(cr, blocks, path + [blk], bmap)
  {
    hide ParseBlock, LinkedChain, ChainRun, ValidateBlock, StillToRead, Built, Zeros, BlockSize, BlockDigest, TxHashes;
    ghost var i := |path|;
    NextToRead(data, pos, blocks, i);
    LinkIsBelow(cr, blocks, path, before);
    ValidOnTop(cr, blocks, i);
    blk := new Block();
    size := blk.Read(data, pos, |data| - pos, before);
    assert blk.Data() == blocks[i] && StillToRead(data, pos + size, blocks, i + 1);
    bmap := before[blk.blkHash := blk];
    var ok := blk.Validate(cr);
    if ok {
      bmap := bmap[blk.blkHash := blk];
    }
    assert bmap == before[blk.blkHash := blk];
    BuiltMore(cr, blocks, path, before, blk);
  }

  /** The reading loop: on the file of a valid linked chain it leaves the last block on top of all the others. */
  method ReadFile(cr: Crypto, data: seq<byte>, ghost blocks: seq<BlockData>)
    returns (tip: Block?, ghost path: seq<Block>)
    requires LinkedChain(blocks) && ChainRun(cr, map[], blocks).ok
    requires AllReadable(blocks) && data == ChainBytes(blocks)
    ensures |path| == |blocks| && tip == path[|path| - 1]
    ensures forall j :: 0 <= j < |path| ==> BuiltAt(cr, blocks, path, j)
  {
    hide LinkedSegment, ChainRun, StillToRead, Built, BuiltAt, ChainBytes, BlockReadable;
    var bmap: map<Hash, Block> := map[];
    var pos, bytesLeft := 0, |data|;
    tip, path := null, [];
    AllToRead(cr, data, blocks);
    AtEnd(data, 0, blocks, 0);
    while bytesLeft > 0
      invariant |path| <= |blocks| && pos + bytesLeft == |data| && StillToRead(data, pos, blocks, |path|)
      invariant bytesLeft > 0 <==> |path| < |blocks|
      invariant Built(cr, blocks, path, bmap) && fresh(path)
      invariant if path == [] then tip == null else tip == path[|path| - 1]
      decreases bytesLeft
    {
      var blk, bytesParsed, bmap' := ReadForRewrite(cr, data, pos, bmap, blocks, path);
      assert path == [] || blk.prevBlock != null;
      bmap, tip, path := bmap', blk, path + [blk];
      pos := pos + bytesParsed;
      AtEnd(data, pos, blocks, |path|);
      bytesLeft := bytesLeft - bytesParsed;
    }
    BuiltParts(cr, blocks, path, bmap);
  }

  lemma BuiltParts(cr: Crypto, blocks: seq<BlockData>, path: seq<Block>, bmap: map<Hash, Block>)
    requires Built(cr, blocks, path, bmap)
    ensures |path| <= |blocks| && forall j :: 0 <= j < |path| ==> BuiltAt(cr, blocks, path, j)
  {
  }

  lemma AllToRead(cr: Crypto, data: seq<byte>, blocks: seq<BlockData>)
    requires AllReadable(blocks) && data == ChainBytes(blocks)
    ensures StillToRead(data, 0, blocks, 0) && Built(cr, blocks, [], map[])
  {
    assert blocks[0..] == blocks && data[0..] == data;
  }

  // ---------- from file to file ----------

  /** The writer's limits, for the balances that validation gives. */
  ghost predicate WithinLimits(cr: Crypto, blocks: seq<BlockData>, chunks: nat) {
    var balances := BalancesUpTo(cr, blocks, |blocks|);
    && 1 < chunks <= |blocks| < UINT32_LIMIT
    && (forall b :: b in blocks ==> BlockWritable(b))
    && (forall m :: m in balances ==> |m| < UINT32_LIMIT)
    && FitsOffsets(CutUpTo(blocks, chunks, chunks), MapsUpTo(balances, chunks, chunks))
  }

  lemma CutIsStorable(blocks: seq<BlockData>, maps: seq<Balances>, chunks: nat)
    requires 0 < chunks <= |blocks| && AllReadable(blocks) && |maps| == chunks
    ensures Storable(CutUpTo(blocks, chunks, chunks), maps)
  {
    hide BlockReadable, Boundary, CutUpTo;
    var cut := CutUpTo(blocks, chunks, chunks);
    forall c | 0 <= c < chunks ensures AllReadable(cut[c]) {
      CutAt(blocks, chunks, chunks, c);
      forall b | b in cut[c] ensures BlockReadable(b) {
        assert b in blocks;
      }
    }
  }

  lemma SameValues(cr: Crypto, blocks: seq<BlockData>, path: seq<Block>)
    requires |path| == |blocks| && forall j :: 0 <= j < |path| ==> BuiltAt(cr, blocks, path, j)
    ensures Datas(path) == blocks && AllBalances(path) == BalancesUpTo(cr, blocks, |blocks|)
  {
    hide ChainRun;
    forall j | 0 <= j < |path|
      ensures path[j].Data() == blocks[j] && path[j].balances == BalancesUpTo(cr, blocks, |blocks|)[j]
    {
      assert BuiltAt(cr, blocks, path, j);
    }
  }

  lemma ReadIsPath(cr: Crypto, blocks: seq<BlockData>, path: seq<Block>)
    requires |path| == |blocks| > 0 && forall j :: 0 <= j < |path| ==> BuiltAt(cr, blocks, path, j)
    ensures IsPath(path) && path[|path| - 1].length == |path|
  {
    hide ChainRun;
    forall i | 0 < i < |path| ensures path[i].prevBlock == path[i - 1] {
      assert BuiltAt(cr, blocks, path, i);
    }
    assert BuiltAt(cr, blocks, path, 0) && BuiltAt(cr, blocks, path, |path| - 1);
  }

  lemma ReadFits(cr: Crypto, blocks: seq<BlockData>, path: seq<Block>, chunks: nat)
    requires Datas(path) == blocks && AllBalances(path) == BalancesUpTo(cr, blocks, |blocks|)
    requires AllReadable(blocks) && WithinLimits(cr, blocks, chunks)
    ensures Cuts(path, chunks, ChunksOf(path, chunks), MapsOf(path, chunks))
    ensures forall b :: b in path ==> |b.balances| < UINT32_LIMIT
  {
    hide ChainRun, CutUpTo, MapsUpTo, Storable, FitsOffsets, BlockWritable, BlockReadable;
    var balances := BalancesUpTo(cr, blocks, |blocks|);
    CutIsStorable(blocks, MapsUpTo(balances, chunks, chunks), chunks);
    forall b | b in path ensures BlockWritable(b.Data()) && |b.balances| < UINT32_LIMIT {
      var j :| 0 <= j < |path| && path[j] == b;
      assert blocks[j] in blocks && balances[j] in balances;
    }
  }

  lemma ValidByConstruction(cr: Crypto, blocks: seq<BlockData>)
    requires LinkedChain(blocks) && ChainRun(cr, map[], blocks).ok
    ensures ValidChain(cr, blocks, BalancesUpTo(cr, blocks, |blocks|))
  {
    hide LinkedChain, ChainRun;
  }

  /** What the reading loop leaves may be rewritten: the writer's assertions hold and the chain is a valid one. */
  lemma ReadIsRewritable(cr: Crypto, blocks: seq<BlockData>, path: seq<Block>, chunks: nat)
    requires LinkedChain(blocks) && ChainRun(cr, map[], blocks).ok && AllReadable(blocks)
    requires WithinLimits(cr, blocks, chunks)
    requires |path| == |blocks| && forall j :: 0 <= j < |path| ==> BuiltAt(cr, blocks, path, j)
    ensures Rewritable(cr, path[|path| - 1], chunks, path) && Datas(path) == blocks
  {
    hide LinkedSegment, ChainRun, BuiltAt, Cuts, ValidChain, IsPath, Datas, AllBalances, BalancesUpTo, ChunksOf, MapsOf,
         CutUpTo, MapsUpTo, FitsOffsets, BlockWritable, BlockReadable;
    SameValues(cr, blocks, path);
    ReadIsPath(cr, blocks, path);
    ReadFits(cr, blocks, path, chunks);
    ValidByConstruction(cr, blocks);
  }

  /**
   * The rewriting program on the file of a valid linked chain, and then the stitching reader on what it wrote: it
   * prints what the sequential reader prints for the file that was read.
   */
  method RewriteFileThenRead(cr: Crypto, file: seq<byte>, chunks: nat, ghost blocks: seq<BlockData>)
    returns (indexed: Report, sequential: Report)
    requires LinkedChain(blocks) && ChainRun(cr, map[], blocks).ok
    requires AllReadable(blocks) && file == ChainBytes(blocks)
    requires WithinLimits(cr, blocks, chunks) && chunks <= ThreadManager.MAX_THREADS
    ensures indexed == sequential == Tip(blocks[|blocks| - 1].blkHash, |blocks|)
  {
    hide LinkedSegment, ChainRun, WithinLimits, Rewritable, ChainBytes, ParseChain, ReadBlocks, BuiltAt, ReportOf,
         LastTip, BlockReadable;
    var tip, path := ReadFile(cr, file, blocks);
    ReadIsRewritable(cr, blocks, path, chunks);
    indexed := RewriteThenRead(cr, tip, chunks, path);
    ParseChainWritten(blocks);
    SequentialReportsWhole(cr, blocks);
    sequential := ReadChain(cr, file);
  }
}
