/** Generator and sequential reader together: a generated file is accepted whole. */
module GeneratorReader {
  import opened Wrappers
  import opened Ledger
  import opened Supply
  import opened Codec
  import opened Reading
  import opened Indexed
  import opened SequentialReader
  import opened Generator
  import opened WriterReader

  /** SHA-256 did not give two of these blocks one hash. */
  ghost predicate DistinctHashes(blocks: seq<BlockData>) {
    forall i, j {:trigger blocks[i].blkHash, blocks[j].blkHash} ::
      0 <= i < j < |blocks| ==> blocks[i].blkHash != blocks[j].blkHash
  }

  /** The file of a hash-linked, valid chain of distinct hashes is read back block by block, and its end is the tip. */
  lemma LinkedFileIsReadWhole(cr: Crypto, blocks: seq<BlockData>)
    requires blocks != [] && HashLinks(blocks) && DistinctHashes(blocks)
    requires ChainRun(cr, map[], blocks).ok && AllReadable(blocks)
    ensures ReportOf(LastTip(ReadBlocks(cr, None, ParseChain(ChainBytes(blocks))).accepted))
         == Tip(blocks[|blocks| - 1].blkHash, |blocks|)
  {
    hide ChainRun, ParseChain, ChainBytes, ReadBlocks, BlockReadable, LastTip, ReportOf;
    ParseChainWritten(blocks);
    assert LinkedChain(blocks);
    SequentialReportsWhole(cr, blocks);
  }

  /** `genchain`, then `readchain`: unless two hashes collide, the report is the last block and the full length. */
  method GenerateThenRead(cr: Crypto, keys: Keys, len: nat, numTxns: nat)
    returns (report: Report, ghost blocks: seq<BlockData>)
    requires GoodKeys(cr, keys, MAX_TRANSACTIONS * (len + 1)) && NoZeroDigest(cr)
    requires 0 < len <= MAX_LENGTH && Workable(numTxns)
    ensures |blocks| == len
    ensures DistinctHashes(blocks) ==> report == Tip(blocks[len - 1].blkHash, len)
  {
    hide GoodKeys, NoZeroDigest, ChainRun, HashLinks, DistinctHashes, ParseChain, ReadBlocks, LastTip, ReportOf;
    var out;
    out, blocks := CreateChainAndWrite(cr, keys, len, numTxns);
    report := ReadChain(cr, out);
    if DistinctHashes(blocks) {
      LinkedFileIsReadWhole(cr, blocks);
    }
  }
}
