/** The main program of the stitching reader, and what it prints for a file that holds one linked chain. */
module IndexedReader {
  import opened Wrappers
  import opened Bytes
  import opened Ledger
  import opened Codec
  import opened BalanceMapCodec
  import opened Layout
  import opened Reading
  import opened Indexed
  import opened Stitching
  import opened IndexedTheorem
  import opened Blocks
  import opened SequentialReader
  import opened ChunkReader
  import opened Relink
  import ThreadManager

  // ---------- the objects of the chunks read so far ----------

  /** An accepted object of chunk `c`: one of its blocks, and on a made-up block exactly if it is the head. */
  ghost predicate ObjectOf(cr: Crypto, chunks: seq<seq<BlockData>>, maps: seq<Balances>, c: nat, n: Node, isHead: bool)
    requires |chunks| == |maps|
  {
    && c < |chunks| && n.blk in chunks[c] && (n.prev.Stub? <==> isHead)
    && (isHead ==> HeadOf(cr, InitOf(maps, c), chunks[c]) == Some(n) && n.prev.hash == n.blk.prevHash)
  }

  ghost predicate HeadPresent(nodes: map<Block, Node>, heads: set<Block>, h: Option<Node>) {
    h.Some? ==> exists b: Block :: b in heads && b in nodes && nodes[b] == h.value
  }

  ghost predicate ChunkObjects(cr: Crypto, chunks: seq<seq<BlockData>>, maps: seq<Balances>, m: nat,
                               nodes: map<Block, Node>, level: map<Block, nat>, heads: set<Block>)
    requires m <= |chunks| == |maps|
  {
    && heads <= nodes.Keys && nodes.Keys == level.Keys
    && (forall b :: b in nodes ==> level[b] < m && ObjectOf(cr, chunks, maps, level[b], nodes[b], b in heads))
    && (forall d :: 0 <= d < m ==> HeadPresent(nodes, heads, HeadOf(cr, InitOf(maps, d), chunks[d])))
  }

  function AtLevel(nodes: map<Block, Node>, c: nat): (level: map<Block, nat>)
    ensures level.Keys == nodes.Keys
  {
    map b | b in nodes :: c
  }

  lemma RunObject(cr: Crypto, chunks: seq<seq<BlockData>>, maps: seq<Balances>, c: nat, nodes: map<Block, Node>,
                  head: Block?, b: Block)
    requires ChunkedChain(chunks, maps) && c < |chunks| && b in nodes
    requires FromRun(cr, InitOf(maps, c), chunks[c], nodes, head)
    requires HeadOf(cr, InitOf(maps, c), chunks[c]).Some? <==> head != null
    requires head != null ==> NodeIs(head, nodes, HeadOf(cr, InitOf(maps, c), chunks[c]).value)
    ensures ObjectOf(cr, chunks, maps, c, nodes[b], b == head)
  {
    hide OnSegment, HeadOf, ReadBlocks, LinkedSegment;
    ChunkLinked(chunks, maps, c);
    AcceptedOnSegment(cr, InitOf(maps, c), chunks[c]);
    AcceptedWereRead(cr, InitOf(maps, c), chunks[c]);
    StubbedIsFirst(cr, InitOf(maps, c), chunks[c], nodes[b]);
    if b == head {
      HeadIsStubbed(cr, chunks, maps, c);
    }
  }

  lemma StubbedIsFirst(cr: Crypto, init: Option<Balances>, seg: seq<BlockData>, n: Node)
    requires OnSegmentSomewhere(cr, init, seg, n)
    ensures n.prev.Stub? ==> n.prev.hash == n.blk.prevHash
  {
    hide ValidateBlock;
  }

  lemma HeadIsStubbed(cr: Crypto, chunks: seq<seq<BlockData>>, maps: seq<Balances>, c: nat)
    requires ChunkedChain(chunks, maps) && c < |chunks|
    ensures var h := HeadOf(cr, InitOf(maps, c), chunks[c]);
            h.Some? ==> c > 0 && h.value.prev.Stub? && h.value.blk == chunks[c][0]
  {
    hide ValidateBlock, LinkedSegment, Flatten, Below;
    if chunks[c] != [] {
      ChunkLinked(chunks, maps, c);
      FirstAccepted(cr, InitOf(maps, c), chunks[c]);
    }
  }

  /** The objects of one more chunk. */
  lemma ObjectsMore(cr: Crypto, chunks: seq<seq<BlockData>>, maps: seq<Balances>, c: nat, nodes: map<Block, Node>,
                    level: map<Block, nat>, heads: set<Block>, more: map<Block, Node>, head: Block?, heads': set<Block>)
    requires ChunkedChain(chunks, maps) && c < |chunks|
    requires ChunkObjects(cr, chunks, maps, c, nodes, level, heads) && nodes.Keys !! more.Keys
    requires FromRun(cr, InitOf(maps, c), chunks[c], more, head)
    requires HeadAdded(heads, heads', head, more, HeadOf(cr, InitOf(maps, c), chunks[c]))
    ensures ChunkObjects(cr, chunks, maps, c + 1, nodes + more, level + AtLevel(more, c), heads')
  {
    hide ObjectOf, HeadOf, FromRun, ReadBlocks, LinkedChain;
    var nodes', level' := nodes + more, level + AtLevel(more, c);
    forall b | b in nodes'
      ensures level'[b] < c + 1 && ObjectOf(cr, chunks, maps, level'[b], nodes'[b], b in heads')
    {
      if b in more {
        RunObject(cr, chunks, maps, c, more, head, b);
      }
    }
    forall d | 0 <= d < c + 1 ensures HeadPresent(nodes', heads', HeadOf(cr, InitOf(maps, d), chunks[d])) {
      var h := HeadOf(cr, InitOf(maps, d), chunks[d]);
      if h.Some? {
        if d < c {
          assert HeadPresent(nodes, heads, h);
          var b: Block :| b in heads && b in nodes && nodes[b] == h.value;
          assert b in heads' && nodes'[b] == h.value;
        } else {
          assert head in heads' && nodes'[head] == h.value;
        }
      }
    }
  }

  /** The links of one more chunk. */
  lemma LinksMore(nodes: map<Block, Node>, stubs: set<Block>, level: map<Block, nat>, more: map<Block, Node>,
                  stub: Block?, c: nat)
    requires Links(nodes, stubs, level, map[], {}) && Represents(more, stub)
    requires nodes.Keys !! more.Keys && level.Keys == nodes.Keys
    requires stub != null ==> stub !in nodes
    requires forall s :: s in stubs ==> s !in more
    requires forall b :: b in more && more[b].prev.Stub? ==> more[b].prev.hash == more[b].blk.prevHash
    ensures Links(nodes + more, if stub == null then stubs else stubs + {stub}, level + AtLevel(more, c), map[], {})
  {
    var nodes', level' := nodes + more, level + AtLevel(more, c);
    var stubs' := if stub == null then stubs else stubs + {stub};
    forall b | b in nodes' ensures BlockNow(b, nodes'[b], nodes', stubs', level', map[], {}) {
      if b in more {
        assert Matches(b, more[b], more, stub);
      } else {
        assert BlockNow(b, nodes[b], nodes, stubs, level, map[], {});
      }
    }
  }

  lemma TailsMore(nodes: map<Block, Node>, more: map<Block, Node>, tails: map<Hash, Block>, tails': map<Hash, Block>,
                  tail: Block?, outs: seq<ChunkOut>, out: ChunkOut)
    requires MapMatches(tails, nodes, TailMap(outs)) && nodes.Keys !! more.Keys
    requires TailAdded(tails, tails', tail, more, out.tail)
    ensures MapMatches(tails', nodes + more, TailMap(outs + [out]))
  {
    assert (outs + [out])[..|outs|] == outs;
  }

  /** The chunk that a header entry leads to is read as it was meant. */
  lemma ChunkDecodes(file: seq<byte>, h: Header, chunks: seq<seq<BlockData>>, maps: seq<Balances>, c: nat)
    requires ChunkedChain(chunks, maps) && Storable(chunks, maps) && c < |chunks|
    requires |h.chunkOff| == |chunks| && forall d :: 0 <= d < |chunks| ==> ChunkAt(file, h, d, chunks[d], maps[d])
    ensures c < |h.mapOff| && h.chunkOff[c] <= h.mapOff[c] <= |file| && h.mapOff[c] > 0
    ensures HoldsMap(file[h.mapOff[c]..]) && ReadMap(file[h.mapOff[c]..]) == maps[c]
    ensures ParseChain(file[h.chunkOff[c]..h.mapOff[c]]) == chunks[c]
    ensures c > 0 && chunks[c] != [] ==> chunks[c][0].prevHash != ZERO_HASH
  {
    hide HoldsMap, ReadMap, ChainBytes, ParseChain, LinkedSegment;
    assert ChunkAt(file, h, c, chunks[c], maps[c]);
    ParseChainWritten(chunks[c]);
    ChunkLinked(chunks, maps, c);
  }

  /** What is known once the first `m` chunks have been read. */
  ghost predicate ChunksRead(cr: Crypto, chunks: seq<seq<BlockData>>, maps: seq<Balances>, m: nat,
                             nodes: map<Block, Node>, stubs: set<Block>, level: map<Block, nat>, shared: Shared)
    requires m <= |chunks| == |maps|
    reads shared, nodes.Keys, stubs
  {
    && Links(nodes, stubs, level, map[], {}) && level.Keys == nodes.Keys
    && ChunkObjects(cr, chunks, maps, m, nodes, level, shared.heads)
    && MapMatches(shared.tails, nodes, TailMap(ChunkOutsUpTo(cr, chunks, maps, m)))
  }

  /** One chunk is read after the others. */
  method ReadOneChunk(cr: Crypto, data: seq<byte>, h: Header, c: nat, shared: Shared, ghost chunks: seq<seq<BlockData>>,
                      ghost maps: seq<Balances>, ghost nodes: map<Block, Node>, ghost stubs: set<Block>,
                      ghost level: map<Block, nat>)
    returns (ghost nodes': map<Block, Node>, ghost stubs': set<Block>, ghost level': map<Block, nat>)
    requires ChunkedChain(chunks, maps) && Storable(chunks, maps) && c < |h.chunkOff| == |chunks| == |maps|
    requires forall d :: 0 <= d < |chunks| ==> ChunkAt(data, h, d, chunks[d], maps[d])
    requires ChunksRead(cr, chunks, maps, c, nodes, stubs, level, shared)
    modifies shared
    ensures ChunksRead(cr, chunks, maps, c + 1, nodes', stubs', level', shared)
    ensures forall b :: b in nodes' ==> b in nodes || fresh(b)
    ensures forall b :: b in stubs' ==> b in stubs || fresh(b)
  {
    hide ChunkedChain, Storable, ChunkAt, Links, ChunkObjects, MapMatches, HoldsMap, ReadMap, ParseChain, HeadAdded,
         TailAdded, ReadChunkSpec, FromRun, Represents, HeadOf, TailMap, AtLevel, ChunkOutsUpTo;
    ChunkDecodes(data, h, chunks, maps, c);
    OneMoreOut(cr, chunks, maps, c);
    if c > 0 {
      ChunkDecodes(data, h, chunks, maps, c - 1);
    }
    var prevMap := if c == 0 then 0 else h.mapOff[c - 1];
    assert InitAt(data, prevMap) == InitOf(maps, c);
    ghost var heads, tails := shared.heads, shared.tails;
    var _, more, stub, head, tail := ReadChunk(cr, data, prevMap, h.chunkOff[c], h.mapOff[c], shared);
    ghost var out := ReadChunkSpec(cr, InitOf(maps, c), chunks[c], maps[c]);
    OutParts(cr, InitOf(maps, c), chunks[c], maps[c]);
    StubsNamed(cr, chunks, maps, c, more, head);
    ObjectsMore(cr, chunks, maps, c, nodes, level, heads, more, head, shared.heads);
    LinksMore(nodes, stubs, level, more, stub, c);
    TailsMore(nodes, more, tails, shared.tails, tail, ChunkOutsUpTo(cr, chunks, maps, c), out);
    nodes', level' := nodes + more, level + AtLevel(more, c);
    stubs' := if stub == null then stubs else stubs + {stub};
  }

  /** All chunks are read; the order does not matter (see `ThreadRuns`), so this is the order of their creation. */
  method ReadAllChunks(cr: Crypto, data: seq<byte>, h: Header, shared: Shared, ghost chunks: seq<seq<BlockData>>,
                       ghost maps: seq<Balances>)
    returns (ghost nodes: map<Block, Node>, ghost stubs: set<Block>, ghost level: map<Block, nat>)
    requires ChunkedChain(chunks, maps) && Storable(chunks, maps) && |h.chunkOff| == |chunks|
    requires forall c :: 0 <= c < |chunks| ==> ChunkAt(data, h, c, chunks[c], maps[c])
    requires shared.heads == {} && shared.tails == map[]
    modifies shared
    ensures Links(nodes, stubs, level, map[], {})
    ensures forall b :: b in nodes || b in stubs ==> fresh(b)
    ensures ChunkObjects(cr, chunks, maps, |chunks|, nodes, level, shared.heads)
    ensures MapMatches(shared.tails, nodes, Tails(cr, chunks, maps))
  {
    hide ChunkedChain, Storable, ChunkAt, Links, ChunkObjects, MapMatches;
    nodes, stubs, level := map[], {}, map[];
    NothingRead(cr, chunks, maps);
    for c := 0 to |h.chunkOff|
      invariant |chunks| == |maps| == |h.chunkOff|
      invariant ChunksRead(cr, chunks, maps, c, nodes, stubs, level, shared)
      invariant forall b :: b in nodes || b in stubs ==> fresh(b)
    {
      nodes, stubs, level := ReadOneChunk(cr, data, h, c, shared, chunks, maps, nodes, stubs, level);
    }
  }

  lemma NothingRead(cr: Crypto, chunks: seq<seq<BlockData>>, maps: seq<Balances>)
    requires ChunkedChain(chunks, maps)
    ensures |chunks| == |maps| && Links(map[], {}, map[], map[], {})
    ensures ChunkObjects(cr, chunks, maps, 0, map[], map[], {})
    ensures MapMatches(map[], map[], TailMap(ChunkOutsUpTo(cr, chunks, maps, 0)))
  {
  }

  lemma OneMoreOut(cr: Crypto, chunks: seq<seq<BlockData>>, maps: seq<Balances>, c: nat)
    requires c < |chunks| == |maps|
    ensures ChunkOutsUpTo(cr, chunks, maps, c + 1)
         == ChunkOutsUpTo(cr, chunks, maps, c) + [ReadChunkSpec(cr, InitOf(maps, c), chunks[c], maps[c])]
  {
  }

  lemma OutParts(cr: Crypto, init: Option<Balances>, seg: seq<BlockData>, stored: Balances)
    ensures ReadChunkSpec(cr, init, seg, stored).head == HeadOf(cr, init, seg)
  {
  }

  lemma StubsNamed(cr: Crypto, chunks: seq<seq<BlockData>>, maps: seq<Balances>, c: nat, more: map<Block, Node>,
                   head: Block?)
    requires ChunkedChain(chunks, maps) && c < |chunks|
    requires FromRun(cr, InitOf(maps, c), chunks[c], more, head)
    ensures forall b :: b in more && more[b].prev.Stub? ==> more[b].prev.hash == more[b].blk.prevHash
  {
    hide LinkedSegment, ReadBlocks;
    ChunkLinked(chunks, maps, c);
    AcceptedOnSegment(cr, InitOf(maps, c), chunks[c]);
    forall b | b in more && more[b].prev.Stub? ensures more[b].prev.hash == more[b].blk.prevHash {
      StubbedIsFirst(cr, InitOf(maps, c), chunks[c], more[b]);
    }
  }

  // ---------- stitching them ----------

  lemma LinksForTails(nodes: map<Block, Node>, stubs: set<Block>, level: map<Block, nat>, tails: map<Hash, Block>)
    requires Links(nodes, stubs, level, map[], {})
    ensures Links(nodes, stubs, level, tails, {})
  {
    forall b | b in nodes ensures BlockNow(b, nodes[b], nodes, stubs, level, tails, {}) {
      assert BlockNow(b, nodes[b], nodes, stubs, level, map[], {});
    }
  }

  /** The tail that the head of a chunk names is in the nearest chunk below that holds a block. */
  lemma HeadNamesBelow(cr: Crypto, chunks: seq<seq<BlockData>>, maps: seq<Balances>, c: nat, n: Node)
    requires ChunkedChain(chunks, maps) && ObjectOf(cr, chunks, maps, c, n, true)
    ensures c > 0 && chunks[c] != []
    ensures var d := Below(chunks, c); n.blk.prevHash == chunks[d][|chunks[d]| - 1].blkHash
  {
    hide LinkedChain, HeadOf, Flatten, Below, LinkedSegment;
    HeadIsStubbed(cr, chunks, maps, c);
    ChunkLinked(chunks, maps, c);
  }

  /** A block in chunk `d` with the hash of a block in chunk `c` is the same chunk's. */
  lemma SameChunk(cr: Crypto, chunks: seq<seq<BlockData>>, maps: seq<Balances>, d: nat, n: Node, isHead: bool, c: nat,
                  k: nat)
    requires ChunkedChain(chunks, maps) && ObjectOf(cr, chunks, maps, d, n, isHead)
    requires c < |chunks| && k < |chunks[c]| && n.blk.blkHash == chunks[c][k].blkHash
    ensures c == d
  {
    hide LinkedChain, HeadOf, Flatten;
    var j :| 0 <= j < |chunks[d]| && chunks[d][j] == n.blk;
    SamePlace(chunks, maps, d, j, c, k);
  }

  /** A head names the last block of a chunk below, so the tail it is put on is of a lower chunk. */
  lemma NamedTailIsLower(cr: Crypto, chunks: seq<seq<BlockData>>, maps: seq<Balances>, nodes: map<Block, Node>,
                         level: map<Block, nat>, heads: set<Block>, tails: map<Hash, Block>, b: Block)
    requires ChunkedChain(chunks, maps) && ChunkObjects(cr, chunks, maps, |chunks|, nodes, level, heads)
    requires MapMatches(tails, nodes, Tails(cr, chunks, maps))
    requires b in nodes && nodes[b].prev.Stub? && nodes[b].blk.prevHash in tails
    ensures level[tails[nodes[b].blk.prevHash]] < level[b]
  {
    hide LinkedChain, Flatten, HeadOf, Tails, ObjectOf, HeadPresent, Below;
    var c, h := level[b], nodes[b].blk.prevHash;
    assert ObjectOf(cr, chunks, maps, c, nodes[b], b in heads);
    assert b in heads by { StubsAreHeads(cr, chunks, maps, c, nodes[b], b in heads); }
    HeadNamesBelow(cr, chunks, maps, c, nodes[b]);
    var t, e := tails[h], Below(chunks, c);
    assert ObjectOf(cr, chunks, maps, level[t], nodes[t], t in heads);
    TailHash(cr, chunks, maps, h);
    SameChunk(cr, chunks, maps, level[t], nodes[t], t in heads, e, |chunks[e]| - 1);
  }

  lemma StubsAreHeads(cr: Crypto, chunks: seq<seq<BlockData>>, maps: seq<Balances>, c: nat, n: Node, isHead: bool)
    requires |chunks| == |maps| && ObjectOf(cr, chunks, maps, c, n, isHead)
    ensures n.prev.Stub? <==> isHead
  {
  }

  lemma TailHash(cr: Crypto, chunks: seq<seq<BlockData>>, maps: seq<Balances>, h: Hash)
    requires |chunks| == |maps| && h in Tails(cr, chunks, maps)
    ensures Tails(cr, chunks, maps)[h].blk.blkHash == h
  {
    TailMapHolds(ChunkOuts(cr, chunks, maps));
  }

  lemma NoCycle(cr: Crypto, chunks: seq<seq<BlockData>>, maps: seq<Balances>, nodes: map<Block, Node>,
                level: map<Block, nat>, heads: set<Block>, tails: map<Hash, Block>)
    requires ChunkedChain(chunks, maps) && ChunkObjects(cr, chunks, maps, |chunks|, nodes, level, heads)
    requires MapMatches(tails, nodes, Tails(cr, chunks, maps))
    ensures Descending(nodes, level, tails, |chunks|)
    ensures heads <= nodes.Keys && forall b :: b in nodes ==> (nodes[b].prev.Stub? <==> b in heads)
  {
    hide LinkedChain, HeadOf, Tails;
    forall b | b in nodes ensures nodes[b].prev.Stub? <==> b in heads {
      assert ObjectOf(cr, chunks, maps, level[b], nodes[b], b in heads);
    }
    forall b | b in nodes && nodes[b].prev.Stub? && nodes[b].blk.prevHash in tails
      ensures level[tails[nodes[b].blk.prevHash]] < level[b]
    {
      NamedTailIsLower(cr, chunks, maps, nodes, level, heads, tails, b);
    }
  }

  /** All head objects find their tail object exactly when all head values find theirs. */
  lemma HeadsFoundIff(cr: Crypto, chunks: seq<seq<BlockData>>, maps: seq<Balances>, nodes: map<Block, Node>,
                      level: map<Block, nat>, heads: set<Block>, tails: map<Hash, Block>)
    requires |chunks| == |maps| && ChunkObjects(cr, chunks, maps, |chunks|, nodes, level, heads)
    requires MapMatches(tails, nodes, Tails(cr, chunks, maps))
    ensures (forall b :: b in heads ==> nodes[b].blk.prevHash in tails)
            ==> AllHeadsFound(ChunkOuts(cr, chunks, maps))
    ensures AllHeadsFound(ChunkOuts(cr, chunks, maps))
            ==> forall b :: b in heads ==> nodes[b].blk.prevHash in tails
  {
    hide HeadOf, TailOf;
    var outs := ChunkOuts(cr, chunks, maps);
    if forall b :: b in heads ==> nodes[b].blk.prevHash in tails {
      forall c {:trigger outs[c]} | 0 <= c < |outs| && outs[c].head.Some?
        ensures outs[c].head.value.blk.prevHash in TailMap(outs)
      {
        ChunkOutAt(cr, chunks, maps, c);
        assert HeadPresent(nodes, heads, outs[c].head);
      }
    }
    if AllHeadsFound(outs) {
      forall b | b in heads ensures nodes[b].blk.prevHash in tails {
        assert ObjectOf(cr, chunks, maps, level[b], nodes[b], b in heads);
        ChunkOutAt(cr, chunks, maps, level[b]);
      }
    }
  }

  /** The longest reported length is unique, and with it the printed line. */
  lemma ReportDecides(cr: Crypto, chunks: seq<seq<BlockData>>, maps: seq<Balances>, report: Report)
    requires ChunkedChain(chunks, maps)
    requires report.Tip? ==> Reports(ChunkOuts(cr, chunks, maps), report.hash, report.length)
    requires report.Invalid? ==> !AllHeadsFound(ChunkOuts(cr, chunks, maps)) || Tails(cr, chunks, maps) == map[]
    ensures var blocks := Flatten(chunks);
            && (report == Tip(blocks[|blocks| - 1].blkHash, |blocks|) <==> ChunksSound(cr, chunks, maps, |chunks|))
            && (report == Tip(blocks[|blocks| - 1].blkHash, |blocks|) && EmptyMapsRight(chunks, maps, |chunks|)
                <==> SequentialAgrees(cr, chunks, maps))
  {
    hide SequentialAgrees, StitchedLength, AllHeadsFound, LinkedSegment, Flatten, TailMap, ChunkOuts, ChunksSound,
         EmptyMapsRight;
    ReportedIffChunksSound(cr, chunks, maps);
    IndexedIffSequential(cr, chunks, maps);
    if ChunksSound(cr, chunks, maps, |chunks|) {
      var h :| Reports(ChunkOuts(cr, chunks, maps), h, |Flatten(chunks)|);
    }
  }

  /**
   * The stitching reader on a file that holds one linked chain in chunks of which only the first must hold a block. It
   * prints the whole chain exactly when every chunk that holds a block is sound; that, with maps after empty chunks
   * that repeat the ones before, is the same as a sequential reader that accepts all blocks and maps that are all right
   * up to zero entries. When it prints "invalid", some head found no tail or no chunk had one; and what it prints else
   * is a longest stitched tail. The thread manager asks for no more chunks than it has threads.
   */
  method ReadIndexed(cr: Crypto, file: seq<byte>, ghost chunks: seq<seq<BlockData>>, ghost maps: seq<Balances>)
    returns (report: Report)
    requires IndexedFile(file, chunks, maps) && ChunkedChain(chunks, maps) && |chunks| <= ThreadManager.MAX_THREADS
    ensures report.Invalid? <==> !AllHeadsFound(ChunkOuts(cr, chunks, maps)) || Tails(cr, chunks, maps) == map[]
    ensures report.Tip? ==> Reports(ChunkOuts(cr, chunks, maps), report.hash, report.length)
    ensures var blocks := Flatten(chunks);
            && (report == Tip(blocks[|blocks| - 1].blkHash, |blocks|) <==> ChunksSound(cr, chunks, maps, |chunks|))
            && (report == Tip(blocks[|blocks| - 1].blkHash, |blocks|) && EmptyMapsRight(chunks, maps, |chunks|)
                <==> SequentialAgrees(cr, chunks, maps))
  {
    hide ChunksSound, EmptyMapsRight, ChunkedChain, ChunkAt, Links, ChunkObjects, AllHeadsFound, StitchedLength,
         SequentialAgrees, Flatten, ChunkOuts, Descending, AllRelinked;
    var header := ExtractHeader(file);
    var shared := new Shared();
    ghost var nodes, stubs, level := ReadAllChunks(cr, file, header.value, shared, chunks, maps);
    Sizes(chunks, maps);
    LinksForTails(nodes, stubs, level, shared.tails);
    NoCycle(cr, chunks, maps, nodes, level, shared.heads, shared.tails);
    HeadsFoundIff(cr, chunks, maps, nodes, level, shared.heads, shared.tails);
    ghost var m := Tails(cr, chunks, maps);
    var valid, relinked := RelinkHeads(shared.heads, shared.tails, nodes, stubs, level, |chunks|);
    var tip, at := ChooseTip(shared.tails, nodes, stubs, level, relinked, m, |chunks|);
    report := if valid && tip != null then Tip(tip.blkHash, tip.length) else Invalid;
    TailsEmptyIff(shared.tails, nodes, m);
    if report.Tip? {
      TailOfMap(shared.tails, nodes, m, at);
      TailHash(cr, chunks, maps, at);
    }
    ReportDecides(cr, chunks, maps, report);
  }

  lemma Sizes(chunks: seq<seq<BlockData>>, maps: seq<Balances>)
    requires ChunkedChain(chunks, maps)
    ensures |chunks| == |maps| && Flatten(chunks) != []
  {
  }

  lemma TailsEmptyIff(tails: map<Hash, Block>, nodes: map<Block, Node>, m: map<Hash, Node>)
    requires MapMatches(tails, nodes, m)
    ensures tails == map[] <==> m == map[]
  {
    assert tails == map[] <==> tails.Keys == {};
    assert m == map[] <==> m.Keys == {};
  }
}
