/** When the stitching reader reports the whole chain, and when that is what the sequential reader says. */
module IndexedTheorem {
  import opened Wrappers
  import opened Bytes
  import opened Ledger
  import opened Reading
  import opened Indexed
  import opened Stitching

  // ---------- looking up tails ----------

  ghost predicate IsTailOf(outs: seq<ChunkOut>, d: nat, t: Node) {
    d < |outs| && outs[d].tail == Some(t)
  }

  lemma {:induction false} TailMapHolds(outs: seq<ChunkOut>)
    ensures forall h :: h in TailMap(outs) ==>
              TailMap(outs)[h].blk.blkHash == h && exists d: nat :: IsTailOf(outs, d, TailMap(outs)[h])
    ensures forall d: nat, t :: IsTailOf(outs, d, t) ==> t.blk.blkHash in TailMap(outs)
  {
    if outs != [] {
      var m := |outs| - 1;
      var before := outs[..m];
      TailMapHolds(before);
      forall h | h in TailMap(outs)
        ensures TailMap(outs)[h].blk.blkHash == h && exists d: nat :: IsTailOf(outs, d, TailMap(outs)[h])
      {
        if outs[m].tail.Some? && h == outs[m].tail.value.blk.blkHash {
          assert IsTailOf(outs, m, TailMap(outs)[h]);
        } else {
          var d: nat :| IsTailOf(before, d, TailMap(before)[h]);
          assert IsTailOf(outs, d, TailMap(outs)[h]);
        }
      }
      forall d: nat, t | IsTailOf(outs, d, t) ensures t.blk.blkHash in TailMap(outs) {
        if d < m {
          assert IsTailOf(before, d, t);
        }
      }
    }
  }

  /** A tail sits at some block of its chunk, and the stored map agrees with it. */
  lemma TailPlace(cr: Crypto, chunks: seq<seq<BlockData>>, maps: seq<Balances>, d: nat, t: Node) returns (j: nat)
    requires ChunkedChain(chunks, maps) && d < |chunks|
    requires TailOf(cr, InitOf(maps, d), chunks[d], maps[d]) == Some(t)
    ensures OnSegment(cr, InitOf(maps, d), chunks[d], t, j) && SameMoney(t.balances, maps[d])
  {
    hide OnSegment, SameMoney, ReadBlocks, LinkedSegment;
    ChunkLinked(chunks, maps, d);
    AcceptedOnSegment(cr, InitOf(maps, d), chunks[d]);
    assert OnSegmentSomewhere(cr, InitOf(maps, d), chunks[d], t);
    j :| OnSegment(cr, InitOf(maps, d), chunks[d], t, j);
  }

  /** Every entry of the tail map is the tail of some chunk and sits at some block of it. */
  lemma TailOrigin(cr: Crypto, chunks: seq<seq<BlockData>>, maps: seq<Balances>, h: Hash) returns (d: nat, j: nat)
    requires ChunkedChain(chunks, maps)
    requires h in Tails(cr, chunks, maps)
    ensures var t := Tails(cr, chunks, maps)[h];
            && d < |chunks| && j < |chunks[d]| && t.blk == chunks[d][j] && t.blk.blkHash == h
            && OnSegment(cr, InitOf(maps, d), chunks[d], t, j) && SameMoney(t.balances, maps[d])
            && TailOf(cr, InitOf(maps, d), chunks[d], maps[d]) == Some(t)
  {
    hide OnSegment, SameMoney, TailOf, HeadOf, LinkedChain, TailMap;
    var outs := ChunkOuts(cr, chunks, maps);
    TailMapHolds(outs);
    var t := TailMap(outs)[h];
    d :| IsTailOf(outs, d, t);
    ChunkOutAt(cr, chunks, maps, d);
    j := TailPlace(cr, chunks, maps, d, t);
    PlaceOnSegment(cr, InitOf(maps, d), chunks[d], t, j);
  }

  /** The tail named by the first block of a chunk is the last block of the nearest chunk below that holds one. */
  lemma TailBefore(cr: Crypto, chunks: seq<seq<BlockData>>, maps: seq<Balances>, c: nat)
    requires ChunkedChain(chunks, maps) && 0 < c < |chunks| && chunks[c] != []
    requires chunks[c][0].prevHash in Tails(cr, chunks, maps)
    ensures var outs, d := ChunkOuts(cr, chunks, maps), Below(chunks, c);
            var t := Tails(cr, chunks, maps)[chunks[c][0].prevHash];
            && outs[d].tail == Some(t) && SameMoney(t.balances, maps[d])
            && OnSegment(cr, InitOf(maps, d), chunks[d], t, |chunks[d]| - 1)
  {
    hide OnSegment, SameMoney, TailMap, TailOf, HeadOf, LinkedSegment, Flatten, Below;
    var h, b := chunks[c][0].prevHash, Below(chunks, c);
    var d, j := TailOrigin(cr, chunks, maps, h);
    ChunkLinked(chunks, maps, c);
    SamePlace(chunks, maps, d, j, b, |chunks[b]| - 1);
    ChunkOutAt(cr, chunks, maps, d);
  }

  lemma PlaceOnSegment(cr: Crypto, init: Option<Balances>, seg: seq<BlockData>, n: Node, k: nat)
    requires OnSegment(cr, init, seg, n, k)
    ensures k < |seg| && n.blk == seg[k]
  {
  }

  // ---------- what a reported whole chain says ----------

  /** Chunk `c` is valid from the map stored before it, and ends in the map stored after it, up to zeros. */
  ghost predicate ChunkSound(cr: Crypto, chunks: seq<seq<BlockData>>, maps: seq<Balances>, c: nat)
    requires c < |chunks| == |maps|
  {
    var r := ChainRun(cr, StartOf(InitOf(maps, c)), chunks[c]);
    r.ok && SameMoney(r.balances, maps[c])
  }

  /** All that the reader can see: each of the first `m` chunks is sound, if it holds a block. */
  ghost predicate ChunksSound(cr: Crypto, chunks: seq<seq<BlockData>>, maps: seq<Balances>, m: nat)
    requires m <= |chunks| == |maps|
  {
    forall c :: 0 <= c < m && chunks[c] != [] ==> ChunkSound(cr, chunks, maps, c)
  }

  /** The stitched chain below `n` is complete: its chunk is valid up to it and the chunks below are sound. */
  ghost predicate SoundAt(cr: Crypto, chunks: seq<seq<BlockData>>, maps: seq<Balances>, c: nat, k: nat, n: Node)
    requires c < |chunks| == |maps| && k < |chunks[c]|
  {
    && ChunksSound(cr, chunks, maps, c)
    && ChainRun(cr, StartOf(InitOf(maps, c)), chunks[c][..k + 1]) == Run(n.balances, true)
  }

  lemma SoundOneMore(cr: Crypto, chunks: seq<seq<BlockData>>, maps: seq<Balances>, c: nat, k: nat, n: Node)
    requires c < |chunks| == |maps| && k < |chunks[c]| && n.blk == chunks[c][k] && ChunksSound(cr, chunks, maps, c)
    requires ChainRun(cr, StartOf(InitOf(maps, c)), chunks[c][..k]) == Run(StartBalances(n.prev), true)
    requires ValidateBlock(cr, n.blk, StartBalances(n.prev)) == Run(n.balances, true)
    ensures SoundAt(cr, chunks, maps, c, k, n)
  {
    hide ValidateBlock, ChunksSound;
    assert chunks[c][..k + 1] == chunks[c][..k] + [n.blk];
    ChainRunAppend(cr, StartOf(InitOf(maps, c)), chunks[c][..k], n.blk);
  }

  /** A complete last block with the stored map makes its chunk sound. */
  lemma SoundStart(cr: Crypto, chunks: seq<seq<BlockData>>, maps: seq<Balances>, c: nat, k: nat, t: Node, m: nat)
    requires c < m <= |chunks| == |maps| && k + 1 == |chunks[c]| && forall e :: c < e < m ==> chunks[e] == []
    requires SoundAt(cr, chunks, maps, c, k, t) && SameMoney(t.balances, maps[c])
    ensures ChunksSound(cr, chunks, maps, m)
  {
    hide ChainRun, SameMoney;
    assert chunks[c][..k + 1] == chunks[c];
    assert ChunkSound(cr, chunks, maps, c);
  }

  /**
   * The stitched length of a block is at most its place in the chain, and it reaches that only if its chunk is valid up
   * to it and all chunks below are sound.
   */
  lemma {:induction false} LengthBound(cr: Crypto, chunks: seq<seq<BlockData>>, maps: seq<Balances>, c: nat, k: nat,
                                       n: Node, hops: nat)
    requires ChunkedChain(chunks, maps) && c < |chunks| && c <= hops
    requires AllHeadsFound(ChunkOuts(cr, chunks, maps))
    requires OnSegment(cr, InitOf(maps, c), chunks[c], n, k)
    ensures var length := StitchedLength(Tails(cr, chunks, maps), n, hops);
            && length <= Start(chunks, c) + k + 1
            && (length == Start(chunks, c) + k + 1 ==> SoundAt(cr, chunks, maps, c, k, n))
    decreases c, k
  {
    hide LinkedChain, ValidateBlock, AllHeadsFound, Tails, ChunkOuts, SoundAt, Flatten, SameMoney, Below, Start;
    var length := StitchedLength(Tails(cr, chunks, maps), n, hops);
    match n.prev {
      case Linked(p) =>
        LengthBound(cr, chunks, maps, c, k - 1, p, hops);
        if length == Start(chunks, c) + k + 1 {
          BoundLinked(cr, chunks, maps, c, k, n);
        }
      case Stub(h, m) =>
        HeadFound(cr, chunks, maps, c, n);
        TailBefore(cr, chunks, maps, c);
        var t, d := Tails(cr, chunks, maps)[h], Below(chunks, c);
        LengthBound(cr, chunks, maps, d, |chunks[d]| - 1, t, hops - 1);
        StartAfterBelow(chunks, c);
        if length == Start(chunks, c) + k + 1 {
          BoundStub(cr, chunks, maps, c, n, t);
        }
      case NoPrev =>
        BoundBottom(cr, chunks, maps, c, k, n);
    }
  }

  lemma BoundLinked(cr: Crypto, chunks: seq<seq<BlockData>>, maps: seq<Balances>, c: nat, k: nat, n: Node)
    requires ChunkedChain(chunks, maps) && c < |chunks| && n.prev.Linked?
    requires OnSegment(cr, InitOf(maps, c), chunks[c], n, k)
    requires k > 0 && SoundAt(cr, chunks, maps, c, k - 1, n.prev.node)
    ensures SoundAt(cr, chunks, maps, c, k, n)
  {
    hide LinkedChain, ValidateBlock, ChunksSound, Flatten, ChainRun;
    SoundOneMore(cr, chunks, maps, c, k, n);
  }

  lemma HeadFound(cr: Crypto, chunks: seq<seq<BlockData>>, maps: seq<Balances>, c: nat, n: Node)
    requires ChunkedChain(chunks, maps) && c < |chunks|
    requires AllHeadsFound(ChunkOuts(cr, chunks, maps))
    requires OnSegment(cr, InitOf(maps, c), chunks[c], n, 0) && n.prev.Stub?
    ensures c > 0 && n.prev.hash == chunks[c][0].prevHash
    ensures n.prev.hash in Tails(cr, chunks, maps)
  {
    hide ValidateBlock, TailMap, TailOf, Flatten, SameMoney, Below;
    var outs := ChunkOuts(cr, chunks, maps);
    ChunkLinked(chunks, maps, c);
    FirstAccepted(cr, InitOf(maps, c), chunks[c]);
    ChunkOutAt(cr, chunks, maps, c);
    assert outs[c].head.Some?;
  }

  /** The first block is accepted exactly when it validates on its start link. */
  lemma FirstAccepted(cr: Crypto, init: Option<Balances>, seg: seq<BlockData>)
    requires seg != []
    ensures var prev := FirstPrev(seg[0], init);
            var r := ValidateBlock(cr, seg[0], StartBalances(prev));
            ReadBlocks(cr, init, seg[..1]).accepted
            == if r.ok then [Node(seg[0], LengthAfter(prev), r.balances, prev)] else []
  {
    hide ValidateBlock;
    assert seg[..1] == [] + [seg[0]];
    ReadOneMore(cr, init, [], seg[0]);
  }

  lemma BoundStub(cr: Crypto, chunks: seq<seq<BlockData>>, maps: seq<Balances>, c: nat, n: Node, t: Node)
    requires ChunkedChain(chunks, maps) && 0 < c < |chunks|
    requires OnSegment(cr, InitOf(maps, c), chunks[c], n, 0) && n.prev.Stub?
    requires var d := Below(chunks, c);
             SoundAt(cr, chunks, maps, d, |chunks[d]| - 1, t) && SameMoney(t.balances, maps[d])
    ensures SoundAt(cr, chunks, maps, c, 0, n)
  {
    hide ValidateBlock, Flatten, SameMoney, LinkedChain, Below, SoundAt, ChunksSound;
    var d := Below(chunks, c);
    SoundStart(cr, chunks, maps, d, |chunks[d]| - 1, t, c);
    assert chunks[c][..0] == [];
    SoundOneMore(cr, chunks, maps, c, 0, n);
  }

  lemma BoundBottom(cr: Crypto, chunks: seq<seq<BlockData>>, maps: seq<Balances>, c: nat, k: nat, n: Node)
    requires ChunkedChain(chunks, maps) && c < |chunks|
    requires OnSegment(cr, InitOf(maps, c), chunks[c], n, k) && n.prev.NoPrev?
    ensures Start(chunks, c) + k == 0 ==> SoundAt(cr, chunks, maps, c, k, n)
  {
    hide ValidateBlock, LinkedChain, Below, Flatten, Start;
    if c > 0 {
      StartAfterBelow(chunks, c);
    } else if k == 0 {
      assert chunks[0][..0] == [];
      SoundOneMore(cr, chunks, maps, 0, 0, n);
    }
  }

  /** A place as high as the chain is long is its last one, and only empty chunks follow. */
  lemma WholeChainEnds(chunks: seq<seq<BlockData>>, maps: seq<Balances>, d: nat, j: nat)
    requires ChunkedChain(chunks, maps) && d < |chunks| && j < |chunks[d]|
    requires |Flatten(chunks)| <= Start(chunks, d) + j + 1
    ensures j + 1 == |chunks[d]| && |Flatten(chunks)| == Start(chunks, d) + j + 1
    ensures forall e :: d < e < |chunks| ==> chunks[e] == []
    ensures Flatten(chunks)[|Flatten(chunks)| - 1] == chunks[d][j]
  {
    hide LinkedChain, Flatten, Start;
    ChunkInChain(chunks, d);
    forall e | d < e < |chunks| ensures chunks[e] == [] {
      StartsGrow(chunks, d + 1, e);
      ChunkInChain(chunks, e);
    }
  }

  /** If the whole chain is reported then all chunks that hold a block are sound, and the report is its last block. */
  lemma ReportIsSound(cr: Crypto, chunks: seq<seq<BlockData>>, maps: seq<Balances>, h: Hash)
    requires ChunkedChain(chunks, maps)
    requires Reports(ChunkOuts(cr, chunks, maps), h, |Flatten(chunks)|)
    ensures ChunksSound(cr, chunks, maps, |chunks|)
    ensures h == Flatten(chunks)[|Flatten(chunks)| - 1].blkHash
  {
    hide OnSegment, SameMoney, TailOf, LinkedChain, SoundAt, ChunksSound, TailMap, ChunkOuts, Flatten, StitchedLength,
         Start;
    var outs := ChunkOuts(cr, chunks, maps);
    var t := TailMap(outs)[h];
    var d, j := TailOrigin(cr, chunks, maps, h);
    LengthBound(cr, chunks, maps, d, j, t, |outs|);
    WholeChainEnds(chunks, maps, d, j);
    SoundStart(cr, chunks, maps, d, j, t, |chunks|);
  }

  // ---------- sound chunks are reported whole ----------

  /** The tail of a sound chunk is its last block, on top of all the others. */
  lemma SoundTail(cr: Crypto, chunks: seq<seq<BlockData>>, maps: seq<Balances>, c: nat)
    requires ChunkedChain(chunks, maps) && c < |chunks| && chunks[c] != [] && ChunkSound(cr, chunks, maps, c)
    ensures var init, last := InitOf(maps, c), |chunks[c]| - 1;
            && TailOf(cr, init, chunks[c], maps[c]) == Some(FullNode(cr, init, chunks[c], last))
            && HeadOf(cr, init, chunks[c]).Some? == (c > 0)
            && (c > 0 ==> HeadOf(cr, init, chunks[c]).value.blk == chunks[c][0])
  {
    hide ValidateBlock, SameMoney, LinkedChain, Flatten, LinkedSegment, ReadBlocks, Below;
    var init, seg := InitOf(maps, c), chunks[c];
    ChunkLinked(chunks, maps, c);
    ValidSegmentAccepted(cr, init, seg);
    assert seg[..|seg| - 1 + 1] == seg;
    LinkedPart(seg, 0, 1);
    assert seg[0..1] == seg[..1];
    ChainRunPrefix(cr, StartOf(init), seg, 1);
    ValidSegmentAccepted(cr, init, seg[..1]);
    assert FullNodes(cr, init, seg[..1], 1)[0].blk == seg[0];
  }

  /** The last block of chunk `c` can be looked up, on top of all the others of the chunk. */
  ghost predicate LastIsTail(cr: Crypto, chunks: seq<seq<BlockData>>, maps: seq<Balances>, c: nat)
    requires c < |chunks| == |maps| && chunks[c] != []
  {
    var tails, last := Tails(cr, chunks, maps), |chunks[c]| - 1;
    var h := chunks[c][last].blkHash;
    h in tails && tails[h] == FullNode(cr, InitOf(maps, c), chunks[c], last)
  }

  lemma SoundTailFound(cr: Crypto, chunks: seq<seq<BlockData>>, maps: seq<Balances>, c: nat)
    requires c < |chunks| == |maps| && chunks[c] != []
    requires ChunkedChain(chunks, maps) && ChunkSound(cr, chunks, maps, c)
    ensures LastIsTail(cr, chunks, maps, c)
  {
    hide LinkedChain, ChunkSound, TailMap, TailOf, HeadOf, OnSegment, FullNode;
    var outs, last := ChunkOuts(cr, chunks, maps), |chunks[c]| - 1;
    SoundTail(cr, chunks, maps, c);
    ChunkOutAt(cr, chunks, maps, c);
    TailMapHolds(outs);
    assert IsTailOf(outs, c, FullNode(cr, InitOf(maps, c), chunks[c], last));
    var d, j := TailOrigin(cr, chunks, maps, chunks[c][last].blkHash);
    SamePlace(chunks, maps, c, last, d, j);
  }

  lemma SoundHeadsFound(cr: Crypto, chunks: seq<seq<BlockData>>, maps: seq<Balances>)
    requires ChunkedChain(chunks, maps) && ChunksSound(cr, chunks, maps, |chunks|)
    ensures AllHeadsFound(ChunkOuts(cr, chunks, maps))
  {
    hide LinkedChain, ChunkSound, TailMap, TailOf, FullNode, Below;
    var outs := ChunkOuts(cr, chunks, maps);
    forall c {:trigger outs[c]} | 0 <= c < |outs| && outs[c].head.Some?
      ensures outs[c].head.value.blk.prevHash in TailMap(outs)
    {
      ChunkOutAt(cr, chunks, maps, c);
      assert chunks[c] != [];
      SoundTail(cr, chunks, maps, c);
      ChunkLinked(chunks, maps, c);
      SoundTailFound(cr, chunks, maps, Below(chunks, c));
    }
  }

  lemma {:induction false} SoundLength(cr: Crypto, chunks: seq<seq<BlockData>>, maps: seq<Balances>, c: nat, k: nat,
                                       hops: nat)
    requires ChunkedChain(chunks, maps) && ChunksSound(cr, chunks, maps, |chunks|)
    requires c < |chunks| && k < |chunks[c]| && c <= hops
    ensures StitchedLength(Tails(cr, chunks, maps),
                           FullNode(cr, InitOf(maps, c), chunks[c], k), hops) == Start(chunks, c) + k + 1
    decreases c, k
  {
    hide LinkedChain, ChunkSound, TailMap, ChunkOuts, Flatten, ChainRun, Below, Start;
    if k > 0 {
      SoundLength(cr, chunks, maps, c, k - 1, hops);
    } else if c > 0 {
      var d := Below(chunks, c);
      ChunkLinked(chunks, maps, c);
      SoundTailFound(cr, chunks, maps, d);
      SoundLength(cr, chunks, maps, d, |chunks[d]| - 1, hops - 1);
      StartAfterBelow(chunks, c);
    } else {
      StartOfFirst(chunks);
    }
  }

  lemma SoundIsReported(cr: Crypto, chunks: seq<seq<BlockData>>, maps: seq<Balances>)
    requires ChunkedChain(chunks, maps) && ChunksSound(cr, chunks, maps, |chunks|)
    ensures var blocks := Flatten(chunks);
            Reports(ChunkOuts(cr, chunks, maps), blocks[|blocks| - 1].blkHash, |blocks|)
  {
    hide LinkedChain, ChunkSound, TailMap, Flatten, FullNode, StitchedLength, OnSegment, Below, Start;
    var outs := ChunkOuts(cr, chunks, maps);
    var c := Below(chunks, |chunks|);
    var last := |chunks[c]| - 1;
    SoundHeadsFound(cr, chunks, maps);
    SoundTailFound(cr, chunks, maps, c);
    SoundLength(cr, chunks, maps, c, last, |outs|);
    StartAfterBelow(chunks, |chunks|);
    StartOfAll(chunks);
    WholeChainEnds(chunks, maps, c, last);
    forall o | o in TailMap(outs) ensures StitchedLength(TailMap(outs), TailMap(outs)[o], |outs|) <= |Flatten(chunks)| {
      var d, j := TailOrigin(cr, chunks, maps, o);
      LengthBound(cr, chunks, maps, d, j, TailMap(outs)[o], |outs|);
      ChunkInChain(chunks, d);
    }
  }

  lemma StartOfAll(chunks: seq<seq<BlockData>>)
    ensures Start(chunks, |chunks|) == |Flatten(chunks)|
  {
    assert chunks[..|chunks|] == chunks;
  }

  /** What the reader decides: the whole chain is reported exactly when every chunk that holds a block is sound. */
  lemma ReportedIffChunksSound(cr: Crypto, chunks: seq<seq<BlockData>>, maps: seq<Balances>)
    requires ChunkedChain(chunks, maps)
    ensures (exists h :: Reports(ChunkOuts(cr, chunks, maps), h, |Flatten(chunks)|))
            <==> ChunksSound(cr, chunks, maps, |chunks|)
    ensures forall h :: Reports(ChunkOuts(cr, chunks, maps), h, |Flatten(chunks)|)
                        ==> h == Flatten(chunks)[|Flatten(chunks)| - 1].blkHash
  {
    hide ChunksSound, Flatten, ChunkOuts, Tails, StitchedLength, LinkedSegment, Reports;
    var blocks := Flatten(chunks);
    forall h | Reports(ChunkOuts(cr, chunks, maps), h, |Flatten(chunks)|)
      ensures h == Flatten(chunks)[|Flatten(chunks)| - 1].blkHash && ChunksSound(cr, chunks, maps, |chunks|)
    {
      ReportIsSound(cr, chunks, maps, h);
    }
    if ChunksSound(cr, chunks, maps, |chunks|) {
      SoundIsReported(cr, chunks, maps);
      assert Reports(ChunkOuts(cr, chunks, maps), blocks[|blocks| - 1].blkHash, |blocks|);
    }
  }

  // ---------- sound chunks and the sequential balances ----------

  /** The first `c` chunks are valid in sequence, and their stored maps are the sequential balances up to zeros. */
  ghost predicate SoundUpTo(cr: Crypto, chunks: seq<seq<BlockData>>, maps: seq<Balances>, c: nat)
    requires c <= |chunks| == |maps|
  {
    c == 0
    || (var r := ChainRun(cr, map[], Flatten(chunks[..c]));
        SoundUpTo(cr, chunks, maps, c - 1) && r.ok && SameMoney(maps[c - 1], r.balances))
  }

  /** The map stored after an empty chunk is the one stored before it, up to zeros. */
  ghost predicate EmptyMapRight(chunks: seq<seq<BlockData>>, maps: seq<Balances>, c: nat)
    requires 0 < c < |chunks| == |maps|
  {
    chunks[c] == [] ==> SameMoney(maps[c], maps[c - 1])
  }

  ghost predicate EmptyMapsRight(chunks: seq<seq<BlockData>>, maps: seq<Balances>, m: nat)
    requires m <= |chunks| == |maps|
  {
    forall c :: 0 < c < m ==> EmptyMapRight(chunks, maps, c)
  }

  lemma SoundPrefix(cr: Crypto, chunks: seq<seq<BlockData>>, maps: seq<Balances>, c: nat)
    requires c < |chunks| == |maps| && SoundUpTo(cr, chunks, maps, c)
    ensures var r := ChainRun(cr, map[], Flatten(chunks[..c]));
            r.ok && SameMoney(StartOf(InitOf(maps, c)), r.balances)
  {
    if c == 0 {
      assert chunks[..0] == [];
      assert Flatten(chunks[..0]) == [];
    }
  }

  /** On right balances a chunk is sound exactly when the chain goes on in sequence to the map stored after it. */
  lemma SoundChunk(cr: Crypto, chunks: seq<seq<BlockData>>, maps: seq<Balances>, c: nat)
    requires c < |chunks| == |maps| && SoundUpTo(cr, chunks, maps, c)
    ensures ChunkSound(cr, chunks, maps, c) <==> SoundUpTo(cr, chunks, maps, c + 1)
  {
    hide Flatten, SameMoney, ChainRun;
    FlattenUpTo(chunks, c);
    SoundPrefix(cr, chunks, maps, c);
    var before, here := Flatten(chunks[..c]), ChainRun(cr, map[], Flatten(chunks[..c + 1]));
    var b := ChainRun(cr, map[], before);
    ChainRunSplit(cr, map[], before, chunks[c]);
    ChainCongruence(cr, chunks[c], StartOf(InitOf(maps, c)), b.balances);
    var r := ChainRun(cr, StartOf(InitOf(maps, c)), chunks[c]);
    SameMoneyTriangle(r.balances, here.balances, maps[c]);
  }

  lemma SameMoneyTriangle(a: Balances, b: Balances, c: Balances)
    requires SameMoney(a, b)
    ensures SameMoney(a, c) <==> SameMoney(c, b)
  {
    SameMoneyEquivalence(a, b, c);
    SameMoneyEquivalence(b, a, c);
    SameMoneyEquivalence(a, c, b);
    SameMoneyEquivalence(c, a, b);
    SameMoneyEquivalence(a, b, a);
    SameMoneyEquivalence(c, b, a);
    SameMoneyEquivalence(b, c, a);
  }

  /** An empty chunk changes nothing in sequence, so its map is right exactly when it repeats the one before. */
  lemma EmptyChunkSound(cr: Crypto, chunks: seq<seq<BlockData>>, maps: seq<Balances>, c: nat)
    requires 0 < c < |chunks| == |maps| && chunks[c] == [] && SoundUpTo(cr, chunks, maps, c)
    ensures EmptyMapRight(chunks, maps, c) <==> SoundUpTo(cr, chunks, maps, c + 1)
  {
    hide Flatten, SameMoney, ChainRun;
    FlattenUpTo(chunks, c);
    assert Flatten(chunks[..c]) + [] == Flatten(chunks[..c]);
    var r := ChainRun(cr, map[], Flatten(chunks[..c]));
    SameMoneyTriangle(maps[c - 1], r.balances, maps[c]);
    SameMoneyEquivalence(maps[c - 1], maps[c], maps[c]);
    SameMoneyEquivalence(maps[c], maps[c - 1], maps[c - 1]);
  }

  /** The maps are right in sequence exactly when the chunks are sound one by one and empty chunks repeat their map. */
  lemma {:induction false} SoundIffChunksSound(cr: Crypto, chunks: seq<seq<BlockData>>, maps: seq<Balances>, m: nat)
    requires m <= |chunks| == |maps| && (m > 0 ==> chunks[0] != [])
    ensures SoundUpTo(cr, chunks, maps, m) <==> ChunksSound(cr, chunks, maps, m) && EmptyMapsRight(chunks, maps, m)
    decreases m
  {
    hide ChunkSound, EmptyMapRight, Flatten, SameMoney, ChainRun;
    if m > 0 {
      SoundIffChunksSound(cr, chunks, maps, m - 1);
      assert ChunksSound(cr, chunks, maps, m) ==> ChunksSound(cr, chunks, maps, m - 1);
      assert EmptyMapsRight(chunks, maps, m) ==> EmptyMapsRight(chunks, maps, m - 1);
      if SoundUpTo(cr, chunks, maps, m - 1) {
        if chunks[m - 1] == [] {
          EmptyChunkSound(cr, chunks, maps, m - 1);
        } else {
          SoundChunk(cr, chunks, maps, m - 1);
          assert m > 1 ==> EmptyMapRight(chunks, maps, m - 1) by { NotEmptyRight(chunks, maps, m - 1); }
        }
      }
    }
  }

  lemma NotEmptyRight(chunks: seq<seq<BlockData>>, maps: seq<Balances>, c: nat)
    requires c < |chunks| == |maps| && chunks[c] != []
    ensures c > 0 ==> EmptyMapRight(chunks, maps, c)
  {
  }

  // ---------- the sequential reader on a linked chain ----------

  /** All blocks are accepted exactly when the chain is valid in sequence. */
  lemma {:induction false} AllAcceptedIff(cr: Crypto, blocks: seq<BlockData>)
    requires LinkedSegment(blocks)
    ensures var accepted := ReadBlocks(cr, None, blocks).accepted;
            && (|accepted| == |blocks| <==> ChainRun(cr, map[], blocks).ok)
            && (|accepted| == |blocks| ==> accepted == FullNodes(cr, None, blocks, |blocks|))
    decreases |blocks|
  {
    hide ValidateBlock, FullNode, FullNodes, LinkedSegment, FindPrev, FirstPrev;
    if ChainRun(cr, map[], blocks).ok {
      ValidSegmentAccepted(cr, None, blocks);
    } else {
      var m := |blocks| - 1;
      LinkedPart(blocks, 0, m);
      assert blocks[0..m] == blocks[..m];
      AllAcceptedIff(cr, blocks[..m]);
      AcceptedWereRead(cr, None, blocks[..m]);
      if ChainRun(cr, map[], blocks[..m]).ok {
        LastRejected(cr, blocks);
      }
    }
  }

  lemma LastRejected(cr: Crypto, blocks: seq<BlockData>)
    requires LinkedSegment(blocks) && blocks != [] && !ChainRun(cr, map[], blocks).ok
    requires ChainRun(cr, map[], blocks[..|blocks| - 1]).ok
    requires var m := |blocks| - 1; ReadBlocks(cr, None, blocks[..m]).accepted == FullNodes(cr, None, blocks[..m], m)
    ensures ReadBlocks(cr, None, blocks) == ReadBlocks(cr, None, blocks[..|blocks| - 1])
  {
    hide ValidateBlock, FullNodes, LinkedSegment, FindPrev;
    var m := |blocks| - 1;
    FullNodesPrefix(cr, None, blocks, m, m);
    if m > 0 {
      FullPrevFound(cr, None, blocks);
      assert blocks[..m - 1 + 1] == blocks[..m];
    } else {
      assert blocks[..m] == [];
    }
  }

  lemma {:induction false} FullNodeLength(cr: Crypto, seg: seq<BlockData>, k: nat)
    requires k < |seg|
    ensures FullNode(cr, None, seg, k).length == k + 1
  {
    hide ChainRun;
    if k > 0 {
      FullNodeLength(cr, seg, k - 1);
    }
  }

  // ---------- the main theorem ----------

  /** The map stored after chunk `c` holds the sequential reader's balances there, up to zeros. */
  ghost predicate MapAgrees(cr: Crypto, chunks: seq<seq<BlockData>>, maps: seq<Balances>, c: nat)
    requires c < |chunks| == |maps|
  {
    var accepted := ReadBlocks(cr, None, Flatten(chunks)).accepted;
    0 < Start(chunks, c + 1) <= |accepted| && SameMoney(maps[c], accepted[Start(chunks, c + 1) - 1].balances)
  }

  /** The sequential reader accepts the whole chain, and each stored map agrees with it. */
  ghost predicate SequentialAgrees(cr: Crypto, chunks: seq<seq<BlockData>>, maps: seq<Balances>)
    requires |chunks| == |maps|
  {
    && |ReadBlocks(cr, None, Flatten(chunks)).accepted| == |Flatten(chunks)|
    && forall c :: 0 <= c < |chunks| ==> MapAgrees(cr, chunks, maps, c)
  }

  ghost predicate MapRight(cr: Crypto, chunks: seq<seq<BlockData>>, maps: seq<Balances>, c: nat)
    requires c < |chunks| == |maps|
  {
    SameMoney(maps[c], ChainRun(cr, map[], Flatten(chunks[..c + 1])).balances)
  }

  ghost predicate MapsRight(cr: Crypto, chunks: seq<seq<BlockData>>, maps: seq<Balances>, m: nat)
    requires m <= |chunks| == |maps|
  {
    forall c :: 0 <= c < m ==> MapRight(cr, chunks, maps, c)
  }

  lemma {:induction false} SoundIffMapsRight(cr: Crypto, chunks: seq<seq<BlockData>>, maps: seq<Balances>, m: nat)
    requires m <= |chunks| == |maps|
    requires ChainRun(cr, map[], Flatten(chunks)).ok
    ensures SoundUpTo(cr, chunks, maps, m) <==> MapsRight(cr, chunks, maps, m)
    decreases m
  {
    hide SameMoney, Flatten, ChainRun;
    if m > 0 {
      SoundIffMapsRight(cr, chunks, maps, m - 1);
      FlattenPrefix(chunks, m);
      ChainRunPrefix(cr, map[], Flatten(chunks), Start(chunks, m));
      assert MapsRight(cr, chunks, maps, m)
             <==> MapsRight(cr, chunks, maps, m - 1) && MapRight(cr, chunks, maps, m - 1);
    }
  }

  /** The sequential balances after chunk `c` are those of the block the reader accepted last in it. */
  lemma SequentialBalances(cr: Crypto, chunks: seq<seq<BlockData>>, c: nat)
    requires c < |chunks| && chunks[0] != []
    requires ReadBlocks(cr, None, Flatten(chunks)).accepted
             == FullNodes(cr, None, Flatten(chunks), |Flatten(chunks)|)
    ensures var accepted := ReadBlocks(cr, None, Flatten(chunks)).accepted;
            && 0 < Start(chunks, c + 1) <= |accepted|
            && accepted[Start(chunks, c + 1) - 1].balances == ChainRun(cr, map[], Flatten(chunks[..c + 1])).balances
  {
    hide Flatten, ChainRun, ReadBlocks, FullNode, FullNodes, Start;
    StartAfterBelow(chunks, c + 1);
    FlattenPrefix(chunks, c + 1);
    BlocksBefore(chunks, c + 1);
  }

  lemma BlocksBefore(chunks: seq<seq<BlockData>>, c: nat)
    requires c <= |chunks|
    ensures Start(chunks, c) == |Flatten(chunks[..c])|
  {
  }

  lemma MapsRightIffAgrees(cr: Crypto, chunks: seq<seq<BlockData>>, maps: seq<Balances>)
    requires ChunkedChain(chunks, maps)
    requires ReadBlocks(cr, None, Flatten(chunks)).accepted
             == FullNodes(cr, None, Flatten(chunks), |Flatten(chunks)|)
    ensures MapsRight(cr, chunks, maps, |chunks|) <==> SequentialAgrees(cr, chunks, maps)
  {
    hide SameMoney, Flatten, LinkedChain, ReadBlocks, FullNodes, ChainRun;
    forall c | 0 <= c < |chunks| ensures MapAgrees(cr, chunks, maps, c) <==> MapRight(cr, chunks, maps, c) {
      SequentialBalances(cr, chunks, c);
    }
  }

  lemma SoundIffSequentialAgrees(cr: Crypto, chunks: seq<seq<BlockData>>, maps: seq<Balances>)
    requires ChunkedChain(chunks, maps)
    ensures SoundUpTo(cr, chunks, maps, |chunks|) <==> SequentialAgrees(cr, chunks, maps)
  {
    hide SameMoney, Flatten, LinkedSegment, ReadBlocks, FullNodes, ChainRun, MapsRight;
    AllAcceptedIff(cr, Flatten(chunks));
    assert chunks[..|chunks|] == chunks;
    if ChainRun(cr, map[], Flatten(chunks)).ok {
      SoundIffMapsRight(cr, chunks, maps, |chunks|);
      MapsRightIffAgrees(cr, chunks, maps);
    }
  }

  /**
   * For one linked chain in chunks of which only the first must hold a block: the stitching reader reports all blocks
   * and the maps after empty chunks repeat the ones before exactly when the sequential reader accepts all blocks and
   * every stored map equals its balances there up to zero entries. What is then reported is the last block.
   */
  lemma IndexedIffSequential(cr: Crypto, chunks: seq<seq<BlockData>>, maps: seq<Balances>)
    requires ChunkedChain(chunks, maps)
    ensures (exists h :: Reports(ChunkOuts(cr, chunks, maps), h, |Flatten(chunks)|))
            && EmptyMapsRight(chunks, maps, |chunks|)
            <==> SequentialAgrees(cr, chunks, maps)
    ensures forall h :: Reports(ChunkOuts(cr, chunks, maps), h, |Flatten(chunks)|)
                        ==> h == Flatten(chunks)[|Flatten(chunks)| - 1].blkHash
  {
    hide SequentialAgrees, SoundUpTo, ChunksSound, EmptyMapsRight, Reports, Flatten, ChunkOuts, LinkedChain;
    ReportedIffChunksSound(cr, chunks, maps);
    SoundIffChunksSound(cr, chunks, maps, |chunks|);
    SoundIffSequentialAgrees(cr, chunks, maps);
  }

  // ---------- an empty chunk that brings in money ----------

  function Address(b: byte): (h: Hash)
    ensures h[0] == b
  {
    [b] + Zeros(HASH_SIZE - 1)
  }

  /** The digest is the first 32 bytes of what is hashed: for a block without transactions, its reward address. */
  const FIRST_BYTES: Crypto := Crypto(s => if |s| >= HASH_SIZE then s[..HASH_SIZE] else ZERO_HASH, (k, h, s) => false)

  const TWO_BLOCKS: seq<seq<BlockData>> :=
    [[BlockData(Address(1), [], ZERO_HASH, Address(1))], [], [BlockData(Address(2), [], Address(1), Address(2))]]

  /** Right for the first chunk; after the empty one seven more turn up, and the second block carries them on. */
  const SMUGGLED: seq<Balances> :=
    [map[Address(1) := 100], map[Address(3) := 7], map[Address(3) := 7, Address(2) := 100]]

  lemma RewardOnly(reward: Hash, prevHash: Hash, start: Balances)
    requires Get(start, reward) == 0
    ensures ChainRun(FIRST_BYTES, start, [BlockData(reward, [], prevHash, reward)])
         == Run(start[reward := BLOCK_REWARD], true)
  {
    var b := BlockData(reward, [], prevHash, reward);
    assert [] + reward + prevHash == reward + prevHash;
    assert (reward + prevHash)[..HASH_SIZE] == reward;
    assert BlockDigest(FIRST_BYTES, b) == reward;
    assert ChainRun(FIRST_BYTES, start, [] + [b]) == ValidateBlock(FIRST_BYTES, b, start) by {
      ChainRunAppend(FIRST_BYTES, start, [], b);
    }
  }

  lemma TwoBlocksChained()
    ensures ChunkedChain(TWO_BLOCKS, SMUGGLED)
    ensures Flatten(TWO_BLOCKS) == [TWO_BLOCKS[0][0], TWO_BLOCKS[2][0]]
  {
    var c := TWO_BLOCKS;
    FlattenUpTo(c, 0);
    FlattenUpTo(c, 1);
    FlattenUpTo(c, 2);
    assert c[..0] == [] && c[..3] == c;
    EmptyFlatten();
    assert Flatten(c) == ([] + c[0]) + [] + c[2];
    assert ZERO_HASH[0] == 0 && Address(1)[0] == 1 && Address(2)[0] == 2;
  }

  /**
   * Without the condition on empty chunks the equivalence fails. Here the reader prints the whole chain of two blocks,
   * although the map it starts the last chunk from holds money that no block paid.
   */
  lemma EmptyChunkSmuggles()
    ensures ChunkedChain(TWO_BLOCKS, SMUGGLED)
    ensures Reports(ChunkOuts(FIRST_BYTES, TWO_BLOCKS, SMUGGLED), Address(2), 2)
    ensures !EmptyMapsRight(TWO_BLOCKS, SMUGGLED, 3) && !SequentialAgrees(FIRST_BYTES, TWO_BLOCKS, SMUGGLED)
  {
    hide Reports, ChunkOuts, SequentialAgrees;
    TwoBlocksChained();
    assert Address(1)[0] == 1 && Address(2)[0] == 2 && Address(3)[0] == 3;
    RewardOnly(Address(1), ZERO_HASH, map[]);
    RewardOnly(Address(2), Address(1), SMUGGLED[1]);
    assert SMUGGLED[0] == map[][Address(1) := BLOCK_REWARD] && SMUGGLED[2] == SMUGGLED[1][Address(2) := BLOCK_REWARD];
    assert ChunksSound(FIRST_BYTES, TWO_BLOCKS, SMUGGLED, 3);
    ReportedIffChunksSound(FIRST_BYTES, TWO_BLOCKS, SMUGGLED);
    assert !EmptyMapRight(TWO_BLOCKS, SMUGGLED, 1) by {
      assert Get(SMUGGLED[1], Address(3)) == 7 && Get(SMUGGLED[0], Address(3)) == 0;
    }
    IndexedIffSequential(FIRST_BYTES, TWO_BLOCKS, SMUGGLED);
  }
}
