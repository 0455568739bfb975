/** The writer of indexed files: track back to the coinbase block, cut into chunks, lay out, write. */
module ChainWriter {
  import opened Bytes
  import opened Ledger
  import opened Codec
  import opened BalanceMapCodec
  import opened Layout
  import opened Blocks
  import opened Sets

  // ---------- chunk boundaries ----------

  /** The index after the last block of chunk `c - 1`, which is the first of chunk `c`. */
  function Boundary(n: nat, chunks: nat, c: nat): nat
    requires chunks > 0
  {
    if c == chunks then n else (n / chunks) * c
  }

  /** `chunkEnd_i`: a size_t that may wrap below zero, cut to 32 bits by the set it is put in. */
  function ChunkEnd(n: nat, chunks: nat, i: nat): nat
    requires chunks > 0
  {
    (Boundary(n, chunks, i + 1) - 1) % UINT32_LIMIT
  }

  lemma BoundaryStep(n: nat, chunks: nat, c: nat)
    requires 0 < chunks && c < chunks
    ensures Boundary(n, chunks, 0) == 0
    ensures chunks <= n ==> Boundary(n, chunks, c) < Boundary(n, chunks, c + 1) <= n
    ensures Boundary(n, chunks, c) <= n
  {
    var q := n / chunks;
    QuotientBound(n, chunks);
    TimesGrow(q, c, chunks);
    TimesGrow(q, c + 1, chunks);
    if chunks <= n {
      QuotientPositive(n, chunks);
      TimesGrow(q, c, c + 1);
    }
  }

  lemma QuotientBound(n: nat, k: nat)
    requires k > 0
    ensures (n / k) * k <= n
  {
  }

  lemma QuotientPositive(n: nat, k: nat)
    requires 0 < k <= n
    ensures n / k >= 1
  {
  }

  lemma {:induction false} TimesGrow(q: nat, a: nat, b: nat)
    requires a <= b
    ensures q * a <= q * b
    ensures q >= 1 && a < b ==> q * a < q * b
    decreases b - a
  {
    if a < b {
      TimesGrow(q, a, b - 1);
      assert q * b == q * (b - 1) + q;
    }
  }

  lemma {:induction false} BoundariesGrow(n: nat, chunks: nat, c: nat, d: nat)
    requires 0 < chunks <= n && c <= d <= chunks
    ensures Boundary(n, chunks, c) + (d - c) <= Boundary(n, chunks, d) <= n
    decreases d
  {
    if c < d {
      BoundariesGrow(n, chunks, c, d - 1);
      BoundaryStep(n, chunks, d - 1);
    } else if d < chunks {
      BoundaryStep(n, chunks, d);
    }
  }

  ghost function ChunkEnds(n: nat, chunks: nat): set<nat>
    requires chunks > 0
  {
    set i | 0 <= i < chunks :: ChunkEnd(n, chunks, i)
  }

  lemma ChunkEndIs(n: nat, chunks: nat, i: nat)
    requires 0 < chunks <= n < UINT32_LIMIT && i < chunks
    ensures ChunkEnd(n, chunks, i) == Boundary(n, chunks, i + 1) - 1
  {
    BoundariesGrow(n, chunks, 0, i + 1);
  }

  /** Inside chunk `c` the only chunk end is its last block. */
  lemma EndsChunk(n: nat, chunks: nat, c: nat, i: nat)
    requires 0 < chunks <= n < UINT32_LIMIT && c < chunks
    requires Boundary(n, chunks, c) <= i < Boundary(n, chunks, c + 1)
    ensures i in ChunkEnds(n, chunks) <==> i + 1 == Boundary(n, chunks, c + 1)
  {
    hide Boundary, ChunkEnd;
    if i in ChunkEnds(n, chunks) {
      var j :| 0 <= j < chunks && i == ChunkEnd(n, chunks, j);
      ChunkEndIs(n, chunks, j);
      if j < c {
        BoundariesGrow(n, chunks, j + 1, c);
      } else if c < j {
        BoundariesGrow(n, chunks, c + 1, j);
        BoundaryStep(n, chunks, j);
      }
    }
    if i + 1 == Boundary(n, chunks, c + 1) {
      ChunkEndIs(n, chunks, c);
    }
  }

  ghost function EndsUpTo(n: nat, chunks: nat, m: nat): set<nat>
    requires 0 < chunks
  {
    set i | 0 <= i < m :: ChunkEnd(n, chunks, i)
  }

  lemma {:induction false} EndsCount(n: nat, chunks: nat, m: nat)
    requires 0 < chunks <= n < UINT32_LIMIT && m <= chunks
    ensures |EndsUpTo(n, chunks, m)| == m
    ensures forall e :: e in EndsUpTo(n, chunks, m) ==> e < Boundary(n, chunks, m)
    decreases m
  {
    hide ChunkEnd, Boundary;
    if m > 0 {
      EndsCount(n, chunks, m - 1);
      ChunkEndIs(n, chunks, m - 1);
      BoundaryStep(n, chunks, m - 1);
      assert EndsUpTo(n, chunks, m) == EndsUpTo(n, chunks, m - 1) + {ChunkEnd(n, chunks, m - 1)};
    }
  }

  /**
   * The assertion that as many maps as chunks get an offset holds exactly for chunk counts up to the number of blocks:
   * beyond that the chunk size is 0 and all chunk ends but the last wrap out of range.
   */
  lemma EnoughEndsIff(n: nat, chunks: nat)
    requires 0 < n < UINT32_LIMIT && 1 < chunks
    ensures |set e | e in ChunkEnds(n, chunks) && e < n| == chunks <==> chunks <= n
  {
    hide ChunkEnd;
    var hit := set e | e in ChunkEnds(n, chunks) && e < n;
    assert EndsUpTo(n, chunks, chunks) == ChunkEnds(n, chunks);
    if chunks <= n {
      EndsCount(n, chunks, chunks);
      assert Boundary(n, chunks, chunks) == n;
      assert hit == ChunkEnds(n, chunks);
    } else {
      forall e | e in hit ensures e in {n - 1} {
        var i :| 0 <= i < chunks && e == ChunkEnd(n, chunks, i);
        TooManyChunks(n, chunks, i);
      }
      SubsetSize(hit, {n - 1});
    }
  }

  lemma TooManyChunks(n: nat, chunks: nat, i: nat)
    requires 0 < n < UINT32_LIMIT && n < chunks && i < chunks
    ensures ChunkEnd(n, chunks, i) == if i + 1 == chunks then n - 1 else UINT32_LIMIT - 1
  {
    assert n / chunks == 0;
    if i + 1 < chunks {
      assert Boundary(n, chunks, i + 1) == 0;
      assert (-1) % UINT32_LIMIT == UINT32_LIMIT - 1;
    }
  }

  lemma MultipleOf(q: nat, k: nat, e: nat)
    requires q > 0
    ensures e == q * k ==> e % q == 0 && e / q == k
    ensures e % q == 0 ==> e == q * (e / q)
  {
    if e == q * k {
      assert e == q * (e / q) + e % q;
      TimesGrow(q, if e / q < k then e / q + 1 else k, k);
      TimesGrow(q, if k < e / q then k + 1 else e / q, e / q);
    }
  }

  /** The chunk ends in numbers: the last block, and the one before each of the first multiples of the chunk size. */
  lemma ChunkEndsAre(n: nat, chunks: nat)
    requires 0 < chunks <= n < UINT32_LIMIT
    ensures n / chunks > 0
    ensures forall e: nat :: e in ChunkEnds(n, chunks) <==>
              e == n - 1 || ((e + 1) % (n / chunks) == 0 && 0 < (e + 1) / (n / chunks) < chunks)
  {
    var q := n / chunks;
    QuotientPositive(n, chunks);
    forall e: nat ensures e in ChunkEnds(n, chunks) <==> e == n - 1 || ((e + 1) % q == 0 && 0 < (e + 1) / q < chunks) {
      if e in ChunkEnds(n, chunks) {
        var i :| 0 <= i < chunks && e == ChunkEnd(n, chunks, i);
        ChunkEndIs(n, chunks, i);
        MultipleOf(q, i + 1, e + 1);
      }
      if e == n - 1 {
        ChunkEndIs(n, chunks, chunks - 1);
        assert ChunkEnd(n, chunks, chunks - 1) in ChunkEnds(n, chunks);
      } else if (e + 1) % q == 0 && 0 < (e + 1) / q < chunks {
        var i := (e + 1) / q - 1;
        MultipleOf(q, i + 1, e + 1);
        ChunkEndIs(n, chunks, i);
        assert ChunkEnd(n, chunks, i) in ChunkEnds(n, chunks);
      }
    }
  }

  /** With more chunks than blocks the ends are 2^32 - 1, by wrap-around, and the last block. */
  lemma ChunkEndsWrapped(n: nat, chunks: nat)
    requires 0 < n < UINT32_LIMIT && n < chunks
    ensures ChunkEnds(n, chunks) == {UINT32_LIMIT - 1, n - 1}
  {
    forall e | e in {UINT32_LIMIT - 1, n - 1} ensures e in ChunkEnds(n, chunks) {
      TooManyChunks(n, chunks, 0);
      TooManyChunks(n, chunks, chunks - 1);
      assert ChunkEnd(n, chunks, 0) in ChunkEnds(n, chunks) && ChunkEnd(n, chunks, chunks - 1) in ChunkEnds(n, chunks);
    }
    forall e | e in ChunkEnds(n, chunks) ensures e in {UINT32_LIMIT - 1, n - 1} {
      var i :| 0 <= i < chunks && e == ChunkEnd(n, chunks, i);
      TooManyChunks(n, chunks, i);
    }
  }

  // ---------- what is written ----------

  /** The blocks from boundary to boundary. */
  function CutUpTo(blocks: seq<BlockData>, chunks: nat, m: nat): (cut: seq<seq<BlockData>>)
    requires 0 < chunks <= |blocks| && m <= chunks
    ensures |cut| == m
  {
    if m == 0 then []
    else
      BoundariesGrow(|blocks|, chunks, m, chunks);
      BoundaryStep(|blocks|, chunks, m - 1);
      CutUpTo(blocks, chunks, m - 1)
      + [blocks[Boundary(|blocks|, chunks, m - 1)..Boundary(|blocks|, chunks, m)]]
  }

  function MapsUpTo(balances: seq<Balances>, chunks: nat, m: nat): (maps: seq<Balances>)
    requires 0 < chunks <= |balances| && m <= chunks
    ensures |maps| == m
  {
    if m == 0 then []
    else
      BoundariesGrow(|balances|, chunks, m, chunks);
      BoundariesGrow(|balances|, chunks, 0, m);
      MapsUpTo(balances, chunks, m - 1) + [balances[Boundary(|balances|, chunks, m) - 1]]
  }

  lemma {:induction false} CutAt(blocks: seq<BlockData>, chunks: nat, m: nat, c: nat)
    requires 0 < chunks <= |blocks| && c < m <= chunks
    ensures Boundary(|blocks|, chunks, c) < Boundary(|blocks|, chunks, c + 1) <= |blocks|
    ensures CutUpTo(blocks, chunks, m)[c] == blocks[Boundary(|blocks|, chunks, c)..Boundary(|blocks|, chunks, c + 1)]
    ensures Boundary(|blocks|, chunks, c) == (|blocks| / chunks) * c
    ensures Boundary(|blocks|, chunks, c + 1) == if c == chunks - 1 then |blocks| else (|blocks| / chunks) * (c + 1)
    decreases m
  {
    BoundaryStep(|blocks|, chunks, c);
    if c < m - 1 {
      CutAt(blocks, chunks, m - 1, c);
    }
  }

  lemma {:induction false} MapsAt(balances: seq<Balances>, chunks: nat, m: nat, c: nat)
    requires 0 < chunks <= |balances| && c < m <= chunks
    ensures 0 < Boundary(|balances|, chunks, c + 1) <= |balances|
    ensures MapsUpTo(balances, chunks, m)[c] == balances[Boundary(|balances|, chunks, c + 1) - 1]
    decreases m
  {
    BoundariesGrow(|balances|, chunks, 0, c + 1);
    if c < m - 1 {
      MapsAt(balances, chunks, m - 1, c);
    }
  }

  // ---------- the writer ----------

  function Datas(path: seq<Block>): (ds: seq<BlockData>)
    reads path
    ensures |ds| == |path| && forall i :: 0 <= i < |path| ==> ds[i] == path[i].Data()
  {
    if path == [] then [] else Datas(path[..|path| - 1]) + [path[|path| - 1].Data()]
  }

  function AllBalances(path: seq<Block>): (ms: seq<Balances>)
    reads path
    ensures |ms| == |path| && forall i :: 0 <= i < |path| ==> ms[i] == path[i].balances
  {
    if path == [] then [] else AllBalances(path[..|path| - 1]) + [path[|path| - 1].balances]
  }

  /** Each block of the chain from index `i` up leads to the one above it, and the tip to nothing. */
  ghost predicate Successors(nextMap: map<Block, Block?>, path: seq<Block>, i: nat) {
    && |nextMap| == |path| - i
    && (forall b :: b in nextMap ==> b in path[i..])
    && (forall j {:trigger path[j]} :: i <= j < |path| ==>
          path[j] in nextMap && nextMap[path[j]] == if j + 1 < |path| then path[j + 1] else null)
  }

  lemma NotAbove(path: seq<Block>, i: nat)
    requires 0 < i < |path| && forall j, k :: 0 <= j < k < |path| ==> path[j] != path[k]
    ensures path[i - 1] !in path[i..] && path[i - 1..] == [path[i - 1]] + path[i..]
  {
  }

  lemma SuccessorsDown(nextMap: map<Block, Block?>, path: seq<Block>, i: nat)
    requires 0 < i < |path| && Successors(nextMap, path, i)
    requires forall j, k :: 0 <= j < k < |path| ==> path[j] != path[k]
    ensures path[i - 1] !in nextMap
    ensures Successors(nextMap[path[i - 1] := path[i]], path, i - 1)
  {
    NotAbove(path, i);
    var b, more := path[i - 1], nextMap[path[i - 1] := path[i]];
    forall j {:trigger path[j]} | i - 1 <= j < |path|
      ensures path[j] in more && more[path[j]] == if j + 1 < |path| then path[j + 1] else null
    {
      if j >= i {
        assert path[j] in nextMap;
      }
    }
    assert |more| == |nextMap| + 1 by {
      assert b !in nextMap;
    }
  }

  /** The map of successors is filled from the tip down. It has as many entries as `length` says. */
  method MapSuccessors(tip: Block, ghost path: seq<Block>) returns (nextMap: map<Block, Block?>, head: Block)
    requires IsPath(path) && path[|path| - 1] == tip && tip.length == |path|
    ensures Successors(nextMap, path, 0) && head == path[0]
  {
    hide Successors;
    PathDistinct(path);
    nextMap := map[tip := null];
    head := tip;
    var ptr := tip.prevBlock;
    ghost var i := |path| - 1;
    OnlyTip(path);
    while ptr != null
      invariant 0 <= i < |path| && head == path[i] && ptr == head.prevBlock
      invariant Successors(nextMap, path, i)
      decreases i
    {
      assert i > 0 && ptr == path[i - 1];
      SuccessorsDown(nextMap, path, i);
      nextMap := nextMap[ptr := head];
      head := ptr;
      ptr := ptr.prevBlock;
      i := i - 1;
    }
    OnlyBottomHasNoPrev(path, i);
    SuccessorCount(nextMap, path, 0);
    assert |nextMap| == tip.length;
  }

  lemma OnlyBottomHasNoPrev(path: seq<Block>, i: nat)
    requires IsPath(path) && i < |path|
    ensures i > 0 ==> path[i].prevBlock != null
  {
    assert i > 0 ==> path[i].prevBlock == path[i - 1];
  }

  lemma OnlyTip(path: seq<Block>)
    requires path != []
    ensures Successors(map[path[|path| - 1] := null], path, |path| - 1)
  {
  }

  lemma SuccessorCount(nextMap: map<Block, Block?>, path: seq<Block>, i: nat)
    requires Successors(nextMap, path, i) && i <= |path|
    ensures |nextMap| == |path| - i
  {
  }

  lemma SuccessorAt(nextMap: map<Block, Block?>, path: seq<Block>, k: nat)
    requires Successors(nextMap, path, 0) && k < |path|
    ensures path[k] in nextMap && nextMap[path[k]] == if k + 1 < |path| then path[k + 1] else null
  {
  }

  /** Following the successors from the bottom gives the chain, root first. */
  method FollowSuccessors(nextMap: map<Block, Block?>, head: Block, ghost path: seq<Block>) returns (blocks: seq<Block>)
    requires path != [] && Successors(nextMap, path, 0) && head == path[0]
    ensures blocks == path
  {
    hide Successors;
    blocks := [];
    var p: Block? := head;
    ghost var k := 0;
    while p != null
      invariant 0 <= k <= |path| && blocks == path[..k]
      invariant p == if k < |path| then path[k] else null
      decreases |path| - k
    {
      SuccessorAt(nextMap, path, k);
      blocks := blocks + [p];
      p := nextMap[p];
      k := k + 1;
    }
  }

  /** The chain from the coinbase block to the tip; it has as many blocks as `length` says. */
  method TrackBack(tip: Block, ghost path: seq<Block>) returns (blocks: seq<Block>)
    requires IsPath(path) && path[|path| - 1] == tip && tip.length == |path|
    ensures blocks == path
  {
    var nextMap, head := MapSuccessors(tip, path);
    blocks := FollowSuccessors(nextMap, head, path);
    assert |blocks| == tip.length;
  }

  method ComputeChunkEnds(n: nat, chunks: nat) returns (ends: set<nat>)
    requires chunks > 0
    ensures ends == ChunkEnds(n, chunks)
    ensures chunks <= n < UINT32_LIMIT ==>
              n / chunks > 0 && forall e: nat :: e in ends <==>
                e == n - 1 || ((e + 1) % (n / chunks) == 0 && 0 < (e + 1) / (n / chunks) < chunks)
    ensures 0 < n < chunks && n < UINT32_LIMIT ==> ends == {UINT32_LIMIT - 1, n - 1}
  {
    var chunkSz := n / chunks;
    ends := {};
    for i := 0 to chunks
      invariant forall j :: 0 <= j < i ==> ChunkEnd(n, chunks, j) in ends
      invariant forall e :: e in ends ==> exists j :: 0 <= j < i && e == ChunkEnd(n, chunks, j)
    {
      var end := (if i == chunks - 1 then n else chunkSz * (i + 1)) - 1;
      assert end % UINT32_LIMIT == ChunkEnd(n, chunks, i);
      ends := ends + {end % UINT32_LIMIT};
    }
    if chunks <= n < UINT32_LIMIT {
      ChunkEndsAre(n, chunks);
    } else if 0 < n < chunks && n < UINT32_LIMIT {
      ChunkEndsWrapped(n, chunks);
    }
  }

  /** What the two passes of the writer must both see of the chain at hand. */
  ghost predicate Cuts(blocks: seq<Block>, chunks: nat, cut: seq<seq<BlockData>>, maps: seq<Balances>)
    reads blocks
  {
    && 0 < chunks <= |blocks| < UINT32_LIMIT
    && cut == CutUpTo(Datas(blocks), chunks, chunks) && maps == MapsUpTo(AllBalances(blocks), chunks, chunks)
    && Storable(cut, maps) && FitsOffsets(cut, maps)
    && forall b :: b in blocks ==> BlockWritable(b.Data())
  }

  /** The blocks of the current chunk `c` before block `i`. */
  ghost function Pending(blocks: seq<Block>, chunks: nat, c: nat, i: nat): seq<BlockData>
    requires 0 < chunks && c <= chunks && Boundary(|blocks|, chunks, c) <= i <= |blocks|
    reads blocks
  {
    Datas(blocks)[Boundary(|blocks|, chunks, c)..i]
  }

  /** Block `i` belongs to chunk `c`; it ends the chunk exactly when it is one of the chunk ends. */
  ghost predicate InChunk(n: nat, chunks: nat, c: nat, i: nat)
    requires 0 < chunks
  {
    if i == n then c == chunks
    else c < chunks && Boundary(n, chunks, c) <= i < Boundary(n, chunks, c + 1) <= n
  }

  lemma NextInChunk(n: nat, chunks: nat, c: nat, i: nat)
    requires 0 < chunks <= n < UINT32_LIMIT && i < n && InChunk(n, chunks, c, i)
    ensures i in ChunkEnds(n, chunks) <==> i + 1 == Boundary(n, chunks, c + 1)
    ensures InChunk(n, chunks, if i in ChunkEnds(n, chunks) then c + 1 else c, i + 1)
    ensures c < chunks && (i + 1 == n ==> i in ChunkEnds(n, chunks) && c + 1 == chunks)
  {
    EndsChunk(n, chunks, c, i);
    if i in ChunkEnds(n, chunks) {
      BoundariesGrow(n, chunks, c + 1, chunks);
      if c + 1 < chunks {
        BoundaryStep(n, chunks, c + 1);
        BoundariesGrow(n, chunks, c + 2, chunks);
      }
    }
  }

  /** The chunk is complete when its last block is added, and the map stored after it is that block's. */
  lemma CompleteChunk(blocks: seq<Block>, chunks: nat, cut: seq<seq<BlockData>>, maps: seq<Balances>, c: nat, i: nat)
    requires Cuts(blocks, chunks, cut, maps) && c < chunks && i < |blocks|
    requires Boundary(|blocks|, chunks, c) <= i && i + 1 == Boundary(|blocks|, chunks, c + 1)
    ensures Pending(blocks, chunks, c, i + 1) == cut[c] && blocks[i].balances == maps[c]
    ensures Pending(blocks, chunks, c + 1, i + 1) == []
  {
    CutAt(Datas(blocks), chunks, chunks, c);
    MapsAt(AllBalances(blocks), chunks, chunks, c);
  }

  lemma PendingNext(blocks: seq<Block>, chunks: nat, c: nat, i: nat)
    requires 0 < chunks && c <= chunks && Boundary(|blocks|, chunks, c) <= i < |blocks|
    ensures Pending(blocks, chunks, c, i + 1) == Pending(blocks, chunks, c, i) + [blocks[i].Data()]
    ensures ChainSize(Pending(blocks, chunks, c, i + 1))
            == ChainSize(Pending(blocks, chunks, c, i)) + BlockSize(blocks[i].Data())
  {
    var now := Pending(blocks, chunks, c, i + 1);
    assert now[..|now| - 1] == Pending(blocks, chunks, c, i);
  }

  lemma CutSizes(blocks: seq<Block>, chunks: nat, cut: seq<seq<BlockData>>, maps: seq<Balances>)
    requires Cuts(blocks, chunks, cut, maps)
    ensures 0 < chunks == |cut| == |maps| && chunks <= |blocks| < UINT32_LIMIT && FitsOffsets(cut, maps)
    ensures Storable(cut, maps)
  {
    hide CutUpTo, MapsUpTo, Storable, BlockWritable, FitsOffsets;
  }

  lemma PassStart(blocks: seq<Block>, chunks: nat, cut: seq<seq<BlockData>>, maps: seq<Balances>)
    requires 0 < chunks == |cut| == |maps| && chunks <= |blocks| && FitsOffsets(cut, maps)
    ensures Boundary(|blocks|, chunks, 0) == 0 && InChunk(|blocks|, chunks, 0, 0)
    ensures Pending(blocks, chunks, 0, 0) == [] && ChainSize([]) == 0
    ensures HeaderUpTo(cut, maps, 0) == Header([], [], []) && ChunkOffset(cut, maps, 0) == HeaderSize(chunks)
  {
    hide Datas, FitsOffsets;
    BoundaryStep(|blocks|, chunks, 0);
  }

  lemma HeaderNext(cut: seq<seq<BlockData>>, maps: seq<Balances>, c: nat)
    requires c < |cut| == |maps| && FitsOffsets(cut, maps)
    ensures MapOffset(cut, maps, c) == ChunkOffset(cut, maps, c) + ChainSize(cut[c])
    ensures ChunkOffset(cut, maps, c + 1) == MapOffset(cut, maps, c) + MapSize(maps[c]) < UINT64_LIMIT
    ensures var h := HeaderUpTo(cut, maps, c);
            HeaderUpTo(cut, maps, c + 1) == Header(h.chunkOff + [ChunkOffset(cut, maps, c)],
                                                   h.mapOff + [MapOffset(cut, maps, c)],
                                                   h.mapSz + [MapSize(maps[c])])
  {
    BodySizeMonotone(cut, maps, c + 1, |cut|);
  }

  /** The first pass: the offsets are computed from sizes alone. */
  method ComputeOffsets(blocks: seq<Block>, chunks: nat, ends: set<nat>, ghost cut: seq<seq<BlockData>>,
                        ghost maps: seq<Balances>)
    returns (h: Header)
    requires Cuts(blocks, chunks, cut, maps) && ends == ChunkEnds(|blocks|, chunks)
    ensures h == HeaderUpTo(cut, maps, chunks)
  {
    hide Cuts, Pending, InChunk, ChunkEnds, BlockSize, ChainSize, MapSize, Boundary, HeaderUpTo, ChunkOffset, MapOffset;
    h := Header([], [], []);
    var filePos := 4 + 3 * chunks * 8;
    var prevEnd := filePos;
    ghost var c := 0;
    CutSizes(blocks, chunks, cut, maps);
    PassStart(blocks, chunks, cut, maps);
    for i := 0 to |blocks|
      invariant c <= chunks == |cut| == |maps| && FitsOffsets(cut, maps)
      invariant InChunk(|blocks|, chunks, c, i) && Boundary(|blocks|, chunks, c) <= i
      invariant i == |blocks| ==> c == chunks
      invariant h == HeaderUpTo(cut, maps, c)
      invariant prevEnd == ChunkOffset(cut, maps, c)
      invariant filePos == prevEnd + ChainSize(Pending(blocks, chunks, c, i))
    {
      NextInChunk(|blocks|, chunks, c, i);
      PendingNext(blocks, chunks, c, i);
      var size := blocks[i].Size();
      filePos := filePos + size;
      if i in ends {
        CompleteChunk(blocks, chunks, cut, maps, c, i);
        HeaderNext(cut, maps, c);
        var mapSz := MapSize(blocks[i].balances);
        assert filePos == MapOffset(cut, maps, c);
        h := Header(h.chunkOff + [prevEnd], h.mapOff + [filePos], h.mapSz + [mapSz]);
        filePos := filePos + mapSz;
        prevEnd := filePos;
        c := c + 1;
      }
    }
  }

  /** The second pass: the bytes are written, and each map lands on the offset computed for it. */
  method WriteFile(blocks: seq<Block>, chunks: nat, ends: set<nat>, h: Header, ghost cut: seq<seq<BlockData>>,
                   ghost maps: seq<Balances>)
    returns (out: seq<byte>)
    requires Cuts(blocks, chunks, cut, maps) && ends == ChunkEnds(|blocks|, chunks)
    requires h == HeaderUpTo(cut, maps, chunks)
    ensures out == FileBytes(cut, maps)
  {
    hide Cuts, Pending, InChunk, ChunkEnds, Boundary, HeaderUpTo, ChunkOffset, MapOffset, HeaderBytes, BlockBytes,
         ChainBytes, MapBytes, BlockWritable, BodyBytes;
    CutSizes(blocks, chunks, cut, maps);
    PassStart(blocks, chunks, cut, maps);
    WriteStart(cut, maps);
    ghost var header := HeaderBytes(h);
    out := HeaderBytes(h);
    var j := 0;
    for i := 0 to |blocks|
      invariant j <= chunks == |cut| == |maps| && FitsOffsets(cut, maps) && Storable(cut, maps)
      invariant InChunk(|blocks|, chunks, j, i) && Boundary(|blocks|, chunks, j) <= i
      invariant i == |blocks| ==> j == chunks
      invariant AllReadable(Pending(blocks, chunks, j, i))
      invariant out == header + BodyBytes(cut, maps, j) + ChainBytes(Pending(blocks, chunks, j, i))
      invariant i == |blocks| ==> Pending(blocks, chunks, j, i) == []
    {
      NextInChunk(|blocks|, chunks, j, i);
      PendingNext(blocks, chunks, j, i);
      WritableNext(blocks, chunks, cut, maps, i);
      ChainBytesLast(Pending(blocks, chunks, j, i), blocks[i].Data());
      out := blocks[i].Write(out);
      if i in ends {
        assert j < chunks;
        CompleteChunk(blocks, chunks, cut, maps, j, i);
        MapLandsAt(cut, maps, j, header);
        assert |out| == h.mapOff[j];
        out := WriteBalanceMap(out, blocks[i].balances);
        BodyNext(cut, maps, j, header);
        j := j + 1;
      }
    }
  }

  lemma WriteStart(cut: seq<seq<BlockData>>, maps: seq<Balances>)
    requires Storable(cut, maps)
    ensures AllReadable([]) && ChainBytes([]) == [] && BodyBytes(cut, maps, 0) == []
  {
  }

  lemma WritableNext(blocks: seq<Block>, chunks: nat, cut: seq<seq<BlockData>>, maps: seq<Balances>, i: nat)
    requires Cuts(blocks, chunks, cut, maps) && i < |blocks|
    ensures BlockWritable(blocks[i].Data()) && BlockReadable(blocks[i].Data())
  {
    hide CutUpTo, MapsUpTo;
    assert blocks[i] in blocks;
  }

  /** The bytes written before the map of chunk `j` end where the first pass says that map starts. */
  lemma MapLandsAt(cut: seq<seq<BlockData>>, maps: seq<Balances>, j: nat, header: seq<byte>)
    requires Storable(cut, maps) && FitsOffsets(cut, maps) && j < |cut| && |header| == HeaderSize(|cut|)
    ensures |header + BodyBytes(cut, maps, j) + ChainBytes(cut[j])| == HeaderUpTo(cut, maps, |cut|).mapOff[j]
  {
    hide ChainBytes, BodyBytes, BodySize, ChainSize;
    HeaderAt(cut, maps, |cut|, j);
    BodyBytesSize(cut, maps, j);
    ChainBytesSize(cut[j]);
  }

  lemma BodyNext(cut: seq<seq<BlockData>>, maps: seq<Balances>, j: nat, header: seq<byte>)
    requires Storable(cut, maps) && j < |cut|
    ensures header + BodyBytes(cut, maps, j) + ChainBytes(cut[j]) + MapBytes(maps[j])
            == header + BodyBytes(cut, maps, j + 1) + ChainBytes([])
  {
    hide MapBytes;
    Regroup3(header, BodyBytes(cut, maps, j), ChainBytes(cut[j]), MapBytes(maps[j]));
  }

  lemma Regroup3<T>(h: seq<T>, a: seq<T>, b: seq<T>, c: seq<T>)
    ensures h + (a + b + c) + [] == h + a + b + c
  {
  }

  function ChunksOf(path: seq<Block>, chunks: nat): seq<seq<BlockData>>
    reads path
  {
    if 0 < chunks <= |path| then CutUpTo(Datas(path), chunks, chunks) else []
  }

  function MapsOf(path: seq<Block>, chunks: nat): seq<Balances>
    reads path
  {
    if 0 < chunks <= |path| then MapsUpTo(AllBalances(path), chunks, chunks) else []
  }

  /** Chunk `c` has the blocks from `first` up to `after`, and its map is that of the last of them. */
  ghost predicate ChunkIs(path: seq<Block>, chunk: seq<BlockData>, stored: Balances, first: int, after: int)
    reads path
  {
    && 0 <= first < after <= |path| && |chunk| == after - first
    && (forall k :: first <= k < after ==> chunk[k - first] == path[k].Data())
    && stored == path[after - 1].balances
  }

  /** All chunks have the same number of blocks, but the last has the rest as well. */
  ghost predicate EvenlyCut(path: seq<Block>, chunks: nat, cut: seq<seq<BlockData>>, maps: seq<Balances>)
    requires chunks > 0
    reads path
  {
    && |cut| == |maps| == chunks
    && forall c :: 0 <= c < chunks ==>
         ChunkIs(path, cut[c], maps[c], (|path| / chunks) * c,
                 if c == chunks - 1 then |path| else (|path| / chunks) * (c + 1))
  }

  lemma WrittenEvenly(path: seq<Block>, chunks: nat)
    requires 0 < chunks <= |path|
    ensures EvenlyCut(path, chunks, ChunksOf(path, chunks), MapsOf(path, chunks))
  {
    hide CutUpTo, MapsUpTo;
    forall c | 0 <= c < chunks
      ensures ChunkIs(path, ChunksOf(path, chunks)[c], MapsOf(path, chunks)[c], (|path| / chunks) * c,
                      if c == chunks - 1 then |path| else (|path| / chunks) * (c + 1))
    {
      CutAt(Datas(path), chunks, chunks, c);
      MapsAt(AllBalances(path), chunks, chunks, c);
    }
  }

  /**
   * `rewrite_chain`: for a chain whose `length` counts it, and at least as many blocks as chunks, the file holds the
   * chunks cut at the boundaries, each followed by the balances of its last block, at the offsets of its header.
   */
  method RewriteChain(tip: Block, chunks: nat, ghost path: seq<Block>) returns (file: seq<byte>)
    requires IsPath(path) && path[|path| - 1] == tip && tip.length == |path|
    requires chunks > 1
    requires Cuts(path, chunks, ChunksOf(path, chunks), MapsOf(path, chunks))
    ensures file == FileBytes(ChunksOf(path, chunks), MapsOf(path, chunks))
    ensures EvenlyCut(path, chunks, ChunksOf(path, chunks), MapsOf(path, chunks))
  {
    hide Cuts, ChunksOf, MapsOf, IsPath, FileBytes, EvenlyCut;
    var blocks := TrackBack(tip, path);
    ghost var cut, maps := ChunksOf(path, chunks), MapsOf(path, chunks);
    var ends := ComputeChunkEnds(|blocks|, chunks);
    var h := ComputeOffsets(blocks, chunks, ends, cut, maps);
    file := WriteFile(blocks, chunks, ends, h, cut, maps);
    CutSizes(path, chunks, cut, maps);
    WrittenEvenly(path, chunks);
  }
}
