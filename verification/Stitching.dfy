/** The chunk reader's result, the stitching of chunks by hash, and when the stitched length is that of the chain. */
module Stitching {
  import opened Wrappers
  import opened Bytes
  import opened Ledger
  import opened Reading
  import opened Indexed

  // ---------- one chunk ----------

  /** What a chunk contributes: its head, if still to be linked, and its tail, if its balances were the stored ones. */
  datatype ChunkOut = ChunkOut(head: Option<Node>, tail: Option<Node>)

  function HeadOf(cr: Crypto, init: Option<Balances>, seg: seq<BlockData>): Option<Node> {
    if seg == [] then None
    else
      var accepted := ReadBlocks(cr, init, seg[..1]).accepted;
      if accepted == [] || seg[0].prevHash == ZERO_HASH then None else Some(accepted[0])
  }

  ghost function TailOf(cr: Crypto, init: Option<Balances>, seg: seq<BlockData>, stored: Balances): Option<Node> {
    match LastTip(ReadBlocks(cr, init, seg).accepted)
    case None => None
    case Some(t) => if SameMoney(t.balances, stored) then Some(t) else None
  }

  ghost function ReadChunkSpec(cr: Crypto, init: Option<Balances>, seg: seq<BlockData>, stored: Balances): ChunkOut {
    ChunkOut(HeadOf(cr, init, seg), TailOf(cr, init, seg, stored))
  }

  // ---------- all chunks ----------

  /** Chunk 0 starts from nothing, every other chunk from the map stored before it. */
  function InitOf(maps: seq<Balances>, c: nat): Option<Balances>
    requires c <= |maps|
  {
    if c == 0 then None else Some(maps[c - 1])
  }

  ghost function ChunkOutsUpTo(cr: Crypto, chunks: seq<seq<BlockData>>, maps: seq<Balances>, m: nat)
    : (outs: seq<ChunkOut>)
    requires m <= |chunks| == |maps|
    ensures |outs| == m
  {
    if m == 0 then []
    else ChunkOutsUpTo(cr, chunks, maps, m - 1) + [ReadChunkSpec(cr, InitOf(maps, m - 1), chunks[m - 1], maps[m - 1])]
  }

  ghost function ChunkOuts(cr: Crypto, chunks: seq<seq<BlockData>>, maps: seq<Balances>): (outs: seq<ChunkOut>)
    requires |chunks| == |maps|
    ensures |outs| == |chunks|
  {
    ChunkOutsUpTo(cr, chunks, maps, |chunks|)
  }

  lemma ChunkOutAt(cr: Crypto, chunks: seq<seq<BlockData>>, maps: seq<Balances>, c: nat)
    requires c < |chunks| == |maps|
    ensures ChunkOuts(cr, chunks, maps)[c] == ReadChunkSpec(cr, InitOf(maps, c), chunks[c], maps[c])
  {
    ChunkOutUpToAt(cr, chunks, maps, c, |chunks|);
  }

  lemma {:induction false} ChunkOutUpToAt(cr: Crypto, chunks: seq<seq<BlockData>>, maps: seq<Balances>, c: nat, m: nat)
    requires c < m <= |chunks| == |maps|
    ensures ChunkOutsUpTo(cr, chunks, maps, m)[c] == ReadChunkSpec(cr, InitOf(maps, c), chunks[c], maps[c])
    decreases m
  {
    hide ReadChunkSpec;
    if c < m - 1 {
      ChunkOutUpToAt(cr, chunks, maps, c, m - 1);
    }
  }

  /** The shared map of tails after all chunks are done. */
  function TailMap(outs: seq<ChunkOut>): map<Hash, Node> {
    if outs == [] then map[]
    else
      var before := TailMap(outs[..|outs| - 1]);
      match outs[|outs| - 1].tail
      case None => before
      case Some(t) => before[t.blk.blkHash := t]
  }

  ghost function Tails(cr: Crypto, chunks: seq<seq<BlockData>>, maps: seq<Balances>): map<Hash, Node>
    requires |chunks| == |maps|
  {
    TailMap(ChunkOuts(cr, chunks, maps))
  }

  ghost predicate AllHeadsFound(outs: seq<ChunkOut>) {
    forall c {:trigger outs[c]} :: 0 <= c < |outs| && outs[c].head.Some? ==>
      outs[c].head.value.blk.prevHash in TailMap(outs)
  }

  /**
   * What `recompute_length` gives after the heads were put on the tails they name: a step inside a chunk goes to the
   * predecessor, a step from a chunk's first block goes to the tail with the hash it names. `hops` bounds the latter.
   */
  function StitchedLength(tails: map<Hash, Node>, n: Node, hops: nat): nat
    decreases hops, n
  {
    match n.prev
    case NoPrev => 1
    case Linked(p) => StitchedLength(tails, p, hops) + 1
    case Stub(h, _) =>
      if h in tails && hops > 0 then StitchedLength(tails, tails[h], hops - 1) + 1 else 2
  }

  /** What the stitching reader may print: a longest tail, and only if every head was found. */
  ghost predicate Reports(outs: seq<ChunkOut>, h: Hash, length: nat) {
    var tails := TailMap(outs);
    && AllHeadsFound(outs)
    && h in tails && StitchedLength(tails, tails[h], |outs|) == length
    && forall o :: o in tails ==> StitchedLength(tails, tails[o], |outs|) <= length
  }

  // ---------- chunked files ----------

  function Flatten(chunks: seq<seq<BlockData>>): seq<BlockData> {
    if chunks == [] then [] else Flatten(chunks[..|chunks| - 1]) + chunks[|chunks| - 1]
  }

  /** The index of the first block of chunk `c`. */
  function Start(chunks: seq<seq<BlockData>>, c: nat): nat
    requires c <= |chunks|
  {
    |Flatten(chunks[..c])|
  }

  /** Chunks that hold one linked chain, each with a stored balance map. Any chunk but the first may be empty. */
  ghost predicate ChunkedChain(chunks: seq<seq<BlockData>>, maps: seq<Balances>) {
    chunks != [] && |maps| == |chunks| && chunks[0] != [] && LinkedChain(Flatten(chunks))
  }

  /** The nearest chunk below `c` that holds a block. */
  function Below(chunks: seq<seq<BlockData>>, c: nat): (d: nat)
    requires 0 < c <= |chunks| && chunks[0] != []
    ensures d < c && chunks[d] != [] && forall e :: d < e < c ==> chunks[e] == []
  {
    if chunks[c - 1] != [] then c - 1 else Below(chunks, c - 1)
  }

  /** Empty chunks add nothing. */
  lemma {:induction false} EmptyChunks(chunks: seq<seq<BlockData>>, d: nat, c: nat)
    requires d <= c <= |chunks| && forall e :: d <= e < c ==> chunks[e] == []
    ensures Flatten(chunks[..c]) == Flatten(chunks[..d])
    decreases c
  {
    if d < c {
      EmptyChunks(chunks, d, c - 1);
      FlattenUpTo(chunks, c - 1);
    }
  }

  lemma FlattenUpTo(chunks: seq<seq<BlockData>>, c: nat)
    requires c < |chunks|
    ensures Flatten(chunks[..c + 1]) == Flatten(chunks[..c]) + chunks[c]
  {
    assert chunks[..c + 1][..c] == chunks[..c];
  }

  lemma {:induction false} FlattenPrefix(chunks: seq<seq<BlockData>>, c: nat)
    requires c <= |chunks|
    ensures Start(chunks, c) <= |Flatten(chunks)| && Flatten(chunks)[..Start(chunks, c)] == Flatten(chunks[..c])
    decreases |chunks| - c
  {
    if c == |chunks| {
      assert chunks[..c] == chunks;
    } else {
      FlattenPrefix(chunks, c + 1);
      FlattenUpTo(chunks, c);
      assert Flatten(chunks)[..Start(chunks, c)] == Flatten(chunks)[..Start(chunks, c + 1)][..Start(chunks, c)];
    }
  }

  /** Chunk `c` sits at its start index in the chain. */
  lemma ChunkInChain(chunks: seq<seq<BlockData>>, c: nat)
    requires c < |chunks|
    ensures Start(chunks, c) + |chunks[c]| == Start(chunks, c + 1) <= |Flatten(chunks)|
    ensures Flatten(chunks)[Start(chunks, c)..Start(chunks, c + 1)] == chunks[c]
    ensures forall k :: 0 <= k < |chunks[c]| ==> Flatten(chunks)[Start(chunks, c) + k] == chunks[c][k]
  {
    hide Flatten;
    FlattenPrefix(chunks, c + 1);
    FlattenUpTo(chunks, c);
    Middle(Flatten(chunks), Flatten(chunks[..c]), chunks[c]);
  }

  lemma Middle<T>(all: seq<T>, x: seq<T>, y: seq<T>)
    requires |x| + |y| <= |all| && all[..|x| + |y|] == x + y
    ensures all[|x|..|x| + |y|] == y
    ensures forall k :: 0 <= k < |y| ==> all[|x| + k] == y[k]
  {
    assert all[|x|..|x| + |y|] == all[..|x| + |y|][|x|..];
    forall k | 0 <= k < |y| ensures all[|x| + k] == y[k] {
      assert all[|x| + k] == all[|x|..|x| + |y|][k];
    }
  }

  lemma PlaceAt(chunks: seq<seq<BlockData>>, c: nat, k: nat)
    requires c < |chunks| && k < |chunks[c]|
    ensures Start(chunks, c) + k < Start(chunks, c + 1) == Start(chunks, c) + |chunks[c]| <= |Flatten(chunks)|
    ensures Flatten(chunks)[Start(chunks, c) + k] == chunks[c][k]
  {
    hide Flatten, Start;
    ChunkInChain(chunks, c);
  }

  lemma StartOfFirst(chunks: seq<seq<BlockData>>)
    ensures Start(chunks, 0) == 0
  {
    assert chunks[..0] == [];
    EmptyFlatten();
  }

  lemma FollowsLast(all: seq<BlockData>, i: nat)
    requires LinkedSegment(all) && 0 < i < |all|
    ensures all[i].prevHash == all[i - 1].blkHash != ZERO_HASH
  {
    hide Zeros;
  }

  lemma ChunkLinked(chunks: seq<seq<BlockData>>, maps: seq<Balances>, c: nat)
    requires ChunkedChain(chunks, maps) && c < |chunks|
    ensures LinkedSegment(chunks[c])
    ensures chunks[c] != [] && c == 0 ==> chunks[c][0].prevHash == ZERO_HASH
    ensures chunks[c] != [] && c > 0 ==> var before := chunks[Below(chunks, c)];
                                         chunks[c][0].prevHash == before[|before| - 1].blkHash != ZERO_HASH
  {
    hide Flatten, Start, LinkedSegment, Below;
    ChunkInChain(chunks, c);
    var all := Flatten(chunks);
    LinkedPart(all, Start(chunks, c), Start(chunks, c + 1));
    if chunks[c] != [] {
      PlaceAt(chunks, c, 0);
      if c > 0 {
        StartAfterBelow(chunks, c);
        PlaceAt(chunks, Below(chunks, c), |chunks[Below(chunks, c)]| - 1);
        FollowsLast(all, Start(chunks, c));
      } else {
        StartOfFirst(chunks);
      }
    }
  }

  /** A chunk starts where the nearest chunk below it that holds a block ends. */
  lemma StartAfterBelow(chunks: seq<seq<BlockData>>, c: nat)
    requires 0 < c <= |chunks| && chunks[0] != []
    ensures var d := Below(chunks, c);
            0 < Start(chunks, c) == Start(chunks, d + 1) == Start(chunks, d) + |chunks[d]| <= |Flatten(chunks)|
  {
    hide Flatten, Below;
    EmptyChunks(chunks, Below(chunks, c) + 1, c);
    ChunkInChain(chunks, Below(chunks, c));
  }

  lemma EmptyFlatten()
    ensures Flatten([]) == []
  {
  }

  lemma DistinctPlaces(blocks: seq<BlockData>, x: nat, y: nat)
    requires LinkedSegment(blocks) && x < |blocks| && y < |blocks| && blocks[x].blkHash == blocks[y].blkHash
    ensures x == y
  {
  }

  /** A hash names one place in the chunked chain. */
  lemma SamePlace(chunks: seq<seq<BlockData>>, maps: seq<Balances>, c: nat, k: nat, d: nat, j: nat)
    requires ChunkedChain(chunks, maps)
    requires c < |chunks| && k < |chunks[c]| && d < |chunks| && j < |chunks[d]|
    requires chunks[c][k].blkHash == chunks[d][j].blkHash
    ensures c == d && k == j
  {
    hide Flatten, LinkedSegment, Start;
    PlaceAt(chunks, c, k);
    PlaceAt(chunks, d, j);
    var x, y := Start(chunks, c) + k, Start(chunks, d) + j;
    DistinctPlaces(Flatten(chunks), x, y);
    if c < d {
      StartsGrow(chunks, c + 1, d);
    } else if d < c {
      StartsGrow(chunks, d + 1, c);
    }
  }

  lemma {:induction false} StartsGrow(chunks: seq<seq<BlockData>>, c: nat, d: nat)
    requires c <= d <= |chunks|
    ensures Start(chunks, c) <= Start(chunks, d)
    decreases d
  {
    if c < d {
      StartsGrow(chunks, c, d - 1);
      ChunkInChain(chunks, d - 1);
    }
  }
}
