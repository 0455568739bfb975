/** The chunk reader on objects: a chunk is read on its own and adds its head and tail to the shared collections. */
module ChunkReader {
  import opened Wrappers
  import opened Bytes
  import opened Ledger
  import opened Codec
  import opened BalanceMapCodec
  import opened Reading
  import opened Stitching
  import opened Blocks
  import opened SequentialReader

  /** What the chunk threads share. */
  class Shared {
    var heads: set<Block>
    var tails: map<Hash, Block>

    constructor ()
      ensures heads == {} && tails == map[]
    {
      heads, tails := {}, map[];
    }
  }

  ghost predicate NodeIs(b: Block?, nodes: map<Block, Node>, n: Node) {
    b != null && b in nodes && nodes[b] == n
  }

  /** The head a chunk may have added to the shared set. */
  ghost predicate HeadAdded(before: set<Block>, after: set<Block>, head: Block?, nodes: map<Block, Node>,
                            h: Option<Node>) {
    match h
    case None => head == null && after == before
    case Some(n) => NodeIs(head, nodes, n) && after == before + {head}
  }

  ghost predicate TailAdded(before: map<Hash, Block>, after: map<Hash, Block>, tail: Block?, nodes: map<Block, Node>,
                            t: Option<Node>) {
    match t
    case None => tail == null && after == before
    case Some(n) => NodeIs(tail, nodes, n) && after == before[n.blk.blkHash := tail]
  }

  lemma HeadStable(cr: Crypto, init: Option<Balances>, done: seq<BlockData>, b: BlockData)
    requires done != []
    ensures HeadOf(cr, init, done + [b]) == HeadOf(cr, init, done)
  {
    assert (done + [b])[..1] == done[..1];
  }

  lemma FirstHead(cr: Crypto, init: Option<Balances>, b: BlockData)
    ensures var prev := FirstPrev(b, init);
            var r := ValidateBlock(cr, b, StartBalances(prev));
            HeadOf(cr, init, [b]) == if r.ok && b.prevHash != ZERO_HASH
                                     then Some(Node(b, LengthAfter(prev), r.balances, prev)) else None
  {
    hide ValidateBlock;
    assert [b][..1] == [] + [b];
    ReadOneMore(cr, init, [], b);
  }

  ghost function InitAt(data: seq<byte>, prevMapOff: nat): Option<Balances>
    requires prevMapOff != 0 ==> prevMapOff <= |data| && HoldsMap(data[prevMapOff..])
  {
    if prevMapOff == 0 then None else Some(ReadMap(data[prevMapOff..]))
  }

  lemma NoHead(cr: Crypto, init: Option<Balances>)
    ensures HeadOf(cr, init, []) == None
  {
  }

  lemma FirstIs(data: seq<byte>, start: nat, end: nat, done: seq<BlockData>, b: BlockData, pos: nat)
    requires LoopState(data, start, end, pos, done + [b])
    ensures var blocks := ParseChain(data[start..end]);
            blocks != [] && (done == [] ==> blocks[0] == b)
  {
    hide ParseChain;
  }

  /** The head stays what it was when an object for a later block is added. */
  lemma HeadKept(cr: Crypto, init: Option<Balances>, done: seq<BlockData>, b: BlockData, before: set<Block>,
                 after: set<Block>, head: Block?, nodes: map<Block, Node>, blk: Block, n: Node)
    requires done != [] && blk !in nodes
    requires HeadAdded(before, after, head, nodes, HeadOf(cr, init, done))
    ensures HeadAdded(before, after, head, nodes, HeadOf(cr, init, done + [b]))
    ensures HeadAdded(before, after, head, nodes[blk := n], HeadOf(cr, init, done + [b]))
  {
    hide HeadOf;
    HeadStable(cr, init, done, b);
  }

  lemma TipAfter(cr: Crypto, b: BlockData, prev: Prev, s: ReadState, tip: Block?, nodes: map<Block, Node>, blk: Block)
    requires TipMatches(tip, nodes, LastTip(s.accepted))
    ensures var r := ValidateBlock(cr, b, StartBalances(prev));
            TipMatches(if r.ok then blk else tip,
                       if r.ok then nodes[blk := Node(b, LengthAfter(prev), r.balances, prev)] else nodes,
                       LastTip(Accept(cr, b, prev, s).accepted))
  {
    hide ValidateBlock;
  }

  /** The first accepted object becomes a head unless it is a coinbase block. */
  method AddHead(cr: Crypto, init: Option<Balances>, blk: Block, ghost nodes: map<Block, Node>, ghost stub: Block?,
                 shared: Shared)
    returns (ghost head: Block?)
    requires Represents(nodes, stub) && blk in nodes
    requires init.Some? ==> blk.Data().prevHash != ZERO_HASH
    requires var prev := FirstPrev(blk.Data(), init);
             var r := ValidateBlock(cr, blk.Data(), StartBalances(prev));
             r.ok && nodes[blk] == Node(blk.Data(), LengthAfter(prev), r.balances, prev)
    modifies shared`heads
    ensures HeadAdded(old(shared.heads), shared.heads, head, nodes, HeadOf(cr, init, [blk.Data()]))
    ensures head == null || head == blk
    ensures init.Some? ==> head == blk
  {
    hide ValidateBlock, HeadOf;
    FirstHead(cr, init, blk.Data());
    assert Matches(blk, nodes[blk], nodes, stub);
    head := null;
    var coinbase := blk.IsCoinbase();
    if !coinbase {
      shared.heads := shared.heads + {blk};
      head := blk;
    }
  }

  /** What the block loop of a chunk has established once the blocks `done` are read. */
  ghost predicate ChunkRead(cr: Crypto, init: Option<Balances>, done: seq<BlockData>, nodes: map<Block, Node>,
                            stub: Block?, tip: Block?)
    reads nodes.Keys, stub
  {
    && Represents(nodes, stub)
    && TipMatches(tip, nodes, LastTip(ReadBlocks(cr, init, done).accepted))
  }

  /** The objects all stand for accepted blocks, and only the head sits on the made-up block. */
  ghost predicate FromRun(cr: Crypto, init: Option<Balances>, done: seq<BlockData>, nodes: map<Block, Node>,
                          head: Block?)
  {
    && (forall b :: b in nodes ==> nodes[b] in ReadBlocks(cr, init, done).accepted)
    && (forall b :: b in nodes && nodes[b].prev.Stub? ==> b == head)
  }

  lemma FromRunMore(cr: Crypto, init: Option<Balances>, done: seq<BlockData>, b: BlockData, nodes: map<Block, Node>,
                    head: Block?, blk: Block, newHead: Block?)
    requires FromRun(cr, init, done, nodes, head) && (done != [] ==> newHead == head)
    requires done == [] ==> nodes == map[] && (FirstPrev(b, init).Stub? ==> newHead == blk || newHead == null)
    ensures var s := ReadBlocks(cr, init, done);
            var prev := if done == [] then FirstPrev(b, init) else FindPrev(b, s.bmap);
            var r := ValidateBlock(cr, b, StartBalances(prev));
            && (!r.ok ==> FromRun(cr, init, done + [b], nodes, newHead))
            && (r.ok && (FirstPrev(b, init).Stub? && done == [] ==> newHead == blk) ==>
                  FromRun(cr, init, done + [b], nodes[blk := Node(b, LengthAfter(prev), r.balances, prev)], newHead))
  {
    hide ValidateBlock, ReadBlocks;
    ReadOneMore(cr, init, done, b);
  }

  /** The block loop of `readChunk`. */
  method ReadChunkBlocks(cr: Crypto, data: seq<byte>, init: Option<Balances>, chunkStart: nat, mapStart: nat,
                         shared: Shared)
    returns (tip: Block?, ghost nodes: map<Block, Node>, ghost stub: Block?, ghost head: Block?)
    requires chunkStart <= mapStart <= |data|
    requires init.Some? ==> var blocks := ParseChain(data[chunkStart..mapStart]);
                            blocks != [] ==> blocks[0].prevHash != ZERO_HASH
    modifies shared`heads
    ensures forall b :: b in nodes ==> fresh(b)
    ensures stub != null ==> fresh(stub)
    ensures ChunkRead(cr, init, ParseChain(data[chunkStart..mapStart]), nodes, stub, tip)
    ensures HeadAdded(old(shared.heads), shared.heads, head, nodes,
                      HeadOf(cr, init, ParseChain(data[chunkStart..mapStart])))
    ensures FromRun(cr, init, ParseChain(data[chunkStart..mapStart]), nodes, head)
  {
    hide ParseBlock, ParseChain, ValidateBlock, ReadBlocks, LoopState, HeadOf, HeadAdded, TipMatches, MapMatches,
         FromRun;
    var bytesLeft: nat := mapStart - chunkStart;
    var chunkPtr: nat := chunkStart;
    var bmap: map<Hash, Block> := map[];
    var theStub: Block? := null;
    ghost var done: seq<BlockData> := [];
    ghost var s := ReadState(map[], []);
    nodes, stub, head, tip := map[], null, null, null;
    LoopStart(data, chunkStart, mapStart);
    ReadNothing(cr, init);
    NoHead(cr, init);
    NothingMatches(cr, init, shared.heads);
    var i := 0;
    while bytesLeft > 0
      invariant LoopState(data, chunkStart, mapStart, chunkPtr, done) && chunkPtr + bytesLeft == mapStart
      invariant i == |done| && s == ReadBlocks(cr, init, done)
      invariant Represents(nodes, stub) && MapMatches(bmap, nodes, s.bmap) && stub == theStub
      invariant TipMatches(tip, nodes, LastTip(s.accepted))
      invariant forall b :: b in nodes ==> fresh(b)
      invariant stub != null ==> fresh(stub)
      invariant i == 0 ==> nodes == map[] && head == null && shared.heads == old(shared.heads)
      invariant HeadAdded(old(shared.heads), shared.heads, head, nodes, HeadOf(cr, init, done))
      invariant FromRun(cr, init, done, nodes, head)
      decreases bytesLeft
    {
      LoopStep(data, chunkStart, mapStart, chunkPtr, done);
      ghost var before := nodes;
      var blk, bytesParsed, ok, nodes', stub' :=
        ReadNext(cr, data, chunkPtr, bytesLeft, bmap, if i == 0 then init else None, nodes, s.bmap, theStub);
      stub, theStub := stub', stub';
      if bytesParsed > 0 {
        ghost var b := blk.Data();
        ghost var prev := if i == 0 then FirstPrev(b, init) else FindPrev(b, s.bmap);
        FirstIs(data, chunkStart, mapStart, done, b, chunkPtr + bytesParsed);
        ReadOneMore(cr, init, done, b);
        FirstLink(b, init, s.bmap, nodes, bmap);
        AcceptedMap(cr, b, prev, s, bmap, nodes, blk);
        TipAfter(cr, b, prev, s, tip, nodes, blk);
        ghost var oldHead := head;
        nodes := nodes';
        if i == 0 {
          FirstHead(cr, init, b);
          assert done + [b] == [b];
          if ok {
            head := AddHead(cr, init, blk, nodes, stub, shared);
          } else {
            NothingAdded(shared.heads, nodes);
          }
        } else {
          HeadKept(cr, init, done, b, old(shared.heads), shared.heads, head, before, blk,
                   Node(b, LengthAfter(prev), ValidateBlock(cr, b, StartBalances(prev)).balances, prev));
        }
        FromRunMore(cr, init, done, b, before, oldHead, blk, head);
        if ok {
          bmap := bmap[blk.blkHash := blk];
          tip := blk;
        }
        s := Accept(cr, b, prev, s);
        done := done + [b];
        chunkPtr := chunkPtr + bytesParsed;
        bytesLeft := bytesLeft - bytesParsed;
        i := i + 1;
      } else {
        break;
      }
    }
    assert bytesLeft == 0 ==> data[chunkPtr..mapStart] == [];
    EmptyFails();
    LoopStep(data, chunkStart, mapStart, chunkPtr, done);
  }

  lemma NothingMatches(cr: Crypto, init: Option<Balances>, heads: set<Block>)
    ensures FromRun(cr, init, [], map[], null)
    ensures MapMatches(map[], map[], map[]) && TipMatches(null, map[], LastTip([]))
    ensures HeadAdded(heads, heads, null, map[], None)
  {
  }

  lemma NothingAdded(heads: set<Block>, nodes: map<Block, Node>)
    ensures HeadAdded(heads, heads, null, nodes, None)
  {
  }

  /** The very first block has no accepted block to link to. */
  lemma FirstLink(b: BlockData, init: Option<Balances>, m: map<Hash, Node>, nodes: map<Block, Node>,
                  bmap: map<Hash, Block>)
    requires MapMatches(bmap, nodes, m)
    ensures nodes == map[] ==> FindPrev(b, m) == NoPrev && PrevOf(b, init, m) == FirstPrev(b, init)
  {
    assert b.prevHash in m ==> bmap[b.prevHash] in nodes;
  }

  /**
   * `readChunk`. The accepted objects are new and match the value-level run of the chunk; the shared set and map get
   * just the head and the tail of that run.
   */
  method ReadChunk(cr: Crypto, data: seq<byte>, prevMapOff: nat, chunkStart: nat, mapStart: nat, shared: Shared)
    returns (len: nat, ghost nodes: map<Block, Node>, ghost stub: Block?, ghost head: Block?, ghost tail: Block?)
    requires chunkStart <= mapStart <= |data| && HoldsMap(data[mapStart..])
    requires prevMapOff != 0 ==> prevMapOff <= |data| && HoldsMap(data[prevMapOff..])
    requires prevMapOff != 0 ==> var blocks := ParseChain(data[chunkStart..mapStart]);
                                 blocks != [] ==> blocks[0].prevHash != ZERO_HASH
    modifies shared
    ensures forall b :: b in nodes ==> fresh(b)
    ensures stub != null ==> fresh(stub)
    ensures Represents(nodes, stub)
    ensures var out := ReadChunkSpec(cr, InitAt(data, prevMapOff), ParseChain(data[chunkStart..mapStart]),
                                     ReadMap(data[mapStart..]));
            && HeadAdded(old(shared.heads), shared.heads, head, nodes, out.head)
            && TailAdded(old(shared.tails), shared.tails, tail, nodes, out.tail)
            && len == (match out.tail case None => 0 case Some(n) => n.length)
    ensures FromRun(cr, InitAt(data, prevMapOff), ParseChain(data[chunkStart..mapStart]), nodes, head)
  {
    hide ParseChain, ReadBlocks, ReadMap, HoldsMap, SameMoney, HeadOf, HeadAdded, Represents, FromRun;
    var init: Option<Balances> := None;
    if prevMapOff != 0 {
      var m := ReadBalanceMap(data, prevMapOff);
      init := Some(m);
    }
    var finalBal := ReadBalanceMap(data, mapStart);
    var tip: Block?;
    tip, nodes, stub, head := ReadChunkBlocks(cr, data, init, chunkStart, mapStart, shared);
    tail, len := null, 0;
    if tip != null {
      FieldsMatch(nodes, stub, tip);
      var equal := BalanceMapsEqual(tip.balances, finalBal);
      if equal {
        shared.tails := shared.tails[tip.blkHash := tip];
        tail := tip;
        len := tip.length;
      }
    }
  }
}
