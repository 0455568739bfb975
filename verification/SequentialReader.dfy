/** The sequential readers: parse, link, validate and remember one block after another. */
module SequentialReader {
  import opened Wrappers
  import opened Bytes
  import opened Ledger
  import opened Codec
  import opened Reading
  import opened Blocks

  // ---------- block objects and the values they stand for ----------

  /** The object `b` holds what `nodes[b]` records, and its link leads to the object of its predecessor. */
  ghost predicate Matches(b: Block, n: Node, nodes: map<Block, Node>, stub: Block?)
    reads b, stub
  {
    && b.Data() == n.blk && b.length == n.length && b.balances == n.balances
    && LinkMatches(b.prevBlock, n.prev, nodes, stub)
  }

  ghost predicate LinkMatches(link: Block?, prev: Prev, nodes: map<Block, Node>, stub: Block?)
    reads stub
  {
    match prev
    case NoPrev => link == null
    case Stub(h, m) => stub != null && link == stub && stub.blkHash == h && stub.balances == m
    case Linked(p) => link != null && link in nodes && nodes[link] == p
  }

  /** All accepted objects match their values; `stub` is the made-up block of a chunk. */
  ghost predicate Represents(nodes: map<Block, Node>, stub: Block?)
    reads nodes.Keys, stub
  {
    && (stub != null ==> stub !in nodes && stub.length == 1 && stub.prevBlock == null)
    && forall b :: b in nodes ==> Matches(b, nodes[b], nodes, stub)
  }

  ghost predicate MapMatches(bmap: map<Hash, Block>, nodes: map<Block, Node>, m: map<Hash, Node>) {
    bmap.Keys == m.Keys && forall h :: h in bmap ==> bmap[h] in nodes && nodes[bmap[h]] == m[h]
  }

  ghost predicate TipMatches(tip: Block?, nodes: map<Block, Node>, t: Option<Node>) {
    match t
    case None => tip == null
    case Some(n) => tip != null && tip in nodes && nodes[tip] == n
  }

  /** What a reader prints about its tip. */
  datatype Report = Invalid | Tip(hash: Hash, length: nat)

  function ReportOf(t: Option<Node>): Report {
    match t
    case None => Invalid
    case Some(n) => Tip(n.blk.blkHash, n.length)
  }

  /** The block loop has read `done`; the bytes from `pos` on are still to come. */
  ghost predicate LoopState(data: seq<byte>, start: nat, end: nat, pos: nat, done: seq<BlockData>) {
    && start <= pos <= end <= |data|
    && ParseChain(data[start..end]) == done + ParseChain(data[pos..end])
  }

  lemma LoopStart(data: seq<byte>, start: nat, end: nat)
    requires start <= end <= |data|
    ensures LoopState(data, start, end, start, [])
  {
    assert [] + ParseChain(data[start..end]) == ParseChain(data[start..end]);
  }

  /** One block is parsed, or the loop is over. */
  lemma LoopStep(data: seq<byte>, start: nat, end: nat, pos: nat, done: seq<BlockData>)
    requires LoopState(data, start, end, pos, done)
    ensures match ParseBlock(data[pos..end])
            case Failed => ParseChain(data[start..end]) == done
            case Read(b, n) => LoopState(data, start, end, pos + n, done + [b])
  {
    hide ParseBlock;
    var rest := data[pos..end];
    match ParseBlock(rest) {
      case Failed =>
        assert done + [] == done;
      case Read(b, n) =>
        SubSlice(data, pos, end - pos, n, end - pos);
        assert done + ([b] + ParseChain(rest[n..])) == done + [b] + ParseChain(rest[n..]);
    }
  }

  lemma ReadNothing(cr: Crypto, init: Option<Balances>)
    ensures ReadBlocks(cr, init, []) == ReadState(map[], [])
  {
  }

  lemma EmptyFails()
    ensures ParseBlock([]) == Failed
  {
  }

  function PrevOf(b: BlockData, init: Option<Balances>, bmap: map<Hash, Node>): Prev {
    if init.Some? then FirstPrev(b, init) else FindPrev(b, bmap)
  }

  /** Adding a matching object to the accepted ones. */
  lemma RepresentsMore(nodes: map<Block, Node>, stub: Block?, blk: Block, n: Node)
    requires Represents(nodes, stub) && blk !in nodes && blk != stub
    requires Matches(blk, n, nodes, stub)
    ensures Represents(nodes[blk := n], stub)
  {
    forall b | b in nodes ensures Matches(b, nodes[b], nodes[blk := n], stub) {
      assert Matches(b, nodes[b], nodes, stub);
    }
  }

  lemma FieldsMatch(nodes: map<Block, Node>, stub: Block?, b: Block)
    requires Represents(nodes, stub) && b in nodes
    ensures b.Data() == nodes[b].blk && b.length == nodes[b].length && b.balances == nodes[b].balances
  {
    assert Matches(b, nodes[b], nodes, stub);
  }

  /** The link that `Read` makes is the one the values say. */
  lemma LinkFound(b: BlockData, link: Block?, bmap: map<Hash, Block>, nodes: map<Block, Node>, m: map<Hash, Node>,
                  stub: Block?)
    requires Represents(nodes, stub) && MapMatches(bmap, nodes, m)
    requires link == if b.prevHash != ZERO_HASH && b.prevHash in bmap then bmap[b.prevHash] else null
    ensures LinkMatches(link, FindPrev(b, m), nodes, stub)
    ensures link != null ==> link.length + 1 == LengthAfter(FindPrev(b, m))
                             && link.balances == StartBalances(FindPrev(b, m))
  {
    if link != null {
      FieldsMatch(nodes, stub, link);
    }
  }

  /** A new object is read and linked, or put on a made-up block if `init` asks for one. */
  method ReadLinked(data: seq<byte>, pos: nat, left: nat, bmap: map<Hash, Block>, init: Option<Balances>,
                    ghost nodes: map<Block, Node>, ghost m: map<Hash, Node>, oldStub: Block?)
    returns (blk: Block, size: nat, stub: Block?)
    requires pos + left <= |data|
    requires Represents(nodes, oldStub) && MapMatches(bmap, nodes, m)
    requires init.Some? ==> nodes == map[]
    ensures fresh(blk) && (init.None? ==> stub == oldStub) && blk != stub && blk.prevBlock != blk
    ensures init.Some? ==> stub != null && fresh(stub)
    ensures size == 0 <==> ParseBlock(data[pos..pos + left]).Failed?
    ensures size > 0 ==> ParseBlock(data[pos..pos + left]) == Codec.Read(blk.Data(), size)
    ensures Represents(nodes, stub)
    ensures var prev := PrevOf(blk.Data(), init, m);
            size > 0 ==> LinkMatches(blk.prevBlock, prev, nodes, stub) && blk.length == LengthAfter(prev)
                         && blk.Inherited() == StartBalances(prev)
  {
    hide ParseBlock, Matches, LinkMatches;
    stub := oldStub;
    blk := new Block();
    size := blk.Read(data, pos, left, bmap);
    if size > 0 {
      LinkFound(blk.Data(), blk.prevBlock, bmap, nodes, m, oldStub);
    }
    if init.Some? {
      stub := new Block();
      stub.blkHash := blk.prevHash;
      stub.balances := init.value;
      blk.SetPrevBlock(stub);
      assert LinkMatches(stub, FirstPrev(blk.Data(), init), nodes, stub) by { LinkToStub(stub, nodes); }
    }
  }

  lemma LinkToStub(stub: Block, nodes: map<Block, Node>)
    ensures LinkMatches(stub, Stub(stub.blkHash, stub.balances), nodes, stub)
  {
  }

  /**
   * The front half of every block loop: a new object is read, linked and validated. `nodes` grows by the new object
   * when it is accepted.
   */
  method ReadNext(cr: Crypto, data: seq<byte>, pos: nat, left: nat, bmap: map<Hash, Block>, init: Option<Balances>,
                  ghost nodes: map<Block, Node>, ghost m: map<Hash, Node>, oldStub: Block?)
    returns (blk: Block, size: nat, ok: bool, ghost nodes': map<Block, Node>, stub: Block?)
    requires pos + left <= |data|
    requires Represents(nodes, oldStub) && MapMatches(bmap, nodes, m)
    requires init.Some? ==> nodes == map[]
    ensures fresh(blk) && (init.None? ==> stub == oldStub) && (init.Some? ==> stub != null && fresh(stub))
    ensures size == 0 <==> ParseBlock(data[pos..pos + left]).Failed?
    ensures size > 0 ==> ParseBlock(data[pos..pos + left]) == Codec.Read(blk.Data(), size)
    ensures ok ==> size > 0
    ensures var prev := PrevOf(blk.Data(), init, m);
            var r := ValidateBlock(cr, blk.Data(), StartBalances(prev));
            && (size > 0 ==> ok == r.ok)
            && nodes' == if ok then nodes[blk := Node(blk.Data(), LengthAfter(prev), r.balances, prev)] else nodes
    ensures Represents(nodes', stub)
  {
    hide ParseBlock, ValidateBlock, LinkMatches;
    blk, size, stub := ReadLinked(data, pos, left, bmap, init, nodes, m, oldStub);
    nodes', ok := nodes, false;
    if size > 0 {
      ok := blk.Validate(cr);
      if ok {
        ghost var n := Node(blk.Data(), blk.length, blk.balances, PrevOf(blk.Data(), init, m));
        nodes' := nodes[blk := n];
        RepresentsMore(nodes, stub, blk, n);
      }
    }
  }

  lemma AcceptedMap(cr: Crypto, b: BlockData, prev: Prev, s: ReadState, bmap: map<Hash, Block>,
                    nodes: map<Block, Node>, blk: Block)
    requires MapMatches(bmap, nodes, s.bmap) && blk !in nodes
    ensures var r := ValidateBlock(cr, b, StartBalances(prev));
            r.ok ==> MapMatches(bmap[b.blkHash := blk], nodes[blk := Node(b, LengthAfter(prev), r.balances, prev)],
                                Accept(cr, b, prev, s).bmap)
  {
    hide ValidateBlock;
  }

  /** The sequential reader of day 4: the tip is the block accepted last. */
  method ReadChain(cr: Crypto, data: seq<byte>) returns (report: Report)
    ensures report == ReportOf(LastTip(ReadBlocks(cr, None, ParseChain(data)).accepted))
    ensures var accepted := ReadBlocks(cr, None, ParseChain(data)).accepted;
            if accepted == [] then report == Invalid
            else report == Tip(accepted[|accepted| - 1].blk.blkHash, accepted[|accepted| - 1].length)
  {
    hide ParseBlock, ParseChain, ValidateBlock, ReadBlocks, LoopState;
    var bmap: map<Hash, Block> := map[];
    var tip: Block? := null;
    var pos: nat, bytesLeft: nat := 0, |data|;
    ghost var done: seq<BlockData> := [];
    ghost var nodes: map<Block, Node> := map[];
    ghost var s := ReadState(map[], []);
    LoopStart(data, 0, |data|);
    ReadNothing(cr, None);
    assert data[0..|data|] == data;
    while bytesLeft > 0
      invariant LoopState(data, 0, |data|, pos, done) && pos + bytesLeft == |data|
      invariant s == ReadBlocks(cr, None, done)
      invariant Represents(nodes, null) && MapMatches(bmap, nodes, s.bmap)
      invariant TipMatches(tip, nodes, LastTip(s.accepted))
      decreases bytesLeft
    {
      LoopStep(data, 0, |data|, pos, done);
      var blk, bytesParsed, ok, nodes', _ := ReadNext(cr, data, pos, bytesLeft, bmap, None, nodes, s.bmap, null);
      if bytesParsed > 0 {
        ghost var b := blk.Data();
        ReadOneMore(cr, None, done, b);
        AcceptedMap(cr, b, FindPrev(b, s.bmap), s, bmap, nodes, blk);
        if ok {
          bmap := bmap[blk.blkHash := blk];
          tip := blk;
        }
        s := Accept(cr, b, FindPrev(b, s.bmap), s);
        nodes := nodes';
        done := done + [b];
        pos := pos + bytesParsed;
        bytesLeft := bytesLeft - bytesParsed;
      } else {
        break;
      }
    }
    assert bytesLeft == 0 ==> data[pos..|data|] == [];
    EmptyFails();
    LoopStep(data, 0, |data|, pos, done);
    if tip != null {
      FieldsMatch(nodes, null, tip);
    }
    report := if tip == null then Invalid else Tip(tip.blkHash, tip.length);
  }

  /** The sequential reader of day 1: the tip is replaced only by a longer block. */
  method ReadChainLongest(cr: Crypto, data: seq<byte>) returns (report: Report)
    ensures report == ReportOf(LongestTip(ReadBlocks(cr, None, ParseChain(data)).accepted))
    ensures var accepted := ReadBlocks(cr, None, ParseChain(data)).accepted;
            if accepted == [] then report == Invalid
            else exists i :: IsFirstMaximum(accepted, i) && report == Tip(accepted[i].blk.blkHash, accepted[i].length)
  {
    hide ParseBlock, ParseChain, ValidateBlock, ReadBlocks, LoopState;
    var bmap: map<Hash, Block> := map[];
    var tip: Block? := null;
    var pos: nat, bytesLeft: nat := 0, |data|;
    ghost var done: seq<BlockData> := [];
    ghost var nodes: map<Block, Node> := map[];
    ghost var s := ReadState(map[], []);
    LoopStart(data, 0, |data|);
    ReadNothing(cr, None);
    assert data[0..|data|] == data;
    while bytesLeft > 0
      invariant LoopState(data, 0, |data|, pos, done) && pos + bytesLeft == |data|
      invariant s == ReadBlocks(cr, None, done)
      invariant Represents(nodes, null) && MapMatches(bmap, nodes, s.bmap)
      invariant TipMatches(tip, nodes, LongestTip(s.accepted))
      decreases bytesLeft
    {
      LoopStep(data, 0, |data|, pos, done);
      var blk, bytesParsed, ok, nodes', _ := ReadNext(cr, data, pos, bytesLeft, bmap, None, nodes, s.bmap, null);
      if bytesParsed > 0 {
        ghost var b := blk.Data();
        ReadOneMore(cr, None, done, b);
        if tip != null {
          FieldsMatch(nodes, null, tip);
        }
        AcceptedMap(cr, b, FindPrev(b, s.bmap), s, bmap, nodes, blk);
        if ok {
          bmap := bmap[blk.blkHash := blk];
          FieldsMatch(nodes', null, blk);
          if tip == null {
            tip := blk;
          } else if tip.length < blk.length {
            tip := blk;
          }
        }
        s := Accept(cr, b, FindPrev(b, s.bmap), s);
        nodes := nodes';
        done := done + [b];
        pos := pos + bytesParsed;
        bytesLeft := bytesLeft - bytesParsed;
      } else {
        break;
      }
    }
    assert bytesLeft == 0 ==> data[pos..|data|] == [];
    EmptyFails();
    LoopStep(data, 0, |data|, pos, done);
    if tip != null {
      FieldsMatch(nodes, null, tip);
    }
    LongestTipIsFirstMaximum(s.accepted);
    report := if tip == null then Invalid else Tip(tip.blkHash, tip.length);
  }
}
