/** What the readers compute, on values: which blocks are accepted, with which predecessor, length and balances. */
module Reading {
  import opened Wrappers
  import opened Bytes
  import opened Ledger
  import opened Supply

  /** What `prev_block` points to: nothing, the made-up block a chunk starts from, or an accepted block. */
  datatype Prev = NoPrev | Stub(hash: Hash, balances: Balances) | Linked(node: Node)

  /** An accepted block as it stood when it was accepted. */
  datatype Node = Node(blk: BlockData, length: nat, balances: Balances, prev: Prev)

  function StartBalances(p: Prev): Balances {
    match p
    case NoPrev => map[]
    case Stub(_, m) => m
    case Linked(n) => n.balances
  }

  function LengthAfter(p: Prev): nat {
    match p
    case NoPrev => 1
    case Stub(_, _) => 2
    case Linked(n) => n.length + 1
  }

  /** The reader's block map, and its accepted blocks in file order. */
  datatype ReadState = ReadState(bmap: map<Hash, Node>, accepted: seq<Node>)

  function FindPrev(b: BlockData, bmap: map<Hash, Node>): Prev {
    if b.prevHash != ZERO_HASH && b.prevHash in bmap then Linked(bmap[b.prevHash]) else NoPrev
  }

  function Accept(cr: Crypto, b: BlockData, prev: Prev, s: ReadState): ReadState {
    var r := ValidateBlock(cr, b, StartBalances(prev));
    if !r.ok then s
    else
      var n := Node(b, LengthAfter(prev), r.balances, prev);
      ReadState(s.bmap[b.blkHash := n], s.accepted + [n])
  }

  function FirstPrev(b: BlockData, init: Option<Balances>): Prev {
    match init
    case None => NoPrev
    case Some(m) => Stub(b.prevHash, m)
  }

  /** The block loop. With `init` given the first block is put on top of a made-up block holding those balances. */
  function ReadBlocks(cr: Crypto, init: Option<Balances>, blocks: seq<BlockData>): ReadState {
    if blocks == [] then ReadState(map[], [])
    else
      var n := |blocks| - 1;
      var s := ReadBlocks(cr, init, blocks[..n]);
      Accept(cr, blocks[n], if n == 0 then FirstPrev(blocks[0], init) else FindPrev(blocks[n], s.bmap), s)
  }

  lemma ReadOneMore(cr: Crypto, init: Option<Balances>, blocks: seq<BlockData>, b: BlockData)
    ensures var s := ReadBlocks(cr, init, blocks);
            ReadBlocks(cr, init, blocks + [b])
            == Accept(cr, b, if blocks == [] then FirstPrev(b, init) else FindPrev(b, s.bmap), s)
  {
    assert (blocks + [b])[..|blocks|] == blocks;
  }

  // ---------- the accepted blocks form chains ----------

  /** The blocks from the bottom of the chain up to `n`. */
  function NodeChain(n: Node): seq<BlockData> {
    match n.prev
    case Linked(p) => NodeChain(p) + [n.blk]
    case _ => [n.blk]
  }

  /** What the chain of `n` stands on: nothing, or a chunk's made-up block. */
  function Bottom(n: Node): Prev {
    match n.prev
    case Linked(p) => Bottom(p)
    case other => other
  }

  /** The recorded length counts the blocks of the chain, and validating that chain from scratch gives the balances. */
  ghost predicate ChainNode(cr: Crypto, n: Node) {
    && n.length == |NodeChain(n)| + (if Bottom(n).Stub? then 1 else 0)
    && ChainRun(cr, StartBalances(Bottom(n)), NodeChain(n)) == Run(n.balances, true)
    && (n.prev.Linked? ==> n.prev.node.blk.blkHash == n.blk.prevHash != ZERO_HASH)
  }

  /** Later blocks of a hash replace earlier ones. */
  function LatestByHash(accepted: seq<Node>): map<Hash, Node> {
    if accepted == [] then map[]
    else
      var last := accepted[|accepted| - 1];
      LatestByHash(accepted[..|accepted| - 1])[last.blk.blkHash := last]
  }

  lemma {:induction false} LatestFacts(accepted: seq<Node>)
    ensures var m := LatestByHash(accepted);
            && (forall n :: n in accepted ==> n.blk.blkHash in m)
            && (forall h :: h in m ==> m[h].blk.blkHash == h && m[h] in accepted)
  {
    if accepted != [] {
      var init, last := accepted[..|accepted| - 1], accepted[|accepted| - 1];
      LatestFacts(init);
      assert accepted == init + [last];
    }
  }

  /** `i` is the last place at which a block of hash `h` was accepted. */
  ghost predicate LastOfHash(accepted: seq<Node>, h: Hash, i: nat) {
    i < |accepted| && accepted[i].blk.blkHash == h && forall j :: i < j < |accepted| ==> accepted[j].blk.blkHash != h
  }

  /** The map holds, for each hash, the block that was accepted last. */
  lemma {:induction false} LatestIsLast(accepted: seq<Node>, h: Hash)
    ensures h in LatestByHash(accepted)
            ==> exists i: nat :: LastOfHash(accepted, h, i) && LatestByHash(accepted)[h] == accepted[i]
    ensures h !in LatestByHash(accepted) ==> forall n :: n in accepted ==> n.blk.blkHash != h
  {
    if accepted != [] {
      var k := |accepted| - 1;
      var init := accepted[..k];
      LatestIsLast(init, h);
      if accepted[k].blk.blkHash == h {
        assert LastOfHash(accepted, h, k);
      } else if h in LatestByHash(init) {
        var i: nat :| LastOfHash(init, h, i) && LatestByHash(init)[h] == init[i];
        assert LastOfHash(accepted, h, i);
      }
    }
  }

  /** Every accepted block sits on a chain of blocks accepted before it. */
  ghost predicate AcceptedInOrder(cr: Crypto, accepted: seq<Node>) {
    accepted == []
    || (var init, last := accepted[..|accepted| - 1], accepted[|accepted| - 1];
        AcceptedInOrder(cr, init) && ChainNode(cr, last) && (last.prev.Linked? ==> last.prev.node in init))
  }

  lemma {:induction false} AcceptedAt(cr: Crypto, accepted: seq<Node>, i: nat)
    requires AcceptedInOrder(cr, accepted) && i < |accepted|
    ensures ChainNode(cr, accepted[i])
    ensures accepted[i].prev.Linked? ==> accepted[i].prev.node in accepted[..i]
    decreases |accepted|
  {
    var init := accepted[..|accepted| - 1];
    if i < |init| {
      AcceptedAt(cr, init, i);
      assert init[..i] == accepted[..i];
    }
  }

  /** The invariant of the block loop; `first` is the link of the first block. */
  ghost predicate ReadInvariant(cr: Crypto, first: Prev, s: ReadState) {
    && s.bmap == LatestByHash(s.accepted)
    && AcceptedInOrder(cr, s.accepted)
    && forall n :: n in s.accepted ==> Bottom(n) == NoPrev || Bottom(n) == first
  }

  lemma AcceptKeepsInvariant(cr: Crypto, first: Prev, s: ReadState, b: BlockData, prev: Prev)
    requires ReadInvariant(cr, first, s) && !first.Linked?
    requires prev == first || prev == FindPrev(b, s.bmap)
    ensures ReadInvariant(cr, first, Accept(cr, b, prev, s))
  {
    hide ValidateBlock, LatestByHash;
    LatestFacts(s.accepted);
    var t := Accept(cr, b, prev, s);
    if t != s {
      var n := t.accepted[|s.accepted|];
      if prev.Linked? {
        MemberIsChainNode(cr, s.accepted, prev.node);
      }
      NodeOnTop(cr, n);
      LatestOfAppend(s.accepted, n);
      assert t.accepted[..|s.accepted|] == s.accepted;
    }
  }

  lemma MemberIsChainNode(cr: Crypto, accepted: seq<Node>, n: Node)
    requires AcceptedInOrder(cr, accepted) && n in accepted
    ensures ChainNode(cr, n)
  {
    var i :| 0 <= i < |accepted| && accepted[i] == n;
    AcceptedAt(cr, accepted, i);
  }

  lemma LatestOfAppend(accepted: seq<Node>, n: Node)
    ensures LatestByHash(accepted + [n]) == LatestByHash(accepted)[n.blk.blkHash := n]
  {
    assert (accepted + [n])[..|accepted|] == accepted;
  }

  /** The invariant holds at every point of the scan. */
  lemma {:induction false} ReadKeepsInvariant(cr: Crypto, init: Option<Balances>, blocks: seq<BlockData>)
    requires blocks != []
    ensures ReadInvariant(cr, FirstPrev(blocks[0], init), ReadBlocks(cr, init, blocks))
    decreases |blocks|
  {
    var k := |blocks| - 1;
    var first := FirstPrev(blocks[0], init);
    var s := ReadBlocks(cr, init, blocks[..k]);
    if k > 0 {
      ReadKeepsInvariant(cr, init, blocks[..k]);
      AcceptKeepsInvariant(cr, first, s, blocks[k], FindPrev(blocks[k], s.bmap));
    } else {
      AcceptKeepsInvariant(cr, first, s, blocks[0], first);
    }
  }

  lemma {:induction false} AcceptedWereRead(cr: Crypto, init: Option<Balances>, blocks: seq<BlockData>)
    ensures forall n :: n in ReadBlocks(cr, init, blocks).accepted ==> n.blk in blocks
    ensures |ReadBlocks(cr, init, blocks).accepted| <= |blocks|
    decreases |blocks|
  {
    if blocks != [] {
      AcceptedWereRead(cr, init, blocks[..|blocks| - 1]);
    }
  }

  lemma NodeOnTop(cr: Crypto, n: Node)
    requires n.length == LengthAfter(n.prev)
    requires ValidateBlock(cr, n.blk, StartBalances(n.prev)) == Run(n.balances, true)
    requires n.prev.Linked? ==> ChainNode(cr, n.prev.node) && n.prev.node.blk.blkHash == n.blk.prevHash != ZERO_HASH
    ensures ChainNode(cr, n)
  {
    var chain := NodeChain(n);
    var below := chain[..|chain| - 1];
    assert below == if n.prev.Linked? then NodeChain(n.prev.node) else [];
    assert chain[|chain| - 1] == n.blk;
  }

  /** Supply is bounded for every block the sequential reader accepts, whatever the file holds. */
  lemma AcceptedSupply(cr: Crypto, blocks: seq<BlockData>, n: Node)
    requires n in ReadBlocks(cr, None, blocks).accepted && n.length <= MAX_LENGTH
    ensures Total(n.balances) <= BLOCK_REWARD * n.length
    ensures Total(n.balances) == BLOCK_REWARD * n.length <==> !ChainPaysItself(cr, NodeChain(n))
    ensures ChainFits(cr, NodeChain(n))
  {
    ReadKeepsInvariant(cr, None, blocks);
    MemberIsChainNode(cr, ReadBlocks(cr, None, blocks).accepted, n);
    BoundedSupply(cr, NodeChain(n));
    SupplyIsFullIff(cr, NodeChain(n));
  }

  // ---------- what was checked of an accepted block ----------

  lemma {:induction false} AcceptedWereValidated(cr: Crypto, init: Option<Balances>, blocks: seq<BlockData>)
    ensures forall n :: n in ReadBlocks(cr, init, blocks).accepted ==>
              ValidateBlock(cr, n.blk, StartBalances(n.prev)) == Run(n.balances, true)
    decreases |blocks|
  {
    hide ValidateBlock, FindPrev, FirstPrev;
    if blocks != [] {
      AcceptedWereValidated(cr, init, blocks[..|blocks| - 1]);
    }
  }

  /**
   * Whatever the file holds, an accepted block has the digest of its parts as hash, and its transactions all have an
   * amount, spend from the address of their key, have the digest of their parts as hash and are signed with that key.
   */
  lemma AcceptedWereSigned(cr: Crypto, init: Option<Balances>, blocks: seq<BlockData>, n: Node, t: Txn)
    requires n in ReadBlocks(cr, init, blocks).accepted
    ensures n.blk.blkHash == (cr.sha256)(TxHashes(n.blk.txns) + n.blk.reward + n.blk.prevHash)
    ensures t in n.blk.txns ==>
              && t.amount > 0 && (cr.sha256)(t.publicKey) == t.source
              && t.txHash == (cr.sha256)(t.publicKey + t.source + t.dest + t.change + Encode64(t.amount))
              && (cr.verify)(t.publicKey, t.txHash, t.signature)
  {
    hide ReadBlocks, RunTxns, TxHashes, ValidateBlock;
    AcceptedWereValidated(cr, init, blocks);
    BlockValidIff(cr, n.blk, StartBalances(n.prev));
  }

  // ---------- which block is reported ----------

  /** The tip of `readchain` in day 4: the block accepted last. */
  function LastTip(accepted: seq<Node>): Option<Node> {
    if accepted == [] then None else Some(accepted[|accepted| - 1])
  }

  /** The tip of `readchain` in day 1: replaced only by a strictly longer block. */
  function LongestTip(accepted: seq<Node>): Option<Node> {
    if accepted == [] then None
    else
      var last := accepted[|accepted| - 1];
      match LongestTip(accepted[..|accepted| - 1])
      case None => Some(last)
      case Some(t) => Some(if t.length < last.length then last else t)
  }

  ghost predicate IsFirstMaximum(accepted: seq<Node>, i: int) {
    && 0 <= i < |accepted|
    && (forall j :: 0 <= j < |accepted| ==> accepted[j].length <= accepted[i].length)
    && (forall j :: 0 <= j < i ==> accepted[j].length < accepted[i].length)
  }

  /** It is the first accepted block of maximum length. */
  lemma {:induction false} LongestTipIsFirstMaximum(accepted: seq<Node>)
    ensures LongestTip(accepted).None? <==> accepted == []
    ensures accepted != [] ==> exists i :: IsFirstMaximum(accepted, i) && LongestTip(accepted) == Some(accepted[i])
  {
    if accepted != [] {
      var k := |accepted| - 1;
      var init := accepted[..k];
      LongestTipIsFirstMaximum(init);
      if k == 0 {
        assert IsFirstMaximum(accepted, k);
      } else {
        var i :| IsFirstMaximum(init, i) && LongestTip(init) == Some(init[i]);
        assert forall j :: 0 <= j < k ==> accepted[j] == init[j];
        if init[i].length < accepted[k].length {
          assert IsFirstMaximum(accepted, k);
        } else {
          assert IsFirstMaximum(accepted, i);
        }
      }
    }
  }
}
