/** Why validating the chunks separately and stitching them is the same as validating the whole chain. */
module Indexed {
  import opened Wrappers
  import opened Bytes
  import opened Ledger
  import opened Reading

  // ---------- linked blocks ----------

  /** Each block names its predecessor, and the hashes are distinct and not the all-zero coinbase mark. */
  ghost predicate LinkedSegment(seg: seq<BlockData>) {
    && (forall i {:trigger seg[i].blkHash} :: 0 <= i < |seg| ==> seg[i].blkHash != ZERO_HASH)
    && (forall i, j {:trigger seg[i].blkHash, seg[j].blkHash} ::
          0 <= i < j < |seg| ==> seg[i].blkHash != seg[j].blkHash)
    && (forall i {:trigger seg[i].prevHash} :: 0 < i < |seg| ==> seg[i].prevHash == seg[i - 1].blkHash)
  }

  /** A whole chain: a linked segment that starts with a coinbase block. */
  ghost predicate LinkedChain(blocks: seq<BlockData>) {
    blocks != [] && LinkedSegment(blocks) && blocks[0].prevHash == ZERO_HASH
  }

  lemma LinkedPart(blocks: seq<BlockData>, i: nat, j: nat)
    requires LinkedSegment(blocks) && i <= j <= |blocks|
    ensures LinkedSegment(blocks[i..j])
  {
    var seg := blocks[i..j];
    assert forall k :: 0 <= k < |seg| ==> seg[k] == blocks[i + k];
    forall k | 0 < k < |seg| ensures seg[k].prevHash == seg[k - 1].blkHash {
      assert seg[k] == blocks[i + k] && seg[k - 1] == blocks[i + k - 1];
      assert blocks[i + k].prevHash == blocks[i + k - 1].blkHash;
    }
    forall a, b | 0 <= a < b < |seg| ensures seg[a].blkHash != seg[b].blkHash {
      assert blocks[i + a].blkHash != blocks[i + b].blkHash;
    }
    forall k | 0 <= k < |seg| ensures seg[k].blkHash != ZERO_HASH {
      assert blocks[i + k].blkHash != ZERO_HASH;
    }
  }

  function StartOf(init: Option<Balances>): Balances {
    match init
    case None => map[]
    case Some(m) => m
  }

  /**
   * `n` was accepted as block `k` of the segment: its link is the start link, nothing because the block before it was
   * rejected, or that block.
   */
  ghost predicate OnSegment(cr: Crypto, init: Option<Balances>, seg: seq<BlockData>, n: Node, k: nat) {
    && k < |seg| && n.blk == seg[k]
    && ValidateBlock(cr, n.blk, StartBalances(n.prev)) == Run(n.balances, true)
    && if k == 0 then n.prev == FirstPrev(seg[0], init)
       else n.prev.NoPrev? || (n.prev.Linked? && OnSegment(cr, init, seg, n.prev.node, k - 1))
  }

  lemma {:induction false} OnLongerSegment(cr: Crypto, init: Option<Balances>, seg: seq<BlockData>, m: nat, n: Node,
                                           k: nat)
    requires m <= |seg| && OnSegment(cr, init, seg[..m], n, k)
    ensures OnSegment(cr, init, seg, n, k)
    decreases k
  {
    if k > 0 && n.prev.Linked? {
      OnLongerSegment(cr, init, seg, m, n.prev.node, k - 1);
    }
  }

  ghost predicate OnSegmentSomewhere(cr: Crypto, init: Option<Balances>, seg: seq<BlockData>, n: Node) {
    exists k: nat :: OnSegment(cr, init, seg, n, k)
  }

  lemma SomewhereOnLonger(cr: Crypto, init: Option<Balances>, seg: seq<BlockData>, m: nat, n: Node)
    requires m <= |seg| && OnSegmentSomewhere(cr, init, seg[..m], n)
    ensures OnSegmentSomewhere(cr, init, seg, n)
  {
    var k: nat :| OnSegment(cr, init, seg[..m], n, k);
    OnLongerSegment(cr, init, seg, m, n, k);
  }

  lemma {:induction false} AcceptedOnSegment(cr: Crypto, init: Option<Balances>, seg: seq<BlockData>)
    requires LinkedSegment(seg)
    ensures forall n :: n in ReadBlocks(cr, init, seg).accepted ==> OnSegmentSomewhere(cr, init, seg, n)
    decreases |seg|
  {
    hide ValidateBlock, OnSegmentSomewhere, LinkedSegment;
    if seg != [] {
      var m := |seg| - 1;
      var before := seg[..m];
      LinkedPart(seg, 0, m);
      assert seg[0..m] == before;
      AcceptedOnSegment(cr, init, before);
      var s, t := ReadBlocks(cr, init, before), ReadBlocks(cr, init, seg);
      forall n | n in s.accepted ensures OnSegmentSomewhere(cr, init, seg, n) {
        SomewhereOnLonger(cr, init, seg, m, n);
      }
      if t != s {
        LastOnSegment(cr, init, seg, t.accepted[|s.accepted|]);
      }
    }
  }

  lemma LastOnSegment(cr: Crypto, init: Option<Balances>, seg: seq<BlockData>, n: Node)
    requires LinkedSegment(seg) && seg != []
    requires var m := |seg| - 1;
             var s := ReadBlocks(cr, init, seg[..m]);
             && (forall x :: x in s.accepted ==> OnSegmentSomewhere(cr, init, seg, x))
             && n.prev == (if m == 0 then FirstPrev(seg[0], init) else FindPrev(seg[m], s.bmap)) && n.blk == seg[m]
             && ValidateBlock(cr, n.blk, StartBalances(n.prev)) == Run(n.balances, true)
    ensures OnSegmentSomewhere(cr, init, seg, n)
  {
    hide ValidateBlock, ReadBlocks;
    var m := |seg| - 1;
    if m > 0 && n.prev.Linked? {
      var s := ReadBlocks(cr, init, seg[..m]);
      ReadKeepsInvariant(cr, init, seg[..m]);
      LatestFacts(s.accepted);
      var p := n.prev.node;
      var k: nat :| OnSegment(cr, init, seg, p, k);
      assert p.blk.blkHash == seg[m].prevHash == seg[m - 1].blkHash;
      assert seg[k].blkHash == seg[m - 1].blkHash;
      assert k == m - 1;
    }
    assert OnSegment(cr, init, seg, n, m);
  }

  // ---------- a segment that is valid throughout ----------

  /** The node of block `k` when all blocks up to it are accepted. */
  function FullNode(cr: Crypto, init: Option<Balances>, seg: seq<BlockData>, k: nat): (n: Node)
    requires k < |seg|
    ensures n.blk == seg[k] && n.balances == ChainRun(cr, StartOf(init), seg[..k + 1]).balances
  {
    var prev := if k == 0 then FirstPrev(seg[0], init) else Linked(FullNode(cr, init, seg, k - 1));
    Node(seg[k], LengthAfter(prev), ChainRun(cr, StartOf(init), seg[..k + 1]).balances, prev)
  }

  lemma {:induction false} FullNodePrefix(cr: Crypto, init: Option<Balances>, seg: seq<BlockData>, m: nat, k: nat)
    requires k < m <= |seg|
    ensures FullNode(cr, init, seg[..m], k) == FullNode(cr, init, seg, k)
    decreases k
  {
    assert seg[..m][..k + 1] == seg[..k + 1];
    if k > 0 {
      FullNodePrefix(cr, init, seg, m, k - 1);
    }
  }

  function FullNodes(cr: Crypto, init: Option<Balances>, seg: seq<BlockData>, m: nat): (ns: seq<Node>)
    requires m <= |seg|
    ensures |ns| == m && forall k :: 0 <= k < m ==> ns[k] == FullNode(cr, init, seg, k)
  {
    if m == 0 then [] else FullNodes(cr, init, seg, m - 1) + [FullNode(cr, init, seg, m - 1)]
  }

  lemma {:induction false} FullNodesPrefix(cr: Crypto, init: Option<Balances>, seg: seq<BlockData>, m: nat, k: nat)
    requires k <= m <= |seg|
    ensures FullNodes(cr, init, seg[..m], k) == FullNodes(cr, init, seg, k)
    decreases k
  {
    if k > 0 {
      FullNodesPrefix(cr, init, seg, m, k - 1);
      FullNodePrefix(cr, init, seg, m, k - 1);
    }
  }

  /** Every block of a valid segment is accepted, each on top of the one before it. */
  lemma {:induction false} ValidSegmentAccepted(cr: Crypto, init: Option<Balances>, seg: seq<BlockData>)
    requires LinkedSegment(seg) && ChainRun(cr, StartOf(init), seg).ok
    ensures ReadBlocks(cr, init, seg).accepted == FullNodes(cr, init, seg, |seg|)
    decreases |seg|
  {
    hide ValidateBlock, FirstPrev, FullNode, LinkedSegment;
    if seg != [] {
      var m := |seg| - 1;
      LinkedPart(seg, 0, m);
      assert seg[0..m] == seg[..m];
      ChainRunPrefix(cr, StartOf(init), seg, m);
      ValidSegmentAccepted(cr, init, seg[..m]);
      FullNodesPrefix(cr, init, seg, m, m);
      LastIsFullNode(cr, init, seg);
    }
  }

  lemma LastIsFullNode(cr: Crypto, init: Option<Balances>, seg: seq<BlockData>)
    requires LinkedSegment(seg) && seg != [] && ChainRun(cr, StartOf(init), seg).ok
    requires ChainRun(cr, StartOf(init), seg[..|seg| - 1]).ok
    requires ReadBlocks(cr, init, seg[..|seg| - 1]).accepted == FullNodes(cr, init, seg, |seg| - 1)
    ensures ReadBlocks(cr, init, seg).accepted
            == ReadBlocks(cr, init, seg[..|seg| - 1]).accepted + [FullNode(cr, init, seg, |seg| - 1)]
  {
    hide ValidateBlock, FullNodes, LinkedSegment;
    var m := |seg| - 1;
    var before := ChainRun(cr, StartOf(init), seg[..m]);
    assert seg[..m + 1] == seg;
    var prev := if m == 0 then FirstPrev(seg[0], init) else Linked(FullNode(cr, init, seg, m - 1));
    assert StartBalances(prev) == before.balances by {
      if m > 0 {
        assert seg[..m - 1 + 1] == seg[..m];
      } else {
        assert seg[..m] == [];
      }
    }
    assert ChainRun(cr, StartOf(init), seg) == ValidateBlock(cr, seg[m], before.balances);
    if m > 0 {
      FullPrevFound(cr, init, seg);
    }
  }

  lemma FullPrevFound(cr: Crypto, init: Option<Balances>, seg: seq<BlockData>)
    requires LinkedSegment(seg) && |seg| > 1
    requires ReadBlocks(cr, init, seg[..|seg| - 1]).accepted == FullNodes(cr, init, seg, |seg| - 1)
    ensures var m := |seg| - 1;
            FindPrev(seg[m], ReadBlocks(cr, init, seg[..m]).bmap) == Linked(FullNode(cr, init, seg, m - 1))
  {
    hide ReadBlocks, FullNode, FullNodes;
    var m := |seg| - 1;
    var s := ReadBlocks(cr, init, seg[..m]);
    ReadKeepsInvariant(cr, init, seg[..m]);
    LatestIs(s.accepted);
    assert s.accepted[m - 1] == FullNode(cr, init, seg, m - 1);
    assert seg[m].prevHash == seg[m - 1].blkHash != ZERO_HASH;
  }

  lemma LatestIs(accepted: seq<Node>)
    requires accepted != []
    ensures var last := accepted[|accepted| - 1];
            last.blk.blkHash in LatestByHash(accepted) && LatestByHash(accepted)[last.blk.blkHash] == last
  {
  }

  lemma {:induction false} AllAcceptedIsValid(cr: Crypto, init: Option<Balances>, seg: seq<BlockData>, k: nat, n: Node)
    requires OnSegment(cr, init, seg, n, k) && |NodeChain(n)| == k + 1
    ensures ChainRun(cr, StartOf(init), seg[..k + 1]) == Run(n.balances, true)
    decreases k
  {
    hide ValidateBlock;
    var now := seg[..k + 1];
    assert now[..k] == seg[..k];
    if k > 0 {
      ChainNoLonger(cr, init, seg, k, n);
      AllAcceptedIsValid(cr, init, seg, k - 1, n.prev.node);
    } else {
      assert ChainRun(cr, StartOf(init), seg[..0]) == Run(StartOf(init), true);
    }
  }

  lemma {:induction false} ChainNoLonger(cr: Crypto, init: Option<Balances>, seg: seq<BlockData>, k: nat, n: Node)
    requires OnSegment(cr, init, seg, n, k)
    ensures |NodeChain(n)| <= k + 1
    ensures k > 0 && |NodeChain(n)| == k + 1 ==> n.prev.Linked?
    decreases k
  {
    hide ValidateBlock;
    if k > 0 && n.prev.Linked? {
      ChainNoLonger(cr, init, seg, k - 1, n.prev.node);
    }
  }
}
