/** Stitching on objects: heads are put on the tails they name, lengths are recomputed, a longest tail is chosen. */
module Relink {
  import opened Bytes
  import opened Reading
  import opened Stitching
  import opened Blocks
  import opened SequentialReader

  /** The link of `b` as its chunk left it, or as the stitching set it. */
  ghost predicate LinkNow(b: Block, n: Node, nodes: map<Block, Node>, stubs: set<Block>, level: map<Block, nat>,
                          tails: map<Hash, Block>, relinked: set<Block>)
    requires b in level
    reads b
  {
    if b in relinked then n.prev.Stub? && n.blk.prevHash in tails && b.prevBlock == tails[n.blk.prevHash]
    else match n.prev
      case NoPrev => b.prevBlock == null
      case Stub(_, _) => b.prevBlock != null && b.prevBlock in stubs
      case Linked(p) =>
        && b.prevBlock != null && b.prevBlock in nodes && nodes[b.prevBlock] == p
        && b.prevBlock in level && level[b.prevBlock] == level[b]
  }

  ghost predicate BlockNow(b: Block, n: Node, nodes: map<Block, Node>, stubs: set<Block>, level: map<Block, nat>,
                           tails: map<Hash, Block>, relinked: set<Block>)
    reads b
  {
    && b.prevHash == n.blk.prevHash && b.blkHash == n.blk.blkHash
    && (n.prev.Stub? ==> n.prev.hash == n.blk.prevHash)
    && b in level && LinkNow(b, n, nodes, stubs, level, tails, relinked)
  }

  /** All accepted objects of all chunks with their made-up blocks; `level` gives the chunk of an object. */
  ghost predicate Links(nodes: map<Block, Node>, stubs: set<Block>, level: map<Block, nat>, tails: map<Hash, Block>,
                        relinked: set<Block>)
    reads nodes.Keys, stubs
  {
    && (forall s :: s in stubs ==> s !in nodes && s.prevBlock == null)
    && (forall b :: b in nodes ==> BlockNow(b, nodes[b], nodes, stubs, level, tails, relinked))
  }

  /** A block on a made-up block names only a tail of a lower level, so stitching makes no cycle. */
  ghost predicate Descending(nodes: map<Block, Node>, level: map<Block, nat>, tails: map<Hash, Block>, hops: nat) {
    && (forall b :: b in nodes ==> b in level && level[b] <= hops)
    && (forall h :: h in tails ==> tails[h] in nodes)
    && (forall b :: b in nodes && nodes[b].prev.Stub? && nodes[b].blk.prevHash in tails ==>
          level[tails[nodes[b].blk.prevHash]] < level[b])
  }

  ghost predicate AllRelinked(nodes: map<Block, Node>, relinked: set<Block>) {
    forall b :: b in nodes && nodes[b].prev.Stub? ==> b in relinked
  }

  // ---------- the path down from a block ----------

  /** Links lead down from every block to a bottom block; with all heads relinked the stitched length counts them. */
  lemma {:induction false} PathDown(nodes: map<Block, Node>, stubs: set<Block>, level: map<Block, nat>,
                                    tails: map<Hash, Block>, relinked: set<Block>, m: map<Hash, Node>, all: nat,
                                    b: Block, hops: nat)
    returns (path: seq<Block>)
    requires Links(nodes, stubs, level, tails, relinked) && MapMatches(tails, nodes, m)
    requires Descending(nodes, level, tails, all) && b in nodes && level[b] <= hops
    ensures IsPath(path) && path[|path| - 1] == b
    ensures forall x :: x in path ==> x in nodes || x in stubs
    ensures AllRelinked(nodes, relinked) ==> |path| == StitchedLength(m, nodes[b], hops)
    decreases hops, nodes[b]
  {
    hide Links, IsPath, MapMatches;
    var n := nodes[b];
    LinkOf(nodes, stubs, level, tails, relinked, b);
    if b in relinked {
      TailOfMap(tails, nodes, m, n.blk.prevHash);
      path := PathDown(nodes, stubs, level, tails, relinked, m, all, tails[n.blk.prevHash], hops - 1);
      PathUp(path, b);
      path := path + [b];
    } else {
      match n.prev {
        case NoPrev =>
          PathBottom(b);
          path := [b];
        case Stub(_, _) =>
          PathBottom(b.prevBlock);
          PathUp([b.prevBlock], b);
          path := [b.prevBlock] + [b];
        case Linked(p) =>
          path := PathDown(nodes, stubs, level, tails, relinked, m, all, b.prevBlock, hops);
          PathUp(path, b);
          path := path + [b];
      }
    }
  }

  lemma LinkOf(nodes: map<Block, Node>, stubs: set<Block>, level: map<Block, nat>, tails: map<Hash, Block>,
               relinked: set<Block>, b: Block)
    requires Links(nodes, stubs, level, tails, relinked) && b in nodes
    ensures BlockNow(b, nodes[b], nodes, stubs, level, tails, relinked)
    ensures forall s :: s in stubs ==> s.prevBlock == null
  {
  }

  lemma TailOfMap(tails: map<Hash, Block>, nodes: map<Block, Node>, m: map<Hash, Node>, h: Hash)
    requires MapMatches(tails, nodes, m)
    ensures h in tails <==> h in m
    ensures h in tails ==> tails[h] in nodes && nodes[tails[h]] == m[h]
  {
  }

  lemma PathBottom(b: Block)
    ensures b.prevBlock == null ==> IsPath([b])
  {
  }

  lemma PathUp(path: seq<Block>, b: Block)
    requires IsPath(path) && b.prevBlock == path[|path| - 1]
    ensures IsPath(path + [b])
  {
    var q := path + [b];
    forall i | 0 < i < |q| ensures q[i].prevBlock == q[i - 1] {
      assert i < |path| ==> q[i] == path[i];
    }
  }

  lemma {:induction false} PathUnique(p: seq<Block>, q: seq<Block>)
    requires IsPath(p) && IsPath(q) && p[|p| - 1] == q[|q| - 1]
    ensures p == q
    decreases |p|
  {
    var i, j := |p| - 1, |q| - 1;
    assert i > 0 ==> p[i].prevBlock == p[i - 1];
    assert j > 0 ==> q[j].prevBlock == q[j - 1];
    if i > 0 {
      PathUnique(p[..i], q[..j]);
    }
    assert p == p[..i] + [p[i]] && q == q[..j] + [q[j]];
  }

  /** Once numbered, a block on a path keeps its number: renumbering another path gives it the same one. */
  lemma SameNumber(p: seq<Block>, q: seq<Block>, j: nat)
    requires IsPath(p) && IsPath(q) && j < |q| && q[j] == p[|p| - 1]
    ensures j + 1 == |p|
  {
    PathUnique(p, q[..j + 1]);
  }

  // ---------- relinking the heads ----------

  method RelinkHeads(heads: set<Block>, tails: map<Hash, Block>, ghost nodes: map<Block, Node>,
                     ghost stubs: set<Block>, ghost level: map<Block, nat>, ghost all: nat)
    returns (valid: bool, ghost relinked: set<Block>)
    requires Links(nodes, stubs, level, tails, {}) && Descending(nodes, level, tails, all)
    requires forall b :: b in nodes ==> (nodes[b].prev.Stub? <==> b in heads)
    requires heads <= nodes.Keys
    modifies heads
    ensures Links(nodes, stubs, level, tails, relinked)
    ensures valid <==> forall b :: b in heads ==> nodes[b].blk.prevHash in tails
    ensures valid ==> AllRelinked(nodes, relinked)
  {
    hide Links;
    valid := true;
    relinked := {};
    var todo := heads;
    while todo != {}
      invariant todo <= heads && relinked == heads - todo && valid
      invariant Links(nodes, stubs, level, tails, relinked)
      invariant forall b :: b in relinked ==> nodes[b].blk.prevHash in tails
      decreases todo
    {
      var p :| p in todo;
      LinkOf(nodes, stubs, level, tails, relinked, p);
      if p.prevHash !in tails {
        valid := false;
        break;
      }
      RelinkOne(p, tails, nodes, stubs, level, relinked, all);
      relinked := relinked + {p};
      todo := todo - {p};
    }
  }

  method RelinkOne(p: Block, tails: map<Hash, Block>, ghost nodes: map<Block, Node>, ghost stubs: set<Block>,
                   ghost level: map<Block, nat>, ghost relinked: set<Block>, ghost all: nat)
    requires Links(nodes, stubs, level, tails, relinked) && Descending(nodes, level, tails, all)
    requires p in nodes && nodes[p].prev.Stub? && p.prevHash in tails
    modifies p
    ensures Links(nodes, stubs, level, tails, relinked + {p})
  {
    LinkOf(nodes, stubs, level, tails, relinked, p);
    var t := tails[p.prevHash];
    assert level[t] < level[p];
    p.SetPrevBlock(t);
    forall b | b in nodes ensures BlockNow(b, nodes[b], nodes, stubs, level, tails, relinked + {p}) {
      assert old(BlockNow(b, nodes[b], nodes, stubs, level, tails, relinked));
    }
  }

  // ---------- choosing the tip ----------

  /** The lengths are recomputed tail by tail, and the first longest one seen is kept. */
  method ChooseTip(tails: map<Hash, Block>, ghost nodes: map<Block, Node>, ghost stubs: set<Block>,
                   ghost level: map<Block, nat>, ghost relinked: set<Block>, ghost m: map<Hash, Node>, ghost all: nat)
    returns (tip: Block?, ghost at: Hash)
    requires Links(nodes, stubs, level, tails, relinked) && Descending(nodes, level, tails, all)
    requires MapMatches(tails, nodes, m)
    modifies nodes.Keys + stubs
    ensures tip == null <==> tails == map[]
    ensures tip != null ==> at in tails && tip == tails[at] && tip.blkHash == nodes[tip].blk.blkHash
    ensures tip != null && AllRelinked(nodes, relinked) ==>
              && tip.length == StitchedLength(m, m[at], all)
              && forall h :: h in m ==> StitchedLength(m, m[h], all) <= tip.length
  {
    hide Links, MapMatches, IsPath, Descending;
    var length := 0;
    tip, at := null, ZERO_HASH;
    var todo := tails.Keys;
    ghost var tipPath: seq<Block> := [];
    TailsAreNodes(nodes, level, tails, all);
    while todo != {}
      invariant todo <= tails.Keys
      invariant Links(nodes, stubs, level, tails, relinked)
      invariant tip == null ==> todo == tails.Keys && length == 0 && tipPath == []
      invariant tip != null ==> at in tails && tip == tails[at]
      invariant tip != null ==> tipPath != [] && IsPath(tipPath) && tipPath[|tipPath| - 1] == tip
      invariant tip != null ==> tip.length == |tipPath| == length
      invariant tip != null && AllRelinked(nodes, relinked) ==>
                  && length == StitchedLength(m, nodes[tip], all)
                  && forall h :: h in tails && h !in todo ==> StitchedLength(m, nodes[tails[h]], all) <= length
      decreases todo
    {
      var h :| h in todo;
      var t := tails[h];
      ghost var path := PathDown(nodes, stubs, level, tails, relinked, m, all, t, all);
      Renumber(t, nodes, stubs, level, tails, relinked, path, tipPath);
      if length < t.length {
        length := t.length;
        tip, at, tipPath := t, h, path;
      }
      todo := todo - {h};
    }
    if tip != null {
      LinkOf(nodes, stubs, level, tails, relinked, tip);
      forall h | h in m ensures h in tails && nodes[tails[h]] == m[h] {
        TailOfMap(tails, nodes, m, h);
      }
      TailOfMap(tails, nodes, m, at);
    }
  }

  lemma TailsAreNodes(nodes: map<Block, Node>, level: map<Block, nat>, tails: map<Hash, Block>, all: nat)
    requires Descending(nodes, level, tails, all)
    ensures forall h :: h in tails ==> tails[h] in nodes
    ensures forall b :: b in nodes ==> b in level && level[b] <= all
  {
  }

  /**
   * Renumbers the blocks down from `t`. Links stay as they are, and the tip found before, if it is among them, gets
   * the number it had.
   */
  method Renumber(t: Block, ghost nodes: map<Block, Node>, ghost stubs: set<Block>, ghost level: map<Block, nat>,
                  ghost tails: map<Hash, Block>, ghost relinked: set<Block>, ghost path: seq<Block>,
                  ghost tipPath: seq<Block>)
    requires Links(nodes, stubs, level, tails, relinked) && IsPath(path) && path[|path| - 1] == t
    requires tipPath != [] ==> IsPath(tipPath) && tipPath[|tipPath| - 1].length == |tipPath|
    modifies path`length
    ensures Links(nodes, stubs, level, tails, relinked) && IsPath(path) && t.length == |path| > 0
    ensures tipPath != [] ==> IsPath(tipPath) && tipPath[|tipPath| - 1].length == |tipPath|
  {
    t.RecomputeLength(path);
    forall b | b in nodes ensures BlockNow(b, nodes[b], nodes, stubs, level, tails, relinked) {
      assert old(BlockNow(b, nodes[b], nodes, stubs, level, tails, relinked));
    }
    assert t.length == |path|;
    if tipPath != [] && tipPath[|tipPath| - 1] in path {
      var j :| 0 <= j < |path| && path[j] == tipPath[|tipPath| - 1];
      SameNumber(tipPath, path, j);
    }
  }
}
