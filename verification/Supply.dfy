/** How much money a chain holds, and why its 64-bit sums never wrap. */
module Supply {
  import opened Bytes
  import opened Ledger

  /** `block_t::length` is a 32-bit unsigned count, so no chain is longer. */
  const MAX_LENGTH: nat := UINT32_LIMIT

  ghost function Total(m: Balances): nat {
    if m == map[] then 0
    else
      var k :| k in m;
      m[k] + Total(m - {k})
  }

  lemma {:induction false} TotalWithout(m: Balances, k: Hash)
    ensures Total(m) == Get(m, k) + Total(m - {k})
    decreases |m|
  {
    if k !in m {
      assert m - {k} == m;
    } else {
      var p :| p in m && Total(m) == m[p] + Total(m - {p});
      if p != k {
        TotalWithout(m - {p}, k);
        TotalWithout(m - {k}, p);
        assert m - {p} - {k} == m - {k} - {p};
      }
    }
  }

  lemma TotalOfCredit(m: Balances, k: Hash, v: uint64)
    requires Total(m) + v < UINT64_LIMIT
    ensures Get(m, k) + v < UINT64_LIMIT
    ensures Total(Credit(m, k, v)) == Total(m) + v
  {
    TotalWithout(m, k);
    TotalWithout(Credit(m, k, v), k);
    assert Credit(m, k, v) - {k} == m - {k};
  }

  // ---------- transactions destroy what they pay back to the source ----------

  /** The money erased with the source entry after part of it was paid back there. */
  function Burned(t: Txn, m: Balances): nat
    requires Available(t, m)
  {
    (if t.dest == t.source then t.amount else 0)
    + (if t.change == t.source then m[t.source] - t.amount else 0)
  }

  /** `Update` seen as erasing the source first and then crediting the other two addresses. */
  lemma UpdateErasesFirst(t: Txn, m: Balances)
    requires Available(t, m)
    ensures var rest := m - {t.source};
            var paid := if t.dest == t.source then rest else Credit(rest, t.dest, t.amount);
            Update(t, m)
            == if t.change == t.source then paid else Credit(paid, t.change, m[t.source] - t.amount)
  {
  }

  lemma UpdateTotal(t: Txn, m: Balances)
    requires Available(t, m) && Total(m) < UINT64_LIMIT
    ensures Total(Update(t, m)) + Burned(t, m) == Total(m)
  {
    UpdateErasesFirst(t, m);
    TotalWithout(m, t.source);
    var rest := m - {t.source};
    TotalOfCredit(rest, t.dest, t.amount);
    var paid := if t.dest == t.source then rest else Credit(rest, t.dest, t.amount);
    TotalOfCredit(paid, t.change, m[t.source] - t.amount);
  }

  /** Neither `+=` of `update_balances` reaches 2^64. */
  predicate AdditionsFit(t: Txn, m: Balances)
    requires Available(t, m)
  {
    && Get(m, t.dest) + t.amount < UINT64_LIMIT
    && Get(Credit(m, t.dest, t.amount), t.change) + (m[t.source] - t.amount) < UINT64_LIMIT
  }

  lemma SmallTotalFits(t: Txn, m: Balances)
    requires Available(t, m) && 2 * Total(m) < UINT64_LIMIT
    ensures AdditionsFit(t, m)
  {
    TotalWithout(m, t.source);
    TotalWithout(m, t.dest);
    TotalWithout(m, t.change);
  }

  // ---------- blocks ----------

  function TxnsBurned(cr: Crypto, txns: seq<Txn>, m: Balances): nat {
    if txns == [] || !TxnValid(cr, txns[0]) || !Available(txns[0], m) then 0
    else Burned(txns[0], m) + TxnsBurned(cr, txns[1..], Update(txns[0], m))
  }

  predicate TxnsFit(cr: Crypto, txns: seq<Txn>, m: Balances) {
    txns == [] || !TxnValid(cr, txns[0]) || !Available(txns[0], m)
    || (AdditionsFit(txns[0], m) && TxnsFit(cr, txns[1..], Update(txns[0], m)))
  }

  lemma {:induction false} RunTxnsTotal(cr: Crypto, txns: seq<Txn>, m: Balances)
    requires 2 * Total(m) < UINT64_LIMIT
    ensures TxnsFit(cr, txns, m)
    ensures Total(RunTxns(cr, txns, m).balances) + TxnsBurned(cr, txns, m) == Total(m)
  {
    if txns != [] && TxnValid(cr, txns[0]) && Available(txns[0], m) {
      SmallTotalFits(txns[0], m);
      UpdateTotal(txns[0], m);
      RunTxnsTotal(cr, txns[1..], Update(txns[0], m));
    }
  }

  /** Every 64-bit addition made while the block is validated from `m` is exact. */
  predicate BlockFits(cr: Crypto, b: BlockData, m: Balances) {
    && TxnsFit(cr, b.txns, m)
    && Get(RunTxns(cr, b.txns, m).balances, b.reward) + BLOCK_REWARD < UINT64_LIMIT
  }

  // ---------- chains ----------

  function ChainBurned(cr: Crypto, blocks: seq<BlockData>): nat {
    if blocks == [] then 0
    else
      var init := blocks[..|blocks| - 1];
      ChainBurned(cr, init) + TxnsBurned(cr, blocks[|blocks| - 1].txns, ChainRun(cr, map[], init).balances)
  }

  predicate ChainFits(cr: Crypto, blocks: seq<BlockData>) {
    blocks == []
    || (ChainFits(cr, blocks[..|blocks| - 1])
        && BlockFits(cr, blocks[|blocks| - 1], ChainRun(cr, map[], blocks[..|blocks| - 1]).balances))
  }

  /** Exact accounting: the rewards paid so far are either still held or were burned, and nothing wrapped. */
  lemma {:induction false} BoundedSupply(cr: Crypto, blocks: seq<BlockData>)
    requires |blocks| <= MAX_LENGTH
    requires ChainRun(cr, map[], blocks).ok
    ensures Total(ChainRun(cr, map[], blocks).balances) + ChainBurned(cr, blocks) == BLOCK_REWARD * |blocks|
    ensures ChainFits(cr, blocks)
    decreases |blocks|
  {
    if blocks != [] {
      var init, last := blocks[..|blocks| - 1], blocks[|blocks| - 1];
      BoundedSupply(cr, init);
      var before := ChainRun(cr, map[], init).balances;
      RunTxnsTotal(cr, last.txns, before);
      TotalOfCredit(RunTxns(cr, last.txns, before).balances, last.reward, BLOCK_REWARD);
    }
  }

  /** Some transaction on the chain pays its amount, or a non-zero change, back to its own source. */
  ghost predicate PaysItself(cr: Crypto, txns: seq<Txn>, m: Balances) {
    txns != [] && TxnValid(cr, txns[0]) && Available(txns[0], m)
    && (|| txns[0].dest == txns[0].source
        || (txns[0].change == txns[0].source && txns[0].amount < m[txns[0].source])
        || PaysItself(cr, txns[1..], Update(txns[0], m)))
  }

  lemma {:induction false} BurnedIffPaysItself(cr: Crypto, txns: seq<Txn>, m: Balances)
    ensures TxnsBurned(cr, txns, m) > 0 <==> PaysItself(cr, txns, m)
  {
    if txns != [] && TxnValid(cr, txns[0]) && Available(txns[0], m) {
      BurnedIffPaysItself(cr, txns[1..], Update(txns[0], m));
    }
  }

  ghost predicate ChainPaysItself(cr: Crypto, blocks: seq<BlockData>) {
    exists k :: 0 <= k < |blocks|
      && PaysItself(cr, blocks[k].txns, ChainRun(cr, map[], blocks[..k]).balances)
  }

  lemma {:induction false} ChainBurnedIff(cr: Crypto, blocks: seq<BlockData>)
    ensures ChainBurned(cr, blocks) > 0 <==> ChainPaysItself(cr, blocks)
    decreases |blocks|
  {
    if blocks != [] {
      var n := |blocks| - 1;
      var init := blocks[..n];
      ChainBurnedIff(cr, init);
      BurnedIffPaysItself(cr, blocks[n].txns, ChainRun(cr, map[], init).balances);
      forall k | 0 <= k < n ensures init[..k] == blocks[..k] && init[k] == blocks[k] {
      }
    }
  }

  /** The supply meets its bound of 100 a block exactly when no transaction pays back to its source. */
  lemma SupplyIsFullIff(cr: Crypto, blocks: seq<BlockData>)
    requires |blocks| <= MAX_LENGTH
    requires ChainRun(cr, map[], blocks).ok
    ensures Total(ChainRun(cr, map[], blocks).balances) <= BLOCK_REWARD * |blocks|
    ensures Total(ChainRun(cr, map[], blocks).balances) == BLOCK_REWARD * |blocks| <==> !ChainPaysItself(cr, blocks)
  {
    BoundedSupply(cr, blocks);
    ChainBurnedIff(cr, blocks);
  }
}
