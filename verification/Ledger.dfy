/** Transactions, balance maps and block validation. */
module Ledger {
  import opened Bytes

  const BLOCK_REWARD: uint64 := 100

  /** An absent address and an address holding zero are different maps but the same money. */
  type Balances = map<Hash, uint64>

  /** SHA-256 and RSA verification stay uninterpreted. */
  datatype Crypto = Crypto(sha256: seq<byte> -> Hash, verify: (seq<byte>, Hash, seq<byte>) -> bool)

  datatype Txn = Txn(
    publicKey: seq<byte>,
    source: Hash,
    dest: Hash,
    change: Hash,
    amount: uint64,
    txHash: Hash,
    signature: seq<byte>)

  datatype BlockData = BlockData(reward: Hash, txns: seq<Txn>, prevHash: Hash, blkHash: Hash)

  /** The balances a validation ends with, and its verdict. */
  datatype Run = Run(balances: Balances, ok: bool)

  // ---------- one transaction ----------

  function TxnDigest(cr: Crypto, t: Txn): Hash {
    (cr.sha256)(t.publicKey + t.source + t.dest + t.change + Encode64(t.amount))
  }

  predicate TxnValid(cr: Crypto, t: Txn) {
    && t.amount > 0
    && (cr.sha256)(t.publicKey) == t.source
    && t.txHash == TxnDigest(cr, t)
    && (cr.verify)(t.publicKey, TxnDigest(cr, t), t.signature)
  }

  function Get(m: Balances, k: Hash): uint64 {
    if k in m then m[k] else 0
  }

  predicate Available(t: Txn, m: Balances) {
    t.source in m && m[t.source] >= t.amount
  }

  /** `m[k] += v` on uint64: a missing entry starts at 0 and the sum wraps. */
  function Credit(m: Balances, k: Hash, v: uint64): Balances {
    m[k := (Get(m, k) + v) % UINT64_LIMIT]
  }

  function Update(t: Txn, m: Balances): Balances
    requires Available(t, m)
  {
    var change := m[t.source] - t.amount;
    Credit(Credit(m, t.dest, t.amount), t.change, change) - {t.source}
  }

  // ---------- blocks and chains ----------

  function RunTxns(cr: Crypto, txns: seq<Txn>, m: Balances): Run {
    if txns == [] then Run(m, true)
    else if !TxnValid(cr, txns[0]) || !Available(txns[0], m) then Run(m, false)
    else RunTxns(cr, txns[1..], Update(txns[0], m))
  }

  function TxHashes(txns: seq<Txn>): seq<byte> {
    if txns == [] then [] else TxHashes(txns[..|txns| - 1]) + txns[|txns| - 1].txHash
  }

  function BlockDigest(cr: Crypto, b: BlockData): Hash {
    (cr.sha256)(TxHashes(b.txns) + b.reward + b.prevHash)
  }

  function ValidateBlock(cr: Crypto, b: BlockData, start: Balances): Run {
    var r := RunTxns(cr, b.txns, start);
    if !r.ok then r
    else Run(Credit(r.balances, b.reward, BLOCK_REWARD), BlockDigest(cr, b) == b.blkHash)
  }

  /** Validates the blocks one after another, each from the balances the last one left. */
  function ChainRun(cr: Crypto, start: Balances, blocks: seq<BlockData>): Run {
    if blocks == [] then Run(start, true)
    else
      var before := ChainRun(cr, start, blocks[..|blocks| - 1]);
      if before.ok then ValidateBlock(cr, blocks[|blocks| - 1], before.balances) else before
  }

  lemma ChainRunAppend(cr: Crypto, start: Balances, blocks: seq<BlockData>, b: BlockData)
    ensures var before := ChainRun(cr, start, blocks);
            ChainRun(cr, start, blocks + [b]) == if before.ok then ValidateBlock(cr, b, before.balances) else before
  {
    assert (blocks + [b])[..|blocks|] == blocks;
  }

  lemma {:induction false} ChainRunPrefix(cr: Crypto, start: Balances, blocks: seq<BlockData>, k: nat)
    requires k <= |blocks|
    requires ChainRun(cr, start, blocks).ok
    ensures ChainRun(cr, start, blocks[..k]).ok
    decreases |blocks|
  {
    if k == |blocks| {
      assert blocks[..k] == blocks;
    } else {
      var init := blocks[..|blocks| - 1];
      assert init[..k] == blocks[..k];
      ChainRunPrefix(cr, start, init, k);
    }
  }

  lemma {:induction false} ChainRunSplit(cr: Crypto, start: Balances, a: seq<BlockData>, b: seq<BlockData>)
    requires ChainRun(cr, start, a).ok
    ensures ChainRun(cr, start, a + b) == ChainRun(cr, ChainRun(cr, start, a).balances, b)
    decreases |b|
  {
    if b == [] {
      assert a + b == a;
    } else {
      var init := b[..|b| - 1];
      assert (a + b)[..|a + b| - 1] == a + init;
      ChainRunSplit(cr, start, a, init);
    }
  }

  // ---------- what a valid block is made of ----------

  /** The hashes of the transactions, one after the other. */
  lemma {:induction false} TxHashesAt(txns: seq<Txn>, i: nat)
    requires i < |txns|
    ensures |TxHashes(txns)| == HASH_SIZE * |txns|
    ensures TxHashes(txns)[HASH_SIZE * i..HASH_SIZE * i + HASH_SIZE] == txns[i].txHash
    decreases |txns|
  {
    var n := |txns| - 1;
    TxHashesSize(txns[..n]);
    if i < n {
      TxHashesAt(txns[..n], i);
      var before := TxHashes(txns[..n]);
      assert TxHashes(txns)[HASH_SIZE * i..HASH_SIZE * i + HASH_SIZE]
          == before[HASH_SIZE * i..HASH_SIZE * i + HASH_SIZE];
    }
  }

  lemma {:induction false} TxHashesSize(txns: seq<Txn>)
    ensures |TxHashes(txns)| == HASH_SIZE * |txns|
    decreases |txns|
  {
    if txns != [] {
      TxHashesSize(txns[..|txns| - 1]);
    }
  }

  lemma {:induction false} RunTxnsUpTo(cr: Crypto, txns: seq<Txn>, m: Balances, i: nat)
    requires 0 < i <= |txns| && TxnValid(cr, txns[0]) && Available(txns[0], m)
    ensures RunTxns(cr, txns[..i], m) == RunTxns(cr, txns[1..][..i - 1], Update(txns[0], m))
  {
    assert txns[..i][1..] == txns[1..][..i - 1];
  }

  /** The transactions pass exactly if each is valid, and covered by what those before it left. */
  lemma {:induction false} RunTxnsIff(cr: Crypto, txns: seq<Txn>, m: Balances)
    ensures RunTxns(cr, txns, m).ok <==>
            forall i :: 0 <= i < |txns| ==>
              TxnValid(cr, txns[i]) && Available(txns[i], RunTxns(cr, txns[..i], m).balances)
  {
    hide TxnValid, Available, Update;
    if txns != [] {
      assert txns[..0] == [];
      if TxnValid(cr, txns[0]) && Available(txns[0], m) {
        var rest, m1 := txns[1..], Update(txns[0], m);
        RunTxnsIff(cr, rest, m1);
        forall i | 0 < i < |txns| ensures RunTxns(cr, txns[..i], m) == RunTxns(cr, rest[..i - 1], m1) {
          RunTxnsUpTo(cr, txns, m, i);
        }
        assert forall i :: 0 < i < |txns| ==> txns[i] == rest[i - 1];
        if forall i :: 0 <= i < |txns| ==>
             TxnValid(cr, txns[i]) && Available(txns[i], RunTxns(cr, txns[..i], m).balances) {
          forall i | 0 <= i < |rest|
            ensures TxnValid(cr, rest[i]) && Available(rest[i], RunTxns(cr, rest[..i], m1).balances)
          {
            assert TxnValid(cr, txns[i + 1]) && RunTxns(cr, txns[..i + 1], m) == RunTxns(cr, rest[..i], m1);
          }
        }
      }
    }
  }

  /**
   * A block is valid exactly if its hash is the digest of its parts, and each of its transactions has an amount, spends
   * from the address of its key, has the digest of its parts as hash, is signed with that key, and is covered.
   */
  lemma BlockValidIff(cr: Crypto, b: BlockData, start: Balances)
    ensures ValidateBlock(cr, b, start).ok <==>
            && b.blkHash == (cr.sha256)(TxHashes(b.txns) + b.reward + b.prevHash)
            && forall i :: 0 <= i < |b.txns| ==>
                 var t, m := b.txns[i], RunTxns(cr, b.txns[..i], start).balances;
                 && t.amount > 0 && (cr.sha256)(t.publicKey) == t.source
                 && t.txHash == (cr.sha256)(t.publicKey + t.source + t.dest + t.change + Encode64(t.amount))
                 && (cr.verify)(t.publicKey, t.txHash, t.signature)
                 && t.source in m && m[t.source] >= t.amount
  {
    hide RunTxns, TxHashes;
    RunTxnsIff(cr, b.txns, start);
  }

  // ---------- what a valid block leaves ----------

  lemma CreditAt(m: Balances, k: Hash, v: uint64, x: Hash)
    ensures x in Credit(m, k, v) <==> x in m || x == k
    ensures Get(Credit(m, k, v), x) == (Get(m, x) + if x == k then v else 0) % 0x1_0000_0000_0000_0000
  {
  }

  lemma AddModTwice(a: uint64, b: uint64, c: uint64)
    ensures ((a + b) % UINT64_LIMIT + c) % UINT64_LIMIT == (a + b + c) % UINT64_LIMIT
  {
  }

  /** A payment clears the source and adds amount and change, modulo 2^64, at the two other addresses. */
  lemma UpdateAt(t: Txn, m: Balances, k: Hash)
    requires Available(t, m)
    ensures k in Update(t, m) <==> k != t.source && (k in m || k == t.dest || k == t.change)
    ensures Get(Update(t, m), k) ==
            if k == t.source then 0
            else (Get(m, k) + (if k == t.dest then t.amount else 0)
                  + (if k == t.change then m[t.source] - t.amount else 0)) % 0x1_0000_0000_0000_0000
  {
    hide Credit;
    var change := m[t.source] - t.amount;
    CreditAt(m, t.dest, t.amount, k);
    CreditAt(Credit(m, t.dest, t.amount), t.change, change, k);
    AddModTwice(Get(m, k), if k == t.dest then t.amount else 0, if k == t.change then change else 0);
  }

  lemma {:induction false} RunTxnsStep(cr: Crypto, txns: seq<Txn>, m: Balances, i: nat)
    requires i < |txns| && RunTxns(cr, txns, m).ok
    ensures var before := RunTxns(cr, txns[..i], m).balances;
            Available(txns[i], before) && RunTxns(cr, txns[..i + 1], m).balances == Update(txns[i], before)
  {
    hide TxnValid, Available, Update;
    assert txns[..0] == [];
    RunTxnsUpTo(cr, txns, m, i + 1);
    if i == 0 {
      assert txns[1..][..0] == [];
    } else {
      RunTxnsUpTo(cr, txns, m, i);
      RunTxnsStep(cr, txns[1..], Update(txns[0], m), i - 1);
    }
  }

  /** Payment `i` of a valid block is covered, and changes what the payments before it left. */
  lemma BlockPayment(cr: Crypto, b: BlockData, start: Balances, i: nat, k: Hash)
    requires i < |b.txns| && ValidateBlock(cr, b, start).ok
    ensures var t, m := b.txns[i], RunTxns(cr, b.txns[..i], start).balances;
            && t.source in m && m[t.source] >= t.amount
            && Get(RunTxns(cr, b.txns[..i + 1], start).balances, k) ==
               if k == t.source then 0
               else (Get(m, k) + (if k == t.dest then t.amount else 0)
                     + (if k == t.change then m[t.source] - t.amount else 0)) % 0x1_0000_0000_0000_0000
  {
    hide TxnValid, Update, RunTxns;
    RunTxnsStep(cr, b.txns, start, i);
    UpdateAt(b.txns[i], RunTxns(cr, b.txns[..i], start).balances, k);
  }

  /** The payments start from the balances given, and the reward of 100 comes on top of what they leave. */
  lemma BlockReward(cr: Crypto, b: BlockData, start: Balances, k: Hash)
    requires ValidateBlock(cr, b, start).ok
    ensures RunTxns(cr, b.txns[..0], start).balances == start
    ensures Get(ValidateBlock(cr, b, start).balances, k) ==
            (Get(RunTxns(cr, b.txns[..|b.txns|], start).balances, k) + (if k == b.reward then 100 else 0))
            % 0x1_0000_0000_0000_0000
  {
    hide TxnValid, Update;
    assert b.txns[..|b.txns|] == b.txns && b.txns[..0] == [];
  }

  // ---------- equality up to zero entries ----------

  ghost predicate SameMoney(a: Balances, b: Balances) {
    forall k: Hash :: Get(a, k) == Get(b, k)
  }

  method IncludedIn(a: Balances, b: Balances) returns (r: bool)
    ensures r <==> forall k :: k in a ==> Get(a, k) == Get(b, k)
  {
    var todo := a.Keys;
    while todo != {}
      invariant todo <= a.Keys
      invariant forall k :: k in a && k !in todo ==> Get(a, k) == Get(b, k)
      decreases todo
    {
      var k :| k in todo;
      if a[k] == 0 {
        if k in b && b[k] != 0 {
          return false;
        }
      } else if k !in b || b[k] != a[k] {
        return false;
      }
      todo := todo - {k};
    }
    return true;
  }

  method BalanceMapsEqual(a: Balances, b: Balances) returns (r: bool)
    ensures r <==> SameMoney(a, b)
  {
    r := IncludedIn(a, b);
    if r {
      r := IncludedIn(b, a);
    }
    if r {
      forall k: Hash ensures Get(a, k) == Get(b, k) {
        if k !in a && k in b {
        }
      }
    }
  }

  lemma SameMoneyEquivalence(a: Balances, b: Balances, c: Balances)
    ensures SameMoney(a, a)
    ensures SameMoney(a, b) ==> SameMoney(b, a)
    ensures SameMoney(a, b) && SameMoney(b, c) ==> SameMoney(a, c)
  {
    if SameMoney(a, b) && SameMoney(b, c) {
      forall k: Hash ensures Get(a, k) == Get(c, k) {
        assert Get(a, k) == Get(b, k);
      }
    }
  }

  /** The availability test respects equality up to zeros exactly for the amounts that validation lets through. */
  lemma AvailabilityCongruence(t: Txn)
    ensures (forall a: Balances, b: Balances :: SameMoney(a, b) ==> (Available(t, a) <==> Available(t, b)))
            <==> t.amount > 0
  {
    if t.amount > 0 {
      forall a: Balances, b: Balances | SameMoney(a, b) ensures Available(t, a) <==> Available(t, b) {
        assert Get(a, t.source) == Get(b, t.source);
      }
    } else {
      var a: Balances, b: Balances := map[t.source := 0], map[];
      assert SameMoney(a, b);
      assert Available(t, a) && !Available(t, b);
    }
  }

  lemma UpdateCongruence(t: Txn, a: Balances, b: Balances)
    requires SameMoney(a, b) && Available(t, a) && Available(t, b)
    ensures SameMoney(Update(t, a), Update(t, b))
  {
    assert Get(a, t.source) == Get(b, t.source);
    CreditCongruence(a, b, t.dest, t.amount);
    var a1, b1 := Credit(a, t.dest, t.amount), Credit(b, t.dest, t.amount);
    CreditCongruence(a1, b1, t.change, a[t.source] - t.amount);
    forall k: Hash ensures Get(Update(t, a), k) == Get(Update(t, b), k) {
      var c := a[t.source] - t.amount;
      assert Get(Credit(a1, t.change, c), k) == Get(Credit(b1, t.change, c), k);
    }
  }

  lemma CreditCongruence(a: Balances, b: Balances, k: Hash, v: uint64)
    requires SameMoney(a, b)
    ensures SameMoney(Credit(a, k, v), Credit(b, k, v))
  {
    forall x: Hash ensures Get(Credit(a, k, v), x) == Get(Credit(b, k, v), x) {
      assert Get(a, x) == Get(b, x);
    }
  }

  lemma {:induction false} RunTxnsCongruence(cr: Crypto, txns: seq<Txn>, a: Balances, b: Balances)
    requires SameMoney(a, b)
    ensures RunTxns(cr, txns, a).ok == RunTxns(cr, txns, b).ok
    ensures SameMoney(RunTxns(cr, txns, a).balances, RunTxns(cr, txns, b).balances)
  {
    if txns != [] && TxnValid(cr, txns[0]) {
      assert Get(a, txns[0].source) == Get(b, txns[0].source);
      if Available(txns[0], a) {
        UpdateCongruence(txns[0], a, b);
        RunTxnsCongruence(cr, txns[1..], Update(txns[0], a), Update(txns[0], b));
      }
    }
  }

  lemma ValidateCongruence(cr: Crypto, blk: BlockData, a: Balances, b: Balances)
    requires SameMoney(a, b)
    ensures ValidateBlock(cr, blk, a).ok == ValidateBlock(cr, blk, b).ok
    ensures SameMoney(ValidateBlock(cr, blk, a).balances, ValidateBlock(cr, blk, b).balances)
  {
    RunTxnsCongruence(cr, blk.txns, a, b);
    var x, y := RunTxns(cr, blk.txns, a).balances, RunTxns(cr, blk.txns, b).balances;
    CreditCongruence(x, y, blk.reward, BLOCK_REWARD);
  }

  lemma {:induction false} ChainCongruence(cr: Crypto, blocks: seq<BlockData>, a: Balances, b: Balances)
    requires SameMoney(a, b)
    ensures ChainRun(cr, a, blocks).ok == ChainRun(cr, b, blocks).ok
    ensures SameMoney(ChainRun(cr, a, blocks).balances, ChainRun(cr, b, blocks).balances)
    decreases |blocks|
  {
    if blocks != [] {
      var init := blocks[..|blocks| - 1];
      ChainCongruence(cr, init, a, b);
      ValidateCongruence(cr, blocks[|blocks| - 1], ChainRun(cr, a, init).balances, ChainRun(cr, b, init).balances);
    }
  }
}
