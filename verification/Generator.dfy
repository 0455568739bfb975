/** The chain generator: it keeps its own amounts beside the real balances and never overspends. */
module Generator {
  import opened Bytes
  import opened Ledger
  import opened Supply
  import opened Codec
  import opened Blocks
  import opened Sets

  datatype KeyPair = KeyPair(public: seq<byte>, secret: seq<byte>)

  /** The key generator and the signer: the i-th key pair made, and a signature of a hash. */
  datatype Keys = Keys(pair: nat -> KeyPair, sign: (seq<byte>, Hash) -> seq<byte>)

  function Address(cr: Crypto, keys: Keys, i: nat): Hash {
    (cr.sha256)((keys.pair)(i).public)
  }

  /** Signatures verify, sizes can be written, and no two of the first `limit` keys have one address. */
  ghost predicate GoodKeys(cr: Crypto, keys: Keys, limit: nat) {
    && (forall i: nat :: 0 < |(keys.pair)(i).public| < 1024)
    && (forall i: nat, h: Hash :: 0 < |(keys.sign)((keys.pair)(i).secret, h)| < 1024
          && (cr.verify)((keys.pair)(i).public, h, (keys.sign)((keys.pair)(i).secret, h)))
    && (forall i: nat, j: nat :: i < limit && j < limit && Address(cr, keys, i) == Address(cr, keys, j) ==> i == j)
  }

  ghost predicate NoZeroDigest(cr: Crypto) {
    forall s :: (cr.sha256)(s) != ZERO_HASH
  }

  class Utxo {
    const key: nat
    const addr: Hash
    var amount: uint64

    constructor (cr: Crypto, keys: Keys, key: nat)
      ensures this.key == key && addr == Address(cr, keys, key) && amount == 0
    {
      this.key, addr, amount := key, Address(cr, keys, key), 0;
    }
  }

  // ---------- the tracked amounts ----------

  function Amounts(utxos: map<Hash, Utxo>): (a: map<Hash, uint64>)
    reads utxos.Values
    ensures a.Keys == utxos.Keys
  {
    map k | k in utxos :: utxos[k].amount
  }

  /** The tracked amounts after a payment: the change is assigned, and the source is gone. */
  function Paid(a: map<Hash, uint64>, src: Hash, dst: Hash, chg: Hash, amount: uint64): map<Hash, uint64>
    requires src in a && dst in a && amount <= a[src] && a[dst] + amount < UINT64_LIMIT
  {
    a[dst := a[dst] + amount][chg := a[src] - amount] - {src}
  }

  /** Change and payment are what is tracked at their addresses, nothing is at the source, the rest is as it was. */
  lemma PaidAmounts(a: map<Hash, uint64>, src: Hash, dst: Hash, chg: Hash, amount: uint64, k: Hash)
    requires src in a && dst in a && chg in a && src != dst && src != chg && dst != chg
    requires amount <= a[src] && a[dst] + amount < UINT64_LIMIT
    ensures var p := Paid(a, src, dst, chg, amount);
            && src !in p && dst in p && p[dst] == a[dst] + amount && chg in p && p[chg] == a[src] - amount
            && (k != src && k != dst && k != chg ==> (k in p <==> k in a) && (k in a ==> p[k] == a[k]))
  {
  }

  /** What the generator believes an address holds is never more than it does hold. */
  ghost predicate Tracks(amounts: map<Hash, uint64>, m: Balances) {
    forall k :: k in amounts ==> amounts[k] <= Get(m, k)
  }

  /** Entries are filed under their address, and their keys were made before key `next`. */
  ghost predicate Filed(cr: Crypto, keys: Keys, utxos: map<Hash, Utxo>, next: nat) {
    forall k :: k in utxos ==> utxos[k].addr == k == Address(cr, keys, utxos[k].key) && utxos[k].key < next
  }

  /** Each address other than the source holds after the payment what it held, and what it was paid. */
  lemma PaidBalances(t: Txn, m: Balances, k: Hash)
    requires Available(t, m) && AdditionsFit(t, m) && t.dest != t.change && k != t.source
    ensures Get(Update(t, m), k)
         == Get(m, k) + if k == t.dest then t.amount else if k == t.change then m[t.source] - t.amount else 0
  {
  }

  lemma PaymentTracked(t: Txn, amounts: map<Hash, uint64>, m: Balances)
    requires Tracks(amounts, m) && Available(t, m) && AdditionsFit(t, m)
    requires t.source in amounts && t.dest in amounts && t.change in amounts
    requires t.source != t.dest && t.source != t.change && t.dest != t.change
    requires t.amount <= amounts[t.source] && amounts[t.dest] + t.amount < UINT64_LIMIT
    ensures Tracks(Paid(amounts, t.source, t.dest, t.change, t.amount), Update(t, m))
  {
    var paid := Paid(amounts, t.source, t.dest, t.change, t.amount);
    forall k | k in paid ensures paid[k] <= Get(Update(t, m), k) {
      hide Update, AdditionsFit;
      PaidBalances(t, m, k);
      assert amounts[k] <= Get(m, k) && amounts[t.source] <= Get(m, t.source);
    }
  }

  /**
   * Change is assigned, not added, so the tracked amount of the change address can fall behind its balance; it never
   * gets ahead, and that is all the next spend relies on.
   */
  lemma PayingKeepsTracking(t: Txn, amounts: map<Hash, uint64>, m: Balances)
    requires Tracks(amounts, m) && 2 * Total(m) < UINT64_LIMIT
    requires t.source in amounts && t.dest in amounts && t.change in amounts
    requires t.source != t.dest && t.source != t.change && t.dest != t.change
    requires 0 < t.amount <= amounts[t.source]
    ensures Available(t, m) && amounts[t.dest] + t.amount < UINT64_LIMIT
    ensures Tracks(Paid(amounts, t.source, t.dest, t.change, t.amount), Update(t, m))
    ensures Total(Update(t, m)) == Total(m)
  {
    hide Update, Total, Paid;
    assert amounts[t.source] <= Get(m, t.source) && amounts[t.dest] <= Get(m, t.dest);
    SmallTotalFits(t, m);
    UpdateTotal(t, m);
    PaymentTracked(t, amounts, m);
  }

  /** Tracking can lose money: after change is assigned over a tracked amount, less is tracked than is held. */
  lemma TrackingCanFallBehind(a: Hash, b: Hash, c: Hash)
    requires a != b && a != c && b != c
    ensures var amounts: map<Hash, uint64> := map[a := 5, b := 0, c := 7];
            var m: Balances := map[a := 5, c := 7];
            var t := Txn([], a, b, c, 2, ZERO_HASH, []);
            && Tracks(amounts, m) && Available(t, m)
            && (amounts[c := amounts[a] - t.amount])[c] < Get(Update(t, m), c)
  {
    var m: Balances := map[a := 5, c := 7];
    var t := Txn([], a, b, c, 2, ZERO_HASH, []);
    assert Get(Update(t, m), c) == 10;
  }

  lemma {:induction false} RunTxnsAppend(cr: Crypto, txns: seq<Txn>, m: Balances, t: Txn)
    requires RunTxns(cr, txns, m).ok && TxnValid(cr, t) && Available(t, RunTxns(cr, txns, m).balances)
    ensures RunTxns(cr, txns + [t], m) == Run(Update(t, RunTxns(cr, txns, m).balances), true)
    decreases |txns|
  {
    hide TxnValid, Update, Available;
    if txns == [] {
      assert txns + [t] == [t];
      assert [t][1..] == [];
    } else {
      assert (txns + [t])[1..] == txns[1..] + [t];
      RunTxnsAppend(cr, txns[1..], Update(txns[0], m), t);
    }
  }

  // ---------- how many transactions a block may be given ----------

  /** The counts for which the generator works. For the others see the end of this module. */
  predicate Workable(numTxns: nat) {
    numTxns == 1 || 3 <= numTxns <= MAX_TRANSACTIONS
  }

  /** Entries for three addresses; or the one of the reward, which is never spent. */
  predicate Enough(entries: nat, numTxns: nat) {
    if numTxns == 1 then entries == 1 else 3 <= numTxns <= entries
  }

  // ---------- the steps ----------

  /** Fresh keys are made until there are `min` entries; the assertion that a new address is new holds. */
  method EnsureMinUtxos(cr: Crypto, keys: Keys, before: map<Hash, Utxo>, min: nat, from: nat, ghost limit: nat)
    returns (utxos: map<Hash, Utxo>, next: nat)
    requires GoodKeys(cr, keys, limit) && Filed(cr, keys, before, from)
    requires from + (if |before| < min then min - |before| else 0) <= limit
    ensures Filed(cr, keys, utxos, next) && before.Keys <= utxos.Keys
    ensures |utxos| == if |before| < min then min else |before|
    ensures next == from + (if |before| < min then min - |before| else 0)
    ensures forall k :: k in before ==> utxos[k] == before[k]
    ensures forall k :: k in utxos && k !in before ==> fresh(utxos[k]) && utxos[k].amount == 0
  {
    hide GoodKeys, Filed;
    utxos, next := before, from;
    while |utxos| < min
      invariant Filed(cr, keys, utxos, next) && before.Keys <= utxos.Keys
      invariant next - from == |utxos| - |before| && (|utxos| <= min || next == from)
      invariant forall k :: k in before ==> utxos[k] == before[k]
      invariant forall k :: k in utxos && k !in before ==> fresh(utxos[k]) && utxos[k].amount == 0
      decreases min - |utxos|
    {
      var utxo := new Utxo(cr, keys, next);
      NewIsFiled(cr, keys, utxos, next, utxo, limit);
      assert utxo.addr !in utxos;
      utxos := utxos[utxo.addr := utxo];
      next := next + 1;
    }
  }

  lemma NewIsFiled(cr: Crypto, keys: Keys, utxos: map<Hash, Utxo>, next: nat, utxo: Utxo, limit: nat)
    requires GoodKeys(cr, keys, limit) && next < limit && Filed(cr, keys, utxos, next)
    requires utxo.key == next && utxo.addr == Address(cr, keys, next)
    ensures utxo.addr !in utxos && Filed(cr, keys, utxos[utxo.addr := utxo], next + 1)
  {
  }

  /** An address other than the reward's with a tracked amount, if there is one. */
  method FindSpendable(utxos: map<Hash, Utxo>, reward: Hash) returns (found: bool, pos: Hash)
    ensures found ==> pos in utxos && utxos[pos].amount > 0 && pos != reward
    ensures !found ==> forall k :: k in utxos && k != reward ==> utxos[k].amount == 0
  {
    var todo := utxos.Keys;
    while todo != {}
      invariant todo <= utxos.Keys
      invariant forall k :: k in utxos && k !in todo && k != reward ==> utxos[k].amount == 0
      decreases todo
    {
      var k :| k in todo;
      if utxos[k].amount > 0 && k != reward {
        return true, k;
      }
      todo := todo - {k};
    }
    return false, reward;
  }

  function CreateTxn(cr: Crypto, keys: Keys, key: nat, dest: Hash, change: Hash, amount: uint64): Txn {
    var kp := (keys.pair)(key);
    var blank := Txn(kp.public, Address(cr, keys, key), dest, change, amount, ZERO_HASH, []);
    var h := TxnDigest(cr, blank);
    blank.(txHash := h, signature := (keys.sign)(kp.secret, h))
  }

  lemma CreatedTxnIsValid(cr: Crypto, keys: Keys, limit: nat, key: nat, dest: Hash, change: Hash, amount: uint64)
    requires GoodKeys(cr, keys, limit) && amount > 0
    ensures TxnValid(cr, CreateTxn(cr, keys, key, dest, change, amount))
    ensures Writable(CreateTxn(cr, keys, key, dest, change, amount))
  {
  }

  /** An entry other than two given ones exists among three. */
  lemma ThirdExists(s: set<Hash>, a: Hash, b: Hash)
    ensures |s| >= 3 ==> exists k :: k in s && k != a && k != b
  {
    if forall k :: k in s ==> k == a || k == b {
      assert s <= {a, b};
      SubsetSize(s, {a, b});
    }
  }

  /** A set of entries as the chain loop keeps it. */
  ghost predicate Kept(cr: Crypto, keys: Keys, utxos: map<Hash, Utxo>, next: nat, m: Balances)
    reads utxos.Values
  {
    Filed(cr, keys, utxos, next) && Tracks(Amounts(utxos), m)
  }

  /** The block under construction: its balances are those of running its transactions, all of them writable. */
  ghost predicate Building(cr: Crypto, block: Block, start: Balances, total: nat)
    reads block
  {
    && RunTxns(cr, block.txns, start) == Run(block.balances, true)
    && Total(block.balances) == total && 2 * total < UINT64_LIMIT
    && forall t :: t in block.txns ==> Writable(t)
  }

  lemma EntriesDiffer(cr: Crypto, keys: Keys, utxos: map<Hash, Utxo>, next: nat)
    requires Filed(cr, keys, utxos, next)
    ensures forall j, k :: j in utxos && k in utxos && j != k ==> utxos[j] != utxos[k]
  {
  }

  lemma FiledUnderAddress(cr: Crypto, keys: Keys, utxos: map<Hash, Utxo>, next: nat)
    requires Filed(cr, keys, utxos, next)
    ensures forall k :: k in utxos ==> utxos[k].addr == k
  {
  }

  /** Moves the tracked money of one payment, with change assigned rather than added. */
  method MoveAmounts(cr: Crypto, keys: Keys, utxos: map<Hash, Utxo>, next: nat, src: Hash, dst: Hash, chg: Hash,
                     amount: uint64)
    returns (utxos': map<Hash, Utxo>)
    requires Filed(cr, keys, utxos, next) && src in utxos && dst in utxos && chg in utxos
    requires src != dst && src != chg && dst != chg && 0 < amount <= utxos[src].amount
    requires utxos[dst].amount + amount < UINT64_LIMIT
    modifies utxos.Values
    ensures utxos' == utxos - {src}
    ensures Amounts(utxos') == Paid(old(Amounts(utxos)), src, dst, chg, amount)
    ensures utxos[dst].amount == old(utxos[dst].amount) + amount
    ensures utxos[chg].amount == old(utxos[src].amount) - amount && utxos[src].amount == 0
  {
    hide Address;
    EntriesDiffer(cr, keys, utxos, next);
    FiledUnderAddress(cr, keys, utxos, next);
    hide Filed;
    var spend, recv, change := utxos[src], utxos[dst], utxos[chg];
    recv.amount := recv.amount + amount;
    change.amount := spend.amount - amount;
    spend.amount := 0;
    utxos' := utxos[recv.addr := recv][change.addr := change] - {spend.addr};
  }

  /** Moves the tracked money and refills the entries; what is tracked stays covered by the balances `m`. */
  method Settle(cr: Crypto, keys: Keys, utxos: map<Hash, Utxo>, from: nat, src: Hash, dst: Hash, chg: Hash,
                amount: uint64, numTxns: nat, ghost m: Balances, ghost limit: nat)
    returns (utxos': map<Hash, Utxo>, next: nat)
    requires GoodKeys(cr, keys, limit) && Filed(cr, keys, utxos, from) && src in utxos && dst in utxos && chg in utxos
    requires src != dst && src != chg && dst != chg && 0 < amount <= utxos[src].amount
    requires utxos[dst].amount + amount < UINT64_LIMIT && Tracks(Paid(Amounts(utxos), src, dst, chg, amount), m)
    requires numTxns <= |utxos| && from < limit
    modifies utxos.Values
    ensures Kept(cr, keys, utxos', next, m) && |utxos'| >= numTxns && next <= from + 1
    ensures forall k :: k in utxos && k != src ==> k in utxos'
    ensures utxos'[dst].amount > 0
    ensures forall k :: k in utxos' ==> (k in utxos && utxos'[k] == utxos[k]) || fresh(utxos'[k])
  {
    hide GoodKeys, Tracks, Paid;
    var rest := MoveAmounts(cr, keys, utxos, from, src, dst, chg, amount);
    utxos', next := EnsureMinUtxos(cr, keys, rest, numTxns, from, limit);
    StillTracks(rest, utxos', m);
    PaidIsPositive(old(Amounts(utxos)), src, dst, chg, amount);
    assert Amounts(rest)[dst] > 0;
  }

  lemma PaidIsPositive(a: map<Hash, uint64>, src: Hash, dst: Hash, chg: Hash, amount: uint64)
    requires src in a && dst in a && src != dst && dst != chg && 0 < amount <= a[src]
    requires a[dst] + amount < UINT64_LIMIT
    ensures dst in Paid(a, src, dst, chg, amount) && Paid(a, src, dst, chg, amount)[dst] > 0
  {
  }

  /** An entry other than the two given, if there is one. */
  method FindOther(utxos: map<Hash, Utxo>, a: Hash, b: Hash) returns (found: bool, pos: Hash)
    ensures found ==> pos in utxos && pos != a && pos != b
    ensures !found ==> forall k :: k in utxos ==> k == a || k == b
  {
    var todo := utxos.Keys;
    while todo != {}
      invariant todo <= utxos.Keys
      invariant forall k :: k in utxos && k !in todo ==> k == a || k == b
      decreases todo
    {
      var k :| k in todo;
      if k != a && k != b {
        return true, k;
      }
      todo := todo - {k};
    }
    return false, a;
  }

  lemma OthersNeedThree(s: set<Hash>, a: Hash)
    requires a in s
    ensures |s| >= 3 ==> exists k :: k in s && k != a
    ensures |s| < 3 ==> forall b, c :: b in s && c in s && a != b ==> c == a || c == b
  {
    ThirdExists(s, a, a);
    forall b, c | b in s && c in s && a != b && c != a && c != b ensures |s| >= 3 {
      SubsetSize({a, b, c}, s);
    }
  }

  /**
   * Sender, receiver and change address, if something can be spent. The assertions that receiver and change address
   * were found hold exactly if there are three entries; then the addresses differ.
   */
  method PickPayment(utxos: map<Hash, Utxo>, reward: Hash)
    returns (found: bool, ok: bool, src: Hash, dst: Hash, chg: Hash, amount: uint64)
    ensures found <==> exists k :: k in utxos && k != reward && utxos[k].amount > 0
    ensures found ==> src in utxos && src != reward && (ok <==> |utxos| >= 3)
    ensures found && ok ==> dst in utxos && chg in utxos && src != dst && src != chg && dst != chg
                            && 0 < amount <= utxos[src].amount
  {
    ok, dst, chg, amount := false, reward, reward, 0;
    found, src := FindSpendable(utxos, reward);
    if found {
      assert |utxos.Keys| == |utxos|;
      OthersNeedThree(utxos.Keys, src);
      ok, dst := FindOther(utxos, src, src);
      if ok {
        ThirdExists(utxos.Keys, src, dst);
        ok, chg := FindOther(utxos, src, dst);
      }
      amount :| 1 <= amount <= utxos[src].amount;
    }
  }

  /** The payment is valid and covered, and building goes on with it. */
  lemma PaymentFits(cr: Crypto, keys: Keys, block: Block, utxos: map<Hash, Utxo>, next: nat, start: Balances,
                    total: nat, src: Hash, dst: Hash, chg: Hash, amount: uint64, limit: nat)
    requires GoodKeys(cr, keys, limit)
    requires Kept(cr, keys, utxos, next, block.balances) && Building(cr, block, start, total)
    requires src in utxos && dst in utxos && chg in utxos
    requires src != dst && src != chg && dst != chg && 0 < amount <= utxos[src].amount
    ensures var t := CreateTxn(cr, keys, utxos[src].key, dst, chg, amount);
            var a := Amounts(utxos);
            && TxnValid(cr, t) && Writable(t) && Available(t, block.balances)
            && utxos[dst].amount + amount < UINT64_LIMIT
            && RunTxns(cr, block.txns + [t], start) == Run(Update(t, block.balances), true)
            && Total(Update(t, block.balances)) == total
            && Tracks(Paid(a, src, dst, chg, amount), Update(t, block.balances))
  {
    hide GoodKeys, TxnValid, Update, Available, Writable, Tracks, RunTxns, Paid;
    var t := CreateTxn(cr, keys, utxos[src].key, dst, chg, amount);
    CreatedTxnIsValid(cr, keys, limit, utxos[src].key, dst, chg, amount);
    PayingKeepsTracking(t, Amounts(utxos), block.balances);
    RunTxnsAppend(cr, block.txns, start, t);
  }

  /** A payment is made, accepted by the block and settled. */
  method Pay(cr: Crypto, keys: Keys, block: Block, utxos: map<Hash, Utxo>, from: nat, src: Hash, dst: Hash, chg: Hash,
             amount: uint64, numTxns: nat, ghost start: Balances, ghost total: nat, ghost limit: nat)
    returns (utxos': map<Hash, Utxo>, next: nat)
    requires GoodKeys(cr, keys, limit) && numTxns <= |utxos| && from < limit
    requires Kept(cr, keys, utxos, from, block.balances) && Building(cr, block, start, total)
    requires src in utxos && dst in utxos && chg in utxos
    requires src != dst && src != chg && dst != chg && 0 < amount <= utxos[src].amount
    modifies block`txns, block`balances, utxos.Values
    ensures Kept(cr, keys, utxos', next, block.balances) && Building(cr, block, start, total)
    ensures |utxos'| >= numTxns && next <= from + 1 && |block.txns| == |old(block.txns)| + 1
    ensures forall k :: k in utxos && k != src ==> k in utxos'
    ensures utxos'[dst].amount > 0
    ensures forall k :: k in utxos' ==> (k in utxos && utxos'[k] == utxos[k]) || fresh(utxos'[k])
  {
    hide GoodKeys, TxnValid, Update, Available, Writable, Tracks, RunTxns, CreateTxn, Total, Amounts, Paid;
    PaymentFits(cr, keys, block, utxos, from, start, total, src, dst, chg, amount, limit);
    var txn := CreateTxn(cr, keys, utxos[src].key, dst, chg, amount);
    var added := block.AddTransaction(cr, txn, true);
    assert added;
    utxos', next := Settle(cr, keys, utxos, from, src, dst, chg, amount, numTxns, block.balances, limit);
  }

  /** One round of the transaction loop: every assertion on the way holds and the transaction is accepted. */
  method AddOneTxn(cr: Crypto, keys: Keys, block: Block, utxos: map<Hash, Utxo>, from: nat, reward: Hash,
                   numTxns: nat, ghost start: Balances, ghost total: nat, ghost limit: nat)
    returns (added: bool, utxos': map<Hash, Utxo>, next: nat)
    requires GoodKeys(cr, keys, limit) && Enough(|utxos|, numTxns) && reward in utxos && from < limit
    requires Kept(cr, keys, utxos, from, block.balances) && Building(cr, block, start, total)
    modifies block`txns, block`balances, utxos.Values
    ensures Kept(cr, keys, utxos', next, block.balances) && Building(cr, block, start, total)
    ensures Enough(|utxos'|, numTxns) && reward in utxos' && next <= from + 1
    ensures |block.txns| == |old(block.txns)| + if added then 1 else 0
    ensures forall k :: k in utxos' ==> (k in utxos && utxos'[k] == utxos[k]) || fresh(utxos'[k])
  {
    hide GoodKeys, Kept, Building;
    utxos', next := utxos, from;
    var ok, src, dst, chg, amount;
    added, ok, src, dst, chg, amount := PickPayment(utxos, reward);
    if added {
      TwoNeedMoreThanOne(utxos.Keys, src, reward);
      assert |utxos.Keys| == |utxos|;
      assert ok;
      utxos', next := Pay(cr, keys, block, utxos, from, src, dst, chg, amount, numTxns, start, total, limit);
    }
  }

  lemma TwoNeedMoreThanOne(s: set<Hash>, a: Hash, b: Hash)
    requires a in s && b in s && a != b
    ensures |s| >= 2
  {
    SubsetSize({a, b}, s);
  }

  lemma StillTracks(rest: map<Hash, Utxo>, utxos: map<Hash, Utxo>, m: Balances)
    requires Tracks(Amounts(rest), m) && rest.Keys <= utxos.Keys
    requires forall k :: k in rest ==> utxos[k] == rest[k]
    requires forall k :: k in utxos && k !in rest ==> utxos[k].amount == 0
    ensures Tracks(Amounts(utxos), m)
  {
    forall k | k in Amounts(utxos) ensures Amounts(utxos)[k] <= Get(m, k) {
      assert k in rest ==> Amounts(rest)[k] <= Get(m, k);
    }
  }

  // ---------- blocks and the chain ----------

  /** Each block names the one before it, the first names none, and no hash is the coinbase mark. */
  ghost predicate HashLinks(blocks: seq<BlockData>) {
    && (forall k {:trigger blocks[k].blkHash} :: 0 <= k < |blocks| ==> blocks[k].blkHash != ZERO_HASH)
    && (forall k {:trigger blocks[k].prevHash} :: 0 <= k < |blocks| ==>
          blocks[k].prevHash == if k == 0 then ZERO_HASH else blocks[k - 1].blkHash)
  }

  /** `prev` is the last block of a chain that is valid so far. */
  ghost predicate Extends(cr: Crypto, blocks: seq<BlockData>, prev: Block?)
    reads prev
  {
    && HashLinks(blocks) && ChainRun(cr, map[], blocks).ok && |blocks| <= MAX_LENGTH
    && (blocks == [] <==> prev == null)
    && (prev != null ==> prev.Data() == blocks[|blocks| - 1] && prev.balances == ChainRun(cr, map[], blocks).balances)
  }

  lemma StartBuilding(cr: Crypto, blocks: seq<BlockData>, prev: Block?, block: Block)
    requires Extends(cr, blocks, prev) && |blocks| < MAX_LENGTH && block.txns == []
    requires block.balances == ChainRun(cr, map[], blocks).balances
    ensures Building(cr, block, block.balances, Total(block.balances))
    ensures 2 * (Total(block.balances) + BLOCK_REWARD) < UINT64_LIMIT
  {
    BoundedSupply(cr, blocks);
  }

  /** The hash is set after the last transaction, so the finished block validates on top of the chain. */
  method Finish(cr: Crypto, block: Block, ghost blocks: seq<BlockData>, prev: Block?, ghost total: nat)
    requires NoZeroDigest(cr) && Extends(cr, blocks, prev) && |blocks| < MAX_LENGTH
    requires block != prev && block.prevBlock == prev && |block.txns| <= MAX_TRANSACTIONS
    requires block.prevHash == (if prev == null then ZERO_HASH else prev.blkHash)
    requires prev == null ==> block.length == 1
    requires Building(cr, block, ChainRun(cr, map[], blocks).balances, total)
    modifies block`blkHash, block`valid, block`balances
    ensures Extends(cr, blocks + [block.Data()], block) && BlockWritable(block.Data())
    ensures block.balances == Credit(old(block.balances), block.reward, BLOCK_REWARD)
  {
    hide RunTxns, Total, BlockDigest, Writable, HashLinks, ChainRun;
    block.SetHash(cr);
    DigestNotZero(cr, block.Data());
    NotCoinbase(cr, blocks, prev);
    var coinbase := block.IsCoinbase();
    assert coinbase <==> prev == null;
    ChainRunAppend(cr, map[], blocks, block.Data());
    ExtendsParts(cr, blocks, prev);
    var ok := block.Validate(cr);
    assert ok;
    LinksAppend(blocks, block.Data());
  }

  lemma DigestNotZero(cr: Crypto, b: BlockData)
    requires NoZeroDigest(cr)
    ensures BlockDigest(cr, b) != ZERO_HASH
  {
  }

  lemma NotCoinbase(cr: Crypto, blocks: seq<BlockData>, prev: Block?)
    requires Extends(cr, blocks, prev)
    ensures prev != null ==> prev.blkHash == blocks[|blocks| - 1].blkHash != ZERO_HASH
  {
  }

  lemma LinksAppend(blocks: seq<BlockData>, b: BlockData)
    requires HashLinks(blocks) && b.blkHash != ZERO_HASH
    requires b.prevHash == if blocks == [] then ZERO_HASH else blocks[|blocks| - 1].blkHash
    ensures HashLinks(blocks + [b])
  {
  }

  function Rewarded(amounts: map<Hash, uint64>, reward: Hash): map<Hash, uint64>
    requires reward in amounts
  {
    amounts[reward := (amounts[reward] + BLOCK_REWARD) % UINT64_LIMIT]
  }

  /** The reward is added to the balances and to the tracked amount alike. */
  lemma RewardKeepsTracking(amounts: map<Hash, uint64>, m: Balances, reward: Hash)
    requires Tracks(amounts, m) && reward in amounts && Total(m) + BLOCK_REWARD < UINT64_LIMIT
    ensures amounts[reward] + BLOCK_REWARD < UINT64_LIMIT
    ensures Tracks(Rewarded(amounts, reward), Credit(m, reward, BLOCK_REWARD))
  {
    TotalOfCredit(m, reward, BLOCK_REWARD);
    assert amounts[reward] <= Get(m, reward);
  }

  /** The transaction loop: up to `numTxns` payments, fewer when nothing can be spent. */
  method FillBlock(cr: Crypto, keys: Keys, block: Block, before: map<Hash, Utxo>, from: nat, reward: Hash,
                   numTxns: nat, ghost start: Balances, ghost total: nat, ghost limit: nat)
    returns (utxos: map<Hash, Utxo>, next: nat)
    requires GoodKeys(cr, keys, limit) && Enough(|before|, numTxns) && reward in before && block.txns == []
    requires from + numTxns <= limit
    requires Kept(cr, keys, before, from, block.balances) && Building(cr, block, start, total)
    modifies block`txns, block`balances, before.Values
    ensures Kept(cr, keys, utxos, next, block.balances) && Building(cr, block, start, total)
    ensures reward in utxos && |block.txns| <= numTxns && Enough(|utxos|, numTxns) && next <= from + numTxns
    ensures forall k :: k in utxos ==> (k in before && utxos[k] == before[k]) || fresh(utxos[k])
  {
    hide GoodKeys, Building, Kept;
    utxos, next := before, from;
    for txIndex := 0 to numTxns
      invariant Enough(|utxos|, numTxns) && |block.txns| <= txIndex && reward in utxos && next <= from + txIndex
      invariant Kept(cr, keys, utxos, next, block.balances) && Building(cr, block, start, total)
      invariant forall k :: k in utxos ==> (k in before && utxos[k] == before[k]) || fresh(utxos[k])
    {
      var added: bool;
      added, utxos, next := AddOneTxn(cr, keys, block, utxos, next, reward, numTxns, start, total, limit);
      if !added {
        break;
      }
    }
  }

  method StartBlock(cr: Crypto, prev: Block?, reward: Hash, ghost blocks: seq<BlockData>) returns (block: Block)
    requires Extends(cr, blocks, prev) && |blocks| < MAX_LENGTH
    ensures fresh(block) && block.prevBlock == prev && block.reward == reward && block.txns == []
    ensures block.prevHash == if prev == null then ZERO_HASH else prev.blkHash
    ensures prev == null ==> block.length == 1
    ensures block.balances == ChainRun(cr, map[], blocks).balances
    ensures Building(cr, block, block.balances, Total(block.balances))
    ensures 2 * (Total(block.balances) + BLOCK_REWARD) < UINT64_LIMIT
  {
    hide Extends, Building, ChainRun, Total;
    ExtendsParts(cr, blocks, prev);
    if prev == null {
      block := new Block();
    } else {
      block := new Block.After(prev);
    }
    block.reward := reward;
    StartBuilding(cr, blocks, prev, block);
  }

  /** A bare coinbase block first, then blocks filled with transactions. */
  method PrepareBlock(cr: Crypto, keys: Keys, prev: Block?, before: map<Hash, Utxo>, from: nat, reward: Hash,
                      numTxns: nat, ghost blocks: seq<BlockData>, ghost limit: nat)
    returns (block: Block, utxos: map<Hash, Utxo>, next: nat, ghost total: nat)
    requires GoodKeys(cr, keys, limit) && Extends(cr, blocks, prev) && |blocks| < MAX_LENGTH
    requires Enough(|before|, numTxns) && reward in before && from + numTxns <= limit
    requires Kept(cr, keys, before, from, ChainRun(cr, map[], blocks).balances)
    modifies before.Values
    ensures fresh(block) && block.prevBlock == prev && block.reward == reward && |block.txns| <= numTxns
    ensures Enough(|utxos|, numTxns)
    ensures block.prevHash == if prev == null then ZERO_HASH else prev.blkHash
    ensures prev == null ==> block.length == 1 && block.txns == []
    ensures Building(cr, block, ChainRun(cr, map[], blocks).balances, total)
    ensures Kept(cr, keys, utxos, next, block.balances) && reward in utxos && next <= from + numTxns
    ensures 2 * (total + BLOCK_REWARD) < UINT64_LIMIT
    ensures forall k :: k in utxos ==> (k in before && utxos[k] == before[k]) || fresh(utxos[k])
  {
    hide GoodKeys, Extends, Building, Kept, ChainRun, Total;
    utxos, next := before, from;
    block := StartBlock(cr, prev, reward, blocks);
    ghost var start := block.balances;
    total := Total(block.balances);
    if prev != null {
      utxos, next := FillBlock(cr, keys, block, before, from, reward, numTxns, start, total, limit);
    }
  }

  /** The block is finished, and the tracked amounts are still covered once its reward is counted. */
  method CloseBlock(cr: Crypto, keys: Keys, block: Block, prev: Block?, utxos: map<Hash, Utxo>, ghost next: nat,
                    ghost blocks: seq<BlockData>, ghost total: nat)
    requires NoZeroDigest(cr) && Extends(cr, blocks, prev) && |blocks| < MAX_LENGTH
    requires block != prev && block.prevBlock == prev && |block.txns| <= MAX_TRANSACTIONS
    requires block.prevHash == if prev == null then ZERO_HASH else prev.blkHash
    requires prev == null ==> block.length == 1
    requires Building(cr, block, ChainRun(cr, map[], blocks).balances, total)
    requires 2 * (total + BLOCK_REWARD) < UINT64_LIMIT
    requires Kept(cr, keys, utxos, next, block.balances) && block.reward in utxos
    modifies block`blkHash, block`valid, block`balances
    ensures Extends(cr, blocks + [block.Data()], block) && BlockWritable(block.Data())
    ensures Filed(cr, keys, utxos, next) && Amounts(utxos)[block.reward] + BLOCK_REWARD < UINT64_LIMIT
    ensures Tracks(Rewarded(Amounts(utxos), block.reward), block.balances)
  {
    hide NoZeroDigest, Extends, Building, Kept, RunTxns, Total, ChainRun, Tracks, Filed, Rewarded, BlockWritable,
         Amounts;
    KeptParts(cr, keys, utxos, next, block, ChainRun(cr, map[], blocks).balances, total);
    RewardKeepsTracking(Amounts(utxos), block.balances, block.reward);
    Finish(cr, block, blocks, prev, total);
  }

  /** One block of the chain. */
  method MakeBlock(cr: Crypto, keys: Keys, prev: Block?, before: map<Hash, Utxo>, from: nat, reward: Hash,
                   numTxns: nat, ghost blocks: seq<BlockData>, ghost limit: nat)
    returns (block: Block, utxos: map<Hash, Utxo>, next: nat)
    requires GoodKeys(cr, keys, limit) && NoZeroDigest(cr)
    requires prev != null ==> numTxns <= MAX_TRANSACTIONS
    requires Extends(cr, blocks, prev) && |blocks| < MAX_LENGTH
    requires Enough(|before|, numTxns) && reward in before && from + numTxns <= limit
    requires Kept(cr, keys, before, from, ChainRun(cr, map[], blocks).balances)
    modifies before.Values
    ensures fresh(block) && block.reward == reward && Extends(cr, blocks + [block.Data()], block)
    ensures BlockWritable(block.Data())
    ensures Filed(cr, keys, utxos, next) && reward in utxos && |block.txns| <= numTxns && Enough(|utxos|, numTxns)
    ensures next <= from + numTxns
    ensures Amounts(utxos)[reward] + BLOCK_REWARD < UINT64_LIMIT
    ensures Tracks(Rewarded(Amounts(utxos), reward), block.balances)
    ensures forall k :: k in utxos ==> (k in before && utxos[k] == before[k]) || fresh(utxos[k])
  {
    hide GoodKeys, NoZeroDigest, Extends, Building, Kept, ChainRun, Tracks, Filed, Rewarded, BlockWritable, Amounts,
         Enough;
    ghost var total;
    block, utxos, next, total := PrepareBlock(cr, keys, prev, before, from, reward, numTxns, blocks, limit);
    CloseBlock(cr, keys, block, prev, utxos, next, blocks, total);
  }

  lemma ExtendsParts(cr: Crypto, blocks: seq<BlockData>, prev: Block?)
    requires Extends(cr, blocks, prev)
    ensures blocks == [] <==> prev == null
    ensures prev == null ==> ChainRun(cr, map[], blocks).balances == map[]
    ensures prev != null ==> prev.balances == ChainRun(cr, map[], blocks).balances
  {
  }

  lemma KeptParts(cr: Crypto, keys: Keys, utxos: map<Hash, Utxo>, next: nat, block: Block, start: Balances, total: nat)
    requires Kept(cr, keys, utxos, next, block.balances) && Building(cr, block, start, total)
    ensures Filed(cr, keys, utxos, next) && Tracks(Amounts(utxos), block.balances) && Total(block.balances) == total
  {
  }

  method PayReward(cr: Crypto, keys: Keys, utxos: map<Hash, Utxo>, ghost next: nat, reward: Hash)
    requires Filed(cr, keys, utxos, next) && reward in utxos && Amounts(utxos)[reward] + BLOCK_REWARD < UINT64_LIMIT
    modifies utxos[reward]
    ensures Amounts(utxos) == Rewarded(old(Amounts(utxos)), reward)
    ensures utxos[reward].amount == old(utxos[reward].amount) + 100
    ensures forall k :: k in utxos && k != reward ==> utxos[k].amount == old(utxos[k].amount)
  {
    EntriesDiffer(cr, keys, utxos, next);
    utxos[reward].amount := utxos[reward].amount + BLOCK_REWARD;
  }

  /** One round of the chain loop. */
  method NextBlock(cr: Crypto, keys: Keys, prev: Block?, before: map<Hash, Utxo>, from: nat, numTxns: nat,
                   ghost blocks: seq<BlockData>, ghost limit: nat)
    returns (block: Block, utxos: map<Hash, Utxo>, next: nat)
    requires GoodKeys(cr, keys, limit) && NoZeroDigest(cr)
    requires prev != null ==> numTxns <= MAX_TRANSACTIONS
    requires Extends(cr, blocks, prev) && |blocks| < MAX_LENGTH
    requires Kept(cr, keys, before, from, ChainRun(cr, map[], blocks).balances)
    requires from + 2 * numTxns <= limit + |before| && from + numTxns <= limit
    requires if before == map[] then numTxns == 1 || 3 <= numTxns else Enough(|before|, numTxns)
    modifies before.Values
    ensures fresh(block) && Extends(cr, blocks + [block.Data()], block)
    ensures BlockWritable(block.Data()) && |block.txns| <= numTxns && Enough(|utxos|, numTxns)
    ensures Kept(cr, keys, utxos, next, block.balances)
    ensures block.reward in utxos && utxos[block.reward].amount > 0
    ensures next <= from + numTxns + if |before| < numTxns then numTxns - |before| else 0
    ensures forall k :: k in utxos ==> (k in before && utxos[k] == before[k]) || fresh(utxos[k])
  {
    hide GoodKeys, NoZeroDigest, Extends, ChainRun, Tracks, Filed, Rewarded, BlockWritable, Amounts;
    utxos, next := EnsureMinUtxos(cr, keys, before, numTxns, from, limit);
    StillTracks(before, utxos, ChainRun(cr, map[], blocks).balances);
    SomeEntry(utxos);
    var reward: Hash :| reward in utxos;
    block, utxos, next := MakeBlock(cr, keys, prev, utxos, next, reward, numTxns, blocks, limit);
    PayReward(cr, keys, utxos, next, reward);
  }

  /**
   * `create_chain_and_write`: for one or 3 to 64 transactions a block no assertion on the way fails, and the bytes
   * written are those of a hash-linked chain of `len` blocks that is valid from empty balances. At most 64 keys a block
   * are made.
   */
  method CreateChainAndWrite(cr: Crypto, keys: Keys, len: nat, numTxns: nat)
    returns (out: seq<byte>, ghost blocks: seq<BlockData>)
    requires GoodKeys(cr, keys, MAX_TRANSACTIONS * (len + 1)) && NoZeroDigest(cr)
    requires len <= MAX_LENGTH && Workable(numTxns)
    ensures |blocks| == len && HashLinks(blocks) && ChainRun(cr, map[], blocks).ok
    ensures AllReadable(blocks) && out == ChainBytes(blocks)
    ensures forall b :: b in blocks ==> BlockWritable(b) && |b.txns| <= numTxns
  {
    hide GoodKeys, NoZeroDigest, Extends, ChainRun, Kept, BlockWritable, BlockReadable, ChainBytes, BlockBytes,
         HashLinks;
    out, blocks := [], [];
    var utxos: map<Hash, Utxo> := map[];
    var next: nat := 0;
    var prev: Block? := null;
    NothingYet(cr, keys);
    for blockIndex := 0 to len
      invariant |blocks| == blockIndex && Extends(cr, blocks, prev)
      invariant AllReadable(blocks) && out == ChainBytes(blocks)
      invariant forall b :: b in blocks ==> BlockWritable(b) && |b.txns| <= numTxns
      invariant Kept(cr, keys, utxos, next, ChainRun(cr, map[], blocks).balances)
      invariant forall k :: k in utxos ==> fresh(utxos[k])
      invariant if blockIndex == 0 then utxos == map[] && next == 0
                else Enough(|utxos|, numTxns) && next <= MAX_TRANSACTIONS * (blockIndex + 1)
    {
      var block;
      block, utxos, next := NextBlock(cr, keys, prev, utxos, next, numTxns, blocks, MAX_TRANSACTIONS * (len + 1));
      WritableIsReadable(block.Data());
      ExtendsParts(cr, blocks + [block.Data()], block);
      ChainBytesLast(blocks, block.Data());
      out := block.Write(out);
      blocks := blocks + [block.Data()];
      prev := block;
    }
    ExtendsLinks(cr, blocks, prev);
  }

  lemma NothingYet(cr: Crypto, keys: Keys)
    ensures Extends(cr, [], null) && AllReadable([]) && ChainBytes([]) == []
    ensures Kept(cr, keys, map[], 0, ChainRun(cr, map[], []).balances)
  {
  }

  lemma SomeEntry(utxos: map<Hash, Utxo>)
    requires |utxos| >= 1
    ensures exists k :: k in utxos
  {
    assert utxos.Keys != {};
  }

  lemma WritableIsReadable(b: BlockData)
    requires BlockWritable(b)
    ensures BlockReadable(b)
  {
  }

  lemma ExtendsLinks(cr: Crypto, blocks: seq<BlockData>, prev: Block?)
    requires Extends(cr, blocks, prev)
    ensures HashLinks(blocks) && ChainRun(cr, map[], blocks).ok
  {
  }

  // ---------- the counts for which it does not work ----------

  /**
   * With two transactions a block there can be just two entries. A run of the first rounds: the second block has its
   * reward at the other address than the first, the money of the first is to be spent, and there is no change address.
   */
  method TwoTransactionsFail(cr: Crypto, keys: Keys) returns (found: bool, ok: bool)
    requires GoodKeys(cr, keys, 2)
    ensures found && !ok
  {
    hide GoodKeys, Filed, Amounts, Rewarded;
    NothingFiled(cr, keys);
    var utxos, next := EnsureMinUtxos(cr, keys, map[], 2, 0, 2);
    assert |utxos.Keys| == |utxos|;
    OneOfTwo(utxos.Keys);
    var first: Hash :| first in utxos && exists k :: k in utxos && k != first;
    NewIsEmpty(utxos, first);
    PayReward(cr, keys, utxos, next, first);
    utxos, next := EnsureMinUtxos(cr, keys, utxos, 2, next, 2);
    var second: Hash :| second in utxos && second != first;
    var src, dst, chg, amount;
    found, ok, src, dst, chg, amount := PickPayment(utxos, second);
  }

  lemma NothingFiled(cr: Crypto, keys: Keys)
    ensures Filed(cr, keys, map[], 0)
  {
  }

  lemma NewIsEmpty(utxos: map<Hash, Utxo>, k: Hash)
    requires k in utxos && utxos[k].amount == 0
    ensures Amounts(utxos)[k] + BLOCK_REWARD < UINT64_LIMIT
  {
  }

  lemma OneOfTwo(s: set<Hash>)
    requires |s| == 2
    ensures exists a, b :: a in s && b in s && a != b
  {
    var a: Hash :| a in s;
    assert |s - {a}| == 1;
    var b: Hash :| b in s - {a};
  }

  /** A payment to two addresses that are not the reward's, as the generator may choose it among four entries. */
  method PickAway(utxos: map<Hash, Utxo>, reward: Hash, src: Hash) returns (dst: Hash, chg: Hash)
    requires |utxos| >= 4
    ensures dst in utxos && chg in utxos && dst != reward && chg != reward && dst != src && chg != src && dst != chg
  {
    assert |utxos.Keys| == |utxos| && |utxos.Keys - {reward}| >= 3;
    ThirdExists(utxos.Keys - {reward}, src, src);
    dst :| dst in utxos && dst != reward && dst != src;
    ThirdExists(utxos.Keys - {reward}, src, dst);
    chg :| chg in utxos && chg != reward && chg != src && chg != dst;
  }

  /** One round in which the money goes from `src` to other addresses than the reward's. */
  method PayAway(cr: Crypto, keys: Keys, block: Block, utxos: map<Hash, Utxo>, from: nat, reward: Hash, src: Hash,
                 numTxns: nat, ghost start: Balances, ghost total: nat, ghost limit: nat)
    returns (utxos': map<Hash, Utxo>, next: nat, dst: Hash)
    requires GoodKeys(cr, keys, limit) && 4 <= numTxns <= |utxos| && from < limit
    requires Kept(cr, keys, utxos, from, block.balances) && Building(cr, block, start, total)
    requires src in utxos && src != reward && utxos[src].amount > 0
    modifies block`txns, block`balances, utxos.Values
    ensures Kept(cr, keys, utxos', next, block.balances) && Building(cr, block, start, total)
    ensures |utxos'| >= numTxns && next <= from + 1 && |block.txns| == |old(block.txns)| + 1
    ensures dst in utxos' && dst != reward && utxos'[dst].amount > 0
    ensures forall k :: k in utxos' ==> (k in utxos && utxos'[k] == utxos[k]) || fresh(utxos'[k])
  {
    hide GoodKeys, Kept, Building;
    var chg;
    dst, chg := PickAway(utxos, reward, src);
    utxos', next := Pay(cr, keys, block, utxos, from, src, dst, chg, 1, numTxns, start, total, limit);
  }

  /** Rounds in which money always stays away from the reward address, so that the next one can be made. */
  method KeepPaying(cr: Crypto, keys: Keys, block: Block, before: map<Hash, Utxo>, from: nat, reward: Hash,
                    numTxns: nat, ghost start: Balances, ghost total: nat, ghost limit: nat)
    requires GoodKeys(cr, keys, limit) && 4 <= numTxns <= |before| && block.txns == [] && from + numTxns <= limit
    requires Kept(cr, keys, before, from, block.balances) && Building(cr, block, start, total)
    requires exists k :: k in before && k != reward && before[k].amount > 0
    modifies block`txns, block`balances, before.Values
    ensures |block.txns| == numTxns
  {
    hide GoodKeys, Kept, Building;
    var utxos: map<Hash, Utxo>, next: nat := before, from;
    var src: Hash :| src in before && src != reward && before[src].amount > 0;
    for txIndex := 0 to numTxns
      invariant numTxns <= |utxos| && |block.txns| == txIndex && next <= from + txIndex
      invariant src in utxos && src != reward && utxos[src].amount > 0
      invariant Kept(cr, keys, utxos, next, block.balances) && Building(cr, block, start, total)
      invariant forall k :: k in utxos ==> (k in before && utxos[k] == before[k]) || fresh(utxos[k])
    {
      utxos, next, src := PayAway(cr, keys, block, utxos, next, reward, src, numTxns, start, total, limit);
    }
  }

  /**
   * With more than 64 transactions a block, the second block of some run has too many of them for the writer, whose
   * assertion on their number fails.
   */
  method ManyTransactionsFail(cr: Crypto, keys: Keys, numTxns: nat) returns (block: Block)
    requires GoodKeys(cr, keys, 3 * numTxns) && NoZeroDigest(cr) && numTxns > MAX_TRANSACTIONS
    ensures |block.txns| == numTxns && !BlockWritable(block.Data())
  {
    hide GoodKeys, NoZeroDigest, Kept, Extends, Building;
    NothingYet(cr, keys);
    var coinbase, utxos, next := NextBlock(cr, keys, null, map[], 0, numTxns, [], 3 * numTxns);
    ghost var blocks := [] + [coinbase.Data()];
    ExtendsParts(cr, blocks, coinbase);
    assert |utxos.Keys| == |utxos|;
    ThirdExists(utxos.Keys, coinbase.reward, coinbase.reward);
    var reward: Hash :| reward in utxos && reward != coinbase.reward;
    block := StartBlock(cr, coinbase, reward, blocks);
    KeepPaying(cr, keys, block, utxos, next, reward, numTxns, block.balances, Total(block.balances), 3 * numTxns);
  }
}
