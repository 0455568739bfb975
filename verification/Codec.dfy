/** The binary form of transactions and blocks: one writer, a buffer reader and a stream reader. */
module Codec {
  import opened Bytes
  import opened Ledger

  const MAX_TRANSACTIONS: nat := 64

  const TXN_HEADER: nat := 16
  const TXN_FIXED: nat := TXN_HEADER + 4 * HASH_SIZE
  const BLOCK_HEADER: nat := 4 + 3 * HASH_SIZE

  /** A reader's outcome: failure, or a value and the number of bytes it took. */
  datatype Parsed<T> = Failed | Read(value: T, size: nat)

  // ---------- what may be written, and what may be read back ----------

  /** The size limits the readers accept. */
  predicate Readable(t: Txn) {
    |t.publicKey| < 1024 && |t.signature| <= 1024
  }

  /** The size limits `txn_t::write` asserts; both ends are tighter than the readers'. */
  predicate Writable(t: Txn) {
    0 < |t.publicKey| < 1024 && 0 < |t.signature| < 1024
  }

  predicate BlockReadable(b: BlockData) {
    |b.txns| < 0x8000_0000 && forall t :: t in b.txns ==> Readable(t)
  }

  predicate AllReadable(blocks: seq<BlockData>) {
    forall b :: b in blocks ==> BlockReadable(b)
  }

  predicate BlockWritable(b: BlockData) {
    |b.txns| <= MAX_TRANSACTIONS && forall t :: t in b.txns ==> Writable(t)
  }

  // ---------- the writer ----------

  function TxnBytes(t: Txn): (s: seq<byte>)
    requires Readable(t)
    ensures |s| == TxnSize(t)
  {
    Encode32(|t.publicKey|) + Encode32(|t.signature|) + Encode64(t.amount)
    + t.publicKey + t.source + t.dest + t.change + t.txHash + t.signature
  }

  /** `txn_t::size`. */
  function TxnSize(t: Txn): nat {
    TXN_FIXED + |t.publicKey| + |t.signature|
  }

  function TxnsBytes(txns: seq<Txn>): (s: seq<byte>)
    requires forall t :: t in txns ==> Readable(t)
    ensures |s| == TxnsSize(txns)
  {
    if txns == [] then [] else TxnBytes(txns[0]) + TxnsBytes(txns[1..])
  }

  function TxnsSize(txns: seq<Txn>): nat {
    if txns == [] then 0 else TxnSize(txns[0]) + TxnsSize(txns[1..])
  }

  function BlockBytes(b: BlockData): (s: seq<byte>)
    requires BlockReadable(b)
    ensures |s| == BlockSize(b)
  {
    Encode32(|b.txns|) + b.reward + b.prevHash + b.blkHash + TxnsBytes(b.txns)
  }

  /** `block_t::size`. */
  function BlockSize(b: BlockData): nat {
    BLOCK_HEADER + TxnsSize(b.txns)
  }

  function ChainBytes(blocks: seq<BlockData>): seq<byte>
    requires AllReadable(blocks)
  {
    if blocks == [] then [] else BlockBytes(blocks[0]) + ChainBytes(blocks[1..])
  }

  // ---------- where the fields are ----------

  /** The place of each field of a transaction: two sizes, the amount, the key, four hashes, the signature. */
  lemma TxnFields(t: Txn)
    requires |t.publicKey| < 1024 && |t.signature| <= 1024
    ensures var buf, p, s := TxnBytes(t), |t.publicKey|, |t.signature|;
            && |buf| == 144 + p + s
            && buf[0..4] == Encode32(p) && buf[4..8] == Encode32(s) && buf[8..16] == Encode64(t.amount)
            && buf[16..16 + p] == t.publicKey && buf[16 + p..48 + p] == t.source && buf[48 + p..80 + p] == t.dest
            && buf[80 + p..112 + p] == t.change && buf[112 + p..144 + p] == t.txHash
            && buf[144 + p..144 + p + s] == t.signature
  {
    hide Encode32, Encode64;
  }

  /** The place of each part of a block: the count, three hashes, and then the transactions. */
  lemma BlockFields(b: BlockData)
    requires BlockReadable(b)
    ensures var buf := BlockBytes(b);
            && |buf| >= 100 && buf[0..4] == Encode32(|b.txns|) && buf[4..36] == b.reward && buf[36..68] == b.prevHash
            && buf[68..100] == b.blkHash && buf[100..] == TxnsBytes(b.txns)
  {
    hide Encode32, TxnsBytes;
  }

  /** Transactions, and blocks, follow one another. */
  lemma OneAfterTheOther(txns: seq<Txn>, blocks: seq<BlockData>)
    requires (forall t :: t in txns ==> Readable(t)) && AllReadable(blocks)
    ensures txns != [] ==> TxnsBytes(txns) == TxnBytes(txns[0]) + TxnsBytes(txns[1..])
    ensures blocks != [] ==> ChainBytes(blocks) == BlockBytes(blocks[0]) + ChainBytes(blocks[1..])
    ensures TxnsBytes([]) == [] && ChainBytes([]) == []
  {
  }

  // ---------- the buffer reader ----------

  /** `txn_t::read` from memory; `buf` is exactly the `bufsz` bytes it may look at. */
  function ParseTxn(buf: seq<byte>): (r: Parsed<Txn>)
    ensures r.Read? ==> TXN_FIXED <= r.size <= |buf| && r.size == TxnSize(r.value) && Readable(r.value)
    ensures r.Read? ==> |r.value.publicKey| < 1024 && |r.value.signature| <= 1024
  {
    if |buf| < TXN_HEADER then Failed
    else
      var p, s := ToSigned(Decode32(buf[0..4])), ToSigned(Decode32(buf[4..8]));
      var amount := Decode64(buf[8..16]);
      if p < 0 || p >= 1024 || s < 0 || s > 1024 || |buf| < TXN_FIXED + p + s then Failed
      else Read(TxnAt(buf, p, s, amount), TXN_FIXED + p + s)
  }

  function TxnAt(buf: seq<byte>, p: nat, s: nat, amount: uint64): Txn
    requires TXN_FIXED + p + s <= |buf|
  {
    var q := TXN_HEADER + p;
    Txn(buf[TXN_HEADER..q], buf[q..q + 32], buf[q + 32..q + 64], buf[q + 64..q + 96], amount,
        buf[q + 96..q + 128], buf[q + 128..q + 128 + s])
  }

  /** The transaction loop. It stops only when `count` reaches 0, so a negative count runs until a read fails. */
  function ParseTxns(buf: seq<byte>, count: int): (r: Parsed<seq<Txn>>)
    ensures r.Read? ==> r.size <= |buf| && |r.value| == count && r.size == TxnsSize(r.value)
    ensures r.Read? ==> forall t :: t in r.value ==> Readable(t)
    decreases |buf|
  {
    if count == 0 then Read([], 0)
    else match ParseTxn(buf)
      case Failed => Failed
      case Read(t, n) =>
        match ParseTxns(buf[n..], count - 1)
        case Failed => Failed
        case Read(ts, m) => Read([t] + ts, n + m)
  }

  function BlockCount(buf: seq<byte>): int
    requires |buf| >= 4
  {
    ToSigned(Decode32(buf[0..4]))
  }

  function BlockOf(buf: seq<byte>, txns: seq<Txn>): BlockData
    requires |buf| >= BLOCK_HEADER
  {
    BlockData(buf[4..36], txns, buf[36..68], buf[68..100])
  }

  /** `block_t::read` from memory, without the link to the previous block. */
  function ParseBlock(buf: seq<byte>): (r: Parsed<BlockData>)
    ensures r.Read? ==> BLOCK_HEADER <= r.size <= |buf| && r.size == BlockSize(r.value) && BlockReadable(r.value)
  {
    if |buf| < BLOCK_HEADER then Failed
    else match ParseTxns(buf[BLOCK_HEADER..], BlockCount(buf))
      case Failed => Failed
      case Read(txns, n) => Read(BlockOf(buf, txns), BLOCK_HEADER + n)
  }

  /** The blocks a reader's outer loop sees: it goes on until the buffer is used up or a block fails to parse. */
  function ParseChain(buf: seq<byte>): (r: seq<BlockData>)
    ensures AllReadable(r)
    decreases |buf|
  {
    match ParseBlock(buf)
    case Failed => []
    case Read(b, n) => [b] + ParseChain(buf[n..])
  }

  // ---------- the stream reader ----------

  /** A transaction of which only the amount has been read. */
  function BlankTxn(amount: uint64): Txn {
    Txn([], ZERO_HASH, ZERO_HASH, ZERO_HASH, amount, ZERO_HASH, [])
  }

  /**
   * `txn_t::read` from a stream; `Failed` means that the stream itself failed. When the sizes are out of range it
   * gives up right after the header, but its caller only asks whether the stream is still good.
   */
  function StreamTxn(rest: seq<byte>): (r: Parsed<Txn>)
    ensures r.Read? ==> TXN_HEADER <= r.size <= |rest|
  {
    if |rest| < TXN_HEADER then Failed
    else
      var p, s := ToSigned(Decode32(rest[0..4])), ToSigned(Decode32(rest[4..8]));
      var amount := Decode64(rest[8..16]);
      if p < 0 || p >= 1024 || s < 0 || s > 1024 then
        Read(BlankTxn(amount), TXN_HEADER)
      else if |rest| < TXN_FIXED + p + s then Failed
      else Read(TxnAt(rest, p, s, amount), TXN_FIXED + p + s)
  }

  function StreamTxns(rest: seq<byte>, count: nat): (r: Parsed<seq<Txn>>)
    ensures r.Read? ==> r.size <= |rest|
  {
    if count == 0 then Read([], 0)
    else match StreamTxn(rest)
      case Failed => Failed
      case Read(t, n) =>
        match StreamTxns(rest[n..], count - 1)
        case Failed => Failed
        case Read(ts, m) => Read([t] + ts, n + m)
  }

  function StreamBlock(rest: seq<byte>): Parsed<BlockData> {
    if |rest| < 4 || BlockCount(rest) < 0 || BlockCount(rest) > MAX_TRANSACTIONS || |rest| < BLOCK_HEADER then Failed
    else match StreamTxns(rest[BLOCK_HEADER..], BlockCount(rest))
      case Failed => Failed
      case Read(txns, n) => Read(BlockOf(rest, txns), BLOCK_HEADER + n)
  }

  // ---------- writing then reading ----------

  lemma Peel<T>(a: seq<T>, b: seq<T>)
    ensures (a + b)[..|a|] == a && (a + b)[|a|..] == b
  {
  }

  /** Cutting the concatenation of a transaction's nine fields gives them back. */
  lemma CutTxn(p: seq<byte>, s: seq<byte>, m: seq<byte>, key: seq<byte>, a: Hash, b: Hash, c: Hash, d: Hash,
               sig: seq<byte>, rest: seq<byte>)
    requires |p| == |s| == 4 && |m| == 8
    ensures var buf, q := p + s + m + key + a + b + c + d + sig + rest, TXN_HEADER + |key|;
            && buf[0..4] == p && buf[4..8] == s && buf[8..16] == m && buf[TXN_HEADER..q] == key
            && buf[q..q + 32] == a && buf[q + 32..q + 64] == b && buf[q + 64..q + 96] == c
            && buf[q + 96..q + 128] == d && buf[q + 128..q + 128 + |sig|] == sig
  {
  }

  /** Gluing the nine cuts of a transaction's bytes gives the bytes back. */
  lemma GlueTxn(buf: seq<byte>, p: nat, s: nat)
    requires TXN_FIXED + p + s <= |buf|
    ensures var q := TXN_HEADER + p;
            buf[0..4] + buf[4..8] + buf[8..16] + buf[TXN_HEADER..q] + buf[q..q + 32] + buf[q + 32..q + 64]
            + buf[q + 64..q + 96] + buf[q + 96..q + 128] + buf[q + 128..q + 128 + s] == buf[..TXN_FIXED + p + s]
  {
  }

  lemma ParseTxnWritten(t: Txn, rest: seq<byte>)
    requires Readable(t)
    ensures ParseTxn(TxnBytes(t) + rest) == Read(t, TxnSize(t))
  {
    var p, s := |t.publicKey|, |t.signature|;
    CutTxn(Encode32(p), Encode32(s), Encode64(t.amount), t.publicKey, t.source, t.dest, t.change, t.txHash,
           t.signature, rest);
    Decode32Encode(p);
    Decode32Encode(s);
    Decode64Encode(t.amount);
  }

  lemma {:induction false} ParseTxnsWritten(txns: seq<Txn>, rest: seq<byte>)
    requires forall t :: t in txns ==> Readable(t)
    ensures ParseTxns(TxnsBytes(txns) + rest, |txns|) == Read(txns, TxnsSize(txns))
  {
    hide TxnBytes, ParseTxn, Encode32, Decode32;
    if txns != [] {
      var t, more := txns[0], TxnsBytes(txns[1..]) + rest;
      ParseTxnWritten(t, more);
      ParseTxnsWritten(txns[1..], rest);
      assert TxnsBytes(txns) + rest == TxnBytes(t) + more;
      Peel(TxnBytes(t), more);
      assert [t] + txns[1..] == txns;
    }
  }

  lemma BlockLayout(b: BlockData, rest: seq<byte>)
    requires BlockReadable(b)
    ensures var buf := BlockBytes(b) + rest;
            && BlockCount(buf) == |b.txns| && BlockOf(buf, b.txns) == b
            && buf[BLOCK_HEADER..] == TxnsBytes(b.txns) + rest
  {
    var buf := BlockBytes(b) + rest;
    assert buf[0..4] == Encode32(|b.txns|);
    Decode32Encode(|b.txns|);
    assert buf[4..36] == b.reward;
    assert buf[36..68] == b.prevHash;
    assert buf[68..100] == b.blkHash;
  }

  /** Reading back a written block recovers every field and takes exactly the bytes written. */
  lemma ParseBlockWritten(b: BlockData, rest: seq<byte>)
    requires BlockReadable(b)
    ensures ParseBlock(BlockBytes(b) + rest) == Read(b, BlockSize(b))
  {
    BlockLayout(b, rest);
    ParseTxnsWritten(b.txns, rest);
  }

  lemma {:induction false} ParseChainWritten(blocks: seq<BlockData>)
    requires AllReadable(blocks)
    ensures ParseChain(ChainBytes(blocks)) == blocks
  {
    if blocks != [] {
      var b, more := blocks[0], ChainBytes(blocks[1..]);
      ParseBlockWritten(b, more);
      Peel(BlockBytes(b), more);
      ParseChainWritten(blocks[1..]);
    }
  }

  lemma {:induction false} ChainBytesConcat(a: seq<BlockData>, b: seq<BlockData>)
    requires AllReadable(a) && AllReadable(b)
    ensures AllReadable(a + b)
    ensures ChainBytes(a + b) == ChainBytes(a) + ChainBytes(b)
  {
    if a == [] {
      assert a + b == b;
    } else {
      assert (a + b)[1..] == a[1..] + b;
      ChainBytesConcat(a[1..], b);
    }
  }

  lemma ChainBytesLast(init: seq<BlockData>, last: BlockData)
    requires AllReadable(init) && BlockReadable(last)
    ensures AllReadable(init + [last])
    ensures ChainBytes(init + [last]) == ChainBytes(init) + BlockBytes(last)
  {
    hide BlockBytes, BlockReadable;
    ChainBytesConcat(init, [last]);
    assert [last][1..] == [];
    assert ChainBytes([last]) == BlockBytes(last) + ChainBytes([]);
    assert BlockBytes(last) + [] == BlockBytes(last);
  }

  // ---------- reading then writing ----------

  lemma WriteParsedTxn(buf: seq<byte>)
    requires ParseTxn(buf).Read?
    ensures TxnBytes(ParseTxn(buf).value) == buf[..ParseTxn(buf).size]
  {
    var t := ParseTxn(buf).value;
    GlueTxn(buf, |t.publicKey|, |t.signature|);
    assert Encode32(|t.publicKey|) == buf[0..4] && Encode32(|t.signature|) == buf[4..8];
  }

  lemma GlueSlices<T>(buf: seq<T>, n: nat, m: nat)
    requires n + m <= |buf|
    ensures buf[..n] + buf[n..][..m] == buf[..n + m]
  {
  }

  lemma {:induction false} WriteParsedTxns(buf: seq<byte>, count: int)
    requires ParseTxns(buf, count).Read?
    ensures TxnsBytes(ParseTxns(buf, count).value) == buf[..ParseTxns(buf, count).size]
    decreases |buf|
  {
    if count != 0 {
      WriteParsedTxn(buf);
      var t, n := ParseTxn(buf).value, ParseTxn(buf).size;
      WriteParsedTxns(buf[n..], count - 1);
      var ts, m := ParseTxns(buf[n..], count - 1).value, ParseTxns(buf[n..], count - 1).size;
      GlueSlices(buf, n, m);
      assert ([t] + ts)[1..] == ts;
    }
  }

  lemma GlueBlock(buf: seq<byte>, n: nat)
    requires BLOCK_HEADER <= n <= |buf|
    ensures buf[0..4] + buf[4..36] + buf[36..68] + buf[68..100] + buf[BLOCK_HEADER..][..n - BLOCK_HEADER] == buf[..n]
  {
  }

  /** The buffer reader accepts only what the writer's format can produce: writing the result gives the bytes back. */
  lemma WriteParsedBlock(buf: seq<byte>)
    requires ParseBlock(buf).Read?
    ensures BlockBytes(ParseBlock(buf).value) == buf[..ParseBlock(buf).size]
  {
    var b, n := ParseBlock(buf).value, ParseBlock(buf).size;
    WriteParsedTxns(buf[BLOCK_HEADER..], BlockCount(buf));
    assert Encode32(|b.txns|) == buf[0..4];
    GlueBlock(buf, n);
  }

  /** Whatever the buffer holds, the outer loop stops at the first block that fails to parse, and keeps those before. */
  lemma {:induction false} WriteParsedChain(buf: seq<byte>)
    ensures var bytes := ChainBytes(ParseChain(buf));
            |bytes| <= |buf| && bytes == buf[..|bytes|] && ParseBlock(buf[|bytes|..]) == Failed
    decreases |buf|
  {
    hide ParseBlock, BlockBytes;
    match ParseBlock(buf) {
      case Failed =>
        assert buf[0..] == buf && ParseChain(buf) == [];
      case Read(b, n) =>
        WriteParsedBlock(buf);
        WriteParsedChain(buf[n..]);
        assert ParseChain(buf)[1..] == ParseChain(buf[n..]);
        TakeDropMore(buf, n, |ChainBytes(ParseChain(buf[n..]))|);
    }
  }

  lemma TakeDropMore(s: seq<byte>, n: nat, k: nat)
    requires n + k <= |s|
    ensures s[..n] + s[n..][..k] == s[..n + k] && s[n..][k..] == s[n + k..]
  {
  }

  /** A negative transaction count never yields a block. */
  lemma NegativeCountFails(buf: seq<byte>)
    requires |buf| >= BLOCK_HEADER && BlockCount(buf) < 0
    ensures ParseBlock(buf) == Failed
  {
  }

  // ---------- the two readers ----------

  /** The sizes in the header of every transaction the stream reader meets are in range. */
  predicate SaneSizes(rest: seq<byte>, count: nat) {
    count == 0 || |rest| < TXN_HEADER
    || (var p, s := ToSigned(Decode32(rest[0..4])), ToSigned(Decode32(rest[4..8]));
        && 0 <= p < 1024 && 0 <= s <= 1024
        && (StreamTxn(rest).Read? ==> SaneSizes(rest[StreamTxn(rest).size..], count - 1)))
  }

  lemma {:induction false} TxnReadersAgreeIff(buf: seq<byte>, count: nat)
    ensures SaneSizes(buf, count) ==> StreamTxns(buf, count) == ParseTxns(buf, count)
    ensures !SaneSizes(buf, count) ==> ParseTxns(buf, count) == Failed
    decreases count
  {
    hide Decode32, Decode64, TxnAt;
    if count != 0 && StreamTxn(buf).Read? {
      TxnReadersAgreeIff(buf[StreamTxn(buf).size..], count - 1);
    }
  }

  /** The stream reader agrees on a block that the buffer reader accepts exactly if its count is within the limit. */
  lemma StreamReadsWhatBufferReads(buf: seq<byte>)
    requires ParseBlock(buf).Read?
    ensures BlockCount(buf) <= MAX_TRANSACTIONS ==> StreamBlock(buf) == ParseBlock(buf)
    ensures BlockCount(buf) > MAX_TRANSACTIONS ==> StreamBlock(buf) == Failed
  {
    TxnReadersAgreeIff(buf[BLOCK_HEADER..], BlockCount(buf));
  }

  /** No block of more than 64 transactions that the buffer reader reads back is read by the stream reader. */
  lemma ManyTxnsSplitReaders(b: BlockData, rest: seq<byte>)
    requires BlockReadable(b)
    ensures var buf := BlockBytes(b) + rest;
            ParseBlock(buf) == Read(b, BlockSize(b)) && (StreamBlock(buf) == Failed <==> |b.txns| > MAX_TRANSACTIONS)
  {
    hide BlockBytes, ParseBlock, BlockReadable;
    ParseBlockWritten(b, rest);
    BlockLayout(b, rest);
    StreamReadsWhatBufferReads(BlockBytes(b) + rest);
  }

  function BigKeyTxn(): (s: seq<byte>)
    ensures |s| == TXN_HEADER
  {
    Encode32(1024) + Encode32(1) + Encode64(5)
  }

  /** One transaction, whose key has 1024 bytes by its header, and nothing more. */
  function BigKeyBlock(): (s: seq<byte>)
    ensures |s| == BLOCK_HEADER + TXN_HEADER
  {
    Encode32(1) + ZERO_HASH + ZERO_HASH + ZERO_HASH + BigKeyTxn()
  }

  lemma BigKeyHeader()
    ensures var t := BigKeyTxn();
            Decode32(t[0..4]) == 1024 && Decode32(t[4..8]) == 1 && Decode64(t[8..16]) == 5
  {
    var t := BigKeyTxn();
    assert t[0..4] == Encode32(1024) && t[4..8] == Encode32(1) && t[8..16] == Encode64(5);
    Decode32Encode(1024);
    Decode32Encode(1);
    Decode64Encode(5);
  }

  /** The stream reader takes this buffer for a block with a transaction of 5, the buffer reader rejects it. */
  lemma BigKeySplitsReaders()
    ensures var buf := BigKeyBlock();
            && ParseBlock(buf) == Failed
            && StreamBlock(buf) == Read(BlockData(ZERO_HASH, [BlankTxn(5)], ZERO_HASH, ZERO_HASH), |buf|)
  {
    hide Encode32, Encode64, Decode32, Decode64, Zeros;
    var buf, t := BigKeyBlock(), BigKeyTxn();
    BigKeyHeader();
    assert buf[0..4] == Encode32(1) && buf[BLOCK_HEADER..] == t;
    Decode32Encode(1);
    assert buf[4..36] == ZERO_HASH && buf[36..68] == ZERO_HASH && buf[68..100] == ZERO_HASH;
    assert ToSigned(1024) == 1024 && ToSigned(1) == 1 && BlockCount(buf) == 1;
    assert StreamTxn(t) == Read(BlankTxn(5), TXN_HEADER);
    assert StreamTxns(t[TXN_HEADER..], 0) == Read([], 0);
    assert StreamTxns(t, 1) == Read([BlankTxn(5)] + [], TXN_HEADER);
    assert [BlankTxn(5)] + [] == [BlankTxn(5)];
    assert ParseTxn(t) == Failed;
    assert BlockOf(buf, [BlankTxn(5)]) == BlockData(ZERO_HASH, [BlankTxn(5)], ZERO_HASH, ZERO_HASH);
  }

  /** The converse holds exactly when the stream reader met no out-of-range size. */
  lemma BufferReadsWhatStreamReads(buf: seq<byte>)
    requires StreamBlock(buf).Read?
    ensures StreamBlock(buf) == ParseBlock(buf) <==> SaneSizes(buf[BLOCK_HEADER..], BlockCount(buf))
  {
    TxnReadersAgreeIff(buf[BLOCK_HEADER..], BlockCount(buf));
  }

  lemma StreamBlockWritten(b: BlockData, rest: seq<byte>)
    requires BlockWritable(b)
    ensures StreamBlock(BlockBytes(b) + rest) == Read(b, BlockSize(b))
  {
    ParseBlockWritten(b, rest);
    StreamReadsWhatBufferReads(BlockBytes(b) + rest);
  }
}
