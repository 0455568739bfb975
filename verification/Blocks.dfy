/** The mutable block object: its fields, its links and the operations on them. */
module Blocks {
  import opened Bytes
  import opened Ledger
  import opened Codec

  class Block {
    var valid: bool
    var balances: Balances
    var length: nat
    var reward: Hash
    var txns: seq<Txn>
    var prevHash: Hash
    var blkHash: Hash
    var prevBlock: Block?

    function Data(): BlockData
      reads this
    {
      BlockData(reward, txns, prevHash, blkHash)
    }

    /** What `reset_balances` starts a validation from. */
    function Inherited(): Balances
      reads this, prevBlock
    {
      if prevBlock == null then map[] else prevBlock.balances
    }

    constructor ()
      ensures !valid && length == 1 && prevBlock == null && balances == map[]
      ensures Data() == BlockData(ZERO_HASH, [], ZERO_HASH, ZERO_HASH)
    {
      valid, length, prevBlock, balances := false, 1, null, map[];
      reward, txns, prevHash, blkHash := ZERO_HASH, [], ZERO_HASH, ZERO_HASH;
    }

    constructor After(prev: Block)
      ensures !valid && length == prev.length + 1 && prevBlock == prev && balances == prev.balances
      ensures Data() == BlockData(ZERO_HASH, [], prev.blkHash, ZERO_HASH)
    {
      valid, length, prevBlock, balances := false, prev.length + 1, prev, prev.balances;
      reward, txns, prevHash, blkHash := ZERO_HASH, [], prev.blkHash, ZERO_HASH;
    }

    /** The two assertions at its end become the precondition. */
    method IsCoinbase() returns (r: bool)
      requires prevHash == ZERO_HASH ==> prevBlock == null && length == 1
      ensures r <==> prevHash == ZERO_HASH
    {
      for i := 0 to HASH_SIZE
        invariant forall j :: 0 <= j < i ==> prevHash[j] == 0
      {
        if prevHash[i] != 0 {
          return false;
        }
      }
      assert prevHash == ZERO_HASH;
      assert prevBlock == null && length == 1;
      return true;
    }

    method ComputeBlockHash(cr: Crypto) returns (h: Hash)
      ensures h == BlockDigest(cr, Data()) == (cr.sha256)(TxHashes(txns) + reward + prevHash)
    {
      var fed := [];
      for i := 0 to |txns|
        invariant fed == TxHashes(txns[..i])
      {
        assert txns[..i + 1][..i] == txns[..i];
        fed := fed + txns[i].txHash;
      }
      assert txns[..|txns|] == txns;
      h := (cr.sha256)(fed + reward + prevHash);
    }

    method SetHash(cr: Crypto)
      modifies this`blkHash
      ensures blkHash == BlockDigest(cr, Data())
    {
      var h := ComputeBlockHash(cr);
      blkHash := h;
    }

    method ResetBalances()
      modifies this`balances
      ensures balances == old(Inherited())
    {
      balances := if prevBlock == null then map[] else prevBlock.balances;
    }

    method Validate(cr: Crypto) returns (ok: bool)
      requires prevBlock != this
      modifies this`valid, this`balances
      ensures Run(balances, ok) == ValidateBlock(cr, Data(), old(Inherited()))
      ensures valid == ok
      ensures ok ==> blkHash == (cr.sha256)(TxHashes(txns) + reward + prevHash)
      ensures ok ==> forall t :: t in txns ==>
                && t.amount > 0 && (cr.sha256)(t.publicKey) == t.source
                && t.txHash == (cr.sha256)(t.publicKey + t.source + t.dest + t.change + Encode64(t.amount))
                && (cr.verify)(t.publicKey, t.txHash, t.signature)
    {
      BlockValidIff(cr, Data(), Inherited());
      ResetBalances();
      valid := false;
      ghost var start := balances;
      for i := 0 to |txns|
        invariant !valid
        invariant RunTxns(cr, txns, start) == RunTxns(cr, txns[i..], balances)
      {
        var t := txns[i];
        assert txns[i..][1..] == txns[i + 1..];
        if !TxnValid(cr, t) {
          return false;
        }
        if !Available(t, balances) {
          return false;
        }
        balances := Update(t, balances);
      }
      balances := Credit(balances, reward, BLOCK_REWARD);
      var computed := ComputeBlockHash(cr);
      valid := HashEqual(computed, blkHash);
      return valid;
    }

    /** Adds the transaction and, when asked to check it, spends from the balances kept so far. */
    method AddTransaction(cr: Crypto, t: Txn, check: bool) returns (ok: bool)
      modifies this`txns, this`balances
      ensures ok <==> !check || (TxnValid(cr, t) && Available(t, old(balances)))
      ensures check ==>
                (ok <==>
                  && t.amount > 0 && (cr.sha256)(t.publicKey) == t.source
                  && t.txHash == (cr.sha256)(t.publicKey + t.source + t.dest + t.change + Encode64(t.amount))
                  && (cr.verify)(t.publicKey, t.txHash, t.signature)
                  && t.source in old(balances) && old(balances)[t.source] >= t.amount)
      ensures txns == if ok then old(txns) + [t] else old(txns)
      ensures balances == if ok && check then Update(t, old(balances)) else old(balances)
    {
      if check {
        if !TxnValid(cr, t) {
          return false;
        }
        if !Available(t, balances) {
          return false;
        }
      }
      txns := txns + [t];
      if check {
        balances := Update(t, balances);
      }
      return true;
    }

    /** Links the block to `prev`; a null link keeps the length. Either way the balances start over. */
    method SetPrevBlock(prev: Block?)
      requires prev != this
      modifies this`prevBlock, this`length, this`balances
      ensures prevBlock == prev
      ensures length == if prev == null then old(length) else prev.length + 1
      ensures balances == if prev == null then map[] else prev.balances
    {
      prevBlock := prev;
      if prevBlock != null {
        length := prev.length + 1;
      }
      ResetBalances();
    }

    method Size() returns (n: nat)
      ensures n == BlockSize(Data())
    {
      n := 4 + |reward| + |prevHash| + |blkHash|;
      for i := 0 to |txns|
        invariant n + TxnsSize(txns[i..]) == BlockSize(Data())
      {
        assert txns[i..][1..] == txns[i + 1..];
        n := n + TxnSize(txns[i]);
      }
    }

    method Write(out: seq<byte>) returns (out': seq<byte>)
      requires BlockWritable(Data())
      ensures out' == out + BlockBytes(Data())
    {
      hide TxnBytes, Encode32;
      var header := Encode32(|txns|) + reward + prevHash + blkHash;
      out' := out + header;
      assert out' + TxnsBytes(txns) == out + BlockBytes(Data());
      for i := 0 to |txns|
        invariant forall t :: t in txns[i..] ==> Readable(t)
        invariant out' + TxnsBytes(txns[i..]) == out + BlockBytes(Data())
      {
        assert txns[i] in txns;
        assert txns[i..][1..] == txns[i + 1..];
        ghost var before, rest := out', TxnsBytes(txns[i + 1..]);
        out' := out' + TxnBytes(txns[i]);
        assert before + (TxnBytes(txns[i]) + rest) == out' + rest;
      }
      assert out' + [] == out';
    }

    /** The link step both readers end with. */
    method LinkThrough(bmap: map<Hash, Block>)
      requires prevBlock == null && length == 1 && this !in bmap.Values
      modifies this`prevBlock, this`length, this`balances
      ensures prevBlock == if prevHash != ZERO_HASH && prevHash in bmap then bmap[prevHash] else null
      ensures length == if prevBlock == null then 1 else prevBlock.length + 1
      ensures prevHash == ZERO_HASH ==> balances == old(balances)
      ensures prevHash != ZERO_HASH ==> balances == if prevBlock == null then map[] else prevBlock.balances
    {
      var coinbase := IsCoinbase();
      if !coinbase {
        if prevHash in bmap {
          SetPrevBlock(bmap[prevHash]);
        } else {
          prevBlock := null;
          balances := map[];
        }
      }
    }

    /** The transaction loop of `Read`, from `offset` on. */
    method ReadTxns(data: seq<byte>, offset: nat, blkSz: nat, count: int) returns (ok: bool, pos: nat, left: nat)
      requires offset + blkSz <= |data|
      modifies this`txns
      ensures offset <= pos && pos + left == offset + blkSz
      ensures ParseTxns(data[offset..offset + blkSz], count)
              == if ok then Codec.Read(txns, pos - offset) else Failed
    {
      hide ParseTxn, ParseTxns, Ahead;
      pos, left := offset, blkSz;
      txns := [];
      AheadNothing(ParseTxns(data[pos..pos + left], count));
      var i := 0;
      while i != count
        invariant offset <= pos && pos + left == offset + blkSz
        invariant ParseTxns(data[offset..offset + blkSz], count)
                  == Ahead(txns, pos - offset, ParseTxns(data[pos..pos + left], count - i))
        decreases left
      {
        TxnsAhead(txns, pos - offset, data[pos..pos + left], count - i);
        var r := ParseTxn(data[pos..pos + left]);
        match r {
          case Failed =>
            return false, pos, left;
          case Read(t, n) =>
            SubSlice(data, pos, left, n, left);
            left := left - n;
            pos := pos + n;
            txns := txns + [t];
            i := i + 1;
        }
      }
      TxnsAhead(txns, pos - offset, data[pos..pos + left], 0);
      return true, pos, left;
    }

    /** The count and the three fixed fields, from the front of the buffer. */
    method ReadHeader(data: seq<byte>, offset: nat, blkSz: nat) returns (count: int)
      requires offset + blkSz <= |data| && blkSz >= BLOCK_HEADER
      modifies this`txns, this`length, this`reward, this`prevHash, this`blkHash
      ensures count == BlockCount(data[offset..offset + blkSz]) && length == 1
      ensures Data() == BlockOf(data[offset..offset + blkSz], [])
    {
      hide Decode32, ToSigned;
      var pos := offset;
      SubSlice(data, offset, blkSz, 0, 4);
      count := ToSigned(Decode32(data[pos..pos + 4]));
      pos := pos + 4;
      txns := [];
      length := 1;
      SubSlice(data, offset, blkSz, 4, 36);
      reward := data[pos..pos + 32];
      pos := pos + 32;
      SubSlice(data, offset, blkSz, 36, 68);
      prevHash := data[pos..pos + 32];
      pos := pos + 32;
      SubSlice(data, offset, blkSz, 68, 100);
      blkHash := data[pos..pos + 32];
    }

    /**
     * `block_t::read` from memory. The result is 0, or exactly the number of bytes consumed, and only
     * `data[offset..offset + blkSz]` is looked at.
     */
    method Read(data: seq<byte>, offset: nat, blkSz: nat, bmap: map<Hash, Block>) returns (size: nat)
      requires offset + blkSz <= |data|
      requires prevBlock == null && length == 1 && this !in bmap.Values
      modifies this
      ensures valid == old(valid)
      ensures size == 0 <==> ParseBlock(data[offset..offset + blkSz]).Failed?
      ensures size == 0 ==> prevBlock == null && length == 1
      ensures size > 0 ==> ParseBlock(data[offset..offset + blkSz]) == Codec.Read(Data(), size)
      ensures size > 0 ==> prevBlock == if prevHash != ZERO_HASH && prevHash in bmap then bmap[prevHash] else null
      ensures size > 0 ==> length == if prevBlock == null then 1 else prevBlock.length + 1
    {
      hide ParseTxns, BlockCount, BlockOf;
      ghost var buf := data[offset..offset + blkSz];
      if blkSz < BLOCK_HEADER {
        return 0;
      }
      var count := ReadHeader(data, offset, blkSz);
      SubSlice(data, offset, blkSz, BLOCK_HEADER, blkSz);
      var ok, pos, left := ReadTxns(data, offset + BLOCK_HEADER, blkSz - BLOCK_HEADER, count);
      if !ok {
        return 0;
      }
      LinkThrough(bmap);
      SameFields(buf, [], txns);
      size := pos - offset;
      assert size == blkSz - left;
    }

    /**
     * Walks down to the bottom of the chain and numbers the blocks on the way back. It ends because the chain does:
     * `path` is that chain, from the bottom up to this block.
     */
    method RecomputeLength(ghost path: seq<Block>)
      requires IsPath(path) && path[|path| - 1] == this
      modifies path`length
      ensures forall i :: 0 <= i < |path| ==> path[i].length == i + 1
      decreases |path|
    {
      PathDistinct(path);
      assert |path| > 1 ==> path[|path| - 1].prevBlock == path[|path| - 2];
      if prevBlock != null {
        ghost var below := path[..|path| - 1];
        prevBlock.RecomputeLength(below);
        length := prevBlock.length + 1;
        assert forall i :: 0 <= i < |below| ==> path[i] == below[i];
      } else {
        length := 1;
      }
    }
  }

  /** The transactions are the only part of a block that is not at a fixed place. */
  lemma SameFields(buf: seq<byte>, a: seq<Txn>, b: seq<Txn>)
    requires |buf| >= BLOCK_HEADER
    ensures BlockOf(buf, a).(txns := b) == BlockOf(buf, b)
  {
  }

  lemma SubSlice<T>(s: seq<T>, offset: nat, len: nat, a: nat, b: nat)
    requires offset + len <= |s| && a <= b <= len
    ensures s[offset..offset + len][a..b] == s[offset + a..offset + b]
    ensures b == len ==> s[offset..offset + len][a..] == s[offset + a..offset + b]
  {
    var t := s[offset..offset + len];
    assert forall i :: 0 <= i < b - a ==> t[a..b][i] == s[offset + a..offset + b][i];
    assert t[..len] == t;
  }

  /** The result of the transaction loop once `done` transactions, `size` bytes long, are read. */
  function Ahead(done: seq<Txn>, size: nat, rest: Parsed<seq<Txn>>): Parsed<seq<Txn>> {
    match rest
    case Failed => Failed
    case Read(ts, m) => Read(done + ts, size + m)
  }

  lemma AheadNothing(r: Parsed<seq<Txn>>)
    ensures Ahead([], 0, r) == r
  {
    if r.Read? {
      assert [] + r.value == r.value;
    }
  }

  lemma TxnsAhead(done: seq<Txn>, size: nat, buf: seq<byte>, count: int)
    ensures var all := Ahead(done, size, ParseTxns(buf, count));
            if count == 0 then all == Codec.Read(done, size)
            else match ParseTxn(buf)
              case Failed => all == Failed
              case Read(t, n) => all == Ahead(done + [t], size + n, ParseTxns(buf[n..], count - 1))
  {
    hide ParseTxn;
    if count == 0 {
      assert done + [] == done;
    } else if ParseTxn(buf).Read? {
      var t, n := ParseTxn(buf).value, ParseTxn(buf).size;
      var rest := ParseTxns(buf[n..], count - 1);
      if rest.Read? {
        assert done + ([t] + rest.value) == done + [t] + rest.value;
      }
    }
  }

  /** A chain of blocks from a bottom block without predecessor upwards. */
  ghost predicate IsPath(path: seq<Block>)
    reads path
  {
    && path != [] && path[0].prevBlock == null
    && forall i :: 0 < i < |path| ==> path[i].prevBlock == path[i - 1]
  }

  lemma {:induction false} PathDistinct(path: seq<Block>)
    requires IsPath(path)
    ensures forall i, j :: 0 <= i < j < |path| ==> path[i] != path[j]
  {
    forall i, j | 0 <= i < j < |path| ensures path[i] != path[j] {
      NotBelow(path, i, j);
    }
  }

  lemma {:induction false} NotBelow(path: seq<Block>, i: nat, j: nat)
    requires IsPath(path) && i < j < |path|
    ensures path[i] != path[j]
    decreases i
  {
    assert path[j].prevBlock == path[j - 1];
    if i > 0 {
      assert path[i].prevBlock == path[i - 1];
      NotBelow(path, i - 1, j - 1);
    }
  }
}
