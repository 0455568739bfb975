/** The parallel block hasher: threads claim 256-byte blocks under a mutex and store one hash for each. */
module BlockHash {
  import opened Wrappers
  import opened Bytes

  const BLOCK_SIZE: nat := 256
  const MAX_THREADS: nat := 64
  const SIZEOF_LONG: nat := 8
  const SIZEOF_UNSIGNED: nat := 4

  /** One turn of the mixing step on `unsigned` values; its floating-point arithmetic is left open. */
  type Mix = (uint32, uint32) -> uint32

  // ---------- the hash of one block ----------

  /** The `unsigned` stored at `p`, its lowest byte first. */
  function WordAt(data: seq<byte>, p: nat): (w: uint32)
    requires p + SIZEOF_UNSIGNED <= |data|
    ensures w == data[p] as int + 0x100 * data[p + 1] as int + 0x1_0000 * data[p + 2] as int
                 + 0x100_0000 * data[p + 3] as int
  {
    Decode32Value(data[p..p + SIZEOF_UNSIGNED]);
    Decode32(data[p..p + SIZEOF_UNSIGNED])
  }

  function WordsAt(data: seq<byte>, p: nat, n: nat): (ws: seq<uint32>)
    requires p + SIZEOF_UNSIGNED * n <= |data|
    ensures |ws| == n && forall i :: 0 <= i < n ==> ws[i] == WordAt(data, p + SIZEOF_UNSIGNED * i)
  {
    if n == 0 then [] else WordsAt(data, p, n - 1) + [WordAt(data, p + SIZEOF_UNSIGNED * (n - 1))]
  }

  function MixAll(mix: Mix, words: seq<uint32>): uint32 {
    if words == [] then 0 else mix(MixAll(mix, words[..|words| - 1]), words[|words| - 1])
  }

  /** How many words of a block are read when `left` bytes remain: at most 32, and never the last whole one. */
  function WordsRead(left: nat): (n: nat)
    ensures SIZEOF_UNSIGNED * n <= left && SIZEOF_UNSIGNED * n <= BLOCK_SIZE / 2
    ensures n <= 32 && (n > 0 ==> 4 * (n - 1) + 8 <= left) && (n < 32 ==> left < 4 * n + 8)
  {
    if left < SIZEOF_LONG then 0
    else if left / SIZEOF_UNSIGNED - 1 < BLOCK_SIZE / SIZEOF_LONG then left / SIZEOF_UNSIGNED - 1
    else BLOCK_SIZE / SIZEOF_LONG
  }

  function HashAt(mix: Mix, data: seq<byte>, p: nat): uint32
    requires p <= |data|
  {
    MixAll(mix, WordsAt(data, p, WordsRead(|data| - p)))
  }

  /**
   * The words of the block at `p`, in numbers: at most 32 from it on, as long as eight bytes are left, each made of
   * four bytes, the lowest first.
   */
  ghost predicate IsWordsRead(data: seq<byte>, p: nat, words: seq<uint32>)
    requires p <= |data|
  {
    && |words| <= 32 && (|words| > 0 ==> p + 4 * (|words| - 1) + 8 <= |data|)
    && (|words| < 32 ==> |data| < p + 4 * |words| + 8)
    && forall k :: 0 <= k < |words| ==>
         words[k] == data[p + 4 * k] as int + 0x100 * data[p + 4 * k + 1] as int
                     + 0x1_0000 * data[p + 4 * k + 2] as int + 0x100_0000 * data[p + 4 * k + 3] as int
  }

  /** There is just one such list, and its words are what is mixed. */
  lemma HashedWords(mix: Mix, data: seq<byte>, p: nat, words: seq<uint32>)
    requires p <= |data|
    ensures IsWordsRead(data, p, WordsAt(data, p, WordsRead(|data| - p)))
    ensures IsWordsRead(data, p, words) ==> HashAt(mix, data, p) == MixAll(mix, words)
  {
    hide WordsRead, MixAll, WordAt;
    var read := WordsAt(data, p, WordsRead(|data| - p));
    if IsWordsRead(data, p, words) {
      assert words == read;
    }
  }

  /** Nothing mixed is 0, and one more word is one more turn on what the words before it gave. */
  lemma MixesInOrder(mix: Mix, words: seq<uint32>, w: uint32)
    ensures MixAll(mix, []) == 0 && MixAll(mix, words + [w]) == mix(MixAll(mix, words), w)
  {
    assert (words + [w])[..|words|] == words;
  }

  /** `endptr - ptr` compared with a `sizeof`: the signed difference is converted to 64 unsigned bits. */
  predicate TooShort(p: nat, end: nat)
  {
    (end - p) % UINT64_LIMIT < SIZEOF_LONG
  }

  lemma MoreToRead(left: nat, n: nat)
    requires n < BLOCK_SIZE / SIZEOF_LONG && SIZEOF_UNSIGNED * n <= left < UINT64_LIMIT
    ensures n < WordsRead(left) <==> !TooShort(SIZEOF_UNSIGNED * n, left)
  {
  }

  /** Every read lies in the data, and the result is the words read, mixed in order. */
  method CalculateHash(mix: Mix, data: seq<byte>, p: nat) returns (h: uint32)
    requires p <= |data| < UINT64_LIMIT
    ensures h == HashAt(mix, data, p)
    ensures forall words: seq<uint32> :: IsWordsRead(data, p, words) ==> h == MixAll(mix, words)
  {
    hide WordsRead, WordAt, WordsAt, MixAll, IsWordsRead;
    NothingMixed(mix, data, p);
    h := 0;
    var count, ptr := BLOCK_SIZE / SIZEOF_LONG, p;
    ghost var n := 0;
    while count > 0
      invariant n == BLOCK_SIZE / SIZEOF_LONG - count && count >= 0
      invariant ptr == p + SIZEOF_UNSIGNED * n && n <= WordsRead(|data| - p) && ptr <= |data|
      invariant h == MixAll(mix, WordsAt(data, p, n))
    {
      count := count - 1;
      MoreToRead(|data| - p, n);
      if TooShort(ptr, |data|) {
        break;
      }
      MixOneMore(mix, data, p, n);
      h := mix(h, WordAt(data, ptr));
      ptr := ptr + SIZEOF_UNSIGNED;
      n := n + 1;
    }
    forall words: seq<uint32> | IsWordsRead(data, p, words) ensures h == MixAll(mix, words) {
      HashedWords(mix, data, p, words);
    }
  }

  lemma NothingMixed(mix: Mix, data: seq<byte>, p: nat)
    requires p <= |data|
    ensures MixAll(mix, WordsAt(data, p, 0)) == 0
  {
  }

  lemma MixOneMore(mix: Mix, data: seq<byte>, p: nat, n: nat)
    requires p + SIZEOF_UNSIGNED * (n + 1) <= |data|
    ensures MixAll(mix, WordsAt(data, p, n + 1))
         == mix(MixAll(mix, WordsAt(data, p, n)), WordAt(data, p + SIZEOF_UNSIGNED * n))
  {
    assert WordsAt(data, p, n + 1)[..n] == WordsAt(data, p, n);
  }

  /** Bytes that are not read may be anything: the second half of every block, and the end of the last one. */
  lemma UnreadBytesIgnored(mix: Mix, data: seq<byte>, other: seq<byte>, p: nat)
    requires p <= |data| == |other|
    requires forall i :: p <= i < p + SIZEOF_UNSIGNED * WordsRead(|data| - p) ==> data[i] == other[i]
    ensures HashAt(mix, data, p) == HashAt(mix, other, p)
  {
    hide WordsRead, MixAll;
    var n := WordsRead(|data| - p);
    forall i | 0 <= i < n ensures WordAt(data, p + SIZEOF_UNSIGNED * i) == WordAt(other, p + SIZEOF_UNSIGNED * i) {
      var q := p + SIZEOF_UNSIGNED * i;
      assert data[q..q + SIZEOF_UNSIGNED] == other[q..q + SIZEOF_UNSIGNED];
    }
    assert WordsAt(data, p, n) == WordsAt(other, p, n);
  }

  /** Every byte that is read matters for the word it is in. */
  lemma ReadBytesMatter(data: seq<byte>, other: seq<byte>, p: nat, i: nat)
    requires p <= |data| == |other| && p <= i < p + SIZEOF_UNSIGNED * WordsRead(|data| - p) && data[i] != other[i]
    ensures var n, k := WordsRead(|data| - p), (i - p) / SIZEOF_UNSIGNED;
            k < n && WordsAt(data, p, n)[k] != WordsAt(other, p, n)[k]
  {
    hide WordsRead;
    var k := (i - p) / SIZEOF_UNSIGNED;
    FourBytes(data, other, p + SIZEOF_UNSIGNED * k, i);
  }

  lemma FourBytes(data: seq<byte>, other: seq<byte>, q: nat, i: nat)
    requires q <= i < q + 4 <= |data| == |other|
    ensures WordAt(data, q) == WordAt(other, q) ==> data[i] == other[i]
  {
    if WordAt(data, q) == WordAt(other, q) {
      assert data[q..q + 4] == other[q..q + 4];
      assert data[i] == data[q..q + 4][i - q] && other[i] == other[q..q + 4][i - q];
    }
  }

  /** The mixing step loses neither the hash so far nor the word. */
  ghost predicate Injective(mix: Mix) {
    && (forall h, v, w :: mix(h, v) == mix(h, w) ==> v == w)
    && (forall g, h, w :: mix(g, w) == mix(h, w) ==> g == h)
  }

  /** With such a step a change of one word always changes the hash. */
  lemma {:induction false} OneWordMatters(mix: Mix, words: seq<uint32>, k: nat, w: uint32)
    requires Injective(mix) && k < |words| && words[k] != w
    ensures MixAll(mix, words[k := w]) != MixAll(mix, words)
    decreases |words|
  {
    var n := |words| - 1;
    assert words[k := w][..n] == if k == n then words[..n] else words[..n][k := w];
    if k < n {
      OneWordMatters(mix, words[..n], k, w);
    }
  }

  /** Data that differ in one word that is read, and nowhere else, have different hashes. */
  lemma OneReadWordMatters(mix: Mix, data: seq<byte>, other: seq<byte>, p: nat, k: nat, i: nat)
    requires Injective(mix) && p <= |data| == |other| && k < WordsRead(|data| - p)
    requires p + SIZEOF_UNSIGNED * k <= i < p + SIZEOF_UNSIGNED * (k + 1) && data[i] != other[i]
    requires data[..p + SIZEOF_UNSIGNED * k] == other[..p + SIZEOF_UNSIGNED * k]
    requires data[p + SIZEOF_UNSIGNED * (k + 1)..] == other[p + SIZEOF_UNSIGNED * (k + 1)..]
    ensures HashAt(mix, data, p) != HashAt(mix, other, p)
  {
    hide WordsRead, MixAll, WordAt, Injective;
    var n := WordsRead(|data| - p);
    FourBytes(data, other, p + SIZEOF_UNSIGNED * k, i);
    var words, others := WordsAt(data, p, n), WordsAt(other, p, n);
    forall j | 0 <= j < n && j != k ensures words[j] == others[j] {
      OtherWord(data, other, p + SIZEOF_UNSIGNED * k, p + SIZEOF_UNSIGNED * j);
    }
    assert others == words[k := others[k]];
    OneWordMatters(mix, words, k, others[k]);
  }

  lemma OtherWord(data: seq<byte>, other: seq<byte>, changed: nat, q: nat)
    requires changed + 4 <= |data| == |other| && q + 4 <= |data| && (q + 4 <= changed || changed + 4 <= q)
    requires data[..changed] == other[..changed] && data[changed + 4..] == other[changed + 4..]
    ensures WordAt(data, q) == WordAt(other, q)
  {
    if q + 4 <= changed {
      assert data[q..q + 4] == data[..changed][q..q + 4];
      assert other[q..q + 4] == other[..changed][q..q + 4];
    } else {
      var d := q - (changed + 4);
      assert data[q..q + 4] == data[changed + 4..][d..d + 4];
      assert other[q..q + 4] == other[changed + 4..][d..d + 4];
    }
  }

  function AddWord(h: uint32, w: uint32): uint32 {
    if h + w < UINT32_LIMIT then h + w else h + w - UINT32_LIMIT
  }

  lemma AddIsInjective()
    ensures Injective(AddWord)
  {
  }

  /** Two changed words can cancel out, even so. */
  lemma TwoWordsCancel()
    ensures Injective(AddWord) && MixAll(AddWord, [1, 0]) == MixAll(AddWord, [0, 1])
  {
    AddIsInjective();
    hide MixAll, Injective;
    MixesInOrder(AddWord, [], 0);
    MixesInOrder(AddWord, [], 1);
    MixesInOrder(AddWord, [0], 1);
    MixesInOrder(AddWord, [1], 0);
    assert [] + [0] == [0] && [] + [1] == [1] && [0] + [1] == [0, 1] && [1] + [0] == [1, 0];
  }

  // ---------- the threads ----------

  datatype Pc = AtLock | AtCheck | AtTakeData | AtBumpData | AtTakeOut | AtBumpOut | AtUnlock | AtStore | AtExit
              | Finished

  /** A thread: where it is, the data it took and the place it took for the hash. */
  datatype Thread = Thread(pc: Pc, cptr: nat, chash: nat)

  /** What the threads share; `wild` is set by a write outside the array of hashes. */
  datatype World = World(threads: seq<Thread>, owner: Option<nat>, dataptr: nat, optr: nat, hashes: seq<uint32>,
                         wild: bool)

  /** Every block, the short last one included. */
  function HashCount(size: nat): nat {
    if size % BLOCK_SIZE != 0 then size / BLOCK_SIZE + 1 else size / BLOCK_SIZE
  }

  predicate Enabled(w: World, i: nat) {
    i < |w.threads| && !w.threads[i].pc.Finished? && (w.threads[i].pc.AtLock? ==> w.owner.None?)
  }

  predicate Critical(pc: Pc) {
    !pc.AtLock? && !pc.AtStore? && !pc.Finished?
  }

  function Write(w: World, at: nat, h: uint32): World {
    if at < |w.hashes| then w.(hashes := w.hashes[at := h]) else w.(wild := true)
  }

  /** What a thread stores: the hash of the data from `cptr` on, and anything at all for a pointer past the end. */
  function StoredHash(mix: Mix, data: seq<byte>, cptr: nat): uint32 {
    if cptr <= |data| then HashAt(mix, data, cptr) else 0
  }

  function Step(mix: Mix, data: seq<byte>, w: World, i: nat): World
    requires Enabled(w, i)
  {
    var t := w.threads[i];
    match t.pc
    case AtLock => Goes(w, i, t, AtCheck).(owner := Some(i))
    case AtCheck => Goes(w, i, t, if w.dataptr >= |data| then AtExit else AtTakeData)
    case AtTakeData => Goes(w, i, t.(cptr := w.dataptr), AtBumpData)
    case AtBumpData => Goes(w, i, t, AtTakeOut).(dataptr := w.dataptr + BLOCK_SIZE)
    case AtTakeOut => Goes(w, i, t.(chash := w.optr), AtBumpOut)
    case AtBumpOut => Goes(w, i, t, AtUnlock).(optr := w.optr + 1)
    case AtUnlock => Goes(w, i, t, AtStore).(owner := None)
    case AtStore => Write(Goes(w, i, t, AtLock), t.chash, StoredHash(mix, data, t.cptr))
    case AtExit => Goes(w, i, t, Finished).(owner := None)
    case Finished => w
  }

  function Goes(w: World, i: nat, t: Thread, pc: Pc): World
    requires i < |w.threads|
  {
    w.(threads := w.threads[i := t.(pc := pc)])
  }

  function Idle(n: nat): (ts: seq<Thread>)
    ensures |ts| == n && forall i :: 0 <= i < n ==> ts[i] == Thread(AtLock, 0, 0)
  {
    if n == 0 then [] else Idle(n - 1) + [Thread(AtLock, 0, 0)]
  }

  /** The start: the allocated hashes hold whatever was in memory. */
  function StartWorld(threads: nat, memory: seq<uint32>): World {
    World(Idle(threads), None, 0, 0, memory, false)
  }

  /** The world after a schedule, if each of its threads could move when its turn came. */
  function Run(mix: Mix, data: seq<byte>, start: World, schedule: seq<nat>): Option<World> {
    if schedule == [] then Some(start)
    else
      var i := schedule[|schedule| - 1];
      match Run(mix, data, start, schedule[..|schedule| - 1])
      case None => None
      case Some(w) => if Enabled(w, i) then Some(Step(mix, data, w, i)) else None
  }

  // ---------- the invariant ----------

  /** The thread holds a block: it has taken both pointers and not yet stored the hash. */
  predicate Holds(t: Thread, k: nat) {
    t.chash == k && (t.pc.AtBumpOut? || t.pc.AtUnlock? || t.pc.AtStore?)
  }

  /** Where the two shared pointers stand, seen from the thread in the critical section. */
  predicate InStep(w: World, t: Thread, size: nat) {
    match t.pc
    case AtTakeData => w.dataptr == BLOCK_SIZE * w.optr && w.dataptr < size
    case AtBumpData => w.dataptr == BLOCK_SIZE * w.optr && w.dataptr < size && t.cptr == w.dataptr
    case AtTakeOut => w.dataptr == BLOCK_SIZE * (w.optr + 1) && t.cptr == BLOCK_SIZE * w.optr < size
    case AtBumpOut =>
      w.dataptr == BLOCK_SIZE * (w.optr + 1) && t.cptr == BLOCK_SIZE * w.optr < size && t.chash == w.optr
    case AtExit => w.dataptr == BLOCK_SIZE * w.optr && w.dataptr >= size
    case _ => w.dataptr == BLOCK_SIZE * w.optr
  }

  /** A block held by a thread out of step with the pointers is its own. */
  predicate OwnBlock(w: World, t: Thread, size: nat) {
    t.pc.AtUnlock? || t.pc.AtStore? ==> t.cptr == BLOCK_SIZE * t.chash < size && t.chash < w.optr
  }

  ghost predicate Excluded(w: World) {
    && (w.owner.Some? ==> w.owner.value < |w.threads|)
    && forall i :: 0 <= i < |w.threads| ==> (Critical(w.threads[i].pc) <==> w.owner == Some(i))
  }

  /** No block is held twice. */
  ghost predicate HeldOnce(w: World) {
    forall i, j, k: nat ::
      0 <= i < |w.threads| && 0 <= j < |w.threads| && Holds(w.threads[i], k) && Holds(w.threads[j], k) ==> i == j
  }

  ghost predicate HeldBySome(w: World, k: nat) {
    exists i :: 0 <= i < |w.threads| && Holds(w.threads[i], k)
  }

  predicate Hashed(mix: Mix, data: seq<byte>, w: World, k: nat) {
    k < |w.hashes| && BLOCK_SIZE * k < |data| && w.hashes[k] == HashAt(mix, data, BLOCK_SIZE * k)
  }

  /** Every block that was given out is hashed or still held, never both forgotten. */
  ghost predicate NothingLost(mix: Mix, data: seq<byte>, w: World) {
    forall k: nat :: k < w.optr ==> HeldBySome(w, k) || Hashed(mix, data, w, k)
  }

  /** A thread that has finished saw the end of the data. */
  ghost predicate SeenEnd(w: World, size: nat) {
    (exists i :: 0 <= i < |w.threads| && w.threads[i].pc.Finished?) ==> w.dataptr >= size
  }

  ghost predicate Claims(w: World, size: nat) {
    && (w.owner.None? ==> w.dataptr == BLOCK_SIZE * w.optr)
    && (forall i :: 0 <= i < |w.threads| && w.owner == Some(i) ==> InStep(w, w.threads[i], size))
    && (forall i :: 0 <= i < |w.threads| ==> OwnBlock(w, w.threads[i], size))
    && w.optr <= HashCount(size)
  }

  ghost predicate Inv(mix: Mix, data: seq<byte>, w: World) {
    && |w.hashes| == HashCount(|data|) && !w.wild
    && Excluded(w) && Claims(w, |data|) && HeldOnce(w) && NothingLost(mix, data, w) && SeenEnd(w, |data|)
  }

  lemma BlockInRange(size: nat, k: nat)
    ensures BLOCK_SIZE * k < size <==> k < HashCount(size)
  {
  }

  lemma StartInv(mix: Mix, data: seq<byte>, threads: nat, memory: seq<uint32>)
    requires |memory| == HashCount(|data|)
    ensures Inv(mix, data, StartWorld(threads, memory))
  {
  }

  // ---------- the invariant is kept ----------

  lemma StepExcludes(mix: Mix, data: seq<byte>, w: World, i: nat)
    requires Enabled(w, i) && Excluded(w)
    ensures Excluded(Step(mix, data, w, i))
  {
    hide StoredHash;
  }

  /** The thread that moves keeps its claim, and the pointers are in step once the critical section is left. */
  lemma StepOwnClaim(mix: Mix, data: seq<byte>, w: World, i: nat)
    requires Enabled(w, i) && Excluded(w) && Claims(w, |data|)
    ensures var w', t' := Step(mix, data, w, i), Step(mix, data, w, i).threads[i];
            && (w'.owner == Some(i) ==> InStep(w', t', |data|)) && OwnBlock(w', t', |data|)
            && (w'.owner.None? ==> w'.dataptr == BLOCK_SIZE * w'.optr) && w.optr <= w'.optr <= HashCount(|data|)
            && (w'.owner.Some? && w'.owner != Some(i) ==>
                  w'.owner == w.owner && w'.dataptr == w.dataptr && w'.optr == w.optr)
  {
    hide StoredHash, HashCount;
    BlockInRange(|data|, w.optr);
    assert OwnBlock(w, w.threads[i], |data|);
    assert Critical(w.threads[i].pc) <==> w.owner == Some(i);
  }

  lemma OthersUnmoved(mix: Mix, data: seq<byte>, w: World, i: nat)
    requires Enabled(w, i)
    ensures var w' := Step(mix, data, w, i);
            |w'.threads| == |w.threads| && forall j :: 0 <= j < |w.threads| && j != i ==> w'.threads[j] == w.threads[j]
  {
    hide StoredHash;
  }

  lemma StepClaims(mix: Mix, data: seq<byte>, w: World, i: nat)
    requires Enabled(w, i) && Excluded(w) && Claims(w, |data|)
    ensures Claims(Step(mix, data, w, i), |data|)
  {
    StepOwnClaim(mix, data, w, i);
    OthersUnmoved(mix, data, w, i);
    hide Step, HashCount, Excluded;
    var w' := Step(mix, data, w, i);
    forall j | 0 <= j < |w'.threads| && w'.owner == Some(j) ensures InStep(w', w'.threads[j], |data|) {
      assert j != i ==> InStep(w, w.threads[j], |data|);
    }
    forall j | 0 <= j < |w'.threads| ensures OwnBlock(w', w'.threads[j], |data|) {
      assert OwnBlock(w, w.threads[j], |data|);
    }
  }

  lemma StepHeldOnce(mix: Mix, data: seq<byte>, w: World, i: nat)
    requires Enabled(w, i) && Excluded(w) && Claims(w, |data|) && HeldOnce(w)
    ensures HeldOnce(Step(mix, data, w, i))
  {
    hide StoredHash, HashCount, InStep;
    var w' := Step(mix, data, w, i);
    forall j, k: nat | 0 <= j < |w.threads| && j != i
      ensures !(Holds(w'.threads[i], k) && Holds(w'.threads[j], k))
    {
      assert OwnBlock(w, w.threads[j], |data|) && w'.threads[j] == w.threads[j];
      assert Critical(w.threads[j].pc) <==> w.owner == Some(j);
      assert Critical(w.threads[i].pc) <==> w.owner == Some(i);
      assert Holds(w'.threads[i], k) && !w.threads[i].pc.AtTakeOut? ==> Holds(w.threads[i], k);
    }
    forall a, b, k: nat | 0 <= a < |w.threads| && 0 <= b < |w.threads|
                          && Holds(w'.threads[a], k) && Holds(w'.threads[b], k)
      ensures a == b
    {
      if a != i && b != i {
        assert Holds(w.threads[a], k) && Holds(w.threads[b], k);
      }
    }
  }

  /** No write falls outside the array of hashes. */
  lemma StepIsTame(mix: Mix, data: seq<byte>, w: World, i: nat)
    requires Inv(mix, data, w) && Enabled(w, i)
    ensures !Step(mix, data, w, i).wild && |Step(mix, data, w, i).hashes| == HashCount(|data|)
  {
    hide StoredHash, HashCount, HeldOnce, NothingLost, SeenEnd;
    assert OwnBlock(w, w.threads[i], |data|);
    BlockInRange(|data|, w.threads[i].chash);
  }

  lemma StepLosesNothing(mix: Mix, data: seq<byte>, w: World, i: nat)
    requires Inv(mix, data, w) && Enabled(w, i)
    ensures NothingLost(mix, data, Step(mix, data, w, i))
  {
    hide HashAt, HashCount, HeldOnce, SeenEnd;
    var w', t := Step(mix, data, w, i), w.threads[i];
    StepIsTame(mix, data, w, i);
    assert OwnBlock(w, t, |data|) && (Critical(t.pc) <==> w.owner == Some(i));
    forall k: nat | k < w'.optr ensures HeldBySome(w', k) || Hashed(mix, data, w', k) {
      if k == w.optr {
        assert Holds(w'.threads[i], k);
      } else if HeldBySome(w, k) {
        var j :| 0 <= j < |w.threads| && Holds(w.threads[j], k);
        assert j != i ==> Holds(w'.threads[j], k);
        assert j == i && !t.pc.AtStore? ==> Holds(w'.threads[i], k);
      } else {
        assert Hashed(mix, data, w, k);
      }
    }
  }

  lemma StepSeesEnd(mix: Mix, data: seq<byte>, w: World, i: nat)
    requires Enabled(w, i) && Excluded(w) && Claims(w, |data|) && SeenEnd(w, |data|)
    ensures SeenEnd(Step(mix, data, w, i), |data|)
  {
    hide StoredHash, HashCount, OwnBlock;
    var w' := Step(mix, data, w, i);
    assert Critical(w.threads[i].pc) <==> w.owner == Some(i);
    if j :| 0 <= j < |w'.threads| && w'.threads[j].pc.Finished? {
      assert j != i ==> w.threads[j].pc.Finished?;
    }
  }

  lemma StepInv(mix: Mix, data: seq<byte>, w: World, i: nat)
    requires Inv(mix, data, w) && Enabled(w, i)
    ensures Inv(mix, data, Step(mix, data, w, i))
    ensures |Step(mix, data, w, i).threads| == |w.threads|
  {
    StepExcludes(mix, data, w, i);
    StepClaims(mix, data, w, i);
    StepHeldOnce(mix, data, w, i);
    StepIsTame(mix, data, w, i);
    StepLosesNothing(mix, data, w, i);
    StepSeesEnd(mix, data, w, i);
    hide StoredHash, Excluded, Claims, HeldOnce, NothingLost, SeenEnd;
  }

  /**
   * In every reachable world the two shared pointers are in step, only the owner of the mutex is in the critical
   * section, no block is held by two threads or forgotten, and nothing was written outside the array.
   */
  lemma {:induction false} RunInv(mix: Mix, data: seq<byte>, threads: nat, memory: seq<uint32>, schedule: seq<nat>)
    requires |memory| == HashCount(|data|) && Run(mix, data, StartWorld(threads, memory), schedule).Some?
    ensures Inv(mix, data, Run(mix, data, StartWorld(threads, memory), schedule).value)
    ensures |Run(mix, data, StartWorld(threads, memory), schedule).value.threads| == threads
    decreases |schedule|
  {
    hide Inv, Step, HashCount;
    if schedule == [] {
      StartInv(mix, data, threads, memory);
    } else {
      var before, i := schedule[..|schedule| - 1], schedule[|schedule| - 1];
      RunInv(mix, data, threads, memory, before);
      StepInv(mix, data, Run(mix, data, StartWorld(threads, memory), before).value, i);
    }
  }

  // ---------- each block is given out once ----------

  /** The places in the array that were given out in a run, in the order in which they were. */
  function GivenOut(mix: Mix, data: seq<byte>, start: World, schedule: seq<nat>): seq<nat>
    requires Run(mix, data, start, schedule).Some?
  {
    if schedule == [] then []
    else
      var before, i := schedule[..|schedule| - 1], schedule[|schedule| - 1];
      var t := Run(mix, data, start, before).value.threads[i];
      GivenOut(mix, data, start, before) + if t.pc.AtBumpOut? then [t.chash] else []
  }

  lemma StepGives(mix: Mix, data: seq<byte>, w: World, i: nat)
    requires Inv(mix, data, w) && Enabled(w, i)
    ensures Step(mix, data, w, i).optr == w.optr + if w.threads[i].pc.AtBumpOut? then 1 else 0
    ensures w.threads[i].pc.AtBumpOut? ==> w.threads[i].chash == w.optr
  {
    hide HashCount, HeldOnce, NothingLost, SeenEnd, StoredHash, OwnBlock;
    assert Critical(w.threads[i].pc) <==> w.owner == Some(i);
  }

  /** Whatever the schedule, the blocks are given out in order and each of them once. */
  lemma {:induction false} GivenOutInOrder(mix: Mix, data: seq<byte>, threads: nat, memory: seq<uint32>,
                                           schedule: seq<nat>)
    requires |memory| == HashCount(|data|) && Run(mix, data, StartWorld(threads, memory), schedule).Some?
    ensures var start := StartWorld(threads, memory);
            var given := GivenOut(mix, data, start, schedule);
            && |given| == Run(mix, data, start, schedule).value.optr <= HashCount(|data|)
            && forall k :: 0 <= k < |given| ==> given[k] == k
    decreases |schedule|
  {
    hide HashCount, Excluded, HeldOnce, NothingLost, SeenEnd, Step, InStep, OwnBlock;
    RunInv(mix, data, threads, memory, schedule);
    if schedule != [] {
      var before, i := schedule[..|schedule| - 1], schedule[|schedule| - 1];
      RunInv(mix, data, threads, memory, before);
      GivenOutInOrder(mix, data, threads, memory, before);
      StepGives(mix, data, Run(mix, data, StartWorld(threads, memory), before).value, i);
    }
  }

  // ---------- every run ends, after the same number of steps ----------

  ghost predicate AllFinished(w: World) {
    forall i :: 0 <= i < |w.threads| ==> w.threads[i].pc.Finished?
  }

  function Rank(t: Thread): int {
    match t.pc
    case AtUnlock => 5
    case AtStore => 4
    case AtLock => 3
    case AtCheck => 2
    case AtTakeData => 1
    case AtBumpData => 0
    case AtTakeOut => -1
    case AtBumpOut => -2
    case AtExit => 1
    case Finished => 0
  }

  function Ranks(ts: seq<Thread>): int {
    if ts == [] then 0 else Rank(ts[0]) + Ranks(ts[1..])
  }

  /** The steps that are left: eight for every block that was not given out, and those of the threads. */
  function StepsLeft(w: World, size: nat): int {
    8 * (HashCount(size) - w.optr) + Ranks(w.threads)
  }

  lemma {:induction false} RanksUpdate(ts: seq<Thread>, i: nat, t: Thread)
    requires i < |ts|
    ensures Ranks(ts[i := t]) == Ranks(ts) - Rank(ts[i]) + Rank(t)
  {
    hide Rank;
    if i > 0 {
      RanksUpdate(ts[1..], i - 1, t);
      assert ts[i := t][1..] == ts[1..][i - 1 := t];
    } else {
      assert ts[i := t][1..] == ts[1..];
    }
  }

  lemma {:induction false} RanksOf(ts: seq<Thread>)
    requires forall i :: 0 <= i < |ts| ==> Rank(ts[i]) >= 0
    ensures Ranks(ts) >= 0
    ensures (forall i :: 0 <= i < |ts| ==> ts[i].pc.Finished?) ==> Ranks(ts) == 0
  {
    if ts != [] {
      RanksOf(ts[1..]);
    }
  }

  lemma {:induction false} IdleRanks(n: nat)
    ensures Ranks(Idle(n)) == 3 * n
  {
    if n > 0 {
      IdleRanks(n - 1);
      RanksAppend(Idle(n - 1), Thread(AtLock, 0, 0));
    }
  }

  lemma {:induction false} RanksAppend(ts: seq<Thread>, t: Thread)
    ensures Ranks(ts + [t]) == Ranks(ts) + Rank(t)
  {
    if ts != [] {
      RanksAppend(ts[1..], t);
      assert (ts + [t])[1..] == ts[1..] + [t];
    }
  }

  lemma StepCounts(mix: Mix, data: seq<byte>, w: World, i: nat)
    requires Enabled(w, i)
    ensures StepsLeft(Step(mix, data, w, i), |data|) == StepsLeft(w, |data|) - 1
  {
    hide StoredHash, HashCount, Ranks;
    var w' := Step(mix, data, w, i);
    RanksUpdate(w.threads, i, w'.threads[i]);
    assert w'.threads == w.threads[i := w'.threads[i]];
  }

  /** Only the owner of the mutex can be on its way to a block it has not been given yet. */
  lemma StepsLeftBounds(mix: Mix, data: seq<byte>, w: World)
    requires Inv(mix, data, w)
    ensures StepsLeft(w, |data|) >= 0
  {
    hide HashCount, HeldOnce, NothingLost, SeenEnd, OwnBlock, Ranks;
    if w.owner.Some? {
      var o := w.owner.value;
      var rest := w.threads[o := w.threads[o].(pc := Finished)];
      RanksUpdate(w.threads, o, rest[o]);
      RanksOf(rest);
      BlockInRange(|data|, w.optr);
      assert InStep(w, w.threads[o], |data|);
    } else {
      RanksOf(w.threads);
    }
  }

  lemma {:induction false} StepsAddUp(mix: Mix, data: seq<byte>, start: World, schedule: seq<nat>)
    requires Run(mix, data, start, schedule).Some?
    ensures |schedule| + StepsLeft(Run(mix, data, start, schedule).value, |data|) == StepsLeft(start, |data|)
    decreases |schedule|
  {
    hide Step, StepsLeft;
    if schedule != [] {
      var before, i := schedule[..|schedule| - 1], schedule[|schedule| - 1];
      StepsAddUp(mix, data, start, before);
      StepCounts(mix, data, Run(mix, data, start, before).value, i);
    }
  }

  /** There is no deadlock: until all threads have finished, one of them can move. */
  lemma SomeThreadCanMove(mix: Mix, data: seq<byte>, w: World)
    requires Inv(mix, data, w) && !AllFinished(w)
    ensures exists i: nat :: Enabled(w, i)
  {
    hide Claims, HeldOnce, NothingLost, SeenEnd;
    if w.owner.Some? {
      assert Enabled(w, w.owner.value);
    } else {
      var i :| 0 <= i < |w.threads| && !w.threads[i].pc.Finished?;
      assert Enabled(w, i);
    }
  }

  /** When the threads have finished, all blocks have been given out and hashed. */
  lemma FinishedIsHashed(mix: Mix, data: seq<byte>, w: World)
    requires Inv(mix, data, w) && AllFinished(w) && |w.threads| > 0
    ensures w.optr == HashCount(|data|)
    ensures forall k: nat :: k < HashCount(|data|) ==> Hashed(mix, data, w, k)
  {
    hide HeldOnce, HashAt, HashCount, InStep, OwnBlock;
    assert w.threads[0].pc.Finished?;
    assert Critical(w.threads[0].pc) <==> w.owner == Some(0);
    BlockInRange(|data|, w.optr);
    forall i | 0 <= i < |w.threads| ensures w.owner != Some(i) {
      assert Critical(w.threads[i].pc) <==> w.owner == Some(i);
    }
    forall k: nat | k < w.optr ensures Hashed(mix, data, w, k) {
      assert !HeldBySome(w, k);
    }
  }

  /**
   * No run has more than eight steps for each block and three for each thread, and the runs that have that many are
   * just those in which every thread has finished.
   */
  lemma RunLength(mix: Mix, data: seq<byte>, threads: nat, memory: seq<uint32>, schedule: seq<nat>)
    requires threads > 0
    requires |memory| == HashCount(|data|) && Run(mix, data, StartWorld(threads, memory), schedule).Some?
    ensures |schedule| <= 8 * HashCount(|data|) + 3 * threads
    ensures |schedule| == 8 * HashCount(|data|) + 3 * threads
            <==> AllFinished(Run(mix, data, StartWorld(threads, memory), schedule).value)
  {
    hide Inv, HashCount, Step, Run;
    var start := StartWorld(threads, memory);
    var w := Run(mix, data, start, schedule).value;
    RunInv(mix, data, threads, memory, schedule);
    StepsAddUp(mix, data, start, schedule);
    IdleRanks(threads);
    StepsLeftBounds(mix, data, w);
    if AllFinished(w) {
      FinishedIsHashed(mix, data, w);
      RanksOf(w.threads);
    } else {
      SomeThreadCanMove(mix, data, w);
      var i: nat :| Enabled(w, i);
      StepInv(mix, data, w, i);
      StepCounts(mix, data, w, i);
      StepsLeftBounds(mix, data, Step(mix, data, w, i));
    }
  }

  // ---------- the hashes ----------

  /** Every complete run leaves the serial hash of each block in its place, whatever was in the memory before. */
  lemma EveryScheduleHashes(mix: Mix, data: seq<byte>, threads: nat, memory: seq<uint32>, schedule: seq<nat>)
    requires threads > 0
    requires |memory| == HashCount(|data|) && Run(mix, data, StartWorld(threads, memory), schedule).Some?
    requires AllFinished(Run(mix, data, StartWorld(threads, memory), schedule).value)
    ensures var hashes := Run(mix, data, StartWorld(threads, memory), schedule).value.hashes;
            && |hashes| == HashCount(|data|)
            && forall k :: 0 <= k < |hashes| ==>
                 BLOCK_SIZE * k < |data| && hashes[k] == HashAt(mix, data, BLOCK_SIZE * k)
    ensures var hashes := Run(mix, data, StartWorld(threads, memory), schedule).value.hashes;
            && 256 * (|hashes| - 1) < |data| <= 256 * |hashes|
            && forall k, words: seq<uint32> ::
                 0 <= k < |hashes| && 256 * k <= |data| && IsWordsRead(data, 256 * k, words)
                 ==> hashes[k] == MixAll(mix, words)
  {
    hide HashAt, IsWordsRead, MixAll, HashCount, Run, Excluded, Claims, HeldOnce, NothingLost, SeenEnd;
    RunInv(mix, data, threads, memory, schedule);
    var w := Run(mix, data, StartWorld(threads, memory), schedule).value;
    FinishedIsHashed(mix, data, w);
    forall k | 0 <= k < |w.hashes| ensures BLOCK_SIZE * k < |data| && w.hashes[k] == HashAt(mix, data, BLOCK_SIZE * k) {
      assert Hashed(mix, data, w, k);
    }
    BlockInRange(|data|, |w.hashes|);
    if |w.hashes| > 0 {
      BlockInRange(|data|, |w.hashes| - 1);
    }
    forall k, words: seq<uint32> | 0 <= k < |w.hashes| && 256 * k <= |data| && IsWordsRead(data, 256 * k, words)
      ensures w.hashes[k] == MixAll(mix, words)
    {
      HashedWords(mix, data, 256 * k, words);
    }
  }
}
