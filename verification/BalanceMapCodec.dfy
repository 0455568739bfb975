/** The binary form of a balance map: a count, then the entries in key order. */
module BalanceMapCodec {
  import opened Bytes
  import opened Ledger

  const ENTRY_SIZE: nat := HASH_SIZE + 8

  /** `balance_map_size`. */
  function MapSize(m: Balances): nat {
    4 + |m| * ENTRY_SIZE
  }

  // ---------- the order in which std::map visits its keys ----------

  ghost predicate Increasing(keys: seq<Hash>) {
    forall i, j :: 0 <= i < j < |keys| ==> LexLess(keys[i], keys[j])
  }

  ghost predicate IsLeast(k: Hash, keys: set<Hash>) {
    k in keys && forall o :: o in keys ==> o == k || LexLess(k, o)
  }

  lemma {:induction false} LeastExists(keys: set<Hash>)
    requires keys != {}
    ensures exists k: Hash :: IsLeast(k, keys)
    ensures forall k: Hash, o: Hash :: IsLeast(k, keys) && IsLeast(o, keys) ==> o == k
    decreases keys
  {
    var x :| x in keys;
    if keys == {x} {
      assert IsLeast(x, keys);
    } else {
      LeastExists(keys - {x});
      var y: Hash :| IsLeast(y, keys - {x});
      LexTrichotomy(x, y);
      if LexLess(y, x) {
        assert IsLeast(y, keys);
      } else {
        forall o | o in keys ensures o == x || LexLess(x, o) {
          if o != x && o != y {
            LexTransitive(x, y, o);
          }
        }
        assert IsLeast(x, keys);
      }
    }
    forall k: Hash, o: Hash | IsLeast(k, keys) && IsLeast(o, keys) ensures o == k {
      LexTrichotomy(o, k);
    }
  }

  ghost function SortedKeys(keys: set<Hash>): (s: seq<Hash>)
    ensures Increasing(s) && |s| == |keys|
    ensures forall k: Hash :: k in s <==> k in keys
  {
    if keys == {} then []
    else
      LeastExists(keys);
      var k: Hash :| IsLeast(k, keys);
      [k] + SortedKeys(keys - {k})
  }

  /** The visiting order is determined by the key set: there is one increasing enumeration. */
  lemma {:induction false} IncreasingUnique(s: seq<Hash>, t: seq<Hash>)
    requires Increasing(s) && Increasing(t)
    requires forall k: Hash :: k in s <==> k in t
    ensures s == t
  {
    assert s != [] ==> s[0] in t;
    assert t != [] ==> t[0] in s;
    if s != [] {
      LexTrichotomy(s[0], t[0]);
      assert s[0] == t[0];
      forall k: Hash ensures k in s[1..] <==> k in t[1..] {
        TailMembers(s, k);
        TailMembers(t, k);
      }
      IncreasingUnique(s[1..], t[1..]);
      assert s == [s[0]] + s[1..] && t == [t[0]] + t[1..];
    }
  }

  lemma TailMembers(s: seq<Hash>, k: Hash)
    requires Increasing(s) && s != []
    ensures k in s[1..] <==> k in s && k != s[0]
  {
    if k in s[1..] {
      LexTrichotomy(s[0], k);
    }
  }

  // ---------- the writer ----------

  function EntriesBytes(keys: seq<Hash>, m: Balances): (s: seq<byte>)
    ensures |s| == |keys| * ENTRY_SIZE
  {
    if keys == [] then [] else EntryBytes(keys[0], Get(m, keys[0])) + EntriesBytes(keys[1..], m)
  }

  function EntryBytes(k: Hash, amount: uint64): (s: seq<byte>)
    ensures |s| == ENTRY_SIZE && s[..HASH_SIZE] == k && s[HASH_SIZE..] == Encode64(amount)
  {
    k + Encode64(amount)
  }

  /** The bytes of `write_balance_map`; the count is cut to 32 bits. */
  ghost function MapBytes(m: Balances): (s: seq<byte>)
    ensures |s| == MapSize(m)
  {
    assert |m| == |m.Keys|;
    Encode32(|m| % UINT32_LIMIT) + EntriesBytes(SortedKeys(m.Keys), m)
  }

  lemma {:induction false} EntryAt(keys: seq<Hash>, m: Balances, i: nat)
    requires i < |keys|
    ensures EntriesBytes(keys, m)[ENTRY_SIZE * i..][..ENTRY_SIZE] == EntryBytes(keys[i], Get(m, keys[i]))
  {
    hide EntryBytes;
    var first, rest := EntryBytes(keys[0], Get(m, keys[0])), EntriesBytes(keys[1..], m);
    if i == 0 {
      assert (first + rest)[0..][..ENTRY_SIZE] == first;
    } else {
      EntryAt(keys[1..], m, i - 1);
      DropFront(first, rest, ENTRY_SIZE * (i - 1));
    }
  }

  lemma DropFront(first: seq<byte>, rest: seq<byte>, n: nat)
    requires n <= |rest|
    ensures (first + rest)[|first| + n..] == rest[n..]
  {
  }

  /** The place of each number of a written map: the count, then address and amount of each entry, in key order. */
  lemma MapFields(m: Balances, i: nat)
    requires i < |m|
    ensures |SortedKeys(m.Keys)| == |m|
    ensures var buf, k := MapBytes(m), SortedKeys(m.Keys)[i];
            && |buf| == 4 + 40 * |m| && buf[0..4] == Encode32(|m| % UINT32_LIMIT)
            && k in m && buf[4 + 40 * i..36 + 40 * i] == k && buf[36 + 40 * i..44 + 40 * i] == Encode64(m[k])
  {
    hide Encode32, Encode64, EntriesBytes, SortedKeys;
    assert |m| == |m.Keys|;
    var keys := SortedKeys(m.Keys);
    EntryAt(keys, m, i);
    EntryInside(Encode32(|m| % UINT32_LIMIT), EntriesBytes(keys, m), i, EntryBytes(keys[i], m[keys[i]]));
  }

  lemma EntryInside(count: seq<byte>, entries: seq<byte>, i: nat, e: seq<byte>)
    requires |count| == 4 && ENTRY_SIZE * (i + 1) <= |entries| && |e| == ENTRY_SIZE
    requires entries[ENTRY_SIZE * i..][..ENTRY_SIZE] == e
    ensures var buf := count + entries;
            && buf[0..4] == count && buf[4 + 40 * i..36 + 40 * i] == e[..32] && buf[36 + 40 * i..44 + 40 * i] == e[32..]
  {
    var buf := count + entries;
    assert entries[40 * i..40 * i + 40] == e && buf[4 + 40 * i..44 + 40 * i] == e;
    assert buf[4 + 40 * i..36 + 40 * i] == buf[4 + 40 * i..44 + 40 * i][..32];
    assert buf[36 + 40 * i..44 + 40 * i] == buf[4 + 40 * i..44 + 40 * i][32..];
  }

  method WriteBalanceMap(out: seq<byte>, m: Balances) returns (out': seq<byte>)
    ensures out' == out + MapBytes(m)
  {
    var size := |m| % UINT32_LIMIT;
    out' := out + Encode32(size);
    var todo := m.Keys;
    while todo != {}
      invariant todo <= m.Keys
      invariant out' + EntriesBytes(SortedKeys(todo), m) == out + MapBytes(m)
      decreases todo
    {
      LeastExists(todo);
      ghost var least: Hash :| IsLeast(least, todo);
      var k: Hash :| k in todo && forall o :: o in todo ==> o == k || LexLess(k, o);
      NextEntry(todo, k, m);
      Regroup(out', EntryBytes(k, m[k]), EntriesBytes(SortedKeys(todo - {k}), m));
      out' := out' + EntryBytes(k, m[k]);
      todo := todo - {k};
    }
    assert out' + EntriesBytes(SortedKeys(todo), m) == out';
  }

  lemma Regroup<T>(a: seq<T>, b: seq<T>, c: seq<T>)
    ensures a + (b + c) == a + b + c
  {
  }

  lemma NextEntry(keys: set<Hash>, k: Hash, m: Balances)
    requires IsLeast(k, keys) && k in m
    ensures EntriesBytes(SortedKeys(keys), m) == EntryBytes(k, m[k]) + EntriesBytes(SortedKeys(keys - {k}), m)
  {
    LeastExists(keys);
    assert SortedKeys(keys) == [k] + SortedKeys(keys - {k});
  }

  // ---------- the reader ----------

  /** The map after `n` more entries were read into `m`; a later entry for a key replaces an earlier one. */
  function ReadEntries(buf: seq<byte>, n: nat, m: Balances): Balances
    requires ENTRY_SIZE * n <= |buf|
  {
    if n == 0 then m
    else ReadEntries(buf[ENTRY_SIZE..], n - 1, m[buf[..HASH_SIZE] := Decode64(buf[HASH_SIZE..ENTRY_SIZE])])
  }

  /** The reader trusts the count: the buffer must really hold that many entries. */
  predicate HoldsMap(buf: seq<byte>) {
    |buf| >= 4 && 4 + ENTRY_SIZE * Decode32(buf[..4]) <= |buf|
  }

  function ReadMap(buf: seq<byte>): Balances
    requires HoldsMap(buf)
  {
    ReadEntries(buf[4..], Decode32(buf[..4]), map[])
  }

  method ReadBalanceMap(data: seq<byte>, offset: nat) returns (m: Balances)
    requires offset <= |data| && HoldsMap(data[offset..])
    ensures m == ReadMap(data[offset..])
  {
    hide Decode32, Decode64;
    m := map[];
    assert data[offset..][..4] == data[offset..offset + 4];
    assert data[offset..][4..] == data[offset + 4..];
    var size := Decode32(data[offset..offset + 4]);
    var pos := offset + 4;
    for i := 0 to size
      invariant pos + ENTRY_SIZE * (size - i) <= |data|
      invariant ReadMap(data[offset..]) == ReadEntries(data[pos..], size - i, m)
    {
      ghost var rest := data[pos..];
      CutEntry(data, pos);
      var addr: Hash := data[pos..pos + HASH_SIZE];
      pos := pos + HASH_SIZE;
      var amount := Decode64(data[pos..pos + 8]);
      pos := pos + 8;
      m := m[addr := amount];
    }
  }

  lemma CutEntry(data: seq<byte>, pos: nat)
    requires pos + ENTRY_SIZE <= |data|
    ensures data[pos..][..HASH_SIZE] == data[pos..pos + HASH_SIZE]
    ensures data[pos..][HASH_SIZE..ENTRY_SIZE] == data[pos + HASH_SIZE..pos + HASH_SIZE + 8]
    ensures data[pos..][ENTRY_SIZE..] == data[pos + ENTRY_SIZE..]
  {
  }

  // ---------- repeated addresses ----------

  /** The address of entry `i`. */
  function KeyAt(buf: seq<byte>, i: nat): Hash
    requires 40 * i + 40 <= |buf|
  {
    buf[40 * i..40 * i + 32]
  }

  /** The amount of entry `i`. */
  function AmountAt(buf: seq<byte>, i: nat): uint64
    requires 40 * i + 40 <= |buf|
  {
    Decode64(buf[40 * i + 32..40 * i + 40])
  }

  lemma DropFirstEntry(buf: seq<byte>, i: nat)
    requires 0 < i && 40 * i + 40 <= |buf|
    ensures KeyAt(buf[ENTRY_SIZE..], i - 1) == KeyAt(buf, i) && AmountAt(buf[ENTRY_SIZE..], i - 1) == AmountAt(buf, i)
  {
    assert buf[ENTRY_SIZE..][40 * (i - 1)..40 * (i - 1) + 32] == buf[40 * i..40 * i + 32];
    assert buf[ENTRY_SIZE..][40 * (i - 1) + 32..40 * (i - 1) + 40] == buf[40 * i + 32..40 * i + 40];
  }

  lemma {:induction false} LastEntryRead(buf: seq<byte>, n: nat, m: Balances)
    requires 0 < n && 40 * n <= |buf|
    ensures ReadEntries(buf, n, m) == ReadEntries(buf, n - 1, m)[KeyAt(buf, n - 1) := AmountAt(buf, n - 1)]
  {
    hide Decode64;
    if n == 1 {
      assert buf[..HASH_SIZE] == KeyAt(buf, 0) && buf[HASH_SIZE..ENTRY_SIZE] == buf[32..40];
    } else {
      DropFirstEntry(buf, n - 1);
      LastEntryRead(buf[ENTRY_SIZE..], n - 1, m[buf[..HASH_SIZE] := Decode64(buf[HASH_SIZE..ENTRY_SIZE])]);
    }
  }

  /** Whatever the bytes are, the last entry of an address counts. */
  lemma {:induction false} LastEntryCounts(buf: seq<byte>, n: nat, m: Balances, i: nat)
    requires i < n && 40 * n <= |buf| && forall j :: i < j < n ==> KeyAt(buf, j) != KeyAt(buf, i)
    ensures var r, k := ReadEntries(buf, n, m), KeyAt(buf, i);
            k in r && r[k] == AmountAt(buf, i)
  {
    hide ReadEntries, KeyAt, AmountAt;
    LastEntryRead(buf, n, m);
    if i < n - 1 {
      LastEntryCounts(buf, n - 1, m, i);
    }
  }

  /** An address that no entry has is not in the map that was read. */
  lemma {:induction false} NoEntryNoKey(buf: seq<byte>, n: nat, k: Hash)
    requires 40 * n <= |buf| && forall j :: 0 <= j < n ==> KeyAt(buf, j) != k
    ensures k !in ReadEntries(buf, n, map[])
  {
    hide KeyAt, AmountAt;
    if n > 0 {
      LastEntryRead(buf, n, map[]);
      NoEntryNoKey(buf, n - 1, k);
    }
  }

  // ---------- round trip ----------

  function Part(m: Balances, keys: seq<Hash>): Balances
    requires forall k :: k in keys ==> k in m
  {
    map k | k in keys :: m[k]
  }

  lemma FirstEntry(k: Hash, amount: uint64, tail: seq<byte>, rest: seq<byte>)
    ensures var buf := EntryBytes(k, amount) + tail + rest;
            && buf[..HASH_SIZE] == k && Decode64(buf[HASH_SIZE..ENTRY_SIZE]) == amount
            && buf[ENTRY_SIZE..] == tail + rest
  {
    var e := EntryBytes(k, amount);
    CutFront(e, tail + rest);
    Regroup(e, tail, rest);
    Decode64Encode(amount);
  }

  lemma CutFront(e: seq<byte>, more: seq<byte>)
    requires |e| == ENTRY_SIZE
    ensures var buf := e + more;
            && buf[..HASH_SIZE] == e[..HASH_SIZE] && buf[HASH_SIZE..ENTRY_SIZE] == e[HASH_SIZE..]
            && buf[ENTRY_SIZE..] == more
  {
  }

  lemma PartStep(m: Balances, keys: seq<Hash>, n: nat, start: Balances)
    requires 0 < n <= |keys| && forall k :: k in keys ==> k in m
    ensures start[keys[0] := m[keys[0]]] + Part(m, keys[1..][..n - 1]) == start + Part(m, keys[..n])
  {
    assert keys[..n] == [keys[0]] + keys[1..][..n - 1];
  }

  /** Reading `n` of the written entries adds just those to the map. */
  lemma {:induction false} ReadEntriesWritten(keys: seq<Hash>, m: Balances, rest: seq<byte>, n: nat, start: Balances)
    requires n <= |keys| && forall k :: k in keys ==> k in m
    ensures ReadEntries(EntriesBytes(keys, m) + rest, n, start) == start + Part(m, keys[..n])
  {
    if n > 0 {
      FirstEntry(keys[0], m[keys[0]], EntriesBytes(keys[1..], m), rest);
      ReadEntriesWritten(keys[1..], m, rest, n - 1, start[keys[0] := m[keys[0]]]);
      PartStep(m, keys, n, start);
    }
  }

  lemma CutCount(c: seq<byte>, e: seq<byte>, rest: seq<byte>)
    requires |c| == 4
    ensures (c + e + rest)[..4] == c && (c + e + rest)[4..] == e + rest
  {
  }

  lemma ReadMapWritten(m: Balances, rest: seq<byte>)
    ensures HoldsMap(MapBytes(m) + rest)
    ensures ReadMap(MapBytes(m) + rest) == Part(m, SortedKeys(m.Keys)[..|m| % UINT32_LIMIT])
  {
    hide EntriesBytes, Encode32, Decode32, ReadEntries, SortedKeys;
    var keys := SortedKeys(m.Keys);
    var n := |m| % UINT32_LIMIT;
    assert |m| == |m.Keys| == |keys|;
    CutCount(Encode32(n), EntriesBytes(keys, m), rest);
    Decode32Encode(n);
    ReadEntriesWritten(keys, m, rest, n, map[]);
  }

  /** Reading back a written map gives the same map exactly when its size fits the 32-bit count. */
  lemma MapRoundTrip(m: Balances, rest: seq<byte>)
    ensures HoldsMap(MapBytes(m) + rest)
    ensures ReadMap(MapBytes(m) + rest) == m <==> |m| < UINT32_LIMIT
  {
    hide ReadMap, HoldsMap, MapBytes, SortedKeys;
    ReadMapWritten(m, rest);
    var keys := SortedKeys(m.Keys);
    assert |m| == |m.Keys| == |keys|;
    var n := |m| % UINT32_LIMIT;
    if |m| < UINT32_LIMIT {
      assert keys[..n] == keys;
    } else {
      var k := keys[n];
      LexTrichotomy(k, k);
      assert k !in keys[..n];
      assert k in m && k !in Part(m, keys[..n]);
    }
  }

  /** Equal maps have equal bytes and, within the 32-bit count, equal bytes come from equal maps. */
  lemma MapBytesInjective(a: Balances, b: Balances)
    requires |a| < UINT32_LIMIT && |b| < UINT32_LIMIT
    ensures MapBytes(a) == MapBytes(b) <==> a == b
  {
    MapRoundTrip(a, []);
    MapRoundTrip(b, []);
    assert MapBytes(a) + [] == MapBytes(a) && MapBytes(b) + [] == MapBytes(b);
  }
}
