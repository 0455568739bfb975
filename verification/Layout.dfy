/** The indexed file: a header of offsets, then the chunks, each followed by a balance map. */
module Layout {
  import opened Bytes
  import opened Ledger
  import opened Codec
  import opened BalanceMapCodec

  // ---------- vectors of 64-bit offsets ----------

  function OffsetsBytes(offsets: seq<uint64>): (s: seq<byte>)
    ensures |s| == 8 * |offsets|
  {
    if offsets == [] then [] else Encode64(offsets[0]) + OffsetsBytes(offsets[1..])
  }

  function ReadOffsets(buf: seq<byte>, n: nat): (offsets: seq<uint64>)
    requires |buf| >= 8 * n
    ensures |offsets| == n
  {
    if n == 0 then [] else [Decode64(buf[..8])] + ReadOffsets(buf[8..], n - 1)
  }

  lemma {:induction false} ReadOffsetsWritten(offsets: seq<uint64>, rest: seq<byte>)
    ensures ReadOffsets(OffsetsBytes(offsets) + rest, |offsets|) == offsets
  {
    if offsets != [] {
      hide Encode64, Decode64;
      var e, more := Encode64(offsets[0]), OffsetsBytes(offsets[1..]) + rest;
      assert OffsetsBytes(offsets) + rest == e + more;
      Peel(e, more);
      Decode64Encode(offsets[0]);
      ReadOffsetsWritten(offsets[1..], rest);
    }
  }

  // ---------- the header ----------

  datatype Header = Header(chunkOff: seq<uint64>, mapOff: seq<uint64>, mapSz: seq<uint64>)

  function HeaderSize(chunks: nat): nat {
    4 + 3 * 8 * chunks
  }

  function HeaderBytes(h: Header): (s: seq<byte>)
    requires |h.chunkOff| == |h.mapOff| == |h.mapSz| < UINT32_LIMIT
    ensures |s| == HeaderSize(|h.chunkOff|)
  {
    Encode32(|h.chunkOff|) + OffsetsBytes(h.chunkOff) + OffsetsBytes(h.mapOff) + OffsetsBytes(h.mapSz)
  }

  /** `extractHeader`: it fails when the data are too short for the count, or for the three vectors of that length. */
  function ExtractHeader(data: seq<byte>): (r: Parsed<Header>)
    ensures r.Read? ==> r.size == HeaderSize(|r.value.chunkOff|) <= |data|
    ensures r.Read? ==> |r.value.chunkOff| == |r.value.mapOff| == |r.value.mapSz| < UINT32_LIMIT
  {
    if |data| < 4 then Failed
    else
      var n := Decode32(data[..4]);
      var rest := data[4..];
      if |rest| < 8 * n * 3 then Failed
      else Read(Header(ReadOffsets(rest, n), ReadOffsets(rest[8 * n..], n), ReadOffsets(rest[16 * n..], n)),
                HeaderSize(n))
  }

  lemma HeaderRoundTrip(h: Header, rest: seq<byte>)
    requires |h.chunkOff| == |h.mapOff| == |h.mapSz| < UINT32_LIMIT
    ensures ExtractHeader(HeaderBytes(h) + rest) == Read(h, HeaderSize(|h.chunkOff|))
  {
    hide Encode32, Decode32, OffsetsBytes, ReadOffsets;
    var n := |h.chunkOff|;
    var a, b, c := OffsetsBytes(h.chunkOff), OffsetsBytes(h.mapOff), OffsetsBytes(h.mapSz);
    Decode32Encode(n);
    var data := HeaderBytes(h) + rest;
    assert data == Encode32(n) + (a + (b + (c + rest)));
    Peel(Encode32(n), a + (b + (c + rest)));
    Peel(a, b + (c + rest));
    Peel(a + b, c + rest);
    assert a + (b + (c + rest)) == (a + b) + (c + rest);
    ReadOffsetsWritten(h.chunkOff, b + (c + rest));
    ReadOffsetsWritten(h.mapOff, c + rest);
    ReadOffsetsWritten(h.mapSz, rest);
  }

  lemma {:induction false} OffsetAt(offsets: seq<uint64>, i: nat)
    requires i < |offsets|
    ensures OffsetsBytes(offsets)[8 * i..8 * i + 8] == Encode64(offsets[i])
  {
    hide Encode64;
    if i > 0 {
      OffsetAt(offsets[1..], i - 1);
      var rest := OffsetsBytes(offsets[1..]);
      assert OffsetsBytes(offsets)[8 * i..8 * i + 8] == rest[8 * (i - 1)..8 * (i - 1) + 8];
    }
  }

  /** The place of each number of the header: the count, all chunk offsets, all map offsets, all map sizes. */
  lemma HeaderFields(h: Header, i: nat)
    requires |h.chunkOff| == |h.mapOff| == |h.mapSz| < UINT32_LIMIT && i < |h.chunkOff|
    ensures var buf, n := HeaderBytes(h), |h.chunkOff|;
            && |buf| == 4 + 24 * n && buf[0..4] == Encode32(n)
            && buf[4 + 8 * i..12 + 8 * i] == Encode64(h.chunkOff[i])
            && buf[4 + 8 * n + 8 * i..12 + 8 * n + 8 * i] == Encode64(h.mapOff[i])
            && buf[4 + 16 * n + 8 * i..12 + 16 * n + 8 * i] == Encode64(h.mapSz[i])
  {
    hide Encode32, Encode64, OffsetsBytes;
    OffsetAt(h.chunkOff, i);
    OffsetAt(h.mapOff, i);
    OffsetAt(h.mapSz, i);
    PartsOf4(Encode32(|h.chunkOff|), OffsetsBytes(h.chunkOff), OffsetsBytes(h.mapOff), OffsetsBytes(h.mapSz), 8 * i,
             8 * i + 8);
  }

  lemma PartsOf4<T>(a: seq<T>, b: seq<T>, c: seq<T>, d: seq<T>, i: nat, j: nat)
    requires i <= j <= |b| == |c| == |d|
    ensures var s := a + b + c + d;
            && s[0..|a|] == a && s[|a| + i..|a| + j] == b[i..j] && s[|a| + |b| + i..|a| + |b| + j] == c[i..j]
            && s[|a| + 2 * |b| + i..|a| + 2 * |b| + j] == d[i..j]
  {
  }

  lemma {:induction false} WriteParsedOffsets(buf: seq<byte>, n: nat)
    requires |buf| >= 8 * n
    ensures OffsetsBytes(ReadOffsets(buf, n)) == buf[..8 * n]
  {
    hide Encode64, Decode64;
    if n > 0 {
      WriteParsedOffsets(buf[8..], n - 1);
      assert buf[..8 * n] == buf[..8] + buf[8..][..8 * (n - 1)];
    }
  }

  /** A header is extracted exactly if the data start with the bytes of one. */
  lemma WriteParsedHeader(data: seq<byte>)
    requires ExtractHeader(data).Read?
    ensures HeaderBytes(ExtractHeader(data).value) == data[..ExtractHeader(data).size]
  {
    hide OffsetsBytes, ReadOffsets, Encode32, Decode32;
    var n: nat := Decode32(data[..4]);
    var rest := data[4..];
    WriteParsedOffsets(rest, n);
    WriteParsedOffsets(rest[8 * n..], n);
    WriteParsedOffsets(rest[16 * n..], n);
    ThreeParts(rest, 8 * n);
    assert data[..4 + 24 * n] == data[..4] + rest[..24 * n];
  }

  lemma ThreeParts<T>(s: seq<T>, k: nat)
    requires 3 * k <= |s|
    ensures s[..k] + s[k..][..k] + s[2 * k..][..k] == s[..3 * k]
  {
  }

  // ---------- the body ----------

  ghost predicate Storable(chunks: seq<seq<BlockData>>, maps: seq<Balances>) {
    && |chunks| == |maps|
    && (forall c :: 0 <= c < |chunks| ==> AllReadable(chunks[c]))
  }

  function ChainSize(blocks: seq<BlockData>): nat {
    if blocks == [] then 0 else ChainSize(blocks[..|blocks| - 1]) + BlockSize(blocks[|blocks| - 1])
  }

  lemma {:induction false} ChainBytesSize(blocks: seq<BlockData>)
    requires AllReadable(blocks)
    ensures |ChainBytes(blocks)| == ChainSize(blocks)
    decreases |blocks|
  {
    if blocks != [] {
      var init, last := blocks[..|blocks| - 1], blocks[|blocks| - 1];
      ChainBytesSize(init);
      ChainBytesLast(init, last);
      assert blocks == init + [last];
    }
  }

  /** The bytes of the first `m` chunks with their maps. */
  ghost function BodyBytes(chunks: seq<seq<BlockData>>, maps: seq<Balances>, m: nat): (s: seq<byte>)
    requires Storable(chunks, maps) && m <= |chunks|
  {
    if m == 0 then []
    else BodyBytes(chunks, maps, m - 1) + ChainBytes(chunks[m - 1]) + MapBytes(maps[m - 1])
  }

  function BodySize(chunks: seq<seq<BlockData>>, maps: seq<Balances>, m: nat): nat
    requires m <= |chunks| == |maps|
  {
    if m == 0 then 0 else BodySize(chunks, maps, m - 1) + ChainSize(chunks[m - 1]) + MapSize(maps[m - 1])
  }

  lemma {:induction false} BodyBytesSize(chunks: seq<seq<BlockData>>, maps: seq<Balances>, m: nat)
    requires Storable(chunks, maps) && m <= |chunks|
    ensures |BodyBytes(chunks, maps, m)| == BodySize(chunks, maps, m)
  {
    hide ChainBytes, MapBytes, AllReadable;
    if m > 0 {
      BodyBytesSize(chunks, maps, m - 1);
      ChainBytesSize(chunks[m - 1]);
    }
  }

  lemma {:induction false} BodySizeMonotone(chunks: seq<seq<BlockData>>, maps: seq<Balances>, c: nat, m: nat)
    requires c <= m <= |chunks| == |maps|
    ensures BodySize(chunks, maps, c) <= BodySize(chunks, maps, m)
    decreases m
  {
    if c < m {
      BodySizeMonotone(chunks, maps, c, m - 1);
    }
  }

  // ---------- the offsets ----------

  function ChunkOffset(chunks: seq<seq<BlockData>>, maps: seq<Balances>, c: nat): nat
    requires c <= |chunks| == |maps|
  {
    HeaderSize(|chunks|) + BodySize(chunks, maps, c)
  }

  function MapOffset(chunks: seq<seq<BlockData>>, maps: seq<Balances>, c: nat): nat
    requires c < |chunks| == |maps|
  {
    ChunkOffset(chunks, maps, c) + ChainSize(chunks[c])
  }

  /** All offsets fit 64 bits, and the chunk count fits 32. */
  predicate FitsOffsets(chunks: seq<seq<BlockData>>, maps: seq<Balances>)
    requires |chunks| == |maps|
  {
    |chunks| < UINT32_LIMIT && ChunkOffset(chunks, maps, |chunks|) < UINT64_LIMIT
  }

  /** The header of the first `m` chunks. */
  function HeaderUpTo(chunks: seq<seq<BlockData>>, maps: seq<Balances>, m: nat): (h: Header)
    requires m <= |chunks| == |maps| && FitsOffsets(chunks, maps)
    ensures |h.chunkOff| == |h.mapOff| == |h.mapSz| == m
  {
    if m == 0 then Header([], [], [])
    else
      BodySizeMonotone(chunks, maps, m, |chunks|);
      var h := HeaderUpTo(chunks, maps, m - 1);
      Header(h.chunkOff + [ChunkOffset(chunks, maps, m - 1)], h.mapOff + [MapOffset(chunks, maps, m - 1)],
             h.mapSz + [MapSize(maps[m - 1])])
  }

  lemma {:induction false} HeaderAt(chunks: seq<seq<BlockData>>, maps: seq<Balances>, m: nat, c: nat)
    requires c < m <= |chunks| == |maps| && FitsOffsets(chunks, maps)
    ensures var h := HeaderUpTo(chunks, maps, m);
            && h.chunkOff[c] == ChunkOffset(chunks, maps, c) && h.mapOff[c] == MapOffset(chunks, maps, c)
            && h.mapSz[c] == MapSize(maps[c])
    decreases m
  {
    if c < m - 1 {
      HeaderAt(chunks, maps, m - 1, c);
    }
  }

  ghost function FileBytes(chunks: seq<seq<BlockData>>, maps: seq<Balances>): seq<byte>
    requires Storable(chunks, maps) && FitsOffsets(chunks, maps)
  {
    HeaderBytes(HeaderUpTo(chunks, maps, |chunks|)) + BodyBytes(chunks, maps, |chunks|)
  }

  // ---------- the layout is right ----------

  lemma {:induction false} BodyPrefix(chunks: seq<seq<BlockData>>, maps: seq<Balances>, c: nat, m: nat)
    returns (rest: seq<byte>)
    requires Storable(chunks, maps) && c <= m <= |chunks|
    ensures BodyBytes(chunks, maps, m) == BodyBytes(chunks, maps, c) + rest
    decreases m
  {
    hide ChainBytes, MapBytes, AllReadable;
    if c == m {
      rest := [];
    } else {
      var before := BodyPrefix(chunks, maps, c, m - 1);
      rest := before + ChainBytes(chunks[m - 1]) + MapBytes(maps[m - 1]);
      assert BodyBytes(chunks, maps, m)
             == BodyBytes(chunks, maps, c) + before + ChainBytes(chunks[m - 1]) + MapBytes(maps[m - 1]);
    }
  }

  lemma CutMiddle<T>(a: seq<T>, b: seq<T>, c: seq<T>, d: seq<T>)
    ensures (a + b + c + d)[|a|..|a| + |b|] == b
    ensures (a + b + c + d)[|a| + |b|..] == c + d
  {
  }

  /** The file has chunk `c` at its chunk offset up to its map offset, and its map there: what the reader relies on. */
  ghost predicate ChunkAt(file: seq<byte>, h: Header, c: nat, chunk: seq<BlockData>, stored: Balances)
    requires AllReadable(chunk)
  {
    && c < |h.chunkOff| && c < |h.mapOff|
    && h.chunkOff[c] <= h.mapOff[c] <= |file| && h.mapOff[c] > 0
    && file[h.chunkOff[c]..h.mapOff[c]] == ChainBytes(chunk)
    && HoldsMap(file[h.mapOff[c]..]) && ReadMap(file[h.mapOff[c]..]) == stored
  }

  /** A file in the indexed format for these chunks and maps, wherever its chunks and maps are placed. */
  ghost predicate IndexedFile(file: seq<byte>, chunks: seq<seq<BlockData>>, maps: seq<Balances>) {
    && Storable(chunks, maps)
    && match ExtractHeader(file)
       case Failed => false
       case Read(h, _) =>
         |h.chunkOff| == |chunks| && forall c :: 0 <= c < |chunks| ==> ChunkAt(file, h, c, chunks[c], maps[c])
  }

  /** The written file is in the indexed format: each offset is the stream position its part is written at. */
  lemma FileIsIndexed(chunks: seq<seq<BlockData>>, maps: seq<Balances>)
    requires Storable(chunks, maps) && FitsOffsets(chunks, maps)
    requires forall m :: m in maps ==> |m| < UINT32_LIMIT
    ensures IndexedFile(FileBytes(chunks, maps), chunks, maps)
  {
    hide HeaderBytes, BodyBytes, ExtractHeader, ChunkAt, HeaderUpTo;
    var h := HeaderUpTo(chunks, maps, |chunks|);
    HeaderRoundTrip(h, BodyBytes(chunks, maps, |chunks|));
    forall c | 0 <= c < |chunks| ensures ChunkAt(FileBytes(chunks, maps), h, c, chunks[c], maps[c]) {
      WrittenChunkAt(chunks, maps, c);
    }
  }

  lemma ChunkAtFrom(file: seq<byte>, h: Header, c: nat, chunk: seq<BlockData>, stored: Balances, front: seq<byte>,
                    rest: seq<byte>)
    requires AllReadable(chunk) && |stored| < UINT32_LIMIT
    requires file == front + ChainBytes(chunk) + MapBytes(stored) + rest && front != []
    requires c < |h.chunkOff| && h.chunkOff[c] == |front|
    requires c < |h.mapOff| && h.mapOff[c] == |front| + |ChainBytes(chunk)|
    ensures ChunkAt(file, h, c, chunk, stored)
  {
    hide ReadMap, HoldsMap, MapBytes, ChainBytes, AllReadable;
    CutMiddle(front, ChainBytes(chunk), MapBytes(stored), rest);
    MapRoundTrip(stored, rest);
  }

  lemma WrittenChunkAt(chunks: seq<seq<BlockData>>, maps: seq<Balances>, c: nat)
    requires Storable(chunks, maps) && FitsOffsets(chunks, maps) && c < |chunks| && |maps[c]| < UINT32_LIMIT
    ensures ChunkAt(FileBytes(chunks, maps), HeaderUpTo(chunks, maps, |chunks|), c, chunks[c], maps[c])
  {
    hide HeaderBytes, HeaderUpTo, MapBytes, ChainBytes, AllReadable, ChainSize, ChunkAt, BodySize;
    var h := HeaderUpTo(chunks, maps, |chunks|);
    HeaderAt(chunks, maps, |chunks|, c);
    BodyBytesSize(chunks, maps, c);
    ChainBytesSize(chunks[c]);
    var front := HeaderBytes(h) + BodyBytes(chunks, maps, c);
    var rest := BodyPrefix(chunks, maps, c + 1, |chunks|);
    Regroup4(HeaderBytes(h), BodyBytes(chunks, maps, c), ChainBytes(chunks[c]), MapBytes(maps[c]), rest);
    ChunkAtFrom(FileBytes(chunks, maps), h, c, chunks[c], maps[c], front, rest);
  }

  lemma Regroup4<T>(h: seq<T>, a: seq<T>, b: seq<T>, c: seq<T>, d: seq<T>)
    ensures h + (a + b + c + d) == h + a + b + c + d
  {
  }

  /**
   * Chunks and maps follow one another without gap or overlap, from the end of the header to the end of the file.
   * `HeaderUpTo` lists just these offsets (`HeaderAt`).
   */
  lemma OffsetsTile(chunks: seq<seq<BlockData>>, maps: seq<Balances>, c: nat)
    requires Storable(chunks, maps) && FitsOffsets(chunks, maps) && c < |chunks|
    ensures ChunkOffset(chunks, maps, 0) == |HeaderBytes(HeaderUpTo(chunks, maps, |chunks|))|
    ensures MapOffset(chunks, maps, c) - ChunkOffset(chunks, maps, c) == |ChainBytes(chunks[c])|
    ensures ChunkOffset(chunks, maps, c + 1) - MapOffset(chunks, maps, c) == |MapBytes(maps[c])|
    ensures ChunkOffset(chunks, maps, |chunks|) == |FileBytes(chunks, maps)|
  {
    hide MapSize, ChainSize, HeaderBytes, ChainBytes, MapBytes, AllReadable, BodyBytes;
    BodyBytesSize(chunks, maps, |chunks|);
    ChainBytesSize(chunks[c]);
  }
}
