/** Bytes, fixed-width little-endian integers and 32-byte hashes. */
module Bytes {

  newtype byte = x: int | 0 <= x < 256

  const UINT32_LIMIT: int := 0x1_0000_0000
  const UINT64_LIMIT: int := 0x1_0000_0000_0000_0000

  type uint32 = x: int | 0 <= x < UINT32_LIMIT
  type uint64 = x: int | 0 <= x < UINT64_LIMIT

  const HASH_SIZE: nat := 32

  function Zeros(n: nat): (s: seq<byte>)
    ensures |s| == n && forall i :: 0 <= i < n ==> s[i] == 0
  {
    if n == 0 then [] else [0] + Zeros(n - 1)
  }

  type Hash = h: seq<byte> | |h| == HASH_SIZE witness Zeros(HASH_SIZE)

  const ZERO_HASH: Hash := Zeros(HASH_SIZE)

  // ---------- little-endian integers ----------

  /** 256 to the power `width`. */
  function Capacity(width: nat): nat {
    if width == 0 then 1 else 256 * Capacity(width - 1)
  }

  function LittleEndian(n: nat, width: nat): (s: seq<byte>)
    ensures |s| == width
  {
    if width == 0 then [] else [(n % 256) as byte] + LittleEndian(n / 256, width - 1)
  }

  function FromLittleEndian(s: seq<byte>): (n: nat)
    ensures n < Capacity(|s|)
  {
    if s == [] then 0 else s[0] as int + 256 * FromLittleEndian(s[1..])
  }

  lemma {:induction false} DecodeEncode(n: nat, width: nat)
    requires n < Capacity(width)
    ensures FromLittleEndian(LittleEndian(n, width)) == n
  {
    if width > 0 {
      DecodeEncode(n / 256, width - 1);
      assert LittleEndian(n, width)[1..] == LittleEndian(n / 256, width - 1);
    }
  }

  lemma {:induction false} EncodeDecode(s: seq<byte>)
    ensures LittleEndian(FromLittleEndian(s), |s|) == s
  {
    if s != [] {
      EncodeDecode(s[1..]);
      var rest := FromLittleEndian(s[1..]);
      assert FromLittleEndian(s) == s[0] as int + 256 * rest;
      assert FromLittleEndian(s) % 256 == s[0] as int && FromLittleEndian(s) / 256 == rest;
      assert s == [s[0]] + s[1..];
    }
  }

  lemma Capacities()
    ensures Capacity(4) == UINT32_LIMIT && Capacity(8) == UINT64_LIMIT
  {
    assert Capacity(2) == 256 * 256;
    assert Capacity(4) == 256 * (256 * Capacity(2));
    assert Capacity(6) == 256 * (256 * Capacity(4));
  }

  function Encode32(n: uint32): (s: seq<byte>) ensures |s| == 4 {
    LittleEndian(n, 4)
  }

  function Encode64(n: uint64): (s: seq<byte>) ensures |s| == 8 {
    LittleEndian(n, 8)
  }

  function Decode32(s: seq<byte>): (n: uint32)
    requires |s| == 4
    ensures Encode32(n) == s
  {
    Capacities();
    EncodeDecode(s);
    FromLittleEndian(s)
  }

  function Decode64(s: seq<byte>): (n: uint64)
    requires |s| == 8
    ensures Encode64(n) == s
  {
    Capacities();
    EncodeDecode(s);
    FromLittleEndian(s)
  }

  lemma Decode32Encode(n: uint32)
    ensures Decode32(Encode32(n)) == n
  {
    Capacities();
    DecodeEncode(n, 4);
  }

  lemma Decode64Encode(n: uint64)
    ensures Decode64(Encode64(n)) == n
  {
    Capacities();
    DecodeEncode(n, 8);
  }

  /** The four bytes of an encoded number, the lowest first. */
  lemma Encode32Bytes(n: uint32)
    ensures Encode32(n) == [(n % 256) as byte, (n / 0x100 % 256) as byte, (n / 0x1_0000 % 256) as byte,
                            (n / 0x100_0000) as byte]
  {
    var a := n / 256;
    var b := a / 256;
    var c := b / 256;
    assert a == n / 0x100 && b == n / 0x1_0000 && c == n / 0x100_0000 && c / 256 == 0;
    assert LittleEndian(c, 1) == [(c % 256) as byte] + LittleEndian(c / 256, 0);
    assert LittleEndian(b, 2) == [(b % 256) as byte] + LittleEndian(c, 1);
    assert LittleEndian(a, 3) == [(a % 256) as byte] + LittleEndian(b, 2);
    assert LittleEndian(n, 4) == [(n % 256) as byte] + LittleEndian(a, 3);
  }

  lemma Decode32Value(s: seq<byte>)
    requires |s| == 4
    ensures Decode32(s) == s[0] as int + 0x100 * s[1] as int + 0x1_0000 * s[2] as int + 0x100_0000 * s[3] as int
  {
    var a, b, c := s[1..], s[2..], s[3..];
    assert a[1..] == b && b[1..] == c && c[1..] == [];
    assert FromLittleEndian(c) == c[0] as int + 256 * FromLittleEndian([]);
    assert FromLittleEndian(b) == b[0] as int + 256 * FromLittleEndian(c);
    assert FromLittleEndian(a) == a[0] as int + 256 * FromLittleEndian(b);
    assert FromLittleEndian(s) == s[0] as int + 256 * FromLittleEndian(a);
  }

  /** Eight bytes are two numbers of four, the lower one first. */
  lemma Decode64Value(s: seq<byte>)
    requires |s| == 8
    ensures Decode64(s) == Decode32(s[..4]) + UINT32_LIMIT * Decode32(s[4..])
  {
    Decode32Value(s[..4]);
    FromLittleEndianSplit(s);
  }

  lemma FromLittleEndianSplit(s: seq<byte>)
    requires |s| == 8
    ensures FromLittleEndian(s) == FromLittleEndian(s[..4]) + UINT32_LIMIT * FromLittleEndian(s[4..])
  {
    var a, b, c, d := s[1..], s[2..], s[3..], s[4..];
    var x := s[..4];
    assert x[1..] == s[1..4] && x[1..][1..] == s[2..4] && x[1..][1..][1..] == s[3..4];
    assert FromLittleEndian(s[3..4]) == s[3] as int + 256 * FromLittleEndian(s[3..4][1..]);
    assert s[3..4][1..] == [];
    assert FromLittleEndian(s[2..4]) == s[2] as int + 256 * FromLittleEndian(s[3..4]);
    assert FromLittleEndian(s[1..4]) == s[1] as int + 256 * FromLittleEndian(s[2..4]);
    assert FromLittleEndian(x) == s[0] as int + 256 * FromLittleEndian(s[1..4]);
    assert FromLittleEndian(c) == c[0] as int + 256 * FromLittleEndian(d);
    assert FromLittleEndian(b) == b[0] as int + 256 * FromLittleEndian(c);
    assert FromLittleEndian(a) == a[0] as int + 256 * FromLittleEndian(b);
    assert FromLittleEndian(s) == s[0] as int + 256 * FromLittleEndian(a);
  }

  /** A 32-bit pattern read as a C `int`. */
  function ToSigned(n: uint32): int {
    if n < 0x8000_0000 then n else n - UINT32_LIMIT
  }

  // ---------- the order on hashes ----------

  /** Lexicographic order on byte strings of one length. */
  predicate LexLess(a: seq<byte>, b: seq<byte>)
    requires |a| == |b|
  {
    a != [] && (a[0] < b[0] || (a[0] == b[0] && LexLess(a[1..], b[1..])))
  }

  /** At the first place where two strings differ, the smaller one has the smaller byte. */
  ghost predicate SmallerAt(a: seq<byte>, b: seq<byte>, i: nat)
    requires |a| == |b|
  {
    i < |a| && a[..i] == b[..i] && a[i] < b[i]
  }

  lemma SmallerAtFirst(a: seq<byte>, b: seq<byte>, i: nat)
    requires |a| == |b| && SmallerAt(a, b, i)
    ensures a[0] < b[0] || (i > 0 && a[0] == b[0])
  {
    if i > 0 {
      assert a[0] == a[..i][0] && b[0] == b[..i][0];
    }
  }

  lemma {:induction false} LexLessIff(a: seq<byte>, b: seq<byte>)
    requires |a| == |b|
    ensures LexLess(a, b) <==> exists i: nat :: SmallerAt(a, b, i)
  {
    if a != [] && a[0] == b[0] {
      LexLessIff(a[1..], b[1..]);
      assert a == [a[0]] + a[1..] && b == [b[0]] + b[1..];
      if LexLess(a[1..], b[1..]) {
        var i: nat :| SmallerAt(a[1..], b[1..], i);
        assert a[..i + 1] == [a[0]] + a[1..][..i] && b[..i + 1] == [b[0]] + b[1..][..i];
        assert SmallerAt(a, b, i + 1);
      }
      if i: nat :| SmallerAt(a, b, i) {
        assert i > 0;
        assert a[1..][..i - 1] == a[..i][1..] && b[1..][..i - 1] == b[..i][1..];
        assert SmallerAt(a[1..], b[1..], i - 1);
      }
    } else if a != [] {
      if a[0] < b[0] {
        assert SmallerAt(a, b, 0);
      }
      if i: nat :| SmallerAt(a, b, i) {
        SmallerAtFirst(a, b, i);
      }
    }
  }

  lemma {:induction false} LexTrichotomy(a: seq<byte>, b: seq<byte>)
    requires |a| == |b|
    ensures LexLess(a, b) || a == b || LexLess(b, a)
    ensures !(LexLess(a, b) && LexLess(b, a))
    ensures LexLess(a, b) ==> a != b
  {
    if a != [] {
      LexTrichotomy(a[1..], b[1..]);
      assert a == [a[0]] + a[1..] && b == [b[0]] + b[1..];
    }
  }

  lemma {:induction false} LexTransitive(a: seq<byte>, b: seq<byte>, c: seq<byte>)
    requires |a| == |b| == |c|
    requires LexLess(a, b) && LexLess(b, c)
    ensures LexLess(a, c)
  {
    if a[0] == b[0] == c[0] {
      LexTransitive(a[1..], b[1..], c[1..]);
    }
  }

  method HashEqual(a: Hash, b: Hash) returns (r: bool)
    ensures r <==> a == b
  {
    for i := 0 to HASH_SIZE
      invariant a[..i] == b[..i]
    {
      if a[i] != b[i] {
        return false;
      }
    }
    assert a == a[..HASH_SIZE] && b == b[..HASH_SIZE];
    return true;
  }

  method HashLess(a: Hash, b: Hash) returns (r: bool)
    ensures r <==> LexLess(a, b)
    ensures r <==> exists i: nat :: SmallerAt(a, b, i)
  {
    LexLessIff(a, b);
    for i := 0 to HASH_SIZE
      invariant LexLess(a, b) <==> LexLess(a[i..], b[i..])
    {
      assert a[i..][1..] == a[i + 1..] && b[i..][1..] == b[i + 1..];
      if a[i] < b[i] {
        return true;
      } else if a[i] > b[i] {
        return false;
      }
    }
    return false;
  }
}
