/** Bytes, byte strings and the buffer primitives of the C library that the codecs are written with. */
module Bytes {
  import opened WordSizes

  type byte = bv8
  type bytes = seq<byte>

  /** The first |a| bytes of b, combined with a by exclusive or. */
  function Xor(a: bytes, b: bytes): (r: bytes)
    requires |a| <= |b|
    ensures |r| == |a|
    ensures forall i :: 0 <= i < |a| ==> r[i] == a[i] ^ b[i]
  {
    seq(|a|, i requires 0 <= i < |a| => a[i] ^ b[i])
  }

  lemma XorLength(a: bytes, b: bytes)
    requires |a| <= |b|
    ensures |Xor(a, b)| == |a|
  {
  }

  lemma XorByteCancel(x: byte, y: byte)
    ensures (x ^ y) ^ y == x
    ensures x ^ y == y ^ x
  {
  }

  lemma XorCancel(a: bytes, b: bytes)
    requires |a| <= |b|
    ensures Xor(Xor(a, b), b) == a
  {
    forall i | 0 <= i < |a|
      ensures Xor(Xor(a, b), b)[i] == a[i]
    {
      XorByteCancel(a[i], b[i]);
    }
  }

  lemma XorCommutes(a: bytes, b: bytes)
    requires |a| == |b|
    ensures Xor(a, b) == Xor(b, a)
  {
    forall i | 0 <= i < |a|
      ensures Xor(a, b)[i] == Xor(b, a)[i]
    {
      XorByteCancel(a[i], b[i]);
    }
  }

  /** memcpy from memory that is only read. */
  method Store(dst: array<byte>, doff: nat, v: bytes)
    requires doff + |v| <= dst.Length
    modifies dst
    ensures dst[doff..doff + |v|] == v
    ensures forall i :: 0 <= i < dst.Length ==> dst[i] == if doff <= i < doff + |v| then v[i - doff] else old(dst[i])
  {
    forall i | 0 <= i < |v| {
      dst[doff + i] := v[i];
    }
  }

  /** memcmp_const: looks at every byte, and is 0 exactly when the strings agree, else 1. */
  method MemcmpConst(s1: bytes, s2: bytes) returns (r: bv32)
    requires |s1| == |s2|
    ensures r == if s1 == s2 then 0 else 1
  {
    var acc: bv32 := 0;
    for i := 0 to |s1|
      invariant acc <= 0xff
      invariant acc == 0 <==> s1[..i] == s2[..i]
    {
      assert s1[..i + 1] == s1[..i] + [s1[i]] && s2[..i + 1] == s2[..i] + [s2[i]];
      var d: byte := s1[i] ^ s2[i];
      OrStep(acc, s1[i], s2[i]);
      acc := acc | d as bv32;
    }
    assert s1[..|s1|] == s1 && s2[..|s2|] == s2;
    r := (((acc - 1) >> 8) & 1) ^ 1;
  }

  lemma OrStep(acc: bv32, x: byte, y: byte)
    requires acc <= 0xff
    ensures acc | (x ^ y) as bv32 <= 0xff
    ensures acc | (x ^ y) as bv32 == 0 <==> acc == 0 && x == y
  {
  }

  /** The low `w` bytes of n, least significant first: how the library's integers lie in memory. */
  function Le(n: nat, w: nat): (r: bytes)
    ensures |r| == w
  {
    if w == 0 then [] else [(n % 256) as byte] + Le(n / 256, w - 1)
  }

  /** The byte of n at a power of 256. */
  function ByteOf(n: nat, power: nat): byte
    requires power > 0
  {
    (n / power % 0x100) as byte
  }

  /** Eight little-endian bytes, written out. */
  lemma LeOfWord(n: nat)
    ensures Le(n, 8) == [ByteOf(n, 0x1), ByteOf(n, 0x100), ByteOf(n, 0x1_0000), ByteOf(n, 0x100_0000),
                         ByteOf(n, 0x1_0000_0000), ByteOf(n, 0x100_0000_0000), ByteOf(n, 0x1_0000_0000_0000),
                         ByteOf(n, 0x100_0000_0000_0000)]
  {
    hide Le, ByteOf;
    LeFour(n);
    LeFour(n / 0x1_0000_0000);
    ByteOfWord(n);
    FourMore(n, 4);
  }

  lemma LeFour(n: nat)
    ensures Le(n, 4) == [ByteOf(n, 0x1), ByteOf(n, 0x100), ByteOf(n, 0x1_0000), ByteOf(n, 0x100_0000)]
  {
    hide Le, ByteOf;
    LeTwo(n);
    LeTwo(n / 0x1_0000);
    ByteOfHalf(n);
    TwoMore(n, 2);
  }

  lemma LeTwo(n: nat)
    ensures Le(n, 2) == [ByteOf(n, 0x1), ByteOf(n, 0x100)]
  {
    assert Le(n / 0x100, 1) == [ByteOf(n / 0x100, 0x1)] + Le(n / 0x100 / 0x100, 0);
  }

  lemma ByteOfHalf(n: nat)
    ensures ByteOf(n / 0x1_0000, 0x1) == ByteOf(n, 0x1_0000)
    ensures ByteOf(n / 0x1_0000, 0x100) == ByteOf(n, 0x100_0000)
  {
    assert n / 0x1_0000 / 0x100 == n / 0x100_0000;
  }

  lemma ByteOfWord(n: nat)
    ensures ByteOf(n / 0x1_0000_0000, 0x1) == ByteOf(n, 0x1_0000_0000)
    ensures ByteOf(n / 0x1_0000_0000, 0x100) == ByteOf(n, 0x100_0000_0000)
    ensures ByteOf(n / 0x1_0000_0000, 0x1_0000) == ByteOf(n, 0x1_0000_0000_0000)
    ensures ByteOf(n / 0x1_0000_0000, 0x100_0000) == ByteOf(n, 0x100_0000_0000_0000)
  {
    WordParts(n);
  }

  lemma WordParts(n: nat)
    ensures n / 0x1_0000_0000 / 0x100 == n / 0x100_0000_0000
    ensures n / 0x1_0000_0000 / 0x1_0000 == n / 0x1_0000_0000_0000
    ensures n / 0x1_0000_0000 / 0x100_0000 == n / 0x100_0000_0000_0000
  {
  }

  lemma OneMore(n: nat, w: nat)
    ensures Le(n, 1 + w) == [ByteOf(n, 0x1)] + Le(n / 0x100, w)
  {
  }

  lemma TwoMore(n: nat, w: nat)
    ensures Le(n, 2 + w) == Le(n, 2) + Le(n / 0x1_0000, w)
  {
    hide Le, ByteOf;
    var m := n / 0x100;
    assert m / 0x100 == n / 0x1_0000;
    OneMore(n, 1 + w);
    OneMore(m, w);
    OneMore(n, 1);
    OneMore(m, 0);
    NoBytes(m / 0x100);
  }

  lemma NoBytes(n: nat)
    ensures Le(n, 0) == []
  {
  }

  lemma FourMore(n: nat, w: nat)
    ensures Le(n, 4 + w) == Le(n, 4) + Le(n / 0x1_0000_0000, w)
  {
    hide Le;
    var m := n / 0x1_0000;
    assert m / 0x1_0000 == n / 0x1_0000_0000;
    TwoMore(n, 2 + w);
    TwoMore(n, 2);
    TwoMore(m, w);
  }

  /** A number that has room is known from its bytes. */
  lemma {:induction false} LeInjective(m: nat, n: nat, w: nat, bound: nat)
    requires Le(m, w) == Le(n, w) && m < bound && n < bound && bound <= Above(w)
    ensures m == n
    decreases w
  {
    if w == 0 {
    } else {
      assert Le(m, w)[0] == Le(n, w)[0] && Le(m, w)[1..] == Le(n, w)[1..];
      assert Le(m, w)[1..] == Le(m / 256, w - 1) && Le(n, w)[1..] == Le(n / 256, w - 1);
      SameByte(m % 256, n % 256);
      LeInjective(m / 256, n / 256, w - 1, Above(w - 1));
    }
  }

  lemma SameByte(a: nat, b: nat)
    requires a < 256 && b < 256 && a as byte == b as byte
    ensures a == b
  {
    ByteIs(a);
    ByteIs(b);
  }

  /** The first number that w bytes have no room for. */
  function Above(w: nat): (n: nat)
    ensures n > 0
  {
    if w == 0 then 1 else 256 * Above(w - 1)
  }

  lemma AboveWords()
    ensures Above(2) == 0x1_0000 && Above(4) == 0x1_0000_0000 && Above(8) == 0x1_0000_0000_0000_0000
  {
  }

  /** A 64-bit word read from memory, and written back. */
  function Load64(b: bytes): bv64
    requires |b| == 8
  {
    b[0] as bv64 | (b[1] as bv64 << 8) | (b[2] as bv64 << 16) | (b[3] as bv64 << 24)
    | (b[4] as bv64 << 32) | (b[5] as bv64 << 40) | (b[6] as bv64 << 48) | (b[7] as bv64 << 56)
  }

  function Bytes64(w: bv64): (b: bytes)
    ensures |b| == 8
  {
    [(w & 0xff) as byte, ((w >> 8) & 0xff) as byte, ((w >> 16) & 0xff) as byte, ((w >> 24) & 0xff) as byte,
     ((w >> 32) & 0xff) as byte, ((w >> 40) & 0xff) as byte, ((w >> 48) & 0xff) as byte, ((w >> 56) & 0xff) as byte]
  }

  /** Combining words combines their bytes. */
  lemma WordXor(a: bytes, b: bytes)
    requires |a| == 8 && |b| == 8
    ensures Bytes64(Load64(a) ^ Load64(b)) == Xor(a, b)
  {
  }
}
