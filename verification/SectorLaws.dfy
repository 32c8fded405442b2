/** What sealing a sector means in the terms of AES and HMAC alone, and what its authentication rests on. */
module SectorLaws {
  import opened Bytes
  import opened BlockCipher
  import opened SectorBuffers
  import opened SectorCodec

  /**
   * HMAC as section 2 of RFC 2104 defines it, for a key that a hash block has room for: zeros are appended to it. Of a
   * longer key the code takes the first 128 bytes, where the RFC would hash it.
   */
  lemma HmacIsRfc2104(k: Codec, msg: bytes, n: nat, key: bytes, ipad: bytes, opad: bytes)
    requires |key| == |ipad| == |opad| == 128 && n == (if |k.iv| <= 128 then |k.iv| else 128)
    requires key[..n] == k.iv[..n] && forall i :: n <= i < 128 ==> key[i] == 0
    requires forall i :: 0 <= i < 128 ==> ipad[i] == 0x36 && opad[i] == 0x5c
    ensures k.Hmac(msg) == k.sha(Xor(key, opad) + k.sha(Xor(key, ipad) + msg))
  {
    PadIs(k.iv, n, key, ipad, 0x36);
    PadIs(k.iv, n, key, opad, 0x5c);
  }

  lemma PadIs(iv: bytes, n: nat, key: bytes, pad: bytes, b: byte)
    requires |key| == |pad| == 128 && n == if |iv| <= 128 then |iv| else 128
    requires key[..n] == iv[..n] && forall i :: n <= i < 128 ==> key[i] == 0
    requires forall i :: 0 <= i < 128 ==> pad[i] == b
    ensures KeyPad(iv, b) == Xor(key, pad)
  {
    forall i | 0 <= i < 128
      ensures KeyPad(iv, b)[i] == Xor(key, pad)[i]
    {
      PadByte(iv, n, key, pad, b, i);
    }
  }

  lemma PadByte(iv: bytes, n: nat, key: bytes, pad: bytes, b: byte, i: nat)
    requires |key| == |pad| == 128 && n == (if |iv| <= 128 then |iv| else 128) && i < 128 && pad[i] == b
    requires key[..n] == iv[..n] && (i >= n ==> key[i] == 0)
    ensures KeyPad(iv, b)[i] == Xor(key, pad)[i]
  {
    if i < n {
      assert key[i] == key[..n][i] == iv[..n][i];
    } else {
      ZeroByte(b);
    }
  }

  lemma ZeroByte(b: byte)
    ensures 0 ^ b == b
  {
  }

  /** Two messages with one HMAC are a collision of the hash. */
  lemma HmacCollides(k: Codec, m1: bytes, m2: bytes) returns (x: bytes, y: bytes)
    requires m1 != m2 && k.Hmac(m1) == k.Hmac(m2)
    ensures x != y && k.sha(x) == k.sha(y)
  {
    var i, o := KeyPad(k.iv, 0x36), KeyPad(k.iv, 0x5c);
    Behind(i, m1, m2);
    if k.sha(i + m1) == k.sha(i + m2) {
      return i + m1, i + m2;
    }
    Behind(o, k.sha(i + m1), k.sha(i + m2));
    return o + k.sha(i + m1), o + k.sha(i + m2);
  }

  lemma Behind(a: bytes, x: bytes, y: bytes)
    requires x != y
    ensures a + x != a + y
  {
    assert (a + x)[|a|..] == x && (a + y)[|a|..] == y;
  }

  /** Each block of a chained ciphertext, from the block of the plaintext and the block of ciphertext before it. */
  lemma {:induction false} CbcBlock(k: Codec, iv: Block, p: bytes, i: nat)
    requires |p| % 16 == 0 && 16 * i + 16 <= |p|
    ensures var c := CbcEncrypt(k, iv, p);
            c[16 * i..16 * i + 16] == k.enc(Xor(if i == 0 then iv else c[16 * i - 16..16 * i], p[16 * i..16 * i + 16]))
    decreases i
  {
    hide Xor;
    var c, c0 := CbcEncrypt(k, iv, p), k.enc(Xor(iv, p[..16]));
    assert c[..16] == c0 && c[16..] == CbcEncrypt(k, c0, p[16..]);
    if i == 0 {
      assert p[0..16] == p[..16] && c[0..16] == c[..16];
    } else {
      var j := i - 1;
      CbcBlock(k, c0, p[16..], j);
      assert p[16..][16 * j..16 * j + 16] == p[16 * i..16 * i + 16];
      assert c[16..][16 * j..16 * j + 16] == c[16 * i..16 * i + 16];
      assert if j == 0 then c0 == c[16 * i - 16..16 * i] else c[16..][16 * j - 16..16 * j] == c[16 * i - 16..16 * i];
    }
  }

  /** The first n bytes of a block that are combined with data, and the others that are not. */
  lemma PaddedXor(x: Block, d: bytes, z: bytes)
    requires |d| < 16 && |z| == 16 - |d| && forall i :: 0 <= i < |z| ==> z[i] == 0
    ensures Xor(x, d + z) == Xor(x[..|d|], d) + x[|d|..]
  {
    forall i | 0 <= i < 16
      ensures Xor(x, d + z)[i] == (Xor(x[..|d|], d) + x[|d|..])[i]
    {
      ByteZero(x[i]);
    }
  }

  lemma ByteZero(b: byte)
    ensures b ^ 0 == b
  {
  }

  lemma ChainTwo(k: Codec, prev: Block, a: Block, b: Block)
    ensures var x: Block := k.enc(Xor(prev, a)); CbcEncrypt(k, prev, a + b) == x + k.enc(Xor(x, b))
  {
    var p := a + b;
    assert p[..16] == a && p[16..] == b && b[..16] == b && b[16..] == [];
    var x: Block := k.enc(Xor(prev, a));
    assert CbcEncrypt(k, k.enc(Xor(x, b)), []) == [];
    assert CbcEncrypt(k, x, b) == k.enc(Xor(x, b)) + [];
  }

  /**
   * Ciphertext stealing is chaining of the plaintext with zeros behind it, whose last two blocks change places before
   * the ciphertext is cut to the length of the data.
   */
  lemma StealIsChained(k: Codec, prev: Block, p: bytes, z: bytes)
    requires 16 < |p| < 32 && |z| == 32 - |p| && forall i :: 0 <= i < |z| ==> z[i] == 0
    ensures var c := CbcEncrypt(k, prev, p + z); StealEncrypt(k, prev, p) == c[16..] + c[..|p| - 16]
  {
    hide Xor;
    var a: Block, d, n := p[..16], p[16..], |p| - 16;
    var b: Block := d + z;
    assert p + z == a + b;
    ChainTwo(k, prev, a, b);
    var x: Block := k.enc(Xor(prev, a));
    PaddedXor(x, d, z);
  }

  /** The same for sectors of any length: chained as they are, or with zeros to the next block and the last two swapped. */
  lemma BodyIsChained(k: Codec, iv: Block, p: bytes, z: bytes)
    requires |p| >= 16 && |z| < 16 && (|p| + |z|) % 16 == 0 && forall i :: 0 <= i < |z| ==> z[i] == 0
    ensures var c := CbcEncrypt(k, iv, p + z);
            var m := |c| - 32;
            BodyEncrypt(k, iv, p) == if z == [] then c else c[..m] + c[m + 16..] + c[m..m + 16 - |z|]
  {
    hide CbcEncrypt, StealEncrypt, Chain, Xor;
    if z == [] {
      assert p + z == p == p[..|p|];
    } else {
      StolenIsChained(k, iv, p, z);
    }
  }

  lemma StolenIsChained(k: Codec, iv: Block, p: bytes, z: bytes)
    requires |p| >= 16 && 0 < |z| < 16 && (|p| + |z|) % 16 == 0 && forall i :: 0 <= i < |z| ==> z[i] == 0
    ensures var c := CbcEncrypt(k, iv, p + z);
            var m := |c| - 32;
            BodyEncrypt(k, iv, p) == c[..m] + c[m + 16..] + c[m..m + 16 - |z|]
  {
    hide CbcEncrypt, StealEncrypt, Chain, Xor;
    var m := ChainedLength(|p|);
    WholeBlocks(|p|, |z|);
    var head := CbcEncrypt(k, iv, p[..m]);
    var prev := Chain(iv, head);
    var last := p[m..] + z;
    assert p + z == p[..m] + last by { CutAround(p, m, z); }
    CbcEncryptAppend(k, iv, p[..m], last);
    StealIsChained(k, prev, p[m..], z);
    SwapBehind(head, CbcEncrypt(k, prev, last), |z|);
  }

  lemma CutAround(p: bytes, m: nat, z: bytes)
    requires m <= |p|
    ensures p + z == p[..m] + (p[m..] + z)
  {
  }

  lemma SwapBehind(head: bytes, t: bytes, n: nat)
    requires |t| == 32 && 0 < n < 16
    ensures var c, m := head + t, |head|;
            c[..m] + c[m + 16..] + c[m..m + 16 - n] == head + (t[16..] + t[..16 - n])
  {
    var c, m := head + t, |head|;
    assert c[..m] == head && c[m + 16..] == t[16..] && c[m..m + 16 - n] == t[..16 - n];
  }

  lemma WholeBlocks(n: nat, z: nat)
    requires n >= 16 && 0 < z < 16 && (n + z) % 16 == 0
    ensures ChainedLength(n) == n + z - 32 && n - ChainedLength(n) == 32 - z
  {
  }

  /** A sealed sector of a block or more is that ciphertext under the start of the HMAC of data, sector id and nonce. */
  lemma SealedBody(k: Codec, data: bytes, sid: SectorId, nonce: Block, z: bytes)
    requires |data| >= 16 && |z| < 16 && (|data| + |z|) % 16 == 0 && forall i :: 0 <= i < |z| ==> z[i] == 0
    ensures var c := CbcEncrypt(k, k.Hmac(data + sid + nonce)[..16], data + z);
            var m := |c| - 32;
            Seal(k, data, sid, nonce).data == if z == [] then c else c[..m] + c[m + 16..] + c[m..m + 16 - |z|]
  {
    hide CbcEncrypt, BodyEncrypt;
    BodyIsChained(k, k.Hmac(data + sid + nonce)[..16], data, z);
  }

  /**
   * Two sectors of one length class that are both accepted under one auth block, or one sector under two sector ids,
   * are two messages whose HMACs start with the same 16 bytes.
   */
  lemma TwoAcceptedCollide(k: Codec, d1: bytes, d2: bytes, auth: bytes, sid1: SectorId, sid2: SectorId)
    returns (m1: bytes, m2: bytes)
    requires k.Valid() && |auth| == 32 && (|d1| < 16 <==> |d2| < 16) && (d1 != d2 || sid1 != sid2)
    requires Open(k, d1, auth, sid1).verdict == 0 && Open(k, d2, auth, sid2).verdict == 0
    ensures m1 != m2 && k.Hmac(m1)[..16] == k.Hmac(m2)[..16]
  {
    hide BodyDecrypt, BodyEncrypt, Codec.Hmac;
    var o1, o2 := Open(k, d1, auth, sid1), Open(k, d2, auth, sid2);
    m1, m2 := o1.data + sid1 + o1.nonce, o2.data + sid2 + o2.nonce;
    if m1 == m2 {
      SameMessage(o1.data, sid1, o1.nonce, o2.data, sid2, o2.nonce);
      SealOpen(k, d1, auth, sid1);
      SealOpen(k, d2, auth, sid2);
    }
  }

  lemma SameMessage(a: bytes, s: SectorId, n: Block, a2: bytes, s2: SectorId, n2: Block)
    requires a + s + n == a2 + s2 + n2
    ensures a == a2 && s == s2 && n == n2
  {
    var m := a + s + n;
    assert m[..|a|] == a && m[|a|..|a| + 8] == s && m[|a| + 8..] == n;
    var m2 := a2 + s2 + n2;
    assert m2[..|a2|] == a2 && m2[|a2|..|a2| + 8] == s2 && m2[|a2| + 8..] == n2;
  }
}
