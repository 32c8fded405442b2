/** What a sector's ciphertext and authentication block are, as functions of the plaintext, and why they can be undone. */
module SectorCodec {
  import opened Bytes
  import opened BlockCipher

  /** The bytes of a uint64_t sector id, as they lie in memory. */
  type SectorId = s: bytes | |s| == 8 witness seq(8, _ => 0)

  datatype Sealed = Sealed(data: bytes, auth: bytes)
  datatype Opened = Opened(verdict: int, data: bytes, nonce: Block)

  /** Cipher block chaining over whole blocks. */
  function CbcEncrypt(k: Codec, iv: Block, p: bytes): (c: bytes)
    requires |p| % BLOCK == 0
    ensures |c| == |p|
    decreases |p|
  {
    if p == [] then [] else
      var c0 := k.enc(Xor(iv, p[..BLOCK]));
      c0 + CbcEncrypt(k, c0, p[BLOCK..])
  }

  function CbcDecrypt(k: Codec, iv: Block, c: bytes): (p: bytes)
    requires |c| % BLOCK == 0
    ensures |p| == |c|
    decreases |c|
  {
    if c == [] then [] else
      Xor(k.dec(c[..BLOCK]), iv) + CbcDecrypt(k, c[..BLOCK], c[BLOCK..])
  }

  /** The block that the next block is chained to. */
  function Chain(iv: Block, c: bytes): Block
    requires |c| % BLOCK == 0
  {
    if c == [] then iv else c[|c| - BLOCK..]
  }

  /** The last whole block and the partial block after it, with ciphertext stealing. */
  function StealEncrypt(k: Codec, prev: Block, p: bytes): (c: bytes)
    requires BLOCK < |p| < 2 * BLOCK
    ensures |c| == |p|
  {
    var n := |p| - BLOCK;
    var x := k.enc(Xor(prev, p[..BLOCK]));
    k.enc(Xor(x[..n], p[BLOCK..]) + x[n..]) + x[..n]
  }

  function StealDecrypt(k: Codec, prev: Block, c: bytes): (p: bytes)
    requires BLOCK < |c| < 2 * BLOCK
    ensures |p| == |c|
  {
    var n := |c| - BLOCK;
    var y := k.dec(c[..BLOCK]);
    Xor(k.dec(c[BLOCK..] + y[n..]), prev) + Xor(y[..n], c[BLOCK..])
  }

  /** How many bytes are chained; the rest (none, or more than one block) is stolen. */
  function ChainedLength(n: nat): (m: nat)
    requires n >= BLOCK
    ensures m <= n && m % BLOCK == 0
    ensures if n % BLOCK == 0 then m == n else BLOCK < n - m < 2 * BLOCK
  {
    if n % BLOCK == 0 then n else n - n % BLOCK - BLOCK
  }

  function BodyEncrypt(k: Codec, iv: Block, p: bytes): (c: bytes)
    requires |p| >= BLOCK
    ensures |c| == |p|
  {
    var m := ChainedLength(|p|);
    var head := CbcEncrypt(k, iv, p[..m]);
    if m == |p| then head else head + StealEncrypt(k, Chain(iv, head), p[m..])
  }

  function BodyDecrypt(k: Codec, iv: Block, c: bytes): (p: bytes)
    requires |c| >= BLOCK
    ensures |p| == |c|
  {
    var m := ChainedLength(|c|);
    var head := CbcDecrypt(k, iv, c[..m]);
    if m == |c| then head else head + StealDecrypt(k, Chain(iv, c[..m]), c[m..])
  }

  /** The part of the HMAC that is the chaining IV and is stored, encrypted, for verification. */
  function Tag(k: Codec, data: bytes, sid: SectorId, nonce: Block): Block {
    k.Hmac(data + sid + nonce)[..BLOCK]
  }

  /** pcrypto_encode_sec. */
  function Seal(k: Codec, data: bytes, sid: SectorId, nonce: Block): (s: Sealed)
    ensures |s.data| == |data| && |s.auth| == 2 * BLOCK
  {
    var tag := Tag(k, data, sid, nonce);
    if |data| < BLOCK then
      Sealed(nonce[..|data|], k.enc(Xor(data, nonce) + nonce[|data|..]) + k.enc(tag))
    else
      Sealed(BodyEncrypt(k, tag, data), k.enc(nonce[..8] + tag[..8]) + k.enc(tag[8..] + nonce[8..]))
  }

  /** pcrypto_decode_sec. */
  function Open(k: Codec, data: bytes, auth: bytes, sid: SectorId): (o: Opened)
    requires |auth| == 2 * BLOCK
    ensures |o.data| == |data|
  {
    var n := |data|;
    var a, b := k.dec(auth[..BLOCK]), k.dec(auth[BLOCK..]);
    if n < BLOCK then
      var plain := Xor(data, a);
      var nonce := data + a[n..];
      Opened(if b == Tag(k, plain, sid, nonce) then 0 else -1, plain, nonce)
    else
      var nonce, tag := a[..8] + b[8..], a[8..] + b[..8];
      var plain := BodyDecrypt(k, tag, data);
      Opened(if tag == Tag(k, plain, sid, nonce) then 0 else -1, plain, nonce)
  }

  lemma {:induction false} CbcDecryptEncrypt(k: Codec, iv: Block, p: bytes)
    requires k.Valid() && |p| % BLOCK == 0
    ensures CbcDecrypt(k, iv, CbcEncrypt(k, iv, p)) == p
    decreases |p|
  {
    if p == [] {
    } else {
      var c := CbcEncrypt(k, iv, p);
      XorCommutes(iv, p[..BLOCK]);
      XorCancel(p[..BLOCK], iv);
      assert c[..BLOCK] == k.enc(Xor(iv, p[..BLOCK]));
      assert c[BLOCK..] == CbcEncrypt(k, c[..BLOCK], p[BLOCK..]);
      CbcDecryptEncrypt(k, c[..BLOCK], p[BLOCK..]);
      assert p == p[..BLOCK] + p[BLOCK..];
    }
  }

  lemma {:induction false} CbcEncryptDecrypt(k: Codec, iv: Block, c: bytes)
    requires k.Valid() && |c| % BLOCK == 0
    ensures CbcEncrypt(k, iv, CbcDecrypt(k, iv, c)) == c
    decreases |c|
  {
    if c == [] {
    } else {
      var p := CbcDecrypt(k, iv, c);
      var x := k.dec(c[..BLOCK]);
      assert p[..BLOCK] == Xor(x, iv);
      assert p[BLOCK..] == CbcDecrypt(k, c[..BLOCK], c[BLOCK..]);
      XorCancel(x, iv);
      XorCommutes(iv, Xor(x, iv));
      CbcEncryptDecrypt(k, c[..BLOCK], c[BLOCK..]);
      assert c == c[..BLOCK] + c[BLOCK..];
    }
  }

  lemma StealDecryptEncrypt(k: Codec, prev: Block, p: bytes)
    requires k.Valid() && BLOCK < |p| < 2 * BLOCK
    ensures StealDecrypt(k, prev, StealEncrypt(k, prev, p)) == p
  {
    var n, c := |p| - BLOCK, StealEncrypt(k, prev, p);
    var x := k.enc(Xor(prev, p[..BLOCK]));
    var y: Block := Xor(x[..n], p[BLOCK..]) + x[n..];
    assert c[..BLOCK] == k.enc(y) && c[BLOCK..] == x[..n];
    assert y[..n] == Xor(x[..n], p[BLOCK..]) && y[n..] == x[n..];
    assert x == x[..n] + x[n..];
    XorCommutes(prev, p[..BLOCK]);
    XorCancel(p[..BLOCK], prev);
    XorCommutes(x[..n], p[BLOCK..]);
    XorCancel(p[BLOCK..], x[..n]);
    assert p == p[..BLOCK] + p[BLOCK..];
  }

  lemma StealEncryptDecrypt(k: Codec, prev: Block, c: bytes)
    requires k.Valid() && BLOCK < |c| < 2 * BLOCK
    ensures StealEncrypt(k, prev, StealDecrypt(k, prev, c)) == c
  {
    var n, p := |c| - BLOCK, StealDecrypt(k, prev, c);
    var y := k.dec(c[..BLOCK]);
    var x: Block := c[BLOCK..] + y[n..];
    assert p[..BLOCK] == Xor(k.dec(x), prev) && p[BLOCK..] == Xor(y[..n], c[BLOCK..]);
    XorCancel(k.dec(x), prev);
    XorCommutes(prev, Xor(k.dec(x), prev));
    assert x[..n] == c[BLOCK..] && x[n..] == y[n..];
    XorCancel(y[..n], c[BLOCK..]);
    XorCommutes(c[BLOCK..], Xor(y[..n], c[BLOCK..]));
    assert y == y[..n] + y[n..];
    assert c == c[..BLOCK] + c[BLOCK..];
  }

  lemma BodyDecryptEncrypt(k: Codec, iv: Block, p: bytes)
    requires k.Valid() && |p| >= BLOCK
    ensures BodyDecrypt(k, iv, BodyEncrypt(k, iv, p)) == p
  {
    hide CbcEncrypt, CbcDecrypt, StealEncrypt, StealDecrypt, Xor, Chain;
    var m, c := ChainedLength(|p|), BodyEncrypt(k, iv, p);
    CbcDecryptEncrypt(k, iv, p[..m]);
    assert c[..m] == CbcEncrypt(k, iv, p[..m]);
    if m < |p| {
      var prev := Chain(iv, c[..m]);
      assert c[m..] == StealEncrypt(k, prev, p[m..]);
      StealDecryptEncrypt(k, prev, p[m..]);
    }
    assert p == p[..m] + p[m..];
  }

  lemma BodyEncryptDecrypt(k: Codec, iv: Block, c: bytes)
    requires k.Valid() && |c| >= BLOCK
    ensures BodyEncrypt(k, iv, BodyDecrypt(k, iv, c)) == c
  {
    hide CbcEncrypt, CbcDecrypt, StealEncrypt, StealDecrypt, Xor, Chain;
    var m, p := ChainedLength(|c|), BodyDecrypt(k, iv, c);
    CbcEncryptDecrypt(k, iv, c[..m]);
    assert p[..m] == CbcDecrypt(k, iv, c[..m]);
    if m < |c| {
      var prev := Chain(iv, c[..m]);
      assert p[m..] == StealDecrypt(k, prev, c[m..]);
      StealEncryptDecrypt(k, prev, c[m..]);
    }
    assert c == c[..m] + c[m..];
  }

  /** Whatever is sealed is opened again, in all three length classes. */
  lemma OpenSeal(k: Codec, data: bytes, sid: SectorId, nonce: Block)
    requires k.Valid()
    ensures var s := Seal(k, data, sid, nonce);
            Open(k, s.data, s.auth, sid) == Opened(0, data, nonce)
  {
    hide BodyEncrypt, BodyDecrypt, Codec.Hmac, Tag;
    var s, n, tag := Seal(k, data, sid, nonce), |data|, Tag(k, data, sid, nonce);
    var a, b := k.dec(s.auth[..BLOCK]), k.dec(s.auth[BLOCK..]);
    if n < BLOCK {
      var masked: Block := Xor(data, nonce) + nonce[n..];
      assert s.auth[..BLOCK] == k.enc(masked) && s.auth[BLOCK..] == k.enc(tag);
      assert Xor(s.data, a) == data by {
        forall i | 0 <= i < n
          ensures Xor(s.data, a)[i] == data[i]
        {
          XorByteCancel(data[i], nonce[i]);
          XorByteCancel(nonce[i], data[i] ^ nonce[i]);
        }
      }
      assert a[n..] == nonce[n..];
      assert s.data + a[n..] == nonce;
    } else {
      assert s.auth[..BLOCK] == k.enc(nonce[..8] + tag[..8]);
      assert s.auth[BLOCK..] == k.enc(tag[8..] + nonce[8..]);
      assert a == nonce[..8] + tag[..8] && b == tag[8..] + nonce[8..];
      assert a[..8] + b[8..] == nonce && a[8..] + b[..8] == tag;
      BodyDecryptEncrypt(k, tag, data);
    }
  }

  /** Whatever is accepted is canonical: it is exactly what sealing the opened data again produces. */
  lemma SealOpen(k: Codec, data: bytes, auth: bytes, sid: SectorId)
    requires k.Valid() && |auth| == 2 * BLOCK
    ensures var o := Open(k, data, auth, sid);
            o.verdict == 0 <==> Seal(k, o.data, sid, o.nonce) == Sealed(data, auth)
  {
    hide BodyEncrypt, BodyDecrypt, Codec.Hmac, Tag;
    var o, n := Open(k, data, auth, sid), |data|;
    var s := Seal(k, o.data, sid, o.nonce);
    var a, b := k.dec(auth[..BLOCK]), k.dec(auth[BLOCK..]);
    assert auth == auth[..BLOCK] + auth[BLOCK..];
    if o.verdict == 0 {
      if n < BLOCK {
        assert Xor(o.data, o.nonce) == a[..n] by {
          forall i | 0 <= i < n
            ensures Xor(o.data, o.nonce)[i] == a[i]
          {
            XorByteCancel(data[i], a[i]);
            XorByteCancel(a[i], data[i]);
          }
        }
        assert o.nonce[n..] == a[n..];
        assert a == a[..n] + a[n..];
      } else {
        var tag := a[8..] + b[..8];
        assert o.nonce[..8] + tag[..8] == a && tag[8..] + o.nonce[8..] == b;
        BodyEncryptDecrypt(k, tag, data);
      }
    } else if s == Sealed(data, auth) {
      OpenSeal(k, o.data, sid, o.nonce);
    }
  }
}
