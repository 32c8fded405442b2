/** The sector codec as it runs: one scratch buffer addressed through swapped offsets, and decoding in place. */
module SectorBuffers {
  import opened Bytes
  import opened BlockCipher
  import opened SectorCodec
  import opened Sequences

  // One step of the recursive definitions.

  lemma FirstIsChained(k: Codec, iv: Block, c: bytes)
    requires |c| % BLOCK == 0 && |c| > 0
    ensures CbcDecrypt(k, iv, c) == Xor(k.dec(c[..BLOCK]), iv) + CbcDecrypt(k, c[..BLOCK], c[BLOCK..])
  {
  }

  lemma FirstIsEncrypted(k: Codec, iv: Block, p: bytes)
    requires |p| % BLOCK == 0 && |p| > 0
    ensures var c0 := k.enc(Xor(iv, p[..BLOCK])); CbcEncrypt(k, iv, p) == c0 + CbcEncrypt(k, c0, p[BLOCK..])
  {
  }

  lemma ChainGoesOn(iv: Block, c0: Block, c: bytes)
    requires |c| % BLOCK == 0
    ensures Chain(iv, c0 + c) == Chain(c0, c)
  {
  }

  lemma CbcLength(k: Codec, iv: Block, s: bytes)
    requires |s| % BLOCK == 0
    ensures |CbcEncrypt(k, iv, s)| == |CbcDecrypt(k, iv, s)| == |s|
  {
  }

  lemma TakeOne(a: bytes, b: bytes)
    requires |a| >= BLOCK
    ensures (a + b)[..BLOCK] == a[..BLOCK] && (a + b)[BLOCK..] == a[BLOCK..] + b
  {
  }

  lemma {:induction false} CbcEncryptAppend(k: Codec, iv: Block, p: bytes, q: bytes)
    requires |p| % BLOCK == 0 && |q| % BLOCK == 0
    ensures |CbcEncrypt(k, iv, p)| == |p|
    ensures var c := CbcEncrypt(k, iv, p);
            CbcEncrypt(k, iv, p + q) == c + CbcEncrypt(k, Chain(iv, c), q)
    decreases |p|
  {
    hide CbcEncrypt, Chain, Xor;
    CbcLength(k, iv, p);
    if p == [] {
      assert p + q == q;
      NothingIsChained(k, iv);
    } else {
      var c0 := k.enc(Xor(iv, p[..BLOCK]));
      FirstIsEncrypted(k, iv, p);
      FirstIsEncrypted(k, iv, p + q);
      TakeOne(p, q);
      CbcEncryptAppend(k, c0, p[BLOCK..], q);
      var c1 := CbcEncrypt(k, c0, p[BLOCK..]);
      ChainGoesOn(iv, c0, c1);
      ConcatAssoc(c0, c1, CbcEncrypt(k, Chain(c0, c1), q));
    }
  }

  lemma {:induction false} CbcDecryptAppend(k: Codec, iv: Block, c: bytes, e: bytes)
    requires |c| % BLOCK == 0 && |e| % BLOCK == 0
    ensures CbcDecrypt(k, iv, c + e) == CbcDecrypt(k, iv, c) + CbcDecrypt(k, Chain(iv, c), e)
    decreases |c|
  {
    hide CbcDecrypt, Chain, Xor;
    if c == [] {
      assert c + e == e;
      NothingIsChained(k, iv);
    } else {
      var c0, rest := c[..BLOCK], c[BLOCK..];
      assert c == c0 + rest;
      FirstIsChained(k, iv, c);
      FirstIsChained(k, iv, c + e);
      TakeOne(c, e);
      CbcDecryptAppend(k, c0, rest, e);
      ChainGoesOn(iv, c0, rest);
      ConcatAssoc(Xor(k.dec(c0), iv), CbcDecrypt(k, c0, rest), CbcDecrypt(k, Chain(c0, rest), e));
    }
  }

  function DecFour(k: Codec, c: bytes): (p: bytes)
    requires |c| == 64
    ensures |p| == 64
  {
    k.dec(c[..16]) + k.dec(c[16..32]) + k.dec(c[32..48]) + k.dec(c[48..])
  }

  /** The batched decoder computes what four chained single blocks do. */
  lemma FourIsChained(k: Codec, prev: Block, c: bytes)
    requires |c| == 64
    ensures |DecFour(k, c)| == 64 && Xor(DecFour(k, c), prev + c[..48]) == CbcDecrypt(k, prev, c)
  {
    var c1, c2, c3 := c[16..], c[16..][16..], c[16..][16..][16..];
    assert c1[..16] == c[16..32] && c2[..16] == c[32..48] && c3[..16] == c3 == c[48..] && c3[16..] == [];
    assert CbcDecrypt(k, c[32..48], c3) == Xor(k.dec(c3), c[32..48]);
    assert CbcDecrypt(k, c[16..32], c2) == Xor(k.dec(c[32..48]), c[16..32]) + CbcDecrypt(k, c[32..48], c3);
    assert CbcDecrypt(k, c[..16], c1) == Xor(k.dec(c[16..32]), c[..16]) + CbcDecrypt(k, c[16..32], c2);
  }

  lemma OneIsChained(k: Codec, prev: Block, c: Block)
    ensures CbcDecrypt(k, prev, c) == Xor(k.dec(c), prev)
    ensures CbcEncrypt(k, prev, c) == k.enc(Xor(prev, c))
  {
    assert c[..BLOCK] == c && c[BLOCK..] == [];
  }

  lemma LastIsChained(iv: Block, c: bytes, b: Block)
    requires |c| % BLOCK == 0
    ensures Chain(iv, c + b) == b
  {
  }

  lemma NothingIsChained(k: Codec, iv: Block)
    ensures Chain(iv, []) == iv && CbcDecrypt(k, iv, []) == [] && CbcEncrypt(k, iv, []) == []
  {
  }

  /** A stretch of whole blocks of the plaintext depends on the ciphertext there and on the block before it. */
  lemma DecryptedStretch(k: Codec, iv: Block, d: bytes, pos: nat, step: nat)
    requires |d| % BLOCK == 0 && pos % BLOCK == 0 && step % BLOCK == 0 && step > 0 && pos + step <= |d|
    ensures CbcDecrypt(k, iv, d)[pos..pos + step] == CbcDecrypt(k, Chain(iv, d[..pos]), d[pos..pos + step])
    ensures Chain(iv, d[..pos + step]) == d[pos + step - BLOCK..pos + step]
  {
    hide CbcDecrypt, Chain;
    InThree(d, pos, step);
    StretchOf(k, iv, d[..pos], d[pos..pos + step], d[pos + step..]);
    LastOfStretch(iv, d, pos + step);
  }

  lemma InThree(d: bytes, pos: nat, step: nat)
    requires pos + step <= |d|
    ensures d == d[..pos] + d[pos..pos + step] + d[pos + step..]
  {
  }

  lemma StretchOf(k: Codec, iv: Block, before: bytes, block: bytes, after: bytes)
    requires |before| % BLOCK == 0 && |block| % BLOCK == 0 && |after| % BLOCK == 0
    ensures var p := CbcDecrypt(k, iv, before + block + after);
            |p| == |before| + |block| + |after| &&
            p[|before|..|before| + |block|] == CbcDecrypt(k, Chain(iv, before), block)
  {
    hide CbcDecrypt, Chain;
    CbcDecryptAppend(k, iv, before + block, after);
    CbcDecryptAppend(k, iv, before, block);
    CbcLength(k, iv, before);
    CbcLength(k, Chain(iv, before), block);
    CbcLength(k, Chain(iv, before + block), after);
    Middle(CbcDecrypt(k, iv, before), CbcDecrypt(k, Chain(iv, before), block), CbcDecrypt(k, Chain(iv, before + block), after));
  }

  lemma Middle(a: bytes, b: bytes, c: bytes)
    ensures (a + b + c)[|a|..|a| + |b|] == b
  {
  }

  lemma LastOfStretch(iv: Block, d: bytes, end: nat)
    requires end % BLOCK == 0 && 0 < end <= |d|
    ensures Chain(iv, d[..end]) == d[end - BLOCK..end]
  {
  }

  /** The decoding loop over batches of four blocks. It stops at `pos`, chained to `aesxor`. */
  method DecodeFours(k: Codec, iv: Block, data: array<byte>, datalen: nat, out: array<byte>)
    returns (pos: nat, aesxor: bytes)
    requires datalen % BLOCK == 0 && datalen <= data.Length && datalen <= out.Length
    modifies out
    ensures pos % BLOCK == 0 && pos <= datalen < pos + 64
    ensures aesxor == Chain(iv, old(data[..pos]))
    ensures out[..pos] == CbcDecrypt(k, iv, old(data[..datalen]))[..pos]
    ensures forall i :: pos <= i < out.Length ==> out[i] == old(out[i])
  {
    hide CbcEncrypt, CbcDecrypt, Chain, Xor, DecFour;
    ghost var d, o := data[..datalen], out[..];
    ghost var p := CbcDecrypt(k, iv, d);
    aesxor, pos := iv, 0;
    NothingIsChained(k, iv);
    assert d[..0] == [];
    while datalen - pos >= 64
      invariant pos % BLOCK == 0 && pos <= datalen
      invariant forall i :: 0 <= i < out.Length ==> out[i] == if i < pos then p[i] else o[i]
      invariant forall i :: pos <= i < datalen ==> data[i] == d[i]
      invariant aesxor == Chain(iv, d[..pos])
    {
      var aessrc := data[pos..pos + 64];
      assert aessrc == d[pos..pos + 64];
      FourIsChained(k, aesxor, aessrc);
      aesxor := aesxor + aessrc[..48];
      var aesdst := Xor(DecFour(k, aessrc), aesxor);
      DecryptedStretch(k, iv, d, pos, 64);
      Store(out, pos, aesdst);
      aesxor := aessrc[48..];
      pos := pos + 64;
    }
    assert old(data[..pos]) == d[..pos];
  }

  /** The decoding loop over single blocks, from `start` on. */
  method DecodeOnes(k: Codec, iv: Block, data: array<byte>, datalen: nat, out: array<byte>, start: nat, prev: Block,
                    ghost d: bytes)
    returns (aesxor: bytes)
    requires datalen % BLOCK == 0 && |d| == datalen <= data.Length && datalen <= out.Length
    requires start % BLOCK == 0 && start <= datalen && prev == Chain(iv, d[..start])
    requires data[start..datalen] == d[start..]
    modifies out
    ensures aesxor == Chain(iv, d) && |CbcDecrypt(k, iv, d)| == datalen
    ensures forall i :: 0 <= i < out.Length ==>
              out[i] == if start <= i < datalen then CbcDecrypt(k, iv, d)[i] else old(out[i])
  {
    hide CbcEncrypt, CbcDecrypt, Chain, Xor;
    ghost var p, o := CbcDecrypt(k, iv, d), out[..];
    CbcLength(k, iv, d);
    var pos, aessrc: bytes := start, [];
    aesxor := prev;
    while pos < datalen
      invariant pos % BLOCK == 0 && start <= pos <= datalen
      invariant forall i :: 0 <= i < out.Length ==> out[i] == if start <= i < pos then p[i] else o[i]
      invariant data[pos..datalen] == d[pos..]
      invariant aesxor == Chain(iv, d[..pos])
    {
      aessrc := data[pos..pos + 16];
      StretchStart(data[pos..datalen], d, pos);
      assert data[pos..pos + 16] == data[pos..datalen][..16];
      var aesdst := Xor(k.dec(aessrc), aesxor);
      NextIsChained(k, iv, d, pos, aesxor);
      Store(out, pos, aesdst);
      aesxor, aessrc := aessrc, aesxor;
      pos := pos + 16;
    }
    assert d[..datalen] == d;
  }

  lemma StretchStart(rest: bytes, d: bytes, pos: nat)
    requires pos + 16 <= |d| && rest == d[pos..]
    ensures rest[..16] == d[pos..pos + 16] && rest[16..] == d[pos + 16..]
  {
  }

  /** Both decoding loops. The result is the block that the stolen part is chained to. */
  method DecodeChained(k: Codec, iv: Block, data: array<byte>, datalen: nat, out: array<byte>) returns (aesxor: bytes)
    requires datalen % BLOCK == 0 && datalen <= data.Length && datalen <= out.Length
    modifies out
    ensures var d := old(data[..datalen]);
            aesxor == Chain(iv, d) && out[..datalen] == CbcDecrypt(k, iv, d)
    ensures forall i :: datalen <= i < out.Length ==> out[i] == old(out[i])
  {
    hide CbcEncrypt, CbcDecrypt, Chain, Xor;
    ghost var d := data[..datalen];
    CbcLength(k, iv, d);
    var pos;
    pos, aesxor := DecodeFours(k, iv, data, datalen, out);
    assert d[..pos] == old(data[..pos]);
    assert data[pos..datalen] == d[pos..];
    ghost var head := out[..pos];
    aesxor := DecodeOnes(k, iv, data, datalen, out, pos, aesxor, d);
    assert out[..pos] == head;
  }

  /** The block at pos, unmasked with the ciphertext before it. */
  lemma NextIsChained(k: Codec, iv: Block, d: bytes, pos: nat, prev: Block)
    requires |d| % BLOCK == 0 && pos % BLOCK == 0 && pos + 16 <= |d| && prev == Chain(iv, d[..pos])
    ensures |Xor(k.dec(d[pos..pos + 16]), prev)| == 16 && |CbcDecrypt(k, iv, d)| == |d|
    ensures Xor(k.dec(d[pos..pos + 16]), prev) == CbcDecrypt(k, iv, d)[pos..pos + 16]
    ensures Chain(iv, d[..pos + 16]) == d[pos..pos + 16]
  {
    hide CbcDecrypt, Chain, Xor;
    OneIsChained(k, prev, d[pos..pos + 16]);
    DecryptedStretch(k, iv, d, pos, 16);
    CbcLength(k, iv, d);
    XorLength(k.dec(d[pos..pos + 16]), prev);
  }

  /** The last whole block and the partial one after it. Everything is read before it can be overwritten. */
  method DecodeStolen(k: Codec, prev: Block, data: array<byte>, m: nat, needsteal: nat, out: array<byte>)
    requires 0 < needsteal < BLOCK
    requires m + BLOCK + needsteal <= data.Length && m + BLOCK + needsteal <= out.Length
    modifies out
    ensures out[m..m + BLOCK + needsteal] == StealDecrypt(k, prev, old(data[m..m + BLOCK + needsteal]))
    ensures forall i :: 0 <= i < out.Length && !(m <= i < m + BLOCK + needsteal) ==> out[i] == old(out[i])
  {
    hide Xor;
    ghost var c := data[m..m + BLOCK + needsteal];
    var aessrc := data[m..m + BLOCK];
    var aesdst: bytes := k.dec(aessrc);
    assert aessrc == c[..BLOCK];
    XorLength(aesdst[..needsteal], c[BLOCK..]);
    assert data[m + BLOCK..m + BLOCK + needsteal] == c[BLOCK..];
    aesdst := Xor(aesdst[..needsteal], data[m + BLOCK..m + BLOCK + needsteal]) + aesdst[needsteal..];
    aessrc := data[m + BLOCK..m + BLOCK + needsteal] + aessrc[needsteal..];
    assert aessrc[..needsteal] == c[BLOCK..];
    Store(out, m + BLOCK, aesdst[..needsteal]);
    aesdst := aessrc[..needsteal] + aesdst[needsteal..];
    XorLength(k.dec(aesdst), prev);
    aessrc := Xor(k.dec(aesdst), prev);
    Store(out, m, aessrc);
    assert out[m..m + BLOCK + needsteal] == out[m..m + BLOCK] + out[m + BLOCK..m + BLOCK + needsteal];
  }

  method DecodeBody(k: Codec, iv: Block, data: array<byte>, datalen: nat, out: array<byte>)
    requires BLOCK <= datalen <= data.Length && datalen <= out.Length
    modifies out
    ensures out[..datalen] == BodyDecrypt(k, iv, old(data[..datalen]))
    ensures forall i :: datalen <= i < out.Length ==> out[i] == old(out[i])
  {
    hide CbcDecrypt, Xor, Chain, StealDecrypt;
    ghost var d := data[..datalen];
    var needsteal, m := datalen % 16, datalen;
    if needsteal != 0 {
      m := m - (needsteal + BLOCK);
    }
    assert m == ChainedLength(datalen) && d[..m] == data[..m] && d[m..] == data[m..datalen];
    var aesxor := DecodeChained(k, iv, data, m, out);
    if needsteal != 0 {
      assert data[m..datalen] == d[m..];
      ghost var head := out[..m];
      DecodeStolen(k, aesxor, data, m, needsteal, out);
      assert out[..datalen] == head + out[m..datalen];
    }
  }

  /**
   * pcrypto_decode_sec. `data` and `out` may be the same buffer. The answer is 0 exactly if the auth block holds the
   * start of the HMAC of the bytes that were decoded, the sector id and the nonce.
   */
  method DecodeSec(k: Codec, data: array<byte>, datalen: nat, out: array<byte>, auth: bytes, sid: SectorId)
    returns (verdict: int)
    requires datalen <= data.Length && datalen <= out.Length
    requires |auth| == 2 * BLOCK
    modifies out
    ensures var o := Open(k, old(data[..datalen]), auth, sid);
            verdict == o.verdict && out[..datalen] == o.data
    ensures verdict == 0 || verdict == -1
    ensures var h := k.dec(auth[..16]) + k.dec(auth[16..]);
            if datalen < 16 then
              var nonce := old(data[..datalen]) + h[datalen..16];
              verdict == 0 <==> k.Hmac(out[..datalen] + sid + nonce)[..16] == h[16..]
            else
              verdict == 0 <==> k.Hmac(out[..datalen] + sid + (h[..8] + h[24..]))[..16] == h[8..24]
    ensures forall i :: datalen <= i < out.Length ==> out[i] == old(out[i])
  {
    hide BodyDecrypt, Codec.Hmac;
    ghost var d := data[..datalen];
    ghost var a, b := k.dec(auth[..BLOCK]), k.dec(auth[BLOCK..]);
    var hmac: bytes := k.dec(auth[..BLOCK]) + k.dec(auth[BLOCK..]);
    if datalen < BLOCK {
      hmac := Xor(data[..datalen], hmac) + hmac[datalen..];
      var aessrc := data[..datalen];
      Store(out, 0, hmac[..datalen]);
      hmac := aessrc + hmac[datalen..];
      assert out[..datalen] == Xor(d, a);
      assert hmac[..BLOCK] == d + a[datalen..] && hmac[BLOCK..] == b;
    } else {
      var aesxor := hmac[8..24];
      hmac := hmac[..8] + hmac[24..] + hmac[16..];
      hmac := hmac[..16] + aesxor;
      assert aesxor == a[8..] + b[..8];
      assert hmac[..BLOCK] == a[..8] + b[8..] && hmac[BLOCK..] == aesxor;
      DecodeBody(k, aesxor, data, datalen, out);
    }
    var hmacsha1bin := k.Hmac(out[..datalen] + sid + hmac[..BLOCK]);
    AuthSlices(a, b, if datalen < BLOCK then datalen else 0);
    var differ := MemcmpConst(hmacsha1bin[..BLOCK], hmac[BLOCK..]);
    verdict := -(differ as int);
  }

  lemma AuthSlices(a: Block, b: Block, n: nat)
    requires n < BLOCK
    ensures var h := a + b;
            h[n..16] == a[n..] && h[16..] == b && h[..8] + h[24..] == a[..8] + b[8..] && h[8..24] == a[8..] + b[..8]
  {
  }

  method EncodeChained(k: Codec, iv: Block, data: bytes, datalen: nat, out: array<byte>) returns (aessrc: bytes)
    requires datalen % BLOCK == 0 && datalen <= |data| && datalen <= out.Length
    modifies out
    ensures var c := CbcEncrypt(k, iv, data[..datalen]);
            aessrc == Chain(iv, c) && out[..datalen] == c
    ensures forall i :: datalen <= i < out.Length ==> out[i] == old(out[i])
  {
    hide CbcEncrypt, CbcDecrypt, Chain, Xor, DecFour;
    ghost var d, o := data[..datalen], out[..];
    var aesdst: bytes := [];
    aessrc := iv;
    NothingIsChained(k, iv);
    assert d[..0] == [];
    var pos := 0;
    while pos < datalen
      invariant pos % BLOCK == 0 && pos <= datalen
      invariant out[..pos] == CbcEncrypt(k, iv, d[..pos])
      invariant forall i :: datalen <= i < out.Length ==> out[i] == o[i]
      invariant aessrc == Chain(iv, out[..pos])
    {
      ghost var soFar, block := out[..pos], d[pos..pos + 16];
      assert data[pos..pos + 16] == block;
      OneIsChained(k, aessrc, block);
      CbcEncryptAppend(k, iv, d[..pos], block);
      assert d[..pos + 16] == d[..pos] + block;
      aessrc := Xor(aessrc, data[pos..pos + 16]);
      aesdst := k.enc(aessrc);
      Store(out, pos, aesdst);
      assert out[..pos + 16] == soFar + aesdst;
      LastIsChained(iv, soFar, aesdst);
      aessrc, aesdst := aesdst, aessrc;
      pos := pos + 16;
    }
    assert d[..datalen] == d;
  }

  method EncodeStolen(k: Codec, prev: Block, data: bytes, out: array<byte>, m: nat)
    requires BLOCK < |data| < 2 * BLOCK && m + |data| <= out.Length
    modifies out
    ensures out[m..m + |data|] == StealEncrypt(k, prev, data)
    ensures forall i :: 0 <= i < out.Length && !(m <= i < m + |data|) ==> out[i] == old(out[i])
  {
    var needsteal := |data| - BLOCK;
    var aessrc := Xor(prev, data[..BLOCK]);
    var aesdst: bytes := k.enc(aessrc);
    Store(out, m + BLOCK, aesdst[..needsteal]);
    aesdst := Xor(aesdst[..needsteal], data[BLOCK..]) + aesdst[needsteal..];
    aessrc := k.enc(aesdst);
    Store(out, m, aessrc);
    assert out[m..m + |data|] == out[m..m + BLOCK] + out[m + BLOCK..m + |data|];
  }

  lemma AuthOf(k: Codec, auth: bytes, authout: bytes)
    requires |auth| == 2 * BLOCK && authout == k.enc(auth[..BLOCK]) + k.enc(auth[BLOCK..])
    ensures k.Valid() ==> k.dec(authout[..16]) + k.dec(authout[16..]) == auth
  {
    assert authout[..16] == k.enc(auth[..BLOCK]) && authout[16..] == k.enc(auth[BLOCK..]);
  }

  /** pcrypto_encode_sec, with the random nonce as an argument. The plaintext is not the output buffer. */
  method EncodeSec(k: Codec, data: bytes, out: array<byte>, sid: SectorId, rnd: Block) returns (authout: bytes)
    requires |data| <= out.Length
    modifies out
    ensures Sealed(out[..|data|], authout) == Seal(k, data, sid, rnd)
    ensures |authout| == 32
    ensures k.Valid() ==>
              var tag := k.Hmac(data + sid + rnd)[..16];
              k.dec(authout[..16]) + k.dec(authout[16..]) ==
              if |data| < 16 then Xor(data, rnd) + rnd[|data|..] + tag else rnd[..8] + tag + rnd[8..]
    ensures forall i :: |data| <= i < out.Length ==> out[i] == old(out[i])
  {
    hide CbcEncrypt, StealEncrypt, Codec.Hmac, Chain;
    var datalen, needsteal := |data|, 0;
    var hmacsha1bin := k.Hmac(data + sid + rnd);
    if datalen < BLOCK {
      var aessrc := Xor(data, rnd) + rnd[datalen..];
      Store(out, 0, rnd[..datalen]);
      authout := k.enc(aessrc) + k.enc(hmacsha1bin[..BLOCK]);
      assert authout[..16] == k.enc(aessrc) && authout[16..] == k.enc(hmacsha1bin[..BLOCK]);
      return;
    }
    if datalen % 16 != 0 {
      needsteal := datalen % 16;
      datalen := datalen - (needsteal + BLOCK);
    }
    var auth := rnd[..8] + hmacsha1bin[..BLOCK] + rnd[8..];
    authout := k.enc(auth[..BLOCK]) + k.enc(auth[BLOCK..]);
    ghost var tag := Tag(k, data, sid, rnd);
    AuthOf(k, auth, authout);
    assert auth == rnd[..8] + hmacsha1bin[..16] + rnd[8..];
    assert auth[..BLOCK] == rnd[..8] + tag[..8] && auth[BLOCK..] == tag[8..] + rnd[8..];
    var aessrc := EncodeChained(k, hmacsha1bin[..BLOCK], data, datalen, out);
    assert datalen == ChainedLength(|data|);
    if needsteal == 0 {
      assert data[..datalen] == data;
    } else {
      ghost var head := out[..datalen];
      EncodeStolen(k, aessrc, data[datalen..], out, datalen);
      assert out[..|data|] == head + out[datalen..|data|];
    }
  }
}
