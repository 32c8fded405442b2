/** The filename codec: a zero-padded CBC whose IV depends on everything after the first block. */
module TextCodec {
  import opened Bytes
  import opened BlockCipher
  import opened Options
  import opened SectorCodec
  import opened SectorBuffers
  import opened Sequences

  function Zeros(n: nat): (z: bytes)
    ensures |z| == n
    ensures forall i :: 0 <= i < n ==> z[i] == 0
  {
    seq(n, i => 0)
  }

  /** ALIGN_A256_BS. */
  function RoundUp(n: nat): (r: nat)
    ensures r % BLOCK == 0 && n <= r < n + BLOCK
  {
    (n + BLOCK - 1) / BLOCK * BLOCK
  }

  function Pad(txt: bytes): (p: bytes)
    ensures |p| == RoundUp(|txt|)
  {
    txt + Zeros(RoundUp(|txt|) - |txt|)
  }

  /** strlen, where a zero byte follows the buffer. */
  function StrLen(s: bytes): (n: nat)
    ensures n <= |s|
    ensures forall i :: 0 <= i < n ==> s[i] != 0
    ensures n < |s| ==> s[n] == 0
  {
    if s == [] || s[0] == 0 then 0 else 1 + StrLen(s[1..])
  }

  function CString(s: bytes): bytes {
    s[..StrLen(s)]
  }

  lemma StrLenIs(s: bytes, n: nat)
    requires n <= |s| && (n < |s| ==> s[n] == 0)
    requires forall i :: 0 <= i < n ==> s[i] != 0
    ensures StrLen(s) == n
  {
  }

  function TextIv(k: Codec, txt: bytes): Block
    requires |k.iv| >= BLOCK
  {
    if |txt| <= BLOCK then k.iv[..BLOCK] else k.Hmac(txt[BLOCK..])[..BLOCK]
  }

  function EncodedText(k: Codec, txt: bytes): (c: bytes)
    requires |k.iv| >= BLOCK
    ensures |c| == RoundUp(|txt|)
  {
    CbcEncrypt(k, TextIv(k, txt), Pad(txt))
  }

  /** The check that nothing but zeros follows the terminator. */
  ghost predicate ZeroPadded(p: bytes) {
    forall i :: StrLen(p) <= i < |p| ==> p[i] == 0
  }

  /** The buffer that decoding returns (the caller reads it as a C string), or nothing. */
  ghost function DecodedText(k: Codec, data: bytes): (r: Option<bytes>)
    requires |k.iv| >= BLOCK
    ensures r.Some? ==> |r.value| == |data|
  {
    if |data| % BLOCK != 0 || |data| == 0 then None
    else if |data| == BLOCK then
      var p := Xor(k.dec(data), k.iv);
      if ZeroPadded(p) then Some(p) else None
    else
      var tail := CbcDecrypt(k, data[..BLOCK], data[BLOCK..]);
      var p := Xor(k.dec(data[..BLOCK]), k.Hmac(CString(tail))) + tail;
      if ZeroPadded(tail) then Some(p) else None
  }

  lemma DecodeOneBlock(k: Codec, txt: bytes)
    requires k.Valid() && |k.iv| >= BLOCK && 1 <= |txt| <= BLOCK && 0 !in txt
    ensures DecodedText(k, EncodedText(k, txt)) == Some(Pad(txt))
  {
    hide CbcEncrypt, CbcDecrypt, Codec.Hmac, StrLen;
    var p, iv, c := Pad(txt), TextIv(k, txt), EncodedText(k, txt);
    CbcDecryptEncrypt(k, iv, p);
    StrLenIs(p, |txt|);
    OneIsChained(k, iv, c);
    assert Xor(k.dec(c), k.iv) == Xor(k.dec(c), k.iv[..BLOCK]);
  }

  lemma DecodeEncodedBlocks(k: Codec, txt: bytes)
    requires k.Valid() && |k.iv| >= BLOCK && |txt| > BLOCK && 0 !in txt
    ensures DecodedText(k, EncodedText(k, txt)) == Some(Pad(txt))
  {
    hide CbcEncrypt, CbcDecrypt, Codec.Hmac, StrLen;
    var p, iv, c := Pad(txt), TextIv(k, txt), EncodedText(k, txt);
    CbcDecryptEncrypt(k, iv, p);
    FirstIsChained(k, iv, c);
    var tail := CbcDecrypt(k, c[..BLOCK], c[BLOCK..]);
    assert tail == p[BLOCK..] == txt[BLOCK..] + Zeros(|p| - |txt|);
    StrLenIs(tail, |txt| - BLOCK);
    assert CString(tail) == txt[BLOCK..];
    assert Xor(k.dec(c[..BLOCK]), k.Hmac(CString(tail))) == Xor(k.dec(c[..BLOCK]), iv);
  }

  /** A name without zero bytes is recovered, and no other text is. */
  lemma DecodeEncodedText(k: Codec, txt: bytes)
    requires k.Valid() && |k.iv| >= BLOCK && txt != []
    ensures var r := DecodedText(k, EncodedText(k, txt));
            (r.Some? && CString(r.value) == txt) <==> 0 !in txt
  {
    if 0 !in txt {
      hide DecodedText, EncodedText;
      if |txt| <= BLOCK {
        DecodeOneBlock(k, txt);
      } else {
        DecodeEncodedBlocks(k, txt);
      }
      StrLenIs(Pad(txt), |txt|);
    }
  }

  lemma ReencodeOneBlock(k: Codec, data: bytes)
    requires k.Valid() && |k.iv| >= BLOCK && |data| == BLOCK && DecodedText(k, data).Some?
    ensures var txt := CString(DecodedText(k, data).value);
            RoundUp(|txt|) == BLOCK ==> EncodedText(k, txt) == data
  {
    hide CbcEncrypt, CbcDecrypt, Codec.Hmac, StrLen;
    var p := DecodedText(k, data).value;
    var txt := CString(p);
    if RoundUp(|txt|) == BLOCK {
      assert p == Pad(txt);
      assert p == Xor(k.dec(data), k.iv[..BLOCK]);
      OneIsChained(k, TextIv(k, txt), data);
      CbcEncryptDecrypt(k, TextIv(k, txt), data);
    }
  }

  /**
   * What an encoder that wants to can send: any plaintext of more than one block whose later blocks are one terminated
   * string and zeros, under the IV that the decoder will compute for it.
   */
  function Forged(k: Codec, p: bytes): (c: bytes)
    requires |k.iv| >= BLOCK && |p| % BLOCK == 0 && |p| > BLOCK
  {
    CbcEncrypt(k, k.Hmac(CString(p[BLOCK..]))[..BLOCK], p)
  }

  lemma ForgedIsAccepted(k: Codec, p: bytes)
    requires k.Valid() && |k.iv| >= BLOCK && |p| % BLOCK == 0 && |p| > BLOCK && ZeroPadded(p[BLOCK..])
    ensures DecodedText(k, Forged(k, p)) == Some(p)
  {
    hide CbcEncrypt, CbcDecrypt, Codec.Hmac, StrLen, ZeroPadded, CString, Xor;
    var h := k.Hmac(CString(p[BLOCK..]));
    var iv: Block, c := h[..BLOCK], Forged(k, p);
    CbcLength(k, iv, p);
    CbcDecryptEncrypt(k, iv, p);
    FirstIsChained(k, iv, c);
    var tail := CbcDecrypt(k, c[..BLOCK], c[BLOCK..]);
    XorLength(k.dec(c[..BLOCK]), iv);
    assert tail == p[BLOCK..];
    XorStart(k.dec(c[..BLOCK]), h);
  }

  lemma XorStart(a: bytes, b: bytes)
    requires |a| == BLOCK <= |b|
    ensures Xor(a, b) == Xor(a, b[..BLOCK])
  {
  }

  /** And only that is accepted: what decoding returns is the plaintext it was made from. */
  lemma AcceptedIsForged(k: Codec, data: bytes)
    requires k.Valid() && |k.iv| >= BLOCK && |data| > BLOCK && DecodedText(k, data).Some?
    ensures var p := DecodedText(k, data).value;
            |p| % BLOCK == 0 && |p| > BLOCK && ZeroPadded(p[BLOCK..]) && Forged(k, p) == data
  {
    hide CbcEncrypt, CbcDecrypt, Codec.Hmac, StrLen, ZeroPadded, CString, Xor;
    var p := DecodedText(k, data).value;
    var tail := CbcDecrypt(k, data[..BLOCK], data[BLOCK..]);
    var h := k.Hmac(CString(tail));
    var iv: Block := h[..BLOCK];
    XorLength(k.dec(data[..BLOCK]), h);
    CbcLength(k, data[..BLOCK], data[BLOCK..]);
    assert p[BLOCK..] == tail;
    XorStart(k.dec(data[..BLOCK]), h);
    FirstIsChained(k, iv, data);
    CbcEncryptDecrypt(k, iv, data);
  }

  /** Where the terminator is in the last block, the text with its padding is all there is. */
  lemma PaddedText(p: bytes)
    requires |p| % BLOCK == 0 && |p| > BLOCK && ZeroPadded(p[BLOCK..]) && RoundUp(|CString(p)|) == |p|
    ensures p == Pad(CString(p)) && |CString(p)| > BLOCK && CString(p[BLOCK..]) == CString(p)[BLOCK..]
  {
    hide StrLen;
    var n := |CString(p)|;
    StrLenStops(p);
    var tail := p[BLOCK..];
    StrLenAt(p, BLOCK);
    forall i | n <= i < |p|
      ensures p[i] == 0
    {
      assert p[i] == tail[i - BLOCK];
    }
    assert p == CString(p) + p[n..];
  }

  /** The terminator, seen from a later start before it. */
  lemma StrLenAt(s: bytes, from: nat)
    requires from <= StrLen(s)
    ensures StrLen(s[from..]) == StrLen(s) - from
  {
    StrLenIs(s[from..], StrLen(s) - from);
  }

  lemma ReencodeBlocks(k: Codec, data: bytes)
    requires k.Valid() && |k.iv| >= BLOCK && |data| > BLOCK && DecodedText(k, data).Some?
    ensures var txt := CString(DecodedText(k, data).value);
            RoundUp(|txt|) == |data| ==> EncodedText(k, txt) == data
  {
    hide CbcEncrypt, Codec.Hmac, StrLen, ZeroPadded, CString, Pad, RoundUp;
    AcceptedIsForged(k, data);
    var p := DecodedText(k, data).value;
    hide DecodedText;
    if RoundUp(|CString(p)|) == |data| {
      PaddedText(p);
    }
  }

  /** An accepted ciphertext is the encoding of the name read from it exactly when that name reaches its last block. */
  lemma EncodeDecodedText(k: Codec, data: bytes)
    requires k.Valid() && |k.iv| >= BLOCK && DecodedText(k, data).Some?
    ensures var txt := CString(DecodedText(k, data).value);
            EncodedText(k, txt) == data <==> RoundUp(|txt|) == |data|
  {
    if |data| == BLOCK {
      ReencodeOneBlock(k, data);
    } else {
      ReencodeBlocks(k, data);
    }
  }

  /** "a" with a whole block of padding behind it: accepted, read as "a", and not what encoding "a" gives. */
  lemma ExtraPaddingIsAccepted(k: Codec)
    requires k.Valid() && |k.iv| >= BLOCK
    ensures var c := Forged(k, [97] + Zeros(31));
            var r := DecodedText(k, c);
            r.Some? && CString(r.value) == [97] && EncodedText(k, [97]) != c
  {
    hide DecodedText, CbcEncrypt;
    var p: bytes := [97] + Zeros(31);
    assert p[BLOCK..] == Zeros(16);
    StrLenIs(p[BLOCK..], 0);
    ForgedIsAccepted(k, p);
    StrLenIs(p, 1);
    EncodeDecodedText(k, Forged(k, p));
    CbcLength(k, k.Hmac(CString(p[BLOCK..]))[..BLOCK], p);
  }

  /** "a", a terminator and "b" in the first block, and the text "c" behind it: accepted too, and read as "a". */
  lemma HiddenTextIsAccepted(k: Codec)
    requires k.Valid() && |k.iv| >= BLOCK
    ensures var c := Forged(k, [97, 0, 98] + Zeros(13) + [99] + Zeros(15));
            var r := DecodedText(k, c);
            r.Some? && CString(r.value) == [97] && EncodedText(k, [97]) != c
  {
    hide DecodedText, CbcEncrypt;
    var p: bytes := [97, 0, 98] + Zeros(13) + [99] + Zeros(15);
    assert p[BLOCK..] == [99] + Zeros(15);
    StrLenIs(p[BLOCK..], 1);
    ForgedIsAccepted(k, p);
    StrLenIs(p, 1);
    EncodeDecodedText(k, Forged(k, p));
    CbcLength(k, k.Hmac(CString(p[BLOCK..]))[..BLOCK], p);
  }

  /** copy_pad: the next block of the text and what is left of it. */
  function CopyPad(txt: bytes): (r: (bytes, bytes))
    ensures |r.0| == BLOCK && Pad(txt) == (if txt == [] then [] else r.0) + Pad(r.1)
    ensures |r.1| < |txt| || txt == []
  {
    if BLOCK <= |txt| then
      assert Pad(txt) == txt[..BLOCK] + Pad(txt[BLOCK..]);
      (txt[..BLOCK], txt[BLOCK..])
    else
      assert Pad([]) == [];
      (txt + Zeros(BLOCK - |txt|), [])
  }

  /** The next block of a ciphertext that is being produced. */
  lemma EncryptedBlock(k: Codec, iv: Block, p: bytes, pos: nat)
    requires |p| % BLOCK == 0 && pos % BLOCK == 0 && pos + BLOCK <= |p|
    ensures var c := CbcEncrypt(k, iv, p);
            c[pos..pos + BLOCK] == k.enc(Xor(Chain(iv, c[..pos]), p[pos..pos + BLOCK]))
    ensures Chain(iv, CbcEncrypt(k, iv, p)[..pos + BLOCK]) == CbcEncrypt(k, iv, p)[pos..pos + BLOCK]
  {
    hide CbcEncrypt, Xor;
    var c, block := CbcEncrypt(k, iv, p), p[pos..pos + BLOCK];
    assert p[..pos + BLOCK] == p[..pos] + block && p == p[..pos + BLOCK] + p[pos + BLOCK..];
    CbcEncryptAppend(k, iv, p[..pos], block);
    CbcEncryptAppend(k, iv, p[..pos + BLOCK], p[pos + BLOCK..]);
    assert c[..pos] == CbcEncrypt(k, iv, p[..pos]);
    OneIsChained(k, Chain(iv, c[..pos]), block);
  }

  /** The next block of the text, padded if it is the last, and masked with the ciphertext before it. */
  lemma NextPadded(k: Codec, iv: Block, p: bytes, pos: nat, rest: bytes, prev: Block)
    requires |p| % BLOCK == 0 && pos % BLOCK == 0 && pos <= |p| && p[pos..] == Pad(rest) && rest != []
    requires pos <= |CbcEncrypt(k, iv, p)| && prev == Chain(iv, CbcEncrypt(k, iv, p)[..pos])
    ensures var c := CbcEncrypt(k, iv, p);
            var aesdst: bytes := k.enc(Xor(CopyPad(rest).0, prev));
            && |CopyPad(rest).0| == |aesdst| == BLOCK && |CopyPad(rest).1| < |rest|
            && pos + BLOCK <= |p| == |c| && aesdst == c[pos..pos + BLOCK]
            && aesdst == Chain(iv, c[..pos + BLOCK]) && p[pos + BLOCK..] == Pad(CopyPad(rest).1)
  {
    hide CbcEncrypt, Chain, Pad, Xor;
    var c, block := CbcEncrypt(k, iv, p), CopyPad(rest).0;
    CbcLength(k, iv, p);
    PadStart(rest);
    assert p[pos..][..BLOCK] == block && p[pos..][BLOCK..] == Pad(CopyPad(rest).1);
    assert p[pos..pos + BLOCK] == p[pos..][..BLOCK] && p[pos + BLOCK..] == p[pos..][BLOCK..];
    EncryptedBlock(k, iv, p, pos);
    XorCommutes(block, prev);
  }

  /** The loop over everything after the first block. */
  method EncodeRest(k: Codec, first: Block, txt: bytes, out: array<byte>)
    requires out.Length == BLOCK + RoundUp(|txt|) && out[..BLOCK] == first
    modifies out
    ensures out[..] == first + CbcEncrypt(k, first, Pad(txt))
  {
    hide CbcEncrypt, Chain, Pad, Xor, RoundUp, CopyPad;
    ghost var p, c := Pad(txt), CbcEncrypt(k, first, Pad(txt));
    var rest, aesdst: bytes, pos := txt, first, 0;
    PadStart(txt);
    CbcLength(k, first, p);
    NothingIsChained(k, first);
    assert c[..0] == [];
    assert out[..BLOCK] == first + c[..0];
    while rest != []
      invariant 0 <= pos <= |p| == |c| == out.Length - BLOCK && pos % BLOCK == 0 && p[pos..] == Pad(rest)
      invariant |aesdst| == BLOCK && aesdst == Chain(first, c[..pos])
      invariant out[..BLOCK + pos] == first + c[..pos]
      decreases |rest|
    {
      NextPadded(k, first, p, pos, rest, aesdst);
      aesdst := k.enc(Xor(CopyPad(rest).0, aesdst));
      Append(out, BLOCK + pos, aesdst);
      StretchEnds(first, c, pos);
      rest, pos := CopyPad(rest).1, pos + BLOCK;
    }
    PadStart([]);
    assert c[..|c|] == c && out[..out.Length] == out[..];
  }

  /** memcpy of the next block behind what is already there. */
  method Append(out: array<byte>, pos: nat, v: bytes)
    requires pos + |v| <= out.Length
    modifies out
    ensures out[..pos + |v|] == old(out[..pos]) + v
  {
    Store(out, pos, v);
  }

  lemma StretchEnds(first: bytes, c: bytes, pos: nat)
    requires pos + BLOCK <= |c|
    ensures first + c[..pos] + c[pos..pos + BLOCK] == first + c[..pos + BLOCK]
  {
  }

  lemma EncodedInTwo(k: Codec, iv: Block, p: bytes)
    requires |p| % BLOCK == 0 && p != []
    ensures var c0 := k.enc(Xor(p[..BLOCK], iv));
            CbcEncrypt(k, iv, p) == c0 + CbcEncrypt(k, c0, p[BLOCK..])
  {
    XorCommutes(p[..BLOCK], iv);
  }

  /** pcrypto_encode_text. */
  method EncodeText(k: Codec, txt: bytes) returns (out: array<byte>)
    requires |k.iv| >= BLOCK && |txt| >= 1
    ensures fresh(out) && out[..] == EncodedText(k, txt)
  {
    hide CbcEncrypt, Codec.Hmac, Pad;
    PadStart(txt);
    PadStart([]);
    out := new byte[RoundUp(|txt|)];
    EncodedInTwo(k, TextIv(k, txt), Pad(txt));
    if |txt| <= BLOCK {
      var aessrc := Xor(CopyPad(txt).0, k.iv[..BLOCK]);
      var aesdst := k.enc(aessrc);
      Store(out, 0, aesdst);
      NothingIsChained(k, aesdst);
      assert Pad(txt)[BLOCK..] == [];
    } else {
      var hmac := k.Hmac(txt[BLOCK..]);
      var aessrc := Xor(txt[..BLOCK], hmac[..BLOCK]);
      var aesdst := k.enc(aessrc);
      Store(out, 0, aesdst);
      EncodeRest(k, aesdst, txt[BLOCK..], out);
    }
  }

  lemma PadStart(txt: bytes)
    ensures |Pad(txt)| == RoundUp(|txt|)
    ensures txt == [] ==> Pad(txt) == []
    ensures txt != [] ==> Pad(txt)[..BLOCK] == CopyPad(txt).0
    ensures |txt| >= BLOCK ==> Pad(txt)[..BLOCK] == txt[..BLOCK] && Pad(txt)[BLOCK..] == Pad(txt[BLOCK..])
  {
  }

  /** Position of the terminator in a zero-terminated buffer, from `off` on. */
  method FindEnd(s: bytes, off: nat) returns (n: nat)
    requires off <= |s|
    ensures n == StrLen(s[off..])
  {
    n := 0;
    while off + n < |s| && s[off + n] != 0
      invariant off + n <= |s|
      invariant forall i :: 0 <= i < n ==> s[off..][i] != 0
    {
      n := n + 1;
    }
    StrLenIs(s[off..], n);
  }

  /** The loop that refuses anything but zeros from `from` on. */
  method OnlyZeros(s: bytes, from: nat) returns (ok: bool)
    ensures ok <==> forall i :: from <= i < |s| ==> s[i] == 0
  {
    var len := from;
    while len < |s|
      invariant from <= len
      invariant forall i :: from <= i < |s| && i < len ==> s[i] == 0
    {
      if s[len] != 0 {
        return false;
      }
      len := len + 1;
    }
    return true;
  }

  /** The loop over everything after the first block, each block combined with the ciphertext before it. */
  method DecodeRest(k: Codec, data: bytes, out: array<byte>)
    requires |data| % BLOCK == 0 && BLOCK <= |data| <= out.Length
    modifies out
    ensures out[BLOCK..|data|] == CbcDecrypt(k, data[..BLOCK], data[BLOCK..])
    ensures forall i :: 0 <= i < out.Length && !(BLOCK <= i < |data|) ==> out[i] == old(out[i])
  {
    hide CbcDecrypt, Chain, Xor;
    ghost var d := data[BLOCK..];
    ghost var p := CbcDecrypt(k, data[..BLOCK], d);
    ghost var o := out[..];
    CbcLength(k, data[..BLOCK], d);
    var pos, left := 0, |data| / BLOCK - 1;
    while left > 0
      invariant pos + left * BLOCK == |d| && pos % BLOCK == 0 && pos >= 0 && left >= 0
      invariant forall i :: 0 <= i < out.Length ==> out[i] == if BLOCK <= i < BLOCK + pos then p[i - BLOCK] else o[i]
    {
      var xorptr := data[pos..pos + BLOCK];
      var aesdst := Xor(k.dec(data[pos + BLOCK..pos + 2 * BLOCK]), xorptr);
      NextOfRest(k, data, pos);
      Store(out, BLOCK + pos, aesdst);
      pos, left := pos + BLOCK, left - 1;
    }
  }

  /** The block after the one at pos, unmasked with it. */
  lemma NextOfRest(k: Codec, data: bytes, pos: nat)
    requires |data| % BLOCK == 0 && pos % BLOCK == 0 && pos + 2 * BLOCK <= |data|
    ensures var aesdst := Xor(k.dec(data[pos + BLOCK..pos + 2 * BLOCK]), data[pos..pos + BLOCK]);
            var p := CbcDecrypt(k, data[..BLOCK], data[BLOCK..]);
            |aesdst| == BLOCK && |p| == |data| - BLOCK && forall i :: 0 <= i < BLOCK ==> aesdst[i] == p[pos + i]
  {
    hide CbcDecrypt, Chain, Xor;
    var d := data[BLOCK..];
    assert data[pos + BLOCK..pos + 2 * BLOCK] == d[pos..pos + BLOCK];
    ChainedToData(data, pos);
    NextIsChained(k, data[..BLOCK], d, pos, data[pos..pos + BLOCK]);
    var p := CbcDecrypt(k, data[..BLOCK], d);
    var next := p[pos..pos + BLOCK];
    assert forall i :: 0 <= i < BLOCK ==> next[i] == p[pos + i];
  }

  lemma ChainedToData(data: bytes, pos: nat)
    requires |data| % BLOCK == 0 && pos % BLOCK == 0 && pos + BLOCK <= |data|
    ensures Chain(data[..BLOCK], data[BLOCK..][..pos]) == data[pos..pos + BLOCK]
  {
    if pos > 0 {
      assert data[BLOCK..][..pos] == data[BLOCK..BLOCK + pos];
    }
  }

  /** Decoding more than one block: the first is unmasked last, with the HMAC of the text after it. */
  method DecodeBlocks(k: Codec, data: bytes, buf: array<byte>) returns (ok: bool)
    requires |k.iv| >= BLOCK && |data| % BLOCK == 0 && |data| > BLOCK && buf.Length == |data| + 1
    requires buf[|data|] == 0
    modifies buf
    ensures ok <==> DecodedText(k, data).Some?
    ensures ok ==> buf[..] == DecodedText(k, data).value + [0]
  {
    hide CbcDecrypt, Codec.Hmac, StrLen, Xor;
    var first := k.dec(data[..BLOCK]);
    Store(buf, 0, first);
    DecodeRest(k, data, buf);
    ghost var rest := buf[BLOCK..];
    EndsInZero(buf[..], |data|);
    ghost var tail := buf[BLOCK..|data|];
    var len := FindEnd(buf[BLOCK..|data|], 0);
    assert tail[0..] == tail;
    var hmac := k.Hmac(buf[BLOCK..BLOCK + len]);
    assert buf[BLOCK..BLOCK + len] == CString(tail);
    XorLength(first, hmac);
    ReplaceFront(buf, Xor(first, hmac));
    assert buf[BLOCK..|data|] == tail;
    ok := OnlyZeros(buf[BLOCK..|data|], len + 1);
    StrLenStops(tail);
    ConcatAssoc(Xor(first, hmac), tail, [0]);
  }

  lemma EndsInZero(b: bytes, n: nat)
    requires BLOCK <= n && |b| == n + 1 && b[n] == 0
    ensures b[BLOCK..] == b[BLOCK..n] + [0]
  {
  }

  /** xor16_aligned_inplace on the first block of the buffer. */
  method ReplaceFront(buf: array<byte>, v: bytes)
    requires |v| == BLOCK <= buf.Length
    modifies buf
    ensures buf[..] == v + old(buf[BLOCK..]) && buf[BLOCK..] == old(buf[BLOCK..])
  {
    Store(buf, 0, v);
  }

  /** Decoding a single block. */
  method DecodeBlock(k: Codec, data: Block, buf: array<byte>) returns (ok: bool)
    requires |k.iv| >= BLOCK && buf.Length == BLOCK + 1 && buf[BLOCK] == 0
    modifies buf
    ensures ok <==> DecodedText(k, data).Some?
    ensures ok ==> buf[..] == DecodedText(k, data).value + [0]
  {
    hide CbcDecrypt, Codec.Hmac, StrLen, Xor;
    XorLength(k.dec(data), k.iv);
    var aesdst := Xor(k.dec(data), k.iv);
    Store(buf, 0, aesdst);
    var len := FindEnd(aesdst, 0);
    assert aesdst[0..] == aesdst;
    ok := OnlyZeros(aesdst, len + 1);
    StrLenStops(aesdst);
  }

  /** pcrypto_decode_text. The buffer is one byte longer than the ciphertext, and ends in zero. */
  method DecodeText(k: Codec, data: bytes) returns (ret: array?<byte>)
    requires |k.iv| >= BLOCK
    ensures ret == null <==> DecodedText(k, data) == None
    ensures ret != null ==> fresh(ret) && ret[..] == DecodedText(k, data).value + [0]
  {
    if |data| % BLOCK != 0 || |data| == 0 {
      return null;
    }
    hide DecodedText;
    var buf, ok := new byte[|data| + 1], false;
    buf[|data|] := 0;
    if |data| == BLOCK {
      ok := DecodeBlock(k, data, buf);
    } else {
      ok := DecodeBlocks(k, data, buf);
    }
    return if ok then buf else null;
  }

  lemma StrLenStops(s: bytes)
    ensures StrLen(s) <= |s| && (StrLen(s) < |s| ==> s[StrLen(s)] == 0)
  {
  }
}
