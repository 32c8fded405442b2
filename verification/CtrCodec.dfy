/** The counter-mode codec that protects the private key, decoding any stretch of a stream in place. */
module CtrCodec {
  import opened Bytes
  import opened BlockCipher

  /** The keystream block for a counter: the first word of the IV is combined with the counter. */
  function Keystream(k: Codec, counter: nat): Block
    requires |k.iv| >= BLOCK
  {
    k.enc(Xor(k.iv[..8], Le(counter, 8)) + k.iv[8..BLOCK])
  }

  function KeyByte(k: Codec, position: nat): byte
    requires |k.iv| >= BLOCK
  {
    Keystream(k, position / BLOCK)[position % BLOCK]
  }

  /** A stretch of the stream that starts at `offset`, with every byte masked by its own position. */
  function Ctr(k: Codec, data: bytes, offset: nat): (r: bytes)
    requires |k.iv| >= BLOCK
    ensures |r| == |data|
  {
    seq(|data|, i requires 0 <= i < |data| => data[i] ^ KeyByte(k, offset + i))
  }

  lemma CtrTwice(k: Codec, data: bytes, offset: nat)
    requires |k.iv| >= BLOCK
    ensures Ctr(k, Ctr(k, data, offset), offset) == data
  {
    forall i | 0 <= i < |data|
      ensures Ctr(k, Ctr(k, data, offset), offset)[i] == data[i]
    {
      XorByteCancel(data[i], KeyByte(k, offset + i));
    }
  }

  /** Random access: any slice decodes, at its own offset, to that slice of the whole. */
  lemma CtrSlice(k: Codec, data: bytes, offset: nat, lo: nat, hi: nat)
    requires |k.iv| >= BLOCK && lo <= hi <= |data|
    ensures Ctr(k, data[lo..hi], offset + lo) == Ctr(k, data, offset)[lo..hi]
  {
  }

  /** xor16_aligned_inplace: two words at a time rather than sixteen bytes. */
  function XorWords(a: bytes, b: bytes): (r: bytes)
    requires |a| == |b| == BLOCK
  {
    Bytes64(Load64(a[..8]) ^ Load64(b[..8])) + Bytes64(Load64(a[8..]) ^ Load64(b[8..]))
  }

  lemma XorWordsIsXor(a: bytes, b: bytes)
    requires |a| == |b| == BLOCK
    ensures XorWords(a, b) == Xor(a, b)
  {
    hide Load64, Bytes64, Xor;
    WordXor(a[..8], b[..8]);
    WordXor(a[8..], b[8..]);
    XorInTwo(a, b, 8);
  }

  lemma XorInTwo(a: bytes, b: bytes, n: nat)
    requires n <= |a| == |b|
    ensures Xor(a, b) == Xor(a[..n], b[..n]) + Xor(a[n..], b[n..])
  {
  }

  /** xor_cnt_inplace, and with a count of 16 xor16_unaligned_inplace. */
  method XorCount(data: array<byte>, off: nat, key: bytes)
    requires off + |key| <= data.Length
    modifies data
    ensures data[off..off + |key|] == Xor(old(data[off..off + |key|]), key)
    ensures forall i :: 0 <= i < data.Length && !(off <= i < off + |key|) ==> data[i] == old(data[i])
  {
    ghost var d := data[..];
    for i := 0 to |key|
      invariant forall j :: 0 <= j < data.Length ==> data[j] == if off <= j < off + i then d[j] ^ key[j - off] else d[j]
    {
      data[off + i] := data[off + i] ^ key[i];
    }
  }

  /** What one keystream block, or a part of it, does to the stream. */
  lemma CtrStretch(k: Codec, d: bytes, offset: nat, pos: nat, n: nat)
    requires |k.iv| >= BLOCK && pos + n <= |d|
    requires (offset + pos) % BLOCK + n <= BLOCK
    ensures var start := (offset + pos) % BLOCK;
            Xor(d[pos..pos + n], Keystream(k, (offset + pos) / BLOCK)[start..start + n])
            == Ctr(k, d, offset)[pos..pos + n]
  {
    hide Keystream, Xor, Ctr, KeyByte;
    var x := offset + pos;
    var start := x % BLOCK;
    var key := Keystream(k, x / BLOCK)[start..start + n];
    var r := Xor(d[pos..pos + n], key);
    XorLength(d[pos..pos + n], key);
    CtrLength(k, d, offset);
    forall i | 0 <= i < n
      ensures r[i] == Ctr(k, d, offset)[pos + i]
    {
      XorAt(d[pos..pos + n], key, i);
      KeyByteAt(k, x, i);
      CtrAt(k, d, offset, pos + i);
      assert offset + (pos + i) == x + i;
    }
  }

  lemma KeyByteAt(k: Codec, x: nat, i: nat)
    requires |k.iv| >= BLOCK && x % BLOCK + i < BLOCK
    ensures Keystream(k, x / BLOCK)[x % BLOCK + i] == KeyByte(k, x + i)
  {
    hide Keystream;
    DivAt(x, i);
  }

  lemma CtrAt(k: Codec, d: bytes, offset: nat, i: nat)
    requires |k.iv| >= BLOCK && i < |d|
    ensures |Ctr(k, d, offset)| == |d| && Ctr(k, d, offset)[i] == d[i] ^ KeyByte(k, offset + i)
  {
    hide KeyByte;
  }

  lemma DivAt(x: nat, i: nat)
    requires x % BLOCK + i < BLOCK
    ensures (x + i) / BLOCK == x / BLOCK && (x + i) % BLOCK == x % BLOCK + i
  {
  }

  lemma XorAt(a: bytes, b: bytes, i: nat)
    requires |a| <= |b| && i < |a|
    ensures |Xor(a, b)| == |a| && Xor(a, b)[i] == a[i] ^ b[i]
  {
  }

  /** Masks n bytes at `pos` with one keystream block, or with the part of it that `pos` calls for. */
  method MaskBlock(k: Codec, data: array<byte>, pos: nat, n: nat, counter: nat, start: nat, aligned: bool,
                   ghost d: bytes, ghost offset: nat)
    requires |k.iv| >= BLOCK && pos + n <= |d| <= data.Length
    requires counter == (offset + pos) / BLOCK && start == (offset + pos) % BLOCK && start + n <= BLOCK
    requires forall i :: pos <= i < pos + n ==> data[i] == d[i]
    requires aligned ==> n == BLOCK
    modifies data
    ensures |Ctr(k, d, offset)| == |d|
    ensures forall i :: 0 <= i < data.Length ==>
      data[i] == if pos <= i < pos + n then Ctr(k, d, offset)[i] else old(data[i])
  {
    hide Keystream, Xor, Ctr, Le, XorWords;
    assert data[pos..pos + n] == d[pos..pos + n];
    CtrLength(k, d, offset);
    CtrStretch(k, d, offset, pos, n);
    var aesdst := Keystream(k, counter);
    if aligned {
      assert aesdst[start..start + n] == aesdst;
      XorWordsIsXor(data[pos..pos + BLOCK], aesdst);
      Store(data, pos, XorWords(data[pos..pos + BLOCK], aesdst));
    } else {
      XorCount(data, pos, aesdst[start..start + n]);
    }
    forall i | pos <= i < pos + n
      ensures data[i] == Ctr(k, d, offset)[i]
    {
      assert data[i] == data[pos..pos + n][i - pos];
    }
  }

  /** pcrypto_ctr_encdec_decode. `addr` is the address of the first byte: it only selects the loop that runs. */
  method Decode(k: Codec, data: array<byte>, datalen: nat, dataoffset: nat, addr: nat)
    requires |k.iv| >= BLOCK && datalen <= data.Length
    requires dataoffset % BLOCK == 0 || datalen >= BLOCK - dataoffset % BLOCK
    modifies data
    ensures data[..datalen] == Ctr(k, old(data[..datalen]), dataoffset)
    ensures forall i :: datalen <= i < data.Length ==> data[i] == old(data[i])
  {
    hide Ctr;
    ghost var d, r := data[..datalen], Ctr(k, data[..datalen], dataoffset);
    CtrLength(k, d, dataoffset);
    var counter, start, pos := dataoffset / BLOCK, dataoffset % BLOCK, 0;
    if start != 0 {
      pos := BLOCK - start;
      MaskBlock(k, data, 0, pos, counter, start, false, d, dataoffset);
      counter := counter + 1;
    }
    var blocksrem: nat := (datalen - pos) / BLOCK;
    var rest := datalen - pos - blocksrem * BLOCK;
    var wordAligned := (addr + pos) % 8 == 0;
    while blocksrem > 0
      invariant pos + blocksrem * BLOCK + rest == datalen
      invariant dataoffset + pos == counter * BLOCK
      invariant forall i :: 0 <= i < pos ==> data[i] == r[i]
      invariant forall i :: pos <= i < datalen ==> data[i] == d[i]
      invariant forall i :: datalen <= i < data.Length ==> data[i] == old(data[i])
    {
      MaskBlock(k, data, pos, BLOCK, counter, 0, wordAligned, d, dataoffset);
      blocksrem, counter, pos := blocksrem - 1, counter + 1, pos + BLOCK;
    }
    if rest > 0 {
      MaskBlock(k, data, pos, rest, counter, 0, false, d, dataoffset);
    }
    assert forall i :: 0 <= i < datalen ==> data[i] == r[i];
  }

  lemma CtrLength(k: Codec, d: bytes, offset: nat)
    requires |k.iv| >= BLOCK
    ensures |Ctr(k, d, offset)| == |d|
  {
  }

  /**
   * What the stream is masked with, in terms of AES alone: decrypting a masked block of zeros gives the IV with its
   * first word combined with the block's number, least significant byte first.
   */
  lemma CounterBlock(k: Codec, zeros: bytes, c: nat)
    requires k.Valid() && |k.iv| >= 16 && |zeros| == 16 && forall i :: 0 <= i < 16 ==> zeros[i] == 0
    ensures |Ctr(k, zeros, 16 * c)| == 16
    ensures var word := [(c / 0x1 % 0x100) as byte, (c / 0x100 % 0x100) as byte, (c / 0x1_0000 % 0x100) as byte,
                         (c / 0x100_0000 % 0x100) as byte, (c / 0x1_0000_0000 % 0x100) as byte,
                         (c / 0x100_0000_0000 % 0x100) as byte, (c / 0x1_0000_0000_0000 % 0x100) as byte,
                         (c / 0x100_0000_0000_0000 % 0x100) as byte];
            k.dec(Ctr(k, zeros, 16 * c)) == Xor(k.iv[..8], word) + k.iv[8..16]
  {
    hide Le, Xor, Ctr, KeyByte;
    LeOfWord(c);
    ZerosMasked(k, zeros, c);
  }

  lemma ZerosMasked(k: Codec, zeros: bytes, c: nat)
    requires |k.iv| >= 16 && |zeros| == 16 && forall i :: 0 <= i < 16 ==> zeros[i] == 0
    ensures Ctr(k, zeros, 16 * c) == Keystream(k, c)
  {
    hide Keystream;
    forall i | 0 <= i < 16
      ensures Ctr(k, zeros, 16 * c)[i] == Keystream(k, c)[i]
    {
      CtrAt(k, zeros, 16 * c, i);
      BlockAt(c, i);
      ZeroMasks(KeyByte(k, 16 * c + i));
    }
  }

  lemma BlockAt(c: nat, i: nat)
    requires i < 16
    ensures (16 * c + i) / 16 == c && (16 * c + i) % 16 == i
  {
  }

  lemma ZeroMasks(b: byte)
    ensures 0 ^ b == b
  {
  }

  /** So no two blocks of one stream are masked alike. */
  lemma CountersDiffer(k: Codec, zeros: bytes, c: nat, c2: nat)
    requires k.Valid() && |k.iv| >= 16 && |zeros| == 16 && forall i :: 0 <= i < 16 ==> zeros[i] == 0
    requires c != c2 && c < 0x1_0000_0000_0000_0000 && c2 < 0x1_0000_0000_0000_0000
    ensures Ctr(k, zeros, 16 * c) != Ctr(k, zeros, 16 * c2)
  {
    hide Le, Ctr, Xor;
    if Ctr(k, zeros, 16 * c) == Ctr(k, zeros, 16 * c2) {
      CounterBlock(k, zeros, c);
      CounterBlock(k, zeros, c2);
      LeOfWord(c);
      LeOfWord(c2);
      var p := k.dec(Ctr(k, zeros, 16 * c));
      XorLength(k.iv[..8], Le(c, 8));
      XorLength(k.iv[..8], Le(c2, 8));
      assert p[..8] == Xor(k.iv[..8], Le(c, 8)) == Xor(k.iv[..8], Le(c2, 8));
      XorUndone(k.iv[..8], Le(c, 8), Le(c2, 8));
      AboveWords();
      LeInjective(c, c2, 8, Above(8));
    }
  }

  lemma XorUndone(a: bytes, x: bytes, y: bytes)
    requires |a| == |x| == |y| && Xor(a, x) == Xor(a, y)
    ensures x == y
  {
    XorCommutes(a, x);
    XorCommutes(a, y);
    XorCancel(x, a);
    XorCancel(y, a);
  }
}
