/** What encoding a name means in the terms of AES and HMAC alone. */
module TextLaws {
  import opened Bytes
  import opened BlockCipher
  import opened SectorLaws
  import opened TextCodec

  /**
   * Each block of an encoded name, from the block of the name, with zeros behind its end, and the block before it. The
   * first block is chained to the start of the HMAC of everything after it, or to the key's IV if nothing is.
   */
  lemma EncodedBlock(k: Codec, txt: bytes, z: bytes, i: nat)
    requires |k.iv| >= 16 && |z| < 16 && (|txt| + |z|) % 16 == 0 && forall j :: 0 <= j < |z| ==> z[j] == 0
    requires 16 * i + 16 <= |txt| + |z|
    ensures var c := EncodedText(k, txt);
            && |c| == |txt| + |z|
            && c[16 * i..16 * i + 16] ==
               k.enc(Xor(if i > 0 then c[16 * i - 16..16 * i]
                         else if |txt| <= 16 then k.iv[..16] else k.Hmac(txt[16..])[..16],
                         (txt + z)[16 * i..16 * i + 16]))
  {
    hide Xor, Codec.Hmac;
    PadIsZeros(txt, z);
    CbcBlock(k, TextIv(k, txt), txt + z, i);
  }

  lemma PadIsZeros(txt: bytes, z: bytes)
    requires |z| < 16 && (|txt| + |z|) % 16 == 0 && forall j :: 0 <= j < |z| ==> z[j] == 0
    ensures Pad(txt) == txt + z
  {
    RoundedUp(|txt|, |z|);
  }

  lemma RoundedUp(n: nat, z: nat)
    requires z < 16 && (n + z) % 16 == 0
    ensures RoundUp(n) == n + z
  {
  }
}
