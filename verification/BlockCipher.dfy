/** AES-256 as a permutation pair, HMAC-SHA512 over an abstract SHA-512, and the block helpers of pcrypto.c. */
module BlockCipher {
  import opened Bytes

  const BLOCK: nat := 16
  const SHA_BLOCK: nat := 128

  type Block = b: bytes | |b| == BLOCK witness seq(BLOCK, _ => 0)
  type Digest = d: bytes | |d| == 64 witness seq(64, _ => 0)

  /** A keyed codec: an AES encoder and decoder, the hash they are used with, and the IV half of the key. */
  datatype Codec = Codec(enc: Block -> Block, dec: Block -> Block, sha: bytes -> Digest, iv: bytes) {

    /** The only law of AES the proofs use: encryption and decryption undo each other. */
    ghost predicate Valid() {
      && (forall b: Block :: dec(enc(b)) == b)
      && (forall b: Block :: enc(dec(b)) == b)
    }

    /** psync_hmac_sha512: keys longer than a hash block are cut, not hashed. */
    function Hmac(msg: bytes): Digest {
      sha(KeyPad(iv, 0x5c) + sha(KeyPad(iv, 0x36) + msg))
    }
  }

  function KeyPad(key: bytes, pad: byte): (r: bytes)
    ensures |r| == SHA_BLOCK
  {
    seq(SHA_BLOCK, i requires 0 <= i < SHA_BLOCK => if i < |key| then key[i] ^ pad else pad)
  }
}
