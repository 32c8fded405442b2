/** The key material of the crypto folder: the protected private key, the key files, and the keys of folders and files. */
module KeyFiles {
  import opened Bytes
  import opened BlockCipher
  import opened CtrCodec
  import opened TextCodec
  import opened Options

  const KEY_SIZE: nat := 32
  const SALT_SIZE: nat := 64
  const ITERATIONS: nat := 20000
  const HMAC_KEY_SIZE: nat := 128
  const PUB_HEADER: nat := 8
  const PRIV_HEADER: nat := 72

  /** A key made from a passphrase: an AES key and an IV. */
  type Derived = d: bytes | |d| == KEY_SIZE + BLOCK witness seq(KEY_SIZE + BLOCK, _ => 0)

  /** AES under a key, SHA-512, and PBKDF2 of passphrase, salt and iterations. */
  datatype Primitives = Primitives(
    encrypt: (bytes, Block) -> Block, decrypt: (bytes, Block) -> Block, sha: bytes -> Digest,
    derive: (bytes, bytes, nat) -> Derived)
  {
    ghost predicate Valid() {
      && (forall key: bytes, b: Block :: decrypt(key, encrypt(key, b)) == b)
      && (forall key: bytes, b: Block :: encrypt(key, decrypt(key, b)) == b)
    }

    /** The constructors of the codecs: the first 32 bytes of a key are for AES, the others are the IV or HMAC key. */
    function CodecOf(key: bytes): (k: Codec)
      requires |key| >= KEY_SIZE + BLOCK
      ensures k.iv == key[KEY_SIZE..] && |k.iv| >= BLOCK
      ensures Valid() ==> k.Valid()
    {
      Codec((b: Block) => encrypt(key[..KEY_SIZE], b), (b: Block) => decrypt(key[..KEY_SIZE], b), sha, key[KEY_SIZE..])
    }

    function PassphraseCodec(passphrase: bytes, salt: bytes, iterations: nat): (k: Codec)
      ensures |k.iv| >= BLOCK
    {
      CodecOf(derive(passphrase, salt, iterations))
    }

    /** A private key under a passphrase: the same function protects and recovers it. */
    function Masked(passphrase: bytes, salt: bytes, iterations: nat, key: bytes): (r: bytes)
      ensures |r| == |key|
    {
      Ctr(PassphraseCodec(passphrase, salt, iterations), key, 0)
    }
  }

  lemma MaskedTwice(w: Primitives, passphrase: bytes, salt: bytes, iterations: nat, key: bytes)
    ensures w.Masked(passphrase, salt, iterations, w.Masked(passphrase, salt, iterations, key)) == key
  {
    CtrTwice(w.PassphraseCodec(passphrase, salt, iterations), key, 0);
  }

  /** The key that masks is the first part of what the passphrase derives to, and the second part is the IV. */
  lemma MaskedZeros(w: Primitives, passphrase: bytes, salt: bytes, iterations: nat, zeros: bytes)
    requires w.Valid() && |zeros| == 16 && forall i :: 0 <= i < 16 ==> zeros[i] == 0
    ensures var d := w.derive(passphrase, salt, iterations);
            var m := w.Masked(passphrase, salt, iterations, zeros);
            |m| == 16 && w.decrypt(d[..32], m) == d[32..48]
  {
    hide Ctr;
    var k := w.PassphraseCodec(passphrase, salt, iterations);
    CounterBlock(k, zeros, 0);
    forall i | 0 <= i < 8
      ensures k.iv[i] ^ 0 == k.iv[i]
    {
      ByteXorZero(k.iv[i]);
    }
    assert Ctr(k, zeros, 16 * 0) == Ctr(k, zeros, 0);
  }

  lemma ByteXorZero(b: byte)
    ensures b ^ 0 == b
  {
  }

  /** priv_key_ver1 and pub_key_ver1 with type 0; the flags are four bytes that nothing here looks into. */
  function PrivFile(flags: bytes, salt: bytes, key: bytes): bytes {
    Zeros(4) + flags + salt + key
  }

  function PubFile(flags: bytes, key: bytes): bytes {
    Zeros(4) + flags + key
  }

  /** Is this a private key file of the one known type, with a key in it? */
  predicate IsPrivFile(file: bytes) {
    |file| > PRIV_HEADER && file[..4] == Zeros(4)
  }

  predicate IsPubFile(file: bytes) {
    |file| > PUB_HEADER && file[..4] == Zeros(4)
  }

  /** A key file starts with four zero bytes. */
  lemma FileTypes(file: bytes)
    ensures IsPrivFile(file) <==> |file| > 72 && file[..4] == [0, 0, 0, 0]
    ensures IsPubFile(file) <==> |file| > 8 && file[..4] == [0, 0, 0, 0]
  {
    assert Zeros(4) == [0, 0, 0, 0];
  }

  function FileSalt(file: bytes): bytes
    requires IsPrivFile(file)
  {
    file[8..PRIV_HEADER]
  }

  function FileKey(file: bytes): bytes
    requires IsPrivFile(file)
  {
    file[PRIV_HEADER..]
  }

  /** The private key that a passphrase gets out of a file. */
  function Recovered(w: Primitives, passphrase: bytes, file: bytes): bytes
    requires IsPrivFile(file)
  {
    w.Masked(passphrase, FileSalt(file), ITERATIONS, FileKey(file))
  }

  lemma ReadPrivFile(flags: bytes, salt: bytes, key: bytes)
    requires |flags| == 4 && |salt| == SALT_SIZE && key != []
    ensures var f := PrivFile(flags, salt, key); IsPrivFile(f) && FileSalt(f) == salt && FileKey(f) == key
  {
  }

  /** Masks a copy of the key bytes in place, as setup, unlock and re-encoding all do. */
  method Mask(w: Primitives, passphrase: bytes, salt: bytes, iterations: nat, key: array<byte>, addr: nat)
    modifies key
    ensures key[..] == w.Masked(passphrase, salt, iterations, old(key[..]))
  {
    hide Ctr;
    var enc := w.PassphraseCodec(passphrase, salt, iterations);
    assert key[..key.Length] == key[..];
    Decode(enc, key, key.Length, 0, addr);
    assert key[..key.Length] == key[..];
  }

  method Copied(key: bytes) returns (a: array<byte>)
    ensures fresh(a) && a[..] == key
  {
    a := new byte[|key|];
    Store(a, 0, key);
  }

  type Rsa = nat

  datatype Reencoding = BadKey | BadPassphrase | Reencoded(file: bytes)

  /**
   * psync_pcloud_crypto_reencode_key, where `loadedMatch` is what crypto_keys_match says: it takes no arguments and
   * tests the keys that are loaded, not those of the files. A success recovers, under the new passphrase and the new salt, the private key
   * bytes that the old file holds under the old passphrase; the old passphrase is wrong if those bytes are no key.
   */
  method Reencode(w: Primitives, loadPublic: bytes -> Option<Rsa>, loadPrivate: bytes -> Option<Rsa>,
                  loadedMatch: bool, rsapub: bytes, rsapriv: bytes, oldpass: bytes, newpass: bytes,
                  flags: bytes, newsalt: bytes)
    returns (r: Reencoding)
    requires |flags| == 4 && |newsalt| == SALT_SIZE
    ensures r == BadKey <==> !IsPubFile(rsapub) || loadPublic(rsapub[PUB_HEADER..]).None? || !IsPrivFile(rsapriv)
    ensures r.Reencoded? ==>
              && IsPrivFile(r.file) && FileSalt(r.file) == newsalt && r.file[4..8] == flags
              && Recovered(w, newpass, r.file) == Recovered(w, oldpass, rsapriv)
              && loadPrivate(Recovered(w, oldpass, rsapriv)).Some?
    ensures r == BadPassphrase <==>
              r != BadKey && (loadPrivate(Recovered(w, oldpass, rsapriv)).None? || !loadedMatch)
  {
    hide Primitives.Masked;
    if |rsapub| <= 4 || |rsapriv| <= 4 {
      return BadKey;
    }
    if rsapub[..4] != Zeros(4) || PUB_HEADER >= |rsapub| {
      return BadKey;
    }
    var pub := loadPublic(rsapub[PUB_HEADER..]);
    if pub.None? {
      return BadKey;
    }
    if rsapriv[..4] != Zeros(4) || PRIV_HEADER >= |rsapriv| {
      return BadKey;
    }
    var rsaprivdec := Copied(rsapriv[PRIV_HEADER..]);
    Mask(w, oldpass, rsapriv[8..PRIV_HEADER], ITERATIONS, rsaprivdec, 0);
    var key := Copied(rsaprivdec[..]);
    Mask(w, newpass, newsalt, ITERATIONS, key, 0);
    var priv := loadPrivate(rsaprivdec[..]);
    if priv.None? {
      return BadPassphrase;
    }
    if !loadedMatch {
      return BadPassphrase;
    }
    MaskedTwice(w, newpass, newsalt, ITERATIONS, rsaprivdec[..]);
    ReadPrivFile(flags, newsalt, key[..]);
    r := Reencoded(PrivFile(flags, newsalt, key[..]));
  }

  /** sym_key_ver1: type, flags, the AES key and the HMAC key. */
  const SYM_KEY_SIZE: nat := 8 + KEY_SIZE + HMAC_KEY_SIZE

  /** symkeyv1_to_symkey: the two keys end up side by side, so the codecs split them where they were joined. */
  method SymkeyOf(v1: bytes) returns (key: array<byte>)
    requires |v1| == SYM_KEY_SIZE
    ensures fresh(key) && key.Length == KEY_SIZE + HMAC_KEY_SIZE
    ensures key[..KEY_SIZE] == v1[8..8 + KEY_SIZE] && key[KEY_SIZE..] == v1[8 + KEY_SIZE..]
    ensures key[..] == v1[8..]
  {
    key := new byte[KEY_SIZE + HMAC_KEY_SIZE];
    Store(key, 0, v1[8..8 + KEY_SIZE]);
    Store(key, KEY_SIZE, v1[8 + KEY_SIZE..]);
  }

  /** What both the name encoder and the name decoder of a folder are built from. */
  function FolderCodec(w: Primitives, v1: bytes): (k: Codec)
    requires |v1| == SYM_KEY_SIZE
    ensures |k.iv| >= BLOCK && (w.Valid() ==> k.Valid())
  {
    w.CodecOf(v1[8..])
  }

  /** Bytes 8 to 40 of a folder key are for AES, the 128 bytes behind them for the HMAC. */
  lemma FolderCodecIs(w: Primitives, v1: bytes, b: Block)
    requires |v1| == 168
    ensures var k := FolderCodec(w, v1);
            k.enc(b) == w.encrypt(v1[8..40], b) && k.dec(b) == w.decrypt(v1[8..40], b) && k.iv == v1[40..] && k.sha == w.sha
  {
    assert v1[8..][..32] == v1[8..40] && v1[8..][32..] == v1[40..];
  }

  /** base32, of which only this is used: decoding undoes encoding. */
  datatype Base32 = Base32(encode: bytes -> bytes, decode: bytes -> Option<bytes>) {
    ghost predicate Valid() {
      forall b: bytes :: decode(encode(b)) == Some(b)
    }
  }

  ghost function NameOf(b32: Base32, k: Codec, name: bytes): Option<bytes>
    requires |k.iv| >= BLOCK
  {
    match b32.decode(name)
    case None => None
    case Some(enc) => DecodedText(k, enc)
  }

  /** pcryptofolder_fldencode_filename */
  method FldEncodeFilename(b32: Base32, k: Codec, name: bytes) returns (r: bytes)
    requires |k.iv| >= BLOCK && name != []
    ensures r == b32.encode(EncodedText(k, name))
  {
    var filenameenc := EncodeText(k, name);
    r := b32.encode(filenameenc[..]);
  }

  /** pcryptofolder_flddecode_filename */
  method FldDecodeFilename(b32: Base32, k: Codec, name: bytes) returns (ret: array?<byte>)
    requires |k.iv| >= BLOCK
    ensures ret == null <==> NameOf(b32, k, name) == None
    ensures ret != null ==> fresh(ret) && ret[..] == NameOf(b32, k, name).value + [0]
  {
    hide DecodedText;
    var filenameenc := b32.decode(name);
    if filenameenc.None? {
      return null;
    }
    ret := DecodeText(k, filenameenc.value);
  }

  /** A name comes back from the server as it went, through a decoder built from the same folder key as the encoder. */
  lemma FilenameRoundTrip(w: Primitives, b32: Base32, v1: bytes, name: bytes)
    requires w.Valid() && b32.Valid() && |v1| == SYM_KEY_SIZE && name != []
    ensures var k := FolderCodec(w, v1);
            && |EncodedText(k, name)| == RoundUp(|name|)
            && var r := NameOf(b32, k, b32.encode(EncodedText(k, name)));
               (r.Some? && CString(r.value) == name <==> 0 !in name)
  {
    hide DecodedText, EncodedText, Primitives.Valid;
    var k := FolderCodec(w, v1);
    DecodeEncodedText(k, name);
  }
}
