/** The 256-bit streaming hash: blocks of 64 bytes, whose buffer keeps its own fill count in its last byte. */
module FastHash {
  import opened Bytes
  import opened Crc32c
  import opened Crc32cLoops
  import opened WordSizes

  const HASH_BLOCK: nat := 64
  const K0: bv64 := 0xc3a5c85c97cb3127
  const K1: bv64 := 0xb492b66fbe98f273
  const K2: bv64 := 0x9ae16a3b2f90404f
  const MUL: bv64 := 0x9ddfea08eb382d69

  datatype State = State(a: bv64, b: bv64, c: bv64, d: bv64, x: bv64, y: bv64)

  function Add(a: bv64, b: bv64): bv64 {
    a + b
  }

  function Mul(a: bv64, b: bv64): bv64 {
    a * b
  }

  /** fh_rotate64, for a shift that is not zero. */
  function Rotate(v: bv64, shift: bv7): bv64
    requires 0 < shift < 64
  {
    (v >> shift) | (v << (64 - shift))
  }

  function ShiftMix(v: bv64): bv64 {
    v ^ (v >> 47)
  }

  function HashMul3(u: bv64, v: bv64, mul: bv64): bv64 {
    Mul(ShiftMix(Mul(Xor64(ShiftMix(Mul(Xor64(u, v), mul)), v), mul)), mul)
  }

  /** Byte i of a 64-bit word, as an index into the CRC tables. */
  function Index(w: bv64, i: bv7): Register
    requires i < 8
  {
    ((w >> (8 * i)) & 0xff) as bv32
  }

  /** fh_crc32_64sw: CRC32C_64BIT_UINT on a register whose upper half may hold anything. */
  function CrcSoftware(crc: bv64, data: bv64): bv64 {
    var x := crc ^ (data & 0xffffffff);
    Wide(Plus(Plus(Plus(Plus(Plus(Plus(Plus(
      Table(7, Index(x, 0)), Table(6, Index(x, 1))), Table(5, Index(x, 2))), Table(4, Index(x, 3))),
      Table(3, Index(data, 4))), Table(2, Index(data, 5))), Table(1, Index(data, 6))), Table(0, Index(data, 7))))
  }

  /** fh_crc32_64hw. */
  function CrcHardware(crc: bv64, data: bv64): bv64 {
    Crc64Instruction(crc, Bytes64(data))
  }

  lemma LowWord(data: bv64)
    ensures Load32(Bytes64(data)[..4]) == Low(data)
  {
  }

  lemma LowSum(crc: bv64, data: bv64)
    ensures Low(crc ^ (data & 0xffffffff)) == Plus(Low(crc), Low(data))
  {
  }

  lemma IndexOfLow(x: bv64)
    ensures Index(x, 0) == ByteAt(Low(x), 0) && Index(x, 1) == ByteAt(Low(x), 1)
    ensures Index(x, 2) == ByteAt(Low(x), 2) && Index(x, 3) == ByteAt(Low(x), 3)
  {
  }

  lemma IndexOfHigh(data: bv64)
    ensures var d := Bytes64(data);
            Index(data, 4) == Of(d[4]) && Index(data, 5) == Of(d[5])
            && Index(data, 6) == Of(d[6]) && Index(data, 7) == Of(d[7])
  {
  }

  /** Software and hardware agree, whatever the upper half of the register holds. */
  lemma SoftwareIsHardware(crc: bv64, data: bv64)
    ensures CrcSoftware(crc, data) == CrcHardware(crc, data)
  {
    hide Table, Crc, Wide, Plus, Index, ByteAt, Of, Load32, Low, Bytes64;
    LowWord(data);
    LowSum(crc, data);
    IndexOfLow(crc ^ (data & 0xffffffff));
    IndexOfHigh(data);
    assert |Bytes64(data)| == 8;
    TableWordIsCrc(Low(crc), Bytes64(data));
  }

  function HashCrc(hw: bool, crc: bv64, data: bv64): bv64 {
    if hw then CrcHardware(crc, data) else CrcSoftware(crc, data)
  }

  /** The words of a block in memory. */
  function Words(block: bytes): (w: seq<bv64>)
    requires |block| == HASH_BLOCK
    ensures |w| == 8
  {
    [Load64(block[0..8]), Load64(block[8..16]), Load64(block[16..24]), Load64(block[24..32]),
     Load64(block[32..40]), Load64(block[40..48]), Load64(block[48..56]), Load64(block[56..64])]
  }

  /** ROUND_GEN, with the final rotations of the registers. */
  function Round(hw: bool, s: State, w: seq<bv64>): State
    requires |w| == 8
  {
    var a, b, c, d := Add(s.a, w[0]), Add(s.b, w[1]), Add(s.c, w[2]), Add(s.d, w[3]);
    var b := Xor64(b, Rotate(a, 21));
    var d := Xor64(d, Rotate(c, 17));
    var x, y := HashCrc(hw, s.x, Add(a, b)), HashCrc(hw, s.y, Add(c, d));
    var a, b, c, d := Add(a, w[4]), Add(b, w[5]), Add(c, w[6]), Add(d, w[7]);
    var a := Xor64(a, Rotate(b, 13));
    var c := Xor64(c, Rotate(d, 16));
    var x, y := HashCrc(hw, x, Add(a, b)), HashCrc(hw, y, Add(c, d));
    State(d, a, b, c, y, x)
  }

  lemma RoundsAgree(s: State, w: seq<bv64>)
    requires |w| == 8
    ensures Round(true, s, w) == Round(false, s, w)
  {
    hide Add, Xor64, Rotate, HashCrc;
    forall crc, data
      ensures HashCrc(true, crc, data) == HashCrc(false, crc, data)
    {
      HashCrcAgrees(crc, data);
    }
  }

  lemma HashCrcAgrees(crc: bv64, data: bv64)
    ensures HashCrc(true, crc, data) == HashCrc(false, crc, data)
  {
    SoftwareIsHardware(crc, data);
  }

  /** The state after all the whole blocks of a message, and the bytes that are left over. */
  function Absorb(hw: bool, s: State, msg: bytes): State
    decreases |msg|
  {
    if |msg| < HASH_BLOCK then s else Absorb(hw, Round(hw, s, Words(msg[..HASH_BLOCK])), msg[HASH_BLOCK..])
  }

  function Tail(msg: bytes): (t: bytes)
    ensures |t| == |msg| % HASH_BLOCK
  {
    msg[|msg| - |msg| % HASH_BLOCK..]
  }

  lemma {:induction false} AbsorbAgrees(s: State, msg: bytes)
    ensures Absorb(true, s, msg) == Absorb(false, s, msg)
    decreases |msg|
  {
    hide Round, Words;
    if |msg| < HASH_BLOCK {
    } else {
      var w := Words(msg[..HASH_BLOCK]);
      WordCount(msg[..HASH_BLOCK]);
      RoundsAgree(s, w);
      AbsorbAgrees(Round(true, s, w), msg[HASH_BLOCK..]);
    }
  }

  lemma WordCount(block: bytes)
    requires |block| == HASH_BLOCK
    ensures |Words(block)| == 8
  {
  }

  lemma TailOfRest(msg: bytes)
    requires |msg| >= HASH_BLOCK
    ensures Tail(msg[HASH_BLOCK..]) == Tail(msg)
  {
  }

  lemma {:induction false} TailMore(msg: bytes, more: bytes)
    ensures Tail(msg + more) == Tail(Tail(msg) + more)
    decreases |msg|
  {
    if |msg| < HASH_BLOCK {
      assert Tail(msg) == msg;
    } else {
      TailMore(msg[HASH_BLOCK..], more);
      TailOfRest(msg);
      TailOfRest(msg + more);
      assert (msg + more)[HASH_BLOCK..] == msg[HASH_BLOCK..] + more;
    }
  }

  /** A message that grows: only what was left over meets the new bytes. */
  lemma {:induction false} AbsorbMore(hw: bool, s: State, msg: bytes, more: bytes)
    ensures Absorb(hw, s, msg + more) == Absorb(hw, Absorb(hw, s, msg), Tail(msg) + more)
    decreases |msg|
  {
    hide Round, Words;
    if |msg| < HASH_BLOCK {
      assert Tail(msg) == msg;
    } else {
      hide Tail;
      assert (msg + more)[..HASH_BLOCK] == msg[..HASH_BLOCK];
      assert (msg + more)[HASH_BLOCK..] == msg[HASH_BLOCK..] + more;
      AbsorbMore(hw, Round(hw, s, Words(msg[..HASH_BLOCK])), msg[HASH_BLOCK..], more);
      TailOfRest(msg);
    }
  }

  /** Memory that holds the entries of a table row, from entry 2 on. */
  function TableBytes(row: nat, n: nat): (r: bytes)
    ensures |r| == n
  {
    seq(n, i requires 0 <= i < n => EntryByte(row, i))
  }

  function EntryByte(row: nat, i: nat): byte {
    (ByteAt(Table(row, ((2 + i / 4) % 256) as bv32), i % 4) & 0xff) as byte
  }

  /** A 64-bit counter. */
  function Wrap(n: nat): nat {
    n % TWO_TO_64
  }

  lemma WrapTwice(n: nat, k: nat)
    ensures Wrap(Wrap(n) + k) == Wrap(n + k)
  {
  }

  function Word64(n: nat): bv64 {
    (n % TWO_TO_64) as bv64
  }

  lemma Word64Wraps(n: nat)
    ensures Word64(Wrap(n)) == Word64(n)
  {
  }

  /** The message length is mixed into the first four words of the padded block. */
  function Tweak(w: seq<bv64>, len: bv64): (r: seq<bv64>)
    requires |w| == 8
    ensures |r| == 8
  {
    [Add(w[0], Mul(len, K0)), Xor64(w[1], HashMul3(len, K0, MUL)), Xor64(w[2], Mul(len, K1)), w[3] - Mul(len, K2)] + w[4..]
  }

  function Finish(s: State): bytes {
    var d := Xor64(s.d, Rotate(s.a, 43));
    var a := Add(s.a, Rotate(s.b, 42));
    var b := Xor64(s.b, Rotate(s.c, 41));
    var c := Add(s.c, Rotate(d, 40));
    var a := HashMul3(a, Add(s.x, b), MUL);
    var b := HashMul3(b, Add(s.y, c), MUL);
    var c := HashMul3(c, Add(s.x, d), MUL);
    var d := HashMul3(d, Add(s.y, a), MUL);
    Bytes64(Add(Add(Add(a, b), s.y), s.x))
    + Bytes64(Add(Mul(ShiftMix(Mul(Add(a, s.x), K0)), K0), b))
    + Bytes64(Add(Mul(ShiftMix(Mul(Xor64(c, s.y), K1)), K1), d))
    + Bytes64(Add(Mul(ShiftMix(Mul(s.x - s.y, K2)), K2), Xor64(c, d)))
  }

  /** The digest of a message hashed in one piece. */
  function Digest(start: State, msg: bytes): bytes {
    var block := Tail(msg) + TableBytes(1, HASH_BLOCK - |msg| % HASH_BLOCK);
    Finish(Round(false, Absorb(false, start, msg), Tweak(Words(block), Word64(|msg|))))
  }

  function LastRound(hw: bool, s: State, block: bytes, length: nat): bytes
    requires |block| == HASH_BLOCK
  {
    Finish(Round(hw, s, Tweak(Words(block), Word64(length))))
  }

  lemma LastRoundIsDigest(start: State, msg: bytes, block: bytes, hw: bool)
    requires block == Tail(msg) + TableBytes(1, HASH_BLOCK - |msg| % HASH_BLOCK)
    ensures LastRound(hw, Absorb(false, start, msg), block, Wrap(|msg|)) == Digest(start, msg)
  {
    hide Absorb, Round, Words, Finish, Tweak, Word64;
    BlockWords(block, Word64(|msg|));
    RoundsAgree(Absorb(false, start, msg), Tweak(Words(block), Word64(|msg|)));
    Word64Wraps(|msg|);
  }

  lemma ByteCount(n: nat)
    requires n < 64
    ensures (n as byte) as nat == n
  {
  }

  class Context {
    var state: State
    var length: nat
    const buff: array<byte>
    ghost const start: State
    ghost var msg: bytes

    ghost predicate Valid()
      reads this, buff
    {
      && buff.Length == HASH_BLOCK
      && buff[HASH_BLOCK - 1] as nat == |msg| % HASH_BLOCK
      && buff[..|msg| % HASH_BLOCK] == Tail(msg)
      && state == Absorb(false, start, msg)
      && length == Wrap(|msg|)
    }

    /** pcrc32c_fast_hash256_update. */
    method Update(data: bytes, hw: bool)
      requires Valid()
      modifies this, buff
      ensures Valid() && msg == old(msg) + data
    {
      hide Absorb, Tail, Wrap;
      WrapTwice(|msg|, |data|);
      length := Wrap(length + |data|);
      var fill := buff[HASH_BLOCK - 1] as nat;
      if |data| + fill < HASH_BLOCK {
        UpdateShort(data, fill);
      } else {
        UpdateLong(data, fill, hw);
      }
    }

    method UpdateShort(data: bytes, fill: nat)
      requires buff.Length == HASH_BLOCK && fill + |data| < HASH_BLOCK && fill == |msg| % HASH_BLOCK
      requires buff[..fill] == Tail(msg) && state == Absorb(false, start, msg)
      modifies this`msg, buff
      ensures msg == old(msg) + data
      ensures buff[HASH_BLOCK - 1] as nat == |msg| % HASH_BLOCK && buff[..|msg| % HASH_BLOCK] == Tail(msg)
      ensures state == Absorb(false, start, msg)
    {
      hide Absorb, Tail;
      AbsorbMore(false, start, msg, data);
      AbsorbNothing(state, Tail(msg) + data);
      TailMore(msg, data);
      TailSize(msg);
      TailSize(msg + data);
      msg := msg + data;
      ByteCount(fill + |data|);
      buff[HASH_BLOCK - 1] := (fill + |data|) as byte;
      Store(buff, fill, data);
      assert buff[..fill + |data|] == old(buff[..fill]) + data;
    }

    /** psync_fast_hash256_update_long_hw and _sw: the first block is completed in the buffer, the rest is read in place. */
    method UpdateLong(data: bytes, fill: nat, hw: bool)
      requires buff.Length == HASH_BLOCK && fill + |data| >= HASH_BLOCK && fill == |msg| % HASH_BLOCK
      requires buff[..fill] == Tail(msg) && state == Absorb(false, start, msg)
      modifies this`msg, this`state, buff
      ensures msg == old(msg) + data
      ensures buff[HASH_BLOCK - 1] as nat == |msg| % HASH_BLOCK && buff[..|msg| % HASH_BLOCK] == Tail(msg)
      ensures state == Absorb(false, start, msg)
    {
      hide Absorb, Tail, Round, Words;
      ghost var whole := msg + data;
      ghost var joined := Tail(msg) + data;
      AbsorbMore(false, start, msg, data);
      TailMore(msg, data);
      TailSize(msg);
      ghost var target, rest := Absorb(false, state, joined), Tail(joined);
      var s, pos := state, 0;
      if fill != 0 {
        pos := HASH_BLOCK - fill;
        Store(buff, fill, data[..pos]);
        assert buff[..] == joined[..HASH_BLOCK];
        assert joined[HASH_BLOCK..] == data[pos..];
        AbsorbBlock(hw, s, joined);
        s := Round(hw, s, Words(buff[..]));
      } else {
        assert joined == data[pos..];
      }
      s, pos := AbsorbBlocks(s, data, pos, hw);
      AbsorbNothing(s, data[pos..]);
      TailSize(whole);
      state := s;
      msg := whole;
      KeepTail(data[pos..]);
    }

    /** The loop over whole blocks, read in place. */
    static method AbsorbBlocks(from: State, data: bytes, first: nat, hw: bool) returns (s: State, pos: nat)
      requires first <= |data|
      ensures first <= pos <= |data| < pos + HASH_BLOCK
      ensures Absorb(false, s, data[pos..]) == Absorb(false, from, data[first..])
      ensures Tail(data[pos..]) == Tail(data[first..])
    {
      hide Absorb, Tail, Round, Words;
      s, pos := from, first;
      while |data| - pos >= HASH_BLOCK
        invariant first <= pos <= |data|
        invariant Absorb(false, s, data[pos..]) == Absorb(false, from, data[first..])
        invariant Tail(data[pos..]) == Tail(data[first..])
      {
        AbsorbBlock(hw, s, data[pos..]);
        assert data[pos..][..HASH_BLOCK] == data[pos..pos + HASH_BLOCK];
        assert data[pos..][HASH_BLOCK..] == data[pos + HASH_BLOCK..];
        s := Round(hw, s, Words(data[pos..pos + HASH_BLOCK]));
        pos := pos + HASH_BLOCK;
      }
    }

    /** What is left over goes to the front of the buffer, and its length into the last byte. */
    method KeepTail(v: bytes)
      requires buff.Length == HASH_BLOCK && |v| < HASH_BLOCK
      modifies buff
      ensures buff[..|v|] == v && buff[HASH_BLOCK - 1] as nat == |v|
    {
      Store(buff, 0, v);
      ByteCount(|v|);
      buff[HASH_BLOCK - 1] := |v| as byte;
    }

    method FillUp(len: nat, padding: bytes)
      requires len + |padding| == buff.Length
      modifies buff
      ensures buff[..] == old(buff[..len]) + padding
    {
      Store(buff, len, padding);
      assert buff[..len] == old(buff[..len]);
    }

    /** pcrc32c_fast_hash256_final: the padding overwrites the fill count. */
    method Final(hw: bool) returns (hash: bytes)
      requires Valid()
      modifies buff
      ensures hash == Digest(start, msg)
    {
      hide Absorb, Tail, Round, Words, Tweak, TableBytes, LastRound, Digest, Wrap;
      var len := FillCount();
      FillUp(len, TableBytes(1, HASH_BLOCK - len));
      LastRoundIsDigest(start, msg, buff[..], hw);
      hash := LastRound(hw, state, buff[..], length);
    }

    method FillCount() returns (len: nat)
      requires Valid()
      ensures len == |Tail(msg)| < HASH_BLOCK && buff[..len] == Tail(msg)
      ensures |TableBytes(1, HASH_BLOCK - len)| == HASH_BLOCK - len
    {
      hide Absorb, Tail, TableBytes, Wrap;
      TailSize(msg);
      len := buff[HASH_BLOCK - 1] as nat;
      PadSize(HASH_BLOCK - len);
    }

    /** pcrc32c_fast_hash256_seed; with an empty seed, pcrc32c_fast_hash256_init. */
    constructor (seed: bytes)
      ensures Valid() && fresh(buff)
      ensures msg == [] && start == SeedState(seed)
    {
      hide Absorb, Tail, SeedState;
      AbsorbNothing(SeedState(seed), []);
      state, start := SeedState(seed), SeedState(seed);
      length, msg := 0, [];
      buff := new byte[HASH_BLOCK];
      new;
      buff[HASH_BLOCK - 1] := 0;
    }
  }

  /** The initial state is read from the first table row, and its first bytes are combined with the seed. */
  function SeedState(seed: bytes): State {
    var init := TableBytes(0, 48);
    var n := if |seed| > 48 then 48 else |seed|;
    var m := Xor(init[..n], seed) + init[n..];
    State(Load64(m[0..8]), Load64(m[8..16]), Load64(m[16..24]), Load64(m[24..32]), Load64(m[32..40]), Load64(m[40..48]))
  }

  /** Cutting a message into pieces, and choosing the round function for each, changes nothing about its digest. */
  method HashPieces(seed: bytes, pieces: seq<bytes>, hw: seq<bool>) returns (hash: bytes)
    requires |hw| == |pieces| + 1
    ensures hash == Digest(SeedState(seed), Concat(pieces))
  {
    hide Digest, SeedState;
    var ctx := new Context(seed);
    for i := 0 to |pieces|
      invariant fresh(ctx) && fresh(ctx.buff) && ctx.Valid() && ctx.start == SeedState(seed)
      invariant ctx.msg == Concat(pieces[..i])
    {
      ConcatMore(pieces, i);
      ctx.Update(pieces[i], hw[i]);
    }
    assert pieces[..|pieces|] == pieces;
    hash := ctx.Final(hw[|pieces|]);
  }

  function Concat(pieces: seq<bytes>): bytes {
    if pieces == [] then [] else Concat(pieces[..|pieces| - 1]) + pieces[|pieces| - 1]
  }

  lemma ConcatMore(pieces: seq<bytes>, i: nat)
    requires i < |pieces|
    ensures Concat(pieces[..i + 1]) == Concat(pieces[..i]) + pieces[i]
  {
    assert pieces[..i + 1][..i] == pieces[..i];
  }

  lemma AbsorbBlock(hw: bool, s: State, msg: bytes)
    requires |msg| >= HASH_BLOCK
    ensures |Words(msg[..HASH_BLOCK])| == 8
    ensures Absorb(false, s, msg) == Absorb(false, Round(hw, s, Words(msg[..HASH_BLOCK])), msg[HASH_BLOCK..])
    ensures Tail(msg) == Tail(msg[HASH_BLOCK..])
  {
    hide Round;
    RoundsAgree(s, Words(msg[..HASH_BLOCK]));
    TailOfRest(msg);
  }

  lemma BlockWords(block: bytes, len: bv64)
    requires |block| == HASH_BLOCK
    ensures |Words(block)| == 8 && |Tweak(Words(block), len)| == 8
  {
  }

  lemma PadSize(n: nat)
    ensures |TableBytes(1, n)| == n
  {
  }

  lemma AbsorbNothing(s: State, msg: bytes)
    requires |msg| < HASH_BLOCK
    ensures Absorb(false, s, msg) == s && Tail(msg) == msg
  {
  }

  lemma TailSize(msg: bytes)
    ensures |Tail(msg)| == |msg| % HASH_BLOCK
  {
  }
}
