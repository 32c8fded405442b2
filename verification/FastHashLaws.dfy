/** What the rounds and the end of the 256-bit hash keep of their input. */
module FastHashLaws {
  import opened Bytes
  import opened Crc32cLoops
  import opened FastHash

  lemma AddCancels(a: bv64, b: bv64, c: bv64)
    requires Add(b, a) == Add(c, a) || Add(a, b) == Add(a, c)
    ensures b == c
  {
    hide Add, Minus;
    AddUndone(a, b);
    AddUndone(a, c);
  }

  function Minus(a: bv64, b: bv64): bv64 {
    a - b
  }

  lemma AddUndone(a: bv64, b: bv64)
    ensures Minus(Add(b, a), a) == b && Add(a, b) == Add(b, a)
  {
  }

  lemma XorCancels(a: bv64, b: bv64, c: bv64)
    requires Xor64(b, a) == Xor64(c, a)
    ensures b == c
  {
  }

  /** The registers a, b, c and d in the middle of a round. */
  datatype Middle = Middle(a: bv64, b: bv64, c: bv64, d: bv64)

  function Half(s: State, w: seq<bv64>): Middle
    requires |w| == 8
  {
    var a, c := Add(s.a, w[0]), Add(s.c, w[2]);
    Middle(a, Xor64(Add(s.b, w[1]), Rotate(a, 21)), c, Xor64(Add(s.d, w[3]), Rotate(c, 17)))
  }

  lemma OtherHalf(hw: bool, s: State, w: seq<bv64>)
    requires |w| == 8
    ensures var r, m := Round(hw, s, w), Half(s, w);
            && r.a == Add(m.d, w[7]) && r.c == Add(m.b, w[5])
            && r.b == Xor64(Add(m.a, w[4]), Rotate(r.c, 13)) && r.d == Xor64(Add(m.c, w[6]), Rotate(r.a, 16))
  {
    hide Add, Xor64, Rotate, HashCrc;
  }

  /** The results of two rounds agree in the registers a, b, c and d. */
  ghost predicate SameResult(hw: bool, s: State, w: seq<bv64>, s2: State, w2: seq<bv64>)
    requires |w| == |w2| == 8
  {
    var r, r2 := Round(hw, s, w), Round(hw, s2, w2);
    r.a == r2.a && r.b == r2.b && r.c == r2.c && r.d == r2.d
  }

  lemma SameMiddle(hw: bool, s: State, w: seq<bv64>, s2: State, w2: seq<bv64>)
    requires |w| == |w2| == 8 && SameResult(hw, s, w, s2, w2)
    requires w[4] == w2[4] && w[5] == w2[5] && w[6] == w2[6] && w[7] == w2[7]
    ensures Half(s, w) == Half(s2, w2)
  {
    hide Add, Xor64, Rotate, Half, Round;
    OtherHalf(hw, s, w);
    OtherHalf(hw, s2, w2);
    var m, m2, r := Half(s, w), Half(s2, w2), Round(hw, s, w);
    AddCancels(w[7], m.d, m2.d);
    AddCancels(w[5], m.b, m2.b);
    XorCancels(Rotate(r.c, 13), Add(m.a, w[4]), Add(m2.a, w[4]));
    AddCancels(w[4], m.a, m2.a);
    XorCancels(Rotate(r.a, 16), Add(m.c, w[6]), Add(m2.c, w[6]));
    AddCancels(w[6], m.c, m2.c);
  }

  /** A round loses nothing of its registers a, b, c and d. */
  lemma RoundKeepsState(hw: bool, s: State, s2: State, w: seq<bv64>)
    requires |w| == 8 && SameResult(hw, s, w, s2, w)
    ensures s.a == s2.a && s.b == s2.b && s.c == s2.c && s.d == s2.d
  {
    hide Add, Xor64, Rotate, Round, SameResult;
    SameMiddle(hw, s, w, s2, w);
    var m := Half(s, w);
    AddCancels(w[0], s.a, s2.a);
    AddCancels(w[2], s.c, s2.c);
    XorCancels(Rotate(m.a, 21), Add(s.b, w[1]), Add(s2.b, w[1]));
    AddCancels(w[1], s.b, s2.b);
    XorCancels(Rotate(m.c, 17), Add(s.d, w[3]), Add(s2.d, w[3]));
    AddCancels(w[3], s.d, s2.d);
  }

  /** Two blocks that differ in their first halves only are told apart by a round, from any state. */
  lemma RoundKeepsFirstHalf(hw: bool, s: State, w: seq<bv64>, w2: seq<bv64>)
    requires |w| == |w2| == 8 && w[4..] == w2[4..] && SameResult(hw, s, w, s, w2)
    ensures w == w2
  {
    hide Add, Xor64, Rotate, Round, SameResult;
    LaterWords(w, w2);
    SameMiddle(hw, s, w, s, w2);
    var m := Half(s, w);
    AddCancels(s.a, w[0], w2[0]);
    AddCancels(s.c, w[2], w2[2]);
    XorCancels(Rotate(m.a, 21), Add(s.b, w[1]), Add(s.b, w2[1]));
    AddCancels(s.b, w[1], w2[1]);
    XorCancels(Rotate(m.c, 17), Add(s.d, w[3]), Add(s.d, w2[3]));
    AddCancels(s.d, w[3], w2[3]);
    EightWords(w, w2);
  }

  /** So are two blocks that differ in their second halves only. */
  lemma RoundKeepsSecondHalf(hw: bool, s: State, w: seq<bv64>, w2: seq<bv64>)
    requires |w| == |w2| == 8 && w[..4] == w2[..4] && SameResult(hw, s, w, s, w2)
    ensures w == w2
  {
    hide Add, Xor64, Rotate, Round;
    OtherHalf(hw, s, w);
    OtherHalf(hw, s, w2);
    EarlierWords(w, w2);
    var m, r := Half(s, w), Round(hw, s, w);
    AddCancels(m.d, w[7], w2[7]);
    AddCancels(m.b, w[5], w2[5]);
    XorCancels(Rotate(r.c, 13), Add(m.a, w[4]), Add(m.a, w2[4]));
    AddCancels(m.a, w[4], w2[4]);
    XorCancels(Rotate(r.a, 16), Add(m.c, w[6]), Add(m.c, w2[6]));
    AddCancels(m.c, w[6], w2[6]);
    EightWords(w, w2);
  }

  lemma LaterWords(w: seq<bv64>, w2: seq<bv64>)
    requires |w| == |w2| == 8 && w[4..] == w2[4..]
    ensures w[4] == w2[4] && w[5] == w2[5] && w[6] == w2[6] && w[7] == w2[7]
  {
    assert w[4..][0] == w2[4..][0] && w[4..][1] == w2[4..][1] && w[4..][2] == w2[4..][2] && w[4..][3] == w2[4..][3];
  }

  lemma EarlierWords(w: seq<bv64>, w2: seq<bv64>)
    requires |w| == |w2| == 8 && w[..4] == w2[..4]
    ensures w[0] == w2[0] && w[1] == w2[1] && w[2] == w2[2] && w[3] == w2[3]
  {
    assert w[..4][0] == w2[..4][0] && w[..4][1] == w2[..4][1] && w[..4][2] == w2[..4][2] && w[..4][3] == w2[..4][3];
  }

  lemma EightWords(w: seq<bv64>, w2: seq<bv64>)
    requires |w| == |w2| == 8
    requires w[0] == w2[0] && w[1] == w2[1] && w[2] == w2[2] && w[3] == w2[3]
    requires w[4] == w2[4] && w[5] == w2[5] && w[6] == w2[6] && w[7] == w2[7]
    ensures w == w2
  {
  }

  /** A digest has 32 bytes. */
  lemma FinishLength(s: State)
    ensures |Finish(s)| == 32
  {
    hide Add, Mul, Xor64, Rotate, ShiftMix, HashMul3;
  }

  lemma BytesCancel(a: bv64, b: bv64)
    requires Bytes64(a) == Bytes64(b)
    ensures a == b
  {
    Rejoined(a);
    Rejoined(b);
  }

  lemma Rejoined(a: bv64)
    ensures Load64(Bytes64(a)) == a
  {
  }

  /** States that differ in y alone have different digests. */
  lemma FinishKeepsY(s: State, y: bv64)
    requires Finish(s) == Finish(s.(y := y))
    ensures s.y == y
  {
    hide Add, Mul, Xor64, Rotate, ShiftMix, HashMul3, Bytes64;
    var s2 := s.(y := y);
    var d := Xor64(s.d, Rotate(s.a, 43));
    var a := Add(s.a, Rotate(s.b, 42));
    var b := Xor64(s.b, Rotate(s.c, 41));
    var c := Add(s.c, Rotate(d, 40));
    var a' := HashMul3(a, Add(s.x, b), MUL);
    var b1, b2 := HashMul3(b, Add(s.y, c), MUL), HashMul3(b, Add(y, c), MUL);
    var u, u2 := Add(Add(Add(a', b1), s.y), s.x), Add(Add(Add(a', b2), y), s.x);
    var m := Mul(ShiftMix(Mul(Add(a', s.x), K0)), K0);
    FirstWords(s, u, Add(m, b1));
    FirstWords(s2, u2, Add(m, b2));
    BytesCancel(u, u2);
    BytesCancel(Add(m, b1), Add(m, b2));
    AddCancels(m, b1, b2);
    AddCancels(s.x, Add(Add(a', b1), s.y), Add(Add(a', b1), y));
    AddCancels(Add(a', b1), s.y, y);
  }

  lemma FirstWords(s: State, u: bv64, v: bv64)
    requires var d := Xor64(s.d, Rotate(s.a, 43));
             var a := Add(s.a, Rotate(s.b, 42));
             var b := Xor64(s.b, Rotate(s.c, 41));
             var c := Add(s.c, Rotate(d, 40));
             var a := HashMul3(a, Add(s.x, b), MUL);
             var b := HashMul3(b, Add(s.y, c), MUL);
             u == Add(Add(Add(a, b), s.y), s.x) && v == Add(Mul(ShiftMix(Mul(Add(a, s.x), K0)), K0), b)
    ensures |Finish(s)| == 32 && Finish(s)[0..8] == Bytes64(u) && Finish(s)[8..16] == Bytes64(v)
  {
    hide Add, Mul, Xor64, Rotate, ShiftMix, HashMul3;
  }

  /** No byte of a block is ignored. */
  lemma WordsKeepBlock(block: bytes, block2: bytes)
    requires |block| == |block2| == 64 && Words(block) == Words(block2)
    ensures block == block2
  {
    hide Load64;
    var w, w2 := Words(block), Words(block2);
    assert w[0] == w2[0] && w[1] == w2[1] && w[2] == w2[2] && w[3] == w2[3];
    assert w[4] == w2[4] && w[5] == w2[5] && w[6] == w2[6] && w[7] == w2[7];
    LoadCancels(block[0..8], block2[0..8]);
    LoadCancels(block[8..16], block2[8..16]);
    LoadCancels(block[16..24], block2[16..24]);
    LoadCancels(block[24..32], block2[24..32]);
    LoadCancels(block[32..40], block2[32..40]);
    LoadCancels(block[40..48], block2[40..48]);
    LoadCancels(block[48..56], block2[48..56]);
    LoadCancels(block[56..64], block2[56..64]);
    InEight(block);
    InEight(block2);
  }

  lemma InEight(b: bytes)
    requires |b| == 64
    ensures b == b[0..8] + b[8..16] + b[16..24] + b[24..32] + b[32..40] + b[40..48] + b[48..56] + b[56..64]
  {
  }

  lemma LoadCancels(a: bytes, b: bytes)
    requires |a| == |b| == 8 && Load64(a) == Load64(b)
    ensures a == b
  {
    Stored(a);
    Stored(b);
  }

  lemma Stored(a: bytes)
    requires |a| == 8
    ensures Bytes64(Load64(a)) == a
  {
  }

  lemma TweakIs(w: seq<bv64>, len: bv64)
    requires |w| == 8
    ensures var t := Tweak(w, len);
            && t[0] == Add(w[0], Mul(len, K0)) && t[1] == Xor64(w[1], HashMul3(len, K0, MUL))
            && t[2] == Xor64(w[2], Mul(len, K1)) && IsMinus(t[3], w[3], Mul(len, K2))
            && t[4] == w[4] && t[5] == w[5] && t[6] == w[6] && t[7] == w[7]
  {
    hide Add, Xor64, Mul, HashMul3;
  }

  predicate IsMinus(d: bv64, b: bv64, a: bv64) {
    d == b - a
  }

  lemma MinusCancels(d: bv64, b: bv64, c: bv64, a: bv64)
    requires IsMinus(d, b, a) && IsMinus(d, c, a)
    ensures b == c
  {
    MinusUndone(b, a);
    MinusUndone(c, a);
  }

  lemma MinusUndone(b: bv64, a: bv64)
    ensures (b - a) + a == b
  {
  }

  /** Mixing in the length loses nothing of the block... */
  lemma TweakKeepsWords(w: seq<bv64>, w2: seq<bv64>, len: bv64)
    requires |w| == |w2| == 8 && Tweak(w, len) == Tweak(w2, len)
    ensures w == w2
  {
    hide Add, Xor64, Mul, HashMul3, IsMinus, Tweak;
    TweakIs(w, len);
    TweakIs(w2, len);
    AddCancels(Mul(len, K0), w[0], w2[0]);
    XorCancels(HashMul3(len, K0, MUL), w[1], w2[1]);
    XorCancels(Mul(len, K1), w[2], w2[2]);
    MinusCancels(Tweak(w, len)[3], w[3], w2[3], Mul(len, K2));
    EightWords(w, w2);
  }

  /** ...and tells lengths apart: the factor is odd. */
  lemma TweakKeepsLength(w: seq<bv64>, len: bv64, len2: bv64)
    requires |w| == 8 && Tweak(w, len) == Tweak(w, len2)
    ensures len == len2
  {
    hide Add, Xor64, Mul, HashMul3, IsMinus, Tweak, Undone, IsTimes;
    TweakIs(w, len);
    TweakIs(w, len2);
    AddCancels(w[0], Mul(len, K0), Mul(len2, K0));
    TimesK0(len);
    TimesK0(len2);
    MulUndone(len, Mul(len, K0));
    MulUndone(len2, Mul(len2, K0));
  }

  predicate IsTimes(p: bv64, a: bv64) {
    p == a * 0xc3a5_c85c_97cb_3127
  }

  lemma TimesK0(a: bv64)
    ensures IsTimes(Mul(a, K0), a)
  {
  }

  /** The inverse of the factor modulo 2^64. */
  function Undone(a: bv64): bv64 {
    a * 0x81bc_9c5a_a9c7_2e97
  }

  lemma Inverse(a: bv64)
    ensures (a * 0xc3a5_c85c_97cb_3127) * 0x81bc_9c5a_a9c7_2e97 == a
  {
  }

  lemma TimesUndone(a: bv64)
    ensures Undone(a * 0xc3a5_c85c_97cb_3127) == a
  {
    Inverse(a);
  }

  lemma MulUndone(a: bv64, p: bv64)
    requires IsTimes(p, a)
    ensures Undone(p) == a
  {
    hide Undone;
    TimesUndone(a);
  }
}
