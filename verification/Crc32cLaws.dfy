/** What makes the register of Crc32c that of CRC-32C: its polynomial, and a check value. */
module Crc32cLaws {
  import opened Bytes
  import opened Crc32c

  function Swap1(c: bv32): bv32 {
    ((c & 0x5555_5555) << 1) | ((c >> 1) & 0x5555_5555)
  }

  function Swap2(c: bv32): bv32 {
    ((c & 0x3333_3333) << 2) | ((c >> 2) & 0x3333_3333)
  }

  function Swap4(c: bv32): bv32 {
    ((c & 0x0f0f_0f0f) << 4) | ((c >> 4) & 0x0f0f_0f0f)
  }

  function Swap8(c: bv32): bv32 {
    ((c & 0x00ff_00ff) << 8) | ((c >> 8) & 0x00ff_00ff)
  }

  /** The bits in the opposite order. */
  function Reversed(c: bv32): bv32 {
    var d := Swap8(Swap4(Swap2(Swap1(c))));
    (d << 16) | (d >> 16)
  }

  function Left(c: bv32): bv32 {
    c << 1
  }

  function Right(c: bv32): bv32 {
    c >> 1
  }

  function Masked(c: bv32, mask: bv32): bv32 {
    c & mask
  }

  lemma ReversedSum(a: bv32, b: bv32)
    ensures Reversed(Plus(a, b)) == Plus(Reversed(a), Reversed(b))
  {
  }

  lemma ReversedByte0(c: bv32)
    ensures Reversed(Right(Masked(c, 0xff))) == Left(Reversed(Masked(c, 0xff)))
  {
  }

  lemma ReversedByte1(c: bv32)
    ensures Reversed(Right(Masked(c, 0xff00))) == Left(Reversed(Masked(c, 0xff00)))
  {
  }

  lemma ReversedByte2(c: bv32)
    ensures Reversed(Right(Masked(c, 0xff_0000))) == Left(Reversed(Masked(c, 0xff_0000)))
  {
  }

  lemma ReversedByte3(c: bv32)
    ensures Reversed(Right(Masked(c, 0xff00_0000))) == Left(Reversed(Masked(c, 0xff00_0000)))
  {
  }

  lemma FourBytes(c: bv32)
    ensures c == Plus(Plus(Masked(c, 0xff), Masked(c, 0xff00)), Plus(Masked(c, 0xff_0000), Masked(c, 0xff00_0000)))
  {
  }

  lemma MovedSum(a: bv32, b: bv32)
    ensures Right(Plus(a, b)) == Plus(Right(a), Right(b)) && Left(Plus(a, b)) == Plus(Left(a), Left(b))
  {
  }

  /** If moving a bit string right moves its reversal left, it does so for sums. */
  lemma MovesSum(a: bv32, b: bv32)
    requires Reversed(Right(a)) == Left(Reversed(a)) && Reversed(Right(b)) == Left(Reversed(b))
    ensures Reversed(Right(Plus(a, b))) == Left(Reversed(Plus(a, b)))
  {
    hide Reversed, Plus, Left, Right;
    MovedSum(a, b);
    ReversedSum(Right(a), Right(b));
    ReversedSum(a, b);
    MovedSum(Reversed(a), Reversed(b));
  }

  lemma MovesLeft(c: bv32)
    ensures Reversed(Right(c)) == Left(Reversed(c))
  {
    hide Reversed, Plus, Left, Right, Masked;
    FourBytes(c);
    ReversedByte0(c);
    ReversedByte1(c);
    ReversedByte2(c);
    ReversedByte3(c);
    MovesSum(Masked(c, 0xff), Masked(c, 0xff00));
    MovesSum(Masked(c, 0xff_0000), Masked(c, 0xff00_0000));
    MovesSum(Plus(Masked(c, 0xff), Masked(c, 0xff00)), Plus(Masked(c, 0xff_0000), Masked(c, 0xff00_0000)));
  }

  /** It is the reversal: sums stay sums, the lowest bit becomes the highest, and moving right becomes moving left. */
  lemma IsReversal(a: bv32, b: bv32)
    ensures Reversed(1) == 0x8000_0000 && Reversed(a >> 1) == Reversed(a) << 1
    ensures Reversed(a ^ b) == Reversed(a) ^ Reversed(b)
  {
    LowestBit();
    MovesLeftIs(a);
    ReversedSumIs(a, b);
  }

  lemma LowestBit()
    ensures Reversed(1) == 0x8000_0000
  {
  }

  lemma MovesLeftIs(a: bv32)
    ensures Reversed(a >> 1) == Reversed(a) << 1
  {
    hide Reversed;
    MovesLeft(a);
  }

  lemma ReversedSumIs(a: bv32, b: bv32)
    ensures Reversed(a ^ b) == Reversed(a) ^ Reversed(b)
  {
    hide Reversed;
    ReversedSum(a, b);
  }

  lemma ReversedLow(c: bv32)
    ensures c & 1 == 1 <==> Reversed(c) & 0x8000_0000 != 0
  {
  }

  lemma ReversedPolynomial()
    ensures Reversed(0x82f6_3b78) == 0x1edc_6f41
  {
  }

  lemma StepIs(c: bv32)
    ensures BitStep(c) == if c & 1 == 1 then Plus(Right(c), 0x82f6_3b78) else Right(c)
  {
  }

  /**
   * Seen with its bits reversed, a step of the register is a step of the division by the CRC-32C polynomial
   * x^32 + 0x1edc6f41: move left, and subtract the polynomial if a bit falls out.
   */
  lemma StepDivides(c: bv32)
    ensures Reversed(BitStep(c))
         == if Reversed(c) & 0x8000_0000 != 0 then (Reversed(c) << 1) ^ 0x1edc_6f41 else Reversed(c) << 1
  {
    hide Reversed, BitStep;
    StepIs(c);
    ReversedLow(c);
    MovesLeft(c);
    ReversedSum(Right(c), 0x82f6_3b78);
    ReversedPolynomial();
  }

  lemma CrcStep(c: Register, s: bytes, next: Register)
    requires s != [] && Shift(Plus(c, Of(s[0]))) == next
    ensures Crc(c, s) == Crc(next, s[1..])
  {
    hide Shift, Plus, Of;
  }

  /** The check value of CRC-32C: the digits 1 to 9, from a register of ones and with the result inverted. */
  lemma CheckValue()
    ensures Crc(0xffff_ffff, [49, 50, 51, 52, 53, 54, 55, 56, 57]) ^ 0xffff_ffff == 0xe306_9283
  {
    hide Crc;
    var digits: bytes := [49, 50, 51, 52, 53, 54, 55, 56, 57];
    Digit0();
    Digit1();
    Digit2();
    Digit3();
    Digit4();
    Digit5();
    Digit6();
    Digit7();
    Digit8();
    hide Shift, Plus, Of;
    CrcStep(0xffffffff, digits, 0x6f0a661c);
    CrcStep(0x6f0a661c, digits[1..], 0x8caa3b9f);
    CrcStep(0x8caa3b9f, digits[2..], 0xef84d04d);
    CrcStep(0xef84d04d, digits[3..], 0x09c50b11);
    CrcStep(0x09c50b11, digits[4..], 0xe72edcca);
    CrcStep(0xe72edcca, digits[5..], 0xbeca8e79);
    CrcStep(0xbeca8e79, digits[6..], 0xedbd6815);
    CrcStep(0xedbd6815, digits[7..], 0x9f787f65);
    CrcStep(0x9f787f65, digits[8..], 0x1cf96d7c);
    Drops(digits);
    NoMore(0x1cf96d7c);
  }

  lemma Drops(s: bytes)
    requires |s| == 9
    ensures s[9..] == []
    ensures s[1..][1..] == s[2..] && s[2..][1..] == s[3..] && s[3..][1..] == s[4..] && s[4..][1..] == s[5..]
    ensures s[5..][1..] == s[6..] && s[6..][1..] == s[7..] && s[7..][1..] == s[8..] && s[8..][1..] == s[9..]
  {
  }

  lemma NoMore(c: Register)
    ensures Crc(c, []) == c
  {
  }

  lemma Digit0()
    ensures Shift(Plus(0xffffffff, Of(49))) == 0x6f0a661c
  {
  }

  lemma Digit1()
    ensures Shift(Plus(0x6f0a661c, Of(50))) == 0x8caa3b9f
  {
  }

  lemma Digit2()
    ensures Shift(Plus(0x8caa3b9f, Of(51))) == 0xef84d04d
  {
  }

  lemma Digit3()
    ensures Shift(Plus(0xef84d04d, Of(52))) == 0x09c50b11
  {
  }

  lemma Digit4()
    ensures Shift(Plus(0x09c50b11, Of(53))) == 0xe72edcca
  {
  }

  lemma Digit5()
    ensures Shift(Plus(0xe72edcca, Of(54))) == 0xbeca8e79
  {
  }

  lemma Digit6()
    ensures Shift(Plus(0xbeca8e79, Of(55))) == 0xedbd6815
  {
  }

  lemma Digit7()
    ensures Shift(Plus(0xedbd6815, Of(56))) == 0x9f787f65
  {
  }

  lemma Digit8()
    ensures Shift(Plus(0x9f787f65, Of(57))) == 0x1cf96d7c
  {
  }
}
