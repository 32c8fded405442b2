/** CRC-32C as bit-serial division (section 12.1 of RFC 3720, raw register), its tables, and why registers combine. */
module Crc32c {
  import opened Bytes

  const CHUNK: nat := 1360

  /** The CRC register: a vector of 32 bits that is added to and shifted. */
  type Register = bv32

  const ZERO: Register := 0

  function Plus(a: Register, b: Register): Register {
    a ^ b
  }

  function Of(b: byte): Register {
    b as bv32
  }

  /** Byte i of the register, moved to the low end; `Up` moves one byte to the left. */
  function ByteAt(c: Register, i: nat): Register
    requires i < 4
  {
    (if i == 0 then c else if i == 1 then c >> 8 else if i == 2 then c >> 16 else c >> 24) & 0xff
  }

  function Up(c: Register): Register {
    c << 8
  }

  function Down(c: Register): Register {
    c >> 8
  }

  /** One bit of the reflected polynomial division. */
  function BitStep(c: Register): Register {
    if c & 1 == 1 then (c >> 1) ^ 0x82f63b78 else c >> 1
  }

  /** The register after eight zero bits. */
  function Shift(c: Register): Register {
    BitStep(BitStep(BitStep(BitStep(BitStep(BitStep(BitStep(BitStep(c))))))))
  }

  /** The register after n zero bytes. */
  function Shifts(n: nat, c: Register): Register {
    if n == 0 then c else Shifts(n - 1, Shift(c))
  }

  /** The specification: one byte at a time, one bit at a time. */
  function Crc(c: Register, s: bytes): Register
    decreases |s|
  {
    if s == [] then c else Crc(Shift(Plus(c, Of(s[0]))), s[1..])
  }

  /** crc32c_table, by the recurrence that defines its rows. */
  function Table(row: nat, i: Register): Register {
    if row == 0 then Shift(i) else
      Plus(Table(0, ByteAt(Table(row - 1, i), 0)), Down(Table(row - 1, i)))
  }

  /** crc32c_shift_chunk_table1360: a byte of the register, moved past a chunk of zeros. */
  function ChunkTable(row: nat, i: Register): Register {
    Shifts(CHUNK, Ups(row, i))
  }

  function Ups(n: nat, c: Register): Register {
    if n == 0 then c else Up(Ups(n - 1, c))
  }

  /** CRC32C_8BIT. */
  function TableByte(crc: Register, b: byte): Register {
    Plus(Table(0, ByteAt(Plus(crc, Of(b)), 0)), Down(crc))
  }

  /** A 32-bit word read from memory. */
  function Load32(b: bytes): Register
    requires |b| == 4
  {
    b[0] as bv32 | (b[1] as bv32 << 8) | (b[2] as bv32 << 16) | (b[3] as bv32 << 24)
  }

  /** CRC32C_64BIT: slicing by eight. */
  function TableWord(crc: Register, d: bytes): Register
    requires |d| == 8
  {
    var x := Plus(crc, Load32(d[..4]));
    Plus(Plus(Plus(Plus(Plus(Plus(Plus(
      Table(7, ByteAt(x, 0)), Table(6, ByteAt(x, 1))), Table(5, ByteAt(x, 2))), Table(4, ByteAt(x, 3))),
      Table(3, Of(d[4]))), Table(2, Of(d[5]))), Table(1, Of(d[6]))), Table(0, Of(d[7])))
  }

  /** crc32c_shift_chunk. */
  function ShiftChunk(crc: Register): Register {
    Plus(Plus(Plus(
      ChunkTable(0, ByteAt(crc, 0)), ChunkTable(1, ByteAt(crc, 1))),
      ChunkTable(2, ByteAt(crc, 2))), ChunkTable(3, ByteAt(crc, 3)))
  }

  // The bits of the register.

  lemma PlusAssoc(a: Register, b: Register, c: Register)
    ensures Plus(Plus(a, b), c) == Plus(a, Plus(b, c))
  {
  }

  lemma PlusZero(a: Register)
    ensures Plus(a, ZERO) == a && Plus(ZERO, a) == a
  {
  }

  lemma PlusIs(a: Register, b: Register)
    ensures Plus(a, b) == a ^ b
  {
  }

  lemma BitStepXor(a: bv32, b: bv32)
    ensures BitStep(a ^ b) == BitStep(a) ^ BitStep(b)
  {
    LowBits(a, b);
    Rearrange(a >> 1, b >> 1, 0x82f63b78);
    if a & 1 == 1 {
      if b & 1 == 1 {
      }
    } else if b & 1 == 1 {
    }
  }

  lemma BitStepLinear(a: Register, b: Register)
    ensures BitStep(Plus(a, b)) == Plus(BitStep(a), BitStep(b))
  {
    hide BitStep, Plus;
    BitStepXor(a, b);
    PlusIs(a, b);
    PlusIs(BitStep(a), BitStep(b));
  }

  lemma LowBits(a: bv32, b: bv32)
    ensures (a ^ b) >> 1 == (a >> 1) ^ (b >> 1)
    ensures (a ^ b) & 1 == (a & 1) ^ (b & 1)
    ensures a & 1 == 0 || a & 1 == 1
    ensures b & 1 == 0 || b & 1 == 1
  {
  }

  lemma Rearrange(x: bv32, y: bv32, p: bv32)
    ensures (x ^ p) ^ (y ^ p) == x ^ y
    ensures (x ^ p) ^ y == (x ^ y) ^ p
    ensures x ^ (y ^ p) == (x ^ y) ^ p
  {
  }

  function Double(c: Register): Register {
    c << 1
  }

  lemma BitStepDouble(c: Register)
    requires c <= 0x7fffffff
    ensures BitStep(Double(c)) == c
  {
  }

  lemma UpIsDoubles(c: Register)
    requires c <= 0xffffff
    ensures var d4 := Double(Double(Double(Double(c))));
            Up(c) == Double(Double(Double(Double(d4))))
    ensures var d4 := Double(Double(Double(Double(c))));
            Double(Double(Double(d4))) <= 0x7fffffff && Double(Double(d4)) <= 0x7fffffff && Double(d4) <= 0x7fffffff
    ensures Double(Double(Double(Double(c)))) <= 0x7fffffff && Double(Double(Double(c))) <= 0x7fffffff
    ensures Double(Double(c)) <= 0x7fffffff && Double(c) <= 0x7fffffff && c <= 0x7fffffff
  {
  }

  /** A byte that has just been moved up comes down again without touching the polynomial. */
  lemma ShiftUp(c: Register)
    requires c <= 0xffffff
    ensures Shift(Up(c)) == c
  {
    hide BitStep, Double, Up;
    var c1 := Double(c);
    var c2 := Double(c1);
    var c3 := Double(c2);
    var c4 := Double(c3);
    var c5 := Double(c4);
    var c6 := Double(c5);
    var c7 := Double(c6);
    UpIsDoubles(c);
    BitStepDouble(c7);
    BitStepDouble(c6);
    BitStepDouble(c5);
    BitStepDouble(c4);
    BitStepDouble(c3);
    BitStepDouble(c2);
    BitStepDouble(c1);
    BitStepDouble(c);
  }

  lemma ShiftLinear(a: Register, b: Register)
    ensures Shift(Plus(a, b)) == Plus(Shift(a), Shift(b))
  {
    hide BitStep, Plus;
    var a1, b1 := BitStep(a), BitStep(b);
    var a2, b2 := BitStep(a1), BitStep(b1);
    var a3, b3 := BitStep(a2), BitStep(b2);
    var a4, b4 := BitStep(a3), BitStep(b3);
    var a5, b5 := BitStep(a4), BitStep(b4);
    var a6, b6 := BitStep(a5), BitStep(b5);
    var a7, b7 := BitStep(a6), BitStep(b6);
    BitStepLinear(a, b);
    BitStepLinear(a1, b1);
    BitStepLinear(a2, b2);
    BitStepLinear(a3, b3);
    BitStepLinear(a4, b4);
    BitStepLinear(a5, b5);
    BitStepLinear(a6, b6);
    BitStepLinear(a7, b7);
  }

  lemma {:induction false} ShiftsLinear(n: nat, a: Register, b: Register)
    ensures Shifts(n, Plus(a, b)) == Plus(Shifts(n, a), Shifts(n, b))
  {
    hide Shift, Plus;
    if n == 0 {
    } else {
      ShiftLinear(a, b);
      ShiftsLinear(n - 1, Shift(a), Shift(b));
    }
  }

  lemma {:induction false} ShiftsAdd(m: nat, n: nat, c: Register)
    ensures Shifts(m + n, c) == Shifts(n, Shifts(m, c))
  {
    hide Shift;
    if m == 0 {
    } else {
      ShiftsAdd(m - 1, n, Shift(c));
    }
  }

  /** Linearity over GF(2): what the initial register contributes is independent of the data. */
  lemma {:induction false} CrcLinear(c: Register, d: Register, s: bytes)
    ensures Crc(Plus(c, d), s) == Plus(Shifts(|s|, c), Crc(d, s))
    decreases |s|
  {
    hide Shift, Plus, Of;
    if s == [] {
    } else {
      PlusAssoc(c, d, Of(s[0]));
      ShiftLinear(c, Plus(d, Of(s[0])));
      CrcLinear(Shift(c), Shift(Plus(d, Of(s[0]))), s[1..]);
    }
  }

  lemma {:induction false} CrcAppend(c: Register, s: bytes, t: bytes)
    ensures Crc(c, s + t) == Crc(Crc(c, s), t)
    decreases |s|
  {
    hide Shift, Plus, Of;
    if s == [] {
      assert s + t == t;
    } else {
      assert (s + t)[1..] == s[1..] + t;
      CrcAppend(Shift(Plus(c, Of(s[0]))), s[1..], t);
    }
  }

  /** Registers of adjacent stretches combine: move the first past the second, then add. */
  lemma CrcConcat(c: Register, s: bytes, t: bytes)
    ensures Crc(c, s + t) == Plus(Shifts(|t|, Crc(c, s)), Crc(ZERO, t))
  {
    hide Plus, Shifts, Crc;
    CrcAppend(c, s, t);
    CrcLinear(Crc(c, s), ZERO, t);
    PlusZero(Crc(c, s));
  }

  // The tables.

  lemma LowAndRest(x: Register)
    ensures x == Plus(ByteAt(x, 0), Up(Down(x))) && Down(x) <= 0xffffff
  {
  }

  lemma ShiftLowByte(x: Register)
    ensures Shift(x) == Plus(Shift(ByteAt(x, 0)), Down(x))
  {
    hide Shift, Plus, ByteAt, Up, Down;
    LowAndRest(x);
    ShiftLinear(ByteAt(x, 0), Up(Down(x)));
    ShiftUp(Down(x));
  }

  lemma ShiftsOne(c: Register)
    ensures Shifts(1, c) == Shift(c)
  {
    hide Shift;
    assert Shifts(1, c) == Shifts(0, Shift(c));
  }

  lemma {:induction false} TableIsShifts(row: nat, i: Register)
    ensures Table(row, i) == Shifts(row + 1, i)
  {
    hide Shift, Plus, ByteAt, Down;
    ShiftsOne(i);
    if row == 0 {
    } else {
      var t := Table(row - 1, i);
      TableIsShifts(row - 1, i);
      ShiftLowByte(t);
      ShiftsAdd(row, 1, i);
      ShiftsOne(t);
    }
  }

  lemma DownOfSum(crc: Register, b: byte)
    ensures Down(Plus(crc, Of(b))) == Down(crc)
  {
  }

  lemma TableByteIsCrc(crc: Register, b: byte)
    ensures TableByte(crc, b) == Crc(crc, [b])
  {
    hide Shift, Plus, ByteAt, Down, Of;
    ShiftLowByte(Plus(crc, Of(b)));
    DownOfSum(crc, b);
    assert [b][1..] == [];
  }

  /** A register is the sum of its bytes, each moved into place. */
  lemma SumOfBytes(x: Register)
    ensures x == Plus(Plus(Plus(ByteAt(x, 0), Up(ByteAt(x, 1))), Up(Up(ByteAt(x, 2)))), Up(Up(Up(ByteAt(x, 3)))))
    ensures ByteAt(x, 0) <= 0xff && ByteAt(x, 1) <= 0xff && ByteAt(x, 2) <= 0xff && ByteAt(x, 3) <= 0xff
  {
  }

  lemma UpOfByte(y: Register)
    requires y <= 0xff
    ensures y <= 0xffffff && Up(y) <= 0xffffff && Up(Up(y)) <= 0xffffff
  {
  }

  lemma ShiftsUp(n: nat, y: Register)
    requires n >= 1 && y <= 0xffffff
    ensures Shifts(n, Up(y)) == Shifts(n - 1, y)
  {
    hide Shift, Up;
    ShiftUp(y);
  }

  /** Shifting a word is shifting its bytes, the higher ones by less. */
  lemma ShiftsOfBytes(n: nat, x: Register)
    requires n >= 3
    ensures Shifts(n, x) == Plus(Plus(Plus(
      Shifts(n, ByteAt(x, 0)), Shifts(n - 1, ByteAt(x, 1))), Shifts(n - 2, ByteAt(x, 2))), Shifts(n - 3, ByteAt(x, 3)))
  {
    hide Shifts, Plus, ByteAt, Up;
    var b0, b1, b2, b3 := ByteAt(x, 0), ByteAt(x, 1), ByteAt(x, 2), ByteAt(x, 3);
    SumOfBytes(x);
    UpOfByte(b1);
    UpOfByte(b2);
    UpOfByte(b3);
    ShiftsLinear(n, Plus(Plus(b0, Up(b1)), Up(Up(b2))), Up(Up(Up(b3))));
    ShiftsLinear(n, Plus(b0, Up(b1)), Up(Up(b2)));
    ShiftsLinear(n, b0, Up(b1));
    ShiftsUp(n, b1);
    ShiftsUp(n, Up(b2));
    ShiftsUp(n - 1, b2);
    ShiftsUp(n, Up(Up(b3)));
    ShiftsUp(n - 1, Up(b3));
    ShiftsUp(n - 2, b3);
  }

  /** crc32c_shift_chunk is what a chunk of zeros does to the register. */
  lemma ShiftChunkIsShifts(crc: Register)
    ensures ShiftChunk(crc) == Shifts(CHUNK, crc)
  {
    hide Shifts, Plus, ByteAt, Up;
    var b0, b1, b2, b3 := ByteAt(crc, 0), ByteAt(crc, 1), ByteAt(crc, 2), ByteAt(crc, 3);
    assert Ups(1, b1) == Up(Ups(0, b1)) == Up(b1);
    assert Ups(2, b2) == Up(Ups(1, b2)) == Up(Up(Ups(0, b2)));
    assert Ups(3, b3) == Up(Ups(2, b3)) == Up(Up(Ups(1, b3))) == Up(Up(Up(Ups(0, b3))));
    SumOfBytes(crc);
    ShiftsLinear(CHUNK, Plus(Plus(b0, Up(b1)), Up(Up(b2))), Up(Up(Up(b3))));
    ShiftsLinear(CHUNK, Plus(b0, Up(b1)), Up(Up(b2)));
    ShiftsLinear(CHUNK, b0, Up(b1));
  }

  /** The contribution of four bytes of data. */
  lemma CrcOfFour(d: bytes)
    requires |d| == 4
    ensures Crc(ZERO, d)
         == Plus(Plus(Plus(Shifts(4, Of(d[0])), Shifts(3, Of(d[1]))), Shifts(2, Of(d[2]))), Shifts(1, Of(d[3])))
  {
    hide Shifts, Plus, Of, Shift;
    var e1, e2, e3 := d[1..], d[1..][1..], d[1..][1..][1..];
    assert e1[0] == d[1] && e2[0] == d[2] && e3[0] == d[3] && e3[1..] == [];
    CrcOfByte(d);
    CrcOfByte(e1);
    CrcOfByte(e2);
    CrcOfByte(e3);
    assert Crc(ZERO, e3[1..]) == ZERO;
    PlusZero(Shifts(1, Of(d[3])));
    var t0, t1, t2, t3 := Shifts(4, Of(d[0])), Shifts(3, Of(d[1])), Shifts(2, Of(d[2])), Shifts(1, Of(d[3]));
    PlusAssoc(t0, t1, Plus(t2, t3));
    PlusAssoc(Plus(t0, t1), t2, t3);
  }

  lemma CrcOfByte(d: bytes)
    requires d != []
    ensures Crc(ZERO, d) == Plus(Shifts(|d|, Of(d[0])), Crc(ZERO, d[1..]))
  {
    hide Plus, Of, Shift;
    var c := Shift(Of(d[0]));
    PlusZero(Of(d[0]));
    PlusZero(c);
    CrcLinear(c, ZERO, d[1..]);
  }

  lemma Load32Bytes(d: bytes)
    requires |d| == 4
    ensures ByteAt(Load32(d), 0) == Of(d[0]) && ByteAt(Load32(d), 1) == Of(d[1])
    ensures ByteAt(Load32(d), 2) == Of(d[2]) && ByteAt(Load32(d), 3) == Of(d[3])
  {
  }

  /** Loading a word into the register and shifting it out is the CRC of its four bytes. */
  lemma CrcOfWord(c: Register, d: bytes)
    requires |d| == 4
    ensures Crc(c, d) == Shifts(4, Plus(c, Load32(d)))
  {
    hide Crc, Shifts, Plus, ByteAt, Of, Load32;
    PlusZero(c);
    CrcLinear(c, ZERO, d);
    CrcOfFour(d);
    Load32Bytes(d);
    ShiftsOfBytes(4, Load32(d));
    ShiftsLinear(4, c, Load32(d));
  }

  /** Slicing by eight computes the byte-serial CRC. */
  lemma TableWordIsCrc(crc: Register, d: bytes)
    requires |d| == 8
    ensures TableWord(crc, d) == Crc(crc, d)
  {
    hide Table, Crc, Shifts, Plus, ByteAt, Of, Load32;
    var x := Plus(crc, Load32(d[..4]));
    var s := Shifts(8, x);
    assert d == d[..4] + d[4..];
    CrcConcat(crc, d[..4], d[4..]);
    CrcOfWord(crc, d[..4]);
    ShiftsAdd(4, 4, x);
    CrcOfFour(d[4..]);
    ShiftsOfBytes(8, x);
    TableIsShifts(7, ByteAt(x, 0));
    TableIsShifts(6, ByteAt(x, 1));
    TableIsShifts(5, ByteAt(x, 2));
    TableIsShifts(4, ByteAt(x, 3));
    TableIsShifts(3, Of(d[4]));
    TableIsShifts(2, Of(d[5]));
    TableIsShifts(1, Of(d[6]));
    TableIsShifts(0, Of(d[7]));
    var t3, t2, t1, t0 := Shifts(4, Of(d[4])), Shifts(3, Of(d[5])), Shifts(2, Of(d[6])), Shifts(1, Of(d[7]));
    PlusAssoc(s, t3, t2);
    PlusAssoc(s, Plus(t3, t2), t1);
    PlusAssoc(s, Plus(Plus(t3, t2), t1), t0);
  }
}
