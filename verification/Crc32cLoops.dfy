/** The software and the hardware CRC loops, over memory that starts at an arbitrary address. */
module Crc32cLoops {
  import opened Bytes
  import opened Crc32c

  /** The low half of a 64-bit register, and a register widened by zeros. */
  function Low(c: bv64): Register {
    (c & 0xffffffff) as bv32
  }

  function Wide(c: Register): bv64 {
    c as bv64
  }

  lemma LowWide(c: Register)
    ensures Low(Wide(c)) == c
  {
  }

  /** The CPU's crc32 instructions: the upper half of the register is ignored, and cleared. */
  function Crc8Instruction(crc: bv64, b: byte): bv64 {
    Wide(Crc(Low(crc), [b]))
  }

  function Crc64Instruction(crc: bv64, word: bytes): bv64
    requires |word| == 8
  {
    Wide(Crc(Low(crc), word))
  }

  lemma CrcSlice(c: Register, data: bytes, lo: nat, mid: nat, hi: nat)
    requires lo <= mid <= hi <= |data|
    ensures Crc(c, data[lo..hi]) == Crc(Crc(c, data[lo..mid]), data[mid..hi])
  {
    assert data[lo..hi] == data[lo..mid] + data[mid..hi];
    CrcAppend(c, data[lo..mid], data[mid..hi]);
  }

  lemma CrcNothing(c: Register, data: bytes, pos: nat)
    requires pos <= |data|
    ensures Crc(c, data[pos..pos]) == c
  {
  }

  /** One CRC32C_8BIT, from `pos` on. */
  lemma StepByte(start: Register, data: bytes, pos: nat)
    requires pos < |data|
    ensures TableByte(Crc(start, data[0..pos]), data[pos]) == Crc(start, data[0..pos + 1])
    ensures Crc(Crc(start, data[0..pos]), [data[pos]]) == Crc(start, data[0..pos + 1])
  {
    hide Crc, TableByte;
    CrcSlice(start, data, 0, pos, pos + 1);
    assert data[pos..pos + 1] == [data[pos]];
    TableByteIsCrc(Crc(start, data[0..pos]), data[pos]);
  }

  lemma StepWord(start: Register, data: bytes, pos: nat)
    requires pos + 8 <= |data|
    ensures TableWord(Crc(start, data[0..pos]), data[pos..pos + 8]) == Crc(start, data[0..pos + 8])
    ensures Crc(Crc(start, data[0..pos]), data[pos..pos + 8]) == Crc(start, data[0..pos + 8])
  {
    hide Crc, TableWord;
    CrcSlice(start, data, 0, pos, pos + 8);
    TableWordIsCrc(Crc(start, data[0..pos]), data[pos..pos + 8]);
  }

  /** psync_crc32c_sw. The address decides how many bytes precede the first aligned word. */
  method ComputeSoftware(start: Register, data: bytes, addr: nat) returns (crc: Register)
    ensures crc == Crc(start, data)
  {
    hide Crc, TableByte, TableWord;
    CrcNothing(start, data, 0);
    crc := start;
    var pos, len := 0, |data|;
    while (addr + pos) % 4 != 0 && len > 0
      invariant 0 <= pos && 0 <= len && pos + len == |data| && crc == Crc(start, data[0..pos])
      decreases len
    {
      StepByte(start, data, pos);
      crc := TableByte(crc, data[pos]);
      pos, len := pos + 1, len - 1;
    }
    while len >= 64
      invariant 0 <= pos && 0 <= len && pos + len == |data| && crc == Crc(start, data[0..pos])
      decreases len
    {
      len := len - 64;
      // The source repeats the word step eight times.
      for i := 0 to 8
        invariant 0 <= pos && pos + 64 - 8 * i + len == |data| && crc == Crc(start, data[0..pos])
      {
        StepWord(start, data, pos);
        crc := TableWord(crc, data[pos..pos + 8]);
        pos := pos + 8;
      }
    }
    while len >= 8
      invariant 0 <= pos && 0 <= len && pos + len == |data| && crc == Crc(start, data[0..pos])
    {
      len := len - 8;
      StepWord(start, data, pos);
      crc := TableWord(crc, data[pos..pos + 8]);
      pos := pos + 8;
    }
    while len > 0
      invariant 0 <= pos && 0 <= len && pos + len == |data| && crc == Crc(start, data[0..pos])
    {
      len := len - 1;
      StepByte(start, data, pos);
      crc := TableByte(crc, data[pos]);
      pos := pos + 1;
    }
    assert data[0..pos] == data;
  }

  /** Three adjacent chunks, run on separate registers, merge into the register of the whole. */
  lemma MergeChunks(start: Register, data: bytes, pos: nat)
    requires pos + 3 * CHUNK <= |data|
    ensures var c0 := Crc(start, data[0..pos + CHUNK]);
            var c1 := Crc(ZERO, data[pos + CHUNK..pos + 2 * CHUNK]);
            var c2 := Crc(ZERO, data[pos + 2 * CHUNK..pos + 3 * CHUNK]);
            Plus(ShiftChunk(Plus(ShiftChunk(c0), c1)), c2) == Crc(start, data[0..pos + 3 * CHUNK])
  {
    hide Crc, ShiftChunk, Plus;
    var a, b, d := pos + CHUNK, pos + 2 * CHUNK, pos + 3 * CHUNK;
    assert data[0..b] == data[0..a] + data[a..b] && data[0..d] == data[0..b] + data[b..d];
    CrcConcat(start, data[0..a], data[a..b]);
    CrcConcat(start, data[0..b], data[b..d]);
    ShiftChunkIsShifts(Crc(start, data[0..a]));
    ShiftChunkIsShifts(Crc(start, data[0..b]));
  }

  lemma ChunkWord(c: Register, data: bytes, lo: nat, pos: nat)
    requires lo <= pos && pos + 8 <= |data|
    ensures Crc64Instruction(Wide(Crc(c, data[lo..pos])), data[pos..pos + 8]) == Wide(Crc(c, data[lo..pos + 8]))
  {
    hide Crc, Wide, Low;
    LowWide(Crc(c, data[lo..pos]));
    CrcSlice(c, data, lo, pos, pos + 8);
  }

  /** The inner loop: three registers advance together, a word at a time, each over its own chunk. */
  method RunChunks(start: Register, data: bytes, pos: nat, crc: bv64) returns (crc0: bv64, crc1: bv64, crc2: bv64)
    requires pos + 3 * CHUNK <= |data| && crc == Wide(Crc(start, data[0..pos]))
    ensures crc0 == Wide(Crc(start, data[0..pos + CHUNK]))
    ensures crc1 == Wide(Crc(ZERO, data[pos + CHUNK..pos + 2 * CHUNK]))
    ensures crc2 == Wide(Crc(ZERO, data[pos + 2 * CHUNK..pos + 3 * CHUNK]))
  {
    hide Crc, Wide, Low, Crc64Instruction;
    WideZero();
    crc0, crc1, crc2 := crc, 0, 0;
    CrcNothing(ZERO, data, pos + CHUNK);
    CrcNothing(ZERO, data, pos + 2 * CHUNK);
    var data0 := pos;
    ghost var rounds := CHUNK / 8;
    while data0 < pos + CHUNK
      invariant pos <= data0 && rounds >= 0 && data0 + 8 * rounds == pos + CHUNK
      invariant crc0 == Wide(Crc(start, data[0..data0]))
      invariant crc1 == Wide(Crc(ZERO, data[pos + CHUNK..data0 + CHUNK]))
      invariant crc2 == Wide(Crc(ZERO, data[pos + 2 * CHUNK..data0 + 2 * CHUNK]))
    {
      ChunkWord(start, data, 0, data0);
      ChunkWord(ZERO, data, pos + CHUNK, data0 + CHUNK);
      ChunkWord(ZERO, data, pos + 2 * CHUNK, data0 + 2 * CHUNK);
      crc0 := Crc64Instruction(crc0, data[data0..data0 + 8]);
      crc1 := Crc64Instruction(crc1, data[data0 + CHUNK..data0 + CHUNK + 8]);
      crc2 := Crc64Instruction(crc2, data[data0 + 2 * CHUNK..data0 + 2 * CHUNK + 8]);
      data0 := data0 + 8;
      rounds := rounds - 1;
    }
  }

  lemma WideZero()
    ensures Wide(ZERO) == 0
  {
  }

  function Xor64(a: bv64, b: bv64): bv64 {
    a ^ b
  }

  lemma WidePlus(a: Register, b: Register)
    ensures Xor64(Wide(a), Wide(b)) == Wide(Plus(a, b))
  {
  }

  /** One word, or one byte, on a wide register. */
  lemma InstructionIsCrc(start: Register, data: bytes, pos: nat, crc: bv64)
    requires pos <= |data| && crc == Wide(Crc(start, data[0..pos]))
    ensures pos < |data| ==> Crc8Instruction(crc, data[pos]) == Wide(Crc(start, data[0..pos + 1]))
    ensures pos + 8 <= |data| ==> Crc64Instruction(crc, data[pos..pos + 8]) == Wide(Crc(start, data[0..pos + 8]))
  {
    hide Crc, Wide, Low;
    LowWide(Crc(start, data[0..pos]));
    if pos < |data| {
      StepByte(start, data, pos);
    }
    if pos + 8 <= |data| {
      StepWord(start, data, pos);
    }
  }

  /** Move the register past one chunk, and add the register that ran over it. */
  function MergeStep(crc: bv64, next: bv64): bv64 {
    Xor64(Wide(ShiftChunk(Low(crc))), next)
  }

  lemma MergeStepWide(a: Register, b: Register)
    ensures MergeStep(Wide(a), Wide(b)) == Wide(Plus(ShiftChunk(a), b))
  {
    hide Wide, Low, ShiftChunk, Plus, Xor64;
    LowWide(a);
    WidePlus(ShiftChunk(a), b);
  }

  lemma MergedRegisters(start: Register, data: bytes, pos: nat)
    requires pos + 3 * CHUNK <= |data|
    ensures var c0 := Crc(start, data[0..pos + CHUNK]);
            var c1 := Crc(ZERO, data[pos + CHUNK..pos + 2 * CHUNK]);
            var c2 := Crc(ZERO, data[pos + 2 * CHUNK..pos + 3 * CHUNK]);
            MergeStep(MergeStep(Wide(c0), Wide(c1)), Wide(c2)) == Wide(Crc(start, data[0..pos + 3 * CHUNK]))
  {
    hide Crc, MergeStep, Wide, ShiftChunk, Plus;
    var c0, c1 := Crc(start, data[0..pos + CHUNK]), Crc(ZERO, data[pos + CHUNK..pos + 2 * CHUNK]);
    MergeChunks(start, data, pos);
    MergeStepWide(c0, c1);
    MergeStepWide(Plus(ShiftChunk(c0), c1), Crc(ZERO, data[pos + 2 * CHUNK..pos + 3 * CHUNK]));
  }

  /** psync_crc32c_hw on a 64-bit machine. */
  method ComputeHardware(start: Register, data: bytes, addr: nat) returns (crc: Register)
    ensures crc == Crc(start, data)
  {
    hide Crc, Wide, Low, Crc8Instruction, Crc64Instruction, MergeStep;
    CrcNothing(start, data, 0);
    var crc0 := Wide(start);
    var pos, len := 0, |data|;
    while (addr + pos) % 8 != 0 && len > 0
      invariant 0 <= pos && 0 <= len && pos + len == |data| && crc0 == Wide(Crc(start, data[0..pos]))
      decreases len
    {
      InstructionIsCrc(start, data, pos, crc0);
      crc0 := Crc8Instruction(crc0, data[pos]);
      pos, len := pos + 1, len - 1;
    }
    while len >= CHUNK * 3
      invariant 0 <= pos && 0 <= len && pos + len == |data| && crc0 == Wide(Crc(start, data[0..pos]))
    {
      len := len - CHUNK * 3;
      var crc1, crc2;
      crc0, crc1, crc2 := RunChunks(start, data, pos, crc0);
      MergedRegisters(start, data, pos);
      crc0 := MergeStep(MergeStep(crc0, crc1), crc2);
      pos := pos + 3 * CHUNK;
    }
    while len >= 32
      invariant 0 <= pos && 0 <= len && pos + len == |data| && crc0 == Wide(Crc(start, data[0..pos]))
    {
      len := len - 32;
      // The source repeats the word step four times.
      for i := 0 to 4
        invariant 0 <= pos && pos + 32 - 8 * i + len == |data| && crc0 == Wide(Crc(start, data[0..pos]))
      {
        InstructionIsCrc(start, data, pos, crc0);
        crc0 := Crc64Instruction(crc0, data[pos..pos + 8]);
        pos := pos + 8;
      }
    }
    while len >= 8
      invariant 0 <= pos && 0 <= len && pos + len == |data| && crc0 == Wide(Crc(start, data[0..pos]))
    {
      len := len - 8;
      InstructionIsCrc(start, data, pos, crc0);
      crc0 := Crc64Instruction(crc0, data[pos..pos + 8]);
      pos := pos + 8;
    }
    while len > 0
      invariant 0 <= pos && 0 <= len && pos + len == |data| && crc0 == Wide(Crc(start, data[0..pos]))
    {
      len := len - 1;
      InstructionIsCrc(start, data, pos, crc0);
      crc0 := Crc8Instruction(crc0, data[pos]);
      pos := pos + 1;
    }
    assert data[0..pos] == data;
    LowWide(Crc(start, data));
    crc := Low(crc0);
  }
}
