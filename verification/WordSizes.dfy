/** How many values the machine's words have. */
module WordSizes {
  const TWO_TO_32: nat := 0x1_0000_0000
  const TWO_TO_64: nat := 0x1_0000_0000_0000_0000

  lemma NextByte(b: bv8)
    requires b as int < 255
    ensures (b + 1) as int == b as int + 1
  {
  }

  /** Every number below 256 is a byte. */
  lemma {:induction false} ByteOfNumber(a: nat) returns (b: bv8)
    requires a < 256
    ensures b as int == a
  {
    if a == 0 {
      b := 0;
    } else {
      var c := ByteOfNumber(a - 1);
      NextByte(c);
      b := c + 1;
    }
  }

  lemma ByteAgain(b: bv8)
    ensures (b as int) as bv8 == b
  {
  }

  lemma ByteIs(a: nat)
    requires a < 256
    ensures (a as bv8) as nat == a
  {
    var b := ByteOfNumber(a);
    ByteAgain(b);
  }
}
