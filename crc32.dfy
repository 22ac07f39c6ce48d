/**
 * The CRC the keyboard processor uses to fingerprint programs uploaded into
 * its RAM (crc32_reset / crc32_add_byte).  It shifts the CRC-32 generator
 * polynomial 0x04C11DB7 of IEEE 802.3 through a 32-bit register, most
 * significant bit first, but its feedback test compares bit 7 of the data
 * byte with bit 31 of the register in different positions, so the test is a
 * logical OR of the two bits rather than their exclusive OR.  The result is
 * therefore not the standard CRC; the lemmas below make both facts precise.
 */
module IkbdCrc32 {

  const Poly: bv32 := 0x04C1_1DB7
  const ResetValue: bv32 := 0xFFFF_FFFF

  /** Feedback condition of one bit step: data bit 7 OR register bit 31. */
  predicate Feedback(crc: bv32, c: bv8)
  {
    c & 0x80 != 0 || crc & 0x8000_0000 != 0
  }

  /**
   * One iteration of the bit loop.  The source XORs `c & 0x80` with
   * `crc & 0x80000000`; as the two masks share no bit, the XOR is non-zero
   * exactly when one of them is.
   */
  function Step(crc: bv32, c: bv8): (r: bv32)
    ensures Feedback(crc, c) ==> r == (crc << 1) ^ Poly
    ensures !Feedback(crc, c) ==> r == crc << 1
  {
    if ((c & 0x80) as bv32) ^ (crc & 0x8000_0000) != 0 then (crc << 1) ^ Poly else crc << 1
  }

  /** The remaining `n` iterations of the bit loop, the data byte shifted left each time. */
  function Steps(crc: bv32, c: bv8, n: nat): bv32
    decreases n
  {
    if n == 0 then crc else Steps(Step(crc, c), c << 1, n - 1)
  }

  /** crc32_add_byte: eight bit steps over the byte, most significant bit first. */
  function AddByte(crc: bv32, c: bv8): bv32
  {
    Steps(crc, c, 8)
  }

  /** The CRC of a whole byte sequence, starting from the reset value. */
  function AddBytes(crc: bv32, s: seq<bv8>): bv32
    decreases |s|
  {
    if s == [] then crc else AddBytes(AddByte(crc, s[0]), s[1..])
  }

  /** crc32_add_byte as the source writes it: a loop over the 8 bits. */
  method AddByteLoop(crc0: bv32, c0: bv8) returns (crc: bv32)
    ensures crc == AddByte(crc0, c0)
  {
    crc := crc0;
    var c := c0;
    var bit := 0;
    while bit < 8
      invariant 0 <= bit <= 8
      invariant Steps(crc, c, 8 - bit) == AddByte(crc0, c0)
    {
      if ((c & 0x80) as bv32) ^ (crc & 0x8000_0000) != 0 {
        crc := (crc << 1) ^ Poly;
      } else {
        crc := crc << 1;
      }
      c := c << 1;
      bit := bit + 1;
    }
  }

  /** The textbook MSB-first CRC-32 bit step, whose feedback is the XOR of the two bits. */
  function StandardStep(crc: bv32, c: bv8): bv32
  {
    if (((c as bv32) << 24) ^ crc) & 0x8000_0000 != 0 then (crc << 1) ^ Poly else crc << 1
  }

  /** The two steps agree exactly when data bit 7 and register bit 31 are not both set. */
  lemma StepAgreesWithStandard(crc: bv32, c: bv8)
    ensures (Step(crc, c) == StandardStep(crc, c)) <==> !(c & 0x80 != 0 && crc & 0x8000_0000 != 0)
  {
  }

  /** A register with bit 31 set meeting a byte with bit 7 set: the source feeds back, CRC-32 does not. */
  lemma StepDiffersFromStandard()
    ensures Step(0x8000_0000, 0x80) == Poly && StandardStep(0x8000_0000, 0x80) == 0
  {
  }

  /** Appending bytes one at a time is the same as hashing the concatenation. */
  lemma {:induction false} AddBytesAppend(crc: bv32, s: seq<bv8>, b: bv8)
    ensures AddBytes(crc, s + [b]) == AddByte(AddBytes(crc, s), b)
    decreases |s|
  {
    if s == [] {
      assert [b][1..] == [];
    } else {
      assert (s + [b])[1..] == s[1..] + [b];
      AddBytesAppend(AddByte(crc, s[0]), s[1..], b);
    }
  }
}
