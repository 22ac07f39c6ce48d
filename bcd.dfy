/**
 * The packed BCD helpers of the keyboard processor's clock: a byte holds two
 * decimal digits, the tens in the high nibble and the units in the low one.
 */
module IkbdBcd {

  /** IKBD_BCD_Check: both nibbles are decimal digits. */
  predicate Check(v: bv8): (ok: bool)
    ensures ok ==> v <= 0x99 && v >> 4 <= 9
  {
    (v & 0x0F) <= 0x09 && (v & 0xF0) <= 0x90
  }

  /**
   * IKBD_BCD_Adjust: the decimal adjustment after adding to a BCD byte.  A
   * low nibble above 9 gets 6 added (carrying into the high nibble); then a
   * high nibble above 9 gets 0x60 added, the carry out of bit 7 being lost.
   */
  function Adjust(v: bv8): (r: bv8)
    ensures Check(v) ==> r == v
    ensures v & 0x0F <= 0x09 ==> r & 0x0F == v & 0x0F
  {
    var a := if (v & 0x0F) > 0x09 then v + 0x06 else v;
    if (a & 0xF0) > 0x90 then a + 0x60 else a
  }

  /** The decimal number a BCD byte stands for. */
  function Value(v: bv8): (n: nat)
    requires Check(v)
    ensures n < 100
  {
    ((v >> 4) as int) * 10 + (v & 0x0F) as int
  }

  /**
   * Adding one to a valid BCD byte and adjusting gives a valid BCD byte: the
   * units digit goes up, or rolls over into the tens, or 99 rolls over to 00.
   */
  lemma IncrementDigits(v: bv8)
    requires Check(v)
    ensures Check(Adjust(v + 1))
    ensures Adjust(v + 1) == if v & 0x0F < 0x09 then v + 1
                             else if v & 0xF0 < 0x90 then (v & 0xF0) + 0x10
                             else 0x00
  {
  }

  /** Increment then adjust is the decimal successor modulo 100. */
  lemma Increment(v: bv8)
    requires Check(v)
    ensures Check(Adjust(v + 1)) && Value(Adjust(v + 1)) == (Value(v) + 1) % 100
  {
    IncrementDigits(v);
  }

  /** Check accepts exactly the encodings of 0..99. */
  lemma CheckIsEncoding(v: bv8)
    ensures Check(v) <==> (v >> 4) <= 9 && (v & 0x0F) <= 9
  {
  }
}
