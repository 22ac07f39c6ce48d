/**
 * The 32-bit drive bitmaps of the BIOS block-device layer: bit n stands
 * for drive n (A: is 0).  next_logical picks the lowest available drive
 * and add_partition takes it out of the available set.
 */
module DriveMap {

  /** BLKDEVNUM: drives A: to Z:. */
  const BlkDevNum: nat := 26


  /** A shift amount below 32 as a 5-bit vector. */
  function Amount(k: nat): bv5
    requires k < 32
  {
    k as bv5
  }

  /** The mask of drive k, 1L << k. */
  function Mask(k: nat): bv32
    requires k < 32
  {
    (1 as bv32) << Amount(k)
  }

  /** Bit k of a 32-bit drive bitmap. */
  predicate Bit(map32: bv32, k: nat)
    requires k < 32
  {
    map32 & Mask(k) != 0
  }

  /** The lowest set bit from k up to BlkDevNum - 1, or -1. */
  function LowestFrom(avail: bv32, k: nat): (r: int)
    requires k <= BlkDevNum
    ensures r == -1 || k <= r < BlkDevNum
    decreases BlkDevNum - k
  {
    if k == BlkDevNum then -1 else if Bit(avail, k) then k else LowestFrom(avail, k + 1)
  }

  /** LowestFrom finds a set bit with no set bit before it, or says there is none. */
  lemma {:induction false} LowestFromSound(avail: bv32, k: nat)
    requires k <= BlkDevNum
    ensures LowestFrom(avail, k) >= 0 ==> Bit(avail, LowestFrom(avail, k))
    ensures forall j :: k <= j < BlkDevNum && (LowestFrom(avail, k) == -1 || j < LowestFrom(avail, k)) ==> !Bit(avail, j)
    decreases BlkDevNum - k
  {
    if k < BlkDevNum && !Bit(avail, k) {
      LowestFromSound(avail, k + 1);
    }
  }

  /**
   * next_logical: the lowest drive number below BlkDevNum whose bit is set
   * in the bitmap of available devices, or -1.
   */
  method NextLogical(avail: bv32) returns (logical: int)
    ensures logical == LowestFrom(avail, 0)
    ensures logical >= 0 ==> logical < BlkDevNum && Bit(avail, logical)
    ensures forall j :: 0 <= j < BlkDevNum && (logical == -1 || j < logical) ==> !Bit(avail, j)
  {
    LowestFromSound(avail, 0);
    logical := 0;
    while logical < BlkDevNum
      invariant 0 <= logical <= BlkDevNum
      invariant LowestFrom(avail, logical) == LowestFrom(avail, 0)
    {
      if avail & Mask(logical) != 0 {
        return;
      }
      logical := logical + 1;
    }
    logical := -1;
  }

  /** The bitmap with bit l cleared. */
  function Clear(map32: bv32, l: nat): bv32
    requires l < 32
  {
    map32 & !Mask(l)
  }

  /** The bitmap with bit l set. */
  function Set(map32: bv32, l: nat): bv32
    requires l < 32
  {
    map32 | Mask(l)
  }

  /** Clearing bit l clears that bit and no other. */
  lemma ClearBit(map32: bv32, l: nat, j: nat)
    requires l < 32 && j < 32
    ensures Bit(Clear(map32, l), j) <==> Bit(map32, j) && j != l
  {
    if j == l {
      ClearBitSame(map32, l);
    } else {
      ClearBitOther(map32, l, j);
    }
  }

  lemma ClearBitSame(map32: bv32, l: nat)
    requires l < 32
    ensures !Bit(Clear(map32, l), l)
  {
    ClearSame(map32, Mask(l));
  }

  lemma ClearBitOther(map32: bv32, l: nat, j: nat)
    requires l < 32 && j < 32 && j != l
    ensures Bit(Clear(map32, l), j) == Bit(map32, j)
  {
    DistinctMasks(l, j);
    ClearOther(map32, Mask(l), Mask(j));
  }

  /** Setting bit l sets that bit and no other. */
  lemma SetBit(map32: bv32, l: nat, j: nat)
    requires l < 32 && j < 32
    ensures Bit(Set(map32, l), j) <==> Bit(map32, j) || j == l
  {
    if j == l {
      SetBitSame(map32, l);
    } else {
      SetBitOther(map32, l, j);
    }
  }

  lemma SetBitSame(map32: bv32, l: nat)
    requires l < 32
    ensures Bit(Set(map32, l), l)
  {
    MaskNonzero(l);
    SetSame(map32, Mask(l));
  }

  lemma SetBitOther(map32: bv32, l: nat, j: nat)
    requires l < 32 && j < 32 && j != l
    ensures Bit(Set(map32, l), j) == Bit(map32, j)
  {
    DistinctMasks(l, j);
    SetOther(map32, Mask(l), Mask(j));
  }

  /** Distinct drives have disjoint masks. */
  lemma DistinctMasks(l: nat, j: nat)
    requires l < 32 && j < 32 && l != j
    ensures Mask(l) & Mask(j) == 0
  {
    AmountBack(l);
    AmountBack(j);
    DisjointShifts(Amount(l), Amount(j));
  }

  lemma AmountBack(k: nat)
    requires k < 32
    ensures Amount(k) as int == k
  {
  }

  lemma DisjointShifts(l: bv5, j: bv5)
    requires l != j
    ensures ((1 as bv32) << l) & ((1 as bv32) << j) == 0
  {
  }

  lemma MaskNonzero(l: nat)
    requires l < 32
    ensures Mask(l) != 0
  {
    NonzeroShift(Amount(l));
  }

  lemma NonzeroShift(l: bv5)
    ensures ((1 as bv32) << l) != 0
  {
  }

  lemma ClearSame(m: bv32, a: bv32)
    ensures (m & !a) & a == 0
  {
  }

  lemma ClearOther(m: bv32, a: bv32, b: bv32)
    requires a & b == 0
    ensures ((m & !a) & b != 0) == (m & b != 0)
  {
    ClearOtherBits(m, a, b);
  }

  lemma ClearOtherBits(m: bv32, a: bv32, b: bv32)
    requires a & b == 0
    ensures (m & !a) & b == m & b
  {
  }

  lemma SetSame(m: bv32, a: bv32)
    requires a != 0
    ensures (m | a) & a != 0
  {
  }

  lemma SetOther(m: bv32, a: bv32, b: bv32)
    requires a & b == 0
    ensures ((m | a) & b != 0) == (m & b != 0)
  {
    SetOtherBits(m, a, b);
  }

  lemma SetOtherBits(m: bv32, a: bv32, b: bv32)
    requires a & b == 0
    ensures (m | a) & b == m & b
  {
  }

  /** Taking the lowest free drive leaves only higher ones: successive partitions get ascending drive numbers. */
  lemma NextAfterTaking(avail: bv32)
    requires LowestFrom(avail, 0) >= 0
    ensures var l := LowestFrom(avail, 0);
            !Bit(Clear(avail, l), l) && (LowestFrom(Clear(avail, l), 0) == -1 || LowestFrom(Clear(avail, l), 0) > l)
  {
    var l := LowestFrom(avail, 0);
    var rest := Clear(avail, l);
    ClearBitSame(avail, l);
    LowestFromSound(avail, 0);
    LowestFromSound(rest, 0);
    var r := LowestFrom(rest, 0);
    if r >= 0 && r != l {
      ClearBitOther(avail, l, r);
    }
  }

}
