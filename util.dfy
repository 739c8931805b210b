/** `src/util.rs`: the single bit test used to decode the frame-control flags. */
module Util {
  import opened Common

  /** Binary digit `k` (least significant = 0) of `n`, read by repeated
      halving. This is the arithmetic meaning of the mask test below. */
  predicate BitOf(n: nat, k: nat)
  {
    if k == 0 then n % 2 == 1 else BitOf(n / 2, k - 1)
  }

  /** `flag_is_set(data, bit)`: the mask test, with the source's separate
      branch for bit 0. `1 << bit` overflows a `u8` from bit 8 on, so the
      source can only be asked about bits 0 to 7. */
  function FlagIsSet(data: byte, bit: nat): (r: bool)
    requires bit < 8
    ensures data == 0 ==> !r
  {
    if bit == 0 then
      var mask: byte := 1;
      data & mask > 0
    else
      var mask: byte := 1 << bit;
      data & mask > 0
  }

  /** The bit-0 branch computes what the general mask branch would. */
  lemma BitZeroBranchIsGeneral(data: byte)
    ensures FlagIsSet(data, 0) == (data & (1 << 0) > 0)
  {
  }

  /** `flag_is_set(data, bit)` is true exactly when binary digit `bit` of `data` is 1. */
  lemma FlagIsSetIsBit(data: byte, bit: nat)
    requires bit < 8
    ensures FlagIsSet(data, bit) <==> BitOf(data as int, bit)
  {
    assert FlagIsSet(data, bit) <==> (data >> bit) & 1 == 1;
    ShiftedBit(data, bit);
  }

  /** The result depends on bit `bit` alone: flipping any other bit of `data`
      leaves it unchanged. */
  lemma FlagIgnoresOtherBits(data: byte, bit: nat, other: nat)
    requires bit < 8 && other < 8 && other != bit
    ensures FlagIsSet(data ^ (1 << other), bit) == FlagIsSet(data, bit)
  {
    var flip: byte := 1 << other;
    assert flip == 1 << other;
    if bit == 0 {
    } else if bit == 1 {
    } else if bit == 2 {
    } else if bit == 3 {
    } else if bit == 4 {
    } else if bit == 5 {
    } else if bit == 6 {
    } else {
    }
  }

  lemma {:induction false} ShiftedBit(x: byte, k: nat)
    requires k < 8
    ensures ((x >> k) & 1 == 1) <==> BitOf(x as int, k)
  {
    if k == 0 {
      LowBit(x);
    } else {
      ShiftByOneFirst(x, k);
      ShiftedBit(x >> 1, k - 1);
      HalfByShift(x);
    }
  }

  lemma LowBit(x: byte)
    ensures (x & 1 == 1) <==> x as int % 2 == 1
  {
    assert x & 1 == x % 2;
  }

  lemma HalfByShift(x: byte)
    ensures (x >> 1) as int == x as int / 2
  {
    assert x >> 1 == x / 2;
  }

  lemma ShiftByOneFirst(x: byte, k: nat)
    requires 0 < k < 8
    ensures x >> k == (x >> 1) >> (k - 1)
  {
    if k == 1 {
    } else if k == 2 {
    } else if k == 3 {
    } else if k == 4 {
    } else if k == 5 {
    } else if k == 6 {
    } else {
    }
  }
}
