/** Bits of a byte. */
module Bits8 {

  function Mask(k: nat): bv8
    requires k < 8
  {
    (1 as bv8) << k
  }

  predicate BitOf(b: bv8, k: nat)
    requires k < 8
  {
    b & Mask(k) != 0
  }

  lemma MaskValue(k: nat)
    requires k < 8
    ensures Mask(k) == if k == 0 then 1 else if k == 1 then 2 else if k == 2 then 4 else if k == 3 then 8
                       else if k == 4 then 16 else if k == 5 then 32 else if k == 6 then 64 else 128
  {
    if k == 0 {} else if k == 1 {} else if k == 2 {} else if k == 3 {} else if k == 4 {} else if k == 5 {}
      else if k == 6 {} else {}
  }

  /** Setting one bit leaves the others alone. */
  lemma SetBit(b: bv8, k: nat, j: nat)
    requires k < 8 && j < 8
    ensures BitOf(b | Mask(k), j) <==> BitOf(b, j) || j == k
  {
    MaskValue(k);
    MaskValue(j);
  }

  /** Clearing one bit leaves the others alone. */
  lemma ClearBit(b: bv8, k: nat, j: nat)
    requires k < 8 && j < 8
    ensures BitOf(b & !Mask(k), j) <==> BitOf(b, j) && j != k
  {
    MaskValue(k);
    MaskValue(j);
  }

  lemma AllBits(k: nat)
    requires k < 8
    ensures BitOf(0xFF, k)
  {
    MaskValue(k);
  }
}
