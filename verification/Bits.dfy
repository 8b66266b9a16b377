/** Single bits of bytes, as the packed flags and masks of the code use them. */
module Bits {

  predicate Bit(b: bv8, k: nat)
    requires k < 8
  {
    b & (1 << k) != 0
  }

  // Or-ing a flag into a clear place sets that place and no other.
  lemma {:induction false} SetBit(b: bv8, flag: bool, k: nat, j: nat)
    requires k < 8 && j < 8 && !Bit(b, k)
    ensures Bit(b | ((if flag then 1 else 0) << k), j) <==> if j == k then flag else Bit(b, j)
  {
  }

  lemma {:induction false} OrBit(b: bv8, k: nat, j: nat)
    requires k < 8 && j < 8
    ensures Bit(b | (1 << k), j) <==> j == k || Bit(b, j)
  {
  }

  lemma {:induction false} AndNotBit(b: bv8, k: nat, j: nat)
    requires k < 8 && j < 8
    ensures Bit(b & !(1 << k), j) <==> j != k && Bit(b, j)
  {
  }

  lemma {:induction false} AllBits(j: nat)
    requires j < 8
    ensures Bit(0xFF, j)
  {
  }
}
