/** Bits of 64-bit words. */
module Bits64 {

  predicate Bit(w: bv64, j: bv64)
    requires j < 64
  {
    (w >> j) & 1 != 0
  }

  function One(j: bv64): bv64
    requires j < 64
  {
    1 << j
  }

  lemma OneBit(b: bv64, j: bv64)
    requires b < 64 && j < 64
    ensures Bit(One(b), j) == (b == j)
  {
  }

  function And(w: bv64, v: bv64): bv64 {
    w & v
  }

  function Or(w: bv64, v: bv64): bv64 {
    w | v
  }

  function Xor(w: bv64, v: bv64): bv64 {
    w ^ v
  }

  function Not(w: bv64): bv64 {
    !w
  }

  lemma AndBitRaw(w: bv64, v: bv64, j: bv64)
    requires j < 64
    ensures Bit(w & v, j) == (Bit(w, j) && Bit(v, j))
  {
  }

  lemma AndBit(w: bv64, v: bv64, j: bv64)
    requires j < 64
    ensures Bit(And(w, v), j) == (Bit(w, j) && Bit(v, j))
  {
    hide Bit;
    AndBitRaw(w, v, j);
  }

  lemma OrBitRaw(w: bv64, v: bv64, j: bv64)
    requires j < 64
    ensures Bit(w | v, j) == (Bit(w, j) || Bit(v, j))
  {
  }

  lemma OrBit(w: bv64, v: bv64, j: bv64)
    requires j < 64
    ensures Bit(Or(w, v), j) == (Bit(w, j) || Bit(v, j))
  {
    hide Bit;
    OrBitRaw(w, v, j);
  }

  lemma XorBitRaw(w: bv64, v: bv64, j: bv64)
    requires j < 64
    ensures Bit(w ^ v, j) == (Bit(w, j) != Bit(v, j))
  {
  }

  lemma XorBit(w: bv64, v: bv64, j: bv64)
    requires j < 64
    ensures Bit(Xor(w, v), j) == (Bit(w, j) != Bit(v, j))
  {
    hide Bit;
    XorBitRaw(w, v, j);
  }

  lemma NotBit(w: bv64, j: bv64)
    requires j < 64
    ensures Bit(Not(w), j) == !Bit(w, j)
  {
  }

  /** A word with all bits alike. */
  function Fill(x: bool): bv64 {
    if x then 0xFFFF_FFFF_FFFF_FFFF else 0
  }

  lemma FillBit(x: bool, j: bv64)
    requires j < 64
    ensures Bit(Fill(x), j) == x
  {
  }

  /** A word with one bit replaced. */
  function Put(w: bv64, b: bv64, x: bool): bv64
    requires b < 64
  {
    Or(And(w, Not(One(b))), if x then One(b) else 0)
  }

  lemma PutBit(w: bv64, b: bv64, x: bool, j: bv64)
    requires b < 64 && j < 64
    ensures Bit(Put(w, b, x), j) == if j == b then x else Bit(w, j)
  {
    hide Bit, One, And, Or, Not;
    OneBit(b, j);
    NotBit(One(b), j);
    AndBit(w, Not(One(b)), j);
    OrBit(And(w, Not(One(b))), if x then One(b) else 0, j);
    ZeroBit(j);
  }

  lemma ZeroBit(j: bv64)
    requires j < 64
    ensures !Bit(0, j)
  {
  }
}
