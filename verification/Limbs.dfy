/** Little-endian sequences of 32-bit limbs and the numbers they stand for. */
module Limbs {
  import opened Powers

  const B: nat := 0x1_0000_0000

  type Limb = x: nat | x < B

  /** The weight of a limb. */
  function Base(i: nat): (r: nat)
    ensures r >= 1
  {
    if i == 0 then 1 else B * Base(i - 1)
  }

  /** The number in the first `n` limbs. */
  function ValTo(s: seq<Limb>, n: nat): nat
    requires n <= |s|
  {
    if n == 0 then 0 else ValTo(s, n - 1) + s[n - 1] * Base(n - 1)
  }

  function Val(s: seq<Limb>): nat {
    ValTo(s, |s|)
  }

  lemma {:induction false} ValBound(s: seq<Limb>, n: nat)
    requires n <= |s|
    ensures ValTo(s, n) < Base(n)
  {
    if n > 0 {
      ValBound(s, n - 1);
      MulMono(s[n - 1], B - 1, Base(n - 1));
    }
  }

  /** Changing one limb changes the number by the difference at its weight. */
  lemma {:induction false} ValUpdate(s: seq<Limb>, i: nat, x: Limb, n: nat)
    requires i < |s| && n <= |s|
    ensures ValTo(s[i := x], n) == ValTo(s, n) + if i < n then (x - s[i]) * Base(i) else 0
  {
    if n > 0 {
      ValUpdate(s, i, x, n - 1);
      assert (x - s[i]) * Base(i) == x * Base(i) - s[i] * Base(i);
    }
  }

  lemma {:induction false} ValZero(s: seq<Limb>, n: nat)
    requires n <= |s| && forall i :: 0 <= i < n ==> s[i] == 0
    ensures ValTo(s, n) == 0
  {
    if n > 0 {
      ValZero(s, n - 1);
    }
  }

  /** High limbs that are zero do not count. */
  lemma {:induction false} ValHigh(s: seq<Limb>, m: nat, n: nat)
    requires m <= n <= |s| && forall i :: m <= i < n ==> s[i] == 0
    ensures ValTo(s, n) == ValTo(s, m)
  {
    if m < n {
      ValHigh(s, m, n - 1);
    }
  }

  lemma {:induction false} BaseAdd(i: nat, j: nat)
    ensures Base(i + j) == Base(i) * Base(j)
  {
    if i > 0 {
      BaseAdd(i - 1, j);
      assert Base(i + j) == B * (Base(i - 1) * Base(j)) == (B * Base(i - 1)) * Base(j);
    }
  }

  lemma {:induction false} BaseIsPow2(i: nat)
    ensures Base(i) == Pow2(32 * i)
  {
    if i > 0 {
      BaseIsPow2(i - 1);
      Pow2Words();
      Pow2Add(32, 32 * (i - 1));
    }
  }

  // ------------------------------------------------------------------------ bits

  /** Bitwise or. */
  function Or(x: nat, y: nat): nat
    decreases x + y
  {
    if x == 0 then y
    else if y == 0 then x
    else (if x % 2 == 1 || y % 2 == 1 then 1 else 0) + 2 * Or(x / 2, y / 2)
  }

  /** On numbers without common bits, or is addition. */
  lemma {:induction false} OrDisjoint(x: nat, y: nat, s: nat)
    requires x < Pow2(s) && y % Pow2(s) == 0
    ensures Or(x, y) == x + y == Or(y, x)
  {
    if x != 0 && y != 0 {
      var p := Pow2(s - 1);
      HalveMultiple(y, p);
      OrDisjoint(x / 2, y / 2, s - 1);
    }
  }

  lemma HalveMultiple(y: nat, p: nat)
    requires p > 0 && y % (2 * p) == 0
    ensures y % 2 == 0 && (y / 2) % p == 0
  {
    var q := y / (2 * p);
    assert y == 2 * p * q == 2 * (p * q);
    MultipleOf(p, q);
  }

  lemma MultipleOf(p: nat, q: nat)
    requires p > 0
    ensures (p * q) % p == 0 && (p * q) / p == q
  {
    DivUnique(p * q, p, q, 0);
  }

  /** Quotient and remainder are unique. */
  lemma DivUnique(n: int, d: nat, q: int, r: nat)
    requires d > 0 && n == q * d + r && r < d
    ensures n / d == q && n % d == r
  {
    var q', r' := n / d, n % d;
    assert (q - q') * d == r' - r;
    MulApart(q - q', d);
  }

  lemma MulApart(k: int, d: nat)
    ensures (k >= 1 ==> k * d >= d) && (k <= -1 ==> k * d <= -(d as int))
  {
  }

  lemma MulAssoc(x: nat, y: nat, z: nat)
    ensures x * (y * z) == (x * y) * z
  {
  }

  lemma MulMono(x: nat, y: nat, p: nat)
    requires x <= y
    ensures x * p <= y * p
  {
  }

  lemma DivNonNegative(n: nat, d: nat)
    requires d > 0
    ensures 0 <= n / d
  {
    MulApart(n / d, d);
  }

  /** Quotient and remainder of a division by at least two. */
  lemma DivParts(n: nat, d: nat)
    requires d >= 2
    ensures n == (n / d) * d + n % d && 0 <= n % d < d && 0 <= n / d && (n > 0 ==> n / d < n)
  {
    DivNonNegative(n, d);
    if n > 0 {
      MulMono(2, d, n);
      DivBelow(n, d, n);
    }
  }

  lemma DivBelow(n: nat, d: nat, q: nat)
    requires d > 0 && n < q * d
    ensures n / d < q
  {
    MulApart(n / d - q + 1, d);
    assert (n / d - q + 1) * d == (n / d) * d - q * d + d;
  }

  /** Numbers that differ by a multiple have the same remainder. */
  lemma ModDrops(n: nat, d: nat, q: nat, m: nat)
    requires d > 0 && n == m + q * d && m < d
    ensures n % d == m
  {
    DivUnique(n, d, q, m);
  }
}
