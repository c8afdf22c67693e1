/** Arithmetic on limb arrays, in place. */
module Arith {
  import opened Powers
  import opened Limbs

  // -------------------------------------------------------------------- carries

  lemma SplitWord(n: nat, p: nat)
    ensures (n % B) * p + (n / B) * (B * p) == n * p
  {
    var q, r := n / B, n % B;
    assert q * (B * p) == (q * B) * p;
    assert (q * B) * p + r * p == (q * B + r) * p;
  }

  /** One limb of an addition. */
  lemma AddStep(a: seq<Limb>, b: seq<Limb>, r: seq<Limb>, i: nat, carry: nat)
    requires i < |a| == |b| == |r| && ValTo(r, i) + carry * Base(i) == ValTo(a, i) + ValTo(b, i)
    ensures var n := carry + a[i] + b[i];
            ValTo(r[i := n % B], i + 1) + (n / B) * Base(i + 1) == ValTo(a, i + 1) + ValTo(b, i + 1)
  {
    hide ValTo, Base;
    var n, p := carry + a[i] + b[i], Base(i);
    ValStep(r[i := n % B], i);
    ValStep(a, i);
    ValStep(b, i);
    ValUpdate(r, i, n % B, i);
    SplitWord(n, p);
    assert n * p == carry * p + a[i] * p + b[i] * p;
  }

  lemma ValStep(s: seq<Limb>, n: nat)
    requires n < |s|
    ensures ValTo(s, n + 1) == ValTo(s, n) + s[n] * Base(n) && Base(n + 1) == B * Base(n)
  {
  }

  /** pn += b, modulo the width; b may be the same array. */
  method Add(pn: array<Limb>, b: array<Limb>)
    requires pn.Length == b.Length
    modifies pn
    ensures Val(pn[..]) == (old(Val(pn[..])) + old(Val(b[..]))) % Base(pn.Length)
  {
    hide ValTo, Base;
    ghost var a0, b0 := pn[..], b[..];
    var carry: nat := 0;
    ValNothing(a0, b0, pn[..]);
    for i := 0 to pn.Length
      invariant carry <= 1
      invariant forall j :: i <= j < pn.Length ==> pn[j] == a0[j] && b[j] == b0[j]
      invariant ValTo(pn[..], i) + carry * Base(i) == ValTo(a0, i) + ValTo(b0, i)
    {
      ghost var r: seq<Limb> := pn[..];
      AddStep(a0, b0, r, i, carry);
      var n: nat := carry + pn[i] + b[i];
      assert n < 0x1_0000_0000_0000_0000;
      var low: Limb := n % B;
      pn[i] := low;
      carry := n / B;
      assert pn[..] == r[i := low];
    }
    ValBound(pn[..], pn.Length);
    ModDrops(Val(a0) + Val(b0), Base(pn.Length), carry, Val(pn[..]));
  }

  lemma ValNothing(a: seq<Limb>, b: seq<Limb>, c: seq<Limb>)
    ensures ValTo(a, 0) == 0 && ValTo(b, 0) == 0 && ValTo(c, 0) == 0 && Base(0) == 1
  {
  }

  // ------------------------------------------------------------------- negation

  lemma {:induction false} AllOnes(s: seq<Limb>, n: nat)
    requires n <= |s| && forall i :: 0 <= i < n ==> s[i] == B - 1
    ensures ValTo(s, n) == Base(n) - 1
  {
    if n > 0 {
      AllOnes(s, n - 1);
    }
  }

  /** A carry that runs through `i` full limbs and stops. */
  lemma CarryStops(s: seq<Limb>, r: seq<Limb>, i: nat)
    requires i < |s| == |r| && (forall j :: 0 <= j < i ==> s[j] == B - 1 && r[j] == 0) && s[i] < B - 1 &&
             r[i] == s[i] + 1
    requires forall j :: i < j < |s| ==> r[j] == s[j]
    ensures Val(r) == Val(s) + 1
  {
    var t := s[i := s[i] + 1];
    ValUpdate(s, i, s[i] + 1, |s|);
    CarrySuffix(t, r, i, |s|);
    ValZero(r, i);
    AllOnes(t, i);
  }

  lemma {:induction false} CarrySuffix(t: seq<Limb>, r: seq<Limb>, i: nat, n: nat)
    requires i <= n <= |t| == |r| && forall j :: i <= j < n ==> t[j] == r[j]
    ensures ValTo(t, n) - ValTo(t, i) == ValTo(r, n) - ValTo(r, i)
  {
    if i < n {
      CarrySuffix(t, r, i, n - 1);
    }
  }

  /** ++pn, modulo the width. */
  method Increment(pn: array<Limb>)
    modifies pn
    ensures Val(pn[..]) == (old(Val(pn[..])) + 1) % Base(pn.Length)
  {
    hide ValTo, Base;
    ghost var s := pn[..];
    var i := 0;
    while i < pn.Length
      invariant i <= pn.Length
      invariant forall j :: 0 <= j < i ==> s[j] == B - 1 && pn[j] == 0
      invariant forall j :: i <= j < pn.Length ==> pn[j] == s[j]
    {
      pn[i] := (pn[i] + 1) % B;
      if pn[i] != 0 {
        CarryStops(s, pn[..], i);
        ValBound(pn[..], pn.Length);
        ModDrops(Val(pn[..]), Base(pn.Length), 0, Val(pn[..]));
        return;
      }
      i := i + 1;
    }
    AllOnes(s, pn.Length);
    ValZero(pn[..], pn.Length);
    ModDrops(Base(pn.Length), Base(pn.Length), 1, 0);
  }

  method Decrement(pn: array<Limb>)
    modifies pn
    ensures Val(pn[..]) == (old(Val(pn[..])) - 1) % Base(pn.Length)
  {
    hide ValTo, Base;
    ghost var s := pn[..];
    var i := 0;
    while i < pn.Length
      invariant i <= pn.Length
      invariant forall j :: 0 <= j < i ==> s[j] == 0 && pn[j] == B - 1
      invariant forall j :: i <= j < pn.Length ==> pn[j] == s[j]
    {
      pn[i] := (pn[i] + B - 1) % B;
      if pn[i] != B - 1 {
        CarryStops(pn[..], s, i);
        ValBound(pn[..], pn.Length);
        ModDrops(Val(pn[..]), Base(pn.Length), 0, Val(pn[..]));
        return;
      }
      i := i + 1;
    }
    AllOnes(pn[..], pn.Length);
    ValZero(s, pn.Length);
    BorrowWraps(Base(pn.Length));
  }

  lemma BorrowWraps(d: nat)
    requires d > 0
    ensures (0 - 1) % d == d - 1
  {
    assert (0 - 1) / d == -1;
  }

  lemma {:induction false} Complement(s: seq<Limb>, r: seq<Limb>, n: nat)
    requires n <= |s| == |r| && forall i :: 0 <= i < n ==> r[i] == B - 1 - s[i]
    ensures ValTo(r, n) == Base(n) - 1 - ValTo(s, n)
  {
    if n > 0 {
      Complement(s, r, n - 1);
      assert (B - 1 - s[n - 1]) * Base(n - 1) == B * Base(n - 1) - Base(n - 1) - s[n - 1] * Base(n - 1);
    }
  }

  /** A new number -b, modulo the width. */
  method Negate(b: array<Limb>) returns (r: array<Limb>)
    ensures fresh(r) && r.Length == b.Length && Val(r[..]) == (Base(b.Length) - Val(b[..])) % Base(b.Length)
  {
    hide ValTo, Base;
    r := new Limb[b.Length](i => 0);
    for i := 0 to b.Length
      invariant forall j :: 0 <= j < i ==> r[j] == B - 1 - b[j]
    {
      r[i] := B - 1 - b[i];
    }
    Complement(b[..], r[..], b.Length);
    Increment(r);
  }

  /** pn -= b, modulo the width. */
  method Subtract(pn: array<Limb>, b: array<Limb>)
    requires pn.Length == b.Length
    modifies pn
    ensures Val(pn[..]) == (old(Val(pn[..])) - old(Val(b[..]))) % Base(pn.Length)
  {
    hide ValTo, Base;
    var minus := Negate(b);
    ghost var x: int, y: int, m: nat := Val(pn[..]), Val(b[..]), Base(pn.Length);
    ModOfSum(x, m - y, m);
    ModWhole(x - y, m);
    Add(pn, minus);
  }

  lemma ModOfSum(x: int, y: int, m: nat)
    requires m > 0
    ensures (x + y % m) % m == (x + y) % m
  {
    var q, r := (x + y % m) / m, (x + y % m) % m;
    assert x + y == (q + y / m) * m + r;
    DivUnique(x + y, m, q + y / m, r);
  }

  lemma ModWhole(x: int, m: nat)
    requires m > 0
    ensures (x + m) % m == x % m
  {
    DivUnique(x + m, m, x / m + 1, x % m);
  }

  // ----------------------------------------------------------------- comparison

  lemma {:induction false} HigherDecides(a: seq<Limb>, b: seq<Limb>, i: nat, n: nat)
    requires i < n <= |a| == |b| && a[i] < b[i] && forall j :: i < j < n ==> a[j] == b[j]
    ensures ValTo(a, n) < ValTo(b, n)
    decreases n
  {
    if i == n - 1 {
      ValBound(a, i);
      MulMono(a[i] + 1, b[i], Base(i));
      assert (a[i] + 1) * Base(i) == a[i] * Base(i) + Base(i);
    } else {
      HigherDecides(a, b, i, n - 1);
    }
  }

  /** The sign of a - b. */
  method CompareTo(pn: array<Limb>, b: array<Limb>) returns (c: int)
    requires pn.Length == b.Length
    ensures c == if Val(pn[..]) < Val(b[..]) then -1 else if Val(pn[..]) > Val(b[..]) then 1 else 0
  {
    hide ValTo, Base;
    var i := pn.Length;
    while i > 0
      invariant 0 <= i <= pn.Length && forall j :: i <= j < pn.Length ==> pn[j] == b[j]
    {
      i := i - 1;
      if pn[i] < b[i] {
        HigherDecides(pn[..], b[..], i, pn.Length);
        return -1;
      }
      if pn[i] > b[i] {
        HigherDecides(b[..], pn[..], i, pn.Length);
        return 1;
      }
    }
    assert pn[..] == b[..];
    c := 0;
  }

  // ---------------------------------------------------------------- bit length

  /** The length in bits: the highest set bit plus one. */
  ghost predicate IsBits(v: nat, n: nat) {
    v < Pow2(n) && (n > 0 ==> Pow2(n - 1) <= v)
  }

  /** The bit length is unique. */
  lemma BitsUnique(v: nat, n: nat, m: nat)
    requires IsBits(v, n) && IsBits(v, m)
    ensures n == m
  {
    if n < m {
      Pow2Grows(n, m - 1);
    } else if m < n {
      Pow2Grows(m, n - 1);
    }
  }

  /** Whether a bit of a limb is set. */
  predicate BitAt(x: Limb, k: nat) {
    x / Pow2(k) % 2 == 1
  }

  /** A limb below 2^(k+1) with bit k clear is below 2^k. */
  lemma ClearTop(x: Limb, k: nat)
    requires x < Pow2(k + 1)
    ensures BitAt(x, k) ==> x >= Pow2(k)
    ensures !BitAt(x, k) ==> x < Pow2(k)
  {
    var p := Pow2(k);
    if x < p {
      DivUnique(x, p, 0, x);
    } else {
      DivUnique(x, p, 1, x - p);
    }
  }

  lemma LimbBits(s: seq<Limb>, pos: nat, k: nat)
    requires pos < |s| && (forall j :: pos < j < |s| ==> s[j] == 0) && Pow2(k) <= s[pos] < Pow2(k + 1)
    ensures IsBits(Val(s), 32 * pos + k + 1)
  {
    hide ValTo, Base, Pow2;
    ValHigh(s, pos + 1, |s|);
    ValStep(s, pos);
    ValBound(s, pos);
    BaseIsPow2(pos);
    Pow2Add(k, 32 * pos);
    Pow2Add(k + 1, 32 * pos);
    var p := Base(pos);
    MulMono(Pow2(k), s[pos], p);
    var x: nat := s[pos];
    MulMono(x + 1, Pow2(k + 1), p);
    assert (x + 1) * p == x * p + p;
  }

  method Bits(pn: array<Limb>) returns (n: nat)
    ensures IsBits(Val(pn[..]), n) && n <= 32 * pn.Length
  {
    hide ValTo, Base, Pow2;
    var pos := pn.Length;
    while pos > 0
      invariant 0 <= pos <= pn.Length && forall j :: pos <= j < pn.Length ==> pn[j] == 0
    {
      pos := pos - 1;
      if pn[pos] != 0 {
        Pow2Words();
        var k := 31;
        while k > 0
          invariant 0 <= k <= 31 && pn[pos] < Pow2(k + 1)
        {
          ClearTop(pn[pos], k);
          if BitAt(pn[pos], k) {
            LimbBits(pn[..], pos, k);
            return 32 * pos + k + 1;
          }
          k := k - 1;
        }
        Pow2Small();
        LimbBits(pn[..], pos, 0);
        return 32 * pos + 1;
      }
    }
    ValZero(pn[..], pn.Length);
    Pow2Small();
    n := 0;
  }

  lemma Pow2Small()
    ensures Pow2(0) == 1 && Pow2(1) == 2
  {
  }
}
