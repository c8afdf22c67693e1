/** Shifts of limb arrays. */
module ArithShift {
  import opened Powers
  import opened Limbs
  import opened Arith
  import opened ArithMul

  // ------------------------------------------------------------------- one limb

  /** Multiplying by p splits at r when p * r is the base. */
  lemma SplitAt(x: Limb, p: nat, r: nat)
    requires p >= 1 && r >= 1 && p * r == B
    ensures x * p / B == x / r && x * p % B == (x % r) * p
    ensures x / r < p && (x % r) * p + p <= B && ((x % r) * p) % p == 0
    ensures x * p == (x / r) * B + (x % r) * p
  {
    var hi, rest := x / r, x % r;
    calc {
      x * p;
      (hi * r + rest) * p;
      { Distribute(hi * r, rest, 0, p); }
      (hi * r) * p + rest * p;
      { assert (hi * r) * p == hi * (p * r); }
      hi * B + rest * p;
    }
    MulMono(rest + 1, r, p);
    Distribute(rest, 1, 0, p);
    assert r * p == p * r;
    DivUnique(x * p, B, hi, rest * p);
    assert p * rest == rest * p;
    MultipleOf(p, rest);
    DivBelow(x, r, p);
  }

  lemma WordPowers(s: nat)
    requires s <= 32
    ensures Pow2(s) * Pow2(32 - s) == B && Pow2(0) == 1 && Pow2(32) == B
  {
    Pow2Words();
    Pow2Add(s, 32 - s);
  }

  /** What a limb shifted left leaves in place and carries up. */
  function Stay(x: Limb, s: nat): Limb {
    x * Pow2(s) % B
  }

  function Up(x: Limb, s: nat): nat
    requires s < 32
  {
    DivNonNegative(x, Pow2(32 - s));
    if s == 0 then 0 else x / Pow2(32 - s)
  }

  lemma LeftParts(x: Limb, s: nat)
    requires s < 32
    ensures x * Pow2(s) == Up(x, s) * B + Stay(x, s)
    ensures Up(x, s) < Pow2(s) && Up(x, s) < B && Stay(x, s) % Pow2(s) == 0 && Stay(x, s) + Pow2(s) <= B
  {
    hide Pow2;
    WordPowers(s);
    if s > 0 {
      SplitAt(x, Pow2(s), Pow2(32 - s));
      DivBelow(x, Pow2(32 - s), B);
    }
  }

  /** What a limb shifted right leaves in place and passes down. */
  function Remain(x: Limb, s: nat): nat {
    DivNonNegative(x, Pow2(s));
    x / Pow2(s)
  }

  function Down(x: Limb, s: nat): Limb
    requires s < 32
  {
    if s == 0 then 0 else x * Pow2(32 - s) % B
  }

  lemma RightParts(x: Limb, s: nat)
    requires s < 32
    ensures Pow2(s) * Down(x, s) == (x % Pow2(s)) * B && x == Pow2(s) * Remain(x, s) + x % Pow2(s)
    ensures Remain(x, s) < Pow2(32 - s) && Remain(x, s) < B && Down(x, s) % Pow2(32 - s) == 0 &&
            Down(x, s) + Pow2(32 - s) <= B
  {
    hide Pow2;
    var p, q := Pow2(s), Pow2(32 - s);
    WordPowers(s);
    assert q * p == p * q;
    SplitAt(x, q, p);
    assert p * ((x % p) * q) == (x % p) * (p * q);
    assert p * (x / p) == (x / p) * p;
    DivBelow(x, p, B);
  }

  // ------------------------------------------------------------------------ left

  /** The product so far; `q` collects what was shifted out. */
  ghost predicate LeftInv(a: seq<Limb>, r: seq<Limb>, k: nat, s: nat, i: nat, q: nat)
    requires i <= |a|
  {
    && |r| == |a| && Val(r) + q * Base(|a|) == ValTo(a, i) * Pow2(s) * Base(k)
    && (forall j :: i + k < j < |r| ==> r[j] == 0) && (i + k < |r| ==> r[i + k] < Pow2(s))
  }

  /** A limb at a place, or beyond the width. */
  lemma PutLimb(r: seq<Limb>, at: nat, x: nat) returns (q: nat)
    requires at < |r| ==> r[at] + x < B
    ensures at < |r| ==> q == 0 && Val(r[at := r[at] + x]) == Val(r) + x * Base(at)
    ensures at >= |r| ==> q * Base(|r|) == x * Base(at)
  {
    hide ValTo, Base;
    if at < |r| {
      q := 0;
      ValUpdate(r, at, r[at] + x, |r|);
    } else {
      q := x * Base(at - |r|);
      BaseAdd(at - |r|, |r|);
      assert x * Base(at - |r|) * Base(|r|) == x * (Base(at - |r|) * Base(|r|));
    }
  }

  function Put(r: seq<Limb>, at: nat, x: nat): seq<Limb>
    requires at < |r| ==> r[at] + x < B
  {
    if at < |r| then r[at := r[at] + x] else r
  }

  /** What a limb contributes to the shifted number. */
  lemma LeftTerm(x: Limb, s: nat, i: nat, k: nat, v: nat)
    requires s < 32
    ensures (v + x * Base(i)) * Pow2(s) * Base(k) ==
            v * Pow2(s) * Base(k) + Up(x, s) * Base(i + k + 1) + Stay(x, s) * Base(i + k)
  {
    hide Base, Pow2, Up, Stay;
    var p, c, u, y := Pow2(s), Base(k), Up(x, s), Stay(x, s);
    LeftParts(x, s);
    BaseAdd(i, k);
    BaseNext(i + k);
    Distribute(v, x * Base(i), 0, p);
    Distribute(v * p, x * Base(i) * p, 0, c);
    assert x * Base(i) * p * c == (x * p) * (Base(i) * c);
    Distribute(u * B, y, 0, Base(i) * c);
    assert (u * B) * (Base(i) * c) == u * (B * (Base(i) * c));
  }

  lemma BaseNext(i: nat)
    ensures Base(i + 1) == B * Base(i)
  {
  }

  lemma LeftStep(a: seq<Limb>, r: seq<Limb>, k: nat, s: nat, i: nat, q: nat) returns (q': nat)
    requires s < 32 && i < |a| && LeftInv(a, r, k, s, i, q)
    ensures Up(a[i], s) < B && (i + k < |r| ==> r[i + k] + Stay(a[i], s) < B) && (i + k + 1 < |r| ==> r[i + k + 1] == 0)
    ensures Or(0, Up(a[i], s)) == Up(a[i], s) &&
            (i + k < |r| ==> Or(r[i + k], Stay(a[i], s)) == r[i + k] + Stay(a[i], s))
    ensures LeftInv(a, Put(Put(r, i + k + 1, Up(a[i], s)), i + k, Stay(a[i], s)), k, s, i + 1, q')
  {
    hide ValTo, Base, Pow2, Up, Stay, Or;
    var u, y, w := Up(a[i], s), Stay(a[i], s), Base(|a|);
    LeftParts(a[i], s);
    OrZero(u);
    if i + k < |r| {
      OrDisjoint(r[i + k], y, s);
    }
    var q1 := PutLimb(r, i + k + 1, u);
    var r1 := Put(r, i + k + 1, u);
    var q2 := PutLimb(r1, i + k, y);
    ValStep(a, i);
    LeftTerm(a[i], s, i, k, ValTo(a, i));
    Distribute(q, q1, q2, w);
    q' := q + q1 + q2;
  }

  lemma OrZero(x: nat)
    ensures Or(0, x) == x
  {
  }

  /** pn <<= shift, modulo the width. */
  method ShiftLeft(pn: array<Limb>, shift: nat)
    modifies pn
    ensures Val(pn[..]) == old(Val(pn[..])) * Pow2(shift) % Base(pn.Length)
  {
    hide ValTo, Base, Pow2, Up, Stay, Or, LeftInv;
    var a: seq<Limb> := pn[..];
    Clear(pn);
    var k, s := shift / 32, shift % 32;
    ghost var q: nat := 0;
    LeftStart(a, pn[..], k, s);
    for i := 0 to pn.Length
      invariant LeftInv(a, pn[..], k, s, i, q)
    {
      ghost var r: seq<Limb> := pn[..];
      q := LeftStep(a, r, k, s, i, q);
      UpIs(a[i], s);
      if i + k + 1 < pn.Length && s != 0 {
        pn[i + k + 1] := Or(pn[i + k + 1], a[i] / Pow2(32 - s));
      }
      assert pn[..] == Put(r, i + k + 1, Up(a[i], s));
      if i + k < pn.Length {
        pn[i + k] := Or(pn[i + k], a[i] * Pow2(s) % B);
      }
      assert pn[..] == Put(Put(r, i + k + 1, Up(a[i], s)), i + k, Stay(a[i], s));
    }
    LeftDone(a, pn[..], k, s, q, shift);
  }

  method Clear(pn: array<Limb>)
    modifies pn
    ensures forall j :: 0 <= j < pn.Length ==> pn[j] == 0
  {
    for i := 0 to pn.Length
      invariant forall j :: 0 <= j < i ==> pn[j] == 0
    {
      pn[i] := 0;
    }
  }

  lemma UpIs(x: Limb, s: nat)
    requires s < 32
    ensures Up(x, s) == (if s == 0 then 0 else x / Pow2(32 - s)) && Stay(x, s) == x * Pow2(s) % B
  {
  }

  lemma LeftStart(a: seq<Limb>, r: seq<Limb>, k: nat, s: nat)
    requires |r| == |a| && forall j :: 0 <= j < |r| ==> r[j] == 0
    ensures LeftInv(a, r, k, s, 0, 0)
  {
    ValZero(r, |r|);
  }

  lemma LeftDone(a: seq<Limb>, r: seq<Limb>, k: nat, s: nat, q: nat, shift: nat)
    requires LeftInv(a, r, k, s, |a|, q) && shift == 32 * k + s
    ensures Val(r) == Val(a) * Pow2(shift) % Base(|a|) && |r| == |a|
  {
    hide ValTo, Base, Pow2;
    BaseIsPow2(k);
    Pow2Add(s, 32 * k);
    assert Val(a) * Pow2(s) * Base(k) == Val(a) * (Pow2(s) * Base(k));
    ValBound(r, |r|);
    ModDrops(Val(a) * Pow2(shift), Base(|a|), q, Val(r));
  }

  // ----------------------------------------------------------------------- right

  /** The quotient so far; `c` is the remainder below the lowest limb. */
  ghost predicate RightInv(a: seq<Limb>, r: seq<Limb>, k: nat, s: nat, i: nat, c: nat)
    requires i <= |a| && s < 32
  {
    && |r| == |a|
    && (i <= k ==> c == 0 && forall j :: 0 <= j < |r| ==> r[j] == 0)
    && (k < i ==>
          && ValTo(a, i) == ValTo(a, k) + Base(k) * (Pow2(s) * Val(r) + c) && c < Pow2(s)
          && r[i - k - 1] < Pow2(32 - s) && forall j :: i - k <= j < |r| ==> r[j] == 0)
  }

  lemma RightFirst(a: seq<Limb>, r: seq<Limb>, k: nat, s: nat)
    requires s < 32 && k < |a| && RightInv(a, r, k, s, k, 0)
    ensures Remain(a[k], s) < B && RightInv(a, r[0 := Remain(a[k], s)], k, s, k + 1, a[k] % Pow2(s))
  {
    hide ValTo, Base, Pow2, Remain, Down;
    var x, y := a[k], Remain(a[k], s);
    RightParts(x, s);
    ValZero(r, |r|);
    ValUpdate(r, 0, y, |r|);
    ValStep(a, k);
    ValNothing(a, a, a);
    assert x * Base(k) == Base(k) * x;
  }

  lemma RightTerm(x: Limb, s: nat, m: nat)
    requires s < 32
    ensures Pow2(s) * (Down(x, s) * Base(m) + Remain(x, s) * Base(m + 1)) == x * Base(m + 1)
  {
    hide Base, Pow2, Remain, Down;
    RightParts(x, s);
    BaseNext(m);
    RightAlgebra(Pow2(s), Down(x, s), Remain(x, s), Base(m), Base(m + 1), x % Pow2(s));
  }

  lemma RightAlgebra(p: nat, d: nat, y: nat, b: nat, c: nat, rest: nat)
    requires p * d == rest * B && c == B * b
    ensures p * (d * b + y * c) == (p * y + rest) * c
  {
    assert p * (d * b) == rest * c by {
      assert p * (d * b) == (p * d) * b;
      assert (rest * B) * b == rest * (B * b);
    }
    assert p * (y * c) == (p * y) * c;
    Distribute(d * b, y * c, 0, p);
    Distribute(p * y, rest, 0, c);
  }

  lemma RightValue(p: nat, b: nat, v: nat, c: nat, t: nat, d: nat, y: nat)
    requires p * (d + y) == t
    ensures b * (p * (v + d + y) + c) == b * (p * v + c) + b * t
  {
    assert p * (v + d + y) == p * v + p * (d + y);
    assert b * (p * v + c + t) == b * (p * v + c) + b * t;
  }

  lemma AddLimb(r: seq<Limb>, at: nat, x: nat)
    requires at < |r| && r[at] + x < B
    ensures Val(r[at := r[at] + x]) == Val(r) + x * Base(at)
  {
    ValUpdate(r, at, r[at] + x, |r|);
  }

  lemma MulSwap(a: nat, x: nat, b: nat)
    ensures a * (x * b) == x * (a * b)
  {
  }

  lemma RightNext(a: seq<Limb>, r: seq<Limb>, k: nat, s: nat, i: nat, c: nat)
    requires s < 32 && k < i < |a| && RightInv(a, r, k, s, i, c)
    ensures var d, y := Down(a[i], s), Remain(a[i], s);
            && r[i - k - 1] + d < B && y < B && Or(r[i - k - 1], d) == r[i - k - 1] + d
            && RightInv(a, r[i - k - 1 := r[i - k - 1] + d][i - k := y], k, s, i + 1, c)
  {
    hide ValTo, Base, Pow2, Remain, Down, Or;
    var m, x := i - k - 1, a[i];
    var d, y := Down(x, s), Remain(x, s);
    RightParts(x, s);
    OrDisjoint(r[m], d, 32 - s);
    var r1 := r[m := r[m] + d];
    AddLimb(r, m, d);
    AddLimb(r1, m + 1, y);
    ValStep(a, i);
    BaseAdd(k, m + 1);
    RightTerm(x, s, m);
    RightValue(Pow2(s), Base(k), Val(r), c, x * Base(m + 1), d * Base(m), y * Base(m + 1));
    MulSwap(Base(k), x, Base(m + 1));
  }

  /** pn >>= shift. */
  method ShiftRight(pn: array<Limb>, shift: nat)
    modifies pn
    ensures Val(pn[..]) == old(Val(pn[..])) / Pow2(shift)
  {
    hide ValTo, Base, Pow2, Remain, Down, Or, RightInv;
    var a: seq<Limb> := pn[..];
    Clear(pn);
    var k, s := shift / 32, shift % 32;
    ghost var c: nat := 0;
    RightStart(a, pn[..], k, s);
    for i := 0 to pn.Length
      invariant RightInv(a, pn[..], k, s, i, c)
    {
      ghost var r: seq<Limb> := pn[..];
      RemainIs(a[i], s);
      if i < k {
        RightSkips(a, r, k, s, i, c);
      } else if i == k {
        RightZero(a, r, k, s, c);
        RightFirst(a, r, k, s);
        c := a[k] % Pow2(s);
      } else {
        RightNext(a, r, k, s, i, c);
        RightTop(a, r, k, s, i, c);
      }
      if i - k - 1 >= 0 && s != 0 {
        pn[i - k - 1] := Or(pn[i - k - 1], a[i] * Pow2(32 - s) % B);
      }
      if i - k >= 0 {
        OrZero(Remain(a[i], s));
        pn[i - k] := Or(pn[i - k], a[i] / Pow2(s));
        assert i == k ==> pn[..] == r[0 := Remain(a[i], s)];
        assert i > k ==> pn[..] == r[i - k - 1 := r[i - k - 1] + Down(a[i], s)][i - k := Remain(a[i], s)];
      }
    }
    RightDone(a, pn[..], k, s, c, shift);
  }

  lemma RemainIs(x: Limb, s: nat)
    requires s < 32
    ensures Remain(x, s) == x / Pow2(s) && Down(x, s) == (if s == 0 then 0 else x * Pow2(32 - s) % B)
  {
  }

  lemma RightStart(a: seq<Limb>, r: seq<Limb>, k: nat, s: nat)
    requires s < 32 && |r| == |a| && forall j :: 0 <= j < |r| ==> r[j] == 0
    ensures RightInv(a, r, k, s, 0, 0)
  {
  }

  lemma RightSkips(a: seq<Limb>, r: seq<Limb>, k: nat, s: nat, i: nat, c: nat)
    requires s < 32 && i < k && i < |a| && RightInv(a, r, k, s, i, c)
    ensures RightInv(a, r, k, s, i + 1, c)
  {
  }

  lemma RightZero(a: seq<Limb>, r: seq<Limb>, k: nat, s: nat, c: nat)
    requires s < 32 && k < |a| && RightInv(a, r, k, s, k, c)
    ensures c == 0 && |r| == |a| && r[0] == 0
  {
  }

  lemma RightTop(a: seq<Limb>, r: seq<Limb>, k: nat, s: nat, i: nat, c: nat)
    requires s < 32 && k < i < |a| && RightInv(a, r, k, s, i, c)
    ensures |r| == |a| && r[i - k] == 0
  {
  }

  lemma RightDone(a: seq<Limb>, r: seq<Limb>, k: nat, s: nat, c: nat, shift: nat)
    requires s < 32 && RightInv(a, r, k, s, |a|, c) && shift == 32 * k + s
    ensures Val(r) == Val(a) / Pow2(shift)
  {
    hide ValTo, Base, Pow2;
    BaseIsPow2(k);
    Pow2Add(32 * k, s);
    if |a| <= k {
      ValZero(r, |r|);
      ValBound(a, |a|);
      BaseIsPow2(|a|);
      Pow2Grows(32 * |a|, shift);
      DivUnique(Val(a), Pow2(shift), 0, Val(a));
    } else {
      ValBound(a, k);
      QuotientIs(ValTo(a, k), Base(k), Pow2(s), Val(r), c);
    }
  }

  lemma QuotientIs(low: nat, b: nat, p: nat, v: nat, c: nat)
    requires low < b && c < p
    ensures (low + b * (p * v + c)) / (b * p) == v
  {
    assert b * (p * v + c) == v * (b * p) + b * c;
    MulMono(c + 1, p, b);
    assert (c + 1) * b == b * c + b;
    assert p * b == b * p;
    DivUnique(low + b * (p * v + c), b * p, v, low + b * c);
  }
}
