/** Big-endian digit sequences to any base. */
module Digits {
  import Limbs

  function Pow(b: nat, n: nat): (r: nat)
    ensures b >= 1 ==> r >= 1
  {
    if n == 0 then 1 else b * Pow(b, n - 1)
  }

  lemma {:induction false} PowAdd(b: nat, m: nat, n: nat)
    ensures Pow(b, m + n) == Pow(b, m) * Pow(b, n)
  {
    if m > 0 {
      PowAdd(b, m - 1, n);
      Limbs.MulAssoc(b, Pow(b, m - 1), Pow(b, n));
    }
  }

  lemma {:induction false} PowMul(b: nat, m: nat, n: nat)
    ensures Pow(b, m * n) == Pow(Pow(b, m), n)
  {
    if n > 0 {
      PowMul(b, m, n - 1);
      PowAdd(b, m, m * (n - 1));
      assert m * n == m + m * (n - 1);
    }
  }

  lemma {:induction false} PowMono(a: nat, b: nat, n: nat)
    requires a <= b
    ensures Pow(a, n) <= Pow(b, n)
  {
    if n > 0 {
      PowMono(a, b, n - 1);
      Limbs.MulMono(a, b, Pow(a, n - 1));
      Limbs.MulMono(Pow(a, n - 1), Pow(b, n - 1), b);
    }
  }

  lemma {:induction false} PowGrows(b: nat, m: nat, n: nat)
    requires b >= 1 && m <= n
    ensures Pow(b, m) <= Pow(b, n) && (b >= 2 && m < n ==> Pow(b, m) < Pow(b, n))
    decreases n
  {
    if m < n {
      PowGrows(b, m, n - 1);
      Limbs.MulMono(1, b, Pow(b, n - 1));
      if b >= 2 {
        Limbs.MulMono(2, b, Pow(b, n - 1));
      }
    }
  }

  ghost predicate AreDigits(d: nat, s: seq<nat>) {
    forall i :: 0 <= i < |s| ==> s[i] < d
  }

  /** The value of a digit sequence. */
  function Value(d: nat, s: seq<nat>): nat {
    if s == [] then 0 else Value(d, s[..|s| - 1]) * d + s[|s| - 1]
  }

  lemma {:induction false} ValueBound(d: nat, s: seq<nat>)
    requires d >= 1 && AreDigits(d, s)
    ensures Value(d, s) < Pow(d, |s|)
  {
    if s != [] {
      var u := s[..|s| - 1];
      ValueBound(d, u);
      Limbs.MulMono(Value(d, u) + 1, Pow(d, |u|), d);
      FirstAlgebra(1, d, 1, Value(d, u));
    }
  }

  lemma ValueMore(d: nat, s: seq<nat>, x: nat)
    ensures Value(d, s + [x]) == Value(d, s) * d + x
  {
    assert (s + [x])[..|s + [x]| - 1] == s;
  }

  /** The first digit counts most. */
  lemma {:induction false} ValueFirst(d: nat, x: nat, s: seq<nat>)
    ensures Value(d, [x] + s) == x * Pow(d, |s|) + Value(d, s)
    decreases |s|
  {
    if s == [] {
      assert [x] + s == [] + [x];
      ValueMore(d, [], x);
    } else {
      var n := |s| - 1;
      ValueFirst(d, x, s[..n]);
      assert [x] + s == ([x] + s[..n]) + [s[n]];
      ValueMore(d, [x] + s[..n], s[n]);
      FirstAlgebra(x, d, Pow(d, n), Value(d, s[..n]));
    }
  }

  lemma FirstAlgebra(x: nat, d: nat, p: nat, v: nat)
    ensures (x * p + v) * d == x * (d * p) + v * d
  {
    Limbs.MulAssoc(x, p, d);
  }

  // --------------------------------------------------------------- canonical digits

  predicate Canonical(s: seq<nat>) {
    s == [] || s[0] != 0
  }

  /** Leading zeros do not count. */
  function Strip(s: seq<nat>): (r: seq<nat>)
    ensures Canonical(r) && |r| <= |s| && r == s[|s| - |r|..] && forall i :: 0 <= i < |s| - |r| ==> s[i] == 0
  {
    if s != [] && s[0] == 0 then Strip(s[1..]) else s
  }

  lemma {:induction false} StripValue(d: nat, s: seq<nat>)
    ensures Value(d, Strip(s)) == Value(d, s)
  {
    if s != [] && s[0] == 0 {
      StripValue(d, s[1..]);
      ValueFirst(d, 0, s[1..]);
      assert [0] + s[1..] == s;
    }
  }

  /** A value has one canonical digit sequence. */
  lemma {:induction false} CanonicalIsUnique(d: nat, a: seq<nat>, b: seq<nat>)
    requires d >= 2 && AreDigits(d, a) && AreDigits(d, b) && Canonical(a) && Canonical(b) && Value(d, a) == Value(d, b)
    ensures a == b
    decreases |a| + |b|
  {
    if a == [] {
      if b != [] {
        PositiveValue(d, b);
      }
    } else if b == [] {
      PositiveValue(d, a);
    } else {
      var u, v := a[..|a| - 1], b[..|b| - 1];
      Limbs.DivUnique(Value(d, a), d, Value(d, u), a[|a| - 1]);
      Limbs.DivUnique(Value(d, b), d, Value(d, v), b[|b| - 1]);
      CanonicalIsUnique(d, u, v);
      assert a == u + [a[|a| - 1]] && b == v + [b[|b| - 1]];
    }
  }

  lemma PositiveValue(d: nat, s: seq<nat>)
    requires d >= 2 && s != [] && s[0] != 0
    ensures Value(d, s) > 0
  {
    assert s == [s[0]] + s[1..];
    ValueFirst(d, s[0], s[1..]);
    Limbs.MulMono(1, s[0], Pow(d, |s| - 1));
  }

  // -------------------------------------------------------- multiplying in place

  /** The value of the digits from `i` on. */
  function Tail(d: nat, s: seq<nat>, i: nat): nat
    requires i <= |s|
  {
    Value(d, s[i..])
  }

  lemma TailStep(d: nat, s: seq<nat>, i: nat)
    requires i < |s|
    ensures Tail(d, s, i) == s[i] * Pow(d, |s| - 1 - i) + Tail(d, s, i + 1)
  {
    assert s[i..] == [s[i]] + s[i + 1..];
    ValueFirst(d, s[i], s[i + 1..]);
  }

  lemma CarryAlgebra(d: nat, m: nat, p: nat, carry: nat, x: nat, t: nat, done: nat, was: nat, c: nat)
    requires d >= 1 && done + carry * p == was * m + c && t == carry + m * x
    ensures (t % d) * p + done + (t / d) * (d * p) == (x * p + was) * m + c
  {
    var q, r := t / d, t % d;
    assert q * (d * p) == (q * d) * p;
    assert (q * d) * p + r * p == t * p;
    assert t * p == carry * p + (m * x) * p;
    assert (x * p + was) * m == (m * x) * p + was * m;
  }

  // ------------------------------------------------------------- changing the base

  /** The canonical digits of a number. */
  function ToDigits(d: nat, v: nat): seq<nat>
    requires d >= 2
  {
    Limbs.DivParts(v, d);
    if v == 0 then [] else ToDigits(d, v / d) + [v % d]
  }

  lemma {:induction false} ToDigitsIs(d: nat, v: nat)
    requires d >= 2
    ensures var s := ToDigits(d, v); AreDigits(d, s) && Canonical(s) && Value(d, s) == v
  {
    hide Value;
    Limbs.DivParts(v, d);
    if v == 0 {
      NoValue(d);
    } else {
      ToDigitsIs(d, v / d);
      ValueMore(d, ToDigits(d, v / d), v % d);
      if v / d == 0 {
        NoValue(d);
      }
    }
  }

  lemma NoValue(d: nat)
    ensures Value(d, []) == 0
  {
  }

  function Zeros(n: nat): (r: seq<nat>)
    ensures |r| == n && forall i :: 0 <= i < n ==> r[i] == 0
  {
    seq(n, i => 0)
  }

  /** Digits to another base, each leading zero kept as one. */
  function Convert(d: nat, e: nat, s: seq<nat>): seq<nat>
    requires e >= 2
  {
    Zeros(|s| - |Strip(s)|) + ToDigits(e, Value(d, s))
  }

  lemma {:induction false} ZerosValue(d: nat, n: nat, s: seq<nat>)
    ensures Value(d, Zeros(n) + s) == Value(d, s)
  {
    if n == 0 {
      assert Zeros(0) + s == s;
    } else {
      ZerosValue(d, n - 1, s);
      ValueFirst(d, 0, Zeros(n - 1) + s);
      assert Zeros(n) + s == [0] + (Zeros(n - 1) + s);
    }
  }

  lemma StripZeros(n: nat, s: seq<nat>)
    requires Canonical(s)
    ensures Strip(Zeros(n) + s) == s
  {
    hide Strip;
    var t := Zeros(n) + s;
    var r := Strip(t);
    assert r != [] ==> r[0] == t[|t| - |r|];
    assert s != [] ==> t[n] == s[0];
    assert t[n..] == s;
  }

  /** Changing the base and back gives the same digits. */
  lemma ConvertBack(d: nat, e: nat, s: seq<nat>)
    requires d >= 2 && e >= 2 && AreDigits(d, s)
    ensures AreDigits(e, Convert(d, e, s)) && Convert(e, d, Convert(d, e, s)) == s
  {
    hide Value, ToDigits, Strip;
    var v, z, t := Value(d, s), |s| - |Strip(s)|, Convert(d, e, s);
    ToDigitsIs(e, v);
    ToDigitsIs(d, v);
    ZerosValue(e, z, ToDigits(e, v));
    StripZeros(z, ToDigits(e, v));
    StripValue(d, s);
    CanonicalIsUnique(d, Strip(s), ToDigits(d, v));
    assert Zeros(z) + Strip(s) == s;
  }
}
