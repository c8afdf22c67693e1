/** Long division of limb arrays, bit by bit. */
module ArithDiv {
  import opened Powers
  import opened Limbs
  import opened Arith
  import opened ArithMul
  import opened ArithShift

  // --------------------------------------------------------- bits of the quotient

  /** The lowest `t` bits are clear. */
  ghost predicate LowClear(s: seq<Limb>, t: nat) {
    && (forall j :: 0 <= j < |s| && 32 * (j + 1) <= t ==> s[j] == 0)
    && (t / 32 < |s| ==> s[t / 32] % Pow2(t % 32) == 0)
  }

  lemma AllClear(s: seq<Limb>, t: nat)
    requires forall j :: 0 <= j < |s| ==> s[j] == 0
    ensures LowClear(s, t)
  {
    MultipleOf(Pow2(t % 32), 0);
  }

  /** A multiple of p below the base stays p away from it. */
  lemma RoomAbove(x: Limb, p: nat, r: nat)
    requires p >= 1 && p * r == B && x % p == 0
    ensures x + p <= B
  {
    var k := x / p;
    DivBelow(x, p, r);
    MulMono(k + 1, r, p);
    Distribute(k, 1, 0, p);
  }

  /** One clear bit fewer. */
  lemma ClearBelow(x: Limb, e: nat)
    requires e < 32 && x % Pow2(e + 1) == 0
    ensures x % Pow2(e) == 0 && x + Pow2(e) < B && (x + Pow2(e)) % Pow2(e) == 0
    ensures Or(x, Pow2(e)) == x + Pow2(e)
  {
    hide Pow2, Or;
    var p := Pow2(e);
    PowerDouble(e);
    WordPowers(e + 1);
    RoomAbove(x, Pow2(e + 1), Pow2(31 - e));
    OrDisjoint(p, x, e + 1);
    HalfMultiple(x, p);
  }

  lemma HalfMultiple(x: nat, p: nat)
    requires p >= 1 && x % (2 * p) == 0
    ensures x % p == 0 && (x + p) % p == 0
  {
    var k := 2 * (x / (2 * p));
    assert x == k * p;
    DivUnique(x, p, k, 0);
    Distribute(k, 1, 0, p);
    DivUnique(x + p, p, k + 1, 0);
  }

  lemma PowerDouble(e: nat)
    ensures Pow2(e + 1) == 2 * Pow2(e)
  {
  }

  /** The limb that holds bit t - 1 has that bit and all lower ones clear. */
  lemma ClearLimb(s: seq<Limb>, shift: nat)
    requires LowClear(s, shift + 1) && shift / 32 < |s|
    ensures s[shift / 32] % Pow2(shift % 32 + 1) == 0
  {
    hide Pow2;
    var m, e := shift / 32, shift % 32;
    if e == 31 {
      assert 32 * (m + 1) <= shift + 1;
      MultipleOf(Pow2(32), 0);
    } else {
      assert (shift + 1) / 32 == m && (shift + 1) % 32 == e + 1;
    }
  }

  lemma OneFewer(s: seq<Limb>, shift: nat)
    requires LowClear(s, shift + 1) && shift / 32 < |s|
    ensures LowClear(s, shift)
  {
    ClearLimb(s, shift);
    ClearBelow(s[shift / 32], shift % 32);
  }

  /** Setting bit `shift` adds its weight. */
  lemma SetQuotientBit(s: seq<Limb>, shift: nat)
    requires LowClear(s, shift + 1) && shift / 32 < |s|
    ensures var m, p := shift / 32, Pow2(shift % 32);
            && s[m] + p < B && Or(s[m], p) == s[m] + p
            && Val(s[m := s[m] + p]) == Val(s) + Pow2(shift) && LowClear(s[m := s[m] + p], shift)
  {
    hide ValTo, Base, Pow2, Or;
    var m, e := shift / 32, shift % 32;
    ClearLimb(s, shift);
    ClearBelow(s[m], e);
    AddLimb(s, m, Pow2(e));
    BaseIsPow2(m);
    Pow2Add(e, 32 * m);
  }

  // ------------------------------------------------------------------ the division

  /** Between two rounds: what is left, the quotient so far and the shifted divisor. */
  ghost predicate DivInv(n0: nat, d0: nat, num: nat, q: nat, div: nat, shift: int)
    requires shift >= -1
  {
    && num + q * d0 == n0 && num < d0 * Pow2(shift + 1)
    && (shift >= 0 ==> div == d0 * Pow2(shift))
  }

  lemma DivStep(n0: nat, d0: nat, num: nat, q: nat, div: nat, shift: nat)
    requires DivInv(n0, d0, num, q, div, shift)
    ensures num >= div ==> DivInv(n0, d0, num - div, q + Pow2(shift), div / Pow2(1), shift - 1)
    ensures num < div ==> DivInv(n0, d0, num, q, div / Pow2(1), shift - 1)
  {
    hide Pow2;
    PowerDouble(shift);
    PowersOfOne();
    DoubleProduct(d0, Pow2(shift));
    Distribute(q, Pow2(shift), 0, d0);
    if shift > 0 {
      PowerDouble(shift - 1);
      DoubleProduct(d0, Pow2(shift - 1));
    }
  }

  lemma DoubleProduct(d: nat, p: nat)
    ensures d * (2 * p) == 2 * (d * p) && p * d == d * p
  {
  }

  lemma PowersOfOne()
    ensures Pow2(0) == 1 && Pow2(1) == 2
  {
  }

  /** Aligning the divisor with the dividend. */
  lemma Align(n: nat, d: nat, nb: nat, db: nat)
    requires IsBits(n, nb) && IsBits(d, db) && 0 < db <= nb
    ensures DivInv(n, d, n, 0, d * Pow2(nb - db), nb - db) && d * Pow2(nb - db) < Pow2(nb)
  {
    hide Pow2;
    var p := Pow2(nb - db);
    Pow2Add(db, nb - db);
    Pow2Add(db - 1, nb - db);
    MulMono(Pow2(db - 1), d, p);
    MulMono(d + 1, Pow2(db), p);
    Distribute(d, 1, 0, p);
    PowerDouble(nb - 1);
    PowerDouble(nb - db);
    DoubleProduct(d, p);
  }

  lemma ShortDividend(n: nat, d: nat, nb: nat, db: nat)
    requires IsBits(n, nb) && IsBits(d, db) && nb < db
    ensures n < d
  {
    Pow2Grows(nb, db - 1);
  }

  /** pn /= b with the remainder, or pn := 0 and a failure when b is zero. */
  method Divide(pn: array<Limb>, b: array<Limb>) returns (ok: bool, ghost remainder: nat)
    requires pn.Length == b.Length
    modifies pn
    ensures ok <==> old(Val(b[..])) != 0
    ensures ok ==> Val(pn[..]) == old(Val(pn[..])) / old(Val(b[..])) && remainder == old(Val(pn[..])) % old(Val(b[..]))
    ensures !ok ==> Val(pn[..]) == 0
  {
    hide ValTo, Base, Pow2, Or, LowClear, DivInv;
    ghost var w, n0, d0 := pn.Length, Val(pn[..]), Val(b[..]);
    var div := Copy(b);
    var num := Copy(pn);
    Clear(pn);
    ValZero(pn[..], w);
    var numBits := Bits(num);
    var divBits := Bits(div);
    PowersOfOne();
    if divBits == 0 {
      return false, 0;
    }
    if divBits > numBits {
      ShortDividend(n0, d0, numBits, divBits);
      DivUnique(n0, d0, 0, n0);
      return true, n0;
    }
    var shift: int := numBits - divBits;
    Align(n0, d0, numBits, divBits);
    BaseIsPow2(w);
    Pow2Grows(numBits, 32 * w);
    ModDrops(d0 * Pow2(shift), Base(w), 0, d0 * Pow2(shift));
    ShiftLeft(div, shift);
    AllClear(pn[..], shift + 1);
    while shift >= 0
      invariant -1 <= shift < 32 * w
      invariant DivInv(n0, d0, Val(num[..]), Val(pn[..]), Val(div[..]), shift) && LowClear(pn[..], shift + 1)
    {
      DivStep(n0, d0, Val(num[..]), Val(pn[..]), Val(div[..]), shift);
      var c := CompareTo(num, div);
      if c >= 0 {
        ExactDifference(num[..], div[..]);
        Subtract(num, div);
        ghost var s: seq<Limb> := pn[..];
        SetQuotientBit(s, shift);
        pn[shift / 32] := Or(pn[shift / 32], Pow2(shift % 32));
        assert pn[..] == s[shift / 32 := s[shift / 32] + Pow2(shift % 32)];
      } else {
        OneFewer(pn[..], shift);
      }
      ShiftRight(div, 1);
      shift := shift - 1;
    }
    DivDone(n0, d0, Val(num[..]), Val(pn[..]), Val(div[..]));
    return true, Val(num[..]);
  }

  method Copy(a: array<Limb>) returns (r: array<Limb>)
    ensures fresh(r) && r.Length == a.Length && r[..] == a[..]
  {
    r := new Limb[a.Length](i requires 0 <= i < a.Length reads a => a[i]);
  }

  lemma ExactDifference(a: seq<Limb>, b: seq<Limb>)
    requires |a| == |b| && Val(a) >= Val(b)
    ensures (Val(a) - Val(b)) % Base(|a|) == Val(a) - Val(b)
  {
    ValBound(a, |a|);
    ModDrops(Val(a) - Val(b), Base(|a|), 0, Val(a) - Val(b));
  }

  lemma DivDone(n0: nat, d0: nat, num: nat, q: nat, div: nat)
    requires d0 > 0 && DivInv(n0, d0, num, q, div, -1)
    ensures q == n0 / d0 && num == n0 % d0
  {
    PowersOfOne();
    DivUnique(n0, d0, q, num);
  }
}
