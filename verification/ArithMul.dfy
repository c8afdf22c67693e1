/** Multiplication of limb arrays. */
module ArithMul {
  import opened Limbs
  import opened Arith

  // -------------------------------------------------------------------- by a word

  lemma Distribute(x: int, y: int, z: int, p: int)
    ensures (x + y + z) * p == x * p + y * p + z * p
  {
  }

  lemma WordStep(a: seq<Limb>, r: seq<Limb>, w: Limb, i: nat, carry: nat, n: nat)
    requires i < |a| == |r| && ValTo(r, i) + carry * Base(i) == ValTo(a, i) * w && n == carry + w * a[i]
    ensures ValTo(r[i := n % B], i + 1) + (n / B) * Base(i + 1) == ValTo(a, i + 1) * w
  {
    hide ValTo, Base;
    var p := Base(i);
    ValStep(r[i := n % B], i);
    ValStep(a, i);
    ValUpdate(r, i, n % B, i);
    SplitWord(n, p);
    Distribute(carry, w * a[i], 0, p);
    Distribute(ValTo(a, i), a[i] * p, 0, w);
    assert (a[i] * p) * w == (w * a[i]) * p;
  }

  /** Products and carries of limbs fit into 64 bits, and the carry into 32. */
  lemma NoOverflow(carry: nat, x: nat, w: Limb, y: Limb, n: nat)
    requires carry < B && x < B && n == carry + x + w * y
    ensures n < 0x1_0000_0000_0000_0000 && n / B < B
  {
    var m := w * y;
    assert m <= (B - 1) * y by {
      MulMono(w, B - 1, y);
    }
    SmallQuotient(carry, x, m, y);
  }

  lemma SmallQuotient(carry: nat, x: nat, m: nat, y: Limb)
    requires carry < B && x < B && m <= (B - 1) * y
    ensures carry + x + m < 0x1_0000_0000_0000_0000 && (carry + x + m) / B < B
  {
  }

  /** pn *= w, modulo the width. */
  method MulWord(pn: array<Limb>, w: Limb)
    modifies pn
    ensures Val(pn[..]) == (old(Val(pn[..])) * w) % Base(pn.Length)
  {
    hide ValTo, Base;
    ghost var a: seq<Limb> := pn[..];
    var carry: nat := 0;
    ValNothing(a, a, pn[..]);
    for i := 0 to pn.Length
      invariant carry < B
      invariant forall j :: i <= j < pn.Length ==> pn[j] == a[j]
      invariant ValTo(pn[..], i) + carry * Base(i) == ValTo(a, i) * w
    {
      ghost var r: seq<Limb> := pn[..];
      var n: nat := carry + w * pn[i];
      WordStep(a, r, w, i, carry, n);
      NoOverflow(carry, 0, w, pn[i], n);
      var low: Limb := n % B;
      pn[i] := low;
      carry := n / B;
      assert pn[..] == r[i := low];
    }
    ValBound(pn[..], pn.Length);
    ModDrops(Val(a) * w, Base(pn.Length), carry, Val(pn[..]));
  }

  // ------------------------------------------------------------------ by a number

  /** One limb product of the schoolbook method. */
  lemma ProductStep(r0: nat, r: seq<Limb>, b: seq<Limb>, x: Limb, i: nat, j: nat, carry: nat, n: nat)
    requires i + j < |r| == |b| && Val(r) + carry * Base(i + j) == r0 + x * Base(j) * ValTo(b, i)
    requires n == carry + r[i + j] + x * b[i]
    ensures Val(r[i + j := n % B]) + (n / B) * Base(i + j + 1) == r0 + x * Base(j) * ValTo(b, i + 1)
  {
    hide ValTo, Base;
    var p := Base(i + j);
    BaseAdd(i, j);
    ValStep(r, i + j);
    ValStep(b, i);
    ValUpdate(r, i + j, n % B, |r|);
    SplitWord(n, p);
    Distribute(n % B, -(r[i + j] as int), 0, p);
    Distribute(carry, r[i + j], x * b[i], p);
    PartialProduct(x, Base(j), ValTo(b, i), b[i], Base(i));
  }

  lemma PartialProduct(x: nat, q: nat, v: nat, y: nat, p: nat)
    ensures x * q * (v + y * p) == x * q * v + (x * y) * (p * q)
  {
    assert x * q * (v + y * p) == x * q * v + (x * q) * (y * p);
    assert (x * q) * (y * p) == (x * y) * (p * q);
  }

  /** What the limbs from `m` on contribute is a multiple of their weight. */
  lemma {:induction false} HighPart(b: seq<Limb>, m: nat, n: nat) returns (h: nat)
    requires m <= n <= |b|
    ensures ValTo(b, n) == ValTo(b, m) + h * Base(m)
  {
    hide ValTo, Base;
    if m == n {
      h := 0;
    } else {
      h := HighPart(b, m, n - 1);
      var p := Base(n - 1 - m);
      BaseAdd(n - 1 - m, m);
      ValStep(b, n - 1);
      Distribute(h, b[n - 1] * p, 0, Base(m));
      assert b[n - 1] * (p * Base(m)) == (b[n - 1] * p) * Base(m);
      h := h + b[n - 1] * p;
    }
  }

  /** A row of the product, of which the part beyond the width is dropped. */
  lemma RowStep(a: seq<Limb>, b: seq<Limb>, j: nat, before: nat, after: nat, carry: nat, q: nat) returns (q': nat)
    requires j < |a| == |b| && before + q * Base(|a|) == ValTo(a, j) * Val(b)
    requires after + carry * Base(|a|) == before + a[j] * Base(j) * ValTo(b, |a| - j)
    ensures after + q' * Base(|a|) == ValTo(a, j + 1) * Val(b)
  {
    hide ValTo, Base;
    var w, m := |a|, |a| - j;
    var h := HighPart(b, m, w);
    ValStep(a, j);
    BaseAdd(m, j);
    PartialProduct(a[j], Base(j), ValTo(b, m), h, Base(m));
    Distribute(ValTo(a, j), a[j] * Base(j), 0, Val(b));
    Distribute(q, carry, a[j] * h, Base(w));
    q' := q + carry + a[j] * h;
  }

  /** pn *= b, modulo the width; b must be another array. */
  method Mul(pn: array<Limb>, b: array<Limb>)
    requires pn.Length == b.Length && pn != b
    modifies pn
    ensures Val(pn[..]) == (old(Val(pn[..])) * Val(b[..])) % Base(pn.Length)
  {
    hide ValTo, Base;
    ghost var w := pn.Length;
    var a: seq<Limb> := pn[..];
    for i := 0 to pn.Length
      invariant forall k :: 0 <= k < i ==> pn[k] == 0
    {
      pn[i] := 0;
    }
    ValZero(pn[..], w);
    ValNothing(a, a, a);
    ghost var q: nat := 0;
    for j := 0 to pn.Length
      invariant Val(pn[..]) + q * Base(w) == ValTo(a, j) * Val(b[..])
    {
      ghost var before := Val(pn[..]);
      var carry := AddRow(pn, b, a[j], j);
      q := RowStep(a, b[..], j, before, Val(pn[..]), carry, q);
    }
    ValBound(pn[..], w);
    ModDrops(Val(a) * Val(b[..]), Base(w), q, Val(pn[..]));
  }

  /** pn *= pn gives nothing, because the factor is cleared with the target. */
  method MulSelf(pn: array<Limb>)
    modifies pn
    ensures Val(pn[..]) == 0
  {
    var a: seq<Limb> := pn[..];
    for i := 0 to pn.Length
      invariant forall k :: 0 <= k < i ==> pn[k] == 0
    {
      pn[i] := 0;
    }
    for j := 0 to pn.Length
      invariant forall k :: 0 <= k < pn.Length ==> pn[k] == 0
    {
      var carry := 0;
      for i := 0 to pn.Length - j
        invariant carry == 0 && forall k :: 0 <= k < pn.Length ==> pn[k] == 0
      {
        var n := carry + pn[i + j] + a[j] * pn[i];
        pn[i + j] := n % B;
        carry := n / B;
      }
    }
    ValZero(pn[..], pn.Length);
  }

  /** Adds x times b at limb j, and returns the carry out. */
  method AddRow(pn: array<Limb>, b: array<Limb>, x: Limb, j: nat) returns (carry: nat)
    requires pn.Length == b.Length && pn != b && j < pn.Length
    modifies pn
    ensures Val(pn[..]) + carry * Base(pn.Length) == old(Val(pn[..])) + x * Base(j) * ValTo(b[..], pn.Length - j)
  {
    hide ValTo, Base;
    carry := 0;
    ValNothing(b[..], b[..], b[..]);
    for i := 0 to pn.Length - j
      invariant carry < B
      invariant Val(pn[..]) + carry * Base(i + j) == old(Val(pn[..])) + x * Base(j) * ValTo(b[..], i)
    {
      ghost var r: seq<Limb> := pn[..];
      var n: nat := carry + pn[i + j] + x * b[i];
      ProductStep(old(Val(pn[..])), r, b[..], x, i, j, carry, n);
      NoOverflow(carry, pn[i + j], x, b[i], n);
      var low: Limb := n % B;
      pn[i + j] := low;
      carry := n / B;
      assert pn[..] == r[i + j := low];
    }
  }
}
