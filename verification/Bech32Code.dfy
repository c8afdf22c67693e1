/** The Bech32 checksum: a linear code over sequences of 5-bit symbols. */
module Bech32Code {

  // ----------------------------------------------------------------------- one step

  function Xor(x: bv32, y: bv32): bv32 {
    x ^ y
  }

  lemma XorAssociative(x: bv32, y: bv32, z: bv32)
    ensures Xor(Xor(x, y), z) == Xor(x, Xor(y, z))
  {
  }

  lemma XorCommutative(x: bv32, y: bv32)
    ensures Xor(x, y) == Xor(y, x)
  {
  }

  lemma XorUnits(x: bv32)
    ensures Xor(x, 0) == x && Xor(x, x) == 0
  {
  }

  function Tap(x: bv32, on: bool, k: bv32): bv32 {
    if on then Xor(x, k) else x
  }

  predicate Bit(c: bv32, mask: bv32) {
    (c >> 25) & mask != 0
  }

  function Shifted(c: bv32): bv32 {
    (c & 0x1ffffff) << 5
  }

  /** The remainder after one more symbol. */
  function Step(c: bv32, v: bv32): bv32 {
    var c1 := Xor(Shifted(c), v);
    var c2 := Tap(c1, Bit(c, 1), 0x3b6a57b2);
    var c3 := Tap(c2, Bit(c, 2), 0x26508e6d);
    var c4 := Tap(c3, Bit(c, 4), 0x1ea119fa);
    var c5 := Tap(c4, Bit(c, 8), 0x3d4233dd);
    Tap(c5, Bit(c, 16), 0x2a1462b3)
  }

  lemma XorSwap(x: bv32, y: bv32, z: bv32)
    ensures Xor(Xor(x, y), z) == Xor(Xor(x, z), y)
  {
    hide Xor;
    XorAssociative(x, y, z);
    XorCommutative(y, z);
    XorAssociative(x, z, y);
  }

  lemma XorTwice(x: bv32, y: bv32, k: bv32)
    ensures Xor(Xor(x, k), Xor(y, k)) == Xor(x, y)
  {
    hide Xor;
    XorAssociative(Xor(x, k), y, k);
    XorSwap(Xor(x, k), y, k);
    XorAssociative(x, k, k);
    XorUnits(k);
    XorUnits(x);
  }

  lemma TapXor(x: bv32, v: bv32, on: bool, k: bv32)
    ensures Tap(Xor(x, v), on, k) == Xor(Tap(x, on, k), v)
  {
    hide Xor;
    XorSwap(x, v, k);
  }

  lemma TapLinear(x: bv32, y: bv32, p: bool, q: bool, r: bool, k: bv32)
    requires r == (p != q)
    ensures Tap(Xor(x, y), r, k) == Xor(Tap(x, p, k), Tap(y, q, k))
  {
    hide Xor;
    XorTwice(x, y, k);
    XorSwap(x, y, k);
    XorAssociative(x, y, k);
  }

  lemma BitLinear(a: bv32, b: bv32, mask: bv32)
    requires mask == 1 || mask == 2 || mask == 4 || mask == 8 || mask == 16
    ensures Bit(Xor(a, b), mask) == (Bit(a, mask) != Bit(b, mask))
  {
    if mask == 1 {
    } else if mask == 2 {
    } else if mask == 4 {
    } else if mask == 8 {
    } else {
    }
  }

  lemma ShiftedLinear(a: bv32, b: bv32)
    ensures Shifted(Xor(a, b)) == Xor(Shifted(a), Shifted(b))
  {
  }

  /** One conditional term of the step, for a sum. */
  lemma TermLinear(a: bv32, b: bv32, x: bv32, y: bv32, mask: bv32, k: bv32)
    requires mask == 1 || mask == 2 || mask == 4 || mask == 8 || mask == 16
    ensures Tap(Xor(x, y), Bit(Xor(a, b), mask), k) == Xor(Tap(x, Bit(a, mask), k), Tap(y, Bit(b, mask), k))
  {
    hide Tap, Bit, Xor;
    BitLinear(a, b, mask);
    TapLinear(x, y, Bit(a, mask), Bit(b, mask), Bit(Xor(a, b), mask), k);
  }

  /** A symbol enters by exclusive or. */
  lemma StepXor(c: bv32, v: bv32)
    ensures Step(c, v) == Xor(Step(c, 0), v)
  {
    hide Tap, Bit, Shifted, Xor;
    var x1 := Shifted(c);
    XorUnits(x1);
    TapXor(x1, v, Bit(c, 1), 0x3b6a57b2);
    var x2 := Tap(x1, Bit(c, 1), 0x3b6a57b2);
    TapXor(x2, v, Bit(c, 2), 0x26508e6d);
    var x3 := Tap(x2, Bit(c, 2), 0x26508e6d);
    TapXor(x3, v, Bit(c, 4), 0x1ea119fa);
    var x4 := Tap(x3, Bit(c, 4), 0x1ea119fa);
    TapXor(x4, v, Bit(c, 8), 0x3d4233dd);
    TapXor(Tap(x4, Bit(c, 8), 0x3d4233dd), v, Bit(c, 16), 0x2a1462b3);
  }

  /** The step is linear. */
  lemma StepLinear(a: bv32, b: bv32)
    ensures Step(Xor(a, b), 0) == Xor(Step(a, 0), Step(b, 0))
  {
    hide Tap, Bit, Shifted, Xor;
    ShiftedLinear(a, b);
    var x1, y1 := Shifted(a), Shifted(b);
    XorUnits(x1);
    XorUnits(y1);
    XorUnits(Xor(x1, y1));
    TermLinear(a, b, x1, y1, 1, 0x3b6a57b2);
    var x2, y2 := Tap(x1, Bit(a, 1), 0x3b6a57b2), Tap(y1, Bit(b, 1), 0x3b6a57b2);
    TermLinear(a, b, x2, y2, 2, 0x26508e6d);
    var x3, y3 := Tap(x2, Bit(a, 2), 0x26508e6d), Tap(y2, Bit(b, 2), 0x26508e6d);
    TermLinear(a, b, x3, y3, 4, 0x1ea119fa);
    var x4, y4 := Tap(x3, Bit(a, 4), 0x1ea119fa), Tap(y3, Bit(b, 4), 0x1ea119fa);
    TermLinear(a, b, x4, y4, 8, 0x3d4233dd);
    TermLinear(a, b, Tap(x4, Bit(a, 8), 0x3d4233dd), Tap(y4, Bit(b, 8), 0x3d4233dd), 16, 0x2a1462b3);
  }

  /** Low remainders are only shifted. */
  lemma StepShifts(c: bv32)
    requires c < 0x200_0000
    ensures Step(c, 0) == c << 5
  {
  }

  lemma StepRange(c: bv32, v: bv32)
    requires c < 0x4000_0000 && v < 0x4000_0000
    ensures Step(c, v) < 0x4000_0000
  {
  }

  lemma KernelIsZero(c: bv32)
    requires c < 0x4000_0000 && Step(c, 0) == 0
    ensures c == 0
  {
  }

  lemma XorCancels(a: bv32, b: bv32)
    ensures Xor(a, b) == 0 <==> a == b
  {
  }

  lemma XorRange(a: bv32, b: bv32)
    requires a < 0x4000_0000 && b < 0x4000_0000
    ensures Xor(a, b) < 0x4000_0000
  {
  }

  /** For a fixed symbol the step is injective. */
  lemma StepInjective(a: bv32, b: bv32, v: bv32)
    requires a < 0x4000_0000 && b < 0x4000_0000 && Step(a, v) == Step(b, v)
    ensures a == b
  {
    hide Step, Xor;
    StepXor(a, v);
    StepXor(b, v);
    XorTwice(Step(a, 0), Step(b, 0), v);
    XorUnits(Step(b, v));
    StepLinear(a, b);
    XorCancels(a, b);
    XorRange(a, b);
    KernelIsZero(Xor(a, b));
  }

  // ------------------------------------------------------------------- whole inputs

  function Wide(v: bv8): bv32 {
    v as bv32
  }

  /** The remainder after all symbols, starting from `c`. */
  function Fold(c: bv32, v: seq<bv8>): bv32 {
    if v == [] then c else Step(Fold(c, v[..|v| - 1]), Wide(v[|v| - 1]))
  }

  lemma {:induction false} FoldAppend(c: bv32, a: seq<bv8>, b: seq<bv8>)
    ensures Fold(c, a + b) == Fold(Fold(c, a), b)
    decreases |b|
  {
    hide Step, Wide;
    if b == [] {
      assert a + b == a;
    } else {
      var n := |b| - 1;
      FoldAppend(c, a, b[..n]);
      assert (a + b)[..|a + b| - 1] == a + b[..n];
    }
  }

  lemma WideRange(v: bv8)
    ensures Wide(v) < 0x4000_0000
  {
  }

  lemma {:induction false} FoldRange(c: bv32, v: seq<bv8>)
    requires c < 0x4000_0000
    ensures Fold(c, v) < 0x4000_0000
  {
    hide Step, Wide;
    if v != [] {
      FoldRange(c, v[..|v| - 1]);
      WideRange(v[|v| - 1]);
      StepRange(Fold(c, v[..|v| - 1]), Wide(v[|v| - 1]));
    }
  }

  /** Different remainders stay different whatever follows. */
  lemma {:induction false} FoldInjective(a: bv32, b: bv32, v: seq<bv8>)
    requires a < 0x4000_0000 && b < 0x4000_0000 && Fold(a, v) == Fold(b, v)
    ensures a == b
  {
    hide Step, Wide;
    if v != [] {
      var u := v[..|v| - 1];
      FoldRange(a, u);
      FoldRange(b, u);
      StepInjective(Fold(a, u), Fold(b, u), Wide(v[|v| - 1]));
      FoldInjective(a, b, u);
    }
  }

  lemma WideInjective(x: bv8, y: bv8)
    ensures Wide(x) == Wide(y) ==> x == y
  {
  }

  /** Changing one symbol changes the remainder, however long the input. */
  lemma OneChangeShows(c: bv32, v: seq<bv8>, i: nat, x: bv8)
    requires c < 0x4000_0000 && i < |v| && x != v[i]
    ensures Fold(c, v[i := x]) != Fold(c, v)
  {
    hide Step, Wide, Fold, Xor;
    var a, b := v[..i], v[i + 1..];
    var f := Fold(c, a);
    FoldRange(c, a);
    OneMore(c, a, v[i]);
    OneMore(c, a, x);
    assert v == a + [v[i]] + b && v[i := x] == a + [x] + b;
    FoldAppend(c, a + [v[i]], b);
    FoldAppend(c, a + [x], b);
    StepXor(f, Wide(v[i]));
    StepXor(f, Wide(x));
    WideRange(v[i]);
    WideRange(x);
    StepRange(f, Wide(v[i]));
    StepRange(f, Wide(x));
    XorKeepsApart(Step(f, 0), Wide(v[i]), Wide(x));
    WideInjective(v[i], x);
    if Fold(c, v[i := x]) == Fold(c, v) {
      FoldInjective(Step(f, Wide(v[i])), Step(f, Wide(x)), b);
    }
  }

  lemma OneMore(c: bv32, a: seq<bv8>, x: bv8)
    ensures Fold(c, a + [x]) == Step(Fold(c, a), Wide(x))
  {
    assert (a + [x])[..|a + [x]| - 1] == a;
  }

  lemma XorKeepsApart(z: bv32, x: bv32, y: bv32)
    ensures Xor(z, x) == Xor(z, y) ==> x == y
  {
  }

  // ------------------------------------------------------------------ six symbols

  predicate Symbols(v: seq<bv8>) {
    forall i :: 0 <= i < |v| ==> v[i] < 32
  }

  function Shl(p: bv32): bv32 {
    p << 5
  }

  /** Up to six symbols packed into 30 bits. */
  function Pack(v: seq<bv8>): bv32 {
    if v == [] then 0 else Xor(Shl(Pack(v[..|v| - 1])), Wide(v[|v| - 1]))
  }

  function Limit(k: nat): bv32 {
    if k == 0 then 1 else if k == 1 then 0x20 else if k == 2 then 0x400 else if k == 3 then 0x8000
    else if k == 4 then 0x10_0000 else if k == 5 then 0x200_0000 else 0x4000_0000
  }

  lemma LimitGrows(p: bv32, x: bv8, k: nat)
    requires k < 6 && p < Limit(k) && x < 32
    ensures Xor(Shl(p), Wide(x)) < Limit(k + 1) && p < 0x200_0000
  {
    if k == 0 {
    } else if k == 1 {
    } else if k == 2 {
    } else if k == 3 {
    } else if k == 4 {
    } else {
    }
  }

  function Zeros(n: nat): seq<bv8> {
    seq(n, i => 0)
  }

  /** Appending symbols to a remainder adds their packed form to that of zeros. */
  lemma {:induction false} AppendAdds(c: bv32, v: seq<bv8>)
    requires Symbols(v) && |v| <= 6
    ensures Fold(c, v) == Xor(Fold(c, Zeros(|v|)), Pack(v)) && Pack(v) < Limit(|v|)
  {
    hide Step, Wide, Xor, Shl, Limit, Fold, Pack;
    if v == [] {
      assert Zeros(0) == [];
      NoneFolded(c);
      XorUnits(c);
      LimitOfNone();
    } else {
      var n := |v| - 1;
      var u := v[..n];
      AppendAdds(c, u);
      LimitGrows(Pack(u), v[n], n);
      assert v == u + [v[n]] && Zeros(n + 1) == Zeros(n) + [0];
      OneMore(c, u, v[n]);
      OneMore(c, Zeros(n), 0);
      PackMore(u, v[n]);
      OneAdds(Fold(c, Zeros(n)), Pack(u), v[n]);
    }
  }

  lemma OneAdds(z: bv32, p: bv32, x: bv8)
    requires p < 0x200_0000
    ensures Step(Xor(z, p), Wide(x)) == Xor(Step(z, Wide(0)), Xor(Shl(p), Wide(x)))
  {
    hide Step, Wide, Xor;
    WideZero();
    StepXor(Xor(z, p), Wide(x));
    StepLinear(z, p);
    StepShifts(p);
    XorAssociative(Step(z, 0), Shl(p), Wide(x));
  }

  lemma NoneFolded(c: bv32)
    ensures Fold(c, []) == c && Pack([]) == 0
  {
  }

  lemma PackMore(u: seq<bv8>, x: bv8)
    ensures Pack(u + [x]) == Xor(Shl(Pack(u)), Wide(x))
  {
    hide Xor, Shl, Wide;
    assert (u + [x])[..|u + [x]| - 1] == u;
  }

  lemma LimitOfNone()
    ensures 0 < Limit(0)
  {
  }

  lemma WideZero()
    ensures Wide(0) == 0
  {
  }

  // --------------------------------------------------------------------- checksums

  function Low(x: bv32): bv8 {
    LowIsSmall(x);
    (x & 31) as bv8
  }

  lemma LowIsSmall(x: bv32)
    ensures x & 31 < 32
  {
  }

  lemma WideLow(x: bv32)
    ensures Wide(Low(x)) == x & 31 && Low(x) < 32
  {
  }

  lemma LowWide(x: bv8)
    requires x < 32
    ensures Low(Wide(x)) == x && Wide(x) < 32
  {
  }

  /** The `i`-th symbol of a 30-bit number, from the left. */
  function Group(m: bv32, i: nat): bv8
    requires i < 6
  {
    if i == 0 then Low(m >> 25) else if i == 1 then Low(m >> 20) else if i == 2 then Low(m >> 15)
    else if i == 3 then Low(m >> 10) else if i == 4 then Low(m >> 5) else Low(m)
  }

  function Groups(m: bv32): (r: seq<bv8>)
    ensures |r| == 6
  {
    [Group(m, 0), Group(m, 1), Group(m, 2), Group(m, 3), Group(m, 4), Group(m, 5)]
  }

  function Six(a: bv32, b: bv32, c: bv32, d: bv32, e: bv32, f: bv32): bv32 {
    Xor(Shl(Xor(Shl(Xor(Shl(Xor(Shl(Xor(Shl(a), b)), c)), d)), e)), f)
  }

  lemma PackIsSix(v: seq<bv8>)
    requires |v| == 6
    ensures Pack(v) == Six(Wide(v[0]), Wide(v[1]), Wide(v[2]), Wide(v[3]), Wide(v[4]), Wide(v[5]))
  {
    hide Wide, Xor, Shl, Pack;
    FirstPacked(v[0]);
    assert [v[0]] == v[..1] && v[..1] + [v[1]] == v[..2] && v[..2] + [v[2]] == v[..3];
    assert v[..3] + [v[3]] == v[..4] && v[..4] + [v[4]] == v[..5] && v[..5] + [v[5]] == v;
    PackMore(v[..1], v[1]);
    PackMore(v[..2], v[2]);
    PackMore(v[..3], v[3]);
    PackMore(v[..4], v[4]);
    PackMore(v[..5], v[5]);
  }

  lemma FirstPacked(x: bv8)
    ensures Pack([x]) == Wide(x)
  {
    hide Wide, Pack, Xor;
    NoneFolded(0);
    assert [] + [x] == [x];
    PackMore([], x);
    XorUnits(Wide(x));
    XorCommutative(0, Wide(x));
  }

  lemma SixOfGroups(m: bv32)
    requires m < 0x4000_0000
    ensures Six((m >> 25) & 31, (m >> 20) & 31, (m >> 15) & 31, (m >> 10) & 31, (m >> 5) & 31, m & 31) == m
  {
  }

  lemma GroupsOfSix(a: bv32, b: bv32, c: bv32, d: bv32, e: bv32, f: bv32)
    requires a < 32 && b < 32 && c < 32 && d < 32 && e < 32 && f < 32
    ensures var m := Six(a, b, c, d, e, f);
            && (m >> 25) & 31 == a && (m >> 20) & 31 == b && (m >> 15) & 31 == c
            && (m >> 10) & 31 == d && (m >> 5) & 31 == e && m & 31 == f
  {
  }

  lemma PackGroups(m: bv32)
    requires m < 0x4000_0000
    ensures Pack(Groups(m)) == m && Symbols(Groups(m))
  {
    hide Wide, Xor, Shl, Pack, Low, Six;
    PackIsSix(Groups(m));
    SixOfGroups(m);
    WideLow(m >> 25);
    WideLow(m >> 20);
    WideLow(m >> 15);
    WideLow(m >> 10);
    WideLow(m >> 5);
    WideLow(m);
  }

  lemma SamePackSameSymbols(v: seq<bv8>, w: seq<bv8>)
    requires |v| == |w| == 6 && Symbols(v) && Symbols(w) && Pack(v) == Pack(w)
    ensures v == w
  {
    hide Wide, Xor, Shl, Pack, Low, Six;
    forall i | 0 <= i < 6 ensures Wide(v[i]) < 32 && Wide(w[i]) < 32 {
      LowWide(v[i]);
      LowWide(w[i]);
    }
    PackIsSix(v);
    PackIsSix(w);
    GroupsOfSix(Wide(v[0]), Wide(v[1]), Wide(v[2]), Wide(v[3]), Wide(v[4]), Wide(v[5]));
    GroupsOfSix(Wide(w[0]), Wide(w[1]), Wide(w[2]), Wide(w[3]), Wide(w[4]), Wide(w[5]));
    forall i | 0 <= i < 6 ensures Wide(v[i]) == Wide(w[i]) ==> v[i] == w[i] {
      WideInjective(v[i], w[i]);
    }
  }

  /** The checksum of an input: what has to follow it to leave remainder one. */
  function Checksum(input: seq<bv8>): (r: seq<bv8>)
    ensures |r| == 6
  {
    Groups(Xor(Fold(1, input + Zeros(6)), 1))
  }

  lemma RemainderWith(input: seq<bv8>, v: seq<bv8>)
    requires |v| == 6 && Symbols(v)
    ensures Fold(1, input + v) == Xor(Fold(1, input + Zeros(6)), Pack(v)) && Fold(1, input + Zeros(6)) < 0x4000_0000
  {
    hide Fold, Pack, Xor, Limit;
    FoldAppend(1, input, v);
    FoldAppend(1, input, Zeros(6));
    AppendAdds(Fold(1, input), v);
    FoldRange(1, input + Zeros(6));
  }

  /** An input followed by its checksum leaves remainder one. */
  lemma ChecksumVerifies(input: seq<bv8>)
    ensures Fold(1, input + Checksum(input)) == 1 && Symbols(Checksum(input))
  {
    hide Fold, Pack, Xor, Groups, Symbols;
    var z := Fold(1, input + Zeros(6));
    FoldRange(1, input + Zeros(6));
    XorRange(z, 1);
    PackGroups(Xor(z, 1));
    RemainderWith(input, Checksum(input));
    XorAssociative(z, z, 1);
    XorUnits(z);
    XorUnits(1);
    XorCommutative(0, 1);
  }

  /** No other six symbols do. */
  lemma ChecksumIsUnique(input: seq<bv8>, v: seq<bv8>)
    requires |v| == 6 && Symbols(v) && Fold(1, input + v) == 1
    ensures v == Checksum(input)
  {
    hide Fold, Pack, Xor, Checksum, Symbols;
    ChecksumVerifies(input);
    RemainderWith(input, v);
    RemainderWith(input, Checksum(input));
    XorKeepsApart(Fold(1, input + Zeros(6)), Pack(v), Pack(Checksum(input)));
    SamePackSameSymbols(v, Checksum(input));
  }

  /** Changes within six neighbouring symbols change the remainder. */
  lemma BurstShows(a: seq<bv8>, v: seq<bv8>, w: seq<bv8>, b: seq<bv8>)
    requires |v| == |w| == 6 && Symbols(v) && Symbols(w) && v != w
    ensures Fold(1, a + v + b) != Fold(1, a + w + b)
  {
    hide Fold, Pack, Xor, Symbols;
    FoldAppend(1, a + v, b);
    FoldAppend(1, a + w, b);
    FoldRange(1, a + v);
    FoldRange(1, a + w);
    if Fold(1, a + v + b) == Fold(1, a + w + b) {
      FoldInjective(Fold(1, a + v), Fold(1, a + w), b);
      RemainderWith(a, v);
      RemainderWith(a, w);
      XorKeepsApart(Fold(1, a + Zeros(6)), Pack(v), Pack(w));
      SamePackSameSymbols(v, w);
    }
  }
}
