/** How many steps lead back to an ancestor: at most 110 among the first 2^18 blocks. */
module ChainSteps {
  import opened Powers
  import opened Chain

  /** The position of the lowest set bit. */
  function LowBit(n: nat): nat
    requires n > 0
  {
    if n % 2 == 1 then 0 else 1 + LowBit(n / 2)
  }

  lemma {:induction false} ClearsLowBit(n: nat)
    requires n > 0
    ensures Pow2(LowBit(n)) <= n && InvertLowestOne(n) == n - Pow2(LowBit(n))
    ensures InvertLowestOne(n) > 0 ==> LowBit(InvertLowestOne(n)) > LowBit(n)
    ensures LowBit(n) == 0 <==> n % 2 == 1
  {
    if n % 2 == 0 {
      ClearsLowBit(n / 2);
      var half := InvertLowestOne(n / 2);
      assert InvertLowestOne(n) == 2 * half && (2 * half) / 2 == half;
    } else if n > 1 {
      assert InvertLowestOne(n) == n - 1 && (n - 1) % 2 == 0;
    }
  }

  /** A bit below the lowest set one is the lowest after it is borrowed. */
  lemma {:induction false} ClearBelow(n: nat, i: nat)
    requires n > 0 && i < LowBit(n)
    ensures Pow2(i + 1) <= Pow2(LowBit(n)) <= n && Pow2(i) < n
    ensures LowBit(n - Pow2(i)) == i && InvertLowestOne(n - Pow2(i)) == n - Pow2(i + 1)
  {
    hide InvertLowestOne, LowBit;
    ClearsLowBit(n);
    Pow2Grows(i + 1, LowBit(n));
    if i > 0 {
      Halves(n);
      ClearBelow(n / 2, i - 1);
      BelowHalf(n, n / 2, Pow2(i - 1), i);
    } else {
      OneBelow(n);
    }
  }

  lemma Halves(n: nat)
    requires n > 0 && n % 2 == 0
    ensures n == 2 * (n / 2) && LowBit(n) == 1 + LowBit(n / 2)
  {
  }

  lemma OneBelow(n: nat)
    requires n > 0 && n % 2 == 0
    ensures LowBit(n - 1) == 0 && InvertLowestOne(n - 1) == n - 2
  {
  }

  lemma BelowHalf(n: nat, half: nat, p: nat, i: nat)
    requires n == 2 * half && 0 < p < half && i > 0
    requires LowBit(half - p) == i - 1
    ensures LowBit(n - 2 * p) == i && InvertLowestOne(n - 2 * p) == 2 * InvertLowestOne(half - p)
  {
    LowestOneDoubles(half - p);
    assert (n - 2 * p) / 2 == half - p && (n - 2 * p) % 2 == 0;
  }

  lemma EvenSkip(n: nat)
    requires n > 0 && n % 2 == 0
    ensures GetSkipHeight(n) == InvertLowestOne(n)
    ensures GetSkipHeight(n + 1) == InvertLowestOne(InvertLowestOne(n)) + 1
  {
  }

  lemma SmallPowers()
    ensures Pow2(0) == 1 && Pow2(1) == 2 && Pow2(2) == 4 && Pow2(3) == 8
  {
  }

  /** Where the skip pointers of an even height and of the odd one below it lead. */
  lemma SkipBelow(n: nat)
    requires n > 0 && n % 2 == 0
    ensures LowBit(n) >= 1 && InvertLowestOne(n) <= n - 2
    ensures LowBit(n) == 1 ==> InvertLowestOne(n) == n - 2
    ensures LowBit(n) == 2 ==> InvertLowestOne(n) == n - 4 && InvertLowestOne(n - 2) == n - 4
    ensures LowBit(n) >= 2 ==> InvertLowestOne(n) <= n - 4
    ensures LowBit(n) >= 3 ==> InvertLowestOne(n) <= n - 8 && GetSkipHeight(n - 1) == n - 7
  {
    hide InvertLowestOne, GetSkipHeight, LowBit, Pow2;
    ClearsLowBit(n);
    SmallPowers();
    var k := LowBit(n);
    Pow2Grows(1, k);
    if k >= 2 {
      Pow2Grows(2, k);
      ClearBelow(n, 1);
    }
    if k >= 3 {
      Pow2Grows(3, k);
      ClearBelow(n, 2);
      EvenSkip(n - 2);
    }
  }

  // ---------------------------------------------------------------------- within a block

  /** The steps from a height to those at which its lowest bit is missing, but for the first two. */
  function Inside(k: nat): nat {
    if k <= 1 then 0 else Inside(k - 1) + (k + 3) / 2
  }

  lemma {:induction false} InsideGrows(j: nat, k: nat)
    requires j <= k
    ensures Inside(j) <= Inside(k)
  {
    if j < k {
      InsideGrows(j, k - 1);
    }
  }

  /** The steps to the second of them. */
  function Second(k: nat): nat {
    if k % 2 == 1 then (k + 1) / 2 else k + 1
  }

  lemma {:induction false} InsideIsMore(k: nat)
    ensures Second(k) <= k + 1 && (k >= 1 ==> k <= Inside(k + 1)) && (k >= 3 ==> k + 2 <= Inside(k))
  {
    if k > 1 {
      InsideIsMore(k - 1);
    }
  }

  /** From an odd height that still has all bits from the `i`-th to the `k`-th set. */
  function SecondFrom(k: nat, i: nat): nat
    requires 1 <= i <= k
  {
    if k % 2 == 1 then (k - i) / 2 else (k - 1 - i) / 2 + 1 + k / 2
  }

  function InsideFrom(k: nat, i: nat): nat
    requires 1 <= i <= k
  {
    (k - i) / 2 + 1 + Inside(k - 1)
  }

  lemma FromTheTop(k: nat)
    requires k >= 1
    ensures Second(k) == 1 + SecondFrom(k, 1)
    ensures k >= 2 ==> Inside(k) == 1 + InsideFrom(k, 1)
  {
    assert (k - 1) / 2 + 2 == (k + 3) / 2;
    assert k >= 2 ==> Inside(k) == Inside(k - 1) + (k + 3) / 2;
  }

  lemma DescendIs(h: nat, t: nat)
    requires t < h
    ensures StepsDown(h, t) == 1 + StepsDown(Descend(h, t), t)
    ensures var skip, prev := GetSkipHeight(h), GetSkipHeight(h - 1);
            && (skip == t ==> Descend(h, t) == skip)
            && (skip > t && (prev >= skip - 2 || prev < t) ==> Descend(h, t) == skip)
            && (skip < t || (skip > t && prev < skip - 2 && prev >= t) ==> Descend(h, t) == h - 1)
  {
  }

  /** From an even height down to at least that without its lowest bit. */
  lemma {:induction false} StepsInside(n: nat, t: nat)
    requires n > 0 && n % 2 == 0 && InvertLowestOne(n) <= t <= n
    ensures t == InvertLowestOne(n) ==> StepsDown(n, t) == 1
    ensures t == InvertLowestOne(n) + 1 ==> StepsDown(n, t) <= Second(LowBit(n))
    ensures t >= InvertLowestOne(n) + 2 ==> StepsDown(n, t) <= Inside(LowBit(n))
    decreases LowBit(n), LowBit(n), 0
  {
    hide InvertLowestOne, GetSkipHeight, LowBit, Inside, Second, SecondFrom, InsideFrom, Descend, Pow2;
    SkipBelow(n);
    EvenSkip(n);
    SmallPowers();
    if t < n {
      DescendIs(n, t);
      if t > InvertLowestOne(n) {
        StepsOdd(n, 1, t);
        FromTheTop(LowBit(n));
      }
    }
  }

  /** From an odd height just below, where only bits below the `i`-th are missing. */
  lemma {:induction false} StepsOdd(n: nat, i: nat, t: nat)
    requires n > 0 && 1 <= i <= LowBit(n) && i % 2 == 1
    requires Pow2(i) <= n && InvertLowestOne(n) < t <= n - Pow2(i) + 1
    ensures t == InvertLowestOne(n) + 1 ==> StepsDown(n - Pow2(i) + 1, t) <= SecondFrom(LowBit(n), i)
    ensures t >= InvertLowestOne(n) + 2 ==> StepsDown(n - Pow2(i) + 1, t) <= InsideFrom(LowBit(n), i)
    decreases LowBit(n), LowBit(n) - i, 1
  {
    hide InvertLowestOne, GetSkipHeight, LowBit, Inside, Second, SecondFrom, InsideFrom, StepsDown, Descend, Pow2;
    var k, h := LowBit(n), n - Pow2(i) + 1;
    if t == h {
      NoStepDown(t);
    } else if i == k {
      ClearsLowBit(n);
    } else if i == k - 1 {
      StepsLast(n, t);
    } else {
      StepsFurther(n, i, t);
    }
  }

  /** From the last of these odd heights. */
  lemma StepsLast(n: nat, t: nat)
    requires n > 0 && LowBit(n) >= 2 && LowBit(n) % 2 == 0
    requires Pow2(LowBit(n) - 1) <= n && InvertLowestOne(n) < t <= n - Pow2(LowBit(n) - 1)
    ensures var k, h := LowBit(n), n - Pow2(LowBit(n) - 1) + 1;
            && (t == InvertLowestOne(n) + 1 ==> StepsDown(h, t) <= SecondFrom(k, k - 1))
            && (t >= InvertLowestOne(n) + 2 ==> StepsDown(h, t) <= InsideFrom(k, k - 1))
    decreases LowBit(n), 1, 0
  {
    hide InvertLowestOne, GetSkipHeight, LowBit, Inside, StepsDown, Descend, Pow2;
    var k := LowBit(n);
    var e := n - Pow2(k - 1);
    ClearsLowBit(n);
    ClearBelow(n, k - 1);
    EvenBelow(n, k - 1);
    EvenSkip(e);
    DescendIs(e + 1, t);
    LowerBase(InvertLowestOne(n));
    if t == 1 {
      NoStepDown(t);
    } else {
      StepsInside(e, t);
    }
  }

  lemma LowerBase(n: nat)
    requires n % 2 == 0
    ensures if n == 0 then InvertLowestOne(n) == 0 else InvertLowestOne(n) + 2 <= n
  {
    if n > 0 {
      SkipBelow(n);
    }
  }

  lemma EvenBelow(n: nat, i: nat)
    requires n > 0 && 1 <= i < LowBit(n)
    ensures Pow2(i) < n && (n - Pow2(i)) % 2 == 0 && InvertLowestOne(n) % 2 == 0
  {
    hide InvertLowestOne, Pow2;
    ClearBelow(n, i);
    ClearsLowBit(n);
    ClearsLowBit(n - Pow2(i));
    OneLess(n);
  }

  /** From an earlier one: along, or off to an even height. */
  lemma StepsFurther(n: nat, i: nat, t: nat)
    requires n > 0 && 1 <= i <= LowBit(n) - 2 && i % 2 == 1
    requires Pow2(i) <= n && InvertLowestOne(n) < t <= n - Pow2(i)
    ensures t == InvertLowestOne(n) + 1 ==> StepsDown(n - Pow2(i) + 1, t) <= SecondFrom(LowBit(n), i)
    ensures t >= InvertLowestOne(n) + 2 ==> StepsDown(n - Pow2(i) + 1, t) <= InsideFrom(LowBit(n), i)
    decreases LowBit(n), LowBit(n) - i, 0
  {
    hide InvertLowestOne, GetSkipHeight, LowBit, Inside, StepsDown, Descend, Pow2;
    var k, e := LowBit(n), n - Pow2(i);
    ClearBelow(n, i);
    ClearBelow(n, i + 1);
    EvenBelow(n, i);
    EvenSkip(e);
    DescendIs(e + 1, t);
    Room(n, i);
    if t <= n - Pow2(i + 2) + 1 {
      StepsOdd(n, i + 2, t);
    } else {
      StepsTwo(e, t);
      InsideGrows(i + 1, k - 1);
    }
  }

  lemma Room(n: nat, i: nat)
    requires n > 0 && i + 2 <= LowBit(n)
    ensures Pow2(i + 2) <= n && InvertLowestOne(n) <= n - Pow2(i + 2) && Pow2(i + 2) == 2 * Pow2(i + 1)
  {
    ClearsLowBit(n);
    Pow2Grows(i + 2, LowBit(n));
  }

  /** From an even height to more than one above that without its two lowest bits. */
  lemma StepsTwo(e: nat, t: nat)
    requires e > 0 && e % 2 == 0 && InvertLowestOne(e) > 0
    requires InvertLowestOne(InvertLowestOne(e)) + 2 <= t <= e
    ensures StepsDown(e, t) <= 1 + Inside(LowBit(InvertLowestOne(e)))
    decreases LowBit(InvertLowestOne(e)), LowBit(InvertLowestOne(e)) + 1, 0
  {
    hide InvertLowestOne, GetSkipHeight, LowBit, Inside, Second, StepsDown, Descend, Pow2;
    var c := InvertLowestOne(e);
    ClearsLowBit(e);
    OneLess(e);
    if t >= c {
      StepsInside(e, t);
      InsideIsMore(LowBit(e));
      InsideGrows(LowBit(e), LowBit(c));
      InsideGrows(LowBit(e) + 1, LowBit(c));
    } else {
      SkipsAtOnce(e, t);
      StepsInside(c, t);
    }
  }

  lemma SkipsAtOnce(e: nat, t: nat)
    requires e > 0 && e % 2 == 0 && InvertLowestOne(InvertLowestOne(e)) + 2 <= t < InvertLowestOne(e)
    ensures StepsDown(e, t) == 1 + StepsDown(InvertLowestOne(e), t)
  {
    hide InvertLowestOne, GetSkipHeight, LowBit, StepsDown, Descend;
    SkipBelow(e);
    EvenSkip(e);
    DescendIs(e, t);
    if LowBit(e) <= 2 {
      EvenSkip(e - 2);
      var c := InvertLowestOne(e);
      OneLess(e);
      Below(e);
      LowerBase(InvertLowestOne(c));
    }
  }

  lemma Below(e: nat)
    requires e > 0 && e % 2 == 0 && InvertLowestOne(e) > 0
    ensures InvertLowestOne(InvertLowestOne(e)) % 2 == 0
  {
    OneLess(e);
    OneLess(InvertLowestOne(e));
  }

  // ------------------------------------------------------------------- from any height

  lemma BitBelow(l: nat, n: nat)
    requires 0 < n < Pow2(l)
    ensures LowBit(n) < l
  {
    ClearsLowBit(n);
    if LowBit(n) >= l {
      Pow2Grows(l, LowBit(n));
    }
  }

  /** An odd height. */
  lemma {:induction false} StepsFromOdd(l: nat, e: nat, t: nat)
    requires l >= 4 && e % 2 == 0 && t <= e + 1 && e < Pow2(l)
    ensures e == 0 ==> StepsDown(e + 1, t) <= 1
    ensures e > 0 ==> LowBit(e) < l && StepsDown(e + 1, t) <= (l + 2 - LowBit(e)) / 2 + Inside(l - 1)
    decreases e
  {
    hide InvertLowestOne, LowBit, Inside, Descend, Pow2;
    if e > 0 {
      hide GetSkipHeight, StepsDown;
      BitBelow(l, e);
      InsideIsMore(l - 1);
      if t == e + 1 {
        NoStepDown(t);
      } else {
        OddStep(l, e, t);
      }
    } else if t == 0 {
      FirstStep();
    }
  }

  lemma FirstStep()
    ensures StepsDown(1, 0) == 1
  {
    DescendIs(1, 0);
  }

  lemma OddStep(l: nat, e: nat, t: nat)
    requires l >= 4 && e % 2 == 0 && t <= e && 0 < e < Pow2(l) && LowBit(e) < l
    ensures StepsDown(e + 1, t) <= (l + 2 - LowBit(e)) / 2 + Inside(l - 1)
    decreases e, 0
  {
    hide InvertLowestOne, GetSkipHeight, LowBit, Inside, StepsDown, Descend, Pow2;
    var c := InvertLowestOne(e);
    EvenSkip(e);
    DescendIs(e + 1, t);
    ClearsLowBit(e);
    OneLess(e);
    LowerBase(c);
    InsideIsMore(l - 1);
    if t <= InvertLowestOne(c) + 1 {
      if c > 0 {
        Below(e);
        ClearsLowBit(c);
      }
      StepsFromOdd(l, InvertLowestOne(c), t);
      if InvertLowestOne(c) > 0 {
        TwoBitsUp(e);
      }
    } else if c > 0 {
      BitBelow(l, c);
      StepsTwo(e, t);
      InsideGrows(LowBit(c), l - 1);
    } else {
      StepsInside(e, t);
      InsideGrows(LowBit(e), l - 1);
    }
  }

  lemma TwoBitsUp(e: nat)
    requires e > 0 && InvertLowestOne(e) > 0 && InvertLowestOne(InvertLowestOne(e)) > 0
    ensures LowBit(InvertLowestOne(InvertLowestOne(e))) >= LowBit(e) + 2
  {
    hide InvertLowestOne, LowBit;
    ClearsLowBit(e);
    ClearsLowBit(InvertLowestOne(e));
  }

  /** A height within its last block. */
  lemma StepsNear(l: nat, n: nat, t: nat)
    requires l >= 4 && 0 < n < Pow2(l) && n % 2 == 0 && InvertLowestOne(n) <= t <= n
    ensures LowBit(n) < l && StepsDown(n, t) <= Inside(l - 1)
  {
    hide InvertLowestOne, LowBit, Inside, Second, StepsDown, Pow2;
    BitBelow(l, n);
    StepsInside(n, t);
    InsideIsMore(LowBit(n));
    InsideIsMore(l - 1);
    InsideGrows(LowBit(n), l - 1);
  }

  /** A multiple of eight. */
  lemma {:induction false} StepsFromEight(l: nat, n: nat, t: nat)
    requires l >= 4 && 0 < n < Pow2(l) && LowBit(n) >= 3 && t <= n
    ensures LowBit(n) < l && StepsDown(n, t) <= Inside(l - 1) + (l - 1 - LowBit(n))
    decreases n
  {
    hide InvertLowestOne, GetSkipHeight, LowBit, Inside, StepsDown, Descend, Pow2;
    var c := InvertLowestOne(n);
    ClearsLowBit(n);
    BitBelow(l, n);
    if t >= c {
      StepsNear(l, n, t);
    } else {
      SkipBelow(n);
      EvenSkip(n);
      DescendIs(n, t);
      StepsFromEight(l, c, t);
    }
  }

  /** Any other even height. */
  lemma StepsFromEven(l: nat, n: nat, t: nat)
    requires l >= 4 && 0 < n < Pow2(l) && n % 2 == 0 && LowBit(n) <= 2 && t < InvertLowestOne(n)
    ensures StepsDown(n, t) <= Inside(l - 1) + (l + 3) / 2
  {
    hide InvertLowestOne, GetSkipHeight, LowBit, Inside, StepsDown, Descend, Pow2;
    var c := InvertLowestOne(n);
    SkipBelow(n);
    EvenSkip(n);
    DescendIs(n, t);
    ClearsLowBit(n);
    OneLess(n);
    SkipBelow(c);
    Below(n);
    var b := InvertLowestOne(c);
    LowerBase(b);
    EvenSkip(n - 2);
    if Descend(n, t) == n - 1 {
      ClearsLowBit(n - 2);
      StepsFromOdd(l, n - 2, t);
    } else if LowBit(n) == 2 || b == 0 {
      StepsNear(l, c, t);
    } else {
      StepsTwo(c, t);
      BitBelow(l, b);
      InsideGrows(LowBit(b), l - 1);
    }
  }

  /** The bound for heights below 2^l. */
  lemma WalkIsShort(l: nat, h: nat, t: nat)
    requires l >= 4 && t <= h < Pow2(l)
    ensures StepsDown(h, t) <= Inside(l - 1) + if l - 4 >= (l + 3) / 2 then l - 4 else (l + 3) / 2
  {
    hide InvertLowestOne, LowBit, Inside, StepsDown, Pow2;
    if h == t {
      NoStepDown(t);
    } else if h % 2 == 1 {
      StepsFromOdd(l, h - 1, t);
      if h > 1 {
        ClearsLowBit(h - 1);
      }
    } else if t >= InvertLowestOne(h) {
      StepsNear(l, h, t);
    } else if LowBit(h) >= 3 {
      StepsFromEight(l, h, t);
    } else {
      StepsFromEven(l, h, t);
    }
  }

  lemma {:induction false} InsideIs(k: nat)
    requires k >= 1
    ensures 4 * Inside(k) + (k + 1) % 2 == k * k + 6 * k - 7
  {
    if k > 1 {
      InsideIs(k - 1);
      Square(k);
      Rounded(k);
    }
  }

  lemma Rounded(k: nat)
    ensures 2 * ((k + 3) / 2) + (k + 1) % 2 == k + 3 && k % 2 + (k + 1) % 2 == 1
  {
  }

  lemma Square(k: nat)
    requires k >= 1
    ensures k * k == (k - 1) * (k - 1) + 2 * k - 1
  {
  }

  /** No two of the first 2^18 blocks are more than 110 steps apart. */
  lemma FewSteps(h: nat, t: nat)
    requires t <= h < 0x4_0000
    ensures StepsDown(h, t) <= 110
  {
    hide StepsDown;
    Pow2Words();
    Pow2Add(16, 2);
    WalkIsShort(18, h, t);
    InsideIs(17);
  }
}
