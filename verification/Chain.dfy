/** The block index with its skip pointers, and the active chain. */
module Chain {
  import opened Common
  import opened Powers

  // --------------------------------------------------------------------- skip heights

  /** Clears the lowest set bit: n & (n - 1). */
  function InvertLowestOne(n: nat): (r: nat)
    ensures n == 0 ==> r == 0
    ensures n > 0 ==> r < n
  {
    if n == 0 then 0 else if n % 2 == 1 then n - 1 else 2 * InvertLowestOne(n / 2)
  }

  /** The height a skip pointer goes back to, always below its own. */
  function GetSkipHeight(height: nat): (r: nat)
    ensures height > 0 ==> r < height
  {
    if height < 2 then 0
    else if height % 2 == 1 then InvertLowestOne(InvertLowestOne(height - 1)) + 1
    else InvertLowestOne(height)
  }

  /** The lowest set bit goes, whatever is above it stays. */
  lemma {:induction false} LowestOneGoes(k: nat, m: nat)
    ensures InvertLowestOne(Pow2(k) * (2 * m + 1)) == Pow2(k) * (2 * m)
  {
    if k == 0 {
      assert Pow2(0) * (2 * m + 1) == 2 * m + 1 && Pow2(0) * (2 * m) == 2 * m;
    } else {
      LowestOneGoes(k - 1, m);
      var half := Pow2(k - 1) * (2 * m + 1);
      Twice(Pow2(k - 1), 2 * m + 1);
      Twice(Pow2(k - 1), 2 * m);
      LowestOneDoubles(half);
    }
  }

  lemma Twice(p: nat, q: nat)
    ensures (2 * p) * q == 2 * (p * q) && (p >= 1 && q >= 1 ==> p * q >= 1)
  {
  }

  lemma LowestOneDoubles(n: nat)
    ensures InvertLowestOne(2 * n) == 2 * InvertLowestOne(n)
  {
    assert (2 * n) / 2 == n && (2 * n) % 2 == 0;
  }

  // ---------------------------------------------------------------- what a skip clears

  function Ones(n: nat): nat {
    if n == 0 then 0 else n % 2 + Ones(n / 2)
  }

  lemma {:induction false} OneLess(n: nat)
    ensures n > 0 ==> Ones(n) == Ones(InvertLowestOne(n)) + 1
    ensures n % 2 == 0 ==> InvertLowestOne(n) % 2 == 0
  {
    if n > 0 && n % 2 == 0 {
      OneLess(n / 2);
      OnesOfDouble(InvertLowestOne(n / 2));
    } else if n > 0 {
      OneMoreBit(n);
    }
  }

  lemma OnesOfDouble(n: nat)
    ensures Ones(2 * n) == Ones(n)
  {
    assert (2 * n) / 2 == n && (2 * n) % 2 == 0;
  }

  lemma {:induction false} FewOnes(n: nat)
    ensures Pow2(Ones(n)) <= n + 1
  {
    if n > 0 {
      FewOnes(n / 2);
    }
  }

  /** Even heights skip by clearing one bit, odd ones by clearing two above the last, as far as there are two. */
  lemma SkipClearsBits(height: nat)
    requires height >= 2
    ensures GetSkipHeight(height) % 2 == height % 2
    ensures Ones(GetSkipHeight(height)) ==
              if height % 2 == 0 then Ones(height) - 1 else if Ones(height) == 2 then 1 else Ones(height) - 2
  {
    hide InvertLowestOne, Ones;
    OneLess(height);
    if height % 2 == 1 {
      var n := InvertLowestOne(height - 1);
      OneLess(height - 1);
      OneLess(n);
      OneMoreBit(height);
      OneMoreBit(InvertLowestOne(n) + 1);
      NoOnes(n);
      NoOnes(InvertLowestOne(n));
    }
  }

  lemma NoOnes(n: nat)
    ensures Ones(n) == 0 <==> n == 0
    ensures n == 0 ==> InvertLowestOne(n) == 0
  {
    FewOnes(n);
    if n > 0 {
      OneLess(n);
    }
  }

  lemma OneMoreBit(n: nat)
    ensures n % 2 == 1 ==> Ones(n) == Ones(n - 1) + 1
  {
    if n % 2 == 1 {
      assert (n - 1) / 2 == n / 2;
    }
  }

  // ------------------------------------------------------------ the way to an ancestor

  /** The next height on the way down to an ancestor: by the skip pointer unless it is better used one block below. */
  function Descend(height: nat, target: nat): (r: nat)
    requires target < height
    ensures target <= r < height
  {
    var skip, skipPrev := GetSkipHeight(height), GetSkipHeight(height - 1);
    if skip == target || (skip > target && !(skipPrev < skip - 2 && skipPrev >= target)) then skip else height - 1
  }

  /** How many steps that takes. */
  function StepsDown(height: nat, target: nat): nat
    requires target <= height
    decreases height
  {
    if height == target then 0 else 1 + StepsDown(Descend(height, target), target)
  }

  lemma OneStepDown(height: nat, target: nat)
    requires target < height
    ensures StepsDown(height, target) == 1 + StepsDown(Descend(height, target), target)
  {
  }

  lemma NoStepDown(height: nat)
    ensures StepsDown(height, height) == 0
  {
  }

  // ------------------------------------------------------------------------ the index

  class BlockIndex {
    const pprev: BlockIndex?
    const nHeight: nat
    var pskip: BlockIndex?

    /** A new entry on top of another, without a skip pointer yet. */
    constructor (prev: BlockIndex?)
      ensures pprev == prev && pskip == null && nHeight == (if prev == null then 0 else prev.nHeight + 1)
    {
      pprev, pskip, nHeight := prev, null, if prev == null then 0 else prev.nHeight + 1;
    }

    /** The ancestor at a height, by skip pointers where they help, and the steps it took. */
    method GetAncestor(height: int, ghost nodes: set<BlockIndex>) returns (r: BlockIndex?, ghost steps: nat)
      requires Index(nodes) && this in nodes
      ensures height < 0 || height > nHeight ==> r == null && steps == 0
      ensures 0 <= height <= nHeight ==> r == Walk(this, height)
      ensures 0 <= height <= nHeight && Skipping(nodes) ==> steps == StepsDown(nHeight, height)
    {
      hide InvertLowestOne, GetSkipHeight, StepsDown;
      steps := 0;
      if height > nHeight || height < 0 {
        return null, 0;
      }
      var walk: BlockIndex := this;
      var heightWalk := nHeight;
      while heightWalk > height
        invariant height <= heightWalk == walk.nHeight <= nHeight && walk in nodes
        invariant Walk(walk, height) == Walk(this, height)
        invariant Skipping(nodes) ==> steps + StepsDown(heightWalk, height) == StepsDown(nHeight, height)
        decreases heightWalk
      {
        steps := steps + 1;
        OneStepDown(heightWalk, height);
        InIndex(walk, nodes);
        var heightSkip := GetSkipHeight(heightWalk);
        var heightSkipPrev := GetSkipHeight(heightWalk - 1);
        if walk.pskip != null
           && (heightSkip == height || (heightSkip > height &&
                                        !(heightSkipPrev < heightSkip - 2 && heightSkipPrev >= height)))
        {
          WalkTwice(walk, heightSkip, height);
          WalkInIndex(walk, heightSkip, nodes);
          walk := walk.pskip;
          heightWalk := heightSkip;
        } else {
          walk := walk.pprev;
          heightWalk := heightWalk - 1;
        }
      }
      NoStepDown(height);
      return walk, steps;
    }

    /** Sets the skip pointer of an entry whose ancestors have theirs. */
    method BuildSkip(ghost nodes: set<BlockIndex>)
      requires Index(nodes) && this !in nodes && Linked(this) && (pprev != null ==> pprev in nodes) &&
               (pprev == null ==> pskip == null)
      modifies this
      ensures Index(nodes + {this})
      ensures if pprev == null then pskip == null else pskip == Walk(this, GetSkipHeight(nHeight))
    {
      if pprev != null {
        var skip, _ := pprev.GetAncestor(GetSkipHeight(nHeight), nodes);
        pskip := skip;
      }
    }
  }

  /** Heights count the ancestors. */
  ghost predicate Linked(b: BlockIndex)
    decreases b.nHeight
  {
    if b.nHeight == 0 then b.pprev == null
    else b.pprev != null && b.pprev.nHeight == b.nHeight - 1 && Linked(b.pprev)
  }

  /** The ancestor at a height, one step at a time. */
  ghost function Walk(b: BlockIndex, height: nat): (r: BlockIndex)
    requires Linked(b) && height <= b.nHeight
    ensures Linked(r) && r.nHeight == height
    decreases b.nHeight
  {
    if height == b.nHeight then b else Walk(b.pprev, height)
  }

  /** Entries closed under predecessors, whose skip pointers are right where present. */
  ghost predicate Index(nodes: set<BlockIndex>)
    reads nodes
  {
    forall b <- nodes ::
      && Linked(b) && (b.pprev != null ==> b.pprev in nodes)
      && (b.pskip != null ==> b.nHeight > 0 && b.pskip == Walk(b, GetSkipHeight(b.nHeight)))
  }

  /** Every entry with a predecessor has its skip pointer. */
  ghost predicate Skipping(nodes: set<BlockIndex>)
    reads nodes
  {
    forall b <- nodes :: b.pprev != null ==> b.pskip != null
  }

  lemma InIndex(b: BlockIndex, nodes: set<BlockIndex>)
    requires Index(nodes) && b in nodes
    ensures Linked(b) && (b.pprev != null ==> b.pprev in nodes)
  {
  }

  lemma {:induction false} WalkTwice(b: BlockIndex, h: nat, k: nat)
    requires Linked(b) && k <= h <= b.nHeight
    ensures Walk(Walk(b, h), k) == Walk(b, k)
    decreases b.nHeight
  {
    if h < b.nHeight {
      WalkTwice(b.pprev, h, k);
    }
  }

  lemma {:induction false} WalkInIndex(b: BlockIndex, h: nat, nodes: set<BlockIndex>)
    requires Index(nodes) && b in nodes && Linked(b) && h <= b.nHeight
    ensures Walk(b, h) in nodes
    decreases b.nHeight
  {
    if h < b.nHeight {
      WalkInIndex(b.pprev, h, nodes);
    }
  }

  // ----------------------------------------------------------------- the active chain

  /** Whether `a` is `b` or one of its ancestors. */
  ghost predicate Ancestor(a: BlockIndex, b: BlockIndex)
    requires Linked(b)
  {
    a.nHeight <= b.nHeight && Walk(b, a.nHeight) == a
  }

  /** The first `n` entries are the ancestors of a block at heights below `n`. */
  ghost predicate Holds(v: seq<BlockIndex?>, tip: BlockIndex, from: nat, n: nat)
    requires Linked(tip)
  {
    from <= n <= |v| && n <= tip.nHeight + 1 && forall i :: from <= i < n ==> v[i] == Walk(tip, i)
  }

  /** Nothing, or all ancestors of the last entry in order. */
  ghost predicate IsChain(v: seq<BlockIndex?>) {
    v != [] ==>
      var tip := v[|v| - 1];
      tip != null && Linked(tip) && tip.nHeight == |v| - 1 && Holds(v, tip, 0, |v|)
  }

  /** An entry of a chain has its own ancestors below it. */
  lemma EntriesBelow(v: seq<BlockIndex?>, i: nat, b: BlockIndex)
    requires IsChain(v) && i < |v| && v[i] == b
    ensures Linked(b) && b.nHeight == i && Holds(v, b, 0, i + 1)
  {
    var tip := v[|v| - 1];
    forall j | 0 <= j <= i ensures v[j] == Walk(b, j) {
      WalkTwice(tip, i, j);
    }
  }

  /** A chain starts at a block without predecessor and goes on with a successor at each height. */
  lemma ChainFollows(v: seq<BlockIndex?>, i: nat)
    requires IsChain(v) && i < |v|
    ensures v[i] != null && v[i].nHeight == i && v[i].pprev == if i == 0 then null else v[i - 1]
  {
    var b := Walk(v[|v| - 1], i);
    EntriesBelow(v, i, b);
    if i > 0 {
      assert v[i - 1] == Walk(b, i - 1) == Walk(b.pprev, i - 1);
    }
  }

  class CChain {
    var vChain: seq<BlockIndex?>

    ghost predicate Valid()
      reads this
    {
      IsChain(vChain)
    }

    constructor ()
      ensures Valid() && vChain == []
    {
      vChain := [];
    }

    function Tip(): BlockIndex?
      reads this
    {
      if |vChain| > 0 then vChain[|vChain| - 1] else null
    }

    function At(nHeight: int): BlockIndex?
      reads this
    {
      if nHeight < 0 || nHeight >= |vChain| then null else vChain[nHeight]
    }

    /** A block is in the chain exactly when it is the tip or an ancestor of it. */
    predicate Contains(b: BlockIndex)
      reads this
      requires Valid() && Linked(b)
      ensures Contains(b) <==> vChain != [] && Ancestor(b, vChain[|vChain| - 1])
    {
      At(b.nHeight) == b
    }

    function Height(): int
      reads this
    {
      |vChain| - 1
    }

    /** The height is that of the tip, and -1 without one. */
    lemma HeightOfTip()
      requires Valid()
      ensures Height() == if Tip() == null then -1 else Tip().nHeight
      ensures vChain != [] ==> Tip() == At(Height()) == vChain[|vChain| - 1]
    {
    }

    /** Makes the chain that of a block, stopping where the old chain agrees. */
    method SetTip(pindex: BlockIndex?)
      requires Valid() && (pindex != null ==> Linked(pindex))
      modifies this
      ensures Valid() && Tip() == pindex
    {
      if pindex == null {
        vChain := [];
        return;
      }
      ghost var was := vChain;
      var n := pindex.nHeight + 1;
      vChain := if n <= |vChain| then vChain[..n] else vChain + seq(n - |vChain|, i => null);
      var p: BlockIndex? := pindex;
      while p != null && vChain[p.nHeight] != p
        invariant |vChain| == n
        invariant p != null ==> Linked(p) && p.nHeight < n && p == Walk(pindex, p.nHeight)
        invariant Holds(vChain, pindex, if p == null then 0 else p.nHeight + 1, n)
        invariant p != null ==> forall i :: 0 <= i <= p.nHeight ==> vChain[i] == if i < |was| then was[i] else null
        decreases if p == null then 0 else p.nHeight + 1
      {
        StepDown(pindex, p);
        vChain := vChain[p.nHeight := p];
        p := p.pprev;
      }
      if p != null {
        EntriesBelow(was, p.nHeight, p);
        forall i | 0 <= i <= p.nHeight ensures vChain[i] == Walk(pindex, i) {
          WalkTwice(pindex, p.nHeight, i);
        }
      }
    }

    /** The highest block of the chain among a block and its ancestors. */
    method FindFork(pindex: BlockIndex?, ghost nodes: set<BlockIndex>) returns (r: BlockIndex?)
      requires Valid() && Index(nodes) && (pindex != null ==> pindex in nodes && Linked(pindex))
      ensures r != null ==> pindex != null && Linked(r) && Contains(r) && Ancestor(r, pindex)
      ensures forall b: BlockIndex :: pindex != null && Linked(b) && Contains(b) && Ancestor(b, pindex) ==>
                r != null && b.nHeight <= r.nHeight
    {
      if pindex == null {
        return null;
      }
      r := pindex;
      if pindex.nHeight > Height() {
        var ancestor, _ := pindex.GetAncestor(Height(), nodes);
        r := ancestor;
      }
      while r != null && !Contains(r)
        invariant r != null ==> Linked(r) && Ancestor(r, pindex)
        invariant forall b: BlockIndex :: Linked(b) && Contains(b) && Ancestor(b, pindex) ==>
                    r != null && b.nHeight <= r.nHeight
        decreases if r == null then 0 else r.nHeight + 1
      {
        StepDown(pindex, r);
        SameHeight(pindex, r);
        r := r.pprev;
      }
    }

    /** An ancestor, through the chain if the block is in it. */
    method StepBack(b: BlockIndex, nHeight: nat, ghost nodes: set<BlockIndex>) returns (r: BlockIndex)
      requires Valid() && Index(nodes) && b in nodes && Linked(b) && nHeight <= b.nHeight
      ensures r == Walk(b, nHeight)
    {
      if Contains(b) {
        WalkTwice(vChain[|vChain| - 1], b.nHeight, nHeight);
        r := At(nHeight);
      } else {
        var ancestor, _ := b.GetAncestor(nHeight, nodes);
        r := ancestor;
      }
    }

    /** Ancestors of a block, or of the tip, at the heights of a locator. */
    method GetLocator(start: BlockIndex?, ghost nodes: set<BlockIndex>) returns (vHave: seq<BlockIndex>)
      requires Valid() && Index(nodes) && (start != null ==> start in nodes) && (Tip() != null ==> Tip() in nodes)
      ensures start == null && Tip() == null ==> vHave == []
      ensures start != null || Tip() != null ==>
                var b: BlockIndex := if start == null then Tip() else start;
                var heights := LocatorHeights(b.nHeight, 1, 0);
                && Linked(b) && |vHave| == |heights|
                && forall i :: 0 <= i < |vHave| ==> vHave[i] == Walk(b, heights[i])
    {
      hide LocatorHeights, Linked, Walk, Index, IsChain;
      var nStep: nat := 1;
      vHave := [];
      var first := if start == null then Tip() else start;
      if first == null {
        return;
      }
      var pindex: BlockIndex := first;
      ghost var b: BlockIndex := pindex;
      InIndex(b, nodes);
      WalkSelf(b);
      ghost var heights := LocatorHeights(b.nHeight, 1, 0);
      while true
        invariant pindex in nodes && Linked(pindex) && Ancestor(pindex, b) && nStep >= 1
        invariant |vHave| <= |heights| && heights[|vHave|..] == LocatorHeights(pindex.nHeight, nStep, |vHave|)
        invariant forall i :: 0 <= i < |vHave| ==> vHave[i] == Walk(b, heights[i])
        decreases pindex.nHeight
      {
        ghost var rest := LocatorHeights(pindex.nHeight, nStep, |vHave|);
        LocatorStep(pindex.nHeight, nStep, |vHave|);
        assert heights[|vHave|] == rest[0] == pindex.nHeight;
        vHave := vHave + [pindex];
        if pindex.nHeight == 0 {
          break;
        }
        assert heights[|vHave|..] == rest[1..];
        var nHeight := Max(pindex.nHeight - nStep, 0);
        WalkTwice(b, pindex.nHeight, nHeight);
        WalkInIndex(pindex, nHeight, nodes);
        pindex := StepBack(pindex, nHeight, nodes);
        if |vHave| > 10 {
          nStep := 2 * nStep;
        }
      }
    }
  }

  /** The heights a locator lists: single steps at first, then twice as far each time. */
  function LocatorHeights(height: nat, step: nat, listed: nat): (r: seq<nat>)
    requires step >= 1
    ensures r != [] && r[0] == height && r[|r| - 1] == 0
    ensures forall i :: 0 < i < |r| ==> r[i] < r[i - 1]
    ensures forall i :: 0 <= i < |r| ==> r[i] <= height
    decreases height
  {
    [height] + if height == 0 then []
               else LocatorHeights(Max(height - step, 0), if listed + 1 > 10 then 2 * step else step, listed + 1)
  }

  lemma LocatorStep(height: nat, step: nat, listed: nat)
    requires step >= 1
    ensures var r := LocatorHeights(height, step, listed);
            && r[0] == height && (height == 0 ==> |r| == 1)
            && (height > 0 ==> r[1..] == LocatorHeights(Max(height - step, 0), if listed + 1 > 10 then 2 * step
                                                        else step, listed + 1))
  {
  }

  lemma WalkSelf(b: BlockIndex)
    requires Linked(b)
    ensures Walk(b, b.nHeight) == b
  {
  }

  lemma StepDown(tip: BlockIndex, b: BlockIndex)
    requires Linked(tip) && Linked(b) && Ancestor(b, tip)
    ensures b.pprev != null ==> Linked(b.pprev) && b.pprev.nHeight == b.nHeight - 1 && Ancestor(b.pprev, tip)
    ensures b.pprev == null <==> b.nHeight == 0
  {
    if b.pprev != null {
      WalkTwice(tip, b.nHeight, b.nHeight - 1);
    }
  }

  lemma SameHeight(tip: BlockIndex, b: BlockIndex)
    requires Linked(tip) && Linked(b) && Ancestor(b, tip)
    ensures forall c: BlockIndex :: Linked(c) && Ancestor(c, tip) && c.nHeight == b.nHeight ==> c == b
  {
  }
}
