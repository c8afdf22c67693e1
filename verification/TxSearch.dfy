/**
 * The search of the eviction tree as it is computed in 32 bits, on any weights:
 * when it finds the right transaction, and that it need not end otherwise.
 */
module TxSearch {
  import opened Common
  import opened TxTree

  /** The outcome of a search that has taken at most so many steps. */
  function Search(ts: seq<Info>, cs: seq<Weight>, from: nat, w: int, steps: nat): Option<nat>
    requires |cs| == |ts|
    decreases steps
  {
    if steps == 0 then None
    else
      var leftWeight := Int32(WeightAt(ts, cs, 2 * from + 1).evictionWeight);
      var rightWeight := Int32(WeightAt(ts, cs, from).evictionWeight - WeightAt(ts, cs, 2 * from + 2).evictionWeight);
      if w < leftWeight then Search(ts, cs, 2 * from + 1, w, steps - 1)
      else if w < rightWeight then Some(from)
      else Search(ts, cs, 2 * from + 2, w - rightWeight, steps - 1)
  }

  /** A search stays below the node where it starts. */
  lemma {:induction false} SearchStaysBelow(ts: seq<Info>, cs: seq<Weight>, from: nat, w: int, steps: nat, j: nat)
    requires |cs| == |ts| && Search(ts, cs, from, w, steps) == Some(j)
    ensures Below(from, j)
    decreases steps
  {
    hide WeightAt, Int32, Below;
    BelowSelf(from);
    BelowChildren(from, j);
    var leftWeight := Int32(WeightAt(ts, cs, 2 * from + 1).evictionWeight);
    var rightWeight := Int32(WeightAt(ts, cs, from).evictionWeight - WeightAt(ts, cs, 2 * from + 2).evictionWeight);
    if w < leftWeight {
      SearchStaysBelow(ts, cs, 2 * from + 1, w, steps - 1, j);
    } else if w >= rightWeight {
      SearchStaysBelow(ts, cs, 2 * from + 2, w - rightWeight, steps - 1, j);
    }
  }

  /** Where the weights fit, the search ends after at most one step for every node, with the transaction looked for. */
  lemma {:induction false} SearchFinds(ts: seq<Info>, cs: seq<Weight>, from: nat, w: int, steps: nat)
    requires Findable(ts, cs, from, w) && steps >= |ts| - from
    ensures |cs| == |ts| && Search(ts, cs, from, w, steps) == Some(FindByEvictionWeight(ts, cs, from, w))
    decreases |ts| - from
  {
    hide Sub, WeightAt, Int32, Summed, Below;
    SummedLength(ts, cs);
    NodeWeights(ts, cs, from);
    var left, own := Sub(ts, 2 * from + 1).evictionWeight, ts[from].txWeight.evictionWeight;
    if w < left {
      SearchFinds(ts, cs, 2 * from + 1, w, steps - 1);
    } else if w >= left + own {
      SearchFinds(ts, cs, 2 * from + 2, w - left - own, steps - 1);
    }
  }

  // --------------------------------------------------------------- weights that do not fit

  lemma Int32Below(x: int)
    requires x >= 0
    ensures Int32(x) <= x && (x >= 0x8000_0000 ==> Int32(x) < x)
  {
  }

  /** The last weight of the interval of a transaction. */
  function LastWeight(ts: seq<Info>, from: nat, i: nat): int
    requires i < |ts| && Below(from, i)
  {
    Before(ts, from, i) + ts[i].txWeight.evictionWeight - 1
  }

  ghost predicate Positive(ts: seq<Info>) {
    forall i :: 0 <= i < |ts| ==> ts[i].txWeight.evictionWeight > 0
  }

  /** At a node that does not fit, its own last weight leads away to the right. */
  lemma MissesItself(ts: seq<Info>, cs: seq<Weight>, i: nat, steps: nat)
    requires Summed(ts, cs) && Positive(ts) && i < |ts| && !FitsAt(ts, i) && Below(i, i)
    ensures |cs| == |ts| && Search(ts, cs, i, LastWeight(ts, i, i), steps) != Some(i)
  {
    hide Sub, WeightAt, Int32, Summed, Below;
    SummedLength(ts, cs);
    NodeSums(ts, i);
    WeightIsSub(ts, cs, i);
    WeightIsSub(ts, cs, 2 * i + 1);
    WeightIsSub(ts, cs, 2 * i + 2);
    var left, own := Sub(ts, 2 * i + 1).evictionWeight, ts[i].txWeight.evictionWeight;
    Int32Below(left);
    Int32Below(left + own);
    if steps > 0 && Search(ts, cs, i, left + own - 1, steps) == Some(i) {
      SearchStaysBelow(ts, cs, 2 * i + 2, left + own - 1 - Int32(left + own), steps - 1, i);
      NotAbove(2 * i + 2, i);
    }
  }

  /** If every node above fits, the search comes to the node that does not, and misses it. */
  lemma {:induction false} MissesNode(ts: seq<Info>, cs: seq<Weight>, from: nat, i: nat, steps: nat)
    requires Summed(ts, cs) && Positive(ts) && i < |ts| && !FitsAt(ts, i) && Below(from, i)
    requires forall k :: 0 <= k < i ==> FitsAt(ts, k)
    ensures |cs| == |ts| && Search(ts, cs, from, LastWeight(ts, from, i), steps) != Some(i)
    decreases |ts| - from
  {
    hide Sub, WeightAt, Int32, Summed, Below, FitsAt;
    SummedLength(ts, cs);
    NotAbove(from, i);
    if from == i {
      MissesItself(ts, cs, i, steps);
    } else if steps > 0 {
      NodeWeights(ts, cs, from);
      BelowChildren(from, i);
      BeforeSteps(ts, from, i);
      if Below(2 * from + 1, i) {
        IntervalFits(ts, 2 * from + 1, i);
        MissesNode(ts, cs, 2 * from + 1, i, steps - 1);
      } else {
        IntervalFits(ts, 2 * from + 2, i);
        MissesNode(ts, cs, 2 * from + 2, i, steps - 1);
      }
    }
  }

  lemma BeforeSteps(ts: seq<Info>, from: nat, i: nat)
    requires i < |ts| && Below(from, i) && from != i
    ensures from < i && (Below(2 * from + 1, i) || Below(2 * from + 2, i))
    ensures Before(ts, from, i) ==
              if Below(2 * from + 1, i) then Before(ts, 2 * from + 1, i)
              else Sub(ts, 2 * from + 1).evictionWeight + ts[from].txWeight.evictionWeight + Before(ts, 2 * from + 2, i)
  {
    hide Below, Sub;
    NotAbove(from, i);
    BelowChildren(from, i);
  }

  // ------------------------------------------------------------------------- exactly when

  predicate InInterval(ts: seq<Info>, j: nat, w: int)
    requires j < |ts| && Below(0, j)
  {
    Before(ts, 0, j) <= w < Before(ts, 0, j) + ts[j].txWeight.evictionWeight
  }

  /** A weight in the interval of a transaction leads to that transaction. */
  ghost predicate FindsRight(ts: seq<Info>, cs: seq<Weight>, w: int)
    requires |cs| == |ts|
  {
    forall j :: 0 <= j < |ts| && Below(0, j) && InInterval(ts, j, w) ==>
      exists steps: nat :: Search(ts, cs, 0, w, steps) == Some(j)
  }

  lemma FitsFinds(ts: seq<Info>, cs: seq<Weight>, w: int)
    requires Summed(ts, cs) && Positive(ts) && Fits(ts) && ts != [] && 0 <= w < Sub(ts, 0).evictionWeight
    ensures |cs| == |ts| && FindsRight(ts, cs, w)
  {
    hide Sub, WeightAt, Int32, Summed, Below, Fits, Before;
    SummedLength(ts, cs);
    forall j | 0 <= j < |ts| && Below(0, j) && InInterval(ts, j, w)
      ensures exists steps: nat :: Search(ts, cs, 0, w, steps) == Some(j)
    {
      FindIsInterval(ts, cs, 0, w, j);
      SearchFinds(ts, cs, 0, w, |ts|);
      assert Search(ts, cs, 0, w, |ts|) == Some(j);
    }
  }

  lemma FirstMisfit(ts: seq<Info>, i: nat) returns (k: nat)
    requires i < |ts| && !FitsAt(ts, i)
    ensures k <= i && !FitsAt(ts, k) && forall j :: 0 <= j < k ==> FitsAt(ts, j)
  {
    hide FitsAt;
    k := 0;
    while FitsAt(ts, k)
      invariant k <= i && forall j :: 0 <= j < k ==> FitsAt(ts, j)
      decreases i - k
    {
      k := k + 1;
    }
  }

  /**
   * Every weight below the total leads to the transaction whose interval it is in
   * exactly when each node and all to the left below it weigh less than 2^31.
   */
  lemma SearchIsRight(ts: seq<Info>, cs: seq<Weight>)
    requires Summed(ts, cs) && Positive(ts) && ts != []
    ensures |cs| == |ts|
    ensures (forall w :: 0 <= w < Sub(ts, 0).evictionWeight ==> FindsRight(ts, cs, w)) <==> Fits(ts)
  {
    hide Sub, Summed, Below, Before, FitsAt, FindsRight, Search;
    SummedLength(ts, cs);
    if Fits(ts) {
      forall w | 0 <= w < Sub(ts, 0).evictionWeight ensures FindsRight(ts, cs, w) {
        FitsFinds(ts, cs, w);
      }
    } else {
      var i :| 0 <= i < |ts| && !FitsAt(ts, i);
      var k := FirstMisfit(ts, i);
      RootAboveAll(k);
      var w := LastWeight(ts, 0, k);
      IntervalFits(ts, 0, k);
      MissedWeight(ts, cs, k);
    }
  }

  lemma MissedWeight(ts: seq<Info>, cs: seq<Weight>, k: nat)
    requires Summed(ts, cs) && Positive(ts) && k < |ts| && !FitsAt(ts, k) && Below(0, k)
    requires forall j :: 0 <= j < k ==> FitsAt(ts, j)
    ensures |cs| == |ts| && !FindsRight(ts, cs, LastWeight(ts, 0, k))
  {
    hide Sub, Summed, Below, Before, FitsAt, Search;
    SummedLength(ts, cs);
    var w := LastWeight(ts, 0, k);
    forall steps: nat ensures Search(ts, cs, 0, w, steps) != Some(k) {
      MissesNode(ts, cs, 0, k, steps);
    }
  }

  // ---------------------------------------------------------------------- without an end

  lemma {:induction false} OutsideNeverEnds(ts: seq<Info>, cs: seq<Weight>, from: nat, w: nat, steps: nat)
    requires |cs| == |ts| <= from
    ensures Search(ts, cs, from, w, steps) == None
    decreases steps
  {
    if steps > 0 {
      OutsideNeverEnds(ts, cs, 2 * from + 2, w, steps - 1);
    }
  }

  /** One transaction of weight 2^31: the search for it never ends. */
  lemma HeavySearchNeverEnds(id: TxId, steps: nat)
    ensures var ts, cs := [Info(id, Weight(0, 0x8000_0000))], [Zero()];
            Summed(ts, cs) && Search(ts, cs, 0, 0, steps) == None
  {
    var ts, cs := [Info(id, Weight(0, 0x8000_0000))], [Zero()];
    if steps > 0 {
      OutsideNeverEnds(ts, cs, 2, 0x8000_0000, steps - 1);
    }
  }
}
