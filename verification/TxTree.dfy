/**
 * The weighted transaction tree as values: a complete binary tree in an array,
 * in which every node stores the total weight of its proper descendants.
 */
module TxTree {

  type TxId = nat

  datatype Weight = Weight(cost: int, evictionWeight: int) {
    function Add(other: Weight): Weight {
      Weight(cost + other.cost, evictionWeight + other.evictionWeight)
    }

    function Negate(): Weight {
      Weight(-cost, -evictionWeight)
    }
  }

  function Zero(): Weight {
    Weight(0, 0)
  }

  datatype Info = Info(txId: TxId, txWeight: Weight)

  // ------------------------------------------------------------------ the tree shape

  function Parent(i: nat): nat
    requires i > 0
  {
    (i - 1) / 2
  }

  /** Whether node `j` is node `i` or below it. */
  predicate Below(i: nat, j: nat) {
    i == j || (j > i && Below(i, Parent(j)))
  }

  lemma {:induction false} RootAboveAll(j: nat)
    ensures Below(0, j)
  {
    if j > 0 {
      RootAboveAll(Parent(j));
    }
  }

  /** What is below a node is the node itself or below exactly one child. */
  lemma {:induction false} BelowChildren(i: nat, j: nat)
    ensures Below(i, j) <==> i == j || Below(2 * i + 1, j) || Below(2 * i + 2, j)
    ensures !(Below(2 * i + 1, j) && Below(2 * i + 2, j))
    decreases j
  {
    if j > i {
      BelowChildren(i, Parent(j));
    }
  }

  // ------------------------------------------------------------------------- weights

  /** The total weight of a node and all below it. */
  function Sub(ts: seq<Info>, i: nat): Weight
    decreases |ts| - i
  {
    if i >= |ts| then Zero() else ts[i].txWeight.Add(Below2(ts, i))
  }

  /** The total weight of a node's proper descendants. */
  function Below2(ts: seq<Info>, i: nat): Weight
    requires i < |ts|
    decreases |ts| - i, 0
  {
    Sub(ts, 2 * i + 1).Add(Sub(ts, 2 * i + 2))
  }

  lemma SubStep(ts: seq<Info>, i: nat)
    ensures Sub(ts, i) == if i < |ts| then ts[i].txWeight.Add(Below2(ts, i)) else Zero()
  {
  }

  function Only(yes: bool, w: Weight): Weight {
    if yes then w else Zero()
  }

  /** Sums below two children with a weight in at most one of them. */
  lemma JoinSums(a: Weight, l: bool, b: Weight, r: bool, w: Weight)
    requires !(l && r)
    ensures a.Add(Only(l, w)).Add(b.Add(Only(r, w))) == a.Add(b).Add(Only(l || r, w))
  {
  }

  lemma {:induction false} SubUpdate(ts: seq<Info>, k: nat, t: Info, i: nat)
    requires k < |ts|
    ensures Sub(ts[k := t], i) == Sub(ts, i).Add(Only(Below(i, k), t.txWeight.Add(ts[k].txWeight.Negate())))
    decreases |ts| - i
  {
    hide Below, Sub;
    SubStep(ts, i);
    SubStep(ts[k := t], i);
    if i < |ts| {
      BelowChildren(i, k);
      NotAbove(2 * i + 1, k);
      NotAbove(2 * i + 2, k);
      SubUpdate(ts, k, t, 2 * i + 1);
      SubUpdate(ts, k, t, 2 * i + 2);
      var delta := t.txWeight.Add(ts[k].txWeight.Negate());
      JoinSums(Sub(ts, 2 * i + 1), Below(2 * i + 1, k), Sub(ts, 2 * i + 2), Below(2 * i + 2, k), delta);
      assert Below2(ts[k := t], i) == Below2(ts, i).Add(Only(Below(2 * i + 1, k) || Below(2 * i + 2, k), delta));
    } else {
      NotAbove(i, k);
    }
  }

  lemma {:induction false} SubPush(ts: seq<Info>, t: Info, i: nat)
    ensures Sub(ts + [t], i) == Sub(ts, i).Add(Only(Below(i, |ts|), t.txWeight))
    decreases |ts| - i
  {
    hide Below, Sub;
    SubStep(ts, i);
    SubStep(ts + [t], i);
    if i < |ts| {
      BelowChildren(i, |ts|);
      SubPush(ts, t, 2 * i + 1);
      SubPush(ts, t, 2 * i + 2);
      JoinSums(Sub(ts, 2 * i + 1), Below(2 * i + 1, |ts|), Sub(ts, 2 * i + 2), Below(2 * i + 2, |ts|), t.txWeight);
      assert Below2(ts + [t], i) == Below2(ts, i).Add(Only(Below(i, |ts|), t.txWeight));
    } else {
      NotAbove(i, |ts|);
      BelowSelf(i);
      SubStep(ts + [t], 2 * i + 1);
      SubStep(ts + [t], 2 * i + 2);
    }
  }

  lemma BelowSelf(i: nat)
    ensures Below(i, i)
  {
  }

  lemma NotAbove(i: nat, j: nat)
    ensures i > j ==> !Below(i, j)
  {
  }

  // ----------------------------------------------------------------- back propagation

  function BackPropagate(cs: seq<Weight>, from: nat, delta: Weight): (r: seq<Weight>)
    requires from > 0 ==> Parent(from) < |cs|
    ensures |r| == |cs|
    decreases from
  {
    if from == 0 then cs
    else
      var p := Parent(from);
      BackPropagate(cs[p := cs[p].Add(delta)], p, delta)
  }

  /** Exactly the proper ancestors change. */
  lemma {:induction false} Propagated(cs: seq<Weight>, from: nat, delta: Weight, i: nat)
    requires (from > 0 ==> Parent(from) < |cs|) && i < |cs|
    ensures BackPropagate(cs, from, delta)[i] == cs[i].Add(Only(i != from && Below(i, from), delta))
    decreases from
  {
    if from > 0 {
      var p := Parent(from);
      Propagated(cs[p := cs[p].Add(delta)], p, delta, i);
      NotAbove(i, p);
    }
  }

  /** Every node stores the weight of its proper descendants. */
  ghost predicate Summed(ts: seq<Info>, cs: seq<Weight>) {
    |cs| == |ts| && forall i :: 0 <= i < |ts| ==> cs[i] == Below2(ts, i)
  }

  lemma AddSums(ts: seq<Info>, cs: seq<Weight>, t: Info)
    requires Summed(ts, cs)
    ensures Summed(ts + [t], BackPropagate(cs + [Zero()], |ts|, t.txWeight))
  {
    var ts', cs' := ts + [t], BackPropagate(cs + [Zero()], |ts|, t.txWeight);
    forall i | 0 <= i < |ts'| ensures cs'[i] == Below2(ts', i) {
      Propagated(cs + [Zero()], |ts|, t.txWeight, i);
      PushBelow(ts, t, i);
    }
  }

  lemma PushBelow(ts: seq<Info>, t: Info, i: nat)
    requires i <= |ts|
    ensures Below2(ts + [t], i) ==
            (if i < |ts| then Below2(ts, i) else Zero()).Add(Only(i != |ts| && Below(i, |ts|), t.txWeight))
  {
    hide Below, Sub;
    SubPush(ts, t, 2 * i + 1);
    SubPush(ts, t, 2 * i + 2);
    if i < |ts| {
      BelowChildren(i, |ts|);
      JoinSums(Sub(ts, 2 * i + 1), Below(2 * i + 1, |ts|), Sub(ts, 2 * i + 2), Below(2 * i + 2, |ts|), t.txWeight);
    } else {
      NotAbove(2 * i + 1, |ts|);
      NotAbove(2 * i + 2, |ts|);
      SubStep(ts, 2 * i + 1);
      SubStep(ts, 2 * i + 2);
    }
  }

  lemma UpdateBelow(ts: seq<Info>, k: nat, t: Info, i: nat)
    requires k < |ts| && i < |ts|
    ensures Below2(ts[k := t], i) ==
            Below2(ts, i).Add(Only(i != k && Below(i, k), t.txWeight.Add(ts[k].txWeight.Negate())))
  {
    hide Below, Sub;
    BelowChildren(i, k);
    SubUpdate(ts, k, t, 2 * i + 1);
    SubUpdate(ts, k, t, 2 * i + 2);
    NotAbove(2 * i + 1, k);
    NotAbove(2 * i + 2, k);
  }

  lemma Cancel(a: Weight, yes: bool, w: Weight)
    ensures a.Add(Only(yes, w)).Add(Only(yes, w.Negate())) == a
  {
  }

  lemma SummedAt(ts: seq<Info>, cs: seq<Weight>, i: nat)
    requires Summed(ts, cs) && i < |ts|
    ensures |cs| == |ts| && cs[i] == Below2(ts, i)
  {
  }

  lemma PopSumAt(ts: seq<Info>, cs: seq<Weight>, i: nat)
    requires Summed(ts, cs) && i < |ts| - 1 && |cs| == |ts|
    ensures var n := |ts| - 1; BackPropagate(cs, n, ts[n].txWeight.Negate())[i] == Below2(ts[..n], i)
  {
    hide Summed, BackPropagate, Below, Below2, Sub, Weight.Add, Weight.Negate, Only;
    var n := |ts| - 1;
    var w := ts[n].txWeight;
    SummedAt(ts, cs, i);
    Propagated(cs, n, w.Negate(), i);
    assert ts[..n] + [ts[n]] == ts;
    PushBelow(ts[..n], ts[n], i);
    Cancel(Below2(ts[..n], i), Below(i, n), w);
  }

  /** Dropping the last node: its ancestors lose its weight. */
  lemma PopSums(ts: seq<Info>, cs: seq<Weight>)
    requires Summed(ts, cs) && ts != []
    ensures var n := |ts| - 1; Summed(ts[..n], BackPropagate(cs, n, ts[n].txWeight.Negate())[..n])
  {
    hide BackPropagate, Below2, Sub, Weight.Add, Weight.Negate;
    var n := |ts| - 1;
    forall i | 0 <= i < n ensures BackPropagate(cs, n, ts[n].txWeight.Negate())[i] == Below2(ts[..n], i) {
      PopSumAt(ts, cs, i);
    }
  }

  /** Replacing a node: its ancestors change by the difference. */
  lemma ReplaceSums(ts: seq<Info>, cs: seq<Weight>, k: nat, t: Info)
    requires Summed(ts, cs) && k < |ts|
    ensures Summed(ts[k := t], BackPropagate(cs, k, t.txWeight.Add(ts[k].txWeight.Negate())))
  {
    hide BackPropagate, Below2, Sub, Below, Weight.Add, Weight.Negate;
    var delta := t.txWeight.Add(ts[k].txWeight.Negate());
    forall i | 0 <= i < |ts| ensures BackPropagate(cs, k, delta)[i] == Below2(ts[k := t], i) {
      Propagated(cs, k, delta, i);
      UpdateBelow(ts, k, t, i);
    }
  }

  // ----------------------------------------------------------------------- selection

  function WeightAt(ts: seq<Info>, cs: seq<Weight>, i: nat): Weight
    requires |cs| == |ts|
  {
    if i < |ts| then ts[i].txWeight.Add(cs[i]) else Zero()
  }

  /** The stored weights add up to the weight of the subtree. */
  lemma WeightIsSub(ts: seq<Info>, cs: seq<Weight>, i: nat)
    requires Summed(ts, cs)
    ensures WeightAt(ts, cs, i) == Sub(ts, i)
  {
  }

  /** Conversion to a 32-bit signed integer. */
  function Int32(x: int): int {
    (x + 0x8000_0000) % 0x1_0000_0000 - 0x8000_0000
  }

  ghost predicate NonNegative(ts: seq<Info>) {
    forall i :: 0 <= i < |ts| ==> ts[i].txWeight.evictionWeight >= 0
  }

  lemma {:induction false} SubNonNegative(ts: seq<Info>, i: nat)
    requires NonNegative(ts)
    ensures Sub(ts, i).evictionWeight >= 0
    decreases |ts| - i
  {
    if i < |ts| {
      SubNonNegative(ts, 2 * i + 1);
      SubNonNegative(ts, 2 * i + 2);
    }
  }

  lemma NodeSums(ts: seq<Info>, i: nat)
    requires NonNegative(ts) && i < |ts|
    ensures var left, own, right := Sub(ts, 2 * i + 1).evictionWeight, ts[i].txWeight.evictionWeight,
            Sub(ts, 2 * i + 2).evictionWeight;
            && left >= 0 && own >= 0 && right >= 0 && Sub(ts, i).evictionWeight == left + own + right
            && (left > 0 ==> 2 * i + 1 < |ts|) && (right > 0 ==> 2 * i + 2 < |ts|)
  {
    hide Sub;
    SubStep(ts, i);
    SubStep(ts, 2 * i + 1);
    SubStep(ts, 2 * i + 2);
    SubNonNegative(ts, 2 * i + 1);
    SubNonNegative(ts, 2 * i + 2);
  }

  /** A node and all to the left below it weigh few enough for a signed 32-bit number. */
  ghost predicate FitsAt(ts: seq<Info>, i: nat)
    requires i < |ts|
  {
    Sub(ts, 2 * i + 1).evictionWeight + ts[i].txWeight.evictionWeight < 0x8000_0000
  }

  ghost predicate Fits(ts: seq<Info>) {
    forall i :: 0 <= i < |ts| ==> FitsAt(ts, i)
  }

  /** What selection reads at a node, as long as 32 bits are enough for it. */
  lemma NodeWeights(ts: seq<Info>, cs: seq<Weight>, i: nat)
    requires Summed(ts, cs) && NonNegative(ts) && i < |ts| && FitsAt(ts, i)
    ensures var left, own, right := Sub(ts, 2 * i + 1).evictionWeight, ts[i].txWeight.evictionWeight,
            Sub(ts, 2 * i + 2).evictionWeight;
            && left >= 0 && own >= 0 && right >= 0 && Sub(ts, i).evictionWeight == left + own + right
            && Int32(WeightAt(ts, cs, 2 * i + 1).evictionWeight) == left
            && Int32(WeightAt(ts, cs, i).evictionWeight - WeightAt(ts, cs, 2 * i + 2).evictionWeight) == left + own
            && (left > 0 ==> 2 * i + 1 < |ts|) && (right > 0 ==> 2 * i + 2 < |ts|)
  {
    hide Sub, WeightAt, Summed, NonNegative;
    NodeSums(ts, i);
    WeightIsSub(ts, cs, i);
    WeightIsSub(ts, cs, 2 * i + 1);
    WeightIsSub(ts, cs, 2 * i + 2);
  }

  ghost predicate Findable(ts: seq<Info>, cs: seq<Weight>, from: nat, w: int) {
    && Summed(ts, cs) && NonNegative(ts) && from < |ts| && Fits(ts)
    && 0 <= w < Sub(ts, from).evictionWeight
  }

  /** The search for the transaction that a random weight falls on. */
  function FindByEvictionWeight(ts: seq<Info>, cs: seq<Weight>, from: nat, w: int): (r: nat)
    requires Findable(ts, cs, from, w)
    ensures r < |ts| && Below(from, r)
    decreases |ts| - from
  {
    NodeWeights(ts, cs, from);
    BelowSelf(from);
    var leftWeight := Int32(WeightAt(ts, cs, 2 * from + 1).evictionWeight);
    var rightWeight := Int32(WeightAt(ts, cs, from).evictionWeight - WeightAt(ts, cs, 2 * from + 2).evictionWeight);
    if w < leftWeight then
      var r := FindByEvictionWeight(ts, cs, 2 * from + 1, w);
      BelowChildren(from, r);
      r
    else if w < rightWeight then from
    else
      var r := FindByEvictionWeight(ts, cs, 2 * from + 2, w - rightWeight);
      BelowChildren(from, r);
      r
  }

  /** The eviction weight of the nodes that come before `j` from left to right below `from`. */
  function Before(ts: seq<Info>, from: nat, j: nat): int
    requires j < |ts| && Below(from, j)
    decreases |ts| - from
  {
    BelowChildren(from, j);
    NotAbove(from, j);
    if from == j then Sub(ts, 2 * from + 1).evictionWeight
    else if Below(2 * from + 1, j) then Before(ts, 2 * from + 1, j)
    else Sub(ts, 2 * from + 1).evictionWeight + ts[from].txWeight.evictionWeight + Before(ts, 2 * from + 2, j)
  }

  /** Every transaction's interval lies within the total. */
  lemma {:induction false} IntervalFits(ts: seq<Info>, from: nat, j: nat)
    requires NonNegative(ts) && j < |ts| && Below(from, j)
    ensures 0 <= Before(ts, from, j) &&
            Before(ts, from, j) + ts[j].txWeight.evictionWeight <= Sub(ts, from).evictionWeight
    decreases |ts| - from
  {
    hide Below, Sub;
    NotAbove(from, j);
    BelowChildren(from, j);
    SubStep(ts, from);
    SubNonNegative(ts, 2 * from + 1);
    SubNonNegative(ts, 2 * from + 2);
    if from == j {
    } else if Below(2 * from + 1, j) {
      IntervalFits(ts, 2 * from + 1, j);
    } else {
      IntervalFits(ts, 2 * from + 2, j);
    }
  }

  /** A weight selects a transaction exactly when it falls into that one's interval. */
  lemma {:induction false} FindIsInterval(ts: seq<Info>, cs: seq<Weight>, from: nat, w: int, j: nat)
    requires Findable(ts, cs, from, w) && j < |ts| && Below(from, j)
    ensures FindByEvictionWeight(ts, cs, from, w) == j
            <==> Before(ts, from, j) <= w < Before(ts, from, j) + ts[j].txWeight.evictionWeight
    decreases |ts| - from
  {
    hide Below, Sub, WeightAt, Summed;
    NodeWeights(ts, cs, from);
    NotAbove(from, j);
    BelowChildren(from, j);
    NotAbove(2 * from + 1, from);
    NotAbove(2 * from + 2, from);
    var left, own := Sub(ts, 2 * from + 1).evictionWeight, ts[from].txWeight.evictionWeight;
    if from != j {
      var side := if Below(2 * from + 1, j) then 2 * from + 1 else 2 * from + 2;
      IntervalFits(ts, side, j);
    }
    if w < left {
      BelowChildren(from, FindByEvictionWeight(ts, cs, 2 * from + 1, w));
      if Below(2 * from + 1, j) {
        FindIsInterval(ts, cs, 2 * from + 1, w, j);
      }
    } else if w >= left + own {
      BelowChildren(from, FindByEvictionWeight(ts, cs, 2 * from + 2, w - left - own));
      if Below(2 * from + 2, j) {
        FindIsInterval(ts, cs, 2 * from + 2, w - left - own, j);
      }
    }
  }

  // ------------------------------------------------------------------ whole contents

  /** The total weight of a list of transactions. */
  function Total(ts: seq<Info>): Weight {
    if ts == [] then Zero() else Total(ts[..|ts| - 1]).Add(ts[|ts| - 1].txWeight)
  }

  /** The weight of the root is the total of all transactions. */
  lemma {:induction false} RootIsTotal(ts: seq<Info>)
    ensures Sub(ts, 0) == Total(ts)
  {
    hide Sub, Below;
    if ts == [] {
      SubStep(ts, 0);
    } else {
      var n := |ts| - 1;
      RootIsTotal(ts[..n]);
      RootAboveAll(n);
      SubPush(ts[..n], ts[n], 0);
      assert ts[..n] + [ts[n]] == ts;
    }
  }

  /** The id map is the inverse of the array. */
  ghost predicate Indexed(ts: seq<Info>, index: map<TxId, nat>) {
    && (forall i :: 0 <= i < |ts| ==> ts[i].txId in index && index[ts[i].txId] == i)
    && (forall id :: id in index ==> index[id] < |ts| && ts[index[id]].txId == id)
  }

  /** The weight of every transaction held. */
  ghost function Contents(ts: seq<Info>, index: map<TxId, nat>): map<TxId, Weight>
    requires Indexed(ts, index)
  {
    map id | id in index :: ts[index[id]].txWeight
  }

  lemma IndexAt(ts: seq<Info>, index: map<TxId, nat>, id: TxId)
    requires Indexed(ts, index)
    ensures id in index ==> index[id] < |ts| && ts[index[id]].txId == id
    ensures id !in index ==> Contents(ts, index) - {id} == Contents(ts, index)
    ensures id in Contents(ts, index) <==> id in index
  {
  }

  lemma AddIndexes(ts: seq<Info>, index: map<TxId, nat>, t: Info)
    requires Indexed(ts, index) && t.txId !in index
    ensures Indexed(ts + [t], index[t.txId := |ts|])
    ensures Contents(ts + [t], index[t.txId := |ts|]) == Contents(ts, index)[t.txId := t.txWeight]
  {
  }

  /** What is left in the array after a removal: the last transaction takes the hole. */
  function Without(ts: seq<Info>, k: nat): seq<Info>
    requires k < |ts|
  {
    var n := |ts| - 1;
    if k < n then ts[..n][k := ts[n]] else ts[..n]
  }

  lemma WithoutIs(ts: seq<Info>, k: nat)
    requires k < |ts|
    ensures var n := |ts| - 1; Without(ts, k) == if k < n then ts[k := ts[n]][..n] else ts[..n]
  {
  }

  lemma RemoveIndexes(ts: seq<Info>, index: map<TxId, nat>, id: TxId)
    requires Indexed(ts, index) && id in index
    ensures var k, n := index[id], |ts| - 1;
            var index' := (if k < n then index[ts[n].txId := k] else index) - {id};
            && Indexed(Without(ts, k), index')
            && Contents(Without(ts, k), index') == Contents(ts, index) - {id}
  {
    var k, n := index[id], |ts| - 1;
    var ts', index' := Without(ts, k), (if k < n then index[ts[n].txId := k] else index) - {id};
    assert |ts'| == n && forall i :: 0 <= i < n ==> ts'[i] == if i == k then ts[n] else ts[i];
    forall j | j in index' ensures j in index && index'[j] < n && ts'[index'[j]] == ts[index[j]] {
    }
  }

  /** Propagation above a node does not reach past the node. */
  lemma {:induction false} PropagatePrefix(cs: seq<Weight>, from: nat, delta: Weight, n: nat)
    requires n <= |cs| && from < n
    ensures BackPropagate(cs, from, delta)[..n] == BackPropagate(cs[..n], from, delta)
    decreases from
  {
    if from > 0 {
      var p := Parent(from);
      PropagatePrefix(cs[p := cs[p].Add(delta)], p, delta, n);
      assert cs[p := cs[p].Add(delta)][..n] == cs[..n][p := cs[p].Add(delta)];
    }
  }

  /** The stored sums after a removal. */
  function RemoveSums(ts: seq<Info>, cs: seq<Weight>, k: nat): seq<Weight>
    requires |cs| == |ts| && k < |ts|
  {
    var n := |ts| - 1;
    var cs1 := BackPropagate(cs, n, ts[n].txWeight.Negate());
    (if k < n then BackPropagate(cs1, k, ts[n].txWeight.Add(ts[k].txWeight.Negate())) else cs1)[..n]
  }

  lemma RemovalSums(ts: seq<Info>, cs: seq<Weight>, k: nat)
    requires Summed(ts, cs) && k < |ts|
    ensures Summed(Without(ts, k), RemoveSums(ts, cs, k))
  {
    hide Summed, BackPropagate;
    SummedLength(ts, cs);
    var n := |ts| - 1;
    var cs1 := BackPropagate(cs, n, ts[n].txWeight.Negate());
    PopSums(ts, cs);
    if k < n {
      PropagatePrefix(cs1, k, ts[n].txWeight.Add(ts[k].txWeight.Negate()), n);
      ReplaceSums(ts[..n], cs1[..n], k, ts[n]);
    }
  }

  lemma SummedLength(ts: seq<Info>, cs: seq<Weight>)
    requires Summed(ts, cs)
    ensures |cs| == |ts|
  {
  }

  lemma Exchange(a: Weight, last: Weight, w: Weight)
    ensures a.Add(last.Add(w.Negate())).Add(w) == a.Add(last)
  {
  }

  /** A removal takes the transaction's weight out of the total. */
  lemma RemovalTotal(ts: seq<Info>, k: nat)
    requires k < |ts|
    ensures Total(ts) == Total(Without(ts, k)).Add(ts[k].txWeight)
  {
    hide Total, Weight.Add, Weight.Negate;
    var n := |ts| - 1;
    TotalStep(ts);
    if k < n {
      UpdateTotal(ts[..n], k, ts[n]);
      Exchange(Total(ts[..n]), ts[n].txWeight, ts[k].txWeight);
    }
  }

  lemma TotalStep(ts: seq<Info>)
    requires ts != []
    ensures Total(ts) == Total(ts[..|ts| - 1]).Add(ts[|ts| - 1].txWeight)
  {
  }

  lemma UpdateTotal(ts: seq<Info>, k: nat, t: Info)
    requires k < |ts|
    ensures Total(ts[k := t]) == Total(ts).Add(t.txWeight.Add(ts[k].txWeight.Negate()))
  {
    hide Sub, Total, Below, Weight.Add, Weight.Negate;
    RootIsTotal(ts);
    RootIsTotal(ts[k := t]);
    SubUpdate(ts, k, t, 0);
    RootAboveAll(k);
  }

  /** Weights a mempool gives: positive, and few enough for 32 bits. */
  ghost predicate Evictable(ts: seq<Info>) {
    (forall i :: 0 <= i < |ts| ==> ts[i].txWeight.evictionWeight > 0) && Total(ts).evictionWeight < 0x8000_0000
  }

  lemma EvictableTotal(ts: seq<Info>)
    requires Evictable(ts) && ts != []
    ensures NonNegative(ts) && 0 < Sub(ts, 0).evictionWeight == Total(ts).evictionWeight
  {
    hide Sub, Total;
    RootIsTotal(ts);
    SubStep(ts, 0);
    SubNonNegative(ts, 1);
    SubNonNegative(ts, 2);
  }

  lemma StaysEvictable(ts: seq<Info>, k: nat)
    requires Evictable(ts) && k < |ts|
    ensures Evictable(Without(ts, k)) && |Without(ts, k)| == |ts| - 1
  {
    hide Total;
    RemovalTotal(ts, k);
  }

  lemma {:induction false} SubWithin(ts: seq<Info>, i: nat)
    requires NonNegative(ts) && i < |ts|
    ensures Sub(ts, i).evictionWeight <= Sub(ts, 0).evictionWeight
    decreases i
  {
    hide Sub;
    if i > 0 {
      NodeSums(ts, Parent(i));
      SubWithin(ts, Parent(i));
    }
  }

  lemma EvictableFits(ts: seq<Info>)
    requires Evictable(ts)
    ensures Fits(ts)
  {
    hide Sub, Total;
    RootIsTotal(ts);
    forall i | 0 <= i < |ts| ensures FitsAt(ts, i) {
      NodeSums(ts, i);
      SubWithin(ts, i);
    }
  }
}
