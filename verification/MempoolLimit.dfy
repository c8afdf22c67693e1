/** The weighted transaction tree as an object that evicts at random. */
module MempoolLimit {
  import opened Common
  import opened TxTree

  class WeightedTxTree {
    const capacity: int
    var size: nat
    var txIdAndWeights: seq<Info>
    var childWeights: seq<Weight>
    var txIdToIndexMap: map<TxId, nat>

    ghost predicate Valid()
      reads this
    {
      && capacity >= 0 && size == |txIdAndWeights| && Summed(txIdAndWeights, childWeights)
      && Indexed(txIdAndWeights, txIdToIndexMap)
    }

    ghost function Held(): map<TxId, Weight>
      requires Valid()
      reads this
    {
      Contents(txIdAndWeights, txIdToIndexMap)
    }

    constructor (capacity_: int)
      requires capacity_ >= 0
      ensures Valid() && capacity == capacity_ && Held() == map[]
    {
      capacity, size, txIdAndWeights, childWeights, txIdToIndexMap := capacity_, 0, [], [], map[];
    }

    /** The weight of a node and all below it. */
    function GetWeightAt(index: nat): (w: Weight)
      requires Valid()
      reads this
      ensures w == Sub(txIdAndWeights, index)
    {
      WeightIsSub(txIdAndWeights, childWeights, index);
      if index < size then txIdAndWeights[index].txWeight.Add(childWeights[index]) else Zero()
    }

    /** The total weight is that of all transactions held. */
    function GetTotalWeight(): (w: Weight)
      requires Valid()
      reads this
      ensures w == Total(txIdAndWeights)
    {
      RootIsTotal(txIdAndWeights);
      GetWeightAt(0)
    }

    method BackPropagate(from: nat, delta: Weight)
      requires from > 0 ==> Parent(from) < |childWeights|
      modifies this`childWeights
      ensures childWeights == TxTree.BackPropagate(old(childWeights), from, delta)
    {
      var i: nat := from;
      while i > 0
        invariant i > 0 ==> Parent(i) < |childWeights|
        invariant TxTree.BackPropagate(childWeights, i, delta) == TxTree.BackPropagate(old(childWeights), from, delta)
      {
        i := Parent(i);
        childWeights := childWeights[i := childWeights[i].Add(delta)];
      }
    }

    /** Adds a transaction that is not held yet. */
    method Add(info: Info)
      requires Valid()
      modifies this
      ensures Valid()
      ensures if info.txId in old(Held()) then unchanged(this)
              else Held() == old(Held())[info.txId := info.txWeight] && txIdAndWeights == old(txIdAndWeights) + [info]
    {
      hide Summed, Indexed, Contents, TxTree.BackPropagate;
      SummedLength(txIdAndWeights, childWeights);
      IndexAt(txIdAndWeights, txIdToIndexMap, info.txId);
      if info.txId in txIdToIndexMap {
        return;
      }
      AddSums(txIdAndWeights, childWeights, info);
      AddIndexes(txIdAndWeights, txIdToIndexMap, info);
      txIdAndWeights := txIdAndWeights + [info];
      childWeights := childWeights + [Zero()];
      txIdToIndexMap := txIdToIndexMap[info.txId := size];
      BackPropagate(size, info.txWeight);
      size := size + 1;
    }

    /** Removes a transaction if it is held; the last one takes its place. */
    method Remove(txId: TxId)
      requires Valid()
      modifies this
      ensures Valid() && Held() == old(Held()) - {txId}
      ensures txIdAndWeights == Drop(old(txIdAndWeights), txId)
      ensures txId !in old(Held()) ==> unchanged(this)
    {
      hide Summed, Indexed, Contents, TxTree.BackPropagate, Weight.Add, Weight.Negate, Without, Drop;
      SummedLength(txIdAndWeights, childWeights);
      DropIs(txIdAndWeights, txIdToIndexMap, txId);
      IndexAt(txIdAndWeights, txIdToIndexMap, txId);
      if txId !in txIdToIndexMap {
        return;
      }
      var removeIndex := txIdToIndexMap[txId];
      RemovalSums(txIdAndWeights, childWeights, removeIndex);
      WithoutIs(txIdAndWeights, removeIndex);
      RemoveIndexes(txIdAndWeights, txIdToIndexMap, txId);
      size := size - 1;
      var lastChildWeight := txIdAndWeights[size].txWeight;
      BackPropagate(size, lastChildWeight.Negate());
      if removeIndex < size {
        var weightDelta := lastChildWeight.Add(txIdAndWeights[removeIndex].txWeight.Negate());
        txIdAndWeights := txIdAndWeights[removeIndex := txIdAndWeights[size]];
        txIdToIndexMap := txIdToIndexMap[txIdAndWeights[removeIndex].txId := removeIndex];
        BackPropagate(removeIndex, weightDelta);
      }
      txIdToIndexMap := txIdToIndexMap - {txId};
      txIdAndWeights := txIdAndWeights[..size];
      childWeights := childWeights[..size];
    }

    /** Over the limit, drops the transaction that a random weight below the total falls on. */
    method MaybeDropRandom(randomWeight: int) returns (dropped: Option<TxId>)
      requires Valid() && Evictable(txIdAndWeights)
      requires GetTotalWeight().cost > capacity ==> 0 <= randomWeight < GetTotalWeight().evictionWeight
      modifies this
      ensures Valid() && Evictable(txIdAndWeights)
      ensures dropped.None? <==> old(GetTotalWeight().cost) <= capacity
      ensures dropped.None? ==> unchanged(this)
      ensures dropped.Some? ==>
                && dropped.value in old(Held()) && Held() == old(Held()) - {dropped.value} && size == old(size) - 1
                && txIdAndWeights == Drop(old(txIdAndWeights), dropped.value)
                && Selected(old(txIdAndWeights), dropped.value, randomWeight)
    {
      hide Summed, Indexed, Contents, Evictable, Total, Sub, Below, Before, FindByEvictionWeight, Without, Fits, Drop;
      var total := GetTotalWeight();
      if total.cost <= capacity {
        return None;
      }
      NothingCostsNothing(txIdAndWeights);
      EvictableTotal(txIdAndWeights);
      EvictableFits(txIdAndWeights);
      var k := FindByEvictionWeight(txIdAndWeights, childWeights, 0, randomWeight);
      var drop := txIdAndWeights[k];
      IndexedAt(txIdAndWeights, txIdToIndexMap, k);
      IndexAt(txIdAndWeights, txIdToIndexMap, drop.txId);
      FindIsInterval(txIdAndWeights, childWeights, 0, randomWeight, k);
      DropIs(txIdAndWeights, txIdToIndexMap, drop.txId);
      StaysEvictable(txIdAndWeights, k);
      Remove(drop.txId);
      dropped := Some(drop.txId);
    }

    /** Removes some transactions one after the other, as far as they are held. */
    method RemoveAll(ids: seq<TxId>)
      requires Valid() && Evictable(txIdAndWeights)
      modifies this
      ensures Valid() && Evictable(txIdAndWeights) && size <= old(size)
      ensures txIdAndWeights == DropAll(old(txIdAndWeights), ids) && Held() == old(Held()) - set id <- ids
    {
      hide Summed, Indexed, Contents, Evictable, Drop;
      assert ids[..|ids|] == ids;
      for i := 0 to |ids|
        invariant Valid() && Evictable(txIdAndWeights) && size <= old(size)
        invariant txIdAndWeights == DropAll(old(txIdAndWeights), ids[..i]) && Held() == old(Held()) - set id <- ids[..i]
      {
        DropKeepsEvictable(txIdAndWeights, ids[i]);
        Remove(ids[i]);
        assert ids[..i + 1] == ids[..i] + [ids[i]] && ids[..i + 1][..i] == ids[..i];
      }
    }

    /**
     * While the cost is over the limit, drops the transaction the next random
     * weight falls on, and with it what is removed from the pool for its sake:
     * itself again and all that spend from it. Those dropped are remembered.
     */
    method EnsureSizeLimit(removed: TxId -> seq<TxId>, random: nat -> nat)
      returns (recentlyEvicted: seq<TxId>, ghost trees: seq<seq<Info>>)
      requires Valid() && Evictable(txIdAndWeights)
      modifies this
      ensures Valid() && GetTotalWeight().cost <= capacity
      ensures |trees| == |recentlyEvicted| + 1 && trees[0] == old(txIdAndWeights) &&
              trees[|recentlyEvicted|] == txIdAndWeights
      ensures forall i :: 0 <= i < |recentlyEvicted| ==>
                Evicts(capacity, removed, trees[i], random(i), recentlyEvicted[i], trees[i + 1])
      ensures Held() == old(Held()) - Gone(removed, recentlyEvicted)
    {
      hide Summed, Indexed, Contents, Evictable, Total, Sub, Selected, Drop, DropAll;
      recentlyEvicted, trees := [], [txIdAndWeights];
      var more := true;
      while more
        invariant Valid() && Evictable(txIdAndWeights)
        invariant |trees| == |recentlyEvicted| + 1 && trees[0] == old(txIdAndWeights) &&
                  trees[|recentlyEvicted|] == txIdAndWeights
        invariant forall i :: 0 <= i < |recentlyEvicted| ==>
                    Evicts(capacity, removed, trees[i], random(i), recentlyEvicted[i], trees[i + 1])
        invariant Held() == old(Held()) - Gone(removed, recentlyEvicted)
        invariant !more ==> GetTotalWeight().cost <= capacity
        decreases more, size
      {
        var total := GetTotalWeight();
        var randomWeight := 0;
        if total.cost > capacity {
          NothingCostsNothing(txIdAndWeights);
          EvictableTotal(txIdAndWeights);
          randomWeight := random(|recentlyEvicted|) % total.evictionWeight;
        }
        ghost var ts := txIdAndWeights;
        var dropped := MaybeDropRandom(randomWeight);
        more := dropped.Some?;
        if more {
          RemoveAll(removed(dropped.value));
          assert Evicts(capacity, removed, ts, random(|recentlyEvicted|), dropped.value, txIdAndWeights);
          GoneMore(removed, recentlyEvicted, dropped.value);
          recentlyEvicted := recentlyEvicted + [dropped.value];
          trees := trees + [txIdAndWeights];
        }
      }
    }
  }

  // -------------------------------------------------------------------------- evictions

  /** The tree without a transaction, if it is there. */
  ghost function Drop(ts: seq<Info>, id: TxId): seq<Info> {
    if k :| 0 <= k < |ts| && ts[k].txId == id then Without(ts, k) else ts
  }

  ghost function DropAll(ts: seq<Info>, ids: seq<TxId>): seq<Info> {
    if ids == [] then ts else Drop(DropAll(ts, ids[..|ids| - 1]), ids[|ids| - 1])
  }

  /** The random weight falls into the interval of this transaction. */
  ghost predicate Selected(ts: seq<Info>, id: TxId, w: int) {
    exists k :: 0 <= k < |ts| && ts[k].txId == id && Below(0, k) &&
      Before(ts, 0, k) <= w < Before(ts, 0, k) + ts[k].txWeight.evictionWeight
  }

  /** A transaction is dropped because the cost is over the limit and a random number, up to the total, falls on it. */
  ghost predicate Evicts(capacity: int, removed: TxId -> seq<TxId>, ts: seq<Info>, random: nat, id: TxId,
                         ts': seq<Info>)
  {
    && Total(ts).cost > capacity && Total(ts).evictionWeight > 0
    && Selected(ts, id, random % Total(ts).evictionWeight)
    && ts' == DropAll(Drop(ts, id), removed(id))
  }

  /** All that goes with some transactions. */
  ghost function Gone(removed: TxId -> seq<TxId>, ids: seq<TxId>): set<TxId> {
    if ids == [] then {}
    else
      var id := ids[|ids| - 1];
      Gone(removed, ids[..|ids| - 1]) + {id} + set x <- removed(id)
  }

  lemma GoneMore(removed: TxId -> seq<TxId>, ids: seq<TxId>, id: TxId)
    ensures Gone(removed, ids + [id]) == Gone(removed, ids) + {id} + set x <- removed(id)
  {
    assert (ids + [id])[..|ids|] == ids;
  }

  /** Ids are unique, so a transaction is at the place the map says. */
  lemma DropIs(ts: seq<Info>, index: map<TxId, nat>, id: TxId)
    requires Indexed(ts, index)
    ensures Drop(ts, id) == if id in index && index[id] < |ts| then Without(ts, index[id]) else ts
    ensures id in index ==> index[id] < |ts| && ts[index[id]].txId == id
  {
    hide Without;
    IndexAt(ts, index, id);
    if exists k :: 0 <= k < |ts| && ts[k].txId == id {
      var k :| 0 <= k < |ts| && ts[k].txId == id && Drop(ts, id) == Without(ts, k);
      IndexedAt(ts, index, k);
    }
  }

  lemma DropKeepsEvictable(ts: seq<Info>, id: TxId)
    requires Evictable(ts)
    ensures Evictable(Drop(ts, id)) && |Drop(ts, id)| <= |ts|
  {
    hide Without, Evictable;
    if exists k :: 0 <= k < |ts| && ts[k].txId == id {
      var k :| 0 <= k < |ts| && ts[k].txId == id && Drop(ts, id) == Without(ts, k);
      StaysEvictable(ts, k);
    }
  }

  lemma NothingCostsNothing(ts: seq<Info>)
    ensures ts == [] ==> Total(ts) == Zero()
  {
  }

  lemma IndexedAt(ts: seq<Info>, index: map<TxId, nat>, k: nat)
    requires Indexed(ts, index) && k < |ts|
    ensures ts[k].txId in index && index[ts[k].txId] == k
  {
  }
}
