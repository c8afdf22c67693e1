/** The cuckoo cache as an object, with its packed discard flags. */
module CuckooCache {
  import opened Common
  import opened Bits8
  import opened Cuckoo

  /** Discard flags, eight to a byte. */
  class BitFlags {
    var mem: seq<bv8>
    /** The flags as booleans. */
    ghost var flags: seq<bool>

    ghost predicate Valid()
      reads this
    {
      Packs(mem, flags)
    }

    /** All flags start out set. */
    constructor (size: nat)
      ensures Valid() && flags == seq(size, i => true)
    {
      var bytes: seq<bv8> := [];
      for i := 0 to (size + 7) / 8
        invariant |bytes| == i && forall j :: 0 <= j < i ==> bytes[j] == 0xFF
      {
        bytes := bytes + [0xFF];
      }
      mem := bytes;
      flags := seq(size, i => true);
      forall s | 0 <= s < size ensures BitOf(0xFF, s % 8) {
        AllBits(s % 8);
      }
    }

    method BitSet(s: nat)
      requires Valid() && s < |flags|
      modifies this
      ensures Valid() && flags == old(flags)[s := true]
    {
      hide BitOf;
      SetPacks(mem, flags, s);
      mem, flags := mem[s / 8 := mem[s / 8] | Mask(s % 8)], flags[s := true];
    }

    method BitUnset(s: nat)
      requires Valid() && s < |flags|
      modifies this
      ensures Valid() && flags == old(flags)[s := false]
    {
      hide BitOf;
      ClearPacks(mem, flags, s);
      mem, flags := mem[s / 8 := mem[s / 8] & !Mask(s % 8)], flags[s := false];
    }

    method BitIsSet(s: nat) returns (b: bool)
      requires Valid() && s < |flags|
      ensures b == flags[s]
    {
      b := Mask(s % 8) & mem[s / 8] != 0;
      assert Mask(s % 8) & mem[s / 8] == mem[s / 8] & Mask(s % 8);
    }
  }

  ghost predicate Packs(mem: seq<bv8>, flags: seq<bool>) {
    8 * |mem| >= |flags| && forall s :: 0 <= s < |flags| ==> (flags[s] <==> BitOf(mem[s / 8], s % 8))
  }

  lemma SetPacks(mem: seq<bv8>, flags: seq<bool>, s: nat)
    requires Packs(mem, flags) && s < |flags|
    ensures Packs(mem[s / 8 := mem[s / 8] | Mask(s % 8)], flags[s := true])
  {
    hide BitOf;
    forall j | 0 <= j < 8 ensures BitOf(mem[s / 8] | Mask(s % 8), j) <==> BitOf(mem[s / 8], j) || j == s % 8 {
      SetBit(mem[s / 8], s % 8, j);
    }
  }

  lemma ClearPacks(mem: seq<bv8>, flags: seq<bool>, s: nat)
    requires Packs(mem, flags) && s < |flags|
    ensures Packs(mem[s / 8 := mem[s / 8] & !Mask(s % 8)], flags[s := false])
  {
    hide BitOf;
    forall j | 0 <= j < 8 ensures BitOf(mem[s / 8] & !Mask(s % 8), j) <==> BitOf(mem[s / 8], j) && j != s % 8 {
      ClearBit(mem[s / 8], s % 8, j);
    }
  }

  class Cache {
    const hash: Hasher
    const collectionFlags: BitFlags
    var table: seq<Element>
    var epochFlags: seq<bool>
    var epochHeuristicCounter: nat
    const epochSize: nat
    const depthLimit: nat

    ghost predicate Valid()
      reads this, collectionFlags
    {
      collectionFlags.Valid() && S().Sized()
    }

    ghost function S(): Slots
      reads this, collectionFlags
    {
      Slots(table, collectionFlags.flags, epochFlags)
    }

    ghost function C(): State
      reads this, collectionFlags
    {
      State(S(), epochHeuristicCounter, epochSize, depthLimit)
    }

    /** A cache for up to `newSize` elements, at least two; the depth limit is a parameter. */
    constructor (h: Hasher, newSize: Word, depth: nat)
      ensures Valid() && fresh(collectionFlags) && hash == h && C() == Setup(newSize, depth)
    {
      hash := h;
      var size := Max(2, newSize);
      collectionFlags := new BitFlags(size);
      table := seq(size, i => DEFAULT);
      epochFlags := seq(size, i => false);
      epochSize := Max(1, 45 * size % 0x1_0000_0000 / 100);
      epochHeuristicCounter := Max(1, 45 * size % 0x1_0000_0000 / 100);
      depthLimit := depth;
    }

    method CountUnused() returns (unused: nat)
      requires Valid()
      ensures unused == Live(S(), |table|)
    {
      unused := 0;
      for i := 0 to |table|
        invariant unused == Live(S(), i)
      {
        var erased := collectionFlags.BitIsSet(i);
        unused := unused + if epochFlags[i] && !erased then 1 else 0;
      }
    }

    /** The first `n` slots have aged. */
    ghost predicate AgedTo(s: Slots, n: nat)
      requires s.Sized() && n <= |s.table|
      reads this, collectionFlags
    {
      && Valid() && table == s.table && |table| == |s.table|
      && (forall i :: 0 <= i < n ==>
          epochFlags[i] == false && collectionFlags.flags[i] == (s.collected[i] || !s.epoch[i]))
      && (forall i :: n <= i < |table| ==> epochFlags[i] == s.epoch[i] && collectionFlags.flags[i] == s.collected[i])
    }

    method AgeAll()
      requires Valid()
      modifies this`epochFlags, collectionFlags
      ensures Valid() && S() == Age(old(S()))
    {
      ghost var s := S();
      for i := 0 to |table|
        invariant |table| == |s.table| && AgedTo(s, i)
      {
        if epochFlags[i] {
          epochFlags := epochFlags[i := false];
        } else {
          collectionFlags.BitSet(i);
        }
      }
    }

    method EpochCheck()
      requires Valid()
      modifies this`epochFlags, this`epochHeuristicCounter, collectionFlags
      ensures Valid() && C() == Cuckoo.EpochCheck(old(C()))
    {
      if epochHeuristicCounter != 0 {
        epochHeuristicCounter := epochHeuristicCounter - 1;
        return;
      }
      var unused := CountUnused();
      if unused >= epochSize {
        AgeAll();
        epochHeuristicCounter := epochSize;
      } else {
        epochHeuristicCounter := Max(1, Max(epochSize / 16, epochSize - unused));
      }
    }

    /** The first location that holds `e`, or 8. */
    method FindElement(locs: seq<nat>, e: Element) returns (k: nat)
      requires |locs| == 8 && forall j :: 0 <= j < 8 ==> locs[j] < |table|
      ensures k == FirstEqual(table, locs, e, 0)
    {
      k := 0;
      while k < 8 && table[locs[k]] != e
        invariant k <= 8 && FirstEqual(table, locs, e, 0) == FirstEqual(table, locs, e, k)
        decreases 8 - k
      {
        k := k + 1;
      }
    }

    /** The first location that may be overwritten, or 8. */
    method FindFree(locs: seq<nat>) returns (k: nat)
      requires Valid() && |locs| == 8 && forall j :: 0 <= j < 8 ==> locs[j] < |table|
      ensures k == FirstFree(collectionFlags.flags, locs, 0)
    {
      k := 0;
      while k < 8
        invariant k <= 8 && FirstFree(collectionFlags.flags, locs, 0) == FirstFree(collectionFlags.flags, locs, k)
      {
        var free := collectionFlags.BitIsSet(locs[k]);
        if free {
          return;
        }
        k := k + 1;
      }
    }

    method PleaseKeep(loc: nat, e: Element, epoch: bool)
      requires Valid() && loc < |table|
      modifies this`table, this`epochFlags, collectionFlags
      ensures Valid() && S() == Keep(old(S()), loc, e, epoch)
    {
      table := table[loc := e];
      collectionFlags.BitUnset(loc);
      epochFlags := epochFlags[loc := epoch];
    }

    /** Inserts an element, displacing others up to the depth limit; says which was dropped. */
    method Insert(elem: Element) returns (ghost dropped: Option<Element>)
      requires Valid()
      modifies this`table, this`epochFlags, this`epochHeuristicCounter, collectionFlags
      ensures Valid() && (C(), dropped) == Inserted(hash, old(C()), elem)
      ensures C() == Exec(hash, old(C()), InsertOp(elem))
    {
      hide Chain, Locs, FirstEqual, Cuckoo.EpochCheck, Keep;
      EpochCheck();
      var locs := Locs(hash, |table|, elem);
      var f := FindElement(locs, elem);
      if f < 8 {
        PleaseKeep(locs[f], elem, true);
        dropped := None;
      } else {
        dropped := DisplaceAll(elem);
      }
    }

    method DisplaceAll(elem: Element) returns (ghost dropped: Option<Element>)
      requires Valid()
      modifies this`table, this`epochFlags, collectionFlags
      ensures Valid() && (S(), dropped) == Chain(hash, old(S()), elem, true, None, depthLimit)
    {
      hide Chain, Locs, FirstFree, NextLoc;
      ghost var s := S();
      var e, lastEpoch := elem, true;
      var lastLoc: Option<nat> := None;
      var locs := Locs(hash, |table|, e);
      var depth := 0;
      while depth < depthLimit
        invariant Valid() && depth <= depthLimit && locs == Locs(hash, |table|, e)
        invariant Chain(hash, s, elem, true, None, depthLimit) ==
                  Chain(hash, S(), e, lastEpoch, lastLoc, depthLimit - depth)
      {
        ChainUnfolds(hash, S(), e, lastEpoch, lastLoc, depthLimit - depth);
        var f := FindFree(locs);
        if f < 8 {
          PleaseKeep(locs[f], e, lastEpoch);
          dropped := None;
          return;
        }
        var loc := NextLoc(locs, lastLoc);
        lastLoc := Some(loc);
        e, table := table[loc], table[loc := e];
        lastEpoch, epochFlags := epochFlags[loc], epochFlags[loc := lastEpoch];
        locs := Locs(hash, |table|, e);
        depth := depth + 1;
      }
      ChainUnfolds(hash, S(), e, lastEpoch, lastLoc, 0);
      dropped := Some(e);
    }

    /** Looks an element up, and on request allows it to be discarded. */
    method Contains(e: Element, erase: bool) returns (found: bool)
      requires Valid()
      modifies collectionFlags
      ensures Valid() && found == Cuckoo.Contains(hash, old(S()), e)
      ensures C() == old(C()).(slots := if erase then Erase(hash, old(S()), e) else old(S()))
      ensures C() == Exec(hash, old(C()), ContainsOp(e, erase))
    {
      var locs := Locs(hash, |table|, e);
      var f := FindElement(locs, e);
      found := f < 8;
      if found && erase {
        collectionFlags.BitSet(locs[f]);
      }
    }
  }
}
