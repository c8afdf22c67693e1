/**
 * The cuckoo cache as values: a table of slots, each with a flag that allows
 * its element to be discarded and a flag for the epoch it was inserted in.
 */
module Cuckoo {
  import opened Common

  type Element = nat

  const DEFAULT: Element := 0

  type Word = x: nat | x < 0x1_0000_0000

  type Hasher = (nat, Element) -> Word

  datatype Slots = Slots(table: seq<Element>, collected: seq<bool>, epoch: seq<bool>) {
    ghost predicate Sized() {
      |table| == |collected| == |epoch| >= 2
    }
  }

  // ---------------------------------------------------------------------- locations

  /** A 32-bit hash scaled onto the table. */
  function Scale(w: Word, size: nat): (r: nat)
    requires size > 0
    ensures r < size && r * 0x1_0000_0000 <= w * size < (r + 1) * 0x1_0000_0000
  {
    ScaleFits(w, size);
    w * size / 0x1_0000_0000
  }

  lemma ScaleFits(w: Word, size: nat)
    requires size > 0
    ensures w * size / 0x1_0000_0000 < size
  {
    assert w * size <= (0x1_0000_0000 - 1) * size;
  }

  function Locs(h: Hasher, size: nat, e: Element): (r: seq<nat>)
    requires size > 0
    ensures |r| == 8 && forall k :: 0 <= k < 8 ==> r[k] < size
  {
    [Scale(h(0, e), size), Scale(h(1, e), size), Scale(h(2, e), size), Scale(h(3, e), size),
     Scale(h(4, e), size), Scale(h(5, e), size), Scale(h(6, e), size), Scale(h(7, e), size)]
  }

  /** Each location has a hash of its own. */
  lemma LocsAre(h: Hasher, size: nat, e: Element, k: nat)
    requires size > 0 && k < 8
    ensures Locs(h, size, e)[k] == Scale(h(k, e), size)
  {
  }

  /** The first of the locations from the `k`-th on that holds `e`, or 8. */
  function FirstEqual(table: seq<Element>, locs: seq<nat>, e: Element, k: nat): (r: nat)
    requires k <= |locs| == 8 && forall j :: 0 <= j < 8 ==> locs[j] < |table|
    ensures k <= r <= 8 && (r < 8 ==> table[locs[r]] == e) && forall j :: k <= j < r ==> table[locs[j]] != e
    decreases 8 - k
  {
    if k == 8 || table[locs[k]] == e then k else FirstEqual(table, locs, e, k + 1)
  }

  /** The first of the locations from the `k`-th on that may be overwritten, or 8. */
  function FirstFree(collected: seq<bool>, locs: seq<nat>, k: nat): (r: nat)
    requires k <= |locs| == 8 && forall j :: 0 <= j < 8 ==> locs[j] < |collected|
    ensures k <= r <= 8 && (r < 8 ==> collected[locs[r]]) && forall j :: k <= j < r ==> !collected[locs[j]]
    decreases 8 - k
  {
    if k == 8 || collected[locs[k]] then k else FirstFree(collected, locs, k + 1)
  }

  /** The position of `last` among the locations, or 8. */
  function Find(locs: seq<nat>, last: Option<nat>, k: nat): (r: nat)
    requires k <= |locs| == 8
    ensures r <= 8
    decreases 8 - k
  {
    if k == 8 || last == Some(locs[k]) then k else Find(locs, last, k + 1)
  }

  /** The location after the last one, cyclically; the second when there is none. */
  function NextLoc(locs: seq<nat>, last: Option<nat>): (r: nat)
    requires |locs| == 8
    ensures r in locs
  {
    locs[(1 + Find(locs, last, 0)) % 8]
  }

  lemma {:induction false} FindsFirst(locs: seq<nat>, last: Option<nat>, k: nat, i: nat)
    requires k <= i <= 8 == |locs| && (forall j :: k <= j < i ==> last != Some(locs[j]))
    requires i < 8 ==> last == Some(locs[i])
    ensures Find(locs, last, k) == i
    decreases i - k
  {
    if k < i {
      FindsFirst(locs, last, k + 1, i);
    }
  }

  /** An element that is displaced tries the location after the one it had, and a new element the second. */
  lemma NextFollows(locs: seq<nat>, last: Option<nat>, i: nat)
    requires i <= 8 == |locs| && (forall j :: 0 <= j < i ==> last != Some(locs[j]))
    requires i < 8 ==> last == Some(locs[i])
    ensures NextLoc(locs, last) == locs[if i < 7 then i + 1 else i - 7]
  {
    FindsFirst(locs, last, 0, i);
  }

  // ------------------------------------------------------------------------- inserts

  function Keep(s: Slots, loc: nat, e: Element, epoch: bool): Slots
    requires s.Sized() && loc < |s.table|
  {
    Slots(s.table[loc := e], s.collected[loc := false], s.epoch[loc := epoch])
  }

  /**
   * Places `e`, displacing at most `depth` elements one after another; the
   * element left in hand at the end is dropped.
   */
  function Chain(h: Hasher, s: Slots, e: Element, epoch: bool, last: Option<nat>, depth: nat): (Slots, Option<Element>)
    requires s.Sized()
    decreases depth
  {
    if depth == 0 then (s, Some(e))
    else
      var locs := Locs(h, |s.table|, e);
      var f := FirstFree(s.collected, locs, 0);
      if f < 8 then (Keep(s, locs[f], e, epoch), None)
      else
        var loc := NextLoc(locs, last);
        Chain(h, s.(table := s.table[loc := e], epoch := s.epoch[loc := epoch]), s.table[loc], s.epoch[loc], Some(loc),
              depth - 1)
  }

  lemma ChainUnfolds(h: Hasher, s: Slots, e: Element, epoch: bool, last: Option<nat>, depth: nat)
    requires s.Sized()
    ensures depth == 0 ==> Chain(h, s, e, epoch, last, depth) == (s, Some(e))
    ensures depth > 0 ==>
              var locs := Locs(h, |s.table|, e);
              var f, loc := FirstFree(s.collected, locs, 0), NextLoc(locs, last);
              Chain(h, s, e, epoch, last, depth)
              == if f < 8 then (Keep(s, locs[f], e, epoch), None)
                 else Chain(h, s.(table := s.table[loc := e], epoch := s.epoch[loc := epoch]), s.table[loc],
                            s.epoch[loc], Some(loc), depth - 1)
  {
  }

  /** An insert after the epoch check, and the element it dropped. */
  function Insert(h: Hasher, s: Slots, e: Element, depth: nat): (Slots, Option<Element>)
    requires s.Sized()
  {
    var locs := Locs(h, |s.table|, e);
    var f := FirstEqual(s.table, locs, e, 0);
    if f < 8 then (Keep(s, locs[f], e, true), None) else Chain(h, s, e, true, None, depth)
  }

  // ---------------------------------------------------------------------- invariants

  ghost predicate At(h: Hasher, size: nat, e: Element, loc: nat)
    requires size > 0
  {
    loc in Locs(h, size, e)
  }

  /**
   * Kept slots and slots with a real element hold one that hashes there, and no
   * real element sits twice.
   */
  ghost predicate Placed(h: Hasher, s: Slots) {
    && s.Sized()
    && (forall i :: 0 <= i < |s.table| && (!s.collected[i] || s.table[i] != DEFAULT) ==>
        At(h, |s.table|, s.table[i], i))
    && (forall i, j :: 0 <= i < j < |s.table| && s.table[i] == s.table[j] ==> s.table[i] == DEFAULT)
  }

  /** The element in hand is nowhere in the table. */
  ghost predicate InHand(s: Slots, e: Element) {
    e != DEFAULT ==> e !in s.table
  }

  /** An element is kept: it sits in a slot that must not be overwritten. */
  ghost predicate Kept(s: Slots, x: Element)
    requires s.Sized()
  {
    exists i :: 0 <= i < |s.table| && !s.collected[i] && s.table[i] == x
  }

  lemma AbsentFromLocs(h: Hasher, s: Slots, e: Element)
    requires Placed(h, s) && FirstEqual(s.table, Locs(h, |s.table|, e), e, 0) == 8
    ensures InHand(s, e)
  {
    forall i | 0 <= i < |s.table| && s.table[i] != DEFAULT ensures At(h, |s.table|, s.table[i], i) {
    }
  }

  lemma KeepPlaces(h: Hasher, s: Slots, loc: nat, e: Element, epoch: bool)
    requires Placed(h, s) && loc < |s.table| && At(h, |s.table|, e, loc) && (s.table[loc] == e || InHand(s, e))
    ensures Placed(h, Keep(s, loc, e, epoch))
  {
  }

  /** Into a free slot: the element is now kept, and nothing kept is lost. */
  lemma KeepKeeps(s: Slots, loc: nat, e: Element, epoch: bool, x: Element)
    requires s.Sized() && loc < |s.table| && (s.collected[loc] || s.table[loc] == e)
    ensures Kept(Keep(s, loc, e, epoch), x) <==> Kept(s, x) || x == e
  {
    var s' := Keep(s, loc, e, epoch);
    assert s'.table[loc] == e && !s'.collected[loc];
    if Kept(s, x) {
      var i :| 0 <= i < |s.table| && !s.collected[i] && s.table[i] == x;
      assert !s'.collected[i] && s'.table[i] == x;
    }
    if Kept(s', x) {
      var i :| 0 <= i < |s.table| && !s'.collected[i] && s'.table[i] == x;
      assert i != loc ==> !s.collected[i] && s.table[i] == x;
    }
  }

  /** One displacement: the element in hand and a kept one change places. */
  lemma SwapPlaces(h: Hasher, s: Slots, e: Element, epoch: bool, loc: nat)
    requires Placed(h, s) && InHand(s, e) && loc < |s.table| && !s.collected[loc] && At(h, |s.table|, e, loc)
    ensures var s' := s.(table := s.table[loc := e], epoch := s.epoch[loc := epoch]);
            Placed(h, s') &&
            InHand(s', s.table[loc])
  {
  }

  lemma SwapKeeps(s: Slots, e: Element, epoch: bool, loc: nat, x: Element)
    requires s.Sized() && loc < |s.table| && !s.collected[loc]
    ensures var s' := s.(table := s.table[loc := e], epoch := s.epoch[loc := epoch]);
            s'.Sized() && (Kept(s', x) || x == s.table[loc] <==> Kept(s, x) || x == e)
  {
    var s' := s.(table := s.table[loc := e], epoch := s.epoch[loc := epoch]);
    assert s'.table[loc] == e;
    if Kept(s, x) {
      var i :| 0 <= i < |s.table| && !s.collected[i] && s.table[i] == x;
      assert i != loc ==> !s'.collected[i] && s'.table[i] == x;
    }
    if Kept(s', x) {
      var i :| 0 <= i < |s.table| && !s'.collected[i] && s'.table[i] == x;
      assert i != loc ==> !s.collected[i] && s.table[i] == x;
    }
  }

  // ------------------------------------------------------------------ whole inserts

  /** What a chain from this state did: all that was kept or in hand is kept or dropped. */
  ghost predicate Conserves(s: Slots, e: Element, s': Slots, dropped: Option<Element>)
    requires s.Sized() && s'.Sized()
  {
    && |s'.table| == |s.table|
    && (forall x :: Kept(s', x) || dropped == Some(x) <==> Kept(s, x) || x == e)
    && (forall i :: 0 <= i < |s.table| && !s.collected[i] ==> !s'.collected[i])
    && (dropped.Some? ==> InHand(s', dropped.value))
  }

  lemma {:induction false} ChainConserves(h: Hasher, s: Slots, e: Element, epoch: bool, last: Option<nat>, depth: nat)
    requires Placed(h, s) && InHand(s, e)
    ensures var (s', dropped) := Chain(h, s, e, epoch, last, depth); Placed(h, s') && Conserves(s, e, s', dropped)
    decreases depth
  {
    hide Placed, InHand, Kept, Locs, FirstFree, NextLoc, Keep;
    PlacedIsSized(h, s);
    if depth > 0 {
      var locs := Locs(h, |s.table|, e);
      var f := FirstFree(s.collected, locs, 0);
      if f < 8 {
        KeepPlaces(h, s, locs[f], e, epoch);
        KeepSlots(s, locs[f], e, epoch);
        forall x ensures Kept(Keep(s, locs[f], e, epoch), x) <==> Kept(s, x) || x == e {
          KeepKeeps(s, locs[f], e, epoch, x);
        }
      } else {
        var loc := NextLoc(locs, last);
        var s1 := s.(table := s.table[loc := e], epoch := s.epoch[loc := epoch]);
        SwapPlaces(h, s, e, epoch, loc);
        ChainConserves(h, s1, s.table[loc], s.epoch[loc], Some(loc), depth - 1);
        forall x ensures Kept(s1, x) || x == s.table[loc] <==> Kept(s, x) || x == e {
          SwapKeeps(s, e, epoch, loc, x);
        }
      }
    }
  }

  lemma PlacedIsSized(h: Hasher, s: Slots)
    requires Placed(h, s)
    ensures s.Sized()
  {
  }

  lemma KeepSlots(s: Slots, loc: nat, e: Element, epoch: bool)
    requires s.Sized() && loc < |s.table|
    ensures var s' := Keep(s, loc, e, epoch);
            s'.Sized() && |s'.table| == |s.table| && forall i :: 0 <= i < |s.table| && !s.collected[i] ==>
                !s'.collected[i]
  {
  }

  /** An insert adds its element and loses at most one, for any chain of displacements. */
  lemma InsertConserves(h: Hasher, s: Slots, e: Element, depth: nat)
    requires Placed(h, s)
    ensures var (s', dropped) := Insert(h, s, e, depth); Placed(h, s') && Conserves(s, e, s', dropped)
  {
    hide Placed, InHand, Kept, Locs, FirstEqual, Keep, Chain;
    PlacedIsSized(h, s);
    var locs := Locs(h, |s.table|, e);
    var f := FirstEqual(s.table, locs, e, 0);
    if f < 8 {
      KeepPlaces(h, s, locs[f], e, true);
      KeepSlots(s, locs[f], e, true);
      forall x ensures Kept(Keep(s, locs[f], e, true), x) <==> Kept(s, x) || x == e {
        KeepKeeps(s, locs[f], e, true, x);
      }
    } else {
      AbsentFromLocs(h, s, e);
      ChainConserves(h, s, e, true, None, depth);
    }
  }

  // ------------------------------------------------------------------------- lookups

  predicate Contains(h: Hasher, s: Slots, e: Element)
    requires s.Sized()
  {
    FirstEqual(s.table, Locs(h, |s.table|, e), e, 0) < 8
  }

  /** A real element is found exactly when it sits anywhere; a kept one always is. */
  lemma ContainsIsExact(h: Hasher, s: Slots, e: Element)
    requires Placed(h, s)
    ensures e != DEFAULT ==> (Contains(h, s, e) <==> e in s.table)
    ensures Kept(s, e) ==> Contains(h, s, e)
  {
    forall i | 0 <= i < |s.table| && !s.collected[i] ensures At(h, |s.table|, s.table[i], i) {
    }
    if !Contains(h, s, e) {
      AbsentFromLocs(h, s, e);
    }
  }

  /** The default element is found in a fresh cache although it was never inserted. */
  lemma FreshClaimsDefault(h: Hasher, newSize: Word, depth: nat)
    ensures Contains(h, Setup(newSize, depth).slots, DEFAULT)
  {
    var s := Setup(newSize, depth).slots;
    assert s.table[Locs(h, |s.table|, DEFAULT)[0]] == DEFAULT;
  }

  function Erase(h: Hasher, s: Slots, e: Element): Slots
    requires s.Sized()
  {
    var locs := Locs(h, |s.table|, e);
    var f := FirstEqual(s.table, locs, e, 0);
    if f < 8 then s.(collected := s.collected[locs[f] := true]) else s
  }

  lemma ErasePlaces(h: Hasher, s: Slots, e: Element)
    requires Placed(h, s)
    ensures Placed(h, Erase(h, s, e))
    ensures e != DEFAULT ==> !Kept(Erase(h, s, e), e)
    ensures forall x :: x != e ==> (Kept(Erase(h, s, e), x) <==> Kept(s, x))
  {
    var s' := Erase(h, s, e);
    var locs := Locs(h, |s.table|, e);
    if FirstEqual(s.table, locs, e, 0) == 8 {
      AbsentFromLocs(h, s, e);
    }
    forall x | x != e ensures Kept(s', x) <==> Kept(s, x) {
      forall i | 0 <= i < |s.table| && s.table[i] == x ensures s'.collected[i] == s.collected[i] {
      }
    }
  }

  // -------------------------------------------------------------------------- epochs

  /** How many of the first `n` slots are kept and of the current epoch. */
  function Live(s: Slots, n: nat): nat
    requires s.Sized() && n <= |s.table|
  {
    if n == 0 then 0 else Live(s, n - 1) + LiveAt(s, n - 1)
  }

  function LiveAt(s: Slots, i: nat): nat
    requires s.Sized() && i < |s.table|
  {
    if s.epoch[i] && !s.collected[i] then 1 else 0
  }

  /** Changing one slot changes the count by what that slot counts for. */
  lemma {:induction false} LiveUpdate(s: Slots, s': Slots, i: nat, n: nat)
    requires s.Sized() && s'.Sized() && |s'.table| == |s.table| && i < |s.table| && n <= |s.table|
    requires forall j :: 0 <= j < |s.table| && j != i ==> s'.epoch[j] == s.epoch[j] && s'.collected[j] == s.collected[j]
    ensures Live(s', n) + (if i < n then LiveAt(s, i) else 0) == Live(s, n) + (if i < n then LiveAt(s', i) else 0)
  {
    if n > 0 {
      LiveUpdate(s, s', i, n - 1);
    }
  }

  lemma {:induction false} ChainLive(h: Hasher, s: Slots, e: Element, epoch: bool, last: Option<nat>, depth: nat)
    requires s.Sized()
    ensures var s' := Chain(h, s, e, epoch, last, depth).0;
            s'.Sized() && |s'.table| == |s.table| && Live(s', |s.table|) <= Live(s, |s.table|) + if epoch then 1 else 0
    decreases depth
  {
    hide Live, Locs, FirstFree, NextLoc;
    if depth > 0 {
      var locs := Locs(h, |s.table|, e);
      var f := FirstFree(s.collected, locs, 0);
      if f < 8 {
        LiveUpdate(s, Keep(s, locs[f], e, epoch), locs[f], |s.table|);
      } else {
        var loc := NextLoc(locs, last);
        var s1 := s.(table := s.table[loc := e], epoch := s.epoch[loc := epoch]);
        LiveUpdate(s, s1, loc, |s.table|);
        ChainLive(h, s1, s.table[loc], s.epoch[loc], Some(loc), depth - 1);
      }
    }
  }

  lemma InsertLive(h: Hasher, s: Slots, e: Element, depth: nat)
    requires s.Sized()
    ensures var s' := Insert(h, s, e, depth).0;
            s'.Sized() && |s'.table| == |s.table| &&
            Live(s', |s.table|) <= Live(s, |s.table|) + 1
  {
    hide Live, Locs, FirstEqual, Chain;
    var locs := Locs(h, |s.table|, e);
    var f := FirstEqual(s.table, locs, e, 0);
    if f < 8 {
      LiveUpdate(s, Keep(s, locs[f], e, true), locs[f], |s.table|);
    } else {
      ChainLive(h, s, e, true, None, depth);
    }
  }

  lemma EraseLive(h: Hasher, s: Slots, e: Element)
    requires s.Sized()
    ensures var s' := Erase(h, s, e); s'.Sized() && |s'.table| == |s.table| && Live(s', |s.table|) <= Live(s, |s.table|)
  {
    hide Live, Locs, FirstEqual;
    var locs := Locs(h, |s.table|, e);
    var f := FirstEqual(s.table, locs, e, 0);
    if f < 8 {
      LiveUpdate(s, Erase(h, s, e), locs[f], |s.table|);
    }
  }

  /** A new epoch: the old epoch may be discarded, the current one becomes old. */
  function Age(s: Slots): (r: Slots)
    requires s.Sized()
    ensures r.Sized() && r.table == s.table
  {
    Slots(s.table, seq(|s.table|, i requires 0 <= i < |s.table| => s.collected[i] || !s.epoch[i]),
          seq(|s.table|, i => false))
  }

  lemma {:induction false} NoneLive(s: Slots, n: nat)
    requires s.Sized() && n <= |s.table| && forall i :: 0 <= i < n ==> !s.epoch[i]
    ensures Live(s, n) == 0
  {
    if n > 0 {
      NoneLive(s, n - 1);
    }
  }

  /** Only kept elements of the old epoch are released. */
  lemma AgeReleasesOld(h: Hasher, s: Slots)
    requires Placed(h, s)
    ensures Placed(h, Age(s))
    ensures forall i :: 0 <= i < |s.table| ==> (!Age(s).collected[i] <==> !s.collected[i] && s.epoch[i])
  {
  }

  datatype State = State(slots: Slots, counter: nat, epochSize: nat, depth: nat)

  function EpochCheck(c: State): State
    requires c.slots.Sized()
  {
    if c.counter != 0 then c.(counter := c.counter - 1)
    else
      var unused := Live(c.slots, |c.slots.table|);
      if unused >= c.epochSize then c.(slots := Age(c.slots), counter := c.epochSize)
      else c.(counter := Max(1, Max(c.epochSize / 16, c.epochSize - unused)))
  }

  /** The current epoch cannot outgrow its size by more than the next scan allows. */
  ghost predicate EpochBounded(c: State)
    requires c.slots.Sized()
  {
    c.epochSize >= 1 && Live(c.slots, |c.slots.table|) + c.counter <= c.epochSize + Max(1, c.epochSize / 16)
  }

  ghost predicate Sound(h: Hasher, c: State) {
    Placed(h, c.slots) && EpochBounded(c)
  }

  function Setup(newSize: Word, depth: nat): State {
    var size := Max(2, newSize);
    State(Slots(seq(size, i => DEFAULT), seq(size, i => true), seq(size, i => false)),
          Max(1, 45 * size % 0x1_0000_0000 / 100), Max(1, 45 * size % 0x1_0000_0000 / 100), depth)
  }

  /** An epoch is 45 percent of the table exactly as long as the product fits in 32 bits; beyond it is smaller. */
  lemma EpochIs45Percent(newSize: Word, depth: nat)
    ensures var size, epoch := Max(2, newSize), Setup(newSize, depth).epochSize;
            && (epoch == Max(1, 45 * size / 100) <==> 45 * size < 0x1_0000_0000)
            && (45 * size >= 0x1_0000_0000 ==> epoch < 45 * size / 100)
  {
  }

  /** The smallest table for which it is not: its epoch holds one element in place of 42 million. */
  lemma EpochOfLargeTable(depth: nat)
    ensures Setup(95_443_718, depth).epochSize == 1 && 45 * 95_443_718 / 100 == 42_949_673
    ensures forall newSize: Word :: newSize < 95_443_718 ==>
              Setup(newSize, depth).epochSize == Max(1, 45 * Max(2, newSize) / 100)
  {
    forall newSize: Word | newSize < 95_443_718
      ensures Setup(newSize, depth).epochSize == Max(1, 45 * Max(2, newSize) / 100)
    {
      EpochIs45Percent(newSize, depth);
    }
  }

  function Inserted(h: Hasher, c: State, e: Element): (State, Option<Element>)
    requires c.slots.Sized()
  {
    var c' := EpochCheck(c);
    var (s, dropped) := Insert(h, c'.slots, e, c.depth);
    (c'.(slots := s), dropped)
  }

  lemma SetupSound(h: Hasher, newSize: Word, depth: nat)
    ensures Sound(h, Setup(newSize, depth))
  {
    var c := Setup(newSize, depth);
    NoneLive(c.slots, |c.slots.table|);
  }

  /** The check leaves room for one more element of the current epoch. */
  lemma EpochCheckMakesRoom(h: Hasher, c: State)
    requires Sound(h, c)
    ensures var c' := EpochCheck(c);
            && Placed(h, c'.slots) && c'.epochSize == c.epochSize && c'.depth == c.depth
            && c'.slots.table == c.slots.table
            && Live(c'.slots, |c'.slots.table|) + c'.counter < c.epochSize + Max(1, c.epochSize / 16)
  {
    hide Live;
    AgeReleasesOld(h, c.slots);
    NoneLive(Age(c.slots), |c.slots.table|);
  }

  /** The epoch check only ever releases kept elements. */
  lemma EpochCheckReleases(h: Hasher, c: State, x: Element)
    requires Sound(h, c)
    ensures Kept(EpochCheck(c).slots, x) ==> Kept(c.slots, x)
    ensures Kept(c.slots, x) && !Kept(EpochCheck(c).slots, x) ==>
              c.counter == 0 && exists i ::
                0 <= i < |c.slots.table| && !c.slots.collected[i] && !c.slots.epoch[i] && c.slots.table[i] == x
  {
    hide Live;
    AgeReleasesOld(h, c.slots);
    var s, s' := c.slots, EpochCheck(c).slots;
    if Kept(s, x) {
      var i :| 0 <= i < |s.table| && !s.collected[i] && s.table[i] == x;
      assert s'.table[i] == x;
    }
  }

  /** Releases happen only when the current epoch is full, and a scan is put off as long as that cannot be. */
  lemma EpochCheckWaits(h: Hasher, c: State, x: Element)
    requires Sound(h, c)
    ensures Kept(c.slots, x) && !Kept(EpochCheck(c).slots, x) ==> Live(c.slots, |c.slots.table|) >= c.epochSize
    ensures c.counter == 0 && Live(c.slots, |c.slots.table|) >= c.epochSize ==>
              && EpochCheck(c).counter == c.epochSize && Live(EpochCheck(c).slots, |c.slots.table|) == 0
              && forall i :: 0 <= i < |c.slots.table| ==>
                   (EpochCheck(c).slots.collected[i] <==> c.slots.collected[i] || !c.slots.epoch[i])
    ensures c.counter == 0 && Live(c.slots, |c.slots.table|) < c.epochSize ==>
              && EpochCheck(c).slots == c.slots && EpochCheck(c).counter >= 1
              && EpochCheck(c).counter + Live(c.slots, |c.slots.table|) >= c.epochSize
              && 16 * EpochCheck(c).counter + 15 >= c.epochSize
    ensures c.counter > 0 ==> EpochCheck(c) == c.(counter := c.counter - 1)
  {
    hide Live;
    NoneLive(Age(c.slots), |c.slots.table|);
  }

  lemma InsertSound(h: Hasher, c: State, e: Element)
    requires Sound(h, c)
    ensures var (c', dropped) := Inserted(h, c, e); Sound(h, c') && Conserves(EpochCheck(c).slots, e, c'.slots, dropped)
  {
    hide Live, Placed, Insert, Kept;
    EpochCheckMakesRoom(h, c);
    PlacedIsSized(h, c.slots);
    var c1 := EpochCheck(c);
    InsertConserves(h, c1.slots, e, c.depth);
    InsertLive(h, c1.slots, e, c.depth);
  }

  lemma EraseSound(h: Hasher, c: State, e: Element)
    requires Sound(h, c)
    ensures Sound(h, c.(slots := Erase(h, c.slots, e)))
  {
    hide Live;
    ErasePlaces(h, c.slots, e);
    EraseLive(h, c.slots, e);
  }

  // ---------------------------------------------------------------------------- runs

  datatype Op = InsertOp(e: Element) | ContainsOp(e: Element, erase: bool)

  function Exec(h: Hasher, c: State, op: Op): (r: State)
    requires c.slots.Sized()
  {
    match op
    case InsertOp(e) => Inserted(h, c, e).0
    case ContainsOp(e, erase) => if erase then c.(slots := Erase(h, c.slots, e)) else c
  }

  /** A run from a fresh cache of any size. */
  ghost predicate Run(h: Hasher, newSize: Word, depth: nat, cs: seq<State>, ops: seq<Op>) {
    && |cs| == |ops| + 1 && cs[0] == Setup(newSize, depth)
    && forall j :: 0 <= j < |ops| ==> cs[j].slots.Sized() && cs[j + 1] == Exec(h, cs[j], ops[j])
  }

  /** In every run the table stays sound and the current epoch stays bounded. */
  lemma {:induction false} EveryRunIsSound(h: Hasher, newSize: Word, depth: nat, cs: seq<State>, ops: seq<Op>, j: nat)
    requires Run(h, newSize, depth, cs, ops) && j <= |ops|
    ensures Sound(h, cs[j])
  {
    hide Sound, Inserted, Erase, Setup;
    if j == 0 {
      SetupSound(h, newSize, depth);
    } else {
      EveryRunIsSound(h, newSize, depth, cs, ops, j - 1);
      assert cs[(j - 1) + 1] == Exec(h, cs[j - 1], ops[j - 1]);
      InsertSound(h, cs[j - 1], ops[j - 1].e);
      EraseSound(h, cs[j - 1], ops[j - 1].e);
    }
  }

  /** A step that ends the current epoch. */
  ghost predicate EndsEpoch(c: State, op: Op)
    requires c.slots.Sized()
  {
    op.InsertOp? && c.counter == 0 && Live(c.slots, |c.slots.table|) >= c.epochSize
  }

  /** The inserts among the operations from one place to another. */
  function Inserts(ops: seq<Op>, i: nat, j: nat): nat
    requires i <= j <= |ops|
  {
    if i == j then 0 else Inserts(ops, i, j - 1) + if ops[j - 1].InsertOp? then 1 else 0
  }

  lemma {:induction false} InsertsAre(ops: seq<Op>, i: nat, j: nat)
    requires i <= j <= |ops|
    ensures Inserts(ops, i, j) == |set k: nat | i <= k < j && ops[k].InsertOp?|
  {
    var all := set k: nat | i <= k < j && ops[k].InsertOp?;
    if i == j {
      assert all == {};
    } else {
      InsertsAre(ops, i, j - 1);
      var before := set k: nat | i <= k < j - 1 && ops[k].InsertOp?;
      assert j - 1 !in before && all == if ops[j - 1].InsertOp? then before + {j - 1} else before;
    }
  }

  lemma CounterFalls(h: Hasher, c: State, op: Op)
    requires c.slots.Sized()
    ensures Exec(h, c, op).epochSize == c.epochSize
    ensures Exec(h, c, op).counter + (if op.InsertOp? then 1 else 0) >= c.counter
    ensures EndsEpoch(c, op) ==> Exec(h, c, op).counter == c.epochSize
  {
    hide Live, Insert, Age, Erase;
  }

  /** From the end of one epoch on, the counter and the inserts make up a whole one. */
  lemma {:induction false} CounterCovers(h: Hasher, newSize: Word, depth: nat, cs: seq<State>, ops: seq<Op>, i: nat,
                                         j: nat)
    requires Run(h, newSize, depth, cs, ops) && i < j <= |ops| && EndsEpoch(cs[i], ops[i])
    ensures cs[j].epochSize == cs[i].epochSize && cs[j].counter + Inserts(ops, i + 1, j) >= cs[i].epochSize
  {
    hide Live, Exec;
    CounterFalls(h, cs[j - 1], ops[j - 1]);
    assert cs[(j - 1) + 1] == Exec(h, cs[j - 1], ops[j - 1]);
    if j - 1 > i {
      CounterCovers(h, newSize, depth, cs, ops, i, j - 1);
    }
  }

  /** An epoch lasts: between two ends there are at least as many inserts as it has elements. */
  lemma EpochsLast(h: Hasher, newSize: Word, depth: nat, cs: seq<State>, ops: seq<Op>, i: nat, j: nat)
    requires Run(h, newSize, depth, cs, ops) && i < j < |ops| && EndsEpoch(cs[i], ops[i]) && EndsEpoch(cs[j], ops[j])
    ensures Inserts(ops, i + 1, j) >= cs[i].epochSize
  {
    hide Live, Run;
    CounterCovers(h, newSize, depth, cs, ops, i, j);
  }

  /** An insert that does not end the epoch keeps every element but one it may drop for its own. */
  lemma KeptWithinEpoch(h: Hasher, c: State, e: Element, x: Element)
    requires Sound(h, c) && c.slots.Sized() && !EndsEpoch(c, InsertOp(e)) && Kept(c.slots, x)
    ensures var (c', dropped) := Inserted(h, c, e); Sound(h, c') && (Kept(c'.slots, x) || dropped == Some(x))
  {
    hide Live, Insert, Placed, Kept, EpochCheck, Inserted;
    InsertSound(h, c, e);
    NotAged(c);
  }

  lemma NotAged(c: State)
    requires c.slots.Sized() && (c.counter > 0 || Live(c.slots, |c.slots.table|) < c.epochSize)
    ensures EpochCheck(c).slots == c.slots
  {
  }
}
