/** The rolling Bloom filter: cells labelled with one of three generations. */
module Bloom {
  import opened Bits64
  import Limbs

  type Key = seq<nat>

  type Hash = (nat, nat, Key) -> bv32

  // ------------------------------------------------------------------------- labels

  /** Two words per group of 64 cells: the low and the high bits of their labels. */
  ghost predicate Shaped(data: seq<bv64>) {
    |data| >= 2 && |data| % 2 == 0
  }

  /** The label of a cell: 0 for unset, else the generation that set it. */
  function Label(data: seq<bv64>, group: nat, j: bv64): nat
    requires 2 * group + 1 < |data| && j < 64
  {
    (if Bit(data[2 * group], j) then 1 else 0) + (if Bit(data[2 * group + 1], j) then 2 else 0)
  }

  function SetLabel(data: seq<bv64>, group: nat, b: bv64, g: nat): (r: seq<bv64>)
    requires 2 * group + 1 < |data| && b < 64
    ensures |r| == |data|
  {
    data[2 * group := Put(data[2 * group], b, g % 2 == 1)][2 * group + 1 := Put(data[2 * group + 1], b, g / 2 == 1)]
  }

  /** Writing a label changes that cell and no other. */
  lemma SetLabelAt(data: seq<bv64>, group: nat, b: bv64, g: nat, k: nat, j: bv64)
    requires 2 * group + 1 < |data| && 2 * k + 1 < |data| && b < 64 && j < 64 && g < 4
    ensures Label(SetLabel(data, group, b, g), k, j) == if k == group && j == b then g else Label(data, k, j)
  {
    hide Bit, Put;
    PutBit(data[2 * group], b, g % 2 == 1, j);
    PutBit(data[2 * group + 1], b, g / 2 == 1, j);
  }

  /** The mask that clears the cells with label g of a pair of words. */
  function KeepMask(p1: bv64, p2: bv64, g: nat): bv64 {
    Or(Xor(p1, Fill(g % 2 == 1)), Xor(p2, Fill(g / 2 == 1)))
  }

  lemma KeepMaskBit(p1: bv64, p2: bv64, g: nat, j: bv64)
    requires j < 64
    ensures Bit(KeepMask(p1, p2, g), j) == (Bit(p1, j) != (g % 2 == 1) || Bit(p2, j) != (g / 2 == 1))
  {
    hide Bit, Fill, Or, Xor;
    FillBit(g % 2 == 1, j);
    FillBit(g / 2 == 1, j);
    XorBit(p1, Fill(g % 2 == 1), j);
    XorBit(p2, Fill(g / 2 == 1), j);
    OrBit(Xor(p1, Fill(g % 2 == 1)), Xor(p2, Fill(g / 2 == 1)), j);
  }

  /** The words after wiping the cells with label g. */
  function Wipe(data: seq<bv64>, g: nat): (r: seq<bv64>)
    requires |data| % 2 == 0
    ensures |r| == |data|
  {
    seq(|data|, i requires 0 <= i < |data| => WipeWord(data, g, i))
  }

  function WipeWord(data: seq<bv64>, g: nat, i: nat): bv64
    requires |data| % 2 == 0 && i < |data|
  {
    var group := i / 2;
    And(data[i], KeepMask(data[2 * group], data[2 * group + 1], g))
  }

  /** Wiping a generation unsets exactly its cells. */
  lemma WipeAt(data: seq<bv64>, g: nat, k: nat, j: bv64)
    requires |data| % 2 == 0 && 2 * k + 1 < |data| && j < 64 && 1 <= g <= 3
    ensures Label(Wipe(data, g), k, j) == if Label(data, k, j) == g then 0 else Label(data, k, j)
  {
    hide Bit, KeepMask, And;
    var p1, p2 := data[2 * k], data[2 * k + 1];
    KeepMaskBit(p1, p2, g, j);
    AndBit(p1, KeepMask(p1, p2, g), j);
    AndBit(p2, KeepMask(p1, p2, g), j);
    assert (2 * k) / 2 == k && (2 * k + 1) / 2 == k;
  }

  // -------------------------------------------------------------------------- cells

  function FastMod(x: nat, n: nat): (r: nat)
    requires x < 0x1_0000_0000 && n > 0
    ensures r < n && r * 0x1_0000_0000 <= x * n < (r + 1) * 0x1_0000_0000
  {
    Limbs.MulMono(x, 0xFFFF_FFFF, n);
    Limbs.DivBelow(x * n, 0x1_0000_0000, n);
    Limbs.DivNonNegative(x * n, 0x1_0000_0000);
    x * n / 0x1_0000_0000
  }

  function BitOf(h: bv32): (r: bv64)
    ensures r < 64
  {
    (h & 0x3F) as bv64
  }

  function GroupOf(h: bv32, size: nat): (r: nat)
    requires size >= 2 && size % 2 == 0
    ensures 2 * r + 1 < size
  {
    PairFits(FastMod(ValueOf(h), size), size);
    FastMod(ValueOf(h), size) / 2
  }

  function ValueOf(h: bv32): (r: nat)
    ensures r < 0x1_0000_0000
  {
    h as nat
  }

  lemma PairFits(pos: nat, size: nat)
    requires pos < size && size % 2 == 0
    ensures 0 <= pos / 2 && 2 * (pos / 2) + 1 < size
  {
  }

  /** The label of the `n`-th cell of a key. */
  function CellOf(hash: Hash, tweak: nat, data: seq<bv64>, key: Key, n: nat): nat
    requires |data| >= 2 && |data| % 2 == 0
  {
    var h := hash(n, tweak, key);
    Label(data, GroupOf(h, |data|), BitOf(h))
  }

  /** The filter contains a key when all its cells are set. */
  predicate AllSet(hash: Hash, tweak: nat, funcs: nat, data: seq<bv64>, key: Key)
    requires |data| >= 2 && |data| % 2 == 0
  {
    forall n :: 0 <= n < funcs ==> CellOf(hash, tweak, data, key, n) != 0
  }

  /** Labels the first `n` cells of a key. */
  function Mark(hash: Hash, tweak: nat, data: seq<bv64>, key: Key, g: nat, n: nat): (r: seq<bv64>)
    requires |data| >= 2 && |data| % 2 == 0
    ensures |r| == |data|
  {
    if n == 0 then data
    else
      var d := Mark(hash, tweak, data, key, g, n - 1);
      var h := hash(n - 1, tweak, key);
      SetLabel(d, GroupOf(h, |d|), BitOf(h), g)
  }

  /** Whether the `n`-th cell of a key is this one. */
  predicate IsCell(hash: Hash, tweak: nat, size: nat, key: Key, n: nat, k: nat, j: bv64)
    requires size >= 2 && size % 2 == 0
  {
    GroupOf(hash(n, tweak, key), size) == k && BitOf(hash(n, tweak, key)) == j
  }

  /** Whether one of the first `funcs` cells of a key is this one. */
  predicate Hits(hash: Hash, tweak: nat, funcs: nat, size: nat, key: Key, k: nat, j: bv64)
    requires size >= 2 && size % 2 == 0
  {
    exists n :: 0 <= n < funcs && IsCell(hash, tweak, size, key, n, k, j)
  }

  /** Marking writes the current label on the cells of the key and on no other. */
  lemma {:induction false} MarkAt(hash: Hash, tweak: nat, data: seq<bv64>, key: Key, g: nat, n: nat, k: nat, j: bv64)
    requires |data| >= 2 && |data| % 2 == 0 && g < 4 && 2 * k + 1 < |data| && j < 64
    ensures Label(Mark(hash, tweak, data, key, g, n), k, j) ==
              if Hits(hash, tweak, n, |data|, key, k, j) then g else Label(data, k, j)
  {
    hide Label, SetLabel, GroupOf, BitOf;
    if n > 0 {
      HitsUnfolds(hash, tweak, n, |data|, key, k, j);
      MarkAt(hash, tweak, data, key, g, n - 1, k, j);
      var d := Mark(hash, tweak, data, key, g, n - 1);
      var h := hash(n - 1, tweak, key);
      SetLabelAt(d, GroupOf(h, |d|), BitOf(h), g, k, j);
    }
  }

  lemma HitsUnfolds(hash: Hash, tweak: nat, n: nat, size: nat, key: Key, k: nat, j: bv64)
    requires size >= 2 && size % 2 == 0 && n > 0
    ensures Hits(hash, tweak, n, size, key, k, j) <==>
              Hits(hash, tweak, n - 1, size, key, k, j) || IsCell(hash, tweak, size, key, n - 1, k, j)
  {
    hide IsCell;
  }

  lemma HitsOwnCell(hash: Hash, tweak: nat, funcs: nat, size: nat, key: Key, n: nat)
    requires size >= 2 && size % 2 == 0 && n < funcs
    ensures Hits(hash, tweak, funcs, size, key, GroupOf(hash(n, tweak, key), size), BitOf(hash(n, tweak, key)))
  {
    assert IsCell(hash, tweak, size, key, n, GroupOf(hash(n, tweak, key), size), BitOf(hash(n, tweak, key)));
  }

  // -------------------------------------------------------------------- generations

  /** How many generations ago a label was current. */
  function Age(g: nat, l: nat): nat
    requires 1 <= g <= 3 && 1 <= l <= 3
  {
    (g + 3 - l) % 3
  }

  function NextGeneration(g: nat): nat {
    if g == 3 then 1 else g + 1
  }

  /** All cells of a key were set at most `a` generations ago. */
  ghost predicate SetSince(hash: Hash, tweak: nat, funcs: nat, data: seq<bv64>, g: nat, key: Key, a: nat)
    requires |data| >= 2 && |data| % 2 == 0 && 1 <= g <= 3
  {
    forall n :: 0 <= n < funcs ==>
      var l := CellOf(hash, tweak, data, key, n); 1 <= l <= 3 && Age(g, l) <= a
  }

  /** Inserting a key does not age others, even where it overwrites their labels. */
  lemma MarkKeeps(hash: Hash, tweak: nat, funcs: nat, data: seq<bv64>, g: nat, key: Key, a: nat, other: Key)
    requires |data| >= 2 && |data| % 2 == 0 && 1 <= g <= 3 && SetSince(hash, tweak, funcs, data, g, key, a)
    ensures SetSince(hash, tweak, funcs, Mark(hash, tweak, data, other, g, funcs), g, key, a)
  {
    hide Label, Mark, GroupOf, BitOf;
    var d := Mark(hash, tweak, data, other, g, funcs);
    forall n | 0 <= n < funcs ensures var l := CellOf(hash, tweak, d, key, n); 1 <= l <= 3 && Age(g, l) <= a {
      var h := hash(n, tweak, key);
      MarkAt(hash, tweak, data, other, g, funcs, GroupOf(h, |data|), BitOf(h));
      assert CellOf(hash, tweak, data, key, n) == Label(data, GroupOf(h, |data|), BitOf(h));
    }
  }

  lemma MarkSets(hash: Hash, tweak: nat, funcs: nat, data: seq<bv64>, g: nat, key: Key)
    requires |data| >= 2 && |data| % 2 == 0 && 1 <= g <= 3
    ensures SetSince(hash, tweak, funcs, Mark(hash, tweak, data, key, g, funcs), g, key, 0)
  {
    hide Label, Mark, GroupOf, BitOf;
    var d := Mark(hash, tweak, data, key, g, funcs);
    forall n | 0 <= n < funcs ensures CellOf(hash, tweak, d, key, n) == g {
      var h := hash(n, tweak, key);
      HitsOwnCell(hash, tweak, funcs, |data|, key, n);
      MarkAt(hash, tweak, data, key, g, funcs, GroupOf(h, |data|), BitOf(h));
    }
  }

  /** Wiping the next generation leaves what was set in this one and the last. */
  lemma WipeKeeps(hash: Hash, tweak: nat, funcs: nat, data: seq<bv64>, g: nat, key: Key, a: nat)
    requires |data| >= 2 && |data| % 2 == 0 && 1 <= g <= 3 && a <= 1 && SetSince(hash, tweak, funcs, data, g, key, a)
    ensures SetSince(hash, tweak, funcs, Wipe(data, NextGeneration(g)), NextGeneration(g), key, a + 1)
  {
    hide Label, Wipe, GroupOf, BitOf;
    var g' := NextGeneration(g);
    var d := Wipe(data, g');
    forall n | 0 <= n < funcs ensures var l := CellOf(hash, tweak, d, key, n); 1 <= l <= 3 && Age(g', l) <= a + 1 {
      var h := hash(n, tweak, key);
      WipeAt(data, g', GroupOf(h, |data|), BitOf(h));
      assert CellOf(hash, tweak, data, key, n) == Label(data, GroupOf(h, |data|), BitOf(h));
    }
  }

  // ------------------------------------------------------------------------ history

  /** The state of a filter; `keys` lists all insertions since the last reset. */
  datatype State = State(data: seq<bv64>, generation: nat, entries: nat, keys: seq<Key>, gens: seq<nat>, count: nat)

  /** Generation `count` is current; the key at an index belongs to the generation its index gives. */
  ghost predicate Counted(perGen: nat, s: State) {
    && perGen >= 1 && s.generation == s.count % 3 + 1 && s.entries <= perGen
    && |s.gens| == |s.keys| == s.count * perGen + s.entries
    && forall i :: 0 <= i < |s.gens| ==> s.gens[i] <= s.count && s.gens[i] * perGen <= i < (s.gens[i] + 1) * perGen
  }

  /** Keys of the last three generations are set, no older than their generation. */
  ghost predicate Remembered(hash: Hash, tweak: nat, funcs: nat, s: State)
    requires |s.data| >= 2 && |s.data| % 2 == 0 && 1 <= s.generation <= 3 && |s.gens| == |s.keys|
  {
    forall i :: 0 <= i < |s.keys| && s.gens[i] <= s.count <= s.gens[i] + 2 ==>
      SetSince(hash, tweak, funcs, s.data, s.generation, s.keys[i], s.count - s.gens[i])
  }

  /** A key of the last three generations has set a cell, with this label. */
  ghost predicate SetBy(hash: Hash, tweak: nat, funcs: nat, s: State, k: nat, j: bv64, l: nat)
    requires |s.data| >= 2 && |s.data| % 2 == 0 && |s.gens| == |s.keys|
  {
    exists i :: 0 <= i < |s.keys| && SetByKey(hash, tweak, funcs, s, k, j, l, i)
  }

  ghost predicate SetByKey(hash: Hash, tweak: nat, funcs: nat, s: State, k: nat, j: bv64, l: nat, i: nat)
    requires |s.data| >= 2 && |s.data| % 2 == 0 && |s.gens| == |s.keys| && i < |s.keys|
  {
    s.count <= s.gens[i] + 2 && l == s.gens[i] % 3 + 1 && Hits(hash, tweak, funcs, |s.data|, s.keys[i], k, j)
  }

  /** Nothing older is left: every cell that is set was set by such a key. */
  ghost predicate Owned(hash: Hash, tweak: nat, funcs: nat, s: State)
    requires |s.data| >= 2 && |s.data| % 2 == 0 && |s.gens| == |s.keys|
  {
    forall k: nat, j: bv64 :: 2 * k + 1 < |s.data| && j < 64 && Label(s.data, k, j) != 0 ==>
      SetBy(hash, tweak, funcs, s, k, j, Label(s.data, k, j))
  }

  ghost predicate Inv(hash: Hash, tweak: nat, funcs: nat, perGen: nat, s: State) {
    Shaped(s.data) && Counted(perGen, s) && Remembered(hash, tweak, funcs, s) && Owned(hash, tweak, funcs, s)
  }

  /** Starting the next generation. */
  function Roll(perGen: nat, s: State): State
    requires |s.data| % 2 == 0
  {
    if s.entries == perGen then
      var g := NextGeneration(s.generation);
      s.(generation := g, entries := 0, data := Wipe(s.data, g), count := s.count + 1)
    else s
  }

  function Insert(hash: Hash, tweak: nat, funcs: nat, perGen: nat, s: State, key: Key): State
    requires |s.data| >= 2 && |s.data| % 2 == 0
  {
    var r := Roll(perGen, s);
    r.(data := Mark(hash, tweak, r.data, key, r.generation, funcs), entries := r.entries + 1,
       keys := r.keys + [key], gens := r.gens + [r.count])
  }

  lemma RollKeepsInv(hash: Hash, tweak: nat, funcs: nat, perGen: nat, s: State)
    requires Inv(hash, tweak, funcs, perGen, s)
    ensures Inv(hash, tweak, funcs, perGen, Roll(perGen, s)) && Roll(perGen, s).entries < perGen
  {
    hide SetSince, Wipe, Owned, Counted;
    CountedLengths(perGen, s);
    RollCounts(perGen, s);
    if s.entries == perGen {
      var r := Roll(perGen, s);
      WipeKeepsOwned(hash, tweak, funcs, perGen, s);
      forall i | 0 <= i < |r.keys| && r.gens[i] <= r.count <= r.gens[i] + 2
        ensures SetSince(hash, tweak, funcs, r.data, r.generation, r.keys[i], r.count - r.gens[i])
      {
        GensBelow(perGen, s, i);
        WipeKeeps(hash, tweak, funcs, s.data, s.generation, s.keys[i], s.count - s.gens[i]);
      }
    }
  }

  /** The generation whose label is reused is the one that falls out of the window. */
  lemma WipeKeepsOwned(hash: Hash, tweak: nat, funcs: nat, perGen: nat, s: State)
    requires Inv(hash, tweak, funcs, perGen, s) && s.entries == perGen
    ensures Owned(hash, tweak, funcs, Roll(perGen, s))
  {
    hide Wipe, Label, Hits, Remembered, Counted;
    CountedLengths(perGen, s);
    var r := Roll(perGen, s);
    forall k: nat, j: bv64 | 2 * k + 1 < |r.data| && j < 64 && Label(r.data, k, j) != 0
      ensures SetBy(hash, tweak, funcs, r, k, j, Label(r.data, k, j))
    {
      WipeAt(s.data, r.generation, k, j);
      var l := Label(s.data, k, j);
      assert SetBy(hash, tweak, funcs, s, k, j, l);
      var i :| 0 <= i < |s.keys| && SetByKey(hash, tweak, funcs, s, k, j, l, i);
      GensBelow(perGen, s, i);
      Retires(s.count, s.gens[i]);
      assert SetByKey(hash, tweak, funcs, r, k, j, l, i);
    }
  }

  lemma RollCounts(perGen: nat, s: State)
    requires Counted(perGen, s) && Shaped(s.data)
    ensures Counted(perGen, Roll(perGen, s)) && Roll(perGen, s).entries < perGen
  {
    hide Wipe;
    NextEntry(s.count, perGen);
  }

  lemma Retires(count: nat, gen: nat)
    requires gen <= count <= gen + 2 && gen % 3 + 1 != NextGeneration(count % 3 + 1)
    ensures count + 1 <= gen + 2
  {
  }

  lemma MarkKeepsOwned(hash: Hash, tweak: nat, funcs: nat, perGen: nat, r: State, key: Key)
    requires Inv(hash, tweak, funcs, perGen, r)
    ensures Owned(hash, tweak, funcs,
                  r.(data := Mark(hash, tweak, r.data, key, r.generation, funcs), entries := r.entries + 1,
                                         keys := r.keys + [key], gens := r.gens + [r.count]))
  {
    hide Mark, Label, Hits, Remembered;
    var t := r.(data := Mark(hash, tweak, r.data, key, r.generation, funcs), entries := r.entries + 1,
                keys := r.keys + [key], gens := r.gens + [r.count]);
    forall k: nat, j: bv64 | 2 * k + 1 < |t.data| && j < 64 && Label(t.data, k, j) != 0
      ensures SetBy(hash, tweak, funcs, t, k, j, Label(t.data, k, j))
    {
      MarkAt(hash, tweak, r.data, key, r.generation, funcs, k, j);
      var l := Label(t.data, k, j);
      if Hits(hash, tweak, funcs, |r.data|, key, k, j) {
        assert SetByKey(hash, tweak, funcs, t, k, j, l, |r.keys|);
      } else {
        assert SetBy(hash, tweak, funcs, r, k, j, l);
        var i :| 0 <= i < |r.keys| && SetByKey(hash, tweak, funcs, r, k, j, l, i);
        assert SetByKey(hash, tweak, funcs, t, k, j, l, i);
      }
    }
  }

  lemma NextEntry(count: nat, perGen: nat)
    ensures (count + 1) * perGen == count * perGen + perGen
  {
  }

  lemma InsertKeepsInv(hash: Hash, tweak: nat, funcs: nat, perGen: nat, s: State, key: Key)
    requires Inv(hash, tweak, funcs, perGen, s)
    ensures Inv(hash, tweak, funcs, perGen, Insert(hash, tweak, funcs, perGen, s, key))
  {
    hide SetSince, Mark, Roll, Owned;
    RollKeepsInv(hash, tweak, funcs, perGen, s);
    var r, t := Roll(perGen, s), Insert(hash, tweak, funcs, perGen, s, key);
    MarkKeepsOwned(hash, tweak, funcs, perGen, r, key);
    NextEntry(r.count, perGen);
    MarkSets(hash, tweak, funcs, r.data, r.generation, key);
    forall i | 0 <= i < |t.keys| && t.gens[i] <= t.count <= t.gens[i] + 2
      ensures SetSince(hash, tweak, funcs, t.data, t.generation, t.keys[i], t.count - t.gens[i])
    {
      if i < |r.keys| {
        MarkKeeps(hash, tweak, funcs, r.data, r.generation, r.keys[i], r.count - r.gens[i], key);
      }
    }
  }

  /** Every key of the retention window is contained. */
  lemma RecentIsContained(hash: Hash, tweak: nat, funcs: nat, perGen: nat, s: State, i: nat)
    requires Inv(hash, tweak, funcs, perGen, s) && i < |s.keys| && |s.keys| - i <= 2 * perGen + s.entries
    ensures AllSet(hash, tweak, funcs, s.data, s.keys[i])
  {
    hide CellOf;
    if s.gens[i] + 3 <= s.count {
      Limbs.MulMono(s.gens[i] + 3, s.count, perGen);
      NextEntry(s.gens[i], perGen);
      NextEntry(s.gens[i] + 1, perGen);
      NextEntry(s.gens[i] + 2, perGen);
    }
  }

  /** Whether an insertion is in the window: the last two full generations and the current one. */
  predicate InWindow(perGen: nat, s: State, i: nat) {
    i < |s.keys| && |s.keys| - i <= 2 * perGen + s.entries
  }

  lemma WindowIsGenerations(perGen: nat, s: State, i: nat)
    requires Counted(perGen, s) && i < |s.keys|
    ensures InWindow(perGen, s, i) <==> s.count <= s.gens[i] + 2
  {
    NextEntry(s.gens[i], perGen);
    NextEntry(s.gens[i] + 1, perGen);
    NextEntry(s.gens[i] + 2, perGen);
    if s.gens[i] + 3 <= s.count {
      Limbs.MulMono(s.gens[i] + 3, s.count, perGen);
    } else {
      Limbs.MulMono(s.count, s.gens[i] + 2, perGen);
    }
  }

  /** A cell is set exactly when it is a cell of some key of the window. */
  lemma CellIsExact(hash: Hash, tweak: nat, funcs: nat, perGen: nat, s: State, k: nat, j: bv64)
    requires Inv(hash, tweak, funcs, perGen, s) && 2 * k + 1 < |s.data| && j < 64
    ensures Label(s.data, k, j) != 0 <==>
              exists i: nat :: InWindow(perGen, s, i) && Hits(hash, tweak, funcs, |s.data|, s.keys[i], k, j)
  {
    hide Label, Counted, GroupOf, BitOf;
    CountedLengths(perGen, s);
    if Label(s.data, k, j) != 0 {
      var i :| 0 <= i < |s.keys| && SetByKey(hash, tweak, funcs, s, k, j, Label(s.data, k, j), i);
      WindowIsGenerations(perGen, s, i);
    }
    if i: nat :| InWindow(perGen, s, i) && Hits(hash, tweak, funcs, |s.data|, s.keys[i], k, j) {
      WindowIsGenerations(perGen, s, i);
      GensBelow(perGen, s, i);
      var n :| 0 <= n < funcs && IsCell(hash, tweak, |s.data|, s.keys[i], n, k, j);
      assert CellOf(hash, tweak, s.data, s.keys[i], n) != 0;
    }
  }

  lemma CountedLengths(perGen: nat, s: State)
    requires Counted(perGen, s)
    ensures |s.gens| == |s.keys| && s.generation == s.count % 3 + 1
  {
  }

  lemma GensBelow(perGen: nat, s: State, i: nat)
    requires Counted(perGen, s) && i < |s.keys|
    ensures s.gens[i] <= s.count
  {
  }

  /** A key is claimed exactly when each of its cells is a cell of some key of the window. */
  ghost predicate Claimed(hash: Hash, tweak: nat, funcs: nat, perGen: nat, s: State, key: Key)
    requires |s.data| >= 2 && |s.data| % 2 == 0
  {
    forall n :: 0 <= n < funcs ==> ClaimedCell(hash, tweak, funcs, perGen, s, key, n)
  }

  ghost predicate ClaimedCell(hash: Hash, tweak: nat, funcs: nat, perGen: nat, s: State, key: Key, n: nat)
    requires |s.data| >= 2 && |s.data| % 2 == 0
  {
    var h := hash(n, tweak, key);
    exists i: nat :: InWindow(perGen, s, i) &&
      Hits(hash, tweak, funcs, |s.data|, s.keys[i], GroupOf(h, |s.data|), BitOf(h))
  }

  lemma ContainsIsExact(hash: Hash, tweak: nat, funcs: nat, perGen: nat, s: State, key: Key)
    requires Inv(hash, tweak, funcs, perGen, s)
    ensures AllSet(hash, tweak, funcs, s.data, key) <==> Claimed(hash, tweak, funcs, perGen, s, key)
  {
    hide Label, Counted, Remembered, Owned, GroupOf, BitOf, InWindow, Hits;
    forall n | 0 <= n < funcs
      ensures CellOf(hash, tweak, s.data, key, n) != 0 <==> ClaimedCell(hash, tweak, funcs, perGen, s, key, n)
    {
      var h := hash(n, tweak, key);
      CellIsExact(hash, tweak, funcs, perGen, s, GroupOf(h, |s.data|), BitOf(h));
    }
  }

  // --------------------------------------------------------------------- the object

  class RollingBloomFilter {
    const hash: Hash
    const nHashFuncs: nat
    const nEntriesPerGeneration: nat
    var nTweak: nat
    var nEntriesThisGeneration: nat
    var nGeneration: nat
    var data: seq<bv64>
    /** All keys inserted since the last reset, with their generations. */
    ghost var keys: seq<Key>
    ghost var gens: seq<nat>
    ghost var count: nat

    ghost function S(): State
      reads this
    {
      State(data, nGeneration, nEntriesThisGeneration, keys, gens, count)
    }

    ghost predicate Valid()
      reads this
    {
      Inv(hash, nTweak, nHashFuncs, nEntriesPerGeneration, S())
    }

    /** A filter for `nElements`; the number of hash functions and words are parameters. */
    constructor (h: Hash, nElements: nat, funcs: nat, groups: nat, tweak: nat)
      requires nElements >= 1 && groups >= 1
      ensures Valid() && keys == [] && 2 * nEntriesPerGeneration in {nElements, nElements + 1} && |data| == 2 * groups
      ensures hash == h && nHashFuncs == funcs && nTweak == tweak
    {
      hash, nHashFuncs, nEntriesPerGeneration := h, funcs, (nElements + 1) / 2;
      data := seq(2 * groups, i => 0);
      nTweak, nEntriesThisGeneration, nGeneration := tweak, 0, 1;
      keys, gens, count := [], [], 0;
    }

    method Reset(tweak: nat)
      requires Valid()
      modifies this
      ensures Valid() && keys == [] && nTweak == tweak && |data| == |old(data)|
    {
      nTweak, nEntriesThisGeneration, nGeneration := tweak, 0, 1;
      data := seq(|data|, i => 0);
      keys, gens, count := [], [], 0;
    }

    /** Wipes the cells of the generation about to be reused. */
    method WipeGeneration()
      requires |data| % 2 == 0
      modifies this`data
      ensures data == Wipe(old(data), nGeneration)
    {
      hide KeepMask, And, WipeWord, Wipe;
      ghost var was := data;
      var p := 0;
      while p < |data|
        invariant p % 2 == 0 && p <= |data| == |was|
        invariant forall i :: 0 <= i < p ==> data[i] == WipeWord(was, nGeneration, i)
        invariant forall i :: p <= i < |data| ==> data[i] == was[i]
      {
        WipePair(was, nGeneration, p);
        var p1, p2 := data[p], data[p + 1];
        var mask := KeepMask(p1, p2, nGeneration);
        data := data[p := And(p1, mask)][p + 1 := And(p2, mask)];
        p := p + 2;
      }
      WipeIs(was, nGeneration, data);
    }

    /** Inserts a key; every key of the last two full generations and this one stays contained. */
    method Insert(key: Key)
      requires Valid()
      modifies this
      ensures Valid() && keys == old(keys) + [key] && nTweak == old(nTweak)
      ensures forall i :: 0 <= i < |keys| && |keys| - i <= 2 * nEntriesPerGeneration + nEntriesThisGeneration ==>
                AllSet(hash, nTweak, nHashFuncs, data, keys[i])
    {
      hide Inv, Mark, Wipe, SetLabel, AllSet;
      ghost var s := S();
      InvShaped(hash, nTweak, nHashFuncs, nEntriesPerGeneration, s);
      InsertKeepsInv(hash, nTweak, nHashFuncs, nEntriesPerGeneration, s, key);
      if nEntriesThisGeneration == nEntriesPerGeneration {
        nEntriesThisGeneration := 0;
        nGeneration := nGeneration + 1;
        if nGeneration == 4 {
          nGeneration := 1;
        }
        WipeGeneration();
        count := count + 1;
      }
      nEntriesThisGeneration := nEntriesThisGeneration + 1;
      MarkCells(key);
      keys, gens := keys + [key], gens + [count];
      forall i | 0 <= i < |keys| && |keys| - i <= 2 * nEntriesPerGeneration + nEntriesThisGeneration
        ensures AllSet(hash, nTweak, nHashFuncs, data, keys[i])
      {
        RecentIsContained(hash, nTweak, nHashFuncs, nEntriesPerGeneration, S(), i);
      }
    }

    method MarkCells(key: Key)
      requires |data| >= 2 && |data| % 2 == 0
      modifies this`data
      ensures data == Mark(hash, nTweak, old(data), key, nGeneration, nHashFuncs)
    {
      hide SetLabel, GroupOf, BitOf;
      for n := 0 to nHashFuncs
        invariant |data| == |old(data)| && data == Mark(hash, nTweak, old(data), key, nGeneration, n)
      {
        var h := hash(n, nTweak, key);
        data := SetLabel(data, GroupOf(h, |data|), BitOf(h), nGeneration);
      }
    }

    /** Whether all cells of a key are set: each one by some key of the window. */
    method Contains(key: Key) returns (r: bool)
      requires Valid()
      ensures r == AllSet(hash, nTweak, nHashFuncs, data, key)
      ensures r == Claimed(hash, nTweak, nHashFuncs, nEntriesPerGeneration, S(), key)
    {
      hide GroupOf, BitOf, Inv, Claimed;
      InvShaped(hash, nTweak, nHashFuncs, nEntriesPerGeneration, S());
      ContainsIsExact(hash, nTweak, nHashFuncs, nEntriesPerGeneration, S(), key);
      for n := 0 to nHashFuncs
        invariant forall m :: 0 <= m < n ==> CellOf(hash, nTweak, data, key, m) != 0
      {
        var h := hash(n, nTweak, key);
        var group, bit := GroupOf(h, |data|), BitOf(h);
        OrBit(data[2 * group], data[2 * group + 1], bit);
        if !Bit(Or(data[2 * group], data[2 * group + 1]), bit) {
          assert CellOf(hash, nTweak, data, key, n) == 0;
          return false;
        }
      }
      r := true;
    }
  }

  lemma WipePair(data: seq<bv64>, g: nat, p: nat)
    requires |data| % 2 == 0 && p % 2 == 0 && p < |data|
    ensures p + 1 < |data|
    ensures var mask := KeepMask(data[p], data[p + 1], g);
            WipeWord(data, g, p) == And(data[p], mask) && WipeWord(data, g, p + 1) == And(data[p + 1], mask)
  {
    assert p / 2 * 2 == p && (p + 1) / 2 * 2 == p;
  }

  lemma WipeIs(data: seq<bv64>, g: nat, r: seq<bv64>)
    requires |data| % 2 == 0 && |r| == |data| && forall i :: 0 <= i < |r| ==> r[i] == WipeWord(data, g, i)
    ensures r == Wipe(data, g)
  {
  }

  lemma InvShaped(hash: Hash, tweak: nat, funcs: nat, perGen: nat, s: State)
    requires Inv(hash, tweak, funcs, perGen, s)
    ensures |s.data| >= 2 && |s.data| % 2 == 0 && 1 <= s.generation <= 3
  {
  }
}
