/**
 * The values that the coin caches move around: pruned transactions, cache
 * entries with their DIRTY and FRESH flags, and the pointwise effect of writing
 * one child entry into its parent.
 */
module Coins {
  import opened Common

  /** A 256-bit identifier; 0 is the null hash. */
  type Hash = nat

  const NULL_HASH: Hash := 0

  datatype ShieldedType = Sprout | Sapling

  /** Anchors and nullifiers are kept per pool. */
  datatype Key = Key(pool: ShieldedType, hash: Hash)

  // ---------------------------------------------------------------- outputs

  datatype TxOut = TxOut(nValue: int, script: seq<bv8>) {
    predicate IsNull() {
      nValue == -1
    }
  }

  /** Pops spent outputs off the end. */
  function TrimNulls(vout: seq<TxOut>): (r: seq<TxOut>)
    ensures r <= vout
    ensures forall i :: |r| <= i < |vout| ==> vout[i].IsNull()
    ensures r != [] ==> !r[|r| - 1].IsNull()
  {
    if vout == [] || !vout[|vout| - 1].IsNull() then vout
    else TrimNulls(vout[..|vout| - 1])
  }

  datatype Coins = Coins(fCoinBase: bool, vout: seq<TxOut>, nHeight: int, nVersion: int) {

    predicate IsPruned() {
      forall i :: 0 <= i < |vout| ==> vout[i].IsNull()
    }

    predicate IsAvailable(n: nat) {
      n < |vout| && !vout[n].IsNull()
    }

    predicate IsClean() {
      vout == [] || !vout[|vout| - 1].IsNull()
    }

    /** Dropping trailing spent outputs changes no output's availability. */
    function Cleanup(): (r: Coins)
      ensures r.IsClean()
      ensures r.IsPruned() <==> IsPruned()
      ensures forall n: nat :: r.IsAvailable(n) <==> IsAvailable(n)
      ensures forall n: nat :: IsAvailable(n) ==> n < |r.vout| && r.vout[n] == vout[n]
      ensures r.fCoinBase == fCoinBase && r.nHeight == nHeight && r.nVersion == nVersion && r.vout <= vout
    {
      var r := this.(vout := TrimNulls(vout));
      assert forall i :: 0 <= i < |r.vout| ==> r.vout[i] == vout[i];
      r
    }

    /** Heap bytes behind the outputs, with vector capacity taken as its size. */
    function Usage(): (u: nat)
      ensures vout == [] ==> u == 0
    {
      MallocUsage(|vout| * SIZEOF_TXOUT) + ScriptUsage(vout)
    }
  }

  const SIZEOF_TXOUT := 40
  const SCRIPT_INLINE := 28
  const EmptyCoins := Coins(false, [], 0, 0)

  /** What an allocation takes: at least sixteen bytes more, in steps of sixteen. */
  function MallocUsage(alloc: nat): (u: nat)
    ensures u % 16 == 0 && if alloc == 0 then u == 0 else alloc + 16 <= u < alloc + 32
  {
    if alloc == 0 then 0 else (alloc + 31) / 16 * 16
  }

  function ScriptUsage(vout: seq<TxOut>): nat {
    if vout == [] then 0
    else
      var n := |vout[0].script|;
      MallocUsage(if n <= SCRIPT_INLINE then 0 else n) + ScriptUsage(vout[1..])
  }

  /** Scripts up to 28 bytes take nothing, and longer ones an allocation each. */
  lemma {:induction false} ScriptsAddUp(vout: seq<TxOut>, o: TxOut)
    ensures ScriptUsage(vout + [o]) == ScriptUsage(vout) + if |o.script| <= 28 then 0 else MallocUsage(|o.script|)
  {
    if vout == [] {
      assert vout + [o] == [o];
    } else {
      ScriptsAddUp(vout[1..], o);
      assert (vout + [o])[1..] == vout[1..] + [o];
    }
  }

  /** The outputs themselves take forty bytes each, in one allocation. */
  lemma OutputsTake(c: Coins)
    requires c.vout != []
    ensures ScriptUsage(c.vout) + 40 * |c.vout| + 16 <= c.Usage() < ScriptUsage(c.vout) + 40 * |c.vout| + 32
  {
  }

  /** What a reader may rely on: an absent entry and a fully spent one are the same thing. */
  function Live(c: Option<Coins>): Option<Coins> {
    if c.None? || c.value.IsPruned() then None else c
  }

  /** A clean, fully spent transaction has no outputs left. */
  lemma CleanPrunedIsEmpty(c: Coins)
    requires c.IsClean() && c.IsPruned()
    ensures c.vout == [] && c.Usage() == 0
  {
  }

  // ---------------------------------------------------------------- entries

  /** `isDirty`: may differ from the parent; `isFresh`: the parent has no unspent output. */
  datatype CoinsEntry = CoinsEntry(coins: Coins, isDirty: bool, isFresh: bool) {

    /** The flags tell the truth about a parent that shows `parent`. */
    predicate Sound(parent: Option<Coins>) {
      && (!isDirty ==> Live(Some(coins)) == Live(parent))
      && (isFresh ==> Live(parent) == None)
    }
  }

  /** Merkle trees of note commitments, given by their leaves. */
  datatype Tree = Tree(leaves: seq<Hash>)

  datatype AnchorEntry = AnchorEntry(entered: bool, tree: Tree, isDirty: bool)

  datatype NullifierEntry = NullifierEntry(entered: bool, isDirty: bool)

  /** The best anchors of the two pools. */
  datatype Best = Best(sprout: Hash, sapling: Hash) {
    function At(ty: ShieldedType): Hash {
      if ty == Sprout then sprout else sapling
    }
    function With(ty: ShieldedType, h: Hash): Best {
      if ty == Sprout then this.(sprout := h) else this.(sapling := h)
    }
  }

  const NoBest := Best(NULL_HASH, NULL_HASH)

  /** Hashing and sizing of commitment trees, fixed for a whole stack of views. */
  datatype Params = Params(root: (ShieldedType, Tree) -> Hash, treeUsage: Tree -> nat) {
    ghost predicate CollisionFree() {
      forall ty, a, b :: root(ty, a) == root(ty, b) ==> a == b
    }
    function EmptyRoot(ty: ShieldedType): Hash {
      root(ty, Tree([]))
    }
    function EmptyRoots(): Best {
      Best(EmptyRoot(Sprout), EmptyRoot(Sapling))
    }
  }

  // ------------------------------------------------------------------ views

  /** What a view of the chain state shows, with "absent" and "fully spent" identified. */
  datatype View = View(coins: Hash -> Option<Coins>, anchor: Key -> bool, nullifier: Key -> bool,
                       bestBlock: Hash, best: Best)
  {
    /** The coins of one transaction replaced. */
    ghost function WithCoins(t: Hash, c: Option<Coins>): View {
      this.(coins := Put<Hash, Option<Coins>>(coins, t, c))
    }
  }

  /** A cached hash, or the parent's while it is not loaded. */
  function Loaded(h: Hash, below: Hash): Hash {
    if h == NULL_HASH then below else h
  }

  function LoadedBest(h: Best, below: Best): Best {
    Best(Loaded(h.sprout, below.sprout), Loaded(h.sapling, below.sapling))
  }

  /**
   * Writing a hash up keeps what was shown exactly when it was loaded, or when
   * the parent's own hash showed nothing else than what lies below the parent.
   */
  lemma LoadedSurvives(h: Hash, parent: Hash, below: Hash)
    ensures Loaded(h, below) == Loaded(h, parent) <==> h != NULL_HASH || below == parent
  {
  }

  /** What one layer of a stack shows, and the hashes it keeps: null while they are not loaded. */
  datatype Layer = Layer(view: View, hashBlock: Hash, hashAnchor: Best)

  /** Reading the best block loads it from the top down to the first layer that has it. */
  function LoadBlock(ls: seq<Layer>): (r: seq<Layer>)
    ensures |r| == |ls|
  {
    if |ls| <= 1 || ls[0].hashBlock != NULL_HASH then ls
    else [ls[0].(hashBlock := ls[0].view.bestBlock)] + LoadBlock(ls[1..])
  }

  /** So does reading the best anchor of a pool. */
  function LoadAnchor(ls: seq<Layer>, ty: ShieldedType): (r: seq<Layer>)
    ensures |r| == |ls|
  {
    if |ls| <= 1 || ls[0].hashAnchor.At(ty) != NULL_HASH then ls
    else [ls[0].(hashAnchor := ls[0].hashAnchor.With(ty, ls[0].view.best.At(ty)))] + LoadAnchor(ls[1..], ty)
  }

  lemma LoadedWith(h: Best, below: Best, ty: ShieldedType, x: Hash)
    ensures LoadedBest(h.With(ty, x), below) == LoadedBest(h, below).With(ty, Loaded(x, below.At(ty)))
  {
  }

  /** What a cache shows for a key, given its own entry and what its parent shows. */
  function Through(us: Option<CoinsEntry>, below: Option<Coins>): Option<Coins> {
    Live(if us.Some? then Some(us.value.coins) else below)
  }

  /**
   * Entries `m` over a parent showing `below` make up a cache showing `shown`,
   * every flag tells the truth, and only the entry being modified may be unclean.
   */
  ghost predicate CoinsTied(m: map<Hash, CoinsEntry>, below: Hash -> Option<Coins>,
                            shown: Hash -> Option<Coins>, open: Option<Hash>)
  {
    && (forall t :: shown(t) == Through(Get(m, t), below(t)))
    && (forall t :: t in m ==> m[t].Sound(below(t)))
    && (forall t :: t in m && open != Some(t) ==> m[t].coins.IsClean())
    && (open.Some? ==> open.value in m && m[open.value].isDirty)
  }

  ghost predicate AnchorsTied(params: Params, m: map<Key, AnchorEntry>, below: Key -> bool, shown: Key -> bool) {
    && (forall k :: shown(k) == if k in m then m[k].entered else below(k))
    && (forall k :: k in m && !m[k].isDirty ==> m[k].entered == below(k))
    && (forall k :: k in m ==> params.root(k.pool, m[k].tree) == k.hash)
  }

  ghost predicate NullifiersTied(m: map<Key, NullifierEntry>, below: Key -> bool, shown: Key -> bool) {
    && (forall k :: shown(k) == if k in m then m[k].entered else below(k))
    && (forall k :: k in m && !m[k].isDirty ==> m[k].entered == below(k))
  }

  function Put<K(==), V>(f: K -> V, k: K, v: V): K -> V {
    (j: K) => if j == k then v else f(j)
  }

  /** What a tie says about one transaction. */
  lemma CoinsAt(m: map<Hash, CoinsEntry>, below: Hash -> Option<Coins>, shown: Hash -> Option<Coins>,
                open: Option<Hash>, t: Hash)
    requires CoinsTied(m, below, shown, open)
    ensures shown(t) == Through(Get(m, t), below(t))
    ensures Live(shown(t)) == shown(t)
    ensures t in m ==> m[t].Sound(below(t)) && (open != Some(t) ==> m[t].coins.IsClean())
    ensures open == Some(t) ==> t in m && m[t].isDirty
  {
  }

  /** Caching what the parent shows changes nothing; a fully spent answer may count as fresh. */
  lemma FillCoins(m: map<Hash, CoinsEntry>, below: Hash -> Option<Coins>, shown: Hash -> Option<Coins>,
                  open: Option<Hash>, t: Hash, c: Coins)
    requires CoinsTied(m, below, shown, open) && t !in m
    requires Live(Some(c)) == Live(below(t)) && c.IsClean()
    ensures CoinsTied(m[t := CoinsEntry(c, false, c.IsPruned())], below, shown, open)
  {
    assert Get(m, t) == None;
  }

  /** Marking an entry dirty, whether cached before or taken from the parent, changes nothing shown. */
  lemma OpenCoins(m: map<Hash, CoinsEntry>, below: Hash -> Option<Coins>, shown: Hash -> Option<Coins>,
                  t: Hash, e: CoinsEntry)
    requires CoinsTied(m, below, shown, None)
    requires Live(Some(e.coins)) == shown(t)
    requires e.isDirty && (e.isFresh ==> Live(below(t)) == None)
    ensures CoinsTied(m[t := e], below, shown, Some(t))
  {
  }

  lemma WriteOpenCoins(m: map<Hash, CoinsEntry>, below: Hash -> Option<Coins>, shown: Hash -> Option<Coins>,
                       t: Hash, c: Coins)
    requires CoinsTied(m, below, shown, Some(t))
    ensures CoinsTied(m[t := m[t].(coins := c)], below, Put<Hash, Option<Coins>>(shown, t, Live(Some(c))), Some(t))
  {
  }

  /** Coins as they are kept once a modification is over. */
  function Tidy(c: Option<Coins>): Option<Coins> {
    if c.None? then None else Some(c.value.Cleanup())
  }

  /** The entry left when a modification is closed: dropped only if fresh and fully spent. */
  function Closed(m: map<Hash, CoinsEntry>, t: Hash): map<Hash, CoinsEntry>
    requires t in m
  {
    var c := m[t].coins.Cleanup();
    if m[t].isFresh && c.IsPruned() then m - {t} else m[t := m[t].(coins := c)]
  }

  /** Closing a modification drops an entry only when the parent shows nothing for it. */
  lemma CloseCoins(m: map<Hash, CoinsEntry>, below: Hash -> Option<Coins>, shown: Hash -> Option<Coins>, t: Hash)
    requires CoinsTied(m, below, shown, Some(t))
    ensures CoinsTied(Closed(m, t), below, Put<Hash, Option<Coins>>(shown, t, Tidy(shown(t))), None)
  {
    assert Get(m, t) == Some(m[t]);
    assert shown(t) == Live(Some(m[t].coins));
  }

  /**
   * Declaring an entry new is safe exactly when the parent shows no unspent
   * output; otherwise closing it fully spent brings the parent's coins back.
   */
  lemma NewCoins(m: map<Hash, CoinsEntry>, below: Hash -> Option<Coins>, shown: Hash -> Option<Coins>, t: Hash)
    requires CoinsTied(m, below, shown, None) && shown(t) == None
    ensures var begun := m[t := CoinsEntry(EmptyCoins, true, true)];
            && (CoinsTied(begun, below, shown, Some(t)) <==> Live(below(t)) == None)
            && Through(Get(Closed(begun, t), t), below(t)) == Live(below(t))
  {
    var begun := m[t := CoinsEntry(EmptyCoins, true, true)];
    assert begun[t].Sound(below(t)) <==> Live(below(t)) == None;
    assert forall u: Hash :: u != t ==> Get(begun, u) == Get(m, u);
  }

  /** An entry without flags can be forgotten. */
  lemma DropCoins(m: map<Hash, CoinsEntry>, below: Hash -> Option<Coins>, shown: Hash -> Option<Coins>,
                  open: Option<Hash>, t: Hash)
    requires CoinsTied(m, below, shown, open) && t in m && !m[t].isDirty
    ensures CoinsTied(m - {t}, below, shown, open)
  {
    assert Get(m, t) == Some(m[t]);
  }

  /** A cache without entries shows what its parent shows. */
  lemma EmptyTies(params: Params, v: View)
    requires forall t :: Live(v.coins(t)) == v.coins(t)
    ensures CoinsTied(map[], v.coins, v.coins, None)
    ensures AnchorsTied(params, map[], v.anchor, v.anchor)
    ensures NullifiersTied(map[], v.nullifier, v.nullifier)
  {
  }

  lemma AnchorAt(params: Params, m: map<Key, AnchorEntry>, below: Key -> bool, shown: Key -> bool, k: Key)
    requires AnchorsTied(params, m, below, shown)
    ensures shown(k) == if k in m then m[k].entered else below(k)
    ensures k in m ==> params.root(k.pool, m[k].tree) == k.hash
  {
  }

  lemma NullifierAt(m: map<Key, NullifierEntry>, below: Key -> bool, shown: Key -> bool, k: Key)
    requires NullifiersTied(m, below, shown)
    ensures shown(k) == if k in m then m[k].entered else below(k)
  {
  }

  lemma FillAnchor(params: Params, m: map<Key, AnchorEntry>, below: Key -> bool, shown: Key -> bool, k: Key, tree: Tree)
    requires AnchorsTied(params, m, below, shown) && k !in m && below(k) && params.root(k.pool, tree) == k.hash
    ensures AnchorsTied(params, m[k := AnchorEntry(true, tree, false)], below, shown)
  {
  }

  lemma SetAnchor(params: Params, m: map<Key, AnchorEntry>, below: Key -> bool, shown: Key -> bool, k: Key,
                  e: AnchorEntry)
    requires AnchorsTied(params, m, below, shown) && e.isDirty && params.root(k.pool, e.tree) == k.hash
    ensures AnchorsTied(params, m[k := e], below, Put(shown, k, e.entered))
  {
  }

  lemma FillNullifier(m: map<Key, NullifierEntry>, below: Key -> bool, shown: Key -> bool, k: Key)
    requires NullifiersTied(m, below, shown) && k !in m
    ensures NullifiersTied(m[k := NullifierEntry(below(k), false)], below, shown)
  {
  }

  lemma SetNullifier(m: map<Key, NullifierEntry>, below: Key -> bool, shown: Key -> bool, k: Key, spent: bool)
    requires NullifiersTied(m, below, shown)
    ensures NullifiersTied(m[k := NullifierEntry(spent, true)], below, Put(shown, k, spent))
  {
  }

  // ----------------------------------------------------------- memory usage

  /** A handle on the one entry that is being modified, with its usage before. */
  datatype Modifier = Modifier(txid: Hash, usage: nat)

  function EntryUsage(e: CoinsEntry): nat {
    e.coins.Usage()
  }

  function AnchorUsage(params: Params): AnchorEntry -> nat {
    (e: AnchorEntry) => params.treeUsage(e.tree)
  }

  /** `usage` is the summed usage of all entries, the open one counted as it was. */
  ghost predicate UsageTied(params: Params, coins: map<Hash, CoinsEntry>, anchors: map<Key, AnchorEntry>,
                            open: Option<Modifier>, usage: int)
  {
    usage == OpenUsage(coins, open) + Sum(anchors, AnchorUsage(params))
  }

  ghost function OpenUsage(coins: map<Hash, CoinsEntry>, open: Option<Modifier>): nat {
    if open.None? then Sum(coins, EntryUsage)
    else open.value.usage + Sum(coins - {open.value.txid}, EntryUsage)
  }

  /** Adding an entry for an absent transaction adds that entry's usage. */
  lemma UsageOfNewCoins(coins: map<Hash, CoinsEntry>, open: Option<Modifier>, t: Hash, e: CoinsEntry)
    requires t !in coins && (open.Some? ==> open.value.txid != t)
    ensures OpenUsage(coins[t := e], open) == OpenUsage(coins, open) + EntryUsage(e)
  {
    var rest := if open.None? then coins else coins - {open.value.txid};
    UsageOfFreshKey(rest, t, e);
    assert open.Some? ==> coins[t := e] - {open.value.txid} == rest[t := e];
  }

  lemma UsageOfFreshKey(coins: map<Hash, CoinsEntry>, t: Hash, e: CoinsEntry)
    requires t !in coins
    ensures Sum(coins[t := e], EntryUsage) == Sum(coins, EntryUsage) + EntryUsage(e)
  {
    SumPut(coins, EntryUsage, t, e);
    assert coins - {t} == coins;
  }

  /** Opening an entry with its present usage, or a new one with none, leaves the total alone. */
  lemma UsageOfOpening(coins: map<Hash, CoinsEntry>, t: Hash, e: CoinsEntry, usage: nat)
    requires usage == if t in coins then coins[t].coins.Usage() else 0
    ensures OpenUsage(coins[t := e], Some(Modifier(t, usage))) == OpenUsage(coins, None)
  {
    assert coins[t := e] - {t} == coins - {t};
    if t in coins {
      SumTake(coins, EntryUsage, t);
    } else {
      assert coins - {t} == coins;
    }
  }

  /** Closing an entry replaces the usage it was opened with by its usage now. */
  lemma UsageOfClosing(coins: map<Hash, CoinsEntry>, m: Modifier)
    requires m.txid in coins
    ensures var closed := Closed(coins, m.txid);
            OpenUsage(closed, None) == OpenUsage(coins, Some(m)) - m.usage
                                       + if m.txid in closed then closed[m.txid].coins.Usage() else 0
  {
    var t := m.txid;
    var closed := Closed(coins, t);
    assert closed - {t} == coins - {t};
    if t in closed {
      SumTake(closed, EntryUsage, t);
    } else {
      assert closed - {t} == closed;
    }
  }

  /** A new anchor entry adds its tree's usage; a changed one keeps its tree and adds nothing. */
  lemma UsageOfAnchor(params: Params, anchors: map<Key, AnchorEntry>, k: Key, e: AnchorEntry)
    requires k in anchors ==> anchors[k].tree == e.tree
    ensures Sum(anchors[k := e], AnchorUsage(params)) ==
            Sum(anchors, AnchorUsage(params)) + if k in anchors then 0 else params.treeUsage(e.tree)
  {
    SumPut(anchors, AnchorUsage(params), k, e);
    if k in anchors {
      SumTake(anchors, AnchorUsage(params), k);
    } else {
      assert anchors - {k} == anchors;
    }
  }

  // ------------------------------------------------- writing a child entry up

  /** The parent's entry after a child's entry for the same transaction is written to it. */
  function MergeCoins(us: Option<CoinsEntry>, child: CoinsEntry): Option<CoinsEntry> {
    if !child.isDirty then us
    else if us.None? then
      if child.isFresh && child.coins.IsPruned() then None
      else Some(CoinsEntry(child.coins, true, child.isFresh))
    else if us.value.isFresh && child.coins.IsPruned() then None
    else Some(us.value.(coins := child.coins, isDirty := true))
  }

  /**
   * Skipping, erasing or keeping an entry is never visible: the parent ends up
   * showing the child's coins, and its own flags stay true of the grandparent.
   */
  lemma MergeCoinsSound(us: Option<CoinsEntry>, child: CoinsEntry, below: Option<Coins>)
    requires us.Some? ==> us.value.Sound(below)
    requires child.Sound(Through(us, below))
    ensures Through(MergeCoins(us, child), below) == Live(Some(child.coins))
    ensures MergeCoins(us, child).Some? ==> MergeCoins(us, child).value.Sound(below)
  {
  }

  /** An entry to be written although the parent shows nothing and never will. */
  predicate Needless(e: CoinsEntry) {
    e.isDirty && e.isFresh && e.coins.IsPruned()
  }

  /** A merge writes nothing for what was created and spent in between, and nothing that was not modified. */
  lemma MergeLeavesNoTrace(us: Option<CoinsEntry>, child: CoinsEntry)
    requires us.Some? ==> !Needless(us.value)
    ensures MergeCoins(us, child).Some? ==> !Needless(MergeCoins(us, child).value)
    ensures !child.isDirty ==> MergeCoins(us, child) == us
  {
  }

  ghost predicate CoinsMerged(us: map<Hash, CoinsEntry>, child: map<Hash, CoinsEntry>, merged: map<Hash, CoinsEntry>) {
    forall t :: Get(merged, t) == if t in child then MergeCoins(Get(us, t), child[t]) else Get(us, t)
  }

  /**
   * Writing every entry of a child into its parent gives a parent that shows
   * over the grandparent exactly what the child showed over the parent.
   */
  lemma MergeAllCoins(us: map<Hash, CoinsEntry>, child: map<Hash, CoinsEntry>, merged: map<Hash, CoinsEntry>,
                      below: Hash -> Option<Coins>, mid: Hash -> Option<Coins>, shown: Hash -> Option<Coins>)
    requires CoinsTied(us, below, mid, None) && CoinsTied(child, mid, shown, None)
    requires CoinsMerged(us, child, merged)
    ensures CoinsTied(merged, below, shown, None)
  {
    forall t
      ensures shown(t) == Through(Get(merged, t), below(t))
      ensures t in merged ==> merged[t].Sound(below(t)) && merged[t].coins.IsClean()
    {
      if t in child {
        MergeCoinsSound(Get(us, t), child[t], below(t));
      }
      assert Get(merged, t) == if t in child then MergeCoins(Get(us, t), child[t]) else Get(us, t);
    }
  }

  /** The database record after a child's entry for the same transaction is written to it. */
  function StoreCoins(us: Option<Coins>, child: CoinsEntry): Option<Coins> {
    if !child.isDirty then us
    else if child.coins.IsPruned() then None
    else Some(child.coins)
  }

  /** The database holds exactly the clean coins that have an unspent output. */
  ghost predicate CoinsStored(m: map<Hash, Coins>, shown: Hash -> Option<Coins>) {
    && (forall t :: shown(t) == Get(m, t))
    && (forall t :: t in m ==> m[t].IsClean() && !m[t].IsPruned())
  }

  ghost predicate CoinsWritten(us: map<Hash, Coins>, child: map<Hash, CoinsEntry>, stored: map<Hash, Coins>) {
    forall t :: Get(stored, t) == if t in child then StoreCoins(Get(us, t), child[t]) else Get(us, t)
  }

  lemma StoreAllCoins(us: map<Hash, Coins>, child: map<Hash, CoinsEntry>, stored: map<Hash, Coins>,
                      mid: Hash -> Option<Coins>, shown: Hash -> Option<Coins>)
    requires CoinsStored(us, mid) && CoinsTied(child, mid, shown, None)
    requires CoinsWritten(us, child, stored)
    ensures CoinsStored(stored, shown)
  {
    forall t
      ensures shown(t) == Get(stored, t)
      ensures t in stored ==> stored[t].IsClean() && !stored[t].IsPruned()
    {
      assert Get(stored, t) == if t in child then StoreCoins(Get(us, t), child[t]) else Get(us, t);
      assert mid(t) == Get(us, t);
    }
  }

  /** The parent's anchor entry after a child's entry for the same root is written to it. */
  function MergeAnchor(us: Option<AnchorEntry>, child: AnchorEntry): Option<AnchorEntry> {
    if !child.isDirty then us
    else if us.None? then Some(child)
    else if us.value.entered != child.entered then
      Some(us.value.(entered := child.entered, isDirty := true))
    else us
  }

  ghost predicate AnchorsMerged(us: map<Key, AnchorEntry>, child: map<Key, AnchorEntry>,
                                merged: map<Key, AnchorEntry>) {
    forall k :: Get(merged, k) == if k in child then MergeAnchor(Get(us, k), child[k]) else Get(us, k)
  }

  lemma MergeAllAnchors(params: Params, us: map<Key, AnchorEntry>, child: map<Key, AnchorEntry>,
                        merged: map<Key, AnchorEntry>, below: Key -> bool, mid: Key -> bool, shown: Key -> bool)
    requires AnchorsTied(params, us, below, mid) && AnchorsTied(params, child, mid, shown)
    requires AnchorsMerged(us, child, merged)
    ensures AnchorsTied(params, merged, below, shown)
  {
    forall k
      ensures shown(k) == if k in merged then merged[k].entered else below(k)
      ensures k in merged && !merged[k].isDirty ==> merged[k].entered == below(k)
      ensures k in merged ==> params.root(k.pool, merged[k].tree) == k.hash
    {
      assert Get(merged, k) == if k in child then MergeAnchor(Get(us, k), child[k]) else Get(us, k);
    }
  }

  /** The stored tree after an anchor entry is written; the empty tree is never stored. */
  function StoreAnchor(params: Params, us: Option<Tree>, k: Key, child: AnchorEntry): Option<Tree> {
    if !child.isDirty then us
    else if !child.entered then None
    else if k.hash == params.EmptyRoot(k.pool) then us
    else Some(child.tree)
  }

  ghost predicate AnchorsStored(params: Params, m: map<Key, Tree>, shown: Key -> bool) {
    && (forall k :: shown(k) <==> k.hash == params.EmptyRoot(k.pool) || k in m)
    && (forall k :: k in m ==> params.root(k.pool, m[k]) == k.hash)
  }

  ghost predicate AnchorsWritten(params: Params, us: map<Key, Tree>, child: map<Key, AnchorEntry>,
                                 stored: map<Key, Tree>) {
    forall k :: Get(stored, k) == if k in child then StoreAnchor(params, Get(us, k), k, child[k]) else Get(us, k)
  }

  lemma StoreAllAnchors(params: Params, us: map<Key, Tree>, child: map<Key, AnchorEntry>, stored: map<Key, Tree>,
                        mid: Key -> bool, top: Key -> bool, shown: Key -> bool)
    requires AnchorsStored(params, us, mid) && AnchorsTied(params, child, mid, top)
    requires AnchorsWritten(params, us, child, stored)
    requires forall k :: shown(k) <==> top(k) || k.hash == params.EmptyRoot(k.pool)
    ensures AnchorsStored(params, stored, shown)
  {
    forall k
      ensures shown(k) <==> k.hash == params.EmptyRoot(k.pool) || k in stored
      ensures k in stored ==> params.root(k.pool, stored[k]) == k.hash
    {
      assert Get(stored, k) == if k in child then StoreAnchor(params, Get(us, k), k, child[k]) else Get(us, k);
    }
  }

  /** The parent's nullifier entry after a child's entry for the same nullifier is written to it. */
  function MergeNullifier(us: Option<NullifierEntry>, child: NullifierEntry): Option<NullifierEntry> {
    if !child.isDirty then us
    else if us.None? then Some(child)
    else if us.value.entered != child.entered then Some(NullifierEntry(child.entered, true))
    else us
  }

  ghost predicate NullifiersMerged(us: map<Key, NullifierEntry>, child: map<Key, NullifierEntry>,
                                   merged: map<Key, NullifierEntry>)
  {
    forall k :: Get(merged, k) == if k in child then MergeNullifier(Get(us, k), child[k]) else Get(us, k)
  }

  lemma MergeAllNullifiers(us: map<Key, NullifierEntry>, child: map<Key, NullifierEntry>,
                           merged: map<Key, NullifierEntry>, below: Key -> bool, mid: Key -> bool, shown: Key -> bool)
    requires NullifiersTied(us, below, mid) && NullifiersTied(child, mid, shown)
    requires NullifiersMerged(us, child, merged)
    ensures NullifiersTied(merged, below, shown)
  {
    forall k
      ensures shown(k) == if k in merged then merged[k].entered else below(k)
      ensures k in merged && !merged[k].isDirty ==> merged[k].entered == below(k)
    {
      assert Get(merged, k) == if k in child then MergeNullifier(Get(us, k), child[k]) else Get(us, k);
    }
  }
}
