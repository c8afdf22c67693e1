/**
 * Stacks of write-back caches over a coin database.  Every cache keeps entries
 * for some keys and asks its parent for the others; the flags on its entries
 * decide what is written, skipped or erased when it is flushed.
 *
 * Each object carries a ghost `view`: what it shows to its readers.  `Valid()`
 * ties the view of a cache to its own entries and to the view of its parent,
 * and the view of the database to its records.
 */
module CoinsCache {
  import opened Common
  import opened Coins

  // --------------------------------------------------------------- database

  /** The database at the bottom of a stack. */
  class CoinsDB {
    const params: Params
    var coins: map<Hash, Coins>
    var anchors: map<Key, Tree>
    var nullifiers: set<Key>
    var bestBlock: Hash
    var best: Best
    ghost var view: View

    ghost predicate Valid()
      reads this
    {
      && CoinsStored(coins, view.coins)
      && AnchorsStored(params, anchors, view.anchor)
      && (forall k :: view.nullifier(k) == (k in nullifiers))
      && view.bestBlock == bestBlock
      && view.best == LoadedBest(best, params.EmptyRoots())
    }

    /** Retrieves the tree at an anchor; the empty tree is always one. */
    method GetAnchorAt(k: Key) returns (found: bool, tree: Tree)
      requires Valid()
      ensures found == view.anchor(k)
      ensures found ==> params.root(k.pool, tree) == k.hash
    {
      if k.hash == params.EmptyRoot(k.pool) {
        return true, Tree([]);
      }
      if k in anchors {
        return true, anchors[k];
      }
      return false, Tree([]);
    }

    /**
     * Applies a child's entries: fully spent coins and removed anchors are
     * erased.  Afterwards the database shows what the child showed, except that
     * it cannot stop showing the empty tree as an anchor.
     */
    method BatchWrite(mapCoins: map<Hash, CoinsEntry>, hashBlock: Hash, hashAnchor: Best,
                      mapAnchors: map<Key, AnchorEntry>, mapNullifiers: map<Key, NullifierEntry>, ghost child: View)
      requires Valid()
      requires CoinsTied(mapCoins, view.coins, child.coins, None)
      requires AnchorsTied(params, mapAnchors, view.anchor, child.anchor)
      requires NullifiersTied(mapNullifiers, view.nullifier, child.nullifier)
      modifies this
      ensures Valid()
      ensures view.coins == child.coins && view.nullifier == child.nullifier
      ensures forall k :: view.anchor(k) <==> child.anchor(k) || k.hash == params.EmptyRoot(k.pool)
      ensures view.bestBlock == Loaded(hashBlock, old(view.bestBlock))
      ensures view.best == LoadedBest(hashAnchor, old(view.best))
      ensures bestBlock == Loaded(hashBlock, old(bestBlock)) && best == LoadedBest(hashAnchor, old(best))
    {
      hide CoinsTied, AnchorsTied, CoinsStored, AnchorsStored, CoinsWritten, AnchorsWritten;
      var coins' := WriteCoins(coins, mapCoins);
      StoreAllCoins(coins, mapCoins, coins', view.coins, child.coins);
      var anchors' := WriteAnchors(params, anchors, mapAnchors);
      ghost var shown := (k: Key) => child.anchor(k) || k.hash == params.EmptyRoot(k.pool);
      StoreAllAnchors(params, anchors, mapAnchors, anchors', view.anchor, child.anchor, shown);
      var nullifiers' := WriteNullifiers(nullifiers, mapNullifiers);
      coins, anchors, nullifiers := coins', anchors', nullifiers';
      if hashBlock != NULL_HASH {
        bestBlock := hashBlock;
      }
      if hashAnchor.sprout != NULL_HASH {
        best := best.(sprout := hashAnchor.sprout);
      }
      if hashAnchor.sapling != NULL_HASH {
        best := best.(sapling := hashAnchor.sapling);
      }
      view := View(child.coins, shown, child.nullifier, bestBlock, LoadedBest(best, params.EmptyRoots()));
    }
  }

  // ------------------------------------------------------ writing batches up

  /** Writes dirty coins to the database, erasing those with nothing left to spend. */
  method WriteCoins(us: map<Hash, Coins>, mapCoins: map<Hash, CoinsEntry>) returns (stored: map<Hash, Coins>)
    ensures CoinsWritten(us, mapCoins, stored)
  {
    stored := us;
    var todo := mapCoins;
    while todo != map[]
      invariant forall t :: t in todo ==> t in mapCoins && todo[t] == mapCoins[t]
      invariant forall t :: Get(stored, t) ==
                  if t in mapCoins && t !in todo then StoreCoins(Get(us, t), mapCoins[t]) else Get(us, t)
      decreases |todo|
    {
      var t :| t in todo;
      if todo[t].isDirty {
        if todo[t].coins.IsPruned() {
          stored := stored - {t};
        } else {
          stored := stored[t := todo[t].coins];
        }
      }
      todo := todo - {t};
    }
  }

  /** Writes dirty anchors to the database; the empty tree is implied and not written. */
  method WriteAnchors(params: Params, us: map<Key, Tree>, mapAnchors: map<Key, AnchorEntry>)
    returns (stored: map<Key, Tree>)
    ensures AnchorsWritten(params, us, mapAnchors, stored)
  {
    stored := us;
    var todo := mapAnchors;
    while todo != map[]
      invariant forall k :: k in todo ==> k in mapAnchors && todo[k] == mapAnchors[k]
      invariant forall k :: Get(stored, k) ==
                  if k in mapAnchors && k !in todo then StoreAnchor(params, Get(us, k), k, mapAnchors[k])
                    else Get(us, k)
      decreases |todo|
    {
      var k :| k in todo;
      if todo[k].isDirty {
        if !todo[k].entered {
          stored := stored - {k};
        } else if k.hash != params.EmptyRoot(k.pool) {
          stored := stored[k := todo[k].tree];
        }
      }
      todo := todo - {k};
    }
  }

  method WriteNullifiers(us: set<Key>, mapNullifiers: map<Key, NullifierEntry>) returns (stored: set<Key>)
    ensures forall k :: k in stored <==>
              if k in mapNullifiers && mapNullifiers[k].isDirty then mapNullifiers[k].entered else k in us
  {
    stored := us;
    var todo := mapNullifiers;
    while todo != map[]
      invariant forall k :: k in todo ==> k in mapNullifiers && todo[k] == mapNullifiers[k]
      invariant forall k :: k in stored <==>
                  if k in mapNullifiers && k !in todo && mapNullifiers[k].isDirty then mapNullifiers[k].entered
                    else k in us
      decreases |todo|
    {
      var k :| k in todo;
      if todo[k].isDirty {
        stored := if todo[k].entered then stored + {k} else stored - {k};
      }
      todo := todo - {k};
    }
  }

  /** Merges a child's coins into a parent cache, keeping the parent's usage count exact. */
  method MergeCoinsInto(us: map<Hash, CoinsEntry>, mapCoins: map<Hash, CoinsEntry>, usage: int)
    returns (merged: map<Hash, CoinsEntry>, usage': int)
    ensures CoinsMerged(us, mapCoins, merged)
    ensures usage' - usage == Sum(merged, EntryUsage) - Sum(us, EntryUsage)
  {
    hide Sum, MergeCoins;
    merged, usage' := us, usage;
    var todo := mapCoins;
    while todo != map[]
      invariant forall t :: t in todo ==> t in mapCoins && todo[t] == mapCoins[t]
      invariant forall t :: Get(merged, t) ==
                  if t in mapCoins && t !in todo then MergeCoins(Get(us, t), mapCoins[t]) else Get(us, t)
      invariant usage' - usage == Sum(merged, EntryUsage) - Sum(us, EntryUsage)
      decreases |todo|
    {
      var t :| t in todo;
      merged, usage' := MergeCoinsEntry(merged, t, todo[t], usage');
      todo := todo - {t};
    }
  }

  method MergeCoinsEntry(us: map<Hash, CoinsEntry>, t: Hash, child: CoinsEntry, usage: int)
    returns (merged: map<Hash, CoinsEntry>, usage': int)
    ensures Get(merged, t) == MergeCoins(Get(us, t), child)
    ensures forall u :: u != t ==> Get(merged, u) == Get(us, u)
    ensures usage' - usage == Sum(merged, EntryUsage) - Sum(us, EntryUsage)
  {
    hide Sum, Coins.IsPruned, Coins.Usage;
    merged, usage' := us, usage;
    if child.isDirty {
      if t !in us {
        // A fresh entry that is fully spent never existed for the parent.
        if !(child.isFresh && child.coins.IsPruned()) {
          var e := CoinsEntry(child.coins, true, child.isFresh);
          UsageOfFreshKey(us, t, e);
          merged, usage' := us[t := e], usage + e.coins.Usage();
        }
      } else {
        SumTake(us, EntryUsage, t);
        usage' := usage - us[t].coins.Usage();
        if us[t].isFresh && child.coins.IsPruned() {
          // The grandparent has nothing, so the parent can forget it too.
          merged := us - {t};
        } else {
          var e := us[t].(coins := child.coins, isDirty := true);
          SumPut(us, EntryUsage, t, e);
          merged, usage' := us[t := e], usage' + e.coins.Usage();
        }
      }
    }
  }

  /** Merges a child's anchors into a parent cache; a tree already there is kept. */
  method MergeAnchorsInto(params: Params, us: map<Key, AnchorEntry>, mapAnchors: map<Key, AnchorEntry>, usage: int)
    returns (merged: map<Key, AnchorEntry>, usage': int)
    ensures AnchorsMerged(us, mapAnchors, merged)
    ensures usage' - usage == Sum(merged, AnchorUsage(params)) - Sum(us, AnchorUsage(params))
  {
    hide Sum, MergeAnchor, AnchorUsage;
    merged, usage' := us, usage;
    var todo := mapAnchors;
    while todo != map[]
      invariant forall k :: k in todo ==> k in mapAnchors && todo[k] == mapAnchors[k]
      invariant forall k :: Get(merged, k) ==
                  if k in mapAnchors && k !in todo then MergeAnchor(Get(us, k), mapAnchors[k]) else Get(us, k)
      invariant usage' - usage == Sum(merged, AnchorUsage(params)) - Sum(us, AnchorUsage(params))
      decreases |todo|
    {
      var k :| k in todo;
      merged, usage' := MergeAnchorEntry(params, merged, k, todo[k], usage');
      todo := todo - {k};
    }
  }

  method MergeAnchorEntry(params: Params, us: map<Key, AnchorEntry>, k: Key, child: AnchorEntry, usage: int)
    returns (merged: map<Key, AnchorEntry>, usage': int)
    ensures Get(merged, k) == MergeAnchor(Get(us, k), child)
    ensures forall j :: j != k ==> Get(merged, j) == Get(us, j)
    ensures usage' - usage == Sum(merged, AnchorUsage(params)) - Sum(us, AnchorUsage(params))
  {
    hide Sum, AnchorUsage;
    merged, usage' := us, usage;
    if child.isDirty {
      if k !in us {
        UsageOfAnchor(params, us, k, child);
        merged, usage' := us[k := child], usage + params.treeUsage(child.tree);
      } else if us[k].entered != child.entered {
        // The parent may have removed the entry.
        var e := us[k].(entered := child.entered, isDirty := true);
        UsageOfAnchor(params, us, k, e);
        merged := us[k := e];
      }
    }
  }

  /** Merges a child's nullifiers into a parent cache. */
  method MergeNullifiersInto(us: map<Key, NullifierEntry>, mapNullifiers: map<Key, NullifierEntry>)
    returns (merged: map<Key, NullifierEntry>)
    ensures NullifiersMerged(us, mapNullifiers, merged)
  {
    merged := us;
    var todo := mapNullifiers;
    while todo != map[]
      invariant forall k :: k in todo ==> k in mapNullifiers && todo[k] == mapNullifiers[k]
      invariant forall k :: Get(merged, k) ==
                  if k in mapNullifiers && k !in todo then MergeNullifier(Get(us, k), mapNullifiers[k]) else Get(us, k)
      decreases |todo|
    {
      var k :| k in todo;
      if todo[k].isDirty {
        if k !in merged {
          merged := merged[k := NullifierEntry(todo[k].entered, true)];
        } else if merged[k].entered != todo[k].entered {
          merged := merged[k := NullifierEntry(todo[k].entered, true)];
        }
      }
      todo := todo - {k};
    }
  }

  /** Merges a child that showed `child` over a cache that showed `mid` over `below`. */
  method MergeInto(params: Params, coins: map<Hash, CoinsEntry>, anchors: map<Key, AnchorEntry>,
                   nullifiers: map<Key, NullifierEntry>, usage: int,
                   mapCoins: map<Hash, CoinsEntry>, mapAnchors: map<Key, AnchorEntry>,
                     mapNullifiers: map<Key, NullifierEntry>,
                   ghost below: View, ghost mid: View, ghost child: View)
    returns (coins': map<Hash, CoinsEntry>, anchors': map<Key, AnchorEntry>, nullifiers': map<Key, NullifierEntry>,
             usage': int)
    requires CoinsTied(coins, below.coins, mid.coins, None) && CoinsTied(mapCoins, mid.coins, child.coins, None)
    requires AnchorsTied(params, anchors, below.anchor, mid.anchor) &&
             AnchorsTied(params, mapAnchors, mid.anchor, child.anchor)
    requires NullifiersTied(nullifiers, below.nullifier, mid.nullifier)
    requires NullifiersTied(mapNullifiers, mid.nullifier, child.nullifier)
    requires UsageTied(params, coins, anchors, None, usage)
    ensures CoinsTied(coins', below.coins, child.coins, None)
    ensures AnchorsTied(params, anchors', below.anchor, child.anchor)
    ensures NullifiersTied(nullifiers', below.nullifier, child.nullifier)
    ensures UsageTied(params, coins', anchors', None, usage')
  {
    hide CoinsTied, AnchorsTied, NullifiersTied, Sum, CoinsMerged, AnchorsMerged, NullifiersMerged;
    var usageOfCoins;
    coins', usageOfCoins := MergeCoinsInto(coins, mapCoins, usage);
    anchors', usage' := MergeAnchorsInto(params, anchors, mapAnchors, usageOfCoins);
    nullifiers' := MergeNullifiersInto(nullifiers, mapNullifiers);
    MergeAllCoins(coins, mapCoins, coins', below.coins, mid.coins, child.coins);
    MergeAllAnchors(params, anchors, mapAnchors, anchors', below.anchor, mid.anchor, child.anchor);
    MergeAllNullifiers(nullifiers, mapNullifiers, nullifiers', below.nullifier, mid.nullifier, child.nullifier);
  }

  // ----------------------------------------------------------------- caches

  /** What a cache sits on. */
  datatype Backend = OnDB(db: CoinsDB) | OnCache(cache: CoinsViewCache)

  class CoinsViewCache {
    const base: Backend
    const params: Params
    ghost const Repr: set<object>

    var hashBlock: Hash
    var hashAnchor: Best
    var cacheCoins: map<Hash, CoinsEntry>
    var cacheAnchors: map<Key, AnchorEntry>
    var cacheNullifiers: map<Key, NullifierEntry>
    var cachedCoinsUsage: int
    var hasModifier: bool

    ghost var open: Option<Modifier>
    ghost var view: View

    /** The objects of a stack are distinct; none of this ever changes. */
    ghost predicate Stacked()
      decreases Repr
    {
      && this in Repr
      && match base
         case OnDB(db) => Repr == {this, db} && params == db.params
         case OnCache(c) =>
           && c.Repr < Repr && c in c.Repr && Repr == {this} + c.Repr && this !in c.Repr
           && c.Stacked() && params == c.params
    }

    ghost function Parent(): object
      ensures Stacked() ==> Parent() in Repr && Parent() != this
    {
      match base
      case OnDB(db) => db
      case OnCache(c) => c
    }

    /** What the parent shows. */
    ghost function Below(): View
      reads Parent()
    {
      match base
      case OnDB(db) => db.view
      case OnCache(c) => c.view
    }

    /** The layers below, from the parent down to the database. */
    ghost function Lower(): (r: seq<Layer>)
      requires Stacked()
      reads Repr - {this}
      ensures r != [] && r[0].view == Below() && (base.OnDB? <==> |r| == 1)
      decreases Repr
    {
      match base
      case OnDB(db) => [Layer(db.view, db.bestBlock, db.best)]
      case OnCache(c) => [c.Top()] + c.Lower()
    }

    ghost function Top(): Layer
      reads this
    {
      Layer(view, hashBlock, hashAnchor)
    }

    /** All layers of the stack, the top first. */
    ghost function Layers(): (r: seq<Layer>)
      requires Stacked()
      reads Repr
      ensures |r| >= 2 && r[0] == Top() && r[1..] == Lower() && r[1].view == Below() && (base.OnDB? <==> |r| == 2)
    {
      [Top()] + Lower()
    }

    ghost function OpenKey(): Option<Hash>
      reads this
    {
      if open.Some? then Some(open.value.txid) else None
    }

    ghost predicate Valid()
      reads this, Repr
      ensures Valid() ==> Stacked() && this in Repr && Parent() in Repr && hasModifier == open.Some?
      decreases Repr
    {
      && Stacked()
      && ParentValid()
      && Tied()
    }

    ghost predicate ParentValid()
      requires Stacked()
      reads Repr - {this}
      decreases Repr, 0
    {
      match base
      case OnDB(db) => db.Valid()
      case OnCache(c) => c.Valid() && c.open == None
    }

    /** The entries account for what is shown, and the flags tell the truth. */
    ghost predicate Tied()
      reads this, Parent()
    {
      && CoinsTied(cacheCoins, Below().coins, view.coins, OpenKey())
      && AnchorsTied(params, cacheAnchors, Below().anchor, view.anchor)
      && NullifiersTied(cacheNullifiers, Below().nullifier, view.nullifier)
      && view.bestBlock == Loaded(hashBlock, Below().bestBlock)
      && view.best == LoadedBest(hashAnchor, Below().best)
      && UsageTied(params, cacheCoins, cacheAnchors, open, cachedCoinsUsage)
      && hasModifier == open.Some?
    }

    lemma ValidIsTied()
      requires Valid()
      ensures Tied() && ParentValid()
    {
    }

    /** A hash that is shown as null is null all the way down. */
    lemma NullBelow()
      requires Valid()
      ensures view.bestBlock == NULL_HASH ==> Unloaded().bestBlock == NULL_HASH
      ensures forall ty :: view.best.At(ty) == NULL_HASH ==> Unloaded().best.At(ty) == NULL_HASH
    {
      hide CoinsTied, AnchorsTied, NullifiersTied, UsageTied, CoinsStored, AnchorsStored;
      match base
      case OnDB(db) => assert db.Valid();
      case OnCache(c) => c.ValidIsTied();
    }

    constructor OverDB(db: CoinsDB)
      requires db.Valid()
      ensures Valid() && base == OnDB(db) && open == None && fresh(this) && hashBlock == NULL_HASH &&
              hashAnchor == NoBest
      ensures view == db.view
    {
      base, params, Repr := OnDB(db), db.params, {this, db};
      hashBlock, hashAnchor := NULL_HASH, NoBest;
      cacheCoins, cacheAnchors, cacheNullifiers := map[], map[], map[];
      cachedCoinsUsage, hasModifier, open, view := 0, false, None, db.view;
    }

    constructor OverCache(c: CoinsViewCache)
      requires c.Valid() && c.open == None
      ensures Valid() && base == OnCache(c) && open == None && fresh(this) && hashBlock == NULL_HASH &&
              hashAnchor == NoBest
      ensures view == c.view
    {
      base, params, Repr := OnCache(c), c.params, {this} + c.Repr;
      hashBlock, hashAnchor := NULL_HASH, NoBest;
      cacheCoins, cacheAnchors, cacheNullifiers := map[], map[], map[];
      cachedCoinsUsage, hasModifier, open, view := 0, false, None, c.view;
    }

    // ---------------------------------------------------------------- coins

    /** Makes sure an entry is cached if the parent has one; nothing shown changes. */
    method FetchCoins(t: Hash) returns (found: bool)
      requires Valid()
      modifies Repr
      ensures Valid() && view == old(view) && open == old(open)
      ensures Layers() == old(Layers())
      ensures found <==> t in cacheCoins
      ensures !found ==> view.coins(t) == None
      decreases Repr, 1
    {
      hide CoinsTied, AnchorsTied, NullifiersTied, OpenUsage, Sum;
      CoinsAt(cacheCoins, Below().coins, view.coins, OpenKey(), t);
      if t in cacheCoins {
        return true;
      }
      var got, tmp := GetBaseCoins(t);
      if !got {
        return false;
      }
      var e := CoinsEntry(tmp, false, tmp.IsPruned());
      FillCoins(cacheCoins, Below().coins, view.coins, OpenKey(), t, tmp);
      UsageOfNewCoins(cacheCoins, open, t, e);
      cacheCoins := cacheCoins[t := e];
      cachedCoinsUsage := cachedCoinsUsage + e.coins.Usage();
      return true;
    }

    method GetBaseCoins(t: Hash) returns (found: bool, coins: Coins)
      requires Valid()
      modifies Repr - {this}
      ensures Valid() && Below() == old(Below())
      ensures Lower() == old(Lower())
      ensures found ==> Live(Some(coins)) == Live(Below().coins(t)) && coins.IsClean()
      ensures !found ==> Below().coins(t) == None
      decreases Repr, 0
    {
      hide CoinsTied, AnchorsTied, NullifiersTied, UsageTied;
      match base
      case OnDB(db) =>
        found := t in db.coins;
        coins := if found then db.coins[t] else EmptyCoins;
        assert db.view.coins(t) == Get(db.coins, t);
      case OnCache(c) =>
        found, coins := c.GetCoins(t);
    }

    /** Returns what is shown, filling the caches on the way. */
    method GetCoins(t: Hash) returns (found: bool, coins: Coins)
      requires Valid()
      modifies Repr
      ensures Valid() && view == old(view) && open == old(open)
      ensures Layers() == old(Layers())
      ensures found ==> Live(Some(coins)) == view.coins(t) && (OpenKey() != Some(t) ==> coins.IsClean())
      ensures !found ==> view.coins(t) == None
      decreases Repr, 2
    {
      hide CoinsTied, AnchorsTied, NullifiersTied, UsageTied;
      found := FetchCoins(t);
      coins := if found then cacheCoins[t].coins else EmptyCoins;
      CoinsAt(cacheCoins, Below().coins, view.coins, OpenKey(), t);
    }

    /** Testing for an empty output list is the same as testing for unspent outputs. */
    method HaveCoins(t: Hash) returns (have: bool)
      requires Valid()
      modifies Repr
      ensures Valid() && view == old(view) && open == old(open)
      ensures Layers() == old(Layers())
      ensures OpenKey() != Some(t) ==> (have <==> view.coins(t).Some?)
    {
      hide CoinsTied, AnchorsTied, NullifiersTied, UsageTied;
      var found := FetchCoins(t);
      have := found && cacheCoins[t].coins.vout != [];
      CoinsAt(cacheCoins, Below().coins, view.coins, OpenKey(), t);
    }

    /** Opens the entry of a transaction for modification, creating it if need be. */
    method ModifyCoins(t: Hash) returns (m: Modifier)
      requires Valid() && !hasModifier
      modifies Repr
      ensures Valid() && view == old(view)
      ensures Layers() == old(Layers())
      ensures open == Some(m) && m.txid == t
    {
      hide CoinsTied, AnchorsTied, NullifiersTied, OpenUsage, Sum;
      CoinsAt(cacheCoins, Below().coins, view.coins, OpenKey(), t);
      var e: CoinsEntry;
      var usage := 0;
      if t in cacheCoins {
        e := cacheCoins[t];
        usage := e.coins.Usage();
      } else {
        var got, tmp := GetBaseCoins(t);
        if !got {
          e := CoinsEntry(EmptyCoins, false, true);
        } else {
          e := CoinsEntry(tmp, false, tmp.IsPruned());
        }
      }
      e := e.(isDirty := true);
      m := Modifier(t, usage);
      OpenCoins(cacheCoins, Below().coins, view.coins, t, e);
      UsageOfOpening(cacheCoins, t, e, usage);
      cacheCoins := cacheCoins[t := e];
      hasModifier, open := true, Some(m);
    }

    /** Writes through an open modifier. */
    method Write(m: Modifier, c: Coins)
      requires Valid() && open == Some(m)
      modifies this
      ensures Valid() && open == old(open)
      ensures hashBlock == old(hashBlock) && hashAnchor == old(hashAnchor)
      ensures view == old(view).WithCoins(m.txid, Live(Some(c)))
    {
      hide ParentValid, CoinsTied, AnchorsTied, NullifiersTied;
      CoinsAt(cacheCoins, Below().coins, view.coins, OpenKey(), m.txid);
      WriteOpenCoins(cacheCoins, Below().coins, view.coins, m.txid, c);
      var changed := cacheCoins[m.txid := cacheCoins[m.txid].(coins := c)];
      assert changed - {m.txid} == cacheCoins - {m.txid};
      cacheCoins := changed;
      view := view.WithCoins(m.txid, Live(Some(c)));
    }

    /** Ends a modification: trailing spent outputs go, and a fresh entry with none left goes too. */
    method Close(m: Modifier)
      requires Valid() && open == Some(m)
      modifies this
      ensures Valid() && open == None
      ensures hashBlock == old(hashBlock) && hashAnchor == old(hashAnchor)
      ensures view == old(view).WithCoins(m.txid, Tidy(old(view).coins(m.txid)))
    {
      hide ParentValid, CoinsTied, AnchorsTied, NullifiersTied, OpenUsage, Sum, Coins.IsPruned, Coins.Cleanup,
        Coins.Usage;
      var t := m.txid;
      CoinsAt(cacheCoins, Below().coins, view.coins, OpenKey(), t);
      CloseCoins(cacheCoins, Below().coins, view.coins, t);
      UsageOfClosing(cacheCoins, m);
      var e := cacheCoins[t].(coins := cacheCoins[t].coins.Cleanup());
      var usage := cachedCoinsUsage - m.usage;
      var kept := cacheCoins - {t};
      if !(e.isFresh && e.coins.IsPruned()) {
        kept := cacheCoins[t := e];
        usage := usage + e.coins.Usage();
      }
      hasModifier, cacheCoins, cachedCoinsUsage := false, kept, usage;
      open, view := None, view.WithCoins(t, Tidy(view.coins(t)));
    }

    /**
     * Opens the entry of a transaction that is taken not to exist, without
     * asking the parent.  The flags stay true exactly when the parent shows no
     * unspent output of it.
     */
    method ModifyNewCoins(t: Hash) returns (m: Modifier)
      requires Valid() && !hasModifier && view.coins(t) == None
      modifies this
      ensures Valid() <==> Live(Below().coins(t)) == None
      ensures open == Some(m) && m.txid == t && view == old(view)
      ensures hashBlock == old(hashBlock) && hashAnchor == old(hashAnchor)
    {
      hide ParentValid, CoinsTied, AnchorsTied, NullifiersTied, OpenUsage, Sum;
      CoinsAt(cacheCoins, Below().coins, view.coins, OpenKey(), t);
      if t in cacheCoins {
        CleanPrunedIsEmpty(cacheCoins[t].coins);
      }
      var e := CoinsEntry(EmptyCoins, true, true);
      NewCoins(cacheCoins, Below().coins, view.coins, t);
      UsageOfOpening(cacheCoins, t, e, 0);
      m := Modifier(t, 0);
      cacheCoins := cacheCoins[t := e];
      hasModifier, open := true, Some(m);
    }

    /** Forgets an unmodified entry; nothing shown changes. */
    method Uncache(t: Hash)
      requires Valid()
      modifies this
      ensures Valid() && view == old(view) && open == old(open)
      ensures hashBlock == old(hashBlock) && hashAnchor == old(hashAnchor)
      ensures cacheCoins == if t in old(cacheCoins) && !old(cacheCoins)[t].isDirty && !old(cacheCoins)[t].isFresh
                            then old(cacheCoins) - {t} else old(cacheCoins)
    {
      hide ParentValid, CoinsTied, AnchorsTied, NullifiersTied, OpenUsage, Sum;
      CoinsAt(cacheCoins, Below().coins, view.coins, OpenKey(), t);
      if t in cacheCoins && !cacheCoins[t].isDirty && !cacheCoins[t].isFresh {
        DropCoins(cacheCoins, Below().coins, view.coins, OpenKey(), t);
        UsageOfNewCoins(cacheCoins - {t}, open, t, cacheCoins[t]);
        assert (cacheCoins - {t})[t := cacheCoins[t]] == cacheCoins;
        cachedCoinsUsage := cachedCoinsUsage - cacheCoins[t].coins.Usage();
        cacheCoins := cacheCoins - {t};
      }
    }

    /** Whether every spent output is available in what is shown; a coinbase spends none. */
    method HaveInputs(isCoinBase: bool, prevouts: seq<(Hash, nat)>) returns (have: bool)
      requires Valid() && !hasModifier
      modifies Repr
      ensures Valid() && view == old(view) && !hasModifier
      ensures Layers() == old(Layers())
      ensures have <==> isCoinBase || forall i :: 0 <= i < |prevouts| ==>
                view.coins(prevouts[i].0).Some? && view.coins(prevouts[i].0).value.IsAvailable(prevouts[i].1)
    {
      hide CoinsTied, AnchorsTied, NullifiersTied, UsageTied;
      if isCoinBase {
        return true;
      }
      for i := 0 to |prevouts|
        invariant Valid() && view == old(view) && open == None && Layers() == old(Layers())
        invariant forall j :: 0 <= j < i ==>
                    view.coins(prevouts[j].0).Some? && view.coins(prevouts[j].0).value.IsAvailable(prevouts[j].1)
      {
        var found, coins := GetCoins(prevouts[i].0);
        if !found || !coins.IsAvailable(prevouts[i].1) {
          return false;
        }
      }
      return true;
    }

    // -------------------------------------------------- anchors and nullifiers

    /** Retrieves the tree at an anchor, filling the caches on the way. */
    method GetAnchorAt(k: Key) returns (found: bool, tree: Tree)
      requires Valid()
      modifies Repr
      ensures Valid() && view == old(view) && open == old(open)
      ensures Layers() == old(Layers())
      ensures found == view.anchor(k)
      ensures found ==> params.root(k.pool, tree) == k.hash && k in cacheAnchors && cacheAnchors[k].tree == tree
      ensures cacheCoins == old(cacheCoins) && hashAnchor == old(hashAnchor)
      decreases Repr, 1
    {
      hide CoinsTied, AnchorsTied, NullifiersTied, OpenUsage, Sum;
      AnchorAt(params, cacheAnchors, Below().anchor, view.anchor, k);
      if k in cacheAnchors {
        return cacheAnchors[k].entered, cacheAnchors[k].tree;
      }
      found, tree := GetBaseAnchor(k);
      if found {
        FillAnchor(params, cacheAnchors, Below().anchor, view.anchor, k, tree);
        UsageOfAnchor(params, cacheAnchors, k, AnchorEntry(true, tree, false));
        cacheAnchors := cacheAnchors[k := AnchorEntry(true, tree, false)];
        cachedCoinsUsage := cachedCoinsUsage + params.treeUsage(tree);
      }
    }

    method GetBaseAnchor(k: Key) returns (found: bool, tree: Tree)
      requires Valid()
      modifies Repr - {this}
      ensures Valid() && Below() == old(Below())
      ensures Lower() == old(Lower())
      ensures found == Below().anchor(k)
      ensures found ==> params.root(k.pool, tree) == k.hash
      decreases Repr, 0
    {
      hide CoinsTied, AnchorsTied, NullifiersTied, UsageTied;
      match base
      case OnDB(db) => found, tree := db.GetAnchorAt(k);
      case OnCache(c) => found, tree := c.GetAnchorAt(k);
    }

    /** Retrieves whether a nullifier is spent, filling the caches on the way. */
    method GetNullifier(k: Key) returns (spent: bool)
      requires Valid()
      modifies Repr
      ensures Valid() && view == old(view) && open == old(open)
      ensures Layers() == old(Layers())
      ensures spent == view.nullifier(k)
      decreases Repr
    {
      hide CoinsTied, AnchorsTied, NullifiersTied, UsageTied;
      NullifierAt(cacheNullifiers, Below().nullifier, view.nullifier, k);
      if k in cacheNullifiers {
        return cacheNullifiers[k].entered;
      }
      match base {
        case OnDB(db) => spent := k in db.nullifiers;
        case OnCache(c) => spent := c.GetNullifier(k);
      }
      FillNullifier(cacheNullifiers, Below().nullifier, view.nullifier, k);
      cacheNullifiers := cacheNullifiers[k := NullifierEntry(spent, false)];
    }

    /** Marks nullifiers as spent or unspent. */
    method SetNullifiers(ks: seq<Key>, spent: bool)
      requires Valid()
      modifies this
      ensures Valid() && open == old(open)
      ensures hashBlock == old(hashBlock) && hashAnchor == old(hashAnchor)
      ensures view == old(view).(nullifier := view.nullifier)
      ensures forall k :: view.nullifier(k) == if k in ks then spent else old(view.nullifier)(k)
    {
      hide ParentValid, CoinsTied, AnchorsTied, NullifiersTied, UsageTied;
      for i := 0 to |ks|
        invariant Valid() && open == old(open) && hashBlock == old(hashBlock) && hashAnchor == old(hashAnchor)
        invariant view == old(view).(nullifier := view.nullifier)
        invariant forall k :: view.nullifier(k) == if k in ks[..i] then spent else old(view.nullifier)(k)
      {
        SetNullifier(cacheNullifiers, Below().nullifier, view.nullifier, ks[i], spent);
        assert ks[..i + 1] == ks[..i] + [ks[i]];
        cacheNullifiers := cacheNullifiers[ks[i] := NullifierEntry(spent, true)];
        view := view.(nullifier := Put(view.nullifier, ks[i], spent));
      }
      assert ks[..|ks|] == ks;
    }

    // ------------------------------------------------------- best block, anchors

    method GetBestBlock() returns (h: Hash)
      requires Valid()
      modifies Repr
      ensures Valid() && view == old(view) && open == old(open)
      ensures Layers() == LoadBlock(old(Layers()))
      ensures h == hashBlock == view.bestBlock
      decreases Repr
    {
      hide CoinsTied, AnchorsTied, NullifiersTied, UsageTied;
      if hashBlock == NULL_HASH {
        var b: Hash;
        match base {
          case OnDB(db) => b := db.bestBlock;
          case OnCache(c) => b := c.GetBestBlock();
        }
        hashBlock := b;
      }
      return hashBlock;
    }

    method SetBestBlock(h: Hash)
      requires Valid()
      modifies this
      ensures Valid() && open == old(open) && hashBlock == h && hashAnchor == old(hashAnchor)
      ensures view == old(view).(bestBlock := Loaded(h, Below().bestBlock))
    {
      hide ParentValid, CoinsTied, AnchorsTied, NullifiersTied, UsageTied;
      hashBlock := h;
      view := view.(bestBlock := Loaded(h, Below().bestBlock));
    }

    method GetBestAnchor(ty: ShieldedType) returns (h: Hash)
      requires Valid()
      modifies Repr
      ensures Valid() && view == old(view) && open == old(open)
      ensures Layers() == LoadAnchor(old(Layers()), ty)
      ensures h == hashAnchor.At(ty) == view.best.At(ty)
      ensures hashAnchor == old(hashAnchor).With(ty, h) && hashBlock == old(hashBlock)
      ensures cacheCoins == old(cacheCoins) && cacheAnchors == old(cacheAnchors)
      decreases Repr
    {
      hide CoinsTied, AnchorsTied, NullifiersTied, UsageTied;
      if hashAnchor.At(ty) == NULL_HASH {
        var b: Hash;
        match base {
          case OnDB(db) => b := if db.best.At(ty) == NULL_HASH then db.params.EmptyRoot(ty) else db.best.At(ty);
          case OnCache(c) => b := c.GetBestAnchor(ty);
        }
        hashAnchor := hashAnchor.With(ty, b);
      }
      return hashAnchor.At(ty);
    }

    /** Makes a tree an anchor and the best one, unless it already is the best. */
    method PushAnchor(ty: ShieldedType, tree: Tree)
      requires Valid() && params.CollisionFree()
      modifies Repr
      ensures Valid() && open == old(open)
      ensures Lower() == LoadAnchor(old(Layers()), ty)[1..]
      ensures hashBlock == old(hashBlock) && hashAnchor == old(hashAnchor).With(ty, params.root(ty, tree))
      ensures var rt := params.root(ty, tree);
              if rt == old(view.best.At(ty)) then view == old(view)
              else view == old(view).(anchor := Put(old(view.anchor), Key(ty, rt), true),
                                      best := old(view.best).With(ty, Loaded(rt, Below().best.At(ty))))
    {
      hide CoinsTied, AnchorsTied, NullifiersTied, OpenUsage, Sum;
      var rt := params.root(ty, tree);
      var current := GetBestAnchor(ty);
      if current != rt {
        AnchorAt(params, cacheAnchors, Below().anchor, view.anchor, Key(ty, rt));
        EnterAnchor(Key(ty, rt), AnchorEntry(true, tree, true), rt);
      }
    }

    /** Overwrites an anchor entry and sets the best anchor of its pool. */
    method EnterAnchor(k: Key, e: AnchorEntry, h: Hash)
      requires Valid()
      requires e.isDirty && params.root(k.pool, e.tree) == k.hash
      requires k in cacheAnchors ==> cacheAnchors[k].tree == e.tree
      modifies this
      ensures Valid() && open == old(open)
      ensures hashBlock == old(hashBlock) && hashAnchor == old(hashAnchor).With(k.pool, h)
      ensures view == old(view).(anchor := Put(old(view.anchor), k, e.entered),
                                 best := old(view.best).With(k.pool, Loaded(h, Below().best.At(k.pool))))
    {
      hide ParentValid, CoinsTied, AnchorsTied, NullifiersTied, OpenUsage, Sum, Put, LoadedBest, Best.With;
      LoadedWith(hashAnchor, Below().best, k.pool, h);
      SetAnchor(params, cacheAnchors, Below().anchor, view.anchor, k, e);
      UsageOfAnchor(params, cacheAnchors, k, e);
      var usage := cachedCoinsUsage + if k in cacheAnchors then 0 else params.treeUsage(e.tree);
      cacheAnchors, cachedCoinsUsage, hashAnchor := cacheAnchors[k := e], usage, hashAnchor.With(k.pool, h);
      view := view.(anchor := Put(view.anchor, k, e.entered),
                    best := view.best.With(k.pool, Loaded(h, Below().best.At(k.pool))));
    }

    /** Removes the best anchor and makes another root the best, unless it already is. */
    method PopAnchor(newrt: Hash, ty: ShieldedType)
      requires Valid()
      requires newrt != view.best.At(ty) ==> view.anchor(Key(ty, view.best.At(ty)))
      modifies Repr
      ensures Valid() && open == old(open)
      ensures Lower() == LoadAnchor(old(Layers()), ty)[1..]
      ensures hashBlock == old(hashBlock) && hashAnchor == old(hashAnchor).With(ty, newrt)
      ensures if newrt == old(view.best.At(ty)) then view == old(view)
              else view == old(view).(anchor := Put(old(view.anchor), Key(ty, old(view.best.At(ty))), false),
                                      best := old(view.best).With(ty, Loaded(newrt, Below().best.At(ty))))
    {
      hide CoinsTied, AnchorsTied, NullifiersTied, OpenUsage, Sum;
      var current := GetBestAnchor(ty);
      if current != newrt {
        var k := Key(ty, current);
        var found, tree := GetAnchorAt(k);
        EnterAnchor(k, AnchorEntry(false, tree, true), newrt);
      }
    }

    // ------------------------------------------------------- writing a child up

    /**
     * Takes over the entries of a child that showed `child` over this cache.
     * Afterwards this cache shows the same coins, anchors and nullifiers; its
     * best block and anchors are the child's, even when those are not loaded.
     */
    method BatchWrite(mapCoins: map<Hash, CoinsEntry>, hashBlockIn: Hash, hashAnchorIn: Best,
                      mapAnchors: map<Key, AnchorEntry>, mapNullifiers: map<Key, NullifierEntry>, ghost child: View)
      requires Valid() && !hasModifier
      requires CoinsTied(mapCoins, view.coins, child.coins, None)
      requires AnchorsTied(params, mapAnchors, view.anchor, child.anchor)
      requires NullifiersTied(mapNullifiers, view.nullifier, child.nullifier)
      modifies this
      ensures Valid() && !hasModifier && hashBlock == hashBlockIn && hashAnchor == hashAnchorIn
      ensures view == View(child.coins, child.anchor, child.nullifier,
                           Loaded(hashBlockIn, Below().bestBlock), LoadedBest(hashAnchorIn, Below().best))
    {
      hide CoinsTied, AnchorsTied, NullifiersTied, UsageTied, ParentValid, Loaded, LoadedBest;
      ghost var below := Below();
      var coins', anchors', nullifiers', usage :=
        MergeInto(params, cacheCoins, cacheAnchors, cacheNullifiers, cachedCoinsUsage, mapCoins, mapAnchors,
                  mapNullifiers,
                  below, view, child);
      cacheCoins, cacheAnchors, cacheNullifiers, cachedCoinsUsage := coins', anchors', nullifiers', usage;
      hashAnchor, hashBlock := hashAnchorIn, hashBlockIn;
      view := View(child.coins, child.anchor, child.nullifier, Loaded(hashBlock, below.bestBlock),
                   LoadedBest(hashAnchor, below.best));
    }

    /** What the parent would show as best if nothing were loaded in it. */
    ghost function Unloaded(): View
      requires Stacked()
      reads Repr
    {
      match base
      case OnDB(db) => db.view
      case OnCache(c) => c.Below()
    }

    /**
     * Hashes written up as they are keep what is shown exactly when they are
     * loaded or the parent's show nothing new.
     */
    lemma HashesSurvive()
      requires Valid()
      ensures Loaded(hashBlock, Unloaded().bestBlock) == view.bestBlock <==>
                hashBlock != NULL_HASH || Unloaded().bestBlock == Below().bestBlock
      ensures forall ty :: LoadedBest(hashAnchor, Unloaded().best).At(ty) == view.best.At(ty) <==>
                hashAnchor.At(ty) != NULL_HASH || Unloaded().best.At(ty) == Below().best.At(ty)
    {
      hide CoinsTied, AnchorsTied, NullifiersTied, UsageTied, ParentValid;
      LoadedSurvives(hashBlock, Below().bestBlock, Unloaded().bestBlock);
      LoadedSurvives(hashAnchor.sprout, Below().best.sprout, Unloaded().best.sprout);
      LoadedSurvives(hashAnchor.sapling, Below().best.sapling, Unloaded().best.sapling);
    }

    /**
     * Pushes everything to the parent and starts over.  The parent then shows
     * exactly the coins and nullifiers this cache showed, and its anchors; a
     * database alone keeps showing the empty tree.  Hashes that are not loaded
     * here are forgotten by the parent as well.
     */
    method Flush()
      requires Valid() && !hasModifier
      modifies this, Parent()
      ensures Valid() && !hasModifier
      ensures view == Below() && Lower()[1..] == old(Lower()[1..])
      ensures Lower()[0].hashBlock == if base.OnCache? then hashBlock else Loaded(hashBlock, old(Lower()[0].hashBlock))
      ensures Lower()[0].hashAnchor ==
              if base.OnCache? then hashAnchor else LoadedBest(hashAnchor, old(Lower()[0].hashAnchor))
      ensures view.coins == old(view.coins) && view.nullifier == old(view.nullifier)
      ensures base.OnCache? ==> view.anchor == old(view.anchor)
      ensures forall k :: view.anchor(k) <==>
                old(view.anchor)(k) || (base.OnDB? && k.hash == params.EmptyRoot(k.pool))
      ensures view.bestBlock == Loaded(hashBlock, old(Unloaded().bestBlock)) && hashBlock == old(hashBlock)
      ensures view.best == LoadedBest(hashAnchor, old(Unloaded().best)) && hashAnchor == old(hashAnchor)
      ensures view.bestBlock == old(view.bestBlock) <==>
                hashBlock != NULL_HASH || old(Unloaded().bestBlock) == old(Below().bestBlock)
      ensures forall ty :: view.best.At(ty) == old(view.best.At(ty)) <==>
                hashAnchor.At(ty) != NULL_HASH || old(Unloaded().best.At(ty)) == old(Below().best.At(ty))
      ensures cacheCoins == map[] && cacheAnchors == map[] && cacheNullifiers == map[] && cachedCoinsUsage == 0
    {
      hide CoinsTied, AnchorsTied, NullifiersTied, UsageTied, ParentValid;
      HashesSurvive();
      WriteToParent();
      forall t ensures Live(Below().coins(t)) == Below().coins(t) {
        CoinsAt(old(cacheCoins), old(Below().coins), old(view.coins), None, t);
      }
      StartOver();
    }

    /** Forgets every entry, once the parent shows what they showed. */
    method StartOver()
      requires Stacked() && ParentValid() && !hasModifier && open == None
      requires forall t :: Live(Below().coins(t)) == Below().coins(t)
      requires Below().bestBlock == Loaded(hashBlock, Below().bestBlock) &&
               Below().best == LoadedBest(hashAnchor, Below().best)
      modifies this
      ensures Valid() && !hasModifier && view == Below() && hashBlock == old(hashBlock) && hashAnchor == old(hashAnchor)
      ensures cacheCoins == map[] && cacheAnchors == map[] && cacheNullifiers == map[] && cachedCoinsUsage == 0
    {
      hide CoinsTied, AnchorsTied, NullifiersTied, Sum, ParentValid;
      EmptyTies(params, Below());
      SumEmpty<Hash, CoinsEntry>(EntryUsage);
      SumEmpty<Key, AnchorEntry>(AnchorUsage(params));
      cacheCoins, cacheAnchors, cacheNullifiers, cachedCoinsUsage := map[], map[], map[], 0;
      view := Below();
    }

    method WriteToParent()
      requires Valid() && !hasModifier
      modifies Parent()
      ensures Stacked() && ParentValid() && Lower()[1..] == old(Lower()[1..])
      ensures Lower()[0].hashBlock == if base.OnCache? then hashBlock else Loaded(hashBlock, old(Lower()[0].hashBlock))
      ensures Lower()[0].hashAnchor ==
              if base.OnCache? then hashAnchor else LoadedBest(hashAnchor, old(Lower()[0].hashAnchor))
      ensures Below().coins == view.coins && Below().nullifier == view.nullifier
      ensures base.OnCache? ==> Below().anchor == view.anchor
      ensures forall k :: Below().anchor(k) <==> view.anchor(k) || (base.OnDB? && k.hash == params.EmptyRoot(k.pool))
      ensures Below().bestBlock == Loaded(hashBlock, old(Unloaded().bestBlock))
      ensures Below().best == LoadedBest(hashAnchor, old(Unloaded().best))
    {
      hide CoinsTied, AnchorsTied, NullifiersTied, UsageTied;
      match base
      case OnDB(db) =>
        db.BatchWrite(cacheCoins, hashBlock, hashAnchor, cacheAnchors, cacheNullifiers, view);
      case OnCache(c) =>
        c.BatchWrite(cacheCoins, hashBlock, hashAnchor, cacheAnchors, cacheNullifiers, view);
    }
  }
}
