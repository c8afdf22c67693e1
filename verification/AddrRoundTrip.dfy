/**
 * The second half of loading: giving the entries their new slots back, and the
 * round trip through the file as a whole.
 */
module AddrRoundTrip {
  import opened Common
  import opened AddrTables
  import opened AddrInv
  import opened AddrRun
  import opened AddrFile
  import opened AddrLoad

  /** Slots come back bucket by bucket, position by position. */
  predicate Done(s: Slot, b: nat, p: nat) {
    s.bucket < b || (s.bucket == b && s.pos < p)
  }

  /** Exactly the slots done so far hold the renumbered entries they held before. */
  ghost predicate SlotsPlaced(vvNew: map<Slot, int>, ids: seq<int>, n0: nat, placed: map<Slot, int>, b: nat, p: nat) {
    && n0 <= |ids|
    && (forall s :: s in placed <==> s in vvNew && Done(s, b, p))
    && (forall s :: s in placed ==> 0 <= placed[s] < n0 && ids[placed[s]] == vvNew[s])
  }

  /** Entries are as read, with references counting the slots placed so far. */
  ghost predicate InfosPlaced(m: map<int, Info>, ids: seq<int>, n0: nat, infos: map<int, Info>, placed: map<Slot, int>)
    requires Enumerates(m, ids, n0)
  {
    && (forall i :: i in infos <==> 0 <= i < |ids|)
    && (forall i :: 0 <= i < |ids| ==> infos[i] == Reread(m[ids[i]], i).(nRefCount := |SlotsOf(placed, i)|))
  }

  lemma PlaceSlot(vvNew: map<Slot, int>, ids: seq<int>, n0: nat, placed: map<Slot, int>, b: nat, p: nat, i: nat)
    requires SlotsPlaced(vvNew, ids, n0, placed, b, p) && Slot(b, p) in vvNew && i < n0 && ids[i] == vvNew[Slot(b, p)]
    ensures Slot(b, p) !in placed && SlotsPlaced(vvNew, ids, n0, placed[Slot(b, p) := i], b, p + 1)
  {
    forall s: Slot ensures Done(s, b, p + 1) <==> Done(s, b, p) || s == Slot(b, p) {
    }
  }

  lemma SkipSlot(vvNew: map<Slot, int>, ids: seq<int>, n0: nat, placed: map<Slot, int>, b: nat, p: nat)
    requires SlotsPlaced(vvNew, ids, n0, placed, b, p) && Slot(b, p) !in vvNew
    ensures SlotsPlaced(vvNew, ids, n0, placed, b, p + 1)
  {
    forall s: Slot ensures Done(s, b, p + 1) <==> Done(s, b, p) || s == Slot(b, p) {
    }
  }

  lemma NextBucket(vvNew: map<Slot, int>, ids: seq<int>, n0: nat, placed: map<Slot, int>, b: nat)
    requires SlotsPlaced(vvNew, ids, n0, placed, b, BUCKET_SIZE) && forall s :: s in vvNew ==> s.pos < BUCKET_SIZE
    ensures SlotsPlaced(vvNew, ids, n0, placed, b + 1, 0)
  {
    forall s | s in vvNew ensures Done(s, b, BUCKET_SIZE) <==> Done(s, b + 1, 0) {
    }
  }

  /** One more reference for one entry. */
  lemma PlaceInfo(m: map<int, Info>, ids: seq<int>, n0: nat, infos: map<int, Info>, placed: map<Slot, int>, s: Slot,
                  i: nat)
    requires Enumerates(m, ids, n0) && InfosPlaced(m, ids, n0, infos, placed) && s !in placed && i < |ids|
    ensures InfosPlaced(m, ids, n0, infos[i := infos[i].(nRefCount := infos[i].nRefCount + 1)], placed[s := i])
  {
    SlotsWith(placed, s, i);
    forall j: int | 0 <= j < |ids| && j != i ensures SlotsOf(placed[s := i], j) == SlotsOf(placed, j) {
    }
  }

  /** An entry never has more references than it had when it was saved. */
  lemma {:induction false} FewerSlots(vvNew: map<Slot, int>, ids: seq<int>, n0: nat, placed: map<Slot, int>, b: nat,
                                      p: nat, i: nat)
    requires SlotsPlaced(vvNew, ids, n0, placed, b, p) && i < n0
    ensures SlotsOf(placed, i) <= SlotsOf(vvNew, ids[i])
    ensures Slot(b, p) in vvNew && vvNew[Slot(b, p)] == ids[i] ==> |SlotsOf(placed, i)| < |SlotsOf(vvNew, ids[i])|
  {
    var all := SlotsOf(vvNew, ids[i]);
    if Slot(b, p) in all {
      assert SlotsOf(placed, i) <= all - {Slot(b, p)};
      SmallerSet(SlotsOf(placed, i), all - {Slot(b, p)});
    }
  }

  lemma {:induction false} SmallerSet<T>(a: set<T>, b: set<T>)
    requires a <= b
    ensures |a| <= |b|
  {
    if a != {} {
      var x :| x in a;
      SmallerSet(a - {x}, b - {x});
    }
  }

  // -------------------------------------------------------- placing, slot by slot

  /** Everything is as read but for the slots placed so far. */
  ghost predicate Placing(t: Tables, ids: seq<int>, n0: nat, r: Tables, b: nat, p: nat)
    requires Enumerates(t.mapInfo, ids, n0)
  {
    && SlotsPlaced(t.vvNew, ids, n0, r.vvNew, b, p)
    && InfosPlaced(t.mapInfo, ids, n0, r.mapInfo, r.vvNew)
  }

  predicate SameButSlots(r: Tables, r': Tables) {
    r' == r.(mapInfo := r'.mapInfo, vvNew := r'.vvNew)
  }

  /** What the invariant says about an occupied slot. */
  lemma SlotAt(h: Hasher, t: Tables, s: Slot)
    requires Consistent(h, t) && s in t.vvNew
    ensures s.bucket < NEW_BUCKET_COUNT && s.pos < BUCKET_SIZE && t.nIdCount >= 0
    ensures var id := t.vvNew[s];
            && id in t.mapInfo && 0 <= id < t.nIdCount && s == h.NewSlotIn(t.mapInfo[id].Service(), s.bucket)
            && t.mapInfo[id].nRefCount == |SlotsOf(t.vvNew, id)| <= NEW_BUCKETS_PER_ADDRESS
            && t.mapInfo[id].nRefCount != 0
  {
    assert s in SlotsOf(t.vvNew, t.vvNew[s]);
  }

  /** A new entry is found again under the number it was written with. */
  lemma IndexFinds(h: Hasher, t: Tables, s: Slot)
    requires Consistent(h, t) && s in t.vvNew
    ensures t.vvNew[s] >= 0 && t.nIdCount >= 0
    ensures var i := Index(t.mapInfo, t.vvNew[s]); i < t.nNew && i < |Order(t)| && Order(t)[i] == t.vvNew[s]
  {
    hide Inv, NewList, TriedList;
    SlotAt(h, t, s);
    NewListHas(t.mapInfo, t.nIdCount, t.vvNew[s]);
    ListsAreCounted(h, t);
  }

  /** What has been placed of one entry. */
  lemma PlacedInfo(t: Tables, ids: seq<int>, n0: nat, r: Tables, b: nat, p: nat, i: nat)
    requires Enumerates(t.mapInfo, ids, n0) && Placing(t, ids, n0, r, b, p) && i < |ids|
    ensures i in r.mapInfo && ids[i] in t.mapInfo && r.mapInfo[i].Service() == t.mapInfo[ids[i]].Service()
    ensures r.mapInfo[i].nRefCount == |SlotsOf(r.vvNew, i)|
  {
  }

  lemma PlaceOne(h: Hasher, f: File, t: Tables, ids: seq<int>, r: Tables, b: nat, p: nat, i: nat)
    requires Consistent(h, t) && SlotsUsable(f) && f.nNew >= 0 && Enumerates(t.mapInfo, ids, f.nNew)
    requires Placing(t, ids, f.nNew, r, b, p) && Slot(b, p) in t.vvNew && i < f.nNew && i < |ids| &&
             ids[i] == t.vvNew[Slot(b, p)]
    ensures var r' := LoadSlot(h, f, r, b, i); Placing(t, ids, f.nNew, r', b, p + 1) && SameButSlots(r, r')
  {
    hide Inv, Enumerates, SlotsPlaced, InfosPlaced;
    SlotAt(h, t, Slot(b, p));
    PlacedInfo(t, ids, f.nNew, r, b, p, i);
    FewerSlots(t.vvNew, ids, f.nNew, r.vvNew, b, p, i);
    PlaceSlot(t.vvNew, ids, f.nNew, r.vvNew, b, p, i);
    PlaceInfo(t.mapInfo, ids, f.nNew, r.mapInfo, r.vvNew, Slot(b, p), i);
  }

  lemma BucketStep(h: Hasher, f: File, t: Tables, r: Tables, b: nat, p: nat)
    requires forall s :: s in t.vvNew ==> t.vvNew[s] >= 0
    ensures var v := BucketIndexes(t, b, p);
            LoadBucket(h, f, r, b, BucketIndexes(t, b, p + 1))
            == if Slot(b, p) in t.vvNew then LoadSlot(h, f, LoadBucket(h, f, r, b, v), b,
                                                      Index(t.mapInfo, t.vvNew[Slot(b, p)]))
               else LoadBucket(h, f, r, b, v)
  {
    hide LoadSlot, Index;
    var v := BucketIndexes(t, b, p);
    if Slot(b, p) in t.vvNew {
      var w := v + [Index(t.mapInfo, t.vvNew[Slot(b, p)])];
      assert w[..|w| - 1] == v;
    } else {
      assert v + [] == v;
    }
  }

  /** The file holds this bucket. */
  lemma {:induction false} PlaceBucket(h: Hasher, f: File, t: Tables, r: Tables, b: nat, p: nat)
    requires Consistent(h, t) && SlotsUsable(f) && f.nNew == t.nNew >= 0 && t.nIdCount >= 0
    requires Enumerates(t.mapInfo, Order(t), f.nNew) && Placing(t, Order(t), f.nNew, r, b, 0)
    requires forall s :: s in t.vvNew ==> t.vvNew[s] >= 0
    ensures var r' := LoadBucket(h, f, r, b, BucketIndexes(t, b, p));
            Placing(t, Order(t), f.nNew, r', b, p) &&
            SameButSlots(r, r')
    decreases p
  {
    hide Inv, Enumerates, Order, Index, Placing, BucketIndexes, LoadBucket, LoadSlot;
    if p == 0 {
      NoIndexes(h, f, t, r, b);
    } else {
      PlaceBucket(h, f, t, r, b, p - 1);
      BucketStep(h, f, t, r, b, p - 1);
      var s, r' := Slot(b, p - 1), LoadBucket(h, f, r, b, BucketIndexes(t, b, p - 1));
      if s in t.vvNew {
        IndexFinds(h, t, s);
        PlaceOne(h, f, t, Order(t), r', b, p - 1, Index(t.mapInfo, t.vvNew[s]));
      } else {
        SkipOne(t, Order(t), f.nNew, r', b, p - 1);
      }
    }
  }

  lemma NoIndexes(h: Hasher, f: File, t: Tables, r: Tables, b: nat)
    requires forall s :: s in t.vvNew ==> t.vvNew[s] >= 0
    ensures LoadBucket(h, f, r, b, BucketIndexes(t, b, 0)) == r
  {
  }

  lemma SkipOne(t: Tables, ids: seq<int>, n0: nat, r: Tables, b: nat, p: nat)
    requires Enumerates(t.mapInfo, ids, n0) && Placing(t, ids, n0, r, b, p) && Slot(b, p) !in t.vvNew
    ensures Placing(t, ids, n0, r, b, p + 1)
  {
    SkipSlot(t.vvNew, ids, n0, r.vvNew, b, p);
  }

  // ------------------------------------------------------------------- all buckets

  lemma NothingPlaced(h: Hasher, t: Tables, ids: seq<int>, n0: nat, r: Tables)
    requires Enumerates(t.mapInfo, ids, n0) && Read(h, t, ids, n0, r, |ids|)
    ensures Placing(t, ids, n0, r, 0, 0)
  {
    forall i: int ensures SlotsOf(r.vvNew, i) == {} {
    }
  }

  lemma BucketDone(h: Hasher, t: Tables, ids: seq<int>, n0: nat, r: Tables, b: nat)
    requires Consistent(h, t) && Enumerates(t.mapInfo, ids, n0) && Placing(t, ids, n0, r, b, BUCKET_SIZE)
    ensures Placing(t, ids, n0, r, b + 1, 0)
  {
    hide Inv, InfosPlaced, SlotsPlaced, Enumerates;
    forall s | s in t.vvNew ensures s.pos < BUCKET_SIZE {
      SlotAt(h, t, s);
    }
    NextBucket(t.vvNew, ids, n0, r.vvNew, b);
  }

  lemma SlotsAreNatural(h: Hasher, t: Tables)
    requires Consistent(h, t)
    ensures t.nIdCount >= 0 && t.nNew >= 0 && t.nTried >= 0 && forall s :: s in t.vvNew ==> t.vvNew[s] >= 0
  {
    forall s | s in t.vvNew ensures t.vvNew[s] >= 0 {
      SlotAt(h, t, s);
    }
  }

  /** The file has the saved buckets. */
  ghost predicate HasBuckets(f: File, t: Tables)
    requires forall s :: s in t.vvNew ==> t.vvNew[s] >= 0
  {
    |f.buckets| == NEW_BUCKET_COUNT && forall b :: 0 <= b < |f.buckets| ==>
        f.buckets[b] == BucketIndexes(t, b, BUCKET_SIZE)
  }

  lemma {:induction false} PlaceBuckets(h: Hasher, f: File, t: Tables, b: nat)
    requires Consistent(h, t) && SlotsUsable(f) && f.nNew == t.nNew >= 0 && t.nIdCount >= 0
    requires Enumerates(t.mapInfo, Order(t), f.nNew) && Placing(t, Order(t), f.nNew, LoadTried(h, f, |f.trieds|), 0, 0)
    requires (forall s :: s in t.vvNew ==> t.vvNew[s] >= 0) && HasBuckets(f, t) && b <= |f.buckets|
    ensures var r := LoadBuckets(h, f, b);
            Placing(t, Order(t), f.nNew, r, b, 0) && SameButSlots(LoadTried(h, f, |f.trieds|), r)
  {
    hide Inv, Enumerates, Order, Placing, LoadTried, LoadBucket, BucketIndexes;
    if b > 0 {
      PlaceBuckets(h, f, t, b - 1);
      var r := LoadBuckets(h, f, b - 1);
      PlaceBucket(h, f, t, r, b - 1, BUCKET_SIZE);
      BucketDone(h, t, Order(t), f.nNew, LoadBucket(h, f, r, b - 1, f.buckets[b - 1]), b - 1);
    }
  }

  // --------------------------------------------------------------- the same tables

  /** `loaded` maps every key to the new number of what `saved` maps it to. */
  ghost predicate Renumbered<K(!new)>(saved: map<K, int>, ids: seq<int>, loaded: map<K, int>) {
    && (forall k :: k in loaded <==> k in saved)
    && (forall k :: k in loaded ==> 0 <= loaded[k] < |ids| && ids[loaded[k]] == saved[k])
  }

  /**
   * The tables are the same but for the numbering and random order of the
   * entries and for what an entry keeps in memory only.
   */
  ghost predicate SameTables(t: Tables, ids: seq<int>, r: Tables) {
    && t.nNew >= 0 && Enumerates(t.mapInfo, ids, t.nNew)
    && (forall i :: i in r.mapInfo <==> 0 <= i < |ids|)
    && (forall i :: 0 <= i < |ids| ==>
        r.mapInfo[i] == Reread(t.mapInfo[ids[i]], i).(nRefCount := t.mapInfo[ids[i]].nRefCount))
    && |r.vRandom| == |ids| && (forall i :: 0 <= i < |ids| ==> r.vRandom[i] == i)
    && Renumbered(t.mapAddr, ids, r.mapAddr) && Renumbered(t.vvNew, ids, r.vvNew)
    && Renumbered(t.vvTried, ids, r.vvTried)
    && r.nNew == t.nNew && r.nTried == t.nTried && r.nIdCount == |ids|
  }

  lemma SameSlots(vvNew: map<Slot, int>, ids: seq<int>, placed: map<Slot, int>, i: nat)
    requires Renumbered(vvNew, ids, placed) && i < |ids| && forall i, j :: 0 <= i < j < |ids| ==> ids[i] != ids[j]
    ensures SlotsOf(placed, i) == SlotsOf(vvNew, ids[i])
  {
    forall s: Slot ensures s in SlotsOf(placed, i) <==> s in SlotsOf(vvNew, ids[i]) {
    }
  }

  lemma AllSlotsPlaced(h: Hasher, t: Tables, ids: seq<int>, n0: nat, r: Tables)
    requires Consistent(h, t) && Enumerates(t.mapInfo, ids, n0) && Placing(t, ids, n0, r, NEW_BUCKET_COUNT, 0)
    ensures Renumbered(t.vvNew, ids, r.vvNew)
    ensures forall i :: 0 <= i < |ids| ==>
              i in r.mapInfo && r.mapInfo[i] == Reread(t.mapInfo[ids[i]], i).(nRefCount := t.mapInfo[ids[i]].nRefCount)
  {
    hide Inv, Reread, SlotsOf;
    forall s | s in t.vvNew ensures Done(s, NEW_BUCKET_COUNT, 0) {
      SlotAt(h, t, s);
    }
    forall i | 0 <= i < |ids| ensures |SlotsOf(r.vvNew, i)| == t.mapInfo[ids[i]].nRefCount {
      SameSlots(t.vvNew, ids, r.vvNew, i);
      Referenced(h, t, ids[i]);
    }
  }

  lemma Referenced(h: Hasher, t: Tables, id: int)
    requires Consistent(h, t) && id in t.mapInfo
    ensures t.mapInfo[id].nRefCount == |SlotsOf(t.vvNew, id)|
  {
  }

  lemma AddrsRenumbered(h: Hasher, t: Tables, ids: seq<int>, n0: nat, a: map<NetAddr, int>)
    requires Consistent(h, t) && Enumerates(t.mapInfo, ids, n0) && ReadAddrs(t.mapInfo, ids, n0, a, |ids|)
    ensures Renumbered(t.mapAddr, ids, a)
  {
    forall k: NetAddr ensures k in a <==> k in t.mapAddr {
      if k in t.mapAddr {
        var id: int := t.mapAddr[k];
        assert id in ids;
      }
    }
  }

  lemma TriedsRenumbered(h: Hasher, t: Tables, ids: seq<int>, n0: nat, v: map<Slot, int>)
    requires Consistent(h, t) && Enumerates(t.mapInfo, ids, n0) && ReadTrieds(h, t.mapInfo, ids, n0, v, |ids|)
    ensures Renumbered(t.vvTried, ids, v)
  {
    forall k: Slot ensures k in v <==> k in t.vvTried {
      if k in t.vvTried {
        var id: int := t.vvTried[k];
        assert id in ids;
      }
    }
  }

  // ---------------------------------------------- the same tables are consistent

  /** Entries that agree, under their new numbers, on what tables depend on. */
  ghost predicate SameEntries(m: map<int, Info>, ids: seq<int>, m': map<int, Info>) {
    && (forall i, j :: 0 <= i < j < |ids| ==> ids[i] != ids[j])
    && (forall i :: i in m' <==> 0 <= i < |ids|)
    && (forall i :: 0 <= i < |ids| ==> ids[i] in m && SamePlace(m[ids[i]], m'[i]))
    && (forall id :: id in m ==> id in ids)
  }

  lemma SameTablesSameEntries(t: Tables, ids: seq<int>, r: Tables)
    requires SameTables(t, ids, r)
    ensures SameEntries(t.mapInfo, ids, r.mapInfo) && r.nIdCount == |ids|
    ensures Renumbered(t.mapAddr, ids, r.mapAddr) && Renumbered(t.vvNew, ids, r.vvNew) &&
            Renumbered(t.vvTried, ids, r.vvTried)
  {
    hide Renumbered;
  }

  lemma SameAddrIndex(n: int, m: map<int, Info>, a: map<NetAddr, int>, ids: seq<int>, m': map<int, Info>,
                      a': map<NetAddr, int>)
    requires SameEntries(m, ids, m') && Renumbered(a, ids, a') && AddrIndex(n, m, a)
    ensures AddrIndex(|ids|, m', a')
  {
    forall i: int | i in m' ensures m'[i].Ip() in a' && a'[m'[i].Ip()] == i {
      var id: int := ids[i];
      assert SamePlace(m[id], m'[i]);
      assert m[id].Ip() in a;
    }
    forall k: NetAddr | k in a' ensures a'[k] in m' && m'[a'[k]].Ip() == k {
      var i: int := a'[k];
      assert SamePlace(m[ids[i]], m'[i]);
    }
  }

  lemma SameNewTable(h: Hasher, m: map<int, Info>, v: map<Slot, int>, ids: seq<int>, m': map<int, Info>,
                     v': map<Slot, int>)
    requires SameEntries(m, ids, m') && Renumbered(v, ids, v') && NewTable(h, m, v, {})
    ensures NewTable(h, m', v', {})
  {
    forall i: int | i in m' ensures m'[i].nRefCount == |SlotsOf(v', i)| {
      SameSlots(v, ids, v', i);
    }
    forall s | s in v' ensures s == h.NewSlotIn(m'[v'[s]].Service(), s.bucket) {
      var i: int := v'[s];
    }
  }

  lemma SameTriedTable(h: Hasher, m: map<int, Info>, v: map<Slot, int>, ids: seq<int>, m': map<int, Info>,
                       v': map<Slot, int>)
    requires SameEntries(m, ids, m') && Renumbered(v, ids, v') && TriedTable(h, m, v)
    ensures TriedTable(h, m', v')
  {
    forall s | s in v' ensures m'[v'[s]].fInTried && s == h.TriedSlot(m'[v'[s]].Service()) {
      var i: int := v'[s];
    }
    forall i: int | i in m' && m'[i].fInTried ensures Get(v', h.TriedSlot(m'[i].Service())) == Some(i) {
      var id: int := ids[i];
      assert SamePlace(m[id], m'[i]);
      assert h.TriedSlot(m[id].Service()) in v;
    }
  }

  lemma SameCounts(t: Tables, ids: seq<int>, r: Tables)
    requires SameTables(t, ids, r) && t.nTried >= 0 && |ids| == t.nNew + t.nTried
    ensures Counted(r.mapInfo, r.nTried, r.nNew, 0)
  {
    forall i: int ensures (i in NewIds(r.mapInfo) <==> 0 <= i < t.nNew) &&
      (i in TriedIds(r.mapInfo) <==> t.nNew <= i < |ids|) {
    }
    RangeCount(NewIds(r.mapInfo), 0, t.nNew);
    RangeCount(TriedIds(r.mapInfo), t.nNew, |ids|);
  }

  lemma {:induction false} RangeCount(s: set<int>, a: int, b: int)
    requires a <= b && forall i :: i in s <==> a <= i < b
    ensures |s| == b - a
    decreases b - a
  {
    if a == b {
      assert s == {};
    } else {
      RangeCount(s - {a}, a + 1, b);
    }
  }

  lemma SameIsConsistent(h: Hasher, t: Tables, ids: seq<int>, r: Tables)
    requires Consistent(h, t) && SameTables(t, ids, r) && t.nTried >= 0 && |ids| == t.nNew + t.nTried
    ensures Consistent(h, r)
  {
    hide SameTables, SameEntries, Renumbered, AddrIndex, RandomOrder, NewTable, TriedTable, Counted;
    SameTablesSameEntries(t, ids, r);
    SameAddrIndex(t.nIdCount, t.mapInfo, t.mapAddr, ids, r.mapInfo, r.mapAddr);
    SameNewTable(h, t.mapInfo, t.vvNew, ids, r.mapInfo, r.vvNew);
    SameTriedTable(h, t.mapInfo, t.vvTried, ids, r.mapInfo, r.vvTried);
    SameCounts(t, ids, r);
    AllEntriesHaveSlots(h, t, ids, r);
  }

  /** Nothing is pruned when every untried entry has a slot. */
  lemma {:induction false} PruneNothing(r: Tables, n: nat)
    requires RandomOrder(r.mapInfo, r.vRandom)
    requires forall i :: i in r.mapInfo && !r.mapInfo[i].fInTried ==> r.mapInfo[i].nRefCount != 0
    ensures Prune(r, n) == r
  {
    hide RandomOrder;
    if n > 0 {
      PruneNothing(r, n - 1);
    }
  }

  lemma AllEntriesHaveSlots(h: Hasher, t: Tables, ids: seq<int>, r: Tables)
    requires Consistent(h, t) && SameTables(t, ids, r)
    ensures RandomOrder(r.mapInfo, r.vRandom)
    ensures forall i :: i in r.mapInfo && !r.mapInfo[i].fInTried ==> r.mapInfo[i].nRefCount != 0
  {
    hide Inv;
    forall i | i in r.mapInfo && !r.mapInfo[i].fInTried ensures r.mapInfo[i].nRefCount != 0 {
      EntryAt(h, t, {}, 0, ids[i]);
    }
  }

  // ------------------------------------------------------------------ the counters

  /** A table has no more entries than slots. */
  lemma {:induction false} FewerEntriesThanSlots<T>(ids: set<T>, table: map<Slot, T>)
    requires forall id :: id in ids ==> exists s :: s in table && table[s] == id
    ensures |ids| <= |table.Keys|
  {
    if ids != {} {
      var id :| id in ids;
      var s: Slot :| s in table && table[s] == id;
      forall j | j in ids - {id} ensures exists s' :: s' in table - {s} && (table - {s})[s'] == j {
        var s' :| s' in table && table[s'] == j;
        assert s' in table - {s};
      }
      FewerEntriesThanSlots(ids - {id}, table - {s});
      assert (table - {s}).Keys == table.Keys - {s};
    }
  }

  /** There are `n` slots below the `n`-th. */
  lemma {:induction false} SlotsBelow(slots: set<Slot>, n: nat)
    requires forall s :: s in slots ==> s.pos < BUCKET_SIZE && s.bucket * BUCKET_SIZE + s.pos < n
    ensures |slots| <= n
  {
    if n == 0 {
      assert forall s :: s !in slots;
      assert slots == {};
    } else {
      var last := Slot((n - 1) / BUCKET_SIZE, (n - 1) % BUCKET_SIZE);
      forall s | s in slots && s.bucket * BUCKET_SIZE + s.pos == n - 1 ensures s == last {
      }
      SlotsBelow(slots - {last}, n - 1);
    }
  }

  /** The counters of consistent tables are within the limits a reader enforces. */
  lemma CountersFit(h: Hasher, t: Tables)
    requires Consistent(h, t)
    ensures 0 <= t.nNew <= NEW_BUCKET_COUNT * BUCKET_SIZE && 0 <= t.nTried <= TRIED_BUCKET_COUNT * BUCKET_SIZE
  {
    forall id | id in NewIds(t.mapInfo) ensures exists s :: s in t.vvNew && t.vvNew[s] == id {
      HasSlot(h, t, id);
    }
    FewerEntriesThanSlots(NewIds(t.mapInfo), t.vvNew);
    forall s | s in t.vvNew.Keys ensures s.pos < BUCKET_SIZE && s.bucket < NEW_BUCKET_COUNT {
      SlotAt(h, t, s);
    }
    SlotsBelow(t.vvNew.Keys, NEW_BUCKET_COUNT * BUCKET_SIZE);
    forall id | id in TriedIds(t.mapInfo) ensures exists s :: s in t.vvTried && t.vvTried[s] == id {
      assert h.TriedSlot(t.mapInfo[id].Service()) in t.vvTried;
    }
    FewerEntriesThanSlots(TriedIds(t.mapInfo), t.vvTried);
    SlotsBelow(t.vvTried.Keys, TRIED_BUCKET_COUNT * BUCKET_SIZE);
  }

  lemma HasSlot(h: Hasher, t: Tables, id: int)
    requires Consistent(h, t) && id in NewIds(t.mapInfo)
    ensures exists s :: s in t.vvNew && t.vvNew[s] == id
  {
    assert |SlotsOf(t.vvNew, id)| != 0;
    var s :| s in SlotsOf(t.vvNew, id);
  }

  // ---------------------------------------------------------------- the round trip

  lemma SavedFile(h: Hasher, key: nat, t: Tables)
    requires Consistent(h, t)
    ensures t.nIdCount >= 0 && t.nNew >= 0 && Enumerates(t.mapInfo, Order(t), t.nNew) && |Order(t)| == t.nNew + t.nTried
    ensures forall s :: s in t.vvNew ==> t.vvNew[s] >= 0
    ensures var f := Save(key, t);
            && SlotsUsable(f) && WellCounted(f) && NewCountIsRight(f) && HasBuckets(f, t)
            && Stores(f, t, Order(t), t.nNew)
            && f.key == key && f.nNew == t.nNew && f.nTried == t.nTried && |f.trieds| == t.nTried
  {
    hide Inv, NewList, TriedList, BucketIndexes, Enumerates;
    SlotsAreNatural(h, t);
    OrderEnumerates(h, t);
    ListsAreCounted(h, t);
    CountersFit(h, t);
  }

  lemma LoadedTables(h: Hasher, key: nat, t: Tables)
    requires Consistent(h, t)
    ensures (forall s :: s in t.vvNew ==> t.vvNew[s] >= 0) && t.nIdCount >= 0
    ensures var f := Save(key, t); SameTables(t, Order(t), LoadBuckets(h, f, |f.buckets|))
  {
    hide Inv, Enumerates, Order, Save, Stores, HasBuckets, LoadTried, LoadBuckets, Read, Placing, Renumbered;
    SavedFile(h, key, t);
    var f := Save(key, t);
    LoadTriedReads(h, f, t, Order(t), t.nTried);
    var r0 := LoadTried(h, f, t.nTried);
    NothingPlaced(h, t, Order(t), t.nNew, r0);
    BucketCount(f, t);
    PlaceBuckets(h, f, t, NEW_BUCKET_COUNT);
    AllIsThere(h, t, Order(t), r0, LoadBuckets(h, f, NEW_BUCKET_COUNT));
  }

  lemma BucketCount(f: File, t: Tables)
    requires (forall s :: s in t.vvNew ==> t.vvNew[s] >= 0) && HasBuckets(f, t)
    ensures |f.buckets| == NEW_BUCKET_COUNT
  {
  }

  lemma AllIsThere(h: Hasher, t: Tables, ids: seq<int>, r0: Tables, r: Tables)
    requires Consistent(h, t) && t.nNew >= 0 && Enumerates(t.mapInfo, ids, t.nNew) && |ids| == t.nNew + t.nTried
    requires Read(h, t, ids, t.nNew, r0, |ids|) && r0.nNew == t.nNew && r0.nTried == t.nTried && r0.nIdCount == |ids|
    requires Placing(t, ids, t.nNew, r, NEW_BUCKET_COUNT, 0) && SameButSlots(r0, r)
    ensures SameTables(t, ids, r)
  {
    hide Inv, Renumbered, ReadAddrs, ReadTrieds, SlotsPlaced, Reread;
    AddrsRenumbered(h, t, ids, t.nNew, r.mapAddr);
    TriedsRenumbered(h, t, ids, t.nNew, r.vvTried);
    AllSlotsPlaced(h, t, ids, t.nNew, r);
  }

  /** Writing consistent tables and reading them back gives the same tables. */
  lemma FileRoundTrip(h: Hasher, key: nat, t: Tables)
    requires Consistent(h, t)
    ensures (forall s :: s in t.vvNew ==> t.vvNew[s] >= 0) && t.nIdCount >= 0
    ensures Parse(Emit(Save(key, t))) == Ok(Save(key, t)) && Save(key, t).key == key && NewCountIsRight(Save(key, t))
    ensures var r := Load(h, Save(key, t)); SameTables(t, Order(t), r) && Consistent(h, r)
  {
    hide Inv, Enumerates, Order, Save, Stores, HasBuckets, LoadTried, LoadBuckets, Parse, Emit, SameTables, Prune;
    SavedFile(h, key, t);
    StreamRoundTrip(Save(key, t));
    LoadedTables(h, key, t);
    var f := Save(key, t);
    var r := LoadBuckets(h, f, |f.buckets|);
    AllEntriesHaveSlots(h, t, Order(t), r);
    PruneNothing(r, |f.news|);
    SameIsConsistent(h, t, Order(t), r);
  }

  /** What is kept of each entry: all but the last try and the last counted failure. */
  lemma NothingIsForgotten(h: Hasher, key: nat, t: Tables, i: nat)
    requires Consistent(h, t) && i < |Order(t)|
    ensures (forall s :: s in t.vvNew ==> t.vvNew[s] >= 0) && t.nIdCount >= 0 && NewCountIsRight(Save(key, t))
    ensures var id, r := Order(t)[i], Load(h, Save(key, t)).mapInfo;
            && id in t.mapInfo && i in r
            && r[i].addr == t.mapInfo[id].addr && r[i].source == t.mapInfo[id].source
            && r[i].nLastSuccess == t.mapInfo[id].nLastSuccess && r[i].nAttempts == t.mapInfo[id].nAttempts
            && r[i].nRefCount == t.mapInfo[id].nRefCount && r[i].fInTried == t.mapInfo[id].fInTried
            && r[i].nLastTry == 0 && r[i].nLastCountAttempt == 0
  {
    hide Inv, Save, Load, Order, Renumbered;
    FileRoundTrip(h, key, t);
  }

  lemma SameIsTimely(t: Tables, ids: seq<int>, r: Tables)
    requires SameTables(t, ids, r) && Timely(t.mapInfo)
    ensures Timely(r.mapInfo)
  {
    forall i: int | i in r.mapInfo
      ensures r.mapInfo[i].nLastTry >= 0 && r.mapInfo[i].nLastSuccess >= 0 &&
              (r.mapInfo[i].fInTried ==> r.mapInfo[i].nLastSuccess != 0)
    {
      assert 0 <= i < |ids|;
      var id: int := ids[i];
      assert id in t.mapInfo;
      assert r.mapInfo[i] == Reread(t.mapInfo[id], i).(nRefCount := t.mapInfo[id].nRefCount);
    }
  }

  /** A manager that was written and read back passes its check, and so it does after any run from there. */
  lemma ReloadedRunPassesCheck(h: Hasher, key: nat, t: Tables, ops: seq<Op>)
    requires Consistent(h, t) && Timely(t.mapInfo) && forall i :: 0 <= i < |ops| ==> PositiveTime(ops[i])
    ensures (forall s :: s in t.vvNew ==> t.vvNew[s] >= 0) && t.nIdCount >= 0 && NewCountIsRight(Save(key, t))
    ensures var r := Load(h, Save(key, t));
            && Consistent(h, r) && Timely(r.mapInfo) && (Check(h, r, key) <==> key != 0)
            && var st := ExecAll(h, State(r, 1), ops);
               Consistent(h, st.t) && Timely(st.t.mapInfo) && (Check(h, st.t, key) <==> key != 0)
  {
    hide Inv, Timely, Check, Save, Load, SameTables, Exec, PositiveTime;
    FileRoundTrip(h, key, t);
    var r := Load(h, Save(key, t));
    SameIsTimely(t, Order(t), r);
    ConsistentPassesCheck(h, r, key);
    EveryRunPassesCheck(h, State(r, 1), ops, key);
  }
}
