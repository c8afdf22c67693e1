/**
 * What reading guarantees whatever the file says: every entry sits where it
 * hashes to, references are counted, and nothing is kept that has no slot.
 */
module AddrAnyFile {
  import opened Common
  import opened AddrTables
  import opened AddrFile
  import opened AddrLoad
  import AddrParse

  /** The untried entries without a slot. */
  function Pending(m: map<int, Info>): set<int> {
    set id | id in m && !m[id].fInTried && m[id].nRefCount == 0
  }

  /** Both tables are sound, but for untried entries that have no slot yet. */
  ghost predicate Slotted(h: Hasher, t: Tables) {
    NewTable(h, t.mapInfo, t.vvNew, Pending(t.mapInfo)) && TriedTable(h, t.mapInfo, t.vvTried)
  }

  /** Tried entries are numbered after the new ones of the file. */
  ghost predicate TriedAreAfter(m: map<int, Info>, n: int) {
    forall id :: id in m && m[id].fInTried ==> id >= n
  }

  /** A new entry without slots fits into the new table. */
  lemma NewTableMore(h: Hasher, m: map<int, Info>, v: map<Slot, int>, id: int, e: Info)
    requires NewTable(h, m, v, Pending(m)) && id !in m && e.nRefCount == 0
    ensures NewTable(h, m[id := e], v, Pending(m[id := e]))
  {
    assert SlotsOf(v, id) == {};
    assert Pending(m[id := e]) == if e.fInTried then Pending(m) else Pending(m) + {id};
  }

  lemma TriedTableSame(h: Hasher, m: map<int, Info>, v: map<Slot, int>, id: int, e: Info)
    requires TriedTable(h, m, v) && id !in m && !e.fInTried
    ensures TriedTable(h, m[id := e], v)
  {
  }

  lemma TriedTableMore(h: Hasher, m: map<int, Info>, v: map<Slot, int>, id: int, e: Info)
    requires TriedTable(h, m, v) && id !in m && e.fInTried && h.TriedSlot(e.Service()) !in v
    ensures TriedTable(h, m[id := e], v[h.TriedSlot(e.Service()) := id])
  {
  }

  lemma AppendSlotted(h: Hasher, t: Tables, id: int, e: Info)
    requires Slotted(h, t) && id !in t.mapInfo && !e.fInTried && e.nRefCount == 0
    ensures Slotted(h, Append(t, id, e))
  {
    hide NewTable, TriedTable, Pending;
    NewTableMore(h, t.mapInfo, t.vvNew, id, e.(nRandomPos := |t.vRandom|));
    TriedTableSame(h, t.mapInfo, t.vvTried, id, e.(nRandomPos := |t.vRandom|));
  }

  lemma OccupySlotted(h: Hasher, t: Tables, s: Slot, id: int)
    requires Slotted(h, t) && id in t.mapInfo && !t.mapInfo[id].fInTried && s !in t.vvNew
    requires s.bucket < NEW_BUCKET_COUNT && s == h.NewSlotIn(t.mapInfo[id].Service(), s.bucket)
    requires t.mapInfo[id].nRefCount < NEW_BUCKETS_PER_ADDRESS
    ensures Slotted(h, Occupy(t, s, id))
  {
    hide NewTable;
    var m := t.mapInfo;
    OccupySlot(h, m, t.vvNew, Pending(m), s, id);
    Counted(h, t, id);
    assert Pending(Occupy(t, s, id).mapInfo) == Pending(m) - {id};
  }

  lemma Counted(h: Hasher, t: Tables, id: int)
    requires Slotted(h, t) && id in t.mapInfo
    ensures 0 <= t.mapInfo[id].nRefCount == |SlotsOf(t.vvNew, id)| <= 8
  {
  }

  lemma AppendTriedSlotted(h: Hasher, t: Tables, id: int, e: Info)
    requires Slotted(h, t) && id !in t.mapInfo && e.fInTried && e.nRefCount == 0
    requires h.TriedSlot(e.Service()) !in t.vvTried
    ensures Slotted(h, Append(t, id, e).(vvTried := t.vvTried[h.TriedSlot(e.Service()) := id], nIdCount := id + 1))
  {
    hide NewTable, TriedTable, Pending, Hasher.TriedSlot;
    NewTableMore(h, t.mapInfo, t.vvNew, id, e.(nRandomPos := |t.vRandom|));
    TriedTableMore(h, t.mapInfo, t.vvTried, id, e.(nRandomPos := |t.vRandom|));
  }

  // -------------------------------------------------------------------------- loading

  lemma FromDiskIsNew(d: Disk)
    ensures !FromDisk(d).fInTried && FromDisk(d).nRefCount == 0
  {
  }

  /** The entries so far are numbered below `n`, and none was tried. */
  ghost predicate NewOnly(t: Tables, n: nat) {
    t.vvTried == map[] && forall id :: id in t.mapInfo ==> 0 <= id < n && !t.mapInfo[id].fInTried
  }

  lemma {:induction false} NewSlotted(h: Hasher, f: File, n: nat)
    requires n <= |f.news|
    ensures var r := LoadNew(h, f, n); Slotted(h, r) && NewOnly(r, n)
  {
    hide Slotted, NewOnly, FromDisk, Occupy, Append, SlotsUsable, HomeSlot;
    if n == 0 {
      BlankSlotted(h, f);
    } else {
      NewSlotted(h, f, n - 1);
      FromDiskIsNew(f.news[n - 1]);
      NewStep(h, LoadNew(h, f, n - 1), FromDisk(f.news[n - 1]), n);
    }
  }

  lemma NewStep(h: Hasher, t: Tables, e: Info, n: nat)
    requires n > 0 && Slotted(h, t) && NewOnly(t, n - 1) && !e.fInTried && e.nRefCount == 0
    ensures var r, s := Append(t, n - 1, e), HomeSlot(h, e);
            && Slotted(h, r) && NewOnly(r, n)
            && (s !in r.vvNew ==> Slotted(h, Occupy(r, s, n - 1)) && NewOnly(Occupy(r, s, n - 1), n))
  {
    hide Slotted, Occupy, HomeSlot;
    var r, s := Append(t, n - 1, e), HomeSlot(h, e);
    AppendSlotted(h, t, n - 1, e);
    HomeIsOwn(h, e);
    Occupied(r, s, n - 1);
    if s !in r.vvNew {
      OccupySlotted(h, r, s, n - 1);
    }
  }

  lemma HomeIsOwn(h: Hasher, e: Info)
    ensures var s := HomeSlot(h, e); s.bucket < NEW_BUCKET_COUNT && s == h.NewSlotIn(e.Service(), s.bucket)
  {
  }

  lemma BlankSlotted(h: Hasher, f: File)
    ensures Slotted(h, Blank(f)) && NewOnly(Blank(f), 0)
  {
  }

  lemma Occupied(t: Tables, s: Slot, id: int)
    requires id in t.mapInfo
    ensures var r := Occupy(t, s, id);
            && (forall k :: k in r.mapInfo <==> k in t.mapInfo)
            && (forall k :: k in r.mapInfo ==> r.mapInfo[k].fInTried == t.mapInfo[k].fInTried)
            && r.vvTried == t.vvTried && r.nIdCount == t.nIdCount
  {
  }

  lemma SlottedIgnores(h: Hasher, t: Tables, next: int, nTried: int)
    ensures Slotted(h, t) <==> Slotted(h, t.(nIdCount := next))
    ensures Slotted(h, t) <==> Slotted(h, t.(nTried := nTried))
  {
  }

  lemma Unused(t: Tables)
    requires Ordered(t, t.nIdCount)
    ensures t.nIdCount !in t.mapInfo
  {
  }

  lemma NoneTried(t: Tables, k: nat, n: int)
    ensures NewOnly(t, k) ==> TriedAreAfter(t.mapInfo, n)
  {
  }

  lemma AppendTriedAfter(t: Tables, id: int, e: Info, n: int)
    requires TriedAreAfter(t.mapInfo, n) && id >= n
    ensures TriedAreAfter(Append(t, id, e).mapInfo, n)
  {
  }

  lemma {:induction false} TriedSlotted(h: Hasher, f: File, n: nat)
    requires n <= |f.trieds| && NewCountIsRight(f)
    ensures var r := LoadTried(h, f, n); Slotted(h, r) && TriedAreAfter(r.mapInfo, f.nNew) && r.nIdCount >= f.nNew
  {
    hide Slotted, NewOnly, FromDisk, LoadNew, Ordered, TriedAreAfter, Append, Hasher.TriedSlot;
    if n == 0 {
      NoneTried(LoadNew(h, f, |f.news|), |f.news|, f.nNew);
      NewSlotted(h, f, |f.news|);
      SlottedIgnores(h, LoadNew(h, f, |f.news|), f.nNew, 0);
    } else {
      TriedSlotted(h, f, n - 1);
      LoadTriedOrdered(h, f, n - 1);
      var t, e := LoadTried(h, f, n - 1), FromDisk(f.trieds[n - 1]).(fInTried := true);
      FromDiskIsNew(f.trieds[n - 1]);
      SlottedIgnores(h, t, t.nIdCount, t.nTried - 1);
      Unused(t);
      if h.TriedSlot(e.Service()) !in t.vvTried {
        AppendTriedSlotted(h, t, t.nIdCount, e);
        AppendTriedAfter(t, t.nIdCount, e, f.nNew);
      }
    }
  }

  lemma {:induction false} BucketSlotted(h: Hasher, f: File, t: Tables, bucket: nat, v: seq<int>)
    requires Slotted(h, t) && TriedAreAfter(t.mapInfo, f.nNew) && (SlotsUsable(f) ==> bucket < NEW_BUCKET_COUNT)
    ensures var r := LoadBucket(h, f, t, bucket, v); Slotted(h, r) && TriedAreAfter(r.mapInfo, f.nNew)
  {
    hide Slotted, Occupy;
    if v != [] {
      BucketSlotted(h, f, t, bucket, v[..|v| - 1]);
      var r, index := LoadBucket(h, f, t, bucket, v[..|v| - 1]), v[|v| - 1];
      if SlotsUsable(f) && 0 <= index < f.nNew && index in r.mapInfo {
        var s := h.NewSlotIn(r.mapInfo[index].Service(), bucket);
        Occupied(r, s, index);
        if s !in r.vvNew && r.mapInfo[index].nRefCount < NEW_BUCKETS_PER_ADDRESS {
          OccupySlotted(h, r, s, index);
        }
      }
    }
  }

  lemma {:induction false} BucketsSlotted(h: Hasher, f: File, n: nat)
    requires n <= |f.buckets| && NewCountIsRight(f) && |f.buckets| == Max(0, f.nUBuckets)
    ensures var r := LoadBuckets(h, f, n); Slotted(h, r) && TriedAreAfter(r.mapInfo, f.nNew)
  {
    hide Slotted, TriedAreAfter, LoadTried, LoadBucket;
    if n == 0 {
      TriedSlotted(h, f, |f.trieds|);
    } else {
      BucketsSlotted(h, f, n - 1);
      BucketSlotted(h, f, LoadBuckets(h, f, n - 1), n - 1, f.buckets[n - 1]);
    }
  }

  // -------------------------------------------------------------------------- pruning

  lemma OrderIsIgnored(h: Hasher, m: map<int, Info>, m': map<int, Info>, v: map<Slot, int>, w: map<Slot, int>)
    requires SamePlaces(m, m') && NewTable(h, m, v, Pending(m)) && TriedTable(h, m, w)
    ensures NewTable(h, m', v, Pending(m')) && TriedTable(h, m', w)
  {
    hide NewTable, TriedTable;
    forall id: int
      ensures id in Pending(m) <==> id in Pending(m')
    {
      assert id in m ==> SamePlace(m[id], m'[id]);
    }
    assert Pending(m) == Pending(m');
    SameNewTable(h, m, m', v, Pending(m));
    SameTriedTable(h, m, m', w);
  }

  lemma SameButOrder(a: Info, b: Info)
    requires a.(nRandomPos := 0) == b.(nRandomPos := 0)
    ensures SamePlace(a, b)
  {
  }

  lemma DeleteSlotted(h: Hasher, t: Tables, id: int)
    requires Slotted(h, t) && RandomOrder(t.mapInfo, t.vRandom) && id in t.mapInfo
    requires !t.mapInfo[id].fInTried && t.mapInfo[id].nRefCount == 0
    ensures Slotted(h, Delete(t, id))
  {
    hide NewTable, TriedTable, RandomOrder, Delete;
    var m, r := t.mapInfo, Delete(t, id);
    DeletedInfos(t, id);
    DeletedTables(t, id);
    DropPendingNew(h, m, t.vvNew, Pending(m), id);
    DropUntried(h, m, t.vvTried, id);
    assert Pending(m - {id}) == Pending(m) - {id};
    forall k | k in m - {id} && k in r.mapInfo
      ensures SamePlace((m - {id})[k], r.mapInfo[k])
    {
      SameButOrder(m[k], r.mapInfo[k]);
    }
    OrderIsIgnored(h, m - {id}, r.mapInfo, t.vvNew, t.vvTried);
  }

  lemma DeletedTables(t: Tables, id: int)
    requires id in t.mapInfo && RandomOrder(t.mapInfo, t.vRandom)
    ensures Delete(t, id).vvNew == t.vvNew && Delete(t, id).vvTried == t.vvTried
  {
  }

  lemma {:induction false} PruneSlotted(h: Hasher, t: Tables, n: nat)
    requires Slotted(h, t) && RandomOrder(t.mapInfo, t.vRandom)
    ensures Slotted(h, Prune(t, n))
  {
    hide Slotted, RandomOrder, Delete;
    if n > 0 {
      PruneSlotted(h, t, n - 1);
      var r := Prune(t, n - 1);
      if n - 1 in r.mapInfo && !r.mapInfo[n - 1].fInTried && r.mapInfo[n - 1].nRefCount == 0 {
        DeleteSlotted(h, r, n - 1);
      }
    }
  }

  /** Whatever stream parses, the tables read from it are sound: only its addresses may be repeated or miscounted. */
  lemma AnyFileIsSound(h: Hasher, s: seq<Item>)
    requires Parse(s).Ok?
    ensures NewCountIsRight(Parse(s).value)
    ensures var r := Load(h, Parse(s).value);
            && NewTable(h, r.mapInfo, r.vvNew, {}) && TriedTable(h, r.mapInfo, r.vvTried)
            && RandomOrder(r.mapInfo, r.vRandom)
  {
    hide Parse, Load, LoadBuckets, Prune, NewTable, TriedTable, RandomOrder;
    var f := Parse(s).value;
    AddrParse.ParsedIs(s, f);
    ParsedCounts(s);
    Sound(h, f);
    LoadedArePlaced(h, f);
    NonePending(Load(h, f).mapInfo);
  }

  lemma NonePending(m: map<int, Info>)
    requires forall k :: k in m ==> m[k].fInTried || m[k].nRefCount != 0
    ensures Pending(m) == {}
  {
    forall id: int
      ensures id !in Pending(m)
    {
    }
  }

  lemma Sound(h: Hasher, f: File)
    requires NewCountIsRight(f) && |f.buckets| == Max(0, f.nUBuckets)
    ensures Slotted(h, Load(h, f)) && RandomOrder(Load(h, f).mapInfo, Load(h, f).vRandom)
  {
    hide LoadBuckets, Slotted, RandomOrder;
    LoadBucketsOrdered(h, f, |f.buckets|);
    BucketsSlotted(h, f, |f.buckets|);
    PruneSlotted(h, LoadBuckets(h, f, |f.buckets|), |f.news|);
  }

  // -------------------------------------------------- when the stored slots are of no use

  /** The slot a new entry of a file has by its own source. */
  function Home(h: Hasher, f: File, i: nat): Slot
    requires i < |f.news|
  {
    HomeSlot(h, FromDisk(f.news[i]))
  }

  /** The first new entry of a file for a slot. */
  ghost predicate FirstFor(h: Hasher, f: File, s: Slot, i: int) {
    0 <= i < |f.news| && Home(h, f, i) == s && forall j :: 0 <= j < i ==> Home(h, f, j) != s
  }

  /** The slots that the first `n` new entries call home are taken by the first that does. */
  ghost predicate Homes(h: Hasher, f: File, n: nat, v: map<Slot, int>)
    requires n <= |f.news|
  {
    && (forall s :: s in v ==> v[s] < n && FirstFor(h, f, s, v[s]))
    && forall i :: 0 <= i < n ==> Home(h, f, i) in v
  }

  lemma HomesMore(h: Hasher, f: File, n: nat, v: map<Slot, int>)
    requires 0 < n <= |f.news| && Homes(h, f, n - 1, v)
    ensures var s := Home(h, f, n - 1); Homes(h, f, n, if s in v then v else v[s := n - 1])
  {
    hide Home;
  }

  lemma {:induction false} HomesTaken(h: Hasher, f: File, n: nat)
    requires n <= |f.news| && !SlotsUsable(f)
    ensures Homes(h, f, n, LoadNew(h, f, n).vvNew)
  {
    hide HomeSlot, FromDisk;
    if n > 0 {
      hide LoadNew, Homes;
      HomesTaken(h, f, n - 1);
      HomesMore(h, f, n, LoadNew(h, f, n - 1).vvNew);
      OneHome(h, f, n);
    }
  }

  lemma OneHome(h: Hasher, f: File, n: nat)
    requires 0 < n <= |f.news| && !SlotsUsable(f)
    ensures var v, s := LoadNew(h, f, n - 1).vvNew, Home(h, f, n - 1);
            LoadNew(h, f, n).vvNew == if s in v then v else v[s := n - 1]
  {
    hide HomeSlot, FromDisk, SlotsUsable;
  }

  lemma {:induction false} TriedKeepsNew(h: Hasher, f: File, n: nat)
    requires n <= |f.trieds|
    ensures LoadTried(h, f, n).vvNew == LoadNew(h, f, |f.news|).vvNew
  {
    hide FromDisk, LoadNew, Hasher.TriedSlot;
    if n > 0 {
      TriedKeepsNew(h, f, n - 1);
    }
  }

  lemma {:induction false} BucketOfNoUse(h: Hasher, f: File, t: Tables, bucket: nat, v: seq<int>)
    requires !SlotsUsable(f)
    ensures LoadBucket(h, f, t, bucket, v) == t
  {
    if v != [] {
      BucketOfNoUse(h, f, t, bucket, v[..|v| - 1]);
    }
  }

  lemma {:induction false} BucketsOfNoUse(h: Hasher, f: File, n: nat)
    requires n <= |f.buckets| && !SlotsUsable(f)
    ensures LoadBuckets(h, f, n) == LoadTried(h, f, |f.trieds|)
  {
    hide LoadBucket, LoadTried;
    if n > 0 {
      BucketsOfNoUse(h, f, n - 1);
      BucketOfNoUse(h, f, LoadBuckets(h, f, n - 1), n - 1, f.buckets[n - 1]);
    }
  }

  lemma {:induction false} PruneKeepsNew(t: Tables, n: nat)
    requires RandomOrder(t.mapInfo, t.vRandom)
    ensures Prune(t, n).vvNew == t.vvNew
  {
    hide Delete, RandomOrder;
    if n > 0 {
      PruneKeepsNew(t, n - 1);
      var r := Prune(t, n - 1);
      if n - 1 in r.mapInfo {
        DeletedTables(r, n - 1);
      }
    }
  }

  /** Of an old or foreign file, each slot that some new entry calls home goes to the first that does, and no other. */
  lemma ForeignFile(h: Hasher, f: File)
    requires NewCountIsRight(f) && (f.version != 1 || f.nUBuckets != 1024)
    ensures Homes(h, f, |f.news|, Load(h, f).vvNew)
  {
    hide LoadBuckets, LoadTried, LoadNew, Prune, RandomOrder, Homes;
    LoadBucketsOrdered(h, f, |f.buckets|);
    HomesTaken(h, f, |f.news|);
    TriedKeepsNew(h, f, |f.trieds|);
    BucketsOfNoUse(h, f, |f.buckets|);
    PruneKeepsNew(LoadBuckets(h, f, |f.buckets|), |f.news|);
  }
}
