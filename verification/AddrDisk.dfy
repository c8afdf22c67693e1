/** Writing an address manager to a stream and filling one from a file, loop by loop. */
module AddrDisk {
  import opened Common
  import opened AddrTables
  import opened AddrFile
  import opened AddrLoad
  import AddrRoundTrip
  import M = AddrMan

  // ---------------------------------------------------------------------- writing

  lemma {:induction false} EntriesMore(ds: seq<Disk>, d: Disk)
    ensures Entries(ds + [d]) == Entries(ds) + [Entry(d)]
  {
    if ds == [] {
      assert [] + [d] == [d] && [d][1..] == [];
      assert Entries([d]) == [Entry(d)] + Entries([]);
    } else {
      EntriesMore(ds[1..], d);
      assert (ds + [d])[1..] == ds[1..] + [d];
    }
  }

  lemma {:induction false} IntsMore(ns: seq<int>, n: int)
    ensures Ints(ns + [n]) == Ints(ns) + [Int(n)]
  {
    if ns == [] {
      assert [] + [n] == [n] && [n][1..] == [];
      assert Ints([n]) == [Int(n)] + Ints([]);
    } else {
      IntsMore(ns[1..], n);
      assert (ns + [n])[1..] == ns[1..] + [n];
    }
  }

  lemma {:induction false} BucketsMore(bs: seq<seq<int>>, b: seq<int>)
    ensures Buckets(bs + [b]) == Buckets(bs) + ([Int(|b|)] + Ints(b))
  {
    hide Ints;
    if bs == [] {
      assert [] + [b] == [b] && [b][1..] == [];
      assert Buckets([b]) == [Int(|b|)] + Ints(b) + Buckets([]);
    } else {
      BucketsMore(bs[1..], b);
      assert (bs + [b])[1..] == bs[1..] + [b] && (bs + [b])[0] == bs[0];
    }
  }

  lemma DisksMore(m: map<int, Info>, ids: seq<int>, id: int)
    requires (forall i :: 0 <= i < |ids| ==> ids[i] in m) && id in m
    ensures Disks(m, ids + [id]) == Disks(m, ids) + [ToDisk(m[id])]
  {
  }

  lemma NewListStep(m: map<int, Info>, n: nat)
    ensures NewList(m, n + 1) == if n in m && m[n].nRefCount != 0 then NewList(m, n) + [n] else NewList(m, n)
    ensures TriedList(m, n + 1) == if n in m && m[n].fInTried then TriedList(m, n) + [n] else TriedList(m, n)
  {
  }

  /** Writes the new entries and numbers them. */
  method WriteNew(m: map<int, Info>, nIdCount: nat) returns (s: seq<Item>, mapUnkIds: map<int, nat>)
    ensures s == Entries(Disks(m, NewList(m, nIdCount)))
    ensures forall id: nat :: id in m && id < nIdCount ==> id in mapUnkIds && mapUnkIds[id] == Index(m, id)
  {
    hide NewList, TriedList, Entries;
    s, mapUnkIds := [], map[];
    var nIds := 0;
    NothingListed(m);
    for id := 0 to nIdCount
      invariant s == Entries(Disks(m, NewList(m, id))) && nIds == |NewList(m, id)|
      invariant forall j: nat :: j in m && j < id ==> j in mapUnkIds && mapUnkIds[j] == Index(m, j)
    {
      NewListStep(m, id);
      if id in m {
        mapUnkIds := mapUnkIds[id := nIds];
        if m[id].nRefCount != 0 {
          DisksMore(m, NewList(m, id), id);
          EntriesMore(Disks(m, NewList(m, id)), ToDisk(m[id]));
          s := s + [Entry(ToDisk(m[id]))];
          nIds := nIds + 1;
        }
      }
    }
  }

  lemma NothingListed(m: map<int, Info>)
    ensures NewList(m, 0) == [] && TriedList(m, 0) == [] && Disks(m, []) == [] && Entries([]) == []
  {
  }

  method WriteTried(m: map<int, Info>, nIdCount: nat) returns (s: seq<Item>)
    ensures s == Entries(Disks(m, TriedList(m, nIdCount)))
  {
    hide NewList, TriedList, Entries;
    s := [];
    NothingListed(m);
    for id := 0 to nIdCount
      invariant s == Entries(Disks(m, TriedList(m, id)))
    {
      NewListStep(m, id);
      if id in m && m[id].fInTried {
        DisksMore(m, TriedList(m, id), id);
        EntriesMore(Disks(m, TriedList(m, id)), ToDisk(m[id]));
        s := s + [Entry(ToDisk(m[id]))];
      }
    }
  }

  lemma IndexesStep(t: Tables, bucket: nat, n: nat)
    requires forall s :: s in t.vvNew ==> t.vvNew[s] >= 0
    ensures BucketIndexes(t, bucket, 0) == [] && Ints([]) == []
    ensures BucketIndexes(t, bucket, n + 1)
            == if Slot(bucket, n) in t.vvNew
              then BucketIndexes(t, bucket, n) + [Index(t.mapInfo, t.vvNew[Slot(bucket, n)])]
               else BucketIndexes(t, bucket, n)
  {
  }

  /** Writes how many slots of a bucket are taken, then the numbers of the entries in them. */
  method WriteBucket(t: Tables, mapUnkIds: map<int, nat>, bucket: nat) returns (s: seq<Item>)
    requires forall s :: s in t.vvNew ==> t.vvNew[s] >= 0
    requires forall s :: s in t.vvNew ==>
               t.vvNew[s] in mapUnkIds && mapUnkIds[t.vvNew[s]] == Index(t.mapInfo, t.vvNew[s])
    ensures var b := BucketIndexes(t, bucket, BUCKET_SIZE); s == [Int(|b|)] + Ints(b)
  {
    hide BucketIndexes, Ints, Index;
    var nSize := 0;
    IndexesStep(t, bucket, 0);
    for i := 0 to BUCKET_SIZE
      invariant nSize == |BucketIndexes(t, bucket, i)|
    {
      IndexesStep(t, bucket, i);
      if Slot(bucket, i) in t.vvNew {
        nSize := nSize + 1;
      }
    }
    s := [Int(nSize)];
    for i := 0 to BUCKET_SIZE
      invariant s == [Int(nSize)] + Ints(BucketIndexes(t, bucket, i))
    {
      IndexesStep(t, bucket, i);
      if Slot(bucket, i) in t.vvNew {
        var nIndex := mapUnkIds[t.vvNew[Slot(bucket, i)]];
        IntsMore(BucketIndexes(t, bucket, i), nIndex);
        s := s + [Int(nIndex)];
      }
    }
  }

  lemma SavedAs(key: nat, t: Tables)
    requires t.nIdCount >= 0 && forall s :: s in t.vvNew ==> t.vvNew[s] >= 0
    ensures Emit(Save(key, t))
            == [Byte(1), Byte(32), Key(key), Int(t.nNew), Int(t.nTried), Int(FlipBit30(NEW_BUCKET_COUNT))]
               + Entries(Disks(t.mapInfo, NewList(t.mapInfo, t.nIdCount))) +
                 Entries(Disks(t.mapInfo, TriedList(t.mapInfo, t.nIdCount)))
               + Buckets(FirstBuckets(t, NEW_BUCKET_COUNT))
  {
    hide Entries, Buckets, NewList, TriedList, BucketIndexes;
    assert Save(key, t).buckets == FirstBuckets(t, NEW_BUCKET_COUNT);
  }

  function FirstBuckets(t: Tables, n: nat): (r: seq<seq<int>>)
    requires forall s :: s in t.vvNew ==> t.vvNew[s] >= 0
    ensures |r| == n && forall b :: 0 <= b < n ==> r[b] == BucketIndexes(t, b, BUCKET_SIZE)
  {
    seq(n, b requires 0 <= b => BucketIndexes(t, b, BUCKET_SIZE))
  }

  lemma NumbersKnown(h: Hasher, t: Tables, mapUnkIds: map<int, nat>)
    requires AddrInv.Consistent(h, t) && t.nIdCount >= 0
    requires forall id: nat :: id in t.mapInfo && id < t.nIdCount ==>
               id in mapUnkIds && mapUnkIds[id] == Index(t.mapInfo, id)
    ensures forall s :: s in t.vvNew ==> t.vvNew[s] >= 0
    ensures forall s :: s in t.vvNew ==>
              t.vvNew[s] in mapUnkIds && mapUnkIds[t.vvNew[s]] == Index(t.mapInfo, t.vvNew[s])
  {
    hide AddrTables.Inv, Index;
    AddrRoundTrip.SlotsAreNatural(h, t);
    forall s | s in t.vvNew ensures t.vvNew[s] in mapUnkIds && mapUnkIds[t.vvNew[s]] == Index(t.mapInfo, t.vvNew[s]) {
      AddrRoundTrip.SlotAt(h, t, s);
    }
  }

  method WriteBuckets(t: Tables, mapUnkIds: map<int, nat>) returns (s: seq<Item>)
    requires forall s :: s in t.vvNew ==> t.vvNew[s] >= 0
    requires forall s :: s in t.vvNew ==>
               t.vvNew[s] in mapUnkIds && mapUnkIds[t.vvNew[s]] == Index(t.mapInfo, t.vvNew[s])
    ensures s == Buckets(FirstBuckets(t, NEW_BUCKET_COUNT))
  {
    hide Buckets, BucketIndexes, Index, Ints;
    s := [];
    NoneWritten(t);
    for bucket := 0 to NEW_BUCKET_COUNT
      invariant s == Buckets(FirstBuckets(t, bucket))
    {
      var more := WriteBucket(t, mapUnkIds, bucket);
      BucketsMore(FirstBuckets(t, bucket), BucketIndexes(t, bucket, BUCKET_SIZE));
      assert FirstBuckets(t, bucket + 1) == FirstBuckets(t, bucket) + [BucketIndexes(t, bucket, BUCKET_SIZE)];
      s := s + more;
    }
  }

  lemma NoneWritten(t: Tables)
    requires forall s :: s in t.vvNew ==> t.vvNew[s] >= 0
    ensures Buckets(FirstBuckets(t, 0)) == []
  {
  }

  /** Writes a manager; what is written reads back as the same tables. */
  method Serialize(a: M.AddrMan) returns (s: seq<Item>)
    requires a.Valid()
    ensures a.nIdCount >= 0 && forall s :: s in a.vvNew ==> a.vvNew[s] >= 0
    ensures s == Emit(Save(a.nKey, a.T())) && Parse(s) == Ok(Save(a.nKey, a.T())) &&
            NewCountIsRight(Save(a.nKey, a.T()))
    ensures AddrRoundTrip.SameTables(a.T(), Order(a.T()), Load(a.H(), Save(a.nKey, a.T())))
  {
    hide AddrTables.Inv, Entries, Buckets, Emit, Save, Parse, Load, Order, AddrRoundTrip.SameTables, NewList, TriedList,
      Index, NewCountIsRight;
    var t := a.T();
    AddrRoundTrip.FileRoundTrip(a.H(), a.nKey, t);
    var header := [Byte(1), Byte(32), Key(a.nKey), Int(a.nNew), Int(a.nTried), Int(FlipBit30(NEW_BUCKET_COUNT))];
    var news, mapUnkIds := WriteNew(a.mapInfo, a.nIdCount);
    var trieds := WriteTried(a.mapInfo, a.nIdCount);
    NumbersKnown(a.H(), t, mapUnkIds);
    var buckets := WriteBuckets(t, mapUnkIds);
    SavedAs(a.nKey, t);
    s := header + news + trieds + buckets;
  }

  // ---------------------------------------------------------------------- reading

  /** Adds an entry read from a file. */
  method AppendEntry(a: M.AddrMan, id: int, e: Info)
    modifies a
    ensures a.T() == Append(old(a.T()), id, e) && a.nKey == old(a.nKey) && id in a.mapInfo
  {
    a.mapInfo := a.mapInfo[id := e.(nRandomPos := |a.vRandom|)];
    a.mapAddr := a.mapAddr[e.Ip() := id];
    a.vRandom := a.vRandom + [id];
  }

  method ReadNew(a: M.AddrMan, f: File)
    requires a.T() == Blank(f)
    modifies a
    ensures a.T() == LoadNew(a.H(), f, |f.news|) && a.nKey == old(a.nKey)
  {
    hide Append, HomeSlot, FromDisk, Occupy;
    for n := 0 to |f.news|
      invariant a.T() == LoadNew(a.H(), f, n) && a.nKey == old(a.nKey)
    {
      var e := FromDisk(f.news[n]);
      AppendEntry(a, n, e);
      if !SlotsUsable(f) {
        var s := HomeSlot(a.H(), e);
        if s !in a.vvNew {
          TakeSlot(a, s, n);
        }
      }
    }
  }

  method TakeSlot(a: M.AddrMan, s: Slot, id: int)
    requires id in a.mapInfo
    modifies a
    ensures a.T() == Occupy(old(a.T()), s, id) && a.nKey == old(a.nKey)
  {
    a.vvNew := a.vvNew[s := id];
    a.mapInfo := a.mapInfo[id := a.mapInfo[id].(nRefCount := a.mapInfo[id].nRefCount + 1)];
  }

  lemma TriedStep(h: Hasher, f: File, n: nat)
    requires n < |f.trieds|
    ensures LoadTried(h, f, 0) == LoadNew(h, f, |f.news|).(nIdCount := f.nNew) &&
            LoadNew(h, f, |f.news|).nTried == f.nTried
    ensures var t := LoadTried(h, f, n);
            var e := FromDisk(f.trieds[n]).(fInTried := true);
            var s := h.TriedSlot(e.Service());
            LoadTried(h, f, n + 1)
            == if s in t.vvTried then t.(nTried := t.nTried - 1)
               else Append(t, t.nIdCount, e).(vvTried := t.vvTried[s := t.nIdCount], nIdCount := t.nIdCount + 1)
  {
    NewKeepsTried(h, f, |f.news|);
  }

  lemma {:induction false} NewKeepsTried(h: Hasher, f: File, n: nat)
    requires n <= |f.news|
    ensures LoadNew(h, f, n).nTried == f.nTried
  {
    if n > 0 {
      NewKeepsTried(h, f, n - 1);
    }
  }

  /** Reads the tried entries, dropping and counting those whose slot is taken. */
  method ReadTried(a: M.AddrMan, f: File)
    requires a.T() == LoadNew(a.H(), f, |f.news|)
    modifies a
    ensures a.T() == LoadTried(a.H(), f, |f.trieds|) && a.nKey == old(a.nKey)
  {
    hide LoadTried, LoadNew, FromDisk;
    a.nIdCount := f.nNew;
    var nLost := 0;
    TriedStart(a.H(), f);
    for n := 0 to |f.trieds|
      invariant a.T() == LoadTried(a.H(), f, n).(nTried := f.nTried) && a.nKey == old(a.nKey)
      invariant LoadTried(a.H(), f, n).nTried == f.nTried - nLost
    {
      TriedStep(a.H(), f, n);
      var e := FromDisk(f.trieds[n]).(fInTried := true);
      var s := a.H().TriedSlot(e.Service());
      if s !in a.vvTried {
        AppendEntry(a, a.nIdCount, e);
        a.vvTried := a.vvTried[s := a.nIdCount];
        a.nIdCount := a.nIdCount + 1;
      } else {
        nLost := nLost + 1;
      }
    }
    a.nTried := a.nTried - nLost;
  }

  lemma TriedStart(h: Hasher, f: File)
    ensures LoadTried(h, f, 0) == LoadNew(h, f, |f.news|).(nIdCount := f.nNew) &&
            LoadNew(h, f, |f.news|).nTried == f.nTried
  {
    NewKeepsTried(h, f, |f.news|);
  }

  /** Gives the entries of a bucket their slots back. */
  method ReadBucket(a: M.AddrMan, f: File, bucket: nat, indexes: seq<int>)
    modifies a
    ensures a.T() == LoadBucket(a.H(), f, old(a.T()), bucket, indexes) && a.nKey == old(a.nKey)
  {
    hide Occupy;
    ghost var t := a.T();
    for n := 0 to |indexes|
      invariant a.T() == LoadBucket(a.H(), f, t, bucket, indexes[..n]) && a.nKey == old(a.nKey)
    {
      assert indexes[..n + 1][..n] == indexes[..n];
      var nIndex := indexes[n];
      if 0 <= nIndex < f.nNew && nIndex in a.mapInfo {
        var s := a.H().NewSlotIn(a.mapInfo[nIndex].Service(), bucket);
        if SlotsUsable(f) && s !in a.vvNew && a.mapInfo[nIndex].nRefCount < NEW_BUCKETS_PER_ADDRESS {
          TakeSlot(a, s, nIndex);
        }
      }
    }
    assert indexes[..|indexes|] == indexes;
  }

  /** Deletes the untried entries that found no slot. */
  method PruneNew(a: M.AddrMan, n: nat)
    requires RandomOrder(a.mapInfo, a.vRandom)
    modifies a
    ensures a.T() == Prune(old(a.T()), n) && a.nKey == old(a.nKey)
  {
    hide RandomOrder, AddrTables.Delete;
    ghost var t := a.T();
    for id := 0 to n
      invariant a.T() == Prune(t, id) && a.nKey == old(a.nKey)
    {
      if id in a.mapInfo && !a.mapInfo[id].fInTried && a.mapInfo[id].nRefCount == 0 {
        a.Delete(id);
      }
    }
  }

  /** Fills a fresh manager from a stream, or says why the stream cannot be read. */
  method Unserialize(a: M.AddrMan, s: seq<Item>) returns (error: Option<Error>)
    requires a.T() == EmptyTables
    modifies a
    ensures match Parse(s)
            case Err(e) => error == Some(e)
            case Ok(f) => error == None && a.nKey == f.key && NewCountIsRight(f) && a.T() == Load(a.H(), f)
  {
    hide Parse, LoadNew, LoadTried, LoadBucket, Prune, RandomOrder;
    ParsedCounts(s);
    var parsed := Parse(s);
    if parsed.Err? {
      return Some(parsed.error);
    }
    var f := parsed.value;
    a.nKey, a.nNew, a.nTried := f.key, f.nNew, f.nTried;
    ReadNew(a, f);
    ReadTried(a, f);
    for bucket := 0 to |f.buckets|
      invariant a.T() == LoadBuckets(a.H(), f, bucket) && a.nKey == f.key
    {
      ReadBucket(a, f, bucket, f.buckets[bucket]);
    }
    LoadBucketsOrdered(a.H(), f, |f.buckets|);
    OrderedIsRandom(a.T(), a.nIdCount);
    PruneNew(a, |f.news|);
    return None;
  }

  lemma OrderedIsRandom(t: Tables, next: int)
    requires Ordered(t, next)
    ensures RandomOrder(t.mapInfo, t.vRandom)
  {
  }
}
