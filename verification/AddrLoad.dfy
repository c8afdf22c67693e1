/**
 * Saving the tables of the address manager to a file and loading them into a
 * fresh manager gives the same tables, up to the numbering of the entries.
 */
module AddrLoad {
  import opened Common
  import opened AddrTables
  import opened AddrInv
  import opened AddrFile
  import AddrRun

  // ---------------------------------------------------------------------- saving

  /** The entries with references, in the order of their ids below `n`. */
  function NewList(m: map<int, Info>, n: nat): (r: seq<int>)
    ensures forall i :: 0 <= i < |r| ==> r[i] in m && 0 <= r[i] < n && m[r[i]].nRefCount != 0
    ensures forall i, j :: 0 <= i < j < |r| ==> r[i] < r[j]
  {
    if n == 0 then []
    else NewList(m, n - 1) + if n - 1 in m && m[n - 1].nRefCount != 0 then [n - 1] else []
  }

  /** The tried entries, in the order of their ids below `n`. */
  function TriedList(m: map<int, Info>, n: nat): (r: seq<int>)
    ensures forall i :: 0 <= i < |r| ==> r[i] in m && 0 <= r[i] < n && m[r[i]].fInTried
    ensures forall i, j :: 0 <= i < j < |r| ==> r[i] < r[j]
  {
    if n == 0 then []
    else TriedList(m, n - 1) + if n - 1 in m && m[n - 1].fInTried then [n - 1] else []
  }

  /** The number an entry is written under: how many new entries precede it. */
  function Index(m: map<int, Info>, id: nat): nat {
    |NewList(m, id)|
  }

  /** The numbers of the entries in the first `n` slots of a bucket. */
  function BucketIndexes(t: Tables, bucket: nat, n: nat): seq<int>
    requires forall s :: s in t.vvNew ==> t.vvNew[s] >= 0
  {
    if n == 0 then []
    else
      var s := Slot(bucket, n - 1);
      BucketIndexes(t, bucket, n - 1) + if s in t.vvNew then [Index(t.mapInfo, t.vvNew[s])] else []
  }

  function Disks(m: map<int, Info>, ids: seq<int>): (r: seq<Disk>)
    requires forall i :: 0 <= i < |ids| ==> ids[i] in m
    ensures |r| == |ids| && forall i :: 0 <= i < |ids| ==> r[i] == ToDisk(m[ids[i]])
  {
    seq(|ids|, i requires 0 <= i < |ids| => ToDisk(m[ids[i]]))
  }

  function Save(key: nat, t: Tables): File
    requires t.nIdCount >= 0 && forall s :: s in t.vvNew ==> t.vvNew[s] >= 0
  {
    File(1, key, t.nNew, t.nTried, NEW_BUCKET_COUNT,
         Disks(t.mapInfo, NewList(t.mapInfo, t.nIdCount)),
         Disks(t.mapInfo, TriedList(t.mapInfo, t.nIdCount)),
         seq(NEW_BUCKET_COUNT, b requires 0 <= b => BucketIndexes(t, b, BUCKET_SIZE)))
  }

  // --------------------------------------------------------------------- loading

  /** Whether the stored slots can be used. */
  predicate SlotsUsable(f: File) {
    f.version == 1 && f.nUBuckets == NEW_BUCKET_COUNT
  }

  /** A fresh manager after the header of a file has been read. */
  function Blank(f: File): Tables {
    EmptyTables.(nNew := f.nNew, nTried := f.nTried)
  }

  /** Adds an entry read from a file under the next id. */
  function Append(t: Tables, id: int, e: Info): Tables {
    t.(mapInfo := t.mapInfo[id := e.(nRandomPos := |t.vRandom|)], mapAddr := t.mapAddr[e.Ip() := id],
       vRandom := t.vRandom + [id])
  }

  /** Reads the first `n` new entries; without usable slots they get the one of their source. */
  function LoadNew(h: Hasher, f: File, n: nat): (t: Tables)
    requires n <= |f.news|
    ensures t.nIdCount == 0
  {
    if n == 0 then Blank(f)
    else
      var e := FromDisk(f.news[n - 1]);
      var t := Append(LoadNew(h, f, n - 1), n - 1, e);
      var s := HomeSlot(h, e);
      if !SlotsUsable(f) && s !in t.vvNew then Occupy(t, s, n - 1) else t
  }

  /** Reads the first `n` tried entries, dropping those whose slot is taken. */
  function LoadTried(h: Hasher, f: File, n: nat): Tables
    requires n <= |f.trieds|
  {
    if n == 0 then LoadNew(h, f, |f.news|).(nIdCount := f.nNew)
    else
      var t := LoadTried(h, f, n - 1);
      var e := FromDisk(f.trieds[n - 1]).(fInTried := true);
      var s := h.TriedSlot(e.Service());
      if s in t.vvTried then t.(nTried := t.nTried - 1)
      else Append(t, t.nIdCount, e).(vvTried := t.vvTried[s := t.nIdCount], nIdCount := t.nIdCount + 1)
  }

  /** Puts the entry written under a number into its slot of a bucket, if that is free. */
  function LoadSlot(h: Hasher, f: File, t: Tables, bucket: nat, index: int): Tables {
    if SlotsUsable(f) && 0 <= index < f.nNew && index in t.mapInfo then
      var s := h.NewSlotIn(t.mapInfo[index].Service(), bucket);
      if s !in t.vvNew && t.mapInfo[index].nRefCount < NEW_BUCKETS_PER_ADDRESS then Occupy(t, s, index) else t
    else t
  }

  function LoadBucket(h: Hasher, f: File, t: Tables, bucket: nat, indexes: seq<int>): Tables {
    if indexes == [] then t
    else LoadSlot(h, f, LoadBucket(h, f, t, bucket, indexes[..|indexes| - 1]), bucket, indexes[|indexes| - 1])
  }

  function LoadBuckets(h: Hasher, f: File, n: nat): Tables
    requires n <= |f.buckets|
  {
    if n == 0 then LoadTried(h, f, |f.trieds|)
    else LoadBucket(h, f, LoadBuckets(h, f, n - 1), n - 1, f.buckets[n - 1])
  }

  // ------------------------------------------------- the order while loading

  /** Every file that parses lists as many new entries as it says. */
  predicate NewCountIsRight(f: File) {
    |f.news| == Max(0, f.nNew)
  }

  lemma {:induction false} TakenEntries(s: seq<Item>, n: int)
    ensures TakeEntries(s, n).Ok? ==> |TakeEntries(s, n).value.0| == Max(0, n)
    decreases n
  {
    if n > 0 && s != [] && s[0].Entry? {
      TakenEntries(s[1..], n - 1);
    }
  }

  lemma ParsedCounts(s: seq<Item>)
    ensures Parse(s).Ok? ==> NewCountIsRight(Parse(s).value)
  {
    hide TakeEntries, TakeBuckets;
    if HasHeader(s) {
      TakenEntries(s[6..], s[3].n);
    }
  }

  /** The random order is sound and ids from `next` on are unused. */
  ghost predicate Ordered(t: Tables, next: int) {
    RandomOrder(t.mapInfo, t.vRandom) && forall id :: id in t.mapInfo ==> id < next
  }

  lemma AppendOrdered(t: Tables, next: int, e: Info)
    requires Ordered(t, next)
    ensures Ordered(Append(t, next, e), next + 1) && next in Append(t, next, e).mapInfo
  {
  }

  lemma OccupyOrdered(t: Tables, next: int, s: Slot, id: int)
    requires Ordered(t, next) && id in t.mapInfo
    ensures Ordered(Occupy(t, s, id), next)
  {
  }

  lemma {:induction false} LoadNewOrdered(h: Hasher, f: File, n: nat)
    requires n <= |f.news|
    ensures Ordered(LoadNew(h, f, n), n)
  {
    hide Ordered, Append, Occupy, HomeSlot, FromDisk;
    if n == 0 {
      BlankOrdered(f);
    } else {
      LoadNewOrdered(h, f, n - 1);
      var e := FromDisk(f.news[n - 1]);
      AppendOrdered(LoadNew(h, f, n - 1), n - 1, e);
      OccupyOrdered(Append(LoadNew(h, f, n - 1), n - 1, e), n, HomeSlot(h, e), n - 1);
    }
  }

  lemma BlankOrdered(f: File)
    ensures Ordered(Blank(f), 0)
  {
  }

  lemma OrderedIgnores(t: Tables, next: int, n: int, v: map<Slot, int>, k: int)
    requires Ordered(t, next)
    ensures Ordered(t.(nIdCount := n, vvTried := v, nTried := k), next)
    ensures t.mapInfo == map[] ==> Ordered(t, n)
  {
  }

  lemma {:induction false} LoadTriedOrdered(h: Hasher, f: File, n: nat)
    requires n <= |f.trieds| && NewCountIsRight(f)
    ensures var r := LoadTried(h, f, n); Ordered(r, r.nIdCount)
  {
    hide Ordered, LoadNew;
    if n == 0 {
      var t := LoadNew(h, f, |f.news|);
      LoadNewOrdered(h, f, |f.news|);
      NoNewEntries(h, f);
      OrderedIgnores(t, |f.news|, f.nNew, t.vvTried, t.nTried);
      OrderedIgnores(t, f.nNew, f.nNew, t.vvTried, t.nTried);
    } else {
      LoadTriedOrdered(h, f, n - 1);
      var t := LoadTried(h, f, n - 1);
      var e := FromDisk(f.trieds[n - 1]).(fInTried := true);
      var s := h.TriedSlot(e.Service());
      OrderedIgnores(t, t.nIdCount, t.nIdCount, t.vvTried, t.nTried - 1);
      AppendOrdered(t, t.nIdCount, e);
      OrderedIgnores(Append(t, t.nIdCount, e), t.nIdCount + 1, t.nIdCount + 1, t.vvTried[s := t.nIdCount], t.nTried);
    }
  }

  lemma NoNewEntries(h: Hasher, f: File)
    ensures f.news == [] ==> LoadNew(h, f, |f.news|).mapInfo == map[]
  {
  }

  lemma {:induction false} LoadBucketOrdered(h: Hasher, f: File, t: Tables, bucket: nat, v: seq<int>)
    requires Ordered(t, t.nIdCount)
    ensures var r := LoadBucket(h, f, t, bucket, v); Ordered(r, r.nIdCount)
  {
    hide Ordered;
    if v != [] {
      LoadBucketOrdered(h, f, t, bucket, v[..|v| - 1]);
      var r, index := LoadBucket(h, f, t, bucket, v[..|v| - 1]), v[|v| - 1];
      if index in r.mapInfo {
        OccupyOrdered(r, r.nIdCount, h.NewSlotIn(r.mapInfo[index].Service(), bucket), index);
      }
    }
  }

  lemma {:induction false} LoadBucketsOrdered(h: Hasher, f: File, n: nat)
    requires n <= |f.buckets| && NewCountIsRight(f)
    ensures var r := LoadBuckets(h, f, n); Ordered(r, r.nIdCount)
  {
    hide Ordered, LoadTried, LoadBucket;
    if n == 0 {
      LoadTriedOrdered(h, f, |f.trieds|);
    } else {
      LoadBucketsOrdered(h, f, n - 1);
      LoadBucketOrdered(h, f, LoadBuckets(h, f, n - 1), n - 1, f.buckets[n - 1]);
    }
  }

  lemma DeleteKeepsOrder(t: Tables, id: int)
    requires id in t.mapInfo && RandomOrder(t.mapInfo, t.vRandom)
    ensures var r := Delete(t, id); RandomOrder(r.mapInfo, r.vRandom)
  {
    var i, j := t.mapInfo[id].nRandomPos, |t.vRandom| - 1;
    if i != j {
      var s := SwapRandom(t, i, j);
      SwapKeepsOrder(t.mapInfo, t.vRandom, i, j, s.mapInfo, s.vRandom);
    }
  }

  /** Deletes the untried entries below `n` that found no slot. */
  function Prune(t: Tables, n: nat): (r: Tables)
    requires RandomOrder(t.mapInfo, t.vRandom)
    ensures RandomOrder(r.mapInfo, r.vRandom)
  {
    if n == 0 then t
    else
      var r := Prune(t, n - 1);
      if n - 1 in r.mapInfo && !r.mapInfo[n - 1].fInTried && r.mapInfo[n - 1].nRefCount == 0 then
        DeleteKeepsOrder(r, n - 1);
        Delete(r, n - 1)
      else r
  }

  /** The tables read from a file into a fresh manager. */
  function Load(h: Hasher, f: File): Tables
    requires NewCountIsRight(f)
  {
    LoadBucketsOrdered(h, f, |f.buckets|);
    Prune(LoadBuckets(h, f, |f.buckets|), |f.news|)
  }

  // ------------------------------------------------------------- what any file leads to

  /** Untried entries are new ones of the file. */
  ghost predicate UntriedAreNew(m: map<int, Info>, n: nat) {
    forall id :: id in m && !m[id].fInTried ==> 0 <= id < n
  }

  lemma OccupyKeepsTried(t: Tables, s: Slot, id: int, n: nat)
    requires id in t.mapInfo && UntriedAreNew(t.mapInfo, n)
    ensures UntriedAreNew(Occupy(t, s, id).mapInfo, n)
  {
  }

  lemma {:induction false} LoadNewUntried(h: Hasher, f: File, n: nat)
    requires n <= |f.news|
    ensures UntriedAreNew(LoadNew(h, f, n).mapInfo, n)
  {
    hide HomeSlot, FromDisk, Occupy, SlotsUsable;
    if n > 0 {
      LoadNewUntried(h, f, n - 1);
      var e := FromDisk(f.news[n - 1]);
      OccupyKeepsTried(Append(LoadNew(h, f, n - 1), n - 1, e), HomeSlot(h, e), n - 1, n);
    }
  }

  lemma {:induction false} LoadTriedUntried(h: Hasher, f: File, n: nat)
    requires n <= |f.trieds|
    ensures UntriedAreNew(LoadTried(h, f, n).mapInfo, |f.news|)
  {
    hide FromDisk, LoadNew;
    if n > 0 {
      LoadTriedUntried(h, f, n - 1);
    } else {
      LoadNewUntried(h, f, |f.news|);
    }
  }

  lemma {:induction false} LoadBucketUntried(h: Hasher, f: File, t: Tables, bucket: nat, v: seq<int>)
    requires UntriedAreNew(t.mapInfo, |f.news|)
    ensures UntriedAreNew(LoadBucket(h, f, t, bucket, v).mapInfo, |f.news|)
  {
    hide UntriedAreNew, Occupy;
    if v != [] {
      LoadBucketUntried(h, f, t, bucket, v[..|v| - 1]);
      var r, index := LoadBucket(h, f, t, bucket, v[..|v| - 1]), v[|v| - 1];
      if index in r.mapInfo {
        OccupyKeepsTried(r, h.NewSlotIn(r.mapInfo[index].Service(), bucket), index, |f.news|);
      }
    }
  }

  lemma {:induction false} LoadBucketsUntried(h: Hasher, f: File, n: nat)
    requires n <= |f.buckets|
    ensures UntriedAreNew(LoadBuckets(h, f, n).mapInfo, |f.news|)
  {
    hide UntriedAreNew, LoadBucket, LoadTried;
    if n > 0 {
      LoadBucketsUntried(h, f, n - 1);
      LoadBucketUntried(h, f, LoadBuckets(h, f, n - 1), n - 1, f.buckets[n - 1]);
    } else {
      LoadTriedUntried(h, f, |f.trieds|);
    }
  }

  /** An entry that has a slot or was tried. */
  predicate Placed(e: Info) {
    e.fInTried || e.nRefCount != 0
  }

  lemma DeletedInfos(t: Tables, id: int)
    requires id in t.mapInfo && RandomOrder(t.mapInfo, t.vRandom)
    ensures var m := Delete(t, id).mapInfo;
            && (forall k :: k in m <==> k in t.mapInfo && k != id)
            && forall k :: k in m ==> m[k].(nRandomPos := 0) == t.mapInfo[k].(nRandomPos := 0)
  {
  }

  /** Exactly the untried entries without a slot go. */
  lemma {:induction false} PrunedInfos(t: Tables, n: nat)
    requires RandomOrder(t.mapInfo, t.vRandom)
    ensures var m := Prune(t, n).mapInfo;
            && (forall k :: k in m <==> k in t.mapInfo && (0 <= k < n ==> Placed(t.mapInfo[k])))
            && forall k :: k in m ==> m[k].(nRandomPos := 0) == t.mapInfo[k].(nRandomPos := 0)
  {
    hide Delete, RandomOrder;
    if n > 0 {
      PrunedInfos(t, n - 1);
      var r := Prune(t, n - 1);
      if n - 1 in r.mapInfo {
        assert Placed(r.mapInfo[n - 1]) <==> Placed(t.mapInfo[n - 1]);
        DeletedInfos(r, n - 1);
      }
    }
  }

  /** Whatever a file says, what is read from it has a slot or was tried. */
  lemma LoadedArePlaced(h: Hasher, f: File)
    requires NewCountIsRight(f)
    ensures var m := Load(h, f).mapInfo; forall k :: k in m ==> m[k].fInTried || m[k].nRefCount != 0
  {
    hide LoadBuckets, Prune;
    LoadBucketsOrdered(h, f, |f.buckets|);
    LoadBucketsUntried(h, f, |f.buckets|);
    var t := LoadBuckets(h, f, |f.buckets|);
    PrunedInfos(t, |f.news|);
    var m := Load(h, f).mapInfo;
    forall k | k in m
      ensures Placed(m[k])
    {
      assert m[k].fInTried == t.mapInfo[k].fInTried && m[k].nRefCount == t.mapInfo[k].nRefCount;
    }
  }

  // ----------------------------------------------------------------------- lists

  lemma {:induction false} NewListHas(m: map<int, Info>, n: nat, id: nat)
    requires id in m && id < n && m[id].nRefCount != 0
    ensures Index(m, id) < |NewList(m, n)| && NewList(m, n)[Index(m, id)] == id
    decreases n
  {
    if id < n - 1 {
      NewListHas(m, n - 1, id);
    }
  }

  lemma {:induction false} TriedListHas(m: map<int, Info>, n: nat, id: nat)
    requires id in m && id < n && m[id].fInTried
    ensures id in TriedList(m, n)
    decreases n
  {
    if id < n - 1 {
      TriedListHas(m, n - 1, id);
    }
  }

  /** Both lists are as long as the counters say. */
  lemma ListsAreCounted(h: Hasher, t: Tables)
    requires Consistent(h, t)
    ensures |NewList(t.mapInfo, t.nIdCount)| == t.nNew && |TriedList(t.mapInfo, t.nIdCount)| == t.nTried
  {
    var m, n := t.mapInfo, t.nIdCount;
    CountOf(NewList(m, n), NewIds(m)) by {
      forall id: int | id in NewIds(m) ensures id in NewList(m, n) {
        EntryAt(h, t, {}, 0, id);
        NewListHas(m, n, id);
      }
      forall id: int | id in NewList(m, n) ensures id in NewIds(m) {
        EntryAt(h, t, {}, 0, id);
      }
    }
    CountOf(TriedList(m, n), TriedIds(m)) by {
      forall id: int ensures id in TriedIds(m) <==> id in TriedList(m, n) {
        if id in TriedIds(m) {
          EntryAt(h, t, {}, 0, id);
          TriedListHas(m, n, id);
        }
      }
    }
  }

  lemma CountOf(v: seq<int>, s: set<int>)
    requires forall i, j :: 0 <= i < j < |v| ==> v[i] < v[j]
    requires forall x: int :: x in s <==> x in v
    ensures |v| == |s|
  {
    AddrRun.DistinctCount(v);
    var all := set i | 0 <= i < |v| :: v[i];
    forall x: int ensures x in all <==> x in s {
    }
    assert all == s;
  }

  // ------------------------------------------------- the order entries come back in

  /** All entries, new ones first: the entry that gets id `i` when loaded. */
  function Order(t: Tables): seq<int>
    requires t.nIdCount >= 0
  {
    NewList(t.mapInfo, t.nIdCount) + TriedList(t.mapInfo, t.nIdCount)
  }

  /** `ids` lists every entry once, the first `n0` being the new ones. */
  ghost predicate Enumerates(m: map<int, Info>, ids: seq<int>, n0: nat) {
    && n0 <= |ids|
    && (forall i :: 0 <= i < |ids| ==> ids[i] in m && (m[ids[i]].fInTried <==> n0 <= i))
    && (forall i, j :: 0 <= i < j < |ids| ==> ids[i] != ids[j])
    && (forall id :: id in m ==> id in ids)
  }

  lemma OrderEnumerates(h: Hasher, t: Tables)
    requires Consistent(h, t)
    ensures t.nIdCount >= 0 && Enumerates(t.mapInfo, Order(t), t.nNew) && |Order(t)| == t.nNew + t.nTried
  {
    hide Inv, NewList, TriedList;
    NextIdIsNatural(h, t);
    ListsAreCounted(h, t);
    var m, n := t.mapInfo, t.nIdCount;
    var a, b := NewList(m, n), TriedList(m, n);
    forall i | 0 <= i < |a| ensures !m[a[i]].fInTried {
      EntryAt(h, t, {}, 0, a[i]);
    }
    forall i, j | 0 <= i < j < |a + b| ensures (a + b)[i] != (a + b)[j] {
      assert i < |a| <= j ==> (a + b)[i] == a[i] && (a + b)[j] == b[j - |a|];
    }
    forall id: int | id in m ensures id in a + b {
      EntryAt(h, t, {}, 0, id);
      if m[id].fInTried {
        TriedListHas(m, n, id);
      } else {
        NewListHas(m, n, id);
      }
    }
  }

  lemma NextIdIsNatural(h: Hasher, t: Tables)
    requires Consistent(h, t)
    ensures t.nIdCount >= 0
  {
  }

  // ---------------------------------------------------------- entries as they load

  /** An entry right after it has been read: no references yet. */
  function Reread(e: Info, i: int): Info {
    FromDisk(ToDisk(e)).(fInTried := e.fInTried, nRandomPos := i)
  }

  /** The first `c` entries have been read, and stand in this order. */
  ghost predicate ReadInfos(m: map<int, Info>, ids: seq<int>, n0: nat, infos: map<int, Info>, vRandom: seq<int>, c: nat)
    requires Enumerates(m, ids, n0) && c <= |ids|
  {
    && (forall i :: i in infos <==> 0 <= i < c)
    && (forall i :: 0 <= i < c ==> infos[i] == Reread(m[ids[i]], i))
    && |vRandom| == c && (forall i :: 0 <= i < c ==> vRandom[i] == i)
  }

  ghost predicate ReadAddrs(m: map<int, Info>, ids: seq<int>, n0: nat, addrs: map<NetAddr, int>, c: nat)
    requires Enumerates(m, ids, n0) && c <= |ids|
  {
    && (forall i :: 0 <= i < c ==> Get(addrs, m[ids[i]].Ip()) == Some(i))
    && (forall a :: a in addrs ==> 0 <= addrs[a] < c && m[ids[addrs[a]]].Ip() == a)
  }

  ghost predicate ReadTrieds(h: Hasher, m: map<int, Info>, ids: seq<int>, n0: nat, vvTried: map<Slot, int>, c: nat)
    requires Enumerates(m, ids, n0) && c <= |ids|
  {
    && (forall i :: n0 <= i < c ==> Get(vvTried, h.TriedSlot(m[ids[i]].Service())) == Some(i))
    && (forall s :: s in vvTried ==> n0 <= vvTried[s] < c && s == h.TriedSlot(m[ids[vvTried[s]]].Service()))
  }

  ghost predicate Read(h: Hasher, t: Tables, ids: seq<int>, n0: nat, r: Tables, c: nat)
    requires Enumerates(t.mapInfo, ids, n0) && c <= |ids|
  {
    && ReadInfos(t.mapInfo, ids, n0, r.mapInfo, r.vRandom, c)
    && ReadAddrs(t.mapInfo, ids, n0, r.mapAddr, c)
    && ReadTrieds(h, t.mapInfo, ids, n0, r.vvTried, c)
    && r.vvNew == map[]
  }

  /** Different entries have different addresses, and tried ones different slots. */
  lemma EntriesDiffer(h: Hasher, t: Tables, ids: seq<int>, n0: nat, i: nat, j: nat)
    requires Consistent(h, t) && Enumerates(t.mapInfo, ids, n0) && i < j < |ids|
    ensures t.mapInfo[ids[i]].Ip() != t.mapInfo[ids[j]].Ip()
    ensures n0 <= i ==> h.TriedSlot(t.mapInfo[ids[i]].Service()) != h.TriedSlot(t.mapInfo[ids[j]].Service())
  {
  }

  lemma ReadOneInfo(m: map<int, Info>, ids: seq<int>, n0: nat, infos: map<int, Info>, v: seq<int>, c: nat)
    requires Enumerates(m, ids, n0) && c < |ids| && ReadInfos(m, ids, n0, infos, v, c)
    ensures ReadInfos(m, ids, n0, infos[c := Reread(m[ids[c]], c)], v + [c], c + 1)
  {
  }

  lemma ReadOneAddr(m: map<int, Info>, ids: seq<int>, n0: nat, addrs: map<NetAddr, int>, c: nat)
    requires Enumerates(m, ids, n0) && c < |ids| && ReadAddrs(m, ids, n0, addrs, c)
    requires forall i :: 0 <= i < c ==> m[ids[i]].Ip() != m[ids[c]].Ip()
    ensures ReadAddrs(m, ids, n0, addrs[m[ids[c]].Ip() := c], c + 1)
  {
  }

  lemma ReadOneTried(h: Hasher, m: map<int, Info>, ids: seq<int>, n0: nat, vvTried: map<Slot, int>, c: nat)
    requires Enumerates(m, ids, n0) && n0 <= c < |ids| && ReadTrieds(h, m, ids, n0, vvTried, c)
    requires forall i :: n0 <= i < c ==> h.TriedSlot(m[ids[i]].Service()) != h.TriedSlot(m[ids[c]].Service())
    ensures ReadTrieds(h, m, ids, n0, vvTried[h.TriedSlot(m[ids[c]].Service()) := c], c + 1)
    ensures h.TriedSlot(m[ids[c]].Service()) !in vvTried
  {
  }

  lemma NoTriedYet(h: Hasher, m: map<int, Info>, ids: seq<int>, n0: nat, c: nat)
    requires Enumerates(m, ids, n0) && c <= n0
    ensures forall v :: ReadTrieds(h, m, ids, n0, v, c) <==> v == map[]
  {
    forall v ensures ReadTrieds(h, m, ids, n0, v, c) <==> v == map[] {
      if v != map[] {
        var s :| s in v;
      }
    }
  }

  /** Reading one more entry, of either kind, into a fresh manager loses nothing. */
  lemma ReadOne(h: Hasher, t: Tables, ids: seq<int>, n0: nat, r: Tables, c: nat)
    requires Consistent(h, t) && Enumerates(t.mapInfo, ids, n0) && c < |ids| && Read(h, t, ids, n0, r, c)
    ensures var e := t.mapInfo[ids[c]];
            var s := h.TriedSlot(e.Service());
            var r' := Append(r, c, FromDisk(ToDisk(e)).(fInTried := e.fInTried));
            && (c < n0 ==> Read(h, t, ids, n0, r', c + 1))
            && (n0 <= c ==> s !in r.vvTried && Read(h, t, ids, n0, r'.(vvTried := r.vvTried[s := c]), c + 1))
  {
    hide Inv, ReadInfos, ReadAddrs, ReadTrieds;
    forall i | 0 <= i < c
      ensures t.mapInfo[ids[i]].Ip() != t.mapInfo[ids[c]].Ip()
      ensures n0 <= i ==> h.TriedSlot(t.mapInfo[ids[i]].Service()) != h.TriedSlot(t.mapInfo[ids[c]].Service())
    {
      EntriesDiffer(h, t, ids, n0, i, c);
    }
    LengthRead(t.mapInfo, ids, n0, r.mapInfo, r.vRandom, c);
    ReadOneInfo(t.mapInfo, ids, n0, r.mapInfo, r.vRandom, c);
    ReadOneAddr(t.mapInfo, ids, n0, r.mapAddr, c);
    if c < n0 {
      NoTriedYet(h, t.mapInfo, ids, n0, c);
      NoTriedYet(h, t.mapInfo, ids, n0, c + 1);
    } else {
      ReadOneTried(h, t.mapInfo, ids, n0, r.vvTried, c);
    }
  }

  lemma LengthRead(m: map<int, Info>, ids: seq<int>, n0: nat, infos: map<int, Info>, v: seq<int>, c: nat)
    requires Enumerates(m, ids, n0) && c <= |ids| && ReadInfos(m, ids, n0, infos, v, c)
    ensures |v| == c
  {
  }

  // -------------------------------------------------------------- reading it all in

  /** The file holds these entries, and its slots can be used. */
  ghost predicate Stores(f: File, t: Tables, ids: seq<int>, n0: nat)
    requires Enumerates(t.mapInfo, ids, n0)
  {
    && SlotsUsable(f) && f.nNew == |f.news| == n0 && f.nTried == |f.trieds| == |ids| - n0
    && (forall i :: 0 <= i < n0 ==> f.news[i] == ToDisk(t.mapInfo[ids[i]]))
    && (forall i :: n0 <= i < |ids| ==> f.trieds[i - n0] == ToDisk(t.mapInfo[ids[i]]))
  }

  lemma StoredAt(f: File, t: Tables, ids: seq<int>, n0: nat, i: nat)
    requires Enumerates(t.mapInfo, ids, n0) && Stores(f, t, ids, n0) && i < |ids|
    ensures ids[i] in t.mapInfo && (t.mapInfo[ids[i]].fInTried <==> n0 <= i)
    ensures SlotsUsable(f) && |f.news| == n0 && |f.trieds| == |ids| - n0 && n0 <= |ids|
    ensures if i < n0 then f.news[i] == ToDisk(t.mapInfo[ids[i]]) else f.trieds[i - n0] == ToDisk(t.mapInfo[ids[i]])
  {
  }

  lemma NothingRead(h: Hasher, t: Tables, ids: seq<int>, n0: nat, f: File)
    requires Enumerates(t.mapInfo, ids, n0)
    ensures Read(h, t, ids, n0, Blank(f), 0)
  {
  }

  lemma LoadNewStep(h: Hasher, f: File, n: nat)
    requires SlotsUsable(f) && 0 < n <= |f.news|
    ensures LoadNew(h, f, n) == Append(LoadNew(h, f, n - 1), n - 1, FromDisk(f.news[n - 1]).(fInTried := false))
    ensures LoadNew(h, f, n).nNew == LoadNew(h, f, n - 1).nNew && LoadNew(h, f, n).nTried == LoadNew(h, f, n - 1).nTried
  {
  }

  lemma LoadTriedBase(h: Hasher, f: File)
    ensures LoadTried(h, f, 0) == LoadNew(h, f, |f.news|).(nIdCount := f.nNew)
  {
  }

  lemma LoadTriedStep(h: Hasher, f: File, n: nat)
    requires 0 < n <= |f.trieds|
    requires h.TriedSlot(f.trieds[n - 1].addr.service) !in LoadTried(h, f, n - 1).vvTried
    ensures var t, r := LoadTried(h, f, n - 1), LoadTried(h, f, n);
            && r == Append(t, t.nIdCount, FromDisk(f.trieds[n - 1]).(fInTried := true)).(
                      vvTried := t.vvTried[h.TriedSlot(f.trieds[n - 1].addr.service) := t.nIdCount],
                        nIdCount := t.nIdCount + 1)
            && r.nNew == t.nNew && r.nTried == t.nTried && r.nIdCount == t.nIdCount + 1
  {
  }

  lemma ReadIgnoresCounters(h: Hasher, t: Tables, ids: seq<int>, n0: nat, r: Tables, c: nat, n: int)
    requires Enumerates(t.mapInfo, ids, n0) && c <= |ids| && Read(h, t, ids, n0, r, c)
    ensures Read(h, t, ids, n0, r.(nIdCount := n), c)
  {
  }

  lemma {:induction false} LoadTriedReads(h: Hasher, f: File, t: Tables, ids: seq<int>, k: nat)
    requires f.nNew >= 0 && Consistent(h, t) && Enumerates(t.mapInfo, ids, f.nNew) && Stores(f, t, ids, f.nNew)
    requires |f.news| == f.nNew && k <= |f.trieds| && f.nNew + |f.trieds| == |ids|
    ensures var r := LoadTried(h, f, k);
            Read(h, t, ids, f.nNew, r, f.nNew + k) && r.nNew == f.nNew && r.nTried == f.nTried &&
              r.nIdCount == f.nNew + k
  {
    hide Inv, Enumerates, Read, Stores, Append, LoadNew, LoadTried;
    if k == 0 {
      LoadTriedBase(h, f);
      LoadNewReads(h, f, t, ids, f.nNew);
      ReadIgnoresCounters(h, t, ids, f.nNew, LoadNew(h, f, f.nNew), f.nNew, f.nNew);
    } else {
      LoadTriedReads(h, f, t, ids, k - 1);
      var c := f.nNew + k - 1;
      StoredAt(f, t, ids, f.nNew, c);
      ReadOne(h, t, ids, f.nNew, LoadTried(h, f, k - 1), c);
      LoadTriedStep(h, f, k);
      var e := t.mapInfo[ids[c]];
      var r' := Append(LoadTried(h, f, k - 1), c, FromDisk(ToDisk(e)).(fInTried := e.fInTried));
      ReadIgnoresCounters(h, t, ids, f.nNew,
        r'.(vvTried := LoadTried(h, f, k - 1).vvTried[h.TriedSlot(e.Service()) := c]), c + 1, c + 1);
    }
  }

  lemma {:induction false} LoadNewReads(h: Hasher, f: File, t: Tables, ids: seq<int>, n: nat)
    requires f.nNew >= 0 && Consistent(h, t) && Enumerates(t.mapInfo, ids, f.nNew) && Stores(f, t, ids, f.nNew)
    requires n <= |f.news| == f.nNew <= |ids|
    ensures var r := LoadNew(h, f, n); Read(h, t, ids, f.nNew, r, n) && r.nNew == f.nNew && r.nTried == f.nTried
  {
    hide Inv, Enumerates, ReadInfos, ReadAddrs, ReadTrieds, HomeSlot, Stores, Append, ToDisk, FromDisk;
    if n == 0 {
      NothingRead(h, t, ids, f.nNew, f);
    } else {
      LoadNewReads(h, f, t, ids, n - 1);
      StoredAt(f, t, ids, f.nNew, n - 1);
      ReadOne(h, t, ids, f.nNew, LoadNew(h, f, n - 1), n - 1);
      LoadNewStep(h, f, n);
    }
  }
}
