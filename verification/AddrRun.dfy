/**
 * Every run of the address manager keeps everything its debug check looks at.
 */
module AddrRun {
  import opened AddrTables
  import opened AddrInv
  import opened AddrOps

  // ----------------------------------------------------------------- statistics

  /** An entry without its places in the tables. */
  function Stats(e: Info): Info {
    e.(nRefCount := 0, fInTried := false, nRandomPos := 0)
  }

  /** No entry is added or changes its statistics, and only `promoted` ones become tried. */
  ghost predicate StatsKept(m: map<int, Info>, m': map<int, Info>, promoted: set<int>) {
    forall id :: id in m' ==>
      id in m && Stats(m'[id]) == Stats(m[id]) && (m'[id].fInTried ==> m[id].fInTried || id in promoted)
  }

  lemma StatsKeptTwice(m: map<int, Info>, m': map<int, Info>, m'': map<int, Info>, promoted: set<int>)
    requires StatsKept(m, m', promoted) && StatsKept(m', m'', promoted)
    ensures StatsKept(m, m'', promoted)
  {
  }

  lemma UpdateStats(m: map<int, Info>, id: int, e: Info, promoted: set<int>)
    requires id in m ==> Stats(e) == Stats(m[id]) && (e.fInTried ==> m[id].fInTried || id in promoted)
    ensures id in m ==> StatsKept(m, m[id := e], promoted)
    ensures StatsKept(m, m, promoted)
  {
  }

  lemma SwapStats(t: Tables, i: nat, j: nat, promoted: set<int>)
    requires i < |t.vRandom| && j < |t.vRandom| && t.vRandom[i] in t.mapInfo && t.vRandom[j] in t.mapInfo
    ensures StatsKept(t.mapInfo, SwapRandom(t, i, j).mapInfo, promoted)
  {
  }

  lemma DeleteStats(t: Tables, id: int, promoted: set<int>)
    requires id in t.mapInfo && RandomOrder(t.mapInfo, t.vRandom)
    ensures StatsKept(t.mapInfo, Delete(t, id).mapInfo, promoted)
  {
    SwapStats(t, t.mapInfo[id].nRandomPos, |t.vRandom| - 1, promoted);
  }

  lemma ClearNewStats(t: Tables, s: Slot, promoted: set<int>)
    requires s in t.vvNew ==> t.vvNew[s] in t.mapInfo && RandomOrder(t.mapInfo, t.vRandom)
    ensures StatsKept(t.mapInfo, ClearNew(t, s).mapInfo, promoted)
  {
    hide StatsKept, Delete, RandomOrder;
    if s in t.vvNew {
      var id := t.vvNew[s];
      var r := Release(t, s);
      UpdateStats(t.mapInfo, id, r.mapInfo[id], promoted);
      if r.mapInfo[id].nRefCount == 0 {
        ReleaseStaysOrdered(t, s);
        DeleteStats(r, id, promoted);
        StatsKeptTwice(t.mapInfo, r.mapInfo, Delete(r, id).mapInfo, promoted);
      }
    } else {
      SelfStats(t.mapInfo, promoted);
    }
  }

  lemma SelfStats(m: map<int, Info>, promoted: set<int>)
    ensures StatsKept(m, m, promoted)
  {
  }

  lemma ReleaseStaysOrdered(t: Tables, s: Slot)
    requires s in t.vvNew && t.vvNew[s] in t.mapInfo && RandomOrder(t.mapInfo, t.vRandom)
    ensures RandomOrder(Release(t, s).mapInfo, t.vRandom)
  {
  }

  lemma DemoteStats(h: Hasher, t: Tables, id: int, promoted: set<int>)
    requires id in t.mapInfo && Sane(t)
    ensures StatsKept(t.mapInfo, Demote(h, t, id).mapInfo, promoted)
  {
    hide StatsKept, ClearNew, HomeSlot;
    var s := HomeSlot(h, t.mapInfo[id]);
    var a := Evict(h, t, id);
    UpdateStats(t.mapInfo, id, a.mapInfo[id], promoted);
    EvictIsSane(h, t, id);
    ClearNewStats(a, s, promoted);
    var r := ClearNew(a, s);
    StatsKeptTwice(t.mapInfo, a.mapInfo, r.mapInfo, promoted);
    if id in r.mapInfo {
      UpdateStats(r.mapInfo, id, Occupy(r, s, id).mapInfo[id], promoted);
      StatsKeptTwice(t.mapInfo, r.mapInfo, Occupy(r, s, id).mapInfo, promoted);
    }
  }

  lemma EvictIsSane(h: Hasher, t: Tables, id: int)
    requires id in t.mapInfo && Sane(t)
    ensures Sane(Evict(h, t, id))
  {
  }

  lemma MakeTriedStats(h: Hasher, t: Tables, id: int)
    requires id in t.mapInfo && Sane(t)
    ensures StatsKept(t.mapInfo, MakeTried(h, t, id).mapInfo, {id})
  {
    hide StatsKept, Demote, Sane;
    var s := h.TriedSlot(t.mapInfo[id].Service());
    var a := LeaveNew(t, id);
    LeaveNewIsSane(t, id);
    UpdateStats(t.mapInfo, id, a.mapInfo[id], {id});
    var b := a;
    if s in t.vvTried {
      TriedIsEntry(t, s);
      b := Demote(h, a, t.vvTried[s]);
      DemoteStats(h, a, t.vvTried[s], {id});
      StatsKeptTwice(t.mapInfo, a.mapInfo, b.mapInfo, {id});
    }
    if id in b.mapInfo {
      UpdateStats(b.mapInfo, id, Settle(h, b, id).mapInfo[id], {id});
      StatsKeptTwice(t.mapInfo, b.mapInfo, Settle(h, b, id).mapInfo, {id});
    }
  }

  lemma TriedIsEntry(t: Tables, s: Slot)
    requires Sane(t) && s in t.vvTried
    ensures t.vvTried[s] in t.mapInfo
  {
  }

  lemma LeaveNewIsSane(t: Tables, id: int)
    requires id in t.mapInfo && Sane(t)
    ensures Sane(LeaveNew(t, id))
  {
  }

  lemma PlaceStats(h: Hasher, t: Tables, id: int, source: NetAddr, now: int)
    requires id in t.mapInfo && Sane(t)
    ensures StatsKept(t.mapInfo, Place(h, t, id, source, now).mapInfo, {})
  {
    hide StatsKept, ClearNew, Delete, Info.IsTerrible, RandomOrder;
    var s := h.NewSlot(t.mapInfo[id].Service(), source);
    SelfStats(t.mapInfo, {});
    ClearNewStats(t, s, {});
    DeleteStats(t, id, {});
    var r := ClearNew(t, s);
    if id in r.mapInfo {
      UpdateStats(r.mapInfo, id, Occupy(r, s, id).mapInfo[id], {});
      StatsKeptTwice(t.mapInfo, r.mapInfo, Occupy(r, s, id).mapInfo, {});
    }
  }

  // ---------------------------------------------------------------------- times

  /** No negative times, and no tried entry without a success. */
  ghost predicate Timely(m: map<int, Info>) {
    forall id :: id in m ==>
      m[id].nLastTry >= 0 && m[id].nLastSuccess >= 0 && (m[id].fInTried ==> m[id].nLastSuccess != 0)
  }

  lemma StatsKeepTimes(m: map<int, Info>, m': map<int, Info>, promoted: set<int>)
    requires StatsKept(m, m', promoted) && Timely(m)
    requires forall id :: id in promoted && id in m ==> m[id].nLastSuccess != 0
    ensures Timely(m')
  {
    forall id: int | id in m'
      ensures m'[id].nLastTry >= 0 && m'[id].nLastSuccess >= 0 && (m'[id].fInTried ==> m'[id].nLastSuccess != 0)
    {
      assert id in m && Stats(m'[id]) == Stats(m[id]);
      assert Stats(m[id]).nLastTry == m[id].nLastTry && Stats(m[id]).nLastSuccess == m[id].nLastSuccess;
    }
  }

  lemma UpdateTimes(m: map<int, Info>, id: int, e: Info)
    requires Timely(m) && e.nLastTry >= 0 && e.nLastSuccess >= 0 && (e.fInTried ==> e.nLastSuccess != 0)
    ensures Timely(m[id := e])
  {
  }

  lemma TimesAt(m: map<int, Info>, id: int)
    requires Timely(m) && id in m
    ensures m[id].nLastTry >= 0 && m[id].nLastSuccess >= 0 && (m[id].fInTried ==> m[id].nLastSuccess != 0)
  {
  }

  /** Reporting a known address as good keeps the times right exactly when the time is positive. */
  lemma GoodTimes(h: Hasher, t: Tables, s: Service, time: int)
    requires Consistent(h, t) && Sane(t) && Timely(t.mapInfo)
    ensures Timely(Good(h, t, s, time).mapInfo) <==> time > 0 || FindService(t, s).None?
  {
    hide Inv, Sane, Timely, MakeTried, InSomeBucket, StatsKept;
    var id := FindService(t, s);
    if id.Some? {
      var e := Succeeded(t.mapInfo[id.value], time);
      if time > 0 {
        UpdateTimes(t.mapInfo, id.value, e);
        UpdateIsSane(t, id.value, e);
        var u := Update(t, id.value, e);
        MakeTriedStats(h, u, id.value);
        StatsKeepTimes(u.mapInfo, MakeTried(h, u, id.value).mapInfo, {id.value});
      } else {
        GoodKeepsConsistent(h, t, s, time);
        if Timely(Good(h, t, s, time).mapInfo) {
          TimesAt(Good(h, t, s, time).mapInfo, id.value);
        }
      }
    }
  }

  lemma AddTimes(h: Hasher, t: Tables, addr: Address, source: NetAddr, penalty: int, now: int, rnd: nat)
    requires Sane(t) && Timely(t.mapInfo) && t.nIdCount !in t.mapInfo
    ensures Timely(Add(h, t, addr, source, penalty, now, rnd).mapInfo)
  {
    hide Sane, Timely, Place, StatsKept;
    var id := Find(t, addr.service.ip);
    if id.Some? {
      var e := Refreshed(t.mapInfo[id.value], addr, penalty, now);
      TimesAt(t.mapInfo, id.value);
      UpdateTimes(t.mapInfo, id.value, e);
      UpdateIsSane(t, id.value, e);
      var u := Update(t, id.value, e);
      PlaceStats(h, u, id.value, source, now);
      StatsKeepTimes(u.mapInfo, Place(h, u, id.value, source, now).mapInfo, {});
    } else {
      var c := Introduce(t, addr, source, penalty);
      IntroduceIsSane(t, addr, source, penalty);
      UpdateTimes(t.mapInfo, t.nIdCount, c.mapInfo[t.nIdCount]);
      PlaceStats(h, c, t.nIdCount, source, now);
      StatsKeepTimes(c.mapInfo, Place(h, c, t.nIdCount, source, now).mapInfo, {});
    }
  }

  // ---------------------------------------------------------- handing out addresses

  lemma {:induction false} SameGoodOnes(m: map<int, Info>, m': map<int, Info>, ids: seq<int>, now: int)
    requires AllKept(m, m', {}) && forall i :: 0 <= i < |ids| ==> ids[i] in m && ids[i] in m'
    ensures GoodOnes(m', ids, now) == GoodOnes(m, ids, now)
  {
    if ids != [] {
      SameGoodOnes(m, m', ids[..|ids| - 1], now);
      AllKeptAt(m, m', {}, ids[|ids| - 1]);
    }
  }

  /** `r` is `t` with another random order. */
  ghost predicate Reordered(h: Hasher, t: Tables, r: Tables) {
    && Consistent(h, r) && AllKept(t.mapInfo, r.mapInfo, {}) && StatsKept(t.mapInfo, r.mapInfo, {})
    && |r.vRandom| == |t.vRandom| && r.nIdCount == t.nIdCount && r.vvNew == t.vvNew && r.vvTried == t.vvTried
    && RandomOrder(r.mapInfo, r.vRandom) && forall i :: 0 <= i < |r.vRandom| ==> r.vRandom[i] in r.mapInfo
  }

  lemma ReorderedTwice(h: Hasher, t: Tables, s: Tables, r: Tables)
    requires Reordered(h, t, s) && Reordered(h, s, r)
    ensures Reordered(h, t, r)
  {
    hide Inv, RandomOrder, AllKept, StatsKept;
    KeptTwiceNone(t.mapInfo, s.mapInfo, r.mapInfo);
    StatsKeptTwice(t.mapInfo, s.mapInfo, r.mapInfo, {});
  }

  lemma ReorderedSelf(h: Hasher, t: Tables)
    requires Consistent(h, t)
    ensures Reordered(h, t, t)
  {
    hide AllKept, StatsKept, NewTable, TriedTable, AddrIndex, Counted, RandomOrder;
    KeptSelf(t.mapInfo);
    SelfStats(t.mapInfo, {});
    PlacesAreIds(t.mapInfo, t.vRandom);
  }

  lemma SwapReorders(h: Hasher, t: Tables, i: nat, j: nat)
    requires Reordered(h, t, t) && i < |t.vRandom| && j < |t.vRandom|
    ensures Reordered(h, t, SwapRandom(t, i, j))
  {
    hide Inv, RandomOrder, AllKept, SwapRandom, StatsKept;
    var s := SwapRandom(t, i, j);
    SwapKeepsInv(h, t, i, j, {}, 0);
    SwapStaysOrdered(t, i, j);
    SwapKeepsAll(t, i, j);
    SwapStats(t, i, j, {});
    PlacesAreIds(s.mapInfo, s.vRandom);
  }

  /** Passing one more entry leaves the good ones passed before as they were. */
  lemma PassedBefore(h: Hasher, t: Tables, n: nat, j: nat, now: int)
    requires Reordered(h, t, t) && n <= j < |t.vRandom| && Reordered(h, t, SwapRandom(t, n, j))
    ensures var s := SwapRandom(t, n, j);
            && s.vRandom[..n + 1][..n] == s.vRandom[..n]
            && GoodOnes(s.mapInfo, s.vRandom[..n], now) == GoodOnes(t.mapInfo, t.vRandom[..n], now)
            && GoodOnes(s.mapInfo, s.vRandom[..n + 1], now) == GoodOnes(t.mapInfo, t.vRandom[..n], now) +
                 if s.mapInfo[s.vRandom[n]].IsTerrible(now) then [] else [s.mapInfo[s.vRandom[n]].addr]
  {
    hide Inv, RandomOrder, AllKept, SwapRandom, StatsKept, Info.IsTerrible;
    var s := SwapRandom(t, n, j);
    SwapPrefix(t, n, j);
    SameGoodOnes(t.mapInfo, s.mapInfo, t.vRandom[..n], now);
    assert s.vRandom[..n + 1][..n] == s.vRandom[..n];
  }

  lemma ShuffleUnfolds(t: Tables, n: nat, limit: nat, now: int, rnd: nat -> nat)
    requires RandomOrder(t.mapInfo, t.vRandom) && n <= |t.vRandom|
    requires forall i :: 0 <= i < |t.vRandom| ==> t.vRandom[i] in t.mapInfo
    ensures if n == |t.vRandom| || |GoodOnes(t.mapInfo, t.vRandom[..n], now)| >= limit
            then Shuffle(t, n, limit, now, rnd) == (t, n)
            else var s := SwapRandom(t, n, n + rnd(n) % (|t.vRandom| - n));
                 && RandomOrder(s.mapInfo, s.vRandom) && |s.vRandom| == |t.vRandom|
                 && Shuffle(t, n, limit, now, rnd) == Shuffle(s, n + 1, limit, now, rnd)
  {
    hide RandomOrder, SwapRandom, GoodOnes;
    if n < |t.vRandom| {
      SwapStaysOrdered(t, n, n + rnd(n) % (|t.vRandom| - n));
    }
  }

  /**
   * Shuffling keeps the tables and stops with enough good addresses, or having
   * passed every entry; it never passes more good ones than asked for.
   */
  lemma {:induction false} ShuffleKeeps(h: Hasher, t: Tables, n: nat, limit: nat, now: int, rnd: nat -> nat)
    requires Reordered(h, t, t) && n <= |t.vRandom| && |GoodOnes(t.mapInfo, t.vRandom[..n], now)| <= limit
    ensures var (r, k) := Shuffle(t, n, limit, now, rnd);
            && Reordered(h, t, r) && n <= k <= |r.vRandom|
            && |GoodOnes(r.mapInfo, r.vRandom[..k], now)| <= limit
            && (k == |r.vRandom| || |GoodOnes(r.mapInfo, r.vRandom[..k], now)| == limit)
    decreases |t.vRandom| - n
  {
    hide Inv, AllKept, SwapRandom, StatsKept, GoodOnes, RandomOrder;
    if n < |t.vRandom| && |GoodOnes(t.mapInfo, t.vRandom[..n], now)| < limit {
      var j := n + rnd(n) % (|t.vRandom| - n);
      var s := SwapRandom(t, n, j);
      SwapReorders(h, t, n, j);
      PassedBefore(h, t, n, j, now);
      ReorderedSelf(h, s);
      ShuffleKeeps(h, s, n + 1, limit, now, rnd);
      ReorderedTwice(h, t, s, Shuffle(t, n, limit, now, rnd).0);
    }
  }

  lemma SwapPrefix(t: Tables, i: nat, j: nat)
    requires i <= j < |t.vRandom| && t.vRandom[i] in t.mapInfo && t.vRandom[j] in t.mapInfo
    ensures |SwapRandom(t, i, j).vRandom| == |t.vRandom| && SwapRandom(t, i, j).vRandom[..i] == t.vRandom[..i]
    ensures forall k :: 0 <= k < i && t.vRandom[k] in t.mapInfo ==> t.vRandom[k] in SwapRandom(t, i, j).mapInfo
  {
  }

  lemma KeptTwiceNone(m: map<int, Info>, m': map<int, Info>, m'': map<int, Info>)
    requires AllKept(m, m', {}) && AllKept(m', m'', {})
    ensures AllKept(m, m'', {})
  {
    KeptTwice(m, m', m'', {}, {});
    KeptMore(m, m'', {}, {});
  }

  lemma {:induction false} GoodOnesComplete(m: map<int, Info>, ids: seq<int>, now: int, i: nat)
    requires (forall j :: 0 <= j < |ids| ==> ids[j] in m) && i < |ids| && !m[ids[i]].IsTerrible(now)
    ensures m[ids[i]].addr in GoodOnes(m, ids, now)
  {
    hide Info.IsTerrible;
    if i < |ids| - 1 {
      GoodOnesComplete(m, ids[..|ids| - 1], now, i);
    }
  }

  lemma {:induction false} GoodOnesSound(m: map<int, Info>, ids: seq<int>, now: int, a: Address)
    requires (forall j :: 0 <= j < |ids| ==> ids[j] in m) && a in GoodOnes(m, ids, now)
    ensures exists i :: 0 <= i < |ids| && m[ids[i]].addr == a && !m[ids[i]].IsTerrible(now)
  {
    hide Info.IsTerrible;
    var last := m[ids[|ids| - 1]];
    if last.IsTerrible(now) || a != last.addr {
      GoodOnesSound(m, ids[..|ids| - 1], now, a);
      var i :| 0 <= i < |ids| - 1 && m[ids[..|ids| - 1][i]].addr == a && !m[ids[..|ids| - 1][i]].IsTerrible(now);
      assert m[ids[i]].addr == a;
    } else {
      assert m[ids[|ids| - 1]].addr == a;
    }
  }

  /** An answer lists only good entries, at most the limit, and all of them when it falls short. */
  lemma AnswerIsFair(h: Hasher, t: Tables, now: int, order: nat -> nat)
    requires Consistent(h, t) && RandomOrder(t.mapInfo, t.vRandom)
    ensures var (r, k) := Shuffle(t, 0, GetAddrLimit(t), now, order);
            && Reordered(h, t, r) && k <= |r.vRandom|
            && var answer := GoodOnes(r.mapInfo, r.vRandom[..k], now);
               && |answer| <= GetAddrLimit(t)
               && (forall a :: a in answer ==>
                   exists i :: 0 <= i < k && r.mapInfo[r.vRandom[i]].addr == a &&
                     !r.mapInfo[r.vRandom[i]].IsTerrible(now))
               && (|answer| < GetAddrLimit(t) ==> forall id :: id in r.mapInfo && !r.mapInfo[id].IsTerrible(now) ==>
                   r.mapInfo[id].addr in answer)
  {
    hide Inv, Shuffle, GetAddrLimit, GoodOnes, Info.IsTerrible, StatsKept, AllKept, RandomOrder;
    ReorderedSelf(h, t);
    NothingPassed(t, now);
    ShuffleKeeps(h, t, 0, GetAddrLimit(t), now, order);
    var (r, k) := Shuffle(t, 0, GetAddrLimit(t), now, order);
    var ids := r.vRandom[..k];
    var answer := GoodOnes(r.mapInfo, ids, now);
    forall a | a in answer
      ensures exists i :: 0 <= i < k && r.mapInfo[r.vRandom[i]].addr == a && !r.mapInfo[r.vRandom[i]].IsTerrible(now)
    {
      GoodOnesSound(r.mapInfo, ids, now, a);
      var i :| 0 <= i < |ids| && r.mapInfo[ids[i]].addr == a && !r.mapInfo[ids[i]].IsTerrible(now);
      assert ids[i] == r.vRandom[i];
    }
    if |answer| < GetAddrLimit(t) {
      forall id: int | id in r.mapInfo && !r.mapInfo[id].IsTerrible(now) ensures r.mapInfo[id].addr in answer {
        PlaceOf(r.mapInfo, r.vRandom, id);
        GoodOnesComplete(r.mapInfo, ids, now, r.mapInfo[id].nRandomPos);
      }
    }
  }

  lemma PlaceOf(m: map<int, Info>, v: seq<int>, id: int)
    requires RandomOrder(m, v) && id in m
    ensures 0 <= m[id].nRandomPos < |v| && v[m[id].nRandomPos] == id
  {
  }

  // ------------------------------------------------------------------- the check

  /** What the debug check demands, condition by condition. */
  ghost predicate Check(h: Hasher, t: Tables, nKey: nat) {
    && TablesCheck(h, t) && nKey != 0
  }

  ghost predicate TablesCheck(h: Hasher, t: Tables) {
    && |t.vRandom| == t.nTried + t.nNew
    && (forall id :: id in t.mapInfo ==> EntryChecks(t, id))
    && |TriedIds(t.mapInfo)| == t.nTried && |NewIds(t.mapInfo)| == t.nNew
    && (forall s :: s in t.vvTried ==>
          t.vvTried[s] in TriedIds(t.mapInfo) && s == h.TriedSlot(t.mapInfo[t.vvTried[s]].Service()))
    && (forall s :: s in t.vvNew ==>
          t.vvNew[s] in NewIds(t.mapInfo) && s == h.NewSlotIn(t.mapInfo[t.vvNew[s]].Service(), s.bucket))
    && (forall id :: id in TriedIds(t.mapInfo) ==> |SlotsOf(t.vvTried, id)| == 1)
    && (forall id :: id in NewIds(t.mapInfo) ==> |SlotsOf(t.vvNew, id)| == t.mapInfo[id].nRefCount)
  }

  predicate EntryChecks(t: Tables, id: int)
    requires id in t.mapInfo
  {
    var e := t.mapInfo[id];
    && (if e.fInTried then e.nLastSuccess != 0 && e.nRefCount == 0 else 0 < e.nRefCount <= NEW_BUCKETS_PER_ADDRESS)
    && (if e.Ip() in t.mapAddr then t.mapAddr[e.Ip()] else 0) == id
    && 0 <= e.nRandomPos < |t.vRandom| && t.vRandom[e.nRandomPos] == id
    && e.nLastTry >= 0 && e.nLastSuccess >= 0
  }

  /** Consistent tables pass, with any key but the null one. */
  lemma ConsistentPassesCheck(h: Hasher, t: Tables, nKey: nat)
    requires Consistent(h, t) && Timely(t.mapInfo)
    ensures Check(h, t, nKey) <==> nKey != 0
  {
    hide TablesCheck, EntryChecks, NewTable, TriedTable, AddrIndex, RandomOrder, Timely, TriedIds, NewIds;
    OrderCoversEntries(t.mapInfo, t.vRandom);
    CheckParts(h, t);
  }

  lemma CheckParts(h: Hasher, t: Tables)
    requires Consistent(h, t) && Timely(t.mapInfo) && |t.vRandom| == t.nTried + t.nNew
    ensures TablesCheck(h, t)
  {
    forall id | id in TriedIds(t.mapInfo) ensures |SlotsOf(t.vvTried, id)| == 1 {
      var s := h.TriedSlot(t.mapInfo[id].Service());
      assert SlotsOf(t.vvTried, id) == {s};
    }
    forall s | s in t.vvNew ensures t.vvNew[s] in NewIds(t.mapInfo) {
      NewSlotAt(h, t, {}, 0, s);
    }
  }

  /** As many places in the random order as entries of both kinds. */
  lemma OrderCoversEntries(m: map<int, Info>, v: seq<int>)
    requires RandomOrder(m, v)
    ensures |v| == |TriedIds(m)| + |NewIds(m)|
  {
    OrderIsInjective(m, v);
    DistinctCount(v);
    var all := set i | 0 <= i < |v| :: v[i];
    forall id: int ensures id in all <==> id in TriedIds(m) + NewIds(m) {
      if id in m {
        assert v[m[id].nRandomPos] == id;
      }
    }
    assert all == TriedIds(m) + NewIds(m);
    assert TriedIds(m) !! NewIds(m);
  }

  lemma OrderIsInjective(m: map<int, Info>, v: seq<int>)
    requires RandomOrder(m, v)
    ensures forall i, j :: 0 <= i < j < |v| ==> v[i] != v[j]
  {
  }

  lemma {:induction false} DistinctCount(v: seq<int>)
    requires forall i, j :: 0 <= i < j < |v| ==> v[i] != v[j]
    ensures |set i | 0 <= i < |v| :: v[i]| == |v|
  {
    if v != [] {
      var u := v[..|v| - 1];
      DistinctCount(u);
      var a, b := set i | 0 <= i < |v| :: v[i], set i | 0 <= i < |u| :: u[i];
      var x := v[|v| - 1];
      forall y: int ensures y in a <==> y in b + {x} {
        if y in b {
          var i :| 0 <= i < |u| && u[i] == y;
          assert v[i] == y;
        }
        if y in a {
          var i :| 0 <= i < |v| && v[i] == y;
          if i < |u| {
            assert u[i] == y;
          }
        }
      }
      assert a == b + {x};
      assert x !in b;
    }
  }

  // ----------------------------------------------------------------------- runs

  datatype State = State(t: Tables, nLastGood: int)

  datatype Op =
    | OpAdd(addr: Address, source: NetAddr, penalty: int, now: int, rnd: nat)
    | OpGood(service: Service, time: int)
    | OpAttempt(service: Service, countFailure: bool, time: int)
    | OpConnected(service: Service, time: int)
    | OpGetAddr(now: int, order: nat -> nat)

  ghost function Exec(h: Hasher, st: State, op: Op): State
    requires Sane(st.t) && st.t.nIdCount !in st.t.mapInfo
  {
    match op
    case OpAdd(addr, source, penalty, now, rnd) => st.(t := Add(h, st.t, addr, source, penalty, now, rnd))
    case OpGood(s, time) => State(Good(h, st.t, s, time), time)
    case OpAttempt(s, countFailure, time) => st.(t := Attempt(st.t, s, countFailure, time, st.nLastGood))
    case OpConnected(s, time) => st.(t := Connected(st.t, s, time))
    case OpGetAddr(now, order) => st.(t := Shuffle(st.t, 0, GetAddrLimit(st.t), now, order).0)
  }

  predicate PositiveTime(op: Op) {
    match op
    case OpGood(_, time) => time > 0
    case OpAttempt(_, _, time) => time > 0
    case OpConnected(_, time) => time > 0
    case _ => true
  }

  lemma ExecKeepsInvariant(h: Hasher, st: State, op: Op)
    requires Consistent(h, st.t) && Timely(st.t.mapInfo) && PositiveTime(op)
    requires Sane(st.t) && st.t.nIdCount !in st.t.mapInfo
    ensures Consistent(h, Exec(h, st, op).t) && Timely(Exec(h, st, op).t.mapInfo)
  {
    hide Inv, Sane, Timely, Good, Add, Shuffle, GetAddrLimit, Refreshed, MayGetSlot, StatsKept, AllKept, RandomOrder,
      GoodOnes, Info.IsTerrible;
    match op
    case OpAdd(addr, source, penalty, now, rnd) =>
      AddKeepsConsistent(h, st.t, addr, source, penalty, now, rnd);
      AddTimes(h, st.t, addr, source, penalty, now, rnd);
    case OpGood(s, time) =>
      GoodKeepsConsistent(h, st.t, s, time);
      GoodTimes(h, st.t, s, time);
    case OpAttempt(s, countFailure, time) =>
      var id := FindService(st.t, s);
      if id.Some? {
        var e := Attempted(st.t.mapInfo[id.value], countFailure, time, st.nLastGood);
        TimesAt(st.t.mapInfo, id.value);
        UpdateKeepsInv(h, st.t, id.value, e, {}, 0);
        UpdateTimes(st.t.mapInfo, id.value, e);
      }
    case OpConnected(s, time) =>
      var id := FindService(st.t, s);
      if id.Some? {
        var f := st.t.mapInfo[id.value];
        var e := f.(addr := f.addr.(nTime := ToUint32(time)));
        TimesAt(st.t.mapInfo, id.value);
        UpdateKeepsInv(h, st.t, id.value, e, {}, 0);
        UpdateTimes(st.t.mapInfo, id.value, e);
      }
    case OpGetAddr(now, order) =>
      ReorderedSelf(h, st.t);
      NothingPassed(st.t, now);
      ShuffleKeeps(h, st.t, 0, GetAddrLimit(st.t), now, order);
      StatsKeepTimes(st.t.mapInfo, Exec(h, st, op).t.mapInfo, {});
  }

  lemma NothingPassed(t: Tables, now: int)
    ensures t.vRandom[..0] == [] && GoodOnes(t.mapInfo, [], now) == []
  {
  }

  lemma ConsistentIsSane(h: Hasher, t: Tables)
    requires Consistent(h, t)
    ensures Sane(t) && t.nIdCount !in t.mapInfo
  {
  }

  ghost function ExecAll(h: Hasher, st: State, ops: seq<Op>): State
    requires Consistent(h, st.t) && Timely(st.t.mapInfo) && forall i :: 0 <= i < |ops| ==> PositiveTime(ops[i])
    decreases |ops|
  {
    if ops == [] then st
    else
      ConsistentIsSane(h, st.t);
      ExecKeepsInvariant(h, st, ops[0]);
      ExecAll(h, Exec(h, st, ops[0]), ops[1..])
  }

  /** From any consistent tables, every run with positive times passes the check at its end. */
  lemma {:induction false} EveryRunPassesCheck(h: Hasher, st: State, ops: seq<Op>, nKey: nat)
    requires Consistent(h, st.t) && Timely(st.t.mapInfo) && forall i :: 0 <= i < |ops| ==> PositiveTime(ops[i])
    ensures var r := ExecAll(h, st, ops).t;
            Consistent(h, r) && Timely(r.mapInfo) && (Check(h, r, nKey) <==> nKey != 0)
    decreases |ops|
  {
    hide Inv, Timely, Check, Exec, Sane, PositiveTime;
    if ops == [] {
      ConsistentPassesCheck(h, st.t, nKey);
    } else {
      ConsistentIsSane(h, st.t);
      ExecKeepsInvariant(h, st, ops[0]);
      EveryRunPassesCheck(h, Exec(h, st, ops[0]), ops[1..], nKey);
    }
  }

  lemma FreshManagerIsConsistent(h: Hasher)
    ensures Consistent(h, EmptyTables) && Timely(EmptyTables.mapInfo)
  {
  }

  /** Clearing empties the tables and counters but neither of the two maps. */
  function Cleared(t: Tables): Tables {
    t.(nIdCount := 0, vRandom := [], nTried := 0, nNew := 0, vvTried := map[], vvNew := map[])
  }

  /** So it leaves a consistent manager exactly when there was nothing to clear. */
  lemma ClearedIsConsistent(h: Hasher, h': Hasher, t: Tables)
    requires Consistent(h, t)
    ensures var r := Cleared(t);
            && (forall s :: s !in r.vvNew && s !in r.vvTried) && |r.vRandom| == 0
            && r.nNew == r.nTried == r.nIdCount == 0 && r.mapInfo == t.mapInfo && r.mapAddr == t.mapAddr
    ensures Consistent(h', Cleared(t)) <==> t.mapInfo == map[]
  {
    if t.mapInfo == map[] {
      assert forall a :: a !in t.mapAddr;
      assert Cleared(t) == EmptyTables;
      FreshManagerIsConsistent(h');
    }
    if Consistent(h', Cleared(t)) {
      assert forall id :: id !in t.mapInfo;
      assert t.mapInfo == map[];
    }
  }
}
