/**
 * How the address manager spreads addresses, so that nobody can fill its tables
 * from one place: a range of addresses has few tried buckets, a range of sources
 * few new ones, and an address gets further slots ever more rarely.
 */
module AddrSpread {
  import opened Common
  import opened Powers
  import opened AddrTables
  import opened AddrInv
  import opened AddrOps
  import opened AddrRun
  import AddrStats
  import AddrRoundTrip

  // ------------------------------------------------------------------- further slots

  /** Whether the new slot given by a source has no occupant, or a terrible one that is not this entry. */
  predicate SlotFor(h: Hasher, t: Tables, id: int, source: NetAddr, now: int)
    requires id in t.mapInfo && forall s :: s in t.vvNew ==> t.vvNew[s] in t.mapInfo
  {
    var s := h.NewSlot(t.mapInfo[id].Service(), source);
    s !in t.vvNew || (t.vvNew[s] != id && t.mapInfo[t.vvNew[s]].IsTerrible(now))
  }

  lemma PlaceCounts(h: Hasher, t: Tables, id: int, source: NetAddr, now: int)
    requires Consistent(h, t) && Sane(t) && id in t.mapInfo && !t.mapInfo[id].fInTried
    ensures var n := t.mapInfo[id].nRefCount;
            var r := Place(h, t, id, source, now);
            id in r.mapInfo && r.mapInfo[id].nRefCount == if SlotFor(h, t, id, source, now) then n + 1 else n
  {
    hide Inv, ClearNew, Delete, AllKept, Info.IsTerrible, RandomOrder;
    var s := h.NewSlot(t.mapInfo[id].Service(), source);
    EntryAt(h, t, {}, 0, id);
    ClearNewKeepsInv(h, t, s, {}, 0);
    if s !in t.vvNew || t.vvNew[s] != id {
      AllKeptAt(t.mapInfo, ClearNew(t, s).mapInfo, Occupant(t.vvNew, s), id);
    }
  }

  /**
   * A report gives a known entry one more slot exactly when the entry is untried
   * and has fewer than eight, the report is newer than what is then known, the
   * slot its source leads to can be had, and one in 2^n random numbers comes up,
   * for the n slots it has.
   */
  lemma SlotChance(h: Hasher, t: Tables, addr: Address, source: NetAddr, penalty: int, now: int, rnd: nat)
    requires Consistent(h, t) && Sane(t) && t.nIdCount !in t.mapInfo && Find(t, addr.service.ip).Some?
    ensures var id := Find(t, addr.service.ip).value;
            var e, r := t.mapInfo[id], Add(h, t, addr, source, penalty, now, rnd).mapInfo;
            && id in r && 0 <= e.nRefCount <= 8
            && r[id].nRefCount == e.nRefCount +
                 if && !e.fInTried && e.nRefCount < 8 && addr.nTime > Refreshed(e, addr, penalty, now).addr.nTime
                    && rnd % Pow2(e.nRefCount) == 0 && SlotFor(h, t, id, source, now)
                 then 1 else 0
  {
    hide Inv, Sane, Place, Refreshed, AllKept;
    var id := Find(t, addr.service.ip).value;
    var e := Refreshed(t.mapInfo[id], addr, penalty, now);
    var u := Update(t, id, e);
    RefreshedInPlace(t.mapInfo[id], addr, penalty, now);
    SamePlaceIs(t.mapInfo[id], e);
    UpdateIsSane(t, id, e);
    UpdateKeepsInv(h, t, id, e, {}, 0);
    EntryAt(h, t, {}, 0, id);
    SaneSlots(t);
    SaneSlots(u);
    if MayGetSlot(e, addr, rnd) {
      PlaceCounts(h, u, id, source, now);
    }
  }

  /** An address heard of for the first time starts with one slot and no history, dated back by the penalty. */
  lemma NewEntryIs(h: Hasher, t: Tables, addr: Address, source: NetAddr, penalty: int, now: int, rnd: nat)
    requires Consistent(h, t) && Sane(t) && t.nIdCount !in t.mapInfo && Find(t, addr.service.ip).None?
    ensures var id, r := t.nIdCount, Add(h, t, addr, source, penalty, now, rnd);
            id in r.mapInfo ==>
              var e := r.mapInfo[id];
              && e.Service() == addr.service && e.addr.nServices == addr.nServices && e.source == source
              && (penalty >= 0 ==> e.addr.nTime == if addr.nTime < penalty then 0 else addr.nTime - penalty)
              && e.nLastTry == 0 && e.nLastCountAttempt == 0 && e.nLastSuccess == 0 && e.nAttempts == 0
              && e.nRefCount == 1 && !e.fInTried && Get(r.vvNew, h.NewSlot(addr.service, source)) == Some(id)
  {
    hide Inv, Place, AllKept, Info.IsTerrible, RandomOrder, Sane, ClearNew, SlotOpen;
    UnknownAddress(h, t, addr.service.ip);
    var id, u := t.nIdCount, Introduce(t, addr, source, penalty);
    var s := h.NewSlot(addr.service, source);
    SaneSlots(t);
    IntroduceKeepsInv(h, t, addr, source, penalty);
    IntroduceIsSane(t, addr, source, penalty);
    SaneSlots(u);
    PlaceKeepsConsistent(h, u, id, source, now, {id});
    if SlotOpen(h, u, id, s, now) {
      PlaceNew(h, u, id, source, now);
    }
    AddrStats.FitsClock(Max(0, addr.nTime - penalty));
  }

  lemma PlaceNew(h: Hasher, u: Tables, id: int, source: NetAddr, now: int)
    requires Inv(h, u, {id}, 0) && Sane(u) && id in u.mapInfo && (forall s :: s in u.vvNew ==> u.vvNew[s] != id)
    requires var s := h.NewSlot(u.mapInfo[id].Service(), source);
             (s in u.vvNew ==> u.vvNew[s] in u.mapInfo) && SlotOpen(h, u, id, s, now)
    ensures var r := Place(h, u, id, source, now);
            && id in r.mapInfo
            && r.mapInfo[id] ==
               u.mapInfo[id].(nRefCount := u.mapInfo[id].nRefCount + 1, nRandomPos := r.mapInfo[id].nRandomPos)
  {
    hide Inv, ClearNew, AllKept, Info.IsTerrible, RandomOrder, SlotOpen;
    var s := h.NewSlot(u.mapInfo[id].Service(), source);
    ClearNewKeepsInv(h, u, s, {id}, 0);
    AllKeptAt(u.mapInfo, ClearNew(u, s).mapInfo, Occupant(u.vvNew, s), id);
  }

  lemma SamePlaceIs(a: Info, b: Info)
    requires SamePlace(a, b)
    ensures a.Service() == b.Service() && a.nRefCount == b.nRefCount && a.fInTried == b.fInTried
  {
  }

  lemma SaneSlots(t: Tables)
    requires Sane(t)
    ensures forall s :: s in t.vvNew ==> t.vvNew[s] in t.mapInfo
  {
  }

  // ------------------------------------------------------------------ buckets of a range

  function Image(n: nat, f: nat -> nat): set<nat> {
    set i | 0 <= i < n :: f(i)
  }

  lemma {:induction false} ImageIsSmall(n: nat, f: nat -> nat)
    ensures |Image(n, f)| <= n
  {
    if n > 0 {
      ImageIsSmall(n - 1, f);
      assert Image(n, f) == Image(n - 1, f) + {f(n - 1)};
    }
  }

  /** The tried buckets of a range of addresses. */
  function TriedBucketsOf(h: Hasher, g: Group): set<nat> {
    Image(8, n => h.hash(TriedGroup(g, n)) % 256)
  }

  /** The new buckets of a range of sources. */
  function NewBucketsOf(h: Hasher, g: Group): set<nat> {
    Image(64, n => h.hash(NewSource(g, n)) % 1024)
  }

  /** Each range of addresses has eight tried buckets at most, and each range of sources 64 new ones. */
  lemma BucketsOfRange(h: Hasher, s: Service, source: NetAddr)
    ensures h.TriedBucket(s) in TriedBucketsOf(h, h.group(s.ip)) && |TriedBucketsOf(h, h.group(s.ip))| <= 8
    ensures h.NewBucket(s, source) in NewBucketsOf(h, h.group(source)) && |NewBucketsOf(h, h.group(source))| <= 64
  {
    BucketsAreFew(h, h.group(s.ip));
    BucketsAreFew(h, h.group(source));
    InImage(8, n => h.hash(TriedGroup(h.group(s.ip), n)) % 256, h.hash(TriedKey(s)) % 8);
    InImage(64, n => h.hash(NewSource(h.group(source), n)) % 1024,
            h.hash(NewGroups(h.group(s.ip), h.group(source))) % 64);
  }

  lemma InImage(n: nat, f: nat -> nat, i: nat)
    requires i < n
    ensures f(i) in Image(n, f)
  {
  }

  lemma BucketsAreFew(h: Hasher, g: Group)
    ensures |TriedBucketsOf(h, g)| <= 8 && |NewBucketsOf(h, g)| <= 64
  {
    ImageIsSmall(8, n => h.hash(TriedGroup(g, n)) % 256);
    ImageIsSmall(64, n => h.hash(NewSource(g, n)) % 1024);
  }

  /** The new bucket depends on the two ranges alone, and a position on the bucket and the address alone. */
  lemma SlotDependsOnRanges(h: Hasher, s: Service, s': Service, source: NetAddr, source': NetAddr)
    requires h.group(s.ip) == h.group(s'.ip) && h.group(source) == h.group(source')
    ensures h.NewBucket(s, source) == h.NewBucket(s', source')
    ensures h.NewSlot(s, source) == h.NewSlot(s, source') == h.NewSlotIn(s, h.NewBucket(s', source'))
    ensures h.NewSlot(s, source).bucket < 1024 && h.NewSlot(s, source).pos < 64
    ensures h.TriedSlot(s).bucket < 256 && h.TriedSlot(s).pos < 64
  {
  }

  // -------------------------------------------------------------------- slots of buckets

  /** Some buckets have 64 slots each. */
  lemma {:induction false} SlotsOfBuckets(slots: set<Slot>, buckets: set<nat>)
    requires forall s :: s in slots ==> s.bucket in buckets && s.pos < 64
    ensures |slots| <= 64 * |buckets|
    decreases |buckets|
  {
    if buckets == {} {
      assert forall s :: s !in slots;
      assert slots == {};
    } else {
      var b :| b in buckets;
      var here := set s | s in slots && s.bucket == b;
      SlotsOfBuckets(slots - here, buckets - {b});
      SlotsOfBucket(here, b, 64);
      assert slots == (slots - here) + here;
    }
  }

  lemma {:induction false} SlotsOfBucket(slots: set<Slot>, b: nat, n: nat)
    requires forall s :: s in slots ==> s.bucket == b && s.pos < n
    ensures |slots| <= n
  {
    if n == 0 {
      assert forall s :: s !in slots;
      assert slots == {};
    } else {
      SlotsOfBucket(slots - {Slot(b, n - 1)}, b, n - 1);
    }
  }

  lemma EntriesOfBuckets(table: map<Slot, int>, ids: set<int>, buckets: set<nat>)
    requires forall id :: id in ids ==> exists s :: s in table && table[s] == id && s.bucket in buckets && s.pos < 64
    ensures |ids| <= 64 * |buckets|
  {
    var part := map s | s in table && s.bucket in buckets && s.pos < 64 :: table[s];
    forall id | id in ids ensures exists s :: s in part && part[s] == id {
      var s :| s in table && table[s] == id && s.bucket in buckets && s.pos < 64;
      assert s in part;
    }
    AddrRoundTrip.FewerEntriesThanSlots(ids, part);
    SlotsOfBuckets(part.Keys, buckets);
  }

  /** The tried entries of a range of addresses. */
  function TriedOf(h: Hasher, t: Tables, g: Group): set<int> {
    set id | id in t.mapInfo && t.mapInfo[id].fInTried && h.group(t.mapInfo[id].Ip()) == g
  }

  /** No range of addresses has more than 512 of the tried entries. */
  lemma RangeIsBounded(h: Hasher, t: Tables, g: Group)
    requires Consistent(h, t)
    ensures |TriedOf(h, t, g)| <= 512
  {
    hide NewTable, RandomOrder, Counted, AddrIndex, TriedBucketsOf;
    var buckets := TriedBucketsOf(h, g);
    var ids := TriedOf(h, t, g);
    BucketsAreFew(h, g);
    forall j: int | j in ids
      ensures exists s :: s in t.vvTried && t.vvTried[s] == j && s.bucket in buckets && s.pos < 64
    {
      var e := t.mapInfo[j];
      BucketsOfRange(h, e.Service(), 0);
      var s := h.TriedSlot(e.Service());
      assert s in t.vvTried && t.vvTried[s] == j;
    }
    EntriesOfBuckets(t.vvTried, ids, buckets);
  }

  // ----------------------------------------------------------------- one range of sources

  /** Everything known came from a range of sources, and is in its buckets as long as it is untried. */
  ghost predicate FromRange(h: Hasher, t: Tables, g: Group) {
    && (forall id :: id in t.mapInfo ==> h.group(t.mapInfo[id].source) == g)
    && (forall s :: s in t.vvNew ==> s.bucket in NewBucketsOf(h, g))
  }

  lemma NewSlotOf(h: Hasher, s: Service, source: NetAddr)
    ensures h.NewSlot(s, source).bucket in NewBucketsOf(h, h.group(source))
  {
    BucketsOfRange(h, s, source);
  }

  lemma KeepsSources(h: Hasher, m: map<int, Info>, m': map<int, Info>, promoted: set<int>, g: Group)
    requires StatsKept(m, m', promoted) && forall id :: id in m ==> h.group(m[id].source) == g
    ensures forall id :: id in m' ==> h.group(m'[id].source) == g
  {
    forall id: int | id in m' ensures h.group(m'[id].source) == g {
      assert Stats(m'[id]) == Stats(m[id]);
      assert Stats(m'[id]).source == m'[id].source && Stats(m[id]).source == m[id].source;
    }
  }

  lemma PlaceFromRange(h: Hasher, t: Tables, id: int, source: NetAddr, now: int, g: Group)
    requires id in t.mapInfo && Sane(t) && FromRange(h, t, g) && h.group(source) == g
    ensures FromRange(h, Place(h, t, id, source, now), g)
  {
    hide StatsKept, Delete, Info.IsTerrible, NewBucketsOf;
    PlaceStats(h, t, id, source, now);
    KeepsSources(h, t.mapInfo, Place(h, t, id, source, now).mapInfo, {}, g);
    NewSlotOf(h, t.mapInfo[id].Service(), source);
    DeleteKeepsSlots(t, id);
    var s := h.NewSlot(t.mapInfo[id].Service(), source);
    ClearNewSlots(t, s);
  }

  lemma DeleteKeepsSlots(t: Tables, id: int)
    requires id in t.mapInfo && RandomOrder(t.mapInfo, t.vRandom)
    ensures Delete(t, id).vvNew == t.vvNew
  {
  }

  lemma ClearNewSlots(t: Tables, s: Slot)
    requires s in t.vvNew ==> t.vvNew[s] in t.mapInfo && RandomOrder(t.mapInfo, t.vRandom)
    ensures ClearNew(t, s).vvNew == t.vvNew - {s}
  {
    if s in t.vvNew {
      ReleaseStaysOrdered(t, s);
    }
  }

  lemma AddFromRange(h: Hasher, t: Tables, addr: Address, source: NetAddr, penalty: int, now: int, rnd: nat, g: Group)
    requires Sane(t) && t.nIdCount !in t.mapInfo && FromRange(h, t, g) && h.group(source) == g
    ensures FromRange(h, Add(h, t, addr, source, penalty, now, rnd), g)
  {
    hide Sane, Place, NewBucketsOf;
    var id := Find(t, addr.service.ip);
    if id.Some? {
      var e := Refreshed(t.mapInfo[id.value], addr, penalty, now);
      UpdateIsSane(t, id.value, e);
      PlaceFromRange(h, Update(t, id.value, e), id.value, source, now, g);
    } else {
      IntroduceIsSane(t, addr, source, penalty);
      PlaceFromRange(h, Introduce(t, addr, source, penalty), t.nIdCount, source, now, g);
    }
  }

  lemma GoodFromRange(h: Hasher, t: Tables, s: Service, time: int, g: Group)
    requires Consistent(h, t) && Sane(t) && FromRange(h, t, g)
    ensures FromRange(h, Good(h, t, s, time), g)
  {
    hide Inv, Sane, MakeTried, InSomeBucket, StatsKept, NewBucketsOf, AllKept, Displaced;
    var id := FindService(t, s);
    if id.Some? {
      var e := Succeeded(t.mapInfo[id.value], time);
      var u := Update(t, id.value, e);
      UpdateIsSane(t, id.value, e);
      UpdateKeepsInv(h, t, id.value, e, {}, 0);
      if !e.fInTried {
        MakeTriedKeepsInv(h, u, id.value);
        MakeTriedStats(h, u, id.value);
        KeepsSources(h, u.mapInfo, MakeTried(h, u, id.value).mapInfo, {id.value}, g);
        MakeTriedFromRange(h, u, id.value, g);
      }
    }
  }

  lemma MakeTriedFromRange(h: Hasher, t: Tables, id: int, g: Group)
    requires Consistent(h, t) && Sane(t) && FromRange(h, t, g) && id in t.mapInfo && !t.mapInfo[id].fInTried
    ensures forall s :: s in MakeTried(h, t, id).vvNew ==> s.bucket in NewBucketsOf(h, g)
  {
    hide Inv, Sane, MakeTried, NewBucketsOf, AllKept, Displaced;
    MakeTriedKeepsInv(h, t, id);
    var s := h.TriedSlot(t.mapInfo[id].Service());
    if s in t.vvTried {
      var e := t.mapInfo[t.vvTried[s]];
      NewSlotOf(h, e.Service(), e.source);
    }
  }

  predicate FromSource(h: Hasher, op: Op, g: Group) {
    op.OpAdd? ==> h.group(op.source) == g
  }

  lemma StepFromRange(h: Hasher, st: State, op: Op, g: Group)
    requires Consistent(h, st.t) && Sane(st.t) && st.t.nIdCount !in st.t.mapInfo
    requires FromRange(h, st.t, g) && FromSource(h, op, g)
    ensures FromRange(h, Exec(h, st, op).t, g)
  {
    hide Inv, Sane, Good, Add, Shuffle, GetAddrLimit, StatsKept, AllKept, RandomOrder, GoodOnes, Info.IsTerrible,
      NewBucketsOf;
    match op
    case OpAdd(addr, source, penalty, now, rnd) => AddFromRange(h, st.t, addr, source, penalty, now, rnd, g);
    case OpGood(s, time) => GoodFromRange(h, st.t, s, time, g);
    case OpGetAddr(now, order) =>
      ReorderedSelf(h, st.t);
      NothingPassed(st.t, now);
      ShuffleKeeps(h, st.t, 0, GetAddrLimit(st.t), now, order);
      KeepsSources(h, st.t.mapInfo, Exec(h, st, op).t.mapInfo, {}, g);
    case _ =>
  }

  lemma {:induction false} RunFromRange(h: Hasher, st: State, ops: seq<Op>, g: Group)
    requires Consistent(h, st.t) && Timely(st.t.mapInfo) && FromRange(h, st.t, g)
    requires forall i :: 0 <= i < |ops| ==> PositiveTime(ops[i]) && FromSource(h, ops[i], g)
    ensures var r := ExecAll(h, st, ops).t; FromRange(h, r, g) && Consistent(h, r)
    decreases |ops|
  {
    hide Inv, Timely, Exec, Sane, PositiveTime, FromRange, FromSource;
    if ops != [] {
      ConsistentIsSane(h, st.t);
      ExecKeepsInvariant(h, st, ops[0]);
      StepFromRange(h, st, ops[0], g);
      RunFromRange(h, Exec(h, st, ops[0]), ops[1..], g);
    }
  }

  /** Whatever one range of sources reports to a new manager, it fills no more than 4096 of its new entries. */
  lemma SourcesAreBounded(h: Hasher, ops: seq<Op>, g: Group)
    requires forall i :: 0 <= i < |ops| ==> PositiveTime(ops[i]) && FromSource(h, ops[i], g)
    ensures Consistent(h, EmptyTables) && Timely(EmptyTables.mapInfo)
    ensures |NewIds(ExecAll(h, State(EmptyTables, 1), ops).t.mapInfo)| <= 4096
  {
    hide Inv, Timely, PositiveTime, Exec, FromSource, NewBucketsOf;
    FreshManagerIsConsistent(h);
    var st := State(EmptyTables, 1);
    assert FromRange(h, EmptyTables, g);
    RunFromRange(h, st, ops, g);
    RangeFits(h, ExecAll(h, st, ops).t, g);
  }

  lemma RangeFits(h: Hasher, t: Tables, g: Group)
    requires Consistent(h, t) && FromRange(h, t, g)
    ensures |NewIds(t.mapInfo)| <= 4096
  {
    hide Inv, NewBucketsOf;
    BucketsAreFew(h, g);
    forall id | id in NewIds(t.mapInfo)
      ensures exists s :: s in t.vvNew && t.vvNew[s] == id && s.bucket in NewBucketsOf(h, g) && s.pos < 64
    {
      AddrRoundTrip.HasSlot(h, t, id);
      var s :| s in t.vvNew && t.vvNew[s] == id;
      AddrRoundTrip.SlotAt(h, t, s);
    }
    EntriesOfBuckets(t.vvNew, NewIds(t.mapInfo), NewBucketsOf(h, g));
  }

  // ---------------------------------------------------------------------- bad statistics

  const DAY_SECONDS := 86_400

  /** An entry's time is impossible, unknown, or more than thirty days ago. */
  predicate Outdated(e: Info, now: int) {
    e.addr.nTime > now + 600 || e.addr.nTime == 0 || now - e.addr.nTime > 30 * DAY_SECONDS
  }

  /** It has failed three times without a success, or ten times and not succeeded for a week. */
  predicate Failing(e: Info, now: int) {
    (e.nLastSuccess == 0 && e.nAttempts >= 3) || (now - e.nLastSuccess > 7 * DAY_SECONDS && e.nAttempts >= 10)
  }

  /** Terrible entries are outdated or failing, and not tried within the last minute. */
  lemma TerribleIs(e: Info, now: int)
    ensures e.IsTerrible(now) <==> (Outdated(e, now) || Failing(e, now)) && !(e.nLastTry != 0 && e.nLastTry >= now - 60)
  {
  }

  /**
   * After a success and until the next, whatever else happens, an entry can only
   * become terrible by being outdated: its failures do not count against it.
   */
  lemma SuccessIsNotForgotten(h: Hasher, st: State, s: Service, time: int, ops: seq<Op>, now: int)
    requires Consistent(h, st.t) && Timely(st.t.mapInfo) && FindService(st.t, s).Some? && time > 0
    requires forall i :: 0 <= i < |ops| ==> PositiveTime(ops[i]) && AddrStats.Dated(ops[i], time)
    ensures var id := FindService(st.t, s).value;
            var m := ExecAll(h, st, [OpGood(s, time)] + ops).t.mapInfo;
            id in m && !Failing(m[id], now) && (m[id].IsTerrible(now) ==> Outdated(m[id], now))
  {
    hide Inv, Timely, Good, Exec, PositiveTime, AddrStats.Dated, AddrStats.Failed, Info.IsTerrible, FindService;
    AddrStats.OneFailurePerSuccess(h, st, s, time, ops);
    var run := [OpGood(s, time)] + ops;
    assert PositiveTime(run[0]) by { GoodIsPositive(s, time); }
    TerribleIs(ExecAll(h, st, run).t.mapInfo[FindService(st.t, s).value], now);
  }

  lemma GoodIsPositive(s: Service, time: int)
    requires time > 0
    ensures PositiveTime(OpGood(s, time))
  {
  }
}
