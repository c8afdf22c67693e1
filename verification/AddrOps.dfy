/**
 * The public operations of the address manager as functions of its tables, and
 * the proof that every run of them keeps the tables consistent.
 */
module AddrOps {
  import opened Common
  import opened Powers
  import opened AddrTables
  import opened AddrInv

  const DAY := 24 * 60 * 60

  function ToUint32(x: int): Uint32 {
    x % 0x1_0000_0000
  }

  /** The id of an IP address, whatever its port. */
  function Find(t: Tables, ip: NetAddr): Option<int> {
    if ip in t.mapAddr && t.mapAddr[ip] in t.mapInfo then Some(t.mapAddr[ip]) else None
  }

  /** The id of exactly this address and port. */
  function FindService(t: Tables, s: Service): Option<int> {
    var id := Find(t, s.ip);
    if id.Some? && t.mapInfo[id.value].Service() == s then id else None
  }

  // ---------------------------------------------------------------------- Good

  function Succeeded(e: Info, time: int): Info {
    e.(nLastSuccess := time, nLastTry := time, nAttempts := 0)
  }

  /** Whether an entry is found by looking at its position in every new bucket. */
  ghost predicate InSomeBucket(h: Hasher, t: Tables, id: int)
    requires id in t.mapInfo
  {
    exists b :: 0 <= b < NEW_BUCKET_COUNT && Get(t.vvNew, h.NewSlotIn(t.mapInfo[id].Service(), b)) == Some(id)
  }

  ghost function Good(h: Hasher, t: Tables, s: Service, time: int): Tables
    requires Sane(t)
  {
    var id := FindService(t, s);
    if id.None? then t
    else
      var u := Update(t, id.value, Succeeded(t.mapInfo[id.value], time));
      UpdateIsSane(t, id.value, Succeeded(t.mapInfo[id.value], time));
      if t.mapInfo[id.value].fInTried || !InSomeBucket(h, u, id.value) then u
      else MakeTried(h, u, id.value)
  }

  lemma UpdateIsSane(t: Tables, id: int, e: Info)
    requires Sane(t) && id in t.mapInfo && e.nRandomPos == t.mapInfo[id].nRandomPos
    ensures Sane(Update(t, id, e))
  {
  }

  // ----------------------------------------------------------------------- Add

  /** What is learned about a known address from hearing of it again. */
  function Refreshed(e: Info, addr: Address, penalty: int, now: int): Info {
    var interval := if now - addr.nTime < DAY then 60 * 60 else DAY;
    var time: Uint32 := if addr.nTime != 0 && (e.addr.nTime == 0 || e.addr.nTime < addr.nTime - interval - penalty)
                        then ToUint32(Max(0, addr.nTime - penalty)) else e.addr.nTime;
    e.(addr := e.addr.(nTime := time, nServices := e.addr.nServices | addr.nServices))
  }

  /** Whether a known entry may get one more slot: news, untried, not full, and lucky. */
  predicate MayGetSlot(e: Info, addr: Address, rnd: nat) {
    && addr.nTime != 0 && (e.addr.nTime == 0 || addr.nTime > e.addr.nTime)
    && !e.fInTried && e.nRefCount != NEW_BUCKETS_PER_ADDRESS
    && (e.nRefCount <= 0 || rnd % Pow2(e.nRefCount) == 0)
  }

  /** Whether the slot given by a source is free or may be taken from its occupant. */
  predicate SlotOpen(h: Hasher, t: Tables, id: int, s: Slot, now: int)
    requires id in t.mapInfo && (s in t.vvNew ==> t.vvNew[s] in t.mapInfo)
  {
    s !in t.vvNew ||
    var o := t.mapInfo[t.vvNew[s]];
    o.IsTerrible(now) || (o.nRefCount > 1 && t.mapInfo[id].nRefCount == 0)
  }

  /** Tries to give an entry the slot its source leads to; an entry left with none is deleted. */
  ghost function Place(h: Hasher, t: Tables, id: int, source: NetAddr, now: int): Tables
    requires id in t.mapInfo && Sane(t)
  {
    var s := h.NewSlot(t.mapInfo[id].Service(), source);
    if Get(t.vvNew, s) == Some(id) then t
    else if SlotOpen(h, t, id, s, now) then
      var r := ClearNew(t, s);
      if id in r.mapInfo then Occupy(r, s, id) else r
    else if t.mapInfo[id].nRefCount == 0 then Delete(t, id)
    else t
  }

  ghost function Introduce(t: Tables, addr: Address, source: NetAddr, penalty: int): Tables {
    Create(t, addr.(nTime := ToUint32(Max(0, addr.nTime - penalty))), source).(nNew := t.nNew + 1)
  }

  ghost function Add(h: Hasher, t: Tables, addr: Address, source: NetAddr, penalty: int, now: int, rnd: nat): Tables
    requires Sane(t) && t.nIdCount !in t.mapInfo
  {
    var id := Find(t, addr.service.ip);
    if id.Some? then
      var e := Refreshed(t.mapInfo[id.value], addr, penalty, now);
      var u := Update(t, id.value, e);
      UpdateIsSane(t, id.value, e);
      if MayGetSlot(e, addr, rnd) then Place(h, u, id.value, source, now) else u
    else
      IntroduceIsSane(t, addr, source, penalty);
      Place(h, Introduce(t, addr, source, penalty), t.nIdCount, source, now)
  }

  lemma IntroduceIsSane(t: Tables, addr: Address, source: NetAddr, penalty: int)
    requires Sane(t) && t.nIdCount !in t.mapInfo
    ensures Sane(Introduce(t, addr, source, penalty))
  {
  }

  // --------------------------------------------------------- Attempt, Connected

  function Attempted(e: Info, countFailure: bool, time: int, lastGood: int): Info {
    var f := e.(nLastTry := time);
    if countFailure && e.nLastCountAttempt < lastGood then f.(nLastCountAttempt := time, nAttempts := e.nAttempts + 1)
      else f
  }

  function Attempt(t: Tables, s: Service, countFailure: bool, time: int, lastGood: int): Tables {
    var id := FindService(t, s);
    if id.None? then t else Update(t, id.value, Attempted(t.mapInfo[id.value], countFailure, time, lastGood))
  }

  function Connected(t: Tables, s: Service, time: int): Tables {
    var id := FindService(t, s);
    if id.None? then t
    else
      var e := t.mapInfo[id.value];
      if time - e.addr.nTime > 20 * 60 then Update(t, id.value, e.(addr := e.addr.(nTime := ToUint32(time)))) else t
  }

  // ------------------------------------------------------------------- GetAddr

  const GETADDR_MAX_PCT := 23
  const GETADDR_MAX := 2500

  function GetAddrLimit(t: Tables): (r: nat)
    ensures r <= 2500 && 100 * r <= 23 * |t.vRandom| && (r < 2500 ==> 100 * (r + 1) > 23 * |t.vRandom|)
  {
    Min(GETADDR_MAX, GETADDR_MAX_PCT * |t.vRandom| / 100)
  }

  /** The good ones among some ids, in order. */
  function GoodOnes(m: map<int, Info>, ids: seq<int>, now: int): seq<Address>
    requires forall i :: 0 <= i < |ids| ==> ids[i] in m
  {
    if ids == [] then []
    else
      var e := m[ids[|ids| - 1]];
      GoodOnes(m, ids[..|ids| - 1], now) + if e.IsTerrible(now) then [] else [e.addr]
  }

  /** Shuffles the random order from place `n` on, until enough good addresses have been passed. */
  ghost function Shuffle(t: Tables, n: nat, limit: nat, now: int, rnd: nat -> nat): (r: (Tables, nat))
    requires RandomOrder(t.mapInfo, t.vRandom) && n <= |t.vRandom|
    decreases |t.vRandom| - n
  {
    PlacesAreIds(t.mapInfo, t.vRandom);
    if n == |t.vRandom| || |GoodOnes(t.mapInfo, t.vRandom[..n], now)| >= limit then (t, n)
    else
      var j := n + rnd(n) % (|t.vRandom| - n);
      SwapStaysOrdered(t, n, j);
      Shuffle(SwapRandom(t, n, j), n + 1, limit, now, rnd)
  }

  lemma PlacesAreIds(m: map<int, Info>, v: seq<int>)
    requires RandomOrder(m, v)
    ensures forall i :: 0 <= i < |v| ==> v[i] in m
  {
  }

  lemma SwapStaysOrdered(t: Tables, i: nat, j: nat)
    requires RandomOrder(t.mapInfo, t.vRandom) && i < |t.vRandom| && j < |t.vRandom|
    ensures t.vRandom[i] in t.mapInfo && t.vRandom[j] in t.mapInfo
    ensures var s := SwapRandom(t, i, j); RandomOrder(s.mapInfo, s.vRandom) && |s.vRandom| == |t.vRandom|
  {
    hide RandomOrder;
    RandomAt(t.mapInfo, t.vRandom, i);
    RandomAt(t.mapInfo, t.vRandom, j);
    if i != j {
      SwapKeepsOrder(t.mapInfo, t.vRandom, i, j, SwapRandom(t, i, j).mapInfo, SwapRandom(t, i, j).vRandom);
    }
  }

  // ------------------------------------------------------------- what they keep

  /** Changing statistics in place keeps everything. */
  lemma UpdateKeepsInv(h: Hasher, t: Tables, id: int, e: Info, pending: set<int>, k: nat)
    requires Inv(h, t, pending, k) && id in t.mapInfo
    requires SamePlace(t.mapInfo[id], e) && e.nRandomPos == t.mapInfo[id].nRandomPos
    ensures Inv(h, Update(t, id, e), pending, k)
  {
    hide NewTable, TriedTable, AddrIndex, RandomOrder, Counted;
    UpdateIndex(t.nIdCount, t.mapInfo, t.mapAddr, t.vRandom, id, e);
    UpdateSamePlaces(t.mapInfo, id, e);
    SamePlacesKeep(h, t, t.mapInfo[id := e], t.vRandom, pending, k);
  }

  lemma UpdateSamePlaces(m: map<int, Info>, id: int, e: Info)
    requires id in m && SamePlace(m[id], e)
    ensures SamePlaces(m, m[id := e])
  {
  }

  lemma RefreshedInPlace(e: Info, addr: Address, penalty: int, now: int)
    ensures SamePlace(e, Refreshed(e, addr, penalty, now)) &&
            Refreshed(e, addr, penalty, now).nRandomPos == e.nRandomPos
  {
  }

  /** An untried entry is found in some bucket, so the search for one never fails. */
  lemma UntriedIsInSomeBucket(h: Hasher, t: Tables, id: int)
    requires Consistent(h, t) && id in t.mapInfo && !t.mapInfo[id].fInTried
    ensures InSomeBucket(h, t, id)
  {
    assert |SlotsOf(t.vvNew, id)| > 0;
    var s :| s in SlotsOf(t.vvNew, id);
    assert s == h.NewSlotIn(t.mapInfo[id].Service(), s.bucket);
    assert Get(t.vvNew, h.NewSlotIn(t.mapInfo[id].Service(), s.bucket)) == Some(id);
  }

  /** A good address that is known, with this port, is tried afterwards. */
  lemma GoodKeepsConsistent(h: Hasher, t: Tables, s: Service, time: int)
    requires Consistent(h, t) && Sane(t)
    ensures Consistent(h, Good(h, t, s, time))
    ensures Good(h, t, s, time).nIdCount == t.nIdCount
    ensures var id := FindService(t, s);
            var r := Good(h, t, s, time);
            if id.None? then r == t
            else id.value in r.mapInfo && r.mapInfo[id.value].fInTried &&
                 r.mapInfo[id.value].nLastSuccess == time == r.mapInfo[id.value].nLastTry
  {
    hide Inv, Sane, MakeTried, InSomeBucket, AllKept, Displaced, HomeSlot;
    var id := FindService(t, s);
    if id.Some? {
      var e := Succeeded(t.mapInfo[id.value], time);
      var u := Update(t, id.value, e);
      UpdateIsSane(t, id.value, e);
      UpdateKeepsInv(h, t, id.value, e, {}, 0);
      if !e.fInTried {
        UntriedIsInSomeBucket(h, u, id.value);
        MakeTriedKeepsInv(h, u, id.value);
      }
    }
  }

  /**
   * Placing gives the entry its slot exactly when the slot is open (or already
   * its own); an entry that ends up with no slot is gone.
   */
  lemma PlaceKeepsConsistent(h: Hasher, t: Tables, id: int, source: NetAddr, now: int, pending: set<int>)
    requires Inv(h, t, pending, 0) && Sane(t) && id in t.mapInfo && pending <= {id} && !t.mapInfo[id].fInTried
    requires t.mapInfo[id].nRefCount < NEW_BUCKETS_PER_ADDRESS
    ensures var r := Place(h, t, id, source, now);
            var s := h.NewSlot(t.mapInfo[id].Service(), source);
            && Consistent(h, r) && r.nIdCount == t.nIdCount && r.vvTried == t.vvTried
            && AllKept(t.mapInfo, r.mapInfo, {id} + Occupant(t.vvNew, s))
            && (Get(r.vvNew, s) == Some(id) <==> Get(t.vvNew, s) == Some(id) || SlotOpen(h, t, id, s, now))
            && (id in r.mapInfo <==> t.mapInfo[id].nRefCount > 0 || SlotOpen(h, t, id, s, now))
  {
    hide Inv, AllKept, Delete, ClearNew, RandomOrder, Info.IsTerrible;
    var s := h.NewSlot(t.mapInfo[id].Service(), source);
    var occ := Occupant(t.vvNew, s);
    EntryAt(h, t, pending, 0, id);
    KeptSelf(t.mapInfo);
    KeptMore(t.mapInfo, t.mapInfo, {}, {id} + occ);
    ClearNewIsDefined(h, t, pending, 0, s);
    if Get(t.vvNew, s) == Some(id) {
      assert pending == {};
    } else if SlotOpen(h, t, id, s, now) {
      ClearNewKeepsInv(h, t, s, pending, 0);
      var r := ClearNew(t, s);
      AllKeptAt(t.mapInfo, r.mapInfo, occ, id);
      OccupyKeepsInv(h, r, s, id, pending, 0);
      assert pending - {id} == {};
      KeptMore(t.mapInfo, r.mapInfo, occ, {id} + occ);
      KeptThenUpdated(t.mapInfo, r.mapInfo, {id} + occ, id, Occupy(r, s, id).mapInfo[id]);
    } else if t.mapInfo[id].nRefCount == 0 {
      DeleteKeepsInv(h, t, id, pending, 0);
      assert pending - {id} == {};
      KeptMore(t.mapInfo, Delete(t, id).mapInfo, {id}, {id} + occ);
    } else {
      assert pending == {};
    }
  }

  lemma KeptMore(m: map<int, Info>, m': map<int, Info>, a: set<int>, b: set<int>)
    requires AllKept(m, m', a) && a <= b
    ensures AllKept(m, m', b)
  {
  }

  /**
   * Adding an unknown address keeps it exactly when its slot is free, its
   * occupant is terrible, or the occupant has another slot; a known one stays.
   */
  lemma AddKeepsConsistent(h: Hasher, t: Tables, addr: Address, source: NetAddr, penalty: int, now: int, rnd: nat)
    requires Consistent(h, t) && Sane(t) && t.nIdCount !in t.mapInfo
    ensures var r := Add(h, t, addr, source, penalty, now, rnd);
            && Consistent(h, r) && r.vvTried == t.vvTried
            && (Find(t, addr.service.ip).Some? ==>
                Find(t, addr.service.ip).value in r.mapInfo && r.nIdCount == t.nIdCount)
    ensures Find(t, addr.service.ip).None? ==>
              var s := h.NewSlot(addr.service, source);
              var r := Add(h, t, addr, source, penalty, now, rnd);
              && r.nIdCount == t.nIdCount + 1
              && (t.nIdCount in r.mapInfo <==>
                   (s !in t.vvNew || (t.vvNew[s] in t.mapInfo &&
                     (t.mapInfo[t.vvNew[s]].IsTerrible(now) || t.mapInfo[t.vvNew[s]].nRefCount > 1))))
  {
    hide Inv, AllKept, Sane, Place, Info.IsTerrible, AddrIndex;
    var id := Find(t, addr.service.ip);
    if id.Some? {
      var e := Refreshed(t.mapInfo[id.value], addr, penalty, now);
      var u := Update(t, id.value, e);
      UpdateIsSane(t, id.value, e);
      UpdateKeepsInv(h, t, id.value, e, {}, 0);
      EntryAt(h, u, {}, 0, id.value);
      if MayGetSlot(e, addr, rnd) {
        PlaceKeepsConsistent(h, u, id.value, source, now, {});
      }
    } else {
      UnknownAddress(h, t, addr.service.ip);
      var c := Introduce(t, addr, source, penalty);
      IntroduceKeepsInv(h, t, addr, source, penalty);
      IntroduceIsSane(t, addr, source, penalty);
      PlaceKeepsConsistent(h, c, t.nIdCount, source, now, {t.nIdCount});
      var s := h.NewSlot(addr.service, source);
      if s in t.vvNew {
        NewSlotAt(h, t, {}, 0, s);
      }
    }
  }

  lemma UnknownAddress(h: Hasher, t: Tables, ip: NetAddr)
    requires Consistent(h, t) && Find(t, ip).None?
    ensures ip !in t.mapAddr
  {
  }

  lemma IntroduceKeepsInv(h: Hasher, t: Tables, addr: Address, source: NetAddr, penalty: int)
    requires Consistent(h, t) && addr.service.ip !in t.mapAddr
    ensures Inv(h, Introduce(t, addr, source, penalty), {t.nIdCount}, 0)
  {
    hide Inv;
    var a := addr.(nTime := ToUint32(Max(0, addr.nTime - penalty)));
    CreateKeepsInv(h, t, a, source, {}, 0);
    assert {} + {t.nIdCount} == {t.nIdCount};
    CountOneMore(h, Create(t, a, source), {t.nIdCount}, 1);
  }
}
