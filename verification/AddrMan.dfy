/**
 * The stochastic address manager.  Its methods update the tables in place; each
 * is proved to do what the corresponding function of the tables says.
 */
module AddrMan {
  import opened Common
  import opened AddrTables
  import AddrInv
  import AddrOps
  import AddrRun

  class AddrMan {
    /** The bucket hashes for every key. */
    const keyed: nat -> Hasher

    var nKey: nat
    var nIdCount: int
    var mapInfo: map<int, Info>
    var mapAddr: map<NetAddr, int>
    var vRandom: seq<int>
    var nTried: int
    var vvTried: map<Slot, int>
    var nNew: int
    var vvNew: map<Slot, int>
    var nLastGood: int

    function H(): Hasher
      reads this
    {
      keyed(nKey)
    }

    function T(): Tables
      reads this
    {
      Tables(nIdCount, mapInfo, mapAddr, vRandom, nTried, nNew, vvTried, vvNew)
    }

    ghost predicate Valid()
      reads this
    {
      AddrInv.Consistent(H(), T())
    }

    constructor (keyed: nat -> Hasher, key: nat)
      ensures Valid() && T() == EmptyTables && this.keyed == keyed && nKey == key && nLastGood == 1
    {
      this.keyed, nKey := keyed, key;
      nIdCount, mapInfo, mapAddr, vRandom := 0, map[], map[], [];
      nTried, vvTried, nNew, vvNew, nLastGood := 0, map[], 0, map[], 1;
      new;
      AddrRun.FreshManagerIsConsistent(H());
    }

    /** Starts over with a new key; entries known before stay in the maps, and spoil the manager. */
    method Clear(key: nat)
      requires Valid()
      modifies this
      ensures T() == AddrRun.Cleared(old(T())) && nKey == key && nLastGood == 1
      ensures Valid() <==> old(mapInfo) == map[]
    {
      hide AddrTables.Inv;
      AddrRun.ClearedIsConsistent(H(), keyed(key), T());
      vRandom, nKey, vvNew, vvTried := [], key, map[], map[];
      nIdCount, nTried, nNew, nLastGood := 0, 0, 0, 1;
    }

    // --------------------------------------------------------- elementary changes

    method Create(addr: Address, source: NetAddr) returns (id: int)
      modifies this`nIdCount, this`mapInfo, this`mapAddr, this`vRandom
      ensures id == old(nIdCount) && T() == AddrTables.Create(old(T()), addr, source)
    {
      id := nIdCount;
      nIdCount := nIdCount + 1;
      mapInfo := mapInfo[id := NewInfo(addr, source)];
      mapAddr := mapAddr[addr.service.ip := id];
      mapInfo := mapInfo[id := mapInfo[id].(nRandomPos := |vRandom|)];
      vRandom := vRandom + [id];
    }

    method SwapRandom(i: nat, j: nat)
      requires i < |vRandom| && j < |vRandom| && vRandom[i] in mapInfo && vRandom[j] in mapInfo
      modifies this`mapInfo, this`vRandom
      ensures T() == AddrTables.SwapRandom(old(T()), i, j)
    {
      if i == j {
        return;
      }
      var id1, id2 := vRandom[i], vRandom[j];
      mapInfo := mapInfo[id1 := mapInfo[id1].(nRandomPos := j)];
      mapInfo := mapInfo[id2 := mapInfo[id2].(nRandomPos := i)];
      vRandom := vRandom[i := id2];
      vRandom := vRandom[j := id1];
    }

    method Delete(id: int)
      requires id in mapInfo && !mapInfo[id].fInTried && mapInfo[id].nRefCount == 0
      requires RandomOrder(mapInfo, vRandom)
      modifies this`mapInfo, this`vRandom, this`mapAddr, this`nNew
      ensures T() == AddrTables.Delete(old(T()), id)
    {
      AddrOps.SwapStaysOrdered(T(), mapInfo[id].nRandomPos, |vRandom| - 1);
      SwapRandom(mapInfo[id].nRandomPos, |vRandom| - 1);
      vRandom := vRandom[..|vRandom| - 1];
      mapAddr := mapAddr - {mapInfo[id].Ip()};
      mapInfo := mapInfo - {id};
      nNew := nNew - 1;
    }

    method ClearNew(s: Slot)
      requires s in vvNew ==> vvNew[s] in mapInfo && RandomOrder(mapInfo, vRandom)
      requires s in vvNew ==> mapInfo[vvNew[s]].nRefCount > 0 && !mapInfo[vvNew[s]].fInTried
      modifies this`mapInfo, this`vRandom, this`mapAddr, this`nNew, this`vvNew
      ensures T() == AddrTables.ClearNew(old(T()), s)
    {
      if s in vvNew {
        AddrRun.ReleaseStaysOrdered(T(), s);
        var id := vvNew[s];
        mapInfo := mapInfo[id := mapInfo[id].(nRefCount := mapInfo[id].nRefCount - 1)];
        vvNew := vvNew - {s};
        if mapInfo[id].nRefCount == 0 {
          Delete(id);
        }
      }
    }

    /** Takes an entry out of every new bucket, one bucket after the other. */
    method LeaveNew(id: int)
      requires Valid() && id in mapInfo && !mapInfo[id].fInTried
      modifies this`mapInfo, this`vvNew, this`nNew
      ensures T() == AddrTables.LeaveNew(old(T()), id)
    {
      hide AddrTables.Inv, NewTable, WithoutBelow, SlotsOf, Without;
      ghost var m, v := mapInfo, vvNew;
      AddrInv.NewTableOf(H(), T());
      LeftAllBuckets(H(), m, v, id);
      var service := mapInfo[id].Service();
      for bucket := 0 to NEW_BUCKET_COUNT
        invariant vvNew == WithoutBelow(v, id, bucket)
        invariant mapInfo == m[id := m[id].(nRefCount := |SlotsOf(vvNew, id)|)]
        invariant T() == old(T()).(mapInfo := mapInfo, vvNew := vvNew)
      {
        LeaveBucket(H(), m, v, id, bucket);
        var s := H().NewSlotIn(service, bucket);
        if s in vvNew && vvNew[s] == id {
          vvNew := vvNew - {s};
          mapInfo := mapInfo[id := mapInfo[id].(nRefCount := mapInfo[id].nRefCount - 1)];
        }
      }
      nNew := nNew - 1;
    }

    /** Returns a tried entry to the new table, clearing the slot it goes to. */
    method Demote(id: int, ghost pending: set<int>, ghost k: nat)
      requires Inv(H(), T(), pending, k) && Sane(T()) && id in mapInfo && mapInfo[id].fInTried
      modifies this`mapInfo, this`vvTried, this`nTried, this`vRandom, this`mapAddr, this`nNew, this`vvNew
      ensures T() == AddrTables.Demote(old(H()), old(T()), id) && H() == old(H())
    {
      hide AddrTables.Inv, AddrTables.ClearNew, Sane, AllKept, RandomOrder, HomeSlot;
      AddrInv.DemoteKeepsInv(H(), T(), id, pending, k);
      AddrInv.EvictKeepsInv(H(), T(), id, pending, k);
      EvictedCount(H(), T(), id, pending, k);
      var e := mapInfo[id];
      mapInfo := mapInfo[id := e.(fInTried := false)];
      vvTried := vvTried - {H().TriedSlot(e.Service())};
      nTried := nTried - 1;
      var s := HomeSlot(H(), e);
      AddrInv.ClearNewReady(H(), T(), pending + {id}, k + 1, s);
      ClearNew(s);
      mapInfo := mapInfo[id := mapInfo[id].(nRefCount := 1)];
      vvNew := vvNew[s := id];
      nNew := nNew + 1;
    }

    /** Moves an entry from the new buckets to its tried slot. */
    method MakeTried(id: int)
      requires Valid() && Sane(T()) && id in mapInfo && !mapInfo[id].fInTried
      modifies this`mapInfo, this`vvTried, this`nTried, this`vRandom, this`mapAddr, this`nNew, this`vvNew
      ensures T() == AddrTables.MakeTried(old(H()), old(T()), id) && H() == old(H())
    {
      hide AddrTables.Inv, Sane, AllKept, RandomOrder, HomeSlot, AddrTables.Demote, Without;
      AddrInv.MakeTriedKeepsInv(H(), T(), id);
      var s := H().TriedSlot(mapInfo[id].Service());
      AddrInv.LeaveNewReady(H(), T(), id, s);
      LeaveNew(id);
      if s in vvTried {
        Demote(vvTried[s], {id}, 1);
      }
      vvTried := vvTried[s := id];
      nTried := nTried + 1;
      mapInfo := mapInfo[id := mapInfo[id].(fInTried := true)];
    }

    // ---------------------------------------------------------- public operations

    /** Marks an address as good; a new entry moves to the tried table. */
    method Good(service: Service, time: int, rnd: nat)
      requires Valid()
      modifies this
      ensures Valid() && H() == old(H()) && nKey == old(nKey) && nLastGood == time
      ensures Sane(old(T())) && T() == AddrOps.Good(old(H()), old(T()), service, time)
      ensures var id := AddrOps.FindService(old(T()), service); id.Some? ==>
                id.value in mapInfo && mapInfo[id.value].fInTried
    {
      hide AddrTables.Inv, Sane, AddrTables.MakeTried, AddrOps.InSomeBucket;
      AddrRun.ConsistentIsSane(H(), T());
      AddrOps.GoodKeepsConsistent(H(), T(), service, time);
      nLastGood := time;
      if service.ip !in mapAddr || mapAddr[service.ip] !in mapInfo {
        return;
      }
      var id := mapAddr[service.ip];
      if mapInfo[id].Service() != service {
        return;
      }
      var e := AddrOps.Succeeded(mapInfo[id], time);
      AddrOps.UpdateIsSane(T(), id, e);
      AddrOps.UpdateKeepsInv(H(), T(), id, e, {}, 0);
      mapInfo := mapInfo[id := e];
      if e.fInTried {
        return;
      }
      AddrOps.UntriedIsInSomeBucket(H(), T(), id);
      var found := FindBucket(id, rnd);
      if !found {
        return;
      }
      MakeTried(id);
    }

    /** Looks for an entry in every new bucket, starting at a random one. */
    method FindBucket(id: int, rnd: nat) returns (found: bool)
      requires id in mapInfo
      ensures found <==> AddrOps.InSomeBucket(H(), T(), id)
    {
      var start := rnd % NEW_BUCKET_COUNT;
      for n := 0 to NEW_BUCKET_COUNT
        invariant forall k :: 0 <= k < n ==>
                    Get(vvNew, H().NewSlotIn(mapInfo[id].Service(), Around(k, start))) != Some(id)
      {
        var bucket := Around(n, start);
        if Get(vvNew, H().NewSlotIn(mapInfo[id].Service(), bucket)) == Some(id) {
          return true;
        }
      }
      forall b | 0 <= b < NEW_BUCKET_COUNT
        ensures Get(vvNew, H().NewSlotIn(mapInfo[id].Service(), b)) != Some(id)
      {
        assert b == Around((b + NEW_BUCKET_COUNT - start) % NEW_BUCKET_COUNT, start);
      }
      return false;
    }

    static function Around(n: nat, start: nat): (b: nat)
      ensures b < NEW_BUCKET_COUNT
    {
      (n + start) % NEW_BUCKET_COUNT
    }

    /** Adds an address heard of from a source; true if it was unknown, even when it is not kept. */
    method Add(addr: Address, source: NetAddr, penalty: int, now: int, rnd: nat, routable: bool) returns (isNew: bool)
      requires Valid()
      modifies this
      ensures Valid() && H() == old(H()) && nKey == old(nKey) && nLastGood == old(nLastGood)
      ensures isNew <==> routable && AddrOps.Find(old(T()), addr.service.ip).None?
      ensures Sane(old(T())) && old(nIdCount) !in old(mapInfo)
      ensures T() == if routable then AddrOps.Add(old(H()), old(T()), addr, source, penalty, now, rnd) else old(T())
    {
      hide AddrTables.Inv, Sane, AddrOps.Place, AddrOps.Refreshed, AddrOps.Introduce, Info.IsTerrible;
      AddrRun.ConsistentIsSane(H(), T());
      AddrOps.AddKeepsConsistent(H(), T(), addr, source, penalty, now, rnd);
      if !routable {
        return false;
      }
      if addr.service.ip in mapAddr && mapAddr[addr.service.ip] in mapInfo {
        var id := mapAddr[addr.service.ip];
        var e := AddrOps.Refreshed(mapInfo[id], addr, penalty, now);
        AddrOps.RefreshedInPlace(mapInfo[id], addr, penalty, now);
        AddrOps.UpdateIsSane(T(), id, e);
        AddrOps.UpdateKeepsInv(H(), T(), id, e, {}, 0);
        mapInfo := mapInfo[id := e];
        if AddrOps.MayGetSlot(e, addr, rnd) {
          Place(id, source, now, {});
        }
        return false;
      }
      AddrOps.UnknownAddress(H(), T(), addr.service.ip);
      AddrOps.IntroduceIsSane(T(), addr, source, penalty);
      AddrOps.IntroduceKeepsInv(H(), T(), addr, source, penalty);
      var id := Introduce(addr, source, penalty);
      Place(id, source, now, {id});
      return true;
    }

    method Introduce(addr: Address, source: NetAddr, penalty: int) returns (id: int)
      modifies this`nIdCount, this`mapInfo, this`mapAddr, this`vRandom, this`nNew
      ensures id == old(nIdCount) && id in mapInfo && !mapInfo[id].fInTried
      ensures T() == AddrOps.Introduce(old(T()), addr, source, penalty)
    {
      id := Create(addr, source);
      var e := mapInfo[id];
      mapInfo := mapInfo[id := e.(addr := e.addr.(nTime := AddrOps.ToUint32(Max(0, e.addr.nTime - penalty))))];
      nNew := nNew + 1;
    }

    /** Gives an entry the slot its source leads to, if that is open. */
    method Place(id: int, source: NetAddr, now: int, ghost pending: set<int>)
      requires Inv(H(), T(), pending, 0) && Sane(T()) && id in mapInfo && !mapInfo[id].fInTried
      modifies this`mapInfo, this`vRandom, this`mapAddr, this`nNew, this`vvNew
      ensures T() == AddrOps.Place(old(H()), old(T()), id, source, now) && H() == old(H())
    {
      hide AddrTables.Inv, Sane, AddrTables.ClearNew, AddrTables.Delete, RandomOrder, Info.IsTerrible, AllKept;
      var s := H().NewSlot(mapInfo[id].Service(), source);
      AddrInv.ClearNewReady(H(), T(), pending, 0, s);
      EntryAt(H(), T(), pending, 0, id);
      if s !in vvNew || vvNew[s] != id {
        var insert := s !in vvNew;
        if !insert {
          var existing := mapInfo[vvNew[s]];
          if existing.IsTerrible(now) || (existing.nRefCount > 1 && mapInfo[id].nRefCount == 0) {
            insert := true;
          }
        }
        if insert {
          AddrInv.ClearNewKeepsInv(H(), T(), s, pending, 0);
          AllKeptAt(mapInfo, AddrTables.ClearNew(T(), s).mapInfo, Occupant(vvNew, s), id);
          ClearNew(s);
          mapInfo := mapInfo[id := mapInfo[id].(nRefCount := mapInfo[id].nRefCount + 1)];
          vvNew := vvNew[s := id];
        } else if mapInfo[id].nRefCount == 0 {
          Delete(id);
        }
      }
    }

    /** Records a connection attempt. */
    method Attempt(service: Service, countFailure: bool, time: int)
      requires Valid()
      modifies this`mapInfo
      ensures Valid() && T() == AddrOps.Attempt(old(T()), service, countFailure, time, nLastGood)
    {
      hide AddrTables.Inv;
      if service.ip in mapAddr && mapAddr[service.ip] in mapInfo && mapInfo[mapAddr[service.ip]].Service() == service {
        var id := mapAddr[service.ip];
        var e := mapInfo[id].(nLastTry := time);
        if countFailure && e.nLastCountAttempt < nLastGood {
          e := e.(nLastCountAttempt := time, nAttempts := e.nAttempts + 1);
        }
        AddrOps.UpdateKeepsInv(H(), T(), id, e, {}, 0);
        mapInfo := mapInfo[id := e];
      }
    }

    /** Records that an address is connected now. */
    method Connected(service: Service, time: int)
      requires Valid()
      modifies this`mapInfo
      ensures Valid() && T() == AddrOps.Connected(old(T()), service, time)
    {
      hide AddrTables.Inv;
      if service.ip in mapAddr && mapAddr[service.ip] in mapInfo && mapInfo[mapAddr[service.ip]].Service() == service {
        var id := mapAddr[service.ip];
        var e := mapInfo[id];
        if time - e.addr.nTime > 20 * 60 {
          e := e.(addr := e.addr.(nTime := AddrOps.ToUint32(time)));
          AddrOps.UpdateKeepsInv(H(), T(), id, e, {}, 0);
          mapInfo := mapInfo[id := e];
        }
      }
    }

    /** Hands out good addresses at random, reordering the random order on the way. */
    method GetAddr(now: int, order: nat -> nat) returns (answer: seq<Address>)
      requires Valid()
      modifies this`mapInfo, this`vRandom
      ensures Valid() && H() == old(H()) && Sane(old(T()))
      ensures var (r, k) := AddrOps.Shuffle(old(T()), 0, AddrOps.GetAddrLimit(old(T())), now, order);
              && T() == r && k <= |vRandom| && (forall i :: 0 <= i < |vRandom| ==> vRandom[i] in mapInfo)
              && answer == AddrOps.GoodOnes(mapInfo, vRandom[..k], now)
    {
      hide AddrTables.Inv, Info.IsTerrible, AddrTables.SwapRandom, AllKept, RandomOrder, AddrRun.StatsKept,
        AddrOps.Shuffle, AddrOps.GoodOnes;
      var limit := AddrOps.GetAddrLimit(T());
      answer := [];
      AddrRun.ConsistentIsSane(H(), T());
      AddrRun.ReorderedSelf(H(), T());
      AddrRun.NothingPassed(T(), now);
      var n := 0;
      while n < |vRandom|
        invariant 0 <= n <= |vRandom| && H() == old(H())
        invariant AddrRun.Reordered(H(), T(), T()) && RandomOrder(mapInfo, vRandom)
        invariant answer == AddrOps.GoodOnes(mapInfo, vRandom[..n], now)
        invariant AddrOps.Shuffle(old(T()), 0, limit, now, order) == AddrOps.Shuffle(T(), n, limit, now, order)
        decreases |vRandom| - n
      {
        AddrRun.ShuffleUnfolds(T(), n, limit, now, order);
        if |answer| >= limit {
          return;
        }
        var j := n + order(n) % (|vRandom| - n);
        AddrRun.SwapReorders(H(), T(), n, j);
        AddrRun.PassedBefore(H(), T(), n, j, now);
        AddrOps.SwapStaysOrdered(T(), n, j);
        SwapRandom(n, j);
        AddrRun.ReorderedSelf(H(), T());
        var e := mapInfo[vRandom[n]];
        if !e.IsTerrible(now) {
          answer := answer + [e.addr];
        }
        n := n + 1;
      }
      AddrRun.ShuffleUnfolds(T(), n, limit, now, order);
    }
  }

  // ------------------------------------------------------------------------------ runs

  /** One call of a public operation is one step of a run. */
  method Step(m: AddrMan, op: AddrRun.Op, rnd: nat)
    requires m.Valid()
    modifies m
    ensures m.Valid() && m.H() == old(m.H()) && m.nKey == old(m.nKey)
    ensures Sane(old(m.T())) && old(m.nIdCount) !in old(m.mapInfo)
    ensures AddrRun.State(m.T(), m.nLastGood) ==
              AddrRun.Exec(old(m.H()), AddrRun.State(old(m.T()), old(m.nLastGood)), op)
  {
    hide AddrTables.Inv, Sane, AddrOps.Good, AddrOps.Add, AddrOps.Attempt, AddrOps.Connected, AddrOps.Shuffle,
      AddrOps.GetAddrLimit, AddrOps.GoodOnes;
    AddrRun.ConsistentIsSane(m.H(), m.T());
    match op
    case OpAdd(addr, source, penalty, now, r) => var _ := m.Add(addr, source, penalty, now, r, true);
    case OpGood(s, time) => m.Good(s, time, rnd);
    case OpAttempt(s, countFailure, time) => m.Attempt(s, countFailure, time);
    case OpConnected(s, time) => m.Connected(s, time);
    case OpGetAddr(now, order) => var _ := m.GetAddr(now, order);
  }

  /** Any calls with positive times, one after another, do what a run does to the tables, and the check passes. */
  method Run(m: AddrMan, ops: seq<AddrRun.Op>, rnd: nat)
    requires m.Valid() && AddrRun.Timely(m.mapInfo) && forall i :: 0 <= i < |ops| ==> AddrRun.PositiveTime(ops[i])
    modifies m
    ensures m.Valid() && m.H() == old(m.H()) && m.nKey == old(m.nKey)
    ensures AddrRun.State(m.T(), m.nLastGood) ==
              AddrRun.ExecAll(old(m.H()), AddrRun.State(old(m.T()), old(m.nLastGood)), ops)
    ensures AddrRun.Check(m.H(), m.T(), m.nKey) <==> m.nKey != 0
    decreases |ops|
  {
    hide AddrTables.Inv, Sane, AddrRun.Exec, AddrRun.Timely, AddrRun.PositiveTime, AddrRun.Check;
    if ops == [] {
      AddrRun.ConsistentPassesCheck(m.H(), m.T(), m.nKey);
    } else {
      AddrRun.ConsistentIsSane(m.H(), m.T());
      AddrRun.ExecKeepsInvariant(m.H(), AddrRun.State(m.T(), m.nLastGood), ops[0]);
      Step(m, ops[0], rnd);
      Run(m, ops[1..], rnd);
    }
  }
}
