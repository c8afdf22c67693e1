/**
 * The larger moves of the address manager, composed from the elementary changes
 * of its tables, and the proof that each keeps the invariant.
 */
module AddrInv {
  import opened AddrTables

  /** Nothing is pending and every entry is counted. */
  ghost predicate Consistent(h: Hasher, t: Tables) {
    Inv(h, t, {}, 0)
  }

  lemma NewTableOf(h: Hasher, t: Tables)
    requires Consistent(h, t)
    ensures NewTable(h, t.mapInfo, t.vvNew, {})
  {
  }

  // ----------------------------------------------------------- elementary moves

  lemma SwapKeepsInv(h: Hasher, t: Tables, i: nat, j: nat, pending: set<int>, k: nat)
    requires Inv(h, t, pending, k) && i < |t.vRandom| && j < |t.vRandom|
    ensures t.vRandom[i] in t.mapInfo && t.vRandom[j] in t.mapInfo
    ensures Inv(h, SwapRandom(t, i, j), pending, k)
  {
    hide NewTable, TriedTable, Counted, AddrIndex, RandomOrder;
    RandomAt(t.mapInfo, t.vRandom, i);
    RandomAt(t.mapInfo, t.vRandom, j);
    if i != j {
      var t' := SwapRandom(t, i, j);
      SwapKeepsOrder(t.mapInfo, t.vRandom, i, j, t'.mapInfo, t'.vRandom);
      SamePlacesKeep(h, t, t'.mapInfo, t'.vRandom, pending, k);
    }
  }

  /** Everything but the random order depends only on services, counts and tried flags. */
  lemma SamePlacesKeep(h: Hasher, t: Tables, m': map<int, Info>, v': seq<int>, pending: set<int>, k: nat)
    requires SamePlaces(t.mapInfo, m') && Inv(h, t, pending, k) && RandomOrder(m', v')
    ensures Inv(h, t.(mapInfo := m', vRandom := v'), pending, k)
  {
    hide NewTable, TriedTable, AddrIndex, RandomOrder, SamePlaces, TriedIds, NewIds;
    SameNewTable(h, t.mapInfo, m', t.vvNew, pending);
    SameTriedTable(h, t.mapInfo, m', t.vvTried);
    SameIndex(t.nIdCount, t.mapInfo, m', t.mapAddr);
    SameIds(t.mapInfo, m');
  }

  lemma CreateKeepsInv(h: Hasher, t: Tables, addr: Address, source: NetAddr, pending: set<int>, k: nat)
    requires Inv(h, t, pending, k) && addr.service.ip !in t.mapAddr
    ensures Inv(h, Create(t, addr, source), pending + {t.nIdCount}, k + 1)
    ensures t.nIdCount !in t.mapInfo
  {
    hide NewTable, TriedTable, AddrIndex, RandomOrder, TriedIds, NewIds;
    var id, e := t.nIdCount, NewInfo(addr, source).(nRandomPos := |t.vRandom|);
    NextIdIsNew(t.nIdCount, t.mapInfo, t.mapAddr);
    CreateIndex(id, t.mapInfo, t.mapAddr, t.vRandom, e);
    AddPendingNew(h, t.mapInfo, t.vvNew, pending, id, e);
    AddUntried(h, t.mapInfo, t.vvTried, id, e);
    AddUntriedIds(t.mapInfo, id, e);
    NewIdsAreIds(t.mapInfo, id);
  }

  lemma NextIdIsNew(n: int, m: map<int, Info>, a: map<NetAddr, int>)
    requires AddrIndex(n, m, a)
    ensures n !in m
  {
  }

  lemma NewIdsAreIds(m: map<int, Info>, id: int)
    ensures id in NewIds(m) ==> id in m
  {
  }

  lemma DeleteKeepsInv(h: Hasher, t: Tables, id: int, pending: set<int>, k: nat)
    requires Inv(h, t, pending, k) && id in pending && id in t.mapInfo
    ensures Inv(h, Delete(t, id), pending - {id}, k)
    ensures AllKept(t.mapInfo, Delete(t, id).mapInfo, {id}) && id !in Delete(t, id).mapInfo
    ensures Delete(t, id).vvNew == t.vvNew && Delete(t, id).vvTried == t.vvTried && Delete(t, id).nIdCount == t.nIdCount
  {
    hide Inv, RandomOrder, SwapRandom, DropLast, AllKept;
    EntryAt(h, t, pending, k, id);
    var p, last := t.mapInfo[id].nRandomPos, |t.vRandom| - 1;
    SwapKeepsInv(h, t, p, last, pending, k);
    SwapKeepsAll(t, p, last);
    var s := SwapRandom(t, p, last);
    DropLastKeepsInv(h, s, id, pending, k);
    KeptTwice(t.mapInfo, s.mapInfo, DropLast(s, id).mapInfo, {}, {id});
    assert {} + {id} == {id};
  }

  lemma DropLastKeepsInv(h: Hasher, s: Tables, id: int, pending: set<int>, k: nat)
    requires Inv(h, s, pending, k) && id in pending && id in s.mapInfo && s.mapInfo[id].nRandomPos == |s.vRandom| - 1
    ensures |s.vRandom| > 0 && Inv(h, DropLast(s, id), pending - {id}, k)
    ensures AllKept(s.mapInfo, DropLast(s, id).mapInfo, {id}) && id !in DropLast(s, id).mapInfo
    ensures DropLast(s, id).vvNew == s.vvNew && DropLast(s, id).vvTried == s.vvTried &&
            DropLast(s, id).nIdCount == s.nIdCount
  {
    hide NewTable, TriedTable, AddrIndex, RandomOrder, TriedIds, NewIds;
    EntryAt(h, s, pending, k, id);
    DeleteIndex(s.nIdCount, s.mapInfo, s.mapAddr, s.vRandom, id);
    DropPendingNew(h, s.mapInfo, s.vvNew, pending, id);
    DropUntried(h, s.mapInfo, s.vvTried, id);
    DropUntriedIds(s.mapInfo, id);
  }

  // ------------------------------------------------------------------ new slots

  lemma ReleaseKeepsInv(h: Hasher, t: Tables, s: Slot, pending: set<int>, k: nat)
    requires Inv(h, t, pending, k) && s in t.vvNew && t.vvNew[s] in t.mapInfo
    ensures var id := t.vvNew[s];
            Inv(h, Release(t, s), if Release(t, s).mapInfo[id].nRefCount == 0 then pending + {id} else pending, k)
  {
    hide NewTable, TriedTable, AddrIndex, RandomOrder, TriedIds, NewIds;
    var id := t.vvNew[s];
    var e := t.mapInfo[id].(nRefCount := t.mapInfo[id].nRefCount - 1);
    UpdateIndex(t.nIdCount, t.mapInfo, t.mapAddr, t.vRandom, id, e);
    ReleaseSlot(h, t.mapInfo, t.vvNew, pending, s);
    UpdateTried(h, t.mapInfo, t.vvTried, id, e);
    RecountIds(t.mapInfo, id, e.nRefCount);
  }

  /** Clearing a slot touches no entry but its occupant, who was not pending. */
  lemma ClearNewKeepsInv(h: Hasher, t: Tables, s: Slot, pending: set<int>, k: nat)
    requires Inv(h, t, pending, k)
    requires s in t.vvNew ==> t.vvNew[s] in t.mapInfo && RandomOrder(t.mapInfo, t.vRandom)
    ensures var r := ClearNew(t, s);
            && Inv(h, r, pending, k)
            && AllKept(t.mapInfo, r.mapInfo, Occupant(t.vvNew, s))
            && r.vvNew == t.vvNew - {s} && r.vvTried == t.vvTried && r.nIdCount == t.nIdCount
  {
    hide Inv, RandomOrder, Delete, AllKept;
    if s in t.vvNew {
      var id := t.vvNew[s];
      var r := Release(t, s);
      NewSlotAt(h, t, pending, k, s);
      ReleaseKeepsInv(h, t, s, pending, k);
      UpdateKept(t.mapInfo, id, r.mapInfo[id]);
      if r.mapInfo[id].nRefCount == 0 {
        EntryAt(h, r, pending + {id}, k, id);
        DeleteKeepsInv(h, r, id, pending + {id}, k);
        KeptTwice(t.mapInfo, r.mapInfo, Delete(r, id).mapInfo, {id}, {id});
        assert pending + {id} - {id} == pending;
        assert {id} + {id} == {id};
      }
    } else {
      KeptSelf(t.mapInfo);
      assert t.vvNew - {s} == t.vvNew;
    }
  }

  lemma KeptSelf(m: map<int, Info>)
    ensures AllKept(m, m, {})
  {
  }

  lemma OccupyKeepsInv(h: Hasher, t: Tables, s: Slot, id: int, pending: set<int>, k: nat)
    requires Inv(h, t, pending, k) && s !in t.vvNew && id in t.mapInfo && !t.mapInfo[id].fInTried
    requires s.bucket < NEW_BUCKET_COUNT && s == h.NewSlotIn(t.mapInfo[id].Service(), s.bucket)
    requires t.mapInfo[id].nRefCount < NEW_BUCKETS_PER_ADDRESS
    ensures Inv(h, Occupy(t, s, id), pending - {id}, k)
  {
    hide NewTable, TriedTable, AddrIndex, RandomOrder, TriedIds, NewIds;
    var e := t.mapInfo[id].(nRefCount := t.mapInfo[id].nRefCount + 1);
    UpdateIndex(t.nIdCount, t.mapInfo, t.mapAddr, t.vRandom, id, e);
    OccupySlot(h, t.mapInfo, t.vvNew, pending, s, id);
    UpdateTried(h, t.mapInfo, t.vvTried, id, e);
    RecountIds(t.mapInfo, id, e.nRefCount);
  }

  // -------------------------------------------------------------- the tried table

  lemma LeaveNewKeepsInv(h: Hasher, t: Tables, id: int, pending: set<int>, k: nat)
    requires Inv(h, t, pending, k) && id in t.mapInfo && !t.mapInfo[id].fInTried
    ensures Inv(h, LeaveNew(t, id), pending + {id}, k + 1)
  {
    hide NewTable, TriedTable, AddrIndex, RandomOrder, TriedIds, NewIds;
    var e := t.mapInfo[id].(nRefCount := 0);
    UpdateIndex(t.nIdCount, t.mapInfo, t.mapAddr, t.vRandom, id, e);
    ReleaseAll(h, t.mapInfo, t.vvNew, pending, id);
    UpdateTried(h, t.mapInfo, t.vvTried, id, e);
    RecountIds(t.mapInfo, id, 0);
  }

  lemma EvictKeepsInv(h: Hasher, t: Tables, id: int, pending: set<int>, k: nat)
    requires Inv(h, t, pending, k) && id in t.mapInfo && t.mapInfo[id].fInTried
    ensures Inv(h, Evict(h, t, id), pending + {id}, k + 1)
  {
    hide NewTable, TriedTable, AddrIndex, RandomOrder, TriedIds, NewIds;
    UpdateIndex(t.nIdCount, t.mapInfo, t.mapAddr, t.vRandom, id, t.mapInfo[id].(fInTried := false));
    LeaveTriedNew(h, t.mapInfo, t.vvNew, pending, id);
    LeaveTried(h, t.mapInfo, t.vvTried, id);
    LeaveTriedIds(t.mapInfo, id);
  }

  lemma SettleKeepsInv(h: Hasher, t: Tables, id: int, pending: set<int>, k: nat)
    requires Inv(h, t, pending, k) && id in pending && id in t.mapInfo && k > 0
    requires h.TriedSlot(t.mapInfo[id].Service()) !in t.vvTried
    ensures Inv(h, Settle(h, t, id), pending - {id}, k - 1)
  {
    hide NewTable, TriedTable, AddrIndex, RandomOrder, TriedIds, NewIds;
    EntryAt(h, t, pending, k, id);
    UpdateIndex(t.nIdCount, t.mapInfo, t.mapAddr, t.vRandom, id, t.mapInfo[id].(fInTried := true));
    EnterTriedNew(h, t.mapInfo, t.vvNew, pending, id);
    EnterTried(h, t.mapInfo, t.vvTried, id);
    EnterTriedIds(t.mapInfo, id);
  }

  /** A demoted entry ends up untried, in exactly the slot its source gives it. */
  lemma DemoteKeepsInv(h: Hasher, t: Tables, id: int, pending: set<int>, k: nat)
    requires Inv(h, t, pending, k) && Sane(t) && id in t.mapInfo && t.mapInfo[id].fInTried
    ensures var r := Demote(h, t, id);
            var s := HomeSlot(h, t.mapInfo[id]);
            && Inv(h, r, pending, k)
            && AllKept(t.mapInfo, r.mapInfo, {id} + Occupant(t.vvNew, s)) && id !in Occupant(t.vvNew, s)
            && id in r.mapInfo
            && r.mapInfo[id] == t.mapInfo[id].(fInTried := false, nRefCount := 1,
                                               nRandomPos := r.mapInfo[id].nRandomPos)
            && r.vvNew == t.vvNew[s := id] && r.vvTried == t.vvTried - {h.TriedSlot(t.mapInfo[id].Service())}
            && r.nIdCount == t.nIdCount
  {
    hide Inv, ClearNew, AllKept, RandomOrder, Sane, HomeSlot;
    var s := HomeSlot(h, t.mapInfo[id]);
    var a := Evict(h, t, id);
    EvictKeepsInv(h, t, id, pending, k);
    UpdateKept(t.mapInfo, id, a.mapInfo[id]);
    ClearNewIsDefined(h, a, pending + {id}, k + 1, s);
    ClearNewKeepsInv(h, a, s, pending + {id}, k + 1);
    var r := ClearNew(a, s);
    AllKeptAt(a.mapInfo, r.mapInfo, Occupant(t.vvNew, s), id);
    KeptTwice(t.mapInfo, a.mapInfo, r.mapInfo, {id}, Occupant(t.vvNew, s));
    EvictedCount(h, t, id, pending, k);
    HomeSlotIsOwn(h, t.mapInfo[id]);
    OccupyKeepsInv(h, r, s, id, pending + {id}, k + 1);
    assert pending + {id} - {id} == pending;
    CountOneMore(h, Occupy(r, s, id), pending, k + 1);
    KeptThenUpdated(t.mapInfo, r.mapInfo, {id} + Occupant(t.vvNew, s), id, Occupy(r, s, id).mapInfo[id]);
    assert (t.vvNew - {s})[s := id] == t.vvNew[s := id];
  }

  /** The entries that moving `id` to the tried table can touch. */
  function Displaced(h: Hasher, t: Tables, id: int): set<int>
    requires id in t.mapInfo
  {
    var s := h.TriedSlot(t.mapInfo[id].Service());
    if s in t.vvTried && t.vvTried[s] in t.mapInfo then
      {id, t.vvTried[s]} + Occupant(Without(t.vvNew, id), HomeSlot(h, t.mapInfo[t.vvTried[s]]))
    else {id}
  }

  lemma MakeTriedKeepsInv(h: Hasher, t: Tables, id: int)
    requires Consistent(h, t) && Sane(t) && id in t.mapInfo && !t.mapInfo[id].fInTried
    ensures var r := MakeTried(h, t, id);
            var s := h.TriedSlot(t.mapInfo[id].Service());
            && Consistent(h, r) && r.nIdCount == t.nIdCount
            && AllKept(t.mapInfo, r.mapInfo, Displaced(h, t, id))
            && id in r.mapInfo
            && r.mapInfo[id] == t.mapInfo[id].(fInTried := true, nRefCount := 0, nRandomPos := r.mapInfo[id].nRandomPos)
            && r.vvTried == t.vvTried[s := id]
            && (s !in t.vvTried ==> r.vvNew == Without(t.vvNew, id))
            && (s in t.vvTried ==>
                  var ev := t.vvTried[s];
                  && ev in t.mapInfo && ev in r.mapInfo
                  && r.vvNew == Without(t.vvNew, id)[HomeSlot(h, t.mapInfo[ev]) := ev]
                  && r.mapInfo[ev] == t.mapInfo[ev].(fInTried := false, nRefCount := 1,
                                                     nRandomPos := r.mapInfo[ev].nRandomPos))
  {
    hide Inv, AllKept, RandomOrder, Sane, HomeSlot, Demote, Without;
    var s := h.TriedSlot(t.mapInfo[id].Service());
    var a := LeaveNew(t, id);
    assert {} + {id} == {id} && {id} - {id} == {};
    LeaveNewKeepsInv(h, t, id, {}, 0);
    InvIsSane(h, a, {id}, 1);
    UpdateKept(t.mapInfo, id, a.mapInfo[id]);
    if s in t.vvTried {
      var ev := t.vvTried[s];
      TriedSlotAt(h, t, {}, 0, s);
      DemoteKeepsInv(h, a, ev, {id}, 1);
      var b := Demote(h, a, ev);
      var occ := Occupant(a.vvNew, HomeSlot(h, t.mapInfo[ev]));
      PendingIsNoOccupant(h, a, {id}, 1, HomeSlot(h, t.mapInfo[ev]));
      AllKeptAt(a.mapInfo, b.mapInfo, {ev} + occ, id);
      SettleKeepsInv(h, b, id, {id}, 1);
      KeptTwice(t.mapInfo, a.mapInfo, b.mapInfo, {id}, {ev} + occ);
      assert {id} + ({ev} + occ) == Displaced(h, t, id);
      KeptThenUpdated(t.mapInfo, b.mapInfo, Displaced(h, t, id), id, Settle(h, b, id).mapInfo[id]);
      assert (t.vvTried - {s})[s := id] == t.vvTried[s := id];
    } else {
      SettleKeepsInv(h, a, id, {id}, 1);
      KeptThenUpdated(t.mapInfo, a.mapInfo, {id}, id, Settle(h, a, id).mapInfo[id]);
    }
  }

  lemma PendingIsNoOccupant(h: Hasher, t: Tables, pending: set<int>, k: nat, s: Slot)
    requires Inv(h, t, pending, k)
    ensures Occupant(t.vvNew, s) !! pending
  {
    hide Inv;
    ClearNewIsDefined(h, t, pending, k, s);
  }

  /** What the new table needs for a slot to be cleared. */
  lemma ClearNewReady(h: Hasher, t: Tables, pending: set<int>, k: nat, s: Slot)
    requires Inv(h, t, pending, k)
    ensures s in t.vvNew ==> t.vvNew[s] in t.mapInfo && RandomOrder(t.mapInfo, t.vRandom)
    ensures s in t.vvNew ==> t.mapInfo[t.vvNew[s]].nRefCount > 0 && !t.mapInfo[t.vvNew[s]].fInTried
  {
    hide Inv;
    ClearNewIsDefined(h, t, pending, k, s);
    if s in t.vvNew {
      NewSlotAt(h, t, pending, k, s);
    }
  }

  /** Once an entry has left the new table, the entry in its tried slot can be demoted. */
  lemma LeaveNewReady(h: Hasher, t: Tables, id: int, s: Slot)
    requires Consistent(h, t) && id in t.mapInfo && !t.mapInfo[id].fInTried
    ensures Inv(h, LeaveNew(t, id), {id}, 1) && Sane(LeaveNew(t, id))
    ensures s in t.vvTried ==>
              t.vvTried[s] in LeaveNew(t, id).mapInfo && LeaveNew(t, id).mapInfo[t.vvTried[s]].fInTried &&
              h.TriedSlot(LeaveNew(t, id).mapInfo[t.vvTried[s]].Service()) == s
  {
    hide Inv, Sane;
    assert {} + {id} == {id};
    LeaveNewKeepsInv(h, t, id, {}, 0);
    InvIsSane(h, LeaveNew(t, id), {id}, 1);
    if s in t.vvTried {
      TriedSlotAt(h, t, {}, 0, s);
    }
  }
}
