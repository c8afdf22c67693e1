/** What the manager's check of itself sees: all of the invariant but the index of addresses. */
module AddrCheck {
  import opened AddrTables
  import opened AddrInv
  import opened AddrRun

  /** A sequence has at most as many elements as places, and as many only if none is repeated. */
  lemma {:induction false} ElementsCount<T(!new)>(v: seq<T>)
    ensures |set x | x in v| <= |v|
    ensures |set x | x in v| == |v| ==> forall i, j :: 0 <= i < j < |v| ==> v[i] != v[j]
  {
    if v == [] {
      assert (set x | x in v) == {};
    } else {
      var u, last := v[..|v| - 1], v[|v| - 1];
      ElementsCount(u);
      assert v == u + [last];
      assert (set x | x in v) == (set x | x in u) + {last};
    }
  }

  lemma SubsetIsAll<T>(a: set<T>, b: set<T>)
    requires a <= b && |b| <= |a|
    ensures a == b
  {
    assert |b - a| == |b| - |a|;
  }

  /** Every entry at its place, and as many places as entries, is a permutation. */
  lemma OrderIsFull(m: map<int, Info>, v: seq<int>)
    requires forall id :: id in m ==> 0 <= m[id].nRandomPos < |v| && v[m[id].nRandomPos] == id
    requires |m.Keys| == |v|
    ensures RandomOrder(m, v)
  {
    var all := set x | x in v;
    ElementsCount(v);
    forall id: int | id in m.Keys
      ensures id in all
    {
      assert v[m[id].nRandomPos] == id;
    }
    SubsetIsAll(m.Keys, all);
    forall i | 0 <= i < |v|
      ensures v[i] in m && m[v[i]].nRandomPos == i
    {
      var id: int := v[i];
      assert id in all && id in m;
    }
  }

  lemma TwoKinds(m: map<int, Info>)
    ensures |m.Keys| == |TriedIds(m)| + |NewIds(m)|
  {
    forall id: int
      ensures id in m.Keys <==> id in TriedIds(m) + NewIds(m)
      ensures !(id in TriedIds(m) && id in NewIds(m))
    {
    }
    assert m.Keys == TriedIds(m) + NewIds(m) && TriedIds(m) * NewIds(m) == {};
  }

  /** The address of an entry leads to it; a missing one leads to entry 0. */
  ghost predicate Addressed(t: Tables) {
    forall id :: id in t.mapInfo ==>
      var a := t.mapInfo[id].Ip(); (if a in t.mapAddr then t.mapAddr[a] else 0) == id
  }

  /** All of the invariant but the index of addresses. */
  ghost predicate Proper(h: Hasher, t: Tables) {
    && RandomOrder(t.mapInfo, t.vRandom) && NewTable(h, t.mapInfo, t.vvNew, {})
    && TriedTable(h, t.mapInfo, t.vvTried) && Counted(t.mapInfo, t.nTried, t.nNew, 0)
  }

  lemma CheckedOrder(h: Hasher, t: Tables)
    requires TablesCheck(h, t)
    ensures RandomOrder(t.mapInfo, t.vRandom) && Timely(t.mapInfo) && Addressed(t)
    ensures Counted(t.mapInfo, t.nTried, t.nNew, 0)
  {
    TwoKinds(t.mapInfo);
    assert forall id :: id in t.mapInfo ==> EntryChecks(t, id);
    OrderIsFull(t.mapInfo, t.vRandom);
  }

  lemma CheckedNew(h: Hasher, t: Tables)
    requires TablesCheck(h, t) && forall s :: s in t.vvNew ==> s.bucket < 1024
    ensures NewTable(h, t.mapInfo, t.vvNew, {})
  {
    var m := t.mapInfo;
    forall id: int | id in m
      ensures m[id].nRefCount == |SlotsOf(t.vvNew, id)| <= 8 && (m[id].nRefCount == 0 <==> m[id].fInTried)
    {
      assert EntryChecks(t, id);
      if m[id].fInTried {
        assert id !in NewIds(m);
        assert SlotsOf(t.vvNew, id) == {};
      } else {
        assert id in NewIds(m);
      }
    }
  }

  lemma OneSlot(s: set<Slot>)
    requires |s| == 1
    ensures exists x :: s == {x}
  {
    var x :| x in s;
    assert |s - {x}| == 0;
    assert s == {x};
  }

  lemma CheckedTried(h: Hasher, t: Tables)
    requires TablesCheck(h, t)
    ensures TriedTable(h, t.mapInfo, t.vvTried)
  {
    var m := t.mapInfo;
    forall id: int | id in m && m[id].fInTried
      ensures h.TriedSlot(m[id].Service()) in t.vvTried && t.vvTried[h.TriedSlot(m[id].Service())] == id
    {
      assert id in TriedIds(m);
      OneSlot(SlotsOf(t.vvTried, id));
      var x :| SlotsOf(t.vvTried, id) == {x};
      assert x in SlotsOf(t.vvTried, id);
    }
  }

  lemma ProperPasses(h: Hasher, t: Tables)
    requires Proper(h, t) && Timely(t.mapInfo) && Addressed(t)
    ensures TablesCheck(h, t)
  {
    var m := t.mapInfo;
    OrderCoversEntries(m, t.vRandom);
    forall id: int | id in TriedIds(m)
      ensures |SlotsOf(t.vvTried, id)| == 1
    {
      assert SlotsOf(t.vvTried, id) == {h.TriedSlot(m[id].Service())};
    }
    forall s | s in t.vvNew
      ensures t.vvNew[s] in NewIds(m)
    {
      var id: int := t.vvNew[s];
      assert s in SlotsOf(t.vvNew, id);
    }
  }

  /** The check passes if and only if the key is not null and all of the invariant but the index of addresses holds. */
  lemma CheckIsExact(h: Hasher, t: Tables, nKey: nat)
    requires forall s :: s in t.vvNew ==> s.bucket < 1024
    ensures Check(h, t, nKey) <==> nKey != 0 && Timely(t.mapInfo) && Addressed(t) && Proper(h, t)
  {
    hide TablesCheck, RandomOrder, NewTable, TriedTable, Timely, Addressed;
    if TablesCheck(h, t) {
      CheckedOrder(h, t);
      CheckedNew(h, t);
      CheckedTried(h, t);
    }
    if Timely(t.mapInfo) && Addressed(t) && Proper(h, t) {
      ProperPasses(h, t);
    }
  }

  /** With ids below the counter and no address too many or missing, it decides whether the tables are consistent. */
  lemma CheckDecides(h: Hasher, t: Tables, nKey: nat)
    requires (forall s :: s in t.vvNew ==> s.bucket < 1024) && nKey != 0 && t.nIdCount >= 0
    requires forall id :: id in t.mapInfo ==> 0 <= id < t.nIdCount && t.mapInfo[id].Ip() in t.mapAddr
    requires forall a :: a in t.mapAddr ==> t.mapAddr[a] in t.mapInfo && t.mapInfo[t.mapAddr[a]].Ip() == a
    ensures Check(h, t, nKey) <==> Consistent(h, t) && Timely(t.mapInfo)
  {
    hide Check, RandomOrder, NewTable, TriedTable, Timely;
    CheckIsExact(h, t, nKey);
  }
}
