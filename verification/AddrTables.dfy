/**
 * The tables of the stochastic address manager as values: the elementary
 * changes its methods make, and the invariant that its debug check spells out.
 */
module AddrTables {

  const TRIED_BUCKET_COUNT := 256
  const NEW_BUCKET_COUNT := 1024
  const BUCKET_SIZE := 64
  const TRIED_BUCKETS_PER_GROUP := 8
  const NEW_BUCKETS_PER_SOURCE_GROUP := 64
  const NEW_BUCKETS_PER_ADDRESS := 8
  const HORIZON_DAYS := 30
  const RETRIES := 3
  const MAX_FAILURES := 10
  const MIN_FAIL_DAYS := 7

  /** An IP address, without port. */
  type NetAddr = nat
  type Group = nat

  datatype Service = Service(ip: NetAddr, port: nat)

  type Uint32 = x: nat | x < 0x1_0000_0000

  datatype Address = Address(service: Service, nServices: bv64, nTime: Uint32)

  datatype Slot = Slot(bucket: nat, pos: nat)

  // ------------------------------------------------------------- bucket hashes

  /** What is fed to the keyed hash in each of the five places it is used. */
  datatype HashInput =
    | TriedKey(service: Service)
    | TriedGroup(group: Group, n: nat)
    | NewGroups(group: Group, source: Group)
    | NewSource(source: Group, n: nat)
    | Position(isNew: bool, bucket: nat, service: Service)

  /** The keyed cheap hash and the grouping of addresses. */
  datatype Hasher = Hasher(hash: HashInput -> nat, group: NetAddr -> Group) {

    function TriedBucket(s: Service): (b: nat)
      ensures b < TRIED_BUCKET_COUNT
    {
      var h1 := hash(TriedKey(s));
      hash(TriedGroup(group(s.ip), h1 % TRIED_BUCKETS_PER_GROUP)) % TRIED_BUCKET_COUNT
    }

    function NewBucket(s: Service, source: NetAddr): (b: nat)
      ensures b < NEW_BUCKET_COUNT
    {
      var h1 := hash(NewGroups(group(s.ip), group(source)));
      hash(NewSource(group(source), h1 % NEW_BUCKETS_PER_SOURCE_GROUP)) % NEW_BUCKET_COUNT
    }

    function BucketPosition(isNew: bool, bucket: nat, s: Service): (p: nat)
      ensures p < BUCKET_SIZE
    {
      hash(Position(isNew, bucket, s)) % BUCKET_SIZE
    }

    function TriedSlot(s: Service): Slot {
      var b := TriedBucket(s);
      Slot(b, BucketPosition(false, b, s))
    }

    /** Where an address goes in a given new bucket. */
    function NewSlotIn(s: Service, bucket: nat): Slot {
      Slot(bucket, BucketPosition(true, bucket, s))
    }

    function NewSlot(s: Service, source: NetAddr): Slot {
      NewSlotIn(s, NewBucket(s, source))
    }
  }

  // ------------------------------------------------------------------- entries

  datatype Info = Info(addr: Address, source: NetAddr, nLastTry: int, nLastCountAttempt: int,
                       nLastSuccess: int, nAttempts: int, nRefCount: int, fInTried: bool, nRandomPos: int)
  {
    function Service(): Service {
      addr.service
    }

    function Ip(): NetAddr {
      addr.service.ip
    }

    /** Whether the statistics are bad enough for the entry to be dropped. */
    predicate IsTerrible(now: int) {
      if nLastTry != 0 && nLastTry >= now - 60 then false
      else
        || addr.nTime > now + 10 * 60
        || addr.nTime == 0 || now - addr.nTime > HORIZON_DAYS * 24 * 60 * 60
        || (nLastSuccess == 0 && nAttempts >= RETRIES)
        || (now - nLastSuccess > MIN_FAIL_DAYS * 24 * 60 * 60 && nAttempts >= MAX_FAILURES)
    }
  }

  function NewInfo(addr: Address, source: NetAddr): Info {
    Info(addr, source, 0, 0, 0, 0, 0, false, -1)
  }

  /** The tables; a slot that holds no entry is absent from its map. */
  datatype Tables = Tables(nIdCount: int, mapInfo: map<int, Info>, mapAddr: map<NetAddr, int>, vRandom: seq<int>,
                           nTried: int, nNew: int, vvTried: map<Slot, int>, vvNew: map<Slot, int>)

  const EmptyTables := Tables(0, map[], map[], [], 0, 0, map[], map[])

  // ----------------------------------------------------------------- invariant

  /** Ids and addresses index each other. */
  ghost predicate AddrIndex(nIdCount: int, m: map<int, Info>, mapAddr: map<NetAddr, int>) {
    && 0 <= nIdCount
    && (forall id :: id in m ==> 0 <= id < nIdCount)
    && (forall id :: id in m ==> m[id].Ip() in mapAddr && mapAddr[m[id].Ip()] == id)
    && (forall a :: a in mapAddr ==> mapAddr[a] in m && m[mapAddr[a]].Ip() == a)
  }

  /** The random order is a permutation of the ids, and every entry knows its place in it. */
  ghost predicate RandomOrder(m: map<int, Info>, vRandom: seq<int>) {
    && (forall id :: id in m ==> 0 <= m[id].nRandomPos < |vRandom| && vRandom[m[id].nRandomPos] == id)
    && (forall i :: 0 <= i < |vRandom| ==> vRandom[i] in m && m[vRandom[i]].nRandomPos == i)
  }

  function SlotsOf(table: map<Slot, int>, id: int): set<Slot> {
    set s | s in table && table[s] == id
  }

  /**
   * The new table holds untried entries at their own slots, reference counts
   * count slots, and only `pending` entries have none.
   */
  ghost predicate NewTable(h: Hasher, m: map<int, Info>, vvNew: map<Slot, int>, pending: set<int>) {
    && (forall s :: s in vvNew ==>
        s.bucket < NEW_BUCKET_COUNT && vvNew[s] in m && s == h.NewSlotIn(m[vvNew[s]].Service(), s.bucket))
    && (forall id :: id in m ==> m[id].nRefCount == |SlotsOf(vvNew, id)| <= NEW_BUCKETS_PER_ADDRESS)
    && (forall id :: id in m ==> (m[id].nRefCount == 0 <==> m[id].fInTried || id in pending))
    && (forall id :: id in pending ==> id in m && !m[id].fInTried)
  }

  /** The tried table holds exactly the tried entries, each at its one slot. */
  ghost predicate TriedTable(h: Hasher, m: map<int, Info>, vvTried: map<Slot, int>) {
    && (forall s :: s in vvTried ==>
        vvTried[s] in m && m[vvTried[s]].fInTried && s == h.TriedSlot(m[vvTried[s]].Service()))
    && (forall id :: id in m && m[id].fInTried ==>
          h.TriedSlot(m[id].Service()) in vvTried && vvTried[h.TriedSlot(m[id].Service())] == id)
  }

  function TriedIds(m: map<int, Info>): set<int> {
    set id | id in m && m[id].fInTried
  }

  function NewIds(m: map<int, Info>): set<int> {
    set id | id in m && !m[id].fInTried
  }

  /** The counters, while `k` entries are being moved and counted nowhere. */
  ghost predicate Counted(m: map<int, Info>, nTried: int, nNew: int, k: nat) {
    nTried == |TriedIds(m)| && nNew + k == |NewIds(m)|
  }

  ghost predicate Inv(h: Hasher, t: Tables, pending: set<int>, k: nat) {
    && AddrIndex(t.nIdCount, t.mapInfo, t.mapAddr)
    && RandomOrder(t.mapInfo, t.vRandom)
    && NewTable(h, t.mapInfo, t.vvNew, pending)
    && TriedTable(h, t.mapInfo, t.vvTried)
    && Counted(t.mapInfo, t.nTried, t.nNew, k)
  }

  // --------------------------------------------------- entries that keep place

  /** Two infos that agree on what the tables and counters depend on. */
  predicate SamePlace(a: Info, b: Info) {
    a.Service() == b.Service() && a.nRefCount == b.nRefCount && a.fInTried == b.fInTried
  }

  ghost predicate SamePlaces(m: map<int, Info>, m': map<int, Info>) {
    && (forall id :: id in m ==> id in m' && SamePlace(m[id], m'[id]))
    && (forall id :: id in m' ==> id in m)
  }

  lemma SameNewTable(h: Hasher, m: map<int, Info>, m': map<int, Info>, vvNew: map<Slot, int>, pending: set<int>)
    requires SamePlaces(m, m') && NewTable(h, m, vvNew, pending)
    ensures NewTable(h, m', vvNew, pending)
  {
    forall s | s in vvNew ensures vvNew[s] in m' && s == h.NewSlotIn(m'[vvNew[s]].Service(), s.bucket) {
      var id: int := vvNew[s];
      assert id in m && id in m';
    }
  }

  lemma SameTriedTable(h: Hasher, m: map<int, Info>, m': map<int, Info>, vvTried: map<Slot, int>)
    requires SamePlaces(m, m') && TriedTable(h, m, vvTried)
    ensures TriedTable(h, m', vvTried)
  {
    forall s | s in vvTried
      ensures vvTried[s] in m' && m'[vvTried[s]].fInTried && s == h.TriedSlot(m'[vvTried[s]].Service())
    {
      var id: int := vvTried[s];
      assert id in m && id in m';
    }
  }

  lemma SameIndex(n: int, m: map<int, Info>, m': map<int, Info>, a: map<NetAddr, int>)
    requires SamePlaces(m, m') && AddrIndex(n, m, a)
    ensures AddrIndex(n, m', a)
  {
    forall x | x in a ensures a[x] in m' && m'[a[x]].Ip() == x {
      var id: int := a[x];
      assert id in m && id in m';
    }
  }

  lemma SameIds(m: map<int, Info>, m': map<int, Info>)
    requires SamePlaces(m, m')
    ensures TriedIds(m') == TriedIds(m) && NewIds(m') == NewIds(m)
  {
    forall id: int ensures id in TriedIds(m') <==> id in TriedIds(m) {
    }
    forall id: int ensures id in NewIds(m') <==> id in NewIds(m) {
    }
  }

  /** An entry that at most changed its random place. */
  predicate Kept(m: map<int, Info>, m': map<int, Info>, id: int) {
    id in m && id in m' && m'[id] == m[id].(nRandomPos := m'[id].nRandomPos)
  }

  /** No entry but those in `changed` was touched, and none was added. */
  ghost predicate AllKept(m: map<int, Info>, m': map<int, Info>, changed: set<int>) {
    && (forall id :: id in m && id !in changed ==> Kept(m, m', id))
    && (forall id :: id in m' ==> id in m)
  }

  lemma KeptTwice(m: map<int, Info>, m': map<int, Info>, m'': map<int, Info>, a: set<int>, b: set<int>)
    requires AllKept(m, m', a) && AllKept(m', m'', b)
    ensures AllKept(m, m'', a + b)
  {
    forall id: int | id in m && id !in a + b ensures Kept(m, m'', id) {
      assert Kept(m, m', id) && Kept(m', m'', id);
    }
  }

  // -------------------------------------------------------------- random order

  /** Swaps two places of the random order. */
  function SwapRandom(t: Tables, i: nat, j: nat): Tables
    requires i < |t.vRandom| && j < |t.vRandom| && t.vRandom[i] in t.mapInfo && t.vRandom[j] in t.mapInfo
  {
    if i == j then t
    else
      var a, b := t.vRandom[i], t.vRandom[j];
      var m := t.mapInfo[a := t.mapInfo[a].(nRandomPos := j)];
      t.(mapInfo := m[b := m[b].(nRandomPos := i)], vRandom := t.vRandom[i := b][j := a])
  }

  /** What the invariant says about the places of one entry. */
  lemma EntryAt(h: Hasher, t: Tables, pending: set<int>, k: nat, id: int)
    requires Inv(h, t, pending, k) && id in t.mapInfo
    ensures 0 <= t.mapInfo[id].nRandomPos < |t.vRandom| && t.vRandom[t.mapInfo[id].nRandomPos] == id
    ensures 0 <= id < t.nIdCount && 0 <= t.mapInfo[id].nRefCount <= NEW_BUCKETS_PER_ADDRESS
    ensures t.mapInfo[id].nRefCount == 0 <==> t.mapInfo[id].fInTried || id in pending
    ensures id in pending ==> !t.mapInfo[id].fInTried
    ensures RandomOrder(t.mapInfo, t.vRandom)
  {
  }

  lemma RandomAt(m: map<int, Info>, v: seq<int>, i: nat)
    requires RandomOrder(m, v) && i < |v|
    ensures v[i] in m && m[v[i]].nRandomPos == i
  {
  }

  lemma AllKeptAt(m: map<int, Info>, m': map<int, Info>, changed: set<int>, id: int)
    requires AllKept(m, m', changed)
    ensures id in m && id !in changed ==> Kept(m, m', id)
    ensures id in m' ==> id in m
  {
  }

  /** A swap touches nothing but two random places. */
  lemma SwapKeepsAll(t: Tables, i: nat, j: nat)
    requires RandomOrder(t.mapInfo, t.vRandom) && i < |t.vRandom| && j < |t.vRandom|
    ensures var s := SwapRandom(t, i, j);
            && AllKept(t.mapInfo, s.mapInfo, {}) && t.vRandom[i] in s.mapInfo && s.mapInfo[t.vRandom[i]].nRandomPos == j
            && |s.vRandom| == |t.vRandom| && s.vvNew == t.vvNew && s.vvTried == t.vvTried && s.nIdCount == t.nIdCount
  {
  }

  lemma SwapKeepsOrder(m: map<int, Info>, v: seq<int>, i: nat, j: nat, m': map<int, Info>, v': seq<int>)
    requires RandomOrder(m, v) && i < |v| && j < |v| && i != j
    requires v' == v[i := v[j]][j := v[i]]
    requires m' == m[v[i] := m[v[i]].(nRandomPos := j)][v[j] := m[v[j]].(nRandomPos := i)]
    ensures RandomOrder(m', v') && SamePlaces(m, m')
  {
    assert v[i] != v[j];
  }

  // ------------------------------------------------------------ creating entries

  /** Gives a new address the next id and the last random position. */
  function Create(t: Tables, addr: Address, source: NetAddr): Tables {
    var id := t.nIdCount;
    t.(nIdCount := id + 1,
       mapInfo := t.mapInfo[id := NewInfo(addr, source).(nRandomPos := |t.vRandom|)],
       mapAddr := t.mapAddr[addr.service.ip := id],
       vRandom := t.vRandom + [id])
  }

  lemma CreateIndex(n: int, m: map<int, Info>, a: map<NetAddr, int>, v: seq<int>, e: Info)
    requires AddrIndex(n, m, a) && RandomOrder(m, v) && e.Ip() !in a && e.nRandomPos == |v|
    ensures AddrIndex(n + 1, m[n := e], a[e.Ip() := n]) && RandomOrder(m[n := e], v + [n])
  {
  }

  /** An entry without slots can be added; it is pending until it gets one. */
  lemma AddPendingNew(h: Hasher, m: map<int, Info>, vvNew: map<Slot, int>, pending: set<int>, id: int, e: Info)
    requires NewTable(h, m, vvNew, pending) && id !in m && e.nRefCount == 0 && !e.fInTried
    ensures NewTable(h, m[id := e], vvNew, pending + {id})
  {
    assert SlotsOf(vvNew, id) == {};
  }

  lemma AddUntried(h: Hasher, m: map<int, Info>, vvTried: map<Slot, int>, id: int, e: Info)
    requires TriedTable(h, m, vvTried) && id !in m && !e.fInTried
    ensures TriedTable(h, m[id := e], vvTried)
  {
  }

  lemma AddUntriedIds(m: map<int, Info>, id: int, e: Info)
    requires id !in m && !e.fInTried
    ensures TriedIds(m[id := e]) == TriedIds(m) && NewIds(m[id := e]) == NewIds(m) + {id}
  {
  }

  // ------------------------------------------------------------ deleting entries

  /** Removes an entry: its random place is filled by the last one. */
  function Delete(t: Tables, id: int): Tables
    requires id in t.mapInfo && RandomOrder(t.mapInfo, t.vRandom)
  {
    DropLast(SwapRandom(t, t.mapInfo[id].nRandomPos, |t.vRandom| - 1), id)
  }

  /** Removes an entry that is last in the random order. */
  function DropLast(t: Tables, id: int): Tables
    requires id in t.mapInfo && |t.vRandom| > 0
  {
    t.(vRandom := t.vRandom[..|t.vRandom| - 1], mapAddr := t.mapAddr - {t.mapInfo[id].Ip()},
       mapInfo := t.mapInfo - {id}, nNew := t.nNew - 1)
  }

  lemma DeleteIndex(n: int, m: map<int, Info>, a: map<NetAddr, int>, v: seq<int>, id: int)
    requires AddrIndex(n, m, a) && RandomOrder(m, v) && id in m && m[id].nRandomPos == |v| - 1
    ensures AddrIndex(n, m - {id}, a - {m[id].Ip()}) && RandomOrder(m - {id}, v[..|v| - 1])
  {
  }

  lemma DropPendingNew(h: Hasher, m: map<int, Info>, vvNew: map<Slot, int>, pending: set<int>, id: int)
    requires NewTable(h, m, vvNew, pending) && id in pending
    ensures NewTable(h, m - {id}, vvNew, pending - {id})
  {
    assert forall s :: s in vvNew ==> s in SlotsOf(vvNew, vvNew[s]);
    assert SlotsOf(vvNew, id) == {};
  }

  lemma DropUntried(h: Hasher, m: map<int, Info>, vvTried: map<Slot, int>, id: int)
    requires TriedTable(h, m, vvTried) && id in m && !m[id].fInTried
    ensures TriedTable(h, m - {id}, vvTried)
  {
  }

  lemma DropUntriedIds(m: map<int, Info>, id: int)
    requires id in m && !m[id].fInTried
    ensures TriedIds(m - {id}) == TriedIds(m) && NewIds(m - {id}) == NewIds(m) - {id} && id in NewIds(m)
  {
  }

  // ---------------------------------------------------------- slots of new tables

  /** Adding a slot for an entry raises only that entry's count. */
  lemma SlotsWith(table: map<Slot, int>, s: Slot, id: int)
    requires s !in table
    ensures SlotsOf(table[s := id], id) == SlotsOf(table, id) + {s} && s !in SlotsOf(table, id)
    ensures forall j :: j != id ==> SlotsOf(table[s := id], j) == SlotsOf(table, j)
  {
  }

  lemma SlotsWithout(table: map<Slot, int>, s: Slot)
    requires s in table
    ensures SlotsOf(table - {s}, table[s]) == SlotsOf(table, table[s]) - {s} && s in SlotsOf(table, table[s])
    ensures forall j :: j != table[s] ==> SlotsOf(table - {s}, j) == SlotsOf(table, j)
  {
  }

  /** Taking an entry out of one slot; it becomes pending if that was its last. */
  lemma ReleaseSlot(h: Hasher, m: map<int, Info>, vvNew: map<Slot, int>, pending: set<int>, s: Slot)
    requires NewTable(h, m, vvNew, pending) && s in vvNew
    ensures var id := vvNew[s];
            var e := m[id].(nRefCount := m[id].nRefCount - 1);
            && m[id].nRefCount > 0 && !m[id].fInTried && id !in pending
            && NewTable(h, m[id := e], vvNew - {s}, if e.nRefCount == 0 then pending + {id} else pending)
  {
    SlotsWithout(vvNew, s);
  }

  /** Putting an untried entry into a free slot that is its own. */
  lemma OccupySlot(h: Hasher, m: map<int, Info>, vvNew: map<Slot, int>, pending: set<int>, s: Slot, id: int)
    requires NewTable(h, m, vvNew, pending) && s !in vvNew && id in m && !m[id].fInTried
    requires s.bucket < NEW_BUCKET_COUNT && s == h.NewSlotIn(m[id].Service(), s.bucket)
    requires m[id].nRefCount < NEW_BUCKETS_PER_ADDRESS
    ensures NewTable(h, m[id := m[id].(nRefCount := m[id].nRefCount + 1)], vvNew[s := id], pending - {id})
  {
    SlotsWith(vvNew, s, id);
    var m' := m[id := m[id].(nRefCount := m[id].nRefCount + 1)];
    forall j: int | j in m' ensures m'[j].nRefCount == |SlotsOf(vvNew[s := id], j)| {
    }
  }

  // --------------------------------------------------------- moving to and fro

  function Without(table: map<Slot, int>, id: int): map<Slot, int> {
    map s | s in table && table[s] != id :: table[s]
  }

  /** Taking an untried entry out of all its slots. */
  lemma ReleaseAll(h: Hasher, m: map<int, Info>, vvNew: map<Slot, int>, pending: set<int>, id: int)
    requires NewTable(h, m, vvNew, pending) && id in m && !m[id].fInTried
    ensures NewTable(h, m[id := m[id].(nRefCount := 0)], Without(vvNew, id), pending + {id})
  {
    assert SlotsOf(Without(vvNew, id), id) == {};
    forall j: int | j != id ensures SlotsOf(Without(vvNew, id), j) == SlotsOf(vvNew, j) {
    }
  }

  /** An entry that leaves the tried table has no new slot yet. */
  lemma LeaveTriedNew(h: Hasher, m: map<int, Info>, vvNew: map<Slot, int>, pending: set<int>, id: int)
    requires NewTable(h, m, vvNew, pending) && id in m && m[id].fInTried
    ensures NewTable(h, m[id := m[id].(fInTried := false)], vvNew, pending + {id})
    ensures id !in pending
  {
  }

  lemma LeaveTried(h: Hasher, m: map<int, Info>, vvTried: map<Slot, int>, id: int)
    requires TriedTable(h, m, vvTried) && id in m && m[id].fInTried
    ensures TriedTable(h, m[id := m[id].(fInTried := false)], vvTried - {h.TriedSlot(m[id].Service())})
  {
  }

  lemma LeaveTriedIds(m: map<int, Info>, id: int)
    requires id in m && m[id].fInTried
    ensures var m' := m[id := m[id].(fInTried := false)];
            TriedIds(m') == TriedIds(m) - {id} && NewIds(m') == NewIds(m) + {id} && id in TriedIds(m) &&
              id !in NewIds(m)
  {
  }

  lemma EnterTriedNew(h: Hasher, m: map<int, Info>, vvNew: map<Slot, int>, pending: set<int>, id: int)
    requires NewTable(h, m, vvNew, pending) && id in pending
    ensures NewTable(h, m[id := m[id].(fInTried := true)], vvNew, pending - {id})
  {
  }

  lemma EnterTried(h: Hasher, m: map<int, Info>, vvTried: map<Slot, int>, id: int)
    requires TriedTable(h, m, vvTried) && id in m && !m[id].fInTried && h.TriedSlot(m[id].Service()) !in vvTried
    ensures TriedTable(h, m[id := m[id].(fInTried := true)], vvTried[h.TriedSlot(m[id].Service()) := id])
  {
  }

  lemma EnterTriedIds(m: map<int, Info>, id: int)
    requires id in m && !m[id].fInTried
    ensures var m' := m[id := m[id].(fInTried := true)];
            TriedIds(m') == TriedIds(m) + {id} && NewIds(m') == NewIds(m) - {id} && id !in TriedIds(m) &&
              id in NewIds(m)
  {
  }

  /** Changing only a reference count moves nothing between the tables. */
  lemma RecountIds(m: map<int, Info>, id: int, n: int)
    requires id in m
    ensures var m' := m[id := m[id].(nRefCount := n)];
            TriedIds(m') == TriedIds(m) && NewIds(m') == NewIds(m)
  {
    var m' := m[id := m[id].(nRefCount := n)];
    forall j: int ensures j in TriedIds(m') <==> j in TriedIds(m) {
    }
    forall j: int ensures j in NewIds(m') <==> j in NewIds(m) {
    }
  }

  /** Updating an entry in place disturbs neither index nor the other table's entries. */
  lemma UpdateIndex(n: int, m: map<int, Info>, a: map<NetAddr, int>, v: seq<int>, id: int, e: Info)
    requires AddrIndex(n, m, a) && RandomOrder(m, v) && id in m
    requires e.Service() == m[id].Service() && e.nRandomPos == m[id].nRandomPos
    ensures AddrIndex(n, m[id := e], a) && RandomOrder(m[id := e], v)
  {
  }

  lemma UpdateTried(h: Hasher, m: map<int, Info>, vvTried: map<Slot, int>, id: int, e: Info)
    requires TriedTable(h, m, vvTried) && id in m && e.Service() == m[id].Service() && e.fInTried == m[id].fInTried
    ensures TriedTable(h, m[id := e], vvTried)
  {
  }

  // ---------------------------------------------------- moves on whole tables

  /** An entry updated in place. */
  function Update(t: Tables, id: int, e: Info): Tables {
    t.(mapInfo := t.mapInfo[id := e])
  }

  /** Takes the occupant out of a new slot. */
  function Release(t: Tables, s: Slot): Tables
    requires s in t.vvNew && t.vvNew[s] in t.mapInfo
  {
    var id := t.vvNew[s];
    Update(t, id, t.mapInfo[id].(nRefCount := t.mapInfo[id].nRefCount - 1)).(vvNew := t.vvNew - {s})
  }

  /** Clears a new slot, deleting an occupant that has no other. */
  function ClearNew(t: Tables, s: Slot): Tables
    requires s in t.vvNew ==> t.vvNew[s] in t.mapInfo && RandomOrder(t.mapInfo, t.vRandom)
  {
    if s !in t.vvNew then t
    else
      var r := Release(t, s);
      if r.mapInfo[t.vvNew[s]].nRefCount == 0 then Delete(r, t.vvNew[s]) else r
  }

  /** Puts an entry into a new slot. */
  function Occupy(t: Tables, s: Slot, id: int): Tables
    requires id in t.mapInfo
  {
    Update(t, id, t.mapInfo[id].(nRefCount := t.mapInfo[id].nRefCount + 1)).(vvNew := t.vvNew[s := id])
  }

  /** Takes an entry out of every new slot. */
  function LeaveNew(t: Tables, id: int): Tables
    requires id in t.mapInfo
  {
    Update(t, id, t.mapInfo[id].(nRefCount := 0)).(vvNew := Without(t.vvNew, id), nNew := t.nNew - 1)
  }

  /** Takes an entry out of its tried slot. */
  function Evict(h: Hasher, t: Tables, id: int): Tables
    requires id in t.mapInfo
  {
    Update(t, id, t.mapInfo[id].(fInTried := false)).(
      vvTried := t.vvTried - {h.TriedSlot(t.mapInfo[id].Service())}, nTried := t.nTried - 1)
  }

  /** Puts an entry into its tried slot. */
  function Settle(h: Hasher, t: Tables, id: int): Tables
    requires id in t.mapInfo
  {
    Update(t, id, t.mapInfo[id].(fInTried := true)).(
      vvTried := t.vvTried[h.TriedSlot(t.mapInfo[id].Service()) := id], nTried := t.nTried + 1)
  }

  lemma NewSlotAt(h: Hasher, t: Tables, pending: set<int>, k: nat, s: Slot)
    requires Inv(h, t, pending, k) && s in t.vvNew
    ensures var id := t.vvNew[s];
            id in t.mapInfo && !t.mapInfo[id].fInTried && id !in pending &&
            t.mapInfo[id].nRefCount > 0
  {
    assert s in SlotsOf(t.vvNew, t.vvNew[s]);
  }

  lemma TriedSlotAt(h: Hasher, t: Tables, pending: set<int>, k: nat, s: Slot)
    requires Inv(h, t, pending, k) && s in t.vvTried
    ensures var id := t.vvTried[s];
            id in t.mapInfo && t.mapInfo[id].fInTried && id !in pending && s == h.TriedSlot(t.mapInfo[id].Service())
  {
  }

  lemma CountOneMore(h: Hasher, t: Tables, pending: set<int>, k: nat)
    requires Inv(h, t, pending, k) && k > 0
    ensures Inv(h, t.(nNew := t.nNew + 1), pending, k - 1)
  {
  }

  /** Clearing a new slot is well defined, and an evicted entry survives it. */
  lemma ClearNewIsDefined(h: Hasher, t: Tables, pending: set<int>, k: nat, s: Slot)
    requires Inv(h, t, pending, k)
    ensures RandomOrder(t.mapInfo, t.vRandom)
    ensures s in t.vvNew ==> t.vvNew[s] in t.mapInfo && t.vvNew[s] !in pending
  {
    if s in t.vvNew {
      NewSlotAt(h, t, pending, k, s);
    }
  }

  lemma KeptThenUpdated(m: map<int, Info>, m': map<int, Info>, changed: set<int>, id: int, e: Info)
    requires AllKept(m, m', changed) && id in m' && id in changed
    ensures AllKept(m, m'[id := e], changed)
  {
    forall j: int | j in m && j !in changed ensures Kept(m, m'[id := e], j) {
      assert Kept(m, m', j);
    }
  }

  /** A tried entry has no new slot. */
  lemma EvictedCount(h: Hasher, t: Tables, id: int, pending: set<int>, k: nat)
    requires Inv(h, t, pending, k) && id in t.mapInfo && t.mapInfo[id].fInTried
    ensures t.mapInfo[id].nRefCount == 0 && id !in pending
  {
  }

  lemma HomeSlotIsOwn(h: Hasher, e: Info)
    ensures var s := HomeSlot(h, e); s.bucket < NEW_BUCKET_COUNT && s == h.NewSlotIn(e.Service(), s.bucket)
  {
  }

  lemma UpdateKept(m: map<int, Info>, id: int, e: Info)
    requires id in m
    ensures AllKept(m, m[id := e], {id})
  {
  }

  /** Where an evicted entry goes: the new slot given by its own source. */
  function HomeSlot(h: Hasher, e: Info): Slot {
    h.NewSlot(e.Service(), e.source)
  }

  /** The occupant of a slot, if any. */
  function Occupant(table: map<Slot, int>, s: Slot): set<int> {
    if s in table then {table[s]} else {}
  }

  /** Every slot of either table holds a known entry, and the random order is one. */
  ghost predicate Sane(t: Tables) {
    && RandomOrder(t.mapInfo, t.vRandom)
    && (forall s :: s in t.vvNew ==> t.vvNew[s] in t.mapInfo)
    && (forall s :: s in t.vvTried ==> t.vvTried[s] in t.mapInfo)
  }

  lemma InvIsSane(h: Hasher, t: Tables, pending: set<int>, k: nat)
    requires Inv(h, t, pending, k)
    ensures Sane(t)
  {
  }

  /** Returns a tried entry to the new table, clearing the slot it goes to; it survives that. */
  ghost function Demote(h: Hasher, t: Tables, id: int): Tables
    requires id in t.mapInfo && Sane(t)
  {
    var s := HomeSlot(h, t.mapInfo[id]);
    var r := ClearNew(Evict(h, t, id), s);
    if id in r.mapInfo then Occupy(r, s, id).(nNew := r.nNew + 1) else r
  }

  /** Moves an untried entry to the tried table; an entry in its way goes back to the new table. */
  ghost function MakeTried(h: Hasher, t: Tables, id: int): Tables
    requires id in t.mapInfo && Sane(t)
  {
    var s := h.TriedSlot(t.mapInfo[id].Service());
    var a := LeaveNew(t, id);
    var b := if s in t.vvTried then Demote(h, a, t.vvTried[s]) else a;
    if id in b.mapInfo then Settle(h, b, id) else b
  }

  /** The new table once an entry has been taken out of the first `n` buckets. */
  function WithoutBelow(table: map<Slot, int>, id: int, n: nat): map<Slot, int> {
    map s | s in table && !(table[s] == id && s.bucket < n) :: table[s]
  }

  /** In each bucket an entry can only sit at its own position. */
  lemma LeaveBucket(h: Hasher, m: map<int, Info>, table: map<Slot, int>, id: int, n: nat)
    requires NewTable(h, m, table, {}) && id in m
    ensures var v, s := WithoutBelow(table, id, n), h.NewSlotIn(m[id].Service(), n);
            if s in v && v[s] == id
            then WithoutBelow(table, id, n + 1) == v - {s} && |SlotsOf(v - {s}, id)| == |SlotsOf(v, id)| - 1
            else WithoutBelow(table, id, n + 1) == v
  {
    var v, s := WithoutBelow(table, id, n), h.NewSlotIn(m[id].Service(), n);
    forall r | r in table && table[r] == id && r.bucket == n ensures r == s {
    }
    if s in v && v[s] == id {
      SlotsWithout(v, s);
    }
  }

  lemma LeftAllBuckets(h: Hasher, m: map<int, Info>, table: map<Slot, int>, id: int)
    requires NewTable(h, m, table, {}) && id in m
    ensures WithoutBelow(table, id, 0) == table && |SlotsOf(table, id)| == m[id].nRefCount
    ensures WithoutBelow(table, id, NEW_BUCKET_COUNT) == Without(table, id) && SlotsOf(Without(table, id), id) == {}
  {
  }
}
