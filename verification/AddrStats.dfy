/**
 * What the address manager learns about an entry over a run: its time only moves
 * forward, its services only grow, and a failure is counted at most once between
 * two successes.
 */
module AddrStats {
  import opened Common
  import opened AddrTables
  import opened AddrInv
  import opened AddrOps
  import opened AddrRun

  const UINT32 := 0x1_0000_0000

  predicate Includes(a: bv64, b: bv64) {
    a | b == a
  }

  lemma IncludesTwice(a: bv64, b: bv64, c: bv64)
    requires Includes(b, a) && Includes(c, b)
    ensures Includes(c, a)
  {
  }

  lemma UnionIncludes(a: bv64, b: bv64)
    ensures Includes(a | b, a) && Includes(a | b, b) && Includes(a, a)
  {
  }

  // ------------------------------------------------------------------ one entry

  /** A failure is counted if one was `seen` and none had been counted since the last success. */
  predicate CountedOnce(e: Info, f: Info, lastGood: int, seen: bool) {
    if seen && e.nLastCountAttempt < lastGood
    then f.nAttempts == e.nAttempts + 1 && f.nLastCountAttempt >= lastGood
    else f.nAttempts == e.nAttempts && f.nLastCountAttempt == e.nLastCountAttempt
  }

  /** The same address from the same source, with what was known of it kept. */
  predicate Learned(e: Info, f: Info) {
    && f.addr.service == e.addr.service && f.source == e.source && f.nLastSuccess == e.nLastSuccess
    && Includes(f.addr.nServices, e.addr.nServices)
  }

  /** The failures are counted, and within the 32-bit clock the time has not moved back. */
  predicate Grown(e: Info, f: Info, lastGood: int, seen: bool, clock: bool) {
    Learned(e, f) && CountedOnce(e, f, lastGood, seen) && (clock ==> e.addr.nTime <= f.addr.nTime)
  }

  lemma GrownTwice(e: Info, f: Info, g: Info, lastGood: int, seen: bool, seen': bool, clock: bool, clock': bool)
    requires Grown(e, f, lastGood, seen, clock) && Grown(f, g, lastGood, seen', clock')
    ensures Grown(e, g, lastGood, seen || seen', clock && clock')
  {
    IncludesTwice(e.addr.nServices, f.addr.nServices, g.addr.nServices);
  }

  lemma SameStatsGrown(e: Info, f: Info, lastGood: int)
    requires Stats(e) == Stats(f)
    ensures Grown(e, f, lastGood, false, true)
  {
    assert Stats(e).addr == e.addr && Stats(f).addr == f.addr && Stats(e).source == e.source &&
           Stats(f).source == f.source;
    assert Stats(e).nLastSuccess == e.nLastSuccess && Stats(f).nLastSuccess == f.nLastSuccess;
    assert Stats(e).nAttempts == e.nAttempts && Stats(f).nAttempts == f.nAttempts;
    assert Stats(e).nLastCountAttempt == e.nLastCountAttempt && Stats(f).nLastCountAttempt == f.nLastCountAttempt;
    UnionIncludes(e.addr.nServices, 0);
  }

  /** How much later a report has to be: an hour for addresses seen within a day, else a day. */
  function UpdateInterval(addr: Address, now: int): int {
    if now - addr.nTime < 86_400 then 3_600 else 86_400
  }

  /** The time under which an address is known after hearing of it again. */
  lemma RefreshedTime(e: Info, addr: Address, penalty: int, now: int)
    requires penalty >= 0
    ensures var time := Refreshed(e, addr, penalty, now).addr.nTime;
            && (time == e.addr.nTime || time == Max(0, addr.nTime - penalty)) && time >= e.addr.nTime
            && (e.addr.nTime != 0 && time != e.addr.nTime ==>
                  time > e.addr.nTime + UpdateInterval(addr, now))
            && (addr.nTime != 0 && e.addr.nTime == 0 ==> time == Max(0, addr.nTime - penalty))
            && (addr.nTime - penalty > e.addr.nTime + UpdateInterval(addr, now) ==> time == addr.nTime - penalty)
  {
    FitsClock(Max(0, addr.nTime - penalty));
  }

  /** Only a penalty below zero could set a time back, by wrapping the 32-bit clock. */
  lemma RefreshedGoesBack(e: Info, addr: Address, penalty: int, now: int)
    ensures Refreshed(e, addr, penalty, now).addr.nTime < e.addr.nTime <==>
              && penalty < 0 && addr.nTime != 0 && addr.nTime - penalty > e.addr.nTime + UpdateInterval(addr, now)
              && (addr.nTime - penalty) % UINT32 < e.addr.nTime
  {
  }

  /** It does for an address known for a second and heard of at the last one, with a penalty of minus one. */
  lemma NegativePenaltyGoesBack(e: Info, addr: Address, now: int)
    requires e.addr.nTime == 1 && addr.nTime == UINT32 - 1
    ensures Refreshed(e, addr, -1, now).addr.nTime == 0
  {
  }

  lemma RefreshedRest(e: Info, addr: Address, penalty: int, now: int)
    ensures var f := Refreshed(e, addr, penalty, now);
            f == e.(addr := e.addr.(nTime := f.addr.nTime, nServices := e.addr.nServices | addr.nServices))
  {
  }

  /** Hearing of an address again moves its time when that is by more than the update interval, and only then. */
  lemma RefreshedGrown(e: Info, addr: Address, penalty: int, now: int, lastGood: int)
    ensures var f := Refreshed(e, addr, penalty, now);
            Grown(e, f, lastGood, false, penalty >= 0) && Includes(f.addr.nServices, addr.nServices)
    ensures penalty >= 0 ==>
              var known, time := e.addr.nTime, Refreshed(e, addr, penalty, now).addr.nTime;
              && (time == known || time == Max(0, addr.nTime - penalty))
              && (known != 0 && time != known ==> time > known + UpdateInterval(addr, now))
              && (addr.nTime != 0 && known == 0 ==> time == Max(0, addr.nTime - penalty))
              && (addr.nTime - penalty > known + UpdateInterval(addr, now) ==> time == addr.nTime - penalty)
  {
    hide Includes, Refreshed;
    UnionIncludes(e.addr.nServices, addr.nServices);
    RefreshedRest(e, addr, penalty, now);
    if penalty >= 0 {
      RefreshedTime(e, addr, penalty, now);
    }
  }

  lemma FitsClock(x: nat)
    ensures x < UINT32 ==> ToUint32(x) == x
  {
  }

  lemma AttemptedGrown(e: Info, countFailure: bool, time: int, lastGood: int)
    requires time >= lastGood
    ensures Grown(e, Attempted(e, countFailure, time, lastGood), lastGood, countFailure, true)
    ensures Attempted(e, countFailure, time, lastGood).nLastTry == time
  {
    UnionIncludes(e.addr.nServices, 0);
  }

  /**
   * A second failure goes uncounted exactly when the first was not dated before
   * the last success.
   */
  lemma SecondFailureUncounted(e: Info, time: int, time': int, lastGood: int)
    requires e.nLastCountAttempt < lastGood
    ensures var f := Attempted(e, true, time, lastGood);
            Attempted(f, true, time', lastGood).nAttempts == e.nAttempts + 1 <==> time >= lastGood
  {
  }

  /** A connection sets the time of its entry back exactly when a late enough time wraps to one before it. */
  lemma ConnectedGoesBack(t: Tables, s: Service, time: int)
    requires FindService(t, s).Some?
    ensures var id := FindService(t, s).value;
            var known := t.mapInfo[id].addr.nTime;
            Connected(t, s, time).mapInfo[id].addr.nTime < known <==> time - known > 20 * 60 && time % UINT32 < known
  {
  }

  /** An address known for any time but the last twenty minutes of the clock loses it when the clock wraps. */
  lemma WrapGoesBack(t: Tables, s: Service)
    requires FindService(t, s).Some? && 0 < t.mapInfo[FindService(t, s).value].addr.nTime < UINT32 - 20 * 60
    ensures var id := FindService(t, s).value;
            Connected(t, s, UINT32).mapInfo[id].addr.nTime == 0 < t.mapInfo[id].addr.nTime
  {
  }

  // -------------------------------------------------------------------- one step

  /** Whether an operation is no success and not dated before the last one. */
  predicate Dated(op: Op, lastGood: int) {
    !op.OpGood? && (op.OpAttempt? ==> op.time >= lastGood)
  }

  /** Whether an operation cannot wrap the 32-bit clock. */
  predicate InClock(op: Op) {
    match op
    case OpAdd(_, _, penalty, _, _) => penalty >= 0
    case OpConnected(_, time) => time < UINT32
    case _ => true
  }

  predicate Failure(op: Op, s: Service) {
    op.OpAttempt? && op.service == s && op.countFailure
  }

  /** An old entry that is still there was there before, and has grown. */
  ghost predicate Follows(m: map<int, Info>, m': map<int, Info>, id: int, lastGood: int, seen: bool, clock: bool) {
    id in m' ==> id in m && Grown(m[id], m'[id], lastGood, seen, clock)
  }

  lemma UpdateFollows(m: map<int, Info>, at: int, e: Info, id: int, lastGood: int, seen: bool, clock: bool)
    requires at in m && Grown(m[at], e, lastGood, seen, clock)
    ensures Follows(m, m[at := e], id, lastGood, seen && id == at, clock)
  {
    if id in m {
      SameStatsGrown(m[id], m[id], lastGood);
    }
  }

  lemma SelfFollows(m: map<int, Info>, id: int, lastGood: int)
    ensures Follows(m, m, id, lastGood, false, true)
  {
    if id in m {
      SameStatsGrown(m[id], m[id], lastGood);
    }
  }

  lemma StatsFollow(m: map<int, Info>, m': map<int, Info>, promoted: set<int>, id: int, lastGood: int)
    requires StatsKept(m, m', promoted)
    ensures Follows(m, m', id, lastGood, false, true)
  {
    if id in m' {
      SameStatsGrown(m[id], m'[id], lastGood);
    }
  }

  lemma FollowsThen(m: map<int, Info>, m': map<int, Info>, m'': map<int, Info>, id: int, lastGood: int, clock: bool)
    requires Follows(m, m', id, lastGood, false, clock) && Follows(m', m'', id, lastGood, false, true)
    ensures Follows(m, m'', id, lastGood, false, clock)
  {
    if id in m'' {
      GrownTwice(m[id], m'[id], m''[id], lastGood, false, false, clock, true);
    }
  }

  lemma AddFollows(h: Hasher, t: Tables, addr: Address, source: NetAddr, penalty: int, now: int, rnd: nat, id: int,
                   lastGood: int)
    requires Sane(t) && t.nIdCount !in t.mapInfo && id < t.nIdCount
    ensures Follows(t.mapInfo, Add(h, t, addr, source, penalty, now, rnd).mapInfo, id, lastGood, false,
                    penalty >= 0)
  {
    hide Sane, Place, StatsKept, Follows, Grown, Refreshed;
    var at, clock := Find(t, addr.service.ip), penalty >= 0;
    if at.Some? {
      var e := Refreshed(t.mapInfo[at.value], addr, penalty, now);
      RefreshedGrown(t.mapInfo[at.value], addr, penalty, now, lastGood);
      RefreshedInPlace(t.mapInfo[at.value], addr, penalty, now);
      UpdateFollows(t.mapInfo, at.value, e, id, lastGood, false, clock);
      UpdateIsSane(t, at.value, e);
      var u := Update(t, at.value, e);
      PlaceStats(h, u, at.value, source, now);
      StatsFollow(u.mapInfo, Place(h, u, at.value, source, now).mapInfo, {}, id, lastGood);
      FollowsThen(t.mapInfo, u.mapInfo, Place(h, u, at.value, source, now).mapInfo, id, lastGood, clock);
    } else {
      var c := Introduce(t, addr, source, penalty);
      IntroduceIsSane(t, addr, source, penalty);
      IntroduceFollows(t, addr, source, penalty, id, lastGood, clock);
      PlaceStats(h, c, t.nIdCount, source, now);
      StatsFollow(c.mapInfo, Place(h, c, t.nIdCount, source, now).mapInfo, {}, id, lastGood);
      FollowsThen(t.mapInfo, c.mapInfo, Place(h, c, t.nIdCount, source, now).mapInfo, id, lastGood, clock);
    }
  }

  lemma IntroduceFollows(t: Tables, addr: Address, source: NetAddr, penalty: int, id: int, lastGood: int, clock: bool)
    requires id < t.nIdCount
    ensures Follows(t.mapInfo, Introduce(t, addr, source, penalty).mapInfo, id, lastGood, false, clock)
  {
    SelfFollows(t.mapInfo, id, lastGood);
  }

  lemma OnlyIdOf(h: Hasher, t: Tables, id: int, s: Service)
    requires Consistent(h, t) && id in t.mapInfo
    ensures FindService(t, s) == Some(id) <==> t.mapInfo[id].Service() == s
  {
  }

  lemma AttemptFollows(h: Hasher, t: Tables, s: Service, countFailure: bool, time: int, id: int, lastGood: int)
    requires Consistent(h, t) && time >= lastGood && id in t.mapInfo
    ensures Follows(t.mapInfo, Attempt(t, s, countFailure, time, lastGood).mapInfo, id, lastGood,
                    countFailure && t.mapInfo[id].Service() == s, true)
  {
    hide Inv, Follows, Grown, Attempted;
    OnlyIdOf(h, t, id, s);
    SelfFollows(t.mapInfo, id, lastGood);
    var at := FindService(t, s);
    if at.Some? {
      var e := Attempted(t.mapInfo[at.value], countFailure, time, lastGood);
      AttemptedGrown(t.mapInfo[at.value], countFailure, time, lastGood);
      UpdateFollows(t.mapInfo, at.value, e, id, lastGood, countFailure, true);
    }
  }

  lemma ConnectedFollows(t: Tables, s: Service, time: int, id: int, lastGood: int)
    ensures Follows(t.mapInfo, Connected(t, s, time).mapInfo, id, lastGood, false, time < UINT32)
    ensures FindService(t, s) == Some(id) ==>
              var known, m := t.mapInfo[id].addr.nTime, Connected(t, s, time).mapInfo;
              id in m && m[id].addr.nTime == if time > known + 20 * 60 then time % UINT32 else known
  {
    hide Follows, Includes;
    SelfFollows(t.mapInfo, id, lastGood);
    WeakerClock(t.mapInfo, id, lastGood, time < UINT32);
    var at := FindService(t, s);
    if at.Some? {
      var e := t.mapInfo[at.value];
      if time - e.addr.nTime > 20 * 60 {
        FitsClock(time);
        UnionIncludes(e.addr.nServices, 0);
        UpdateFollows(t.mapInfo, at.value, e.(addr := e.addr.(nTime := ToUint32(time))), id, lastGood, false,
                      time < UINT32);
      }
    }
  }

  lemma WeakerClock(m: map<int, Info>, id: int, lastGood: int, clock: bool)
    ensures Follows(m, m, id, lastGood, false, clock)
  {
    SelfFollows(m, id, lastGood);
  }

  /** One operation other than a success: entries keep what was known, and ids are not handed out again. */
  lemma StepFollows(h: Hasher, st: State, op: Op, id: int)
    requires Consistent(h, st.t) && Sane(st.t) && st.t.nIdCount !in st.t.mapInfo
    requires id < st.t.nIdCount && Dated(op, st.nLastGood)
    ensures var r := Exec(h, st, op);
            && r.nLastGood == st.nLastGood && st.t.nIdCount <= r.t.nIdCount
            && Follows(st.t.mapInfo, r.t.mapInfo, id, st.nLastGood,
                       id in st.t.mapInfo && Failure(op, st.t.mapInfo[id].Service()), InClock(op))
  {
    hide Inv, Sane, Add, Shuffle, GetAddrLimit, StatsKept, AllKept, RandomOrder, GoodOnes, Info.IsTerrible, Follows,
      Refreshed, MayGetSlot;
    match op
    case OpAdd(addr, source, penalty, now, rnd) =>
      AddKeepsConsistent(h, st.t, addr, source, penalty, now, rnd);
      AddFollows(h, st.t, addr, source, penalty, now, rnd, id, st.nLastGood);
    case OpAttempt(s, countFailure, time) =>
      if id in st.t.mapInfo {
        AttemptFollows(h, st.t, s, countFailure, time, id, st.nLastGood);
      } else {
        AbsentFollows(st.t.mapInfo, Exec(h, st, op).t.mapInfo, id, st.nLastGood);
      }
    case OpConnected(s, time) =>
      ConnectedFollows(st.t, s, time, id, st.nLastGood);
    case OpGetAddr(now, order) =>
      ReorderedSelf(h, st.t);
      NothingPassed(st.t, now);
      ShuffleKeeps(h, st.t, 0, GetAddrLimit(st.t), now, order);
      StatsFollow(st.t.mapInfo, Exec(h, st, op).t.mapInfo, {}, id, st.nLastGood);
  }

  lemma AbsentFollows(m: map<int, Info>, m': map<int, Info>, id: int, lastGood: int)
    requires id !in m'
    ensures Follows(m, m', id, lastGood, false, true)
  {
  }

  // ------------------------------------------------------------------------ runs

  /** Whether a countable failure of this address occurs in a run. */
  predicate Failed(ops: seq<Op>, s: Service) {
    exists i :: 0 <= i < |ops| && Failure(ops[i], s)
  }

  predicate AllInClock(ops: seq<Op>) {
    forall i :: 0 <= i < |ops| ==> InClock(ops[i])
  }

  lemma FailedUnfolds(ops: seq<Op>, s: Service)
    requires ops != []
    ensures Failed(ops, s) <==> Failure(ops[0], s) || Failed(ops[1..], s)
  {
    if Failed(ops, s) {
      var i :| 0 <= i < |ops| && Failure(ops[i], s);
      if i > 0 {
        assert ops[1..][i - 1] == ops[i];
      }
    }
    if Failed(ops[1..], s) {
      var i :| 0 <= i < |ops[1..]| && Failure(ops[1..][i], s);
      assert ops[i + 1] == ops[1..][i];
    }
  }

  ghost predicate Runnable(h: Hasher, st: State, ops: seq<Op>) {
    && Consistent(h, st.t) && Timely(st.t.mapInfo)
    && forall i :: 0 <= i < |ops| ==> PositiveTime(ops[i]) && Dated(ops[i], st.nLastGood)
  }

  lemma RunnableStep(h: Hasher, st: State, ops: seq<Op>)
    requires Runnable(h, st, ops) && ops != []
    ensures Sane(st.t) && st.t.nIdCount !in st.t.mapInfo && PositiveTime(ops[0]) && Dated(ops[0], st.nLastGood)
    ensures Exec(h, st, ops[0]).nLastGood == st.nLastGood
    ensures Runnable(h, Exec(h, st, ops[0]), ops[1..])
  {
    hide Inv, Timely, Sane, Add, Attempt, Connected, Shuffle, GetAddrLimit;
    ConsistentIsSane(h, st.t);
    ExecKeepsInvariant(h, st, ops[0]);
  }

  lemma {:induction false} RunFollows(h: Hasher, st: State, ops: seq<Op>, id: int)
    requires Runnable(h, st, ops) && id < st.t.nIdCount
    ensures Follows(st.t.mapInfo, ExecAll(h, st, ops).t.mapInfo, id, st.nLastGood,
                    id in st.t.mapInfo && Failed(ops, st.t.mapInfo[id].Service()), AllInClock(ops))
    decreases |ops|
  {
    hide Inv, Timely, Sane, Exec, PositiveTime, Dated, Failure, Follows, Failed, InClock, AllInClock;
    if ops == [] {
      WeakerClock(st.t.mapInfo, id, st.nLastGood, AllInClock(ops));
      NoFailure(st, id);
    } else {
      RunnableStep(h, st, ops);
      var next := Exec(h, st, ops[0]);
      StepFollows(h, st, ops[0], id);
      RunFollows(h, next, ops[1..], id);
      RunJoins(st.t.mapInfo, next.t.mapInfo, ExecAll(h, st, ops).t.mapInfo, ops, id, st.nLastGood);
    }
  }

  lemma NoFailure(st: State, id: int)
    ensures id in st.t.mapInfo ==> !Failed([], st.t.mapInfo[id].Service())
  {
  }

  lemma RunJoins(m: map<int, Info>, m': map<int, Info>, m'': map<int, Info>, ops: seq<Op>, id: int, lastGood: int)
    requires ops != []
    requires Follows(m, m', id, lastGood, id in m && Failure(ops[0], m[id].Service()), InClock(ops[0]))
    requires Follows(m', m'', id, lastGood, id in m' && Failed(ops[1..], m'[id].Service()), AllInClock(ops[1..]))
    ensures Follows(m, m'', id, lastGood, id in m && Failed(ops, m[id].Service()), AllInClock(ops))
  {
    hide Failed, Failure, CountedOnce, InClock;
    if id in m'' {
      FailedUnfolds(ops, m[id].Service());
      GrownTwice(m[id], m'[id], m''[id], lastGood, Failure(ops[0], m[id].Service()), Failed(ops[1..], m'[id].Service()),
                 InClock(ops[0]), AllInClock(ops[1..]));
    }
  }

  // ----------------------------------------------------------- after a success

  lemma StepKeepsTried(h: Hasher, st: State, op: Op)
    requires Consistent(h, st.t) && Sane(st.t) && st.t.nIdCount !in st.t.mapInfo && !op.OpGood?
    ensures Exec(h, st, op).t.vvTried == st.t.vvTried
  {
    hide Inv, Sane, Add, Shuffle, GetAddrLimit, StatsKept, AllKept, RandomOrder, GoodOnes, Info.IsTerrible, Refreshed,
      MayGetSlot;
    match op
    case OpAdd(addr, source, penalty, now, rnd) =>
      AddKeepsConsistent(h, st.t, addr, source, penalty, now, rnd);
    case OpGetAddr(now, order) =>
      ReorderedSelf(h, st.t);
      NothingPassed(st.t, now);
      ShuffleKeeps(h, st.t, 0, GetAddrLimit(st.t), now, order);
    case _ =>
  }

  /** Only a success changes the tried table. */
  lemma {:induction false} RunKeepsTried(h: Hasher, st: State, ops: seq<Op>)
    requires Runnable(h, st, ops)
    ensures ExecAll(h, st, ops).t.vvTried == st.t.vvTried && Consistent(h, ExecAll(h, st, ops).t)
    decreases |ops|
  {
    hide Inv, Timely, Sane, Exec, PositiveTime;
    if ops != [] {
      RunnableStep(h, st, ops);
      StepKeepsTried(h, st, ops[0]);
      RunKeepsTried(h, Exec(h, st, ops[0]), ops[1..]);
    }
  }

  lemma TriedSlotOf(h: Hasher, t: Tables, id: int)
    requires Consistent(h, t) && id in t.mapInfo && t.mapInfo[id].fInTried
    ensures Get(t.vvTried, h.TriedSlot(t.mapInfo[id].Service())) == Some(id)
  {
  }

  lemma TriedSlotHolds(h: Hasher, t: Tables, s: Slot)
    requires Consistent(h, t) && s in t.vvTried
    ensures t.vvTried[s] in t.mapInfo && t.mapInfo[t.vvTried[s]].fInTried
  {
  }

  /** A success forgets the failures of its entry, but not when one was last counted. */
  lemma GoodForgets(h: Hasher, t: Tables, s: Service, time: int)
    requires Consistent(h, t) && Sane(t) && FindService(t, s).Some?
    ensures var id := FindService(t, s).value;
            var m := Good(h, t, s, time).mapInfo;
            && id in m && m[id].fInTried && m[id].nAttempts == 0 && m[id].Service() == s
            && m[id].nLastCountAttempt == t.mapInfo[id].nLastCountAttempt
  {
    hide Inv, Sane, MakeTried, InSomeBucket, StatsKept;
    var id := FindService(t, s).value;
    GoodKeepsConsistent(h, t, s, time);
    var e := Succeeded(t.mapInfo[id], time);
    UpdateIsSane(t, id, e);
    var u := Update(t, id, e);
    MakeTriedStats(h, u, id);
    StatsAt(u.mapInfo, MakeTried(h, u, id).mapInfo, {id}, id);
  }

  lemma StatsAt(m: map<int, Info>, m': map<int, Info>, promoted: set<int>, id: int)
    requires StatsKept(m, m', promoted)
    ensures id in m' ==> id in m && m'[id].nAttempts == m[id].nAttempts && m'[id].addr == m[id].addr &&
                         m'[id].nLastCountAttempt == m[id].nLastCountAttempt
  {
    if id in m' {
      assert Stats(m'[id]) == Stats(m[id]);
      assert Stats(m[id]).nAttempts == m[id].nAttempts && Stats(m[id]).addr == m[id].addr;
      assert Stats(m'[id]).nAttempts == m'[id].nAttempts && Stats(m'[id]).addr == m'[id].addr;
      assert Stats(m[id]).nLastCountAttempt == m[id].nLastCountAttempt;
      assert Stats(m'[id]).nLastCountAttempt == m'[id].nLastCountAttempt;
    }
  }

  lemma CountsFromGood(h: Hasher, st: State, s: Service, time: int, ops: seq<Op>)
    requires Consistent(h, st.t) && Sane(st.t) && FindService(st.t, s).Some?
    requires Runnable(h, State(Good(h, st.t, s, time), time), ops)
    ensures var id := FindService(st.t, s).value;
            var m := ExecAll(h, State(Good(h, st.t, s, time), time), ops).t.mapInfo;
            && id in m && m[id].fInTried && m[id].Service() == s
            && m[id].nAttempts == if Failed(ops, s) && st.t.mapInfo[id].nLastCountAttempt < time then 1 else 0
  {
    hide Inv, Timely, Sane, Good, ExecAll, Failed, PositiveTime, Dated, Includes;
    var id := FindService(st.t, s).value;
    var g := State(Good(h, st.t, s, time), time);
    GoodForgets(h, st.t, s, time);
    GoodKeepsConsistent(h, st.t, s, time);
    KnownId(h, g.t, id);
    RunFollows(h, g, ops, id);
    RunKeepsTried(h, g, ops);
    TriedSlotOf(h, g.t, id);
    TriedSlotHolds(h, ExecAll(h, g, ops).t, h.TriedSlot(s));
  }

  /**
   * After a success, whatever happens until the next one: the entry stays known
   * and tried, and has one failure exactly when one was reported that could be
   * counted, and otherwise none.
   */
  lemma OneFailurePerSuccess(h: Hasher, st: State, s: Service, time: int, ops: seq<Op>)
    requires Consistent(h, st.t) && Timely(st.t.mapInfo) && FindService(st.t, s).Some? && time > 0
    requires forall i :: 0 <= i < |ops| ==> PositiveTime(ops[i]) && Dated(ops[i], time)
    ensures var id := FindService(st.t, s).value;
            var m := ExecAll(h, st, [OpGood(s, time)] + ops).t.mapInfo;
            && id in m && m[id].fInTried && m[id].Service() == s
            && m[id].nAttempts == if Failed(ops, s) && st.t.mapInfo[id].nLastCountAttempt < time then 1 else 0
  {
    hide Inv, Timely, Sane, Good, Failed, Dated, FindService;
    var run := [OpGood(s, time)] + ops;
    assert run[0] == OpGood(s, time) && run[1..] == ops;
    ConsistentIsSane(h, st.t);
    ExecKeepsInvariant(h, st, run[0]);
    CountsFromGood(h, st, s, time, ops);
  }

  lemma KnownId(h: Hasher, t: Tables, id: int)
    requires Consistent(h, t) && id in t.mapInfo
    ensures id < t.nIdCount
  {
  }
}
