/**
 * The parallel check queue as a state machine: thread 0 is the master, the
 * others are workers, and each step is one critical section or one check run
 * outside the lock. Steps of different threads interleave in any order.
 */
module CheckQueue {
  import opened Common

  type Check = nat

  /**
   * A thread is outside the loop, asleep on its condition variable, or holds a
   * batch of which `rest` has yet to run.
   */
  datatype Thread = Outside | Sleeping(notified: bool) | Running(rest: seq<Check>, nNow: nat, ok: bool)

  /** The shared fields and the threads; `added` lists the checks of this round. */
  datatype State = State(queue: seq<Check>, nIdle: int, nTotal: int, fAllOk: bool, nTodo: int,
                         threads: seq<Thread>, added: seq<Check>)

  datatype Event =
    | Add(checks: seq<Check>, woken: nat)
    | Enter(i: nat)
    | Run(i: nat)
    | Return(i: nat)
    | Wake(i: nat)

  const MASTER: nat := 0

  // ------------------------------------------------------------------------- steps

  function Start(threads: nat): State {
    State([], 0, 0, true, 0, seq(threads, i => Outside), [])
  }

  function BatchSize(nBatchSize: nat, s: State): (k: nat)
    requires s.queue != [] && s.nTotal >= 0 && s.nIdle >= 0
    ensures 1 <= k <= |s.queue|
  {
    SmallShare(|s.queue|, s.nTotal + s.nIdle + 1);
    Max(1, Min(nBatchSize, |s.queue| / (s.nTotal + s.nIdle + 1)))
  }

  /** A batch is the thread's share of the queue, as far as the configured size allows and there is one. */
  lemma BatchIsFair(nBatchSize: nat, s: State)
    requires s.queue != [] && s.nTotal >= 0 && s.nIdle >= 0
    ensures var k, threads := BatchSize(nBatchSize, s), s.nTotal + s.nIdle + 1;
            && (k == 1 || (k <= nBatchSize && k * threads <= |s.queue|))
            && (k >= nBatchSize || (k + 1) * threads > |s.queue|)
  {
    var n, d := |s.queue|, s.nTotal + s.nIdle + 1;
    SmallShare(n, d);
    ShareIsExact(n, d);
    var q := n / d;
    var k := BatchSize(nBatchSize, s);
    if k != 1 {
      Scaled(k, q, d);
    }
    if k < nBatchSize {
      Scaled(q + 1, k + 1, d);
    }
  }

  lemma ShareIsExact(n: nat, d: nat)
    requires d >= 1
    ensures n / d * d <= n < (n / d + 1) * d
  {
    var q := n / d;
    assert n == q * d + n % d;
    assert (q + 1) * d == q * d + d;
  }

  lemma Scaled(a: nat, b: nat, d: nat)
    requires a <= b
    ensures a * d <= b * d
  {
  }

  lemma SmallShare(n: nat, d: nat)
    requires d >= 1
    ensures 0 <= n / d <= n
  {
    assert (n / d) * 1 <= (n / d) * d;
  }

  /** The last `k` checks, last first. */
  function TakeBack(queue: seq<Check>, k: nat): (r: seq<Check>)
    requires k <= |queue|
    ensures |r| == k && forall i :: 0 <= i < k ==> r[i] == queue[|queue| - 1 - i]
  {
    seq(k, i requires 0 <= i < k => queue[|queue| - 1 - i])
  }

  /** The rest of a critical section: take a batch, sleep, or leave with the verdict. */
  function Look(nBatchSize: nat, s: State, i: nat): (State, Option<bool>)
    requires i < |s.threads| && s.nTotal >= 0 && s.nIdle >= 0
  {
    if s.queue == [] then
      if i == MASTER && s.nTodo == 0 then
        (s.(nTotal := s.nTotal - 1, fAllOk := true, threads := s.threads[i := Outside], added := []), Some(s.fAllOk))
      else
        (s.(nIdle := s.nIdle + 1, threads := s.threads[i := Sleeping(false)]), None)
    else
      var k := BatchSize(nBatchSize, s);
      (s.(queue := s.queue[..|s.queue| - k], threads := s.threads[i := Running(TakeBack(s.queue, k), k, s.fAllOk)]),
       None)
  }

  /** Wakes one thread that sleeps, or all workers. */
  function Notify(ts: seq<Thread>, i: nat): seq<Thread> {
    if i < |ts| && ts[i].Sleeping? then ts[i := Sleeping(true)] else ts
  }

  function NotifyWorkers(ts: seq<Thread>): (r: seq<Thread>)
    ensures |r| == |ts|
    ensures forall i :: 0 <= i < |ts| ==> r[i] == if i != MASTER && ts[i].Sleeping? then Sleeping(true) else ts[i]
  {
    seq(|ts|, i requires 0 <= i < |ts| => if i != MASTER && ts[i].Sleeping? then Sleeping(true) else ts[i])
  }

  predicate SleepingWorker(ts: seq<Thread>, i: nat) {
    MASTER < i < |ts| && ts[i] == Sleeping(false)
  }

  /** When a step can be taken; a sleeping thread may wake without cause. */
  ghost predicate Enabled(s: State, e: Event) {
    match e
    case Add(checks, woken) =>
      && s.threads != [] && s.threads[MASTER].Outside?
      && (|checks| == 1 && (exists i :: SleepingWorker(s.threads, i)) ==> SleepingWorker(s.threads, woken))
    case Enter(i) => i < |s.threads| && s.threads[i].Outside?
    case Run(i) => i < |s.threads| && s.threads[i].Running? && s.threads[i].rest != []
    case Return(i) => i < |s.threads| && s.threads[i].Running? && s.threads[i].rest == []
    case Wake(i) => i < |s.threads| && s.threads[i].Sleeping?
  }

  /** The state in which a returning thread looks at the queue. */
  function Report(s: State, i: nat): State
    requires i < |s.threads| && s.threads[i].Running?
  {
    var t := s.threads[i];
    var todo := s.nTodo - t.nNow;
    var ts := s.threads[i := Outside];
    s.(fAllOk := s.fAllOk && t.ok, nTodo := todo, threads := if todo == 0 && i != MASTER then Notify(ts, MASTER)
       else ts)
  }

  function AddChecks(s: State, checks: seq<Check>, woken: nat): State {
    s.(queue := s.queue + checks, nTodo := s.nTodo + |checks|, added := s.added + checks,
       threads := if |checks| == 1 && SleepingWorker(s.threads, woken) then Notify(s.threads, woken)
                  else if |checks| > 1 then NotifyWorkers(s.threads) else s.threads)
  }

  /** A worker that finishes the last of the work wakes the master if it sleeps; nobody else is woken by a report. */
  lemma ReportNotifies(s: State, i: nat)
    requires i < |s.threads| && s.threads[i].Running?
    ensures var ts, left := Report(s, i).threads, s.nTodo - s.threads[i].nNow;
            && |ts| == |s.threads| && ts[i] == Outside
            && (forall j :: 0 <= j < |ts| && j != i && j != 0 ==> ts[j] == s.threads[j])
            && (i != 0 ==> ts[0] == if left == 0 && s.threads[0].Sleeping? then Sleeping(true) else s.threads[0])
  {
  }

  /** New work wakes nobody but workers: all of them for several checks, one for a single check. */
  lemma WorkIsAnnounced(s: State, checks: seq<Check>, woken: nat)
    requires Enabled(s, Add(checks, woken))
    ensures var ts := AddChecks(s, checks, woken).threads;
            && |ts| == |s.threads|
            && (forall i :: 0 <= i < |ts| ==> ts[i] == s.threads[i] || (s.threads[i] == Sleeping(false) && i > 0))
            && (|checks| >= 2 ==> forall i :: 1 <= i < |ts| ==> ts[i] != Sleeping(false))
            && (|checks| == 1 && (exists i :: SleepingWorker(s.threads, i)) ==>
                SleepingWorker(s.threads, woken) && ts == s.threads[woken := Sleeping(true)])
            && (checks == [] ==> ts == s.threads)
  {
  }

  function RunOne(eval: Check -> bool, t: Thread): Thread
    requires t.Running? && t.rest != []
  {
    t.(rest := t.rest[1..], ok := if t.ok then eval(t.rest[0]) else t.ok)
  }

  /** One step, and what Wait returned if it was the last of a round. */
  function Next(eval: Check -> bool, nBatchSize: nat, s: State, e: Event): (State, Option<bool>)
    requires Enabled(s, e) && s.nTotal >= 0 && s.nIdle >= if e.Wake? then 1 else 0
  {
    match e
    case Add(checks, woken) => (AddChecks(s, checks, woken), None)
    case Enter(i) => Look(nBatchSize, s.(nTotal := s.nTotal + 1), i)
    case Run(i) => (s.(threads := s.threads[i := RunOne(eval, s.threads[i])]), None)
    case Return(i) => Look(nBatchSize, Report(s, i), i)
    case Wake(i) => Look(nBatchSize, s.(nIdle := s.nIdle - 1, threads := s.threads[i := Outside]), i)
  }

  // ----------------------------------------------------------- counting the threads

  function SumOf(f: Thread -> nat, ts: seq<Thread>): nat {
    if ts == [] then 0 else SumOf(f, ts[..|ts| - 1]) + f(ts[|ts| - 1])
  }

  lemma {:induction false} SumUpdate(f: Thread -> nat, ts: seq<Thread>, i: nat, t: Thread)
    requires i < |ts|
    ensures SumOf(f, ts[i := t]) + f(ts[i]) == SumOf(f, ts) + f(t)
  {
    var n := |ts| - 1;
    if i < n {
      SumUpdate(f, ts[..n], i, t);
      assert ts[i := t][..n] == ts[..n][i := t];
    } else {
      assert ts[i := t][..n] == ts[..n];
    }
  }

  lemma {:induction false} SumSame(f: Thread -> nat, ts: seq<Thread>, ts': seq<Thread>)
    requires |ts| == |ts'| && forall i :: 0 <= i < |ts| ==> f(ts[i]) == f(ts'[i])
    ensures SumOf(f, ts) == SumOf(f, ts')
  {
    if ts != [] {
      SumSame(f, ts[..|ts| - 1], ts'[..|ts| - 1]);
    }
  }

  lemma {:induction false} SumAtLeast(f: Thread -> nat, ts: seq<Thread>, i: nat)
    requires i < |ts|
    ensures SumOf(f, ts) >= f(ts[i])
  {
    if i < |ts| - 1 {
      SumAtLeast(f, ts[..|ts| - 1], i);
    }
  }

  lemma {:induction false} SumPositive(f: Thread -> nat, ts: seq<Thread>) returns (i: nat)
    requires SumOf(f, ts) > 0
    ensures i < |ts| && f(ts[i]) > 0
  {
    if f(ts[|ts| - 1]) > 0 {
      i := |ts| - 1;
    } else {
      i := SumPositive(f, ts[..|ts| - 1]);
    }
  }

  function Held(t: Thread): nat {
    if t.Running? then t.nNow else 0
  }

  function Idle(t: Thread): nat {
    if t.Sleeping? then 1 else 0
  }

  function Joined(t: Thread): nat {
    if t.Outside? then 0 else 1
  }

  // --------------------------------------------------------------------- invariants

  predicate AllSucceed(eval: Check -> bool, checks: seq<Check>) {
    forall c :: c in checks ==> eval(c)
  }

  /** The counters are exact; `extra` threads are between sleep or work and the queue. */
  ghost predicate Tallies(s: State, extra: nat) {
    && s.nTodo == |s.queue| + SumOf(Held, s.threads)
    && s.nIdle == SumOf(Idle, s.threads)
    && s.nTotal == SumOf(Joined, s.threads) + extra
    && forall i :: 0 <= i < |s.threads| && s.threads[i].Running? ==> s.threads[i].nNow >= 1
  }

  /** A sleeping master has nothing to take, and is told when the last check is done. */
  ghost predicate MasterSafe(s: State) {
    && s.threads != []
    && (s.threads[MASTER].Sleeping? ==> s.queue == [])
    && (s.threads[MASTER] == Sleeping(false) ==> s.nTodo > 0)
  }

  /** Checks that have yet to run belong to this round. */
  ghost predicate OfThisRound(s: State) {
    && (forall c :: c in s.queue ==> c in s.added)
    && (forall i, c :: 0 <= i < |s.threads| && s.threads[i].Running? && c in s.threads[i].rest ==> c in s.added)
  }

  predicate Failed(t: Thread) {
    t.Running? && !t.ok
  }

  /** A failure anywhere is the failure of a check of this round. */
  ghost predicate FailuresReal(eval: Check -> bool, s: State) {
    && (!s.fAllOk ==> exists c :: c in s.added && !eval(c))
    && (forall i :: 0 <= i < |s.threads| && Failed(s.threads[i]) ==> exists c :: c in s.added && !eval(c))
  }

  /** A check is still waiting in a batch, or its batch has failed. */
  ghost predicate Pending(ts: seq<Thread>, c: Check) {
    exists i :: 0 <= i < |ts| && ts[i].Running? && (!ts[i].ok || c in ts[i].rest)
  }

  /** No failing check of this round is forgotten. */
  ghost predicate NothingForgotten(eval: Check -> bool, s: State) {
    forall c :: c in s.added && !eval(c) ==> c in s.queue || !s.fAllOk || Pending(s.threads, c)
  }

  ghost predicate RoundKept(eval: Check -> bool, s: State) {
    OfThisRound(s) && FailuresReal(eval, s) && NothingForgotten(eval, s)
  }

  ghost predicate Inv(eval: Check -> bool, s: State, extra: nat) {
    Tallies(s, extra) && MasterSafe(s) && RoundKept(eval, s)
  }

  // ---------------------------------------------------------------- taking a batch

  lemma TakeKeepsTallies(s: State, i: nat, k: nat)
    requires Tallies(s, 1) && i < |s.threads| && s.threads[i].Outside? && 1 <= k <= |s.queue|
    ensures Tallies(s.(queue := s.queue[..|s.queue| - k],
                       threads := s.threads[i := Running(TakeBack(s.queue, k), k, s.fAllOk)]), 0)
  {
    var t := Running(TakeBack(s.queue, k), k, s.fAllOk);
    SumUpdate(Held, s.threads, i, t);
    SumUpdate(Idle, s.threads, i, t);
    SumUpdate(Joined, s.threads, i, t);
  }

  lemma SleepKeepsTallies(s: State, i: nat)
    requires Tallies(s, 1) && i < |s.threads| && s.threads[i].Outside?
    ensures Tallies(s.(nIdle := s.nIdle + 1, threads := s.threads[i := Sleeping(false)]), 0)
  {
    SumUpdate(Held, s.threads, i, Sleeping(false));
    SumUpdate(Idle, s.threads, i, Sleeping(false));
    SumUpdate(Joined, s.threads, i, Sleeping(false));
  }

  /** Everything the queue held is still in the queue or in the batch. */
  lemma TakenOrLeft(queue: seq<Check>, k: nat, c: Check)
    requires k <= |queue|
    ensures c in queue <==> c in queue[..|queue| - k] || c in TakeBack(queue, k)
  {
    if c in queue {
      var j :| 0 <= j < |queue| && queue[j] == c;
      if j < |queue| - k {
        assert queue[..|queue| - k][j] == c;
      } else {
        assert TakeBack(queue, k)[|queue| - 1 - j] == c;
      }
    }
  }

  lemma PendingKept(ts: seq<Thread>, i: nat, t: Thread, c: Check)
    requires i < |ts|
    requires Pending(ts, c)
    requires ts[i].Running? ==> t.Running? && (!ts[i].ok ==> !t.ok) && (c in ts[i].rest ==> c in t.rest || !t.ok)
    ensures Pending(ts[i := t], c)
  {
    var j :| 0 <= j < |ts| && ts[j].Running? && (!ts[j].ok || c in ts[j].rest);
    assert ts[i := t][j].Running?;
  }

  lemma TakeKeepsRound(eval: Check -> bool, s: State, i: nat, k: nat)
    requires RoundKept(eval, s) && i < |s.threads| && s.threads[i].Outside? && 1 <= k <= |s.queue|
    ensures var s' := s.(queue := s.queue[..|s.queue| - k],
                         threads := s.threads[i := Running(TakeBack(s.queue, k), k, s.fAllOk)]);
            RoundKept(eval, s')
  {
    var t := Running(TakeBack(s.queue, k), k, s.fAllOk);
    var s' := s.(queue := s.queue[..|s.queue| - k], threads := s.threads[i := t]);
    forall c ensures c in s.queue <==> c in s'.queue || c in t.rest {
      TakenOrLeft(s.queue, k, c);
    }
    forall c | c in s.added && !eval(c) ensures c in s'.queue || !s'.fAllOk || Pending(s'.threads, c) {
      if c in t.rest {
        assert s'.threads[i] == t;
      } else if Pending(s.threads, c) {
        PendingKept(s.threads, i, t, c);
      }
    }
  }

  // ------------------------------------------------------------- looking at the queue

  /** The round depends on threads only through their batches. */
  lemma RoundIgnores(eval: Check -> bool, s: State, s': State)
    requires RoundKept(eval, s) && s'.queue == s.queue && s'.fAllOk == s.fAllOk && s'.added == s.added
    requires |s'.threads| == |s.threads|
    requires forall i :: 0 <= i < |s.threads| ==>
               (s.threads[i].Running? <==> s'.threads[i].Running?) &&
                 (s.threads[i].Running? ==> s'.threads[i] == s.threads[i])
    ensures RoundKept(eval, s')
  {
    forall c | Pending(s.threads, c) ensures Pending(s'.threads, c) {
      var j :| 0 <= j < |s.threads| && s.threads[j].Running? && (!s.threads[j].ok || c in s.threads[j].rest);
      assert s'.threads[j] == s.threads[j];
    }
  }

  /** When nothing is left to do, no thread holds a batch. */
  lemma NoneRunning(s: State, extra: nat)
    requires Tallies(s, extra) && s.nTodo == 0
    ensures s.queue == [] && forall i :: 0 <= i < |s.threads| ==> !s.threads[i].Running?
  {
    forall i | 0 <= i < |s.threads| ensures !s.threads[i].Running? {
      SumAtLeast(Held, s.threads, i);
    }
  }

  /** The verdict at the end of a round is that of all its checks. */
  lemma VerdictIsRight(eval: Check -> bool, s: State)
    requires Tallies(s, 1) && RoundKept(eval, s) && s.nTodo == 0
    ensures s.fAllOk == AllSucceed(eval, s.added)
  {
    NoneRunning(s, 1);
  }

  /** The next round starts clean. */
  lemma LeaveKeepsInv(eval: Check -> bool, s: State)
    requires Inv(eval, s, 1) && s.threads[MASTER].Outside? && s.nTodo == 0
    ensures Inv(eval, s.(nTotal := s.nTotal - 1, fAllOk := true, threads := s.threads[MASTER := Outside], added := []),
                0)
  {
    NoneRunning(s, 1);
    assert s.threads[MASTER := Outside] == s.threads;
  }

  lemma LookKeepsInv(eval: Check -> bool, nBatchSize: nat, s: State, i: nat)
    requires Inv(eval, s, 1) && i < |s.threads| && s.threads[i].Outside?
    ensures s.nTotal >= 0 && s.nIdle >= 0
    ensures var (s', verdict) := Look(nBatchSize, s, i);
            && Inv(eval, s', 0)
            && (verdict.Some? ==> verdict.value == AllSucceed(eval, s.added))
  {
    hide SumOf, RoundKept;
    if s.queue == [] {
      if i == MASTER && s.nTodo == 0 {
        VerdictIsRight(eval, s);
        LeaveKeepsInv(eval, s);
      } else {
        SleepKeepsTallies(s, i);
        RoundIgnores(eval, s, s.(nIdle := s.nIdle + 1, threads := s.threads[i := Sleeping(false)]));
      }
    } else {
      var k := BatchSize(nBatchSize, s);
      TakeKeepsTallies(s, i, k);
      TakeKeepsRound(eval, s, i, k);
    }
  }

  // ------------------------------------------------------------------ the other steps

  lemma WakeKeepsInv(eval: Check -> bool, s: State, i: nat)
    requires Inv(eval, s, 0) && i < |s.threads| && s.threads[i].Sleeping?
    ensures s.nIdle >= 1 && Inv(eval, s.(nIdle := s.nIdle - 1, threads := s.threads[i := Outside]), 1)
  {
    SumUpdate(Held, s.threads, i, Outside);
    SumUpdate(Idle, s.threads, i, Outside);
    SumUpdate(Joined, s.threads, i, Outside);
    RoundIgnores(eval, s, s.(nIdle := s.nIdle - 1, threads := s.threads[i := Outside]));
  }

  lemma NotifyIsHarmless(ts: seq<Thread>, ts': seq<Thread>)
    requires |ts| == |ts'| && forall i :: 0 <= i < |ts| ==>
               ts'[i] == ts[i] || (ts[i].Sleeping? && ts'[i] == Sleeping(true))
    ensures SumOf(Held, ts') == SumOf(Held, ts) && SumOf(Idle, ts') == SumOf(Idle, ts) &&
            SumOf(Joined, ts') == SumOf(Joined, ts)
  {
    SumSame(Held, ts, ts');
    SumSame(Idle, ts, ts');
    SumSame(Joined, ts, ts');
  }

  lemma ReportKeepsTallies(s: State, i: nat)
    requires Tallies(s, 0) && MasterSafe(s) && i < |s.threads| && s.threads[i].Running?
    ensures Tallies(Report(s, i), 1) && MasterSafe(Report(s, i)) && Report(s, i).threads[i].Outside?
  {
    var ts := s.threads[i := Outside];
    SumUpdate(Held, s.threads, i, Outside);
    SumUpdate(Idle, s.threads, i, Outside);
    SumUpdate(Joined, s.threads, i, Outside);
    NotifyIsHarmless(ts, Report(s, i).threads);
  }

  lemma ReportKeepsRound(eval: Check -> bool, s: State, i: nat)
    requires RoundKept(eval, s) && i < |s.threads| && s.threads[i].Running? && s.threads[i].rest == []
    ensures RoundKept(eval, Report(s, i))
  {
    var t, s' := s.threads[i], Report(s, i);
    forall c | c in s.added && !eval(c) ensures c in s'.queue || !s'.fAllOk || Pending(s'.threads, c) {
      if Pending(s.threads, c) && t.ok {
        var j :| 0 <= j < |s.threads| && s.threads[j].Running? && (!s.threads[j].ok || c in s.threads[j].rest);
        assert s'.threads[j] == s.threads[j];
      }
    }
  }

  lemma RunKeepsTallies(s: State, i: nat, t: Thread)
    requires Tallies(s, 0) && MasterSafe(s) && i < |s.threads| && s.threads[i].Running? && t.Running? &&
             t.nNow == s.threads[i].nNow
    ensures var s' := s.(threads := s.threads[i := t]); Tallies(s', 0) && MasterSafe(s')
  {
    SumUpdate(Held, s.threads, i, t);
    SumUpdate(Idle, s.threads, i, t);
    SumUpdate(Joined, s.threads, i, t);
  }

  lemma RunKeepsRound(eval: Check -> bool, s: State, i: nat)
    requires RoundKept(eval, s) && i < |s.threads| && s.threads[i].Running? && s.threads[i].rest != []
    ensures RoundKept(eval, s.(threads := s.threads[i := RunOne(eval, s.threads[i])]))
  {
    var t := s.threads[i];
    var t', s' := RunOne(eval, t), s.(threads := s.threads[i := RunOne(eval, t)]);
    assert t.rest[0] in t.rest;
    forall c | c in t.rest && !eval(c) ensures c in t'.rest || !t'.ok {
      var j :| 0 <= j < |t.rest| && t.rest[j] == c;
      assert j > 0 ==> t'.rest[j - 1] == c;
    }
    forall c | c in s.added && !eval(c) ensures c in s'.queue || !s'.fAllOk || Pending(s'.threads, c) {
      if Pending(s.threads, c) {
        PendingKept(s.threads, i, t', c);
      }
    }
  }

  lemma AddKeepsInv(eval: Check -> bool, s: State, checks: seq<Check>, woken: nat)
    requires Inv(eval, s, 0) && Enabled(s, Add(checks, woken))
    ensures Inv(eval, AddChecks(s, checks, woken), 0)
  {
    hide SumOf;
    var s' := AddChecks(s, checks, woken);
    NotifyIsHarmless(s.threads, s'.threads);
    forall c | Pending(s.threads, c) ensures Pending(s'.threads, c) {
      var j :| 0 <= j < |s.threads| && s.threads[j].Running? && (!s.threads[j].ok || c in s.threads[j].rest);
      assert s'.threads[j] == s.threads[j];
    }
  }

  /** Every step keeps the invariant, and a verdict is that of the round's checks. */
  lemma StepKeepsInv(eval: Check -> bool, nBatchSize: nat, s: State, e: Event)
    requires Inv(eval, s, 0) && Enabled(s, e)
    ensures s.nTotal >= 0 && s.nIdle >= if e.Wake? then 1 else 0
    ensures var (s', verdict) := Next(eval, nBatchSize, s, e);
            && Inv(eval, s', 0)
            && (verdict.Some? ==> verdict.value == AllSucceed(eval, s.added))
  {
    hide SumOf, RoundKept, Look, Report, AddChecks, RunOne;
    match e {
      case Add(checks, woken) => AddKeepsInv(eval, s, checks, woken);
      case Enter(i) =>
        RoundIgnores(eval, s, s.(nTotal := s.nTotal + 1));
        LookKeepsInv(eval, nBatchSize, s.(nTotal := s.nTotal + 1), i);
      case Run(i) =>
        RanOne(eval, s.threads[i]);
        RunKeepsTallies(s, i, RunOne(eval, s.threads[i]));
        RunKeepsRound(eval, s, i);
      case Return(i) =>
        ReportKeepsTallies(s, i);
        ReportKeepsRound(eval, s, i);
        Reported(s, i);
        LookKeepsInv(eval, nBatchSize, Report(s, i), i);
      case Wake(i) =>
        WakeKeepsInv(eval, s, i);
        LookKeepsInv(eval, nBatchSize, s.(nIdle := s.nIdle - 1, threads := s.threads[i := Outside]), i);
    }
  }

  lemma RanOne(eval: Check -> bool, t: Thread)
    requires t.Running? && t.rest != []
    ensures RunOne(eval, t).Running? && RunOne(eval, t).nNow == t.nNow
  {
  }

  lemma Reported(s: State, i: nat)
    requires i < |s.threads| && s.threads[i].Running?
    ensures var r := Report(s, i);
            |r.threads| == |s.threads| && r.added == s.added && r.nTotal == s.nTotal &&
            r.nIdle == s.nIdle
  {
  }
}
