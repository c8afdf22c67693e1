/** Runs of the check queue: what Wait returns, and that it does return. */
module CheckQueueRun {
  import opened Common
  import opened CheckQueue

  // ------------------------------------------------------------------------- safety

  ghost predicate Ready(s: State, e: Event) {
    Enabled(s, e) && s.nTotal >= 0 && s.nIdle >= if e.Wake? then 1 else 0
  }

  /** States, events and verdicts of a run: any interleaving of the threads' steps. */
  ghost predicate Trace(eval: Check -> bool, nBatchSize: nat, ss: seq<State>, es: seq<Event>, vs: seq<Option<bool>>) {
    && |ss| == |es| + 1 && |vs| == |es|
    && forall j :: 0 <= j < |es| ==> Ready(ss[j], es[j]) && Next(eval, nBatchSize, ss[j], es[j]) == (ss[j + 1], vs[j])
  }

  /** The checks added before event `j` and after the last verdict before it. */
  function Since(es: seq<Event>, vs: seq<Option<bool>>, j: nat): seq<Check>
    requires j <= |es| == |vs|
  {
    if j == 0 || vs[j - 1].Some? then []
    else Since(es, vs, j - 1) + if es[j - 1].Add? then es[j - 1].checks else []
  }

  lemma StartIsFine(eval: Check -> bool, threads: nat)
    requires threads > 0
    ensures Inv(eval, Start(threads), 0)
  {
    NoneJoined(threads);
  }

  lemma {:induction false} NoneJoined(threads: nat)
    ensures var ts := Start(threads).threads; SumOf(Held, ts) == 0 && SumOf(Idle, ts) == 0 && SumOf(Joined, ts) == 0
  {
    var ts := Start(threads).threads;
    if threads > 0 {
      NoneJoined(threads - 1);
      assert ts[..threads - 1] == Start(threads - 1).threads;
    }
  }

  lemma AddedSoFar(eval: Check -> bool, nBatchSize: nat, s: State, e: Event)
    requires Ready(s, e)
    ensures var (s', verdict) := Next(eval, nBatchSize, s, e);
            s'.added == if verdict.Some? then [] else s.added + if e.Add? then e.checks else []
  {
    hide BatchSize;
    assert s.added + [] == s.added;
  }

  /**
   * In every run the invariant holds throughout, and Wait returns whether all
   * checks added since it last returned succeed.
   */
  lemma {:induction false} WaitIsRight(eval: Check -> bool, nBatchSize: nat, threads: nat,
                                       ss: seq<State>, es: seq<Event>, vs: seq<Option<bool>>, j: nat)
    requires threads > 0 && Trace(eval, nBatchSize, ss, es, vs) && ss[0] == Start(threads) && j <= |es|
    ensures Inv(eval, ss[j], 0) && ss[j].added == Since(es, vs, j)
    ensures j < |es| && vs[j].Some? ==> vs[j].value == AllSucceed(eval, Since(es, vs, j))
  {
    hide Inv, Next, Enabled, AllSucceed;
    if j == 0 {
      StartIsFine(eval, threads);
    } else {
      WaitIsRight(eval, nBatchSize, threads, ss, es, vs, j - 1);
      StepKeepsInv(eval, nBatchSize, ss[j - 1], es[j - 1]);
      AddedSoFar(eval, nBatchSize, ss[j - 1], es[j - 1]);
    }
    if j < |es| {
      StepKeepsInv(eval, nBatchSize, ss[j], es[j]);
      assert Next(eval, nBatchSize, ss[j], es[j]) == (ss[j + 1], vs[j]);
    }
  }

  /** Nothing but the threads' own conditions holds a run up: whatever step they allow continues it. */
  lemma RunsGoOn(eval: Check -> bool, nBatchSize: nat, threads: nat, ss: seq<State>, es: seq<Event>,
                 vs: seq<Option<bool>>, e: Event)
    returns (s: State, v: Option<bool>)
    requires threads > 0 && Trace(eval, nBatchSize, ss, es, vs) && ss[0] == Start(threads)
    requires Enabled(ss[|es|], e)
    ensures Trace(eval, nBatchSize, ss + [s], es + [e], vs + [v])
  {
    hide Inv, Next, Enabled;
    WaitIsRight(eval, nBatchSize, threads, ss, es, vs, |es|);
    StepKeepsInv(eval, nBatchSize, ss[|es|], e);
    var (s', v') := Next(eval, nBatchSize, ss[|es|], e);
    s, v := s', v';
  }

  // ----------------------------------------------------------------------- liveness

  /** While the master sleeps and has not been told, a worker holds a batch. */
  lemma SleepingMasterHasHelp(eval: Check -> bool, s: State) returns (i: nat)
    requires Inv(eval, s, 0) && s.threads[MASTER] == Sleeping(false)
    ensures MASTER < i < |s.threads| && s.threads[i].Running?
  {
    i := SumPositive(Held, s.threads);
  }

  /** A step with a cause: anything but waking without a notification. */
  predicate Caused(s: State, e: Event) {
    match e
    case Add(_, _) => false
    case Wake(i) => i < |s.threads| && s.threads[i] == Sleeping(true)
    case _ => true
  }

  /** While the master waits, some thread can take a step with a cause. */
  lemma NoDeadlock(eval: Check -> bool, s: State) returns (e: Event)
    requires Inv(eval, s, 0) && !s.threads[MASTER].Outside?
    ensures Enabled(s, e) && Caused(s, e)
  {
    if s.threads[MASTER].Running? {
      e := if s.threads[MASTER].rest == [] then Return(MASTER) else Run(MASTER);
    } else if s.threads[MASTER].notified {
      e := Wake(MASTER);
    } else {
      var i := SleepingMasterHasHelp(eval, s);
      e := if s.threads[i].rest == [] then Return(i) else Run(i);
    }
  }

  function Weight(t: Thread): nat {
    match t
    case Outside => 3
    case Sleeping(notified) => if notified then 1 else 0
    case Running(rest, _, _) => 2 + |rest|
  }

  /** How many steps are left at most. */
  function Measure(s: State): nat {
    4 * |s.queue| + SumOf(Weight, s.threads)
  }

  /** Looking at the queue uses up what the thread brought, unless Wait returns. */
  lemma LookDecreases(nBatchSize: nat, s: State, i: nat)
    requires i < |s.threads| && s.nTotal >= 0 && s.nIdle >= 0
    ensures var (s', verdict) := Look(nBatchSize, s, i);
            verdict.None? ==> Measure(s') + Weight(s.threads[i]) <= Measure(s)
  {
    hide SumOf;
    if s.queue == [] {
      SumUpdate(Weight, s.threads, i, Sleeping(false));
    } else {
      var k := BatchSize(nBatchSize, s);
      SumUpdate(Weight, s.threads, i, Running(TakeBack(s.queue, k), k, s.fAllOk));
    }
  }

  lemma ReportDecreases(s: State, i: nat)
    requires i < |s.threads| && s.threads[i].Running? && s.threads[i].rest == []
    ensures Measure(Report(s, i)) <= Measure(s) + 2 && Report(s, i).threads[i].Outside?
  {
    hide SumOf;
    var ts := s.threads[i := Outside];
    SumUpdate(Weight, s.threads, i, Outside);
    SumUpdate(Weight, ts, MASTER, Sleeping(true));
  }

  /** While the master waits, every step with a cause brings the end of the round nearer. */
  lemma StepDecreases(eval: Check -> bool, nBatchSize: nat, s: State, e: Event)
    requires Ready(s, e) && !e.Add?
    ensures var (s', verdict) := Next(eval, nBatchSize, s, e);
            verdict.None? ==> Measure(s') + (if Caused(s, e) then 1 else 0) <= Measure(s)
  {
    hide SumOf, Look, Report;
    match e {
      case Enter(i) => LookDecreases(nBatchSize, s.(nTotal := s.nTotal + 1), i);
      case Run(i) => SumUpdate(Weight, s.threads, i, RunOne(eval, s.threads[i]));
      case Return(i) =>
        ReportDecreases(s, i);
        Reported(s, i);
        LookDecreases(nBatchSize, Report(s, i), i);
      case Wake(i) =>
        SumUpdate(Weight, s.threads, i, Outside);
        LookDecreases(nBatchSize, s.(nIdle := s.nIdle - 1, threads := s.threads[i := Outside]), i);
    }
  }

  /** How many steps of a trace have a cause. */
  function CausedSteps(ss: seq<State>, es: seq<Event>): nat
    requires |ss| == |es| + 1
  {
    if es == [] then 0
    else
      var n := |es| - 1;
      CausedSteps(ss[..n + 1], es[..n]) + if Caused(ss[n], es[n]) then 1 else 0
  }

  /** The places of these steps. */
  function CausedAt(ss: seq<State>, es: seq<Event>): set<nat>
    requires |ss| == |es| + 1
  {
    set j: nat | j < |es| && Caused(ss[j], es[j])
  }

  lemma {:induction false} CausedStepsAre(ss: seq<State>, es: seq<Event>)
    requires |ss| == |es| + 1
    ensures CausedSteps(ss, es) == |CausedAt(ss, es)|
  {
    hide Caused;
    if es == [] {
      assert CausedAt(ss, es) == {};
    } else {
      var n := |es| - 1;
      var before := CausedAt(ss[..n + 1], es[..n]);
      CausedStepsAre(ss[..n + 1], es[..n]);
      assert n !in before;
      assert CausedAt(ss, es) == if Caused(ss[n], es[n]) then before + {n} else before;
    }
  }

  /**
   * From any state, a Wait returns within a bounded number of steps with a cause,
   * however many spurious wake-ups lie between them.
   */
  lemma {:induction false} WaitReturns(eval: Check -> bool, nBatchSize: nat, ss: seq<State>, es: seq<Event>,
                                       vs: seq<Option<bool>>)
    requires Trace(eval, nBatchSize, ss, es, vs)
    requires forall j :: 0 <= j < |es| ==> !es[j].Add? && vs[j].None?
    ensures CausedSteps(ss, es) + Measure(ss[|es|]) <= Measure(ss[0])
  {
    hide Next, Measure, Caused;
    if es != [] {
      var n := |es| - 1;
      WaitReturns(eval, nBatchSize, ss[..n + 1], es[..n], vs[..n]);
      StepDecreases(eval, nBatchSize, ss[n], es[n]);
      assert ss[..n + 1][n] == ss[n];
    }
  }
}
