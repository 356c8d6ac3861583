/** What every run of the check queue guarantees: right answers, nothing lost, no leak between
    rounds, and Wait returning after a bounded number of steps. */
module CheckQueueRuns {
  import opened CheckQueue
  import opened CheckQueueProof

  /** Each action of the run is enabled when its turn comes. */
  ghost predicate Legal(s: State, run: seq<Action>)
    decreases |run|
  {
    run != [] ==> Enabled(s, run[0]) && Legal(Apply(s, run[0]), run[1..])
  }

  ghost function Final(s: State, run: seq<Action>): State
    requires Legal(s, run)
    decreases |run|
  {
    if run == [] then s else Final(Apply(s, run[0]), run[1..])
  }

  lemma {:induction false} OutsideSums(ts: seq<Thread>, f: Thread -> int)
    requires f(Outside) == 0 && forall i :: 0 <= i < |ts| ==> ts[i] == Outside
    ensures Sum(ts, f) == 0
  {
    if ts != [] {
      OutsideSums(ts[..|ts| - 1], f);
    }
  }

  lemma InitInv(workers: nat, batchSize: nat)
    ensures Inv(Init(workers, batchSize)) && Unlocked(Init(workers, batchSize))
  {
    var s := Init(workers, batchSize);
    OutsideSums(s.threads, Held);
    OutsideSums(s.threads, Idle);
    OutsideSums(s.threads, Inside);
    forall c
      ensures Sum(s.threads, Taken(c)) == 0
    {
      OutsideSums(s.threads, Taken(c));
    }
  }

  lemma {:induction false} RunInv(s: State, run: seq<Action>)
    requires Inv(s) && Unlocked(s) && Legal(s, run)
    ensures Inv(Final(s, run)) && Unlocked(Final(s, run))
    decreases |run|
  {
    if run != [] {
      StepInv(s, run[0]);
      RunInv(Apply(s, run[0]), run[1..]);
    }
  }

  /** In every interleaving, every call of Wait answers whether all checks added for it pass. */
  lemma WaitIsRight(workers: nat, batchSize: nat, run: seq<Action>, i: nat)
    requires Legal(Init(workers, batchSize), run) && i < |Final(Init(workers, batchSize), run).rounds|
    ensures var r := Final(Init(workers, batchSize), run).rounds[i];
            r.verdict <==> forall c :: c in r.added ==> c.passes
  {
    InitInv(workers, batchSize);
    RunInv(Init(workers, batchSize), run);
    assert Right(Final(Init(workers, batchSize), run).rounds[i]);
  }

  /** At every moment each added check is queued, taken by exactly one thread, or reported, and
      nTodo counts those not reported. */
  lemma NothingLost(workers: nat, batchSize: nat, run: seq<Action>, c: Check)
    requires Legal(Init(workers, batchSize), run)
    ensures var s := Final(Init(workers, batchSize), run);
            && s.added[c] == multiset(s.queue)[c] + Sum(s.threads, Taken(c)) + s.reported[c]
            && s.nTodo == |s.queue| + Sum(s.threads, Held) >= |s.queue|
  {
    InitInv(workers, batchSize);
    RunInv(Init(workers, batchSize), run);
    HeldSumNat(Final(Init(workers, batchSize), run).threads);
  }

  /** A thread skips checks only when one of the checks of this round fails. */
  lemma SkipsOnlyAfterFailure(s: State, t: nat)
    requires Inv(s) && t < |s.threads| && s.threads[t].Working? && !s.threads[t].ok
    ensures exists c :: c in s.added && !c.passes
  {
    assert ThreadOk(s.threads[t], s.added);
  }

  // ---- Between rounds ----

  lemma {:induction false} IdleAreInside(ts: seq<Thread>)
    requires forall t :: 0 <= t < |ts| ==> Batch(ts[t]) == [] && !ts[t].Locked?
    ensures Sum(ts, Idle) == Sum(ts, Inside)
  {
    if ts != [] {
      IdleAreInside(ts[..|ts| - 1]);
    }
  }

  lemma {:induction false} NoChecksTaken(ts: seq<Thread>, t: nat)
    requires t < |ts| && forall c :: Sum(ts, Taken(c)) == 0
    ensures Batch(ts[t]) == []
  {
    if Batch(ts[t]) != [] {
      var c := Batch(ts[t])[0];
      assert multiset(Batch(ts[t]))[c] > 0;
      TakenBound(ts, t, c);
    }
  }

  /** With no check added since the last answer the queue is idle, whatever the workers are doing,
      so the assertion of a new controller holds and no verdict leaks into the next round. */
  lemma IdleBetweenRounds(s: State)
    requires Inv(s) && Unlocked(s) && s.added == multiset{}
    ensures s.nTotal == s.nIdle && s.nTodo == 0 && s.allOk && s.queue == []
  {
    if s.queue != [] {
      var c := s.queue[0];
      assert c in multiset(s.queue);
      TakenNat(s.threads, c);
    }
    forall c
      ensures Sum(s.threads, Taken(c)) == 0
    {
      TakenNat(s.threads, c);
      assert s.added[c] == 0;
    }
    forall t | 0 <= t < |s.threads|
      ensures Batch(s.threads[t]) == []
    {
      NoChecksTaken(s.threads, t);
    }
    IdleAreInside(s.threads);
    AllEmpty(s.threads);
  }

  lemma {:induction false} AllEmpty(ts: seq<Thread>)
    requires forall t :: 0 <= t < |ts| ==> Batch(ts[t]) == []
    ensures Sum(ts, Held) == 0
  {
    if ts != [] {
      AllEmpty(ts[..|ts| - 1]);
    }
  }

  // ---- Progress ----

  /** The steps threads take on their own account. */
  predicate Own(a: Action) { a.Enter? || a.Resume? || a.Execute? }

  lemma {:induction false} SomeoneHolds(ts: seq<Thread>) returns (w: nat)
    requires Sum(ts, Held) > 0
    ensures w < |ts| && Batch(ts[w]) != []
  {
    var n := |ts| - 1;
    if Batch(ts[n]) != [] {
      w := n;
    } else {
      w := SomeoneHolds(ts[..n]);
    }
  }

  /** A waiting master has left nothing in the queue, and some worker still owes it a report. */
  lemma WaitingMaster(s: State) returns (w: nat)
    requires Inv(s) && s.threads[0].Waiting?
    ensures s.queue == [] && 0 < w < |s.threads| && Batch(s.threads[w]) != []
  {
    w := SomeoneHolds(s.threads);
  }

  /** While the master is inside Wait some thread can always take a step of its own. */
  lemma NoDeadlock(s: State) returns (a: Action)
    requires Inv(s) && Unlocked(s) && !s.threads[0].Outside?
    ensures Enabled(s, a) && Own(a)
  {
    var t: nat := 0;
    if s.threads[0].Waiting? {
      t := WaitingMaster(s);
    }
    assert ThreadOk(s.threads[t], s.added);
    match s.threads[t]
    case Entering(_, _) => a := Enter(t);
    case Woken => a := Resume(t);
    case Working(_, _, _) => a := Execute(t);
  }

  function Weight(th: Thread): int {
    match th
    case Entering(_, _) => 2
    case Woken => 1
    case Working(b, next, _) => 2 * (|b| - next) + 1
    case _ => 0
  }

  /** How many steps the threads can still take on their own account. */
  function Work(s: State): int { 3 * |s.queue| + Sum(s.threads, Weight) }

  lemma {:induction false} WeightNat(ts: seq<Thread>)
    requires forall t :: 0 <= t < |ts| && ts[t].Working? ==> ts[t].next <= |ts[t].batch|
    ensures Sum(ts, Weight) >= 0
  {
    if ts != [] {
      WeightNat(ts[..|ts| - 1]);
    }
  }

  lemma ReportWork(s: State, t: nat)
    requires t < |s.threads| && s.threads[t].Entering?
    ensures Work(Report(s, t)) < Work(s) && Report(s, t).threads[t].Locked?
  {
    SumSet(s.threads, Weight, t, Locked);
    var s1 := Reported(s, t);
    SumSet(s1.threads, Weight, 0, Wake(s1.threads[0]));
  }

  lemma LoopWork(s: State, t: nat)
    requires t < |s.threads| && s.threads[t].Locked?
    ensures Work(Loop(s, t)) <= Work(s)
  {
    if s.queue != [] {
      TakeWork(s, t, BatchLength(s));
    } else if t == 0 && s.nTodo == 0 {
      SumSet(s.threads, Weight, 0, Outside);
    } else {
      SumSet(s.threads, Weight, t, Waiting);
    }
  }

  lemma TakeWork(s: State, t: nat, n: nat)
    requires t < |s.threads| && s.threads[t].Locked? && 1 <= n <= |s.queue|
    ensures Work(TakeBatch(s, t, n)) <= Work(s)
  {
    SumSet(s.threads, Weight, t, TakeBatch(s, t, n).threads[t]);
  }

  /** Every step of its own uses up some work. */
  lemma OwnStepsWork(s: State, a: Action)
    requires Enabled(s, a) && Own(a)
    ensures Work(Apply(s, a)) < Work(s)
  {
    match a
    case Enter(t) =>
      ReportWork(s, t);
      LoopWork(Report(s, t), t);
    case Resume(t) =>
      SumSet(s.threads, Weight, t, Locked);
      LoopWork(Reacquire(s, t), t);
    case Execute(t) =>
      SumSet(s.threads, Weight, t, ExecuteOne(s, t).threads[t]);
  }

  lemma WorkNat(s: State)
    requires Inv(s)
    ensures Work(s) >= 0
  {
    forall t | 0 <= t < |s.threads| && s.threads[t].Working?
      ensures s.threads[t].next <= |s.threads[t].batch|
    {
      assert ThreadOk(s.threads[t], s.added);
    }
    WeightNat(s.threads);
  }

  lemma NoWorkLeft(s: State)
    requires Inv(s) && Unlocked(s) && Work(s) == 0
    ensures s.threads[0].Outside?
  {
    if !s.threads[0].Outside? {
      var a := NoDeadlock(s);
      StepInv(s, a);
      OwnStepsWork(s, a);
      WorkNat(Apply(s, a));
    }
  }

  /** Wait returns: the threads cannot take more steps of their own than there is work, and
      when it is used up the master has left. Until then one of them can take another step. */
  lemma {:induction false} WaitReturns(s: State, run: seq<Action>)
    requires Inv(s) && Unlocked(s) && Legal(s, run) && forall i :: 0 <= i < |run| ==> Own(run[i])
    ensures |run| + Work(Final(s, run)) <= Work(s) && Work(Final(s, run)) >= 0
    ensures var f := Final(s, run); |run| == Work(s) ==> |f.threads| > 0 && f.threads[0].Outside?
    decreases |run|
  {
    RunInv(s, run);
    if run != [] {
      StepInv(s, run[0]);
      OwnStepsWork(s, run[0]);
      WaitReturns(Apply(s, run[0]), run[1..]);
    }
    WorkNat(Final(s, run));
    if Work(Final(s, run)) == 0 {
      NoWorkLeft(Final(s, run));
    }
  }
}
