/** Safety and progress of the check queue over every interleaving. */
module CheckQueueProof {
  import opened CheckQueue

  // ---- Counting over the threads ----

  function Sum(ts: seq<Thread>, f: Thread -> int): int {
    if ts == [] then 0 else Sum(ts[..|ts| - 1], f) + f(ts[|ts| - 1])
  }

  lemma {:induction false} SumSet(ts: seq<Thread>, f: Thread -> int, t: nat, th: Thread)
    requires t < |ts|
    ensures Sum(ts[t := th], f) == Sum(ts, f) - f(ts[t]) + f(th)
  {
    var n := |ts| - 1;
    if t < n {
      assert ts[t := th][..n] == ts[..n][t := th];
      SumSet(ts[..n], f, t, th);
    } else {
      assert ts[t := th][..n] == ts[..n];
    }
  }

  function Batch(th: Thread): seq<Check> {
    match th
    case Entering(b, _) => b
    case Working(b, _, _) => b
    case _ => []
  }

  function Held(th: Thread): int { |Batch(th)| }
  function Idle(th: Thread): int { if th.Waiting? || th.Woken? then 1 else 0 }
  function Inside(th: Thread): int {
    if th.Waiting? || th.Woken? || th.Locked? || Batch(th) != [] then 1 else 0
  }

  /** How often a check is among those a thread has taken and not yet reported. */
  function Taken(c: Check): Thread -> int {
    (th: Thread) => multiset(Batch(th))[c]
  }

  lemma {:induction false} HeldBound(ts: seq<Thread>, t: nat)
    requires t < |ts|
    ensures 0 <= Held(ts[t]) <= Sum(ts, Held)
    ensures 0 <= Sum(ts, Held)
  {
    var n := |ts| - 1;
    HeldSumNat(ts[..n]);
    if t < n {
      HeldBound(ts[..n], t);
    }
  }

  lemma {:induction false} HeldSumNat(ts: seq<Thread>)
    ensures 0 <= Sum(ts, Held)
  {
    if ts != [] {
      HeldSumNat(ts[..|ts| - 1]);
    }
  }

  // ---- The invariant ----

  ghost predicate Bad(m: multiset<Check>) {
    exists c :: c in m && !c.passes
  }

  /** What a thread knows: its own flag is set unless one of the checks of the round fails. */
  ghost predicate ThreadOk(th: Thread, added: multiset<Check>) {
    match th
    case Working(b, next, ok) =>
      && next < |b|
      && (ok ==> forall k :: 0 <= k < next ==> b[k].passes)
      && (!ok ==> Bad(added))
    case Entering(b, ok) =>
      && (b == [] ==> ok)
      && (ok ==> forall k :: 0 <= k < |b| ==> b[k].passes)
      && (!ok ==> Bad(added))
    case _ => true
  }

  ghost predicate Counted(s: State) {
    && s.nTodo == |s.queue| + Sum(s.threads, Held)
    && s.nIdle == Sum(s.threads, Idle)
    && s.nTotal == Sum(s.threads, Inside)
    && forall c :: s.added[c] == multiset(s.queue)[c] + Sum(s.threads, Taken(c)) + s.reported[c]
  }

  ghost predicate Judged(s: State) {
    && (s.allOk ==> forall c :: c in s.reported ==> c.passes)
    && (!s.allOk ==> Bad(s.added))
    && (forall t :: 0 <= t < |s.threads| ==> ThreadOk(s.threads[t], s.added))
  }

  /** Every answer of Wait was right. */
  ghost predicate Right(r: Round) {
    r.verdict <==> !Bad(r.added)
  }

  ghost predicate Inv(s: State) {
    && |s.threads| > 0
    && Counted(s) && Judged(s)
    && (s.threads[0].Waiting? ==> s.queue == [] && s.nTodo > 0)
    && (forall i :: 0 <= i < |s.rounds| ==> Right(s.rounds[i]))
  }

  /** Between critical sections no thread holds the mutex. */
  ghost predicate Unlocked(s: State) {
    forall t :: 0 <= t < |s.threads| ==> !s.threads[t].Locked?
  }

  ghost predicate OnlyLocked(s: State, t: nat) {
    && t < |s.threads| && s.threads[t].Locked?
    && forall u :: 0 <= u < |s.threads| && u != t ==> !s.threads[u].Locked?
  }

  /** Replacing one thread changes every count by the difference. */
  lemma Replace(ts: seq<Thread>, t: nat, th: Thread)
    requires t < |ts|
    ensures Sum(ts[t := th], Held) == Sum(ts, Held) - Held(ts[t]) + Held(th)
    ensures Sum(ts[t := th], Idle) == Sum(ts, Idle) - Idle(ts[t]) + Idle(th)
    ensures Sum(ts[t := th], Inside) == Sum(ts, Inside) - Inside(ts[t]) + Inside(th)
    ensures forall c :: Sum(ts[t := th], Taken(c)) ==
                        Sum(ts, Taken(c)) - multiset(Batch(ts[t]))[c] + multiset(Batch(th))[c]
  {
    SumSet(ts, Held, t, th);
    SumSet(ts, Idle, t, th);
    SumSet(ts, Inside, t, th);
    forall c
      ensures Sum(ts[t := th], Taken(c)) == Sum(ts, Taken(c)) - multiset(Batch(ts[t]))[c] + multiset(Batch(th))[c]
    {
      SumSet(ts, Taken(c), t, th);
    }
  }

  lemma SetInv(s: State, t: nat, th: Thread)
    requires Inv(s) && t < |s.threads|
    requires Batch(th) == Batch(s.threads[t]) && Idle(th) == Idle(s.threads[t]) && Inside(th) == Inside(s.threads[t])
    requires ThreadOk(th, s.added) && (t == 0 ==> !th.Waiting?)
    ensures Inv(Set(s, t, th))
  {
    Replace(s.threads, t, th);
  }

  lemma ReportedInv(s: State, t: nat)
    requires Inv(s) && t < |s.threads| && s.threads[t].Entering? && s.threads[t].batch != []
    ensures var s1 := Reported(s, t);
            && Counted(s1) && Judged(s1) && s1.nTodo >= 0
            && (s1.threads[0].Waiting? ==> s1.queue == [] && (s1.nTodo == 0 ==> t != 0))
  {
    var th := s.threads[t];
    var s1 := Reported(s, t);
    Replace(s.threads, t, Locked);
    HeldBound(s.threads, t);
    assert ThreadOk(th, s.added);
    if s1.allOk {
      forall c | c in s1.reported
        ensures c.passes
      {
        if c in multiset(th.batch) {
          assert c in th.batch;
        }
      }
    }
  }

  lemma FirstTurnInv(s: State, t: nat)
    requires Inv(s) && t < |s.threads| && s.threads[t] == Entering([], true)
    ensures Inv(FirstTurn(s, t))
  {
    Replace(s.threads, t, Locked);
  }

  /** Waking the master when the last check has been reported. */
  lemma NotifyInv(s: State, t: nat)
    requires 0 <= t < |s.threads| && Counted(s) && Judged(s) && s.nTodo >= 0
    requires s.threads[0].Waiting? ==> s.queue == [] && (s.nTodo == 0 ==> t != 0)
    requires forall i :: 0 <= i < |s.rounds| ==> Right(s.rounds[i])
    ensures Inv(Notify(s, t))
  {
    Replace(s.threads, 0, Wake(s.threads[0]));
  }

  lemma ReportLocks(s: State, t: nat)
    requires Unlocked(s) && t < |s.threads| && s.threads[t].Entering?
    ensures OnlyLocked(Report(s, t), t)
  {}

  lemma ReportInv(s: State, t: nat)
    requires Inv(s) && t < |s.threads| && s.threads[t].Entering?
    ensures Inv(Report(s, t))
  {
    if s.threads[t].batch == [] {
      assert ThreadOk(s.threads[t], s.added);
      FirstTurnInv(s, t);
    } else {
      ReportedInv(s, t);
      NotifyInv(Reported(s, t), t);
    }
  }

  // ---- The rest of the critical section ----

  lemma {:induction false} NothingHeld(ts: seq<Thread>, c: Check)
    requires Sum(ts, Held) == 0
    ensures Sum(ts, Taken(c)) == 0
    ensures forall t :: 0 <= t < |ts| ==> Batch(ts[t]) == []
    decreases |ts|
  {
    if ts != [] {
      var n := |ts| - 1;
      HeldSumNat(ts[..n]);
      NothingHeld(ts[..n], c);
      assert forall t :: 0 <= t < n ==> ts[t] == ts[..n][t];
    }
  }

  /** When everything is reported, the flag is the answer. */
  lemma AllReported(s: State)
    requires Inv(s) && s.queue == [] && s.nTodo == 0
    ensures s.added == s.reported
    ensures Right(Round(s.added, s.allOk))
    ensures forall t :: 0 <= t < |s.threads| ==> Batch(s.threads[t]) == []
  {
    forall c
      ensures s.added[c] == s.reported[c]
    {
      NothingHeld(s.threads, c);
    }
    NothingHeld(s.threads, Check(0, true));
  }

  lemma LeaveInv(s: State)
    requires Inv(s) && OnlyLocked(s, 0) && s.queue == [] && s.nTodo == 0
    ensures Inv(Leave(s)) && Unlocked(Leave(s))
  {
    AllReported(s);
    Replace(s.threads, 0, Outside);
    forall c
      ensures Sum(s.threads, Taken(c)) == 0
    {
      NothingHeld(s.threads, c);
    }
  }

  lemma WaitInv(s: State, t: nat)
    requires Inv(s) && OnlyLocked(s, t) && s.queue == [] && !(t == 0 && s.nTodo == 0)
    ensures var s1 := Set(s, t, Waiting).(nIdle := s.nIdle + 1); Inv(s1) && Unlocked(s1)
  {
    Replace(s.threads, t, Waiting);
    HeldSumNat(s.threads);
  }

  lemma SplitCounts(q: seq<Check>, keep: nat)
    requires keep <= |q|
    ensures forall c :: multiset(q)[c] == multiset(q[..keep])[c] + multiset(Reverse(q[keep..]))[c]
  {
    assert q == q[..keep] + q[keep..];
  }

  lemma MoveCounted(s: State, t: nat, rest: seq<Check>, th: Thread)
    requires Counted(s) && t < |s.threads| && s.threads[t].Locked? && Inside(th) == 1 && Idle(th) == 0
    requires |s.queue| == |rest| + |Batch(th)|
    requires forall c :: multiset(s.queue)[c] == multiset(rest)[c] + multiset(Batch(th))[c]
    ensures Counted(Set(s, t, th).(queue := rest))
  {
    Replace(s.threads, t, th);
  }

  lemma BatchSplits(q: seq<Check>, keep: nat, th: Thread, ok: bool)
    requires keep < |q| && th == Working(Reverse(q[keep..]), 0, ok)
    ensures Inside(th) == 1 && Idle(th) == 0 && |q| == |q[..keep]| + |Batch(th)|
    ensures forall c :: multiset(q)[c] == multiset(q[..keep])[c] + multiset(Batch(th))[c]
  {
    SplitCounts(q, keep);
  }

  lemma TakeCounted(s: State, t: nat, n: nat)
    requires Counted(s) && t < |s.threads| && s.threads[t].Locked? && 1 <= n <= |s.queue|
    ensures Counted(TakeBatch(s, t, n))
  {
    var keep := |s.queue| - n;
    var th := Working(Reverse(s.queue[keep..]), 0, s.allOk);
    BatchSplits(s.queue, keep, th, s.allOk);
    MoveCounted(s, t, s.queue[..keep], th);
  }

  /** Whatever the length of the batch. */
  lemma TakeInv(s: State, t: nat, n: nat)
    requires Inv(s) && OnlyLocked(s, t) && 1 <= n <= |s.queue|
    ensures Inv(TakeBatch(s, t, n)) && Unlocked(TakeBatch(s, t, n))
  {
    TakeCounted(s, t, n);
    var s1 := TakeBatch(s, t, n);
    assert ThreadOk(s1.threads[t], s1.added);
  }

  lemma LoopInv(s: State, t: nat)
    requires Inv(s) && OnlyLocked(s, t)
    ensures Inv(Loop(s, t)) && Unlocked(Loop(s, t))
  {
    if s.queue != [] {
      TakeInv(s, t, BatchLength(s));
    } else if t == 0 && s.nTodo == 0 {
      LeaveInv(s);
    } else {
      WaitInv(s, t);
    }
  }

  // ---- The other steps ----

  lemma ExecuteInv(s: State, t: nat)
    requires Inv(s) && Unlocked(s) && Enabled(s, Execute(t))
    ensures Inv(ExecuteOne(s, t)) && Unlocked(ExecuteOne(s, t))
  {
    var w := s.threads[t];
    var c := w.batch[w.next];
    assert ThreadOk(w, s.added);
    TakenIsAdded(s, t, c);
    SetInv(s, t, ExecuteOne(s, t).threads[t]);
  }

  lemma {:induction false} TakenNat(ts: seq<Thread>, c: Check)
    ensures Sum(ts, Taken(c)) >= 0
  {
    if ts != [] {
      TakenNat(ts[..|ts| - 1], c);
    }
  }

  lemma {:induction false} TakenBound(ts: seq<Thread>, t: nat, c: Check)
    requires t < |ts|
    ensures Sum(ts, Taken(c)) >= multiset(Batch(ts[t]))[c]
  {
    var n := |ts| - 1;
    TakenNat(ts[..n], c);
    if t < n {
      TakenBound(ts[..n], t, c);
    }
  }

  lemma TakenIsAdded(s: State, t: nat, c: Check)
    requires Inv(s) && t < |s.threads| && c in Batch(s.threads[t])
    ensures c in s.added
  {
    TakenBound(s.threads, t, c);
  }

  lemma ResumeInv(s: State, t: nat)
    requires Inv(s) && Unlocked(s) && Enabled(s, Resume(t))
    ensures Inv(Reacquire(s, t)) && OnlyLocked(Reacquire(s, t), t)
  {
    Replace(s.threads, t, Locked);
  }

  lemma {:induction false} WokenSums(ts: seq<Thread>, us: seq<Thread>, f: Thread -> int)
    requires |us| == |ts| && forall i :: 0 <= i < |ts| ==> us[i] == ts[i] || us[i] == Wake(ts[i])
    requires f(Waiting) == f(Woken)
    ensures Sum(us, f) == Sum(ts, f)
  {
    if ts != [] {
      WokenSums(ts[..|ts| - 1], us[..|us| - 1], f);
    }
  }

  lemma AddCounted(s: State, checks: seq<Check>, wakes: nat)
    requires Counted(s)
    ensures Counted(AddChecks(s, checks, wakes))
  {
    var s1 := AddChecks(s, checks, wakes);
    WokenSums(s.threads, s1.threads, Held);
    WokenSums(s.threads, s1.threads, Idle);
    WokenSums(s.threads, s1.threads, Inside);
    forall c
      ensures s1.added[c] == multiset(s1.queue)[c] + Sum(s1.threads, Taken(c)) + s1.reported[c]
    {
      WokenSums(s.threads, s1.threads, Taken(c));
    }
  }

  lemma AddJudged(s: State, checks: seq<Check>, wakes: nat)
    requires Judged(s)
    ensures Judged(AddChecks(s, checks, wakes))
  {
    var s1 := AddChecks(s, checks, wakes);
    if Bad(s.added) {
      var c :| c in s.added && !c.passes;
      assert c in s1.added;
    }
    forall t | 0 <= t < |s1.threads|
      ensures ThreadOk(s1.threads[t], s1.added)
    {
      assert ThreadOk(s.threads[t], s.added);
    }
  }

  lemma AddInv(s: State, checks: seq<Check>, wakes: nat)
    requires Inv(s) && Unlocked(s) && Enabled(s, Add(checks, wakes))
    ensures Inv(AddChecks(s, checks, wakes)) && Unlocked(AddChecks(s, checks, wakes))
  {
    AddCounted(s, checks, wakes);
    AddJudged(s, checks, wakes);
  }

  lemma CriticalInv(s: State, t: nat)
    requires Inv(s) && Unlocked(s)
    ensures Enabled(s, Enter(t)) ==> Inv(Loop(Report(s, t), t)) && Unlocked(Loop(Report(s, t), t))
    ensures Enabled(s, Resume(t)) ==> Inv(Loop(Reacquire(s, t), t)) && Unlocked(Loop(Reacquire(s, t), t))
  {
    if Enabled(s, Enter(t)) {
      ReportInv(s, t);
      ReportLocks(s, t);
      LoopInv(Report(s, t), t);
    }
    if Enabled(s, Resume(t)) {
      ResumeInv(s, t);
      LoopInv(Reacquire(s, t), t);
    }
  }

  lemma SimpleInv(s: State, t: nat, th: Thread)
    requires Inv(s) && Unlocked(s) && t < |s.threads|
    requires (s.threads[t].Outside? && th == Entering([], true)) || (s.threads[t].Waiting? && th == Woken)
    ensures Inv(Set(s, t, th)) && Unlocked(Set(s, t, th))
  {
    SetInv(s, t, th);
  }

  /** Every step keeps the invariant. */
  lemma StepInv(s: State, a: Action)
    requires Inv(s) && Unlocked(s) && Enabled(s, a)
    ensures Inv(Apply(s, a)) && Unlocked(Apply(s, a))
  {
    match a
    case Start(t) => SimpleInv(s, t, Entering([], true));
    case Add(checks, wakes) => AddInv(s, checks, wakes);
    case CallWait => SimpleInv(s, 0, Entering([], true));
    case Enter(t) => CriticalInv(s, t);
    case Resume(t) => CriticalInv(s, t);
    case Spurious(t) => SimpleInv(s, t, Woken);
    case Execute(t) => ExecuteInv(s, t);
  }
}
