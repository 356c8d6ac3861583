/** The parallel check queue: one master and any number of workers sharing a queue under one
    mutex (src/checkqueue.h). Each critical section is one step; the work between critical
    sections proceeds one check at a time. */
module CheckQueue {

  /** A verification and the answer it will give when run. */
  datatype Check = Check(id: int, passes: bool)

  /** Where a thread is. Entering holds the batch just finished, Locked is inside the mutex. */
  datatype Thread =
    | Outside
    | Entering(batch: seq<Check>, ok: bool)
    | Locked
    | Waiting
    | Woken
    | Working(batch: seq<Check>, next: nat, ok: bool)

  /** One call of Wait: the checks added for it and the answer it gave. */
  datatype Round = Round(added: multiset<Check>, verdict: bool)

  /** Thread 0 is the master. The last three fields are history, not seen by the threads. */
  datatype State = State(
    queue: seq<Check>, nTodo: int, nIdle: int, nTotal: int, allOk: bool,
    threads: seq<Thread>, batchSize: nat,
    added: multiset<Check>, reported: multiset<Check>, rounds: seq<Round>)

  function Init(workers: nat, batchSize: nat): State {
    State([], 0, 0, 0, true, seq(workers + 1, _ => Outside), batchSize, multiset{}, multiset{}, [])
  }

  // ---- Steps ----

  datatype Action =
    | Start(t: nat)                          // a worker thread begins its loop
    | Add(checks: seq<Check>, wakes: nat)    // the master adds a batch; a single check wakes one worker
    | CallWait                               // the master joins the workers
    | Enter(t: nat)                          // lock, report the last batch, take another or wait or leave
    | Resume(t: nat)                         // return from the condition variable with the lock
    | Spurious(t: nat)                       // wake up for no reason
    | Execute(t: nat)                        // run one check of the batch

  function Set(s: State, t: nat, th: Thread): State
    requires t < |s.threads|
  {
    s.(threads := s.threads[t := th])
  }

  function Wake(th: Thread): Thread { if th.Waiting? then Woken else th }

  /** notify_all on the workers' condition variable. */
  function WakeWorkers(ts: seq<Thread>): (r: seq<Thread>)
    ensures |r| == |ts|
    ensures forall i :: 0 <= i < |ts| ==> r[i] == if i == 0 then ts[0] else Wake(ts[i])
  {
    seq(|ts|, i requires 0 <= i < |ts| => if i == 0 then ts[0] else Wake(ts[i]))
  }

  predicate Enabled(s: State, a: Action) {
    match a
    case Start(t) => 0 < t < |s.threads| && s.threads[t].Outside?
    case Add(checks, wakes) =>
      && |s.threads| > 0 && s.threads[0].Outside?
      // notify_one wakes a waiting worker if there is one
      && (|checks| == 1 && (exists w :: 0 < w < |s.threads| && s.threads[w].Waiting?)
          ==> 0 < wakes < |s.threads| && s.threads[wakes].Waiting?)
    case CallWait => |s.threads| > 0 && s.threads[0].Outside?
    case Enter(t) => t < |s.threads| && s.threads[t].Entering?
    case Resume(t) => t < |s.threads| && s.threads[t].Woken?
    case Spurious(t) => t < |s.threads| && s.threads[t].Waiting?
    case Execute(t) => t < |s.threads| && s.threads[t].Working? && s.threads[t].next < |s.threads[t].batch|
  }

  function Apply(s: State, a: Action): State
    requires Enabled(s, a)
  {
    match a
    case Start(t) => Set(s, t, Entering([], true))
    case Add(checks, wakes) => AddChecks(s, checks, wakes)
    case CallWait => Set(s, 0, Entering([], true))
    case Enter(t) => Loop(Report(s, t), t)
    case Resume(t) => Loop(Reacquire(s, t), t)
    case Spurious(t) => Set(s, t, Woken)
    case Execute(t) => ExecuteOne(s, t)
  }

  function AddChecks(s: State, checks: seq<Check>, wakes: nat): State {
    s.(queue := s.queue + checks, nTodo := s.nTodo + |checks|, added := s.added + multiset(checks),
       threads := if |checks| == 0 then s.threads
                  else if |checks| > 1 then WakeWorkers(s.threads)
                  else if 0 < wakes < |s.threads| then s.threads[wakes := Wake(s.threads[wakes])]
                  else s.threads)
  }

  function Reacquire(s: State, t: nat): State
    requires t < |s.threads|
  {
    Set(s, t, Locked).(nIdle := s.nIdle - 1)
  }

  /** The clean-up at the head of the critical section. */
  function Report(s: State, t: nat): State
    requires t < |s.threads| && s.threads[t].Entering?
  {
    if s.threads[t].batch == [] then FirstTurn(s, t) else Notify(Reported(s, t), t)
  }

  function FirstTurn(s: State, t: nat): State
    requires t < |s.threads|
  {
    Set(s, t, Locked).(nTotal := s.nTotal + 1)
  }

  function Reported(s: State, t: nat): State
    requires t < |s.threads| && s.threads[t].Entering?
  {
    var th := s.threads[t];
    Set(s, t, Locked).(allOk := s.allOk && th.ok, nTodo := s.nTodo - |th.batch|,
                       reported := s.reported + multiset(th.batch))
  }

  /** A worker that reports the last check wakes the master. */
  function Notify(s: State, t: nat): State
    requires t < |s.threads|
  {
    if s.nTodo == 0 && t != 0 then Set(s, 0, Wake(s.threads[0])) else s
  }

  /** The rest of the critical section: leave, wait, or take a batch from the end of the queue. */
  function Loop(s: State, t: nat): State
    requires t < |s.threads|
  {
    if s.queue != [] then TakeBatch(s, t, BatchLength(s))
    else if t == 0 && s.nTodo == 0 then Leave(s)
    else Set(s, t, Waiting).(nIdle := s.nIdle + 1)
  }

  function Leave(s: State): State
    requires |s.threads| > 0
  {
    Set(s, 0, Outside).(nTotal := s.nTotal - 1, allOk := true,
                        added := multiset{}, reported := multiset{},
                        rounds := s.rounds + [Round(s.added, s.allOk)])
  }

  function TakeBatch(s: State, t: nat, n: nat): State
    requires t < |s.threads| && 1 <= n <= |s.queue|
  {
    var keep := |s.queue| - n;
    Set(s, t, Working(Reverse(s.queue[keep..]), 0, s.allOk)).(queue := s.queue[..keep])
  }

  function Share(q: nat, d: int): (n: nat)
    requires d > 0
    ensures n <= q
  {
    DivAtMost(q, d, q / d, q % d);
    q / d
  }

  lemma DivAtMost(q: nat, d: int, n: int, r: int)
    requires d > 0 && r >= 0 && q == d * n + r
    ensures n <= q
  {
    if n > 0 {
      assert d * n >= 1 * n;
    }
  }

  /** Smaller and smaller batches, never empty and never more than there is. */
  function BatchLength(s: State): (n: nat)
    requires s.queue != []
    ensures 1 <= n <= |s.queue|
  {
    var d := s.nTotal + s.nIdle + 1;
    var share := if d <= 0 then |s.queue| else Share(|s.queue|, d);
    var n := if s.batchSize < share then s.batchSize else share;
    if n < 1 then 1 else n
  }

  /** The batch in the order it is popped. */
  function Reverse(s: seq<Check>): (r: seq<Check>)
    ensures |r| == |s| && multiset(r) == multiset(s)
  {
    if s == [] then []
    else
      assert s == s[..|s| - 1] + [s[|s| - 1]];
      [s[|s| - 1]] + Reverse(s[..|s| - 1])
  }

  /** A check is skipped once one has failed. */
  function ExecuteOne(s: State, t: nat): State
    requires Enabled(s, Execute(t))
  {
    var w := s.threads[t];
    var ok := w.ok && w.batch[w.next].passes;
    Set(s, t, if w.next + 1 == |w.batch| then Entering(w.batch, ok) else Working(w.batch, w.next + 1, ok))
  }
}
