/** What a failed disconnection does to the candidates: when the consistency check holds afterwards, and a run after
    which it does not (src/main.cpp). */
module ChainFailure {
  import opened Tree
  import opened BlockRank
  import opened BestChain
  import opened ChainSteps
  import opened ChainState
  import opened ChainRuns

  /** A tip that is the best block reached has no candidate below it. */
  lemma NoneBelowTip(m: BlockManager)
    requires m.Valid() && m.reached == m.Tip()
    ensures NoneBelow(m.index.tree, m.seqId, m.candidates, m.reached)
  {
    forall c | c in m.candidates
      ensures !Less(m.index.tree, m.seqId, c, m.reached)
    {
      assert CandidateOk(m.index.tree, m.seqId, m.chainTx, m.Tip(), c);
    }
  }

  /** As long as no candidate sorts below the best block reached, the check holds exactly while that is the tip. */
  lemma CandidateCheck(m: BlockManager)
    requires m.Valid() && NoneBelow(m.index.tree, m.seqId, m.candidates, m.reached)
    ensures Good(m.index.tree, m.chainTx, m.connects, m.Tip())
    ensures m.Complete(m.index.tree, m.Tip()) <==> m.Tip() == m.reached
    ensures m.Tip() in m.candidates <==> m.Tip() == m.reached
  {
    OfferedFromTheMark(m.index.tree, m.Now(), m.reached, m.Tip());
    MarkIsCandidate(m.index.tree, m.Now(), m.reached, m.Tip());
    LessIsTotal(m.index.tree, m.seqId, m.Tip(), m.reached, m.Tip());
  }

  /** In a run in which every disconnection is clean, the candidates are complete from the tip on after every event. */
  method RunCleanly(m: BlockManager, events: seq<Event>)
    requires m.Valid() && m.reached == m.Tip() && forall k :: k >= m.coins.attempts ==> m.coins.undoes(k)
    modifies m, m.index, m.chain, m.coins
    ensures m.Valid() && m.reached == m.Tip() && m.Complete(m.index.tree, m.Tip())
  {
    var i := 0;
    while i < |events|
      invariant 0 <= i <= |events|
      invariant m.Valid() && m.reached == m.Tip() && m.coins.attempts >= old(m.coins.attempts)
    {
      var ok := Handle(m, events[i]);
      i := i + 1;
    }
    NoneBelowTip(m);
    CandidateCheck(m);
  }

  /**
   * From a tip that is the best block reached, with the best usable block being good: afterwards the candidates are
   * complete from the tip on exactly if all blocks above the fork are undone cleanly, or already the first is not.
   */
  method ActivateTowards(m: BlockManager, ghost goal: int) returns (ok: bool)
    requires m.Valid() && m.reached == m.Tip() && Aimed(m.index.tree, m.Now(), goal)
    modifies m, m.chain, m.coins
    ensures m.Valid() && m.index.tree == old(m.index.tree)
    ensures var undoes, a, d := m.coins.undoes, old(m.coins.attempts), ToUndo(m.index.tree, old(m.Tip()), goal);
            && (ok <==> AllClean(undoes, a, d))
            && (m.Complete(m.index.tree, m.Tip()) <==> AllClean(undoes, a, d) || !undoes(a))
  {
    NoneBelowTip(m);
    ok := m.ActivateBestChain();
  }

  /** Genesis 0, blocks 1 and 2 on it, and block 3 beside block 1. */
  const Zero: Forest := map[0 := Node(0, 0, 1)]
  const One: Forest := Zero[1 := Child(Zero, 0, 1)]
  const Two: Forest := One[2 := Child(One, 1, 1)]
  const Three: Forest := Two[3 := Child(Two, 0, 5)]

  lemma Paths()
    ensures Wf(Two) && Wf(Three)
    ensures Path(Two, 0) == [0] && Path(Two, 2) == [0, 1, 2]
    ensures Path(Three, 2) == [0, 1, 2] && Path(Three, 3) == [0, 3]
    ensures ToUndo(Two, 0, 2) == 0 && ToUndo(Three, 2, 3) == 2
  {
    assert Path(Two, 0) == [0] && Path(Two, 1) == [0, 1];
    assert Path(Three, 0) == [0] && Path(Three, 1) == [0, 1];
  }

  /** A block with all data on its path is the best usable block if it has more work than all others. */
  lemma AimAt(m: BlockManager, goal: int)
    requires m.Valid() && goal in m.index.tree && (forall b :: m.connects(b))
    requires forall a :: a in Path(m.index.tree, goal) ==> Num(m.nTx, a) > 0
    requires forall b :: b in m.index.tree && b != goal ==> m.index.tree[b].work < m.index.tree[goal].work
    ensures Aimed(m.index.tree, m.Now(), goal)
  {
    GoodMeans(m.index.tree, m.nTx, m.chainTx, m.connects, goal);
    LessIsTotal(m.index.tree, m.seqId, goal, goal, goal);
  }

  /** A node for which every block connects and the disconnection after the first is not clean. */
  ghost predicate Stores(m: BlockManager, t: Forest, nTx: map<int, nat>)
    reads m, m.index, m.chain
  {
    && m.Valid() && m.index.tree == t && m.nTx == nTx
    && (forall b :: m.connects(b)) && (forall k: nat :: m.coins.undoes(k) <==> k != 1)
  }

  lemma NoneFailed(m: BlockManager, b: int)
    requires m.Valid() && forall c :: m.connects(c)
    ensures !m.Failed(b)
  {
    if b in m.failedChild {
      AlongMeans(m.index.tree, b, NotIn(m.failedValid));
    }
  }

  const TwoTxs: map<int, nat> := map[0 := 1, 1 := 1, 2 := 1]
  const ThreeTxs: map<int, nat> := TwoTxs[3 := 1]

  method Header(m: BlockManager, ghost t: Forest, ghost nTx: map<int, nat>, n: int, prev: int, proof: int)
    requires Stores(m, t, nTx) && n !in t && prev in t && proof > 0
    modifies m.index
    ensures Stores(m, t[n := Child(t, prev, proof)], nTx) && m.Tip() == old(m.Tip())
  {
    m.AddToBlockIndex(n, prev, proof);
  }

  method Data(m: BlockManager, ghost t: Forest, ghost nTx: map<int, nat>, b: int)
    requires Stores(m, t, nTx) && b in t && Num(nTx, b) == 0
    modifies m
    ensures Stores(m, t, nTx[b := 1]) && m.Tip() == old(m.Tip()) && m.reached == old(m.reached)
  {
    NoneFailed(m, b);
    m.ReceivedBlockTransactions(b, 1);
  }

  method Start() returns (m: BlockManager)
    ensures fresh(m) && fresh(m.index) && fresh(m.chain) && fresh(m.coins)
    ensures Stores(m, Zero, map[0 := 1])
    ensures m.Tip() == 0 && m.reached == 0 && m.coins.attempts == 0
  {
    m := new BlockManager(0, 1, 1, b => true, k => k != 1);
  }

  /** Blocks 1 and 2, headers first. */
  method AddTwo(m: BlockManager)
    requires Stores(m, Zero, map[0 := 1])
    modifies m, m.index
    ensures Stores(m, Two, TwoTxs) && m.Tip() == old(m.Tip()) && m.reached == old(m.reached)
  {
    Header(m, Zero, map[0 := 1], 1, 0, 1);
    Header(m, One, map[0 := 1], 2, 1, 1);
    Data(m, Two, map[0 := 1], 1);
    Data(m, Two, map[0 := 1, 1 := 1], 2);
  }

  /** Block 2 becomes the tip, and nothing has to be disconnected. */
  lemma GrowOutcome(s: Records, later: int, tip: int, undoes: nat -> bool, a: nat, ok: bool)
    requires Aimed(Two, s, 2) && Foreseen(Two, s, 0, later, 0, tip, undoes, 0, a, ok)
    ensures ok && tip == 2 && a == 0
  {
    Paths();
  }

  method Grow(m: BlockManager)
    requires Stores(m, Two, TwoTxs) && m.Tip() == 0 && m.reached == 0 && m.coins.attempts == 0
    modifies m, m.chain, m.coins
    ensures Stores(m, Two, TwoTxs) && m.Tip() == 2 && m.reached == 2 && m.coins.attempts == 0
  {
    Paths();
    AimAt(m, 2);
    ghost var s := m.Now();
    var ok := m.ActivateBestChain();
    GrowOutcome(s, m.reached, m.Tip(), m.coins.undoes, m.coins.attempts, ok);
  }

  /** Block 3 has most work. Block 2 is undone cleanly and block 1 is not. */
  lemma ReorgOutcome(s: Records, later: int, tip: int, undoes: nat -> bool, a: nat, ok: bool)
    requires Aimed(Three, s, 3) && Foreseen(Three, s, 2, later, 2, tip, undoes, 0, a, ok)
    requires Attempts(undoes, 0, a, ok) && forall k: nat :: undoes(k) <==> k != 1
    ensures !ok && tip == 1 && later == 2
  {
    Paths();
    assert !undoes(1);
    OnPathAt(Three, 2, tip);
  }

  method AddThird(m: BlockManager)
    requires Stores(m, Two, TwoTxs) && m.Tip() == 2 && m.reached == 2
    modifies m, m.index
    ensures Stores(m, Three, ThreeTxs) && m.Tip() == 2 && m.reached == 2
  {
    Header(m, Two, TwoTxs, 3, 0, 5);
    Data(m, Three, TwoTxs, 3);
  }

  method Reorg(m: BlockManager) returns (ok: bool)
    requires Stores(m, Three, ThreeTxs) && m.Tip() == 2 && m.reached == 2 && m.coins.attempts == 0
    modifies m, m.chain, m.coins
    ensures m.Valid() && !ok && m.Tip() == 1 && m.reached == 2
    ensures Good(m.index.tree, m.chainTx, m.connects, 1) && 1 !in m.candidates && !m.Complete(m.index.tree, 1)
  {
    Paths();
    AimAt(m, 3);
    NoneBelowTip(m);
    ghost var s := m.Now();
    ok := m.ActivateBestChain();
    ReorgOutcome(s, m.reached, m.Tip(), m.coins.undoes, m.coins.attempts, ok);
    CandidateCheck(m);
  }

  /** The tip is left at block 1, which is good and no candidate. */
  method CheckFails() returns (m: BlockManager, ok: bool)
    ensures m.Valid() && !ok && m.Tip() == 1 && m.reached == 2
    ensures Good(m.index.tree, m.chainTx, m.connects, 1) && 1 !in m.candidates && !m.Complete(m.index.tree, 1)
  {
    m := Start();
    AddTwo(m);
    Grow(m);
    AddThird(m);
    ok := Reorg(m);
  }
}
