/** The block index at work: headers, block data and the activation of the best chain (src/main.cpp). */
module ChainState {
  import opened Tree
  import opened Sets
  import opened SkipList
  import opened Chain
  import opened BlockRank
  import opened BlockArrival
  import opened BestChain
  import opened ChainSteps

  /** The coin database, as far as the block index depends on it: whether the next block to be
      disconnected will be undone cleanly. */
  class CoinDatabase {
    const undoes: nat -> bool
    var attempts: nat

    constructor (undoes: nat -> bool)
      ensures this.undoes == undoes && attempts == 0
    {
      this.undoes, attempts := undoes, 0;
    }

    method DisconnectBlock(ghost since: nat) returns (clean: bool)
      requires Undone(since, true)
      modifies this
      ensures attempts == old(attempts) + 1 && clean == undoes(old(attempts)) && Undone(since, clean)
    {
      clean, attempts := undoes(attempts), attempts + 1;
    }

    /** Every attempt from the given one on was clean, except the last if ok is false. */
    ghost predicate Undone(since: nat, ok: bool)
      reads this
    {
      Attempts(undoes, since, attempts, ok)
    }
  }

  class BlockManager {
    const index: BlockIndex
    const chain: ActiveChain
    const coins: CoinDatabase
    const genesis: int
    /** Whether a block, on top of its own chain, breaks no rule of ConnectBlock. */
    const connects: int -> bool

    var nTx: map<int, nat>
    var chainTx: map<int, nat>
    var seqId: map<int, nat>
    var nextId: nat
    var failedValid: set<int>
    var failedChild: set<int>
    var candidates: set<int>
    var unlinked: map<int, seq<int>>
    /** The best block that the tip has reached. The tip is below it only after a failed disconnection. */
    ghost var reached: int

    function Tip(): int
      reads chain
    {
      var n := |chain.vChain|;
      if n > 0 && chain.vChain[n - 1].Block? then chain.vChain[n - 1].b else 0
    }

    predicate Failed(b: int)
      reads this
    {
      b in failedValid || b in failedChild
    }

    /** One genesis block, and the active chain is the whole path to the tip. */
    ghost predicate Shaped()
      reads index, chain
    {
      && index.Valid()
      && Rooted(index.tree, genesis)
      && Tip() in index.tree
      && chain.vChain == Entries(Path(index.tree, Tip()))
    }

    ghost function Now(): Records
      reads this
    {
      Records(nTx, chainTx, seqId, nextId, failedValid, failedChild, candidates, unlinked, connects)
    }

    ghost predicate Arrived(t: Forest, queue: seq<int>)
      reads this
    {
      Now().ArrivalOk(t, queue)
    }

    /** mark is a good block that does not sort below the tip; from it on, the candidates are complete. */
    ghost predicate Ranked(t: Forest, mark: int, tip: int)
      reads this
    {
      Now().RankOk(t, mark, tip)
    }

    /** The candidates are complete from the tip on, as the consistency check asks. */
    ghost predicate Complete(t: Forest, tip: int)
      reads this
      requires Wf(t)
    {
      AllOffered(t, seqId, chainTx, failedValid, candidates, tip)
    }

    /** The active chain is the path to the tip, and all that is kept per block fits to it. */
    ghost predicate Stands(t: Forest, mark: int, tip: int)
      reads this, chain
    {
      Arrived(t, []) && Ranked(t, mark, tip) && chain.vChain == Entries(Path(t, tip))
    }

    ghost predicate Valid()
      reads this, index, chain
    {
      Shaped() && Arrived(index.tree, []) && Ranked(index.tree, reached, Tip())
    }

    /** The genesis block is linked and active. */
    constructor (genesis: int, proof: int, txs: nat, connects: int -> bool, undoes: nat -> bool)
      requires txs > 0 && connects(genesis)
      ensures Valid() && fresh(index) && fresh(chain) && fresh(coins)
      ensures coins.undoes == undoes && coins.attempts == 0
      ensures Tip() == genesis && reached == genesis && this.connects == connects
      ensures index.tree == map[genesis := Node(genesis, 0, proof)]
      ensures failedValid == {} && failedChild == {} && nTx == map[genesis := txs]
    {
      this.index := new BlockIndex();
      this.chain := new ActiveChain();
      this.coins := new CoinDatabase(undoes);
      this.genesis, this.connects := genesis, connects;
      nTx, chainTx, seqId, nextId := map[genesis := txs], map[genesis := txs], map[genesis := 1], 2;
      failedValid, failedChild, candidates, unlinked, reached := {}, {}, {genesis}, map[], genesis;
      new;
      this.index.AddGenesis(genesis, proof);
      GenesisOk(genesis, proof, txs, connects);
      assert this.index.tree == map[genesis := Node(genesis, 0, proof)];
      assert Path(this.index.tree, genesis) == [genesis];
      this.chain.SetTip(this.index.tree, Block(genesis));
      assert Now() == Records(map[genesis := txs], map[genesis := txs], map[genesis := 1], 2, {}, {}, {genesis}, map[],
                              connects);
    }

    /** Links b, gives it the next sequence number and makes it a candidate unless it sorts below the tip. */
    method Link(t: Forest, tip: int, b: int)
      requires b in ToLink(t, nTx, chainTx) && b !in candidates
      modifies this
      ensures |ToLink(t, nTx, chainTx)| < old(|ToLink(t, nTx, chainTx)|)
      ensures forall c :: c in old(candidates) ==> c in candidates && Num(seqId, c) == old(Num(seqId, c))
      ensures chainTx == Linked(old(chainTx), nTx, t, b)
      ensures seqId == old(seqId)[b := old(nextId)] && nextId == old(nextId) + 1
      ensures candidates == Offered(t, seqId, old(candidates), tip, b)
      ensures unlinked == old(unlinked) - {b}
      ensures nTx == old(nTx) && failedValid == old(failedValid) && failedChild == old(failedChild)
      ensures reached == old(reached)
    {
      ToLinkShrinks(t, nTx, chainTx, b, Before(t, chainTx, b) + Num(nTx, b));
      chainTx := Linked(chainTx, nTx, t, b);
      seqId, nextId := seqId[b := nextId], nextId + 1;
      if !Less(t, seqId, b, tip) {
        candidates := candidates + {b};
      }
      unlinked := unlinked - {b};
    }

    /** Links the first block of the queue and queues the blocks that waited for it. */
    method LinkFirst(t: Forest, tip: int, queue: seq<int>) returns (rest: seq<int>)
      requires queue != [] && Arrived(t, queue) && Ranked(t, reached, tip)
      modifies this
      ensures Arrived(t, rest) && Ranked(t, reached, tip) && reached == old(reached)
      ensures nTx == old(nTx) && failedValid == old(failedValid) && failedChild == old(failedChild)
      ensures |ToLink(t, nTx, chainTx)| < old(|ToLink(t, nTx, chainTx)|)
      ensures forall c :: c in old(candidates) ==> c in candidates && Num(seqId, c) == old(Num(seqId, c))
    {
      ghost var s := Now();
      var b := queue[0];
      assert ReadyOk(t, nTx, chainTx, b);
      assert b in candidates ==> CandidateOk(t, seqId, chainTx, tip, b);
      LinkKeepsArrival(t, s, tip, queue);
      LinkKeepsRank(t, s, reached, tip, b);
      rest := queue[1..] + Kids(unlinked, b);
      Link(t, tip, b);
      assert Now() == s.WithLink(t, tip, b);
    }

    /** Links everything the queue leads to. */
    method LinkAll(t: Forest, tip: int, b: int)
      requires Arrived(t, [b]) && Ranked(t, reached, tip)
      modifies this
      ensures Arrived(t, []) && Ranked(t, reached, tip) && reached == old(reached)
      ensures nTx == old(nTx) && failedValid == old(failedValid) && failedChild == old(failedChild)
      ensures forall c :: c in old(candidates) ==> c in candidates && Num(seqId, c) == old(Num(seqId, c))
    {
      var queue := [b];
      while queue != []
        invariant Arrived(t, queue) && Ranked(t, reached, tip) && reached == old(reached)
        invariant nTx == old(nTx) && failedValid == old(failedValid) && failedChild == old(failedChild)
        invariant forall c :: c in old(candidates) ==> c in candidates && Num(seqId, c) == old(Num(seqId, c))
        decreases |ToLink(t, nTx, chainTx)|
      {
        queue := LinkFirst(t, tip, queue);
      }
    }

    /** Files the data of b, or links it and what waited for it. */
    method Receive(t: Forest, tip: int, b: int, n: nat)
      requires Arrived(t, []) && Ranked(t, reached, tip) && b in t && Num(nTx, b) == 0 && !Failed(b) && n > 0
      modifies this
      ensures Arrived(t, []) && Ranked(t, reached, tip) && reached == old(reached) && nTx == old(nTx)[b := n]
      ensures failedValid == old(failedValid) && failedChild == old(failedChild)
      ensures forall c :: c in old(candidates) ==> c in candidates && Num(seqId, c) == old(Num(seqId, c))
    {
      ghost var s := Now();
      ReceiveKeepsArrival(t, s, b, n);
      ReceiveKeepsRank(t, s, reached, tip, b, n);
      var ready := ParentLinked(t, chainTx, b);
      if !ready && !Failed(t[b].prev) {
        unlinked := FileUnder(unlinked, t[b].prev, b);
      }
      nTx, chainTx := nTx[b := n], chainTx[b := 0];
      assert Now() == s.WithData(t, b, n);
      if ready {
        LinkAll(t, tip, b);
      }
    }

    /** The data of b has arrived, with n transactions. The sort key of a candidate does not change. */
    method ReceivedBlockTransactions(b: int, n: nat)
      requires Valid() && b in index.tree && Num(nTx, b) == 0 && !Failed(b) && n > 0
      modifies this
      ensures Valid() && reached == old(reached) && nTx == old(nTx)[b := n]
      ensures failedValid == old(failedValid) && failedChild == old(failedChild)
      ensures forall c :: c in old(candidates) ==> c in candidates && Num(seqId, c) == old(Num(seqId, c))
    {
      Receive(index.tree, Tip(), b, n);
    }

    /** A new header below a known parent. */
    method AddToBlockIndex(n: int, prev: int, proof: int)
      requires Valid() && n !in index.tree && prev in index.tree && proof > 0
      modifies index
      ensures Valid()
      ensures index.tree == old(index.tree)[n := Child(old(index.tree), prev, proof)]
    {
      HeaderKeeps(index.tree, Now(), genesis, reached, Tip(), n, prev, proof);
      index.AddBlock(n, prev, proof);
    }

    /** A header that is new and passes the checks is added below a known parent that has not failed. The outcomes
        of the checks on the header alone and on its place in the chain are given. */
    method AcceptBlockHeader(n: int, prev: int, proof: int, headerOk: bool, contextOk: bool) returns (ok: bool)
      requires Valid() && proof > 0
      modifies index
      ensures Valid()
      ensures ok <==> if n in old(index.tree) then !Failed(n)
                      else headerOk && contextOk && prev in old(index.tree) && !Failed(prev)
      ensures index.tree == if ok && n !in old(index.tree) then
                old(index.tree)[n := Child(old(index.tree), prev, proof)]
                            else old(index.tree)
    {
      if n in index.tree {
        return !Failed(n);
      }
      if !headerOk || prev !in index.tree || Failed(prev) || !contextOk {
        return false;
      }
      AddToBlockIndex(n, prev, proof);
      return true;
    }

    /** The data of b was refused. */
    method RejectBlock(b: int)
      requires Valid() && b in index.tree && Num(nTx, b) == 0 && !connects(b)
      modifies this
      ensures Valid() && failedValid == old(failedValid) + {b}
      ensures nTx == old(nTx) && failedChild == old(failedChild) && candidates == old(candidates)
      ensures reached == old(reached)
    {
      ghost var s := Now();
      assert LinkOk(index.tree, nTx, chainTx, b);
      assert b in candidates ==> CandidateOk(index.tree, seqId, chainTx, Tip(), b);
      assert candidates - {b} == candidates;
      InvalidKeeps(index.tree, s, reached, Tip(), b);
      failedValid := failedValid + {b};
      assert Now() == s.WithFailed(b);
    }

    /** Walks from n towards the active chain, to the first block that is marked as failed. */
    method FirstUnusable(t: Forest, tip: int, n: int) returns (bad: bool, i: nat, test: int)
      requires Wf(t) && Linkage(t, nTx, chainTx, []) && Rooted(t, genesis) && tip in t
      requires chain.vChain == Entries(Path(t, tip))
      requires FailOk(t, connects, failedValid, failedChild)
      requires Good(t, chainTx, connects, tip) && n in t && Num(chainTx, n) > 0
      ensures i <= t[n].height && test == Path(t, n)[i]
      ensures bad ==> Failed(test)
      ensures !bad ==> Along(t, n, NotIn(failedValid))
    {
      test, i := n, t[n].height;
      GoodIsUsable(t, chainTx, connects, failedValid, failedChild, tip);
      while !chain.Contains(t, test)
        invariant i <= t[n].height && test == Path(t, n)[i] && test in t && t[test].height == i
        invariant forall k :: i < k <= t[n].height ==> Path(t, n)[k] !in failedValid
        decreases i
      {
        LinkedBelow(t, nTx, chainTx, n, i);
        assert Num(chainTx, test) > 0 && Num(nTx, test) > 0;
        if Failed(test) || Num(nTx, test) == 0 {
          return true, i, test;
        }
        GenesisShared(t, genesis, tip, test);
        PathStep(t, n, i);
        PathAt(t, n, i - 1);
        test, i := t[test].prev, i - 1;
      }
      ChainUsable(t, tip, i, NotIn(failedValid));
      AlongFrom(t, n, i, NotIn(failedValid));
      return false, i, test;
    }

    /** Marks the blocks above test on the path to n as children of a failed block; test and they are no candidates
        any more. */
    method RemoveChain(t: Forest, n: int, i: nat, test: int)
      requires Wf(t) && n in t && i <= t[n].height && test == Path(t, n)[i]
      modifies this
      ensures nTx == old(nTx) && chainTx == old(chainTx) && seqId == old(seqId) && nextId == old(nextId)
      ensures failedValid == old(failedValid) && unlinked == old(unlinked)
      ensures failedChild == old(failedChild) + Upper(t, n, i + 1)
      ensures candidates == old(candidates) - Upper(t, n, i)
    {
      var failed := n;
      ghost var k: nat := t[n].height;
      while failed != test
        invariant i <= k <= t[n].height && failed == Path(t, n)[k]
        invariant nTx == old(nTx) && chainTx == old(chainTx) && seqId == old(seqId) && nextId == old(nextId)
        invariant failedValid == old(failedValid) && unlinked == old(unlinked)
        invariant failedChild == old(failedChild) + Upper(t, n, k + 1)
        invariant candidates == old(candidates) - Upper(t, n, k + 1)
        decreases k
      {
        UpperStep(t, n, k);
        PathStep(t, n, k);
        failedChild := failedChild + {failed};
        candidates := candidates - {failed};
        failed, k := t[failed].prev, k - 1;
      }
      PathHeights(t, n);
      UpperStep(t, n, i);
      candidates := candidates - {test};
    }

    /** The last candidate that can be reached: candidates above a failed block are removed on the way. */
    method FindMostWorkChain(t: Forest, tip: int, ghost mark: int) returns (n: int)
      requires Rooted(t, genesis) && Stands(t, mark, tip)
      modifies this
      ensures Arrived(t, []) && Ranked(t, mark, tip)
      ensures nTx == old(nTx) && chainTx == old(chainTx) && seqId == old(seqId) && failedValid == old(failedValid)
      ensures old(failedChild) <= failedChild && candidates <= old(candidates)
      ensures Usable(t, chainTx, failedValid, n) && IsEnd(t, seqId, candidates, n, true)
    {
      var bad := true;
      n := tip;
      while bad
        invariant Arrived(t, []) && Ranked(t, mark, tip)
        invariant nTx == old(nTx) && chainTx == old(chainTx) && seqId == old(seqId) && failedValid == old(failedValid)
        invariant old(failedChild) <= failedChild && candidates <= old(candidates)
        invariant !bad ==> Usable(t, chainTx, failedValid, n) && IsEnd(t, seqId, candidates, n, true)
        decreases bad, |candidates|
      {
        n, bad := TryLast(t, tip, mark);
      }
    }

    /** One round: the last candidate, and whether it had to be removed. */
    method TryLast(t: Forest, tip: int, ghost mark: int) returns (n: int, bad: bool)
      requires Rooted(t, genesis) && Stands(t, mark, tip)
      modifies this
      ensures Arrived(t, []) && Ranked(t, mark, tip)
      ensures nTx == old(nTx) && chainTx == old(chainTx) && seqId == old(seqId) && failedValid == old(failedValid)
      ensures old(failedChild) <= failedChild && candidates <= old(candidates)
      ensures bad ==> |candidates| < old(|candidates|)
      ensures !bad ==> Usable(t, chainTx, failedValid, n) && IsEnd(t, seqId, candidates, n, true)
    {
      ghost var s := Now();
      GoodIsUsable(t, chainTx, connects, failedValid, failedChild, mark);
      LessIsTotal(t, seqId, mark, mark, mark);
      assert mark in candidates;
      n := EndOf(t, seqId, candidates, true);
      assert CandidateOk(t, seqId, chainTx, tip, n);
      var i, test;
      bad, i, test := FirstUnusable(t, tip, n);
      if bad {
        RemoveKeeps(t, s, mark, tip, n, i);
        assert Path(t, n)[t[n].height] == n && n in Upper(t, n, i);
        RemoveChain(t, n, i, test);
        assert Now() == s.WithRemoved(t, n, i);
        SmallerSet(candidates, s.candidates, n);
      }
    }

    /** The candidates that sort below the tip are erased, from the front. */
    method PruneBlockIndexCandidates(t: Forest, tip: int)
      modifies this
      ensures candidates == Pruned(t, seqId, old(candidates), tip)
      ensures nTx == old(nTx) && chainTx == old(chainTx) && seqId == old(seqId) && nextId == old(nextId)
      ensures failedValid == old(failedValid) && failedChild == old(failedChild) && unlinked == old(unlinked)
    {
      var done := false;
      while candidates != {} && !done
        invariant candidates <= old(candidates)
        invariant forall c :: c in old(candidates) - candidates ==> Less(t, seqId, c, tip)
        invariant done ==> forall c :: c in candidates ==> !Less(t, seqId, c, tip)
        invariant nTx == old(nTx) && chainTx == old(chainTx) && seqId == old(seqId) && nextId == old(nextId)
        invariant failedValid == old(failedValid) && failedChild == old(failedChild) && unlinked == old(unlinked)
        decreases !done, |candidates|
      {
        var first := EndOf(t, seqId, candidates, false);
        if Less(t, seqId, first, tip) {
          candidates := candidates - {first};
        } else {
          done := true;
          FirstIsAbove(t, seqId, candidates, first, tip);
        }
      }
    }

    /** The tip's parent becomes the tip, unless the tip is not undone cleanly. */
    method DisconnectTip(t: Forest, tip: int, ghost mark: int, ghost since: nat) returns (ok: bool)
      requires Stands(t, mark, tip) && t[tip].height > 0 && coins.Undone(since, true)
      modifies chain, coins
      ensures coins.attempts == old(coins.attempts) + 1 && ok == coins.undoes(old(coins.attempts))
      ensures coins.Undone(since, ok)
      ensures ok ==> t[tip].prev in t && Stands(t, mark, t[tip].prev)
      ensures !ok ==> chain.vChain == old(chain.vChain)
    {
      ok := coins.DisconnectBlock(since);
      if ok {
        assert ParentOk(t, tip);
        DisconnectedKeeps(t, Now(), mark, tip);
        chain.SetTip(t, Block(t[tip].prev));
      }
    }

    /** Connects p on top of the tip, or marks it as failed. */
    method ConnectTip(t: Forest, tip: int, p: int, ghost mark: int) returns (ok: bool)
      requires Stands(t, mark, tip)
      requires p in t && t[p].height > 0 && t[p].prev == tip && Num(chainTx, p) > 0
      modifies this, chain
      ensures ok == connects(p)
      ensures nTx == old(nTx) && chainTx == old(chainTx) && seqId == old(seqId) && failedChild == old(failedChild)
      ensures candidates == if ok then Pruned(t, seqId, old(candidates), p) else old(candidates) - {p}
      ensures ok ==> Stands(t, LaterOf(t, seqId, mark, p), p) && failedValid == old(failedValid)
      ensures !ok ==> Stands(t, mark, tip) && failedValid == old(failedValid) + {p}
    {
      ghost var s := Now();
      ok := connects(p);
      if ok {
        ConnectedKeeps(t, s, mark, tip, p);
        chain.SetTip(t, Block(p));
        PruneBlockIndexCandidates(t, p);
        assert Now() == s.(candidates := Pruned(t, seqId, s.candidates, p));
      } else {
        InvalidKeeps(t, s, mark, tip, p);
        failedValid := failedValid + {p};
        candidates := candidates - {p};
        assert Now() == s.WithFailed(p);
      }
    }

    /** Disconnects tips until the block at height h is the tip, or one is not undone cleanly. */
    method DisconnectTo(t: Forest, start: int, h: nat, ghost mark: int) returns (tip: int, ok: bool)
      requires Stands(t, mark, start) && h <= t[start].height
      modifies chain, coins
      ensures coins.Undone(old(coins.attempts), ok)
      ensures tip in t && h <= t[tip].height <= t[start].height && tip == Path(t, start)[t[tip].height]
      ensures ok <==> t[tip].height == h
      ensures t[start].height - t[tip].height == coins.attempts - old(coins.attempts) - if ok then 0 else 1
      ensures Stands(t, mark, tip)
    {
      tip, ok := start, true;
      ghost var k := t[start].height;
      while t[tip].height != h && ok
        invariant h <= k <= t[start].height && tip in t && t[tip].height == k && tip == Path(t, start)[k]
        invariant Stands(t, mark, tip)
        invariant coins.Undone(old(coins.attempts), ok) && (!ok ==> k > h)
        invariant t[start].height - k == coins.attempts - old(coins.attempts) - if ok then 0 else 1
        decreases k, ok
      {
        OneDown(t, start, tip, k);
        ok := DisconnectTip(t, tip, mark, old(coins.attempts));
        if ok {
          tip, k := t[tip].prev, k - 1;
        }
      }
    }

    /** The blocks on the path to n from height target down to above height from. */
    method ToConnect(n: int, from: nat, target: nat) returns (list: seq<int>)
      requires index.Valid() && n in index.tree && from <= target <= index.tree[n].height
      ensures |list| == target - from && forall j :: 0 <= j < |list| ==> list[j] == Path(index.tree, n)[target - j]
    {
      var found, top := index.GetAncestor(n, target);
      list := ListDown(index.tree, n, from, target, top);
    }

    method ListDown(t: Forest, n: int, from: nat, target: nat, top: int) returns (list: seq<int>)
      requires Wf(t) && n in t && from <= target <= t[n].height && top == Path(t, n)[target]
      ensures |list| == target - from && forall j :: 0 <= j < |list| ==> list[j] == Path(t, n)[target - j]
    {
      ghost var p := Path(t, n);
      PathHeights(t, n);
      list := [];
      var walk := top;
      ghost var k := target;
      while t[walk].height != from
        invariant from <= k <= target && |list| == target - k && walk == p[k]
        invariant forall j :: 0 <= j < |list| ==> list[j] == p[target - j]
        decreases k
      {
        PathStep(t, n, k);
        list, walk, k := list + [walk], t[walk].prev, k - 1;
      }
    }

    /** Connects the listed blocks, last first, until one fails or the tip has more work than oldWork. */
    method ConnectBatch(t: Forest, n: int, start: int, from: nat, target: nat, list: seq<int>, oldWork: int,
                        ghost mark: int)
      returns (tip: int, goOn: bool, invalid: bool, ghost later: int)
      requires Stands(t, mark, start)
      requires Usable(t, chainTx, failedValid, n) && from <= target <= t[n].height && start == Path(t, n)[from]
      requires |list| == target - from && forall j :: 0 <= j < |list| ==> list[j] == Path(t, n)[target - j]
      modifies this, chain
      ensures Stands(t, later, tip)
      ensures nTx == old(nTx) && chainTx == old(chainTx) && seqId == old(seqId) && failedChild == old(failedChild)
      ensures candidates <= old(candidates) && !Less(t, seqId, later, mark)
      ensures goOn ==> !invalid && tip == Path(t, n)[target]
      ensures !goOn && !invalid ==> WorkOf(t, tip) > oldWork
      ensures if invalid then |t.Keys - failedValid| < |t.Keys - old(failedValid)| else failedValid == old(failedValid)
      ensures Toward(t, Now(), old(candidates), candidates, mark, later, n, tip, invalid)
    {
      tip, goOn, invalid, later := start, true, false, mark;
      LessIsTotal(t, seqId, mark, mark, mark);
      var h := from;
      while h < target && goOn
        invariant from <= h <= target
        invariant Stands(t, later, tip)
        invariant nTx == old(nTx) && chainTx == old(chainTx) && seqId == old(seqId) && failedChild == old(failedChild)
        invariant candidates <= old(candidates) && !Less(t, seqId, later, mark)
        invariant goOn ==> !invalid && tip == Path(t, n)[h]
        invariant !goOn && !invalid ==> WorkOf(t, tip) > oldWork
        invariant if invalid then |t.Keys - failedValid| < |t.Keys - old(failedValid)|
                  else failedValid == old(failedValid)
        invariant Toward(t, Now(), old(candidates), candidates, mark, later, n, tip, invalid)
        decreases target - h, goOn
      {
        h := h + 1;
        var p := list[target - h];
        assert p == Path(t, n)[h];
        tip, goOn, invalid, later := ConnectNext(t, n, tip, h, p, oldWork, later, mark);
      }
    }

    /** Connects one block. */
    method ConnectNext(t: Forest, n: int, start: int, h: nat, p: int, oldWork: int, ghost mark: int, ghost least: int)
      returns (tip: int, goOn: bool, invalid: bool, ghost later: int)
      requires Stands(t, mark, start)
      requires Usable(t, chainTx, failedValid, n) && 0 < h <= t[n].height && start == Path(t, n)[h - 1]
      requires p == Path(t, n)[h]
      requires !Less(t, seqId, mark, least)
      modifies this, chain
      ensures Stands(t, later, tip)
      ensures nTx == old(nTx) && chainTx == old(chainTx) && seqId == old(seqId) && failedChild == old(failedChild)
      ensures candidates <= old(candidates) && !Less(t, seqId, later, least)
      ensures goOn ==> !invalid && tip == p
      ensures !goOn && !invalid ==> WorkOf(t, tip) > oldWork
      ensures if invalid then |t.Keys - failedValid| < |t.Keys - old(failedValid)| else failedValid == old(failedValid)
      ensures Toward(t, Now(), old(candidates), candidates, mark, later, n, tip, invalid)
    {
      NextToConnect(t, nTx, chainTx, failedValid, n, h);
      NextIsToward(t, Now(), mark, n, h, start, p);
      ghost var before := failedValid;
      var ok := ConnectTip(t, start, p, mark);
      if ok {
        later := LaterOf(t, seqId, mark, p);
        LessIsTotal(t, seqId, later, least, mark);
        LessIsTotal(t, seqId, later, mark, least);
        return p, WorkOf(t, p) <= oldWork, false, later;
      }
      SmallerSet(t.Keys - failedValid, t.Keys - before, p);
      return start, false, true, mark;
    }

    /** The last block that the active chain shares with the path to n. */
    method ForkWith(tip: int, n: int) returns (fork: int)
      requires index.Valid() && Rooted(index.tree, genesis) && tip in index.tree && n in index.tree
      requires chain.vChain == Entries(Path(index.tree, tip))
      ensures fork in index.tree && index.tree[fork].height <= index.tree[tip].height
      ensures index.tree[fork].height <= index.tree[n].height
      ensures fork == Path(index.tree, tip)[index.tree[fork].height] == Path(index.tree, n)[index.tree[fork].height]
      ensures index.tree[fork].height == ForkHeight(index.tree, tip, n)
    {
      var e := chain.FindFork(index, n);
      ShareGenesis(index.tree, genesis, tip, n);
      assert chain.Contains(index.tree, genesis);
      fork := e.b;
      OnPathAt(index.tree, n, fork);
      ghost var r := ForkHeight(index.tree, tip, n);
      PathAt(index.tree, n, r);
      assert r > 0 ==> chain.Contains(index.tree, Path(index.tree, n)[r]);
    }

    /** Disconnects down to the fork with the path to n, or to the first block that is not undone cleanly. Only there
        can the tip have fallen out of the candidates. */
    method DisconnectToFork(t: Forest, start: int, n: int, ghost mark: int) returns (tip: int, ok: bool, height: nat)
      requires index.Valid() && t == index.tree && Rooted(t, genesis) && Stands(t, mark, start) && n in t
      modifies chain, coins
      ensures coins.Undone(old(coins.attempts), ok) && Stands(t, mark, tip)
      ensures Led(t, start, n, old(coins.attempts), coins.attempts, tip, ok)
      ensures ok ==> height <= t[n].height && tip == Path(t, n)[height]
      ensures !ok ==> (tip == start <==> !coins.undoes(old(coins.attempts)))
      ensures Good(t, chainTx, connects, tip) && (tip != start ==> tip !in candidates)
      ensures mark == start ==> (Complete(t, tip) <==> tip == start)
    {
      var fork := ForkWith(start, n);
      height := t[fork].height;
      tip, ok := DisconnectTo(t, start, height, mark);
      BelowIsNoCandidate(t, Now(), mark, start, tip);
      LedMeans(t, start, n, old(coins.attempts), coins.attempts, tip, ok, coins.undoes);
      if mark == start {
        FailedAbove(t, Now(), start, tip);
      }
    }

    /**
     * Makes some progress towards making n the tip, at most 32 blocks at a time. If a block is not undone cleanly,
     * the tip stays where that was noticed, on the path to the tip before. The candidates are then incomplete from the
     * tip on, unless that block was the tip itself.
     */
    method ActivateBestChainStep(t: Forest, start: int, n: int, ghost mark: int)
      returns (tip: int, ok: bool, invalid: bool, ghost later: int)
      requires index.Valid() && t == index.tree && Rooted(t, genesis) && Stands(t, mark, start)
      requires Usable(t, chainTx, failedValid, n)
      modifies this, chain, coins
      ensures coins.Undone(old(coins.attempts), ok)
      ensures Stands(t, later, tip)
      ensures nTx == old(nTx) && chainTx == old(chainTx) && seqId == old(seqId) && failedChild == old(failedChild)
      ensures candidates <= old(candidates) && !Less(t, seqId, later, mark)
      ensures if invalid then |t.Keys - failedValid| < |t.Keys - old(failedValid)| else failedValid == old(failedValid)
      ensures ok && !invalid ==> tip == n || WorkOf(t, tip) > WorkOf(t, start)
      ensures Led(t, start, n, old(coins.attempts), coins.attempts, tip, ok)
      ensures ok ==> Toward(t, Now(), old(candidates), candidates, mark, later, n, tip, invalid)
      ensures !ok ==> !invalid && later == mark && candidates == old(candidates) && tip in Path(t, start)
      ensures !ok ==> (tip == start <==> !coins.undoes(old(coins.attempts)))
      ensures !ok && tip != start ==> tip !in candidates && Good(t, chainTx, connects, tip)
      ensures !ok && mark == start ==> (Complete(t, tip) <==> tip == start)
    {
      var oldWork := WorkOf(t, start);
      invalid, later := false, mark;
      LessIsTotal(t, seqId, mark, mark, mark);
      var height;
      tip, ok, height := DisconnectToFork(t, start, n, mark);
      if !ok {
        return;
      }
      tip, invalid, later := ConnectTo(t, tip, n, height, oldWork, mark);
    }

    /** Connects blocks towards n, batch by batch, until the tip has more work than before. */
    method ConnectTo(t: Forest, start: int, n: int, from: nat, oldWork: int, ghost mark: int)
      returns (tip: int, invalid: bool, ghost later: int)
      requires index.Valid() && t == index.tree && Stands(t, mark, start)
      requires Usable(t, chainTx, failedValid, n) && from <= t[n].height && start == Path(t, n)[from]
      modifies this, chain
      ensures Stands(t, later, tip)
      ensures nTx == old(nTx) && chainTx == old(chainTx) && seqId == old(seqId) && failedChild == old(failedChild)
      ensures candidates <= old(candidates) && !Less(t, seqId, later, mark)
      ensures if invalid then |t.Keys - failedValid| < |t.Keys - old(failedValid)| else failedValid == old(failedValid)
      ensures !invalid ==> tip == n || WorkOf(t, tip) > oldWork
      ensures Toward(t, Now(), old(candidates), candidates, mark, later, n, tip, invalid)
    {
      var height := from;
      tip, invalid, later := start, false, mark;
      LessIsTotal(t, seqId, mark, mark, mark);
      var goOn := true;
      while goOn && height != t[n].height
        invariant height <= t[n].height
        invariant Stands(t, later, tip)
        invariant nTx == old(nTx) && chainTx == old(chainTx) && seqId == old(seqId) && failedChild == old(failedChild)
        invariant candidates <= old(candidates) && !Less(t, seqId, later, mark)
        invariant goOn ==> !invalid && tip == Path(t, n)[height]
        invariant !goOn && !invalid ==> WorkOf(t, tip) > oldWork
        invariant if invalid then |t.Keys - failedValid| < |t.Keys - old(failedValid)|
                  else failedValid == old(failedValid)
        invariant Toward(t, Now(), old(candidates), candidates, mark, later, n, tip, invalid)
        decreases t[n].height - height, goOn
      {
        ghost var mark1 := later;
        height, tip, goOn, invalid, later := ActivateBatch(t, tip, n, height, oldWork, later);
        NotBelowTwice(t, seqId, later, mark1, mark);
      }
    }

    /** One batch of at most 32 blocks. */
    method ActivateBatch(t: Forest, start: int, n: int, height: nat, oldWork: int, ghost mark: int)
      returns (target: nat, tip: int, goOn: bool, invalid: bool, ghost later: int)
      requires index.Valid() && t == index.tree && Stands(t, mark, start)
      requires Usable(t, chainTx, failedValid, n) && height < t[n].height && start == Path(t, n)[height]
      modifies this, chain
      ensures height < target <= t[n].height && target <= height + 32
      ensures Stands(t, later, tip)
      ensures nTx == old(nTx) && chainTx == old(chainTx) && seqId == old(seqId) && failedChild == old(failedChild)
      ensures candidates <= old(candidates) && !Less(t, seqId, later, mark)
      ensures goOn ==> !invalid && tip == Path(t, n)[target]
      ensures !goOn && !invalid ==> WorkOf(t, tip) > oldWork
      ensures if invalid then |t.Keys - failedValid| < |t.Keys - old(failedValid)| else failedValid == old(failedValid)
      ensures Toward(t, Now(), old(candidates), candidates, mark, later, n, tip, invalid)
    {
      target := if height + 32 < t[n].height then height + 32 else t[n].height;
      var list := ToConnect(n, height, target);
      tip, goOn, invalid, later := ConnectBatch(t, n, start, height, target, list, oldWork, mark);
    }

    /**
     * Makes the best chain active: the tip is the best of all blocks whose chain is complete and connects, whatever
     * order headers and data came in, and it does not sort below any tip before. It fails exactly if a block is not
     * undone cleanly. Then a better candidate is left, and the best block reached stays a candidate. If no candidate
     * sorts below the best block reached, the candidates are complete from the tip on exactly if the tip is that block.
     * If the best usable block is good, the outcome is known before: it fails exactly if one of the blocks above the
     * fork is not undone cleanly, and the tip stays what it was exactly if that is the first of them.
     */
    method ActivateBestChain() returns (ok: bool)
      requires Valid()
      modifies this, chain, coins
      ensures Valid() && coins.Undone(old(coins.attempts), ok)
      ensures !Less(index.tree, seqId, reached, old(reached))
      ensures ok ==> IsBest(index.tree, seqId, chainTx, connects, Tip()) && reached == Tip() && candidates == {Tip()}
      ensures !ok ==> reached in candidates && Beaten(index.tree, seqId, candidates, Tip())
      ensures old(NoneBelow(index.tree, seqId, candidates, reached)) ==>
                NoneBelow(index.tree, seqId, candidates, reached) && (Complete(index.tree, Tip()) <==> Tip() == reached)
      ensures Foreseen(index.tree, old(Now()), old(reached), reached, old(Tip()), Tip(), coins.undoes,
                       old(coins.attempts), coins.attempts, ok)
      ensures nTx == old(nTx) && chainTx == old(chainTx) && seqId == old(seqId)
    {
      var tip;
      tip, ok, reached := Advance(index.tree, Tip(), reached);
      TipOf(index.tree, tip);
    }

    lemma TipOf(t: Forest, tip: int)
      requires Wf(t) && tip in t && chain.vChain == Entries(Path(t, tip))
      ensures Tip() == tip
    {
      assert chain.vChain[t[tip].height] == Block(tip);
    }

    /** Steps towards the last candidate until the tip is the last candidate. */
    method Advance(t: Forest, start: int, ghost first: int) returns (tip: int, ok: bool, ghost mark: int)
      requires index.Valid() && t == index.tree && Rooted(t, genesis) && Stands(t, first, start)
      modifies this, chain, coins
      ensures Stands(t, mark, tip)
      ensures nTx == old(nTx) && chainTx == old(chainTx) && seqId == old(seqId) && !Less(t, seqId, mark, first)
      ensures coins.Undone(old(coins.attempts), ok)
      ensures ok ==> IsBest(t, seqId, chainTx, connects, tip) && mark == tip && candidates == {tip}
      ensures !ok ==> Beaten(t, seqId, candidates, tip)
      ensures mark in candidates
      ensures old(NoneBelow(t, seqId, candidates, first)) ==>
                NoneBelow(t, seqId, candidates, mark) && (Complete(t, tip) <==> tip == mark)
      ensures Foreseen(t, old(Now()), first, mark, start, tip, coins.undoes, old(coins.attempts), coins.attempts, ok)
    {
      ghost var s, a := Now(), coins.attempts;
      MarkIsCandidate(t, s, first, start);
      ghost var goal := start;
      if exists g :: Aimed(t, s, g) {
        goal :| Aimed(t, s, goal);
      }
      tip, ok, mark := Rounds(t, start, first, goal);
      RoundsForeseen(t, s, Now(), first, mark, goal, start, tip, coins.undoes, a, coins.attempts, ok);
      MarkIsCandidate(t, Now(), mark, tip);
      if NoneBelow(t, seqId, candidates, mark) {
        OfferedFromTheMark(t, Now(), mark, tip);
      }
      if ok {
        LastIsBest(t, Now(), tip);
      }
    }

    /** The loop. */
    method Rounds(t: Forest, start: int, ghost first: int, ghost goal: int)
      returns (tip: int, ok: bool, ghost mark: int)
      requires index.Valid() && t == index.tree && Rooted(t, genesis) && Stands(t, first, start)
      modifies this, chain, coins
      ensures Stands(t, mark, tip)
      ensures nTx == old(nTx) && chainTx == old(chainTx) && seqId == old(seqId) && !Less(t, seqId, mark, first)
      ensures coins.Undone(old(coins.attempts), ok)
      ensures ok ==> mark == tip && IsEnd(t, seqId, candidates, tip, true)
      ensures !ok ==> Beaten(t, seqId, candidates, tip)
      ensures Round(t, old(Now()), Now(), first, mark, goal, start, tip, old(coins.attempts), coins.attempts, ok)
    {
      var done := false;
      tip, ok, mark := start, true, first;
      LessIsTotal(t, seqId, first, first, first);
      ghost var begun := false;
      while !done && ok
        invariant Stands(t, mark, tip)
        invariant nTx == old(nTx) && chainTx == old(chainTx) && seqId == old(seqId) && !Less(t, seqId, mark, first)
        invariant coins.Undone(old(coins.attempts), ok)
        invariant done ==> ok && mark == tip && IsEnd(t, seqId, candidates, tip, true)
        invariant !ok ==> Beaten(t, seqId, candidates, tip)
        invariant if begun then
                    Round(t, old(Now()), Now(), first, mark, goal, start, tip, old(coins.attempts), coins.attempts, ok)
                  else
                    tip == start && mark == first && ok && !done && Now() == old(Now()) &&
                    coins.attempts == old(coins.attempts)
        decreases |t.Keys - failedValid|, ok, !done, |Heavier(t, tip)|
      {
        ghost var s1, mark1, tip1, a1 := Now(), mark, tip, coins.attempts;
        tip, done, ok, mark := Improve(t, tip, mark, goal);
        AttemptsTwice(coins.undoes, old(coins.attempts), a1, coins.attempts, ok);
        if begun {
          RoundTwice(t, old(Now()), s1, Now(), first, mark1, mark, goal, start, tip1, tip, old(coins.attempts), a1,
                     coins.attempts, ok);
        }
        begun := true;
        NotBelowTwice(t, seqId, mark, mark1, first);
      }
    }

    /** One round of the loop: finds the chain with most work and steps towards it. */
    method Improve(t: Forest, start: int, ghost mark: int, ghost goal: int)
      returns (tip: int, done: bool, ok: bool, ghost later: int)
      requires index.Valid() && t == index.tree && Rooted(t, genesis) && Stands(t, mark, start)
      modifies this, chain, coins
      ensures Stands(t, later, tip)
      ensures nTx == old(nTx) && chainTx == old(chainTx) && seqId == old(seqId) && !Less(t, seqId, later, mark)
      ensures done ==> ok && later == tip && IsEnd(t, seqId, candidates, tip, true)
      ensures !ok ==> Beaten(t, seqId, candidates, tip)
      ensures coins.Undone(old(coins.attempts), ok)
      ensures failedValid == old(failedValid) || |t.Keys - failedValid| < |t.Keys - old(failedValid)|
      ensures failedValid == old(failedValid) && ok && !done ==> |Heavier(t, tip)| < |Heavier(t, start)|
      ensures Round(t, old(Now()), Now(), mark, later, goal, start, tip, old(coins.attempts), coins.attempts, ok)
    {
      ghost var s, a := Now(), coins.attempts;
      var n := FindMostWorkChain(t, start, mark);
      if Aimed(t, s, goal) {
        AimIsLast(t, Now(), mark, start, goal, n);
      }
      if n == start {
        MarkIsTip(t, Now(), candidates, mark, start);
        LessIsTotal(t, seqId, mark, mark, mark);
        RoundAtTip(t, s, Now(), mark, goal, start, a);
        return start, true, true, mark;
      }
      ghost var s1 := Now();
      tip, done, ok, later := StepTowards(t, start, n, mark, goal);
      RoundBefore(t, s, s1, Now(), mark, later, goal, start, tip, a, coins.attempts, ok);
    }

    method StepTowards(t: Forest, start: int, n: int, ghost mark: int, ghost goal: int)
      returns (tip: int, done: bool, ok: bool, ghost later: int)
      requires index.Valid() && t == index.tree && Rooted(t, genesis) && Stands(t, mark, start)
      requires Usable(t, chainTx, failedValid, n) && IsEnd(t, seqId, candidates, n, true) && n != start
      modifies this, chain, coins
      ensures Stands(t, later, tip)
      ensures nTx == old(nTx) && chainTx == old(chainTx) && seqId == old(seqId) && !Less(t, seqId, later, mark)
      ensures done ==> ok && later == tip && IsEnd(t, seqId, candidates, tip, true)
      ensures !ok ==> Beaten(t, seqId, candidates, tip)
      ensures coins.Undone(old(coins.attempts), ok)
      ensures failedValid == old(failedValid) || |t.Keys - failedValid| < |t.Keys - old(failedValid)|
      ensures failedValid == old(failedValid) && ok && !done ==> |Heavier(t, tip)| < |Heavier(t, start)|
      ensures Round(t, old(Now()), Now(), mark, later, goal, start, tip, old(coins.attempts), coins.attempts, ok)
    {
      ghost var s, a := Now(), coins.attempts;
      var invalid;
      tip, ok, invalid, later := ActivateBestChainStep(t, start, n, mark);
      if Aimed(t, s, goal) {
        AimIsLast(t, s, mark, start, goal, n);
      }
      RoundOf(t, s, Now(), mark, later, goal, n, start, tip, a, coins.attempts, ok, invalid);
      done := ok && tip == n;
      if done {
        MarkIsTip(t, Now(), s.candidates, later, tip);
      } else if !ok {
        StillBeaten(t, Now(), mark, start, tip, n);
      } else if !invalid {
        HeavierShrinks(t, start, tip);
      }
    }

    /** What the consistency check of the block index asserts of every block. */
    lemma CheckBlockIndex(b: int)
      requires Valid() && b in index.tree
      ensures var t := index.tree;
              var complete := Along(t, b, Positive(nTx));
              var untainted := Along(t, b, NotIn(failedValid));
              && (t[b].height == 0 ==> b == genesis && chain.At(0) == Block(b))
              && (t[b].height > 0 ==> t[b].prev in t && t[b].work >= t[t[b].prev].work)
              && (t[b].height >= 2 ==> b in index.skip && index.skip[b] in t && t[index.skip[b]].height < t[b].height)
              && (Num(chainTx, b) == 0 <==> !complete)
              && (Num(chainTx, b) == 0 ==> Num(seqId, b) == 0)
              && (untainted ==> !Failed(b))
              && (!Less(t, seqId, b, reached) && complete && untainted ==> b in candidates)
              && (b in candidates ==> !Less(t, seqId, b, Tip()) && complete)
              && (t[b].height > 0 && Num(nTx, b) > 0 && !complete && untainted ==> b in Kids(unlinked, t[b].prev))
              && (forall p :: b in Kids(unlinked, p) ==>
                  t[b].height > 0 && t[b].prev == p && Num(nTx, b) > 0 && !complete)
    {
      var t := index.tree;
      assert ParentOk(t, b) && SeqInRange(chainTx, seqId, nextId, b);
      ChainTxMeans(t, nTx, chainTx, b);
      GenesisShared(t, genesis, Tip(), b);
      if t[b].height >= 2 {
        assert index.SkipOk(b);
        PathAt(t, b, GetSkipHeight(t[b].height));
      }
      assert b in candidates ==> CandidateOk(t, seqId, chainTx, Tip(), b);
      if Num(nTx, b) > 0 && Num(chainTx, b) == 0 {
        assert Stranded(t, nTx, chainTx, [], b) && Filed(t, failedValid + failedChild, unlinked, b);
      }
      forall p | b in Kids(unlinked, p)
        ensures t[b].height > 0 && t[b].prev == p && Num(nTx, b) > 0 && Num(chainTx, b) == 0
      {
        assert KidsOk(t, nTx, chainTx, [], p, Kids(unlinked, p)) && KidOk(t, nTx, chainTx, [], p, b);
      }
      if Along(t, b, NotIn(failedValid)) && t[b].height > 0 {
        assert Along(t, t[b].prev, NotIn(failedValid)) && t[b].prev !in failedValid && t[b].prev !in failedChild;
      }
    }
  }
}
