/** The invariants of the block index and the lemmas that each of its steps keeps them (src/main.cpp). */
module ChainSteps {
  import opened Tree
  import opened Sets
  import opened BlockRank
  import opened BlockArrival
  import opened BestChain

  /** The blocks with data that still have to be linked. */
  ghost function ToLink(t: Forest, nTx: map<int, nat>, chainTx: map<int, nat>): set<int> {
    set b | b in t && Num(nTx, b) > 0 && Num(chainTx, b) == 0
  }

  lemma ToLinkShrinks(t: Forest, nTx: map<int, nat>, chainTx: map<int, nat>, b: int, n: nat)
    requires b in ToLink(t, nTx, chainTx) && n > 0
    ensures |ToLink(t, nTx, chainTx[b := n])| < |ToLink(t, nTx, chainTx)|
  {
    assert ToLink(t, nTx, chainTx[b := n]) == ToLink(t, nTx, chainTx) - {b};
  }

  ghost predicate Rooted(t: Forest, genesis: int) {
    genesis in t && forall b :: b in t && t[b].height == 0 ==> b == genesis
  }

  /** What is kept per block beside the tree: data, links, marks and candidates. */
  datatype Records = Records(nTx: map<int, nat>, chainTx: map<int, nat>, seqId: map<int, nat>, nextId: nat,
                             failedValid: set<int>, failedChild: set<int>, candidates: set<int>,
                             unlinked: map<int, seq<int>>, connects: int -> bool) {

    /** All that holds of the data received so far, while the blocks in the queue wait to be linked. */
    ghost predicate ArrivalOk(t: Forest, queue: seq<int>) {
      && Wf(t)
      && Known(t, nTx, chainTx, unlinked)
      && Linkage(t, nTx, chainTx, queue)
      && Deferred(t, nTx, chainTx, failedValid + failedChild, unlinked, queue)
      && FailedEmpty(nTx, chainTx, failedValid + failedChild)
      && SeqOk(chainTx, seqId, nextId)
    }

    /** The ranks of the candidates against the tip and the mark, a good block that does not sort below the tip. */
    ghost predicate RankOk(t: Forest, mark: int, tip: int) {
      && Wf(t)
      && FailOk(t, connects, failedValid, failedChild)
      && CandidatesOk(t, seqId, chainTx, failedValid, candidates, mark, tip)
      && Good(t, chainTx, connects, mark)
      && Good(t, chainTx, connects, tip)
      && !Less(t, seqId, mark, tip)
    }

    /** b is linked, with the next sequence number, and offered as a candidate. */
    function WithLink(t: Forest, tip: int, b: int): Records
      requires b in t
    {
      var seqId' := seqId[b := nextId];
      this.(chainTx := Linked(chainTx, nTx, t, b), seqId := seqId', nextId := nextId + 1,
            candidates := Offered(t, seqId', candidates, tip, b), unlinked := unlinked - {b})
    }

    /** The data of b is there; b is filed under its parent if that is not linked and has not failed. */
    function WithData(t: Forest, b: int, n: nat): Records
      requires b in t
    {
      this.(nTx := nTx[b := n], chainTx := chainTx[b := 0],
            unlinked := if ParentLinked(t, chainTx, b) || t[b].prev in failedValid + failedChild then unlinked
                        else FileUnder(unlinked, t[b].prev, b))
    }

    /** b is marked as failed and is no candidate. */
    function WithFailed(b: int): Records {
      this.(failedValid := failedValid + {b}, candidates := candidates - {b})
    }

    /** The blocks above height i on the path to n are marked, and none from height i on is a candidate. */
    ghost function WithRemoved(t: Forest, n: int, i: nat): Records
      requires Wf(t) && n in t
    {
      this.(failedChild := failedChild + Upper(t, n, i + 1), candidates := candidates - Upper(t, n, i))
    }
  }

  lemma DeferredMonotone(t: Forest, nTx: map<int, nat>, chainTx: map<int, nat>, failed: set<int>, more: set<int>,
                         unlinked: map<int, seq<int>>)
    requires Deferred(t, nTx, chainTx, failed, unlinked, []) && failed <= more
    ensures Deferred(t, nTx, chainTx, more, unlinked, [])
  {
    forall b | Stranded(t, nTx, chainTx, [], b)
      ensures Filed(t, more, unlinked, b)
    {
      assert Filed(t, failed, unlinked, b);
    }
  }

  lemma LinkKeepsSeq(chainTx: map<int, nat>, seqId: map<int, nat>, nextId: nat, b: int, n: nat)
    requires SeqOk(chainTx, seqId, nextId) && n > 0
    ensures SeqOk(chainTx[b := n], seqId[b := nextId], nextId + 1)
  {
    var chainTx', seqId', nextId' := chainTx[b := n], seqId[b := nextId], nextId + 1;
    forall c
      ensures SeqInRange(chainTx', seqId', nextId', c)
    {
      assert SeqInRange(chainTx, seqId, nextId, c);
    }
    forall a, c
      ensures SeqApart(seqId', a, c)
    {
      assert SeqApart(seqId, a, c);
      assert SeqInRange(chainTx, seqId, nextId, a) && SeqInRange(chainTx, seqId, nextId, c);
    }
  }

  /** A block index with nothing but the genesis block. */
  lemma GenesisOk(genesis: int, proof: int, txs: nat, connects: int -> bool)
    requires txs > 0 && connects(genesis)
    ensures var t, s := map[genesis := Node(genesis, 0, proof)],
                        Records(map[genesis := txs], map[genesis := txs], map[genesis := 1], 2, {}, {}, {genesis},
                                map[], connects);
            s.ArrivalOk(t, []) && s.RankOk(t, genesis, genesis)
  {
  }

  /** Linking the first block of the queue, and queueing what waited for it. */
  lemma LinkKeepsArrival(t: Forest, s: Records, tip: int, queue: seq<int>)
    requires s.ArrivalOk(t, queue) && queue != [] && queue[0] in t
    ensures s.WithLink(t, tip, queue[0]).ArrivalOk(t, queue[1..] + Kids(s.unlinked, queue[0]))
  {
    var b := queue[0];
    assert ReadyOk(t, s.nTx, s.chainTx, b);
    LinkKeepsLinkage(t, s.nTx, s.chainTx, s.failedValid + s.failedChild, s.unlinked, queue);
    LinkKeepsDeferred(t, s.nTx, s.chainTx, s.failedValid + s.failedChild, s.unlinked, queue);
    LinkKeepsSeq(s.chainTx, s.seqId, s.nextId, b, Before(t, s.chainTx, b) + Num(s.nTx, b));
  }

  lemma LinkKeepsRank(t: Forest, s: Records, mark: int, tip: int, b: int)
    requires s.RankOk(t, mark, tip) && b in t && Num(s.chainTx, b) == 0 && Num(s.nTx, b) > 0
    ensures s.WithLink(t, tip, b).RankOk(t, mark, tip)
  {
    LinkKeepsCandidates(t, s.seqId, s.chainTx, s.failedValid, s.candidates, mark, tip, b,
                        Before(t, s.chainTx, b) + Num(s.nTx, b), s.nextId);
  }

  /** Marking the data of b as received: b is ready for the queue, or filed under its parent. */
  lemma ReceiveKeepsArrival(t: Forest, s: Records, b: int, n: nat)
    requires s.ArrivalOk(t, []) && b in t && Num(s.nTx, b) == 0 && b !in s.failedValid + s.failedChild && n > 0
    ensures Num(s.chainTx, b) == 0
    ensures s.WithData(t, b, n).ArrivalOk(t, if ParentLinked(t, s.chainTx, b) then [b] else [])
  {
    assert LinkOk(t, s.nTx, s.chainTx, b) && ParentOk(t, b);
    if ParentLinked(t, s.chainTx, b) {
      ReceiveReady(t, s.nTx, s.chainTx, s.failedValid + s.failedChild, s.unlinked, b, n);
    } else {
      ReceiveStranded(t, s.nTx, s.chainTx, s.failedValid + s.failedChild, s.unlinked, b, n);
    }
    ZeroKeepsSeq(s.chainTx, s.seqId, s.nextId, b);
  }

  lemma ZeroKeepsSeq(chainTx: map<int, nat>, seqId: map<int, nat>, nextId: nat, b: int)
    requires SeqOk(chainTx, seqId, nextId) && Num(chainTx, b) == 0
    ensures SeqOk(chainTx[b := 0], seqId, nextId)
  {
    var chainTx' := chainTx[b := 0];
    forall c
      ensures SeqInRange(chainTx', seqId, nextId, c)
    {
      assert SeqInRange(chainTx, seqId, nextId, c);
    }
  }

  lemma ReceiveKeepsRank(t: Forest, s: Records, mark: int, tip: int, b: int, n: nat)
    requires s.RankOk(t, mark, tip) && b in t && Num(s.chainTx, b) == 0
    ensures s.WithData(t, b, n).RankOk(t, mark, tip)
  {
    var chainTx := s.chainTx[b := 0];
    forall c | c in s.candidates
      ensures CandidateOk(t, s.seqId, chainTx, tip, c)
    {
      assert CandidateOk(t, s.seqId, s.chainTx, tip, c);
    }
    forall c | Usable(t, chainTx, s.failedValid, c) && !Less(t, s.seqId, c, mark)
      ensures c in s.candidates
    {
      assert Usable(t, s.chainTx, s.failedValid, c);
    }
  }

  /** A new header has no data yet. */
  lemma HeaderKeepsArrival(t: Forest, s: Records, n: int, node: Node)
    requires s.ArrivalOk(t, []) && n !in t && Wf(t[n := node])
    ensures s.ArrivalOk(t[n := node], [])
  {
    var t' := t[n := node];
    forall b | b in t'
      ensures LinkOk(t', s.nTx, s.chainTx, b)
    {
      assert b != n ==> LinkOk(t, s.nTx, s.chainTx, b);
    }
    forall p
      ensures KidsOk(t', s.nTx, s.chainTx, [], p, Kids(s.unlinked, p))
    {
      assert KidsOk(t, s.nTx, s.chainTx, [], p, Kids(s.unlinked, p));
      forall b | b in Kids(s.unlinked, p)
        ensures KidOk(t', s.nTx, s.chainTx, [], p, b)
      {
        assert KidOk(t, s.nTx, s.chainTx, [], p, b);
      }
    }
    forall b | Stranded(t', s.nTx, s.chainTx, [], b)
      ensures Filed(t', s.failedValid + s.failedChild, s.unlinked, b)
    {
      assert Stranded(t, s.nTx, s.chainTx, [], b);
    }
  }

  lemma HeaderKeepsRank(t: Forest, s: Records, mark: int, tip: int, n: int, node: Node)
    requires s.RankOk(t, mark, tip) && n !in t && Wf(t[n := node]) && Num(s.chainTx, n) == 0
    ensures s.RankOk(t[n := node], mark, tip)
  {
    HeaderKeepsCandidates(t, s.seqId, s.chainTx, s.failedValid, s.candidates, mark, tip, n, node);
    AlongGrows(t, mark, n, node, s.connects);
    AlongGrows(t, tip, n, node, s.connects);
    forall b | b in s.failedChild
      ensures b in t && !Along(t[n := node], b, NotIn(s.failedValid))
    {
      AlongGrows(t, b, n, node, NotIn(s.failedValid));
    }
  }

  /** All that a new header below a known parent leaves as it is. */
  lemma HeaderKeeps(t: Forest, s: Records, genesis: int, mark: int, tip: int, n: int, prev: int, proof: int)
    requires s.ArrivalOk(t, []) && s.RankOk(t, mark, tip) && Rooted(t, genesis)
    requires n !in t && prev in t && proof > 0
    ensures var t' := t[n := Child(t, prev, proof)];
            s.ArrivalOk(t', []) && s.RankOk(t', mark, tip) && Rooted(t', genesis) && Path(t', tip) == Path(t, tip)
  {
    var node := Child(t, prev, proof);
    WfGrows(t, n, node);
    HeaderKeepsArrival(t, s, n, node);
    HeaderKeepsRank(t, s, mark, tip, n, node);
    PathGrows(t, tip, n, node);
  }

  /** More blocks are marked as failed, which have no data or are linked. */
  lemma RejectKeepsArrival(t: Forest, s: Records, s': Records)
    requires s.ArrivalOk(t, []) && s.failedValid <= s'.failedValid && s.failedChild <= s'.failedChild
    requires s' == s.(failedValid := s'.failedValid, failedChild := s'.failedChild, candidates := s'.candidates)
    requires forall b :: b in s'.failedValid + s'.failedChild && b !in s.failedValid + s.failedChild ==>
               Num(s.chainTx, b) > 0 || Num(s.nTx, b) == 0
    ensures s'.ArrivalOk(t, [])
  {
    DeferredMonotone(t, s.nTx, s.chainTx, s.failedValid + s.failedChild, s'.failedValid + s'.failedChild, s.unlinked);
  }

  /** The block at height i on the path to a usable block can be connected on the one below it. */
  lemma NextToConnect(t: Forest, nTx: map<int, nat>, chainTx: map<int, nat>, failedValid: set<int>, n: int, i: nat)
    requires Wf(t) && Linkage(t, nTx, chainTx, []) && Usable(t, chainTx, failedValid, n) && 0 < i <= t[n].height
    ensures var p := Path(t, n)[i];
            p in t && t[p].height == i && t[p].prev == Path(t, n)[i - 1] && Num(chainTx, p) > 0 && p !in failedValid
  {
    PathStep(t, n, i);
    LinkedBelow(t, nTx, chainTx, n, i);
    AlongUp(t, n, i, NotIn(failedValid));
  }

  /** Two paths in one tree share the genesis block. */
  lemma ShareGenesis(t: Forest, genesis: int, a: int, b: int)
    requires Wf(t) && Rooted(t, genesis) && a in t && b in t
    ensures Path(t, a)[0] == genesis && genesis in Path(t, b) && t[genesis].height == 0
  {
    PathAt(t, a, 0);
    PathAt(t, b, 0);
    assert Path(t, b)[0] == genesis;
  }

  lemma OnPathAt(t: Forest, n: int, a: int)
    requires Wf(t) && n in t && a in Path(t, n)
    ensures a in t && t[a].height <= t[n].height && Path(t, n)[t[a].height] == a
  {
    var i :| 0 <= i < |Path(t, n)| && Path(t, n)[i] == a;
    PathAt(t, n, i);
  }

  /** Once the last candidate is the tip, it is the mark as well. */
  lemma MarkIsTip(t: Forest, s: Records, before: set<int>, mark: int, tip: int)
    requires s.RankOk(t, mark, tip) && s.candidates <= before && IsEnd(t, s.seqId, before, tip, true)
    ensures mark == tip && IsEnd(t, s.seqId, s.candidates, tip, true)
  {
    MarkIsCandidate(t, s, mark, tip);
    LessIsTotal(t, s.seqId, mark, tip, mark);
  }

  lemma MarkIsCandidate(t: Forest, s: Records, mark: int, tip: int)
    requires s.RankOk(t, mark, tip)
    ensures mark in s.candidates
  {
    GoodIsUsable(t, s.chainTx, s.connects, s.failedValid, s.failedChild, mark);
    LessIsTotal(t, s.seqId, mark, mark, mark);
  }

  lemma NotBelowTwice(t: Forest, seqId: map<int, nat>, a: int, b: int, c: int)
    requires !Less(t, seqId, a, b) && !Less(t, seqId, b, c)
    ensures !Less(t, seqId, a, c)
  {
    LessIsTotal(t, seqId, a, c, b);
    LessIsTotal(t, seqId, c, b, a);
    LessIsTotal(t, seqId, a, b, c);
  }

  ghost predicate Beaten(t: Forest, seqId: map<int, nat>, candidates: set<int>, tip: int) {
    exists c :: c in candidates && Less(t, seqId, tip, c)
  }

  /** A last candidate other than the tip is better than the tip and all blocks below it. */
  lemma StillBeaten(t: Forest, s: Records, mark: int, start: int, tip: int, n: int)
    requires s.RankOk(t, mark, start) && Linkage(t, s.nTx, s.chainTx, [])
    requires IsEnd(t, s.seqId, s.candidates, n, true) && n != start && tip in Path(t, start)
    ensures Beaten(t, s.seqId, s.candidates, tip)
  {
    MarkIsCandidate(t, s, mark, start);
    NotBelowTwice(t, s.seqId, n, mark, start);
    LessIsTotal(t, s.seqId, start, n, start);
    OnPathAt(t, start, tip);
    if tip != start {
      GoodBelow(t, s.nTx, s.seqId, s.chainTx, s.connects, start, t[tip].height);
      LessIsTotal(t, s.seqId, tip, start, n);
    }
    assert Less(t, s.seqId, tip, n);
  }

  /** The blocks with more work than the tip. */
  ghost function Heavier(t: Forest, tip: int): set<int> {
    set b | b in t && t[b].work > WorkOf(t, tip)
  }

  lemma HeavierShrinks(t: Forest, tip: int, next: int)
    requires WorkOf(t, next) > WorkOf(t, tip) && next in t
    ensures |Heavier(t, next)| < |Heavier(t, tip)|
  {
    SmallerSet(Heavier(t, next), Heavier(t, tip), next);
  }

  /** The best of all blocks whose chain is complete and connects. */
  ghost predicate IsBest(t: Forest, seqId: map<int, nat>, chainTx: map<int, nat>, connects: int -> bool, tip: int) {
    && Wf(t)
    && Good(t, chainTx, connects, tip)
    && forall b :: Good(t, chainTx, connects, b) ==> !Less(t, seqId, tip, b)
  }

  lemma LastIsBest(t: Forest, s: Records, tip: int)
    requires s.RankOk(t, tip, tip) && IsEnd(t, s.seqId, s.candidates, tip, true)
    ensures IsBest(t, s.seqId, s.chainTx, s.connects, tip) && s.candidates == {tip}
  {
    forall b
      ensures Good(t, s.chainTx, s.connects, b) ==> !Less(t, s.seqId, tip, b)
    {
      TipIsBest(t, s.seqId, s.chainTx, s.connects, s.failedValid, s.failedChild, s.candidates, tip, b);
    }
    TipIsBest(t, s.seqId, s.chainTx, s.connects, s.failedValid, s.failedChild, s.candidates, tip, tip);
  }

  lemma FirstIsAbove(t: Forest, seqId: map<int, nat>, candidates: set<int>, first: int, tip: int)
    requires IsEnd(t, seqId, candidates, first, false) && !Less(t, seqId, first, tip)
    ensures forall c :: c in candidates ==> !Less(t, seqId, c, tip)
  {
    forall c | c in candidates
      ensures !Less(t, seqId, c, tip)
    {
      LessIsTotal(t, seqId, c, tip, first);
      LessIsTotal(t, seqId, first, c, tip);
    }
  }

  /** What RemoveChain does keeps the invariants. */
  lemma RemoveKeeps(t: Forest, s: Records, mark: int, tip: int, n: int, i: nat)
    requires s.ArrivalOk(t, []) && s.RankOk(t, mark, tip)
    requires n in t && Num(s.chainTx, n) > 0 && i <= t[n].height
    requires Path(t, n)[i] in s.failedValid || Path(t, n)[i] in s.failedChild
    ensures s.WithRemoved(t, n, i).ArrivalOk(t, []) && s.WithRemoved(t, n, i).RankOk(t, mark, tip)
  {
    var s' := s.WithRemoved(t, n, i);
    forall k | i <= k <= t[n].height
      ensures var b := Path(t, n)[k]; b in t && Num(s.chainTx, b) > 0 && !Along(t, b, NotIn(s.failedValid))
    {
      FailedTaints(t, s.connects, s.failedValid, s.failedChild, n, i, k);
      LinkedBelow(t, s.nTx, s.chainTx, n, k);
    }
    RejectKeepsArrival(t, s, s');
    EraseKeepsCandidates(t, s.seqId, s.chainTx, s.failedValid, s.candidates, s'.candidates, mark, tip);
  }

  /** A block that does not connect is marked and taken out of the candidates. */
  lemma InvalidKeeps(t: Forest, s: Records, mark: int, tip: int, p: int)
    requires s.ArrivalOk(t, []) && s.RankOk(t, mark, tip)
    requires p in t && (Num(s.chainTx, p) > 0 || Num(s.nTx, p) == 0) && !s.connects(p)
    ensures s.WithFailed(p).ArrivalOk(t, []) && s.WithFailed(p).RankOk(t, mark, tip)
  {
    RejectKeepsArrival(t, s, s.WithFailed(p));
    FailKeepsCandidates(t, s.seqId, s.chainTx, s.failedValid, s.candidates, mark, tip, p);
    FailKeepsFailOk(t, s.connects, s.failedValid, s.failedChild, p);
  }

  /** A block that connects on top of the tip becomes the tip. */
  lemma ConnectedKeeps(t: Forest, s: Records, mark: int, tip: int, p: int)
    requires s.ArrivalOk(t, []) && s.RankOk(t, mark, tip)
    requires p in t && t[p].height > 0 && t[p].prev == tip && Num(s.chainTx, p) > 0 && s.connects(p)
    ensures var s' := s.(candidates := Pruned(t, s.seqId, s.candidates, p));
            s'.ArrivalOk(t, []) && s'.RankOk(t, LaterOf(t, s.seqId, mark, p), p) && s'.candidates != {}
  {
    assert Good(t, s.chainTx, s.connects, p);
    GoodIsUsable(t, s.chainTx, s.connects, s.failedValid, s.failedChild, p);
    GoodIsUsable(t, s.chainTx, s.connects, s.failedValid, s.failedChild, mark);
    PruneKeepsCandidates(t, s.seqId, s.chainTx, s.failedValid, s.candidates, mark, tip, p);
  }

  /** Stepping back from the tip to its parent. */
  lemma DisconnectedKeeps(t: Forest, s: Records, mark: int, tip: int)
    requires Linkage(t, s.nTx, s.chainTx, []) && s.RankOk(t, mark, tip) && t[tip].height > 0
    ensures s.RankOk(t, mark, t[tip].prev)
  {
    var i := t[tip].height - 1;
    PathStep(t, tip, i + 1);
    GoodBelow(t, s.nTx, s.seqId, s.chainTx, s.connects, tip, i);
    var prev := Path(t, tip)[i];
    LessIsTotal(t, s.seqId, mark, prev, tip);
    forall c | c in s.candidates
      ensures CandidateOk(t, s.seqId, s.chainTx, prev, c)
    {
      assert CandidateOk(t, s.seqId, s.chainTx, tip, c);
      LessIsTotal(t, s.seqId, c, prev, tip);
    }
  }

  /** A block below the tip is no candidate, although its chain is complete and connects. */
  lemma BelowIsNoCandidate(t: Forest, s: Records, mark: int, start: int, tip: int)
    requires s.ArrivalOk(t, []) && s.RankOk(t, mark, start) && tip in Path(t, start)
    ensures tip != start ==> tip !in s.candidates
    ensures Good(t, s.chainTx, s.connects, tip)
  {
    OnPathAt(t, start, tip);
    if t[tip].height < t[start].height {
      GoodBelow(t, s.nTx, s.seqId, s.chainTx, s.connects, start, t[tip].height);
      assert tip in s.candidates ==> CandidateOk(t, s.seqId, s.chainTx, start, tip);
      LessIsTotal(t, s.seqId, tip, start, tip);
    }
  }

  /** No candidate sorts below the mark. */
  ghost predicate NoneBelow(t: Forest, seqId: map<int, nat>, candidates: set<int>, mark: int) {
    forall c :: c in candidates ==> !Less(t, seqId, c, mark)
  }

  /** With no candidate below the mark, the candidates are complete from the tip on exactly if the tip is the mark. */
  lemma OfferedFromTheMark(t: Forest, s: Records, mark: int, tip: int)
    requires s.RankOk(t, mark, tip) && NoneBelow(t, s.seqId, s.candidates, mark)
    ensures AllOffered(t, s.seqId, s.chainTx, s.failedValid, s.candidates, tip) <==> tip == mark
  {
    GoodIsUsable(t, s.chainTx, s.connects, s.failedValid, s.failedChild, tip);
    LessIsTotal(t, s.seqId, tip, tip, tip);
    LessIsTotal(t, s.seqId, tip, mark, tip);
  }

  /** The best block of all that are not known to break the rules does connect. */
  ghost predicate Aimed(t: Forest, s: Records, goal: int) {
    && Wf(t) && Good(t, s.chainTx, s.connects, goal)
    && forall b :: Usable(t, s.chainTx, s.failedValid, b) ==> !Less(t, s.seqId, goal, b)
  }

  /** Then it is the last usable candidate. */
  lemma AimIsLast(t: Forest, s: Records, mark: int, tip: int, goal: int, n: int)
    requires s.RankOk(t, mark, tip) && Aimed(t, s, goal)
    requires Usable(t, s.chainTx, s.failedValid, n) && IsEnd(t, s.seqId, s.candidates, n, true)
    ensures n == goal
  {
    GoodIsUsable(t, s.chainTx, s.connects, s.failedValid, s.failedChild, goal);
    GoodIsUsable(t, s.chainTx, s.connects, s.failedValid, s.failedChild, mark);
    assert goal in s.candidates;
    LessIsTotal(t, s.seqId, n, goal, n);
  }

  lemma OneAim(t: Forest, s: Records, a: int, b: int)
    requires Wf(t) && FailOk(t, s.connects, s.failedValid, s.failedChild) && Aimed(t, s, a) && Aimed(t, s, b)
    ensures a == b
  {
    GoodIsUsable(t, s.chainTx, s.connects, s.failedValid, s.failedChild, a);
    GoodIsUsable(t, s.chainTx, s.connects, s.failedValid, s.failedChild, b);
    LessIsTotal(t, s.seqId, a, b, a);
  }

  /** How blocks are connected on the path to n: the tip stays on that path, and none fails on the path to a good
      block. */
  ghost predicate Toward(t: Forest, s: Records, before: set<int>, after: set<int>, mark: int, later: int, n: int,
                         tip: int, invalid: bool) {
    && Wf(t) && n in t && tip in Path(t, n)
    && (NoneBelow(t, s.seqId, before, mark) ==> NoneBelow(t, s.seqId, after, later))
    && (Good(t, s.chainTx, s.connects, n) ==> !invalid)
  }

  /** Connecting or refusing p, the next block on the path to n. */
  lemma NextIsToward(t: Forest, s: Records, mark: int, n: int, h: nat, start: int, p: int)
    requires Wf(t) && n in t && 0 < h <= t[n].height && start == Path(t, n)[h - 1] && p == Path(t, n)[h]
    ensures s.connects(p) ==>
              Toward(t, s, s.candidates, Pruned(t, s.seqId, s.candidates, p), mark, LaterOf(t, s.seqId, mark, p), n, p,
                     false)
    ensures !s.connects(p) ==> Toward(t, s, s.candidates, s.candidates - {p}, mark, mark, n, start, true)
  {
    if Good(t, s.chainTx, s.connects, n) {
      AlongUp(t, n, h, s.connects);
    }
  }

  /** Every attempt from a0 up to a1 was clean, except the last if ok is false. */
  ghost predicate Attempts(undoes: nat -> bool, a0: nat, a1: nat, ok: bool) {
    && a0 <= a1
    && (!ok ==> a0 < a1 && !undoes(a1 - 1))
    && forall k :: a0 <= k < (if ok then a1 else a1 - 1) ==> undoes(k)
  }

  lemma AttemptsTwice(undoes: nat -> bool, a0: nat, a1: nat, a2: nat, ok: bool)
    requires Attempts(undoes, a0, a1, true) && Attempts(undoes, a1, a2, ok)
    ensures Attempts(undoes, a0, a2, ok)
  {
  }

  /** The number of blocks to disconnect before goal can be reached from start. */
  ghost function ToUndo(t: Forest, start: int, goal: int): nat
    requires Wf(t) && start in t && goal in t
  {
    t[start].height - ForkHeight(t, start, goal)
  }

  /**
   * What stepping from start towards goal takes: one clean undo for each block from start down to the fork, or fewer
   * and one that is not clean. Then the tip is as far below start as there were clean ones.
   */
  ghost predicate Led(t: Forest, start: int, goal: int, a0: nat, a1: nat, tip: int, ok: bool) {
    && Wf(t) && start in t && goal in t && tip in t
    && (ok ==> a1 == a0 + ToUndo(t, start, goal) && tip in Path(t, goal))
    && (!ok ==> a0 < a1 <= a0 + ToUndo(t, start, goal))
    && (!ok ==> tip in Path(t, start) && t[tip].height + (a1 - 1 - a0) == t[start].height)
  }

  /** Once on the path to the goal, nothing is undone any more. */
  lemma LedOn(t: Forest, start: int, goal: int, a0: nat, a1: nat, tip1: int, a2: nat, tip2: int, ok: bool)
    requires Led(t, start, goal, a0, a1, tip1, true) && Led(t, tip1, goal, a1, a2, tip2, ok)
    ensures ok && Led(t, start, goal, a0, a2, tip2, ok)
  {
    ForkOnPath(t, tip1, goal);
  }

  /** The attempts to undo a block from the first of d on are all clean. */
  ghost predicate AllClean(undoes: nat -> bool, first: nat, d: nat) {
    forall k :: first <= k < first + d ==> undoes(k)
  }

  /** It succeeds exactly if all blocks above the fork are undone cleanly; if not, the tip stays exactly if the first
      is not. */
  lemma LedMeans(t: Forest, start: int, goal: int, a0: nat, a1: nat, tip: int, ok: bool, undoes: nat -> bool)
    requires Led(t, start, goal, a0, a1, tip, ok)
    requires Attempts(undoes, a0, a1, ok)
    ensures ok <==> AllClean(undoes, a0, ToUndo(t, start, goal))
    ensures !ok ==> (tip == start <==> !undoes(a0))
  {
    if !ok {
      OnPathAt(t, start, tip);
      assert a1 - 1 > a0 ==> undoes(a0);
    }
  }

  /**
   * One or more rounds of the loop: no candidate gets below the mark; and if the best usable block is good, it is
   * led to as if there were nothing else, and a failure leaves the mark as it was.
   */
  ghost predicate Round(t: Forest, s: Records, s': Records, mark: int, later: int, goal: int, start: int, tip: int,
                        a0: nat, a1: nat, ok: bool) {
    && (NoneBelow(t, s.seqId, s.candidates, mark) ==> NoneBelow(t, s'.seqId, s'.candidates, later))
    && (Aimed(t, s, goal) ==>
          && Led(t, start, goal, a0, a1, tip, ok)
          && if ok then Aimed(t, s', goal) else later == mark)
  }

  lemma RoundTwice(t: Forest, s: Records, s1: Records, s2: Records, mark: int, mark1: int, mark2: int, goal: int,
                   start: int, tip1: int, tip2: int, a0: nat, a1: nat, a2: nat, ok: bool)
    requires Round(t, s, s1, mark, mark1, goal, start, tip1, a0, a1, true)
    requires Round(t, s1, s2, mark1, mark2, goal, tip1, tip2, a1, a2, ok)
    ensures Round(t, s, s2, mark, mark2, goal, start, tip2, a0, a2, ok)
  {
    if Aimed(t, s, goal) {
      LedOn(t, start, goal, a0, a1, tip1, a2, tip2, ok);
    }
  }

  /** A round that found the tip to be the last candidate. */
  lemma RoundAtTip(t: Forest, s: Records, s': Records, mark: int, goal: int, tip: int, a: nat)
    requires Wf(t) && tip in t && SameBlocks(s, s') && s.failedValid == s'.failedValid
    requires s'.candidates <= s.candidates && (Aimed(t, s, goal) ==> tip == goal)
    ensures Round(t, s, s', mark, mark, goal, tip, tip, a, a, true)
  {
    ForkOnPath(t, tip, tip);
  }

  ghost predicate SameBlocks(s: Records, s': Records) {
    s.seqId == s'.seqId && s.chainTx == s'.chainTx && s.connects == s'.connects
  }

  /** Before a round, candidates above failed blocks are removed. */
  lemma RoundBefore(t: Forest, s: Records, s1: Records, s': Records, mark: int, later: int, goal: int, start: int,
                    tip: int, a0: nat, a1: nat, ok: bool)
    requires SameBlocks(s, s1) && s1.failedValid == s.failedValid && s1.candidates <= s.candidates
    requires Round(t, s1, s', mark, later, goal, start, tip, a0, a1, ok)
    ensures Round(t, s, s', mark, later, goal, start, tip, a0, a1, ok)
  {
  }

  /** A round that stepped towards n. */
  lemma RoundOf(t: Forest, s: Records, s': Records, mark: int, later: int, goal: int, n: int, start: int, tip: int,
                a0: nat, a1: nat, ok: bool, invalid: bool)
    requires SameBlocks(s, s') && s'.candidates <= s.candidates && (!invalid ==> s'.failedValid == s.failedValid)
    requires Led(t, start, n, a0, a1, tip, ok) && (Aimed(t, s, goal) ==> n == goal)
    requires if ok then Toward(t, s', s.candidates, s'.candidates, mark, later, n, tip, invalid) else later == mark
    ensures Round(t, s, s', mark, later, goal, start, tip, a0, a1, ok)
  {
  }

  /**
   * If the best usable block is good, the outcome is known before: it is reached exactly if all blocks above the fork
   * are undone cleanly; if not, the mark stays, and the tip exactly if the first of them is not.
   */
  ghost predicate Foreseen(t: Forest, s: Records, mark: int, later: int, start: int, tip: int, undoes: nat -> bool,
                           a: nat, a': nat, ok: bool) {
    Wf(t) && start in t && forall goal :: Aimed(t, s, goal) ==>
      && Led(t, start, goal, a, a', tip, ok)
      && (ok <==> AllClean(undoes, a, ToUndo(t, start, goal)))
      && (ok ==> tip == goal)
      && (!ok ==> later == mark && (tip == start <==> !undoes(a)))
  }

  lemma RoundsForeseen(t: Forest, s: Records, s': Records, mark: int, later: int, goal: int, start: int, tip: int,
                       undoes: nat -> bool, a: nat, a': nat, ok: bool)
    requires Wf(t) && start in t && FailOk(t, s.connects, s.failedValid, s.failedChild)
    requires (exists g :: Aimed(t, s, g)) ==> Aimed(t, s, goal)
    requires s'.RankOk(t, later, tip) && (ok ==> later == tip && IsEnd(t, s'.seqId, s'.candidates, tip, true))
    requires Round(t, s, s', mark, later, goal, start, tip, a, a', ok) && Attempts(undoes, a, a', ok)
    ensures Foreseen(t, s, mark, later, start, tip, undoes, a, a', ok)
  {
    forall g | Aimed(t, s, g)
      ensures g == goal
    {
      OneAim(t, s, g, goal);
    }
    if Aimed(t, s, goal) {
      LedMeans(t, start, goal, a, a', tip, ok, undoes);
      if ok {
        GoodIsUsable(t, s'.chainTx, s'.connects, s'.failedValid, s'.failedChild, tip);
        AimIsLast(t, s', later, tip, goal, tip);
      }
    }
  }

  /** A failed step from the best block reached leaves the candidates complete only if the tip is still that block. */
  lemma FailedAbove(t: Forest, s: Records, start: int, tip: int)
    requires s.RankOk(t, start, tip) && (forall c :: c in s.candidates ==> CandidateOk(t, s.seqId, s.chainTx, start, c))
    ensures AllOffered(t, s.seqId, s.chainTx, s.failedValid, s.candidates, tip) <==> tip == start
  {
    OfferedFromTheMark(t, s, start, tip);
  }

  lemma GenesisShared(t: Forest, genesis: int, tip: int, b: int)
    requires Wf(t) && Rooted(t, genesis) && tip in t && b in t
    ensures t[b].height == 0 ==> Path(t, tip)[0] == b
  {
    PathAt(t, tip, 0);
  }

  lemma ChainUsable(t: Forest, tip: int, i: nat, p: int -> bool)
    requires Wf(t) && tip in t && Along(t, tip, p)
    ensures i <= t[tip].height ==> Path(t, tip)[i] in t && Along(t, Path(t, tip)[i], p)
  {
    if i <= t[tip].height {
      AlongUp(t, tip, i, p);
    }
  }
}
