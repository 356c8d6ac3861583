/**
 * The candidate set for the best chain, the blocks marked as failed, and what one step of chain
 * activation does to them (src/main.cpp). The lemmas are about the values before and after one step.
 */
module BestChain {
  import opened Tree
  import opened BlockRank
  import opened BlockArrival

  /** All data of the chain up to b is there and no block of it is known to break the rules. */
  ghost predicate Usable(t: Forest, chainTx: map<int, nat>, failedValid: set<int>, b: int)
    requires Wf(t)
  {
    b in t && Num(chainTx, b) > 0 && Along(t, b, NotIn(failedValid))
  }

  /** All data of the chain up to b is there and every block of it connects. */
  ghost predicate Good(t: Forest, chainTx: map<int, nat>, connects: int -> bool, b: int)
    requires Wf(t)
  {
    b in t && Num(chainTx, b) > 0 && Along(t, b, connects)
  }

  /** Blocks marked as failed do not connect; blocks marked as children of a failed block descend from one. */
  ghost predicate FailOk(t: Forest, connects: int -> bool, failedValid: set<int>, failedChild: set<int>)
    requires Wf(t)
  {
    && (forall b :: b in failedValid ==> b in t && !connects(b))
    && (forall b :: b in failedChild ==> b in t && !Along(t, b, NotIn(failedValid)))
  }

  ghost predicate CandidateOk(t: Forest, seqId: map<int, nat>, chainTx: map<int, nat>, tip: int, c: int) {
    c in t && Num(chainTx, c) > 0 && !Less(t, seqId, c, tip)
  }

  /** Every usable block that does not sort below the mark is a candidate. The consistency check asks it of the tip. */
  ghost predicate AllOffered(t: Forest, seqId: map<int, nat>, chainTx: map<int, nat>, failedValid: set<int>,
                             candidates: set<int>, mark: int)
    requires Wf(t)
  {
    forall b :: Usable(t, chainTx, failedValid, b) && !Less(t, seqId, b, mark) ==> b in candidates
  }

  /** No candidate sorts below the tip, and every usable block that does not sort below the mark is a candidate. */
  ghost predicate CandidatesOk(t: Forest, seqId: map<int, nat>, chainTx: map<int, nat>, failedValid: set<int>,
                               candidates: set<int>, mark: int, tip: int)
    requires Wf(t)
  {
    && (forall c :: c in candidates ==> CandidateOk(t, seqId, chainTx, tip, c))
    && AllOffered(t, seqId, chainTx, failedValid, candidates, mark)
  }

  lemma GoodIsUsable(t: Forest, chainTx: map<int, nat>, connects: int -> bool, failedValid: set<int>,
                     failedChild: set<int>, b: int)
    requires Wf(t) && FailOk(t, connects, failedValid, failedChild) && Good(t, chainTx, connects, b)
    ensures Usable(t, chainTx, failedValid, b) && b !in failedValid && b !in failedChild
  {
    AlongImplies(t, b, connects, NotIn(failedValid));
  }

  /** A linked block becomes a candidate unless it sorts below the tip. */
  function Offered(t: Forest, seqId: map<int, nat>, candidates: set<int>, tip: int, b: int): set<int> {
    if Less(t, seqId, b, tip) then candidates else candidates + {b}
  }

  /** Linking b, which becomes a candidate unless it sorts below the tip. */
  lemma LinkKeepsCandidates(t: Forest, seqId: map<int, nat>, chainTx: map<int, nat>, failedValid: set<int>,
                            candidates: set<int>, mark: int, tip: int, b: int, n: nat, id: nat)
    requires Wf(t) && CandidatesOk(t, seqId, chainTx, failedValid, candidates, mark, tip) && !Less(t, seqId, mark, tip)
    requires b in t && Num(chainTx, b) == 0 && Num(chainTx, mark) > 0 && Num(chainTx, tip) > 0 && n > 0
    ensures var seqId' := seqId[b := id];
            CandidatesOk(t, seqId', chainTx[b := n], failedValid, Offered(t, seqId', candidates, tip, b), mark, tip)
  {
    var seqId' := seqId[b := id];
    var candidates' := Offered(t, seqId', candidates, tip, b);
    forall c | c in candidates'
      ensures CandidateOk(t, seqId', chainTx[b := n], tip, c)
    {
      assert c != b ==> CandidateOk(t, seqId, chainTx, tip, c);
      assert b in candidates ==> CandidateOk(t, seqId, chainTx, tip, b);
    }
    forall c | Usable(t, chainTx[b := n], failedValid, c) && !Less(t, seqId', c, mark)
      ensures c in candidates'
    {
      assert c != b ==> Usable(t, chainTx, failedValid, c);
      LessIsTotal(t, seqId', c, tip, mark);
      LessIsTotal(t, seqId', mark, c, tip);
    }
  }

  /** Taking out blocks that have a failed block on their path. */
  lemma EraseKeepsCandidates(t: Forest, seqId: map<int, nat>, chainTx: map<int, nat>, failedValid: set<int>,
                             before: set<int>, after: set<int>, mark: int, tip: int)
    requires Wf(t) && CandidatesOk(t, seqId, chainTx, failedValid, before, mark, tip) && after <= before
    requires forall b :: b in before - after && b in t ==> !Along(t, b, NotIn(failedValid))
    ensures CandidatesOk(t, seqId, chainTx, failedValid, after, mark, tip)
  {
    forall b | Usable(t, chainTx, failedValid, b) && !Less(t, seqId, b, mark)
      ensures b in after
    {
    }
  }

  /** A block that turned out not to connect. */
  lemma FailKeepsCandidates(t: Forest, seqId: map<int, nat>, chainTx: map<int, nat>, failedValid: set<int>,
                            candidates: set<int>, mark: int, tip: int, p: int)
    requires Wf(t) && CandidatesOk(t, seqId, chainTx, failedValid, candidates, mark, tip)
    ensures CandidatesOk(t, seqId, chainTx, failedValid + {p}, candidates - {p}, mark, tip)
  {
    forall b | Usable(t, chainTx, failedValid + {p}, b) && !Less(t, seqId, b, mark)
      ensures b in candidates - {p}
    {
      AlongImplies(t, b, NotIn(failedValid + {p}), NotIn(failedValid));
    }
  }

  lemma FailKeepsFailOk(t: Forest, connects: int -> bool, failedValid: set<int>, failedChild: set<int>, p: int)
    requires Wf(t) && FailOk(t, connects, failedValid, failedChild) && p in t && !connects(p)
    ensures FailOk(t, connects, failedValid + {p}, failedChild)
  {
    forall b | b in failedChild
      ensures !Along(t, b, NotIn(failedValid + {p}))
    {
      if Along(t, b, NotIn(failedValid + {p})) {
        AlongImplies(t, b, NotIn(failedValid + {p}), NotIn(failedValid));
      }
    }
  }

  /** The candidates that do not sort below p. */
  function Pruned(t: Forest, seqId: map<int, nat>, candidates: set<int>, p: int): set<int> {
    set c | c in candidates && !Less(t, seqId, c, p)
  }

  function LaterOf(t: Forest, seqId: map<int, nat>, a: int, b: int): (r: int)
    ensures (r == a || r == b) && !Less(t, seqId, r, a) && !Less(t, seqId, r, b)
  {
    if Less(t, seqId, b, a) then a else b
  }

  /** A block that did connect becomes the tip, and the mark if it is ahead of it. */
  lemma PruneKeepsCandidates(t: Forest, seqId: map<int, nat>, chainTx: map<int, nat>, failedValid: set<int>,
                             candidates: set<int>, mark: int, tip: int, p: int)
    requires Wf(t) && CandidatesOk(t, seqId, chainTx, failedValid, candidates, mark, tip)
    requires Usable(t, chainTx, failedValid, mark) && Usable(t, chainTx, failedValid, p)
    ensures CandidatesOk(t, seqId, chainTx, failedValid, Pruned(t, seqId, candidates, p), LaterOf(t, seqId, mark, p), p)
    ensures LaterOf(t, seqId, mark, p) in Pruned(t, seqId, candidates, p)
  {
    var later := LaterOf(t, seqId, mark, p);
    forall c | c in Pruned(t, seqId, candidates, p)
      ensures CandidateOk(t, seqId, chainTx, p, c)
    {
      assert CandidateOk(t, seqId, chainTx, tip, c);
    }
    forall b | Usable(t, chainTx, failedValid, b) && !Less(t, seqId, b, later)
      ensures b in Pruned(t, seqId, candidates, p)
    {
      LessIsTotal(t, seqId, b, mark, later);
      LessIsTotal(t, seqId, b, p, later);
      LessIsTotal(t, seqId, later, b, mark);
      LessIsTotal(t, seqId, later, b, p);
      LessIsTotal(t, seqId, b, later, mark);
      LessIsTotal(t, seqId, b, later, p);
    }
  }

  /** A new header has no data, so nothing changes for the others. */
  lemma HeaderKeepsCandidates(t: Forest, seqId: map<int, nat>, chainTx: map<int, nat>, failedValid: set<int>,
                              candidates: set<int>, mark: int, tip: int, n: int, node: Node)
    requires Wf(t) && n !in t && Wf(t[n := node]) && mark in t && tip in t
    requires CandidatesOk(t, seqId, chainTx, failedValid, candidates, mark, tip) && Num(chainTx, n) == 0
    ensures CandidatesOk(t[n := node], seqId, chainTx, failedValid, candidates, mark, tip)
  {
    var t' := t[n := node];
    forall c | c in candidates
      ensures CandidateOk(t', seqId, chainTx, tip, c)
    {
      assert CandidateOk(t, seqId, chainTx, tip, c);
    }
    forall b | Usable(t', chainTx, failedValid, b) && !Less(t', seqId, b, mark)
      ensures b in candidates
    {
      AlongGrows(t, b, n, node, NotIn(failedValid));
    }
  }

  /** Once the tip is the last candidate, no usable block sorts above it. */
  lemma TipIsBest(t: Forest, seqId: map<int, nat>, chainTx: map<int, nat>, connects: int -> bool, failedValid: set<int>,
                  failedChild: set<int>, candidates: set<int>, tip: int, b: int)
    requires Wf(t) && CandidatesOk(t, seqId, chainTx, failedValid, candidates, tip, tip)
    requires IsEnd(t, seqId, candidates, tip, true)
    requires FailOk(t, connects, failedValid, failedChild)
    ensures Usable(t, chainTx, failedValid, b) ==> !Less(t, seqId, tip, b)
    ensures Good(t, chainTx, connects, b) ==> !Less(t, seqId, tip, b) && WorkOf(t, b) <= WorkOf(t, tip)
    ensures candidates == {tip}
  {
    forall c | c in candidates
      ensures c == tip
    {
      assert CandidateOk(t, seqId, chainTx, tip, c);
    }
    LessIsTotal(t, seqId, b, tip, b);
    if Good(t, chainTx, connects, b) {
      GoodIsUsable(t, chainTx, connects, failedValid, failedChild, b);
    }
  }

  /** A block marked as failed has an invalid block on its path, and so have all blocks above it. */
  lemma FailedTaints(t: Forest, connects: int -> bool, failedValid: set<int>, failedChild: set<int>, n: int, i: nat,
                     k: nat)
    requires Wf(t) && FailOk(t, connects, failedValid, failedChild) && n in t && i <= k <= t[n].height
    requires Path(t, n)[i] in failedValid || Path(t, n)[i] in failedChild
    ensures Path(t, n)[k] in t && !Along(t, Path(t, n)[k], NotIn(failedValid))
  {
    var a, b := Path(t, n)[i], Path(t, n)[k];
    PathAt(t, n, k);
    PathAt(t, n, i);
    if Along(t, b, NotIn(failedValid)) {
      assert Path(t, b)[i] == a;
      AlongUp(t, b, i, NotIn(failedValid));
    }
  }

  /** What holds along a part of the path and at every block above it holds along the path. */
  lemma {:induction false} AlongFrom(t: Forest, n: int, i: nat, p: int -> bool)
    requires Wf(t) && n in t && i <= t[n].height && Path(t, n)[i] in t && Along(t, Path(t, n)[i], p)
    requires forall k :: i < k <= t[n].height ==> p(Path(t, n)[k])
    ensures Along(t, n, p)
    decreases t[n].height
  {
    if i < t[n].height {
      assert ParentOk(t, n);
      var m := t[n].prev;
      forall k | i < k <= t[m].height
        ensures p(Path(t, m)[k])
      {
        assert Path(t, m)[k] == Path(t, n)[k];
      }
      AlongFrom(t, m, i, p);
      assert p(Path(t, n)[t[n].height]);
    }
  }

  /** Every block below a linked block is linked. */
  lemma {:induction false} LinkedBelow(t: Forest, nTx: map<int, nat>, chainTx: map<int, nat>, n: int, i: nat)
    requires Wf(t) && Linkage(t, nTx, chainTx, []) && n in t && Num(chainTx, n) > 0 && i <= t[n].height
    ensures Num(chainTx, Path(t, n)[i]) > 0 && Num(nTx, Path(t, n)[i]) > 0
    decreases t[n].height
  {
    assert ParentOk(t, n) && LinkOk(t, nTx, chainTx, n);
    if i < t[n].height {
      LinkedBelow(t, nTx, chainTx, t[n].prev, i);
    }
  }

  /** An ancestor of a good block is good and sorts below it. */
  lemma GoodBelow(t: Forest, nTx: map<int, nat>, seqId: map<int, nat>, chainTx: map<int, nat>, connects: int -> bool,
                  n: int, i: nat)
    requires Wf(t) && Linkage(t, nTx, chainTx, []) && Good(t, chainTx, connects, n) && i < t[n].height
    ensures Good(t, chainTx, connects, Path(t, n)[i]) && Less(t, seqId, Path(t, n)[i], n)
  {
    LinkedBelow(t, nTx, chainTx, n, i);
    AlongUp(t, n, i, connects);
    PathWork(t, n, i);
  }
}
