/** Whole runs of the block index: headers and data in any order, with activations in between. */
module ChainRuns {
  import opened Tree
  import opened BlockRank
  import opened BlockArrival
  import opened BestChain
  import opened ChainSteps
  import opened ChainState

  datatype Event =
    | Header(n: int, prev: int, proof: int, headerOk: bool, contextOk: bool)
    | Data(b: int, txs: nat)
    | Refused(b: int)
    | Activate

  /** One event; headers and data that the node would turn away are turned away. An activation may fail. */
  method Handle(m: BlockManager, e: Event) returns (ok: bool)
    requires m.Valid()
    modifies m, m.index, m.chain, m.coins
    ensures m.Valid() && m.coins.Undone(old(m.coins.attempts), ok)
    ensures e.Activate? && ok ==> IsBest(m.index.tree, m.seqId, m.chainTx, m.connects, m.Tip())
    ensures ok && old(m.reached == m.Tip()) ==> m.reached == m.Tip()
  {
    ok := true;
    match e
    case Header(n, prev, proof, headerOk, contextOk) =>
      if proof > 0 {
        var known := m.AcceptBlockHeader(n, prev, proof, headerOk, contextOk);
      }
    case Data(b, txs) =>
      if b in m.index.tree && Num(m.nTx, b) == 0 && !m.Failed(b) && txs > 0 {
        m.ReceivedBlockTransactions(b, txs);
      }
    case Refused(b) =>
      if b in m.index.tree && Num(m.nTx, b) == 0 && !m.connects(b) {
        m.RejectBlock(b);
      }
    case Activate =>
      ok := m.ActivateBestChain();
  }

  /**
   * After any run, failed activations included, an activation that succeeds makes the tip the best block whose chain
   * is complete and connects; and it succeeds unless one more block is not undone cleanly.
   */
  method Run(m: BlockManager, events: seq<Event>) returns (ok: bool)
    requires m.Valid()
    modifies m, m.index, m.chain, m.coins
    ensures m.Valid()
    ensures ok ==> IsBest(m.index.tree, m.seqId, m.chainTx, m.connects, m.Tip())
    ensures (forall k :: k >= old(m.coins.attempts) ==> m.coins.undoes(k)) ==> ok
  {
    var i := 0;
    while i < |events|
      invariant 0 <= i <= |events|
      invariant m.Valid() && m.coins.attempts >= old(m.coins.attempts)
    {
      var done := Handle(m, events[i]);
      i := i + 1;
    }
    ok := m.ActivateBestChain();
  }

  /** A good block is one whose path all has data and connects. */
  lemma GoodMeans(t: Forest, nTx: map<int, nat>, chainTx: map<int, nat>, connects: int -> bool, b: int)
    requires Wf(t) && Linkage(t, nTx, chainTx, [])
    ensures Good(t, chainTx, connects, b) <==> b in t && forall a :: a in Path(t, b) ==> Num(nTx, a) > 0 && connects(a)
  {
    if b in t {
      ChainTxMeans(t, nTx, chainTx, b);
      AlongMeans(t, b, Positive(nTx));
      AlongMeans(t, b, connects);
    }
  }

  /**
   * Two runs that have seen the same headers and data end on tips with the same work, whatever the order; and on the
   * same tip if no other good block has as much work.
   */
  lemma SameOutcome(t: Forest, nTx: map<int, nat>, connects: int -> bool,
                    chainTx1: map<int, nat>, seqId1: map<int, nat>, tip1: int,
                    chainTx2: map<int, nat>, seqId2: map<int, nat>, tip2: int)
    requires Wf(t) && Linkage(t, nTx, chainTx1, []) && Linkage(t, nTx, chainTx2, [])
    requires IsBest(t, seqId1, chainTx1, connects, tip1) && IsBest(t, seqId2, chainTx2, connects, tip2)
    ensures WorkOf(t, tip1) == WorkOf(t, tip2)
    ensures (forall b :: Good(t, chainTx1, connects, b) && WorkOf(t, b) == WorkOf(t, tip1) ==> b == tip1) ==>
              tip1 == tip2
  {
    OrderDoesNotMatter(t, nTx, chainTx1, chainTx2, tip1);
    OrderDoesNotMatter(t, nTx, chainTx1, chainTx2, tip2);
    assert Good(t, chainTx2, connects, tip1) && Good(t, chainTx1, connects, tip2);
  }
}
