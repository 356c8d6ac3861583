/** The chain tip's coins: blocks applied through a throw-away cache that is flushed only on
    success (ConnectTip and DisconnectTip in src/main.cpp). */
module CoinsTip {
  import opened Transactions
  import opened CoinsView
  import opened Utxo
  import opened UndoProof
  import opened Supply
  import opened BlockUndo

  /** Flushes a cache over the tip, with the block it now stands for. */
  method Commit(tip: CoinsViewCache, view: CoinsViewCache, hash: Hash)
    requires view.Valid() && view.modifier == None && view.base == OnCache(tip) && hash != 0
    modifies view.Repr
    ensures tip.Valid() && tip.modifier == None
    ensures tip.AllLevels() == Layer(old(view.View()), hash, old(tip.LevelsBelow()))
  {
    view.SetBestBlock(hash);
    assert view.LevelsBelow() == tip.AllLevels();
    view.Flush();
    assert view.LevelsBelow() == tip.AllLevels();
  }

  /** A new cache over the tip. */
  method OpenView(tip: CoinsViewCache) returns (view: CoinsViewCache)
    requires tip.Valid() && tip.modifier == None
    ensures view.Valid() && view.modifier == None && view.base == OnCache(tip) && view.hashBlock == 0 && fresh(view)
    ensures view.Repr == {view} + tip.Repr && view.LevelsBelow() == tip.AllLevels()
    ensures view.AllLevels() == Layer(tip.View(), tip.Best(), tip.AllLevels())
  {
    view := new CoinsViewCache(OnCache(tip));
  }

  /** A rejected block leaves the tip's coins as they were. */
  method ConnectTip(tip: CoinsViewCache, txs: seq<Tx>, hash: Hash, height: int, maturity: int)
    returns (result: BlockResult)
    requires tip.Valid() && tip.modifier == None && Sound(tip.View()) && height > 0 && hash != 0
    requires txs != [] && !txs[0].SpendsCoins() && PlainInputs(txs)
    modifies tip.Repr
    ensures tip.Valid() && tip.modifier == None
    ensures match Connect(old(tip.View()), txs, height, maturity)
            case Rejected(r) => result == BlockRejected(r) && tip.AllLevels() == old(tip.AllLevels())
            case Connected(after, us) =>
              && result.BlockConnected? && [[]] + result.vtxundo == us
              && tip.AllLevels() == Layer(after, hash, old(tip.LevelsBelow()))
              && result.minted == Minted(old(tip.View()), txs, height, maturity)
  {
    var view := OpenView(tip);
    result := ConnectTransactions(view, txs, height, maturity);
    assert view.LevelsBelow() == tip.AllLevels();
    if result.BlockConnected? {
      Commit(tip, view, hash);
    }
  }

  /** Unclean or inconsistent undo data leaves the tip's coins as they were. */
  method DisconnectTip(tip: CoinsViewCache, txs: seq<Tx>, hashPrev: Hash, height: int, vtxundo: seq<TxUndo>)
    returns (ok: bool)
    requires tip.Valid() && tip.modifier == None && hashPrev != 0
    requires txs != [] && !txs[0].SpendsCoins()
    modifies tip.Repr
    ensures tip.Valid() && tip.modifier == None
    ensures !ok ==> tip.AllLevels() == old(tip.AllLevels())
    ensures ok <==> && |vtxundo| + 1 == |txs|
                    && var r := Disconnect(Restored(old(tip.View()), true, true), txs, height, [[]] + vtxundo);
                       r.Some? && r.value.clean
    ensures ok ==> tip.AllLevels() == Layer(
              Disconnect(Restored(old(tip.View()), true, true), txs, height, [[]] + vtxundo).value.view,
              hashPrev, old(tip.LevelsBelow()))
  {
    var view := OpenView(tip);
    var result := DisconnectTransactions(view, txs, height, vtxundo);
    assert view.LevelsBelow() == tip.AllLevels();
    ok := result == Disconnected(true);
    if ok {
      Commit(tip, view, hashPrev);
    }
  }

  /** Connecting a block at the tip and disconnecting it again, through the caches. */
  method ConnectThenDisconnect(tip: CoinsViewCache, txs: seq<Tx>, hashPrev: Hash, hash: Hash, height: int,
                               maturity: int)
    returns (accepted: bool, undone: bool)
    requires tip.Valid() && tip.modifier == None && Sound(tip.View()) && tip.Best() == hashPrev
    requires height > 0 && maturity > 0 && hash != 0 && hashPrev != 0
    requires txs != [] && !txs[0].SpendsCoins() && PlainInputs(txs)
    modifies tip.Repr
    ensures tip.Valid() && tip.modifier == None && tip.Best() == hashPrev
    ensures accepted <==> Connect(old(tip.View()), txs, height, maturity).Connected?
    ensures accepted ==> undone
    ensures tip.View() == if accepted then Strip(old(tip.View()), LostInBlock(old(tip.View()), txs, height, maturity))
                          else old(tip.View())
  {
    ghost var m := tip.View();
    undone := false;
    var result := ConnectTip(tip, txs, hash, height, maturity);
    accepted := result.BlockConnected?;
    if accepted {
      DisconnectUndoesConnect(m, txs, height, maturity);
      undone := DisconnectTip(tip, txs, hashPrev, height, result.vtxundo);
    }
  }
}
