/** The undo data of a block can be stored if the coins and the transactions can (src/undo.h, src/main.cpp). */
module UndoFits {
  import opened Transactions
  import opened Coins
  import opened CoinMap
  import opened VarInts
  import opened ScriptCodec
  import opened CoinsStream
  import opened Utxo
  import opened UndoProof
  import opened UndoFile

  predicate CoinsFit(c: Coins, curve: Curve) {
    && 0 < c.height < HEIGHTS && IsInt32(c.version)
    && forall k :: 0 <= k < |c.vout| && !c.vout[k].IsNull() ==> Storable(c.vout[k], curve)
  }

  ghost predicate MapFits(m: CoinMap, curve: Curve) {
    forall t :: t in m ==> CoinsFit(m[t], curve)
  }

  predicate TxFits(tx: Tx, curve: Curve) {
    && |tx.vin| <= MAX_SIZE && IsInt32(tx.version)
    && forall k :: 0 <= k < |tx.vout| && !IsUnspendable(tx.vout[k].script) ==> Storable(tx.vout[k], curve)
  }

  predicate BlockFits(txs: seq<Tx>, curve: Curve) {
    |txs| <= MAX_SIZE && forall i :: 0 <= i < |txs| ==> TxFits(txs[i], curve)
  }

  lemma PutFits(m: CoinMap, t: Hash, c: Coins, curve: Curve)
    requires MapFits(m, curve) && c.IsTrimmed() && CoinsFit(c, curve)
    ensures MapFits(Put(m, t, c), curve)
  {
    PutTrimmed(m, t, c);
  }

  lemma SpendFits(m: CoinMap, p: OutPoint, curve: Curve)
    requires Sound(m) && MapFits(m, curve) && SpendAt(m, p).Some?
    ensures var (m1, u) := SpendAt(m, p).value; MapFits(m1, curve) && Keepable(u, curve)
  {
    var c := At(m, p.hash);
    SpendShape(c, p.n);
    var (d, u) := Spend(c, p.n).value;
    assert d.vout <= c.vout[p.n := NULL_OUT];
    PutFits(m, p.hash, d, curve);
  }

  lemma {:induction false} SpendAllFits(m: CoinMap, ps: seq<OutPoint>, curve: Curve)
    requires Sound(m) && MapFits(m, curve) && SpendAll(m, ps).Some?
    ensures var (m2, us) := SpendAll(m, ps).value;
            MapFits(m2, curve) && |us| == |ps| && forall i :: 0 <= i < |us| ==> Keepable(us[i], curve)
  {
    if ps != [] {
      SpendAllHead(m, ps);
      var m1 := SpendAt(m, ps[0]).value.0;
      SpendRestoreOne(m, {}, ps[0], true, true);
      SpendFits(m, ps[0], curve);
      SpendAllFits(m1, ps[1..], curve);
    }
  }

  lemma NewCoinsFit(tx: Tx, height: int, curve: Curve)
    requires TxFits(tx, curve) && 0 < height < HEIGHTS
    ensures CoinsFit(FromTx(tx, height), curve) && FromTx(tx, height).IsTrimmed()
  {
    var c := FromTx(tx, height);
    forall k | 0 <= k < |c.vout| && !c.vout[k].IsNull()
      ensures Storable(c.vout[k], curve)
    {
      assert c.vout[k] == NullUnspendable(tx.vout)[k];
    }
  }

  lemma TxUndoFits(m: CoinMap, tx: Tx, height: int, maturity: int, curve: Curve)
    requires Sound(m) && MapFits(m, curve) && TxFits(tx, curve) && 0 < height < HEIGHTS
    requires ConnectTx(m, tx, height, maturity).TxConnected?
    ensures var TxConnected(after, us) := ConnectTx(m, tx, height, maturity);
            Sound(after) && MapFits(after, curve) && TxKeepable(us, curve)
  {
    TxUndone(m, tx, height, maturity, {}, true, true);
    NewCoinsFit(tx, height, curve);
    var c := FromTx(tx, height);
    if tx.SpendsCoins() {
      SpendAllFits(m, Prevouts(tx.vin), curve);
      PutFits(SpendAll(m, Prevouts(tx.vin)).value.0, tx.hash, c, curve);
    } else {
      PutFits(m, tx.hash, c, curve);
    }
  }

  /** The undo data of a connected block survives being stored, and the coins fit again. */
  lemma {:induction false} BlockUndoFits(m: CoinMap, txs: seq<Tx>, height: int, maturity: int, curve: Curve)
    requires Sound(m) && MapFits(m, curve) && BlockFits(txs, curve) && 0 < height < HEIGHTS
    requires Connect(m, txs, height, maturity).Connected?
    ensures var Connected(after, us) := Connect(m, txs, height, maturity);
            Sound(after) && MapFits(after, curve) && |us| == |txs| && BlockKeepable(us, curve)
    decreases |txs|
  {
    if txs != [] {
      TxUndoFits(m, txs[0], height, maturity, curve);
      BlockUndoFits(ConnectTx(m, txs[0], height, maturity).view, txs[1..], height, maturity, curve);
    }
  }
}
