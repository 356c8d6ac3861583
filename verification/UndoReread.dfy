/** Disconnecting blocks with undo data that was written to a file and read back (src/undo.h, src/main.cpp). Negative
    versions do not survive that; the comparison with the block allows for it. */
module UndoReread {
  import opened Transactions
  import opened Coins
  import opened CoinMap
  import opened VarInts
  import opened CoinsStream
  import opened Utxo
  import opened UndoProof
  import opened UndoExact

  function RereadTx(us: TxUndo): (r: TxUndo)
    ensures |r| == |us| && forall i :: 0 <= i < |us| ==> r[i] == Reread(us[i])
  {
    seq(|us|, i requires 0 <= i < |us| => Reread(us[i]))
  }

  function RereadBlock(us: seq<TxUndo>): (r: seq<TxUndo>)
    ensures |r| == |us| && forall i :: 0 <= i < |us| ==> r[i] == RereadTx(us[i])
  {
    seq(|us|, i requires 0 <= i < |us| => RereadTx(us[i]))
  }

  function RereadChain(us: seq<seq<TxUndo>>): (r: seq<seq<TxUndo>>)
    ensures |r| == |us| && forall i :: 0 <= i < |us| ==> r[i] == RereadBlock(us[i])
  {
    seq(|us|, i requires 0 <= i < |us| => RereadBlock(us[i]))
  }

  lemma RereadTxHead(us: TxUndo)
    requires us != []
    ensures RereadTx(us) == [Reread(us[0])] + RereadTx(us[1..]) && RereadTx(us)[1..] == RereadTx(us[1..])
  {
  }

  lemma RereadBlockHead(us: seq<TxUndo>)
    requires us != []
    ensures RereadBlock(us) == [RereadTx(us[0])] + RereadBlock(us[1..]) && RereadBlock(us)[1..] == RereadBlock(us[1..])
  {
  }

  function Aged(c: Coins): Coins { c.(version := ReadBack(c.version)) }

  /** The map m with the versions of the listed transactions as they are read back. */
  function Older(m: CoinMap, aged: set<Hash>): (r: CoinMap)
    ensures r.Keys == m.Keys
    ensures forall t :: t in m ==> r[t] == if t in aged then Aged(m[t]) else m[t]
  {
    map t | t in m :: if t in aged then Aged(m[t]) else m[t]
  }

  lemma OlderPut(m: CoinMap, aged: set<Hash>, aged': set<Hash>, t: Hash, c: Coins)
    requires aged <= aged' <= aged + {t}
    ensures Put(Older(m, aged), t, if t in aged' then Aged(c) else c) == Older(Put(m, t, c), aged')
  {
    assert Aged(c).Cleaned() == Aged(c.Cleaned());
  }

  /** The transactions that were restored from a record with a height. */
  function Filled(ps: seq<OutPoint>, us: TxUndo): set<Hash>
    requires |ps| == |us|
  {
    if ps == [] then {} else (if us[0].height != 0 then {ps[0].hash} else {}) + Filled(ps[1..], us[1..])
  }

  ghost predicate Aging(s: Restored, s': Restored, aged: set<Hash>) {
    s' == Restored(Older(s.view, aged), s.clean, s.exact)
  }

  /** The coins an undo record is applied to, before and after it was stored. */
  lemma BaseAged(c: Coins, u: TxInUndo)
    requires u.height >= 0
    ensures UndoBase(Aged(c), Reread(u)) == Aged(UndoBase(c, u))
    ensures u.height != 0 ==> UndoBase(c, Reread(u)) == Aged(UndoBase(c, u))
    ensures u.height == 0 ==> UndoBase(c, Reread(u)) == UndoBase(c, u)
  {
  }

  lemma RestoreAged(s: Restored, s': Restored, aged: set<Hash>, p: OutPoint, u: TxInUndo)
    requires Aging(s, s', aged) && u.height >= 0
    ensures Aging(RestoreAt(s, p, u), RestoreAt(s', p, Reread(u)), if u.height != 0 then aged + {p.hash} else aged)
  {
    var c, c' := At(s.view, p.hash), At(s'.view, p.hash);
    assert c' == if p.hash in aged then Aged(c) else c by {
      assert Aged(EMPTY) == EMPTY;
    }
    BaseAged(c, u);
    var d, d' := UndoBase(c, u), UndoBase(c', Reread(u));
    var aged' := if u.height != 0 then aged + {p.hash} else aged;
    assert d' == if p.hash in aged' then Aged(d) else d;
    var e := WithOutput(d, p.n, u.out);
    assert WithOutput(d', p.n, u.out) == if p.hash in aged' then Aged(e) else e;
    assert c'.IsPruned() == c.IsPruned() && d'.IsAvailable(p.n) == d.IsAvailable(p.n);
    OlderPut(s.view, aged, aged', p.hash, e);
  }

  lemma {:induction false} RestoreAllAged(s: Restored, s': Restored, aged: set<Hash>, ps: seq<OutPoint>, us: TxUndo)
    requires Aging(s, s', aged) && |ps| == |us| && forall i :: 0 <= i < |us| ==> us[i].height >= 0
    ensures Aging(RestoreAll(s, ps, us), RestoreAll(s', ps, RereadTx(us)), aged + Filled(ps, us))
  {
    if ps == [] {
      assert aged + {} == aged;
    } else {
      RereadTxHead(us);
      RestoreAllAged(s, s', aged, ps[1..], us[1..]);
      var aged1 := aged + Filled(ps[1..], us[1..]);
      RestoreAged(RestoreAll(s, ps[1..], us[1..]), RestoreAll(s', ps[1..], RereadTx(us[1..])), aged1, ps[0], us[0]);
      assert aged + Filled(ps, us) == if us[0].height != 0 then aged1 + {ps[0].hash} else aged1;
    }
  }

  /** The outputs are recognised just as well: a negative version is replaced before the comparison. */
  lemma ClearAged(s: Restored, s': Restored, aged: set<Hash>, tx: Tx, height: int)
    requires Aging(s, s', aged) && (tx.hash in s.view ==> s.view[tx.hash].version == tx.version)
    ensures Aging(ClearOutputs(s, tx, height), ClearOutputs(s', tx, height), aged)
  {
    var c, c' := At(s.view, tx.hash), At(s'.view, tx.hash);
    assert EMPTY.IsPruned();
    assert Put(s'.view, tx.hash, EMPTY) == Older(Put(s.view, tx.hash, EMPTY), aged);
  }

  lemma {:induction false} TxAged(s: Restored, s': Restored, aged: set<Hash>, tx: Tx, height: int, us: TxUndo)
    requires Aging(s, s', aged) && (tx.hash in s.view ==> s.view[tx.hash].version == tx.version)
    requires DisconnectTx(s, tx, height, us).Some? && forall i :: 0 <= i < |us| ==> us[i].height >= 0
    ensures DisconnectTx(s', tx, height, RereadTx(us)).Some?
    ensures Aging(DisconnectTx(s, tx, height, us).value, DisconnectTx(s', tx, height, RereadTx(us)).value,
                  aged + if tx.SpendsCoins() then Filled(Prevouts(tx.vin), us) else {})
  {
    ClearAged(s, s', aged, tx, height);
    if tx.SpendsCoins() {
      RestoreAllAged(ClearOutputs(s, tx, height), ClearOutputs(s', tx, height), aged, Prevouts(tx.vin), us);
    } else {
      assert aged + {} == aged;
    }
  }

  lemma {:induction false} LostIsFilled(m: CoinMap, ps: seq<OutPoint>)
    requires Sound(m) && SpendAll(m, ps).Some?
    ensures var us := SpendAll(m, ps).value.1;
            && |us| == |ps| && LostIn(m, ps) == Filled(ps, us)
            && forall i :: 0 <= i < |us| ==> us[i].height >= 0
  {
    if ps != [] {
      SpendAllHead(m, ps);
      var (m1, u) := SpendAt(m, ps[0]).value;
      SpendRestoreOne(m, {}, ps[0], true, true);
      SpendShape(At(m, ps[0].hash), ps[0].n);
      LostIsFilled(m1, ps[1..]);
    }
  }

  lemma LostByIsFilled(m: CoinMap, tx: Tx, height: int, maturity: int)
    requires Sound(m) && height > 0 && ConnectTx(m, tx, height, maturity).TxConnected?
    ensures var us := ConnectTx(m, tx, height, maturity).undo;
            && (forall i :: 0 <= i < |us| ==> us[i].height >= 0)
            && (tx.SpendsCoins() ==> |us| == |tx.vin| && LostBy(m, tx) == Filled(Prevouts(tx.vin), us))
  {
    if tx.SpendsCoins() {
      LostIsFilled(m, Prevouts(tx.vin));
    }
  }

  /** What the coins of a transaction are right after it was connected. */
  lemma OwnVersion(m: CoinMap, tx: Tx, height: int, maturity: int)
    requires Sound(m) && height > 0 && ConnectTx(m, tx, height, maturity).TxConnected?
    ensures var after := ConnectTx(m, tx, height, maturity).view;
            tx.hash in after ==> after[tx.hash].version == tx.version
  {
    var c := FromTx(tx, height);
    FromTxShape(tx, height);
    PutTrimmed(if tx.SpendsCoins() then SpendAll(m, Prevouts(tx.vin)).value.0 else m, tx.hash, c);
  }

  /** The map m without the stake flags of the listed transactions and with their versions as they are read back. */
  function Stored(m: CoinMap, lost: set<Hash>): CoinMap {
    Older(Strip(m, lost), lost)
  }

  /** One transaction of a block. */
  lemma TxStored(m: CoinMap, tx: Tx, height: int, maturity: int, lost: set<Hash>, clean: bool, exact: bool)
    requires Sound(m) && height > 0 && ConnectTx(m, tx, height, maturity).TxConnected?
    ensures var TxConnected(after, us) := ConnectTx(m, tx, height, maturity);
            && Sound(after)
            && DisconnectTx(Restored(Stored(after, lost), clean, exact), tx, height, RereadTx(us))
               == Some(Restored(Stored(m, lost + LostBy(m, tx)),
                                clean && !(MakesStake(tx, height) && tx.hash in lost), exact))
  {
    var TxConnected(after, us) := ConnectTx(m, tx, height, maturity);
    TxUndone(m, tx, height, maturity, lost, clean, exact);
    LostByIsFilled(m, tx, height, maturity);
    OwnVersion(m, tx, height, maturity);
    TxAged(Restored(Strip(after, lost), clean, exact), Restored(Stored(after, lost), clean, exact), lost, tx, height,
           us);
  }

  lemma HeadAged(m: CoinMap, txs: seq<Tx>, height: int, maturity: int, lost: set<Hash>, clean: bool, exact: bool)
    requires Sound(m) && height > 0 && maturity > 0 && txs != [] && Connect(m, txs, height, maturity).Connected?
    ensures var TxConnected(m1, u) := ConnectTx(m, txs[0], height, maturity);
            var later := LostInBlock(m1, txs[1..], height, maturity);
            && Sound(m1)
            && DisconnectTx(Restored(Stored(m1, lost + later), clean, exact), txs[0], height, RereadTx(u))
               == Some(Restored(Stored(m, lost + LostInBlock(m, txs, height, maturity)),
                                clean && (MakesStake(txs[0], height) ==> txs[0].hash !in lost), exact))
  {
    var TxConnected(m1, u) := ConnectTx(m, txs[0], height, maturity);
    var later := LostInBlock(m1, txs[1..], height, maturity);
    TxStored(m, txs[0], height, maturity, lost + later, clean, exact);
    if MakesStake(txs[0], height) {
      OwnStakeKept(m, txs, height, maturity);
    }
    assert lost + later + LostBy(m, txs[0]) == lost + LostInBlock(m, txs, height, maturity);
  }

  lemma StoredStep(s: Restored, txs: seq<Tx>, height: int, u: TxUndo, us: seq<TxUndo>)
    requires txs != [] && |us| == |txs| - 1
    ensures Disconnect(s, txs, height, RereadBlock([u] + us)) ==
            match Disconnect(s, txs[1..], height, RereadBlock(us))
            case None => None
            case Some(s1) => DisconnectTx(s1, txs[0], height, RereadTx(u))
  {
    RereadBlockHead([u] + us);
    assert ([u] + us)[1..] == us;
    UndoStep(s, txs, height, RereadTx(u), RereadBlock(us));
  }

  /** Disconnecting a block with stored undo data is clean exactly when it would be with the original data. */
  lemma {:induction false} BlockAged(m: CoinMap, txs: seq<Tx>, height: int, maturity: int, lost: set<Hash>,
                                     clean: bool, exact: bool)
    requires Sound(m) && height > 0 && maturity > 0 && Connect(m, txs, height, maturity).Connected?
    ensures var Connected(after, us) := Connect(m, txs, height, maturity);
            && |us| == |txs|
            && Disconnect(Restored(Stored(after, lost), clean, exact), txs, height, RereadBlock(us))
               == Some(Restored(Stored(m, lost + LostInBlock(m, txs, height, maturity)),
                                clean && StakesKnown(txs, height, lost), exact))
    decreases |txs|
  {
    if txs == [] {
      assert lost + {} == lost;
    } else {
      var TxConnected(m1, u) := ConnectTx(m, txs[0], height, maturity);
      var Connected(after, us) := Connect(m1, txs[1..], height, maturity);
      assert Connect(m, txs, height, maturity) == Connected(after, [u] + us);
      HeadAged(m, txs, height, maturity, lost, clean && StakesKnown(txs[1..], height, lost), exact);
      BlockAged(m1, txs[1..], height, maturity, lost, clean, exact);
      StoredStep(Restored(Stored(after, lost), clean, exact), txs, height, u, us);
      StakesKnownStep(txs, height, lost);
    }
  }

  lemma {:induction false} ChainAged(m: CoinMap, blocks: seq<seq<Tx>>, height: int, maturity: int)
    requires Sound(m) && height > 0 && maturity > 0 && ConnectChain(m, blocks, height, maturity).ChainConnected?
    ensures var ChainConnected(after, us) := ConnectChain(m, blocks, height, maturity);
            && |us| == |blocks| && (forall i :: 0 <= i < |us| ==> |blocks[i]| == |us[i]|)
            && DisconnectChain(Restored(after, true, true), blocks, height, RereadChain(us))
               == Some(Restored(Stored(m, LostInChain(m, blocks, height, maturity)),
                                StakesOutlive(m, blocks, height, maturity), true))
    decreases |blocks|
  {
    ChainUndoShape(m, blocks, height, maturity);
    if blocks == [] {
      assert Stored(m, {}) == m;
    } else {
      var Connected(m1, u) := Connect(m, blocks[0], height, maturity);
      var ChainConnected(after, us) := ConnectChain(m1, blocks[1..], height + 1, maturity);
      DisconnectUndoesConnect(m, blocks[0], height, maturity);
      ChainAged(m1, blocks[1..], height + 1, maturity);
      var later := LostInChain(m1, blocks[1..], height + 1, maturity);
      BlockAged(m, blocks[0], height, maturity, later, StakesOutlive(m1, blocks[1..], height + 1, maturity), true);
      assert RereadChain([u] + us)[1..] == RereadChain(us);
      assert later + LostInBlock(m, blocks[0], height, maturity) == LostInChain(m, blocks, height, maturity);
    }
  }

  /**
   * A reorganisation with undo data from files is clean exactly when it would be with the original data. The coins are
   * those before the run if and only if no transaction whose unspent outputs the run spends all is a coinstake or has
   * a negative version.
   */
  lemma ReorgFromFiles(m: CoinMap, blocks: seq<seq<Tx>>, height: int, maturity: int)
    requires Sound(m) && height > 0 && maturity > 0 && ConnectChain(m, blocks, height, maturity).ChainConnected?
    ensures var ChainConnected(after, us) := ConnectChain(m, blocks, height, maturity);
            && |us| == |blocks| && (forall i :: 0 <= i < |us| ==> |blocks[i]| == |us[i]|)
            && DisconnectChain(Restored(after, true, true), blocks, height, RereadChain(us))
               == Some(Restored(Stored(m, Emptied(m, SpentInChain(blocks))), Spared(blocks, height), true))
    ensures Stored(m, Emptied(m, SpentInChain(blocks))) == m
            <==> forall t :: t in m && Outs(m[t], t) <= SpentInChain(blocks) ==> !m[t].coinStake && m[t].version >= 0
  {
    ChainAged(m, blocks, height, maturity);
    OutliveMeans(m, blocks, height, maturity);
    EmptiedStored(m, blocks, height, maturity);
    StoredIdentity(m, Emptied(m, SpentInChain(blocks)));
  }

  lemma EmptiedStored(m: CoinMap, blocks: seq<seq<Tx>>, height: int, maturity: int)
    requires Sound(m) && height > 0 && maturity > 0 && ConnectChain(m, blocks, height, maturity).ChainConnected?
    ensures Stored(m, LostInChain(m, blocks, height, maturity)) == Stored(m, Emptied(m, SpentInChain(blocks)))
  {
    var lost, emptied := LostInChain(m, blocks, height, maturity), Emptied(m, SpentInChain(blocks));
    forall t | t in m
      ensures t in lost <==> t in emptied
    {
      LostInChainMeans(m, blocks, height, maturity, t);
    }
    SameStored(m, lost, emptied);
  }

  lemma SameStored(m: CoinMap, a: set<Hash>, b: set<Hash>)
    requires forall t :: t in m ==> (t in a <==> t in b)
    ensures Stored(m, a) == Stored(m, b)
  {
    forall t | t in m
      ensures Stored(m, a)[t] == Stored(m, b)[t]
    {
      assert t in a <==> t in b;
    }
  }

  lemma StoredIdentity(m: CoinMap, lost: set<Hash>)
    ensures Stored(m, lost) == m <==> forall t :: t in m && t in lost ==> !m[t].coinStake && m[t].version >= 0
  {
    var s := Stored(m, lost);
    if s == m {
      forall t | t in m && t in lost
        ensures !m[t].coinStake && m[t].version >= 0
      {
        assert s[t] == m[t];
      }
    } else if forall t :: t in m && t in lost ==> !m[t].coinStake && m[t].version >= 0 {
      assert forall t :: t in m ==> s[t] == m[t];
    }
  }

  /** The same for one block. */
  lemma BlockFromFile(m: CoinMap, txs: seq<Tx>, height: int, maturity: int)
    requires Sound(m) && height > 0 && maturity > 0 && Connect(m, txs, height, maturity).Connected?
    ensures var Connected(after, us) := Connect(m, txs, height, maturity);
            |us| == |txs| &&
            (Disconnect(Restored(after, true, true), txs, height, RereadBlock(us)) == Some(Restored(m, true, true))
             <==> forall t :: t in m && Outs(m[t], t) <= SpentIn(txs) ==> !m[t].coinStake && m[t].version >= 0)
  {
    BlockAged(m, txs, height, maturity, {}, true, true);
    var after, lost := Connect(m, txs, height, maturity).view, LostInBlock(m, txs, height, maturity);
    assert Stored(after, {}) == after && {} + lost == lost;
    forall t | t in m
      ensures t in lost <==> Outs(m[t], t) <= SpentIn(txs)
    {
      LostInBlockMeans(m, txs, height, maturity, t);
    }
    StoredIdentity(m, lost);
  }
}
