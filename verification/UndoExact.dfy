/** Exactly when undoing a block gives back the very same coins, and what goes wrong otherwise. */
module UndoExact {
  import opened Transactions
  import opened Coins
  import opened CoinMap
  import opened Utxo
  import opened UndoProof

  /** The unspent outputs of one transaction. */
  function Outs(c: Coins, t: Hash): (s: set<OutPoint>)
    ensures forall p :: p in s <==> p.hash == t && p.n < |c.vout| && !c.vout[p.n].IsNull()
  {
    set k: nat | k < |c.vout| && !c.vout[k].IsNull() :: OutPoint(t, k)
  }

  function AsSet(ps: seq<OutPoint>): (s: set<OutPoint>)
    ensures forall p :: p in s <==> p in ps
  {
    if ps == [] then {} else {ps[0]} + AsSet(ps[1..])
  }

  function SpentBy(tx: Tx): set<OutPoint> {
    if tx.SpendsCoins() then AsSet(Prevouts(tx.vin)) else {}
  }

  function SpentIn(txs: seq<Tx>): set<OutPoint> {
    if txs == [] then {} else SpentBy(txs[0]) + SpentIn(txs[1..])
  }

  /** Trimming changes no output that is not null. */
  lemma TrimKeeps(v: seq<TxOut>, k: nat)
    ensures k < |Trim(v)| && !Trim(v)[k].IsNull() <==> k < |v| && !v[k].IsNull()
  {
    var r := Trim(v);
    if k < |r| {
      assert r[k] == v[k];
    }
  }

  lemma SpendOuts(c: Coins, n: nat, t: Hash)
    requires c.IsTrimmed() && Spend(c, n).Some?
    ensures Outs(Spend(c, n).value.0, t) == Outs(c, t) - {OutPoint(t, n)}
  {
    SpendShape(c, n);
    var d := Spend(c, n).value.0;
    forall p: OutPoint
      ensures p in Outs(d, t) <==> p in Outs(c, t) - {OutPoint(t, n)}
    {
      TrimKeeps(c.vout[n := NULL_OUT], p.n);
    }
  }

  lemma SpendAtMeans(m: CoinMap, p: OutPoint, t: Hash)
    requires Sound(m) && t in m && SpendAt(m, p).Some?
    ensures var (m1, u) := SpendAt(m, p).value;
            && Sound(m1)
            && (p.hash == t && u.height != 0 <==> Outs(m[t], t) <= {p})
            && (!(Outs(m[t], t) <= {p}) ==> t in m1 && Outs(m1[t], t) == Outs(m[t], t) - {p})
  {
    SpendRestoreOne(m, {}, p, true, true);
    var c := At(m, p.hash);
    SpendShape(c, p.n);
    var d := Spend(c, p.n).value.0;
    PutTrimmed(m, p.hash, d);
    if p.hash == t {
      SpendOuts(c, p.n, t);
      if !d.IsPruned() {
        HasOutput(d, t);
      } else {
        assert Outs(d, t) == {};
      }
    } else {
      HasOutput(m[t], t);
      assert Outs(m[t], t) - {p} == Outs(m[t], t);
    }
  }

  /** A transaction loses its last output exactly when all its outputs are among those spent. */
  lemma {:induction false} LostInMeans(m: CoinMap, ps: seq<OutPoint>, t: Hash)
    requires Sound(m) && t in m && SpendAll(m, ps).Some?
    ensures var m2 := SpendAll(m, ps).value.0;
            var spent := AsSet(ps);
            && (t in LostIn(m, ps) <==> Outs(m[t], t) <= spent)
            && (t !in LostIn(m, ps) ==> t in m2 && Outs(m2[t], t) == Outs(m[t], t) - spent)
  {
    if ps == [] {
      HasOutput(m[t], t);
    } else {
      var p, m1 := ps[0], SpendAt(m, ps[0]).value.0;
      var rest := AsSet(ps[1..]);
      SpendAtMeans(m, p, t);
      if !(Outs(m[t], t) <= {p}) {
        LostInMeans(m1, ps[1..], t);
        assert Outs(m[t], t) - {p} - rest == Outs(m[t], t) - ({p} + rest);
      }
    }
  }

  lemma HasOutput(c: Coins, t: Hash)
    requires c.IsTrimmed() && !c.IsPruned()
    ensures Outs(c, t) != {}
  {
    assert OutPoint(t, |c.vout| - 1) in Outs(c, t);
  }

  lemma {:induction false} LostInBlockMeans(m: CoinMap, txs: seq<Tx>, height: int, maturity: int, t: Hash)
    requires Sound(m) && height > 0 && t in m && Connect(m, txs, height, maturity).Connected?
    ensures t in LostInBlock(m, txs, height, maturity) <==> Outs(m[t], t) <= SpentIn(txs)
    ensures t !in LostInBlock(m, txs, height, maturity) ==>
              var after := Connect(m, txs, height, maturity).view;
              t in after && Outs(after[t], t) == Outs(m[t], t) - SpentIn(txs)
    decreases |txs|
  {
    if txs == [] {
      HasOutput(m[t], t);
    } else {
      var m1 := ConnectTx(m, txs[0], height, maturity).view;
      TxUndone(m, txs[0], height, maturity, {}, true, true);
      LostByMeans(m, txs[0], height, maturity, t);
      if t !in LostBy(m, txs[0]) {
        LostInBlockMeans(m1, txs[1..], height, maturity, t);
      }
    }
  }

  lemma LostByMeans(m: CoinMap, tx: Tx, height: int, maturity: int, t: Hash)
    requires Sound(m) && height > 0 && t in m && ConnectTx(m, tx, height, maturity).TxConnected?
    ensures var m1 := ConnectTx(m, tx, height, maturity).view;
            && (t in LostBy(m, tx) <==> Outs(m[t], t) <= SpentBy(tx))
            && (t !in LostBy(m, tx) ==> t in m1 && Outs(m1[t], t) == Outs(m[t], t) - SpentBy(tx))
  {
    var c := FromTx(tx, height);
    if tx.SpendsCoins() {
      LostInMeans(m, Prevouts(tx.vin), t);
    } else {
      HasOutput(m[t], t);
    }
  }

  /** Undoing a block gives back exactly the coins there were if and only if the block spends
      not all unspent outputs of any coinstake. */
  lemma UndoExactly(m: CoinMap, txs: seq<Tx>, height: int, maturity: int)
    requires Sound(m) && height > 0 && maturity > 0 && Connect(m, txs, height, maturity).Connected?
    ensures var Connected(after, us) := Connect(m, txs, height, maturity);
            |us| == |txs| &&
            (Disconnect(Restored(after, true, true), txs, height, us) == Some(Restored(m, true, true))
             <==> forall t :: t in m && m[t].coinStake ==> !(Outs(m[t], t) <= SpentIn(txs)))
  {
    DisconnectUndoesConnect(m, txs, height, maturity);
    var lost := LostInBlock(m, txs, height, maturity);
    forall t | t in m
      ensures t in lost <==> Outs(m[t], t) <= SpentIn(txs)
    {
      LostInBlockMeans(m, txs, height, maturity, t);
    }
    StripIdentity(m, lost);
  }

  // ---- A run of blocks ----

  function SpentInChain(blocks: seq<seq<Tx>>): set<OutPoint> {
    if blocks == [] then {} else SpentIn(blocks[0]) + SpentInChain(blocks[1..])
  }

  /** No coinstake among the transactions has all its outputs in the set. */
  ghost predicate StakesSpared(txs: seq<Tx>, height: int, spent: set<OutPoint>) {
    forall j :: 0 <= j < |txs| && txs[j].IsCoinStake() ==> !(Outs(FromTx(txs[j], height), txs[j].hash) <= spent)
  }

  /** No block of the run has a coinstake whose outputs are all spent by the blocks after it. */
  ghost predicate Spared(blocks: seq<seq<Tx>>, height: int) {
    forall i :: 0 <= i < |blocks| ==> StakesSpared(blocks[i], height + i, SpentInChain(blocks[i + 1..]))
  }

  /** The transactions all of whose unspent outputs are in the set. */
  function Emptied(m: CoinMap, spent: set<OutPoint>): set<Hash> {
    set t | t in m && Outs(m[t], t) <= spent
  }

  lemma {:induction false} LostInChainMeans(m: CoinMap, blocks: seq<seq<Tx>>, height: int, maturity: int, t: Hash)
    requires Sound(m) && height > 0 && maturity > 0 && t in m
    requires ConnectChain(m, blocks, height, maturity).ChainConnected?
    ensures t in LostInChain(m, blocks, height, maturity) <==> Outs(m[t], t) <= SpentInChain(blocks)
    decreases |blocks|
  {
    if blocks == [] {
      HasOutput(m[t], t);
    } else {
      var m1 := Connect(m, blocks[0], height, maturity).view;
      DisconnectUndoesConnect(m, blocks[0], height, maturity);
      LostInBlockMeans(m, blocks[0], height, maturity, t);
      if t !in LostInBlock(m, blocks[0], height, maturity) {
        LostInChainMeans(m1, blocks[1..], height + 1, maturity, t);
      }
    }
  }

  /** The first output of a coinstake is kept, empty as it is. */
  lemma StakeKept(tx: Tx, height: int)
    requires tx.IsCoinStake()
    ensures MakesStake(tx, height) && OutPoint(tx.hash, 0) in Outs(FromTx(tx, height), tx.hash)
  {
    var v := NullUnspendable(tx.vout);
    assert v[0] == tx.vout[0];
    TrimKeeps(v, 0);
    AllNullMeans(FromTx(tx, height).vout);
  }

  lemma ConnectHead(m: CoinMap, txs: seq<Tx>, height: int, maturity: int)
    requires Sound(m) && height > 0 && txs != [] && Connect(m, txs, height, maturity).Connected?
    ensures ConnectTx(m, txs[0], height, maturity).TxConnected?
    ensures var m1 := ConnectTx(m, txs[0], height, maturity).view;
            && Sound(m1) && Connect(m1, txs[1..], height, maturity).Connected?
            && Connect(m1, txs[1..], height, maturity).view == Connect(m, txs, height, maturity).view
  {
    TxUndone(m, txs[0], height, maturity, {}, true, true);
  }

  /** The coins of a coinstake are too young to be touched in its own block. */
  lemma {:induction false} StakeStays(m: CoinMap, txs: seq<Tx>, height: int, maturity: int, j: nat)
    requires Sound(m) && height > 0 && maturity > 0 && Connect(m, txs, height, maturity).Connected?
    requires j < |txs| && txs[j].IsCoinStake()
    ensures var after := Connect(m, txs, height, maturity).view;
            txs[j].hash in after && after[txs[j].hash] == FromTx(txs[j], height)
    decreases j
  {
    if j == 0 {
      StakeKept(txs[0], height);
      OwnStakeKept(m, txs, height, maturity);
    } else {
      var m1, rest := ConnectTx(m, txs[0], height, maturity).view, txs[1..];
      assert rest[j - 1] == txs[j];
      ConnectHead(m, txs, height, maturity);
      StakeStays(m1, rest, height, maturity, j - 1);
    }
  }

  /** What the undo records say about the coinstakes of a block, read off the later blocks. */
  lemma StakesKnownMeans(m: CoinMap, txs: seq<Tx>, later: seq<seq<Tx>>, height: int, maturity: int)
    requires Sound(m) && height > 0 && maturity > 0 && Connect(m, txs, height, maturity).Connected?
    requires ConnectChain(Connect(m, txs, height, maturity).view, later, height + 1, maturity).ChainConnected?
    ensures var m1 := Connect(m, txs, height, maturity).view;
            StakesKnown(txs, height, LostInChain(m1, later, height + 1, maturity))
            <==> StakesSpared(txs, height, SpentInChain(later))
  {
    DisconnectUndoesConnect(m, txs, height, maturity);
    var m1 := Connect(m, txs, height, maturity).view;
    var lost := LostInChain(m1, later, height + 1, maturity);
    forall j | 0 <= j < |txs| && txs[j].IsCoinStake()
      ensures MakesStake(txs[j], height)
      ensures txs[j].hash in lost <==> Outs(FromTx(txs[j], height), txs[j].hash) <= SpentInChain(later)
    {
      StakeKept(txs[j], height);
      StakeStays(m, txs, height, maturity, j);
      LostInChainMeans(m1, later, height + 1, maturity, txs[j].hash);
    }
  }

  lemma SparedStep(blocks: seq<seq<Tx>>, height: int)
    requires blocks != []
    ensures Spared(blocks, height) <==>
            StakesSpared(blocks[0], height, SpentInChain(blocks[1..])) && Spared(blocks[1..], height + 1)
  {
    var rest := blocks[1..];
    forall i | 0 <= i < |rest|
      ensures rest[i] == blocks[i + 1] && rest[i + 1..] == blocks[i + 2..]
    {}
    if Spared(blocks, height) {
      forall i | 0 <= i < |rest|
        ensures StakesSpared(rest[i], height + 1 + i, SpentInChain(rest[i + 1..]))
      {
        assert StakesSpared(blocks[i + 1], height + (i + 1), SpentInChain(blocks[i + 1 + 1..]));
      }
      assert StakesSpared(blocks[0], height + 0, SpentInChain(blocks[0 + 1..]));
    } else {
      var i :| 0 <= i < |blocks| && !StakesSpared(blocks[i], height + i, SpentInChain(blocks[i + 1..]));
      assert i > 0 ==> !StakesSpared(rest[i - 1], height + 1 + (i - 1), SpentInChain(rest[i - 1 + 1..]));
    }
  }

  lemma {:induction false} OutliveMeans(m: CoinMap, blocks: seq<seq<Tx>>, height: int, maturity: int)
    requires Sound(m) && height > 0 && maturity > 0 && ConnectChain(m, blocks, height, maturity).ChainConnected?
    ensures StakesOutlive(m, blocks, height, maturity) <==> Spared(blocks, height)
    decreases |blocks|
  {
    if blocks != [] {
      DisconnectUndoesConnect(m, blocks[0], height, maturity);
      StakesKnownMeans(m, blocks[0], blocks[1..], height, maturity);
      OutliveMeans(Connect(m, blocks[0], height, maturity).view, blocks[1..], height + 1, maturity);
      SparedStep(blocks, height);
    }
  }

  /** A reorganisation that disconnects a run of blocks is clean if and only if no coinstake of the
      run has all its outputs spent by later blocks of the run. The coins are those before the run,
      less the stake flag of the transactions whose unspent outputs the run spends all. */
  lemma ReorgUndone(m: CoinMap, blocks: seq<seq<Tx>>, height: int, maturity: int)
    requires Sound(m) && height > 0 && maturity > 0 && ConnectChain(m, blocks, height, maturity).ChainConnected?
    ensures var ChainConnected(after, us) := ConnectChain(m, blocks, height, maturity);
            && |us| == |blocks| && (forall i :: 0 <= i < |us| ==> |blocks[i]| == |us[i]|)
            && DisconnectChain(Restored(after, true, true), blocks, height, us)
               == Some(Restored(Strip(m, Emptied(m, SpentInChain(blocks))), Spared(blocks, height), true))
    ensures Strip(m, Emptied(m, SpentInChain(blocks))) == m
            <==> forall t :: t in m && m[t].coinStake ==> !(Outs(m[t], t) <= SpentInChain(blocks))
  {
    ChainUndone(m, blocks, height, maturity);
    OutliveMeans(m, blocks, height, maturity);
    EmptiedLost(m, blocks, height, maturity);
    StripIdentity(m, Emptied(m, SpentInChain(blocks)));
  }

  lemma EmptiedLost(m: CoinMap, blocks: seq<seq<Tx>>, height: int, maturity: int)
    requires Sound(m) && height > 0 && maturity > 0 && ConnectChain(m, blocks, height, maturity).ChainConnected?
    ensures Strip(m, LostInChain(m, blocks, height, maturity)) == Strip(m, Emptied(m, SpentInChain(blocks)))
  {
    var lost := LostInChain(m, blocks, height, maturity);
    forall t | t in m
      ensures t in lost <==> t in Emptied(m, SpentInChain(blocks))
    {
      LostInChainMeans(m, blocks, height, maturity, t);
    }
    assert Strip(m, lost) == Strip(m, Emptied(m, SpentInChain(blocks)));
  }

  lemma StripIdentity(m: CoinMap, lost: set<Hash>)
    ensures Strip(m, lost) == m <==> forall t :: t in m && m[t].coinStake ==> t !in lost
  {
    var s := Strip(m, lost);
    if s == m {
      forall t | t in m && m[t].coinStake
        ensures t !in lost
      {
        assert s[t] == m[t];
      }
    } else if forall t :: t in m && m[t].coinStake ==> t !in lost {
      assert forall t :: t in m ==> s[t] == m[t];
    }
  }
}
