/** Disconnecting a block undoes connecting it, up to the one field the restore forgets. */
module UndoProof {
  import opened Transactions
  import opened Coins
  import opened CoinMap
  import opened Utxo

  /** Spent outputs are null outputs with nothing in them, and only the genesis block, whose
      outputs are never added, has height zero. */
  ghost predicate Canonical(c: Coins) {
    && c.height > 0
    && forall k :: 0 <= k < |c.vout| && c.vout[k].IsNull() ==> c.vout[k] == NULL_OUT
  }

  ghost predicate Sound(m: CoinMap) {
    && WellFormed(m)
    && forall t :: t in m ==> Canonical(m[t])
  }

  function Unstaked(c: Coins): Coins { c.(coinStake := false) }

  /** The map m with the stake flag of the listed transactions forgotten. */
  function Strip(m: CoinMap, lost: set<Hash>): (r: CoinMap)
    ensures r.Keys == m.Keys
    ensures forall t :: t in m ==> r[t] == if t in lost then Unstaked(m[t]) else m[t]
  {
    map t | t in m :: if t in lost then Unstaked(m[t]) else m[t]
  }

  // ---- One output ----

  lemma SpendShape(c: Coins, n: nat)
    requires c.IsTrimmed() && Spend(c, n).Some?
    ensures var (d, u) := Spend(c, n).value;
            && d.IsTrimmed() && u.out == c.vout[n] && !u.out.IsNull()
            && d.vout == Trim(c.vout[n := NULL_OUT])
            && d == c.(vout := d.vout)
            && (d.IsPruned() <==> d.vout == [])
            && u == if d.vout == [] then TxInUndo(c.vout[n], c.coinBase, c.coinStake, c.height, c.version)
                    else TxInUndo(c.vout[n], false, false, 0, 0)
  {}

  /** Refilling the hole gives back the outputs, however many null ones were cut off. */
  lemma RefillOutputs(c: Coins, n: nat, x: Coins)
    requires c.IsTrimmed() && Canonical(c) && n < |c.vout| && !c.vout[n].IsNull()
    requires x.vout == Trim(c.vout[n := NULL_OUT])
    ensures WithOutput(x, n, c.vout[n]).vout == c.vout
  {
    var v := c.vout[n := NULL_OUT];
    var w := WithOutput(x, n, c.vout[n]).vout;
    if n < |c.vout| - 1 {
      TrimmedIsFixed(v);
      assert v[n := c.vout[n]] == c.vout;
    } else {
      assert |w| == |c.vout|;
      forall k | 0 <= k < n
        ensures w[k] == c.vout[k]
      {
        assert v[k] == c.vout[k];
        if k >= |x.vout| {
          assert v[k].IsNull();
        }
      }
    }
  }

  lemma SpendKeepsCanonical(c: Coins, n: nat)
    requires c.IsTrimmed() && Canonical(c) && Spend(c, n).Some?
    ensures Canonical(Spend(c, n).value.0)
  {
    SpendShape(c, n);
    var d := Spend(c, n).value.0;
    forall k | 0 <= k < |d.vout| && d.vout[k].IsNull()
      ensures d.vout[k] == NULL_OUT
    {
      assert d.vout[k] == c.vout[n := NULL_OUT][k];
    }
  }

  lemma PutSound(m: CoinMap, t: Hash, c: Coins)
    requires Sound(m) && c.IsTrimmed() && (!c.IsPruned() ==> Canonical(c))
    ensures Sound(Put(m, t, c))
  {
    PutTrimmed(m, t, c);
  }

  /** The transactions whose last output is spent while spending ps. */
  function LostIn(m: CoinMap, ps: seq<OutPoint>): set<Hash> {
    if ps == [] then {}
    else
      match SpendAt(m, ps[0])
      case None => {}
      case Some((m1, u)) => (if u.height != 0 then {ps[0].hash} else {}) + LostIn(m1, ps[1..])
  }

  lemma StripPut(m: CoinMap, lost: set<Hash>, t: Hash, c: Coins)
    requires c.IsTrimmed()
    ensures Put(Strip(m, lost), t, if t in lost then Unstaked(c) else c) == Strip(Put(m, t, c), lost)
  {
    var d := if t in lost then Unstaked(c) else c;
    PutTrimmed(m, t, c);
    PutTrimmed(Strip(m, lost), t, d);
    if c.IsPruned() {
      assert Strip(m, lost) - {t} == Strip(m - {t}, lost);
    } else {
      assert Strip(m, lost)[t := d] == Strip(m[t := c], lost);
    }
  }

  lemma StripMore(m: CoinMap, lost: set<Hash>, t: Hash)
    requires t !in m
    ensures Strip(m, lost + {t}) == Strip(m, lost)
  {}

  /** One coin spent and restored; e is what the map holds for it in between. */
  lemma CoinRestored(c: Coins, n: nat, e: Coins)
    requires c.IsTrimmed() && Canonical(c) && Spend(c, n).Some?
    requires var (d, u) := Spend(c, n).value; e.vout == d.vout
    ensures var (d, u) := Spend(c, n).value;
            && WithOutput(UndoBase(e, u), n, u.out) == (if u.height != 0 then Unstaked(c) else e.(vout := c.vout))
            && !UndoBase(e, u).IsAvailable(n)
            && (u.height != 0 <==> e.IsPruned())
            && (u.height != 0 <==> d.IsPruned())
  {
    SpendShape(c, n);
    var (d, u) := Spend(c, n).value;
    RefillOutputs(c, n, UndoBase(e, u));
    assert n < |d.vout| ==> d.vout[n] == c.vout[n := NULL_OUT][n];
  }

  lemma SpendRestoreOne(m: CoinMap, lost: set<Hash>, p: OutPoint, clean: bool, exact: bool)
    requires Sound(m) && SpendAt(m, p).Some?
    ensures var (m1, u) := SpendAt(m, p).value;
            var lost' := if u.height != 0 then lost + {p.hash} else lost;
            && Sound(m1)
            && RestoreAt(Restored(Strip(m1, lost), clean, exact), p, u) == Restored(Strip(m, lost'), clean, exact)
  {
    var t := p.hash;
    var c := At(m, t);
    SpendShape(c, p.n);
    SpendKeepsCanonical(c, p.n);
    var (d, u) := Spend(c, p.n).value;
    var m1 := Put(m, t, d);
    PutSound(m, t, d);
    PutTrimmed(m, t, d);
    var e := At(Strip(m1, lost), t);
    assert e.vout == d.vout;
    CoinRestored(c, p.n, e);
    if u.height != 0 {
      StripMore(m1, lost, t);
      RestoreMap(m, m1, lost + {t}, t, c);
    } else {
      RestoreMap(m, m1, lost, t, c);
    }
  }

  lemma RestoreMap(m: CoinMap, m1: CoinMap, lost: set<Hash>, t: Hash, c: Coins)
    requires t in m && m[t] == c && m1 - {t} == m - {t} && c.IsTrimmed() && !c.IsPruned()
    ensures Put(Strip(m1, lost), t, if t in lost then Unstaked(c) else c) == Strip(m, lost)
  {
    StripPut(m1, lost, t, c);
    PutTrimmed(m1, t, c);
    assert m1[t := c] == (m1 - {t})[t := c];
    assert m == (m - {t})[t := c];
  }

  // ---- One transaction ----

  /** Spending never adds a transaction. */
  lemma {:induction false} SpendAllKeys(m: CoinMap, ps: seq<OutPoint>)
    requires Sound(m) && SpendAll(m, ps).Some?
    ensures SpendAll(m, ps).value.0.Keys <= m.Keys
  {
    if ps != [] {
      SpendRestoreOne(m, {}, ps[0], true, true);
      SpendShape(At(m, ps[0].hash), ps[0].n);
      SpendAllKeys(SpendAt(m, ps[0]).value.0, ps[1..]);
    }
  }

  /** What the first input adds to the transactions whose stake flag is lost. */
  lemma LostInHead(m: CoinMap, lost: set<Hash>, ps: seq<OutPoint>)
    requires ps != [] && SpendAt(m, ps[0]).Some?
    ensures var (m1, u) := SpendAt(m, ps[0]).value;
            var lost1 := lost + LostIn(m1, ps[1..]);
            lost + LostIn(m, ps) == if u.height != 0 then lost1 + {ps[0].hash} else lost1
  {
  }

  lemma SpendAllHead(m: CoinMap, ps: seq<OutPoint>)
    requires ps != [] && SpendAll(m, ps).Some?
    ensures SpendAt(m, ps[0]).Some?
    ensures var (m1, u) := SpendAt(m, ps[0]).value;
            && SpendAll(m1, ps[1..]).Some?
            && var (m2, us) := SpendAll(m1, ps[1..]).value;
               SpendAll(m, ps) == Some((m2, [u] + us)) && ([u] + us)[1..] == us
  {
  }

  lemma {:induction false} SpendRestoreAll(m: CoinMap, lost: set<Hash>, ps: seq<OutPoint>, clean: bool, exact: bool)
    requires Sound(m) && SpendAll(m, ps).Some?
    ensures var (m2, us) := SpendAll(m, ps).value;
            && Sound(m2) && |us| == |ps|
            && RestoreAll(Restored(Strip(m2, lost), clean, exact), ps, us)
               == Restored(Strip(m, lost + LostIn(m, ps)), clean, exact)
  {
    if ps == [] {
      assert lost + {} == lost;
    } else {
      SpendAllHead(m, ps);
      var (m1, u) := SpendAt(m, ps[0]).value;
      LostInHead(m, lost, ps);
      SpendRestoreOne(m, lost + LostIn(m1, ps[1..]), ps[0], clean, exact);
      SpendRestoreAll(m1, lost, ps[1..], clean, exact);
    }
  }

  function LostBy(m: CoinMap, tx: Tx): set<Hash> {
    if tx.SpendsCoins() then LostIn(m, Prevouts(tx.vin)) else {}
  }

  /** The transaction leaves unspent outputs marked as a coinstake's. */
  predicate MakesStake(tx: Tx, height: int) {
    tx.IsCoinStake() && !FromTx(tx, height).IsPruned()
  }

  lemma FromTxShape(tx: Tx, height: int)
    requires NoNegative(tx.vout) && height > 0
    ensures var c := FromTx(tx, height);
            && c.IsTrimmed() && Canonical(c) && WithoutUnspendable(c) == c &&
              WithoutUnspendable(Unstaked(c)) == Unstaked(c)
            && c.coinStake == tx.IsCoinStake()
  {
    var c := FromTx(tx, height);
    var raw := Coins(tx.IsCoinBase(), tx.IsCoinStake(), tx.vout, height, tx.version);
    WithoutUnspendableTwice(raw);
    WithoutUnspendableTwice(Unstaked(raw));
    assert Unstaked(c) == WithoutUnspendable(Unstaked(raw));
    forall k | 0 <= k < |c.vout| && c.vout[k].IsNull()
      ensures c.vout[k] == NULL_OUT
    {
      assert c.vout[k] == NullUnspendable(tx.vout)[k];
    }
  }

  /** The outputs the transaction added are recognised, unless their stake flag was lost, and removed. */
  lemma OutputsCleared(m1: CoinMap, tx: Tx, height: int, lost: set<Hash>, clean: bool, exact: bool)
    requires Sound(m1) && tx.hash !in m1 && NoNegative(tx.vout) && height > 0
    ensures var after := Put(m1, tx.hash, FromTx(tx, height));
            && Sound(after)
            && ClearOutputs(Restored(Strip(after, lost), clean, exact), tx, height)
               == Restored(Strip(m1, lost), clean && !(MakesStake(tx, height) && tx.hash in lost), exact)
  {
    var c := FromTx(tx, height);
    FromTxShape(tx, height);
    var after := Put(m1, tx.hash, c);
    PutSound(m1, tx.hash, c);
    PutTrimmed(m1, tx.hash, c);
    RemoveFromStrip(after, m1, lost, tx.hash);
    OutputsRecognised(tx, height, At(Strip(after, lost), tx.hash), tx.hash in lost);
  }

  lemma RemoveFromStrip(after: CoinMap, m1: CoinMap, lost: set<Hash>, t: Hash)
    requires t !in m1 && after - {t} == m1
    ensures Put(Strip(after, lost), t, EMPTY) == Strip(m1, lost)
  {
    assert EMPTY.IsPruned();
    forall u | u in m1
      ensures u != t && after[u] == m1[u]
    {
      assert u in after - {t} && (after - {t})[u] == m1[u];
    }
    assert (Strip(after, lost) - {t}).Keys == m1.Keys;
  }

  /** The check of DisconnectBlock on the coins e it finds for a transaction of the block. */
  lemma OutputsRecognised(tx: Tx, height: int, e: Coins, lost: bool)
    requires NoNegative(tx.vout) && height > 0
    requires var c := FromTx(tx, height);
             e == if c.IsPruned() then EMPTY else if lost then Unstaked(c) else c
    ensures var c := FromTx(tx, height);
            var outs := WithoutUnspendable(e);
            (if c.version < 0 then outs.(version := c.version) else outs).Same(c) <==> !(MakesStake(tx, height) && lost)
  {
    FromTxShape(tx, height);
    assert NullUnspendable([]) == [];
  }

  lemma TxUndone(m: CoinMap, tx: Tx, height: int, maturity: int, lost: set<Hash>, clean: bool, exact: bool)
    requires Sound(m) && height > 0 && ConnectTx(m, tx, height, maturity).TxConnected?
    ensures var TxConnected(after, us) := ConnectTx(m, tx, height, maturity);
            && Sound(after)
            && DisconnectTx(Restored(Strip(after, lost), clean, exact), tx, height, us)
               == Some(Restored(Strip(m, lost + LostBy(m, tx)), clean &&
                                !(MakesStake(tx, height) && tx.hash in lost), exact))
  {
    var ok := clean && !(MakesStake(tx, height) && tx.hash in lost);
    if tx.SpendsCoins() {
      var ps := Prevouts(tx.vin);
      var (m1, us) := SpendAll(m, ps).value;
      SpendAllKeys(m, ps);
      SpendRestoreAll(m, lost, ps, ok, exact);
      OutputsCleared(m1, tx, height, lost, clean, exact);
    } else {
      OutputsCleared(m, tx, height, lost, clean, exact);
      assert lost + {} == lost;
    }
  }

  // ---- The block ----

  /** The transactions whose last output is spent while connecting the block. */
  function LostInBlock(m: CoinMap, txs: seq<Tx>, height: int, maturity: int): set<Hash>
    decreases |txs|
  {
    if txs == [] then {}
    else
      match ConnectTx(m, txs[0], height, maturity)
      case TxRejected(_) => {}
      case TxConnected(m1, _) => LostBy(m, txs[0]) + LostInBlock(m1, txs[1..], height, maturity)
  }

  lemma {:induction false} SpendPersists(m: CoinMap, ps: seq<OutPoint>, t: Hash)
    requires Sound(m) && t in m && SpendAll(m, ps).Some?
    requires forall i :: 0 <= i < |ps| ==> ps[i].hash != t
    ensures var m2 := SpendAll(m, ps).value.0; t in m2 && m2[t] == m[t] && t !in LostIn(m, ps)
  {
    if ps != [] {
      SpendRestoreOne(m, {}, ps[0], true, true);
      SpendShape(At(m, ps[0].hash), ps[0].n);
      SpendPersists(SpendAt(m, ps[0]).value.0, ps[1..], t);
    }
  }

  /** Coins too young to be spent are still there at the end of the block. */
  lemma {:induction false} YoungStakePersists(m: CoinMap, txs: seq<Tx>, height: int, maturity: int, t: Hash)
    requires Sound(m) && height > 0 && Connect(m, txs, height, maturity).Connected?
    requires t in m && m[t].coinStake && height - m[t].height < maturity
    ensures t !in LostInBlock(m, txs, height, maturity)
    ensures var after := Connect(m, txs, height, maturity).view; t in after && after[t] == m[t]
    decreases |txs|
  {
    if txs != [] {
      var TxConnected(m1, us) := ConnectTx(m, txs[0], height, maturity);
      TxUndone(m, txs[0], height, maturity, {}, true, true);
      if txs[0].SpendsCoins() {
        var ps := Prevouts(txs[0].vin);
        assert Mature(m, ps, height, maturity);
        SpendPersists(m, ps, t);
      }
      assert t in m1 && m1[t] == m[t];
      YoungStakePersists(m1, txs[1..], height, maturity, t);
    }
  }

  /** A coinstake of the block is too young to be spent in it. */
  lemma OwnStakeKept(m: CoinMap, txs: seq<Tx>, height: int, maturity: int)
    requires Sound(m) && height > 0 && maturity > 0 && txs != [] && Connect(m, txs, height, maturity).Connected?
    requires MakesStake(txs[0], height)
    ensures txs[0].hash !in LostInBlock(ConnectTx(m, txs[0], height, maturity).view, txs[1..], height, maturity)
    ensures var after := Connect(m, txs, height, maturity).view;
            txs[0].hash in after && after[txs[0].hash] == FromTx(txs[0], height)
  {
    var m1 := ConnectTx(m, txs[0], height, maturity).view;
    var c := FromTx(txs[0], height);
    FromTxShape(txs[0], height);
    TxUndone(m, txs[0], height, maturity, {}, true, true);
    var t := txs[0].hash;
    assert t in m1 && m1[t] == c by {
      var m0 := if txs[0].SpendsCoins() then SpendAll(m, Prevouts(txs[0].vin)).value.0 else m;
      assert m1 == Put(m0, t, c);
      PutTrimmed(m0, t, c);
    }
    YoungStakePersists(m1, txs[1..], height, maturity, t);
  }

  /** No coinstake of the block is among those whose stake flag was lost. */
  ghost predicate StakesKnown(txs: seq<Tx>, height: int, lost: set<Hash>) {
    forall i :: 0 <= i < |txs| && MakesStake(txs[i], height) ==> txs[i].hash !in lost
  }

  lemma StakesKnownStep(txs: seq<Tx>, height: int, lost: set<Hash>)
    requires txs != []
    ensures StakesKnown(txs, height, lost) <==>
            StakesKnown(txs[1..], height, lost) && (MakesStake(txs[0], height) ==> txs[0].hash !in lost)
  {
    assert txs == [txs[0]] + txs[1..];
  }

  lemma HeadUndone(m: CoinMap, txs: seq<Tx>, height: int, maturity: int, lost: set<Hash>, clean: bool, exact: bool)
    requires Sound(m) && height > 0 && maturity > 0 && txs != [] && Connect(m, txs, height, maturity).Connected?
    ensures var TxConnected(m1, u) := ConnectTx(m, txs[0], height, maturity);
            var later := LostInBlock(m1, txs[1..], height, maturity);
            && Sound(m1)
            && DisconnectTx(Restored(Strip(m1, lost + later), clean, exact), txs[0], height, u)
               == Some(Restored(Strip(m, lost + LostInBlock(m, txs, height, maturity)),
                                clean && (MakesStake(txs[0], height) ==> txs[0].hash !in lost), exact))
  {
    var TxConnected(m1, u) := ConnectTx(m, txs[0], height, maturity);
    var later := LostInBlock(m1, txs[1..], height, maturity);
    TxUndone(m, txs[0], height, maturity, lost + later, clean, exact);
    if MakesStake(txs[0], height) {
      OwnStakeKept(m, txs, height, maturity);
    }
    assert lost + later + LostBy(m, txs[0]) == lost + LostInBlock(m, txs, height, maturity);
  }

  /** Disconnecting a block from a map whose stake flags are partly forgotten. */
  lemma {:induction false} BlockUndone(m: CoinMap, txs: seq<Tx>, height: int, maturity: int, lost: set<Hash>,
                                       clean: bool, exact: bool)
    requires Sound(m) && height > 0 && maturity > 0 && Connect(m, txs, height, maturity).Connected?
    ensures var Connected(after, us) := Connect(m, txs, height, maturity);
            && Sound(after) && |us| == |txs|
            && Disconnect(Restored(Strip(after, lost), clean, exact), txs, height, us)
               == Some(Restored(Strip(m, lost + LostInBlock(m, txs, height, maturity)),
                                clean && StakesKnown(txs, height, lost), exact))
    decreases |txs|
  {
    if txs == [] {
      assert lost + {} == lost;
    } else {
      var TxConnected(m1, u) := ConnectTx(m, txs[0], height, maturity);
      var Connected(after, us) := Connect(m1, txs[1..], height, maturity);
      assert Connect(m, txs, height, maturity) == Connected(after, [u] + us);
      HeadUndone(m, txs, height, maturity, lost, clean && StakesKnown(txs[1..], height, lost), exact);
      BlockUndone(m1, txs[1..], height, maturity, lost, clean, exact);
      UndoStep(Restored(Strip(after, lost), clean, exact), txs, height, u, us);
      StakesKnownStep(txs, height, lost);
    }
  }

  lemma UndoStep(s: Restored, txs: seq<Tx>, height: int, u: TxUndo, us: seq<TxUndo>)
    requires txs != [] && |us| == |txs| - 1
    ensures Disconnect(s, txs, height, [u] + us) ==
            match Disconnect(s, txs[1..], height, us)
            case None => None
            case Some(s1) => DisconnectTx(s1, txs[0], height, u)
  {
    assert ([u] + us)[1..] == us;
  }

  /** Connecting a block and disconnecting it with its undo data reports clean and gives back
      every coin, except that a coinstake whose last output was spent is no longer marked as one. */
  lemma DisconnectUndoesConnect(m: CoinMap, txs: seq<Tx>, height: int, maturity: int)
    requires Sound(m) && height > 0 && maturity > 0 && Connect(m, txs, height, maturity).Connected?
    ensures var Connected(after, us) := Connect(m, txs, height, maturity);
            && Sound(after) && |us| == |txs|
            && Disconnect(Restored(after, true, true), txs, height, us)
               == Some(Restored(Strip(m, LostInBlock(m, txs, height, maturity)), true, true))
  {
    BlockUndone(m, txs, height, maturity, {}, true, true);
    var Connected(after, _) := Connect(m, txs, height, maturity);
    assert Strip(after, {}) == after;
    assert {} + LostInBlock(m, txs, height, maturity) == LostInBlock(m, txs, height, maturity);
  }

  // ---- A run of blocks ----

  datatype ChainOutcome = ChainRejected | ChainConnected(view: CoinMap, undo: seq<seq<TxUndo>>)

  /** Blocks connected one after the other, the first at the given height. */
  function ConnectChain(m: CoinMap, blocks: seq<seq<Tx>>, height: int, maturity: int): ChainOutcome
    decreases |blocks|
  {
    if blocks == [] then ChainConnected(m, [])
    else
      match Connect(m, blocks[0], height, maturity)
      case Rejected(_) => ChainRejected
      case Connected(m1, u) =>
        match ConnectChain(m1, blocks[1..], height + 1, maturity)
        case ChainRejected => ChainRejected
        case ChainConnected(v, us) => ChainConnected(v, [u] + us)
  }

  /** The same blocks disconnected, the last one first. */
  function DisconnectChain(s: Restored, blocks: seq<seq<Tx>>, height: int, us: seq<seq<TxUndo>>): Option<Restored>
    requires |blocks| == |us|
    requires forall i :: 0 <= i < |us| ==> |blocks[i]| == |us[i]|
    decreases |blocks|
  {
    if blocks == [] then Some(s)
    else
      match DisconnectChain(s, blocks[1..], height + 1, us[1..])
      case None => None
      case Some(s1) => Disconnect(s1, blocks[0], height, us[0])
  }

  function LostInChain(m: CoinMap, blocks: seq<seq<Tx>>, height: int, maturity: int): set<Hash>
    decreases |blocks|
  {
    if blocks == [] then {}
    else
      match Connect(m, blocks[0], height, maturity)
      case Rejected(_) => {}
      case Connected(m1, _) =>
        LostInBlock(m, blocks[0], height, maturity) + LostInChain(m1, blocks[1..], height + 1, maturity)
  }

  /** No coinstake of the run has its last output spent by a later block of the run. */
  ghost predicate StakesOutlive(m: CoinMap, blocks: seq<seq<Tx>>, height: int, maturity: int)
    decreases |blocks|
  {
    blocks != [] && Connect(m, blocks[0], height, maturity).Connected? ==>
      var m1 := Connect(m, blocks[0], height, maturity).view;
      && StakesKnown(blocks[0], height, LostInChain(m1, blocks[1..], height + 1, maturity))
      && StakesOutlive(m1, blocks[1..], height + 1, maturity)
  }

  lemma {:induction false} ChainUndoShape(m: CoinMap, blocks: seq<seq<Tx>>, height: int, maturity: int)
    requires Sound(m) && height > 0 && maturity > 0 && ConnectChain(m, blocks, height, maturity).ChainConnected?
    ensures var ChainConnected(after, us) := ConnectChain(m, blocks, height, maturity);
            && Sound(after) && |us| == |blocks|
            && forall i :: 0 <= i < |us| ==> |blocks[i]| == |us[i]|
    decreases |blocks|
  {
    if blocks != [] {
      var Connected(m1, u) := Connect(m, blocks[0], height, maturity);
      DisconnectUndoesConnect(m, blocks[0], height, maturity);
      ChainUndoShape(m1, blocks[1..], height + 1, maturity);
      var ChainConnected(after, us) := ConnectChain(m1, blocks[1..], height + 1, maturity);
      forall i | 0 <= i < |us| + 1
        ensures |blocks[i]| == |([u] + us)[i]|
      {
        assert i > 0 ==> blocks[i] == blocks[1..][i - 1];
      }
    }
  }

  /** A run of blocks disconnected again gives back the coins up to stake flags, and is clean if
      and only if no coinstake of it lost its last output on the way. */
  lemma {:induction false} ChainUndone(m: CoinMap, blocks: seq<seq<Tx>>, height: int, maturity: int)
    requires Sound(m) && height > 0 && maturity > 0 && ConnectChain(m, blocks, height, maturity).ChainConnected?
    ensures var ChainConnected(after, us) := ConnectChain(m, blocks, height, maturity);
            && |us| == |blocks| && (forall i :: 0 <= i < |us| ==> |blocks[i]| == |us[i]|)
            && DisconnectChain(Restored(after, true, true), blocks, height, us)
               == Some(Restored(Strip(m, LostInChain(m, blocks, height, maturity)),
                                StakesOutlive(m, blocks, height, maturity), true))
    decreases |blocks|
  {
    ChainUndoShape(m, blocks, height, maturity);
    if blocks == [] {
      assert Strip(m, {}) == m;
    } else {
      var Connected(m1, u) := Connect(m, blocks[0], height, maturity);
      var ChainConnected(after, us) := ConnectChain(m1, blocks[1..], height + 1, maturity);
      DisconnectUndoesConnect(m, blocks[0], height, maturity);
      ChainUndone(m1, blocks[1..], height + 1, maturity);
      var later := LostInChain(m1, blocks[1..], height + 1, maturity);
      BlockUndone(m, blocks[0], height, maturity, later, StakesOutlive(m1, blocks[1..], height + 1, maturity), true);
      assert ([u] + us)[1..] == us;
      assert later + LostInBlock(m, blocks[0], height, maturity) == LostInChain(m, blocks, height, maturity);
    }
  }
}
