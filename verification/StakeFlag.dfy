/** Blocks of the proof-of-stake phase whose disconnection fails: the coinstake of the first is
    spent, with its empty output, as soon as it is mature. */
module StakeFlag {
  import opened Sets
  import opened Transactions
  import opened Coins
  import opened CoinMap
  import opened Utxo
  import opened UndoProof
  import opened UndoExact
  import opened Supply

  // ---- What a block must look like before it is connected ----

  /** CheckTransaction, for transactions without zerocoins. */
  ghost predicate TxChecked(tx: Tx, maxMoney: int) {
    && tx.vin != [] && tx.vout != [] && !tx.ContainsZerocoins()
    && (!tx.IsCoinBase() && !tx.IsCoinStake() ==> forall k :: 0 <= k < |tx.vout| ==> !tx.vout[k].IsEmpty())
    && NoNegative(tx.vout) && ValueOut(tx.vout) <= maxMoney
    && Distinct(Prevouts(tx.vin))
    && (!tx.IsCoinBase() ==> forall k :: 0 <= k < |tx.vin| ==> !tx.vin[k].prevout.IsNull())
  }

  /** CheckBlock on the transactions of a proof-of-stake block. */
  ghost predicate StakeBlockChecked(txs: seq<Tx>, maxMoney: int) {
    && |txs| >= 2 && (forall j :: 0 <= j < |txs| ==> TxChecked(txs[j], maxMoney))
    && txs[0].IsCoinBase() && |txs[0].vout| == 1 && txs[0].vout[0].IsEmpty()
    && (forall j :: 1 <= j < |txs| ==> !txs[j].IsCoinBase())
    && txs[1].IsCoinStake() && (forall j :: 2 <= j < |txs| ==> !txs[j].IsCoinStake())
  }

  // ---- The blocks ----

  function Spends(t: Hash, n: nat): TxIn { TxIn(OutPoint(t, n), false, 0xFFFF_FFFF, 0) }

  const SPENDER: Hash := 4

  /** The maturity of coinstakes, the height of the first block, and the value and the script of
      the coins that are moved. */
  datatype Setting = Setting(maturity: nat, height: int, value: int, script: Script) {

    ghost predicate Ordinary() {
      && maturity > 0 && height > 1 && value >= 0
      && script != [] && !IsUnspendable(script) && !IsZerocoinMint(script)
    }

    function Old(i: nat): Hash { 4 * i + 1 }
    function Base(i: nat): Hash { 4 * i + 2 }
    function Stake(i: nat): Hash { 4 * i + 3 }

    function Out(): TxOut { TxOut(value, script) }
    function OldCoins(): Coins { Coins(false, false, [Out()], 1, 1) }
    function StakeCoins(): Coins { Coins(false, true, [TxOut(0, []), Out()], height, 1) }

    function Coinbase(i: nat): Tx {
      Tx(Base(i), 1, [TxIn(OutPoint(0, NULL_INDEX), false, 0xFFFF_FFFF, 0)], [TxOut(0, [])])
    }

    function Coinstake(i: nat): Tx { Tx(Stake(i), 1, [Spends(Old(i), 0)], [TxOut(0, []), Out()]) }

    /** Takes both outputs of the first coinstake. */
    function Spender(): Tx { Tx(SPENDER, 1, [Spends(Stake(0), 0), Spends(Stake(0), 1)], [Out()]) }

    function Block(i: nat): seq<Tx> {
      [Coinbase(i), Coinstake(i)] + if i == maturity then [Spender()] else []
    }

    /** The blocks from number i to the one in which the first coinstake is mature. */
    function BlocksFrom(i: nat): seq<seq<Tx>>
      decreases maturity + 1 - i
    {
      if i > maturity then [] else [Block(i)] + BlocksFrom(i + 1)
    }

    function Start(): (m: CoinMap)
      ensures forall t :: t in m <==> exists i :: 0 <= i <= maturity && t == Old(i)
      ensures forall t :: t in m ==> m[t] == OldCoins()
    {
      map i | 0 <= i <= maturity :: Old(i) := OldCoins()
    }

    /** The map before block i. */
    ghost predicate Ready(m: CoinMap, i: nat) {
      && Sound(m) && SPENDER !in m
      && (forall k: nat {:trigger Old(k)} :: i <= k <= maturity ==> Old(k) in m && m[Old(k)] == OldCoins())
      && (forall k: nat {:trigger Base(k)} :: i <= k ==> Base(k) !in m)
      && (forall k: nat {:trigger Stake(k)} :: i <= k ==> Stake(k) !in m)
      && (i > 0 ==> Stake(0) in m && m[Stake(0)] == StakeCoins())
    }
  }

  lemma Values(a: TxOut, b: TxOut)
    ensures ValueOut([a]) == a.value && ValueOut([a, b]) == a.value + b.value
  {
    assert [a][..0] == [] && [a, b][..1] == [a];
  }

  lemma TxsChecked(s: Setting, i: nat)
    requires s.Ordinary()
    ensures TxChecked(s.Coinbase(i), s.value) && TxChecked(s.Coinstake(i), s.value) && TxChecked(s.Spender(), s.value)
  {
    Values(TxOut(0, []), s.Out());
    Values(s.Out(), s.Out());
  }

  lemma BlockChecked(s: Setting, i: nat)
    requires s.Ordinary()
    ensures StakeBlockChecked(s.Block(i), s.value)
  {
    TxsChecked(s, i);
  }

  // ---- Connecting them ----

  /** The coins t are not among those the transaction names. */
  ghost predicate Untouched(tx: Tx, t: Hash) {
    forall k :: 0 <= k < |tx.vin| ==> tx.vin[k].prevout.hash != t
  }

  ghost predicate Turns(m: CoinMap, tx: Tx, height: int, maturity: int, m1: CoinMap) {
    var o := ConnectTx(m, tx, height, maturity);
    o.TxConnected? && o.view == m1
  }

  ghost predicate TurnsAll(m: CoinMap, txs: seq<Tx>, height: int, maturity: int, m1: CoinMap) {
    var o := Connect(m, txs, height, maturity);
    o.Connected? && o.view == m1
  }

  /** What a transaction does to the map, as far as it matters here. */
  ghost predicate Added(m: CoinMap, m1: CoinMap, tx: Tx, c: Coins) {
    && Sound(m1) && m1.Keys <= m.Keys + {tx.hash}
    && tx.hash in m1 && m1[tx.hash] == c
    && forall t {:trigger Untouched(tx, t)} :: t in m && Untouched(tx, t) ==> t in m1 && m1[t] == m[t]
  }

  lemma InputsSpent(m: CoinMap, tx: Tx)
    requires Sound(m) && (tx.SpendsCoins() ==> SpendAll(m, Prevouts(tx.vin)).Some?)
    ensures AfterInputs(m, tx).Keys <= m.Keys
    ensures forall t {:trigger Untouched(tx, t)} :: t in m && Untouched(tx, t) ==>
              t in AfterInputs(m, tx) && AfterInputs(m, tx)[t] == m[t]
  {
    if tx.SpendsCoins() {
      var ps := Prevouts(tx.vin);
      SpendAllKeys(m, ps);
      forall t | t in m && Untouched(tx, t)
        ensures t in AfterInputs(m, tx) && AfterInputs(m, tx)[t] == m[t]
      {
        SpendPersists(m, ps, t);
      }
    }
  }

  /** A transaction that passes the checks adds its coins and touches only those it spends. */
  lemma Applied(m: CoinMap, tx: Tx, height: int, maturity: int, c: Coins) returns (m1: CoinMap)
    requires Sound(m) && height > 0 && tx.hash !in m && NoNegative(tx.vout)
    requires FromTx(tx, height) == c && c.IsTrimmed() && !c.IsPruned()
    requires Plain(tx)
    requires tx.SpendsCoins() ==> Available(m, Prevouts(tx.vin)) && Mature(m, Prevouts(tx.vin), height, maturity)
    ensures Turns(m, tx, height, maturity, m1)
    ensures Added(m, m1, tx, c)
  {
    Accepted(m, tx, height, maturity);
    m1 := ConnectTx(m, tx, height, maturity).view;
    TxUndone(m, tx, height, maturity, {}, true, true);
    AcceptedTx(m, tx, height, maturity);
    InputsSpent(m, tx);
    PutTrimmed(AfterInputs(m, tx), tx.hash, c);
  }

  lemma NothingUnspendable(tx: Tx, height: int)
    requires tx.vout != [] && NoNegative(tx.vout)
    requires forall k :: 0 <= k < |tx.vout| ==> !IsUnspendable(tx.vout[k].script)
    ensures FromTx(tx, height) == Coins(tx.IsCoinBase(), tx.IsCoinStake(), tx.vout, height, tx.version)
    ensures FromTx(tx, height).IsTrimmed() && !FromTx(tx, height).IsPruned()
  {
    assert NullUnspendable(tx.vout) == tx.vout;
    TrimmedIsFixed(tx.vout);
  }

  lemma CoinbaseApplied(s: Setting, m: CoinMap, i: nat, height: int) returns (m1: CoinMap)
    requires height == s.height + i && s.Ordinary() && i <= s.maturity && s.Ready(m, i)
    ensures Turns(m, s.Coinbase(i), height, s.maturity, m1)
    ensures Sound(m1) && m1.Keys <= m.Keys + {s.Base(i)}
    ensures forall t :: t in m && t != 0 ==> t in m1 && m1[t] == m[t]
  {
    var tx := s.Coinbase(i);
    NothingUnspendable(tx, height);
    assert s.Base(i) !in m;
    m1 := Applied(m, tx, height, s.maturity, FromTx(tx, height));
    forall t | t in m && t != 0
      ensures t in m1 && m1[t] == m[t]
    {
      assert Untouched(tx, t);
    }
  }

  lemma CoinstakeApplied(s: Setting, m: CoinMap, i: nat, height: int) returns (m1: CoinMap)
    requires height == s.height + i && s.Ordinary() && Sound(m) && s.Stake(i) !in m && s.Old(i) in m
    requires m[s.Old(i)] == s.OldCoins()
    ensures Turns(m, s.Coinstake(i), height, s.maturity, m1)
    ensures Sound(m1) && m1.Keys <= m.Keys + {s.Stake(i)}
    ensures s.Stake(i) in m1 && (i == 0 ==> m1[s.Stake(i)] == s.StakeCoins())
    ensures forall t :: t in m && t != s.Old(i) ==> t in m1 && m1[t] == m[t]
  {
    var tx := s.Coinstake(i);
    NothingUnspendable(tx, height);
    var ps := Prevouts(tx.vin);
    assert ps == [OutPoint(s.Old(i), 0)] && ps[1..] == [];
    m1 := Applied(m, tx, height, s.maturity, FromTx(tx, height));
    forall t | t in m && t != s.Old(i)
      ensures t in m1 && m1[t] == m[t]
    {
      assert Untouched(tx, t);
    }
  }

  /** The coins of the first coinstake are mature and can all be spent. */
  lemma SpenderApplied(s: Setting, m: CoinMap, height: int) returns (m1: CoinMap)
    requires height == s.height + s.maturity && s.Ordinary() && s.Ready(m, s.maturity + 1)
    ensures Turns(m, s.Spender(), height, s.maturity, m1)
  {
    var tx := s.Spender();
    var ps := Prevouts(tx.vin);
    assert ps[1..] == [OutPoint(s.Stake(0), 1)] && ps[1..][1..] == [];
    assert At(m, s.Stake(0)) == s.StakeCoins();
    NothingUnspendable(tx, height);
    m1 := Applied(m, tx, height, s.maturity, FromTx(tx, height));
  }

  /** The coinbase and the coinstake of block i. */
  lemma PairApplied(s: Setting, m: CoinMap, i: nat, height: int) returns (m1: CoinMap, m2: CoinMap)
    requires height == s.height + i && s.Ordinary() && i <= s.maturity && s.Ready(m, i)
    ensures Turns(m, s.Coinbase(i), height, s.maturity, m1)
    ensures Turns(m1, s.Coinstake(i), height, s.maturity, m2)
    ensures s.Ready(m2, i + 1)
  {
    m1 := CoinbaseApplied(s, m, i, height);
    assert s.Old(i) in m && s.Stake(i) !in m;
    m2 := CoinstakeApplied(s, m1, i, height);
  }

  lemma TurnsMore(m: CoinMap, tx: Tx, m1: CoinMap, txs: seq<Tx>, height: int, maturity: int, m2: CoinMap)
    requires Turns(m, tx, height, maturity, m1) && TurnsAll(m1, txs, height, maturity, m2)
    ensures TurnsAll(m, [tx] + txs, height, maturity, m2)
  {
    assert ([tx] + txs)[0] == tx && ([tx] + txs)[1..] == txs;
  }

  lemma TurnsNone(m: CoinMap, height: int, maturity: int)
    ensures TurnsAll(m, [], height, maturity, m)
  {}

  lemma TurnsPair(m: CoinMap, a: Tx, m1: CoinMap, b: Tx, m2: CoinMap, last: seq<Tx>, height: int, maturity: int,
                  m3: CoinMap)
    requires Turns(m, a, height, maturity, m1) && Turns(m1, b, height, maturity, m2)
    requires TurnsAll(m2, last, height, maturity, m3)
    ensures TurnsAll(m, [a, b] + last, height, maturity, m3)
  {
    TurnsMore(m1, b, m2, last, height, maturity, m3);
    TurnsMore(m, a, m1, [b] + last, height, maturity, m3);
    assert [a, b] + last == [a] + ([b] + last);
  }

  /** A block before the last one. */
  lemma BlockConnects(s: Setting, m: CoinMap, i: nat, height: int) returns (m2: CoinMap)
    requires height == s.height + i && s.Ordinary() && i < s.maturity && s.Ready(m, i)
    ensures TurnsAll(m, s.Block(i), height, s.maturity, m2) && s.Ready(m2, i + 1)
  {
    var m1;
    m1, m2 := PairApplied(s, m, i, height);
    TurnsNone(m2, height, s.maturity);
    TurnsPair(m, s.Coinbase(i), m1, s.Coinstake(i), m2, [], height, s.maturity, m2);
  }

  lemma LastConnects(s: Setting, m: CoinMap, i: nat, height: int) returns (m3: CoinMap)
    requires height == s.height + i && s.Ordinary() && i == s.maturity && s.Ready(m, i)
    ensures TurnsAll(m, s.Block(i), height, s.maturity, m3)
  {
    var m1, m2 := PairApplied(s, m, i, height);
    m3 := SpenderApplied(s, m2, height);
    TurnsNone(m3, height, s.maturity);
    TurnsMore(m2, s.Spender(), m3, [], height, s.maturity, m3);
    var last := [s.Spender()];
    assert last + [] == last;
    TurnsPair(m, s.Coinbase(i), m1, s.Coinstake(i), m2, last, height, s.maturity, m3);
  }

  ghost predicate Runs(m: CoinMap, blocks: seq<seq<Tx>>, height: int, maturity: int) {
    ConnectChain(m, blocks, height, maturity).ChainConnected?
  }

  lemma ChainMore(m: CoinMap, txs: seq<Tx>, m1: CoinMap, later: seq<seq<Tx>>, height: int, maturity: int)
    requires TurnsAll(m, txs, height, maturity, m1)
    requires Runs(m1, later, height + 1, maturity)
    ensures Runs(m, [txs] + later, height, maturity)
  {
    assert ([txs] + later)[0] == txs && ([txs] + later)[1..] == later;
  }

  lemma NoBlocks(m: CoinMap, later: seq<seq<Tx>>, height: int, maturity: int)
    requires later == []
    ensures Runs(m, later, height, maturity)
  {}

  lemma {:induction false} ChainConnects(s: Setting, m: CoinMap, i: nat, height: int)
    requires s.Ordinary() && i <= s.maturity && s.Ready(m, i) && height == s.height + i
    ensures Runs(m, s.BlocksFrom(i), height, s.maturity)
    decreases s.maturity - i
  {
    var m1;
    if i < s.maturity {
      m1 := BlockConnects(s, m, i, height);
      ChainConnects(s, m1, i + 1, height + 1);
    } else {
      m1 := LastConnects(s, m, i, height);
      NoBlocks(m1, s.BlocksFrom(i + 1), height + 1, s.maturity);
    }
    ChainMore(m, s.Block(i), m1, s.BlocksFrom(i + 1), height, s.maturity);
  }

  lemma StartReady(s: Setting)
    requires s.Ordinary()
    ensures s.Ready(s.Start(), 0)
  {}

  // ---- Disconnecting them ----

  lemma {:induction false} StakeSpent(s: Setting, i: nat, n: nat)
    requires i <= s.maturity && n < 2
    ensures OutPoint(s.Stake(0), n) in SpentInChain(s.BlocksFrom(i))
    decreases s.maturity - i
  {
    assert s.BlocksFrom(i)[0] == s.Block(i) && s.BlocksFrom(i)[1..] == s.BlocksFrom(i + 1);
    if i < s.maturity {
      StakeSpent(s, i + 1, n);
    } else {
      var txs := s.Block(i);
      assert txs[1..][1..] == [s.Spender()];
      assert Prevouts(s.Spender().vin)[n] == OutPoint(s.Stake(0), n);
      assert SpentIn(txs[1..][1..]) == SpentBy(s.Spender()) + SpentIn([s.Spender()][1..]);
      assert SpentIn(txs[1..]) == SpentBy(txs[1]) + SpentIn(txs[1..][1..]);
    }
  }

  lemma {:induction false} AllChecked(s: Setting, i: nat)
    requires s.Ordinary()
    ensures forall k :: 0 <= k < |s.BlocksFrom(i)| ==> StakeBlockChecked(s.BlocksFrom(i)[k], s.value)
    decreases s.maturity + 1 - i
  {
    if i <= s.maturity {
      BlockChecked(s, i);
      AllChecked(s, i + 1);
    }
  }

  /** For every maturity there are well-formed proof-of-stake blocks that connect one after the
      other and whose disconnection is reported unclean. */
  lemma StakeFlagForgotten(s: Setting)
    requires s.Ordinary()
    ensures var m, blocks := s.Start(), s.BlocksFrom(0);
            && Sound(m)
            && (forall k :: 0 <= k < |blocks| ==> StakeBlockChecked(blocks[k], s.value))
            && ConnectChain(m, blocks, s.height, s.maturity).ChainConnected?
            && var ChainConnected(after, us) := ConnectChain(m, blocks, s.height, s.maturity);
            && |us| == |blocks| && (forall k :: 0 <= k < |us| ==> |blocks[k]| == |us[k]|)
            && var r := DisconnectChain(Restored(after, true, true), blocks, s.height, us);
               r.Some? && !r.value.clean
  {
    var m, blocks := s.Start(), s.BlocksFrom(0);
    StartReady(s);
    AllChecked(s, 0);
    ChainConnects(s, m, 0, s.height);
    ReorgUndone(m, blocks, s.height, s.maturity);
    FirstStakeLost(s);
  }

  lemma FirstStakeLost(s: Setting)
    requires s.Ordinary()
    ensures !Spared(s.BlocksFrom(0), s.height)
  {
    var blocks := s.BlocksFrom(0);
    assert blocks[0] == s.Block(0) && blocks[1..] == s.BlocksFrom(1);
    StakeSpent(s, 1, 0);
    StakeSpent(s, 1, 1);
    NothingUnspendable(s.Coinstake(0), s.height);
    var lost := Outs(FromTx(s.Coinstake(0), s.height), s.Stake(0));
    assert lost <= SpentInChain(s.BlocksFrom(1));
    SparedStep(blocks, s.height);
    assert blocks[0][1] == s.Coinstake(0);
  }
}
