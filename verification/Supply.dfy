/** The money supply recorded per block against the value of the unspent coins
    (the totals of ConnectBlock in src/main.cpp, GetValueIn and GetValueOut). */
module Supply {
  import opened Sets
  import opened Transactions
  import opened Coins
  import opened CoinMap
  import opened Utxo
  import opened UndoProof

  /** The value of the outputs that are not spent. */
  function Value(vout: seq<TxOut>): int {
    if vout == [] then 0
    else Value(vout[..|vout| - 1]) + if vout[|vout| - 1].IsNull() then 0 else vout[|vout| - 1].value
  }

  /** The value of everything unspent. */
  ghost function Total(m: CoinMap): int
    decreases |m|
  {
    if |m| == 0 then 0
    else
      var t := AnyKey(m);
      Value(m[t].vout) + Total(m - {t})
  }

  ghost function AnyKey<K, V>(m: map<K, V>): (t: K)
    requires |m| > 0
    ensures t in m && |m - {t}| < |m|
  {
    assert m.Keys != {};
    var t :| t in m.Keys;
    assert (m - {t}).Keys == m.Keys - {t};
    t
  }

  lemma FewerKeys<K, V>(m: map<K, V>, t: K, u: K)
    requires t in m && u in m && u != t
    ensures |m - {t}| < |m| && u in m - {t} && |m - {t}| > 0
    ensures m - {u} - {t} == m - {t} - {u}
  {
    assert (m - {t}).Keys == m.Keys - {t};
    assert u in (m - {t}).Keys;
  }

  lemma {:induction false} TotalRemove(m: CoinMap, t: Hash)
    requires t in m
    ensures Total(m) == Value(m[t].vout) + Total(m - {t})
    decreases |m|
  {
    assert t in m.Keys && |m| > 0;
    var u := AnyKey(m);
    if u != t {
      FewerKeys(m, t, u);
      FewerKeys(m, u, t);
      TotalRemove(m - {u}, t);
      TotalRemove(m - {t}, u);
    }
  }

  lemma TotalSet(m: CoinMap, t: Hash, c: Coins)
    ensures Total(m[t := c]) == Total(m - {t}) + Value(c.vout)
  {
    TotalRemove(m[t := c], t);
    assert m[t := c] - {t} == m - {t};
  }

  lemma TotalWithout(m: CoinMap, t: Hash)
    ensures Total(m - {t}) == Total(m) - Value(At(m, t).vout)
  {
    if t in m {
      TotalRemove(m, t);
    } else {
      assert m - {t} == m;
    }
  }

  lemma TotalPut(m: CoinMap, t: Hash, c: Coins)
    requires c.IsTrimmed()
    ensures Total(Put(m, t, c)) == Total(m) - Value(At(m, t).vout) + Value(c.vout)
  {
    PutTrimmed(m, t, c);
    TotalWithout(m, t);
    TotalSet(m, t, c);
  }

  lemma {:induction false} ValueTrim(vout: seq<TxOut>)
    ensures Value(Trim(vout)) == Value(vout)
  {
    if |vout| > 0 && vout[|vout| - 1].IsNull() {
      ValueTrim(vout[..|vout| - 1]);
    }
  }

  lemma {:induction false} ValueHole(vout: seq<TxOut>, n: nat)
    requires n < |vout| && !vout[n].IsNull()
    ensures Value(vout[n := NULL_OUT]) == Value(vout) - vout[n].value
  {
    var last := |vout| - 1;
    if n < last {
      assert vout[n := NULL_OUT][..last] == vout[..last][n := NULL_OUT];
      ValueHole(vout[..last], n);
    } else {
      assert vout[n := NULL_OUT][..last] == vout[..last];
    }
  }

  // ---- Inputs ----

  /** GetValueIn: the outputs as the view shows them before any is spent. */
  function ValueIn(m: CoinMap, ps: seq<OutPoint>): int
    requires Available(m, ps)
  {
    if ps == [] then 0 else At(m, ps[0].hash).vout[ps[0].n].value + ValueIn(m, ps[1..])
  }

  /** GetZerocoinSpent: what the inputs claim to redeem. */
  function ZerocoinSpent(vin: seq<TxIn>): int {
    if vin == [] then 0
    else ZerocoinSpent(vin[..|vin| - 1]) + if vin[|vin| - 1].zerocoinSpend then vin[|vin| - 1].sequence * COIN else 0
  }

  /** The value of the zerocoins the inputs redeem, by their denominations. */
  function Redeemed(vin: seq<TxIn>): int {
    if vin == [] then 0
    else Redeemed(vin[..|vin| - 1]) + if vin[|vin| - 1].zerocoinSpend then vin[|vin| - 1].denomination * COIN else 0
  }

  lemma {:induction false} NothingRedeemed(vin: seq<TxIn>)
    requires forall i :: 0 <= i < |vin| ==> !vin[i].zerocoinSpend
    ensures Redeemed(vin) == 0
  {
    if vin != [] {
      NothingRedeemed(vin[..|vin| - 1]);
    }
  }

  lemma SpendTotal(m: CoinMap, p: OutPoint)
    requires Sound(m) && SpendAt(m, p).Some?
    ensures var m1 := SpendAt(m, p).value.0;
            Sound(m1) && Total(m1) == Total(m) - At(m, p.hash).vout[p.n].value
  {
    var c := At(m, p.hash);
    SpendRestoreOne(m, {}, p, true, true);
    SpendShape(c, p.n);
    TotalPut(m, p.hash, Spend(c, p.n).value.0);
    ValueHole(c.vout, p.n);
    ValueTrim(c.vout[p.n := NULL_OUT]);
  }

  /** An output not spent by p looks the same afterwards. */
  lemma OthersKept(m: CoinMap, p: OutPoint, q: OutPoint)
    requires Sound(m) && SpendAt(m, p).Some? && p != q
    requires At(m, q.hash).IsAvailable(q.n)
    ensures var m1 := SpendAt(m, p).value.0;
            && At(m1, q.hash).IsAvailable(q.n)
            && At(m1, q.hash).vout[q.n] == At(m, q.hash).vout[q.n]
  {
    var c := At(m, p.hash);
    SpendShape(c, p.n);
    var d := Spend(c, p.n).value.0;
    PutTrimmed(m, p.hash, d);
    if q.hash == p.hash {
      var v := c.vout[p.n := NULL_OUT];
      assert v[q.n] == c.vout[q.n];
      assert q.n < |d.vout|;
    }
  }

  lemma {:induction false} SpendAllTotal(m: CoinMap, ps: seq<OutPoint>)
    requires Sound(m) && Distinct(ps) && Available(m, ps)
    ensures SpendAll(m, ps).Some?
    ensures var m2 := SpendAll(m, ps).value.0;
            Sound(m2) && Total(m2) == Total(m) - ValueIn(m, ps)
  {
    if ps != [] {
      assert SpendAt(m, ps[0]).Some?;
      var m1 := SpendAt(m, ps[0]).value.0;
      SpendTotal(m, ps[0]);
      RestAvailable(m, ps);
      SpendAllTotal(m1, ps[1..]);
    }
  }

  lemma RestAvailable(m: CoinMap, ps: seq<OutPoint>)
    requires Sound(m) && Distinct(ps) && Available(m, ps) && ps != [] && SpendAt(m, ps[0]).Some?
    ensures var m1 := SpendAt(m, ps[0]).value.0;
            && Distinct(ps[1..]) && Available(m, ps[1..]) && Available(m1, ps[1..])
            && ValueIn(m1, ps[1..]) == ValueIn(m, ps[1..])
  {
    var m1 := SpendAt(m, ps[0]).value.0;
    forall i | 0 <= i < |ps[1..]|
      ensures At(m1, ps[1..][i].hash).IsAvailable(ps[1..][i].n)
      ensures At(m1, ps[1..][i].hash).vout[ps[1..][i].n] == At(m, ps[1..][i].hash).vout[ps[1..][i].n]
    {
      OthersKept(m, ps[0], ps[i + 1]);
    }
    SameValueIn(m, m1, ps[1..]);
  }

  lemma {:induction false} SameValueIn(m: CoinMap, m1: CoinMap, ps: seq<OutPoint>)
    requires Available(m, ps) && Available(m1, ps)
    requires forall i :: 0 <= i < |ps| ==> At(m1, ps[i].hash).vout[ps[i].n] == At(m, ps[i].hash).vout[ps[i].n]
    ensures ValueIn(m1, ps) == ValueIn(m, ps)
  {
    if ps != [] {
      SameValueIn(m, m1, ps[1..]);
    }
  }

  // ---- Outputs ----

  /** GetValueOut. */
  function ValueOut(vout: seq<TxOut>): int {
    if vout == [] then 0 else ValueOut(vout[..|vout| - 1]) + vout[|vout| - 1].value
  }

  /** The part of the outputs that no one can ever spend. */
  function Unspendable(vout: seq<TxOut>): int {
    if vout == [] then 0
    else Unspendable(vout[..|vout| - 1]) + if IsUnspendable(vout[|vout| - 1].script) then vout[|vout| - 1].value else 0
  }

  lemma {:induction false} OutputsSplit(vout: seq<TxOut>)
    requires NoNegative(vout)
    ensures Value(NullUnspendable(vout)) == ValueOut(vout) - Unspendable(vout)
  {
    if vout != [] {
      var last := |vout| - 1;
      OutputsSplit(vout[..last]);
      assert NullUnspendable(vout)[..last] == NullUnspendable(vout[..last]);
    }
  }

  // ---- Blocks ----

  /** The transaction names no coin twice. */
  ghost predicate Plain(tx: Tx) {
    tx.SpendsCoins() ==> Distinct(Prevouts(tx.vin))
  }

  ghost predicate PlainInputs(txs: seq<Tx>) {
    forall i {:trigger Plain(txs[i])} :: 0 <= i < |txs| ==> Plain(txs[i])
  }

  /** Value out less value in. */
  function TxMinted(m: CoinMap, tx: Tx): int {
    var ps := Prevouts(tx.vin);
    ValueOut(tx.vout) - Redeemed(tx.vin) - if tx.SpendsCoins() && Available(m, ps) then ValueIn(m, ps) else 0
  }

  lemma TxTotal(m: CoinMap, tx: Tx, height: int, maturity: int)
    requires Sound(m) && height > 0 && Plain(tx) && ConnectTx(m, tx, height, maturity).TxConnected?
    ensures var m1 := ConnectTx(m, tx, height, maturity).view;
            && Sound(m1)
            && Total(m1) == Total(m) + TxMinted(m, tx) + Redeemed(tx.vin) - Unspendable(tx.vout)
  {
    TxUndone(m, tx, height, maturity, {}, true, true);
    AcceptedTx(m, tx, height, maturity);
    var m0 := AfterInputs(m, tx);
    if tx.SpendsCoins() {
      SpendAllTotal(m, Prevouts(tx.vin));
    }
    OutputsAdded(m0, tx, height);
  }

  /** Once every check has passed, no assertion of UpdateCoins can fail. */
  lemma Accepted(m: CoinMap, tx: Tx, height: int, maturity: int)
    requires Sound(m) && At(m, tx.hash).IsPruned() && NoNegative(tx.vout) && Plain(tx)
    requires tx.SpendsCoins() ==> Available(m, Prevouts(tx.vin)) && Mature(m, Prevouts(tx.vin), height, maturity)
    ensures UpdateTx(m, tx, height).Some?
    ensures var (m1, u) := UpdateTx(m, tx, height).value; ConnectTx(m, tx, height, maturity) == TxConnected(m1, u)
  {
    if tx.SpendsCoins() {
      SpendAllTotal(m, Prevouts(tx.vin));
    }
  }

  function AfterInputs(m: CoinMap, tx: Tx): CoinMap {
    if tx.SpendsCoins() && SpendAll(m, Prevouts(tx.vin)).Some? then SpendAll(m, Prevouts(tx.vin)).value.0 else m
  }

  lemma AcceptedTx(m: CoinMap, tx: Tx, height: int, maturity: int)
    requires Sound(m) && ConnectTx(m, tx, height, maturity).TxConnected?
    ensures ConnectTx(m, tx, height, maturity).view == Put(AfterInputs(m, tx), tx.hash, FromTx(tx, height))
    ensures tx.hash !in AfterInputs(m, tx) && NoNegative(tx.vout)
    ensures tx.SpendsCoins() ==> Available(m, Prevouts(tx.vin))
  {
    if tx.SpendsCoins() {
      SpendAllKeys(m, Prevouts(tx.vin));
    }
  }

  lemma OutputsAdded(m: CoinMap, tx: Tx, height: int)
    requires tx.hash !in m && NoNegative(tx.vout)
    ensures Total(Put(m, tx.hash, FromTx(tx, height))) == Total(m) + ValueOut(tx.vout) - Unspendable(tx.vout)
  {
    TotalPut(m, tx.hash, FromTx(tx, height));
    ValueTrim(NullUnspendable(tx.vout));
    OutputsSplit(tx.vout);
  }

  /** nValueOut - nValueIn over the block: what is added to nMoneySupply. */
  function Minted(m: CoinMap, txs: seq<Tx>, height: int, maturity: int): int
    decreases |txs|
  {
    if txs == [] then 0
    else
      match ConnectTx(m, txs[0], height, maturity)
      case TxRejected(_) => 0
      case TxConnected(m1, _) => TxMinted(m, txs[0]) + Minted(m1, txs[1..], height, maturity)
  }

  /** The value of the block's unspendable outputs. */
  function Burnt(txs: seq<Tx>): int {
    if txs == [] then 0 else Unspendable(txs[0].vout) + Burnt(txs[1..])
  }

  /** The value of the zerocoins the block redeems, which come from outside the coin database. */
  function AllRedeemed(txs: seq<Tx>): int {
    if txs == [] then 0 else Redeemed(txs[0].vin) + AllRedeemed(txs[1..])
  }

  /** The supply grows by what the unspent coins grow, plus the value made unspendable, less the
      zerocoins redeemed. */
  lemma {:induction false} SupplyConserved(m: CoinMap, txs: seq<Tx>, height: int, maturity: int)
    requires Sound(m) && height > 0 && PlainInputs(txs) && Connect(m, txs, height, maturity).Connected?
    ensures var after := Connect(m, txs, height, maturity).view;
            Sound(after) && Minted(m, txs, height, maturity) == Total(after) - Total(m) + Burnt(txs) - AllRedeemed(txs)
    decreases |txs|
  {
    if txs != [] {
      var m1 := ConnectTx(m, txs[0], height, maturity).view;
      assert Plain(txs[0]) && forall i :: 0 <= i < |txs[1..]| ==> txs[1..][i] == txs[i + 1];
      TxTotal(m, txs[0], height, maturity);
      SupplyConserved(m1, txs[1..], height, maturity);
    }
  }

  /** What the blocks add to nMoneySupply. */
  function ChainMinted(m: CoinMap, blocks: seq<seq<Tx>>, height: int, maturity: int): int
    decreases |blocks|
  {
    if blocks == [] then 0
    else
      match Connect(m, blocks[0], height, maturity)
      case Rejected(_) => 0
      case Connected(m1, _) =>
        Minted(m, blocks[0], height, maturity) + ChainMinted(m1, blocks[1..], height + 1, maturity)
  }

  function ChainBurnt(blocks: seq<seq<Tx>>): int {
    if blocks == [] then 0 else Burnt(blocks[0]) + ChainBurnt(blocks[1..])
  }

  function ChainRedeemed(blocks: seq<seq<Tx>>): int {
    if blocks == [] then 0 else AllRedeemed(blocks[0]) + ChainRedeemed(blocks[1..])
  }

  /** Over a whole chain, the supply and the zerocoins redeemed are what is unspent and what was
      made unspendable. */
  lemma {:induction false} ChainSupply(m: CoinMap, blocks: seq<seq<Tx>>, height: int, maturity: int)
    requires Sound(m) && height > 0 && ConnectChain(m, blocks, height, maturity).ChainConnected?
    requires forall i :: 0 <= i < |blocks| ==> PlainInputs(blocks[i])
    ensures var after := ConnectChain(m, blocks, height, maturity).view;
            ChainMinted(m, blocks, height, maturity) + ChainRedeemed(blocks) == Total(after) - Total(m) +
              ChainBurnt(blocks)
    decreases |blocks|
  {
    if blocks != [] {
      SupplyConserved(m, blocks[0], height, maturity);
      ChainSupply(Connect(m, blocks[0], height, maturity).view, blocks[1..], height + 1, maturity);
    }
  }
}
