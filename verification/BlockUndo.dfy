/** Connecting and disconnecting the transactions of a block through a cache
    (UpdateCoins, DisconnectBlock and the transaction loop of ConnectBlock in src/main.cpp). */
module BlockUndo {
  import opened Transactions
  import opened Coins
  import opened CoinMap
  import opened CoinsView
  import opened Utxo
  import opened UndoProof
  import opened Supply

  method IsOutputAvailable(view: CoinsViewCache, p: OutPoint) returns (available: bool)
    requires view.Valid()
    modifies view.Repr
    ensures view.Valid() && view.modifier == old(view.modifier) && view.AllLevels() == old(view.AllLevels())
    ensures available <==> At(view.View(), p.hash).IsAvailable(p.n)
  {
    var found, coins := view.GetCoins(p.hash);
    available := found && coins.IsAvailable(p.n);
    AllNullMeans(coins.vout);
    AllNullMeans(At(view.View(), p.hash).vout);
  }

  method HaveInputs(view: CoinsViewCache, tx: Tx) returns (have: bool)
    requires view.Valid()
    modifies view.Repr
    ensures view.Valid() && view.modifier == old(view.modifier) && view.AllLevels() == old(view.AllLevels())
    ensures have <==> (tx.SpendsCoins() ==> Available(view.View(), Prevouts(tx.vin)))
  {
    have := true;
    if tx.SpendsCoins() {
      var ps := Prevouts(tx.vin);
      var i := 0;
      while i < |ps| && have
        invariant 0 <= i <= |ps|
        invariant view.Valid() && view.modifier == old(view.modifier) && view.AllLevels() == old(view.AllLevels())
        invariant have <==> forall j :: 0 <= j < i ==> At(view.View(), ps[j].hash).IsAvailable(ps[j].n)
      {
        have := IsOutputAvailable(view, ps[i]);
        i := i + 1;
      }
    }
  }

  method GetOutputFor(view: CoinsViewCache, p: OutPoint) returns (out: TxOut)
    requires view.Valid() && At(view.View(), p.hash).IsAvailable(p.n)
    modifies view.Repr
    ensures view.Valid() && view.modifier == old(view.modifier) && view.AllLevels() == old(view.AllLevels())
    ensures out == At(view.View(), p.hash).vout[p.n]
  {
    AllNullMeans(At(view.View(), p.hash).vout);
    var found, coins := view.GetCoins(p.hash);
    out := coins.vout[p.n];
  }

  method GetZerocoinSpent(vin: seq<TxIn>) returns (value: int)
    ensures value == ZerocoinSpent(vin)
  {
    value := 0;
    assert vin[..0] == [];
    for i := 0 to |vin|
      invariant value == ZerocoinSpent(vin[..i])
    {
      assert vin[..i + 1][..i] == vin[..i];
      if vin[i].zerocoinSpend {
        value := value + vin[i].sequence * COIN;
      }
    }
    assert vin[..|vin|] == vin;
  }

  method ValueOfCoins(view: CoinsViewCache, ps: seq<OutPoint>) returns (value: int)
    requires view.Valid() && Available(view.View(), ps)
    modifies view.Repr
    ensures view.Valid() && view.modifier == old(view.modifier) && view.AllLevels() == old(view.AllLevels())
    ensures value == ValueIn(view.View(), ps)
  {
    value := 0;
    var i := 0;
    while i < |ps|
      invariant 0 <= i <= |ps|
      invariant view.Valid() && view.modifier == old(view.modifier) && view.AllLevels() == old(view.AllLevels())
      invariant Available(view.View(), ps) && Available(view.View(), ps[i..])
      invariant value + ValueIn(view.View(), ps[i..]) == ValueIn(view.View(), ps)
    {
      var out := GetOutputFor(view, ps[i]);
      value := value + out.value;
      assert ps[i..][1..] == ps[i + 1..];
      i := i + 1;
    }
  }

  /** The value of the inputs, before any is spent. */
  method GetValueIn(view: CoinsViewCache, tx: Tx) returns (value: int)
    requires view.Valid()
    requires tx.SpendsCoins() ==> Available(view.View(), Prevouts(tx.vin))
    modifies view.Repr
    ensures view.Valid() && view.modifier == old(view.modifier) && view.AllLevels() == old(view.AllLevels())
    ensures value == if tx.IsCoinBase() then 0
                     else if tx.HasZerocoinSpendInputs() then ZerocoinSpent(tx.vin)
                     else ValueIn(view.View(), Prevouts(tx.vin))
  {
    value := 0;
    if !tx.IsCoinBase() && tx.HasZerocoinSpendInputs() {
      value := GetZerocoinSpent(tx.vin);
    } else if !tx.IsCoinBase() {
      value := ValueOfCoins(view, Prevouts(tx.vin));
    }
  }

  /** One input spent through the cache. */
  method SpendOutput(view: CoinsViewCache, p: OutPoint) returns (undo: TxInUndo)
    requires view.Valid() && view.modifier == None && SpendAt(view.View(), p).Some?
    modifies view.Repr
    ensures view.Valid() && view.modifier == None && view.LevelsBelow() == old(view.LevelsBelow())
    ensures SpendAt(old(view.View()), p) == Some((view.View(), undo))
  {
    AllNullMeans(At(view.View(), p.hash).vout);
    var coins := view.ModifyCoins(p.hash);
    assert coins == At(view.View(), p.hash);
    var spent := Spend(coins, p.n).value;
    view.Release(spent.0);
    undo := spent.1;
  }

  /** Spends the inputs and adds the outputs. */
  method UpdateCoins(view: CoinsViewCache, tx: Tx, height: int) returns (undo: TxUndo)
    requires view.Valid() && view.modifier == None && UpdateTx(view.View(), tx, height).Some?
    modifies view.Repr
    ensures view.Valid() && view.modifier == None && view.LevelsBelow() == old(view.LevelsBelow())
    ensures UpdateTx(old(view.View()), tx, height) == Some((view.View(), undo))
  {
    undo := [];
    if tx.SpendsCoins() {
      undo := SpendInputs(view, Prevouts(tx.vin));
    }
    var coins := view.ModifyCoins(tx.hash);
    view.Release(FromTx(tx, height));
  }

  function Prepend(us: TxUndo, rest: Option<(CoinMap, TxUndo)>): Option<(CoinMap, TxUndo)> {
    match rest
    case None => None
    case Some((m, vs)) => Some((m, us + vs))
  }

  /** Spending p first leaves the rest to do. */
  lemma SpendAllStep(m: CoinMap, ps: seq<OutPoint>, i: nat, undo: TxUndo)
    requires i < |ps| && Prepend(undo, SpendAll(m, ps[i..])).Some?
    ensures SpendAt(m, ps[i]).Some?
    ensures var (m1, u) := SpendAt(m, ps[i]).value;
            Prepend(undo, SpendAll(m, ps[i..])) == Prepend(undo + [u], SpendAll(m1, ps[i + 1..]))
  {
    assert ps[i..][0] == ps[i] && ps[i..][1..] == ps[i + 1..];
    var (m1, u) := SpendAt(m, ps[i]).value;
    var us := SpendAll(m1, ps[i + 1..]).value.1;
    assert undo + ([u] + us) == undo + [u] + us;
  }

  lemma PrependNothing(m: CoinMap, ps: seq<OutPoint>, undo: TxUndo)
    ensures Prepend([], SpendAll(m, ps[0..])) == SpendAll(m, ps)
    ensures Prepend(undo, SpendAll(m, ps[|ps|..])) == Some((m, undo))
  {
    assert ps[0..] == ps && undo + [] == undo;
    if SpendAll(m, ps).Some? {
      assert [] + SpendAll(m, ps).value.1 == SpendAll(m, ps).value.1;
    }
  }

  method SpendInputs(view: CoinsViewCache, ps: seq<OutPoint>) returns (undo: TxUndo)
    requires view.Valid() && view.modifier == None && SpendAll(view.View(), ps).Some?
    modifies view.Repr
    ensures view.Valid() && view.modifier == None && view.LevelsBelow() == old(view.LevelsBelow())
    ensures SpendAll(old(view.View()), ps) == Some((view.View(), undo))
  {
    ghost var goal := SpendAll(view.View(), ps);
    undo := [];
    var i := 0;
    PrependNothing(view.View(), ps, []);
    while i < |ps|
      invariant 0 <= i <= |ps|
      invariant view.Valid() && view.modifier == None && view.LevelsBelow() == old(view.LevelsBelow())
      invariant Prepend(undo, SpendAll(view.View(), ps[i..])) == goal
    {
      SpendAllStep(view.View(), ps, i, undo);
      var u := SpendOutput(view, ps[i]);
      undo := undo + [u];
      i := i + 1;
    }
    PrependNothing(view.View(), ps, undo);
  }

  /** The cache and the flag fClean follow the plain map: the views agree until an output is
      added to a missing transaction, which is reported as unclean. */
  ghost predicate Tracks(view: CoinsViewCache, fClean: bool, s: Restored)
    requires view.Shape()
    reads view.Repr
  {
    && s.clean == fClean
    && (s.exact ==> s.view == view.View())
    && (!s.exact ==> !s.clean)
  }

  /** Restores one input. */
  method RestoreOutput(view: CoinsViewCache, p: OutPoint, u: TxInUndo, fClean: bool, ghost s: Restored)
    returns (clean: bool)
    requires view.Valid() && view.modifier == None && Tracks(view, fClean, s)
    modifies view.Repr
    ensures view.Valid() && view.modifier == None && view.LevelsBelow() == old(view.LevelsBelow())
    ensures Tracks(view, clean, RestoreAt(s, p, u))
  {
    clean := fClean;
    var coins := view.ModifyCoins(p.hash);
    var d := coins;
    if u.height != 0 {
      clean := clean && coins.IsPruned();
      d := Coins(u.coinBase, false, [], u.height, u.version);
    } else {
      clean := clean && !coins.IsPruned();
    }
    clean := clean && !d.IsAvailable(p.n);
    view.Release(WithOutput(d, p.n, u.out));
  }

  /** Restores the inputs of a transaction, the last one first. */
  method RestoreInputs(view: CoinsViewCache, ps: seq<OutPoint>, us: TxUndo, fClean: bool, ghost s: Restored)
    returns (clean: bool)
    requires view.Valid() && view.modifier == None && Tracks(view, fClean, s) && |ps| == |us|
    modifies view.Repr
    ensures view.Valid() && view.modifier == None && view.LevelsBelow() == old(view.LevelsBelow())
    ensures Tracks(view, clean, RestoreAll(s, ps, us))
  {
    clean := fClean;
    var j := |ps|;
    while j > 0
      invariant 0 <= j <= |ps|
      invariant view.Valid() && view.modifier == None && view.LevelsBelow() == old(view.LevelsBelow())
      invariant Tracks(view, clean, RestoreAll(s, ps[j..], us[j..]))
    {
      j := j - 1;
      ghost var r := RestoreAll(s, ps[j + 1..], us[j + 1..]);
      assert ps[j..][1..] == ps[j + 1..] && us[j..][1..] == us[j + 1..];
      clean := RestoreOutput(view, ps[j], us[j], clean, r);
    }
    assert ps[0..] == ps && us[0..] == us;
  }

  /** Checks and removes the outputs a transaction added. */
  method RemoveOutputs(view: CoinsViewCache, tx: Tx, height: int, fClean: bool, ghost s: Restored) returns (clean: bool)
    requires view.Valid() && view.modifier == None && Tracks(view, fClean, s)
    modifies view.Repr
    ensures view.Valid() && view.modifier == None && view.LevelsBelow() == old(view.LevelsBelow())
    ensures Tracks(view, clean, ClearOutputs(s, tx, height))
  {
    var coins := view.ModifyCoins(tx.hash);
    var outs := ClearUnspendable(coins);
    var outsBlock := FromTx(tx, height);
    if outsBlock.version < 0 {
      outs := outs.(version := outsBlock.version);
    }
    clean := fClean && outs.Same(outsBlock);
    if s.exact {
      PrunedStaysPruned(coins, At(s.view, tx.hash));
    }
    view.Release(EMPTY);
  }

  /** The leftover metadata of pruned coins does not matter to the check. */
  lemma PrunedStaysPruned(a: Coins, b: Coins)
    requires a.Same(b)
    ensures WithoutUnspendable(a).Same(WithoutUnspendable(b))
  {
    if a.IsPruned() && b.IsPruned() {
      NullStaysPruned(a);
      NullStaysPruned(b);
    }
  }

  lemma NullStaysPruned(a: Coins)
    requires a.IsPruned()
    ensures WithoutUnspendable(a).IsPruned()
  {
    AllNullMeans(a.vout);
    AllNullMeans(NullUnspendable(a.vout));
  }

  datatype DisconnectResult = Inconsistent | Disconnected(clean: bool)

  /** Undoes one transaction; only the first of a block has no undo data, and it spends nothing. */
  method DisconnectTransaction(view: CoinsViewCache, tx: Tx, height: int, txundo: TxUndo, fClean: bool,
                               ghost s: Restored) returns (ok: bool, clean: bool)
    requires view.Valid() && view.modifier == None && Tracks(view, fClean, s)
    modifies view.Repr
    ensures view.Valid() && view.modifier == None && view.LevelsBelow() == old(view.LevelsBelow())
    ensures ok <==> DisconnectTx(s, tx, height, txundo).Some?
    ensures ok ==> Tracks(view, clean, DisconnectTx(s, tx, height, txundo).value)
  {
    ok := true;
    clean := RemoveOutputs(view, tx, height, fClean, s);
    if tx.SpendsCoins() {
      if |txundo| != |tx.vin| {
        return false, clean;
      }
      clean := RestoreInputs(view, Prevouts(tx.vin), txundo, clean, ClearOutputs(s, tx, height));
    }
  }

  /** Undoes the transactions of a block, the last one first; there is no undo data for the first. */
  method DisconnectTransactions(view: CoinsViewCache, txs: seq<Tx>, height: int, vtxundo: seq<TxUndo>)
    returns (result: DisconnectResult)
    requires view.Valid() && view.modifier == None
    requires txs != [] && !txs[0].SpendsCoins()
    modifies view.Repr
    ensures view.Valid() && view.modifier == None && view.LevelsBelow() == old(view.LevelsBelow())
    ensures |vtxundo| + 1 != |txs| ==> result.Inconsistent?
    ensures |vtxundo| + 1 == |txs| ==>
              match Disconnect(Restored(old(view.View()), true, true), txs, height, [[]] + vtxundo)
              case None => result.Inconsistent?
              case Some(r) => result.Disconnected? && Tracks(view, result.clean, r)
  {
    if |vtxundo| + 1 != |txs| {
      return Inconsistent;
    }
    ghost var us := [[]] + vtxundo;
    ghost var s := Restored(view.View(), true, true);
    var fClean := true;
    var i := |txs|;
    assert txs[i..] == [] && us[i..] == [];
    while i > 0
      invariant 0 <= i <= |txs|
      invariant view.Valid() && view.modifier == None && view.LevelsBelow() == old(view.LevelsBelow())
      invariant Disconnect(s, txs[i..], height, us[i..]).Some?
      invariant Tracks(view, fClean, Disconnect(s, txs[i..], height, us[i..]).value)
    {
      i := i - 1;
      DisconnectStep(s, txs, height, us, i);
      var ok;
      ok, fClean := DisconnectTransaction(view, txs[i], height, if i > 0 then vtxundo[i - 1] else [], fClean,
                                          Disconnect(s, txs[i + 1..], height, us[i + 1..]).value);
      if !ok {
        InconsistentStays(s, txs, height, us, i);
        return Inconsistent;
      }
    }
    assert txs[0..] == txs && us[0..] == us;
    return Disconnected(fClean);
  }

  lemma DisconnectStep(s: Restored, txs: seq<Tx>, height: int, us: seq<TxUndo>, i: nat)
    requires |txs| == |us| && i < |txs|
    ensures Disconnect(s, txs[i..], height, us[i..]) ==
            match Disconnect(s, txs[i + 1..], height, us[i + 1..])
            case None => None
            case Some(r) => DisconnectTx(r, txs[i], height, us[i])
  {
    assert txs[i..][0] == txs[i] && us[i..][0] == us[i];
    assert txs[i..][1..] == txs[i + 1..] && us[i..][1..] == us[i + 1..];
  }

  lemma {:induction false} InconsistentStays(s: Restored, txs: seq<Tx>, height: int, us: seq<TxUndo>, i: nat)
    requires |txs| == |us| && i <= |txs| && Disconnect(s, txs[i..], height, us[i..]).None?
    ensures Disconnect(s, txs, height, us).None?
    decreases i
  {
    if i == 0 {
      assert txs[0..] == txs && us[0..] == us;
    } else {
      assert txs[i - 1..][1..] == txs[i..] && us[i - 1..][1..] == us[i..];
      InconsistentStays(s, txs, height, us, i - 1);
    }
  }

  // ---- Connecting ----

  method CheckMatureAt(view: CoinsViewCache, p: OutPoint, height: int, maturity: int) returns (mature: bool)
    requires view.Valid() && At(view.View(), p.hash).IsAvailable(p.n)
    modifies view.Repr
    ensures view.Valid() && view.modifier == old(view.modifier) && view.AllLevels() == old(view.AllLevels())
    ensures mature <==> MatureAt(view.View(), p, height, maturity)
  {
    AllNullMeans(At(view.View(), p.hash).vout);
    var found, coins := view.GetCoins(p.hash);
    mature := coins.coinBase || coins.coinStake ==> height - coins.height >= maturity;
  }

  /** The maturity rule of CheckInputs. */
  method CheckMature(view: CoinsViewCache, ps: seq<OutPoint>, height: int, maturity: int) returns (mature: bool)
    requires view.Valid() && Available(view.View(), ps)
    modifies view.Repr
    ensures view.Valid() && view.modifier == old(view.modifier) && view.AllLevels() == old(view.AllLevels())
    ensures mature <==> Mature(view.View(), ps, height, maturity)
  {
    mature := true;
    var i := 0;
    while i < |ps| && mature
      invariant 0 <= i <= |ps|
      invariant view.Valid() && view.modifier == old(view.modifier) && view.AllLevels() == old(view.AllLevels())
      invariant Available(view.View(), ps)
      invariant mature <==> forall j :: 0 <= j < i ==> MatureAt(view.View(), ps[j], height, maturity)
    {
      mature := CheckMatureAt(view, ps[i], height, maturity);
      i := i + 1;
    }
  }

  datatype TxResult = TxFailed(reason: Reason) | TxDone(undo: TxUndo, minted: int)

  method CheckNoNegative(vout: seq<TxOut>) returns (ok: bool, value: int)
    ensures ok <==> NoNegative(vout)
    ensures ok ==> value == ValueOut(vout)
  {
    ok, value := true, 0;
    var i := 0;
    assert vout[..0] == [];
    while i < |vout|
      invariant 0 <= i <= |vout|
      invariant NoNegative(vout[..i]) && value == ValueOut(vout[..i])
    {
      if vout[i].value < 0 {
        return false, 0;
      }
      assert vout[..i + 1][..i] == vout[..i];
      value := value + vout[i].value;
      i := i + 1;
    }
    assert vout[..|vout|] == vout;
  }

  /** The inputs of one transaction: the checks, and their value. */
  method CheckInputs(view: CoinsViewCache, tx: Tx, height: int, maturity: int)
    returns (failed: Option<Reason>, valueIn: int)
    requires view.Valid() && tx.SpendsCoins()
    modifies view.Repr
    ensures view.Valid() && view.modifier == old(view.modifier) && view.AllLevels() == old(view.AllLevels())
    ensures var m, ps := view.View(), Prevouts(tx.vin);
            && (failed == Some(MissingInputs) <==> !Available(m, ps))
            && (failed == Some(NegativeOutput) <==> Available(m, ps) && !tx.IsCoinStake() && !NoNegative(tx.vout))
            && (failed == Some(Immature) <==>
                Available(m, ps) && (tx.IsCoinStake() || NoNegative(tx.vout)) && !Mature(m, ps, height, maturity))
            && (failed.None? ==> Available(m, ps) && Mature(m, ps, height, maturity) && valueIn == ValueIn(m, ps))
    ensures failed.Some? ==> failed.value in {MissingInputs, NegativeOutput, Immature}
  {
    valueIn := 0;
    var ps := Prevouts(tx.vin);
    var have := HaveInputs(view, tx);
    if !have {
      return Some(MissingInputs), 0;
    }
    if !tx.IsCoinStake() {
      var ok, _ := CheckNoNegative(tx.vout);
      if !ok {
        return Some(NegativeOutput), 0;
      }
    }
    valueIn := GetValueIn(view, tx);
    var mature := CheckMature(view, ps, height, maturity);
    if !mature {
      return Some(Immature), 0;
    }
    return None, valueIn;
  }

  /** The zerocoins the inputs redeem. */
  method RedeemZerocoins(tx: Tx) returns (value: int)
    ensures value == Redeemed(tx.vin)
  {
    value := 0;
    var vin := tx.vin;
    if !tx.HasZerocoinSpendInputs() {
      NothingRedeemed(vin);
      return;
    }
    assert vin[..0] == [];
    for i := 0 to |vin|
      invariant value == Redeemed(vin[..i])
    {
      assert vin[..i + 1][..i] == vin[..i];
      if vin[i].zerocoinSpend {
        value := value + vin[i].denomination * COIN;
      }
    }
    assert vin[..|vin|] == vin;
  }

  /** The rule of BIP30. */
  method Overwritten(view: CoinsViewCache, hash: Hash) returns (overwrites: bool)
    requires view.Valid()
    modifies view.Repr
    ensures view.Valid() && view.modifier == old(view.modifier) && view.AllLevels() == old(view.AllLevels())
    ensures overwrites <==> !At(view.View(), hash).IsPruned()
  {
    var found, coins := view.GetCoins(hash);
    overwrites := found && !coins.IsPruned();
  }

  /** The checks of one turn of the transaction loop, and what the transaction adds to the supply. */
  method CheckTransaction(view: CoinsViewCache, tx: Tx, height: int, maturity: int)
    returns (failed: Option<Reason>, minted: int)
    requires view.Valid()
    modifies view.Repr
    ensures view.Valid() && view.modifier == old(view.modifier) && view.AllLevels() == old(view.AllLevels())
    ensures failed.Some? ==> ConnectTx(view.View(), tx, height, maturity) == TxRejected(failed.value)
    ensures failed.None? ==>
              var m, ps := view.View(), Prevouts(tx.vin);
              && At(m, tx.hash).IsPruned() && NoNegative(tx.vout) && minted == TxMinted(m, tx)
              && (tx.SpendsCoins() ==> Available(m, ps) && Mature(m, ps, height, maturity))
  {
    minted := 0;
    var overwrites := Overwritten(view, tx.hash);
    if overwrites {
      return Some(Overwrites), 0;
    }
    var valueIn := 0;
    var redeemed := RedeemZerocoins(tx);
    if tx.SpendsCoins() {
      failed, valueIn := CheckInputs(view, tx, height, maturity);
      if failed.Some? {
        return;
      }
    }
    var ok, valueOut := CheckNoNegative(tx.vout);
    if !ok {
      return Some(NegativeOutput), 0;
    }
    return None, valueOut - redeemed - valueIn;
  }

  /** One turn of the transaction loop of ConnectBlock. */
  method ConnectTransaction(view: CoinsViewCache, tx: Tx, height: int, maturity: int) returns (result: TxResult)
    requires view.Valid() && view.modifier == None && Sound(view.View()) && height > 0 && Plain(tx)
    modifies view.Repr
    ensures view.Valid() && view.modifier == None && view.LevelsBelow() == old(view.LevelsBelow())
    ensures match ConnectTx(old(view.View()), tx, height, maturity)
            case TxRejected(r) => result == TxFailed(r)
            case TxConnected(m1, u) =>
              result == TxDone(u, TxMinted(old(view.View()), tx)) && view.View() == m1 && Sound(view.View())
  {
    var failed, minted := CheckTransaction(view, tx, height, maturity);
    if failed.Some? {
      return TxFailed(failed.value);
    }
    Accepted(view.View(), tx, height, maturity);
    TxUndone(view.View(), tx, height, maturity, {}, true, true);
    var undo := UpdateCoins(view, tx, height);
    return TxDone(undo, minted);
  }

  datatype BlockResult = BlockRejected(reason: Reason) | BlockConnected(vtxundo: seq<TxUndo>, minted: int)

  function PrependUndo(us: seq<TxUndo>, rest: Outcome): Outcome {
    match rest
    case Rejected(r) => Rejected(r)
    case Connected(m, vs) => Connected(m, us + vs)
  }

  lemma PrependNoUndo(rest: Outcome)
    ensures PrependUndo([], rest) == rest
  {
    if rest.Connected? {
      assert [] + rest.undo == rest.undo;
    }
  }

  lemma ConnectStep(m: CoinMap, txs: seq<Tx>, i: nat, height: int, maturity: int, us: seq<TxUndo>)
    requires i < |txs|
    ensures match ConnectTx(m, txs[i], height, maturity)
            case TxRejected(r) => PrependUndo(us, Connect(m, txs[i..], height, maturity)) == Rejected(r)
            case TxConnected(m1, u) =>
              && PrependUndo(us, Connect(m, txs[i..], height, maturity))
                 == PrependUndo(us + [u], Connect(m1, txs[i + 1..], height, maturity))
              && Minted(m, txs[i..], height, maturity) == TxMinted(m, txs[i]) +
                Minted(m1, txs[i + 1..], height, maturity)
              && (!txs[i].SpendsCoins() ==> u == [])
  {
    assert txs[i..][0] == txs[i] && txs[i..][1..] == txs[i + 1..];
    match ConnectTx(m, txs[i], height, maturity)
    case TxRejected(r) =>
    case TxConnected(m1, u) =>
      match Connect(m1, txs[i + 1..], height, maturity)
      case Rejected(r) =>
      case Connected(v, vs) => assert us + ([u] + vs) == us + [u] + vs;
  }

  /** The undo data of the first i transactions, the first one's included. */
  function AllUndo(vtxundo: seq<TxUndo>, i: nat): seq<TxUndo> {
    if i == 0 then [] else [[]] + vtxundo
  }

  /** What connecting the whole block comes to: the outcome, and what it adds to the supply. */
  datatype Goal = Goal(outcome: Outcome, minted: int)

  /** The same, seen after i transactions. */
  function GoalFrom(m: CoinMap, txs: seq<Tx>, i: nat, height: int, maturity: int, vtxundo: seq<TxUndo>,
                    minted: int): Goal
    requires i <= |txs|
  {
    Goal(PrependUndo(AllUndo(vtxundo, i), Connect(m, txs[i..], height, maturity)),
         minted + Minted(m, txs[i..], height, maturity))
  }

  lemma GoalStarts(m: CoinMap, txs: seq<Tx>, height: int, maturity: int)
    ensures GoalFrom(m, txs, 0, height, maturity, [], 0)
            == Goal(Connect(m, txs, height, maturity), Minted(m, txs, height, maturity))
  {
    assert txs[0..] == txs;
    PrependNoUndo(Connect(m, txs, height, maturity));
  }

  lemma GoalEnds(m: CoinMap, txs: seq<Tx>, height: int, maturity: int, vtxundo: seq<TxUndo>, minted: int)
    requires txs != []
    ensures GoalFrom(m, txs, |txs|, height, maturity, vtxundo, minted) == Goal(Connected(m, [[]] + vtxundo), minted)
  {
    assert txs[|txs|..] == [];
    assert [[]] + vtxundo + [] == [[]] + vtxundo;
  }

  /** The undo data kept: there is none for the first transaction. */
  function Kept(vtxundo: seq<TxUndo>, i: nat, u: TxUndo): seq<TxUndo> {
    if i > 0 then vtxundo + [u] else vtxundo
  }

  lemma GoalStep(m: CoinMap, txs: seq<Tx>, i: nat, height: int, maturity: int, vtxundo: seq<TxUndo>, minted: int)
    requires i < |txs| && !txs[0].SpendsCoins() && (i == 0 ==> vtxundo == [])
    ensures match ConnectTx(m, txs[i], height, maturity)
            case TxRejected(r) => GoalFrom(m, txs, i, height, maturity, vtxundo, minted).outcome == Rejected(r)
            case TxConnected(m1, u) =>
              GoalFrom(m, txs, i, height, maturity, vtxundo, minted)
              == GoalFrom(m1, txs, i + 1, height, maturity, Kept(vtxundo, i, u), minted + TxMinted(m, txs[i]))
  {
    ConnectStep(m, txs, i, height, maturity, AllUndo(vtxundo, i));
    match ConnectTx(m, txs[i], height, maturity)
    case TxRejected(_) =>
    case TxConnected(_, u) => assert AllUndo(vtxundo, i) + [u] == AllUndo(Kept(vtxundo, i, u), i + 1);
  }

  /** After i transactions, the goal is still the same. */
  ghost predicate OnWay(goal: Goal, m: CoinMap, txs: seq<Tx>, i: nat, height: int, maturity: int, vtxundo: seq<TxUndo>,
                        minted: int) {
    i <= |txs| && goal == GoalFrom(m, txs, i, height, maturity, vtxundo, minted)
  }

  /** One turn of the loop. */
  method ConnectNext(view: CoinsViewCache, txs: seq<Tx>, i: nat, next: nat, height: int, maturity: int,
                     vtxundo: seq<TxUndo>, minted: int, ghost goal: Goal)
    returns (failed: Option<Reason>, vtxundo': seq<TxUndo>, minted': int)
    requires view.Valid() && view.modifier == None && Sound(view.View()) && height > 0
    requires i < |txs| && next == i + 1 && PlainInputs(txs) && !txs[0].SpendsCoins() && (i == 0 ==> vtxundo == [])
    requires OnWay(goal, view.View(), txs, i, height, maturity, vtxundo, minted)
    modifies view.Repr
    ensures view.Valid() && view.modifier == None && view.LevelsBelow() == old(view.LevelsBelow())
    ensures failed.Some? ==> goal.outcome == Rejected(failed.value)
    ensures failed.None? ==>
              Sound(view.View()) && OnWay(goal, view.View(), txs, next, height, maturity, vtxundo', minted')
  {
    assert Plain(txs[i]);
    GoalStep(view.View(), txs, i, height, maturity, vtxundo, minted);
    var one := ConnectTransaction(view, txs[i], height, maturity);
    if one.TxFailed? {
      return Some(one.reason), vtxundo, minted;
    }
    return None, Kept(vtxundo, i, one.undo), minted + one.minted;
  }

  /** The transaction loop. */
  method ConnectLoop(view: CoinsViewCache, txs: seq<Tx>, height: int, maturity: int, ghost goal: Goal)
    returns (result: BlockResult)
    requires view.Valid() && view.modifier == None && Sound(view.View()) && height > 0
    requires txs != [] && !txs[0].SpendsCoins() && PlainInputs(txs)
    requires OnWay(goal, view.View(), txs, 0, height, maturity, [], 0)
    modifies view.Repr
    ensures view.Valid() && view.modifier == None && view.LevelsBelow() == old(view.LevelsBelow())
    ensures match result
            case BlockRejected(r) => goal.outcome == Rejected(r)
            case BlockConnected(vtxundo, minted) => goal == Goal(Connected(view.View(), [[]] + vtxundo), minted)
  {
    var vtxundo, minted, failed := [], 0, None;
    var i := 0;
    while i < |txs|
      invariant 0 <= i <= |txs|
      invariant view.Valid() && view.modifier == None && view.LevelsBelow() == old(view.LevelsBelow())
      invariant Sound(view.View()) && (i == 0 ==> vtxundo == [])
      invariant OnWay(goal, view.View(), txs, i, height, maturity, vtxundo, minted)
    {
      var next := i + 1;
      failed, vtxundo, minted := ConnectNext(view, txs, i, next, height, maturity, vtxundo, minted, goal);
      if failed.Some? {
        return BlockRejected(failed.value);
      }
      i := next;
    }
    GoalEnds(view.View(), txs, height, maturity, vtxundo, minted);
    return BlockConnected(vtxundo, minted);
  }

  /** Connects the transactions of a block. */
  method ConnectTransactions(view: CoinsViewCache, txs: seq<Tx>, height: int, maturity: int)
    returns (result: BlockResult)
    requires view.Valid() && view.modifier == None && Sound(view.View()) && height > 0
    requires txs != [] && !txs[0].SpendsCoins() && PlainInputs(txs)
    modifies view.Repr
    ensures view.Valid() && view.modifier == None && view.LevelsBelow() == old(view.LevelsBelow())
    ensures match Connect(old(view.View()), txs, height, maturity)
            case Rejected(r) => result == BlockRejected(r)
            case Connected(after, us) =>
              && result.BlockConnected? && view.View() == after && [[]] + result.vtxundo == us
              && result.minted == Minted(old(view.View()), txs, height, maturity)
  {
    GoalStarts(view.View(), txs, height, maturity);
    result := ConnectLoop(view, txs, height, maturity,
                          Goal(Connect(view.View(), txs, height, maturity),
                               Minted(view.View(), txs, height, maturity)));
  }
}
