/** What connecting and disconnecting a block does to the plain coin map
    (UpdateCoins, DisconnectBlock and the transaction loop of ConnectBlock in src/main.cpp). */
module Utxo {
  import opened Transactions
  import opened Coins
  import opened CoinMap

  type TxUndo = seq<TxInUndo>

  datatype Reason = Overwrites | MissingInputs | NegativeOutput | Immature | DuplicateInputs

  function Prevouts(vin: seq<TxIn>): (ps: seq<OutPoint>)
    ensures |ps| == |vin| && forall i :: 0 <= i < |ps| ==> ps[i] == vin[i].prevout
  {
    seq(|vin|, i requires 0 <= i < |vin| => vin[i].prevout)
  }

  // ---- Spending ----

  function SpendAt(m: CoinMap, p: OutPoint): Option<(CoinMap, TxInUndo)> {
    match Spend(At(m, p.hash), p.n)
    case None => None
    case Some((c, u)) => Some((Put(m, p.hash, c), u))
  }

  function SpendAll(m: CoinMap, ps: seq<OutPoint>): Option<(CoinMap, TxUndo)> {
    if ps == [] then Some((m, []))
    else
      match SpendAt(m, ps[0])
      case None => None
      case Some((m1, u)) =>
        match SpendAll(m1, ps[1..])
        case None => None
        case Some((m2, us)) => Some((m2, [u] + us))
  }

  /** UpdateCoins: spend the inputs, then add the outputs. */
  function UpdateTx(m: CoinMap, tx: Tx, height: int): Option<(CoinMap, TxUndo)> {
    if !tx.SpendsCoins() then Some((Put(m, tx.hash, FromTx(tx, height)), []))
    else
      match SpendAll(m, Prevouts(tx.vin))
      case None => None
      case Some((m1, us)) => Some((Put(m1, tx.hash, FromTx(tx, height)), us))
  }

  predicate Available(m: CoinMap, ps: seq<OutPoint>) {
    forall i :: 0 <= i < |ps| ==> At(m, ps[i].hash).IsAvailable(ps[i].n)
  }

  /** Coinbase and coinstake outputs may be spent only so many blocks later. */
  predicate MatureAt(m: CoinMap, p: OutPoint, height: int, maturity: int) {
    var c := At(m, p.hash);
    c.coinBase || c.coinStake ==> height - c.height >= maturity
  }

  predicate Mature(m: CoinMap, ps: seq<OutPoint>, height: int, maturity: int) {
    forall i :: 0 <= i < |ps| ==> MatureAt(m, ps[i], height, maturity)
  }

  predicate NoNegative(vout: seq<TxOut>) {
    forall i :: 0 <= i < |vout| ==> vout[i].value >= 0
  }

  datatype TxOutcome = TxRejected(reason: Reason) | TxConnected(view: CoinMap, undo: TxUndo)

  /** One turn of the transaction loop of ConnectBlock, in the order the source checks. */
  function ConnectTx(m: CoinMap, tx: Tx, height: int, maturity: int): TxOutcome {
    var ps := Prevouts(tx.vin);
    if !At(m, tx.hash).IsPruned() then TxRejected(Overwrites)
    else if tx.SpendsCoins() && !Available(m, ps) then TxRejected(MissingInputs)
    else if tx.SpendsCoins() && !tx.IsCoinStake() && !NoNegative(tx.vout) then TxRejected(NegativeOutput)
    else if tx.SpendsCoins() && !Mature(m, ps, height, maturity) then TxRejected(Immature)
    else if !NoNegative(tx.vout) then TxRejected(NegativeOutput)
    else
      match UpdateTx(m, tx, height)
      case None => TxRejected(DuplicateInputs)
      case Some((m1, u)) => TxConnected(m1, u)
  }

  datatype Outcome = Rejected(reason: Reason) | Connected(view: CoinMap, undo: seq<TxUndo>)

  function Connect(m: CoinMap, txs: seq<Tx>, height: int, maturity: int): Outcome
    decreases |txs|
  {
    if txs == [] then Connected(m, [])
    else
      match ConnectTx(m, txs[0], height, maturity)
      case TxRejected(r) => Rejected(r)
      case TxConnected(m1, u) =>
        match Connect(m1, txs[1..], height, maturity)
        case Rejected(r) => Rejected(r)
        case Connected(v, us) => Connected(v, [u] + us)
  }

  // ---- Undoing ----

  /** clean: no inconsistency was noticed; exact: no output was added to a missing transaction,
      whose leftover metadata the plain map does not know. */
  datatype Restored = Restored(view: CoinMap, clean: bool, exact: bool)

  function WithOutput(c: Coins, n: nat, out: TxOut): Coins {
    var vout := if |c.vout| < n + 1 then c.vout + seq(n + 1 - |c.vout|, _ => NULL_OUT) else c.vout;
    c.(vout := vout[n := out])
  }

  /** The coins an undo record is applied to. */
  function UndoBase(c: Coins, u: TxInUndo): Coins {
    if u.height != 0 then Coins(u.coinBase, false, [], u.height, u.version) else c
  }

  function RestoreAt(s: Restored, p: OutPoint, u: TxInUndo): Restored {
    var c := At(s.view, p.hash);
    var d := UndoBase(c, u);
    Restored(
      Put(s.view, p.hash, WithOutput(d, p.n, u.out)),
      s.clean && (u.height != 0 <==> c.IsPruned()) && !d.IsAvailable(p.n),
      s.exact && (u.height != 0 || !c.IsPruned()))
  }

  /** Restores the last input first. */
  function RestoreAll(s: Restored, ps: seq<OutPoint>, us: TxUndo): Restored
    requires |ps| == |us|
  {
    if ps == [] then s else RestoreAt(RestoreAll(s, ps[1..], us[1..]), ps[0], us[0])
  }

  function ClearOutputs(s: Restored, tx: Tx, height: int): Restored {
    var outsBlock := FromTx(tx, height);
    var outs := WithoutUnspendable(At(s.view, tx.hash));
    var outs' := if outsBlock.version < 0 then outs.(version := outsBlock.version) else outs;
    Restored(Put(s.view, tx.hash, EMPTY), s.clean && outs'.Same(outsBlock), s.exact)
  }

  /** None when block and undo data are inconsistent. */
  function DisconnectTx(s: Restored, tx: Tx, height: int, us: TxUndo): Option<Restored> {
    var s1 := ClearOutputs(s, tx, height);
    if !tx.SpendsCoins() then Some(s1)
    else if |us| != |tx.vin| then None
    else Some(RestoreAll(s1, Prevouts(tx.vin), us))
  }

  /** Undoes the last transaction first. */
  function Disconnect(s: Restored, txs: seq<Tx>, height: int, us: seq<TxUndo>): Option<Restored>
    requires |txs| == |us|
  {
    if txs == [] then Some(s)
    else
      match Disconnect(s, txs[1..], height, us[1..])
      case None => None
      case Some(s1) => DisconnectTx(s1, txs[0], height, us[0])
  }
}
