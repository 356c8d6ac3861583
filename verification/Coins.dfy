/** The coins of one transaction and what spending does to them (src/coins.h, src/coins.cpp). */
module Coins {
  import opened Transactions

  /** Undo record of one input; height is zero unless the input spent the last output. */
  datatype TxInUndo = TxInUndo(out: TxOut, coinBase: bool, coinStake: bool, height: int, version: int)

  datatype Coins = Coins(coinBase: bool, coinStake: bool, vout: seq<TxOut>, height: int, version: int) {

    predicate IsPruned() { AllNull(vout) }

    predicate IsAvailable(n: nat) {
      n < |vout| && !vout[n].IsNull() && !IsZerocoinMint(vout[n].script)
    }

    /** No spent output is kept at the end. */
    predicate IsTrimmed() {
      |vout| > 0 ==> !vout[|vout| - 1].IsNull()
    }

    function Cleaned(): (c: Coins)
      ensures c.IsTrimmed()
      ensures c.IsPruned() <==> this.IsPruned()
      ensures c.IsPruned() <==> c.vout == []
    {
      this.(vout := Trim(vout))
    }

    /** The source's equality: all pruned coins are equal. */
    predicate Same(that: Coins) {
      (IsPruned() && that.IsPruned()) || this == that
    }
  }

  const EMPTY := Coins(false, false, [], 0, 0)

  predicate AllNull(vout: seq<TxOut>) {
    vout == [] || (vout[|vout| - 1].IsNull() && AllNull(vout[..|vout| - 1]))
  }

  lemma AllNullMeans(vout: seq<TxOut>)
    ensures AllNull(vout) <==> forall k :: 0 <= k < |vout| ==> vout[k].IsNull()
  {
    if vout != [] {
      AllNullMeans(vout[..|vout| - 1]);
      assert forall k :: 0 <= k < |vout| - 1 ==> vout[k] == vout[..|vout| - 1][k];
    }
  }

  /** The outputs without the null ones at the end. */
  function Trim(vout: seq<TxOut>): (r: seq<TxOut>)
    ensures r <= vout
    ensures forall k :: |r| <= k < |vout| ==> vout[k].IsNull()
    ensures |r| > 0 ==> !r[|r| - 1].IsNull()
    ensures AllNull(vout) <==> r == []
  {
    if |vout| > 0 && vout[|vout| - 1].IsNull() then Trim(vout[..|vout| - 1]) else vout
  }

  lemma TrimmedIsFixed(vout: seq<TxOut>)
    requires |vout| > 0 ==> !vout[|vout| - 1].IsNull()
    ensures Trim(vout) == vout
  {}

  /** Removing the spent outputs at the end, one at a time. */
  method Cleanup(c: Coins) returns (r: Coins)
    ensures r == c.Cleaned()
  {
    var vout := c.vout;
    while |vout| > 0 && vout[|vout| - 1].IsNull()
      invariant Trim(vout) == Trim(c.vout)
    {
      vout := vout[..|vout| - 1];
    }
    r := c.(vout := vout);
  }

  function NullUnspendable(vout: seq<TxOut>): (r: seq<TxOut>)
    ensures |r| == |vout|
    ensures forall k :: 0 <= k < |r| ==> r[k] == if IsUnspendable(vout[k].script) then NULL_OUT else vout[k]
  {
    seq(|vout|, k requires 0 <= k < |vout| => if IsUnspendable(vout[k].script) then NULL_OUT else vout[k])
  }

  function WithoutUnspendable(c: Coins): Coins {
    c.(vout := NullUnspendable(c.vout)).Cleaned()
  }

  method ClearUnspendable(c: Coins) returns (r: Coins)
    ensures r == WithoutUnspendable(c)
  {
    var vout := c.vout;
    for i := 0 to |vout|
      invariant |vout| == |c.vout|
      invariant forall k :: 0 <= k < i ==> vout[k] == NullUnspendable(c.vout)[k]
      invariant forall k :: i <= k < |vout| ==> vout[k] == c.vout[k]
    {
      if IsUnspendable(vout[i].script) {
        vout := vout[i := NULL_OUT];
      }
    }
    assert vout == NullUnspendable(c.vout);
    r := Cleanup(c.(vout := vout));
  }

  /** The coins a transaction creates at a height. */
  function FromTx(tx: Tx, height: int): Coins {
    WithoutUnspendable(Coins(tx.IsCoinBase(), tx.IsCoinStake(), tx.vout, height, tx.version))
  }

  /** Clearing unspendable outputs a second time changes nothing. */
  lemma WithoutUnspendableTwice(c: Coins)
    ensures WithoutUnspendable(WithoutUnspendable(c)) == WithoutUnspendable(c)
  {
    var d := WithoutUnspendable(c);
    assert NullUnspendable(d.vout) == d.vout;
    TrimmedIsFixed(d.vout);
  }

  /** Marking output n spent, with the undo record this leaves; None when there is no such output. */
  function Spend(c: Coins, n: nat): Option<(Coins, TxInUndo)> {
    if n >= |c.vout| || c.vout[n].IsNull() then None
    else
      var d := c.(vout := c.vout[n := NULL_OUT]).Cleaned();
      if d.vout == [] then Some((d, TxInUndo(c.vout[n], c.coinBase, c.coinStake, c.height, c.version)))
      else Some((d, TxInUndo(c.vout[n], false, false, 0, 0)))
  }
}
