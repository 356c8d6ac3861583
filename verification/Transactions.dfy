/** Transactions and their outputs: the values the coin database is built from
    (src/primitives/transaction.h). */
module Transactions {

  datatype Option<+T> = None | Some(value: T)

  type byte = x: int | 0 <= x < 256

  /** Hashes are only compared; zero is the null hash. */
  type Hash = int

  const OP_RETURN: byte := 0x6a
  const OP_ZEROCOINMINT: byte := 0xc1
  const MAX_SCRIPT_SIZE := 10000
  const NULL_INDEX := 0xFFFF_FFFF
  const COIN := 1_0000_0000

  type Script = seq<byte>

  /** Outputs no input can ever satisfy; they are not kept in the coin database. */
  predicate IsUnspendable(s: Script) {
    (|s| > 0 && s[0] == OP_RETURN) || |s| > MAX_SCRIPT_SIZE
  }

  predicate IsZerocoinMint(s: Script) {
    |s| > 0 && s[0] == OP_ZEROCOINMINT
  }

  datatype TxOut = TxOut(value: int, script: Script) {
    /** A spent output is a null output. */
    predicate IsNull() { value == -1 }
    predicate IsEmpty() { value == 0 && script == [] }
  }

  const NULL_OUT := TxOut(-1, [])

  datatype OutPoint = OutPoint(hash: Hash, n: nat) {
    predicate IsNull() { hash == 0 && n == NULL_INDEX }
  }

  /** The denomination is what the script of a zerocoin spend redeems. */
  datatype TxIn = TxIn(prevout: OutPoint, zerocoinSpend: bool, sequence: nat, denomination: nat)

  datatype Tx = Tx(hash: Hash, version: int, vin: seq<TxIn>, vout: seq<TxOut>) {
    predicate HasZerocoinSpendInputs() {
      exists i :: 0 <= i < |vin| && vin[i].zerocoinSpend
    }

    predicate HasZerocoinMintOutputs() {
      exists i :: 0 <= i < |vout| && IsZerocoinMint(vout[i].script)
    }

    predicate ContainsZerocoins() {
      HasZerocoinSpendInputs() || HasZerocoinMintOutputs()
    }

    predicate IsCoinBase() {
      |vin| == 1 && vin[0].prevout.IsNull() && !ContainsZerocoins()
    }

    predicate IsCoinStake() {
      && |vin| > 0
      && (vin[0].prevout.IsNull() ==> vin[0].zerocoinSpend)
      && |vout| >= 2 && vout[0].IsEmpty()
    }

    /** Whether the inputs name outputs of the coin database. */
    predicate SpendsCoins() {
      !IsCoinBase() && !HasZerocoinSpendInputs()
    }
  }
}
