/** Transactions of the UTXO ledger: inputs that spend earlier outputs, outputs
    that lock a value to an address, the coinbase shape, and the content-derived
    transaction identifier. */
module Transactions {
  import opened GoLib

  /** The value a coinbase transaction mints. */
  const Subsidy: int := 10

  /** Spends output `vout` of transaction `txid`; `scriptSig` is the unlocking token. */
  datatype TxInput = TxInput(txid: string, vout: int, scriptSig: string)

  /** Locks `value` to the address `scriptPubKey`. */
  datatype TxOutput = TxOutput(value: int, scriptPubKey: string)

  datatype Transaction = Transaction(id: string, vin: seq<TxInput>, vout: seq<TxOutput>)

  /** The encoding `encoding/gob` produces for a transaction, left uninterpreted. */
  type GobEncoder = Transaction -> string

  /** A minting transaction: one input that references no transaction and the
      sentinel output index -1. */
  predicate IsCoinbase(tx: Transaction)
  {
    |tx.vin| == 1 && |tx.vin[0].txid| == 0 && tx.vin[0].vout == -1
  }

  /** The input was made by the holder of `unlockingData`. */
  predicate CanUnlockOutputWith(input: TxInput, unlockingData: string)
  {
    input.scriptSig == unlockingData
  }

  /** The output may be spent by the holder of `unlockingData`. */
  predicate CanBeUnlockedWith(output: TxOutput, unlockingData: string)
  {
    output.scriptPubKey == unlockingData
  }

  /** SHA-256 of the gob encoding, hex encoded. */
  function Fingerprint(p: Primitives, gob: GobEncoder, tx: Transaction): string
  {
    p.hexEncode(p.sum256(gob(tx)))
  }

  /** The identifier is the fingerprint of the transaction as it was before the
      identifier was set, that is with an empty identifier. */
  ghost predicate IdSealed(p: Primitives, gob: GobEncoder, tx: Transaction)
  {
    tx.id == Fingerprint(p, gob, tx.(id := ""))
  }

  /** `SetID`: replaces the identifier by the fingerprint of the whole transaction
      and changes nothing else; applied to a transaction whose identifier is still
      empty, it seals the identifier. */
  function SetId(p: Primitives, gob: GobEncoder, tx: Transaction): (r: Transaction)
    ensures r.vin == tx.vin && r.vout == tx.vout
    ensures tx.id == "" ==> IdSealed(p, gob, r)
  {
    tx.(id := Fingerprint(p, gob, tx))
  }

  /** `NewCoinbaseTX`: a transaction that mints the subsidy for `to`; its input
      carries `data` as memo, or a default naming the recipient. */
  function NewCoinbaseTx(p: Primitives, gob: GobEncoder, to: string, data: string): (tx: Transaction)
    ensures IsCoinbase(tx)
    ensures tx.vout == [TxOutput(Subsidy, to)]
    ensures data != "" ==> tx.vin[0].scriptSig == data
    ensures data == "" ==> tx.vin[0].scriptSig == "Reward to '" + to + "'"
    ensures IdSealed(p, gob, tx)
  {
    var memo := if data == "" then "Reward to '" + to + "'" else data;
    var txin := TxInput("", -1, memo);
    var txout := TxOutput(Subsidy, to);
    SetId(p, gob, Transaction("", [txin], [txout]))
  }

  /** Sum of the values of a sequence of outputs. */
  function SumOutputValues(outs: seq<TxOutput>): int
  {
    if outs == [] then 0 else SumOutputValues(outs[..|outs| - 1]) + outs[|outs| - 1].value
  }
}
