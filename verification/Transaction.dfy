/** Transactions as the notification code sees them. */
module Transactions {
  import opened Basics

  datatype OutPoint = OutPoint(tx: nat, index: nat)

  type Address = string

  /** A transaction: its hash, the outpoints it spends, the address each input's witness belongs
      to where there is one, and the addresses each output pays. */
  datatype Tx = Tx(id: nat, inputs: seq<OutPoint>, signers: seq<Option<Address>>, outputs: seq<seq<Address>>)
}
