/** Commitment records and the transactions they name. */
module Records {
  import opened Bits
  import opened Trie
  import opened Merkle

  datatype OutPoint = OutPoint(hash: Digest, index: nat)
  datatype TxOut = TxOut(value: nat, script: Bytes)
  datatype Tx = Tx(inputs: seq<OutPoint>, outputs: seq<TxOut>)

  /** `wire.Commitment`; `tx` is the transaction its raw bytes parse to. */
  datatype Record = Record(
    commitment: Digest, txHash: Digest, triggeredAt: int,
    includedIn: Option<Digest>, proof: MerkleProof, tx: Tx)

  /** The first input of `r` spends the change output of `prev`, as the next link of the chain does. */
  predicate Follows(prev: Record, r: Record)
  {
    |r.tx.inputs| > 0 && r.tx.inputs[0] == OutPoint(prev.txHash, 1)
  }

  /** The commitment is the data of the first output: OP_RETURN, a length and the 32 bytes. */
  predicate Carries(tx: Tx, commitment: Digest)
  {
    |tx.outputs| > 0 && tx.outputs[0].script == [0x6a, 32] + commitment
  }

  lemma CarriesOne(tx: Tx, a: Digest, b: Digest)
    requires Carries(tx, a) && Carries(tx, b)
    ensures a == b
  {
    var s := tx.outputs[0].script;
    assert s[2..] == a && s[2..] == b;
  }
}
