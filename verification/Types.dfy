/** Transactions, blocks and headers of the L2 chain. */
module Types {
  import opened Primitives

  datatype Account = Account(balance: u64, nonce: u64)

  datatype OutPoint = OutPoint(txid: Txid, vout: u32)

  /** Declared outcome of a mint. Nullifiers are text (hexadecimal), held as bytes. */
  datatype MintEvent = MintEvent(
    nullifierHex: Bytes,
    amount: u64,
    destination: Address,
    createHeight: u32,
    lockBlocks: u32,
    valueSat: u64)

  /** The one mint witness family in use: ownership of an L1 outpoint. */
  datatype OutpointProof = OutpointProof(
    outpoint: OutPoint,
    userKey: Address,
    lockBlocks: u32,
    claimedHeight: u32,
    signature: Signature)

  datatype MintEntry = MintEntry(event: MintEvent, proof: OutpointProof)

  datatype TransferBody = TransferBody(sender: Address, recipient: Address, amount: u64, nonce: u64)

  datatype SignedTransfer = SignedTransfer(body: TransferBody, signature: Signature)

  datatype L2Tx = Mint(entry: MintEntry) | Transfer(transfer: SignedTransfer)

  datatype Header = Header(
    height: u32,
    prevHash: Digest,
    l1BlockHash: Digest,
    l1Height: u32,
    txsRoot: Digest,
    stateRoot: Digest,
    timestamp: u64,
    anchor: Option<OutPoint>,
    producer: Option<Address>,
    feeAddress: Option<Address>)

  datatype Block = Block(header: Header, txs: seq<L2Tx>)

  datatype Attestation = Attestation(height: u32, blockHash: Digest, stateRoot: Digest)
}
