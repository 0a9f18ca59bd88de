/** The full node's acceptance of one block and of the batches attested on L1. */
module Node {
  import opened Primitives
  import opened Types
  import opened Messages
  import opened Ledger
  import opened MintProof

  datatype Head = Head(height: u32, blockHash: Digest, stateRoot: Digest, l1Height: u32)

  datatype NodeState = NodeState(state: State, head: Head)

  datatype BlockError =
    | FetchFailed
    | WrongHeight
    | AttestationMismatch
    | TxsRootMismatch
    | BadMint(mintError: MintError)
    | BadTx(applyError: ApplyError)
    | StateRootMismatch
    | PrevHashMismatch

  /** Checks of the last block of a batch against the attestation that commits to it. */
  function ValidateBlock(block: Block, att: Attestation): Option<BlockError> {
    if block.header.height != att.height || HeaderHash(block.header) != att.blockHash
       || block.header.stateRoot != att.stateRoot
    then Some(AttestationMismatch)
    else if TxsRoot(block.txs) != block.header.txsRoot then Some(TxsRootMismatch)
    else None
  }

  function HeadAfter(height: u32, block: Block): Head {
    Head(height, HeaderHash(block.header), block.header.stateRoot, block.header.l1Height)
  }

  function ApplyBlock(n: NodeState, height: u32, block: Block, att: Option<Attestation>,
                      view: L1View): Result<NodeState, BlockError> {
    if block.header.height != height then Err(WrongHeight)
    else if att.Some? && ValidateBlock(block, att.value).Some? then Err(ValidateBlock(block, att.value).value)
    else if VerifyMints(block.txs, view).Some? then Err(BadMint(VerifyMints(block.txs, view).value))
    else match Replay(n.state, block.txs)
      case Err(e) => Err(BadTx(e))
      case Ok(next) =>
        if StateRoot(next) != block.header.stateRoot then Err(StateRootMismatch)
        else if block.header.prevHash != n.head.blockHash then Err(PrevHashMismatch)
        else Ok(NodeState(next, HeadAfter(height, block)))
  }

  /** A block without transactions on top of a node's head, with any body root in its header. */
  function EmptyBlock(n: NodeState, txsRoot: Digest): Block
    requires n.head.height < U32_MAX
  {
    Block(Header(n.head.height + 1, n.head.blockHash, 0, 0, txsRoot, StateRoot(n.state), 0, None, None, None), [])
  }

  lemma EmptyBlockAccepted(n: NodeState, txsRoot: Digest, att: Option<Attestation>, view: L1View)
    requires n.head.height < U32_MAX
    requires att.Some? ==>
      var h := EmptyBlock(n, txsRoot).header;
      txsRoot == TxsRoot([]) && att.value == Attestation(h.height, HeaderHash(h), h.stateRoot)
    ensures var block := EmptyBlock(n, txsRoot);
            ApplyBlock(n, n.head.height + 1, block, att, view)
            == Ok(NodeState(n.state, HeadAfter(n.head.height + 1, block)))
  {
    hide StateRoot, HeaderHash, TxsRoot;
  }

  /** Whatever the node and the view: at the end of a batch the body must match `txs_root`. */
  lemma WrongBodyRefused(n: NodeState, height: u32, block: Block, att: Attestation, view: L1View)
    ensures ApplyBlock(n, height, block, Some(att), view).Ok? ==> TxsRoot(block.txs) == block.header.txsRoot
  {
    hide StateRoot, HeaderHash, TxsRoot, Replay, VerifyMints;
  }

  /** A source of block bodies, honest or not, as it answers during one pass. */
  type BlockSource = map<u32, Block>

  /** One batch: blocks `height`..`att.height`, only the last one checked against L1.
      On failure the blocks already applied stay applied. */
  function ApplyRange(n: NodeState, height: int, att: Attestation, source: BlockSource, view: L1View): (NodeState,
                      Option<BlockError>)
    requires 0 <= height
    decreases att.height + 1 - height
  {
    if height > att.height then (n, None)
    else if height !in source then (n, Some(FetchFailed))
    else
      match ApplyBlock(n, height, source[height], if height == att.height then Some(att) else None, view)
      case Err(e) => (n, Some(e))
      case Ok(n') => ApplyRange(n', height + 1, att, source, view)
  }

  /** One attestation as a node processes it: known heights are skipped. */
  function ProcessAttestation(n: NodeState, att: Attestation, source: BlockSource, view: L1View): (NodeState,
                              Option<BlockError>) {
    if att.height <= n.head.height then (n, None)
    else ApplyRange(n, n.head.height + 1, att, source, view)
  }

  function Follow(n: NodeState, atts: seq<Attestation>, source: BlockSource, view: L1View): (NodeState,
                  Option<BlockError>)
    decreases |atts|
  {
    if atts == [] then (n, None)
    else
      var (n', e) := ProcessAttestation(n, atts[0], source, view);
      if e.Some? then (n', e) else Follow(n', atts[1..], source, view)
  }
}
