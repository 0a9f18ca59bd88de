/** The light client's loops: one block, the walk over attested batches, and cold start. */
module Walk {
  import opened Primitives
  import opened Types
  import opened Messages
  import opened SparseMerkle
  import opened SparseUpdate
  import opened Ledger
  import opened MintProof
  import opened Witness
  import opened Node
  import opened LightClient

  /** One link of the attestation chain found on L1. */
  datatype ChainStep = ChainStep(attestation: Attestation, l1Height: u32, newAnchor: OutPoint)

  /** What a node, honest or not, serves during one walk. */
  datatype Server = Server(blocks: BlockSource, witnesses: map<u32, BlockWitness>)

  // ---------- wallet events ----------

  datatype ObservedTx =
    | TransferIn(sender: Address, amountIn: u64, inSighash: Digest)
    | TransferOut(recipient: Address, amountOut: u64, outSighash: Digest)
    | MintIn(minted: u64, nullifierHex: Bytes)

  datatype TxEvent = TxEvent(l2Height: u32, l1Height: u32, blockTs: u64, kind: ObservedTx)

  function EventsOfTx(own: Address, height: u32, h: Header, tx: L2Tx): seq<TxEvent> {
    match tx
    case Mint(e) =>
      if e.event.destination == own
      then [TxEvent(height, h.l1Height, h.timestamp, MintIn(e.event.amount, e.event.nullifierHex))] else []
    case Transfer(t) =>
      var d := TransferSighash(t.body);
      (if t.body.recipient == own
       then [TxEvent(height, h.l1Height, h.timestamp, TransferIn(t.body.sender, t.body.amount, d))] else [])
      + (if t.body.sender == own
         then [TxEvent(height, h.l1Height, h.timestamp, TransferOut(t.body.recipient, t.body.amount, d))] else [])
  }

  function EventsOf(own: Address, height: u32, h: Header, txs: seq<L2Tx>): seq<TxEvent>
    decreases |txs|
  {
    if txs == [] then [] else EventsOfTx(own, height, h, txs[0]) + EventsOf(own, height, h, txs[1..])
  }

  /** What the blocks above height `lo`, up to `hi`, say to the wallet. */
  function EventsBetween(own: Address, blocks: BlockSource, lo: nat, hi: nat): seq<TxEvent>
    decreases hi
  {
    if hi <= lo || hi !in blocks then []
    else EventsBetween(own, blocks, lo, hi - 1) + EventsOf(own, hi, blocks[hi].header, blocks[hi].txs)
  }

  // ---------- one block ----------

  /** Fills the partial ledger from the served proofs. */
  method FillSparse(head: VerifiedHead, proofs: seq<InclusionProof>) returns (ls: LedgerState)
    ensures fresh(ls) && ls.Value() == SparseState(head, proofs)
  {
    ls := new LedgerState(State(map[], head.nullifiers, head.minted, head.fee));
    for i := 0 to |proofs|
      invariant ls.Value() == State(SparseAccounts(proofs[..i]), head.nullifiers, head.minted, head.fee)
      invariant fresh(ls)
    {
      assert proofs[..i + 1][..i] == proofs[..i];
      if proofs[i].leaf.Occupied? {
        ls.accounts := ls.accounts[proofs[i].address := proofs[i].leaf.account];
      }
    }
    assert proofs[..|proofs|] == proofs;
  }

  method CollectEvents(own: Address, height: u32, h: Header, txs: seq<L2Tx>) returns (events: seq<TxEvent>)
    ensures events == EventsOf(own, height, h, txs)
  {
    hide EventsOfTx;
    events := [];
    assert txs[0..] == txs;
    for i := 0 to |txs|
      invariant EventsOf(own, height, h, txs) == events + EventsOf(own, height, h, txs[i..])
    {
      assert txs[i..][1..] == txs[i + 1..];
      events := events + EventsOfTx(own, height, h, txs[i]);
    }
    assert txs[|txs|..] == [];
  }

  /** Replays one block on a partial ledger and concludes. */
  method VerifyOneBlock(head: VerifiedHead, height: u32, block: Block, wit: BlockWitness, att: Option<Attestation>,
                        view: L1View)
    returns (r: Result<VerifiedHead, VerifyError>, events: seq<TxEvent>)
    ensures r == VerifyBlock(head, height, block, wit, att, view)
    ensures r.Ok? ==> events == EventsOf(head.ownAddress, height, block.header, block.txs)
    ensures r.Err? ==> events == []
  {
    hide Replay, Conclude, SparseState, VerifyMints, TxsRoot, HeaderHash, TouchedByAll, EventsOf;
    events := [];
    var broken := Structure(head, height, block, wit, att);
    if broken.Some? {
      return Err(broken.value), [];
    }
    var badMint := CheckMints(block.txs, view);
    if badMint.Some? {
      return Err(BlockRejected(BadMint(badMint.value))), [];
    }
    var ledger := FillSparse(head, wit.preProofs);
    var badTx := ledger.ApplyAll(block.txs);
    if badTx.Some? {
      return Err(BlockRejected(BadTx(badTx.value))), [];
    }
    r := FinishBlock(head, height, block, wit.preProofs, ledger.Value());
    if r.Ok? {
      events := CollectEvents(head.ownAddress, height, block.header, block.txs);
    }
  }

  method FinishBlock(head: VerifiedHead, height: u32, block: Block, proofs: seq<InclusionProof>, after: State)
    returns (r: Result<VerifiedHead, VerifyError>)
    ensures r == Conclude(head, height, block, proofs, after)
  {
    hide ApplyUpdates, RefreshObserver, Verifies, NullifiersHash, HeaderHash, LeafOf;
    var us := UpdatesFor(proofs, after.accounts);
    var root := head.accountsRoot;
    if us != [] {
      var updated := ComputeUpdatedRoot(us, head.accountsRoot);
      if updated.Err? {
        return Err(SparseUpdateFailed(updated.error));
      }
      root := updated.value;
    }
    var stateRoot := Hash(StateMsg(root, NullifiersHash(after.nullifiers), after.fee));
    if stateRoot != block.header.stateRoot {
      return Err(BlockRejected(StateRootMismatch));
    }
    var own := OwnProof(head);
    if us != [] {
      var refreshed := ComputeRefreshedProof(own, us, head.accountsRoot);
      if refreshed.Err? {
        return Err(RefreshFailed(refreshed.error));
      }
      own := refreshed.value;
    }
    var ok := Verify(own, root);
    if !ok {
      return Err(ObserverProofInvalid);
    }
    return Ok(VerifiedHead(stateRoot, root, height, HeaderHash(block.header), block.header.l1Height, head.anchor,
                           head.ownAddress, own.leaf, own.siblings, after.nullifiers, after.minted, after.fee));
  }

  // ---------- the walk ----------

  function WalkRange(head: VerifiedHead, height: int, att: Attestation, server: Server,
                     view: L1View): Result<VerifiedHead, VerifyError>
    requires 0 <= height
    decreases att.height + 1 - height
  {
    if height > att.height then Ok(head)
    else if height !in server.blocks || height !in server.witnesses then Err(BlockRejected(FetchFailed))
    else
      match VerifyBlock(head, height, server.blocks[height], server.witnesses[height],
                        if height == att.height then Some(att) else None, view)
      case Err(e) => Err(e)
      case Ok(next) => WalkRange(next, height + 1, att, server, view)
  }

  function WalkStep(head: VerifiedHead, step: ChainStep, server: Server, view: L1View)
    : Result<VerifiedHead, VerifyError> {
    if step.attestation.height <= head.height then Ok(head.(anchor := step.newAnchor))
    else match WalkRange(head, head.height + 1, step.attestation, server, view)
      case Err(e) => Err(e)
      case Ok(next) => Ok(next.(anchor := step.newAnchor, l1Height := step.l1Height))
  }

  function WalkAll(head: VerifiedHead, steps: seq<ChainStep>, server: Server, view: L1View)
    : Result<VerifiedHead, VerifyError>
    decreases |steps|
  {
    if steps == [] then Ok(head)
    else match WalkStep(head, steps[0], server, view)
      case Err(e) => Err(e)
      case Ok(next) => WalkAll(next, steps[1..], server, view)
  }

  method WalkForward(start: VerifiedHead, steps: seq<ChainStep>, server: Server, view: L1View)
    returns (r: Result<VerifiedHead, VerifyError>, count: nat, events: seq<TxEvent>)
    ensures r == WalkAll(start, steps, server, view)
    ensures r.Ok? ==> start.height <= r.value.height && count == r.value.height - start.height
    ensures r.Ok? ==> events == EventsBetween(start.ownAddress, server.blocks, start.height, r.value.height)
  {
    hide VerifyBlock, EventsOf;
    var head := start;
    count, events := 0, [];
    assert steps[0..] == steps;
    for i := 0 to |steps|
      invariant WalkAll(start, steps, server, view) == WalkAll(head, steps[i..], server, view)
      invariant head.height == start.height + count && head.ownAddress == start.ownAddress
      invariant events == EventsBetween(start.ownAddress, server.blocks, start.height, head.height)
    {
      assert steps[i..][1..] == steps[i + 1..];
      var step := steps[i];
      var target := step.attestation.height;
      if target <= head.height {
        head := head.(anchor := step.newAnchor);
      } else {
        ghost var before := head;
        var h := head.height + 1;
        while h <= target
          invariant before.height + 1 <= h <= target + 1
          invariant head.height == h - 1 == start.height + count && head.ownAddress == start.ownAddress
          invariant events == EventsBetween(start.ownAddress, server.blocks, start.height, head.height)
          invariant WalkRange(before, before.height + 1, step.attestation, server, view)
                 == WalkRange(head, h, step.attestation, server, view)
        {
          if h !in server.blocks || h !in server.witnesses {
            return Err(BlockRejected(FetchFailed)), count, events;
          }
          var end := if h == target then Some(step.attestation) else None;
          var next, more := VerifyOneBlock(head, h, server.blocks[h], server.witnesses[h], end, view);
          if next.Err? {
            return Err(next.error), count, events;
          }
          NextHeight(head, h, server.blocks[h], server.witnesses[h], end, view);
          head := next.value;
          events := events + more;
          count := count + 1;
          h := h + 1;
        }
        head := head.(anchor := step.newAnchor, l1Height := step.l1Height);
      }
    }
    assert steps[|steps|..] == [];
    r := Ok(head);
  }

  lemma NextHeight(head: VerifiedHead, height: u32, block: Block, wit: BlockWitness, att: Option<Attestation>,
                   view: L1View)
    requires VerifyBlock(head, height, block, wit, att, view).Ok?
    ensures var next := VerifyBlock(head, height, block, wit, att, view).value;
            next.height == height && next.ownAddress == head.ownAddress
  {
    hide Verifies, Replay, Structure, NewOwnProof, NewAccountsRoot, VerifyMints;
  }

  // ---------- soundness of the walk ----------

  /** Messages hashed while verifying one batch, followed along the full node's run. */
  ghost function RangeMsgs(n: NodeState, height: int, att: Attestation, server: Server, view: L1View): set<Msg>
    requires 0 <= height
    decreases att.height + 1 - height
  {
    if height > att.height || height !in server.blocks || height !in server.witnesses then {}
    else
      BlockMsgs(n.state, server.witnesses[height])
      + match ApplyBlock(n, height, server.blocks[height], if height == att.height then Some(att) else None, view)
        case Err(_) => {}
        case Ok(n') => RangeMsgs(n', height + 1, att, server, view)
  }

  ghost function WalkMsgs(n: NodeState, steps: seq<ChainStep>, server: Server, view: L1View): set<Msg>
    decreases |steps|
  {
    if steps == [] then {}
    else
      var att := steps[0].attestation;
      (if att.height <= n.head.height then {} else RangeMsgs(n, n.head.height + 1, att, server, view))
      + WalkMsgs(ProcessAttestation(n, att, server.blocks, view).0, steps[1..], server, view)
  }

  /** The client stands where the node stands. */
  ghost predicate Mirrors(head: VerifiedHead, n: NodeState) {
    && Represents(head, n.state)
    && head.height == n.head.height && head.blockHash == n.head.blockHash
  }

  /** A node at a head differing only in the recorded L1 height decides alike. */
  lemma NodeHeadIrrelevant(head: VerifiedHead, n: NodeState, height: u32, block: Block, att: Option<Attestation>,
                           view: L1View)
    requires head.blockHash == n.head.blockHash
    ensures ApplyBlock(n, height, block, att, view) == ApplyBlock(NodeAt(head, n.state), height, block, att, view)
  {
    hide Replay, StateRoot, VerifyMints, ValidateBlock;
  }

  lemma BlockMirrored(head: VerifiedHead, n: NodeState, height: u32, block: Block, wit: BlockWitness,
                      att: Option<Attestation>, view: L1View)
    requires Mirrors(head, n) && (att.Some? ==> att.value.height == height)
    requires VerifyBlock(head, height, block, wit, att, view).Ok? && !CollisionIn(BlockMsgs(n.state, wit))
    ensures var c := VerifyBlock(head, height, block, wit, att, view).value;
            var n' := ApplyBlock(n, height, block, att, view);
            && n'.Ok? && Mirrors(c, n'.value) && c.height == height
            && (head.minted == n.state.minted ==> c.minted == n'.value.state.minted)
  {
    hide Represents, VerifyBlock, ApplyBlock, BlockMsgs, Replay, StateRoot;
    VerifyBlockSound(head, n.state, height, block, wit, att, view);
    NodeHeadIrrelevant(head, n, height, block, att, view);
    NextHeight(head, height, block, wit, att, view);
  }

  lemma RangeDone(head: VerifiedHead, n: NodeState, height: int, att: Attestation, server: Server, view: L1View)
    requires 0 <= height && height > att.height
    ensures WalkRange(head, height, att, server, view) == Ok(head)
    ensures ApplyRange(n, height, att, server.blocks, view) == (n, None)
  {
  }

  lemma WalkRangeStep(head: VerifiedHead, height: int, att: Attestation, server: Server, view: L1View)
    requires 0 <= height <= att.height && WalkRange(head, height, att, server, view).Ok?
    ensures height in server.blocks && height in server.witnesses
    ensures var c := VerifyBlock(head, height, server.blocks[height], server.witnesses[height],
                                 if height == att.height then Some(att) else None, view);
            c.Ok? && WalkRange(head, height, att, server, view) == WalkRange(c.value, height + 1, att, server, view)
  {
    hide VerifyBlock;
  }

  lemma RangeMsgsStep(n: NodeState, height: int, att: Attestation, server: Server, view: L1View)
    requires 0 <= height <= att.height && height in server.blocks && height in server.witnesses
    ensures BlockMsgs(n.state, server.witnesses[height]) <= RangeMsgs(n, height, att, server, view)
    ensures var end := if height == att.height then Some(att) else None;
            var n' := ApplyBlock(n, height, server.blocks[height], end, view);
            n'.Ok? ==>
              && RangeMsgs(n'.value, height + 1, att, server, view) <= RangeMsgs(n, height, att, server, view)
              && ApplyRange(n, height, att, server.blocks, view)
                 == ApplyRange(n'.value, height + 1, att, server.blocks, view)
  {
    hide ApplyBlock, BlockMsgs;
  }

  lemma {:induction false} WalkRangeSound(head: VerifiedHead, n: NodeState, height: int, att: Attestation,
                                          server: Server, view: L1View)
    requires 0 <= height <= att.height + 1 && Mirrors(head, n) && head.height == height - 1
    requires WalkRange(head, height, att, server, view).Ok?
    requires !CollisionIn(RangeMsgs(n, height, att, server, view))
    ensures var (n', e) := ApplyRange(n, height, att, server.blocks, view);
            var reached := WalkRange(head, height, att, server, view).value;
            && e.None? && Mirrors(reached, n')
            && (head.minted == n.state.minted ==> reached.minted == n'.state.minted)
    decreases att.height + 1 - height
  {
    hide Mirrors, VerifyBlock, ApplyBlock, BlockMsgs, WalkRange, RangeMsgs, ApplyRange;
    if height > att.height {
      RangeDone(head, n, height, att, server, view);
    } else {
      WalkRangeStep(head, height, att, server, view);
      RangeMsgsStep(n, height, att, server, view);
      var block, wit := server.blocks[height], server.witnesses[height];
      var end := if height == att.height then Some(att) else None;
      var all := RangeMsgs(n, height, att, server, view);
      CollisionMonotone(BlockMsgs(n.state, wit), all);
      BlockMirrored(head, n, height, block, wit, end, view);
      var n' := ApplyBlock(n, height, block, end, view).value;
      CollisionMonotone(RangeMsgs(n', height + 1, att, server, view), all);
      WalkRangeSound(VerifyBlock(head, height, block, wit, end, view).value, n', height + 1, att, server, view);
    }
  }

  function Attestations(steps: seq<ChainStep>): (r: seq<Attestation>)
    ensures |r| == |steps|
    ensures forall i :: 0 <= i < |r| ==> r[i] == steps[i].attestation
  {
    seq(|steps|, i requires 0 <= i < |steps| => steps[i].attestation)
  }

  lemma RepresentsAnchor(head: VerifiedHead, n: NodeState, anchor: OutPoint, l1Height: u32)
    ensures Mirrors(head, n) == Mirrors(head.(anchor := anchor), n)
    ensures Mirrors(head, n) == Mirrors(head.(anchor := anchor, l1Height := l1Height), n)
  {
    hide TrueProof, StateRoot, Root;
  }

  /** Light-client soundness lifted to any number of attested batches: if the walk
      succeeds, a full node following the same attestations from the ledger the client
      stood for also succeeds, and the client stands for the ledger it reaches. */
  lemma {:induction false} WalkSound(head: VerifiedHead, n: NodeState, steps: seq<ChainStep>, server: Server,
                                     view: L1View)
    requires Mirrors(head, n) && WalkAll(head, steps, server, view).Ok?
    ensures (var (n', e) := Follow(n, Attestations(steps), server.blocks, view);
             && e.None? && Mirrors(WalkAll(head, steps, server, view).value, n')
             && (head.minted == n.state.minted ==> WalkAll(head, steps, server, view).value.minted == n'.state.minted))
         || CollisionIn(WalkMsgs(n, steps, server, view))
    decreases |steps|
  {
    hide Mirrors, WalkRange, RangeMsgs, ApplyRange;
    if steps != [] && !CollisionIn(WalkMsgs(n, steps, server, view)) {
      var step := steps[0];
      var all := WalkMsgs(n, steps, server, view);
      MirrorsHeight(head, n);
      var next := WalkStep(head, step, server, view).value;
      var (n', e) := ProcessAttestation(n, step.attestation, server.blocks, view);
      assert Attestations(steps)[1..] == Attestations(steps[1..]);
      if step.attestation.height <= head.height {
        RepresentsAnchor(head, n, step.newAnchor, head.l1Height);
      } else {
        CollisionMonotone(RangeMsgs(n, n.head.height + 1, step.attestation, server, view), all);
        WalkRangeSound(head, n, n.head.height + 1, step.attestation, server, view);
        var reached := WalkRange(head, head.height + 1, step.attestation, server, view).value;
        RepresentsAnchor(reached, n', step.newAnchor, step.l1Height);
      }
      CollisionMonotone(WalkMsgs(n', steps[1..], server, view), all);
      WalkSound(next, n', steps[1..], server, view);
    }
  }

  lemma MirrorsHeight(head: VerifiedHead, n: NodeState)
    requires Mirrors(head, n)
    ensures head.height == n.head.height
  {
  }

  // ---------- completeness of the walk ----------

  /** For every block of the batch that the node reaches, the server has the witness built
      from the node's ledger, and the body matches `txs_root`. */
  ghost predicate HonestRange(n: NodeState, height: int, att: Attestation, server: Server, view: L1View)
    requires 0 <= height
    decreases att.height + 1 - height
  {
    height > att.height || height !in server.blocks ||
    (var block := server.blocks[height];
     && height in server.witnesses && server.witnesses[height] == Build(n.state, block.txs, height)
     && TxsRoot(block.txs) == block.header.txsRoot
     && match ApplyBlock(n, height, block, if height == att.height then Some(att) else None, view)
        case Err(_) => true
        case Ok(n') => HonestRange(n', height + 1, att, server, view))
  }

  ghost predicate HonestServer(n: NodeState, atts: seq<Attestation>, server: Server, view: L1View)
    decreases |atts|
  {
    atts == [] ||
    (var (n', e) := ProcessAttestation(n, atts[0], server.blocks, view);
     && (atts[0].height > n.head.height ==> HonestRange(n, n.head.height + 1, atts[0], server, view))
     && (e.None? ==> HonestServer(n', atts[1..], server, view)))
  }

  lemma HonestBlock(head: VerifiedHead, n: NodeState, height: u32, block: Block, att: Option<Attestation>, view: L1View)
    requires Mirrors(head, n) && (att.Some? ==> att.value.height == height)
    requires TxsRoot(block.txs) == block.header.txsRoot
    ensures var c := VerifyBlock(head, height, block, Build(n.state, block.txs, height), att, view);
            var n' := ApplyBlock(n, height, block, att, view);
            && (c.Ok? <==> n'.Ok?)
            && (c.Ok? ==> Mirrors(c.value, n'.value) && c.value.height == height)
  {
    hide Represents, VerifyBlock, ApplyBlock, StateRoot, TxsRoot, Build;
    HonestWitnessAccepted(head, n.state, height, block, att, view);
    NodeHeadIrrelevant(head, n, height, block, att, view);
    if VerifyBlock(head, height, block, Build(n.state, block.txs, height), att, view).Ok? {
      NextHeight(head, height, block, Build(n.state, block.txs, height), att, view);
    }
  }

  lemma {:induction false} HonestRangeAccepted(head: VerifiedHead, n: NodeState, height: int, att: Attestation,
                                               server: Server, view: L1View)
    requires 0 <= height <= att.height + 1 && Mirrors(head, n) && head.height == height - 1
    requires HonestRange(n, height, att, server, view)
    ensures var (n', e) := ApplyRange(n, height, att, server.blocks, view);
            var r := WalkRange(head, height, att, server, view);
            && (r.Ok? <==> e.None?)
            && (r.Ok? ==> Mirrors(r.value, n'))
    decreases att.height + 1 - height
  {
    hide Mirrors, VerifyBlock, ApplyBlock, Build, TxsRoot;
    if height <= att.height && height in server.blocks {
      var end := if height == att.height then Some(att) else None;
      var block := server.blocks[height];
      HonestBlock(head, n, height, block, end, view);
      var c := VerifyBlock(head, height, block, server.witnesses[height], end, view);
      if c.Ok? {
        HonestRangeAccepted(c.value, ApplyBlock(n, height, block, end, view).value, height + 1, att, server, view);
      }
    }
  }

  /** Completeness lifted to any number of batches: served with the witnesses a node
      builds, a wallet completes its walk exactly when the full node completes the same
      attestations, and then stands for the node's ledger. No hash assumption is used. */
  lemma {:induction false} HonestWalkAccepted(head: VerifiedHead, n: NodeState, steps: seq<ChainStep>, server: Server,
                                              view: L1View)
    requires Mirrors(head, n) && HonestServer(n, Attestations(steps), server, view)
    ensures var (n', e) := Follow(n, Attestations(steps), server.blocks, view);
            var r := WalkAll(head, steps, server, view);
            && (r.Ok? <==> e.None?)
            && (r.Ok? ==> Mirrors(r.value, n'))
    decreases |steps|
  {
    hide Mirrors, WalkRange, ApplyRange, HonestRange;
    if steps != [] {
      var step := steps[0];
      MirrorsHeight(head, n);
      assert Attestations(steps)[1..] == Attestations(steps[1..]);
      var (n', e) := ProcessAttestation(n, step.attestation, server.blocks, view);
      if step.attestation.height <= head.height {
        RepresentsAnchor(head, n, step.newAnchor, head.l1Height);
      } else {
        HonestRangeAccepted(head, n, n.head.height + 1, step.attestation, server, view);
        if e.None? {
          var reached := WalkRange(head, head.height + 1, step.attestation, server, view).value;
          RepresentsAnchor(reached, n', step.newAnchor, step.l1Height);
        }
      }
      if e.None? {
        HonestWalkAccepted(WalkStep(head, step, server, view).value, n', steps[1..], server, view);
      }
    }
  }

  // ---------- cold start ----------

  /** A node's answer to the balance query, and its nullifier list as a set. */
  datatype BalanceResponse = BalanceResponse(
    address: Address,
    balance: u64,
    nonce: u64,
    proof: InclusionProof,
    height: u32,
    stateRoot: Digest,
    accountsRoot: Digest,
    nullifiersHash: Digest,
    fee: Option<Address>,
    minted: u64,
    nullifiers: set<Bytes>)

  datatype BootError = NodeBehind | WrongAddress | ComponentsMismatch | BadProof | LeafMismatch | NullifiersMismatch

  /** What L1 says about the attested head. */
  datatype Attested = Attested(stateRoot: Digest, height: u32, blockHash: Digest, l1Height: u32, anchor: OutPoint)

  predicate LeafAgrees(leaf: LeafKind, balance: u64, nonce: u64) {
    match leaf
    case Occupied(acct) => acct.balance == balance && acct.nonce == nonce
    case Empty => balance == 0 && nonce == 0
  }

  function Bootstrap(own: Address, l1: Attested, bal: BalanceResponse): Result<VerifiedHead, BootError> {
    if bal.stateRoot != l1.stateRoot || bal.height != l1.height then Err(NodeBehind)
    else if bal.address != own then Err(WrongAddress)
    else if Hash(StateMsg(bal.accountsRoot, bal.nullifiersHash, bal.fee)) != bal.stateRoot then Err(ComponentsMismatch)
    else if !Verifies(bal.proof, bal.accountsRoot) then Err(BadProof)
    else if !LeafAgrees(bal.proof.leaf, bal.balance, bal.nonce) then Err(LeafMismatch)
    else if NullifiersHash(bal.nullifiers) != bal.nullifiersHash then Err(NullifiersMismatch)
    else Ok(VerifiedHead(bal.stateRoot, bal.accountsRoot, l1.height, l1.blockHash, l1.l1Height, l1.anchor,
                         own, bal.proof.leaf, bal.proof.siblings, bal.nullifiers, bal.minted, bal.fee))
  }

  /** Cold start succeeds exactly if the node is at the attested head, answers for this address,
      its components hash to the root, its proof verifies and shows the reported balance and
      nonce, and its nullifiers hash to the component; the head takes L1's word for its place
      on the chain and the node's for the rest, and shows what the node reported. */
  lemma BootstrapVerdict(own: Address, l1: Attested, bal: BalanceResponse)
    ensures var r := Bootstrap(own, l1, bal);
            && (r.Ok? <==>
                 && bal.stateRoot == l1.stateRoot && bal.height == l1.height && bal.address == own
                 && Hash(StateMsg(bal.accountsRoot, bal.nullifiersHash, bal.fee)) == bal.stateRoot
                 && Verifies(bal.proof, bal.accountsRoot)
                 && (bal.proof.leaf == Occupied(Account(bal.balance, bal.nonce))
                     || (bal.proof.leaf == Empty && bal.balance == 0 && bal.nonce == 0))
                 && Hash(NullifiersMsg(bal.nullifiers)) == bal.nullifiersHash)
            && (r.Ok? ==>
                 && r.value == VerifiedHead(l1.stateRoot, bal.accountsRoot, l1.height, l1.blockHash, l1.l1Height,
                                            l1.anchor, own, bal.proof.leaf, bal.proof.siblings, bal.nullifiers,
                                            bal.minted, bal.fee)
                 && BalanceFrom(r.value, own) == (bal.balance, bal.nonce))
            && (bal.stateRoot != l1.stateRoot || bal.height != l1.height <==> r == Err(NodeBehind))
  {
    hide Hash, Verifies;
  }

  ghost function BootMsgs(own: Address, s: State, bal: BalanceResponse): set<Msg> {
    StateMsgs(s) + ProofMsgs(OwnView(own, bal))
    + {StateMsg(bal.accountsRoot, bal.nullifiersHash, bal.fee), NullifiersMsg(bal.nullifiers)}
  }

  /** The served leaf and path, read as a proof for the wallet's own address. */
  function OwnView(own: Address, bal: BalanceResponse): InclusionProof {
    InclusionProof(own, bal.proof.leaf, bal.proof.siblings)
  }

  /** Cold start against the attested root of `s`. Short of a collision the resulting head
      stands for `s` exactly when the served path also verifies for the wallet's own
      address and every served nullifier has its 72 characters; neither is checked. */
  lemma BootstrapExact(own: Address, l1: Attested, bal: BalanceResponse, s: State)
    requires Bootstrap(own, l1, bal).Ok? && l1.stateRoot == StateRoot(s) && ProperNullifiers(s.nullifiers)
    ensures (Represents(Bootstrap(own, l1, bal).value, s)
             <==> ProperNullifiers(bal.nullifiers) && Verifies(OwnView(own, bal), bal.accountsRoot))
         || CollisionIn(BootMsgs(own, s, bal))
  {
    hide AccountsRoot, Root, RootMsgs, ProofMsgs, Verifies, TrueProof, Hash, LeafOf;
    var sent := BootMsgs(own, s, bal);
    if !CollisionIn(sent) {
      var head := Bootstrap(own, l1, bal).value;
      assert OwnProof(head) == OwnView(own, bal);
      Bind(sent, StateMsg(bal.accountsRoot, bal.nullifiersHash, bal.fee), StateMsgOf(s));
      ProofBinding(OwnView(own, bal), s.accounts);
      CollisionMonotone(ProofMsgs(OwnView(own, bal)) + RootMsgs(s.accounts, 0), sent);
      if ProperNullifiers(bal.nullifiers) {
        Bind(sent, NullifiersMsg(bal.nullifiers), NullifiersMsg(s.nullifiers));
      }
    }
  }

  /** The answer of a node that speaks about `s` but proves the account of `shown`. */
  function AnswerAbout(s: State, own: Address, shown: Address, height: u32, nullifiers: set<Bytes>): BalanceResponse {
    var acct := AccountOf(s.accounts, shown);
    BalanceResponse(own, acct.balance, acct.nonce, ProofOf(s.accounts, shown), height, StateRoot(s),
                    AccountsRoot(s.accounts), NullifiersHash(s.nullifiers), s.fee, s.minted, nullifiers)
  }

  /** An honest node's answer passes every check, for any ledger and any address, present
      or not, and the head then represents that ledger. */
  lemma HonestAnswerAccepted(own: Address, l1: Attested, s: State)
    requires l1.stateRoot == StateRoot(s)
    ensures var r := Bootstrap(own, l1, AnswerAbout(s, own, own, l1.height, s.nullifiers));
            r.Ok? && Represents(r.value, s)
  {
    hide AccountsRoot, Root, TrueProof, ProofOf, Hash, Verifies;
    ProofBinding(ProofOf(s.accounts, own), s.accounts);
  }

  /** Serving the proof of another, existing account is accepted; the head then shows that
      account's balance as the wallet's own and stands for no such ledger. */
  lemma BootstrapAcceptsOtherProof(own: Address, other: Address, l1: Attested, s: State)
    requires other in s.accounts && own !in s.accounts && l1.stateRoot == StateRoot(s)
    ensures var r := Bootstrap(own, l1, AnswerAbout(s, own, other, l1.height, s.nullifiers));
            r.Ok? && !Represents(r.value, s) && r.value.ownLeaf == Occupied(s.accounts[other])
  {
    hide AccountsRoot, Root, TruePath, ProofOf, Hash, Verifies;
    var p := ProofOf(s.accounts, other);
    ProofBinding(p, s.accounts);
    var head := Bootstrap(own, l1, AnswerAbout(s, own, other, l1.height, s.nullifiers)).value;
    ProofBinding(OwnProof(head), s.accounts);
  }

  /** Padding the nullifier list with an empty string is accepted too. */
  lemma BootstrapAcceptsPaddedNullifiers(own: Address, l1: Attested, s: State)
    requires l1.stateRoot == StateRoot(s) && ProperNullifiers(s.nullifiers)
    ensures var r := Bootstrap(own, l1, AnswerAbout(s, own, own, l1.height, s.nullifiers + {[]}));
            r.Ok? && !Represents(r.value, s)
  {
    hide AccountsRoot, Root, TrueProof, ProofOf, Verifies, StateRoot;
    var p := ProofOf(s.accounts, own);
    ProofBinding(p, s.accounts);
    PaddingInvisible(s.nullifiers);
    HashIsSha256(NullifiersMsg(s.nullifiers));
    HashIsSha256(NullifiersMsg(s.nullifiers + {[]}));
    assert [] !in s.nullifiers;
    assert s.nullifiers + {[]} != s.nullifiers;
    StateRootUnfold(s);
  }

  lemma StateRootUnfold(s: State)
    ensures StateRoot(s) == Hash(StateMsg(AccountsRoot(s.accounts), NullifiersHash(s.nullifiers), s.fee))
  {
  }

  /** `balance_from`: what the wallet shows for its own address is its ledger entry. */
  function BalanceFrom(head: VerifiedHead, a: Address): (u64, u64) {
    if a != head.ownAddress then (0, 0)
    else match head.ownLeaf
      case Occupied(acct) => (acct.balance, acct.nonce)
      case Empty => (0, 0)
  }

  lemma ShownBalanceTrue(head: VerifiedHead, s: State)
    requires Represents(head, s)
    ensures BalanceFrom(head, head.ownAddress)
         == (AccountOf(s.accounts, head.ownAddress).balance, AccountOf(s.accounts, head.ownAddress).nonce)
    ensures forall a :: a != head.ownAddress ==> BalanceFrom(head, a) == (0, 0)
  {
    hide TruePath, Root, StateRoot;
    TruePathLeaf(OwnProof(head), s.accounts, 0);
  }
}
