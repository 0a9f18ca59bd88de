/** The light client: it holds one leaf, one sibling path and the nullifier set, and
    verifies blocks without the account table. */
module LightClient {
  import opened Primitives
  import opened Types
  import opened Messages
  import opened SparseMerkle
  import opened SparseUpdate
  import opened Ledger
  import opened MintProof
  import opened Witness
  import opened Node

  datatype VerifiedHead = VerifiedHead(
    stateRoot: Digest,
    accountsRoot: Digest,
    height: u32,
    blockHash: Digest,
    l1Height: u32,
    anchor: OutPoint,
    ownAddress: Address,
    ownLeaf: LeafKind,
    ownPath: seq<Digest>,
    nullifiers: set<Bytes>,
    minted: u64,
    fee: Option<Address>)

  datatype VerifyError =
    | BlockRejected(blockError: BlockError)
    | WitnessHeightMismatch
    | PriorRootMismatch
    | TouchedSetMismatch
    | SparseUpdateFailed(updateError: UpdateError)
    | RefreshFailed(refreshError: UpdateError)
    | ObserverProofInvalid

  function OwnProof(head: VerifiedHead): InclusionProof {
    InclusionProof(head.ownAddress, head.ownLeaf, head.ownPath)
  }

  // ---------- the sparse replay ----------

  function SparseAccounts(proofs: seq<InclusionProof>): Accounts
    decreases |proofs|
  {
    if proofs == [] then map[]
    else
      var n := |proofs| - 1;
      var before := SparseAccounts(proofs[..n]);
      if proofs[n].leaf.Occupied? then before[proofs[n].address := proofs[n].leaf.account] else before
  }

  /** The partial ledger a block is replayed on. */
  function SparseState(head: VerifiedHead, proofs: seq<InclusionProof>): State {
    State(SparseAccounts(proofs), head.nullifiers, head.minted, head.fee)
  }

  function UpdatesFor(proofs: seq<InclusionProof>, after: Accounts): (us: seq<Update>)
    ensures |us| == |proofs|
    ensures forall i :: 0 <= i < |us| ==> us[i] == Update(proofs[i], LeafOf(after, proofs[i].address))
  {
    seq(|proofs|, i requires 0 <= i < |proofs| => Update(proofs[i], LeafOf(after, proofs[i].address)))
  }

  // ---------- one block ----------

  /** Checks that need neither the proofs nor the replay. */
  function Structure(head: VerifiedHead, height: u32, block: Block, wit: BlockWitness,
                     att: Option<Attestation>): Option<VerifyError> {
    if block.header.height != height then Some(BlockRejected(WrongHeight))
    else if att.Some?
            && (HeaderHash(block.header) != att.value.blockHash || block.header.stateRoot != att.value.stateRoot)
    then Some(BlockRejected(AttestationMismatch))
    else if TxsRoot(block.txs) != block.header.txsRoot then Some(BlockRejected(TxsRootMismatch))
    else if block.header.prevHash != head.blockHash then Some(BlockRejected(PrevHashMismatch))
    else if wit.height != height then Some(WitnessHeightMismatch)
    else if wit.priorAccountsRoot != head.accountsRoot then Some(PriorRootMismatch)
    else if !CoversTouched(wit.preProofs, TouchedByAll(block.txs, head.fee)) then Some(TouchedSetMismatch)
    else None
  }

  function NewAccountsRoot(head: VerifiedHead, us: seq<Update>): Result<Digest, UpdateError> {
    if us == [] then Ok(head.accountsRoot) else ApplyUpdates(us, head.accountsRoot)
  }

  function NewOwnProof(head: VerifiedHead, us: seq<Update>): Result<InclusionProof, UpdateError> {
    if us == [] then Ok(OwnProof(head)) else RefreshObserver(OwnProof(head), us, head.accountsRoot)
  }

  /** Everything after the replay: the new roots and the refreshed own proof. */
  function Conclude(head: VerifiedHead, height: u32, block: Block, proofs: seq<InclusionProof>,
                    after: State): Result<VerifiedHead, VerifyError> {
    var us := UpdatesFor(proofs, after.accounts);
    match NewAccountsRoot(head, us)
    case Err(e) => Err(SparseUpdateFailed(e))
    case Ok(root) =>
      var stateRoot := Hash(StateMsg(root, NullifiersHash(after.nullifiers), after.fee));
      if stateRoot != block.header.stateRoot then Err(BlockRejected(StateRootMismatch))
      else match NewOwnProof(head, us)
        case Err(e) => Err(RefreshFailed(e))
        case Ok(own) =>
          if !Verifies(own, root) then Err(ObserverProofInvalid)
          else Ok(VerifiedHead(stateRoot, root, height, HeaderHash(block.header), block.header.l1Height, head.anchor,
                               head.ownAddress, own.leaf, own.siblings, after.nullifiers, after.minted, after.fee))
  }

  function VerifyBlock(head: VerifiedHead, height: u32, block: Block, wit: BlockWitness, att: Option<Attestation>,
                       view: L1View): Result<VerifiedHead, VerifyError> {
    if Structure(head, height, block, wit, att).Some? then Err(Structure(head, height, block, wit, att).value)
    else if VerifyMints(block.txs, view).Some? then Err(BlockRejected(BadMint(VerifyMints(block.txs, view).value)))
    else match Replay(SparseState(head, wit.preProofs), block.txs)
      case Err(e) => Err(BlockRejected(BadTx(e)))
      case Ok(after) => Conclude(head, height, block, wit.preProofs, after)
  }

  // ---------- what a head stands for ----------

  /** The head commits to the full ledger `s` and carries the true proof of its own
      account in it. The mint counter is committed by no root and is not included. */
  ghost predicate Represents(head: VerifiedHead, s: State) {
    && head.accountsRoot == Root(s.accounts)
    && head.stateRoot == StateRoot(s)
    && head.nullifiers == s.nullifiers
    && head.fee == s.fee
    && TrueProof(OwnProof(head), s.accounts)
  }

  function NodeHeadOf(head: VerifiedHead): Head {
    Head(head.height, head.blockHash, head.stateRoot, head.l1Height)
  }

  /** A full node holding `s` at the client's own block. */
  function NodeAt(head: VerifiedHead, s: State): NodeState { NodeState(s, NodeHeadOf(head)) }

  // ---------- the sparse replay agrees with the full one ----------

  predicate DistinctAddresses(proofs: seq<InclusionProof>) {
    forall i, j :: 0 <= i < j < |proofs| ==> proofs[i].address != proofs[j].address
  }

  lemma CountedTwice(addrs: seq<Address>, i: nat, j: nat)
    requires i < j < |addrs|
    ensures addrs[i] == addrs[j] ==> multiset(addrs)[addrs[i]] >= 2
  {
    assert addrs == addrs[..j] + addrs[j..];
    assert addrs[..j][i] == addrs[i] && addrs[j..][0] == addrs[j];
    assert addrs[i] in addrs[..j] && addrs[j] in addrs[j..];
  }

  lemma CoveredOnce(proofs: seq<InclusionProof>, touched: set<Address>)
    requires CoversTouched(proofs, touched)
    ensures DistinctAddresses(proofs)
    ensures forall a :: a in touched <==> exists i :: 0 <= i < |proofs| && proofs[i].address == a
  {
    var addrs := AddressesOf(proofs);
    forall i, j | 0 <= i < j < |proofs|
      ensures proofs[i].address != proofs[j].address
    {
      CountedTwice(addrs, i, j);
    }
    forall a
      ensures a in touched <==> exists i :: 0 <= i < |proofs| && proofs[i].address == a
    {
      assert a in touched <==> a in multiset(touched);
      assert a in multiset(addrs) <==> a in addrs;
      if a in addrs {
        var i :| 0 <= i < |addrs| && addrs[i] == a;
        assert proofs[i].address == a;
      }
    }
  }

  lemma {:induction false} SparseLeaves(proofs: seq<InclusionProof>)
    requires DistinctAddresses(proofs)
    ensures forall i :: 0 <= i < |proofs| ==> LeafOf(SparseAccounts(proofs), proofs[i].address) == proofs[i].leaf
    ensures forall a :: a in SparseAccounts(proofs) ==> exists i :: 0 <= i < |proofs| && proofs[i].address == a
    decreases |proofs|
  {
    if proofs != [] {
      var n := |proofs| - 1;
      var init := proofs[..n];
      SparseLeaves(init);
      assert proofs[n].address !in SparseAccounts(init);
      forall a | a in SparseAccounts(proofs)
        ensures exists i :: 0 <= i < |proofs| && proofs[i].address == a
      {
        if a == proofs[n].address {
        } else {
          var i :| 0 <= i < |init| && init[i].address == a;
          assert proofs[i].address == a;
        }
      }
      forall i | 0 <= i < |proofs|
        ensures LeafOf(SparseAccounts(proofs), proofs[i].address) == proofs[i].leaf
      {
        if i < n {
          assert init[i] == proofs[i];
        }
      }
    }
  }

  lemma SparseAgrees(head: VerifiedHead, s: State, proofs: seq<InclusionProof>, touched: set<Address>)
    requires Represents(head, s) && CoversTouched(proofs, touched)
    requires forall p :: p in proofs ==> TrueProof(p, s.accounts)
    ensures Agree(SparseState(head, proofs), s, touched)
  {
    hide TruePath, Root, StateRoot, SparseAccounts;
    CoveredOnce(proofs, touched);
    SparseLeaves(proofs);
    forall a | a in touched
      ensures LeafOf(SparseAccounts(proofs), a) == LeafOf(s.accounts, a)
    {
      var i :| 0 <= i < |proofs| && proofs[i].address == a;
      assert proofs[i] in proofs;
      TruePathLeaf(proofs[i], s.accounts, 0);
    }
  }

  lemma {:induction false} DistinctUpdates(us: seq<Update>)
    requires forall i, j :: 0 <= i < j < |us| ==> us[i].preProof.address != us[j].preProof.address
    ensures Distinct(us)
    decreases |us|
  {
    if us != [] {
      forall v | v in us[1..]
        ensures v.preProof.address != us[0].preProof.address
      {
        var k :| 0 <= k < |us[1..]| && us[1..][k] == v;
        assert v == us[k + 1];
      }
      DistinctUpdates(us[1..]);
    }
  }

  /** The updates derived from the sparse replay edit the full account map into the map
      the full replay ends with. */
  lemma UpdatesReachFullState(head: VerifiedHead, s: State, txs: seq<L2Tx>, proofs: seq<InclusionProof>)
    requires Represents(head, s) && CoversTouched(proofs, TouchedByAll(txs, s.fee))
    requires forall p :: p in proofs ==> TrueProof(p, s.accounts)
    requires Replay(s, txs).Ok? && Replay(SparseState(head, proofs), txs).Ok?
    ensures var us := UpdatesFor(proofs, Replay(SparseState(head, proofs), txs).value.accounts);
            && Distinct(us) && TrueFrom(us, s.accounts, 0)
            && Edited(s.accounts, us) == Replay(s, txs).value.accounts
  {
    hide TruePath, Root, StateRoot, SparseAccounts, Replay, TouchedByAll, Edited, Distinct, LeafOf;
    var touched := TouchedByAll(txs, s.fee);
    var sparse := SparseState(head, proofs);
    var us := UpdatesFor(proofs, Replay(sparse, txs).value.accounts);
    SparseAgrees(head, s, proofs, touched);
    ReplayLocal(sparse, s, txs, touched);
    ReplayFrame(s, txs);
    CoveredOnce(proofs, touched);
    DistinctUpdates(us);
    forall u | u in us
      ensures |u.preProof.siblings| == TREE_DEPTH && TruePath(u.preProof, s.accounts, 0)
    {
      var i :| 0 <= i < |us| && us[i] == u;
      assert proofs[i] in proofs;
    }
    EditedLeaves(s.accounts, us);
    forall a
      ensures LeafOf(Edited(s.accounts, us), a) == LeafOf(Replay(s, txs).value.accounts, a)
    {
      if a in touched {
        var i :| 0 <= i < |proofs| && proofs[i].address == a;
        assert us[i] in us;
      } else {
        assert a !in Touched(us);
      }
    }
    MapsByLeaf(Edited(s.accounts, us), Replay(s, txs).value.accounts);
  }

  // ---------- the commuting diagram ----------

  /** From true pre-state proofs the closing checks compute the full node's state root,
      and succeed exactly when it is the header's. */
  lemma ConcludeMatches(head: VerifiedHead, s: State, height: u32, block: Block, proofs: seq<InclusionProof>)
    requires Represents(head, s) && CoversTouched(proofs, TouchedByAll(block.txs, s.fee))
    requires forall p :: p in proofs ==> TrueProof(p, s.accounts)
    requires Replay(s, block.txs).Ok? && Replay(SparseState(head, proofs), block.txs).Ok?
    ensures var next := Replay(s, block.txs).value;
            var r := Conclude(head, height, block, proofs, Replay(SparseState(head, proofs), block.txs).value);
            && (r.Ok? <==> StateRoot(next) == block.header.stateRoot)
            && (r.Ok? ==> Represents(r.value, next) && NodeHeadOf(r.value) == HeadAfter(height, block))
            && (r.Ok? && head.minted == s.minted ==> r.value.minted == next.minted)
  {
    hide TruePath, SparseAccounts, Replay, TouchedByAll, Edited, Distinct, LeafOf, AccountsRoot, SubRoot, Refreshed,
         PostRoot, Verifies, TrueFrom, NullifiersHash;
    var touched := TouchedByAll(block.txs, s.fee);
    var sparse := SparseState(head, proofs);
    var after, next := Replay(sparse, block.txs).value, Replay(s, block.txs).value;
    var us := UpdatesFor(proofs, after.accounts);
    SparseAgrees(head, s, proofs, touched);
    ReplayLocal(sparse, s, block.txs, touched);
    ReplayFrame(s, block.txs);
    UpdatesReachFullState(head, s, block.txs, proofs);
    if us == [] {
      NothingEdited(s.accounts, us);
      ProofBinding(OwnProof(head), s.accounts);
    } else {
      ApplyUpdatesComplete(s.accounts, us);
      RefreshComplete(OwnProof(head), us, s.accounts);
    }
  }

  lemma RefreshComplete(own: InclusionProof, us: seq<Update>, m: Accounts)
    requires us != [] && Distinct(us) && TrueFrom(us, m, 0) && TrueProof(own, m)
    ensures RefreshObserver(own, us, Root(m)).Ok?
    ensures var post := RefreshObserver(own, us, Root(m)).value;
            TrueProof(post, Edited(m, us)) && Verifies(post, Root(Edited(m, us))) && post.address == own.address
  {
    hide TruePath, Edited, Distinct, LeafOf, SubRoot, Verifies;
    ProofBinding(own, m);
    forall u | u in us
      ensures Verifies(u.preProof, Root(m))
    {
      ProofBinding(u.preProof, m);
    }
    RefreshTrue(own, us, m);
    ProofBinding(Refreshed(own, us), Edited(m, us));
  }

  /** The commuting square for one block. When the witness tells the truth, the light
      client accepts exactly the blocks that a full node at the same head accepts and
      whose body matches `txs_root`, and then stands for the node's new ledger. */
  lemma ClientMirrorsNode(head: VerifiedHead, s: State, height: u32, block: Block, wit: BlockWitness,
                          att: Option<Attestation>, view: L1View)
    requires Represents(head, s) && (att.Some? ==> att.value.height == height)
    requires wit.height == height && wit.priorAccountsRoot == head.accountsRoot
    requires CoversTouched(wit.preProofs, TouchedByAll(block.txs, s.fee))
    requires forall p :: p in wit.preProofs ==> TrueProof(p, s.accounts)
    ensures var c := VerifyBlock(head, height, block, wit, att, view);
            var n := ApplyBlock(NodeAt(head, s), height, block, att, view);
            && (c.Ok? <==> n.Ok? && TxsRoot(block.txs) == block.header.txsRoot)
            && (c.Ok? ==> Represents(c.value, n.value.state) && NodeHeadOf(c.value) == n.value.head)
            && (c.Ok? && head.minted == s.minted ==> c.value.minted == n.value.state.minted)
  {
    hide Represents, Conclude, Replay, TouchedByAll, TrueProof, CoversTouched, StateRoot, VerifyMints, SparseState,
         HeaderHash, TxsRoot;
    HeadFee(head, s);
    SparseAgrees(head, s, wit.preProofs, TouchedByAll(block.txs, s.fee));
    ReplayLocal(SparseState(head, wit.preProofs), s, block.txs, TouchedByAll(block.txs, s.fee));
    if Replay(s, block.txs).Ok? {
      ConcludeMatches(head, s, height, block, wit.preProofs);
    }
  }

  lemma HeadFee(head: VerifiedHead, s: State)
    requires Represents(head, s)
    ensures head.fee == s.fee && head.accountsRoot == Root(s.accounts)
    ensures forall proofs :: SparseState(head, proofs).fee == s.fee
  {
  }

  /** The messages in which soundness would find a collision: those hashed for the
      served proofs and for the account root they were served against. */
  ghost function BlockMsgs(s: State, wit: BlockWitness): set<Msg> {
    RootMsgs(s.accounts, 0) + set p, m | p in wit.preProofs && m in ProofMsgs(p) :: m
  }

  lemma AcceptedProofsVerify(head: VerifiedHead, height: u32, block: Block, wit: BlockWitness,
                             att: Option<Attestation>, view: L1View)
    requires VerifyBlock(head, height, block, wit, att, view).Ok?
    ensures forall p :: p in wit.preProofs ==> Verifies(p, head.accountsRoot)
    ensures wit.height == height && wit.priorAccountsRoot == head.accountsRoot
    ensures CoversTouched(wit.preProofs, TouchedByAll(block.txs, head.fee))
    ensures TxsRoot(block.txs) == block.header.txsRoot
  {
    hide Verifies, Replay, TouchedByAll, CoversTouched, SparseState, HeaderHash, TxsRoot, VerifyMints, PostRoot, LeafOf;
    var after := Replay(SparseState(head, wit.preProofs), block.txs).value;
    var us := UpdatesFor(wit.preProofs, after.accounts);
    forall p | p in wit.preProofs
      ensures Verifies(p, head.accountsRoot)
    {
      var i :| 0 <= i < |wit.preProofs| && wit.preProofs[i] == p;
      assert us[i] in us;
    }
  }

  lemma ServedProofsTrue(head: VerifiedHead, s: State, wit: BlockWitness)
    requires head.accountsRoot == Root(s.accounts)
    requires forall p :: p in wit.preProofs ==> Verifies(p, head.accountsRoot)
    ensures (forall p :: p in wit.preProofs ==> TrueProof(p, s.accounts)) || CollisionIn(BlockMsgs(s, wit))
  {
    hide Verifies, TrueProof, Root, RootMsgs, ProofMsgs;
    var sent := BlockMsgs(s, wit);
    if !CollisionIn(sent) {
      forall p | p in wit.preProofs
        ensures TrueProof(p, s.accounts)
      {
        assert ProofMsgs(p) + RootMsgs(s.accounts, 0) <= sent;
        CollisionMonotone(ProofMsgs(p) + RootMsgs(s.accounts, 0), sent);
        ProofBinding(p, s.accounts);
      }
    }
  }

  /** Light-client soundness for one block and any supplied witness: if the client
      accepts, so does the full node holding the ledger the client stands for; the
      client then stands for the node's new ledger, whose root is the header's. */
  lemma VerifyBlockSound(head: VerifiedHead, s: State, height: u32, block: Block, wit: BlockWitness,
                         att: Option<Attestation>, view: L1View)
    requires Represents(head, s) && (att.Some? ==> att.value.height == height)
    requires VerifyBlock(head, height, block, wit, att, view).Ok?
    ensures var c := VerifyBlock(head, height, block, wit, att, view).value;
            var n := ApplyBlock(NodeAt(head, s), height, block, att, view);
            || (&& n.Ok? && Replay(s, block.txs) == Ok(n.value.state)
                && StateRoot(n.value.state) == block.header.stateRoot
                && Represents(c, n.value.state) && NodeHeadOf(c) == n.value.head
                && c.anchor == head.anchor && c.ownAddress == head.ownAddress
                && (head.minted == s.minted ==> c.minted == n.value.state.minted))
            || CollisionIn(BlockMsgs(s, wit))
  {
    hide Represents, TouchedByAll, TrueProof, CoversTouched, StateRoot, VerifyMints, SparseState, HeaderHash, TxsRoot,
         BlockMsgs, Verifies, Replay;
    AcceptedProofsVerify(head, height, block, wit, att, view);
    HeadFee(head, s);
    ServedProofsTrue(head, s, wit);
    if !CollisionIn(BlockMsgs(s, wit)) {
      ClientMirrorsNode(head, s, height, block, wit, att, view);
    }
  }

  /** A body root that does not match the body: a node accepts the block inside a batch, but
      under no attestation at the end of one; a wallet accepts it nowhere. */
  lemma BodyRootUnchecked(n: NodeState, txsRoot: Digest, head: VerifiedHead, wit: BlockWitness, view: L1View,
                          att: Attestation)
    requires n.head.height < U32_MAX && txsRoot != TxsRoot([])
    ensures var h, block := n.head.height + 1, EmptyBlock(n, txsRoot);
            && ApplyBlock(n, h, block, None, view).Ok?
            && ApplyBlock(n, h, block, Some(att), view).Err?
            && VerifyBlock(head, h, block, wit, None, view) == Err(BlockRejected(TxsRootMismatch))
  {
    hide StateRoot, HeaderHash, TxsRoot, ApplyBlock, Replay;
    EmptyBlockAccepted(n, txsRoot, None, view);
    WrongBodyRefused(n, n.head.height + 1, EmptyBlock(n, txsRoot), att, view);
  }

  /** Light-client completeness: with the witness built from the prior ledger, the client
      accepts every block the full node accepts, provided its body matches `txs_root`
      (which a node checks only at the end of a batch). No hash assumption is used. */
  lemma HonestWitnessAccepted(head: VerifiedHead, s: State, height: u32, block: Block, att: Option<Attestation>,
                              view: L1View)
    requires Represents(head, s) && (att.Some? ==> att.value.height == height)
    ensures var c := VerifyBlock(head, height, block, Build(s, block.txs, height), att, view);
            var n := ApplyBlock(NodeAt(head, s), height, block, att, view);
            && (c.Ok? <==> n.Ok? && TxsRoot(block.txs) == block.header.txsRoot)
            && (c.Ok? ==> Represents(c.value, n.value.state) && NodeHeadOf(c.value) == n.value.head)
  {
    hide TouchedByAll, TrueProof, CoversTouched, StateRoot, VerifyBlock, ApplyBlock, Replay, TxsRoot, ProofsFor;
    BuildCovers(s, block.txs, height);
    HeadFee(head, s);
    ClientMirrorsNode(head, s, height, block, Build(s, block.txs, height), att, view);
  }
}
