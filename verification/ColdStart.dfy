/** A wallet's first start: the attestation chain on L1 names the head, a node supplies the
    state, and a follower of the same L1 is the reference for what the result must be. */
module ColdStart {
  import opened Primitives
  import opened Types
  import opened Messages
  import opened SparseMerkle
  import opened Ledger
  import opened MintProof
  import opened Node
  import opened LightClient
  import opened Walk
  import opened Agreement
  import opened L1Chain
  import opened Follower

  datatype StartError = NoAnchor | ChainBroken(l1Error: L1Error) | Refused(bootError: BootError)

  /** The head L1 attests: the last link of the chain, or genesis if there is none. */
  function AttestedHead(g: Header, anchor: OutPoint, chain: seq<Advance>): Attested {
    if chain == [] then Attested(g.stateRoot, 0, HeaderHash(g), g.l1Height, anchor)
    else
      var last := chain[|chain| - 1];
      var att := last.attestation;
      Attested(att.stateRoot, att.height, att.blockHash, last.l1Height, last.next)
  }

  ghost function WalkedChain(l1: L1, anchor: OutPoint): Result<seq<Advance>, L1Error>
    requires ValidL1(l1)
  {
    if TxExists(l1, anchor.txid) then Chain(l1, anchor, Place(0, 0)) else Err(AnchorUnknown)
  }

  ghost function Start(own: Address, g: Header, l1: L1, bal: BalanceResponse): Result<VerifiedHead, StartError>
    requires ValidL1(l1)
  {
    if g.anchor.None? then Err(NoAnchor)
    else match WalkedChain(l1, g.anchor.value)
      case Err(e) => Err(ChainBroken(e))
      case Ok(chain) =>
        match Bootstrap(own, AttestedHead(g, g.anchor.value, chain), bal)
        case Err(e) => Err(Refused(e))
        case Ok(head) => Ok(head)
  }

  /** A first start succeeds exactly if genesis names an anchor, the walk from it succeeds, and
      the served state passes against the last attestation found, or against genesis if there
      is none. */
  lemma StartVerdict(own: Address, g: Header, l1: L1, bal: BalanceResponse)
    requires ValidL1(l1)
    ensures var r := Start(own, g, l1, bal);
            && (r == Err(NoAnchor) <==> g.anchor.None?)
            && (g.anchor.Some? ==>
                 var walk := WalkedChain(l1, g.anchor.value);
                 && (walk.Err? ==> r == Err(ChainBroken(walk.error)))
                 && (walk == Ok([]) ==>
                      var b := Bootstrap(own, Attested(g.stateRoot, 0, HeaderHash(g), g.l1Height, g.anchor.value), bal);
                      if b.Ok? then r == Ok(b.value) else r == Err(Refused(b.error)))
                 && (walk.Ok? && walk.value != [] ==>
                      var last := walk.value[|walk.value| - 1];
                      var att := last.attestation;
                      var l1 := Attested(att.stateRoot, att.height, att.blockHash, last.l1Height, last.next);
                      var b := Bootstrap(own, l1, bal);
                      if b.Ok? then r == Ok(b.value) else r == Err(Refused(b.error))))
  {
    hide ValidL1, Chain, TxExists, Bootstrap, HeaderHash;
  }

  method StartWallet(own: Address, g: Header, l1: L1, bal: BalanceResponse)
    returns (r: Result<VerifiedHead, StartError>)
    requires ValidL1(l1)
    ensures r == Start(own, g, l1, bal)
  {
    hide ValidL1, TxExists, Chain, Bootstrap, HeaderHash;
    if g.anchor.None? {
      return Err(NoAnchor);
    }
    var chain := WalkAttestationChain(l1, g.anchor.value);
    if chain.Err? {
      return Err(ChainBroken(chain.error));
    }
    var head := Bootstrap(own, AttestedHead(g, g.anchor.value, chain.value), bal);
    return if head.Err? then Err(Refused(head.error)) else Ok(head.value);
  }

  /** A node's head is the block an attestation names. */
  predicate StandsAt(n: NodeState, att: Attestation) {
    && n.head.height == att.height && n.head.blockHash == att.blockHash
    && n.head.stateRoot == att.stateRoot && StateRoot(n.state) == att.stateRoot
  }

  lemma {:induction false} RangeEndsAt(n: NodeState, height: int, att: Attestation, source: BlockSource, view: L1View)
    requires 0 <= height <= att.height
    requires ApplyRange(n, height, att, source, view).1.None?
    ensures StandsAt(ApplyRange(n, height, att, source, view).0, att)
    decreases att.height - height
  {
    hide Replay, VerifyMints, StateRoot, HeaderHash, TxsRoot;
    if height == att.height {
      var n' := ApplyBlock(n, height, source[height], Some(att), view).value;
      assert ApplyRange(n', height + 1, att, source, view) == (n', None);
    } else {
      RangeEndsAt(ApplyBlock(n, height, source[height], None, view).value, height + 1, att, source, view);
    }
  }

  /** Following ascending attestations ends at the block the last one names. */
  lemma {:induction false} FollowEndsAt(n: NodeState, advs: seq<Advance>, source: BlockSource, view: L1View)
    requires advs != [] && Ascending(n.head.height, advs)
    requires Follow(n, AttestationsOf(advs), source, view).1.None?
    ensures StandsAt(Follow(n, AttestationsOf(advs), source, view).0, advs[|advs| - 1].attestation)
    decreases |advs|
  {
    hide ApplyRange;
    var att, rest := advs[0].attestation, advs[1..];
    var (n', e) := ProcessAttestation(n, att, source, view);
    RangeEndsAt(n, n.head.height + 1, att, source, view);
    assert AttestationsOf(advs)[1..] == AttestationsOf(rest);
    if rest == [] {
      assert Follow(n', AttestationsOf(rest), source, view) == (n', None);
    } else {
      FollowEndsAt(n', rest, source, view);
    }
  }

  /** Where a follower that started from genesis stands is what L1 attests. */
  lemma FollowedHeadAttested(g: Header, anchor: OutPoint, advs: seq<Advance>, source: BlockSource, view: L1View)
    requires GenesisAccepted(g) && Ascending(0, advs)
    requires Follow(GenesisNode(g), AttestationsOf(advs), source, view).1.None?
    ensures var n, l1 := Follow(GenesisNode(g), AttestationsOf(advs), source, view).0, AttestedHead(g, anchor, advs);
            && n.head.height == l1.height && n.head.blockHash == l1.blockHash
            && StateRoot(n.state) == l1.stateRoot && l1.anchor == LastAnchor(advs, anchor)
            && ProperNullifiers(n.state.nullifiers)
  {
    hide StateRoot, HeaderHash, ProcessAttestation, Accepted;
    if advs != [] {
      FollowEndsAt(GenesisNode(g), advs, source, view);
    }
    StartAccepted(g);
    var run := FollowExtendsRun(StartOf(g), AttestationsOf(advs), source, view);
    AcceptedShape(run);
    RunFacts(run, |run.blocks|);
  }

  lemma StartAccepted(g: Header)
    requires GenesisAccepted(g)
    ensures Accepted(StartOf(g)) && Tip(StartOf(g)) == GenesisNode(g)
  {
    hide StateRoot;
  }

  /** Cold start against a node's ledger. Take a node that followed the same L1 from genesis,
      and a wallet that was served a genesis header with the node's anchor. Once anything is
      attested, the rest of that header does not matter: a cold start that succeeds is at the
      node's block and anchor, and short of a collision stands for the node's ledger exactly
      when the two checks it leaves out hold of the answer it was given. Before that, the
      header must be the node's, as the wallet takes its block hash from it. */
  lemma ColdStartMeetsNode(own: Address, g: Header, served: Header, l1: L1, bal: BalanceResponse,
                           f: FollowerState, lo: Place, source: BlockSource, view: L1View)
    requires ValidL1(l1) && GenesisAccepted(g) && Start(own, served, l1, bal).Ok?
    requires f.node == GenesisNode(g) && Some(f.anchor) == g.anchor == served.anchor
    requires Unspent(l1, f.anchor, lo) && lo.height <= |l1.blocks|
    requires TickFrom(f, l1, lo, source, view).1 == Done
    ensures var head, f' := Start(own, served, l1, bal).value, TickFrom(f, l1, lo, source, view).0;
            && WalkedChain(l1, f.anchor).Ok? && head.anchor == f'.anchor
            && head.height == f'.node.head.height
            && (head.blockHash == f'.node.head.blockHash
                <==> WalkedChain(l1, f.anchor).value != [] || HeaderHash(served) == HeaderHash(g))
            && (WalkedChain(l1, f.anchor).value != [] || served == g ==>
                 && head.stateRoot == StateRoot(f'.node.state)
                 && ((Mirrors(head, f'.node)
                      <==> ProperNullifiers(bal.nullifiers) && Verifies(OwnView(own, bal), bal.accountsRoot))
                     || CollisionIn(BootMsgs(own, f'.node.state, bal))))
  {
    hide ValidL1, Chain, Visits, TickFrom, Follow, Ascending, TxExists, StateRoot, Verifies, BootMsgs, GenesisAccepted,
         Represents, HeaderHash;
    TraversalsAgree(l1, f.anchor, lo);
    ChainPlaceIrrelevant(l1, f.anchor, lo, Place(0, 0));
    TickCompletes(f, l1, lo, source, view);
    var advs := Chain(l1, f.anchor, Place(0, 0)).value;
    FollowedHeadAttested(g, f.anchor, advs, source, view);
    if advs == [] {
      FollowedNothing(g, advs, source, view);
    }
    var n := TickFrom(f, l1, lo, source, view).0.node;
    if advs != [] || served == g {
      BootstrapExact(own, AttestedHead(served, f.anchor, advs), bal, n.state);
    }
  }

  lemma FollowedNothing(g: Header, advs: seq<Advance>, source: BlockSource, view: L1View)
    requires advs == []
    ensures Follow(GenesisNode(g), AttestationsOf(advs), source, view) == (GenesisNode(g), None)
  {
    hide StateRoot;
  }

  /** An honest answer starts the wallet: on the node's own genesis, over the L1 that the node
      has followed to its end, a wallet is started by the node's answer about its own account
      and then stands where the node stands. */
  lemma HonestColdStart(own: Address, g: Header, l1: L1, f: FollowerState, lo: Place, source: BlockSource, view: L1View)
    requires ValidL1(l1) && GenesisAccepted(g) && f.node == GenesisNode(g) && Some(f.anchor) == g.anchor
    requires Unspent(l1, f.anchor, lo) && lo.height <= |l1.blocks| && TxExists(l1, f.anchor.txid)
    requires TickFrom(f, l1, lo, source, view).1 == Done
    requires !SpentUnconfirmed(l1, TickFrom(f, l1, lo, source, view).0.anchor)
    ensures var n := TickFrom(f, l1, lo, source, view).0.node;
            var r := Start(own, g, l1, AnswerAbout(n.state, own, own, n.head.height, n.state.nullifiers));
            r.Ok? && Mirrors(r.value, n)
  {
    hide ValidL1, Chain, Visits, TickFrom, Follow, Ascending, TxExists, StateRoot, GenesisAccepted, Represents,
         HeaderHash, AnswerAbout, Bootstrap;
    TraversalsAgree(l1, f.anchor, lo);
    ChainPlaceIrrelevant(l1, f.anchor, lo, Place(0, 0));
    TickCompletes(f, l1, lo, source, view);
    var advs := Chain(l1, f.anchor, Place(0, 0)).value;
    FollowedHeadAttested(g, f.anchor, advs, source, view);
    var n := TickFrom(f, l1, lo, source, view).0.node;
    HonestAnswerAccepted(own, AttestedHead(g, f.anchor, advs), n.state);
    var answer := AnswerAbout(n.state, own, own, n.head.height, n.state.nullifiers);
    BootstrapVerdict(own, AttestedHead(g, f.anchor, advs), answer);
  }
}
