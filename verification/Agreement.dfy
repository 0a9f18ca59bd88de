/** Clients that passed the same attestation agree on the whole chain behind it, although
    L1 pins only the last block of a batch. */
module Agreement {
  import opened Primitives
  import opened Types
  import opened Messages
  import opened SparseMerkle
  import opened Ledger
  import opened MintProof
  import opened Node
  import opened LightClient
  import opened Walk

  /** A full node just started on a genesis block it accepted. */
  function GenesisNode(g: Header): NodeState {
    NodeState(Genesis(g.feeAddress), Head(0, HeaderHash(g), g.stateRoot, g.l1Height))
  }

  predicate GenesisAccepted(g: Header) {
    g.height == 0 && StateRoot(Genesis(g.feeAddress)) == g.stateRoot
  }

  /** The genesis block: an empty body over an empty ledger that only names the fee address,
      with the anchor that roots the attestation chain. */
  function GenesisBlock(l1BlockHash: Digest, l1Height: u32, timestamp: u64, anchor: OutPoint,
                        producer: Option<Address>, fee: Option<Address>): Block {
    Block(Header(0, 0, l1BlockHash, l1Height, TxsRoot([]), StateRoot(Genesis(fee)), timestamp,
                 Some(anchor), producer, fee), [])
  }

  /** A genesis header another node accepts fixes the starting ledger: any two accepted
      genesis headers with one state root start from the same fee address. */
  lemma GenesisFixesFee(sent: set<Msg>, g: Header, h: Header)
    requires GenesisAccepted(g) && GenesisAccepted(h) && g.stateRoot == h.stateRoot
    requires !CollisionIn(sent) && StateMsgs(Genesis(g.feeAddress)) + StateMsgs(Genesis(h.feeAddress)) <= sent
    ensures g.feeAddress == h.feeAddress
    ensures GenesisNode(g).state == GenesisNode(h).state
  {
    hide StateMsgs, StateRoot;
    StateRootBinds(sent, Genesis(g.feeAddress), Genesis(h.feeAddress));
  }

  lemma GenesisBlockAccepted(l1BlockHash: Digest, l1Height: u32, timestamp: u64, anchor: OutPoint,
                             producer: Option<Address>, fee: Option<Address>)
    ensures var g := GenesisBlock(l1BlockHash, l1Height, timestamp, anchor, producer, fee).header;
            && GenesisAccepted(g) && Accepted(StartOf(g))
            && GenesisNode(g) == NodeState(State(map[], {}, 0, fee), Head(0, HeaderHash(g), g.stateRoot, l1Height))
            && g.l1BlockHash == l1BlockHash && g.l1Height == l1Height && g.timestamp == timestamp
            && g.anchor == Some(anchor) && g.producer == producer && g.feeAddress == fee
            && g.height == 0 && g.prevHash == 0 && g.txsRoot == TxsRoot([])
  {
    hide StateRoot, TxsRoot;
  }

  /** Everything one client has accepted since genesis: block `i` has height `i + 1`,
      was applied on `nodes[i]` with its own view of L1, and led to `nodes[i + 1]`. */
  datatype Run = Run(
    genesis: Header,
    blocks: seq<Block>,
    atts: seq<Option<Attestation>>,
    views: seq<L1View>,
    nodes: seq<NodeState>)

  ghost predicate Accepted(r: Run) {
    && |r.blocks| == |r.atts| == |r.views| <= U32_MAX && |r.nodes| == |r.blocks| + 1
    && GenesisAccepted(r.genesis) && r.nodes[0] == GenesisNode(r.genesis)
    && forall i :: 0 <= i < |r.blocks| ==>
         && (r.atts[i].Some? ==> r.atts[i].value.height == i + 1)
         && ApplyBlock(r.nodes[i], i + 1, r.blocks[i], r.atts[i], r.views[i]) == Ok(r.nodes[i + 1])
  }

  function HeaderAt(r: Run, k: nat): Header
    requires k <= |r.blocks|
  {
    if k == 0 then r.genesis else r.blocks[k - 1].header
  }

  /** The messages hashed along a run: its headers and its state roots. */
  ghost function RunMsgs(r: Run): set<Msg> {
    (set k | 0 <= k <= |r.blocks| :: HeaderMsg(HeaderAt(r, k)))
    + (set n, m | n in r.nodes && m in StateMsgs(n.state) :: m)
  }

  lemma StepFacts(r: Run, i: nat)
    requires Accepted(r) && i < |r.blocks|
    ensures r.blocks[i].header.height == i + 1
    ensures r.nodes[i + 1].head.blockHash == HeaderHash(r.blocks[i].header)
    ensures r.blocks[i].header.prevHash == r.nodes[i].head.blockHash
    ensures StateRoot(r.nodes[i + 1].state) == r.blocks[i].header.stateRoot
    ensures Replay(r.nodes[i].state, r.blocks[i].txs) == Ok(r.nodes[i + 1].state)
    ensures VerifyMints(r.blocks[i].txs, r.views[i]).None?
    ensures r.atts[i].Some? ==> HeaderHash(r.blocks[i].header) == r.atts[i].value.blockHash
    ensures r.atts[i].Some? ==> TxsRoot(r.blocks[i].txs) == r.blocks[i].header.txsRoot
  {
    hide Replay, VerifyMints, StateRoot, HeaderHash, TxsRoot;
    assert ApplyBlock(r.nodes[i], i + 1, r.blocks[i], r.atts[i], r.views[i]) == Ok(r.nodes[i + 1]);
  }

  lemma {:induction false} RunFacts(r: Run, k: nat)
    requires Accepted(r) && k <= |r.blocks|
    ensures r.nodes[k].head.blockHash == HeaderHash(HeaderAt(r, k))
    ensures StateRoot(r.nodes[k].state) == HeaderAt(r, k).stateRoot && HeaderAt(r, k).height == k
    ensures ProperNullifiers(r.nodes[k].state.nullifiers)
  {
    hide Replay, VerifyMints, StateRoot, HeaderHash, ApplyBlock;
    if k == 0 {
    } else {
      RunFacts(r, k - 1);
      StepFacts(r, k - 1);
      VerifiedNullifiersProper(r.nodes[k - 1].state, r.blocks[k - 1].txs, r.views[k - 1]);
    }
  }

  lemma RunMsgsHave(r: Run, k: nat)
    requires Accepted(r) && k <= |r.blocks|
    ensures HeaderMsg(HeaderAt(r, k)) in RunMsgs(r)
    ensures StateMsgs(r.nodes[k].state) <= RunMsgs(r)
  {
    hide StateMsgs, ApplyBlock, GenesisAccepted;
    assert r.nodes[k] in r.nodes;
  }

  /** Equal hashes at one height force equal histories below it. */
  lemma {:induction false} AgreeBelow(sent: set<Msg>, p: Run, q: Run, k: nat)
    requires !CollisionIn(sent) && RunMsgs(p) + RunMsgs(q) <= sent
    requires Accepted(p) && Accepted(q) && k <= |p.blocks| && k <= |q.blocks|
    requires HeaderHash(HeaderAt(p, k)) == HeaderHash(HeaderAt(q, k))
    ensures forall j :: 0 <= j <= k ==> HeaderAt(p, j) == HeaderAt(q, j)
    ensures forall j :: 0 <= j <= k ==> SameCommitted(p.nodes[j].state, q.nodes[j].state)
  {
    hide RunMsgs, StateRoot, HeaderHash, StateMsgs, SameCommitted, Accepted;
    AgreeAt(sent, p, q, k);
    if k > 0 {
      AgreePrevious(p, q, k);
      AgreeBelow(sent, p, q, k - 1);
    }
  }

  lemma AgreeAt(sent: set<Msg>, p: Run, q: Run, k: nat)
    requires !CollisionIn(sent) && RunMsgs(p) + RunMsgs(q) <= sent
    requires Accepted(p) && Accepted(q) && k <= |p.blocks| && k <= |q.blocks|
    requires HeaderHash(HeaderAt(p, k)) == HeaderHash(HeaderAt(q, k))
    ensures HeaderAt(p, k) == HeaderAt(q, k)
    ensures SameCommitted(p.nodes[k].state, q.nodes[k].state)
  {
    hide RunMsgs, StateRoot, StateMsgs, HeaderHash, ApplyBlock;
    RunMsgsHave(p, k);
    RunMsgsHave(q, k);
    RunFacts(p, k);
    RunFacts(q, k);
    HeaderHashBinds(sent, HeaderAt(p, k), HeaderAt(q, k));
    StateRootBinds(sent, p.nodes[k].state, q.nodes[k].state);
  }

  lemma AgreePrevious(p: Run, q: Run, k: nat)
    requires Accepted(p) && Accepted(q) && 0 < k <= |p.blocks| && k <= |q.blocks|
    requires HeaderAt(p, k) == HeaderAt(q, k)
    ensures HeaderHash(HeaderAt(p, k - 1)) == HeaderHash(HeaderAt(q, k - 1))
  {
    hide StateRoot, HeaderHash, ApplyBlock, ProperNullifiers;
    StepFacts(p, k - 1);
    StepFacts(q, k - 1);
    RunFacts(p, k - 1);
    RunFacts(q, k - 1);
  }

  /** Agreement: two runs that both checked a block against one attestation hold the same
      headers at every height up to it, genesis included, and the same accounts, nullifiers
      and fee address after every block, or two messages they hashed collide. The starting
      genesis blocks need not be assumed equal, nor the block bodies. */
  lemma SameAttestationSameHistory(p: Run, q: Run, att: Attestation)
    requires Accepted(p) && Accepted(q)
    requires 0 < att.height <= |p.blocks| && att.height <= |q.blocks|
    requires p.atts[att.height - 1] == Some(att) && q.atts[att.height - 1] == Some(att)
    ensures (forall j :: 0 <= j <= att.height ==>
               HeaderAt(p, j) == HeaderAt(q, j) && SameCommitted(p.nodes[j].state, q.nodes[j].state))
         || CollisionIn(RunMsgs(p) + RunMsgs(q))
  {
    hide RunMsgs, StateRoot, HeaderHash, StateMsgs, SameCommitted, ApplyBlock;
    var sent := RunMsgs(p) + RunMsgs(q);
    StepFacts(p, att.height - 1);
    StepFacts(q, att.height - 1);
    if !CollisionIn(sent) {
      AgreeBelow(sent, p, q, att.height);
    }
  }

  lemma VerifiedShort(txs: seq<L2Tx>, view: L1View)
    requires VerifyMints(txs, view).None?
    ensures ShortNullifiers(txs)
  {
    hide VerifyMints, VerifyMintEntry, NullifierHex;
    forall tx | tx in txs && tx.Mint?
      ensures |tx.entry.event.nullifierHex| <= U32_MAX
    {
      VerifiedEvent(tx.entry, view);
    }
  }

  /** The messages hashed for two runs and for their bodies of block `k`. */
  ghost function BodyMsgs(p: Run, q: Run, k: nat): set<Msg>
    requires 0 < k <= |p.blocks| && k <= |q.blocks|
  {
    RunMsgs(p) + RunMsgs(q) + TxListMsgs(p.blocks[k - 1].txs) + TxListMsgs(q.blocks[k - 1].txs)
  }

  /** They also hold the same body for the attested block itself, up to claimed heights. For
      the blocks inside a batch that is not so: nobody compares their bodies with `txs_root`. */
  lemma SameAttestationSameBody(p: Run, q: Run, att: Attestation)
    requires Accepted(p) && Accepted(q)
    requires 0 < att.height <= |p.blocks| && att.height <= |q.blocks|
    requires p.atts[att.height - 1] == Some(att) && q.atts[att.height - 1] == Some(att)
    ensures SameBodies(p.blocks[att.height - 1].txs, q.blocks[att.height - 1].txs)
         || CollisionIn(BodyMsgs(p, q, att.height))
  {
    hide RunMsgs, StateRoot, HeaderHash, StateMsgs, SameCommitted, ApplyBlock, TxsRoot, TxListMsgs, SameBodies,
         ShortNullifiers;
    var i, sent := att.height - 1, BodyMsgs(p, q, att.height);
    StepFacts(p, i);
    StepFacts(q, i);
    if !CollisionIn(sent) {
      CollisionMonotone(RunMsgs(p) + RunMsgs(q), sent);
      SameAttestationSameHistory(p, q, att);
      assert HeaderAt(p, i + 1) == HeaderAt(q, i + 1);
      VerifiedShort(p.blocks[i].txs, p.views[i]);
      VerifiedShort(q.blocks[i].txs, q.views[i]);
      TxsRootBinds(sent, p.blocks[i].txs, q.blocks[i].txs);
    }
  }

  // ---------- followers and wallets produce such runs ----------

  function Tip(r: Run): NodeState
    requires |r.nodes| > 0
  {
    r.nodes[|r.nodes| - 1]
  }

  /** A longer run with the same beginning. */
  ghost predicate Extends(r: Run, longer: Run) {
    && longer.genesis == r.genesis
    && r.blocks <= longer.blocks && r.atts <= longer.atts && r.views <= longer.views && r.nodes <= longer.nodes
  }

  /** Every attestation the longer run was checked against since then is one of these. */
  ghost predicate PinnedBy(r: Run, longer: Run, shown: set<Attestation>) {
    forall i :: |r.atts| <= i < |longer.atts| && longer.atts[i].Some? ==> longer.atts[i].value in shown
  }

  /** Every block the longer run has since then was checked with one of these views of L1. */
  ghost predicate SeenWith(r: Run, longer: Run, views: set<L1View>) {
    forall i :: |r.views| <= i < |longer.views| ==> longer.views[i] in views
  }

  lemma Extended(r: Run, block: Block, att: Option<Attestation>, view: L1View, next: NodeState) returns (longer: Run)
    requires Accepted(r) && |r.nodes| <= U32_MAX
    requires att.Some? ==> att.value.height == |r.nodes|
    requires ApplyBlock(Tip(r), |r.nodes|, block, att, view) == Ok(next)
    ensures Accepted(longer) && Tip(longer) == next && Extends(r, longer)
    ensures |longer.blocks| == |r.blocks| + 1 && longer.atts == r.atts + [att] && longer.views == r.views + [view]
  {
    hide ApplyBlock, GenesisAccepted;
    longer := Run(r.genesis, r.blocks + [block], r.atts + [att], r.views + [view], r.nodes + [next]);
  }

  lemma TipHeight(r: Run)
    requires Accepted(r)
    ensures Tip(r).head.height == |r.blocks|
  {
    hide Replay, StateRoot, VerifyMints, ValidateBlock;
    if |r.blocks| > 0 {
      var i := |r.blocks| - 1;
      assert ApplyBlock(r.nodes[i], i + 1, r.blocks[i], r.atts[i], r.views[i]) == Ok(r.nodes[i + 1]);
    }
  }

  /** Whatever comes of a batch applied on top of a run, the blocks that stay extend it; a
      batch that succeeds extends it up to the attested block. */
  lemma {:induction false} RangeExtendsRun(r: Run, height: int, att: Attestation, source: BlockSource, view: L1View)
    returns (longer: Run)
    requires Accepted(r) && height == |r.nodes| <= att.height + 1
    ensures Accepted(longer) && Extends(r, longer) && PinnedBy(r, longer, {att}) && SeenWith(r, longer, {view})
    ensures Tip(longer) == ApplyRange(Tip(r), height, att, source, view).0
    ensures ApplyRange(Tip(r), height, att, source, view).1.None? && height <= att.height ==>
      |longer.blocks| == att.height && longer.atts[att.height - 1] == Some(att)
    decreases att.height + 1 - height
  {
    hide ApplyBlock, Accepted;
    AcceptedShape(r);
    longer := r;
    if height <= att.height && height in source {
      var end := if height == att.height then Some(att) else None;
      var applied := ApplyBlock(Tip(r), height, source[height], end, view);
      if applied.Ok? {
        var one := Extended(r, source[height], end, view, applied.value);
        AcceptedShape(one);
        longer := RangeExtendsRun(one, height + 1, att, source, view);
        AcceptedShape(longer);
        if height == att.height {
          RangePast(one, height + 1, att, source, view, longer);
        }
      }
    }
  }

  lemma RangePast(r: Run, height: int, att: Attestation, source: BlockSource, view: L1View, longer: Run)
    requires Accepted(r) && Accepted(longer) && height == |r.nodes| == att.height + 1
    requires Extends(r, longer) && Tip(longer) == ApplyRange(Tip(r), height, att, source, view).0
    ensures |longer.blocks| == |r.blocks|
  {
    hide ApplyBlock;
    TipHeight(r);
    TipHeight(longer);
  }

  lemma AcceptedShape(r: Run)
    requires Accepted(r)
    ensures |r.blocks| == |r.atts| == |r.views| && |r.nodes| == |r.blocks| + 1
  {
  }

  /** Following attestations one by one extends the run, to whatever point it gets; if it
      gets through and applied anything, it ends with an attested block. */
  lemma {:induction false} FollowExtendsRun(r: Run, atts: seq<Attestation>, source: BlockSource, view: L1View)
    returns (longer: Run)
    requires Accepted(r)
    ensures Accepted(longer) && Extends(r, longer)
    ensures PinnedBy(r, longer, set a | a in atts) && SeenWith(r, longer, {view})
    ensures Tip(longer) == Follow(Tip(r), atts, source, view).0
    ensures Follow(Tip(r), atts, source, view).1.None? && |longer.blocks| > |r.blocks| ==> TipPinned(longer)
    decreases |atts|
  {
    hide ApplyRange, Accepted;
    AcceptedShape(r);
    TipHeight(r);
    longer := r;
    if atts != [] {
      var a := atts[0];
      assert a in atts && forall x :: x in atts[1..] ==> x in atts;
      if a.height <= Tip(r).head.height {
        longer := FollowExtendsRun(r, atts[1..], source, view);
      } else {
        longer := RangeExtendsRun(r, |r.nodes|, a, source, view);
        AcceptedShape(longer);
        if ApplyRange(Tip(r), |r.nodes|, a, source, view).1.None? {
          var mid := longer;
          longer := FollowExtendsRun(mid, atts[1..], source, view);
          AcceptedShape(longer);
        }
      }
    }
  }

  /** The newest block was checked against an attestation. */
  ghost predicate TipPinned(r: Run) {
    r.atts != [] && r.atts[|r.atts| - 1].Some?
  }

  function StartOf(g: Header): Run { Run(g, [], [], [], [GenesisNode(g)]) }

  // ---------- a wallet over many sessions ----------

  /** One refresh of a wallet: the steps it found on L1, by whom it was served, what it saw of L1. */
  datatype Session = Session(steps: seq<ChainStep>, server: Server, view: L1View)

  /** A session that fails leaves the stored head as it was. */
  ghost function AfterSession(head: VerifiedHead, session: Session): VerifiedHead {
    var r := WalkAll(head, session.steps, session.server, session.view);
    if r.Ok? then r.value else head
  }

  ghost function AfterSessions(head: VerifiedHead, sessions: seq<Session>): VerifiedHead
    decreases |sessions|
  {
    if sessions == [] then head else AfterSessions(AfterSession(head, sessions[0]), sessions[1..])
  }

  /** What a full node would hold that followed the sessions that succeeded. */
  ghost function NodeAfterSession(head: VerifiedHead, n: NodeState, session: Session): NodeState {
    if WalkAll(head, session.steps, session.server, session.view).Ok?
    then Follow(n, Attestations(session.steps), session.server.blocks, session.view).0 else n
  }

  /** The messages hashed in the sessions that succeeded. */
  ghost function SessionsMsgs(head: VerifiedHead, n: NodeState, sessions: seq<Session>): set<Msg>
    decreases |sessions|
  {
    if sessions == [] then {}
    else
      var s := sessions[0];
      (if WalkAll(head, s.steps, s.server, s.view).Ok? then WalkMsgs(n, s.steps, s.server, s.view) else {})
      + SessionsMsgs(AfterSession(head, s), NodeAfterSession(head, n, s), sessions[1..])
  }

  function ShownIn(sessions: seq<Session>): set<Attestation> {
    set s, a | s in sessions && a in Attestations(s.steps) :: a
  }

  function ViewsIn(sessions: seq<Session>): set<L1View> {
    set s | s in sessions :: s.view
  }

  lemma SessionExtendsRun(head: VerifiedHead, r: Run, session: Session) returns (longer: Run)
    requires Accepted(r) && Mirrors(head, Tip(r)) && !CollisionIn(SessionsMsgs(head, Tip(r), [session]))
    ensures Accepted(longer) && Extends(r, longer) && Mirrors(AfterSession(head, session), Tip(longer))
    ensures Tip(longer) == NodeAfterSession(head, Tip(r), session)
    ensures PinnedBy(r, longer, ShownIn([session])) && SeenWith(r, longer, {session.view})
    ensures |longer.blocks| > |r.blocks| ==> TipPinned(longer)
  {
    hide WalkAll, WalkMsgs, Mirrors, Follow, Accepted;
    longer := r;
    AcceptedShape(r);
    var Session(steps, server, view) := session;
    if WalkAll(head, steps, server, view).Ok? {
      CollisionMonotone(WalkMsgs(Tip(r), steps, server, view), SessionsMsgs(head, Tip(r), [session]));
      WalkSound(head, Tip(r), steps, server, view);
      longer := FollowExtendsRun(r, Attestations(steps), server.blocks, view);
      assert session in [session];
    }
  }

  /** Over any number of sessions, failed ones among them, with whatever servers and views,
      a wallet mirrors the tip of one growing run of accepted blocks. */
  lemma {:induction false} SessionsExtendRun(head: VerifiedHead, r: Run, sessions: seq<Session>) returns (longer: Run)
    requires Accepted(r) && Mirrors(head, Tip(r)) && !CollisionIn(SessionsMsgs(head, Tip(r), sessions))
    ensures Accepted(longer) && Extends(r, longer) && Mirrors(AfterSessions(head, sessions), Tip(longer))
    ensures PinnedBy(r, longer, ShownIn(sessions)) && SeenWith(r, longer, ViewsIn(sessions))
    ensures |longer.blocks| > |r.blocks| ==> TipPinned(longer)
    decreases |sessions|
  {
    hide AfterSession, NodeAfterSession, WalkMsgs, WalkAll, Mirrors, Accepted;
    longer := r;
    if sessions != [] {
      var s := sessions[0];
      AcceptedShape(r);
      var all := SessionsMsgs(head, Tip(r), sessions);
      assert [s][1..] == [];
      assert SessionsMsgs(AfterSession(head, s), NodeAfterSession(head, Tip(r), s), []) == {};
      CollisionMonotone(SessionsMsgs(head, Tip(r), [s]), all);
      var mid := SessionExtendsRun(head, r, s);
      AcceptedShape(mid);
      CollisionMonotone(SessionsMsgs(AfterSession(head, s), Tip(mid), sessions[1..]), all);
      longer := SessionsExtendRun(AfterSession(head, s), mid, sessions[1..]);
      AcceptedShape(longer);
      assert s in sessions && forall t :: t in sessions[1..] ==> t in sessions;
    }
  }

  lemma TipHash(r: Run)
    requires Accepted(r)
    ensures |r.nodes| == |r.blocks| + 1 && Tip(r).head.blockHash == HeaderHash(HeaderAt(r, |r.blocks|))
  {
    hide Accepted, HeaderHash;
    AcceptedShape(r);
    RunFacts(r, |r.blocks|);
  }

  lemma MirrorFacts(head: VerifiedHead, r: Run)
    requires Accepted(r) && Mirrors(head, Tip(r))
    ensures head.height == |r.blocks| && head.blockHash == Tip(r).head.blockHash
    ensures head.accountsRoot == Root(Tip(r).state.accounts)
    ensures head.nullifiers == Tip(r).state.nullifiers && head.fee == Tip(r).state.fee
  {
    hide Accepted, Root, TrueProof, StateRoot;
    TipHeight(r);
  }
}
