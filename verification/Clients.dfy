/** Nodes and wallets side by side, each with its own past, servers and views of L1: what any
    two of them agree on. */
module Clients {
  import opened Primitives
  import opened Types
  import opened Messages
  import opened SparseMerkle
  import opened Ledger
  import opened MintProof
  import opened Node
  import opened LightClient
  import opened Walk
  import opened Agreement
  import opened L1Chain
  import opened Follower
  import opened ColdStart

  // ---------- a node over many ticks ----------

  function AttestationSet(advs: seq<Advance>): set<Attestation> {
    set a | a in AttestationsOf(advs)
  }

  lemma MoveExtendsRun(f: FollowerState, l1: L1, lo: Place, source: BlockSource, view: L1View, r: Run)
    returns (longer: Run)
    requires ValidL1(l1) && Unspent(l1, f.anchor, lo) && lo.height < |l1.blocks|
    requires Accepted(r) && f.node == Tip(r)
    ensures Accepted(longer) && Extends(r, longer) && SeenWith(r, longer, {view})
    ensures var m := NextMove(f, l1, lo, source, view); Tip(longer) == if m.Stop? then m.state.node else m.next.node
    ensures PinnedBy(r, longer, AttestationSet(Met(l1, f.anchor, lo)))
    ensures var m := NextMove(f, l1, lo, source, view);
            m.Go? ==> AttestationSet(Met(l1, m.next.anchor, m.place)) <= AttestationSet(Met(l1, f.anchor, lo))
  {
    hide ValidL1, Unspent, SpenderIn, ApplyRange, LinkOf, Accepted, RoomAfter;
    CursorFits(l1, lo);
    AcceptedShape(r);
    TipHeight(r);
    longer := r;
    var found := SpenderIn(l1.blocks[lo.height], f.anchor, 0);
    if found.Some? {
      var link := LinkOf(TxAt(l1, Place(lo.height, found.value)), lo.height, f.anchor);
      if link.Ok? {
        LinkFacts(TxAt(l1, Place(lo.height, found.value)), lo.height, f.anchor);
        NextUnspent(l1, Place(lo.height, found.value));
        MetLink(l1, f.anchor, lo, found.value, link.value);
        MoveAfterLink(f, l1, lo, source, view, link.value, found.value);
        if link.value.attestation.height > f.node.head.height {
          longer := RangeExtendsRun(r, |r.nodes|, link.value.attestation, source, view);
        }
      }
    }
  }

  lemma MetLink(l1: L1, anchor: OutPoint, lo: Place, i: nat, adv: Advance)
    requires ValidL1(l1) && Unspent(l1, anchor, lo) && lo.height < |l1.blocks| && lo.height <= U32_MAX
    requires SpenderIn(l1.blocks[lo.height], anchor, 0) == Some(i)
    requires ScanBlock(l1, lo.height, anchor) == Ok(Some(adv)) && Unspent(l1, adv.next, Place(lo.height, i + 1))
    ensures adv.attestation in AttestationSet(Met(l1, anchor, lo))
    ensures AttestationSet(Met(l1, adv.next, Place(lo.height, i + 1))) <= AttestationSet(Met(l1, anchor, lo))
  {
    hide ValidL1, Unspent, SpenderIn, LinkOf, ScanBlock;
    var met, rest := Met(l1, anchor, lo), Met(l1, adv.next, Place(lo.height, i + 1));
    assert met == [adv] + rest;
    assert AttestationsOf(met)[0] == adv.attestation;
    forall a | a in AttestationsOf(rest)
      ensures a in AttestationsOf(met)
    {
      var k :| 0 <= k < |rest| && AttestationsOf(rest)[k] == a;
      assert AttestationsOf(met)[k + 1] == a;
    }
  }

  /** Whatever a tick meets and however it ends, the node is at the tip of a run of accepted
      blocks that extends the one it was at before. */
  lemma {:induction false} TickExtendsRun(f: FollowerState, l1: L1, lo: Place, source: BlockSource, view: L1View,
                                          r: Run)
    returns (longer: Run)
    requires ValidL1(l1) && Unspent(l1, f.anchor, lo) && lo.height <= |l1.blocks|
    requires Accepted(r) && f.node == Tip(r)
    ensures Accepted(longer) && Extends(r, longer) && TickFrom(f, l1, lo, source, view).0.node == Tip(longer)
    ensures SeenWith(r, longer, {view})
    ensures PinnedBy(r, longer, AttestationSet(Met(l1, f.anchor, lo)))
    decreases |l1.blocks| - lo.height, RoomAfter(l1, lo)
  {
    hide ValidL1, Unspent, NextMove, RoomAfter, Met, Accepted, AttestationSet;
    longer := r;
    AcceptedShape(r);
    if lo.height < |l1.blocks| {
      longer := MoveExtendsRun(f, l1, lo, source, view, r);
      AcceptedShape(longer);
      var m := NextMove(f, l1, lo, source, view);
      if m.Go? {
        longer := TickExtendsRun(m.next, l1, m.place, source, view, longer);
        AcceptedShape(longer);
      }
    }
  }

  /** The attestations that L1 shows a node in one tick. */
  ghost function ShownInTick(f: FollowerState, input: TickInput): set<Attestation> {
    var lo := Place(f.cursor + 1, 0);
    if ValidL1(input.l1) && Unspent(input.l1, f.anchor, lo) && lo.height < |input.l1.blocks|
    then AttestationSet(Met(input.l1, f.anchor, lo)) else {}
  }

  ghost function ShownInTicks(f: FollowerState, inputs: seq<TickInput>): set<Attestation>
    decreases |inputs|
  {
    if inputs == [] then {}
    else ShownInTick(f, inputs[0]) + ShownInTicks(RunTicks(f, inputs[..1]), inputs[1..])
  }

  function ViewsOfTicks(inputs: seq<TickInput>): set<L1View> {
    set i | i in inputs :: i.view
  }

  lemma OneTick(f: FollowerState, inputs: seq<TickInput>)
    requires inputs != []
    ensures var i, lo := inputs[0], Place(f.cursor + 1, 0);
            var f' := if ValidL1(i.l1) && Unspent(i.l1, f.anchor, lo) then Tick(f, i.l1, i.source, i.view).0 else f;
            && RunTicks(f, inputs[..1]) == f'
            && (ValidL1(i.l1) && Unspent(i.l1, f.anchor, lo) ==> RunTicks(f, inputs) == RunTicks(f', inputs[1..]))
            && (!(ValidL1(i.l1) && Unspent(i.l1, f.anchor, lo)) ==> RunTicks(f, inputs) == f)
  {
    hide ValidL1, Unspent, Tick;
    var one := inputs[..1];
    assert one[0] == inputs[0] && one[1..] == [];
  }

  lemma TickRun(f: FollowerState, input: TickInput, r: Run) returns (longer: Run)
    requires Accepted(r) && f.node == Tip(r)
    requires ValidL1(input.l1) && Unspent(input.l1, f.anchor, Place(f.cursor + 1, 0))
    ensures Accepted(longer) && Extends(r, longer)
    ensures Tick(f, input.l1, input.source, input.view).0.node == Tip(longer)
    ensures PinnedBy(r, longer, ShownInTick(f, input)) && SeenWith(r, longer, {input.view})
  {
    hide ValidL1, Unspent, TickFrom, Met, Accepted, AttestationSet;
    longer := r;
    AcceptedShape(r);
    if |input.l1.blocks| > f.cursor + 1 {
      longer := TickExtendsRun(f, input.l1, Place(f.cursor + 1, 0), input.source, input.view, r);
    }
  }

  /** Over any run of ticks, failed ones among them, with whatever servers and views, a node
      is at the tip of one growing run of accepted blocks. */
  lemma {:induction false} TicksExtendRun(f: FollowerState, inputs: seq<TickInput>, r: Run) returns (longer: Run)
    requires Accepted(r) && f.node == Tip(r)
    ensures Accepted(longer) && Extends(r, longer) && RunTicks(f, inputs).node == Tip(longer)
    ensures PinnedBy(r, longer, ShownInTicks(f, inputs)) && SeenWith(r, longer, ViewsOfTicks(inputs))
    decreases |inputs|
  {
    hide ValidL1, Unspent, Tick, Met, Accepted, RunTicks, ShownInTick;
    longer := r;
    AcceptedShape(r);
    if inputs == [] {
      assert RunTicks(f, inputs) == f by { NoTicks(f); }
    } else {
      OneTick(f, inputs);
      if ValidL1(inputs[0].l1) && Unspent(inputs[0].l1, f.anchor, Place(f.cursor + 1, 0)) {
        longer := TickRun(f, inputs[0], r);
        AcceptedShape(longer);
        longer := TicksExtendRun(RunTicks(f, inputs[..1]), inputs[1..], longer);
        AcceptedShape(longer);
      }
    }
  }

  lemma NoTicks(f: FollowerState)
    ensures RunTicks(f, []) == f
  {
  }

  // ---------- any two clients ----------

  /** A client with its past: the run it stood at the tip of, and what it did since. A fresh
      one stands at the run of its genesis block alone. */
  datatype Client =
    | NodeClient(from: Run, state: FollowerState, ticks: seq<TickInput>)
    | WalletClient(from: Run, head: VerifiedHead, sessions: seq<Session>)

  ghost predicate Started(c: Client) {
    && Accepted(c.from)
    && match c
       case NodeClient(_, f, _) => f.node == Tip(c.from)
       case WalletClient(_, head, _) => Mirrors(head, Tip(c.from))
  }

  /** The client now stands at the tip of this run. */
  ghost predicate Reached(c: Client, r: Run) {
    && Accepted(r)
    && match c
       case NodeClient(_, f, ticks) => RunTicks(f, ticks).node == Tip(r)
       case WalletClient(_, head, sessions) => Mirrors(AfterSessions(head, sessions), Tip(r))
  }

  ghost function ClientMsgs(c: Client): set<Msg>
    requires Started(c)
  {
    match c
    case NodeClient(_, _, _) => {}
    case WalletClient(_, head, sessions) => SessionsMsgs(head, Tip(c.from), sessions)
  }

  /** The attestations L1 has shown the client. */
  ghost function Shown(c: Client): set<Attestation>
    requires Started(c)
  {
    (set i | 0 <= i < |c.from.atts| && c.from.atts[i].Some? :: c.from.atts[i].value)
    + match c
      case NodeClient(_, f, ticks) => ShownInTicks(f, ticks)
      case WalletClient(_, _, sessions) => ShownIn(sessions)
  }

  /** The views of L1 the client has ever checked mints with. */
  function ViewsOf(c: Client): set<L1View> {
    (set v | v in c.from.views)
    + match c
      case NodeClient(_, _, ticks) => ViewsOfTicks(ticks)
      case WalletClient(_, _, sessions) => ViewsIn(sessions)
  }

  lemma ClientRun(c: Client) returns (r: Run)
    requires Started(c) && !CollisionIn(ClientMsgs(c))
    ensures Reached(c, r) && Extends(c.from, r)
    ensures forall i :: 0 <= i < |r.atts| && r.atts[i].Some? ==> r.atts[i].value in Shown(c)
    ensures forall i :: 0 <= i < |r.views| ==> r.views[i] in ViewsOf(c)
  {
    hide Accepted, SessionsMsgs, ShownInTicks, ShownIn, RunTicks, AfterSessions, Mirrors, ViewsOfTicks, ViewsIn;
    match c
    case NodeClient(from, f, ticks) => r := TicksExtendRun(f, ticks, from);
    case WalletClient(from, head, sessions) => r := SessionsExtendRun(head, from, sessions);
  }

  /** Block `k` of the run was checked against an attestation. */
  predicate Pinned(r: Run, k: nat) {
    0 < k <= |r.atts| && r.atts[k - 1].Some?
  }

  /** The same headers, genesis included, and the same committed ledgers up to block `k`. */
  ghost predicate SameUpTo(p: Run, q: Run, k: nat) {
    && k <= |p.blocks| && k <= |q.blocks| && k < |p.nodes| && k < |q.nodes|
    && forall j :: 0 <= j <= k ==> HeaderAt(p, j) == HeaderAt(q, j) && SameCommitted(p.nodes[j].state, q.nodes[j].state)
  }

  predicate OnePerHeight(shown: set<Attestation>) {
    forall a, b :: a in shown && b in shown && a.height == b.height ==> a == b
  }

  lemma PinnedHeight(r: Run, k: nat)
    requires Accepted(r) && Pinned(r, k)
    ensures r.atts[k - 1].value.height == k <= |r.blocks|
  {
    hide ApplyBlock, GenesisAccepted;
  }

  /** The bodies of block `k` are the same, or a collision was hashed for them. */
  ghost predicate BodiesAgree(p: Run, q: Run, k: nat) {
    0 < k <= |p.blocks| && k <= |q.blocks|
    && (SameBodies(p.blocks[k - 1].txs, q.blocks[k - 1].txs) || CollisionIn(BodyMsgs(p, q, k)))
  }

  lemma PinnedAlike(p: Run, q: Run, k: nat)
    requires Accepted(p) && Accepted(q) && Pinned(p, k) && Pinned(q, k) && p.atts[k - 1] == q.atts[k - 1]
    requires !CollisionIn(RunMsgs(p) + RunMsgs(q))
    ensures SameUpTo(p, q, k) && BodiesAgree(p, q, k)
  {
    hide Accepted, RunMsgs, HeaderHash, SameCommitted, SameBodies, BodyMsgs;
    PinnedHeight(p, k);
    PinnedHeight(q, k);
    AcceptedShape(p);
    AcceptedShape(q);
    SameAttestationSameHistory(p, q, p.atts[k - 1].value);
    SameAttestationSameBody(p, q, p.atts[k - 1].value);
  }

  lemma SameHashSameHistory(p: Run, q: Run, k: nat)
    requires Accepted(p) && Accepted(q) && k <= |p.blocks| && k <= |q.blocks|
    requires HeaderHash(HeaderAt(p, k)) == HeaderHash(HeaderAt(q, k)) && !CollisionIn(RunMsgs(p) + RunMsgs(q))
    ensures SameUpTo(p, q, k)
  {
    hide Accepted, RunMsgs, HeaderHash, SameCommitted;
    AcceptedShape(p);
    AcceptedShape(q);
    AgreeBelow(RunMsgs(p) + RunMsgs(q), p, q, k);
  }

  /** Agreement of any two clients: two nodes, a node and a wallet, or two wallets, each with
      any number of ticks or sessions, failed ones included, and with its own servers, views
      and genesis block. Each stands at the tip of a run of accepted blocks. Up to any height
      at which both checked one attestation, which is any height both pinned if L1 showed
      them one attestation for each, the two runs have the same headers and the same accounts,
      nullifiers and fee address; and so they do up to any height with one block hash. Otherwise
      a collision was hashed. */
  lemma AnyTwoClientsAgree(c: Client, d: Client) returns (p: Run, q: Run)
    requires Started(c) && Started(d)
    ensures CollisionIn(ClientMsgs(c)) || CollisionIn(ClientMsgs(d))
         || (&& Reached(c, p) && Reached(d, q) && Extends(c.from, p) && Extends(d.from, q)
             && (CollisionIn(RunMsgs(p) + RunMsgs(q)) || Agreed(c, d, p, q)))
  {
    hide Started, Reached, ClientMsgs, Shown, RunMsgs, Extends, Agreed;
    p, q := c.from, d.from;
    if !CollisionIn(ClientMsgs(c)) && !CollisionIn(ClientMsgs(d)) {
      p := ClientRun(c);
      q := ClientRun(d);
      if !CollisionIn(RunMsgs(p) + RunMsgs(q)) {
        RunsAgree(c, d, p, q);
      }
    }
  }

  /** Both runs pinned block `k`: to one attestation, or on an L1 with one for each height. */
  ghost predicate PinnedAlikeIn(c: Client, d: Client, p: Run, q: Run, k: nat)
    requires Started(c) && Started(d)
  {
    && Pinned(p, k) && Pinned(q, k)
    && (p.atts[k - 1] == q.atts[k - 1] || OnePerHeight(Shown(c) + Shown(d)))
  }

  ghost predicate Agreed(c: Client, d: Client, p: Run, q: Run)
    requires Started(c) && Started(d)
  {
    && (forall k :: PinnedAlikeIn(c, d, p, q, k) ==> SameUpTo(p, q, k) && BodiesAgree(p, q, k))
    && (forall k :: 0 <= k <= |p.blocks| && k <= |q.blocks| && HeaderHash(HeaderAt(p, k)) == HeaderHash(HeaderAt(q, k))
                    ==> SameUpTo(p, q, k))
  }

  lemma RunsAgree(c: Client, d: Client, p: Run, q: Run)
    requires Started(c) && Started(d) && Reached(c, p) && Reached(d, q)
    requires forall i :: 0 <= i < |p.atts| && p.atts[i].Some? ==> p.atts[i].value in Shown(c)
    requires forall i :: 0 <= i < |q.atts| && q.atts[i].Some? ==> q.atts[i].value in Shown(d)
    requires !CollisionIn(RunMsgs(p) + RunMsgs(q))
    ensures Agreed(c, d, p, q)
  {
    hide Started, Shown, RunMsgs, SameUpTo, BodiesAgree, HeaderHash, Accepted, RunTicks, AfterSessions, Mirrors;
    forall k | PinnedAlikeIn(c, d, p, q, k)
      ensures SameUpTo(p, q, k) && BodiesAgree(p, q, k)
    {
      PinnedHeight(p, k);
      PinnedHeight(q, k);
      assert p.atts[k - 1].value in Shown(c) + Shown(d) && q.atts[k - 1].value in Shown(c) + Shown(d);
      PinnedAlike(p, q, k);
    }
    forall k | 0 <= k <= |p.blocks| && k <= |q.blocks| && HeaderHash(HeaderAt(p, k)) == HeaderHash(HeaderAt(q, k))
      ensures SameUpTo(p, q, k)
    {
      SameHashSameHistory(p, q, k);
    }
  }

  // ---------- two wallets ----------

  /** Nodes and wallets that start on a genesis block they accepted are such clients. */
  lemma GenesisClients(g: Header, f: FollowerState, ticks: seq<TickInput>, head: VerifiedHead, sessions: seq<Session>)
    requires GenesisAccepted(g) && f.node == GenesisNode(g) && Mirrors(head, GenesisNode(g))
    ensures Started(NodeClient(StartOf(g), f, ticks)) && Started(WalletClient(StartOf(g), head, sessions))
  {
    hide Mirrors, StateRoot;
    StartAccepted(g);
  }

  /** Two wallets at one height, each after any number of sessions from its own genesis, over
      an L1 that shows one attestation for each height, hold the same block hash, account root,
      nullifiers and fee address, whatever their servers sent them, or a collision was hashed. */
  lemma WalletsAgree(g: Header, h: Header, start: VerifiedHead, other: VerifiedHead, mine: seq<Session>,
                     theirs: seq<Session>)
    returns (p: Run, q: Run)
    requires GenesisAccepted(g) && Mirrors(start, GenesisNode(g))
    requires GenesisAccepted(h) && Mirrors(other, GenesisNode(h))
    requires AfterSessions(start, mine).height == AfterSessions(other, theirs).height > 0
    requires OnePerHeight(ShownIn(mine) + ShownIn(theirs))
    ensures var a, b := AfterSessions(start, mine), AfterSessions(other, theirs);
            || CollisionIn(SessionsMsgs(start, GenesisNode(g), mine))
            || CollisionIn(SessionsMsgs(other, GenesisNode(h), theirs))
            || CollisionIn(RunMsgs(p) + RunMsgs(q))
            || (&& a.blockHash == b.blockHash && a.accountsRoot == b.accountsRoot
                && a.nullifiers == b.nullifiers && a.fee == b.fee)
  {
    hide Mirrors, RunMsgs, Accepted, AfterSessions, SessionsMsgs, ShownIn, GenesisAccepted, SameCommitted;
    p, q := StartOf(g), StartOf(h);
    StartAccepted(g);
    StartAccepted(h);
    if !CollisionIn(SessionsMsgs(start, GenesisNode(g), mine))
       && !CollisionIn(SessionsMsgs(other, GenesisNode(h), theirs)) {
      p := SessionsExtendRun(start, p, mine);
      q := SessionsExtendRun(other, q, theirs);
      AcceptedShape(p);
      AcceptedShape(q);
      MirrorFacts(AfterSessions(start, mine), p);
      MirrorFacts(AfterSessions(other, theirs), q);
      if !CollisionIn(RunMsgs(p) + RunMsgs(q)) {
        var k := |p.blocks|;
        PinnedHeight(p, k);
        PinnedHeight(q, k);
        assert p.atts[k - 1].value in ShownIn(mine) + ShownIn(theirs);
        PinnedAlike(p, q, k);
        TipHash(p);
        TipHash(q);
        assert HeaderAt(p, k) == HeaderAt(q, k) && SameCommitted(p.nodes[k].state, q.nodes[k].state);
        CommittedParts(p.nodes[k].state, q.nodes[k].state);
      }
    }
  }

  lemma CommittedParts(s: State, t: State)
    requires SameCommitted(s, t)
    ensures s.accounts == t.accounts && s.nullifiers == t.nullifiers && s.fee == t.fee
  {
  }

  // ---------- a node and a wallet over the same L1 ----------

  lemma RepresentsCommitted(head: VerifiedHead, s: State, t: State)
    requires SameCommitted(s, t)
    ensures Represents(head, s) <==> Represents(head, t)
  {
    hide TrueProof, Root, AccountsRoot, NullifiersHash;
  }

  /** A node that completes its tick by scanning and a wallet that succeeds by walking spends,
      from the same anchor and the same standing, each with its own server and its own view
      for mints, end at the same anchor with the wallet standing for the node's ledger. */
  lemma NodeAndWalletMeet(r: Run, f: FollowerState, head: VerifiedHead, l1: L1, lo: Place, source: BlockSource,
                          view: L1View,
                          server: Server, other: L1View)
    returns (p: Run, q: Run)
    requires Accepted(r) && f.node == Tip(r) && Mirrors(head, f.node) && head.anchor == f.anchor
    requires ValidL1(l1) && Unspent(l1, f.anchor, lo) && lo.height <= |l1.blocks|
    requires TickFrom(f, l1, lo, source, view).1 == Done
    requires Chain(l1, f.anchor, lo).Ok?
    requires WalkAll(head, StepsOf(Chain(l1, f.anchor, lo).value), server, other).Ok?
    ensures var steps := StepsOf(Chain(l1, f.anchor, lo).value);
            var head', f' := WalkAll(head, steps, server, other).value, TickFrom(f, l1, lo, source, view).0;
            && head'.anchor == f'.anchor
            && (Mirrors(head', f'.node) || CollisionIn(WalkMsgs(f.node, steps, server, other))
                || CollisionIn(RunMsgs(p) + RunMsgs(q)))
  {
    hide ValidL1, Unspent, Mirrors, Chain, Visits, TickFrom, WalkAll, Follow, WalkMsgs, Ascending, Accepted, RunMsgs,
         StandsAt;
    TraversalsAgree(l1, f.anchor, lo);
    var advs := Chain(l1, f.anchor, lo).value;
    var steps := StepsOf(advs);
    TickCompletes(f, l1, lo, source, view);
    WalkAnchor(head, advs, server, other);
    p := FollowExtendsRun(r, AttestationsOf(advs), source, view);
    q := FollowExtendsRun(r, AttestationsOf(advs), server.blocks, other);
    if !CollisionIn(WalkMsgs(f.node, steps, server, other)) && !CollisionIn(RunMsgs(p) + RunMsgs(q)) {
      WalkSound(head, f.node, steps, server, other);
      AcceptedShape(p);
      AcceptedShape(q);
      SameLedger(f.node, advs, source, view, server.blocks, other, p, q);
      MirrorsCommitted(WalkAll(head, steps, server, other).value, Tip(q), Tip(p));
    }
  }

  lemma MirrorsCommitted(head: VerifiedHead, n: NodeState, m: NodeState)
    requires Mirrors(head, n) && SameCommitted(n.state, m.state)
    requires n.head.height == m.head.height && n.head.blockHash == m.head.blockHash
    ensures Mirrors(head, m)
  {
    hide Represents;
    RepresentsCommitted(head, n.state, m.state);
  }

  lemma SameLedger(n: NodeState, advs: seq<Advance>, source: BlockSource, view: L1View, other: BlockSource,
                   seen: L1View,
                   p: Run, q: Run)
    requires |p.nodes| > 0 && |q.nodes| > 0
    requires Follow(n, AttestationsOf(advs), source, view) == (Tip(p), None)
    requires Follow(n, AttestationsOf(advs), other, seen) == (Tip(q), None)
    requires Accepted(p) && Accepted(q) && !CollisionIn(RunMsgs(p) + RunMsgs(q))
    requires Ascending(n.head.height, advs)
    ensures Tip(p).head.height == Tip(q).head.height && Tip(p).head.blockHash == Tip(q).head.blockHash
    ensures SameCommitted(Tip(p).state, Tip(q).state)
  {
    hide RunMsgs, Accepted, StateRoot, HeaderHash, ProcessAttestation;
    if advs != [] {
      FollowEndsAt(n, advs, source, view);
      FollowEndsAt(n, advs, other, seen);
      TipHeight(p);
      TipHeight(q);
      TipHash(p);
      TipHash(q);
      SameHashSameHistory(p, q, |p.blocks|);
    }
  }
}
