/** Wallets in the whole loop: one that stands where the follower stands and is served by the
    sequencer keeps up with whatever L1 mines. */
module WalletNetwork {
  import opened Primitives
  import opened Types
  import opened Messages
  import opened MintProof
  import opened Node
  import opened LightClient
  import opened Walk
  import opened L1Chain
  import opened Follower
  import opened Sequencer
  import opened PostHistory
  import opened LockStep
  import opened Network
  import Witness

  /** The sequencer serves its blocks and the witnesses it stored with them. */
  function ServerOf(s: SequencerState): Server { Server(s.blocks, s.witnesses) }

  lemma RangeStep(n: NodeState, height: u32, att: Attestation, server: Server, view: L1View)
    requires height <= att.height && height in server.blocks && height in server.witnesses
    requires server.witnesses[height] == Witness.Build(n.state, server.blocks[height].txs, height)
    requires TxsRoot(server.blocks[height].txs) == server.blocks[height].header.txsRoot
    ensures var end := if height == att.height then Some(att) else None;
            var r := ApplyBlock(n, height, server.blocks[height], end, view);
            HonestRange(n, height, att, server, view)
            <==> (r.Ok? ==> HonestRange(r.value, height + 1, att, server, view))
  {
    hide ApplyBlock, TxsRoot, Witness.Build;
  }

  lemma RangeOver(n: NodeState, att: Attestation, server: Server, view: L1View)
    ensures HonestRange(n, att.height + 1, att, server, view)
  {
  }

  /** What the sequencer serves for a batch is what a node there would build. */
  lemma {:induction false} BatchHonest(sys: System, t: nat, view: L1View)
    requires InStep(sys) && sys.node.head.height < t <= sys.sequencer.head.height < U32_MAX
    ensures HonestRange(sys.node, sys.node.head.height + 1, AttestationOf(StateAfter(sys, t)),
                        ServerOf(sys.sequencer), view)
    decreases t - sys.node.head.height
  {
    hide MintsVerify, ApplyBlock, StateAfter, InStep, StepSystem, HonestRange, TxsRoot, Witness.Build;
    var h := sys.node.head.height + 1;
    var att := AttestationOf(StateAfter(sys, t));
    HeightAfter(sys, t);
    NextPublished(sys);
    RangeStep(sys.node, h, att, ServerOf(sys.sequencer), view);
    FollowInStep(sys, h == t, view);
    FollowingStep(sys, h == t, view);
    var next := StepSystem(sys, Following(h == t, view)).0;
    if MintsVerify(sys, view, h) {
      SameButNode(sys, next, view);
      if h < t {
        BatchHonest(next, t, view);
      } else {
        RangeOver(next.node, att, ServerOf(sys.sequencer), view);
      }
    }
  }

  /** Along the links that a scan meets the sequencer is an honest server. */
  ghost predicate HonestFrom(w: World, advs: seq<Advance>, view: L1View) {
    && HonestServer(w.sys.node, AttestationsOf(advs), ServerOf(w.sys.sequencer), view)
    && (Follow(w.sys.node, AttestationsOf(advs), w.sys.sequencer.blocks, view).1.None? ==>
         Ascending(w.sys.node.head.height, advs))
  }

  lemma HonestNothing(w: World, view: L1View)
    ensures HonestFrom(w, [], view)
  {
  }

  lemma HonestCons(w: World, adv: Advance, rest: seq<Advance>, next: World, view: L1View)
    requires w.sys.node.head.height < adv.attestation.height && next.sys.sequencer == w.sys.sequencer
    requires HonestRange(w.sys.node, w.sys.node.head.height + 1, adv.attestation, ServerOf(w.sys.sequencer), view)
    requires var (n, e) := ProcessAttestation(w.sys.node, adv.attestation, w.sys.sequencer.blocks, view);
             e.None? ==> n == next.sys.node && n.head.height == adv.attestation.height && HonestFrom(next, rest, view)
    ensures HonestFrom(w, [adv] + rest, view)
  {
    hide ProcessAttestation, HonestRange;
    var all := [adv] + rest;
    assert all[1..] == rest;
    var atts, server := AttestationsOf(all), ServerOf(w.sys.sequencer);
    assert atts[0] == adv.attestation && atts[1..] == AttestationsOf(rest);
    var (n, e) := ProcessAttestation(w.sys.node, adv.attestation, w.sys.sequencer.blocks, view);
    assert HonestServer(w.sys.node, atts, server, view) <==> (e.None? ==> HonestServer(n, atts[1..], server, view));
    if e.None? {
      assert Follow(w.sys.node, atts, server.blocks, view) == Follow(n, atts[1..], server.blocks, view);
      assert Ascending(w.sys.node.head.height, all) <==> Ascending(n.head.height, rest);
    }
  }

  lemma VisitsStep(l1: L1, anchor: OutPoint, lo: Place)
    requires ValidL1(l1) && Unspent(l1, anchor, lo) && lo.height < |l1.blocks| && lo.height <= U32_MAX
    ensures var found := SpenderIn(l1.blocks[lo.height], anchor, 0);
            && (found.None? ==>
                 && Unspent(l1, anchor, Place(lo.height + 1, 0))
                 && Visits(l1, anchor, lo) == Visits(l1, anchor, Place(lo.height + 1, 0)))
            && (found.Some? ==>
                 var link := LinkOf(TxAt(l1, Place(lo.height, found.value)), lo.height, anchor);
                 var after := Place(lo.height, found.value + 1);
                 link.Ok? ==>
                   && Unspent(l1, link.value.next, after) && RoomAfter(l1, after) < RoomAfter(l1, lo)
                   && Visits(l1, anchor, lo) == Prepended([link.value], Visits(l1, link.value.next, after)))
  {
    hide ValidL1, Unspent, SpenderIn, LinkOf;
    var found := SpenderIn(l1.blocks[lo.height], anchor, 0);
    if found.None? {
      BlockPassed(l1, anchor, lo);
    } else {
      var p := Place(lo.height, found.value);
      assert SpentAt(l1, anchor, p);
      SpendNotBefore(l1, anchor, lo, p);
      var link := LinkOf(TxAt(l1, p), lo.height, anchor);
      if link.Ok? {
        LinkFacts(TxAt(l1, p), lo.height, anchor);
        NextUnspent(l1, p);
      }
    }
  }

  lemma {:induction false} HonestAlong(w: World, j: nat, lo: Place, view: L1View)
    requires ValidL1(w.l1) && Unspent(w.l1, w.anchor, lo) && lo.height <= |w.l1.blocks|
    requires Visits(w.l1, w.anchor, lo).Ok?
    requires Sound(w, j) && w.sys.sequencer.head.height < U32_MAX
    ensures HonestFrom(w, Visits(w.l1, w.anchor, lo).value, view)
    decreases |w.l1.blocks| - lo.height, RoomAfter(w.l1, lo)
  {
    hide Sound, ValidL1, Unspent, SpenderIn, LinkOf, Visits, HonestFrom, HonestRange, ProcessAdvance, BatchVerifies,
         ViewSuffices, StateAfter, InStep, RoomAfter, ProcessAttestation, WithFollower;
    if lo.height == |w.l1.blocks| {
      ScanDone(w.l1, w.anchor, lo, FollowerOf(w), w.sys.sequencer.blocks, view);
      HonestNothing(w, view);
    } else {
      CursorFits(w.l1, lo);
      VisitsStep(w.l1, w.anchor, lo);
      ScanFinds(w.l1, lo.height, w.anchor);
      var found := SpenderIn(w.l1.blocks[lo.height], w.anchor, 0);
      if found.None? {
        HonestAlong(w, j, Place(lo.height + 1, 0), view);
      } else {
        LinkHonest(w, j, lo, found.value, view);
      }
    }
  }

  lemma {:induction false} LinkHonest(w: World, j: nat, lo: Place, i: nat, view: L1View)
    requires ValidL1(w.l1) && Unspent(w.l1, w.anchor, lo) && lo.height < |w.l1.blocks| && lo.height <= U32_MAX
    requires SpenderIn(w.l1.blocks[lo.height], w.anchor, 0) == Some(i)
    requires Visits(w.l1, w.anchor, lo).Ok?
    requires Sound(w, j) && w.sys.sequencer.head.height < U32_MAX
    ensures HonestFrom(w, Visits(w.l1, w.anchor, lo).value, view)
    decreases |w.l1.blocks| - lo.height, RoomAfter(w.l1, lo), 0
  {
    hide Sound, ValidL1, Unspent, SpenderIn, LinkOf, Visits, HonestFrom, HonestRange, ProcessAdvance, BatchVerifies,
         ViewSuffices, StateAfter, InStep, RoomAfter, ProcessAttestation, WithFollower;
    VisitsStep(w.l1, w.anchor, lo);
    ScanFinds(w.l1, lo.height, w.anchor);
    var p, after := Place(lo.height, i), Place(lo.height, i + 1);
    var adv := AdvanceInWorld(w, j, p, view);
    var same := NextPost(w, j, p);
    PostFollows(w, j);
    SoundValid(w, j);
    BatchHonest(w.sys, w.posts[j].l2Height, view);
    var (f, end) := ProcessAdvance(FollowerOf(w), adv, w.sys.sequencer.blocks, view);
    var next := WithFollower(w, f);
    AdvanceMoves(FollowerOf(w), adv, w.sys.sequencer.blocks, view);
    FollowerKept(w, f);
    var rest := Visits(w.l1, adv.next, after).value;
    if end.None? {
      HonestAlong(next, j + 1, after, view);
    }
    HonestCons(w, adv, rest, next, view);
    assert Visits(w.l1, w.anchor, lo).value == [adv] + rest;
  }

  lemma FollowerKept(w: World, f: FollowerState)
    ensures var next := WithFollower(w, f);
            && next.l1 == w.l1 && next.sys.sequencer == w.sys.sequencer
            && next.sys.node == f.node && next.anchor == f.anchor && next.cursor == f.cursor
  {
  }

  /** How a refresh of the wallet goes: its walk over L1 fails if an unconfirmed transaction
      spends the last anchor; otherwise it succeeds exactly if its own view suffices, and it
      then stands where a tick of the follower with that view arrives. */
  ghost predicate RefreshOutcome(w: World, head: VerifiedHead, view: L1View)
    requires ValidL1(w.l1)
  {
    var chain := Chain(w.l1, w.anchor, Place(0, 0));
    var (after, end) := StepWorld(w, FollowerDue(view));
    && (ViewSuffices(w, view) ==>
         && end == Done
         && (chain.Ok? <==> !SpentUnconfirmed(w.l1, after.anchor))
         && (chain.Err? ==> chain.error == SpendUnconfirmed))
    && (chain.Ok? ==>
         var r := WalkAll(head, StepsOf(chain.value), ServerOf(w.sys.sequencer), view);
         && (r.Ok? <==> ViewSuffices(w, view))
         && (r.Ok? ==> Mirrors(r.value, after.sys.node) && r.value.anchor == after.anchor))
  }

  lemma UnspentAtStart(l1: L1, op: OutPoint)
    ensures Unspent(l1, op, Place(0, 0))
  {
  }

  lemma WalletInWorld(w: World, j: nat, head: VerifiedHead, view: L1View)
    requires Settled(w, j) && w.sys.sequencer.head.height < U32_MAX
    requires Mirrors(head, w.sys.node) && head.anchor == w.anchor
    ensures ValidL1(w.l1) && RefreshOutcome(w, head, view)
  {
    hide Sound, Unspent, Chain, Visits, TickFrom, StepWorld, Follow, Ascending, Recorded, ViewSuffices, HonestServer,
         WalkAll, Mirrors, SpentOnL1, WithFollower;
    var lo, blocks := Place(w.cursor + 1, 0), w.sys.sequencer.blocks;
    SettledFacts(w, j);
    TickStep(w, view);
    var k := TickInWorld(w, j, lo, view);
    TickCompletes(FollowerOf(w), w.l1, lo, blocks, view);
    TraversalsAgree(w.l1, w.anchor, lo);
    UnspentAtStart(w.l1, w.anchor);
    ChainPlaceIrrelevant(w.l1, w.anchor, lo, Place(0, 0));
    FollowerKept(w, TickFrom(FollowerOf(w), w.l1, lo, blocks, view).0);
    if Visits(w.l1, w.anchor, lo).Ok? {
      var advs := Visits(w.l1, w.anchor, lo).value;
      HonestAlong(w, j, lo, view);
      HonestWalkAccepted(head, w.sys.node, StepsOf(advs), ServerOf(w.sys.sequencer), view);
      if WalkAll(head, StepsOf(advs), ServerOf(w.sys.sequencer), view).Ok? {
        WalkAnchor(head, advs, ServerOf(w.sys.sequencer), view);
      }
    }
  }

  // ---------- a wallet and a follower with different views ----------

  lemma SamePlace(a: World, j: nat, b: World, k: nat)
    requires Settled(a, j) && Settled(b, k) && a.posts == b.posts && a.l1 == b.l1
    requires !SpentOnL1(a.l1, a.anchor) && !SpentOnL1(b.l1, b.anchor)
    ensures j == k
  {
    hide InStep, Standing, ValidL1, MinedPosts, Unspent, SpentOnL1;
  }

  /** Two ends of ticks over the same L1, whatever the views, are the same standing. */
  lemma SameStanding(a: World, j: nat, b: World, k: nat, head: VerifiedHead)
    requires Settled(a, j) && Settled(b, k) && b == WithFollower(a, FollowerOf(b))
    requires !SpentOnL1(a.l1, a.anchor) && !SpentOnL1(b.l1, b.anchor)
    ensures a.anchor == b.anchor && (Mirrors(head, a.sys.node) <==> Mirrors(head, b.sys.node))
  {
    hide Standing, ValidL1, MinedPosts, Unspent, SpentOnL1, Represents, Produce, Fits, ViewSuffices;
    SamePlace(a, j, b, k);
    NothingDue(a, j, L1View(map[], 0));
    NothingDue(b, k, L1View(map[], 0));
    assert forall h :: StateAfter(a.sys, h) == StateAfter(b.sys, h);
  }

  lemma TickShape(w: World, j: nat, view: L1View)
    requires Settled(w, j)
    ensures var next := StepWorld(w, FollowerDue(view)).0; next == WithFollower(w, FollowerOf(next))
  {
    hide Sound, Unspent, TickFrom;
    SettledFacts(w, j);
    TickStep(w, view);
  }

  /** A wallet and a follower from one standing, each with its own sufficient view, meet again. */
  lemma WalletMeetsFollower(w: World, j: nat, head: VerifiedHead, own: L1View, other: L1View)
    requires Settled(w, j) && w.sys.sequencer.head.height < U32_MAX && ValidL1(w.l1)
    requires Mirrors(head, w.sys.node) && head.anchor == w.anchor
    requires ViewSuffices(w, own) && ViewSuffices(w, other)
    ensures var chain := Chain(w.l1, w.anchor, Place(0, 0));
            var (after, end) := StepWorld(w, FollowerDue(other));
            && end == Done
            && (chain.Ok? ==>
                 var r := WalkAll(head, StepsOf(chain.value), ServerOf(w.sys.sequencer), own);
                 r.Ok? && Mirrors(r.value, after.sys.node) && r.value.anchor == after.anchor)
  {
    hide Settled, Chain, StepWorld, ViewSuffices, WalkAll, Mirrors, SpentOnL1, ValidL1;
    WalletInWorld(w, j, head, own);
    var k := TickSettles(w, j, own);
    var l := TickSettles(w, j, other);
    TickShape(w, j, own);
    TickShape(w, j, other);
    var mine, theirs := StepWorld(w, FollowerDue(own)).0, StepWorld(w, FollowerDue(other)).0;
    var chain := Chain(w.l1, w.anchor, Place(0, 0));
    if chain.Ok? {
      var r := WalkAll(head, StepsOf(chain.value), ServerOf(w.sys.sequencer), own);
      SameStanding(mine, k, theirs, l, r.value);
    }
  }

  /** In every world the network reaches, a wallet that stands where the follower stands, with
      a view of its own, keeps up with what L1 has mined. */
  lemma WalletFollowsNetwork(w: World, steps: seq<WorldStep>, head: VerifiedHead, view: L1View)
    requires Launched(w) && PossibleRun(w, steps)
    requires Mirrors(head, RunWorld(w, steps).sys.node) && head.anchor == RunWorld(w, steps).anchor
    ensures var end := RunWorld(w, steps); ValidL1(end.l1) && RefreshOutcome(end, head, view)
  {
    hide PossibleRun, RunWorld, Settled, RefreshOutcome, Mirrors;
    LaunchSettled(w);
    var j := RunSettled(w, 0, steps);
    WalletInWorld(RunWorld(w, steps), j, head, view);
  }
}
