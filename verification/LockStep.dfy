/** Sequencer and follower together: however their steps interleave, the follower holds
    the ledger the sequencer had at the same height. */
module LockStep {
  import opened Primitives
  import opened Types
  import opened Messages
  import opened Ledger
  import opened MintProof
  import opened Node
  import opened Sequencer
  import Witness
  import LightClient
  import Walk

  /** One past production: the sequencer's state before it, and what it then saw. */
  datatype Production = Production(from: SequencerState, around: Surroundings)

  /** The running system with its past; `first` is the sequencer at genesis. */
  datatype System = System(first: SequencerState, past: seq<Production>, sequencer: SequencerState, node: NodeState)

  datatype SystemStep =
    | Producing(surroundings: Surroundings)
    | Posting(postingAround: Surroundings, tip: u32, posted: Option<Txid>)
    | Watching(statuses: seq<Status>)
    | Following(attested: bool, view: L1View)

  /** The sequencer right after it produced block `h`. */
  function StateAfter(sys: System, h: nat): SequencerState {
    if h == 0 || h > |sys.past| then sys.first else Produce(sys.past[h - 1].from, sys.past[h - 1].around)
  }

  /** Two sequencer states with the same ledger and head. */
  predicate SameChain(s: SequencerState, t: SequencerState) {
    s.state == t.state && s.head == t.head
  }

  /** Two sequencer states that serve the same blocks and witnesses. */
  predicate SamePublished(s: SequencerState, t: SequencerState) {
    s.blocks == t.blocks && s.witnesses == t.witnesses
  }

  /** Production number `h` started where number `h - 1` ended, and its block and witness are
      published. */
  ghost predicate Fits(sys: System, h: nat) {
    h < |sys.past| ==>
      && sys.past[h].from.head.height == h
      && SameChain(sys.past[h].from, StateAfter(sys, h))
      && (h + 1) in sys.sequencer.blocks
      && sys.sequencer.blocks[h + 1] == ProducedBlock(sys.past[h].from, sys.past[h].around)
      && (h + 1) in sys.sequencer.witnesses
      && sys.sequencer.witnesses[h + 1] == WitnessFor(sys.past[h].from, sys.sequencer.blocks[h + 1])
  }

  function WitnessFor(s: SequencerState, block: Block): Witness.BlockWitness {
    Witness.Build(s.state, block.txs, block.header.height)
  }

  ghost predicate CoherentPast(sys: System) {
    && |sys.past| == sys.sequencer.head.height
    && SameChain(sys.sequencer, StateAfter(sys, |sys.past|))
    && forall h {:trigger Fits(sys, h)} :: Fits(sys, h)
  }

  /** The follower's head is one of the sequencer's blocks and its ledger the one after it. */
  ghost predicate InStep(sys: System) {
    && CoherentPast(sys)
    && sys.node.head.height <= sys.sequencer.head.height
    && sys.node.state == StateAfter(sys, sys.node.head.height).state
    && sys.node.head.blockHash == StateAfter(sys, sys.node.head.height).head.blockHash
  }

  /** The attestation that commits to the block a sequencer state stands at. */
  function AttestationOf(s: SequencerState): Attestation {
    Attestation(s.head.height, s.head.blockHash, s.head.stateRoot)
  }

  /** One step. A follower step takes the next published block, alone or as the end of an
      attested batch; its error, if any, is reported. */
  ghost function StepSystem(sys: System, step: SystemStep): (System, Option<BlockError>) {
    match step
    case Producing(w) =>
      (sys.(sequencer := Produce(sys.sequencer, w), past := sys.past + [Production(sys.sequencer, w)]), None)
    case Posting(w, tip, posted) =>
      var s' := CheckAndAttest(sys.sequencer, w, tip, posted);
      if tip <= LastAttested(sys.sequencer) then (sys.(sequencer := s'), None)
      else (sys.(sequencer := s', past := sys.past + [Production(sys.sequencer, w)]), None)
    case Watching(statuses) =>
      if |statuses| == |sys.sequencer.pending| then (sys.(sequencer := Monitor(sys.sequencer, statuses)), None)
      else (sys, None)
    case Following(attested, view) =>
      if sys.node.head.height >= sys.sequencer.head.height then (sys, None)
      else
        var h := sys.node.head.height + 1;
        if h !in sys.sequencer.blocks then (sys, Some(FetchFailed))
        else
          var att := if attested then Some(AttestationOf(StateAfter(sys, h))) else None;
          var r := ApplyBlock(sys.node, h, sys.sequencer.blocks[h], att, view);
          if r.Ok? then (sys.(node := r.value), None) else (sys, Some(r.error))
  }

  /** The view verifies the mints of published block `h`. */
  predicate MintsVerify(sys: System, view: L1View, h: nat) {
    h <= U32_MAX && h in sys.sequencer.blocks ==> VerifyMints(sys.sequencer.blocks[h].txs, view).None?
  }

  lemma ProducedFacts(s: SequencerState, w: Surroundings)
    requires s.head.height < U32_MAX
    ensures NextHeight(s.head.height) == s.head.height + 1
    ensures Produce(s, w).head.height == s.head.height + 1
    ensures HeadAfter(s.head.height + 1, ProducedBlock(s, w)).height == s.head.height + 1
    ensures Produce(s, w).blocks == s.blocks[s.head.height + 1 := ProducedBlock(s, w)]
    ensures Produce(s, w).witnesses == s.witnesses[s.head.height + 1 := WitnessFor(s, ProducedBlock(s, w))]
    ensures ProducedBlock(s, w).header.height == s.head.height + 1
  {
    hide AfterDropping, Candidates, Included, TxsRoot, StateRoot, Witness.Build;
  }

  /** Recording one more production changes nothing about the earlier ones. */
  lemma PastExtended(sys: System, next: System, w: Surroundings, h: nat)
    requires next.past == sys.past + [Production(sys.sequencer, w)] && next.first == sys.first
    ensures h <= |sys.past| ==> StateAfter(next, h) == StateAfter(sys, h)
    ensures StateAfter(next, |next.past|) == Produce(sys.sequencer, w)
  {
    hide Produce;
  }

  lemma ProductionFits(sys: System, next: System, w: Surroundings, h: nat)
    requires CoherentPast(sys) && sys.sequencer.head.height < U32_MAX
    requires next.past == sys.past + [Production(sys.sequencer, w)] && next.first == sys.first
    requires SamePublished(next.sequencer, Produce(sys.sequencer, w))
    ensures Fits(next, h)
  {
    hide Produce, ProducedBlock, StateAfter, WitnessFor;
    assert Fits(sys, h);
    PastExtended(sys, next, w, h);
    ProducedFacts(sys.sequencer, w);
  }

  lemma ProductionInStep(sys: System, next: System, w: Surroundings)
    requires InStep(sys) && sys.sequencer.head.height < U32_MAX
    requires next.past == sys.past + [Production(sys.sequencer, w)] && next.first == sys.first && next.node == sys.node
    requires SameChain(next.sequencer, Produce(sys.sequencer, w))
    requires SamePublished(next.sequencer, Produce(sys.sequencer, w))
    ensures InStep(next)
  {
    hide Produce, ProducedBlock, StateAfter, Fits, SamePublished;
    forall h {:trigger Fits(next, h)}
      ensures Fits(next, h)
    {
      ProductionFits(sys, next, w, h);
    }
    PastExtended(sys, next, w, sys.node.head.height);
    ProducedFacts(sys.sequencer, w);
  }

  lemma AttestingFacts(s: SequencerState, w: Surroundings, tip: u32, posted: Option<Txid>)
    ensures tip > LastAttested(s) ==>
      && SameChain(CheckAndAttest(s, w, tip, posted), Produce(s, w))
      && SamePublished(CheckAndAttest(s, w, tip, posted), Produce(s, w))
    ensures tip <= LastAttested(s) ==> CheckAndAttest(s, w, tip, posted) == s
  {
    hide Produce;
  }

  lemma SequencerSwapped(sys: System, next: System)
    requires InStep(sys) && next == sys.(sequencer := next.sequencer)
    requires SameChain(next.sequencer, sys.sequencer) && SamePublished(next.sequencer, sys.sequencer)
    ensures InStep(next)
  {
    hide Produce, ProducedBlock;
    forall h {:trigger Fits(next, h)}
      ensures Fits(next, h)
    {
      assert Fits(sys, h);
      assert StateAfter(next, h) == StateAfter(sys, h);
    }
  }

  /** A view that still shows the outputs as the producer saw them will do. */
  lemma StableSuffices(sys: System, view: L1View, h: nat)
    requires InStep(sys) && 0 < h <= sys.sequencer.head.height
    requires var Production(from, around) := sys.past[h - 1];
             StableView(around.view, view, ProducedBlock(from, around).txs)
    ensures MintsVerify(sys, view, h)
  {
    hide Produce, ProducedBlock, StableView, VerifyMints, WitnessFor, StateAfter;
    assert Fits(sys, h - 1);
    ProducedMintsVerify(sys.past[h - 1].from, sys.past[h - 1].around, view);
  }

  /** Whatever its view, the follower stays in step; it takes the next published block exactly
      if the view verifies that block's mints, and has no other reason to refuse it. */
  lemma FollowInStep(sys: System, attested: bool, view: L1View)
    requires InStep(sys) && sys.node.head.height < sys.sequencer.head.height < U32_MAX
    ensures var h := sys.node.head.height + 1;
            var (next, e) := StepSystem(sys, Following(attested, view));
            && InStep(next) && h in sys.sequencer.blocks
            && (e.None? <==> MintsVerify(sys, view, h))
            && (e.None? ==> next.node.head.height == h)
            && (e.Some? ==> e.value.BadMint? && next == sys)
  {
    hide Produce, ProducedBlock, StableView, HeadAfter, ApplyBlock, WitnessFor, StepSystem, VerifyMints;
    var k := sys.node.head.height;
    assert Fits(sys, k);
    FollowingStep(sys, attested, view);
    var s, w := sys.past[k].from, sys.past[k].around;
    ProducedFacts(s, w);
    var att := if attested then Some(AttestationOf(StateAfter(sys, k + 1))) else None;
    ProducedBlockAccepted(s, w, sys.node, att, view);
    if MintsVerify(sys, view, k + 1) {
      NodeSwapped(sys, StepSystem(sys, Following(attested, view)).0);
    }
  }

  lemma NodeSwapped(sys: System, next: System)
    requires CoherentPast(sys) && next == sys.(node := next.node)
    ensures CoherentPast(next)
    ensures forall h :: StateAfter(next, h) == StateAfter(sys, h)
  {
    hide Produce, ProducedBlock;
    forall h {:trigger Fits(next, h)}
      ensures Fits(next, h)
    {
      assert Fits(sys, h);
    }
  }

  lemma HeightAfter(sys: System, t: nat)
    requires InStep(sys) && 0 < t <= sys.sequencer.head.height < U32_MAX
    ensures StateAfter(sys, t).head.height == t
  {
    hide Produce, ProducedBlock;
    assert Fits(sys, t - 1);
    ProducedFacts(sys.past[t - 1].from, sys.past[t - 1].around);
  }

  predicate BatchVerifies(sys: System, view: L1View, from: nat, to: nat) {
    forall h :: from < h <= to ==> MintsVerify(sys, view, h)
  }

  /** The outcome of a batch attested only at its last block `t`: the follower stays in step,
      and takes the whole batch, ending with the ledger the sequencer had after block `t`,
      exactly if its view verifies the mints of the batch. */
  ghost predicate BatchOutcome(sys: System, t: nat, view: L1View)
    requires sys.node.head.height < t <= sys.sequencer.head.height
  {
    var (n, e) := ApplyRange(sys.node, sys.node.head.height + 1, AttestationOf(StateAfter(sys, t)),
                             sys.sequencer.blocks, view);
    && InStep(sys.(node := n)) && sys.node.head.height <= n.head.height <= t
    && (e.None? <==> BatchVerifies(sys, view, sys.node.head.height, t))
    && (e.None? <==> n.head.height == t)
    && (e.Some? ==> e.value.BadMint?)
  }

  lemma {:induction false} BatchInStep(sys: System, t: nat, view: L1View)
    requires InStep(sys) && sys.node.head.height < t <= sys.sequencer.head.height < U32_MAX
    ensures BatchOutcome(sys, t, view)
    decreases t - sys.node.head.height
  {
    hide Produce, ProducedBlock, MintsVerify, ApplyBlock, StateAfter, InStep, StepSystem;
    HeightAfter(sys, t);
    var h := sys.node.head.height + 1;
    FollowInStep(sys, h == t, view);
    FollowingStep(sys, h == t, view);
    var next := StepSystem(sys, Following(h == t, view)).0;
    if MintsVerify(sys, view, h) {
      SameButNode(sys, next, view);
      if h < t {
        BatchInStep(next, t, view);
        assert BatchVerifies(sys, view, h - 1, t) <==> BatchVerifies(next, view, h, t);
      } else {
        BatchEnds(next.node, AttestationOf(StateAfter(sys, t)), sys.sequencer.blocks, view);
        assert BatchVerifies(sys, view, h - 1, t);
      }
    } else {
      assert !BatchVerifies(sys, view, h - 1, t);
      assert sys.(node := sys.node) == sys;
    }
  }

  lemma SameButNode(sys: System, next: System, view: L1View)
    requires InStep(sys) && next == sys.(node := next.node)
    ensures forall h :: StateAfter(next, h) == StateAfter(sys, h)
    ensures forall h :: MintsVerify(next, view, h) == MintsVerify(sys, view, h)
  {
    hide VerifyMints;
    NodeSwapped(sys, next);
  }

  lemma BatchEnds(n: NodeState, att: Attestation, source: BlockSource, view: L1View)
    ensures ApplyRange(n, att.height + 1, att, source, view) == (n, None)
  {
  }

  lemma ProducedTxsRoot(s: SequencerState, w: Surroundings)
    ensures TxsRoot(ProducedBlock(s, w).txs) == ProducedBlock(s, w).header.txsRoot
  {
    hide TxsRoot, Included, AfterDropping, Candidates, StateRoot;
  }

  /** The wallet, served by the sequencer, accepts the next published block, and then stands
      where the follower stands after its own step. */
  ghost predicate WalletFollows(sys: System, head: LightClient.VerifiedHead, attested: bool, view: L1View)
    requires sys.node.head.height < sys.sequencer.head.height
  {
    var h := sys.node.head.height + 1;
    && h in sys.sequencer.blocks && h in sys.sequencer.witnesses
    && var att := if attested then Some(AttestationOf(StateAfter(sys, h))) else None;
       var c := LightClient.VerifyBlock(head, h, sys.sequencer.blocks[h], sys.sequencer.witnesses[h], att, view);
       c.Ok? && Walk.Mirrors(c.value, StepSystem(sys, Following(attested, view)).0.node)
  }

  /** A wallet standing where the follower stands follows every published block as well. */
  lemma WalletInStep(sys: System, head: LightClient.VerifiedHead, attested: bool, view: L1View)
    requires InStep(sys) && sys.node.head.height < sys.sequencer.head.height < U32_MAX
    requires Walk.Mirrors(head, sys.node) && MintsVerify(sys, view, sys.node.head.height + 1)
    ensures WalletFollows(sys, head, attested, view)
  {
    hide Produce, MintsVerify, ApplyBlock, LightClient.VerifyBlock, Walk.Mirrors, Witness.Build, TxsRoot, StateAfter,
         InStep, StepSystem;
    NextPublished(sys);
    FollowingStep(sys, attested, view);
    FollowInStep(sys, attested, view);
    var h := sys.node.head.height + 1;
    HeightAfter(sys, h);
    var att := if attested then Some(AttestationOf(StateAfter(sys, h))) else None;
    Walk.HonestBlock(head, sys.node, h, sys.sequencer.blocks[h], att, view);
  }

  lemma FollowingStep(sys: System, attested: bool, view: L1View)
    requires sys.node.head.height < sys.sequencer.head.height && (sys.node.head.height + 1) in sys.sequencer.blocks
    ensures var h := sys.node.head.height + 1;
            var att := if attested then Some(AttestationOf(StateAfter(sys, h))) else None;
            var n := ApplyBlock(sys.node, h, sys.sequencer.blocks[h], att, view);
            var (next, e) := StepSystem(sys, Following(attested, view));
            && (e.None? <==> n.Ok?)
            && (n.Ok? ==> next == sys.(node := n.value))
            && (n.Err? ==> next == sys && e == Some(n.error))
  {
    hide Produce, ApplyBlock, StateAfter;
  }

  lemma NextPublished(sys: System)
    requires InStep(sys) && sys.node.head.height < sys.sequencer.head.height
    ensures Published(sys, sys.node.head.height + 1)
  {
    hide Produce, ProducedBlock, TxsRoot, StateAfter, Witness.Build;
    var k := sys.node.head.height;
    assert Fits(sys, k);
    ProducedTxsRoot(sys.past[k].from, sys.past[k].around);
    ProducedFacts(sys.past[k].from, sys.past[k].around);
  }

  predicate Published(sys: System, h: u32) {
    && h in sys.sequencer.blocks && TxsRoot(sys.sequencer.blocks[h].txs) == sys.sequencer.blocks[h].header.txsRoot
    && h in sys.sequencer.witnesses
    && sys.sequencer.witnesses[h] == Witness.Build(sys.node.state, sys.sequencer.blocks[h].txs, h)
  }

  /** Every step keeps the two in step, whatever view the follower has. */
  lemma StepKeepsInStep(sys: System, step: SystemStep)
    requires InStep(sys) && sys.sequencer.head.height < U32_MAX
    ensures InStep(StepSystem(sys, step).0)
    ensures StepSystem(sys, step).1.Some? ==> step.Following? && StepSystem(sys, step).1.value.BadMint?
  {
    hide Produce, ProducedBlock, MintsVerify, ApplyBlock, Monitor, CheckAndAttest, InStep;
    match step
    case Producing(w) => ProductionInStep(sys, StepSystem(sys, step).0, w);
    case Posting(w, tip, posted) =>
      AttestingFacts(sys.sequencer, w, tip, posted);
      if tip > LastAttested(sys.sequencer) {
        ProductionInStep(sys, StepSystem(sys, step).0, w);
      }
    case Watching(statuses) =>
      if |statuses| == |sys.sequencer.pending| {
        MonitorFacts(sys.sequencer, statuses);
        SequencerSwapped(sys, StepSystem(sys, step).0);
      }
    case Following(attested, view) =>
      if sys.node.head.height < sys.sequencer.head.height {
        FollowInStep(sys, attested, view);
      }
  }

  // ---------- whole runs ----------

  /** Block heights do not run out before the last step. */
  ghost predicate HeightsLast(sys: System, steps: seq<SystemStep>)
    decreases |steps|
  {
    sys.sequencer.head.height < U32_MAX && (steps == [] || HeightsLast(StepSystem(sys, steps[0]).0, steps[1..]))
  }

  /** The system after a run. A follower that refuses a block goes on as it was. */
  ghost function RunSystem(sys: System, steps: seq<SystemStep>): System
    decreases |steps|
  {
    if steps == [] then sys else RunSystem(StepSystem(sys, steps[0]).0, steps[1..])
  }

  /** A chain at genesis with a node that accepted its genesis block. */
  predicate Fresh(sys: System) {
    && sys.past == [] && sys.sequencer == sys.first && sys.first.head.height == 0
    && sys.node.state == sys.first.state
    && sys.node.head.height == 0 && sys.node.head.blockHash == sys.first.head.blockHash
  }

  lemma {:induction false} RunInStep(sys: System, steps: seq<SystemStep>)
    requires InStep(sys) && HeightsLast(sys, steps)
    ensures InStep(RunSystem(sys, steps)) && RunSystem(sys, steps).sequencer.head.height < U32_MAX
    decreases |steps|
  {
    hide InStep, StepSystem;
    if steps != [] {
      StepKeepsInStep(sys, steps[0]);
      RunInStep(StepSystem(sys, steps[0]).0, steps[1..]);
    }
  }

  /** Lock-step over every run of block productions, attestation posts, reorg recoveries and
      follower steps with any views, from a fresh chain: at height `h` the follower holds
      exactly the ledger the sequencer had after block `h`, and it takes the next published
      block, if there is one, exactly if its view then verifies the block's mints. */
  lemma LockStepHolds(sys: System, steps: seq<SystemStep>, attested: bool, view: L1View)
    requires Fresh(sys) && HeightsLast(sys, steps)
    ensures var end := RunSystem(sys, steps);
            && |end.past| == end.sequencer.head.height
            && end.node.head.height <= end.sequencer.head.height
            && end.node.state == StateAfter(end, end.node.head.height).state
            && (end.node.head.height == end.sequencer.head.height ==> end.node.state == end.sequencer.state)
            && (end.node.head.height < end.sequencer.head.height ==>
                 (StepSystem(end, Following(attested, view)).1.None?
                  <==> MintsVerify(end, view, end.node.head.height + 1)))
  {
    hide StepSystem, HeightsLast, RunSystem, Produce, MintsVerify, WitnessFor;
    assert InStep(sys) by {
      assert forall h {:trigger Fits(sys, h)} :: Fits(sys, h);
    }
    RunInStep(sys, steps);
    var end := RunSystem(sys, steps);
    if end.node.head.height < end.sequencer.head.height {
      FollowInStep(end, attested, view);
    }
  }
}
