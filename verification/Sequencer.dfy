/** The sequencer: producing blocks, attesting them on L1, and tracking attestations
    until they are final. */
module Sequencer {
  import opened Primitives
  import opened Types
  import opened Messages
  import opened Ledger
  import opened MintProof
  import opened Witness
  import opened Node

  const REORG_FINALITY_DEPTH: u32 := 2

  datatype SeqHead = SeqHead(height: u32, blockHash: Digest, stateRoot: Digest, l1Height: u32, l1BlockHash: Digest)

  /** An attestation posted and not yet final. */
  datatype Pending = Pending(txid: Txid, spent: OutPoint, next: OutPoint, l2Height: u32, postedAt: u32)

  datatype SequencerState = SequencerState(
    state: State,
    head: SeqHead,
    blocks: map<u32, Block>,
    witnesses: map<u32, BlockWitness>,
    anchor: OutPoint,
    cursor: u32,
    lastAttested: Option<u32>,
    pending: seq<Pending>)

  /** What one production sees of the outside world. */
  datatype Surroundings = Surroundings(
    mints: seq<MintEntry>,
    transfers: seq<SignedTransfer>,
    l1Height: u32,
    l1BlockHash: Digest,
    view: L1View,
    now: u64,
    identity: Address)

  // ---------- producing a block ----------

  /** Mints whose witness still verifies, each with its freshly derived event. */
  function FreshMints(mints: seq<MintEntry>, view: L1View): seq<L2Tx>
    decreases |mints|
  {
    if mints == [] then []
    else
      match VerifyProof(mints[0].proof, view, mints[0].event.destination)
      case Ok(ev) => [Mint(MintEntry(ev, mints[0].proof))] + FreshMints(mints[1..], view)
      case Err(_) => FreshMints(mints[1..], view)
  }

  function TransferTxs(transfers: seq<SignedTransfer>): seq<L2Tx> {
    seq(|transfers|, i requires 0 <= i < |transfers| => Transfer(transfers[i]))
  }

  function Candidates(w: Surroundings): seq<L2Tx> {
    FreshMints(w.mints, w.view) + TransferTxs(w.transfers)
  }

  /** Heights are 32-bit and wrap in a release build. */
  function NextHeight(h: u32): u32 { (h + 1) % 0x1_0000_0000 }

  function BlockFrom(s: SequencerState, w: Surroundings, txs: seq<L2Tx>, after: State): Block {
    Block(Header(NextHeight(s.head.height), s.head.blockHash, w.l1BlockHash, w.l1Height, TxsRoot(txs), StateRoot(after),
                 w.now, None, Some(w.identity), None), txs)
  }

  function WithBlock(s: SequencerState, w: Surroundings, block: Block, after: State): SequencerState {
    s.(state := after,
       blocks := s.blocks[block.header.height := block],
       witnesses := s.witnesses[block.header.height := Build(s.state, block.txs, block.header.height)],
       cursor := w.l1Height,
       head := SeqHead(block.header.height, HeaderHash(block.header), block.header.stateRoot,
                       w.l1Height, w.l1BlockHash))
  }

  function ProducedBlock(s: SequencerState, w: Surroundings): Block {
    BlockFrom(s, w, Included(s.state, Candidates(w)), AfterDropping(s.state, Candidates(w)))
  }

  function Produce(s: SequencerState, w: Surroundings): SequencerState {
    WithBlock(s, w, ProducedBlock(s, w), AfterDropping(s.state, Candidates(w)))
  }

  /** A view that still shows an output as another one showed it, confirmed. */
  predicate SameOutput(seen: L1View, now: L1View, op: OutPoint)
    requires op in seen.outputs
  {
    && op in now.outputs
    && now.outputs[op].confirmations >= MINT_CONFIRMATIONS
    && now.outputs[op].valueSat == seen.outputs[op].valueSat
    && now.outputs[op].script == seen.outputs[op].script
    && now.outputs[op].confirmedHeight == seen.outputs[op].confirmedHeight
  }

  /** The follower's view still shows the mint outputs of the block as the producer saw
      them, and its tip has reached the heights they were claimed at. */
  predicate StableView(seen: L1View, now: L1View, txs: seq<L2Tx>) {
    forall tx :: tx in txs && tx.Mint? && tx.entry.proof.outpoint in seen.outputs ==>
      SameOutput(seen, now, tx.entry.proof.outpoint) && tx.entry.proof.claimedHeight <= now.tip
  }

  lemma {:induction false} FreshMintsVerify(mints: seq<MintEntry>, view: L1View)
    ensures forall tx :: tx in FreshMints(mints, view) ==> tx.Mint? && VerifyMintEntry(tx.entry, view).None?
    decreases |mints|
  {
    hide NullifierHex, MintSighash;
    if mints != [] {
      FreshMintsVerify(mints[1..], view);
      if VerifyProof(mints[0].proof, view, mints[0].event.destination).Ok? {
        FreshEventVerifies(mints[0].proof, view, mints[0].event.destination);
      }
    }
  }

  lemma FreshEventVerifies(p: OutpointProof, view: L1View, destination: Address)
    requires VerifyProof(p, view, destination).Ok?
    ensures VerifyMintEntry(MintEntry(VerifyProof(p, view, destination).value, p), view).None?
  {
    hide NullifierHex, MintSighash;
  }

  lemma {:induction false} IncludedAreCandidates(s: State, candidates: seq<L2Tx>)
    ensures forall tx :: tx in Included(s, candidates) ==> tx in candidates
    decreases |candidates|
  {
    hide Apply;
    if candidates != [] {
      match Apply(s, candidates[0])
      case Ok(s') => IncludedAreCandidates(s', candidates[1..]);
      case Err(_) => IncludedAreCandidates(s, candidates[1..]);
      assert forall tx :: tx in candidates[1..] ==> tx in candidates;
    }
  }

  /** A mint accepted under one view, whose output another view shows unchanged, is accepted
      under that view exactly if its claimed height is not ahead of the view's tip. */
  lemma EntryStableIff(entry: MintEntry, seen: L1View, now: L1View)
    requires VerifyMintEntry(entry, seen).None?
    requires entry.proof.outpoint in seen.outputs && SameOutput(seen, now, entry.proof.outpoint)
    ensures VerifyMintEntry(entry, now).None? <==> entry.proof.claimedHeight <= now.tip
  {
    hide NullifierHex, MintSighash;
  }

  lemma ProducedMintsVerify(s: SequencerState, w: Surroundings, now: L1View)
    requires StableView(w.view, now, ProducedBlock(s, w).txs)
    ensures VerifyMints(ProducedBlock(s, w).txs, now).None?
  {
    hide VerifyMintEntry, Included, AfterDropping, FreshMints, StateRoot, TxsRoot;
    IncludedAreCandidates(s.state, Candidates(w));
    FreshMintsVerify(w.mints, w.view);
    forall tx | tx in ProducedBlock(s, w).txs && tx.Mint?
      ensures VerifyMintEntry(tx.entry, now).None?
    {
      assert tx in FreshMints(w.mints, w.view) || tx in TransferTxs(w.transfers);
      VerifiedEvent(tx.entry, w.view);
      EntryStableIff(tx.entry, w.view, now);
    }
  }

  /** A node at the same head, alone or at the end of an attested batch, accepts a block the
      sequencer produces exactly if its L1 view verifies the block's mints, as a stable one
      does, and is left with the sequencer's own ledger. */
  lemma ProducedBlockAccepted(s: SequencerState, w: Surroundings, n: NodeState, att: Option<Attestation>, now: L1View)
    requires n.state == s.state && n.head.blockHash == s.head.blockHash
    requires att.Some? ==> att.value == Attestation(Produce(s, w).head.height, Produce(s, w).head.blockHash,
                                                    Produce(s, w).head.stateRoot)
    ensures var r := ApplyBlock(n, NextHeight(s.head.height), ProducedBlock(s, w), att, now);
            && (r.Ok? <==> VerifyMints(ProducedBlock(s, w).txs, now).None?)
            && (r.Err? ==> r.error.BadMint?)
            && (r.Ok? ==>
                 r.value == NodeState(Produce(s, w).state, HeadAfter(NextHeight(s.head.height), ProducedBlock(s, w))))
    ensures StableView(w.view, now, ProducedBlock(s, w).txs) ==> VerifyMints(ProducedBlock(s, w).txs, now).None?
    ensures HeadAfter(NextHeight(s.head.height), ProducedBlock(s, w)).blockHash == Produce(s, w).head.blockHash
  {
    hide Included, AfterDropping, Replay, Candidates, StateRoot, TxsRoot, HeaderHash, VerifyMints, StableView, Build;
    DroppingIsReplay(s.state, Candidates(w));
    if StableView(w.view, now, ProducedBlock(s, w).txs) {
      ProducedMintsVerify(s, w, now);
    }
  }

  // ---------- attesting ----------

  /** Default of the last attested height before the first post: the L1 cursor. */
  function LastAttested(s: SequencerState): u32 {
    match s.lastAttested
    case Some(h) => h
    case None => s.cursor
  }

  /** If L1 moved past the last attested height: produce a block, then post. A failed post
      (`None`) leaves everything but the new block as it was. */
  function CheckAndAttest(s: SequencerState, w: Surroundings, tip: u32, posted: Option<Txid>): SequencerState {
    if tip <= LastAttested(s) then s
    else
      var produced := Produce(s, w);
      match posted
      case None => produced
      case Some(txid) =>
        var next := OutPoint(txid, 1);
        produced.(anchor := next,
                  lastAttested := Some(tip),
                  pending := produced.pending + [Pending(txid, s.anchor, next, produced.head.height, tip)])
  }

  // ---------- monitoring ----------

  datatype Status = Confirmed(confirmations: u32) | Mempool | Reorged | Missing

  predicate Final(st: Status) { st.Confirmed? && st.confirmations >= REORG_FINALITY_DEPTH }

  predicate Survives(st: Status) { !Final(st) && !st.Missing? }

  /** Indices of the first `n` entries that stay pending. */
  function Surviving(statuses: seq<Status>, n: nat): (r: seq<nat>)
    requires n <= |statuses|
    ensures forall i :: i in r <==> 0 <= i < n && Survives(statuses[i])
    ensures forall k :: 0 <= k < |r| ==> r[k] < n
  {
    if n == 0 then []
    else
      var before := Surviving(statuses, n - 1);
      if Survives(statuses[n - 1]) then before + [n - 1] else before
  }

  /** The last missing entry among the first `n`, the one the loop remembers. */
  function LastMissing(statuses: seq<Status>, n: nat): (r: Option<nat>)
    requires n <= |statuses|
    ensures r.Some? ==> r.value < n && statuses[r.value].Missing?
    ensures r.Some? ==> forall i :: r.value < i < n ==> !statuses[i].Missing?
    ensures r.None? ==> forall i :: 0 <= i < n ==> !statuses[i].Missing?
  {
    if n == 0 then None
    else if statuses[n - 1].Missing? then Some(n - 1)
    else LastMissing(statuses, n - 1)
  }

  function Kept(pending: seq<Pending>, indices: seq<nat>): (r: seq<Pending>)
    requires forall k :: 0 <= k < |indices| ==> indices[k] < |pending|
    ensures |r| == |indices|
    ensures forall k :: 0 <= k < |r| ==> r[k] == pending[indices[k]]
  {
    seq(|indices|, k requires 0 <= k < |indices| => pending[indices[k]])
  }

  /** Drops final and missing entries; a missing one sends the anchor back to what it
      spent, and the last attested height one down so that the next tick posts again. */
  function Monitor(s: SequencerState, statuses: seq<Status>): SequencerState
    requires |statuses| == |s.pending|
  {
    if s.pending == [] then s
    else
      var kept := Kept(s.pending, Surviving(statuses, |statuses|));
      match LastMissing(statuses, |statuses|)
      case None => s.(pending := kept)
      case Some(i) =>
        var last := if s.lastAttested.Some? then s.lastAttested.value else 0;
        s.(pending := kept, anchor := s.pending[i].spent,
           lastAttested := if last > 0 then Some(last - 1) else s.lastAttested)
  }

  /** A successful attestation for an L1 tip is the last one for that tip. */
  lemma AttestedOnce(s: SequencerState, w: Surroundings, tip: u32, txid: Txid, again: Surroundings,
                     posted: Option<Txid>)
    ensures var s' := CheckAndAttest(s, w, tip, Some(txid)); CheckAndAttest(s', again, tip, posted) == s'
  {
    hide Produce;
  }

  /** A post is due at an L1 tip: the next check will produce a block and try. */
  predicate PostDue(s: SequencerState, tip: u32) { tip > LastAttested(s) }

  /** After a failed post the next check at the same tip tries again exactly if a post has
      succeeded before, or the block just produced saw an older L1. Before the first success
      the cursor stands in for the last attested height, and production overwrites it. */
  lemma FailedPostRetriedIff(s: SequencerState, w: Surroundings, tip: u32)
    requires PostDue(s, tip)
    ensures PostDue(CheckAndAttest(s, w, tip, None), tip) <==> s.lastAttested.Some? || w.l1Height < tip
  {
    hide ProducedBlock, AfterDropping, Candidates;
  }

  /** Likewise any block production, before the first post: it leaves a post due at a tip
      exactly if it saw an older L1 itself; after the first post it changes nothing. */
  lemma ProductionKeepsDueIff(s: SequencerState, w: Surroundings, tip: u32)
    ensures s.lastAttested.Some? ==> (PostDue(Produce(s, w), tip) <==> PostDue(s, tip))
    ensures s.lastAttested.None? ==> (PostDue(Produce(s, w), tip) <==> w.l1Height < tip)
  {
    hide ProducedBlock, AfterDropping, Candidates;
  }

  /** The failing input: nothing posted yet, L1 one block further, and the post fails, or a
      block tick comes first. The check at that tip is then idle, whatever it is given. */
  lemma FirstPostForgotten(s: SequencerState, w: Surroundings, again: Surroundings, posted: Option<Txid>)
    requires s.lastAttested.None? && s.cursor < U32_MAX && w.l1Height == s.cursor + 1
    ensures PostDue(s, s.cursor + 1)
    ensures var failed := CheckAndAttest(s, w, s.cursor + 1, None);
            CheckAndAttest(failed, again, s.cursor + 1, posted) == failed
    ensures var ticked := Produce(s, w); CheckAndAttest(ticked, again, s.cursor + 1, posted) == ticked
  {
    hide Produce;
    FailedPostRetriedIff(s, w, s.cursor + 1);
    ProductionKeepsDueIff(s, w, s.cursor + 1);
  }

  /** Recovery: after an attestation went missing, the next one is due at the very L1 tip it
      was posted for, and spends again what the missing one had spent. */
  lemma MissingIsReposted(s: SequencerState, statuses: seq<Status>, w: Surroundings, tip: u32, txid: Txid)
    requires |statuses| == |s.pending| && s.head.height < U32_MAX
    requires LastMissing(statuses, |statuses|).Some? && s.lastAttested.Some? && 0 < s.lastAttested.value <= tip
    ensures var lost := s.pending[LastMissing(statuses, |statuses|).value];
            var before, after := Monitor(s, statuses), CheckAndAttest(Monitor(s, statuses), w, tip, Some(txid));
            && lost.spent == before.anchor && OutPoint(txid, 1) == after.anchor
            && after.pending == before.pending
                                + [Pending(txid, lost.spent, OutPoint(txid, 1), s.head.height + 1, tip)]
  {
    hide Produce, Surviving, LastMissing;
    MonitorFacts(s, statuses);
    ProduceFacts(Monitor(s, statuses), w);
  }

  // ---------- the pending chain ----------

  predicate Joined(pending: seq<Pending>, i: nat)
    requires 0 < i < |pending|
  {
    pending[i - 1].next == pending[i].spent
  }

  /** Each entry continues the one before, the last one ends at the given anchor, and L2
      heights strictly increase. */
  ghost predicate Linked(pending: seq<Pending>, anchor: OutPoint) {
    && (forall i {:trigger Joined(pending, i)} :: 0 < i < |pending| ==> Joined(pending, i))
    && (pending != [] ==> pending[|pending| - 1].next == anchor)
    && (forall i, j :: 0 <= i < j < |pending| ==> pending[i].l2Height < pending[j].l2Height)
  }

  ghost predicate ChainInvariant(s: SequencerState) {
    Linked(s.pending, s.anchor) && forall p :: p in s.pending ==> p.l2Height <= s.head.height
  }

  lemma {:induction false} SurvivingSorted(statuses: seq<Status>, n: nat)
    requires n <= |statuses|
    ensures forall i, j :: 0 <= i < j < |Surviving(statuses, n)| ==>
      Surviving(statuses, n)[i] < Surviving(statuses, n)[j]
  {
    if n > 0 {
      SurvivingSorted(statuses, n - 1);
      var before := Surviving(statuses, n - 1);
      forall i | 0 <= i < |before|
        ensures before[i] < n - 1
      {
        assert before[i] in before;
      }
    }
  }

  /** The entries that stay pending are exactly those from `a` up to `b`. */
  ghost predicate KeptInterval(statuses: seq<Status>, a: nat, b: nat) {
    a <= b <= |statuses| && forall i :: 0 <= i < |statuses| ==> (Survives(statuses[i]) <==> a <= i < b)
  }

  /** Nothing is missing after the kept entries, or the last missing entry is the very
      next one. */
  predicate EndsAtMissing(statuses: seq<Status>, b: nat) {
    match LastMissing(statuses, |statuses|)
    case None => b == |statuses|
    case Some(i) => b == i
  }

  /** No anchor of the chain occurs twice, as outpoints of distinct transactions. */
  predicate DistinctAnchors(pending: seq<Pending>) {
    && (forall i, j :: 0 <= i < j < |pending| ==> pending[i].next != pending[j].next)
    && (forall i, j :: 0 <= i <= j < |pending| ==> pending[i].spent != pending[j].next)
  }

  lemma {:induction false} IntervalIndices(statuses: seq<Status>, n: nat, a: nat, b: nat)
    requires n <= |statuses| && a <= b
    requires forall i :: 0 <= i < n ==> (Survives(statuses[i]) <==> a <= i < b)
    ensures var r := Surviving(statuses, n);
            && |r| == (if n <= a then 0 else if n <= b then n - a else b - a)
            && forall k :: 0 <= k < |r| ==> r[k] == a + k
  {
    hide Survives;
    if n > 0 {
      IntervalIndices(statuses, n - 1, a, b);
    }
  }

  lemma MonitorFacts(s: SequencerState, statuses: seq<Status>)
    requires |statuses| == |s.pending|
    ensures var s', last := Monitor(s, statuses), LastMissing(statuses, |statuses|);
            && s'.head == s.head && s'.state == s.state && s'.blocks == s.blocks && s'.witnesses == s.witnesses
            && s'.pending == Kept(s.pending, Surviving(statuses, |statuses|))
            && s'.anchor == if last.Some? then s.pending[last.value].spent else s.anchor
  {
    hide Survives;
  }

  lemma IntervalKept(pending: seq<Pending>, statuses: seq<Status>, a: nat, b: nat)
    requires |statuses| == |pending| && KeptInterval(statuses, a, b)
    ensures Kept(pending, Surviving(statuses, |statuses|)) == pending[a..b]
  {
    hide Survives, Surviving;
    IntervalIndices(statuses, |statuses|, a, b);
  }

  /** A stretch of a linked chain is linked to the anchor it leads up to. */
  lemma SliceLinked(pending: seq<Pending>, anchor: OutPoint, a: nat, b: nat)
    requires Linked(pending, anchor) && a <= b <= |pending|
    ensures Linked(pending[a..b], if b < |pending| then pending[b].spent else anchor)
  {
    var slice := pending[a..b];
    forall i {:trigger Joined(slice, i)} | 0 < i < |slice|
      ensures Joined(slice, i)
    {
      assert Joined(pending, a + i);
    }
    if a < b < |pending| {
      assert Joined(pending, b);
    }
  }

  /** If what stays pending is an interval ending where the chain was cut, it is linked
      to the anchor that is stored. */
  lemma IntervalLinked(s: SequencerState, statuses: seq<Status>, a: nat, b: nat)
    requires |statuses| == |s.pending| && ChainInvariant(s)
    requires KeptInterval(statuses, a, b) && (a < b ==> EndsAtMissing(statuses, b))
    ensures ChainInvariant(Monitor(s, statuses))
  {
    hide Survives, LastMissing, Surviving, Linked, Monitor, Kept;
    MonitorFacts(s, statuses);
    IntervalKept(s.pending, statuses, a, b);
    if a < b {
      SliceLinked(s.pending, s.anchor, a, b);
    } else {
      NothingLinked(s.pending[a..b], Monitor(s, statuses).anchor);
    }
  }

  lemma NothingLinked(pending: seq<Pending>, anchor: OutPoint)
    requires pending == []
    ensures Linked(pending, anchor)
  {
  }

  /** Two kept entries that join were neighbours before. */
  lemma NeighboursKept(pending: seq<Pending>, anchor: OutPoint, i: nat, j: nat)
    requires Linked(pending, anchor) && DistinctAnchors(pending) && i < j < |pending|
    requires pending[i].next == pending[j].spent
    ensures j == i + 1
  {
    assert Joined(pending, j);
    assert pending[j - 1].next == pending[i].next;
  }

  lemma KeptRun(pending: seq<Pending>, anchor: OutPoint, r: seq<nat>, newAnchor: OutPoint)
    requires Linked(pending, anchor) && DistinctAnchors(pending) && r != []
    requires forall k :: 0 <= k < |r| ==> r[k] < |pending|
    requires forall k, l :: 0 <= k < l < |r| ==> r[k] < r[l]
    requires Linked(Kept(pending, r), newAnchor)
    ensures forall k :: 0 <= k < |r| ==> r[k] == r[0] + k
    ensures pending[r[|r| - 1]].next == newAnchor
  {
    hide DistinctAnchors;
    var kept := Kept(pending, r);
    forall l {:trigger Follows(r, l)} | 0 < l < |r|
      ensures Follows(r, l)
    {
      assert Joined(kept, l);
      NeighboursKept(pending, anchor, r[l - 1], r[l]);
    }
    Consecutive(r);
  }

  /** Conversely a linked result is an interval that ends there. */
  lemma LinkedInterval(s: SequencerState, statuses: seq<Status>) returns (a: nat, b: nat)
    requires |statuses| == |s.pending| && ChainInvariant(s) && DistinctAnchors(s.pending)
    requires ChainInvariant(Monitor(s, statuses)) && Monitor(s, statuses).pending != []
    ensures KeptInterval(statuses, a, b) && a < b && EndsAtMissing(statuses, b)
  {
    hide Survives, LastMissing, Surviving, Linked, Monitor, Kept, DistinctAnchors;
    var n := |statuses|;
    var r := Surviving(statuses, n);
    MonitorFacts(s, statuses);
    SurvivingSorted(statuses, n);
    KeptRun(s.pending, s.anchor, r, Monitor(s, statuses).anchor);
    a := r[0];
    b := r[|r| - 1] + 1;
    IndicesInterval(statuses, r, a, b);
    AnchorPlace(s.pending, s.anchor, b, LastMissing(statuses, n));
  }

  lemma IndicesInterval(statuses: seq<Status>, r: seq<nat>, a: nat, b: nat)
    requires r == Surviving(statuses, |statuses|) && r != []
    requires forall k :: 0 <= k < |r| ==> r[k] == a + k
    requires b == a + |r|
    ensures KeptInterval(statuses, a, b)
  {
    hide Survives, Surviving;
    assert r[|r| - 1] in r && b - 1 == r[|r| - 1];
    forall i | 0 <= i < |statuses|
      ensures Survives(statuses[i]) <==> a <= i < b
    {
      assert Survives(statuses[i]) <==> i in r;
      if a <= i < b {
        assert r[i - a] == i;
      }
    }
  }

  /** The anchor after monitoring is the end of entry `b - 1` only if the chain was cut at `b`. */
  lemma AnchorPlace(pending: seq<Pending>, anchor: OutPoint, b: nat, last: Option<nat>)
    requires Linked(pending, anchor) && DistinctAnchors(pending) && 0 < b <= |pending|
    requires last.Some? ==> last.value < |pending|
    requires pending[b - 1].next == if last.Some? then pending[last.value].spent else anchor
    ensures b == if last.Some? then last.value else |pending|
  {
    assert pending[0].spent != pending[b - 1].next;
    if last.Some? {
      var m := last.value;
      if m > 0 {
        assert Joined(pending, m);
        assert pending[m - 1].next == pending[b - 1].next;
      }
    } else {
      assert pending[|pending| - 1].next == pending[b - 1].next;
    }
  }

  predicate Follows(r: seq<nat>, l: nat)
    requires 0 < l < |r|
  {
    r[l] == r[l - 1] + 1
  }

  lemma {:induction false} Consecutive(r: seq<nat>)
    requires r != []
    requires forall l {:trigger Follows(r, l)} :: 0 < l < |r| ==> Follows(r, l)
    ensures forall k :: 0 <= k < |r| ==> r[k] == r[0] + k
    decreases |r|
  {
    var n := |r| - 1;
    if n > 0 {
      var init := r[..n];
      forall l {:trigger Follows(init, l)} | 0 < l < |init|
        ensures Follows(init, l)
      {
        assert Follows(r, l);
      }
      Consecutive(init);
      assert Follows(r, n);
      assert init[n - 1] == r[n - 1];
    }
  }

  /** When monitoring leaves the pending entries chained to the anchor: exactly if none stays,
      or what stays is an uninterrupted stretch that ends with the newest entry or right
      before the last missing one. Of the anchor of an emptied list this says nothing:
      `DeadAnchorIff` does, and the history of all posts. */
  lemma MonitorKeepsChainIff(s: SequencerState, statuses: seq<Status>)
    requires |statuses| == |s.pending| && ChainInvariant(s) && DistinctAnchors(s.pending)
    ensures ChainInvariant(Monitor(s, statuses)) <==>
            exists a, b :: KeptInterval(statuses, a, b) && (a < b ==> EndsAtMissing(statuses, b))
  {
    hide Survives, LastMissing, Surviving, ChainInvariant, Monitor, KeptInterval, EndsAtMissing;
    if a, b :| KeptInterval(statuses, a, b) && (a < b ==> EndsAtMissing(statuses, b)) {
      IntervalLinked(s, statuses, a, b);
    }
    if ChainInvariant(Monitor(s, statuses)) {
      if Monitor(s, statuses).pending != [] {
        var a, b := LinkedInterval(s, statuses);
        assert KeptInterval(statuses, a, b);
      } else {
        NothingKept(s, statuses);
        assert KeptInterval(statuses, 0, 0);
      }
    }
  }

  lemma NothingKept(s: SequencerState, statuses: seq<Status>)
    requires |statuses| == |s.pending| && Monitor(s, statuses).pending == []
    ensures KeptInterval(statuses, 0, 0)
  {
    hide Survives;
    if s.pending != [] {
      assert Surviving(statuses, |statuses|) == [];
    }
  }

  /** L1 finalises attestations in posting order, and only the newest can disappear. */
  predicate OrderlyStatuses(statuses: seq<Status>) {
    && (forall i, j :: 0 <= i < j < |statuses| && Final(statuses[j]) ==> Final(statuses[i]))
    && (forall i :: 0 <= i < |statuses| && statuses[i].Missing? ==> i == |statuses| - 1)
  }

  function FinalCount(statuses: seq<Status>, n: nat): (k: nat)
    requires n <= |statuses|
    ensures k <= n
    ensures forall i :: 0 <= i < k ==> Final(statuses[i])
    ensures k < n ==> !Final(statuses[k])
    decreases n
  {
    if n == 0 then 0
    else
      var k := FinalCount(statuses, n - 1);
      if k == n - 1 && Final(statuses[n - 1]) then n else k
  }

  lemma OrderlyKeepsChain(s: SequencerState, statuses: seq<Status>)
    requires |statuses| == |s.pending| && ChainInvariant(s) && OrderlyStatuses(statuses)
    ensures ChainInvariant(Monitor(s, statuses))
  {
    hide ChainInvariant, Monitor, LastMissing, FinalCount;
    var n := |statuses|;
    var m := if n > 0 && statuses[n - 1].Missing? then n - 1 else n;
    var a := FinalCount(statuses, n);
    assert a <= m by {
      if a == n && n > 0 {
        assert Final(statuses[n - 1]);
      }
    }
    assert KeptInterval(statuses, a, m);
    assert LastMissing(statuses, n) == if m < n then Some(m) else None;
    IntervalLinked(s, statuses, a, m);
  }

  lemma TwoStatuses(first: Status, second: Status)
    ensures Surviving([first, second], 2)
         == (if Survives(first) then [0] else []) + (if Survives(second) then [1] else [])
    ensures LastMissing([first, second], 2)
         == if second.Missing? then Some(1) else if first.Missing? then Some(0) else None
  {
    var st := [first, second];
    assert Surviving(st, 0) == [] && LastMissing(st, 0) == None;
    assert Surviving(st, 1) == if Survives(first) then [0] else [];
    assert LastMissing(st, 1) == if first.Missing? then Some(0) else None;
  }

  /** If an older entry is missing while a newer one stays, the anchor goes back behind
      the newer one and the chain is broken. */
  lemma MissingInTheMiddleBreaksChain(s: SequencerState, p: Pending, q: Pending)
    requires s.pending == [p, q] && ChainInvariant(s) && DistinctAnchors(s.pending)
    ensures !ChainInvariant(Monitor(s, [Missing, Mempool]))
  {
    hide Surviving, LastMissing, Monitor, Linked;
    TwoStatuses(Missing, Mempool);
    MonitorFacts(s, [Missing, Mempool]);
    assert [] + [1] == [1];
    assert Monitor(s, [Missing, Mempool]).pending == [q] && Monitor(s, [Missing, Mempool]).anchor == p.spent;
    assert s.pending[0].spent != s.pending[1].next;
    SingleLinked(q, p.spent);
  }

  lemma SingleLinked(q: Pending, anchor: OutPoint)
    ensures Linked([q], anchor) ==> q.next == anchor
  {
  }

  // ---------- dead anchors ----------

  /** The outpoint is the output of a pending attestation that L1 no longer knows. */
  predicate OutputOfMissing(pending: seq<Pending>, statuses: seq<Status>, op: OutPoint)
    requires |statuses| == |pending|
  {
    exists m :: 0 <= m < |pending| && statuses[m].Missing? && pending[m].next == op
  }

  /** When monitoring leaves an anchor that does not exist: exactly if the entry right
      before the last missing one is missing as well. */
  lemma DeadAnchorIff(s: SequencerState, statuses: seq<Status>)
    requires |statuses| == |s.pending| && ChainInvariant(s) && DistinctAnchors(s.pending)
    ensures OutputOfMissing(s.pending, statuses, Monitor(s, statuses).anchor) <==>
            var last := LastMissing(statuses, |statuses|);
            last.Some? && last.value > 0 && statuses[last.value - 1].Missing?
  {
    hide Monitor, Surviving, LastMissing;
    MonitorFacts(s, statuses);
    var last, anchor := LastMissing(statuses, |statuses|), Monitor(s, statuses).anchor;
    if last.Some? && last.value > 0 {
      assert Joined(s.pending, last.value);
      assert s.pending[last.value - 1].next == anchor;
    }
    if m :| 0 <= m < |s.pending| && statuses[m].Missing? && s.pending[m].next == anchor {
      assert last.Some?;
      assert s.pending[0].spent != s.pending[m].next;
    }
  }

  /** The smallest such input: with two entries missing, the anchor becomes the output of
      the other missing transaction. */
  lemma TwoMissingKeepDeadAnchor(s: SequencerState, p: Pending, q: Pending)
    requires s.pending == [p, q] && ChainInvariant(s)
    ensures Monitor(s, [Missing, Missing]).anchor == p.next
    ensures Monitor(s, [Missing, Missing]).pending == []
  {
    hide Surviving, LastMissing, Monitor;
    TwoStatuses(Missing, Missing);
    MonitorFacts(s, [Missing, Missing]);
    assert Joined(s.pending, 1);
  }

  /** A run in which nothing more goes missing and L1 refuses every post that would spend
      `dead`, an outpoint no transaction has created. */
  ghost predicate RefusesDead(s: SequencerState, steps: seq<SeqStep>, dead: OutPoint)
    decreases |steps|
  {
    steps == [] ||
    (&& (steps[0].L1Tick? ==>
          && |steps[0].statuses| == |s.pending|
          && (forall i :: 0 <= i < |steps[0].statuses| ==> !steps[0].statuses[i].Missing?)
          && (Monitor(s, steps[0].statuses).anchor == dead ==> steps[0].posted.None?))
     && RefusesDead(StepSequencer(s, steps[0]), steps[1..], dead))
  }

  /** From a dead anchor the sequencer does not recover by itself: the anchor never moves
      again, nothing is posted, and the last attested height stands still. */
  lemma {:induction false} DeadAnchorForever(s: SequencerState, steps: seq<SeqStep>, dead: OutPoint)
    requires s.anchor == dead && RefusesDead(s, steps, dead)
    ensures MatchedRun(s, steps)
    ensures var end := RunSequencer(s, steps);
            end.anchor == dead && end.lastAttested == s.lastAttested && |end.pending| <= |s.pending|
    decreases |steps|
  {
    hide Produce, Monitor, Surviving, LastMissing;
    if steps != [] {
      DeadStep(s, steps[0], dead);
      DeadAnchorForever(StepSequencer(s, steps[0]), steps[1..], dead);
    }
  }

  lemma DeadStep(s: SequencerState, step: SeqStep, dead: OutPoint)
    requires s.anchor == dead && RefusesDead(s, [step], dead)
    ensures step.L1Tick? ==> |step.statuses| == |s.pending|
    ensures var next := StepSequencer(s, step);
            next.anchor == dead && next.lastAttested == s.lastAttested && |next.pending| <= |s.pending|
  {
    hide Surviving, LastMissing, AfterDropping, Candidates, Included, TxsRoot, StateRoot, Build;
    if step.L1Tick? {
      SurvivingFew(step.statuses, |step.statuses|);
    }
  }

  lemma {:induction false} SurvivingFew(statuses: seq<Status>, n: nat)
    requires n <= |statuses|
    ensures |Surviving(statuses, n)| <= n
  {
    hide Survives;
    if n > 0 {
      SurvivingFew(statuses, n - 1);
    }
  }

  lemma AttestKeepsChain(s: SequencerState, w: Surroundings, tip: u32, posted: Option<Txid>)
    requires ChainInvariant(s) && s.head.height < U32_MAX
    ensures ChainInvariant(CheckAndAttest(s, w, tip, posted))
  {
    hide Produce, Linked;
    ProduceFacts(s, w);
    var s' := CheckAndAttest(s, w, tip, posted);
    if tip > LastAttested(s) && posted.Some? {
      var last := s'.pending[|s.pending|];
      assert s'.pending == s.pending + [last];
      LinkOneMore(s.pending, s.anchor, last);
    }
  }

  lemma LinkOneMore(pending: seq<Pending>, anchor: OutPoint, last: Pending)
    requires Linked(pending, anchor) && last.spent == anchor
    requires forall p :: p in pending ==> p.l2Height < last.l2Height
    ensures Linked(pending + [last], last.next)
  {
    var longer := pending + [last];
    forall i {:trigger Joined(longer, i)} | 0 < i < |longer|
      ensures Joined(longer, i)
    {
      if i < |pending| {
        assert Joined(pending, i);
      }
    }
    assert forall i :: 0 <= i < |pending| ==> pending[i] in pending;
  }

  lemma ProduceFacts(s: SequencerState, w: Surroundings)
    requires s.head.height < U32_MAX
    ensures Produce(s, w).head.height == s.head.height + 1
    ensures Produce(s, w).anchor == s.anchor && Produce(s, w).pending == s.pending
  {
    hide AfterDropping, Candidates, Included, TxsRoot, StateRoot;
  }

  // ---------- runs ----------

  datatype SeqStep =
    | BlockTick(surroundings: Surroundings)
    | L1Tick(statuses: seq<Status>, around: Surroundings, tip: u32, posted: Option<Txid>)

  /** A block tick produces; an L1 tick monitors first and then attests. */
  function StepSequencer(s: SequencerState, step: SeqStep): SequencerState
    requires step.L1Tick? ==> |step.statuses| == |s.pending|
  {
    match step
    case BlockTick(w) => Produce(s, w)
    case L1Tick(statuses, w, tip, posted) => CheckAndAttest(Monitor(s, statuses), w, tip, posted)
  }

  /** A run in which L1 reports one status for each pending entry. */
  ghost predicate MatchedRun(s: SequencerState, steps: seq<SeqStep>)
    decreases |steps|
  {
    steps == [] ||
    (&& (steps[0].L1Tick? ==> |steps[0].statuses| == |s.pending|)
     && MatchedRun(StepSequencer(s, steps[0]), steps[1..]))
  }

  ghost function RunSequencer(s: SequencerState, steps: seq<SeqStep>): SequencerState
    requires MatchedRun(s, steps)
    decreases |steps|
  {
    if steps == [] then s else RunSequencer(StepSequencer(s, steps[0]), steps[1..])
  }

  /** A run in which L1 reports orderly statuses and heights do not run out. */
  ghost predicate OrderlyRun(s: SequencerState, steps: seq<SeqStep>)
    decreases |steps|
  {
    steps == [] ||
    (&& s.head.height < U32_MAX
     && (steps[0].L1Tick? ==> |steps[0].statuses| == |s.pending| && OrderlyStatuses(steps[0].statuses))
     && OrderlyRun(StepSequencer(s, steps[0]), steps[1..]))
  }

  lemma {:induction false} OrderlyMatched(s: SequencerState, steps: seq<SeqStep>)
    requires OrderlyRun(s, steps)
    ensures MatchedRun(s, steps)
    decreases |steps|
  {
    hide StepSequencer;
    if steps != [] {
      OrderlyMatched(StepSequencer(s, steps[0]), steps[1..]);
    }
  }

  lemma MonitorHead(s: SequencerState, statuses: seq<Status>)
    requires |statuses| == |s.pending|
    ensures Monitor(s, statuses).head == s.head
  {
  }

  /** In every reachable state the pending list is one chain of anchors that ends at the
      stored anchor, with strictly increasing L2 heights, across posts, failed posts,
      finalisations and reverts. */
  lemma {:induction false} PendingChainInvariant(s: SequencerState, steps: seq<SeqStep>)
    requires ChainInvariant(s) && OrderlyRun(s, steps)
    ensures MatchedRun(s, steps) && ChainInvariant(RunSequencer(s, steps))
    decreases |steps|
  {
    hide ChainInvariant, Produce, CheckAndAttest, Monitor, OrderlyStatuses;
    OrderlyMatched(s, steps);
    if steps != [] {
      match steps[0] {
        case BlockTick(w) =>
          ProduceKeepsChain(s, w);
        case L1Tick(statuses, w, tip, posted) =>
          OrderlyKeepsChain(s, statuses);
          MonitorHead(s, statuses);
          AttestKeepsChain(Monitor(s, statuses), w, tip, posted);
      }
      PendingChainInvariant(StepSequencer(s, steps[0]), steps[1..]);
    }
  }

  lemma ProduceKeepsChain(s: SequencerState, w: Surroundings)
    requires ChainInvariant(s) && s.head.height < U32_MAX
    ensures ChainInvariant(Produce(s, w))
  {
    hide Produce, Linked;
    ProduceFacts(s, w);
  }

  // ---------- the producer object ----------

  class Producer {
    var ledger: LedgerState
    var head: SeqHead
    var blocks: map<u32, Block>
    var witnesses: map<u32, BlockWitness>
    var anchor: OutPoint
    var cursor: u32
    var lastAttested: Option<u32>
    var pending: seq<Pending>

    constructor (s: SequencerState)
      ensures Value() == s && fresh(ledger)
    {
      ledger := new LedgerState(s.state);
      head, blocks, witnesses, anchor, cursor := s.head, s.blocks, s.witnesses, s.anchor, s.cursor;
      lastAttested, pending := s.lastAttested, s.pending;
    }

    function Value(): SequencerState
      reads this, ledger
    {
      SequencerState(ledger.Value(), head, blocks, witnesses, anchor, cursor, lastAttested, pending)
    }

    /** Works on a copy of the ledger and swaps it in with the finished block. */
    method ProduceBlock(w: Surroundings) returns (block: Block)
      modifies this
      ensures Value() == Produce(old(Value()), w) && block == ProducedBlock(old(Value()), w)
      ensures ledger == old(ledger) || fresh(ledger)
    {
      hide Included, AfterDropping, StateRoot, HeaderHash, VerifyProof, Build;
      var candidates: seq<L2Tx> := [];
      assert w.mints[0..] == w.mints;
      for i := 0 to |w.mints|
        invariant FreshMints(w.mints, w.view) == candidates + FreshMints(w.mints[i..], w.view)
      {
        assert w.mints[i..][1..] == w.mints[i + 1..];
        var credit := VerifyProof(w.mints[i].proof, w.view, w.mints[i].event.destination);
        if credit.Ok? {
          candidates := candidates + [Mint(MintEntry(credit.value, w.mints[i].proof))];
        }
      }
      assert w.mints[|w.mints|..] == [];
      assert FreshMints(w.mints, w.view) == candidates;
      candidates := candidates + TransferTxs(w.transfers);
      var next := new LedgerState(ledger.Value());
      var txs := next.ApplyOrDrop(candidates);
      var txsRoot := ComputeTxsRoot(txs);
      block := Block(Header(NextHeight(head.height), head.blockHash, w.l1BlockHash, w.l1Height, txsRoot,
                            StateRoot(next.Value()), w.now, None, Some(w.identity), None), txs);
      witnesses := witnesses[block.header.height := Build(ledger.Value(), txs, block.header.height)];
      ledger := next;
      blocks := blocks[block.header.height := block];
      cursor := w.l1Height;
      head := SeqHead(block.header.height, HeaderHash(block.header), block.header.stateRoot, w.l1Height, w.l1BlockHash);
    }

    method AttestIfL1Moved(w: Surroundings, tip: u32, posted: Option<Txid>)
      modifies this
      ensures Value() == CheckAndAttest(old(Value()), w, tip, posted)
      ensures ledger == old(ledger) || fresh(ledger)
    {
      hide Produce, ProducedBlock;
      if tip <= LastAttested(Value()) {
        return;
      }
      ghost var before := Value();
      var spent := anchor;
      var block := ProduceBlock(w);
      if posted.Some? {
        anchor := OutPoint(posted.value, 1);
        lastAttested := Some(tip);
        pending := pending + [Pending(posted.value, spent, OutPoint(posted.value, 1), head.height, tip)];
      }
    }

    method MonitorPending(statuses: seq<Status>)
      requires |statuses| == |pending|
      modifies this
      ensures Value() == Monitor(old(Value()), statuses)
      ensures ledger == old(ledger)
    {
      hide Survives, Surviving, LastMissing, Kept;
      if pending == [] {
        return;
      }
      var surviving, revertTo := SortPending(pending, statuses);
      pending := surviving;
      if revertTo.Some? {
        anchor := revertTo.value;
        var last := if lastAttested.Some? then lastAttested.value else 0;
        if last > 0 {
          lastAttested := Some(last - 1);
        }
      }
    }
  }

  /** The loop over pending entries: who stays, and where the anchor must go back to. */
  method SortPending(entries: seq<Pending>, statuses: seq<Status>) returns (surviving: seq<Pending>,
                     revertTo: Option<OutPoint>)
    requires |statuses| == |entries|
    ensures surviving == Kept(entries, Surviving(statuses, |statuses|))
    ensures revertTo == RevertTarget(entries, LastMissing(statuses, |statuses|))
  {
    hide Survives, Surviving, LastMissing, Kept;
    surviving, revertTo := [], None;
    KeptNone(entries, statuses);
    for i := 0 to |statuses|
      invariant surviving == Kept(entries, Surviving(statuses, i))
      invariant revertTo == RevertTarget(entries, LastMissing(statuses, i))
    {
      KeptNext(entries, statuses, i);
      LastMissingNext(statuses, i);
      if statuses[i].Missing? {
        revertTo := Some(entries[i].spent);
      }
      if Survives(statuses[i]) {
        surviving := surviving + [entries[i]];
      }
    }
  }

  function RevertTarget(pending: seq<Pending>, missing: Option<nat>): Option<OutPoint>
    requires missing.Some? ==> missing.value < |pending|
  {
    if missing.Some? then Some(pending[missing.value].spent) else None
  }

  lemma KeptNone(pending: seq<Pending>, statuses: seq<Status>)
    ensures Surviving(statuses, 0) == [] && LastMissing(statuses, 0) == None
    ensures Kept(pending, Surviving(statuses, 0)) == []
  {
  }

  lemma LastMissingNext(statuses: seq<Status>, i: nat)
    requires i < |statuses|
    ensures LastMissing(statuses, i + 1) == if statuses[i].Missing? then Some(i) else LastMissing(statuses, i)
  {
  }

  lemma KeptNext(pending: seq<Pending>, statuses: seq<Status>, i: nat)
    requires i < |statuses| == |pending|
    ensures Kept(pending, Surviving(statuses, i + 1))
         == Kept(pending, Surviving(statuses, i)) + if Survives(statuses[i]) then [pending[i]] else []
  {
    hide Survives;
  }
}
