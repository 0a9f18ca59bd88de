/** What becomes of submitted mints and transfers: which of them a produced block contains, at
    what place, and what else the block says. */
module Inclusion {
  import opened Primitives
  import opened Types
  import opened Messages
  import opened Ledger
  import opened MintProof
  import Witness
  import opened Sequencer

  /** A submitted mint with the event its proof earns now. */
  function Refreshed(entry: MintEntry, view: L1View): L2Tx {
    var r := VerifyProof(entry.proof, view, entry.event.destination);
    Mint(if r.Ok? then MintEntry(r.value, entry.proof) else entry)
  }

  /** The marked ones among the mints, in order. */
  function MarkedMints(mints: seq<MintEntry>, marks: seq<bool>, view: L1View): seq<L2Tx>
    requires |marks| == |mints|
  {
    if mints == [] then []
    else
      var n := |mints| - 1;
      MarkedMints(mints[..n], marks[..n], view) + if marks[n] then [Refreshed(mints[n], view)] else []
  }

  function MarkedTransfers(transfers: seq<SignedTransfer>, marks: seq<bool>): seq<L2Tx>
    requires |marks| == |transfers|
  {
    if transfers == [] then []
    else
      var n := |transfers| - 1;
      MarkedTransfers(transfers[..n], marks[..n]) + if marks[n] then [Transfer(transfers[n])] else []
  }

  /** The transaction applies to the ledger that those before it lead to. */
  predicate AppliesAfter(s: State, before: seq<L2Tx>, tx: L2Tx) {
    Replay(s, before).Ok? && Apply(Replay(s, before).value, tx).Ok?
  }

  predicate MintsChosen(s: State, mints: seq<MintEntry>, marks: seq<bool>, view: L1View)
    requires |marks| == |mints|
  {
    forall i :: 0 <= i < |mints| ==>
      (marks[i] <==>
        && VerifyProof(mints[i].proof, view, mints[i].event.destination).Ok?
        && AppliesAfter(s, MarkedMints(mints[..i], marks[..i], view), Refreshed(mints[i], view)))
  }

  predicate TransfersChosen(s: State, before: seq<L2Tx>, transfers: seq<SignedTransfer>, marks: seq<bool>)
    requires |marks| == |transfers|
  {
    forall j :: 0 <= j < |transfers| ==>
      (marks[j] <==> AppliesAfter(s, before + MarkedTransfers(transfers[..j], marks[..j]), Transfer(transfers[j])))
  }

  lemma {:induction false} IncludedConcat(s: State, xs: seq<L2Tx>, ys: seq<L2Tx>)
    ensures Included(s, xs + ys) == Included(s, xs) + Included(AfterDropping(s, xs), ys)
    ensures AfterDropping(s, xs + ys) == AfterDropping(AfterDropping(s, xs), ys)
    decreases |xs|
  {
    hide Apply;
    if xs == [] {
      assert xs + ys == ys;
    } else {
      assert (xs + ys)[0] == xs[0] && (xs + ys)[1..] == xs[1..] + ys;
      IncludedConcat(if Apply(s, xs[0]).Ok? then Apply(s, xs[0]).value else s, xs[1..], ys);
    }
  }

  lemma IncludedOne(s: State, tx: L2Tx)
    ensures Included(s, [tx]) == (if Apply(s, tx).Ok? then [tx] else [])
    ensures AfterDropping(s, [tx]) == (if Apply(s, tx).Ok? then Apply(s, tx).value else s)
  {
    hide Apply;
    assert [tx][1..] == [];
  }

  lemma {:induction false} FreshConcat(xs: seq<MintEntry>, ys: seq<MintEntry>, view: L1View)
    ensures FreshMints(xs + ys, view) == FreshMints(xs, view) + FreshMints(ys, view)
    decreases |xs|
  {
    hide VerifyProof;
    if xs == [] {
      assert xs + ys == ys;
    } else {
      assert (xs + ys)[0] == xs[0] && (xs + ys)[1..] == xs[1..] + ys;
      FreshConcat(xs[1..], ys, view);
    }
  }

  lemma FreshOne(entry: MintEntry, view: L1View)
    ensures FreshMints([entry], view)
         == if VerifyProof(entry.proof, view, entry.event.destination).Ok? then [Refreshed(entry, view)] else []
  {
    hide VerifyProof;
    assert [entry][1..] == [];
  }

  lemma {:induction false} MintsIncluded(s: State, mints: seq<MintEntry>, view: L1View) returns (marks: seq<bool>)
    ensures |marks| == |mints| && MintsChosen(s, mints, marks, view)
    ensures Included(s, FreshMints(mints, view)) == MarkedMints(mints, marks, view)
    decreases |mints|
  {
    hide VerifyProof, Apply, Included, AfterDropping, Refreshed, Replay;
    if mints == [] {
      marks := [];
      NothingIncluded(s);
    } else {
      var n := |mints| - 1;
      var early := MintsIncluded(s, mints[..n], view);
      var offered, entry := FreshMints(mints[..n], view), mints[n];
      assert mints == mints[..n] + [entry];
      FreshConcat(mints[..n], [entry], view);
      FreshOne(entry, view);
      IncludedConcat(s, offered, FreshMints([entry], view));
      DroppingIsReplay(s, offered);
      IncludedOne(AfterDropping(s, offered), Refreshed(entry, view));
      NothingIncluded(AfterDropping(s, offered));
      var verified := VerifyProof(entry.proof, view, entry.event.destination).Ok?;
      marks := early + [verified && Apply(AfterDropping(s, offered), Refreshed(entry, view)).Ok?];
      assert marks[..n] == early;
      forall i | 0 <= i < |mints|
        ensures mints[..n][..i] == mints[..i] || i == n
        ensures i < n ==> marks[..i] == early[..i]
      {
      }
    }
  }

  lemma NothingIncluded(s: State)
    ensures Included(s, []) == [] && AfterDropping(s, []) == s
  {
  }

  lemma AppliesHere(s: State, before: seq<L2Tx>, here: State, tx: L2Tx)
    requires Replay(s, before) == Ok(here)
    ensures AppliesAfter(s, before, tx) <==> Apply(here, tx).Ok?
  {
    hide Apply, Replay;
  }

  lemma {:induction false} TransfersIncluded(s: State, before: seq<L2Tx>, s1: State, transfers: seq<SignedTransfer>)
    returns (marks: seq<bool>)
    requires Replay(s, before) == Ok(s1)
    ensures |marks| == |transfers| && TransfersChosen(s, before, transfers, marks)
    ensures Included(s1, TransferTxs(transfers)) == MarkedTransfers(transfers, marks)
    decreases |transfers|
  {
    hide Apply, Included, AfterDropping, Replay, AppliesAfter;
    if transfers == [] {
      marks := [];
      NothingIncluded(s1);
      assert TransferTxs(transfers) == [];
    } else {
      var n := |transfers| - 1;
      var early := TransfersIncluded(s, before, s1, transfers[..n]);
      var first, tx := TransferTxs(transfers[..n]), Transfer(transfers[n]);
      assert TransferTxs(transfers) == first + [tx];
      IncludedConcat(s1, first, [tx]);
      DroppingIsReplay(s1, first);
      IncludedOne(AfterDropping(s1, first), tx);
      ReplayConcat(s, before, MarkedTransfers(transfers[..n], early));
      marks := early + [Apply(AfterDropping(s1, first), tx).Ok?];
      assert marks[..n] == early;
      AppliesHere(s, before + MarkedTransfers(transfers[..n], early), AfterDropping(s1, first), tx);
      NothingIncluded(AfterDropping(s1, first));
      forall j | 0 <= j < |transfers|
        ensures transfers[..n][..j] == transfers[..j] || j == n
        ensures j < n ==> marks[..j] == early[..j]
      {
      }
    }
  }

  /** The body of a produced block: the submitted mints and after them the submitted transfers,
      in order of submission, a mint with the event its proof earns now. A mint is in it exactly
      if its proof verifies and it applies after those kept before it, a transfer exactly if it
      applies after the mints kept and the transfers kept before it. */
  lemma ProducedBody(s: SequencerState, w: Surroundings) returns (kept: seq<bool>, sent: seq<bool>)
    ensures |kept| == |w.mints| && |sent| == |w.transfers|
    ensures ProducedBlock(s, w).txs == MarkedMints(w.mints, kept, w.view) + MarkedTransfers(w.transfers, sent)
    ensures MintsChosen(s.state, w.mints, kept, w.view)
    ensures TransfersChosen(s.state, MarkedMints(w.mints, kept, w.view), w.transfers, sent)
  {
    hide Included, AfterDropping, Replay, FreshMints, StateRoot, TxsRoot, MintsChosen, TransfersChosen;
    var offered := FreshMints(w.mints, w.view);
    kept := MintsIncluded(s.state, w.mints, w.view);
    DroppingIsReplay(s.state, offered);
    var mid := AfterDropping(s.state, offered);
    sent := TransfersIncluded(s.state, MarkedMints(w.mints, kept, w.view), mid, w.transfers);
    IncludedConcat(s.state, offered, TransferTxs(w.transfers));
  }

  lemma {:induction false} CleanIncluded(s: State, txs: seq<L2Tx>)
    requires Replay(s, txs).Ok?
    ensures Included(s, txs) == txs
    decreases |txs|
  {
    hide Apply;
    if txs != [] {
      CleanIncluded(Apply(s, txs[0]).value, txs[1..]);
    }
  }

  /** Everything that was submitted, in the order of a block. */
  function Offered(w: Surroundings): (txs: seq<L2Tx>)
    ensures |txs| == |w.mints| + |w.transfers|
    ensures forall i :: 0 <= i < |w.mints| ==> txs[i] == Refreshed(w.mints[i], w.view)
    ensures forall j :: 0 <= j < |w.transfers| ==> txs[|w.mints| + j] == Transfer(w.transfers[j])
  {
    seq(|w.mints|, i requires 0 <= i < |w.mints| => Refreshed(w.mints[i], w.view))
    + seq(|w.transfers|, j requires 0 <= j < |w.transfers| => Transfer(w.transfers[j]))
  }

  lemma {:induction false} AllFresh(mints: seq<MintEntry>, view: L1View)
    requires forall i :: 0 <= i < |mints| ==> VerifyProof(mints[i].proof, view, mints[i].event.destination).Ok?
    ensures |FreshMints(mints, view)| == |mints|
    ensures forall i :: 0 <= i < |mints| ==> FreshMints(mints, view)[i] == Refreshed(mints[i], view)
    decreases |mints|
  {
    hide VerifyProof;
    if mints != [] {
      AllFresh(mints[1..], view);
      assert forall i :: 0 < i < |mints| ==> mints[i] == mints[1..][i - 1];
    }
  }

  /** If every proof verifies and everything submitted applies in that order, the block
      contains all of it. */
  lemma CleanOfferIncluded(s: SequencerState, w: Surroundings)
    requires forall i :: 0 <= i < |w.mints| ==>
      VerifyProof(w.mints[i].proof, w.view, w.mints[i].event.destination).Ok?
    requires Replay(s.state, Offered(w)).Ok?
    ensures ProducedBlock(s, w).txs == Offered(w)
  {
    hide Included, AfterDropping, Replay, VerifyProof, StateRoot, TxsRoot, FreshMints;
    AllFresh(w.mints, w.view);
    assert Candidates(w) == Offered(w);
    CleanIncluded(s.state, Offered(w));
  }

  /** What else production writes: the header field by field, the ledger the body leads to, and
      the head, cursor and stored block that follow from it; nothing about attestations. */
  lemma ProductionWrites(s: SequencerState, w: Surroundings)
    requires s.head.height < U32_MAX
    ensures var block, s', h := ProducedBlock(s, w), Produce(s, w), s.head.height + 1;
            && Replay(s.state, block.txs) == Ok(s'.state)
            && block.header == Header(h, s.head.blockHash, w.l1BlockHash, w.l1Height, TxsRoot(block.txs),
                                      StateRoot(s'.state), w.now, None, Some(w.identity), None)
            && s'.head == SeqHead(h, HeaderHash(block.header), StateRoot(s'.state), w.l1Height, w.l1BlockHash)
            && s'.blocks == s.blocks[h := block] && s'.cursor == w.l1Height
            && s'.anchor == s.anchor && s'.lastAttested == s.lastAttested && s'.pending == s.pending
  {
    hide Included, AfterDropping, Replay, Candidates, StateRoot, TxsRoot, HeaderHash, Witness.Build;
    DroppingIsReplay(s.state, Candidates(w));
  }

  /** An L1 check: idle unless the tip is beyond the last attested height, or the cursor before
      there is one; then a block is produced, and a post that succeeds is remembered together
      with the tip it was made for. */
  lemma AttestWrites(s: SequencerState, w: Surroundings, tip: u32, posted: Option<Txid>)
    requires s.head.height < U32_MAX
    ensures var s', produced := CheckAndAttest(s, w, tip, posted), Produce(s, w);
            var last := if s.lastAttested.Some? then s.lastAttested.value else s.cursor;
            && (tip <= last ==> s' == s)
            && (tip > last && posted.None? ==> s' == produced)
            && (tip > last && posted.Some? ==>
                 var next := OutPoint(posted.value, 1);
                 var post := Pending(posted.value, s.anchor, next, s.head.height + 1, tip);
                 s' == produced.(anchor := next, lastAttested := Some(tip), pending := s.pending + [post]))
  {
    hide ProducedBlock, AfterDropping, Candidates, Witness.Build;
    ProducedHeight(s, w);
  }

  lemma ProducedHeight(s: SequencerState, w: Surroundings)
    requires s.head.height < U32_MAX
    ensures ProducedBlock(s, w).header.height == s.head.height + 1
  {
    hide Included, AfterDropping, Candidates, StateRoot, TxsRoot;
  }

  /** Two confirmations make an attestation final. */
  lemma FinalAtTwo(confirmations: u32)
    ensures Final(Confirmed(confirmations)) <==> confirmations >= 2
    ensures !Final(Mempool) && !Final(Reorged) && !Final(Missing)
  {
  }

  /** A missing attestation, and nothing else, rewinds the last attested height, by one. */
  lemma MonitorRewinds(s: SequencerState, statuses: seq<Status>)
    requires |statuses| == |s.pending|
    ensures var missing := exists i :: 0 <= i < |statuses| && statuses[i].Missing?;
            Monitor(s, statuses).lastAttested
            == if missing && s.lastAttested.Some? && s.lastAttested.value > 0 then Some(s.lastAttested.value - 1)
               else s.lastAttested
  {
    hide Survives, Surviving;
  }
}
