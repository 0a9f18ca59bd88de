/** The supply of every client's chain is backed by value locked on L1: conservation and the
    mint bound, on the runs of accepted blocks that nodes and wallets stand on. */
module Backing {
  import opened Primitives
  import opened Types
  import opened Messages
  import opened Ledger
  import opened Supply
  import opened MintProof
  import opened Node
  import opened Agreement
  import opened Clients

  /** All transactions of the first `k` blocks, in order. */
  function BodiesUpTo(r: Run, k: nat): seq<L2Tx>
    requires k <= |r.blocks|
  {
    if k == 0 then [] else BodiesUpTo(r, k - 1) + r.blocks[k - 1].txs
  }

  /** For each of them, the view of L1 its block was checked with. */
  function ViewsUpTo(r: Run, k: nat): (views: seq<L1View>)
    requires k <= |r.blocks| == |r.views|
    ensures |views| == |BodiesUpTo(r, k)|
  {
    if k == 0 then [] else ViewsUpTo(r, k - 1) + seq(|r.blocks[k - 1].txs|, _ => r.views[k - 1])
  }

  /** A view that shows only outputs locked on L1, with their true values. */
  predicate Truthful(view: L1View, worth: OutPoint -> u64, locked: set<OutPoint>) {
    forall op :: op in view.outputs ==> op in locked && view.outputs[op].valueSat == worth(op)
  }

  /** The ledger after block `k` is what the bodies replay to from genesis. */
  lemma {:induction false} RunReplays(r: Run, k: nat)
    requires Accepted(r) && k <= |r.blocks|
    ensures Replay(Genesis(r.genesis.feeAddress), BodiesUpTo(r, k)) == Ok(r.nodes[k].state)
  {
    hide Accepted, Replay, ApplyBlock;
    AcceptedShape(r);
    if k == 0 {
      RunStart(r);
    } else {
      RunReplays(r, k - 1);
      StepFacts(r, k - 1);
      ReplayConcat(Genesis(r.genesis.feeAddress), BodiesUpTo(r, k - 1), r.blocks[k - 1].txs);
    }
  }

  lemma RunStart(r: Run)
    requires Accepted(r)
    ensures Replay(Genesis(r.genesis.feeAddress), []) == Ok(r.nodes[0].state)
  {
    hide ApplyBlock, StateRoot, HeaderHash;
  }

  lemma {:induction false} RunAuthorised(r: Run, k: nat, worth: OutPoint -> u64, locked: set<OutPoint>)
    requires Accepted(r) && k <= |r.blocks| == |r.views|
    requires forall i :: 0 <= i < |r.views| ==> Truthful(r.views[i], worth, locked)
    ensures Authorised(BodiesUpTo(r, k), ViewsUpTo(r, k), worth)
    ensures MintedOutpoints(BodiesUpTo(r, k)) <= locked
  {
    hide Accepted, ApplyBlock, VerifyMintEntry, VerifyMints;
    if k > 0 {
      RunAuthorised(r, k - 1, worth, locked);
      StepFacts(r, k - 1);
      BlockAuthorised(r.blocks[k - 1].txs, r.views[k - 1], worth, locked);
      AuthorisedConcat(BodiesUpTo(r, k - 1), ViewsUpTo(r, k - 1), r.blocks[k - 1].txs,
                       seq(|r.blocks[k - 1].txs|, _ => r.views[k - 1]), worth);
    }
  }

  lemma BlockAuthorised(txs: seq<L2Tx>, view: L1View, worth: OutPoint -> u64, locked: set<OutPoint>)
    requires VerifyMints(txs, view).None? && Truthful(view, worth, locked)
    ensures Authorised(txs, seq(|txs|, _ => view), worth) && MintedOutpoints(txs) <= locked
  {
    hide VerifyMintEntry, VerifyMints;
    assert forall i :: 0 <= i < |txs| ==> txs[i] in txs;
    forall op | op in MintedOutpoints(txs)
      ensures op in locked
    {
      var tx :| tx in txs && tx.Mint? && tx.entry.proof.outpoint == op;
      VerifiedEvent(tx.entry, view);
    }
  }

  lemma AuthorisedConcat(xs: seq<L2Tx>, us: seq<L1View>, ys: seq<L2Tx>, vs: seq<L1View>, worth: OutPoint -> u64)
    requires Authorised(xs, us, worth) && Authorised(ys, vs, worth)
    ensures Authorised(xs + ys, us + vs, worth)
    ensures MintedOutpoints(xs + ys) == MintedOutpoints(xs) + MintedOutpoints(ys)
  {
    hide VerifyMintEntry;
    assert forall tx :: tx in xs + ys <==> tx in xs || tx in ys;
  }

  /** What the history `txs` from genesis has to show for a ledger: no outpoint was credited
      twice, nothing was ever clipped, and balances plus burned fees are what was minted, which
      is no more than the outpoints credited are worth. */
  ghost predicate Backed(s: State, fee: Option<Address>, txs: seq<L2Tx>, worth: OutPoint -> u64,
                         locked: set<OutPoint>)
  {
    && Replay(Genesis(fee), txs) == Ok(s) && NeverClips(Genesis(fee), txs)
    && MintedOutpoints(txs) <= locked
    && s.minted <= SumOf(MintedOutpoints(txs), worth) <= SumOf(locked, worth)
    && Total(s.accounts) + BurnedTotal(txs, fee) == s.minted
    && (forall i, j :: 0 <= i < j < |txs| && txs[i].Mint? && txs[j].Mint? ==>
          txs[i].entry.proof.outpoint != txs[j].entry.proof.outpoint)
  }

  /** The ledger after every block of an accepted run is backed, if less than 2^64 - 1 is
      locked on L1 and the views it was accepted with told the truth. */
  lemma RunBacked(r: Run, k: nat, worth: OutPoint -> u64, locked: set<OutPoint>)
    requires Accepted(r) && k <= |r.blocks| && k < |r.nodes| && SumOf(locked, worth) < U64_MAX
    requires forall i :: 0 <= i < |r.views| ==> Truthful(r.views[i], worth, locked)
    ensures Backed(r.nodes[k].state, r.genesis.feeAddress, BodiesUpTo(r, k), worth, locked)
  {
    hide Accepted, Replay, Authorised, Truthful, NeverClips, BodiesUpTo, ViewsUpTo;
    AcceptedShape(r);
    var fee, txs, views := r.genesis.feeAddress, BodiesUpTo(r, k), ViewsUpTo(r, k);
    RunReplays(r, k);
    RunAuthorised(r, k, worth, locked);
    SupplyBackedByL1(fee, txs, views, worth, locked);
    forall i, j | 0 <= i < j < |txs| && txs[i].Mint? && txs[j].Mint?
      ensures txs[i].entry.proof.outpoint != txs[j].entry.proof.outpoint
    {
      OutpointCreditedOnce(Genesis(fee), txs, views, worth, i, j);
    }
  }

  /** Whatever a node or a wallet has been through, the ledger it holds or stands for is
      backed by what is locked on L1, or a collision was hashed. */
  lemma ClientBacked(c: Client, worth: OutPoint -> u64, locked: set<OutPoint>) returns (r: Run)
    requires Started(c) && SumOf(locked, worth) < U64_MAX
    requires forall view :: view in ViewsOf(c) ==> Truthful(view, worth, locked)
    ensures CollisionIn(ClientMsgs(c))
         || (&& Reached(c, r) && |r.nodes| == |r.blocks| + 1
             && Backed(Tip(r).state, r.genesis.feeAddress, BodiesUpTo(r, |r.blocks|), worth, locked))
  {
    hide Started, Reached, ClientMsgs, ViewsOf, Truthful, Backed, Shown, Accepted, Extends;
    r := c.from;
    if !CollisionIn(ClientMsgs(c)) {
      r := ClientRun(c);
      ReachedRun(c, r);
      AcceptedShape(r);
      RunBacked(r, |r.blocks|, worth, locked);
    }
  }

  lemma ReachedRun(c: Client, r: Run)
    requires Reached(c, r)
    ensures Accepted(r)
  {
    hide Accepted;
  }
}
