/** What each check accepts and why it refuses, in terms of its inputs alone. */
module Verdicts {
  import opened Primitives
  import opened Types
  import opened Crypto
  import opened Messages
  import opened SparseMerkle
  import opened SparseUpdate
  import opened Ledger
  import opened MintProof
  import opened Node

  // ---------- transfers ----------

  /** 1 basis point, rounded down, at least 100. */
  function PlainFee(amount: nat): nat {
    if amount / 10_000 > 100 then amount / 10_000 else 100
  }

  /** What a transfer takes from its sender: amount and fee, or all there can be. */
  function PlainCost(amount: nat): nat {
    if amount + PlainFee(amount) < 0x1_0000_0000_0000_0000 then amount + PlainFee(amount) else 0xFFFF_FFFF_FFFF_FFFF
  }

  predicate Signed(t: SignedTransfer) {
    SchnorrOracle(t.body.sender, Hash(TransferMsg(t.body)), t.signature)
  }

  lemma CostIsPlain(b: TransferBody)
    ensures FeeFor(b.amount) == PlainFee(b.amount) && TransferCost(b) == PlainCost(b.amount)
  {
  }

  /** A transfer is accepted exactly if it moves something to somebody else, carries its
      sender's current nonce, is signed by the sender over its whole body, and is covered.
      The first of these that fails is the error. */
  lemma TransferVerdict(s: State, t: SignedTransfer)
    ensures var b := t.body;
            var acct := if b.sender in s.accounts then s.accounts[b.sender] else Account(0, 0);
            var r := ApplyTransfer(s, t);
            && (r.Ok? <==>
                 && b.amount > 0 && b.sender != b.recipient && b.nonce == acct.nonce
                 && Signed(t) && acct.balance >= PlainCost(b.amount))
            && (r == Err(ZeroAmount) <==> b.amount == 0)
            && (r == Err(SelfTransfer) <==> b.amount > 0 && b.sender == b.recipient)
            && (r == Err(BadNonce(acct.nonce, b.nonce)) <==>
                 b.amount > 0 && b.sender != b.recipient && b.nonce != acct.nonce)
            && (r == Err(BadSignature) <==>
                 b.amount > 0 && b.sender != b.recipient && b.nonce == acct.nonce && !Signed(t))
            && (r == Err(InsufficientBalance) <==>
                 && b.amount > 0 && b.sender != b.recipient && b.nonce == acct.nonce && Signed(t)
                 && acct.balance < PlainCost(b.amount))
  {
    hide FeeFor, Hash, PlainFee, MoveFunds;
    CostIsPlain(t.body);
  }

  /** A mint event is accepted exactly if it mints something under a fresh nullifier. */
  lemma MintVerdict(s: State, ev: MintEvent)
    ensures ApplyMint(s, ev).Ok? <==> ev.amount > 0 && ev.nullifierHex !in s.nullifiers
    ensures ApplyMint(s, ev) == Err(ZeroAmount) <==> ev.amount == 0
    ensures ApplyMint(s, ev) == Err(DoubleMint) <==> ev.amount > 0 && ev.nullifierHex in s.nullifiers
  {
    hide Credit;
  }

  /** The sum of amounts and fees of a list of transfers. */
  function PlainTotal(ts: seq<SignedTransfer>): nat {
    if ts == [] then 0 else ts[0].body.amount + PlainFee(ts[0].body.amount) + PlainTotal(ts[1..])
  }

  function Sends(ts: seq<SignedTransfer>): (txs: seq<L2Tx>)
    ensures |txs| == |ts| && forall i :: 0 <= i < |ts| ==> txs[i] == Transfer(ts[i])
  {
    seq(|ts|, i requires 0 <= i < |ts| => Transfer(ts[i]))
  }

  /** Well-formed transfers of one sender, with consecutive nonces from `n` on. */
  predicate InSequence(ts: seq<SignedTransfer>, sender: Address, n: nat) {
    forall i :: 0 <= i < |ts| ==>
      && ts[i].body.sender == sender && ts[i].body.recipient != sender && ts[i].body.amount > 0
      && ts[i].body.nonce == (n + i) % 0x1_0000_0000_0000_0000 && Signed(ts[i])
  }

  /** The sender's account after one accepted transfer. */
  lemma SenderAfter(s: State, t: SignedTransfer)
    requires ApplyTransfer(s, t).Ok?
    ensures var after := AccountOf(ApplyTransfer(s, t).value.accounts, t.body.sender);
            && after.balance >= AccountOf(s.accounts, t.body.sender).balance - PlainCost(t.body.amount)
            && after.nonce == (AccountOf(s.accounts, t.body.sender).nonce + 1) % 0x1_0000_0000_0000_0000
  {
    hide FeeFor, Hash, PlainFee;
    CostIsPlain(t.body);
  }

  /** Whoever can pay for a list of transfers gets all of it applied, on any ledger. */
  lemma {:induction false} FundedSenderSends(s: State, sender: Address, ts: seq<SignedTransfer>)
    requires InSequence(ts, sender, AccountOf(s.accounts, sender).nonce)
    requires AccountOf(s.accounts, sender).balance >= PlainTotal(ts)
    ensures Replay(s, Sends(ts)).Ok?
    decreases |ts|
  {
    hide ApplyTransfer, Signed, AccountOf, PlainFee;
    if ts != [] {
      var t, n := ts[0], AccountOf(s.accounts, sender).nonce;
      TransferVerdict(s, t);
      assert ApplyTransfer(s, t).Ok? by {
        SenderAccount(s, sender);
        assert t.body.nonce == (n + 0) % 0x1_0000_0000_0000_0000;
      }
      var next := ApplyTransfer(s, t).value;
      SenderAfter(s, t);
      assert Sends(ts)[1..] == Sends(ts[1..]);
      assert Apply(s, Sends(ts)[0]) == Ok(next);
      forall i | 0 <= i < |ts[1..]|
        ensures ts[1..][i].body.nonce == (AccountOf(next.accounts, sender).nonce + i) % 0x1_0000_0000_0000_0000
      {
        assert ts[1..][i] == ts[i + 1];
        NonceOnward(n, i);
      }
      FundedSenderSends(next, sender, ts[1..]);
    }
  }

  lemma NonceOnward(n: nat, i: nat)
    ensures ((n + 1) % 0x1_0000_0000_0000_0000 + i) % 0x1_0000_0000_0000_0000 == (n + (i + 1)) % 0x1_0000_0000_0000_0000
  {
  }

  lemma SenderAccount(s: State, a: Address)
    ensures AccountOf(s.accounts, a) == if a in s.accounts then s.accounts[a] else Account(0, 0)
  {
  }

  // ---------- mint claims ----------

  /** The last height but one that a claim may name. */
  function PlainExpiry(create: nat, lock: nat): nat {
    if create + lock < 0x1_0000_0000 then create + lock else 0xFFFF_FFFF
  }

  predicate Confirmed(output: L1Output) { output.confirmations >= 1 }

  predicate Locked(p: OutpointProof) { 1 <= p.lockBlocks <= 65_535 }

  /** The claim falls into the lock period and not ahead of L1. */
  predicate Timely(p: OutpointProof, output: L1Output, tip: u32) {
    && output.confirmedHeight <= p.claimedHeight < PlainExpiry(output.confirmedHeight, p.lockBlocks)
    && p.claimedHeight <= tip
  }

  predicate PaysClaimant(p: OutpointProof, output: L1Output) {
    output.script == MintScriptOracle(p.lockBlocks, p.userKey)
  }

  predicate ClaimSigned(p: OutpointProof, destination: Address) {
    SchnorrOracle(p.userKey, Hash(MintClaimMsg(p.outpoint, p.claimedHeight, destination)), p.signature)
  }

  /** What an accepted claim is worth: the mint curve at the locked value and duration. */
  function Worth(p: OutpointProof, output: L1Output): u64 {
    MintCurveOracle(output.valueSat, p.lockBlocks)
  }

  /** A claim is accepted exactly if its output is there, confirmed, locked for a permitted
      time under the claimant's key, claimed in time, signed for this destination, and worth
      something; and the credit it earns is then this one. */
  lemma ClaimVerdict(p: OutpointProof, view: L1View, destination: Address)
    ensures var r := VerifyProof(p, view, destination);
            && (r.Ok? <==>
                 && p.outpoint in view.outputs
                 && var output := view.outputs[p.outpoint];
                    && Confirmed(output) && Locked(p) && Timely(p, output, view.tip)
                    && PaysClaimant(p, output) && ClaimSigned(p, destination) && Worth(p, output) > 0)
            && (r.Ok? ==>
                 var output := view.outputs[p.outpoint];
                 var nullifier := Hex(BE(p.outpoint.txid, 32) + LE(p.outpoint.vout, 4));
                 r.value == MintEvent(nullifier, Worth(p, output), destination, output.confirmedHeight, p.lockBlocks,
                                      output.valueSat))
  {
    hide Hash, Hex, BE, LE;
  }

  /** The checks and their errors, in the order they are made. */
  lemma ClaimErrors(p: OutpointProof, view: L1View, destination: Address)
    ensures var r := VerifyProof(p, view, destination);
            if p.outpoint !in view.outputs then r == Err(OutpointNotFound)
            else
              var output := view.outputs[p.outpoint];
              var expiry := PlainExpiry(output.confirmedHeight, p.lockBlocks);
              && (!Confirmed(output) <==> r == Err(NotEnoughConfirmations))
              && (Confirmed(output) && !Locked(p) <==> r == Err(BadLockBlocks))
              && (Confirmed(output) && Locked(p) ==>
                   && (p.claimedHeight < output.confirmedHeight <==> r == Err(ClaimedHeightBeforeCreate))
                   && (expiry <= p.claimedHeight && output.confirmedHeight <= p.claimedHeight
                       <==> r == Err(LockExpired))
                   && (output.confirmedHeight <= p.claimedHeight < expiry && view.tip < p.claimedHeight
                       <==> r == Err(ClaimedHeightInFuture))
                   && (Timely(p, output, view.tip) ==>
                        && (!PaysClaimant(p, output) <==> r == Err(ScriptMismatch))
                        && (PaysClaimant(p, output) && !ClaimSigned(p, destination) <==> r == Err(BadMintSignature))
                        && (PaysClaimant(p, output) && ClaimSigned(p, destination) && Worth(p, output) == 0
                            <==> r == Err(AmountOverflow))))
  {
    hide Hash, Hex, BE, LE;
  }

  /** The entry of a block is accepted exactly if its claim is, and earns what it declares. */
  lemma EntryVerdict(entry: MintEntry, view: L1View)
    ensures VerifyMintEntry(entry, view).None? <==>
            VerifyProof(entry.proof, view, entry.event.destination) == Ok(entry.event)
    ensures VerifyMintEntry(entry, view) == Some(EventMismatch) <==>
            var r := VerifyProof(entry.proof, view, entry.event.destination); r.Ok? && r.value != entry.event
  {
    hide Hash, Hex, BE, LE, MintSighash, NullifierHex;
  }

  /** A claim is good for one destination only: if one proof is accepted for two, its key
      signed two different digests with one signature, or two claims collide. */
  lemma ClaimBoundToDestination(p: OutpointProof, view: L1View, other: L1View, a: Address, b: Address)
    requires a != b && VerifyProof(p, view, a).Ok? && VerifyProof(p, other, b).Ok?
    ensures var x, y := MintClaimMsg(p.outpoint, p.claimedHeight, a), MintClaimMsg(p.outpoint, p.claimedHeight, b);
            || CollisionIn({x, y})
            || (&& Hash(x) != Hash(y) && SchnorrOracle(p.userKey, Hash(x), p.signature)
                && SchnorrOracle(p.userKey, Hash(y), p.signature))
  {
    hide Hash, VerifyProof;
    ClaimVerdict(p, view, a);
    ClaimVerdict(p, other, b);
    var x, y := MintClaimMsg(p.outpoint, p.claimedHeight, a), MintClaimMsg(p.outpoint, p.claimedHeight, b);
    if !CollisionIn({x, y}) {
      assert MintSighash(p.outpoint, p.claimedHeight, a) == Hash(x);
      assert MintSighash(p.outpoint, p.claimedHeight, b) == Hash(y);
      MintSighashBinds({x, y}, p.outpoint, p.claimedHeight, a, p.outpoint, p.claimedHeight, b);
    }
  }

  // ---------- blocks ----------

  /** The attestation commits to this very block, header and body. */
  predicate Committed(block: Block, att: Attestation) {
    && block.header.height == att.height && HeaderHash(block.header) == att.blockHash
    && block.header.stateRoot == att.stateRoot && TxsRoot(block.txs) == block.header.txsRoot
  }

  /** A node accepts a block exactly if it is the one asked for, the attestation if any commits
      to it, every mint verifies, the body applies to the state root of the header, and it
      continues the head; the node then holds the ledger and the head that result. */
  lemma BlockVerdict(n: NodeState, height: u32, block: Block, att: Option<Attestation>, view: L1View)
    ensures var r, body, h := ApplyBlock(n, height, block, att, view), Replay(n.state, block.txs), block.header;
            && (r.Ok? <==>
                 && h.height == height && (att.Some? ==> Committed(block, att.value))
                 && (forall tx :: tx in block.txs && tx.Mint? ==> VerifyMintEntry(tx.entry, view).None?)
                 && body.Ok? && StateRoot(body.value) == h.stateRoot && h.prevHash == n.head.blockHash)
            && (r.Ok? ==> r.value == NodeState(body.value, Head(height, HeaderHash(h), h.stateRoot, h.l1Height)))
            && (r == Err(WrongHeight) <==> h.height != height)
            && (h.height == height && att.Some? && !Committed(block, att.value) <==>
                 r == Err(AttestationMismatch) || r == Err(TxsRootMismatch))
  {
    hide Replay, StateRoot, HeaderHash, TxsRoot, VerifyMintEntry, VerifyMints;
  }

  // ---------- sparse updates ----------

  predicate Repeats(us: seq<Update>, i: nat)
    requires i < |us|
  {
    exists j :: i < j < |us| && us[j].preProof.address == us[i].preProof.address
  }

  lemma {:induction false} DuplicateIsFirst(us: seq<Update>)
    ensures FirstDuplicate(us).Some? ==>
      exists i :: 0 <= i < |us| && Repeats(us, i) && us[i].preProof.address == FirstDuplicate(us).value
                  && forall k :: 0 <= k < i ==> !Repeats(us, k)
    ensures FirstDuplicate(us).None? ==> forall i :: 0 <= i < |us| ==> !Repeats(us, i)
  {
    if us != [] {
      DuplicateIsFirst(us[1..]);
      forall i | 0 <= i < |us[1..]|
        ensures Repeats(us[1..], i) <==> Repeats(us, i + 1)
      {
        if j :| i + 1 < j < |us| && us[j].preProof.address == us[i + 1].preProof.address {
          assert us[1..][j - 1] == us[j];
        }
        if j :| i < j < |us[1..]| && us[1..][j].preProof.address == us[1..][i].preProof.address {
          assert us[j + 1] == us[1..][j];
        }
      }
      HeadRepeats(us);
      if FirstDuplicate(us).Some? {
        if Repeats(us, 0) {
          assert FirstDuplicate(us).value == us[0].preProof.address;
        } else {
          var i :| 0 <= i < |us[1..]| && Repeats(us[1..], i)
                   && us[1..][i].preProof.address == FirstDuplicate(us[1..]).value
                   && forall k :: 0 <= k < i ==> !Repeats(us[1..], k);
          assert Repeats(us, i + 1);
          forall k | 0 <= k < i + 1
            ensures !Repeats(us, k)
          {
            if k > 0 {
              assert !Repeats(us[1..], k - 1);
            }
          }
        }
      } else {
        forall i | 0 <= i < |us|
          ensures !Repeats(us, i)
        {
          if i > 0 {
            assert !Repeats(us[1..], i - 1);
          }
        }
      }
    }
  }

  lemma HeadRepeats(us: seq<Update>)
    requires us != []
    ensures Repeats(us, 0) <==> exists v :: v in us[1..] && v.preProof.address == us[0].preProof.address
  {
    if j :| 0 < j < |us| && us[j].preProof.address == us[0].preProof.address {
      assert us[1..][j - 1] == us[j] && us[j] in us[1..];
    }
    if v :| v in us[1..] && v.preProof.address == us[0].preProof.address {
      var j :| 0 <= j < |us[1..]| && us[1..][j] == v;
      assert us[j + 1] == v;
    }
  }

  lemma {:induction false} InvalidIsFirst(us: seq<Update>, root: Digest)
    ensures FirstInvalid(us, root).Some? ==>
      exists i :: 0 <= i < |us| && !Verifies(us[i].preProof, root)
                  && us[i].preProof.address == FirstInvalid(us, root).value
                  && forall k :: 0 <= k < i ==> Verifies(us[k].preProof, root)
  {
    hide Verifies;
    if us != [] && Verifies(us[0].preProof, root) {
      InvalidIsFirst(us[1..], root);
      if FirstInvalid(us, root).Some? {
        var i :| 0 <= i < |us[1..]| && !Verifies(us[1..][i].preProof, root)
                 && us[1..][i].preProof.address == FirstInvalid(us[1..], root).value
                 && forall k :: 0 <= k < i ==> Verifies(us[1..][k].preProof, root);
        assert us[i + 1] == us[1..][i];
        forall k | 0 <= k < i + 1
          ensures Verifies(us[k].preProof, root)
        {
          if k > 0 {
            assert us[1..][k - 1] == us[k];
          }
        }
      }
    }
  }

  /** Both operations succeed exactly on distinct addresses with proofs that verify; the root
      update refuses an empty list, the refresh returns the observer's own proof for it and
      refuses one that does not verify before anything else. */
  lemma UpdateVerdict(us: seq<Update>, observer: InclusionProof, root: Digest)
    ensures var good := Distinct(us) && forall u :: u in us ==> Verifies(u.preProof, root);
            var r, p := ApplyUpdates(us, root), RefreshObserver(observer, us, root);
            && (r.Ok? <==> us != [] && good)
            && (r == Err(EmptyUpdates) <==> us == [])
            && (r.Err? && r.error.DuplicateAddress? <==> us != [] && !Distinct(us))
            && (p.Ok? <==> Verifies(observer, root) && (us == [] || good))
            && (us == [] && p.Ok? ==> p.value == observer)
            && (!Verifies(observer, root) ==> p == Err(InvalidPreProof(observer.address)))
            && (Verifies(observer, root) && us != [] && !good ==> p.Err? && r.Err? && p.error == r.error)
  {
    hide Verifies, PostRoot, Refreshed;
    assert us == [] ==> Distinct(us);
  }
}
