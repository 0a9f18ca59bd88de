/** Checking mint claims against L1, and how much a run can mint. */
module MintProof {
  import opened Primitives
  import opened Types
  import opened Crypto
  import opened Messages
  import opened Ledger
  import opened Supply

  const MINT_CONFIRMATIONS: u32 := 1
  const MAX_LOCK_BLOCKS: u32 := 0xFFFF

  datatype L1Output = L1Output(valueSat: u64, script: Bytes, confirmedHeight: u32, confirmations: u32)

  /** What a verifier can ask of L1 at one moment. */
  datatype L1View = L1View(outputs: map<OutPoint, L1Output>, tip: u32)

  datatype MintError =
    | OutpointNotFound
    | NotEnoughConfirmations
    | BadLockBlocks
    | ClaimedHeightBeforeCreate
    | LockExpired
    | ClaimedHeightInFuture
    | ScriptMismatch
    | BadMintSignature
    | AmountOverflow
    | EventMismatch

  /** Serialised outpoint, the dedup key of a mint: txid then little-endian index. */
  function OutpointNullifier(op: OutPoint): (r: Bytes)
    ensures |r| == 36
  {
    BE(op.txid, 32) + LE(op.vout, 4)
  }

  function NullifierHex(op: OutPoint): (r: Bytes)
    ensures |r| == NULLIFIER_LEN
  {
    Hex(OutpointNullifier(op))
  }

  /** Different outpoints have different nullifiers. */
  lemma NullifierInjective(x: OutPoint, y: OutPoint)
    ensures NullifierHex(x) == NullifierHex(y) <==> x == y
  {
    if NullifierHex(x) == NullifierHex(y) {
      var p, q := OutpointNullifier(x), OutpointNullifier(y);
      HexInjective(p, q);
      assert p[..32] == BE(x.txid, 32) && q[..32] == BE(y.txid, 32);
      assert p[32..] == LE(x.vout, 4) && q[32..] == LE(y.vout, 4);
      BE32Injective(x.txid, y.txid);
      Pow256Values();
      LEInjective(x.vout, y.vout, 4);
    }
  }

  function UnlockHeight(create: u32, lock: u32): u32 {
    if create + lock <= U32_MAX then create + lock else U32_MAX
  }

  /** The credit a claim earns, or the first check it fails. */
  function VerifyProof(p: OutpointProof, view: L1View, destination: Address): Result<MintEvent, MintError> {
    if p.outpoint !in view.outputs then Err(OutpointNotFound)
    else
      var output := view.outputs[p.outpoint];
      if output.confirmations < MINT_CONFIRMATIONS then Err(NotEnoughConfirmations)
      else if p.lockBlocks == 0 || p.lockBlocks > MAX_LOCK_BLOCKS then Err(BadLockBlocks)
      else if p.claimedHeight < output.confirmedHeight then Err(ClaimedHeightBeforeCreate)
      else if p.claimedHeight >= UnlockHeight(output.confirmedHeight, p.lockBlocks) then Err(LockExpired)
      else if p.claimedHeight > view.tip then Err(ClaimedHeightInFuture)
      else if ExpectedMintScript(p.lockBlocks, p.userKey) != output.script then Err(ScriptMismatch)
      else if !SchnorrVerifies(p.userKey, MintSighash(p.outpoint, p.claimedHeight, destination), p.signature) then
        Err(BadMintSignature)
      else
        var amount := MintFn(output.valueSat, p.lockBlocks);
        if amount == 0 then Err(AmountOverflow)
        else Ok(MintEvent(NullifierHex(p.outpoint), amount, destination, output.confirmedHeight, p.lockBlocks,
                          output.valueSat))
  }

  function VerifyMintEntry(entry: MintEntry, view: L1View): (e: Option<MintError>) {
    match VerifyProof(entry.proof, view, entry.event.destination)
    case Err(e) => Some(e)
    case Ok(derived) => if derived == entry.event then None else Some(EventMismatch)
  }

  function VerifyMints(txs: seq<L2Tx>, view: L1View): (e: Option<MintError>)
    ensures e.None? <==> forall tx :: tx in txs && tx.Mint? ==> VerifyMintEntry(tx.entry, view).None?
    decreases |txs|
  {
    if txs == [] then None
    else
      var rest := VerifyMints(txs[1..], view);
      assert forall tx :: tx in txs <==> tx == txs[0] || tx in txs[1..];
      if txs[0].Mint? && VerifyMintEntry(txs[0].entry, view).Some? then VerifyMintEntry(txs[0].entry, view) else rest
  }

  method CheckMints(txs: seq<L2Tx>, view: L1View) returns (e: Option<MintError>)
    ensures e == VerifyMints(txs, view)
  {
    hide VerifyMintEntry;
    assert txs[0..] == txs;
    for i := 0 to |txs|
      invariant VerifyMints(txs, view) == VerifyMints(txs[i..], view)
    {
      assert txs[i..][1..] == txs[i + 1..];
      if txs[i].Mint? {
        e := VerifyMintEntry(txs[i].entry, view);
        if e.Some? {
          return;
        }
      }
    }
    assert txs[|txs|..] == [];
    e := None;
  }

  /** What an accepted mint says: its nullifier is its outpoint's, it credits no more than
      the output is worth on L1, the output pays the claimant's own script, the claim was
      made while the lock was active and not ahead of L1, and the claimant signed it for
      this destination. */
  lemma VerifiedEvent(entry: MintEntry, view: L1View)
    requires VerifyMintEntry(entry, view).None?
    ensures entry.proof.outpoint in view.outputs
    ensures entry.event.nullifierHex == NullifierHex(entry.proof.outpoint)
    ensures entry.event.valueSat == view.outputs[entry.proof.outpoint].valueSat
    ensures 0 < entry.event.amount <= entry.event.valueSat
    ensures var p, output := entry.proof, view.outputs[entry.proof.outpoint];
            && output.confirmations >= 1 && output.script == ExpectedMintScript(p.lockBlocks, p.userKey)
            && 1 <= p.lockBlocks <= 65_535 && p.lockBlocks == entry.event.lockBlocks
            && output.confirmedHeight == entry.event.createHeight
            && output.confirmedHeight <= p.claimedHeight < output.confirmedHeight + p.lockBlocks
            && p.claimedHeight <= view.tip
            && SchnorrVerifies(p.userKey, MintSighash(p.outpoint, p.claimedHeight, entry.event.destination),
                               p.signature)
  {
    hide NullifierHex, MintSighash, Hash;
  }

  // ---------- nullifiers of a run ----------

  function MintNullifiers(txs: seq<L2Tx>): set<Bytes> {
    set tx | tx in txs && tx.Mint? :: tx.entry.event.nullifierHex
  }

  lemma {:induction false} ReplayNullifiers(s: State, txs: seq<L2Tx>)
    requires Replay(s, txs).Ok?
    ensures Replay(s, txs).value.nullifiers == s.nullifiers + MintNullifiers(txs)
    decreases |txs|
  {
    hide Credit, ApplyTransfer;
    if txs != [] {
      ApplyNullifiers(s, txs[0]);
      ReplayNullifiers(Apply(s, txs[0]).value, txs[1..]);
      assert forall tx :: tx in txs <==> tx == txs[0] || tx in txs[1..];
    }
  }

  lemma ApplyNullifiers(s: State, tx: L2Tx)
    requires Apply(s, tx).Ok?
    ensures Apply(s, tx).value.nullifiers == s.nullifiers + if tx.Mint? then {tx.entry.event.nullifierHex} else {}
    ensures tx.Mint? ==> tx.entry.event.nullifierHex !in s.nullifiers
  {
    hide Credit, MoveFunds, Hash;
  }

  // ---------- the mint bound ----------

  /** Every mint of the run was accepted against some view of L1 that reports true values.
      The views may differ from mint to mint. */
  ghost predicate Authorised(txs: seq<L2Tx>, views: seq<L1View>, worth: OutPoint -> u64) {
    && |views| == |txs|
    && forall i :: 0 <= i < |txs| ==>
         && (forall op :: op in views[i].outputs ==> views[i].outputs[op].valueSat == worth(op))
         && (txs[i].Mint? ==> VerifyMintEntry(txs[i].entry, views[i]).None?)
  }

  function MintedOutpoints(txs: seq<L2Tx>): set<OutPoint> {
    set tx | tx in txs && tx.Mint? :: tx.entry.proof.outpoint
  }

  ghost function SumOf(ops: set<OutPoint>, worth: OutPoint -> u64): nat {
    if ops == {} then 0 else
      var op :| op in ops;
      worth(op) + SumOf(ops - {op}, worth)
  }

  lemma {:induction false} SumOfRemove(ops: set<OutPoint>, op: OutPoint, worth: OutPoint -> u64)
    requires op in ops
    ensures SumOf(ops, worth) == worth(op) + SumOf(ops - {op}, worth)
  {
    var q :| q in ops && SumOf(ops, worth) == worth(q) + SumOf(ops - {q}, worth);
    if q != op {
      SumOfRemove(ops - {q}, op, worth);
      SumOfRemove(ops - {op}, q, worth);
      assert ops - {op} - {q} == ops - {q} - {op};
    }
  }

  lemma {:induction false} SumOfSubset(some: set<OutPoint>, more: set<OutPoint>, worth: OutPoint -> u64)
    requires some <= more
    ensures SumOf(some, worth) <= SumOf(more, worth)
  {
    if some != {} {
      var op :| op in some;
      SumOfRemove(some, op, worth);
      SumOfRemove(more, op, worth);
      SumOfSubset(some - {op}, more - {op}, worth);
    }
  }

  lemma AuthorisedTail(txs: seq<L2Tx>, views: seq<L1View>, worth: OutPoint -> u64)
    requires Authorised(txs, views, worth) && txs != []
    ensures Authorised(txs[1..], views[1..], worth)
  {
    hide VerifyMintEntry;
  }

  lemma {:induction false} MintedBelowWorth(s: State, txs: seq<L2Tx>, views: seq<L1View>, worth: OutPoint -> u64)
    requires Replay(s, txs).Ok? && Authorised(txs, views, worth)
    ensures MintTotal(txs) <= SumOf(MintedOutpoints(txs), worth)
    ensures forall op :: op in MintedOutpoints(txs) ==> NullifierHex(op) !in s.nullifiers
    decreases |txs|
  {
    hide Apply, VerifyMintEntry, NullifierHex;
    if txs != [] {
      var tx, rest := txs[0], MintedOutpoints(txs[1..]);
      AuthorisedTail(txs, views, worth);
      MintedBelowWorth(Apply(s, tx).value, txs[1..], views[1..], worth);
      ApplyNullifiers(s, tx);
      assert forall t :: t in txs <==> t == tx || t in txs[1..];
      if tx.Mint? {
        var op := tx.entry.proof.outpoint;
        VerifiedEvent(tx.entry, views[0]);
        assert op !in rest;
        assert MintedOutpoints(txs) == rest + {op};
        SumOfRemove(rest + {op}, op, worth);
        assert rest + {op} - {op} == rest;
      } else {
        assert MintedOutpoints(txs) == rest;
      }
    }
  }

  /** Each L1 outpoint is credited at most once. */
  lemma OutpointCreditedOnce(s: State, txs: seq<L2Tx>, views: seq<L1View>, worth: OutPoint -> u64, i: nat, j: nat)
    requires Replay(s, txs).Ok? && Authorised(txs, views, worth)
    requires i < j < |txs| && txs[i].Mint? && txs[j].Mint?
    ensures txs[i].entry.proof.outpoint != txs[j].entry.proof.outpoint
  {
    hide Apply, VerifyMintEntry, NullifierHex;
    assert txs == txs[..j] + txs[j..];
    ReplayConcat(s, txs[..j], txs[j..]);
    ReplayNullifiers(s, txs[..j]);
    assert txs[..j][i] == txs[i] && txs[i] in txs[..j];
    VerifiedEvent(txs[i].entry, views[i]);
    VerifiedEvent(txs[j].entry, views[j]);
    ApplyNullifiers(Replay(s, txs[..j]).value, txs[j]);
  }

  /** On a chain whose mints were all verified, the supply is bounded by the value locked
      on L1; below 2^64 - 1 in all, that is the premise of conservation. */
  lemma SupplyBackedByL1(fee: Option<Address>, txs: seq<L2Tx>, views: seq<L1View>, worth: OutPoint -> u64,
                         all: set<OutPoint>)
    requires Replay(Genesis(fee), txs).Ok? && Authorised(txs, views, worth)
    requires MintedOutpoints(txs) <= all && SumOf(all, worth) < U64_MAX
    ensures var s := Replay(Genesis(fee), txs).value;
            && s.minted <= SumOf(MintedOutpoints(txs), worth) <= SumOf(all, worth)
            && Total(s.accounts) + BurnedTotal(txs, fee) == s.minted
            && NeverClips(Genesis(fee), txs)
  {
    hide Replay, Authorised, NeverClips;
    MintedBelowWorth(Genesis(fee), txs, views, worth);
    SumOfSubset(MintedOutpoints(txs), all, worth);
    Conservation(fee, txs);
  }

  /** All nullifiers a verified run consumes are 72 characters long. */
  lemma VerifiedNullifiersProper(s: State, txs: seq<L2Tx>, view: L1View)
    requires Replay(s, txs).Ok? && VerifyMints(txs, view).None? && ProperNullifiers(s.nullifiers)
    ensures ProperNullifiers(Replay(s, txs).value.nullifiers)
  {
    hide Replay, VerifyMints, VerifyMintEntry;
    ReplayNullifiers(s, txs);
    forall n | n in MintNullifiers(txs)
      ensures |n| == NULLIFIER_LEN
    {
      var tx :| tx in txs && tx.Mint? && tx.entry.event.nullifierHex == n;
      VerifiedEvent(tx.entry, view);
    }
  }
}
