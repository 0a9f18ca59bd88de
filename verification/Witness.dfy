/** The per-block witness: proofs of the pre-state of every touched account. */
module Witness {
  import opened Primitives
  import opened Types
  import opened SparseMerkle
  import opened Ledger

  datatype BlockWitness = BlockWitness(height: u32, priorAccountsRoot: Digest, preProofs: seq<InclusionProof>)

  /** Collects the touched set tx by tx; the fee address joins once if any transfer is present. */
  method TouchedAddresses(txs: seq<L2Tx>, fee: Option<Address>) returns (touched: set<Address>)
    ensures touched == TouchedByAll(txs, fee)
  {
    touched := {};
    var hasTransfer := false;
    ghost var feeSet := if fee.Some? then {fee.value} else {};
    assert txs[0..] == txs;
    for i := 0 to |txs|
      invariant TouchedByAll(txs, fee) == touched + (if hasTransfer then feeSet else {}) + TouchedByAll(txs[i..], fee)
    {
      assert txs[i..][1..] == txs[i + 1..];
      match txs[i]
      case Mint(e) => touched := touched + {e.event.destination};
      case Transfer(t) =>
        touched := touched + {t.body.sender, t.body.recipient};
        hasTransfer := true;
    }
    assert txs[|txs|..] == [];
    if hasTransfer && fee.Some? {
      touched := touched + {fee.value};
    }
  }

  /** The transaction names the account as a party of its own. */
  predicate Names(tx: L2Tx, a: Address) {
    match tx
    case Mint(e) => e.event.destination == a
    case Transfer(t) => t.body.sender == a || t.body.recipient == a
  }

  /** The touched set: every account some transaction names, and the fee address if there is
      any transfer. Mints alone do not touch it. */
  lemma {:induction false} TouchedMeans(txs: seq<L2Tx>, fee: Option<Address>, a: Address)
    ensures a in TouchedByAll(txs, fee) <==>
            (exists tx :: tx in txs && Names(tx, a)) || (fee == Some(a) && exists tx :: tx in txs && tx.Transfer?)
    decreases |txs|
  {
    if txs != [] {
      TouchedMeans(txs[1..], fee, a);
      assert txs[0] in txs;
      assert forall tx :: tx in txs <==> tx == txs[0] || tx in txs[1..];
    }
  }

  /** A set of addresses as the sorted list a set iterator yields. */
  function AddressList(s: set<Address>): (r: seq<Address>)
    ensures multiset(r) == multiset(s)
  {
    if s == {} then [] else
      LeastExists(s);
      var a :| IsLeast(a, s);
      var r := [a] + AddressList(s - {a});
      assert multiset(s) == multiset{a} + multiset(s - {a});
      r
  }

  function ProofsFor(m: Accounts, addresses: seq<Address>): (r: seq<InclusionProof>)
    ensures |r| == |addresses|
    ensures forall i :: 0 <= i < |r| ==> r[i].address == addresses[i] && TrueProof(r[i], m)
  {
    seq(|addresses|, i requires 0 <= i < |addresses| => ProofOf(m, addresses[i]))
  }

  function Build(prior: State, txs: seq<L2Tx>, height: u32): BlockWitness {
    BlockWitness(height, AccountsRoot(prior.accounts),
                 ProofsFor(prior.accounts, AddressList(TouchedByAll(txs, prior.fee))))
  }

  function AddressesOf(proofs: seq<InclusionProof>): (r: seq<Address>)
    ensures |r| == |proofs|
    ensures forall i :: 0 <= i < |r| ==> r[i] == proofs[i].address
  {
    seq(|proofs|, i requires 0 <= i < |proofs| => proofs[i].address)
  }

  /** The sorted address lists of witness and block are equal: as many proofs for each
      address as the touched set holds, one or none. */
  predicate CoversTouched(proofs: seq<InclusionProof>, touched: set<Address>) {
    multiset(AddressesOf(proofs)) == multiset(touched)
  }

  lemma BuildCovers(prior: State, txs: seq<L2Tx>, height: u32)
    ensures CoversTouched(Build(prior, txs, height).preProofs, TouchedByAll(txs, prior.fee))
    ensures forall p :: p in Build(prior, txs, height).preProofs ==> TrueProof(p, prior.accounts)
  {
    hide TrueProof, ProofOf, TouchedByAll, AddressList, AccountsRoot;
    var touched := TouchedByAll(txs, prior.fee);
    var proofs := ProofsFor(prior.accounts, AddressList(touched));
    assert AddressesOf(proofs) == AddressList(touched);
  }
}
