/** Conservation of atoms over whole runs, and what a run says about nonces. */
module Supply {
  import opened Primitives
  import opened Types
  import opened Crypto
  import opened Messages
  import opened SparseMerkle
  import opened Ledger

  // ---------- the sum of all balances ----------

  ghost function Total(m: Accounts): nat
    decreases |m|
  {
    if m == map[] then 0 else
      var a :| a in m;
      m[a].balance + Total(m - {a})
  }

  lemma {:induction false} TotalRemove(m: Accounts, a: Address)
    requires a in m
    ensures Total(m) == m[a].balance + Total(m - {a})
    decreases |m|
  {
    var b :| b in m && Total(m) == m[b].balance + Total(m - {b});
    if a != b {
      TotalRemove(m - {b}, a);
      TotalRemove(m - {a}, b);
      assert m - {a} - {b} == m - {b} - {a};
    }
  }

  lemma TotalPut(m: Accounts, a: Address, acct: Account)
    ensures Total(m[a := acct]) == Total(m) - AccountOf(m, a).balance + acct.balance
    ensures AccountOf(m, a).balance <= Total(m)
  {
    TotalRemove(m[a := acct], a);
    if a in m {
      TotalRemove(m, a);
      assert m[a := acct] - {a} == m - {a};
    } else {
      assert m[a := acct] - {a} == m;
    }
  }

  // ---------- what a run mints and burns ----------

  function MintAmount(tx: L2Tx): nat { if tx.Mint? then tx.entry.event.amount else 0 }

  function MintTotal(txs: seq<L2Tx>): nat
    decreases |txs|
  {
    if txs == [] then 0 else MintAmount(txs[0]) + MintTotal(txs[1..])
  }

  /** Fees are burned on a chain without a fee address. */
  function BurnedBy(tx: L2Tx, fee: Option<Address>): nat {
    if tx.Transfer? && fee.None? then FeeFor(tx.transfer.body.amount) else 0
  }

  function BurnedTotal(txs: seq<L2Tx>, fee: Option<Address>): nat
    decreases |txs|
  {
    if txs == [] then 0 else BurnedBy(txs[0], fee) + BurnedTotal(txs[1..], fee)
  }

  /** Some saturating operation of this transaction would clip its exact result. */
  predicate Clips(s: State, tx: L2Tx)
    requires Apply(s, tx).Ok?
  {
    match tx
    case Mint(e) =>
      || AccountOf(s.accounts, e.event.destination).balance + e.event.amount > U64_MAX
      || s.minted + e.event.amount > U64_MAX
    case Transfer(t) =>
      var b := t.body;
      var debited := Debit(s.accounts, b.sender, TransferCost(b));
      var paid := Credit(debited, b.recipient, b.amount);
      || b.amount * FEE_BPS > U64_MAX
      || b.amount + FeeFor(b.amount) > U64_MAX
      || AccountOf(debited, b.recipient).balance + b.amount > U64_MAX
      || (s.fee.Some? && AccountOf(paid, s.fee.value).balance + FeeFor(b.amount) > U64_MAX)
  }

  // ---------- the exact effect on every account ----------

  /** What an accepted transfer does to account `a`, whichever of its roles `a` has, one,
      several or none: pays amount and fee, receives the amount, collects the fee. */
  lemma TransferEffect(s: State, t: SignedTransfer, a: Address)
    requires ApplyTransfer(s, t).Ok? && !Clips(s, Transfer(t))
    ensures var b, s' := t.body, ApplyTransfer(s, t).value;
            var fee := if b.amount >= 10_000 * MIN_FEE then b.amount / 10_000 else MIN_FEE;
            var before, after := AccountOf(s.accounts, a), AccountOf(s'.accounts, a);
            && after.balance == before.balance
                                - (if a == b.sender then b.amount + fee else 0)
                                + (if a == b.recipient then b.amount else 0)
                                + (if s.fee == Some(a) then fee else 0)
            && after.nonce == (if a == b.sender then NextNonce(before.nonce) else before.nonce)
            && (a == b.sender ==> before.nonce == b.nonce && before.balance >= b.amount + fee)
            && b.sender != b.recipient && b.amount > 0
            && s'.nullifiers == s.nullifiers && s'.minted == s.minted && s'.fee == s.fee
  {
    hide Hash, NextNonce;
    var b := t.body;
    var debited := Debit(s.accounts, b.sender, TransferCost(b));
    var paid := Credit(debited, b.recipient, b.amount);
    assert FeeFor(b.amount) == if b.amount >= 10_000 * MIN_FEE then b.amount / 10_000 else MIN_FEE;
    assert ApplyTransfer(s, t).value.accounts
        == if s.fee.Some? then Credit(paid, s.fee.value, FeeFor(b.amount)) else paid;
  }

  lemma MintEffect(s: State, entry: MintEntry, a: Address)
    requires ApplyMint(s, entry.event).Ok? && !Clips(s, Mint(entry))
    ensures var ev, s' := entry.event, ApplyMint(s, entry.event).value;
            var before, after := AccountOf(s.accounts, a), AccountOf(s'.accounts, a);
            && after == Account(before.balance + (if a == ev.destination then ev.amount else 0), before.nonce)
            && ev.nullifierHex !in s.nullifiers && s'.nullifiers == s.nullifiers + {ev.nullifierHex}
            && s'.minted == s.minted + ev.amount && s'.fee == s.fee && ev.amount > 0
  {
  }

  /** Balances plus atoms burned so far make up exactly the atoms minted. */
  ghost predicate Conserved(s: State, burned: nat) {
    Total(s.accounts) + burned == s.minted
  }

  lemma CreditTotal(m: Accounts, a: Address, amount: u64)
    ensures AccountOf(m, a).balance + amount <= U64_MAX ==> Total(Credit(m, a, amount)) == Total(m) + amount
    ensures AccountOf(m, a).balance <= Total(m)
  {
    var acct := AccountOf(m, a);
    TotalPut(m, a, acct.(balance := SaturatingAdd(acct.balance, amount)));
  }

  lemma DebitTotal(m: Accounts, a: Address, total: u64)
    requires AccountOf(m, a).balance >= total
    ensures Total(Debit(m, a, total)) == Total(m) - total
    ensures AccountOf(m, a).balance <= Total(m)
  {
    var acct := AccountOf(m, a);
    TotalPut(m, a, Account(acct.balance - total, NextNonce(acct.nonce)));
  }

  /** The sum of amount and fee is a 64-bit number. Otherwise it is clipped, and so is the
      sender's cost, to 2^64 - 1. */
  predicate CostFits(t: SignedTransfer) {
    t.body.amount + FeeFor(t.body.amount) <= U64_MAX
  }

  /** The exact condition under which one accepted transaction, on a conserved ledger, keeps
      it conserved. Where the collector is also the recipient, amount and fee are clipped
      together once more on arrival and nothing is lost or gained; a mint that clips is
      harmless only if its destination already holds every atom ever minted. */
  predicate KeepsBooks(s: State, tx: L2Tx) {
    match tx
    case Mint(e) =>
      s.minted + e.event.amount <= U64_MAX || AccountOf(s.accounts, e.event.destination).balance == s.minted
    case Transfer(t) => CostFits(t) || s.fee == Some(t.body.recipient)
  }

  lemma OthersEmpty(m: Accounts, a: Address, c: Address)
    requires a != c
    ensures AccountOf(m, a).balance + AccountOf(m, c).balance <= Total(m)
  {
    TotalPut(m, a, Account(0, 0));
    TotalPut(m[a := Account(0, 0)], c, Account(0, 0));
  }

  lemma TransferConservesIff(s: State, t: SignedTransfer, burned: nat)
    requires ApplyTransfer(s, t).Ok? && Conserved(s, burned)
    ensures CostFits(t) <==> !Clips(s, Transfer(t))
    ensures Conserved(ApplyTransfer(s, t).value, burned + BurnedBy(Transfer(t), s.fee)) <==> KeepsBooks(s, Transfer(t))
    ensures s.minted < U64_MAX ==> CostFits(t)
  {
    hide Total, Debit, Credit, FeeFor, Hash, AccountOf;
    var b := t.body;
    var debited := Debit(s.accounts, b.sender, TransferCost(b));
    var paid := Credit(debited, b.recipient, b.amount);
    DebitTotal(s.accounts, b.sender, TransferCost(b));
    CreditTotal(debited, b.recipient, b.amount);
    if s.fee.Some? {
      CreditTotal(paid, s.fee.value, FeeFor(b.amount));
      if s.fee.value == b.recipient {
        CreditedBalance(debited, b.recipient, b.amount);
        TwiceCredited(debited, b.recipient, b.amount, FeeFor(b.amount));
      } else {
        OthersEmpty(paid, s.fee.value, b.recipient);
        CreditedBalance(debited, b.recipient, b.amount);
      }
    }
  }

  lemma CreditedBalance(m: Accounts, a: Address, amount: u64)
    ensures AccountOf(Credit(m, a, amount), a).balance == SaturatingAdd(AccountOf(m, a).balance, amount)
  {
  }

  lemma TwiceCredited(m: Accounts, a: Address, x: u64, y: u64)
    ensures Total(Credit(Credit(m, a, x), a, y))
         == Total(m) - AccountOf(m, a).balance + SaturatingAdd(SaturatingAdd(AccountOf(m, a).balance, x), y)
  {
    hide Total;
    var once := Credit(m, a, x);
    TotalPut(m, a, once[a]);
    TotalPut(once, a, Credit(once, a, y)[a]);
  }

  lemma MintConservesIff(s: State, entry: MintEntry, burned: nat)
    requires ApplyMint(s, entry.event).Ok? && Conserved(s, burned)
    ensures s.minted + entry.event.amount <= U64_MAX <==> !Clips(s, Mint(entry))
    ensures Conserved(ApplyMint(s, entry.event).value, burned) <==> KeepsBooks(s, Mint(entry))
  {
    hide Total;
    var ev := entry.event;
    var acct := AccountOf(s.accounts, ev.destination);
    TotalPut(s.accounts, ev.destination, acct.(balance := SaturatingAdd(acct.balance, ev.amount)));
  }

  lemma ApplyConservesIff(s: State, tx: L2Tx, burned: nat)
    requires Apply(s, tx).Ok? && Conserved(s, burned)
    ensures Conserved(Apply(s, tx).value, burned + BurnedBy(tx, s.fee)) <==> KeepsBooks(s, tx)
    ensures !Clips(s, tx) <==> s.minted + MintAmount(tx) <= U64_MAX && (tx.Transfer? ==> CostFits(tx.transfer))
    ensures !Clips(s, tx) ==> KeepsBooks(s, tx) && Apply(s, tx).value.minted == s.minted + MintAmount(tx)
    ensures Apply(s, tx).value.fee == s.fee
  {
    hide Total, Debit, Credit, FeeFor, Hash, AccountOf, MoveFunds, Clips, CostFits;
    match tx
    case Mint(e) => MintConservesIff(s, e, burned);
    case Transfer(t) => TransferConservesIff(s, t, burned);
  }

  lemma ApplyConserves(s: State, tx: L2Tx, burned: nat)
    requires Apply(s, tx).Ok? && Conserved(s, burned) && s.minted + MintAmount(tx) < U64_MAX
    ensures !Clips(s, tx)
    ensures Conserved(Apply(s, tx).value, burned + BurnedBy(tx, s.fee))
    ensures Apply(s, tx).value.minted == s.minted + MintAmount(tx)
    ensures Apply(s, tx).value.fee == s.fee
  {
    hide Apply, Total, Clips, CostFits, Conserved, BurnedBy;
    ApplyConservesIff(s, tx, burned);
    if tx.Transfer? {
      assert Apply(s, tx) == ApplyTransfer(s, tx.transfer) by { ApplyUnfold(s, tx); }
      TransferConservesIff(s, tx.transfer, burned);
    }
  }

  lemma ApplyUnfold(s: State, tx: L2Tx)
    ensures tx.Transfer? ==> Apply(s, tx) == ApplyTransfer(s, tx.transfer)
  {
    hide ApplyTransfer, ApplyMint;
  }

  ghost predicate NeverClips(s: State, txs: seq<L2Tx>)
    requires Replay(s, txs).Ok?
    decreases |txs|
  {
    txs == [] || (!Clips(s, txs[0]) && NeverClips(Apply(s, txs[0]).value, txs[1..]))
  }

  lemma {:induction false} ReplayConserves(s: State, txs: seq<L2Tx>, burned: nat)
    requires Replay(s, txs).Ok? && Conserved(s, burned)
    requires s.minted + MintTotal(txs) < U64_MAX
    ensures NeverClips(s, txs)
    ensures Conserved(Replay(s, txs).value, burned + BurnedTotal(txs, s.fee))
    ensures Replay(s, txs).value.minted == s.minted + MintTotal(txs)
    decreases |txs|
  {
    hide Apply, Conserved, Clips, MintAmount, BurnedBy;
    if txs != [] {
      ApplyConserves(s, txs[0], burned);
      ReplayConserves(Apply(s, txs[0]).value, txs[1..], burned + BurnedBy(txs[0], s.fee));
    }
  }

  lemma {:induction false} NothingBurned(txs: seq<L2Tx>, fee: Option<Address>)
    requires fee.Some?
    ensures BurnedTotal(txs, fee) == 0
    decreases |txs|
  {
    if txs != [] {
      NothingBurned(txs[1..], fee);
    }
  }

  lemma GenesisConserved(fee: Option<Address>)
    ensures Conserved(Genesis(fee), 0)
  {
  }

  /** Conservation over any run from genesis, while the true sum of the mints stays
      below 2^64 - 1: nothing is ever clipped, the mint counter is exact, and balances
      plus burned fees equal it; with a fee address nothing is burned. */
  lemma Conservation(fee: Option<Address>, txs: seq<L2Tx>)
    requires Replay(Genesis(fee), txs).Ok? && MintTotal(txs) < U64_MAX
    ensures var s := Replay(Genesis(fee), txs).value;
            && NeverClips(Genesis(fee), txs)
            && s.minted == MintTotal(txs)
            && Total(s.accounts) + BurnedTotal(txs, fee) == s.minted
            && (fee.Some? ==> Total(s.accounts) == s.minted)
  {
    hide Replay, MintTotal, NeverClips, BurnedTotal, Total;
    GenesisConserved(fee);
    ReplayConserves(Genesis(fee), txs, 0);
    if fee.Some? {
      NothingBurned(txs, fee);
    }
  }

  // ---------- exactly when the books balance ----------

  /** Every transaction of the run meets the condition on the ledger it is applied to. */
  ghost predicate AllKeepBooks(s: State, txs: seq<L2Tx>)
    requires Replay(s, txs).Ok?
    decreases |txs|
  {
    txs == [] || (KeepsBooks(s, txs[0]) && AllKeepBooks(Apply(s, txs[0]).value, txs[1..]))
  }

  /** The ledger is conserved before and after every transaction of the run. */
  ghost predicate BooksBalance(s: State, txs: seq<L2Tx>, burned: nat)
    requires Replay(s, txs).Ok?
    decreases |txs|
  {
    && Conserved(s, burned)
    && (txs != [] ==> BooksBalance(Apply(s, txs[0]).value, txs[1..], burned + BurnedBy(txs[0], s.fee)))
  }

  /** A run is conserved throughout exactly if each of its transactions keeps the books. */
  lemma {:induction false} BooksBalanceIff(s: State, txs: seq<L2Tx>, burned: nat)
    requires Replay(s, txs).Ok? && Conserved(s, burned)
    ensures BooksBalance(s, txs, burned) <==> AllKeepBooks(s, txs)
    decreases |txs|
  {
    hide Apply, Conserved, KeepsBooks, BurnedBy;
    if txs != [] {
      ApplyConservesIff(s, txs[0], burned);
      var s', burned' := Apply(s, txs[0]).value, burned + BurnedBy(txs[0], s.fee);
      if Conserved(s', burned') {
        BooksBalanceIff(s', txs[1..], burned');
      } else {
        assert !BooksBalance(s', txs[1..], burned');
      }
    }
  }

  predicate AllCostsFit(txs: seq<L2Tx>) {
    forall tx :: tx in txs && tx.Transfer? ==> CostFits(tx.transfer)
  }

  /** A run never clips exactly if its mints and each single cost are 64-bit numbers: a
      condition on the transaction list alone. The mint counter is then exact and the run
      conserved. */
  lemma {:induction false} NeverClipsIff(s: State, txs: seq<L2Tx>, burned: nat)
    requires Replay(s, txs).Ok? && Conserved(s, burned)
    ensures NeverClips(s, txs) <==> s.minted + MintTotal(txs) <= U64_MAX && AllCostsFit(txs)
    ensures NeverClips(s, txs) ==>
      && BooksBalance(s, txs, burned)
      && Conserved(Replay(s, txs).value, burned + BurnedTotal(txs, s.fee))
      && Replay(s, txs).value.minted == s.minted + MintTotal(txs)
    decreases |txs|
  {
    hide Apply, Conserved, Clips, MintAmount, BurnedBy, KeepsBooks, CostFits;
    if txs != [] {
      ApplyConservesIff(s, txs[0], burned);
      assert forall tx :: tx in txs <==> tx == txs[0] || tx in txs[1..];
      if !Clips(s, txs[0]) {
        NeverClipsIff(Apply(s, txs[0]).value, txs[1..], burned + BurnedBy(txs[0], s.fee));
      } else if txs[0].Transfer? && !CostFits(txs[0].transfer) {
        assert txs[0] in txs;
      }
    }
  }

  lemma {:induction false} BurnsWithTransfers(txs: seq<L2Tx>)
    ensures BurnedTotal(txs, None) == 0 <==> forall tx :: tx in txs ==> tx.Mint?
    decreases |txs|
  {
    hide FeeFor;
    if txs != [] {
      BurnsWithTransfers(txs[1..]);
      assert forall tx :: tx in txs <==> tx == txs[0] || tx in txs[1..];
      assert txs[0] in txs;
      assert BurnedBy(txs[0], None) == 0 <==> txs[0].Mint?;
    }
  }

  /** The mint counter is the total supply exactly if the chain has a fee address or has
      seen no transfer. */
  lemma CounterIsSupplyIff(fee: Option<Address>, txs: seq<L2Tx>)
    requires Replay(Genesis(fee), txs).Ok? && MintTotal(txs) < U64_MAX
    ensures var s := Replay(Genesis(fee), txs).value;
            Total(s.accounts) == s.minted <==> fee.Some? || forall tx :: tx in txs ==> tx.Mint?
  {
    hide Replay, MintTotal, NeverClips, BurnedTotal, Total;
    Conservation(fee, txs);
    if fee.None? {
      BurnsWithTransfers(txs);
    }
  }

  // ---------- inputs that fail ----------

  /** A first mint of `minted` atoms, and a transfer of `amount` of them. */
  function MintThenSend(entry: MintEntry, t: SignedTransfer): seq<L2Tx> { [Mint(entry), Transfer(t)] }

  lemma MintThenSendReplay(fee: Option<Address>, entry: MintEntry, t: SignedTransfer)
    requires entry.event.amount > 0 && t.body.sender == entry.event.destination
    ensures var s := State(map[entry.event.destination := Account(entry.event.amount, 0)],
                           {entry.event.nullifierHex}, entry.event.amount, fee);
            && Replay(Genesis(fee), MintThenSend(entry, t)) == ApplyTransfer(s, t)
            && Total(s.accounts) == entry.event.amount
            && Conserved(s, 0)
  {
    hide ApplyTransfer;
    var s := State(map[entry.event.destination := Account(entry.event.amount, 0)],
                   {entry.event.nullifierHex}, entry.event.amount, fee);
    var txs := MintThenSend(entry, t);
    assert txs[1..] == [Transfer(t)] && txs[1..][1..] == [];
    var minted := ApplyMint(Genesis(fee), entry.event).value;
    assert minted.accounts == s.accounts && minted.nullifiers == s.nullifiers;
    assert Apply(Genesis(fee), txs[0]) == Ok(s);
    assert Replay(s, [Transfer(t)]) == ApplyTransfer(s, t) by {
      ReplayOne(s, Transfer(t));
    }
    var none: Accounts := map[];
    assert s.accounts == none[entry.event.destination := Account(entry.event.amount, 0)];
    TotalPut(none, entry.event.destination, Account(entry.event.amount, 0));
  }

  lemma ReplayOne(s: State, tx: L2Tx)
    ensures Replay(s, [tx]) == Apply(s, tx)
  {
    hide Apply;
    assert [tx][1..] == [];
  }

  /** From genesis, a mint of 2^64 - 1 atoms and a transfer of all of them: amount plus fee
      clips to the balance, the transfer is accepted, and the collector's fee comes out of
      nothing. One atom less and conservation holds. */
  lemma ConservationFailsAtBound(entry: MintEntry, other: Address, collector: Address, sig: Signature)
    requires var holder := entry.event.destination;
             && holder != other && collector != other && entry.event.amount == U64_MAX
             && SchnorrVerifies(holder, TransferSighash(TransferBody(holder, other, U64_MAX, 0)), sig)
    ensures var t := SignedTransfer(TransferBody(entry.event.destination, other, U64_MAX, 0), sig);
            var txs := MintThenSend(entry, t);
            && MintTotal(txs) == U64_MAX
            && Replay(Genesis(Some(collector)), txs).Ok?
            && !BooksBalance(Genesis(Some(collector)), txs, 0)
            && !Conserved(Replay(Genesis(Some(collector)), txs).value, BurnedTotal(txs, Some(collector)))
  {
    hide Hash, Total, Conserved, MoveFunds;
    var t := SignedTransfer(TransferBody(entry.event.destination, other, U64_MAX, 0), sig);
    var txs := MintThenSend(entry, t);
    var fee := Some(collector);
    var s := State(map[entry.event.destination := Account(U64_MAX, 0)], {entry.event.nullifierHex}, U64_MAX, fee);
    MintThenSendReplay(fee, entry, t);
    assert FeeFor(U64_MAX) == 1_844_674_407_370_955;
    TransferConservesIff(s, t, 0);
    NothingBurned(txs, fee);
    assert txs[1..] == [Transfer(t)] && txs[1..][1..] == [];
    assert MintTotal([Transfer(t)]) == 0;
    GenesisConserved(fee);
    assert ApplyMint(Genesis(fee), entry.event).value == s;
    assert !AllKeepBooks(Genesis(fee), txs);
    BooksBalanceIff(Genesis(fee), txs, 0);
  }

  /** Without a fee address, 1000 minted atoms of which 500 are sent leave a supply of 900. */
  lemma BurnedFeeLowersSupply(entry: MintEntry, other: Address, sig: Signature)
    requires var holder := entry.event.destination;
             && holder != other && entry.event.amount == 1000
             && SchnorrVerifies(holder, TransferSighash(TransferBody(holder, other, 500, 0)), sig)
    ensures var t := SignedTransfer(TransferBody(entry.event.destination, other, 500, 0), sig);
            var r := Replay(Genesis(None), MintThenSend(entry, t));
            r.Ok? && r.value.minted == 1000 && Total(r.value.accounts) == 900
  {
    hide Hash, Total, MoveFunds;
    var t := SignedTransfer(TransferBody(entry.event.destination, other, 500, 0), sig);
    var s := State(map[entry.event.destination := Account(1000, 0)], {entry.event.nullifierHex}, 1000, None);
    MintThenSendReplay(None, entry, t);
    assert FeeFor(500) == 100;
    TransferConservesIff(s, t, 0);
  }

  // ---------- nonces ----------

  function Sent(tx: L2Tx, a: Address): nat {
    if tx.Transfer? && tx.transfer.body.sender == a then 1 else 0
  }

  /** Number of transfers sent by `a`. */
  function SentTotal(txs: seq<L2Tx>, a: Address): nat
    decreases |txs|
  {
    if txs == [] then 0 else Sent(txs[0], a) + SentTotal(txs[1..], a)
  }

  function NonceOf(s: State, a: Address): u64 { AccountOf(s.accounts, a).nonce }

  lemma ApplyNonce(s: State, tx: L2Tx, a: Address)
    requires Apply(s, tx).Ok?
    ensures NonceOf(Apply(s, tx).value, a) == if Sent(tx, a) == 1 then NextNonce(NonceOf(s, a)) else NonceOf(s, a)
    ensures Sent(tx, a) == 1 ==> tx.transfer.body.nonce == NonceOf(s, a)
  {
    hide FeeFor, Hash, SaturatingAdd, NextNonce;
  }

  const NONCES: int := 0x1_0000_0000_0000_0000

  lemma {:induction false} ReplayNonce(s: State, txs: seq<L2Tx>, a: Address)
    requires Replay(s, txs).Ok?
    ensures NonceOf(Replay(s, txs).value, a) == (NonceOf(s, a) + SentTotal(txs, a)) % NONCES
    decreases |txs|
  {
    hide Apply, NonceOf, Sent;
    if txs != [] {
      ApplyNonce(s, txs[0], a);
      SentOnce(txs[0], a);
      ReplayNonce(Apply(s, txs[0]).value, txs[1..], a);
    }
  }

  lemma SentOnce(tx: L2Tx, a: Address)
    ensures Sent(tx, a) == 0 || Sent(tx, a) == 1
  {
  }

  /** From genesis the nonce of an address counts its transfers, round by round of 2^64. */
  lemma NonceCountsTransfers(fee: Option<Address>, txs: seq<L2Tx>, a: Address)
    requires Replay(Genesis(fee), txs).Ok?
    ensures NonceOf(Replay(Genesis(fee), txs).value, a) == SentTotal(txs, a) % NONCES
    ensures NonceOf(Replay(Genesis(fee), txs).value, a) == SentTotal(txs, a) <==> SentTotal(txs, a) <= U64_MAX
  {
    hide Replay;
    ReplayNonce(Genesis(fee), txs, a);
  }

  lemma {:induction false} SentConcat(xs: seq<L2Tx>, ys: seq<L2Tx>, a: Address)
    ensures SentTotal(xs + ys, a) == SentTotal(xs, a) + SentTotal(ys, a)
    decreases |xs|
  {
    if xs == [] {
      assert xs + ys == ys;
    } else {
      assert (xs + ys)[1..] == xs[1..] + ys;
      SentConcat(xs[1..], ys, a);
    }
  }

  /** A transfer that takes effect does so at the place its nonce names. */
  lemma TransferPlace(fee: Option<Address>, txs: seq<L2Tx>, i: nat)
    requires Replay(Genesis(fee), txs).Ok? && i < |txs| && txs[i].Transfer?
    ensures txs[i].transfer.body.nonce == SentTotal(txs[..i], txs[i].transfer.body.sender) % NONCES
  {
    hide Apply, NonceOf;
    var a := txs[i].transfer.body.sender;
    assert txs == txs[..i] + txs[i..];
    ReplayConcat(Genesis(fee), txs[..i], txs[i..]);
    NonceCountsTransfers(fee, txs[..i], a);
    ApplyNonce(Replay(Genesis(fee), txs[..i]).value, txs[i], a);
  }

  /** No signed transfer body takes effect twice in a run, short of its sender going through
      all 2^64 nonces in between. */
  lemma NoTransferReplayed(fee: Option<Address>, txs: seq<L2Tx>, i: nat, j: nat)
    requires Replay(Genesis(fee), txs).Ok? && i < j < |txs|
    requires txs[i].Transfer? && txs[j].Transfer?
    ensures txs[i].transfer.body == txs[j].transfer.body ==>
      SentTotal(txs[i..j], txs[i].transfer.body.sender) >= NONCES
  {
    hide Replay;
    var a := txs[i].transfer.body.sender;
    if txs[j].transfer.body == txs[i].transfer.body {
      TransferPlace(fee, txs, i);
      TransferPlace(fee, txs, j);
      assert txs[..j] == txs[..i] + txs[i..j];
      SentConcat(txs[..i], txs[i..j], a);
      assert txs[i..j][0] == txs[i];
      assert SentTotal(txs[i..j], a) > 0;
    }
  }

  // ---------- no stored account is empty ----------

  predicate NoEmptyAccount(m: Accounts) {
    forall a :: a in m ==> m[a] != Account(0, 0)
  }

  lemma CreditNonEmpty(m: Accounts, a: Address, amount: u64)
    requires NoEmptyAccount(m) && amount > 0
    ensures NoEmptyAccount(Credit(m, a, amount))
  {
  }

  lemma ApplyNonEmpty(s: State, tx: L2Tx)
    requires Apply(s, tx).Ok? && NoEmptyAccount(s.accounts)
    requires tx.Transfer? ==> NonceOf(s, tx.transfer.body.sender) < U64_MAX
    ensures NoEmptyAccount(Apply(s, tx).value.accounts)
  {
    hide Hash, Credit;
    match tx
    case Mint(e) => CreditNonEmpty(s.accounts, e.event.destination, e.event.amount);
    case Transfer(t) =>
      var b := t.body;
      var debited := Debit(s.accounts, b.sender, TransferCost(b));
      CreditNonEmpty(debited, b.recipient, b.amount);
      if s.fee.Some? {
        CreditNonEmpty(Credit(debited, b.recipient, b.amount), s.fee.value, FeeFor(b.amount));
      }
  }

  /** While no sender has used up its nonces, an absent leaf means exactly that balance
      and nonce are both zero. */
  lemma {:induction false} EmptyLeafMeansZero(fee: Option<Address>, txs: seq<L2Tx>, a: Address)
    requires Replay(Genesis(fee), txs).Ok?
    requires forall b :: SentTotal(txs, b) <= U64_MAX
    ensures NoEmptyAccount(Replay(Genesis(fee), txs).value.accounts)
    ensures var s := Replay(Genesis(fee), txs).value;
            LeafOf(s.accounts, a).Empty? <==> AccountOf(s.accounts, a) == Account(0, 0)
    decreases |txs|
  {
    hide Apply, NonceOf;
    if txs != [] {
      var n := |txs| - 1;
      var init, last := txs[..n], txs[n];
      assert txs == init + [last];
      ReplayConcat(Genesis(fee), init, [last]);
      forall b
        ensures SentTotal(init, b) + Sent(last, b) == SentTotal(txs, b)
      {
        SentConcat(init, [last], b);
        assert [last][1..] == [];
      }
      EmptyLeafMeansZero(fee, init, a);
      ReplaySnoc(Genesis(fee), init, last);
      if last.Transfer? {
        var b := last.transfer.body.sender;
        assert SentTotal(init, b) + Sent(last, b) == SentTotal(txs, b);
        NonceCountsTransfers(fee, init, b);
      }
      ApplyNonEmpty(Replay(Genesis(fee), init).value, last);
    }
  }
}
