/** The account ledger: applying transactions, its state root, and what every
    transaction leaves alone. */
module Ledger {
  import opened Primitives
  import opened Types
  import opened Crypto
  import opened Messages
  import opened SparseMerkle

  const FEE_BPS: u64 := 1
  const MIN_FEE: u64 := 100

  datatype State = State(
    accounts: Accounts,
    nullifiers: set<Bytes>,
    minted: u64,
    fee: Option<Address>)

  datatype ApplyError =
    | DoubleMint
    | BadSignature
    | BadNonce(expected: u64, got: u64)
    | InsufficientBalance
    | SelfTransfer
    | ZeroAmount

  function Genesis(fee: Option<Address>): State { State(map[], {}, 0, fee) }

  function AccountOf(m: Accounts, a: Address): Account {
    if a in m then m[a] else Account(0, 0)
  }

  function SaturatingMul(a: u64, b: u64): u64 {
    if a * b <= U64_MAX then a * b else U64_MAX
  }

  function FeeFor(amount: u64): (fee: u64)
    ensures fee >= MIN_FEE
    ensures amount <= 1_009_999 ==> fee == 100
    ensures amount >= 1_000_000 ==> 10_000 * fee <= amount < 10_000 * (fee + 1)
  {
    var scaled := SaturatingMul(amount, FEE_BPS) / 10_000;
    if scaled > MIN_FEE then scaled else MIN_FEE
  }

  function Credit(m: Accounts, a: Address, amount: u64): Accounts {
    var acct := AccountOf(m, a);
    m[a := acct.(balance := SaturatingAdd(acct.balance, amount))]
  }

  /** Nonces are 64-bit and wrap in a release build. */
  function NextNonce(n: u64): u64 { (n + 1) % 0x1_0000_0000_0000_0000 }

  function Debit(m: Accounts, a: Address, total: u64): Accounts
    requires AccountOf(m, a).balance >= total
  {
    var acct := AccountOf(m, a);
    m[a := Account(acct.balance - total, NextNonce(acct.nonce))]
  }

  // ---------- one transaction ----------

  function ApplyMint(s: State, ev: MintEvent): Result<State, ApplyError> {
    if ev.amount == 0 then Err(ZeroAmount)
    else if ev.nullifierHex in s.nullifiers then Err(DoubleMint)
    else Ok(s.(nullifiers := s.nullifiers + {ev.nullifierHex},
               accounts := Credit(s.accounts, ev.destination, ev.amount),
               minted := SaturatingAdd(s.minted, ev.amount)))
  }

  function TransferCost(b: TransferBody): u64 { SaturatingAdd(b.amount, FeeFor(b.amount)) }

  function TransferCheck(s: State, t: SignedTransfer): Option<ApplyError> {
    var b := t.body;
    var acct := AccountOf(s.accounts, b.sender);
    if b.amount == 0 then Some(ZeroAmount)
    else if b.sender == b.recipient then Some(SelfTransfer)
    else if b.nonce != acct.nonce then Some(BadNonce(acct.nonce, b.nonce))
    else if !SchnorrVerifies(b.sender, TransferSighash(b), t.signature) then Some(BadSignature)
    else if acct.balance < TransferCost(b) then Some(InsufficientBalance)
    else None
  }

  function MoveFunds(m: Accounts, b: TransferBody, fee: Option<Address>): Accounts
    requires AccountOf(m, b.sender).balance >= TransferCost(b)
  {
    var paid := Credit(Debit(m, b.sender, TransferCost(b)), b.recipient, b.amount);
    if fee.Some? then Credit(paid, fee.value, FeeFor(b.amount)) else paid
  }

  function ApplyTransfer(s: State, t: SignedTransfer): Result<State, ApplyError> {
    var e := TransferCheck(s, t);
    if e.Some? then Err(e.value) else Ok(s.(accounts := MoveFunds(s.accounts, t.body, s.fee)))
  }

  function Apply(s: State, tx: L2Tx): Result<State, ApplyError> {
    match tx
    case Mint(e) => ApplyMint(s, e.event)
    case Transfer(t) => ApplyTransfer(s, t)
  }

  /** All of `txs` in order, stopping at the first failure. */
  function Replay(s: State, txs: seq<L2Tx>): Result<State, ApplyError>
    decreases |txs|
  {
    if txs == [] then Ok(s)
    else match Apply(s, txs[0])
      case Ok(s') => Replay(s', txs[1..])
      case Err(e) => Err(e)
  }

  lemma {:induction false} ReplayConcat(s: State, xs: seq<L2Tx>, ys: seq<L2Tx>)
    ensures Replay(s, xs + ys) == if Replay(s, xs).Ok? then Replay(Replay(s, xs).value, ys) else Replay(s, xs)
    decreases |xs|
  {
    hide Apply;
    if xs == [] {
      assert xs + ys == ys;
    } else {
      assert (xs + ys)[1..] == xs[1..] + ys;
      if Apply(s, xs[0]).Ok? {
        ReplayConcat(Apply(s, xs[0]).value, xs[1..], ys);
      }
    }
  }

  lemma ReplaySnoc(s: State, xs: seq<L2Tx>, tx: L2Tx)
    requires Replay(s, xs).Ok?
    ensures Replay(s, xs + [tx]) == Apply(Replay(s, xs).value, tx)
  {
    hide Apply;
    ReplayConcat(s, xs, [tx]);
    assert [tx][1..] == [];
  }

  // ---------- state root ----------

  function NullifiersHash(ns: set<Bytes>): Digest { Hash(NullifiersMsg(ns)) }

  function StateMsgOf(s: State): Msg {
    StateMsg(AccountsRoot(s.accounts), NullifiersHash(s.nullifiers), s.fee)
  }

  function StateRoot(s: State): Digest { Hash(StateMsgOf(s)) }

  /** The part of a state that its root commits to: all but the mint counter. */
  predicate SameCommitted(s: State, t: State) {
    s.accounts == t.accounts && s.nullifiers == t.nullifiers && s.fee == t.fee
  }

  ghost function StateMsgs(s: State): set<Msg> {
    {StateMsgOf(s), NullifiersMsg(s.nullifiers)} + RootMsgs(s.accounts, 0)
  }

  /** The state root determines accounts, nullifiers and fee address. */
  lemma StateRootBinds(sent: set<Msg>, s: State, t: State)
    requires !CollisionIn(sent) && StateMsgs(s) + StateMsgs(t) <= sent
    requires ProperNullifiers(s.nullifiers) && ProperNullifiers(t.nullifiers)
    requires StateRoot(s) == StateRoot(t)
    ensures SameCommitted(s, t)
  {
    hide AccountsRoot, RootMsgs, Root, Hash;
    Bind(sent, StateMsgOf(s), StateMsgOf(t));
    Bind(sent, NullifiersMsg(s.nullifiers), NullifiersMsg(t.nullifiers));
    RootCommits(s.accounts, t.accounts);
    CollisionMonotone(RootMsgs(s.accounts, 0) + RootMsgs(t.accounts, 0), sent);
  }

  // ---------- which accounts a transaction touches ----------

  function TouchedByTx(tx: L2Tx, fee: Option<Address>): set<Address> {
    match tx
    case Mint(e) => {e.event.destination}
    case Transfer(t) => {t.body.sender, t.body.recipient} + if fee.Some? then {fee.value} else {}
  }

  function TouchedByAll(txs: seq<L2Tx>, fee: Option<Address>): set<Address>
    decreases |txs|
  {
    if txs == [] then {} else TouchedByTx(txs[0], fee) + TouchedByAll(txs[1..], fee)
  }

  /** The two states look alike to any transaction that touches only `only`. */
  predicate Agree(s: State, t: State, only: set<Address>) {
    && s.nullifiers == t.nullifiers && s.fee == t.fee
    && forall a :: a in only ==> LeafOf(s.accounts, a) == LeafOf(t.accounts, a)
  }

  lemma ApplyFrame(s: State, tx: L2Tx)
    requires Apply(s, tx).Ok?
    ensures Apply(s, tx).value.fee == s.fee
    ensures forall a :: a !in TouchedByTx(tx, s.fee) ==> LeafOf(Apply(s, tx).value.accounts, a) == LeafOf(s.accounts, a)
  {
    hide SaturatingMul, FeeFor;
  }

  /** A block changes no account outside its touched set. */
  lemma {:induction false} ReplayFrame(s: State, txs: seq<L2Tx>)
    requires Replay(s, txs).Ok?
    ensures Replay(s, txs).value.fee == s.fee
    ensures forall a :: a !in TouchedByAll(txs, s.fee) ==>
      LeafOf(Replay(s, txs).value.accounts, a) == LeafOf(s.accounts, a)
    decreases |txs|
  {
    hide Apply, TouchedByTx;
    if txs != [] {
      ApplyFrame(s, txs[0]);
      ReplayFrame(Apply(s, txs[0]).value, txs[1..]);
    }
  }

  lemma CreditLocal(m: Accounts, n: Accounts, a: Address, amount: u64, only: set<Address>)
    requires a in only && forall b :: b in only ==> LeafOf(m, b) == LeafOf(n, b)
    ensures forall b :: b in only ==> LeafOf(Credit(m, a, amount), b) == LeafOf(Credit(n, a, amount), b)
  {
    AccountFromLeaf(m, n, a);
  }

  lemma AccountFromLeaf(m: Accounts, n: Accounts, a: Address)
    requires LeafOf(m, a) == LeafOf(n, a)
    ensures AccountOf(m, a) == AccountOf(n, a)
  {
  }

  lemma MoveFundsLocal(m: Accounts, n: Accounts, b: TransferBody, fee: Option<Address>, only: set<Address>)
    requires b.sender in only && b.recipient in only && (fee.Some? ==> fee.value in only)
    requires forall a :: a in only ==> LeafOf(m, a) == LeafOf(n, a)
    requires AccountOf(m, b.sender).balance >= TransferCost(b)
    ensures AccountOf(n, b.sender) == AccountOf(m, b.sender)
    ensures forall a :: a in only ==> LeafOf(MoveFunds(m, b, fee), a) == LeafOf(MoveFunds(n, b, fee), a)
  {
    hide TransferCost, FeeFor, SaturatingAdd, Credit;
    AccountFromLeaf(m, n, b.sender);
    var m1, n1 := Debit(m, b.sender, TransferCost(b)), Debit(n, b.sender, TransferCost(b));
    CreditLocal(m1, n1, b.recipient, b.amount, only);
    if fee.Some? {
      var m2, n2 := Credit(m1, b.recipient, b.amount), Credit(n1, b.recipient, b.amount);
      CreditLocal(m2, n2, fee.value, FeeFor(b.amount), only);
    }
  }

  /** Success, error and effect depend only on the touched accounts, the nullifiers
      and the fee address. */
  lemma ApplyLocal(s: State, t: State, tx: L2Tx, only: set<Address>)
    requires Agree(s, t, only) && TouchedByTx(tx, s.fee) <= only
    ensures Apply(s, tx).Ok? == Apply(t, tx).Ok?
    ensures Apply(s, tx).Err? ==> Apply(s, tx) == Apply(t, tx)
    ensures Apply(s, tx).Ok? ==> Agree(Apply(s, tx).value, Apply(t, tx).value, only)
    ensures Apply(s, tx).Ok? && s.minted == t.minted ==> Apply(s, tx).value.minted == Apply(t, tx).value.minted
  {
    hide Credit, MoveFunds, TransferCost, Hash, SaturatingAdd;
    match tx
    case Mint(e) =>
      CreditLocal(s.accounts, t.accounts, e.event.destination, e.event.amount, only);
    case Transfer(tr) =>
      AccountFromLeaf(s.accounts, t.accounts, tr.body.sender);
      if TransferCheck(s, tr).None? {
        MoveFundsLocal(s.accounts, t.accounts, tr.body, s.fee, only);
      }
  }

  lemma {:induction false} ReplayLocal(s: State, t: State, txs: seq<L2Tx>, only: set<Address>)
    requires Agree(s, t, only) && TouchedByAll(txs, s.fee) <= only
    ensures Replay(s, txs).Ok? == Replay(t, txs).Ok?
    ensures Replay(s, txs).Err? ==> Replay(s, txs) == Replay(t, txs)
    ensures Replay(s, txs).Ok? ==> Agree(Replay(s, txs).value, Replay(t, txs).value, only)
    ensures Replay(s, txs).Ok? && s.minted == t.minted ==> Replay(s, txs).value.minted == Replay(t, txs).value.minted
    decreases |txs|
  {
    hide Apply, TouchedByTx, LeafOf;
    if txs != [] {
      ApplyLocal(s, t, txs[0], only);
      if Apply(s, txs[0]).Ok? {
        ApplyFrame(s, txs[0]);
        ReplayLocal(Apply(s, txs[0]).value, Apply(t, txs[0]).value, txs[1..], only);
      }
    }
  }

  // ---------- building a block by dropping what fails ----------

  /** Tries each candidate on the running state and keeps those that apply. */
  function Included(s: State, candidates: seq<L2Tx>): seq<L2Tx>
    decreases |candidates|
  {
    if candidates == [] then []
    else match Apply(s, candidates[0])
      case Ok(s') => [candidates[0]] + Included(s', candidates[1..])
      case Err(_) => Included(s, candidates[1..])
  }

  function AfterDropping(s: State, candidates: seq<L2Tx>): State
    decreases |candidates|
  {
    if candidates == [] then s
    else match Apply(s, candidates[0])
      case Ok(s') => AfterDropping(s', candidates[1..])
      case Err(_) => AfterDropping(s, candidates[1..])
  }

  /** Dropping failures leaves exactly the state of a clean replay of the rest. */
  lemma {:induction false} DroppingIsReplay(s: State, candidates: seq<L2Tx>)
    ensures Replay(s, Included(s, candidates)) == Ok(AfterDropping(s, candidates))
    decreases |candidates|
  {
    hide Apply;
    if candidates != [] {
      match Apply(s, candidates[0])
      case Ok(s') =>
        DroppingIsReplay(s', candidates[1..]);
        assert ([candidates[0]] + Included(s', candidates[1..]))[1..] == Included(s', candidates[1..]);
      case Err(_) =>
        DroppingIsReplay(s, candidates[1..]);
    }
  }

  // ---------- the ledger object ----------

  class LedgerState {
    var accounts: Accounts
    var consumedNullifiers: set<Bytes>
    var totalMinted: u64
    var feeAddress: Option<Address>

    constructor (s: State)
      ensures Value() == s
    {
      accounts, consumedNullifiers, totalMinted, feeAddress := s.accounts, s.nullifiers, s.minted, s.fee;
    }

    function Value(): State
      reads this
    {
      State(accounts, consumedNullifiers, totalMinted, feeAddress)
    }

    method ApplyMintEntry(entry: MintEntry) returns (e: Option<ApplyError>)
      modifies this
      ensures e.None? ==> ApplyMint(old(Value()), entry.event) == Ok(Value())
      ensures e.Some? ==> ApplyMint(old(Value()), entry.event) == Err(e.value) && Value() == old(Value())
    {
      var ev := entry.event;
      if ev.amount == 0 {
        return Some(ZeroAmount);
      }
      if ev.nullifierHex in consumedNullifiers {
        return Some(DoubleMint);
      }
      consumedNullifiers := consumedNullifiers + {ev.nullifierHex};
      var acct := AccountOf(accounts, ev.destination);
      accounts := accounts[ev.destination := acct.(balance := SaturatingAdd(acct.balance, ev.amount))];
      totalMinted := SaturatingAdd(totalMinted, ev.amount);
      return None;
    }

    method ApplySignedTransfer(t: SignedTransfer) returns (e: Option<ApplyError>)
      modifies this
      ensures e.None? ==> ApplyTransfer(old(Value()), t) == Ok(Value())
      ensures e.Some? ==> ApplyTransfer(old(Value()), t) == Err(e.value) && Value() == old(Value())
    {
      hide SaturatingAdd, SaturatingMul, FeeFor, Hash;
      var b := t.body;
      if b.amount == 0 {
        return Some(ZeroAmount);
      }
      if b.sender == b.recipient {
        return Some(SelfTransfer);
      }
      var sender := AccountOf(accounts, b.sender);
      if b.nonce != sender.nonce {
        return Some(BadNonce(sender.nonce, b.nonce));
      }
      if !SchnorrVerifies(b.sender, TransferSighash(b), t.signature) {
        return Some(BadSignature);
      }
      var fee := FeeFor(b.amount);
      var total := SaturatingAdd(b.amount, fee);
      if sender.balance < total {
        return Some(InsufficientBalance);
      }
      accounts := accounts[b.sender := Account(sender.balance - total, NextNonce(sender.nonce))];
      var recipient := AccountOf(accounts, b.recipient);
      accounts := accounts[b.recipient := recipient.(balance := SaturatingAdd(recipient.balance, b.amount))];
      if feeAddress.Some? {
        var collector := AccountOf(accounts, feeAddress.value);
        accounts := accounts[feeAddress.value := collector.(balance := SaturatingAdd(collector.balance, fee))];
      }
      return None;
    }

    /** Changes the state only on success. */
    method ApplyTx(tx: L2Tx) returns (e: Option<ApplyError>)
      modifies this
      ensures e.None? ==> Apply(old(Value()), tx) == Ok(Value())
      ensures e.Some? ==> Apply(old(Value()), tx) == Err(e.value) && Value() == old(Value())
    {
      hide ApplyMint, ApplyTransfer;
      match tx
      case Mint(entry) => e := ApplyMintEntry(entry);
      case Transfer(t) => e := ApplySignedTransfer(t);
    }

    /** Applies a block body, stopping at the first failing transaction. */
    method ApplyAll(txs: seq<L2Tx>) returns (e: Option<ApplyError>)
      modifies this
      ensures e.None? ==> Replay(old(Value()), txs) == Ok(Value())
      ensures e.Some? ==> Replay(old(Value()), txs) == Err(e.value)
    {
      hide Apply;
      assert txs[0..] == txs;
      for i := 0 to |txs|
        invariant Replay(old(Value()), txs) == Replay(Value(), txs[i..])
      {
        assert txs[i..][1..] == txs[i + 1..];
        e := ApplyTx(txs[i]);
        if e.Some? {
          return;
        }
      }
      assert txs[|txs|..] == [];
      e := None;
    }

    /** Keeps the candidates that apply and drops the others. */
    method ApplyOrDrop(candidates: seq<L2Tx>) returns (txs: seq<L2Tx>)
      modifies this
      ensures txs == Included(old(Value()), candidates)
      ensures Value() == AfterDropping(old(Value()), candidates)
    {
      hide Apply;
      txs := [];
      assert candidates[0..] == candidates;
      for i := 0 to |candidates|
        invariant Included(old(Value()), candidates) == txs + Included(Value(), candidates[i..])
        invariant AfterDropping(old(Value()), candidates) == AfterDropping(Value(), candidates[i..])
      {
        assert candidates[i..][1..] == candidates[i + 1..];
        var e := ApplyTx(candidates[i]);
        if e.None? {
          txs := txs + [candidates[i]];
        }
      }
      assert candidates[|candidates|..] == [];
    }
  }
}
