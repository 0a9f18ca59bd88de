/** What the events of a walk tell: exactly the transactions that name the wallet, and exactly
    how its balance and nonce have changed. */
module Events {
  import opened Primitives
  import opened Types
  import opened Messages
  import opened Ledger
  import opened Supply
  import opened MintProof
  import opened Node
  import opened LightClient
  import opened Walk
  import opened Verdicts

  // ---------- which transactions are told ----------

  /** The event tells of this transaction of the block: money in if it names the wallet as
      recipient, out if it names it as sender, minted if it names it as destination, with the
      other party, the amount and the identity of that transaction. */
  predicate Tells(ev: TxEvent, tx: L2Tx, own: Address, height: u32, h: Header) {
    && ev.l2Height == height && ev.l1Height == h.l1Height && ev.blockTs == h.timestamp
    && match ev.kind
       case TransferIn(sender, amount, id) =>
         && tx.Transfer? && tx.transfer.body.recipient == own && tx.transfer.body.sender == sender
         && tx.transfer.body.amount == amount && Hash(TransferMsg(tx.transfer.body)) == id
       case TransferOut(recipient, amount, id) =>
         && tx.Transfer? && tx.transfer.body.sender == own && tx.transfer.body.recipient == recipient
         && tx.transfer.body.amount == amount && Hash(TransferMsg(tx.transfer.body)) == id
       case MintIn(amount, nullifier) =>
         && tx.Mint? && tx.entry.event.destination == own
         && tx.entry.event.amount == amount && tx.entry.event.nullifierHex == nullifier
  }

  lemma OneTold(ev: TxEvent, tx: L2Tx, own: Address, height: u32, h: Header)
    ensures ev in EventsOfTx(own, height, h, tx) <==> Tells(ev, tx, own, height, h)
  {
    hide Hash;
  }

  /** An event is listed for a block exactly if some transaction of it is so told. */
  lemma {:induction false} BlockTold(ev: TxEvent, own: Address, height: u32, h: Header, txs: seq<L2Tx>)
    ensures ev in EventsOf(own, height, h, txs) <==> exists tx :: tx in txs && Tells(ev, tx, own, height, h)
    decreases |txs|
  {
    hide Tells, EventsOfTx;
    if txs != [] {
      OneTold(ev, txs[0], own, height, h);
      BlockTold(ev, own, height, h, txs[1..]);
      assert forall tx :: tx in txs <==> tx == txs[0] || tx in txs[1..];
    }
  }

  /** All blocks above `lo` up to `hi` are there. */
  predicate Complete(blocks: BlockSource, lo: nat, hi: nat) {
    forall k :: lo < k <= hi ==> k in blocks
  }

  predicate BlockTells(ev: TxEvent, own: Address, blocks: BlockSource, k: nat) {
    k in blocks && exists tx :: tx in blocks[k].txs && Tells(ev, tx, own, k, blocks[k].header)
  }

  lemma BlockToldAt(ev: TxEvent, own: Address, blocks: BlockSource, k: u32)
    requires k in blocks
    ensures ev in EventsOf(own, k, blocks[k].header, blocks[k].txs) <==> BlockTells(ev, own, blocks, k)
  {
    hide Tells, EventsOf;
    BlockTold(ev, own, k, blocks[k].header, blocks[k].txs);
  }

  /** So is a walk over any number of blocks. */
  lemma {:induction false} WalkTold(ev: TxEvent, own: Address, blocks: BlockSource, lo: nat, hi: nat)
    requires Complete(blocks, lo, hi)
    ensures ev in EventsBetween(own, blocks, lo, hi) <==> exists k :: lo < k <= hi && BlockTells(ev, own, blocks, k)
    decreases hi
  {
    hide BlockTells, EventsOf;
    if lo < hi {
      assert hi in blocks;
      WalkTold(ev, own, blocks, lo, hi - 1);
      BlockToldAt(ev, own, blocks, hi);
      var early, late := EventsBetween(own, blocks, lo, hi - 1), EventsOf(own, hi, blocks[hi].header, blocks[hi].txs);
      assert ev in early + late <==> ev in early || ev in late;
    }
  }

  // ---------- what they add up to ----------

  function Received(events: seq<TxEvent>): nat {
    if events == [] then 0
    else
      (match events[0].kind
       case TransferIn(_, amount, _) => amount
       case MintIn(amount, _) => amount
       case TransferOut(_, _, _) => 0) + Received(events[1..])
  }

  function Paid(events: seq<TxEvent>): nat {
    if events == [] then 0
    else
      (match events[0].kind
       case TransferOut(_, amount, _) => amount + PlainFee(amount)
       case _ => 0) + Paid(events[1..])
  }

  function SentCount(events: seq<TxEvent>): nat {
    if events == [] then 0 else (if events[0].kind.TransferOut? then 1 else 0) + SentCount(events[1..])
  }

  /** The fees of all transfers of a list. */
  function FeesOf(txs: seq<L2Tx>): nat
    decreases |txs|
  {
    if txs == [] then 0
    else (if txs[0].Transfer? then PlainFee(txs[0].transfer.body.amount) else 0) + FeesOf(txs[1..])
  }

  lemma {:induction false} SumsConcat(xs: seq<TxEvent>, ys: seq<TxEvent>)
    ensures Received(xs + ys) == Received(xs) + Received(ys)
    ensures Paid(xs + ys) == Paid(xs) + Paid(ys)
    ensures SentCount(xs + ys) == SentCount(xs) + SentCount(ys)
  {
    hide PlainFee;
    if xs == [] {
      assert xs + ys == ys;
    } else {
      assert (xs + ys)[0] == xs[0] && (xs + ys)[1..] == xs[1..] + ys;
      SumsConcat(xs[1..], ys);
    }
  }

  lemma {:induction false} FeesConcat(xs: seq<L2Tx>, ys: seq<L2Tx>)
    ensures FeesOf(xs + ys) == FeesOf(xs) + FeesOf(ys)
    decreases |xs|
  {
    hide PlainFee;
    if xs == [] {
      assert xs + ys == ys;
    } else {
      assert (xs + ys)[0] == xs[0] && (xs + ys)[1..] == xs[1..] + ys;
      FeesConcat(xs[1..], ys);
    }
  }

  lemma {:induction false} ClipsConcat(s: State, xs: seq<L2Tx>, ys: seq<L2Tx>)
    requires Replay(s, xs + ys).Ok? && Replay(s, xs).Ok? && Replay(Replay(s, xs).value, ys).Ok?
    ensures NeverClips(s, xs + ys) <==> NeverClips(s, xs) && NeverClips(Replay(s, xs).value, ys)
    decreases |xs|
  {
    hide Apply, Clips;
    if xs == [] {
      assert xs + ys == ys;
    } else {
      assert (xs + ys)[0] == xs[0] && (xs + ys)[1..] == xs[1..] + ys;
      ClipsConcat(Apply(s, xs[0]).value, xs[1..], ys);
    }
  }

  /** The events account for the own balance and nonce between two ledgers; a wallet that
      collects the fees gains all of them on top. */
  ghost predicate Accounts(own: Address, s: State, s': State, events: seq<TxEvent>, txs: seq<L2Tx>) {
    var before, after := AccountOf(s.accounts, own), AccountOf(s'.accounts, own);
    && after.balance + Paid(events)
       == before.balance + Received(events) + (if s.fee == Some(own) then FeesOf(txs) else 0)
    && after.nonce == (before.nonce + SentCount(events)) % 0x1_0000_0000_0000_0000
    && s'.fee == s.fee
  }

  lemma OneEvent(ev: TxEvent)
    ensures Received([]) == 0 && Paid([]) == 0 && SentCount([]) == 0
    ensures Received([ev]) == match ev.kind
                              case TransferIn(_, amount, _) => amount
                              case MintIn(amount, _) => amount
                              case TransferOut(_, _, _) => 0
    ensures Paid([ev]) == if ev.kind.TransferOut? then ev.kind.amountOut + PlainFee(ev.kind.amountOut) else 0
    ensures SentCount([ev]) == if ev.kind.TransferOut? then 1 else 0
  {
    hide PlainFee;
    assert [ev][1..] == [];
  }

  lemma OneFee(tx: L2Tx)
    ensures FeesOf([tx]) == if tx.Transfer? then PlainFee(tx.transfer.body.amount) else 0
  {
    hide PlainFee;
    assert [tx][1..] == [];
  }

  lemma OneAccounts(own: Address, height: u32, h: Header, s: State, tx: L2Tx)
    requires Apply(s, tx).Ok? && !Clips(s, tx)
    ensures Accounts(own, s, Apply(s, tx).value, EventsOfTx(own, height, h, tx), [tx])
  {
    hide Hash, Clips, ApplyTransfer, ApplyMint, FeeFor, AccountOf;
    var events := EventsOfTx(own, height, h, tx);
    if events != [] {
      OneEvent(events[0]);
      assert |events| == 1 ==> events == [events[0]];
    }
    OneFee(tx);
    match tx
    case Mint(e) =>
      MintEffect(s, e, own);
    case Transfer(t) =>
      TransferEffect(s, t, own);
      assert |events| <= 1;
  }

  lemma AccountsConcat(own: Address, a: State, b: State, c: State, xs: seq<TxEvent>, ys: seq<TxEvent>,
                       ts: seq<L2Tx>, us: seq<L2Tx>)
    requires Accounts(own, a, b, xs, ts) && Accounts(own, b, c, ys, us)
    ensures Accounts(own, a, c, xs + ys, ts + us)
  {
    hide Received, Paid, SentCount, FeesOf, AccountOf;
    SumsConcat(xs, ys);
    FeesConcat(ts, us);
  }

  lemma AccountsNothing(own: Address, s: State)
    ensures Accounts(own, s, s, [], [])
  {
  }

  /** For one block on which nothing clips. */
  lemma {:induction false} BlockAccounts(own: Address, height: u32, h: Header, s: State, txs: seq<L2Tx>)
    requires Replay(s, txs).Ok? && NeverClips(s, txs)
    ensures Accounts(own, s, Replay(s, txs).value, EventsOf(own, height, h, txs), txs)
    decreases |txs|
  {
    hide Apply, Clips, EventsOfTx, Accounts;
    if txs == [] {
      AccountsNothing(own, s);
    } else {
      var next := Apply(s, txs[0]).value;
      OneAccounts(own, height, h, s, txs[0]);
      BlockAccounts(own, height, h, next, txs[1..]);
      AccountsConcat(own, s, next, Replay(s, txs).value, EventsOfTx(own, height, h, txs[0]),
                     EventsOf(own, height, h, txs[1..]), [txs[0]], txs[1..]);
      assert txs == [txs[0]] + txs[1..];
    }
  }

  // ---------- over a walk ----------

  /** All transactions of the blocks above `lo`, up to `hi`. */
  function BodiesBetween(blocks: BlockSource, lo: nat, hi: nat): seq<L2Tx>
    decreases hi
  {
    if hi <= lo || hi !in blocks then [] else BodiesBetween(blocks, lo, hi - 1) + blocks[hi].txs
  }

  lemma {:induction false} BodiesSplit(blocks: BlockSource, lo: nat, mid: nat, hi: nat)
    requires lo <= mid <= hi && Complete(blocks, lo, hi)
    ensures BodiesBetween(blocks, lo, hi) == BodiesBetween(blocks, lo, mid) + BodiesBetween(blocks, mid, hi)
    decreases hi
  {
    if mid < hi {
      BodiesSplit(blocks, lo, mid, hi - 1);
    }
  }

  /** A batch that a node takes whole is a replay of its bodies. */
  lemma {:induction false} RangeReplays(n: NodeState, height: int, att: Attestation, source: BlockSource, view: L1View)
    requires 0 < height <= att.height + 1
    requires ApplyRange(n, height, att, source, view).1.None?
    ensures Complete(source, height - 1, att.height)
    ensures Replay(n.state, BodiesBetween(source, height - 1, att.height))
         == Ok(ApplyRange(n, height, att, source, view).0.state)
    ensures height <= att.height ==> ApplyRange(n, height, att, source, view).0.head.height == att.height
    ensures height > att.height ==> ApplyRange(n, height, att, source, view).0 == n
    decreases att.height + 1 - height
  {
    hide ApplyBlock, Replay, StateRoot, BodiesBetween;
    if height > att.height {
      NoBodies(n.state, source, att.height);
    } else {
      var end := if height == att.height then Some(att) else None;
      var next := ApplyBlock(n, height, source[height], end, view).value;
      BlockReplays(n, height, source[height], end, view);
      RangeReplays(next, height + 1, att, source, view);
      BodiesSplit(source, height - 1, height, att.height);
      OneBody(source, height);
      ReplayConcat(n.state, source[height].txs, BodiesBetween(source, height, att.height));
    }
  }

  lemma NoBodies(s: State, source: BlockSource, k: nat)
    ensures BodiesBetween(source, k, k) == [] && Replay(s, []) == Ok(s)
  {
  }

  lemma OneBody(source: BlockSource, height: nat)
    requires 0 < height && height in source
    ensures BodiesBetween(source, height - 1, height) == source[height].txs
  {
    assert BodiesBetween(source, height - 1, height - 1) == [];
  }

  lemma BlockReplays(n: NodeState, height: u32, block: Block, att: Option<Attestation>, view: L1View)
    requires ApplyBlock(n, height, block, att, view).Ok?
    ensures Replay(n.state, block.txs) == Ok(ApplyBlock(n, height, block, att, view).value.state)
    ensures ApplyBlock(n, height, block, att, view).value.head.height == height
  {
    hide Replay, StateRoot, HeaderHash, TxsRoot, VerifyMints;
  }

  /** So is any number of batches. */
  lemma {:induction false} FollowReplays(n: NodeState, atts: seq<Attestation>, source: BlockSource, view: L1View)
    requires Follow(n, atts, source, view).1.None?
    ensures var n' := Follow(n, atts, source, view).0;
            && n.head.height <= n'.head.height && Complete(source, n.head.height, n'.head.height)
            && Replay(n.state, BodiesBetween(source, n.head.height, n'.head.height)) == Ok(n'.state)
    decreases |atts|
  {
    hide ApplyRange, Replay, BodiesBetween;
    if atts == [] {
      NoBodies(n.state, source, n.head.height);
    } else {
      var mid := ProcessAttestation(n, atts[0], source, view).0;
      if atts[0].height > n.head.height {
        RangeReplays(n, n.head.height + 1, atts[0], source, view);
      }
      FollowReplays(mid, atts[1..], source, view);
      var n' := Follow(n, atts, source, view).0;
      if atts[0].height > n.head.height {
        BodiesSplit(source, n.head.height, mid.head.height, n'.head.height);
        ReplayConcat(n.state, BodiesBetween(source, n.head.height, mid.head.height),
                     BodiesBetween(source, mid.head.height, n'.head.height));
      }
    }
  }

  lemma {:induction false} RangeAccounts(own: Address, blocks: BlockSource, lo: nat, hi: nat, s: State)
    requires lo <= hi && Complete(blocks, lo, hi)
    requires Replay(s, BodiesBetween(blocks, lo, hi)).Ok? && NeverClips(s, BodiesBetween(blocks, lo, hi))
    ensures Accounts(own, s, Replay(s, BodiesBetween(blocks, lo, hi)).value,
                     EventsBetween(own, blocks, lo, hi), BodiesBetween(blocks, lo, hi))
    decreases hi
  {
    hide Replay, NeverClips, Accounts, EventsOf;
    if lo == hi {
      NoBodies(s, blocks, lo);
      AccountsNothing(own, s);
    } else {
      var early, block := BodiesBetween(blocks, lo, hi - 1), blocks[hi];
      ReplayConcat(s, early, block.txs);
      ClipsConcat(s, early, block.txs);
      RangeAccounts(own, blocks, lo, hi - 1, s);
      var mid := Replay(s, early).value;
      BlockAccounts(own, hi, block.header, mid, block.txs);
      AccountsConcat(own, s, mid, Replay(mid, block.txs).value, EventsBetween(own, blocks, lo, hi - 1),
                     EventsOf(own, hi, block.header, block.txs), early, block.txs);
    }
  }

  /** A walk shows what its events tell: on blocks that clip nothing, the balance shown after
      it is the one shown before, plus what came in, less what went out with its fees, and the
      nonce has risen by the transfers sent, or a collision was hashed. `WalkForward` returns
      these events. */
  lemma WalkShows(head: VerifiedHead, n: NodeState, steps: seq<ChainStep>, server: Server, view: L1View)
    requires Mirrors(head, n) && WalkAll(head, steps, server, view).Ok?
    ensures var r, own := WalkAll(head, steps, server, view).value, head.ownAddress;
            var events := EventsBetween(own, server.blocks, head.height, r.height);
            var txs := BodiesBetween(server.blocks, head.height, r.height);
            || CollisionIn(WalkMsgs(n, steps, server, view))
            || (&& Complete(server.blocks, head.height, r.height) && Replay(n.state, txs).Ok? && r.ownAddress == own
                && (NeverClips(n.state, txs) ==>
                     var (before, nonce) := BalanceFrom(head, own);
                     var (after, nonce') := BalanceFrom(r, own);
                     && after + Paid(events)
                        == before + Received(events) + (if n.state.fee == Some(own) then FeesOf(txs) else 0)
                     && nonce' == (nonce + SentCount(events)) % 0x1_0000_0000_0000_0000))
  {
    hide WalkAll, Follow, WalkMsgs, Replay, NeverClips, Represents, BodiesBetween, EventsBetween, BalanceFrom;
    if !CollisionIn(WalkMsgs(n, steps, server, view)) {
      var atts := Attestations(steps);
      WalkSound(head, n, steps, server, view);
      WalkKeepsOwn(head, steps, server, view);
      FollowReplays(n, atts, server.blocks, view);
      var n' := Follow(n, atts, server.blocks, view).0;
      var r := WalkAll(head, steps, server, view).value;
      ShownBalanceTrue(head, n.state);
      ShownBalanceTrue(r, n'.state);
      if NeverClips(n.state, BodiesBetween(server.blocks, head.height, r.height)) {
        RangeAccounts(head.ownAddress, server.blocks, head.height, r.height, n.state);
      }
    }
  }

  // ---------- what else a walk leaves in the head ----------

  lemma {:induction false} RangeKeepsOwn(head: VerifiedHead, height: int, att: Attestation, server: Server,
                                         view: L1View)
    requires 0 <= height && WalkRange(head, height, att, server, view).Ok?
    ensures WalkRange(head, height, att, server, view).value.ownAddress == head.ownAddress
    ensures height <= att.height ==> WalkRange(head, height, att, server, view).value.height == att.height
    decreases att.height + 1 - height
  {
    hide VerifyBlock;
    if height <= att.height {
      var end := if height == att.height then Some(att) else None;
      NextHeight(head, height, server.blocks[height], server.witnesses[height], end, view);
      var next := VerifyBlock(head, height, server.blocks[height], server.witnesses[height], end, view).value;
      RangeKeepsOwn(next, height + 1, att, server, view);
      if height == att.height {
        assert WalkRange(next, height + 1, att, server, view) == Ok(next);
      }
    }
  }

  lemma {:induction false} WalkKeepsOwn(head: VerifiedHead, steps: seq<ChainStep>, server: Server, view: L1View)
    requires WalkAll(head, steps, server, view).Ok?
    ensures WalkAll(head, steps, server, view).value.ownAddress == head.ownAddress
    decreases |steps|
  {
    hide WalkRange;
    if steps != [] {
      if steps[0].attestation.height > head.height {
        RangeKeepsOwn(head, head.height + 1, steps[0].attestation, server, view);
      }
      WalkKeepsOwn(WalkStep(head, steps[0], server, view).value, steps[1..], server, view);
    }
  }

  lemma {:induction false} WalkConcat(head: VerifiedHead, xs: seq<ChainStep>, ys: seq<ChainStep>, server: Server,
                                      view: L1View)
    ensures var r := WalkAll(head, xs, server, view);
            WalkAll(head, xs + ys, server, view) == if r.Ok? then WalkAll(r.value, ys, server, view) else r
    decreases |xs|
  {
    hide WalkStep;
    if xs == [] {
      assert xs + ys == ys;
    } else {
      assert (xs + ys)[0] == xs[0] && (xs + ys)[1..] == xs[1..] + ys;
      if WalkStep(head, xs[0], server, view).Ok? {
        WalkConcat(WalkStep(head, xs[0], server, view).value, xs[1..], ys, server, view);
      }
    }
  }

  /** The head's place on L1 after a walk: the anchor of the last step, and, if that step went
      beyond the head before it, the L1 height it was found at. */
  lemma WalkMarks(head: VerifiedHead, steps: seq<ChainStep>, last: ChainStep, server: Server, view: L1View)
    requires WalkAll(head, steps + [last], server, view).Ok?
    ensures var before, r := WalkAll(head, steps, server, view), WalkAll(head, steps + [last], server, view).value;
            && before.Ok? && r.anchor == last.newAnchor
            && (last.attestation.height > before.value.height ==>
                 r.height == last.attestation.height && r.l1Height == last.l1Height)
            && (last.attestation.height <= before.value.height ==> r == before.value.(anchor := last.newAnchor))
  {
    hide WalkRange;
    WalkConcat(head, steps, [last], server, view);
    var before := WalkAll(head, steps, server, view).value;
    assert [last][1..] == [];
    assert WalkAll(before, [last], server, view) == WalkStep(before, last, server, view);
    if last.attestation.height > before.height {
      RangeKeepsOwn(before, before.height + 1, last.attestation, server, view);
    }
  }
}
