/** The attestation chain on L1 and the two ways of following it: block by block, as a
    node does, and spend by spend, as a wallet does. */
module L1Chain {
  import opened Primitives
  import opened Types
  import opened Walk

  datatype ScriptKind = NotOpReturn | Foreign | Attests(attestation: Attestation)

  /** Parser of attestation scripts; any function will do here. */
  const AttestationParser: Bytes -> ScriptKind

  function ParseScript(script: Bytes): ScriptKind { AttestationParser(script) }

  datatype L1Tx = L1Tx(txid: Txid, inputs: seq<OutPoint>, scripts: seq<Bytes>)

  /** Confirmed blocks by height, and the transactions known but not confirmed. */
  datatype L1 = L1(blocks: seq<seq<L1Tx>>, mempool: seq<L1Tx>)

  predicate SpentUnconfirmed(l1: L1, op: OutPoint) {
    exists i :: 0 <= i < |l1.mempool| && op in l1.mempool[i].inputs
  }

  /** Place of a confirmed transaction: its height and its index in the block. */
  datatype Place = Place(height: nat, index: nat)

  predicate IsPlace(l1: L1, p: Place) {
    p.height < |l1.blocks| && p.index < |l1.blocks[p.height]|
  }

  function TxAt(l1: L1, p: Place): L1Tx
    requires IsPlace(l1, p)
  {
    l1.blocks[p.height][p.index]
  }

  predicate Before(p: Place, q: Place) {
    p.height < q.height || (p.height == q.height && p.index < q.index)
  }

  ghost predicate SpentAt(l1: L1, op: OutPoint, p: Place) {
    IsPlace(l1, p) && op in TxAt(l1, p).inputs
  }

  /** What L1 itself guarantees: an output is spent at most once and only after the
      transaction that created it. */
  ghost predicate ValidL1(l1: L1) {
    && |l1.blocks| <= U32_MAX
    && (forall op, p, q :: SpentAt(l1, op, p) && SpentAt(l1, op, q) ==> p == q)
    && (forall p, q, vout {:trigger SpentAt(l1, OutPoint(TxAt(l1, p).txid, vout), q)} ::
          IsPlace(l1, p) && SpentAt(l1, OutPoint(TxAt(l1, p).txid, vout), q) ==> Before(p, q))
  }

  datatype Advance = Advance(attestation: Attestation, l1Height: u32, txid: Txid, spent: OutPoint, next: OutPoint)

  datatype L1Error = AnchorUnknown | TooFewOutputs | NotAnAttestation | SpendUnconfirmed

  /** The link a spending transaction forms, if it has the shape of an attestation. */
  function LinkOf(tx: L1Tx, height: u32, anchor: OutPoint): Result<Advance, L1Error> {
    if |tx.scripts| < 2 then Err(TooFewOutputs)
    else match ParseScript(tx.scripts[0])
      case NotOpReturn => Err(NotAnAttestation)
      case Foreign => Err(NotAnAttestation)
      case Attests(att) => Ok(Advance(att, height, tx.txid, anchor, OutPoint(tx.txid, 1)))
  }

  /** A spend of the anchor is a link exactly if it has two outputs and the first attests;
      the second output is the next anchor. */
  lemma LinkVerdict(tx: L1Tx, height: u32, anchor: OutPoint)
    ensures var r := LinkOf(tx, height, anchor);
            && (r.Ok? <==> |tx.scripts| >= 2 && AttestationParser(tx.scripts[0]).Attests?)
            && (r.Ok? ==>
                 r.value == Advance(AttestationParser(tx.scripts[0]).attestation, height, tx.txid, anchor,
                                    OutPoint(tx.txid, 1)))
            && (r == Err(TooFewOutputs) <==> |tx.scripts| < 2)
            && (r == Err(NotAnAttestation) <==> |tx.scripts| >= 2 && !AttestationParser(tx.scripts[0]).Attests?)
  {
  }

  // ---------- scanning one block ----------

  /** Index of the first transaction at or after `i` that spends the outpoint. */
  function SpenderIn(block: seq<L1Tx>, op: OutPoint, i: nat): (r: Option<nat>)
    requires i <= |block|
    ensures r.Some? ==> i <= r.value < |block| && op in block[r.value].inputs
    ensures r.None? ==> forall k :: i <= k < |block| ==> op !in block[k].inputs
    decreases |block| - i
  {
    if i == |block| then None
    else if op in block[i].inputs then Some(i)
    else SpenderIn(block, op, i + 1)
  }

  function ScanBlock(l1: L1, h: u32, anchor: OutPoint): Result<Option<Advance>, L1Error>
    requires h < |l1.blocks|
  {
    match SpenderIn(l1.blocks[h], anchor, 0)
    case None => Ok(None)
    case Some(i) =>
      match LinkOf(l1.blocks[h][i], h, anchor)
      case Ok(adv) => Ok(Some(adv))
      case Err(e) => Err(e)
  }

  method ScanBlockForAdvance(l1: L1, h: u32, anchor: OutPoint) returns (r: Result<Option<Advance>, L1Error>)
    requires h < |l1.blocks|
    ensures r == ScanBlock(l1, h, anchor)
  {
    var block := l1.blocks[h];
    for i := 0 to |block|
      invariant SpenderIn(block, anchor, 0) == SpenderIn(block, anchor, i)
    {
      if anchor !in block[i].inputs {
        continue;
      }
      var link := LinkOf(block[i], h, anchor);
      if link.Err? {
        return Err(link.error);
      }
      return Ok(Some(link.value));
    }
    return Ok(None);
  }

  // ---------- following spends ----------

  function SpenderFrom(l1: L1, op: OutPoint, h: nat): (r: Option<Place>)
    requires h <= |l1.blocks|
    ensures r.Some? ==> r.value.height >= h && SpentAt(l1, op, r.value)
    ensures r.None? ==> forall p :: SpentAt(l1, op, p) ==> p.height < h
    decreases |l1.blocks| - h
  {
    if h == |l1.blocks| then None
    else match SpenderIn(l1.blocks[h], op, 0)
      case Some(i) => Some(Place(h, i))
      case None => SpenderFrom(l1, op, h + 1)
  }

  /** The outspend query. */
  function Outspend(l1: L1, op: OutPoint): (r: Option<Place>)
    ensures r.Some? ==> SpentAt(l1, op, r.value)
    ensures r.None? ==> forall p :: !SpentAt(l1, op, p)
  {
    SpenderFrom(l1, op, 0)
  }

  /** No spend of the outpoint is placed before `lo`. */
  ghost predicate Unspent(l1: L1, op: OutPoint, lo: Place) {
    forall p :: SpentAt(l1, op, p) ==> !Before(p, lo)
  }

  lemma NextUnspent(l1: L1, p: Place)
    requires ValidL1(l1) && IsPlace(l1, p)
    ensures Unspent(l1, OutPoint(TxAt(l1, p).txid, 1), Place(p.height, p.index + 1))
  {
    forall q | SpentAt(l1, OutPoint(TxAt(l1, p).txid, 1), q)
      ensures !Before(q, Place(p.height, p.index + 1))
    {
      assert Before(p, q);
    }
  }

  function RoomAfter(l1: L1, lo: Place): nat {
    if lo.height < |l1.blocks| && lo.index <= |l1.blocks[lo.height]| then |l1.blocks[lo.height]| - lo.index else 0
  }

  /** `walk_attestation_chain` past its opening check, until an unspent anchor. */
  ghost function Chain(l1: L1, anchor: OutPoint, lo: Place): Result<seq<Advance>, L1Error>
    requires ValidL1(l1) && Unspent(l1, anchor, lo) && lo.height <= |l1.blocks|
    decreases |l1.blocks| - lo.height, RoomAfter(l1, lo)
  {
    match Outspend(l1, anchor)
    case None => if SpentUnconfirmed(l1, anchor) then Err(SpendUnconfirmed) else Ok([])
    case Some(p) =>
      match LinkOf(TxAt(l1, p), p.height, anchor)
      case Err(e) => Err(e)
      case Ok(adv) =>
        NextUnspent(l1, p);
        Prepended([adv], Chain(l1, adv.next, Place(p.height, p.index + 1)))
  }

  ghost function Prepended(steps: seq<Advance>, r: Result<seq<Advance>, L1Error>): Result<seq<Advance>, L1Error> {
    match r
    case Err(e) => Err(e)
    case Ok(rest) => Ok(steps + rest)
  }

  lemma PrependNothing(r: Result<seq<Advance>, L1Error>)
    ensures Prepended([], r) == r
  {
    if r.Ok? {
      assert [] + r.value == r.value;
    }
  }

  lemma PrependMore(steps: seq<Advance>, adv: Advance, r: Result<seq<Advance>, L1Error>)
    ensures Prepended(steps, Prepended([adv], r)) == Prepended(steps + [adv], r)
  {
    if r.Ok? {
      assert steps + ([adv] + r.value) == steps + [adv] + r.value;
    }
  }

  /** The transaction is known, confirmed or not. */
  predicate TxExists(l1: L1, txid: Txid) {
    || (exists h :: 0 <= h < |l1.blocks| && exists i :: 0 <= i < |l1.blocks[h]| && l1.blocks[h][i].txid == txid)
    || (exists i :: 0 <= i < |l1.mempool| && l1.mempool[i].txid == txid)
  }

  method WalkAttestationChain(l1: L1, anchor: OutPoint) returns (r: Result<seq<Advance>, L1Error>)
    requires ValidL1(l1)
    ensures !TxExists(l1, anchor.txid) ==> r == Err(AnchorUnknown)
    ensures TxExists(l1, anchor.txid) ==> r == Chain(l1, anchor, Place(0, 0))
  {
    hide ValidL1, TxExists, SpenderFrom, SpenderIn, LinkOf;
    if !TxExists(l1, anchor.txid) {
      return Err(AnchorUnknown);
    }
    var steps: seq<Advance> := [];
    var current := anchor;
    ghost var lo := Place(0, 0);
    PrependNothing(Chain(l1, anchor, lo));
    while true
      invariant Unspent(l1, current, lo) && lo.height <= |l1.blocks|
      invariant Chain(l1, anchor, Place(0, 0))
        == Prepended(steps, Chain(l1, current, lo))
      decreases |l1.blocks| - lo.height, RoomAfter(l1, lo)
    {
      var spend := Outspend(l1, current);
      if spend.None? {
        if SpentUnconfirmed(l1, current) {
          return Err(SpendUnconfirmed);
        }
        assert steps + [] == steps;
        return Ok(steps);
      }
      var p := spend.value;
      HeightFits(l1, p);
      var link := LinkOf(TxAt(l1, p), p.height, current);
      if link.Err? {
        return Err(link.error);
      }
      LinkFacts(TxAt(l1, p), p.height, current);
      NextUnspent(l1, p);
      PrependMore(steps, link.value, Chain(l1, link.value.next, Place(p.height, p.index + 1)));
      steps := steps + [link.value];
      current := link.value.next;
      lo := Place(p.height, p.index + 1);
    }
  }

  lemma HeightFits(l1: L1, p: Place)
    requires ValidL1(l1) && IsPlace(l1, p)
    ensures p.height <= U32_MAX
  {
  }

  lemma LinkFacts(tx: L1Tx, height: u32, anchor: OutPoint)
    requires LinkOf(tx, height, anchor).Ok?
    ensures var adv := LinkOf(tx, height, anchor).value;
            adv.next == OutPoint(tx.txid, 1) && adv.spent == anchor && adv.txid == tx.txid && adv.l1Height == height
  {
  }

  // ---------- scanning block after block ----------

  /** The advances a node meets that scans from block `lo.height`, scanning each block
      again with the new anchor until it yields nothing more. */
  ghost function Visits(l1: L1, anchor: OutPoint, lo: Place): Result<seq<Advance>, L1Error>
    requires ValidL1(l1) && Unspent(l1, anchor, lo) && lo.height <= |l1.blocks|
    decreases |l1.blocks| - lo.height, RoomAfter(l1, lo)
  {
    if lo.height == |l1.blocks| then Ok([])
    else
      match ScanBlock(l1, lo.height, anchor)
      case Err(e) => Err(e)
      case Ok(None) =>
        BlockPassed(l1, anchor, lo);
        Visits(l1, anchor, Place(lo.height + 1, 0))
      case Ok(Some(adv)) =>
        var i := SpenderIn(l1.blocks[lo.height], anchor, 0).value;
        var p := Place(lo.height, i);
        assert SpentAt(l1, anchor, p);
        NextUnspent(l1, p);
        Prepended([adv], Visits(l1, adv.next, Place(lo.height, i + 1)))
  }

  lemma BlockPassed(l1: L1, anchor: OutPoint, lo: Place)
    requires Unspent(l1, anchor, lo) && lo.height < |l1.blocks|
    requires SpenderIn(l1.blocks[lo.height], anchor, 0).None?
    ensures Unspent(l1, anchor, Place(lo.height + 1, 0))
  {
    forall p | SpentAt(l1, anchor, p)
      ensures !Before(p, Place(lo.height + 1, 0))
    {
      assert p.height != lo.height;
    }
  }

  /** The spender found in a block is the one the outspend query reports. */
  lemma OneSpender(l1: L1, anchor: OutPoint, h: nat)
    requires ValidL1(l1) && h < |l1.blocks| && SpenderIn(l1.blocks[h], anchor, 0).Some?
    ensures Outspend(l1, anchor) == Some(Place(h, SpenderIn(l1.blocks[h], anchor, 0).value))
  {
    hide SpenderFrom, SpenderIn;
    var p := Place(h, SpenderIn(l1.blocks[h], anchor, 0).value);
    assert SpentAt(l1, anchor, p);
  }

  lemma ChainPlaceIrrelevant(l1: L1, anchor: OutPoint, lo: Place, hi: Place)
    requires ValidL1(l1) && Unspent(l1, anchor, lo) && Unspent(l1, anchor, hi)
    requires lo.height <= |l1.blocks| && hi.height <= |l1.blocks|
    ensures Chain(l1, anchor, lo) == Chain(l1, anchor, hi)
  {
    hide SpenderFrom, SpenderIn, LinkOf;
  }

  /** The last anchor reached by an error-free scan is unspent on L1; a wallet whose walk
      ends there fails exactly if an unconfirmed transaction already spends it. */
  ghost function LastAnchor(advs: seq<Advance>, anchor: OutPoint): OutPoint {
    if advs == [] then anchor else advs[|advs| - 1].next
  }

  /** Both traversals visit the same links in the same order. */
  lemma {:induction false} TraversalsAgree(l1: L1, anchor: OutPoint, lo: Place)
    requires ValidL1(l1) && Unspent(l1, anchor, lo) && lo.height <= |l1.blocks|
    ensures Visits(l1, anchor, lo).Err? ==> Chain(l1, anchor, lo) == Visits(l1, anchor, lo)
    ensures Visits(l1, anchor, lo).Ok? ==>
      Chain(l1, anchor, lo) == if SpentUnconfirmed(l1, LastAnchor(Visits(l1, anchor, lo).value, anchor))
                               then Err(SpendUnconfirmed) else Visits(l1, anchor, lo)
    decreases |l1.blocks| - lo.height, RoomAfter(l1, lo)
  {
    hide ValidL1, SpenderFrom, SpenderIn, LinkOf, Unspent;
    if lo.height == |l1.blocks| {
      NothingAbove(l1, anchor, lo);
    } else {
      var found := SpenderIn(l1.blocks[lo.height], anchor, 0);
      match found
      case None =>
        BlockPassed(l1, anchor, lo);
        TraversalsAgree(l1, anchor, Place(lo.height + 1, 0));
        ChainPlaceIrrelevant(l1, anchor, lo, Place(lo.height + 1, 0));
      case Some(i) =>
        var p := Place(lo.height, i);
        OneSpender(l1, anchor, lo.height);
        SpendNotBefore(l1, anchor, lo, p);
        HeightFits(l1, p);
        var link := LinkOf(TxAt(l1, p), lo.height, anchor);
        if link.Ok? {
          LinkFacts(TxAt(l1, p), lo.height, anchor);
          NextUnspent(l1, p);
          TraversalsAgree(l1, link.value.next, Place(lo.height, i + 1));
        }
    }
  }

  /** An input on which they differ: the anchor's only spender is unconfirmed. */
  lemma UnconfirmedTailFails(t: Txid, u: Txid)
    requires t != u
    ensures var anchor := OutPoint(t, 1);
            var l1 := L1([[L1Tx(t, [], [])]], [L1Tx(u, [anchor], [])]);
            && ValidL1(l1) && TxExists(l1, t) && Unspent(l1, anchor, Place(1, 0))
            && Visits(l1, anchor, Place(1, 0)) == Ok([])
            && Chain(l1, anchor, Place(1, 0)) == Err(SpendUnconfirmed)
  {
    var anchor := OutPoint(t, 1);
    var l1 := L1([[L1Tx(t, [], [])]], [L1Tx(u, [anchor], [])]);
    assert forall op, p :: !SpentAt(l1, op, p);
    assert l1.blocks[0][0].txid == t;
    assert anchor in l1.mempool[0].inputs;
    assert SpentUnconfirmed(l1, anchor);
    assert Outspend(l1, anchor).None?;
  }

  /** An anchor whose own transaction is not confirmed yet is known, and its walk is empty. */
  lemma UnconfirmedAnchorKnown(t: Txid)
    ensures var l1 := L1([], [L1Tx(t, [], [])]);
            && ValidL1(l1) && TxExists(l1, t) && Unspent(l1, OutPoint(t, 1), Place(0, 0))
            && Chain(l1, OutPoint(t, 1), Place(0, 0)) == Ok([])
  {
    var l1 := L1([], [L1Tx(t, [], [])]);
    assert forall op, p :: !SpentAt(l1, op, p);
    assert l1.mempool[0].txid == t;
    assert Outspend(l1, OutPoint(t, 1)).None?;
  }

  lemma NothingAbove(l1: L1, anchor: OutPoint, lo: Place)
    requires Unspent(l1, anchor, lo) && lo.height == |l1.blocks|
    ensures Outspend(l1, anchor).None?
  {
    hide SpenderFrom, SpenderIn;
  }

  lemma SpendNotBefore(l1: L1, anchor: OutPoint, lo: Place, p: Place)
    requires Unspent(l1, anchor, lo) && SpentAt(l1, anchor, p) && p.height == lo.height
    ensures lo.index <= p.index
  {
  }

  /** The steps a wallet walks for a list of links. */
  function StepsOf(advs: seq<Advance>): (r: seq<ChainStep>)
    ensures |r| == |advs|
    ensures forall i :: 0 <= i < |r| ==> r[i] == ChainStep(advs[i].attestation, advs[i].l1Height, advs[i].next)
  {
    seq(|advs|, i requires 0 <= i < |advs| => ChainStep(advs[i].attestation, advs[i].l1Height, advs[i].next))
  }
}
