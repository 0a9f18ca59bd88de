/** The node's follower loop over L1: blocks, advances within a block, batches of L2 blocks. */
module Follower {
  import opened Primitives
  import opened Types
  import opened Messages
  import opened Ledger
  import opened MintProof
  import opened Node
  import opened LightClient
  import opened Walk
  import opened L1Chain

  datatype SpendRecord = SpendRecord(txid: Txid, l1Height: u32)

  /** Live state and store of a node. The cursor is the last L1 block fully scanned. */
  datatype FollowerState = FollowerState(
    node: NodeState,
    anchor: OutPoint,
    cursor: u32,
    spends: map<OutPoint, SpendRecord>)

  /** How a tick ends. `Stuck` is the endless rescan: the block at hand yields an advance
      whose attestation is skipped, which leaves the anchor and thus the next scan as they were. */
  datatype TickEnd = Done | ScanFailed(l1Error: L1Error) | BlockFailed(blockError: BlockError) | Stuck

  /** One advance: a known height is skipped with nothing changed; otherwise the batch is
      applied block by block and the anchor moves only if all of it was. */
  function ProcessAdvance(f: FollowerState, adv: Advance, source: BlockSource, view: L1View): (FollowerState,
                          Option<TickEnd>) {
    if adv.attestation.height <= f.node.head.height then (f, Some(Stuck))
    else
      var (n, e) := ApplyRange(f.node, f.node.head.height + 1, adv.attestation, source, view);
      if e.Some? then (f.(node := n), Some(BlockFailed(e.value)))
      else (FollowerState(n, adv.next, f.cursor, f.spends[adv.spent := SpendRecord(adv.txid, adv.l1Height)]), None)
  }

  datatype TickMove = Stop(state: FollowerState, end: TickEnd) | Go(next: FollowerState, place: Place)

  /** One scan of the block at hand and what follows from it. */
  ghost function NextMove(f: FollowerState, l1: L1, lo: Place, source: BlockSource, view: L1View): (m: TickMove)
    requires ValidL1(l1) && Unspent(l1, f.anchor, lo) && lo.height < |l1.blocks|
    ensures m.Stop? ==> m.end != Done
    ensures m.Go? ==>
      && Unspent(l1, m.next.anchor, m.place) && m.place.height <= |l1.blocks|
      && (|| m.place.height == lo.height + 1
          || (m.place.height == lo.height && RoomAfter(l1, m.place) < RoomAfter(l1, lo)))
  {
    match ScanBlock(l1, lo.height, f.anchor)
    case Err(e) => Stop(f, ScanFailed(e))
    case Ok(None) =>
      BlockPassed(l1, f.anchor, lo);
      Go(f.(cursor := lo.height), Place(lo.height + 1, 0))
    case Ok(Some(adv)) =>
      var i := SpenderIn(l1.blocks[lo.height], f.anchor, 0).value;
      assert SpentAt(l1, f.anchor, Place(lo.height, i));
      SpendNotBefore(l1, f.anchor, lo, Place(lo.height, i));
      NextUnspent(l1, Place(lo.height, i));
      var (f', end) := ProcessAdvance(f, adv, source, view);
      AdvanceMoves(f, adv, source, view);
      if end.Some? then Stop(f', end.value) else Go(f', Place(lo.height, i + 1))
  }

  ghost function TickFrom(f: FollowerState, l1: L1, lo: Place, source: BlockSource, view: L1View): (FollowerState,
                          TickEnd)
    requires ValidL1(l1) && Unspent(l1, f.anchor, lo) && lo.height <= |l1.blocks|
    decreases |l1.blocks| - lo.height, RoomAfter(l1, lo)
  {
    if lo.height == |l1.blocks| then (f, Done)
    else
      var m := NextMove(f, l1, lo, source, view);
      if m.Stop? then (m.state, m.end) else TickFrom(m.next, l1, m.place, source, view)
  }

  /** One tick: everything above the cursor. */
  ghost function Tick(f: FollowerState, l1: L1, source: BlockSource, view: L1View): (FollowerState, TickEnd)
    requires ValidL1(l1) && Unspent(l1, f.anchor, Place(f.cursor + 1, 0))
  {
    if |l1.blocks| <= f.cursor + 1 then (f, Done) else TickFrom(f, l1, Place(f.cursor + 1, 0), source, view)
  }

  // ---------- when a tick completes ----------

  /** Each attestation is above everything before it. */
  predicate Ascending(height: int, advs: seq<Advance>)
    decreases |advs|
  {
    advs == [] || (height < advs[0].attestation.height && Ascending(advs[0].attestation.height, advs[1..]))
  }

  function AttestationsOf(advs: seq<Advance>): (r: seq<Attestation>)
    ensures |r| == |advs|
    ensures forall i :: 0 <= i < |r| ==> r[i] == advs[i].attestation
  {
    Attestations(StepsOf(advs))
  }

  function Recorded(spends: map<OutPoint, SpendRecord>, advs: seq<Advance>): map<OutPoint, SpendRecord>
    decreases |advs|
  {
    if advs == [] then spends
    else Recorded(spends[advs[0].spent := SpendRecord(advs[0].txid, advs[0].l1Height)], advs[1..])
  }

  lemma ApplyBlockHeight(n: NodeState, height: u32, block: Block, att: Option<Attestation>, view: L1View)
    requires ApplyBlock(n, height, block, att, view).Ok?
    ensures ApplyBlock(n, height, block, att, view).value.head.height == height
  {
    hide Replay, VerifyMints, StateRoot, ValidateBlock, HeaderHash;
  }

  lemma {:induction false} RangeHeight(n: NodeState, height: int, att: Attestation, source: BlockSource, view: L1View)
    requires 0 <= height <= att.height + 1 && n.head.height == height - 1
    requires ApplyRange(n, height, att, source, view).1.None?
    ensures ApplyRange(n, height, att, source, view).0.head.height == att.height
    decreases att.height + 1 - height
  {
    hide ApplyBlock;
    if height <= att.height {
      var end := if height == att.height then Some(att) else None;
      ApplyBlockHeight(n, height, source[height], end, view);
      RangeHeight(ApplyBlock(n, height, source[height], end, view).value, height + 1, att, source, view);
    }
  }

  lemma AdvanceMoves(f: FollowerState, adv: Advance, source: BlockSource, view: L1View)
    ensures var (f', end) := ProcessAdvance(f, adv, source, view);
            && (end.None? <==> f.node.head.height < adv.attestation.height
                               && ProcessAttestation(f.node, adv.attestation, source, view).1.None?)
            && (end.None? ==>
                 && f'.node == ProcessAttestation(f.node, adv.attestation, source, view).0
                 && f'.node.head.height == adv.attestation.height
                 && f'.anchor == adv.next && f'.cursor == f.cursor
                 && f'.spends == f.spends[adv.spent := SpendRecord(adv.txid, adv.l1Height)])
            && (end.Some? ==>
                 && end.value != Done && f'.anchor == f.anchor && f'.cursor == f.cursor && f'.spends == f.spends)
  {
    hide ApplyRange;
    var att, h := adv.attestation, f.node.head.height;
    if att.height > h && ApplyRange(f.node, h + 1, att, source, view).1.None? {
      RangeHeight(f.node, h + 1, att, source, view);
    }
  }

  /** What one move has to do with the scanned chain. */
  lemma MoveVisits(f: FollowerState, l1: L1, lo: Place, source: BlockSource, view: L1View)
    requires ValidL1(l1) && Unspent(l1, f.anchor, lo) && lo.height < |l1.blocks|
    ensures var visits := Visits(l1, f.anchor, lo);
            var m := NextMove(f, l1, lo, source, view);
            if m.Stop? then
              !(visits.Ok? && Ascending(f.node.head.height, visits.value)
                && Follow(f.node, AttestationsOf(visits.value), source, view).1.None?)
            else
              var rest := Visits(l1, m.next.anchor, m.place);
              && visits.Ok? == rest.Ok?
              && (m.place.height == |l1.blocks| ==> m.next.cursor == |l1.blocks| - 1)
              && (visits.Ok? ==>
                   && (Ascending(f.node.head.height, visits.value) <==> Ascending(m.next.node.head.height, rest.value))
                   && Follow(f.node, AttestationsOf(visits.value), source, view)
                      == Follow(m.next.node, AttestationsOf(rest.value), source, view)
                   && LastAnchor(visits.value, f.anchor) == LastAnchor(rest.value, m.next.anchor)
                   && Recorded(f.spends, visits.value) == Recorded(m.next.spends, rest.value))
  {
    hide ValidL1, Unspent, SpenderIn, ProcessAdvance, LinkOf, ProcessAttestation, Follow, Ascending, Recorded;
    CursorFits(l1, lo);
    var found := SpenderIn(l1.blocks[lo.height], f.anchor, 0);
    if found.Some? {
      var p := Place(lo.height, found.value);
      var link := LinkOf(TxAt(l1, p), lo.height, f.anchor);
      if link.Ok? {
        LinkFacts(TxAt(l1, p), lo.height, f.anchor);
        NextUnspent(l1, p);
        AdvanceMoves(f, link.value, source, view);
        var rest := Visits(l1, link.value.next, Place(lo.height, found.value + 1));
        if rest.Ok? {
          assert Visits(l1, f.anchor, lo) == Ok([link.value] + rest.value);
          ConsFacts(f, link.value, rest.value, source, view);
        }
        MoveAfterLink(f, l1, lo, source, view, link.value, found.value);
        var m := NextMove(f, l1, lo, source, view);
        if m.Go? {
          assert ProcessAdvance(f, link.value, source, view).1.None?;
          assert rest == Visits(l1, m.next.anchor, m.place);
        }
      }
    }
  }

  lemma MoveAfterLink(f: FollowerState, l1: L1, lo: Place, source: BlockSource, view: L1View, adv: Advance, i: nat)
    requires ValidL1(l1) && Unspent(l1, f.anchor, lo) && lo.height < |l1.blocks|
    requires SpenderIn(l1.blocks[lo.height], f.anchor, 0) == Some(i) && lo.height <= U32_MAX
    requires ScanBlock(l1, lo.height, f.anchor) == Ok(Some(adv))
    ensures var r := ProcessAdvance(f, adv, source, view);
            NextMove(f, l1, lo, source, view)
            == if r.1.Some? then Stop(r.0, r.1.value) else Go(r.0, Place(lo.height, i + 1))
  {
    hide ValidL1, Unspent, SpenderIn, ProcessAdvance, LinkOf, ScanBlock;
  }

  lemma ScanDone(l1: L1, anchor: OutPoint, lo: Place, f: FollowerState, source: BlockSource, view: L1View)
    requires ValidL1(l1) && Unspent(l1, anchor, lo) && lo.height == |l1.blocks|
    ensures Visits(l1, anchor, lo) == Ok([])
    ensures Ascending(f.node.head.height, []) && Follow(f.node, AttestationsOf([]), source, view) == (f.node, None)
    ensures LastAnchor([], f.anchor) == f.anchor && Recorded(f.spends, []) == f.spends
  {
  }

  /** A tick completes exactly when the scan meets only well-formed links, their heights
      ascend from the current head, and every batch applies. It then has processed the
      whole scanned chain: node, anchor, cursor and spend records are those of following
      it link by link. */
  lemma {:induction false} TickCompletes(f: FollowerState, l1: L1, lo: Place, source: BlockSource, view: L1View)
    requires ValidL1(l1) && Unspent(l1, f.anchor, lo) && lo.height <= |l1.blocks|
    ensures var (f', end) := TickFrom(f, l1, lo, source, view);
            var visits := Visits(l1, f.anchor, lo);
            && (end == Done <==>
                 && visits.Ok? && Ascending(f.node.head.height, visits.value)
                 && Follow(f.node, AttestationsOf(visits.value), source, view).1.None?)
            && (end == Done ==>
                 && f'.node == Follow(f.node, AttestationsOf(visits.value), source, view).0
                 && f'.anchor == LastAnchor(visits.value, f.anchor)
                 && f'.spends == Recorded(f.spends, visits.value)
                 && (lo.height < |l1.blocks| ==> f'.cursor == |l1.blocks| - 1))
    decreases |l1.blocks| - lo.height, RoomAfter(l1, lo)
  {
    hide ValidL1, Unspent, NextMove, Visits, Follow, Ascending, Recorded, RoomAfter;
    if lo.height == |l1.blocks| {
      ScanDone(l1, f.anchor, lo, f, source, view);
    } else {
      MoveVisits(f, l1, lo, source, view);
      var m := NextMove(f, l1, lo, source, view);
      if m.Go? {
        TickCompletes(m.next, l1, m.place, source, view);
      }
    }
  }

  lemma CursorFits(l1: L1, lo: Place)
    requires ValidL1(l1) && lo.height < |l1.blocks|
    ensures lo.height <= U32_MAX
  {
  }

  lemma ConsFacts(f: FollowerState, adv: Advance, rest: seq<Advance>, source: BlockSource, view: L1View)
    ensures var all := [adv] + rest;
            var (n, e) := ProcessAttestation(f.node, adv.attestation, source, view);
            && (Ascending(f.node.head.height, all) <==>
                 f.node.head.height < adv.attestation.height && Ascending(adv.attestation.height, rest))
            && Follow(f.node, AttestationsOf(all), source, view)
               == (if e.Some? then (n, e) else Follow(n, AttestationsOf(rest), source, view))
            && LastAnchor(all, f.anchor) == LastAnchor(rest, adv.next)
            && Recorded(f.spends, all)
               == Recorded(f.spends[adv.spent := SpendRecord(adv.txid, adv.l1Height)], rest)
  {
    hide ProcessAttestation;
    var all := [adv] + rest;
    assert all[1..] == rest;
    assert AttestationsOf(all)[1..] == AttestationsOf(rest);
  }

  // ---------- when a tick never ends ----------

  /** The links a scan meets, up to the first spender that is no attestation. */
  ghost function Met(l1: L1, anchor: OutPoint, lo: Place): seq<Advance>
    requires ValidL1(l1) && Unspent(l1, anchor, lo) && lo.height <= |l1.blocks|
    decreases |l1.blocks| - lo.height, RoomAfter(l1, lo)
  {
    if lo.height == |l1.blocks| then []
    else
      match ScanBlock(l1, lo.height, anchor)
      case Err(_) => []
      case Ok(None) =>
        BlockPassed(l1, anchor, lo);
        Met(l1, anchor, Place(lo.height + 1, 0))
      case Ok(Some(adv)) =>
        var i := SpenderIn(l1.blocks[lo.height], anchor, 0).value;
        assert SpentAt(l1, anchor, Place(lo.height, i));
        NextUnspent(l1, Place(lo.height, i));
        [adv] + Met(l1, adv.next, Place(lo.height, i + 1))
  }

  /** The first `k` links are processed in full and the next one is skipped. */
  ghost predicate SkipsAt(n: NodeState, advs: seq<Advance>, k: nat, source: BlockSource, view: L1View)
    requires k < |advs|
  {
    var (n', e) := Follow(n, AttestationsOf(advs[..k]), source, view);
    && e.None? && Ascending(n.head.height, advs[..k])
    && advs[k].attestation.height <= n'.head.height
  }

  ghost predicate Skips(n: NodeState, advs: seq<Advance>, source: BlockSource, view: L1View) {
    exists k :: 0 <= k < |advs| && SkipsAt(n, advs, k, source, view)
  }

  lemma SkipsNow(n: NodeState, advs: seq<Advance>, source: BlockSource, view: L1View)
    requires advs != []
    ensures SkipsAt(n, advs, 0, source, view) <==> advs[0].attestation.height <= n.head.height
  {
    assert advs[..0] == [];
  }

  lemma SkipsLater(n: NodeState, advs: seq<Advance>, k: nat, source: BlockSource, view: L1View)
    requires k + 1 < |advs|
    ensures var (n', e) := ProcessAttestation(n, advs[0].attestation, source, view);
            SkipsAt(n, advs, k + 1, source, view)
            <==> n.head.height < advs[0].attestation.height && e.None? && SkipsAt(n', advs[1..], k, source, view)
  {
    hide ApplyRange;
    var att := advs[0].attestation;
    var all, rest := advs[..k + 1], advs[1..][..k];
    assert all[0] == advs[0] && all[1..] == rest;
    assert AttestationsOf(all)[1..] == AttestationsOf(rest);
    assert advs[1..][k] == advs[k + 1];
    if att.height > n.head.height && ProcessAttestation(n, att, source, view).1.None? {
      RangeHeight(n, n.head.height + 1, att, source, view);
    }
  }

  /** Skipping, one link at a time. */
  lemma SkipsCons(n: NodeState, advs: seq<Advance>, source: BlockSource, view: L1View)
    requires advs != []
    ensures var (n', e) := ProcessAttestation(n, advs[0].attestation, source, view);
            Skips(n, advs, source, view)
            <==> (advs[0].attestation.height <= n.head.height || (e.None? && Skips(n', advs[1..], source, view)))
  {
    hide SkipsAt, ProcessAttestation;
    var (n', e) := ProcessAttestation(n, advs[0].attestation, source, view);
    SkipsNow(n, advs, source, view);
    if k :| 0 <= k < |advs| && SkipsAt(n, advs, k, source, view) {
      if k > 0 {
        SkipsLater(n, advs, k - 1, source, view);
      }
    }
    if e.None? && advs[0].attestation.height > n.head.height {
      if k :| 0 <= k < |advs[1..]| && SkipsAt(n', advs[1..], k, source, view) {
        SkipsLater(n, advs, k, source, view);
      }
    }
  }

  lemma MoveSkips(f: FollowerState, l1: L1, lo: Place, source: BlockSource, view: L1View)
    requires ValidL1(l1) && Unspent(l1, f.anchor, lo) && lo.height < |l1.blocks|
    ensures var m := NextMove(f, l1, lo, source, view);
            Skips(f.node, Met(l1, f.anchor, lo), source, view)
            <==> if m.Stop? then m.end == Stuck else Skips(m.next.node, Met(l1, m.next.anchor, m.place), source, view)
  {
    hide ValidL1, Unspent, SpenderIn, ProcessAdvance, LinkOf, ProcessAttestation, SkipsAt, RoomAfter;
    CursorFits(l1, lo);
    var found := SpenderIn(l1.blocks[lo.height], f.anchor, 0);
    if found.Some? {
      var p := Place(lo.height, found.value);
      var link := LinkOf(TxAt(l1, p), lo.height, f.anchor);
      if link.Ok? {
        LinkFacts(TxAt(l1, p), lo.height, f.anchor);
        NextUnspent(l1, p);
        AdvanceMoves(f, link.value, source, view);
        AdvanceSticks(f, link.value, source, view);
        var rest := Met(l1, link.value.next, Place(lo.height, found.value + 1));
        var met := Met(l1, f.anchor, lo);
        assert met == [link.value] + rest;
        assert met[1..] == rest;
        SkipsCons(f.node, met, source, view);
        MoveAfterLink(f, l1, lo, source, view, link.value, found.value);
      }
    }
  }

  lemma AdvanceSticks(f: FollowerState, adv: Advance, source: BlockSource, view: L1View)
    ensures ProcessAdvance(f, adv, source, view).1 == Some(Stuck) <==> adv.attestation.height <= f.node.head.height
  {
    hide ApplyRange;
  }

  /** A tick never ends exactly if the scan, having processed some links in full, meets one
      whose height is at most that of the head they led to. */
  lemma {:induction false} TickStuckIff(f: FollowerState, l1: L1, lo: Place, source: BlockSource, view: L1View)
    requires ValidL1(l1) && Unspent(l1, f.anchor, lo) && lo.height <= |l1.blocks|
    ensures TickFrom(f, l1, lo, source, view).1 == Stuck <==> Skips(f.node, Met(l1, f.anchor, lo), source, view)
    decreases |l1.blocks| - lo.height, RoomAfter(l1, lo)
  {
    hide ValidL1, Unspent, NextMove, SkipsAt, RoomAfter, Skips, Met;
    if lo.height == |l1.blocks| {
      NothingMet(f, l1, lo, source, view);
    } else {
      MoveSkips(f, l1, lo, source, view);
      var m := NextMove(f, l1, lo, source, view);
      if m.Go? {
        TickStuckIff(m.next, l1, m.place, source, view);
      }
    }
  }

  lemma NothingMet(f: FollowerState, l1: L1, lo: Place, source: BlockSource, view: L1View)
    requires ValidL1(l1) && Unspent(l1, f.anchor, lo) && lo.height == |l1.blocks|
    ensures !Skips(f.node, Met(l1, f.anchor, lo), source, view)
  {
    hide SkipsAt;
  }

  /** L1 with one block: a transaction that attests, and one that attests the same again. */
  function TwiceAttested(op: OutPoint, t: Txid, u: Txid, script: Bytes): L1 {
    L1([[], [L1Tx(t, [op], [script, []]), L1Tx(u, [OutPoint(t, 1)], [script, []])]], [])
  }

  lemma TwiceAttestedValid(op: OutPoint, t: Txid, u: Txid, script: Bytes)
    requires t != u && op.txid != t && op.txid != u
    ensures var l1 := TwiceAttested(op, t, u, script);
            ValidL1(l1) && Unspent(l1, op, Place(1, 0)) && Unspent(l1, OutPoint(t, 1), Place(1, 1))
  {
    var l1 := TwiceAttested(op, t, u, script);
    forall o, p | SpentAt(l1, o, p)
      ensures (o == op && p == Place(1, 0)) || (o == OutPoint(t, 1) && p == Place(1, 1))
    {
      assert p.height == 1;
    }
  }

  lemma SpenderSecond(block: seq<L1Tx>, op: OutPoint)
    requires |block| == 2
    ensures op in block[0].inputs ==> SpenderIn(block, op, 0) == Some(0)
    ensures op !in block[0].inputs && op in block[1].inputs ==> SpenderIn(block, op, 0) == Some(1)
    ensures op !in block[0].inputs && op !in block[1].inputs ==> SpenderIn(block, op, 0) == None
  {
  }

  lemma TwiceMet(op: OutPoint, t: Txid, u: Txid, script: Bytes, first: Advance, second: Advance)
    requires t != u && op.txid != t && op.txid != u && ParseScript(script).Attests?
    requires var att, next := ParseScript(script).attestation, OutPoint(t, 1);
             first == Advance(att, 1, t, op, next) && second == Advance(att, 1, u, next, OutPoint(u, 1))
    ensures var l1 := TwiceAttested(op, t, u, script);
            ValidL1(l1) && Unspent(l1, op, Place(1, 0)) && Met(l1, op, Place(1, 0)) == [first, second]
  {
    hide ValidL1, Unspent, SpenderIn;
    TwiceAttestedValid(op, t, u, script);
    var l1, next := TwiceAttested(op, t, u, script), OutPoint(t, 1);
    var block := l1.blocks[1];
    SpenderSecond(block, op);
    SpenderSecond(block, next);
    SpenderSecond(block, second.next);
    NextUnspent(l1, Place(1, 1));
    assert Met(l1, second.next, Place(1, 2)) == [] by {
      BlockPassed(l1, second.next, Place(1, 2));
      assert Met(l1, second.next, Place(2, 0)) == [];
    }
    assert Met(l1, next, Place(1, 1)) == [second];
    assert Met(l1, op, Place(1, 0)) == [first] + [second];
  }

  /** A concrete input: the attestation of an empty next block, posted twice. The follower
      applies the block and then rescans the second attestation for ever. */
  lemma RepeatedAttestationSticks(n: NodeState, op: OutPoint, t: Txid, u: Txid, script: Bytes, view: L1View)
    requires n.head.height < U32_MAX && t != u && op.txid != t && op.txid != u
    requires var h := EmptyBlock(n, TxsRoot([])).header;
             ParseScript(script) == Attests(Attestation(h.height, HeaderHash(h), h.stateRoot))
    ensures var l1 := TwiceAttested(op, t, u, script);
            var source := map[n.head.height + 1 := EmptyBlock(n, TxsRoot([]))];
            && ValidL1(l1) && Unspent(l1, op, Place(1, 0))
            && Tick(FollowerState(n, op, 0, map[]), l1, source, view).1 == Stuck
  {
    hide ValidL1, Unspent, HeaderHash, TxsRoot, StateRoot, Skips, Met, EmptyBlock, TickFrom, Follow;
    var l1 := TwiceAttested(op, t, u, script);
    var block := EmptyBlock(n, TxsRoot([]));
    var source := map[n.head.height + 1 := block];
    TwiceAttestedValid(op, t, u, script);
    TickStuckIff(FollowerState(n, op, 0, map[]), l1, Place(1, 0), source, view);
    var att := ParseScript(script).attestation;
    var next := OutPoint(t, 1);
    var first, second := Advance(att, 1, t, op, next), Advance(att, 1, u, next, OutPoint(u, 1));
    TwiceMet(op, t, u, script, first, second);
    EmptyBlockApplied(n, source, att, view);
    SkipsCons(n, [first, second], source, view);
    var n' := ProcessAttestation(n, att, source, view).0;
    assert [first, second][1..] == [second];
    SkipsCons(n', [second], source, view);
  }

  lemma EmptyBlockApplied(n: NodeState, source: BlockSource, att: Attestation, view: L1View)
    requires n.head.height < U32_MAX
    requires var block := EmptyBlock(n, TxsRoot([]));
             && source == map[n.head.height + 1 := block]
             && att == Attestation(block.header.height, HeaderHash(block.header), block.header.stateRoot)
    ensures var (n', e) := ProcessAttestation(n, att, source, view);
            e.None? && n'.head.height == att.height && att.height == n.head.height + 1
  {
    hide HeaderHash, TxsRoot, StateRoot, ApplyBlock;
    EmptyBlockAccepted(n, TxsRoot([]), Some(att), view);
    var n' := ApplyBlock(n, att.height, source[att.height], Some(att), view).value;
    assert ApplyRange(n', att.height + 1, att, source, view) == (n', None);
  }

  /** A stuck tick has reached a state in which scanning the same block again finds the
      same advance and skips it again, so it never ends. */
  lemma {:induction false} StuckIsForever(f: FollowerState, l1: L1, lo: Place, source: BlockSource, view: L1View)
    requires ValidL1(l1) && Unspent(l1, f.anchor, lo) && lo.height <= |l1.blocks|
    requires TickFrom(f, l1, lo, source, view).1 == Stuck
    ensures var f' := TickFrom(f, l1, lo, source, view).0;
            exists h :: lo.height <= h < |l1.blocks| && h <= U32_MAX && ScanBlock(l1, h, f'.anchor).Ok?
              && ScanBlock(l1, h, f'.anchor).value.Some?
              && ProcessAdvance(f', ScanBlock(l1, h, f'.anchor).value.value, source, view) == (f', Some(Stuck))
    decreases |l1.blocks| - lo.height, RoomAfter(l1, lo)
  {
    hide ValidL1, Unspent, NextMove, ProcessAdvance, RoomAfter, ScanBlock;
    CursorFits(l1, lo);
    StuckMove(f, l1, lo, source, view);
    var m := NextMove(f, l1, lo, source, view);
    if m.Go? {
      StuckIsForever(m.next, l1, m.place, source, view);
    }
  }

  lemma StuckMove(f: FollowerState, l1: L1, lo: Place, source: BlockSource, view: L1View)
    requires ValidL1(l1) && Unspent(l1, f.anchor, lo) && lo.height < |l1.blocks|
    ensures var m := NextMove(f, l1, lo, source, view);
            m.Stop? && m.end == Stuck ==>
              var scan := ScanBlock(l1, lo.height, m.state.anchor);
              && scan.Ok? && scan.value.Some?
              && ProcessAdvance(m.state, scan.value.value, source, view) == (m.state, Some(Stuck))
  {
    hide ValidL1, Unspent, SpenderIn, LinkOf, ApplyRange;
    CursorFits(l1, lo);
  }

  // ---------- the recorded chain of anchors ----------

  ghost predicate TrueSpends(spends: map<OutPoint, SpendRecord>, l1: L1) {
    forall op :: op in spends ==>
      exists p :: SpentAt(l1, op, p) && p.height <= U32_MAX && spends[op] == SpendRecord(TxAt(l1, p).txid, p.height)
  }

  /** `path` leads from its first anchor along recorded spends. */
  ghost predicate Path(spends: map<OutPoint, SpendRecord>, path: seq<OutPoint>) {
    forall i {:trigger path[i]} :: 0 <= i < |path| - 1 ==>
      path[i] in spends && path[i + 1] == OutPoint(spends[path[i]].txid, 1)
  }

  /** What holds of a node between ticks: records are true of L1, they lead from the first
      anchor to the stored one, and the stored anchor is unspent up to the cursor. */
  ghost predicate Consistent(f: FollowerState, l1: L1, path: seq<OutPoint>) {
    && ValidL1(l1)
    && path != [] && path[|path| - 1] == f.anchor
    && Path(f.spends, path) && TrueSpends(f.spends, l1)
    && Unspent(l1, f.anchor, Place(f.cursor + 1, 0))
  }

  lemma RecordOne(spends: map<OutPoint, SpendRecord>, l1: L1, path: seq<OutPoint>, p: Place, op: OutPoint)
    requires ValidL1(l1) && TrueSpends(spends, l1) && Path(spends, path)
    requires path != [] && path[|path| - 1] == op && SpentAt(l1, op, p)
    ensures var rec := SpendRecord(TxAt(l1, p).txid, p.height);
            && TrueSpends(spends[op := rec], l1)
            && Path(spends[op := rec], path + [OutPoint(TxAt(l1, p).txid, 1)])
  {
    var rec := SpendRecord(TxAt(l1, p).txid, p.height);
    var more := spends[op := rec];
    assert op in spends ==> spends[op] == rec;
    var longer := path + [OutPoint(TxAt(l1, p).txid, 1)];
    forall i {:trigger longer[i]} | 0 <= i < |longer| - 1
      ensures longer[i] in more && longer[i + 1] == OutPoint(more[longer[i]].txid, 1)
    {
      if i < |path| - 1 {
        assert path[i] in spends;
        assert path[i + 1] == longer[i + 1];
      }
    }
  }

  lemma MoveConsistent(f: FollowerState, l1: L1, lo: Place, source: BlockSource, view: L1View, path: seq<OutPoint>)
    returns (longer: seq<OutPoint>)
    requires Consistent(f, l1, path) && Unspent(l1, f.anchor, lo) && lo.height == f.cursor + 1 < |l1.blocks|
    ensures path <= longer
    ensures var m := NextMove(f, l1, lo, source, view);
            if m.Stop? then Consistent(m.state, l1, longer) && m.state.cursor == f.cursor
            else Consistent(m.next, l1, longer) && m.place.height == m.next.cursor + 1
  {
    hide ValidL1, Unspent, SpenderIn, ProcessAdvance, LinkOf, TrueSpends, Path;
    longer := path;
    CursorFits(l1, lo);
    var found := SpenderIn(l1.blocks[lo.height], f.anchor, 0);
    match found
    case None =>
      BlockPassed(l1, f.anchor, lo);
    case Some(i) =>
      var p := Place(lo.height, i);
      var link := LinkOf(TxAt(l1, p), lo.height, f.anchor);
      if link.Ok? {
        LinkFacts(TxAt(l1, p), lo.height, f.anchor);
        AdvanceMoves(f, link.value, source, view);
        if ProcessAdvance(f, link.value, source, view).1.None? {
          NextUnspent(l1, p);
          RecordOne(f.spends, l1, path, p, f.anchor);
          UnspentFromBlockStart(l1, link.value.next, Place(lo.height, i + 1));
          longer := path + [link.value.next];
        }
      }
  }

  /** Whatever a tick meets and however it ends, the node stays consistent and its record
      only grows at the end. */
  lemma {:induction false} TickFromConsistent(f: FollowerState, l1: L1, lo: Place, source: BlockSource, view: L1View,
                                              path: seq<OutPoint>)
    returns (longer: seq<OutPoint>)
    requires ValidL1(l1) && Unspent(l1, f.anchor, lo)
    requires Consistent(f, l1, path) && lo.height == f.cursor + 1 <= |l1.blocks|
    ensures path <= longer && Consistent(TickFrom(f, l1, lo, source, view).0, l1, longer)
    ensures TickFrom(f, l1, lo, source, view).0.cursor < |l1.blocks|
    decreases |l1.blocks| - lo.height, RoomAfter(l1, lo)
  {
    hide Consistent, Unspent, NextMove, ValidL1, RoomAfter;
    longer := path;
    if lo.height < |l1.blocks| {
      longer := MoveConsistent(f, l1, lo, source, view, path);
      var m := NextMove(f, l1, lo, source, view);
      if m.Go? {
        longer := TickFromConsistent(m.next, l1, m.place, source, view, longer);
      }
    }
  }

  lemma UnspentFromBlockStart(l1: L1, op: OutPoint, lo: Place)
    requires Unspent(l1, op, lo)
    ensures Unspent(l1, op, Place(lo.height, 0))
  {
  }

  /** L1 only grows: later blocks are appended. */
  ghost predicate Grows(older: L1, newer: L1) {
    && |older.blocks| <= |newer.blocks|
    && newer.blocks[..|older.blocks|] == older.blocks
  }

  lemma ConsistentAsL1Grows(f: FollowerState, older: L1, newer: L1, path: seq<OutPoint>)
    requires Consistent(f, older, path) && Grows(older, newer) && ValidL1(newer) && f.cursor < |older.blocks|
    ensures Consistent(f, newer, path)
  {
    hide ValidL1, Path, SpentAt;
    forall op: OutPoint, p: Place
      ensures p.height < |older.blocks| ==> (SpentAt(older, op, p) <==> SpentAt(newer, op, p))
      ensures SpentAt(older, op, p) ==> IsPlace(older, p) && IsPlace(newer, p) && TxAt(newer, p) == TxAt(older, p)
    {
      GrowthKeeps(older, newer, op, p);
    }
  }

  lemma GrowthKeeps(older: L1, newer: L1, op: OutPoint, p: Place)
    requires Grows(older, newer)
    ensures p.height < |older.blocks| ==> (SpentAt(older, op, p) <==> SpentAt(newer, op, p))
    ensures SpentAt(older, op, p) ==> IsPlace(older, p) && IsPlace(newer, p) && TxAt(newer, p) == TxAt(older, p)
  {
    if p.height < |older.blocks| {
      assert newer.blocks[p.height] == older.blocks[p.height];
    }
  }

  datatype TickInput = TickInput(l1: L1, source: BlockSource, view: L1View)

  /** A run of ticks over a growing L1, with any block server and any view each time. */
  ghost predicate Feasible(first: L1, inputs: seq<TickInput>)
    decreases |inputs|
  {
    inputs == [] || (Grows(first, inputs[0].l1) && ValidL1(inputs[0].l1) && Feasible(inputs[0].l1, inputs[1..]))
  }

  ghost function RunTicks(f: FollowerState, inputs: seq<TickInput>): FollowerState
    decreases |inputs|
  {
    if inputs == [] then f
    else
      var i := inputs[0];
      if ValidL1(i.l1) && Unspent(i.l1, f.anchor, Place(f.cursor + 1, 0))
      then RunTicks(Tick(f, i.l1, i.source, i.view).0, inputs[1..])
      else f
  }

  function LastL1(first: L1, inputs: seq<TickInput>): L1 {
    if inputs == [] then first else inputs[|inputs| - 1].l1
  }

  /** Over every run of ticks the recorded spends lead from the first anchor to the stored one. */
  lemma {:induction false} RunConsistent(f: FollowerState, first: L1, inputs: seq<TickInput>, path: seq<OutPoint>)
    returns (longer: seq<OutPoint>)
    requires Consistent(f, first, path) && f.cursor < |first.blocks| && Feasible(first, inputs)
    ensures path <= longer && Consistent(RunTicks(f, inputs), LastL1(first, inputs), longer)
    decreases |inputs|
  {
    hide TickFrom, Unspent, TrueSpends, Path, ValidL1, Grows;
    longer := path;
    if inputs != [] {
      var i := inputs[0];
      GrowsLength(first, i.l1);
      ConsistentAsL1Grows(f, first, i.l1, path);
      var mid := path;
      if |i.l1.blocks| > f.cursor + 1 {
        mid := TickFromConsistent(f, i.l1, Place(f.cursor + 1, 0), i.source, i.view, path);
      }
      longer := RunConsistent(Tick(f, i.l1, i.source, i.view).0, i.l1, inputs[1..], mid);
      assert LastL1(i.l1, inputs[1..]) == LastL1(first, inputs);
    }
  }

  lemma GrowsLength(older: L1, newer: L1)
    requires Grows(older, newer)
    ensures |older.blocks| <= |newer.blocks|
  {
  }

  /** Follows recorded spends for at most `fuel` steps. */
  function EndOfRecord(spends: map<OutPoint, SpendRecord>, op: OutPoint, fuel: nat): OutPoint
    decreases fuel
  {
    if fuel > 0 && op in spends then EndOfRecord(spends, OutPoint(spends[op].txid, 1), fuel - 1) else op
  }

  lemma {:induction false} RecordLeads(spends: map<OutPoint, SpendRecord>, path: seq<OutPoint>, fuel: nat)
    requires path != [] && Path(spends, path) && path[|path| - 1] !in spends && fuel >= |path| - 1
    ensures EndOfRecord(spends, path[0], fuel) == path[|path| - 1]
    decreases |path|
  {
    if |path| > 1 {
      assert path[0] in spends && path[1] == OutPoint(spends[path[0]].txid, 1);
      RecordLeads(spends, path[1..], fuel - 1);
    }
  }

  lemma NeverSpent(l1: L1, op: OutPoint, lo: Place)
    requires Unspent(l1, op, lo) && |l1.blocks| <= lo.height
    ensures forall p :: !SpentAt(l1, op, p)
  {
  }

  /** Once a tick has completed, following the record from the first anchor, for any
      sufficient number of steps, ends at the stored anchor. */
  lemma RecordEndsAtAnchor(f: FollowerState, l1: L1, path: seq<OutPoint>, fuel: nat)
    requires Consistent(f, l1, path) && |l1.blocks| <= f.cursor + 1 && fuel >= |path| - 1
    ensures EndOfRecord(f.spends, path[0], fuel) == f.anchor
  {
    hide ValidL1, Path;
    NeverSpent(l1, f.anchor, Place(f.cursor + 1, 0));
    RecordLeads(f.spends, path, fuel);
  }

  // ---------- node and wallet over the same L1 ----------

  lemma {:induction false} WalkAnchor(head: VerifiedHead, advs: seq<Advance>, server: Server, view: L1View)
    requires WalkAll(head, StepsOf(advs), server, view).Ok?
    ensures WalkAll(head, StepsOf(advs), server, view).value.anchor == LastAnchor(advs, head.anchor)
    decreases |advs|
  {
    hide WalkRange;
    if advs != [] {
      assert StepsOf(advs)[1..] == StepsOf(advs[1..]);
      WalkAnchor(WalkStep(head, StepsOf(advs)[0], server, view).value, advs[1..], server, view);
    }
  }

  // ---------- the follower object ----------

  class FollowerNode {
    var ledger: LedgerState
    var head: Head
    var anchor: OutPoint
    var cursor: u32
    var spends: map<OutPoint, SpendRecord>

    constructor (f: FollowerState)
      ensures Value() == f && fresh(ledger)
    {
      ledger := new LedgerState(f.node.state);
      head, anchor, cursor, spends := f.node.head, f.anchor, f.cursor, f.spends;
    }

    function Value(): FollowerState
      reads this, ledger
    {
      FollowerState(NodeState(ledger.Value(), head), anchor, cursor, spends)
    }

    /** Replays the block on a copy of the ledger and swaps the copy in on success. */
    method ApplyOneBlock(height: u32, block: Block, att: Option<Attestation>,
                         view: L1View) returns (e: Option<BlockError>)
      modifies this
      ensures e.None? ==> ApplyBlock(old(Value()).node, height, block, att, view) == Ok(Value().node)
      ensures e.Some? ==>
        ApplyBlock(old(Value()).node, height, block, att, view) == Err(e.value) && Value() == old(Value())
      ensures anchor == old(anchor) && cursor == old(cursor) && spends == old(spends)
      ensures ledger == old(ledger) || fresh(ledger)
    {
      hide ValidateBlock, VerifyMints, Replay, StateRoot, HeaderHash;
      if block.header.height != height {
        return Some(WrongHeight);
      }
      if att.Some? {
        var broken := ValidateBlock(block, att.value);
        if broken.Some? {
          return broken;
        }
      }
      var badMint := CheckMints(block.txs, view);
      if badMint.Some? {
        return Some(BadMint(badMint.value));
      }
      var next := new LedgerState(ledger.Value());
      var badTx := next.ApplyAll(block.txs);
      if badTx.Some? {
        return Some(BadTx(badTx.value));
      }
      if StateRoot(next.Value()) != block.header.stateRoot {
        return Some(StateRootMismatch);
      }
      if block.header.prevHash != head.blockHash {
        return Some(PrevHashMismatch);
      }
      ledger := next;
      head := HeadAfter(height, block);
      return None;
    }

    method ProcessOneAdvance(adv: Advance, source: BlockSource, view: L1View) returns (end: Option<TickEnd>)
      modifies this
      ensures (Value(), end) == ProcessAdvance(old(Value()), adv, source, view)
      ensures ledger == old(ledger) || fresh(ledger)
    {
      hide ApplyBlock;
      var att := adv.attestation;
      if att.height <= head.height {
        return Some(Stuck);
      }
      ghost var start := Value();
      var h := head.height + 1;
      while h <= att.height
        invariant start.node.head.height + 1 <= h <= att.height + 1
        invariant ApplyRange(start.node, start.node.head.height + 1, att, source, view)
               == ApplyRange(Value().node, h, att, source, view)
        invariant Value() == start.(node := Value().node)
        invariant ledger == old(ledger) || fresh(ledger)
      {
        if h !in source {
          return Some(BlockFailed(FetchFailed));
        }
        var e := ApplyOneBlock(h, source[h], if h == att.height then Some(att) else None, view);
        if e.Some? {
          return Some(BlockFailed(e.value));
        }
        h := h + 1;
      }
      anchor := adv.next;
      spends := spends[adv.spent := SpendRecord(adv.txid, adv.l1Height)];
      return None;
    }

    /** Scans each L1 block again and again until it yields no further advance. */
    method RunTick(l1: L1, source: BlockSource, view: L1View) returns (end: TickEnd)
      requires ValidL1(l1) && Unspent(l1, anchor, Place(cursor + 1, 0))
      modifies this
      ensures (Value(), end) == Tick(old(Value()), l1, source, view)
    {
      hide ValidL1, Unspent, ProcessAdvance, SpenderIn, NextMove, ScanBlock, RoomAfter;
      if |l1.blocks| <= cursor + 1 {
        return Done;
      }
      ghost var start := Value();
      ghost var from := Place(cursor + 1, 0);
      var h := cursor + 1;
      ghost var lo := from;
      while h < |l1.blocks|
        invariant h == lo.height <= |l1.blocks| && lo.index == 0
        invariant Unspent(l1, anchor, lo)
        invariant TickFrom(start, l1, from, source, view) == TickFrom(Value(), l1, lo, source, view)
        invariant ledger == old(ledger) || fresh(ledger)
        decreases |l1.blocks| - h
      {
        CursorFits(l1, lo);
        var passed := false;
        while !passed
          invariant lo.height == if passed then h + 1 else h
          invariant lo.height <= |l1.blocks| && h < |l1.blocks|
          invariant passed ==> lo.index == 0
          invariant Unspent(l1, anchor, lo)
          invariant TickFrom(start, l1, from, source, view) == TickFrom(Value(), l1, lo, source, view)
          invariant ledger == old(ledger) || fresh(ledger)
          decreases !passed, RoomAfter(l1, lo)
        {
          var scan := ScanBlockForAdvance(l1, h, anchor);
          MoveByScan(Value(), l1, lo, source, view);
          if scan.Err? {
            return ScanFailed(scan.error);
          }
          if scan.value.None? {
            cursor := h;
            passed := true;
            lo := Place(h + 1, 0);
          } else {
            ghost var m := NextMove(Value(), l1, lo, source, view);
            var stop := ProcessOneAdvance(scan.value.value, source, view);
            if stop.Some? {
              return stop.value;
            }
            lo := m.place;
          }
        }
        h := h + 1;
      }
      end := Done;
    }
  }

  lemma MoveByScan(f: FollowerState, l1: L1, lo: Place, source: BlockSource, view: L1View)
    requires ValidL1(l1) && Unspent(l1, f.anchor, lo) && lo.height < |l1.blocks| && lo.height <= U32_MAX
    ensures var m, scan := NextMove(f, l1, lo, source, view), ScanBlock(l1, lo.height, f.anchor);
            && (scan.Err? ==> m == Stop(f, ScanFailed(scan.error)))
            && (scan.Ok? && scan.value.None? ==> m == Go(f.(cursor := lo.height), Place(lo.height + 1, 0)))
            && (scan.Ok? && scan.value.Some? ==>
                 var r := ProcessAdvance(f, scan.value.value, source, view);
                 if r.1.Some? then m == Stop(r.0, r.1.value)
                 else
                   && m.Go? && m.next == r.0 && m.place.height == lo.height
                   && RoomAfter(l1, m.place) < RoomAfter(l1, lo))
  {
    hide ValidL1, Unspent, SpenderIn, ProcessAdvance, LinkOf, ScanBlock, RoomAfter;
  }
}
