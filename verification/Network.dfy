/** The whole loop over L1: a sequencer that produces, posts and recovers, an L1 that mines
    its attestations, and a follower that sees nothing but L1 and the blocks it fetches. */
module Network {
  import opened Primitives
  import opened Types
  import opened MintProof
  import opened Node
  import opened L1Chain
  import opened Follower
  import opened Sequencer
  import opened PostHistory
  import opened LockStep

  /** The system with L1 between its parts. `posts` are the attestations that stand. */
  datatype World = World(
    sys: System,
    first: OutPoint,
    posts: seq<Pending>,
    l1: L1,
    anchor: OutPoint,
    cursor: u32,
    spends: map<OutPoint, SpendRecord>)

  datatype WorldStep =
    | BlockDue(around: Surroundings)
    | L1Due(statuses: seq<Status>, dueAround: Surroundings, tip: u32, posted: Option<Txid>)
    | Mined(block: seq<L1Tx>, mempool: seq<L1Tx>)
    | FollowerDue(view: L1View)

  function FollowerOf(w: World): FollowerState {
    FollowerState(w.sys.node, w.anchor, w.cursor, w.spends)
  }

  function WithFollower(w: World, f: FollowerState): World {
    w.(sys := w.sys.(node := f.node), anchor := f.anchor, cursor := f.cursor, spends := f.spends)
  }

  ghost predicate CanTick(w: World) {
    ValidL1(w.l1) && Unspent(w.l1, w.anchor, Place(w.cursor + 1, 0))
  }

  /** One step, and how the tick ended if it was one. */
  ghost function StepWorld(w: World, step: WorldStep): (World, TickEnd) {
    match step
    case BlockDue(around) => (w.(sys := StepSystem(w.sys, Producing(around)).0), Done)
    case L1Due(statuses, around, tip, posted) =>
      if |statuses| == |w.sys.sequencer.pending| <= |w.posts| then
        var watched := StepSystem(w.sys, Watching(statuses)).0;
        (w.(sys := StepSystem(watched, Posting(around, tip, posted)).0,
            posts := PostsAfter(w.sys.sequencer, L1Tick(statuses, around, tip, posted), w.posts)), Done)
      else (w, Done)
    case Mined(block, mempool) => (w.(l1 := L1(w.l1.blocks + [block], mempool)), Done)
    case FollowerDue(view) =>
      if CanTick(w) then
        var (f, end) := Tick(FollowerOf(w), w.l1, w.sys.sequencer.blocks, view);
        (WithFollower(w, f), end)
      else (w, Done)
  }

  // ---------- what holds of a reachable world ----------

  /** The transaction is the post's, carrying the attestation of the block it was posted for. */
  ghost predicate Carries(sys: System, tx: L1Tx, post: Pending) {
    && tx.txid == post.txid && |tx.scripts| >= 2
    && ParseScript(tx.scripts[0]) == Attests(AttestationOf(StateAfter(sys, post.l2Height)))
  }

  ghost predicate SpentOnL1(l1: L1, op: OutPoint) {
    exists p :: SpentAt(l1, op, p)
  }

  ghost predicate ProperPosts(posts: seq<Pending>) {
    forall i :: 0 <= i < |posts| ==> posts[i].next == OutPoint(posts[i].txid, 1) && posts[i].l2Height > 0
  }

  /** What L1 holds of the chain of anchors: each is spent by the post it belongs to, if at
      all, and the stored one not yet. */
  ghost predicate MinedPosts(sys: System, posts: seq<Pending>, l1: L1) {
    && (forall i :: 0 <= i < |posts| ==> SpentByPost(sys, l1, posts[i]))
    && !SpentOnL1(l1, sys.sequencer.anchor)
  }

  ghost predicate SpentByPost(sys: System, l1: L1, post: Pending) {
    forall p :: SpentAt(l1, post.spent, p) ==> Carries(sys, TxAt(l1, p), post)
  }

  /** Anchor number `j` of the chain. */
  function AnchorAt(sys: System, posts: seq<Pending>, j: nat): OutPoint
    requires j <= |posts|
  {
    if j == |posts| then sys.sequencer.anchor else posts[j].spent
  }

  function HeightAt(posts: seq<Pending>, j: nat): u32
    requires j <= |posts|
  {
    if j == 0 then 0 else posts[j - 1].l2Height
  }

  /** The follower has followed the first `j` posts, all of them mined, and may have begun
      with the batch of the next one, if that is mined too. */
  ghost predicate Followed(w: World, j: nat) {
    && j <= |w.posts|
    && w.anchor == AnchorAt(w.sys, w.posts, j) && HeightAt(w.posts, j) <= w.sys.node.head.height
    && (HeightAt(w.posts, j) < w.sys.node.head.height ==>
         j < |w.posts| && w.sys.node.head.height < w.posts[j].l2Height && SpentOnL1(w.l1, w.posts[j].spent))
    && forall i :: 0 <= i < j ==> SpentOnL1(w.l1, w.posts[i].spent)
  }

  ghost predicate Sound(w: World, j: nat) {
    && InStep(w.sys) && Standing(w.sys.sequencer, w.first, w.posts)
    && ValidL1(w.l1) && ProperPosts(w.posts) && MinedPosts(w.sys, w.posts, w.l1) && Followed(w, j)
  }

  /** The follower rescans from after its cursor. */
  ghost predicate Settled(w: World, j: nat) {
    Sound(w, j) && w.cursor < |w.l1.blocks| && Unspent(w.l1, w.anchor, Place(w.cursor + 1, 0))
  }

  // ---------- what a tick needs of the follower's view ----------

  /** This post and all before it are mined. */
  ghost predicate MinedThrough(w: World, i: nat)
    requires i < |w.posts|
  {
    forall k :: 0 <= k <= i ==> SpentOnL1(w.l1, w.posts[k].spent)
  }

  /** The view verifies the mints of every block that is attested on L1 and not yet held.
      Blocks the follower already holds, or that are not yet attested there, do not matter. */
  ghost predicate ViewSuffices(w: World, view: L1View) {
    forall i :: 0 <= i < |w.posts| && MinedThrough(w, i) ==>
      BatchVerifies(w.sys, view, w.sys.node.head.height, w.posts[i].l2Height)
  }

  lemma HeightsRise(w: World, j: nat, i: nat)
    requires Sound(w, j) && i < j <= |w.posts|
    ensures w.posts[i].l2Height <= HeightAt(w.posts, j)
  {
    hide InStep, ValidL1, MinedPosts, Followed;
  }

  lemma MinedBefore(w: World, j: nat, i: nat)
    requires Followed(w, j) && !SpentOnL1(w.l1, w.anchor) && i < |w.posts| && MinedThrough(w, i)
    ensures i < j
  {
    hide SpentOnL1;
  }

  /** With the anchor unspent nothing is due. */
  lemma NothingDue(w: World, j: nat, view: L1View)
    requires Sound(w, j) && !SpentOnL1(w.l1, w.anchor)
    ensures ViewSuffices(w, view) && w.sys.node.head.height == HeightAt(w.posts, j)
  {
    hide InStep, ValidL1, MinedPosts, Standing, SpentOnL1, MintsVerify;
    forall i | 0 <= i < |w.posts| && MinedThrough(w, i)
      ensures BatchVerifies(w.sys, view, w.sys.node.head.height, w.posts[i].l2Height)
    {
      MinedBefore(w, j, i);
      HeightsRise(w, j, i);
    }
  }

  /** Taking the batch of the next post leaves the later ones due. */
  lemma OneLessDue(w: World, j: nat, next: World, view: L1View)
    requires Sound(w, j) && j < |w.posts| && SpentOnL1(w.l1, w.anchor)
    requires next == WithFollower(w, FollowerOf(next)) && next.sys.node.head.height == w.posts[j].l2Height
    requires forall h :: MintsVerify(next.sys, view, h) == MintsVerify(w.sys, view, h)
    ensures ViewSuffices(w, view) <==>
            (BatchVerifies(w.sys, view, w.sys.node.head.height, w.posts[j].l2Height) && ViewSuffices(next, view))
  {
    hide InStep, ValidL1, MinedPosts, SpentOnL1, MintsVerify, Linked;
    var h := w.sys.node.head.height;
    assert MinedThrough(w, j);
    forall i | 0 <= i < |w.posts|
      ensures MinedThrough(next, i) <==> MinedThrough(w, i)
      ensures BatchVerifies(w.sys, view, h, w.posts[j].l2Height) ==>
        (BatchVerifies(next.sys, view, w.posts[j].l2Height, w.posts[i].l2Height)
         <==> BatchVerifies(w.sys, view, h, w.posts[i].l2Height))
    {
      LaterHeights(w, j, i);
      if BatchVerifies(w.sys, view, h, w.posts[j].l2Height)
         && BatchVerifies(next.sys, view, w.posts[j].l2Height, w.posts[i].l2Height) {
        forall k | h < k <= w.posts[i].l2Height
          ensures MintsVerify(w.sys, view, k)
        {
          assert MintsVerify(next.sys, view, k) == MintsVerify(w.sys, view, k);
        }
      }
    }
  }

  lemma LaterHeights(w: World, j: nat, i: nat)
    requires Sound(w, j) && i < |w.posts| && j < |w.posts| && w.sys.sequencer.head.height <= U32_MAX
    ensures w.sys.node.head.height < w.posts[j].l2Height
    ensures i < j ==> w.posts[i].l2Height <= w.sys.node.head.height
    ensures i > j ==> w.posts[j].l2Height < w.posts[i].l2Height
  {
    hide InStep, ValidL1, MinedPosts;
  }

  lemma SameDue(w: World, cursor: u32, view: L1View)
    ensures ViewSuffices(w.(cursor := cursor), view) <==> ViewSuffices(w, view)
  {
    hide SpentOnL1, BatchVerifies;
    var next := w.(cursor := cursor);
    assert forall i :: 0 <= i < |w.posts| ==> MinedThrough(next, i) == MinedThrough(w, i);
  }

  // ---------- one tick ----------

  lemma PostFollows(w: World, j: nat)
    requires Sound(w, j) && j < |w.posts| && w.sys.sequencer.head.height < U32_MAX
    ensures w.sys.node.head.height < w.posts[j].l2Height <= w.sys.sequencer.head.height
    ensures AttestationOf(StateAfter(w.sys, w.posts[j].l2Height)).height == w.posts[j].l2Height
    ensures AnchorAt(w.sys, w.posts, j + 1) == OutPoint(w.posts[j].txid, 1)
  {
    hide InStep, ValidL1, MinedPosts, StateAfter;
    assert w.posts[j] in w.posts;
    HeightAfter(w.sys, w.posts[j].l2Height);
    if j + 1 < |w.posts| {
      assert Joined(w.posts, j + 1);
    }
  }

  /** A mined transaction that spends the follower's anchor is the next post. */
  lemma NextPost(w: World, j: nat, p: Place) returns (adv: Advance)
    requires Sound(w, j) && w.sys.sequencer.head.height < U32_MAX
    requires SpentAt(w.l1, w.anchor, p) && p.height <= U32_MAX
    ensures j < |w.posts| && SpentOnL1(w.l1, w.anchor)
    ensures LinkOf(TxAt(w.l1, p), p.height, w.anchor) == Ok(adv)
    ensures adv.attestation == AttestationOf(StateAfter(w.sys, w.posts[j].l2Height))
    ensures adv.next == AnchorAt(w.sys, w.posts, j + 1)
  {
    hide InStep, ValidL1, StateAfter, Standing;
    assert SpentOnL1(w.l1, w.anchor);
    PostFollows(w, j);
    assert SpentByPost(w.sys, w.l1, w.posts[j]);
    assert Carries(w.sys, TxAt(w.l1, p), w.posts[j]);
    adv := LinkOf(TxAt(w.l1, p), p.height, w.anchor).value;
  }

  /** What processing it comes to: the batch is taken whole exactly if the view verifies its
      mints, and otherwise up to the first block it does not verify. */
  ghost predicate AdvanceOutcome(w: World, j: nat, adv: Advance, view: L1View)
    requires j < |w.posts|
  {
    var (f, end) := ProcessAdvance(FollowerOf(w), adv, w.sys.sequencer.blocks, view);
    var next := WithFollower(w, f);
    && f.cursor == w.cursor
    && (end.None? <==> BatchVerifies(w.sys, view, w.sys.node.head.height, w.posts[j].l2Height))
    && (end.None? ==>
         && Sound(next, j + 1) && f.anchor == adv.next
         && (ViewSuffices(w, view) <==> ViewSuffices(next, view)))
    && (end.Some? ==>
         && Sound(next, j) && f.anchor == w.anchor && !ViewSuffices(w, view)
         && end.value.BlockFailed? && end.value.blockError.BadMint?)
  }

  lemma AdvanceInWorld(w: World, j: nat, p: Place, view: L1View) returns (adv: Advance)
    requires Sound(w, j) && w.sys.sequencer.head.height < U32_MAX
    requires SpentAt(w.l1, w.anchor, p) && p.height <= U32_MAX
    ensures j < |w.posts| && LinkOf(TxAt(w.l1, p), p.height, w.anchor) == Ok(adv)
    ensures AdvanceOutcome(w, j, adv, view)
  {
    hide InStep, ValidL1, StateAfter, ApplyRange, Sound, SpentAt, BatchVerifies, ViewSuffices, Carries, LinkOf;
    adv := NextPost(w, j, p);
    PostFollows(w, j);
    SoundValid(w, j);
    var t := w.posts[j].l2Height;
    BatchInStep(w.sys, t, view);
    var f := ProcessAdvance(FollowerOf(w), adv, w.sys.sequencer.blocks, view).0;
    var next := WithFollower(w, f);
    SameButNode(w.sys, next.sys, view);
    if BatchVerifies(w.sys, view, w.sys.node.head.height, t) {
      NodeMoved(w, f, j);
      OneLessDue(w, j, next, view);
    } else {
      var r := ApplyRange(w.sys.node, w.sys.node.head.height + 1, AttestationOf(StateAfter(w.sys, t)),
                          w.sys.sequencer.blocks, view);
      assert r.1.Some?;
      NodeStopped(w, f, j);
      DueFails(w, j, view);
    }
  }

  lemma DueFails(w: World, j: nat, view: L1View)
    requires Sound(w, j) && j < |w.posts| && SpentOnL1(w.l1, w.anchor)
    requires !BatchVerifies(w.sys, view, w.sys.node.head.height, w.posts[j].l2Height)
    ensures !ViewSuffices(w, view)
  {
    hide InStep, ValidL1, Standing, MinedPosts, BatchVerifies, SpentOnL1;
    assert MinedThrough(w, j);
  }

  lemma NodeMoved(w: World, f: FollowerState, j: nat)
    requires Sound(w, j) && j < |w.posts| && InStep(w.sys.(node := f.node))
    requires f.anchor == AnchorAt(w.sys, w.posts, j + 1) && f.node.head.height == w.posts[j].l2Height
    requires SpentOnL1(w.l1, w.anchor)
    ensures Sound(WithFollower(w, f), j + 1)
  {
    hide InStep, ValidL1, Standing, SpentOnL1, SpentByPost;
    var next := WithFollower(w, f);
    SamePosts(w, next);
  }

  lemma NodeStopped(w: World, f: FollowerState, j: nat)
    requires Sound(w, j) && j < |w.posts| && InStep(w.sys.(node := f.node))
    requires f.anchor == w.anchor && w.sys.node.head.height <= f.node.head.height < w.posts[j].l2Height
    requires SpentOnL1(w.l1, w.anchor)
    ensures Sound(WithFollower(w, f), j)
  {
    hide InStep, ValidL1, Standing, SpentOnL1, SpentByPost;
    var next := WithFollower(w, f);
    SamePosts(w, next);
  }

  lemma SamePosts(w: World, next: World)
    requires next.sys == w.sys.(node := next.sys.node)
    ensures forall post :: SpentByPost(next.sys, w.l1, post) == SpentByPost(w.sys, w.l1, post)
  {
    hide SpentAt;
    assert forall h :: StateAfter(next.sys, h) == StateAfter(w.sys, h);
    assert forall tx, post :: Carries(next.sys, tx, post) == Carries(w.sys, tx, post);
  }

  lemma CursorMoved(w: World, j: nat, cursor: u32)
    requires Sound(w, j)
    ensures Sound(w.(cursor := cursor), j)
  {
    hide InStep, ValidL1, Standing, MinedPosts;
  }

  /** What one scan comes to. */
  ghost predicate MoveOutcome(w: World, lo: Place, k: nat, view: L1View)
    requires ValidL1(w.l1) && Unspent(w.l1, w.anchor, lo) && lo.height < |w.l1.blocks|
  {
    var m := NextMove(FollowerOf(w), w.l1, lo, w.sys.sequencer.blocks, view);
    if m.Go? then
      var next := WithFollower(w, m.next);
      && Sound(next, k) && m.place.height == m.next.cursor + 1
      && (ViewSuffices(w, view) <==> ViewSuffices(next, view))
    else
      && Sound(WithFollower(w, m.state), k) && m.state.cursor == w.cursor && m.state.anchor == w.anchor
      && !ViewSuffices(w, view) && m.end.BlockFailed? && m.end.blockError.BadMint?
  }

  lemma MoveInWorld(w: World, j: nat, lo: Place, view: L1View) returns (k: nat)
    requires ValidL1(w.l1) && Unspent(w.l1, w.anchor, lo) && lo.height == w.cursor + 1 < |w.l1.blocks|
    requires Sound(w, j) && w.sys.sequencer.head.height < U32_MAX
    ensures MoveOutcome(w, lo, k, view)
  {
    hide Sound, ValidL1, Unspent, SpenderIn, ProcessAdvance, ScanBlock, WithFollower, NextMove, RoomAfter, ViewSuffices,
         BatchVerifies;
    k := j;
    CursorFits(w.l1, lo);
    MoveByScan(FollowerOf(w), w.l1, lo, w.sys.sequencer.blocks, view);
    ScanFinds(w.l1, lo.height, w.anchor);
    var found := SpenderIn(w.l1.blocks[lo.height], w.anchor, 0);
    if found.Some? {
      var adv := AdvanceInWorld(w, j, Place(lo.height, found.value), view);
      if ProcessAdvance(FollowerOf(w), adv, w.sys.sequencer.blocks, view).1.None? {
        k := j + 1;
      }
    } else {
      CursorMoved(w, j, lo.height);
      WithCursor(w, lo.height);
      SameDue(w, lo.height, view);
    }
  }

  lemma SoundValid(w: World, j: nat)
    requires Sound(w, j)
    ensures ValidL1(w.l1) && InStep(w.sys)
  {
    hide ValidL1, InStep;
  }

  lemma WithCursor(w: World, cursor: u32)
    ensures WithFollower(w, FollowerOf(w).(cursor := cursor)) == w.(cursor := cursor)
  {
  }

  lemma ScanFinds(l1: L1, h: u32, anchor: OutPoint)
    requires h < |l1.blocks|
    ensures var found := SpenderIn(l1.blocks[h], anchor, 0);
            && (found.None? ==> ScanBlock(l1, h, anchor) == Ok(None))
            && (found.Some? ==>
                 && SpentAt(l1, anchor, Place(h, found.value))
                 && var link := LinkOf(TxAt(l1, Place(h, found.value)), h, anchor);
                    ScanBlock(l1, h, anchor) == if link.Ok? then Ok(Some(link.value)) else Err(link.error))
  {
    hide SpenderIn, LinkOf;
  }

  /** How a tick ends: in a settled world; completed, with nothing left to follow, exactly if
      the view sufficed; and if not, at the first mint that the view does not verify. */
  ghost predicate TickOutcome(w: World, next: World, end: TickEnd, k: nat, view: L1View) {
    && Settled(next, k) && next.l1 == w.l1
    && (end == Done <==> ViewSuffices(w, view))
    && (end == Done ==> !SpentOnL1(next.l1, next.anchor))
    && (end != Done ==> end.BlockFailed? && end.blockError.BadMint?)
  }

  /** A tick of the follower over whatever L1 has mined so far. */
  lemma {:induction false} TickInWorld(w: World, j: nat, lo: Place, view: L1View) returns (k: nat)
    requires ValidL1(w.l1) && Unspent(w.l1, w.anchor, lo) && lo.height == w.cursor + 1 <= |w.l1.blocks|
    requires Sound(w, j) && w.sys.sequencer.head.height < U32_MAX
    ensures var (f, end) := TickFrom(FollowerOf(w), w.l1, lo, w.sys.sequencer.blocks, view);
            TickOutcome(w, WithFollower(w, f), end, k, view)
    decreases |w.l1.blocks| - lo.height, RoomAfter(w.l1, lo)
  {
    hide Sound, ValidL1, Unspent, NextMove, RoomAfter, ViewSuffices, SpentOnL1;
    k := j;
    UnspentFromBlockStart(w.l1, w.anchor, lo);
    SameFollower(w);
    if lo.height == |w.l1.blocks| {
      NothingLater(w.l1, w.anchor, w.cursor);
      NothingDue(w, j, view);
    } else {
      k := MoveInWorld(w, j, lo, view);
      var m := NextMove(FollowerOf(w), w.l1, lo, w.sys.sequencer.blocks, view);
      if m.Go? {
        k := TickInWorld(WithFollower(w, m.next), k, m.place, view);
      }
    }
  }

  lemma SameFollower(w: World)
    ensures WithFollower(w, FollowerOf(w)) == w
  {
  }

  lemma TickStep(w: World, view: L1View)
    requires CanTick(w) && w.cursor < |w.l1.blocks|
    ensures var (f, end) := TickFrom(FollowerOf(w), w.l1, Place(w.cursor + 1, 0), w.sys.sequencer.blocks, view);
            StepWorld(w, FollowerDue(view)) == (WithFollower(w, f), end)
  {
    hide ValidL1, Unspent, NextMove;
    SameFollower(w);
  }

  lemma SettledFacts(w: World, j: nat)
    requires Settled(w, j)
    ensures CanTick(w) && w.cursor < |w.l1.blocks|
  {
    hide InStep, Standing, MinedPosts, Followed, Unspent, ValidL1;
  }

  lemma TickSettles(w: World, j: nat, view: L1View) returns (k: nat)
    requires Settled(w, j) && w.sys.sequencer.head.height < U32_MAX
    ensures var (next, end) := StepWorld(w, FollowerDue(view)); TickOutcome(w, next, end, k, view)
  {
    hide Sound, ValidL1, Unspent, TickFrom, StepWorld, TickOutcome;
    SettledFacts(w, j);
    TickStep(w, view);
    k := TickInWorld(w, j, Place(w.cursor + 1, 0), view);
  }

  lemma NothingLater(l1: L1, op: OutPoint, cursor: u32)
    requires Unspent(l1, op, Place(cursor + 1, 0)) && |l1.blocks| <= cursor + 1
    ensures !SpentOnL1(l1, op)
  {
  }

  // ---------- the other steps ----------

  /** The sequencer has moved on, having published more and forgotten nothing. */
  ghost predicate MovedOn(w: World, next: World) {
    && next.first == w.first && next.l1 == w.l1 && next.anchor == w.anchor && next.cursor == w.cursor
    && next.spends == w.spends && next.sys.node == w.sys.node
    && InStep(next.sys)
    && forall h :: 0 <= h <= w.sys.sequencer.head.height ==> StateAfter(next.sys, h) == StateAfter(w.sys, h)
  }

  lemma StillMined(w: World, next: World, i: nat)
    requires InStep(w.sys) && Standing(w.sys.sequencer, w.first, w.posts) && MinedPosts(w.sys, w.posts, w.l1)
    requires MovedOn(w, next) && i < |w.posts|
    ensures SpentByPost(next.sys, w.l1, w.posts[i])
  {
    hide InStep, StateAfter, Linked, SpentAt;
    assert w.posts[i] in w.posts;
    assert SpentByPost(w.sys, w.l1, w.posts[i]);
  }

  lemma PastLength(sys: System)
    requires InStep(sys)
    ensures |sys.past| == sys.sequencer.head.height
  {
    hide StateAfter;
  }

  lemma ProducingStep(w: World, around: Surroundings)
    ensures StepWorld(w, BlockDue(around)) ==
            (w.(sys := w.sys.(sequencer := Produce(w.sys.sequencer, around),
                              past := w.sys.past + [Production(w.sys.sequencer, around)])), Done)
    ensures StepWorld(w, BlockDue(around)).0.sys == StepSystem(w.sys, Producing(around)).0
  {
    hide Produce;
  }

  lemma StandingGrows(s: SequencerState, first: OutPoint, posts: seq<Pending>, next: SequencerState)
    requires Standing(s, first, posts)
    requires next.pending == s.pending && next.anchor == s.anchor && s.head.height <= next.head.height
    ensures Standing(next, first, posts)
  {
    hide Linked;
  }

  lemma BlockDueSound(w: World, j: nat, around: Surroundings)
    requires Settled(w, j) && w.sys.sequencer.head.height < U32_MAX
    ensures StepWorld(w, BlockDue(around)).1 == Done
    ensures Settled(StepWorld(w, BlockDue(around)).0, j)
  {
    hide InStep, ValidL1, Unspent, Produce, StateAfter, Standing, SpentByPost, SpentOnL1, StepSystem, StepWorld;
    var next := StepWorld(w, BlockDue(around)).0;
    ProducingStep(w, around);
    StepKeepsInStep(w.sys, Producing(around));
    ProduceFacts(w.sys.sequencer, around);
    StandingGrows(w.sys.sequencer, w.first, w.posts, next.sys.sequencer);
    PastLength(w.sys);
    forall h | 0 <= h <= w.sys.sequencer.head.height
      ensures StateAfter(next.sys, h) == StateAfter(w.sys, h)
    {
      PastExtended(w.sys, next.sys, around, h);
    }
    forall i | 0 <= i < |w.posts|
      ensures SpentByPost(next.sys, w.l1, w.posts[i])
    {
      StillMined(w, next, i);
    }
  }

  /** L1 grows by a block: an output is spent once, each anchor only by its own post, and the
      stored one by none, as only the sequencer can spend them. */
  ghost predicate HonestMining(w: World, block: seq<L1Tx>, mempool: seq<L1Tx>) {
    && ValidL1(L1(w.l1.blocks + [block], mempool))
    && forall k :: 0 <= k < |block| ==>
         && w.sys.sequencer.anchor !in block[k].inputs
         && forall i :: 0 <= i < |w.posts| && w.posts[i].spent in block[k].inputs ==>
              Carries(w.sys, block[k], w.posts[i])
  }

  lemma MinedSound(w: World, j: nat, block: seq<L1Tx>, mempool: seq<L1Tx>)
    requires Settled(w, j) && HonestMining(w, block, mempool)
    ensures Settled(StepWorld(w, Mined(block, mempool)).0, j)
  {
    hide InStep, ValidL1, Standing, Carries;
    var l1 := L1(w.l1.blocks + [block], mempool);
    forall op, p
      ensures SpentAt(w.l1, op, p) ==> SpentAt(l1, op, p) && TxAt(l1, p) == TxAt(w.l1, p)
      ensures SpentAt(l1, op, p) ==>
        || SpentAt(w.l1, op, p)
        || (&& p.height == |w.l1.blocks| && p.index < |block| && op in block[p.index].inputs
            && TxAt(l1, p) == block[p.index])
    {
      SpentInGrown(w.l1, block, mempool, op, p);
    }
    forall i | 0 <= i < |w.posts|
      ensures SpentByPost(w.sys, l1, w.posts[i])
    {
      assert SpentByPost(w.sys, w.l1, w.posts[i]);
    }
    assert Unspent(l1, w.anchor, Place(w.cursor + 1, 0));
    forall i | 0 <= i < j
      ensures SpentOnL1(l1, w.posts[i].spent)
    {
      assert SpentOnL1(w.l1, w.posts[i].spent);
      var p :| SpentAt(w.l1, w.posts[i].spent, p);
      assert SpentAt(l1, w.posts[i].spent, p);
    }
  }

  lemma SpentInGrown(l1: L1, block: seq<L1Tx>, mempool: seq<L1Tx>, op: OutPoint, p: Place)
    ensures var grown := L1(l1.blocks + [block], mempool);
            && (SpentAt(l1, op, p) ==> SpentAt(grown, op, p) && TxAt(grown, p) == TxAt(l1, p))
            && (SpentAt(grown, op, p) ==>
                 || SpentAt(l1, op, p)
                 || (p.height == |l1.blocks| && p.index < |block| && op in block[p.index].inputs
                     && TxAt(grown, p) == block[p.index]))
  {
  }

  /** What L1 reports of the pending attestations is orderly, and none it has mined is missing;
      a transaction it accepts is a new one, with outputs nothing has spent. */
  ghost predicate HonestL1(w: World, statuses: seq<Status>, posted: Option<Txid>) {
    var pending := w.sys.sequencer.pending;
    && |statuses| == |pending| && OrderlyStatuses(statuses)
    && (forall i :: 0 <= i < |statuses| && statuses[i].Missing? ==> !SpentOnL1(w.l1, pending[i].spent))
    && (posted.Some? ==> !SpentOnL1(w.l1, OutPoint(posted.value, 1)))
  }

  /** What remains of the posts: all, or all but the newest, which went missing. */
  lemma RemainingShape(w: World, statuses: seq<Status>) returns (b: nat)
    requires Standing(w.sys.sequencer, w.first, w.posts) && HonestL1(w, statuses, None)
    ensures b <= |w.posts| <= b + 1 && Remaining(w.posts, statuses) == w.posts[..b]
    ensures b < |w.posts| ==> !SpentOnL1(w.l1, w.posts[b].spent)
    ensures Monitor(w.sys.sequencer, statuses).anchor == AnchorAt(w.sys, w.posts, b)
  {
    hide Linked, OrderlyStatuses, Monitor, AllStatuses, Remaining, LastMissing, SpentOnL1, KeptInterval;
    var s, posts := w.sys.sequencer, w.posts;
    var all := AllStatuses(posts, statuses);
    OrderlyAll(posts, statuses);
    var a;
    a, b := OrderlyInterval(all);
    RemainingPrefix(posts, all, b);
    RemainingUnfold(posts, statuses);
    MonitorAll(s, w.first, posts, statuses);
    MonitorFacts(Unforgetting(s, posts), all);
    if b < |posts| {
      var k := |posts| - |statuses|;
      assert all[b].Missing?;
      assert all[b] == statuses[b - k] && s.pending[b - k] == posts[b];
    }
  }

  lemma RewoundSound(w: World, j: nat, statuses: seq<Status>)
    requires Settled(w, j) && HonestL1(w, statuses, None) && w.sys.sequencer.head.height < U32_MAX
    ensures var next := w.(sys := StepSystem(w.sys, Watching(statuses)).0, posts := Remaining(w.posts, statuses));
            Settled(next, j)
  {
    hide InStep, ValidL1, Unspent, Monitor, StateAfter, Linked, SpentByPost, SpentOnL1, OrderlyStatuses, Remaining,
         StepSystem, Standing;
    HonestParts(w, j, statuses, None);
    WatchingStep(w.sys, statuses);
    var next := w.(sys := StepSystem(w.sys, Watching(statuses)).0, posts := Remaining(w.posts, statuses));
    var b := RemainingShape(w, statuses);
    OrderlyKeepsStanding(w.sys.sequencer, w.first, w.posts, statuses);
    StepKeepsInStep(w.sys, Watching(statuses));
    MonitorHead(w.sys.sequencer, statuses);
    assert forall h :: StateAfter(next.sys, h) == StateAfter(w.sys, h) by {
      WatchedStates(w.sys, statuses);
    }
    assert j <= b by {
      FollowedWithin(w, j, b);
    }
    forall i | 0 <= i < b
      ensures SpentByPost(next.sys, w.l1, w.posts[i])
    {
      StillMined(w, next, i);
    }
  }

  lemma FollowedWithin(w: World, j: nat, b: nat)
    requires Followed(w, j) && b <= |w.posts| && (b < |w.posts| ==> !SpentOnL1(w.l1, w.posts[b].spent))
    ensures j <= b && (HeightAt(w.posts, j) < w.sys.node.head.height ==> j < b)
  {
    hide SpentOnL1;
  }

  lemma WatchingStep(sys: System, statuses: seq<Status>)
    requires |statuses| == |sys.sequencer.pending|
    ensures StepSystem(sys, Watching(statuses)).0 == sys.(sequencer := Monitor(sys.sequencer, statuses))
  {
    hide Monitor;
  }

  lemma WatchedStates(sys: System, statuses: seq<Status>)
    ensures forall h :: StateAfter(StepSystem(sys, Watching(statuses)).0, h) == StateAfter(sys, h)
  {
    hide Monitor, Produce;
  }

  lemma PostedSound(w: World, j: nat, around: Surroundings, tip: u32, posted: Option<Txid>)
    requires Settled(w, j) && w.sys.sequencer.head.height < U32_MAX
    requires posted.Some? ==> !SpentOnL1(w.l1, OutPoint(posted.value, 1))
    ensures var s, s' := w.sys.sequencer, CheckAndAttest(w.sys.sequencer, around, tip, posted);
            && |s.pending| <= |s'.pending| <= |s.pending| + 1
            && var posts := if |s'.pending| > |s.pending| then w.posts + [s'.pending[|s.pending|]] else w.posts;
               Settled(w.(sys := StepSystem(w.sys, Posting(around, tip, posted)).0, posts := posts), j)
  {
    hide InStep, ValidL1, Unspent, CheckAndAttest, StateAfter, Linked, Carries, LastAttested, Produce,
         StepSystem, SpentOnL1, Standing, SpentByPost;
    var s, s' := w.sys.sequencer, CheckAndAttest(w.sys.sequencer, around, tip, posted);
    AttestKeepsStanding(s, w.first, w.posts, around, tip, posted);
    AttestFacts(s, around, tip, posted);
    AttestingFacts(s, around, tip, posted);
    StepKeepsInStep(w.sys, Posting(around, tip, posted));
    PostingStep(w.sys, around, tip, posted);
    PastLength(w.sys);
    var next := w.(sys := StepSystem(w.sys, Posting(around, tip, posted)).0,
                   posts := if |s'.pending| > |s.pending| then w.posts + [s'.pending[|s.pending|]] else w.posts);
    forall h | 0 <= h <= s.head.height
      ensures StateAfter(next.sys, h) == StateAfter(w.sys, h)
    {
      if tip > LastAttested(s) {
        PastExtended(w.sys, next.sys, around, h);
      } else {
        assert next.sys == w.sys;
      }
    }
    forall i | 0 <= i < |next.posts|
      ensures SpentByPost(next.sys, w.l1, next.posts[i])
    {
      if i < |w.posts| {
        StillMined(w, next, i);
      } else {
        UnspentByPost(next.sys, w.l1, next.posts[i]);
      }
    }
  }

  lemma UnspentByPost(sys: System, l1: L1, post: Pending)
    requires !SpentOnL1(l1, post.spent)
    ensures SpentByPost(sys, l1, post)
  {
    hide SpentAt;
  }

  lemma PostingStep(sys: System, around: Surroundings, tip: u32, posted: Option<Txid>)
    ensures var due := tip > LastAttested(sys.sequencer);
            StepSystem(sys, Posting(around, tip, posted)).0
            == sys.(sequencer := CheckAndAttest(sys.sequencer, around, tip, posted),
                    past := if due then sys.past + [Production(sys.sequencer, around)] else sys.past)
  {
    hide CheckAndAttest, LastAttested;
  }

  lemma L1DueSound(w: World, j: nat, statuses: seq<Status>, around: Surroundings, tip: u32, posted: Option<Txid>)
    requires Settled(w, j) && w.sys.sequencer.head.height < U32_MAX && HonestL1(w, statuses, posted)
    ensures Settled(StepWorld(w, L1Due(statuses, around, tip, posted)).0, j)
  {
    hide Settled, HonestL1, Monitor, CheckAndAttest, Remaining, InStep;
    assert HonestL1(w, statuses, None) && |statuses| == |w.sys.sequencer.pending| <= |w.posts|
      && (posted.Some? ==> !SpentOnL1(w.l1, OutPoint(posted.value, 1))) by {
      HonestParts(w, j, statuses, posted);
    }
    RewoundSound(w, j, statuses);
    var mid := w.(sys := StepSystem(w.sys, Watching(statuses)).0, posts := Remaining(w.posts, statuses));
    MonitorHead(w.sys.sequencer, statuses);
    PostedSound(mid, j, around, tip, posted);
  }

  lemma HonestParts(w: World, j: nat, statuses: seq<Status>, posted: Option<Txid>)
    requires Settled(w, j) && HonestL1(w, statuses, posted)
    ensures HonestL1(w, statuses, None) && |statuses| == |w.sys.sequencer.pending| <= |w.posts|
    ensures posted.Some? ==> !SpentOnL1(w.l1, OutPoint(posted.value, 1))
  {
    hide InStep, ValidL1, Unspent, MinedPosts, Linked, OrderlyStatuses;
  }

  // ---------- whole runs ----------

  /** Premises on one step: heights do not run out, and L1 is honest. Nothing is asked of
      the follower's view. */
  ghost predicate Possible(w: World, step: WorldStep) {
    && w.sys.sequencer.head.height < U32_MAX
    && match step
       case BlockDue(_) => true
       case L1Due(statuses, _, _, posted) => HonestL1(w, statuses, posted)
       case Mined(block, mempool) => HonestMining(w, block, mempool)
       case FollowerDue(_) => true
  }

  ghost predicate PossibleRun(w: World, steps: seq<WorldStep>)
    decreases |steps|
  {
    && w.sys.sequencer.head.height < U32_MAX
    && (steps == [] || (Possible(w, steps[0]) && PossibleRun(StepWorld(w, steps[0]).0, steps[1..])))
  }

  ghost function RunWorld(w: World, steps: seq<WorldStep>): World
    decreases |steps|
  {
    if steps == [] then w else RunWorld(StepWorld(w, steps[0]).0, steps[1..])
  }

  lemma StepSettled(w: World, j: nat, step: WorldStep) returns (k: nat)
    requires Settled(w, j) && Possible(w, step)
    ensures Settled(StepWorld(w, step).0, k)
  {
    hide Settled, StepWorld, HonestL1, HonestMining, ViewSuffices;
    k := j;
    match step
    case BlockDue(around) => BlockDueSound(w, j, around);
    case L1Due(statuses, around, tip, posted) => L1DueSound(w, j, statuses, around, tip, posted);
    case Mined(block, mempool) => MinedSound(w, j, block, mempool);
    case FollowerDue(view) => k := TickSettles(w, j, view);
  }

  lemma {:induction false} RunSettled(w: World, j: nat, steps: seq<WorldStep>) returns (k: nat)
    requires Settled(w, j) && PossibleRun(w, steps)
    ensures Settled(RunWorld(w, steps), k) && RunWorld(w, steps).sys.sequencer.head.height < U32_MAX
    decreases |steps|
  {
    hide Settled, StepWorld, Possible;
    k := j;
    if steps != [] {
      k := StepSettled(w, j, steps[0]);
      k := RunSettled(StepWorld(w, steps[0]).0, k, steps[1..]);
    }
  }

  /** A chain at genesis: nothing posted, the first anchor unspent, the follower at it. */
  ghost predicate Launched(w: World) {
    && LockStep.Fresh(w.sys) && w.sys.first.pending == [] && w.posts == []
    && w.sys.first.anchor == w.first == w.anchor && !SpentOnL1(w.l1, w.first)
    && ValidL1(w.l1) && w.cursor < |w.l1.blocks|
  }

  /** Over every run from genesis in which L1 mines the sequencer's attestations, loses at
      most the newest of them at a time and has them posted again, and the follower ticks with
      any views: the follower always holds the ledger the sequencer had at its height. Its next
      tick completes, and brings it to the last attestation mined, exactly if its view then
      verifies the mints of the blocks attested since; nothing else can stop it, and a tick so
      stopped leaves a world in which the same holds again. */
  lemma NetworkHolds(w: World, steps: seq<WorldStep>, view: L1View)
    requires Launched(w) && PossibleRun(w, steps)
    ensures var end := RunWorld(w, steps);
            var (after, tick) := StepWorld(end, FollowerDue(view));
            && end.sys.node.head.height <= end.sys.sequencer.head.height
            && end.sys.node.state == StateAfter(end.sys, end.sys.node.head.height).state
            && (tick == Done <==> ViewSuffices(end, view))
            && (tick == Done ==> !SpentOnL1(after.l1, after.anchor))
            && (tick == Done ==> exists j :: 0 <= j <= |after.posts| && Reaches(after, j))
            && (tick != Done ==> tick.BlockFailed? && tick.blockError.BadMint?)
  {
    hide PossibleRun, RunWorld, StepWorld, Settled, SpentOnL1, ViewSuffices;
    LaunchSettled(w);
    var j := RunSettled(w, 0, steps);
    var end := RunWorld(w, steps);
    SettledNode(end, j);
    var k := TickSettles(end, j, view);
    var (after, tick) := StepWorld(end, FollowerDue(view));
    if tick == Done {
      SettledReaches(after, k);
    }
  }

  /** The follower stands at the block attested last among the first `j` posts, all mined, and
      holds the sequencer's ledger there. */
  ghost predicate Reaches(w: World, j: nat)
    requires j <= |w.posts|
  {
    && (forall i :: 0 <= i < j ==> SpentOnL1(w.l1, w.posts[i].spent))
    && (j < |w.posts| ==> w.anchor == w.posts[j].spent)
    && w.sys.node.head.height == HeightAt(w.posts, j)
    && w.sys.node.state == StateAfter(w.sys, HeightAt(w.posts, j)).state
  }

  lemma SettledNode(w: World, j: nat)
    requires Settled(w, j)
    ensures w.sys.node.head.height <= w.sys.sequencer.head.height
    ensures w.sys.node.state == StateAfter(w.sys, w.sys.node.head.height).state
  {
    hide StateAfter, ValidL1, Unspent, Standing, MinedPosts, Fits;
  }

  lemma SettledReaches(w: World, j: nat)
    requires Settled(w, j) && !SpentOnL1(w.l1, w.anchor)
    ensures j <= |w.posts| && Reaches(w, j)
  {
    hide ValidL1, Unspent, Standing, MinedPosts, SpentOnL1, StateAfter, InStep, ViewSuffices;
    SettledNode(w, j);
    NothingDue(w, j, L1View(map[], 0));
  }

  lemma LaunchSettled(w: World)
    requires Launched(w)
    ensures Settled(w, 0)
  {
    hide ValidL1, Produce, ProducedBlock;
    assert forall h {:trigger Fits(w.sys, h)} :: Fits(w.sys, h);
    assert InStep(w.sys);
  }
}
