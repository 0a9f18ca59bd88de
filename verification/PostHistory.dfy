/** The attestations of a sequencer from the first on, final ones included: which of them
    still stand, and how the stored anchor and the pending list follow from that. */
module PostHistory {
  import opened Primitives
  import opened Types
  import opened Sequencer

  /** Attestations that stand, from the first anchor to the stored one. The pending list is
      the part of them that is not final yet. */
  ghost predicate Standing(s: SequencerState, first: OutPoint, posts: seq<Pending>) {
    && |s.pending| <= |posts| && s.pending == posts[|posts| - |s.pending|..]
    && Linked(posts, s.anchor)
    && (if posts == [] then s.anchor == first else posts[0].spent == first)
    && forall p :: p in posts ==> p.l2Height <= s.head.height
  }

  /** What the stored anchor is, whether or not anything is pending. */
  lemma StandingAnchor(s: SequencerState, first: OutPoint, posts: seq<Pending>)
    requires Standing(s, first, posts)
    ensures s.anchor == if posts == [] then first else posts[|posts| - 1].next
    ensures ChainInvariant(s)
  {
    hide Linked;
    var k := |posts| - |s.pending|;
    SliceLinked(posts, s.anchor, k, |posts|);
    assert posts[k..|posts|] == s.pending;
    LastAnchor(posts, s.anchor);
  }

  lemma LastAnchor(posts: seq<Pending>, anchor: OutPoint)
    requires Linked(posts, anchor)
    ensures posts != [] ==> posts[|posts| - 1].next == anchor
  {
  }

  /** Statuses for all posts: those no longer pending are final. */
  function AllStatuses(posts: seq<Pending>, statuses: seq<Status>): (all: seq<Status>)
    requires |statuses| <= |posts|
    ensures |all| == |posts|
    ensures forall i :: 0 <= i < |posts| - |statuses| ==> all[i] == Confirmed(REORG_FINALITY_DEPTH)
    ensures forall i :: 0 <= i < |statuses| ==> all[|posts| - |statuses| + i] == statuses[i]
  {
    seq(|posts| - |statuses|, _ => Confirmed(REORG_FINALITY_DEPTH)) + statuses
  }

  /** Indices of the first `n` entries that are not missing. */
  function Present(statuses: seq<Status>, n: nat): (r: seq<nat>)
    requires n <= |statuses|
    ensures forall i :: i in r <==> 0 <= i < n && !statuses[i].Missing?
    ensures forall k :: 0 <= k < |r| ==> r[k] < n
  {
    if n == 0 then []
    else
      var before := Present(statuses, n - 1);
      if !statuses[n - 1].Missing? then before + [n - 1] else before
  }

  /** The posts that still stand after L1 reported on the pending ones. */
  function Remaining(posts: seq<Pending>, statuses: seq<Status>): seq<Pending>
    requires |statuses| <= |posts|
  {
    Kept(posts, Present(AllStatuses(posts, statuses), |posts|))
  }

  lemma {:induction false} PresentSorted(statuses: seq<Status>, n: nat)
    requires n <= |statuses|
    ensures forall i, j :: 0 <= i < j < |Present(statuses, n)| ==> Present(statuses, n)[i] < Present(statuses, n)[j]
  {
    if n > 0 {
      PresentSorted(statuses, n - 1);
      var before := Present(statuses, n - 1);
      forall i | 0 <= i < |before|
        ensures before[i] < n - 1
      {
        assert before[i] in before;
      }
    }
  }

  // ---------- monitoring the pending part is monitoring all posts ----------

  lemma {:induction false} SurvivingShift(posts: seq<Pending>, statuses: seq<Status>, n: nat)
    requires |statuses| <= |posts| && n <= |statuses|
    ensures var k, all := |posts| - |statuses|, AllStatuses(posts, statuses);
            && Kept(posts, Surviving(all, k + n)) == Kept(posts[k..], Surviving(statuses, n))
            && LastMissing(all, k + n) == match LastMissing(statuses, n) case None => None case Some(i) => Some(k + i)
  {
    hide Survives, Surviving, LastMissing, Kept, AllStatuses;
    var k, all := |posts| - |statuses|, AllStatuses(posts, statuses);
    if n == 0 {
      OlderFinal(posts, statuses, k);
      KeptNone(posts[k..], statuses);
    } else {
      SurvivingShift(posts, statuses, n - 1);
      KeptNext(posts, all, k + n - 1);
      KeptNext(posts[k..], statuses, n - 1);
      LastMissingNext(all, k + n - 1);
      LastMissingNext(statuses, n - 1);
      assert all[k + n - 1] == statuses[n - 1] && posts[k..][n - 1] == posts[k + n - 1];
    }
  }

  lemma {:induction false} OlderFinal(posts: seq<Pending>, statuses: seq<Status>, n: nat)
    requires |statuses| <= |posts| && n <= |posts| - |statuses|
    ensures var all := AllStatuses(posts, statuses);
            Kept(posts, Surviving(all, n)) == [] && LastMissing(all, n) == None
  {
    hide AllStatuses;
    if n > 0 {
      OlderFinal(posts, statuses, n - 1);
    }
  }

  /** The same state with every post still listed as pending. */
  function Unforgetting(s: SequencerState, posts: seq<Pending>): SequencerState { s.(pending := posts) }

  lemma MonitorAll(s: SequencerState, first: OutPoint, posts: seq<Pending>, statuses: seq<Status>)
    requires Standing(s, first, posts) && |statuses| == |s.pending|
    ensures var all := AllStatuses(posts, statuses);
            var m, n := Monitor(s, statuses), Monitor(Unforgetting(s, posts), all);
            && m.pending == n.pending && m.anchor == n.anchor && m.head == n.head
            && ChainInvariant(Unforgetting(s, posts))
  {
    hide Survives, Surviving, LastMissing, Kept, AllStatuses, Monitor;
    SurvivingShift(posts, statuses, |statuses|);
    MonitorFacts(s, statuses);
    MonitorFacts(Unforgetting(s, posts), AllStatuses(posts, statuses));
  }

  lemma OrderlyAll(posts: seq<Pending>, statuses: seq<Status>)
    requires |statuses| <= |posts|
    ensures OrderlyStatuses(AllStatuses(posts, statuses)) <==> OrderlyStatuses(statuses)
  {
    hide AllStatuses;
    var k, all := |posts| - |statuses|, AllStatuses(posts, statuses);
    if OrderlyStatuses(all) {
      forall i, j | 0 <= i < j < |statuses| && Final(statuses[j])
        ensures Final(statuses[i])
      {
        assert Final(all[k + j]) && all[k + i] == statuses[i];
      }
      forall i | 0 <= i < |statuses| && statuses[i].Missing?
        ensures i == |statuses| - 1
      {
        assert all[k + i].Missing?;
      }
    }
    if OrderlyStatuses(statuses) {
      forall i, j | 0 <= i < j < |all| && Final(all[j])
        ensures Final(all[i])
      {
        if i >= k {
          assert all[i] == statuses[i - k] && all[j] == statuses[j - k];
        }
      }
      forall i | 0 <= i < |all| && all[i].Missing?
        ensures i == |all| - 1
      {
        assert i >= k && all[i] == statuses[i - k];
      }
    }
  }

  // ---------- orderly statuses keep the history ----------

  lemma {:induction false} PresentPrefix(statuses: seq<Status>, n: nat)
    requires n <= |statuses| && forall i :: 0 <= i < n ==> !statuses[i].Missing?
    ensures |Present(statuses, n)| == n && forall i :: 0 <= i < n ==> Present(statuses, n)[i] == i
  {
    if n > 0 {
      PresentPrefix(statuses, n - 1);
    }
  }

  lemma RemainingPrefix(posts: seq<Pending>, all: seq<Status>, b: nat)
    requires |all| == |posts| && b <= |posts| <= b + 1
    requires forall i :: 0 <= i < |posts| ==> (all[i].Missing? <==> b <= i)
    ensures Kept(posts, Present(all, |posts|)) == posts[..b]
  {
    hide Kept;
    PresentPrefix(all, b);
    assert Present(all, |posts|) == Present(all, b);
  }

  lemma OrderlyKeepsStanding(s: SequencerState, first: OutPoint, posts: seq<Pending>, statuses: seq<Status>)
    requires Standing(s, first, posts) && |statuses| == |s.pending| && OrderlyStatuses(statuses)
    ensures Standing(Monitor(s, statuses), first, Remaining(posts, statuses))
  {
    hide Monitor, LastMissing, FinalCount, AllStatuses, Surviving, Kept, Linked, OrderlyStatuses, Remaining;
    var all := AllStatuses(posts, statuses);
    var full := Unforgetting(s, posts);
    OrderlyAll(posts, statuses);
    MonitorAll(s, first, posts, statuses);
    MonitorFacts(full, all);
    var a, b := OrderlyInterval(all);
    IntervalKept(posts, all, a, b);
    RemainingPrefix(posts, all, b);
    SliceLinked(posts, s.anchor, 0, b);
    assert posts[..b][a..] == posts[a..b];
    assert Remaining(posts, statuses) == posts[..b] by {
      RemainingUnfold(posts, statuses);
    }
  }

  lemma RemainingUnfold(posts: seq<Pending>, statuses: seq<Status>)
    requires |statuses| <= |posts|
    ensures Remaining(posts, statuses) == Kept(posts, Present(AllStatuses(posts, statuses), |posts|))
  {
    hide Kept, Present, AllStatuses;
  }

  lemma OrderlyInterval(all: seq<Status>) returns (a: nat, b: nat)
    requires OrderlyStatuses(all)
    ensures KeptInterval(all, a, b) && b <= |all| <= b + 1
    ensures forall i :: 0 <= i < |all| ==> (all[i].Missing? <==> b <= i)
    ensures LastMissing(all, |all|) == if b < |all| then Some(b) else None
  {
    hide LastMissing, FinalCount;
    var n := |all|;
    b := if n > 0 && all[n - 1].Missing? then n - 1 else n;
    a := FinalCount(all, n);
    assert a <= b by {
      if a == n && n > 0 {
        assert Final(all[n - 1]);
      }
    }
  }

  // ---------- and only they do ----------

  /** No outpoint occurs twice along the chain. */
  lemma RemainingIsPrefix(posts: seq<Pending>, anchor: OutPoint, all: seq<Status>, newAnchor: OutPoint)
    returns (b: nat)
    requires |all| == |posts| && Linked(posts, anchor) && DistinctAnchors(posts)
    requires var live := Kept(posts, Present(all, |posts|));
             && Linked(live, newAnchor)
             && (if live == [] then posts != [] && newAnchor == posts[0].spent else live[0].spent == posts[0].spent)
    ensures b <= |posts| && Kept(posts, Present(all, |posts|)) == posts[..b]
    ensures forall i :: 0 <= i < |posts| ==> (all[i].Missing? <==> b <= i)
    ensures newAnchor == if b == 0 then posts[0].spent else posts[b - 1].next
  {
    hide DistinctAnchors, Linked, Kept, Present;
    var r := Present(all, |posts|);
    b := |r|;
    PresentSorted(all, |posts|);
    if r != [] {
      KeptRun(posts, anchor, r, newAnchor);
      FirstKept(posts, anchor, r[0]);
      forall i | 0 <= i < |posts|
        ensures all[i].Missing? <==> b <= i
      {
        if i < b {
          assert r[i] == i && r[i] in r;
        }
        assert i in r ==> exists t :: 0 <= t < |r| && r[t] == i;
      }
    }
  }

  lemma FirstKept(posts: seq<Pending>, anchor: OutPoint, i: nat)
    requires Linked(posts, anchor) && DistinctAnchors(posts) && i < |posts|
    ensures i > 0 ==> posts[i].spent != posts[0].spent
  {
    if i > 0 {
      assert Joined(posts, i);
    }
  }

  lemma FinalsFirst(posts: seq<Pending>, anchor: OutPoint, all: seq<Status>, b: nat)
    requires |all| == |posts| && Linked(posts, anchor) && b <= |posts| <= b + 1
    requires forall i :: 0 <= i < |posts| ==> (all[i].Missing? <==> b <= i)
    requires var kept := Kept(posts, Surviving(all, |posts|)); |kept| <= b && kept == posts[..b][b - |kept|..]
    ensures OrderlyStatuses(all)
  {
    hide Surviving, Kept;
    var r := Surviving(all, |posts|);
    var a := b - |r|;
    forall t | 0 <= t < |r|
      ensures r[t] == a + t
    {
      assert posts[r[t]] == posts[..b][a..][t] == posts[a + t];
    }
    forall i, j | 0 <= i < j < |all| && !Final(all[i])
      ensures !Final(all[j])
    {
      assert Survives(all[i]) && i in r;
      var t :| 0 <= t < |r| && r[t] == i;
      if j < b {
        assert r[j - a] == j && r[j - a] in r;
      }
    }
  }

  /** Monitoring keeps the history, the anchor and the pending part of it included, exactly
      if finality comes in posting order and at most the newest attestation is missing. */
  lemma MonitorKeepsStandingIff(s: SequencerState, first: OutPoint, posts: seq<Pending>, statuses: seq<Status>)
    requires Standing(s, first, posts) && DistinctAnchors(posts) && |statuses| == |s.pending|
    ensures Standing(Monitor(s, statuses), first, Remaining(posts, statuses)) <==> OrderlyStatuses(statuses)
  {
    hide Monitor, LastMissing, AllStatuses, Surviving, Kept, Linked, OrderlyStatuses, Remaining, DistinctAnchors,
         Present;
    if OrderlyStatuses(statuses) {
      OrderlyKeepsStanding(s, first, posts, statuses);
    } else if Standing(Monitor(s, statuses), first, Remaining(posts, statuses)) {
      var all := AllStatuses(posts, statuses);
      MonitorAll(s, first, posts, statuses);
      MonitorFacts(Unforgetting(s, posts), all);
      RemainingUnfold(posts, statuses);
      if posts == [] {
        assert false by { NothingPosted(statuses); }
      }
      var b := RemainingIsPrefix(posts, s.anchor, all, Monitor(s, statuses).anchor);
      CutAtLast(posts, s.anchor, all, b, Monitor(s, statuses).anchor);
      FinalsFirst(posts, s.anchor, all, b);
      OrderlyAll(posts, statuses);
    }
  }

  lemma NothingPosted(statuses: seq<Status>)
    requires |statuses| == 0
    ensures OrderlyStatuses(statuses)
  {
  }

  /** The chain can only have been cut at its last entry. */
  lemma CutAtLast(posts: seq<Pending>, anchor: OutPoint, all: seq<Status>, b: nat, newAnchor: OutPoint)
    requires |all| == |posts| > 0 && b <= |posts| && Linked(posts, anchor) && DistinctAnchors(posts)
    requires forall i :: 0 <= i < |posts| ==> (all[i].Missing? <==> b <= i)
    requires newAnchor == if b == 0 then posts[0].spent else posts[b - 1].next
    requires var last := LastMissing(all, |all|); newAnchor == if last.Some? then posts[last.value].spent else anchor
    ensures |posts| <= b + 1
  {
    hide LastMissing, DistinctAnchors;
    var n := |posts|;
    if b < n {
      assert all[n - 1].Missing?;
      assert LastMissing(all, n) == Some(n - 1);
      if b < n - 1 {
        assert Joined(posts, n - 1);
        NextOnce(posts, b, n - 2);
      }
    }
  }

  lemma NextOnce(posts: seq<Pending>, b: nat, i: nat)
    requires DistinctAnchors(posts) && b <= i < |posts|
    ensures posts[i].next != if b == 0 then posts[0].spent else posts[b - 1].next
  {
  }

  // ---------- runs ----------

  /** The standing posts after a step: what remains, and the new one if one was posted. */
  function PostsAfter(s: SequencerState, step: SeqStep, posts: seq<Pending>): seq<Pending>
    requires step.L1Tick? ==> |step.statuses| == |s.pending| <= |posts|
  {
    match step
    case BlockTick(_) => posts
    case L1Tick(statuses, w, tip, posted) =>
      var m := Monitor(s, statuses);
      var s' := CheckAndAttest(m, w, tip, posted);
      if |s'.pending| > |m.pending| then Remaining(posts, statuses) + [s'.pending[|s'.pending| - 1]]
      else Remaining(posts, statuses)
  }

  /** A post that is due and succeeds spends the anchor, makes its own second output the new
      one, and is remembered with the height it commits to and the tip it was made for. */
  lemma AttestFacts(s: SequencerState, w: Surroundings, tip: u32, posted: Option<Txid>)
    requires s.head.height < U32_MAX
    ensures var s' := CheckAndAttest(s, w, tip, posted);
            && s.head.height <= s'.head.height
            && if tip > LastAttested(s) && posted.Some? then
                 var next := OutPoint(posted.value, 1);
                 && s'.anchor == next && s'.head.height == s.head.height + 1
                 && s'.pending == s.pending + [Pending(posted.value, s.anchor, next, s.head.height + 1, tip)]
               else s'.anchor == s.anchor && s'.pending == s.pending
  {
    hide Produce;
    ProduceFacts(s, w);
  }

  lemma AttestKeepsStanding(s: SequencerState, first: OutPoint, posts: seq<Pending>, w: Surroundings, tip: u32,
                            posted: Option<Txid>)
    requires Standing(s, first, posts) && s.head.height < U32_MAX
    ensures var s' := CheckAndAttest(s, w, tip, posted);
            && |s.pending| <= |s'.pending| <= |s.pending| + 1
            && Standing(s', first, if |s'.pending| > |s.pending| then posts + [s'.pending[|s.pending|]] else posts)
  {
    hide CheckAndAttest, Linked, LastAttested;
    AttestFacts(s, w, tip, posted);
    var s' := CheckAndAttest(s, w, tip, posted);
    if |s'.pending| > |s.pending| {
      var added := s'.pending[|s.pending|];
      LinkOneMore(posts, s.anchor, added);
      assert (posts + [added])[|posts| - |s.pending|..] == s'.pending;
    }
  }

  lemma StepKeepsStanding(s: SequencerState, first: OutPoint, posts: seq<Pending>, step: SeqStep)
    requires Standing(s, first, posts) && s.head.height < U32_MAX
    requires step.L1Tick? ==> |step.statuses| == |s.pending| && OrderlyStatuses(step.statuses)
    ensures Standing(StepSequencer(s, step), first, PostsAfter(s, step, posts))
  {
    hide Produce, Monitor, CheckAndAttest, Remaining, Linked;
    match step
    case BlockTick(w) => ProduceFacts(s, w);
    case L1Tick(statuses, w, tip, posted) =>
      OrderlyKeepsStanding(s, first, posts, statuses);
      MonitorHead(s, statuses);
      AttestKeepsStanding(Monitor(s, statuses), first, Remaining(posts, statuses), w, tip, posted);
  }

  ghost function RunPosts(s: SequencerState, steps: seq<SeqStep>, posts: seq<Pending>): seq<Pending>
    requires MatchedRun(s, steps)
    decreases |steps|
  {
    if steps == [] || (steps[0].L1Tick? && |s.pending| > |posts|) then posts
    else RunPosts(StepSequencer(s, steps[0]), steps[1..], PostsAfter(s, steps[0], posts))
  }

  /** In every state reachable through orderly statuses, the posts that stand form one chain
      from the first anchor to the stored one, with strictly increasing L2 heights, and the
      pending list is its end. The anchor is thus the output of the last standing post, or
      the first anchor if none stands, pending or not. */
  lemma {:induction false} StandingInvariant(s: SequencerState, first: OutPoint, posts: seq<Pending>,
                                             steps: seq<SeqStep>)
    requires Standing(s, first, posts) && OrderlyRun(s, steps)
    ensures MatchedRun(s, steps) && Standing(RunSequencer(s, steps), first, RunPosts(s, steps, posts))
    decreases |steps|
  {
    hide StepSequencer, PostsAfter, OrderlyStatuses, Linked;
    OrderlyMatched(s, steps);
    if steps != [] {
      StepKeepsStanding(s, first, posts, steps[0]);
      StandingInvariant(StepSequencer(s, steps[0]), first, PostsAfter(s, steps[0], posts), steps[1..]);
    }
  }
}
