/** Updating the tree without seeing it: the multi-leaf root update and the refresh of
    one observer's proof, against the plain meaning of editing the account map. */
module SparseUpdate {
  import opened Primitives
  import opened Messages
  import opened SparseMerkle

  datatype Update = Update(preProof: InclusionProof, postState: LeafKind)

  datatype UpdateError = InvalidPreProof(address: Address) | DuplicateAddress(duplicate: Address) | EmptyUpdates

  // ---------- the meaning of a list of updates ----------

  /** The account map with one leaf overwritten, inserted or removed. */
  function Put(m: Accounts, a: Address, leaf: LeafKind): (r: Accounts)
    ensures forall b :: LeafOf(r, b) == if b == a then leaf else LeafOf(m, b)
  {
    match leaf
    case Occupied(acct) => m[a := acct]
    case Empty => m - {a}
  }

  function Edited(m: Accounts, us: seq<Update>): Accounts
    decreases |us|
  {
    if us == [] then m else Edited(Put(m, us[0].preProof.address, us[0].postState), us[1..])
  }

  predicate Distinct(us: seq<Update>)
    decreases |us|
  {
    us == [] || ((forall v :: v in us[1..] ==> v.preProof.address != us[0].preProof.address) && Distinct(us[1..]))
  }

  ghost function Touched(us: seq<Update>): set<Address> {
    set u | u in us :: u.preProof.address
  }

  lemma MapsByLeaf(m: Accounts, n: Accounts)
    requires forall a :: LeafOf(m, a) == LeafOf(n, a)
    ensures m == n
  {
    forall a
      ensures a in m <==> a in n
      ensures a in m ==> m[a] == n[a]
    {
      assert LeafOf(m, a) == LeafOf(n, a);
    }
  }

  /** Read pointwise: a touched address holds its post state, any other is unchanged. */
  lemma {:induction false} EditedLeaves(m: Accounts, us: seq<Update>)
    requires Distinct(us)
    ensures forall u :: u in us ==> LeafOf(Edited(m, us), u.preProof.address) == u.postState
    ensures forall a :: a !in Touched(us) ==> LeafOf(Edited(m, us), a) == LeafOf(m, a)
    decreases |us|
  {
    if us != [] {
      var m' := Put(m, us[0].preProof.address, us[0].postState);
      EditedLeaves(m', us[1..]);
      assert us == [us[0]] + us[1..];
      assert us[0].preProof.address !in Touched(us[1..]);
      forall a | a !in Touched(us)
        ensures LeafOf(Edited(m, us), a) == LeafOf(m, a)
      {
        assert us[0] in us;
        assert a !in Touched(us[1..]);
      }
    }
  }

  // ---------- partition by one bit ----------

  function Pick(us: seq<Update>, depth: nat, bit: nat): (r: seq<Update>)
    requires depth < TREE_DEPTH
    ensures forall u :: u in r <==> u in us && BitAt(u.preProof.address, depth) == bit
    decreases |us|
  {
    if us == [] then []
    else if BitAt(us[0].preProof.address, depth) == bit then [us[0]] + Pick(us[1..], depth, bit)
    else Pick(us[1..], depth, bit)
  }

  lemma {:induction false} PickDistinct(us: seq<Update>, depth: nat, bit: nat)
    requires depth < TREE_DEPTH && Distinct(us)
    ensures Distinct(Pick(us, depth, bit))
    decreases |us|
  {
    hide BitAt;
    if us != [] {
      PickDistinct(us[1..], depth, bit);
      assert [us[0]] + Pick(us[1..], depth, bit) != [];
      assert ([us[0]] + Pick(us[1..], depth, bit))[1..] == Pick(us[1..], depth, bit);
    }
  }

  lemma PutSide(m: Accounts, a: Address, leaf: LeafKind, depth: nat, bit: nat)
    requires depth < TREE_DEPTH
    ensures Side(Put(m, a, leaf), depth, bit)
         == if BitAt(a, depth) == bit then Put(Side(m, depth, bit), a, leaf) else Side(m, depth, bit)
  {
    hide BitAt;
  }

  /** Editing and descending into one half commute. */
  lemma {:induction false} EditedSide(m: Accounts, us: seq<Update>, depth: nat, bit: nat)
    requires depth < TREE_DEPTH
    ensures Side(Edited(m, us), depth, bit) == Edited(Side(m, depth, bit), Pick(us, depth, bit))
    decreases |us|
  {
    hide BitAt, Side, Put;
    if us != [] {
      var u := us[0];
      var m' := Put(m, u.preProof.address, u.postState);
      PutSide(m, u.preProof.address, u.postState, depth, bit);
      EditedSide(m', us[1..], depth, bit);
      assert ([u] + Pick(us[1..], depth, bit))[1..] == Pick(us[1..], depth, bit);
    }
  }

  // ---------- apply_updates ----------

  /** New hash of the node at `depth`, from the proofs of the updates below it alone. */
  function PostRoot(us: seq<Update>, depth: nat): Digest
    requires depth <= TREE_DEPTH && us != []
    requires forall u :: u in us ==> |u.preProof.siblings| == TREE_DEPTH
    decreases TREE_DEPTH - depth, us
  {
    if depth == TREE_DEPTH then LeafHash(us[0].preProof.address, us[0].postState)
    else
      var left, right := Pick(us, depth, 0), Pick(us, depth, 1);
      assert us[0] in left || us[0] in right;
      var lh := if left != [] then PostRoot(left, depth + 1)
                else assert right[0] in us; right[0].preProof.siblings[TREE_DEPTH - 1 - depth];
      var rh := if right != [] then PostRoot(right, depth + 1)
                else assert left[0] in us; left[0].preProof.siblings[TREE_DEPTH - 1 - depth];
      Branch(lh, rh)
  }

  function FirstDuplicate(us: seq<Update>): (d: Option<Address>)
    ensures d.None? <==> Distinct(us)
    decreases |us|
  {
    if us == [] then None
    else if exists v :: v in us[1..] && v.preProof.address == us[0].preProof.address
    then Some(us[0].preProof.address)
    else FirstDuplicate(us[1..])
  }

  function FirstInvalid(us: seq<Update>, priorRoot: Digest): (d: Option<Address>)
    ensures d.None? <==> forall u :: u in us ==> Verifies(u.preProof, priorRoot)
    decreases |us|
  {
    if us == [] then None
    else if !Verifies(us[0].preProof, priorRoot) then Some(us[0].preProof.address)
    else
      var rest := FirstInvalid(us[1..], priorRoot);
      assert forall u :: u in us ==> u == us[0] || u in us[1..];
      rest
  }

  function ApplyUpdates(us: seq<Update>, priorRoot: Digest): Result<Digest, UpdateError> {
    if us == [] then Err(EmptyUpdates)
    else if FirstDuplicate(us).Some? then Err(DuplicateAddress(FirstDuplicate(us).value))
    else if FirstInvalid(us, priorRoot).Some? then Err(InvalidPreProof(FirstInvalid(us, priorRoot).value))
    else Ok(PostRoot(us, 0))
  }

  // ---------- soundness of the update ----------

  ghost predicate TrueFrom(us: seq<Update>, m: Accounts, depth: nat)
    requires depth <= TREE_DEPTH
  {
    forall u :: u in us ==> |u.preProof.siblings| == TREE_DEPTH && TruePath(u.preProof, m, depth)
  }

  lemma TrueBelow(us: seq<Update>, m: Accounts, depth: nat, bit: nat)
    requires depth < TREE_DEPTH && TrueFrom(us, m, depth) && (bit == 0 || bit == 1)
    ensures TrueFrom(Pick(us, depth, bit), Side(m, depth, bit), depth + 1)
    ensures forall u :: u in Pick(us, depth, bit) ==>
      u.preProof.siblings[TREE_DEPTH - 1 - depth] == SubRoot(Side(m, depth, 1 - bit), depth + 1)
  {
    hide BitAt, Side, SubRoot;
  }

  lemma CoherentPick(m: Accounts, us: seq<Update>, depth: nat, bit: nat)
    requires depth < TREE_DEPTH && Coherent(m.Keys + Touched(us), depth)
    ensures Coherent(Side(m, depth, bit).Keys + Touched(Pick(us, depth, bit)), depth + 1)
  {
    hide BitAt, Coherent;
    CoherentBelow(m.Keys + Touched(us), Side(m, depth, bit).Keys + Touched(Pick(us, depth, bit)), depth, bit);
  }

  lemma SingleAtLeaf(us: seq<Update>, s: set<Address>)
    requires us != [] && Distinct(us) && Touched(us) <= s && Coherent(s, TREE_DEPTH)
    ensures us == [us[0]]
  {
    hide Coherent;
    if |us| > 1 {
      assert us[1] == us[1..][0];
      assert us[0] in us && us[1] in us && us[1] in us[1..];
      CoherentAtLeaf(s, us[0].preProof.address, us[1].preProof.address);
    }
  }

  /** What the recursion takes for the hash of one child of the node at `depth`. */
  function ChildRoot(us: seq<Update>, depth: nat, bit: nat): Digest
    requires depth < TREE_DEPTH && us != [] && (bit == 0 || bit == 1)
    requires forall u :: u in us ==> |u.preProof.siblings| == TREE_DEPTH
  {
    var here, there := Pick(us, depth, bit), Pick(us, depth, 1 - bit);
    assert us[0] in here || us[0] in there;
    if here != [] then PostRoot(here, depth + 1)
    else assert there[0] in us; there[0].preProof.siblings[TREE_DEPTH - 1 - depth]
  }

  lemma PostRootBranches(us: seq<Update>, depth: nat)
    requires depth < TREE_DEPTH && us != []
    requires forall u :: u in us ==> |u.preProof.siblings| == TREE_DEPTH
    ensures PostRoot(us, depth) == Branch(ChildRoot(us, depth, 0), ChildRoot(us, depth, 1))
  {
    hide BitAt, Pick;
  }

  /** From true proofs the recursion rebuilds exactly the root of the edited map.
      Nothing is assumed of the hash. */
  lemma {:induction false} PostRootMeans(m: Accounts, us: seq<Update>, depth: nat)
    requires depth <= TREE_DEPTH && us != [] && Distinct(us)
    requires TrueFrom(us, m, depth)
    requires Coherent(m.Keys + Touched(us), depth)
    ensures PostRoot(us, depth) == SubRoot(Edited(m, us), depth)
    decreases TREE_DEPTH - depth, 1
  {
    hide *;
    if depth == TREE_DEPTH {
      PostRootLeaf(m, us);
    } else {
      TrueLengths(us, m, depth);
      PostRootBranches(us, depth);
      SubRootBranches(Edited(m, us), depth);
      ChildRootMeans(m, us, depth, 0);
      ChildRootMeans(m, us, depth, 1);
    }
  }

  lemma TrueLengths(us: seq<Update>, m: Accounts, depth: nat)
    requires depth <= TREE_DEPTH && TrueFrom(us, m, depth)
    ensures forall u :: u in us ==> |u.preProof.siblings| == TREE_DEPTH
  {
    hide TruePath;
  }

  /** An untouched child keeps the hash that any proof through the other child carries
      as its sibling, which is why the first such proof is as good as any. */
  lemma {:induction false} ChildRootMeans(m: Accounts, us: seq<Update>, depth: nat, bit: nat)
    requires depth < TREE_DEPTH && us != [] && Distinct(us) && (bit == 0 || bit == 1)
    requires TrueFrom(us, m, depth) && Coherent(m.Keys + Touched(us), depth)
    requires forall u :: u in us ==> |u.preProof.siblings| == TREE_DEPTH
    ensures ChildRoot(us, depth, bit) == SubRoot(Side(Edited(m, us), depth, bit), depth + 1)
    decreases TREE_DEPTH - depth, 0
  {
    hide SubRoot, Side, BitAt, Coherent, TruePath, Put, Pick, Edited, Distinct, PostRoot;
    var here, there := Pick(us, depth, bit), Pick(us, depth, 1 - bit);
    PostRootHalf(m, us, depth, bit);
    if here != [] {
      PostRootMeans(Side(m, depth, bit), here, depth + 1);
    } else {
      assert us[0] in here || us[0] in there;
      PostRootHalf(m, us, depth, 1 - bit);
      assert there[0] in there;
    }
  }

  lemma PostRootLeaf(m: Accounts, us: seq<Update>)
    requires us != [] && Distinct(us) && TrueFrom(us, m, TREE_DEPTH)
    requires Coherent(m.Keys + Touched(us), TREE_DEPTH)
    ensures PostRoot(us, TREE_DEPTH) == SubRoot(Edited(m, us), TREE_DEPTH)
  {
    hide SubRoot, Coherent, TruePath;
    var a := us[0].preProof.address;
    SingleAtLeaf(us, m.Keys + Touched(us));
    assert us[1..] == [];
    assert Edited(m, us) == Put(m, a, us[0].postState);
    assert us[0] in us;
    CoherentSubset(m.Keys + Touched(us), Edited(m, us).Keys + {a}, TREE_DEPTH);
    SubRootAtLeaf(Edited(m, us), a);
    assert LeafOf(Edited(m, us), a) == us[0].postState;
  }

  lemma CoherentSubset(s: set<Address>, t: set<Address>, depth: nat)
    requires depth <= TREE_DEPTH && Coherent(s, depth) && t <= s
    ensures Coherent(t, depth)
  {
    hide SharePrefix;
  }

  lemma PostRootHalf(m: Accounts, us: seq<Update>, depth: nat, bit: nat)
    requires depth < TREE_DEPTH && us != [] && Distinct(us) && (bit == 0 || bit == 1)
    requires TrueFrom(us, m, depth) && Coherent(m.Keys + Touched(us), depth)
    ensures Distinct(Pick(us, depth, bit))
    ensures TrueFrom(Pick(us, depth, bit), Side(m, depth, bit), depth + 1)
    ensures Coherent(Side(m, depth, bit).Keys + Touched(Pick(us, depth, bit)), depth + 1)
    ensures Side(Edited(m, us), depth, bit) == Edited(Side(m, depth, bit), Pick(us, depth, bit))
    ensures Pick(us, depth, bit) == [] ==> Side(Edited(m, us), depth, bit) == Side(m, depth, bit)
    ensures forall u :: u in Pick(us, depth, bit) ==>
      u.preProof.siblings[TREE_DEPTH - 1 - depth] == SubRoot(Side(m, depth, 1 - bit), depth + 1)
  {
    hide SubRoot, Side, BitAt, Coherent, TruePath, Put, Pick;
    PickDistinct(us, depth, bit);
    TrueBelow(us, m, depth, bit);
    CoherentPick(m, us, depth, bit);
    EditedSide(m, us, depth, bit);
  }

  /** The messages hashed in verifying the pre-state proofs. */
  ghost function UpdateMsgs(us: seq<Update>): set<Msg> {
    set u, msg | u in us && msg in ProofMsgs(u.preProof) :: msg
  }

  /** Proofs of any origin that verify under the root of `m` are true of `m`. */
  lemma VerifiedUpdatesTrue(m: Accounts, us: seq<Update>)
    requires forall u :: u in us ==> Verifies(u.preProof, Root(m))
    ensures TrueFrom(us, m, 0) || CollisionIn(UpdateMsgs(us) + RootMsgs(m, 0))
  {
    hide TruePath, ProofMsgs, RootMsgs, Root;
    var sent := UpdateMsgs(us) + RootMsgs(m, 0);
    if !CollisionIn(sent) {
      forall u | u in us
        ensures |u.preProof.siblings| == TREE_DEPTH && TruePath(u.preProof, m, 0)
      {
        ProofBinding(u.preProof, m);
        assert ProofMsgs(u.preProof) + RootMsgs(m, 0) <= sent;
        CollisionMonotone(ProofMsgs(u.preProof) + RootMsgs(m, 0), sent);
      }
    }
  }

  /** Whenever `apply_updates` returns a root against the root of `m`, it is the root of
      the edited map, or two of the messages hashed on either side collide. */
  lemma ApplyUpdatesSound(m: Accounts, us: seq<Update>)
    requires ApplyUpdates(us, Root(m)).Ok?
    ensures ApplyUpdates(us, Root(m)).value == Root(Edited(m, us))
         || CollisionIn(UpdateMsgs(us) + RootMsgs(m, 0))
  {
    hide TruePath, ProofMsgs, RootMsgs, SubRoot, PostRoot, Edited, Touched, Distinct;
    VerifiedUpdatesTrue(m, us);
    if !CollisionIn(UpdateMsgs(us) + RootMsgs(m, 0)) {
      CoherentAtRoot(m.Keys + Touched(us));
      PostRootMeans(m, us, 0);
    }
  }

  /** With the true proofs of distinct addresses `apply_updates` succeeds, and its result
      is the root of the edited map without any appeal to the hash. */
  lemma ApplyUpdatesComplete(m: Accounts, us: seq<Update>)
    requires us != [] && Distinct(us) && TrueFrom(us, m, 0)
    ensures ApplyUpdates(us, Root(m)) == Ok(Root(Edited(m, us)))
  {
    hide TruePath, ProofMsgs, RootMsgs, SubRoot, PostRoot, Edited, Touched, Distinct, Verifies;
    forall u | u in us
      ensures Verifies(u.preProof, Root(m))
    {
      ProofBinding(u.preProof, m);
    }
    CoherentAtRoot(m.Keys + Touched(us));
    PostRootMeans(m, us, 0);
  }

  // ---------- refresh_observer ----------

  /** The updates whose addresses agree with `a` on the first `depth` bits. */
  function OnPath(us: seq<Update>, a: Address, depth: nat): (r: seq<Update>)
    requires depth <= TREE_DEPTH
    ensures forall u :: u in r <==> u in us && SharePrefix(u.preProof.address, a, depth)
    decreases |us|
  {
    if us == [] then []
    else if SharePrefix(us[0].preProof.address, a, depth) then [us[0]] + OnPath(us[1..], a, depth)
    else OnPath(us[1..], a, depth)
  }

  lemma {:induction false} OnPathDeeper(us: seq<Update>, a: Address, depth: nat)
    requires depth < TREE_DEPTH
    ensures OnPath(us, a, depth + 1) == Pick(OnPath(us, a, depth), depth, BitAt(a, depth))
    decreases |us|
  {
    hide BitAt;
    if us != [] {
      var rest := OnPath(us[1..], a, depth);
      OnPathDeeper(us[1..], a, depth);
      var u := us[0];
      assert SharePrefix(u.preProof.address, a, depth + 1)
        <==> SharePrefix(u.preProof.address, a, depth) && BitAt(u.preProof.address, depth) == BitAt(a, depth);
      if SharePrefix(u.preProof.address, a, depth) {
        assert ([u] + rest)[1..] == rest;
      }
    }
  }

  lemma {:induction false} OnPathAtRoot(us: seq<Update>, a: Address)
    ensures OnPath(us, a, 0) == us
    decreases |us|
  {
    if us != [] {
      OnPathAtRoot(us[1..], a);
      assert us == [us[0]] + us[1..];
    }
  }

  /** The updates on the other side of the observer's path at `depth`. */
  function Opposite(us: seq<Update>, a: Address, depth: nat): (r: seq<Update>)
    requires depth < TREE_DEPTH
    ensures forall u :: u in r ==> u in us
  {
    Pick(OnPath(us, a, depth), depth, 1 - BitAt(a, depth))
  }

  /** The observer's sibling at one depth after the updates. */
  function NewSibling(observer: InclusionProof, us: seq<Update>, depth: nat): Digest
    requires depth < TREE_DEPTH && |observer.siblings| == TREE_DEPTH
    requires forall u :: u in us ==> |u.preProof.siblings| == TREE_DEPTH
  {
    var opposite := Opposite(us, observer.address, depth);
    if opposite == [] then observer.siblings[TREE_DEPTH - 1 - depth] else PostRoot(opposite, depth + 1)
  }

  function PostStateOf(us: seq<Update>, a: Address, otherwise: LeafKind): LeafKind
    decreases |us|
  {
    if us == [] then otherwise
    else if us[0].preProof.address == a then us[0].postState
    else PostStateOf(us[1..], a, otherwise)
  }

  function Refreshed(observer: InclusionProof, us: seq<Update>): (r: InclusionProof)
    requires |observer.siblings| == TREE_DEPTH
    requires forall u :: u in us ==> |u.preProof.siblings| == TREE_DEPTH
    ensures r.address == observer.address && |r.siblings| == TREE_DEPTH
    ensures forall i :: 0 <= i < TREE_DEPTH ==> r.siblings[i] == NewSibling(observer, us, TREE_DEPTH - 1 - i)
  {
    InclusionProof(observer.address, PostStateOf(us, observer.address, observer.leaf),
                   seq(TREE_DEPTH, i requires 0 <= i < TREE_DEPTH => NewSibling(observer, us, TREE_DEPTH - 1 - i)))
  }

  function RefreshObserver(observer: InclusionProof, us: seq<Update>, priorRoot: Digest)
    : Result<InclusionProof, UpdateError> {
    if !Verifies(observer, priorRoot) then Err(InvalidPreProof(observer.address))
    else if us == [] then Ok(observer)
    else if FirstDuplicate(us).Some? then Err(DuplicateAddress(FirstDuplicate(us).value))
    else if FirstInvalid(us, priorRoot).Some? then Err(InvalidPreProof(FirstInvalid(us, priorRoot).value))
    else Ok(Refreshed(observer, us))
  }

  lemma {:induction false} PostStateOfMeans(m: Accounts, us: seq<Update>, a: Address)
    requires Distinct(us)
    ensures PostStateOf(us, a, LeafOf(m, a)) == LeafOf(Edited(m, us), a)
    decreases |us|
  {
    hide Put;
    if us != [] {
      var m' := Put(m, us[0].preProof.address, us[0].postState);
      if us[0].preProof.address == a {
        EditedLeaves(m', us[1..]);
        assert a !in Touched(us[1..]);
      } else {
        PostStateOfMeans(m', us[1..], a);
      }
    }
  }

  /** One level of the refresh: the new sibling is the other half of the edited map. */
  lemma SiblingRefreshed(observer: InclusionProof, us: seq<Update>, m: Accounts, here: seq<Update>, depth: nat)
    requires depth < TREE_DEPTH && |observer.siblings| == TREE_DEPTH
    requires forall u :: u in us ==> |u.preProof.siblings| == TREE_DEPTH
    requires here == OnPath(us, observer.address, depth) && Distinct(here)
    requires TruePath(observer, m, depth) && TrueFrom(here, m, depth)
    requires Coherent(m.Keys + Touched(here), depth)
    ensures NewSibling(observer, us, depth)
         == SubRoot(Side(Edited(m, here), depth, 1 - BitAt(observer.address, depth)), depth + 1)
  {
    hide SubRoot, Side, BitAt, Coherent, Put, Pick, OnPath, Edited, Distinct, PostRoot, TruePath, Touched;
    var far := 1 - BitAt(observer.address, depth);
    TrueSibling(observer, m, depth);
    if here == [] {
      PickNothing(depth, far);
      NothingEdited(m, here);
    } else {
      PostRootHalf(m, here, depth, far);
      if Pick(here, depth, far) != [] {
        PostRootMeans(Side(m, depth, far), Pick(here, depth, far), depth + 1);
      }
    }
  }

  lemma TrueSibling(p: InclusionProof, m: Accounts, depth: nat)
    requires depth < TREE_DEPTH && |p.siblings| == TREE_DEPTH && TruePath(p, m, depth)
    ensures p.siblings[TREE_DEPTH - 1 - depth] == SubRoot(Side(m, depth, 1 - BitAt(p.address, depth)), depth + 1)
  {
    hide SubRoot, Side, BitAt;
  }

  lemma NothingEdited(m: Accounts, us: seq<Update>)
    requires us == []
    ensures Edited(m, us) == m
  {
  }

  lemma PickNothing(depth: nat, bit: nat)
    requires depth < TREE_DEPTH
    ensures Pick([], depth, bit) == []
  {
  }

  lemma {:induction false} RefreshedTrue(observer: InclusionProof, us: seq<Update>, post: InclusionProof,
                                         m: Accounts, here: seq<Update>, depth: nat)
    requires depth <= TREE_DEPTH && |observer.siblings| == TREE_DEPTH
    requires forall u :: u in us ==> |u.preProof.siblings| == TREE_DEPTH
    requires post == Refreshed(observer, us)
    requires here == OnPath(us, observer.address, depth) && Distinct(here)
    requires TruePath(observer, m, depth) && TrueFrom(here, m, depth)
    requires Coherent(m.Keys + Touched(here), depth)
    requires post.leaf == LeafOf(Edited(m, here), observer.address)
    ensures TruePath(post, Edited(m, here), depth)
    decreases TREE_DEPTH - depth
  {
    hide SubRoot, Side, BitAt, Coherent, Put, Pick, OnPath, NewSibling, Edited, Distinct, Refreshed;
    if depth < TREE_DEPTH {
      var near := BitAt(observer.address, depth);
      var below := Pick(here, depth, near);
      SiblingRefreshed(observer, us, m, here, depth);
      assert post.siblings[TREE_DEPTH - 1 - depth] == NewSibling(observer, us, depth);
      OnPathDeeper(us, observer.address, depth);
      EditedSide(m, here, depth, near);
      PickDistinct(here, depth, near);
      TrueBelow(here, m, depth, near);
      CoherentPick(m, here, depth, near);
      SideLeaf(Edited(m, here), observer.address, depth);
      RefreshedTrue(observer, us, post, Side(m, depth, near), below, depth + 1);
    }
  }

  lemma SideLeaf(m: Accounts, a: Address, depth: nat)
    requires depth < TREE_DEPTH
    ensures LeafOf(Side(m, depth, BitAt(a, depth)), a) == LeafOf(m, a)
  {
    hide BitAt;
  }

  /** The refreshed proof of an observer with a true proof is its true proof of the
      edited map, whether it was touched, untouched or absent. */
  lemma RefreshTrue(observer: InclusionProof, us: seq<Update>, m: Accounts)
    requires Distinct(us) && TrueProof(observer, m) && TrueFrom(us, m, 0)
    ensures TrueProof(Refreshed(observer, us), Edited(m, us))
    ensures Refreshed(observer, us).leaf == LeafOf(Edited(m, us), observer.address)
  {
    hide SubRoot, Side, BitAt, Coherent, Put, Pick, OnPath, NewSibling, TruePath;
    TruePathLeaf(observer, m, 0);
    PostStateOfMeans(m, us, observer.address);
    OnPathAtRoot(us, observer.address);
    CoherentAtRoot(m.Keys + Touched(us));
    RefreshedTrue(observer, us, Refreshed(observer, us), m, us, 0);
  }

  /** If both calls succeed on the same non-empty updates and prior root, the refreshed
      proof verifies under the new root and carries the observer's true post state. */
  lemma RefreshSound(observer: InclusionProof, us: seq<Update>, m: Accounts)
    requires ApplyUpdates(us, Root(m)).Ok? && RefreshObserver(observer, us, Root(m)).Ok?
    ensures (var post := RefreshObserver(observer, us, Root(m)).value;
            && ApplyUpdates(us, Root(m)).value == Root(Edited(m, us))
            && Verifies(post, ApplyUpdates(us, Root(m)).value)
            && TrueProof(post, Edited(m, us))
            && post.leaf == LeafOf(Edited(m, us), observer.address))
         || CollisionIn(ProofMsgs(observer) + UpdateMsgs(us) + RootMsgs(m, 0))
  {
    hide SubRoot, TruePath, Edited, PostRoot, RootMsgs, ProofMsgs, UpdateMsgs, Refreshed, LeafOf, Verifies;
    var sent := ProofMsgs(observer) + UpdateMsgs(us) + RootMsgs(m, 0);
    if !CollisionIn(sent) {
      CollisionMonotone(UpdateMsgs(us) + RootMsgs(m, 0), sent);
      CollisionMonotone(ProofMsgs(observer) + RootMsgs(m, 0), sent);
      VerifiedUpdatesTrue(m, us);
      ProofBinding(observer, m);
      ApplyUpdatesSound(m, us);
      RefreshTrue(observer, us, m);
      ProofBinding(Refreshed(observer, us), Edited(m, us));
    }
  }

  // ---------- the loops ----------

  /** The duplicate scan and the proof checks that open both operations. */
  method ValidateUpdates(us: seq<Update>, priorRoot: Digest) returns (e: Option<UpdateError>)
    ensures FirstDuplicate(us).Some? ==> e == Some(DuplicateAddress(FirstDuplicate(us).value))
    ensures FirstDuplicate(us).None? && FirstInvalid(us, priorRoot).Some?
      ==> e == Some(InvalidPreProof(FirstInvalid(us, priorRoot).value))
    ensures FirstDuplicate(us).None? && FirstInvalid(us, priorRoot).None? ==> e == None
  {
    assert us[0..] == us;
    for i := 0 to |us|
      invariant FirstDuplicate(us) == FirstDuplicate(us[i..])
    {
      var rest := us[i..];
      for j := i + 1 to |us|
        invariant forall k :: i < k < j ==> us[k].preProof.address != us[i].preProof.address
      {
        if us[i].preProof.address == us[j].preProof.address {
          assert us[j] == rest[1..][j - i - 1];
          assert us[j] in rest[1..];
          return Some(DuplicateAddress(us[i].preProof.address));
        }
      }
      forall v | v in rest[1..]
        ensures v.preProof.address != rest[0].preProof.address
      {
        var k :| 0 <= k < |rest[1..]| && rest[1..][k] == v;
        assert v == us[i + 1 + k];
      }
      assert rest[1..] == us[i + 1..];
    }
    assert us[|us|..] == [];
    for i := 0 to |us|
      invariant FirstInvalid(us, priorRoot) == FirstInvalid(us[i..], priorRoot)
    {
      hide Verifies;
      var ok := Verify(us[i].preProof, priorRoot);
      if !ok {
        return Some(InvalidPreProof(us[i].preProof.address));
      }
      assert us[i..][1..] == us[i + 1..];
    }
    return None;
  }

  method ComputeUpdatedRoot(us: seq<Update>, priorRoot: Digest) returns (r: Result<Digest, UpdateError>)
    ensures r == ApplyUpdates(us, priorRoot)
  {
    hide Verifies, PostRoot, Distinct, FirstDuplicate, FirstInvalid;
    if us == [] {
      return Err(EmptyUpdates);
    }
    var e := ValidateUpdates(us, priorRoot);
    if e.Some? {
      return Err(e.value);
    }
    SiblingCounts(us, priorRoot);
    return Ok(PostRoot(us, 0));
  }

  lemma SiblingCounts(us: seq<Update>, priorRoot: Digest)
    requires forall u :: u in us ==> Verifies(u.preProof, priorRoot)
    ensures forall u :: u in us ==> |u.preProof.siblings| == TREE_DEPTH
  {
    hide PathHash;
  }

  lemma OffPathStays(us: seq<Update>, a: Address, depth: nat, deeper: nat)
    requires depth <= deeper < TREE_DEPTH && OnPath(us, a, depth) == []
    ensures Opposite(us, a, deeper) == []
  {
    hide OnPath, Pick, BitAt;
    OnPathShrinks(us, a, depth, deeper);
    MemberOrEmpty(Opposite(us, a, deeper));
  }

  lemma OnPathShrinks(us: seq<Update>, a: Address, depth: nat, deeper: nat)
    requires depth <= deeper < TREE_DEPTH
    ensures forall u :: u in Opposite(us, a, deeper) ==> u in OnPath(us, a, depth)
  {
    hide OnPath, Pick, BitAt;
  }

  lemma MemberOrEmpty(us: seq<Update>)
    ensures us == [] || us[0] in us
  {
  }

  /** Overwrites the siblings whose other half was touched, walking down from the root
      and stopping where no touched address shares the observer's prefix. */
  method ComputeRefreshedProof(observer: InclusionProof, us: seq<Update>, priorRoot: Digest)
    returns (r: Result<InclusionProof, UpdateError>)
    ensures r == RefreshObserver(observer, us, priorRoot)
  {
    hide Verifies, PostRoot, Distinct, FirstDuplicate, FirstInvalid, OnPath, Pick, BitAt, PostStateOf;
    var ok := Verify(observer, priorRoot);
    if !ok {
      return Err(InvalidPreProof(observer.address));
    }
    if us == [] {
      return Ok(observer);
    }
    var e := ValidateUpdates(us, priorRoot);
    if e.Some? {
      return Err(e.value);
    }
    SiblingCounts(us, priorRoot);
    ObserverSiblingCount(observer, priorRoot);
    var newSiblings := observer.siblings;
    var depth := 0;
    while depth < TREE_DEPTH
      invariant 0 <= depth <= TREE_DEPTH && |newSiblings| == TREE_DEPTH
      invariant forall i :: TREE_DEPTH - depth <= i < TREE_DEPTH ==>
        newSiblings[i] == NewSibling(observer, us, TREE_DEPTH - 1 - i)
      invariant forall i :: 0 <= i < TREE_DEPTH - depth ==> newSiblings[i] == observer.siblings[i]
    {
      var onPath := OnPath(us, observer.address, depth);
      if onPath == [] {
        forall d | depth <= d < TREE_DEPTH
          ensures NewSibling(observer, us, d) == observer.siblings[TREE_DEPTH - 1 - d]
        {
          OffPathStays(us, observer.address, depth, d);
        }
        break;
      }
      var opposite := Pick(onPath, depth, 1 - BitAt(observer.address, depth));
      if opposite != [] {
        newSiblings := newSiblings[TREE_DEPTH - 1 - depth := PostRoot(opposite, depth + 1)];
      }
      depth := depth + 1;
    }
    assert newSiblings == Refreshed(observer, us).siblings;
    return Ok(InclusionProof(observer.address, PostStateOf(us, observer.address, observer.leaf), newSiblings));
  }

  lemma ObserverSiblingCount(observer: InclusionProof, priorRoot: Digest)
    requires Verifies(observer, priorRoot)
    ensures |observer.siblings| == TREE_DEPTH
  {
  }
}
