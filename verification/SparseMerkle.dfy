/** The sparse Merkle tree over 256-bit addresses: roots, inclusion proofs, and
    what they commit to. Hashing is SHA-256 left uninterpreted; a binding result
    names the finite set of messages in which it otherwise finds a collision. */
module SparseMerkle {
  import opened Primitives
  import opened Types
  import opened Messages

  const TREE_DEPTH: nat := 256

  type Accounts = map<Address, Account>

  datatype LeafKind = Occupied(account: Account) | Empty

  /** Siblings are listed leaf to root. */
  datatype InclusionProof = InclusionProof(address: Address, leaf: LeafKind, siblings: seq<Digest>)

  // ---------- address bits ----------

  /** Bit `depth` of an address, counting from the top bit of its first byte. */
  function BitAt(a: Address, depth: nat): (b: nat)
    requires depth < TREE_DEPTH
    ensures b == 0 || b == 1
  {
    ShiftRight(BE(a, 32)[depth / 8], 7 - depth % 8) % 2
  }

  lemma {:induction false} HighBits(x: Byte, y: Byte, k: nat)
    requires k <= 8 && ShiftRight(x, 8) == ShiftRight(y, 8)
    requires forall i :: k <= i < 8 ==> ShiftRight(x, i) % 2 == ShiftRight(y, i) % 2
    ensures ShiftRight(x, k) == ShiftRight(y, k)
    decreases 8 - k
  {
    if k < 8 {
      HighBits(x, y, k + 1);
      assert ShiftRight(x, k) % 2 == ShiftRight(y, k) % 2;
    }
  }

  lemma ShiftedOut(x: Byte)
    ensures ShiftRight(x, 8) == 0
  {
    assert ShiftRight(x, 0) == x;
    var s1, s2, s3, s4 := ShiftRight(x, 1), ShiftRight(x, 2), ShiftRight(x, 3), ShiftRight(x, 4);
    assert s1 == x / 2 && s2 == s1 / 2 && s3 == s2 / 2 && s4 == s3 / 2;
    var s5, s6, s7, s8 := ShiftRight(x, 5), ShiftRight(x, 6), ShiftRight(x, 7), ShiftRight(x, 8);
    assert s5 == s4 / 2 && s6 == s5 / 2 && s7 == s6 / 2 && s8 == s7 / 2;
  }

  lemma {:induction false} ShiftInByte(x: nat, k: nat)
    requires k <= 8
    ensures ShiftRight(x % Pow2(8), k) == ShiftRight(x, k) % Pow2(8 - k)
  {
    if k > 0 {
      ShiftInByte(x, k - 1);
      HalfOfRest(ShiftRight(x, k - 1), Pow2(8 - k));
    }
  }

  lemma ByteBits(x: nat, m: nat)
    requires m < 8
    ensures ShiftRight(x % 256, m) % 2 == ShiftRight(x, m) % 2
  {
    hide ShiftRight;
    assert Pow2(8) == 256;
    ShiftInByte(x, m);
    assert Pow2(8 - m) == 2 * Pow2(7 - m);
    HalfOfRest(ShiftRight(x, m), Pow2(7 - m));
  }

  /** Bit 0 is the most significant bit of the 256-bit number, bit 255 the least. */
  lemma BitAtMeans(a: Address, depth: nat)
    requires depth < TREE_DEPTH
    ensures BitAt(a, depth) == a / Pow2(255 - depth) % 2
  {
    hide ShiftRight, BE, Pow2;
    var q, m := depth / 8, 7 - depth % 8;
    ByteOfBE(a, 32, q);
    var rest := ShiftRight(a, 8 * (31 - q));
    ByteBits(rest, m);
    ShiftTwice(a, 8 * (31 - q), m);
    assert 8 * (31 - q) + m == 255 - depth;
    ShiftDivides(a, 255 - depth);
  }

  /** An address is the sequence of its 256 bits. */
  lemma BitsDetermineAddress(a: Address, b: Address)
    ensures a == b <==> forall d :: 0 <= d < TREE_DEPTH ==> BitAt(a, d) == BitAt(b, d)
  {
    if forall d :: 0 <= d < TREE_DEPTH ==> BitAt(a, d) == BitAt(b, d) {
      var x, y := BE(a, 32), BE(b, 32);
      forall k | 0 <= k < 32
        ensures x[k] == y[k]
      {
        forall i | 0 <= i < 8
          ensures ShiftRight(x[k], i) % 2 == ShiftRight(y[k], i) % 2
        {
          var d := 8 * k + (7 - i);
          assert d / 8 == k && 7 - d % 8 == i;
          assert BitAt(a, d) == BitAt(b, d);
        }
        ShiftedOut(x[k]);
        ShiftedOut(y[k]);
        HighBits(x[k], y[k], 0);
      }
      BE32Injective(a, b);
    }
  }

  predicate SharePrefix(a: Address, b: Address, depth: nat)
    requires depth <= TREE_DEPTH
  {
    forall d :: 0 <= d < depth ==> BitAt(a, d) == BitAt(b, d)
  }

  /** All addresses lie under one node at `depth`. */
  ghost predicate Coherent(s: set<Address>, depth: nat)
    requires depth <= TREE_DEPTH
  {
    forall a, b {:trigger SharePrefix(a, b, depth)} :: a in s && b in s ==> SharePrefix(a, b, depth)
  }

  lemma CoherentBelow(s: set<Address>, t: set<Address>, depth: nat, bit: nat)
    requires depth < TREE_DEPTH && Coherent(s, depth) && t <= s
    requires forall a :: a in t ==> BitAt(a, depth) == bit
    ensures Coherent(t, depth + 1)
  {
    forall a, b | a in t && b in t
      ensures SharePrefix(a, b, depth + 1)
    {
      assert SharePrefix(a, b, depth);
    }
  }

  lemma CoherentAtLeaf(s: set<Address>, a: Address, b: Address)
    requires Coherent(s, TREE_DEPTH) && a in s && b in s
    ensures a == b
  {
    assert SharePrefix(a, b, TREE_DEPTH);
    BitsDetermineAddress(a, b);
  }

  // ---------- node hashes ----------

  function Branch(left: Digest, right: Digest): Digest { Hash(BranchMsg(left, right)) }

  function LeafMsgOf(a: Address, leaf: LeafKind): Msg {
    match leaf
    case Occupied(acct) => LeafMsg(a, acct)
    case Empty => EmptyLeafMsg
  }

  function LeafHash(a: Address, leaf: LeafKind): Digest { Hash(LeafMsgOf(a, leaf)) }

  /** Hash of an empty subtree of the given height. */
  function EmptyHash(height: nat): Digest {
    if height == 0 then Hash(EmptyLeafMsg) else Branch(EmptyHash(height - 1), EmptyHash(height - 1))
  }

  lemma EmptyHashStep(height: nat)
    ensures EmptyHash(0) == Hash(EmptyLeafMsg)
    ensures EmptyHash(height + 1) == Branch(EmptyHash(height), EmptyHash(height))
  {
  }

  /** Fills the table of empty-subtree hashes from the leaf upwards. */
  method EmptySubtreeHashes() returns (h: array<Digest>)
    ensures fresh(h) && h.Length == TREE_DEPTH + 1
    ensures forall d :: 0 <= d <= TREE_DEPTH ==> h[d] == EmptyHash(d)
  {
    hide EmptyHash;
    h := new Digest[TREE_DEPTH + 1](_ => 0);
    EmptyHashStep(0);
    h[0] := Hash(EmptyLeafMsg);
    for d := 0 to TREE_DEPTH
      invariant forall k :: 0 <= k <= d ==> h[k] == EmptyHash(k)
    {
      EmptyHashStep(d);
      h[d + 1] := Branch(h[d], h[d]);
    }
  }

  // ---------- the root of an account map ----------

  function LeafOf(m: Accounts, a: Address): LeafKind {
    if a in m then Occupied(m[a]) else Empty
  }

  /** The part of a map below one child of its node at `depth`. */
  function Side(m: Accounts, depth: nat, bit: nat): (r: Accounts)
    requires depth < TREE_DEPTH
    ensures forall a :: a in r <==> a in m && BitAt(a, depth) == bit
    ensures forall a :: a in r ==> r[a] == m[a]
  {
    map a | a in m && BitAt(a, depth) == bit :: m[a]
  }

  /** Plain meaning of the tree: the hash of the node at `depth` over exactly `m`. */
  ghost function SubRoot(m: Accounts, depth: nat): Digest
    requires depth <= TREE_DEPTH
    decreases TREE_DEPTH - depth, m
  {
    if m == map[] then EmptyHash(TREE_DEPTH - depth)
    else if depth == TREE_DEPTH then
      var a :| a in m; LeafHash(a, Occupied(m[a]))
    else Branch(SubRoot(Side(m, depth, 0), depth + 1), SubRoot(Side(m, depth, 1), depth + 1))
  }

  ghost function Root(m: Accounts): Digest { SubRoot(m, 0) }

  /** The empty-subtree shortcut agrees with hashing the two empty halves. */
  lemma SubRootBranches(m: Accounts, depth: nat)
    requires depth < TREE_DEPTH
    ensures SubRoot(m, depth) == Branch(SubRoot(Side(m, depth, 0), depth + 1), SubRoot(Side(m, depth, 1), depth + 1))
  {
    if m == map[] {
      assert Side(m, depth, 0) == map[] && Side(m, depth, 1) == map[];
      assert TREE_DEPTH - depth - 1 == TREE_DEPTH - (depth + 1);
    }
  }

  lemma SubRootOfNothing(depth: nat)
    requires depth <= TREE_DEPTH
    ensures SubRoot(map[], depth) == EmptyHash(TREE_DEPTH - depth)
  {
  }

  lemma SubRootAtLeaf(m: Accounts, a: Address)
    requires Coherent(m.Keys + {a}, TREE_DEPTH)
    ensures SubRoot(m, TREE_DEPTH) == LeafHash(a, LeafOf(m, a))
  {
    forall b | b in m
      ensures b == a
    {
      CoherentAtLeaf(m.Keys + {a}, a, b);
    }
  }

  /** Every message hashed for the node at `depth`, empty halves included. */
  ghost function RootMsgs(m: Accounts, depth: nat): set<Msg>
    requires depth <= TREE_DEPTH
    decreases TREE_DEPTH - depth, m
  {
    if depth == TREE_DEPTH then
      {EmptyLeafMsg} + set a | a in m :: LeafMsg(a, m[a])
    else
      var l, r := Side(m, depth, 0), Side(m, depth, 1);
      {BranchMsg(SubRoot(l, depth + 1), SubRoot(r, depth + 1))} + RootMsgs(l, depth + 1) + RootMsgs(r, depth + 1)
  }

  lemma CoherentSides(m: Accounts, depth: nat)
    requires depth < TREE_DEPTH && Coherent(m.Keys, depth)
    ensures Coherent(Side(m, depth, 0).Keys, depth + 1)
    ensures Coherent(Side(m, depth, 1).Keys, depth + 1)
  {
    hide BitAt;
    CoherentBelow(m.Keys, Side(m, depth, 0).Keys, depth, 0);
    CoherentBelow(m.Keys, Side(m, depth, 1).Keys, depth, 1);
  }

  /** Following the bit of `a` keeps the node a common prefix with `a`. */
  lemma CoherentToward(m: Accounts, a: Address, depth: nat)
    requires depth < TREE_DEPTH && Coherent(m.Keys + {a}, depth)
    ensures Coherent(Side(m, depth, BitAt(a, depth)).Keys + {a}, depth + 1)
  {
    hide BitAt;
    var side := Side(m, depth, BitAt(a, depth));
    CoherentBelow(m.Keys + {a}, side.Keys + {a}, depth, BitAt(a, depth));
  }

  lemma RootMsgsParts(m: Accounts, depth: nat)
    requires depth < TREE_DEPTH
    ensures BranchMsg(SubRoot(Side(m, depth, 0), depth + 1), SubRoot(Side(m, depth, 1), depth + 1))
            in RootMsgs(m, depth)
    ensures RootMsgs(Side(m, depth, 0), depth + 1) <= RootMsgs(m, depth)
    ensures RootMsgs(Side(m, depth, 1), depth + 1) <= RootMsgs(m, depth)
  {
    hide SubRoot, Side;
  }

  lemma SidesCover(m: Accounts, n: Accounts, depth: nat)
    requires depth < TREE_DEPTH
    requires Side(m, depth, 0) == Side(n, depth, 0) && Side(m, depth, 1) == Side(n, depth, 1)
    ensures m == n
  {
    hide BitAt;
    forall a
      ensures a in m <==> a in n
      ensures a in m ==> m[a] == n[a]
    {
      assert a in m <==> a in Side(m, depth, 0) || a in Side(m, depth, 1);
      assert a in n <==> a in Side(n, depth, 0) || a in Side(n, depth, 1);
    }
  }

  /** Equal roots mean equal account maps. */
  lemma {:induction false} SubRootBinds(sent: set<Msg>, m: Accounts, n: Accounts, depth: nat)
    requires depth <= TREE_DEPTH && !CollisionIn(sent)
    requires RootMsgs(m, depth) + RootMsgs(n, depth) <= sent
    requires Coherent(m.Keys, depth) && Coherent(n.Keys, depth)
    requires SubRoot(m, depth) == SubRoot(n, depth)
    ensures m == n
    decreases TREE_DEPTH - depth
  {
    hide SubRoot, RootMsgs, Side, BitAt, Coherent;
    if depth == TREE_DEPTH {
      LeafRootBinds(sent, m, n);
    } else {
      var ml, mr := Side(m, depth, 0), Side(m, depth, 1);
      var nl, nr := Side(n, depth, 0), Side(n, depth, 1);
      SubRootBranches(m, depth);
      SubRootBranches(n, depth);
      RootMsgsParts(m, depth);
      RootMsgsParts(n, depth);
      Bind(sent, BranchMsg(SubRoot(ml, depth + 1), SubRoot(mr, depth + 1)),
                 BranchMsg(SubRoot(nl, depth + 1), SubRoot(nr, depth + 1)));
      CoherentSides(m, depth);
      CoherentSides(n, depth);
      SubRootBinds(sent, ml, nl, depth + 1);
      SubRootBinds(sent, mr, nr, depth + 1);
      SidesCover(m, n, depth);
    }
  }

  lemma LeafRootBinds(sent: set<Msg>, m: Accounts, n: Accounts)
    requires !CollisionIn(sent)
    requires RootMsgs(m, TREE_DEPTH) + RootMsgs(n, TREE_DEPTH) <= sent
    requires Coherent(m.Keys, TREE_DEPTH) && Coherent(n.Keys, TREE_DEPTH)
    requires SubRoot(m, TREE_DEPTH) == SubRoot(n, TREE_DEPTH)
    ensures m == n
  {
    if m != map[] {
      var a :| a in m;
      SoleKey(m, a);
      if n == map[] {
        Bind(sent, LeafMsg(a, m[a]), EmptyLeafMsg);
      } else {
        var b :| b in n;
        SoleKey(n, b);
        Bind(sent, LeafMsg(a, m[a]), LeafMsg(b, n[b]));
      }
    } else if n != map[] {
      var b :| b in n;
      SoleKey(n, b);
      Bind(sent, EmptyLeafMsg, LeafMsg(b, n[b]));
    }
  }

  lemma SoleKey(m: Accounts, a: Address)
    requires a in m && Coherent(m.Keys, TREE_DEPTH)
    ensures m == map[a := m[a]]
    ensures SubRoot(m, TREE_DEPTH) == LeafHash(a, Occupied(m[a]))
  {
    forall b | b in m
      ensures b == a
    {
      CoherentAtLeaf(m.Keys, a, b);
    }
  }

  lemma CoherentAtRoot(s: set<Address>)
    ensures Coherent(s, 0)
  {
  }

  /** The root commits to the account map: two maps under one root are the same map,
      or two of the messages hashed for them collide. */
  lemma RootCommits(m: Accounts, n: Accounts)
    ensures m == n ==> Root(m) == Root(n)
    ensures Root(m) == Root(n) ==> m == n || CollisionIn(RootMsgs(m, 0) + RootMsgs(n, 0))
  {
    CoherentAtRoot(m.Keys);
    CoherentAtRoot(n.Keys);
    var sent := RootMsgs(m, 0) + RootMsgs(n, 0);
    if Root(m) == Root(n) && !CollisionIn(sent) {
      SubRootBinds(sent, m, n, 0);
    }
  }

  // ---------- the recursion over account lists ----------

  datatype Entry = Entry(address: Address, account: Account)
  datatype HashedEntry = HashedEntry(address: Address, digest: Digest)

  function Hashed(entries: seq<Entry>): (r: seq<HashedEntry>)
    ensures |r| == |entries|
    ensures forall i :: 0 <= i < |r| ==>
      r[i] == HashedEntry(entries[i].address, LeafHash(entries[i].address, Occupied(entries[i].account)))
  {
    seq(|entries|, i requires 0 <= i < |entries| =>
      HashedEntry(entries[i].address, LeafHash(entries[i].address, Occupied(entries[i].account))))
  }

  /** One half of a partition, in list order. */
  function Half(xs: seq<HashedEntry>, depth: nat, bit: nat): (r: seq<HashedEntry>)
    requires depth < TREE_DEPTH
    ensures forall x :: x in r <==> x in xs && BitAt(x.address, depth) == bit
  {
    if xs == [] then []
    else if BitAt(xs[0].address, depth) == bit then [xs[0]] + Half(xs[1..], depth, bit)
    else Half(xs[1..], depth, bit)
  }

  function RootRecursive(populated: seq<HashedEntry>, depth: nat): Digest
    requires depth <= TREE_DEPTH
    decreases TREE_DEPTH - depth, populated
  {
    if populated == [] then EmptyHash(TREE_DEPTH - depth)
    else if depth == TREE_DEPTH then populated[0].digest
    else
      Branch(RootRecursive(Half(populated, depth, 0), depth + 1),
             RootRecursive(Half(populated, depth, 1), depth + 1))
  }

  function ComputeRoot(entries: seq<Entry>): Digest {
    RootRecursive(Hashed(entries), 0)
  }

  /** A list that holds each account of the map, in any order and any number of times. */
  ghost predicate Lists(entries: seq<Entry>, m: Accounts) {
    && (forall e :: e in entries ==> e.address in m && m[e.address] == e.account)
    && (forall a :: a in m ==> Entry(a, m[a]) in entries)
  }

  ghost predicate ListsHashed(xs: seq<HashedEntry>, m: Accounts) {
    && (forall x :: x in xs ==> x.address in m && x.digest == LeafHash(x.address, Occupied(m[x.address])))
    && (forall a :: a in m ==> exists x :: x in xs && x.address == a)
  }

  lemma HashedLists(entries: seq<Entry>, m: Accounts)
    requires Lists(entries, m)
    ensures ListsHashed(Hashed(entries), m)
  {
    var xs := Hashed(entries);
    forall a | a in m
      ensures exists x :: x in xs && x.address == a
    {
      var i :| 0 <= i < |entries| && entries[i] == Entry(a, m[a]);
      assert xs[i] in xs;
    }
  }

  lemma HalfLists(xs: seq<HashedEntry>, m: Accounts, depth: nat, bit: nat)
    requires depth < TREE_DEPTH && ListsHashed(xs, m)
    ensures ListsHashed(Half(xs, depth, bit), Side(m, depth, bit))
  {
    forall a | a in Side(m, depth, bit)
      ensures exists x :: x in Half(xs, depth, bit) && x.address == a
    {
      var x :| x in xs && x.address == a;
      assert x in Half(xs, depth, bit);
    }
  }

  lemma {:induction false} RootRecursiveMeans(xs: seq<HashedEntry>, m: Accounts, depth: nat)
    requires depth <= TREE_DEPTH && ListsHashed(xs, m) && Coherent(m.Keys, depth)
    ensures RootRecursive(xs, depth) == SubRoot(m, depth)
    decreases TREE_DEPTH - depth
  {
    hide Side, BitAt, Coherent, Half, SubRoot;
    if xs == [] {
      assert m == map[];
      SubRootOfNothing(depth);
    } else if depth == TREE_DEPTH {
      assert xs[0] in xs;
      SoleKey(m, xs[0].address);
    } else {
      SubRootBranches(m, depth);
      CoherentSides(m, depth);
      HalfLists(xs, m, depth, 0);
      HalfLists(xs, m, depth, 1);
      RootRecursiveMeans(Half(xs, depth, 0), Side(m, depth, 0), depth + 1);
      RootRecursiveMeans(Half(xs, depth, 1), Side(m, depth, 1), depth + 1);
    }
  }

  /** `compute_root` depends on the account map alone, not on the order of its list. */
  lemma ComputeRootMeans(entries: seq<Entry>, m: Accounts)
    requires Lists(entries, m)
    ensures ComputeRoot(entries) == Root(m)
  {
    HashedLists(entries, m);
    CoherentAtRoot(m.Keys);
    RootRecursiveMeans(Hashed(entries), m, 0);
  }

  // ---------- accounts in map order ----------

  predicate IsLeast(a: Address, s: set<Address>) {
    a in s && forall b :: b in s ==> a <= b
  }

  lemma {:induction false} LeastExists(s: set<Address>)
    requires s != {}
    ensures exists a :: IsLeast(a, s)
  {
    var z :| z in s;
    if s != {z} {
      LeastExists(s - {z});
      var a :| IsLeast(a, s - {z});
      forall b | b in s
        ensures a <= b || z <= b
      {
        assert b == z || b in s - {z};
      }
      var least := if z < a then z else a;
      assert IsLeast(least, s);
    } else {
      assert IsLeast(z, s);
    }
  }

  lemma ListsCons(m: Accounts, a: Address, rest: Accounts, tail: seq<Entry>)
    requires a in m && Lists(tail, rest)
    requires rest.Keys == m.Keys - {a} && forall b :: b in rest ==> rest[b] == m[b]
    ensures Lists([Entry(a, m[a])] + tail, m)
  {
    var all := [Entry(a, m[a])] + tail;
    assert all[0] == Entry(a, m[a]);
    forall b | b in m
      ensures Entry(b, m[b]) in all
    {
      if b != a {
        assert b in rest && Entry(b, rest[b]) in tail;
      }
    }
  }

  /** The accounts of a map in key order, as an ordered map iterates. */
  function EntriesOf(m: Accounts): (r: seq<Entry>)
    ensures Lists(r, m)
    decreases |m|
  {
    if m == map[] then [] else
      LeastExists(m.Keys);
      var a :| IsLeast(a, m.Keys);
      var rest := map b | b in m && b != a :: m[b];
      assert rest.Keys == m.Keys - {a};
      ListsCons(m, a, rest, EntriesOf(rest));
      [Entry(a, m[a])] + EntriesOf(rest)
  }

  /** `LedgerState::accounts_root`: the list recursion on the ordered account list. */
  function AccountsRoot(m: Accounts): (r: Digest)
    ensures r == Root(m)
  {
    ComputeRootMeans(EntriesOf(m), m);
    ComputeRoot(EntriesOf(m))
  }

  // ---------- inclusion proofs ----------

  /** The running hash of proof verification once it has climbed to `depth`. */
  function PathHash(a: Address, leaf: LeafKind, siblings: seq<Digest>, depth: nat): Digest
    requires |siblings| == TREE_DEPTH && depth <= TREE_DEPTH
    decreases TREE_DEPTH - depth, siblings
  {
    if depth == TREE_DEPTH then LeafHash(a, leaf)
    else
      var current := PathHash(a, leaf, siblings, depth + 1);
      var sibling := siblings[TREE_DEPTH - 1 - depth];
      if BitAt(a, depth) == 0 then Branch(current, sibling) else Branch(sibling, current)
  }

  predicate Verifies(p: InclusionProof, root: Digest) {
    |p.siblings| == TREE_DEPTH && PathHash(p.address, p.leaf, p.siblings, 0) == root
  }

  /** The verification loop, from the deepest level up. */
  method Verify(p: InclusionProof, expectedRoot: Digest) returns (ok: bool)
    ensures ok == Verifies(p, expectedRoot)
  {
    if |p.siblings| != TREE_DEPTH {
      return false;
    }
    var current := LeafHash(p.address, p.leaf);
    for d := TREE_DEPTH downto 0
      invariant current == PathHash(p.address, p.leaf, p.siblings, d)
    {
      var sibling := p.siblings[TREE_DEPTH - 1 - d];
      current := if BitAt(p.address, d) == 0 then Branch(current, sibling) else Branch(sibling, current);
    }
    return current == expectedRoot;
  }

  /** The messages hashed in climbing from the leaf to `depth`. */
  ghost function PathMsgs(a: Address, leaf: LeafKind, siblings: seq<Digest>, depth: nat): set<Msg>
    requires |siblings| == TREE_DEPTH && depth <= TREE_DEPTH
    decreases TREE_DEPTH - depth, siblings
  {
    if depth == TREE_DEPTH then {LeafMsgOf(a, leaf)}
    else
      var current := PathHash(a, leaf, siblings, depth + 1);
      var sibling := siblings[TREE_DEPTH - 1 - depth];
      {if BitAt(a, depth) == 0 then BranchMsg(current, sibling) else BranchMsg(sibling, current)}
      + PathMsgs(a, leaf, siblings, depth + 1)
  }

  ghost function ProofMsgs(p: InclusionProof): set<Msg> {
    if |p.siblings| == TREE_DEPTH then PathMsgs(p.address, p.leaf, p.siblings, 0) else {}
  }

  /** The proof tells the truth about `m` from `depth` down: its leaf is the account
      and each sibling is the hash of the other half. */
  ghost predicate TruePath(p: InclusionProof, m: Accounts, depth: nat)
    requires |p.siblings| == TREE_DEPTH && depth <= TREE_DEPTH
    decreases TREE_DEPTH - depth, p
  {
    if depth == TREE_DEPTH then p.leaf == LeafOf(m, p.address)
    else
      var bit := BitAt(p.address, depth);
      && p.siblings[TREE_DEPTH - 1 - depth] == SubRoot(Side(m, depth, 1 - bit), depth + 1)
      && TruePath(p, Side(m, depth, bit), depth + 1)
  }

  ghost predicate TrueProof(p: InclusionProof, m: Accounts) {
    |p.siblings| == TREE_DEPTH && TruePath(p, m, 0)
  }

  lemma {:induction false} TruePathLeaf(p: InclusionProof, m: Accounts, depth: nat)
    requires |p.siblings| == TREE_DEPTH && depth <= TREE_DEPTH && TruePath(p, m, depth)
    ensures p.leaf == LeafOf(m, p.address)
    decreases TREE_DEPTH - depth
  {
    hide SubRoot, BitAt;
    if depth < TREE_DEPTH {
      TruePathLeaf(p, Side(m, depth, BitAt(p.address, depth)), depth + 1);
    }
  }

  /** A true path hashes to the node it starts from; no property of the hash is used. */
  lemma {:induction false} TruePathHashes(p: InclusionProof, m: Accounts, depth: nat)
    requires |p.siblings| == TREE_DEPTH && depth <= TREE_DEPTH && TruePath(p, m, depth)
    requires Coherent(m.Keys + {p.address}, depth)
    ensures PathHash(p.address, p.leaf, p.siblings, depth) == SubRoot(m, depth)
    decreases TREE_DEPTH - depth
  {
    hide SubRoot, Side, Coherent, BitAt;
    if depth == TREE_DEPTH {
      SubRootAtLeaf(m, p.address);
    } else {
      CoherentToward(m, p.address, depth);
      TruePathHashes(p, Side(m, depth, BitAt(p.address, depth)), depth + 1);
      SubRootBranches(m, depth);
    }
  }

  /** A path that hashes to the node of `m` is true of `m`, short of a collision. */
  lemma {:induction false} PathBinds(sent: set<Msg>, p: InclusionProof, m: Accounts, depth: nat)
    requires |p.siblings| == TREE_DEPTH && depth <= TREE_DEPTH && !CollisionIn(sent)
    requires PathMsgs(p.address, p.leaf, p.siblings, depth) + RootMsgs(m, depth) <= sent
    requires Coherent(m.Keys + {p.address}, depth)
    requires PathHash(p.address, p.leaf, p.siblings, depth) == SubRoot(m, depth)
    ensures TruePath(p, m, depth)
    decreases TREE_DEPTH - depth
  {
    hide SubRoot, Side, Coherent, BitAt, RootMsgs;
    if depth == TREE_DEPTH {
      SubRootAtLeaf(m, p.address);
      LeafMsgHashed(m, p.address);
      Bind(sent, LeafMsgOf(p.address, p.leaf), LeafMsgOf(p.address, LeafOf(m, p.address)));
    } else {
      var bit := BitAt(p.address, depth);
      var current := PathHash(p.address, p.leaf, p.siblings, depth + 1);
      var sibling := p.siblings[TREE_DEPTH - 1 - depth];
      SubRootBranches(m, depth);
      RootMsgsParts(m, depth);
      Bind(sent, if bit == 0 then BranchMsg(current, sibling) else BranchMsg(sibling, current),
                 BranchMsg(SubRoot(Side(m, depth, 0), depth + 1), SubRoot(Side(m, depth, 1), depth + 1)));
      CoherentToward(m, p.address, depth);
      PathBinds(sent, p, Side(m, depth, bit), depth + 1);
    }
  }

  lemma LeafMsgHashed(m: Accounts, a: Address)
    ensures LeafMsgOf(a, LeafOf(m, a)) in RootMsgs(m, TREE_DEPTH)
  {
  }

  /** A proof verifies against the root of a map exactly when it is true of the map,
      or two of the messages hashed for the proof and the root collide. */
  lemma ProofBinding(p: InclusionProof, m: Accounts)
    ensures TrueProof(p, m) ==> Verifies(p, Root(m)) && p.leaf == LeafOf(m, p.address)
    ensures Verifies(p, Root(m)) ==> TrueProof(p, m) || CollisionIn(ProofMsgs(p) + RootMsgs(m, 0))
  {
    CoherentAtRoot(m.Keys + {p.address});
    if TrueProof(p, m) {
      TruePathHashes(p, m, 0);
      TruePathLeaf(p, m, 0);
    }
    var sent := ProofMsgs(p) + RootMsgs(m, 0);
    if Verifies(p, Root(m)) && !CollisionIn(sent) {
      PathBinds(sent, p, m, 0);
    }
  }

  /** Two proofs for one address under one root carry the same leaf and the same
      whole sibling path, or collide. No account map is involved. */
  lemma {:induction false} PathsAgree(sent: set<Msg>, p: InclusionProof, q: InclusionProof, depth: nat)
    requires |p.siblings| == |q.siblings| == TREE_DEPTH && depth <= TREE_DEPTH && !CollisionIn(sent)
    requires p.address == q.address
    requires PathMsgs(p.address, p.leaf, p.siblings, depth) + PathMsgs(q.address, q.leaf, q.siblings, depth) <= sent
    requires PathHash(p.address, p.leaf, p.siblings, depth) == PathHash(q.address, q.leaf, q.siblings, depth)
    ensures p.leaf == q.leaf
    ensures p.siblings[..TREE_DEPTH - depth] == q.siblings[..TREE_DEPTH - depth]
    decreases TREE_DEPTH - depth
  {
    hide BitAt;
    if depth == TREE_DEPTH {
      Bind(sent, LeafMsgOf(p.address, p.leaf), LeafMsgOf(q.address, q.leaf));
    } else {
      var bit := BitAt(p.address, depth);
      var cp := PathHash(p.address, p.leaf, p.siblings, depth + 1);
      var cq := PathHash(q.address, q.leaf, q.siblings, depth + 1);
      var sp, sq := p.siblings[TREE_DEPTH - 1 - depth], q.siblings[TREE_DEPTH - 1 - depth];
      Bind(sent, if bit == 0 then BranchMsg(cp, sp) else BranchMsg(sp, cp),
                 if bit == 0 then BranchMsg(cq, sq) else BranchMsg(sq, cq));
      PathsAgree(sent, p, q, depth + 1);
      var n := TREE_DEPTH - 1 - depth;
      assert p.siblings[..n + 1] == p.siblings[..n] + [sp] && q.siblings[..n + 1] == q.siblings[..n] + [sq];
    }
  }

  lemma VerifyingProofsAgree(p: InclusionProof, q: InclusionProof, root: Digest)
    requires p.address == q.address && Verifies(p, root) && Verifies(q, root)
    ensures p == q || CollisionIn(ProofMsgs(p) + ProofMsgs(q))
  {
    var sent := ProofMsgs(p) + ProofMsgs(q);
    if !CollisionIn(sent) {
      PathsAgree(sent, p, q, 0);
      assert p.siblings[..TREE_DEPTH] == p.siblings && q.siblings[..TREE_DEPTH] == q.siblings;
    }
  }

  // ---------- computing proofs ----------

  /** The siblings gathered below `depth` on the way to `target`, deepest first. */
  function ProofRecursive(populated: seq<HashedEntry>, target: Address, depth: nat): (out: seq<Digest>)
    requires depth <= TREE_DEPTH
    ensures |out| == TREE_DEPTH - depth
    decreases TREE_DEPTH - depth, populated
  {
    if depth == TREE_DEPTH then []
    else
      var bit := BitAt(target, depth);
      ProofRecursive(Half(populated, depth, bit), target, depth + 1)
      + [RootRecursive(Half(populated, depth, 1 - bit), depth + 1)]
  }

  function FindEntry(entries: seq<Entry>, target: Address): (leaf: LeafKind)
    ensures leaf.Occupied? ==> Entry(target, leaf.account) in entries
    ensures leaf.Empty? ==> forall e :: e in entries ==> e.address != target
  {
    if entries == [] then Empty
    else if entries[0].address == target then Occupied(entries[0].account)
    else FindEntry(entries[1..], target)
  }

  function ComputeProof(entries: seq<Entry>, target: Address): InclusionProof {
    InclusionProof(target, FindEntry(entries, target), ProofRecursive(Hashed(entries), target, 0))
  }

  lemma ProofRecursiveStep(xs: seq<HashedEntry>, target: Address, depth: nat)
    requires depth < TREE_DEPTH
    ensures var bit := BitAt(target, depth);
            ProofRecursive(xs, target, depth) == ProofRecursive(Half(xs, depth, bit), target, depth + 1)
                                                 + [RootRecursive(Half(xs, depth, 1 - bit), depth + 1)]
  {
    hide BitAt, Half, RootRecursive;
  }

  lemma SplitLast(s: seq<Digest>, n: nat, init: seq<Digest>, last: Digest)
    requires n < |s| && |init| == n && s[..n + 1] == init + [last]
    ensures s[..n] == init && s[n] == last
  {
    var t := s[..n + 1];
    assert t[..n] == s[..n] && t[n] == s[n];
  }

  lemma {:induction false} ProofRecursiveTrue(p: InclusionProof, xs: seq<HashedEntry>, m: Accounts, depth: nat)
    requires depth <= TREE_DEPTH && |p.siblings| == TREE_DEPTH
    requires ListsHashed(xs, m) && Coherent(m.Keys, depth)
    requires p.siblings[..TREE_DEPTH - depth] == ProofRecursive(xs, p.address, depth)
    requires p.leaf == LeafOf(m, p.address)
    ensures TruePath(p, m, depth)
    decreases TREE_DEPTH - depth
  {
    hide SubRoot, Side, Coherent, BitAt, Half, RootRecursive, ProofRecursive;
    if depth < TREE_DEPTH {
      ProofRecursiveStep(xs, p.address, depth);
      var bit := BitAt(p.address, depth);
      var near, far := Side(m, depth, bit), Side(m, depth, 1 - bit);
      var n := TREE_DEPTH - 1 - depth;
      var deeper := ProofRecursive(Half(xs, depth, bit), p.address, depth + 1);
      SplitLast(p.siblings, n, deeper, RootRecursive(Half(xs, depth, 1 - bit), depth + 1));
      HalfLists(xs, m, depth, bit);
      HalfLists(xs, m, depth, 1 - bit);
      CoherentSides(m, depth);
      RootRecursiveMeans(Half(xs, depth, 1 - bit), far, depth + 1);
      ProofRecursiveTrue(p, Half(xs, depth, bit), near, depth + 1);
    }
  }

  /** Computed proofs are true proofs, for present and absent addresses alike. */
  lemma ComputeProofTrue(entries: seq<Entry>, m: Accounts, target: Address)
    requires Lists(entries, m)
    ensures TrueProof(ComputeProof(entries, target), m)
    ensures Verifies(ComputeProof(entries, target), ComputeRoot(entries))
    ensures ComputeProof(entries, target).leaf == LeafOf(m, target)
  {
    var p := ComputeProof(entries, target);
    HashedLists(entries, m);
    CoherentAtRoot(m.Keys);
    assert p.siblings[..TREE_DEPTH] == p.siblings;
    assert p.leaf == LeafOf(m, target) by {
      if target in m {
        assert Entry(target, m[target]) in entries;
      }
    }
    ProofRecursiveTrue(p, Hashed(entries), m, 0);
    ComputeRootMeans(entries, m);
    ProofBinding(p, m);
  }

  /** The recursion as the program runs it: it pushes each level's sibling onto one vector,
      deepest first, and returns the hash of the node it stands at. */
  method GatherSiblings(populated: seq<HashedEntry>, target: Address, depth: nat, before: seq<Digest>)
    returns (here: Digest, out: seq<Digest>)
    requires depth <= TREE_DEPTH
    ensures here == RootRecursive(populated, depth)
    ensures out == before + ProofRecursive(populated, target, depth)
    decreases TREE_DEPTH - depth
  {
    hide BitAt, Half, RootRecursive, ProofRecursive;
    RootRecursiveStep(populated, depth);
    if depth == TREE_DEPTH {
      AtTheLeaf(populated, target);
      out := before;
      here := if populated == [] then EmptyHash(0) else populated[0].digest;
    } else {
      ProofRecursiveStep(populated, target, depth);
      var bit := BitAt(target, depth);
      var near;
      near, out := GatherSiblings(Half(populated, depth, bit), target, depth + 1, before);
      var far := RootRecursive(Half(populated, depth, 1 - bit), depth + 1);
      out := out + [far];
      here := if bit == 0 then Branch(near, far) else Branch(far, near);
    }
  }

  lemma RootRecursiveStep(xs: seq<HashedEntry>, depth: nat)
    requires depth <= TREE_DEPTH
    ensures depth < TREE_DEPTH ==>
      RootRecursive(xs, depth)
      == Branch(RootRecursive(Half(xs, depth, 0), depth + 1), RootRecursive(Half(xs, depth, 1), depth + 1))
    ensures depth == TREE_DEPTH ==> RootRecursive(xs, depth) == if xs == [] then EmptyHash(0) else xs[0].digest
  {
    hide BitAt;
    if depth < TREE_DEPTH && xs == [] {
      assert TREE_DEPTH - depth == TREE_DEPTH - (depth + 1) + 1;
      EmptyHashStep(TREE_DEPTH - (depth + 1));
    }
  }

  lemma AtTheLeaf(xs: seq<HashedEntry>, target: Address)
    ensures ProofRecursive(xs, target, TREE_DEPTH) == []
  {
  }

  /** `compute_proof`. */
  method GatherProof(entries: seq<Entry>, target: Address) returns (p: InclusionProof)
    ensures p == ComputeProof(entries, target)
  {
    hide ProofRecursive, RootRecursive;
    var root, siblings := GatherSiblings(Hashed(entries), target, 0, []);
    p := InclusionProof(target, FindEntry(entries, target), siblings);
  }

  /** `LedgerState::account_inclusion_proof`. */
  function ProofOf(m: Accounts, a: Address): (p: InclusionProof)
    ensures p.address == a && TrueProof(p, m)
  {
    ComputeProofTrue(EntriesOf(m), m, a);
    ComputeProof(EntriesOf(m), a)
  }
}
