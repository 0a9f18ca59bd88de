/** Every byte string the chain hashes, as a structured message with its encoding. */
module Messages {
  import opened Primitives
  import opened Types
  import opened Crypto

  datatype Msg =
    | EmptyLeafMsg
    | LeafMsg(address: Address, account: Account)
    | BranchMsg(left: Digest, right: Digest)
    | NullifiersMsg(nullifiers: set<Bytes>)
    | StateMsg(accountsRoot: Digest, nullifiersHash: Digest, fee: Option<Address>)
    | HeaderMsg(header: Header)
    | TxsMsg(hashes: seq<Digest>)
    | MintTxMsg(event: MintEvent, outpoint: OutPoint, userKey: Address, lockBlocks: u32, signature: Signature)
    | TransferTxMsg(sighash: Digest, transferSignature: Signature)
    | TransferMsg(body: TransferBody)
    | MintClaimMsg(claimOutpoint: OutPoint, claimedHeight: u32, destination: Address)

  function Ascii(s: string): (r: Bytes)
    ensures |r| == |s|
  {
    seq(|s|, i requires 0 <= i < |s| => (s[i] as int) % 256)
  }

  function Tag(m: Msg): (t: Bytes)
    ensures |t| >= 10
  {
    match m
    case EmptyLeafMsg => Ascii("hodl-smt-empty-leaf-v0")
    case LeafMsg(_, _) => Ascii("hodl-smt-leaf-v0")
    case BranchMsg(_, _) => Ascii("hodl-smt-branch-v0")
    case NullifiersMsg(_) => Ascii("hodl-nullifiers-v0")
    case StateMsg(_, _, _) => Ascii("hodl-state-v4")
    case HeaderMsg(_) => Ascii("hodl-block-v3")
    case TxsMsg(_) => Ascii("hodl-txs-v2")
    case MintTxMsg(_, _, _, _, _) => Ascii("hodl-tx-v2")
    case TransferTxMsg(_, _) => Ascii("hodl-tx-v2")
    case TransferMsg(_) => Ascii("hodl-transfer-v2")
    case MintClaimMsg(_, _, _) => Ascii("hodl-mint-v1")
  }

  // ---------- the sorted nullifier list ----------

  /** Byte-wise lexicographic order, the iteration order of a set of strings. */
  predicate LexLe(a: Bytes, b: Bytes) {
    a == [] || (b != [] && (a[0] < b[0] || (a[0] == b[0] && LexLe(a[1..], b[1..]))))
  }

  lemma {:induction false} LexTotal(a: Bytes, b: Bytes)
    ensures LexLe(a, b) || LexLe(b, a)
    ensures LexLe(a, b) && LexLe(b, a) ==> a == b
  {
    if a != [] && b != [] {
      LexTotal(a[1..], b[1..]);
      assert a == [a[0]] + a[1..] && b == [b[0]] + b[1..];
    }
  }

  lemma {:induction false} LexTransitive(a: Bytes, b: Bytes, c: Bytes)
    requires LexLe(a, b) && LexLe(b, c)
    ensures LexLe(a, c)
  {
    if a != [] && a[0] == b[0] == c[0] {
      LexTransitive(a[1..], b[1..], c[1..]);
    }
  }

  predicate IsFirst(x: Bytes, s: set<Bytes>) {
    x in s && forall y :: y in s ==> LexLe(x, y)
  }

  lemma {:induction false} FirstExists(s: set<Bytes>)
    requires s != {}
    ensures exists x :: IsFirst(x, s)
    ensures forall x, y :: IsFirst(x, s) && IsFirst(y, s) ==> x == y
  {
    forall x, y | IsFirst(x, s) && IsFirst(y, s)
      ensures x == y
    {
      LexTotal(x, y);
    }
    var z :| z in s;
    if s == {z} {
      LexTotal(z, z);
      assert IsFirst(z, s);
    } else {
      FirstExists(s - {z});
      var f :| IsFirst(f, s - {z});
      LexTotal(f, z);
      LexTotal(z, z);
      if LexLe(f, z) {
        assert IsFirst(f, s);
      } else {
        forall y | y in s
          ensures LexLe(z, y)
        {
          if y != z {
            LexTransitive(z, f, y);
          }
        }
        assert IsFirst(z, s);
      }
    }
  }

  /** The elements of a string set in iteration order. */
  function InOrder(s: set<Bytes>): (r: seq<Bytes>)
    ensures forall x :: x in r <==> x in s
  {
    if s == {} then [] else
      FirstExists(s);
      var x :| IsFirst(x, s);
      [x] + InOrder(s - {x})
  }

  /** The order is strictly ascending, so each element occurs once. */
  lemma {:induction false} InOrderAscends(s: set<Bytes>, i: nat, j: nat)
    requires i < j < |InOrder(s)|
    ensures LexLe(InOrder(s)[i], InOrder(s)[j]) && InOrder(s)[i] != InOrder(s)[j]
  {
    hide LexLe;
    FirstExists(s);
    var x :| IsFirst(x, s) && InOrder(s) == [x] + InOrder(s - {x});
    if i == 0 {
      assert InOrder(s)[j] == InOrder(s - {x})[j - 1];
      assert InOrder(s)[j] in s - {x};
    } else {
      InOrderAscends(s - {x}, i - 1, j - 1);
    }
  }

  // ---------- encodings ----------

  function OptionChunks<T>(o: Option<T>, payload: Bytes): (c: seq<Bytes>)
    ensures |c| == 2
  {
    match o
    case None => [[0], []]
    case Some(_) => [[1], payload]
  }

  function AnchorBytes(o: Option<OutPoint>): (r: Bytes)
    ensures |r| == if o.Some? then 36 else 0
  {
    match o
    case None => []
    case Some(op) => BE(op.txid, 32) + BE(op.vout, 4)
  }

  function AddressBytes(o: Option<Address>): (r: Bytes)
    ensures |r| == if o.Some? then 32 else 0
  {
    match o
    case None => []
    case Some(a) => BE(a, 32)
  }

  /** Canonical bytes of a mint witness. The claimed height is not among them. */
  function WitnessBytes(outpoint: OutPoint, userKey: Address, lockBlocks: u32, signature: Signature): (w: Bytes)
    ensures |w| == 137
  {
    [1] + BE(outpoint.txid, 32) + BE(outpoint.vout, 4) + BE(userKey, 32) + BE(lockBlocks, 4) + signature
  }

  function HashChunks(hashes: seq<Digest>): (c: seq<Bytes>)
    ensures |c| == |hashes|
    ensures forall x :: x in c ==> |x| == 32
  {
    seq(|hashes|, i requires 0 <= i < |hashes| => BE(hashes[i], 32))
  }

  /** The pieces fed to the hasher after the tag, in order. */
  function Fields(m: Msg): seq<Bytes> {
    match m
    case EmptyLeafMsg => []
    case LeafMsg(a, acct) => [BE(a, 32), BE(acct.balance, 8), BE(acct.nonce, 8)]
    case BranchMsg(l, r) => [BE(l, 32), BE(r, 32)]
    case NullifiersMsg(ns) => InOrder(ns)
    case StateMsg(ar, nh, fee) =>
      [BE(ar, 32), BE(nh, 32), Ascii("|fee|")] + OptionChunks(fee, AddressBytes(fee))
    case HeaderMsg(h) =>
      [BE(h.height, 4), BE(h.prevHash, 32), BE(h.l1BlockHash, 32), BE(h.l1Height, 4),
       BE(h.txsRoot, 32), BE(h.stateRoot, 32), BE(h.timestamp, 8)]
      + OptionChunks(h.anchor, AnchorBytes(h.anchor))
      + OptionChunks(h.producer, AddressBytes(h.producer))
      + OptionChunks(h.feeAddress, AddressBytes(h.feeAddress))
    case TxsMsg(hashes) => HashChunks(hashes)
    case MintTxMsg(ev, op, key, lock, sig) =>
      var w := WitnessBytes(op, key, lock, sig);
      [[1], BE(|ev.nullifierHex|, 4), ev.nullifierHex, BE(ev.amount, 8), BE(ev.destination, 32),
       BE(ev.createHeight, 4), BE(ev.lockBlocks, 4), BE(ev.valueSat, 8), BE(|w|, 4), w]
    case TransferTxMsg(d, sig) => [[2], BE(d, 32), sig]
    case TransferMsg(b) => [BE(b.sender, 32), BE(b.recipient, 32), BE(b.amount, 8), BE(b.nonce, 8)]
    case MintClaimMsg(op, h, dest) => [BE(op.txid, 32), LE(op.vout, 4), BE(h, 4), BE(dest, 32)]
  }

  function Encode(m: Msg): (r: Bytes) {
    Tag(m) + Flatten(Fields(m))
  }

  /** SHA-256 of the encoding. The type pins the function down completely; its
      definition is unfolded only where the encoding itself is mentioned. */
  type MsgHasher = f: Msg -> Digest | forall m: Msg {:trigger Encode(m)} :: f(m) == Sha256(Encode(m))
    witness (m: Msg) => Sha256(Encode(m))

  const MsgHash: MsgHasher

  function Hash(m: Msg): (d: Digest) {
    MsgHash(m)
  }

  lemma HashIsSha256(m: Msg)
    ensures Hash(m) == Sha256(Encode(m))
  {
    assert Encode(m) == Encode(m);
  }

  // ---------- unique decodability ----------

  const NULLIFIER_LEN: nat := 72

  predicate ProperNullifiers(ns: set<Bytes>) {
    forall n :: n in ns ==> |n| == NULLIFIER_LEN
  }

  /** The side conditions under which an encoding can be read back: nullifiers in
      a set are 72 characters, and a length fits its 32-bit prefix. */
  predicate Decodable(m: Msg) {
    match m
    case NullifiersMsg(ns) => ProperNullifiers(ns)
    case MintTxMsg(ev, _, _, _, _) => |ev.nullifierHex| <= U32_MAX
    case _ => true
  }

  /** Reads the kind of a message off its tag, at the first places the tags differ. */
  function KindAt(b: Bytes): nat
    requires |b| >= 10
  {
    if b[5] == 'n' as int then 1
    else if b[5] == 'b' as int then 2
    else if b[5] == 'm' as int then 3
    else if b[5] == 's' as int then
      if b[6] == 't' as int then 4
      else if b[9] == 'e' as int then 5
      else if b[9] == 'l' as int then 6
      else 7
    else if b[6] == 'r' as int then 8
    else if b[7] == 's' as int then 9
    else 10
  }

  function Kind(m: Msg): nat {
    match m
    case EmptyLeafMsg => 5
    case LeafMsg(_, _) => 6
    case BranchMsg(_, _) => 7
    case NullifiersMsg(_) => 1
    case StateMsg(_, _, _) => 4
    case HeaderMsg(_) => 2
    case TxsMsg(_) => 9
    case MintTxMsg(_, _, _, _, _) => 10
    case TransferTxMsg(_, _) => 10
    case TransferMsg(_) => 8
    case MintClaimMsg(_, _, _) => 3
  }

  lemma KindOfTreeTag(m: Msg)
    requires m.EmptyLeafMsg? || m.LeafMsg? || m.BranchMsg? || m.NullifiersMsg? || m.StateMsg?
    ensures KindAt(Tag(m)) == Kind(m)
  {
    hide Fields, Flatten;
  }

  lemma KindOfChainTag(m: Msg)
    requires m.HeaderMsg? || m.TxsMsg? || m.MintTxMsg? || m.TransferTxMsg? || m.TransferMsg? || m.MintClaimMsg?
    ensures KindAt(Tag(m)) == Kind(m)
  {
    hide Fields, Flatten;
  }

  lemma KindOfTag(m: Msg)
    ensures KindAt(Encode(m)) == Kind(m)
  {
    hide Tag, Fields, Flatten;
    var t, e := Tag(m), Encode(m);
    assert e[5] == t[5] && e[6] == t[6] && e[7] == t[7] && e[9] == t[9];
    if m.EmptyLeafMsg? || m.LeafMsg? || m.BranchMsg? || m.NullifiersMsg? || m.StateMsg? {
      KindOfTreeTag(m);
    } else {
      KindOfChainTag(m);
    }
  }

  lemma SameFields(a: Msg, b: Msg)
    requires Encode(a) == Encode(b)
    ensures Tag(a) == Tag(b) && Flatten(Fields(a)) == Flatten(Fields(b))
    ensures Kind(a) == Kind(b)
  {
    hide Fields, Flatten, KindAt;
    KindOfTag(a);
    KindOfTag(b);
    assert Tag(a) == Tag(b);
    assert Encode(a)[|Tag(a)|..] == Flatten(Fields(a));
    assert Encode(b)[|Tag(b)|..] == Flatten(Fields(b));
  }

  lemma OptionalAddressInjective(x: Option<Address>, y: Option<Address>)
    requires OptionChunks(x, AddressBytes(x)) == OptionChunks(y, AddressBytes(y))
    ensures x == y
  {
    var cx, cy := OptionChunks(x, AddressBytes(x)), OptionChunks(y, AddressBytes(y));
    assert cx[0] == cy[0] && cx[1] == cy[1];
    assert cx[0][0] == cy[0][0];
    if x.Some? {
      BE32Injective(x.value, y.value);
    }
  }

  lemma OutPointBytesInjective(x: OutPoint, y: OutPoint)
    requires BE(x.txid, 32) + BE(x.vout, 4) == BE(y.txid, 32) + BE(y.vout, 4)
    ensures x == y
  {
    var p, q := BE(x.txid, 32) + BE(x.vout, 4), BE(y.txid, 32) + BE(y.vout, 4);
    assert p[..32] == BE(x.txid, 32) && q[..32] == BE(y.txid, 32);
    assert p[32..] == BE(x.vout, 4) && q[32..] == BE(y.vout, 4);
    BE32Injective(x.txid, y.txid);
    BE4Injective(x.vout, y.vout);
  }

  lemma OptionalAnchorInjective(x: Option<OutPoint>, y: Option<OutPoint>)
    requires OptionChunks(x, AnchorBytes(x)) == OptionChunks(y, AnchorBytes(y))
    ensures x == y
  {
    var cx, cy := OptionChunks(x, AnchorBytes(x)), OptionChunks(y, AnchorBytes(y));
    assert cx[0] == cy[0] && cx[1] == cy[1];
    assert cx[0][0] == cy[0][0];
    if x.Some? {
      OutPointBytesInjective(x.value, y.value);
    }
  }

  lemma WitnessBytesInjective(op: OutPoint, key: Address, lock: u32, sig: Signature,
                              op': OutPoint, key': Address, lock': u32, sig': Signature)
    requires WitnessBytes(op, key, lock, sig) == WitnessBytes(op', key', lock', sig')
    ensures op == op' && key == key' && lock == lock' && sig == sig'
  {
    var w, w' := WitnessBytes(op, key, lock, sig), WitnessBytes(op', key', lock', sig');
    assert w[1..33] == BE(op.txid, 32) && w'[1..33] == BE(op'.txid, 32);
    assert w[33..37] == BE(op.vout, 4) && w'[33..37] == BE(op'.vout, 4);
    assert w[37..69] == BE(key, 32) && w'[37..69] == BE(key', 32);
    assert w[69..73] == BE(lock, 4) && w'[69..73] == BE(lock', 4);
    assert w[73..] == sig && w'[73..] == sig';
    BE32Injective(op.txid, op'.txid);
    BE4Injective(op.vout, op'.vout);
    BE32Injective(key, key');
    BE4Injective(lock, lock');
  }

  lemma HeaderInjective(x: Header, y: Header)
    requires Flatten(Fields(HeaderMsg(x))) == Flatten(Fields(HeaderMsg(y)))
    ensures x == y
  {
    hide BE, Flatten, AnchorBytes, AddressBytes;
    var fx, fy := Fields(HeaderMsg(x)), Fields(HeaderMsg(y));
    // Each optional field contributes its flag at a place that is fixed once the
    // earlier ones are known to agree.
    FlattenAgree(fx, fy, 8);
    assert fx[7][0] == fy[7][0];
    FlattenAgree(fx, fy, 10);
    assert fx[9][0] == fy[9][0];
    FlattenAgree(fx, fy, 12);
    assert fx[11][0] == fy[11][0];
    FlattenAgree(fx, fy, 13);
    HeaderFieldsInjective(x, y, fx, fy);
  }

  lemma HeaderFieldsInjective(x: Header, y: Header, fx: seq<Bytes>, fy: seq<Bytes>)
    requires fx == Fields(HeaderMsg(x)) && fy == Fields(HeaderMsg(y))
    requires |fx| == |fy| == 13
    requires forall i :: 0 <= i < 13 ==> fx[i] == fy[i]
    ensures x == y
  {
    hide BE, Flatten, AnchorBytes, AddressBytes;
    assert fx[0] == fy[0] && fx[1] == fy[1] && fx[2] == fy[2] && fx[3] == fy[3];
    assert fx[4] == fy[4] && fx[5] == fy[5] && fx[6] == fy[6];
    BE4Injective(x.height, y.height);
    BE32Injective(x.prevHash, y.prevHash);
    BE32Injective(x.l1BlockHash, y.l1BlockHash);
    BE4Injective(x.l1Height, y.l1Height);
    BE32Injective(x.txsRoot, y.txsRoot);
    BE32Injective(x.stateRoot, y.stateRoot);
    BE8Injective(x.timestamp, y.timestamp);
    assert fx[7..9] == OptionChunks(x.anchor, AnchorBytes(x.anchor));
    assert fy[7..9] == OptionChunks(y.anchor, AnchorBytes(y.anchor));
    assert fx[9..11] == OptionChunks(x.producer, AddressBytes(x.producer));
    assert fy[9..11] == OptionChunks(y.producer, AddressBytes(y.producer));
    assert fx[11..13] == OptionChunks(x.feeAddress, AddressBytes(x.feeAddress));
    assert fy[11..13] == OptionChunks(y.feeAddress, AddressBytes(y.feeAddress));
    OptionalAnchorInjective(x.anchor, y.anchor);
    OptionalAddressInjective(x.producer, y.producer);
    OptionalAddressInjective(x.feeAddress, y.feeAddress);
  }

  lemma MintTxInjective(a: Msg, b: Msg)
    requires a.MintTxMsg? && b.MintTxMsg? && Decodable(a) && Decodable(b)
    requires Flatten(Fields(a)) == Flatten(Fields(b))
    ensures a == b
  {
    hide BE, LE, Flatten;
    var fa, fb := Fields(a), Fields(b);
    FlattenAgree(fa, fb, 2);
    assert fa[1] == fb[1];
    BE4Injective(|a.event.nullifierHex|, |b.event.nullifierHex|);
    FlattenAgree(fa, fb, 10);
    assert fa[2] == fb[2] && fa[3] == fb[3] && fa[4] == fb[4] && fa[5] == fb[5];
    assert fa[6] == fb[6] && fa[7] == fb[7] && fa[9] == fb[9];
    BE8Injective(a.event.amount, b.event.amount);
    BE32Injective(a.event.destination, b.event.destination);
    BE4Injective(a.event.createHeight, b.event.createHeight);
    BE4Injective(a.event.lockBlocks, b.event.lockBlocks);
    BE8Injective(a.event.valueSat, b.event.valueSat);
    WitnessBytesInjective(a.outpoint, a.userKey, a.lockBlocks, a.signature,
                          b.outpoint, b.userKey, b.lockBlocks, b.signature);
  }

  lemma StateInjective(a: Msg, b: Msg)
    requires a.StateMsg? && b.StateMsg?
    requires Flatten(Fields(a)) == Flatten(Fields(b))
    ensures a == b
  {
    hide BE, LE, Flatten;
    var fa, fb := Fields(a), Fields(b);
    FlattenAgree(fa, fb, 4);
    assert fa[0] == fb[0] && fa[1] == fb[1];
    assert fa[3][0] == fb[3][0];
    FlattenAgree(fa, fb, 5);
    assert fa[3..5] == OptionChunks(a.fee, AddressBytes(a.fee));
    assert fb[3..5] == OptionChunks(b.fee, AddressBytes(b.fee));
    BE32Injective(a.accountsRoot, b.accountsRoot);
    BE32Injective(a.nullifiersHash, b.nullifiersHash);
    OptionalAddressInjective(a.fee, b.fee);
  }

  lemma HashListInjective(xs: seq<Digest>, ys: seq<Digest>)
    requires Flatten(HashChunks(xs)) == Flatten(HashChunks(ys))
    ensures xs == ys
  {
    var cx, cy := HashChunks(xs), HashChunks(ys);
    FlattenUniformInjective(cx, cy, 32);
    forall i | 0 <= i < |xs|
      ensures xs[i] == ys[i]
    {
      assert cx[i] == cy[i];
      BE32Injective(xs[i], ys[i]);
    }
  }

  lemma NullifiersInjective(x: set<Bytes>, y: set<Bytes>)
    requires ProperNullifiers(x) && ProperNullifiers(y)
    requires Flatten(InOrder(x)) == Flatten(InOrder(y))
    ensures x == y
  {
    FlattenUniformInjective(InOrder(x), InOrder(y), NULLIFIER_LEN);
    assert forall n :: n in x <==> n in InOrder(x);
    assert forall n :: n in y <==> n in InOrder(y);
  }

  lemma FixedWidthInjective(a: Msg, b: Msg)
    requires a.LeafMsg? || a.BranchMsg? || a.TransferTxMsg? || a.TransferMsg? || a.MintClaimMsg?
    requires Kind(a) == Kind(b) && (a.TransferTxMsg? ==> b.TransferTxMsg?)
    requires Flatten(Fields(a)) == Flatten(Fields(b))
    ensures a == b
  {
    hide BE, LE, Flatten;
    var fa, fb := Fields(a), Fields(b);
    match a
    case LeafMsg(_, _) =>
      FlattenAgree(fa, fb, 3);
      assert fa[0] == fb[0] && fa[1] == fb[1] && fa[2] == fb[2];
      BE32Injective(a.address, b.address);
      BE8Injective(a.account.balance, b.account.balance);
      BE8Injective(a.account.nonce, b.account.nonce);
    case BranchMsg(_, _) =>
      FlattenAgree(fa, fb, 2);
      assert fa[0] == fb[0] && fa[1] == fb[1];
      BE32Injective(a.left, b.left);
      BE32Injective(a.right, b.right);
    case TransferTxMsg(_, _) =>
      FlattenAgree(fa, fb, 3);
      assert fa[1] == fb[1] && fa[2] == fb[2];
      BE32Injective(a.sighash, b.sighash);
    case TransferMsg(_) =>
      FlattenAgree(fa, fb, 4);
      assert fa[0] == fb[0] && fa[1] == fb[1] && fa[2] == fb[2] && fa[3] == fb[3];
      BE32Injective(a.body.sender, b.body.sender);
      BE32Injective(a.body.recipient, b.body.recipient);
      BE8Injective(a.body.amount, b.body.amount);
      BE8Injective(a.body.nonce, b.body.nonce);
    case MintClaimMsg(_, _, _) =>
      FlattenAgree(fa, fb, 4);
      assert fa[0] == fb[0] && fa[1] == fb[1] && fa[2] == fb[2] && fa[3] == fb[3];
      BE32Injective(a.claimOutpoint.txid, b.claimOutpoint.txid);
      Pow256Values();
      LEInjective(a.claimOutpoint.vout, b.claimOutpoint.vout, 4);
      BE4Injective(a.claimedHeight, b.claimedHeight);
      BE32Injective(a.destination, b.destination);
  }

  /** Two decodable messages of any kinds with one encoding are the same message. */
  lemma EncodeInjective(a: Msg, b: Msg)
    requires Decodable(a) && Decodable(b)
    requires Encode(a) == Encode(b)
    ensures a == b
  {
    hide BE, LE, Flatten, InOrder, HashChunks, Tag, WitnessBytes, OptionChunks, AnchorBytes, AddressBytes;
    SameFields(a, b);
    match a
    case EmptyLeafMsg =>
    case NullifiersMsg(ns) => NullifiersInjective(ns, b.nullifiers);
    case StateMsg(_, _, _) => StateInjective(a, b);
    case HeaderMsg(h) => HeaderInjective(h, b.header);
    case TxsMsg(hs) => HashListInjective(hs, b.hashes);
    case MintTxMsg(_, _, _, _, _) =>
      FlattenAgree(Fields(a), Fields(b), 1);
      assert Fields(a)[0][0] == Fields(b)[0][0];
      MintTxInjective(a, b);
    case TransferTxMsg(_, _) =>
      FlattenAgree(Fields(a), Fields(b), 1);
      assert Fields(a)[0][0] == Fields(b)[0][0];
      FixedWidthInjective(a, b);
    case _ => FixedWidthInjective(a, b);
  }

  lemma OneInOrder(x: Bytes)
    ensures InOrder({x}) == [x]
  {
    FirstExists({x});
    assert {x} - {x} == {};
    assert InOrder({}) == [];
  }

  lemma TwoInOrder(x: Bytes, y: Bytes)
    requires x != y && LexLe(x, y) && LexLe(x, x)
    ensures InOrder({x, y}) == [x, y]
  {
    FirstExists({x, y});
    assert IsFirst(x, {x, y});
    assert {x, y} - {x} == {y};
    OneInOrder(y);
  }

  lemma FlattenTwo(x: Bytes, y: Bytes)
    ensures Flatten([x]) == x
    ensures Flatten([x, y]) == x + y
  {
    var one: seq<Bytes> := [x];
    var two: seq<Bytes> := [x, y];
    assert one[1..] == [] && two[1..] == [y] && [y][1..] == [];
    assert Flatten([y]) == y + Flatten([]);
    assert Flatten([]) == [];
  }

  /** Without the 72-character premise the nullifier preimage is ambiguous. */
  lemma NullifierSplitAmbiguous()
    ensures var joined, split := {[97, 98]}, {[97], [98]};
            joined != split && Encode(NullifiersMsg(joined)) == Encode(NullifiersMsg(split))
  {
    var ab: Bytes, a: Bytes, b: Bytes := [97, 98], [97], [98];
    assert a[0] != b[0] && |ab| != |a|;
    assert ab in {ab} && ab !in {a, b};
    assert LexLe(a, b) && LexLe(a, a);
    OneInOrder(ab);
    TwoInOrder(a, b);
    FlattenTwo(ab, ab);
    FlattenTwo(a, b);
    assert a + b == ab;
  }

  lemma EmptyComesFirst(ns: set<Bytes>)
    requires [] !in ns
    ensures InOrder(ns + {[]}) == [[]] + InOrder(ns)
  {
    var padded: set<Bytes> := ns + {[]};
    FirstExists(padded);
    assert IsFirst([], padded);
    assert padded - {[]} == ns;
  }

  /** Nor does the preimage show an empty string among the nullifiers. */
  lemma PaddingInvisible(ns: set<Bytes>)
    requires [] !in ns
    ensures Encode(NullifiersMsg(ns + {[]})) == Encode(NullifiersMsg(ns))
  {
    hide InOrder, BE, Ascii;
    EmptyComesFirst(ns);
    var tail := InOrder(ns);
    var all: seq<Bytes> := [[]] + tail;
    assert all[1..] == tail;
    assert Flatten(all) == [] + Flatten(tail);
    assert Fields(NullifiersMsg(ns + {[]})) == all && Fields(NullifiersMsg(ns)) == tail;
  }

  // ---------- collisions ----------

  /** Two different byte strings with one digest. */
  predicate Collides(a: Msg, b: Msg) {
    Encode(a) != Encode(b) && Hash(a) == Hash(b)
  }

  /** A collision among the given messages. `sent` is always the finite set of messages
      that the computations at hand really hash, never all messages. */
  ghost predicate CollisionIn(sent: set<Msg>) {
    exists a, b {:trigger Collides(a, b)} :: a in sent && b in sent && Collides(a, b)
  }

  lemma Bind(sent: set<Msg>, a: Msg, b: Msg)
    requires !CollisionIn(sent)
    requires a in sent && b in sent && Decodable(a) && Decodable(b)
    requires Hash(a) == Hash(b)
    ensures a == b
  {
    assert !Collides(a, b);
    EncodeInjective(a, b);
  }

  lemma CollisionMonotone(some: set<Msg>, more: set<Msg>)
    requires some <= more
    ensures CollisionIn(some) ==> CollisionIn(more)
  {
  }

  // ---------- transactions ----------

  function TransferSighash(b: TransferBody): Digest { Hash(TransferMsg(b)) }

  function MintSighash(op: OutPoint, claimedHeight: u32, destination: Address): Digest {
    Hash(MintClaimMsg(op, claimedHeight, destination))
  }

  function TxMsg(tx: L2Tx): Msg {
    match tx
    case Mint(e) => MintTxMsg(e.event, e.proof.outpoint, e.proof.userKey, e.proof.lockBlocks, e.proof.signature)
    case Transfer(t) => TransferTxMsg(TransferSighash(t.body), t.signature)
  }

  function TxHash(tx: L2Tx): Digest { Hash(TxMsg(tx)) }

  function TxHashes(txs: seq<L2Tx>): (hs: seq<Digest>)
    ensures |hs| == |txs|
  {
    seq(|txs|, i requires 0 <= i < |txs| => TxHash(txs[i]))
  }

  function TxsRoot(txs: seq<L2Tx>): Digest { Hash(TxsMsg(TxHashes(txs))) }

  function HeaderHash(h: Header): Digest { Hash(HeaderMsg(h)) }

  /** Equality of transactions up to the one field their hash leaves out. */
  predicate SameUpToClaimedHeight(x: L2Tx, y: L2Tx) {
    match x
    case Mint(e) => y.Mint? && x == Mint(e.(proof := y.entry.proof.(claimedHeight := e.proof.claimedHeight)))
                    && e.event == y.entry.event
    case Transfer(_) => x == y
  }

  /** The messages hashed for one transaction. */
  function TxMsgs(tx: L2Tx): set<Msg> {
    {TxMsg(tx)} + if tx.Transfer? then {TransferMsg(tx.transfer.body)} else {}
  }

  function TxListMsgs(txs: seq<L2Tx>): set<Msg> {
    {TxsMsg(TxHashes(txs))} + set tx, m | tx in txs && m in TxMsgs(tx) :: m
  }

  predicate ShortNullifiers(txs: seq<L2Tx>) {
    forall tx :: tx in txs && tx.Mint? ==> |tx.entry.event.nullifierHex| <= U32_MAX
  }

  /** A transaction hash determines the transaction, up to the claimed height of a
      mint and nothing else. */
  lemma TxHashBinds(sent: set<Msg>, x: L2Tx, y: L2Tx)
    requires !CollisionIn(sent) && TxMsgs(x) + TxMsgs(y) <= sent
    requires ShortNullifiers([x]) && ShortNullifiers([y])
    ensures TxHash(x) == TxHash(y) <==> SameUpToClaimedHeight(x, y)
  {
    assert x in [x] && y in [y];
    if TxHash(x) == TxHash(y) {
      Bind(sent, TxMsg(x), TxMsg(y));
      if x.Transfer? {
        assert TransferMsg(x.transfer.body) in TxMsgs(x) && TransferMsg(y.transfer.body) in TxMsgs(y);
        Bind(sent, TransferMsg(x.transfer.body), TransferMsg(y.transfer.body));
      }
    }
  }

  /** Two claims that differ in the claimed height alone are different transactions with one
      hash, although the height decides whether a claim is accepted. */
  lemma ClaimedHeightInvisible(e: MintEntry, height: u32)
    requires height != e.proof.claimedHeight
    ensures var other := Mint(e.(proof := e.proof.(claimedHeight := height)));
            other != Mint(e) && TxHash(other) == TxHash(Mint(e))
  {
    hide Hash;
  }

  predicate SameBodies(xs: seq<L2Tx>, ys: seq<L2Tx>) {
    |xs| == |ys| && forall i :: 0 <= i < |xs| ==> SameUpToClaimedHeight(xs[i], ys[i])
  }

  /** `txs_root` determines the block body in the same sense, and nothing more. */
  lemma TxsRootBinds(sent: set<Msg>, xs: seq<L2Tx>, ys: seq<L2Tx>)
    requires !CollisionIn(sent) && TxListMsgs(xs) + TxListMsgs(ys) <= sent
    requires ShortNullifiers(xs) && ShortNullifiers(ys)
    ensures TxsRoot(xs) == TxsRoot(ys) <==> SameBodies(xs, ys)
  {
    if TxsRoot(xs) == TxsRoot(ys) {
      TxsRootDetermines(sent, xs, ys);
    }
    if SameBodies(xs, ys) {
      forall i | 0 <= i < |xs|
        ensures TxHashes(xs)[i] == TxHashes(ys)[i]
      {
        assert SameUpToClaimedHeight(xs[i], ys[i]);
      }
      assert TxHashes(xs) == TxHashes(ys);
    }
  }

  lemma TxsRootDetermines(sent: set<Msg>, xs: seq<L2Tx>, ys: seq<L2Tx>)
    requires !CollisionIn(sent) && TxListMsgs(xs) + TxListMsgs(ys) <= sent
    requires ShortNullifiers(xs) && ShortNullifiers(ys)
    requires TxsRoot(xs) == TxsRoot(ys)
    ensures SameBodies(xs, ys)
  {
    var mx, my := TxsMsg(TxHashes(xs)), TxsMsg(TxHashes(ys));
    assert mx in TxListMsgs(xs) && my in TxListMsgs(ys);
    Bind(sent, mx, my);
    forall i | 0 <= i < |xs|
      ensures SameUpToClaimedHeight(xs[i], ys[i])
    {
      assert TxHashes(xs)[i] == TxHashes(ys)[i];
      assert forall m :: m in TxMsgs(xs[i]) ==> m in TxListMsgs(xs);
      assert forall m :: m in TxMsgs(ys[i]) ==> m in TxListMsgs(ys);
      TxHashBinds(sent, xs[i], ys[i]);
    }
  }

  /** The block hash determines the whole header. */
  lemma HeaderHashBinds(sent: set<Msg>, x: Header, y: Header)
    requires !CollisionIn(sent) && {HeaderMsg(x), HeaderMsg(y)} <= sent
    requires HeaderHash(x) == HeaderHash(y)
    ensures x == y
  {
    Bind(sent, HeaderMsg(x), HeaderMsg(y));
  }

  /** What a claimant signs: the digest determines outpoint, height and destination. */
  lemma MintSighashBinds(sent: set<Msg>, op: OutPoint, h: u32, d: Address, op': OutPoint, h': u32, d': Address)
    requires !CollisionIn(sent) && {MintClaimMsg(op, h, d), MintClaimMsg(op', h', d')} <= sent
    ensures MintSighash(op, h, d) == MintSighash(op', h', d') <==> op == op' && h == h' && d == d'
  {
    if MintSighash(op, h, d) == MintSighash(op', h', d') {
      Bind(sent, MintClaimMsg(op, h, d), MintClaimMsg(op', h', d'));
    }
  }

  /** What a sender signs: the digest determines the whole transfer body. */
  lemma TransferSighashBinds(sent: set<Msg>, x: TransferBody, y: TransferBody)
    requires !CollisionIn(sent) && {TransferMsg(x), TransferMsg(y)} <= sent
    ensures TransferSighash(x) == TransferSighash(y) <==> x == y
  {
    if TransferSighash(x) == TransferSighash(y) {
      Bind(sent, TransferMsg(x), TransferMsg(y));
    }
  }

  // ---------- the hashers, step by step ----------

  /** What the body hasher still has to read once it stands before `hashes`. */
  ghost function Unread(hashes: seq<Digest>): Bytes {
    Flatten(HashChunks(hashes))
  }

  lemma UnreadStep(buffer: Bytes, hashes: seq<Digest>, i: nat)
    requires i < |hashes|
    ensures buffer + Unread(hashes[i..]) == buffer + BE(hashes[i], 32) + Unread(hashes[i + 1..])
  {
    var rest := hashes[i..];
    assert rest[1..] == hashes[i + 1..];
    assert HashChunks(rest)[1..] == HashChunks(rest[1..]);
    assert HashChunks(rest)[0] == BE(hashes[i], 32);
  }

  /** Feeds one digest after another, as the block-body hasher does. */
  method ComputeTxsRoot(txs: seq<L2Tx>) returns (root: Digest)
    ensures root == TxsRoot(txs)
  {
    var tag := Ascii("hodl-txs-v2");
    var buffer := tag;
    ghost var hashes := TxHashes(txs);
    assert hashes[0..] == hashes;
    for i := 0 to |txs|
      invariant buffer + Unread(hashes[i..]) == tag + Unread(hashes)
    {
      UnreadStep(buffer, hashes, i);
      buffer := buffer + BE(TxHash(txs[i]), 32);
    }
    assert buffer == tag + Unread(hashes) by {
      assert hashes[|txs|..] == [];
    }
    root := Sha256(buffer);
    HashIsSha256(TxsMsg(hashes));
  }
}
