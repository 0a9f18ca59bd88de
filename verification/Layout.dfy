/** The byte layouts of everything that is hashed, written out field by field. Together with
    `BEReadsBack`, `LEReadsBack` and `HexReadsBack` they say what stands where. */
module Layout {
  import opened Primitives
  import opened Types
  import opened Messages

  lemma {:induction false} FlattenSnoc(xs: seq<Bytes>, x: Bytes)
    ensures Flatten(xs + [x]) == Flatten(xs) + x
  {
    if xs == [] {
      assert xs + [x] == [x];
      assert [x][1..] == [];
    } else {
      FlattenSnoc(xs[1..], x);
      assert (xs + [x])[1..] == xs[1..] + [x];
    }
  }

  lemma FlattenPairs(a: Bytes, b: Bytes, c: Bytes, d: Bytes)
    ensures Flatten([]) == [] && Flatten([a]) == a && Flatten([a, b]) == a + b
    ensures Flatten([a, b, c]) == a + b + c && Flatten([a, b, c, d]) == a + b + c + d
  {
    FlattenSnoc([], a);
    assert [] + [a] == [a];
    FlattenSnoc([a], b);
    assert [a] + [b] == [a, b];
    FlattenSnoc([a, b], c);
    assert [a, b] + [c] == [a, b, c];
    FlattenSnoc([a, b, c], d);
    assert [a, b, c] + [d] == [a, b, c, d];
  }

  lemma FlattenHead(xs: seq<Bytes>)
    ensures xs != [] ==> Flatten(xs) == xs[0] + Flatten(xs[1..])
    ensures xs == [] ==> Flatten(xs) == []
  {
  }

  lemma Grouped(a: Bytes, b: Bytes, c: Bytes)
    ensures a + (b + c) == a + b + c && [] + a == a
  {
  }

  lemma {:induction false} FlattenConcat(xs: seq<Bytes>, ys: seq<Bytes>)
    ensures Flatten(xs + ys) == Flatten(xs) + Flatten(ys)
  {
    hide Flatten;
    FlattenHead(xs);
    if xs == [] {
      assert xs + ys == ys;
      Grouped(Flatten(ys), [], []);
    } else {
      assert (xs + ys)[0] == xs[0] && (xs + ys)[1..] == xs[1..] + ys;
      FlattenHead(xs + ys);
      FlattenConcat(xs[1..], ys);
      Grouped(xs[0], Flatten(xs[1..]), Flatten(ys));
    }
  }

  function OptionalAddress(o: Option<Address>): Bytes {
    match o case None => [0] case Some(a) => [1] + BE(a, 32)
  }

  function OptionalOutPoint(o: Option<OutPoint>): Bytes {
    match o case None => [0] case Some(op) => [1] + BE(op.txid, 32) + BE(op.vout, 4)
  }

  lemma AddressFlagged(o: Option<Address>)
    ensures Flatten(OptionChunks(o, AddressBytes(o))) == OptionalAddress(o)
  {
    hide BE, Flatten;
    match o
    case None => FlattenPairs([0], [], [], []);
    case Some(a) => FlattenPairs([1], BE(a, 32), [], []);
  }

  lemma OutPointFlagged(o: Option<OutPoint>)
    ensures Flatten(OptionChunks(o, AnchorBytes(o))) == OptionalOutPoint(o)
  {
    hide BE, Flatten;
    match o
    case None => FlattenPairs([0], [], [], []);
    case Some(op) =>
      FlattenPairs([1], BE(op.txid, 32) + BE(op.vout, 4), [], []);
      assert [1] + (BE(op.txid, 32) + BE(op.vout, 4)) == [1] + BE(op.txid, 32) + BE(op.vout, 4);
  }

  lemma LeafLayout(a: Address, acct: Account)
    ensures Encode(LeafMsg(a, acct))
         == Ascii("hodl-smt-leaf-v0") + (BE(a, 32) + BE(acct.balance, 8) + BE(acct.nonce, 8))
    ensures Encode(EmptyLeafMsg) == Ascii("hodl-smt-empty-leaf-v0")
  {
    hide BE, Flatten, Ascii;
    FlattenPairs(BE(a, 32), BE(acct.balance, 8), BE(acct.nonce, 8), []);
    assert Ascii("hodl-smt-empty-leaf-v0") + [] == Ascii("hodl-smt-empty-leaf-v0");
  }

  lemma BranchLayout(left: Digest, right: Digest)
    ensures Encode(BranchMsg(left, right)) == Ascii("hodl-smt-branch-v0") + (BE(left, 32) + BE(right, 32))
  {
    hide BE, Flatten, Ascii;
    FlattenPairs(BE(left, 32), BE(right, 32), [], []);
  }

  lemma StateLayout(accountsRoot: Digest, nullifiersHash: Digest, fee: Option<Address>)
    ensures Encode(StateMsg(accountsRoot, nullifiersHash, fee))
         == Ascii("hodl-state-v4")
            + (BE(accountsRoot, 32) + BE(nullifiersHash, 32) + Ascii("|fee|") + OptionalAddress(fee))
  {
    hide BE, Flatten, Ascii, OptionalAddress, AddressBytes, OptionChunks;
    var front := [BE(accountsRoot, 32), BE(nullifiersHash, 32), Ascii("|fee|")];
    FlattenPairs(front[0], front[1], front[2], []);
    FlattenConcat(front, OptionChunks(fee, AddressBytes(fee)));
    AddressFlagged(fee);
  }

  lemma HeaderLayout(h: Header)
    ensures Encode(HeaderMsg(h))
         == Ascii("hodl-block-v3")
            + (BE(h.height, 4) + BE(h.prevHash, 32) + BE(h.l1BlockHash, 32) + BE(h.l1Height, 4)
               + (BE(h.txsRoot, 32) + BE(h.stateRoot, 32) + BE(h.timestamp, 8))
               + OptionalOutPoint(h.anchor) + OptionalAddress(h.producer) + OptionalAddress(h.feeAddress))
  {
    hide BE, Flatten, Ascii, OptionalAddress, OptionalOutPoint, AddressBytes, AnchorBytes, OptionChunks;
    var early := [BE(h.height, 4), BE(h.prevHash, 32), BE(h.l1BlockHash, 32), BE(h.l1Height, 4)];
    var late := [BE(h.txsRoot, 32), BE(h.stateRoot, 32), BE(h.timestamp, 8)];
    var anchor, producer, fee := OptionChunks(h.anchor, AnchorBytes(h.anchor)),
      OptionChunks(h.producer, AddressBytes(h.producer)), OptionChunks(h.feeAddress, AddressBytes(h.feeAddress));
    FlattenPairs(early[0], early[1], early[2], early[3]);
    FlattenPairs(late[0], late[1], late[2], []);
    FlattenConcat(early, late);
    FlattenConcat(early + late, anchor);
    FlattenConcat(early + late + anchor, producer);
    FlattenConcat(early + late + anchor + producer, fee);
    OutPointFlagged(h.anchor);
    AddressFlagged(h.producer);
    AddressFlagged(h.feeAddress);
    assert Fields(HeaderMsg(h)) == early + late + anchor + producer + fee;
  }

  lemma TransferLayout(b: TransferBody)
    ensures Encode(TransferMsg(b))
         == Ascii("hodl-transfer-v2") + (BE(b.sender, 32) + BE(b.recipient, 32) + BE(b.amount, 8) + BE(b.nonce, 8))
  {
    hide BE, Flatten, Ascii;
    FlattenPairs(BE(b.sender, 32), BE(b.recipient, 32), BE(b.amount, 8), BE(b.nonce, 8));
  }

  /** The index of the claimed outpoint is the one number written least significant byte first. */
  lemma MintClaimLayout(op: OutPoint, height: u32, destination: Address)
    ensures Encode(MintClaimMsg(op, height, destination))
         == Ascii("hodl-mint-v1") + (BE(op.txid, 32) + LE(op.vout, 4) + BE(height, 4) + BE(destination, 32))
  {
    hide BE, LE, Flatten, Ascii;
    FlattenPairs(BE(op.txid, 32), LE(op.vout, 4), BE(height, 4), BE(destination, 32));
  }

  lemma TransferTxLayout(sighash: Digest, signature: Signature)
    ensures Encode(TransferTxMsg(sighash, signature)) == Ascii("hodl-tx-v2") + ([2] + BE(sighash, 32) + signature)
  {
    hide BE, Flatten, Ascii;
    FlattenPairs([2], BE(sighash, 32), signature, []);
  }

  lemma MintTxLayout(ev: MintEvent, op: OutPoint, key: Address, lock: u32, signature: Signature)
    ensures var w := [1] + BE(op.txid, 32) + BE(op.vout, 4) + BE(key, 32) + BE(lock, 4) + signature;
            && |w| == 137
            && Encode(MintTxMsg(ev, op, key, lock, signature))
               == Ascii("hodl-tx-v2")
                  + ([1] + BE(|ev.nullifierHex|, 4) + ev.nullifierHex + BE(ev.amount, 8)
                     + (BE(ev.destination, 32) + BE(ev.createHeight, 4) + BE(ev.lockBlocks, 4) + BE(ev.valueSat, 8))
                     + (BE(137, 4) + w))
  {
    hide BE, Flatten, Ascii;
    var w := WitnessBytes(op, key, lock, signature);
    var head := [[1], BE(|ev.nullifierHex|, 4), ev.nullifierHex, BE(ev.amount, 8)];
    var middle := [BE(ev.destination, 32), BE(ev.createHeight, 4), BE(ev.lockBlocks, 4), BE(ev.valueSat, 8)];
    FlattenPairs(head[0], head[1], head[2], head[3]);
    FlattenPairs(middle[0], middle[1], middle[2], middle[3]);
    FlattenPairs(BE(137, 4), w, [], []);
    FlattenConcat(head, middle);
    FlattenConcat(head + middle, [BE(137, 4), w]);
    assert Fields(MintTxMsg(ev, op, key, lock, signature)) == head + middle + [BE(137, 4), w];
  }

  /** The two lists are the plain concatenations of their items. */
  lemma ListLayouts(nullifiers: set<Bytes>, hashes: seq<Digest>)
    ensures Encode(NullifiersMsg(nullifiers)) == Ascii("hodl-nullifiers-v0") + Flatten(InOrder(nullifiers))
    ensures Encode(TxsMsg(hashes)) == Ascii("hodl-txs-v2") + Flatten(HashChunks(hashes))
  {
    hide BE, Flatten, Ascii, InOrder, HashChunks;
  }

  lemma ChunkLayout(hashes: seq<Digest>, i: nat)
    requires i < |hashes|
    ensures |HashChunks(hashes)| == |hashes| && HashChunks(hashes)[i] == BE(hashes[i], 32)
  {
    hide BE;
  }

  /** Text stands for its character codes. */
  lemma AsciiMeans(s: string, i: nat)
    requires i < |s| && s[i] as int < 256
    ensures Ascii(s)[i] == s[i] as int
  {
  }
}
