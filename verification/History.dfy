/** The wallet's transaction history: projecting observed events onto it, and finalising. */
module History {
  import opened Primitives
  import opened Walk

  const REORG_FINALITY_DEPTH: u32 := 2

  datatype TxKind = L1Deposit | L1Reclaim | L2MintApply | L2TransferSent | L2TransferReceived

  datatype TxStatus =
    | Soft(sinceTs: u64)
    | L1Mempool(broadcastTs: u64)
    | InBlock(l2Height: u32, l1Height: u32, includedTs: u64)
    | Finalized(finalL2Height: u32, finalL1Height: u32)
    | Failed(reason: Bytes, failedTs: u64)

  datatype TxRecord = TxRecord(
    id: Bytes,
    kind: TxKind,
    createdTs: u64,
    amount: u64,
    feeAtoms: Option<u64>,
    feeSat: Option<u64>,
    counterparty: Option<Bytes>,
    status: TxStatus,
    l1Txid: Option<Bytes>,
    l2Key: Option<Bytes>,
    bip32Index: Option<u32>,
    note: Option<Bytes>)

  /** What the environment supplies for one event: a random id and the clock. */
  datatype Noise = Noise(id: Bytes, now: u64)

  datatype Key = Key(kind: TxKind, text: Bytes)

  function KeyOf(ev: TxEvent): Key {
    match ev.kind
    case TransferIn(_, _, d) => Key(L2TransferReceived, Hex(BE(d, 32)))
    case TransferOut(_, _, d) => Key(L2TransferSent, Hex(BE(d, 32)))
    case MintIn(_, n) => Key(L2MintApply, n)
  }

  predicate HasKey(r: TxRecord, k: Key) { r.kind == k.kind && r.l2Key == Some(k.text) }

  /** Index of the first record with a key. */
  function Find(records: seq<TxRecord>, k: Key): (r: Option<nat>)
    ensures r.Some? ==> r.value < |records| && HasKey(records[r.value], k)
    ensures r.Some? ==> forall i :: 0 <= i < r.value ==> !HasKey(records[i], k)
    ensures r.None? ==> forall i :: 0 <= i < |records| ==> !HasKey(records[i], k)
  {
    FindFrom(records, k, 0)
  }

  function FindFrom(records: seq<TxRecord>, k: Key, i: nat): (r: Option<nat>)
    requires i <= |records|
    ensures r.Some? ==> i <= r.value < |records| && HasKey(records[r.value], k)
    ensures r.Some? ==> forall j :: i <= j < r.value ==> !HasKey(records[j], k)
    ensures r.None? ==> forall j :: i <= j < |records| ==> !HasKey(records[j], k)
    decreases |records| - i
  {
    if i == |records| then None
    else if HasKey(records[i], k) then Some(i)
    else FindFrom(records, k, i + 1)
  }

  function IncludedTs(ev: TxEvent, noise: Noise): u64 {
    if ev.blockTs != 0 then ev.blockTs else noise.now
  }

  function StatusFor(ev: TxEvent, noise: Noise): TxStatus {
    InBlock(ev.l2Height, ev.l1Height, IncludedTs(ev, noise))
  }

  function NewRecord(ev: TxEvent, noise: Noise): (r: TxRecord)
    ensures HasKey(r, KeyOf(ev)) && r.status == StatusFor(ev, noise)
  {
    var (amount, party) :=
      match ev.kind
      case TransferIn(from, n, _) => (n, Some(Hex(BE(from, 32))))
      case TransferOut(dest, n, _) => (n, Some(Hex(BE(dest, 32))))
      case MintIn(n, _) => (n, None);
    TxRecord(noise.id, KeyOf(ev).kind, IncludedTs(ev, noise), amount, None, None, party, StatusFor(ev, noise), None,
             Some(KeyOf(ev).text), None, None)
  }

  /** An event meeting its record: a received transfer is left alone, the others move
      anything that is not final into the block. */
  function Touch(r: TxRecord, ev: TxEvent, noise: Noise): TxRecord {
    if ev.kind.TransferIn? || r.status.Finalized? then r else r.(status := StatusFor(ev, noise))
  }

  function ProjectOne(records: seq<TxRecord>, ev: TxEvent, noise: Noise): seq<TxRecord> {
    match Find(records, KeyOf(ev))
    case None => records + [NewRecord(ev, noise)]
    case Some(i) => records[i := Touch(records[i], ev, noise)]
  }

  function Project(records: seq<TxRecord>, events: seq<TxEvent>, noise: seq<Noise>): seq<TxRecord>
    requires |noise| == |events|
    decreases |events|
  {
    if events == [] then records
    else
      var n := |events| - 1;
      ProjectOne(Project(records, events[..n], noise[..n]), events[n], noise[n])
  }

  class WalletHistory {
    var transactions: seq<TxRecord>

    constructor (records: seq<TxRecord>)
      ensures transactions == records
    {
      transactions := records;
    }

    method ProjectEvents(events: seq<TxEvent>, noise: seq<Noise>)
      requires |noise| == |events|
      modifies this
      ensures transactions == Project(old(transactions), events, noise)
    {
      hide NewRecord, KeyOf, Find;
      for i := 0 to |events|
        invariant transactions == Project(old(transactions), events[..i], noise[..i])
      {
        assert events[..i + 1][..i] == events[..i] && noise[..i + 1][..i] == noise[..i];
        var found := Find(transactions, KeyOf(events[i]));
        if found.Some? {
          var rec := transactions[found.value];
          if !events[i].kind.TransferIn? && !rec.status.Finalized? {
            transactions := transactions[found.value := rec.(status := StatusFor(events[i], noise[i]))];
          } else {
            assert transactions == transactions[found.value := rec];
          }
        } else {
          transactions := transactions + [NewRecord(events[i], noise[i])];
        }
      }
      assert events[..|events|] == events && noise[..|events|] == noise;
    }

    /** Second pass of the refresh: included records deep enough become final. */
    method FinalizeDeep(l1Tip: u32) returns (changed: bool)
      modifies this
      ensures transactions == Finalize(old(transactions), l1Tip)
      ensures changed <==> transactions != old(transactions)
    {
      changed := false;
      var before := transactions;
      for i := 0 to |before|
        invariant |transactions| == |before|
        invariant forall j :: 0 <= j < i ==> transactions[j] == FinalizeOne(before[j], l1Tip)
        invariant forall j :: i <= j < |before| ==> transactions[j] == before[j]
        invariant changed <==> exists j :: 0 <= j < i && transactions[j] != before[j]
      {
        var t := transactions[i];
        if t.status.InBlock? && SaturatingSub(l1Tip, t.status.l1Height) >= REORG_FINALITY_DEPTH {
          transactions := transactions[i := t.(status := Finalized(t.status.l2Height, t.status.l1Height))];
          changed := true;
          assert transactions[i] != before[i];
        }
      }
    }
  }

  function FinalizeOne(r: TxRecord, l1Tip: u32): TxRecord {
    if r.status.InBlock? && SaturatingSub(l1Tip, r.status.l1Height) >= REORG_FINALITY_DEPTH
    then r.(status := Finalized(r.status.l2Height, r.status.l1Height))
    else r
  }

  function Finalize(records: seq<TxRecord>, l1Tip: u32): (r: seq<TxRecord>)
    ensures |r| == |records|
    ensures forall i :: 0 <= i < |r| ==> r[i] == FinalizeOne(records[i], l1Tip)
  {
    seq(|records|, i requires 0 <= i < |records| => FinalizeOne(records[i], l1Tip))
  }

  /** The finalisation pass: an included record two or more blocks below the tip
      becomes final at the heights it was included at, no other record changes, and a
      second pass at the same tip finds nothing left to do. */
  lemma FinalizeMeans(records: seq<TxRecord>, l1Tip: u32, i: nat)
    requires i < |records|
    ensures var r, after := records[i], Finalize(records, l1Tip)[i];
            && (after.status.Finalized? <==>
                 (r.status.Finalized? || (r.status.InBlock? && r.status.l1Height + 2 <= l1Tip)))
            && (after != r ==> after == r.(status := Finalized(r.status.l2Height, r.status.l1Height)))
    ensures Finalize(Finalize(records, l1Tip), l1Tip) == Finalize(records, l1Tip)
  {
    var once := Finalize(records, l1Tip);
    var twice := Finalize(once, l1Tip);
    assert forall j :: 0 <= j < |once| ==> twice[j] == once[j];
  }

  /** The record is the one an event is about: received and sent transfers by the identity of
      the transfer, mints by their nullifier. */
  predicate About(r: TxRecord, ev: TxEvent) {
    match ev.kind
    case TransferIn(_, _, id) => r.kind == L2TransferReceived && r.l2Key == Some(Hex(BE(id, 32)))
    case TransferOut(_, _, id) => r.kind == L2TransferSent && r.l2Key == Some(Hex(BE(id, 32)))
    case MintIn(_, nullifier) => r.kind == L2MintApply && r.l2Key == Some(nullifier)
  }

  /** What a record made from an event says. */
  predicate Records(r: TxRecord, ev: TxEvent, noise: Noise) {
    var at := if ev.blockTs != 0 then ev.blockTs else noise.now;
    && About(r, ev) && r.id == noise.id && r.createdTs == at
    && r.status == InBlock(ev.l2Height, ev.l1Height, at)
    && r.feeAtoms == None && r.feeSat == None && r.l1Txid == None && r.bip32Index == None && r.note == None
    && match ev.kind
       case TransferIn(sender, amount, _) => r.amount == amount && r.counterparty == Some(Hex(BE(sender, 32)))
       case TransferOut(recipient, amount, _) => r.amount == amount && r.counterparty == Some(Hex(BE(recipient, 32)))
       case MintIn(amount, _) => r.amount == amount && r.counterparty == None
  }

  /** One event: without a record about it, a new one is added that says what it tells; with
      one, the first such record moves into the block unless it is a receipt or final. Nothing
      else changes. */
  lemma ProjectOneMeans(records: seq<TxRecord>, ev: TxEvent, noise: Noise)
    ensures var after := ProjectOne(records, ev, noise);
            && ((forall i :: 0 <= i < |records| ==> !About(records[i], ev)) ==>
                 |after| == |records| + 1 && after[..|records|] == records && Records(after[|records|], ev, noise))
            && (forall i :: 0 <= i < |records| && About(records[i], ev)
                            && (forall k :: 0 <= k < i ==> !About(records[k], ev)) ==>
                 var at := if ev.blockTs != 0 then ev.blockTs else noise.now;
                 var status := if ev.kind.TransferIn? || records[i].status.Finalized? then records[i].status
                               else InBlock(ev.l2Height, ev.l1Height, at);
                 after == records[i := records[i].(status := status)])
  {
    hide FindFrom, Hex, BE;
    assert forall i :: 0 <= i < |records| ==> (About(records[i], ev) <==> HasKey(records[i], KeyOf(ev)));
  }

  // ---------- statuses only move forward ----------

  /** A final record never changes; an included one stays included or becomes final; and
      nothing but the status changes. */
  predicate Forward(before: TxRecord, after: TxRecord) {
    && after == before.(status := after.status)
    && (before.status.Finalized? ==> after == before)
    && (before.status.InBlock? ==> after.status.InBlock? || after.status.Finalized?)
  }

  ghost predicate Grown(before: seq<TxRecord>, after: seq<TxRecord>) {
    && |before| <= |after|
    && forall i :: 0 <= i < |before| ==> Forward(before[i], after[i])
  }

  lemma ProjectOneGrows(records: seq<TxRecord>, ev: TxEvent, noise: Noise)
    ensures Grown(records, ProjectOne(records, ev, noise))
  {
    hide Find, NewRecord, KeyOf;
  }

  lemma GrownTransitive(a: seq<TxRecord>, b: seq<TxRecord>, c: seq<TxRecord>)
    requires Grown(a, b) && Grown(b, c)
    ensures Grown(a, c)
  {
    forall i | 0 <= i < |a|
      ensures Forward(a[i], c[i])
    {
      assert Forward(a[i], b[i]) && Forward(b[i], c[i]);
    }
  }

  lemma {:induction false} ProjectGrows(records: seq<TxRecord>, events: seq<TxEvent>, noise: seq<Noise>)
    requires |noise| == |events|
    ensures Grown(records, Project(records, events, noise))
    decreases |events|
  {
    hide ProjectOne, Forward;
    if events == [] {
      assert forall r :: Forward(r, r) by { ForwardReflexive(); }
    } else {
      var n := |events| - 1;
      ProjectGrows(records, events[..n], noise[..n]);
      ProjectOneGrows(Project(records, events[..n], noise[..n]), events[n], noise[n]);
      GrownTransitive(records, Project(records, events[..n], noise[..n]), Project(records, events, noise));
    }
  }

  lemma ForwardReflexive()
    ensures forall r :: Forward(r, r)
  {
  }

  /** A refresh of the history, projecting and then finalising, only moves records forward. */
  lemma RefreshMovesForward(records: seq<TxRecord>, events: seq<TxEvent>, noise: seq<Noise>, l1Tip: u32)
    requires |noise| == |events|
    ensures Grown(records, Finalize(Project(records, events, noise), l1Tip))
    ensures |Finalize(Project(records, events, noise), l1Tip)| <= |records| + |events|
  {
    hide Project;
    ProjectGrows(records, events, noise);
    ProjectLength(records, events, noise);
    GrownTransitive(records, Project(records, events, noise), Finalize(Project(records, events, noise), l1Tip));
  }

  lemma {:induction false} ProjectLength(records: seq<TxRecord>, events: seq<TxEvent>, noise: seq<Noise>)
    requires |noise| == |events|
    ensures |Project(records, events, noise)| <= |records| + |events|
    decreases |events|
  {
    hide Find, NewRecord, KeyOf;
    if events != [] {
      ProjectLength(records, events[..|events| - 1], noise[..|events| - 1]);
    }
  }

  // ---------- one record per key ----------

  function CountKey(records: seq<TxRecord>, k: Key): nat
    decreases |records|
  {
    if records == [] then 0
    else CountKey(records[..|records| - 1], k) + if HasKey(records[|records| - 1], k) then 1 else 0
  }

  predicate Observed(events: seq<TxEvent>, k: Key) {
    exists i :: 0 <= i < |events| && KeyOf(events[i]) == k
  }

  lemma {:induction false} CountZero(records: seq<TxRecord>, k: Key)
    ensures CountKey(records, k) == 0 <==> forall i :: 0 <= i < |records| ==> !HasKey(records[i], k)
    ensures CountKey(records, k) == 0 <==> Find(records, k).None?
    decreases |records|
  {
    hide HasKey, FindFrom;
    if records != [] {
      var n := |records| - 1;
      CountZero(records[..n], k);
      assert forall i :: 0 <= i < n ==> records[..n][i] == records[i];
    }
  }

  lemma {:induction false} CountUpdate(records: seq<TxRecord>, i: nat, r: TxRecord, k: Key)
    requires i < |records| && r.kind == records[i].kind && r.l2Key == records[i].l2Key
    ensures CountKey(records[i := r], k) == CountKey(records, k)
    decreases |records|
  {
    var n := |records| - 1;
    if i < n {
      assert records[i := r][..n] == records[..n][i := r];
      CountUpdate(records[..n], i, r, k);
    } else {
      assert records[i := r][..n] == records[..n];
    }
  }

  lemma CountAppend(records: seq<TxRecord>, r: TxRecord, k: Key)
    ensures CountKey(records + [r], k) == CountKey(records, k) + if HasKey(r, k) then 1 else 0
  {
    assert (records + [r])[..|records|] == records;
  }

  lemma ProjectOneCount(records: seq<TxRecord>, ev: TxEvent, noise: Noise, k: Key)
    ensures CountKey(ProjectOne(records, ev, noise), k)
         == if KeyOf(ev) == k && CountKey(records, k) == 0 then 1 else CountKey(records, k)
  {
    hide FindFrom, CountKey, NewRecord, KeyOf, Find;
    CountZero(records, KeyOf(ev));
    match Find(records, KeyOf(ev))
    case None => CountAppend(records, NewRecord(ev, noise), k);
    case Some(i) => CountUpdate(records, i, Touch(records[i], ev, noise), k);
  }

  /** Projection adds one record for each observed key that had none, and no other. */
  lemma {:induction false} ProjectCounts(records: seq<TxRecord>, events: seq<TxEvent>, noise: seq<Noise>, k: Key)
    requires |noise| == |events|
    ensures CountKey(Project(records, events, noise), k)
         == if CountKey(records, k) == 0 && Observed(events, k) then 1 else CountKey(records, k)
    decreases |events|
  {
    hide CountKey, ProjectOne, KeyOf;
    if events != [] {
      var n := |events| - 1;
      ProjectCounts(records, events[..n], noise[..n], k);
      ProjectOneCount(Project(records, events[..n], noise[..n]), events[n], noise[n], k);
      ObservedNext(events, k);
    }
  }

  lemma ObservedNext(events: seq<TxEvent>, k: Key)
    requires events != []
    ensures Observed(events, k) <==> Observed(events[..|events| - 1], k) || KeyOf(events[|events| - 1]) == k
  {
    hide KeyOf;
    var n := |events| - 1;
    if i :| 0 <= i < |events| && KeyOf(events[i]) == k {
      assert i < n ==> events[..n][i] == events[i];
    }
    if i :| 0 <= i < n && KeyOf(events[..n][i]) == k {
      assert events[i] == events[..n][i];
    }
  }

  // ---------- idempotence ----------

  predicate SameKeys(before: seq<TxRecord>, after: seq<TxRecord>) {
    && |before| <= |after|
    && forall i :: 0 <= i < |before| ==> before[i].kind == after[i].kind && before[i].l2Key == after[i].l2Key
  }

  /** A record found once is found at the same place for good. */
  lemma FindStable(before: seq<TxRecord>, after: seq<TxRecord>, k: Key)
    requires SameKeys(before, after) && Find(before, k).Some?
    ensures Find(after, k) == Find(before, k)
  {
    hide FindFrom;
    var i := Find(before, k).value;
    assert HasKey(after[i], k);
    assert forall j :: 0 <= j < i ==> HasKey(after[j], k) == HasKey(before[j], k);
  }

  lemma ProjectOneKeys(records: seq<TxRecord>, ev: TxEvent, noise: Noise)
    ensures SameKeys(records, ProjectOne(records, ev, noise))
    ensures Find(ProjectOne(records, ev, noise), KeyOf(ev)).Some?
  {
    hide FindFrom, NewRecord, KeyOf;
    var after := ProjectOne(records, ev, noise);
    match Find(records, KeyOf(ev))
    case None => assert HasKey(after[|records|], KeyOf(ev));
    case Some(i) => assert HasKey(after[i], KeyOf(ev));
  }

  /** Later in the list some event bears the same key. */
  predicate Repeated(events: seq<TxEvent>, i: nat)
    requires i < |events|
  {
    exists j :: i < j < |events| && KeyOf(events[j]) == KeyOf(events[i])
  }

  /** Event `i` has its record, and if it is the last of its key the record is as that
      event leaves it. */
  ghost predicate Settled(records: seq<TxRecord>, events: seq<TxEvent>, noise: seq<Noise>, i: nat)
    requires |noise| == |events| && i < |events|
  {
    var at := Find(records, KeyOf(events[i]));
    && at.Some?
    && (!Repeated(events, i) ==> Touch(records[at.value], events[i], noise[i]) == records[at.value])
  }

  lemma SettledNow(records: seq<TxRecord>, ev: TxEvent, noise: Noise)
    ensures var after := ProjectOne(records, ev, noise);
            var at := Find(after, KeyOf(ev));
            at.Some? && Touch(after[at.value], ev, noise) == after[at.value]
  {
    hide FindFrom, KeyOf;
    ProjectOneKeys(records, ev, noise);
    var after := ProjectOne(records, ev, noise);
    match Find(records, KeyOf(ev))
    case None =>
      assert forall j :: 0 <= j < |records| ==> after[j] == records[j];
    case Some(i) => FindStable(records, after, KeyOf(ev));
  }

  lemma SettledStays(records: seq<TxRecord>, events: seq<TxEvent>, noise: seq<Noise>, i: nat)
    requires |noise| == |events| && i + 1 < |events|
    requires Settled(records, events[..|events| - 1], noise[..|events| - 1], i)
    ensures Settled(ProjectOne(records, events[|events| - 1], noise[|events| - 1]), events, noise, i)
  {
    hide FindFrom, KeyOf, NewRecord, Touch;
    var n := |events| - 1;
    var after := ProjectOne(records, events[n], noise[n]);
    ProjectOneKeys(records, events[n], noise[n]);
    assert events[..n][i] == events[i] && noise[..n][i] == noise[i];
    FindStable(records, after, KeyOf(events[i]));
    if !Repeated(events, i) {
      assert KeyOf(events[n]) != KeyOf(events[i]);
      forall j | i < j < n
        ensures KeyOf(events[..n][j]) != KeyOf(events[i])
      {
        assert events[..n][j] == events[j];
      }
      var at := Find(records, KeyOf(events[i])).value;
      KeysApart(records, at, KeyOf(events[i]), KeyOf(events[n]));
      assert after[at] == records[at];
    }
  }

  lemma KeysApart(records: seq<TxRecord>, at: nat, k: Key, l: Key)
    requires at < |records| && HasKey(records[at], k) && k != l
    ensures Find(records, l) != Some(at)
  {
    hide FindFrom;
  }

  lemma {:induction false} ProjectSettles(records: seq<TxRecord>, events: seq<TxEvent>, noise: seq<Noise>, i: nat)
    requires |noise| == |events| && i < |events|
    ensures Settled(Project(records, events, noise), events, noise, i)
    decreases |events|
  {
    hide ProjectOne, Settled, KeyOf, Touch;
    var n := |events| - 1;
    var before := Project(records, events[..n], noise[..n]);
    if i < n {
      ProjectSettles(records, events[..n], noise[..n], i);
      SettledStays(before, events, noise, i);
    } else {
      SettledNow(before, events[n], noise[n]);
      LastSettled(ProjectOne(before, events[n], noise[n]), events, noise);
    }
  }

  lemma LastSettled(records: seq<TxRecord>, events: seq<TxEvent>, noise: seq<Noise>)
    requires |noise| == |events| > 0
    requires var at := Find(records, KeyOf(events[|events| - 1]));
             at.Some? && Touch(records[at.value], events[|events| - 1], noise[|events| - 1]) == records[at.value]
    ensures Settled(records, events, noise, |events| - 1)
  {
    hide Find, KeyOf, Touch;
  }

  predicate FinalAt(records: seq<TxRecord>, k: Key) {
    Find(records, k).Some? && records[Find(records, k).value].status.Finalized?
  }

  /** Event `i` cannot show the clock: it has a block time, or it changes no record (a
      receipt), or a later event with its key overwrites what it did, or the record it
      belongs to was final from the start. */
  predicate ClockFree(records: seq<TxRecord>, events: seq<TxEvent>, i: nat)
    requires i < |events|
  {
    || events[i].blockTs != 0
    || events[i].kind.TransferIn?
    || Repeated(events, i)
    || FinalAt(records, KeyOf(events[i]))
  }

  lemma ProjectOneFinal(records: seq<TxRecord>, ev: TxEvent, noise: Noise, k: Key)
    ensures FinalAt(ProjectOne(records, ev, noise), k) <==> FinalAt(records, k)
    ensures Find(records, k).Some? ==> Find(ProjectOne(records, ev, noise), k) == Find(records, k)
  {
    hide FindFrom, KeyOf, NewRecord, Find;
    var after := ProjectOne(records, ev, noise);
    ProjectOneKeys(records, ev, noise);
    FindInside(records, k);
    FindInside(records, KeyOf(ev));
    FindInside(after, k);
    if Find(records, k).Some? {
      FindStable(records, after, k);
    } else {
      NewIsOpen(records, ev, noise, k);
    }
  }

  /** A record that appears under a key for the first time is not final. */
  lemma NewIsOpen(records: seq<TxRecord>, ev: TxEvent, noise: Noise, k: Key)
    requires Find(records, k).None?
    ensures !FinalAt(ProjectOne(records, ev, noise), k)
  {
    hide FindFrom, KeyOf;
    var after := ProjectOne(records, ev, noise);
    match Find(records, KeyOf(ev))
    case None =>
      assert forall j :: 0 <= j < |records| ==> after[j] == records[j];
    case Some(i) =>
      assert forall j :: 0 <= j < |records| ==> HasKey(after[j], k) == HasKey(records[j], k);
  }

  /** Projection makes no record final and none open again. */
  lemma {:induction false} ProjectFinal(records: seq<TxRecord>, events: seq<TxEvent>, noise: seq<Noise>, k: Key)
    requires |noise| == |events|
    ensures FinalAt(Project(records, events, noise), k) <==> FinalAt(records, k)
    decreases |events|
  {
    hide ProjectOne, FinalAt;
    if events != [] {
      var n := |events| - 1;
      ProjectFinal(records, events[..n], noise[..n], k);
      ProjectOneFinal(Project(records, events[..n], noise[..n]), events[n], noise[n], k);
    }
  }

  /** Between the passes over the same events, a record may differ from its settled form
      only while an event with its key is still to come. */
  ghost predicate Returning(settled: seq<TxRecord>, now: seq<TxRecord>, events: seq<TxEvent>, k: nat)
    requires k <= |events|
  {
    && |now| == |settled|
    && forall i :: 0 <= i < |now| ==> ReturningAt(settled, now, events, k, i)
  }

  ghost predicate ReturningAt(settled: seq<TxRecord>, now: seq<TxRecord>, events: seq<TxEvent>, k: nat, i: nat)
    requires k <= |events| && i < |now| == |settled|
  {
    && now[i] == settled[i].(status := now[i].status)
    && (settled[i].status.Finalized? <==> now[i].status.Finalized?)
    && (now[i] != settled[i] ==>
         && settled[i].kind != L2TransferReceived
         && !settled[i].status.Finalized?
         && exists j :: k <= j < |events| && Find(settled, KeyOf(events[j])) == Some(i))
  }

  /** The record an event is matched with, after that event. */
  lemma TouchedReturns(settled: seq<TxRecord>, now: seq<TxRecord>, after: seq<TxRecord>, events: seq<TxEvent>,
                       first: seq<Noise>, again: Noise, k: nat, at: nat)
    requires |first| == |events| && k < |events| && Settled(settled, events, first, k)
    requires ClockFree(settled, events, k)
    requires Find(settled, KeyOf(events[k])) == Some(at) && at < |now| == |settled| == |after|
    requires ReturningAt(settled, now, events, k, at)
    requires after[at] == Touch(now[at], events[k], again)
    ensures ReturningAt(settled, after, events, k + 1, at)
  {
    hide FindFrom, Find;
    if events[k].kind.TransferIn? {
      assert settled[at].kind == L2TransferReceived;
    } else if Repeated(events, k) {
      var j :| k < j < |events| && KeyOf(events[j]) == KeyOf(events[k]);
      assert Find(settled, KeyOf(events[j])) == Some(at);
    }
  }

  /** A record no event is matched with now. */
  lemma OthersReturn(settled: seq<TxRecord>, now: seq<TxRecord>, after: seq<TxRecord>, events: seq<TxEvent>, k: nat,
                     i: nat)
    requires k < |events| && i < |now| == |settled| == |after|
    requires Find(settled, KeyOf(events[k])) != Some(i)
    requires ReturningAt(settled, now, events, k, i) && after[i] == now[i]
    ensures ReturningAt(settled, after, events, k + 1, i)
  {
    hide FindFrom, Find, KeyOf;
  }

  lemma ReturningStep(settled: seq<TxRecord>, now: seq<TxRecord>, events: seq<TxEvent>, first: seq<Noise>,
                      second: seq<Noise>, k: nat)
    requires |first| == |second| == |events| && k < |events|
    requires ClockFree(settled, events, k)
    requires Settled(settled, events, first, k)
    requires Returning(settled, now, events, k)
    ensures Returning(settled, ProjectOne(now, events[k], second[k]), events, k + 1)
  {
    hide FindFrom, Find, KeyOf, Touch, ReturningAt, ClockFree;
    var key := KeyOf(events[k]);
    var at := Find(settled, key).value;
    forall i | 0 <= i < |now|
      ensures now[i].kind == settled[i].kind && now[i].l2Key == settled[i].l2Key
    {
      KeysReturned(settled, now, events, k, i);
    }
    FindStable(settled, now, key);
    FindInside(settled, key);
    var after := ProjectOne(now, events[k], second[k]);
    var next := k + 1;
    forall i | 0 <= i < |after|
      ensures ReturningAt(settled, after, events, next, i)
    {
      assert ReturningAt(settled, now, events, k, i);
      if i == at {
        TouchedReturns(settled, now, after, events, first, second[k], k, at);
      } else {
        OthersReturn(settled, now, after, events, k, i);
      }
    }
  }

  lemma KeysReturned(settled: seq<TxRecord>, now: seq<TxRecord>, events: seq<TxEvent>, k: nat, i: nat)
    requires k <= |events| && i < |now| && Returning(settled, now, events, k)
    ensures now[i].kind == settled[i].kind && now[i].l2Key == settled[i].l2Key
  {
    hide Find, KeyOf;
    assert ReturningAt(settled, now, events, k, i);
  }

  lemma FindInside(records: seq<TxRecord>, k: Key)
    ensures Find(records, k).Some? ==> Find(records, k).value < |records|
  {
    hide FindFrom;
  }

  lemma ReturningStart(settled: seq<TxRecord>, events: seq<TxEvent>)
    ensures Returning(settled, settled, events, 0)
  {
    hide Find, KeyOf;
  }

  lemma ReturningEnd(settled: seq<TxRecord>, now: seq<TxRecord>, events: seq<TxEvent>)
    requires Returning(settled, now, events, |events|)
    ensures now == settled
  {
    hide Find, KeyOf;
    forall i | 0 <= i < |now|
      ensures now[i] == settled[i]
    {
      assert ReturningAt(settled, now, events, |events|, i);
    }
  }

  lemma {:induction false} SecondPass(settled: seq<TxRecord>, events: seq<TxEvent>, first: seq<Noise>,
                                      second: seq<Noise>, k: nat)
    requires |first| == |second| == |events| && k <= |events|
    requires forall i :: 0 <= i < |events| ==> ClockFree(settled, events, i) && Settled(settled, events, first, i)
    ensures Returning(settled, Project(settled, events[..k], second[..k]), events, k)
  {
    hide Settled, Returning, ProjectOne, ClockFree;
    if k == 0 {
      ReturningStart(settled, events);
    } else {
      SecondPass(settled, events, first, second, k - 1);
      assert events[..k][..k - 1] == events[..k - 1] && second[..k][..k - 1] == second[..k - 1];
      ReturningStep(settled, Project(settled, events[..k - 1], second[..k - 1]), events, first, second, k - 1);
    }
  }

  /** Two passes over the same events give what one pass gives. */
  predicate SecondPassIdle(records: seq<TxRecord>, events: seq<TxEvent>, first: seq<Noise>, second: seq<Noise>)
    requires |first| == |second| == |events|
  {
    Project(Project(records, events, first), events, second) == Project(records, events, first)
  }

  lemma ClockFreeIdle(records: seq<TxRecord>, events: seq<TxEvent>, first: seq<Noise>, second: seq<Noise>)
    requires |first| == |second| == |events|
    requires forall i :: 0 <= i < |events| ==> ClockFree(records, events, i)
    ensures SecondPassIdle(records, events, first, second)
  {
    hide Project, Settled, Returning, FinalAt, KeyOf;
    var once := Project(records, events, first);
    forall i | 0 <= i < |events|
      ensures ClockFree(once, events, i) && Settled(once, events, first, i)
    {
      assert ClockFree(records, events, i);
      ProjectFinal(records, events, first, KeyOf(events[i]));
      ProjectSettles(records, events, first, i);
    }
    SecondPass(once, events, first, second, |events|);
    assert events[..|events|] == events && second[..|events|] == second;
    ReturningEnd(once, Project(once, events, second), events);
  }

  /** The same clock reading for every event. */
  function Ticking(n: nat, now: u64): (noise: seq<Noise>)
    ensures |noise| == n && forall i :: 0 <= i < n ==> noise[i].now == now
  {
    seq(n, _ => Noise([], now))
  }

  /** An event that is not clock-free leaves the clock of its pass in the record. */
  lemma ClockShows(records: seq<TxRecord>, events: seq<TxEvent>, noise: seq<Noise>, i: nat)
    requires |noise| == |events| && i < |events| && !ClockFree(records, events, i)
    ensures var after, k := Project(records, events, noise), KeyOf(events[i]);
            && Find(after, k).Some?
            && after[Find(after, k).value].status == InBlock(events[i].l2Height, events[i].l1Height, noise[i].now)
  {
    hide Project, FindFrom, Find, KeyOf;
    var after, k := Project(records, events, noise), KeyOf(events[i]);
    ProjectSettles(records, events, noise, i);
    ProjectFinal(records, events, noise, k);
    FindInside(after, k);
  }

  /** `project_events` is idempotent on these records and events, for all ids and clock
      readings, exactly if every event is clock-free; which in particular it is with a
      block time that is not zero. */
  lemma ProjectIdempotentIff(records: seq<TxRecord>, events: seq<TxEvent>)
    ensures (forall first, second :: |first| == |second| == |events| ==> SecondPassIdle(records, events, first, second))
       <==> (forall i :: 0 <= i < |events| ==> ClockFree(records, events, i))
  {
    hide Project, FindFrom, Find, KeyOf, FinalAt, Repeated;
    if forall i :: 0 <= i < |events| ==> ClockFree(records, events, i) {
      forall first, second | |first| == |second| == |events|
        ensures SecondPassIdle(records, events, first, second)
      {
        ClockFreeIdle(records, events, first, second);
      }
    } else {
      var i :| 0 <= i < |events| && !ClockFree(records, events, i);
      var first, second := Ticking(|events|, 1), Ticking(|events|, 2);
      ClockShows(records, events, first, i);
      var once := Project(records, events, first);
      ProjectFinal(records, events, first, KeyOf(events[i]));
      assert !ClockFree(once, events, i);
      ClockShows(once, events, second, i);
      assert !SecondPassIdle(records, events, first, second);
    }
  }

  /** On events with a block time, as blocks carry them, projection is idempotent. */
  lemma ProjectIdempotent(records: seq<TxRecord>, events: seq<TxEvent>, first: seq<Noise>, second: seq<Noise>)
    requires |first| == |second| == |events|
    requires forall i :: 0 <= i < |events| ==> events[i].blockTs != 0
    ensures var once := Project(records, events, first); Project(once, events, second) == once
  {
    hide Project, FindFrom, Find, KeyOf, FinalAt, Repeated;
    ClockFreeIdle(records, events, first, second);
  }

  /** With a zero block time the clock shows through and a second pass does change the record. */
  lemma ZeroBlockTimeNotIdempotent(dest: Address, n: u64, d: Digest, id: Bytes)
    ensures var ev := TxEvent(1, 1, 0, TransferOut(dest, n, d));
            var once := Project([], [ev], [Noise(id, 1)]);
            Project(once, [ev], [Noise(id, 2)]) != once
  {
    hide FindFrom;
    var ev := TxEvent(1, 1, 0, TransferOut(dest, n, d));
    var r := NewRecord(ev, Noise(id, 1));
    assert [ev][..0] == [] && [Noise(id, 1)][..0] == [] && [Noise(id, 2)][..0] == [];
    assert Project([], [ev], [Noise(id, 1)]) == [] + [r];
    assert HasKey([r][0], KeyOf(ev));
    assert Find([r], KeyOf(ev)) == Some(0);
    assert Project([r], [ev], [Noise(id, 2)]) == [r][0 := Touch(r, ev, Noise(id, 2))];
  }
}
