/**
 From a block of the chain and its notifications to what is stored for it: the block
 record with its kept transfers, and the balance differences (IndexBlocks in services/store.go).
 */
module Blocks {
  import opened Addresses
  import opened DiffTables
  import opened Keys
  import opened Numbers
  import opened Transfers

  datatype SourceTx = SourceTx(hash: Hash, unsignedHash: Hash, payer: Address)

  /** event.ExecuteNotify */
  datatype Notice = Notice(txHash: Hash, failed: bool, events: seq<Event>)

  datatype SourceBlock = SourceBlock(hash: Hash, timestamp: uint32, txs: seq<SourceTx>, notices: seq<Notice>)

  /** model.Transaction */
  datatype StoredTx = StoredTx(failed: bool, hash: Hash, transfers: seq<StoredTransfer>)

  /** model.Block */
  datatype StoredBlock = StoredBlock(timestamp: uint32, txs: seq<StoredTx>)

  /** What a block contributes to the store: blockState, with the changes as a table. */
  datatype BlockState = BlockState(block: StoredBlock, diffs: Diffs, hashes: seq<Hash>, hash: Hash)

  /** A notification is about some transaction, so the block has one. */
  predicate WellFormed(src: SourceBlock) {
    src.notices == [] || src.txs != []
  }

  /** The table offsets: the last transaction with a hash, and 0 for a hash the block does not have. */
  function Offset(txs: seq<SourceTx>, hash: Hash): (i: nat)
    ensures txs != [] ==> i < |txs|
  {
    if txs == [] then 0
    else if txs[|txs| - 1].hash == hash then |txs| - 1
    else Offset(txs[..|txs| - 1], hash)
  }

  /** What one notification contributes: to which transaction, with which mark, which kept transfers. */
  datatype Share = Share(tx: nat, failed: bool, moves: seq<Move>)

  function NoticeShare(tokens: set<Address>, txs: seq<SourceTx>, n: Notice): (s: Share)
    requires txs != []
    ensures s.tx < |txs|
  {
    var i := Offset(txs, n.txHash);
    Share(i, n.failed, Kept(tokens, txs[i].payer, n.failed, n.events, false))
  }

  function Shares(tokens: set<Address>, txs: seq<SourceTx>, notices: seq<Notice>): seq<Share>
    requires notices == [] || txs != []
  {
    seq(|notices|, k requires 0 <= k < |notices| => NoticeShare(tokens, txs, notices[k]))
  }

  /** All kept transfers, in order. */
  function AllMoves(shares: seq<Share>): seq<Move> {
    if shares == [] then [] else AllMoves(shares[..|shares| - 1]) + shares[|shares| - 1].moves
  }

  function MovesFor(s: Share, i: nat): seq<Move> {
    if s.tx == i then s.moves else []
  }

  /** The kept transfers that go to transaction i. */
  function TxMoves(shares: seq<Share>, i: nat): seq<Move> {
    if shares == [] then [] else TxMoves(shares[..|shares| - 1], i) + MovesFor(shares[|shares| - 1], i)
  }

  /** The failure mark of transaction i: the last notification for it decides. */
  function TxFailed(shares: seq<Share>, i: nat): bool {
    if shares == [] then false
    else if shares[|shares| - 1].tx == i then shares[|shares| - 1].failed
    else TxFailed(shares[..|shares| - 1], i)
  }

  function StoredTxs(txs: seq<SourceTx>, shares: seq<Share>): (r: seq<StoredTx>)
    ensures |r| == |txs|
  {
    seq(|txs|, i requires 0 <= i < |txs| =>
      StoredTx(TxFailed(shares, i), txs[i].hash, StoredForms(TxMoves(shares, i))))
  }

  function UnsignedHashes(txs: seq<SourceTx>): seq<Hash> {
    seq(|txs|, i requires 0 <= i < |txs| => txs[i].unsignedHash)
  }

  /** All transfers kept from a block, in order. */
  function MovesOf(tokens: set<Address>, src: SourceBlock): seq<Move>
    requires WellFormed(src)
  {
    AllMoves(Shares(tokens, src.txs, src.notices))
  }

  function Digest(tokens: set<Address>, src: SourceBlock): BlockState
    requires WellFormed(src)
  {
    BlockState(
      StoredBlock(src.timestamp, StoredTxs(src.txs, Shares(tokens, src.txs, src.notices))),
      EnteredAll(map[], MovesOf(tokens, src)),
      UnsignedHashes(src.txs),
      src.hash)
  }

  /** The block has a transaction with this hash before signing. */
  predicate HasUnsigned(src: SourceBlock, hash: Hash) {
    exists k :: 0 <= k < |src.txs| && src.txs[k].unsignedHash == hash
  }

  lemma UnsignedDigested(tokens: set<Address>, src: SourceBlock, hash: Hash)
    requires WellFormed(src)
    ensures hash in Digest(tokens, src).hashes <==> HasUnsigned(src, hash)
  {
    if HasUnsigned(src, hash) {
      var k :| 0 <= k < |src.txs| && src.txs[k].unsignedHash == hash;
      assert UnsignedHashes(src.txs)[k] == hash;
    }
  }

  // Nothing is lost between the table and the transactions

  function TxEffect(shares: seq<Share>, i: nat, p: Pair): int {
    TotalEffect(TxMoves(shares, i), p)
  }

  /** The effect of the transfers stored with the first n transactions. */
  function StoredEffect(shares: seq<Share>, n: nat, p: Pair): int {
    if n == 0 then 0 else StoredEffect(shares, n - 1, p) + TxEffect(shares, n - 1, p)
  }

  lemma {:induction false} NoShares(n: nat, p: Pair)
    ensures StoredEffect([], n, p) == 0
  {
    if n > 0 {
      NoShares(n - 1, p);
    }
  }

  lemma TxEffectOfOneMore(shares: seq<Share>, s: Share, i: nat, p: Pair)
    ensures TxEffect(shares + [s], i, p) == TxEffect(shares, i, p) + (if s.tx == i then TotalEffect(s.moves, p) else 0)
  {
    assert (shares + [s])[..|shares|] == shares;
    TotalEffectAppend(TxMoves(shares, i), MovesFor(s, i), p);
  }

  /** What is added to one transaction's effect is added to the effect of all. */
  lemma {:induction false} OneMoreShare(shares: seq<Share>, more: seq<Share>, tx: nat, effect: int, n: nat, p: Pair)
    requires forall i: nat :: TxEffect(more, i, p) == TxEffect(shares, i, p) + (if tx == i then effect else 0)
    ensures StoredEffect(more, n, p) == StoredEffect(shares, n, p) + (if tx < n then effect else 0)
    decreases n
  {
    if n > 0 {
      OneMoreShare(shares, more, tx, effect, n - 1, p);
    }
  }

  /** Summed over the transactions, the kept transfers have the effect they have in event order. */
  lemma {:induction false} SharesPartition(shares: seq<Share>, n: nat, p: Pair)
    requires forall k :: 0 <= k < |shares| ==> shares[k].tx < n
    ensures StoredEffect(shares, n, p) == TotalEffect(AllMoves(shares), p)
  {
    if shares == [] {
      NoShares(n, p);
    } else {
      var init, last := shares[..|shares| - 1], shares[|shares| - 1];
      SharesPartition(init, n, p);
      assert init + [last] == shares;
      forall i: nat
        ensures TxEffect(shares, i, p)
             == TxEffect(init, i, p) + (if last.tx == i then TotalEffect(last.moves, p) else 0)
      {
        TxEffectOfOneMore(init, last, i, p);
      }
      OneMoreShare(init, shares, last.tx, TotalEffect(last.moves, p), n, p);
      TotalEffectAppend(AllMoves(init), last.moves, p);
    }
  }

  // The loops of IndexBlocks over one block

  method BuildOffsets(txs: seq<SourceTx>) returns (offsets: map<Hash, nat>)
    ensures forall h: Hash :: (if h in offsets then offsets[h] else 0) == Offset(txs, h)
  {
    offsets := map[];
    for i := 0 to |txs|
      invariant forall h: Hash :: (if h in offsets then offsets[h] else 0) == Offset(txs[..i], h)
    {
      assert txs[..i + 1][..i] == txs[..i];
      offsets := offsets[txs[i].hash := i];
    }
    assert txs[..|txs|] == txs;
  }

  lemma StoredFormsAppend(ms: seq<Move>, ns: seq<Move>)
    ensures StoredForms(ms + ns) == StoredForms(ms) + StoredForms(ns)
  {
  }

  /** One event: if it is kept, its amount becomes an object that the table may hold on to. */
  method HandleEvent(
    tokens: set<Address>, payer: Address, failed: bool, evt: Event, gasVerified: bool, diffs: DiffTable
  ) returns (added: seq<StoredTransfer>, verified: bool)
    requires diffs.Valid()
    modifies diffs, diffs.repr
    ensures diffs.Valid() && fresh(diffs.repr - old(diffs.repr))
    ensures var o := Examine(tokens, payer, failed, evt, gasVerified);
            && diffs.contents == EnteredAll(old(diffs.contents), o.added)
            && added == StoredForms(o.added) && verified == o.gasVerified
  {
    if evt.contract !in tokens || evt.decoded.None? {
      return [], gasVerified;
    }
    var d := evt.decoded.value;
    var v := CheckGasVerified(evt.contract, payer, d.from, failed, gasVerified, d.gasMark);
    if v.skip {
      return [], gasVerified;
    }
    var amount := new BigInt(d.amount);
    var stored := diffs.BalanceCal(LiveTransfer(amount, d.from, d.to, v.isGas), evt.contract);
    EnteredOne(old(diffs.contents), Classify(d, evt.contract, v.isGas));
    return [stored], v.gasVerified;
  }

  lemma EnteredOne(d: Diffs, m: Move)
    ensures EnteredAll(d, [m]) == Entered(d, m) && StoredForms([m]) == [StoredForm(m)]
  {
  }

  lemma KeptFrom(
    tokens: set<Address>, payer: Address, failed: bool, events: seq<Event>, i: nat, gasVerified: bool, ms: seq<Move>
  )
    requires i < |events|
    ensures var o := Examine(tokens, payer, failed, events[i], gasVerified);
            ms + Kept(tokens, payer, failed, events[i..], gasVerified)
            == (ms + o.added) + Kept(tokens, payer, failed, events[i + 1..], o.gasVerified)
  {
  }

  /** The loop over the events of a notification. */
  method ProcessNotice(tokens: set<Address>, payer: Address, failed: bool, events: seq<Event>, diffs: DiffTable)
    returns (transfers: seq<StoredTransfer>)
    requires diffs.Valid()
    modifies diffs, diffs.repr
    ensures diffs.Valid() && fresh(diffs.repr - old(diffs.repr))
    ensures diffs.contents == EnteredAll(old(diffs.contents), Kept(tokens, payer, failed, events, false))
    ensures transfers == StoredForms(Kept(tokens, payer, failed, events, false))
  {
    ghost var ms: seq<Move> := [];
    transfers := [];
    var gasVerified := false;
    for i := 0 to |events|
      invariant diffs.Valid() && fresh(diffs.repr - old(diffs.repr))
      invariant ms + Kept(tokens, payer, failed, events[i..], gasVerified) == Kept(tokens, payer, failed, events, false)
      invariant diffs.contents == EnteredAll(old(diffs.contents), ms) && transfers == StoredForms(ms)
    {
      ghost var o := Examine(tokens, payer, failed, events[i], gasVerified);
      KeptFrom(tokens, payer, failed, events, i, gasVerified, ms);
      EnteredAppend(old(diffs.contents), ms, o.added);
      StoredFormsAppend(ms, o.added);
      var added;
      added, gasVerified := HandleEvent(tokens, payer, failed, events[i], gasVerified, diffs);
      transfers := transfers + added;
      ms := ms + o.added;
    }
    assert events[|events|..] == [] && ms + [] == ms;
  }

  method CollectTxs(txs: seq<SourceTx>) returns (stored: seq<StoredTx>, hashes: seq<Hash>)
    ensures hashes == UnsignedHashes(txs) && stored == StoredTxs(txs, [])
  {
    hashes := [];
    stored := [];
    for i := 0 to |txs|
      invariant hashes == UnsignedHashes(txs[..i])
      invariant stored == StoredTxs(txs, [])[..i]
    {
      hashes := hashes + [txs[i].unsignedHash];
      stored := stored + [StoredTx(false, txs[i].hash, [])];
      assert StoredTxs(txs, [])[i] == StoredTx(false, txs[i].hash, []);
    }
  }

  function WithShare(t: StoredTx, s: Share): StoredTx {
    StoredTx(s.failed, t.hash, t.transfers + StoredForms(s.moves))
  }

  lemma ShareStored(txs: seq<SourceTx>, shares: seq<Share>, s: Share)
    requires s.tx < |txs|
    ensures var was := StoredTxs(txs, shares);
            was[s.tx := WithShare(was[s.tx], s)] == StoredTxs(txs, shares + [s])
  {
    var was, after := StoredTxs(txs, shares), StoredTxs(txs, shares + [s]);
    assert (shares + [s])[..|shares|] == shares;
    forall i | 0 <= i < |txs|
      ensures was[s.tx := WithShare(was[s.tx], s)][i] == after[i]
    {
      StoredFormsAppend(TxMoves(shares, i), MovesFor(s, i));
    }
  }

  lemma ShareEntered(shares: seq<Share>, s: Share)
    ensures EnteredAll(map[], AllMoves(shares + [s])) == EnteredAll(EnteredAll(map[], AllMoves(shares)), s.moves)
  {
    assert (shares + [s])[..|shares|] == shares;
    EnteredAppend(map[], AllMoves(shares), s.moves);
  }

  /** The table and the stored transactions are those of the given shares. */
  ghost predicate Accounted(diffs: Diffs, stored: seq<StoredTx>, txs: seq<SourceTx>, shares: seq<Share>) {
    diffs == EnteredAll(map[], AllMoves(shares)) && stored == StoredTxs(txs, shares)
  }

  lemma AccountedMore(diffs: Diffs, stored: seq<StoredTx>, txs: seq<SourceTx>, all: seq<Share>, k: nat)
    requires k < |all| && all[k].tx < |txs| && Accounted(diffs, stored, txs, all[..k])
    ensures Accounted(
              EnteredAll(diffs, all[k].moves), stored[all[k].tx := WithShare(stored[all[k].tx], all[k])], txs,
              all[..k + 1])
  {
    assert all[..k] + [all[k]] == all[..k + 1];
    ShareEntered(all[..k], all[k]);
    ShareStored(txs, all[..k], all[k]);
  }

  /** One turn of the loop over the notifications. */
  method AddShare(
    tokens: set<Address>, txs: seq<SourceTx>, info: Notice, offset: nat, diffs: DiffTable, stored: seq<StoredTx>,
    ghost all: seq<Share>, ghost k: nat
  ) returns (result: seq<StoredTx>)
    requires txs != [] && offset == Offset(txs, info.txHash)
    requires k < |all| && all[k] == NoticeShare(tokens, txs, info)
    requires diffs.Valid() && Accounted(diffs.contents, stored, txs, all[..k])
    modifies diffs, diffs.repr
    ensures diffs.Valid() && fresh(diffs.repr - old(diffs.repr))
    ensures Accounted(diffs.contents, result, txs, all[..k + 1])
  {
    AccountedMore(diffs.contents, stored, txs, all, k);
    var transfers := ProcessNotice(tokens, txs[offset].payer, info.failed, info.events, diffs);
    var t := stored[offset];
    result := stored[offset := StoredTx(info.failed, t.hash, t.transfers + transfers)];
  }

  /** The loop over the notifications of a block. */
  method AddShares(
    tokens: set<Address>, txs: seq<SourceTx>, notices: seq<Notice>, diffs: DiffTable, start: seq<StoredTx>,
    ghost all: seq<Share>
  ) returns (stored: seq<StoredTx>)
    requires notices == [] || txs != []
    requires all == Shares(tokens, txs, notices)
    requires diffs.Valid() && Accounted(diffs.contents, start, txs, [])
    modifies diffs, diffs.repr
    ensures diffs.Valid() && fresh(diffs.repr - old(diffs.repr))
    ensures Accounted(diffs.contents, stored, txs, all)
  {
    var offsets := BuildOffsets(txs);
    stored := start;
    assert all[..0] == [];
    for k := 0 to |notices|
      invariant diffs.Valid() && fresh(diffs.repr - old(diffs.repr))
      invariant Accounted(diffs.contents, stored, txs, all[..k])
    {
      var info := notices[k];
      var offset := if info.txHash in offsets then offsets[info.txHash] else 0;
      stored := AddShare(tokens, txs, info, offset, diffs, stored, all, k);
    }
    assert all[..|notices|] == all;
  }

  /** Everything IndexBlocks computes from one block before it writes. */
  method DigestBlock(tokens: set<Address>, src: SourceBlock)
    returns (block: StoredBlock, diffs: DiffTable, hashes: seq<Hash>)
    requires WellFormed(src)
    ensures fresh(diffs) && fresh(diffs.repr) && diffs.Valid()
    ensures Digest(tokens, src) == BlockState(block, diffs.contents, hashes, src.hash)
  {
    diffs := new DiffTable();
    var txs;
    txs, hashes := CollectTxs(src.txs);
    txs := AddShares(tokens, src.txs, src.notices, diffs, txs, Shares(tokens, src.txs, src.notices));
    block := StoredBlock(src.timestamp, txs);
  }
}
