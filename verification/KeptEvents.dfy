/**
 What is kept from a notification and from a block, told by the fields of the events and of the
 transactions alone: which events, what each of them gives, where it goes and what it changes.
 */
module KeptEvents {
  import opened Addresses
  import opened Blocks
  import opened Index
  import opened Keys
  import opened Transfers

  // Events

  /** The transfer takes over every field of the event. */
  predicate Takes(m: Move, e: Event) {
    && e.decoded.Some? && m.contract == e.contract
    && m.from == e.decoded.value.from && m.to == e.decoded.value.to && m.amount == e.decoded.value.amount
  }

  /** No event before the i-th pays gas. */
  predicate BeforeFee(tokens: set<Address>, payer: Address, failed: bool, events: seq<Event>, i: nat)
    requires i <= |events|
  {
    forall j :: 0 <= j < i ==> !PaysGas(tokens, payer, failed, events[j])
  }

  /** The event is of a known token; on a failed transaction it is of ONG, and none before it pays gas. */
  predicate IsKept(tokens: set<Address>, payer: Address, failed: bool, events: seq<Event>, i: nat)
    requires i < |events|
  {
    && events[i].contract in tokens && events[i].decoded.Some?
    && (failed ==> events[i].contract == ONG && BeforeFee(tokens, payer, failed, events, i))
  }

  lemma ExaminedFields(tokens: set<Address>, payer: Address, failed: bool, e: Event, seen: bool)
    ensures var o := Examine(tokens, payer, failed, e, seen);
            && o.gasVerified == (seen || PaysGas(tokens, payer, failed, e))
            && if Eligible(tokens, failed, e) && !(failed && seen)
               then |o.added| == 1 && Takes(o.added[0], e)
                    && (o.added[0].isGas <==> !seen && PaysGas(tokens, payer, failed, e))
               else o.added == []
  {
  }

  lemma {:induction false} KeptMore(
    tokens: set<Address>, payer: Address, failed: bool, events: seq<Event>, e: Event, seen: bool
  )
    ensures var later := seen || !BeforeFee(tokens, payer, failed, events, |events|);
            Kept(tokens, payer, failed, events + [e], seen)
            == Kept(tokens, payer, failed, events, seen) + Examine(tokens, payer, failed, e, later).added
    decreases |events|
  {
    var all := events + [e];
    if events == [] {
      assert all[1..] == [];
    } else {
      var o := Examine(tokens, payer, failed, events[0], seen);
      ExaminedFields(tokens, payer, failed, events[0], seen);
      assert all[0] == events[0] && all[1..] == events[1..] + [e];
      KeptMore(tokens, payer, failed, events[1..], e, o.gasVerified);
      FeeInRest(tokens, payer, failed, events);
      var later := seen || !BeforeFee(tokens, payer, failed, events, |events|);
      var rest := Kept(tokens, payer, failed, events[1..], o.gasVerified);
      Regrouped(o.added, rest, Examine(tokens, payer, failed, e, later).added);
    }
  }

  lemma Regrouped(a: seq<Move>, b: seq<Move>, c: seq<Move>)
    ensures a + (b + c) == (a + b) + c
  {
  }

  lemma FeeInRest(tokens: set<Address>, payer: Address, failed: bool, events: seq<Event>)
    requires events != []
    ensures BeforeFee(tokens, payer, failed, events, |events|)
       <==> !PaysGas(tokens, payer, failed, events[0]) && BeforeFee(tokens, payer, failed, events[1..], |events| - 1)
  {
    forall j | 0 <= j < |events| - 1
      ensures events[1..][j] == events[j + 1]
    {
    }
    if !PaysGas(tokens, payer, failed, events[0]) && BeforeFee(tokens, payer, failed, events[1..], |events| - 1) {
      forall j | 0 <= j < |events|
        ensures !PaysGas(tokens, payer, failed, events[j])
      {
        assert j > 0 ==> events[j] == events[1..][j - 1];
      }
    }
  }

  lemma KeptUpTo(tokens: set<Address>, payer: Address, failed: bool, events: seq<Event>, n: nat)
    requires n < |events|
    ensures Kept(tokens, payer, failed, events[..n + 1], false)
         == Kept(tokens, payer, failed, events[..n], false)
            + Examine(tokens, payer, failed, events[n], !BeforeFee(tokens, payer, failed, events, n)).added
  {
    var init := events[..n];
    assert events[..n + 1] == init + [events[n]];
    KeptMore(tokens, payer, failed, init, events[n], false);
    assert BeforeFee(tokens, payer, failed, events, n) <==> BeforeFee(tokens, payer, failed, init, n) by {
      assert forall j :: 0 <= j < n ==> init[j] == events[j];
    }
  }

  /** The places of the first n events that are kept. */
  function Places(tokens: set<Address>, payer: Address, failed: bool, events: seq<Event>, n: nat): seq<nat>
    requires n <= |events|
    decreases n
  {
    if n == 0 then []
    else
      Places(tokens, payer, failed, events, n - 1)
      + if IsKept(tokens, payer, failed, events, n - 1) then [n - 1] else []
  }

  predicate Increasing(idx: seq<nat>) {
    forall j, k :: 0 <= j < k < |idx| ==> idx[j] < idx[k]
  }

  lemma {:induction false} PlaceIn(
    tokens: set<Address>, payer: Address, failed: bool, events: seq<Event>, n: nat, i: nat
  )
    requires n <= |events|
    ensures i in Places(tokens, payer, failed, events, n) <==> i < n && IsKept(tokens, payer, failed, events, i)
    decreases n
  {
    if n > 0 {
      PlaceIn(tokens, payer, failed, events, n - 1, i);
    }
  }

  lemma {:induction false} PlacesIncrease(
    tokens: set<Address>, payer: Address, failed: bool, events: seq<Event>, n: nat
  )
    requires n <= |events|
    ensures Increasing(Places(tokens, payer, failed, events, n))
    ensures forall j :: 0 <= j < |Places(tokens, payer, failed, events, n)| ==>
                          Places(tokens, payer, failed, events, n)[j] < n
    decreases n
  {
    if n > 0 {
      PlacesIncrease(tokens, payer, failed, events, n - 1);
      OneMorePlace(Places(tokens, payer, failed, events, n - 1), n - 1);
    }
  }

  lemma OneMorePlace(idx: seq<nat>, n: nat)
    requires Increasing(idx) && forall j :: 0 <= j < |idx| ==> idx[j] < n
    ensures Increasing(idx + [n])
  {
  }

  /** The transfer that the i-th event gives: marked as the gas fee if the event is the first that pays gas. */
  predicate Gives(tokens: set<Address>, payer: Address, failed: bool, events: seq<Event>, i: nat, m: Move) {
    && i < |events| && Takes(m, events[i])
    && (m.isGas <==> PaysGas(tokens, payer, failed, events[i]) && BeforeFee(tokens, payer, failed, events, i))
  }

  ghost predicate AllGiven(
    tokens: set<Address>, payer: Address, failed: bool, events: seq<Event>, idx: seq<nat>, ms: seq<Move>
  ) {
    |idx| == |ms| && forall j :: 0 <= j < |idx| ==> Gives(tokens, payer, failed, events, idx[j], ms[j])
  }

  lemma OneMoreGiven(
    tokens: set<Address>, payer: Address, failed: bool, events: seq<Event>, i: nat, idx: seq<nat>, ms: seq<Move>
  )
    requires i < |events| && AllGiven(tokens, payer, failed, events, idx, ms)
    ensures var o := Examine(tokens, payer, failed, events[i], !BeforeFee(tokens, payer, failed, events, i));
            var more := if IsKept(tokens, payer, failed, events, i) then [i] else [];
            AllGiven(tokens, payer, failed, events, idx + more, ms + o.added)
  {
    ExaminedFields(tokens, payer, failed, events[i], !BeforeFee(tokens, payer, failed, events, i));
  }

  lemma {:induction false} KeptAtPlaces(
    tokens: set<Address>, payer: Address, failed: bool, events: seq<Event>, n: nat
  )
    requires n <= |events|
    ensures AllGiven(tokens, payer, failed, events, Places(tokens, payer, failed, events, n),
                     Kept(tokens, payer, failed, events[..n], false))
    decreases n
  {
    if n > 0 {
      KeptAtPlaces(tokens, payer, failed, events, n - 1);
      KeptUpTo(tokens, payer, failed, events, n - 1);
      var idx := Places(tokens, payer, failed, events, n - 1);
      var ms := Kept(tokens, payer, failed, events[..n - 1], false);
      OneMoreGiven(tokens, payer, failed, events, n - 1, idx, ms);
    }
  }

  /**
   What a notification keeps, event by event. The kept transfers stand for events in their order: exactly those of
   known tokens, for a failed transaction only those of ONG up to the first that pays gas. Each has the contract,
   sender, receiver and amount of its event, and is marked as the gas fee exactly if that is the first that pays gas.
   An event pays gas if it carries the raw mark and the payer sent it; on a failed transaction it has to be of ONG.
   */
  lemma KeptMeans(tokens: set<Address>, payer: Address, failed: bool, events: seq<Event>) returns (idx: seq<nat>)
    ensures var ms := Kept(tokens, payer, failed, events, false);
            && |idx| == |ms| && Increasing(idx) && (forall j :: 0 <= j < |idx| ==> idx[j] < |events|)
            && (forall i :: 0 <= i < |events| ==> (i in idx <==> IsKept(tokens, payer, failed, events, i)))
            && forall j :: 0 <= j < |idx| ==>
                             var e := events[idx[j]];
                             && e.decoded.Some? && ms[j].contract == e.contract
                             && ms[j].from == e.decoded.value.from && ms[j].to == e.decoded.value.to
                             && ms[j].amount == e.decoded.value.amount
                             && (ms[j].isGas <==> e.decoded.value.gasMark && e.decoded.value.from == payer
                                                  && BeforeFee(tokens, payer, failed, events, idx[j]))
    ensures forall i :: 0 <= i <= |events| ==>
                          (BeforeFee(tokens, payer, failed, events, i) <==>
                           forall j :: 0 <= j < i && events[j].contract in tokens && events[j].decoded.Some?
                                       && (failed ==> events[j].contract == ONG) && events[j].decoded.value.gasMark ==>
                                         events[j].decoded.value.from != payer)
  {
    idx := Places(tokens, payer, failed, events, |events|);
    PlacesIncrease(tokens, payer, failed, events, |events|);
    forall i: nat
      ensures i in idx <==> i < |events| && IsKept(tokens, payer, failed, events, i)
    {
      PlaceIn(tokens, payer, failed, events, |events|, i);
    }
    KeptAtPlaces(tokens, payer, failed, events, |events|);
    assert events[..|events|] == events;
    var ms := Kept(tokens, payer, failed, events, false);
    forall j | 0 <= j < |idx|
      ensures Gives(tokens, payer, failed, events, idx[j], ms[j]) && IsKept(tokens, payer, failed, events, idx[j])
    {
      assert idx[j] in idx;
    }
    BeforeFeeMeans(tokens, payer, failed, events);
  }

  lemma BeforeFeeMeans(tokens: set<Address>, payer: Address, failed: bool, events: seq<Event>)
    ensures forall i :: 0 <= i <= |events| ==>
                          (BeforeFee(tokens, payer, failed, events, i) <==>
                           forall j :: 0 <= j < i && events[j].contract in tokens && events[j].decoded.Some?
                                       && (failed ==> events[j].contract == ONG) && events[j].decoded.value.gasMark ==>
                                         events[j].decoded.value.from != payer)
  {
  }

  // What events do to balances

  /** What a kept event adds to a pair's balance, by its own fields; the null address has no balance. */
  function EventEffect(e: Event, p: Pair): int {
    if e.decoded.None? || e.contract != p.contract || p.acct == NULL then 0
    else
      (if e.decoded.value.to == p.acct then e.decoded.value.amount else 0)
      - (if e.decoded.value.from == p.acct then e.decoded.value.amount else 0)
  }

  /** The sum over those of the first n events that are kept. */
  function EventsEffect(
    tokens: set<Address>, payer: Address, failed: bool, events: seq<Event>, n: nat, p: Pair
  ): int
    requires n <= |events|
    decreases n
  {
    if n == 0 then 0
    else
      EventsEffect(tokens, payer, failed, events, n - 1, p)
      + if IsKept(tokens, payer, failed, events, n - 1) then EventEffect(events[n - 1], p) else 0
  }

  lemma TakenEffect(m: Move, e: Event, p: Pair)
    requires Takes(m, e)
    ensures TotalEffect([m], p) == EventEffect(e, p)
  {
    assert [m][..0] == [];
  }

  lemma AddedEffect(
    tokens: set<Address>, payer: Address, failed: bool, events: seq<Event>, i: nat, p: Pair
  )
    requires i < |events|
    ensures TotalEffect(
              Examine(tokens, payer, failed, events[i], !BeforeFee(tokens, payer, failed, events, i)).added, p)
         == if IsKept(tokens, payer, failed, events, i) then EventEffect(events[i], p) else 0
  {
    var o := Examine(tokens, payer, failed, events[i], !BeforeFee(tokens, payer, failed, events, i));
    ExaminedFields(tokens, payer, failed, events[i], !BeforeFee(tokens, payer, failed, events, i));
    if o.added != [] {
      assert o.added == [o.added[0]];
      TakenEffect(o.added[0], events[i], p);
    }
  }

  lemma EffectOfMore(ms: seq<Move>, before: seq<Move>, added: seq<Move>, p: Pair, x: int, y: int)
    requires ms == before + added && TotalEffect(before, p) == x && TotalEffect(added, p) == y
    ensures TotalEffect(ms, p) == x + y
  {
    TotalEffectAppend(before, added, p);
  }

  lemma OneMoreEvent(
    tokens: set<Address>, payer: Address, failed: bool, events: seq<Event>, n: nat, p: Pair, x: int
  )
    requires n < |events| && TotalEffect(Kept(tokens, payer, failed, events[..n], false), p) == x
    ensures TotalEffect(Kept(tokens, payer, failed, events[..n + 1], false), p)
         == x + if IsKept(tokens, payer, failed, events, n) then EventEffect(events[n], p) else 0
  {
    var added := Examine(tokens, payer, failed, events[n], !BeforeFee(tokens, payer, failed, events, n)).added;
    KeptUpTo(tokens, payer, failed, events, n);
    AddedEffect(tokens, payer, failed, events, n, p);
    EffectOfMore(Kept(tokens, payer, failed, events[..n + 1], false), Kept(tokens, payer, failed, events[..n], false),
                 added, p, x, TotalEffect(added, p));
  }

  lemma {:induction false} KeptEffect(
    tokens: set<Address>, payer: Address, failed: bool, events: seq<Event>, n: nat, p: Pair
  )
    requires n <= |events|
    ensures TotalEffect(Kept(tokens, payer, failed, events[..n], false), p)
         == EventsEffect(tokens, payer, failed, events, n, p)
    decreases n
  {
    if n > 0 {
      KeptEffect(tokens, payer, failed, events, n - 1, p);
      OneMoreEvent(tokens, payer, failed, events, n - 1, p, EventsEffect(tokens, payer, failed, events, n - 1, p));
    }
  }

  // Transactions

  predicate NoneHas(txs: seq<SourceTx>, hash: Hash) {
    forall j :: 0 <= j < |txs| ==> txs[j].hash != hash
  }

  /** A notification with this hash is about transaction i: the last with the hash, or the first if none has it. */
  predicate GoesTo(txs: seq<SourceTx>, hash: Hash, i: nat) {
    && i < |txs|
    && ((txs[i].hash == hash && forall j :: i < j < |txs| ==> txs[j].hash != hash) || (i == 0 && NoneHas(txs, hash)))
  }

  lemma {:induction false} OffsetGoes(txs: seq<SourceTx>, hash: Hash)
    requires txs != []
    ensures GoesTo(txs, hash, Offset(txs, hash))
    decreases |txs|
  {
    var init, n := txs[..|txs| - 1], |txs| - 1;
    if txs[n].hash != hash && n > 0 {
      OffsetGoes(init, hash);
      var i := Offset(init, hash);
      assert forall j :: 0 <= j < n ==> txs[j] == init[j];
    }
  }

  lemma GoesToOne(txs: seq<SourceTx>, hash: Hash, i: nat, j: nat)
    requires GoesTo(txs, hash, i) && GoesTo(txs, hash, j)
    ensures i == j
  {
  }

  /** With hashes of their own, transactions get exactly the notifications with their hash. */
  lemma GoesToOwn(txs: seq<SourceTx>, hash: Hash, i: nat)
    requires i < |txs| && !NoneHas(txs, hash) && forall j, k :: 0 <= j < k < |txs| ==> txs[j].hash != txs[k].hash
    ensures GoesTo(txs, hash, i) <==> txs[i].hash == hash
  {
  }

  /** What is kept from the notifications about transaction i, in order. */
  function Collected(tokens: set<Address>, txs: seq<SourceTx>, notices: seq<Notice>, i: nat): seq<Move>
    requires i < |txs|
    decreases |notices|
  {
    if notices == [] then []
    else
      var n := notices[|notices| - 1];
      Collected(tokens, txs, notices[..|notices| - 1], i)
      + if GoesTo(txs, n.txHash, i) then Kept(tokens, txs[i].payer, n.failed, n.events, false) else []
  }

  /** What the last notification about transaction i says about failure. */
  function LastFailed(txs: seq<SourceTx>, notices: seq<Notice>, i: nat): bool
    decreases |notices|
  {
    if notices == [] then false
    else if GoesTo(txs, notices[|notices| - 1].txHash, i) then notices[|notices| - 1].failed
    else LastFailed(txs, notices[..|notices| - 1], i)
  }

  lemma SharesUpTo(tokens: set<Address>, txs: seq<SourceTx>, notices: seq<Notice>)
    requires txs != [] && notices != []
    ensures var n := notices[|notices| - 1];
            Shares(tokens, txs, notices)
            == Shares(tokens, txs, notices[..|notices| - 1]) + [NoticeShare(tokens, txs, n)]
  {
  }

  lemma {:induction false} CollectedIsStored(
    tokens: set<Address>, txs: seq<SourceTx>, notices: seq<Notice>, i: nat
  )
    requires i < |txs|
    ensures TxMoves(Shares(tokens, txs, notices), i) == Collected(tokens, txs, notices, i)
    ensures TxFailed(Shares(tokens, txs, notices), i) == LastFailed(txs, notices, i)
    decreases |notices|
  {
    if notices != [] {
      var init, n := notices[..|notices| - 1], notices[|notices| - 1];
      CollectedIsStored(tokens, txs, init, i);
      SharesUpTo(tokens, txs, notices);
      var before, last := Shares(tokens, txs, init), NoticeShare(tokens, txs, n);
      assert (before + [last])[..|before|] == before;
      OffsetGoes(txs, n.txHash);
      if GoesTo(txs, n.txHash, i) {
        GoesToOne(txs, n.txHash, i, last.tx);
      }
    }
  }

  /**
   The record of a block, transaction by transaction: its hash, whether its last notification says that it failed,
   and the stored forms of what was kept, for its own payer, from exactly the notifications about it.
   */
  lemma RecordMeans(tokens: set<Address>, src: SourceBlock, i: nat)
    requires WellFormed(src) && i < |src.txs|
    ensures var block := Digest(tokens, src).block;
            && block.timestamp == src.timestamp && |block.txs| == |src.txs|
            && block.txs[i].hash == src.txs[i].hash
            && block.txs[i].failed == LastFailed(src.txs, src.notices, i)
            && block.txs[i].transfers == StoredForms(Collected(tokens, src.txs, src.notices, i))
  {
    CollectedIsStored(tokens, src.txs, src.notices, i);
  }

  /** What is kept from the notifications with a hash, in order. */
  function KeptWithHash(tokens: set<Address>, payer: Address, hash: Hash, notices: seq<Notice>): seq<Move>
    decreases |notices|
  {
    if notices == [] then []
    else
      var n := notices[|notices| - 1];
      KeptWithHash(tokens, payer, hash, notices[..|notices| - 1])
      + if n.txHash == hash then Kept(tokens, payer, n.failed, n.events, false) else []
  }

  lemma {:induction false} CollectedByHash(
    tokens: set<Address>, txs: seq<SourceTx>, notices: seq<Notice>, i: nat
  )
    requires i < |txs| && forall j, k :: 0 <= j < k < |txs| ==> txs[j].hash != txs[k].hash
    requires i > 0 || forall n :: n in notices ==> !NoneHas(txs, n.txHash)
    ensures Collected(tokens, txs, notices, i) == KeptWithHash(tokens, txs[i].payer, txs[i].hash, notices)
    decreases |notices|
  {
    if notices != [] {
      var n := notices[|notices| - 1];
      CollectedByHash(tokens, txs, notices[..|notices| - 1], i);
      if NoneHas(txs, n.txHash) {
        assert n in notices;
      } else {
        GoesToOwn(txs, n.txHash, i);
      }
    }
  }

  /**
   If the transactions of a block have hashes of their own, and every notification has one of them, the transfers
   stored with a transaction are those kept, for its payer, from exactly the notifications with its hash.
   */
  lemma OwnRecord(tokens: set<Address>, src: SourceBlock, i: nat)
    requires WellFormed(src) && i < |src.txs|
    requires forall j, k :: 0 <= j < k < |src.txs| ==> src.txs[j].hash != src.txs[k].hash
    requires i > 0 || forall n :: n in src.notices ==> exists j :: 0 <= j < |src.txs| && src.txs[j].hash == n.txHash
    ensures var block := Digest(tokens, src).block;
            && |block.txs| == |src.txs| && block.txs[i].hash == src.txs[i].hash
            && block.txs[i].transfers
               == StoredForms(KeptWithHash(tokens, src.txs[i].payer, src.txs[i].hash, src.notices))
  {
    RecordMeans(tokens, src, i);
    CollectedByHash(tokens, src.txs, src.notices, i);
  }

  // The differences of a block

  ghost function PayerOf(txs: seq<SourceTx>, hash: Hash): (payer: Address)
    requires txs != []
    ensures exists i :: 0 <= i < |txs| && GoesTo(txs, hash, i) && payer == txs[i].payer
  {
    OffsetGoes(txs, hash);
    var i :| 0 <= i < |txs| && GoesTo(txs, hash, i);
    txs[i].payer
  }

  /** The sum over all notifications of a block, each with the payer of the transaction that it is about. */
  ghost function BlockEffect(tokens: set<Address>, txs: seq<SourceTx>, notices: seq<Notice>, p: Pair): int
    requires txs != []
    decreases |notices|
  {
    if notices == [] then 0
    else
      var n := notices[|notices| - 1];
      BlockEffect(tokens, txs, notices[..|notices| - 1], p)
      + EventsEffect(tokens, PayerOf(txs, n.txHash), n.failed, n.events, |n.events|, p)
  }

  lemma NoticeMoves(tokens: set<Address>, txs: seq<SourceTx>, n: Notice, p: Pair)
    requires txs != []
    ensures TotalEffect(NoticeShare(tokens, txs, n).moves, p)
         == EventsEffect(tokens, PayerOf(txs, n.txHash), n.failed, n.events, |n.events|, p)
  {
    var payer := PayerOf(txs, n.txHash);
    var i :| 0 <= i < |txs| && GoesTo(txs, n.txHash, i) && payer == txs[i].payer;
    OffsetGoes(txs, n.txHash);
    GoesToOne(txs, n.txHash, i, Offset(txs, n.txHash));
    assert n.events[..|n.events|] == n.events;
    KeptEffect(tokens, payer, n.failed, n.events, |n.events|, p);
  }

  lemma {:induction false} MovesEffect(tokens: set<Address>, txs: seq<SourceTx>, notices: seq<Notice>, p: Pair)
    requires txs != []
    ensures TotalEffect(AllMoves(Shares(tokens, txs, notices)), p) == BlockEffect(tokens, txs, notices, p)
    decreases |notices|
  {
    if notices != [] {
      var init, n := notices[..|notices| - 1], notices[|notices| - 1];
      MovesEffect(tokens, txs, init, p);
      SharesUpTo(tokens, txs, notices);
      var before, last := Shares(tokens, txs, init), NoticeShare(tokens, txs, n);
      assert (before + [last])[..|before|] == before;
      TotalEffectAppend(AllMoves(before), last.moves, p);
      NoticeMoves(tokens, txs, n, p);
    }
  }

  /** The difference of a pair over a block is what its kept events bring to the account, minus what they take. */
  lemma DiffMeans(tokens: set<Address>, src: SourceBlock, p: Pair)
    requires WellFormed(src)
    ensures DiffOf(Digest(tokens, src), p)
         == if src.txs == [] then 0 else BlockEffect(tokens, src.txs, src.notices, p)
  {
    TableMeaning(MovesOf(tokens, src), p);
    if src.txs != [] {
      MovesEffect(tokens, src.txs, src.notices, p);
    }
  }
}
