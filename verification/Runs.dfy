/**
 All runs of the server, interleaved with readers: what every reachable state keeps. Stated over
 entries; Stores ties them to bytes.
 */
module Runs {
  import opened Addresses
  import opened Blocks
  import opened Errors
  import opened Index
  import opened Indexer
  import opened Keys
  import opened Lexinum
  import opened Numbers
  import opened Steps
  import opened Stores
  import opened Wrappers

  // What every state keeps

  ghost predicate PhaseFits(s: System, n: nat)
    requires s.Up?
  {
    match s.phase
    case Idle => s.indexed == LastOf(n)
    case Ready(h, _) => s.indexed == LastOf(n) && IsNext(h, n)
    case Committed(h, _) => n == h + 1 && (s.indexed == LastOf(h) || (h == 0 && s.indexed == Some(0)))
  }

  ghost predicate Inv(chain: Chain, s: System) {
    && Count(s.db) <= |chain| && Reflects(s.db, chain, Count(s.db))
    && (s.Up? ==> PhaseFits(s, Count(s.db)))
  }

  lemma CommitKeepsInv(chain: Chain, s: System, s': System)
    requires Inv(chain, s) && Commit(chain, s, s')
    ensures Inv(chain, s') && Count(s.db) <= Count(s'.db)
  {
    StoredNext(s.db, chain, Count(s.db), s.phase.height);
    CountOfReflected(s'.db, chain, s.phase.height + 1);
  }

  lemma StepKeepsInv(chain: Chain, s: System, s': System)
    requires Inv(chain, s) && Step(chain, s, s')
    ensures Inv(chain, s') && Count(s.db) <= Count(s'.db)
  {
    if Commit(chain, s, s') {
      CommitKeepsInv(chain, s, s');
    }
  }

  lemma {:induction false} RunKeepsInv(chain: Chain, run: seq<System>, i: nat)
    requires IsRun(chain, run) && i < |run|
    ensures Inv(chain, run[i])
  {
    if i == 0 {
      EmptyReflects(chain);
    } else {
      RunKeepsInv(chain, run, i - 1);
      StepKeepsInv(chain, run[i - 1], run[i]);
    }
  }

  /** The height readers see now, or will see after a restart. */
  ghost function Visible(s: System): uint32 {
    if s.Up? then Height(s.indexed) else Height(Recovered(s.db))
  }

  lemma StepIsMonotone(chain: Chain, s: System, s': System)
    requires Inv(chain, s) && Step(chain, s, s')
    ensures Count(s.db) <= Count(s'.db) && Visible(s) <= Visible(s')
  {
    StepKeepsInv(chain, s, s');
  }

  lemma RunStep(chain: Chain, run: seq<System>, j: nat)
    requires IsRun(chain, run) && j + 1 < |run|
    ensures Count(run[j].db) <= Count(run[j + 1].db) && Visible(run[j]) <= Visible(run[j + 1])
  {
    RunKeepsInv(chain, run, j);
    StepIsMonotone(chain, run[j], run[j + 1]);
  }

  ghost predicate NoLess(s: System, s': System) {
    Count(s.db) <= Count(s'.db) && Visible(s) <= Visible(s')
  }

  lemma {:induction false} NoLessOverall(run: seq<System>, i: nat, j: nat)
    requires i <= j < |run| && forall k :: i <= k < j ==> NoLess(run[k], run[k + 1])
    ensures NoLess(run[i], run[j])
    decreases j - i
  {
    if i < j {
      NoLessOverall(run, i, j - 1);
      assert NoLess(run[j - 1], run[j - 1 + 1]);
    }
  }

  /** Neither the number of stored blocks nor the height readers see ever goes down, not even over a restart. */
  lemma RunIsMonotone(chain: Chain, run: seq<System>, i: nat, j: nat)
    requires IsRun(chain, run) && i <= j < |run|
    ensures Count(run[i].db) <= Count(run[j].db) && Visible(run[i]) <= Visible(run[j])
  {
    forall k | i <= k < j
      ensures NoLess(run[k], run[k + 1])
    {
      RunStep(chain, run, k);
    }
    NoLessOverall(run, i, j);
  }

  lemma HoldsClean(chain: Chain, run: seq<System>, s: System)
    requires IsRun(chain, run) && s in run
    ensures Count(s.db) <= |chain| && s.db == Clean(chain, Count(s.db))
  {
    var i :| 0 <= i < |run| && run[i] == s;
    RunKeepsInv(chain, run, i);
    CleanReflects(chain, Count(s.db));
    ReflectsUnique(s.db, Clean(chain, Count(s.db)), chain, Count(s.db));
  }

  lemma BlocksHeld(chain: Chain, db: Ledger, n: nat)
    requires n <= |chain| && Reflects(db, chain, n)
    ensures forall h: uint32 :: BlockAt(h) in db <==> h < n
    ensures forall h: uint32 :: h < n ==> db[BlockAt(h)] == Record(chain[h].block)
  {
    forall h: uint32
      ensures Lookup(db, BlockAt(h)) == Expected(chain, n, BlockAt(h))
    {
    }
  }

  /**
   Crash and retry safety: in every state of every run the database is exactly that of one
   clean pass over the first n blocks, n being the persisted height plus one: blocks 0 to n - 1
   are there, no other, and the height in memory is not ahead of them.
   */
  lemma CrashSafety(chain: Chain, run: seq<System>, i: nat)
    requires IsRun(chain, run) && i < |run|
    ensures var n := Count(run[i].db);
            && n <= |chain| && run[i].db == Clean(chain, n)
            && (forall h: uint32 :: BlockAt(h) in run[i].db <==> h < n)
            && (forall h: uint32 :: h < n ==> run[i].db[BlockAt(h)] == Record(chain[h].block))
            && (run[i].Up? && run[i].indexed.Some? ==> run[i].indexed.value < n)
  {
    RunKeepsInv(chain, run, i);
    HoldsClean(chain, run, run[i]);
    BlocksHeld(chain, run[i].db, Count(run[i].db));
  }

  lemma StatesOfLonger(run: seq<System>, trace: seq<System>, s: System)
    requires run != [] && trace != [] && trace[0] == run[|run| - 1] && s in trace
    ensures s in run + trace[1..]
  {
    assert trace == [trace[0]] + trace[1..];
  }

  /** So it is in every state the loop goes through from any reachable one, whatever interrupts it there. */
  lemma LoopIsSafe(chain: Chain, run: seq<System>, trace: seq<System>, last: System, s: System)
    requires IsRun(chain, run) && Leads(chain, trace, run[|run| - 1], last) && s in trace
    ensures Count(s.db) <= |chain|
    ensures s.db == Clean(chain, Count(s.db))
    ensures IsRun(chain, run + trace[1..])
  {
    RunGoesOn(chain, run, trace, last);
    StatesOfLonger(run, trace, s);
    HoldsClean(chain, run + trace[1..], s);
  }

  /** The block about to be stored is the one after the last stored, or block 0 once more when it is the only one. */
  lemma NoHeightSkipped(chain: Chain, run: seq<System>, i: nat)
    requires IsRun(chain, run) && i < |run| && run[i].Up? && run[i].phase.Ready?
    ensures IsNext(run[i].phase.height, Count(run[i].db))
  {
    RunKeepsInv(chain, run, i);
  }

  // Balances

  /**
   Index refinement: at a height readers can see, the lookup is never below the running total of the
   pair's differences, and is that total exactly if no total up to there was negative.
   */
  lemma IndexRefinement(chain: Chain, run: seq<System>, i: nat, p: Pair, h: uint32)
    requires IsRun(chain, run) && i < |run| && h < Count(run[i].db)
    ensures h < |chain|
    ensures BalanceAt(run[i].db, p, h) >= Running(chain, p, h)
    ensures BalanceAt(run[i].db, p, h) == Running(chain, p, h) <==> NeverNegative(chain, p, h)
  {
    RunKeepsInv(chain, run, i);
    RecordedIsRunning(chain, p, h);
    LookupIsRecorded(run[i].db, chain, Count(run[i].db), p, h);
  }

  /** Historical stability: a balance at a stored height never changes again. */
  lemma BalanceStable(chain: Chain, run: seq<System>, i: nat, j: nat, p: Pair, h: uint32)
    requires IsRun(chain, run) && i <= j < |run| && h < Count(run[i].db)
    ensures BalanceAt(run[j].db, p, h) == BalanceAt(run[i].db, p, h)
  {
    RunKeepsInv(chain, run, i);
    RunKeepsInv(chain, run, j);
    RunIsMonotone(chain, run, i, j);
    LookupIsRecorded(run[i].db, chain, Count(run[i].db), p, h);
    LookupIsRecorded(run[j].db, chain, Count(run[j].db), p, h);
  }

  // Block identity

  lemma RunShaped(chain: Chain, run: seq<System>, i: nat)
    requires IsRun(chain, run) && i < |run|
    ensures Shaped(run[i].db)
  {
    RunKeepsInv(chain, run, i);
    ReflectsShaped(run[i].db, chain, Count(run[i].db));
  }

  lemma LastIsOnly(chain: Chain, n: nat, h: uint32)
    requires h < n <= |chain| && DistinctHashes(chain)
    ensures LastWithHash(chain, n, chain[h].hash) == Some(h)
  {
  }

  /** The two block entries of a height, and the entry of a hash. */
  lemma BlockEntries(db: Ledger, chain: Chain, n: nat, h: uint32, hash: Hash)
    requires n <= |chain| && Reflects(db, chain, n) && Shaped(db) && DistinctHashes(chain)
    ensures Identify(db, true, hash, h) ==
            if h >= n then Err(UnknownBlockIndex)
            else if hash != ZERO_HASH && hash != chain[h].hash then Err(InvalidBlockIdentifier)
            else Ok(Identity(chain[h].hash, h))
    ensures h < n ==> Identify(db, false, chain[h].hash, 0) == Ok(Identity(chain[h].hash, h))
  {
    assert Lookup(db, HashAt(h)) == Expected(chain, n, HashAt(h));
    if h < n {
      ReadHashBytes(chain[h].hash);
      LastIsOnly(chain, n, h);
      assert Lookup(db, HeightOf(chain[h].hash)) == Expected(chain, n, HeightOf(chain[h].hash));
      Uint32RoundTrip(h);
    }
  }

  lemma UnknownHash(db: Ledger, chain: Chain, n: nat, hash: Hash)
    requires n <= |chain| && Reflects(db, chain, n) && Shaped(db)
    requires forall g :: 0 <= g < n ==> chain[g].hash != hash
    ensures Identify(db, false, hash, 0) == Err(UnknownBlockHash)
  {
    assert Lookup(db, HeightOf(hash)) == Expected(chain, n, HeightOf(hash));
  }

  /**
   Block identity: a stored block is found by height, by hash, and by both, always as itself;
   a height with another block's hash is refused, and so are unknown heights and hashes.
   A zero hash beside a height is not compared.
   */
  lemma BlockIdentity(chain: Chain, run: seq<System>, i: nat, h: uint32, hash: Hash)
    requires IsRun(chain, run) && i < |run| && DistinctHashes(chain)
    ensures Shaped(run[i].db)
    ensures var db, n := run[i].db, Count(run[i].db);
            && n <= |chain|
            && (h < n ==>
                  var id := Ok(Identity(chain[h].hash, h));
                  && Identify(db, true, ZERO_HASH, h) == id
                  && Identify(db, true, chain[h].hash, h) == id
                  && Identify(db, false, chain[h].hash, 0) == id
                  && BlockRecord(db, h) == Ok(chain[h].block)
                  && (hash != ZERO_HASH && hash != chain[h].hash ==>
                        Identify(db, true, hash, h) == Err(InvalidBlockIdentifier)))
            && (h >= n ==> Identify(db, true, hash, h) == Err(UnknownBlockIndex))
            && ((forall g :: 0 <= g < n ==> chain[g].hash != hash) ==>
                  Identify(db, false, hash, 0) == Err(UnknownBlockHash))
  {
    var db, n := run[i].db, Count(run[i].db);
    RunKeepsInv(chain, run, i);
    RunShaped(chain, run, i);
    BlockEntries(db, chain, n, h, hash);
    if h < n {
      BlockEntries(db, chain, n, h, ZERO_HASH);
      BlockEntries(db, chain, n, h, chain[h].hash);
      assert Lookup(db, BlockAt(h)) == Expected(chain, n, BlockAt(h));
    }
    if forall g :: 0 <= g < n ==> chain[g].hash != hash {
      UnknownHash(db, chain, n, hash);
    }
  }

  lemma IdentifyStable(chain: Chain, db: Ledger, n: nat, db': Ledger, n': nat, t: Target)
    requires n <= n' <= |chain| && Reflects(db, chain, n) && Reflects(db', chain, n')
    requires Shaped(db) && Shaped(db') && DistinctHashes(chain)
    requires Identify(db, t.byHeight, t.hash, t.height).Ok?
    ensures Identify(db', t.byHeight, t.hash, t.height) == Identify(db, t.byHeight, t.hash, t.height)
    ensures Identify(db, t.byHeight, t.hash, t.height).value.height < n
  {
    if t.byHeight {
      BlockEntries(db, chain, n, t.height, t.hash);
      BlockEntries(db', chain, n', t.height, t.hash);
    } else {
      var h := LastWithHash(chain, n, t.hash);
      assert Lookup(db, HeightOf(t.hash)) == Expected(chain, n, HeightOf(t.hash));
      BlockEntries(db, chain, n, h.value, t.hash);
      BlockEntries(db', chain, n', h.value, t.hash);
    }
  }

  // Transactions

  /**
   The lookup of an unsigned hash finds it exactly if one of the stored blocks has a transaction with that
   hash; and then it does so in every later state.
   */
  lemma UnsignedKnown(
    tokens: set<Address>, blocks: seq<SourceBlock>, chain: Chain, run: seq<System>, i: nat, j: nat, hash: Hash
  )
    requires SourceChain(blocks) && chain == ChainOf(tokens, blocks) && IsRun(chain, run) && i <= j < |run|
    ensures Count(run[i].db) <= |blocks|
    ensures Unsigned(hash) in run[i].db <==> exists h :: 0 <= h < Count(run[i].db) && HasUnsigned(blocks[h], hash)
    ensures Unsigned(hash) in run[i].db ==> Unsigned(hash) in run[j].db
  {
    RunKeepsInv(chain, run, i);
    RunKeepsInv(chain, run, j);
    RunIsMonotone(chain, run, i, j);
    UnsignedStored(tokens, blocks, chain, run[i].db, Count(run[i].db), hash);
    UnsignedStored(tokens, blocks, chain, run[j].db, Count(run[j].db), hash);
  }

  lemma UnsignedStored(
    tokens: set<Address>, blocks: seq<SourceBlock>, chain: Chain, db: Ledger, n: nat, hash: Hash
  )
    requires SourceChain(blocks) && chain == ChainOf(tokens, blocks) && n <= |chain| && Reflects(db, chain, n)
    ensures Unsigned(hash) in db <==> exists h :: 0 <= h < n && HasUnsigned(blocks[h], hash)
  {
    assert Lookup(db, Unsigned(hash)) == Expected(chain, n, Unsigned(hash));
    forall h | 0 <= h < n
      ensures hash in chain[h].hashes <==> HasUnsigned(blocks[h], hash)
    {
      UnsignedDigested(tokens, blocks[h], hash);
    }
  }

  // Queries

  predicate NamesBlock(pid: Option<PartialId>) {
    pid.Some? && (pid.value.hash.Some? || pid.value.index.Some?)
  }

  /** The request names block h: by its hash, or by its height with its hash, a zero hash or none. */
  predicate Names(pid: Option<PartialId>, chain: Chain, h: uint32)
    requires h < |chain|
  {
    pid.Some?
    && if pid.value.index.None? then pid.value.hash == Some(HashHex(chain[h].hash))
    else pid.value.index == Some(h)
         && (pid.value.hash == None
             || pid.value.hash == Some(HashHex(ZERO_HASH)) || pid.value.hash == Some(HashHex(chain[h].hash)))
  }

  /** What a block query answers for a stored block. */
  function InfoOf(chain: Chain, h: uint32, withBlock: bool): BlockInfo
    requires h < |chain|
  {
    BlockInfo(if withBlock then chain[h].block else EMPTY_BLOCK, chain[h].hash, h, Encode(h))
  }

  lemma IdentifiedIsFound(
    db: Ledger, chain: Chain, n: nat, byHeight: bool, hash: Hash, height: uint32, h: uint32, withBlock: bool
  )
    requires h < n <= |chain| && Reflects(db, chain, n) && Shaped(db)
    requires Identify(db, byHeight, hash, height) == Ok(Identity(chain[h].hash, h))
    ensures FindBlock(db, byHeight, hash, height, withBlock) == Ok(InfoOf(chain, h, withBlock))
  {
    assert Lookup(db, BlockAt(h)) == Expected(chain, n, BlockAt(h));
  }

  /** A stored block that is named is found; by height only up to the height in memory, by hash at once. */
  lemma NamedIsFound(
    db: Ledger, chain: Chain, n: nat, first: uint32, second: uint32, pid: Option<PartialId>, h: uint32, withBlock: bool
  )
    requires h < n <= |chain| && Reflects(db, chain, n) && Shaped(db) && DistinctHashes(chain)
    requires Names(pid, chain, h) && (pid.value.index.Some? ==> h <= second)
    ensures QueryAcross(first, second, db, pid, withBlock) == Ok(InfoOf(chain, h, withBlock))
  {
    var t := Resolve(pid, first).value;
    BlockEntries(db, chain, n, h, t.hash);
    IdentifiedIsFound(db, chain, n, t.byHeight, t.hash, t.height, h, withBlock);
  }

  /** What is found was named. */
  lemma FoundIsNamed(
    db: Ledger, chain: Chain, n: nat, first: uint32, second: uint32, pid: Option<PartialId>, withBlock: bool
  ) returns (h: uint32)
    requires n <= |chain| && Reflects(db, chain, n) && Shaped(db) && DistinctHashes(chain)
    requires NamesBlock(pid) && QueryAcross(first, second, db, pid, withBlock).Ok?
    ensures h < n && Names(pid, chain, h) && (pid.value.index.Some? ==> h <= second)
  {
    var t := Resolve(pid, first).value;
    if t.byHeight {
      h := t.height;
      BlockEntries(db, chain, n, h, t.hash);
    } else {
      assert Lookup(db, HeightOf(t.hash)) == Expected(chain, n, HeightOf(t.hash));
      h := LastWithHash(chain, n, t.hash).value;
    }
  }

  /** The block a request is about, once the height was read for a request that names none. */
  function Pinned(pid: Option<PartialId>, height: uint32): Option<PartialId> {
    if NamesBlock(pid) then pid else Some(PartialId(None, Some(height)))
  }

  lemma PinnedAcross(first: uint32, second: uint32, ledger: Ledger, pid: Option<PartialId>, withBlock: bool)
    requires Shaped(ledger)
    ensures QueryAcross(first, second, ledger, pid, withBlock)
         == QueryAcross(first, second, ledger, Pinned(pid, first), withBlock)
  {
  }

  /** A query is as good as one that names its block and reads the height only once. */
  lemma PinnedQuery(first: uint32, second: uint32, ledger: Ledger, pid: Option<PartialId>, withBlock: bool)
    requires Shaped(ledger) && first <= second
    ensures QueryAcross(first, second, ledger, pid, withBlock) == Query(ledger, second, Pinned(pid, first), withBlock)
  {
  }

  /** What is found in a ledger of n blocks is one of them. */
  lemma FoundIsStored(chain: Chain, db: Ledger, n: nat, latest: uint32, pid: Option<PartialId>, withBlock: bool)
    requires n <= |chain| && Reflects(db, chain, n) && Shaped(db) && DistinctHashes(chain)
    requires Query(db, latest, pid, withBlock).Ok?
    ensures Query(db, latest, pid, withBlock).value.height < n
  {
    IdentifyStable(chain, db, n, db, n, Resolve(pid, latest).value);
  }

  /** A request that names no block is never refused once anything is stored. */
  lemma LatestIsFound(chain: Chain, run: seq<System>, a: nat, b: nat, c: nat, pid: Option<PartialId>, withBlock: bool)
    requires IsRun(chain, run) && a <= b <= c < |run| && DistinctHashes(chain) && Shaped(run[c].db)
    requires !NamesBlock(pid) && Count(run[c].db) > 0
    ensures Visible(run[a]) < |chain|
    ensures QueryAcross(Visible(run[a]), Visible(run[b]), run[c].db, pid, withBlock)
         == Ok(InfoOf(chain, Visible(run[a]), withBlock))
  {
    var h, second, db := Visible(run[a]), Visible(run[b]), run[c].db;
    RunKeepsInv(chain, run, c);
    VisibleStored(chain, run, a, c);
    RunIsMonotone(chain, run, a, b);
    PinnedQuery(h, second, db, pid, withBlock);
    NamedIsFound(db, chain, Count(db), second, second, Pinned(pid, h), h, withBlock);
  }

  /**
   One balance request, with any steps between its reads: the height is read in state a and again in b, the
   block is looked up in c, the balance in d. If there is an answer, it is the one of a request that is made in
   state c as a whole and names the height of state a if it named no block. Such a request is always answered.
   */
  lemma TornRead(
    chain: Chain, run: seq<System>, a: nat, b: nat, c: nat, d: nat, pid: Option<PartialId>, withBlock: bool, p: Pair
  )
    requires IsRun(chain, run) && a <= b <= c <= d < |run| && DistinctHashes(chain)
    ensures Shaped(run[c].db)
    ensures var asked := QueryAcross(Visible(run[a]), Visible(run[b]), run[c].db, pid, withBlock);
            asked.Ok? ==>
              && asked == Query(run[c].db, Visible(run[c]), Pinned(pid, Visible(run[a])), withBlock)
              && asked.value.height < Count(run[c].db)
              && BalanceAt(run[d].db, p, asked.value.height) == BalanceAt(run[c].db, p, asked.value.height)
    ensures !NamesBlock(pid) && Count(run[c].db) > 0 ==>
              var asked := QueryAcross(Visible(run[a]), Visible(run[b]), run[c].db, pid, withBlock);
              asked.Ok? && asked.value.height == Visible(run[a])
  {
    RunShaped(chain, run, c);
    RunKeepsInv(chain, run, c);
    RunIsMonotone(chain, run, a, b);
    RunIsMonotone(chain, run, b, c);
    var asked := QueryAcross(Visible(run[a]), Visible(run[b]), run[c].db, pid, withBlock);
    PinnedQuery(Visible(run[a]), Visible(run[b]), run[c].db, pid, withBlock);
    if !NamesBlock(pid) && Count(run[c].db) > 0 {
      LatestIsFound(chain, run, a, b, c, pid, withBlock);
    }
    if asked.Ok? {
      FoundIsStored(chain, run[c].db, Count(run[c].db), Visible(run[b]), Pinned(pid, Visible(run[a])), withBlock);
      BalanceStable(chain, run, c, d, p, asked.value.height);
    }
  }

  /** The height readers see is stored then and later, once anything is. */
  lemma VisibleStored(chain: Chain, run: seq<System>, a: nat, c: nat)
    requires IsRun(chain, run) && a <= c < |run| && Count(run[c].db) > 0
    ensures Visible(run[a]) < Count(run[c].db) <= |chain|
  {
    RunKeepsInv(chain, run, a);
    RunKeepsInv(chain, run, c);
    RunIsMonotone(chain, run, a, c);
  }

  /** A block query that names its block and was answered once is answered the same ever after. */
  lemma QueryStable(chain: Chain, run: seq<System>, i: nat, j: nat, pid: Option<PartialId>, withBlock: bool)
    requires IsRun(chain, run) && i <= j < |run| && DistinctHashes(chain) && run[i].Up? && run[j].Up?
    requires NamesBlock(pid)
    ensures Shaped(run[i].db) && Shaped(run[j].db)
    ensures var asked := Query(run[i].db, Visible(run[i]), pid, withBlock);
            asked.Ok? ==> Query(run[j].db, Visible(run[j]), pid, withBlock) == asked
  {
    RunShaped(chain, run, i);
    RunShaped(chain, run, j);
    RunKeepsInv(chain, run, i);
    RunKeepsInv(chain, run, j);
    RunIsMonotone(chain, run, i, j);
    var asked := Query(run[i].db, Visible(run[i]), pid, withBlock);
    if asked.Ok? {
      var t := Resolve(pid, 0).value;
      assert Resolve(pid, Visible(run[i])) == Resolve(pid, Visible(run[j])) == Ok(t);
      IdentifyStable(chain, run[i].db, Count(run[i].db), run[j].db, Count(run[j].db), t);
      var h := asked.value.height;
      assert Lookup(run[i].db, BlockAt(h)) == Expected(chain, Count(run[i].db), BlockAt(h));
      assert Lookup(run[j].db, BlockAt(h)) == Expected(chain, Count(run[j].db), BlockAt(h));
    }
  }
}
