/**
 The balance index, by entries rather than by bytes: what account entries say about balances,
 how a block adds entries, and what is there after a clean pass over the first n blocks of a chain.
 */
module Index {
  import opened Addresses
  import opened Blocks
  import opened ByteStrings
  import opened Keys
  import opened Numbers
  import opened Transfers
  import opened Wrappers

  /** A stored value: bytes, or a block record, whose wire encoding is left abstract. */
  datatype Value = Raw(bytes: Bytes) | Record(block: StoredBlock)

  /** The database seen as entries; finite in fact, but that is not needed here. */
  type Ledger = imap<Key, Value>

  /** A value read as an amount. */
  function Amount(v: Value): nat {
    match v
    case Raw(bytes) => SetBytes(bytes)
    case Record(_) => 0
  }

  // Reading an account's balance

  /** The latest height up to h at which the pair has an entry. */
  ghost function Latest(db: Ledger, p: Pair, h: int): (g: Option<uint32>)
    requires h < TWO32
    ensures g.Some? ==> g.value <= h && Account(p, g.value) in db
    decreases h + 1
  {
    if h < 0 then None else if Account(p, h) in db then Some(h) else Latest(db, p, h - 1)
  }

  /** The balance an entry at or before h records; 0 without one. */
  ghost function BalanceAt(db: Ledger, p: Pair, h: int): nat
    requires h < TWO32
  {
    match Latest(db, p, h)
    case None => 0
    case Some(g) => Amount(db[Account(p, g)])
  }

  lemma {:induction false} LatestIsLatest(db: Ledger, p: Pair, h: int, j: uint32)
    requires h < TWO32 && j <= h && Account(p, j) in db
    ensures Latest(db, p, h).Some? && j <= Latest(db, p, h).value
    decreases h
  {
    if Account(p, h) !in db {
      LatestIsLatest(db, p, h - 1, j);
    }
  }

  /** A balance depends only on the pair's own entries up to its height. */
  lemma {:induction false} BalanceFrame(db: Ledger, db': Ledger, p: Pair, h: int)
    requires h < TWO32
    requires forall g: uint32 :: g <= h ==> (Account(p, g) in db <==> Account(p, g) in db')
    requires forall g: uint32 :: g <= h && Account(p, g) in db ==> db[Account(p, g)] == db'[Account(p, g)]
    ensures BalanceAt(db, p, h) == BalanceAt(db', p, h)
    decreases h + 1
  {
    if h >= 0 && Account(p, h) !in db {
      BalanceFrame(db, db', p, h - 1);
    }
  }

  // Writing a block

  ghost function Lookup(db: Ledger, k: Key): Option<Value> {
    if k in db then Some(db[k]) else None
  }

  /** The keys a block writes at height h. */
  predicate Writes(bs: BlockState, h: uint32, k: Key) {
    match k
    case Account(p, g) => g == h && p in bs.diffs
    case BlockAt(g) => g == h
    case HeightOf(hash) => hash == bs.hash
    case HashAt(g) => g == h
    case Unsigned(u) => u in bs.hashes
    case Marker => true
  }

  ghost function Written(db: Ledger, bs: BlockState, h: uint32, k: Key): Value
    requires Writes(bs, h, k)
  {
    match k
    case Account(p, _) => Raw(BigBytes(BalanceAt(db, p, h - 1) + bs.diffs[p]))
    case BlockAt(_) => Record(bs.block)
    case HeightOf(_) => Raw(PutUint32(h))
    case HashAt(_) => Raw(HashBytes(bs.hash))
    case Unsigned(_) => Raw([])
    case Marker => Raw(PutUint32(h))
  }

  /** The ledger after a block was stored at height h: what setBlock is to achieve. */
  ghost function Indexed(db: Ledger, h: uint32, bs: BlockState): Ledger {
    imap k | Writes(bs, h, k) || k in db :: if Writes(bs, h, k) then Written(db, bs, h, k) else db[k]
  }

  // A clean pass

  type Chain = c: seq<BlockState> | |c| < TWO32

  /** The ledger after the first n blocks, each stored once, in order. */
  ghost function Clean(chain: Chain, n: nat): Ledger
    requires n <= |chain|
  {
    if n == 0 then imap[] else Indexed(Clean(chain, n - 1), n - 1, chain[n - 1])
  }

  /** What the account entries of a clean pass record: the sign of every result is lost. */
  function Recorded(chain: Chain, p: Pair, h: int): nat
    requires h < |chain|
    decreases h + 1
  {
    if h < 0 then 0
    else if p in chain[h].diffs then Abs(Recorded(chain, p, h - 1) + chain[h].diffs[p])
    else Recorded(chain, p, h - 1)
  }

  function DiffOf(bs: BlockState, p: Pair): int {
    if p in bs.diffs then bs.diffs[p] else 0
  }

  /** The running total: the differences of blocks 0 to h summed up. */
  function Running(chain: Chain, p: Pair, h: int): int
    requires h < |chain|
    decreases h + 1
  {
    if h < 0 then 0 else Running(chain, p, h - 1) + DiffOf(chain[h], p)
  }

  /** The last of the first n blocks with a given hash. */
  function LastWithHash(chain: Chain, n: nat, hash: Hash): (h: Option<uint32>)
    requires n <= |chain|
    ensures h.Some? ==> h.value < n && chain[h.value].hash == hash
    ensures h.None? ==> forall g :: 0 <= g < n ==> chain[g].hash != hash
  {
    if n == 0 then None else if chain[n - 1].hash == hash then Some(n - 1) else LastWithHash(chain, n - 1, hash)
  }

  /** The entry that n indexed blocks are to leave under a key. */
  ghost function Expected(chain: Chain, n: nat, k: Key): Option<Value>
    requires n <= |chain|
  {
    match k
    case Account(p, h) =>
      if h < n && p in chain[h].diffs then Some(Raw(BigBytes(Recorded(chain, p, h - 1) + chain[h].diffs[p]))) else None
    case BlockAt(h) => if h < n then Some(Record(chain[h].block)) else None
    case HashAt(h) => if h < n then Some(Raw(HashBytes(chain[h].hash))) else None
    case HeightOf(hash) =>
      (match LastWithHash(chain, n, hash)
       case None => None
       case Some(h) => Some(Raw(PutUint32(h))))
    case Unsigned(u) => if exists h :: 0 <= h < n && u in chain[h].hashes then Some(Raw([])) else None
    case Marker => if n > 0 then Some(Raw(PutUint32(n - 1))) else None
  }

  /** The ledger holds what n indexed blocks are to leave, and nothing else. */
  ghost predicate Reflects(db: Ledger, chain: Chain, n: nat)
    requires n <= |chain|
  {
    forall k :: Lookup(db, k) == Expected(chain, n, k)
  }

  lemma SameLookups(a: Ledger, b: Ledger)
    requires forall k :: Lookup(a, k) == Lookup(b, k)
    ensures a == b
  {
    forall k
      ensures k in a <==> k in b
      ensures k in a ==> a[k] == b[k]
    {
      assert Lookup(a, k) == Lookup(b, k);
    }
  }

  /** So the contents are a function of the first n blocks alone. */
  lemma ReflectsUnique(db: Ledger, db': Ledger, chain: Chain, n: nat)
    requires n <= |chain| && Reflects(db, chain, n) && Reflects(db', chain, n)
    ensures db == db'
  {
    SameLookups(db, db');
  }

  /** The lookup finds what was recorded, whatever came later, also where block h does not touch the pair. */
  lemma {:induction false} LookupIsRecorded(db: Ledger, chain: Chain, n: nat, p: Pair, h: int)
    requires h < n <= |chain| && Reflects(db, chain, n)
    ensures BalanceAt(db, p, h) == Recorded(chain, p, h)
    decreases h + 1
  {
    if h >= 0 {
      assert Lookup(db, Account(p, h)) == Expected(chain, n, Account(p, h));
      LookupIsRecorded(db, chain, n, p, h - 1);
      StoredAmount(Recorded(chain, p, h - 1) + DiffOf(chain[h], p));
    }
  }

  lemma NextAccountEntry(db: Ledger, chain: Chain, n: nat, p: Pair, h: uint32)
    requires n < |chain| && Reflects(db, chain, n)
    ensures Lookup(Indexed(db, n, chain[n]), Account(p, h)) == Expected(chain, n + 1, Account(p, h))
  {
    assert Lookup(db, Account(p, h)) == Expected(chain, n, Account(p, h));
    LookupIsRecorded(db, chain, n, p, n - 1);
  }

  lemma NextEntry(db: Ledger, chain: Chain, n: nat, k: Key)
    requires n < |chain| && Reflects(db, chain, n)
    ensures Lookup(Indexed(db, n, chain[n]), k) == Expected(chain, n + 1, k)
  {
    if k.Account? {
      NextAccountEntry(db, chain, n, k.pair, k.height);
    } else {
      assert Lookup(db, k) == Expected(chain, n, k);
    }
  }

  /** Storing the next block takes the ledger from n blocks to n + 1. */
  lemma NextBlock(db: Ledger, chain: Chain, n: nat)
    requires n < |chain| && Reflects(db, chain, n)
    ensures Reflects(Indexed(db, n, chain[n]), chain, n + 1)
  {
    forall k
      ensures Lookup(Indexed(db, n, chain[n]), k) == Expected(chain, n + 1, k)
    {
      NextEntry(db, chain, n, k);
    }
  }

  lemma EmptyReflects(chain: Chain)
    ensures Reflects(imap[], chain, 0)
  {
  }

  lemma {:induction false} CleanReflects(chain: Chain, n: nat)
    requires n <= |chain|
    ensures Reflects(Clean(chain, n), chain, n)
  {
    if n == 0 {
      EmptyReflects(chain);
    } else {
      CleanReflects(chain, n - 1);
      NextBlock(Clean(chain, n - 1), chain, n - 1);
    }
  }

  // Storing a block again

  ghost predicate DistinctHashes(chain: Chain) {
    forall g, h :: 0 <= g < h < |chain| ==> chain[g].hash != chain[h].hash
  }

  lemma AgainEntry(db: Ledger, chain: Chain, n: nat, j: nat, k: Key)
    requires j < n <= |chain| && Reflects(db, chain, n)
    requires j == n - 1 || DistinctHashes(chain)
    ensures k != Marker ==> Lookup(Indexed(db, j, chain[j]), k) == Lookup(db, k)
  {
    assert Lookup(db, k) == Expected(chain, n, k);
    if k.Account? && Writes(chain[j], j, k) {
      LookupIsRecorded(db, chain, n, k.pair, j - 1);
    }
  }

  /** Storing any indexed block again moves the height marker and changes nothing else. */
  lemma StoredAgain(db: Ledger, chain: Chain, n: nat, j: nat)
    requires j < n <= |chain| && Reflects(db, chain, n)
    requires j == n - 1 || DistinctHashes(chain)
    ensures Indexed(db, j, chain[j]) == db[Marker := Raw(PutUint32(j))]
  {
    var again, moved := Indexed(db, j, chain[j]), db[Marker := Raw(PutUint32(j))];
    forall k
      ensures Lookup(again, k) == Lookup(moved, k)
    {
      AgainEntry(db, chain, n, j, k);
    }
    SameLookups(again, moved);
  }

  /** In particular, storing the latest block again changes nothing at all. */
  lemma StoredAgainLatest(db: Ledger, chain: Chain, n: nat)
    requires 0 < n <= |chain| && Reflects(db, chain, n)
    ensures Indexed(db, n - 1, chain[n - 1]) == db
  {
    StoredAgain(db, chain, n, n - 1);
    assert Lookup(db, Marker) == Expected(chain, n, Marker);
  }

  // Signs

  /** No running total up to a height is negative. */
  ghost predicate NeverNegative(chain: Chain, p: Pair, h: int)
    requires h < |chain|
  {
    forall g :: 0 <= g <= h ==> Running(chain, p, g) >= 0
  }

  /**
   A recorded amount is never below the running total, and is equal to it exactly if no running total
   up to its height was negative: once a sign is lost, all later amounts of the pair are too high.
   */
  lemma {:induction false} RecordedIsRunning(chain: Chain, p: Pair, h: int)
    requires h < |chain|
    ensures Recorded(chain, p, h) >= Running(chain, p, h)
    ensures Recorded(chain, p, h) == Running(chain, p, h) <==> NeverNegative(chain, p, h)
    decreases h + 1
  {
    if h >= 0 {
      RecordedIsRunning(chain, p, h - 1);
      assert NeverNegative(chain, p, h) <==> NeverNegative(chain, p, h - 1) && Running(chain, p, h) >= 0;
    }
  }

  /** A block with one transaction that burns 1. */
  function BurnOfOne(hash: Hash, tx: SourceTx, contract: Address, from: Address): SourceBlock {
    SourceBlock(hash, 0, [tx], [Notice(tx.hash, false, [Event(contract, Some(Decoded(1, from, NULL, false)))])])
  }

  lemma BurnDiffs(tokens: set<Address>, hash: Hash, tx: SourceTx, contract: Address, from: Address)
    requires contract in tokens && from != NULL
    ensures Digest(tokens, BurnOfOne(hash, tx, contract, from)).diffs == map[Pair(from, contract) := -1]
  {
    var src := BurnOfOne(hash, tx, contract, from);
    var shares := Shares(tokens, src.txs, src.notices);
    var m := Move(contract, from, NULL, 1, false);
    assert Kept(tokens, tx.payer, false, src.notices[0].events, false) == [m];
    assert shares == [Share(0, false, [m])];
    assert AllMoves(shares) == [m];
    EnteredOne(map[], m);
  }

  /** An input on which a balance is wrong: if the first block burns 1, the store answers 1, not -1. */
  lemma NegativeTotalDamaged(tokens: set<Address>, hash: Hash, tx: SourceTx, contract: Address, from: Address)
    requires contract in tokens && from != NULL
    ensures var chain, p := [Digest(tokens, BurnOfOne(hash, tx, contract, from))], Pair(from, contract);
            Running(chain, p, 0) == -1 && BalanceAt(Clean(chain, 1), p, 0) == 1
  {
    var chain: Chain, p := [Digest(tokens, BurnOfOne(hash, tx, contract, from))], Pair(from, contract);
    BurnDiffs(tokens, hash, tx, contract, from);
    assert Recorded(chain, p, -1) == 0;
    assert Recorded(chain, p, 0) == 1;
    CleanReflects(chain, 1);
    LookupIsRecorded(Clean(chain, 1), chain, 1, p, 0);
  }
}
