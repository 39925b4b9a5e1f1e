/** The store object (services/store.go): opening it, writing a block, and answering queries. */
module Stores {
  import opened Addresses
  import opened Blocks
  import opened ByteStrings
  import opened Changes
  import opened Currencies
  import opened Errors
  import opened Index
  import opened Keys
  import opened Layout
  import opened Lexinum
  import opened Numbers
  import opened Transfers
  import opened Wrappers
  import opened Writes

  /** Values have the form their readers count on. */
  predicate Fits(k: Key, v: Value) {
    match k
    case BlockAt(_) => v.Record?
    case HashAt(_) => v.Raw? && |v.bytes| == 32
    case HeightOf(_) => v.Raw? && |v.bytes| == 4
    case Marker => v.Raw? && |v.bytes| == 4
    case _ => v.Raw?
  }

  ghost predicate Shaped(ledger: Ledger) {
    forall k :: k in ledger ==> Fits(k, ledger[k])
  }

  lemma IndexedShaped(ledger: Ledger, h: uint32, bs: BlockState)
    requires Shaped(ledger)
    ensures Shaped(Indexed(ledger, h, bs))
  {
  }

  lemma ReflectsShaped(ledger: Ledger, chain: Chain, n: nat)
    requires n <= |chain| && Reflects(ledger, chain, n)
    ensures Shaped(ledger)
  {
    forall k | k in ledger
      ensures Fits(k, ledger[k])
    {
      assert Lookup(ledger, k) == Expected(chain, n, k);
    }
  }

  ghost predicate Holds(db: Database, ledger: Ledger) {
    WellKeyed(db) && LedgerOf(db) == ledger
  }

  // Block identifiers

  /** Hex text of a block hash. */
  datatype HashText = HashHex(hash: Hash) | NotHash(text: string)

  /** types.PartialBlockIdentifier */
  datatype PartialId = PartialId(hash: Option<HashText>, index: Option<int>)

  class BlockId {
    var byHeight: bool
    var hash: Hash
    var height: uint32

    constructor (byHeight: bool, hash: Hash, height: uint32)
      ensures this.byHeight == byHeight && this.hash == hash && this.height == height
    {
      this.byHeight := byHeight;
      this.hash := hash;
      this.height := height;
    }
  }

  datatype BlockInfo = BlockInfo(block: StoredBlock, hash: Hash, height: uint32, hval: Bytes)

  datatype Identity = Identity(hash: Hash, height: uint32)

  /** The block a lookup is about. A zero hash beside a height counts as no hash. */
  ghost function Identify(ledger: Ledger, byHeight: bool, hash: Hash, height: uint32): Result<Identity, ApiError>
    requires Shaped(ledger)
  {
    if byHeight then
      if HashAt(height) !in ledger then Err(UnknownBlockIndex)
      else
        var found := ReadHash(ledger[HashAt(height)].bytes);
        if hash != ZERO_HASH && hash != found then Err(InvalidBlockIdentifier) else Ok(Identity(found, height))
    else
    if HeightOf(hash) !in ledger then Err(UnknownBlockHash)
    else Ok(Identity(hash, Uint32(ledger[HeightOf(hash)].bytes)))
  }

  /** The record under a height; a missing one is a datastore error. */
  ghost function BlockRecord(ledger: Ledger, height: uint32): Result<StoredBlock, ApiError>
    requires Shaped(ledger)
  {
    if BlockAt(height) in ledger then Ok(ledger[BlockAt(height)].block) else Err(Datastore)
  }

  const EMPTY_BLOCK := StoredBlock(0, [])

  ghost function FindBlock(
    ledger: Ledger, byHeight: bool, hash: Hash, height: uint32, withBlock: bool
  ): Result<BlockInfo, ApiError>
    requires Shaped(ledger)
  {
    match Identify(ledger, byHeight, hash, height)
    case Err(e) => Err(e)
    case Ok(id) =>
      if !withBlock then Ok(BlockInfo(EMPTY_BLOCK, id.hash, id.height, Encode(id.height)))
      else
        match BlockRecord(ledger, id.height)
        case Err(e) => Err(e)
        case Ok(block) => Ok(BlockInfo(block, id.hash, id.height, Encode(id.height)))
  }

  lemma FoundWithoutRecord(ledger: Ledger, byHeight: bool, hash: Hash, height: uint32)
    requires Shaped(ledger)
    ensures match Identify(ledger, byHeight, hash, height)
            case Err(e) => FindBlock(ledger, byHeight, hash, height, false) == Err(e)
            case Ok(id) =>
              var found := FindBlock(ledger, byHeight, hash, height, false);
              found.Ok? && found.value.hash == id.hash && found.value.height == id.height
  {
  }

  /** A request's identifier, resolved to a height or a hash. */
  datatype Target = Target(byHeight: bool, hash: Hash, height: uint32)

  function Resolve(pid: Option<PartialId>, latest: uint32): Result<Target, ApiError> {
    if pid.None? || (pid.value.hash.None? && pid.value.index.None?) then Ok(Target(true, ZERO_HASH, latest))
    else if pid.value.hash.Some? && pid.value.hash.value.NotHash? then Err(InvalidBlockHash)
    else
      var hash := if pid.value.hash.Some? then pid.value.hash.value.hash else ZERO_HASH;
      if pid.value.index.None? then Ok(Target(false, hash, 0))
      else if pid.value.index.value < 0 || pid.value.index.value > 0xffff_ffff then Err(InvalidBlockIndex)
      else Ok(Target(true, hash, pid.value.index.value))
  }

  /** Every form of identifier: hash and index left out or given, well-formed or not. */
  lemma Resolved(hash: Option<HashText>, index: Option<int>, latest: uint32)
    ensures Resolve(None, latest) == Ok(Target(true, 0, latest))
    ensures var r := Resolve(Some(PartialId(hash, index)), latest);
            match (hash, index)
            case (None, None) => r == Ok(Target(true, 0, latest))
            case (Some(NotHash(_)), _) => r == Err(InvalidBlockHash)
            case (Some(HashHex(x)), None) => r == Ok(Target(false, x, 0))
            case (_, Some(i)) =>
              if i < 0 || i >= 0x1_0000_0000 then r == Err(InvalidBlockIndex)
              else r == Ok(Target(true, if hash.None? then 0 else hash.value.hash, i))
  {
  }

  /**
   What a block query answers. The height in memory is read twice, first for a request that names no block,
   then to refuse heights above it; after that comes the snapshot of what is stored.
   */
  ghost function QueryAcross(
    first: uint32, second: uint32, ledger: Ledger, pid: Option<PartialId>, withBlock: bool
  ): Result<BlockInfo, ApiError>
    requires Shaped(ledger)
  {
    match Resolve(pid, first)
    case Err(e) => Err(e)
    case Ok(t) =>
      if t.byHeight && t.height > second then Err(UnknownBlockIndex)
      else FindBlock(ledger, t.byHeight, t.hash, t.height, withBlock)
  }

  /** The same when nothing happens in between. */
  ghost function Query(
    ledger: Ledger, latest: uint32, pid: Option<PartialId>, withBlock: bool
  ): Result<BlockInfo, ApiError>
    requires Shaped(ledger)
  {
    QueryAcross(latest, latest, ledger, pid, withBlock)
  }

  datatype Balance = Balance(currency: Currency, value: string)

  datatype BalanceResponse = BalanceResponse(balances: seq<Balance>, hash: Hash, height: uint32)

  /** The contracts of the currencies a balance request names; the first bad one decides the error. */
  function Filter(tokens: Tokens, currencies: seq<Option<Currency>>): Result<set<Address>, ApiError> {
    if currencies == [] then Ok({})
    else
      var n := |currencies| - 1;
      match Filter(tokens, currencies[..n])
      case Err(e) => Err(e)
      case Ok(s) =>
        match ValidateCurrency(tokens, currencies[n])
        case Err(e) => Err(e)
        case Ok(info) => Ok(s + {info.contract})
  }

  /** The balances of the listed contracts that pass the filter; an unknown contract is an error. */
  ghost function Balances(
    ledger: Ledger, tokens: Tokens, acct: Address, filter: Option<set<Address>>, contracts: seq<Address>, h: uint32
  ): Result<seq<Balance>, ApiError> {
    if contracts == [] then Ok([])
    else
      var n := |contracts| - 1;
      match Balances(ledger, tokens, acct, filter, contracts[..n], h)
      case Err(e) => Err(e)
      case Ok(bs) =>
        var c := contracts[n];
        if c !in tokens then Err(CurrencyNotDefined)
        else if filter.Some? && c !in filter.value then Ok(bs)
        else Ok(bs + [Balance(tokens[c].currency, IntText(BalanceAt(ledger, Pair(acct, c), h)))])
  }

  /** What a balance query answers, when the block and the balances are looked up in different snapshots. */
  ghost function BalanceAnswer(
    first: uint32, second: uint32, ledger: Ledger, later: Ledger, tokens: Tokens, pid: Option<PartialId>,
    acct: Address, currencies: seq<Option<Currency>>, contracts: seq<Address>
  ): Result<BalanceResponse, ApiError>
    requires Shaped(ledger)
  {
    match QueryAcross(first, second, ledger, pid, false)
    case Err(e) => Err(e)
    case Ok(info) =>
      match Filter(tokens, currencies)
      case Err(e) => Err(e)
      case Ok(s) =>
        var filter := if currencies == [] then None else Some(s);
        match Balances(later, tokens, acct, filter, contracts, info.height)
        case Err(e) => Err(e)
        case Ok(bs) => Ok(BalanceResponse(bs, info.hash, info.height))
  }

  class Store {
    var db: Database
    var heightIndexed: Option<uint32>
    var heightSynced: Option<uint32>
    const tokens: Tokens

    ghost predicate Valid()
      reads this
    {
      WellKeyed(db) && Shaped(LedgerOf(db)) && ValidTokens(tokens)
    }

    /** NewStore: the indexed height is the one in the database, if there is one. */
    constructor (disk: Database, tokens: Tokens, synced: uint32)
      requires WellKeyed(disk) && Shaped(LedgerOf(disk)) && ValidTokens(tokens)
      ensures Valid() && db == disk && this.tokens == tokens && heightSynced == Some(synced)
      ensures heightIndexed == (match Lookup(LedgerOf(disk), Marker)
                                case None => None
                                case Some(v) => Some(Uint32(v.bytes)))
    {
      db := disk;
      this.tokens := tokens;
      heightSynced := Some(synced);
      var marker := Encoded(Marker);
      assert marker in disk ==> Fits(Marker, LedgerOf(disk)[Marker]);
      heightIndexed := if marker in disk then Some(Uint32(disk[marker].bytes)) else None;
    }

    function GetHeight(): uint32
      reads this
    {
      if heightIndexed.None? then 0 else heightIndexed.value
    }

    method SetHeight(indexed: uint32, synced: uint32)
      modifies this`heightIndexed, this`heightSynced
      ensures heightIndexed == Some(indexed) && heightSynced == Some(synced)
    {
      heightIndexed := Some(indexed);
      heightSynced := Some(synced);
    }

    /** One change: the pair's entry at the height becomes its previous amount plus the difference. */
    method WriteChange(start: Database, acct: BalanceChange, ghost p: Pair, ghost diff: int, ghost h: uint32)
      returns (txn: Database)
      requires WellKeyed(start) && acct == ChangeOf(p, diff, h)
      ensures Holds(txn, Bumped(LedgerOf(start), p, h, diff))
    {
      var prev := ReadPrevious(start, acct.key, acct.prefix, p, h);
      var balance := BigBytes(prev + acct.diff);
      SetEntry(start, Account(p, h), Raw(balance));
      txn := start[acct.key := Raw(balance)];
    }

    /** The loop over the changes inside the transaction; `pairs` says whose changes they are. */
    method WriteChanges(
      start: Database, changes: seq<BalanceChange>, ghost pairs: seq<Pair>, ghost diffs: Diffs, ghost h: uint32
    ) returns (txn: Database)
      requires WellKeyed(start)
      requires forall p :: p in pairs ==> p in diffs
      requires changes == ChangesOf(pairs, diffs, h)
      ensures Holds(txn, WriteAll(LedgerOf(start), pairs, diffs, h))
    {
      txn := start;
      ghost var origin := LedgerOf(start);
      assert pairs[..0] == [];
      for i := 0 to |changes|
        invariant Holds(txn, WriteAll(origin, pairs[..i], diffs, h))
      {
        WriteAllStep(origin, pairs, diffs, h, i);
        txn := WriteChange(txn, changes[i], pairs[i], diffs[pairs[i]], h);
      }
      assert pairs[..|changes|] == pairs;
    }

    method WriteHeaders(start: Database, block: StoredBlock, hash: Hash, h: uint32, ghost bs: BlockState)
      returns (txn: Database)
      requires WellKeyed(start) && bs.block == block && bs.hash == hash
      ensures WellKeyed(txn) && LedgerOf(txn) == WithHeaders(LedgerOf(start), h, bs)
    {
      txn := start;
      SetEntry(txn, BlockAt(h), Record(block));
      txn := txn[Encoded(BlockAt(h)) := Record(block)];
      SetEntry(txn, HeightOf(hash), Raw(PutUint32(h)));
      txn := txn[Encoded(HeightOf(hash)) := Raw(PutUint32(h))];
      SetEntry(txn, HashAt(h), Raw(HashBytes(hash)));
      txn := txn[Encoded(HashAt(h)) := Raw(HashBytes(hash))];
    }

    method WriteHashes(start: Database, hashes: seq<Hash>) returns (txn: Database)
      requires WellKeyed(start)
      ensures WellKeyed(txn) && LedgerOf(txn) == MarkAll(LedgerOf(start), hashes)
    {
      txn := start;
      assert hashes[..0] == [];
      for i := 0 to |hashes|
        invariant WellKeyed(txn) && LedgerOf(txn) == MarkAll(LedgerOf(start), hashes[..i])
      {
        assert hashes[..i + 1][..i] == hashes[..i];
        SetEntry(txn, Unsigned(hashes[i]), Raw([]));
        txn := txn[Encoded(Unsigned(hashes[i])) := Raw([])];
      }
      assert hashes[..|hashes|] == hashes;
    }

    /**
     setBlock: one transaction, which takes effect as a whole or, on a fault, not at all.
     The changes may come in any order; the new contents do not depend on it.
     */
    method SetBlock(
      block: StoredBlock, changes: seq<BalanceChange>, hashes: seq<Hash>, hash: Hash, height: uint32, synced: uint32,
      fault: bool, ghost pairs: seq<Pair>, ghost diffs: Diffs
    ) returns (ok: bool)
      requires Valid() && Lists(pairs, diffs) && changes == ChangesOf(pairs, diffs, height)
      modifies this
      ensures Valid() && ok == !fault
      ensures ok ==> LedgerOf(db) == Indexed(old(LedgerOf(db)), height, BlockState(block, diffs, hashes, hash))
      ensures ok ==> heightIndexed == Some(height) && heightSynced == Some(synced)
      ensures !ok ==> db == old(db) && heightIndexed == old(heightIndexed) && heightSynced == old(heightSynced)
    {
      ghost var bs := BlockState(block, diffs, hashes, hash);
      var txn := WriteChanges(db, changes, pairs, diffs, height);
      txn := WriteHeaders(txn, block, hash, height, bs);
      txn := WriteHashes(txn, hashes);
      SetEntry(txn, Marker, Raw(PutUint32(height)));
      txn := txn[Encoded(Marker) := Raw(PutUint32(height))];
      SetBlockWrites(LedgerOf(db), pairs, height, bs);
      IndexedShaped(LedgerOf(db), height, bs);
      if fault {
        return false;
      }
      db := txn;
      SetHeight(height, synced);
      return true;
    }

    // Queries

    /** getBlockID, for a request that may leave the identifier out. */
    method GetBlockId(pid: Option<PartialId>) returns (r: Result<BlockId, ApiError>)
      ensures r.Ok? ==> fresh(r.value)
      ensures match Resolve(pid, GetHeight())
              case Err(e) => r == Err(e)
              case Ok(t) => r.Ok? && t == Target(r.value.byHeight, r.value.hash, r.value.height)
    {
      if pid.None? || (pid.value.hash.None? && pid.value.index.None?) {
        var latest := new BlockId(true, ZERO_HASH, GetHeight());
        return Ok(latest);
      }
      var id := new BlockId(false, ZERO_HASH, 0);
      if pid.value.hash.Some? {
        if pid.value.hash.value.NotHash? {
          return Err(InvalidBlockHash);
        }
        id.hash := pid.value.hash.value.hash;
      }
      if pid.value.index.Some? {
        var idx := pid.value.index.value;
        if idx < 0 || idx > 0xffff_ffff {
          return Err(InvalidBlockIndex);
        }
        id.byHeight := true;
        id.height := idx;
      }
      return Ok(id);
    }

    /** getBlockInfoRaw: completes the identifier it is given, from one snapshot. */
    method GetBlockInfoRaw(id: BlockId, withBlock: bool) returns (r: Result<BlockInfo, ApiError>)
      requires Valid()
      modifies id
      ensures r == FindBlock(LedgerOf(db), old(id.byHeight), old(id.hash), old(id.height), withBlock)
      ensures r.Ok? ==> id.hash == r.value.hash && id.height == r.value.height
    {
      var block := EMPTY_BLOCK;
      ghost var ledger := LedgerOf(db);
      if id.byHeight {
        var key := Encoded(HashAt(id.height));
        if key !in db {
          return Err(UnknownBlockIndex);
        }
        assert Fits(HashAt(id.height), ledger[HashAt(id.height)]);
        var val := db[key].bytes;
        if id.hash != ZERO_HASH && id.hash != ReadHash(val) {
          return Err(InvalidBlockIdentifier);
        }
        id.hash := ReadHash(val);
      } else {
        var key := Encoded(HeightOf(id.hash));
        if key !in db {
          return Err(UnknownBlockHash);
        }
        assert Fits(HeightOf(id.hash), ledger[HeightOf(id.hash)]);
        id.height := Uint32(db[key].bytes);
      }
      if withBlock {
        var key := Encoded(BlockAt(id.height));
        if key !in db {
          return Err(Datastore);
        }
        assert Fits(BlockAt(id.height), ledger[BlockAt(id.height)]);
        block := db[key].block;
      }
      var hval := EncodeHeight(id.height);
      return Ok(BlockInfo(block, id.hash, id.height, hval));
    }

    /** getBlockInfo: heights above the indexed one are refused, whatever is stored. */
    method GetBlockInfo(pid: Option<PartialId>, withBlock: bool) returns (r: Result<BlockInfo, ApiError>)
      requires Valid()
      ensures r == Query(LedgerOf(db), GetHeight(), pid, withBlock)
    {
      var id := GetBlockId(pid);
      if id.Err? {
        return Err(id.error);
      }
      if id.value.byHeight && id.value.height > GetHeight() {
        return Err(UnknownBlockIndex);
      }
      r := GetBlockInfoRaw(id.value, withBlock);
    }

    /** checkUnsignedTxHash, on the snapshot of the database that it opens */
    static method CheckUnsignedTxHash(view: Database, hash: Hash) returns (known: bool)
      ensures known <==> Unsigned(hash) in LedgerOf(view)
    {
      var key := Encoded(Unsigned(hash));
      known := key in view;
    }

    /** getBalance */
    method GetBalance(pid: Option<PartialId>, acct: Address, currencies: seq<Option<Currency>>, contracts: seq<Address>)
      returns (r: Result<BalanceResponse, ApiError>)
      requires Valid()
      ensures var latest, ledger := GetHeight(), LedgerOf(db);
              r == BalanceAnswer(latest, latest, ledger, ledger, tokens, pid, acct, currencies, contracts)
    {
      var info := GetBlockInfo(pid, false);
      if info.Err? {
        return Err(info.error);
      }
      var filter := CollectFilter(currencies);
      if filter.Err? {
        return Err(filter.error);
      }
      var balances := CollectBalances(
        info.value.height, info.value.hval, acct, if currencies == [] then None else Some(filter.value), contracts);
      if balances.Err? {
        return Err(balances.error);
      }
      return Ok(BalanceResponse(balances.value, info.value.hash, info.value.height));
    }

    method CollectFilter(currencies: seq<Option<Currency>>) returns (r: Result<set<Address>, ApiError>)
      ensures r == Filter(tokens, currencies)
    {
      var filter: set<Address> := {};
      assert currencies[..0] == [];
      for i := 0 to |currencies|
        invariant Filter(tokens, currencies[..i]) == Ok(filter)
      {
        assert currencies[..i + 1][..i] == currencies[..i];
        var info := ValidateCurrency(tokens, currencies[i]);
        if info.Err? {
          FilterError(tokens, currencies, i + 1);
          return Err(info.error);
        }
        filter := filter + {info.value.contract};
      }
      assert currencies[..|currencies|] == currencies;
      return Ok(filter);
    }

    /** The loop over the contracts: each balance is read under the pair's key at the height. */
    method CollectBalances(
      ghost height: uint32, hval: Bytes, acct: Address, filter: Option<set<Address>>, contracts: seq<Address>
    ) returns (r: Result<seq<Balance>, ApiError>)
      requires Valid() && hval == Encode(height)
      ensures r == Balances(LedgerOf(db), tokens, acct, filter, contracts, height)
    {
      var balances: seq<Balance> := [];
      assert contracts[..0] == [];
      for i := 0 to |contracts|
        invariant Balances(LedgerOf(db), tokens, acct, filter, contracts[..i], height) == Ok(balances)
      {
        assert contracts[..i + 1][..i] == contracts[..i];
        var contract := contracts[i];
        if contract !in tokens {
          BalancesError(LedgerOf(db), tokens, acct, filter, contracts, height, i + 1);
          return Err(CurrencyNotDefined);
        }
        if filter.Some? && contract !in filter.value {
          continue;
        }
        var prefix := AccountPrefix(Pair(acct, contract));
        var balance := ReadBalance(db, prefix + hval, prefix, Pair(acct, contract), height);
        balances := balances + [Balance(tokens[contract].currency, IntText(balance))];
      }
      assert contracts[..|contracts|] == contracts;
      return Ok(balances);
    }
  }

  /** An error stays the error however the list goes on. */
  lemma {:induction false} FilterError(tokens: Tokens, currencies: seq<Option<Currency>>, i: nat)
    requires i <= |currencies| && Filter(tokens, currencies[..i]).Err?
    ensures Filter(tokens, currencies) == Filter(tokens, currencies[..i])
    decreases |currencies|
  {
    if i == |currencies| {
      assert currencies[..i] == currencies;
    } else {
      assert currencies[..|currencies| - 1][..i] == currencies[..i];
      FilterError(tokens, currencies[..|currencies| - 1], i);
    }
  }

  lemma {:induction false} BalancesError(
    ledger: Ledger, tokens: Tokens, acct: Address, filter: Option<set<Address>>, contracts: seq<Address>, h: uint32,
    i: nat
  )
    requires i <= |contracts| && Balances(ledger, tokens, acct, filter, contracts[..i], h).Err?
    ensures Balances(ledger, tokens, acct, filter, contracts, h)
         == Balances(ledger, tokens, acct, filter, contracts[..i], h)
    decreases |contracts|
  {
    if i == |contracts| {
      assert contracts[..i] == contracts;
    } else {
      assert contracts[..|contracts| - 1][..i] == contracts[..i];
      BalancesError(ledger, tokens, acct, filter, contracts[..|contracts| - 1], h, i);
    }
  }
}
