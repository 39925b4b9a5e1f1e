/** The block endpoint (services/block_service.go). */
module BlockService {
  import opened Blocks
  import opened Currencies
  import opened Errors
  import opened Index
  import opened Keys
  import opened Layout
  import opened Numbers
  import opened Operations
  import opened Stores
  import opened Wrappers

  /** types.Transaction */
  datatype TxView = TxView(hash: Hash, operations: seq<Operation>)

  /** types.Block */
  datatype BlockView = BlockView(id: Identity, parent: Identity, timestamp: int, txs: seq<TxView>)

  /** The transactions of a record; the first bad one decides the error. */
  function TxViews(tokens: Tokens, txs: seq<StoredTx>): Result<seq<TxView>, ApiError> {
    if txs == [] then Ok([])
    else
      match TxViews(tokens, txs[..|txs| - 1])
      case Err(e) => Err(e)
      case Ok(views) =>
        match TxOperations(tokens, txs[|txs| - 1].transfers)
        case Err(e) => Err(e)
        case Ok(ops) => Ok(views + [TxView(txs[|txs| - 1].hash, ops)])
  }

  /** One view for each transaction, in order, with its hash and with the operations of its transfers. */
  lemma {:induction false} TxViewsAt(tokens: Tokens, txs: seq<StoredTx>, i: nat)
    requires i < |txs| && TxViews(tokens, txs).Ok?
    ensures var views := TxViews(tokens, txs).value;
            && |views| == |txs| && views[i].hash == txs[i].hash
            && TxOperations(tokens, txs[i].transfers) == Ok(views[i].operations)
    decreases |txs|
  {
    if |txs| > 1 {
      TxViewsAt(tokens, txs[..|txs| - 1], if i < |txs| - 1 then i else 0);
    }
  }

  lemma {:induction false} TxViewsError(tokens: Tokens, txs: seq<StoredTx>, i: nat)
    requires i <= |txs| && TxViews(tokens, txs[..i]).Err?
    ensures TxViews(tokens, txs) == TxViews(tokens, txs[..i])
    decreases |txs|
  {
    if i == |txs| {
      assert txs[..i] == txs;
    } else {
      assert txs[..|txs| - 1][..i] == txs[..i];
      TxViewsError(tokens, txs[..|txs| - 1], i);
    }
  }

  method ViewTxs(tokens: Tokens, txs: seq<StoredTx>) returns (r: Result<seq<TxView>, ApiError>)
    ensures r == TxViews(tokens, txs)
  {
    var views: seq<TxView> := [];
    assert txs[..0] == [];
    for i := 0 to |txs|
      invariant TxViews(tokens, txs[..i]) == Ok(views)
    {
      assert txs[..i + 1][..i] == txs[..i];
      var dst := TransformTransaction(tokens, txs[i]);
      if dst.Err? {
        TxViewsError(tokens, txs, i + 1);
        return Err(dst.error);
      }
      views := views + [TxView(txs[i].hash, dst.value)];
    }
    assert txs[..|txs|] == txs;
    return Ok(views);
  }

  /** The parent of a block; block 0 is its own. */
  ghost function Parent(ledger: Ledger, id: Identity): Result<Identity, ApiError>
    requires Shaped(ledger)
  {
    if id.height == 0 then Ok(id) else Identify(ledger, true, ZERO_HASH, id.height - 1)
  }

  ghost function ViewOf(ledger: Ledger, tokens: Tokens, info: BlockInfo): Result<BlockView, ApiError>
    requires Shaped(ledger)
  {
    match Parent(ledger, Identity(info.hash, info.height))
    case Err(e) => Err(e)
    case Ok(parent) =>
      match TxViews(tokens, info.block.txs)
      case Err(e) => Err(e)
      case Ok(txs) => Ok(BlockView(Identity(info.hash, info.height), parent, info.block.timestamp * 1000, txs))
  }

  /** What the endpoint answers, when the block and its parent are looked up in different snapshots. */
  ghost function AnswerAcross(
    first: uint32, second: uint32, ledger: Ledger, later: Ledger, tokens: Tokens, pid: Option<PartialId>
  ): Result<BlockView, ApiError>
    requires Shaped(ledger) && Shaped(later)
  {
    match QueryAcross(first, second, ledger, pid, true)
    case Err(e) => Err(e)
    case Ok(info) => ViewOf(later, tokens, info)
  }

  /** The same when nothing happens in between. */
  ghost function BlockAnswer(
    ledger: Ledger, tokens: Tokens, latest: uint32, pid: Option<PartialId>
  ): Result<BlockView, ApiError>
    requires Shaped(ledger)
  {
    AnswerAcross(latest, latest, ledger, ledger, tokens, pid)
  }

  /** A block's identifier by its height alone. */
  method IdentityAt(store: Store, height: uint32) returns (r: Result<Identity, ApiError>)
    requires store.Valid()
    ensures r == Identify(LedgerOf(store.db), true, ZERO_HASH, height)
  {
    FoundWithoutRecord(LedgerOf(store.db), true, ZERO_HASH, height);
    var pid := new BlockId(true, ZERO_HASH, height);
    var pinfo := store.GetBlockInfoRaw(pid, false);
    if pinfo.Err? {
      return Err(pinfo.error);
    }
    return Ok(Identity(pinfo.value.hash, pinfo.value.height));
  }

  method ParentOf(store: Store, id: Identity) returns (r: Result<Identity, ApiError>)
    requires store.Valid()
    ensures r == Parent(LedgerOf(store.db), id)
  {
    if id.height == 0 {
      return Ok(id);
    }
    r := IdentityAt(store, id.height - 1);
  }

  method ViewBlock(store: Store, info: BlockInfo) returns (r: Result<BlockView, ApiError>)
    requires store.Valid()
    ensures r == ViewOf(LedgerOf(store.db), store.tokens, info)
  {
    var id := Identity(info.hash, info.height);
    var parent := ParentOf(store, id);
    if parent.Err? {
      return Err(parent.error);
    }
    var txs := ViewTxs(store.tokens, info.block.txs);
    if txs.Err? {
      return Err(txs.error);
    }
    return Ok(BlockView(id, parent.value, info.block.timestamp * 1000, txs.value));
  }

  /** The block endpoint; it is not served offline. */
  method Block(store: Store, offline: bool, pid: Option<PartialId>) returns (r: Result<BlockView, ApiError>)
    requires store.Valid()
    ensures r == if offline then Err(OfflineMode)
                 else BlockAnswer(LedgerOf(store.db), store.tokens, store.GetHeight(), pid)
  {
    if offline {
      return Err(OfflineMode);
    }
    var info := store.GetBlockInfo(pid, true);
    if info.Err? {
      return Err(info.error);
    }
    r := ViewBlock(store, info.value);
  }
}
