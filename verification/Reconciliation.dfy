/**
 Reconciliation: in every run of the server, what the balance endpoint answers agrees with
 the operations the block endpoint reports.
 */
module Reconciliation {
  import opened AccountService
  import opened Addresses
  import opened BlockService
  import opened Blocks
  import opened ByteStrings
  import opened Currencies
  import opened Errors
  import opened Index
  import opened Indexer
  import opened KeptEvents
  import opened Keys
  import opened Lexinum
  import opened Numbers
  import opened Operations
  import opened Runs
  import opened Steps
  import opened Stores
  import opened Transfers
  import opened Wrappers

  /** What the transactions of a block report for a pair. */
  function ViewsEffect(views: seq<TxView>, p: Pair): int {
    if views == [] then 0 else ViewsEffect(views[..|views| - 1], p) + OpsEffect(views[|views| - 1].operations, p)
  }

  ghost predicate Known(tokens: Tokens, ms: seq<Move>) {
    forall m :: m in ms ==> m.contract in tokens
  }

  lemma KeptKnown(tokens: Tokens, payer: Address, failed: bool, events: seq<Event>)
    ensures Known(tokens, Kept(tokens.Keys, payer, failed, events, false))
  {
    var ms := Kept(tokens.Keys, payer, failed, events, false);
    var g := GasAtMostOnce(tokens.Keys, payer, failed, events);
    forall m | m in ms
      ensures m.contract in tokens
    {
      var j :| 0 <= j < |ms| && ms[j] == m;
      assert j != g ==> IsPlain(tokens.Keys, failed, ms[j]);
    }
  }

  lemma {:induction false} TxMovesKnown(tokens: Tokens, shares: seq<Share>, i: nat)
    requires forall k :: 0 <= k < |shares| ==> Known(tokens, shares[k].moves)
    ensures Known(tokens, TxMoves(shares, i))
    decreases |shares|
  {
    if shares != [] {
      TxMovesKnown(tokens, shares[..|shares| - 1], i);
      assert Known(tokens, shares[|shares| - 1].moves);
    }
  }

  lemma OneMoreView(tokens: Tokens, stored: seq<StoredTx>, n: nat, p: Pair)
    requires 0 < n <= |stored|
    requires TxViews(tokens, stored[..n - 1]).Ok? && TxOperations(tokens, stored[n - 1].transfers).Ok?
    ensures TxViews(tokens, stored[..n]).Ok?
    ensures ViewsEffect(TxViews(tokens, stored[..n]).value, p)
         == ViewsEffect(TxViews(tokens, stored[..n - 1]).value, p)
            + OpsEffect(TxOperations(tokens, stored[n - 1].transfers).value, p)
  {
    assert stored[..n][..n - 1] == stored[..n - 1];
    var views := TxViews(tokens, stored[..n - 1]).value;
    var last := TxView(stored[n - 1].hash, TxOperations(tokens, stored[n - 1].transfers).value);
    assert (views + [last])[..|views|] == views;
  }

  lemma {:induction false} StoredViews(tokens: Tokens, txs: seq<SourceTx>, shares: seq<Share>, n: nat, p: Pair)
    requires ValidTokens(tokens) && n <= |txs|
    requires forall i: nat :: Known(tokens, TxMoves(shares, i))
    ensures var views := TxViews(tokens, StoredTxs(txs, shares)[..n]);
            views.Ok? && ViewsEffect(views.value, p) == StoredEffect(shares, n, p)
    decreases n
  {
    if n > 0 {
      StoredViews(tokens, txs, shares, n - 1, p);
      StoredTxEffect(tokens, TxMoves(shares, n - 1), p);
      OneMoreView(tokens, StoredTxs(txs, shares), n, p);
    }
  }

  lemma SharesKnown(tokens: Tokens, txs: seq<SourceTx>, notices: seq<Notice>)
    requires notices == [] || txs != []
    ensures forall s :: s in Shares(tokens.Keys, txs, notices) ==> s.tx < |txs| && Known(tokens, s.moves)
  {
    forall k | 0 <= k < |notices|
      ensures Known(tokens, NoticeShare(tokens.Keys, txs, notices[k]).moves)
    {
      KeptKnown(tokens, txs[Offset(txs, notices[k].txHash)].payer, notices[k].failed, notices[k].events);
    }
  }

  lemma SharesReport(tokens: Tokens, txs: seq<SourceTx>, shares: seq<Share>, p: Pair)
    requires ValidTokens(tokens)
    requires forall s :: s in shares ==> s.tx < |txs| && Known(tokens, s.moves)
    ensures var views := TxViews(tokens, StoredTxs(txs, shares));
            views.Ok? && ViewsEffect(views.value, p) == TotalEffect(AllMoves(shares), p)
  {
    forall i: nat
      ensures Known(tokens, TxMoves(shares, i))
    {
      TxMovesKnown(tokens, shares, i);
    }
    StoredViews(tokens, txs, shares, |txs|, p);
    assert StoredTxs(txs, shares)[..|txs|] == StoredTxs(txs, shares);
    SharesPartition(shares, |txs|, p);
  }

  /** The record of a block always reads back, and reports the differences that were indexed for the block. */
  lemma DigestReports(tokens: Tokens, src: SourceBlock, p: Pair)
    requires ValidTokens(tokens) && WellFormed(src)
    ensures var bs := Digest(tokens.Keys, src);
            var views := TxViews(tokens, bs.block.txs);
            views.Ok? && ViewsEffect(views.value, p) == DiffOf(bs, p)
  {
    SharesKnown(tokens, src.txs, src.notices);
    SharesReport(tokens, src.txs, Shares(tokens.Keys, src.txs, src.notices), p);
    TableMeaning(MovesOf(tokens.Keys, src), p);
  }

  /** The sum of what the stored blocks 0 to h report for a pair. */
  ghost function Reported(db: Ledger, tokens: Tokens, p: Pair, h: int): int
    requires h < TWO32 && Shaped(db)
    decreases h + 1
  {
    if h < 0 || BlockAt(h) !in db then 0
    else
      Reported(db, tokens, p, h - 1)
      + (match TxViews(tokens, db[BlockAt(h)].block.txs)
         case Err(_) => 0
         case Ok(views) => ViewsEffect(views, p))
  }

  lemma {:induction false} ReportedIsRunning(
    db: Ledger, tokens: Tokens, blocks: seq<SourceBlock>, chain: Chain, n: nat, p: Pair, h: int
  )
    requires ValidTokens(tokens) && SourceChain(blocks)
    requires chain == ChainOf(tokens.Keys, blocks) && h < n <= |chain| && Reflects(db, chain, n) && Shaped(db)
    ensures Reported(db, tokens, p, h) == Running(chain, p, h)
    decreases h + 1
  {
    if h >= 0 {
      ReportedIsRunning(db, tokens, blocks, chain, n, p, h - 1);
      assert Lookup(db, BlockAt(h)) == Expected(chain, n, BlockAt(h));
      DigestReports(tokens, blocks[h], p);
    }
  }

  /** No sum of reported operations up to a height is negative. */
  ghost predicate ReportsNonNegative(db: Ledger, tokens: Tokens, p: Pair, h: uint32)
    requires Shaped(db)
  {
    forall g :: 0 <= g <= h ==> Reported(db, tokens, p, g) >= 0
  }

  lemma SameSigns(db: Ledger, tokens: Tokens, blocks: seq<SourceBlock>, chain: Chain, n: nat, p: Pair, h: uint32)
    requires ValidTokens(tokens) && SourceChain(blocks)
    requires chain == ChainOf(tokens.Keys, blocks) && h < n <= |chain| && Reflects(db, chain, n) && Shaped(db)
    ensures ReportsNonNegative(db, tokens, p, h) <==> NeverNegative(chain, p, h)
  {
    forall g | 0 <= g <= h
      ensures Reported(db, tokens, p, g) == Running(chain, p, g)
    {
      ReportedIsRunning(db, tokens, blocks, chain, n, p, g);
    }
  }

  /**
   For every run over the blocks of a node, every pair and every stored height h: the balance at h is never
   below the sum of the reported operations, and is that sum exactly if no sum up to h is negative.
   */
  lemma Reconciles(
    tokens: Tokens, blocks: seq<SourceBlock>, chain: Chain, run: seq<System>, i: nat, p: Pair, h: uint32
  )
    requires ValidTokens(tokens) && SourceChain(blocks)
    requires chain == ChainOf(tokens.Keys, blocks) && IsRun(chain, run) && i < |run| && h < Count(run[i].db)
    ensures Shaped(run[i].db) && BalanceAt(run[i].db, p, h) >= Reported(run[i].db, tokens, p, h)
    ensures BalanceAt(run[i].db, p, h) == Reported(run[i].db, tokens, p, h)
       <==> ReportsNonNegative(run[i].db, tokens, p, h)
  {
    RunShaped(chain, run, i);
    RunKeepsInv(chain, run, i);
    IndexRefinement(chain, run, i, p, h);
    SameSigns(run[i].db, tokens, blocks, chain, Count(run[i].db), p, h);
    ReportedIsRunning(run[i].db, tokens, blocks, chain, Count(run[i].db), p, h);
  }

  /** The block before, or block 0 itself. */
  function ParentIn(chain: Chain, h: uint32): Identity
    requires h < |chain|
  {
    if h == 0 then Identity(chain[0].hash, 0) else Identity(chain[h - 1].hash, h - 1)
  }

  /** The whole answer about block h, from the chain alone. */
  function Served(tokens: Tokens, chain: Chain, h: uint32): Result<BlockView, ApiError>
    requires h < |chain|
  {
    match TxViews(tokens, chain[h].block.txs)
    case Err(e) => Err(e)
    case Ok(views) =>
      Ok(BlockView(Identity(chain[h].hash, h), ParentIn(chain, h), chain[h].block.timestamp * 1000, views))
  }

  /** The transactions of a block in order, each with its hash and the operations of what was kept for it. */
  ghost predicate ShowsTxs(views: seq<TxView>, tokens: Tokens, src: SourceBlock) {
    && |views| == |src.txs|
    && forall i :: 0 <= i < |src.txs| ==>
                     && views[i].hash == src.txs[i].hash
                     && TxOperations(tokens, StoredForms(Collected(tokens.Keys, src.txs, src.notices, i)))
                        == Ok(views[i].operations)
  }

  /** Its hash, height, parent and time in milliseconds. */
  ghost predicate ShowsHead(view: BlockView, blocks: seq<SourceBlock>, h: uint32)
    requires h < |blocks|
  {
    && view.id == Identity(blocks[h].hash, h)
    && view.parent == (if h == 0 then view.id else Identity(blocks[h - 1].hash, h - 1))
    && view.timestamp == 1000 * blocks[h].timestamp
  }

  lemma ServedTx(tokens: Tokens, src: SourceBlock, views: seq<TxView>, i: nat)
    requires WellFormed(src) && i < |src.txs|
    requires TxViews(tokens, Digest(tokens.Keys, src).block.txs) == Ok(views)
    ensures |views| == |src.txs| && views[i].hash == src.txs[i].hash
    ensures TxOperations(tokens, StoredForms(Collected(tokens.Keys, src.txs, src.notices, i)))
         == Ok(views[i].operations)
  {
    RecordMeans(tokens.Keys, src, i);
    TxViewsAt(tokens, Digest(tokens.Keys, src).block.txs, i);
  }

  lemma ServedNone(tokens: Tokens, src: SourceBlock, views: seq<TxView>)
    requires WellFormed(src) && src.txs == []
    requires TxViews(tokens, Digest(tokens.Keys, src).block.txs) == Ok(views)
    ensures views == []
  {
    assert Digest(tokens.Keys, src).block.txs == [];
  }

  lemma ServedTxs(tokens: Tokens, src: SourceBlock, views: seq<TxView>)
    requires WellFormed(src) && TxViews(tokens, Digest(tokens.Keys, src).block.txs) == Ok(views)
    ensures ShowsTxs(views, tokens, src)
  {
    forall i | 0 <= i < |src.txs|
      ensures |views| == |src.txs| && views[i].hash == src.txs[i].hash
      ensures TxOperations(tokens, StoredForms(Collected(tokens.Keys, src.txs, src.notices, i)))
           == Ok(views[i].operations)
    {
      ServedTx(tokens, src, views, i);
    }
    if src.txs == [] {
      ServedNone(tokens, src, views);
    } else {
      ServedTx(tokens, src, views, 0);
    }
  }

  lemma DigestHead(tokens: Tokens, blocks: seq<SourceBlock>, chain: Chain, h: uint32)
    requires SourceChain(blocks) && chain == ChainOf(tokens.Keys, blocks) && h < |chain|
    ensures chain[h].hash == blocks[h].hash && chain[h].block.timestamp == blocks[h].timestamp
  {
  }

  lemma ServedFields(tokens: Tokens, chain: Chain, h: uint32, view: BlockView)
    requires h < |chain| && Served(tokens, chain, h) == Ok(view)
    ensures view.id == Identity(chain[h].hash, h)
    ensures view.parent == if h == 0 then view.id else Identity(chain[h - 1].hash, h - 1)
    ensures view.timestamp == 1000 * chain[h].block.timestamp
    ensures TxViews(tokens, chain[h].block.txs) == Ok(view.txs)
  {
  }

  lemma ServedHead(tokens: Tokens, blocks: seq<SourceBlock>, chain: Chain, h: uint32, view: BlockView)
    requires SourceChain(blocks) && chain == ChainOf(tokens.Keys, blocks) && h < |chain|
    requires Served(tokens, chain, h) == Ok(view)
    ensures ShowsHead(view, blocks, h)
  {
    ServedFields(tokens, chain, h, view);
    DigestHead(tokens, blocks, chain, h);
    if h > 0 {
      DigestHead(tokens, blocks, chain, h - 1);
    }
  }

  lemma ServedBody(tokens: Tokens, blocks: seq<SourceBlock>, chain: Chain, h: uint32, view: BlockView)
    requires SourceChain(blocks) && chain == ChainOf(tokens.Keys, blocks) && h < |chain|
    requires Served(tokens, chain, h) == Ok(view)
    ensures ShowsTxs(view.txs, tokens, blocks[h])
  {
    ServedFields(tokens, chain, h, view);
    assert chain[h] == Digest(tokens.Keys, blocks[h]);
    ServedTxs(tokens, blocks[h], view.txs);
  }

  lemma ParentFound(db: Ledger, chain: Chain, n: nat, h: uint32)
    requires h < n <= |chain| && Reflects(db, chain, n) && Shaped(db) && DistinctHashes(chain)
    ensures Parent(db, Identity(chain[h].hash, h)) == Ok(ParentIn(chain, h))
  {
    if h > 0 {
      BlockEntries(db, chain, n, h - 1, ZERO_HASH);
    }
  }

  lemma NamedIsServed(
    db: Ledger, n: nat, db': Ledger, n': nat, tokens: Tokens, chain: Chain,
    first: uint32, second: uint32, pid: Option<PartialId>, h: uint32
  )
    requires n <= n' <= |chain| && Reflects(db, chain, n) && Reflects(db', chain, n')
    requires Shaped(db) && Shaped(db') && DistinctHashes(chain)
    requires var named := Pinned(pid, first);
             h < n && Names(named, chain, h) && (named.value.index.Some? ==> h <= second)
    ensures AnswerAcross(first, second, db, db', tokens, pid) == Served(tokens, chain, h)
  {
    PinnedAcross(first, second, db, pid, true);
    NamedIsFound(db, chain, n, first, second, Pinned(pid, first), h, true);
    ParentFound(db', chain, n', h);
  }

  /**
   The request is about block h, and can be answered when the height is read in states s and then s', and the
   block is looked up in s''; a request that names no block is about the height that is read first.
   */
  ghost predicate Answerable(pid: Option<PartialId>, chain: Chain, s: System, s': System, s'': System, h: uint32) {
    var named := Pinned(pid, Visible(s));
    h < Count(s''.db) <= |chain| && Names(named, chain, h) && (named.value.index.Some? ==> h <= Visible(s'))
  }

  lemma ReflectedAt(chain: Chain, run: seq<System>, i: nat)
    requires IsRun(chain, run) && i < |run|
    ensures Count(run[i].db) <= |chain| && Reflects(run[i].db, chain, Count(run[i].db)) && Shaped(run[i].db)
  {
    RunKeepsInv(chain, run, i);
    RunShaped(chain, run, i);
  }

  /**
   The block endpoint, asked by height, by hash, by both or for the latest block: with the height read in states a
   and b, the block looked up in c and its parent in d, and any steps in between, it serves every stored block, by
   height only up to the height in memory. The answer is determined by the chain, so it is the same ever after:
   the block's identifier, its parent's, and transactions whose operations report the differences of the block.
   */
  lemma EndpointReports(
    tokens: Tokens, blocks: seq<SourceBlock>, chain: Chain, run: seq<System>, a: nat, b: nat, c: nat, d: nat,
    pid: Option<PartialId>, h: uint32, p: Pair
  )
    requires ValidTokens(tokens) && SourceChain(blocks)
    requires chain == ChainOf(tokens.Keys, blocks) && DistinctHashes(chain)
    requires IsRun(chain, run) && a <= b <= c <= d < |run| && Answerable(pid, chain, run[a], run[b], run[c], h)
    ensures Shaped(run[c].db) && Shaped(run[d].db)
    ensures AnswerAcross(Visible(run[a]), Visible(run[b]), run[c].db, run[d].db, tokens, pid)
         == Served(tokens, chain, h)
    ensures var answer := Served(tokens, chain, h);
            && answer.Ok? && ViewsEffect(answer.value.txs, p) == DiffOf(chain[h], p)
            && ShowsHead(answer.value, blocks, h) && ShowsTxs(answer.value.txs, tokens, blocks[h])
  {
    ReflectedAt(chain, run, c);
    ReflectedAt(chain, run, d);
    RunIsMonotone(chain, run, c, d);
    NamedIsServed(run[c].db, Count(run[c].db), run[d].db, Count(run[d].db), tokens, chain, Visible(run[a]),
                  Visible(run[b]), pid, h);
    DigestReports(tokens, blocks[h], p);
    ServedHead(tokens, blocks, chain, h, Served(tokens, chain, h).value);
    ServedBody(tokens, blocks, chain, h, Served(tokens, chain, h).value);
  }

  /** And it serves nothing else: a request is answered exactly if there is such a block. */
  lemma EndpointAnswers(
    tokens: Tokens, blocks: seq<SourceBlock>, chain: Chain, run: seq<System>, a: nat, b: nat, c: nat, d: nat,
    pid: Option<PartialId>
  )
    requires ValidTokens(tokens) && SourceChain(blocks)
    requires chain == ChainOf(tokens.Keys, blocks) && DistinctHashes(chain)
    requires IsRun(chain, run) && a <= b <= c <= d < |run|
    ensures Shaped(run[c].db) && Shaped(run[d].db)
    ensures AnswerAcross(Visible(run[a]), Visible(run[b]), run[c].db, run[d].db, tokens, pid).Ok?
       <==> exists h: uint32 :: Answerable(pid, chain, run[a], run[b], run[c], h)
  {
    var first, second := Visible(run[a]), Visible(run[b]);
    ReflectedAt(chain, run, c);
    ReflectedAt(chain, run, d);
    if AnswerAcross(first, second, run[c].db, run[d].db, tokens, pid).Ok? {
      PinnedAcross(first, second, run[c].db, pid, true);
      var h := FoundIsNamed(run[c].db, chain, Count(run[c].db), first, second, Pinned(pid, first), true);
      assert Answerable(pid, chain, run[a], run[b], run[c], h);
    }
    if h: uint32 :| Answerable(pid, chain, run[a], run[b], run[c], h) {
      EndpointReports(tokens, blocks, chain, run, a, b, c, d, pid, h, Pair(NULL, NULL));
    }
  }

  lemma IntTextInjective(x: int, y: int)
    ensures IntText(x) == IntText(y) <==> x == y
  {
    ParseIntText(x);
    ParseIntText(y);
  }

  /** One line of a balance answer: the contract's currency, and the reported sum if and only if none was negative. */
  ghost predicate Right(line: Balance, db: Ledger, tokens: Tokens, p: Pair, h: uint32)
    requires Shaped(db)
  {
    && p.contract in tokens && line.currency == tokens[p.contract].currency
    && (line.value == IntText(Reported(db, tokens, p, h)) <==> ReportsNonNegative(db, tokens, p, h))
  }

  lemma LineIsRight(
    tokens: Tokens, blocks: seq<SourceBlock>, chain: Chain, run: seq<System>, d: nat, p: Pair, h: uint32
  )
    requires ValidTokens(tokens) && SourceChain(blocks) && p.contract in tokens
    requires chain == ChainOf(tokens.Keys, blocks) && IsRun(chain, run) && d < |run| && h < Count(run[d].db)
    ensures Shaped(run[d].db)
    ensures Right(Balance(tokens[p.contract].currency, IntText(BalanceAt(run[d].db, p, h))), run[d].db, tokens, p, h)
  {
    Reconciles(tokens, blocks, chain, run, d, p, h);
    IntTextInjective(BalanceAt(run[d].db, p, h), Reported(run[d].db, tokens, p, h));
  }

  lemma LinesAreRight(
    tokens: Tokens, blocks: seq<SourceBlock>, chain: Chain, run: seq<System>, d: nat, acct: Address,
    contracts: seq<Address>, h: uint32
  )
    requires ValidTokens(tokens) && SourceChain(blocks) && Registered(tokens, contracts)
    requires chain == ChainOf(tokens.Keys, blocks) && IsRun(chain, run) && d < |run| && h < Count(run[d].db)
    ensures Shaped(run[d].db)
    ensures var lines := BalancesOf(run[d].db, tokens, acct, contracts, h);
            forall k :: 0 <= k < |contracts| ==> Right(lines[k], run[d].db, tokens, Pair(acct, contracts[k]), h)
  {
    RunShaped(chain, run, d);
    forall k | 0 <= k < |contracts|
      ensures var line := BalancesOf(run[d].db, tokens, acct, contracts, h)[k];
              Right(line, run[d].db, tokens, Pair(acct, contracts[k]), h)
    {
      LineIsRight(tokens, blocks, chain, run, d, Pair(acct, contracts[k]), h);
    }
  }

  /** What a balance query answers about a block that is found, for registered contracts and valid currencies. */
  lemma AnswerListed(
    first: uint32, second: uint32, db: Ledger, db': Ledger, tokens: Tokens, pid: Option<PartialId>, acct: Address,
    currencies: seq<Option<Currency>>, contracts: seq<Address>, hash: Hash, h: uint32, hval: Bytes
  )
    requires ValidTokens(tokens) && Shaped(db) && AllValid(tokens, currencies) && Registered(tokens, contracts)
    requires QueryAcross(first, second, db, pid, false) == Ok(BlockInfo(EMPTY_BLOCK, hash, h, hval))
    ensures BalanceAnswer(first, second, db, db', tokens, pid, acct, currencies, contracts)
         == Ok(BalanceResponse(BalancesOf(db', tokens, acct, Wanted(tokens, currencies, contracts), h), hash, h))
  {
    FilterMeans(tokens, currencies);
    var s := Filter(tokens, currencies).value;
    BalancesMean(db', tokens, acct, currencies, if currencies == [] then None else Some(s), contracts, h);
  }

  /**
   From end to end: asked about a block for any registered contracts and valid currencies, the balance endpoint
   lists the wanted contracts in order, each with the sum of the operations that the block endpoint reports up to
   there exactly if no such sum was ever negative. The height is read in states a and b, the block looked up in c,
   the balances in d.
   */
  lemma EndpointBalance(
    tokens: Tokens, blocks: seq<SourceBlock>, chain: Chain, run: seq<System>, a: nat, b: nat, c: nat, d: nat,
    pid: Option<PartialId>, h: uint32, acct: Address, currencies: seq<Option<Currency>>, contracts: seq<Address>
  )
    requires ValidTokens(tokens) && SourceChain(blocks)
    requires chain == ChainOf(tokens.Keys, blocks) && DistinctHashes(chain)
    requires IsRun(chain, run) && a <= b <= c <= d < |run| && Answerable(pid, chain, run[a], run[b], run[c], h)
    requires AllValid(tokens, currencies) && Registered(tokens, contracts)
    ensures Shaped(run[c].db) && Shaped(run[d].db)
    ensures var wanted := Wanted(tokens, currencies, contracts);
            var lines := BalancesOf(run[d].db, tokens, acct, wanted, h);
            && BalanceAnswer(Visible(run[a]), Visible(run[b]), run[c].db, run[d].db, tokens, pid,
                             acct, currencies, contracts)
               == Ok(BalanceResponse(lines, chain[h].hash, h))
            && forall k :: 0 <= k < |wanted| ==> Right(lines[k], run[d].db, tokens, Pair(acct, wanted[k]), h)
  {
    var first, second, wanted := Visible(run[a]), Visible(run[b]), Wanted(tokens, currencies, contracts);
    ReflectedAt(chain, run, c);
    RunIsMonotone(chain, run, c, d);
    PinnedAcross(first, second, run[c].db, pid, false);
    NamedIsFound(run[c].db, chain, Count(run[c].db), first, second, Pinned(pid, first), h, false);
    AnswerListed(first, second, run[c].db, run[d].db, tokens, pid, acct, currencies, contracts,
                 chain[h].hash, h, Encode(h));
    LinesAreRight(tokens, blocks, chain, run, d, acct, wanted, h);
  }

  /**
   The answer to the request that names neither a sub-account nor currencies: the balances in ONT and in ONG, in this
   order, each the reported sum exactly if no such sum was ever negative.
   */
  lemma NativeBalances(
    tokens: Tokens, blocks: seq<SourceBlock>, chain: Chain, run: seq<System>, a: nat, b: nat, c: nat, d: nat,
    pid: Option<PartialId>, h: uint32, acct: Address
  )
    requires ValidTokens(tokens) && SourceChain(blocks) && ONT in tokens && ONG in tokens
    requires chain == ChainOf(tokens.Keys, blocks) && DistinctHashes(chain)
    requires IsRun(chain, run) && a <= b <= c <= d < |run| && Answerable(pid, chain, run[a], run[b], run[c], h)
    ensures Shaped(run[c].db) && Shaped(run[d].db)
    ensures var answer := BalanceAnswer(
                            Visible(run[a]), Visible(run[b]), run[c].db, run[d].db, tokens, pid, acct, [], [ONT, ONG]);
            && answer.Ok? && answer.value.hash == chain[h].hash && answer.value.height == h
            && |answer.value.balances| == 2
            && Right(answer.value.balances[0], run[d].db, tokens, Pair(acct, ONT), h)
            && Right(answer.value.balances[1], run[d].db, tokens, Pair(acct, ONG), h)
  {
    EndpointBalance(tokens, blocks, chain, run, a, b, c, d, pid, h, acct, [], [ONT, ONG]);
    AllWanted(tokens, [ONT, ONG]);
  }
}
