/** The account balance endpoint (services/account_service.go), and what its answers consist of. */
module AccountService {
  import opened Addresses
  import opened Currencies
  import opened Errors
  import opened Index
  import opened Keys
  import opened Layout
  import opened Numbers
  import opened Operations
  import opened Stores
  import opened Wrappers

  // What a list of currencies stands for

  /** Every listed currency passes the check. */
  predicate AllValid(tokens: Tokens, currencies: seq<Option<Currency>>) {
    forall c :: c in currencies ==> ValidateCurrency(tokens, c).Ok?
  }

  /** The token's own currency is on the list. */
  predicate Named(tokens: Tokens, currencies: seq<Option<Currency>>, contract: Address) {
    contract in tokens && Some(tokens[contract].currency) in currencies
  }

  lemma NamedByOne(tokens: Tokens, c: Option<Currency>, contract: Address)
    requires ValidTokens(tokens) && ValidateCurrency(tokens, c).Ok?
    ensures contract == ValidateCurrency(tokens, c).value.contract <==> Named(tokens, [c], contract)
  {
    if contract in tokens {
      OwnCurrencyValid(tokens, contract);
    }
  }

  /**
   The filter is made if and only if every currency on the list is valid, and then it has exactly the
   registered contracts whose own currency is on the list.
   */
  lemma {:induction false} FilterMeans(tokens: Tokens, currencies: seq<Option<Currency>>)
    requires ValidTokens(tokens)
    ensures Filter(tokens, currencies).Ok? <==> AllValid(tokens, currencies)
    ensures Filter(tokens, currencies).Ok? ==>
              forall c :: c in Filter(tokens, currencies).value <==> Named(tokens, currencies, c)
    decreases |currencies|
  {
    if currencies != [] {
      var init, last := currencies[..|currencies| - 1], currencies[|currencies| - 1];
      assert currencies == init + [last];
      FilterMeans(tokens, init);
      if Filter(tokens, currencies).Ok? {
        forall c
          ensures c in Filter(tokens, currencies).value <==> Named(tokens, currencies, c)
        {
          NamedByOne(tokens, last, c);
        }
      }
    }
  }

  // What a list of contracts stands for

  ghost predicate Registered(tokens: Tokens, contracts: seq<Address>) {
    forall c :: c in contracts ==> c in tokens
  }

  /** The contracts that a request wants to see, in the order of the list: all of them if it names no currency. */
  function Wanted(tokens: Tokens, currencies: seq<Option<Currency>>, contracts: seq<Address>): (r: seq<Address>)
    ensures forall c :: c in r <==> c in contracts && (currencies == [] || Named(tokens, currencies, c))
  {
    if contracts == [] then []
    else
      var init, last := contracts[..|contracts| - 1], contracts[|contracts| - 1];
      assert contracts == init + [last];
      Wanted(tokens, currencies, init) + if currencies == [] || Named(tokens, currencies, last) then [last] else []
  }

  ghost function BalancesOf(
    ledger: Ledger, tokens: Tokens, acct: Address, contracts: seq<Address>, h: uint32
  ): seq<Balance>
    requires Registered(tokens, contracts)
  {
    seq(|contracts|, k requires 0 <= k < |contracts| =>
      Balance(tokens[contracts[k]].currency, IntText(BalanceAt(ledger, Pair(acct, contracts[k]), h))))
  }

  lemma BalancesJoin(
    ledger: Ledger, tokens: Tokens, acct: Address, contracts: seq<Address>, more: seq<Address>, h: uint32
  )
    requires Registered(tokens, contracts) && Registered(tokens, more)
    ensures Registered(tokens, contracts + more)
    ensures BalancesOf(ledger, tokens, acct, contracts + more, h)
         == BalancesOf(ledger, tokens, acct, contracts, h) + BalancesOf(ledger, tokens, acct, more, h)
  {
  }

  lemma OneMoreWanted(
    ledger: Ledger, tokens: Tokens, acct: Address, currencies: seq<Option<Currency>>, init: seq<Address>,
    last: Address, h: uint32
  )
    requires Registered(tokens, init) && last in tokens
    ensures Registered(tokens, Wanted(tokens, currencies, init + [last]))
    ensures var bs := BalancesOf(ledger, tokens, acct, Wanted(tokens, currencies, init), h);
            BalancesOf(ledger, tokens, acct, Wanted(tokens, currencies, init + [last]), h) ==
            if currencies != [] && !Named(tokens, currencies, last) then bs
            else bs + [Balance(tokens[last].currency, IntText(BalanceAt(ledger, Pair(acct, last), h)))]
  {
    var before := Wanted(tokens, currencies, init);
    assert (init + [last])[..|init|] == init;
    if currencies == [] || Named(tokens, currencies, last) {
      BalancesJoin(ledger, tokens, acct, before, [last], h);
    } else {
      assert before + [] == before;
    }
  }

  /**
   An answer lists one balance for every wanted contract, in order, unless a contract on the list is not
   registered: then there is no answer, wanted or not.
   */
  lemma {:induction false} BalancesMean(
    ledger: Ledger, tokens: Tokens, acct: Address, currencies: seq<Option<Currency>>, filter: Option<set<Address>>,
    contracts: seq<Address>, h: uint32
  )
    requires filter.None? <==> currencies == []
    requires filter.Some? ==> forall c :: c in filter.value <==> Named(tokens, currencies, c)
    ensures Balances(ledger, tokens, acct, filter, contracts, h) ==
            if !Registered(tokens, contracts) then Err(CurrencyNotDefined)
            else Ok(BalancesOf(ledger, tokens, acct, Wanted(tokens, currencies, contracts), h))
    decreases |contracts|
  {
    if contracts == [] {
      assert BalancesOf(ledger, tokens, acct, Wanted(tokens, currencies, contracts), h) == [];
    } else {
      var init, last := contracts[..|contracts| - 1], contracts[|contracts| - 1];
      assert contracts == init + [last];
      BalancesMean(ledger, tokens, acct, currencies, filter, init, h);
      if !Registered(tokens, init) {
        var c :| c in init && c !in tokens;
        assert c in contracts;
      } else if last !in tokens {
        assert last in contracts;
      } else {
        assert Registered(tokens, contracts);
        OneMoreWanted(ledger, tokens, acct, currencies, init, last, h);
      }
    }
  }

  // The endpoint

  lemma {:induction false} AllWanted(tokens: Tokens, contracts: seq<Address>)
    ensures Wanted(tokens, [], contracts) == contracts
    decreases |contracts|
  {
    if contracts != [] {
      var init, last := contracts[..|contracts| - 1], contracts[|contracts| - 1];
      AllWanted(tokens, init);
      assert contracts == init + [last];
      assert Wanted(tokens, [], contracts) == Wanted(tokens, [], init) + [last];
    }
  }

  lemma AnsweredLines(
    first: uint32, second: uint32, ledger: Ledger, later: Ledger, tokens: Tokens, pid: Option<PartialId>,
    acct: Address, contracts: seq<Address>
  )
    requires Shaped(ledger) && BalanceAnswer(first, second, ledger, later, tokens, pid, acct, [], contracts).Ok?
    ensures Registered(tokens, contracts)
    ensures var answer := BalanceAnswer(first, second, ledger, later, tokens, pid, acct, [], contracts).value;
            answer.balances == BalancesOf(later, tokens, acct, contracts, answer.height)
  {
    var answer := BalanceAnswer(first, second, ledger, later, tokens, pid, acct, [], contracts).value;
    BalancesMean(later, tokens, acct, [], None, contracts, answer.height);
    AllWanted(tokens, contracts);
  }

  /** One line of an answer. */
  ghost predicate IsLine(line: Balance, ledger: Ledger, tokens: Tokens, acct: Address, contract: Address, h: uint32) {
    && contract in tokens && line.currency == tokens[contract].currency
    && line.value == IntText(BalanceAt(ledger, Pair(acct, contract), h))
  }

  /**
   The account balance endpoint, which is not served offline: without a sub-account it asks for ONT and ONG, in this
   order, and with one for its contract alone; the currencies of the request are passed on.
   */
  method AccountBalance(
    store: Store, offline: bool, id: Option<AccountId>, pid: Option<PartialId>, currencies: seq<Option<Currency>>
  ) returns (r: Result<BalanceResponse, ApiError>)
    requires store.Valid()
    ensures offline ==> r == Err(OfflineMode)
    ensures !offline && (id.None? || id.value.address.NotBase58?) ==> r == Err(InvalidAccountAddress)
    ensures !offline && id.Some? && id.value.address.Base58? ==>
              var latest, ledger, acct := store.GetHeight(), LedgerOf(store.db), id.value.address.addr;
              match id.value.sub
              case None =>
                r == BalanceAnswer(latest, latest, ledger, ledger, store.tokens, pid, acct, currencies, [ONT, ONG])
              case Some(NotHex(_)) => r == Err(InvalidContractAddress)
              case Some(Hex(c)) =>
                r == BalanceAnswer(latest, latest, ledger, ledger, store.tokens, pid, acct, currencies, [c])
    ensures r.Ok? && currencies == [] && id.value.sub.None? ==>
              var acct, bs, h := id.value.address.addr, r.value.balances, r.value.height;
              && |bs| == 2 && IsLine(bs[0], LedgerOf(store.db), store.tokens, acct, ONT, h)
              && IsLine(bs[1], LedgerOf(store.db), store.tokens, acct, ONG, h)
    ensures r.Ok? && currencies == [] && id.value.sub.Some? ==>
              var acct, bs, h := id.value.address.addr, r.value.balances, r.value.height;
              |bs| == 1 && IsLine(bs[0], LedgerOf(store.db), store.tokens, acct, id.value.sub.value.addr, h)
  {
    if offline {
      return Err(OfflineMode);
    }
    if id.None? || id.value.address.NotBase58? {
      return Err(InvalidAccountAddress);
    }
    var acct := id.value.address.addr;
    var contracts: seq<Address>;
    if id.value.sub.None? {
      contracts := [ONT, ONG];
    } else if id.value.sub.value.NotHex? {
      return Err(InvalidContractAddress);
    } else {
      contracts := [id.value.sub.value.addr];
    }
    r := store.GetBalance(pid, acct, currencies, contracts);
    if r.Ok? && currencies == [] {
      var latest := store.GetHeight();
      AnsweredLines(latest, latest, LedgerOf(store.db), LedgerOf(store.db), store.tokens, pid, acct, contracts);
    }
  }
}
