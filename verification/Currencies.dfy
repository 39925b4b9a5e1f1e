/** The table of tokens, and the check of a currency in a request against it. */
module Currencies {
  import opened Addresses
  import opened Errors
  import opened Wrappers

  /** Hex text of an address: what AddressFromHexString parses, or fails on. */
  datatype HexText = Hex(addr: Address) | NotHex(text: string)

  /** metadata of a currency, as far as its contract field goes. */
  datatype Metadata = NoMetadata | NoContract | ContractNotText | Contract(text: HexText)

  datatype Currency = Currency(decimals: int, symbol: string, metadata: Metadata)

  datatype CurrencyInfo = CurrencyInfo(contract: Address, currency: Currency, wasm: bool)

  type Tokens = map<Address, CurrencyInfo>

  /** A configured OEP-4 token. */
  datatype Oep4 = Oep4(contract: Address, decimals: int, symbol: string, wasm: bool)

  function TokenEntry(contract: Address, decimals: int, symbol: string, wasm: bool): CurrencyInfo {
    CurrencyInfo(contract, Currency(decimals, symbol, Contract(Hex(contract))), wasm)
  }

  /** A table in which every token is filed, and described, under its own contract. */
  ghost predicate ValidTokens(tokens: Tokens) {
    forall c :: c in tokens ==> tokens[c].contract == c && tokens[c].currency.metadata == Contract(Hex(c))
  }

  function ContractsOf(oep4: seq<Oep4>): set<Address> {
    if oep4 == [] then {ONG, ONT} else ContractsOf(oep4[..|oep4| - 1]) + {oep4[|oep4| - 1].contract}
  }

  /** The last configured token with a contract, if there is one. */
  function LastToken(oep4: seq<Oep4>, c: Address): (t: Option<Oep4>)
    ensures t.None? <==> forall i :: 0 <= i < |oep4| ==> oep4[i].contract != c
    ensures t.Some? ==> exists i :: 0 <= i < |oep4| && oep4[i] == t.value && t.value.contract == c
                                    && forall j :: i < j < |oep4| ==> oep4[j].contract != c
  {
    if oep4 == [] then None
    else if oep4[|oep4| - 1].contract == c then Some(oep4[|oep4| - 1])
    else LastToken(oep4[..|oep4| - 1], c)
  }

  /** The table says of a contract what was configured last for it, and otherwise what ONG and ONT are. */
  ghost predicate Describes(tokens: Tokens, oep4: seq<Oep4>, ongDecimals: int, ontDecimals: int, c: Address) {
    match LastToken(oep4, c)
    case Some(t) =>
      c in tokens && tokens[c] == CurrencyInfo(c, Currency(t.decimals, t.symbol, Contract(Hex(c))), t.wasm)
    case None =>
      if c == ONG then
        c in tokens && tokens[c] == CurrencyInfo(ONG, Currency(ongDecimals, "ONG", Contract(Hex(ONG))), false)
      else if c == ONT then
        c in tokens && tokens[c] == CurrencyInfo(ONT, Currency(ontDecimals, "ONT", Contract(Hex(ONT))), false)
      else c !in tokens
  }

  lemma LastTokenMore(oep4: seq<Oep4>, t: Oep4, c: Address)
    ensures LastToken(oep4 + [t], c) == if t.contract == c then Some(t) else LastToken(oep4, c)
  {
    assert (oep4 + [t])[..|oep4|] == oep4;
  }

  lemma DescribesMore(
    tokens: Tokens, more: Tokens, oep4: seq<Oep4>, t: Oep4, ongDecimals: int, ontDecimals: int, c: Address
  )
    requires Describes(tokens, oep4, ongDecimals, ontDecimals, c)
    requires more == tokens[t.contract := TokenEntry(t.contract, t.decimals, t.symbol, t.wasm)]
    ensures Describes(more, oep4 + [t], ongDecimals, ontDecimals, c)
  {
    LastTokenMore(oep4, t, c);
    if t.contract != c {
      assert c in more <==> c in tokens;
    }
  }

  lemma DescribesAll(
    tokens: Tokens, more: Tokens, oep4: seq<Oep4>, t: Oep4, ongDecimals: int, ontDecimals: int
  )
    requires forall c: Address :: Describes(tokens, oep4, ongDecimals, ontDecimals, c)
    requires more == tokens[t.contract := TokenEntry(t.contract, t.decimals, t.symbol, t.wasm)]
    ensures forall c: Address :: Describes(more, oep4 + [t], ongDecimals, ontDecimals, c)
  {
    var longer := oep4 + [t];
    forall c: Address
      ensures Describes(more, longer, ongDecimals, ontDecimals, c)
    {
      DescribesMore(tokens, more, oep4, t, ongDecimals, ontDecimals, c);
    }
  }

  /** The table NewStore builds; decimals of ONG and ONT are constants of the chain library. */
  method NewTokens(oep4: seq<Oep4>, ongDecimals: int, ontDecimals: int) returns (tokens: Tokens)
    ensures ValidTokens(tokens)
    ensures tokens.Keys == ContractsOf(oep4)
    ensures forall c: Address :: Describes(tokens, oep4, ongDecimals, ontDecimals, c)
  {
    tokens := map[ONG := TokenEntry(ONG, ongDecimals, "ONG", false), ONT := TokenEntry(ONT, ontDecimals, "ONT", false)];
    assert oep4[..0] == [];
    for i := 0 to |oep4|
      invariant ValidTokens(tokens)
      invariant tokens.Keys == ContractsOf(oep4[..i])
      invariant forall c: Address :: Describes(tokens, oep4[..i], ongDecimals, ontDecimals, c)
    {
      assert oep4[..i + 1] == oep4[..i] + [oep4[i]];
      assert oep4[..i + 1][..i] == oep4[..i];
      var token := oep4[i];
      ghost var before := tokens;
      tokens := tokens[token.contract := TokenEntry(token.contract, token.decimals, token.symbol, token.wasm)];
      DescribesAll(before, tokens, oep4[..i], token, ongDecimals, ontDecimals);
    }
    assert oep4[..|oep4|] == oep4;
  }

  /** validateCurrency: the registered token a request's currency names, if it agrees with it. */
  function ValidateCurrency(tokens: Tokens, c: Option<Currency>): (r: Result<CurrencyInfo, ApiError>)
    ensures ValidTokens(tokens) && r.Ok? ==> r.value.contract in tokens && tokens[r.value.contract] == r.value
    ensures ValidTokens(tokens) && r.Ok? ==> c == Some(r.value.currency)
  {
    if c.None? || !c.value.metadata.Contract? || c.value.metadata.text.NotHex? then Err(InvalidCurrency)
    else if c.value.metadata.text.addr !in tokens then Err(CurrencyNotDefined)
    else
      var info := tokens[c.value.metadata.text.addr];
      if info.currency.decimals != c.value.decimals || info.currency.symbol != c.value.symbol then Err(InvalidCurrency)
      else Ok(info)
  }

  /** A registered token's own description passes the check and names that token. */
  lemma OwnCurrencyValid(tokens: Tokens, c: Address)
    requires ValidTokens(tokens) && c in tokens
    ensures ValidateCurrency(tokens, Some(tokens[c].currency)) == Ok(tokens[c])
  {
  }

  /** Only the registered tokens' own descriptions pass the check. */
  lemma CurrencyChecked(tokens: Tokens, c: Option<Currency>)
    requires ValidTokens(tokens)
    ensures ValidateCurrency(tokens, c).Ok? <==> exists k :: k in tokens && c == Some(tokens[k].currency)
    ensures ValidateCurrency(tokens, c) == Err(CurrencyNotDefined) <==>
            c.Some? && c.value.metadata.Contract? && c.value.metadata.text.Hex? && c.value.metadata.text.addr !in tokens
  {
    if ValidateCurrency(tokens, c).Ok? {
      var k := ValidateCurrency(tokens, c).value.contract;
      assert k in tokens && c == Some(tokens[k].currency);
    }
  }
}
