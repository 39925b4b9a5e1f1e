/** The way from an intent to a transaction (services/construction_service.go). */
module Construction {
  import opened Addresses
  import opened ByteStrings
  import opened Currencies
  import opened Errors
  import opened Index
  import opened Intents
  import opened Keys
  import opened Layout
  import opened Numbers
  import opened Operations
  import opened Stores
  import opened Wrappers

  type uint64 = x: int | 0 <= x < 0x1_0000_0000_0000_0000

  const DEFAULT_GAS_PRICE: uint64 := 2500

  /** model.ConstructOptions, which ConstructionMetadata updates in place. */
  class ConstructOptions {
    var amount: Bytes
    var contract: Bytes
    var from: Bytes
    var gasLimit: uint64
    var gasPrice: uint64
    var nonce: uint32
    var payer: Bytes
    var to: Bytes

    constructor (
      amount: Bytes, contract: Bytes, from: Bytes, gasLimit: uint64, gasPrice: uint64, nonce: uint32, payer: Bytes,
      to: Bytes
    )
      ensures View() == Options(amount, contract, from, gasLimit, gasPrice, nonce, payer, to)
    {
      this.amount := amount;
      this.contract := contract;
      this.from := from;
      this.gasLimit := gasLimit;
      this.gasPrice := gasPrice;
      this.nonce := nonce;
      this.payer := payer;
      this.to := to;
    }

    function View(): Options
      reads this
    {
      Options(amount, contract, from, gasLimit, gasPrice, nonce, payer, to)
    }
  }

  /** The options as a value, as they travel between the endpoints. */
  datatype Options = Options(
    amount: Bytes, contract: Bytes, from: Bytes, gasLimit: uint64, gasPrice: uint64, nonce: uint32, payer: Bytes,
    to: Bytes)

  /** What constructTransfer hands to the builders of invoke code and transaction. */
  datatype Built = Built(
    contract: Address, from: Address, to: Address, amount: nat, payer: Address,
    gasLimit: uint64, gasPrice: uint64, nonce: uint32, wasm: bool)

  /** constructTransfer */
  function ConstructTransfer(tokens: Tokens, o: Options): Option<Built> {
    var contract, from := ParseAddress(o.contract), ParseAddress(o.from);
    var payer, to := ParseAddress(o.payer), ParseAddress(o.to);
    if contract.None? || from.None? || payer.None? || to.None? || contract.value !in tokens then None
    else
      Some(Built(
             contract.value, from.value, to.value, SetBytes(o.amount), payer.value, o.gasLimit, o.gasPrice, o.nonce,
             !IsNative(contract.value) && tokens[contract.value].wasm))
  }

  /** The options speak of a transfer: the four fields that are compared before signing. */
  predicate Carries(o: Options, t: TransferInfo) {
    && o.amount == BigBytes(t.amount) && o.contract == AddressBytes(t.contract)
    && o.from == AddressBytes(t.from) && o.to == AddressBytes(t.to)
  }

  /** Options that speak of a transfer build exactly that transfer, whatever their other fields; if a payer parses. */
  lemma CarriedIsBuilt(tokens: Tokens, o: Options, t: TransferInfo)
    requires t.contract in tokens && t.amount >= 0 && Carries(o, t)
    ensures ConstructTransfer(tokens, o).Some? <==> |o.payer| == 20
    ensures ConstructTransfer(tokens, o).Some? ==>
              var b := ConstructTransfer(tokens, o).value;
              && b.contract == t.contract && b.from == t.from && b.to == t.to && b.amount == t.amount
              && (b.wasm <==> t.contract != ONT && t.contract != ONG && tokens[t.contract].wasm)
  {
    ParseAddressBytes(t.contract);
    ParseAddressBytes(t.from);
    ParseAddressBytes(t.to);
    StoredAmount(t.amount);
  }

  /** The options determine the transfer they speak of. */
  lemma CarriesOne(o: Options, t: TransferInfo, u: TransferInfo)
    requires Carries(o, t) && Carries(o, u) && t.amount >= 0 && u.amount >= 0
    ensures t.amount == u.amount && t.contract == u.contract && t.from == u.from && t.to == u.to
  {
    BigBytesInjective(t.amount, u.amount);
    AddressBytesInjective(t.contract, u.contract);
    AddressBytesInjective(t.from, u.from);
    AddressBytesInjective(t.to, u.to);
  }

  // Preprocess

  /** A field of the request's metadata that is to be a number: a JSON number stands for the real that it denotes. */
  datatype Field = Absent | NotANumber | Number(value: real)

  /** The field payer. */
  datatype PayerField = NoPayer | PayerNotText | PayerText(text: AddressText)

  datatype RequestMetadata = RequestMetadata(gasLimit: Field, gasPrice: Field, nonce: Field, payer: PayerField)

  /** What is read from it; the null address stands for no payer. */
  datatype Settings = Settings(gasLimit: uint64, gasPrice: uint64, nonce: uint32, payer: Address)

  /** The number a field holds, if it is a whole one that fits: getUint64Field up to its last switch. */
  function Whole(f: Field): Option<uint64>
    requires !f.Absent?
  {
    if f.NotANumber? || f.value < 0.0 || f.value >= 18446744073709551616.0 || f.value.Floor as real != f.value then None
    else Some(f.value.Floor)
  }

  /** getUint64Field for the gas limit: 0 asks for the least one. */
  function ReadGasLimit(f: Field, minGasLimit: uint64): Result<uint64, ApiError> {
    if f.Absent? then Ok(0)
    else
      match Whole(f)
      case None => Err(InvalidGasLimit)
      case Some(v) =>
        if v == 0 then Ok(minGasLimit) else if v < minGasLimit then Err(InvalidGasLimit) else Ok(v)
  }

  /** getUint64Field for the gas price: whatever price is given, the default one is read. */
  function ReadGasPrice(f: Field): Result<uint64, ApiError> {
    if f.Absent? then Ok(0) else if Whole(f).None? then Err(InvalidGasPrice) else Ok(DEFAULT_GAS_PRICE)
  }

  /** getUint64Field for the nonce. */
  function ReadNonce(f: Field): Result<uint32, ApiError> {
    if f.Absent? then Ok(0)
    else
      match Whole(f)
      case None => Err(InvalidNonce)
      case Some(v) => if v > 0xffff_ffff then Err(InvalidNonce) else Ok(v)
  }

  /** getPayer */
  function ReadPayer(f: PayerField): Result<Address, ApiError> {
    if f.NoPayer? then Ok(NULL)
    else if f.PayerNotText? || f.text.NotBase58? then Err(InvalidPayerAddress)
    else Ok(f.text.addr)
  }

  /** The fields in the order in which they are read; the first bad one decides the error. */
  function ReadSettings(md: RequestMetadata, minGasLimit: uint64): Result<Settings, ApiError> {
    match ReadGasLimit(md.gasLimit, minGasLimit)
    case Err(e) => Err(e)
    case Ok(limit) =>
      match ReadGasPrice(md.gasPrice)
      case Err(e) => Err(e)
      case Ok(price) =>
        match ReadNonce(md.nonce)
        case Err(e) => Err(e)
        case Ok(nonce) =>
          match ReadPayer(md.payer)
          case Err(e) => Err(e)
          case Ok(payer) => Ok(Settings(limit, price, nonce, payer))
  }

  /** What preprocessing is to put into the options. */
  predicate Asks(o: Options, t: TransferInfo, s: Settings) {
    && Carries(o, t) && o.payer == AddressBytes(if s.payer == NULL then t.from else s.payer)
    && o.gasLimit == s.gasLimit && o.gasPrice == s.gasPrice && o.nonce == s.nonce
  }

  /** ConstructionPreprocess */
  method Preprocess(
    tokens: Tokens, maxFee: bool, multiplier: bool, md: RequestMetadata, minGasLimit: uint64,
    ops: Option<seq<Operation>>
  ) returns (r: Result<Options, ApiError>)
    requires ValidTokens(tokens)
    ensures var read := ReadSettings(md, minGasLimit);
            && (r.Ok? <==> !maxFee && !multiplier && read.Ok? && ops.Some? && exists t :: Intends(tokens, ops.value, t))
            && (r.Ok? ==> exists t :: Intends(tokens, ops.value, t) && Asks(r.value, t, read.value))
            && (maxFee || multiplier ==> r == Err(InvalidRequestField))
            && (!maxFee && !multiplier && read.Err? ==> r == Err(read.error))
  {
    if maxFee || multiplier {
      return Err(InvalidRequestField);
    }
    var read := ReadSettings(md, minGasLimit);
    if read.Err? {
      return Err(read.error);
    }
    var xfer := ValidateOps(tokens, ops);
    if xfer.Err? {
      return Err(xfer.error);
    }
    var s, t := read.value, xfer.value;
    var payer := if s.payer == NULL then t.from else s.payer;
    r := Ok(Options(
              BigBytes(t.amount), AddressBytes(t.contract), AddressBytes(t.from), s.gasLimit, s.gasPrice, s.nonce,
              AddressBytes(payer), AddressBytes(t.to)));
    assert Asks(r.value, t, s);
  }

  // Metadata

  /** The hash of the unsigned transaction. */
  type Hasher = Built -> Hash

  /** Gas price and limit after they were raised: a known price of the node counts even below the default. */
  function Priced(o: Options, gasPrice: Option<uint64>, minGasLimit: uint64): Options {
    var limit := if o.gasLimit < minGasLimit then minGasLimit else o.gasLimit;
    if gasPrice.Some? && gasPrice.value > o.gasPrice then o.(gasPrice := gasPrice.value, gasLimit := limit)
    else if o.gasPrice < DEFAULT_GAS_PRICE then o.(gasPrice := DEFAULT_GAS_PRICE, gasLimit := limit)
    else o.(gasLimit := limit)
  }

  /** A whole number from low to high. */
  predicate WholeWithin(f: Field, low: int, high: int) {
    f.Number? && low as real <= f.value <= high as real && f.value == f.value.Floor as real
  }

  /** Which request metadata reads, and what is read: the nonce and the payer that are asked for are the ones taken. */
  lemma SettingsRead(md: RequestMetadata, minGasLimit: uint64)
    ensures ReadSettings(md, minGasLimit).Ok? <==>
            && (md.gasLimit.Absent? || md.gasLimit == Number(0.0)
                || WholeWithin(md.gasLimit, minGasLimit, 0xffff_ffff_ffff_ffff))
            && (md.gasPrice.Absent? || WholeWithin(md.gasPrice, 0, 0xffff_ffff_ffff_ffff))
            && (md.nonce.Absent? || WholeWithin(md.nonce, 0, 0xffff_ffff))
            && (md.payer.NoPayer? || (md.payer.PayerText? && md.payer.text.Base58?))
    ensures ReadSettings(md, minGasLimit).Ok? ==>
              var s := ReadSettings(md, minGasLimit).value;
              && s.gasLimit == (if md.gasLimit.Absent? then 0
                                else if md.gasLimit.value == 0.0 then minGasLimit else md.gasLimit.value.Floor)
              && s.gasPrice == (if md.gasPrice.Absent? then 0 else 2500)
              && s.nonce == (if md.nonce.Absent? then 0 else md.nonce.value.Floor)
              && s.payer == (if md.payer.NoPayer? then NULL else md.payer.text.addr)
  {
  }

  /** So the options have the nonce and the payer of the request; without a payer the sender pays. */
  lemma OptionsAsked(o: Options, t: TransferInfo, md: RequestMetadata, minGasLimit: uint64)
    requires ReadSettings(md, minGasLimit).Ok? && Asks(o, t, ReadSettings(md, minGasLimit).value)
    ensures o.nonce == if md.nonce.Absent? then 0 else md.nonce.value.Floor
    ensures o.payer == AddressBytes(
                         if md.payer.NoPayer? || md.payer.text.addr == NULL then t.from else md.payer.text.addr)
  {
    SettingsRead(md, minGasLimit);
  }

  /**
   A requested gas price has no effect: with one, the node's price or the default is charged, whichever is higher;
   without one, the node's price, even if it is below the default, unless it is 0 or not known.
   */
  lemma PriceCharged(
    o: Options, t: TransferInfo, md: RequestMetadata, gasPrice: Option<uint64>, minGasLimit: uint64
  )
    requires ReadSettings(md, minGasLimit).Ok? && Asks(o, t, ReadSettings(md, minGasLimit).value)
    ensures Priced(o, gasPrice, minGasLimit).gasPrice ==
            if gasPrice.Some? && gasPrice.value > (if md.gasPrice.Absent? then 0 else DEFAULT_GAS_PRICE)
            then gasPrice.value else DEFAULT_GAS_PRICE
    ensures Priced(o, gasPrice, minGasLimit).gasLimit ==
            if md.gasLimit.Absent? || md.gasLimit.value == 0.0 then minGasLimit else md.gasLimit.value.Floor
  {
  }

  /** With this nonce the options make a transaction that is stored already. */
  ghost predicate Taken(ledger: Ledger, tokens: Tokens, hasher: Hasher, o: Options, nonce: uint32) {
    var txn := ConstructTransfer(tokens, o.(nonce := nonce));
    txn.Some? && Unsigned(hasher(txn.value)) in ledger
  }

  /** One turn of the retry loop: what it draws, and the snapshot of the database that its lookup opens. */
  datatype Turn = Turn(draw: Option<uint32>, view: Database)

  type Turns = s: seq<Turn> | |s| == 100 witness seq(100, _ => Turn(None, map[]))

  /** The draw goes through, and gives a taken nonce. */
  ghost predicate TakenTurn(turn: Turn, tokens: Tokens, hasher: Hasher, o: Options) {
    turn.draw.Some? && Taken(LedgerOf(turn.view), tokens, hasher, o, turn.draw.value)
  }

  /** So do the first n turns. */
  ghost predicate AllTaken(turns: Turns, tokens: Tokens, hasher: Hasher, o: Options, n: nat)
    requires n <= 100
    decreases n
  {
    n == 0 || (AllTaken(turns, tokens, hasher, o, n - 1) && TakenTurn(turns[n - 1], tokens, hasher, o))
  }

  lemma {:induction false} AllTakenAt(turns: Turns, tokens: Tokens, hasher: Hasher, o: Options, n: nat, j: nat)
    requires j < n <= 100 && AllTaken(turns, tokens, hasher, o, n)
    ensures TakenTurn(turns[j], tokens, hasher, o)
    decreases n
  {
    if j < n - 1 {
      AllTakenAt(turns, tokens, hasher, o, n - 1, j);
    }
  }

  lemma {:induction false} AllTakenTogether(turns: Turns, tokens: Tokens, hasher: Hasher, o: Options, n: nat)
    requires n <= 100 && forall j :: 0 <= j < n ==> TakenTurn(turns[j], tokens, hasher, o)
    ensures AllTaken(turns, tokens, hasher, o, n)
    decreases n
  {
    if n > 0 {
      AllTakenTogether(turns, tokens, hasher, o, n - 1);
    }
  }

  /** The turn with which the loop ends: one whose draw fails or gives a free nonce, or else the last one. */
  ghost predicate EndsWith(turns: Turns, tokens: Tokens, hasher: Hasher, o: Options, n: nat)
    requires n < 100
  {
    AllTaken(turns, tokens, hasher, o, n) && (n == 99 || !TakenTurn(turns[n], tokens, hasher, o))
  }

  lemma EndsOnce(turns: Turns, tokens: Tokens, hasher: Hasher, o: Options, n: nat, m: nat)
    requires n < 100 && EndsWith(turns, tokens, hasher, o, n)
    requires m < 100 && EndsWith(turns, tokens, hasher, o, m)
    ensures n == m
  {
    if n < m {
      AllTakenAt(turns, tokens, hasher, o, m, n);
    } else if m < n {
      AllTakenAt(turns, tokens, hasher, o, n, m);
    }
  }

  /**
   Exactly when the options, once priced, get a nonce, and in which turn's snapshot it is looked up: the one they
   came with, if it is free; otherwise the one the loop ends with, if that draw does not fail and is not 0.
   */
  ghost predicate NonceFoundAt(turns: Turns, tokens: Tokens, hasher: Hasher, o: Options, nonce: uint32, n: nat)
    requires n < 100
  {
    if o.nonce != 0 then n == 0 && nonce == o.nonce && !Taken(LedgerOf(turns[0].view), tokens, hasher, o, nonce)
    else nonce != 0 && EndsWith(turns, tokens, hasher, o, n) && turns[n].draw == Some(nonce)
  }

  ghost predicate NonceFound(turns: Turns, tokens: Tokens, hasher: Hasher, o: Options, nonce: uint32) {
    exists n :: 0 <= n < 100 && NonceFoundAt(turns, tokens, hasher, o, nonce, n)
  }

  ghost predicate SomeNonce(turns: Turns, tokens: Tokens, hasher: Hasher, o: Options) {
    exists nonce: uint32 :: NonceFound(turns, tokens, hasher, o, nonce)
  }

  /**
   There is one such nonce at most. In the snapshot of its own lookup it is taken exactly if it was drawn and all
   draws gave taken ones.
   */
  lemma NonceUnique(
    turns: Turns, tokens: Tokens, hasher: Hasher, o: Options, nonce: uint32, n: nat, other: uint32, m: nat
  )
    requires n < 100 && NonceFoundAt(turns, tokens, hasher, o, nonce, n)
    ensures m < 100 && NonceFoundAt(turns, tokens, hasher, o, other, m) ==> other == nonce && m == n
    ensures Taken(LedgerOf(turns[n].view), tokens, hasher, o, nonce)
       <==> o.nonce == 0 && AllTaken(turns, tokens, hasher, o, 100)
  {
    if o.nonce == 0 {
      if AllTaken(turns, tokens, hasher, o, 100) {
        AllTakenAt(turns, tokens, hasher, o, 100, n);
      }
      if m < 100 && NonceFoundAt(turns, tokens, hasher, o, other, m) {
        EndsOnce(turns, tokens, hasher, o, n, m);
      }
    }
  }

  /** An input on which it is taken: the same stored nonce is drawn a hundred times. */
  lemma TakenNonceSet(tokens: Tokens, hasher: Hasher, o: Options, nonce: uint32)
    requires o.nonce == 0 && nonce != 0 && ConstructTransfer(tokens, o.(nonce := nonce)).Some?
    ensures var stored := Unsigned(hasher(ConstructTransfer(tokens, o.(nonce := nonce)).value));
            var turns: Turns := seq(100, _ => Turn(Some(nonce), map[Encoded(stored) := Raw([])]));
            && NonceFoundAt(turns, tokens, hasher, o, nonce, 99)
            && Taken(LedgerOf(turns[99].view), tokens, hasher, o, nonce)
  {
    var stored := Unsigned(hasher(ConstructTransfer(tokens, o.(nonce := nonce)).value));
    var turns: Turns := seq(100, _ => Turn(Some(nonce), map[Encoded(stored) := Raw([])]));
    assert stored in LedgerOf(turns[99].view);
    AllTakenTogether(turns, tokens, hasher, o, 99);
  }

  /**
   ConstructionMetadata. The node's gas price, the random draws and the snapshots that the lookups open are inputs;
   a nonce that was given is looked up in the first one. It succeeds exactly if it is online, the options make a
   transaction and a nonce is found; then price, limit and nonce are set, and no other field is.
   */
  method Metadata(
    tokens: Tokens, hasher: Hasher, opts: ConstructOptions, offline: bool, gasPrice: Option<uint64>,
    minGasLimit: uint64, turns: Turns
  ) returns (error: Option<ApiError>)
    modifies opts
    ensures error.None? <==>
            && !offline && ConstructTransfer(tokens, old(opts.View())).Some?
            && SomeNonce(turns, tokens, hasher, Priced(old(opts.View()), gasPrice, minGasLimit))
    ensures error.None? ==>
              var o := Priced(old(opts.View()), gasPrice, minGasLimit);
              opts.View() == o.(nonce := opts.nonce) && NonceFound(turns, tokens, hasher, o, opts.nonce)
    ensures offline ==> error == Some(OfflineMode)
    ensures !offline && error.Some? ==>
              var built := ConstructTransfer(tokens, old(opts.View())).Some?;
              error == Some(if old(opts.nonce) == 0 && (built || turns[0].draw.None?) then NonceGenerationFailed
                            else if built then InvalidNonce
                            else InvalidConstructOptions)
  {
    if offline {
      return Some(OfflineMode);
    }
    ghost var asked := opts.View();
    RaiseGas(opts, gasPrice, minGasLimit);
    BuiltPriced(tokens, asked, gasPrice, minGasLimit);
    error := FindNonce(tokens, hasher, opts, turns);
  }

  method RaiseGas(opts: ConstructOptions, gasPrice: Option<uint64>, minGasLimit: uint64)
    modifies opts`gasPrice, opts`gasLimit
    ensures opts.View() == Priced(old(opts.View()), gasPrice, minGasLimit)
  {
    if gasPrice.Some? && gasPrice.value > opts.gasPrice {
      opts.gasPrice := gasPrice.value;
    } else if opts.gasPrice < DEFAULT_GAS_PRICE {
      opts.gasPrice := DEFAULT_GAS_PRICE;
    }
    if opts.gasLimit < minGasLimit {
      opts.gasLimit := minGasLimit;
    }
  }

  lemma BuiltPriced(tokens: Tokens, o: Options, gasPrice: Option<uint64>, minGasLimit: uint64)
    ensures ConstructTransfer(tokens, o).Some? <==> ConstructTransfer(tokens, Priced(o, gasPrice, minGasLimit)).Some?
  {
  }

  /** The part of the metadata step that is about the nonce. */
  method FindNonce(tokens: Tokens, hasher: Hasher, opts: ConstructOptions, turns: Turns)
    returns (error: Option<ApiError>)
    modifies opts`nonce
    ensures error.None? <==>
            ConstructTransfer(tokens, old(opts.View())).Some? && SomeNonce(turns, tokens, hasher, old(opts.View()))
    ensures error.None? ==> NonceFound(turns, tokens, hasher, old(opts.View()), opts.nonce)
    ensures error.Some? ==>
              var built := ConstructTransfer(tokens, old(opts.View())).Some?;
              error == Some(if old(opts.nonce) == 0 && (built || turns[0].draw.None?) then NonceGenerationFailed
                            else if built then InvalidNonce
                            else InvalidConstructOptions)
  {
    ghost var o := opts.View();
    if opts.nonce == 0 {
      var n;
      error, n := DrawNonce(tokens, hasher, opts, turns, o);
      if error.None? && opts.nonce == 0 {
        error := Some(NonceGenerationFailed);
      }
      if ConstructTransfer(tokens, o).Some? {
        DrawDecides(turns, tokens, hasher, o, n);
      }
    } else {
      GivenDecides(turns, tokens, hasher, o);
      var taken := Probe(tokens, hasher, opts, turns[0].view);
      error := if taken.Err? then Some(taken.error) else if taken.value then Some(InvalidNonce) else None;
    }
  }

  /** The draw the loop ends with decides whether there is a nonce. */
  lemma DrawDecides(turns: Turns, tokens: Tokens, hasher: Hasher, o: Options, n: nat)
    requires o.nonce == 0 && n < 100 && EndsWith(turns, tokens, hasher, o, n)
    ensures forall nonce: uint32 ::
              NonceFound(turns, tokens, hasher, o, nonce) <==> nonce != 0 && turns[n].draw == Some(nonce)
  {
    forall nonce: uint32
      ensures NonceFound(turns, tokens, hasher, o, nonce) <==> nonce != 0 && turns[n].draw == Some(nonce)
    {
      if nonce != 0 && turns[n].draw == Some(nonce) {
        assert NonceFoundAt(turns, tokens, hasher, o, nonce, n);
      }
      if m :| 0 <= m < 100 && NonceFoundAt(turns, tokens, hasher, o, nonce, m) {
        EndsOnce(turns, tokens, hasher, o, m, n);
      }
    }
  }

  lemma GivenDecides(turns: Turns, tokens: Tokens, hasher: Hasher, o: Options)
    requires o.nonce != 0
    ensures forall nonce: uint32 ::
              NonceFound(turns, tokens, hasher, o, nonce)
              <==> nonce == o.nonce && !Taken(LedgerOf(turns[0].view), tokens, hasher, o, nonce)
  {
    forall nonce: uint32 | nonce == o.nonce && !Taken(LedgerOf(turns[0].view), tokens, hasher, o, nonce)
      ensures NonceFound(turns, tokens, hasher, o, nonce)
    {
      assert NonceFoundAt(turns, tokens, hasher, o, nonce, 0);
    }
  }

  /** Makes the transaction for the present nonce, and asks whether it is stored already. */
  method Probe(tokens: Tokens, hasher: Hasher, opts: ConstructOptions, view: Database)
    returns (r: Result<bool, ApiError>)
    ensures r == if ConstructTransfer(tokens, opts.View()).None? then Err(InvalidConstructOptions)
                 else Ok(Taken(LedgerOf(view), tokens, hasher, opts.View(), opts.nonce))
  {
    var txn := ConstructTransfer(tokens, opts.View());
    if txn.None? {
      return Err(InvalidConstructOptions);
    }
    assert opts.View().(nonce := opts.nonce) == opts.View();
    var known := Store.CheckUnsignedTxHash(view, hasher(txn.value));
    return Ok(known);
  }

  lemma ProbedAnyway(ledger: Ledger, tokens: Tokens, hasher: Hasher, o: Options, nonce: uint32)
    ensures ConstructTransfer(tokens, o).Some? <==> ConstructTransfer(tokens, o.(nonce := nonce)).Some?
    ensures Taken(ledger, tokens, hasher, o.(nonce := nonce), nonce) <==> Taken(ledger, tokens, hasher, o, nonce)
  {
  }

  /** The retry loop before turn n, with the nonce that was drawn last. */
  ghost predicate Drawing(turns: Turns, tokens: Tokens, hasher: Hasher, o: Options, n: nat, nonce: uint32)
    requires n <= 100
  {
    && AllTaken(turns, tokens, hasher, o, n)
    && (n > 0 ==> turns[n - 1].draw == Some(nonce) && ConstructTransfer(tokens, o).Some?)
  }

  /** How one turn goes. */
  ghost predicate Turned(
    turn: Turn, tokens: Tokens, hasher: Hasher, o: Options, error: Option<ApiError>, found: bool, nonce: uint32
  ) {
    if turn.draw.None? then error == Some(NonceGenerationFailed)
    else
      && nonce == turn.draw.value
      && error == (if ConstructTransfer(tokens, o).None? then Some(InvalidConstructOptions) else None)
      && (error.None? ==> (found <==> !TakenTurn(turn, tokens, hasher, o)))
  }

  /** How the loop ends, in turn n. */
  ghost predicate DrawnTo(
    turns: Turns, tokens: Tokens, hasher: Hasher, o: Options, n: nat, error: Option<ApiError>, nonce: uint32
  ) {
    if ConstructTransfer(tokens, o).None? then
      error == Some(if turns[0].draw.None? then NonceGenerationFailed else InvalidConstructOptions)
    else
      && n < 100 && EndsWith(turns, tokens, hasher, o, n)
      && if error.Some? then error == Some(NonceGenerationFailed) && turns[n].draw.None?
         else turns[n].draw == Some(nonce)
  }

  lemma DrawGoesOn(turns: Turns, tokens: Tokens, hasher: Hasher, o: Options, n: nat, last: uint32, nonce: uint32)
    requires n < 100 && Drawing(turns, tokens, hasher, o, n, last)
    requires Turned(turns[n], tokens, hasher, o, None, false, nonce)
    ensures Drawing(turns, tokens, hasher, o, n + 1, nonce)
  {
  }

  lemma DrawEnds(
    turns: Turns, tokens: Tokens, hasher: Hasher, o: Options, n: nat, last: uint32,
    error: Option<ApiError>, found: bool, nonce: uint32
  )
    requires n < 100 && Drawing(turns, tokens, hasher, o, n, last)
    requires Turned(turns[n], tokens, hasher, o, error, found, nonce) && (error.Some? || found)
    ensures DrawnTo(turns, tokens, hasher, o, n, error, nonce)
  {
  }

  lemma DrawsUsedUp(turns: Turns, tokens: Tokens, hasher: Hasher, o: Options, nonce: uint32)
    requires Drawing(turns, tokens, hasher, o, 100, nonce)
    ensures DrawnTo(turns, tokens, hasher, o, 99, None, nonce)
  {
  }

  /** The retry loop: after 100 draws the last nonce stays, taken or not. */
  method DrawNonce(tokens: Tokens, hasher: Hasher, opts: ConstructOptions, turns: Turns, ghost o: Options)
    returns (error: Option<ApiError>, n: nat)
    requires opts.View() == o
    modifies opts`nonce
    ensures opts.View() == o.(nonce := opts.nonce)
    ensures DrawnTo(turns, tokens, hasher, o, n, error, opts.nonce)
  {
    n := 0;
    while n < 100
      invariant n <= 100 && Drawing(turns, tokens, hasher, o, n, opts.nonce)
      invariant opts.View() == o.(nonce := opts.nonce)
    {
      ghost var last := opts.nonce;
      var found;
      error, found := TryDraw(tokens, hasher, opts, turns[n], o);
      if error.Some? || found {
        DrawEnds(turns, tokens, hasher, o, n, last, error, found, opts.nonce);
        return;
      }
      DrawGoesOn(turns, tokens, hasher, o, n, last, opts.nonce);
      n := n + 1;
    }
    DrawsUsedUp(turns, tokens, hasher, o, opts.nonce);
    return None, 99;
  }

  /** One turn of the retry loop. */
  method TryDraw(tokens: Tokens, hasher: Hasher, opts: ConstructOptions, turn: Turn, ghost o: Options)
    returns (error: Option<ApiError>, found: bool)
    requires opts.View() == o.(nonce := opts.nonce)
    modifies opts`nonce
    ensures opts.View() == o.(nonce := opts.nonce)
    ensures Turned(turn, tokens, hasher, o, error, found, opts.nonce)
  {
    if turn.draw.None? {
      return Some(NonceGenerationFailed), false;
    }
    opts.nonce := turn.draw.value;
    ProbedAnyway(LedgerOf(turn.view), tokens, hasher, o, opts.nonce);
    var taken := Probe(tokens, hasher, opts, turn.view);
    if taken.Err? {
      return Some(taken.error), false;
    }
    return None, !taken.value;
  }

  // Payloads

  /** types.SigningPayload */
  datatype SigningPayload = SigningPayload(account: AccountId, bytes: Bytes)

  /** The transaction, and what is to be signed by whom. */
  datatype Payloads = Payloads(txn: Built, signing: seq<SigningPayload>)

  /** The transaction makes the transfer. */
  predicate Performs(txn: Built, t: TransferInfo) {
    txn.contract == t.contract && txn.from == t.from && txn.to == t.to && txn.amount == t.amount
  }

  /**
   ConstructionPayloads: for any options, a transaction comes out only if the operations intend a transfer that
   the options speak of, and then it makes exactly that transfer; its hash is to be signed by the sender and, if
   it is another, by the payer, both with the contract as their sub-account unless it is native.
   */
  method MakePayloads(tokens: Tokens, hasher: Hasher, opts: Options, ops: Option<seq<Operation>>)
    returns (r: Result<Payloads, ApiError>)
    requires ValidTokens(tokens)
    ensures r.Ok? ==> ops.Some? && ConstructTransfer(tokens, opts) == Some(r.value.txn) && exists t ::
                        Intends(tokens, ops.value, t) && Carries(opts, t) && Performs(r.value.txn, t)
    ensures r.Ok? ==>
              var txn, signing := r.value.txn, r.value.signing;
              && |signing| == (if txn.payer == txn.from then 1 else 2)
              && signing[0].account.address == Base58(txn.from)
              && (txn.payer != txn.from ==> signing[1].account.address == Base58(txn.payer))
              && forall k :: 0 <= k < |signing| ==>
                               && signing[k].bytes == HashBytes(hasher(txn))
                               && (signing[k].account.sub == None <==> txn.contract == ONT || txn.contract == ONG)
                               && (signing[k].account.sub == None || signing[k].account.sub == Some(Hex(txn.contract)))
    ensures r.Ok? <==> ops.Some? && |opts.payer| == 20 && exists t :: Intends(tokens, ops.value, t) && Carries(opts, t)
  {
    var xfer := ValidateOps(tokens, ops);
    if xfer.Err? {
      return Err(xfer.error);
    }
    var t := xfer.value;
    OnlyIntent(tokens, ops.value, t);
    if opts.amount != BigBytes(t.amount) || opts.contract != AddressBytes(t.contract)
       || opts.from != AddressBytes(t.from) || opts.to != AddressBytes(t.to) {
      return Err(InvalidConstructOptions);
    }
    CarriedIsBuilt(tokens, opts, t);
    var txn := ConstructTransfer(tokens, opts);
    if txn.None? {
      return Err(InvalidConstructOptions);
    }
    var signing := ListSigning(t, txn.value.payer, HashBytes(hasher(txn.value)));
    return Ok(Payloads(txn.value, signing));
  }

  method ListSigning(t: TransferInfo, payer: Address, bytes: Bytes) returns (signing: seq<SigningPayload>)
    ensures |signing| == (if payer == t.from then 1 else 2)
    ensures signing[0].account.address == Base58(t.from)
    ensures payer != t.from ==> signing[1].account.address == Base58(payer)
    ensures forall k :: 0 <= k < |signing| ==>
                          && signing[k].bytes == bytes
                          && signing[k].account.sub
                             == (if t.contract == ONT || t.contract == ONG then None else Some(Hex(t.contract)))
  {
    var acct := AccountId(Base58(t.from), None);
    if !IsNative(t.contract) {
      acct := acct.(sub := Some(Hex(t.contract)));
    }
    signing := [SigningPayload(acct, bytes)];
    if payer != t.from {
      signing := signing + [SigningPayload(acct.(address := Base58(payer)), bytes)];
    }
  }

  /** What the three endpoints deliver for priced options that ask for a transfer. */
  ghost predicate Fulfils(
    turns: Turns, tokens: Tokens, hasher: Hasher, p: Payloads, t: TransferInfo, payer: Address, o: Options
  ) {
    && Performs(p.txn, t) && p.txn.payer == (if payer == NULL then t.from else payer)
    && p.txn.gasLimit == o.gasLimit && p.txn.gasPrice == o.gasPrice
    && NonceFound(turns, tokens, hasher, o, p.txn.nonce)
  }

  lemma AskedIsBuilt(tokens: Tokens, o: Options, t: TransferInfo, s: Settings)
    requires t.contract in tokens && t.amount >= 0 && Asks(o, t, s)
    ensures ConstructTransfer(tokens, o).Some?
    ensures ConstructTransfer(tokens, o).value.payer == if s.payer == NULL then t.from else s.payer
  {
    CarriedIsBuilt(tokens, o, t);
    ParseAddressBytes(if s.payer == NULL then t.from else s.payer);
  }

  lemma OnlyAsked(tokens: Tokens, ops: seq<Operation>, o: Options, t: TransferInfo, s: Settings)
    requires ValidTokens(tokens) && Intends(tokens, ops, t) && Asks(o, t, s)
    ensures forall u, v :: Intends(tokens, ops, u) && Asks(v, u, s) ==> v == o
  {
    OnlyIntent(tokens, ops, t);
  }

  predicate BuiltAs(txn: Built, o: Options, payer: Address) {
    txn.payer == payer && txn.gasLimit == o.gasLimit && txn.gasPrice == o.gasPrice && txn.nonce == o.nonce
  }

  /** The options still ask for the transfer after the metadata step. */
  lemma AskedGoesOn(
    tokens: Tokens, o: Options, t: TransferInfo, s: Settings, nodePrice: Option<uint64>, minGasLimit: uint64,
    found: uint32
  )
    requires t.contract in tokens && t.amount >= 0 && Asks(o, t, s)
    ensures var done := Priced(o, nodePrice, minGasLimit).(nonce := found);
            && Carries(done, t) && |done.payer| == 20
            && ConstructTransfer(tokens, done).Some?
            && BuiltAs(ConstructTransfer(tokens, done).value, done, if s.payer == NULL then t.from else s.payer)
  {
    var done := Priced(o, nodePrice, minGasLimit).(nonce := found);
    AskedIsBuilt(tokens, done, t, Settings(done.gasLimit, done.gasPrice, found, s.payer));
  }

  /** Preprocessing and then the metadata step, on the options that it gives. */
  method Prepare(
    tokens: Tokens, hasher: Hasher, md: RequestMetadata, ops: seq<Operation>, nodePrice: Option<uint64>,
    minGasLimit: uint64, turns: Turns
  ) returns (accepted: bool, passed: bool, done: Options, ghost asked: Options, ghost t: TransferInfo)
    requires ValidTokens(tokens)
    ensures accepted <==> ReadSettings(md, minGasLimit).Ok? && exists u :: Intends(tokens, ops, u)
    ensures passed ==> accepted
    ensures accepted ==> Intends(tokens, ops, t) && Asks(asked, t, ReadSettings(md, minGasLimit).value)
    ensures accepted ==> (passed <==> SomeNonce(turns, tokens, hasher, Priced(asked, nodePrice, minGasLimit)))
    ensures passed ==>
              var priced := Priced(asked, nodePrice, minGasLimit);
              done == priced.(nonce := done.nonce) && NonceFound(turns, tokens, hasher, priced, done.nonce)
  {
    var pre := Preprocess(tokens, false, false, md, minGasLimit, Some(ops));
    accepted, passed := pre.Ok?, false;
    done := Options([], [], [], 0, 0, 0, [], []);
    asked, t := done, TransferInfo(0, NULL, Currency(0, "", NoMetadata), NULL, false, NULL);
    if pre.Err? {
      return;
    }
    var o := pre.value;
    asked := o;
    var opts := new ConstructOptions(o.amount, o.contract, o.from, o.gasLimit, o.gasPrice, o.nonce, o.payer, o.to);
    t :| Intends(tokens, ops, t) && Asks(o, t, ReadSettings(md, minGasLimit).value);
    AskedIsBuilt(tokens, o, t, ReadSettings(md, minGasLimit).value);
    var error := Metadata(tokens, hasher, opts, false, nodePrice, minGasLimit, turns);
    passed, done := error.None?, opts.View();
  }

  /**
   The three endpoints in a row on the same operations: what preprocessing accepts goes through exactly if a
   nonce is found, never fails the checks before signing, and is built as intended and priced.
   */
  method Pipeline(
    tokens: Tokens, hasher: Hasher, md: RequestMetadata, ops: seq<Operation>, nodePrice: Option<uint64>,
    minGasLimit: uint64, turns: Turns
  ) returns (accepted: bool, passed: bool, r: Result<Payloads, ApiError>)
    requires ValidTokens(tokens)
    ensures accepted <==> ReadSettings(md, minGasLimit).Ok? && exists t :: Intends(tokens, ops, t)
    ensures passed ==> accepted
    ensures accepted ==>
              forall t, o :: Intends(tokens, ops, t) && Asks(o, t, ReadSettings(md, minGasLimit).value) ==>
                               (passed <==> SomeNonce(turns, tokens, hasher, Priced(o, nodePrice, minGasLimit)))
    ensures r.Ok? <==> passed
    ensures r.Ok? ==>
              var s := ReadSettings(md, minGasLimit).value;
              exists t, o :: Intends(tokens, ops, t) && Asks(o, t, s)
                             && Fulfils(turns, tokens, hasher, r.value, t, s.payer, Priced(o, nodePrice, minGasLimit))
    ensures r.Ok? ==>
              var txn, signing := r.value.txn, r.value.signing;
              && (if md.payer.PayerText? && md.payer.text.Base58? && md.payer.text.addr != NULL
                  then txn.payer == md.payer.text.addr else txn.payer == txn.from)
              && |signing| == (if txn.payer == txn.from then 1 else 2)
              && signing[0].account.address == Base58(txn.from)
              && (txn.payer != txn.from ==> signing[1].account.address == Base58(txn.payer))
              && forall k :: 0 <= k < |signing| ==>
                               && signing[k].bytes == HashBytes(hasher(txn))
                               && (signing[k].account.sub == None <==> txn.contract == ONT || txn.contract == ONG)
                               && (signing[k].account.sub == None || signing[k].account.sub == Some(Hex(txn.contract)))
  {
    r := Err(InvalidOpsIntent);
    var done: Options;
    ghost var o, t;
    accepted, passed, done, o, t := Prepare(tokens, hasher, md, ops, nodePrice, minGasLimit, turns);
    if !accepted {
      return;
    }
    ghost var s := ReadSettings(md, minGasLimit).value;
    OnlyAsked(tokens, ops, o, t, s);
    if !passed {
      return;
    }
    AskedGoesOn(tokens, o, t, s, nodePrice, minGasLimit, done.nonce);
    r := MakePayloads(tokens, hasher, done, Some(ops));
    OnlyIntent(tokens, ops, t);
    SettingsRead(md, minGasLimit);
    assert Fulfils(turns, tokens, hasher, r.value, t, s.payer, Priced(o, nodePrice, minGasLimit));
  }
}
